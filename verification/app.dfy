/**
 * The older checkout screen of src/App.jsx: its form handlers, its own
 * `buildInvoicePayload` and `handleApplyDiscount`, and `doRefresh`, the
 * timer-driven token refresh that works on storage alone.
 *
 * Storage is the map of the session manager; the form is a plain object;
 * each network call's outcome is a parameter.
 */
module App {
  import opened Wrappers
  import opened JsValue
  import JsText
  import Records
  import Auth
  import Invoice
  import CheckoutContext

  // ---------------------------------------------------------------------------
  // Form handlers
  // ---------------------------------------------------------------------------

  type Form = seq<(string, Value)>

  /** `setFormData(prev => ({ ...prev, [name]: value }))`. */
  function InputChange(form: Form, name: string, value: Value): (r: Form)
    ensures Records.Lookup(r, name) == Some(value)
    ensures forall k :: k != name ==> Records.Lookup(r, k) == Records.Lookup(form, k)
  {
    Records.Put(form, name, value)
  }

  /** `prev[name]`, `undefined` when the form has no such field. */
  function Field(form: Form, name: string): Value {
    Records.Lookup(form, name).GetOr(Undefined)
  }

  /** `setFormData(prev => ({ ...prev, [name]: !prev[name] }))`. */
  function Toggle(form: Form, name: string): (r: Form)
    ensures Records.Lookup(r, name) == Some(Bool(!Truthy(Field(form, name))))
    ensures forall k :: k != name ==> Records.Lookup(r, k) == Records.Lookup(form, k)
  {
    Records.Put(form, name, Bool(!Truthy(Field(form, name))))
  }

  /** An existing field is changed in place: the form keeps its keys in their order. */
  lemma ChangeKeepsLayout(form: Form, name: string, value: Value)
    requires Records.HasKey(form, name)
    ensures Records.Keys(InputChange(form, name, value)) == Records.Keys(form)
    ensures Records.Keys(Toggle(form, name)) == Records.Keys(form)
  {
    Records.PutExisting(form, name, value);
    Records.PutExisting(form, name, Bool(!Truthy(Field(form, name))));
  }

  /** Toggling a boolean field twice restores it; a non-boolean field comes back as a boolean. */
  lemma ToggleTwice(form: Form, name: string)
    ensures Field(Toggle(Toggle(form, name), name), name) == Bool(Truthy(Field(form, name)))
    ensures Field(form, name).Bool? ==> Field(Toggle(Toggle(form, name), name), name) == Field(form, name)
  {
  }

  /** Toggling a field the form does not have adds it as `true`. */
  lemma ToggleMissingField(form: Form, name: string)
    requires !Records.HasKey(form, name)
    ensures Toggle(form, name) == form + [(name, Bool(true))]
  {
    Records.PutFresh(form, name, Bool(true));
  }

  // ---------------------------------------------------------------------------
  // buildInvoicePayload
  // ---------------------------------------------------------------------------

  /** `membership ? [entry] : []`: this builder only asks whether the membership is truthy. */
  function MembershipList(membership: Value): (r: seq<Value>)
    ensures r != [] <==> Truthy(membership)
    ensures r != [] ==> r == [Invoice.MembershipEntry(membership)]
  {
    if Truthy(membership) then [Invoice.MembershipEntry(membership)] else []
  }

  /** The arguments `handleApplyDiscount` passes. */
  datatype Arguments = Arguments(
    key: string, siteId: Value, promoCode: string,
    customerId: Value, vehicleId: Value, services: Value, membership: Value)

  /**
   * `buildInvoicePayload({...})`: the stripped literal, or `None` when mapping
   * a null or undefined service throws. The parameter defaults only replace
   * `undefined`, which every test below treats like the default.
   */
  function BuildInvoicePayload(a: Arguments): (r: Option<seq<(string, Value)>>)
    ensures r.Some? <==> Invoice.ServicesReadable(a.services)
  {
    if Invoice.ServicesReadable(a.services) then
      Some(Invoice.Payload(Invoice.InvoiceInput(
        Str(a.key), a.siteId, a.customerId, a.vehicleId, a.services, MembershipList(a.membership), a.promoCode)))
    else None
  }

  /** `membershipSaleList` is sent exactly when the membership object is truthy, whatever its id. */
  lemma AppMembershipIff(a: Arguments)
    requires Invoice.ServicesReadable(a.services)
    ensures Records.HasKey(BuildInvoicePayload(a).value, "membershipSaleList") <==> Truthy(a.membership)
  {
    Invoice.MembershipListSent(Invoice.InvoiceInput(
      Str(a.key), a.siteId, a.customerId, a.vehicleId, a.services, MembershipList(a.membership), a.promoCode), a.membership);
  }

  /** The code entry is sent exactly when the promo code is non-empty, and carries it. */
  lemma AppDiscountIff(a: Arguments)
    requires Invoice.ServicesReadable(a.services)
    ensures Records.Lookup(BuildInvoicePayload(a).value, "discountRedeemList")
      == if a.promoCode != "" then Some(Arr([Invoice.PromoEntry(a.promoCode)])) else None
  {
    Invoice.DiscountEntryIff(Invoice.InvoiceInput(
      Str(a.key), a.siteId, a.customerId, a.vehicleId, a.services, MembershipList(a.membership), a.promoCode));
  }

  /**
   * A membership whose id is 0 still gets an entry here, while the checkout
   * provider, which tests the id, sends none for the same selection.
   */
  lemma MembershipTestsDiverge(a: Arguments, st: CheckoutContext.State)
    requires Invoice.ServicesReadable(a.services) && Invoice.ServicesReadable(st.selectedServices)
    requires a.membership == Obj([("membershipId", Num(0))]) && st.selectedMembership == a.membership
    ensures Records.HasKey(BuildInvoicePayload(a).value, "membershipSaleList")
    ensures !Records.HasKey(CheckoutContext.BuildInvoicePayload(st).value, "membershipSaleList")
  {
    AppMembershipIff(a);
    CheckoutContext.PayloadMembershipIff(st);
    assert Get(a.membership, "membershipId") == Num(0);
  }

  // ---------------------------------------------------------------------------
  // handleApplyDiscount
  // ---------------------------------------------------------------------------

  /** The parts of the screen's state the handler reads. */
  datatype Screen = Screen(
    apiKey: string, form: Form, customerId: Value, vehicleId: Value,
    selectedServices: Value, selectedMembership: Value, loading: bool)

  /** `apiKey || import.meta.env.VITE_API_KEY || ""`, with a missing variable read as "". */
  function KeyOf(apiKey: string, envKey: string): (k: string)
    ensures apiKey != "" ==> k == apiKey
    ensures apiKey == "" ==> k == envKey
  {
    if apiKey != "" then apiKey else envKey
  }

  /**
   * `(formData.couponCode || "").trim()`; `None` when a truthy non-string
   * (a toggled field, say) has no `trim` and the call throws.
   */
  function PromoOf(form: Form): (r: Option<string>)
    ensures !Truthy(Field(form, "couponCode")) ==> r == Some("")
    ensures Field(form, "couponCode").Str? ==> r == Some(JsText.Trim(Field(form, "couponCode").s))
  {
    var code := Field(form, "couponCode");
    if !Truthy(code) then Some("") else if code.Str? then Some(JsText.Trim(code.s)) else None
  }

  /** The POST this handler sends: URL, `Authorization` header and body. */
  datatype Post = Post(url: string, authorization: string, body: seq<(string, Value)>)

  datatype Discounted = Discounted(screen: Screen, request: Option<Post>)

  /** The arguments built from the screen, for a non-empty promo. */
  function ArgumentsOf(sc: Screen, envKey: string, promo: string): Arguments {
    Arguments(KeyOf(sc.apiKey, envKey), Invoice.SiteIdOf(Field(sc.form, "assignToLocSite")), promo,
      sc.customerId, sc.vehicleId, sc.selectedServices, sc.selectedMembership)
  }

  /**
   * `handleApplyDiscount()`. The loading flag is set first and cleared in
   * `finally`, so it ends false on every path; the response is only logged,
   * so nothing else ever changes. The token is read but never checked: a
   * missing one is sent as the text "null".
   */
  function ApplyDiscount(sc: Screen, storage: Auth.Storage, envKey: string, base: string): (r: Discounted)
    ensures r.screen == sc.(loading := false)
  {
    var done := sc.(loading := false);
    var promo := PromoOf(sc.form);
    if promo.None? || promo.value == "" || !Truthy(Field(sc.form, "assignToLocSite")) then Discounted(done, None)
    else
      match BuildInvoicePayload(ArgumentsOf(sc, envKey, promo.value))
      case None => Discounted(done, None)
      case Some(payload) =>
        var token := Auth.StorageGet(storage, Auth.AccessKey);
        var bearer := "Bearer " + (if token.Some? then token.value else "null");
        Discounted(done, Some(Post(base + CheckoutContext.TotalsPath, bearer, payload)))
  }

  /** The guards: a usable non-empty promo, a selected site and readable services; no token is needed. */
  predicate Sends(sc: Screen) {
    && PromoOf(sc.form).Some? && PromoOf(sc.form).value != ""
    && Truthy(Field(sc.form, "assignToLocSite"))
    && Invoice.ServicesReadable(sc.selectedServices)
  }

  /** A request goes out exactly when the guards pass, with or without a stored token. */
  lemma AppSendsIff(sc: Screen, storage: Auth.Storage, envKey: string, base: string)
    ensures ApplyDiscount(sc, storage, envKey, base).request.Some? <==> Sends(sc)
  {
  }

  /** The request's body is the payload for the trimmed promo, the fallback key and the converted site. */
  lemma AppRequestBody(sc: Screen, storage: Auth.Storage, envKey: string, base: string)
    requires Sends(sc)
    ensures ApplyDiscount(sc, storage, envKey, base).request.value.body
      == BuildInvoicePayload(ArgumentsOf(sc, envKey, PromoOf(sc.form).value)).value
    ensures ApplyDiscount(sc, storage, envKey, base).request.value.url == base + CheckoutContext.TotalsPath
  {
  }

  /** Without a stored token the request still goes out, as `Bearer null`. */
  lemma MissingTokenSentAsNull(sc: Screen, storage: Auth.Storage, envKey: string, base: string)
    requires Sends(sc) && Auth.AccessKey !in storage
    ensures ApplyDiscount(sc, storage, envKey, base).request.value.authorization == "Bearer null"
  {
  }

  /** A blank site id passes the guard, reads as the number 0, and so is sent as the blank string itself. */
  lemma BlankSiteSentAsString(site: string)
    requires site != [] && JsText.AllSpace(site)
    ensures Truthy(Str(site))
    ensures Invoice.SiteIdOf(Str(site)) == Str(site)
  {
    JsText.BlankStringIsZero(site);
  }

  // ---------------------------------------------------------------------------
  // doRefresh
  // ---------------------------------------------------------------------------

  /** `data?.data?.x ?? data?.x`: the nested field unless it is null or undefined; "" does not fall back. */
  function Fallback(nested: Option<string>, top: Option<string>): (r: Option<string>)
    ensures nested.Some? ==> r == nested
    ensures nested.None? ==> r == top
  {
    if nested.Some? then nested else top
  }

  function NextAccess(b: Auth.RefreshBody): Option<string> {
    Fallback(Auth.NestedAccess(b), b.top.accessToken)
  }

  function NextRefresh(b: Auth.RefreshBody): Option<string> {
    Fallback(Auth.NestedRefresh(b), b.top.refreshToken)
  }

  datatype Rotated = Rotated(session: Auth.Session, result: Option<Auth.TokenPair>, request: Option<Auth.RefreshRequest>)

  /**
   * `doRefresh()`, with the environment's key and the call's outcome as
   * inputs. It reads and writes storage only: failures return null and keep
   * whatever was stored, and the session manager's memory is never touched.
   */
  function DoRefresh(s: Auth.Session, envKey: string, outcome: Auth.RefreshOutcome): (r: Rotated)
    ensures r.session.memory == s.memory && r.session.inFlight == s.inFlight
    ensures r.request.Some? <==> Auth.StorageHasPair(s.storage)
    ensures r.request.Some? ==>
      r.request.value == Auth.RefreshRequest(envKey, s.storage[Auth.RefreshKey], s.storage[Auth.AccessKey])
    ensures r.result.None? ==> r.session == s
    ensures r.result.Some? ==> r.session.storage == s.storage[Auth.AccessKey := r.result.value.accessToken][Auth.RefreshKey := r.result.value.refreshToken]
    ensures r.result.Some? ==> r.result.value.accessToken != "" && r.result.value.refreshToken != ""
  {
    var access := Auth.StorageGet(s.storage, Auth.AccessKey);
    var refresh := Auth.StorageGet(s.storage, Auth.RefreshKey);
    if !TruthyString(access) || !TruthyString(refresh) then Rotated(s, None, None)
    else
      var request := Auth.RefreshRequest(envKey, refresh.value, access.value);
      match outcome
      case Threw => Rotated(s, None, Some(request))
      case Responded(status, body) =>
        if body.None? || !Auth.IsOk(status) then Rotated(s, None, Some(request))
        else
          var a := NextAccess(body.value);
          var f := NextRefresh(body.value);
          if TruthyString(a) && TruthyString(f) then
            var pair := Auth.TokenPair(a.value, f.value);
            Rotated(s.(storage := s.storage[Auth.AccessKey := a.value][Auth.RefreshKey := f.value]), Some(pair), Some(request))
          else Rotated(s, None, Some(request))
  }

  /** A rotation succeeds exactly when an ok, parsed answer yields two non-empty tokens, nested first. */
  lemma DoRefreshSucceedsIff(s: Auth.Session, envKey: string, status: int, body: Auth.RefreshBody)
    requires Auth.StorageHasPair(s.storage)
    ensures DoRefresh(s, envKey, Auth.Responded(status, Some(body))).result.Some? <==>
      Auth.IsOk(status) && TruthyString(NextAccess(body)) && TruthyString(NextRefresh(body))
    ensures DoRefresh(s, envKey, Auth.Responded(status, Some(body))).result.Some? ==>
      DoRefresh(s, envKey, Auth.Responded(status, Some(body))).result
        == Some(Auth.TokenPair(NextAccess(body).value, NextRefresh(body).value))
  {
  }

  /** Unlike the session manager's refresh, an answer with top-level tokens only is accepted. */
  lemma TopLevelTokensAccepted(s: Auth.Session, envKey: string, status: int, access: string, refresh: string)
    requires Auth.StorageHasPair(s.storage) && Auth.IsOk(status) && access != "" && refresh != ""
    ensures
      var body := Auth.RefreshBody(None, Auth.TokenFields(Some(access), Some(refresh)));
      && DoRefresh(s, envKey, Auth.Responded(status, Some(body))).result == Some(Auth.TokenPair(access, refresh))
      && Auth.SettleRefresh(s, Auth.Responded(status, Some(body))).result.None?
  {
  }

  /** A nested empty token is not null, so `??` keeps it and the rotation fails even with good top-level tokens. */
  lemma NestedEmptyDoesNotFallBack(s: Auth.Session, envKey: string, status: int, top: Auth.TokenFields, nestedRefresh: Option<string>)
    requires Auth.StorageHasPair(s.storage)
    ensures
      var body := Auth.RefreshBody(Some(Auth.TokenFields(Some(""), nestedRefresh)), top);
      DoRefresh(s, envKey, Auth.Responded(status, Some(body))).result.None?
  {
  }

  /** Where the session manager's failed refresh clears the tokens, a failed rotation keeps them. */
  lemma FailureKeepsStorage(s: Auth.Session, envKey: string, outcome: Auth.RefreshOutcome)
    requires Auth.StorageHasPair(s.storage)
    requires DoRefresh(s, envKey, outcome).result.None?
    ensures Auth.StorageHasPair(DoRefresh(s, envKey, outcome).session.storage)
    ensures Auth.SettleRefresh(s, outcome).result.None? ==> !Auth.StorageHasPair(Auth.SettleRefresh(s, outcome).session.storage)
  {
  }

  /**
   * After a successful rotation, a session manager that had cached the old
   * pair still hands it out: storage holds the new pair, memory the old one.
   */
  lemma StaleCacheAfterRotation(s: Auth.Session, envKey: string, outcome: Auth.RefreshOutcome)
    requires s.memory.Some?
    requires DoRefresh(s, envKey, outcome).result.Some?
    requires DoRefresh(s, envKey, outcome).result != s.memory
    ensures Auth.GetTokens(DoRefresh(s, envKey, outcome).session).tokens == s.memory
    ensures Auth.GetTokens(DoRefresh(s, envKey, outcome).session).tokens != DoRefresh(s, envKey, outcome).result
    ensures !Auth.Coherent(DoRefresh(s, envKey, outcome).session)
  {
  }
}
