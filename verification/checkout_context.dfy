/**
 * The checkout provider of src/context/CheckoutContext.jsx: the shared
 * checkout state, the invoice payload built from it, `applyDiscount` (which
 * posts that payload and stores the server's totals), `clearTotals`, and
 * the `derivedTotals` shown while the server's totals are missing.
 *
 * React's state hooks become an explicit `State` record; every action is a
 * function from the state before to the state after. The access token is
 * read from an explicit storage map and the network call's outcome is a
 * parameter.
 */
module CheckoutContext {
  import opened Wrappers
  import opened JsValue
  import JsText
  import Records
  import Auth
  import Invoice

  /** The provider's state; `applying` is the loading flag. */
  datatype State = State(
    apiKey: string,
    siteId: Value,
    customerId: Value,
    vehicleId: Value,
    selectedMembership: Value,
    selectedServices: Value,
    couponCode: string,
    invoiceTotals: Value,
    applying: bool)

  /** The initial state: empty key and coupon, no site, ids, membership or totals, no services. */
  const Initial: State := State("", Null, Null, Null, Null, Arr([]), "", Null, false)

  // ---------------------------------------------------------------------------
  // buildInvoicePayload
  // ---------------------------------------------------------------------------

  /** `(couponCode || "").trim()`. */
  function Promo(st: State): string {
    JsText.Trim(st.couponCode)
  }

  /** `selectedMembership?.membershipId ? [entry] : []`: the entry needs a truthy id. */
  function MembershipList(m: Value): (r: seq<Value>)
    ensures r != [] <==> Truthy(Get(m, "membershipId"))
    ensures r != [] ==> r == [Invoice.MembershipEntry(m)]
  {
    if Truthy(Get(m, "membershipId")) then [Invoice.MembershipEntry(m)] else []
  }

  /** What this builder feeds into the shared literal. */
  function InputOf(st: State): Invoice.InvoiceInput {
    Invoice.InvoiceInput(
      Str(st.apiKey), Invoice.SiteIdOf(st.siteId), st.customerId, st.vehicleId,
      st.selectedServices, MembershipList(st.selectedMembership), Promo(st))
  }

  /**
   * `buildInvoicePayload()`: the stripped literal, or `None` when mapping the
   * services throws (a null or undefined service).
   */
  function BuildInvoicePayload(st: State): (r: Option<seq<(string, Value)>>)
    ensures r.Some? <==> Invoice.ServicesReadable(st.selectedServices)
  {
    if Invoice.ServicesReadable(st.selectedServices) then Some(Invoice.Payload(InputOf(st))) else None
  }

  /** The code entry carries the trimmed coupon, and is there exactly when that is non-empty. */
  lemma PayloadDiscountIff(st: State)
    requires Invoice.ServicesReadable(st.selectedServices)
    ensures Records.HasKey(BuildInvoicePayload(st).value, "discountRedeemList") <==> !JsText.AllSpace(st.couponCode)
    ensures Records.HasKey(BuildInvoicePayload(st).value, "discountRedeemList") ==>
      Records.Lookup(BuildInvoicePayload(st).value, "discountRedeemList") == Some(Arr([Invoice.PromoEntry(Promo(st))]))
  {
    Invoice.DiscountEntryIff(InputOf(st));
    JsText.TrimEmptyIffAllSpace(st.couponCode);
  }

  /** The coupon is sent without surrounding whitespace. */
  lemma PromoHasNoOuterSpace(st: State)
    ensures Promo(st) == [] || (!JsText.IsJsSpace(Promo(st)[0]) && !JsText.IsJsSpace(Promo(st)[|Promo(st)| - 1]))
  {
    JsText.TrimHasNoOuterSpace(st.couponCode);
  }

  /** `membershipSaleList` is sent exactly when the selected membership has a truthy id. */
  lemma PayloadMembershipIff(st: State)
    requires Invoice.ServicesReadable(st.selectedServices)
    ensures Records.HasKey(BuildInvoicePayload(st).value, "membershipSaleList") <==> Truthy(Get(st.selectedMembership, "membershipId"))
  {
    Invoice.MembershipListSent(InputOf(st), st.selectedMembership);
  }

  /** The site id is sent as `Number(siteId) || siteId` whenever that is a defined scalar. */
  lemma SiteIdSent(st: State, v: Value)
    requires Invoice.ServicesReadable(st.selectedServices)
    requires Invoice.SiteIdOf(st.siteId) == v && !v.Undefined? && !v.Arr? && !v.Obj?
    ensures Records.Lookup(BuildInvoicePayload(st).value, "siteId") == Some(v)
  {
    var input := InputOf(st);
    assert input.siteId == v;
    assert Invoice.InvoiceKeys[1] == "siteId";
    Invoice.ScalarSent(input, 1, v);
  }

  /** A site id held as a numeric string is sent as the number. */
  lemma NumericSiteIdSent(st: State, n: int)
    requires Invoice.ServicesReadable(st.selectedServices)
    requires st.siteId == Str(JsText.IntToString(n)) && n != 0
    ensures Records.Lookup(BuildInvoicePayload(st).value, "siteId") == Some(Num(n))
  {
    NumericSiteId(n);
    SiteIdSent(st, Num(n));
  }

  lemma NumericSiteId(n: int)
    requires n != 0
    ensures Invoice.SiteIdOf(Str(JsText.IntToString(n))) == Num(n)
  {
    ToNumberOfString(n);
    assert ToJsString(Num(n)) == JsText.IntToString(n);
  }

  /** A site id of "0" is falsy as a number, so the string itself is sent. */
  lemma ZeroSiteIdSentAsString(st: State)
    requires Invoice.ServicesReadable(st.selectedServices)
    requires st.siteId == Str("0")
    ensures Records.Lookup(BuildInvoicePayload(st).value, "siteId") == Some(Str("0"))
  {
    ZeroSiteId();
    SiteIdSent(st, Str("0"));
  }

  lemma ZeroSiteId()
    ensures Invoice.SiteIdOf(Str("0")) == Str("0")
  {
    ToNumberOfString(0);
    assert ToJsString(Num(0)) == "0";
  }

  // ---------------------------------------------------------------------------
  // sumAmounts
  // ---------------------------------------------------------------------------

  /** `Number(s.amount ?? 0)`. */
  function AmountOf(s: Value): (r: Value)
    ensures IsNumber(r)
  {
    ToNumber(Coalesce(Get(s, "amount"), Num(0)))
  }

  /** The `reduce` loop from accumulator `acc` over `items`. */
  function SumFrom(acc: Value, items: seq<Value>): (r: Value)
    requires IsNumber(acc)
    ensures IsNumber(r)
    decreases |items|
  {
    if |items| == 0 then acc else SumFrom(NumAdd(acc, AmountOf(items[0])), items[1..])
  }

  /**
   * `(list || []).reduce((acc, s) => acc + Number(s.amount ?? 0), 0)`:
   * `None` when it throws, which a truthy non-array (no `reduce`) or a
   * null or undefined element (`s.amount`) makes it do.
   */
  function SumAmounts(list: Value): (r: Option<Value>)
    ensures r.Some? <==> !Truthy(list) || (list.Arr? && Invoice.ServicesReadable(list))
    ensures r.Some? ==> IsNumber(r.value)
    ensures !Truthy(list) ==> r == Some(Num(0))
  {
    if !Truthy(list) then Some(Num(0))
    else if list.Arr? && Invoice.ServicesReadable(list) then Some(SumFrom(Num(0), list.items))
    else None
  }

  /** Every amount converts to an integer (none is NaN). */
  predicate AllAmountsNumeric(items: seq<Value>) {
    forall i :: 0 <= i < |items| ==> AmountOf(items[i]).Num?
  }

  /** The integer sum of the amounts, as a plain recursive definition. */
  function AmountTotal(items: seq<Value>): int
    requires AllAmountsNumeric(items)
  {
    if |items| == 0 then 0 else AmountOf(items[0]).n + AmountTotal(items[1..])
  }

  /**
   * The fold agrees with the plain sum when every amount is numeric, and one
   * amount that `Number` cannot read makes the whole sum NaN.
   */
  lemma {:induction false} SumFromMatchesTotal(acc: Value, items: seq<Value>)
    requires IsNumber(acc)
    ensures SumFrom(acc, items).Num? <==> acc.Num? && AllAmountsNumeric(items)
    ensures SumFrom(acc, items).Num? ==> SumFrom(acc, items).n == acc.n + AmountTotal(items)
    decreases |items|
  {
    if |items| > 0 {
      var next := NumAdd(acc, AmountOf(items[0]));
      SumFromMatchesTotal(next, items[1..]);
      if AllAmountsNumeric(items) {
        assert AllAmountsNumeric(items[1..]) by {
          forall i | 0 <= i < |items[1..]| ensures AmountOf(items[1..][i]).Num? {
            assert items[1..][i] == items[i + 1];
          }
        }
      } else if AllAmountsNumeric(items[1..]) {
        assert !AmountOf(items[0]).Num? by {
          var i :| 0 <= i < |items| && !AmountOf(items[i]).Num?;
          if i > 0 {
            assert items[1..][i - 1] == items[i];
          }
        }
      }
      if next.Num? && AllAmountsNumeric(items[1..]) {
        assert AmountOf(items[0]).Num?;
        assert AllAmountsNumeric(items) by {
          forall i | 0 <= i < |items| ensures AmountOf(items[i]).Num? {
            if i > 0 {
              assert items[1..][i - 1] == items[i];
            }
          }
        }
      }
    }
  }

  /** For a readable array, `sumAmounts` is the plain integer sum, or NaN if any amount is not numeric. */
  lemma SumAmountsIsTotal(list: Value)
    requires list.Arr? && Invoice.ServicesReadable(list)
    ensures SumAmounts(list).value.Num? <==> AllAmountsNumeric(list.items)
    ensures AllAmountsNumeric(list.items) ==> SumAmounts(list).value.n == AmountTotal(list.items)
  {
    SumFromMatchesTotal(Num(0), list.items);
    assert SumAmounts(list).value == SumFrom(Num(0), list.items);
  }

  /** A numeric-string amount counts as its number: `Number("12")` is 12. */
  lemma StringAmountCounts(n: int)
    ensures AmountOf(Obj([("amount", Str(JsText.IntToString(n)))])) == Num(n)
  {
    ToNumberOfString(n);
  }

  // ---------------------------------------------------------------------------
  // derivedTotals
  // ---------------------------------------------------------------------------

  datatype Totals = Totals(subtotal: Value, discounts: Value, tax: Value, totalAmount: Value)

  /** `invoiceTotals?.data || invoiceTotals`: the server's `data` wrapper when truthy, the totals themselves otherwise. */
  function ServerTotals(t: Value): (d: Value)
    ensures Truthy(Get(t, "data")) ==> d == Get(t, "data")
    ensures !Truthy(Get(t, "data")) ==> d == t
  {
    var inner := Get(t, "data");
    if Truthy(inner) then inner else t
  }

  /** One field of the server totals, `undefined` when the server sent none. */
  function ServerField(st: State, name: string): Value {
    Get(ServerTotals(st.invoiceTotals), name)
  }

  /**
   * `sumAmounts(selectedServices) + (selectedMembership?.price ?? 0)`, or
   * `None` when `sumAmounts` throws.
   */
  function LocalTotal(st: State): Option<Value> {
    var sum := SumAmounts(st.selectedServices);
    if sum.None? then None else Some(Plus(sum.value, Coalesce(Get(st.selectedMembership, "price"), Num(0))))
  }

  /**
   * `derivedTotals`: each server value unless it is null or undefined (a
   * server 0 is kept); the local total stands in for a missing subtotal or
   * total, and discounts and tax default to 0. `??` evaluates its right side
   * only when needed, so the local sum can only throw (`None`) when the
   * server's subtotal or total is missing.
   */
  function DerivedTotals(st: State): (r: Option<Totals>)
    ensures r.None? <==>
      LocalTotal(st).None? && (IsNullish(ServerField(st, "subtotal")) || IsNullish(ServerField(st, "totalAmount")))
    ensures r.Some? && !IsNullish(ServerField(st, "subtotal")) ==> r.value.subtotal == ServerField(st, "subtotal")
    ensures IsNullish(ServerField(st, "subtotal")) ==>
      (r.Some? <==> LocalTotal(st).Some?) && (r.Some? ==> r.value.subtotal == LocalTotal(st).value)
    ensures r.Some? && !IsNullish(ServerField(st, "totalAmount")) ==> r.value.totalAmount == ServerField(st, "totalAmount")
    ensures IsNullish(ServerField(st, "totalAmount")) ==>
      (r.Some? <==> LocalTotal(st).Some?) && (r.Some? ==> r.value.totalAmount == LocalTotal(st).value)
    ensures r.Some? && !IsNullish(ServerField(st, "discounts")) ==> r.value.discounts == ServerField(st, "discounts")
    ensures r.Some? && IsNullish(ServerField(st, "discounts")) ==> r.value.discounts == Num(0)
    ensures r.Some? && !IsNullish(ServerField(st, "tax")) ==> r.value.tax == ServerField(st, "tax")
    ensures r.Some? && IsNullish(ServerField(st, "tax")) ==> r.value.tax == Num(0)
  {
    var d := ServerTotals(st.invoiceTotals);
    var sub := Get(d, "subtotal");
    var total := Get(d, "totalAmount");
    var local := LocalTotal(st);
    if (IsNullish(sub) || IsNullish(total)) && local.None? then None
    else
      Some(Totals(
        if IsNullish(sub) then local.value else sub,
        Coalesce(Get(d, "discounts"), Num(0)),
        Coalesce(Get(d, "tax"), Num(0)),
        if IsNullish(total) then local.value else total))
  }

  /** A value the server sent, even 0, is shown as sent, whatever the local selection. */
  lemma ServerValueWins(st: State)
    requires !IsNullish(Get(ServerTotals(st.invoiceTotals), "subtotal"))
    requires !IsNullish(Get(ServerTotals(st.invoiceTotals), "totalAmount"))
    ensures DerivedTotals(st).Some?
    ensures DerivedTotals(st).value.subtotal == Get(ServerTotals(st.invoiceTotals), "subtotal")
    ensures DerivedTotals(st).value.totalAmount == Get(ServerTotals(st.invoiceTotals), "totalAmount")
  {
  }

  /** A server subtotal of 0 with no server total: the 0 is kept and the total falls back to the local sum. */
  lemma ZeroSubtotalKeptTotalFallsBack(st: State)
    requires st.invoiceTotals == Obj([("data", Obj([("subtotal", Num(0))]))])
    ensures DerivedTotals(st).Some? <==> LocalTotal(st).Some?
    ensures DerivedTotals(st).Some? ==>
      DerivedTotals(st).value.subtotal == Num(0) && DerivedTotals(st).value.totalAmount == LocalTotal(st).value
  {
    assert ServerField(st, "subtotal") == Num(0);
    assert ServerField(st, "totalAmount") == Undefined;
  }

  /**
   * Without server totals the subtotal and total are both the local sum of
   * the services plus the membership price, with no discount and no tax.
   */
  lemma NoServerTotalsFallBack(st: State)
    requires IsNullish(st.invoiceTotals)
    ensures DerivedTotals(st).Some? <==> LocalTotal(st).Some?
    ensures DerivedTotals(st).Some? ==>
      DerivedTotals(st).value == Totals(LocalTotal(st).value, Num(0), Num(0), LocalTotal(st).value)
  {
  }

  /** With integer amounts and an integer price, the fallback total is their integer sum. */
  lemma LocalTotalIsSum(st: State, price: int)
    requires st.selectedServices.Arr? && Invoice.ServicesReadable(st.selectedServices)
    requires AllAmountsNumeric(st.selectedServices.items)
    requires Get(st.selectedMembership, "price") == Num(price)
    ensures LocalTotal(st).Some? && LocalTotal(st).value.Num?
    ensures LocalTotal(st).value.n == AmountTotal(st.selectedServices.items) + price
  {
    SumAmountsIsTotal(st.selectedServices);
    LocalTotalOfSum(st, AmountTotal(st.selectedServices.items), price);
  }

  lemma LocalTotalOfSum(st: State, sum: int, price: int)
    requires SumAmounts(st.selectedServices).Some? && SumAmounts(st.selectedServices).value.Num?
    requires SumAmounts(st.selectedServices).value.n == sum
    requires Get(st.selectedMembership, "price") == Num(price)
    ensures LocalTotal(st).Some? && LocalTotal(st).value.Num? && LocalTotal(st).value.n == sum + price
  {
    assert Coalesce(Get(st.selectedMembership, "price"), Num(0)) == Num(price);
    assert Plus(Num(sum), Num(price)) == Num(sum + price);
  }

  /** A price held as a string is concatenated onto the sum rather than added. */
  lemma StringPriceConcatenates(st: State, price: string)
    requires !Truthy(st.selectedServices)
    requires Get(st.selectedMembership, "price") == Str(price)
    ensures LocalTotal(st).Some? && LocalTotal(st).value.Str?
    ensures LocalTotal(st).value.s == "0" + price
  {
    assert SumAmounts(st.selectedServices) == Some(Num(0));
    assert JsText.IntToString(0) == "0";
  }

  // ---------------------------------------------------------------------------
  // applyDiscount and clearTotals
  // ---------------------------------------------------------------------------

  /**
   * The POST to `/api/invoice/gettotalamount`: URL, `Authorization` header,
   * and the state the payload was built from; the body is `Body(request)`.
   */
  datatype Request = Request(url: string, authorization: string, from: State)

  /** The JSON body: the stripped invoice literal built from the state. */
  function Body(request: Request): seq<(string, Value)> {
    Invoice.Payload(InputOf(request.from))
  }

  /** How the call ended: a response whose body may fail to parse as JSON, or a thrown exception. */
  datatype Outcome = Responded(status: int, body: Option<Value>) | Threw

  datatype Applied = Applied(state: State, request: Option<Request>)

  const TotalsPath: string := "/api/invoice/gettotalamount"

  /** Which guard, if any, stops `applyDiscount` before the request. */
  predicate Sends(st: State, storage: Auth.Storage) {
    && Promo(st) != ""
    && TruthyString(Auth.StorageGet(storage, Auth.AccessKey))
    && st.apiKey != ""
    && Truthy(st.siteId)
    && Invoice.ServicesReadable(st.selectedServices)
  }

  /**
   * `applyDiscount()`. An empty coupon returns before the loading flag is
   * touched; a missing token, key or site returns inside the `try`, and a
   * throw while building the payload is caught, so the flag ends cleared
   * without a request. Once sent, the totals are replaced only by a parsed
   * body of an ok response.
   */
  function ApplyDiscount(st: State, storage: Auth.Storage, base: string, outcome: Outcome): (r: Applied)
    ensures Promo(st) == "" ==> r == Applied(st, None)
    ensures Promo(st) != "" ==> !r.state.applying
  {
    if Promo(st) == "" then Applied(st, None)
    else
      var done := st.(applying := false);
      var token := Auth.StorageGet(storage, Auth.AccessKey);
      if !TruthyString(token) || st.apiKey == "" || !Truthy(st.siteId) then Applied(done, None)
      else
        if !Invoice.ServicesReadable(st.selectedServices) then Applied(done, None)
        else
          var request := Request(base + TotalsPath, "Bearer " + token.value, st);
          match outcome
          case Threw => Applied(done, Some(request))
          case Responded(status, body) =>
            if body.Some? && Auth.IsOk(status) then Applied(done.(invoiceTotals := body.value), Some(request))
            else Applied(done, Some(request))
  }

  /** The request goes out exactly when every guard passes. */
  lemma ApplySendsIff(st: State, storage: Auth.Storage, base: string, outcome: Outcome)
    ensures ApplyDiscount(st, storage, base, outcome).request.Some? <==> Sends(st, storage)
  {
  }

  /** The request carries the stored token as a bearer token and the payload built from the state. */
  lemma ApplyRequestContent(st: State, storage: Auth.Storage, base: string, outcome: Outcome)
    requires Sends(st, storage)
    ensures ApplyDiscount(st, storage, base, outcome).request
      == Some(Request(base + TotalsPath, "Bearer " + storage[Auth.AccessKey], st))
    ensures Body(ApplyDiscount(st, storage, base, outcome).request.value) == BuildInvoicePayload(st).value
  {
  }

  /** Only the totals and the loading flag ever change. */
  lemma ApplyKeepsSelection(st: State, storage: Auth.Storage, base: string, outcome: Outcome)
    ensures
      var after := ApplyDiscount(st, storage, base, outcome).state;
      && after.apiKey == st.apiKey && after.siteId == st.siteId
      && after.customerId == st.customerId && after.vehicleId == st.vehicleId
      && after.selectedMembership == st.selectedMembership && after.selectedServices == st.selectedServices
      && after.couponCode == st.couponCode
  {
  }

  /**
   * The totals change exactly when the request was sent and answered ok with
   * a parsable body, which then becomes the new totals.
   */
  lemma ApplyStoresAcceptedBody(st: State, storage: Auth.Storage, base: string, outcome: Outcome)
    ensures ApplyDiscount(st, storage, base, outcome).state.invoiceTotals
      == if Sends(st, storage) && outcome.Responded? && Auth.IsOk(outcome.status) && outcome.body.Some?
         then outcome.body.value else st.invoiceTotals
  {
  }

  /**
   * After a successful apply whose answer wraps totals in a truthy `data`
   * object, the displayed subtotal is the server's, not the local sum.
   */
  lemma AppliedTotalsShown(st: State, storage: Auth.Storage, base: string, status: int, data: Value)
    requires Sends(st, storage) && Auth.IsOk(status)
    requires Truthy(data) && !IsNullish(Get(data, "subtotal")) && !IsNullish(Get(data, "totalAmount"))
    ensures
      var after := ApplyDiscount(st, storage, base, Responded(status, Some(Obj([("data", data)])))).state;
      && DerivedTotals(after).Some?
      && DerivedTotals(after).value.subtotal == Get(data, "subtotal")
      && DerivedTotals(after).value.totalAmount == Get(data, "totalAmount")
  {
    var after := ApplyDiscount(st, storage, base, Responded(status, Some(Obj([("data", data)])))).state;
    assert after.invoiceTotals == Obj([("data", data)]);
    assert Get(after.invoiceTotals, "data") == data;
    ServerValueWins(after);
  }

  /** `clearTotals()`: forget the server's totals. */
  function ClearTotals(st: State): (r: State)
    ensures IsNullish(r.invoiceTotals)
    ensures r.(invoiceTotals := st.invoiceTotals) == st
  {
    st.(invoiceTotals := Null)
  }

  /** After clearing, the display falls back to the local sum. */
  lemma ClearedTotalsFallBack(st: State)
    ensures DerivedTotals(ClearTotals(st)).Some? <==> LocalTotal(st).Some?
    ensures DerivedTotals(ClearTotals(st)).Some? ==>
      DerivedTotals(ClearTotals(st)).value == Totals(LocalTotal(st).value, Num(0), Num(0), LocalTotal(st).value)
  {
    NoServerTotalsFallBack(ClearTotals(st));
  }
}
