/**
 * The invoice payload posted to `/api/invoice/gettotalamount`. The two
 * builders (`buildInvoicePayload` in src/context/CheckoutContext.jsx and in
 * src/App.jsx) write the same object literal and differ only in how they
 * decide the membership entry and where the key, site and promo come from;
 * this module holds the literal and what survives of it after
 * `deepStripUndefined`.
 */
module Invoice {
  import opened Wrappers
  import opened JsValue
  import Records
  import opened PayloadStrip

  /** What each builder feeds into the literal once it has made its own decisions. */
  datatype InvoiceInput = InvoiceInput(
    key: Value,
    siteId: Value,
    customerId: Value,
    vehicleId: Value,
    services: Value,
    membershipList: seq<Value>,
    promo: string)

  /** The payload's keys, in literal order. */
  const InvoiceKeys: seq<string> := [
    "key", "siteId", "customerData", "vehicleData",
    "totalAmount", "subtotal", "redemptions", "discounts", "tax",
    "status", "source", "sourceId", "siteLaneId", "notes", "captureMethod", "appVersion",
    "serviceSaleList", "membershipSaleList",
    "paymentTypeList", "giftCardSaleList", "washbookSaleList", "giftCardRedeemList", "washbookRedeemList",
    "discountRedeemList"]

  /** The lists the literal always leaves empty. */
  const AlwaysEmptyLists: seq<string> := ["paymentTypeList", "giftCardSaleList", "washbookSaleList", "giftCardRedeemList", "washbookRedeemList"]

  /** `Number(siteId) || siteId`: the numeric form when it is a non-zero number, the value as given otherwise. */
  function SiteIdOf(v: Value): (r: Value)
    ensures Truthy(ToNumber(v)) ==> r == ToNumber(v)
    ensures !Truthy(ToNumber(v)) ==> r == v
  {
    var n := ToNumber(v);
    if Truthy(n) then n else v
  }

  /** Reading `s.serviceId` and friends throws on a null or undefined element. */
  predicate ServicesReadable(services: Value) {
    services.Arr? ==> forall i :: 0 <= i < |services.items| ==> !IsNullish(services.items[i])
  }

  /** One `serviceSaleList` entry: ids default to 0, the amount goes through `Number`, flags through `!!`. */
  function ServiceEntry(s: Value): Value {
    Obj([
      ("serviceId", Coalesce(Get(s, "serviceId"), Num(0))),
      ("amount", ToNumber(Coalesce(Get(s, "amount"), Num(0)))),
      ("isRecurring", Bool(Truthy(Get(s, "isRecurring")))),
      ("isPrepaid", Bool(Truthy(Get(s, "isPrepaid")))),
      ("isWashbook", Bool(Truthy(Get(s, "isWashbook")))),
      ("redeemId", Coalesce(Get(s, "redeemId"), Num(0)))])
  }

  /** `Array.isArray(services) ? services.map(...) : []`. */
  function ServiceSaleList(services: Value): (r: seq<Value>)
    ensures services.Arr? ==> |r| == |services.items|
    ensures services.Arr? ==> forall i :: 0 <= i < |r| ==> r[i] == ServiceEntry(services.items[i])
    ensures !services.Arr? ==> r == []
  {
    if services.Arr? then seq(|services.items|, i requires 0 <= i < |services.items| => ServiceEntry(services.items[i]))
    else []
  }

  /** `{ membershipId, isNewSignUp: !!isNewSignUp }`. */
  function MembershipEntry(membership: Value): Value {
    Obj([("membershipId", Get(membership, "membershipId")), ("isNewSignUp", Bool(Truthy(Get(membership, "isNewSignUp"))))])
  }

  /** The one `discountRedeemList` entry for a code. */
  function PromoEntry(promo: string): Value {
    Obj([("discountId", Num(0)), ("instanceType", Str("code")), ("instanceId", Str(promo)), ("membershipId", Num(0)), ("discountValue", Num(0))])
  }

  /** The value the literal writes at position `i` (the key is `InvoiceKeys[i]`). */
  function MemberAt(input: InvoiceInput, i: nat): Value
    requires i < |InvoiceKeys|
  {
    match i
    case 0 => input.key
    case 1 => input.siteId
    case 2 => if Truthy(input.customerId) then Obj([("customerId", input.customerId)]) else Undefined
    case 3 => if Truthy(input.vehicleId) then Obj([("vehicleId", input.vehicleId)]) else Undefined
    case 4 => Num(0)
    case 5 => Num(0)
    case 6 => Num(0)
    case 7 => Num(0)
    case 8 => Num(0)
    case 9 => Str("draft")
    case 10 => Str("web")
    case 11 => Num(0)
    case 12 => Num(0)
    case 13 => Str("")
    case 14 => Str("manual")
    case 15 => Str("web")
    case 16 => Arr(ServiceSaleList(input.services))
    case 17 => Arr(input.membershipList)
    case 23 => Arr(if input.promo != "" then [PromoEntry(input.promo)] else [])
    case _ => Arr([])
  }

  /** The object literal before stripping: every key in literal order with its value. */
  function RawInvoice(input: InvoiceInput): (r: seq<(string, Value)>)
    ensures |r| == |InvoiceKeys|
    ensures forall i :: 0 <= i < |r| ==> r[i].0 == InvoiceKeys[i]
    ensures forall i :: 0 <= i < |r| ==> r[i].1 == MemberAt(input, i)
  {
    seq(|InvoiceKeys|, i requires 0 <= i < |InvoiceKeys| => (InvoiceKeys[i], MemberAt(input, i)))
  }

  /** `deepStripUndefined(base)`: the payload as sent. */
  function Payload(input: InvoiceInput): seq<(string, Value)> {
    StripFields(RawInvoice(input))
  }

  // ---------------------------------------------------------------------------
  // What survives
  // ---------------------------------------------------------------------------

  /** No key of the literal other than the one at position `i` is `InvoiceKeys[i]`. */
  predicate KeyUniqueAt(i: nat) {
    i < |InvoiceKeys| && forall j :: 0 <= j < |InvoiceKeys| && j != i ==> InvoiceKeys[j] != InvoiceKeys[i]
  }

  /** The literal names each key once. */
  lemma KeysUnique(i: nat)
    requires i < |InvoiceKeys|
    ensures KeyUniqueAt(i)
  {
    if i < 6 {
      KeysUniqueFirst();
    } else if i < 12 {
      KeysUniqueSecond();
    } else if i < 18 {
      KeysUniqueThird();
    } else {
      KeysUniqueFourth();
    }
  }

  lemma KeysUniqueFirst() ensures forall i :: 0 <= i < 6 ==> KeyUniqueAt(i) {}
  lemma KeysUniqueSecond() ensures forall i :: 6 <= i < 12 ==> KeyUniqueAt(i) {}
  lemma KeysUniqueThird() ensures forall i :: 12 <= i < 18 ==> KeyUniqueAt(i) {}
  lemma KeysUniqueFourth() ensures forall i :: 18 <= i < 24 ==> KeyUniqueAt(i) {}

  /** Member `i` of the literal survives exactly as its stripped value, unless that is undefined or empty. */
  lemma PayloadAt(input: InvoiceInput, i: nat)
    requires i < |InvoiceKeys|
    ensures Records.Lookup(Payload(input), InvoiceKeys[i]) == Survivor(Some(MemberAt(input, i)))
  {
    var raw := RawInvoice(input);
    KeysUnique(i);
    Records.LookupFirst(raw, i);
    StripFieldsLookup(raw, InvoiceKeys[i]);
  }

  /** Nothing outside the literal's keys appears in the payload. */
  lemma PayloadKeysFromLiteral(input: InvoiceInput, k: string)
    requires Records.HasKey(Payload(input), k)
    ensures k in InvoiceKeys
  {
    var raw := RawInvoice(input);
    StripFieldsKeysFrom(raw, k);
    var j :| 0 <= j < |raw| && raw[j].0 == k;
    assert raw[j].0 == InvoiceKeys[j];
  }

  /** The five lists the literal always leaves empty never reach the request. */
  lemma AlwaysEmptyListsAbsent(input: InvoiceInput, k: string)
    requires k in AlwaysEmptyLists
    ensures !Records.HasKey(Payload(input), k)
  {
    var i :| 0 <= i < |AlwaysEmptyLists| && AlwaysEmptyLists[i] == k;
    assert InvoiceKeys[18 + i] == k;
    EmptyListAbsentAt(input, 18 + i);
  }

  lemma EmptyListAbsentAt(input: InvoiceInput, i: nat)
    requires 18 <= i < 23
    ensures !Records.HasKey(Payload(input), InvoiceKeys[i])
  {
    PayloadAt(input, i);
    EmptyListDropped();
  }

  lemma EmptyListDropped()
    ensures Survivor(Some(Arr([]))) == None
  {
    assert Strip(Arr([])) == Arr([]);
  }

  /** A member the literal sets to a defined scalar is sent as that scalar. */
  lemma ScalarSent(input: InvoiceInput, i: nat, v: Value)
    requires i < |InvoiceKeys| && MemberAt(input, i) == v
    requires !v.Undefined? && !v.Arr? && !v.Obj?
    ensures Records.Lookup(Payload(input), InvoiceKeys[i]) == Some(v)
  {
    PayloadAt(input, i);
  }

  /** The totals are placeholders the server computes: the total is sent as zero. */
  lemma TotalAmountSent(input: InvoiceInput)
    ensures Records.Lookup(Payload(input), "totalAmount") == Some(Num(0))
  {
    ScalarSent(input, 4, Num(0));
  }

  /** Every invoice starts as a draft. */
  lemma StatusSent(input: InvoiceInput)
    ensures Records.Lookup(Payload(input), "status") == Some(Str("draft"))
  {
    ScalarSent(input, 9, Str("draft"));
  }

  /** The empty notes string is a defined value, so it is sent rather than dropped. */
  lemma NotesSent(input: InvoiceInput)
    ensures Records.Lookup(Payload(input), "notes") == Some(Str(""))
  {
    ScalarSent(input, 13, Str(""));
  }

  /** A code entry `{instanceType: "code", instanceId: promo}` is sent exactly when the promo is non-empty. */
  lemma DiscountEntryIff(input: InvoiceInput)
    ensures Records.Lookup(Payload(input), "discountRedeemList")
      == if input.promo != "" then Some(Arr([PromoEntry(input.promo)])) else None
  {
    PayloadAt(input, 23);
    assert InvoiceKeys[23] == "discountRedeemList";
    if input.promo != "" {
      PromoListKept(input.promo);
    } else {
      EmptyListDropped();
    }
  }

  lemma PromoListKept(promo: string)
    ensures Survivor(Some(Arr([PromoEntry(promo)]))) == Some(Arr([PromoEntry(promo)]))
  {
    var e := PromoEntry(promo);
    assert Clean(Arr([e]));
    StripKeepsClean(Arr([e]));
  }

  /** `customerData` is `{customerId}` exactly when the (scalar) id is truthy, and absent otherwise. */
  lemma CustomerDataIff(input: InvoiceInput)
    requires !input.customerId.Arr? && !input.customerId.Obj?
    ensures Records.Lookup(Payload(input), "customerData")
      == if Truthy(input.customerId) then Some(Obj([("customerId", input.customerId)])) else None
  {
    PayloadAt(input, 2);
    assert InvoiceKeys[2] == "customerData";
    if Truthy(input.customerId) {
      StripKeepsClean(Obj([("customerId", input.customerId)]));
    }
  }

  /** `vehicleData` likewise follows the vehicle id. */
  lemma VehicleDataIff(input: InvoiceInput)
    requires !input.vehicleId.Arr? && !input.vehicleId.Obj?
    ensures Records.Lookup(Payload(input), "vehicleData")
      == if Truthy(input.vehicleId) then Some(Obj([("vehicleId", input.vehicleId)])) else None
  {
    PayloadAt(input, 3);
    assert InvoiceKeys[3] == "vehicleData";
    if Truthy(input.vehicleId) {
      StripKeepsClean(Obj([("vehicleId", input.vehicleId)]));
    }
  }

  /** A service entry always survives stripping: its amount is a number. */
  lemma ServiceEntrySurvives(s: Value)
    ensures !Empty(Strip(ServiceEntry(s)))
  {
    SurvivingMemberKeepsObject(ServiceEntry(s).fields, 1);
  }

  /** The amount is sent as `Number(amount ?? 0)`: an integer or NaN, never the raw string. */
  lemma ServiceEntryAmount(s: Value)
    ensures Records.Lookup(Strip(ServiceEntry(s)).fields, "amount") == Some(ToNumber(Coalesce(Get(s, "amount"), Num(0))))
  {
    ScalarMemberKept(ServiceEntry(s).fields, 1);
  }

  /** Every service entry survives, so stripping keeps one entry per service, in order. */
  lemma ServiceEntriesKept(services: Value)
    ensures |StripItems(ServiceSaleList(services))| == |ServiceSaleList(services)|
    ensures forall i :: 0 <= i < |ServiceSaleList(services)| ==>
      StripItems(ServiceSaleList(services))[i] == Strip(ServiceSaleList(services)[i])
  {
    var list := ServiceSaleList(services);
    forall i | 0 <= i < |list| ensures !Empty(Strip(list[i])) {
      ServiceEntrySurvives(services.items[i]);
    }
    StripItemsKeepsAll(list);
  }

  /** Stripping drops no service entry. */
  lemma ServiceEntriesCount(services: Value)
    ensures |StripItems(ServiceSaleList(services))| == |ServiceSaleList(services)|
  {
    ServiceEntriesKept(services);
  }

  /** With at least one service, `serviceSaleList` is sent holding the stripped entries. */
  lemma ServiceSaleListSent(input: InvoiceInput)
    requires input.services.Arr? && |input.services.items| > 0
    ensures Records.Lookup(Payload(input), "serviceSaleList") == Some(Arr(StripItems(ServiceSaleList(input.services))))
  {
    var list := ServiceSaleList(input.services);
    PayloadAt(input, 16);
    assert InvoiceKeys[16] == "serviceSaleList";
    assert MemberAt(input, 16) == Arr(list);
    ServiceEntriesCount(input.services);
    ArrayKept(list);
  }

  /** With no services, or `services` not an array, `serviceSaleList` is left out. */
  lemma ServiceSaleListAbsent(input: InvoiceInput)
    requires !input.services.Arr? || |input.services.items| == 0
    ensures !Records.HasKey(Payload(input), "serviceSaleList")
  {
    PayloadAt(input, 16);
    assert InvoiceKeys[16] == "serviceSaleList";
    EmptyListDropped();
  }

  /** A membership entry always survives stripping, if only as `{isNewSignUp}`. */
  lemma MembershipEntrySurvives(m: Value)
    ensures !Empty(Strip(MembershipEntry(m)))
  {
    SurvivingMemberKeepsObject(MembershipEntry(m).fields, 1);
  }

  /** `membershipSaleList` is sent exactly when the builder put an entry into it. */
  lemma MembershipListSent(input: InvoiceInput, m: Value)
    requires input.membershipList == [] || input.membershipList == [MembershipEntry(m)]
    ensures Records.Lookup(Payload(input), "membershipSaleList")
      == if input.membershipList == [] then None else Some(Arr([Strip(MembershipEntry(m))]))
  {
    PayloadAt(input, 17);
    assert InvoiceKeys[17] == "membershipSaleList";
    if input.membershipList == [] {
      EmptyListDropped();
    } else {
      MembershipEntrySurvives(m);
      SingleEntryKept(MembershipEntry(m));
    }
  }

  lemma SingleEntryKept(e: Value)
    requires !Empty(Strip(e))
    ensures Survivor(Some(Arr([e]))) == Some(Arr([Strip(e)]))
  {
    assert [e][1..] == [];
    assert StripItems([e]) == [Strip(e)];
    assert Strip(Arr([e])) == Arr([Strip(e)]);

  }
}
