/**
 * The checkout summary of src/components/sections/PurchaseSummary.jsx: the
 * payment-gateway parameter set, its HMAC signature over a canonical string,
 * the form submission, the checkout guard and the coupon check.
 *
 * HMAC-SHA256 and Base64 are parameters (`hmac`, `base64`): only the
 * canonical string they are applied to is modelled.
 */
module PurchaseSummary {
  import opened Wrappers
  import opened JsValue
  import JsText
  import Records
  import Seqs
  import KeySort

  /** A parameter value: the code only ever puts strings and numbers in the set. */
  datatype Scalar = Text(s: string) | Number(n: int)

  /** The parameter object, in insertion order. */
  type Params = seq<(string, Scalar)>

  /** The signature field, which never takes part in its own computation. */
  const HashField: string := "hashExtended"

  const Separator: char := '|'

  /** `String(v)`. */
  function ScalarString(v: Scalar): string {
    match v
    case Text(s) => s
    case Number(n) => JsText.IntToString(n)
  }

  // ---------------------------------------------------------------------------
  // createSignature
  // ---------------------------------------------------------------------------

  /** The signing filter: a key is signed unless it is the signature field or maps to "". */
  predicate IsSigned(p: Params, k: string) {
    k != HashField && Records.Lookup(p, k) != Some(Text(""))
  }

  /** `Object.keys(p).filter(...).sort()`. */
  function SignedKeys(p: Params): seq<string> {
    KeySort.Sort(Seqs.Filter(Records.Keys(p), k => IsSigned(p, k)))
  }

  /** `sortedKeys.map(k => String(p[k]))`. */
  function SignedValues(p: Params): seq<string> {
    var ks := SignedKeys(p);
    seq(|ks|, i requires 0 <= i < |ks| => ScalarString(Records.Lookup(p, ks[i]).GetOr(Text(""))))
  }

  /** The string that is signed: the values of the signed keys, in key order, joined by `|`. */
  function CanonicalString(p: Params): string {
    JsText.Join(SignedValues(p), Separator)
  }

  /** `createSignature(p, secret)`: Base64 of HMAC-SHA256 of the canonical string. */
  function CreateSignature(p: Params, secret: string, hmac: (string, string) -> seq<bv8>, base64: seq<bv8> -> string): string {
    base64(hmac(CanonicalString(p), secret))
  }

  /** What a key contributes to the signature: its value, if it is signed. */
  function SignedValue(p: Params, k: string): Option<Scalar> {
    if k != HashField && Records.Lookup(p, k).Some? && Records.Lookup(p, k).value != Text("") then Records.Lookup(p, k)
    else None
  }

  /** Two parameter sets that agree on every signed value. */
  ghost predicate SameSignedContent(p: Params, q: Params) {
    forall k :: SignedValue(p, k) == SignedValue(q, k)
  }

  lemma {:induction false} FilterKeepsDistinct(xs: seq<string>, f: string -> bool)
    requires KeySort.Distinct(xs)
    ensures KeySort.Distinct(Seqs.Filter(xs, f))
    decreases |xs|
  {
    if |xs| > 0 {
      FilterKeepsDistinct(xs[1..], f);
      var t := Seqs.Filter(xs[1..], f);
      if f(xs[0]) {
        var r := Seqs.Filter(xs, f);
        assert r == [xs[0]] + t;
        forall j | 0 <= j < |t| ensures t[j] != xs[0] {
          assert t[j] in xs[1..];
          var m :| 0 <= m < |xs[1..]| && xs[1..][m] == t[j];
          assert xs[m + 1] == t[j];
        }
      }
    }
  }

  /** The signed keys are exactly the present keys that pass the filter, each once, strictly ascending. */
  lemma SignedKeysExact(p: Params)
    requires Records.DistinctKeys(p)
    ensures KeySort.StrictlySorted(SignedKeys(p))
    ensures forall k :: k in SignedKeys(p) <==> SignedValue(p, k).Some?
  {
    var keys := Records.Keys(p);
    var kept := Seqs.Filter(keys, k => IsSigned(p, k));
    assert KeySort.Distinct(keys);
    FilterKeepsDistinct(keys, k => IsSigned(p, k));
    KeySort.SortStrict(kept);
    forall k ensures k in SignedKeys(p) <==> SignedValue(p, k).Some? {
      assert k in SignedKeys(p) <==> k in multiset(kept);
      if k in kept {
        var i :| 0 <= i < |keys| && keys[i] == k;
        assert Records.HasKey(p, k);
      }
      if SignedValue(p, k).Some? {
        var i :| 0 <= i < |p| && p[i].0 == k;
        assert keys[i] == k;
      }
    }
  }

  /** Parameter sets that agree on every signed value have the same canonical string. */
  lemma CanonicalDependsOnlyOnSignedContent(p: Params, q: Params)
    requires Records.DistinctKeys(p) && Records.DistinctKeys(q)
    requires SameSignedContent(p, q)
    ensures CanonicalString(p) == CanonicalString(q)
  {
    SignedKeysExact(p);
    SignedKeysExact(q);
    KeySort.StrictlySortedUnique(SignedKeys(p), SignedKeys(q));
    var ks := SignedKeys(p);
    forall i | 0 <= i < |ks| ensures Records.Lookup(p, ks[i]) == Records.Lookup(q, ks[i]) {
      assert SignedValue(p, ks[i]) == SignedValue(q, ks[i]);
    }
    assert SignedValues(p) == SignedValues(q);
  }

  /** Insertion order does not matter: the same object built in any order signs the same. */
  lemma SignatureIgnoresInsertionOrder(p: Params, q: Params, secret: string,
    hmac: (string, string) -> seq<bv8>, base64: seq<bv8> -> string)
    requires Records.DistinctKeys(p) && Records.DistinctKeys(q)
    requires forall k :: Records.Lookup(p, k) == Records.Lookup(q, k)
    ensures CreateSignature(p, secret, hmac, base64) == CreateSignature(q, secret, hmac, base64)
  {
    CanonicalDependsOnlyOnSignedContent(p, q);
  }

  /** Whatever the signature field holds, or whether it is there at all, the signature is the same. */
  lemma SignatureIgnoresHashField(p: Params, v: Scalar, secret: string,
    hmac: (string, string) -> seq<bv8>, base64: seq<bv8> -> string)
    requires Records.DistinctKeys(p)
    ensures CreateSignature(Records.Put(p, HashField, v), secret, hmac, base64) == CreateSignature(p, secret, hmac, base64)
  {
    Records.PutKeepsDistinct(p, HashField, v);
    CanonicalDependsOnlyOnSignedContent(Records.Put(p, HashField, v), p);
  }

  /** Adding or overwriting any key with "" leaves the signature unchanged, unless that key held a signed value. */
  lemma SignatureIgnoresEmptyValues(p: Params, k: string, secret: string,
    hmac: (string, string) -> seq<bv8>, base64: seq<bv8> -> string)
    requires Records.DistinctKeys(p)
    requires SignedValue(p, k).None?
    ensures CreateSignature(Records.Put(p, k, Text("")), secret, hmac, base64) == CreateSignature(p, secret, hmac, base64)
  {
    Records.PutKeepsDistinct(p, k, Text(""));
    CanonicalDependsOnlyOnSignedContent(Records.Put(p, k, Text("")), p);
  }

  /**
   * The canonical string splits back into the signed values when none of them
   * contains `|`: it carries the values and nothing else (no key names).
   */
  lemma CanonicalStringSplits(p: Params)
    requires |SignedValues(p)| >= 1
    requires forall i :: 0 <= i < |SignedValues(p)| ==> Separator !in SignedValues(p)[i]
    ensures JsText.Split(CanonicalString(p), Separator) == SignedValues(p)
  {
    JsText.SplitJoin(SignedValues(p), Separator);
  }

  /** Key names are not signed: renaming a lone key keeps the signature, while 0 is a signed value. */
  lemma KeyNamesNotSigned()
    ensures CanonicalString([("a", Text("x"))]) == CanonicalString([("b", Text("x"))]) == "x"
    ensures CanonicalString([("a", Number(0)), ("b", Text(""))]) == "0"
  {
    assert Records.Keys([("a", Text("x"))]) == ["a"];
    assert Records.Keys([("b", Text("x"))]) == ["b"];
    assert Seqs.Filter(["a"], k => IsSigned([("a", Text("x"))], k)) == ["a"];
    assert Seqs.Filter(["b"], k => IsSigned([("b", Text("x"))], k)) == ["b"];
    var z := [("a", Number(0)), ("b", Text(""))];
    assert Records.Keys(z) == ["a", "b"];
    assert Records.Lookup(z, "b") == Some(Text(""));
    assert Seqs.Filter(["b"], k => IsSigned(z, k)) == [];
    assert Seqs.Filter(["a", "b"], k => IsSigned(z, k)) == ["a"];
    assert KeySort.Sort(["a"]) == ["a"];
    assert JsText.IntToString(0) == "0";
  }

  // ---------------------------------------------------------------------------
  // buildPaymentParams / submitToIPG
  // ---------------------------------------------------------------------------

  /** The component's props and state that end up in the parameter set, already formatted. */
  datatype GatewayConfig = GatewayConfig(
    language: string,
    txntype: string,
    timezone: string,
    txndatetime: string,
    storename: string,
    chargetotal: string,
    currency: string,
    paymentMethod: string,
    oid: string,
    checkoutoption: string,
    responseFailURL: string,
    responseSuccessURL: string,
    transactionNotificationURL: string)

  /** The prop defaults and initial state, given the formatted time and total. */
  function DefaultConfig(txndatetime: string, chargetotal: string): GatewayConfig {
    GatewayConfig(
      "en_US", "sale", "Asia/Dubai", txndatetime, "811676300198", chargetotal, "784", "", "", "combinedpage",
      "https://blueverse-checkout.netlify.app/.netlify/functions/ipg-fail",
      "https://blueverse-checkout.netlify.app/.netlify/functions/ipg-success",
      "")
  }

  /** The selected package; only its `membershipId` matters to the gateway parameters. */
  datatype Package = Package(membershipId: Value)

  /** `!!selectedPackage?.membershipId`. */
  predicate IsMembership(selected: Option<Package>) {
    selected.Some? && Truthy(selected.value.membershipId)
  }

  /** The fifteen keys every parameter set has, in insertion order. */
  const BaseKeys: seq<string> := [
    "hash_algorithm", "language", "hashExtended", "txntype", "timezone", "txndatetime", "storename",
    "chargetotal", "currency", "paymentMethod", "oid", "checkoutoption", "responseFailURL",
    "responseSuccessURL", "transactionNotificationURL"]

  /** The keys a membership adds for a twelve-month plan. */
  const RecurringKeys: seq<string> := ["recurringInstallmentCount", "recurringInstallmentPeriod", "recurringInstallmentFrequency"]

  function PaymentKeys(membership: bool): seq<string> {
    if membership then BaseKeys + RecurringKeys else BaseKeys
  }

  /** `buildPaymentParams()`. */
  function BuildPaymentParams(cfg: GatewayConfig, selected: Option<Package>): (r: Params)
    ensures Records.Keys(r) == PaymentKeys(IsMembership(selected))
  {
    var base := [
      ("hash_algorithm", Text("HMACSHA256")),
      ("language", Text(cfg.language)),
      ("hashExtended", Text("")),
      ("txntype", Text(cfg.txntype)),
      ("timezone", Text(cfg.timezone)),
      ("txndatetime", Text(cfg.txndatetime)),
      ("storename", Text(cfg.storename)),
      ("chargetotal", Text(cfg.chargetotal)),
      ("currency", Text(cfg.currency)),
      ("paymentMethod", Text(cfg.paymentMethod)),
      ("oid", Text(cfg.oid)),
      ("checkoutoption", Text(cfg.checkoutoption)),
      ("responseFailURL", Text(cfg.responseFailURL)),
      ("responseSuccessURL", Text(cfg.responseSuccessURL)),
      ("transactionNotificationURL", Text(cfg.transactionNotificationURL))];
    var recurring := [
      ("recurringInstallmentCount", Number(12)),
      ("recurringInstallmentPeriod", Text("month")),
      ("recurringInstallmentFrequency", Number(1))];
    if IsMembership(selected) then base + recurring else base
  }

  /** No gateway field name is listed twice. */
  lemma PaymentKeysDistinct()
    ensures KeySort.Distinct(BaseKeys + RecurringKeys)
  {
    PaymentKeysDistinctFrom0();
    PaymentKeysDistinctFrom5();
    PaymentKeysDistinctFrom10();
    PaymentKeysDistinctFrom15();
  }

  lemma PaymentKeysDistinctFrom0() ensures forall i, j :: 0 <= i < 5 && i < j < 18 ==> (BaseKeys + RecurringKeys)[i] != (BaseKeys + RecurringKeys)[j] {}
  lemma PaymentKeysDistinctFrom5() ensures forall i, j :: 5 <= i < 10 && i < j < 18 ==> (BaseKeys + RecurringKeys)[i] != (BaseKeys + RecurringKeys)[j] {}
  lemma PaymentKeysDistinctFrom10() ensures forall i, j :: 10 <= i < 15 && i < j < 18 ==> (BaseKeys + RecurringKeys)[i] != (BaseKeys + RecurringKeys)[j] {}
  lemma PaymentKeysDistinctFrom15() ensures forall i, j :: 15 <= i < 18 && i < j < 18 ==> (BaseKeys + RecurringKeys)[i] != (BaseKeys + RecurringKeys)[j] {}

  /** The parameter set is a well-formed object: no key twice. */
  lemma PaymentParamsDistinct(cfg: GatewayConfig, selected: Option<Package>)
    ensures Records.DistinctKeys(BuildPaymentParams(cfg, selected))
  {
    var r := BuildPaymentParams(cfg, selected);
    var all := BaseKeys + RecurringKeys;
    PaymentKeysDistinct();
    if IsMembership(selected) {
      DistinctKeysOf(r, all);
    } else {
      assert BaseKeys == all[..15];
      DistinctKeysOf(r, BaseKeys);
    }
  }

  /** An entry list whose keys, read in order, are a prefix of a repetition-free list has no key twice. */
  lemma DistinctKeysOf(r: Params, ks: seq<string>)
    requires KeySort.Distinct(ks) && |Records.Keys(r)| <= |ks| && Records.Keys(r) == ks[..|r|]
    ensures Records.DistinctKeys(r)
  {
    forall i, j | 0 <= i < j < |r| ensures r[i].0 != r[j].0 {
      assert r[i].0 == Records.Keys(r)[i] == ks[i] && r[j].0 == Records.Keys(r)[j] == ks[j];
    }
  }

  /** The fifteen base fields are always sent. */
  lemma BaseFieldsPresent(cfg: GatewayConfig, selected: Option<Package>)
    ensures forall k :: k in BaseKeys ==> Records.HasKey(BuildPaymentParams(cfg, selected), k)
  {
    var r := BuildPaymentParams(cfg, selected);
    var ks := Records.Keys(r);
    forall k | k in BaseKeys ensures Records.HasKey(r, k) {
      var i :| 0 <= i < |BaseKeys| && BaseKeys[i] == k;
      assert ks[i] == k;
    }
  }

  /** The algorithm is fixed to HMACSHA256, the signature field starts empty, and the total is the configured one. */
  lemma FixedFieldValues(cfg: GatewayConfig, selected: Option<Package>)
    ensures
      var r := BuildPaymentParams(cfg, selected);
      && Records.Lookup(r, "hash_algorithm") == Some(Text("HMACSHA256"))
      && Records.Lookup(r, HashField) == Some(Text(""))
      && Records.Lookup(r, "chargetotal") == Some(Text(cfg.chargetotal))
  {
    var r := BuildPaymentParams(cfg, selected);
    PaymentParamsDistinct(cfg, selected);
    Records.LookupAt(r, 0);
    Records.LookupAt(r, 2);
    Records.LookupAt(r, 7);
  }

  /** The three recurring fields are sent exactly for a membership. */
  lemma RecurringFieldsIff(cfg: GatewayConfig, selected: Option<Package>)
    ensures forall k :: k in RecurringKeys ==> (Records.HasKey(BuildPaymentParams(cfg, selected), k) <==> IsMembership(selected))
  {
    var r := BuildPaymentParams(cfg, selected);
    var ks := Records.Keys(r);
    PaymentKeysDistinct();
    forall k | k in RecurringKeys ensures Records.HasKey(r, k) <==> IsMembership(selected) {
      var i :| 0 <= i < |RecurringKeys| && RecurringKeys[i] == k;
      assert (BaseKeys + RecurringKeys)[15 + i] == k;
      if IsMembership(selected) {
        assert ks[15 + i] == k;
      } else {
        forall j | 0 <= j < |r| ensures r[j].0 != k {
          assert r[j].0 == ks[j] == (BaseKeys + RecurringKeys)[j];
        }
      }
    }
  }

  /** A membership is billed as twelve monthly instalments. */
  lemma RecurringFieldValues(cfg: GatewayConfig, selected: Option<Package>)
    requires IsMembership(selected)
    ensures
      var r := BuildPaymentParams(cfg, selected);
      && Records.Lookup(r, "recurringInstallmentCount") == Some(Number(12))
      && Records.Lookup(r, "recurringInstallmentPeriod") == Some(Text("month"))
      && Records.Lookup(r, "recurringInstallmentFrequency") == Some(Number(1))
  {
    var r := BuildPaymentParams(cfg, selected);
    PaymentParamsDistinct(cfg, selected);
    Records.LookupAt(r, 15);
    Records.LookupAt(r, 16);
    Records.LookupAt(r, 17);
  }

  /** `{ ...params, hashExtended }`: the submitted form fields. */
  function SubmittedFields(p: Params, secret: string, hmac: (string, string) -> seq<bv8>, base64: seq<bv8> -> string): (r: Params)
    ensures Records.Lookup(r, HashField) == Some(Text(CreateSignature(p, secret, hmac, base64)))
    ensures forall k :: k != HashField ==> Records.Lookup(r, k) == Records.Lookup(p, k)
  {
    Records.Put(p, HashField, Text(CreateSignature(p, secret, hmac, base64)))
  }

  /**
   * For any well-formed parameter set that already holds the signature field,
   * the gateway, recomputing the signature over the submitted fields, gets the
   * value that was submitted; and the form keeps the parameters' field order.
   */
  lemma SubmittedFieldsVerify(p: Params, secret: string,
    hmac: (string, string) -> seq<bv8>, base64: seq<bv8> -> string)
    requires Records.DistinctKeys(p) && Records.HasKey(p, HashField)
    ensures
      var sent := SubmittedFields(p, secret, hmac, base64);
      && Records.Lookup(sent, HashField) == Some(Text(CreateSignature(sent, secret, hmac, base64)))
      && Records.Keys(sent) == Records.Keys(p)
  {
    var sig := CreateSignature(p, secret, hmac, base64);
    SignatureIgnoresHashField(p, Text(sig), secret, hmac, base64);
    Records.PutExisting(p, HashField, Text(sig));
  }

  /** The payment parameters meet that condition, so their submission verifies. */
  lemma SubmissionVerifies(cfg: GatewayConfig, selected: Option<Package>, secret: string,
    hmac: (string, string) -> seq<bv8>, base64: seq<bv8> -> string)
    ensures
      var p := BuildPaymentParams(cfg, selected);
      var sent := SubmittedFields(p, secret, hmac, base64);
      && Records.Lookup(sent, HashField) == Some(Text(CreateSignature(sent, secret, hmac, base64)))
      && Records.Keys(sent) == Records.Keys(p)
  {
    PaymentParamsDistinct(cfg, selected);
    FixedFieldValues(cfg, selected);
    SubmittedFieldsVerify(BuildPaymentParams(cfg, selected), secret, hmac, base64);
  }

  /** With the default props the empty `paymentMethod`, `oid` and notification URL are not signed. */
  lemma DefaultEmptyFieldsUnsigned(txndatetime: string, chargetotal: string, selected: Option<Package>)
    ensures
      var p := BuildPaymentParams(DefaultConfig(txndatetime, chargetotal), selected);
      SignedValue(p, "paymentMethod").None? && SignedValue(p, "oid").None? && SignedValue(p, "transactionNotificationURL").None?
  {
    var p := BuildPaymentParams(DefaultConfig(txndatetime, chargetotal), selected);
    PaymentParamsDistinct(DefaultConfig(txndatetime, chargetotal), selected);
    EmptyFieldUnsigned(p, 9);
    EmptyFieldUnsigned(p, 10);
    EmptyFieldUnsigned(p, 14);
  }

  /** A field whose value is the empty string takes no part in the signature. */
  lemma EmptyFieldUnsigned(p: Params, i: nat)
    requires Records.DistinctKeys(p) && i < |p| && p[i].1 == Text("")
    ensures SignedValue(p, p[i].0).None?
  {
    Records.LookupAt(p, i);
  }

  // ---------------------------------------------------------------------------
  // handleCheckout
  // ---------------------------------------------------------------------------

  /** What the `onCheckout` prop did: absent, resolved to a value, or threw / rejected. */
  datatype CheckoutCallback = NoCallback | Returned(result: Value) | Threw

  /** `handleCheckout()`: whether the form is submitted to the gateway. */
  function HandleCheckout(termsAccepted: bool, callback: CheckoutCallback): (submit: bool)
    ensures submit ==> termsAccepted
    ensures submit <==> termsAccepted && !callback.Threw? && callback != Returned(Bool(false))
  {
    if !termsAccepted then false
    else
      match callback
      case NoCallback => true
      case Threw => false
      case Returned(v) => v != Bool(false)
  }

  /** Only a literal `false` vetoes: other falsy results (undefined, null, 0, "") still submit. */
  lemma OnlyFalseVetoes(v: Value)
    requires !Truthy(v) && v != Bool(false)
    ensures HandleCheckout(true, Returned(v))
  {
  }

  // ---------------------------------------------------------------------------
  // validateCoupon
  // ---------------------------------------------------------------------------

  const ExpiredMessage: string := "This coupon has expired."
  const UsedMessage: string := "This coupon has already been used."

  datatype CouponCheck = CouponCheck(valid: bool, error: string)

  /**
   * `validateCoupon()`, with the expiration date (if any) and "now" as
   * integers of one clock: `exp.isBefore(now)` is `exp < now`.
   */
  function ValidateCoupon(expiration: Option<int>, isUsed: bool, now: int): (r: CouponCheck)
    ensures r.valid <==> (expiration.None? || expiration.value >= now) && !isUsed
    ensures r.valid <==> r.error == ""
    ensures expiration.Some? && expiration.value < now ==> r.error == ExpiredMessage
    ensures (expiration.None? || expiration.value >= now) && isUsed ==> r.error == UsedMessage
  {
    if expiration.None? && !isUsed then CouponCheck(true, "")
    else if expiration.Some? && expiration.value < now then CouponCheck(false, ExpiredMessage)
    else if isUsed then CouponCheck(false, UsedMessage)
    else CouponCheck(true, "")
  }
}
