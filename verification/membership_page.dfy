/**
 * The membership catalogue page of src/pages/membersip.jsx: the packages
 * whose name mentions "membership", the default selection, the totals shown
 * before and after a coupon, and `handleApplyCoupon`, which looks the typed
 * code up in the active coupon list and computes the discount locally.
 *
 * The page's money is JavaScript number arithmetic on integer inputs; an
 * `Amount` is such a number, a real value or NaN, so a percent discount
 * keeps its fraction.
 */
module MembershipPage {
  import opened Wrappers
  import opened JsValue
  import JsText
  import Seqs
  import PurchaseSummary

  // ---------------------------------------------------------------------------
  // Numbers
  // ---------------------------------------------------------------------------

  /** A JavaScript number as the page computes with it. */
  datatype Amount = Finite(x: real) | NotANumber

  /** `Number(v || 0)`. */
  function AmountOf(v: Value): (r: Amount)
    ensures !Truthy(v) ==> r == Finite(0.0)
    ensures v.Num? ==> r == Finite(v.n as real)
  {
    var n := ToNumber(if Truthy(v) then v else Num(0));
    if n.Num? then Finite(n.n as real) else NotANumber
  }

  /** `Math.min(a, b)`: NaN if either is. */
  function Min(a: Amount, b: Amount): Amount {
    if a.Finite? && b.Finite? then Finite(if a.x <= b.x then a.x else b.x) else NotANumber
  }

  /** `Math.max(a, b)`: NaN if either is. */
  function Max(a: Amount, b: Amount): Amount {
    if a.Finite? && b.Finite? then Finite(if a.x >= b.x then a.x else b.x) else NotANumber
  }

  function Minus(a: Amount, b: Amount): Amount {
    if a.Finite? && b.Finite? then Finite(a.x - b.x) else NotANumber
  }

  // ---------------------------------------------------------------------------
  // Catalogue and selection
  // ---------------------------------------------------------------------------

  /** Reading a property of a null or undefined element throws. */
  predicate Readable(items: seq<Value>) {
    forall i :: 0 <= i < |items| ==> !IsNullish(items[i])
  }

  /** `/membership/i.test(i.membershipName || "")`. */
  predicate IsMembershipPackage(item: Value) {
    var name := Get(item, "membershipName");
    JsText.ContainsIgnoringCase(ToJsString(if Truthy(name) then name else Str("")), "membership")
  }

  /** `filteredPackages`, or `None` when a null element makes the filter throw. */
  function FilteredPackages(items: seq<Value>): (r: Option<seq<Value>>)
    ensures r.Some? <==> Readable(items)
    ensures r.Some? ==> forall i :: 0 <= i < |r.value| ==> IsMembershipPackage(r.value[i]) && r.value[i] in items
    ensures r.Some? ==> forall i :: 0 <= i < |items| && IsMembershipPackage(items[i]) ==> items[i] in r.value
  {
    if Readable(items) then Some(Seqs.Filter(items, IsMembershipPackage)) else None
  }

  /** The filter keeps the packages in the order the server listed them. */
  lemma FilteredInOrder(items: seq<Value>)
    requires Readable(items)
    ensures Seqs.IsSubsequence(FilteredPackages(items).value, items)
  {
    Seqs.FilterIsSubsequence(items, IsMembershipPackage);
  }

  /** A package is listed exactly when "membership" occurs in its name, in any letter case. */
  lemma ListedIffNameMentionsMembership(items: seq<Value>, item: Value)
    requires Readable(items) && item in items
    ensures item in FilteredPackages(items).value <==>
      var name := Get(item, "membershipName");
      JsText.OccursIgnoringCase(ToJsString(if Truthy(name) then name else Str("")), "membership")
  {
    var name := Get(item, "membershipName");
    JsText.ContainsIgnoringCaseIff(ToJsString(if Truthy(name) then name else Str("")), "membership");
  }

  /** `String(p.membershipId)`. */
  function IdString(p: Value): string {
    ToJsString(Get(p, "membershipId"))
  }

  /** `String(selectedId)` for a selection that may be null. */
  function SelectionString(selectedId: Option<string>): string {
    if selectedId.Some? then selectedId.value else "null"
  }

  /** `filteredPackages.find(p => String(p.membershipId) === String(selectedId)) || null`. */
  function SelectedItem(filtered: seq<Value>, selectedId: Option<string>): (r: Option<Value>)
    ensures r.Some? ==> r.value in filtered && IdString(r.value) == SelectionString(selectedId)
    ensures r.Some? ==>
      exists k :: 0 <= k < |filtered| && filtered[k] == r.value &&
        forall j :: 0 <= j < k ==> IdString(filtered[j]) != SelectionString(selectedId)
    ensures r.None? <==> forall i :: 0 <= i < |filtered| ==> IdString(filtered[i]) != SelectionString(selectedId)
  {
    var key := SelectionString(selectedId);
    var k := Seqs.FindFirst(filtered, p => IdString(p) == key);
    if k.Some? then Some(filtered[k.value]) else None
  }

  /** The effect run whenever the list changes: the first package's id, or nothing. */
  function DefaultSelection(filtered: seq<Value>): (r: Option<string>)
    ensures r.Some? <==> |filtered| > 0
  {
    if |filtered| > 0 then Some(IdString(filtered[0])) else None
  }

  /** After the default selection the first package is the selected item, and an empty list selects nothing. */
  lemma DefaultSelectsFirst(filtered: seq<Value>)
    ensures SelectedItem(filtered, DefaultSelection(filtered)) == if |filtered| > 0 then Some(filtered[0]) else None
  {
    if |filtered| > 0 {
      var key := IdString(filtered[0]);
      Seqs.FindFirstHead(filtered, p => IdString(p) == key);
    }
  }

  // ---------------------------------------------------------------------------
  // Totals shown
  // ---------------------------------------------------------------------------

  /** The object `handleApplyCoupon` stores as `serverTotals`. */
  datatype PageTotals = PageTotals(subtotal: Amount, discounts: Amount, tax: Amount, totalAmount: Amount)

  /** `Number(selectedItem.membershipPrice || 0)`, or 0 with nothing selected. */
  function PriceOf(selected: Option<Value>): (r: Amount)
    ensures selected.None? ==> r == Finite(0.0)
  {
    if selected.Some? && Truthy(selected.value) then AmountOf(Get(selected.value, "membershipPrice")) else Finite(0.0)
  }

  /**
   * The four figures handed to the summary: the stored totals when there
   * are any (every field of them is a number, so `??` never falls back),
   * else the selected price with no discount and no tax.
   */
  function ShownTotals(serverTotals: Option<PageTotals>, selected: Option<Value>): (r: PageTotals)
    ensures serverTotals.Some? ==> r == serverTotals.value
    ensures serverTotals.None? ==> r.subtotal == PriceOf(selected) && r.discounts == Finite(0.0) && r.tax == Finite(0.0)
  {
    if serverTotals.Some? then serverTotals.value
    else
      var fallback := PriceOf(selected);
      PageTotals(fallback, Finite(0.0), Finite(0.0), Max(Minus(fallback, Finite(0.0)), Finite(0.0)))
  }

  /** Without stored totals the total is the price clamped at 0, and 0 with nothing selected. */
  lemma FallbackTotal(selected: Option<Value>)
    ensures ShownTotals(None, selected).totalAmount.Finite? <==> PriceOf(selected).Finite?
    ensures PriceOf(selected).Finite? ==>
      ShownTotals(None, selected).totalAmount.x == if PriceOf(selected).x >= 0.0 then PriceOf(selected).x else 0.0
    ensures selected.None? ==> ShownTotals(None, selected) == PageTotals(Finite(0.0), Finite(0.0), Finite(0.0), Finite(0.0))
  {
  }

  /** The page state the handlers act on. */
  datatype Page = Page(couponCode: string, selectedId: Option<string>, serverTotals: Option<PageTotals>)

  /** Clicking a package selects it by id and drops the stored totals. */
  function Choose(page: Page, p: Value): (r: Page)
    ensures r.serverTotals.None? && r.couponCode == page.couponCode
    ensures r.selectedId == Some(IdString(p))
  {
    page.(selectedId := Some(IdString(p)), serverTotals := None)
  }

  /** After a click the summary shows the clicked package's price, whatever a coupon had set. */
  lemma ChooseShowsPrice(page: Page, filtered: seq<Value>, p: Value)
    requires p in filtered
    ensures
      var after := Choose(page, p);
      var selected := SelectedItem(filtered, after.selectedId);
      && selected.Some? && IdString(selected.value) == IdString(p)
      && ShownTotals(after.serverTotals, selected).subtotal == PriceOf(selected)
      && ((forall i, j :: 0 <= i < j < |filtered| ==> IdString(filtered[i]) != IdString(filtered[j])) ==> selected == Some(p))
  {
    var i :| 0 <= i < |filtered| && filtered[i] == p;
    assert IdString(filtered[i]) == SelectionString(Some(IdString(p)));
    if forall i, j :: 0 <= i < j < |filtered| ==> IdString(filtered[i]) != IdString(filtered[j]) {
      DistinctIdsSelectChosen(filtered, i);
    }
  }

  /** With distinct id strings, selecting a package's id selects exactly that package. */
  lemma DistinctIdsSelectChosen(filtered: seq<Value>, i: int)
    requires 0 <= i < |filtered|
    requires forall i, j :: 0 <= i < j < |filtered| ==> IdString(filtered[i]) != IdString(filtered[j])
    ensures SelectedItem(filtered, Some(IdString(filtered[i]))) == Some(filtered[i])
  {
    var key := SelectionString(Some(IdString(filtered[i])));
    var selected := SelectedItem(filtered, Some(IdString(filtered[i])));
    assert IdString(filtered[i]) == key;
    var k :| 0 <= k < |filtered| && filtered[k] == selected.value &&
      forall j :: 0 <= j < k ==> IdString(filtered[j]) != key;
    assert !(i < k) && !(k < i);
  }

  // ---------------------------------------------------------------------------
  // handleApplyCoupon
  // ---------------------------------------------------------------------------

  /** `(couponCode || "").trim().toUpperCase()`. */
  function PromoOf(couponCode: string): string {
    JsText.ToUpper(JsText.Trim(couponCode))
  }

  /** A code typed in lower case, upper case or with surrounding spaces is the same promo. */
  lemma PromoIgnoresCase(couponCode: string)
    ensures PromoOf(JsText.ToLower(couponCode)) == PromoOf(couponCode)
  {
    JsText.TrimUpperIgnoresCase(couponCode);
  }

  /** `String(c.couponCode || "").toUpperCase()`. */
  function CodeOf(c: Value): string {
    var code := Get(c, "couponCode");
    JsText.ToUpper(ToJsString(if Truthy(code) then code else Str("")))
  }

  /** `json?.data` when it is an array, else no coupons. */
  function CouponList(json: Value): (r: seq<Value>)
    ensures Get(json, "data").Arr? ==> r == Get(json, "data").items
    ensures !Get(json, "data").Arr? ==> r == []
  {
    var d := Get(json, "data");
    if d.Arr? then d.items else []
  }

  datatype Search = Found(index: nat) | NotFound | Throws

  /**
   * `list.find(c => String(c.couponCode || "").toUpperCase() === promo)`:
   * the first coupon whose code matches, unless a null element is reached
   * first, whose `.couponCode` throws.
   */
  function FindCoupon(list: seq<Value>, promo: string): (r: Search)
    ensures r.Found? ==> r.index < |list| && !IsNullish(list[r.index]) && CodeOf(list[r.index]) == promo
    ensures r.Found? ==> forall j :: 0 <= j < r.index ==> !IsNullish(list[j]) && CodeOf(list[j]) != promo
    ensures r.NotFound? <==> forall j :: 0 <= j < |list| ==> !IsNullish(list[j]) && CodeOf(list[j]) != promo
    ensures r.Throws? ==>
      exists k :: 0 <= k < |list| && IsNullish(list[k]) &&
        forall j :: 0 <= j < k ==> !IsNullish(list[j]) && CodeOf(list[j]) != promo
  {
    match Seqs.FindFirst(list, c => IsNullish(c) || CodeOf(c) == promo)
    case None => NotFound
    case Some(k) => if IsNullish(list[k]) then Throws else Found(k)
  }

  /**
   * `!match.expirationDate || new Date(match.expirationDate).getTime() > now`;
   * `parseDate` is the date parser, `None` for an invalid date (NaN).
   */
  predicate ExpiryOk(c: Value, now: int, parseDate: Value -> Option<int>) {
    var exp := Get(c, "expirationDate");
    !Truthy(exp) || (parseDate(exp).Some? && parseDate(exp).value > now)
  }

  datatype DiscountType = Fixed | Percent | OtherType

  /** `match.discountTypeId`, compared with `===` against 1 and 2. */
  function DiscountTypeOf(c: Value): DiscountType {
    var t := Get(c, "discountTypeId");
    if t == Num(2) then Percent else if t == Num(1) then Fixed else OtherType
  }

  /**
   * The discount: `sub * (val / 100)` for a percent coupon, `Math.min(val, sub)`
   * for a fixed one and for any other type.
   */
  function Discount(kind: DiscountType, sub: Amount, val: Amount): (d: Amount)
    ensures d.Finite? <==> sub.Finite? && val.Finite?
    ensures d.Finite? && !kind.Percent? ==> d.x <= sub.x && d.x <= val.x && (d.x == sub.x || d.x == val.x)
    ensures d.Finite? && kind.Percent? ==> d.x == sub.x * val.x / 100.0
  {
    if kind.Percent? then
      if sub.Finite? && val.Finite? then Finite(sub.x * (val.x / 100.0)) else NotANumber
    else Min(val, sub)
  }

  /** A percentage between 0 and 100 of a non-negative price never exceeds the price. */
  lemma PercentWithinPrice(sub: real, val: real)
    requires 0.0 <= sub && 0.0 <= val <= 100.0
    ensures 0.0 <= Discount(Percent, Finite(sub), Finite(val)).x <= sub
  {
    var q := val / 100.0;
    assert Discount(Percent, Finite(sub), Finite(val)).x == sub * q;
    assert 0.0 <= q <= 1.0;
    assert sub - sub * q == sub * (1.0 - q);
    ProductNonNegative(sub, 1.0 - q);
    ProductNonNegative(sub, q);
  }

  lemma ProductNonNegative(a: real, b: real)
    requires 0.0 <= a && 0.0 <= b
    ensures 0.0 <= a * b
  {
  }

  /** The totals an accepted coupon produces: no tax, and a total of `Math.max(sub - discount, 0)`. */
  function CouponTotals(kind: DiscountType, sub: Amount, val: Amount): (t: PageTotals)
    ensures t.subtotal == sub && t.tax == Finite(0.0) && t.discounts == Discount(kind, sub, val)
    ensures t.totalAmount.Finite? ==> t.totalAmount.x >= 0.0
    ensures t.totalAmount.Finite? <==> sub.Finite? && val.Finite?
  {
    var d := Discount(kind, sub, val);
    PageTotals(sub, d, Finite(0.0), Max(Minus(sub, d), Finite(0.0)))
  }

  /** When the discount fits in the price, the total is exactly what is left of it. */
  lemma TotalIsRemainder(kind: DiscountType, sub: Amount, val: Amount)
    requires Discount(kind, sub, val).Finite? && Discount(kind, sub, val).x <= sub.x
    ensures CouponTotals(kind, sub, val).totalAmount == Finite(sub.x - Discount(kind, sub, val).x)
  {
  }

  /** A fixed or unknown-type coupon worth more than the price brings the total to 0, never below. */
  lemma LargeFixedCouponZeroes(kind: DiscountType, sub: real, val: real)
    requires !kind.Percent? && val >= sub
    ensures CouponTotals(kind, Finite(sub), Finite(val)) == PageTotals(Finite(sub), Finite(sub), Finite(0.0), Finite(0.0))
  {
  }

  /** What became of the JSON the coupon-list request answered with; `Failed` is a throw. */
  datatype Fetched = Answered(json: Value) | Failed

  /** Where `handleApplyCoupon` stopped, and the totals it stored if it got to the end. */
  datatype Verdict =
    | EmptyCode | MissingSite | NoSelection   // returned before any request
    | Errored                                  // the request, the parse or the search threw
    | InvalidCode                              // no coupon with that code
    | ExpiredOrUsed                            // found, but expired or already used
    | Accepted(totals: PageTotals)

  /**
   * `handleApplyCoupon()`, with the stored site id, the selected package,
   * what the coupon-list request returned, the clock and the date parser as
   * inputs. The response's status is never looked at.
   */
  function ApplyCoupon(couponCode: string, siteId: string, selected: Option<Value>, fetched: Fetched,
                       now: int, parseDate: Value -> Option<int>): (v: Verdict)
    ensures PromoOf(couponCode) == "" ==> v == EmptyCode
    ensures PromoOf(couponCode) != "" && siteId == "" ==> v == MissingSite
    ensures PromoOf(couponCode) != "" && siteId != "" && selected.None? ==> v == NoSelection
    ensures fetched.Failed? && PromoOf(couponCode) != "" && siteId != "" && selected.Some? ==> v == Errored
  {
    var promo := PromoOf(couponCode);
    if promo == "" then EmptyCode
    else if siteId == "" then MissingSite
    else if selected.None? then NoSelection
    else
      match fetched
      case Failed => Errored
      case Answered(json) =>
        var list := CouponList(json);
        match FindCoupon(list, promo)
        case Throws => Errored
        case NotFound => InvalidCode
        case Found(k) =>
          var c := list[k];
          if !ExpiryOk(c, now, parseDate) || Truthy(Get(c, "isUsed")) then ExpiredOrUsed
          else Accepted(CouponTotals(DiscountTypeOf(c), PriceOf(selected), AmountOf(Get(c, "discountValue"))))
  }

  /** A request is sent only past the three early returns. */
  predicate Requests(couponCode: string, siteId: string, selected: Option<Value>) {
    PromoOf(couponCode) != "" && siteId != "" && selected.Some?
  }

  /**
   * A coupon is accepted exactly when the request got through, the first
   * coupon with the typed code (in any letter case) exists, and it is neither
   * expired nor used; the totals then follow from its type and value.
   */
  lemma AcceptedIff(couponCode: string, siteId: string, selected: Option<Value>, json: Value,
                    now: int, parseDate: Value -> Option<int>)
    ensures ApplyCoupon(couponCode, siteId, selected, Answered(json), now, parseDate).Accepted? <==>
      && Requests(couponCode, siteId, selected)
      && FindCoupon(CouponList(json), PromoOf(couponCode)).Found?
      && var c := CouponList(json)[FindCoupon(CouponList(json), PromoOf(couponCode)).index];
         ExpiryOk(c, now, parseDate) && !Truthy(Get(c, "isUsed"))
  {
  }

  /** The accepted totals: the selected price, the coupon's discount of it, no tax, and a total never below 0. */
  lemma AcceptedTotals(couponCode: string, siteId: string, selected: Option<Value>, json: Value,
                       now: int, parseDate: Value -> Option<int>)
    requires ApplyCoupon(couponCode, siteId, selected, Answered(json), now, parseDate).Accepted?
    ensures
      var t := ApplyCoupon(couponCode, siteId, selected, Answered(json), now, parseDate).totals;
      var c := CouponList(json)[FindCoupon(CouponList(json), PromoOf(couponCode)).index];
      && t.subtotal == PriceOf(selected)
      && t.discounts == Discount(DiscountTypeOf(c), PriceOf(selected), AmountOf(Get(c, "discountValue")))
      && t.tax == Finite(0.0)
      && (t.totalAmount.Finite? ==> t.totalAmount.x >= 0.0)
  {
  }

  /** A coupon expiring exactly now is refused here, although `validateCoupon` in the summary accepts it. */
  lemma ExpiryBoundaryStricter(c: Value, now: int, parseDate: Value -> Option<int>)
    requires Truthy(Get(c, "expirationDate")) && parseDate(Get(c, "expirationDate")) == Some(now)
    ensures !ExpiryOk(c, now, parseDate)
    ensures PurchaseSummary.ValidateCoupon(Some(now), false, now).valid
  {
  }

  /** Stores the totals of an accepted coupon; every other verdict leaves the page as it was. */
  function AfterCoupon(page: Page, v: Verdict): (r: Page)
    ensures v.Accepted? ==> r == page.(serverTotals := Some(v.totals))
    ensures !v.Accepted? ==> r == page
  {
    if v.Accepted? then page.(serverTotals := Some(v.totals)) else page
  }

  /** After an accepted coupon the summary shows its totals until another package is clicked. */
  lemma AcceptedTotalsShown(page: Page, v: Verdict, selected: Option<Value>)
    requires v.Accepted?
    ensures ShownTotals(AfterCoupon(page, v).serverTotals, selected) == v.totals
  {
  }
}
