/**
 * The wash-book catalogue page of src/pages/membership.jsx: the category
 * chosen by the URL fragment, the three name filters over the wash books,
 * the list the page shows, the manual-wash selection and its subtotal.
 */
module WashbookPage {
  import opened Wrappers
  import opened JsValue
  import JsText
  import Seqs

  // ---------------------------------------------------------------------------
  // Category from the URL fragment
  // ---------------------------------------------------------------------------

  datatype Category = Express | Manual | Memberships

  const ExpressAnchor: string := "#checkout-express-wash"
  const ManualAnchor: string := "#checkout-manual-wash"

  /** `/#checkout-express-wash/i` first, then `/#checkout-manual-wash/i`, else the memberships view. */
  function CategoryOf(hash: string): (c: Category)
    ensures c == Express <==> JsText.OccursIgnoringCase(hash, ExpressAnchor)
    ensures c == Manual <==> !JsText.OccursIgnoringCase(hash, ExpressAnchor) && JsText.OccursIgnoringCase(hash, ManualAnchor)
  {
    JsText.ContainsIgnoringCaseIff(hash, ExpressAnchor);
    JsText.ContainsIgnoringCaseIff(hash, ManualAnchor);
    if JsText.ContainsIgnoringCase(hash, ExpressAnchor) then Express
    else if JsText.ContainsIgnoringCase(hash, ManualAnchor) then Manual
    else Memberships
  }

  // ---------------------------------------------------------------------------
  // `/wash\s*book/i`
  // ---------------------------------------------------------------------------

  /** Every character of `s[a..j]` is whitespace. */
  predicate SpaceRun(s: string, a: nat, j: nat) {
    a <= j <= |s| && forall k :: a <= k < j ==> JsText.IsJsSpace(s[k])
  }

  /**
   * The pattern matches at `i`: "wash", then as much whitespace as there is,
   * then "book". Backtracking into the whitespace cannot help, because "book"
   * starts with a letter.
   */
  predicate WashBookAt(s: string, i: nat) {
    JsText.MatchesAt(s, "wash", i) && JsText.MatchesAt(s, "book", JsText.SkipSpace(s, i + 4))
  }

  /** The declarative reading: "wash", any run of whitespace, "book", in any letter case. */
  ghost predicate WashBookOccurs(s: string) {
    exists i: nat, j: nat :: JsText.MatchesAt(s, "wash", i) && SpaceRun(s, i + 4, j) && JsText.MatchesAt(s, "book", j)
  }

  /** Left-to-right search for the pattern from offset `i`. */
  predicate SearchWashBook(s: string, i: nat)
    decreases |s| - i
  {
    i + 4 <= |s| && (WashBookAt(s, i) || SearchWashBook(s, i + 1))
  }

  /** `/wash\s*book/i.test(s)`. */
  predicate ContainsWashBook(s: string) {
    SearchWashBook(s, 0)
  }

  /** A case-insensitive "book" starts with a letter, so never with whitespace. */
  lemma BookStartsWithLetter(s: string, j: nat)
    requires JsText.MatchesAt(s, "book", j)
    ensures !JsText.IsJsSpace(s[j])
  {
    assert JsText.ToLower(s[j..j + 4])[0] == JsText.LowerChar(s[j]);
  }

  /** Greedy whitespace skipping finds "book" exactly when some run of whitespace leads to it. */
  lemma WashBookAtIff(s: string, i: nat)
    requires i + 4 <= |s|
    ensures WashBookAt(s, i) <==>
      JsText.MatchesAt(s, "wash", i) && exists j: nat :: SpaceRun(s, i + 4, j) && JsText.MatchesAt(s, "book", j)
  {
    var g := JsText.SkipSpace(s, i + 4);
    assert SpaceRun(s, i + 4, g);
    if exists j: nat :: SpaceRun(s, i + 4, j) && JsText.MatchesAt(s, "book", j) {
      var j: nat :| SpaceRun(s, i + 4, j) && JsText.MatchesAt(s, "book", j);
      BookStartsWithLetter(s, j);
    }
  }

  /** The search from `i` succeeds exactly when the pattern matches at some offset from `i` on. */
  lemma {:induction false} SearchWashBookSound(s: string, i: nat)
    ensures SearchWashBook(s, i) <==> exists k: nat :: i <= k && k + 4 <= |s| && WashBookAt(s, k)
    decreases |s| - i
  {
    if i + 4 <= |s| {
      SearchWashBookSound(s, i + 1);
      if exists k: nat :: i <= k && k + 4 <= |s| && WashBookAt(s, k) {
        var k: nat :| i <= k && k + 4 <= |s| && WashBookAt(s, k);
        if k != i {
          assert i + 1 <= k;
        }
      }
    }
  }

  /** The search answers the declarative question. */
  lemma ContainsWashBookIff(s: string)
    ensures ContainsWashBook(s) <==> WashBookOccurs(s)
  {
    SearchWashBookSound(s, 0);
    if WashBookOccurs(s) {
      var i: nat, j: nat :| JsText.MatchesAt(s, "wash", i) && SpaceRun(s, i + 4, j) && JsText.MatchesAt(s, "book", j);
      WashBookAtIff(s, i);
    }
    if ContainsWashBook(s) {
      var k: nat :| k + 4 <= |s| && WashBookAt(s, k);
      WashBookAtIff(s, k);
    }
  }

  // ---------------------------------------------------------------------------
  // The three lists and the one shown
  // ---------------------------------------------------------------------------

  /** `i.washbookName || ""` as the regular expressions read it. */
  function NameOf(item: Value): string {
    var name := Get(item, "washbookName");
    ToJsString(if Truthy(name) then name else Str(""))
  }

  predicate IsExpress(item: Value) {
    JsText.ContainsIgnoringCase(NameOf(item), "express")
  }

  predicate IsManual(item: Value) {
    JsText.ContainsIgnoringCase(NameOf(item), "manual")
  }

  predicate IsWashBook(item: Value) {
    ContainsWashBook(NameOf(item))
  }

  /** The test that puts a wash book in the list of a category. */
  function Belongs(c: Category): Value -> bool {
    match c
    case Express => IsExpress
    case Manual => IsManual
    case Memberships => IsWashBook
  }

  /** Reading a property of a null or undefined element throws. */
  predicate Readable(items: seq<Value>) {
    forall i :: 0 <= i < |items| ==> !IsNullish(items[i])
  }

  /**
   * `listForView`: the filtered list of the category. All three filters run
   * on every render, so a null element throws (`None`) whatever the category.
   */
  function ListForView(items: seq<Value>, c: Category): (r: Option<seq<Value>>)
    ensures r.Some? <==> Readable(items)
    ensures r.Some? ==> forall i :: 0 <= i < |r.value| ==> Belongs(c)(r.value[i]) && r.value[i] in items
    ensures r.Some? ==> forall i :: 0 <= i < |items| && Belongs(c)(items[i]) ==> items[i] in r.value
  {
    if Readable(items) then Some(Seqs.Filter(items, Belongs(c))) else None
  }

  /** Each list keeps the server's order. */
  lemma ListInOrder(items: seq<Value>, c: Category)
    requires Readable(items)
    ensures Seqs.IsSubsequence(ListForView(items, c).value, items)
  {
    Seqs.FilterIsSubsequence(items, Belongs(c));
  }

  /** The memberships view lists exactly the wash books whose name has "wash", whitespace, "book". */
  lemma MembershipsListIff(items: seq<Value>, item: Value)
    requires Readable(items) && item in items
    ensures item in ListForView(items, Memberships).value <==> WashBookOccurs(NameOf(item))
  {
    ContainsWashBookIff(NameOf(item));
  }

  // ---------------------------------------------------------------------------
  // Selection and subtotal
  // ---------------------------------------------------------------------------

  /** `String(x.washbookId)`. */
  function IdString(x: Value): string {
    ToJsString(Get(x, "washbookId"))
  }

  /** `selectedItem`: in the manual view, the first entry whose id reads like the selection; otherwise none. */
  function SelectedItem(c: Category, list: seq<Value>, selectedId: Value): (r: Option<Value>)
    ensures c != Manual ==> r.None?
    ensures r.Some? ==> r.value in list && IdString(r.value) == ToJsString(selectedId)
    ensures r.Some? ==>
      exists k :: 0 <= k < |list| && list[k] == r.value &&
        forall j :: 0 <= j < k ==> IdString(list[j]) != ToJsString(selectedId)
    ensures c == Manual && r.None? ==> forall i :: 0 <= i < |list| ==> IdString(list[i]) != ToJsString(selectedId)
  {
    if c != Manual then None
    else
      var key := ToJsString(selectedId);
      var k := Seqs.FindFirst(list, x => IdString(x) == key);
      if k.Some? then Some(list[k.value]) else None
  }

  /** The effect that picks the first manual wash while nothing (or a falsy id) is selected. */
  function AutoSelect(c: Category, list: seq<Value>, selectedId: Value): (r: Value)
    ensures c != Manual || |list| == 0 || Truthy(selectedId) ==> r == selectedId
  {
    if c == Manual && |list| > 0 && !Truthy(selectedId) then Get(list[0], "washbookId") else selectedId
  }

  /** The effect selects the first manual wash, and running it again changes nothing. */
  lemma AutoSelectPicksFirst(list: seq<Value>, selectedId: Value)
    requires |list| > 0 && !Truthy(selectedId)
    ensures SelectedItem(Manual, list, AutoSelect(Manual, list, selectedId)) == Some(list[0])
    ensures AutoSelect(Manual, list, AutoSelect(Manual, list, selectedId)) == AutoSelect(Manual, list, selectedId)
  {
    var key := ToJsString(Get(list[0], "washbookId"));
    Seqs.FindFirstHead(list, x => IdString(x) == key);
  }

  /** `Number(selectedItem.washbookPrice || 0)` for a manual selection, 0 otherwise. */
  function Subtotal(c: Category, selected: Option<Value>): (r: Value)
    ensures IsNumber(r)
    ensures c != Manual || selected.None? ==> r == Num(0)
  {
    if c == Manual && selected.Some? && Truthy(selected.value) then
      var price := Get(selected.value, "washbookPrice");
      ToNumber(if Truthy(price) then price else Num(0))
    else Num(0)
  }

  /** Outside the manual view nothing is selected and the preview subtotal is 0, whatever the selection holds. */
  lemma OnlyManualHasSubtotal(c: Category, list: seq<Value>, selectedId: Value)
    requires c != Manual
    ensures SelectedItem(c, list, selectedId).None?
    ensures Subtotal(c, SelectedItem(c, list, selectedId)) == Num(0)
  {
  }

  /** A manual selection with an integer price shows that price. */
  lemma ManualSubtotalIsPrice(list: seq<Value>, selectedId: Value, price: int)
    requires SelectedItem(Manual, list, selectedId).Some?
    requires Get(SelectedItem(Manual, list, selectedId).value, "washbookPrice") == Num(price)
    requires Truthy(SelectedItem(Manual, list, selectedId).value)
    ensures Subtotal(Manual, SelectedItem(Manual, list, selectedId)) == Num(price)
  {
  }
}
