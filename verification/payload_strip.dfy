/**
 * `deepStripUndefined`, which both invoice-payload builders apply before a
 * payload is sent (src/context/CheckoutContext.jsx and src/App.jsx).
 * Besides `undefined` members it also removes every member that strips to an
 * empty array or empty object, so emptiness cascades upwards.
 */
module PayloadStrip {
  import opened Wrappers
  import opened JsValue
  import Records

  /** The two copies differ only in how the "empty object" test excludes null. */
  datatype Variant = ContextVariant | AppVariant

  /** The checkout provider drops undefined, and objects or arrays that are truthy and have no keys. */
  predicate DroppedByContext(v: Value) {
    v.Undefined? || (IsObjectType(v) && Truthy(v) && (v.Arr? || v.Obj?) && KeyCount(v) == 0)
  }

  /** The older screen drops undefined, and non-null objects or arrays that have no keys. */
  predicate DroppedByApp(v: Value) {
    v.Undefined? || (IsObjectType(v) && !v.Null? && KeyCount(v) == 0)
  }

  /** The test each copy applies to a stripped member. */
  predicate Dropped(variant: Variant, v: Value) {
    match variant
    case ContextVariant => DroppedByContext(v)
    case AppVariant => DroppedByApp(v)
  }

  /** Undefined, `[]` or `{}`. */
  predicate Empty(v: Value) {
    v.Undefined? || (v.Arr? && |v.items| == 0) || (v.Obj? && |v.fields| == 0)
  }

  /**
   * Both copies drop exactly the undefined, `[]` and `{}` members, so one
   * `Strip`, written with `Empty`, is each copy: `v !== null` and `v &&`
   * coincide on objects.
   */
  lemma DroppedMeansEmpty(variant: Variant, v: Value)
    ensures Dropped(variant, v) <==> Empty(v)
  {
  }

  /** No member anywhere below the root is undefined, `[]` or `{}`. */
  predicate Clean(v: Value) {
    match v
    case Arr(items) => forall i :: 0 <= i < |items| ==> !Empty(items[i]) && Clean(items[i])
    case Obj(fields) => forall i :: 0 <= i < |fields| ==> !Empty(fields[i].1) && Clean(fields[i].1)
    case _ => true
  }

  /** `deepStripUndefined(v)`. */
  function Strip(v: Value): (r: Value)
    ensures r.Undefined? <==> v.Undefined?
    ensures r.Arr? <==> v.Arr?
    ensures r.Obj? <==> v.Obj?
    ensures !v.Arr? && !v.Obj? ==> r == v
    decreases v, 1
  {
    match v
    case Arr(items) => Arr(StripItems(items))
    case Obj(fields) => Obj(StripFields(fields))
    case _ => v
  }

  /** `items.map(deepStripUndefined).filter(v => !dropped(v))`, order preserved. */
  function StripItems(items: seq<Value>): (r: seq<Value>)
    ensures |r| <= |items|
    decreases items, 0
  {
    if |items| == 0 then []
    else
      var h := Strip(items[0]);
      (if Empty(h) then [] else [h]) + StripItems(items[1..])
  }

  /** The `for (const [k, v] of Object.entries(obj))` loop: keep `k` with its stripped value unless dropped. */
  function StripFields(fields: seq<(string, Value)>): (r: seq<(string, Value)>)
    ensures |r| <= |fields|
    decreases fields, 0
  {
    if |fields| == 0 then []
    else
      var (k, v) := fields[0];
      assert v < fields[0];
      var h := Strip(v);
      (if Empty(h) then [] else [(k, h)]) + StripFields(fields[1..])
  }

  /** No undefined, `[]` or `{}` member remains anywhere in the result. */
  lemma {:induction false} StripIsClean(v: Value)
    ensures Clean(Strip(v))
    decreases v, 1
  {
    match v
    case Arr(items) => StripItemsAreClean(items);
    case Obj(fields) => StripFieldsAreClean(fields);
    case _ =>
  }

  lemma {:induction false} StripItemsAreClean(items: seq<Value>)
    ensures forall i :: 0 <= i < |StripItems(items)| ==>
      !Empty(StripItems(items)[i]) && Clean(StripItems(items)[i])
    decreases items, 0
  {
    if |items| > 0 {
      var h := Strip(items[0]);
      var rest := StripItems(items[1..]);
      StripIsClean(items[0]);
      StripItemsAreClean(items[1..]);
      var r := StripItems(items);
      assert r == (if Empty(h) then [] else [h]) + rest;
      forall i | 0 <= i < |r| ensures !Empty(r[i]) && Clean(r[i]) {
        if i >= |r| - |rest| {
          assert r[i] == rest[i - (|r| - |rest|)];
        }
      }
    }
  }

  lemma {:induction false} StripFieldsAreClean(fields: seq<(string, Value)>)
    ensures forall i :: 0 <= i < |StripFields(fields)| ==>
      !Empty(StripFields(fields)[i].1) && Clean(StripFields(fields)[i].1)
    decreases fields, 0
  {
    if |fields| > 0 {
      var (k, v) := fields[0];
      assert v < fields[0];
      var h := Strip(v);
      var rest := StripFields(fields[1..]);
      StripIsClean(v);
      StripFieldsAreClean(fields[1..]);
      var r := StripFields(fields);
      assert r == (if Empty(h) then [] else [(k, h)]) + rest;
      forall i | 0 <= i < |r| ensures !Empty(r[i].1) && Clean(r[i].1) {
        if i >= |r| - |rest| {
          assert r[i] == rest[i - (|r| - |rest|)];
        }
      }
    }
  }

  /** Stripping adds no key: every surviving key was a key of the input. */
  lemma {:induction false} StripFieldsKeysFrom(fields: seq<(string, Value)>, k: string)
    requires Records.HasKey(StripFields(fields), k)
    ensures Records.HasKey(fields, k)
    decreases |fields|
  {
    var r := StripFields(fields);
    var rest := StripFields(fields[1..]);
    var i :| 0 <= i < |r| && r[i].0 == k;
    if i >= |r| - |rest| {
      assert rest[i - (|r| - |rest|)].0 == k;
      StripFieldsKeysFrom(fields[1..], k);
      var j :| 0 <= j < |fields[1..]| && fields[1..][j].0 == k;
      assert fields[j + 1].0 == k;
    } else {
      assert r[i].0 == fields[0].0;
    }
  }

  // ---------------------------------------------------------------------------
  // Fixed points and idempotence
  // ---------------------------------------------------------------------------

  /** A value with nothing left to strip comes back unchanged. */
  lemma {:induction false} StripKeepsClean(v: Value)
    requires Clean(v)
    ensures Strip(v) == v
    decreases v, 1
  {
    match v
    case Arr(items) => StripItemsKeepsClean(items);
    case Obj(fields) => StripFieldsKeepsClean(fields);
    case _ =>
  }

  lemma {:induction false} StripItemsKeepsClean(items: seq<Value>)
    requires forall i :: 0 <= i < |items| ==> !Empty(items[i]) && Clean(items[i])
    ensures StripItems(items) == items
    decreases items, 0
  {
    if |items| > 0 {
      StripKeepsClean(items[0]);
      StripItemsKeepsClean(items[1..]);
      assert [items[0]] + items[1..] == items;
    }
  }

  lemma {:induction false} StripFieldsKeepsClean(fields: seq<(string, Value)>)
    requires forall i :: 0 <= i < |fields| ==> !Empty(fields[i].1) && Clean(fields[i].1)
    ensures StripFields(fields) == fields
    decreases fields, 0
  {
    if |fields| > 0 {
      var (k, v) := fields[0];
      assert v < fields[0];
      StripKeepsClean(v);
      StripFieldsKeepsClean(fields[1..]);
      assert [fields[0]] + fields[1..] == fields;
    }
  }

  /** When no element strips to undefined or empty, the array keeps one stripped element per input element, in order. */
  lemma {:induction false} StripItemsKeepsAll(items: seq<Value>)
    requires forall i :: 0 <= i < |items| ==> !Empty(Strip(items[i]))
    ensures |StripItems(items)| == |items|
    ensures forall i :: 0 <= i < |items| ==> StripItems(items)[i] == Strip(items[i])
    decreases |items|
  {
    if |items| > 0 {
      StripItemsKeepsAll(items[1..]);
      var r := StripItems(items);
      assert r == [Strip(items[0])] + StripItems(items[1..]);
      forall i | 0 <= i < |items| ensures r[i] == Strip(items[i]) {
        if i > 0 {
          assert items[1..][i - 1] == items[i];
        }
      }
    }
  }

  /** Stripping leaves a value unchanged exactly when nothing below its root is undefined or empty. */
  lemma StripFixedIffClean(v: Value)
    ensures Strip(v) == v <==> Clean(v)
  {
    StripIsClean(v);
    if Clean(v) {
      StripKeepsClean(v);
    }
  }

  /** Stripping twice is stripping once. */
  lemma StripIdempotent(v: Value)
    ensures Strip(Strip(v)) == Strip(v)
  {
    StripIsClean(v);
    StripKeepsClean(Strip(v));
  }

  // ---------------------------------------------------------------------------
  // What survives in an object
  // ---------------------------------------------------------------------------

  /** What becomes of one member's value: its stripped value, unless that is dropped. */
  function Survivor(u: Option<Value>): Option<Value> {
    match u
    case None => None
    case Some(v) => if Empty(Strip(v)) then None else Some(Strip(v))
  }

  /**
   * When `k` occurs at most once (as in any well-formed object), it survives
   * exactly when it was present and its stripped value is neither undefined
   * nor empty, and then it maps to that stripped value.
   */
  lemma {:induction false} StripFieldsLookup(fields: seq<(string, Value)>, k: string)
    requires Records.AtMostOnce(fields, k)
    ensures Records.Lookup(StripFields(fields), k) == Survivor(Records.Lookup(fields, k))
    decreases |fields|
  {
    if |fields| > 0 {
      var (k0, v0) := fields[0];
      var h := Strip(v0);
      var rest := StripFields(fields[1..]);
      var r := StripFields(fields);
      assert Records.AtMostOnce(fields[1..], k) by {
        forall i, j | 0 <= i < j < |fields[1..]| && fields[1..][i].0 == k ensures fields[1..][j].0 != k {
          assert fields[1..][i] == fields[i + 1] && fields[1..][j] == fields[j + 1];
        }
      }
      StripFieldsLookup(fields[1..], k);
      if Empty(h) {
        assert r == rest;
      } else {
        assert r == [(k0, h)] + rest;
        assert r[1..] == rest;
      }
      if k0 == k {
        assert !Records.HasKey(fields[1..], k) by {
          forall j | 0 <= j < |fields[1..]| ensures fields[1..][j].0 != k {
            assert fields[1..][j] == fields[j + 1];
          }
        }
      }
    }
  }

  /** A defined scalar member whose key occurs once survives stripping as itself. */
  lemma ScalarMemberKept(fields: seq<(string, Value)>, i: nat)
    requires i < |fields| && forall j :: 0 <= j < |fields| && j != i ==> fields[j].0 != fields[i].0
    requires !fields[i].1.Undefined? && !fields[i].1.Arr? && !fields[i].1.Obj?
    ensures Records.Lookup(Strip(Obj(fields)).fields, fields[i].0) == Some(fields[i].1)
  {
    var k := fields[i].0;
    Records.LookupFirst(fields, i);
    StripFieldsLookup(fields, k);
  }

  /** One member that survives stripping keeps its object from being dropped. */
  lemma {:induction false} SurvivingMemberKeepsObject(fields: seq<(string, Value)>, i: nat)
    requires i < |fields| && !Empty(Strip(fields[i].1))
    ensures !Empty(Strip(Obj(fields)))
    decreases i
  {
    var r := StripFields(fields);
    if !Empty(Strip(fields[0].1)) {
      assert r == [(fields[0].0, Strip(fields[0].1))] + StripFields(fields[1..]);
    } else {
      assert r == StripFields(fields[1..]);
      assert fields[1..][i - 1] == fields[i];
      SurvivingMemberKeepsObject(fields[1..], i - 1);
    }
  }

  /** An array with a surviving element is sent as its stripped elements. */
  lemma ArrayKept(items: seq<Value>)
    requires |StripItems(items)| > 0
    ensures Survivor(Some(Arr(items))) == Some(Arr(StripItems(items)))
  {
  }

  /** Emptiness cascades: a member whose only content is undefined disappears, and so does its parent. */
  lemma EmptyCascade()
    ensures Strip(Obj([("outer", Obj([("inner", Arr([Undefined]))]))])) == Obj([])
  {
    var inner := Arr([Undefined]);
    assert StripItems([Undefined]) == [];
    assert Strip(inner) == Arr([]);
    assert StripFields([("inner", inner)]) == [];
    assert Strip(Obj([("inner", inner)])) == Obj([]);
  }
}
