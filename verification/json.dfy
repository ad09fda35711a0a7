/**
 * JavaScript values as the checkout code builds and inspects them:
 * `undefined`, `null`, booleans, integer-valued numbers and NaN, strings,
 * arrays and plain objects (insertion-ordered entries), with the language's
 * truthiness, `??`, `!!`, `typeof x === "object"`, `String(v)`, `Number(v)`
 * and `+` with a number on the left.
 */
module JsValue {
  import opened Wrappers
  import Records
  import JsText

  datatype Value =
    | Undefined
    | Null
    | Bool(b: bool)
    | Num(n: int)
    | NaN
    | Str(s: string)
    | Arr(items: seq<Value>)
    | Obj(fields: seq<(string, Value)>)

  /** `!!v`: everything is truthy except undefined, null, false, 0 and "". */
  predicate Truthy(v: Value) {
    match v
    case Undefined => false
    case Null => false
    case Bool(b) => b
    case Num(n) => n != 0
    case NaN => false
    case Str(s) => s != ""
    case Arr(_) => true
    case Obj(_) => true
  }

  predicate IsNullish(v: Value) {
    v.Undefined? || v.Null?
  }

  /** `v ?? d`: only undefined and null fall back; 0, "" and false are kept. */
  function Coalesce(v: Value, d: Value): (r: Value)
    ensures IsNullish(v) ==> r == d
    ensures !IsNullish(v) ==> r == v
  {
    if IsNullish(v) then d else v
  }

  /** `typeof v === "object"` (true of null, arrays and plain objects). */
  predicate IsObjectType(v: Value) {
    v.Null? || v.Arr? || v.Obj?
  }

  /** `Object.keys(v).length` for an array or plain object. */
  function KeyCount(v: Value): nat
    requires v.Arr? || v.Obj?
  {
    if v.Arr? then |v.items| else |v.fields|
  }

  /** `v?.k`: the property of a plain object, `undefined` otherwise. */
  function Get(v: Value, k: string): Value {
    if v.Obj? then Records.Lookup(v.fields, k).GetOr(Undefined) else Undefined
  }

  /** A string that may be missing (`null`/`undefined`), as read from storage or a response. */
  predicate TruthyString(s: Option<string>) {
    s.Some? && s.value != ""
  }

  // ---------------------------------------------------------------------------
  // Conversions
  // ---------------------------------------------------------------------------

  /** A Number: an integer or NaN. */
  predicate IsNumber(v: Value) {
    v.Num? || v.NaN?
  }

  /**
   * `String(v)`. An array joins its elements' strings with "," (null and
   * undefined elements give ""); a plain object is "[object Object]".
   */
  function ToJsString(v: Value): string
    decreases v, 1
  {
    match v
    case Undefined => "undefined"
    case Null => "null"
    case Bool(b) => if b then "true" else "false"
    case Num(n) => JsText.IntToString(n)
    case NaN => "NaN"
    case Str(s) => s
    case Arr(items) => JoinItems(items)
    case Obj(_) => "[object Object]"
  }

  /** `items.join(",")`. */
  function JoinItems(items: seq<Value>): string
    decreases items, 0
  {
    if |items| == 0 then ""
    else
      var head := if IsNullish(items[0]) then "" else ToJsString(items[0]);
      if |items| == 1 then head else head + "," + JoinItems(items[1..])
  }

  /**
   * `Number(v)`: undefined is NaN, null and false are 0, true is 1, a string
   * is parsed, an array or object is first turned into its string.
   */
  function ToNumber(v: Value): (r: Value)
    ensures IsNumber(r)
    ensures IsNumber(v) ==> r == v
  {
    match v
    case Undefined => NaN
    case Null => Num(0)
    case Bool(b) => Num(if b then 1 else 0)
    case Num(_) => v
    case NaN => NaN
    case Str(s) => FromParsed(JsText.StringToNumber(s))
    case Arr(_) => FromParsed(JsText.StringToNumber(ToJsString(v)))
    case Obj(_) => NaN
  }

  function FromParsed(n: Option<int>): Value {
    if n.Some? then Num(n.value) else NaN
  }

  /** A number written out and read back is the same number. */
  lemma ToNumberOfString(n: int)
    ensures ToNumber(Str(ToJsString(Num(n)))) == Num(n)
  {
    JsText.NumberOfIntToString(n);
  }

  /** Numeric `a + b`: NaN absorbs, otherwise integer addition. */
  function NumAdd(a: Value, b: Value): (r: Value)
    requires IsNumber(a) && IsNumber(b)
    ensures r.Num? <==> a.Num? && b.Num?
    ensures r.Num? ==> r.n == a.n + b.n
  {
    if a.Num? && b.Num? then Num(a.n + b.n) else NaN
  }

  /**
   * `a + b` with a Number `a`: a string, array or object on the right makes
   * it string concatenation; anything else is converted and added.
   */
  function Plus(a: Value, b: Value): (r: Value)
    requires IsNumber(a)
    ensures (b.Str? || b.Arr? || b.Obj?) ==> r == Str(ToJsString(a) + ToJsString(b))
    ensures !(b.Str? || b.Arr? || b.Obj?) ==> IsNumber(r)
    ensures a.Num? && b.Num? ==> r == Num(a.n + b.n)
  {
    if b.Str? || b.Arr? || b.Obj? then Str(ToJsString(a) + ToJsString(b))
    else NumAdd(a, ToNumber(b))
  }
}
