/**
 * The slice of JavaScript's string semantics the checkout code relies on:
 * `\s` / `String.prototype.trim` whitespace, ASCII case folding (what the
 * `/i` regular expressions with ASCII literals compare), infix search,
 * `split` / `join` on one separator character and `String(n)` on integers.
 */
module JsText {
  import opened Wrappers

  /** ECMAScript WhiteSpace and LineTerminator code points: what `\s` matches and `trim` removes. */
  predicate IsJsSpace(c: char) {
    || c == '\t' || c == '\n' || c == '\U{000B}' || c == '\U{000C}' || c == '\r' || c == ' '
    || c == '\U{00A0}' || c == '\U{1680}' || ('\U{2000}' <= c <= '\U{200A}')
    || c == '\U{2028}' || c == '\U{2029}' || c == '\U{202F}' || c == '\U{205F}'
    || c == '\U{3000}' || c == '\U{FEFF}'
  }

  predicate AllSpace(s: string) {
    forall i :: 0 <= i < |s| ==> IsJsSpace(s[i])
  }

  // ---------------------------------------------------------------------------
  // trim
  // ---------------------------------------------------------------------------

  /** Index of the first non-whitespace character at or after `i`, or `|s|` if there is none. */
  function SkipSpace(s: string, i: nat): (j: nat)
    requires i <= |s|
    ensures i <= j <= |s|
    ensures forall k :: i <= k < j ==> IsJsSpace(s[k])
    ensures j == |s| || !IsJsSpace(s[j])
    decreases |s| - i
  {
    if i < |s| && IsJsSpace(s[i]) then SkipSpace(s, i + 1) else i
  }

  /** One past the last non-whitespace character of `s[lo..j]`, or `lo` if there is none. */
  function SkipSpaceBack(s: string, lo: nat, j: nat): (e: nat)
    requires lo <= j <= |s|
    ensures lo <= e <= j
    ensures forall k :: e <= k < j ==> IsJsSpace(s[k])
    ensures e == lo || !IsJsSpace(s[e - 1])
    decreases j
  {
    if lo < j && IsJsSpace(s[j - 1]) then SkipSpaceBack(s, lo, j - 1) else j
  }

  /** `s.trim()`: the slice from the first to the last non-whitespace character. */
  function Trim(s: string): string {
    var a := SkipSpace(s, 0);
    s[a..SkipSpaceBack(s, a, |s|)]
  }

  /** A trimmed string is empty exactly when the input is all whitespace (JavaScript's `!s.trim()`). */
  lemma TrimEmptyIffAllSpace(s: string)
    ensures Trim(s) == [] <==> AllSpace(s)
  {
    var a := SkipSpace(s, 0);
    var e := SkipSpaceBack(s, a, |s|);
    if e == a {
      assert forall k :: 0 <= k < |s| ==> IsJsSpace(s[k]) by {
        forall k | 0 <= k < |s| ensures IsJsSpace(s[k]) {
          assert k < a || e <= k;
        }
      }
    }
  }

  /** A trimmed string has no whitespace at either end. */
  lemma TrimHasNoOuterSpace(s: string)
    ensures Trim(s) == [] || (!IsJsSpace(Trim(s)[0]) && !IsJsSpace(Trim(s)[|Trim(s)| - 1]))
  {
    var a := SkipSpace(s, 0);
    var e := SkipSpaceBack(s, a, |s|);
    var r := Trim(s);
    if r != [] {
      assert r[0] == s[a];
      assert r[|r| - 1] == s[e - 1];
    }
  }

  /** A string with no whitespace at either end is its own trim. */
  lemma TrimOfUnpadded(s: string)
    requires s != [] && !IsJsSpace(s[0]) && !IsJsSpace(s[|s| - 1])
    ensures Trim(s) == s
  {
    assert SkipSpace(s, 0) == 0;
    assert SkipSpaceBack(s, 0, |s|) == |s|;
    assert s[0..|s|] == s;
  }

  // ---------------------------------------------------------------------------
  // ASCII case folding
  // ---------------------------------------------------------------------------

  function UpperChar(c: char): char {
    if 'a' <= c <= 'z' then (c as int - 32) as char else c
  }

  function LowerChar(c: char): char {
    if 'A' <= c <= 'Z' then (c as int + 32) as char else c
  }

  /** `s.toUpperCase()` restricted to the ASCII letters. */
  function ToUpper(s: string): (r: string)
    ensures |r| == |s|
  {
    seq(|s|, i requires 0 <= i < |s| => UpperChar(s[i]))
  }

  function ToLower(s: string): (r: string)
    ensures |r| == |s|
  {
    seq(|s|, i requires 0 <= i < |s| => LowerChar(s[i]))
  }

  /** Lower-casing maps whitespace to itself and letters to letters. */
  lemma LowerKeepsSpace(c: char)
    ensures IsJsSpace(LowerChar(c)) <==> IsJsSpace(c)
  {
  }

  /** Case folding leaves whitespace alone, so the first non-space is found at the same place. */
  lemma {:induction false} SkipSpaceIgnoresCase(s: string, i: nat)
    requires i <= |s|
    ensures SkipSpace(ToLower(s), i) == SkipSpace(s, i)
    decreases |s| - i
  {
    if i < |s| {
      assert ToLower(s)[i] == LowerChar(s[i]);
      LowerKeepsSpace(s[i]);
      SkipSpaceIgnoresCase(s, i + 1);
    }
  }

  lemma {:induction false} SkipSpaceBackIgnoresCase(s: string, lo: nat, j: nat)
    requires lo <= j <= |s|
    ensures SkipSpaceBack(ToLower(s), lo, j) == SkipSpaceBack(s, lo, j)
    decreases j
  {
    if lo < j {
      assert ToLower(s)[j - 1] == LowerChar(s[j - 1]);
      LowerKeepsSpace(s[j - 1]);
      SkipSpaceBackIgnoresCase(s, lo, j - 1);
    }
  }

  /** `s.trim().toUpperCase()` does not depend on the case the string was typed in. */
  lemma TrimUpperIgnoresCase(s: string)
    ensures ToUpper(Trim(ToLower(s))) == ToUpper(Trim(s))
  {
    var a := SkipSpace(s, 0);
    SkipSpaceIgnoresCase(s, 0);
    SkipSpaceBackIgnoresCase(s, a, |s|);
    var e := SkipSpaceBack(s, a, |s|);
    UpperOfLowerSlice(s, a, e);
  }

  lemma UpperOfLowerSlice(s: string, a: nat, e: nat)
    requires a <= e <= |s|
    ensures ToUpper(ToLower(s)[a..e]) == ToUpper(s[a..e])
  {
    var l := ToLower(s)[a..e];
    forall k | 0 <= k < e - a ensures ToUpper(l)[k] == ToUpper(s[a..e])[k] {
      assert l[k] == LowerChar(s[a + k]);
    }
  }

  /** `p` occurs in `s` at offset `i`, comparing ASCII letters without regard to case. */
  predicate MatchesAt(s: string, p: string, i: nat) {
    i + |p| <= |s| && ToLower(s[i..i + |p|]) == ToLower(p)
  }

  /** The declarative reading of a case-insensitive regular expression made of one literal. */
  ghost predicate OccursIgnoringCase(s: string, p: string) {
    exists i: nat :: MatchesAt(s, p, i)
  }

  /** Left-to-right search from offset `i`, as the regex engine does. */
  predicate SearchFrom(s: string, p: string, i: nat)
    decreases |s| - i
  {
    i + |p| <= |s| && (MatchesAt(s, p, i) || SearchFrom(s, p, i + 1))
  }

  /** `/p/i.test(s)` for an ASCII literal `p`. */
  predicate ContainsIgnoringCase(s: string, p: string) {
    SearchFrom(s, p, 0)
  }

  lemma {:induction false} SearchFromSound(s: string, p: string, i: nat)
    ensures SearchFrom(s, p, i) <==> exists j: nat :: i <= j && MatchesAt(s, p, j)
    decreases |s| - i
  {
    if i + |p| <= |s| {
      SearchFromSound(s, p, i + 1);
      if exists j: nat :: i <= j && MatchesAt(s, p, j) {
        var j: nat :| i <= j && MatchesAt(s, p, j);
        if j != i {
          assert i + 1 <= j;
        }
      }
    }
  }

  /** The search finds the literal exactly when it occurs somewhere. */
  lemma ContainsIgnoringCaseIff(s: string, p: string)
    ensures ContainsIgnoringCase(s, p) <==> OccursIgnoringCase(s, p)
  {
    SearchFromSound(s, p, 0);
  }

  // ---------------------------------------------------------------------------
  // split / join on a single separator character
  // ---------------------------------------------------------------------------

  /** `s.split(sep)` for a one-character separator: there is always at least one part. */
  function Split(s: string, sep: char): (parts: seq<string>)
    ensures |parts| >= 1
    ensures forall k :: 0 <= k < |parts| ==> sep !in parts[k]
    decreases |s|
  {
    if |s| == 0 then [""]
    else if s[0] == sep then [""] + Split(s[1..], sep)
    else
      var rest := Split(s[1..], sep);
      [[s[0]] + rest[0]] + rest[1..]
  }

  /** `parts.join(sep)`. */
  function Join(parts: seq<string>, sep: char): string
    decreases |parts|
  {
    if |parts| == 0 then ""
    else if |parts| == 1 then parts[0]
    else parts[0] + [sep] + Join(parts[1..], sep)
  }

  lemma {:induction false} SplitNoSeparator(a: string, sep: char)
    requires sep !in a
    ensures Split(a, sep) == [a]
    decreases |a|
  {
    if |a| > 0 {
      SplitNoSeparator(a[1..], sep);
      assert [a[0]] + a[1..] == a;
    }
  }

  lemma {:induction false} SplitAtSeparator(a: string, sep: char, b: string)
    requires sep !in a
    ensures Split(a + [sep] + b, sep) == [a] + Split(b, sep)
    decreases |a|
  {
    var s := a + [sep] + b;
    if |a| == 0 {
      assert s[1..] == b;
    } else {
      assert s[1..] == a[1..] + [sep] + b;
      SplitAtSeparator(a[1..], sep, b);
      assert [a[0]] + a[1..] == a;
    }
  }

  /** Splitting a join gives the parts back when no part contains the separator. */
  lemma {:induction false} SplitJoin(parts: seq<string>, sep: char)
    requires |parts| >= 1
    requires forall k :: 0 <= k < |parts| ==> sep !in parts[k]
    ensures Split(Join(parts, sep), sep) == parts
    decreases |parts|
  {
    if |parts| == 1 {
      SplitNoSeparator(parts[0], sep);
    } else {
      SplitJoin(parts[1..], sep);
      SplitAtSeparator(parts[0], sep, Join(parts[1..], sep));
      assert [parts[0]] + parts[1..] == parts;
    }
  }

  // ---------------------------------------------------------------------------
  // String(n) for integers
  // ---------------------------------------------------------------------------

  function DigitChar(d: nat): char
    requires d < 10
  {
    ('0' as int + d) as char
  }

  predicate IsDigit(c: char) {
    '0' <= c <= '9'
  }

  /** Decimal digits of a natural number, most significant first, without leading zeros. */
  function NatToString(n: nat): (r: string)
    ensures |r| >= 1
    ensures forall k :: 0 <= k < |r| ==> IsDigit(r[k])
    decreases n
  {
    if n < 10 then [DigitChar(n)] else NatToString(n / 10) + [DigitChar(n % 10)]
  }

  /** `String(n)` for an integer-valued Number. */
  function IntToString(n: int): string {
    if n < 0 then "-" + NatToString(-n) else NatToString(n)
  }

  /** Reads a string of decimal digits back as a number. */
  function ParseDigits(s: string): nat
    requires forall k :: 0 <= k < |s| ==> IsDigit(s[k])
    decreases |s|
  {
    if |s| == 0 then 0
    else
      assert IsDigit(s[|s| - 1]);
      10 * ParseDigits(s[..|s| - 1]) + (s[|s| - 1] as int - '0' as int)
  }

  /** Decimal rendering is invertible, so distinct numbers never render alike. */
  lemma {:induction false} ParseNatToString(n: nat)
    ensures ParseDigits(NatToString(n)) == n
    decreases n
  {
    if n >= 10 {
      ParseNatToString(n / 10);
      var r := NatToString(n);
      assert r[..|r| - 1] == NatToString(n / 10);
    }
  }

  // ---------------------------------------------------------------------------
  // Number(s) for strings
  // ---------------------------------------------------------------------------

  predicate AllDigits(s: string) {
    forall k :: 0 <= k < |s| ==> IsDigit(s[k])
  }

  /**
   * `Number(s)` for a string, restricted to integers: surrounding whitespace
   * is ignored, an empty or blank string is 0, an optionally signed run of
   * decimal digits is its value, anything else is NaN (`None`).
   */
  function StringToNumber(s: string): Option<int> {
    ParseInteger(Trim(s))
  }

  /** An optionally signed run of decimal digits; the empty string reads as 0. */
  function ParseInteger(t: string): Option<int> {
    if t == [] then Some(0)
    else if AllDigits(t) then Some(ParseDigits(t))
    else if |t| > 1 && t[0] == '-' && AllDigits(t[1..]) then Some(0 - ParseDigits(t[1..]) as int)
    else if |t| > 1 && t[0] == '+' && AllDigits(t[1..]) then Some(ParseDigits(t[1..]))
    else None
  }

  /** A blank string is the number 0. */
  lemma BlankStringIsZero(s: string)
    requires AllSpace(s)
    ensures StringToNumber(s) == Some(0)
  {
    TrimEmptyIffAllSpace(s);
  }

  /** `Number(String(n)) === n` for every integer. */
  lemma NumberOfIntToString(n: int)
    ensures StringToNumber(IntToString(n)) == Some(n)
  {
    IntToStringUnpadded(n);
    TrimOfUnpadded(IntToString(n));
    if n < 0 {
      ParseNegative(-n);
    } else {
      ParseNonNegative(n);
    }
  }

  /** `String(n)` starts with a digit or `-` and ends with a digit. */
  lemma IntToStringUnpadded(n: int)
    ensures var s := IntToString(n); s != [] && !IsJsSpace(s[0]) && !IsJsSpace(s[|s| - 1])
  {
    var d := if n < 0 then NatToString(-n) else NatToString(n);
    assert IsDigit(d[0]) && IsDigit(d[|d| - 1]);
  }

  lemma ParseNonNegative(m: nat)
    ensures ParseInteger(NatToString(m)) == Some(m)
  {
    ParseNatToString(m);
  }

  lemma ParseNegative(m: nat)
    ensures ParseInteger("-" + NatToString(m)) == Some(0 - m)
  {
    var s := "-" + NatToString(m);
    ParseNatToString(m);
    assert s[1..] == NatToString(m);
    assert !AllDigits(s) by { assert !IsDigit(s[0]); }
  }
}
