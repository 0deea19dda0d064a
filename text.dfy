/**
 * The handful of Python string operations the pipeline relies on, over
 * Dafny strings (sequences of Unicode scalar values): whitespace as Python's
 * `str.isspace` sees it, `strip`, ASCII `upper`, prefix/suffix/substring
 * tests, and decimal digit strings with their integer values.
 */
module Text {

  /** Python's whitespace for `str` (the set used by `\s`, `str.isspace` and `str.strip()`). */
  predicate IsSpace(c: char) {
    var n := c as int;
    (9 <= n <= 13) || (0x1C <= n <= 0x20) || n == 0x85 || n == 0xA0 || n == 0x1680
    || (0x2000 <= n <= 0x200A) || n == 0x2028 || n == 0x2029 || n == 0x202F
    || n == 0x205F || n == 0x3000
  }

  predicate IsDigit(c: char) {
    '0' <= c <= '9'
  }

  predicate AllDigits(s: string) {
    forall k :: 0 <= k < |s| ==> IsDigit(s[k])
  }

  function ToUpper(c: char): (d: char)
    ensures 'a' <= c <= 'z' ==> 'A' <= d <= 'Z'
    ensures !('a' <= c <= 'z') ==> d == c
  {
    if 'a' <= c <= 'z' then (c as int - 32) as char else c
  }

  function ToLower(c: char): (d: char)
    ensures 'A' <= c <= 'Z' ==> 'a' <= d <= 'z'
    ensures !('A' <= c <= 'Z') ==> d == c
  {
    if 'A' <= c <= 'Z' then (c as int + 32) as char else c
  }

  /** `str.upper()` on the ASCII letters; every other character is kept. */
  function Upper(s: string): (r: string)
    ensures |r| == |s|
    ensures forall k :: 0 <= k < |s| ==> r[k] == ToUpper(s[k])
  {
    seq(|s|, k requires 0 <= k < |s| => ToUpper(s[k]))
  }

  predicate StartsWith(s: string, prefix: string) {
    |prefix| <= |s| && s[..|prefix|] == prefix
  }

  predicate EndsWith(s: string, suffix: string) {
    |suffix| <= |s| && s[|s| - |suffix|..] == suffix
  }

  /** `needle` occurs in `s` starting at index `k`. */
  predicate OccursAt(s: string, needle: string, k: int) {
    0 <= k <= |s| - |needle| && s[k..k + |needle|] == needle
  }

  /** Python's `needle in s` for strings. */
  predicate Contains(s: string, needle: string) {
    exists k | 0 <= k <= |s| - |needle| :: OccursAt(s, needle, k)
  }

  /** Python's `needle in s` for a single character. */
  predicate HasChar(s: string, c: char) {
    exists k :: 0 <= k < |s| && s[k] == c
  }

  /**
   * Python's `str.strip()`: whitespace is dropped from the front, then from
   * the back, until the text neither starts nor ends with whitespace.
   */
  function Strip(s: string): (r: string)
    ensures |r| <= |s|
    ensures r == [] || (!IsSpace(r[0]) && !IsSpace(r[|r| - 1]))
    decreases |s|
  {
    if |s| > 0 && IsSpace(s[0]) then Strip(s[1..])
    else if |s| > 0 && IsSpace(s[|s| - 1]) then Strip(s[..|s| - 1])
    else s
  }

  /** `r` sits at `a` in `s`, with only whitespace before and after it. */
  predicate SpaceAround(s: string, r: string, a: int) {
    && OccursAt(s, r, a)
    && (forall k :: 0 <= k < a ==> IsSpace(s[k]))
    && (forall k :: a + |r| <= k < |s| ==> IsSpace(s[k]))
  }

  /**
   * What `Strip` keeps is a piece of its input, and what it drops, before
   * and after that piece, is whitespace.
   */
  lemma {:induction false} StripDropsOnlySpace(s: string) returns (a: nat)
    ensures SpaceAround(s, Strip(s), a)
    decreases |s|
  {
    if |s| > 0 && IsSpace(s[0]) {
      var b := StripDropsOnlySpace(s[1..]);
      SpaceAroundTail(s, s[1..], Strip(s), b);
      a := b + 1;
    } else if |s| > 0 && IsSpace(s[|s| - 1]) {
      a := StripDropsOnlySpace(s[..|s| - 1]);
      SpaceAroundInit(s, s[..|s| - 1], Strip(s), a);
    } else {
      a := 0;
      assert s[0..|s|] == s;
    }
  }

  lemma SpaceAroundTail(s: string, t: string, r: string, b: nat)
    requires |s| > 0 && IsSpace(s[0]) && t == s[1..] && SpaceAround(t, r, b)
    ensures SpaceAround(s, r, b + 1)
  {
    assert t[b..b + |r|] == s[b + 1..b + 1 + |r|];
    forall k | 0 < k < |s| ensures s[k] == t[k - 1] { }
  }

  lemma SpaceAroundInit(s: string, t: string, r: string, a: nat)
    requires |s| > 0 && IsSpace(s[|s| - 1]) && t == s[..|s| - 1] && SpaceAround(t, r, a)
    ensures SpaceAround(s, r, a)
  {
    assert t[a..a + |r|] == s[a..a + |r|];
    forall k | 0 <= k < |t| ensures s[k] == t[k] { }
  }

  /** A string with no whitespace at all is its own strip. */
  lemma {:induction false} StripNoSpace(s: string)
    requires forall k :: 0 <= k < |s| ==> !IsSpace(s[k])
    ensures Strip(s) == s
  {
  }

  /** The text before the first line feed: Python's `s.split('\n')[0]`. */
  function FirstLine(s: string): (r: string)
    ensures |r| <= |s| && r == s[..|r|]
    ensures !HasChar(r, '\n')
    ensures |r| < |s| ==> s[|r|] == '\n'
  {
    if s == [] || s[0] == '\n' then [] else [s[0]] + FirstLine(s[1..])
  }

  function DigitValue(c: char): (v: nat)
    requires IsDigit(c)
    ensures v < 10
  {
    c as int - '0' as int
  }

  function DigitChar(v: nat): (c: char)
    requires v < 10
    ensures IsDigit(c) && DigitValue(c) == v
  {
    (v + '0' as int) as char
  }

  /** Python's `int(s)` on a string of ASCII digits (the empty string counts as 0). */
  function DigitsValue(s: string): nat
    requires AllDigits(s)
  {
    if s == [] then 0 else DigitsValue(s[..|s| - 1]) * 10 + DigitValue(s[|s| - 1])
  }

  /** Python's `str(n)` for a natural number: decimal digits, no leading zero. */
  function Decimal(n: nat): (r: string)
    ensures |r| > 0 && AllDigits(r)
    ensures r[0] == '0' ==> n == 0 && r == "0"
  {
    if n < 10 then [DigitChar(n)] else Decimal(n / 10) + [DigitChar(n % 10)]
  }

  /** Reading back what `Decimal` writes gives the number again. */
  lemma {:induction false} DecimalRoundTrip(n: nat)
    ensures DigitsValue(Decimal(n)) == n
  {
    if n >= 10 {
      DecimalRoundTrip(n / 10);
      var d := Decimal(n);
      assert d[..|d| - 1] == Decimal(n / 10);
    }
  }

  /** Every character of `s` except the occurrences of `c`, in order: Python's `s.replace(c, '')`. */
  function RemoveChar(s: string, c: char): (r: string)
    ensures |r| <= |s|
    ensures !HasChar(r, c)
    ensures !HasChar(s, c) ==> r == s
  {
    if s == [] then []
    else
      var rest := RemoveChar(s[1..], c);
      assert !HasChar(s, c) ==> !HasChar(s[1..], c) by {
        if HasChar(s[1..], c) {
          var k :| 0 <= k < |s[1..]| && s[1..][k] == c;
          assert s[k + 1] == c;
        }
      }
      if s[0] == c then rest else [s[0]] + rest
  }

  /** Removal works piece by piece: what survives of `a + b` is what survives of `a`, then of `b`, in order. */
  lemma {:induction false} RemoveCharAppend(a: string, b: string, c: char)
    ensures RemoveChar(a + b, c) == RemoveChar(a, c) + RemoveChar(b, c)
  {
    if a != [] {
      assert (a + b)[1..] == a[1..] + b;
      RemoveCharAppend(a[1..], b, c);
    } else {
      assert a + b == b;
    }
  }

  /** A single character is dropped when it is `c` and kept otherwise. */
  lemma RemoveCharSingle(x: char, c: char)
    ensures RemoveChar([x], c) == if x == c then [] else [x]
  {
  }

  /** An occurrence inside an occurrence is an occurrence. */
  lemma OccursWithin(s: string, t: string, u: string, a: int, b: int)
    requires OccursAt(s, t, a) && OccursAt(t, u, b)
    ensures OccursAt(s, u, a + b)
  {
    assert t == s[a..a + |t|];
    forall k | 0 <= k < |u| ensures s[a + b + k] == u[k] {
      assert u[k] == t[b + k];
    }
  }
}
