/** Byte strings: the byte type, UTF-8 well-formedness and `bytes.split()`. */
module Bytes {
  newtype byte = x: int | 0 <= x < 256

  type bytes = seq<byte>

  predicate InRange(b: byte, lo: byte, hi: byte) {
    lo <= b <= hi
  }

  /**
   * The length of the well-formed UTF-8 sequence `s` starts with, or 0 when
   * it starts with none (the table of well-formed byte sequences in
   * section 3.9 of the Unicode Standard).
   */
  function Utf8Prefix(s: bytes): (n: nat)
    ensures n <= |s| && n <= 4
    ensures s != [] && s[0] < 0x80 ==> n == 1
  {
    if s == [] then 0
    else if s[0] < 0x80 then 1
    else if |s| >= 2 && InRange(s[0], 0xC2, 0xDF) && InRange(s[1], 0x80, 0xBF) then 2
    else if |s| >= 3 && (
         (s[0] == 0xE0 && InRange(s[1], 0xA0, 0xBF))
      || ((InRange(s[0], 0xE1, 0xEC) || InRange(s[0], 0xEE, 0xEF)) && InRange(s[1], 0x80, 0xBF))
      || (s[0] == 0xED && InRange(s[1], 0x80, 0x9F)))
      && InRange(s[2], 0x80, 0xBF) then 3
    else if |s| >= 4 && (
         (s[0] == 0xF0 && InRange(s[1], 0x90, 0xBF))
      || (InRange(s[0], 0xF1, 0xF3) && InRange(s[1], 0x80, 0xBF))
      || (s[0] == 0xF4 && InRange(s[1], 0x80, 0x8F)))
      && InRange(s[2], 0x80, 0xBF) && InRange(s[3], 0x80, 0xBF) then 4
    else 0
  }

  /** `s.decode()` (strict UTF-8) succeeds. */
  predicate IsUtf8(s: bytes)
    decreases |s|
  {
    s == [] || (Utf8Prefix(s) > 0 && IsUtf8(s[Utf8Prefix(s)..]))
  }

  /** ASCII is well-formed UTF-8. */
  lemma {:induction false} AsciiIsUtf8(s: bytes)
    requires forall k :: 0 <= k < |s| ==> s[k] < 0x80
    ensures IsUtf8(s)
  {
    if s != [] {
      AsciiIsUtf8(s[1..]);
    }
  }

  /** The whitespace `bytes.split()` splits on: space, tab, line feed, carriage return, vertical tab, form feed. */
  predicate IsAsciiSpace(b: byte) {
    b == 0x20 || (0x09 <= b <= 0x0D)
  }

  /** The length of the run of non-whitespace bytes `s` starts with. */
  function WordLength(s: bytes): (n: nat)
    ensures n <= |s|
    ensures forall k :: 0 <= k < n ==> !IsAsciiSpace(s[k])
    ensures n < |s| ==> IsAsciiSpace(s[n])
  {
    if s == [] || IsAsciiSpace(s[0]) then 0 else 1 + WordLength(s[1..])
  }

  /** `s.split()`: the maximal runs of non-whitespace bytes, in order (`SplitEmpty`, `SplitWord` and `SplitAtSpace` fix it on every input). */
  function Split(s: bytes): (r: seq<bytes>)
    ensures forall w :: w in r ==> |w| > 0 && forall k :: 0 <= k < |w| ==> !IsAsciiSpace(w[k])
    decreases |s|
  {
    if s == [] then []
    else if IsAsciiSpace(s[0]) then Split(s[1..])
    else
      var n := WordLength(s);
      [s[..n]] + Split(s[n..])
  }

  /** A prefix of `n` non-whitespace bytes followed by whitespace or the end is the word `s` starts with. */
  lemma WordLengthIs(s: bytes, n: nat)
    requires n <= |s| && forall k :: 0 <= k < n ==> !IsAsciiSpace(s[k])
    requires n < |s| ==> IsAsciiSpace(s[n])
    ensures WordLength(s) == n
  {
  }

  /** Nothing splits into no words. */
  lemma SplitEmpty()
    ensures Split([]) == []
  {
  }

  /** A non-empty run without whitespace is one word. */
  lemma SplitWord(w: bytes)
    requires |w| > 0 && forall k :: 0 <= k < |w| ==> !IsAsciiSpace(w[k])
    ensures Split(w) == [w]
  {
    WordLengthIs(w, |w|);
    assert w[..|w|] == w && w[|w|..] == [];
  }

  /** A word followed by text that starts with whitespace, or by nothing, splits off as the first word. */
  lemma SplitWordThen(w: bytes, t: bytes)
    requires |w| > 0 && forall k :: 0 <= k < |w| ==> !IsAsciiSpace(w[k])
    requires t != [] ==> IsAsciiSpace(t[0])
    ensures Split(w + t) == [w] + Split(t)
  {
    var s := w + t;
    WordLengthIs(s, |w|);
    assert s[..|w|] == w && s[|w|..] == t;
  }

  /** `t + [b] + c` starts with whitespace when `t` does, or when `t` is empty and `b` is whitespace. */
  lemma SpaceLed(t: bytes, b: byte, c: bytes)
    requires IsAsciiSpace(b) && (t != [] ==> IsAsciiSpace(t[0]))
    ensures IsAsciiSpace((t + [b] + c)[0])
  {
  }

  lemma WordsAssoc(x: seq<bytes>, y: seq<bytes>, z: seq<bytes>)
    ensures x + (y + z) == (x + y) + z
  {
  }

  lemma ConcatAssoc(w: bytes, t: bytes, b: byte, c: bytes)
    ensures w + t + [b] + c == w + (t + [b] + c)
  {
  }

  /** The step of `SplitAtSpace` past a leading word `w`. */
  lemma SplitAtSpaceAfterWord(w: bytes, t: bytes, b: byte, c: bytes)
    requires |w| > 0 && forall k :: 0 <= k < |w| ==> !IsAsciiSpace(w[k])
    requires t != [] ==> IsAsciiSpace(t[0])
    requires IsAsciiSpace(b) && Split(t + [b] + c) == Split(t) + Split(c)
    ensures Split(w + t + [b] + c) == Split(w + t) + Split(c)
  {
    SpaceLed(t, b, c);
    ConcatAssoc(w, t, b, c);
    SplitWordThen(w, t + [b] + c);
    SplitWordThen(w, t);
    WordsAssoc([w], Split(t), Split(c));
  }

  /** A whitespace byte separates words: what is before it and what is after it split independently. */
  lemma {:induction false} SplitAtSpace(a: bytes, b: byte, c: bytes)
    requires IsAsciiSpace(b)
    ensures Split(a + [b] + c) == Split(a) + Split(c)
    decreases |a|
  {
    if a == [] {
      assert (a + [b] + c)[1..] == c;
    } else if IsAsciiSpace(a[0]) {
      assert (a + [b] + c)[1..] == a[1..] + [b] + c;
      SplitAtSpace(a[1..], b, c);
    } else {
      var n := WordLength(a);
      var w, t := a[..n], a[n..];
      assert a == w + t;
      SplitAtSpace(t, b, c);
      SplitAtSpaceAfterWord(w, t, b, c);
    }
  }

  function Concat(ws: seq<bytes>): bytes {
    if ws == [] then [] else ws[0] + Concat(ws[1..])
  }

  /** `s` without its whitespace. */
  function DropSpaces(s: bytes): (r: bytes)
    ensures |r| <= |s|
  {
    if s == [] then []
    else if IsAsciiSpace(s[0]) then DropSpaces(s[1..])
    else [s[0]] + DropSpaces(s[1..])
  }

  lemma {:induction false} DropSpacesNone(s: bytes)
    requires forall k :: 0 <= k < |s| ==> !IsAsciiSpace(s[k])
    ensures DropSpaces(s) == s
  {
    if s != [] {
      DropSpacesNone(s[1..]);
    }
  }

  lemma {:induction false} DropSpacesAppend(s: bytes, t: bytes)
    ensures DropSpaces(s + t) == DropSpaces(s) + DropSpaces(t)
  {
    if s == [] {
      assert s + t == t;
    } else {
      assert (s + t)[1..] == s[1..] + t;
      DropSpacesAppend(s[1..], t);
    }
  }

  /** Splitting loses only the whitespace: the words, put back together, are the input without its whitespace. */
  lemma {:induction false} SplitKeepsEverythingElse(s: bytes)
    ensures Concat(Split(s)) == DropSpaces(s)
    decreases |s|
  {
    if s != [] {
      if IsAsciiSpace(s[0]) {
        SplitKeepsEverythingElse(s[1..]);
      } else {
        var n := WordLength(s);
        SplitKeepsEverythingElse(s[n..]);
        assert s == s[..n] + s[n..];
        DropSpacesAppend(s[..n], s[n..]);
        DropSpacesNone(s[..n]);
        assert ([s[..n]] + Split(s[n..]))[1..] == Split(s[n..]);
      }
    }
  }
}
