/**
 * The fragment of Python's `re` module that the invoice extractors use.
 *
 * Every pattern in the extractors is a concatenation of single-character
 * classes, each under a greedy quantifier (`x`, `x?`, `x*`, `x+`, `x{m,n}`);
 * literal letters are one-character classes. Such a pattern is a sequence of
 * `Atom`s. `MatchFrom` reproduces the backtracking order of Python's engine
 * for these patterns: an atom first takes the longest run of characters it
 * may, and gives them back one at a time while the rest of the pattern fails.
 * `IsParse` states declaratively when a sequence of atom end positions is a
 * parse; the matcher is proved sound and complete against it.
 */
module Regex {
  import opened Wrappers
  import opened Text

  /** One member of a bracketed class: a character, a range, `\d` or `\s`. */
  datatype ClassItem = Single(c: char) | Span(lo: char, hi: char) | AnyDigit | AnySpace

  type CharClass = seq<ClassItem>

  /** The upper bound of a quantifier. */
  datatype Limit = Unbounded | AtMost(n: nat)

  /** A character class under the quantifier `{min,max}`. */
  datatype Atom = Atom(cls: CharClass, min: nat, max: Limit)

  type Pattern = seq<Atom>

  /** A successful search: where the match starts and where each atom's span ends. */
  datatype Hit = Hit(start: nat, ends: seq<nat>)

  predicate ItemHas(it: ClassItem, c: char) {
    match it
    case Single(d) => c == d
    case Span(lo, hi) => lo <= c <= hi
    case AnyDigit => IsDigit(c)
    case AnySpace => IsSpace(c)
  }

  predicate ClassHas(cls: CharClass, c: char) {
    exists k :: 0 <= k < |cls| && ItemHas(cls[k], c)
  }

  /** Class membership; under `re.IGNORECASE` an ASCII letter also matches in its other case. */
  predicate InClass(cls: CharClass, c: char, icase: bool) {
    ClassHas(cls, c) || (icase && (ClassHas(cls, ToLower(c)) || ClassHas(cls, ToUpper(c))))
  }

  predicate Allows(lim: Limit, n: nat) {
    lim.Unbounded? || n <= lim.n
  }

  function Fewer(lim: Limit): (r: Limit)
    requires Allows(lim, 1)
    ensures forall n: nat :: Allows(r, n) <==> Allows(lim, n + 1)
  {
    match lim
    case Unbounded => Unbounded
    case AtMost(n) => AtMost(n - 1)
  }

  /** Every character of `s[i..e]` belongs to the class. */
  predicate AllIn(cls: CharClass, icase: bool, s: string, i: nat, e: nat)
    requires i <= e <= |s|
  {
    forall k :: i <= k < e ==> InClass(cls, s[k], icase)
  }

  /** The span `s[i..e]` is one that the atom may consume. */
  predicate Spans(a: Atom, s: string, icase: bool, i: nat, e: nat) {
    i <= e <= |s| && a.min <= e - i && Allows(a.max, e - i) && AllIn(a.cls, icase, s, i, e)
  }

  /**
   * `ends` is a parse of atoms `p[j..]` starting at `i`: `ends[0]` is where
   * atom `j` stops, `ends[1]` where atom `j + 1` stops, and so on.
   */
  predicate IsParse(p: Pattern, j: nat, s: string, icase: bool, i: nat, ends: seq<nat>)
    requires j <= |p|
    decreases |p| - j
  {
    if j == |p| then ends == []
    else |ends| > 0 && Spans(p[j], s, icase, i, ends[0])
         && IsParse(p, j + 1, s, icase, ends[0], ends[1..])
  }

  /**
   * The longest run of class members starting at `i` that the limit allows:
   * the count a greedy quantifier tries first.
   */
  function RunLength(cls: CharClass, icase: bool, s: string, i: nat, lim: Limit): (n: nat)
    requires i <= |s|
    ensures i + n <= |s| && Allows(lim, n) && AllIn(cls, icase, s, i, i + n)
    ensures i + n < |s| && Allows(lim, n + 1) ==> !InClass(cls, s[i + n], icase)
    decreases |s| - i
  {
    if i == |s| || !Allows(lim, 1) || !InClass(cls, s[i], icase) then 0
    else 1 + RunLength(cls, icase, s, i + 1, Fewer(lim))
  }

  /** Matches atoms `p[j..]` at position `i`, in the order Python's engine tries them. */
  function MatchFrom(p: Pattern, j: nat, s: string, icase: bool, i: nat): (r: Option<seq<nat>>)
    requires j <= |p| && i <= |s|
    ensures r.Some? ==> IsParse(p, j, s, icase, i, r.value)
    decreases |p| - j, 1, 0
  {
    if j == |p| then Some([])
    else TryCounts(p, j, s, icase, i, RunLength(p[j].cls, icase, s, i, p[j].max))
  }

  /** Atom `j` takes `k` characters, then `k - 1`, ..., down to its minimum. */
  function TryCounts(p: Pattern, j: nat, s: string, icase: bool, i: nat, k: nat): (r: Option<seq<nat>>)
    requires j < |p| && i + k <= |s|
    requires Allows(p[j].max, k) && AllIn(p[j].cls, icase, s, i, i + k)
    ensures r.Some? ==> IsParse(p, j, s, icase, i, r.value)
    decreases |p| - j, 0, k
  {
    if k < p[j].min then None
    else
      match MatchFrom(p, j + 1, s, icase, i + k)
      case Some(rest) =>
        assert ([i + k] + rest)[1..] == rest;
        Some([i + k] + rest)
      case None =>
        if k == 0 then None
        else
          assert Allows(p[j].max, k - 1);
          TryCounts(p, j, s, icase, i, k - 1)
  }

  /** Completeness of the matcher: whenever some parse exists, the matcher finds one. */
  lemma {:induction false} MatchComplete(p: Pattern, j: nat, s: string, icase: bool, i: nat, ends: seq<nat>)
    requires j <= |p| && i <= |s| && IsParse(p, j, s, icase, i, ends)
    ensures MatchFrom(p, j, s, icase, i).Some?
    decreases |p| - j
  {
    if j < |p| {
      var k0 := ends[0] - i;
      MatchComplete(p, j + 1, s, icase, ends[0], ends[1..]);
      var n := RunLength(p[j].cls, icase, s, i, p[j].max);
      RunLengthCovers(p[j].cls, icase, s, i, p[j].max, k0);
      TryComplete(p, j, s, icase, i, n, k0);
    }
  }

  /** A run of `k` class members that the limit allows is never longer than the greedy run. */
  lemma {:induction false} RunLengthCovers(cls: CharClass, icase: bool, s: string, i: nat, lim: Limit, k: nat)
    requires i + k <= |s| && Allows(lim, k) && AllIn(cls, icase, s, i, i + k)
    ensures k <= RunLength(cls, icase, s, i, lim)
    decreases k
  {
    if k > 0 {
      assert InClass(cls, s[i], icase);
      RunLengthCovers(cls, icase, s, i + 1, Fewer(lim), k - 1);
    }
  }

  lemma {:induction false} TryComplete(p: Pattern, j: nat, s: string, icase: bool, i: nat, k: nat, k0: nat)
    requires j < |p| && i + k <= |s|
    requires Allows(p[j].max, k) && AllIn(p[j].cls, icase, s, i, i + k)
    requires p[j].min <= k0 <= k
    requires MatchFrom(p, j + 1, s, icase, i + k0).Some?
    ensures TryCounts(p, j, s, icase, i, k).Some?
    decreases k
  {
    if k > k0 && MatchFrom(p, j + 1, s, icase, i + k).None? {
      assert Allows(p[j].max, k - 1);
      TryComplete(p, j, s, icase, i, k - 1, k0);
    }
  }

  /** The position where atom `j + t` starts, for a parse of `p[j..]` from `i`. */
  function Boundary(i: nat, ends: seq<nat>, t: nat): nat
    requires t <= |ends|
  {
    if t == 0 then i else ends[t - 1]
  }

  /** Shape of a parse: one end per atom, nondecreasing, within the text. */
  lemma {:induction false} ParseShape(p: Pattern, j: nat, s: string, icase: bool, i: nat, ends: seq<nat>)
    requires j <= |p| && i <= |s| && IsParse(p, j, s, icase, i, ends)
    ensures |ends| == |p| - j
    ensures forall t, u :: 0 <= t <= u <= |ends| ==> i <= Boundary(i, ends, t) <= Boundary(i, ends, u) <= |s|
    decreases |p| - j
  {
    if j < |p| {
      ParseShape(p, j + 1, s, icase, ends[0], ends[1..]);
      forall t, u | 0 <= t <= u <= |ends|
        ensures i <= Boundary(i, ends, t) <= Boundary(i, ends, u) <= |s|
      {
        if t > 0 {
          assert Boundary(i, ends, t) == Boundary(ends[0], ends[1..], t - 1);
          assert Boundary(i, ends, u) == Boundary(ends[0], ends[1..], u - 1);
        } else if u > 0 {
          assert Boundary(i, ends, u) == Boundary(ends[0], ends[1..], u - 1);
          assert Boundary(ends[0], ends[1..], 0) == ends[0];
        }
      }
    }
  }

  /** In a parse of `p[j..]`, atom `m` consumes exactly the span between its two boundaries. */
  lemma {:induction false} ParseAtom(p: Pattern, j: nat, s: string, icase: bool, i: nat, ends: seq<nat>, m: nat)
    requires j <= m < |p| && i <= |s| && IsParse(p, j, s, icase, i, ends)
    ensures |ends| == |p| - j
    ensures Spans(p[m], s, icase, Boundary(i, ends, m - j), Boundary(i, ends, m - j + 1))
    decreases |p| - j
  {
    ParseShape(p, j, s, icase, i, ends);
    if m > j {
      ParseAtom(p, j + 1, s, icase, ends[0], ends[1..], m);
      assert Boundary(i, ends, m - j) == Boundary(ends[0], ends[1..], m - j - 1);
      assert Boundary(i, ends, m - j + 1) == Boundary(ends[0], ends[1..], m - j);
    }
  }

  /** Splitting a pattern: a parse of `p` is a parse of its prefix followed by a parse of its suffix. */
  lemma {:induction false} ParseConcat(p: Pattern, q: Pattern, j: nat, s: string, icase: bool, i: nat, e1: seq<nat>, e2: seq<nat>)
    requires j <= |p| && IsParse(p, j, s, icase, i, e1)
    requires IsParse(q, 0, s, icase, Boundary(i, e1, |e1|), e2)
    ensures |e1| == |p| - j
    ensures IsParse(p + q, j, s, icase, i, e1 + e2)
    decreases |p| - j
  {
    if j < |p| {
      ParseConcat(p, q, j + 1, s, icase, e1[0], e1[1..], e2);
      assert (e1 + e2)[1..] == e1[1..] + e2;
      assert Boundary(e1[0], e1[1..], |e1[1..]|) == Boundary(i, e1, |e1|);
    } else {
      assert e1 + e2 == e2;
      ParseShift(p, q, 0, s, icase, i, e2);
    }
  }

  /** A parse of `q[t..]` is a parse of `(p + q)[|p| + t..]`. */
  lemma {:induction false} ParseShift(p: Pattern, q: Pattern, t: nat, s: string, icase: bool, i: nat, e: seq<nat>)
    requires t <= |q| && IsParse(q, t, s, icase, i, e)
    ensures IsParse(p + q, |p| + t, s, icase, i, e)
    decreases |q| - t
  {
    if t < |q| {
      assert (p + q)[|p| + t] == q[t];
      ParseShift(p, q, t + 1, s, icase, e[0], e[1..]);
    }
  }

  /** The rest of a parse, from atom `m` on, is a parse of the pattern from `m`. */
  lemma {:induction false} ParseSuffix(p: Pattern, j: nat, s: string, icase: bool, i: nat, ends: seq<nat>, m: nat)
    requires j <= m <= |p| && i <= |s| && IsParse(p, j, s, icase, i, ends)
    ensures |ends| == |p| - j
    ensures IsParse(p, m, s, icase, Boundary(i, ends, m - j), ends[m - j..])
    decreases m - j
  {
    ParseShape(p, j, s, icase, i, ends);
    if m > j {
      ParseSuffix(p, j + 1, s, icase, ends[0], ends[1..], m);
      assert ends[1..][m - j - 1..] == ends[m - j..];
      assert Boundary(ends[0], ends[1..], m - j - 1) == Boundary(i, ends, m - j);
    }
  }

  /** The first `|p| - j` ends of a parse of `(p + q)[j..]` are a parse of `p[j..]`. */
  lemma {:induction false} ParsePrefix(p: Pattern, q: Pattern, j: nat, s: string, icase: bool, i: nat, ends: seq<nat>)
    requires j <= |p| && i <= |s| && IsParse(p + q, j, s, icase, i, ends)
    ensures |ends| == |p| + |q| - j
    ensures IsParse(p, j, s, icase, i, ends[..|p| - j])
    decreases |p| - j
  {
    ParseShape(p + q, j, s, icase, i, ends);
    if j < |p| {
      assert (p + q)[j] == p[j];
      ParsePrefix(p, q, j + 1, s, icase, ends[0], ends[1..]);
      assert ends[..|p| - j][1..] == ends[1..][..|p| - j - 1];
    }
  }

  /** Parsing `p` from atom `d + t` is parsing the pattern `p[d..]` from atom `t`. */
  lemma {:induction false} ParseDrop(p: Pattern, d: nat, t: nat, s: string, icase: bool, i: nat, ends: seq<nat>)
    requires d + t <= |p| && IsParse(p, d + t, s, icase, i, ends)
    ensures IsParse(p[d..], t, s, icase, i, ends)
    decreases |p| - d - t
  {
    if d + t < |p| {
      assert p[d..][t] == p[d + t];
      ParseDrop(p, d, t + 1, s, icase, ends[0], ends[1..]);
    }
  }

  /** The least number of characters a parse of `p[j..]` consumes. */
  function MinLength(p: Pattern, j: nat): nat
    requires j <= |p|
    decreases |p| - j
  {
    if j == |p| then 0 else p[j].min + MinLength(p, j + 1)
  }

  lemma {:induction false} ParseLength(p: Pattern, j: nat, s: string, icase: bool, i: nat, ends: seq<nat>)
    requires j < |p| && IsParse(p, j, s, icase, i, ends)
    ensures |ends| == |p| - j && ends[|ends| - 1] >= i + MinLength(p, j)
    decreases |p| - j
  {
    if j + 1 < |p| {
      ParseLength(p, j + 1, s, icase, ends[0], ends[1..]);
    } else {
      assert ends[1..] == [];
    }
  }

  /** Python's `re.search` from position `i`: the leftmost start at which the pattern matches. */
  function SearchFrom(p: Pattern, s: string, icase: bool, i: nat): (r: Option<Hit>)
    requires i <= |s|
    ensures r.Some? ==> i <= r.value.start <= |s| && IsParse(p, 0, s, icase, r.value.start, r.value.ends)
    decreases |s| - i
  {
    match MatchFrom(p, 0, s, icase, i)
    case Some(ends) => Some(Hit(i, ends))
    case None => if i == |s| then None else SearchFrom(p, s, icase, i + 1)
  }

  function Search(p: Pattern, s: string, icase: bool): (r: Option<Hit>)
    ensures r.Some? ==> r.value.start <= |s| && IsParse(p, 0, s, icase, r.value.start, r.value.ends)
  {
    SearchFrom(p, s, icase, 0)
  }

  /**
   * The search is leftmost and misses nothing: if the pattern parses at `k`,
   * the search succeeds and starts no later than `k`.
   */
  lemma {:induction false} SearchFindsLeftmost(p: Pattern, s: string, icase: bool, i: nat, k: nat, ends: seq<nat>)
    requires i <= k <= |s| && IsParse(p, 0, s, icase, k, ends)
    ensures SearchFrom(p, s, icase, i).Some? && SearchFrom(p, s, icase, i).value.start <= k
    decreases k - i
  {
    if i == k {
      MatchComplete(p, 0, s, icase, k, ends);
    } else if MatchFrom(p, 0, s, icase, i).None? {
      SearchFindsLeftmost(p, s, icase, i + 1, k, ends);
    }
  }

  /** The search finds nothing exactly when the pattern parses nowhere. */
  lemma SearchNone(p: Pattern, s: string, icase: bool, k: nat, ends: seq<nat>)
    requires Search(p, s, icase).None? && k <= |s|
    ensures !IsParse(p, 0, s, icase, k, ends)
  {
    if IsParse(p, 0, s, icase, k, ends) {
      SearchFindsLeftmost(p, s, icase, 0, k, ends);
    }
  }

  /** Where a parse of the whole pattern from `i` stops. */
  function EndOf(p: Pattern, i: nat, ends: seq<nat>): nat
    requires |ends| == |p|
  {
    Boundary(i, ends, |p|)
  }

  /**
   * Python's `re.finditer` for a pattern that cannot match the empty string:
   * successive leftmost matches, each search resuming where the previous
   * match ended.
   */
  function FindAllFrom(p: Pattern, s: string, icase: bool, i: nat): (r: seq<Hit>)
    requires i <= |s| && |p| > 0 && MinLength(p, 0) > 0
    ensures forall h :: h in r ==> i <= h.start <= |s| && IsParse(p, 0, s, icase, h.start, h.ends)
    ensures forall t :: 0 <= t < |r| - 1 ==>
      |r[t].ends| == |p| && EndOf(p, r[t].start, r[t].ends) <= r[t + 1].start
    decreases |s| - i
  {
    match SearchFrom(p, s, icase, i)
    case None => []
    case Some(h) =>
      ParseLength(p, 0, s, icase, h.start, h.ends);
      ParseShape(p, 0, s, icase, h.start, h.ends);
      var e := EndOf(p, h.start, h.ends);
      var rest := FindAllFrom(p, s, icase, e);
      assert forall t :: 0 < t < |[h] + rest| ==> ([h] + rest)[t] == rest[t - 1];
      assert |rest| > 0 ==> rest[0] in rest;
      [h] + rest
  }

  /** The pattern parses at no start `k` with `lo <= k < hi`. */
  ghost predicate NoParseIn(p: Pattern, s: string, icase: bool, lo: nat, hi: nat) {
    forall k: nat, ends :: lo <= k < hi && k <= |s| ==> !IsParse(p, 0, s, icase, k, ends)
  }

  /** A search from `i` skips no parse: none starts before its hit, or anywhere from `i` on when it fails. */
  lemma SearchFromSkips(p: Pattern, s: string, icase: bool, i: nat)
    requires i <= |s|
    ensures SearchFrom(p, s, icase, i).None? ==> NoParseIn(p, s, icase, i, |s| + 1)
    ensures SearchFrom(p, s, icase, i).Some? ==> NoParseIn(p, s, icase, i, SearchFrom(p, s, icase, i).value.start)
  {
    forall k: nat, ends | i <= k <= |s| && IsParse(p, 0, s, icase, k, ends)
      ensures SearchFrom(p, s, icase, i).Some? && SearchFrom(p, s, icase, i).value.start <= k
    {
      SearchFindsLeftmost(p, s, icase, i, k, ends);
    }
  }

  /**
   * No parse starts in a gap of the hit list `r` read from `lo`: before its
   * first hit, between the end of one hit and the start of the next, or
   * after its last hit.
   */
  ghost predicate MissesNone(p: Pattern, s: string, icase: bool, r: seq<Hit>, lo: nat)
    decreases |r|
  {
    if r == [] then NoParseIn(p, s, icase, lo, |s| + 1)
    else
      && |r[0].ends| == |p|
      && NoParseIn(p, s, icase, lo, r[0].start)
      && MissesNone(p, s, icase, r[1..], EndOf(p, r[0].start, r[0].ends))
  }

  /** `finditer` misses no match: the successive searches leave no parse in any gap. */
  lemma {:induction false} FindAllFromMissesNone(p: Pattern, s: string, icase: bool, i: nat)
    requires i <= |s| && |p| > 0 && MinLength(p, 0) > 0
    ensures MissesNone(p, s, icase, FindAllFrom(p, s, icase, i), i)
    decreases |s| - i
  {
    SearchFromSkips(p, s, icase, i);
    match SearchFrom(p, s, icase, i)
    case None =>
    case Some(h) =>
      ParseLength(p, 0, s, icase, h.start, h.ends);
      ParseShape(p, 0, s, icase, h.start, h.ends);
      var e := EndOf(p, h.start, h.ends);
      var rest := FindAllFrom(p, s, icase, e);
      FindAllFromMissesNone(p, s, icase, e);
      assert FindAllFrom(p, s, icase, i) == [h] + rest;
      assert ([h] + rest)[1..] == rest;
  }

  /** The gaps of a hit list, position by position. */
  lemma {:induction false} MissesNoneGaps(p: Pattern, s: string, icase: bool, r: seq<Hit>, lo: nat)
    requires MissesNone(p, s, icase, r, lo)
    ensures forall t :: 0 <= t < |r| ==> |r[t].ends| == |p|
    ensures r == [] ==> NoParseIn(p, s, icase, lo, |s| + 1)
    ensures r != [] ==> NoParseIn(p, s, icase, lo, r[0].start)
    ensures forall t :: 0 <= t < |r| - 1 ==>
      NoParseIn(p, s, icase, EndOf(p, r[t].start, r[t].ends), r[t + 1].start)
    ensures r != [] ==> NoParseIn(p, s, icase, EndOf(p, r[|r| - 1].start, r[|r| - 1].ends), |s| + 1)
    decreases |r|
  {
    if r != [] {
      var rest := r[1..];
      MissesNoneGaps(p, s, icase, rest, EndOf(p, r[0].start, r[0].ends));
      forall t | 0 < t < |r|
        ensures r[t] == rest[t - 1]
      {
      }
    }
  }

  /**
   * `finditer` over the whole text misses no match: no parse starts before
   * the first hit, between the end of one hit and the start of the next, or
   * after the last hit, and there is no hit only when nothing parses.
   */
  lemma FindAllComplete(p: Pattern, s: string, icase: bool)
    requires |p| > 0 && MinLength(p, 0) > 0
    ensures var r := FindAll(p, s, icase);
      r == [] ==> NoParseIn(p, s, icase, 0, |s| + 1)
    ensures var r := FindAll(p, s, icase);
      r != [] ==> NoParseIn(p, s, icase, 0, r[0].start)
    ensures var r := FindAll(p, s, icase);
      forall t :: 0 <= t < |r| - 1 ==>
        NoParseIn(p, s, icase, EndOf(p, r[t].start, r[t].ends), r[t + 1].start)
    ensures var r := FindAll(p, s, icase);
      r != [] ==>
        |r[|r| - 1].ends| == |p| &&
        NoParseIn(p, s, icase, EndOf(p, r[|r| - 1].start, r[|r| - 1].ends), |s| + 1)
  {
    FindAllFromMissesNone(p, s, icase, 0);
    MissesNoneGaps(p, s, icase, FindAll(p, s, icase), 0);
  }

  function FindAll(p: Pattern, s: string, icase: bool): (r: seq<Hit>)
    requires |p| > 0 && MinLength(p, 0) > 0
    ensures forall h :: h in r ==> h.start <= |s| && IsParse(p, 0, s, icase, h.start, h.ends)
    ensures forall t :: 0 <= t < |r| - 1 ==>
      |r[t].ends| == |p| && EndOf(p, r[t].start, r[t].ends) <= r[t + 1].start
  {
    FindAllFrom(p, s, icase, 0)
  }

  /** The text consumed by atoms `lo` up to (not including) `hi` in a hit: a capture group. */
  function Group(p: Pattern, s: string, icase: bool, h: Hit, lo: nat, hi: nat): string
    requires lo <= hi <= |p| && h.start <= |s| && IsParse(p, 0, s, icase, h.start, h.ends)
  {
    ParseShape(p, 0, s, icase, h.start, h.ends);
    s[Boundary(h.start, h.ends, lo)..Boundary(h.start, h.ends, hi)]
  }

  /** A capture group is a piece of the searched text. */
  lemma GroupOccurs(p: Pattern, s: string, icase: bool, h: Hit, lo: nat, hi: nat)
    requires lo <= hi <= |p| && h.start <= |s| && IsParse(p, 0, s, icase, h.start, h.ends)
    ensures |h.ends| == |p| && OccursAt(s, Group(p, s, icase, h, lo, hi), Boundary(h.start, h.ends, lo))
  {
    ParseShape(p, 0, s, icase, h.start, h.ends);
  }
}
