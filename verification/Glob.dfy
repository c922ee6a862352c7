/** The greedy glob matchers.  Both keep one bookmark, for the most recent star, and never go back
    past it; the recursive definition tries every split of every star. */
module Glob {

  /** A Unicode scalar value in the case-sensitive matcher, a byte in the billing matcher. */
  type Symbol = nat

  const STAR: Symbol := 42
  const QUESTION: Symbol := 63

  /** `*` is any sequence, `?` exactly one symbol, anything else itself; anchored at both ends. */
  ghost predicate Matches(p: seq<Symbol>, v: seq<Symbol>)
    decreases |p|
  {
    if p == [] then v == []
    else if p[0] == STAR then exists k :: 0 <= k <= |v| && Matches(p[1..], v[k..])
    else v != [] && Takes(p[0], v[0]) && Matches(p[1..], v[1..])
  }

  predicate Takes(p: Symbol, v: Symbol) { p != STAR && (p == QUESTION || p == v) }

  /** What one pattern symbol may stand for: `*` for any stretch, `?` for any one symbol. */
  ghost predicate Stands(c: Symbol, v: seq<Symbol>, a: nat, b: nat) {
    a <= b <= |v| && (c == 42 || (b == a + 1 && (c == 63 || c == v[a])))
  }

  /** Cutting points of `v` from `m` to its end, one stretch for each pattern symbol from `from` on. */
  ghost predicate Aligned(p: seq<Symbol>, v: seq<Symbol>, from: nat, m: nat, cuts: seq<nat>) {
    && from <= |p| && |cuts| == |p| - from + 1 && cuts[0] == m && cuts[|cuts| - 1] == |v|
    && forall i :: 0 <= i < |cuts| - 1 ==> Stands(p[from + i], v, cuts[i], cuts[i + 1])
  }

  /** A pattern matches exactly when the value can be cut into stretches, one for each of its symbols. */
  lemma MatchesIff(p: seq<Symbol>, v: seq<Symbol>)
    ensures Matches(p, v) <==> exists cuts :: Aligned(p, v, 0, 0, cuts)
  {
    assert p[0..] == p && v[0..] == v;
    if Matches(p, v) { var cuts := Cut(p, v, 0, 0); }
    forall cuts | Aligned(p, v, 0, 0, cuts) ensures Matches(p, v) { Uncut(p, v, 0, 0, cuts); }
  }

  lemma {:induction false} Cut(p: seq<Symbol>, v: seq<Symbol>, from: nat, m: nat) returns (cuts: seq<nat>)
    requires from <= |p| && m <= |v| && Matches(p[from..], v[m..])
    ensures Aligned(p, v, from, m, cuts)
    decreases |p| - from
  {
    if from == |p| {
      cuts := [m];
    } else {
      var k :| 0 <= k <= |v[m..]| && Matches(p[from..][1..], v[m..][k..]) && Stands(p[from], v, m, m + k);
      assert p[from..][1..] == p[from + 1..] && v[m..][k..] == v[m + k..];
      var rest := Cut(p, v, from + 1, m + k);
      cuts := [m] + rest;
      assert forall i :: 0 <= i < |rest| - 1 ==> Stands(p[from + 1 + i], v, rest[i], rest[i + 1]);
    }
  }

  lemma {:induction false} Uncut(p: seq<Symbol>, v: seq<Symbol>, from: nat, m: nat, cuts: seq<nat>)
    requires Aligned(p, v, from, m, cuts)
    ensures m <= |v| && Matches(p[from..], v[m..])
    decreases |p| - from
  {
    if from < |p| {
      assert Stands(p[from + 0], v, cuts[0], cuts[0 + 1]);
      forall i | 0 <= i < |cuts[1..]| - 1 ensures Stands(p[from + 1 + i], v, cuts[1..][i], cuts[1..][i + 1]) {
        assert Stands(p[from + (i + 1)], v, cuts[i + 1], cuts[i + 1 + 1]);
      }
      Uncut(p, v, from + 1, cuts[1], cuts[1..]);
      assert p[from..][1..] == p[from + 1..] && v[m..][cuts[1] - m..] == v[cuts[1]..];
    }
  }

  /** Starting at `m`, the star-free pattern stretch `[from..to)` matches symbol by symbol. */
  ghost predicate Fits(p: seq<Symbol>, v: seq<Symbol>, from: nat, to: nat, m: nat) {
    from <= to <= |p| && m + (to - from) <= |v| && forall i :: from <= i < to ==> Takes(p[i], v[m + (i - from)])
  }

  ghost predicate Starless(p: seq<Symbol>, from: nat, to: nat) {
    from <= to <= |p| && forall i :: from <= i < to ==> p[i] != STAR
  }

  /** A star-free stretch matches in one way only. */
  lemma {:induction false} StretchSplits(p: seq<Symbol>, v: seq<Symbol>, from: nat, to: nat, m: nat)
    requires Starless(p, from, to) && m <= |v|
    ensures Matches(p[from..], v[m..]) <==>
            Fits(p, v, from, to, m) && Matches(p[to..], v[m + (to - from)..])
    decreases |p| - from
  {
    if from < to {
      assert p[from..][0] == p[from] && p[from..][1..] == p[from + 1..];
      if m < |v| {
        assert v[m..][0] == v[m] && v[m..][1..] == v[m + 1..];
        StretchSplits(p, v, from + 1, to, m + 1);
      }
    }
  }

  lemma {:induction false} OnlyStarsMatchNothing(p: seq<Symbol>)
    ensures Matches(p, []) <==> forall i :: 0 <= i < |p| ==> p[i] == STAR
  {
    if p != [] {
      OnlyStarsMatchNothing(p[1..]);
      if p[0] == STAR {
        var none: seq<Symbol> := [];
        assert none[0..] == none;
        assert forall i :: 0 < i < |p| ==> p[i] == p[1..][i - 1];
      }
    }
  }

  /** Some suffix of `v` from `m` on matches what follows the star at `s`. */
  ghost predicate After(p: seq<Symbol>, v: seq<Symbol>, s: nat, m: nat) {
    s < |p| && exists k :: m <= k <= |v| && Matches(p[s + 1..], v[k..])
  }

  lemma StarOpens(p: seq<Symbol>, v: seq<Symbol>, s: nat, m: nat)
    requires s < |p| && p[s] == STAR && m <= |v|
    ensures Matches(p[s..], v[m..]) <==> After(p, v, s, m)
  {
    assert p[s..][0] == STAR && p[s..][1..] == p[s + 1..];
    assert forall k :: 0 <= k <= |v[m..]| ==> v[m..][k..] == v[m + k..];
    if After(p, v, s, m) {
      var k :| m <= k <= |v| && Matches(p[s + 1..], v[k..]);
      assert v[m..][k - m..] == v[k..];
    }
  }

  /** Only the last star needs a bookmark: once the stretch behind it has been matched at the
      earliest place, later stars can use every later place. */
  lemma LastStarSuffices(p: seq<Symbol>, v: seq<Symbol>, s: nat, m: nat, t: nat, vi: nat)
    requires s < t < |p| && p[t] == STAR && Starless(p, s + 1, t)
    requires Fits(p, v, s + 1, t, m) && vi == m + (t - (s + 1))
    ensures After(p, v, s, m) <==> After(p, v, t, vi)
  {
    if After(p, v, s, m) {
      var k :| m <= k <= |v| && Matches(p[s + 1..], v[k..]);
      LaterStarInherits(p, v, s, k, t);
    }
    if After(p, v, t, vi) { EarlierStarReaches(p, v, s, m, t); }
  }

  lemma EarlierStarReaches(p: seq<Symbol>, v: seq<Symbol>, s: nat, m: nat, t: nat)
    requires s < t < |p| && p[t] == STAR && Starless(p, s + 1, t)
    requires Fits(p, v, s + 1, t, m) && After(p, v, t, m + (t - (s + 1)))
    ensures After(p, v, s, m)
  {
    assert Matches(p[s + 1..], v[m..]) by {
      StarOpens(p, v, t, m + (t - (s + 1)));
      StretchSplits(p, v, s + 1, t, m);
    }
    var k := m;
    assert m <= k <= |v| && Matches(p[s + 1..], v[k..]);
  }

  lemma LaterStarInherits(p: seq<Symbol>, v: seq<Symbol>, s: nat, k: nat, t: nat)
    requires s < t < |p| && p[t] == STAR && Starless(p, s + 1, t)
    requires k <= |v| && Matches(p[s + 1..], v[k..])
    ensures After(p, v, t, k + (t - (s + 1)))
  {
    StretchSplits(p, v, s + 1, t, k);
    StarOpens(p, v, t, k + (t - (s + 1)));
  }

  /** A mismatch behind the star rules out its current place. */
  lemma MismatchAdvances(p: seq<Symbol>, v: seq<Symbol>, s: nat, m: nat, pi: nat, vi: nat)
    requires s < pi <= |p| && Starless(p, s + 1, pi) && Fits(p, v, s + 1, pi, m)
    requires vi == m + (pi - (s + 1)) < |v|
    requires pi == |p| || (p[pi] != STAR && !Takes(p[pi], v[vi]))
    ensures After(p, v, s, m) <==> After(p, v, s, m + 1)
  {
    StretchSplits(p, v, s + 1, pi, m);
    if pi < |p| { assert p[pi..][0] == p[pi] && v[vi..][0] == v[vi]; }
  }

  /** With the value used up, the star's current place is the only one left. */
  lemma EndDecides(p: seq<Symbol>, v: seq<Symbol>, s: nat, m: nat, pi: nat)
    requires s < pi <= |p| && Starless(p, s + 1, pi) && Fits(p, v, s + 1, pi, m)
    requires |v| == m + (pi - (s + 1))
    ensures After(p, v, s, m) <==> Matches(p[pi..], [])
  {
    assert v[|v|..] == [];
    StretchSplits(p, v, s + 1, pi, m);
    if After(p, v, s, m) {
      var k :| m <= k <= |v| && Matches(p[s + 1..], v[k..]);
      StretchSplits(p, v, s + 1, pi, k);
    }
  }

  datatype Bookmark = NoStar | StarAt(index: nat)

  /** What the main loop knows: the whole question reduces to the bookmark and the two indexes. */
  ghost predicate Reduced(p: seq<Symbol>, v: seq<Symbol>, pi: nat, vi: nat, star: Bookmark, m: nat) {
    && pi <= |p| && vi <= |v|
    && match star
       case NoStar => Matches(p, v) <==> Matches(p[pi..], v[vi..])
       case StarAt(s) =>
         && s < pi && p[s] == STAR && Starless(p, s + 1, pi)
         && Fits(p, v, s + 1, pi, m) && vi == m + (pi - (s + 1))
         && (Matches(p, v) <==> After(p, v, s, m))
  }

  lemma TakeKeeps(p: seq<Symbol>, v: seq<Symbol>, pi: nat, vi: nat, star: Bookmark, m: nat)
    requires Reduced(p, v, pi, vi, star, m) && pi < |p| && vi < |v| && Takes(p[pi], v[vi])
    ensures Reduced(p, v, pi + 1, vi + 1, star, m)
  {
    assert p[pi..][0] == p[pi] && p[pi..][1..] == p[pi + 1..];
    assert v[vi..][0] == v[vi] && v[vi..][1..] == v[vi + 1..];
  }

  lemma StarKeeps(p: seq<Symbol>, v: seq<Symbol>, pi: nat, vi: nat, star: Bookmark, m: nat)
    requires Reduced(p, v, pi, vi, star, m) && pi < |p| && p[pi] == STAR
    ensures Reduced(p, v, pi + 1, vi, StarAt(pi), vi)
  {
    match star
    case NoStar => StarOpens(p, v, pi, vi);
    case StarAt(s) => LastStarSuffices(p, v, s, m, pi, vi);
  }

  lemma BacktrackKeeps(p: seq<Symbol>, v: seq<Symbol>, pi: nat, vi: nat, s: nat, m: nat)
    requires Reduced(p, v, pi, vi, StarAt(s), m) && vi < |v|
    requires pi == |p| || (p[pi] != STAR && !Takes(p[pi], v[vi]))
    ensures Reduced(p, v, s + 1, m + 1, StarAt(s), m + 1)
  {
    MismatchAdvances(p, v, s, m, pi, vi);
  }

  lemma NoStarFails(p: seq<Symbol>, v: seq<Symbol>, pi: nat, vi: nat, m: nat)
    requires Reduced(p, v, pi, vi, NoStar, m) && vi < |v|
    requires pi == |p| || (p[pi] != STAR && !Takes(p[pi], v[vi]))
    ensures !Matches(p, v)
  {
    if pi < |p| { assert p[pi..][0] == p[pi] && v[vi..][0] == v[vi]; }
  }

  lemma {:induction false} FinishDecides(p: seq<Symbol>, v: seq<Symbol>, pi: nat, star: Bookmark, m: nat)
    requires Reduced(p, v, pi, |v|, star, m)
    ensures Matches(p, v) <==> forall i :: pi <= i < |p| ==> p[i] == STAR
  {
    assert v[|v|..] == [];
    OnlyStarsMatchNothing(p[pi..]);
    assert (forall i :: 0 <= i < |p[pi..]| ==> p[pi..][i] == STAR) <==>
      (forall i :: pi <= i < |p| ==> p[i] == STAR) by {
      if forall i :: 0 <= i < |p[pi..]| ==> p[pi..][i] == STAR {
        forall i | pi <= i < |p| ensures p[i] == STAR { assert p[pi..][i - pi] == STAR; }
      }
    }
    match star
    case NoStar =>
    case StarAt(s) => EndDecides(p, v, s, m, pi);
  }

  /** The loop both matchers end with: skip the remaining stars and see whether the pattern is used up. */
  method OnlyStarsFollow(pattern: seq<Symbol>, start: nat) returns (r: bool)
    requires start <= |pattern|
    ensures r <==> forall i :: start <= i < |pattern| ==> pattern[i] == STAR
  {
    var pi := start;
    while pi < |pattern| && pattern[pi] == STAR
      invariant start <= pi <= |pattern| && forall i :: start <= i < pi ==> pattern[i] == STAR
    {
      pi := pi + 1;
    }
    r := pi == |pattern|;
  }

  method CaseSensitiveGlobMatch(pattern: seq<Symbol>, value: seq<Symbol>) returns (r: bool)
    ensures r <==> Matches(pattern, value)
  {
    if pattern == [STAR] {
      StarOpens(pattern, value, 0, 0);
      assert pattern[0..] == pattern && value[0..] == value && pattern[1..] == [] && value[|value|..] == [];
      return true;
    }
    var pi: nat, vi: nat, m: nat := 0, 0, 0;
    var star := NoStar;
    assert pattern[0..] == pattern && value[0..] == value;
    while vi < |value|
      invariant Reduced(pattern, value, pi, vi, star, m) && m <= vi
      decreases |value| - m, |pattern| - (if star.StarAt? then star.index + 1 else 0), |value| - vi
    {
      if pi < |pattern| && pattern[pi] != STAR && (pattern[pi] == QUESTION || pattern[pi] == value[vi]) {
        TakeKeeps(pattern, value, pi, vi, star, m);
        pi, vi := pi + 1, vi + 1;
      } else if pi < |pattern| && pattern[pi] == STAR {
        StarKeeps(pattern, value, pi, vi, star, m);
        star := StarAt(pi);
        pi, m := pi + 1, vi;
      } else if star.StarAt? {
        BacktrackKeeps(pattern, value, pi, vi, star.index, m);
        m := m + 1;
        vi, pi := m, star.index + 1;
      } else {
        NoStarFails(pattern, value, pi, vi, m);
        return false;
      }
    }
    FinishDecides(pattern, value, pi, star, m);
    r := OnlyStarsFollow(pattern, pi);
  }

  // ---------------------------------------------------------------------------
  // The billing matcher
  // ---------------------------------------------------------------------------

  function LowerByte(b: Symbol): Symbol { if 65 <= b <= 90 then b + 32 else b }

  function Lower(s: seq<Symbol>): (r: seq<Symbol>)
    ensures |r| == |s| && forall i :: 0 <= i < |s| ==> r[i] == LowerByte(s[i])
  {
    seq(|s|, i requires 0 <= i < |s| => LowerByte(s[i]))
  }

  predicate EqIgnoreAsciiCase(a: Symbol, b: Symbol) { LowerByte(a) == LowerByte(b) }

  /** The letters A to Z become a to z, everything else stays: lowering twice is lowering once, and two
      strings are lowered to the same one exactly when they differ in the case of letters only. */
  lemma LowerIs(a: seq<Symbol>, b: seq<Symbol>)
    ensures Lower(Lower(a)) == Lower(a)
    ensures Lower(a) == Lower(b) <==> |a| == |b| && forall i :: 0 <= i < |a| ==>
              a[i] == b[i] || (65 <= a[i] <= 90 && b[i] == a[i] + 32) || (65 <= b[i] <= 90 && a[i] == b[i] + 32)
    ensures forall i :: 0 <= i < |a| ==> Lower(a)[i] == if 65 <= a[i] <= 90 then a[i] + 32 else a[i]
  {
    if Lower(a) == Lower(b) {
      forall i | 0 <= i < |a|
        ensures a[i] == b[i] || (65 <= a[i] <= 90 && b[i] == a[i] + 32) || (65 <= b[i] <= 90 && a[i] == b[i] + 32)
      {
        assert Lower(a)[i] == Lower(b)[i];
      }
    }
  }

  lemma LowerTakes(p: Symbol, v: Symbol)
    ensures Takes(LowerByte(p), LowerByte(v)) <==> p != STAR && (p == QUESTION || EqIgnoreAsciiCase(p, v))
    ensures LowerByte(p) == STAR <==> p == STAR
  {
  }

  /** Matching without regard to ASCII case is case-sensitive matching of the lowered strings. */
  method GlobMatches(pattern: seq<Symbol>, value: seq<Symbol>) returns (r: bool)
    ensures r <==> Matches(Lower(pattern), Lower(value))
  {
    ghost var p, v := Lower(pattern), Lower(value);
    var pi: nat, vi: nat, m: nat := 0, 0, 0;
    var star := NoStar;
    assert p[0..] == p && v[0..] == v;
    while vi < |value|
      invariant Reduced(p, v, pi, vi, star, m) && m <= vi
      decreases |value| - m, |pattern| - (if star.StarAt? then star.index + 1 else 0), |value| - vi
    {
      if pi < |pattern| { LowerTakes(pattern[pi], value[vi]); }
      if pi < |pattern| && pattern[pi] != STAR
         && (pattern[pi] == QUESTION || EqIgnoreAsciiCase(pattern[pi], value[vi])) {
        TakeKeeps(p, v, pi, vi, star, m);
        pi, vi := pi + 1, vi + 1;
      } else if pi < |pattern| && pattern[pi] == STAR {
        StarKeeps(p, v, pi, vi, star, m);
        star := StarAt(pi);
        pi, m := pi + 1, vi;
      } else if star.StarAt? {
        BacktrackKeeps(p, v, pi, vi, star.index, m);
        m := m + 1;
        vi, pi := m, star.index + 1;
      } else {
        NoStarFails(p, v, pi, vi, m);
        return false;
      }
    }
    FinishDecides(p, v, pi, star, m);
    r := OnlyStarsFollow(pattern, pi);
    assert forall i :: 0 <= i < |p| ==> (p[i] == STAR <==> pattern[i] == STAR);
  }
}
