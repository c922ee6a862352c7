/** Looking up billing rates: the direct query for one profile, provider type and model, and the
    chunked candidate query that serves many of them at once. */
module RateLookup {
  import opened Common
  import opened Orders
  import opened Glob
  import TextOrder

  /** One row of the rate table; `detail` stands for the columns no lookup inspects. */
  datatype Rate = Rate(
    id: string, priority: int, profile: string, providerType: Option<string>,
    pattern: Option<seq<Symbol>>, enabled: bool, detail: string)

  type Table = t: map<string, Rate> | forall k :: k in t ==> t[k].id == k witness map[]

  /** No lookup statement binds more than this many names of one kind. */
  const LOOKUP_CHUNK := 200

  // ---------------------------------------------------------------------------
  // Row order
  // ---------------------------------------------------------------------------

  /** Higher priority first, then by id. */
  predicate Before(a: Rate, b: Rate) {
    a.priority > b.priority || (a.priority == b.priority && TextOrder.Less(a.id, b.id))
  }

  lemma BeforeOrders(a: Rate, b: Rate, c: Rate)
    ensures !Before(a, a)
    ensures Before(a, b) && Before(b, c) ==> Before(a, c)
    ensures Before(a, b) || a.id == b.id || Before(b, a)
    ensures !(Before(a, b) && Before(b, a))
  {
    TextOrder.LessIrreflexive(a.id);
    TextOrder.LessTotal(a.id, b.id);
    if TextOrder.Less(a.id, b.id) && TextOrder.Less(b.id, c.id) { TextOrder.LessTransitive(a.id, b.id, c.id); }
    if TextOrder.Less(a.id, b.id) && TextOrder.Less(b.id, a.id) { TextOrder.LessTransitive(a.id, b.id, a.id); }
  }

  /** Between two listed rows the higher priority comes first, and the earlier id among equals. */
  ghost predicate InOrder(rows: seq<Rate>) {
    forall i, j :: 0 <= i < j < |rows| ==>
      || rows[i].priority > rows[j].priority
      || (rows[i].priority == rows[j].priority && TextOrder.ComesFirst(rows[i].id, rows[j].id))
  }

  lemma AscendingIff(rows: seq<Rate>)
    ensures Ascending(rows) <==> InOrder(rows)
  {
    forall i, j | 0 <= i < j < |rows|
      ensures Before(rows[i], rows[j]) <==>
                || rows[i].priority > rows[j].priority
                || (rows[i].priority == rows[j].priority && TextOrder.ComesFirst(rows[i].id, rows[j].id))
    {
      TextOrder.LessIff(rows[i].id, rows[j].id);
    }
    if InOrder(rows) {
      forall i, j | 0 <= i < j < |rows| ensures Before(rows[i], rows[j]) {
        TextOrder.LessIff(rows[i].id, rows[j].id);
      }
    }
  }

  predicate OneRowPerId(s: set<Rate>) { forall a, b :: a in s && b in s && a.id == b.id ==> a == b }

  ghost predicate Ascending(rows: seq<Rate>) {
    forall i, j :: 0 <= i < j < |rows| ==> Before(rows[i], rows[j])
  }

  /** Exactly the rows of `s`, each once, in order. */
  ghost predicate Lists(rows: seq<Rate>, s: set<Rate>) {
    Ascending(rows) && forall r :: r in rows <==> r in s
  }

  /** A set of rows has only one listing. */
  lemma {:induction false} ListingUnique(a: seq<Rate>, b: seq<Rate>, s: set<Rate>)
    requires Lists(a, s) && Lists(b, s)
    ensures a == b
    decreases |a|
  {
    assert |b| > 0 ==> b[0] in s && b[0] in a;
    assert |a| > 0 ==> a[0] in s && a[0] in b;
    if a != [] {
      SameHead(a, b, s);
      TailLists(a, s);
      TailLists(b, s);
      ListingUnique(a[1..], b[1..], s - {a[0]});
      assert a == [a[0]] + a[1..] && b == [b[0]] + b[1..];
    }
  }

  lemma SameHead(a: seq<Rate>, b: seq<Rate>, s: set<Rate>)
    requires Lists(a, s) && Lists(b, s) && a != [] && b != []
    ensures a[0] == b[0]
  {
    assert a[0] in b && b[0] in a;
    var i :| 0 <= i < |b| && b[i] == a[0];
    var j :| 0 <= j < |a| && a[j] == b[0];
    BeforeOrders(a[0], b[0], a[0]);
  }

  lemma TailLists(a: seq<Rate>, s: set<Rate>)
    requires Lists(a, s) && a != []
    ensures Lists(a[1..], s - {a[0]})
  {
    forall r | r in a[1..]
      ensures r in s - {a[0]}
    {
      var i :| 0 <= i < |a[1..]| && a[1..][i] == r;
      BeforeOrders(a[0], a[0], a[0]);
      assert a[i + 1] == r && Before(a[0], a[i + 1]);
    }
    forall r | r in s - {a[0]}
      ensures r in a[1..]
    {
      var i :| 0 <= i < |a| && a[i] == r;
      assert a[1..][i - 1] == r;
    }
  }

  // ---------------------------------------------------------------------------
  // The ordered result of a statement
  // ---------------------------------------------------------------------------

  lemma BeforeIsOrder(s: set<Rate>)
    requires OneRowPerId(s)
    ensures IsOrder(Before, s)
  {
    forall x, y | x in s && y in s && Before(x, y) ensures !Before(y, x) { BeforeOrders(x, y, x); }
    forall x, y, z | x in s && y in s && z in s && Before(x, y) && Before(y, z)
      ensures Before(x, z)
    {
      BeforeOrders(x, y, z);
    }
    forall x, y | x in s && y in s && x != y ensures Before(x, y) || Before(y, x) { BeforeOrders(x, y, x); }
  }

  lemma FirstThenRest(s: set<Rate>, x: Rate, rest: seq<Rate>)
    requires IsLeast(Before, s, x) && Lists(rest, s - {x})
    ensures Lists([x] + rest, s)
  {
    var rows := [x] + rest;
    forall i, j | 0 <= i < j < |rows|
      ensures Before(rows[i], rows[j])
    {
      assert rows[j] == rest[j - 1] && rest[j - 1] in rest;
      if i > 0 { assert rows[i] == rest[i - 1]; }
    }
    forall r
      ensures r in rows <==> r in s
    {
      assert r in rows <==> r == x || r in rest;
    }
  }

  /** The rows of `s` as an ORDER BY returns them. */
  function Ordered(s: set<Rate>): (rows: seq<Rate>)
    requires OneRowPerId(s)
    ensures Lists(rows, s)
    decreases |s|
  {
    if s == {} then [] else
      BeforeIsOrder(s);
      var x := Least(Before, s);
      var rest := Ordered(s - {x});
      FirstThenRest(s, x, rest);
      [x] + rest
  }

  // ---------------------------------------------------------------------------
  // Which rows a query asks for
  // ---------------------------------------------------------------------------

  /** The WHERE clause: enabled, one of the profiles, and untyped or one of the types. */
  predicate Wanted(r: Rate, profiles: seq<string>, types: seq<string>) {
    r.enabled && r.profile in profiles && (r.providerType.None? || r.providerType.value in types)
  }

  function Selected(t: Table, profiles: seq<string>, types: seq<string>): (s: set<Rate>)
    ensures OneRowPerId(s)
  {
    set k | k in t && Wanted(t[k], profiles, types) :: t[k]
  }

  ghost predicate Covers(r: Rate, model: seq<Symbol>) {
    r.pattern.None? || Matches(Lower(r.pattern.value), Lower(model))
  }

  /** What applies to one profile, type and model, whatever the table's order. */
  ghost predicate Applies(r: Rate, profile: string, providerType: string, model: seq<Symbol>) {
    && r.enabled && r.profile == profile && (r.providerType.None? || r.providerType.value == providerType)
    && Covers(r, model)
  }

  ghost function Applicable(t: Table, profile: string, providerType: string, model: seq<Symbol>): set<Rate> {
    set k | k in t && Applies(t[k], profile, providerType, model) :: t[k]
  }

  method PatternCovers(r: Rate, model: seq<Symbol>) returns (ok: bool)
    ensures ok <==> Covers(r, model)
  {
    if r.pattern.None? { return true; }
    ok := GlobMatches(r.pattern.value, model);
  }

  // ---------------------------------------------------------------------------
  // Filtering keeps order
  // ---------------------------------------------------------------------------

  ghost predicate Among(r: Rate, rows: seq<Rate>, profile: string, providerType: string, model: seq<Symbol>) {
    r in rows && Applies(r, profile, providerType, model)
  }

  /** `kept` is what applies among the first `n` rows, still in order. */
  ghost predicate Filtered(kept: seq<Rate>, rows: seq<Rate>, n: nat, profile: string, providerType: string,
                           model: seq<Symbol>)
    requires n <= |rows|
  {
    Ascending(kept) && forall r :: r in kept <==> Among(r, rows[..n], profile, providerType, model)
  }

  lemma FilterNext(kept: seq<Rate>, rows: seq<Rate>, n: nat, profile: string, providerType: string, model: seq<Symbol>)
    requires n < |rows| && Ascending(rows) && Filtered(kept, rows, n, profile, providerType, model)
    ensures Applies(rows[n], profile, providerType, model) ==>
      Filtered(kept + [rows[n]], rows, n + 1, profile, providerType, model)
    ensures !Applies(rows[n], profile, providerType, model) ==>
      Filtered(kept, rows, n + 1, profile, providerType, model)
  {
    assert rows[..n + 1] == rows[..n] + [rows[n]];
    forall i | 0 <= i < |kept|
      ensures Before(kept[i], rows[n])
    {
      assert kept[i] in kept && Among(kept[i], rows[..n], profile, providerType, model);
      var j :| 0 <= j < |rows[..n]| && rows[..n][j] == kept[i];
      assert Before(rows[j], rows[n]);
    }
  }

  /** Filtering any ordered superset of the applicable rows gives the applicable rows, in order. */
  lemma FilterDone(kept: seq<Rate>, rows: seq<Rate>, t: Table, profiles: seq<string>, types: seq<string>,
                   profile: string, providerType: string, model: seq<Symbol>)
    requires Lists(rows, Selected(t, profiles, types)) && profile in profiles && providerType in types
    requires Filtered(kept, rows, |rows|, profile, providerType, model)
    ensures Lists(kept, Applicable(t, profile, providerType, model))
  {
    assert rows[..|rows|] == rows;
    forall r
      ensures r in kept <==> r in Applicable(t, profile, providerType, model)
    {
      if r in Applicable(t, profile, providerType, model) {
        assert r in Selected(t, profiles, types) && Among(r, rows, profile, providerType, model);
      }
      if r in kept {
        assert Among(r, rows, profile, providerType, model) && r in Selected(t, profiles, types);
      }
    }
  }

  // ---------------------------------------------------------------------------
  // The direct query
  // ---------------------------------------------------------------------------

  /** Exactly the applicable rows, each once, in order; an absent provider type asks as the empty name. */
  method ListMatchingRates(t: Table, profile: string, providerType: Option<string>, model: seq<Symbol>)
    returns (rates: seq<Rate>)
    ensures Lists(rates, Applicable(t, profile, if providerType.Some? then providerType.value else "", model))
    ensures InOrder(rates)
    ensures forall r :: r in rates <==>
              && r.id in t && t[r.id] == r && r.enabled && r.profile == profile
              && (r.providerType.None? || r.providerType.value == if providerType.Some? then providerType.value else "")
              && (r.pattern.None? || Matches(Lower(r.pattern.value), Lower(model)))
  {
    var asked := if providerType.Some? then providerType.value else "";
    var rows := Ordered(Selected(t, [profile], [asked]));
    rates := [];
    for i := 0 to |rows|
      invariant Filtered(rates, rows, i, profile, asked, model)
    {
      FilterNext(rates, rows, i, profile, asked, model);
      assert rows[i] in Selected(t, [profile], [asked]);
      var ok := PatternCovers(rows[i], model);
      if ok { rates := rates + [rows[i]]; }
    }
    FilterDone(rates, rows, t, [profile], [asked], profile, asked, model);
    AscendingIff(rates);
  }

  // ---------------------------------------------------------------------------
  // The chunked candidate query
  // ---------------------------------------------------------------------------

  /** Places `x` in an ascending sequence without repeating it. */
  method InsertName(xs: seq<string>, x: string) returns (ys: seq<string>)
    requires AscendingNames(xs)
    ensures AscendingNames(ys) && forall y :: y in ys <==> y in xs || y == x
  {
    var i := 0;
    while i < |xs| && TextOrder.Less(xs[i], x)
      invariant i <= |xs| && forall j :: 0 <= j < i ==> TextOrder.Less(xs[j], x)
    {
      i := i + 1;
    }
    if i < |xs| && xs[i] == x { return xs; }
    InsertKeeps(xs, x, i);
    ys := xs[..i] + [x] + xs[i..];
    assert xs == xs[..i] + xs[i..];
  }

  ghost predicate AscendingNames(xs: seq<string>) {
    forall i, j :: 0 <= i < j < |xs| ==> TextOrder.Less(xs[i], xs[j])
  }

  lemma InsertKeeps(xs: seq<string>, x: string, i: nat)
    requires AscendingNames(xs) && i <= |xs| && (forall j :: 0 <= j < i ==> TextOrder.Less(xs[j], x))
    requires i < |xs| ==> !TextOrder.Less(xs[i], x) && xs[i] != x
    ensures AscendingNames(xs[..i] + [x] + xs[i..])
  {
    forall j | i <= j < |xs|
      ensures TextOrder.Less(x, xs[j])
    {
      TextOrder.LessTotal(x, xs[i]);
      if i < j { TextOrder.LessTransitive(x, xs[i], xs[j]); }
    }
  }

  method Deduplicate(names: seq<string>) returns (distinct: seq<string>)
    ensures AscendingNames(distinct) && forall x :: x in distinct <==> x in names
  {
    distinct := [];
    for i := 0 to |names|
      invariant AscendingNames(distinct) && forall x :: x in distinct <==> x in names[..i]
    {
      assert names[..i + 1] == names[..i] + [names[i]];
      distinct := InsertName(distinct, names[i]);
    }
    assert names[..|names|] == names;
  }

  /** Inserts a statement's rows under their ids: what two statements both return is kept once. */
  method Gather(found: Table, rows: seq<Rate>, t: Table) returns (more: Table)
    requires forall r :: r in rows ==> r.id in t && t[r.id] == r
    requires forall k :: k in found ==> k in t && t[k] == found[k]
    ensures forall k :: k in more ==> k in t && t[k] == more[k]
    ensures forall k :: k in more <==> k in found || exists r :: r in rows && r.id == k
  {
    more := found;
    for i := 0 to |rows|
      invariant forall k :: k in more ==> k in t && t[k] == more[k]
      invariant forall k :: k in more <==> k in found || exists r :: r in rows[..i] && r.id == k
    {
      assert rows[..i + 1] == rows[..i] + [rows[i]] && rows[i] in rows;
      more := more[rows[i].id := rows[i]];
    }
    assert rows[..|rows|] == rows;
  }

  /** What the statements so far cover: the first `p` profiles with all types, and of the next chunk
      of profiles `[p..q)` the first `n` types. */
  ghost predicate Covered(found: Table, t: Table, profiles: seq<string>, p: nat, q: nat, types: seq<string>, n: nat)
    requires p <= q <= |profiles| && n <= |types|
  {
    forall k :: k in found <==>
      k in t && (Wanted(t[k], profiles[..p], types) || (n > 0 && Wanted(t[k], profiles[p..q], types[..n])))
  }

  ghost predicate PartOf(found: Table, t: Table) { forall k :: k in found ==> k in t && t[k] == found[k] }

  lemma NextTypes(found: Table, more: Table, t: Table, profiles: seq<string>, p: nat, q: nat, types: seq<string>,
                  n: nat, m: nat)
    requires p <= q <= |profiles| && n < m <= |types|
    requires Covered(found, t, profiles, p, q, types, n)
    requires forall k :: k in more <==> k in found || (k in t && Wanted(t[k], profiles[p..q], types[n..m]))
    ensures Covered(more, t, profiles, p, q, types, m)
  {
    assert types[..m] == types[..n] + types[n..m];
  }

  lemma NextProfiles(found: Table, t: Table, profiles: seq<string>, p: nat, q: nat, types: seq<string>)
    requires p <= q <= |profiles| && types != [] && Covered(found, t, profiles, p, q, types, |types|)
    ensures Covered(found, t, profiles, q, q, types, 0)
  {
    assert types[..|types|] == types && profiles[..q] == profiles[..p] + profiles[p..q];
  }

  function ChunkEnd(from: nat, length: nat): (end: nat)
    requires from < length
    ensures from < end <= length && (end == from + 200 || (end == length && end - from <= 200))
  {
    if from + LOOKUP_CHUNK < length then from + LOOKUP_CHUNK else length
  }

  /** One statement: at most 200 profiles and as many types. */
  method RunChunk(found: Table, t: Table, profiles: seq<string>, types: seq<string>) returns (more: Table)
    requires PartOf(found, t) && |profiles| <= 200 && |types| <= 200
    ensures PartOf(more, t)
    ensures forall k :: k in more <==> k in found || (k in t && Wanted(t[k], profiles, types))
  {
    var rows := Ordered(Selected(t, profiles, types));
    more := Gather(found, rows, t);
    forall k
      ensures k in more <==> k in found || (k in t && Wanted(t[k], profiles, types))
    {
      if k in t && Wanted(t[k], profiles, types) { assert t[k] in Selected(t, profiles, types) && t[k] in rows; }
    }
  }

  method RunTypeChunks(found: Table, t: Table, profiles: seq<string>, p: nat, q: nat, types: seq<string>)
    returns (more: Table)
    requires p < q <= |profiles| && q - p <= 200 && types != []
    requires PartOf(found, t) && Covered(found, t, profiles, p, p, types, 0)
    ensures PartOf(more, t) && Covered(more, t, profiles, q, q, types, 0)
  {
    more := found;
    var n: nat := 0;
    while n < |types|
      invariant n <= |types| && PartOf(more, t) && Covered(more, t, profiles, p, q, types, n)
    {
      var m := ChunkEnd(n, |types|);
      var next := RunChunk(more, t, profiles[p..q], types[n..m]);
      NextTypes(more, next, t, profiles, p, q, types, n, m);
      more, n := next, m;
    }
    NextProfiles(more, t, profiles, p, q, types);
  }

  /** Each enabled row of any of the profiles that is untyped or of any of the types, once, in order;
      nothing at all if either list is empty. */
  method ListCandidateRates(t: Table, pricingProfiles: seq<string>, providerTypes: seq<string>)
    returns (rates: seq<Rate>)
    ensures pricingProfiles == [] || providerTypes == [] ==> rates == []
    ensures pricingProfiles != [] && providerTypes != [] ==> Lists(rates, Selected(t, pricingProfiles, providerTypes))
    ensures InOrder(rates)
    ensures forall r :: r in rates <==>
              && providerTypes != [] && r.id in t && t[r.id] == r && r.enabled && r.profile in pricingProfiles
              && (r.providerType.None? || r.providerType.value in providerTypes)
  {
    if pricingProfiles == [] || providerTypes == [] { return []; }
    var profiles := Deduplicate(pricingProfiles);
    var types := Deduplicate(providerTypes);
    assert providerTypes[0] in types;
    var found: Table := map[];
    var p: nat := 0;
    while p < |profiles|
      invariant p <= |profiles| && PartOf(found, t) && Covered(found, t, profiles, p, p, types, 0)
    {
      var q := ChunkEnd(p, |profiles|);
      found := RunTypeChunks(found, t, profiles, p, q, types);
      p := q;
    }
    assert profiles[..|profiles|] == profiles;
    var values := set k | k in found :: found[k];
    assert values == Selected(t, pricingProfiles, providerTypes) by {
      SameSelection(found, t, profiles, types, pricingProfiles, providerTypes);
    }
    rates := Ordered(values);
    AscendingIff(rates);
  }

  lemma SameSelection(found: Table, t: Table, profiles: seq<string>, types: seq<string>, asked: seq<string>,
                      askedTypes: seq<string>)
    requires PartOf(found, t) && forall k :: k in found <==> k in t && Wanted(t[k], profiles, types)
    requires (forall x :: x in profiles <==> x in asked) && (forall x :: x in types <==> x in askedTypes)
    ensures (set k | k in found :: found[k]) == Selected(t, asked, askedTypes)
  {
    var values := set k | k in found :: found[k];
    forall r
      ensures r in values <==> r in Selected(t, asked, askedTypes)
    {
      if r in values {
        var k :| k in found && found[k] == r;
        assert k in t && Wanted(t[k], asked, askedTypes);
      }
      if r in Selected(t, asked, askedTypes) {
        assert r.id in t && Wanted(t[r.id], profiles, types) && found[r.id] == r;
      }
    }
  }

  // ---------------------------------------------------------------------------
  // Candidates narrowed to one model
  // ---------------------------------------------------------------------------

  /** Narrowing candidates to one profile, type and model. */
  method NarrowCandidates(candidates: seq<Rate>, profile: string, providerType: string, model: seq<Symbol>)
    returns (rates: seq<Rate>)
    requires Ascending(candidates) && forall r :: r in candidates ==> r.enabled
    ensures Filtered(rates, candidates, |candidates|, profile, providerType, model)
  {
    rates := [];
    for i := 0 to |candidates|
      invariant Filtered(rates, candidates, i, profile, providerType, model)
    {
      FilterNext(rates, candidates, i, profile, providerType, model);
      assert candidates[i] in candidates;
      var r := candidates[i];
      if r.profile == profile && (r.providerType.None? || r.providerType.value == providerType) {
        var ok := PatternCovers(r, model);
        if ok { rates := rates + [r]; }
      }
    }
  }

  /** The two ways to the rates of one model give the same sequence, for every table and all lists
      that contain the profile and the type. */
  method LookupsAgree(t: Table, profiles: seq<string>, types: seq<string>, profile: string, providerType: string,
                      model: seq<Symbol>)
    returns (direct: seq<Rate>, narrowed: seq<Rate>)
    requires profile in profiles && providerType in types
    ensures direct == narrowed && Lists(direct, Applicable(t, profile, providerType, model))
  {
    direct := ListMatchingRates(t, profile, Some(providerType), model);
    var candidates := ListCandidateRates(t, profiles, types);
    forall r | r in candidates ensures r.enabled { assert r in Selected(t, profiles, types); }
    narrowed := NarrowCandidates(candidates, profile, providerType, model);
    FilterDone(narrowed, candidates, t, profiles, types, profile, providerType, model);
    ListingUnique(direct, narrowed, Applicable(t, profile, providerType, model));
  }
}
