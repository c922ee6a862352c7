/** Building the image-cache index from the directory at startup. */
module ImageStartup {
  import opened Common
  import opened Orders
  import opened Sums
  import opened ImageCache
  import TextOrder

  /** One file the scan returned; `current` if its name is a cache key and it has not expired. */
  datatype Found = Found(key: Key, bytes: nat, modified: Time, current: bool)

  /** A file the scan keeps for consideration instead of removing it at once. */
  predicate Admissible(f: Found, l: Limits) { f.current && f.bytes <= l.maxEntryBytes }

  /** Discovered files are kept ordered by modification time, then name. */
  datatype Stamp = Stamp(modified: Time, key: Key)

  type Discovered = map<Stamp, nat>

  predicate Earlier(a: Stamp, b: Stamp) {
    a.modified < b.modified || (a.modified == b.modified && TextOrder.Less(a.key, b.key))
  }

  /** By modification time, and among equal times by name. */
  lemma EarlierIff(a: Stamp, b: Stamp)
    ensures Earlier(a, b) <==>
              a.modified < b.modified || (a.modified == b.modified && TextOrder.ComesFirst(a.key, b.key))
  {
    TextOrder.LessIff(a.key, b.key);
  }

  lemma EarlierOrders(a: Stamp, b: Stamp, c: Stamp)
    ensures !Earlier(a, a)
    ensures Earlier(a, b) && Earlier(b, c) ==> Earlier(a, c)
    ensures Earlier(a, b) || a == b || Earlier(b, a)
    ensures !(Earlier(a, b) && Earlier(b, a))
  {
    TextOrder.LessIrreflexive(a.key);
    TextOrder.LessTotal(a.key, b.key);
    if TextOrder.Less(a.key, b.key) && TextOrder.Less(b.key, c.key) { TextOrder.LessTransitive(a.key, b.key, c.key); }
    if TextOrder.Less(a.key, b.key) && TextOrder.Less(b.key, a.key) { TextOrder.LessTransitive(a.key, b.key, a.key); }
  }

  lemma EarlierIsOrder(s: set<Stamp>)
    ensures IsOrder(Earlier, s)
  {
    forall x, y | x in s && y in s && Earlier(x, y) ensures !Earlier(y, x) { EarlierOrders(x, y, x); }
    forall x, y, z | x in s && y in s && z in s && Earlier(x, y) && Earlier(y, z)
      ensures Earlier(x, z)
    {
      EarlierOrders(x, y, z);
    }
    forall x, y | x in s && y in s && x != y ensures Earlier(x, y) || Earlier(y, x) { EarlierOrders(x, y, x); }
  }

  // ---------------------------------------------------------------------------
  // What the scan saw
  // ---------------------------------------------------------------------------

  ghost predicate DistinctNames(scan: seq<Found>) {
    forall i, j :: 0 <= i < j < |scan| ==> scan[i].key != scan[j].key
  }

  function StampOf(f: Found): Stamp { Stamp(f.modified, f.key) }

  /** The admissible files among the first `n` scanned. */
  ghost function Seen(scan: seq<Found>, n: nat, l: Limits): Discovered
    requires n <= |scan|
  {
    if n == 0 then map[]
    else if Admissible(scan[n - 1], l) then Seen(scan, n - 1, l)[StampOf(scan[n - 1]) := scan[n - 1].bytes]
    else Seen(scan, n - 1, l)
  }

  lemma {:induction false} SeenNames(scan: seq<Found>, n: nat, l: Limits, x: Stamp)
    requires n <= |scan| && x in Seen(scan, n, l)
    ensures exists i :: 0 <= i < n && StampOf(scan[i]) == x && scan[i].bytes == Seen(scan, n, l)[x]
                        && Admissible(scan[i], l)
  {
    if !(Admissible(scan[n - 1], l) && x == StampOf(scan[n - 1])) {
      SeenNames(scan, n - 1, l, x);
      var i :| 0 <= i < n - 1 && StampOf(scan[i]) == x && scan[i].bytes == Seen(scan, n - 1, l)[x]
               && Admissible(scan[i], l);
    } else {
      assert StampOf(scan[n - 1]) == x && 0 <= n - 1 < n;
    }
  }

  /** The files considered are those with a valid, unexpired name and no more bytes than an entry may
      have. */
  lemma {:induction false} SeenIff(scan: seq<Found>, n: nat, l: Limits, x: Stamp, bytes: nat)
    requires n <= |scan| && DistinctNames(scan)
    ensures x in Seen(scan, n, l) && Seen(scan, n, l)[x] == bytes <==>
              exists i :: 0 <= i < n && scan[i] == Found(x.key, bytes, x.modified, true) && bytes <= l.maxEntryBytes
  {
    if x in Seen(scan, n, l) && Seen(scan, n, l)[x] == bytes {
      SeenNames(scan, n, l, x);
    }
    if i :| 0 <= i < n && scan[i] == Found(x.key, bytes, x.modified, true) && bytes <= l.maxEntryBytes {
      SeenHas(scan, i, n, l);
    }
  }

  lemma {:induction false} SeenHas(scan: seq<Found>, i: nat, n: nat, l: Limits)
    requires i < n <= |scan| && DistinctNames(scan) && Admissible(scan[i], l)
    ensures StampOf(scan[i]) in Seen(scan, n, l) && Seen(scan, n, l)[StampOf(scan[i])] == scan[i].bytes
  {
    if i < n - 1 { SeenHas(scan, i, n - 1, l); }
  }

  lemma NextIsNew(scan: seq<Found>, n: nat, l: Limits, x: Stamp)
    requires n < |scan| && DistinctNames(scan) && x in Seen(scan, n, l)
    ensures x.key != scan[n].key
  {
    SeenNames(scan, n, l, x);
  }

  /** What is kept is part of what was seen, and everything dropped is earlier than everything kept. */
  ghost predicate KeepsLatest(kept: Discovered, seen: Discovered) {
    && (forall x :: x in kept ==> x in seen && seen[x] == kept[x])
    && (forall x, y :: x in seen && x !in kept && y in kept ==> Earlier(x, y))
  }

  ghost predicate KeepsSome(kept: Discovered, seen: Discovered) {
    forall x :: x in kept ==> x in seen && seen[x] == kept[x]
  }

  // ---------------------------------------------------------------------------
  // The newest files
  // ---------------------------------------------------------------------------

  function Smaller(a: nat, b: nat): nat { if a <= b then a else b }

  function FirstOf(d: Discovered): (x: Stamp)
    requires d != map[]
    ensures x in d && IsLeast(Earlier, d.Keys, x)
  {
    EarlierIsOrder(d.Keys);
    Least(Earlier, d.Keys)
  }

  function WithoutFirst(d: Discovered): (r: Discovered)
    requires d != map[]
    ensures |r| == |d| - 1 && r.Keys < d.Keys
  {
    var r := d - {FirstOf(d)};
    assert r.Keys == d.Keys - {FirstOf(d)};
    r
  }

  /** The `k` latest files, or all of them. */
  ghost function Newest(d: Discovered, k: nat): Discovered
    decreases |d|
  {
    if |d| <= k then d else Newest(WithoutFirst(d), k)
  }

  lemma DropFirst(kept: Discovered, seen: Discovered)
    requires kept != map[] && KeepsLatest(kept, seen)
    ensures KeepsLatest(WithoutFirst(kept), seen)
  {
    var x := FirstOf(kept);
    forall z, y | z in seen && z !in kept - {x} && y in kept - {x}
      ensures Earlier(z, y)
    {
      assert y in kept.Keys;
    }
  }

  lemma {:induction false} NewestIsLatest(d: Discovered, k: nat, seen: Discovered)
    requires KeepsLatest(d, seen)
    ensures KeepsLatest(Newest(d, k), seen) && |Newest(d, k)| == Smaller(|d|, k)
    decreases |d|
  {
    if |d| > k {
      DropFirst(d, seen);
      NewestIsLatest(WithoutFirst(d), k, seen);
    }
  }

  /** A collection is determined by how many of the latest files it keeps. */
  lemma LatestUnique(a: Discovered, b: Discovered, seen: Discovered)
    requires KeepsLatest(a, seen) && KeepsLatest(b, seen) && |a| == |b|
    ensures a == b
  {
    if a.Keys != b.Keys {
      SameSizeDiffer(a.Keys, b.Keys);
      var x :| x in a.Keys && x !in b.Keys;
      var y :| y in b.Keys && y !in a.Keys;
      EarlierOrders(x, y, x);
      assert false;
    }
  }

  lemma SameSizeDiffer(a: set<Stamp>, b: set<Stamp>)
    requires a != b && |a| == |b|
    ensures (exists x :: x in a && x !in b) && (exists y :: y in b && y !in a)
  {
    if a <= b {
      SubsetSize(a, b);
      assert false;
    }
    if b <= a {
      SubsetSize(b, a);
      assert false;
    }
  }

  // ---------------------------------------------------------------------------
  // The scan
  // ---------------------------------------------------------------------------

  ghost predicate Within(d: Discovered, l: Limits) { |d| <= l.maxFiles && Sum(d) <= l.maxBytes }

  /** Files left, and the running total kept beside them, after dropping the earliest ones until the
      count and the total are within quota. */
  ghost function Shrunk(d: Discovered, total: nat, l: Limits): (Discovered, nat)
    decreases |d|
  {
    if d == map[] || (|d| <= l.maxFiles && total <= l.maxBytes) then (d, total)
    else
      Shrunk(WithoutFirst(d), SatSub(total, d[FirstOf(d)]), l)
  }

  ghost function Scanned(scan: seq<Found>, n: nat, l: Limits): (Discovered, nat)
    requires n <= |scan|
  {
    if n == 0 then (map[], 0)
    else
      var (kept, total) := Scanned(scan, n - 1, l);
      var f := scan[n - 1];
      if Admissible(f, l) then Shrunk(kept[StampOf(f) := f.bytes], SatAdd(total, f.bytes), l) else (kept, total)
  }

  lemma {:induction false} ShrunkKeys(d: Discovered, total: nat, l: Limits)
    ensures Shrunk(d, total, l).0.Keys <= d.Keys
    decreases |d|
  {
    if d != map[] && !(|d| <= l.maxFiles && total <= l.maxBytes) {
      ShrunkKeys(WithoutFirst(d), SatSub(total, d[FirstOf(d)]), l);
    }
  }

  /** Shrinking drops a file that cannot be removed. */
  ghost predicate DropsStuck(d: Discovered, total: nat, l: Limits, stuck: set<Key>) {
    exists x :: x in d && x !in Shrunk(d, total, l).0 && x.key in stuck
  }

  /** A file that cannot be removed ends the startup with an error. */
  method Shrink(d: Discovered, total: nat, l: Limits, stuck: set<Key>) returns (ok: bool, d': Discovered, total': nat)
    ensures ok <==> !DropsStuck(d, total, l, stuck)
    ensures ok ==> (d', total') == Shrunk(d, total, l)
  {
    d', total' := d, total;
    while |d'| > l.maxFiles || total' > l.maxBytes
      invariant Shrunk(d', total', l) == Shrunk(d, total, l) && d'.Keys <= d.Keys
      invariant forall x :: x in d && x !in d' ==> x.key !in stuck
      decreases |d'|
    {
      if d' == map[] { return true, d', total'; }
      var x := FirstOf(d');
      ShrunkKeys(WithoutFirst(d'), SatSub(total', d'[x]), l);
      if x.key in stuck {
        assert x in d && x !in Shrunk(d, total, l).0;
        return false, d', total';
      }
      total' := SatSub(total', d'[x]);
      d' := WithoutFirst(d');
    }
    ok := true;
  }

  /** Among the first `n` files listed, one that has to go cannot be removed. */
  ghost predicate Blocked(scan: seq<Found>, n: nat, l: Limits, stuck: set<Key>)
    requires n <= |scan|
  {
    n > 0 && (Blocked(scan, n - 1, l, stuck) || BlockedAt(scan, n - 1, l, stuck))
  }

  ghost predicate BlockedAt(scan: seq<Found>, i: nat, l: Limits, stuck: set<Key>)
    requires i < |scan|
  {
    var f, (kept, total) := scan[i], Scanned(scan, i, l);
    if Admissible(f, l) then DropsStuck(kept[StampOf(f) := f.bytes], SatAdd(total, f.bytes), l, stuck)
    else f.key in stuck
  }

  lemma {:induction false} BlockedStays(scan: seq<Found>, n: nat, m: nat, l: Limits, stuck: set<Key>)
    requires n <= m <= |scan| && Blocked(scan, n, l, stuck)
    ensures Blocked(scan, m, l, stuck)
    decreases m - n
  {
    if n < m { BlockedStays(scan, n, m - 1, l, stuck); }
  }

  /** The scan keeps what it should, or fails exactly when a file that has to go cannot be removed. */
  method ScanDirectory(scan: seq<Found>, l: Limits, stuck: set<Key>) returns (ok: bool, kept: Discovered)
    ensures ok <==> !Blocked(scan, |scan|, l, stuck)
    ensures ok ==> kept == Scanned(scan, |scan|, l).0
  {
    kept := map[];
    var total := 0;
    for i := 0 to |scan|
      invariant (kept, total) == Scanned(scan, i, l) && !Blocked(scan, i, l, stuck)
    {
      ok := scan[i].key !in stuck;
      if Admissible(scan[i], l) {
        ok, kept, total := Shrink(kept[StampOf(scan[i]) := scan[i].bytes], SatAdd(total, scan[i].bytes), l, stuck);
      }
      if !ok {
        BlockedStays(scan, i + 1, |scan|, l, stuck);
        return;
      }
    }
    ok := true;
  }

  /** Shrinking keeps the latest files, never more than the file quota, and the total does not exceed
      their sum; an exact total stays exact and ends within the byte quota. */
  lemma {:induction false} ShrunkKeepsLatest(d: Discovered, total: nat, l: Limits, seen: Discovered)
    requires KeepsLatest(d, seen) && total <= Sum(d)
    ensures var (d', total') := Shrunk(d, total, l);
            && KeepsLatest(d', seen) && |d'| <= l.maxFiles && total' <= Sum(d')
            && (total == Sum(d) ==> total' == Sum(d') <= l.maxBytes)
    decreases |d|
  {
    if d == map[] {
    } else if !(|d| <= l.maxFiles && total <= l.maxBytes) {
      SumWithout(d, FirstOf(d));
      DropFirst(d, seen);
      ShrunkKeepsLatest(WithoutFirst(d), SatSub(total, d[FirstOf(d)]), l, seen);
    }
  }

  /** More of the latest files would not be within the quotas. */
  ghost predicate IsLargest(d: Discovered, seen: Discovered, l: Limits) {
    forall more :: KeepsLatest(more, seen) && |more| > |d| ==> !Within(more, l)
  }

  lemma LargestNext(d: Discovered, seen: Discovered, l: Limits)
    requires d != map[] && KeepsLatest(d, seen) && IsLargest(d, seen, l) && !Within(d, l)
    ensures IsLargest(WithoutFirst(d), seen, l)
  {
    forall more | KeepsLatest(more, seen) && |more| > |WithoutFirst(d)|
      ensures !Within(more, l)
    {
      if |more| == |d| { LatestUnique(more, d, seen); }
    }
  }

  /** With an exact total, shrinking stops as soon as both quotas hold. */
  lemma {:induction false} ShrunkIsLargest(d: Discovered, l: Limits, seen: Discovered)
    requires KeepsLatest(d, seen) && IsLargest(d, seen, l)
    ensures IsLargest(Shrunk(d, Sum(d), l).0, seen, l)
    decreases |d|
  {
    if d != map[] && !Within(d, l) {
      SumWithout(d, FirstOf(d));
      DropFirst(d, seen);
      LargestNext(d, seen, l);
      ShrunkIsLargest(WithoutFirst(d), l, seen);
    }
  }

  /** So it keeps the most of the latest files that respect both quotas. */
  lemma {:induction false} ShrinkKeepsMost(d: Discovered, l: Limits)
    ensures var d' := Shrunk(d, Sum(d), l).0; KeepsLatest(d', d) && Within(d', l) && IsLargest(d', d, l)
  {
    NoMoreThanAll(d);
    ShrunkKeepsLatest(d, Sum(d), l, d);
    ShrunkIsLargest(d, l, d);
  }

  /** A file of a latest collection that respects both quotas is not the one to go. */
  lemma FirstSpares(d: Discovered, newest: Discovered, seen: Discovered, l: Limits)
    requires d != map[] && KeepsSome(d, seen) && KeepsLatest(newest, seen) && Within(newest, l) && !Within(d, l)
    ensures FirstOf(d) !in newest
  {
    var x := FirstOf(d);
    if x in newest {
      forall y | y in d
        ensures y in newest && newest[y] == d[y]
      {
        EarlierOrders(x, y, x);
        if y != x { assert Earlier(x, y); }
      }
      assert d.Keys <= newest.Keys;
      SubsetSize(d.Keys, newest.Keys);
      SumMonotone(d, newest);
      assert false;
    }
  }

  lemma {:induction false} ShrunkSpares(d: Discovered, total: nat, l: Limits, newest: Discovered, seen: Discovered)
    requires KeepsSome(d, seen) && KeepsLatest(newest, seen) && Within(newest, l) && total <= Sum(d)
    ensures forall z :: z in d && z in newest ==> z in Shrunk(d, total, l).0
    decreases |d|
  {
    if d != map[] && !(|d| <= l.maxFiles && total <= l.maxBytes) {
      FirstSpares(d, newest, seen, l);
      SumWithout(d, FirstOf(d));
      ShrunkSpares(WithoutFirst(d), SatSub(total, d[FirstOf(d)]), l, newest, seen);
    }
  }

  // ---------------------------------------------------------------------------
  // What the scan keeps
  // ---------------------------------------------------------------------------

  /** The running total cannot saturate: by the limits, or because the directory is not that large. */
  ghost predicate Roomy(l: Limits, all: Discovered) {
    l.maxBytes + l.maxEntryBytes <= U64_MAX || Sum(all) <= U64_MAX
  }

  /** Where the scan stands after some of `all` has been seen. */
  ghost predicate Progress(kept: Discovered, total: nat, seen: Discovered, all: Discovered, l: Limits) {
    && KeepsSome(kept, seen) && |kept| <= l.maxFiles && total <= Sum(kept)
    && (Roomy(l, all) ==> total == Sum(kept) <= l.maxBytes)
    && (Within(Newest(all, l.maxFiles), l) ==> forall z :: z in Newest(all, l.maxFiles) && z in seen ==> z in kept)
  }

  lemma AdmitOne(kept: Discovered, total: nat, seen: Discovered, all: Discovered, l: Limits, x: Stamp, bytes: nat)
    requires Progress(kept, total, seen, all, l) && KeepsSome(seen[x := bytes], all) && x !in seen
    requires bytes <= l.maxEntryBytes
    ensures var (kept', total') := Shrunk(kept[x := bytes], SatAdd(total, bytes), l);
            Progress(kept', total', seen[x := bytes], all, l)
  {
    var more := kept[x := bytes];
    AddOne(kept, total, seen, all, l, x, bytes);
    ShrunkKeepsLatest(more, SatAdd(total, bytes), l, more);
    if Within(Newest(all, l.maxFiles), l) { SparesNext(kept, total, seen, all, l, x, bytes); }
  }

  lemma SparesNext(kept: Discovered, total: nat, seen: Discovered, all: Discovered, l: Limits, x: Stamp, bytes: nat)
    requires KeepsSome(kept[x := bytes], all) && SatAdd(total, bytes) <= Sum(kept[x := bytes])
    requires Within(Newest(all, l.maxFiles), l) && forall z :: z in Newest(all, l.maxFiles) && z in seen ==> z in kept
    ensures forall z :: z in Newest(all, l.maxFiles) && z in seen[x := bytes] ==>
              z in Shrunk(kept[x := bytes], SatAdd(total, bytes), l).0
  {
    NewestIsLatest(all, l.maxFiles, all);
    ShrunkSpares(kept[x := bytes], SatAdd(total, bytes), l, Newest(all, l.maxFiles), all);
  }

  lemma AddOne(kept: Discovered, total: nat, seen: Discovered, all: Discovered, l: Limits, x: Stamp, bytes: nat)
    requires Progress(kept, total, seen, all, l) && KeepsSome(seen[x := bytes], all) && x !in seen
    requires bytes <= l.maxEntryBytes
    ensures var more := kept[x := bytes];
            && KeepsSome(more, seen[x := bytes]) && KeepsSome(more, all) && KeepsLatest(more, more)
            && SatAdd(total, bytes) <= Sum(more) && (Roomy(l, all) ==> SatAdd(total, bytes) == Sum(more))
  {
    SumFresh(kept, x, bytes);
    SumMonotone(kept[x := bytes], all);
  }

  lemma NoMoreThanAll(d: Discovered)
    ensures KeepsLatest(d, d) && forall more :: KeepsLatest(more, d) ==> |more| <= |d|
  {
    forall more | KeepsLatest(more, d)
      ensures |more| <= |d|
    {
      assert more.Keys <= d.Keys;
      SubsetSize(more.Keys, d.Keys);
    }
  }

  lemma {:induction false} SeenGrows(scan: seq<Found>, n: nat, m: nat, l: Limits)
    requires n <= m <= |scan| && DistinctNames(scan)
    ensures KeepsSome(Seen(scan, n, l), Seen(scan, m, l))
    decreases m - n
  {
    if n < m {
      SeenGrows(scan, n, m - 1, l);
      if Admissible(scan[m - 1], l) && StampOf(scan[m - 1]) in Seen(scan, m - 1, l) {
        NextIsNew(scan, m - 1, l, StampOf(scan[m - 1]));
        assert false;
      }
    }
  }

  lemma NextUnseen(scan: seq<Found>, n: nat, l: Limits)
    requires n < |scan| && DistinctNames(scan)
    ensures StampOf(scan[n]) !in Seen(scan, n, l)
  {
    if StampOf(scan[n]) in Seen(scan, n, l) {
      NextIsNew(scan, n, l, StampOf(scan[n]));
      assert false;
    }
  }

  lemma ScanStep(scan: seq<Found>, n: nat, l: Limits, all: Discovered, kept: Discovered, total: nat)
    requires n < |scan| && DistinctNames(scan) && Scanned(scan, n, l) == (kept, total)
    requires Progress(kept, total, Seen(scan, n, l), all, l) && KeepsSome(Seen(scan, n + 1, l), all)
    ensures var (kept', total') := Scanned(scan, n + 1, l); Progress(kept', total', Seen(scan, n + 1, l), all, l)
  {
    var f := scan[n];
    if Admissible(f, l) {
      NextUnseen(scan, n, l);
      AdmitOne(kept, total, Seen(scan, n, l), all, l, StampOf(f), f.bytes);
    }
  }

  lemma ProgressStart(all: Discovered, l: Limits)
    ensures Progress(map[], 0, map[], all, l)
  {
  }

  lemma {:induction false} ScanProgressOf(scan: seq<Found>, n: nat, l: Limits, all: Discovered)
    requires n <= |scan| && DistinctNames(scan) && forall m :: 0 <= m <= |scan| ==> SeenIn(scan, m, l, all)
    ensures Standing(scan, n, l, all)
  {
    if n == 0 {
      StandingStart(scan, l, all);
    } else {
      ScanProgressOf(scan, n - 1, l, all);
      assert SeenIn(scan, n, l, all);
      StandingNext(scan, n - 1, l, all);
    }
  }

  ghost predicate SeenIn(scan: seq<Found>, m: nat, l: Limits, all: Discovered) {
    m <= |scan| && KeepsSome(Seen(scan, m, l), all)
  }

  ghost predicate Standing(scan: seq<Found>, n: nat, l: Limits, all: Discovered)
    requires n <= |scan|
  {
    Progress(Scanned(scan, n, l).0, Scanned(scan, n, l).1, Seen(scan, n, l), all, l)
  }

  lemma StandingStart(scan: seq<Found>, l: Limits, all: Discovered)
    ensures Standing(scan, 0, l, all)
  {
    ProgressStart(all, l);
  }

  lemma StandingNext(scan: seq<Found>, n: nat, l: Limits, all: Discovered)
    requires n < |scan| && DistinctNames(scan) && Standing(scan, n, l, all) && KeepsSome(Seen(scan, n + 1, l), all)
    ensures Standing(scan, n + 1, l, all)
  {
    ScanStep(scan, n, l, all, Scanned(scan, n, l).0, Scanned(scan, n, l).1);
  }

  lemma ScanProgress(scan: seq<Found>, n: nat, l: Limits)
    requires n <= |scan| && DistinctNames(scan)
    ensures var (kept, total) := Scanned(scan, n, l); Progress(kept, total, Seen(scan, n, l), Seen(scan, |scan|, l), l)
  {
    forall m | 0 <= m <= |scan| ensures SeenIn(scan, m, l, Seen(scan, |scan|, l)) {
      SeenGrows(scan, m, |scan|, l);
    }
    ScanProgressOf(scan, n, l, Seen(scan, |scan|, l));
  }

  /** Whatever the order of the listing, the scan keeps files that were there, within the file quota and,
      unless the total saturates, within the byte quota; and it keeps exactly the newest files, as many
      as the file quota allows, if and only if these fit the byte quota. */
  lemma {:induction false} KeepsNewestIff(scan: seq<Found>, l: Limits)
    requires DistinctNames(scan)
    ensures var kept, all := Scanned(scan, |scan|, l).0, Seen(scan, |scan|, l);
            var newest := Newest(all, l.maxFiles);
            && KeepsSome(kept, all) && |kept| <= l.maxFiles
            && (Roomy(l, all) ==> Sum(kept) <= l.maxBytes)
            && (Sum(newest) <= l.maxBytes ==> kept == newest)
            && (Roomy(l, all) ==> (kept == newest <==> Sum(newest) <= l.maxBytes))
            && KeepsLatest(newest, all) && |newest| == Smaller(|all|, l.maxFiles)
  {
    ScanProgress(scan, |scan|, l);
    var kept, all := Scanned(scan, |scan|, l).0, Seen(scan, |scan|, l);
    NewestIsLatest(all, l.maxFiles, all);
    if Sum(Newest(all, l.maxFiles)) <= l.maxBytes { AllSpared(kept, Newest(all, l.maxFiles), all, l); }
  }

  lemma AllSpared(kept: Discovered, newest: Discovered, all: Discovered, l: Limits)
    requires KeepsSome(kept, all) && KeepsLatest(newest, all) && |newest| == Smaller(|all|, l.maxFiles)
    requires |kept| <= l.maxFiles && forall z :: z in newest && z in all ==> z in kept
    ensures kept == newest
  {
    assert newest.Keys <= kept.Keys <= all.Keys;
    SubsetSize(kept.Keys, all.Keys);
    SubsetSize(newest.Keys, kept.Keys);
  }

  /** Some of the first `n` files is not kept and cannot be removed. */
  ghost predicate StuckOutside(scan: seq<Found>, n: nat, l: Limits, stuck: set<Key>)
    requires n <= |scan|
  {
    exists i :: 0 <= i < n && scan[i].key in stuck && StampOf(scan[i]) !in Scanned(scan, n, l).0
  }

  /** Startup is blocked exactly when some file it does not keep cannot be removed. */
  lemma {:induction false} BlockedIff(scan: seq<Found>, n: nat, l: Limits, stuck: set<Key>)
    requires n <= |scan| && DistinctNames(scan)
    ensures Blocked(scan, n, l, stuck) <==> StuckOutside(scan, n, l, stuck)
  {
    if n > 0 {
      BlockedIff(scan, n - 1, l, stuck);
      if StuckOutside(scan, n, l, stuck) { StuckBlocks(scan, n, l, stuck); }
      if StuckOutside(scan, n - 1, l, stuck) { StillDropped(scan, n, l, stuck); }
      if BlockedAt(scan, n - 1, l, stuck) {
        ScanKeepsSome(scan, n - 1, l);
        BlockedDrops(scan, n - 1, l, stuck);
      }
    }
  }

  lemma ScanKeepsSome(scan: seq<Found>, n: nat, l: Limits)
    requires n <= |scan| && DistinctNames(scan)
    ensures KeepsSome(Scanned(scan, n, l).0, Seen(scan, n, l))
  {
    ScanProgress(scan, n, l);
  }

  lemma StuckBlocks(scan: seq<Found>, n: nat, l: Limits, stuck: set<Key>)
    requires 0 < n <= |scan| && StuckOutside(scan, n, l, stuck)
    requires StuckOutside(scan, n - 1, l, stuck) ==> Blocked(scan, n - 1, l, stuck)
    ensures Blocked(scan, n, l, stuck)
  {
    var i :| 0 <= i < n && scan[i].key in stuck && StampOf(scan[i]) !in Scanned(scan, n, l).0;
    DroppedBlocks(scan, n, l, stuck, i);
  }

  lemma DroppedBlocks(scan: seq<Found>, n: nat, l: Limits, stuck: set<Key>, i: nat)
    requires i < n <= |scan| && scan[i].key in stuck && StampOf(scan[i]) !in Scanned(scan, n, l).0
    requires i < n - 1 && StampOf(scan[i]) !in Scanned(scan, n - 1, l).0 ==> Blocked(scan, n - 1, l, stuck)
    ensures Blocked(scan, n, l, stuck)
  {
  }

  lemma StillDropped(scan: seq<Found>, n: nat, l: Limits, stuck: set<Key>)
    requires 0 < n <= |scan| && DistinctNames(scan)
    requires StuckOutside(scan, n - 1, l, stuck)
    ensures StuckOutside(scan, n, l, stuck)
  {
    var i :| 0 <= i < n - 1 && scan[i].key in stuck && StampOf(scan[i]) !in Scanned(scan, n - 1, l).0;
    var (kept, total) := Scanned(scan, n - 1, l);
    var f := scan[n - 1];
    assert scan[i].key != f.key;
    if Admissible(f, l) { ShrunkKeys(kept[StampOf(f) := f.bytes], SatAdd(total, f.bytes), l); }
    assert StampOf(scan[i]) !in Scanned(scan, n, l).0;
  }

  lemma BlockedDrops(scan: seq<Found>, n: nat, l: Limits, stuck: set<Key>)
    requires n < |scan| && DistinctNames(scan) && BlockedAt(scan, n, l, stuck)
    requires KeepsSome(Scanned(scan, n, l).0, Seen(scan, n, l))
    ensures StuckOutside(scan, n + 1, l, stuck)
  {
    var f := scan[n];
    var (kept, total) := Scanned(scan, n, l);
    if Admissible(f, l) {
      var d := kept[StampOf(f) := f.bytes];
      var x :| x in d && x !in Shrunk(d, SatAdd(total, f.bytes), l).0 && x.key in stuck;
      if x == StampOf(f) {
        assert StampOf(scan[n]) == x;
      } else {
        SeenNames(scan, n, l, x);
        var i :| 0 <= i < n && StampOf(scan[i]) == x;
      }
    } else if StampOf(f) in kept {
      NextIsNew(scan, n, l, StampOf(f));
      assert false;
    }
  }

  // ---------------------------------------------------------------------------
  // When the newest do not fit
  // ---------------------------------------------------------------------------

  lemma ShrinkOnce(d: Discovered, total: nat, l: Limits, x: Stamp)
    requires x in d && (forall y :: y in d && y != x ==> Earlier(x, y)) && (|d| > l.maxFiles || total > l.maxBytes)
    ensures Shrunk(d, total, l) == Shrunk(d - {x}, SatSub(total, d[x]), l)
  {
    EarlierOrders(x, FirstOf(d), x);
    assert FirstOf(d) == x;
  }

  lemma NothingToShrink(d: Discovered, total: nat, l: Limits)
    requires |d| <= l.maxFiles && total <= l.maxBytes
    ensures Shrunk(d, total, l) == (d, total)
  {
  }

  lemma DropsOne(x: Stamp, y: Stamp, m: nat, n: nat, l: Limits)
    requires x.modified < y.modified && n <= l.maxBytes < m + n <= U64_MAX && 1 <= l.maxFiles
    ensures Shrunk(map[x := m][y := n], SatAdd(m, n), l) == (map[y := n], n)
  {
    Pair(x, y, m, n);
    DropsEarlier(map[x := m][y := n], x, y, m, n, l);
  }

  lemma DropsEarlier(d: Discovered, x: Stamp, y: Stamp, m: nat, n: nat, l: Limits)
    requires x in d && d[x] == m && d - {x} == map[y := n] && (forall z :: z in d && z != x ==> Earlier(x, z))
    requires n <= l.maxBytes < m + n && 1 <= l.maxFiles
    ensures Shrunk(d, m + n, l) == (map[y := n], n)
  {
    ShrinkOnce(d, m + n, l, x);
    DropsTo(d - {x}, y, n, l);
  }

  lemma DropsTo(d: Discovered, y: Stamp, n: nat, l: Limits)
    requires d == map[y := n] && n <= l.maxBytes && 1 <= l.maxFiles
    ensures Shrunk(d, n, l) == (d, n)
  {
    assert d.Keys == {y};
    NothingToShrink(d, n, l);
  }

  lemma Pair(x: Stamp, y: Stamp, m: nat, n: nat)
    requires x.modified < y.modified
    ensures var d: Discovered := map[x := m][y := n];
            && d - {x} == map[y := n] && x in d && d[x] == m && |map[y := n]| == 1
            && forall z :: z in d && z != x ==> Earlier(x, z)
  {
  }

  lemma ScanOne(scan: seq<Found>, n: nat, l: Limits, kept: Discovered, total: nat)
    requires n < |scan| && Scanned(scan, n, l) == (kept, total) && Admissible(scan[n], l)
    ensures Scanned(scan, n + 1, l) == Shrunk(kept[StampOf(scan[n]) := scan[n].bytes], SatAdd(total, scan[n].bytes), l)
  {
  }

  const OLD := Found("a", 5, 1, true)
  const MIDDLE := Found("b", 10, 2, true)
  const NEW := Found("c", 6, 3, true)
  const ELEVEN := Limits(3, 11, 11)

  lemma OldestListedFirst()
    ensures Scanned([OLD, MIDDLE, NEW], 3, ELEVEN) == (map[StampOf(NEW) := 6], 6)
  {
    var scan := [OLD, MIDDLE, NEW];
    ScanOne(scan, 0, ELEVEN, map[], 0);
    NothingToShrink(map[StampOf(OLD) := 5], 5, ELEVEN);
    ScanOne(scan, 1, ELEVEN, map[StampOf(OLD) := 5], 5);
    DropsOne(StampOf(OLD), StampOf(MIDDLE), 5, 10, ELEVEN);
    ScanOne(scan, 2, ELEVEN, map[StampOf(MIDDLE) := 10], 10);
    DropsOne(StampOf(MIDDLE), StampOf(NEW), 10, 6, ELEVEN);
  }

  lemma OldestListedLast()
    ensures Scanned([MIDDLE, NEW, OLD], 3, ELEVEN) == (map[StampOf(NEW) := 6][StampOf(OLD) := 5], 11)
  {
    var scan := [MIDDLE, NEW, OLD];
    ScanOne(scan, 0, ELEVEN, map[], 0);
    NothingToShrink(map[StampOf(MIDDLE) := 10], 10, ELEVEN);
    ScanOne(scan, 1, ELEVEN, map[StampOf(MIDDLE) := 10], 10);
    DropsOne(StampOf(MIDDLE), StampOf(NEW), 10, 6, ELEVEN);
    ScanOne(scan, 2, ELEVEN, map[StampOf(NEW) := 6], 6);
    var both: Discovered := map[StampOf(NEW) := 6][StampOf(OLD) := 5];
    assert both.Keys == {StampOf(NEW), StampOf(OLD)};
    NothingToShrink(both, 11, ELEVEN);
  }

  /** Then the outcome depends on the order of the listing: of the same three files with a byte quota of
      11, one order leaves the newest only, another the oldest too. */
  lemma ListingOrderMatters() returns (first: seq<Found>, last: seq<Found>, n: nat)
    ensures |first| == |last| == n && Seen(first, n, ELEVEN) == Seen(last, n, ELEVEN)
    ensures StampOf(OLD) !in Scanned(first, n, ELEVEN).0 && StampOf(OLD) in Scanned(last, n, ELEVEN).0
  {
    first, last, n := [OLD, MIDDLE, NEW], [MIDDLE, NEW, OLD], 3;
    OldestListedFirst();
    OldestListedLast();
    SameFiles(OLD, MIDDLE, NEW, ELEVEN);
  }

  const HUGE := U64_MAX - 1

  /** Where the running total saturates, the scan can keep the newest although they exceed the byte
      quota: two files of 2^64 - 2 bytes under a quota of 2^64 - 1. */
  lemma SaturatedScanKeepsTooMuch() returns (scan: seq<Found>, l: Limits)
    ensures DistinctNames(scan) && |scan| == 2 && l.maxBytes == U64_MAX
    ensures |Scanned(scan, 2, l).0| == 2 && Sum(Scanned(scan, 2, l).0) > l.maxBytes
  {
    scan, l := [Found("a", HUGE, 1, true), Found("b", HUGE, 2, true)], Limits(2, U64_MAX, U64_MAX);
    var a, b := StampOf(scan[0]), StampOf(scan[1]);
    var one: Discovered := map[a := HUGE];
    ScanOne(scan, 0, l, map[], 0);
    NothingToShrink(one, HUGE, l);
    ScanOne(scan, 1, l, one, HUGE);
    assert one[b := HUGE].Keys == {a, b};
    NothingToShrink(one[b := HUGE], U64_MAX, l);
    SumFresh(one, b, HUGE);
    SumFresh(map[], a, HUGE);
  }

  lemma SameFiles(a: Found, b: Found, c: Found, l: Limits)
    requires Admissible(a, l) && Admissible(b, l) && Admissible(c, l)
    requires a.modified < b.modified < c.modified
    ensures Seen([a, b, c], 3, l) == Seen([b, c, a], 3, l)
  {
    SeenThree([a, b, c], l);
    SeenThree([b, c, a], l);
  }

  lemma SeenThree(scan: seq<Found>, l: Limits)
    requires |scan| == 3 && Admissible(scan[0], l) && Admissible(scan[1], l) && Admissible(scan[2], l)
    ensures Seen(scan, 3, l) ==
            map[StampOf(scan[0]) := scan[0].bytes][StampOf(scan[1]) := scan[1].bytes][StampOf(scan[2]) := scan[2].bytes]
  {
    assert Seen(scan, 1, l) == map[StampOf(scan[0]) := scan[0].bytes];
    assert Seen(scan, 2, l) == map[StampOf(scan[0]) := scan[0].bytes][StampOf(scan[1]) := scan[1].bytes];
  }

  // ---------------------------------------------------------------------------
  // Seeding recency
  // ---------------------------------------------------------------------------

  ghost predicate OneStampPerKey(d: Discovered) {
    forall x, y :: x in d && y in d && x.key == y.key ==> x == y
  }

  /** The index holds exactly the files in `done`, stamped in modification order, all stamps below `n`. */
  ghost predicate Seeded(entries: Entries, done: Discovered, n: nat) {
    && (forall x :: x in done ==>
         x.key in entries && entries[x.key].bytes == done[x] && entries[x.key].modified == x.modified)
    && (forall k :: k in entries ==> Stamp(entries[k].modified, k) in done && entries[k].sequence < n)
    && (forall x, y :: x in done && y in done && Earlier(x, y) ==> entries[x.key].sequence < entries[y.key].sequence)
  }

  lemma SeedOne(entries: Entries, done: Discovered, n: nat, x: Stamp, bytes: nat)
    requires Seeded(entries, done, n) && x !in done && (forall y :: y in done ==> y.key != x.key && Earlier(y, x))
    ensures Seeded(entries[x.key := CacheEntry(bytes, x.modified, n)], done[x := bytes], n + 1)
    ensures x.key !in entries
  {
    EarlierOrders(x, x, x);
    forall y | y in done ensures !Earlier(x, y) { EarlierOrders(x, y, x); }
    assert x.key !in entries;
  }

  /** `done` and `left` share out `kept`. */
  ghost predicate Shares(kept: Discovered, done: Discovered, left: Discovered) {
    && (forall x :: x in kept <==> x in done || x in left)
    && (forall x :: x in done ==> x !in left && done[x] == kept[x])
    && (forall x :: x in left ==> left[x] == kept[x])
  }

  ghost predicate InOrder(done: Discovered, left: Discovered) {
    forall x, y :: x in done && y in left ==> Earlier(x, y)
  }

  lemma MoveOne(kept: Discovered, done: Discovered, left: Discovered, x: Stamp)
    requires Shares(kept, done, left) && InOrder(done, left) && IsLeast(Earlier, left.Keys, x)
    ensures Shares(kept, done[x := left[x]], left - {x})
    ensures InOrder(done[x := left[x]], left - {x})
  {
    forall a, b | a in done[x := left[x]] && b in left - {x}
      ensures Earlier(a, b)
    {
      assert b in left.Keys;
    }
  }

  lemma SharedKeys(kept: Discovered, done: Discovered, left: Discovered, x: Stamp)
    requires Shares(kept, done, left) && InOrder(done, left) && x in left && OneStampPerKey(kept)
    ensures x !in done && |done| < |kept| && |done[x := left[x]]| == |done| + 1 && |left - {x}| < |left|
    ensures forall y :: y in done ==> y.key != x.key && Earlier(y, x)
  {
    assert x in kept;
    forall y | y in done ensures y.key != x.key { assert y in kept; }
    assert done.Keys < kept.Keys;
    SubsetSize(done.Keys, kept.Keys);
    assert done[x := left[x]].Keys == done.Keys + {x};
    assert (left - {x}).Keys == left.Keys - {x};
  }

  lemma SharedSum(kept: Discovered, done: Discovered, left: Discovered, x: Stamp)
    requires Shares(kept, done, left) && x in left
    ensures Sum(done[x := left[x]]) == Sum(done) + left[x] <= Sum(kept)
  {
    SumFresh(done, x, left[x]);
    SumMonotone(done[x := left[x]], kept);
  }

  lemma NewEntry(entries: Entries, k: Key, e: CacheEntry)
    requires k !in entries
    ensures entries - {k} == entries && |entries[k := e]| == |entries| + 1
    ensures Total(entries[k := e]) == Total(entries) + e.bytes
  {
    assert entries - {k} == entries;
    TotalWith(entries, k, e);
    assert entries[k := e].Keys == entries.Keys + {k};
  }

  lemma AllDone(kept: Discovered, done: Discovered)
    requires Shares(kept, done, map[])
    ensures done == kept
  {
  }

  /** The index holds exactly `done`, recorded in modification order, with the exact total if that fits. */
  ghost predicate Holds(meta: CacheMetadata, done: Discovered)
    reads meta
  {
    && meta.Mirrored() && meta.nextSequence == |done| && Mirrors(meta.entries, done)
    && (Sum(done) <= U64_MAX ==> meta.Valid())
  }

  ghost predicate Mirrors(entries: Entries, done: Discovered) {
    |entries| == |done| && Seeded(entries, done, |done|) && Total(entries) == Sum(done)
  }

  lemma MirrorsNext(entries: Entries, done: Discovered, x: Stamp, bytes: nat)
    requires Mirrors(entries, done) && x !in done && (forall y :: y in done ==> y.key != x.key && Earlier(y, x))
    requires |done[x := bytes]| == |done| + 1 && Sum(done[x := bytes]) == Sum(done) + bytes
    ensures Mirrors(entries[x.key := CacheEntry(bytes, x.modified, |done|)], done[x := bytes])
    ensures entries - {x.key} == entries
  {
    SeedOne(entries, done, |done|, x, bytes);
    NewEntry(entries, x.key, CacheEntry(bytes, x.modified, |done|));
  }

  /** The step from one file to the next, on values alone. */
  lemma Advance(kept: Discovered, done: Discovered, left: Discovered, x: Stamp)
    requires Shares(kept, done, left) && InOrder(done, left) && IsLeast(Earlier, left.Keys, x) && OneStampPerKey(kept)
    ensures Shares(kept, done[x := left[x]], left - {x}) && InOrder(done[x := left[x]], left - {x})
    ensures x !in done && |done| < |kept| && |done[x := left[x]]| == |done| + 1 && |left - {x}| < |left|
    ensures forall y :: y in done ==> y.key != x.key && Earlier(y, x)
    ensures Sum(done[x := left[x]]) == Sum(done) + left[x] <= Sum(kept)
  {
    SharedKeys(kept, done, left, x);
    SharedSum(kept, done, left, x);
    MoveOne(kept, done, left, x);
  }

  /** Records the earliest file left. */
  method SeedNext(meta: CacheMetadata, kept: Discovered, ghost done: Discovered, left: Discovered)
    returns (ghost done': Discovered, left': Discovered)
    requires OneStampPerKey(kept) && |kept| <= U64_MAX
    requires Holds(meta, done) && Shares(kept, done, left) && InOrder(done, left) && left != map[]
    modifies meta
    ensures Holds(meta, done') && Shares(kept, done', left') && InOrder(done', left') && |left'| < |left|
  {
    var x := FirstOf(left);
    Advance(kept, done, left, x);
    MirrorsNext(meta.entries, done, x, left[x]);
    meta.Insert(x.key, left[x], x.modified);
    done', left' := done[x := left[x]], left - {x};
  }

  /** The LRU order of the fresh index is the modification order of the files. */
  method SeedIndex(kept: Discovered) returns (meta: CacheMetadata)
    requires OneStampPerKey(kept) && |kept| <= U64_MAX
    ensures fresh(meta) && Holds(meta, kept)
  {
    meta := new CacheMetadata();
    assert BytesOf(meta.entries) == map[];
    var left := kept;
    ghost var done: Discovered := map[];
    while left != map[]
      invariant fresh(meta) && Holds(meta, done)
      invariant Shares(kept, done, left) && InOrder(done, left)
      decreases |left|
    {
      done, left := SeedNext(meta, kept, done, left);
    }
    AllDone(kept, done);
  }

  lemma NamesAreDistinct(scan: seq<Found>, l: Limits, kept: Discovered)
    requires DistinctNames(scan) && KeepsSome(kept, Seen(scan, |scan|, l))
    ensures OneStampPerKey(kept)
  {
    forall x, y | x in kept && y in kept && x.key == y.key
      ensures x == y
    {
      SeenNames(scan, |scan|, l, x);
      SeenNames(scan, |scan|, l, y);
    }
  }

  /** The files the scan leaves in the directory, under their names. */
  ghost predicate LeftBehind(files: map<Key, nat>, kept: Discovered) {
    forall k :: k in files ==> exists x :: x in kept && x.key == k && kept[x] == files[k]
  }

  /** What is left in the directory is what the index says. */
  lemma StartsIndexed(files: map<Key, nat>, entries: Entries, kept: Discovered)
    requires LeftBehind(files, kept) && Seeded(entries, kept, |kept|)
    ensures Indexed(files, entries)
  {
  }

  /** Startup fails exactly when a file that has to go cannot be removed.  Otherwise the index mirrors the
      kept files in modification order, within the file quota and, unless the total saturates, within the
      byte quota with the exact total. */
  method LoadCacheMetadata(scan: seq<Found>, l: Limits, stuck: set<Key>)
    returns (ok: bool, meta: CacheMetadata, ghost kept: Discovered)
    requires DistinctNames(scan) && 1 <= l.maxFiles <= U64_MAX && l.maxBytes <= U64_MAX
    ensures ok <==> !Blocked(scan, |scan|, l, stuck)
    ensures fresh(meta)
    ensures ok ==> kept == Scanned(scan, |scan|, l).0 && Holds(meta, kept) && |meta.entries| <= l.maxFiles
    ensures ok && Roomy(l, Seen(scan, |scan|, l)) ==> meta.Valid() && Total(meta.entries) <= l.maxBytes
  {
    var found;
    ok, found := ScanDirectory(scan, l, stuck);
    kept := found;
    if !ok {
      meta := new CacheMetadata();
      return;
    }
    KeepsNewestIff(scan, l);
    NamesAreDistinct(scan, l, found);
    meta := SeedIndex(found);
  }

  /** Opening fails exactly when the startup does.  A cache opened over the files the scan left has
      nothing unindexed in its directory, and unless the total saturates it is valid and its quotas hold
      on disk from the start. */
  method Open(scan: seq<Found>, l: Limits, ttl: nat, stuck: set<Key>, files: map<Key, nat>)
    returns (cache: Option<ImageTransformCache>)
    requires DistinctNames(scan) && 1 <= l.maxFiles <= U64_MAX && 1 <= l.maxBytes <= U64_MAX
    requires LeftBehind(files, Scanned(scan, |scan|, l).0)
    ensures cache.None? <==> Blocked(scan, |scan|, l, stuck)
    ensures cache.Some? ==>
      var c := cache.value;
      && fresh(c) && c.files == files && Indexed(files, c.meta.entries) && |files| <= l.maxFiles
      && (Roomy(l, Seen(scan, |scan|, l)) ==> c.Valid() && Sum(files) <= l.maxBytes)
  {
    var ok, meta, kept := LoadCacheMetadata(scan, l, stuck);
    if !ok { return None; }
    StartsIndexed(files, meta.entries, kept);
    DiskIsIndexed(files, meta.entries);
    var c := new ImageTransformCache(l, ttl, meta, files);
    cache := Some(c);
  }
}
