/** What loads, reads and writes of the caches get done when nothing overtakes them. */
module CacheProgress {
  import opened CacheProtocol

  ghost predicate Moves(s: State, a: Step, t: State) { Enabled(s, a) && t == Apply(s, a) }

  /** Each step of `steps` leads from one state of `path` to the next. */
  ghost predicate IsPath(path: seq<State>, steps: seq<Step>) {
    |path| == |steps| + 1 && forall i :: 0 <= i < |steps| ==> Moves(path[i], steps[i], path[i + 1])
  }

  // ---------------------------------------------------------------------------
  // Loading
  // ---------------------------------------------------------------------------

  lemma Fetches(s: State, tid: Tid, k: Key) returns (s1: State, s2: State, s3: State)
    requires !At(s, tid) && s.lock == Free && History(s, k) != []
    ensures Moves(s, Capture(tid, k), s1) && Moves(s1, ReadStore(tid), s2) && Moves(s2, LockLoad(tid), s3)
    ensures var h := History(s, k);
            s3 == s.(procs := s.procs[tid := LoadLocked(k, Stamped(h[|h| - 1], |h|, s.generation))],
                     lock := HeldBy(tid))
  {
    s1 := Apply(s, Capture(tid, k));
    s2 := Apply(s1, ReadStore(tid));
    s3 := Apply(s2, LockLoad(tid));
    var h := History(s, k);
    assert s3.procs == s.procs[tid := LoadLocked(k, Stamped(h[|h| - 1], |h|, s.generation))];
  }

  lemma Inserts(s: State, tid: Tid, k: Key, e: Stamped, evict: set<Key>) returns (s1: State, s2: State, s3: State)
    requires At(s, tid) && s.procs[tid] == LoadLocked(k, e) && e.generation == s.generation
    ensures Moves(s, CheckLoad(tid), s1) && Moves(s1, MakeRoom(tid, evict), s2) && Moves(s2, Insert(tid), s3)
    ensures s3 == s.(procs := s.procs[tid := LoadInserted(k, e)], cache := (s.cache - evict)[k := e])
  {
    s1 := Apply(s, CheckLoad(tid));
    s2 := Apply(s1, MakeRoom(tid, evict));
    s3 := Apply(s2, Insert(tid));
    assert s3.procs == s.procs[tid := LoadInserted(k, e)];
  }

  /** A load nothing overtakes leaves the store's latest value in the cache, stamped with the current
      generation, drops what it evicted, and changes nothing else. */
  lemma LoadCompletes(s: State, tid: Tid, k: Key, evict: set<Key>) returns (path: seq<State>)
    requires !At(s, tid) && s.lock == Free && History(s, k) != []
    ensures IsPath(path, [Capture(tid, k), ReadStore(tid), LockLoad(tid), CheckLoad(tid), MakeRoom(tid, evict),
                          Insert(tid), FinishLoad(tid)])
    ensures path[0] == s
    ensures var h := History(s, k);
            path[7] == s.(cache := (s.cache - evict)[k := Stamped(h[|h| - 1], |h|, s.generation)])
  {
    var h := History(s, k);
    var e := Stamped(h[|h| - 1], |h|, s.generation);
    var s1, s2, s3 := Fetches(s, tid, k);
    var s4, s5, s6 := Inserts(s3, tid, k, e, evict);
    var s7 := s.(cache := (s.cache - evict)[k := e]);
    Finishes(s6, tid, k, e, s7);
    path := [s, s1, s2, s3, s4, s5, s6, s7];
  }

  lemma Finishes(s: State, tid: Tid, k: Key, e: Stamped, t: State)
    requires At(s, tid) && s.procs[tid] == LoadInserted(k, e) && e.generation == s.generation
    requires tid !in t.procs && s == t.(procs := t.procs[tid := LoadInserted(k, e)], lock := HeldBy(tid))
    requires t.lock == Free
    ensures Moves(s, FinishLoad(tid), t)
  {
    assert s.procs - {tid} == t.procs;
  }

  /** An insert that an invalidation overtook is taken out again before the lock is given up. */
  lemma OvertakenIsWithdrawn(s: State, tid: Tid, k: Key, e: Stamped) returns (t: State)
    requires At(s, tid) && s.procs[tid] == LoadInserted(k, e) && e.generation != s.generation
    requires k in s.cache && s.cache[k] == e
    ensures Moves(s, FinishLoad(tid), t)
    ensures t == s.(cache := s.cache - {k}, procs := s.procs - {tid}, lock := Free)
  {
    t := Apply(s, FinishLoad(tid));
  }

  /** A load overtaken before it took the lock, or before its check, ends without inserting. */
  lemma OvertakenGivesUp(s: State, tid: Tid, k: Key, e: Stamped)
    requires At(s, tid) && e.generation != s.generation
    ensures s.procs[tid] == LoadRead(k, e) ==> Moves(s, GiveUpLoad(tid), s.(procs := s.procs - {tid}))
    ensures s.procs[tid] == LoadLocked(k, e) ==>
              Moves(s, FinishLoad(tid), s.(procs := s.procs - {tid}, lock := Free)) && !Enabled(s, CheckLoad(tid))
  {
  }

  // ---------------------------------------------------------------------------
  // Reading
  // ---------------------------------------------------------------------------

  /** A reader nothing overtakes gets the entry of the current generation, and changes nothing. */
  lemma HitCompletes(s: State, tid: Tid, k: Key) returns (path: seq<State>)
    requires !At(s, tid) && k in s.cache && s.cache[k].generation == s.generation
    ensures IsPath(path, [PinEntry(tid, k), CopyEntry(tid), ReturnHit(tid)]) && path[0] == path[3] == s
    ensures path[2].procs == s.procs[tid := GetCopied(k, s.cache[k])]
  {
    var s1 := Apply(s, PinEntry(tid, k));
    var s2 := Apply(s1, CopyEntry(tid));
    assert s2.procs == s.procs[tid := GetCopied(k, s.cache[k])] && s2.procs - {tid} == s.procs;
    assert Moves(s2, ReturnHit(tid), s) && Moves(s, PinEntry(tid, k), s1) && Moves(s1, CopyEntry(tid), s2);
    path := [s, s1, s2, s];
  }

  /** An entry of an older generation is never copied: its reader can only miss. */
  lemma StaleMisses(s: State, tid: Tid, k: Key)
    requires !At(s, tid) && k in s.cache && s.cache[k].generation != s.generation
    ensures Enabled(s, PinEntry(tid, k))
    ensures var t := Apply(s, PinEntry(tid, k)); !Enabled(t, CopyEntry(tid)) && Enabled(t, ReturnMiss(tid))
  {
  }

  // ---------------------------------------------------------------------------
  // Writing
  // ---------------------------------------------------------------------------

  lemma Commits(s: State, tid: Tid, k: Key, v: Value) returns (t: State)
    requires !At(s, tid)
    ensures Moves(s, Commit(tid, map[k := v]), t)
    ensures t.procs == s.procs[tid := WriteCommitted(map[k := |History(s, k)| + 1])]
    ensures History(t, k) == History(s, k) + [v] && forall j :: j != k ==> History(t, j) == History(s, j)
    ensures t.cache == s.cache && t.generation == s.generation && t.lock == s.lock && t.acked == s.acked
  {
    t := Apply(s, Commit(tid, map[k := v]));
    assert t.procs[tid].versions == map[k := |History(s, k)| + 1];
  }

  lemma Begins(s: State, tid: Tid, k: Key, version: nat) returns (t: State)
    requires At(s, tid) && s.procs[tid] == WriteCommitted(map[k := version]) && Acked(s, k) <= version
    ensures Moves(s, BeginInvalidation(tid), t)
    ensures t.procs == s.procs[tid := Invalidating({k})] && t.generation == s.generation + 1
    ensures Acked(t, k) == version && forall j :: j != k ==> Acked(t, j) == Acked(s, j)
    ensures t.store == s.store && t.cache == s.cache && t.lock == s.lock
  {
    t := Apply(s, BeginInvalidation(tid));
    assert s.procs[tid].versions.Keys == {k};
  }

  lemma Removes(s: State, tid: Tid, k: Key) returns (s1: State, s2: State, t: State)
    requires At(s, tid) && s.procs[tid] == Invalidating({k}) && s.lock == Free
    ensures Moves(s, LockInvalidation(tid), s1) && Moves(s1, RemoveEntry(tid, k), s2)
    ensures Moves(s2, EndInvalidation(tid), t)
    ensures t == s.(procs := s.procs - {tid}, cache := s.cache - {k})
  {
    s1 := Apply(s, LockInvalidation(tid));
    s2 := Apply(s1, RemoveEntry(tid, k));
    t := Apply(s2, EndInvalidation(tid));
  }

  /** The value is the latest of `k` in the store and acknowledged, and other keys are as they were. */
  ghost predicate Wrote(s: State, t: State, k: Key, v: Value) {
    && History(t, k) == History(s, k) + [v] && Acked(t, k) == |History(t, k)|
    && forall j :: j != k ==> History(t, j) == History(s, j) && Acked(t, j) == Acked(s, j)
  }

  lemma Acknowledges(s: State, tid: Tid, k: Key, v: Value) returns (s1: State, t: State)
    requires !At(s, tid) && Acked(s, k) <= |History(s, k)|
    ensures Moves(s, Commit(tid, map[k := v]), s1) && Moves(s1, BeginInvalidation(tid), t)
    ensures t.procs == s.procs[tid := Invalidating({k})] && t.cache == s.cache && t.lock == s.lock
    ensures Wrote(s, t, k, v) && t.generation == s.generation + 1
  {
    s1 := Commits(s, tid, k, v);
    t := Begins(s1, tid, k, |History(s, k)| + 1);
    assert forall j :: History(t, j) == History(s1, j) && Acked(s1, j) == Acked(s, j);
  }

  /** A write nothing overtakes is the store's latest value and acknowledged, its cached entry is gone and
      every other one is stale. */
  lemma WriteCompletes(s: State, tid: Tid, k: Key, v: Value) returns (path: seq<State>, t: State)
    requires Inv(s) && !At(s, tid) && s.lock == Free
    ensures IsPath(path, [Commit(tid, map[k := v]), BeginInvalidation(tid), LockInvalidation(tid),
                          RemoveEntry(tid, k), EndInvalidation(tid)])
    ensures path[0] == s && path[5] == t
    ensures Wrote(s, t, k, v) && t.cache == s.cache - {k} && t.procs == s.procs && t.lock == Free
    ensures t.generation == s.generation + 1 && forall j :: j in t.cache ==> t.cache[j].generation < t.generation
  {
    forall j | j in s.cache ensures s.cache[j].generation <= s.generation { assert Honest(s, j, s.cache[j]); }
    assert Acked(s, k) <= |History(s, k)|;
    path, t := WriteEnds(s, tid, k, v);
  }

  lemma WriteEnds(s: State, tid: Tid, k: Key, v: Value) returns (path: seq<State>, t: State)
    requires !At(s, tid) && s.lock == Free && Acked(s, k) <= |History(s, k)|
    ensures IsPath(path, [Commit(tid, map[k := v]), BeginInvalidation(tid), LockInvalidation(tid),
                          RemoveEntry(tid, k), EndInvalidation(tid)])
    ensures path[0] == s && path[5] == t && t.generation == s.generation + 1
    ensures Wrote(s, t, k, v) && t.cache == s.cache - {k} && t.procs == s.procs && t.lock == Free
  {
    var s1, s2 := Acknowledges(s, tid, k, v);
    var s3, s4, s5 := Removes(s2, tid, k);
    WroteStays(s, s2, s5, k, v);
    assert s5.procs == s.procs;
    path, t := [s, s1, s2, s3, s4, s5], s5;
    IsPathOfFive(path, [Commit(tid, map[k := v]), BeginInvalidation(tid), LockInvalidation(tid),
                        RemoveEntry(tid, k), EndInvalidation(tid)]);
  }

  lemma IsPathOfFive(path: seq<State>, steps: seq<Step>)
    requires |path| == 6 && |steps| == 5 && Moves(path[0], steps[0], path[1]) && Moves(path[1], steps[1], path[2])
    requires Moves(path[2], steps[2], path[3]) && Moves(path[3], steps[3], path[4])
    requires Moves(path[4], steps[4], path[5])
    ensures IsPath(path, steps)
  {
  }

  lemma WroteStays(s: State, t: State, u: State, k: Key, v: Value)
    requires Wrote(s, t, k, v) && u.store == t.store && u.acked == t.acked
    ensures Wrote(s, u, k, v)
  {
    assert forall j :: History(u, j) == History(t, j) && Acked(u, j) == Acked(t, j);
  }

  // ---------------------------------------------------------------------------
  // The mutation lock
  // ---------------------------------------------------------------------------

  /** A load between taking the lock and giving it up. */
  predicate Holding(p: Proc) { p.LoadLocked? || p.LoadChecked? || p.LoadInserted? }

  ghost predicate LockInv(s: State) {
    forall tid :: tid in s.procs && Holding(s.procs[tid]) ==> s.lock == HeldBy(tid)
  }

  lemma StepLockInv(s: State, a: Step)
    requires LockInv(s) && Enabled(s, a)
    ensures LockInv(Apply(s, a))
  {
  }

  lemma {:induction false} RunLockInv(run: seq<State>, i: nat)
    requires IsRun(run) && i < |run|
    ensures LockInv(run[i])
  {
    if i > 0 {
      RunLockInv(run, i - 1);
      assert Linked(run, i - 1);
      var a :| Enabled(run[i - 1], a) && run[i] == Apply(run[i - 1], a);
      StepLockInv(run[i - 1], a);
    }
  }

  /** In every run the cache changes only under the lock of whoever changes it, and the lock passes only
      from its holder: it is taken when free and given up by the one who took it. */
  lemma LockIsExclusive(run: seq<State>, i: nat, a: Step)
    requires IsRun(run) && Took(run, i, a) && !a.Expire?
    ensures run[i + 1].cache != run[i].cache ==> run[i].lock == HeldBy(a.tid)
    ensures run[i + 1].lock != run[i].lock ==> run[i].lock == Free || run[i].lock == HeldBy(a.tid)
  {
    RunLockInv(run, i);
  }
}
