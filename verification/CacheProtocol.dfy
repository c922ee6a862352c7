/** The invalidation protocol of the API-key and balance caches, over every interleaving.

    A loader captures the generation, reads the store, takes the lock, checks that the generation has
    not moved, makes room and inserts; invalidations may begin between any two of these, and an insert
    they overtook is withdrawn before the lock is given up.  A writer commits to the store, then bumps
    the generation, then removes entries.  A reader compares an entry's generation with the current one
    twice, before and after copying. */
module CacheProtocol {

  type Key = string
  type Value = string
  type Tid = nat

  /** `version` counts the committed writes the value reflects. */
  datatype Stamped = Stamped(value: Value, version: nat, generation: nat)

  datatype Proc =
    | LoadCaptured(key: Key, generation: nat)
    | LoadRead(key: Key, entry: Stamped)
    | LoadLocked(key: Key, entry: Stamped)
    | LoadChecked(key: Key, entry: Stamped)
    | LoadInserted(key: Key, entry: Stamped)
    | GetPinned(key: Key, entry: Stamped)
    | GetCopied(key: Key, entry: Stamped)
    | WriteCommitted(versions: map<Key, nat>)
    | Invalidating(keys: set<Key>)

  datatype Lock = Free | HeldBy(owner: Tid)

  datatype State = State(
    store: map<Key, seq<Value>>,
    cache: map<Key, Stamped>,
    generation: nat,
    lock: Lock,
    procs: map<Tid, Proc>,
    acked: map<Key, nat>)

  datatype Step =
    | Commit(tid: Tid, writes: map<Key, Value>)
    | BeginInvalidation(tid: Tid)
    | LockInvalidation(tid: Tid)
    | RemoveEntry(tid: Tid, key: Key)
    | EndInvalidation(tid: Tid)
    | Capture(tid: Tid, key: Key)
    | ReadStore(tid: Tid)
    | GiveUpLoad(tid: Tid)
    | LockLoad(tid: Tid)
    | CheckLoad(tid: Tid)
    | MakeRoom(tid: Tid, evict: set<Key>)
    | Insert(tid: Tid)
    | FinishLoad(tid: Tid)
    | PinEntry(tid: Tid, key: Key)
    | CopyEntry(tid: Tid)
    | ReturnHit(tid: Tid)
    | ReturnMiss(tid: Tid)
    | Expire(keys: set<Key>)

  function History(s: State, k: Key): seq<Value> { if k in s.store then s.store[k] else [] }

  function Acked(s: State, k: Key): nat { if k in s.acked then s.acked[k] else 0 }

  function Max(a: nat, b: nat): nat { if a <= b then b else a }

  function Leave(s: State, tid: Tid): State { s.(procs := s.procs - {tid}) }

  function Enter(s: State, tid: Tid, p: Proc): State { s.(procs := s.procs[tid := p]) }

  function Unlock(s: State): State { s.(lock := Free) }

  predicate At(s: State, tid: Tid) { tid in s.procs }

  predicate Enabled(s: State, a: Step) {
    match a
    case Commit(tid, _) => !At(s, tid)
    case BeginInvalidation(tid) => At(s, tid) && s.procs[tid].WriteCommitted?
    case LockInvalidation(tid) => At(s, tid) && s.procs[tid].Invalidating? && s.lock == Free
    case RemoveEntry(tid, k) => At(s, tid) && s.procs[tid].Invalidating? && s.lock == HeldBy(tid)
    case EndInvalidation(tid) => At(s, tid) && s.procs[tid].Invalidating? && s.lock == HeldBy(tid)
    case Capture(tid, _) => !At(s, tid)
    case ReadStore(tid) => At(s, tid) && s.procs[tid].LoadCaptured? && History(s, s.procs[tid].key) != []
    case GiveUpLoad(tid) =>
      At(s, tid) && (s.procs[tid].LoadCaptured?
                     || (s.procs[tid].LoadRead? && s.procs[tid].entry.generation != s.generation))
    case LockLoad(tid) => At(s, tid) && s.procs[tid].LoadRead? && s.lock == Free
    case CheckLoad(tid) => At(s, tid) && s.procs[tid].LoadLocked? && s.procs[tid].entry.generation == s.generation
    case MakeRoom(tid, _) => At(s, tid) && s.procs[tid].LoadChecked?
    case Insert(tid) => At(s, tid) && s.procs[tid].LoadChecked?
    case FinishLoad(tid) =>
      At(s, tid) && (s.procs[tid].LoadInserted?
                     || (s.procs[tid].LoadLocked? && s.procs[tid].entry.generation != s.generation))
    case PinEntry(tid, k) => !At(s, tid) && k in s.cache
    case CopyEntry(tid) => At(s, tid) && s.procs[tid].GetPinned? && s.procs[tid].entry.generation == s.generation
    case ReturnHit(tid) => At(s, tid) && s.procs[tid].GetCopied? && s.procs[tid].entry.generation == s.generation
    case ReturnMiss(tid) =>
      At(s, tid) && (s.procs[tid].GetPinned?
                     || (s.procs[tid].GetCopied? && s.procs[tid].entry.generation != s.generation))
    case Expire(_) => s.lock == Free
  }

  function Apply(s: State, a: Step): State
    requires Enabled(s, a)
  {
    match a
    case Commit(tid, writes) =>
      var store := map k | k in s.store.Keys + writes.Keys ::
        if k in writes then History(s, k) + [writes[k]] else History(s, k);
      Enter(s.(store := store), tid, WriteCommitted(map k | k in writes :: |History(s, k)| + 1))
    case BeginInvalidation(tid) =>
      var versions := s.procs[tid].versions;
      var acked := map k | k in s.acked.Keys + versions.Keys ::
        if k in versions then Max(Acked(s, k), versions[k]) else Acked(s, k);
      Enter(s.(generation := s.generation + 1, acked := acked), tid, Invalidating(versions.Keys))
    case LockInvalidation(tid) => s.(lock := HeldBy(tid))
    case RemoveEntry(tid, k) => s.(cache := s.cache - {k})
    case EndInvalidation(tid) => Unlock(Leave(s, tid))
    case Capture(tid, k) => Enter(s, tid, LoadCaptured(k, s.generation))
    case ReadStore(tid) =>
      var k := s.procs[tid].key;
      var h := History(s, k);
      Enter(s, tid, LoadRead(k, Stamped(h[|h| - 1], |h|, s.procs[tid].generation)))
    case GiveUpLoad(tid) => Leave(s, tid)
    case LockLoad(tid) => Enter(s, tid, LoadLocked(s.procs[tid].key, s.procs[tid].entry)).(lock := HeldBy(tid))
    case CheckLoad(tid) => Enter(s, tid, LoadChecked(s.procs[tid].key, s.procs[tid].entry))
    case MakeRoom(tid, evict) => s.(cache := s.cache - evict)
    case Insert(tid) =>
      var p := s.procs[tid];
      Enter(s, tid, LoadInserted(p.key, p.entry)).(cache := s.cache[p.key := p.entry])
    case FinishLoad(tid) =>
      var p := s.procs[tid];
      var stale := p.LoadInserted? && p.entry.generation != s.generation
                   && p.key in s.cache && s.cache[p.key].generation == p.entry.generation;
      Unlock(Leave(s.(cache := if stale then s.cache - {p.key} else s.cache), tid))
    case PinEntry(tid, k) => Enter(s, tid, GetPinned(k, s.cache[k]))
    case CopyEntry(tid) => Enter(s, tid, GetCopied(s.procs[tid].key, s.procs[tid].entry))
    case ReturnHit(tid) => Leave(s, tid)
    case ReturnMiss(tid) => Leave(s, tid)
    case Expire(keys) => s.(cache := s.cache - keys)
  }

  // ---------------------------------------------------------------------------
  // Invariant
  // ---------------------------------------------------------------------------

  /** A stamped value is what the store held after `version` writes, and while its generation is
      the current one it reflects every write whose invalidation has begun. */
  ghost predicate Honest(s: State, k: Key, e: Stamped) {
    && 0 < e.version <= |History(s, k)| && e.value == History(s, k)[e.version - 1]
    && e.generation <= s.generation
    && (e.generation == s.generation ==> Acked(s, k) <= e.version)
  }

  ghost predicate ProcOk(s: State, p: Proc) {
    match p
    case LoadCaptured(_, g) => g <= s.generation
    case LoadRead(k, e) => Honest(s, k, e)
    case LoadLocked(k, e) => Honest(s, k, e)
    case LoadChecked(k, e) => Honest(s, k, e)
    case LoadInserted(k, e) => Honest(s, k, e)
    case GetPinned(k, e) => Honest(s, k, e)
    case GetCopied(k, e) => Honest(s, k, e)
    case WriteCommitted(versions) => forall k :: k in versions ==> versions[k] <= |History(s, k)|
    case Invalidating(_) => true
  }

  ghost predicate Inv(s: State) {
    && (forall k :: Acked(s, k) <= |History(s, k)|)
    && (forall k :: k in s.cache ==> Honest(s, k, s.cache[k]))
    && (forall tid :: tid in s.procs ==> ProcOk(s, s.procs[tid]))
  }

  /** The store only grows, and acknowledgements change only together with the generation. */
  ghost predicate Advances(s: State, t: State) {
    && s.generation <= t.generation
    && (forall k :: History(s, k) <= History(t, k) && Acked(s, k) <= Acked(t, k))
    && (s.generation == t.generation ==> forall k :: Acked(s, k) == Acked(t, k))
  }

  lemma StepAdvances(s: State, a: Step)
    requires Enabled(s, a)
    ensures Advances(s, Apply(s, a))
  {
  }

  lemma HonestAdvances(s: State, t: State, k: Key, e: Stamped)
    requires Advances(s, t) && Honest(s, k, e)
    ensures Honest(t, k, e)
  {
    assert History(s, k) <= History(t, k);
  }

  lemma ProcAdvances(s: State, t: State, p: Proc)
    requires Advances(s, t) && ProcOk(s, p)
    ensures ProcOk(t, p)
  {
    match p
    case LoadCaptured(_, _) =>
    case LoadRead(k, e) => HonestAdvances(s, t, k, e);
    case LoadLocked(k, e) => HonestAdvances(s, t, k, e);
    case LoadChecked(k, e) => HonestAdvances(s, t, k, e);
    case LoadInserted(k, e) => HonestAdvances(s, t, k, e);
    case GetPinned(k, e) => HonestAdvances(s, t, k, e);
    case GetCopied(k, e) => HonestAdvances(s, t, k, e);
    case WriteCommitted(versions) => assert forall k :: k in versions ==> History(s, k) <= History(t, k);
    case Invalidating(_) =>
  }

  /** The store read is the step that earns the stamp: it happens after the capture, so if the
      generation is still the captured one, nothing acknowledged can be missing. */
  lemma ReadIsHonest(s: State, tid: Tid)
    requires Inv(s) && Enabled(s, ReadStore(tid))
    ensures var p := Apply(s, ReadStore(tid)).procs[tid]; p.LoadRead? && Honest(s, p.key, p.entry)
  {
    assert ProcOk(s, s.procs[tid]);
    assert Acked(s, s.procs[tid].key) <= |History(s, s.procs[tid].key)|;
  }

  lemma AckedStays(s: State, a: Step, k: Key)
    requires Inv(s) && Enabled(s, a)
    ensures Acked(Apply(s, a), k) <= |History(Apply(s, a), k)|
  {
    StepAdvances(s, a);
    assert Acked(s, k) <= |History(s, k)| && History(s, k) <= History(Apply(s, a), k);
    if a.BeginInvalidation? { assert ProcOk(s, s.procs[a.tid]); }
  }

  lemma CacheStays(s: State, a: Step, k: Key)
    requires Inv(s) && Enabled(s, a) && k in Apply(s, a).cache
    ensures Honest(Apply(s, a), k, Apply(s, a).cache[k])
  {
    StepAdvances(s, a);
    if k in s.cache { HonestAdvances(s, Apply(s, a), k, s.cache[k]); }
    if a.Insert? {
      assert ProcOk(s, s.procs[a.tid]);
      HonestAdvances(s, Apply(s, a), s.procs[a.tid].key, s.procs[a.tid].entry);
    }
  }

  lemma ProcStays(s: State, a: Step, tid: Tid)
    requires Inv(s) && Enabled(s, a) && tid in Apply(s, a).procs
    ensures ProcOk(Apply(s, a), Apply(s, a).procs[tid])
  {
    var t := Apply(s, a);
    StepAdvances(s, a);
    if tid in s.procs {
      assert ProcOk(s, s.procs[tid]);
      ProcAdvances(s, t, s.procs[tid]);
    }
    if a.ReadStore? { ReadIsHonest(s, a.tid); ProcAdvances(s, t, t.procs[a.tid]); }
    if a.PinEntry? { HonestAdvances(s, t, a.key, s.cache[a.key]); }
  }

  lemma StepInv(s: State, a: Step)
    requires Inv(s) && Enabled(s, a)
    ensures Inv(Apply(s, a))
  {
    var t := Apply(s, a);
    forall k ensures Acked(t, k) <= |History(t, k)| { AckedStays(s, a, k); }
    forall k | k in t.cache ensures Honest(t, k, t.cache[k]) { CacheStays(s, a, k); }
    forall tid | tid in t.procs ensures ProcOk(t, t.procs[tid]) { ProcStays(s, a, tid); }
  }

  // ---------------------------------------------------------------------------
  // Runs
  // ---------------------------------------------------------------------------

  ghost predicate Init(s: State) {
    s.cache == map[] && s.generation == 0 && s.lock == Free && s.procs == map[] && s.acked == map[]
  }

  ghost predicate Took(run: seq<State>, i: nat, a: Step) {
    i + 1 < |run| && Enabled(run[i], a) && run[i + 1] == Apply(run[i], a)
  }

  ghost predicate Next(s: State, t: State) { exists a :: Enabled(s, a) && t == Apply(s, a) }

  ghost predicate Linked(run: seq<State>, i: nat)
    requires i + 1 < |run|
  {
    Next(run[i], run[i + 1])
  }

  ghost predicate IsRun(run: seq<State>) {
    |run| > 0 && Init(run[0]) && forall i :: 0 <= i < |run| - 1 ==> Linked(run, i)
  }

  lemma {:induction false} RunInv(run: seq<State>, i: nat)
    requires IsRun(run) && i < |run|
    ensures Inv(run[i])
  {
    if i > 0 {
      RunInv(run, i - 1);
      assert Linked(run, i - 1);
      var a :| Enabled(run[i - 1], a) && run[i] == Apply(run[i - 1], a);
      StepInv(run[i - 1], a);
    }
  }

  lemma {:induction false} RunAdvances(run: seq<State>, i: nat, j: nat)
    requires IsRun(run) && i <= j < |run|
    ensures Advances(run[i], run[j])
  {
    if i < j {
      RunAdvances(run, i, j - 1);
      assert Linked(run, j - 1);
      var a :| Enabled(run[j - 1], a) && run[j] == Apply(run[j - 1], a);
      StepAdvances(run[j - 1], a);
    }
  }

  /** A hit reflects every write whose invalidation began before the reader's last generation
      check: it is the store's value after at least that write, in every interleaving. */
  lemma HitReflectsAcknowledgedWrites(run: seq<State>, i: nat, writer: Tid, j: nat, reader: Tid)
    requires IsRun(run) && i < j
    requires Took(run, i, BeginInvalidation(writer)) && Took(run, j, ReturnHit(reader))
    ensures var k, e := run[j].procs[reader].key, run[j].procs[reader].entry;
            && 0 < e.version <= |History(run[j], k)|
            && e.value == History(run[j], k)[e.version - 1]
            && (k in run[i].procs[writer].versions ==> run[i].procs[writer].versions[k] <= e.version)
  {
    RunInv(run, j);
    RunAdvances(run, i + 1, j);
    assert ProcOk(run[j], run[j].procs[reader]);
    var k := run[j].procs[reader].key;
    if k in run[i].procs[writer].versions {
      assert run[i].procs[writer].versions[k] <= Acked(run[i + 1], k) <= Acked(run[j], k);
    }
  }
}
