/** Inductive invariants of the request-log spool: no armed record is lost, a durable terminal
    record is never replaced by its fallback, a cancelled reservation leaves no trace. */
module SpoolSafety {
  import opened SpoolModel

  // ---------------------------------------------------------------------------
  // Invariants, one id at a time
  // ---------------------------------------------------------------------------

  /** The entries the flusher has loaded and not yet dealt with. */
  function Batch(s: System): seq<Entry> { if s.lock.FlushHolds? then s.lock.batch else [] }

  /** An abandoned call can still write a marker only for an id that was never armed, and can still
      remove one only for an id whose cancellation was begun. */
  ghost predicate LateOk(s: System, n: Id) {
    forall op :: op in s.late && op.n == n ==>
      && (op.LateMarker? ==> op.e.id == n && n !in s.hist.armed)
      && (op.LateFinal? ==> op.e.id == n)
      && (op.LateRemove? ==> n in s.hist.cancelBegun)
  }

  /** Directories hold only ids drawn so far, each under its own name. */
  ghost predicate DirsOk(s: System, n: Id) {
    forall d :: d in s.disk ==>
      && (n in d.markers && d.markers[n].Fallback? ==> d.markers[n].entry.id == n)
      && (n in d.finals ==> d.finals[n].id == n)
  }

  /** An id not drawn yet occurs nowhere. */
  ghost predicate Fresh(s: System, n: Id) {
    && n !in s.rs && n !in s.hist.armed && n !in s.hist.cancelBegun && n !in s.hist.cancelled
    && n !in s.hist.pushed && s.hist.settled[n] == 0 && !HasRow(s.db, n)
    && (forall d :: d in s.disk ==> n !in d.markers && n !in d.finals)
    && (forall op :: op in s.late ==> op.n != n)
    && (forall e :: e in Batch(s) ==> e.id != n)
  }

  /** Before its terminal write a reservation has no final file in any survivable directory and no
      row; after the claim only the claimed record can be in either place. */
  ghost predicate Untouched(s: System, n: Id)
    requires n in s.rs
  {
    var p := s.rs[n].phase;
    && (p.Unarmed? || p.Arming? || p.ArmLost? || p.Armed? || p.Canceling? ==>
          && (forall d :: d in s.disk ==> n !in d.finals)
          && (forall op :: op in s.late ==> op.n != n || op.LateRemove? || (op.LateMarker? && p.ArmLost?))
          && (forall e :: e in Batch(s) ==> e.id != n)
          && !HasRow(s.db, n)
          && n !in s.hist.pushed)
    && (p.Claimed? ==>
          && p.terminal.id == n
          && (forall d :: d in s.disk && n in d.finals ==> d.finals[n] == p.terminal)
          && (forall op :: op in s.late && op.n == n && op.LateFinal? ==> op.e == p.terminal)
          && (forall e :: e in Batch(s) && e.id == n ==> e == p.terminal)
          && (HasRow(s.db, n) ==> p.terminal in s.db)
          && (n in s.hist.pushed <==> s.lock == PushHolds(n, Durable))
          && (n in s.hist.pushed ==> s.hist.pushed[n] == p.terminal))
  }

  /** A reservation that holds armed bytes has a fallback, never a bare probe, behind its marker. */
  ghost predicate ArmedOk(s: System, n: Id)
    requires n in s.rs
  {
    var r := s.rs[n];
    && (r.phase.Arming? ==> r.phase.fallback.id == n && r.phase.fallback.bytes > 0)
    && (r.phase.Unarmed? || r.phase.Arming? || r.phase.ArmLost? ==> 
          n !in s.hist.armed && n !in s.hist.cancelBegun && r.armedBytes == 0)
    && (r.phase.Armed? || r.phase.Claimed? || r.phase.Canceling? ==> (n in s.hist.armed <==> r.armedBytes > 0))
    && (r.armedBytes > 0 ==> n in s.hist.armed)
    && (r.phase.Canceling? ==> n in s.hist.cancelBegun)
    && (!r.phase.Consumed? ==> n !in s.hist.cancelled && s.hist.settled[n] == 0)
    && (r.armedBytes > 0 ==> forall d :: d in s.disk && n in d.markers ==> d.markers[n].Fallback?)
  }

  ghost predicate CoveredIn(s: System, d: Dir, n: Id) {
    (n in d.markers && d.markers[n].Fallback?) || n in d.finals || HasRow(s.db, n)
  }

  /** The record of `n` is in every directory a crash may leave, or in the database. */
  ghost predicate Covered(s: System, n: Id) {
    forall d :: d in s.disk ==> CoveredIn(s, d, n)
  }

  /** `e` is the row of its id, or is the only candidate for it. */
  ghost predicate WonBy(s: System, n: Id, e: Entry) {
    && e.id == n
    && (if HasRow(s.db, n) then e in s.db
        else
          && (forall d :: d in s.disk ==> n in d.finals && d.finals[n] == e)
          && (forall op :: op in s.late && op.n == n && op.LateFinal? ==> op.e == e)
          && (forall b :: b in Batch(s) && b.id == n ==> b == e))
  }

  /** No survivable directory, no row, and nothing on its way to either mentions `n`. */
  ghost predicate Gone(s: System, n: Id) {
    && (forall d :: d in s.disk ==> n !in d.markers && n !in d.finals)
    && (forall op :: op in s.late ==> op.n != n || op.LateRemove?)
    && (forall e :: e in Batch(s) ==> e.id != n)
    && !HasRow(s.db, n)
    && n !in s.hist.pushed
  }

  ghost predicate IdSafe(s: System, n: Id) {
    && DirsOk(s, n)
    && LateOk(s, n)
    && (forall e :: e in Batch(s) && e.id == n ==> n < s.next)
    && (n >= s.next ==> Fresh(s, n))
    && (n in s.rs ==> Untouched(s, n) && ArmedOk(s, n))
    && (n in s.hist.armed && n !in s.hist.cancelBegun ==> Covered(s, n))
    && (n in s.hist.pushed ==> WonBy(s, n, s.hist.pushed[n]))
    && (n in s.hist.cancelled ==> Gone(s, n))
    && s.hist.settled[n] <= 1
  }

  ghost predicate LockOk(s: System) {
    match s.lock
    case Free => true
    case PushHolds(n, _) => n in s.rs && s.rs[n].phase.Claimed?
    case FlushHolds(batch, committed) =>
      committed ==> forall i :: 0 <= i < |batch| ==> HasRow(s.db, batch[i].id)
  }

  ghost predicate Global(s: System) {
    && s.dir in s.disk
    && (s.mode != Up ==> s.rs == map[] && s.lock == Free && s.late == {})
    && LockOk(s)
    && OneRowPerId(s.db)
  }

  ghost predicate Safe(s: System) {
    Global(s) && forall n :: IdSafe(s, n)
  }

  // ---------------------------------------------------------------------------
  // Database insertion
  // ---------------------------------------------------------------------------

  /** Insertion keeps every row, keeps ids unique, and adds rows only from the batch and only for
      ids that had none. */
  lemma {:induction false} InsertAllRows(db: seq<Entry>, batch: seq<Entry>)
    requires OneRowPerId(db)
    ensures OneRowPerId(InsertAll(db, batch))
    ensures db <= InsertAll(db, batch)
    ensures forall i :: 0 <= i < |batch| ==> HasRow(InsertAll(db, batch), batch[i].id)
    ensures forall i :: |db| <= i < |InsertAll(db, batch)| ==>
              InsertAll(db, batch)[i] in batch && !HasRow(db, InsertAll(db, batch)[i].id)
    decreases |batch|
  {
    if batch != [] {
      var db1 := InsertRow(db, batch[0]);
      InsertAllRows(db1, batch[1..]);
      var out := InsertAll(db1, batch[1..]);
      assert HasRow(out, batch[0].id) by {
        var i :| 0 <= i < |db1| && db1[i].id == batch[0].id;
        assert out[i].id == batch[0].id;
      }
      forall i | 0 <= i < |batch|
        ensures HasRow(out, batch[i].id)
      {
        if i > 0 { assert batch[i] == batch[1..][i - 1]; }
      }
      forall i | |db| <= i < |out|
        ensures out[i] in batch && !HasRow(db, out[i].id)
      {
        if i < |db1| {
          assert out[i] == batch[0];
        } else {
          assert out[i] in batch[1..];
          assert !HasRow(db1, out[i].id);
          assert forall j :: 0 <= j < |db| ==> db1[j] == db[j];
        }
      }
    }
  }

  // ---------------------------------------------------------------------------
  // Ids a step does not touch
  // ---------------------------------------------------------------------------

  ghost predicate Agree(d: Dir, e: Dir, n: Id) {
    && (n in d.markers <==> n in e.markers)
    && (n in d.markers ==> d.markers[n] == e.markers[n])
    && (n in d.finals <==> n in e.finals)
    && (n in d.finals ==> d.finals[n] == e.finals[n])
  }

  /** Nothing the invariants say about `n` gets harder to meet from `s` to `t`. */
  ghost predicate Frame(s: System, t: System, n: Id) {
    && s.next <= t.next
    && s.db == t.db
    && t.disk <= s.disk + {t.dir}
    && (t.dir in s.disk || Agree(s.dir, t.dir, n))
    && (n in t.rs ==> n in s.rs && s.rs[n] == t.rs[n] && (s.lock == PushHolds(n, Durable) <==>
         t.lock == PushHolds(n, Durable)))
    && (n in s.hist.armed <==> n in t.hist.armed)
    && (n in s.hist.cancelBegun <==> n in t.hist.cancelBegun)
    && (n in s.hist.cancelled <==> n in t.hist.cancelled)
    && (n in s.hist.pushed <==> n in t.hist.pushed)
    && (n in s.hist.pushed ==> s.hist.pushed[n] == t.hist.pushed[n])
    && s.hist.settled[n] == t.hist.settled[n]
    && (forall op :: op in t.late && op.n == n ==> op in s.late)
    && (forall e :: e in Batch(t) && e.id == n ==> e in Batch(s))
  }

  lemma FrameKeeps(s: System, t: System, n: Id)
    requires s.dir in s.disk && IdSafe(s, n) && Frame(s, t, n)
    ensures IdSafe(t, n)
  {
  }

  // ---------------------------------------------------------------------------
  // Each family of steps
  // ---------------------------------------------------------------------------

  lemma BootFrames(s: System, b: BootStep, n: Id)
    requires Global(s) && BootEnabled(s, b) && !(b.RecoverOne? && b.marker == n) && !(b.Land? && b.op.n == n)
    ensures Frame(s, BootApply(s, b), n)
  {
  }

  lemma AdmitFrames(s: System, m: Id, a: AdmitStep, n: Id)
    requires Global(s) && AdmitEnabled(s, m, a) && n != m
    ensures Frame(s, AdmitApply(s, m, a), n)
  {
  }

  lemma PushFrames(s: System, m: Id, p: PushStep, n: Id)
    requires Global(s) && PushEnabled(s, m, p) && n != m
    ensures Frame(s, PushApply(s, m, p), n)
  {
  }

  lemma CancelFrames(s: System, m: Id, c: CancelStep, n: Id)
    requires Global(s) && CancelEnabled(s, m, c) && n != m
    ensures Frame(s, CancelApply(s, m, c), n)
  {
  }

  lemma DropFrames(s: System, m: Id, d: DropStep, n: Id)
    requires DropEnabled(s, m, d) && n != m
    ensures Frame(s, DropApply(s, m, d), n)
  {
    if d.DropPromote? { PromoteFrames(s, m, d.promoted, n); } else { ReleaseFrames(s, m, d, n); }
  }

  lemma ReleaseFrames(s: System, m: Id, d: DropStep, n: Id)
    requires DropEnabled(s, m, d) && n != m && !d.DropPromote?
    ensures Frame(s, DropApply(s, m, d), n)
  {
  }

  lemma PromoteFrames(s: System, m: Id, promoted: bool, n: Id)
    requires DropEnabled(s, m, DropPromote(promoted)) && n != m
    ensures Frame(s, DropApply(s, m, DropPromote(promoted)), n)
  {
  }

  lemma FlushFrames(s: System, f: FlushStep, n: Id)
    requires Global(s) && FlushEnabled(s, f) && !f.FlushCommit? && !f.FlushLoad?
    requires f.FlushDelete? ==> n != s.lock.batch[0].id
    ensures Frame(s, FlushApply(s, f), n)
  {
  }

  lemma BootSelf(s: System, b: BootStep, n: Id)
    requires Global(s) && IdSafe(s, n) && BootEnabled(s, b)
    requires (b.RecoverOne? && b.marker == n) || (b.Land? && b.op.n == n)
    ensures IdSafe(BootApply(s, b), n)
  {
  }

  lemma AdmitSelf(s: System, n: Id, a: AdmitStep)
    requires Global(s) && IdSafe(s, n) && AdmitEnabled(s, n, a)
    ensures IdSafe(AdmitApply(s, n, a), n)
  {
    if a.ReserveTerminal? || a.ReservePush? { ReserveSelf(s, n, a); }
    else if a.ProbeRename? || a.ProbeDone? || a.ProbeFail? { ProbeSelf(s, n, a); }
    else { ArmSelf(s, n, a); }
  }

  lemma ReserveSelf(s: System, n: Id, a: AdmitStep)
    requires Global(s) && IdSafe(s, n) && AdmitEnabled(s, n, a) && (a.ReserveTerminal? || a.ReservePush?)
    ensures IdSafe(AdmitApply(s, n, a), n)
  {
  }

  lemma ProbeSelf(s: System, n: Id, a: AdmitStep)
    requires Global(s) && IdSafe(s, n) && AdmitEnabled(s, n, a) && (a.ProbeRename? || a.ProbeDone? || a.ProbeFail?)
    ensures IdSafe(AdmitApply(s, n, a), n)
  {
  }

  lemma ArmSelf(s: System, n: Id, a: AdmitStep)
    requires Global(s) && IdSafe(s, n) && AdmitEnabled(s, n, a)
    requires a.ArmBegin? || a.ArmRename? || a.ArmDone? || a.ArmFail? || a.ArmAbandon?
    ensures IdSafe(AdmitApply(s, n, a), n)
  {
  }

  lemma PushSelf(s: System, n: Id, p: PushStep)
    requires Global(s) && IdSafe(s, n) && PushEnabled(s, n, p)
    ensures IdSafe(PushApply(s, n, p), n)
  {
    if p.PushConsume? { PushConsumeSelf(s, n, p); }
  }

  lemma PushConsumeSelf(s: System, n: Id, p: PushStep)
    requires Global(s) && IdSafe(s, n) && p.PushConsume? && PushEnabled(s, n, p)
    ensures IdSafe(PushApply(s, n, p), n)
  {
    UnmarkedSelf(s, n, p.removal);
    ConsumedSelf(RemoveMarker(s, n, p.removal), n, PushApply(s, n, p));
  }

  /** Once the terminal record is durable the marker is not needed. */
  lemma UnmarkedSelf(s: System, n: Id, r: Removal)
    requires Global(s) && IdSafe(s, n) && n in s.rs && s.rs[n].phase.Claimed? && n in s.hist.pushed
    ensures IdSafe(RemoveMarker(s, n, r), n)
  {
    var s1 := s.(rs := s.rs[n := s.rs[n].(marker := false)]);
    LetGoSelf(s, n);
    if s.rs[n].marker && n in s.dir.markers && r.Removed? { DropMarkerSelf(s1, n, r.synced); }
  }

  lemma LetGoSelf(s: System, n: Id)
    requires Global(s) && IdSafe(s, n) && n in s.rs
    ensures IdSafe(s.(rs := s.rs[n := s.rs[n].(marker := false)]), n)
  {
  }

  lemma DropMarkerSelf(s: System, n: Id, synced: bool)
    requires s.dir in s.disk && IdSafe(s, n) && n in s.hist.pushed && n in s.dir.markers
    ensures IdSafe(SyncedIf(Touch(s, DropMarker(s.dir, n)), synced), n)
  {
  }

  lemma ConsumedSelf(s: System, n: Id, t: System)
    requires IdSafe(s, n) && n in s.rs && s.rs[n].phase.Claimed? && n in s.hist.pushed
    requires t == Settle(SetPhase(s, n, Consumed).(lock := Free, admitted := t.admitted), n)
    ensures IdSafe(t, n)
  {
  }

  lemma CancelSelf(s: System, n: Id, c: CancelStep)
    requires Global(s) && IdSafe(s, n) && CancelEnabled(s, n, c)
    ensures IdSafe(CancelApply(s, n, c), n)
  {
  }

  lemma DropSelf(s: System, n: Id, d: DropStep)
    requires Global(s) && IdSafe(s, n) && DropEnabled(s, n, d)
    ensures IdSafe(DropApply(s, n, d), n)
  {
    if d.DropPromote? { DropPromoteSelf(s, n, d); }
  }

  lemma DropPromoteSelf(s: System, n: Id, d: DropStep)
    requires Global(s) && IdSafe(s, n) && d.DropPromote? && DropEnabled(s, n, d)
    ensures IdSafe(DropApply(s, n, d), n)
  {
  }

  lemma FlushDeleteSelf(s: System, gone: bool)
    requires Global(s) && FlushEnabled(s, FlushDelete(gone)) && IdSafe(s, s.lock.batch[0].id)
    ensures IdSafe(FlushApply(s, FlushDelete(gone)), s.lock.batch[0].id)
  {
  }

  lemma FlushLoadSelf(s: System, f: FlushStep, n: Id)
    requires Global(s) && IdSafe(s, n) && f.FlushLoad? && FlushEnabled(s, f)
    ensures IdSafe(FlushApply(s, f), n)
  {
  }

  lemma FlushCommitSelf(s: System, f: FlushStep, n: Id)
    requires Global(s) && IdSafe(s, n) && f.FlushCommit? && FlushEnabled(s, f)
    ensures IdSafe(FlushApply(s, f), n)
  {
    var s1 := if f.inserted then s.(db := InsertAll(s.db, s.lock.batch)) else s;
    if f.inserted { InsertSelf(s, n); }
    assert Frame(s1, FlushApply(s, f), n);
    FrameKeeps(s1, FlushApply(s, f), n);
  }

  /** The rows of the batch, with nothing else changed. */
  lemma InsertSelf(s: System, n: Id)
    requires Global(s) && IdSafe(s, n) && s.lock.FlushHolds?
    ensures IdSafe(s.(db := InsertAll(s.db, s.lock.batch)), n)
  {
    InsertAllRows(s.db, s.lock.batch);
  }

  lemma StepGlobal(s: System, a: Step)
    requires Safe(s) && Enabled(s, a)
    ensures Global(Apply(s, a))
  {
    match a
    case Boot(_) =>
    case Admit(n, b) => assert IdSafe(s, n); AdmitGlobal(s, n, b);
    case Push(n, b) => PushGlobal(s, n, b);
    case Cancel(n, b) => CancelGlobal(s, n, b);
    case Drop(n, b) => DropGlobal(s, n, b);
    case Flush(f) => FlushGlobal(s, f);
  }

  lemma AdmitGlobal(s: System, n: Id, a: AdmitStep)
    requires Global(s) && AdmitEnabled(s, n, a) && IdSafe(s, n)
    ensures Global(AdmitApply(s, n, a))
  {
  }

  lemma PushGlobal(s: System, n: Id, p: PushStep)
    requires Global(s) && PushEnabled(s, n, p)
    ensures Global(PushApply(s, n, p))
  {
  }

  lemma CancelGlobal(s: System, n: Id, c: CancelStep)
    requires Global(s) && CancelEnabled(s, n, c)
    ensures Global(CancelApply(s, n, c))
  {
  }

  lemma DropGlobal(s: System, n: Id, d: DropStep)
    requires Global(s) && DropEnabled(s, n, d)
    ensures Global(DropApply(s, n, d))
  {
  }

  lemma FlushGlobal(s: System, f: FlushStep)
    requires Safe(s) && FlushEnabled(s, f)
    ensures Global(FlushApply(s, f))
  {
    if f.FlushCommit? { InsertAllRows(s.db, s.lock.batch); }
  }

  /** Every step keeps every invariant. */
  lemma StepSafe(s: System, a: Step)
    requires Safe(s) && Enabled(s, a)
    ensures Safe(Apply(s, a))
  {
    StepGlobal(s, a);
    forall n
      ensures IdSafe(Apply(s, a), n)
    {
      StepIdSafe(s, a, n);
    }
  }

  lemma StepIdSafe(s: System, a: Step, n: Id)
    requires Safe(s) && Enabled(s, a)
    ensures IdSafe(Apply(s, a), n)
  {
    assert IdSafe(s, n);
    match a
    case Boot(b) => BootIdSafe(s, b, n);
    case Admit(m, b) =>
      if m == n { AdmitSelf(s, n, b); } else { AdmitFrames(s, m, b, n); FrameKeeps(s, Apply(s, a), n); }
    case Push(m, b) =>
      if m == n { PushSelf(s, n, b); } else { PushFrames(s, m, b, n); FrameKeeps(s, Apply(s, a), n); }
    case Cancel(m, b) =>
      if m == n { CancelSelf(s, n, b); } else { CancelFrames(s, m, b, n); FrameKeeps(s, Apply(s, a), n); }
    case Drop(m, b) =>
      if m == n { DropSelf(s, n, b); } else { DropFrames(s, m, b, n); FrameKeeps(s, Apply(s, a), n); }
    case Flush(f) => FlushIdSafe(s, f, n);
  }

  lemma BootIdSafe(s: System, b: BootStep, n: Id)
    requires Global(s) && IdSafe(s, n) && BootEnabled(s, b)
    ensures IdSafe(BootApply(s, b), n)
  {
    if (b.RecoverOne? && b.marker == n) || (b.Land? && b.op.n == n) {
      BootSelf(s, b, n);
    } else {
      BootFrames(s, b, n);
      FrameKeeps(s, BootApply(s, b), n);
    }
  }

  lemma FlushIdSafe(s: System, f: FlushStep, n: Id)
    requires Global(s) && IdSafe(s, n) && FlushEnabled(s, f)
    ensures IdSafe(FlushApply(s, f), n)
  {
    if f.FlushCommit? {
      FlushCommitSelf(s, f, n);
    } else if f.FlushLoad? {
      FlushLoadSelf(s, f, n);
    } else if f.FlushDelete? && n == s.lock.batch[0].id {
      FlushDeleteSelf(s, f.gone);
    } else {
      FlushFrames(s, f, n);
      FrameKeeps(s, FlushApply(s, f), n);
    }
  }

  lemma InitSafe(s: System)
    requires Init(s)
    ensures Safe(s)
  {
  }

  lemma {:induction false} RunSafe(run: seq<System>, i: nat)
    requires IsRun(run) && i < |run|
    ensures Safe(run[i])
  {
    if i == 0 {
      InitSafe(run[0]);
    } else {
      RunSafe(run, i - 1);
      assert Linked(run, i - 1);
      var a :| Enabled(run[i - 1], a) && run[i] == Apply(run[i - 1], a);
      StepSafe(run[i - 1], a);
    }
  }
}
