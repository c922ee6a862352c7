/** The byte counter of the request-log spool in runs without the faults that lose bytes: a write that
    fails and leaves its file visible, a push abandoned during its write, and a saturating addition. */
module SpoolFaults {
  import opened Common
  import opened SpoolModel
  import opened SpoolSafety
  import opened SpoolQuota
  import opened SpoolTheorems

  /** A push fails although its file is visible, a push is abandoned, or an addition saturates. */
  predicate Faulty(s: System, a: Step)
    requires Enabled(s, a)
  {
    || (a.Push? && a.push.PushAbandon?)
    || (a.Push? && a.push.PushFail? && a.n in s.dir.finals)
    || (Reserves(a) && s.admitted + a.admit.amount > U64_MAX)
  }

  /** A promotion that fails, finds nothing to measure, or is not synced. */
  predicate PromotionFails(a: Step) {
    a.Drop? && (a.drop == DropPromote(false) || a.drop == PromoteStat(false) || a.drop == PromoteAccount(false))
  }

  /** Only the largest quota lets an addition saturate. */
  lemma SaturationNeedsTopQuota(s: System, a: Step)
    requires Enabled(s, a) && Reserves(a) && s.admitted + a.admit.amount > U64_MAX
    ensures s.quota >= U64_MAX
  {
  }

  // ---------------------------------------------------------------------------
  // What the faults would break
  // ---------------------------------------------------------------------------

  /** No write is on its way; a file of a reservation held in full is visible only under the lock of its
      push; what the flusher has loaded is what is visible, and is not held; and a promotion's file has
      the size it was promoted with. */
  ghost predicate Clean(s: System, n: Id) {
    && (forall op :: op in s.late && op.n == n ==> !op.LateFinal?)
    && (Holds(s, n) && n in s.dir.finals ==> s.lock.PushHolds? && s.lock.owner == n)
    && (forall e :: e in Batch(s) && e.id == n ==> n in s.dir.finals && s.dir.finals[n] == e && !Holds(s, n))
    && (InPromotion(s, n) && n in s.dir.finals ==> s.dir.finals[n].bytes == s.rs[n].phase.size)
  }

  ghost predicate AllClean(s: System) { forall n :: Clean(s, n) }

  lemma StillClean(s: System, t: System, n: Id)
    requires Clean(s, n) && Frame(s, t, n) && Still(s, t, n)
    requires s.lock.PushHolds? && s.lock.owner == n ==> t.lock.PushHolds? && t.lock.owner == n
    ensures Clean(t, n)
  {
  }

  lemma AdmitClean(s: System, n: Id, a: AdmitStep)
    requires Global(s) && IdSafe(s, n) && Clean(s, n) && AdmitEnabled(s, n, a)
    ensures Clean(AdmitApply(s, n, a), n)
  {
  }

  lemma PushClean(s: System, n: Id, p: PushStep)
    requires Global(s) && IdSafe(s, n) && Clean(s, n) && PushEnabled(s, n, p) && !Faulty(s, Push(n, p))
    ensures Clean(PushApply(s, n, p), n)
  {
  }

  lemma CancelClean(s: System, n: Id, c: CancelStep)
    requires Global(s) && IdSafe(s, n) && Clean(s, n) && CancelEnabled(s, n, c)
    ensures Clean(CancelApply(s, n, c), n)
  {
  }

  lemma DropClean(s: System, n: Id, d: DropStep)
    requires Global(s) && IdSafe(s, n) && Clean(s, n) && DropEnabled(s, n, d)
    ensures Clean(DropApply(s, n, d), n)
  {
  }

  lemma FlushClean(s: System, f: FlushStep, n: Id)
    requires Global(s) && Clean(s, n) && Distinct(Batch(s)) && FlushEnabled(s, f)
    ensures Clean(FlushApply(s, f), n)
  {
    if f.FlushDelete? {
      var batch := s.lock.batch;
      forall i | 0 <= i < |batch| - 1
        ensures batch[1..][i].id != batch[0].id
      {
        assert batch[1..][i] == batch[i + 1];
      }
    }
  }

  lemma LandClean(s: System, op: Late, n: Id)
    requires Clean(s, n) && Clean(s, op.n) && BootEnabled(s, Land(op))
    ensures Clean(BootApply(s, Land(op)), n)
  {
  }

  /** Every other step of a running process keeps the spool clean. */
  lemma StepClean(s: System, a: Step, n: Id)
    requires Safe(s) && Metered(s) && AllClean(s) && s.mode == Up && Enabled(s, a) && !Crashes(a) && !Faulty(s, a)
    ensures Clean(Apply(s, a), n)
  {
    assert IdSafe(s, n) && Clean(s, n);
    var t := Apply(s, a);
    match a
    case Boot(b) =>
      assert Clean(s, b.op.n);
      LandClean(s, b.op, n);
    case Admit(m, b) =>
      if m == n { AdmitClean(s, n, b); } else { AdmitFrames(s, m, b, n); AdmitStill(s, m, b, n); StillClean(s, t, n); }
    case Push(m, b) =>
      if m == n { PushClean(s, n, b); } else { OtherPushClean(s, m, b, n); }
    case Cancel(m, b) =>
      if m == n {
        CancelClean(s, n, b);
      } else {
        CancelFrames(s, m, b, n);
        CancelStill(s, m, b, n);
        StillClean(s, t, n);
      }
    case Drop(m, b) =>
      if m == n { DropClean(s, n, b); } else { OtherDropClean(s, m, b, n); }
    case Flush(f) => FlushClean(s, f, n);
  }

  lemma OtherPushClean(s: System, m: Id, p: PushStep, n: Id)
    requires Global(s) && Clean(s, n) && PushEnabled(s, m, p) && n != m
    ensures Clean(PushApply(s, m, p), n)
  {
    PushFrames(s, m, p, n);
    PushStill(s, m, p, n);
    StillClean(s, PushApply(s, m, p), n);
  }

  lemma OtherDropClean(s: System, m: Id, d: DropStep, n: Id)
    requires Clean(s, n) && DropEnabled(s, m, d) && n != m
    ensures Clean(DropApply(s, m, d), n)
  {
    DropFrames(s, m, d, n);
    DropStill(s, m, d, n);
    StillClean(s, DropApply(s, m, d), n);
  }

  // ---------------------------------------------------------------------------
  // A clean spool loses nothing
  // ---------------------------------------------------------------------------

  /** In a clean spool only a saturating addition loses bytes, and only a failing promotion keeps any. */
  lemma CleanCounts(s: System, a: Step)
    requires Global(s) && AllClean(s) && Enabled(s, a)
    ensures Undercounts(s, a) ==> Faulty(s, a)
    ensures Overcounts(s, a) ==> PromotionFails(a)
  {
    assert LandsFinal(a) ==> Clean(s, a.boot.op.n);
    if Deletes(a) {
      var e := s.lock.batch[0];
      assert e in Batch(s) && Clean(s, e.id);
    } else if a.Drop? {
      assert Clean(s, a.n);
    }
  }

  /** The step at `k` is neither a crash nor one of the faults. */
  ghost predicate Faultless(run: seq<System>, k: nat) {
    exists a :: Took(run, k, a) && !Crashes(a) && !Faulty(run[k], a)
  }

  /** Nor a promotion that fails. */
  ghost predicate Orderly(run: seq<System>, k: nat) {
    exists a :: Took(run, k, a) && !Crashes(a) && !Faulty(run[k], a) && !PromotionFails(a)
  }

  lemma StartIsClean(run: seq<System>, i: nat, a: Step)
    requires IsRun(run) && Took(run, i, a) && (a == Boot(RecoverDone) || a == Boot(RecoverFail))
    ensures run[i + 1].mode == Up && AllClean(run[i + 1])
  {
    RunSafe(run, i);
  }

  lemma CleanNext(run: seq<System>, k: nat)
    requires IsRun(run) && Faultless(run, k) && run[k].mode == Up && AllClean(run[k])
    ensures Covers(run, k) && AllClean(run[k + 1])
    ensures Orderly(run, k) ==> Balances(run, k)
    ensures run[k + 1].mode == Up
  {
    RunSafe(run, k);
    RunMetered(run, k);
    var a :| Took(run, k, a) && !Crashes(a) && !Faulty(run[k], a);
    CleanCounts(run[k], a);
    assert Covers(run, k);
    var t := run[k + 1];
    forall n ensures Clean(t, n) { StepClean(run[k], a, n); }
    if Orderly(run, k) {
      var b :| Took(run, k, b) && !Crashes(b) && !Faulty(run[k], b) && !PromotionFails(b);
      CleanCounts(run[k], b);
      assert Balances(run, k);
    }
    StaysUp(run[k], a);
  }

  lemma StaysUp(s: System, a: Step)
    requires s.mode == Up && Enabled(s, a) && !Crashes(a)
    ensures Apply(s, a).mode == Up
  {
  }

  lemma {:induction false} RunClean(run: seq<System>, i: nat, j: nat)
    requires IsRun(run) && i <= j < |run| && run[i].mode == Up && AllClean(run[i])
    requires forall k :: i <= k < j ==> Faultless(run, k)
    ensures run[j].mode == Up && AllClean(run[j])
  {
    if i < j {
      RunClean(run, i, j - 1);
      assert Faultless(run, j - 1);
      CleanNext(run, j - 1);
    }
  }

  lemma RunCovers(run: seq<System>, i: nat, j: nat, k: nat)
    requires IsRun(run) && i <= k < j < |run| && run[i].mode == Up && AllClean(run[i])
    requires forall k :: i <= k < j ==> Faultless(run, k)
    ensures Covers(run, k) && (Orderly(run, k) ==> Balances(run, k))
  {
    RunClean(run, i, k);
    assert Faultless(run, k);
    CleanNext(run, k);
  }

  /** From a successful start, in every run in which no failing write leaves its file visible, no push is
      abandoned and no addition saturates: admitted bytes cover the unsettled reservations and the other
      visible files, never exceed the larger of the quota and the bytes found at startup, and no
      subtraction can wrap.  They are exactly that sum if no promotion fails either. */
  lemma FaultFreeQuota(run: seq<System>, i: nat, j: nat)
    requires IsRun(run) && Took(run, i, Boot(RecoverDone)) && i < j < |run|
    requires SizeUpTo(run[i].dir, run[i].next) <= U64_MAX && forall k :: i < k < j ==> Faultless(run, k)
    ensures var s := run[j];
            && Unsettled(s, s.next) + OtherFiles(s, s.next) <= s.admitted <= Ceiling(s)
            && ((forall k :: i < k < j ==> Orderly(run, k)) ==>
                  s.admitted == Unsettled(s, s.next) + OtherFiles(s, s.next))
            && (forall a :: Enabled(s, a) ==> !Wraps(s, a))
  {
    StartIsClean(run, i, Boot(RecoverDone));
    forall k | i < k < j
      ensures Covers(run, k) && (Orderly(run, k) ==> Balances(run, k))
    {
      RunCovers(run, i + 1, j, k);
    }
    QuotaIsConserved(run, i, j);
    NothingWraps(run, j);
  }

  lemma NothingWraps(run: seq<System>, j: nat)
    requires IsRun(run) && j < |run|
    requires var s := run[j]; Unsettled(s, s.next) + OtherFiles(s, s.next) <= s.admitted
    ensures forall a :: Enabled(run[j], a) ==> !Wraps(run[j], a)
  {
    RunSafe(run, j);
    RunMetered(run, j);
    OwedSplits(run[j], run[j].next);
    forall a | Enabled(run[j], a) ensures !Wraps(run[j], a) { CoveredNeverWraps(run[j], a); }
  }
}
