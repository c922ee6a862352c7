/** Byte accounting of the request-log spool.

    What the counter ought to hold is the sum of what each id owes.  The gap between the two is
    followed through every step: which steps move it, by how much, and when a subtraction wraps. */
module SpoolQuota {
  import opened Common
  import opened SpoolModel
  import opened SpoolSafety

  /** The reservation still counts in full: it is neither settled nor being promoted. */
  predicate Holds(s: System, n: Id) {
    n in s.rs && var p := s.rs[n].phase; !p.Consumed? && !p.Promoting? && !p.Stated?
  }

  predicate InPromotion(s: System, n: Id) { n in s.rs && (s.rs[n].phase.Promoting? || s.rs[n].phase.Stated?) }

  function Visible(s: System, n: Id): nat { if n in s.dir.finals then s.dir.finals[n].bytes else 0 }

  /** What a promotion has still to give back. */
  function Spare(s: System, n: Id): nat {
    if InPromotion(s, n) then SatSub(s.rs[n].bytes, s.rs[n].phase.size) else 0
  }

  /** Bytes the counter ought to hold for id `n`: the whole reservation until it is settled or
      promoted, and then its file while that is visible, with the spare of an unfinished promotion. */
  function OwedBy(s: System, n: Id): nat {
    if Holds(s, n) then s.rs[n].bytes else Spare(s, n) + Visible(s, n)
  }

  function Owed(s: System, k: nat): nat {
    if k == 0 then 0 else Owed(s, k - 1) + OwedBy(s, k - 1)
  }

  /** How far the counter is above (or, if negative, below) what is owed. */
  function Gap(s: System): int { s.admitted - Owed(s, s.next) }

  function Ceiling(s: System): nat { if s.hist.startup > s.quota then s.hist.startup else s.quota }

  function Smaller(a: nat, b: nat): nat { if a <= b then a else b }

  // ---------------------------------------------------------------------------
  // What each step does to the gap
  // ---------------------------------------------------------------------------

  predicate Reserves(a: Step) { a.Admit? && (a.admit.ReserveTerminal? || a.admit.ReservePush?) }

  predicate Deletes(a: Step) { a.Flush? && a.flush == FlushDelete(true) }

  predicate LandsFinal(a: Step) { a.Boot? && a.boot.Land? && a.boot.op.LateFinal? }

  /** What a step takes off the counter by a subtraction that may wrap. */
  function Taken(s: System, a: Step): nat
    requires Enabled(s, a)
  {
    if a.Push? && a.push.PushConsume? then SatSub(s.rs[a.n].bytes, s.rs[a.n].phase.terminal.bytes)
    else if (a.Cancel? && a.cancel.CancelDone?) || (a.Drop? && a.drop.DropRelease?) then s.rs[a.n].bytes
    else if a.Drop? && a.drop == PromoteAccount(true) then Spare(s, a.n)
    else 0
  }

  predicate Wraps(s: System, a: Step)
    requires Enabled(s, a)
  {
    s.admitted < Taken(s, a)
  }

  /** By how much a step moves the counter more, or less, than what is owed. */
  function Drift(s: System, a: Step): int
    requires Enabled(s, a)
  {
    (if Wraps(s, a) then U64_MAX + 1 else 0)
    + if Reserves(a) then SatAdd(s.admitted, a.admit.amount) - (s.admitted + a.admit.amount)
      else if Deletes(a) then
        var e := s.lock.batch[0];
        (if Holds(s, e.id) then 0 else Visible(s, e.id)) - Smaller(e.bytes, s.admitted)
      else if LandsFinal(a) then
        var op := a.boot.op;
        if Holds(s, op.n) then 0 else Visible(s, op.n) - op.e.bytes
      else if a.Drop? && a.drop.DropRelease? then -(Visible(s, a.n) as int)
      else if a.Drop? && a.drop == DropPromote(false) then s.rs[a.n].bytes - Visible(s, a.n)
      else if a.Drop? && a.drop == PromoteStat(true) then Visible(s, a.n) - s.rs[a.n].phase.size
      else if a.Drop? && (a.drop == PromoteStat(false) || a.drop == PromoteAccount(false)) then Spare(s, a.n)
      else 0
  }

  /** The steps that lose bytes: a reservation whose addition saturates; the deletion of a file whose
      reservation is still held in full, or that was larger when loaded; the release of a reservation
      whose file is visible; a late write that makes a file grow; a promotion that finds its file
      smaller than it made it. */
  predicate Undercounts(s: System, a: Step)
    requires Enabled(s, a)
  {
    || (Reserves(a) && s.admitted + a.admit.amount > U64_MAX)
    || (Deletes(a) && var e := s.lock.batch[0];
        Holds(s, e.id) || (e.bytes > Visible(s, e.id) && s.admitted > Visible(s, e.id)))
    || (a.Drop? && a.drop.DropRelease? && a.n in s.dir.finals)
    || (LandsFinal(a) && !Holds(s, a.boot.op.n) && a.boot.op.e.bytes > Visible(s, a.boot.op.n))
    || (a.Drop? && a.drop == PromoteStat(true) && Visible(s, a.n) < s.rs[a.n].phase.size)
  }

  /** The steps that keep bytes for good: a promotion with bytes to spare that fails, finds nothing or
      is not synced; and the opposite changes of a file's size. */
  predicate Overcounts(s: System, a: Step)
    requires Enabled(s, a)
  {
    || (a.Drop? && a.drop == DropPromote(false) && s.rs[a.n].bytes > Visible(s, a.n))
    || (a.Drop? && (a.drop == PromoteStat(false) || a.drop == PromoteAccount(false)) && Spare(s, a.n) > 0)
    || (Deletes(a) && var e := s.lock.batch[0]; !Holds(s, e.id) && e.bytes < Visible(s, e.id))
    || (LandsFinal(a) && !Holds(s, a.boot.op.n) && a.boot.op.e.bytes < Visible(s, a.boot.op.n))
    || (a.Drop? && a.drop == PromoteStat(true) && Visible(s, a.n) > s.rs[a.n].phase.size)
  }

  // ---------------------------------------------------------------------------
  // Sizes, in every run
  // ---------------------------------------------------------------------------

  /** No record of a reservation is larger than the reservation. */
  ghost predicate Fits(s: System, n: Id)
    requires n in s.rs
  {
    var r := s.rs[n];
    && r.bytes <= U64_MAX
    && (r.phase.Arming? ==> 0 < r.phase.fallback.bytes <= r.bytes)
    && (r.phase.Claimed? ==> 0 < r.phase.terminal.bytes <= r.bytes)
    && (r.armedBytes > 0 && n in s.dir.markers && s.dir.markers[n].Fallback? ==>
         s.dir.markers[n].entry.bytes <= r.bytes)
    && (r.phase.Promoting? || r.phase.Stated? ==> r.phase.size <= r.bytes)
    && (!r.phase.Consumed? && n in s.dir.finals ==> s.dir.finals[n].bytes <= r.bytes)
    && (forall op :: op in s.late && op.n == n && op.LateFinal? && !r.phase.Consumed? ==> op.e.bytes <= r.bytes)
  }

  /** No record is empty, what the flusher has loaded is still visible, and so is what a push has
      made durable. */
  ghost predicate Measured(s: System, n: Id) {
    && (forall d :: d in s.disk && n in d.finals ==> d.finals[n].bytes > 0)
    && (forall d :: d in s.disk && n in d.markers && d.markers[n].Fallback? ==> d.markers[n].entry.bytes > 0)
    && (forall op :: op in s.late && op.n == n && !op.LateRemove? ==> op.e.bytes > 0)
    && (forall e :: e in Batch(s) && e.id == n ==> e.bytes > 0 && n in s.dir.finals)
    && (s.lock == PushHolds(n, Durable) ==> n in s.dir.finals)
    && (n in s.rs ==> Fits(s, n))
  }

  ghost predicate Distinct(batch: seq<Entry>) {
    forall i, j :: 0 <= i < j < |batch| ==> batch[i].id != batch[j].id
  }

  ghost predicate Metered(s: System) {
    s.quota <= U64_MAX && Distinct(Batch(s)) && forall n :: Measured(s, n)
  }

  // ---------------------------------------------------------------------------
  // Ids a step does not touch
  // ---------------------------------------------------------------------------

  ghost predicate Still(s: System, t: System, n: Id) {
    && (n in s.rs <==> n in t.rs)
    && (n in s.rs ==> s.rs[n] == t.rs[n])
    && Agree(s.dir, t.dir, n)
    && (t.lock == PushHolds(n, Durable) ==> s.lock == PushHolds(n, Durable))
  }

  lemma StillMeasured(s: System, t: System, n: Id)
    requires s.dir in s.disk && Measured(s, n) && Frame(s, t, n) && Still(s, t, n)
    ensures Measured(t, n)
  {
  }

  lemma AdmitStill(s: System, m: Id, a: AdmitStep, n: Id)
    requires AdmitEnabled(s, m, a) && n != m
    ensures Still(s, AdmitApply(s, m, a), n)
  {
  }

  lemma PushStill(s: System, m: Id, p: PushStep, n: Id)
    requires PushEnabled(s, m, p) && n != m
    ensures Still(s, PushApply(s, m, p), n)
  {
  }

  lemma CancelStill(s: System, m: Id, c: CancelStep, n: Id)
    requires CancelEnabled(s, m, c) && n != m
    ensures Still(s, CancelApply(s, m, c), n)
  {
  }

  lemma DropStill(s: System, m: Id, d: DropStep, n: Id)
    requires DropEnabled(s, m, d) && n != m
    ensures Still(s, DropApply(s, m, d), n)
  {
  }

  lemma FlushStill(s: System, f: FlushStep, n: Id)
    requires FlushEnabled(s, f) && (f.FlushDelete? ==> n != s.lock.batch[0].id)
    ensures Still(s, FlushApply(s, f), n)
  {
  }

  lemma LandStill(s: System, op: Late, n: Id)
    requires BootEnabled(s, Land(op)) && n != op.n
    ensures Still(s, BootApply(s, Land(op)), n)
  {
  }

  // ---------------------------------------------------------------------------
  // Every step keeps the sizes
  // ---------------------------------------------------------------------------

  lemma AdmitMeasured(s: System, n: Id, a: AdmitStep)
    requires Global(s) && IdSafe(s, n) && Measured(s, n) && s.quota <= U64_MAX && AdmitEnabled(s, n, a)
    ensures Measured(AdmitApply(s, n, a), n)
  {
    if a.ReserveTerminal? || a.ReservePush? { ReserveMeasured(s, n, a); } else { ProbeArmMeasured(s, n, a); }
  }

  lemma ReserveMeasured(s: System, n: Id, a: AdmitStep)
    requires Global(s) && IdSafe(s, n) && Measured(s, n) && s.quota <= U64_MAX && AdmitEnabled(s, n, a)
    requires a.ReserveTerminal? || a.ReservePush?
    ensures Measured(AdmitApply(s, n, a), n)
  {
  }

  lemma ProbeArmMeasured(s: System, n: Id, a: AdmitStep)
    requires Global(s) && IdSafe(s, n) && Measured(s, n) && AdmitEnabled(s, n, a)
    requires !a.ReserveTerminal? && !a.ReservePush?
    ensures Measured(AdmitApply(s, n, a), n)
  {
    if a.ProbeRename? || a.ProbeDone? || a.ProbeFail? { ProbeMeasured(s, n, a); } else { ArmMeasured(s, n, a); }
  }

  lemma ProbeMeasured(s: System, n: Id, a: AdmitStep)
    requires Global(s) && IdSafe(s, n) && Measured(s, n) && AdmitEnabled(s, n, a)
    requires a.ProbeRename? || a.ProbeDone? || a.ProbeFail?
    ensures Measured(AdmitApply(s, n, a), n)
  {
  }

  lemma ArmMeasured(s: System, n: Id, a: AdmitStep)
    requires Global(s) && IdSafe(s, n) && Measured(s, n) && AdmitEnabled(s, n, a)
    requires a.ArmBegin? || a.ArmRename? || a.ArmDone? || a.ArmFail? || a.ArmAbandon?
    ensures Measured(AdmitApply(s, n, a), n)
  {
  }

  lemma PushMeasured(s: System, n: Id, p: PushStep)
    requires Global(s) && IdSafe(s, n) && Measured(s, n) && PushEnabled(s, n, p)
    ensures Measured(PushApply(s, n, p), n)
  {
    if p.PushConsume? { ConsumeMeasured(s, n, p); } else { WriteMeasured(s, n, p); }
  }

  lemma ConsumeMeasured(s: System, n: Id, p: PushStep)
    requires Global(s) && IdSafe(s, n) && Measured(s, n) && PushEnabled(s, n, p) && p.PushConsume?
    ensures Measured(PushApply(s, n, p), n)
  {
  }

  lemma WriteMeasured(s: System, n: Id, p: PushStep)
    requires Global(s) && IdSafe(s, n) && Measured(s, n) && PushEnabled(s, n, p) && !p.PushConsume?
    ensures Measured(PushApply(s, n, p), n)
  {
  }

  lemma CancelMeasured(s: System, n: Id, c: CancelStep)
    requires Global(s) && IdSafe(s, n) && Measured(s, n) && CancelEnabled(s, n, c)
    ensures Measured(CancelApply(s, n, c), n)
  {
  }

  lemma DropMeasured(s: System, n: Id, d: DropStep)
    requires Global(s) && IdSafe(s, n) && Measured(s, n) && DropEnabled(s, n, d)
    ensures Measured(DropApply(s, n, d), n)
  {
    if d.DropPromote? { PromoteMeasured(s, n, d.promoted); } else { SettleMeasured(s, n, d); }
  }

  lemma SettleMeasured(s: System, n: Id, d: DropStep)
    requires Global(s) && IdSafe(s, n) && Measured(s, n) && DropEnabled(s, n, d) && !d.DropPromote?
    ensures Measured(DropApply(s, n, d), n)
  {
  }

  lemma PromoteMeasured(s: System, n: Id, promoted: bool)
    requires Global(s) && IdSafe(s, n) && Measured(s, n) && DropEnabled(s, n, DropPromote(promoted))
    ensures Measured(DropApply(s, n, DropPromote(promoted)), n)
  {
  }

  lemma FlushMeasured(s: System, f: FlushStep, n: Id)
    requires Global(s) && IdSafe(s, n) && Measured(s, n) && Distinct(Batch(s)) && FlushEnabled(s, f)
    ensures Measured(FlushApply(s, f), n) && Distinct(Batch(FlushApply(s, f)))
  {
    if f.FlushDelete? { DeleteMeasured(s, f.gone, n); }
  }

  lemma DeleteMeasured(s: System, gone: bool, n: Id)
    requires Global(s) && IdSafe(s, n) && Measured(s, n) && Distinct(Batch(s)) && FlushEnabled(s, FlushDelete(gone))
    ensures Measured(FlushApply(s, FlushDelete(gone)), n) && Distinct(Batch(FlushApply(s, FlushDelete(gone))))
  {
    var batch := s.lock.batch;
    forall i | 0 <= i < |batch| - 1
      ensures batch[1..][i].id != batch[0].id
    {
      assert batch[1..][i] == batch[i + 1];
    }
  }

  lemma BootMeasured(s: System, b: BootStep, n: Id)
    requires Global(s) && IdSafe(s, n) && Measured(s, n) && BootEnabled(s, b)
    ensures Measured(BootApply(s, b), n)
  {
  }

  lemma StepMeasured(s: System, a: Step, n: Id)
    requires Safe(s) && Metered(s) && Enabled(s, a)
    ensures Measured(Apply(s, a), n)
  {
    assert IdSafe(s, n) && Measured(s, n);
    var t := Apply(s, a);
    match a
    case Boot(b) => BootMeasured(s, b, n);
    case Admit(m, b) =>
      if m == n {
        AdmitMeasured(s, n, b);
      } else {
        AdmitFrames(s, m, b, n);
        AdmitStill(s, m, b, n);
        StillMeasured(s, t, n);
      }
    case Push(m, b) =>
      if m == n {
        PushMeasured(s, n, b);
      } else {
        PushFrames(s, m, b, n);
        PushStill(s, m, b, n);
        StillMeasured(s, t, n);
      }
    case Cancel(m, b) =>
      if m == n {
        CancelMeasured(s, n, b);
      } else {
        CancelFrames(s, m, b, n);
        CancelStill(s, m, b, n);
        StillMeasured(s, t, n);
      }
    case Drop(m, b) =>
      if m == n {
        DropMeasured(s, n, b);
      } else {
        DropFrames(s, m, b, n);
        DropStill(s, m, b, n);
        StillMeasured(s, t, n);
      }
    case Flush(f) => FlushMeasured(s, f, n);
  }

  lemma StepMetered(s: System, a: Step)
    requires Safe(s) && Metered(s) && Enabled(s, a)
    ensures Metered(Apply(s, a))
  {
    forall n ensures Measured(Apply(s, a), n) { StepMeasured(s, a, n); }
    if a.Flush? {
      assert IdSafe(s, 0) && Measured(s, 0);
      FlushMeasured(s, a.flush, 0);
    }
  }

  lemma {:induction false} RunMetered(run: seq<System>, i: nat)
    requires IsRun(run) && i < |run|
    ensures Metered(run[i])
  {
    if i > 0 {
      RunMetered(run, i - 1);
      RunSafe(run, i - 1);
      assert Linked(run, i - 1);
      var a :| Enabled(run[i - 1], a) && run[i] == Apply(run[i - 1], a);
      StepMetered(run[i - 1], a);
    }
  }

  // ---------------------------------------------------------------------------
  // Sums
  // ---------------------------------------------------------------------------

  lemma {:induction false} OwedChanges(s: System, t: System, n: Id, k: nat)
    requires forall m: nat :: m < k && m != n ==> OwedBy(s, m) == OwedBy(t, m)
    ensures Owed(t, k) == Owed(s, k) + if n < k then OwedBy(t, n) - OwedBy(s, n) else 0
  {
    if k > 0 { OwedChanges(s, t, n, k - 1); }
  }

  lemma {:induction false} OwedAtStart(s: System, k: nat)
    requires s.rs == map[]
    ensures Owed(s, k) == SizeUpTo(s.dir, k)
  {
    if k > 0 { OwedAtStart(s, k - 1); }
  }

  lemma {:induction false} OwedAtLeast(s: System, n: Id, k: nat)
    requires n < k
    ensures OwedBy(s, n) <= Owed(s, k)
  {
    if n < k - 1 { OwedAtLeast(s, n, k - 1); }
  }

  /** If only `n` is touched, the gap moves by the counter's change less the change of what `n` owes. */
  lemma GapMoves(s: System, t: System, n: Id)
    requires (forall m :: m != n ==> Still(s, t, m)) && n < t.next
    requires t.next == s.next || (t.next == s.next + 1 && n == s.next && OwedBy(s, n) == 0)
    ensures Gap(t) - Gap(s) == (t.admitted - s.admitted) - (OwedBy(t, n) - OwedBy(s, n))
  {
    forall m | m != n ensures OwedBy(s, m) == OwedBy(t, m) { assert Still(s, t, m); }
    OwedChanges(s, t, n, t.next);
  }

  lemma WrapSubIs(a: nat, b: nat)
    requires b <= U64_MAX + 1
    ensures WrapSub(a, b) == a - b + if a < b then U64_MAX + 1 else 0
  {
  }

  // ---------------------------------------------------------------------------
  // The drift of each family of steps
  // ---------------------------------------------------------------------------

  /** The counter and the debt of `n` moved by `drift` apart. */
  ghost predicate Moved(s: System, t: System, n: Id, drift: int) {
    && n < t.next
    && (t.next == s.next || (t.next == s.next + 1 && n == s.next && OwedBy(s, n) == 0))
    && (t.admitted - s.admitted) - (OwedBy(t, n) - OwedBy(s, n)) == drift
  }

  lemma AdmitMoves(s: System, n: Id, a: AdmitStep)
    requires IdSafe(s, n) && s.dir in s.disk && AdmitEnabled(s, n, a)
    ensures Moved(s, AdmitApply(s, n, a), n, Drift(s, Admit(n, a)))
  {
  }

  lemma PushMoves(s: System, n: Id, p: PushStep)
    requires IdSafe(s, n) && s.dir in s.disk && Measured(s, n) && PushEnabled(s, n, p)
    ensures Moved(s, PushApply(s, n, p), n, Drift(s, Push(n, p)))
  {
    WrapSubIs(s.admitted, Taken(s, Push(n, p)));
  }

  lemma CancelMoves(s: System, n: Id, c: CancelStep)
    requires IdSafe(s, n) && s.dir in s.disk && Measured(s, n) && CancelEnabled(s, n, c)
    ensures Moved(s, CancelApply(s, n, c), n, Drift(s, Cancel(n, c)))
  {
    WrapSubIs(s.admitted, Taken(s, Cancel(n, c)));
  }

  lemma DropMoves(s: System, n: Id, d: DropStep)
    requires IdSafe(s, n) && s.dir in s.disk && Measured(s, n) && DropEnabled(s, n, d)
    ensures Moved(s, DropApply(s, n, d), n, Drift(s, Drop(n, d)))
  {
    if d.DropPromote? { PromoteMoves(s, n, d.promoted); } else { SettleMoves(s, n, d); }
  }

  lemma SettleMoves(s: System, n: Id, d: DropStep)
    requires IdSafe(s, n) && s.dir in s.disk && Measured(s, n) && DropEnabled(s, n, d) && !d.DropPromote?
    ensures Moved(s, DropApply(s, n, d), n, Drift(s, Drop(n, d)))
  {
    WrapSubIs(s.admitted, Taken(s, Drop(n, d)));
  }

  lemma PromoteMoves(s: System, n: Id, promoted: bool)
    requires IdSafe(s, n) && s.dir in s.disk && Measured(s, n) && DropEnabled(s, n, DropPromote(promoted))
    ensures Moved(s, DropApply(s, n, DropPromote(promoted)), n, Drift(s, Drop(n, DropPromote(promoted))))
  {
  }

  lemma DeleteMoves(s: System, gone: bool)
    requires FlushEnabled(s, FlushDelete(gone))
    requires var n := s.lock.batch[0].id; IdSafe(s, n) && Measured(s, n)
    ensures Moved(s, FlushApply(s, FlushDelete(gone)), s.lock.batch[0].id, Drift(s, Flush(FlushDelete(gone))))
  {
  }

  lemma LandMoves(s: System, op: Late)
    requires IdSafe(s, op.n) && BootEnabled(s, Land(op))
    ensures Moved(s, BootApply(s, Land(op)), op.n, Drift(s, Boot(Land(op))))
  {
  }

  /** Every step of a running process moves the gap by exactly its drift. */
  lemma StepDrifts(s: System, a: Step)
    requires Safe(s) && Metered(s) && s.mode == Up && Enabled(s, a) && !(a.Boot? && a.boot.Crash?)
    ensures Gap(Apply(s, a)) == Gap(s) + Drift(s, a)
  {
    var t := Apply(s, a);
    match a
    case Boot(b) =>
      assert IdSafe(s, b.op.n);
      forall m | m != b.op.n ensures Still(s, t, m) { LandStill(s, b.op, m); }
      LandMoves(s, b.op);
      GapMoves(s, t, b.op.n);
    case Admit(n, b) =>
      assert IdSafe(s, n);
      forall m | m != n ensures Still(s, t, m) { AdmitStill(s, n, b, m); }
      AdmitMoves(s, n, b);
      GapMoves(s, t, n);
    case Push(n, b) =>
      assert IdSafe(s, n) && Measured(s, n);
      forall m | m != n ensures Still(s, t, m) { PushStill(s, n, b, m); }
      PushMoves(s, n, b);
      GapMoves(s, t, n);
    case Cancel(n, b) =>
      assert IdSafe(s, n) && Measured(s, n);
      forall m | m != n ensures Still(s, t, m) { CancelStill(s, n, b, m); }
      CancelMoves(s, n, b);
      GapMoves(s, t, n);
    case Drop(n, b) =>
      assert IdSafe(s, n) && Measured(s, n);
      forall m | m != n ensures Still(s, t, m) { DropStill(s, n, b, m); }
      DropMoves(s, n, b);
      GapMoves(s, t, n);
    case Flush(f) => FlushDrifts(s, f);
  }

  lemma FlushDrifts(s: System, f: FlushStep)
    requires Safe(s) && Metered(s) && FlushEnabled(s, f)
    ensures Gap(FlushApply(s, f)) == Gap(s) + Drift(s, Flush(f))
  {
    var t := FlushApply(s, f);
    if f.FlushDelete? {
      var n := s.lock.batch[0].id;
      assert IdSafe(s, n) && Measured(s, n);
      forall m | m != n ensures Still(s, t, m) { FlushStill(s, f, m); }
      DeleteMoves(s, f.gone);
      GapMoves(s, t, n);
    } else {
      forall m ensures OwedBy(s, m) == OwedBy(t, m) { FlushStill(s, f, m); }
      OwedChanges(s, t, s.next, s.next);
    }
  }

  // ---------------------------------------------------------------------------
  // Which way a step drifts
  // ---------------------------------------------------------------------------

  /** While nothing is undercounted, no subtraction wraps. */
  lemma CoveredNeverWraps(s: System, a: Step)
    requires Safe(s) && Metered(s) && Enabled(s, a) && Gap(s) >= 0
    ensures !Wraps(s, a)
  {
    if Taken(s, a) > 0 {
      assert IdSafe(s, a.n) && Measured(s, a.n);
      OwedAtLeast(s, a.n, s.next);
    }
  }

  /** While nothing is undercounted, the drift is negative exactly for the steps that lose bytes and
      positive exactly for those that keep them. */
  lemma DriftSign(s: System, a: Step)
    requires Safe(s) && Metered(s) && Enabled(s, a) && Gap(s) >= 0
    ensures Drift(s, a) < 0 <==> Undercounts(s, a)
    ensures Drift(s, a) > 0 <==> Overcounts(s, a)
  {
    CoveredNeverWraps(s, a);
    if Deletes(a) {
      DeleteSign(s);
    } else if a.Drop? {
      assert IdSafe(s, a.n) && Measured(s, a.n);
      DropSign(s, a.n, a.drop);
    }
  }

  lemma DeleteSign(s: System)
    requires Safe(s) && Metered(s) && FlushEnabled(s, FlushDelete(true)) && Gap(s) >= 0
    ensures var a := Flush(FlushDelete(true));
            (Drift(s, a) < 0 <==> Undercounts(s, a)) && (Drift(s, a) > 0 <==> Overcounts(s, a))
  {
    var e := s.lock.batch[0];
    assert IdSafe(s, e.id) && Measured(s, e.id) && e in Batch(s);
    OwedAtLeast(s, e.id, s.next);
  }

  lemma DropSign(s: System, n: Id, d: DropStep)
    requires s.dir in s.disk && Measured(s, n) && DropEnabled(s, n, d) && !Wraps(s, Drop(n, d))
    ensures Drift(s, Drop(n, d)) < 0 <==> Undercounts(s, Drop(n, d))
    ensures Drift(s, Drop(n, d)) > 0 <==> Overcounts(s, Drop(n, d))
  {
  }
}
