/** What the request-log spool promises over whole runs, with any number of crashes and restarts. */
module SpoolTheorems {
  import opened Common
  import opened SpoolModel
  import opened SpoolSafety
  import opened SpoolOrigin
  import opened SpoolQuota

  /** The steps that end a reservation: terminal push, cancel, release on drop, promotion on drop. */
  predicate Settles(a: Step, n: Id) {
    || (a.Push? && a.n == n && a.push.PushConsume?)
    || (a.Cancel? && a.n == n && a.cancel.CancelDone?)
    || (a.Drop? && a.n == n && (a.drop.DropRelease? || a.drop.PromoteAccount?))
  }

  // ---------------------------------------------------------------------------
  // History only grows, and each entry has one cause
  // ---------------------------------------------------------------------------

  ghost predicate Remembers(s: System, t: System, n: Id) {
    && (n in s.hist.armed ==> n in t.hist.armed)
    && (n in s.hist.cancelled ==> n in t.hist.cancelled)
    && (n in s.hist.pushed ==> n in t.hist.pushed && t.hist.pushed[n] == s.hist.pushed[n])
    && s.hist.settled[n] <= t.hist.settled[n]
  }

  lemma StepRemembers(s: System, a: Step, n: Id)
    requires Global(s) && IdSafe(s, n) && Enabled(s, a)
    ensures Remembers(s, Apply(s, a), n)
  {
    match a
    case Boot(b) => BootRemembers(s, b, n);
    case Admit(m, b) => AdmitRemembers(s, m, b, n);
    case Push(m, b) => PushRemembers(s, m, b, n);
    case Cancel(m, b) => CancelRemembers(s, m, b, n);
    case Drop(m, b) => if m != n { DropFrames(s, m, b, n); } else { DropRemembers(s, b, n); }
    case Flush(_) =>
  }

  lemma AdmitRemembers(s: System, m: Id, a: AdmitStep, n: Id)
    requires AdmitEnabled(s, m, a)
    ensures Remembers(s, AdmitApply(s, m, a), n)
  {
  }

  lemma PushRemembers(s: System, m: Id, p: PushStep, n: Id)
    requires IdSafe(s, n) && PushEnabled(s, m, p)
    ensures Remembers(s, PushApply(s, m, p), n)
  {
  }

  lemma CancelRemembers(s: System, m: Id, c: CancelStep, n: Id)
    requires CancelEnabled(s, m, c)
    ensures Remembers(s, CancelApply(s, m, c), n)
  {
  }

  lemma BootRemembers(s: System, b: BootStep, n: Id)
    requires BootEnabled(s, b)
    ensures Remembers(s, BootApply(s, b), n)
  {
  }

  lemma DropRemembers(s: System, d: DropStep, n: Id)
    requires DropEnabled(s, n, d)
    ensures Remembers(s, DropApply(s, n, d), n)
  {
  }

  lemma {:induction false} RunRemembers(run: seq<System>, i: nat, j: nat, n: Id)
    requires IsRun(run) && i <= j < |run|
    ensures Remembers(run[i], run[j], n)
  {
    if i < j {
      RunRemembers(run, i, j - 1, n);
      RunSafe(run, j - 1);
      assert Linked(run, j - 1);
      var a :| Enabled(run[j - 1], a) && run[j] == Apply(run[j - 1], a);
      assert IdSafe(run[j - 1], n);
      StepRemembers(run[j - 1], a, n);
    }
  }

  lemma SettlingCounts(run: seq<System>, i: nat, a: Step, n: Id)
    requires Took(run, i, a) && Settles(a, n)
    ensures run[i + 1].hist.settled[n] == run[i].hist.settled[n] + 1
  {
  }

  lemma CountedOnce(run: seq<System>, i: nat, n: Id)
    requires IsRun(run) && i < |run|
    ensures run[i].hist.settled[n] <= 1
  {
    RunSafe(run, i);
    assert IdSafe(run[i], n);
  }

  lemma CancelHasCause(s: System, a: Step, n: Id)
    requires Enabled(s, a) && n !in s.hist.cancelBegun && a != Cancel(n, CancelBegin)
    ensures n !in Apply(s, a).hist.cancelBegun
  {
    match a
    case Boot(b) =>
    case Admit(_, b) =>
    case Push(_, b) =>
    case Cancel(_, b) =>
    case Drop(m, b) => DropBeginsNothing(s, m, b);
    case Flush(b) =>
  }

  lemma DropBeginsNothing(s: System, m: Id, d: DropStep)
    requires DropEnabled(s, m, d)
    ensures DropApply(s, m, d).hist.cancelBegun == s.hist.cancelBegun
  {
  }

  lemma {:induction false} NeverCancelled(run: seq<System>, i: nat, j: nat, n: Id)
    requires IsRun(run) && i <= j < |run| && n !in run[i].hist.cancelBegun
    requires forall k :: i <= k < j ==> !Took(run, k, Cancel(n, CancelBegin))
    ensures n !in run[j].hist.cancelBegun
  {
    if i < j {
      NeverCancelled(run, i, j - 1, n);
      assert Linked(run, j - 1);
      var a :| Enabled(run[j - 1], a) && run[j] == Apply(run[j - 1], a);
      assert Took(run, j - 1, a);
      CancelHasCause(run[j - 1], a, n);
    }
  }

  // ---------------------------------------------------------------------------
  // Durability
  // ---------------------------------------------------------------------------

  /** `d` together with the database holds the fallback `e` of `n`, or the record of a claim of `n`. */
  ghost predicate Keeps(run: seq<System>, j: nat, d: Dir, n: Id, e: Entry)
    requires j < |run|
  {
    || (n in d.markers && d.markers[n] == Fallback(e))
    || (n in d.finals && Faithful(run, j, n, e, d.finals[n]))
    || (exists k :: 0 <= k < |run[j].db| && run[j].db[k].id == n && Faithful(run, j, n, e, run[j].db[k]))
  }

  /** Once arming has returned, and until someone begins to cancel it, the record is in an armed
      marker, a final file or the database: in the running directory and in every directory a
      crash could leave.  What is there is the fallback named at arming or a record claimed since,
      and the fallback itself if nothing was ever claimed. */
  lemma ArmedIsNeverLost(run: seq<System>, i: nat, j: nat, n: Id)
    requires IsRun(run) && Took(run, i, Admit(n, ArmDone)) && i < j < |run|
    requires forall k :: i < k < j ==> !Took(run, k, Cancel(n, CancelBegin))
    ensures CoveredIn(run[j], run[j].dir, n)
    ensures forall d :: d in run[j].disk ==> CoveredIn(run[j], d, n)
    ensures run[j].dir in run[j].disk
    ensures var e := run[i].rs[n].phase.fallback; forall d :: d in run[j].disk ==> Keeps(run, j, d, n, e)
    ensures var e := run[i].rs[n].phase.fallback;
            (forall x :: !ClaimedFor(run, j, n, x)) ==>
              forall d :: d in run[j].disk ==>
                || (n in d.markers && d.markers[n] == Fallback(e))
                || (n in d.finals && d.finals[n] == e)
                || e in run[j].db
  {
    RunSafe(run, i);
    RunSafe(run, j);
    assert IdSafe(run[i], n) && IdSafe(run[j], n);
    RunRemembers(run, i + 1, j, n);
    NeverCancelled(run, i + 1, j, n);
    StoredIsGenuine(run, i, j, n);
    forall d | d in run[j].disk ensures Keeps(run, j, d, n, run[i].rs[n].phase.fallback) {
      assert CoveredIn(run[j], d, n);
    }
  }

  /** The database never holds two rows for one id. */
  lemma RowsAreUnique(run: seq<System>, i: nat)
    requires IsRun(run) && i < |run|
    ensures OneRowPerId(run[i].db)
  {
    RunSafe(run, i);
  }

  /** Once the terminal record of a push is durable, no later row for its id is anything else, and
      until the row exists the final file holds the record. */
  lemma TerminalWins(run: seq<System>, i: nat, j: nat, n: Id)
    requires IsRun(run) && Took(run, i, Push(n, PushSync)) && i < j < |run|
    ensures var e := run[i].rs[n].phase.terminal;
            && (forall k :: 0 <= k < |run[j].db| && run[j].db[k].id == n ==> run[j].db[k] == e)
            && (e in run[j].db || (n in run[j].dir.finals && run[j].dir.finals[n] == e))
            && (e in run[j].db || forall d :: d in run[j].disk ==> n in d.finals && d.finals[n] == e)
  {
    RunSafe(run, j);
    assert IdSafe(run[j], n);
    RunRemembers(run, i + 1, j, n);
    var e := run[i].rs[n].phase.terminal;
    assert run[i + 1].hist.pushed[n] == e;
    assert WonBy(run[j], n, e);
    forall k | 0 <= k < |run[j].db| && run[j].db[k].id == n
      ensures run[j].db[k] == e
    {
      assert HasRow(run[j].db, n);
      var m :| 0 <= m < |run[j].db| && run[j].db[m] == e;
    }
  }

  /** A cancellation that returned leaves no marker, no file and no row, ever. */
  lemma CancelledIsGone(run: seq<System>, i: nat, j: nat, n: Id)
    requires IsRun(run) && Took(run, i, Cancel(n, CancelDone)) && i < j < |run|
    ensures !HasRow(run[j].db, n)
    ensures forall d :: d in run[j].disk ==> n !in d.markers && n !in d.finals
  {
    RunSafe(run, j);
    assert IdSafe(run[j], n);
    RunRemembers(run, i + 1, j, n);
  }

  /** A reservation is settled at most once, whichever of its clones gets there. */
  lemma SettledAtMostOnce(run: seq<System>, i: nat, j: nat, n: Id, a: Step, b: Step)
    requires IsRun(run) && i < j && Took(run, i, a) && Took(run, j, b) && Settles(a, n)
    ensures !Settles(b, n)
  {
    SettlingCounts(run, i, a, n);
    RunRemembers(run, i + 1, j, n);
    CountedOnce(run, j + 1, n);
    if Settles(b, n) { SettlingCounts(run, j, b, n); }
  }

  // ---------------------------------------------------------------------------
  // Quota
  // ---------------------------------------------------------------------------

  predicate Crashes(a: Step) { a.Boot? && a.boot.Crash? }

  function Unsettled(s: System, k: nat): nat {
    if k == 0 then 0
    else Unsettled(s, k - 1) + if k - 1 in s.rs && !s.rs[k - 1].phase.Consumed? then OwedBy(s, k - 1) else 0
  }

  function OtherFiles(s: System, k: nat): nat {
    if k == 0 then 0
    else
      OtherFiles(s, k - 1)
      + if k - 1 in s.dir.finals && !(k - 1 in s.rs && !s.rs[k - 1].phase.Consumed?)
        then s.dir.finals[k - 1].bytes else 0
  }

  lemma {:induction false} OwedSplits(s: System, k: nat)
    ensures Owed(s, k) == Unsettled(s, k) + OtherFiles(s, k)
  {
    if k > 0 { OwedSplits(s, k - 1); }
  }

  /** At every step of a running process the counter moves away from what is owed by exactly the
      drift of the step, whatever happened before. */
  lemma CounterDrifts(run: seq<System>, i: nat, a: Step)
    requires IsRun(run) && Took(run, i, a) && run[i].mode == Up && !Crashes(a)
    ensures Gap(run[i + 1]) == Gap(run[i]) + Drift(run[i], a)
  {
    RunSafe(run, i);
    RunMetered(run, i);
    StepDrifts(run[i], a);
  }

  /** A counter that is exact stays exact precisely through the steps that neither lose nor keep bytes. */
  lemma ExactIff(run: seq<System>, i: nat, a: Step)
    requires IsRun(run) && Took(run, i, a) && run[i].mode == Up && !Crashes(a) && Gap(run[i]) == 0
    ensures Gap(run[i + 1]) == 0 <==> !Undercounts(run[i], a) && !Overcounts(run[i], a)
    ensures Gap(run[i + 1]) < 0 <==> Undercounts(run[i], a)
  {
    CounterDrifts(run, i, a);
    RunSafe(run, i);
    RunMetered(run, i);
    DriftSign(run[i], a);
  }

  /** A successful start is exact precisely when the files found fit in 64 bits; a start that could not
      read its directory precisely when there is no file. */
  lemma StartIsExactIff(run: seq<System>, i: nat, a: Step)
    requires IsRun(run) && Took(run, i, a) && (a == Boot(RecoverDone) || a == Boot(RecoverFail))
    ensures a == Boot(RecoverDone) ==> (Gap(run[i + 1]) == 0 <==> SizeUpTo(run[i].dir, run[i].next) <= U64_MAX)
    ensures a == Boot(RecoverFail) ==> (Gap(run[i + 1]) == 0 <==> run[i].dir.finals == map[])
    ensures run[i + 1].admitted <= Ceiling(run[i + 1])
  {
    RunSafe(run, i);
    RunMetered(run, i);
    OwedAtStart(run[i + 1], run[i + 1].next);
    if a == Boot(RecoverFail) { NoFilesIff(run[i]); }
  }

  lemma NoFilesIff(s: System)
    requires Safe(s) && Metered(s)
    ensures SizeUpTo(s.dir, s.next) == 0 <==> s.dir.finals == map[]
  {
    if n :| n in s.dir.finals {
      assert IdSafe(s, n) && Measured(s, n);
      SizeAtLeast(s.dir, n, s.next);
    } else {
      NoSize(s.dir, s.next);
    }
  }

  lemma {:induction false} SizeAtLeast(d: Dir, n: Id, k: nat)
    requires n < k && n in d.finals
    ensures d.finals[n].bytes <= SizeUpTo(d, k)
  {
    if n < k - 1 { SizeAtLeast(d, n, k - 1); }
  }

  lemma {:induction false} NoSize(d: Dir, k: nat)
    requires forall n :: n !in d.finals
    ensures SizeUpTo(d, k) == 0
  {
    if k > 0 { NoSize(d, k - 1); }
  }

  /** The step at `k` is not a crash and does not lose bytes. */
  ghost predicate Covers(run: seq<System>, k: nat)
    ensures Covers(run, k) ==> k + 1 < |run|
  {
    exists a :: Took(run, k, a) && !Crashes(a) && !Undercounts(run[k], a)
  }

  /** Nor does it keep any. */
  ghost predicate Balances(run: seq<System>, k: nat)
    ensures Balances(run, k) ==> k + 1 < |run|
  {
    exists a :: Took(run, k, a) && !Crashes(a) && !Undercounts(run[k], a) && !Overcounts(run[k], a)
  }

  lemma CoversOne(run: seq<System>, k: nat, a: Step)
    requires IsRun(run) && Took(run, k, a) && !Crashes(a) && !Undercounts(run[k], a)
    requires run[k].mode == Up && Gap(run[k]) >= 0 && run[k].admitted <= Ceiling(run[k])
    ensures run[k + 1].mode == Up && Gap(run[k + 1]) >= Gap(run[k]) && run[k + 1].admitted <= Ceiling(run[k + 1])
    ensures !Overcounts(run[k], a) ==> Gap(run[k + 1]) == Gap(run[k])
  {
    CounterDrifts(run, k, a);
    RunSafe(run, k);
    RunMetered(run, k);
    DriftSign(run[k], a);
    CoveredNeverWraps(run[k], a);
    StaysBelow(run[k], a);
  }

  lemma CoversNext(run: seq<System>, k: nat)
    requires IsRun(run) && Covers(run, k)
    requires run[k].mode == Up && Gap(run[k]) >= 0 && run[k].admitted <= Ceiling(run[k])
    ensures run[k + 1].mode == Up && Gap(run[k + 1]) >= Gap(run[k]) && run[k + 1].admitted <= Ceiling(run[k + 1])
  {
    var a :| Took(run, k, a) && !Crashes(a) && !Undercounts(run[k], a);
    CoversOne(run, k, a);
  }

  lemma BalancesNext(run: seq<System>, k: nat)
    requires IsRun(run) && Balances(run, k)
    requires run[k].mode == Up && Gap(run[k]) >= 0 && run[k].admitted <= Ceiling(run[k])
    ensures Gap(run[k + 1]) == Gap(run[k])
  {
    var a :| Took(run, k, a) && !Crashes(a) && !Undercounts(run[k], a) && !Overcounts(run[k], a);
    CoversOne(run, k, a);
  }

  lemma StaysBelow(s: System, a: Step)
    requires Enabled(s, a) && s.mode == Up && !Crashes(a) && !Wraps(s, a) && s.admitted <= Ceiling(s)
    ensures Apply(s, a).mode == Up && Apply(s, a).admitted <= Ceiling(Apply(s, a))
  {
    if a.Drop? { DropStaysBelow(s, a.n, a.drop); }
  }

  lemma DropStaysBelow(s: System, n: Id, d: DropStep)
    requires DropEnabled(s, n, d) && !Wraps(s, Drop(n, d))
    ensures var t := DropApply(s, n, d); t.mode == s.mode && t.admitted <= s.admitted && Ceiling(t) == Ceiling(s)
  {
  }

  lemma {:induction false} NeverUndercounts(run: seq<System>, i: nat, j: nat)
    requires IsRun(run) && i <= j < |run| && (forall k :: i <= k < j ==> Covers(run, k))
    requires run[i].mode == Up && Gap(run[i]) >= 0 && run[i].admitted <= Ceiling(run[i])
    ensures run[j].mode == Up && Gap(run[j]) >= Gap(run[i]) && run[j].admitted <= Ceiling(run[j])
  {
    if i < j {
      NeverUndercounts(run, i, j - 1);
      assert Covers(run, j - 1);
      CoversNext(run, j - 1);
    }
  }

  lemma {:induction false} StaysBalanced(run: seq<System>, i: nat, j: nat)
    requires IsRun(run) && i <= j < |run| && (forall k :: i <= k < j ==> Covers(run, k))
    requires forall k :: i <= k < j ==> Balances(run, k)
    requires run[i].mode == Up && Gap(run[i]) >= 0 && run[i].admitted <= Ceiling(run[i])
    ensures Gap(run[j]) == Gap(run[i])
  {
    if i < j {
      StaysBalanced(run, i, j - 1);
      NeverUndercounts(run, i, j - 1);
      assert Balances(run, j - 1);
      BalancesNext(run, j - 1);
    }
  }

  /** From a successful start, for as long as no step loses bytes: admitted bytes cover the unsettled
      reservations and the other visible files, and never exceed the larger of the quota and the bytes
      found at startup.  They are exactly that sum if no step keeps bytes either. */
  lemma QuotaIsConserved(run: seq<System>, i: nat, j: nat)
    requires IsRun(run) && Took(run, i, Boot(RecoverDone)) && i < j < |run|
    requires SizeUpTo(run[i].dir, run[i].next) <= U64_MAX && forall k :: i < k < j ==> Covers(run, k)
    ensures var s := run[j];
            && Unsettled(s, s.next) + OtherFiles(s, s.next) <= s.admitted <= Ceiling(s)
            && ((forall k :: i < k < j ==> Balances(run, k)) ==>
                  s.admitted == Unsettled(s, s.next) + OtherFiles(s, s.next))
  {
    StartIsExactIff(run, i, Boot(RecoverDone));
    NeverUndercounts(run, i + 1, j);
    if forall k :: i < k < j ==> Balances(run, k) { StaysBalanced(run, i + 1, j); }
    OwedSplits(run[j], run[j].next);
  }

  /** Outside admission and startup the counter grows precisely when a subtraction wraps, and that
      takes an undercount. */
  lemma GrowsOnlyByWrapping(run: seq<System>, i: nat, a: Step)
    requires IsRun(run) && Took(run, i, a) && run[i].mode == Up && !a.Boot? && !a.Admit?
    ensures run[i + 1].admitted > run[i].admitted <==> Wraps(run[i], a)
    ensures Wraps(run[i], a) ==> Gap(run[i]) < 0
  {
    var s := run[i];
    RunSafe(run, i);
    RunMetered(run, i);
    if Gap(s) >= 0 { CoveredNeverWraps(s, a); }
    match a
    case Push(n, b) => assert Measured(s, n); PushGrowsIff(s, n, b);
    case Cancel(n, b) => assert Measured(s, n); WrapSubIs(s.admitted, Taken(s, a));
    case Drop(n, b) => assert Measured(s, n); DropGrowsIff(s, n, b);
    case Flush(f) =>
  }

  lemma PushGrowsIff(s: System, n: Id, p: PushStep)
    requires PushEnabled(s, n, p) && Measured(s, n)
    ensures PushApply(s, n, p).admitted > s.admitted <==> Wraps(s, Push(n, p))
  {
    WrapSubIs(s.admitted, Taken(s, Push(n, p)));
  }

  lemma DropGrowsIff(s: System, n: Id, d: DropStep)
    requires DropEnabled(s, n, d) && Measured(s, n)
    ensures DropApply(s, n, d).admitted > s.admitted <==> Wraps(s, Drop(n, d))
  {
    WrapSubIs(s.admitted, Taken(s, Drop(n, d)));
  }
}
