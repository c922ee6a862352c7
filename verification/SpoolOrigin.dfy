/** Where the records of the request-log spool come from: whatever is stored for an armed reservation is
    the fallback it was armed with or the record it was claimed for. */
module SpoolOrigin {
  import opened SpoolModel
  import opened SpoolSafety

  /** The fallback `n` was armed with, or the record it was claimed for. */
  ghost predicate Genuine(s: System, n: Id, x: Entry) {
    || (n in s.hist.fallbacks && x == s.hist.fallbacks[n])
    || (n in s.hist.claims && x == s.hist.claims[n])
  }

  /** Every copy of the record of an armed reservation, in every directory a crash may leave and on its
      way anywhere, is genuine; a marker holds the fallback. */
  ghost predicate AllGenuine(s: System, n: Id)
    requires n in s.hist.fallbacks
  {
    && (forall d :: d in s.disk && n in d.markers && d.markers[n].Fallback? ==>
          d.markers[n].entry == s.hist.fallbacks[n])
    && (forall d :: d in s.disk && n in d.finals ==> Genuine(s, n, d.finals[n]))
    && (forall e :: e in Batch(s) && e.id == n ==> Genuine(s, n, e))
    && (forall op :: op in s.late && op.n == n && op.LateFinal? ==> Genuine(s, n, op.e))
    && (forall k :: 0 <= k < |s.db| && s.db[k].id == n ==> Genuine(s, n, s.db[k]))
  }

  ghost predicate Traced(s: System, n: Id) {
    && (n in s.hist.armed <==> n in s.hist.fallbacks)
    && (n >= s.next ==> n !in s.hist.claims)
    && (n in s.rs && s.rs[n].phase.Claimed? ==> n in s.hist.claims && s.hist.claims[n] == s.rs[n].phase.terminal)
    && (n in s.rs && Unclaimed(s.rs[n].phase) ==> n !in s.hist.claims)
    && (n in s.hist.fallbacks ==> AllGenuine(s, n))
  }

  predicate Unclaimed(p: Phase) { p.Unarmed? || p.Arming? || p.ArmLost? || p.Armed? || p.Canceling? }

  // ---------------------------------------------------------------------------
  // Ids a step does not touch
  // ---------------------------------------------------------------------------

  ghost predicate SameNames(s: System, t: System, n: Id) {
    && (n in s.hist.claims <==> n in t.hist.claims)
    && (n in s.hist.claims ==> s.hist.claims[n] == t.hist.claims[n])
    && (n in s.hist.fallbacks <==> n in t.hist.fallbacks)
    && (n in s.hist.fallbacks ==> s.hist.fallbacks[n] == t.hist.fallbacks[n])
  }

  lemma FrameTraced(s: System, t: System, n: Id)
    requires s.dir in s.disk && Traced(s, n) && Frame(s, t, n) && SameNames(s, t, n)
    ensures Traced(t, n)
  {
  }

  lemma AdmitNames(s: System, m: Id, a: AdmitStep, n: Id)
    requires AdmitEnabled(s, m, a) && n != m
    ensures SameNames(s, AdmitApply(s, m, a), n)
  {
  }

  lemma PushNames(s: System, m: Id, p: PushStep, n: Id)
    requires PushEnabled(s, m, p) && n != m
    ensures SameNames(s, PushApply(s, m, p), n)
  {
  }

  lemma CancelNames(s: System, m: Id, c: CancelStep, n: Id)
    requires CancelEnabled(s, m, c)
    ensures SameNames(s, CancelApply(s, m, c), n)
  {
  }

  lemma DropNames(s: System, m: Id, d: DropStep, n: Id)
    requires DropEnabled(s, m, d)
    ensures SameNames(s, DropApply(s, m, d), n)
  {
  }

  // ---------------------------------------------------------------------------
  // Each family of steps
  // ---------------------------------------------------------------------------

  lemma BootTraced(s: System, b: BootStep, n: Id)
    requires Global(s) && IdSafe(s, n) && Traced(s, n) && BootEnabled(s, b)
    ensures Traced(BootApply(s, b), n)
  {
  }

  lemma AdmitTraced(s: System, n: Id, a: AdmitStep)
    requires Global(s) && IdSafe(s, n) && Traced(s, n) && AdmitEnabled(s, n, a)
    ensures Traced(AdmitApply(s, n, a), n)
  {
    if a.ArmDone? { ArmDoneTraced(s, n); } else { BeforeArmTraced(s, n, a); }
  }

  /** Arming succeeds with the fallback in every directory a crash may leave and nothing else anywhere. */
  lemma ArmDoneTraced(s: System, n: Id)
    requires Global(s) && IdSafe(s, n) && Traced(s, n) && AdmitEnabled(s, n, ArmDone)
    ensures Traced(AdmitApply(s, n, ArmDone), n)
  {
    assert forall k :: 0 <= k < |s.db| && s.db[k].id == n ==> HasRow(s.db, n);
  }

  lemma BeforeArmTraced(s: System, n: Id, a: AdmitStep)
    requires Global(s) && IdSafe(s, n) && Traced(s, n) && AdmitEnabled(s, n, a) && !a.ArmDone?
    ensures Traced(AdmitApply(s, n, a), n)
  {
  }

  lemma PushTraced(s: System, n: Id, p: PushStep)
    requires Global(s) && IdSafe(s, n) && Traced(s, n) && PushEnabled(s, n, p)
    ensures Traced(PushApply(s, n, p), n)
  {
    if p.Claim? {
      ClaimTraced(s, n, p.e);
    } else if p.PushConsume? {
      ConsumeTraced(s, n, p.removal);
    } else {
      WriteTraced(s, n, p);
    }
  }

  lemma ClaimTraced(s: System, n: Id, e: Entry)
    requires IdSafe(s, n) && Traced(s, n) && PushEnabled(s, n, Claim(e))
    ensures Traced(PushApply(s, n, Claim(e)), n)
  {
  }

  lemma ConsumeTraced(s: System, n: Id, r: Removal)
    requires Global(s) && Traced(s, n) && PushEnabled(s, n, PushConsume(r))
    ensures Traced(PushApply(s, n, PushConsume(r)), n)
  {
  }

  lemma WriteTraced(s: System, n: Id, p: PushStep)
    requires Global(s) && Traced(s, n) && PushEnabled(s, n, p) && !p.Claim? && !p.PushConsume?
    ensures Traced(PushApply(s, n, p), n)
  {
  }

  lemma CancelTraced(s: System, n: Id, c: CancelStep)
    requires Global(s) && Traced(s, n) && CancelEnabled(s, n, c)
    ensures Traced(CancelApply(s, n, c), n)
  {
  }

  lemma DropTraced(s: System, n: Id, d: DropStep)
    requires Global(s) && IdSafe(s, n) && Traced(s, n) && DropEnabled(s, n, d)
    ensures Traced(DropApply(s, n, d), n)
  {
    match d
    case DropPromote(promoted) => PromoteTraced(s, n, promoted);
    case DropRelease(removal) => ReleaseTraced(s, n, removal);
    case _ => AccountTraced(s, n, d);
  }

  /** What the destructor promotes is the fallback. */
  lemma PromoteTraced(s: System, n: Id, promoted: bool)
    requires Global(s) && IdSafe(s, n) && Traced(s, n) && DropEnabled(s, n, DropPromote(promoted))
    ensures Traced(DropApply(s, n, DropPromote(promoted)), n)
  {
  }

  lemma ReleaseTraced(s: System, n: Id, r: Removal)
    requires Global(s) && Traced(s, n) && DropEnabled(s, n, DropRelease(r))
    ensures Traced(DropApply(s, n, DropRelease(r)), n)
  {
  }

  lemma AccountTraced(s: System, n: Id, d: DropStep)
    requires Global(s) && Traced(s, n) && DropEnabled(s, n, d) && !d.DropPromote? && !d.DropRelease?
    ensures Traced(DropApply(s, n, d), n)
  {
  }

  lemma FlushTraced(s: System, f: FlushStep, n: Id)
    requires Global(s) && IdSafe(s, n) && Traced(s, n) && FlushEnabled(s, f)
    ensures Traced(FlushApply(s, f), n)
  {
    if f.FlushCommit? && f.inserted { InsertTraced(s, f, n); }
  }

  lemma InsertTraced(s: System, f: FlushStep, n: Id)
    requires Global(s) && Traced(s, n) && FlushEnabled(s, f) && f.FlushCommit? && f.inserted
    ensures Traced(FlushApply(s, f), n)
  {
    InsertAllRows(s.db, s.lock.batch);
    var db := InsertAll(s.db, s.lock.batch);
    assert forall k :: 0 <= k < |s.db| ==> db[k] == s.db[k];
    assert forall k :: |s.db| <= k < |db| ==> db[k] in Batch(s);
  }

  lemma StepTraced(s: System, a: Step, n: Id)
    requires Safe(s) && Traced(s, n) && Enabled(s, a)
    ensures Traced(Apply(s, a), n)
  {
    assert IdSafe(s, n);
    var t := Apply(s, a);
    match a
    case Boot(b) => BootTraced(s, b, n);
    case Admit(m, b) =>
      if m == n {
        AdmitTraced(s, n, b);
      } else {
        AdmitFrames(s, m, b, n);
        AdmitNames(s, m, b, n);
        FrameTraced(s, t, n);
      }
    case Push(m, b) =>
      if m == n {
        PushTraced(s, n, b);
      } else {
        PushFrames(s, m, b, n);
        PushNames(s, m, b, n);
        FrameTraced(s, t, n);
      }
    case Cancel(m, b) =>
      if m == n {
        CancelTraced(s, n, b);
      } else {
        CancelFrames(s, m, b, n);
        CancelNames(s, m, b, n);
        FrameTraced(s, t, n);
      }
    case Drop(m, b) =>
      if m == n {
        DropTraced(s, n, b);
      } else {
        DropFrames(s, m, b, n);
        DropNames(s, m, b, n);
        FrameTraced(s, t, n);
      }
    case Flush(f) => FlushTraced(s, f, n);
  }

  lemma {:induction false} RunTraced(run: seq<System>, i: nat, n: Id)
    requires IsRun(run) && i < |run|
    ensures Traced(run[i], n)
  {
    if i > 0 {
      RunTraced(run, i - 1, n);
      RunSafe(run, i - 1);
      assert Linked(run, i - 1);
      var a :| Enabled(run[i - 1], a) && run[i] == Apply(run[i - 1], a);
      StepTraced(run[i - 1], a, n);
    }
  }

  // ---------------------------------------------------------------------------
  // Names come from steps, and stay
  // ---------------------------------------------------------------------------

  /** A claim of `n` for `x` before `j`. */
  ghost predicate ClaimedFor(run: seq<System>, j: nat, n: Id, x: Entry) {
    exists k :: 0 <= k < j && Took(run, k, Push(n, Claim(x)))
  }

  lemma StepNames(s: System, a: Step, n: Id)
    requires Enabled(s, a) && !(a.Push? && a.n == n && a.push.Claim?) && a != Admit(n, ArmDone)
    ensures SameNames(s, Apply(s, a), n)
  {
    match a
    case Boot(_) =>
    case Admit(m, b) =>
    case Push(m, b) => PushKeepsNames(s, m, b, n);
    case Cancel(m, b) => CancelNames(s, m, b, n);
    case Drop(m, b) => DropNames(s, m, b, n);
    case Flush(_) =>
  }

  lemma PushKeepsNames(s: System, m: Id, p: PushStep, n: Id)
    requires PushEnabled(s, m, p) && !(m == n && p.Claim?)
    ensures SameNames(s, PushApply(s, m, p), n)
  {
  }

  lemma {:induction false} ClaimHasCause(run: seq<System>, j: nat, n: Id)
    requires IsRun(run) && j < |run| && n in run[j].hist.claims
    ensures ClaimedFor(run, j, n, run[j].hist.claims[n])
  {
    if j > 0 {
      assert Linked(run, j - 1);
      var a :| Enabled(run[j - 1], a) && run[j] == Apply(run[j - 1], a);
      assert Took(run, j - 1, a);
      if !(a.Push? && a.n == n && a.push.Claim?) {
        ClaimsKept(run[j - 1], a, n);
        ClaimHasCause(run, j - 1, n);
      }
    }
  }

  lemma ClaimsKept(s: System, a: Step, n: Id)
    requires Enabled(s, a) && !(a.Push? && a.n == n && a.push.Claim?)
    ensures n in Apply(s, a).hist.claims <==> n in s.hist.claims
    ensures n in s.hist.claims ==> Apply(s, a).hist.claims[n] == s.hist.claims[n]
  {
    if a != Admit(n, ArmDone) { StepNames(s, a, n); }
  }

  lemma {:induction false} FallbackStays(run: seq<System>, i: nat, j: nat, n: Id)
    requires IsRun(run) && i <= j < |run| && n in run[i].hist.fallbacks
    ensures n in run[j].hist.fallbacks && run[j].hist.fallbacks[n] == run[i].hist.fallbacks[n]
  {
    if i < j {
      FallbackStays(run, i, j - 1, n);
      RunSafe(run, j - 1);
      RunTraced(run, j - 1, n);
      assert Linked(run, j - 1);
      var a :| Enabled(run[j - 1], a) && run[j] == Apply(run[j - 1], a);
      FallbackKept(run[j - 1], a, n);
    }
  }

  lemma FallbackKept(s: System, a: Step, n: Id)
    requires Safe(s) && Traced(s, n) && Enabled(s, a) && n in s.hist.fallbacks
    ensures n in Apply(s, a).hist.fallbacks && Apply(s, a).hist.fallbacks[n] == s.hist.fallbacks[n]
  {
    assert IdSafe(s, n);
    if !(a.Push? && a.n == n && a.push.Claim?) && a != Admit(n, ArmDone) { StepNames(s, a, n); }
  }

  // ---------------------------------------------------------------------------
  // What survives
  // ---------------------------------------------------------------------------

  /** The fallback `e`, or a record claimed for `n` before. */
  ghost predicate Faithful(run: seq<System>, j: nat, n: Id, e: Entry, x: Entry) {
    x == e || ClaimedFor(run, j, n, x)
  }

  lemma GenuineIsFaithful(run: seq<System>, j: nat, n: Id, e: Entry, x: Entry)
    requires IsRun(run) && j < |run| && n in run[j].hist.fallbacks && run[j].hist.fallbacks[n] == e
    requires Genuine(run[j], n, x)
    ensures Faithful(run, j, n, e, x)
  {
    if x != e { ClaimHasCause(run, j, n); }
  }

  /** From the return of arming on, through any number of crashes and recoveries, everything stored for
      the reservation is the fallback it was armed with or a record it was claimed for: a marker holds the
      fallback, and final files and rows one of the two. */
  lemma StoredIsGenuine(run: seq<System>, i: nat, j: nat, n: Id)
    requires IsRun(run) && Took(run, i, Admit(n, ArmDone)) && i < j < |run|
    ensures var s, e := run[j], run[i].rs[n].phase.fallback;
            && (forall d :: d in s.disk && n in d.markers && d.markers[n].Fallback? ==> d.markers[n] == Fallback(e))
            && (forall d :: d in s.disk && n in d.finals ==> Faithful(run, j, n, e, d.finals[n]))
            && (forall k :: 0 <= k < |s.db| && s.db[k].id == n ==> Faithful(run, j, n, e, s.db[k]))
  {
    RunTraced(run, j, n);
    FallbackStays(run, i + 1, j, n);
    var s, e := run[j], run[i].rs[n].phase.fallback;
    assert s.hist.fallbacks[n] == e;
    forall d | d in s.disk && n in d.finals ensures Faithful(run, j, n, e, d.finals[n]) {
      GenuineIsFaithful(run, j, n, e, d.finals[n]);
    }
    forall k | 0 <= k < |s.db| && s.db[k].id == n ensures Faithful(run, j, n, e, s.db[k]) {
      GenuineIsFaithful(run, j, n, e, s.db[k]);
    }
  }
}
