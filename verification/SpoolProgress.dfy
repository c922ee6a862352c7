/** What the request-log spool gets done when nothing fails: every operation can run to its end from any
    safe state that allows it, and its end is the one its caller was promised. */
module SpoolProgress {
  import opened Common
  import opened SpoolModel
  import opened SpoolSafety

  /** Taking `steps` from `s`, each enabled in turn, ends in `t`. */
  ghost predicate Leads(s: System, steps: seq<Step>, t: System) {
    Runs(s, steps) && After(s, steps) == t
  }

  lemma Then(s: System, a: Step, rest: seq<Step>, t: System)
    requires Enabled(s, a) && Leads(Apply(s, a), rest, t)
    ensures Leads(s, [a] + rest, t)
  {
    assert ([a] + rest)[1..] == rest;
  }

  lemma Once(s: System, a: Step)
    requires Enabled(s, a)
    ensures Leads(s, [a], Apply(s, a))
  {
    assert [a] + [] == [a];
    Then(s, a, [], Apply(s, a));
  }

  lemma Twice(s: System, a: Step, b: Step)
    requires Enabled(s, a) && Enabled(Apply(s, a), b)
    ensures Leads(s, [a, b], Apply(Apply(s, a), b))
  {
    Once(Apply(s, a), b);
    assert [a] + [b] == [a, b];
    Then(s, a, [b], Apply(Apply(s, a), b));
  }

  lemma Thrice(s: System, a: Step, b: Step, c: Step)
    requires Enabled(s, a) && Enabled(Apply(s, a), b) && Enabled(Apply(Apply(s, a), b), c)
    ensures Leads(s, [a, b, c], Apply(Apply(Apply(s, a), b), c))
  {
    Twice(Apply(s, a), b, c);
    assert [a] + [b, c] == [a, b, c];
    Then(s, a, [b, c], Apply(Apply(Apply(s, a), b), c));
  }

  lemma {:induction false} Joined(s: System, first: seq<Step>, t: System, second: seq<Step>, u: System)
    requires Leads(s, first, t) && Leads(t, second, u)
    ensures Leads(s, first + second, u)
    decreases |first|
  {
    if first == [] {
      assert first + second == second;
    } else {
      Joined(Apply(s, first[0]), first[1..], t, second, u);
      assert first + second == [first[0]] + (first[1..] + second);
      Then(s, first[0], first[1..] + second, u);
    }
  }

  // ---------------------------------------------------------------------------
  // Admission
  // ---------------------------------------------------------------------------

  /** Bytes are reserved exactly when they are some and fit under the quota beside those admitted; the
      largest quota admits any amount. */
  lemma ReservesIff(s: System, amount: nat)
    requires s.mode == Up && s.quota <= 18446744073709551615
    ensures Enabled(s, Admit(s.next, ReserveTerminal(amount))) <==>
              && 0 < amount <= s.quota
              && (s.admitted + amount <= s.quota || s.quota == 18446744073709551615)
  {
  }

  /** Reserving, probing and arming: the fallback is in the one directory a crash may leave. */
  lemma ArmingCompletes(s: System, amount: nat, e: Entry) returns (t: System)
    requires Safe(s) && s.mode == Up && s.quota <= U64_MAX && s.admitted + amount <= s.quota
    requires e.id == s.next && 0 < e.bytes <= amount
    ensures Leads(s, [Admit(e.id, ReserveTerminal(amount)), Admit(e.id, ProbeRename), Admit(e.id, ProbeDone)]
                     + [Admit(e.id, ArmBegin(e)), Admit(e.id, ArmRename), Admit(e.id, ArmDone)], t)
    ensures t.dir == s.dir.(markers := s.dir.markers[e.id := Fallback(e)]) && t.disk == {t.dir}
    ensures t.rs == s.rs[e.id := Reservation(amount, Armed, e.bytes, true, true, true)]
    ensures t.admitted == s.admitted + amount && t.db == s.db && t.next == e.id + 1 && e.id in t.hist.armed
  {
    var n := e.id;
    var s1 := Apply(s, Admit(n, ReserveTerminal(amount)));
    var s2 := Apply(s1, Admit(n, ProbeRename));
    var s3 := Apply(s2, Admit(n, ProbeDone));
    Thrice(s, Admit(n, ReserveTerminal(amount)), Admit(n, ProbeRename), Admit(n, ProbeDone));
    t := ArmAgainCompletes(s3, n, e);
    Joined(s, [Admit(n, ReserveTerminal(amount)), Admit(n, ProbeRename), Admit(n, ProbeDone)], s3,
           [Admit(n, ArmBegin(e)), Admit(n, ArmRename), Admit(n, ArmDone)], t);
  }

  /** A probed reservation can be armed, however often arming it failed before. */
  lemma ArmAgainCompletes(s: System, n: Id, e: Entry) returns (t: System)
    requires s.mode == Up && n in s.rs && s.rs[n].phase.Unarmed? && s.rs[n].probed && s.rs[n].marker
    requires e.id == n && 0 < e.bytes <= s.rs[n].bytes
    ensures Leads(s, [Admit(n, ArmBegin(e)), Admit(n, ArmRename), Admit(n, ArmDone)], t)
    ensures t.dir == s.dir.(markers := s.dir.markers[n := Fallback(e)]) && t.disk == {t.dir}
    ensures t.rs == s.rs[n := s.rs[n].(phase := Armed, armedBytes := e.bytes)]
    ensures t.admitted == s.admitted && t.db == s.db && t.next == s.next && n in t.hist.armed
  {
    t := Apply(Apply(Apply(s, Admit(n, ArmBegin(e))), Admit(n, ArmRename)), Admit(n, ArmDone));
    Thrice(s, Admit(n, ArmBegin(e)), Admit(n, ArmRename), Admit(n, ArmDone));
  }

  /** An admission whose probe fails leaves nothing behind: the probe is removed and the drop of the
      reservation gives its bytes back. */
  lemma FailedAdmissionUndone(s: System, amount: nat) returns (t: System)
    requires Safe(s) && s.mode == Up && s.quota <= U64_MAX && 0 < amount && s.admitted + amount <= s.quota
    ensures Leads(s, [Admit(s.next, ReserveTerminal(amount)), Admit(s.next, ProbeRename),
                      Admit(s.next, ProbeFail(true))] + [Drop(s.next, DropRelease(NotRemoved))], t)
    ensures t.dir == s.dir && t.rs == s.rs && t.admitted == s.admitted && t.db == s.db && t.next == s.next + 1
  {
    var n := s.next;
    assert IdSafe(s, n) && Fresh(s, n);
    var s2 := Apply(Apply(s, Admit(n, ReserveTerminal(amount))), Admit(n, ProbeRename));
    var s3 := Apply(s2, Admit(n, ProbeFail(true)));
    Thrice(s, Admit(n, ReserveTerminal(amount)), Admit(n, ProbeRename), Admit(n, ProbeFail(true)));
    t := Apply(s3, Drop(n, DropRelease(NotRemoved)));
    Once(s3, Drop(n, DropRelease(NotRemoved)));
    Joined(s, [Admit(n, ReserveTerminal(amount)), Admit(n, ProbeRename), Admit(n, ProbeFail(true))], s3,
           [Drop(n, DropRelease(NotRemoved))], t);
    assert s3.dir.markers == s.dir.markers && t.rs == s.rs;
  }

  /** A failed write of the fallback can be tried again, with any fallback that fits. */
  lemma ArmRetries(s: System, n: Id, e: Entry) returns (t: System)
    requires s.mode == Up && n in s.rs && s.rs[n].phase.Arming? && s.rs[n].probed && s.rs[n].marker
    requires e.id == n && 0 < e.bytes <= s.rs[n].bytes
    ensures Leads(s, [Admit(n, ArmFail)] + [Admit(n, ArmBegin(e)), Admit(n, ArmRename), Admit(n, ArmDone)], t)
    ensures t.dir == s.dir.(markers := s.dir.markers[n := Fallback(e)]) && t.disk == {t.dir}
    ensures t.rs == s.rs[n := s.rs[n].(phase := Armed, armedBytes := e.bytes)] && t.admitted == s.admitted
  {
    var s1 := Apply(s, Admit(n, ArmFail));
    t := ArmAgainCompletes(s1, n, e);
    Then(s, Admit(n, ArmFail), [Admit(n, ArmBegin(e)), Admit(n, ArmRename), Admit(n, ArmDone)], t);
  }

  // ---------------------------------------------------------------------------
  // Cancellation
  // ---------------------------------------------------------------------------

  /** `n` is in no directory a crash may leave and in no row, its reservation is spent, its bytes are
      back, and nothing else has moved. */
  ghost predicate CancelledFrom(s: System, t: System, n: Id)
    requires n in s.rs
  {
    && t.disk == {t.dir} && t.dir == Dir(s.dir.markers - {n}, s.dir.finals)
    && n !in t.dir.markers && n !in t.dir.finals && t.db == s.db && !HasRow(t.db, n)
    && t.rs == s.rs[n := s.rs[n].(phase := Consumed, armedBytes := 0, marker := false)]
    && (s.rs[n].bytes <= s.admitted ==> t.admitted == s.admitted - s.rs[n].bytes)
    && t.lock == s.lock && t.late == s.late && t.next == s.next && t.mode == Up
    && n in t.hist.cancelled && t.hist.settled == s.hist.settled + multiset{n}
  }

  /** An armed reservation that holds its marker can be cancelled. */
  lemma CancelCompletes(s: System, n: Id) returns (t: System)
    requires Safe(s) && s.mode == Up && n in s.rs && s.rs[n].phase.Armed? && s.rs[n].marker
    ensures Leads(s, [Cancel(n, CancelBegin), Cancel(n, CancelRemove), Cancel(n, CancelDone)], t)
    ensures CancelledFrom(s, t, n)
  {
    assert IdSafe(s, n);
    var s1 := Apply(s, Cancel(n, CancelBegin));
    var s2 := Apply(s1, Cancel(n, CancelRemove));
    t := Apply(s2, Cancel(n, CancelDone));
    Thrice(s, Cancel(n, CancelBegin), Cancel(n, CancelRemove), Cancel(n, CancelDone));
  }

  /** So can one whose cancellation has begun, however often its removal failed before. */
  lemma CancelAgainCompletes(s: System, n: Id) returns (t: System)
    requires Safe(s) && s.mode == Up && n in s.rs && s.rs[n].phase.Canceling? && s.rs[n].marker
    ensures Leads(s, [Cancel(n, CancelRemove), Cancel(n, CancelDone)], t)
    ensures CancelledFrom(s, t, n)
  {
    assert IdSafe(s, n);
    t := Apply(Apply(s, Cancel(n, CancelRemove)), Cancel(n, CancelDone));
    Twice(s, Cancel(n, CancelRemove), Cancel(n, CancelDone));
  }

  /** A reservation without a marker goes back to armed, and nothing has moved. */
  lemma CancelRefuses(s: System, n: Id) returns (t: System)
    requires s.mode == Up && n in s.rs && s.rs[n].phase.Armed? && !s.rs[n].marker
    ensures Leads(s, [Cancel(n, CancelBegin), Cancel(n, CancelAbort)], t)
    ensures t == s.(hist := s.hist.(cancelBegun := s.hist.cancelBegun + {n}))
  {
    t := Apply(Apply(s, Cancel(n, CancelBegin)), Cancel(n, CancelAbort));
    Twice(s, Cancel(n, CancelBegin), Cancel(n, CancelAbort));
    assert t.rs == s.rs;
  }

  // ---------------------------------------------------------------------------
  // Terminal push
  // ---------------------------------------------------------------------------

  /** The record is the final file of `n` in every directory a crash may leave, the reservation is spent,
      and all of its bytes but the record's are back. */
  ghost predicate PushedFrom(s: System, t: System, n: Id, e: Entry, removal: Removal)
    requires n in s.rs
  {
    && n in t.dir.finals && t.dir.finals == s.dir.finals[n := e]
    && (forall d :: d in t.disk ==> n in d.finals && d.finals[n] == e)
    && (if s.rs[n].marker && removal.Removed? then t.dir.markers == s.dir.markers - {n}
        else t.dir.markers == s.dir.markers)
    && t.rs == s.rs[n := s.rs[n].(phase := Consumed, marker := false)]
    && (s.rs[n].bytes - e.bytes <= s.admitted ==> t.admitted == s.admitted - (s.rs[n].bytes - e.bytes))
    && t.db == s.db && t.lock == Free && t.late == s.late && t.next == s.next && t.mode == Up
    && n in t.hist.pushed && t.hist.pushed[n] == e && t.hist.settled == s.hist.settled + multiset{n}
  }

  function WriteSteps(n: Id, removal: Removal): seq<Step> {
    [Push(n, PushLock), Push(n, PushRename)] + [Push(n, PushSync), Push(n, PushConsume(removal))]
  }

  /** A claimed record can be written once the lock is free, however often its write failed before. */
  lemma WriteCompletes(s: System, n: Id, removal: Removal) returns (t: System)
    requires s.mode == Up && n in s.rs && s.rs[n].phase.Claimed? && s.lock == Free
    requires s.rs[n].phase.terminal.bytes <= s.rs[n].bytes
    ensures Leads(s, WriteSteps(n, removal), t)
    ensures PushedFrom(s, t, n, s.rs[n].phase.terminal, removal)
  {
    var s2 := Apply(Apply(s, Push(n, PushLock)), Push(n, PushRename));
    t := SyncEnds(s2, n, removal);
    Twice(s, Push(n, PushLock), Push(n, PushRename));
    Joined(s, [Push(n, PushLock), Push(n, PushRename)], s2, [Push(n, PushSync), Push(n, PushConsume(removal))], t);
    assert PutFinal(s2.dir, n, s.rs[n].phase.terminal) == s2.dir;
  }

  lemma SyncEnds(s: System, n: Id, removal: Removal) returns (t: System)
    requires PushEnabled(s, n, PushSync) && s.rs[n].phase.terminal.bytes <= s.rs[n].bytes
    ensures Leads(s, [Push(n, PushSync), Push(n, PushConsume(removal))], t)
    ensures PushedFrom(s, t, n, s.rs[n].phase.terminal, removal)
  {
    var s1 := Apply(s, Push(n, PushSync));
    t := Apply(s1, Push(n, PushConsume(removal)));
    Twice(s, Push(n, PushSync), Push(n, PushConsume(removal)));
    ConsumeEnds(s1, n, removal);
    assert s.dir.finals[n := s.rs[n].phase.terminal] == s.dir.finals;
  }

  lemma ConsumeEnds(s: System, n: Id, removal: Removal)
    requires PushEnabled(s, n, PushConsume(removal)) && s.disk == {s.dir}
    requires n in s.dir.finals && s.dir.finals[n] == s.rs[n].phase.terminal
    ensures var t := PushApply(s, n, PushConsume(removal));
            && t.dir.finals == s.dir.finals
            && (forall d :: d in t.disk ==> d.finals == s.dir.finals)
            && (if s.rs[n].marker && removal.Removed? then t.dir.markers == s.dir.markers - {n}
                else t.dir.markers == s.dir.markers)
            && t.rs == s.rs[n := s.rs[n].(phase := Consumed, marker := false)]
  {
    assert n !in s.dir.markers ==> s.dir.markers - {n} == s.dir.markers;
  }

  /** A failed write of the record can be tried again at once; the claim stands. */
  lemma WriteRetries(s: System, n: Id, removal: Removal) returns (t: System)
    requires s.mode == Up && n in s.rs && s.rs[n].phase.Claimed?
    requires s.lock == PushHolds(n, Writing) || s.lock == PushHolds(n, Renamed)
    requires s.rs[n].phase.terminal.bytes <= s.rs[n].bytes
    ensures Leads(s, [Push(n, PushFail)] + WriteSteps(n, removal), t)
    ensures PushedFrom(s, t, n, s.rs[n].phase.terminal, removal)
  {
    var s1 := Apply(s, Push(n, PushFail));
    t := WriteCompletes(s1, n, removal);
    Then(s, Push(n, PushFail), WriteSteps(n, removal), t);
  }

  /** An armed reservation can be pushed once the lock is free. */
  lemma PushCompletes(s: System, n: Id, e: Entry, removal: Removal) returns (t: System)
    requires s.mode == Up && n in s.rs && s.rs[n].phase.Armed? && s.lock == Free
    requires e.id == n && 0 < e.bytes <= s.rs[n].bytes
    ensures Leads(s, [Push(n, Claim(e))] + WriteSteps(n, removal), t)
    ensures PushedFrom(s, t, n, e, removal)
  {
    var s1 := Apply(s, Push(n, Claim(e)));
    t := WriteCompletes(s1, n, removal);
    Then(s, Push(n, Claim(e)), WriteSteps(n, removal), t);
    assert t.rs == s.rs[n := s.rs[n].(phase := Consumed, marker := false)];
  }

  /** A push without a reservation makes its own, of exactly the record's size: the record is durable, its
      bytes stay admitted, and its handle is dropped without a trace. */
  lemma UnreservedPushCompletes(s: System, e: Entry) returns (t: System)
    requires Safe(s) && s.mode == Up && s.lock == Free && s.quota <= U64_MAX
    requires e.id == s.next && 0 < e.bytes && s.admitted + e.bytes <= s.quota
    ensures Leads(s, [Admit(e.id, ReservePush(e.bytes))]
                     + ([Push(e.id, Claim(e))] + WriteSteps(e.id, NotRemoved)) + [Drop(e.id, DropConsumed)], t)
    ensures t.dir == s.dir.(finals := s.dir.finals[e.id := e]) && t.rs == s.rs && t.lock == Free
    ensures forall d :: d in t.disk ==> e.id in d.finals && d.finals[e.id] == e
    ensures t.admitted == s.admitted + e.bytes && t.db == s.db && t.next == e.id + 1
  {
    var n := e.id;
    assert IdSafe(s, n) && Fresh(s, n);
    var s1 := Apply(s, Admit(n, ReservePush(e.bytes)));
    Once(s, Admit(n, ReservePush(e.bytes)));
    var s2 := PushCompletes(s1, n, e, NotRemoved);
    Joined(s, [Admit(n, ReservePush(e.bytes))], s1, [Push(n, Claim(e))] + WriteSteps(n, NotRemoved), s2);
    t := Apply(s2, Drop(n, DropConsumed));
    Once(s2, Drop(n, DropConsumed));
    Joined(s, [Admit(n, ReservePush(e.bytes))] + ([Push(n, Claim(e))] + WriteSteps(n, NotRemoved)), s2,
           [Drop(n, DropConsumed)], t);
    assert t.rs == s.rs;
  }

  /** A visible record reaches the database, unless its id has a row, and its file and bytes go. */
  lemma FlushCompletes(s: System, n: Id) returns (t: System)
    requires s.mode == Up && s.lock == Free && n in s.dir.finals && s.dir.finals[n].id == n
    ensures Leads(s, [Flush(FlushLoad([s.dir.finals[n]])), Flush(FlushCommit(true, true))]
                     + [Flush(FlushDelete(true)), Flush(FlushEnd)], t)
    ensures t.db == if HasRow(s.db, n) then s.db else s.db + [s.dir.finals[n]]
    ensures t.dir == Dir(s.dir.markers, s.dir.finals - {n}) && t.lock == Free && t.mode == Up
    ensures t.admitted == if s.admitted < s.dir.finals[n].bytes then 0 else s.admitted - s.dir.finals[n].bytes
  {
    var e := s.dir.finals[n];
    var load, commit, end := Flush(FlushLoad([e])), Flush(FlushCommit(true, true)), Flush(FlushEnd);
    var s1 := Apply(s, load);
    var s2 := Apply(s1, commit);
    InsertOne(s.db, e);
    var s3 := Apply(s2, Flush(FlushDelete(true)));
    assert [e][1..] == [];
    t := Apply(s3, end);
    Twice(s, load, commit);
    Twice(s2, Flush(FlushDelete(true)), end);
    Joined(s, [load, commit], s2, [Flush(FlushDelete(true)), end], t);
  }

  lemma InsertOne(db: seq<Entry>, e: Entry)
    ensures InsertAll(db, [e]) == if HasRow(db, e.id) then db else db + [e]
  {
    assert [e][1..] == [];
    assert InsertAll(InsertRow(db, e), []) == InsertRow(db, e);
  }

  // ---------------------------------------------------------------------------
  // Destructor
  // ---------------------------------------------------------------------------

  /** No operation holds the reservation any more, and it has been armed or belongs to a push. */
  predicate Abandoned(s: System, n: Id) {
    && n in s.rs
    && var p := s.rs[n].phase;
       p.Armed? || p.Canceling? || (p.Claimed? && !(s.lock.PushHolds? && s.lock.owner == n))
  }

  /** Dropping an armed reservation leaves a final file, durably: the one already visible, or else the
      fallback of its marker.  The marker goes, and only the bytes of that file stay admitted. */
  lemma PromotionCompletes(s: System, n: Id) returns (t: System)
    requires Safe(s) && s.mode == Up && Abandoned(s, n) && s.rs[n].armedBytes > 0 && s.rs[n].marker
    requires n in s.dir.markers || n in s.dir.finals
    ensures Leads(s, [Drop(n, DropPromote(true)), Drop(n, PromoteStat(true)), Drop(n, PromoteAccount(true))], t)
    ensures n !in s.dir.finals ==> s.dir.markers[n].Fallback?
    ensures var e := if n in s.dir.finals then s.dir.finals[n] else s.dir.markers[n].entry;
            && t.dir == Dir(s.dir.markers - {n}, s.dir.finals[n := e]) && t.disk == {t.dir}
            && (e.bytes <= s.rs[n].bytes && s.rs[n].bytes - e.bytes <= s.admitted ==>
                  t.admitted == s.admitted - (s.rs[n].bytes - e.bytes))
            && (s.rs[n].bytes < e.bytes ==> t.admitted == s.admitted)
    ensures t.rs == s.rs - {n} && t.db == s.db && t.lock == s.lock && t.late == s.late
    ensures t.hist.settled == s.hist.settled + multiset{n}
  {
    assert IdSafe(s, n) && Untouched(s, n) && ArmedOk(s, n);
    var s1 := Promotes(s, n);
    var s2 := Apply(s1, Drop(n, PromoteStat(true)));
    t := Apply(s2, Drop(n, PromoteAccount(true)));
    Thrice(s, Drop(n, DropPromote(true)), Drop(n, PromoteStat(true)), Drop(n, PromoteAccount(true)));
  }

  lemma Promotes(s: System, n: Id) returns (t: System)
    requires s.mode == Up && Abandoned(s, n) && s.rs[n].armedBytes > 0 && s.rs[n].marker && s.dir in s.disk
    requires n in s.dir.finals || (n in s.dir.markers && s.dir.markers[n].Fallback?)
    ensures Enabled(s, Drop(n, DropPromote(true))) && t == Apply(s, Drop(n, DropPromote(true)))
    ensures var e := if n in s.dir.finals then s.dir.finals[n] else s.dir.markers[n].entry;
            && t.dir == Dir(s.dir.markers - {n}, s.dir.finals[n := e]) && t.dir in t.disk
            && t.rs == s.rs[n := s.rs[n].(marker := false, phase := Promoting(e.bytes))]
    ensures t.mode == s.mode && t.admitted == s.admitted && t.db == s.db && t.lock == s.lock && t.late == s.late
    ensures t.hist == s.hist
  {
    t := Apply(s, Drop(n, DropPromote(true)));
    if n in s.dir.finals { assert s.dir.finals[n := s.dir.finals[n]] == s.dir.finals; }
    if n !in s.dir.markers { assert s.dir.markers - {n} == s.dir.markers; }
  }

  /** Dropping a reservation that was never armed removes its probe, if it holds one, and gives all of its
      bytes back. */
  lemma ReleaseCompletes(s: System, n: Id, synced: bool) returns (t: System)
    requires s.mode == Up && n in s.rs
    requires s.rs[n].phase.Unarmed? || s.rs[n].phase.ArmLost? || (Abandoned(s, n) && s.rs[n].armedBytes == 0)
    ensures Leads(s, [Drop(n, DropRelease(Removed(synced)))], t)
    ensures t.dir == if s.rs[n].marker then Dir(s.dir.markers - {n}, s.dir.finals) else s.dir
    ensures t.rs == s.rs - {n} && t.db == s.db
    ensures synced && s.rs[n].marker && n in s.dir.markers ==> t.disk == {t.dir}
    ensures s.rs[n].bytes <= s.admitted ==> t.admitted == s.admitted - s.rs[n].bytes
    ensures t.hist.settled == s.hist.settled + multiset{n}
  {
    t := Apply(s, Drop(n, DropRelease(Removed(synced))));
    Once(s, Drop(n, DropRelease(Removed(synced))));
    assert n !in s.dir.markers ==> s.dir.markers - {n} == s.dir.markers;
  }

  // ---------------------------------------------------------------------------
  // Abandoned calls
  // ---------------------------------------------------------------------------

  /** The file operation of an abandoned call still happens: the fallback of an abandoned arming is
      written... */
  lemma AbandonedArmLands(s: System, n: Id) returns (t: System)
    requires s.mode == Up && n in s.rs && s.rs[n].phase.Arming?
    ensures Leads(s, [Admit(n, ArmAbandon), Boot(Land(LateMarker(n, s.rs[n].phase.fallback)))], t)
    ensures t.dir == s.dir.(markers := s.dir.markers[n := Fallback(s.rs[n].phase.fallback)])
    ensures t.disk == s.disk + {t.dir} && t.rs == s.rs[n := s.rs[n].(phase := ArmLost)]
  {
    var op := LateMarker(n, s.rs[n].phase.fallback);
    t := Apply(Apply(s, Admit(n, ArmAbandon)), Boot(Land(op)));
    Twice(s, Admit(n, ArmAbandon), Boot(Land(op)));
  }

  /** ... the record of an abandoned push... */
  lemma AbandonedPushLands(s: System, n: Id) returns (t: System)
    requires s.mode == Up && n in s.rs && s.rs[n].phase.Claimed? && s.lock == PushHolds(n, Writing)
    ensures Leads(s, [Push(n, PushAbandon), Boot(Land(LateFinal(n, s.rs[n].phase.terminal)))], t)
    ensures t.dir == s.dir.(finals := s.dir.finals[n := s.rs[n].phase.terminal])
    ensures t.disk == s.disk + {t.dir} && t.rs == s.rs && t.lock == Free && t.admitted == s.admitted
  {
    var op := LateFinal(n, s.rs[n].phase.terminal);
    t := Apply(Apply(s, Push(n, PushAbandon)), Boot(Land(op)));
    Twice(s, Push(n, PushAbandon), Boot(Land(op)));
  }

  /** ... and the marker of an abandoned cancellation removed. */
  lemma AbandonedCancelLands(s: System, n: Id) returns (t: System)
    requires s.mode == Up && n in s.rs && s.rs[n].phase.Canceling? && s.rs[n].marker
    ensures Leads(s, [Cancel(n, CancelAbandon), Boot(Land(LateRemove(n)))], t)
    ensures t.dir == s.dir.(markers := s.dir.markers - {n})
    ensures t.disk == s.disk + {t.dir} && t.rs == s.rs && t.admitted == s.admitted
  {
    t := Apply(Apply(s, Cancel(n, CancelAbandon)), Boot(Land(LateRemove(n))));
    Twice(s, Cancel(n, CancelAbandon), Boot(Land(LateRemove(n))));
  }

  // ---------------------------------------------------------------------------
  // Startup
  // ---------------------------------------------------------------------------

  /** What startup makes of a directory: no markers; the final files it found, and the fallback of every
      armed marker that had none. */
  function Repaired(d: Dir): Dir {
    Dir(map[],
        map n | n in d.finals.Keys + d.markers.Keys && (n in d.finals || d.markers[n].Fallback?) ::
          if n in d.finals then d.finals[n] else d.markers[n].entry)
  }

  /** Each marker dealt with brings the directory one closer and leaves the outcome as it was, so the
      order in which startup reads the directory does not matter. */
  lemma RepairTowards(d: Dir, n: Id)
    requires n in d.markers
    ensures Repair(d, n).markers == d.markers - {n}
    ensures Repaired(Repair(d, n)) == Repaired(d)
  {
    assert Repaired(Repair(d, n)).finals == Repaired(d).finals;
  }

  lemma RepairedIs(d: Dir)
    requires d.markers == map[]
    ensures Repaired(d) == d
  {
    assert Repaired(d).finals == d.finals;
  }

  /** The steps that deal with the markers `ns` in the order given. */
  function RepairSteps(ns: seq<Id>): seq<Step> {
    if ns == [] then [Boot(RecoverDone)] else [Boot(RecoverOne(ns[0]))] + RepairSteps(ns[1..])
  }

  /** Whatever the order of the markers, startup gets through and ends in the repaired directory. */
  lemma {:induction false} RepairsComplete(s: System, ns: seq<Id>) returns (t: System)
    requires s.mode == Recovering && (set n | n in ns) == s.dir.markers.Keys
    requires forall i, j :: 0 <= i < j < |ns| ==> ns[i] != ns[j]
    ensures Leads(s, RepairSteps(ns), t)
    ensures t.dir == Repaired(s.dir) && t.disk == {t.dir} && t.mode == Up && t.db == s.db
    ensures t.rs == s.rs && t.lock == s.lock
    ensures var found := SizeUpTo(t.dir, s.next);
            t.admitted == if found <= 18446744073709551615 then found else 18446744073709551615
    decreases |ns|
  {
    if ns == [] {
      assert s.dir.markers == map[];
      RepairedIs(s.dir);
      t := Apply(s, Boot(RecoverDone));
      Once(s, Boot(RecoverDone));
    } else {
      assert ns[0] in s.dir.markers.Keys;
      var s1 := Apply(s, Boot(RecoverOne(ns[0])));
      RepairTowards(s.dir, ns[0]);
      RestOf(ns, s.dir.markers.Keys);
      assert s1.dir.markers.Keys == s.dir.markers.Keys - {ns[0]};
      t := RepairsComplete(s1, ns[1..]);
      Then(s, Boot(RecoverOne(ns[0])), RepairSteps(ns[1..]), t);
    }
  }

  lemma RestOf(ns: seq<Id>, all: set<Id>)
    requires ns != [] && (set n | n in ns) == all && forall i, j :: 0 <= i < j < |ns| ==> ns[i] != ns[j]
    ensures (set n | n in ns[1..]) == all - {ns[0]}
  {
    forall n ensures n in ns[1..] <==> n in all - {ns[0]} {
      if n in all - {ns[0]} {
        assert n in ns;
        var k :| 0 <= k < |ns| && ns[k] == n;
        assert ns[1..][k - 1] == n;
      }
    }
  }

  lemma {:induction false} Ordered(all: set<Id>) returns (ns: seq<Id>)
    ensures (set n | n in ns) == all && forall i, j :: 0 <= i < j < |ns| ==> ns[i] != ns[j]
  {
    if all == {} {
      ns := [];
    } else {
      var n :| n in all;
      var rest := Ordered(all - {n});
      ns := [n] + rest;
      assert forall m :: m in rest <==> m in all - {n};
    }
  }

  /** From any crash the process can start again with the repaired directory and exactly its bytes. */
  lemma RestartCompletes(s: System) returns (steps: seq<Step>, t: System)
    requires s.mode == Down
    ensures Leads(s, steps, t)
    ensures t.dir == Repaired(s.dir) && t.disk == {t.dir} && t.mode == Up && t.db == s.db
    ensures t.rs == s.rs && t.lock == s.lock
    ensures var found := SizeUpTo(t.dir, s.next);
            t.admitted == if found <= 18446744073709551615 then found else 18446744073709551615
  {
    var ns := Ordered(s.dir.markers.Keys);
    var s1 := Apply(s, Boot(Start));
    t := RepairsComplete(s1, ns);
    steps := [Boot(Start)] + RepairSteps(ns);
    Then(s, Boot(Start), RepairSteps(ns), t);
  }

  lemma RecoveringStep(s: System, a: Step)
    requires s.mode == Recovering && Enabled(s, a) && Apply(s, a).mode == Recovering
    requires s.rs == map[] && s.lock == Free && s.late == {}
    ensures Repaired(Apply(s, a).dir) == Repaired(s.dir)
  {
    if a.Boot? && a.boot.RecoverOne? { RepairTowards(s.dir, a.boot.marker); }
  }

  lemma {:induction false} RecoveringKeeps(run: seq<System>, i: nat, j: nat)
    requires IsRun(run) && i <= j < |run| && forall k :: i <= k <= j ==> run[k].mode == Recovering
    ensures Repaired(run[j].dir) == Repaired(run[i].dir)
  {
    if i < j {
      RecoveringKeeps(run, i, j - 1);
      RunSafe(run, j - 1);
      assert Linked(run, j - 1);
      var a :| Enabled(run[j - 1], a) && run[j] == Apply(run[j - 1], a);
      RecoveringStep(run[j - 1], a);
    }
  }

  /** In every run a start that succeeds leaves exactly the repaired directory, whatever order the markers
      came in: no marker, every final file that was there, and the fallback of every other armed marker. */
  lemma StartupRepairs(run: seq<System>, i: nat, j: nat)
    requires IsRun(run) && Took(run, i, Boot(Start)) && i < j && Took(run, j, Boot(RecoverDone))
    requires forall k :: i < k <= j ==> run[k].mode == Recovering
    ensures run[j + 1].dir == Repaired(run[i].dir) && run[j + 1].disk == {run[j + 1].dir}
  {
    RecoveringKeeps(run, i + 1, j);
    RepairedIs(run[j].dir);
  }

  // ---------------------------------------------------------------------------
  // Durability is earned by a sync
  // ---------------------------------------------------------------------------

  /** Steps that report a successful directory sync, and the crash, which picks one survivor. */
  predicate ReportsSync(a: Step) {
    match a
    case Boot(b) => b.RecoverDone? || b.Crash?
    case Admit(_, b) => b.ProbeDone? || b.ArmDone?
    case Push(_, b) => b.PushSync? || (b.PushConsume? && b.removal == Removed(true))
    case Cancel(_, b) => b.CancelDone?
    case Drop(_, b) => (b.DropRelease? && b.removal == Removed(true)) || b == PromoteAccount(true)
    case Flush(_) => false
  }

  /** Any other step leaves every directory a crash could have left before, and adds the current one. */
  lemma OnlySyncsForget(s: System, a: Step)
    requires s.dir in s.disk && Enabled(s, a)
    ensures Apply(s, a).dir in Apply(s, a).disk
    ensures !ReportsSync(a) ==> Apply(s, a).disk == s.disk + {Apply(s, a).dir}
  {
    match a
    case Boot(b) =>
    case Admit(n, b) => AdmitForgets(s, n, b);
    case Push(n, b) => PushForgets(s, n, b);
    case Cancel(n, b) =>
    case Drop(n, b) => DropForgets(s, n, b);
    case Flush(b) =>
  }

  lemma AdmitForgets(s: System, n: Id, a: AdmitStep)
    requires s.dir in s.disk && AdmitEnabled(s, n, a)
    ensures var t := AdmitApply(s, n, a);
            t.dir in t.disk && (!ReportsSync(Admit(n, a)) ==> t.disk == s.disk + {t.dir})
  {
  }

  lemma PushForgets(s: System, n: Id, p: PushStep)
    requires s.dir in s.disk && PushEnabled(s, n, p)
    ensures var t := PushApply(s, n, p);
            t.dir in t.disk && (!ReportsSync(Push(n, p)) ==> t.disk == s.disk + {t.dir})
  {
  }

  lemma DropForgets(s: System, n: Id, d: DropStep)
    requires s.dir in s.disk && DropEnabled(s, n, d)
    ensures var t := DropApply(s, n, d);
            t.dir in t.disk && (!ReportsSync(Drop(n, d)) ==> t.disk == s.disk + {t.dir})
  {
  }

  /** While a push or a flush holds the lock nobody else takes it, hands it on or gives it up: only steps
      of the holder, and a crash, change it. */
  lemma LockIsExclusive(s: System, a: Step)
    requires Enabled(s, a) && Apply(s, a).lock != s.lock && !(a.Boot? && a.boot.Crash?)
    ensures s.lock.PushHolds? ==> a.Push? && a.n == s.lock.owner
    ensures s.lock.FlushHolds? ==> a.Flush?
    ensures s.lock.Free? ==> (a.Push? && a.push.PushLock?) || (a.Flush? && a.flush.FlushLoad?)
  {
    match a
    case Boot(_) =>
    case Admit(_, _) =>
    case Push(_, _) =>
    case Cancel(_, _) =>
    case Drop(n, b) => DropKeepsLock(s, n, b);
    case Flush(_) =>
  }

  lemma DropKeepsLock(s: System, n: Id, d: DropStep)
    requires DropEnabled(s, n, d)
    ensures DropApply(s, n, d).lock == s.lock
  {
  }

  /** A crash may come at any moment and leave any of those directories, and nothing else survives it. */
  lemma CrashLeavesAny(s: System, d: Dir) returns (t: System)
    requires s.mode != Down && d in s.disk
    ensures Leads(s, [Boot(Crash(d))], t)
    ensures t.mode == Down && t.dir == d && t.disk == {d} && t.db == s.db && t.next == s.next
    ensures t.rs == map[] && t.late == {} && t.lock == Free && t.admitted == 0
  {
    t := Apply(s, Boot(Crash(d)));
    Once(s, Boot(Crash(d)));
  }

  /** An armed reservation nobody began to cancel reaches the database after a crash at any moment,
      whichever directory the crash leaves: its row is the one it had, or the final file the crash
      left, or else the fallback in the marker. */
  lemma CrashedReachesRow(s: System, n: Id, d: Dir) returns (steps: seq<Step>, t: System)
    requires Safe(s) && s.mode == Up && n in s.hist.armed && n !in s.hist.cancelBegun && d in s.disk
    ensures Leads(s, steps, t) && t.mode == Up
    ensures HasRow(s.db, n) || n in d.finals || (n in d.markers && d.markers[n].Fallback?)
    ensures t.db == if HasRow(s.db, n) then s.db
                    else s.db + [if n in d.finals then d.finals[n] else d.markers[n].entry]
    ensures HasRow(t.db, n)
  {
    assert IdSafe(s, n) && CoveredIn(s, d, n);
    var s1 := CrashLeavesAny(s, d);
    var restart, s2 := RestartCompletes(s1);
    Joined(s, [Boot(Crash(d))], s1, restart, s2);
    steps, t := [Boot(Crash(d))] + restart, s2;
    if !HasRow(s.db, n) {
      var flush := [Flush(FlushLoad([s2.dir.finals[n]])), Flush(FlushCommit(true, true))]
                   + [Flush(FlushDelete(true)), Flush(FlushEnd)];
      t := FlushCompletes(s2, n);
      Joined(s, steps, s2, flush, t);
      steps := steps + flush;
      assert t.db[|s.db|].id == n;
    }
  }
}
