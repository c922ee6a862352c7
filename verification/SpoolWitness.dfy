/** Concrete runs that show where the byte counter of the request-log spool stops being equal to,
    or stops covering, what the spool holds. */
module SpoolWitness {
  import opened Common
  import opened SpoolModel
  import opened SpoolQuota

  function Fresh(quota: nat): System {
    System(quota, Down, Dir(map[], map[]), {Dir(map[], map[])}, [], 0, map[], Free, {}, 0,
           History({}, map[], map[], {}, {}, map[], multiset{}, 0))
  }

  /** Takes one step from a reachable state. */
  lemma Reach(s: System, a: Step) returns (t: System)
    requires Reachable(s) && Enabled(s, a)
    ensures t == Apply(s, a) && Reachable(t)
  {
    t := Apply(s, a);
    var run :| IsRun(run) && run[|run| - 1] == s;
    var more := run + [t];
    forall i | 0 <= i < |more| - 1
      ensures Linked(more, i)
    {
      if i < |run| - 1 { assert Linked(run, i); } else { assert more[i] == s && more[i + 1] == t; }
    }
    assert IsRun(more) && more[|more| - 1] == t;
  }

  lemma Begin(quota: nat) returns (s: System)
    requires quota <= U64_MAX
    ensures Reachable(s) && s == Fresh(quota)
  {
    s := Fresh(quota);
    assert IsRun([s]) && [s][|[s]| - 1] == s;
  }

  /** A state with one armed reservation of 10 bytes with a 4-byte fallback. */
  lemma ReachArmed(quota: nat, e: Entry) returns (s: System)
    requires 10 <= quota <= U64_MAX && e.id == 0 && e.bytes == 4
    ensures Reachable(s)
    ensures && s.mode == Up && s.lock == Free && s.late == {} && s.db == [] && s.next == 1 && s.admitted == 10
            && s.dir == Dir(map[0 := Fallback(e)], map[])
            && s.rs == map[0 := Reservation(10, Armed, 4, true, true, true)]
            && s.quota == quota
  {
    var s0 := Begin(quota);
    var s1 := Reach(s0, Boot(Start));
    var s2 := Reach(s1, Boot(RecoverDone));
    assert s2.next == 0 && s2.admitted == 0;
    var s3 := Reach(s2, Admit(0, ReserveTerminal(10)));
    assert s3.admitted == 10 && s3.rs == map[0 := Reservation(10, Unarmed, 0, true, true, false)];
    var s4 := Reach(s3, Admit(0, ProbeRename));
    var s5 := Reach(s4, Admit(0, ProbeDone));
    assert s5.rs == map[0 := Reservation(10, Unarmed, 0, true, true, true)];
    var s6 := Reach(s5, Admit(0, ArmBegin(e)));
    var s7 := Reach(s6, Admit(0, ArmRename));
    assert s7.dir == Dir(map[0 := Fallback(e)], map[]);
    s := Reach(s7, Admit(0, ArmDone));
  }

  /** The flusher loads, commits and deletes the one visible file. */
  lemma ReachFlushed(s: System, e: Entry) returns (t: System)
    requires Reachable(s) && s.mode == Up && s.lock == Free && s.db == []
    requires e.id in s.dir.finals && s.dir.finals[e.id] == e
    ensures Reachable(t)
    ensures t.mode == Up && t.quota == s.quota && t.rs == s.rs && t.next == s.next
    ensures !t.lock.PushHolds? && t.hist == s.hist && t.late == s.late
    ensures t.dir == DropFinal(s.dir, e.id) && t.admitted == SatSub(s.admitted, e.bytes)
  {
    var s1 := Reach(s, Flush(FlushLoad([e])));
    var s2 := Reach(s1, Flush(FlushCommit(true, true)));
    assert s2.lock == FlushHolds([e], true);
    t := Reach(s2, Flush(FlushDelete(true)));
  }

  /** No operation fails, yet 6 bytes stay admitted for good: the destructor renames its fallback,
      the flusher commits and deletes that file first, and the destructor then finds nothing to
      measure and keeps the spare bytes. */
  lemma OvertakenPromotionLeaks()
    ensures exists s :: Reachable(s) && s.mode == Up && s.rs == map[] && s.dir == Dir(map[], map[]) && s.admitted == 6
  {
    var e := Entry(0, "", 4);
    var s8 := ReachArmed(100, e);
    var s9 := Reach(s8, Drop(0, DropPromote(true)));
    assert s9.dir == Dir(map[], map[0 := e]) && s9.rs[0].phase == Promoting(4);
    var s12 := ReachFlushed(s9, e);
    assert s12.dir == Dir(map[], map[]) && s12.admitted == 6;
    var s13 := Reach(s12, Drop(0, PromoteStat(false)));
    assert s13.rs == map[];
  }

  /** A push of `f` claims its reservation and takes the lock. */
  lemma ReachLocked(s: System, f: Entry) returns (t: System)
    requires Reachable(s) && s.mode == Up && s.lock == Free && f.id in s.rs && s.rs[f.id].phase.Armed?
    requires 0 < f.bytes <= s.rs[f.id].bytes
    ensures Reachable(t)
    ensures t == s.(rs := s.rs[f.id := s.rs[f.id].(phase := Claimed(f))], lock := PushHolds(f.id, Writing),
                    hist := s.hist.(claims := s.hist.claims[f.id := f]))
  {
    var s1 := Reach(s, Push(f.id, Claim(f)));
    t := Reach(s1, Push(f.id, PushLock));
  }

  /** Its write is renamed into place and then fails. */
  lemma ReachFailed(s: System, f: Entry) returns (t: System)
    requires Reachable(s) && s.mode == Up && s.lock == PushHolds(f.id, Writing)
    requires f.id in s.rs && s.rs[f.id].phase == Claimed(f)
    ensures Reachable(t)
    ensures t == Touch(s, PutFinal(s.dir, f.id, f)).(lock := Free)
  {
    var s1 := Reach(s, Push(f.id, PushRename));
    t := Reach(s1, Push(f.id, PushFail));
  }

  /** The only reservation, of 10 bytes, is dropped and its 4-byte fallback promoted. */
  lemma ReachPromoted(s: System, e: Entry) returns (t: System)
    requires Reachable(s) && s.mode == Up && !s.lock.PushHolds? && e.bytes == 4
    requires s.dir == Dir(map[0 := Fallback(e)], map[]) && s.rs.Keys == {0} && s.rs[0].phase.Claimed?
    requires s.rs[0].bytes == 10 && s.rs[0].armedBytes == 4 && s.rs[0].marker
    ensures Reachable(t) && t.mode == Up && t.rs == map[] && t.dir == Dir(map[], map[0 := e])
    ensures t.admitted == WrapSub(s.admitted, 6) && t.quota == s.quota && t.next == s.next && t.late == s.late
  {
    var s1 := Reach(s, Drop(0, DropPromote(true)));
    assert s1.rs[0].phase == Promoting(4) && s1.dir == Dir(map[], map[0 := e]);
    var s2 := Reach(s1, Drop(0, PromoteStat(true)));
    t := Reach(s2, Drop(0, PromoteAccount(true)));
    assert t.rs == map[];
  }

  /** A terminal write of 8 bytes fails after its rename, and the flusher deletes the file. */
  lemma ReachDeleted(e: Entry, f: Entry) returns (s: System)
    requires e.id == 0 && e.bytes == 4 && f.id == 0 && f.bytes == 8
    ensures Reachable(s) && s.mode == Up && s.next == 1 && s.admitted == 2 && s.late == {} && s.quota == 100
    ensures !s.lock.PushHolds? && s.dir == Dir(map[0 := Fallback(e)], map[])
    ensures s.rs == map[0 := Reservation(10, Claimed(f), 4, true, true, true)]
  {
    var s8 := ReachArmed(100, e);
    var s9 := ReachLocked(s8, f);
    var s12 := ReachFailed(s9, f);
    s := ReachFlushed(s12, f);
    assert s.dir.finals == map[];
  }

  /** Then the reservation still owes all of its bytes. */
  lemma VisibleFailedWriteUndercounts()
    ensures exists s :: Reachable(s) && s.mode == Up && Gap(s) < 0
  {
    var e, f := Entry(0, "", 4), Entry(0, "t", 8);
    var s := ReachDeleted(e, f);
    assert OwedBy(s, 0) == 10 && Owed(s, 1) == Owed(s, 0) + OwedBy(s, 0);
  }

  /** And when the reservation is dropped, returning the spare bytes of its fallback takes the counter
      below zero: with a quota of 100 and nothing reserved it stands near the top of the range, and
      every later reservation is refused. */
  lemma CounterWraps()
    ensures exists s :: Reachable(s) && s.mode == Up && s.rs == map[] && s.quota == 100
                     && s.admitted == 18446744073709551612
                        && forall n, amount :: !CanReserve(s, n, amount)
  {
    var e, f := Entry(0, "", 4), Entry(0, "t", 8);
    var s := ReachDeleted(e, f);
    var s3 := ReachPromoted(s, e);
    WrapSubIs(2, 6);
  }

  /** A push abandoned during its write: the fallback is promoted and accounted for, and the write
      lands afterwards and makes the file larger. */
  lemma AbandonedPushUndercounts()
    ensures exists s :: Reachable(s) && s.mode == Up && s.rs == map[] && Gap(s) < 0
  {
    var e, f := Entry(0, "", 4), Entry(0, "t", 8);
    var s8 := ReachArmed(100, e);
    var s9 := ReachLocked(s8, f);
    var s11 := Reach(s9, Push(0, PushAbandon));
    var s14 := ReachPromoted(s11, e);
    var s15 := Reach(s14, Boot(Land(LateFinal(0, f))));
    assert OwedBy(s15, 0) == 8 && Owed(s15, 1) == Owed(s15, 0) + OwedBy(s15, 0);
  }

  /** An unreserved push whose write fails after its rename gives all its bytes back although the file
      is visible. */
  lemma ReleasedFileUndercounts()
    ensures exists s :: Reachable(s) && s.mode == Up && s.rs == map[] && Gap(s) < 0
  {
    var f := Entry(0, "t", 8);
    var s0 := Begin(100);
    var s1 := Reach(s0, Boot(Start));
    var s2 := Reach(s1, Boot(RecoverDone));
    var s3 := Reach(s2, Admit(0, ReservePush(8)));
    assert s3.rs == map[0 := Reservation(8, Armed, 0, false, false, false)] && s3.admitted == 8;
    var s5 := ReachLocked(s3, f);
    var s7 := ReachFailed(s5, f);
    var s8 := Reach(s7, Drop(0, DropRelease(NotRemoved)));
    assert s8.admitted == 0 && s8.rs == map[] && s8.dir.finals == map[0 := f] && s8.next == 1;
    assert OwedBy(s8, 0) == 8 && Owed(s8, 1) == Owed(s8, 0) + OwedBy(s8, 0);
  }

  /** With the largest configurable quota two reservations can saturate the counter below their sum. */
  lemma SaturatedAdmissionUndercounts()
    ensures exists s :: Reachable(s) && s.quota == 18446744073709551615 && s.mode == Up && Gap(s) < 0
  {
    var s0 := Begin(U64_MAX);
    var s1 := Reach(s0, Boot(Start));
    var s2 := Reach(s1, Boot(RecoverDone));
    assert s2.next == 0 && s2.admitted == 0;
    var s3 := Reach(s2, Admit(0, ReserveTerminal(U64_MAX)));
    assert s3.admitted == U64_MAX && s3.next == 1;
    var s4 := Reach(s3, Admit(1, ReserveTerminal(1)));
    assert s4.next == 2 && OwedBy(s4, 0) == U64_MAX && OwedBy(s4, 1) == 1;
    assert Owed(s4, 2) == Owed(s4, 1) + OwedBy(s4, 1) && Owed(s4, 1) == Owed(s4, 0) + OwedBy(s4, 0);
  }
}
