/** A flush, as the loops of the flusher run it, is a sequence of flush steps of the transition system:
    whatever holds of every run of that system holds of every flush. */
module SpoolRefinement {
  import opened Common
  import opened SpoolModel
  import opened SpoolFlusher

  function DeleteSteps(batch: seq<Entry>, stuck: set<Id>): seq<Step> {
    if batch == [] then [Flush(FlushEnd)]
    else [Flush(FlushDelete(batch[0].id !in stuck))] + DeleteSteps(batch[1..], stuck)
  }

  /** What one flush does, given what it loaded and which operations fail. */
  function FlushSteps(batch: seq<Entry>, faults: Faults): seq<Step> {
    if batch == [] then []
    else
      [Flush(FlushLoad(batch)), Flush(FlushCommit(Lands(faults), Reported(faults)))]
      + if Reported(faults) then DeleteSteps(batch, faults.stuck) else []
  }

  /** The records among the files. */
  function Records(files: map<Id, File>): map<Id, Entry> {
    map n | n in files && files[n].Record? :: files[n].entry
  }

  /** Only the flusher's part of the state differs. */
  ghost predicate OnlyFlushed(s: System, t: System) {
    && t.mode == s.mode && t.quota == s.quota && t.rs == s.rs && t.late == s.late && t.next == s.next
    && t.hist == s.hist
    && t.dir.markers == s.dir.markers && t.lock == Free
  }

  lemma {:induction false} DeletesAreSteps(s: System, batch: seq<Entry>, stuck: set<Id>)
    requires s.mode == Up && s.lock == FlushHolds(batch, true)
    ensures Runs(s, DeleteSteps(batch, stuck))
    ensures var t := After(s, DeleteSteps(batch, stuck));
            && OnlyFlushed(s, t) && t.db == s.db
            && t.dir.finals == s.dir.finals - (Names(batch) - stuck)
            && t.admitted == SatSub(s.admitted, BytesFreed(batch, stuck))
    decreases |batch|
  {
    var steps := DeleteSteps(batch, stuck);
    var t := Apply(s, steps[0]);
    if batch == [] {
      assert Names(batch) == {} && steps[1..] == [];
      assert Runs(t, steps[1..]) && After(t, steps[1..]) == t;
    } else {
      assert steps[1..] == DeleteSteps(batch[1..], stuck);
      DeletesAreSteps(t, batch[1..], stuck);
      NamesFirst(batch);
    }
  }

  lemma TwoThen(s: System, a: Step, b: Step, rest: seq<Step>)
    requires Enabled(s, a) && Enabled(Apply(s, a), b) && Runs(Apply(Apply(s, a), b), rest)
    ensures Runs(s, [a, b] + rest) && After(s, [a, b] + rest) == After(Apply(Apply(s, a), b), rest)
  {
    var steps := [a, b] + rest;
    assert steps[1..] == [b] + rest && ([b] + rest)[1..] == rest;
    assert Runs(Apply(s, a), steps[1..]);
  }

  /** The database, the files and the counter after a flush are those after its steps. */
  lemma FlushIsSteps(s: System, files: map<Id, File>, batch: seq<Entry>, faults: Faults)
    requires s.mode == Up && s.lock == Free && s.dir.finals == Records(files)
    requires SortedById(batch) && SpoolFlusher.Holds(files, batch)
    ensures Runs(s, FlushSteps(batch, faults))
    ensures var t := After(s, FlushSteps(batch, faults));
            && OnlyFlushed(s, t)
            && t.db == (if Lands(faults) then InsertAll(s.db, batch) else s.db)
            && t.dir.finals == Records(if Reported(faults) then Remaining(files, batch, faults.stuck) else files)
            && t.admitted == SatSub(s.admitted, if Reported(faults) then BytesFreed(batch, faults.stuck) else 0)
  {
    if batch == [] {
      RemainingNone(files, faults.stuck);
    } else {
      var load, commit := Flush(FlushLoad(batch)), Flush(FlushCommit(Lands(faults), Reported(faults)));
      var s2 := Apply(Apply(s, load), commit);
      if Reported(faults) {
        DeletesAreSteps(s2, batch, faults.stuck);
        TwoThen(s, load, commit, DeleteSteps(batch, faults.stuck));
        RecordsRemain(files, batch, faults.stuck);
      } else {
        TwoThen(s, load, commit, []);
      }
    }
  }

  lemma RecordsRemain(files: map<Id, File>, batch: seq<Entry>, stuck: set<Id>)
    ensures Records(Remaining(files, batch, stuck)) == Records(files) - (Names(batch) - stuck)
  {
  }
}
