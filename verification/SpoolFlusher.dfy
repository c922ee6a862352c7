/** The flusher of the request-log spool, as the loops the source runs while it holds the flush lock.
    Steps of other threads between them are the business of SpoolModel. */
module SpoolFlusher {
  import opened Common
  import opened Orders
  import opened SpoolModel
  import opened SpoolSafety

  const INSERT_CHUNK: nat := 20

  /** A `.json` file of the spool directory: an encoded record, or bytes that do not decode. */
  datatype File = Record(entry: Entry) | Garbage(bytes: nat)

  datatype Ref = Ref(id: Id, bytes: nat)

  datatype Loaded = LoadOk(entries: seq<Entry>) | LoadErr

  /** A commit takes effect, does not, or takes effect although an error is reported. */
  datatype CommitResult = Committed | Refused | Unreported

  /** Which storage operations of one flush fail. */
  datatype Faults = Faults(begin: bool, insert: bool, commit: CommitResult, stuck: set<Id>)

  const NO_FAULTS: Faults := Faults(false, false, Committed, {})

  /** The transaction takes effect. */
  predicate Lands(f: Faults) { !f.begin && !f.insert && !f.commit.Refused? }

  /** And the flusher knows it did. */
  predicate Reported(f: Faults) { Lands(f) && f.commit.Committed? }

  predicate Readable(f: File, maxBytes: nat) { f.Record? && f.entry.bytes <= maxBytes }

  function RefOf(e: Entry): Ref { Ref(e.id, e.bytes) }

  function RefsOf(entries: seq<Entry>): (r: seq<Ref>)
    ensures |r| == |entries|
  {
    seq(|entries|, i requires 0 <= i < |entries| => RefOf(entries[i]))
  }

  ghost predicate SortedById(entries: seq<Entry>) {
    forall i, j :: 0 <= i < j < |entries| ==> entries[i].id < entries[j].id
  }

  ghost function Names(entries: seq<Entry>): set<Id> { set i | 0 <= i < |entries| :: entries[i].id }

  /** The bytes of the entries whose removal is not stuck. */
  function BytesFreed(entries: seq<Entry>, stuck: set<Id>): nat {
    if entries == [] then 0
    else (if entries[0].id in stuck then 0 else entries[0].bytes) + BytesFreed(entries[1..], stuck)
  }

  /** References to the entries whose removal is stuck, in order. */
  function StuckRefs(entries: seq<Entry>, stuck: set<Id>): (r: seq<Ref>)
    ensures |r| <= |entries| && (stuck == {} ==> r == [])
  {
    if entries == [] then []
    else (if entries[0].id in stuck then [RefOf(entries[0])] else []) + StuckRefs(entries[1..], stuck)
  }

  lemma {:induction false} StuckRefsIff(entries: seq<Entry>, stuck: set<Id>, x: Ref)
    ensures x in StuckRefs(entries, stuck) <==>
              exists i :: 0 <= i < |entries| && entries[i].id in stuck && x == Ref(entries[i].id, entries[i].bytes)
  {
    if entries != [] {
      StuckRefsIff(entries[1..], stuck, x);
      var first := if entries[0].id in stuck then [RefOf(entries[0])] else [];
      assert x in StuckRefs(entries, stuck) <==> x in first || x in StuckRefs(entries[1..], stuck);
      if i :| 0 <= i < |entries| && entries[i].id in stuck && x == Ref(entries[i].id, entries[i].bytes) && i > 0 {
        assert entries[1..][i - 1] == entries[i];
      }
      if i :| 0 <= i < |entries[1..]| && entries[1..][i].id in stuck
              && x == Ref(entries[1..][i].id, entries[1..][i].bytes) {
        assert entries[i + 1] == entries[1..][i];
      }
    }
  }

  lemma NamesPush(entries: seq<Entry>, e: Entry)
    ensures Names(entries + [e]) == Names(entries) + {e.id}
  {
    var more := entries + [e];
    forall n | n in Names(entries) ensures n in Names(more) {
      var i :| 0 <= i < |entries| && entries[i].id == n;
      assert more[i].id == n;
    }
    assert more[|entries|].id == e.id;
  }

  lemma NamesFirst(entries: seq<Entry>)
    requires entries != []
    ensures Names(entries) == {entries[0].id} + Names(entries[1..])
  {
    forall n | n in Names(entries) ensures n == entries[0].id || n in Names(entries[1..]) {
      var i :| 0 <= i < |entries| && entries[i].id == n;
      if i > 0 { assert entries[1..][i - 1].id == n; }
    }
    forall n | n in Names(entries[1..]) ensures n in Names(entries) {
      var i :| 0 <= i < |entries[1..]| && entries[1..][i].id == n;
      assert entries[i + 1].id == n;
    }
  }

  lemma {:induction false} NamesCount(entries: seq<Entry>)
    requires SortedById(entries)
    ensures |Names(entries)| == |entries|
  {
    if entries == [] {
      assert Names(entries) == {};
    } else {
      NamesCount(entries[1..]);
      NamesFirst(entries);
    }
  }

  predicate Below(a: Id, b: Id) { a < b }

  /** Inserting chunk by chunk is inserting the whole. */
  lemma {:induction false} InsertAppend(db: seq<Entry>, a: seq<Entry>, b: seq<Entry>)
    ensures InsertAll(db, a + b) == InsertAll(InsertAll(db, a), b)
    decreases |a|
  {
    if a == [] {
      assert a + b == b;
    } else {
      assert (a + b)[0] == a[0] && (a + b)[1..] == a[1..] + b;
      InsertAppend(InsertRow(db, a[0]), a[1..], b);
    }
  }

  ghost predicate Holds(files: map<Id, File>, entries: seq<Entry>) {
    forall i :: 0 <= i < |entries| ==> entries[i].id in files && files[entries[i].id] == Record(entries[i])
  }

  /** `entries` are the files among the names read so far, all below the names still to read. */
  ghost predicate ReadSoFar(files: map<Id, File>, maxBytes: nat, done: set<Id>, left: set<Id>, entries: seq<Entry>) {
    && SortedById(entries) && Holds(files, entries)
    && (forall i, n :: 0 <= i < |entries| && n in left ==> entries[i].id < n)
    && Names(entries) == done * files.Keys
    && (forall n :: n in done && n in files ==> Readable(files[n], maxBytes))
  }

  lemma ReadNone(files: map<Id, File>, maxBytes: nat, left: set<Id>)
    ensures ReadSoFar(files, maxBytes, {}, left, [])
  {
    assert {} * files.Keys == {};
  }

  lemma ReadOne(files: map<Id, File>, maxBytes: nat, done: set<Id>, left: set<Id>, entries: seq<Entry>, n: Id)
    requires ReadSoFar(files, maxBytes, done, left, entries) && done !! left && n in left
    requires (forall m :: m in left && m != n ==> n < m) && n in files
    requires Readable(files[n], maxBytes) && files[n].entry.id == n
    ensures ReadSoFar(files, maxBytes, done + {n}, left - {n}, entries + [files[n].entry])
  {
    NamesPush(entries, files[n].entry);
    assert (done + {n}) * files.Keys == done * files.Keys + {n};
  }

  lemma ReadMissing(files: map<Id, File>, maxBytes: nat, done: set<Id>, left: set<Id>, entries: seq<Entry>, n: Id)
    requires ReadSoFar(files, maxBytes, done, left, entries) && n !in files
    ensures ReadSoFar(files, maxBytes, done + {n}, left - {n}, entries)
  {
    assert (done + {n}) * files.Keys == done * files.Keys;
  }

  /** Reads the file with the least name left.  A name without a file is skipped. */
  method ReadNext(files: map<Id, File>, maxBytes: nat, ghost done: set<Id>, left: set<Id>, entries: seq<Entry>)
    returns (n: Id, ok: bool, more: seq<Entry>)
    requires ReadSoFar(files, maxBytes, done, left, entries) && done !! left && left != {}
    requires forall n :: n in files && files[n].Record? ==> files[n].entry.id == n
    ensures n in left && (ok <==> n !in files || Readable(files[n], maxBytes))
    ensures ok ==> ReadSoFar(files, maxBytes, done + {n}, left - {n}, more)
  {
    n := Least(Below, left);
    assert forall m :: m in left && m != n ==> Below(n, m);
    if n !in files {
      ReadMissing(files, maxBytes, done, left, entries, n);
      return n, true, entries;
    }
    if !Readable(files[n], maxBytes) { return n, false, entries; }
    ReadOne(files, maxBytes, done, left, entries, n);
    return n, true, entries + [files[n].entry];
  }

  /** Reads the named files in name order.  An oversized or undecodable file fails the whole batch. */
  method ReadPaths(files: map<Id, File>, maxBytes: nat, paths: set<Id>) returns (r: Loaded)
    requires forall n :: n in files && files[n].Record? ==> files[n].entry.id == n
    ensures r.LoadOk? ==> ReadSoFar(files, maxBytes, paths, {}, r.entries)
    ensures r.LoadErr? ==> exists n :: n in paths && n in files && !Readable(files[n], maxBytes)
    ensures r.LoadErr? <==>
              exists n :: n in paths && n in files && (files[n].Garbage? || files[n].entry.bytes > maxBytes)
  {
    var left := paths;
    var entries: seq<Entry> := [];
    ghost var done: set<Id> := {};
    ReadNone(files, maxBytes, left);
    while left != {}
      invariant done <= paths && left == paths - done
      invariant ReadSoFar(files, maxBytes, done, left, entries)
      decreases |left|
    {
      var n, ok, more := ReadNext(files, maxBytes, done, left, entries);
      if !ok { return LoadErr; }
      entries, left, done := more, left - {n}, done + {n};
    }
    assert paths == done;
    r := LoadOk(entries);
  }

  /** What is left of the directory after the removals for `entries` that did not get stuck. */
  ghost function Remaining(files: map<Id, File>, entries: seq<Entry>, stuck: set<Id>): map<Id, File> {
    files - (Names(entries) - stuck)
  }

  lemma RemoveOne(files: map<Id, File>, entries: seq<Entry>, stuck: set<Id>)
    requires entries != []
    ensures var e := entries[0];
            Remaining(files, entries, stuck) ==
              Remaining(if e.id in stuck then files else files - {e.id}, entries[1..], stuck)
  {
    NamesFirst(entries);
  }

  lemma RemainingNone(files: map<Id, File>, stuck: set<Id>)
    ensures Remaining(files, [], stuck) == files
  {
    assert Names([]) == {};
  }

  lemma RemainingCount(files: map<Id, File>, entries: seq<Entry>)
    requires SortedById(entries) && Holds(files, entries)
    ensures |Remaining(files, entries, {})| == |files| - |entries|
  {
    NamesCount(entries);
    assert Remaining(files, entries, {}).Keys == files.Keys - Names(entries);
    assert files.Keys == Names(entries) + (files.Keys - Names(entries));
  }

  /** Part-way through the removals: with `left` still to do, what is left of the files, the references
      kept and the bytes freed add up to those of the whole. */
  ghost predicate Deleting(before: map<Id, File>, files: map<Id, File>, entries: seq<Entry>, left: seq<Entry>,
                           stuck: set<Id>, failed: seq<Ref>, freed: nat)
  {
    && Remaining(files, left, stuck) == Remaining(before, entries, stuck)
    && freed + BytesFreed(left, stuck) == BytesFreed(entries, stuck)
    && failed + StuckRefs(left, stuck) == StuckRefs(entries, stuck)
  }

  lemma DeleteNext(before: map<Id, File>, files: map<Id, File>, entries: seq<Entry>, left: seq<Entry>,
                   stuck: set<Id>, failed: seq<Ref>, freed: nat)
    requires left != [] && Deleting(before, files, entries, left, stuck, failed, freed)
    ensures var e := left[0];
            if e.id in stuck then Deleting(before, files, entries, left[1..], stuck, failed + [RefOf(e)], freed)
            else Deleting(before, files - {e.id}, entries, left[1..], stuck, failed, freed + e.bytes)
  {
    RemoveOne(files, left, stuck);
    var rest := StuckRefs(left[1..], stuck);
    assert failed + ([RefOf(left[0])] + rest) == failed + [RefOf(left[0])] + rest;
    assert [] + rest == rest;
  }

  /** A file is gone only if its row is in the database, and rows are only added, from files. */
  lemma FlushIsSafe(files: map<Id, File>, db: seq<Entry>, batch: seq<Entry>, faults: Faults)
    requires Holds(files, batch) && OneRowPerId(db)
    ensures var db' := if Lands(faults) then InsertAll(db, batch) else db;
            var files' := if Reported(faults) then Remaining(files, batch, faults.stuck) else files;
            && db <= db' && OneRowPerId(db')
            && (forall n :: n in files' ==> n in files && files'[n] == files[n])
            && (forall n :: n in files && n !in files' ==> files[n].Record? && HasRow(db', n))
            && (forall i :: |db| <= i < |db'| ==> db'[i].id in files && files[db'[i].id] == Record(db'[i]))
  {
    InsertAllRows(db, batch);
  }

  /** Files are only gone, and then have a row; rows are only added, and then are the records of files. */
  ghost predicate Moved(files: map<Id, File>, db: seq<Entry>, files': map<Id, File>, db': seq<Entry>) {
    && db <= db'
    && (forall n :: n in files ==> n in files' || HasRow(db', n))
    && (forall n :: n in files' ==> n in files && files'[n] == files[n])
    && (forall i :: |db| <= i < |db'| ==> db'[i].id in files && files[db'[i].id] == Record(db'[i]))
  }

  lemma DrainNext(files: map<Id, File>, db: seq<Entry>, files1: map<Id, File>, db1: seq<Entry>,
                  files2: map<Id, File>, db2: seq<Entry>)
    requires Moved(files, db, files1, db1) && Moved(files1, db1, files2, db2)
    ensures Moved(files, db, files2, db2)
  {
    forall n | n in files && n !in files1
      ensures HasRow(db2, n)
    {
      var i :| 0 <= i < |db1| && db1[i].id == n;
      assert db2[i].id == n;
    }
  }

  class RequestLogBatcher {
    const capacity: nat
    const maxEntryBytes: nat
    var buffer: seq<Ref>
    var files: map<Id, File>
    var db: seq<Entry>
    var admitted: nat
    var spoolBytes: nat

    ghost predicate Valid()
      reads this
    {
      && capacity > 0
      && |buffer| <= capacity
      && (forall n :: n in files && files[n].Record? ==> files[n].entry.id == n)
      && OneRowPerId(db)
    }

    ghost predicate AllReadable()
      reads this
    {
      forall n :: n in files ==> Readable(files[n], maxEntryBytes)
    }

    /** Entries waiting anywhere: visible files plus buffered references, stale ones included. */
    function Backlog(): nat
      reads this
    {
      |files| + |buffer|
    }

    constructor (capacity: nat, maxEntryBytes: nat)
      ensures Valid() && buffer == [] && files == map[] && db == []
      ensures this.capacity == if capacity == 0 then 1 else capacity
      ensures this.maxEntryBytes == if maxEntryBytes == 0 then 1 else maxEntryBytes
    {
      this.capacity := if capacity == 0 then 1 else capacity;
      this.maxEntryBytes := if maxEntryBytes == 0 then 1 else maxEntryBytes;
      buffer, files, db, admitted, spoolBytes := [], map[], [], 0, 0;
    }

    /** The names of a bounded batch: the buffered ones first, then whatever the directory scan
        returns until the batch is full. */
    method SelectPaths(buffered: seq<Ref>, maxEntries: nat) returns (paths: set<Id>)
      requires |buffered| <= maxEntries
      ensures |paths| <= maxEntries
      ensures forall i :: 0 <= i < |buffered| ==> buffered[i].id in paths
      ensures files.Keys <= paths || |paths| == maxEntries
      ensures buffered == [] ==> paths <= files.Keys
    {
      paths := {};
      for i := 0 to |buffered|
        invariant forall j :: 0 <= j < i ==> buffered[j].id in paths
        invariant |paths| <= i && (i == 0 ==> paths == {})
      {
        paths := paths + {buffered[i].id};
      }
      var scan := files.Keys;
      while |paths| < maxEntries && scan != {}
        invariant scan <= files.Keys <= scan + paths
        invariant |paths| <= maxEntries
        invariant forall j :: 0 <= j < |buffered| ==> buffered[j].id in paths
        invariant buffered == [] ==> paths <= files.Keys
        decreases scan
      {
        var n :| n in scan;
        scan := scan - {n};
        paths := paths + {n};
      }
    }

    ghost predicate AreFiles(entries: seq<Entry>)
      reads this
    {
      Holds(files, entries)
    }

    /** Reads a bounded batch of durable entries.  A successful load is empty only when there is
        nothing to flush but stale references. */
    method LoadSpoolBatch(buffered: seq<Ref>, maxEntries: nat) returns (r: Loaded)
      requires Valid() && |buffered| <= maxEntries && maxEntries > 0
      ensures r.LoadOk? ==> SortedById(r.entries) && AreFiles(r.entries) && |r.entries| <= maxEntries
      ensures r.LoadOk? ==> forall i :: 0 <= i < |buffered| && buffered[i].id in files ==>
                              buffered[i].id in Names(r.entries)
      ensures r.LoadOk? && buffered == [] && |files| <= maxEntries ==> Names(r.entries) == files.Keys
      ensures r.LoadOk? && buffered == [] && files != map[] ==> r.entries != []
      ensures AllReadable() ==> r.LoadOk?
      ensures r.LoadOk? ==> forall e :: e in r.entries ==> e.bytes <= maxEntryBytes
    {
      var paths := SelectPaths(buffered, maxEntries);
      r := ReadPaths(files, maxEntryBytes, paths);
      if r.LoadOk? { NamesCount(r.entries); }
      SubsetSize(paths * files.Keys, paths);
      if buffered == [] && |files| <= maxEntries {
        SubsetSize(paths, files.Keys);
      }
      if buffered == [] { assert paths * files.Keys == paths; }
    }

    /** Puts references back in front; whatever no longer fits is found again by the directory scan. */
    method RequeueFront(refs: seq<Ref>)
      modifies this`buffer
      ensures |buffer| <= capacity
      ensures buffer ==
        if |refs + old(buffer)| <= capacity then refs + old(buffer) else (refs + old(buffer))[..capacity]
    {
      var merged := refs + buffer;
      buffer := if |merged| <= capacity then merged else merged[..capacity];
    }

    /** One flush.  `batch` is what was loaded, if anything.  Whatever fails, no file is gone unless
        its row is in the database, no row is replaced, a transaction that does not land changes
        nothing, and only a commit known to have landed removes files and gives back their bytes. */
    method Flush(faults: Faults) returns (ghost batch: seq<Entry>)
      requires Valid()
      modifies this
      ensures Valid() && SortedById(batch) && Holds(old(files), batch)
      ensures db == if Lands(faults) then InsertAll(old(db), batch) else old(db)
      ensures files == if Reported(faults) then Remaining(old(files), batch, faults.stuck) else old(files)
      ensures admitted == SatSub(old(admitted), if Reported(faults) then BytesFreed(batch, faults.stuck) else 0)
      ensures spoolBytes == SatSub(old(spoolBytes), if Reported(faults) then BytesFreed(batch, faults.stuck) else 0)
      ensures buffer == if Reported(faults) then StuckRefs(batch, faults.stuck) else RefsOf(batch)
      ensures forall e :: e in batch ==> e.bytes <= maxEntryBytes
      ensures old(AllReadable()) ==> forall i :: 0 <= i < |old(buffer)| && old(buffer)[i].id in old(files) ==>
                old(buffer)[i].id in Names(batch)
      ensures old(AllReadable()) && old(buffer) == [] && old(|files|) <= capacity ==> Names(batch) == old(files).Keys
      ensures old(AllReadable()) && faults == NO_FAULTS && old(Backlog()) > 0 ==> Backlog() < old(Backlog())
    {
      var buffered := buffer;
      buffer := [];
      var loaded := LoadSpoolBatch(buffered, capacity);
      batch := if loaded.LoadOk? then loaded.entries else [];
      RemainingNone(files, faults.stuck);
      if loaded.LoadOk? && loaded.entries != [] {
        CommitBatch(loaded.entries, faults);
      }
    }

    /** Commits a loaded batch in one transaction and deletes its files. */
    method CommitBatch(entries: seq<Entry>, faults: Faults)
      requires Valid() && buffer == [] && entries != [] && SortedById(entries) && AreFiles(entries)
      requires |entries| <= capacity
      modifies this
      ensures Valid()
      ensures buffer == if Reported(faults) then StuckRefs(entries, faults.stuck) else RefsOf(entries)
      ensures db == if Lands(faults) then InsertAll(old(db), entries) else old(db)
      ensures files == if Reported(faults) then Remaining(old(files), entries, faults.stuck) else old(files)
      ensures Freed(old(admitted), old(spoolBytes), if Reported(faults) then BytesFreed(entries, faults.stuck) else 0)
      ensures faults == NO_FAULTS ==> buffer == [] && |files| == |old(files)| - |entries|
    {
      assert RefsOf(entries) + buffer == RefsOf(entries);
      if faults.begin {
        RequeueFront(RefsOf(entries));
        return;
      }
      var tx, ok := InsertChunks(entries, faults.insert);
      if !ok || faults.commit.Refused? {
        RequeueFront(RefsOf(entries));
        return;
      }
      InsertAllRows(db, entries);
      db := tx;
      if faults.commit.Unreported? {
        RequeueFront(RefsOf(entries));
        return;
      }
      RemainingCount(files, entries);
      DeleteCommitted(entries, faults.stuck);
    }

    /** Executes the insert statements of one transaction, at most twenty rows each. */
    method InsertChunks(entries: seq<Entry>, fails: bool) returns (tx: seq<Entry>, ok: bool)
      requires entries != []
      ensures ok == !fails
      ensures ok ==> tx == InsertAll(db, entries)
    {
      tx, ok := db, true;
      var done := 0;
      while done < |entries| && ok
        invariant 0 <= done <= |entries|
        invariant tx == InsertAll(db, entries[..done])
        invariant ok ==> done > 0 ==> !fails
        invariant !ok ==> fails
        decreases |entries| - done, ok
      {
        if fails {
          ok := false;
        } else {
          var stop := if done + INSERT_CHUNK < |entries| then done + INSERT_CHUNK else |entries|;
          InsertAppend(db, entries[..done], entries[done..stop]);
          assert entries[..done] + entries[done..stop] == entries[..stop];
          tx := InsertAll(tx, entries[done..stop]);
          done := stop;
        }
      }
      if ok { assert entries[..done] == entries; }
    }

    /** Deletes the files of committed entries, gives back the bytes of those that went, and keeps
        references to the others. */
    method DeleteCommitted(entries: seq<Entry>, stuck: set<Id>)
      requires buffer == [] && |entries| <= capacity
      modifies this`files, this`buffer, this`admitted, this`spoolBytes
      ensures buffer == StuckRefs(entries, stuck)
      ensures files == Remaining(old(files), entries, stuck)
      ensures Freed(old(admitted), old(spoolBytes), BytesFreed(entries, stuck))
    {
      var failed: seq<Ref> := [];
      ghost var freed: nat := 0;
      assert entries[0..] == entries;
      for i := 0 to |entries|
        invariant buffer == [] && Deleting(old(files), files, entries, entries[i..], stuck, failed, freed)
        invariant Freed(old(admitted), old(spoolBytes), freed)
      {
        DeleteNext(old(files), files, entries, entries[i..], stuck, failed, freed);
        assert entries[i..][1..] == entries[i + 1..];
        if entries[i].id in stuck {
          failed := failed + [RefOf(entries[i])];
        } else {
          DeleteOne(entries[i]);
          freed := freed + entries[i].bytes;
        }
      }
      RemainingNone(files, stuck);
      if failed != [] {
        RequeueFront(failed);
      }
    }

    /** The byte counters went down by `bytes`, stopping at zero. */
    ghost predicate Freed(admittedBefore: nat, spoolBefore: nat, bytes: nat)
      reads this
    {
      admitted == SatSub(admittedBefore, bytes) && spoolBytes == SatSub(spoolBefore, bytes)
    }

    method DeleteOne(e: Entry)
      modifies this`files, this`admitted, this`spoolBytes
      ensures files == old(files) - {e.id}
      ensures admitted == SatSub(old(admitted), e.bytes) && spoolBytes == SatSub(old(spoolBytes), e.bytes)
    {
      files := files - {e.id};
      spoolBytes := SatSub(spoolBytes, e.bytes);
      admitted := SatSub(admitted, e.bytes);
    }

    /** With working storage and readable files, flushing repeatedly empties the spool, and every
        record that was in a file ends as a row, unless its id already had one. */
    method Drain()
      requires Valid() && AllReadable()
      modifies this
      ensures Valid() && files == map[] && buffer == []
      ensures forall n :: n in old(files) ==> HasRow(db, n)
      ensures old(db) <= db
      ensures forall i :: |old(db)| <= i < |db| ==>
                db[i].id in old(files) && old(files)[db[i].id] == Record(db[i])
    {
      while Backlog() > 0
        invariant Valid() && AllReadable()
        invariant Moved(old(files), old(db), files, db)
        decreases Backlog()
      {
        label before:
        ghost var batch := Flush(NO_FAULTS);
        FlushIsSafe(old@before(files), old@before(db), batch, NO_FAULTS);
        DrainNext(old(files), old(db), old@before(files), old@before(db), files, db);
      }
    }
  }
}
