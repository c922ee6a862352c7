/** The quota-bounded LRU cache of transformed images. */
module ImageCache {
  import opened Common
  import opened Orders
  import opened Sums
  import TextOrder

  type Key = string
  type Time = int

  datatype CacheEntry = CacheEntry(bytes: nat, modified: Time, sequence: nat)
  datatype Slot = Slot(sequence: nat, key: Key)
  datatype Limits = Limits(maxFiles: nat, maxBytes: nat, maxEntryBytes: nat)

  type Entries = map<Key, CacheEntry>

  // ---------------------------------------------------------------------------
  // Recency
  // ---------------------------------------------------------------------------

  predicate Older(a: Slot, b: Slot) {
    a.sequence < b.sequence || (a.sequence == b.sequence && TextOrder.Less(a.key, b.key))
  }

  /** The lower stamp is older, and among equal stamps the key that comes first. */
  lemma OlderIff(a: Slot, b: Slot)
    ensures Older(a, b) <==>
              a.sequence < b.sequence || (a.sequence == b.sequence && TextOrder.ComesFirst(a.key, b.key))
  {
    TextOrder.LessIff(a.key, b.key);
  }

  lemma OlderOrders(a: Slot, b: Slot, c: Slot)
    ensures !Older(a, a)
    ensures Older(a, b) && Older(b, c) ==> Older(a, c)
    ensures Older(a, b) || a == b || Older(b, a)
    ensures !(Older(a, b) && Older(b, a))
  {
    TextOrder.LessIrreflexive(a.key);
    TextOrder.LessTotal(a.key, b.key);
    if TextOrder.Less(a.key, b.key) && TextOrder.Less(b.key, c.key) { TextOrder.LessTransitive(a.key, b.key, c.key); }
    if TextOrder.Less(a.key, b.key) && TextOrder.Less(b.key, a.key) { TextOrder.LessTransitive(a.key, b.key, a.key); }
  }

  lemma OlderIsOrder(s: set<Slot>)
    ensures IsOrder(Older, s)
  {
    forall x, y | x in s && y in s && Older(x, y) ensures !Older(y, x) { OlderOrders(x, y, x); }
    forall x, y, z | x in s && y in s && z in s && Older(x, y) && Older(y, z)
      ensures Older(x, z)
    {
      OlderOrders(x, y, z);
    }
    forall x, y | x in s && y in s && x != y ensures Older(x, y) || Older(y, x) { OlderOrders(x, y, x); }
  }

  // ---------------------------------------------------------------------------
  // The index
  // ---------------------------------------------------------------------------

  ghost function Slots(entries: Entries): set<Slot> { set k | k in entries :: Slot(entries[k].sequence, k) }

  ghost function BytesOf(entries: Entries): map<Key, nat> { map k | k in entries :: entries[k].bytes }

  ghost function Total(entries: Entries): nat { Sum(BytesOf(entries)) }

  lemma TotalWithout(entries: Entries, k: Key)
    requires k in entries
    ensures Total(entries) == entries[k].bytes + Total(entries - {k})
  {
    SumWithout(BytesOf(entries), k);
    assert BytesOf(entries) - {k} == BytesOf(entries - {k});
  }

  lemma TotalWith(entries: Entries, k: Key, e: CacheEntry)
    ensures Total(entries[k := e]) == e.bytes + Total(entries - {k})
  {
    TotalWithout(entries[k := e], k);
    assert entries[k := e] - {k} == entries - {k};
  }

  lemma SlotsWithout(entries: Entries, k: Key)
    requires k in entries
    ensures Slots(entries - {k}) == Slots(entries) - {Slot(entries[k].sequence, k)}
  {
    forall x | x in Slots(entries) && x.key != k
      ensures x in Slots(entries - {k})
    {
      assert x.key in entries - {k};
    }
  }

  lemma SlotsWith(entries: Entries, k: Key, e: CacheEntry)
    requires k !in entries
    ensures Slots(entries[k := e]) == Slots(entries) + {Slot(e.sequence, k)}
  {
    forall x | x in Slots(entries) + {Slot(e.sequence, k)}
      ensures x in Slots(entries[k := e])
    {
      assert x.key in entries[k := e];
    }
  }

  class CacheMetadata {
    var entries: Entries
    var lru: set<Slot>
    var totalBytes: nat
    var nextSequence: nat

    constructor ()
      ensures Valid() && entries == map[] && nextSequence == 0 && totalBytes == 0
    {
      entries, lru, totalBytes, nextSequence := map[], {}, 0, 0;
      new;
      assert BytesOf(entries) == map[];
    }

    /** The ordered set mirrors the entries, and stamps are below the next one until it saturates. */
    ghost predicate Mirrored()
      reads this
    {
      && lru == Slots(entries)
      && nextSequence <= U64_MAX
      && forall k :: k in entries ==> entries[k].sequence < nextSequence || nextSequence == U64_MAX
    }

    ghost predicate Valid()
      reads this
    {
      Mirrored() && totalBytes == Total(entries)
    }

    method Remove(key: Key)
      requires Mirrored()
      modifies this`entries, this`lru, this`totalBytes
      ensures Mirrored() && entries == old(entries) - {key}
      ensures old(Valid()) ==> Valid()
    {
      if key !in entries {
        assert entries - {key} == entries;
        return;
      }
      TotalWithout(entries, key);
      SlotsWithout(entries, key);
      totalBytes := SatSub(totalBytes, entries[key].bytes);
      lru := lru - {Slot(entries[key].sequence, key)};
      entries := entries - {key};
    }

    method Insert(key: Key, bytes: nat, modified: Time)
      requires Mirrored()
      modifies this
      ensures Mirrored() && nextSequence == SatAdd(old(nextSequence), 1)
      ensures entries == old(entries)[key := CacheEntry(bytes, modified, old(nextSequence))]
      ensures old(Valid()) && Total(old(entries) - {key}) + bytes <= U64_MAX ==> Valid()
    {
      TotalWith(entries, key, CacheEntry(bytes, modified, nextSequence));
      ghost var before := entries;
      Remove(key);
      var sequence := nextSequence;
      SlotsWith(entries, key, CacheEntry(bytes, modified, sequence));
      nextSequence := SatAdd(nextSequence, 1);
      totalBytes := SatAdd(totalBytes, bytes);
      lru := lru + {Slot(sequence, key)};
      entries := entries[key := CacheEntry(bytes, modified, sequence)];
      assert entries == before[key := CacheEntry(bytes, modified, sequence)];
    }

    /** Makes the key the most recent one. */
    method Touch(key: Key)
      requires Valid()
      modifies this
      ensures Valid()
      ensures key !in old(entries) ==> entries == old(entries) && nextSequence == old(nextSequence)
      ensures key in old(entries) ==>
        && entries == old(entries)[key := old(entries)[key].(sequence := old(nextSequence))]
        && nextSequence == SatAdd(old(nextSequence), 1)
      ensures key in old(entries) && old(nextSequence) < U64_MAX ==>
        forall k :: k in entries && k != key ==>
          Older(Slot(entries[k].sequence, k), Slot(entries[key].sequence, key))
    {
      if key !in entries { return; }
      var e := entries[key];
      TotalWithout(entries, key);
      TotalWith(entries, key, e.(sequence := nextSequence));
      SlotsWithout(entries, key);
      SlotsWith(entries - {key}, key, e.(sequence := nextSequence));
      assert (entries - {key})[key := e.(sequence := nextSequence)] == entries[key := e.(sequence := nextSequence)];
      lru := lru - {Slot(e.sequence, key)};
      lru := lru + {Slot(nextSequence, key)};
      entries := entries[key := e.(sequence := nextSequence)];
      nextSequence := SatAdd(nextSequence, 1);
    }

    /** The oldest indexed key other than the excluded one. */
    method OldestExcept(excluded: Key) returns (r: Option<Key>)
      requires Valid()
      ensures r.None? <==> entries.Keys <= {excluded}
      ensures r.Some? ==> r.value in entries && r.value != excluded && IsOldestKey(entries, excluded, r.value)
      ensures r.Some? ==> forall k :: k in entries && k != excluded ==> entries[r.value].sequence <= entries[k].sequence
    {
      var left := lru;
      while left != {}
        invariant left <= lru && forall x :: x in lru && x.key != excluded ==> x in left
        decreases left
      {
        OlderIsOrder(left);
        var x := Least(Older, left);
        if x.key != excluded {
          assert x.key in entries;
          forall k | k in entries && k != excluded && k != x.key
            ensures Older(Slot(entries[x.key].sequence, x.key), Slot(entries[k].sequence, k))
          {
            assert Slot(entries[k].sequence, k) in left;
          }
          return Some(x.key);
        }
        left := left - {x};
      }
      forall k | k in entries ensures k == excluded { assert Slot(entries[k].sequence, k) in lru; }
      return None;
    }
  }

  ghost predicate IsOldestKey(entries: Entries, excluded: Key, v: Key)
    requires v in entries
  {
    forall k :: k in entries && k != excluded && k != v ==>
      Older(Slot(entries[v].sequence, v), Slot(entries[k].sequence, k))
  }

  // ---------------------------------------------------------------------------
  // Making room
  // ---------------------------------------------------------------------------

  function ExistingBytes(entries: Entries, target: Key): nat {
    if target in entries then entries[target].bytes else 0
  }

  /** The source's projection, taken from the counters: an indexed target counts as already there
      only if it has bytes. */
  ghost predicate Fits(entries: Entries, target: Key, incoming: nat, l: Limits) {
    var existing := ExistingBytes(entries, target);
    && SatSub(|entries|, if existing > 0 then 1 else 0) + 1 <= l.maxFiles
    && SatAdd(SatSub(Total(entries), existing), incoming) <= l.maxBytes
  }

  /** What the projection comes to: an entry replaced with bytes frees its place and its bytes; one without
      bytes is counted twice; and a byte quota at the top of the 64-bit range admits any sum. */
  lemma FitsIff(entries: Entries, target: Key, incoming: nat, l: Limits)
    requires l.maxBytes <= 18446744073709551615
    ensures Fits(entries, target, incoming, l) <==>
              && (if target in entries && entries[target].bytes > 0 then |entries| else |entries| + 1) <= l.maxFiles
              && (Total(entries - {target}) + incoming <= l.maxBytes || l.maxBytes == 18446744073709551615)
  {
    if target in entries {
      TotalWithout(entries, target);
      assert target in entries.Keys;
    } else {
      assert entries - {target} == entries;
    }
  }

  /** A set of evicted keys closed under age: whatever stays, apart from the target, is younger. */
  ghost predicate OldestFirst(entries: Entries, target: Key, gone: set<Key>) {
    && gone <= entries.Keys - {target}
    && forall a, b :: a in gone && b in entries && b != target && b !in gone ==>
         Older(Slot(entries[a].sequence, a), Slot(entries[b].sequence, b))
  }

  /** Exactly the shortest prefix of the LRU order, target excluded, that makes room. */
  ghost predicate ShortestPrefix(entries: Entries, target: Key, incoming: nat, l: Limits, gone: set<Key>) {
    && OldestFirst(entries, target, gone)
    && forall fewer :: fewer < gone && OldestFirst(entries, target, fewer) ==>
         !Fits(entries - fewer, target, incoming, l)
  }

  lemma NoneGone(entries: Entries, target: Key, incoming: nat, l: Limits)
    ensures ShortestPrefix(entries, target, incoming, l, {}) && entries - {} == entries
  {
  }

  lemma MinusTwice<V>(m: map<Key, V>, gone: set<Key>, v: Key)
    ensures m - gone - {v} == m - (gone + {v})
  {
  }

  lemma OldestFirstGrows(entries: Entries, target: Key, gone: set<Key>, v: Key)
    requires OldestFirst(entries, target, gone)
    requires v in entries - gone && v != target && IsOldestKey(entries - gone, target, v)
    ensures OldestFirst(entries, target, gone + {v})
  {
    forall a, b | a in gone + {v} && b in entries && b != target && b !in gone + {v}
      ensures Older(Slot(entries[a].sequence, a), Slot(entries[b].sequence, b))
    {
      assert b in entries - gone && (entries - gone)[b] == entries[b] && (entries - gone)[v] == entries[v];
    }
  }

  /** A set closed under age that has the newest victim has them all. */
  lemma FewerMissesVictim(entries: Entries, target: Key, gone: set<Key>, v: Key, fewer: set<Key>)
    requires OldestFirst(entries, target, gone) && v in entries && v != target && v !in gone
    requires OldestFirst(entries, target, fewer) && fewer < gone + {v}
    ensures fewer <= gone
  {
    if v in fewer {
      var a :| a in gone && a !in fewer;
      var x, y := Slot(entries[v].sequence, v), Slot(entries[a].sequence, a);
      assert Older(x, y) && Older(y, x);
      OlderOrders(x, y, x);
    }
  }

  lemma OneMoreGone(entries: Entries, target: Key, incoming: nat, l: Limits, gone: set<Key>, v: Key)
    requires ShortestPrefix(entries, target, incoming, l, gone) && !Fits(entries - gone, target, incoming, l)
    requires v in entries - gone && v != target && IsOldestKey(entries - gone, target, v)
    ensures ShortestPrefix(entries, target, incoming, l, gone + {v})
  {
    OldestFirstGrows(entries, target, gone, v);
    forall fewer | fewer < gone + {v} && OldestFirst(entries, target, fewer)
      ensures !Fits(entries - fewer, target, incoming, l)
    {
      FewerMissesVictim(entries, target, gone, v, fewer);
      if fewer != gone { assert fewer < gone; }
    }
  }

  /** With every other key gone, a fitting entry is refused in one case only. */
  lemma NoRoomLeft(entries: Entries, target: Key, incoming: nat, l: Limits)
    requires entries.Keys <= {target} && incoming <= l.maxBytes && l.maxFiles >= 1
    ensures Fits(entries, target, incoming, l) <==>
              !(target in entries && entries[target].bytes == 0 && l.maxFiles == 1)
  {
    if target in entries {
      TotalWithout(entries, target);
      assert entries - {target} == map[] && BytesOf(map[]) == map[];
      assert entries.Keys == {target};
    } else {
      assert entries == map[] && BytesOf(entries) == map[];
    }
  }

  lemma ZeroLengthNeverFits(entries: Entries, target: Key, incoming: nat, l: Limits)
    requires target in entries && entries[target].bytes == 0 && l.maxFiles == 1
    ensures !Fits(entries, target, incoming, l)
  {
    assert |entries| > 0;
  }

  datatype ReadResult = Hit | Miss | Failed

  /** What reading the indexed file meets: an error in either call, bytes that do not decode, or a payload. */
  datatype Disk = StatFails | ReadFails | Garbled | Decodes

  datatype WriteResult = Written | TooLarge | QuotaExhausted | RemoveFailed | StoreFailed

  class ImageTransformCache {
    const limits: Limits
    const ttl: nat
    const meta: CacheMetadata
    var files: map<Key, nat>

    /** Starts from an index built at startup. */
    constructor (limits: Limits, ttl: nat, meta: CacheMetadata, files: map<Key, nat>)
      ensures this.meta == meta && this.files == files && this.ttl == ttl && this.limits == limits
    {
      this.limits, this.ttl, this.meta, this.files := limits, ttl, meta, files;
    }

    ghost predicate Valid()
      reads this, meta
    {
      meta.Valid() && limits.maxFiles >= 1 && 1 <= limits.maxBytes <= U64_MAX
    }

    method RemoveEntryLocked(key: Key, stuck: set<Key>) returns (ok: bool)
      requires Valid()
      modifies this`files, meta`entries, meta`lru, meta`totalBytes
      ensures Valid() && ok == (key !in stuck)
      ensures ok ==> meta.entries == old(meta.entries) - {key} && files == old(files) - {key}
      ensures !ok ==> meta.entries == old(meta.entries) && files == old(files)
    {
      if key in stuck { return false; }
      files := files - {key};
      meta.Remove(key);
      return true;
    }

    /** The guard of the eviction loop, from the counters. */
    method HasRoom(target: Key, incoming: nat) returns (ok: bool)
      requires Valid()
      ensures ok <==> Fits(meta.entries, target, incoming, limits)
    {
      var existing := ExistingBytes(meta.entries, target);
      var projectedFiles := SatSub(|meta.entries|, if existing > 0 then 1 else 0) + 1;
      var projectedBytes := SatAdd(SatSub(meta.totalBytes, existing), incoming);
      ok := projectedFiles <= limits.maxFiles && projectedBytes <= limits.maxBytes;
    }

    /** Removes the oldest entry other than the target, if there is one and its file can go. */
    method EvictOldest(target: Key, stuck: set<Key>) returns (victim: Option<Key>, ok: bool)
      requires Valid()
      modifies this`files, meta`entries, meta`lru, meta`totalBytes
      ensures Valid() && (victim.None? <==> old(meta.entries).Keys <= {target})
      ensures victim.Some? ==>
        && victim.value in old(meta.entries) && victim.value != target
        && IsOldestKey(old(meta.entries), target, victim.value)
      ensures ok <==> victim.Some? && victim.value !in stuck
      ensures ok ==>
        && meta.entries == old(meta.entries) - {victim.value} && files == old(files) - {victim.value}
        && |meta.entries| < old(|meta.entries|)
      ensures !ok ==> meta.entries == old(meta.entries) && files == old(files)
    {
      victim := meta.OldestExcept(target);
      ok := false;
      if victim.Some? {
        assert (meta.entries - {victim.value}).Keys == meta.entries.Keys - {victim.value};
        ok := RemoveEntryLocked(victim.value, stuck);
      }
    }

    /** Evicts until the projection fits.  `gone` is what was evicted. */
    method MakeRoomFor(target: Key, incoming: nat, stuck: set<Key>) returns (r: WriteResult, ghost gone: set<Key>)
      requires Valid()
      modifies this`files, meta`entries, meta`lru, meta`totalBytes
      ensures Valid() && (r.Written? || r.QuotaExhausted? || r.RemoveFailed?)
      ensures meta.entries == old(meta.entries) - gone && files == old(files) - gone
      ensures ShortestPrefix(old(meta.entries), target, incoming, limits, gone)
      ensures r.Written? <==> Fits(meta.entries, target, incoming, limits)
      ensures r.QuotaExhausted? ==> meta.entries.Keys <= {target}
      ensures stuck == {} ==> !r.RemoveFailed?
      ensures old(Indexed(files, meta.entries)) ==> Indexed(files, meta.entries)
    {
      gone := {};
      NoneGone(meta.entries, target, incoming, limits);
      assert files - {} == files;
      var fits := HasRoom(target, incoming);
      while !fits
        invariant Valid() && fits == Fits(meta.entries, target, incoming, limits)
        invariant ShortestPrefix(old(meta.entries), target, incoming, limits, gone)
        invariant meta.entries == old(meta.entries) - gone && files == old(files) - gone
        invariant old(Indexed(files, meta.entries)) ==> Indexed(files, meta.entries)
        decreases |meta.entries|, !fits
      {
        var victim, ok := EvictOldest(target, stuck);
        if victim.None? {
          return QuotaExhausted, gone;
        }
        if !ok {
          return RemoveFailed, gone;
        }
        OneMoreGone(old(meta.entries), target, incoming, limits, gone, victim.value);
        MinusTwice(old(meta.entries), gone, victim.value);
        MinusTwice(old(files), gone, victim.value);
        gone := gone + {victim.value};
        fits := HasRoom(target, incoming);
      }
      return Written, gone;
    }

    /** A successful write evicts exactly the shortest LRU prefix that makes room and ends within both
        quotas; only a byte quota at the top of the 64-bit range can be exceeded, by a sum that does not
        fit in 64 bits.  An entry small enough is
        refused as exhausted exactly when the cache is limited to one file and already indexes the
        key with no bytes. */
    method Write(key: Key, bytes: nat, now: Time, stuck: set<Key>, storeOk: bool)
      returns (r: WriteResult, ghost gone: set<Key>)
      requires Valid()
      modifies this`files, meta
      ensures meta.Mirrored() && (limits.maxBytes < U64_MAX || Total(meta.entries) <= U64_MAX ==> Valid())
      ensures old(Indexed(files, meta.entries)) ==> Indexed(files, meta.entries)
      ensures old(Indexed(files, meta.entries)) && r.Written? ==>
        |files| <= limits.maxFiles && Sum(files) <= Total(meta.entries)
      ensures r.TooLarge? <==> bytes > limits.maxEntryBytes || bytes > limits.maxBytes
      ensures r.TooLarge? ==> gone == {}
      ensures ShortestPrefix(old(meta.entries), key, bytes, limits, gone)
      ensures r.Written? ==>
        && meta.entries == (old(meta.entries) - gone)[key := CacheEntry(bytes, now, old(meta.nextSequence))]
        && files == (old(files) - gone)[key := bytes]
        && Fits(old(meta.entries) - gone, key, bytes, limits)
      ensures r.Written? ==>
        && |meta.entries| <= limits.maxFiles
        && (Total(meta.entries) <= limits.maxBytes <==> limits.maxBytes < U64_MAX || Total(meta.entries) <= U64_MAX)
      ensures !r.Written? ==> meta.entries == old(meta.entries) - gone && files == old(files) - gone
      ensures stuck == {} ==>
        (r.QuotaExhausted? <==>
           !r.TooLarge? && key in old(meta.entries) && old(meta.entries)[key].bytes == 0 && limits.maxFiles == 1)
    {
      gone := {};
      NoneGone(meta.entries, key, bytes, limits);
      assert files - {} == files;
      if bytes > limits.maxEntryBytes || bytes > limits.maxBytes {
        return TooLarge, gone;
      }
      r, gone := MakeRoomFor(key, bytes, stuck);
      RefusalExplained(old(meta.entries), meta.entries, key, bytes, limits, gone);
      if !r.Written? { return; }
      if !storeOk {
        return StoreFailed, gone;
      }
      Store(key, bytes, now);
    }

    /** The renamed file and its index entry, once there is room. */
    method Store(key: Key, bytes: nat, now: Time)
      requires Valid() && Fits(meta.entries, key, bytes, limits)
      modifies this`files, meta
      ensures meta.Mirrored() && (limits.maxBytes < U64_MAX || Total(meta.entries) <= U64_MAX ==> Valid())
      ensures meta.entries == old(meta.entries)[key := CacheEntry(bytes, now, old(meta.nextSequence))]
      ensures files == old(files)[key := bytes]
      ensures |meta.entries| <= limits.maxFiles
      ensures Total(meta.entries) <= limits.maxBytes <==> limits.maxBytes < U64_MAX || Total(meta.entries) <= U64_MAX
      ensures old(Indexed(files, meta.entries)) ==>
        Indexed(files, meta.entries) && |files| <= limits.maxFiles && Sum(files) <= Total(meta.entries)
    {
      WithinQuota(meta.entries, key, bytes, limits, now, meta.nextSequence);
      files := files[key := bytes];
      meta.Insert(key, bytes, now);
      if Indexed(files, meta.entries) { DiskIsIndexed(files, meta.entries); }
    }

    /** A hit needs an indexed, unexpired file of the indexed size that can be read and decodes, and
        makes the key the most recent one.  A miss takes at most the key itself out, and a failure
        changes nothing. */
    method ReadIfFresh(key: Key, expired: bool, disk: Disk, removable: bool) returns (r: ReadResult)
      requires Valid()
      modifies this`files, meta
      ensures Valid()
      ensures old(Indexed(files, meta.entries)) ==> Indexed(files, meta.entries)
      ensures r.Hit? <==> key in old(meta.entries) && key in old(files) && disk.Decodes? && !expired
                          && old(files)[key] == old(meta.entries)[key].bytes <= limits.maxEntryBytes
      ensures r.Hit? ==> files == old(files)
      ensures r.Hit? ==>
        meta.entries == old(meta.entries)[key := old(meta.entries)[key].(sequence := old(meta.nextSequence))]
      ensures r.Miss? ==> meta.entries == old(meta.entries) - {key} && files - {key} == old(files) - {key}
      ensures r.Failed? ==> (!removable || disk.StatFails? || disk.ReadFails?)
                            && meta.entries == old(meta.entries) && files == old(files)
    {
      if key !in meta.entries {
        assert meta.entries - {key} == meta.entries;
        return Miss;
      }
      if disk.StatFails? { return Failed; }
      if key !in files {
        meta.Remove(key);
        return Miss;
      }
      var size := files[key];
      if size > limits.maxEntryBytes || size != meta.entries[key].bytes || expired {
        var ok := RemoveEntryLocked(key, if removable then {} else {key});
        return if ok then Miss else Failed;
      }
      if disk.ReadFails? { return Failed; }
      if disk.Garbled? {
        var ok := RemoveEntryLocked(key, if removable then {} else {key});
        return if ok then Miss else Failed;
      }
      meta.Touch(key);
      return Hit;
    }
  }

  /** No file but the indexed ones, each of its indexed size. */
  ghost predicate Indexed(files: map<Key, nat>, entries: Entries) {
    forall k :: k in files ==> k in entries && files[k] == entries[k].bytes
  }

  /** Then the directory holds no more than the index says. */
  lemma DiskIsIndexed(files: map<Key, nat>, entries: Entries)
    requires Indexed(files, entries)
    ensures |files| <= |entries| && Sum(files) <= Total(entries)
  {
    SumMonotone(files, BytesOf(entries));
    SubsetSize(files.Keys, entries.Keys);
  }

  /** A byte quota at the top of the 64-bit range refuses nothing: the projection saturates. */
  lemma TopQuotaNeverBinds(entries: Entries, target: Key, incoming: nat, l: Limits)
    requires l.maxBytes == U64_MAX && |entries| < l.maxFiles
    ensures Fits(entries, target, incoming, l)
  {
  }

  lemma WithinQuota(entries: Entries, key: Key, bytes: nat, l: Limits, now: Time, sequence: nat)
    requires Fits(entries, key, bytes, l) && l.maxBytes <= U64_MAX
    ensures var after := entries[key := CacheEntry(bytes, now, sequence)];
            && |after| <= l.maxFiles
            && Total(after) == Total(entries - {key}) + bytes
            && (Total(after) <= l.maxBytes <==> l.maxBytes < U64_MAX || Total(after) <= U64_MAX)
  {
    TotalWith(entries, key, CacheEntry(bytes, now, sequence));
    if key in entries {
      TotalWithout(entries, key);
      assert entries[key := CacheEntry(bytes, now, sequence)].Keys == entries.Keys;
    } else {
      assert entries - {key} == entries;
      assert entries[key := CacheEntry(bytes, now, sequence)].Keys == entries.Keys + {key};
    }
  }

  lemma RefusalExplained(before: Entries, after: Entries, key: Key, bytes: nat, l: Limits, gone: set<Key>)
    requires after == before - gone && OldestFirst(before, key, gone) && bytes <= l.maxBytes && l.maxFiles >= 1
    ensures after.Keys <= {key} && !Fits(after, key, bytes, l) ==>
              key in before && before[key].bytes == 0 && l.maxFiles == 1
    ensures key in before && before[key].bytes == 0 && l.maxFiles == 1 ==> !Fits(after, key, bytes, l)
  {
    if after.Keys <= {key} { NoRoomLeft(after, key, bytes, l); }
    if key in before && before[key].bytes == 0 && l.maxFiles == 1 { ZeroLengthNeverFits(after, key, bytes, l); }
  }
}
