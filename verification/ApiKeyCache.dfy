/** The API-key cache with its two reverse indexes.  Each method is one critical section
    under the mutation lock; generations bumped meanwhile by other threads enter as parameters. */
module ApiKeyCache {
  import opened Common

  type Key = string
  type Id = string
  type Index = map<Id, set<Key>>

  datatype Entry = Entry(keyId: Id, userId: Id, payload: string, cachedAt: nat, generation: nat)

  /** The two fields entries are indexed by. */
  datatype Field = ByKeyId | ByUserId

  function IdOf(e: Entry, f: Field): Id { if f == ByKeyId then e.keyId else e.userId }

  // ---------------------------------------------------------------------------
  // Indexes
  // ---------------------------------------------------------------------------

  ghost function KeysOf(cache: map<Key, Entry>, f: Field, id: Id): set<Key> {
    set k | k in cache && IdOf(cache[k], f) == id
  }

  ghost function IdsOf(cache: map<Key, Entry>, f: Field): set<Id> {
    set k | k in cache :: IdOf(cache[k], f)
  }

  /** The exact index: under each id of a cached entry, the cached keys with that id. */
  ghost function IndexOf(cache: map<Key, Entry>, f: Field): Index {
    map id | id in IdsOf(cache, f) :: KeysOf(cache, f, id)
  }

  /** The index has a set for an id exactly when some cached entry has that id; the set is never
      empty and holds exactly those keys. */
  lemma IndexIsExact(cache: map<Key, Entry>, f: Field, id: Id)
    ensures id in IndexOf(cache, f) <==> exists k :: k in cache && IdOf(cache[k], f) == id
    ensures id in IndexOf(cache, f) ==>
              && IndexOf(cache, f)[id] != {}
              && forall k :: k in IndexOf(cache, f)[id] <==> k in cache && IdOf(cache[k], f) == id
  {
    if id in IndexOf(cache, f) {
      var k :| k in cache && IdOf(cache[k], f) == id;
      assert k in KeysOf(cache, f, id);
    }
  }

  function AddMember(index: Index, id: Id, k: Key): Index {
    index[id := (if id in index then index[id] else {}) + {k}]
  }

  function RemoveMember(index: Index, id: Id, k: Key): Index {
    if id !in index then index
    else if index[id] - {k} == {} then index - {id}
    else index[id := index[id] - {k}]
  }

  lemma AddKeepsExact(cache: map<Key, Entry>, f: Field, k: Key, e: Entry)
    requires k !in cache
    ensures AddMember(IndexOf(cache, f), IdOf(e, f), k) == IndexOf(cache[k := e], f)
  {
    var a, b := AddMember(IndexOf(cache, f), IdOf(e, f), k), IndexOf(cache[k := e], f);
    forall id
      ensures id in a <==> id in b
      ensures id in a ==> a[id] == b[id]
    {
      IndexIsExact(cache, f, id);
      IndexIsExact(cache[k := e], f, id);
      if id in a && id != IdOf(e, f) {
        var j :| j in cache && IdOf(cache[j], f) == id;
        assert cache[k := e][j] == cache[j];
      }
      if id == IdOf(e, f) { assert cache[k := e][k] == e; }
    }
  }

  lemma RemoveKeepsExact(cache: map<Key, Entry>, f: Field, k: Key)
    requires k in cache
    ensures RemoveMember(IndexOf(cache, f), IdOf(cache[k], f), k) == IndexOf(cache - {k}, f)
  {
    var a, b := RemoveMember(IndexOf(cache, f), IdOf(cache[k], f), k), IndexOf(cache - {k}, f);
    forall id
      ensures id in a <==> id in b
      ensures id in a ==> a[id] == b[id]
    {
      RemoveAt(cache, f, k, id);
    }
  }

  lemma RemoveAt(cache: map<Key, Entry>, f: Field, k: Key, id: Id)
    requires k in cache
    ensures var a, b := RemoveMember(IndexOf(cache, f), IdOf(cache[k], f), k), IndexOf(cache - {k}, f);
            (id in a <==> id in b) && (id in a ==> a[id] == b[id])
  {
    IndexIsExact(cache, f, id);
    IndexIsExact(cache, f, IdOf(cache[k], f));
    IndexIsExact(cache - {k}, f, id);
    assert KeysOf(cache, f, id) - {k} == KeysOf(cache - {k}, f, id);
    if id in IndexOf(cache, f) {
      if KeysOf(cache - {k}, f, id) != {} {
        var j :| j in KeysOf(cache - {k}, f, id);
        assert j in cache - {k} && IdOf((cache - {k})[j], f) == id;
      }
      if id != IdOf(cache[k], f) {
        var j :| j in cache && IdOf(cache[j], f) == id;
        assert j in cache - {k} && (cache - {k})[j] == cache[j];
      }
    }
  }

  /** With the set of `out` already taken from the index, removing one of its keys needs no more. */
  lemma RemoveKeepsExactBut(cache: map<Key, Entry>, f: Field, k: Key)
    requires k in cache
    ensures IndexOf(cache, f) - {IdOf(cache[k], f)} == IndexOf(cache - {k}, f) - {IdOf(cache[k], f)}
  {
    RemoveKeepsExact(cache, f, k);
  }

  ghost function Without(cache: map<Key, Entry>, f: Field, id: Id): map<Key, Entry> {
    map k | k in cache && IdOf(cache[k], f) != id :: cache[k]
  }

  lemma RemoveTaken(cache: map<Key, Entry>, f: Field, out: Id, k: Key)
    requires k in cache && IdOf(cache[k], f) == out
    ensures KeysOf(cache - {k}, f, out) == KeysOf(cache, f, out) - {k}
    ensures Without(cache - {k}, f, out) == Without(cache, f, out)
  {
  }

  lemma AllTaken(cache: map<Key, Entry>, f: Field, out: Id)
    requires KeysOf(cache, f, out) == {}
    ensures IndexOf(cache, f) - {out} == IndexOf(cache, f) && Without(cache, f, out) == cache
  {
    IndexIsExact(cache, f, out);
    forall k | k in cache ensures IdOf(cache[k], f) != out { assert k !in KeysOf(cache, f, out); }
  }

  // ---------------------------------------------------------------------------
  // The cache
  // ---------------------------------------------------------------------------

  class Cache {
    var cache: map<Key, Entry>
    var keyIdIndex: Index
    var userIdIndex: Index
    var generation: nat
    const ttl: nat
    const capacity: nat

    ghost predicate Valid()
      reads this
    {
      && keyIdIndex == IndexOf(cache, ByKeyId)
      && userIdIndex == IndexOf(cache, ByUserId)
      && |cache| <= capacity && capacity > 0
    }

    constructor (ttl: nat, capacity: nat)
      ensures Valid() && cache == map[] && generation == 0
      ensures this.ttl == ttl && this.capacity == if capacity == 0 then 1 else capacity
    {
      cache, keyIdIndex, userIdIndex, generation := map[], map[], map[], 0;
      this.ttl := ttl;
      this.capacity := if capacity == 0 then 1 else capacity;
    }

    predicate Expired(e: Entry, now: nat) { now > e.cachedAt + ttl }

    /** A hit is a live entry of the current generation; only an expired entry is removed. */
    method Get(key: Key, now: nat, bumpsDuringCopy: nat) returns (r: Option<Entry>)
      requires Valid()
      modifies this
      ensures Valid()
      ensures r.Some? <==> key in old(cache) && old(cache)[key].generation == old(generation)
                           && now - old(cache)[key].cachedAt <= ttl && bumpsDuringCopy == 0
      ensures r.Some? ==> r.value == old(cache)[key]
      ensures forall k :: k in cache ==> k in old(cache) && cache[k] == old(cache)[k]
      ensures key in old(cache) && key !in cache <==>
                && key in old(cache) && old(cache)[key].generation == old(generation)
                && now - old(cache)[key].cachedAt > ttl
      ensures forall k :: k in old(cache) && k !in cache ==> k == key
      ensures old(generation) <= generation <= old(generation) + bumpsDuringCopy
    {
      if key !in cache { return None; }
      var e := cache[key];
      var g := generation;
      if e.generation != g { return None; }
      if Expired(e, now) {
        RemoveKeyLocked(key);
        return None;
      }
      generation := generation + bumpsDuringCopy;
      if generation != g { return None; }
      return Some(e);
    }

    method RemoveKeyLocked(key: Key)
      requires Valid()
      modifies this`cache, this`keyIdIndex, this`userIdIndex
      ensures Valid() && cache == old(cache) - {key}
    {
      if key !in cache {
        assert cache - {key} == cache;
        return;
      }
      var e := cache[key];
      RemoveKeepsExact(cache, ByKeyId, key);
      RemoveKeepsExact(cache, ByUserId, key);
      assert (cache - {key}).Keys == cache.Keys - {key};
      cache := cache - {key};
      keyIdIndex := RemoveMember(keyIdIndex, e.keyId, key);
      userIdIndex := RemoveMember(userIdIndex, e.userId, key);
    }

    /** Inserts only while the captured generation is current.  At capacity exactly one other key
        goes; an overtaken insert takes its own entry out again. */
    method InsertIfCurrent(key: Key, captured: nat, e: Entry, bumpsDuringInsert: nat) returns (inserted: bool)
      requires Valid() && e.generation == captured
      modifies this
      ensures Valid()
      ensures inserted <==> captured == old(generation) && bumpsDuringInsert == 0
      ensures inserted ==> key in cache && cache[key] == e
      ensures captured != old(generation) ==> cache == old(cache)
      ensures captured == old(generation) && bumpsDuringInsert > 0 ==> key !in cache
      ensures forall k :: k in cache && k != key ==> k in old(cache) && cache[k] == old(cache)[k]
      ensures key in old(cache) || old(|cache|) < capacity ==>
                forall k :: k in old(cache) && k != key ==> k in cache
      ensures old(|cache|) <= |cache| + 1
      ensures old(generation) <= generation <= old(generation) + bumpsDuringInsert
    {
      if generation != captured { return false; }
      if key !in cache && |cache| >= capacity {
        var victim :| victim in cache;
        assert (cache - {victim}).Keys == cache.Keys - {victim};
        RemoveKeyLocked(victim);
      }
      if key in cache {
        assert (cache - {key}).Keys == cache.Keys - {key};
        RemoveKeyLocked(key);
      }
      PutNew(key, e);
      generation := generation + bumpsDuringInsert;
      if generation == captured { return true; }
      if key in cache && cache[key].generation == captured {
        assert (cache - {key}).Keys == cache.Keys - {key};
        RemoveKeyLocked(key);
      }
      return false;
    }

    method PutNew(key: Key, e: Entry)
      requires Valid() && key !in cache && |cache| < capacity
      modifies this`cache, this`keyIdIndex, this`userIdIndex
      ensures Valid() && cache == old(cache)[key := e] && |cache| == old(|cache|) + 1
    {
      AddKeepsExact(cache, ByKeyId, key, e);
      AddKeepsExact(cache, ByUserId, key, e);
      cache := cache[key := e];
      keyIdIndex := AddMember(keyIdIndex, e.keyId, key);
      userIdIndex := AddMember(userIdIndex, e.userId, key);
    }

    /** After an invalidation by key id exactly the entries of that id are gone. */
    method InvalidateByKeyId(id: Id)
      requires Valid()
      modifies this
      ensures Valid() && generation == old(generation) + 1
      ensures cache == Without(old(cache), ByKeyId, id)
      ensures cache == map k | k in old(cache) && old(cache)[k].keyId != id :: old(cache)[k]
    {
      generation := generation + 1;
      RemoveIndexed(ByKeyId, id);
    }

    method InvalidateByUserId(id: Id)
      requires Valid()
      modifies this
      ensures Valid() && generation == old(generation) + 1
      ensures cache == Without(old(cache), ByUserId, id)
      ensures cache == map k | k in old(cache) && old(cache)[k].userId != id :: old(cache)[k]
    {
      generation := generation + 1;
      RemoveIndexed(ByUserId, id);
    }

    method InvalidateByKeyIds(ids: seq<Id>)
      requires Valid()
      modifies this
      ensures Valid() && generation == old(generation) + 1
      ensures cache == map k | k in old(cache) && old(cache)[k].keyId !in ids :: old(cache)[k]
    {
      generation := generation + 1;
      for i := 0 to |ids|
        invariant Valid() && generation == old(generation) + 1
        invariant cache == map k | k in old(cache) && old(cache)[k].keyId !in ids[..i] :: old(cache)[k]
      {
        assert ids[..i + 1] == ids[..i] + [ids[i]];
        RemoveIndexed(ByKeyId, ids[i]);
      }
      assert ids[..|ids|] == ids;
    }

    /** Takes one id out of its index and removes the keys that were filed under it. */
    method RemoveIndexed(f: Field, id: Id)
      requires Valid()
      modifies this`cache, this`keyIdIndex, this`userIdIndex
      ensures Valid()
      ensures cache == Without(old(cache), f, id)
    {
      var left := TakeSet(f, id);
      while left != {}
        invariant Orphaned(f, id) && |cache| <= capacity
        invariant left == KeysOf(cache, f, id)
        invariant Without(cache, f, id) == Without(old(cache), f, id)
        decreases left
      {
        var k :| k in left;
        RemoveTaken(cache, f, id, k);
        left := left - {k};
        RemoveOrphan(f, id, k);
      }
      AllTaken(cache, f, id);
    }

    method TakeSet(f: Field, id: Id) returns (keys: set<Key>)
      requires Valid()
      modifies this`keyIdIndex, this`userIdIndex
      ensures Orphaned(f, id) && keys == KeysOf(cache, f, id)
    {
      var index := if f == ByKeyId then keyIdIndex else userIdIndex;
      IndexIsExact(cache, f, id);
      keys := if id in index then index[id] else {};
      if f == ByKeyId { keyIdIndex := index - {id}; } else { userIdIndex := index - {id}; }
    }

    /** Both indexes are exact, except that `f` has lost its set for `id`. */
    ghost predicate Orphaned(f: Field, id: Id)
      reads this
    {
      && keyIdIndex == (if f == ByKeyId then IndexOf(cache, ByKeyId) - {id} else IndexOf(cache, ByKeyId))
      && userIdIndex == (if f == ByUserId then IndexOf(cache, ByUserId) - {id} else IndexOf(cache, ByUserId))
    }

    /** Removes a key whose set is already out of the index of `f`. */
    method RemoveOrphan(f: Field, id: Id, k: Key)
      requires Orphaned(f, id) && k in cache && IdOf(cache[k], f) == id && |cache| <= capacity
      modifies this`cache, this`keyIdIndex, this`userIdIndex
      ensures Orphaned(f, id) && cache == old(cache) - {k} && |cache| <= capacity
    {
      var e := cache[k];
      RemoveKeepsExactBut(cache, f, k);
      RemoveKeepsExact(cache, if f == ByKeyId then ByUserId else ByKeyId, k);
      assert (cache - {k}).Keys == cache.Keys - {k};
      cache := cache - {k};
      keyIdIndex := RemoveMember(keyIdIndex, e.keyId, k);
      userIdIndex := RemoveMember(userIdIndex, e.userId, k);
    }

    method InvalidateAll()
      requires Valid()
      modifies this
      ensures Valid() && cache == map[] && generation == old(generation) + 1
    {
      generation := generation + 1;
      cache, keyIdIndex, userIdIndex := map[], map[], map[];
    }

    /** The eviction task removes exactly the expired entries. */
    method EvictExpired(now: nat)
      requires Valid()
      modifies this
      ensures Valid() && generation == old(generation)
      ensures cache == map k | k in old(cache) && now - old(cache)[k].cachedAt <= ttl :: old(cache)[k]
    {
      var left := set k | k in cache && Expired(cache[k], now);
      while left != {}
        invariant Valid() && generation == old(generation)
        invariant forall k :: k in cache ==> k in old(cache) && cache[k] == old(cache)[k]
        invariant forall k :: k in old(cache) && !Expired(old(cache)[k], now) ==> k in cache
        invariant forall k :: k in left <==> k in cache && Expired(cache[k], now)
        decreases left
      {
        var k :| k in left;
        left := left - {k};
        RemoveKeyLocked(k);
      }
    }
  }
}
