/** Copying a pricing profile, and why the copy outlives every later synchronisation. */
module ProfileCopy {
  import opened Common
  import opened RateTable

  datatype CopyError = InvalidTarget | SameProfile | TargetNotEmpty | SourceNotFound | Storage

  datatype CopyResult = Copied(count: nat) | Refused(error: CopyError)

  /** Unicode white space, as trimming removes it. */
  predicate IsSpace(c: char) {
    var n := c as int;
    9 <= n <= 13 || n == 0x20 || n == 0x85 || n == 0xA0 || n == 0x1680 || 0x2000 <= n <= 0x200A
    || n == 0x2028 || n == 0x2029 || n == 0x202F || n == 0x205F || n == 0x3000
  }

  function Trim(s: string): (r: string)
    ensures r != [] ==> !IsSpace(r[0]) && !IsSpace(r[|r| - 1])
    ensures r == [] <==> forall i :: 0 <= i < |s| ==> IsSpace(s[i])
    decreases |s|
  {
    if s == [] then []
    else if IsSpace(s[0]) then var r := Trim(s[1..]); assert forall i :: 1 <= i < |s| ==> s[i] == s[1..][i - 1]; r
    else if IsSpace(s[|s| - 1]) then Trim(s[..|s| - 1])
    else s
  }

  /** `s[a..b]` with nothing but white space around it. */
  ghost predicate IsCore(s: string, a: nat, b: nat, core: string) {
    a <= b <= |s| && core == s[a..b] && forall i :: 0 <= i < a || b <= i < |s| ==> IsSpace(s[i])
  }

  lemma CoreOfTail(s: string, a: nat, b: nat, core: string)
    requires s != [] && IsSpace(s[0]) && IsCore(s[1..], a, b, core)
    ensures IsCore(s, a + 1, b + 1, core)
  {
    assert s[1..][a..b] == s[a + 1..b + 1];
    assert forall i :: 1 <= i < |s| ==> s[i] == s[1..][i - 1];
  }

  lemma CoreOfInit(s: string, a: nat, b: nat, core: string)
    requires s != [] && IsSpace(s[|s| - 1]) && IsCore(s[..|s| - 1], a, b, core)
    ensures IsCore(s, a, b, core)
  {
    assert s[..|s| - 1][a..b] == s[a..b];
    assert forall i :: 0 <= i < |s| - 1 ==> s[i] == s[..|s| - 1][i];
  }

  /** What trimming returns is a stretch of the string with nothing but white space around it. */
  lemma {:induction false} TrimIsStretch(s: string) returns (a: nat, b: nat)
    ensures IsCore(s, a, b, Trim(s))
    decreases |s|
  {
    if s == [] {
      a, b := 0, 0;
    } else if IsSpace(s[0]) {
      a, b := TrimIsStretch(s[1..]);
      CoreOfTail(s, a, b, Trim(s[1..]));
      a, b := a + 1, b + 1;
    } else if IsSpace(s[|s| - 1]) {
      a, b := TrimIsStretch(s[..|s| - 1]);
      CoreOfInit(s, a, b, Trim(s[..|s| - 1]));
    } else {
      a, b := 0, |s|;
      assert s[0..|s|] == s;
    }
  }

  const COPY := "manual:profile-copy:"

  function CopiedId(target: string, sourceId: string): string { COPY + target + ":" + sourceId }

  /** Within one target, different rows get different ids. */
  lemma CopiedIdInjective(target: string, a: string, b: string)
    requires CopiedId(target, a) == CopiedId(target, b)
    ensures a == b
  {
    var p := COPY + target + ":";
    assert CopiedId(target, a)[|p|..] == a && CopiedId(target, b)[|p|..] == b;
  }

  lemma CopiedIdPrefix(target: string, sourceId: string)
    ensures COPY <= CopiedId(target, sourceId)
  {
    assert CopiedId(target, sourceId)[..|COPY|] == COPY;
  }

  /** Across targets they may not: a colon in a profile name can make two copies want one id. */
  lemma CopiedIdsCollide()
    ensures CopiedId("a", "b:c") == CopiedId("a:b", "c")
  {
    assert COPY + "a" + ":" + "b:c" == COPY + "a:b" + ":" + "c";
  }

  function CopyOf(row: Row, target: string, now: string): Row {
    row.(source := MANUAL, profile := target, updatedAt := now)
  }

  function OfProfile(rates: Rates, profile: string): set<string> {
    set k | k in rates && rates[k].profile == profile
  }

  /** The table with a copy of each row named in `ids` added. */
  ghost predicate AddsCopies(before: Rates, after: Rates, ids: set<string>, target: string, now: string) {
    && (forall k :: k in before ==> k in after && after[k] == before[k])
    && (forall s :: s in ids && s in before ==>
          CopiedId(target, s) in after && after[CopiedId(target, s)] == CopyOf(before[s], target, now))
    && (forall k :: k in after && k !in before ==> exists s :: s in ids && k == CopiedId(target, s))
  }

  /** Some row of the source profile wants an id that is already taken. */
  ghost predicate IdTaken(rates: Rates, source: string, target: string) {
    exists s :: s in OfProfile(rates, source) && CopiedId(target, s) in rates
  }

  /** Why a copy is refused, if it is; in the order of the checks. */
  ghost function Refusal(rates: Rates, source: string, target: string): Option<CopyError> {
    if target == "" then Some(InvalidTarget)
    else if target == source then Some(SameProfile)
    else if OfProfile(rates, target) != {} then Some(TargetNotEmpty)
    else if OfProfile(rates, source) == {} then Some(SourceNotFound)
    else if IdTaken(rates, source, target) then Some(Storage)
    else None
  }

  /** Writes one mirrored rate for each priced usage class. */
  method MirrorRates(rates: Rates, model: string, meta: Meta, priced: seq<(string, string)>) returns (txn: Rates)
    ensures txn == UpsertAll(rates, MirrorWrites(model, meta, priced), true)
  {
    txn := rates;
    ghost var writes := MirrorWrites(model, meta, priced);
    for i := 0 to |priced|
      invariant txn == UpsertAll(rates, writes[..i], true)
    {
      assert writes[..i + 1][..i] == writes[..i];
      txn := Upsert(txn, MirrorWrite(model, meta, priced[i].0, priced[i].1), true);
    }
    assert writes[..|writes|] == writes;
  }

  /** Writes the rates of the models.dev feed. */
  method WriteSynced(rates: Rates, writes: seq<Write>) returns (txn: Rates)
    ensures txn == UpsertAll(rates, writes, false)
  {
    txn := rates;
    for i := 0 to |writes|
      invariant txn == UpsertAll(rates, writes[..i], false)
    {
      assert writes[..i + 1][..i] == writes[..i];
      txn := Upsert(txn, writes[i], false);
    }
    assert writes[..|writes|] == writes;
  }

  class RateStore {
    var rates: Rates
    var metadata: map<string, Meta>

    ghost function Contents(): Store
      reads this
    {
      Store(rates, metadata)
    }

    constructor (rates: Rates, metadata: map<string, Meta>)
      ensures Contents() == Store(rates, metadata)
    {
      this.rates, this.metadata := rates, metadata;
    }

    /** Copies every row of the source profile in one transaction, in any order, or none. */
    method CopyProfile(source: string, targetProfile: string, now: string) returns (r: CopyResult)
      modifies this`rates
      ensures r.Refused? ==> rates == old(rates) && Refusal(rates, source, Trim(targetProfile)) == Some(r.error)
      ensures r.Copied? ==> Refusal(old(rates), source, Trim(targetProfile)) == None
      ensures r.Copied? ==> r.count == |OfProfile(old(rates), source)|
      ensures r.Copied? ==> AddsCopies(old(rates), rates, OfProfile(old(rates), source), Trim(targetProfile), now)
    {
      var target := Trim(targetProfile);
      if target == "" { return Refused(InvalidTarget); }
      if target == source { return Refused(SameProfile); }
      if OfProfile(rates, target) != {} { return Refused(TargetNotEmpty); }
      var ids := OfProfile(rates, source);
      if ids == {} { return Refused(SourceNotFound); }
      var txn := rates;
      var left := ids;
      while left != {}
        invariant left <= ids && AddsCopies(rates, txn, ids - left, target, now)
        invariant forall s :: s in ids - left ==> CopiedId(target, s) !in rates
        invariant rates == old(rates)
        decreases |left|
      {
        var s :| s in left;
        if CopiedId(target, s) in txn {
          TakenBefore(rates, txn, ids - left, target, now, s);
          return Refused(Storage);
        }
        CopyOne(rates, txn, ids - left, target, now, s);
        txn := txn[CopiedId(target, s) := CopyOf(txn[s], target, now)];
        assert ids - (left - {s}) == ids - left + {s};
        left := left - {s};
      }
      assert ids - left == ids;
      rates := txn;
      r := Copied(|ids|);
    }

    /** Replaces the catalog rows, leaving out those whose id a manual row has. */
    method SyncCatalog(catalog: seq<Write>) returns (ok: bool)
      modifies this`rates
      ensures Contents() == AfterCatalog(old(Contents()), catalog)
      ensures ok <==> InsertAll(WithoutSource(old(rates), CATALOG), NotManual(old(rates), catalog)).Some?
    {
      var txn := WithoutSource(rates, CATALOG);
      var writes: seq<Write> := [];
      for i := 0 to |catalog|
        invariant writes == NotManual(rates, catalog[..i])
      {
        assert catalog[..i + 1][..i] == catalog[..i];
        var w := catalog[i];
        if w.id in rates && rates[w.id].source == MANUAL {
          continue;
        }
        writes := writes + [w.(row := w.row.(source := CATALOG))];
      }
      assert catalog[..|catalog|] == catalog;
      ghost var start := txn;
      for i := 0 to |writes|
        invariant InsertAll(start, writes[..i]) == Some(txn)
      {
        assert writes[..i + 1][..i] == writes[..i];
        if writes[i].id in txn {
          InsertFails(start, writes, i + 1);
          return false;
        }
        txn := txn[writes[i].id := writes[i].row];
      }
      assert writes[..|writes|] == writes;
      rates := txn;
      ok := true;
    }

    method UpsertModelMetadata(model: string, input: MetaInput, now: string, foldCase: bool)
      modifies this
      ensures Contents() == AfterUpsert(old(Contents()), model, input, now, foldCase)
    {
      var meta := Merged(input, if model in metadata then Some(metadata[model]) else None, now);
      metadata := metadata[model := meta];
      rates := MirrorRates(WithoutMirror(rates, model, foldCase), model, meta, Priced(meta.prices));
    }

    method DeleteModelMetadata(model: string, foldCase: bool) returns (deleted: bool)
      modifies this
      ensures Contents() == AfterDelete(old(Contents()), model, foldCase) && deleted == (model in old(metadata))
    {
      if model !in metadata { return false; }
      metadata := metadata - {model};
      rates := WithoutMirror(rates, model, foldCase);
      deleted := true;
    }

    method SyncFromModelsDev(winners: seq<Winner>, now: string)
      modifies this
      ensures Contents() == AfterModelsDev(old(Contents()), winners, now)
    {
      var kept := OnlyManual(metadata);
      var written := kept;
      var writes: seq<Write> := [];
      for i := 0 to |winners|
        invariant written == SyncedMetadata(kept, winners[..i], now) && writes == SyncedRates(kept, winners[..i], now)
        invariant rates == old(rates) && metadata == old(metadata)
      {
        assert winners[..i + 1][..i] == winners[..i];
        var w := winners[i];
        if !w.positiveInput || w.model in kept { continue; }
        written := written[w.model := RecordOf(w, now)];
        writes := writes + SyncWrites(w, Priced(w.prices), now);
      }
      assert winners[..|winners|] == winners;
      metadata := written;
      rates := WriteSynced(WithoutSource(rates, MODELS_DEV), writes);
    }
  }

  lemma TakenBefore(before: Rates, txn: Rates, done: set<string>, target: string, now: string, s: string)
    requires AddsCopies(before, txn, done, target, now) && s !in done && CopiedId(target, s) in txn
    ensures CopiedId(target, s) in before
  {
    if CopiedId(target, s) !in before {
      var other :| other in done && CopiedId(target, s) == CopiedId(target, other);
      CopiedIdInjective(target, s, other);
      assert false;
    }
  }

  lemma CopyOne(before: Rates, txn: Rates, done: set<string>, target: string, now: string, s: string)
    requires AddsCopies(before, txn, done, target, now) && s in before && CopiedId(target, s) !in txn
    ensures s in txn && txn[s] == before[s]
    ensures AddsCopies(before, txn[CopiedId(target, s) := CopyOf(before[s], target, now)], done + {s}, target, now)
  {
    var after := txn[CopiedId(target, s) := CopyOf(before[s], target, now)];
    forall k | k in after && k !in before
      ensures exists x :: x in done + {s} && k == CopiedId(target, x)
    {
      if k == CopiedId(target, s) { assert s in done + {s}; }
      else {
        var x :| x in done && k == CopiedId(target, x);
        assert x in done + {s};
      }
    }
  }

  lemma {:induction false} InsertFails(rates: Rates, writes: seq<Write>, n: nat)
    requires n <= |writes| && InsertAll(rates, writes[..n]).None?
    ensures InsertAll(rates, writes).None?
    decreases |writes| - n
  {
    if n == |writes| {
      assert writes[..n] == writes;
    } else {
      assert writes[..n + 1][..n] == writes[..n];
      InsertFails(rates, writes, n + 1);
    }
  }

  // ---------------------------------------------------------------------------
  // A copy is a one-to-one image
  // ---------------------------------------------------------------------------

  /** After a copy the target profile is exactly the image of the source profile: one row for each
      source row, differing in id, source, profile and time only, and nothing else changed. */
  lemma CopyIsOneToOne(before: Rates, after: Rates, source: string, target: string, now: string)
    requires Refusal(before, source, target) == None
    requires AddsCopies(before, after, OfProfile(before, source), target, now)
    ensures forall k :: k in OfProfile(after, target) <==>
      exists s :: s in OfProfile(before, source) && k == CopiedId(target, s)
    ensures forall k :: k in before ==> k in after && after[k] == before[k]
    ensures forall k :: k in after && k !in before ==> k in OfProfile(after, target)
    ensures forall s :: s in OfProfile(before, source) ==>
      && "manual:profile-copy:" + target + ":" + s in after
      && after["manual:profile-copy:" + target + ":" + s]
         == before[s].(source := "manual", profile := target, updatedAt := now)
    ensures forall s, u :: s in OfProfile(before, source) && u in OfProfile(before, source) && s != u ==>
      CopiedId(target, s) != CopiedId(target, u)
    ensures OfProfile(after, source) == OfProfile(before, source)
  {
    forall s, u | s in OfProfile(before, source) && u in OfProfile(before, source) && s != u
      ensures CopiedId(target, s) != CopiedId(target, u)
    {
      if CopiedId(target, s) == CopiedId(target, u) { CopiedIdInjective(target, s, u); }
    }
    forall k | k in OfProfile(after, target)
      ensures exists s :: s in OfProfile(before, source) && k == CopiedId(target, s)
    {
      assert k in before ==> k in OfProfile(before, target);
    }
    forall k | k in OfProfile(after, source)
      ensures k in OfProfile(before, source)
    {
      assert k in before;
    }
  }

  /** Two copies whose targets and sources are in order can still collide: the second is refused as a
      storage failure although its target is empty. */
  lemma SecondCopyRefused(row: Row, now: string)
    ensures
      var first := map["b:c" := row.(profile := "p"), "c" := row.(profile := "q")];
      var second := first[CopiedId("a", "b:c") := CopyOf(first["b:c"], "a", now)];
      && Refusal(first, "p", "a") == None && AddsCopies(first, second, {"b:c"}, "a", now)
      && OfProfile(second, "a:b") == {} && OfProfile(second, "q") == {"c"}
      && Refusal(second, "q", "a:b") == Some(Storage)
  {
    var first := map["b:c" := row.(profile := "p"), "c" := row.(profile := "q")];
    var second := first[CopiedId("a", "b:c") := CopyOf(first["b:c"], "a", now)];
    CopiedIdsCollide();
    assert |CopiedId("a", "b:c")| > 3 && |CopiedId("a", "c")| > 3;
    assert OfProfile(first, "p") == {"b:c"} && OfProfile(first, "a") == {};
    assert OfProfile(second, "q") == {"c"};
    assert "c" in OfProfile(second, "q") && CopiedId("a:b", "c") in second;
  }

  // ---------------------------------------------------------------------------
  // A copy outlives every synchronisation
  // ---------------------------------------------------------------------------

  datatype Change =
    | CatalogSync(catalog: seq<Write>)
    | ModelsDevSync(winners: seq<Winner>, now: string)
    | MetadataUpsert(model: string, input: MetaInput, now: string)
    | MetadataDelete(model: string)
    | Failed

  /** `Failed` is any of them that did not commit. */
  function After(s: Store, c: Change, foldCase: bool): Store {
    match c
    case CatalogSync(catalog) => AfterCatalog(s, catalog)
    case ModelsDevSync(winners, now) => AfterModelsDev(s, winners, now)
    case MetadataUpsert(model, input, now) => AfterUpsert(s, model, input, now, foldCase)
    case MetadataDelete(model) => AfterDelete(s, model, foldCase)
    case Failed => s
  }

  function AfterAll(s: Store, changes: seq<Change>, foldCase: bool): Store {
    if changes == [] then s
    else After(AfterAll(s, changes[..|changes| - 1], foldCase), changes[|changes| - 1], foldCase)
  }

  /** A manual row under a copy's id. */
  ghost predicate IsCopy(id: string, row: Row) { row.source == "manual" && "manual:profile-copy:" <= id }

  /** A copy's id is in neither of the namespaces that synchronisation writes or deletes. */
  lemma CopyNamespace(id: string, foldCase: bool)
    requires COPY <= id
    ensures !LikeMirror(id, foldCase)
    ensures id[1] == 'a' && |id| > 1
  {
    assert id[1] == COPY[1] == 'a' && MIRROR[1] == 'o';
    assert LikeMirror(id, foldCase) ==> MIRROR[1] == '_' || SameLetter(MIRROR[1], id[1], foldCase);
  }

  lemma {:induction false} InsertKeeps(rates: Rates, writes: seq<Write>, id: string)
    requires id in rates && InsertAll(rates, writes).Some?
    ensures id in InsertAll(rates, writes).value && InsertAll(rates, writes).value[id] == rates[id]
  {
    if writes != [] { InsertKeeps(rates, writes[..|writes| - 1], id); }
  }

  lemma {:induction false} UpsertKeeps(rates: Rates, writes: seq<Write>, keepKind: bool, id: string)
    requires id in rates && forall i :: 0 <= i < |writes| ==> writes[i].id != id
    ensures id in UpsertAll(rates, writes, keepKind) && UpsertAll(rates, writes, keepKind)[id] == rates[id]
  {
    if writes != [] { UpsertKeeps(rates, writes[..|writes| - 1], keepKind, id); }
  }

  lemma {:induction false} SyncIds(kept: map<string, Meta>, winners: seq<Winner>, now: string)
    ensures forall i :: 0 <= i < |SyncedRates(kept, winners, now)| ==>
      |SyncedRates(kept, winners, now)[i].id| > 1 && SyncedRates(kept, winners, now)[i].id[1] == 'o'
  {
    if winners != [] {
      SyncIds(kept, winners[..|winners| - 1], now);
      var w := winners[|winners| - 1];
      var more := SyncWrites(w, Priced(w.prices), now);
      forall i | 0 <= i < |more| ensures |more[i].id| > 1 && more[i].id[1] == 'o' {
        assert more[i].id[..11] == "models_dev:";
        assert more[i].id[1] == "models_dev:"[1];
      }
    }
  }

  lemma MirrorIds(model: string, meta: Meta, priced: seq<(string, string)>)
    ensures forall i :: 0 <= i < |priced| ==>
      |MirrorWrites(model, meta, priced)[i].id| > 1 && MirrorWrites(model, meta, priced)[i].id[1] == 'o'
  {
    forall i | 0 <= i < |priced|
      ensures |MirrorWrites(model, meta, priced)[i].id| > 1 && MirrorWrites(model, meta, priced)[i].id[1] == 'o'
    {
      assert MirrorWrites(model, meta, priced)[i].id[..15] == MIRROR;
      assert MirrorWrites(model, meta, priced)[i].id[1] == MIRROR[1];
    }
  }

  lemma {:induction false} ChangeKeeps(s: Store, c: Change, foldCase: bool, id: string)
    requires id in s.rates && IsCopy(id, s.rates[id])
    ensures id in After(s, c, foldCase).rates && After(s, c, foldCase).rates[id] == s.rates[id]
  {
    CopyNamespace(id, foldCase);
    match c
    case CatalogSync(catalog) =>
      var writes := NotManual(s.rates, catalog);
      if InsertAll(WithoutSource(s.rates, CATALOG), writes).Some? {
        InsertKeeps(WithoutSource(s.rates, CATALOG), writes, id);
      }
    case ModelsDevSync(winners, now) =>
      var kept := OnlyManual(s.metadata);
      SyncIds(kept, winners, now);
      UpsertKeeps(WithoutSource(s.rates, MODELS_DEV), SyncedRates(kept, winners, now), false, id);
    case MetadataUpsert(model, input, now) =>
      var meta := Merged(input, if model in s.metadata then Some(s.metadata[model]) else None, now);
      MirrorIds(model, meta, Priced(meta.prices));
      UpsertKeeps(WithoutMirror(s.rates, model, foldCase), MirrorWrites(model, meta, Priced(meta.prices)), true, id);
    case MetadataDelete(model) =>
    case Failed =>
  }

  /** No sequence of synchronisations, upserts and deletes ever changes a copied row. */
  lemma {:induction false} CopySurvives(s: Store, changes: seq<Change>, foldCase: bool, id: string)
    requires id in s.rates && IsCopy(id, s.rates[id])
    ensures id in AfterAll(s, changes, foldCase).rates && AfterAll(s, changes, foldCase).rates[id] == s.rates[id]
  {
    if changes != [] {
      CopySurvives(s, changes[..|changes| - 1], foldCase, id);
      ChangeKeeps(AfterAll(s, changes[..|changes| - 1], foldCase), changes[|changes| - 1], foldCase, id);
    }
  }

  /** Every row of a freshly copied profile is there, unchanged, after any later changes. */
  lemma {:induction false} CopiedProfileSurvives(before: Rates, s: Store, source: string, target: string, now: string,
      changes: seq<Change>, foldCase: bool)
    requires Refusal(before, source, target) == None
    requires AddsCopies(before, s.rates, OfProfile(before, source), target, now)
    ensures forall k :: k in OfProfile(s.rates, target) ==>
      k in AfterAll(s, changes, foldCase).rates && AfterAll(s, changes, foldCase).rates[k] == s.rates[k]
  {
    CopyIsOneToOne(before, s.rates, source, target, now);
    forall k | k in OfProfile(s.rates, target)
      ensures k in AfterAll(s, changes, foldCase).rates && AfterAll(s, changes, foldCase).rates[k] == s.rates[k]
    {
      var x :| x in OfProfile(before, source) && k == CopiedId(target, x);
      CopiedIdPrefix(target, x);
      CopySurvives(s, changes, foldCase, k);
    }
  }

  // ---------------------------------------------------------------------------
  // Both halves of the rule are needed
  // ---------------------------------------------------------------------------

  /** A row that kept the catalog source is gone after the next committed sync that does not list it. */
  lemma {:induction false} CatalogRowVanishes(s: Store, catalog: seq<Write>, id: string)
    requires id in s.rates && s.rates[id].source == "catalog" && forall i :: 0 <= i < |catalog| ==> catalog[i].id != id
    requires InsertAll(WithoutSource(s.rates, CATALOG), NotManual(s.rates, catalog)).Some?
    ensures id !in AfterCatalog(s, catalog).rates
  {
    CatalogIsExact(s, catalog, id);
  }

  // ---------------------------------------------------------------------------
  // What the synchronisations leave behind
  // ---------------------------------------------------------------------------

  ghost predicate Writes(writes: seq<Write>, id: string) { exists i :: 0 <= i < |writes| && writes[i].id == id }

  lemma WritesSplit(writes: seq<Write>, id: string)
    requires writes != []
    ensures Writes(writes, id) <==> Writes(writes[..|writes| - 1], id) || writes[|writes| - 1].id == id
  {
    var n := |writes| - 1;
    if Writes(writes[..n], id) {
      var i :| 0 <= i < n && writes[..n][i].id == id;
      assert writes[i].id == id;
    }
    if i :| 0 <= i < |writes| && writes[i].id == id && i < n { assert writes[..n][i].id == id; }
  }

  lemma {:induction false} InsertedRows(rates: Rates, writes: seq<Write>, id: string)
    requires InsertAll(rates, writes).Some?
    ensures var after := InsertAll(rates, writes).value;
            && (id in after <==> id in rates || Writes(writes, id))
            && (id in rates ==> after[id] == rates[id] && !Writes(writes, id))
            && (id in after && id !in rates ==> Write(id, after[id]) in writes)
  {
    if writes != [] {
      InsertedRows(rates, writes[..|writes| - 1], id);
      WritesSplit(writes, id);
    }
  }

  /** A catalog row as it is stored. */
  function Stored(w: Write): Write { w.(row := w.row.(source := CATALOG)) }

  lemma {:induction false} WritesAreCatalog(rates: Rates, catalog: seq<Write>, id: string)
    ensures forall w :: w in NotManual(rates, catalog) ==>
      w.row.source == CATALOG && exists i :: 0 <= i < |catalog| && Stored(catalog[i]) == w
    ensures Writes(NotManual(rates, catalog), id) <==>
      Writes(catalog, id) && !(id in rates && rates[id].source == MANUAL)
  {
    if catalog != [] {
      var n := |catalog| - 1;
      var writes, rest := NotManual(rates, catalog), NotManual(rates, catalog[..n]);
      WritesAreCatalog(rates, catalog[..n], id);
      WritesSplit(catalog, id);
      forall w | w in rest
        ensures exists i :: 0 <= i < |catalog| && Stored(catalog[i]) == w
      {
        var i :| 0 <= i < n && Stored(catalog[..n][i]) == w;
        assert Stored(catalog[i]) == w;
      }
      assert Stored(catalog[n]) == Stored(catalog[n]);
      if writes != rest {
        assert writes[..|writes| - 1] == rest;
        WritesSplit(writes, id);
      }
    }
  }

  /** After a committed catalog sync the catalog rows are exactly the listed ones without a manual
      row, as listed, and every other row is as it was. */
  lemma {:induction false} CatalogIsExact(s: Store, catalog: seq<Write>, id: string)
    requires InsertAll(WithoutSource(s.rates, CATALOG), NotManual(s.rates, catalog)).Some?
    ensures var after := AfterCatalog(s, catalog).rates;
            && (id in after && after[id].source == "catalog" <==>
                  Writes(catalog, id) && !(id in s.rates && s.rates[id].source == "manual"))
            && (id in after && after[id].source == "catalog" ==>
                  exists i :: 0 <= i < |catalog| && catalog[i].id == id
                    && after[id] == catalog[i].row.(source := "catalog"))
            && (id in s.rates && s.rates[id].source != "catalog" ==> id in after && after[id] == s.rates[id])
            && (id in after && after[id].source != "catalog" ==> id in s.rates && s.rates[id].source != "catalog")
  {
    WritesAreCatalog(s.rates, catalog, id);
    InsertedRows(WithoutSource(s.rates, CATALOG), NotManual(s.rates, catalog), id);
    var after := AfterCatalog(s, catalog).rates;
    if id in after && after[id].source == CATALOG {
      var i :| 0 <= i < |catalog| && Stored(catalog[i]) == Write(id, after[id]);
      assert catalog[i].id == id;
    }
  }

  ghost predicate Feeds(kept: map<string, Meta>, winners: seq<Winner>, model: string) {
    exists i :: 0 <= i < |winners| && winners[i].model == model && Synced(kept, winners[i])
  }

  /** The record is that of a variant the feed has for the model. */
  ghost predicate FedBy(kept: map<string, Meta>, winners: seq<Winner>, model: string, record: Meta, now: string) {
    exists i :: 0 <= i < |winners| && winners[i].model == model && Synced(kept, winners[i])
                && record == RecordOf(winners[i], now)
  }

  lemma FedByMore(kept: map<string, Meta>, winners: seq<Winner>, n: nat, model: string, record: Meta, now: string)
    requires n <= |winners| && FedBy(kept, winners[..n], model, record, now)
    ensures FedBy(kept, winners, model, record, now)
  {
    var i :| 0 <= i < n && winners[..n][i].model == model && Synced(kept, winners[..n][i])
             && record == RecordOf(winners[..n][i], now);
    assert winners[i].model == model;
  }

  lemma {:induction false} SyncedModels(kept: map<string, Meta>, winners: seq<Winner>, now: string, model: string)
    ensures var after := SyncedMetadata(kept, winners, now);
            && (model in after <==> model in kept || Feeds(kept, winners, model))
            && (model in kept ==> after[model] == kept[model])
            && (model in after && model !in kept ==> FedBy(kept, winners, model, after[model], now))
  {
    if winners != [] {
      var n := |winners| - 1;
      SyncedModels(kept, winners[..n], now, model);
      var before := SyncedMetadata(kept, winners[..n], now);
      if model in before && model !in kept { FedByMore(kept, winners, n, model, before[model], now); }
      if Feeds(kept, winners[..n], model) {
        var i :| 0 <= i < n && winners[..n][i].model == model && Synced(kept, winners[..n][i]);
        assert winners[i].model == model;
      }
      if i :| 0 <= i < |winners| && winners[i].model == model && Synced(kept, winners[i]) && i < n {
        assert winners[..n][i].model == model;
      }
    }
  }

  /** The write prices a usage class of a model the feed gives. */
  ghost predicate FeedRate(kept: map<string, Meta>, winners: seq<Winner>, w: Write, now: string) {
    exists i :: 0 <= i < |winners| && Synced(kept, winners[i]) && FeedPrices(winners[i], w, now)
  }

  ghost predicate FeedPrices(winner: Winner, w: Write, now: string) {
    w in SyncWrites(winner, Priced(winner.prices), now)
  }

  lemma FeedSplit(kept: map<string, Meta>, winners: seq<Winner>, w: Write, now: string)
    requires winners != []
    ensures var n := |winners| - 1;
            FeedRate(kept, winners, w, now) <==>
              FeedRate(kept, winners[..n], w, now) || (Synced(kept, winners[n]) && FeedPrices(winners[n], w, now))
  {
    var n := |winners| - 1;
    if FeedRate(kept, winners[..n], w, now) {
      var i :| 0 <= i < n && Synced(kept, winners[..n][i]) && FeedPrices(winners[..n][i], w, now);
      assert FeedPrices(winners[i], w, now);
    }
    if i :| 0 <= i < |winners| && Synced(kept, winners[i]) && FeedPrices(winners[i], w, now) && i < n {
      assert FeedPrices(winners[..n][i], w, now);
    }
  }

  /** The rates a sync writes are exactly those of the priced classes of the feed's models. */
  lemma {:induction false} FeedWrites(kept: map<string, Meta>, winners: seq<Winner>, w: Write, now: string)
    ensures w in SyncedRates(kept, winners, now) <==> FeedRate(kept, winners, w, now)
    ensures w in SyncedRates(kept, winners, now) ==> w.row.source == MODELS_DEV
  {
    if winners != [] {
      FeedWrites(kept, winners[..|winners| - 1], w, now);
      FeedSplit(kept, winners, w, now);
    }
  }

  /** After a models.dev sync the rates of the feed's priced classes are there as the feed gives them,
      up to tier columns kept from a row they replace; there is no other models.dev rate, and every rate
      of another source that the feed does not overwrite is as it was. */
  lemma {:induction false} FeedRatesAreExact(s: Store, winners: seq<Winner>, now: string, id: string)
    ensures
      var after := AfterModelsDev(s, winners, now).rates;
      var writes := SyncedRates(OnlyManual(s.metadata), winners, now);
      && (Writes(writes, id) ==> id in after && after[id].source == "models_dev" && SetRow(writes, id, after[id]))
      && (id in after && after[id].source == "models_dev" ==> Writes(writes, id))
      && (!Writes(writes, id) ==>
            && (id in after <==> id in s.rates && s.rates[id].source != "models_dev")
            && (id in after ==> after[id] == s.rates[id]))
      && (forall w :: w in writes <==> FeedRate(OnlyManual(s.metadata), winners, w, now))
  {
    forall w
      ensures w in SyncedRates(OnlyManual(s.metadata), winners, now) <==>
        FeedRate(OnlyManual(s.metadata), winners, w, now)
      ensures w in SyncedRates(OnlyManual(s.metadata), winners, now) ==> w.row.source == MODELS_DEV
    {
      FeedWrites(OnlyManual(s.metadata), winners, w, now);
    }
    SyncedRows(WithoutSource(s.rates, MODELS_DEV), SyncedRates(OnlyManual(s.metadata), winners, now), id);
  }

  /** Some write for the id set every column of the row but the tiers. */
  ghost predicate SetRow(writes: seq<Write>, id: string, row: Row) {
    exists i :: 0 <= i < |writes| && writes[i].id == id && row.(tiers := writes[i].row.tiers) == writes[i].row
  }

  lemma {:induction false} SyncedRows(rates: Rates, writes: seq<Write>, id: string)
    ensures var after := UpsertAll(rates, writes, false);
            && (Writes(writes, id) ==> id in after && SetRow(writes, id, after[id]))
            && (!Writes(writes, id) ==> (id in after <==> id in rates) && (id in rates ==> after[id] == rates[id]))
  {
    if writes != [] {
      var n := |writes| - 1;
      SyncedRows(rates, writes[..n], id);
      WritesSplit(writes, id);
      var before, after := UpsertAll(rates, writes[..n], false), UpsertAll(rates, writes, false);
      if writes[n].id == id {
        assert after[id].(tiers := writes[n].row.tiers) == writes[n].row;
      } else if Writes(writes, id) {
        var i :| 0 <= i < n && writes[..n][i].id == id
                 && before[id].(tiers := writes[..n][i].row.tiers) == writes[..n][i].row;
        assert writes[i].id == id && after[id].(tiers := writes[i].row.tiers) == writes[i].row;
      }
    }
  }

  /** After a models.dev sync manual records are as they were, and the others are exactly the models of
      the feed with a positive input price and no manual record, as the feed gives them. */
  lemma MetadataIsExact(s: Store, winners: seq<Winner>, now: string, model: string)
    ensures var after := AfterModelsDev(s, winners, now).metadata;
            var manual := model in s.metadata && s.metadata[model].source == "manual";
            && (manual ==> model in after && after[model] == s.metadata[model])
            && (!manual ==> (model in after <==> Feeds(OnlyManual(s.metadata), winners, model)))
            && (!manual && model in after ==> FedBy(OnlyManual(s.metadata), winners, model, after[model], now))
  {
    SyncedModels(OnlyManual(s.metadata), winners, now, model);
  }

  /** The rate is one that mirrors the model's record. */
  ghost predicate IsMirror(rates: Rates, id: string, model: string, foldCase: bool)
    requires id in rates
  {
    rates[id].pattern == Some(model) && LikeMirror(id, foldCase)
  }

  /** Deleting a record leaves exactly the rates that do not mirror it, and the other records; deleting a
      record that is not there leaves everything. */
  lemma DeleteIsExact(s: Store, model: string, foldCase: bool, id: string)
    ensures var after := AfterDelete(s, model, foldCase);
            && model !in after.metadata && (forall m :: m != model ==> (m in after.metadata <==> m in s.metadata))
            && (forall m :: m in after.metadata ==> after.metadata[m] == s.metadata[m])
            && (id in after.rates <==>
                 id in s.rates && !(model in s.metadata && IsMirror(s.rates, id, model, foldCase)))
            && (id in after.rates ==> after.rates[id] == s.rates[id])
  {
    assert AfterDelete(s, model, foldCase).rates ==
           if model in s.metadata then WithoutMirror(s.rates, model, foldCase) else s.rates;
  }

  /** `row` is what the write says, in every column the update sets. */
  ghost predicate Agrees(row: Row, w: Write) { row.(kind := w.row.kind, tiers := w.row.tiers) == w.row }

  ghost predicate WroteRow(writes: seq<Write>, id: string, row: Row) {
    exists i :: 0 <= i < |writes| && writes[i].id == id && Agrees(row, writes[i])
  }

  lemma {:induction false} UpsertedRows(rates: Rates, writes: seq<Write>, id: string)
    ensures var after := UpsertAll(rates, writes, true);
            && (Writes(writes, id) ==> id in after && WroteRow(writes, id, after[id]))
            && (!Writes(writes, id) ==> (id in after <==> id in rates) && (id in rates ==> after[id] == rates[id]))
  {
    if writes != [] {
      var n := |writes| - 1;
      UpsertedRows(rates, writes[..n], id);
      WritesSplit(writes, id);
      var before, after := UpsertAll(rates, writes[..n], true), UpsertAll(rates, writes, true);
      if writes[n].id == id {
        assert Agrees(after[id], writes[n]);
      } else if Writes(writes, id) {
        var i :| 0 <= i < n && writes[..n][i].id == id && Agrees(before[id], writes[..n][i]);
        assert writes[i].id == id && Agrees(after[id], writes[i]);
      }
    }
  }

  lemma MirrorIdsMatch(model: string, meta: Meta, priced: seq<(string, string)>, foldCase: bool, id: string)
    ensures Writes(MirrorWrites(model, meta, priced), id) ==> LikeMirror(id, foldCase)
  {
    if Writes(MirrorWrites(model, meta, priced), id) {
      assert id[..15] == MIRROR;
      assert forall j :: 0 <= j < 15 ==> id[j] == id[..15][j];
    }
  }

  /** After an upsert the mirrored rates of the model are exactly one for each of its priced usage
      classes, with that class, its price and the record's profile, currency and source; every other
      rate is as it was. */
  lemma {:induction false} MirrorIsExact(s: Store, model: string, input: MetaInput, now: string, foldCase: bool,
                                         id: string)
    ensures
      var after := AfterUpsert(s, model, input, now, foldCase);
      var writes := MirrorWrites(model, after.metadata[model], Priced(after.metadata[model].prices));
      && (id in after.rates && IsMirror(after.rates, id, model, foldCase) <==> Writes(writes, id))
      && (Writes(writes, id) ==> WroteRow(writes, id, after.rates[id]))
      && (!Writes(writes, id) ==>
            (id in after.rates <==> id in s.rates && !IsMirror(s.rates, id, model, foldCase))
            && (id in after.rates ==> after.rates[id] == s.rates[id]))
  {
    var meta := AfterUpsert(s, model, input, now, foldCase).metadata[model];
    MirrorIdsMatch(model, meta, Priced(meta.prices), foldCase, id);
    MirrorRows(WithoutMirror(s.rates, model, foldCase), model, meta, Priced(meta.prices), foldCase, id);
  }

  lemma MirrorRows(kept: Rates, model: string, meta: Meta, priced: seq<(string, string)>, foldCase: bool, id: string)
    requires forall k :: k in kept ==> !(kept[k].pattern == Some(model) && LikeMirror(k, foldCase))
    ensures
      var writes := MirrorWrites(model, meta, priced);
      var after := UpsertAll(kept, writes, true);
      && (Writes(writes, id) ==> id in after && after[id].pattern == Some(model) && WroteRow(writes, id, after[id]))
      && (id in after && after[id].pattern == Some(model) && LikeMirror(id, foldCase) ==> Writes(writes, id))
      && (!Writes(writes, id) ==> (id in after <==> id in kept) && (id in after ==> after[id] == kept[id]))
  {
    UpsertedRows(kept, MirrorWrites(model, meta, priced), id);
  }
}
