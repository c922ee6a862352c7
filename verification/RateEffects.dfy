/** What the rate and metadata tables hold after each maintenance operation, column by column. */
module RateEffects {
  import opened Common
  import opened RateTable
  import opened ProfileCopy

  // ---------------------------------------------------------------------------
  // An updated record
  // ---------------------------------------------------------------------------

  /** A field left out keeps its value; a field given takes the given one, also when that is null. */
  ghost predicate Patched<T(!new)>(update: Patch<T>, before: Option<T>, after: Option<T>) {
    (update == Omitted ==> after == before) && forall v :: update == Given(v) ==> after == v
  }

  ghost predicate PricesPatched(input: MetaInput, before: Prices, after: Prices) {
    && Patched(input.input, before.input, after.input)
    && Patched(input.output, before.output, after.output)
    && Patched(input.cacheRead, before.cacheRead, after.cacheRead)
    && Patched(input.cacheWrite, before.cacheWrite, after.cacheWrite)
    && Patched(input.reasoning, before.reasoning, after.reasoning)
  }

  ghost predicate LimitsPatched(input: MetaInput, before: TokenLimits, after: TokenLimits) {
    && Patched(input.maxInput, before.input, after.input)
    && Patched(input.maxOutput, before.output, after.output)
    && Patched(input.maxTotal, before.total, after.total)
  }

  /** After an upsert the record has the given fields and keeps the others, or has none of them if it is
      new; it is manual, of this moment, in yuan unless a currency is given or stored; its raw data stays;
      and no other record has changed. */
  lemma UpsertedRecord(s: Store, model: string, input: MetaInput, now: string, foldCase: bool)
    ensures
      var after := AfterUpsert(s, model, input, now, foldCase).metadata;
      && model in after && after[model].source == "manual" && after[model].updatedAt == now
      && (input.currency.Some? ==> after[model].currency == input.currency.value)
      && (model in s.metadata ==>
            && Patched(input.provider, s.metadata[model].provider, after[model].provider)
            && Patched(input.mode, s.metadata[model].mode, after[model].mode)
            && PricesPatched(input, s.metadata[model].prices, after[model].prices)
            && LimitsPatched(input, s.metadata[model].limits, after[model].limits)
            && after[model].raw == s.metadata[model].raw
            && (input.currency.None? ==> after[model].currency == s.metadata[model].currency))
      && (model !in s.metadata ==>
            && Patched(input.provider, None, after[model].provider)
            && Patched(input.mode, None, after[model].mode)
            && PricesPatched(input, Prices(None, None, None, None, None), after[model].prices)
            && LimitsPatched(input, TokenLimits(None, None, None), after[model].limits)
            && after[model].raw == "{}"
            && (input.currency.None? ==> after[model].currency == "CNY"))
      && (forall m :: m != model ==> (m in after <==> m in s.metadata))
      && (forall m :: m != model && m in after ==> after[m] == s.metadata[m])
  {
  }

  // ---------------------------------------------------------------------------
  // Prices by usage class
  // ---------------------------------------------------------------------------

  ghost predicate Quotes(p: Prices, usageClass: string, price: string) {
    || (usageClass == "input_uncached" && p.input == Some(price))
    || (usageClass == "output" && p.output == Some(price))
    || (usageClass == "cache_read" && p.cacheRead == Some(price))
    || (usageClass == "cache_write_5m" && p.cacheWrite == Some(price))
    || (usageClass == "reasoning_output" && p.reasoning == Some(price))
  }

  /** The priced classes are the five above, each with the price of its field. */
  lemma PricedIff(p: Prices, usageClass: string, price: string)
    ensures (usageClass, price) in Priced(p) <==> Quotes(p, usageClass, price)
  {
    var pair := (usageClass, price);
    var a, b, c := One("input_uncached", p.input), One("output", p.output), One("cache_read", p.cacheRead);
    var d, e := One("cache_write_5m", p.cacheWrite), One("reasoning_output", p.reasoning);
    assert pair in a + b <==> pair in a || pair in b;
    assert pair in a + b + c <==> pair in a + b || pair in c;
    assert pair in a + b + c + d <==> pair in a + b + c || pair in d;
    assert pair in a + b + c + d + e <==> pair in a + b + c + d || pair in e;
    OneHas("input_uncached", p.input, pair);
    OneHas("output", p.output, pair);
    OneHas("cache_read", p.cacheRead, pair);
    OneHas("cache_write_5m", p.cacheWrite, pair);
    OneHas("reasoning_output", p.reasoning, pair);
  }

  lemma OneHas(usageClass: string, price: Option<string>, pair: (string, string))
    ensures pair in One(usageClass, price) <==> pair.0 == usageClass && price == Some(pair.1)
  {
  }

  /** A class has one price. */
  lemma OnePrice(p: Prices, usageClass: string, a: string, b: string)
    requires Quotes(p, usageClass, a) && Quotes(p, usageClass, b)
    ensures a == b
  {
  }

  // ---------------------------------------------------------------------------
  // Mirrored rates
  // ---------------------------------------------------------------------------

  /** The ids a pattern query takes for mirrored ones: `model_metadata:` with any sixth character, and
      any letter case where the database folds it. */
  lemma LikeMirrorIff(id: string, foldCase: bool)
    ensures LikeMirror(id, foldCase) <==>
              && |id| >= 15
              && forall i :: 0 <= i < 15 && i != 5 ==>
                   || id[i] == "model_metadata:"[i]
                   || (foldCase && 'A' <= id[i] <= 'Z' && id[i] as int + 32 == "model_metadata:"[i] as int)
  {
    assert MIRROR == "model_metadata:" && |MIRROR| == 15 && MIRROR[5] == '_';
    assert forall i :: 0 <= i < 15 && i != 5 ==> MIRROR[i] != '_' && !('A' <= MIRROR[i] <= 'Z');
    assert forall i, c: char :: 0 <= i < 15 && i != 5 ==>
        (SameLetter(MIRROR[i], c, foldCase) <==>
           MIRROR[i] == c || (foldCase && 'A' <= c <= 'Z' && c as int + 32 == MIRROR[i] as int));
  }

  function MirrorId(model: string, usageClass: string): string {
    "model_metadata:" + model + ":" + usageClass
  }

  lemma MirrorIdInjective(model: string, a: string, b: string)
    requires MirrorId(model, a) == MirrorId(model, b)
    ensures a == b
  {
    var p := "model_metadata:" + model + ":";
    assert MirrorId(model, a)[|p|..] == a && MirrorId(model, b)[|p|..] == b;
  }

  /** Rows written with plain kind and no tiers take those of the row they replace, if there is one. */
  lemma {:induction false} ColumnsKept(rates: Rates, writes: seq<Write>, keepKind: bool, id: string)
    requires forall w :: w in writes ==> w.row.kind == PLAIN && w.row.tiers == UNTIERED
    requires id in UpsertAll(rates, writes, keepKind)
    ensures UpsertAll(rates, writes, keepKind)[id].tiers == if id in rates then rates[id].tiers else UNTIERED
    ensures keepKind ==>
              UpsertAll(rates, writes, keepKind)[id].kind == if id in rates then rates[id].kind else PLAIN
  {
    if writes != [] {
      var n := |writes| - 1;
      assert writes[n] in writes;
      if id in UpsertAll(rates, writes[..n], keepKind) { ColumnsKept(rates, writes[..n], keepKind, id); }
      else { UpsertOnlyAdds(rates, writes[..n], keepKind, id); }
    }
  }

  lemma {:induction false} UpsertOnlyAdds(rates: Rates, writes: seq<Write>, keepKind: bool, id: string)
    ensures id in rates ==> id in UpsertAll(rates, writes, keepKind)
  {
    if writes != [] { UpsertOnlyAdds(rates, writes[..|writes| - 1], keepKind, id); }
  }

  /** The mirrored rate of a usage class with a price: its own id, and the record's data. */
  ghost predicate Mirrors(row: Row, model: string, record: Meta, usageClass: string, price: string) {
    && row.source == record.source && row.pattern == Some(model) && row.usageClass == usageClass
    && row.price == price && row.currency == record.currency && row.updatedAt == record.updatedAt
    && (record.provider.Some? ==> row.profile == record.provider.value)
    && (record.provider.None? ==> row.profile == "default")
    && row.raw == "{\"source\":\"model_metadata_records\"}"
  }

  lemma MirrorWritten(model: string, record: Meta, usageClass: string)
    ensures var writes := MirrorWrites(model, record, Priced(record.prices));
            Writes(writes, MirrorId(model, usageClass)) <==> exists price :: Quotes(record.prices, usageClass, price)
  {
    var priced := Priced(record.prices);
    var writes, id := MirrorWrites(model, record, priced), MirrorId(model, usageClass);
    if Writes(writes, id) {
      var i :| 0 <= i < |writes| && writes[i].id == id;
      MirrorIdInjective(model, priced[i].0, usageClass);
      assert priced[i] in priced;
      PricedIff(record.prices, priced[i].0, priced[i].1);
      assert Quotes(record.prices, usageClass, priced[i].1);
    }
    if price :| Quotes(record.prices, usageClass, price) {
      PricedIff(record.prices, usageClass, price);
      var i :| 0 <= i < |priced| && priced[i] == (usageClass, price);
      assert writes[i].id == id;
    }
  }

  lemma MirrorWroteRow(model: string, record: Meta, usageClass: string, price: string, row: Row)
    requires Quotes(record.prices, usageClass, price)
    requires WroteRow(MirrorWrites(model, record, Priced(record.prices)), MirrorId(model, usageClass), row)
    ensures Mirrors(row, model, record, usageClass, price)
  {
    var priced := Priced(record.prices);
    var writes := MirrorWrites(model, record, priced);
    var i :| 0 <= i < |writes| && writes[i].id == MirrorId(model, usageClass) && Agrees(row, writes[i]);
    MirrorIdInjective(model, priced[i].0, usageClass);
    assert priced[i] in priced;
    PricedIff(record.prices, priced[i].0, priced[i].1);
    OnePrice(record.prices, usageClass, price, priced[i].1);
  }

  /** After an upsert each priced class of the record has its rate under its own id, and a class without a
      price has none; a rate it replaces lends it kind and tiers, otherwise it is plain and untiered. */
  lemma MirroredRate(s: Store, model: string, input: MetaInput, now: string, foldCase: bool, usageClass: string)
    ensures
      var after := AfterUpsert(s, model, input, now, foldCase);
      var record, id := after.metadata[model], "model_metadata:" + model + ":" + usageClass;
      var replaced := id in s.rates && !IsMirror(s.rates, id, model, foldCase);
      && (id in after.rates && IsMirror(after.rates, id, model, foldCase) <==>
            exists price :: Quotes(record.prices, usageClass, price))
      && (forall price :: Quotes(record.prices, usageClass, price) ==>
            && id in after.rates && Mirrors(after.rates[id], model, record, usageClass, price)
            && (replaced ==>
                  after.rates[id].kind == s.rates[id].kind && after.rates[id].tiers == s.rates[id].tiers)
            && (!replaced ==>
                  && after.rates[id].kind == Kind(None, "token", "token", "{}", 0, true)
                  && after.rates[id].tiers == Tiers(None, None, None, None)))
  {
    var after := AfterUpsert(s, model, input, now, foldCase);
    var record, id := after.metadata[model], MirrorId(model, usageClass);
    var writes := MirrorWrites(model, record, Priced(record.prices));
    MirrorIsExact(s, model, input, now, foldCase, id);
    MirrorWritten(model, record, usageClass);
    forall price | Quotes(record.prices, usageClass, price)
      ensures id in after.rates && Mirrors(after.rates[id], model, record, usageClass, price)
    {
      MirrorWroteRow(model, record, usageClass, price, after.rates[id]);
    }
    if id in after.rates { ColumnsKept(WithoutMirror(s.rates, model, foldCase), writes, true, id); }
  }

  /** Nothing else is mirrored. */
  lemma OnlyMirrored(s: Store, model: string, input: MetaInput, now: string, foldCase: bool, id: string)
    ensures var after := AfterUpsert(s, model, input, now, foldCase);
            id in after.rates && IsMirror(after.rates, id, model, foldCase) ==>
              exists usageClass, price ::
                && id == MirrorId(model, usageClass)
                && Quotes(after.metadata[model].prices, usageClass, price)
  {
    var after := AfterUpsert(s, model, input, now, foldCase);
    MirrorIsExact(s, model, input, now, foldCase, id);
    var priced := Priced(after.metadata[model].prices);
    var writes := MirrorWrites(model, after.metadata[model], priced);
    if Writes(writes, id) {
      var i :| 0 <= i < |writes| && writes[i].id == id;
      assert priced[i] in priced;
      PricedIff(after.metadata[model].prices, priced[i].0, priced[i].1);
      assert id == MirrorId(model, priced[i].0);
    }
  }

  // ---------------------------------------------------------------------------
  // The models.dev feed
  // ---------------------------------------------------------------------------

  /** The rates a variant of the feed gives: one for each priced class, in dollars, under the provider. */
  lemma FeedPricesIff(v: Winner, w: Write, now: string)
    ensures FeedPrices(v, w, now) <==>
              && Quotes(v.prices, w.row.usageClass, w.row.price)
              && w.id == "models_dev:" + v.provider + ":" + v.model + ":" + w.row.usageClass
              && w.row.source == "models_dev" && w.row.profile == v.provider && w.row.pattern == Some(v.model)
              && w.row.currency == "USD" && w.row.updatedAt == now
              && w.row.kind == Kind(None, "token", "token", "{}", 0, true)
              && w.row.tiers == Tiers(None, None, None, None)
              && w.row.raw == v.origin
  {
    var priced := Priced(v.prices);
    var writes := SyncWrites(v, priced, now);
    if FeedPrices(v, w, now) {
      var i :| 0 <= i < |writes| && writes[i] == w;
      assert priced[i] in priced;
      PricedIff(v.prices, priced[i].0, priced[i].1);
    }
    PricedIff(v.prices, w.row.usageClass, w.row.price);
    if (w.row.usageClass, w.row.price) in priced {
      var i :| 0 <= i < |priced| && priced[i] == (w.row.usageClass, w.row.price);
      assert writes[i] in writes;
    }
  }

  /** Tier columns of a synchronised rate: those of the row of another source it replaces, or none. */
  lemma FeedKeepsTiers(s: Store, winners: seq<Winner>, now: string, id: string)
    requires id in AfterModelsDev(s, winners, now).rates
    ensures AfterModelsDev(s, winners, now).rates[id].tiers ==
              if id in s.rates && s.rates[id].source != "models_dev" then s.rates[id].tiers
              else Tiers(None, None, None, None)
  {
    var writes := SyncedRates(OnlyManual(s.metadata), winners, now);
    forall w | w in writes
      ensures w.row.kind == PLAIN && w.row.tiers == UNTIERED
    {
      FeedWrites(OnlyManual(s.metadata), winners, w, now);
      var i :| 0 <= i < |winners| && FeedPrices(winners[i], w, now);
      FeedPricesIff(winners[i], w, now);
    }
    ColumnsKept(WithoutSource(s.rates, MODELS_DEV), writes, false, id);
  }

  /** The record of a model after a sync: a manual one stays; otherwise it is that of a variant the feed
      has for the model, one of whose variants has a positive input price; with none it is gone. */
  lemma SyncedRecord(s: Store, winners: seq<Winner>, now: string, model: string)
    ensures
      var after := AfterModelsDev(s, winners, now).metadata;
      var manual := model in s.metadata && s.metadata[model].source == "manual";
      && (manual ==> model in after && after[model] == s.metadata[model])
      && (!manual ==> (model in after <==>
            exists i :: 0 <= i < |winners| && winners[i].model == model && winners[i].positiveInput))
      && (!manual && model in after ==>
            exists i ::
              && 0 <= i < |winners| && winners[i].model == model && winners[i].positiveInput
              && after[model] == Meta(Some(winners[i].provider), Some(winners[i].mode), winners[i].prices,
                                      winners[i].limits, winners[i].raw, "USD", "models_dev", now))
  {
    MetadataIsExact(s, winners, now, model);
  }

  // ---------------------------------------------------------------------------
  // When a catalog sync commits
  // ---------------------------------------------------------------------------

  /** The row of the catalog is not shadowed by a manual one. */
  predicate Listed(rates: Rates, w: Write) { !(w.id in rates && rates[w.id].source == "manual") }

  /** Of the unshadowed rows no id is taken and none comes twice. */
  ghost predicate Insertable(rates: Rates, base: Rates, catalog: seq<Write>) {
    && (forall i :: 0 <= i < |catalog| && Listed(rates, catalog[i]) ==> catalog[i].id !in base)
    && (forall i, j :: 0 <= i < j < |catalog| && Listed(rates, catalog[i]) ==> catalog[i].id != catalog[j].id)
  }

  lemma InsertableSplit(rates: Rates, base: Rates, catalog: seq<Write>)
    requires catalog != []
    ensures var n := |catalog| - 1;
            Insertable(rates, base, catalog) <==>
              && Insertable(rates, base, catalog[..n])
              && (Listed(rates, catalog[n]) ==> catalog[n].id !in base && !Writes(catalog[..n], catalog[n].id))
  {
    var n := |catalog| - 1;
    var before, w := catalog[..n], catalog[n];
    assert forall i :: 0 <= i < n ==> before[i] == catalog[i];
    if Insertable(rates, base, catalog) && Listed(rates, w) {
      forall i | 0 <= i < |before| ensures before[i].id != w.id { assert catalog[i].id != catalog[n].id; }
    }
    if Insertable(rates, base, before) && (Listed(rates, w) ==> w.id !in base && !Writes(before, w.id)) {
      forall i, j | 0 <= i < j < |catalog| && Listed(rates, catalog[i]) ensures catalog[i].id != catalog[j].id {
        assert catalog[i] == before[i];
        if j < n { assert before[i].id != before[j].id; }
      }
    }
  }

  lemma InsertNext(rates: Rates, base: Rates, catalog: seq<Write>)
    requires catalog != []
    ensures var before, w := catalog[..|catalog| - 1], catalog[|catalog| - 1];
            InsertAll(base, NotManual(rates, catalog)).Some? <==>
              && InsertAll(base, NotManual(rates, before)).Some?
              && (Listed(rates, w) ==> w.id !in base && !Writes(before, w.id))
  {
    var before, w := catalog[..|catalog| - 1], catalog[|catalog| - 1];
    var writes, rest := NotManual(rates, catalog), NotManual(rates, before);
    if InsertAll(base, rest).Some? {
      InsertedRows(base, rest, w.id);
      WritesAreCatalog(rates, before, w.id);
    }
    if Listed(rates, w) { assert writes[..|writes| - 1] == rest; }
  }

  /** Plain inserts of the unshadowed rows go through exactly when they can. */
  lemma {:induction false} InsertsIff(rates: Rates, base: Rates, catalog: seq<Write>)
    ensures InsertAll(base, NotManual(rates, catalog)).Some? <==> Insertable(rates, base, catalog)
  {
    if catalog != [] {
      InsertsIff(rates, base, catalog[..|catalog| - 1]);
      InsertNext(rates, base, catalog);
      InsertableSplit(rates, base, catalog);
    }
  }

  /** A catalog sync commits exactly when no two rows it would write share an id and none of their ids
      belongs to a row of another source. */
  lemma CatalogCommitsIff(s: Store, catalog: seq<Write>)
    ensures InsertAll(WithoutSource(s.rates, CATALOG), NotManual(s.rates, catalog)).Some? <==>
              && (forall i :: 0 <= i < |catalog| && catalog[i].id in s.rates ==>
                    s.rates[catalog[i].id].source in {"manual", "catalog"})
              && (forall i, j :: 0 <= i < j < |catalog| && Listed(s.rates, catalog[i]) ==>
                    catalog[i].id != catalog[j].id)
  {
    InsertsIff(s.rates, WithoutSource(s.rates, CATALOG), catalog);
  }
}
