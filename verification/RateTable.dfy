/** The billing-rate and model-metadata tables, and what each maintenance operation makes of them. */
module RateTable {
  import opened Common

  datatype Kind = Kind(
    providerType: Option<string>, rateKind: string, unit: string, matchJson: string, priority: int, enabled: bool)

  datatype Tiers = Tiers(
    context: Option<string>, service: Option<string>, modality: Option<string>, cacheTtl: Option<string>)

  /** A rate; the primary key is the table's map key. */
  datatype Row = Row(
    source: string, profile: string, pattern: Option<string>, usageClass: string, price: string,
    currency: string, kind: Kind, tiers: Tiers, raw: string, updatedAt: string)

  type Rates = map<string, Row>

  datatype Write = Write(id: string, row: Row)

  datatype Prices = Prices(
    input: Option<string>, output: Option<string>, cacheRead: Option<string>,
    cacheWrite: Option<string>, reasoning: Option<string>)

  datatype TokenLimits = TokenLimits(input: Option<int>, output: Option<int>, total: Option<int>)

  datatype Meta = Meta(
    provider: Option<string>, mode: Option<string>, prices: Prices, limits: TokenLimits, raw: string,
    currency: string, source: string, updatedAt: string)

  /** A field of an update: left out, or given, possibly as null. */
  datatype Patch<T> = Omitted | Given(value: Option<T>)

  datatype MetaInput = MetaInput(
    provider: Patch<string>, mode: Patch<string>, input: Patch<string>, output: Patch<string>,
    cacheRead: Patch<string>, cacheWrite: Patch<string>, reasoning: Patch<string>, maxInput: Patch<int>,
    maxOutput: Patch<int>, maxTotal: Patch<int>, currency: Option<string>)

  /** The variant chosen for a model of the models.dev feed; `positiveInput` if any variant of the model
      has a positive input price, `origin` the JSON text that names feed and provider. */
  datatype Winner = Winner(
    model: string, provider: string, mode: string, prices: Prices, limits: TokenLimits, raw: string,
    positiveInput: bool, origin: string)

  datatype Store = Store(rates: Rates, metadata: map<string, Meta>)

  const MANUAL := "manual"
  const CATALOG := "catalog"
  const MODELS_DEV := "models_dev"
  const PLAIN := Kind(None, "token", "token", "{}", 0, true)
  const UNTIERED := Tiers(None, None, None, None)

  // ---------------------------------------------------------------------------
  // Statements
  // ---------------------------------------------------------------------------

  function WithoutSource(rates: Rates, source: string): Rates {
    map k | k in rates && rates[k].source != source :: rates[k]
  }

  /** Plain inserts: any id already present fails the transaction. */
  function InsertAll(rates: Rates, writes: seq<Write>): Option<Rates> {
    if writes == [] then Some(rates) else
      var before := InsertAll(rates, writes[..|writes| - 1]);
      var w := writes[|writes| - 1];
      if before.None? || w.id in before.value then None else Some(before.value[w.id := w.row])
  }

  /** An insert that overwrites on conflict, except the columns its update list leaves out: the tiers
      always, and for mirrored rates the kind columns too. */
  function Upsert(rates: Rates, w: Write, keepKind: bool): Rates {
    if w.id !in rates then rates[w.id := w.row]
    else
      var row := w.row.(tiers := rates[w.id].tiers);
      rates[w.id := if keepKind then row.(kind := rates[w.id].kind) else row]
  }

  function UpsertAll(rates: Rates, writes: seq<Write>, keepKind: bool): Rates {
    if writes == [] then rates
    else Upsert(UpsertAll(rates, writes[..|writes| - 1], keepKind), writes[|writes| - 1], keepKind)
  }

  function Priced(p: Prices): seq<(string, string)> {
    One("input_uncached", p.input) + One("output", p.output) + One("cache_read", p.cacheRead)
    + One("cache_write_5m", p.cacheWrite) + One("reasoning_output", p.reasoning)
  }

  function One(usageClass: string, price: Option<string>): seq<(string, string)> {
    if price.None? then [] else [(usageClass, price.value)]
  }

  // ---------------------------------------------------------------------------
  // Catalog synchronisation
  // ---------------------------------------------------------------------------

  function NotManual(rates: Rates, catalog: seq<Write>): seq<Write> {
    if catalog == [] then [] else
      var rest := NotManual(rates, catalog[..|catalog| - 1]);
      var w := catalog[|catalog| - 1];
      if w.id in rates && rates[w.id].source == MANUAL then rest else rest + [w.(row := w.row.(source := CATALOG))]
  }

  function AfterCatalog(s: Store, catalog: seq<Write>): Store {
    var inserted := InsertAll(WithoutSource(s.rates, CATALOG), NotManual(s.rates, catalog));
    if inserted.None? then s else s.(rates := inserted.value)
  }

  // ---------------------------------------------------------------------------
  // Model metadata and its mirrored rates
  // ---------------------------------------------------------------------------

  const MIRROR := "model_metadata:"

  predicate SameLetter(a: char, b: char, foldCase: bool) {
    a == b || (foldCase && Fold(a) == Fold(b))
  }

  function Fold(c: char): char { if 'A' <= c <= 'Z' then (c as int + 32) as char else c }

  /** The SQL pattern `model_metadata:%`, where the underscore stands for any character; SQLite
      compares letters without case, PostgreSQL with. */
  predicate LikeMirror(id: string, foldCase: bool) {
    |id| >= |MIRROR| && forall i :: 0 <= i < |MIRROR| ==> MIRROR[i] == '_' || SameLetter(MIRROR[i], id[i], foldCase)
  }

  function WithoutMirror(rates: Rates, model: string, foldCase: bool): Rates {
    map k | k in rates && !(rates[k].pattern == Some(model) && LikeMirror(k, foldCase)) :: rates[k]
  }

  function MirrorWrite(model: string, meta: Meta, usageClass: string, price: string): Write {
    Write(MIRROR + model + ":" + usageClass,
          Row(meta.source, if meta.provider.None? then "default" else meta.provider.value, Some(model), usageClass,
              price, meta.currency, PLAIN, UNTIERED, "{\"source\":\"model_metadata_records\"}", meta.updatedAt))
  }

  function MirrorWrites(model: string, meta: Meta, priced: seq<(string, string)>): seq<Write> {
    seq(|priced|, i requires 0 <= i < |priced| => MirrorWrite(model, meta, priced[i].0, priced[i].1))
  }

  function Merge<T>(update: Patch<T>, existing: Option<T>): Option<T> {
    if update.Given? then update.value else existing
  }

  const NEW_RECORD :=
    Meta(None, None, Prices(None, None, None, None, None), TokenLimits(None, None, None), "{}", "CNY", "", "")

  /** Omitted fields keep the stored value, the raw data always does, and the record becomes manual. */
  function Merged(input: MetaInput, existing: Option<Meta>, now: string): Meta {
    var stored := if existing.Some? then existing.value else NEW_RECORD;
    Meta(
      Merge(input.provider, stored.provider), Merge(input.mode, stored.mode),
      Prices(Merge(input.input, stored.prices.input), Merge(input.output, stored.prices.output),
             Merge(input.cacheRead, stored.prices.cacheRead), Merge(input.cacheWrite, stored.prices.cacheWrite),
             Merge(input.reasoning, stored.prices.reasoning)),
      TokenLimits(Merge(input.maxInput, stored.limits.input), Merge(input.maxOutput, stored.limits.output),
                  Merge(input.maxTotal, stored.limits.total)),
      stored.raw,
      if input.currency.Some? then input.currency.value else stored.currency, MANUAL, now)
  }

  function AfterUpsert(s: Store, model: string, input: MetaInput, now: string, foldCase: bool): Store {
    var meta := Merged(input, if model in s.metadata then Some(s.metadata[model]) else None, now);
    Store(
      UpsertAll(WithoutMirror(s.rates, model, foldCase), MirrorWrites(model, meta, Priced(meta.prices)), true),
      s.metadata[model := meta])
  }

  function AfterDelete(s: Store, model: string, foldCase: bool): Store {
    if model !in s.metadata then s
    else Store(WithoutMirror(s.rates, model, foldCase), s.metadata - {model})
  }

  // ---------------------------------------------------------------------------
  // Synchronisation with models.dev
  // ---------------------------------------------------------------------------

  function OnlyManual(metadata: map<string, Meta>): map<string, Meta> {
    map m | m in metadata && metadata[m].source == MANUAL :: metadata[m]
  }

  predicate Synced(kept: map<string, Meta>, w: Winner) { w.positiveInput && w.model !in kept }

  function SyncWrite(w: Winner, usageClass: string, price: string, now: string): Write {
    Write("models_dev:" + w.provider + ":" + w.model + ":" + usageClass,
          Row(MODELS_DEV, w.provider, Some(w.model), usageClass, price, "USD", PLAIN, UNTIERED, w.origin, now))
  }

  function SyncWrites(w: Winner, priced: seq<(string, string)>, now: string): seq<Write> {
    seq(|priced|, i requires 0 <= i < |priced| => SyncWrite(w, priced[i].0, priced[i].1, now))
  }

  function SyncedRates(kept: map<string, Meta>, winners: seq<Winner>, now: string): seq<Write> {
    if winners == [] then [] else
      var w := winners[|winners| - 1];
      SyncedRates(kept, winners[..|winners| - 1], now)
      + (if Synced(kept, w) then SyncWrites(w, Priced(w.prices), now) else [])
  }

  function RecordOf(w: Winner, now: string): Meta {
    Meta(Some(w.provider), Some(w.mode), w.prices, w.limits, w.raw, "USD", MODELS_DEV, now)
  }

  function SyncedMetadata(kept: map<string, Meta>, winners: seq<Winner>, now: string): map<string, Meta> {
    if winners == [] then kept else
      var w := winners[|winners| - 1];
      var before := SyncedMetadata(kept, winners[..|winners| - 1], now);
      if Synced(kept, w) then before[w.model := RecordOf(w, now)] else before
  }

  function AfterModelsDev(s: Store, winners: seq<Winner>, now: string): Store {
    var kept := OnlyManual(s.metadata);
    Store(UpsertAll(WithoutSource(s.rates, MODELS_DEV), SyncedRates(kept, winners, now), false),
          SyncedMetadata(kept, winners, now))
  }
}
