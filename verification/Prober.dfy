/** The active health prober: when an unhealthy key is probed again, and when it recovers. */
module Prober {
  import opened Common
  import opened Orders
  import TextOrder

  const U32_MAX := 0xFFFF_FFFF

  datatype Health = Health(
    healthy: bool, lastSuccess: Option<int>, cooldownUntil: Option<int>, successes: nat, lastProbe: Option<int>)

  /** The effective settings of a channel. */
  datatype Settings = Settings(interval: nat, threshold: nat, cooldown: nat)

  datatype Channel = Channel(
    id: string, perModel: bool, models: set<string>, configured: Option<string>, settings: Settings)

  /** What became of a probe: no result recorded, or a result. */
  datatype Reply = Dropped | Answered(ok: bool)

  /** One recorded result, at the time its pass began. */
  datatype Result = Result(time: int, ok: bool)

  function HealthKey(channel: string, model: Option<string>): string {
    if model.Some? then channel + "::" + model.value else channel
  }

  /** Within one channel the models have different keys, none of them the channel's own. */
  lemma HealthKeysDiffer(channel: string, a: string, b: string)
    ensures HealthKey(channel, Some(a)) == HealthKey(channel, Some(b)) ==> a == b
    ensures HealthKey(channel, Some(a)) == channel + "::" + a && HealthKey(channel, None) == channel
    ensures HealthKey(channel, Some(a)) != HealthKey(channel, None)
  {
    var p := channel + "::";
    assert HealthKey(channel, Some(a))[|p|..] == a && HealthKey(channel, Some(b))[|p|..] == b;
    assert |HealthKey(channel, Some(a))| > |channel|;
  }

  /** Across channels they need not: a separator in a name can make two of them share a key. */
  lemma HealthKeysCollide()
    ensures HealthKey("a", Some("b::c")) == HealthKey("a::b", Some("c"))
    ensures HealthKey("a", Some("b")) == HealthKey("a::b", None)
  {
    assert "a" + "::" + "b::c" == "a::b" + "::" + "c" && "a" + "::" + "b" == "a::b";
  }

  predicate Due(h: Health, interval: nat, now: int) {
    && !h.healthy
    && (h.cooldownUntil.None? || now >= h.cooldownUntil.value)
    && (h.lastProbe.None? || now - h.lastProbe.value >= interval)
  }

  function Cleared(h: Health, now: int): Health {
    h.(healthy := true, cooldownUntil := None, lastSuccess := Some(now), successes := 0, lastProbe := None)
  }

  function Increment(n: nat): nat { if n >= U32_MAX then U32_MAX else n + 1 }

  function Recorded(h: Health, r: Result, s: Settings): Health {
    if r.ok then
      var counted := h.(lastProbe := Some(r.time), successes := Increment(h.successes));
      if counted.successes >= s.threshold then Cleared(counted, r.time) else counted
    else h.(healthy := false, successes := 0, lastProbe := Some(r.time), cooldownUntil := Some(r.time + s.cooldown))
  }

  // ---------------------------------------------------------------------------
  // The results of one key
  // ---------------------------------------------------------------------------

  function Replay(h: Health, log: seq<Result>, s: Settings): Health {
    if log == [] then h else Recorded(Replay(h, log[..|log| - 1], s), log[|log| - 1], s)
  }

  /** Every result was recorded while the key was due. */
  ghost predicate Lawful(h: Health, log: seq<Result>, s: Settings) {
    forall i :: 0 <= i < |log| ==> Due(Replay(h, log[..i], s), s.interval, log[i].time)
  }

  ghost predicate Sensible(s: Settings) { s.interval >= 1 && 1 <= s.threshold <= U32_MAX && s.cooldown >= 1 }

  lemma LawfulPrefix(h: Health, log: seq<Result>, s: Settings, n: nat)
    requires Lawful(h, log, s) && n <= |log|
    ensures Lawful(h, log[..n], s)
  {
    forall i | 0 <= i < n ensures Due(Replay(h, log[..n][..i], s), s.interval, log[..n][i].time) {
      assert log[..n][..i] == log[..i];
    }
  }

  lemma LawfulExtends(h: Health, log: seq<Result>, s: Settings, r: Result)
    requires Lawful(h, log, s) && Due(Replay(h, log, s), s.interval, r.time)
    ensures Lawful(h, log + [r], s) && Replay(h, log + [r], s) == Recorded(Replay(h, log, s), r, s)
  {
    var more := log + [r];
    assert more[..|log|] == log;
    forall i | 0 <= i < |more| ensures Due(Replay(h, more[..i], s), s.interval, more[i].time) {
      if i < |log| { assert more[..i] == log[..i]; }
    }
  }

  /** Results are at least one interval apart, and after a failure at least the cooldown apart,
      whatever the clock did in between. */
  lemma NextIsSpaced(h: Health, log: seq<Result>, s: Settings, i: nat)
    requires Sensible(s) && Lawful(h, log, s) && i + 1 < |log|
    ensures log[i + 1].time - log[i].time >= s.interval
    ensures !log[i].ok ==> log[i + 1].time - log[i].time >= s.cooldown
  {
    assert log[..i + 1][..i] == log[..i];
    var after := Replay(h, log[..i + 1], s);
    assert after == Recorded(Replay(h, log[..i], s), log[i], s);
    assert Due(after, s.interval, log[i + 1].time);
  }

  /** After a result an unhealthy key is due again exactly when the interval, and after a failure the
      cooldown too, has passed since that result. */
  lemma DueIff(h: Health, log: seq<Result>, s: Settings, now: int)
    requires Sensible(s) && Lawful(h, log, s) && log != []
    ensures var last := log[|log| - 1];
            Due(Replay(h, log, s), s.interval, now) <==>
              && !Replay(h, log, s).healthy && now - last.time >= s.interval
              && (!last.ok ==> now - last.time >= s.cooldown)
  {
    var n := |log| - 1;
    assert Due(Replay(h, log[..n], s), s.interval, log[n].time);
  }

  /** A key that recovered has a clean slate: no cooldown, no count, no last probe, and the time of its
      last success. */
  lemma RecoveredIsClean(h: Health, log: seq<Result>, s: Settings)
    requires !h.healthy && Lawful(h, log, s) && Replay(h, log, s).healthy
    ensures log != [] && log[|log| - 1].ok
    ensures Replay(h, log, s) == Health(true, Some(log[|log| - 1].time), None, 0, None)
  {
    var n := |log| - 1;
    assert log != [];
    assert Due(Replay(h, log[..n], s), s.interval, log[n].time);
  }

  lemma OneMore(n: int, d: nat)
    ensures (n + 1) * d == n * d + d && 0 * d == 0
  {
  }

  lemma {:induction false} ResultsAreSpaced(h: Health, log: seq<Result>, s: Settings, i: nat, j: nat)
    requires Sensible(s) && Lawful(h, log, s) && i < j < |log|
    ensures log[j].time - log[i].time >= (j - i) * s.interval
    ensures !log[i].ok ==> log[j].time - log[i].time >= s.cooldown + (j - i - 1) * s.interval
    decreases j
  {
    NextIsSpaced(h, log, s, j - 1);
    if i < j - 1 {
      ResultsAreSpaced(h, log, s, i, j - 1);
      OneMore(j - 1 - i, s.interval);
      OneMore(j - 2 - i, s.interval);
    } else {
      OneMore(0, s.interval);
    }
  }

  /** Successes since the last failure. */
  function Trailing(log: seq<Result>): nat {
    if log == [] || !log[|log| - 1].ok then 0 else 1 + Trailing(log[..|log| - 1])
  }

  /** Successes counted before the log began, unless a failure has wiped them out. */
  function Carried(h: Health, log: seq<Result>): nat {
    if exists i :: 0 <= i < |log| && !log[i].ok then 0 else h.successes
  }

  /** A key recovers exactly when its successes since the last failure reach the threshold; until then
      its counter is their number. */
  lemma {:induction false} RecoversAtThreshold(h: Health, log: seq<Result>, s: Settings)
    requires Sensible(s) && !h.healthy && Lawful(h, log, s)
    ensures Replay(h, log, s).healthy <==> Trailing(log) > 0 && Trailing(log) + Carried(h, log) >= s.threshold
    ensures !Replay(h, log, s).healthy ==> Replay(h, log, s).successes == Trailing(log) + Carried(h, log)
  {
    if log != [] {
      var n := |log| - 1;
      var before := log[..n];
      LawfulPrefix(h, log, s, n);
      RecoversAtThreshold(h, before, s);
      assert Due(Replay(h, before, s), s.interval, log[n].time);
      CarriedNext(h, log);
    }
  }

  lemma CarriedNext(h: Health, log: seq<Result>)
    requires log != []
    ensures log[|log| - 1].ok ==> Carried(h, log) == Carried(h, log[..|log| - 1])
    ensures !log[|log| - 1].ok ==> Carried(h, log) == 0
  {
    var before := log[..|log| - 1];
    assert forall i :: 0 <= i < |before| ==> before[i] == log[i];
    if i :| 0 <= i < |before| && !before[i].ok { assert !log[i].ok; }
    if i :| 0 <= i < |log| && !log[i].ok && i < |before| { assert !before[i].ok; }
  }

  /** A healthy key is never probed: nothing follows a recovery. */
  lemma RecoveryIsLast(h: Health, log: seq<Result>, s: Settings, n: nat)
    requires Lawful(h, log, s) && n < |log|
    ensures !Replay(h, log[..n], s).healthy
  {
    assert Due(Replay(h, log[..n], s), s.interval, log[n].time);
  }

  /** With no successes counted at the start, a recovery shows exactly the threshold number of
      successes at the end of the log, with no failure between. */
  lemma {:induction false} RecoveryTakesThreshold(h: Health, log: seq<Result>, s: Settings)
    requires Sensible(s) && !h.healthy && h.successes == 0 && Lawful(h, log, s) && Replay(h, log, s).healthy
    ensures s.threshold <= |log| && Trailing(log) == s.threshold
    ensures forall i :: |log| - s.threshold <= i < |log| ==> log[i].ok
  {
    RecoversAtThreshold(h, log, s);
    assert log != [];
    var n := |log| - 1;
    LawfulPrefix(h, log, s, n);
    RecoversAtThreshold(h, log[..n], s);
    RecoveryIsLast(h, log, s, n);
    CarriedNext(h, log);
    TrailingAreSuccesses(log);
  }

  lemma {:induction false} TrailingAreSuccesses(log: seq<Result>)
    ensures Trailing(log) <= |log| && forall i :: |log| - Trailing(log) <= i < |log| ==> log[i].ok
  {
    if log != [] && log[|log| - 1].ok {
      var before := log[..|log| - 1];
      TrailingAreSuccesses(before);
      forall i | |log| - Trailing(log) <= i < |log| ensures log[i].ok {
        if i < |before| { assert before[i].ok; }
      }
    }
  }

  // ---------------------------------------------------------------------------
  // Choosing what to probe
  // ---------------------------------------------------------------------------

  ghost predicate DueKey(health: map<string, Health>, key: string, interval: nat, now: int) {
    key in health && Due(health[key], interval, now)
  }

  ghost predicate DueModel(health: map<string, Health>, c: Channel, m: string, now: int) {
    m in c.models && DueKey(health, HealthKey(c.id, Some(m)), c.settings.interval, now)
  }

  /** Per model: the configured model if it is due, else the least due model.  Per channel: if the
      channel is due, the configured model, else the least of its models. */
  method SelectModel(health: map<string, Health>, c: Channel, now: int) returns (r: Option<string>)
    ensures c.perModel ==> (r.Some? <==> exists m :: DueModel(health, c, m, now))
    ensures c.perModel && r.Some? ==> DueModel(health, c, r.value, now)
    ensures c.perModel && r.Some? && r != c.configured ==>
      && (c.configured.Some? ==> !DueModel(health, c, c.configured.value, now))
      && forall m :: DueModel(health, c, m, now) && m != r.value ==> TextOrder.Less(r.value, m)
    ensures !c.perModel ==>
      (r.Some? <==> DueKey(health, c.id, c.settings.interval, now) && (c.configured.Some? || c.models != {}))
    ensures !c.perModel && r.Some? && c.configured.Some? ==> r == c.configured
    ensures !c.perModel && r.Some? && c.configured.None? ==>
      r.value in c.models && forall m :: m in c.models && m != r.value ==> TextOrder.Less(r.value, m)
  {
    if c.perModel {
      var due := set m | m in c.models && HealthKey(c.id, Some(m)) in health
                         && Due(health[HealthKey(c.id, Some(m))], c.settings.interval, now);
      assert forall m :: m in due <==> DueModel(health, c, m, now);
      if c.configured.Some? && c.configured.value in due { return c.configured; }
      if due == {} { return None; }
      TextOrder.LessIsOrder(due);
      var least := Least(TextOrder.Less, due);
      return Some(least);
    }
    if c.id !in health || !Due(health[c.id], c.settings.interval, now) { return None; }
    if c.configured.Some? { return c.configured; }
    if c.models == {} { return None; }
    TextOrder.LessIsOrder(c.models);
    var least := Least(TextOrder.Less, c.models);
    r := Some(least);
  }

  // ---------------------------------------------------------------------------
  // The prober over whole runs
  // ---------------------------------------------------------------------------

  function KeysOf(c: Channel): set<string> {
    if c.perModel then set m | m in c.models :: HealthKey(c.id, Some(m)) else {c.id}
  }

  /** Settings stay fixed and every health key has one set of them. */
  ghost predicate Governs(settings: map<string, Settings>, channels: seq<Channel>) {
    forall i, k :: 0 <= i < |channels| && k in KeysOf(channels[i]) ==>
      k in settings && settings[k] == channels[i].settings
  }

  /** In channel mode: the channel serves the model it would be probed with. */
  ghost predicate Probeable(c: Channel) {
    if c.configured.Some? then c.configured.value in c.models else c.models != {}
  }

  /** Logs are only appended to, and only with results of time `now`. */
  ghost predicate GrowsAt(before: map<string, seq<Result>>, after: map<string, seq<Result>>, now: int) {
    && before.Keys == after.Keys
    && forall k :: k in before ==>
         before[k] <= after[k] && forall i :: |before[k]| <= i < |after[k]| ==> after[k][i].time == now
  }

  lemma GrowsOnce(first: map<string, seq<Result>>, before: map<string, seq<Result>>, after: map<string, seq<Result>>,
                  now: int)
    requires GrowsAt(first, before, now) && before.Keys == after.Keys
    requires forall k :: k in before && after[k] != before[k] ==> exists ok :: after[k] == before[k] + [Result(now, ok)]
    ensures GrowsAt(first, after, now)
  {
  }

  lemma GovernsOne(settings: map<string, Settings>, c: Channel, key: string)
    requires Governs(settings, [c]) && key in KeysOf(c)
    ensures key in settings && settings[key] == c.settings
  {
    assert [c][0] == c;
  }

  lemma OneLogGrew(before: map<string, seq<Result>>, after: map<string, seq<Result>>, key: string, x: Result)
    requires key in before && after == before[key := before[key] + [x]]
    ensures forall k :: k in before && k != key ==> after[k] == before[k]
    ensures exists k :: k in before && after[k] == before[k] + [x]
  {
    assert after[key] == before[key] + [x];
  }

  class HealthTable {
    var health: map<string, Health>
    ghost const settings: map<string, Settings>
    ghost const initial: map<string, Health>
    /** The results recorded for each key since the start. */
    ghost var log: map<string, seq<Result>>

    ghost predicate Valid()
      reads this
    {
      && health.Keys == initial.Keys == log.Keys
      && forall k :: k in health && k in settings ==>
           Lawful(initial[k], log[k], settings[k]) && health[k] == Replay(initial[k], log[k], settings[k])
    }

    constructor (health: map<string, Health>, ghost settings: map<string, Settings>)
      ensures Valid() && this.health == health && initial == health && this.settings == settings
      ensures forall k :: k in health ==> log[k] == []
    {
      this.health := health;
      this.settings := settings;
      this.initial := health;
      this.log := map k | k in health :: [];
    }

    /** One channel in a pass: nothing changes unless the chosen key was due and a result came back,
        and then that key alone gets that result. */
    method Visit(c: Channel, now: int, reply: Reply)
      requires Valid() && Governs(settings, [c])
      modifies this`health, this`log
      ensures Valid()
      ensures forall k :: k in old(health) && (k !in KeysOf(c) || reply.Dropped?) ==>
        health[k] == old(health[k]) && log[k] == old(log[k])
      ensures forall k :: k in old(health) && log[k] != old(log[k]) ==>
        && reply.Answered? && Due(old(health[k]), c.settings.interval, now)
        && log[k] == old(log[k]) + [Result(now, reply.ok)]
      ensures forall j, k ::
        j in old(health) && k in old(health) && log[j] != old(log[j]) && log[k] != old(log[k]) ==> j == k
      ensures !c.perModel && reply.Answered? && old(DueKey(health, c.id, c.settings.interval, now)) && Probeable(c) ==>
        log[c.id] == old(log[c.id]) + [Result(now, reply.ok)]
      ensures c.perModel && reply.Answered? && old(exists m :: DueModel(health, c, m, now)) ==>
        exists k :: k in old(health) && log[k] == old(log[k]) + [Result(now, reply.ok)]
    {
      var model := SelectModel(health, c, now);
      if model.None? || model.value !in c.models { return; }
      if reply.Dropped? { return; }
      var key := HealthKey(c.id, if c.perModel then model else None);
      assert key in KeysOf(c) && DueKey(health, key, c.settings.interval, now);
      GovernsOne(settings, c, key);
      ghost var before := log;
      RecordResult(key, Result(now, reply.ok), c.settings);
      OneLogGrew(before, log, key, Result(now, reply.ok));
    }

    /** One result of a key that was due. */
    method RecordResult(key: string, r: Result, s: Settings)
      requires Valid() && DueKey(health, key, s.interval, r.time) && key in settings && settings[key] == s
      modifies this`health, this`log
      ensures Valid() && health == old(health)[key := Recorded(old(health)[key], r, s)]
      ensures log == old(log)[key := old(log)[key] + [r]]
    {
      LawfulExtends(initial[key], log[key], settings[key], r);
      health := health[key := Recorded(health[key], r, s)];
      log := log[key := log[key] + [r]];
    }

    /** A pass visits each channel once, all at the time the pass began. */
    method Pass(channels: seq<Channel>, now: int, replies: seq<Reply>)
      requires Valid() && Governs(settings, channels) && |replies| == |channels|
      modifies this`health, this`log
      ensures Valid() && GrowsAt(old(log), log, now)
    {
      for i := 0 to |channels|
        invariant Valid() && GrowsAt(old(log), log, now)
      {
        assert Governs(settings, [channels[i]]);
        ghost var before := log;
        Visit(channels[i], now, replies[i]);
        GrowsOnce(old(log), before, log, now);
      }
    }
  }

  /** In every state any run of passes reaches: results of a key are spaced, and the key is healthy
      exactly when it started so or its successes since the last failure reached the threshold. */
  lemma ProberIsLawful(t: HealthTable, k: string)
    requires t.Valid() && k in t.health && k in t.settings && Sensible(t.settings[k])
    ensures forall i :: 0 <= i < |t.log[k]| - 1 ==>
      && t.log[k][i + 1].time - t.log[k][i].time >= t.settings[k].interval
      && (!t.log[k][i].ok ==> t.log[k][i + 1].time - t.log[k][i].time >= t.settings[k].cooldown)
    ensures !t.initial[k].healthy ==>
      (t.health[k].healthy <==>
         Trailing(t.log[k]) > 0 && Trailing(t.log[k]) + Carried(t.initial[k], t.log[k]) >= t.settings[k].threshold)
    ensures t.initial[k].healthy ==> t.log[k] == [] && t.health[k] == t.initial[k]
  {
    forall i | 0 <= i < |t.log[k]| - 1
      ensures t.log[k][i + 1].time - t.log[k][i].time >= t.settings[k].interval
      ensures !t.log[k][i].ok ==> t.log[k][i + 1].time - t.log[k][i].time >= t.settings[k].cooldown
    {
      NextIsSpaced(t.initial[k], t.log[k], t.settings[k], i);
    }
    if !t.initial[k].healthy {
      RecoversAtThreshold(t.initial[k], t.log[k], t.settings[k]);
    } else {
      assert t.log[k] == [] by {
        if t.log[k] != [] { RecoveryIsLast(t.initial[k], t.log[k], t.settings[k], 0); assert false; }
      }
    }
  }
}
