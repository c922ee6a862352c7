/** The public rate limiter: a token bucket per address in a bounded map.  Rationals stand for the
    floating-point token counts. */
module RateLimiter {

  type Address = nat
  type Instant = real

  const TOKEN_CAPACITY: real := 20.0
  const REFILL_PER_SECOND: real := 1.0
  const IDLE_AFTER: real := 120.0

  datatype Bucket = Bucket(tokens: real, lastRefill: Instant, lastSeen: Instant)

  type Buckets = map<Address, Bucket>

  function Min(a: real, b: real): real { if a <= b then a else b }

  function SaturatingSince(now: Instant, then_: Instant): real { if now >= then_ then now - then_ else 0.0 }

  function Refilled(b: Bucket, now: Instant): real {
    Min(b.tokens + SaturatingSince(now, b.lastRefill) * REFILL_PER_SECOND, TOKEN_CAPACITY)
  }

  /** One request against an existing bucket. */
  function Spend(b: Bucket, now: Instant): (bool, Bucket) {
    var tokens := Refilled(b, now);
    if tokens < 1.0 then (false, Bucket(tokens, now, now)) else (true, Bucket(tokens - 1.0, now, now))
  }

  function NewBucket(now: Instant): Bucket { Bucket(TOKEN_CAPACITY - 1.0, now, now) }

  predicate Idle(b: Bucket, now: Instant) { SaturatingSince(now, b.lastSeen) >= IDLE_AFTER }

  /** The outcomes of one request.  `Full` is the refusal of a new address when nothing is idle. */
  datatype Outcome = Admitted | Limited | Full

  /** Which results the bounded limiter may give: among equally old idle buckets any may go. */
  ghost predicate Step(s: Buckets, capacity: nat, ip: Address, now: Instant, r: Outcome, t: Buckets) {
    if ip in s then
      var (ok, b) := Spend(s[ip], now);
      r == (if ok then Admitted else Limited) && t == s[ip := b]
    else if |s| < capacity then r == Admitted && t == s[ip := NewBucket(now)]
    else if exists a :: a in s && Idle(s[a], now) then
      && r == Admitted
      && exists victim ::
           && victim in s && Idle(s[victim], now)
           && (forall a :: a in s && Idle(s[a], now) ==> s[victim].lastSeen <= s[a].lastSeen)
           && t == (s - {victim})[ip := NewBucket(now)]
    else r == Full && t == s
  }

  class PublicRateLimiter {
    var buckets: Buckets
    const capacity: nat

    constructor (capacity: nat)
      ensures buckets == map[] && this.capacity == capacity
    {
      buckets := map[];
      this.capacity := capacity;
    }

    method Admit(ip: Address, now: Instant) returns (admitted: bool, ghost r: Outcome)
      modifies this
      ensures Step(old(buckets), capacity, ip, now, r, buckets) && admitted == r.Admitted?
      ensures old(|buckets|) <= capacity ==> |buckets| <= capacity
      ensures r.Full? <==> ip !in old(buckets) && old(|buckets|) >= capacity
                           && forall a :: a in old(buckets) ==> now - old(buckets)[a].lastSeen < 120.0
      ensures ip !in old(buckets) && !r.Full? ==>
                admitted && ip in buckets && buckets[ip] == Bucket(19.0, now, now)
      ensures forall a :: a in old(buckets) && a !in buckets ==>
                && now - old(buckets)[a].lastSeen >= 120.0 && old(|buckets|) >= capacity
                && forall b :: b in old(buckets) && now - old(buckets)[b].lastSeen >= 120.0 ==>
                     old(buckets)[a].lastSeen <= old(buckets)[b].lastSeen
      ensures forall a :: a in old(buckets) && a in buckets && a != ip ==> buckets[a] == old(buckets)[a]
      ensures ip in buckets <==> !r.Full?
      ensures forall a :: a in buckets && a != ip ==> a in old(buckets)
    {
      if ip in buckets {
        var b := buckets[ip];
        var tokens := Min(b.tokens + SaturatingSince(now, b.lastRefill) * REFILL_PER_SECOND, TOKEN_CAPACITY);
        if tokens < 1.0 {
          buckets := buckets[ip := Bucket(tokens, now, now)];
          return false, Limited;
        }
        buckets := buckets[ip := Bucket(tokens - 1.0, now, now)];
        return true, Admitted;
      }
      if |buckets| >= capacity {
        var found, candidate := OldestIdle(now);
        if !found {
          return false, Full;
        }
        assert (buckets - {candidate}).Keys == buckets.Keys - {candidate};
        buckets := buckets - {candidate};
      }
      buckets := buckets[ip := NewBucket(now)];
      return true, Admitted;
    }

    method OldestIdle(now: Instant) returns (found: bool, victim: Address)
      ensures found <==> exists a :: a in buckets && Idle(buckets[a], now)
      ensures found ==> victim in buckets && Idle(buckets[victim], now)
      ensures found ==> forall a :: a in buckets && Idle(buckets[a], now) ==>
                          buckets[victim].lastSeen <= buckets[a].lastSeen
    {
      found, victim := false, 0;
      var left := buckets.Keys;
      while left != {}
        invariant left <= buckets.Keys
        invariant found ==> victim in buckets && Idle(buckets[victim], now)
        invariant forall a :: a in buckets && a !in left && Idle(buckets[a], now) ==>
                    found && buckets[victim].lastSeen <= buckets[a].lastSeen
        decreases left
      {
        var a :| a in left;
        left := left - {a};
        if Idle(buckets[a], now) && (!found || buckets[a].lastSeen < buckets[victim].lastSeen) {
          found, victim := true, a;
        }
      }
    }
  }

  // ---------------------------------------------------------------------------
  // The limiter that never forgets
  // ---------------------------------------------------------------------------

  function Unbounded(s: Buckets, ip: Address, now: Instant): (bool, Buckets) {
    if ip in s then var (ok, b) := Spend(s[ip], now); (ok, s[ip := b])
    else (true, s[ip := NewBucket(now)])
  }

  ghost predicate BucketOk(b: Bucket, clock: Instant) {
    0.0 <= b.tokens <= TOKEN_CAPACITY && b.lastRefill == b.lastSeen <= clock
  }

  /** The bounded map is part of the unbounded one, and what it dropped would be full again. */
  ghost predicate Simulates(s: Buckets, u: Buckets, clock: Instant) {
    && (forall a :: a in u ==> BucketOk(u[a], clock))
    && (forall a :: a in s ==> a in u && s[a] == u[a])
    && (forall a :: a in u && a !in s ==> clock - u[a].lastRefill >= IDLE_AFTER)
  }

  /** A bucket idle for two minutes has refilled: spending from it is starting afresh. */
  lemma IdleIsFull(b: Bucket, clock: Instant, now: Instant)
    requires BucketOk(b, clock) && clock <= now && now - b.lastRefill >= IDLE_AFTER
    ensures Spend(b, now) == (true, NewBucket(now))
  {
  }

  lemma PutSimulates(s: Buckets, u: Buckets, clock: Instant, ip: Address, b: Bucket, now: Instant)
    requires Simulates(s, u, clock) && clock <= now && BucketOk(b, now)
    ensures Simulates(s[ip := b], u[ip := b], now)
  {
  }

  lemma EvictSimulates(s: Buckets, u: Buckets, clock: Instant, victim: Address, now: Instant)
    requires Simulates(s, u, clock) && clock <= now && victim in s && Idle(s[victim], now)
    ensures Simulates(s - {victim}, u, now)
  {
  }

  lemma SpendKeeps(b: Bucket, clock: Instant, now: Instant)
    requires BucketOk(b, clock) && clock <= now
    ensures BucketOk(Spend(b, now).1, now)
  {
  }

  /** An address the bounded map lacks is answered the same by both limiters. */
  lemma NewcomerSimulates(s: Buckets, u: Buckets, clock: Instant, ip: Address, now: Instant)
    requires Simulates(s, u, clock) && clock <= now && ip !in s
    ensures Unbounded(u, ip, now) == (true, u[ip := NewBucket(now)])
    ensures Simulates(s[ip := NewBucket(now)], u[ip := NewBucket(now)], now)
  {
    if ip in u { IdleIsFull(u[ip], clock, now); }
    PutSimulates(s, u, clock, ip, NewBucket(now), now);
  }

  /** One request leaves bounded and unbounded limiter in agreement: same answer, unless the
      bounded one is full, in which case it does not change. */
  lemma {:induction false} StepSimulates(s: Buckets, u: Buckets, clock: Instant, capacity: nat, ip: Address,
                                         now: Instant, r: Outcome, t: Buckets)
    requires Simulates(s, u, clock) && clock <= now && Step(s, capacity, ip, now, r, t)
    ensures r == Full ==> Simulates(t, u, now)
    ensures r != Full ==> Unbounded(u, ip, now).0 == r.Admitted? && Simulates(t, Unbounded(u, ip, now).1, now)
  {
    if ip in s {
      SpendKeeps(u[ip], clock, now);
      PutSimulates(s, u, clock, ip, Spend(u[ip], now).1, now);
    } else if |s| < capacity {
      NewcomerSimulates(s, u, clock, ip, now);
    } else if r != Full {
      var victim :| victim in s && Idle(s[victim], now) && t == (s - {victim})[ip := NewBucket(now)];
      EvictSimulates(s, u, clock, victim, now);
      NewcomerSimulates(s - {victim}, u, now, ip, now);
    }
  }

  // ---------------------------------------------------------------------------
  // Runs
  // ---------------------------------------------------------------------------

  datatype Request = Request(ip: Address, at: Instant)

  ghost predicate Monotone(reqs: seq<Request>) {
    forall i, j :: 0 <= i < j < |reqs| ==> reqs[i].at <= reqs[j].at
  }

  /** A run of the bounded limiter from empty: states, requests and outcomes. */
  ghost predicate IsRun(states: seq<Buckets>, capacity: nat, reqs: seq<Request>, outs: seq<Outcome>) {
    && |states| == |reqs| + 1 && |outs| == |reqs| && Monotone(reqs)
    && states[0] == map[]
    && (forall i :: 0 <= i < |reqs| ==> Step(states[i], capacity, reqs[i].ip, reqs[i].at, outs[i], states[i + 1]))
  }

  /** The unbounded limiter fed the requests that were not refused as full. */
  function Replay(reqs: seq<Request>, outs: seq<Outcome>, n: nat): Buckets
    requires n <= |reqs| && |outs| == |reqs|
  {
    if n == 0 then map[]
    else if outs[n - 1] == Full then Replay(reqs, outs, n - 1)
    else Unbounded(Replay(reqs, outs, n - 1), reqs[n - 1].ip, reqs[n - 1].at).1
  }

  lemma {:induction false} RunSimulates(states: seq<Buckets>, capacity: nat, reqs: seq<Request>, outs: seq<Outcome>,
                                        n: nat, clock: Instant)
    requires IsRun(states, capacity, reqs, outs) && n <= |reqs|
    requires n > 0 ==> reqs[n - 1].at <= clock
    ensures Simulates(states[n], Replay(reqs, outs, n), clock)
  {
    if n > 0 {
      var at := reqs[n - 1].at;
      RunSimulates(states, capacity, reqs, outs, n - 1, at);
      StepSimulates(states[n - 1], Replay(reqs, outs, n - 1), at, capacity, reqs[n - 1].ip, at, outs[n - 1],
                    states[n - 1 + 1]);
    }
  }

  /** Eviction cannot be observed: every decision other than a full refusal is the decision of a
      limiter that never evicts. */
  lemma {:induction false} EvictionIsUnobservable(states: seq<Buckets>, capacity: nat, reqs: seq<Request>,
      outs: seq<Outcome>, i: nat)
    requires IsRun(states, capacity, reqs, outs) && i < |reqs| && outs[i] != Full
    ensures outs[i].Admitted? == Unbounded(Replay(reqs, outs, i), reqs[i].ip, reqs[i].at).0
  {
    RunSimulates(states, capacity, reqs, outs, i, reqs[i].at);
    StepSimulates(states[i], Replay(reqs, outs, i), reqs[i].at, capacity, reqs[i].ip, reqs[i].at, outs[i],
                  states[i + 1]);
  }

  function Admissions(reqs: seq<Request>, outs: seq<Outcome>, ip: Address, lo: nat, hi: nat): nat
    requires lo <= hi <= |reqs| && |outs| == |reqs|
    decreases hi
  {
    if lo == hi then 0
    else Admissions(reqs, outs, ip, lo, hi - 1) + if reqs[hi - 1].ip == ip && outs[hi - 1].Admitted? then 1 else 0
  }

  /** Tokens an address would have at `now` in the limiter that never forgets. */
  function Available(u: Buckets, ip: Address, now: Instant): real {
    if ip in u then Refilled(u[ip], now) else TOKEN_CAPACITY
  }

  lemma AvailableGrows(u: Buckets, ip: Address, a: Instant, b: Instant)
    requires a <= b && (forall x :: x in u ==> BucketOk(u[x], a))
    ensures 0.0 <= Available(u, ip, a) <= TOKEN_CAPACITY && Available(u, ip, b) <= Available(u, ip, a) + (b - a)
  {
  }

  lemma {:induction false} WindowBudget(states: seq<Buckets>, capacity: nat, reqs: seq<Request>, outs: seq<Outcome>,
                                        ip: Address, lo: nat, hi: nat)
    requires IsRun(states, capacity, reqs, outs) && lo < hi <= |reqs|
    ensures Admissions(reqs, outs, ip, lo, hi) as real + Available(Replay(reqs, outs, hi), ip, reqs[hi - 1].at)
            <= TOKEN_CAPACITY + (reqs[hi - 1].at - reqs[lo].at)
    decreases hi
  {
    var at, before := reqs[hi - 1].at, Replay(reqs, outs, hi - 1);
    Decided(states, capacity, reqs, outs, hi - 1, at);
    if hi - 1 > lo {
      WindowBudget(states, capacity, reqs, outs, ip, lo, hi - 1);
      Decided(states, capacity, reqs, outs, hi - 1, reqs[hi - 2].at);
      AvailableGrows(before, ip, reqs[hi - 2].at, at);
    } else {
      AvailableGrows(before, ip, at, at);
    }
    SpendCosts(before, ip, reqs[hi - 1], outs[hi - 1]);
  }

  lemma {:induction false} Decided(states: seq<Buckets>, capacity: nat, reqs: seq<Request>, outs: seq<Outcome>,
                                   i: nat, clock: Instant)
    requires IsRun(states, capacity, reqs, outs) && i < |reqs|
    requires clock <= reqs[i].at && (i > 0 ==> reqs[i - 1].at <= clock)
    ensures forall x :: x in Replay(reqs, outs, i) ==> BucketOk(Replay(reqs, outs, i)[x], clock)
    ensures outs[i] != Full ==> outs[i].Admitted? == Unbounded(Replay(reqs, outs, i), reqs[i].ip, reqs[i].at).0
  {
    RunSimulates(states, capacity, reqs, outs, i, clock);
    if outs[i] != Full { EvictionIsUnobservable(states, capacity, reqs, outs, i); }
  }

  lemma SpendCosts(u: Buckets, ip: Address, q: Request, out: Outcome)
    requires forall x :: x in u ==> BucketOk(u[x], q.at)
    requires out != Full ==> Unbounded(u, q.ip, q.at).0 == out.Admitted?
    ensures var t := if out == Full then u else Unbounded(u, q.ip, q.at).1;
            Available(t, ip, q.at) + (if q.ip == ip && out.Admitted? then 1.0 else 0.0) <= Available(u, ip, q.at)
  {
  }

  /** In any window of w seconds any address is admitted at most 20 + w times, whatever else the
      limiter was asked and whichever buckets it evicted. */
  lemma {:induction false} WindowBound(states: seq<Buckets>, capacity: nat, reqs: seq<Request>, outs: seq<Outcome>,
                                       ip: Address, lo: nat, hi: nat)
    requires IsRun(states, capacity, reqs, outs) && lo < hi <= |reqs|
    ensures Admissions(reqs, outs, ip, lo, hi) as real <= 20.0 + (reqs[hi - 1].at - reqs[lo].at)
  {
    WindowBudget(states, capacity, reqs, outs, ip, lo, hi);
    RunSimulates(states, capacity, reqs, outs, hi, reqs[hi - 1].at);
    AvailableGrows(Replay(reqs, outs, hi), ip, reqs[hi - 1].at, reqs[hi - 1].at);
  }

  // ---------------------------------------------------------------------------
  // Nothing is refused early
  // ---------------------------------------------------------------------------

  /** The tokens of an address are those it started from at some request of its own, full, less what it
      was admitted for since, plus the time since. */
  lemma {:induction false} TokensAccounted(states: seq<Buckets>, capacity: nat, reqs: seq<Request>,
      outs: seq<Outcome>, ip: Address, n: nat) returns (lo: nat)
    requires IsRun(states, capacity, reqs, outs) && n <= |reqs| && ip in Replay(reqs, outs, n)
    ensures lo < n && reqs[lo].ip == ip
    ensures var b := Replay(reqs, outs, n)[ip];
            b.tokens == 20.0 - Admissions(reqs, outs, ip, lo, n) as real + (b.lastRefill - reqs[lo].at)
  {
    var q, out, before := reqs[n - 1], outs[n - 1], Replay(reqs, outs, n - 1);
    Decided(states, capacity, reqs, outs, n - 1, q.at);
    if ip !in before || (q.ip == ip && out != Full && Refilled(before[ip], q.at) == 20.0) {
      lo := n - 1;
      assert Admissions(reqs, outs, ip, lo, lo) == 0;
    } else {
      lo := TokensAccounted(states, capacity, reqs, outs, ip, n - 1);
    }
  }

  /** An address is limited exactly when, since some earlier request of its own, it was admitted more than
      19 times beyond one a second: a request is refused only when the budget is spent. */
  lemma LimitedIff(states: seq<Buckets>, capacity: nat, reqs: seq<Request>, outs: seq<Outcome>, i: nat)
    requires IsRun(states, capacity, reqs, outs) && i < |reqs| && outs[i] != Full
    ensures outs[i] == Limited <==>
              exists lo :: 0 <= lo < i && reqs[lo].ip == reqs[i].ip
                && Admissions(reqs, outs, reqs[i].ip, lo, i) as real > 19.0 + (reqs[i].at - reqs[lo].at)
  {
    var ip, at := reqs[i].ip, reqs[i].at;
    Decided(states, capacity, reqs, outs, i, at);
    if outs[i] == Limited {
      var lo := TokensAccounted(states, capacity, reqs, outs, ip, i);
      assert Admissions(reqs, outs, ip, lo, i) as real > 19.0 + (at - reqs[lo].at);
    } else {
      forall lo | 0 <= lo < i && reqs[lo].ip == ip
        ensures Admissions(reqs, outs, ip, lo, i) as real <= 19.0 + (at - reqs[lo].at)
      {
        WindowBound(states, capacity, reqs, outs, ip, lo, i + 1);
      }
    }
  }

  lemma {:induction false} SizeIsBounded(states: seq<Buckets>, capacity: nat, reqs: seq<Request>, outs: seq<Outcome>,
                                         n: nat)
    requires IsRun(states, capacity, reqs, outs) && n <= |reqs|
    ensures |states[n]| <= capacity
  {
    if n > 0 {
      SizeIsBounded(states, capacity, reqs, outs, n - 1);
      var s, t := states[n - 1], states[n];
      assert Step(s, capacity, reqs[n - 1].ip, reqs[n - 1].at, outs[n - 1], states[n - 1 + 1]);
      if reqs[n - 1].ip !in s && |s| >= capacity && outs[n - 1] != Full {
        var victim :| victim in s && t == (s - {victim})[reqs[n - 1].ip := NewBucket(reqs[n - 1].at)];
        assert (s - {victim}).Keys == s.Keys - {victim};
      } else if reqs[n - 1].ip in s {
        assert t.Keys == s.Keys;
      }
    }
  }

  /** A bucket was last seen at a request of its own address. */
  lemma {:induction false} SeenAt(states: seq<Buckets>, capacity: nat, reqs: seq<Request>, outs: seq<Outcome>,
                                  n: nat, a: Address) returns (j: nat)
    requires IsRun(states, capacity, reqs, outs) && n <= |reqs| && a in states[n]
    ensures j < n && reqs[j].ip == a && states[n][a].lastSeen == reqs[j].at
  {
    assert Step(states[n - 1], capacity, reqs[n - 1].ip, reqs[n - 1].at, outs[n - 1], states[n - 1 + 1]);
    if reqs[n - 1].ip == a && outs[n - 1] != Full {
      j := n - 1;
    } else {
      j := SeenAt(states, capacity, reqs, outs, n - 1, a);
    }
  }

  ghost predicate Recent(reqs: seq<Request>, i: nat, a: Address)
    requires i < |reqs|
  {
    exists j :: 0 <= j < i && reqs[j].ip == a && reqs[i].at - reqs[j].at < 120.0
  }

  /** A request is refused as full only if as many other addresses as the map holds were served in the
      last two minutes. */
  lemma FullHasCause(states: seq<Buckets>, capacity: nat, reqs: seq<Request>, outs: seq<Outcome>, i: nat)
    returns (others: set<Address>)
    requires IsRun(states, capacity, reqs, outs) && i < |reqs| && outs[i] == Full
    ensures |others| == capacity && reqs[i].ip !in others && forall a :: a in others ==> Recent(reqs, i, a)
  {
    assert Step(states[i], capacity, reqs[i].ip, reqs[i].at, outs[i], states[i + 1]);
    others := states[i].Keys;
    SizeIsBounded(states, capacity, reqs, outs, i);
    forall a | a in others
      ensures Recent(reqs, i, a)
    {
      var j := SeenAt(states, capacity, reqs, outs, i, a);
      assert !Idle(states[i][a], reqs[i].at);
    }
  }
}
