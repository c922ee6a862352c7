/** The built-in captcha: challenges are redeemed for tokens and tokens are verified, each once.  Every
    step is one critical section under the store lock, so an interleaving of requests is a sequence of
    steps; redeeming takes two of them, and each may use a time read before the lock was taken. */
module Captcha {

  /** A random challenge name, or the digest of a random token. */
  type Name = nat

  const MAX_ENTRIES := 10_000
  const CHALLENGE_TTL := 600
  const TOKEN_TTL := 1_200

  datatype Created = Issued(token: Name) | Full
  datatype Redeemed = Success | Failure | Capacity

  /** A store with its history: what was handed out, and what was used up. */
  datatype Shelf = Shelf(store: map<Name, int>, used: multiset<Name>, issued: multiset<Name>)

  datatype Cap = Cap(challenges: Shelf, tokens: Shelf)

  datatype Step =
    | Create(now: int, token: Name)
    | Check(now: int, token: Name)
    | Spend(now: int, token: Name, digest: Name)
    | Verify(now: int, digest: Name)

  const EMPTY := Shelf(map[], multiset{}, multiset{})

  // ---------------------------------------------------------------------------
  // One store
  // ---------------------------------------------------------------------------

  function Live(store: map<Name, int>, now: int): map<Name, int> {
    map k | k in store && store[k] > now :: store[k]
  }

  function Expire(s: Shelf, now: int): Shelf { s.(store := Live(s.store, now)) }

  function Issue(s: Shelf, k: Name, now: int, ttl: int): Shelf {
    Shelf(s.store[k := now + ttl], s.used, s.issued + multiset{k})
  }

  function Use(s: Shelf, k: Name): Shelf { s.(store := s.store - {k}, used := s.used + multiset{k}) }

  /** No more was used up, or is still live, than was handed out, name by name; and the store is within
      its bound. */
  ghost predicate Sound(s: Shelf) {
    && (forall k :: s.used[k] + (if k in s.store then 1 else 0) <= s.issued[k])
    && |s.store| <= MAX_ENTRIES
  }

  lemma ExpireKeeps(s: Shelf, now: int)
    requires Sound(s)
    ensures Sound(Expire(s, now))
  {
    var live := Live(s.store, now);
    assert s.store.Keys == live.Keys + (s.store.Keys - live.Keys);
  }

  lemma IssueKeeps(s: Shelf, k: Name, now: int, ttl: int)
    requires Sound(s) && |s.store| < MAX_ENTRIES
    ensures Sound(Issue(s, k, now, ttl))
  {
    assert s.store[k := now + ttl].Keys == s.store.Keys + {k};
  }

  lemma UseKeeps(s: Shelf, k: Name)
    requires Sound(s) && k in s.store
    ensures Sound(Use(s, k))
  {
    assert (s.store - {k}).Keys == s.store.Keys - {k};
  }

  lemma SoundSize(s: Shelf)
    requires Sound(s)
    ensures |s.used| + |s.store| <= |s.issued|
  {
    var both := s.used + multiset(s.store.Keys);
    assert both <= s.issued;
    assert s.issued == both + (s.issued - both);
    assert |multiset(s.store.Keys)| == |s.store.Keys|;
  }

  // ---------------------------------------------------------------------------
  // Both stores, under every interleaving
  // ---------------------------------------------------------------------------

  function Cleaned(c: Cap, now: int): Cap { Cap(Expire(c.challenges, now), Expire(c.tokens, now)) }

  predicate Redeems(c: Cap, token: Name) { |c.tokens.store| < MAX_ENTRIES && token in c.challenges.store }

  function Apply(before: Cap, step: Step): Cap {
    var c := Cleaned(before, step.now);
    match step
    case Create(now, token) =>
      if |c.challenges.store| >= MAX_ENTRIES then c
      else c.(challenges := Issue(c.challenges, token, now, CHALLENGE_TTL))
    case Check(_, _) => c
    case Spend(now, token, digest) =>
      if Redeems(c, token) then Cap(Use(c.challenges, token), Issue(c.tokens, digest, now, TOKEN_TTL)) else c
    case Verify(_, digest) =>
      if digest in c.tokens.store then c.(tokens := Use(c.tokens, digest)) else c
  }

  function Run(steps: seq<Step>): Cap {
    if steps == [] then Cap(EMPTY, EMPTY) else Apply(Run(steps[..|steps| - 1]), steps[|steps| - 1])
  }

  /** As many tokens were issued as challenges redeemed. */
  ghost predicate Inv(c: Cap) {
    Sound(c.challenges) && Sound(c.tokens) && |c.tokens.issued| == |c.challenges.used|
  }

  lemma StepKeeps(before: Cap, step: Step)
    requires Inv(before)
    ensures Inv(Apply(before, step))
  {
    ExpireKeeps(before.challenges, step.now);
    ExpireKeeps(before.tokens, step.now);
    var c := Cleaned(before, step.now);
    match step
    case Create(now, token) =>
      if |c.challenges.store| < MAX_ENTRIES { IssueKeeps(c.challenges, token, now, CHALLENGE_TTL); }
    case Check(_, _) =>
    case Spend(now, token, digest) =>
      if Redeems(c, token) {
        UseKeeps(c.challenges, token);
        IssueKeeps(c.tokens, digest, now, TOKEN_TTL);
      }
    case Verify(_, digest) => if digest in c.tokens.store { UseKeeps(c.tokens, digest); }
  }

  lemma {:induction false} RunKeeps(steps: seq<Step>)
    ensures Inv(Run(steps))
  {
    if steps != [] {
      RunKeeps(steps[..|steps| - 1]);
      StepKeeps(Run(steps[..|steps| - 1]), steps[|steps| - 1]);
    }
  }

  /** After any interleaving, in total and name by name: verified and live tokens never exceed
      redemptions, redemptions and live challenges never exceed creations, and both stores are bounded. */
  lemma {:induction false} NothingIsUsedTwice(steps: seq<Step>)
    ensures
      var c := Run(steps);
      && |c.tokens.used| + |c.tokens.store| <= |c.challenges.used|
      && |c.challenges.used| + |c.challenges.store| <= |c.challenges.issued|
      && |c.challenges.store| <= 10_000 && |c.tokens.store| <= 10_000
      && (forall d :: c.tokens.used[d] + (if d in c.tokens.store then 1 else 0) <= c.tokens.issued[d])
      && (forall k :: c.challenges.used[k] + (if k in c.challenges.store then 1 else 0) <= c.challenges.issued[k])
  {
    RunKeeps(steps);
    SoundSize(Run(steps).tokens);
    SoundSize(Run(steps).challenges);
  }

  /** Step `i` issued the challenge. */
  ghost predicate CreatedAt(steps: seq<Step>, i: int, token: Name, expires: int) {
    && 0 <= i < |steps| && steps[i].Create? && steps[i].token == token && expires == steps[i].now + 600
    && |Live(Run(steps[..i]).challenges.store, steps[i].now)| < 10_000
  }

  /** Step `i` redeemed a live challenge for the token. */
  ghost predicate SpentAt(steps: seq<Step>, i: int, digest: Name, expires: int) {
    && 0 <= i < |steps| && steps[i].Spend? && steps[i].digest == digest && expires == steps[i].now + 1200
    && Redeems(Cleaned(Run(steps[..i]), steps[i].now), steps[i].token)
  }

  /** Every live challenge comes from a creation, and expires its lifetime after it. */
  lemma {:induction false} ChallengeHasOrigin(steps: seq<Step>, token: Name)
    requires token in Run(steps).challenges.store
    ensures exists i :: CreatedAt(steps, i, token, Run(steps).challenges.store[token])
  {
    var n := |steps| - 1;
    var before := Run(steps[..n]);
    var expires := Run(steps).challenges.store[token];
    if steps[n].Create? && steps[n].token == token && expires == steps[n].now + CHALLENGE_TTL
       && |Live(before.challenges.store, steps[n].now)| < MAX_ENTRIES {
      assert CreatedAt(steps, n, token, expires);
    } else {
      assert token in before.challenges.store && before.challenges.store[token] == expires;
      ChallengeHasOrigin(steps[..n], token);
      var i :| CreatedAt(steps[..n], i, token, expires);
      assert steps[..n][..i] == steps[..i];
      assert CreatedAt(steps, i, token, expires);
    }
  }

  /** Every live token comes from a redemption, and expires its lifetime after it. */
  lemma {:induction false} TokenHasOrigin(steps: seq<Step>, digest: Name)
    requires digest in Run(steps).tokens.store
    ensures exists i :: SpentAt(steps, i, digest, Run(steps).tokens.store[digest])
  {
    var n := |steps| - 1;
    var before := Run(steps[..n]);
    var expires := Run(steps).tokens.store[digest];
    if steps[n].Spend? && steps[n].digest == digest && expires == steps[n].now + TOKEN_TTL
       && Redeems(Cleaned(before, steps[n].now), steps[n].token) {
      assert SpentAt(steps, n, digest, expires);
    } else {
      assert digest in before.tokens.store && before.tokens.store[digest] == expires;
      TokenHasOrigin(steps[..n], digest);
      var i :| SpentAt(steps[..n], i, digest, expires);
      assert steps[..n][..i] == steps[..i];
      assert SpentAt(steps, i, digest, expires);
    }
  }

  /** Whatever is used was handed out by an earlier step less than its lifetime before, by the clock
      readings of the two steps. */
  lemma {:induction false} UsedInTime(steps: seq<Step>, step: Step)
    ensures step.Verify? && Apply(Run(steps), step).tokens.used != Run(steps).tokens.used ==>
      exists i, expires :: SpentAt(steps, i, step.digest, expires) && step.now < expires
    ensures step.Spend? && Apply(Run(steps), step).challenges.used != Run(steps).challenges.used ==>
      exists i, expires :: CreatedAt(steps, i, step.token, expires) && step.now < expires
  {
    var c := Run(steps);
    if step.Verify? && step.digest in Live(c.tokens.store, step.now) { TokenHasOrigin(steps, step.digest); }
    if step.Spend? && step.token in Live(c.challenges.store, step.now) { ChallengeHasOrigin(steps, step.token); }
  }

  /** The step neither spends the challenge nor issues its name again. */
  predicate Spares(step: Step, token: Name) { (step.Spend? || step.Create?) ==> step.token != token }

  /** The step neither verifies the token nor issues its name again. */
  predicate Leaves(step: Step, digest: Name) { (step.Verify? || step.Spend?) ==> step.digest != digest }

  ghost predicate HasChallenge(c: Cap, token: Name, expires: int) {
    token in c.challenges.store && c.challenges.store[token] == expires
  }

  ghost predicate HasToken(c: Cap, digest: Name, expires: int) {
    digest in c.tokens.store && c.tokens.store[digest] == expires
  }

  lemma StepSpares(c: Cap, step: Step, token: Name, expires: int)
    requires HasChallenge(c, token, expires) && step.now < expires && Spares(step, token)
    ensures HasChallenge(Apply(c, step), token, expires)
  {
  }

  lemma StepLeaves(c: Cap, step: Step, digest: Name, expires: int)
    requires HasToken(c, digest, expires) && step.now < expires && Leaves(step, digest)
    ensures HasToken(Apply(c, step), digest, expires)
  {
  }

  lemma RunNext(steps: seq<Step>, n: nat)
    requires n < |steps|
    ensures Run(steps[..n + 1]) == Apply(Run(steps[..n]), steps[n])
  {
    assert steps[..n + 1][..n] == steps[..n];
  }

  lemma CreateGives(c: Cap, now: int, token: Name)
    requires |Live(c.challenges.store, now)| < 10_000
    ensures HasChallenge(Apply(c, Create(now, token)), token, now + 600)
  {
  }

  lemma SpendGives(c: Cap, now: int, token: Name, digest: Name)
    requires Redeems(Cleaned(c, now), token)
    ensures HasToken(Apply(c, Spend(now, token, digest)), digest, now + 1200)
  {
  }

  ghost predicate Follows(states: seq<Cap>, steps: seq<Step>, j: nat) {
    j < |steps| && j + 1 < |states| && states[j + 1] == Apply(states[j], steps[j])
  }

  /** The states before and after each of the steps. */
  ghost predicate Passes(states: seq<Cap>, steps: seq<Step>) {
    |states| == |steps| + 1 && forall j :: 0 <= j < |steps| ==> Follows(states, steps, j)
  }

  lemma StatesOf(steps: seq<Step>) returns (states: seq<Cap>)
    ensures Passes(states, steps) && forall j :: 0 <= j <= |steps| ==> states[j] == Run(steps[..j])
    ensures states[|steps|] == Run(steps)
  {
    states := seq(|steps| + 1, j requires 0 <= j <= |steps| => Run(steps[..j]));
    forall j | 0 <= j < |steps| ensures Follows(states, steps, j) { RunNext(steps, j); }
    assert steps[..|steps|] == steps;
  }

  /** A challenge stays live until its time is up, unless it is spent. */
  lemma {:induction false} ChallengeStays(states: seq<Cap>, steps: seq<Step>, m: nat, n: nat, token: Name, expires: int)
    requires Passes(states, steps) && m <= n <= |steps| && HasChallenge(states[m], token, expires)
    requires forall j :: m <= j < n ==> steps[j].now < expires && Spares(steps[j], token)
    ensures HasChallenge(states[n], token, expires)
  {
    if m < n {
      ChallengeStays(states, steps, m, n - 1, token, expires);
      assert Follows(states, steps, n - 1);
      StepSpares(states[n - 1], steps[n - 1], token, expires);
    }
  }

  /** A token stays live until its time is up, unless it is verified. */
  lemma {:induction false} TokenStays(states: seq<Cap>, steps: seq<Step>, m: nat, n: nat, digest: Name, expires: int)
    requires Passes(states, steps) && m <= n <= |steps| && HasToken(states[m], digest, expires)
    requires forall j :: m <= j < n ==> steps[j].now < expires && Leaves(steps[j], digest)
    ensures HasToken(states[n], digest, expires)
  {
    if m < n {
      TokenStays(states, steps, m, n - 1, digest, expires);
      assert Follows(states, steps, n - 1);
      StepLeaves(states[n - 1], steps[n - 1], digest, expires);
    }
  }

  lemma CreatedIsLive(steps: seq<Step>, i: nat, token: Name, expires: int)
    requires CreatedAt(steps, i, token, expires)
    requires forall j :: i < j < |steps| ==> steps[j].now < expires && Spares(steps[j], token)
    ensures HasChallenge(Run(steps), token, expires)
  {
    var states := StatesOf(steps);
    assert Follows(states, steps, i);
    CreateGives(states[i], steps[i].now, token);
    ChallengeStays(states, steps, i + 1, |steps|, token, expires);
  }

  lemma SpentIsLive(steps: seq<Step>, i: nat, digest: Name, expires: int)
    requires SpentAt(steps, i, digest, expires)
    requires forall j :: i < j < |steps| ==> steps[j].now < expires && Leaves(steps[j], digest)
    ensures HasToken(Run(steps), digest, expires)
  {
    var states := StatesOf(steps);
    assert Follows(states, steps, i);
    SpendGives(states[i], steps[i].now, steps[i].token, digest);
    TokenStays(states, steps, i + 1, |steps|, digest, expires);
  }

  /** Within its ten minutes an unspent challenge is redeemed, if there is room for another token. */
  lemma UnspentIsRedeemed(steps: seq<Step>, i: nat, token: Name, expires: int, now: int, digest: Name)
    requires CreatedAt(steps, i, token, expires) && now < expires
    requires forall j :: i < j < |steps| ==> steps[j].now < expires && Spares(steps[j], token)
    requires |Run(steps).tokens.store| < 10_000
    ensures SpentAt(steps + [Spend(now, token, digest)], |steps|, digest, now + 1200)
    ensures var c := Run(steps + [Spend(now, token, digest)]);
            && token !in c.challenges.store && c.challenges.used[token] == Run(steps).challenges.used[token] + 1
            && digest in c.tokens.store && c.tokens.store[digest] == now + 1200
  {
    CreatedIsLive(steps, i, token, expires);
    var more := steps + [Spend(now, token, digest)];
    assert more[..|steps|] == steps;
    var c := Run(steps);
    LiveIsSmaller(c.tokens.store, now);
  }

  lemma LiveIsSmaller(store: map<Name, int>, now: int)
    ensures |Live(store, now)| <= |store|
  {
    assert store.Keys == Live(store, now).Keys + (store.Keys - Live(store, now).Keys);
  }

  /** Within its twenty minutes an unverified token is accepted, and is then gone. */
  lemma UnverifiedIsAccepted(steps: seq<Step>, i: nat, digest: Name, expires: int, now: int)
    requires SpentAt(steps, i, digest, expires) && now < expires
    requires forall j :: i < j < |steps| ==> steps[j].now < expires && Leaves(steps[j], digest)
    ensures var c := Run(steps + [Verify(now, digest)]);
            && c.tokens.used[digest] == Run(steps).tokens.used[digest] + 1 && digest !in c.tokens.store
  {
    SpentIsLive(steps, i, digest, expires);
    var more := steps + [Verify(now, digest)];
    assert more[..|steps|] == steps;
  }

  // ---------------------------------------------------------------------------
  // The critical sections
  // ---------------------------------------------------------------------------

  ghost predicate IsFirstUnused(draws: seq<Name>, store: map<Name, int>, token: Name) {
    token !in store && exists i :: 0 <= i < |draws| && draws[i] == token && forall j :: 0 <= j < i ==> draws[j] in store
  }

  class BuiltInCap {
    var challenges: map<Name, int>
    var tokens: map<Name, int>
    /** The stores with their history. */
    ghost var book: Cap

    ghost predicate Valid()
      reads this
    {
      book.challenges.store == challenges && book.tokens.store == tokens
    }

    constructor ()
      ensures Valid() && book == Run([])
    {
      challenges, tokens, book := map[], map[], Cap(EMPTY, EMPTY);
    }

    method CleanupExpired(now: int)
      requires Valid()
      modifies this
      ensures Valid() && book == Cleaned(old(book), now)
      ensures challenges == map k | k in old(challenges) && old(challenges)[k] > now :: old(challenges)[k]
      ensures tokens == map k | k in old(tokens) && old(tokens)[k] > now :: old(tokens)[k]
    {
      challenges, tokens, book := Live(challenges, now), Live(tokens, now), Cleaned(book, now);
    }

    /** The first name drawn that no live challenge has, unless the store is full. */
    method CreateChallenge(now: int, draws: seq<Name>) returns (r: Created)
      requires Valid()
      requires |Live(challenges, now)| >= MAX_ENTRIES
               || exists i :: 0 <= i < |draws| && draws[i] !in Live(challenges, now)
      modifies this
      ensures Valid() && (r.Full? <==> |Live(old(challenges), now)| >= 10_000)
      ensures r.Full? ==> book == Cleaned(old(book), now)
      ensures r.Issued? ==> IsFirstUnused(draws, Live(old(challenges), now), r.token)
      ensures r.Issued? ==> book == Apply(old(book), Create(now, r.token))
    {
      CleanupExpired(now);
      if |challenges| >= MAX_ENTRIES { return Full; }
      var i: nat := 0;
      while draws[i] in challenges
        invariant i < |draws| && forall j :: 0 <= j < i ==> draws[j] in challenges
        decreases |draws| - i
      {
        i := i + 1;
      }
      var token := draws[i];
      challenges := challenges[token := now + CHALLENGE_TTL];
      book := book.(challenges := Issue(book.challenges, token, now, CHALLENGE_TTL));
      r := Issued(token);
    }

    /** First half of redeeming: is the challenge still live? */
    method CheckChallenge(now: int, token: Name) returns (live: bool)
      requires Valid()
      modifies this
      ensures Valid() && book == Apply(old(book), Check(now, token))
      ensures live <==> token in old(challenges) && old(challenges)[token] > now
    {
      CleanupExpired(now);
      live := token in challenges;
    }

    /** Second half: the challenge is spent for the token, unless the token store is full or the
        challenge has gone meanwhile; a full store does not spend it. */
    method SpendChallenge(now: int, token: Name, digest: Name) returns (r: Redeemed)
      requires Valid()
      modifies this
      ensures Valid() && book == Apply(old(book), Spend(now, token, digest))
      ensures r.Capacity? <==> |Live(old(tokens), now)| >= 10_000
      ensures r.Success? <==> Redeems(Cleaned(old(book), now), token)
      ensures r.Success? <==> !r.Capacity? && token in old(challenges) && old(challenges)[token] > now
    {
      CleanupExpired(now);
      if |tokens| >= MAX_ENTRIES { return Capacity; }
      if token !in challenges { return Failure; }
      challenges := challenges - {token};
      tokens := tokens[digest := now + TOKEN_TTL];
      book := Cap(Use(book.challenges, token), Issue(book.tokens, digest, now, TOKEN_TTL));
      r := Success;
    }

    method VerifyToken(now: int, digest: Name) returns (ok: bool)
      requires Valid()
      modifies this
      ensures Valid() && book == Apply(old(book), Verify(now, digest))
      ensures ok <==> digest in old(tokens) && old(tokens)[digest] > now
    {
      CleanupExpired(now);
      if digest !in tokens { return false; }
      tokens := tokens - {digest};
      book := book.(tokens := Use(book.tokens, digest));
      ok := true;
    }
  }
}
