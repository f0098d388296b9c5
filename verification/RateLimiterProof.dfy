/**
 The capped limiter against one that keeps every bucket for ever: eviction and pruning never cost an
 identifier a request in total, and an identifier that is not evicted notices nothing.
 */
module RateLimiterProof {
  import opened Ordering
  import opened RateLimiter

  // ----- Runs -----

  type Buckets = map<string, Bucket>

  function Unbounded(limit: Limit, u: Buckets, identifier: string, now: real): Bucket {
    if identifier in u then u[identifier] else Full(limit, now)
  }

  function NextUnbounded(limit: Limit, u: Buckets, call: Call): Buckets {
    u[call.identifier := Taken(limit, Unbounded(limit, u, call.identifier, call.now), call.now)]
  }

  function StateAfter(limit: Limit, s: State, calls: seq<Call>): State {
    if calls == [] then s else Next(limit, StateAfter(limit, s, calls[..|calls| - 1]), calls[|calls| - 1])
  }

  function BucketsAfter(limit: Limit, u: Buckets, calls: seq<Call>): Buckets {
    if calls == [] then u else NextUnbounded(limit, BucketsAfter(limit, u, calls[..|calls| - 1]), calls[|calls| - 1])
  }

  predicate DecisionUnbounded(limit: Limit, u: Buckets, call: Call) {
    Admits(limit, Unbounded(limit, u, call.identifier, call.now), call.now)
  }

  /** The requests of one identifier the capped limiter admits. */
  function Admitted(limit: Limit, s: State, calls: seq<Call>, id: string): nat {
    if calls == [] then 0
    else
      var before, call := calls[..|calls| - 1], calls[|calls| - 1];
      Admitted(limit, s, before, id) +
      Taking(call.identifier == id && Decision(limit, StateAfter(limit, s, before), call))
  }

  function AdmittedUnbounded(limit: Limit, u: Buckets, calls: seq<Call>, id: string): nat {
    if calls == [] then 0
    else
      var before, call := calls[..|calls| - 1], calls[|calls| - 1];
      AdmittedUnbounded(limit, u, before, id) +
      Taking(call.identifier == id && DecisionUnbounded(limit, BucketsAfter(limit, u, before), call))
  }

  /** Every eviction is one the limiter could have made. */
  ghost predicate LegalRun(limit: Limit, s: State, calls: seq<Call>) {
    calls == [] ||
    (LegalRun(limit, s, calls[..|calls| - 1]) && Legal(limit, StateAfter(limit, s, calls[..|calls| - 1]), calls[|calls| - 1]))
  }

  function ClockAfter(start: real, calls: seq<Call>): real {
    if calls == [] then start else calls[|calls| - 1].now
  }

  /** The clock never goes back. */
  ghost predicate Clocked(start: real, calls: seq<Call>) {
    calls == [] ||
    (Clocked(start, calls[..|calls| - 1]) && ClockAfter(start, calls[..|calls| - 1]) <= calls[|calls| - 1].now)
  }

  ghost predicate NeverEvicted(calls: seq<Call>, id: string) {
    forall i | 0 <= i < |calls| :: calls[i].victim != Some(id)
  }

  // ----- Tokens over time -----

  ghost predicate SoundBucket(limit: Limit, b: Bucket, clock: real) {
    0.0 <= b.tokens <= limit.burst as real && b.last <= clock
  }

  ghost predicate SoundVisitor(limit: Limit, v: Visitor, clock: real) {
    SoundBucket(limit, v.bucket, clock) && v.bucket.last <= v.lastSeen <= clock
  }

  ghost predicate Sound(limit: Limit, s: State, clock: real) {
    && limit.rate >= 0.0
    && forall id | id in s.visitors :: SoundVisitor(limit, s.visitors[id], clock)
  }

  ghost predicate SoundUnbounded(limit: Limit, u: Buckets, clock: real) {
    limit.rate >= 0.0 && forall id | id in u :: SoundBucket(limit, u[id], clock)
  }

  /** What an identifier could take now; one without a bucket gets a full one. */
  function Tokens(limit: Limit, visitors: Visitors, id: string, now: real): real {
    if id in visitors then Available(limit, visitors[id].bucket, now) else limit.burst as real
  }

  function TokensUnbounded(limit: Limit, u: Buckets, id: string, now: real): real {
    if id in u then Available(limit, u[id], now) else limit.burst as real
  }

  /** A clock that went back refills nothing, and never takes a token away. */
  lemma ClockWentBack(limit: Limit, b: Bucket, now: real)
    requires now <= b.last && b.tokens <= limit.burst as real
    ensures Available(limit, b, now) == b.tokens
  {
    assert limit.rate * 0.0 == 0.0;
  }

  lemma RefillSplits(limit: Limit, b: Bucket, t1: real, t2: real)
    requires limit.rate >= 0.0 && SoundBucket(limit, b, t1) && t1 <= t2
    ensures Available(limit, b, t2) == Min(limit.burst as real, Available(limit, b, t1) + limit.rate * (t2 - t1))
    ensures 0.0 <= Available(limit, b, t1) <= limit.burst as real
  {
    assert (t1 - b.last) + (t2 - t1) == t2 - b.last;
    assert limit.rate * (t1 - b.last) >= 0.0;
  }

  /** One call: what each identifier has left, and that only dropping its bucket can change it otherwise. */
  lemma NextTokens(limit: Limit, s: State, call: Call, clock: real, id: string)
    requires Sound(limit, s, clock) && clock <= call.now
    ensures Sound(limit, Next(limit, s, call), call.now)
    ensures Tokens(limit, Next(limit, s, call).visitors, id, call.now) ==
            Tokens(limit, Kept(limit, s, call), id, call.now) -
            (if id == call.identifier && Decision(limit, s, call) then 1.0 else 0.0)
    ensures id == call.identifier ==> (Decision(limit, s, call) <==> Tokens(limit, Kept(limit, s, call), id, call.now) >= 1.0)
    ensures id in Kept(limit, s, call) ==> id in s.visitors && Kept(limit, s, call)[id] == s.visitors[id]
    ensures Tokens(limit, s.visitors, id, call.now) <= Tokens(limit, Kept(limit, s, call), id, call.now)
  {
    var visitors := Kept(limit, s, call);
    assert forall other | other in visitors :: other in s.visitors && visitors[other] == s.visitors[other];
    var bucket := BucketFor(limit, visitors, call.identifier, call.now);
    assert SoundBucket(limit, bucket, call.now);
    if id in s.visitors { RefillSplits(limit, s.visitors[id].bucket, call.now, call.now); }
  }

  lemma NextTokensUnbounded(limit: Limit, u: Buckets, call: Call, clock: real, id: string)
    requires SoundUnbounded(limit, u, clock) && clock <= call.now
    ensures SoundUnbounded(limit, NextUnbounded(limit, u, call), call.now)
    ensures TokensUnbounded(limit, NextUnbounded(limit, u, call), id, call.now) ==
            TokensUnbounded(limit, u, id, call.now) -
            (if id == call.identifier && DecisionUnbounded(limit, u, call) then 1.0 else 0.0)
    ensures id == call.identifier ==> (DecisionUnbounded(limit, u, call) <==> TokensUnbounded(limit, u, id, call.now) >= 1.0)
  {
  }

  function Refill(limit: Limit, elapsed: real): real {
    limit.rate * elapsed
  }

  lemma TokensLater(limit: Limit, s: State, id: string, t1: real, t2: real)
    requires Sound(limit, s, t1) && t1 <= t2
    ensures Tokens(limit, s.visitors, id, t2) == Min(limit.burst as real, Tokens(limit, s.visitors, id, t1) + Refill(limit, t2 - t1))
    ensures 0.0 <= Tokens(limit, s.visitors, id, t1) <= limit.burst as real
    ensures Refill(limit, t2 - t1) >= 0.0
  {
    if id in s.visitors { RefillSplits(limit, s.visitors[id].bucket, t1, t2); }
  }

  lemma TokensLaterUnbounded(limit: Limit, u: Buckets, id: string, t1: real, t2: real)
    requires SoundUnbounded(limit, u, t1) && t1 <= t2
    ensures TokensUnbounded(limit, u, id, t2) == Min(limit.burst as real, TokensUnbounded(limit, u, id, t1) + Refill(limit, t2 - t1))
  {
    if id in u { RefillSplits(limit, u[id], t1, t2); }
  }

  /** Both limiters refill by the same amount while the clock advances. */
  lemma BothLater(limit: Limit, s: State, u: Buckets, id: string, t1: real, t2: real) returns (refill: real)
    requires Sound(limit, s, t1) && SoundUnbounded(limit, u, t1) && t1 <= t2
    ensures refill >= 0.0
    ensures Tokens(limit, s.visitors, id, t2) == Min(limit.burst as real, Tokens(limit, s.visitors, id, t1) + refill)
    ensures TokensUnbounded(limit, u, id, t2) == Min(limit.burst as real, TokensUnbounded(limit, u, id, t1) + refill)
  {
    refill := Refill(limit, t2 - t1);
    TokensLater(limit, s, id, t1, t2);
    TokensLaterUnbounded(limit, u, id, t1, t2);
  }

  // ----- Eviction is permissive in total -----

  /** The potential: what has been admitted, alone and together with what is left. */
  ghost predicate Ahead(limit: Limit, s: State, u: Buckets, admitted: nat, admittedUnbounded: nat, id: string, now: real) {
    && Sound(limit, s, now) && SoundUnbounded(limit, u, now)
    && admitted >= admittedUnbounded
    && Tokens(limit, s.visitors, id, now) + admitted as real >= TokensUnbounded(limit, u, id, now) + admittedUnbounded as real
  }

  /** One request in numbers: what is left before it (`x`, `y`), refilled, possibly reset to more (`kept`). */
  lemma PotentialStep(burst: real, x: real, y: real, refill: real, kept: real, a: nat, v: nat)
    requires a >= v && x + a as real >= y + v as real
    requires refill >= 0.0 && kept >= Min(burst, x + refill)
    ensures kept + a as real >= Min(burst, y + refill) + v as real
    ensures Min(burst, y + refill) >= 1.0 && kept < 1.0 ==> a > v
  {
  }

  function Taking(taken: bool): nat {
    if taken then 1 else 0
  }

  lemma AheadStep(limit: Limit, s: State, u: Buckets, a: nat, v: nat, id: string, clock: real, call: Call)
    requires Ahead(limit, s, u, a, v, id, clock) && clock <= call.now
    ensures Ahead(limit, Next(limit, s, call), NextUnbounded(limit, u, call),
                  a + Taking(call.identifier == id && Decision(limit, s, call)),
                  v + Taking(call.identifier == id && DecisionUnbounded(limit, u, call)), id, call.now)
    ensures call.identifier == id && DecisionUnbounded(limit, u, call) && !Decision(limit, s, call) ==> a > v
  {
    var refill := BothLater(limit, s, u, id, clock, call.now);
    NextTokens(limit, s, call, clock, id);
    NextTokensUnbounded(limit, u, call, clock, id);
    PotentialStep(limit.burst as real, Tokens(limit, s.visitors, id, clock), TokensUnbounded(limit, u, id, clock), refill,
      Tokens(limit, Kept(limit, s, call), id, call.now), a, v);
  }

  lemma {:induction false} AheadAlong(limit: Limit, start: real, calls: seq<Call>, id: string)
    requires limit.rate >= 0.0 && Clocked(start, calls)
    ensures Ahead(limit, StateAfter(limit, State(map[], start), calls), BucketsAfter(limit, map[], calls),
                  Admitted(limit, State(map[], start), calls, id), AdmittedUnbounded(limit, map[], calls, id), id, ClockAfter(start, calls))
  {
    if calls != [] {
      var before, call := calls[..|calls| - 1], calls[|calls| - 1];
      var s0 := State(map[], start);
      AheadAlong(limit, start, before, id);
      AheadStep(limit, StateAfter(limit, s0, before), BucketsAfter(limit, map[], before),
        Admitted(limit, s0, before, id), AdmittedUnbounded(limit, map[], before, id), id, ClockAfter(start, before), call);
    }
  }

  /**
   Main result: whatever is evicted or pruned, an identifier has had at least as many requests
   admitted as without a ceiling. A request denied that the other limiter admits repays an extra one.
   */
  lemma EvictionNeverCosts(limit: Limit, start: real, calls: seq<Call>, id: string)
    requires limit.rate >= 0.0 && Clocked(start, calls)
    ensures Admitted(limit, State(map[], start), calls, id) >= AdmittedUnbounded(limit, map[], calls, id)
  {
    AheadAlong(limit, start, calls, id);
  }

  lemma DenialRepays(limit: Limit, start: real, calls: seq<Call>, call: Call)
    requires limit.rate >= 0.0 && Clocked(start, calls + [call])
    requires DecisionUnbounded(limit, BucketsAfter(limit, map[], calls), call)
    requires !Decision(limit, StateAfter(limit, State(map[], start), calls), call)
    ensures Admitted(limit, State(map[], start), calls, call.identifier) > AdmittedUnbounded(limit, map[], calls, call.identifier)
  {
    assert (calls + [call])[..|calls|] == calls;
    AheadAlong(limit, start, calls, call.identifier);
    AheadStep(limit, StateAfter(limit, State(map[], start), calls), BucketsAfter(limit, map[], calls),
      Admitted(limit, State(map[], start), calls, call.identifier), AdmittedUnbounded(limit, map[], calls, call.identifier),
      call.identifier, ClockAfter(start, calls), call);
  }

  // ----- The ceiling -----

  lemma Fewer(small: Visitors, large: Visitors)
    requires small.Keys <= large.Keys
    ensures |small| <= |large|
  {
    var rest := large.Keys - small.Keys;
    assert large.Keys == small.Keys + rest;
  }

  /** A positive ceiling is never exceeded; without one a single bucket is kept. */
  lemma CeilingHolds(limit: Limit, s: State, call: Call)
    requires Legal(limit, s, call) && |s.visitors| <= Max(limit.capacity, 1)
    ensures |Next(limit, s, call).visitors| <= Max(limit.capacity, 1)
  {
    var cleaned, kept := Cleaned(limit, s, call.now).visitors, Kept(limit, s, call);
    Fewer(cleaned, s.visitors);
    var next := Next(limit, s, call).visitors;
    assert next.Keys == kept.Keys + {call.identifier};
    if call.victim.Some? {
    } else if call.identifier in kept {
      assert next.Keys == kept.Keys;
    }
    assert |next| == |next.Keys| && |kept| == |kept.Keys|;
  }

  lemma {:induction false} CeilingHoldsAlong(limit: Limit, start: real, calls: seq<Call>)
    requires LegalRun(limit, State(map[], start), calls)
    ensures |StateAfter(limit, State(map[], start), calls).visitors| <= Max(limit.capacity, 1)
  {
    if calls != [] {
      var before := calls[..|calls| - 1];
      CeilingHoldsAlong(limit, start, before);
      CeilingHolds(limit, StateAfter(limit, State(map[], start), before), calls[|calls| - 1]);
    }
  }

  // ----- Without an eviction nothing is noticed -----

  /** An idle bucket is pruned no sooner than it has refilled. */
  predicate PrunesFullBuckets(limit: Limit) {
    limit.burst as real <= Refill(limit, limit.expiresIn)
  }

  lemma IdleIsFull(limit: Limit, v: Visitor, now: real)
    requires limit.rate >= 0.0 && PrunesFullBuckets(limit)
    requires SoundVisitor(limit, v, now) && Idle(limit, v, now)
    ensures Available(limit, v.bucket, now) == limit.burst as real
  {
    var elapsed := now - v.bucket.last;
    RefillGrows(limit, limit.expiresIn, elapsed);
    assert Available(limit, v.bucket, now) == Min(limit.burst as real, v.bucket.tokens + Refill(limit, elapsed));
  }

  lemma KeptTokens(limit: Limit, s: State, call: Call, clock: real, id: string)
    requires Sound(limit, s, clock) && clock <= call.now && PrunesFullBuckets(limit) && call.victim != Some(id)
    ensures Tokens(limit, Kept(limit, s, call), id, call.now) == Tokens(limit, s.visitors, id, call.now)
  {
    if id in s.visitors && id !in Kept(limit, s, call) {
      IdleIsFull(limit, s.visitors[id], call.now);
    }
  }

  ghost predicate SameTokens(limit: Limit, s: State, u: Buckets, id: string, now: real) {
    && Sound(limit, s, now) && SoundUnbounded(limit, u, now)
    && Tokens(limit, s.visitors, id, now) == TokensUnbounded(limit, u, id, now)
  }

  lemma SameTokensStep(limit: Limit, s: State, u: Buckets, id: string, clock: real, call: Call)
    requires SameTokens(limit, s, u, id, clock) && clock <= call.now && PrunesFullBuckets(limit) && call.victim != Some(id)
    ensures SameTokens(limit, Next(limit, s, call), NextUnbounded(limit, u, call), id, call.now)
    ensures call.identifier == id ==> (Decision(limit, s, call) <==> DecisionUnbounded(limit, u, call))
  {
    var refill := BothLater(limit, s, u, id, clock, call.now);
    KeptTokens(limit, s, call, clock, id);
    NextTokens(limit, s, call, clock, id);
    NextTokensUnbounded(limit, u, call, clock, id);
  }

  /** Main result: an identifier that is never evicted is treated request by request as without a ceiling. */
  lemma {:induction false} UnevictedIsUnnoticed(limit: Limit, start: real, calls: seq<Call>, id: string)
    requires limit.rate >= 0.0 && PrunesFullBuckets(limit) && Clocked(start, calls) && NeverEvicted(calls, id)
    ensures Admitted(limit, State(map[], start), calls, id) == AdmittedUnbounded(limit, map[], calls, id)
    ensures SameTokens(limit, StateAfter(limit, State(map[], start), calls), BucketsAfter(limit, map[], calls), id, ClockAfter(start, calls))
  {
    if calls != [] {
      var before, call := calls[..|calls| - 1], calls[|calls| - 1];
      var s0 := State(map[], start);
      UnevictedIsUnnoticed(limit, start, before, id);
      SameTokensStep(limit, StateAfter(limit, s0, before), BucketsAfter(limit, map[], before), id, ClockAfter(start, before), call);
    }
  }

  // ----- At most the burst and the rate -----

  /** What was admitted is paid for by what was there and what was refilled since. */
  lemma {:induction false} Spent(limit: Limit, s: State, from: real, window: seq<Call>, id: string)
    requires Sound(limit, s, from) && PrunesFullBuckets(limit) && Clocked(from, window) && NeverEvicted(window, id)
    ensures from <= ClockAfter(from, window)
    ensures Sound(limit, StateAfter(limit, s, window), ClockAfter(from, window))
    ensures Admitted(limit, s, window, id) as real + Tokens(limit, StateAfter(limit, s, window).visitors, id, ClockAfter(from, window)) <=
            limit.burst as real + Refill(limit, ClockAfter(from, window) - from)
  {
    if window == [] {
      TokensLater(limit, s, id, from, from);
    } else {
      var before, call := window[..|window| - 1], window[|window| - 1];
      Spent(limit, s, from, before, id);
      SpentStep(limit, StateAfter(limit, s, before), from, ClockAfter(from, before), call, id);
    }
  }

  lemma SpentStep(limit: Limit, s: State, from: real, clock: real, call: Call, id: string)
    requires Sound(limit, s, clock) && PrunesFullBuckets(limit) && from <= clock <= call.now && call.victim != Some(id)
    ensures Sound(limit, Next(limit, s, call), call.now)
    ensures Tokens(limit, Next(limit, s, call).visitors, id, call.now) +
            Taking(call.identifier == id && Decision(limit, s, call)) as real - Refill(limit, call.now - from) <=
            Tokens(limit, s.visitors, id, clock) - Refill(limit, clock - from)
  {
    TokensLater(limit, s, id, clock, call.now);
    KeptTokens(limit, s, call, clock, id);
    NextTokens(limit, s, call, clock, id);
  }

  lemma RefillGrows(limit: Limit, a: real, b: real)
    requires limit.rate >= 0.0 && a <= b
    ensures Refill(limit, a) <= Refill(limit, b)
  {
    assert Refill(limit, b) == Refill(limit, a) + limit.rate * (b - a);
  }

  lemma Paid(limit: Limit, s: State, from: real, window: seq<Call>, id: string)
    requires Sound(limit, s, from) && PrunesFullBuckets(limit) && Clocked(from, window) && NeverEvicted(window, id)
    ensures Admitted(limit, s, window, id) as real <= limit.burst as real + Refill(limit, ClockAfter(from, window) - from)
  {
    Spent(limit, s, from, window, id);
    TokensLater(limit, StateAfter(limit, s, window), id, ClockAfter(from, window), ClockAfter(from, window));
  }

  /** Main result: in any window of length `length` at most the burst and what the rate refills. */
  lemma WindowBound(limit: Limit, s: State, from: real, length: real, window: seq<Call>, id: string)
    requires Sound(limit, s, from) && PrunesFullBuckets(limit) && NeverEvicted(window, id)
    requires Clocked(from, window) && ClockAfter(from, window) <= from + length
    ensures Admitted(limit, s, window, id) as real <= limit.burst as real + Refill(limit, length)
  {
    Paid(limit, s, from, window, id);
    RefillGrows(limit, ClockAfter(from, window) - from, length);
  }

  // ----- Pruning before a bucket is full is noticed -----

  lemma {:induction false} SpentUnbounded(limit: Limit, from: real, window: seq<Call>, id: string)
    requires limit.rate >= 0.0 && Clocked(from, window)
    ensures from <= ClockAfter(from, window)
    ensures SoundUnbounded(limit, BucketsAfter(limit, map[], window), ClockAfter(from, window))
    ensures AdmittedUnbounded(limit, map[], window, id) as real +
            TokensUnbounded(limit, BucketsAfter(limit, map[], window), id, ClockAfter(from, window)) <=
            limit.burst as real + Refill(limit, ClockAfter(from, window) - from)
  {
    if window == [] {
      assert Refill(limit, 0.0) == 0.0;
    } else {
      var before, call := window[..|window| - 1], window[|window| - 1];
      SpentUnbounded(limit, from, before, id);
      SpentUnboundedStep(limit, BucketsAfter(limit, map[], before), from, ClockAfter(from, before), call, id);
    }
  }

  lemma SpentUnboundedStep(limit: Limit, u: Buckets, from: real, clock: real, call: Call, id: string)
    requires SoundUnbounded(limit, u, clock) && from <= clock <= call.now
    ensures SoundUnbounded(limit, NextUnbounded(limit, u, call), call.now)
    ensures TokensUnbounded(limit, NextUnbounded(limit, u, call), id, call.now) +
            Taking(call.identifier == id && DecisionUnbounded(limit, u, call)) as real - Refill(limit, call.now - from) <=
            TokensUnbounded(limit, u, id, clock) - Refill(limit, clock - from)
  {
    TokensLaterUnbounded(limit, u, id, clock, call.now);
    NextTokensUnbounded(limit, u, call, clock, id);
  }

  lemma PaidUnbounded(limit: Limit, from: real, window: seq<Call>, id: string)
    requires limit.rate >= 0.0 && Clocked(from, window)
    ensures AdmittedUnbounded(limit, map[], window, id) as real <= limit.burst as real + Refill(limit, ClockAfter(from, window) - from)
  {
    SpentUnbounded(limit, from, window, id);
    var u, now := BucketsAfter(limit, map[], window), ClockAfter(from, window);
    if id in u { RefillSplits(limit, u[id], now, now); }
  }

  /** The burst is used up at once, and again as soon as the bucket is pruned. */
  function Requests(limit: Limit, id: string, n: nat): seq<Call> {
    if n == 0 then []
    else Requests(limit, id, n - 1) + [Call(id, Reading(limit, n), None)]
  }

  /** The state when the last bucket created has handed out `n` tokens. */
  function Drained(limit: Limit, id: string, n: nat, now: real): State {
    State(map[id := Visitor(Bucket(limit.burst as real - n as real, now), now)], now)
  }

  lemma DrainOne(limit: Limit, s: State, id: string, n: nat, now: real)
    requires limit.rate >= 0.0 && limit.expiresIn > 0.0 && n < limit.burst
    requires if n > 0 then s == Drained(limit, id, n, now)
             else s == State(map[], now) || (s == Drained(limit, id, limit.burst, 0.0) && now == limit.expiresIn)
    ensures var call := Call(id, now, None);
            Legal(limit, s, call) && Decision(limit, s, call) && Next(limit, s, call) == Drained(limit, id, n + 1, now)
  {
    var call := Call(id, now, None);
    if n > 0 {
      assert limit.rate * 0.0 == 0.0;
      assert Kept(limit, s, call) == s.visitors;
    } else {
      assert Kept(limit, s, call) == map[];
    }
  }

  function Reading(limit: Limit, n: nat): real {
    if n <= limit.burst then 0.0 else limit.expiresIn
  }

  /** The state after `n` of the requests. */
  function DrainedBy(limit: Limit, id: string, n: nat): State {
    if n == 0 then State(map[], 0.0)
    else if n <= limit.burst then Drained(limit, id, n, 0.0)
    else Drained(limit, id, n - limit.burst, limit.expiresIn)
  }

  ghost predicate AllTaken(limit: Limit, id: string, calls: seq<Call>, n: nat) {
    && NeverEvicted(calls, id) && Clocked(0.0, calls) && ClockAfter(0.0, calls) == Reading(limit, n)
    && LegalRun(limit, State(map[], 0.0), calls) && Admitted(limit, State(map[], 0.0), calls, id) == n
    && StateAfter(limit, State(map[], 0.0), calls) == DrainedBy(limit, id, n)
  }

  lemma AllTakenStep(limit: Limit, id: string, calls: seq<Call>, n: nat)
    requires limit.rate >= 0.0 && limit.expiresIn > 0.0 && 0 < n <= 2 * limit.burst && AllTaken(limit, id, calls, n - 1)
    ensures AllTaken(limit, id, calls + [Call(id, Reading(limit, n), None)], n)
  {
    var call := Call(id, Reading(limit, n), None);
    assert (calls + [call])[..|calls|] == calls;
    var s := DrainedBy(limit, id, n - 1);
    if n <= limit.burst {
      DrainOne(limit, s, id, n - 1, 0.0);
    } else {
      DrainOne(limit, s, id, n - 1 - limit.burst, limit.expiresIn);
    }
  }

  lemma {:induction false} AllAdmitted(limit: Limit, id: string, n: nat)
    requires limit.rate >= 0.0 && limit.expiresIn > 0.0 && n <= 2 * limit.burst
    ensures AllTaken(limit, id, Requests(limit, id, n), n)
  {
    if n > 0 {
      AllAdmitted(limit, id, n - 1);
      AllTakenStep(limit, id, Requests(limit, id, n - 1), n);
    }
  }

  ghost predicate NoticesNothing(limit: Limit, calls: seq<Call>, id: string) {
    LegalRun(limit, State(map[], 0.0), calls) && Clocked(0.0, calls) && NeverEvicted(calls, id) ==>
      Admitted(limit, State(map[], 0.0), calls, id) == AdmittedUnbounded(limit, map[], calls, id)
  }

  lemma EarlyPruneIsNoticed(limit: Limit, n: nat)
    requires limit.rate >= 0.0 && limit.expiresIn > 0.0 && !PrunesFullBuckets(limit) && n == 2 * limit.burst
    ensures !NoticesNothing(limit, Requests(limit, "a", n), "a")
  {
    var calls := Requests(limit, "a", n);
    AllAdmitted(limit, "a", n);
    PaidUnbounded(limit, 0.0, calls, "a");
    assert AdmittedUnbounded(limit, map[], calls, "a") as real < n as real;
  }

  /** Pruning goes unnoticed exactly when a bucket refills within the time it is kept idle. */
  lemma PruningUnnoticedExactly(limit: Limit)
    requires limit.rate >= 0.0 && limit.expiresIn > 0.0
    ensures PrunesFullBuckets(limit) <==> forall calls, id :: NoticesNothing(limit, calls, id)
  {
    if PrunesFullBuckets(limit) {
      forall calls, id ensures NoticesNothing(limit, calls, id) {
        if Clocked(0.0, calls) && NeverEvicted(calls, id) { UnevictedIsUnnoticed(limit, 0.0, calls, id); }
      }
    } else {
      EarlyPruneIsNoticed(limit, 2 * limit.burst);
    }
  }

  // ----- Request by request, eviction is not permissive -----

  /** A legal run on an advancing clock that has brought both limiters here. */
  ghost predicate ComesTo(limit: Limit, calls: seq<Call>, s: State, u: Buckets, now: real) {
    && LegalRun(limit, State(map[], 0.0), calls) && Clocked(0.0, calls) && ClockAfter(0.0, calls) == now
    && StateAfter(limit, State(map[], 0.0), calls) == s && BucketsAfter(limit, map[], calls) == u
  }

  lemma ComesFurther(limit: Limit, calls: seq<Call>, s: State, u: Buckets, now: real, call: Call)
    requires ComesTo(limit, calls, s, u, now) && Legal(limit, s, call) && now <= call.now
    ensures ComesTo(limit, calls + [call], Next(limit, s, call), NextUnbounded(limit, u, call), call.now)
  {
    assert (calls + [call])[..|calls|] == calls;
  }

  /** `id` was used up at the start; without a ceiling it still has the bucket to show for it. */
  predicate UsedUp(u: Buckets, id: string) {
    id in u && u[id] == Bucket(0.0, 0.0)
  }

  lemma DrainsOne(limit: Limit, id: string, n: nat)
    requires 0 < n <= limit.burst
    ensures var u: Buckets := if n == 1 then map[] else map[id := Bucket(limit.burst as real - (n - 1) as real, 0.0)];
            NextUnbounded(limit, u, Call(id, 0.0, None)) == map[id := Bucket(limit.burst as real - n as real, 0.0)]
  {
    var u: Buckets := if n == 1 then map[] else map[id := Bucket(limit.burst as real - (n - 1) as real, 0.0)];
    assert limit.rate * 0.0 == 0.0;
    assert Available(limit, Unbounded(limit, u, id, 0.0), 0.0) == limit.burst as real - (n - 1) as real;
  }

  lemma {:induction false} DrainsUnbounded(limit: Limit, id: string, n: nat)
    requires 0 < n <= limit.burst
    ensures BucketsAfter(limit, map[], Requests(limit, id, n)) == map[id := Bucket(limit.burst as real - n as real, 0.0)]
  {
    var before, call := Requests(limit, id, n - 1), Call(id, Reading(limit, n), None);
    assert (before + [call])[..|before|] == before;
    DrainsOne(limit, id, n);
    if n > 1 { DrainsUnbounded(limit, id, n - 1); }
  }

  /** `n` identifiers, `id` among them, all seen at the start. */
  ghost predicate Crowded(s: State, id: string, n: nat) {
    && s.lastCleanup == 0.0 && |s.visitors| == n && id in s.visitors
    && forall other | other in s.visitors :: s.visitors[other].lastSeen == 0.0 && |other| < |id| + n
  }

  /** A name longer than any before. */
  function Newcomer(id: string, n: nat): string {
    id + seq(n, _ => 'x')
  }

  lemma OneMore(visitors: Visitors, id: string, v: Visitor)
    requires id !in visitors
    ensures |visitors[id := v]| == |visitors| + 1
  {
    assert visitors[id := v].Keys == visitors.Keys + {id};
    assert |visitors[id := v]| == |visitors[id := v].Keys| && |visitors| == |visitors.Keys|;
  }

  lemma Joins(limit: Limit, s: State, u: Buckets, id: string, n: nat)
    requires limit.expiresIn > 0.0 && 0 < n < limit.capacity && Crowded(s, id, n) && UsedUp(u, id)
    ensures var call := Call(Newcomer(id, n), 0.0, None);
            Legal(limit, s, call) && Crowded(Next(limit, s, call), id, n + 1) && UsedUp(NextUnbounded(limit, u, call), id)
  {
    var call := Call(Newcomer(id, n), 0.0, None);
    assert call.identifier !in s.visitors && |id| < |call.identifier|;
    assert Kept(limit, s, call) == s.visitors;
    OneMore(s.visitors, call.identifier, Next(limit, s, call).visitors[call.identifier]);
  }

  /** As many identifiers as the ceiling allows, and `id` used up. */
  lemma {:induction false} Fills(limit: Limit, id: string, n: nat) returns (calls: seq<Call>, s: State, u: Buckets)
    requires limit.rate >= 0.0 && limit.burst > 0 && limit.expiresIn > 0.0 && 0 < n <= Max(limit.capacity, 1)
    ensures ComesTo(limit, calls, s, u, 0.0) && Crowded(s, id, n) && UsedUp(u, id)
  {
    if n == 1 {
      calls := Requests(limit, id, limit.burst);
      AllAdmitted(limit, id, limit.burst);
      DrainsUnbounded(limit, id, limit.burst);
      s, u := Drained(limit, id, limit.burst, 0.0), map[id := Bucket(0.0, 0.0)];
    } else {
      var before, s0, u0 := Fills(limit, id, n - 1);
      var call := Call(Newcomer(id, n - 1), 0.0, None);
      Joins(limit, s0, u0, id, n - 1);
      ComesFurther(limit, before, s0, u0, 0.0, call);
      calls, s, u := before + [call], Next(limit, s0, call), NextUnbounded(limit, u0, call);
    }
  }

  lemma Displaces(limit: Limit, s: State, u: Buckets, id: string, n: nat)
    requires limit.expiresIn > 0.0 && 0 < n && limit.capacity <= n && Crowded(s, id, n) && UsedUp(u, id)
    ensures var call := Call(Newcomer(id, n), 0.0, Some(id));
            Legal(limit, s, call) && id !in Next(limit, s, call).visitors && UsedUp(NextUnbounded(limit, u, call), id)
  {
    var call := Call(Newcomer(id, n), 0.0, Some(id));
    assert |id| < |call.identifier| && call.identifier !in s.visitors;
    assert Cleaned(limit, s, 0.0) == s;
    assert s.visitors != map[];
  }

  /** The capped limiter's bucket of `id`, made and last used at `now`. */
  predicate HasLeft(s: State, id: string, k: nat, now: real) {
    id in s.visitors && s.visitors[id] == Visitor(Bucket(k as real, now), now)
  }

  /** Without a ceiling the bucket is refused until it has refilled, so it does not change. */
  lemma StaysUsedUp(limit: Limit, u: Buckets, id: string, now: real, victim: Option<string>)
    requires UsedUp(u, id) && now >= 0.0 && Refill(limit, now) < 1.0
    ensures UsedUp(NextUnbounded(limit, u, Call(id, now, victim)), id)
  {
    assert Available(limit, u[id], now) <= Refill(limit, now);
  }

  lemma Returns(limit: Limit, s: State, id: string, now: real) returns (call: Call)
    requires limit.burst > 0 && id !in s.visitors
    ensures call.identifier == id && call.now == now && Legal(limit, s, call)
    ensures HasLeft(Next(limit, s, call), id, limit.burst - 1, now)
  {
    var visitors := Cleaned(limit, s, now).visitors;
    assert id !in visitors;
    if MakesRoom(limit, visitors, id) {
      var victim :| victim in visitors;
      call := Call(id, now, Some(victim));
    } else {
      call := Call(id, now, None);
    }
    assert limit.rate * 0.0 == 0.0;
    assert id !in Kept(limit, s, call);
  }

  lemma Stays(limit: Limit, s: State, id: string, k: nat, now: real, later: real)
    requires HasLeft(s, id, k, now) && later - now < limit.expiresIn
    ensures Legal(limit, s, Call(id, later, None)) && id in Kept(limit, s, Call(id, later, None))
    ensures Kept(limit, s, Call(id, later, None))[id] == s.visitors[id]
  {
  }

  lemma SpendsOne(limit: Limit, s: State, id: string, k: nat, now: real)
    requires limit.expiresIn > 0.0 && 0 < k <= limit.burst && HasLeft(s, id, k, now)
    ensures Legal(limit, s, Call(id, now, None)) && HasLeft(Next(limit, s, Call(id, now, None)), id, k - 1, now)
  {
    Stays(limit, s, id, k, now, now);
    assert limit.rate * 0.0 == 0.0;
    assert Available(limit, s.visitors[id].bucket, now) == k as real;
  }

  lemma {:induction false} SpendsAll(limit: Limit, calls: seq<Call>, s: State, u: Buckets, id: string, k: nat, now: real)
      returns (all: seq<Call>, s1: State, u1: Buckets)
    requires limit.expiresIn > 0.0 && k <= limit.burst && now >= 0.0 && Refill(limit, now) < 1.0
    requires ComesTo(limit, calls, s, u, now) && HasLeft(s, id, k, now) && UsedUp(u, id)
    ensures ComesTo(limit, all, s1, u1, now) && HasLeft(s1, id, 0, now) && UsedUp(u1, id)
    decreases k
  {
    if k == 0 {
      all, s1, u1 := calls, s, u;
    } else {
      var call := Call(id, now, None);
      SpendsOne(limit, s, id, k, now);
      ComesFurther(limit, calls, s, u, now, call);
      StaysUsedUp(limit, u, id, now, None);
      all, s1, u1 := SpendsAll(limit, calls + [call], Next(limit, s, call), NextUnbounded(limit, u, call), id, k - 1, now);
    }
  }

  /** A return early enough to be refused without a ceiling, and late enough not to be refilled or pruned in time. */
  lemma ReturnTime(limit: Limit) returns (back: real, refilled: real)
    requires limit.rate > 0.0 && limit.expiresIn > 0.0
    ensures 0.0 < back < refilled && refilled - back < limit.expiresIn
    ensures Refill(limit, refilled) == 1.0 && Refill(limit, back) < 1.0 && Refill(limit, refilled - back) < 1.0
  {
    refilled := 1.0 / limit.rate;
    assert Refill(limit, refilled) == 1.0;
    var gap := Min(refilled, limit.expiresIn) / 2.0;
    back := refilled - gap;
    assert Refill(limit, back) == Refill(limit, refilled) - Refill(limit, gap);
    assert Refill(limit, gap) > 0.0;
    assert Refill(limit, back) > 0.0;
  }

  lemma RefusedTooEarly(limit: Limit, s: State, u: Buckets, id: string, back: real, refilled: real)
    requires limit.burst > 0 && 0.0 < back < refilled && refilled - back < limit.expiresIn
    requires Refill(limit, refilled) == 1.0 && Refill(limit, refilled - back) < 1.0
    requires HasLeft(s, id, 0, back) && UsedUp(u, id)
    ensures var call := Call(id, refilled, None);
            Legal(limit, s, call) && !Decision(limit, s, call) && DecisionUnbounded(limit, u, call)
  {
    Stays(limit, s, id, 0, back, refilled);
    assert Available(limit, u[id], refilled) == Min(limit.burst as real, Refill(limit, refilled));
    assert Available(limit, s.visitors[id].bucket, refilled) <= Refill(limit, refilled - back);
  }

  /**
   Under every ceiling: an identifier uses up its bucket and is evicted for a newcomer, returns just
   before it would have a token again, uses up the fresh bucket, and is refused when it would have had one.
   */
  lemma EvictionCostsOneRequest(limit: Limit) returns (calls: seq<Call>, last: Call)
    requires limit.rate > 0.0 && limit.burst > 0 && limit.expiresIn > 0.0
    ensures !NeverDeniesMore(limit, calls, last)
  {
    var id, n := "a", Max(limit.capacity, 1);
    var back, refilled := ReturnTime(limit);
    var c1, s1, u1 := Fills(limit, id, n);
    Displaces(limit, s1, u1, id, n);
    var newcomer := Call(Newcomer(id, n), 0.0, Some(id));
    ComesFurther(limit, c1, s1, u1, 0.0, newcomer);
    var c2, s2, u2 := c1 + [newcomer], Next(limit, s1, newcomer), NextUnbounded(limit, u1, newcomer);
    var again := Returns(limit, s2, id, back);
    ComesFurther(limit, c2, s2, u2, 0.0, again);
    StaysUsedUp(limit, u2, id, back, again.victim);
    var c3, s3, u3 := SpendsAll(limit, c2 + [again], Next(limit, s2, again), NextUnbounded(limit, u2, again), id, limit.burst - 1, back);
    calls, last := c3, Call(id, refilled, None);
    RefusedTooEarly(limit, s3, u3, id, back, refilled);
    ComesFurther(limit, c3, s3, u3, back, last);
  }

  /** After `calls`, the capped limiter does not refuse a request that the other one admits. */
  ghost predicate NeverDeniesMore(limit: Limit, calls: seq<Call>, last: Call) {
    LegalRun(limit, State(map[], 0.0), calls + [last]) && Clocked(0.0, calls + [last]) &&
    DecisionUnbounded(limit, BucketsAfter(limit, map[], calls), last) ==>
      Decision(limit, StateAfter(limit, State(map[], 0.0), calls), last)
  }

  // ----- Without a refill nothing has to be repaid -----

  /** Tokens never come back, so both have whole tokens and the capped limiter at least as many. */
  ghost predicate WholeAndAhead(limit: Limit, s: State, u: Buckets, id: string, left: nat, now: real) {
    && Sound(limit, s, now) && SoundUnbounded(limit, u, now)
    && TokensUnbounded(limit, u, id, now) == left as real
    && Tokens(limit, s.visitors, id, now) >= left as real
  }

  lemma NoRefill(limit: Limit, s: State, u: Buckets, id: string, left: nat, now: real, later: real)
    requires limit.rate == 0.0 && now <= later && WholeAndAhead(limit, s, u, id, left, now)
    ensures WholeAndAhead(limit, s, u, id, left, later)
  {
    var refill := BothLater(limit, s, u, id, now, later);
    TokensLater(limit, s, id, now, later);
    TokensLaterUnbounded(limit, u, id, now, later);
    assert Refill(limit, later - now) == 0.0;
    if id in u { RefillSplits(limit, u[id], now, now); }
  }

  lemma WholeStep(limit: Limit, s: State, u: Buckets, id: string, left: nat, clock: real, call: Call) returns (after: nat)
    requires limit.rate == 0.0 && clock <= call.now && WholeAndAhead(limit, s, u, id, left, clock)
    ensures WholeAndAhead(limit, Next(limit, s, call), NextUnbounded(limit, u, call), id, after, call.now)
    ensures call.identifier == id && DecisionUnbounded(limit, u, call) ==> Decision(limit, s, call)
  {
    NoRefill(limit, s, u, id, left, clock, call.now);
    NextTokens(limit, s, call, clock, id);
    NextTokensUnbounded(limit, u, call, clock, id);
    after := if call.identifier == id && DecisionUnbounded(limit, u, call) then left - 1 else left;
    TokensLater(limit, Next(limit, s, call), id, call.now, call.now);
  }

  lemma {:induction false} WholeAlong(limit: Limit, calls: seq<Call>, id: string) returns (left: nat)
    requires limit.rate == 0.0 && Clocked(0.0, calls)
    ensures WholeAndAhead(limit, StateAfter(limit, State(map[], 0.0), calls), BucketsAfter(limit, map[], calls), id, left, ClockAfter(0.0, calls))
  {
    if calls == [] {
      left := limit.burst;
    } else {
      var before, call := calls[..|calls| - 1], calls[|calls| - 1];
      var had := WholeAlong(limit, before, id);
      left := WholeStep(limit, StateAfter(limit, State(map[], 0.0), before), BucketsAfter(limit, map[], before), id, had,
        ClockAfter(0.0, before), call);
    }
  }

  lemma NeverWithoutRefill(limit: Limit, calls: seq<Call>, last: Call)
    requires limit.rate == 0.0 || (limit.rate > 0.0 && limit.burst == 0)
    ensures NeverDeniesMore(limit, calls, last)
  {
    if limit.rate == 0.0 && Clocked(0.0, calls + [last]) {
      assert (calls + [last])[..|calls|] == calls;
      var left := WholeAlong(limit, calls, last.identifier);
      var after := WholeStep(limit, StateAfter(limit, State(map[], 0.0), calls), BucketsAfter(limit, map[], calls), last.identifier,
        left, ClockAfter(0.0, calls), last);
    }
  }

  /**
   Main result: eviction never denies a request the limiter would otherwise have admitted exactly when
   tokens never come back or there are none. No limiter in use is like that.
   */
  lemma EvictionNeverDeniesExactly(limit: Limit)
    requires limit.rate >= 0.0 && limit.expiresIn > 0.0
    ensures (forall calls, last :: NeverDeniesMore(limit, calls, last)) <==> limit.rate == 0.0 || limit.burst == 0
  {
    if limit.rate == 0.0 || limit.burst == 0 {
      forall calls, last ensures NeverDeniesMore(limit, calls, last) {
        NeverWithoutRefill(limit, calls, last);
      }
    } else {
      var calls, last := EvictionCostsOneRequest(limit);
    }
  }
}
