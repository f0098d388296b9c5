/**
 A capped map of token buckets with pruning and arbitrary eviction. Time and tokens are real numbers;
 the clock's readings and the evicted bucket are inputs.
 */
module RateLimiter {
  import opened Ordering

  datatype Limit = Limit(rate: real, burst: nat, capacity: nat, expiresIn: real)

  datatype Bucket = Bucket(tokens: real, last: real)

  datatype Visitor = Visitor(bucket: Bucket, lastSeen: real)

  type Visitors = map<string, Visitor>

  /** One request: who, when, and the bucket dropped to make room for it, if any. */
  datatype Call = Call(identifier: string, now: real, victim: Option<string>)

  datatype State = State(visitors: Visitors, lastCleanup: real)

  function Min(a: real, b: real): real {
    if a < b then a else b
  }

  function Max(a: nat, b: nat): nat {
    if a < b then b else a
  }

  // ----- One bucket -----

  /** A bucket as it is created: full. */
  function Full(limit: Limit, now: real): Bucket {
    Bucket(limit.burst as real, now)
  }

  /** The tokens of a bucket once it is refilled up to `now`; a clock that went back refills nothing. */
  function Available(limit: Limit, b: Bucket, now: real): real {
    var elapsed := if now < b.last then 0.0 else now - b.last;
    Min(limit.burst as real, b.tokens + limit.rate * elapsed)
  }

  predicate Admits(limit: Limit, b: Bucket, now: real) {
    Available(limit, b, now) >= 1.0
  }

  /** Taking a token. A denied request leaves the bucket as it is, its refill included. */
  function Taken(limit: Limit, b: Bucket, now: real): Bucket {
    if Admits(limit, b, now) then Bucket(Available(limit, b, now) - 1.0, now) else b
  }

  // ----- One call -----

  predicate Idle(limit: Limit, v: Visitor, now: real) {
    now - v.lastSeen >= limit.expiresIn
  }

  function Unexpired(limit: Limit, visitors: Visitors, now: real): Visitors {
    map id | id in visitors && !Idle(limit, visitors[id], now) :: visitors[id]
  }

  function Cleaned(limit: Limit, s: State, now: real): State {
    if now - s.lastCleanup >= limit.expiresIn then State(Unexpired(limit, s.visitors, now), now) else s
  }

  predicate MakesRoom(limit: Limit, visitors: Visitors, identifier: string) {
    identifier !in visitors && |visitors| >= limit.capacity && visitors != map[]
  }

  /** The victim is some tracked identifier exactly when room has to be made. */
  predicate Legal(limit: Limit, s: State, call: Call) {
    var visitors := Cleaned(limit, s, call.now).visitors;
    if MakesRoom(limit, visitors, call.identifier) then call.victim.Some? && call.victim.value in visitors
    else call.victim == None
  }

  function WithRoom(visitors: Visitors, victim: Option<string>): Visitors {
    if victim.Some? then visitors - {victim.value} else visitors
  }

  /** What the request finds: the kept buckets, after cleaning up and making room. */
  function Kept(limit: Limit, s: State, call: Call): Visitors {
    WithRoom(Cleaned(limit, s, call.now).visitors, call.victim)
  }

  function BucketFor(limit: Limit, visitors: Visitors, identifier: string, now: real): Bucket {
    if identifier in visitors then visitors[identifier].bucket else Full(limit, now)
  }

  function Next(limit: Limit, s: State, call: Call): State {
    var visitors := Kept(limit, s, call);
    var bucket := Taken(limit, BucketFor(limit, visitors, call.identifier, call.now), call.now);
    State(visitors[call.identifier := Visitor(bucket, call.now)], Cleaned(limit, s, call.now).lastCleanup)
  }

  predicate Decision(limit: Limit, s: State, call: Call) {
    Admits(limit, BucketFor(limit, Kept(limit, s, call), call.identifier, call.now), call.now)
  }

  /** boundedRateLimiterStore */
  class Store {
    const limit: Limit
    var visitors: Visitors
    var lastCleanup: real

    constructor (limit: Limit, now: real)
      ensures this.limit == limit && Contents() == State(map[], now)
    {
      this.limit := limit;
      visitors, lastCleanup := map[], now;
    }

    function Contents(): State
      reads this
    {
      State(visitors, lastCleanup)
    }

    /** Allow */
    method Allow(identifier: string, now: real) returns (allowed: bool, victim: Option<string>)
      modifies this
      ensures Legal(limit, old(Contents()), Call(identifier, now, victim))
      ensures Contents() == Next(limit, old(Contents()), Call(identifier, now, victim))
      ensures allowed == Decision(limit, old(Contents()), Call(identifier, now, victim))
    {
      if now - lastCleanup >= limit.expiresIn {
        Prune(now);
        lastCleanup := now;
      }
      assert Contents() == Cleaned(limit, old(Contents()), now);
      ghost var cleaned := visitors;
      victim := Enter(identifier, now);
      allowed := Take(identifier, now);
      ghost var kept := WithRoom(cleaned, victim);
      assert kept == Kept(limit, old(Contents()), Call(identifier, now, victim));
    }

    /** Creates the bucket of an identifier that has none, making room for it at the ceiling. */
    method Enter(identifier: string, now: real) returns (victim: Option<string>)
      modifies this`visitors
      ensures if MakesRoom(limit, old(visitors), identifier) then victim.Some? && victim.value in old(visitors) else victim == None
      ensures visitors == (if identifier in old(visitors) then old(visitors)
                           else WithRoom(old(visitors), victim)[identifier := Visitor(Full(limit, now), now)])
    {
      victim := None;
      if identifier !in visitors {
        if |visitors| >= limit.capacity {
          victim := Evict();
        }
        visitors := visitors[identifier := Visitor(Full(limit, now), now)];
      }
    }

    /** AllowN(now, 1) on the identifier's bucket, which is seen whatever the answer. */
    method Take(identifier: string, now: real) returns (allowed: bool)
      requires identifier in visitors
      modifies this`visitors
      ensures allowed == Admits(limit, old(visitors)[identifier].bucket, now)
      ensures visitors == old(visitors)[identifier := Visitor(Taken(limit, old(visitors)[identifier].bucket, now), now)]
    {
      var bucket := visitors[identifier].bucket;
      var tokens := Available(limit, bucket, now) - 1.0;
      allowed := tokens >= 0.0;
      if allowed {
        bucket := Bucket(tokens, now);
      }
      visitors := visitors[identifier := Visitor(bucket, now)];
    }

    /** pruneLocked */
    method Prune(now: real)
      modifies this`visitors
      ensures visitors == Unexpired(limit, old(visitors), now)
    {
      var identifiers := Listing(visitors.Keys);
      ghost var before := visitors;
      for i := 0 to |identifiers|
        invariant visitors == UnexpiredAmong(limit, before, identifiers[..i], now)
      {
        var identifier := identifiers[i];
        assert identifier in before;
        if Idle(limit, visitors[identifier], now) {
          visitors := visitors - {identifier};
        }
      }
      assert identifiers[..|identifiers|] == identifiers;
      assert visitors == Unexpired(limit, before, now);
    }

    /** evictLocked: drops whichever bucket comes first. */
    method Evict() returns (victim: Option<string>)
      modifies this`visitors
      ensures victim.Some? <==> old(visitors) != map[]
      ensures victim.Some? ==> victim.value in old(visitors)
      ensures visitors == WithRoom(old(visitors), victim)
    {
      victim := None;
      if visitors != map[] {
        var identifier :| identifier in visitors;
        visitors := visitors - {identifier};
        victim := Some(identifier);
      }
    }
  }

  function UnexpiredAmong(limit: Limit, visitors: Visitors, seen: seq<string>, now: real): Visitors {
    map id | id in visitors && !(id in seen && Idle(limit, visitors[id], now)) :: visitors[id]
  }

}
