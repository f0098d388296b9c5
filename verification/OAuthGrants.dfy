/**
 Grants of connected apps: one row per authorization, whose refresh credential rotates in place and
 whose revocation is final. A refresh presents the stored digest, as in section 6 of RFC 6749.
 */
module OAuthGrants {
  import opened Ordering

  datatype Grant = Grant(tokenHash: string, clientId: string, userId: int, kind: string, resource: string, scope: string,
                         expiresAt: int, createdAt: int, lastToolCallAt: Option<int>, revokedAt: Option<int>, revokedBy: Option<int>)

  type Grants = map<nat, Grant>

  datatype NewGrant = NewGrant(tokenHash: string, clientId: string, userId: int, kind: string, resource: string, scope: string,
                               expiresAt: int, createdAt: int)

  /** The digest column is unique: a write that would repeat one fails. */
  datatype Rotation = Rotated(id: nat) | Refused | Failed

  // ----- Statements -----

  predicate HashTaken(grants: Grants, tokenHash: string) {
    exists id | id in grants :: grants[id].tokenHash == tokenHash
  }

  function Issued(create: NewGrant): Grant {
    Grant(create.tokenHash, create.clientId, create.userId, if create.kind == "" then "mcp" else create.kind, create.resource,
          create.scope, create.expiresAt, create.createdAt, None, None, None)
  }

  /** The single-use gate: the presented digest, the client it was issued to, not revoked, not expired. */
  predicate Redeemable(g: Grant, clientId: string, tokenHash: string, now: int) {
    g.tokenHash == tokenHash && g.clientId == clientId && g.revokedAt.None? && g.expiresAt > now
  }

  predicate Live(grants: Grants, id: int, userId: int, clientId: string, now: int) {
    id >= 0 && id in grants && grants[id].userId == userId && grants[id].clientId == clientId &&
    grants[id].revokedAt.None? && grants[id].expiresAt > now
  }

  function RevokedGrant(g: Grant, at: int, revoker: Option<int>): Grant {
    if g.revokedAt.None? then g.(revokedAt := Some(at), revokedBy := revoker) else g
  }

  function Revoked(grants: Grants, id: int, at: int, revoker: Option<int>): Grants {
    if id >= 0 && id in grants then grants[id := RevokedGrant(grants[id], at, revoker)] else grants
  }

  function RevokedAll(grants: Grants, userId: int, clientId: string, at: int, revoker: Option<int>): Grants {
    map id | id in grants ::
      if grants[id].userId == userId && grants[id].clientId == clientId then RevokedGrant(grants[id], at, revoker) else grants[id]
  }

  predicate Touches(grants: Grants, id: int, cutoff: int) {
    id >= 0 && id in grants && grants[id].revokedAt.None? &&
    (grants[id].lastToolCallAt.None? || grants[id].lastToolCallAt.value < cutoff)
  }

  function Touched(grants: Grants, id: int, at: int, cutoff: int): Grants {
    if Touches(grants, id, cutoff) then grants[id as nat := grants[id].(lastToolCallAt := Some(at))] else grants
  }

  function Unexpired(grants: Grants, before: int): Grants {
    map id | id in grants && grants[id].expiresAt >= before :: grants[id]
  }

  /** No two rows share a digest. */
  ghost predicate UniqueHashes(grants: Grants) {
    forall a, b | a in grants && b in grants && grants[a].tokenHash == grants[b].tokenHash :: a == b
  }

  /** What a rotation, a revocation and a touch leave alone. */
  predicate SameGrant(a: Grant, b: Grant) {
    a.clientId == b.clientId && a.userId == b.userId && a.kind == b.kind && a.resource == b.resource &&
    a.scope == b.scope && a.createdAt == b.createdAt
  }

  /** Every grant stays the same grant, and its first revocation with its revoker stays. */
  ghost predicate KeepsGrants(before: Grants, after: Grants) {
    && before.Keys == after.Keys
    && forall id | id in before :: SameGrant(before[id], after[id]) &&
         (before[id].revokedAt.Some? ==> after[id].revokedAt == before[id].revokedAt && after[id].revokedBy == before[id].revokedBy)
  }

  /** Only the row under the id may differ. */
  ghost predicate OnlyRowAt(before: Grants, after: Grants, id: int) {
    before.Keys == after.Keys && forall other | other in before && other != id :: after[other] == before[other]
  }

  /** The row is the presenting client's, with the presented digest, neither revoked nor expired. */
  predicate HoldsCredential(grants: Grants, id: nat, clientId: string, tokenHash: string, now: int) {
    && id in grants && grants[id].clientId == clientId && grants[id].tokenHash == tokenHash
    && grants[id].revokedAt == None && now < grants[id].expiresAt
  }

  /** What a rotation does, given that digests are unique. */
  ghost predicate Rotates(before: Grants, after: Grants, clientId: string, oldHash: string, newHash: string, expiresAt: int, now: int, r: Rotation) {
    match r
    case Rotated(id) =>
      && id in before && Redeemable(before[id], clientId, oldHash, now)
      && (newHash != oldHash ==> !HashTaken(before, newHash))
      && after == before[id := before[id].(tokenHash := newHash, expiresAt := expiresAt)]
    case Refused => after == before && forall id | id in before :: !Redeemable(before[id], clientId, oldHash, now)
    case Failed => after == before && newHash != oldHash && HashTaken(before, newHash)
  }

  class Store {
    var grants: Grants
    var nextId: nat

    constructor ()
      ensures grants == map[] && nextId == 1
    {
      grants, nextId := map[], 1;
    }

    /** CreateOAuthGrant */
    method Create(create: NewGrant) returns (id: Option<nat>)
      modifies this
      ensures id.None? <==> exists other :: other in old(grants) && old(grants)[other].tokenHash == create.tokenHash
      ensures id.None? ==> grants == old(grants) && nextId == old(nextId)
      ensures id.Some? ==> id.value == old(nextId) && nextId == old(nextId) + 1 && grants == old(grants)[id.value := Issued(create)]
      ensures id.Some? ==>
                && id.value in grants && grants[id.value].tokenHash == create.tokenHash && grants[id.value].clientId == create.clientId
                && grants[id.value].userId == create.userId && grants[id.value].scope == create.scope
                && grants[id.value].resource == create.resource && grants[id.value].expiresAt == create.expiresAt
                && grants[id.value].createdAt == create.createdAt
                && grants[id.value].kind == (if create.kind == "" then "mcp" else create.kind)
                && grants[id.value].lastToolCallAt == None && grants[id.value].revokedAt == None && grants[id.value].revokedBy == None
    {
      if HashTaken(grants, create.tokenHash) {
        return None;
      }
      var kind := create.kind;
      if kind == "" {
        kind := "mcp";
      }
      id := Some(nextId);
      grants := grants[nextId := Grant(create.tokenHash, create.clientId, create.userId, kind, create.resource, create.scope,
                                       create.expiresAt, create.createdAt, None, None, None)];
      nextId := nextId + 1;
    }

    /** GetOAuthGrant: a revoked grant is returned as it is. */
    method Get(clientId: string, tokenHash: string) returns (g: Option<Grant>)
      requires UniqueHashes(grants)
      ensures g.Some? ==> g.value.clientId == clientId && g.value.tokenHash == tokenHash && exists id :: id in grants && grants[id] == g.value
      ensures g.None? ==> forall id | id in grants :: grants[id].clientId != clientId || grants[id].tokenHash != tokenHash
    {
      if id :| id in grants && grants[id].clientId == clientId && grants[id].tokenHash == tokenHash {
        g := Some(grants[id]);
      } else {
        g := None;
      }
    }

    /** RotateOAuthGrant */
    method Rotate(clientId: string, oldHash: string, newHash: string, expiresAt: int, now: int) returns (r: Rotation)
      requires UniqueHashes(grants)
      modifies this`grants
      ensures Rotates(old(grants), grants, clientId, oldHash, newHash, expiresAt, now, r)
      ensures r.Rotated? ==> HoldsCredential(old(grants), r.id, clientId, oldHash, now) && OnlyRowAt(old(grants), grants, r.id)
      ensures r.Rotated? ==> SameGrant(old(grants)[r.id], grants[r.id]) && grants[r.id].tokenHash == newHash && grants[r.id].expiresAt == expiresAt
      ensures r.Refused? <==> forall id | id in old(grants) :: !HoldsCredential(old(grants), id, clientId, oldHash, now)
      ensures !r.Rotated? ==> grants == old(grants)
      ensures UniqueHashes(grants)
    {
      if id :| id in grants && Redeemable(grants[id], clientId, oldHash, now) {
        if newHash != oldHash && HashTaken(grants, newHash) {
          return Failed;
        }
        grants := grants[id := grants[id].(tokenHash := newHash, expiresAt := expiresAt)];
        r := Rotated(id);
      } else {
        r := Refused;
      }
    }

    /** RevokeOAuthGrant: the first revoker is kept. */
    method Revoke(id: int, at: int, revoker: Option<int>) returns (changed: bool)
      modifies this`grants
      ensures grants == Revoked(old(grants), id, at, revoker)
      ensures changed <==> id >= 0 && id in old(grants) && old(grants)[id].revokedAt.None?
      ensures OnlyRowAt(old(grants), grants, id)
      ensures changed ==> grants[id].revokedAt == Some(at) && grants[id].revokedBy == revoker
      ensures KeepsGrants(old(grants), grants)
    {
      changed := id >= 0 && id in grants && grants[id].revokedAt.None?;
      if changed {
        grants := grants[id := grants[id].(revokedAt := Some(at), revokedBy := revoker)];
      }
    }

    /** RevokeOAuthGrantsByUserAndClient */
    method RevokeByUserAndClient(userId: int, clientId: string, at: int, revoker: Option<int>) returns (ids: set<nat>)
      modifies this`grants
      ensures grants == RevokedAll(old(grants), userId, clientId, at, revoker)
      ensures forall id :: id in ids <==> (id in old(grants) && old(grants)[id].userId == userId &&
                                           old(grants)[id].clientId == clientId && old(grants)[id].revokedAt.None?)
      ensures KeepsGrants(old(grants), grants)
      ensures forall id: int, now :: !Live(grants, id, userId, clientId, now)
      ensures forall id | id in ids :: grants[id].revokedAt == Some(at) && grants[id].revokedBy == revoker
      ensures forall id | id in grants && id !in ids :: grants[id] == old(grants)[id]
      ensures forall other, otherClient, id: int, now | other != userId || otherClient != clientId ::
                Live(grants, id, other, otherClient, now) <==> Live(old(grants), id, other, otherClient, now)
    {
      ids := set id | id in grants && grants[id].userId == userId && grants[id].clientId == clientId && grants[id].revokedAt.None?;
      grants := RevokedAll(grants, userId, clientId, at, revoker);
    }

    /** TouchOAuthGrant: at most one write per window, none on a revoked grant. */
    method Touch(id: int, at: int, cutoff: int) returns (written: bool)
      modifies this`grants
      ensures grants == Touched(old(grants), id, at, cutoff)
      ensures written <==> Touches(old(grants), id, cutoff)
      ensures written <==>
                id >= 0 && id in old(grants) && old(grants)[id].revokedAt == None &&
                match old(grants)[id].lastToolCallAt case None => true case Some(last) => last < cutoff
      ensures OnlyRowAt(old(grants), grants, id)
      ensures if written then grants[id].lastToolCallAt == Some(at) else grants == old(grants)
      ensures KeepsGrants(old(grants), grants)
      ensures written ==> forall later | later <= at :: !Touches(grants, id, later)
      ensures forall other: int, userId, clientId, now ::
                Live(grants, other, userId, clientId, now) <==> Live(old(grants), other, userId, clientId, now)
    {
      written := Touches(grants, id, cutoff);
      if written {
        grants := grants[id as nat := grants[id].(lastToolCallAt := Some(at))];
      }
    }

    /** IsOAuthGrantLive: the token's own user and client are part of the question. */
    method IsLive(id: int, userId: int, clientId: string, now: int) returns (live: bool)
      ensures live == Live(grants, id, userId, clientId, now)
      ensures live <==> exists held: nat | held in grants ::
                held == id && grants[held].userId == userId && grants[held].clientId == clientId &&
                grants[held].revokedAt == None && now < grants[held].expiresAt
    {
      live := Live(grants, id, userId, clientId, now);
    }

    /** DeleteExpiredOAuthGrants */
    method DeleteExpired(before: int) returns (deleted: nat)
      modifies this`grants
      ensures grants == Unexpired(old(grants), before)
      ensures forall id :: id in grants <==> id in old(grants) && !(old(grants)[id].expiresAt < before)
      ensures forall id | id in grants :: grants[id] == old(grants)[id]
      ensures deleted == |set id | id in old(grants) && old(grants)[id].expiresAt < before|
    {
      deleted := |set id | id in grants && grants[id].expiresAt < before|;
      grants := Unexpired(grants, before);
    }
  }

  // ----- Runs -----

  /**
   `used` holds every digest ever stored with the client it was handed to, and `redeemed` how often each
   was exchanged for a new one.
   */
  datatype World = World(grants: Grants, nextId: nat, now: int, used: map<string, string>, redeemed: map<string, nat>)

  datatype Step =
    | Create(create: NewGrant)
    | Rotate(clientId: string, oldHash: string, newHash: string, expiresAt: int, r: Rotation)
    | Revoke(id: int, revoker: Option<int>)
    | RevokeAll(userId: int, clientId: string, revoker: Option<int>)
    | Touch(id: int, cutoff: int)
    | DeleteExpired(before: int)
    | Tick(now: int)

  function Redemptions(w: World, tokenHash: string): nat {
    if tokenHash in w.redeemed then w.redeemed[tokenHash] else 0
  }

  function RotatedGrants(w: World, step: Step): Grants
    requires step.Rotate?
  {
    if step.r.Rotated? && step.r.id in w.grants then
      w.grants[step.r.id := w.grants[step.r.id].(tokenHash := step.newHash, expiresAt := step.expiresAt)]
    else w.grants
  }

  /** New digests are fresh: they come from a random token. */
  ghost predicate Enabled(w: World, step: Step) {
    match step
    case Create(create) => create.tokenHash !in w.used
    case Rotate(clientId, oldHash, newHash, expiresAt, r) =>
      newHash !in w.used && newHash != oldHash &&
      Rotates(w.grants, RotatedGrants(w, step), clientId, oldHash, newHash, expiresAt, w.now, r)
    case Tick(now) => w.now <= now
    case _ => true
  }

  function After(w: World, step: Step): World {
    match step
    case Create(create) =>
      w.(grants := w.grants[w.nextId := Issued(create)], nextId := w.nextId + 1, used := w.used[create.tokenHash := create.clientId])
    case Rotate(clientId, oldHash, newHash, _, r) =>
      if r.Rotated? then
        w.(grants := RotatedGrants(w, step), used := w.used[newHash := clientId],
           redeemed := w.redeemed[oldHash := Redemptions(w, oldHash) + 1])
      else w
    case Revoke(id, revoker) => w.(grants := Revoked(w.grants, id, w.now, revoker))
    case RevokeAll(userId, clientId, revoker) => w.(grants := RevokedAll(w.grants, userId, clientId, w.now, revoker))
    case Touch(id, cutoff) => w.(grants := Touched(w.grants, id, w.now, cutoff))
    case DeleteExpired(before) => w.(grants := Unexpired(w.grants, before))
    case Tick(now) => w.(now := now)
  }

  /** Stored digests are unique and unredeemed; every digest is redeemed at most once. */
  ghost predicate Invariant(w: World) {
    && UniqueHashes(w.grants)
    && (forall id | id in w.grants :: id < w.nextId && w.grants[id].tokenHash in w.used && w.used[w.grants[id].tokenHash] == w.grants[id].clientId)
    && (forall id | id in w.grants :: Redemptions(w, w.grants[id].tokenHash) == 0)
    && (forall h | h in w.redeemed :: h in w.used && w.redeemed[h] <= 1)
  }

  lemma RotateKeepsInvariant(w: World, step: Step)
    requires Invariant(w) && Enabled(w, step) && step.Rotate?
    ensures Invariant(After(w, step))
  {
  }

  /** The same grant with the same credential; only its revocation and its last use may be new. */
  predicate SameCredential(a: Grant, b: Grant) {
    && SameGrant(a, b) && a.tokenHash == b.tokenHash && a.expiresAt == b.expiresAt
    && (a.revokedAt.Some? ==> b.revokedAt == a.revokedAt && b.revokedBy == a.revokedBy)
  }

  /** Steps that neither issue nor exchange a digest. */
  lemma OthersKeepCredentials(w: World, step: Step, id: nat)
    requires !step.Rotate? && !step.Create? && id in After(w, step).grants
    ensures id in w.grants && SameCredential(w.grants[id], After(w, step).grants[id])
  {
  }

  lemma OthersKeepInvariant(w: World, step: Step)
    requires Invariant(w) && Enabled(w, step) && !step.Rotate? && !step.Create?
    ensures Invariant(After(w, step))
  {
    var after := After(w, step);
    assert after.nextId == w.nextId && after.used == w.used && after.redeemed == w.redeemed;
    forall id | id in after.grants ensures id in w.grants && after.grants[id].tokenHash == w.grants[id].tokenHash && after.grants[id].clientId == w.grants[id].clientId {
      OthersKeepCredentials(w, step, id);
    }
  }

  lemma StepKeepsInvariant(w: World, step: Step)
    requires Invariant(w) && Enabled(w, step)
    ensures Invariant(After(w, step))
  {
    if step.Rotate? {
      RotateKeepsInvariant(w, step);
    } else if !step.Create? {
      OthersKeepInvariant(w, step);
    }
  }

  function WorldAfter(w: World, steps: seq<Step>): World {
    if steps == [] then w else After(WorldAfter(w, steps[..|steps| - 1]), steps[|steps| - 1])
  }

  ghost predicate Run(w: World, steps: seq<Step>) {
    steps == [] ||
    (Run(w, steps[..|steps| - 1]) && Enabled(WorldAfter(w, steps[..|steps| - 1]), steps[|steps| - 1]))
  }

  function Start(now: int): World {
    World(map[], 1, now, map[], map[])
  }

  /**
   Every call of the store at the world's time is a step, whatever its arguments, as long as new digests
   are fresh, and it leaves what the step does.
   */
  method Serve(s: Store, step: Step, now: int, ghost w: World) returns (ghost done: Step)
    requires Invariant(w) && s.grants == w.grants && s.nextId == w.nextId && now == w.now
    requires step.Create? ==> step.create.tokenHash !in w.used
    requires step.Rotate? ==> step.newHash !in w.used && step.newHash != step.oldHash
    requires step.Tick? ==> now <= step.now
    modifies s
    ensures Enabled(w, done) && (if step.Rotate? then done.Rotate? && done == step.(r := done.r) else done == step)
    ensures s.grants == After(w, done).grants && s.nextId == After(w, done).nextId
  {
    done := step;
    match step
    case Create(create) => var id := s.Create(create);
    case Rotate(clientId, oldHash, newHash, expiresAt, _) =>
      var r := s.Rotate(clientId, oldHash, newHash, expiresAt, now);
      done := step.(r := r);
    case Revoke(id, revoker) => var changed := s.Revoke(id, now, revoker);
    case RevokeAll(userId, clientId, revoker) => var ids := s.RevokeByUserAndClient(userId, clientId, now, revoker);
    case Touch(id, cutoff) => var written := s.Touch(id, now, cutoff);
    case DeleteExpired(before) => var deleted := s.DeleteExpired(before);
    case Tick(_) =>
  }

  /** Main result: over every run, each refresh digest is redeemed at most once. */
  lemma {:induction false} RedeemedAtMostOnce(now: int, steps: seq<Step>, tokenHash: string)
    requires Run(Start(now), steps)
    ensures Invariant(WorldAfter(Start(now), steps))
    ensures Redemptions(WorldAfter(Start(now), steps), tokenHash) <= 1
  {
    if steps != [] {
      RedeemedAtMostOnce(now, steps[..|steps| - 1], tokenHash);
      StepKeepsInvariant(WorldAfter(Start(now), steps[..|steps| - 1]), steps[|steps| - 1]);
    }
  }

  ghost predicate Redeems(step: Step, tokenHash: string) {
    step.Rotate? && step.r.Rotated? && step.oldHash == tokenHash
  }

  /** The step hands the digest out to the client. */
  ghost predicate HandsOut(step: Step, tokenHash: string, clientId: string) {
    || (step.Create? && step.create.tokenHash == tokenHash && step.create.clientId == clientId)
    || (step.Rotate? && step.r.Rotated? && step.newHash == tokenHash && step.clientId == clientId)
  }

  lemma {:induction false} RunPrefix(w: World, steps: seq<Step>, n: nat)
    requires Run(w, steps) && n < |steps|
    ensures Run(w, steps[..n]) && Enabled(WorldAfter(w, steps[..n]), steps[n])
    ensures WorldAfter(w, steps[..n + 1]) == After(WorldAfter(w, steps[..n]), steps[n])
    decreases |steps|
  {
    assert steps[..n + 1][..n] == steps[..n];
    if n < |steps| - 1 {
      RunPrefix(w, steps[..|steps| - 1], n);
      assert steps[..|steps| - 1][..n] == steps[..n];
    }
  }

  lemma {:induction false} InvariantAt(now: int, steps: seq<Step>, n: nat)
    requires Run(Start(now), steps) && n <= |steps|
    ensures Invariant(WorldAfter(Start(now), steps[..n]))
    decreases n
  {
    if n == 0 {
      assert steps[..0] == [];
    } else {
      InvariantAt(now, steps, n - 1);
      RunPrefix(Start(now), steps, n - 1);
      StepKeepsInvariant(WorldAfter(Start(now), steps[..n - 1]), steps[n - 1]);
    }
  }

  /** Once redeemed, a digest stays counted. */
  lemma {:induction false} StaysRedeemed(now: int, steps: seq<Step>, tokenHash: string, i: nat, n: nat)
    requires Run(Start(now), steps) && i < n <= |steps| && Redeems(steps[i], tokenHash)
    ensures Redemptions(WorldAfter(Start(now), steps[..n]), tokenHash) > 0
    decreases n
  {
    RunPrefix(Start(now), steps, n - 1);
    if i < n - 1 { StaysRedeemed(now, steps, tokenHash, i, n - 1); }
  }

  /** Main result: in no run do two steps redeem the same digest. */
  lemma NoTwoRedemptions(now: int, steps: seq<Step>, tokenHash: string, i: nat, j: nat)
    requires Run(Start(now), steps) && i < j < |steps| && Redeems(steps[i], tokenHash)
    ensures !Redeems(steps[j], tokenHash)
  {
    StaysRedeemed(now, steps, tokenHash, i, j);
    InvariantAt(now, steps, j);
    RunPrefix(Start(now), steps, j);
    var w := WorldAfter(Start(now), steps[..j]);
    if steps[j].Rotate? && steps[j].r.Rotated? {
      RedeemedIsSpent(w, tokenHash, steps[j].clientId, w.now, steps[j].r.id);
    }
  }

  /** A stored digest was handed out by an earlier step, to the client the world remembers. */
  lemma {:induction false} WasHandedOut(now: int, steps: seq<Step>, tokenHash: string, n: nat) returns (i: nat)
    requires Run(Start(now), steps) && n <= |steps| && tokenHash in WorldAfter(Start(now), steps[..n]).used
    ensures i < n && HandsOut(steps[i], tokenHash, WorldAfter(Start(now), steps[..n]).used[tokenHash])
    decreases n
  {
    assert steps[..0] == [];
    assert n > 0;
    RunPrefix(Start(now), steps, n - 1);
    if HandsOut(steps[n - 1], tokenHash, WorldAfter(Start(now), steps[..n]).used[tokenHash]) {
      i := n - 1;
    } else {
      i := WasHandedOut(now, steps, tokenHash, n - 1);
    }
  }

  /** Main result: a step that redeems a digest presents the client an earlier step handed it out to. */
  lemma RedeemedWhereHandedOut(now: int, steps: seq<Step>, tokenHash: string, j: nat) returns (i: nat)
    requires Run(Start(now), steps) && j < |steps| && Redeems(steps[j], tokenHash)
    ensures i < j && HandsOut(steps[i], tokenHash, steps[j].clientId)
  {
    InvariantAt(now, steps, j);
    RunPrefix(Start(now), steps, j);
    i := WasHandedOut(now, steps, tokenHash, j);
  }

  /** A digest that was redeemed opens nothing any more, whoever presents it and whenever. */
  lemma RedeemedIsSpent(w: World, tokenHash: string, clientId: string, now: int, id: nat)
    requires Invariant(w) && Redemptions(w, tokenHash) > 0 && id in w.grants
    ensures !Redeemable(w.grants[id], clientId, tokenHash, now)
  {
  }

  // ----- A grant over its life -----

  predicate NotLive(g: Grant, now: int) {
    g.revokedAt.Some? || g.expiresAt <= now
  }

  /** A row later in its life: the same grant, its first revocation kept, and dead once it was dead. */
  ghost predicate Follows(a: Grant, at: int, b: Grant, later: int) {
    && SameGrant(a, b)
    && (a.revokedAt.Some? ==> b.revokedAt == a.revokedAt && b.revokedBy == a.revokedBy && b.tokenHash == a.tokenHash)
    && (NotLive(a, at) ==> NotLive(b, later) && b.tokenHash == a.tokenHash)
  }

  lemma StepFollows(w: World, step: Step, id: nat)
    requires Invariant(w) && Enabled(w, step) && id < w.nextId
    ensures id < After(w, step).nextId && w.now <= After(w, step).now
    ensures id in After(w, step).grants ==> id in w.grants && Follows(w.grants[id], w.now, After(w, step).grants[id], After(w, step).now)
  {
    if !step.Rotate? && !step.Create? && id in After(w, step).grants {
      OthersKeepCredentials(w, step, id);
    }
  }

  /**
   Main result: a grant keeps its identity through every rotation, its first revocation with its
   revoker is permanent, and one that is revoked or expired is never live again.
   */
  lemma {:induction false} GrantOverLife(w: World, steps: seq<Step>, id: nat)
    requires Invariant(w) && Run(w, steps) && id < w.nextId
    ensures var after := WorldAfter(w, steps);
            && Invariant(after) && id < after.nextId && w.now <= after.now
            && (id in after.grants ==> id in w.grants && Follows(w.grants[id], w.now, after.grants[id], after.now))
    ensures id in WorldAfter(w, steps).grants ==>
              var a, b := w.grants[id], WorldAfter(w, steps).grants[id];
              && a.clientId == b.clientId && a.userId == b.userId && a.kind == b.kind && a.resource == b.resource
              && a.scope == b.scope && a.createdAt == b.createdAt
              && (a.revokedAt != None ==> b.revokedAt == a.revokedAt && b.revokedBy == a.revokedBy)
              && (a.revokedAt != None || a.expiresAt <= w.now ==> b.tokenHash == a.tokenHash)
  {
    if steps != [] {
      var before := WorldAfter(w, steps[..|steps| - 1]);
      GrantOverLife(w, steps[..|steps| - 1], id);
      StepFollows(before, steps[|steps| - 1], id);
      StepKeepsInvariant(before, steps[|steps| - 1]);
    }
  }

  /** So no access token of a grant that once was not live is accepted again. */
  lemma NeverLiveAgain(w: World, steps: seq<Step>, id: nat, userId: int, clientId: string)
    requires Invariant(w) && Run(w, steps) && id < w.nextId
    requires id in w.grants ==> w.grants[id].revokedAt != None || w.grants[id].expiresAt <= w.now
    ensures !Live(WorldAfter(w, steps).grants, id, userId, clientId, WorldAfter(w, steps).now)
  {
    GrantOverLife(w, steps, id);
  }
}
