/**
 Runs of the outbox with several dispatchers: a claim leases its rows, a dispatcher that acts does so
 before its lease ends, and one that crashes just never acts again.
 */
module DeliveryLeases {
  import opened DeliveryOutbox

  /** One claim's hold on one row. */
  datatype Lease = Lease(claim: nat, id: nat)

  datatype World = World(table: Table, leases: map<Lease, int>, claims: nat, now: int)

  datatype Step =
    | Enqueue(batch: seq<Enqueue>, channels: set<int>)
    | Claim(limit: int, length: int, locked: set<nat>, picked: set<nat>)
    | Finish(lease: Lease, state: DeliveryState, lastError: string, nextAttempt: int)
    | Defer(lease: Lease, nextAttempt: int)
    | Release(lease: Lease)
    | Crash(lease: Lease)
    | ReleaseQuiet
    | Requeue(id: int)
    | Prune(before: int)
    | Tick(now: int)

  /** A dispatcher still working on a row. */
  predicate Live(w: World, lease: Lease) {
    lease in w.leases && w.now < w.leases[lease]
  }

  ghost predicate Enabled(w: World, step: Step) {
    match step
    case Claim(limit, _, locked, picked) => limit > 0 && IsPick(w.table.rows, w.now, limit, locked, picked)
    case Finish(_, state, _, _) => state != SENDING
    case Crash(lease) => lease in w.leases
    case Tick(now) => w.now <= now
    case _ => true
  }

  /** A dispatcher that acts on a row does so while it holds the row. The statements do not check that. */
  predicate InTime(w: World, step: Step) {
    match step
    case Finish(lease, _, _, _) => Live(w, lease)
    case Defer(lease, _) => Live(w, lease)
    case Release(lease) => Live(w, lease)
    case _ => true
  }

  function NewLeases(claim: nat, picked: set<nat>): set<Lease> {
    set id | id in picked :: Lease(claim, id)
  }

  function Leased(w: World, picked: set<nat>, length: int): map<Lease, int> {
    w.leases + map lease | lease in NewLeases(w.claims, picked) :: w.now + length
  }

  function WithRows(w: World, rows: Rows): World {
    w.(table := w.table.(rows := rows))
  }

  function Ended(w: World, lease: Lease, rows: Rows): World {
    WithRows(w, rows).(leases := w.leases - {lease})
  }

  function After(w: World, step: Step): World {
    match step
    case Enqueue(batch, channels) => w.(table := EnqueuedAll(w.table, batch, channels, w.now))
    case Claim(_, length, _, picked) =>
      WithRows(w, Claimed(w.table.rows, picked, w.now, length)).(leases := Leased(w, picked, length), claims := w.claims + 1)
    case Finish(lease, state, lastError, nextAttempt) =>
      Ended(w, lease, Finished(w.table.rows, lease.id, state, lastError, nextAttempt, w.now))
    case Defer(lease, nextAttempt) => Ended(w, lease, Deferred(w.table.rows, lease.id, nextAttempt))
    case Release(lease) => Ended(w, lease, Released(w.table.rows, lease.id, w.now))
    case Crash(lease) => Ended(w, lease, w.table.rows)
    case ReleaseQuiet => WithRows(w, QuietReleased(w.table.rows, w.now))
    case Requeue(id) => WithRows(w, Requeued(w.table.rows, id, w.now))
    case Prune(before) => WithRows(w, Pruned(w.table.rows, before))
    case Tick(now) => w.(now := now)
  }

  // ----- Rows -----

  lemma {:induction false} EnqueuedIsQueued(t: Table, batch: seq<Enqueue>, channels: set<int>, now: int, e: Enqueue)
    requires RowsInvariant(t) && e in batch && e.hasPayload && e.channelId in channels
    ensures Queued(EnqueuedAll(t, batch, channels, now).rows, e.eventId, e.channelId)
  {
    var rest, last := batch[..|batch| - 1], batch[|batch| - 1];
    var before := EnqueuedAll(t, rest, channels, now);
    assert batch == rest + [last];
    EnqueueKeepsRows(t, rest, channels, now);
    if e in rest {
      EnqueuedIsQueued(t, rest, channels, now, e);
      var id :| id in before.rows && before.rows[id].eventId == e.eventId && before.rows[id].channelId == e.channelId;
      assert Enqueued(before, last, channels, now).rows[id] == before.rows[id];
    } else if Inserts(before.rows, e, channels) {
      var after := Enqueued(before, e, channels, now);
      assert before.nextId in after.rows && after.rows[before.nextId] == NewDelivery(e, now);
    }
  }

  lemma {:induction false} QueuedBatchAddsNothing(t: Table, batch: seq<Enqueue>, channels: set<int>, now: int)
    requires forall e | e in batch && e.hasPayload && e.channelId in channels :: Queued(t.rows, e.eventId, e.channelId)
    ensures EnqueuedAll(t, batch, channels, now) == t
  {
    if batch != [] {
      assert batch == batch[..|batch| - 1] + [batch[|batch| - 1]];
      QueuedBatchAddsNothing(t, batch[..|batch| - 1], channels, now);
    }
  }

  /** A repeated enqueue is a no-op: a retried producer cannot queue an event twice. */
  lemma EnqueueIsIdempotent(t: Table, batch: seq<Enqueue>, channels: set<int>, now: int, later: int)
    requires RowsInvariant(t)
    ensures EnqueuedAll(EnqueuedAll(t, batch, channels, now), batch, channels, later) == EnqueuedAll(t, batch, channels, now)
  {
    var once := EnqueuedAll(t, batch, channels, now);
    forall e | e in batch && e.hasPayload && e.channelId in channels ensures Queued(once.rows, e.eventId, e.channelId) {
      EnqueuedIsQueued(t, batch, channels, now, e);
    }
    QueuedBatchAddsNothing(once, batch, channels, later);
  }

  /** Every statement keeps the rows' invariant, whoever runs it and however late. */
  lemma StepKeepsRows(w: World, step: Step)
    requires RowsInvariant(w.table) && Enabled(w, step)
    ensures RowsInvariant(After(w, step).table)
  {
    if step.Enqueue? {
      EnqueueKeepsRows(w.table, step.batch, step.channels, w.now);
    } else {
    }
  }

  /** The clamp in the statements never fires: giving the attempt back after a claim restores the count. */
  lemma AttemptIsGivenBack(rows: Rows, picked: set<nat>, id: nat, now: int, lease: int, later: int)
    requires id in rows && id in picked && RowInvariant(rows[id])
    ensures var claimed := Claimed(rows, picked, now, lease);
            && claimed[id].attempts - 1 >= 0
            && Deferred(claimed, id, later)[id] == rows[id].(state := PENDING, nextAttemptAt := later, quietDeferred := true)
            && Released(claimed, id, later)[id] == rows[id].(state := PENDING, nextAttemptAt := later, quietDeferred := false)
  {
  }

  // ----- Leases -----

  ghost predicate LeasesInvariant(w: World) {
    && (forall lease | lease in w.leases :: lease.claim < w.claims)
    && (forall lease | Live(w, lease) ::
          lease.id in w.table.rows && w.table.rows[lease.id].state == SENDING && w.table.rows[lease.id].nextAttemptAt == w.leases[lease])
    && (forall a, b | Live(w, a) && Live(w, b) && a.id == b.id :: a == b)
  }

  ghost predicate Invariant(w: World) {
    RowsInvariant(w.table) && LeasesInvariant(w)
  }

  /** A row no one may act on but its one live lease keeps its state and its deadline. */
  ghost predicate KeepsLeased(w: World, after: World) {
    forall lease | Live(after, lease) && lease in w.leases ::
      Live(w, lease) && lease.id in after.table.rows && after.table.rows[lease.id].state == SENDING &&
      after.table.rows[lease.id].nextAttemptAt == after.leases[lease] && after.leases[lease] == w.leases[lease]
  }

  lemma StepKeepsLeased(w: World, step: Step)
    requires Invariant(w) && Enabled(w, step) && InTime(w, step)
    ensures KeepsLeased(w, After(w, step))
  {
    var after := After(w, step);
    if step.Enqueue? { EnqueueKeepsRows(w.table, step.batch, step.channels, w.now); }
    forall lease | Live(after, lease) && lease in w.leases
      ensures Live(w, lease) && after.leases[lease] == w.leases[lease]
      ensures lease.id in after.table.rows && after.table.rows[lease.id].state == SENDING
      ensures after.table.rows[lease.id].nextAttemptAt == after.leases[lease]
    {
      assert Live(w, lease);
    }
  }

  lemma StepKeepsLeases(w: World, step: Step)
    requires Invariant(w) && Enabled(w, step) && InTime(w, step)
    ensures LeasesInvariant(After(w, step))
  {
    var after := After(w, step);
    StepKeepsLeased(w, step);
    forall a, b | Live(after, a) && Live(after, b) && a.id == b.id ensures a == b {
      if step.Claim? {
      }
    }
    forall lease | Live(after, lease)
      ensures lease.id in after.table.rows && after.table.rows[lease.id].state == SENDING
      ensures after.table.rows[lease.id].nextAttemptAt == after.leases[lease]
    {
    }
  }

  lemma StepKeepsInvariant(w: World, step: Step)
    requires Invariant(w) && Enabled(w, step) && InTime(w, step)
    ensures Invariant(After(w, step))
  {
    StepKeepsRows(w, step);
    StepKeepsLeases(w, step);
  }

  // ----- Runs -----

  function WorldAfter(w: World, steps: seq<Step>): World {
    if steps == [] then w else After(WorldAfter(w, steps[..|steps| - 1]), steps[|steps| - 1])
  }

  ghost predicate Run(w: World, steps: seq<Step>) {
    steps == [] ||
    (Run(w, steps[..|steps| - 1]) && Enabled(WorldAfter(w, steps[..|steps| - 1]), steps[|steps| - 1]))
  }

  ghost predicate InTimeRun(w: World, steps: seq<Step>) {
    steps == [] ||
    (InTimeRun(w, steps[..|steps| - 1]) && InTime(WorldAfter(w, steps[..|steps| - 1]), steps[|steps| - 1]))
  }

  function Start(now: int): World {
    World(Table(map[], 1), map[], 0, now)
  }

  /** Main result: in every run the rows are well formed, one per event and channel, late dispatchers included. */
  lemma {:induction false} RunKeepsRows(now: int, steps: seq<Step>)
    requires Run(Start(now), steps)
    ensures RowsInvariant(WorldAfter(Start(now), steps).table)
    ensures var rows := WorldAfter(Start(now), steps).table.rows;
            && (forall id | id in rows ::
                  && rows[id].attempts >= 0 && (rows[id].state == SENDING ==> rows[id].attempts > 0)
                  && (rows[id].sentAt.Some? <==> rows[id].state == SENT)
                  && (rows[id].quietDeferred ==> rows[id].state == PENDING || rows[id].state == SENDING))
            && forall a, b | a in rows && b in rows && rows[a].eventId == rows[b].eventId && rows[a].channelId == rows[b].channelId :: a == b
  {
    if steps != [] {
      RunKeepsRows(now, steps[..|steps| - 1]);
      StepKeepsRows(WorldAfter(Start(now), steps[..|steps| - 1]), steps[|steps| - 1]);
    }
  }

  /** Main result: as long as dispatchers act within their leases, no row has two live holders. */
  lemma {:induction false} RunKeepsInvariant(now: int, steps: seq<Step>)
    requires Run(Start(now), steps) && InTimeRun(Start(now), steps)
    ensures Invariant(WorldAfter(Start(now), steps))
  {
    if steps != [] {
      RunKeepsInvariant(now, steps[..|steps| - 1]);
      StepKeepsInvariant(WorldAfter(Start(now), steps[..|steps| - 1]), steps[|steps| - 1]);
    }
  }

  /** Only terminal rows are deleted, and an id is never used again. */
  lemma StepKeepsRowsThere(w: World, step: Step, id: nat)
    requires RowsInvariant(w.table) && Enabled(w, step) && id < w.table.nextId
    ensures id < After(w, step).table.nextId
    ensures id in After(w, step).table.rows ==> id in w.table.rows
    ensures id in w.table.rows && id !in After(w, step).table.rows ==> Terminal(w.table.rows[id].state) && step.Prune?
  {
    if step.Enqueue? {
      EnqueueKeepsRows(w.table, step.batch, step.channels, w.now);
      EnqueueAdvances(w.table, step.batch, step.channels, w.now);
    }
  }

  lemma StepKeepsSent(w: World, step: Step, id: nat)
    requires Invariant(w) && Enabled(w, step) && InTime(w, step) && id in w.table.rows && w.table.rows[id].state == SENT
    ensures id in After(w, step).table.rows ==> After(w, step).table.rows[id] == w.table.rows[id]
  {
    if step.Enqueue? { EnqueueKeepsRows(w.table, step.batch, step.channels, w.now); }
  }

  lemma {:induction false} EnqueueAdvances(t: Table, batch: seq<Enqueue>, channels: set<int>, now: int)
    ensures t.nextId <= EnqueuedAll(t, batch, channels, now).nextId
    ensures forall id | id < t.nextId && id !in t.rows :: id !in EnqueuedAll(t, batch, channels, now).rows
  {
    if batch != [] { EnqueueAdvances(t, batch[..|batch| - 1], channels, now); }
  }

  /** Main result: once sent, a delivery is the same until it is pruned, and its id is never used again. */
  lemma {:induction false} SentIsFinal(w: World, steps: seq<Step>, id: nat)
    requires Invariant(w) && Run(w, steps) && InTimeRun(w, steps) && id in w.table.rows && w.table.rows[id].state == SENT
    ensures Invariant(WorldAfter(w, steps))
    ensures id < WorldAfter(w, steps).table.nextId
    ensures id in WorldAfter(w, steps).table.rows ==> WorldAfter(w, steps).table.rows[id] == w.table.rows[id]
  {
    if steps != [] {
      var before, step := WorldAfter(w, steps[..|steps| - 1]), steps[|steps| - 1];
      SentIsFinal(w, steps[..|steps| - 1], id);
      StepKeepsInvariant(before, step);
      StepKeepsRowsThere(before, step, id);
      if id in before.table.rows { StepKeepsSent(before, step, id); }
    }
  }

  /** Every call of the outbox at the world's time is a step, whoever makes it, and leaves what the step does. */
  method Serve(o: Outbox, step: Step, now: int, ghost w: World) returns (ghost done: Step)
    requires RowsInvariant(w.table) && o.rows == w.table.rows && o.nextId == w.table.nextId && now == w.now
    requires step.Claim? ==> step.limit > 0
    requires step.Finish? ==> step.state != SENDING
    requires step.Crash? ==> step.lease in w.leases
    requires step.Tick? ==> now <= step.now
    modifies o
    ensures Enabled(w, done) && (if step.Claim? then done.Claim? && done == step.(picked := done.picked) else done == step)
    ensures Table(o.rows, o.nextId) == After(w, done).table
  {
    done := step;
    match step
    case Enqueue(batch, channels) => o.Create(batch, channels, now);
    case Claim(limit, length, locked, _) =>
      var picked := o.Claim(limit, length, locked, now);
      done := step.(picked := picked);
    case Finish(lease, state, lastError, nextAttempt) => var ok := o.Finish(lease.id, state, lastError, nextAttempt, now);
    case Defer(lease, nextAttempt) => var ok := o.Defer(lease.id, nextAttempt);
    case Release(lease) => var ok := o.Release(lease.id, now);
    case Crash(_) =>
    case ReleaseQuiet => var released := o.ReleaseQuietDeferred(now);
    case Requeue(id) => var ok, requeued := o.Requeue(id, now);
    case Prune(before) => var pruned := o.Prune(before);
    case Tick(_) =>
  }

  // ----- Which rows outlive the prunes -----

  lemma StepKeepsYoung(w: World, step: Step, id: nat)
    requires RowsInvariant(w.table) && Enabled(w, step) && id in w.table.rows
    requires step.Prune? ==> step.before <= w.table.rows[id].createdAt
    ensures id in After(w, step).table.rows && After(w, step).table.rows[id].createdAt == w.table.rows[id].createdAt
  {
    if step.Enqueue? { EnqueueKeepsRows(w.table, step.batch, step.channels, w.now); }
  }

  /** A row no older than any prune's cutoff is never removed, whatever else happens to it. */
  lemma {:induction false} YoungRowStays(w: World, steps: seq<Step>, id: nat)
    requires RowsInvariant(w.table) && Run(w, steps) && id in w.table.rows
    requires forall step: Step | step in steps && step.Prune? :: step.before <= w.table.rows[id].createdAt
    ensures RowsInvariant(WorldAfter(w, steps).table)
    ensures id in WorldAfter(w, steps).table.rows && WorldAfter(w, steps).table.rows[id].createdAt == w.table.rows[id].createdAt
  {
    if steps != [] {
      var rest, last := steps[..|steps| - 1], steps[|steps| - 1];
      assert steps == rest + [last];
      YoungRowStays(w, rest, id);
      StepKeepsRows(WorldAfter(w, rest), last);
      StepKeepsYoung(WorldAfter(w, rest), last, id);
    }
  }

  /** A prune takes every terminal row created before its cutoff and no other. */
  lemma PruneTakesExactly(w: World, before: int, id: nat)
    ensures id in After(w, Prune(before)).table.rows <==>
            id in w.table.rows && (w.table.rows[id].state == PENDING || w.table.rows[id].state == SENDING || w.table.rows[id].createdAt >= before)
  {
  }

  // ----- Dispatchers that act late -----

  /** A finish that names the row, with another outcome than SENT. */
  predicate Reopens(step: Step, id: nat) {
    step.Finish? && step.lease.id == id && step.state != SENT
  }

  lemma SentUnlessReopened(w: World, step: Step, id: nat)
    requires RowsInvariant(w.table) && Enabled(w, step) && id in w.table.rows && w.table.rows[id].state == SENT
    ensures id in After(w, step).table.rows ==> (After(w, step).table.rows[id].state == SENT <==> !Reopens(step, id))
    ensures Reopens(step, id) ==> id in After(w, step).table.rows
  {
    if step.Enqueue? { EnqueueKeepsRows(w.table, step.batch, step.channels, w.now); }
  }

  ghost predicate SentAt(w: World, steps: seq<Step>, id: nat, n: nat)
    requires n <= |steps|
  {
    var rows := WorldAfter(w, steps[..n]).table.rows;
    id in rows ==> rows[id].state == SENT
  }

  ghost predicate ReopenedAt(w: World, steps: seq<Step>, id: nat, n: nat)
    requires n < |steps|
  {
    id in WorldAfter(w, steps[..n]).table.rows && Reopens(steps[n], id)
  }

  lemma {:induction false} RunPrefix(w: World, steps: seq<Step>, n: nat)
    requires Run(w, steps) && n < |steps|
    ensures Run(w, steps[..n]) && Enabled(WorldAfter(w, steps[..n]), steps[n])
    ensures WorldAfter(w, steps[..n + 1]) == After(WorldAfter(w, steps[..n]), steps[n])
    decreases |steps|
  {
    assert steps[..n + 1][..n] == steps[..n];
    if n < |steps| - 1 {
      RunPrefix(w, steps[..|steps| - 1], n);
      assert steps[..|steps| - 1][..n] == steps[..n];
    }
  }

  lemma {:induction false} SentSoFar(w: World, steps: seq<Step>, id: nat, n: nat)
    requires RowsInvariant(w.table) && Run(w, steps) && id in w.table.rows && w.table.rows[id].state == SENT && n <= |steps|
    requires forall m: nat | m < n :: !ReopenedAt(w, steps, id, m)
    ensures RowsInvariant(WorldAfter(w, steps[..n]).table) && id < WorldAfter(w, steps[..n]).table.nextId && SentAt(w, steps, id, n)
    decreases n
  {
    if n == 0 {
      assert steps[..0] == [];
    } else {
      SentSoFar(w, steps, id, n - 1);
      RunPrefix(w, steps, n - 1);
      var before, step := WorldAfter(w, steps[..n - 1]), steps[n - 1];
      assert !ReopenedAt(w, steps, id, n - 1);
      StepKeepsRows(before, step);
      StepKeepsRowsThere(before, step, id);
      if id in before.table.rows { SentUnlessReopened(before, step, id); }
    }
  }

  /**
   The finish has no owner guard. Over any run, late dispatchers included, a sent row stays SENT as long
   as it is stored exactly when no finish names it with another outcome.
   */
  lemma SentStaysExactly(w: World, steps: seq<Step>, id: nat)
    requires RowsInvariant(w.table) && Run(w, steps) && id in w.table.rows && w.table.rows[id].state == SENT
    ensures (forall n: nat | n <= |steps| :: SentAt(w, steps, id, n)) <==> (forall n: nat | n < |steps| :: !ReopenedAt(w, steps, id, n))
  {
    if forall n: nat | n < |steps| :: !ReopenedAt(w, steps, id, n) {
      forall n: nat | n <= |steps| ensures SentAt(w, steps, id, n) { SentSoFar(w, steps, id, n); }
    } else {
      var n := FirstReopening(w, steps, id, |steps|);
      SentSoFar(w, steps, id, n);
      RunPrefix(w, steps, n);
      SentUnlessReopened(WorldAfter(w, steps[..n]), steps[n], id);
      assert !SentAt(w, steps, id, n + 1);
    }
  }

  lemma {:induction false} FirstReopening(w: World, steps: seq<Step>, id: nat, limit: nat) returns (n: nat)
    requires limit <= |steps| && exists m: nat :: m < limit && ReopenedAt(w, steps, id, m)
    ensures n < limit && ReopenedAt(w, steps, id, n) && forall m: nat | m < n :: !ReopenedAt(w, steps, id, m)
    decreases limit
  {
    if exists m: nat :: m < limit - 1 && ReopenedAt(w, steps, id, m) {
      n := FirstReopening(w, steps, id, limit - 1);
    } else {
      n := limit - 1;
    }
  }

  // ----- For instance -----

  /** Steps, all within leases, that lead here. */
  ghost predicate Reached(steps: seq<Step>, w: World) {
    Run(Start(0), steps) && InTimeRun(Start(0), steps) && WorldAfter(Start(0), steps) == w
  }

  lemma OneMoreStep(steps: seq<Step>, w: World, step: Step)
    requires Reached(steps, w) && Enabled(w, step)
    ensures Run(Start(0), steps + [step]) && WorldAfter(Start(0), steps + [step]) == After(w, step)
    ensures InTime(w, step) ==> Reached(steps + [step], After(w, step))
  {
    assert (steps + [step])[..|steps|] == steps;
  }

  /** The only row, held by nobody or claimed. */
  ghost predicate OnlyRow(w: World, state: DeliveryState, attempts: int, nextAttempt: int, now: int) {
    && w.table.rows.Keys == {1} && w.now == now
    && w.table.rows[1].state == state && w.table.rows[1].attempts == attempts && w.table.rows[1].nextAttemptAt == nextAttempt
  }

  lemma EnqueueOne(w: World, batch: seq<DeliveryOutbox.Enqueue>, channel: int)
    requires w == Start(0) && |batch| == 1 && batch[0].hasPayload && batch[0].channelId == channel && batch[0].nextAttempt == 0
    ensures OnlyRow(After(w, Step.Enqueue(batch, {channel})), PENDING, 0, 0, 0)
    ensures After(w, Step.Enqueue(batch, {channel})).claims == 0 && After(w, Step.Enqueue(batch, {channel})).leases == map[]
  {
    assert batch[..0] == [];
    assert EnqueuedAll(w.table, batch[..0], {channel}, 0) == w.table;
  }

  lemma ClaimOnlyRow(w: World, state: DeliveryState, attempts: int, nextAttempt: int, now: int)
    requires OnlyRow(w, state, attempts, nextAttempt, now) && !Terminal(state) && nextAttempt <= now
    ensures Enabled(w, Claim(1, 10, {}, {1})) && OnlyRow(After(w, Claim(1, 10, {}, {1})), SENDING, attempts + 1, now + 10, now)
    ensures After(w, Claim(1, 10, {}, {1})).claims == w.claims + 1
    ensures After(w, Claim(1, 10, {}, {1})).leases == w.leases[Lease(w.claims, 1) := now + 10]
  {
    assert Due(w.table.rows, 1, now);
    assert NewLeases(w.claims, {1}) == {Lease(w.claims, 1)};
  }

  lemma ClaimedOnce(batch: seq<DeliveryOutbox.Enqueue>, channel: int) returns (steps: seq<Step>, w: World)
    requires |batch| == 1 && batch[0].hasPayload && batch[0].channelId == channel && batch[0].nextAttempt == 0
    ensures Reached(steps, w) && OnlyRow(w, SENDING, 1, 10, 0) && w.leases == map[Lease(0, 1) := 10] && w.claims == 1
  {
    var enqueue, claim := Step.Enqueue(batch, {channel}), Claim(1, 10, {}, {1});
    var queued := After(Start(0), enqueue);
    EnqueueOne(Start(0), batch, channel);
    OneMoreStep([], Start(0), enqueue);
    assert [] + [enqueue] == [enqueue];
    ClaimOnlyRow(queued, PENDING, 0, 0, 0);
    OneMoreStep([enqueue], queued, claim);
    steps, w := [enqueue] + [claim], After(queued, claim);
  }

  /** One dispatcher claims the row and outlives its lease; another claims it again at 20. */
  lemma ClaimedTwice(batch: seq<DeliveryOutbox.Enqueue>, channel: int) returns (steps: seq<Step>, w: World)
    requires |batch| == 1 && batch[0].hasPayload && batch[0].channelId == channel && batch[0].nextAttempt == 0
    ensures Reached(steps, w) && OnlyRow(w, SENDING, 2, 30, 20) && w.leases == map[Lease(0, 1) := 10, Lease(1, 1) := 30]
  {
    var once, first := ClaimedOnce(batch, channel);
    var later := After(first, Tick(20));
    OneMoreStep(once, first, Tick(20));
    ClaimOnlyRow(later, SENDING, 1, 10, 20);
    OneMoreStep(once + [Tick(20)], later, Claim(1, 10, {}, {1}));
    steps, w := once + [Tick(20)] + [Claim(1, 10, {}, {1})], After(later, Claim(1, 10, {}, {1}));
  }

  /**
   A run in which only the last step comes after its lease: the second dispatcher has sent the delivery
   when the first one reports a timeout, and the sent delivery is pending and due again.
   */
  lemma LateFinishReopens(batch: seq<DeliveryOutbox.Enqueue>, channel: int) returns (steps: seq<Step>, late: Step)
    requires |batch| == 1 && batch[0].hasPayload && batch[0].channelId == channel && batch[0].nextAttempt == 0
    ensures Run(Start(0), steps + [late]) && InTimeRun(Start(0), steps)
    ensures var before, after := WorldAfter(Start(0), steps), WorldAfter(Start(0), steps + [late]);
            && 1 in before.table.rows && before.table.rows[1].state == SENT
            && Reopens(late, 1) && !InTime(before, late) && late.lease in before.leases
            && 1 in after.table.rows && after.table.rows[1].state == PENDING && Due(after.table.rows, 1, 30)
  {
    var claimed, w := ClaimedTwice(batch, channel);
    var sends := Finish(Lease(1, 1), SENT, "", 20);
    OneMoreStep(claimed, w, sends);
    steps, late := claimed + [sends], Finish(Lease(0, 1), PENDING, "timeout", 30);
    OneMoreStep(steps, After(w, sends), late);
  }
}
