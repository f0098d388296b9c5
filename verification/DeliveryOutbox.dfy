/**
 The outbox of notification deliveries: what each statement does to the stored rows.
 The clock and the rows other transactions hold locked are inputs.
 */
module DeliveryOutbox {
  import opened Ordering

  datatype DeliveryState = PENDING | SENDING | SENT | DEAD

  datatype Delivery = Delivery(eventId: string, channelId: int, state: DeliveryState, attempts: int, nextAttemptAt: int,
                               lastError: string, createdAt: int, sentAt: Option<int>, quietDeferred: bool)

  type Rows = map<nat, Delivery>

  /** One row of an enqueue batch; one without a payload is skipped. */
  datatype Enqueue = Enqueue(eventId: string, channelId: int, hasPayload: bool, nextAttempt: int)

  predicate Terminal(state: DeliveryState) {
    state == SENT || state == DEAD
  }

  // ----- Statements -----

  predicate Queued(rows: Rows, eventId: string, channelId: int) {
    exists id | id in rows :: rows[id].eventId == eventId && rows[id].channelId == channelId
  }

  function NewDelivery(e: Enqueue, now: int): Delivery {
    Delivery(e.eventId, e.channelId, PENDING, 0, e.nextAttempt, "", now, None, false)
  }

  predicate Inserts(rows: Rows, e: Enqueue, channels: set<int>) {
    e.hasPayload && e.channelId in channels && !Queued(rows, e.eventId, e.channelId)
  }

  datatype Table = Table(rows: Rows, nextId: nat)

  function Enqueued(t: Table, e: Enqueue, channels: set<int>, now: int): Table {
    if Inserts(t.rows, e, channels) then Table(t.rows[t.nextId := NewDelivery(e, now)], t.nextId + 1) else t
  }

  function EnqueuedAll(t: Table, batch: seq<Enqueue>, channels: set<int>, now: int): Table {
    if batch == [] then t
    else Enqueued(EnqueuedAll(t, batch[..|batch| - 1], channels, now), batch[|batch| - 1], channels, now)
  }

  predicate Due(rows: Rows, id: nat, now: int) {
    id in rows && (rows[id].state == PENDING || rows[id].state == SENDING) && rows[id].nextAttemptAt <= now
  }

  predicate DueBefore(rows: Rows, a: nat, b: nat)
    requires a in rows && b in rows
  {
    rows[a].nextAttemptAt < rows[b].nextAttemptAt || (rows[a].nextAttemptAt == rows[b].nextAttemptAt && a < b)
  }

  /** The claim picks the `limit` first due rows no one else holds. */
  ghost predicate IsPick(rows: Rows, now: int, limit: int, locked: set<nat>, picked: set<nat>) {
    && (forall id | id in picked :: Due(rows, id, now) && id !in locked)
    && |picked| <= (if limit < 0 then 0 else limit)
    && (|picked| < limit ==> forall id | Due(rows, id, now) && id !in locked :: id in picked)
    && (forall a, b | a in picked && Due(rows, b, now) && b !in locked && b !in picked :: DueBefore(rows, a, b))
  }

  function ClaimOne(d: Delivery, now: int, lease: int): Delivery {
    d.(state := SENDING, attempts := d.attempts + 1, nextAttemptAt := now + lease)
  }

  function Claimed(rows: Rows, picked: set<nat>, now: int, lease: int): Rows {
    map id | id in rows :: if id in picked then ClaimOne(rows[id], now, lease) else rows[id]
  }

  function Finished(rows: Rows, id: int, state: DeliveryState, lastError: string, nextAttempt: int, now: int): Rows {
    if id >= 0 && id in rows then
      rows[id := rows[id].(state := state, lastError := lastError, nextAttemptAt := nextAttempt,
                           sentAt := if state == SENT then Some(now) else None, quietDeferred := false)]
    else rows
  }

  function Greatest(a: int, b: int): int {
    if a < b then b else a
  }

  function Returned(d: Delivery, nextAttempt: int, quiet: bool): Delivery {
    d.(state := PENDING, attempts := Greatest(d.attempts - 1, 0), nextAttemptAt := nextAttempt, quietDeferred := quiet)
  }

  /** A row goes back to the queue only from SENDING. */
  function Deferred(rows: Rows, id: int, nextAttempt: int): Rows {
    if id >= 0 && id in rows && rows[id].state == SENDING then rows[id := Returned(rows[id], nextAttempt, true)] else rows
  }

  function Released(rows: Rows, id: int, now: int): Rows {
    if id >= 0 && id in rows && rows[id].state == SENDING then rows[id := Returned(rows[id], now, false)] else rows
  }

  predicate HeldByQuietHours(d: Delivery) {
    d.state == PENDING && d.quietDeferred
  }

  function QuietReleased(rows: Rows, now: int): Rows {
    map id | id in rows ::
      if HeldByQuietHours(rows[id]) then rows[id].(nextAttemptAt := now, quietDeferred := false) else rows[id]
  }

  function Requeued(rows: Rows, id: int, now: int): Rows {
    if id >= 0 && id in rows && rows[id].state == DEAD then
      rows[id := rows[id].(state := PENDING, attempts := 0, nextAttemptAt := now, lastError := "", quietDeferred := false)]
    else rows
  }

  predicate Prunable(d: Delivery, before: int) {
    Terminal(d.state) && d.createdAt < before
  }

  function Pruned(rows: Rows, before: int): Rows {
    map id | id in rows && !Prunable(rows[id], before) :: rows[id]
  }

  // ----- Rows -----

  /** What every stored row satisfies, whoever writes it. */
  predicate RowInvariant(d: Delivery) {
    && d.attempts >= 0
    && (d.state == SENDING ==> d.attempts >= 1)
    && (d.sentAt.Some? <==> d.state == SENT)
    && (Terminal(d.state) ==> !d.quietDeferred)
  }

  ghost predicate RowsInvariant(t: Table) {
    && t.nextId > 0 && (forall id | id in t.rows :: 0 < id < t.nextId && RowInvariant(t.rows[id]))
    && (forall a, b | a in t.rows && b in t.rows && a != b :: !SameTarget(t.rows[a], t.rows[b]))
  }

  predicate SameTarget(a: Delivery, b: Delivery) {
    a.eventId == b.eventId && a.channelId == b.channelId
  }

  lemma {:induction false} EnqueueKeepsRows(t: Table, batch: seq<Enqueue>, channels: set<int>, now: int)
    requires RowsInvariant(t)
    ensures RowsInvariant(EnqueuedAll(t, batch, channels, now))
    ensures t.rows.Keys <= EnqueuedAll(t, batch, channels, now).rows.Keys
    ensures forall id | id in t.rows :: EnqueuedAll(t, batch, channels, now).rows[id] == t.rows[id]
  {
    if batch != [] {
      EnqueueKeepsRows(t, batch[..|batch| - 1], channels, now);
    }
  }

  /** Only the row under the id may differ, and it is of the same event, channel and age. */
  ghost predicate OnlyRowAt(before: Rows, after: Rows, id: int) {
    && before.Keys == after.Keys
    && forall other | other in before ::
         && after[other].eventId == before[other].eventId && after[other].channelId == before[other].channelId
         && after[other].createdAt == before[other].createdAt && (other != id ==> after[other] == before[other])
  }

  /** Every new row is one that an item of the batch asked for, not yet tried and due when it said. */
  lemma {:induction false} EnqueuedRowsAreNew(t: Table, batch: seq<Enqueue>, channels: set<int>, now: int, id: nat)
    requires RowsInvariant(t) && id in EnqueuedAll(t, batch, channels, now).rows && id !in t.rows
    ensures exists e ::
              && e in batch && e.hasPayload && e.channelId in channels
              && EnqueuedAll(t, batch, channels, now).rows[id] ==
                 Delivery(e.eventId, e.channelId, PENDING, 0, e.nextAttempt, "", now, None, false)
  {
    var rest, last := batch[..|batch| - 1], batch[|batch| - 1];
    assert batch == rest + [last];
    EnqueueKeepsRows(t, rest, channels, now);
    if id in EnqueuedAll(t, rest, channels, now).rows { EnqueuedRowsAreNew(t, rest, channels, now, id); }
  }

  // ----- The claim -----

  /** Waiting or sending past its lease, due, and held by no other transaction. */
  predicate Claimable(rows: Rows, locked: set<nat>, now: int, id: nat) {
    id in rows && rows[id].state != SENT && rows[id].state != DEAD && rows[id].nextAttemptAt <= now && id !in locked
  }

  function ClaimableBefore(rows: Rows, locked: set<nat>, now: int, id: nat): set<nat>
  {
    set other | other in rows && id in rows && Claimable(rows, locked, now, other) &&
      (rows[other].nextAttemptAt < rows[id].nextAttemptAt || (rows[other].nextAttemptAt == rows[id].nextAttemptAt && other < id))
  }

  ghost predicate OnlyPicked(before: Rows, after: Rows, picked: set<nat>) {
    && before.Keys == after.Keys && picked <= before.Keys
    && (forall id | id in before && id !in picked :: after[id] == before[id])
    && (forall id | id in picked :: after[id] == before[id].(state := after[id].state, attempts := after[id].attempts,
                                                             nextAttemptAt := after[id].nextAttemptAt))
  }

  lemma SubsetSize<T>(a: set<T>, b: set<T>)
    requires a <= b
    ensures |a| <= |b|
  {
    assert |b| == |a| + |b - a| by { assert b == a + (b - a); }
  }

  /** The pick is the claimable rows with fewer than `limit` claimable ones before them. */
  lemma PickIsFirst(rows: Rows, now: int, limit: int, locked: set<nat>, picked: set<nat>)
    requires limit > 0 && IsPick(rows, now, limit, locked, picked)
    ensures forall id :: id in picked <==> Claimable(rows, locked, now, id) && |ClaimableBefore(rows, locked, now, id)| < limit
  {
    forall id: nat ensures id in picked <==> Claimable(rows, locked, now, id) && |ClaimableBefore(rows, locked, now, id)| < limit {
      if Claimable(rows, locked, now, id) {
        assert Due(rows, id, now);
        var earlier := ClaimableBefore(rows, locked, now, id);
        if id in picked {
          forall other | other in earlier ensures other in picked - {id} {
            assert Due(rows, other, now);
          }
          SubsetSize(earlier, picked - {id});
        } else {
          forall other | other in picked ensures other in earlier {
            assert Due(rows, other, now) && DueBefore(rows, other, id);
          }
          SubsetSize(picked, earlier);
        }
      }
    }
  }

  // ----- The store -----

  class Outbox {
    var rows: Rows
    var nextId: nat

    constructor ()
      ensures rows == map[] && nextId == 1
    {
      rows, nextId := map[], 1;
    }

    /** CreateNotificationDeliveries */
    method Create(batch: seq<Enqueue>, channels: set<int>, now: int)
      modifies this
      ensures Table(rows, nextId) == EnqueuedAll(Table(old(rows), old(nextId)), batch, channels, now)
      ensures old(RowsInvariant(Table(rows, nextId))) ==> RowsInvariant(Table(rows, nextId))
    {
      ghost var t := Table(rows, nextId);
      if RowsInvariant(t) { EnqueueKeepsRows(t, batch, channels, now); }
      for i := 0 to |batch|
        invariant Table(rows, nextId) == EnqueuedAll(t, batch[..i], channels, now)
      {
        var e := batch[i];
        assert batch[..i + 1][..i] == batch[..i] && batch[..i + 1][i] == e;
        if !e.hasPayload {
          continue;
        }
        if e.channelId in channels && !Queued(rows, e.eventId, e.channelId) {
          rows, nextId := rows[nextId := NewDelivery(e, now)], nextId + 1;
        }
      }
      assert batch[..|batch|] == batch;
    }

    /** ClaimNotificationDeliveries */
    method Claim(limit: int, lease: int, locked: set<nat>, now: int) returns (picked: set<nat>)
      modifies this`rows
      ensures limit <= 0 ==> picked == {} && rows == old(rows)
      ensures limit > 0 ==> IsPick(old(rows), now, limit, locked, picked) && rows == Claimed(old(rows), picked, now, lease)
      ensures limit > 0 ==> forall id :: id in picked <==>
                Claimable(old(rows), locked, now, id) && |ClaimableBefore(old(rows), locked, now, id)| < limit
      ensures OnlyPicked(old(rows), rows, picked)
      ensures forall id | id in picked :: rows[id].state == SENDING && rows[id].attempts == old(rows)[id].attempts + 1 &&
                                          rows[id].nextAttemptAt == now + lease
      ensures old(RowsInvariant(Table(rows, nextId))) ==> RowsInvariant(Table(rows, nextId))
    {
      picked := {};
      if limit <= 0 {
        return;
      }
      picked := PickDue(rows, limit, locked, now);
      PickIsFirst(rows, now, limit, locked, picked);
      rows := Claimed(rows, picked, now, lease);
    }

    /** FinishNotificationDelivery: the row is written whoever holds it. */
    method Finish(id: int, state: DeliveryState, lastError: string, nextAttempt: int, now: int) returns (ok: bool)
      modifies this`rows
      ensures ok == (id > 0)
      ensures rows == if ok then Finished(old(rows), id, state, lastError, nextAttempt, now) else old(rows)
      ensures OnlyRowAt(old(rows), rows, id)
      ensures ok && id in rows ==>
                && rows[id].state == state && rows[id].lastError == lastError && rows[id].nextAttemptAt == nextAttempt
                && rows[id].sentAt == (if state == SENT then Some(now) else None)
                && rows[id].attempts == old(rows)[id].attempts && !rows[id].quietDeferred
      ensures state != SENDING && old(RowsInvariant(Table(rows, nextId))) ==> RowsInvariant(Table(rows, nextId))
    {
      if id <= 0 {
        return false;
      }
      if id in rows {
        var sentAt := if state == SENT then Some(now) else None;
        rows := rows[id := rows[id].(state := state, lastError := lastError, nextAttemptAt := nextAttempt,
                                     sentAt := sentAt, quietDeferred := false)];
      }
      ok := true;
    }

    /** DeferNotificationDelivery */
    method Defer(id: int, nextAttempt: int) returns (ok: bool)
      modifies this`rows
      ensures ok == (id > 0)
      ensures rows == if ok then Deferred(old(rows), id, nextAttempt) else old(rows)
      ensures OnlyRowAt(old(rows), rows, id) && (ok && id in rows && old(rows)[id].state != SENDING ==> rows == old(rows))
      ensures ok && id in rows && old(rows)[id].state == SENDING ==>
                && rows[id].state == PENDING && rows[id].nextAttemptAt == nextAttempt && rows[id].quietDeferred
                && rows[id].attempts == (if old(rows)[id].attempts > 0 then old(rows)[id].attempts - 1 else 0)
                && rows[id].lastError == old(rows)[id].lastError && rows[id].sentAt == old(rows)[id].sentAt
      ensures old(RowsInvariant(Table(rows, nextId))) ==> RowsInvariant(Table(rows, nextId))
    {
      if id <= 0 {
        return false;
      }
      if id in rows && rows[id].state == SENDING {
        rows := rows[id := Returned(rows[id], nextAttempt, true)];
      }
      ok := true;
    }

    /** ReleaseNotificationDelivery */
    method Release(id: int, now: int) returns (ok: bool)
      modifies this`rows
      ensures ok == (id > 0)
      ensures rows == if ok then Released(old(rows), id, now) else old(rows)
      ensures OnlyRowAt(old(rows), rows, id) && (ok && id in rows && old(rows)[id].state != SENDING ==> rows == old(rows))
      ensures ok && id in rows && old(rows)[id].state == SENDING ==>
                && rows[id].state == PENDING && rows[id].nextAttemptAt == now && !rows[id].quietDeferred
                && rows[id].attempts == (if old(rows)[id].attempts > 0 then old(rows)[id].attempts - 1 else 0)
                && rows[id].lastError == old(rows)[id].lastError && rows[id].sentAt == old(rows)[id].sentAt
      ensures old(RowsInvariant(Table(rows, nextId))) ==> RowsInvariant(Table(rows, nextId))
    {
      if id <= 0 {
        return false;
      }
      if id in rows && rows[id].state == SENDING {
        rows := rows[id := Returned(rows[id], now, false)];
      }
      ok := true;
    }

    /** ReleaseQuietDeferredDeliveries */
    method ReleaseQuietDeferred(now: int) returns (released: nat)
      modifies this`rows
      ensures rows == QuietReleased(old(rows), now)
      ensures released == |set id | id in old(rows) && HeldByQuietHours(old(rows)[id])|
      ensures forall id | id in rows :: !HeldByQuietHours(rows[id])
      ensures forall id | Due(old(rows), id, now) :: Due(rows, id, now)
      ensures rows.Keys == old(rows).Keys
      ensures forall id | id in rows ::
                rows[id] == if old(rows)[id].state == PENDING && old(rows)[id].quietDeferred
                            then old(rows)[id].(nextAttemptAt := now, quietDeferred := false) else old(rows)[id]
      ensures old(RowsInvariant(Table(rows, nextId))) ==> RowsInvariant(Table(rows, nextId))
    {
      released := |set id | id in rows && HeldByQuietHours(rows[id])|;
      rows := QuietReleased(rows, now);
    }

    /** RequeueNotificationDelivery: nothing is returned for a delivery that is not DEAD. */
    method Requeue(id: int, now: int) returns (ok: bool, requeued: Option<Delivery>)
      modifies this`rows
      ensures ok == (id > 0)
      ensures rows == if ok then Requeued(old(rows), id, now) else old(rows)
      ensures OnlyRowAt(old(rows), rows, id) && (ok && id in rows && old(rows)[id].state != DEAD ==> rows == old(rows))
      ensures ok && id in rows && old(rows)[id].state == DEAD ==>
                && rows[id].state == PENDING && rows[id].attempts == 0 && rows[id].nextAttemptAt == now
                && rows[id].lastError == "" && !rows[id].quietDeferred && rows[id].sentAt == old(rows)[id].sentAt
      ensures requeued.Some? <==> ok && id in old(rows) && old(rows)[id].state == DEAD
      ensures requeued.Some? ==> requeued.value == rows[id]
      ensures old(RowsInvariant(Table(rows, nextId))) ==> RowsInvariant(Table(rows, nextId))
    {
      if id <= 0 {
        return false, None;
      }
      ok, requeued := true, None;
      if id in rows && rows[id].state == DEAD {
        rows := rows[id := rows[id].(state := PENDING, attempts := 0, nextAttemptAt := now, lastError := "", quietDeferred := false)];
        requeued := Some(rows[id]);
      }
    }

    /** PruneNotificationDeliveries */
    method Prune(before: int) returns (pruned: nat)
      modifies this`rows
      ensures rows == Pruned(old(rows), before)
      ensures forall id :: id in rows <==>
                id in old(rows) && !((old(rows)[id].state == SENT || old(rows)[id].state == DEAD) && old(rows)[id].createdAt < before)
      ensures forall id | id in rows :: rows[id] == old(rows)[id]
      ensures |rows| + pruned == |old(rows)|
      ensures forall id | id in rows :: !Prunable(rows[id], before)
      ensures old(RowsInvariant(Table(rows, nextId))) ==> RowsInvariant(Table(rows, nextId))
    {
      var gone := set id | id in rows && Prunable(rows[id], before);
      ghost var all := rows;
      pruned := |gone|;
      rows := Pruned(rows, before);
      assert rows.Keys == all.Keys - gone;
      assert |rows| == |rows.Keys| && |all| == |all.Keys|;
    }
  }

  // ----- The claim's selection -----

  /** ORDER BY next_attempt_at, id LIMIT: the first due rows, one at a time. */
  method PickDue(rows: Rows, limit: int, locked: set<nat>, now: int) returns (picked: set<nat>)
    ensures IsPick(rows, now, limit, locked, picked)
  {
    picked := {};
    var rest := set id | id in rows && Due(rows, id, now) && id !in locked;
    while rest != {} && |picked| < limit
      invariant forall id | id in picked :: Due(rows, id, now) && id !in locked
      invariant forall id | Due(rows, id, now) && id !in locked :: id in picked || id in rest
      invariant forall id | id in rest :: Due(rows, id, now) && id !in locked && id !in picked
      invariant |picked| <= (if limit < 0 then 0 else limit)
      invariant forall a, b | a in picked && b in rest :: DueBefore(rows, a, b)
      decreases rest
    {
      var first := FirstDue(rows, rest);
      picked, rest := picked + {first}, rest - {first};
    }
  }

  method FirstDue(rows: Rows, ids: set<nat>) returns (first: nat)
    requires ids != {} && forall id | id in ids :: id in rows
    ensures first in ids && forall id | id in ids && id != first :: DueBefore(rows, first, id)
  {
    first :| first in ids;
    var rest := ids - {first};
    while rest != {}
      invariant rest <= ids && first in ids && first !in rest
      invariant forall id | id in ids && id !in rest && id != first :: DueBefore(rows, first, id)
      decreases rest
    {
      var id :| id in rest;
      if DueBefore(rows, id, first) {
        first := id;
      }
      rest := rest - {id};
    }
  }
}
