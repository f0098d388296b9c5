/**
 The meta registry: the current rows and their history, changed by batches and statistics refreshes.
 A batch runs in its caller's transaction, which is rolled back when it fails.
 */
module MetaRegistry {
  import opened Ordering
  import opened ProtoMessage
  import opened Fingerprint
  import opened MetaHistory
  import opened MetaMutations

  class Registry {
    var current: Snapshot
    var history: seq<History>
    var nextId: nat
    /** The snapshot after each batch, and the time of the last one. */
    ghost var log: seq<Observed>
    ghost var clock: int

    ghost predicate Valid()
      reads this
    {
      && UniqueIds(current, nextId)
      && Intervals(history, clock)
      && OpenAgrees(history, current)
      && Faithful(log, history)
    }

    constructor ()
      ensures Valid() && current == map[] && history == [] && log == []
    {
      current, history, nextId, log, clock := map[], [], 0, [], 0;
    }

    /** The upsert: a batch that names a row twice fails as a whole. */
    method Upsert(creates: seq<Create>) returns (ok: bool)
      modifies this`current, this`nextId
      ensures ok <==> DistinctKeys(creates)
      ensures ok ==> current == UpsertedAll(old(current), creates, old(nextId)) && nextId == old(nextId) + |creates|
      ensures !ok ==> current == old(current) && nextId == old(nextId)
    {
      var rows := current;
      var touched: set<MetaKey> := {};
      for i := 0 to |creates|
        invariant UpsertedSoFar(current, creates, nextId, i, rows, touched)
        modifies {}
      {
        UpsertStep(current, creates, nextId, i, rows, touched);
        if creates[i].key in touched {
          return false;
        }
        rows, touched := Upserted(rows, creates[i], nextId + i), touched + {creates[i].key};
      }
      assert creates[..|creates|] == creates;
      current, nextId, ok := rows, nextId + |creates|, true;
    }

    /** listOpenMetaRegistryHistoryByKey */
    method ListOpen(keys: set<MetaKey>) returns (existing: map<MetaKey, History>)
      ensures FindsOpen(history, existing, keys)
    {
      existing := map[];
      for i := 0 to |history|
        invariant FindsOpen(history[..i], existing, keys)
      {
        var h := history[i];
        assert history[..i + 1] == history[..i] + [h];
        if h.key in keys && Open(h) {
          existing := existing[h.key := h];
        }
      }
      assert history[..|history|] == history;
    }

    /** upsertMetaRegistryHistory */
    method UpsertHistory(creates: seq<Create>, observedAt: int) returns (ghost existing: map<MetaKey, History>)
      modifies this`history
      ensures FindsOpen(old(history), existing, KeysOf(creates))
      ensures history == HistoryAfterCreate(old(history), existing, creates, observedAt)
    {
      var open := ListOpen(KeysOf(creates));
      existing := open;
      var toClose, toOpen := BuildHistoryMutations(open, creates);
      history := CloseOpen(history, HistoryKeys(toClose), observedAt);
      history := history + OpenedAll(toOpen, observedAt);
    }

    /** BatchCreateMetaRegistryResourceAt */
    method BatchCreateAt(creates: seq<Create>, observedAt: int) returns (ok: bool, ids: seq<nat>, ghost existing: map<MetaKey, History>)
      requires Valid() && clock <= observedAt
      modifies this
      ensures Valid()
      ensures ok <==> DistinctKeys(creates)
      ensures ok ==> current == UpsertedAll(old(current), creates, old(nextId)) && nextId == old(nextId) + |creates|
      ensures ok ==> |ids| == |creates| && forall i | 0 <= i < |ids| :: creates[i].key in current && ids[i] == current[creates[i].key].id
      ensures ok && creates != [] ==> FindsOpen(old(history), existing, KeysOf(creates))
      ensures ok && creates != [] ==> history == HistoryAfterCreate(old(history), existing, creates, observedAt)
      ensures ok && creates != [] ==> log == old(log) + [Observed(observedAt, current)] && clock == observedAt
      ensures !ok || creates == [] ==> current == old(current) && nextId == old(nextId) && history == old(history) && log == old(log) && clock == old(clock)
    {
      ok, ids, existing := true, [], map[];
      if |creates| == 0 {
        return;
      }
      ghost var current0, history0, nextId0 := current, history, nextId;
      ok := Upsert(creates);
      if !ok {
        return;
      }
      ids := ReturnedIds(current0, creates, nextId0);
      existing := UpsertHistory(creates, observedAt);
      CreateEvolves(history0, existing, creates, observedAt, clock);
      CreateOpenAgrees(history0, existing, creates, observedAt, current0, nextId0);
      FaithfulStep(log, history0, history, current, clock, observedAt);
      UpsertKeepsUniqueIds(current0, creates, nextId0);
      log, clock := log + [Observed(observedAt, current)], observedAt;
    }

    /** The ids of the written rows, matched back by key. */
    method ReturnedIds(ghost rows: Snapshot, creates: seq<Create>, ghost id: nat) returns (ids: seq<nat>)
      requires DistinctKeys(creates) && current == UpsertedAll(rows, creates, id)
      ensures |ids| == |creates|
      ensures forall i | 0 <= i < |ids| :: creates[i].key in current && ids[i] == current[creates[i].key].id
    {
      ids := [];
      for i := 0 to |creates|
        invariant |ids| == i
        invariant forall j | 0 <= j < i :: creates[j].key in current && ids[j] == current[creates[j].key].id
      {
        UpsertedAt(rows, creates, id, creates[i].key);
        ids := ids + [current[creates[i].key].id];
      }
    }

    /** BatchDeleteMetaRegistryAt */
    method BatchDeleteAt(list: seq<Doomed>, observedAt: int)
      requires Valid() && clock <= observedAt
      modifies this
      ensures current == WithoutIds(old(current), DoomedIds(list)) && nextId == old(nextId)
      ensures list == [] ==> history == old(history) && log == old(log) && clock == old(clock)
      ensures list != [] ==> history == CloseOpen(old(history), DoomedKeys(list), observedAt)
      ensures list != [] ==> log == old(log) + [Observed(observedAt, current)] && clock == observedAt
      ensures Valid() <==> NamesSameRows(old(current), list)
    {
      if |list| == 0 {
        DropsNothing(current, list);
        assert NamesSameRows(current, list);
        return;
      }
      DeletedIsValid(log, history, current, nextId, clock, list, observedAt);
      history := CloseOpen(history, DoomedKeys(list), observedAt);
      current := WithoutIds(current, DoomedIds(list));
      log, clock := log + [Observed(observedAt, current)], observedAt;
    }

    /** BatchUpdateMetaRegistryStatistics: no history row, no new fingerprint; a row that changed meanwhile is skipped. */
    method UpdateStatistics(updates: seq<Create>) returns (affected: nat)
      requires Valid()
      modifies this`current
      ensures Valid()
      ensures Refreshed(updates, old(current), current)
      ensures affected == |RefreshedKeys(updates, old(current))|
    {
      var rows := current;
      var refreshed: set<MetaKey>;
      current, refreshed := RefreshRows(updates, current);
      affected := |refreshed|;
      RefreshKeepsAgreement(history, updates, rows, current, nextId);
    }

    /** The rows a read as of `t` returns. */
    method ReadAsOf(t: int) returns (rows: seq<History>)
      requires Valid()
      ensures rows == VisibleRows(history, t)
      ensures forall i, j | 0 <= i < j < |rows| :: rows[i].key != rows[j].key
      ensures var snapshot := SnapshotAt(log, t);
              && (forall i | 0 <= i < |rows| :: rows[i].key in snapshot && snapshot[rows[i].key].metaHash == rows[i].metaHash)
              && (forall key | key in snapshot :: exists i :: 0 <= i < |rows| && rows[i].key == key)
    {
      rows := [];
      for n := 0 to |history|
        invariant rows == VisibleRows(history[..n], t)
      {
        assert history[..n + 1][..n] == history[..n];
        if Visible(history[n], t) {
          rows := rows + [history[n]];
        }
      }
      assert history[..|history|] == history;
      VisibleRowsDistinct(history, clock, t);
      ReadsSnapshot(log, history, t);
    }
  }

  lemma DeletedIsValid(log: seq<Observed>, history: seq<History>, current: Snapshot, nextId: nat, clock: int, list: seq<Doomed>, now: int)
    requires UniqueIds(current, nextId) && Intervals(history, clock) && OpenAgrees(history, current) && Faithful(log, history) && clock <= now
    ensures var rest, closed := WithoutIds(current, DoomedIds(list)), CloseOpen(history, DoomedKeys(list), now);
            && UniqueIds(rest, nextId)
            && (OpenAgrees(closed, rest) <==> NamesSameRows(current, list))
            && (NamesSameRows(current, list) ==> Intervals(closed, now) && Faithful(log + [Observed(now, rest)], closed))
  {
    DeleteKeepsAgreement(history, current, list, now);
    CloseEvolves(history, DoomedKeys(list), now);
    if NamesSameRows(current, list) {
      FaithfulStep(log, history, CloseOpen(history, DoomedKeys(list), now), WithoutIds(current, DoomedIds(list)), clock, now);
    }
  }

  lemma ReadsSnapshot(log: seq<Observed>, history: seq<History>, t: int)
    requires Faithful(log, history)
    ensures var rows, snapshot := VisibleRows(history, t), SnapshotAt(log, t);
            && (forall i | 0 <= i < |rows| :: rows[i].key in snapshot && snapshot[rows[i].key].metaHash == rows[i].metaHash)
            && (forall key | key in snapshot :: exists i :: 0 <= i < |rows| && rows[i].key == key)
  {
    var rows, snapshot := VisibleRows(history, t), SnapshotAt(log, t);
    assert ShowsAt(history, snapshot, t);
    forall i | 0 <= i < |rows| ensures rows[i].key in snapshot && snapshot[rows[i].key].metaHash == rows[i].metaHash {
      VisibleRowsAre(history, t, rows[i]);
      var j :| 0 <= j < |history| && history[j] == rows[i];
      assert Visible(history[j], t);
    }
    forall key | key in snapshot ensures exists i :: 0 <= i < |rows| && rows[i].key == key {
      assert HasVisible(history, key, t);
      var j :| 0 <= j < |history| && history[j].key == key && Visible(history[j], t);
      VisibleRowsAre(history, t, history[j]);
      var i :| 0 <= i < |rows| && rows[i] == history[j];
    }
  }

  /** The part of the update done so far: the keys visited, and those of them rewritten. */
  ghost predicate RefreshedUpTo(updates: seq<Create>, before: Snapshot, after: Snapshot, visited: set<MetaKey>, refreshed: set<MetaKey>) {
    && before.Keys == after.Keys
    && refreshed == visited * RefreshedKeys(updates, before)
    && forall key | key in before ::
         if key in visited then RefreshedRow(updates, key, before[key], after[key]) else after[key] == before[key]
  }

  method RefreshRows(updates: seq<Create>, rows: Snapshot) returns (next: Snapshot, refreshed: set<MetaKey>)
    ensures Refreshed(updates, rows, next) && refreshed == RefreshedKeys(updates, rows)
  {
    next, refreshed := rows, {};
    var rest := rows.Keys;
    while rest != {}
      invariant rest <= rows.Keys && RefreshedUpTo(updates, rows, next, rows.Keys - rest, refreshed)
      decreases rest
    {
      var key :| key in rest;
      assert rows.Keys - (rest - {key}) == (rows.Keys - rest) + {key};
      var update := FindUpdate(updates, key, rows[key]);
      if update.Some? {
        next := next[key := next[key].(metadata := update.value.metadata)];
        refreshed := refreshed + {key};
      }
      rest := rest - {key};
    }
    assert rows.Keys * RefreshedKeys(updates, rows) == RefreshedKeys(updates, rows);
  }

  method FindUpdate(updates: seq<Create>, key: MetaKey, row: Row) returns (update: Option<Create>)
    ensures update.Some? ==> update.value in updates && Refreshes(update.value, key, row)
    ensures update.None? ==> forall u | u in updates :: !Refreshes(u, key, row)
  {
    for i := 0 to |updates|
      invariant forall j | 0 <= j < i :: !Refreshes(updates[j], key, row)
    {
      if Refreshes(updates[i], key, row) {
        return Some(updates[i]);
      }
    }
    update := None;
  }

  // ----- Time travel up to statistics -----

  ghost predicate Fingerprinted(schema: Schema, descriptor: string, metadata: Message, metaHash: Bytes) {
    IsMessage(schema, metadata, descriptor) && metaHash == HashedBytes(metadata)
  }

  ghost predicate AllCreates(schema: Schema, descriptor: string, creates: seq<Create>) {
    forall c | c in creates :: Fingerprinted(schema, descriptor, c.metadata, c.metaHash)
  }

  ghost predicate AllRows(schema: Schema, descriptor: string, rows: Snapshot) {
    forall key | key in rows :: Fingerprinted(schema, descriptor, rows[key].metadata, rows[key].metaHash)
  }

  ghost predicate AllHistory(schema: Schema, descriptor: string, history: seq<History>) {
    forall h | h in history :: Fingerprinted(schema, descriptor, h.metadata, h.metaHash)
  }

  ghost predicate AllLogged(schema: Schema, descriptor: string, log: seq<Observed>) {
    forall i | 0 <= i < |log| :: AllRows(schema, descriptor, log[i].rows)
  }

  lemma {:induction false} UpsertKeepsFingerprints(schema: Schema, descriptor: string, rows: Snapshot, creates: seq<Create>, id: nat)
    requires AllRows(schema, descriptor, rows) && AllCreates(schema, descriptor, creates)
    ensures AllRows(schema, descriptor, UpsertedAll(rows, creates, id))
  {
    if creates != [] {
      assert creates == creates[..|creates| - 1] + [creates[|creates| - 1]];
      UpsertKeepsFingerprints(schema, descriptor, rows, creates[..|creates| - 1], id);
    }
  }

  lemma CreateKeepsFingerprints(schema: Schema, descriptor: string, history: seq<History>, existing: map<MetaKey, History>,
                                creates: seq<Create>, now: int)
    requires AllHistory(schema, descriptor, history) && AllCreates(schema, descriptor, creates)
    ensures AllHistory(schema, descriptor, HistoryAfterCreate(history, existing, creates, now))
  {
    CloseKeepsFingerprints(schema, descriptor, history, HistoryKeys(ToClose(existing, creates)), now);
    var toOpen := ToOpen(existing, creates);
    forall h | h in OpenedAll(toOpen, now) ensures Fingerprinted(schema, descriptor, h.metadata, h.metaHash) {
      var i :| 0 <= i < |toOpen| && h == Opened(toOpen[i], now);
      ToOpenMembers(existing, creates, toOpen[i]);
    }
  }

  lemma CloseKeepsFingerprints(schema: Schema, descriptor: string, history: seq<History>, keys: set<MetaKey>, now: int)
    requires AllHistory(schema, descriptor, history)
    ensures AllHistory(schema, descriptor, CloseOpen(history, keys, now))
  {
    forall h | h in CloseOpen(history, keys, now) ensures Fingerprinted(schema, descriptor, h.metadata, h.metaHash) {
      var i :| 0 <= i < |history| && h == CloseOne(history[i], keys, now);
      assert history[i] in history;
    }
  }

  lemma RefreshKeepsFingerprints(schema: Schema, descriptor: string, updates: seq<Create>, before: Snapshot, after: Snapshot)
    requires Refreshed(updates, before, after)
    requires AllRows(schema, descriptor, before) && AllCreates(schema, descriptor, updates)
    ensures AllRows(schema, descriptor, after)
    ensures forall key | key in before :: Normalize(after[key].metadata) == Normalize(before[key].metadata)
  {
    forall key | key in before
      ensures Fingerprinted(schema, descriptor, after[key].metadata, after[key].metaHash)
      ensures Normalize(after[key].metadata) == Normalize(before[key].metadata)
    {
      assert RefreshedRow(updates, key, before[key], after[key]);
      FingerprintIdentifiesContent(schema, descriptor, after[key].metadata, before[key].metadata);
    }
  }

  lemma {:induction false} LoggedSnapshot(schema: Schema, descriptor: string, log: seq<Observed>, t: int)
    requires AllLogged(schema, descriptor, log)
    ensures AllRows(schema, descriptor, SnapshotAt(log, t))
  {
    if log != [] { LoggedSnapshot(schema, descriptor, log[..|log| - 1], t); }
  }

  /** The rows show `snapshot`, with the same content: all of the metadata but the statistics. */
  ghost predicate ShowsContent(rows: seq<History>, snapshot: Snapshot) {
    && (forall i, j | 0 <= i < j < |rows| :: rows[i].key != rows[j].key)
    && (forall h | h in rows :: h.key in snapshot && Normalize(h.metadata) == Normalize(snapshot[h.key].metadata))
    && (forall key | key in snapshot :: exists i :: 0 <= i < |rows| && rows[i].key == key)
  }

  lemma ReadsContent(schema: Schema, descriptor: string, log: seq<Observed>, history: seq<History>, clock: int, t: int)
    requires Faithful(log, history) && Intervals(history, clock)
    requires AllHistory(schema, descriptor, history) && AllLogged(schema, descriptor, log)
    ensures ShowsContent(VisibleRows(history, t), SnapshotAt(log, t))
  {
    var rows, snapshot := VisibleRows(history, t), SnapshotAt(log, t);
    VisibleRowsDistinct(history, clock, t);
    ReadsSnapshot(log, history, t);
    LoggedSnapshot(schema, descriptor, log, t);
    forall h | h in rows ensures h.key in snapshot && Normalize(h.metadata) == Normalize(snapshot[h.key].metadata) {
      var i :| 0 <= i < |rows| && rows[i] == h;
      VisibleRowsAre(history, t, h);
      FingerprintIdentifiesContent(schema, descriptor, h.metadata, snapshot[h.key].metadata);
    }
  }

  /** One call of the registry's owner. */
  datatype Operation =
    | Sync(creates: seq<Create>, at: int)
    | Drop(list: seq<Doomed>, at: int)
    | Refresh(updates: seq<Create>)

  /** What the owner sees of the registry, with the snapshots its batches left behind. */
  datatype Contents = Contents(current: Snapshot, nextId: nat, log: seq<Observed>, clock: int)

  ghost function ContentsOf(r: Registry): Contents
    reads r
  {
    Contents(r.current, r.nextId, r.log, r.clock)
  }

  ghost function Logged(before: Contents, current: Snapshot, nextId: nat, at: int): Contents {
    Contents(current, nextId, before.log + [Observed(at, current)], at)
  }

  /** One call: an effective batch adds its snapshot to the log, a refresh only rewrites matching rows. */
  ghost predicate Performs(before: Contents, op: Operation, after: Contents) {
    match op
    case Sync(creates, at) =>
      after == if creates == [] || !DistinctKeys(creates) then before
               else Logged(before, UpsertedAll(before.current, creates, before.nextId), before.nextId + |creates|, at)
    case Drop(list, at) =>
      after == if list == [] then before else Logged(before, WithoutIds(before.current, DoomedIds(list)), before.nextId, at)
    case Refresh(updates) => Refreshed(updates, before.current, after.current) && after == before.(current := after.current)
  }

  /** The contents a run goes through, as far as it has come. */
  ghost predicate Goes(trace: seq<Contents>, operations: seq<Operation>) {
    0 < |trace| <= |operations| + 1 && forall i | 0 <= i < |trace| - 1 :: Performs(trace[i], operations[i], trace[i + 1])
  }

  ghost predicate AllFingerprinted(schema: Schema, descriptor: string, r: Registry)
    reads r
  {
    && AllRows(schema, descriptor, r.current) && AllHistory(schema, descriptor, r.history)
    && AllLogged(schema, descriptor, r.log)
  }

  /** Callers fingerprint what they write, name rows they have read, and observe in order. */
  ghost predicate Orderly(schema: Schema, descriptor: string, c: Contents, op: Operation) {
    match op
    case Sync(creates, at) => AllCreates(schema, descriptor, creates) && c.clock <= at
    case Drop(list, at) => NamesSameRows(c.current, list) && c.clock <= at
    case Refresh(updates) => AllCreates(schema, descriptor, updates)
  }

  /** Every call of the run is orderly in whatever contents it finds. */
  ghost predicate OrderlyRun(schema: Schema, descriptor: string, start: Contents, operations: seq<Operation>) {
    forall trace | Goes(trace, operations) && trace[0] == start && |trace| <= |operations| ::
      Orderly(schema, descriptor, trace[|trace| - 1], operations[|trace| - 1])
  }

  method SyncBatch(r: Registry, creates: seq<Create>, at: int, ghost schema: Schema, ghost descriptor: string)
    requires r.Valid() && AllFingerprinted(schema, descriptor, r) && r.clock <= at && AllCreates(schema, descriptor, creates)
    modifies r
    ensures r.Valid() && AllFingerprinted(schema, descriptor, r)
    ensures Performs(old(ContentsOf(r)), Sync(creates, at), ContentsOf(r))
  {
    ghost var current0, history0, log0, id := r.current, r.history, r.log, r.nextId;
    var ok, ids, existing := r.BatchCreateAt(creates, at);
    if ok && creates != [] {
      CreateKeepsFingerprints(schema, descriptor, history0, existing, creates, at);
      UpsertKeepsFingerprints(schema, descriptor, current0, creates, id);
      LogKeepsFingerprints(schema, descriptor, log0, Observed(at, r.current));
    }
  }

  method DropBatch(r: Registry, list: seq<Doomed>, at: int, ghost schema: Schema, ghost descriptor: string)
    requires r.Valid() && AllFingerprinted(schema, descriptor, r) && r.clock <= at && NamesSameRows(r.current, list)
    modifies r
    ensures r.Valid() && AllFingerprinted(schema, descriptor, r)
    ensures Performs(old(ContentsOf(r)), Drop(list, at), ContentsOf(r))
  {
    ghost var history0, log0 := r.history, r.log;
    DropsNothing(r.current, list);
    r.BatchDeleteAt(list, at);
    CloseKeepsFingerprints(schema, descriptor, history0, DoomedKeys(list), at);
    LogKeepsFingerprints(schema, descriptor, log0, Observed(at, r.current));
  }

  lemma DropsNothing(rows: Snapshot, list: seq<Doomed>)
    ensures list == [] ==> WithoutIds(rows, DoomedIds(list)) == rows
  {
  }

  lemma LogKeepsFingerprints(schema: Schema, descriptor: string, log: seq<Observed>, last: Observed)
    requires AllLogged(schema, descriptor, log) && AllRows(schema, descriptor, last.rows)
    ensures AllLogged(schema, descriptor, log + [last])
  {
  }

  /** One orderly call. */
  method Step(r: Registry, op: Operation, ghost schema: Schema, ghost descriptor: string)
    requires r.Valid() && AllFingerprinted(schema, descriptor, r) && Orderly(schema, descriptor, ContentsOf(r), op)
    modifies r
    ensures r.Valid() && AllFingerprinted(schema, descriptor, r)
    ensures Performs(old(ContentsOf(r)), op, ContentsOf(r))
  {
    ghost var rows := r.current;
    match op {
      case Sync(creates, at) =>
        SyncBatch(r, creates, at, schema, descriptor);
      case Drop(list, at) =>
        DropBatch(r, list, at, schema, descriptor);
      case Refresh(updates) =>
        var affected := r.UpdateStatistics(updates);
        RefreshKeepsFingerprints(schema, descriptor, updates, rows, r.current);
    }
  }

  lemma GoesOn(trace: seq<Contents>, operations: seq<Operation>, next: Contents)
    requires Goes(trace, operations) && |trace| <= |operations|
    requires Performs(trace[|trace| - 1], operations[|trace| - 1], next)
    ensures Goes(trace + [next], operations)
  {
  }

  /**
   Main result: a run of orderly calls takes the contents through exactly those calls, and after it
   every read as of any time shows the snapshot of that time.
   */
  method Perform(r: Registry, operations: seq<Operation>, ghost schema: Schema, ghost descriptor: string) returns (ghost trace: seq<Contents>)
    requires r.Valid() && AllFingerprinted(schema, descriptor, r) && OrderlyRun(schema, descriptor, ContentsOf(r), operations)
    modifies r
    ensures Goes(trace, operations) && |trace| == |operations| + 1
    ensures trace[0] == old(ContentsOf(r)) && trace[|operations|] == ContentsOf(r)
    ensures r.Valid() && AllFingerprinted(schema, descriptor, r)
    ensures forall t: int :: ShowsContent(VisibleRows(r.history, t), SnapshotAt(r.log, t))
  {
    ghost var start := ContentsOf(r);
    trace := [start];
    for i := 0 to |operations|
      invariant Goes(trace, operations) && |trace| == i + 1 && trace[0] == start && trace[i] == ContentsOf(r)
      invariant r.Valid() && AllFingerprinted(schema, descriptor, r)
    {
      Step(r, operations[i], schema, descriptor);
      GoesOn(trace, operations, ContentsOf(r));
      trace := trace + [ContentsOf(r)];
    }
    forall t: int ensures ShowsContent(VisibleRows(r.history, t), SnapshotAt(r.log, t)) {
      ReadsContent(schema, descriptor, r.log, r.history, r.clock, t);
    }
  }
}
