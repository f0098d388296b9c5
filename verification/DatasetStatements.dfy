/**
 What the batched aggregate statements leave behind, as folds over the transaction's deltas. The
 chunked methods are proved to compute exactly these folds.
 */
module DatasetStatements {
  import opened Ordering
  import opened DatasetReferences
  import opened DatasetDeltas
  import opened DatasetTables
  import opened LockOrder

  type Datasets = map<DatasetKey, Aggregate>

  /** Rows one batched aggregate statement carries. */
  const MAX_AGGREGATE_ROWS := 1000

  function Min(a: nat, b: nat): nat { if a < b then a else b }

  /** One row of the batched aggregate update. */
  datatype RowUpdate = RowUpdate(
    refCount: int,
    sourceJobCount: int,
    targetJobCount: int,
    columnLineageRefCount: int,
    recompute: bool,
    addedLastSeen: Option<int>)

  function UpdatedRow(refs: seq<Ref>, dataset: DatasetKey, row: Aggregate, u: RowUpdate): Aggregate {
    Aggregate(u.refCount, u.sourceJobCount, u.targetJobCount, u.columnLineageRefCount,
      if u.recompute then NewestEventTime(refs, dataset) else Greatest(row.lastSeen, u.addedLastSeen))
  }

  function RowUpdateOf(delta: Delta, state: Aggregate, jobs: Jobs): RowUpdate {
    RowUpdate(
      state.refCount + delta.refDelta,
      state.sourceJobCount + JobChange(jobs, delta.dataset, InputTask),
      state.targetJobCount + JobChange(jobs, delta.dataset, OutputTask),
      state.columnLineageRefCount + delta.columnLineageRefDelta,
      delta.removed,
      delta.lastSeen)
  }

  /** The last reference of the delta's dataset went away. */
  predicate Empties(delta: Delta, state: Aggregate) {
    state.refCount + delta.refDelta <= 0
  }

  function RowOrEmpty(rows: Datasets, dataset: DatasetKey): Aggregate {
    if dataset in rows then rows[dataset] else EMPTY_AGGREGATE
  }

  /** The state read under each dataset's lock. */
  function LockedStates(rows: Datasets, deltas: seq<Delta>): Datasets {
    if deltas == [] then map[]
    else
      var dataset := deltas[|deltas| - 1].dataset;
      LockedStates(rows, deltas[..|deltas| - 1])[dataset := RowOrEmpty(rows, dataset)]
  }

  lemma {:induction false} LockedStatesAt(rows: Datasets, deltas: seq<Delta>)
    ensures forall d :: d in LockedStates(rows, deltas) <==> Lists(deltas, d)
    ensures forall d | d in LockedStates(rows, deltas) :: LockedStates(rows, deltas)[d] == RowOrEmpty(rows, d)
  {
    if deltas != [] {
      var n := |deltas| - 1;
      LockedStatesAt(rows, deltas[..n]);
      forall d ensures Lists(deltas, d) <==> Lists(deltas[..n], d) || d == deltas[n].dataset {
      }
    }
  }

  lemma AllAreLocked(rows: Datasets, deltas: seq<Delta>)
    ensures forall i | 0 <= i < |deltas| :: deltas[i].dataset in LockedStates(rows, deltas)
  {
    LockedStatesAt(rows, deltas);
    assert forall i | 0 <= i < |deltas| :: Lists(deltas, deltas[i].dataset);
  }

  lemma LockStep(rows: Datasets, deltas: seq<Delta>, i: nat)
    requires i < |deltas|
    ensures var d, states := deltas[i].dataset, LockedStates(rows, deltas[..i]);
            && LockedStates(rows, deltas[..i + 1]) == states[d := RowOrEmpty(rows + states, d)]
            && rows + LockedStates(rows, deltas[..i + 1]) == (rows + states)[d := RowOrEmpty(rows + states, d)]
  {
    LockedStatesAt(rows, deltas[..i]);
    assert deltas[..i + 1][..i] == deltas[..i];
  }

  /** One delta's effect on the aggregate rows. */
  function RewriteRow(refs: seq<Ref>, rows: Datasets, delta: Delta, states: Datasets, jobs: Jobs): Datasets {
    var d := delta.dataset;
    var state := RowOrEmpty(states, d);
    if Empties(delta, state) then rows - {d}
    else if d in rows then rows[d := UpdatedRow(refs, d, rows[d], RowUpdateOf(delta, state, jobs))]
    else rows
  }

  function RewriteRows(refs: seq<Ref>, rows: Datasets, deltas: seq<Delta>, states: Datasets, jobs: Jobs): Datasets {
    if deltas == [] then rows
    else RewriteRow(refs, RewriteRows(refs, rows, deltas[..|deltas| - 1], states, jobs), deltas[|deltas| - 1], states, jobs)
  }

  lemma {:induction false} RewriteRowsUnlisted(refs: seq<Ref>, rows: Datasets, deltas: seq<Delta>, states: Datasets, jobs: Jobs, d: DatasetKey)
    requires !Lists(deltas, d)
    ensures var after := RewriteRows(refs, rows, deltas, states, jobs);
            (d in after <==> d in rows) && (d in rows ==> after[d] == rows[d])
  {
    if deltas != [] {
      RewriteRowsUnlisted(refs, rows, deltas[..|deltas| - 1], states, jobs, d);
    }
  }

  lemma {:induction false} RewriteRowsListed(refs: seq<Ref>, rows: Datasets, deltas: seq<Delta>, states: Datasets, jobs: Jobs, i: nat)
    requires Ascending(deltas) && i < |deltas| && deltas[i].dataset in rows
    ensures var after, d := RewriteRows(refs, rows, deltas, states, jobs), deltas[i].dataset;
            if Empties(deltas[i], RowOrEmpty(states, d)) then d !in after
            else d in after && after[d] == UpdatedRow(refs, d, rows[d], RowUpdateOf(deltas[i], RowOrEmpty(states, d), jobs))
  {
    KeyLessIrreflexive();
    var n := |deltas| - 1;
    if i == n {
      assert forall j | 0 <= j < n :: KeyLess(deltas[..n][j].dataset, deltas[n].dataset);
      RewriteRowsUnlisted(refs, rows, deltas[..n], states, jobs, deltas[i].dataset);
    } else {
      assert KeyLess(deltas[i].dataset, deltas[n].dataset);
      RewriteRowsListed(refs, rows, deltas[..n], states, jobs, i);
    }
  }

  function WithoutDatasets(members: Members, gone: set<DatasetKey>): Members {
    map r | r in members && r.dataset !in gone :: members[r]
  }

  /** Deleting a dataset row takes its member rows with it. */
  function Cascade(members: Members, deltas: seq<Delta>, states: Datasets): Members {
    if deltas == [] then members
    else
      var rest, last := Cascade(members, deltas[..|deltas| - 1], states), deltas[|deltas| - 1];
      if Empties(last, RowOrEmpty(states, last.dataset)) then WithoutDatasets(rest, {last.dataset}) else rest
  }

  lemma {:induction false} CascadeTakesNothing(members: Members, deltas: seq<Delta>, states: Datasets)
    requires forall i | 0 <= i < |deltas| && Empties(deltas[i], RowOrEmpty(states, deltas[i].dataset)) ::
               forall r | r in members :: r.dataset != deltas[i].dataset
    ensures Cascade(members, deltas, states) == members
  {
    if deltas != [] {
      CascadeTakesNothing(members, deltas[..|deltas| - 1], states);
      assert deltas[|deltas| - 1] == deltas[..][|deltas| - 1];
    }
  }

  /** The batched delete and update of one chunk, each joined to its VALUES list by key. */
  function FlushedRows(refs: seq<Ref>, rows: Datasets, emptied: set<DatasetKey>, updated: map<DatasetKey, RowUpdate>): Datasets {
    map d | d in rows && d !in emptied :: if d in updated then UpdatedRow(refs, d, rows[d], updated[d]) else rows[d]
  }

  lemma FoldStep(refs: seq<Ref>, rows: Datasets, members: Members, deltas: seq<Delta>, i: nat, states: Datasets, jobs: Jobs)
    requires i < |deltas|
    ensures RewriteRows(refs, rows, deltas[..i + 1], states, jobs) ==
            RewriteRow(refs, RewriteRows(refs, rows, deltas[..i], states, jobs), deltas[i], states, jobs)
    ensures Cascade(members, deltas[..i + 1], states) ==
            if Empties(deltas[i], RowOrEmpty(states, deltas[i].dataset))
            then WithoutDatasets(Cascade(members, deltas[..i], states), {deltas[i].dataset})
            else Cascade(members, deltas[..i], states)
  {
    assert deltas[..i + 1][..i] == deltas[..i];
  }

  /** Adding one more delta to a chunk's lists is rewriting one more row. */
  lemma CollectStep(refs: seq<Ref>, rows: Datasets, members: Members, emptied: set<DatasetKey>,
                    updated: map<DatasetKey, RowUpdate>, delta: Delta, states: Datasets, jobs: Jobs)
    requires delta.dataset !in emptied && delta.dataset !in updated
    ensures var d, state := delta.dataset, RowOrEmpty(states, delta.dataset);
            var one := RewriteRow(refs, FlushedRows(refs, rows, emptied, updated), delta, states, jobs);
            if Empties(delta, state) then
              && FlushedRows(refs, rows, emptied + {d}, updated) == one
              && WithoutDatasets(members, emptied + {d}) == WithoutDatasets(WithoutDatasets(members, emptied), {d})
            else FlushedRows(refs, rows, emptied, updated[d := RowUpdateOf(delta, state, jobs)]) == one
  {
  }

  /** The datasets of the deltas from `start` up to `n`. */
  ghost function KeysBetween(deltas: seq<Delta>, start: nat, n: nat): set<DatasetKey>
    requires start <= n <= |deltas|
  {
    if start == n then {} else KeysBetween(deltas, start, n - 1) + {deltas[n - 1].dataset}
  }

  lemma {:induction false} KeysBetweenAt(deltas: seq<Delta>, start: nat, n: nat, d: DatasetKey)
    requires start <= n <= |deltas|
    ensures d in KeysBetween(deltas, start, n) <==> exists i :: start <= i < n && deltas[i].dataset == d
  {
    if start < n { KeysBetweenAt(deltas, start, n - 1, d); }
  }

  lemma FreshKey(deltas: seq<Delta>, start: nat, i: nat)
    requires Ascending(deltas) && start <= i < |deltas|
    ensures deltas[i].dataset !in KeysBetween(deltas, start, i)
  {
    KeyLessIrreflexive();
    KeysBetweenAt(deltas, start, i, deltas[i].dataset);
  }

  /** The delete and update lists of one chunk. */
  datatype Chunk = Chunk(emptied: set<DatasetKey>, updated: map<DatasetKey, RowUpdate>)

  function Collect(chunk: Chunk, delta: Delta, state: Aggregate, jobs: Jobs): Chunk {
    if Empties(delta, state) then chunk.(emptied := chunk.emptied + {delta.dataset})
    else chunk.(updated := chunk.updated[delta.dataset := RowUpdateOf(delta, state, jobs)])
  }

  /** Flushing the chunk collected from `start` to `n` is folding those deltas. */
  ghost predicate Collected(chunk: Chunk, start: nat, n: nat, refs: seq<Ref>, rows: Datasets, members: Members,
                            deltas: seq<Delta>, states: Datasets, jobs: Jobs)
    requires start <= n <= |deltas|
  {
    && chunk.emptied + chunk.updated.Keys == KeysBetween(deltas, start, n)
    && FlushedRows(refs, RewriteRows(refs, rows, deltas[..start], states, jobs), chunk.emptied, chunk.updated) ==
       RewriteRows(refs, rows, deltas[..n], states, jobs)
    && WithoutDatasets(Cascade(members, deltas[..start], states), chunk.emptied) == Cascade(members, deltas[..n], states)
  }

  lemma CollectedNothing(start: nat, refs: seq<Ref>, rows: Datasets, members: Members, deltas: seq<Delta>, states: Datasets, jobs: Jobs)
    requires start <= |deltas|
    ensures Collected(Chunk({}, map[]), start, start, refs, rows, members, deltas, states, jobs)
  {
  }

  lemma CollectedStep(chunk: Chunk, start: nat, n: nat, refs: seq<Ref>, rows: Datasets, members: Members,
                      deltas: seq<Delta>, states: Datasets, jobs: Jobs)
    requires Ascending(deltas) && start <= n < |deltas|
    requires Collected(chunk, start, n, refs, rows, members, deltas, states, jobs)
    ensures Collected(Collect(chunk, deltas[n], RowOrEmpty(states, deltas[n].dataset), jobs), start, n + 1,
                      refs, rows, members, deltas, states, jobs)
  {
    var rows0, members0 := RewriteRows(refs, rows, deltas[..start], states, jobs), Cascade(members, deltas[..start], states);
    FreshKey(deltas, start, n);
    CollectStep(refs, rows0, members0, chunk.emptied, chunk.updated, deltas[n], states, jobs);
    FoldStep(refs, rows, members, deltas, n, states, jobs);
  }

  function DatasetLocks(deltas: seq<Delta>): seq<Resource> {
    if deltas == [] then [] else DatasetLocks(deltas[..|deltas| - 1]) + [Dataset(deltas[|deltas| - 1].dataset)]
  }

  ghost predicate AscendingDatasetLocks(locks: seq<Resource>) {
    && (forall i | 0 <= i < |locks| :: locks[i].Dataset?)
    && (forall i, j | 0 <= i < j < |locks| :: ResourceLess(locks[i], locks[j]))
  }

  lemma {:induction false} DatasetLocksAscend(deltas: seq<Delta>)
    requires Ascending(deltas)
    ensures |DatasetLocks(deltas)| == |deltas|
    ensures forall i | 0 <= i < |deltas| :: DatasetLocks(deltas)[i] == Dataset(deltas[i].dataset)
    ensures AscendingDatasetLocks(DatasetLocks(deltas))
  {
    if deltas != [] {
      DatasetLocksAscend(deltas[..|deltas| - 1]);
    }
  }
}
