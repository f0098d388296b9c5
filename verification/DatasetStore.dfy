/**
 The OpenLineage tables and the transactions on them: ingest, retention prune and the sweep of
 empty datasets. Each statement is one atomic step; a batched statement is the sequence of its rows.
 */
module DatasetStore {
  import opened DatasetReferences
  import opened DatasetDeltas
  import opened DatasetTables
  import opened DatasetStatements
  import opened DatasetApplyProof
  import opened DatasetRebuild
  import opened RunReferences
  import opened IngestBatch
  import opened IngestOutcome
  import opened LockOrder
  import opened TransactionLocks

  class Tables {
    var runs: map<RunKey, RunState>
    var rows: seq<RefRow>
    var datasets: Datasets
    var members: Members

    constructor ()
      ensures runs == map[] && rows == [] && datasets == map[] && members == map[]
      ensures Valid()
    {
      runs, rows, datasets, members := map[], [], map[], map[];
    }

    // ----- Locking -----

    /** INSERT ... ON CONFLICT DO UPDATE of one row: it exists afterwards and is locked. */
    method LockRow(dataset: DatasetKey) returns (state: Aggregate)
      modifies this`datasets
      ensures state == (if dataset in old(datasets) then old(datasets)[dataset] else EMPTY_AGGREGATE)
      ensures datasets == old(datasets)[dataset := state]
    {
      if dataset !in datasets {
        datasets := datasets[dataset := EMPTY_AGGREGATE];
      }
      state := datasets[dataset];
    }

    /** lockOpenLineageDatasets */
    method LockDatasets(deltas: seq<Delta>) returns (states: Datasets, locks: seq<Resource>)
      modifies this`datasets
      ensures states == LockedStates(old(datasets), deltas)
      ensures datasets == old(datasets) + states
      ensures locks == DatasetLocks(deltas)
    {
      states, locks := map[], [];
      var start := 0;
      while start < |deltas|
        invariant start <= |deltas|
        invariant states == LockedStates(old(datasets), deltas[..start]) && datasets == old(datasets) + states
        invariant locks == DatasetLocks(deltas[..start])
      {
        var end := Min(start + MAX_AGGREGATE_ROWS, |deltas|);
        for i := start to end
          invariant states == LockedStates(old(datasets), deltas[..i]) && datasets == old(datasets) + states
          invariant locks == DatasetLocks(deltas[..i])
        {
          LockStep(old(datasets), deltas, i);
          var state := LockRow(deltas[i].dataset);
          states := states[deltas[i].dataset := state];
          locks := locks + [Dataset(deltas[i].dataset)];
          assert deltas[..i + 1][..i] == deltas[..i];
        }
        start := end;
      }
      assert deltas[..|deltas|] == deltas;
    }

    // ----- Members -----

    /** addOpenLineageDatasetMembers: the upsert and the scan of the counts it returns. */
    method AddMembers(added: seq<MemberDelta>, jobs: Jobs) returns (counted: Jobs)
      requires Positive(members) && Distinct(added)
      requires forall i | 0 <= i < |added| :: added[i].delta > 0
      modifies this`members
      ensures Positive(members)
      ensures forall r :: RefCount(members, r) == RefCount(old(members), r) + Change(added, r)
      ensures JobsFollow(jobs, counted, old(members), members)
    {
      counted := jobs;
      for i := 0 to |added|
        invariant Positive(members)
        invariant forall r :: RefCount(members, r) == RefCount(old(members), r) + Change(added[..i], r)
        invariant JobsFollow(jobs, counted, old(members), members)
      {
        var ref, expected := added[i].ref, added[i].delta;
        var refCount := RefCount(members, ref) + expected;
        assert added[..i + 1] == added[..i] + [added[i]];
        forall r ensures Change(added[..i + 1], r) == Change(added[..i], r) + (if ref == r then expected else 0) {
        }
        forall dataset: DatasetKey, kind ensures |MemberRows(members[ref := refCount], dataset, kind)| == |MemberRows(members, dataset, kind)| +
            (if refCount == expected && ref.dataset == dataset && ref.member.kind == kind then 1 else 0) {
          CreatedRow(members, ref, expected, dataset, kind);
        }
        members := members[ref := refCount];
        if refCount == expected {
          counted := CountJob(counted, ref.dataset, ref.member.kind, 1);
        }
      }
      assert added[..|added|] == added;
    }

    /** removeOpenLineageDatasetMembers: the update, the scan for exhausted rows, and their deletion. */
    method RemoveMembers(removed: seq<MemberDelta>, jobs: Jobs) returns (counted: Jobs)
      requires Positive(members) && Distinct(removed)
      requires forall i | 0 <= i < |removed| :: removed[i].delta < 0
      requires forall r :: RefCount(members, r) + Change(removed, r) >= 0
      modifies this`members
      ensures Positive(members)
      ensures forall r :: RefCount(members, r) == RefCount(old(members), r) + Change(removed, r)
      ensures JobsFollow(jobs, counted, old(members), members)
    {
      counted := jobs;
      var exhausted: set<MemberRef> := {};
      for i := 0 to |removed|
        invariant members.Keys == old(members).Keys
        invariant forall r :: RefCount(members, r) == RefCount(old(members), r) + Change(removed[..i], r) >= 0
        invariant exhausted == set r | r in members && members[r] == 0
        invariant forall dataset, kind | IsTaskKind(kind) :: JobChange(counted, dataset, kind) ==
                    JobChange(jobs, dataset, kind) - |RowsIn(exhausted, dataset, kind)|
      {
        var ref := removed[i].ref;
        ChangeOfListed(removed, i);
        assert removed[..i + 1] == removed[..i] + [removed[i]];
        forall r ensures Change(removed[..i + 1], r) == Change(removed[..i], r) + (if ref == r then removed[i].delta else 0) {
        }
        assert RefCount(old(members), ref) + Change(removed, ref) >= 0;
        assert ref in members && ref !in exhausted;
        var refCount := members[ref] + removed[i].delta;
        members := members[ref := refCount];
        if !(refCount > 0) {
          forall dataset: DatasetKey, kind ensures |RowsIn(exhausted + {ref}, dataset, kind)| ==
              |RowsIn(exhausted, dataset, kind)| + (if ref.dataset == dataset && ref.member.kind == kind then 1 else 0) {
            RowsInGrows(exhausted, ref, dataset, kind);
          }
          counted := CountJob(counted, ref.dataset, ref.member.kind, -1);
          exhausted := exhausted + {ref};
        }
      }
      assert removed[..|removed|] == removed;
      ghost var zeroed := members;
      assert forall r | r in zeroed :: zeroed[r] == RefCount(zeroed, r) >= 0;
      members := members - exhausted;
      forall dataset: DatasetKey, kind | IsTaskKind(kind) ensures
          JobChange(counted, dataset, kind) - JobChange(jobs, dataset, kind) ==
          |MemberRows(members, dataset, kind)| - |MemberRows(old(members), dataset, kind)| {
        DeletedRows(zeroed, exhausted, dataset, kind);
        assert MemberRows(zeroed, dataset, kind) == MemberRows(old(members), dataset, kind);
      }
    }

    /** applyOpenLineageDatasetMemberDeltas */
    method ApplyMemberDeltas(deltas: seq<Delta>) returns (jobs: Jobs)
      requires Positive(members) && Ascending(deltas)
      requires forall i, key | 0 <= i < |deltas| && key in deltas[i].members :: deltas[i].members[key] != 0
      requires forall r :: RefCount(members, r) + MemberChange(deltas, r) >= 0
      modifies this`members
      ensures Positive(members)
      ensures forall r :: RefCount(members, r) == RefCount(old(members), r) + MemberChange(deltas, r)
      ensures JobsFollow(map[], jobs, old(members), members)
    {
      var list := MemberDeltaList(deltas);
      jobs := map[];
      var start := 0;
      while start < |list|
        invariant start <= |list|
        invariant Positive(members)
        invariant forall r :: RefCount(members, r) == RefCount(old(members), r) + Change(list[..start], r)
        invariant JobsFollow(map[], jobs, old(members), members)
      {
        var end := Min(start + MAX_AGGREGATE_ROWS, |list|);
        var chunk := list[start..end];
        assert list[..end] == list[..start] + chunk;
        forall r
          ensures Change(list[..end], r) == Change(list[..start], r) + Change(chunk, r)
          ensures RefCount(old(members), r) + Change(list[..end], r) >= 0
        {
          ChangeConcat(list[..start], chunk, r);
          PrefixChange(list, end, r);
        }
        var added, removed := Partition(chunk);
        ghost var members0, jobs0 := members, jobs;
        if |added| > 0 {
          jobs := AddMembers(added, jobs);
        }
        ghost var members1, jobs1 := members, jobs;
        if |removed| > 0 {
          jobs := RemoveMembers(removed, jobs);
        }
        JobsFollowTransitive(map[], jobs0, jobs1, old(members), members0, members1);
        JobsFollowTransitive(map[], jobs1, jobs, old(members), members1, members);
        start := end;
      }
      assert list[..|list|] == list;
    }

    // ----- Aggregate rows -----

    /** The two statements a chunk ends with: delete the emptied rows (members cascade), update the others. */
    method Flush(emptied: set<DatasetKey>, updated: map<DatasetKey, RowUpdate>)
      modifies this`datasets, this`members
      ensures datasets == FlushedRows(RefsOf(rows), old(datasets), emptied, updated)
      ensures members == WithoutDatasets(old(members), emptied)
    {
      if |emptied| > 0 {
        datasets := datasets - emptied;
        members := map r | r in members && r.dataset !in emptied :: members[r];
      }
      if |updated| > 0 {
        datasets := map d | d in datasets :: if d in updated then UpdatedRow(RefsOf(rows), d, datasets[d], updated[d]) else datasets[d];
      }
    }

    /** updateOpenLineageDatasetAggregates; it refuses a dataset that was not locked. */
    method UpdateAggregates(deltas: seq<Delta>, states: Datasets, jobs: Jobs) returns (ok: bool)
      requires Ascending(deltas)
      modifies this`datasets, this`members
      ensures ok <==> forall i | 0 <= i < |deltas| :: deltas[i].dataset in states
      ensures ok ==> datasets == RewriteRows(RefsOf(rows), old(datasets), deltas, states, jobs)
      ensures ok ==> members == Cascade(old(members), deltas, states)
    {
      var start := 0;
      while start < |deltas|
        invariant start <= |deltas|
        invariant forall i | 0 <= i < start :: deltas[i].dataset in states
        invariant datasets == RewriteRows(RefsOf(rows), old(datasets), deltas[..start], states, jobs)
        invariant members == Cascade(old(members), deltas[..start], states)
      {
        var end := Min(start + MAX_AGGREGATE_ROWS, |deltas|);
        var chunk;
        ok, chunk := CollectChunk(deltas, start, end, states, jobs, RefsOf(rows), old(datasets), old(members));
        if !ok {
          return;
        }
        Flush(chunk.emptied, chunk.updated);
        start := end;
      }
      assert deltas[..|deltas|] == deltas;
      Flush({}, map[]);
      ok := true;
    }

    /** The member phase takes the member rows from the stored references to the new ones. */
    method MoveMembers(deltas: seq<Delta>, ghost t: Transaction) returns (jobs: Jobs)
      requires t.Valid() && t.deltas == deltas && MembersConsistent(t.stored, members)
      modifies this`members
      ensures MembersConsistent(t.now, members)
      ensures JobsFollow(map[], jobs, old(members), members)
    {
      Applicable(t, members);
      jobs := ApplyMemberDeltas(deltas);
    }

    /** The three batched phases: lock and read, move the members, write the counters. */
    method ApplyDeltas(deltas: seq<Delta>, ghost t: Transaction) returns (locks: seq<Resource>)
      requires t.Valid() && t.deltas == deltas && t.now == RefsOf(rows)
      requires Consistent(t.stored, datasets, members)
      modifies this`datasets, this`members
      ensures Consistent(t.now, datasets, members)
      ensures locks == DatasetLocks(deltas)
    {
      ghost var datasets0, members0 := datasets, members;
      AllAreLocked(datasets, deltas);
      var states;
      states, locks := LockDatasets(deltas);
      var jobs := MoveMembers(deltas, t);
      AppliedIsConsistent(t, datasets0, members0, members, jobs);
      ghost var datasets1 := RewriteRows(t.now, datasets, deltas, states, jobs);
      ghost var members1 := Cascade(members, deltas, states);
      var ok := UpdateAggregates(deltas, states, jobs);
      assert ok;
      assert datasets == datasets1 && members == members1;
    }

    /**
     applyOpenLineageDatasetDeltas: runs after the references were rewritten, so the table already
     holds the new ones while the aggregate still describes `stored`.
     */
    method Apply(replacements: seq<Replacement>, ghost stored: seq<Ref>) returns (locks: seq<Resource>)
      requires Consistent(stored, datasets, members)
      requires Replaced(stored, RefsOf(rows), Before(replacements), After(replacements))
      modifies this`datasets, this`members
      ensures Consistent(RefsOf(rows), datasets, members)
      ensures LocksChanged(locks, stored, RefsOf(rows))
      ensures forall d | Dataset(d) !in locks :: SameDataset(old(datasets), old(members), datasets, members, d)
    {
      ghost var before, after := Before(replacements), After(replacements);
      var deltas := ComputeDeltas(replacements);
      ghost var t, datasets0, members0 := Transaction(stored, RefsOf(rows), before, after, deltas), datasets, members;
      DeltasAreLocked(t);
      if |deltas| == 0 {
        NothingChanged(stored, RefsOf(rows), before, after, datasets, members);
        return [];
      }
      locks := ApplyDeltas(deltas, t);
      forall d | Dataset(d) !in locks ensures SameDataset(datasets0, members0, datasets, members, d) {
        ListedAreChanged(t, d);
        UnlistedStays(t, d, datasets0, members0, datasets, members);
      }
    }

    // ----- Transactions -----

    /** Holds between transactions. */
    ghost predicate Valid()
      reads this
    {
      OwnedByRuns(runs, rows) && Consistent(RefsOf(rows), datasets, members)
    }

    /** The loop over the deliveries, in task lock order. */
    method DeliverAll(order: seq<Indexed>) returns (replacements: seq<Replacement>, refused: set<nat>, locks: seq<Resource>)
      requires OwnedByRuns(runs, rows)
      modifies this`runs, this`rows
      ensures BatchSoFar(Progress(runs, rows, replacements, refused, locks), order, |order|, old(runs), old(rows))
    {
      replacements, refused, locks := [], {}, [];
      BatchStarts(runs, rows, order);
      for i := 0 to |order|
        invariant BatchSoFar(Progress(runs, rows, replacements, refused, locks), order, i, old(runs), old(rows))
      {
        BatchStep(Progress(runs, rows, replacements, refused, locks), order, i, old(runs), old(rows));
        var d := order[i].delivery;
        if Refuses(runs, d) {
          refused, locks := refused + {order[i].index}, locks + DeliveryLocks(d, true);
          continue;
        }
        replacements := replacements + [Replacement(PreviousRefs(runs, rows, d), d.datasets)];
        locks := locks + DeliveryLocks(d, false);
        runs, rows := runs[d.run := d.state], ReplaceRows(rows, d);
      }
    }

    /**
     UpsertOpenLineageRuns: a batch of deliveries in one transaction. It locks every task, every run it
     writes and every dataset it touches.
     */
    method Ingest(deliveries: seq<Delivery>) returns (order: seq<Indexed>, refused: set<nat>, locks: seq<Resource>)
      requires Valid()
      modifies this
      ensures Valid()
      ensures IsTaskLockOrder(order, deliveries)
      ensures runs == FoldRuns(old(runs), Deliveries(order))
      ensures rows == FoldRows(old(runs), old(rows), Deliveries(order))
      ensures refused == RefusedIn(old(runs), order)
      ensures Outcome(old(runs), old(rows), order, runs, rows, refused)
      ensures IngestLocks(locks, old(runs), old(rows), order) && Ordered(locks)
      ensures forall e | e in order :: Task(e.delivery.run.taskGUID) in locks
      ensures forall e | e in order :: e.index in refused || Run(e.delivery.run.taskGUID, e.delivery.run.runId) in locks
      ensures forall d | Dataset(d) !in locks :: SameDataset(old(datasets), old(members), datasets, members, d)
    {
      order := TaskLockOrder(deliveries);
      ghost var runs0, rows0 := runs, rows;
      var replacements;
      replacements, refused, locks := DeliverAll(order);
      assert order[..|order|] == order;
      FoldOutcome(runs0, rows0, order);
      forall e | e in order
        ensures Task(e.delivery.run.taskGUID) in locks
        ensures e.index in refused || Run(e.delivery.run.taskGUID, e.delivery.run.runId) in locks
      {
        BatchLocksCover(runs0, order, e);
      }
      var datasetLocks := Apply(replacements, RefsOf(rows0));
      assert (locks + datasetLocks)[|locks|..] == datasetLocks;
      locks := locks + datasetLocks;
      IngestLocksInOrder(locks, runs0, rows0, order);
    }

    /** reconcileOpenLineageDatasets: regenerates the staged datasets from the references still stored. */
    method Reconcile(staged: set<DatasetKey>) returns (inserted: set<DatasetKey>, locks: seq<Resource>)
      modifies this`datasets, this`members
      ensures inserted == staged - old(datasets).Keys
      ensures datasets == RebuiltRows(RefsOf(rows), old(datasets), staged)
      ensures members == RebuiltMembers(RefsOf(rows), old(members), staged)
      ensures LocksStaged(locks, staged)
    {
      StatementsRebuild(RefsOf(rows), datasets, members, staged);
      inserted := staged - datasets.Keys;
      datasets := PreparedRows(datasets, staged);
      locks := StagedLocks(staged);
      datasets := datasets - StagedEmpty(RefsOf(rows), staged);
      members := WithoutDatasets(members, StagedEmpty(RefsOf(rows), staged));
      datasets := datasets + StagedRows(RefsOf(rows), staged);
      members := WithoutDatasets(members, staged);
      members := members + StagedMembers(RefsOf(rows), staged);
    }

    /** Locks the tasks of the expired runs. */
    method LockExpired(cutoff: int) returns (locks: seq<Resource>)
      ensures LocksTasks(locks, Expired(runs, cutoff))
    {
      var expired := Expired(runs, cutoff);
      locks := TaskLocks(set run | run in expired :: run.taskGUID);
    }

    /** Deletes the expired runs with their references and rebuilds the datasets staged before. */
    method DeleteStaged(cutoff: int, staged: set<DatasetKey>) returns (inserted: set<DatasetKey>, deletedRuns: seq<Resource>, locks: seq<Resource>)
      modifies this
      ensures runs == old(runs) - ExpiredRuns(old(runs), cutoff)
      ensures rows == Without(old(rows), ExpiredRuns(old(runs), cutoff))
      ensures old(OwnedByRuns(runs, rows)) ==> KeepsYoung(old(runs), old(rows), cutoff, runs, rows)
      ensures datasets == RebuiltRows(RefsOf(rows), old(datasets), staged)
      ensures members == RebuiltMembers(RefsOf(rows), old(members), staged)
      ensures inserted == staged - old(datasets).Keys
      ensures LocksRuns(deletedRuns, Expired(old(runs), cutoff)) && LocksStaged(locks, staged)
      ensures forall d | Dataset(d) !in locks :: SameDataset(old(datasets), old(members), datasets, members, d)
      ensures old(Valid()) ==>
                (Valid() <==> StagedDirectionsKnown(RefsOf(rows), staged) && StagedBy(old(runs), old(rows), cutoff) <= staged)
    {
      var expired := ExpiredRuns(runs, cutoff);
      ghost var datasets0, members0 := datasets, members;
      if OwnedByRuns(runs, rows) { PruneKeepsYoung(runs, rows, cutoff); }
      if Valid() { PruneRestores(runs, rows, expired, staged, datasets, members); }
      deletedRuns := ExpiredLocks(Expired(runs, cutoff));
      runs, rows := runs - expired, Without(rows, expired);
      inserted, locks := Reconcile(staged);
      UnlockedStay(RefsOf(rows), datasets0, members0, staged, locks);
    }

    /** The statements of a prune that finds expired runs, with no other transaction in between. */
    method PruneExpired(cutoff: int) returns (inserted: set<DatasetKey>, locks: seq<Resource>)
      requires Valid()
      modifies this
      ensures runs == old(runs) - ExpiredRuns(old(runs), cutoff)
      ensures rows == Without(old(rows), ExpiredRuns(old(runs), cutoff))
      ensures datasets == RebuiltRows(RefsOf(rows), old(datasets), StagedBy(old(runs), old(rows), cutoff))
      ensures members == RebuiltMembers(RefsOf(rows), old(members), StagedBy(old(runs), old(rows), cutoff))
      ensures Valid() <==> StagedDirectionsKnown(RefsOf(rows), StagedBy(old(runs), old(rows), cutoff))
      ensures inserted == StagedBy(old(runs), old(rows), cutoff) - old(datasets).Keys
      ensures PruneLocks(locks, Expired(old(runs), cutoff), StagedBy(old(runs), old(rows), cutoff))
      ensures forall d | Dataset(d) !in locks :: SameDataset(old(datasets), old(members), datasets, members, d)
    {
      ghost var doomed := Expired(runs, cutoff);
      var tasks := LockExpired(cutoff);
      var staged := StagedBy(runs, rows, cutoff);
      var deletedRuns, datasetLocks;
      inserted, deletedRuns, datasetLocks := DeleteStaged(cutoff, staged);
      locks := tasks + deletedRuns + datasetLocks;
      assert PrunePhases(tasks, deletedRuns, datasetLocks, doomed, doomed, staged);
    }

    /** DeleteOpenLineageRunsBefore, when no expired run is committed while it is under way. */
    method Prune(cutoff: int) returns (deleted: nat, inserted: set<DatasetKey>, locks: seq<Resource>)
      requires Valid()
      modifies this
      ensures runs == old(runs) - ExpiredRuns(old(runs), cutoff)
      ensures rows == Without(old(rows), ExpiredRuns(old(runs), cutoff))
      ensures KeepsYoung(old(runs), old(rows), cutoff, runs, rows)
      ensures deleted == |old(runs)| - |runs|
      ensures datasets == RebuiltRows(RefsOf(rows), old(datasets), StagedBy(old(runs), old(rows), cutoff))
      ensures members == RebuiltMembers(RefsOf(rows), old(members), StagedBy(old(runs), old(rows), cutoff))
      ensures Valid() <==> StagedDirectionsKnown(RefsOf(rows), StagedBy(old(runs), old(rows), cutoff))
      ensures inserted == {} && Ordered(locks)
      ensures if deleted == 0 then locks == [] else PruneLocks(locks, Expired(old(runs), cutoff), StagedBy(old(runs), old(rows), cutoff))
      ensures forall d | Dataset(d) !in locks :: SameDataset(old(datasets), old(members), datasets, members, d)
    {
      var expired := ExpiredRuns(runs, cutoff);
      ghost var doomed, staged := Expired(runs, cutoff), StagedBy(runs, rows, cutoff);
      deleted, inserted, locks := |expired|, {}, [];
      PrunedRows(runs, rows, expired);
      PruneKeepsYoung(runs, rows, cutoff);
      assert (runs - expired).Keys == runs.Keys - expired && |runs| == |runs.Keys| && |runs - expired| == |(runs - expired).Keys|;
      StagedHaveRows(RefsOf(rows), datasets, members, staged);
      if deleted > 0 {
        inserted, locks := PruneExpired(cutoff);
        PruneLocksInOrder(locks, doomed, staged);
      } else {
        NothingExpired(runs, rows, expired, datasets, members);
      }
    }

    /**
     DeleteEmptyOpenLineageDatasets: `candidates` are the rows old enough that no other transaction
     holds. Only rows without a stored reference go, so a consistent aggregate is left as it is.
     */
    method Sweep(candidates: set<DatasetKey>) returns (deleted: nat)
      modifies this`datasets, this`members
      ensures datasets == old(datasets) - Sweepable(RefsOf(rows), old(datasets), candidates)
      ensures members == WithoutDatasets(old(members), Sweepable(RefsOf(rows), old(datasets), candidates))
      ensures forall d :: d in datasets <==>
                d in old(datasets) && (d in candidates ==> exists ref :: ref in RefsOf(rows) && ref.dataset == d)
      ensures forall d | d in datasets :: SameDataset(old(datasets), old(members), datasets, members, d)
      ensures deleted == |Sweepable(RefsOf(rows), old(datasets), candidates)|
      ensures old(Valid()) ==> Valid() && deleted == 0
    {
      var empty := Sweepable(RefsOf(rows), datasets, candidates);
      if Consistent(RefsOf(rows), datasets, members) {
        forall d | d in datasets ensures d !in empty { NothingToSweep(RefsOf(rows), datasets, members, d); }
        assert empty == {};
        assert datasets - empty == datasets && WithoutDatasets(members, empty) == members;
      }
      deleted := |empty|;
      datasets, members := datasets - empty, WithoutDatasets(members, empty);
    }
  }

  /** Fills one chunk's delete and update lists. */
  method CollectChunk(deltas: seq<Delta>, start: nat, end: nat, states: Datasets, jobs: Jobs,
                      ghost refs: seq<Ref>, ghost rows: Datasets, ghost members: Members)
      returns (ok: bool, chunk: Chunk)
    requires Ascending(deltas) && start <= end <= |deltas|
    ensures ok <==> forall i | start <= i < end :: deltas[i].dataset in states
    ensures ok ==> Collected(chunk, start, end, refs, rows, members, deltas, states, jobs)
  {
    chunk := Chunk({}, map[]);
    CollectedNothing(start, refs, rows, members, deltas, states, jobs);
    for i := start to end
      invariant forall j | start <= j < i :: deltas[j].dataset in states
      invariant Collected(chunk, start, i, refs, rows, members, deltas, states, jobs)
    {
      if deltas[i].dataset !in states {
        return false, chunk;
      }
      CollectedStep(chunk, start, i, refs, rows, members, deltas, states, jobs);
      chunk := Collect(chunk, deltas[i], RowOrEmpty(states, deltas[i].dataset), jobs);
    }
    ok := true;
  }
}
