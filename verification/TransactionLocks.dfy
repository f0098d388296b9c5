/**
 What an ingest and a prune lock, from the first lock to the last, and why no interleaving of any
 number of them deadlocks.
 */
module TransactionLocks {
  import opened Ordering
  import opened DatasetReferences
  import opened DatasetDeltas
  import opened DatasetTables
  import opened DatasetStatements
  import opened DatasetApplyProof
  import opened DatasetRebuild
  import opened RunReferences
  import opened IngestBatch
  import opened LockOrder

  /** One ascending lock on each dataset whose references changed, and on no other. */
  ghost predicate LocksChanged(locks: seq<Resource>, before: seq<Ref>, after: seq<Ref>) {
    AscendingDatasetLocks(locks) && forall d :: Dataset(d) in locks <==> Changed(d, before, after)
  }

  ghost predicate LocksStaged(locks: seq<Resource>, staged: set<DatasetKey>) {
    AscendingDatasetLocks(locks) && forall d :: Dataset(d) in locks <==> d in staged
  }

  /** The tasks of the expired runs, ascending. */
  ghost predicate LocksTasks(locks: seq<Resource>, expired: map<RunKey, RunState>) {
    AscendingTaskLocks(locks) && forall guid :: Task(guid) in locks <==> exists run :: run in expired && run.taskGUID == guid
  }

  /** The expired runs, each once, in any order. */
  ghost predicate LocksRuns(locks: seq<Resource>, expired: map<RunKey, RunState>) {
    NoRepeats(locks) && forall r :: r in locks <==> exists run :: run in expired && r == Run(run.taskGUID, run.runId)
  }

  /** An ingest: the tasks and runs of its deliveries, then the datasets whose references it changed. */
  ghost predicate IngestLocks(locks: seq<Resource>, runs: map<RunKey, RunState>, rows: seq<RefRow>, order: seq<Indexed>) {
    && BatchLocks(runs, order) <= locks
    && LocksChanged(locks[|BatchLocks(runs, order)|..], RefsOf(rows), RefsOf(FoldRows(runs, rows, Deliveries(order))))
  }

  /** A prune: the tasks of the runs expired at first, the runs expired at the delete, and the staged datasets. */
  ghost predicate PrunePhases(tasks: seq<Resource>, deleted: seq<Resource>, datasets: seq<Resource>,
                              found: map<RunKey, RunState>, atDelete: map<RunKey, RunState>, staged: set<DatasetKey>) {
    LocksTasks(tasks, found) && LocksRuns(deleted, atDelete) && LocksStaged(datasets, staged)
  }

  /** Its statements each see what is committed when they start, so the three arguments need not belong together. */
  ghost predicate LatePrune(locks: seq<Resource>, found: map<RunKey, RunState>, atDelete: map<RunKey, RunState>, staged: set<DatasetKey>) {
    exists tasks: seq<Resource>, deleted: seq<Resource>, datasets: seq<Resource> ::
      PrunePhases(tasks, deleted, datasets, found, atDelete, staged) && locks == tasks + deleted + datasets
  }

  /** A prune during which no expired run is committed. */
  ghost predicate PruneLocks(locks: seq<Resource>, expired: map<RunKey, RunState>, staged: set<DatasetKey>) {
    LatePrune(locks, expired, expired, staged)
  }

  function Expired(runs: map<RunKey, RunState>, cutoff: int): map<RunKey, RunState> {
    map run | run in ExpiredRuns(runs, cutoff) :: runs[run]
  }

  /** The locks of the deltas are the locks of the datasets whose references changed. */
  lemma DeltasAreLocked(t: Transaction)
    requires t.Valid()
    ensures LocksChanged(DatasetLocks(t.deltas), t.stored, t.now)
  {
    var locks := DatasetLocks(t.deltas);
    DatasetLocksAscend(t.deltas);
    forall d ensures Dataset(d) in locks <==> Changed(d, t.stored, t.now) {
      ListedAreChanged(t, d);
      if Lists(t.deltas, d) {
        var i :| 0 <= i < |t.deltas| && t.deltas[i].dataset == d;
        assert locks[i] == Dataset(d);
      }
    }
  }

  /** A rebuild leaves the datasets that are not staged alone. */
  lemma UnstagedStays(refs: seq<Ref>, rows: Datasets, members: Members, staged: set<DatasetKey>, d: DatasetKey)
    requires d !in staged
    ensures SameDataset(rows, members, RebuiltRows(refs, rows, staged), RebuiltMembers(refs, members, staged), d)
  {
  }

  lemma UnlockedStay(refs: seq<Ref>, rows: Datasets, members: Members, staged: set<DatasetKey>, locks: seq<Resource>)
    requires LocksStaged(locks, staged)
    ensures forall d | Dataset(d) !in locks :: SameDataset(rows, members, RebuiltRows(refs, rows, staged), RebuiltMembers(refs, members, staged), d)
  {
    forall d | Dataset(d) !in locks
      ensures SameDataset(rows, members, RebuiltRows(refs, rows, staged), RebuiltMembers(refs, members, staged), d)
    {
      UnstagedStays(refs, rows, members, staged, d);
    }
  }

  // ----- Both follow the global order -----

  lemma IngestLocksInOrder(locks: seq<Resource>, runs: map<RunKey, RunState>, rows: seq<RefRow>, order: seq<Indexed>)
    requires StrictlySortedBy(LocksBefore, order) && IngestLocks(locks, runs, rows, order)
    ensures Ordered(locks)
  {
    var batch := BatchLocks(runs, order);
    BatchLocksInOrder(runs, order, |order|);
    assert order[..|order|] == order;
    RunThenDatasetLocks(batch, locks[|batch|..]);
    assert locks == batch + locks[|batch|..];
  }

  lemma {:induction false} TaskThenRunLocks(tasks: seq<Resource>, deleted: seq<Resource>)
    requires AscendingTaskLocks(tasks)
    requires forall i | 0 <= i < |deleted| :: deleted[i].Run? && Task(deleted[i].task) in tasks
    ensures Ordered(tasks + deleted) && NoDatasets(tasks + deleted)
  {
    if deleted == [] {
      assert tasks + deleted == tasks;
      forall i, j | 0 <= i < j < |tasks| ensures !ResourceLess(tasks[j], tasks[i]) {
        ResourceLessIsTotal(tasks[i], tasks[j], tasks[i]);
      }
    } else {
      var n := |deleted| - 1;
      TaskThenRunLocks(tasks, deleted[..n]);
      OrderedAppend(tasks + deleted[..n], deleted[n]);
      assert tasks + deleted == tasks + deleted[..n] + [deleted[n]];
    }
  }

  lemma PruneLocksInOrder(locks: seq<Resource>, expired: map<RunKey, RunState>, staged: set<DatasetKey>)
    requires PruneLocks(locks, expired, staged)
    ensures Ordered(locks)
  {
    var tasks: seq<Resource>, deleted: seq<Resource>, datasets: seq<Resource> :|
      PrunePhases(tasks, deleted, datasets, expired, expired, staged) && locks == tasks + deleted + datasets;
    forall i | 0 <= i < |deleted| ensures deleted[i].Run? && Task(deleted[i].task) in tasks {
      assert deleted[i] in deleted;
    }
    TaskThenRunLocks(tasks, deleted);
    RunThenDatasetLocks(tasks + deleted, datasets);
  }

  // ----- No deadlock -----

  /** The locks of an ingest of some deliveries, whatever is stored when it runs. */
  ghost predicate SomeIngest(locks: seq<Resource>) {
    exists runs, rows, order, deliveries ::
      OwnedByRuns(runs, rows) && IsTaskLockOrder(order, deliveries) && IngestLocks(locks, runs, rows, order)
  }

  /** The locks of a prune that finds expired runs; one that finds none locks nothing. */
  ghost predicate SomePrune(locks: seq<Resource>) {
    locks == [] ||
    exists runs, rows, cutoff :: OwnedByRuns(runs, rows) && PruneLocks(locks, Expired(runs, cutoff), StagedBy(runs, rows, cutoff))
  }

  /** Main result: whatever ingests and prunes run at once, no reachable state of theirs is a deadlock. */
  lemma IngestsAndPrunesNeverDeadlock(states: seq<State>)
    requires Interleaving(states)
    requires forall i | 0 <= i < |states[0].programs| :: SomeIngest(states[0].programs[i]) || SomePrune(states[0].programs[i])
    ensures var s := states[|states| - 1];
            s.Valid() && s.Exclusive() && !Deadlocked(s) && (Unfinished(s) ==> exists next :: s.Next(next))
  {
    forall i | 0 <= i < |states[0].programs| ensures Ordered(states[0].programs[i]) {
      var locks := states[0].programs[i];
      if SomeIngest(locks) {
        var runs, rows, order, deliveries :|
          OwnedByRuns(runs, rows) && IsTaskLockOrder(order, deliveries) && IngestLocks(locks, runs, rows, order);
        IngestLocksInOrder(locks, runs, rows, order);
      } else if locks != [] {
        var runs, rows, cutoff :| OwnedByRuns(runs, rows) && PruneLocks(locks, Expired(runs, cutoff), StagedBy(runs, rows, cutoff));
        PruneLocksInOrder(locks, Expired(runs, cutoff), StagedBy(runs, rows, cutoff));
      }
    }
    InterleavingKeepsExclusive(states, |states| - 1);
    InterleavingNeverStuck(states);
  }
}
