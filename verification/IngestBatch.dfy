/**
 The loop of one ingest transaction over its deliveries, in task lock order: what it has stored,
 which replacements it has collected and which rows it has locked.
 */
module IngestBatch {
  import opened Ordering
  import opened DatasetReferences
  import opened DatasetDeltas
  import opened DatasetApplyProof
  import opened DatasetStatements
  import opened RunReferences
  import opened LockOrder

  /** The positions of the deliveries a finished run refused. */
  function RefusedIn(runs: map<RunKey, RunState>, order: seq<Indexed>): set<nat> {
    if order == [] then {}
    else
      var last := order[|order| - 1];
      RefusedIn(runs, order[..|order| - 1]) +
      (if Refuses(FoldRuns(runs, Deliveries(order[..|order| - 1])), last.delivery) then {last.index} else {})
  }

  /** The locks of the first `n` deliveries: each task, then its run's row. */
  ghost predicate RunLocks(locks: seq<Resource>, order: seq<Indexed>, n: nat)
    requires n <= |order|
  {
    && Ordered(locks)
    && (forall i | 0 <= i < |locks| :: !locks[i].Dataset? && (locks[i].Task? ==> TaskAmong(order, n, locks[i].guid)))
  }

  /** What one delivery locks: its task, and its run's row unless it is refused. */
  function DeliveryLocks(d: Delivery, refused: bool): seq<Resource> {
    [Task(d.run.taskGUID)] + (if refused then [] else [Run(d.run.taskGUID, d.run.runId)])
  }

  function BatchLocks(runs: map<RunKey, RunState>, order: seq<Indexed>): seq<Resource> {
    if order == [] then []
    else
      var rest, last := order[..|order| - 1], order[|order| - 1].delivery;
      BatchLocks(runs, rest) + DeliveryLocks(last, Refuses(FoldRuns(runs, Deliveries(rest)), last))
  }

  ghost predicate NoDatasets(locks: seq<Resource>) {
    forall i | 0 <= i < |locks| :: !locks[i].Dataset?
  }

  ghost predicate TaskAmong(order: seq<Indexed>, n: nat, guid: string)
    requires n <= |order|
  {
    exists k :: 0 <= k < n && order[k].delivery.run.taskGUID == guid
  }

  lemma OrderedAppend(locks: seq<Resource>, r: Resource)
    requires Ordered(locks)
    requires !r.Run? ==> forall i | 0 <= i < |locks| && !locks[i].Run? :: !ResourceLess(r, locks[i])
    requires r.Run? ==> Task(r.task) in locks
    ensures Ordered(locks + [r])
  {
    var all := locks + [r];
    assert all[|locks|] == r && all[..|locks|] == locks;
    assert forall i | 0 <= i < |locks| :: all[i] == locks[i] && all[..i] == locks[..i];
  }

  lemma RunLocksStep(locks: seq<Resource>, order: seq<Indexed>, n: nat, refused: bool)
    requires n < |order| && RunLocks(locks, order, n) && StrictlySortedBy(LocksBefore, order)
    ensures RunLocks(locks + DeliveryLocks(order[n].delivery, refused), order, n + 1)
  {
    var d := order[n].delivery;
    var guid, one := d.run.taskGUID, locks + [Task(d.run.taskGUID)];
    forall i | 0 <= i < |locks| && !locks[i].Run? ensures !ResourceLess(Task(guid), locks[i]) {
      TaskLocksAscend(order, n, locks[i].guid);
    }
    OrderedAppend(locks, Task(guid));
    assert one[|locks|] == Task(guid);
    OrderedAppend(one, Run(guid, d.run.runId));
    assert locks + DeliveryLocks(d, true) == one && locks + DeliveryLocks(d, false) == one + [Run(guid, d.run.runId)];
    assert forall g | TaskAmong(order, n, g) :: TaskAmong(order, n + 1, g);
    assert TaskAmong(order, n + 1, guid);
  }

  /** A batch locks in the global order: tasks ascending, each run behind its task. */
  lemma {:induction false} BatchLocksInOrder(runs: map<RunKey, RunState>, order: seq<Indexed>, n: nat)
    requires n <= |order| && StrictlySortedBy(LocksBefore, order)
    ensures RunLocks(BatchLocks(runs, order[..n]), order, n)
  {
    if n > 0 {
      BatchLocksInOrder(runs, order, n - 1);
      assert order[..n][..n - 1] == order[..n - 1];
      RunLocksStep(BatchLocks(runs, order[..n - 1]), order, n - 1,
        Refuses(FoldRuns(runs, Deliveries(order[..n - 1])), order[n - 1].delivery));
    }
  }

  /** A batch locks the task of every delivery, and the row of every run it does not refuse. */
  lemma {:induction false} BatchLocksCover(runs: map<RunKey, RunState>, order: seq<Indexed>, e: Indexed)
    requires e in order
    ensures Task(e.delivery.run.taskGUID) in BatchLocks(runs, order)
    ensures e.index in RefusedIn(runs, order) || Run(e.delivery.run.taskGUID, e.delivery.run.runId) in BatchLocks(runs, order)
  {
    var rest, last := order[..|order| - 1], order[|order| - 1];
    assert order == rest + [last];
    if e == last {
      var locks := DeliveryLocks(last.delivery, Refuses(FoldRuns(runs, Deliveries(rest)), last.delivery));
      assert locks[0] == Task(last.delivery.run.taskGUID);
    } else {
      BatchLocksCover(runs, rest, e);
    }
  }

  ghost predicate RunLockedIfChanged(before: map<RunKey, RunState>, after: map<RunKey, RunState>, locks: seq<Resource>, run: RunKey) {
    && (run in before ==> run in after)
    && (run in after && (run !in before || after[run] != before[run]) ==> Run(run.taskGUID, run.runId) in locks)
  }

  lemma RunLockedStep(before: map<RunKey, RunState>, now: map<RunKey, RunState>, locks: seq<Resource>, d: Delivery, run: RunKey)
    requires RunLockedIfChanged(before, now, locks, run)
    ensures RunLockedIfChanged(before, now[d.run := d.state], locks + DeliveryLocks(d, false), run)
    ensures RunLockedIfChanged(before, now, locks + DeliveryLocks(d, true), run)
  {
    assert DeliveryLocks(d, false)[1] == Run(d.run.taskGUID, d.run.runId);
  }

  /** A run whose stored row a batch changes was locked under the task it is stored with. */
  lemma {:induction false} ChangedRunsAreLocked(runs: map<RunKey, RunState>, order: seq<Indexed>, run: RunKey)
    ensures RunLockedIfChanged(runs, FoldRuns(runs, Deliveries(order)), BatchLocks(runs, order), run)
  {
    if order != [] {
      var n := |order| - 1;
      var before, last := FoldRuns(runs, Deliveries(order[..n])), order[n].delivery;
      assert order[..n + 1] == order;
      DeliveriesStep(order, n);
      assert FoldRuns(runs, Deliveries(order)) == if Refuses(before, last) then before else before[last.run := last.state];
      ChangedRunsAreLocked(runs, order[..n], run);
      RunLockedStep(runs, before, BatchLocks(runs, order[..n]), last, run);
    }
  }

  lemma TaskLocksAscend(order: seq<Indexed>, n: nat, guid: string)
    requires n < |order| && StrictlySortedBy(LocksBefore, order) && TaskAmong(order, n, guid)
    ensures !StringLess(order[n].delivery.run.taskGUID, guid)
  {
    var k :| 0 <= k < n && order[k].delivery.run.taskGUID == guid;
    assert LocksBefore(order[k], order[n]);
    StringOrder(guid, order[n].delivery.run.taskGUID, guid);
  }

  lemma {:induction false} RunThenDatasetLocks(locks: seq<Resource>, datasetLocks: seq<Resource>)
    requires Ordered(locks) && NoDatasets(locks) && AscendingDatasetLocks(datasetLocks)
    ensures Ordered(locks + datasetLocks)
  {
    if datasetLocks == [] {
      assert locks + datasetLocks == locks;
    } else {
      var n := |datasetLocks| - 1;
      RunThenDatasetLocks(locks, datasetLocks[..n]);
      var all := locks + datasetLocks[..n];
      forall i | 0 <= i < |all| && !all[i].Run? ensures !ResourceLess(datasetLocks[n], all[i]) {
        if i >= |locks| {
          assert ResourceLess(datasetLocks[i - |locks|], datasetLocks[n]);
          ResourceLessIsTotal(all[i], datasetLocks[n], all[i]);
        }
      }
      OrderedAppend(all, datasetLocks[n]);
      assert locks + datasetLocks == all + [datasetLocks[n]];
    }
  }

  /** The transaction after some of its deliveries. */
  datatype Progress = Progress(
    runs: map<RunKey, RunState>,
    rows: seq<RefRow>,
    replacements: seq<Replacement>,
    refused: set<nat>,
    locks: seq<Resource>)

  function Deliver(p: Progress, entry: Indexed): Progress {
    var d := entry.delivery;
    if Refuses(p.runs, d) then
      p.(refused := p.refused + {entry.index}, locks := p.locks + DeliveryLocks(d, true))
    else
      Progress(
        p.runs[d.run := d.state],
        ReplaceRows(p.rows, d),
        p.replacements + [Replacement(PreviousRefs(p.runs, p.rows, d), d.datasets)],
        p.refused,
        p.locks + DeliveryLocks(d, false))
  }

  /** What the tables, the refusals and the locks are after the first `n` deliveries. */
  ghost predicate StoredSoFar(p: Progress, order: seq<Indexed>, n: nat, runs0: map<RunKey, RunState>, rows0: seq<RefRow>)
    requires n <= |order|
  {
    && p.runs == FoldRuns(runs0, Deliveries(order[..n]))
    && p.rows == FoldRows(runs0, rows0, Deliveries(order[..n]))
    && p.refused == RefusedIn(runs0, order[..n])
    && p.locks == BatchLocks(runs0, order[..n])
  }

  /** The collected replacements account for every change to the reference table. */
  ghost predicate Accounted(p: Progress, rows0: seq<RefRow>) {
    && OwnedByRuns(p.runs, p.rows)
    && Replaced(RefsOf(rows0), RefsOf(p.rows), Before(p.replacements), After(p.replacements))
  }

  ghost predicate BatchSoFar(p: Progress, order: seq<Indexed>, n: nat, runs0: map<RunKey, RunState>, rows0: seq<RefRow>)
    requires n <= |order|
  {
    StoredSoFar(p, order, n, runs0, rows0) && Accounted(p, rows0)
  }

  lemma BatchStarts(runs: map<RunKey, RunState>, rows: seq<RefRow>, order: seq<Indexed>)
    requires OwnedByRuns(runs, rows)
    ensures BatchSoFar(Progress(runs, rows, [], {}, []), order, 0, runs, rows)
  {
    assert order[..0] == [];
  }

  lemma DeliveriesStep(order: seq<Indexed>, n: nat)
    requires n < |order|
    ensures order[..n + 1][..n] == order[..n]
    ensures Deliveries(order[..n + 1]) == Deliveries(order[..n]) + [order[n].delivery]
    ensures Deliveries(order[..n + 1])[..|Deliveries(order[..n + 1])| - 1] == Deliveries(order[..n])
  {
    assert order[..n + 1][..n] == order[..n];
  }

  lemma StoredStep(p: Progress, order: seq<Indexed>, n: nat, runs0: map<RunKey, RunState>, rows0: seq<RefRow>)
    requires n < |order| && StoredSoFar(p, order, n, runs0, rows0)
    ensures StoredSoFar(Deliver(p, order[n]), order, n + 1, runs0, rows0)
  {
    DeliveriesStep(order, n);
  }

  lemma AccountedStep(p: Progress, entry: Indexed, rows0: seq<RefRow>)
    requires Accounted(p, rows0)
    ensures Accounted(Deliver(p, entry), rows0)
  {
    if !Refuses(p.runs, entry.delivery) {
      ReplaceStep(RefsOf(rows0), p.runs, p.rows, entry.delivery, p.replacements);
    }
  }

  lemma BatchStep(p: Progress, order: seq<Indexed>, n: nat, runs0: map<RunKey, RunState>, rows0: seq<RefRow>)
    requires n < |order| && BatchSoFar(p, order, n, runs0, rows0)
    ensures BatchSoFar(Deliver(p, order[n]), order, n + 1, runs0, rows0)
  {
    StoredStep(p, order, n, runs0, rows0);
    AccountedStep(p, order[n], rows0);
  }

  // ----- The locks of a prune -----

  ghost predicate AscendingTaskLocks(locks: seq<Resource>) {
    && (forall i | 0 <= i < |locks| :: locks[i].Task?)
    && (forall i, j | 0 <= i < j < |locks| :: ResourceLess(locks[i], locks[j]))
  }

  /** The pruned tasks, locked in GUID order. */
  method TaskLocks(guids: set<string>) returns (locks: seq<Resource>)
    ensures AscendingTaskLocks(locks)
    ensures forall guid :: Task(guid) in locks <==> guid in guids
  {
    var listed := Listing(guids);
    forall a, b, c
      ensures StringLess(a, b) ==> !StringLess(b, a)
      ensures !StringLess(a, b) && !StringLess(b, c) ==> !StringLess(a, c)
    {
      StringOrder(a, b, c);
    }
    forall i, j | 0 <= i < j < |listed| ensures Comparable(StringLess, listed[i], listed[j]) {
      StringOrder(listed[i], listed[j], listed[i]);
    }
    var sorted := SortFunc(listed, StringLess);
    assert forall guid :: guid in sorted <==> guid in multiset(sorted);
    assert forall guid :: guid in listed <==> guid in multiset(listed);
    locks := [];
    for i := 0 to |sorted|
      invariant |locks| == i && forall j | 0 <= j < i :: locks[j] == Task(sorted[j])
    {
      locks := locks + [Task(sorted[i])];
    }
    forall guid ensures Task(guid) in locks <==> guid in sorted {
      if guid in sorted {
        var i :| 0 <= i < |sorted| && sorted[i] == guid;
        assert locks[i] == Task(guid);
      }
    }
    forall i, j | 0 <= i < j < |locks| ensures ResourceLess(locks[i], locks[j]) {
      assert StringLess(sorted[i], sorted[j]);
    }
  }

  /** Deleting the expired runs locks their rows, in no particular order. */
  method ExpiredLocks(expired: map<RunKey, RunState>) returns (locks: seq<Resource>)
    ensures NoRepeats(locks)
    ensures forall r :: r in locks <==> exists run :: run in expired && r == Run(run.taskGUID, run.runId)
  {
    locks := [];
    var rest := expired.Keys;
    while rest != {}
      invariant rest <= expired.Keys && NoRepeats(locks)
      invariant forall r :: r in locks <==> exists run :: run in expired.Keys - rest && r == Run(run.taskGUID, run.runId)
      decreases rest
    {
      var run :| run in rest;
      ghost var done := expired.Keys - rest;
      assert expired.Keys - (rest - {run}) == done + {run};
      NoRepeatsAppend(locks, Run(run.taskGUID, run.runId));
      locks := locks + [Run(run.taskGUID, run.runId)];
      rest := rest - {run};
    }
    assert expired.Keys - rest == expired.Keys;
  }

  /** The staged datasets, locked in (namespace, name) order. */
  method StagedLocks(staged: set<DatasetKey>) returns (locks: seq<Resource>)
    ensures AscendingDatasetLocks(locks)
    ensures forall d :: Dataset(d) in locks <==> d in staged
  {
    var listed := Listing(staged);
    forall a, b, c
      ensures KeyLess(a, b) ==> !KeyLess(b, a)
      ensures !KeyLess(a, b) && !KeyLess(b, c) ==> !KeyLess(a, c)
    {
      KeyOrder(a, b, c);
    }
    forall i, j | 0 <= i < j < |listed| ensures Comparable(KeyLess, listed[i], listed[j]) {
      KeyOrder(listed[i], listed[j], listed[i]);
    }
    var sorted := SortFunc(listed, KeyLess);
    assert forall d :: d in sorted <==> d in multiset(sorted);
    assert forall d :: d in listed <==> d in multiset(listed);
    locks := [];
    for i := 0 to |sorted|
      invariant |locks| == i && forall j | 0 <= j < i :: locks[j] == Dataset(sorted[j])
    {
      locks := locks + [Dataset(sorted[i])];
    }
    forall d ensures Dataset(d) in locks <==> d in sorted {
      if d in sorted {
        var i :| 0 <= i < |sorted| && sorted[i] == d;
        assert locks[i] == Dataset(d);
      }
    }
    forall i, j | 0 <= i < j < |locks| ensures ResourceLess(locks[i], locks[j]) {
      assert KeyLess(sorted[i], sorted[j]);
    }
  }
}
