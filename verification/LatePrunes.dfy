/**
 A prune whose delete also takes runs that were committed after it had locked its tasks. It locks
 those runs without their tasks, and that is harmless in exactly one case.
 */
module LatePrunes {
  import opened Ordering
  import opened DatasetReferences
  import opened DatasetStatements
  import opened DatasetRebuild
  import opened RunReferences
  import opened IngestBatch
  import opened LockOrder
  import opened TransactionLocks

  function TasksOf(runs: map<RunKey, RunState>): set<string> {
    set run | run in runs :: run.taskGUID
  }

  /** The runs the delete finds of tasks that were not locked. */
  function LateRuns(found: map<RunKey, RunState>, atDelete: map<RunKey, RunState>): set<RunKey> {
    set run | run in atDelete && run.taskGUID !in TasksOf(found)
  }

  /** No late run, or a single one of a task that follows every locked one. */
  predicate Harmless(found: map<RunKey, RunState>, atDelete: map<RunKey, RunState>) {
    && |LateRuns(found, atDelete)| <= 1
    && forall run, guid | run in LateRuns(found, atDelete) && guid in TasksOf(found) :: StringLess(guid, run.taskGUID)
  }

  function RowOf(run: RunKey): Resource {
    Run(run.taskGUID, run.runId)
  }

  // ----- One late run behind every locked task is harmless -----

  /** The transactions beside one that may lock a single run, `late`, without its task. */
  ghost predicate OneLate(s: State, p: nat, late: Resource) {
    && s.Valid() && s.Exclusive() && p < |s.programs| && late.Run?
    && (forall i | 0 <= i < |s.programs| :: DatasetsLast(s.programs[i]) && RisingBesideRuns(s.programs[i]))
    && (forall i | 0 <= i < |s.programs| && i != p :: Ordered(s.programs[i]))
    && (forall k | 0 <= k < |s.programs[p]| && s.programs[p][k].Run? && s.programs[p][k] != late ::
          Task(s.programs[p][k].task) in s.programs[p][..k])
    && (forall k, l | 0 <= k < l < |s.programs[p]| && s.programs[p][k].Run? :: !s.programs[p][l].Task?)
    && (forall k | 0 <= k < |s.programs[p]| && s.programs[p][k].Task? :: ResourceLess(s.programs[p][k], Task(late.task)))
  }

  /** Behind a dataset only datasets are locked. */
  ghost predicate DatasetsLast(locks: seq<Resource>) {
    forall i, j | 0 <= i < j < |locks| && locks[i].Dataset? :: locks[j].Dataset?
  }

  /** Who asks for the row of a run holds its task, unless it is the late run. */
  lemma HoldsTaskOf(s: State, p: nat, late: Resource, i: nat, k: nat)
    requires OneLate(s, p, late) && i < |s.programs| && k <= s.position[i] && s.Running(i)
    requires s.programs[i][k].Run? && (i == p ==> s.programs[i][k] != late)
    ensures s.Holds(i, Task(s.programs[i][k].task))
  {
    assert Task(s.programs[i][k].task) in s.programs[i][..k];
    assert s.programs[i][..k] <= s.programs[i][..s.position[i]];
  }

  lemma HoldsTaskOfHeld(s: State, p: nat, late: Resource, i: nat, r: Resource)
    requires OneLate(s, p, late) && i < |s.programs| && s.Holds(i, r) && r.Run? && (i == p ==> r != late)
    ensures s.Holds(i, Task(r.task))
  {
    var k :| 0 <= k < s.position[i] && s.programs[i][k] == r;
    HoldsTaskOf(s, p, late, i, k);
  }

  /** So no one waits for a run, but for the late one. */
  lemma FreeToTakeRun(s: State, p: nat, late: Resource, i: nat)
    requires OneLate(s, p, late) && i < |s.programs| && s.Running(i) && s.Request(i).Run? && s.Request(i) != late
    ensures !s.Blocked(i)
  {
    if s.Blocked(i) {
      var j: nat :| j < |s.programs| && j != i && s.Holds(j, s.Request(i));
      HoldsTaskOf(s, p, late, i, s.position[i]);
      HoldsTaskOfHeld(s, p, late, j, s.Request(i));
      assert false;
    }
  }

  lemma WaitsForLate(s: State, p: nat, late: Resource, i: nat)
    requires OneLate(s, p, late) && i < |s.programs| && i != p && s.Running(i) && s.Request(i) == late && s.Blocked(i)
    ensures s.Holds(p, late)
  {
    var j: nat :| j < |s.programs| && j != i && s.Holds(j, late);
    HoldsTaskOf(s, p, late, i, s.position[i]);
    if j != p { HoldsTaskOfHeld(s, p, late, j, late); }
  }

  /** Nobody waits for a dataset in vain. */
  lemma FreeToTakeDataset(s: State, p: nat, late: Resource, one: nat) returns (i: nat)
    requires OneLate(s, p, late) && one < |s.programs| && s.Running(one) && s.Request(one).Dataset?
    ensures i < |s.programs| && s.Running(i) && !s.Blocked(i)
  {
    var waiting := set k: nat | k < |s.programs| && s.Running(k) && s.Request(k).Dataset?;
    assert one in waiting;
    i := GreatestRequest(s, waiting);
    if s.Blocked(i) {
      var holder: nat :| holder < |s.programs| && holder != i && s.Holds(holder, s.Request(i));
      var at :| 0 <= at < s.position[holder] && s.programs[holder][at] == s.Request(i);
      assert s.Request(holder).Dataset? && holder in waiting;
      HolderIsFree(s, holder, s.Request(i));
      i := holder;
    }
  }

  /** While only tasks are asked for beside `p`, the transaction that waits farthest for one goes on. */
  lemma FreeToTakeTask(s: State, p: nat, late: Resource, one: nat) returns (i: nat)
    requires OneLate(s, p, late) && one < |s.programs| && one != p && s.Running(one)
    requires forall k: nat | k < |s.programs| && k != p && s.Running(k) :: s.Request(k).Task?
    requires !ResourceLess(s.Request(one), Task(late.task))
    ensures i < |s.programs| && s.Running(i) && !s.Blocked(i)
  {
    var waiting := set k: nat | k < |s.programs| && k != p && s.Running(k);
    assert one in waiting;
    i := GreatestRequest(s, waiting);
    ResourceLessIsTotal(s.Request(i), s.Request(one), Task(late.task));
    if s.Blocked(i) {
      var holder: nat :| holder < |s.programs| && holder != i && s.Holds(holder, s.Request(i));
      var at :| 0 <= at < s.position[holder] && s.programs[holder][at] == s.Request(i);
      assert holder in waiting;
      HolderIsFree(s, holder, s.Request(i));
      i := holder;
    }
  }

  /** The holder of the late run holds its task, so it asks for nothing before that. */
  lemma BeyondLate(s: State, p: nat, late: Resource, i: nat)
    requires OneLate(s, p, late) && i < |s.programs| && i != p && s.Holds(i, late) && s.Request(i).Task?
    ensures !ResourceLess(s.Request(i), Task(late.task))
  {
    HoldsTaskOfHeld(s, p, late, i, late);
    var at :| 0 <= at < s.position[i] && s.programs[i][at] == Task(late.task);
  }

  /** Nobody asks for a dataset, and nobody but `p` for a run. */
  lemma FreeBesideTasks(s: State, p: nat, late: Resource, one: nat) returns (i: nat)
    requires OneLate(s, p, late) && one < |s.programs| && s.Running(one)
    requires forall k: nat | k < |s.programs| && s.Running(k) :: !s.Request(k).Dataset?
    requires forall k: nat | k < |s.programs| && s.Running(k) && s.Request(k).Run? :: k == p && s.Request(k) == late
    ensures i < |s.programs| && s.Running(i) && !s.Blocked(i)
  {
    if s.Running(p) && s.Request(p).Run? {
      i := p;
      if s.Blocked(p) {
        var holder: nat :| holder < |s.programs| && holder != p && s.Holds(holder, late);
        BeyondLate(s, p, late, holder);
        i := FreeToTakeTask(s, p, late, holder);
      }
    } else {
      var waiting := set k: nat | k < |s.programs| && s.Running(k);
      assert one in waiting;
      i := GreatestRequest(s, waiting);
      if s.Blocked(i) {
        var holder: nat :| holder < |s.programs| && holder != i && s.Holds(holder, s.Request(i));
        assert holder in waiting;
        HolderIsFree(s, holder, s.Request(i));
        i := holder;
      }
    }
  }

  lemma OneLateNeverDeadlocks(s: State, p: nat, late: Resource)
    requires OneLate(s, p, late)
    ensures !Deadlocked(s)
  {
    if one: nat :| one < |s.programs| && s.Running(one) && s.Request(one).Dataset? {
      var i := FreeToTakeDataset(s, p, late, one);
    } else if i: nat :| i < |s.programs| && s.Running(i) && s.Request(i).Run? && s.Request(i) != late {
      FreeToTakeRun(s, p, late, i);
    } else if i: nat :| i < |s.programs| && i != p && s.Running(i) && s.Request(i) == late {
      if s.Blocked(i) {
        WaitsForLate(s, p, late, i);
        HeldLateIsPast(s, p, late);
      }
    } else if one: nat :| one < |s.programs| && s.Running(one) {
      var i := FreeBesideTasks(s, p, late, one);
    }
  }

  /** Once `p` holds the late run, it asks for runs until it asks for datasets. */
  lemma HeldLateIsPast(s: State, p: nat, late: Resource)
    requires OneLate(s, p, late) && s.Holds(p, late) && !s.Request(p).Dataset?
    ensures !s.Blocked(p)
  {
    var at :| 0 <= at < s.position[p] && s.programs[p][at] == late;
    assert s.Request(p).Run?;
    if s.Request(p) != late { FreeToTakeRun(s, p, late, p); }
  }

  // ----- The programs -----

  /** The programs of one prune, at `p`, and any number of ingests and of prunes that are not disturbed. */
  ghost predicate BesidePrune(programs: seq<seq<Resource>>, p: nat, found: map<RunKey, RunState>, atDelete: map<RunKey, RunState>,
                              staged: set<DatasetKey>) {
    && p < |programs| && LatePrune(programs[p], found, atDelete, staged)
    && forall i | 0 <= i < |programs| && i != p :: SomeIngest(programs[i]) || SomePrune(programs[i])
  }

  lemma DatasetsBehind(locks: seq<Resource>, datasets: seq<Resource>)
    requires NoDatasets(locks) && AscendingDatasetLocks(datasets)
    ensures DatasetsLast(locks + datasets)
  {
  }

  lemma IngestShape(locks: seq<Resource>, runs: map<RunKey, RunState>, rows: seq<RefRow>, order: seq<Indexed>)
    requires StrictlySortedBy(LocksBefore, order) && IngestLocks(locks, runs, rows, order)
    ensures Ordered(locks) && DatasetsLast(locks)
  {
    var batch := BatchLocks(runs, order);
    IngestLocksInOrder(locks, runs, rows, order);
    BatchLocksInOrder(runs, order, |order|);
    assert order[..|order|] == order;
    DatasetsBehind(batch, locks[|batch|..]);
    assert locks == batch + locks[|batch|..];
  }

  lemma PruneShape(locks: seq<Resource>, expired: map<RunKey, RunState>, staged: set<DatasetKey>)
    requires PruneLocks(locks, expired, staged)
    ensures Ordered(locks) && DatasetsLast(locks)
  {
    PruneLocksInOrder(locks, expired, staged);
    var tasks: seq<Resource>, deleted: seq<Resource>, datasets: seq<Resource> :|
      PrunePhases(tasks, deleted, datasets, expired, expired, staged) && locks == tasks + deleted + datasets;
    NoDatasetsBefore(tasks, deleted, expired, expired);
    DatasetsBehind(tasks + deleted, datasets);
  }

  lemma OthersInOrder(locks: seq<Resource>)
    requires SomeIngest(locks) || SomePrune(locks)
    ensures Ordered(locks) && DatasetsLast(locks)
  {
    if SomeIngest(locks) {
      var runs, rows, order, deliveries :|
        OwnedByRuns(runs, rows) && IsTaskLockOrder(order, deliveries) && IngestLocks(locks, runs, rows, order);
      IngestShape(locks, runs, rows, order);
    } else if locks != [] {
      var runs, rows, cutoff :| OwnedByRuns(runs, rows) && PruneLocks(locks, Expired(runs, cutoff), StagedBy(runs, rows, cutoff));
      PruneShape(locks, Expired(runs, cutoff), StagedBy(runs, rows, cutoff));
    }
  }

  lemma NoDatasetsBefore(tasks: seq<Resource>, deleted: seq<Resource>, found: map<RunKey, RunState>, atDelete: map<RunKey, RunState>)
    requires LocksTasks(tasks, found) && LocksRuns(deleted, atDelete)
    ensures NoDatasets(tasks + deleted)
    ensures forall k | 0 <= k < |deleted| :: deleted[k].Run?
  {
    forall k | 0 <= k < |deleted| ensures deleted[k].Run? {
      assert deleted[k] in deleted;
    }
  }

  /** What a prune with at most one late run locks, and in which order. */
  ghost predicate LateShape(locks: seq<Resource>, late: Resource) {
    && late.Run? && DatasetsLast(locks) && RisingBesideRuns(locks)
    && (forall k | 0 <= k < |locks| && locks[k].Run? && locks[k] != late :: Task(locks[k].task) in locks[..k])
    && (forall k, l | 0 <= k < l < |locks| && locks[k].Run? :: !locks[l].Task?)
    && (forall k | 0 <= k < |locks| && locks[k].Task? :: ResourceLess(locks[k], Task(late.task)))
  }

  ghost predicate LateList(tasks: seq<Resource>, deleted: seq<Resource>, datasets: seq<Resource>, late: Resource) {
    && late.Run? && AscendingTaskLocks(tasks) && AscendingDatasetLocks(datasets)
    && (forall k | 0 <= k < |deleted| :: deleted[k].Run? && (deleted[k] == late || Task(deleted[k].task) in tasks))
    && (forall r | r in tasks :: ResourceLess(r, Task(late.task)))
  }

  /** The lists one behind the other. */
  ghost predicate Joined(locks: seq<Resource>, tasks: seq<Resource>, deleted: seq<Resource>, datasets: seq<Resource>) {
    && |locks| == |tasks| + |deleted| + |datasets|
    && (forall k | 0 <= k < |tasks| :: locks[k] == tasks[k])
    && (forall k | |tasks| <= k < |tasks| + |deleted| :: locks[k] == deleted[k - |tasks|])
    && (forall k | |tasks| + |deleted| <= k < |locks| :: locks[k] == datasets[k - |tasks| - |deleted|])
  }

  lemma LateListRises(locks: seq<Resource>, tasks: seq<Resource>, deleted: seq<Resource>, datasets: seq<Resource>, late: Resource)
    requires Joined(locks, tasks, deleted, datasets) && LateList(tasks, deleted, datasets, late)
    ensures RisingBesideRuns(locks)
  {
    forall i, j | 0 <= i < j < |locks| && !locks[i].Run? && !locks[j].Run? ensures !ResourceLess(locks[j], locks[i]) {
      ResourceLessIsTotal(locks[i], locks[j], locks[i]);
    }
  }

  lemma LateListGuards(locks: seq<Resource>, tasks: seq<Resource>, deleted: seq<Resource>, datasets: seq<Resource>, late: Resource, k: nat)
    requires Joined(locks, tasks, deleted, datasets) && LateList(tasks, deleted, datasets, late)
    requires k < |locks| && locks[k].Run? && locks[k] != late
    ensures Task(locks[k].task) in locks[..k]
  {
    assert |tasks| <= k;
    var at :| 0 <= at < |tasks| && tasks[at] == Task(locks[k].task);
    assert locks[..k][at] == tasks[at];
  }

  lemma LateListShape(locks: seq<Resource>, tasks: seq<Resource>, deleted: seq<Resource>, datasets: seq<Resource>, late: Resource)
    requires Joined(locks, tasks, deleted, datasets) && LateList(tasks, deleted, datasets, late)
    ensures LateShape(locks, late)
  {
    LateListRises(locks, tasks, deleted, datasets, late);
    forall k: nat | k < |locks| && locks[k].Run? && locks[k] != late ensures Task(locks[k].task) in locks[..k] {
      LateListGuards(locks, tasks, deleted, datasets, late, k);
    }
    forall k | 0 <= k < |locks| && locks[k].Task? ensures ResourceLess(locks[k], Task(late.task)) {
      assert locks[k] in tasks;
    }
  }

  lemma LatePruneShape(locks: seq<Resource>, found: map<RunKey, RunState>, atDelete: map<RunKey, RunState>, staged: set<DatasetKey>,
                       late: RunKey)
    requires LatePrune(locks, found, atDelete, staged) && LateRuns(found, atDelete) <= {late}
    requires forall guid | guid in TasksOf(found) :: StringLess(guid, late.taskGUID)
    ensures LateShape(locks, RowOf(late))
  {
    var tasks: seq<Resource>, deleted: seq<Resource>, datasets: seq<Resource> :|
      PrunePhases(tasks, deleted, datasets, found, atDelete, staged) && locks == tasks + deleted + datasets;
    forall k | 0 <= k < |deleted|
      ensures deleted[k].Run? && (deleted[k] == RowOf(late) || Task(deleted[k].task) in tasks)
    {
      assert deleted[k] in deleted;
      var run :| run in atDelete && deleted[k] == Run(run.taskGUID, run.runId);
      if run !in LateRuns(found, atDelete) { assert run.taskGUID in TasksOf(found); }
    }
    forall r | r in tasks ensures ResourceLess(r, Task(late.taskGUID)) {
      var k :| 0 <= k < |tasks| && tasks[k] == r;
      assert r.guid in TasksOf(found);
    }
    LateListShape(locks, tasks, deleted, datasets, RowOf(late));
  }

  lemma UndisturbedInOrder(locks: seq<Resource>, found: map<RunKey, RunState>, atDelete: map<RunKey, RunState>, staged: set<DatasetKey>)
    requires LatePrune(locks, found, atDelete, staged) && LateRuns(found, atDelete) == {}
    ensures Ordered(locks)
  {
    var tasks: seq<Resource>, deleted: seq<Resource>, datasets: seq<Resource> :|
      PrunePhases(tasks, deleted, datasets, found, atDelete, staged) && locks == tasks + deleted + datasets;
    forall k | 0 <= k < |deleted| ensures deleted[k].Run? && Task(deleted[k].task) in tasks {
      assert deleted[k] in deleted;
      var run :| run in atDelete && deleted[k] == Run(run.taskGUID, run.runId);
      assert run !in LateRuns(found, atDelete) && run.taskGUID in TasksOf(found);
    }
    TaskThenRunLocks(tasks, deleted);
    RunThenDatasetLocks(tasks + deleted, datasets);
  }

  lemma HarmlessNeverDeadlocks(states: seq<State>, p: nat, found: map<RunKey, RunState>, atDelete: map<RunKey, RunState>, staged: set<DatasetKey>)
    requires Harmless(found, atDelete) && Interleaving(states) && BesidePrune(states[0].programs, p, found, atDelete, staged)
    ensures !Deadlocked(states[|states| - 1])
  {
    var s := states[|states| - 1];
    InterleavingKeepsExclusive(states, |states| - 1);
    forall i | 0 <= i < |s.programs| && i != p ensures Ordered(s.programs[i]) && DatasetsLast(s.programs[i]) {
      OthersInOrder(s.programs[i]);
    }
    if LateRuns(found, atDelete) == {} {
      UndisturbedInOrder(s.programs[p], found, atDelete, staged);
      InterleavingNeverStuck(states);
    } else {
      var late :| late in LateRuns(found, atDelete);
      OnlyOne(LateRuns(found, atDelete), late);
      LatePruneShape(s.programs[p], found, atDelete, staged, late);
      OneLateNeverDeadlocks(s, p, RowOf(late));
    }
  }

  lemma OnlyOne<T>(xs: set<T>, x: T)
    requires |xs| <= 1 && x in xs
    ensures xs == {x}
  {
    assert |xs - {x}| == |xs| - 1;
  }

  // ----- Anything else can deadlock -----

  function At(prune: seq<Resource>, ingest: seq<Resource>, i: nat, j: nat): State {
    State([prune, ingest], [i, j])
  }

  lemma Advances(prune: seq<Resource>, ingest: seq<Resource>, i: nat, j: nat)
    requires i <= |prune| && j <= |ingest|
    ensures i < |prune| && (forall k | 0 <= k < j :: ingest[k] != prune[i]) ==>
              At(prune, ingest, i, j).Next(At(prune, ingest, i + 1, j))
    ensures j < |ingest| && (forall k | 0 <= k < i :: prune[k] != ingest[j]) ==>
              At(prune, ingest, i, j).Next(At(prune, ingest, i, j + 1))
  {
    var s := At(prune, ingest, i, j);
    if i < |prune| && forall k | 0 <= k < j :: ingest[k] != prune[i] {
      assert s.Running(0) && !s.Blocked(0) && At(prune, ingest, i + 1, j) == s.Advance(0);
    }
    if j < |ingest| && forall k | 0 <= k < i :: prune[k] != ingest[j] {
      assert s.Running(1) && !s.Blocked(1) && At(prune, ingest, i, j + 1) == s.Advance(1);
    }
  }

  /** The two transactions wait for each other. */
  lemma WaitForEachOther(prune: seq<Resource>, ingest: seq<Resource>, i: nat, j: nat)
    requires i < |prune| && j < |ingest| && prune[i] in ingest[..j] && ingest[j] in prune[..i]
    ensures Deadlocked(At(prune, ingest, i, j))
  {
    var s := At(prune, ingest, i, j);
    assert s.Holds(0, ingest[j]) && s.Holds(1, prune[i]);
    assert s.Running(0) && s.Blocked(0) && s.Blocked(1);
  }

  lemma GoesOn(states: seq<State>, next: State)
    requires Interleaving(states) && states[|states| - 1].Valid() && states[|states| - 1].Next(next)
    ensures Interleaving(states + [next])
  {
    var longer := states + [next];
    forall k | 0 <= k < |longer| - 1 ensures StepAt(longer, k) {
      assert k < |states| - 1 ==> StepAt(states, k);
    }
  }

  ghost predicate ComesTo(states: seq<State>, prune: seq<Resource>, ingest: seq<Resource>, i: nat, j: nat) {
    Interleaving(states) && states[0] == At(prune, ingest, 0, 0) && states[|states| - 1] == At(prune, ingest, i, j)
  }

  lemma PruneGoesOn(states: seq<State>, prune: seq<Resource>, ingest: seq<Resource>, i: nat)
    requires ComesTo(states, prune, ingest, i, 0) && i < |prune|
    ensures ComesTo(states + [At(prune, ingest, i + 1, 0)], prune, ingest, i + 1, 0)
  {
    Advances(prune, ingest, i, 0);
    GoesOn(states, At(prune, ingest, i + 1, 0));
  }

  lemma IngestGoesOn(states: seq<State>, prune: seq<Resource>, ingest: seq<Resource>, i: nat, j: nat)
    requires ComesTo(states, prune, ingest, i, j) && i <= |prune| && j < |ingest| && ingest[j] !in prune[..i]
    ensures ComesTo(states + [At(prune, ingest, i, j + 1)], prune, ingest, i, j + 1)
  {
    assert forall k | 0 <= k < i :: prune[k] == prune[..i][k];
    Advances(prune, ingest, i, j);
    GoesOn(states, At(prune, ingest, i, j + 1));
  }

  /** First the prune, then the ingest, until each wants what the other holds. */
  lemma Meet(prune: seq<Resource>, ingest: seq<Resource>, i: nat, j: nat) returns (states: seq<State>)
    requires i < |prune| && j < |ingest| && prune[i] in ingest[..j] && ingest[j] in prune[..i]
    requires forall k | 0 <= k < j :: ingest[k] !in prune[..i]
    ensures ComesTo(states, prune, ingest, i, j) && Deadlocked(states[|states| - 1])
  {
    states := [At(prune, ingest, 0, 0)];
    for k := 0 to i
      invariant ComesTo(states, prune, ingest, k, 0)
    {
      PruneGoesOn(states, prune, ingest, k);
      states := states + [At(prune, ingest, k + 1, 0)];
    }
    for k := 0 to j
      invariant ComesTo(states, prune, ingest, i, k)
    {
      IngestGoesOn(states, prune, ingest, i, k);
      states := states + [At(prune, ingest, i, k + 1)];
    }
    WaitForEachOther(prune, ingest, i, j);
  }

  lemma MeetAtFirst(prune: seq<Resource>, tasks: seq<Resource>, ingest: seq<Resource>) returns (states: seq<State>)
    requires |tasks| < |prune| && prune[..|tasks|] == tasks && |ingest| == 4
    requires prune[|tasks|] == ingest[1] && ingest[2] in tasks && ingest[0] !in tasks && ingest[1] !in tasks
    ensures ComesTo(states, prune, ingest, |tasks|, 2) && Deadlocked(states[|states| - 1])
  {
    assert ingest[..2][1] == ingest[1];
    states := Meet(prune, ingest, |tasks|, 2);
  }

  lemma MeetAtSecond(prune: seq<Resource>, tasks: seq<Resource>, ingest: seq<Resource>) returns (states: seq<State>)
    requires |tasks| + 1 < |prune| && prune[..|tasks|] == tasks && |ingest| == 4
    requires prune[|tasks|] == ingest[3] && prune[|tasks| + 1] == ingest[1]
    requires forall k | 0 <= k < 3 :: ingest[k] !in tasks && ingest[k] != ingest[3]
    ensures ComesTo(states, prune, ingest, |tasks| + 1, 3) && Deadlocked(states[|states| - 1])
  {
    var n := |tasks| + 1;
    assert prune[..n] == tasks + [ingest[3]];
    assert ingest[..3][1] == ingest[1] && prune[..n][|tasks|] == ingest[3];
    states := Meet(prune, ingest, n, 3);
  }

  // ----- An ingest and a prune that meet -----

  /** The locks of an ingest of two runs. */
  function TwoRuns(x: RunKey, y: RunKey): seq<Resource> {
    [Task(x.taskGUID), RowOf(x), Task(y.taskGUID), RowOf(y)]
  }

  function Completes(run: RunKey): Delivery {
    Delivery(run, RunState(EVENT_COMPLETE, None), [])
  }

  lemma OneDelivery(runs: map<RunKey, RunState>, order: seq<Indexed>, n: nat, run: RunKey)
    requires n < |order| && order[n].delivery == Completes(run) && FoldRows(runs, [], Deliveries(order[..n])) == []
    ensures BatchLocks(runs, order[..n + 1]) == BatchLocks(runs, order[..n]) + [Task(run.taskGUID), RowOf(run)]
    ensures FoldRows(runs, [], Deliveries(order[..n + 1])) == []
  {
    DeliveriesStep(order, n);
    assert RowsOf(run, []) == [];
  }

  lemma NoDelivery(runs: map<RunKey, RunState>, order: seq<Indexed>)
    ensures BatchLocks(runs, order[..0]) == [] && FoldRows(runs, [], Deliveries(order[..0])) == []
  {
    assert order[..0] == [];
  }

  ghost predicate TwoEntries(order: seq<Indexed>, x: RunKey, y: RunKey) {
    |order| == 2 && order[0] == Indexed(0, Completes(x)) && order[1] == Indexed(1, Completes(y))
  }

  lemma TwoInOrder(order: seq<Indexed>, deliveries: seq<Delivery>, x: RunKey, y: RunKey)
    requires TwoEntries(order, x, y) && !StringLess(y.taskGUID, x.taskGUID)
    requires |deliveries| == 2 && deliveries[0] == Completes(x) && deliveries[1] == Completes(y)
    ensures IsTaskLockOrder(order, deliveries)
  {
    assert order == IndexedOf(deliveries);
    StringOrder(x.taskGUID, y.taskGUID, x.taskGUID);
    assert LocksBefore(order[0], order[1]);
  }

  lemma TwoLocks(runs: map<RunKey, RunState>, order: seq<Indexed>, x: RunKey, y: RunKey)
    requires TwoEntries(order, x, y)
    ensures BatchLocks(runs, order) == TwoRuns(x, y) && FoldRows(runs, [], Deliveries(order)) == []
  {
    NoDelivery(runs, order);
    OneDelivery(runs, order, 0, x);
    OneDelivery(runs, order, 1, y);
    assert order[..2] == order;
    assert [] + [Task(x.taskGUID), RowOf(x)] + [Task(y.taskGUID), RowOf(y)] == TwoRuns(x, y);
  }

  /** Two finished runs without references, in lock order, are ingested with those locks, whatever is stored. */
  lemma TwoRunsAreAnIngest(runs: map<RunKey, RunState>, x: RunKey, y: RunKey)
    requires !StringLess(y.taskGUID, x.taskGUID)
    ensures SomeIngest(TwoRuns(x, y))
  {
    var deliveries, order := [Completes(x), Completes(y)], [Indexed(0, Completes(x)), Indexed(1, Completes(y))];
    TwoInOrder(order, deliveries, x, y);
    TwoLocks(runs, order, x, y);
    LocksNothingMore(TwoRuns(x, y), runs, order);
  }

  lemma LocksNothingMore(locks: seq<Resource>, runs: map<RunKey, RunState>, order: seq<Indexed>)
    requires BatchLocks(runs, order) == locks && FoldRows(runs, [], Deliveries(order)) == []
    ensures OwnedByRuns(runs, []) && IngestLocks(locks, runs, [], order)
  {
    assert locks[|locks|..] == [];
    assert RefsOf([]) == [];
  }

  lemma {:induction false} Ascending(elements: set<Resource>) returns (locks: seq<Resource>)
    requires forall r | r in elements :: !r.Run?
    ensures forall i, j | 0 <= i < j < |locks| :: ResourceLess(locks[i], locks[j])
    ensures forall r :: r in locks <==> r in elements
  {
    forall a, b, c | a in elements && b in elements && c in elements
      ensures ResourceLess(a, b) ==> !ResourceLess(b, a)
      ensures a == b || ResourceLess(a, b) || ResourceLess(b, a)
      ensures ResourceLess(a, b) && ResourceLess(b, c) ==> ResourceLess(a, c)
    {
      ResourceLessIsTotal(a, b, c);
      ResourceLessIsTotal(b, c, a);
      ResourceLessIsTotal(c, b, a);
      ResourceLessIsTotal(a, c, b);
    }
    locks := SortedListing(elements, ResourceLess);
    SortedListingIsSorted(elements, ResourceLess);
    assert StrictlySortedBy(ResourceLess, locks);
  }

  /** A delete may come to some runs first. */
  lemma {:induction false} DeleteOrder(runs: set<RunKey>, first: seq<Resource>) returns (deleted: seq<Resource>)
    requires NoRepeats(first) && forall run | run in runs :: RowOf(run) !in first
    ensures NoRepeats(deleted) && first <= deleted
    ensures forall r :: r in deleted <==> r in first || exists run :: run in runs && r == RowOf(run)
    decreases runs
  {
    if runs == {} {
      deleted := first;
    } else {
      var run :| run in runs;
      NoRepeatsAppend(first, RowOf(run));
      deleted := DeleteOrder(runs - {run}, first + [RowOf(run)]);
    }
  }

  lemma SomeTasks(found: map<RunKey, RunState>) returns (tasks: seq<Resource>)
    ensures LocksTasks(tasks, found)
    ensures forall r :: r in tasks <==> r.Task? && r.guid in TasksOf(found)
  {
    var elements := set guid | guid in TasksOf(found) :: Task(guid);
    tasks := Ascending(elements);
    forall r ensures r in tasks <==> r.Task? && r.guid in TasksOf(found) {
      assert r.Task? && r.guid in TasksOf(found) ==> Task(r.guid) in elements;
    }
  }

  lemma SomeStaged(staged: set<DatasetKey>) returns (datasets: seq<Resource>)
    ensures LocksStaged(datasets, staged)
  {
    var elements := set d | d in staged :: Dataset(d);
    datasets := Ascending(elements);
    forall d ensures Dataset(d) in datasets <==> d in staged {
      assert d in staged ==> Dataset(d) in elements;
    }
    forall k | 0 <= k < |datasets| ensures datasets[k].Dataset? {
      assert datasets[k] in datasets;
    }
  }

  /** The rows of some runs, which may come first. */
  lemma SomeDelete(atDelete: map<RunKey, RunState>, first: seq<RunKey>) returns (deleted: seq<Resource>)
    requires NoRepeats(first) && forall run | run in first :: run in atDelete
    ensures LocksRuns(deleted, atDelete)
    ensures |first| <= |deleted| && forall k | 0 <= k < |first| :: deleted[k] == RowOf(first[k])
  {
    var head := seq(|first|, k requires 0 <= k < |first| => RowOf(first[k]));
    var rest := set run | run in atDelete && run !in first;
    forall run ensures RowOf(run) in head <==> run in first {
      if run in first {
        var k :| 0 <= k < |first| && first[k] == run;
        assert head[k] == RowOf(run);
      }
    }
    deleted := DeleteOrder(rest, head);
    forall r ensures r in deleted <==> exists run :: run in atDelete && r == Run(run.taskGUID, run.runId) {
      if r in head {
        var k :| 0 <= k < |head| && head[k] == r;
        assert first[k] in first && r == Run(first[k].taskGUID, first[k].runId);
      }
      if run :| run in rest && r == RowOf(run) {
        assert r == Run(run.taskGUID, run.runId);
      }
      if run :| run in atDelete && r == Run(run.taskGUID, run.runId) {
        assert r == RowOf(run) && (run in rest || RowOf(run) in head);
      }
    }
  }

  /** A prune that locks its tasks, then comes to the given runs first. */
  lemma SomeLatePrune(found: map<RunKey, RunState>, atDelete: map<RunKey, RunState>, staged: set<DatasetKey>, first: seq<RunKey>)
      returns (locks: seq<Resource>, tasks: seq<Resource>)
    requires NoRepeats(first) && forall run | run in first :: run in atDelete
    ensures LatePrune(locks, found, atDelete, staged)
    ensures |tasks| + |first| <= |locks| && locks[..|tasks|] == tasks
    ensures forall k | 0 <= k < |first| :: locks[|tasks| + k] == RowOf(first[k])
    ensures forall r :: r in tasks <==> r.Task? && r.guid in TasksOf(found)
  {
    tasks := SomeTasks(found);
    var deleted := SomeDelete(atDelete, first);
    var datasets := SomeStaged(staged);
    assert PrunePhases(tasks, deleted, datasets, found, atDelete, staged);
    locks := tasks + deleted + datasets;
  }

  /** The prune with its ingest, and where they meet. */
  ghost predicate DeadlocksWithIngest(states: seq<State>, found: map<RunKey, RunState>, atDelete: map<RunKey, RunState>, staged: set<DatasetKey>) {
    && Interleaving(states) && |states[0].programs| == 2
    && LatePrune(states[0].programs[0], found, atDelete, staged) && SomeIngest(states[0].programs[1])
    && Deadlocked(states[|states| - 1])
  }

  /** A late run of a task before one that is locked: an ingest redelivers it and wants the locked task next. */
  lemma LateBeforeLocked(found: map<RunKey, RunState>, atDelete: map<RunKey, RunState>, staged: set<DatasetKey>, x: RunKey, z: RunKey)
      returns (states: seq<State>)
    requires x in LateRuns(found, atDelete) && z in found && !StringLess(z.taskGUID, x.taskGUID)
    ensures DeadlocksWithIngest(states, found, atDelete, staged)
  {
    var prune, tasks := SomeLatePrune(found, atDelete, staged, [x]);
    var ingest := TwoRuns(x, z);
    TwoRunsAreAnIngest(atDelete, x, z);
    assert [x][0] == x && z.taskGUID in TasksOf(found);
    states := MeetAtFirst(prune, tasks, ingest);
  }

  lemma ComesFirst(found: map<RunKey, RunState>, atDelete: map<RunKey, RunState>, staged: set<DatasetKey>, first: seq<RunKey>)
      returns (prune: seq<Resource>, tasks: seq<Resource>)
    requires |first| == 2 && first[0] != first[1] && first[0] in atDelete && first[1] in atDelete
    ensures LatePrune(prune, found, atDelete, staged) && |tasks| + 1 < |prune| && prune[..|tasks|] == tasks
    ensures prune[|tasks|] == RowOf(first[0]) && prune[|tasks| + 1] == RowOf(first[1])
    ensures forall r :: r in tasks <==> r.Task? && r.guid in TasksOf(found)
  {
    prune, tasks := SomeLatePrune(found, atDelete, staged, first);
    assert prune[|tasks| + 0] == RowOf(first[0]);
  }

  /** Two late runs: an ingest redelivers both, the prune comes to them the other way round. */
  lemma TwoLate(found: map<RunKey, RunState>, atDelete: map<RunKey, RunState>, staged: set<DatasetKey>, x: RunKey, y: RunKey)
      returns (states: seq<State>)
    requires x in LateRuns(found, atDelete) && y in LateRuns(found, atDelete) && x != y && !StringLess(y.taskGUID, x.taskGUID)
    ensures DeadlocksWithIngest(states, found, atDelete, staged)
  {
    var first := [y, x];
    assert first[0] == y && first[1] == x;
    var prune, tasks := ComesFirst(found, atDelete, staged, first);
    var ingest := TwoRuns(x, y);
    TwoRunsAreAnIngest(atDelete, x, y);
    states := MeetAtSecond(prune, tasks, ingest);
  }

  /** Every prune with late runs that are not harmless has a delete order and an ingest it deadlocks with. */
  lemma HarmfulDeadlocks(found: map<RunKey, RunState>, atDelete: map<RunKey, RunState>, staged: set<DatasetKey>) returns (states: seq<State>)
    requires !Harmless(found, atDelete)
    ensures DeadlocksWithIngest(states, found, atDelete, staged)
  {
    var late := LateRuns(found, atDelete);
    if run, guid :| run in late && guid in TasksOf(found) && !StringLess(guid, run.taskGUID) {
      var z :| z in found && z.taskGUID == guid;
      states := LateBeforeLocked(found, atDelete, staged, run, z);
    } else {
      var x :| x in late;
      assert |late - {x}| == |late| - 1;
      var y :| y in late - {x};
      StringOrder(x.taskGUID, y.taskGUID, x.taskGUID);
      if StringLess(y.taskGUID, x.taskGUID) {
        states := TwoLate(found, atDelete, staged, y, x);
      } else {
        states := TwoLate(found, atDelete, staged, x, y);
      }
    }
  }

  /** No run of the prune beside ingests and undisturbed prunes ends in a deadlock. */
  ghost predicate NeverDeadlocksBeside(found: map<RunKey, RunState>, atDelete: map<RunKey, RunState>, staged: set<DatasetKey>) {
    forall states: seq<State>, p | Interleaving(states) && BesidePrune(states[0].programs, p, found, atDelete, staged) :: !Deadlocked(states[|states| - 1])
  }

  /**
   Main result: whatever a prune finds expired at its lock statement and at its delete, and in whatever
   order it deletes, it never deadlocks with any ingests and undisturbed prunes exactly when no run is
   late, or a single one is and its task follows every locked one.
   */
  lemma LatePruneNeverDeadlocksExactly(before: map<RunKey, RunState>, later: map<RunKey, RunState>, cutoff: int, staged: set<DatasetKey>)
    ensures NeverDeadlocksBeside(Expired(before, cutoff), Expired(later, cutoff), staged) <==>
            Harmless(Expired(before, cutoff), Expired(later, cutoff))
  {
    var found, atDelete := Expired(before, cutoff), Expired(later, cutoff);
    if Harmless(found, atDelete) {
      forall states: seq<State>, p | Interleaving(states) && BesidePrune(states[0].programs, p, found, atDelete, staged)
        ensures !Deadlocked(states[|states| - 1])
      {
        HarmlessNeverDeadlocks(states, p, found, atDelete, staged);
      }
    } else {
      var states := HarmfulDeadlocks(found, atDelete, staged);
      assert BesidePrune(states[0].programs, 0, found, atDelete, staged);
    }
  }

  // ----- For instance -----

  const OLD_RUN := RunState(EVENT_COMPLETE, Some(0))

  /** One run is old when the tasks are locked; two more are at the delete, which comes to them first. No run has references. */
  ghost predicate Instance(before: map<RunKey, RunState>, later: map<RunKey, RunState>, prune: seq<Resource>, a: RunKey, b: RunKey, c: RunKey) {
    && before == map[a := OLD_RUN] && later == map[a := OLD_RUN, b := OLD_RUN, c := OLD_RUN]
    && prune == [Task(a.taskGUID), RowOf(c), RowOf(b), RowOf(a)]
    && a.taskGUID != b.taskGUID && a.taskGUID != c.taskGUID && StringLess(b.taskGUID, c.taskGUID)
  }

  lemma InstanceIsLatePrune(before: map<RunKey, RunState>, later: map<RunKey, RunState>, prune: seq<Resource>, a: RunKey, b: RunKey, c: RunKey)
    requires Instance(before, later, prune, a, b, c) && b.taskGUID != c.taskGUID
    ensures LatePrune(prune, Expired(before, 1), Expired(later, 1), StagedBy(before, [], 1))
  {
    assert Expired(before, 1) == before && Expired(later, 1) == later;
    var tasks, deleted, datasets: seq<Resource> := [Task(a.taskGUID)], [RowOf(c), RowOf(b), RowOf(a)], [];
    assert tasks[0] == Task(a.taskGUID);
    assert deleted[0] == RowOf(c) && deleted[1] == RowOf(b) && deleted[2] == RowOf(a);
    assert StagedBy(before, [], 1) == {};
    assert a in before;
    assert LocksTasks(tasks, before);
    assert LocksRuns(deleted, later);
    assert PrunePhases(tasks, deleted, datasets, before, later, {});
    assert tasks + deleted + datasets == prune;
  }

  lemma InstanceMeets(prune: seq<Resource>, a: RunKey, b: RunKey, c: RunKey) returns (states: seq<State>)
    requires |prune| == 4 && prune[0] == Task(a.taskGUID) && prune[1] == RowOf(c) && prune[2] == RowOf(b)
    requires a.taskGUID != b.taskGUID && a.taskGUID != c.taskGUID && b != c
    ensures ComesTo(states, prune, TwoRuns(b, c), 2, 3) && Deadlocked(states[|states| - 1])
  {
    var tasks := [Task(a.taskGUID)];
    assert prune[..1] == tasks;
    assert forall r | r in tasks :: r == Task(a.taskGUID);
    states := MeetAtSecond(prune, tasks, TwoRuns(b, c));
  }

  /** While the run of one task is pruned, old runs of two other tasks come in and are delivered again. */
  lemma LateRunsCanDeadlock(before: map<RunKey, RunState>, later: map<RunKey, RunState>, prune: seq<Resource>, a: RunKey, b: RunKey, c: RunKey)
      returns (states: seq<State>)
    requires Instance(before, later, prune, a, b, c)
    ensures Interleaving(states) && states[0].programs == [prune, TwoRuns(b, c)] && Deadlocked(states[|states| - 1])
    ensures LatePrune(prune, Expired(before, 1), Expired(later, 1), StagedBy(before, [], 1))
    ensures SomeIngest(TwoRuns(b, c))
  {
    StringOrder(b.taskGUID, c.taskGUID, b.taskGUID);
    InstanceIsLatePrune(before, later, prune, a, b, c);
    TwoRunsAreAnIngest(later, b, c);
    states := InstanceMeets(prune, a, b, c);
    assert At(prune, TwoRuns(b, c), 0, 0).programs == [prune, TwoRuns(b, c)];
  }
}
