/**
 Stored runs and the reference table keyed by run: what one delivery does to them.
 */
module RunReferences {
  import opened Ordering
  import opened DatasetReferences
  import opened DatasetDeltas
  import opened DatasetApplyProof

  const EVENT_COMPLETE := "COMPLETE"

  /** A run of a job. The job goes by its task's GUID, which is built from its namespace, name and type. */
  datatype RunKey = RunKey(taskGUID: string, runId: string)

  datatype RunState = RunState(eventType: string, eventTime: Option<int>)

  /** One row of the reference table. */
  datatype RefRow = RefRow(run: RunKey, ref: Ref)

  /** One event to persist. */
  datatype Delivery = Delivery(run: RunKey, state: RunState, datasets: seq<Ref>)

  function RefsOf(rows: seq<RefRow>): seq<Ref> {
    if rows == [] then [] else RefsOf(rows[..|rows| - 1]) + [rows[|rows| - 1].ref]
  }

  /** The rows a delete by run leaves, and the rows it takes. */
  function Without(rows: seq<RefRow>, runs: set<RunKey>): seq<RefRow> {
    if rows == [] then []
    else Without(rows[..|rows| - 1], runs) + (if rows[|rows| - 1].run in runs then [] else [rows[|rows| - 1]])
  }

  function Only(rows: seq<RefRow>, runs: set<RunKey>): seq<RefRow> {
    if rows == [] then []
    else Only(rows[..|rows| - 1], runs) + (if rows[|rows| - 1].run in runs then [rows[|rows| - 1]] else [])
  }

  function RowsOf(run: RunKey, refs: seq<Ref>): seq<RefRow> {
    seq(|refs|, i requires 0 <= i < |refs| => RefRow(run, refs[i]))
  }

  lemma {:induction false} RefsOfConcat(a: seq<RefRow>, b: seq<RefRow>)
    ensures RefsOf(a + b) == RefsOf(a) + RefsOf(b)
  {
    if b == [] {
      assert a + b == a;
    } else {
      RefsOfConcat(a, b[..|b| - 1]);
      assert (a + b)[..|a + b| - 1] == a + b[..|b| - 1];
    }
  }

  lemma {:induction false} RefsOfRows(run: RunKey, refs: seq<Ref>)
    ensures RefsOf(RowsOf(run, refs)) == refs
  {
    if refs != [] {
      RefsOfRows(run, refs[..|refs| - 1]);
      assert RowsOf(run, refs)[..|refs| - 1] == RowsOf(run, refs[..|refs| - 1]);
    }
  }

  lemma MoveOne<T>(rest: multiset<T>, kept: multiset<T>, taken: multiset<T>, x: T)
    requires rest == kept + taken
    ensures rest + multiset{x} == (kept + multiset{x}) + taken
    ensures rest + multiset{x} == kept + (taken + multiset{x})
  {
  }

  lemma {:induction false} SplitByRun(rows: seq<RefRow>, runs: set<RunKey>)
    ensures multiset(RefsOf(rows)) == multiset(RefsOf(Without(rows, runs))) + multiset(RefsOf(Only(rows, runs)))
  {
    if rows != [] {
      var rest, last := rows[..|rows| - 1], rows[|rows| - 1];
      var kept, taken := Without(rest, runs), Only(rest, runs);
      assert rest + [last] == rows;
      SplitByRun(rest, runs);
      MoveOne(multiset(RefsOf(rest)), multiset(RefsOf(kept)), multiset(RefsOf(taken)), last.ref);
      if last.run in runs {
        assert Without(rows, runs) == kept && Only(rows, runs) == taken + [last];
      } else {
        assert Without(rows, runs) == kept + [last] && Only(rows, runs) == taken;
      }
    }
  }

  lemma {:induction false} WithoutMember(rows: seq<RefRow>, runs: set<RunKey>, row: RefRow)
    ensures row in Without(rows, runs) <==> row in rows && row.run !in runs
    ensures row in Only(rows, runs) <==> row in rows && row.run in runs
  {
    if rows != [] {
      WithoutMember(rows[..|rows| - 1], runs, row);
      assert rows == rows[..|rows| - 1] + [rows[|rows| - 1]];
    }
  }

  lemma {:induction false} OnlyConcat(a: seq<RefRow>, b: seq<RefRow>, runs: set<RunKey>)
    ensures Only(a + b, runs) == Only(a, runs) + Only(b, runs)
  {
    if b == [] {
      assert a + b == a;
    } else {
      OnlyConcat(a, b[..|b| - 1], runs);
      assert (a + b)[..|a + b| - 1] == a + b[..|b| - 1];
    }
  }

  lemma OnlyAppend(rows: seq<RefRow>, last: RefRow, runs: set<RunKey>)
    ensures Only(rows + [last], runs) == Only(rows, runs) + (if last.run in runs then [last] else [])
  {
    assert (rows + [last])[..|rows|] == rows;
  }

  /** Deleting some runs' references leaves the other runs theirs, in order. */
  lemma {:induction false} OnlyOfWithout(rows: seq<RefRow>, gone: set<RunKey>, run: RunKey)
    ensures Only(Without(rows, gone), {run}) == if run in gone then [] else Only(rows, {run})
  {
    if rows != [] {
      var rest, last := rows[..|rows| - 1], rows[|rows| - 1];
      OnlyOfWithout(rest, gone, run);
      OnlyAppend(Without(rest, gone), last, {run});
      if last.run in gone {
        assert Without(rows, gone) == Without(rest, gone);
      } else {
        assert Without(rows, gone) == Without(rest, gone) + [last];
      }
    }
  }

  lemma {:induction false} RefOfRow(rows: seq<RefRow>, ref: Ref)
    ensures ref in RefsOf(rows) <==> exists row :: row in rows && row.ref == ref
  {
    if rows != [] {
      RefOfRow(rows[..|rows| - 1], ref);
      assert rows == rows[..|rows| - 1] + [rows[|rows| - 1]];
    }
  }

  /** The foreign key: a reference belongs to a stored run. */
  ghost predicate OwnedByRuns(runs: map<RunKey, RunState>, rows: seq<RefRow>) {
    forall row | row in rows :: row.run in runs
  }

  /** A finished run is terminal: only another COMPLETE event may rewrite it. */
  predicate Refuses(runs: map<RunKey, RunState>, d: Delivery) {
    d.run in runs && runs[d.run].eventType == EVENT_COMPLETE && d.state.eventType != EVENT_COMPLETE
  }

  /** The references a delivery takes out. */
  function PreviousRefs(runs: map<RunKey, RunState>, rows: seq<RefRow>, d: Delivery): seq<Ref> {
    if d.run in runs then RefsOf(Only(rows, {d.run})) else []
  }

  /** replaceOpenLineageRunDatasets: the run's references are replaced as a set. */
  function ReplaceRows(rows: seq<RefRow>, d: Delivery): seq<RefRow> {
    Without(rows, {d.run}) + RowsOf(d.run, d.datasets)
  }

  lemma {:induction false} OnlyOfAbsent(rows: seq<RefRow>, run: RunKey)
    requires forall row | row in rows :: row.run != run
    ensures Only(rows, {run}) == []
  {
    if rows != [] {
      OnlyOfAbsent(rows[..|rows| - 1], run);
      assert rows[|rows| - 1] in rows;
    }
  }

  /** Replacing a run's references moves the table by exactly its old and new references. */
  lemma ReplaceRowsNet(runs: map<RunKey, RunState>, rows: seq<RefRow>, d: Delivery)
    requires OwnedByRuns(runs, rows)
    ensures multiset(RefsOf(ReplaceRows(rows, d))) + multiset(PreviousRefs(runs, rows, d)) ==
            multiset(RefsOf(rows)) + multiset(d.datasets)
    ensures OwnedByRuns(runs[d.run := d.state], ReplaceRows(rows, d))
  {
    SplitByRun(rows, {d.run});
    if d.run !in runs { OnlyOfAbsent(rows, d.run); }
    RefsOfConcat(Without(rows, {d.run}), RowsOf(d.run, d.datasets));
    RefsOfRows(d.run, d.datasets);
    assert PreviousRefs(runs, rows, d) == RefsOf(Only(rows, {d.run}));
    forall row | row in ReplaceRows(rows, d) ensures row.run in runs[d.run := d.state] {
      WithoutMember(rows, {d.run}, row);
    }
  }

  lemma SumOfReplacements<T>(stored: multiset<T>, now: multiset<T>, before: multiset<T>, after: multiset<T>,
                             next: multiset<T>, old1: multiset<T>, new1: multiset<T>)
    requires now + before == stored + after
    requires next + old1 == now + new1
    ensures next + (before + old1) == stored + (after + new1)
  {
    assert next + (before + old1) == (next + old1) + before;
    assert (now + new1) + before == (now + before) + new1;
    assert (stored + after) + new1 == stored + (after + new1);
  }

  lemma ReplaceStep(stored: seq<Ref>, runs: map<RunKey, RunState>, rows: seq<RefRow>, d: Delivery,
                    replacements: seq<Replacement>)
    requires OwnedByRuns(runs, rows)
    requires Replaced(stored, RefsOf(rows), Before(replacements), After(replacements))
    ensures var longer := replacements + [Replacement(PreviousRefs(runs, rows, d), d.datasets)];
            Replaced(stored, RefsOf(ReplaceRows(rows, d)), Before(longer), After(longer))
    ensures OwnedByRuns(runs[d.run := d.state], ReplaceRows(rows, d))
  {
    var longer := replacements + [Replacement(PreviousRefs(runs, rows, d), d.datasets)];
    assert longer[..|longer| - 1] == replacements;
    ReplaceRowsNet(runs, rows, d);
    SumOfReplacements(multiset(stored), multiset(RefsOf(rows)), multiset(Before(replacements)), multiset(After(replacements)),
      multiset(RefsOf(ReplaceRows(rows, d))), multiset(PreviousRefs(runs, rows, d)), multiset(d.datasets));
  }

  // ----- A batch -----

  function FoldRuns(runs: map<RunKey, RunState>, batch: seq<Delivery>): map<RunKey, RunState> {
    if batch == [] then runs
    else
      var before, last := FoldRuns(runs, batch[..|batch| - 1]), batch[|batch| - 1];
      if Refuses(before, last) then before else before[last.run := last.state]
  }

  function FoldRows(runs: map<RunKey, RunState>, rows: seq<RefRow>, batch: seq<Delivery>): seq<RefRow> {
    if batch == [] then rows
    else
      var before, last := FoldRows(runs, rows, batch[..|batch| - 1]), batch[|batch| - 1];
      if Refuses(FoldRuns(runs, batch[..|batch| - 1]), last) then before else ReplaceRows(before, last)
  }

  /** taskLockOrder: by task GUID, keeping the order of one task's deliveries. */
  datatype Indexed = Indexed(index: nat, delivery: Delivery)

  predicate LocksBefore(a: Indexed, b: Indexed) {
    var x, y := a.delivery.run.taskGUID, b.delivery.run.taskGUID;
    StringLess(x, y) || (x == y && a.index < b.index)
  }

  lemma LocksBeforeIsStrictWeakOrder()
    ensures StrictWeakOrder(LocksBefore)
  {
    forall a, b, c
      ensures LocksBefore(a, b) ==> !LocksBefore(b, a)
      ensures !LocksBefore(a, b) && !LocksBefore(b, c) ==> !LocksBefore(a, c)
    {
      var x, y, z := a.delivery.run.taskGUID, b.delivery.run.taskGUID, c.delivery.run.taskGUID;
      StringOrder(x, y, z);
      StringOrder(y, z, x);
      StringOrder(z, x, y);
    }
  }

  function IndexedOf(deliveries: seq<Delivery>): (r: seq<Indexed>)
    ensures |r| == |deliveries| && forall i | 0 <= i < |r| :: r[i] == Indexed(i, deliveries[i])
  {
    seq(|deliveries|, i requires 0 <= i < |deliveries| => Indexed(i, deliveries[i]))
  }

  /** The stable order of a batch by task GUID, which determines the list uniquely. */
  ghost predicate IsTaskLockOrder(order: seq<Indexed>, deliveries: seq<Delivery>) {
    multiset(order) == multiset(IndexedOf(deliveries)) && StrictlySortedBy(LocksBefore, order)
  }

  method TaskLockOrder(deliveries: seq<Delivery>) returns (order: seq<Indexed>)
    ensures IsTaskLockOrder(order, deliveries)
  {
    LocksBeforeIsStrictWeakOrder();
    var indexed := IndexedOf(deliveries);
    forall i, j | 0 <= i < j < |indexed| ensures Comparable(LocksBefore, indexed[i], indexed[j]) {
      assert indexed[i].index < indexed[j].index;
      StringOrder(indexed[i].delivery.run.taskGUID, indexed[j].delivery.run.taskGUID, "");
    }
    order := SortFunc(indexed, LocksBefore);
  }

  function Deliveries(order: seq<Indexed>): seq<Delivery> {
    if order == [] then [] else Deliveries(order[..|order| - 1]) + [order[|order| - 1].delivery]
  }
}
