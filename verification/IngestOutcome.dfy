/**
 What a batch comes to for each run, said without the loop: which deliveries are stored, which are
 refused, and what the run's row and references are afterwards.
 */
module IngestOutcome {
  import opened RunReferences
  import opened IngestBatch

  /** The run was stored as complete, or an earlier delivery of the batch completed it. */
  ghost predicate FinishedBefore(runs: map<RunKey, RunState>, order: seq<Indexed>, n: nat, run: RunKey)
    requires n <= |order|
  {
    || (run in runs && runs[run].eventType == "COMPLETE")
    || exists j :: 0 <= j < n && order[j].delivery.run == run && order[j].delivery.state.eventType == "COMPLETE"
  }

  ghost predicate Stores(runs: map<RunKey, RunState>, order: seq<Indexed>, n: nat)
    requires n < |order|
  {
    order[n].delivery.state.eventType == "COMPLETE" || !FinishedBefore(runs, order, n, order[n].delivery.run)
  }

  /** Delivery `k` is the last of the first `n` that is stored for the run. */
  ghost predicate LastStored(runs: map<RunKey, RunState>, order: seq<Indexed>, n: nat, run: RunKey, k: nat)
    requires n <= |order|
  {
    && k < n && order[k].delivery.run == run && Stores(runs, order, k)
    && forall j | k < j < n && order[j].delivery.run == run :: !Stores(runs, order, j)
  }

  ghost predicate NoneStored(runs: map<RunKey, RunState>, order: seq<Indexed>, n: nat, run: RunKey)
    requires n <= |order|
  {
    forall j | 0 <= j < n && order[j].delivery.run == run :: !Stores(runs, order, j)
  }

  /** The run's row and references are those of the delivery. */
  ghost predicate Carries(runs: map<RunKey, RunState>, rows: seq<RefRow>, d: Delivery) {
    d.run in runs && runs[d.run] == d.state && Only(rows, {d.run}) == RowsOf(d.run, d.datasets)
  }

  ghost predicate Unchanged(runs: map<RunKey, RunState>, rows: seq<RefRow>, runsAfter: map<RunKey, RunState>, rowsAfter: seq<RefRow>, run: RunKey) {
    && (run in runsAfter <==> run in runs) && (run in runs ==> runsAfter[run] == runs[run])
    && Only(rowsAfter, {run}) == Only(rows, {run})
  }

  /** A run has its last stored delivery, or what it had. */
  ghost predicate RunOutcome(runs: map<RunKey, RunState>, rows: seq<RefRow>, order: seq<Indexed>, n: nat, run: RunKey,
                             runsAfter: map<RunKey, RunState>, rowsAfter: seq<RefRow>)
    requires n <= |order|
  {
    && (forall k: nat | LastStored(runs, order, n, run, k) :: Carries(runsAfter, rowsAfter, order[k].delivery))
    && (NoneStored(runs, order, n, run) ==> Unchanged(runs, rows, runsAfter, rowsAfter, run))
  }

  ghost predicate Refused(runs: map<RunKey, RunState>, order: seq<Indexed>, n: nat, index: nat)
    requires n <= |order|
  {
    exists k :: 0 <= k < n && order[k].index == index && !Stores(runs, order, k)
  }

  ghost predicate Outcome(runs: map<RunKey, RunState>, rows: seq<RefRow>, order: seq<Indexed>,
                          runsAfter: map<RunKey, RunState>, rowsAfter: seq<RefRow>, refused: set<nat>) {
    && (forall run :: RunOutcome(runs, rows, order, |order|, run, runsAfter, rowsAfter))
    && (forall index :: index in refused <==> Refused(runs, order, |order|, index))
  }

  // ----- The rows of one run -----

  lemma {:induction false} OnlyOfRows(owner: RunKey, rows: seq<RefRow>, run: RunKey)
    requires forall row | row in rows :: row.run == owner
    ensures Only(rows, {run}) == if run == owner then rows else []
  {
    if rows != [] {
      assert rows == rows[..|rows| - 1] + [rows[|rows| - 1]];
      OnlyOfRows(owner, rows[..|rows| - 1], run);
    }
  }

  lemma ReplacedRows(rows: seq<RefRow>, d: Delivery, run: RunKey)
    ensures Only(ReplaceRows(rows, d), {run}) == if run == d.run then RowsOf(run, d.datasets) else Only(rows, {run})
  {
    OnlyConcat(Without(rows, {d.run}), RowsOf(d.run, d.datasets), {run});
    OnlyOfWithout(rows, {d.run}, run);
    OnlyOfRows(d.run, RowsOf(d.run, d.datasets), run);
  }

  // ----- The fold comes to that -----

  lemma {:induction false} FinishedExactly(runs: map<RunKey, RunState>, order: seq<Indexed>, n: nat, run: RunKey)
    requires n <= |order|
    ensures var now := FoldRuns(runs, Deliveries(order[..n]));
            (run in now && now[run].eventType == "COMPLETE") <==> FinishedBefore(runs, order, n, run)
    decreases n
  {
    if n == 0 {
      assert order[..0] == [];
    } else {
      DeliveriesStep(order, n - 1);
      FinishedExactly(runs, order, n - 1, run);
      FinishedGrows(runs, order, n - 1, run);
    }
  }

  lemma FinishedGrows(runs: map<RunKey, RunState>, order: seq<Indexed>, n: nat, run: RunKey)
    requires n < |order|
    ensures FinishedBefore(runs, order, n + 1, run) <==>
            FinishedBefore(runs, order, n, run) || (order[n].delivery.run == run && order[n].delivery.state.eventType == "COMPLETE")
  {
  }

  lemma RefusesExactly(runs: map<RunKey, RunState>, order: seq<Indexed>, n: nat)
    requires n < |order|
    ensures Refuses(FoldRuns(runs, Deliveries(order[..n])), order[n].delivery) <==> !Stores(runs, order, n)
  {
    FinishedExactly(runs, order, n, order[n].delivery.run);
  }

  lemma OneDelivery(runs: map<RunKey, RunState>, rows: seq<RefRow>, d: Delivery, run: RunKey)
    ensures run == d.run ==> Carries(runs[d.run := d.state], ReplaceRows(rows, d), d)
    ensures run != d.run ==> Unchanged(runs, rows, runs[d.run := d.state], ReplaceRows(rows, d), run)
  {
    ReplacedRows(rows, d, run);
  }

  lemma LastIsLast(runs: map<RunKey, RunState>, order: seq<Indexed>, n: nat, run: RunKey, k: nat)
    requires n < |order| && LastStored(runs, order, n + 1, run, k)
    ensures if order[n].delivery.run == run && Stores(runs, order, n) then k == n else LastStored(runs, order, n, run, k)
  {
  }

  lemma NoneBefore(runs: map<RunKey, RunState>, order: seq<Indexed>, n: nat, run: RunKey)
    requires n < |order| && NoneStored(runs, order, n + 1, run)
    ensures NoneStored(runs, order, n, run) && !(order[n].delivery.run == run && Stores(runs, order, n))
  {
  }

  lemma OutcomeStep(runs: map<RunKey, RunState>, rows: seq<RefRow>, order: seq<Indexed>, n: nat, run: RunKey,
                    runs0: map<RunKey, RunState>, rows0: seq<RefRow>, runs1: map<RunKey, RunState>, rows1: seq<RefRow>)
    requires n < |order| && RunOutcome(runs, rows, order, n, run, runs0, rows0)
    requires if order[n].delivery.run == run && Stores(runs, order, n) then Carries(runs1, rows1, order[n].delivery)
             else Unchanged(runs0, rows0, runs1, rows1, run)
    ensures RunOutcome(runs, rows, order, n + 1, run, runs1, rows1)
  {
    forall k: nat | LastStored(runs, order, n + 1, run, k) ensures Carries(runs1, rows1, order[k].delivery) {
      LastIsLast(runs, order, n, run, k);
    }
    if NoneStored(runs, order, n + 1, run) { NoneBefore(runs, order, n, run); }
  }

  lemma OutcomeAtStart(runs: map<RunKey, RunState>, rows: seq<RefRow>, order: seq<Indexed>, run: RunKey)
    ensures RunOutcome(runs, rows, order, 0, run, FoldRuns(runs, Deliveries(order[..0])), FoldRows(runs, rows, Deliveries(order[..0])))
  {
    assert order[..0] == [];
  }

  /** The n-th delivery is stored or refused as the outcome says. */
  lemma OneMore(runs: map<RunKey, RunState>, rows: seq<RefRow>, order: seq<Indexed>, n: nat, run: RunKey)
    requires n < |order|
    ensures var runs0, rows0 := FoldRuns(runs, Deliveries(order[..n])), FoldRows(runs, rows, Deliveries(order[..n]));
            var runs1, rows1 := FoldRuns(runs, Deliveries(order[..n + 1])), FoldRows(runs, rows, Deliveries(order[..n + 1]));
            if order[n].delivery.run == run && Stores(runs, order, n) then Carries(runs1, rows1, order[n].delivery)
            else Unchanged(runs0, rows0, runs1, rows1, run)
  {
    var runs0, rows0 := FoldRuns(runs, Deliveries(order[..n])), FoldRows(runs, rows, Deliveries(order[..n]));
    RefusesExactly(runs, order, n);
    OneDelivery(runs0, rows0, order[n].delivery, run);
    FoldStep(runs, rows, order, n);
  }

  lemma {:induction false} RunOutcomeSoFar(runs: map<RunKey, RunState>, rows: seq<RefRow>, order: seq<Indexed>, n: nat, run: RunKey)
    requires n <= |order|
    ensures RunOutcome(runs, rows, order, n, run, FoldRuns(runs, Deliveries(order[..n])), FoldRows(runs, rows, Deliveries(order[..n])))
    decreases n
  {
    if n == 0 {
      OutcomeAtStart(runs, rows, order, run);
    } else {
      var runs0, rows0 := FoldRuns(runs, Deliveries(order[..n - 1])), FoldRows(runs, rows, Deliveries(order[..n - 1]));
      var runs1, rows1 := FoldRuns(runs, Deliveries(order[..n])), FoldRows(runs, rows, Deliveries(order[..n]));
      RunOutcomeSoFar(runs, rows, order, n - 1, run);
      OneMore(runs, rows, order, n - 1, run);
      OutcomeStep(runs, rows, order, n - 1, run, runs0, rows0, runs1, rows1);
    }
  }

  lemma FoldStep(runs: map<RunKey, RunState>, rows: seq<RefRow>, order: seq<Indexed>, n: nat)
    requires n < |order|
    ensures var runs0, rows0, d := FoldRuns(runs, Deliveries(order[..n])), FoldRows(runs, rows, Deliveries(order[..n])), order[n].delivery;
            && FoldRuns(runs, Deliveries(order[..n + 1])) == (if Refuses(runs0, d) then runs0 else runs0[d.run := d.state])
            && FoldRows(runs, rows, Deliveries(order[..n + 1])) == if Refuses(runs0, d) then rows0 else ReplaceRows(rows0, d)
  {
    DeliveriesStep(order, n);
  }

  lemma RefusedInGrows(runs: map<RunKey, RunState>, order: seq<Indexed>, n: nat)
    requires n < |order|
    ensures RefusedIn(runs, order[..n + 1]) == RefusedIn(runs, order[..n]) +
            (if Refuses(FoldRuns(runs, Deliveries(order[..n])), order[n].delivery) then {order[n].index} else {})
  {
    assert order[..n + 1][..n] == order[..n];
  }

  lemma RefusedGrows(runs: map<RunKey, RunState>, order: seq<Indexed>, n: nat, index: nat)
    requires n < |order|
    ensures Refused(runs, order, n + 1, index) <==> Refused(runs, order, n, index) || (order[n].index == index && !Stores(runs, order, n))
  {
  }

  lemma {:induction false} RefusedSoFar(runs: map<RunKey, RunState>, order: seq<Indexed>, n: nat, index: nat)
    requires n <= |order|
    ensures index in RefusedIn(runs, order[..n]) <==> Refused(runs, order, n, index)
    decreases n
  {
    if n == 0 {
      assert order[..0] == [];
    } else {
      RefusedInGrows(runs, order, n - 1);
      RefusedSoFar(runs, order, n - 1, index);
      RefusesExactly(runs, order, n - 1);
      RefusedGrows(runs, order, n - 1, index);
    }
  }

  lemma FoldOutcome(runs: map<RunKey, RunState>, rows: seq<RefRow>, order: seq<Indexed>)
    ensures Outcome(runs, rows, order, FoldRuns(runs, Deliveries(order)), FoldRows(runs, rows, Deliveries(order)), RefusedIn(runs, order))
  {
    assert order[..|order|] == order;
    forall run ensures RunOutcome(runs, rows, order, |order|, run, FoldRuns(runs, Deliveries(order)), FoldRows(runs, rows, Deliveries(order))) {
      RunOutcomeSoFar(runs, rows, order, |order|, run);
    }
    forall index ensures index in RefusedIn(runs, order) <==> Refused(runs, order, |order|, index) {
      RefusedSoFar(runs, order, |order|, index);
    }
  }

  // ----- What that means -----

  /** A finished run stays as it is unless the batch completes it again. */
  lemma FinishedRunIsKept(runs: map<RunKey, RunState>, rows: seq<RefRow>, order: seq<Indexed>,
                          runsAfter: map<RunKey, RunState>, rowsAfter: seq<RefRow>, refused: set<nat>, run: RunKey)
    requires Outcome(runs, rows, order, runsAfter, rowsAfter, refused) && run in runs && runs[run].eventType == "COMPLETE"
    requires forall e | e in order && e.delivery.run == run :: e.delivery.state.eventType != "COMPLETE"
    ensures run in runsAfter && runsAfter[run] == runs[run] && Only(rowsAfter, {run}) == Only(rows, {run})
    ensures forall e | e in order && e.delivery.run == run :: e.index in refused
  {
    assert NoneStored(runs, order, |order|, run);
    assert RunOutcome(runs, rows, order, |order|, run, runsAfter, rowsAfter);
    forall e | e in order && e.delivery.run == run ensures e.index in refused {
      var k :| 0 <= k < |order| && order[k] == e;
      assert !Stores(runs, order, k);
      assert Refused(runs, order, |order|, e.index);
    }
  }

  /** A run that has not finished takes a delivery, and the last one if none completes it before. */
  lemma UnfinishedRunIsTaken(runs: map<RunKey, RunState>, rows: seq<RefRow>, order: seq<Indexed>,
                             runsAfter: map<RunKey, RunState>, rowsAfter: seq<RefRow>, refused: set<nat>, k: nat)
    requires Outcome(runs, rows, order, runsAfter, rowsAfter, refused) && k < |order|
    requires order[k].delivery.run in runs ==> runs[order[k].delivery.run].eventType != "COMPLETE"
    requires forall j | 0 <= j < k && order[j].delivery.run == order[k].delivery.run :: order[j].delivery.state.eventType != "COMPLETE"
    requires forall j | k < j < |order| :: order[j].delivery.run != order[k].delivery.run
    ensures var d := order[k].delivery;
            d.run in runsAfter && runsAfter[d.run] == d.state && Only(rowsAfter, {d.run}) == RowsOf(d.run, d.datasets)
  {
    var run := order[k].delivery.run;
    assert LastStored(runs, order, |order|, run, k);
    assert RunOutcome(runs, rows, order, |order|, run, runsAfter, rowsAfter);
  }
}
