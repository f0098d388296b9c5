/**
 Whole runs over the OpenLineage tables: any sequence of ingest, prune and sweep transactions leaves
 exactly the aggregate a rebuild from the stored references would compute.
 */
module DatasetWorkload {
  import opened Ordering
  import opened DatasetReferences
  import opened DatasetRecompute
  import opened DatasetRebuild
  import opened RunReferences
  import opened DatasetStore

  datatype Operation =
    | Ingest(deliveries: seq<Delivery>)
    | Prune(cutoff: int)
    | Sweep(candidates: set<DatasetKey>)

  /** Producers deliver input and output references only. */
  ghost predicate KnownDelivery(d: Delivery) {
    DirectionsKnown(d.datasets)
  }

  ghost predicate KnownDeliveries(batch: seq<Delivery>) {
    forall d | d in batch :: KnownDelivery(d)
  }

  ghost predicate KnownOperation(op: Operation) {
    op.Ingest? ==> KnownDeliveries(op.deliveries)
  }

  ghost predicate KnownRows(rows: seq<RefRow>) {
    forall row | row in rows :: KnownDirection(row.ref)
  }

  lemma KnownRowsHaveKnownRefs(rows: seq<RefRow>)
    requires KnownRows(rows)
    ensures DirectionsKnown(RefsOf(rows))
  {
    forall ref | ref in RefsOf(rows) ensures KnownDirection(ref) {
      RefOfRow(rows, ref);
    }
  }

  lemma KnownWithout(rows: seq<RefRow>, runs: set<RunKey>)
    requires KnownRows(rows)
    ensures KnownRows(Without(rows, runs))
  {
    forall row | row in Without(rows, runs) ensures KnownDirection(row.ref) {
      WithoutMember(rows, runs, row);
    }
  }

  lemma {:induction false} FoldKeepsKnown(runs: map<RunKey, RunState>, rows: seq<RefRow>, batch: seq<Delivery>)
    requires KnownRows(rows) && KnownDeliveries(batch)
    ensures KnownRows(FoldRows(runs, rows, batch))
  {
    if batch != [] {
      var rest, last := batch[..|batch| - 1], batch[|batch| - 1];
      assert batch == rest + [last];
      FoldKeepsKnown(runs, rows, rest);
      var before := FoldRows(runs, rows, rest);
      KnownWithout(before, {last.run});
      assert KnownDelivery(last);
      assert forall row | row in RowsOf(last.run, last.datasets) :: row.ref in last.datasets;
    }
  }

  lemma {:induction false} DeliveriesAre(order: seq<Indexed>, d: Delivery)
    ensures d in Deliveries(order) <==> exists e :: e in order && e.delivery == d
  {
    if order != [] {
      DeliveriesAre(order[..|order| - 1], d);
      assert order == order[..|order| - 1] + [order[|order| - 1]];
    }
  }

  lemma OrderKeepsKnown(order: seq<Indexed>, deliveries: seq<Delivery>)
    requires IsTaskLockOrder(order, deliveries) && KnownDeliveries(deliveries)
    ensures KnownDeliveries(Deliveries(order))
  {
    forall d | d in Deliveries(order) ensures KnownDelivery(d) {
      DeliveriesAre(order, d);
      var e :| e in order && e.delivery == d;
      assert e in multiset(order);
      assert e in IndexedOf(deliveries);
      assert d in deliveries;
    }
  }

  // ----- What the operations store -----

  function EntriesOf(deliveries: seq<Delivery>): set<Indexed> {
    set e | e in IndexedOf(deliveries)
  }

  /** The one order a batch is visited in. */
  ghost function OrderOf(deliveries: seq<Delivery>): seq<Indexed> {
    SortedListing(EntriesOf(deliveries), LocksBefore)
  }

  lemma LocksBeforeIsTotal(deliveries: seq<Delivery>)
    ensures TotalOrderOn(EntriesOf(deliveries), LocksBefore)
  {
    var entries := EntriesOf(deliveries);
    forall a, b, c | a in entries && b in entries && c in entries
      ensures LocksBefore(a, b) ==> !LocksBefore(b, a)
      ensures a == b || LocksBefore(a, b) || LocksBefore(b, a)
      ensures LocksBefore(a, b) && LocksBefore(b, c) ==> LocksBefore(a, c)
    {
      StringOrder(a.delivery.run.taskGUID, b.delivery.run.taskGUID, c.delivery.run.taskGUID);
    }
  }

  lemma OrderIsUnique(order: seq<Indexed>, deliveries: seq<Delivery>)
    requires IsTaskLockOrder(order, deliveries)
    ensures order == OrderOf(deliveries)
  {
    LocksBeforeIsTotal(deliveries);
    forall e ensures e in order <==> e in IndexedOf(deliveries) {
      assert e in multiset(order) <==> e in multiset(IndexedOf(deliveries));
    }
    SortedListingIsUnique(EntriesOf(deliveries), order, LocksBefore);
  }

  /** The runs and the reference table. */
  datatype Stored = Stored(runs: map<RunKey, RunState>, rows: seq<RefRow>)

  ghost function AfterOperation(s: Stored, op: Operation): Stored {
    match op
    case Ingest(deliveries) =>
      var batch := Deliveries(OrderOf(deliveries));
      Stored(FoldRuns(s.runs, batch), FoldRows(s.runs, s.rows, batch))
    case Prune(cutoff) => Stored(s.runs - ExpiredRuns(s.runs, cutoff), Without(s.rows, ExpiredRuns(s.runs, cutoff)))
    case Sweep(_) => s
  }

  ghost function AfterAll(s: Stored, operations: seq<Operation>): Stored {
    if operations == [] then s
    else AfterOperation(AfterAll(s, operations[..|operations| - 1]), operations[|operations| - 1])
  }

  // ----- Which runs outlive the prunes -----

  /** Without an event time, or not before the cutoff of any prune. */
  ghost predicate NeverExpires(state: RunState, operations: seq<Operation>) {
    state.eventTime.None? || forall op: Operation | op in operations && op.Prune? :: state.eventTime.value >= op.cutoff
  }

  ghost predicate OnlyYoung(run: RunKey, deliveries: seq<Delivery>, operations: seq<Operation>) {
    forall d | d in deliveries && d.run == run :: NeverExpires(d.state, operations)
  }

  lemma {:induction false} FoldStaysYoung(runs: map<RunKey, RunState>, batch: seq<Delivery>, run: RunKey, operations: seq<Operation>)
    requires run in runs && NeverExpires(runs[run], operations) && OnlyYoung(run, batch, operations)
    ensures run in FoldRuns(runs, batch) && NeverExpires(FoldRuns(runs, batch)[run], operations)
  {
    if batch != [] {
      assert batch == batch[..|batch| - 1] + [batch[|batch| - 1]];
      FoldStaysYoung(runs, batch[..|batch| - 1], run, operations);
    }
  }

  lemma OrderStaysYoung(deliveries: seq<Delivery>, run: RunKey, operations: seq<Operation>)
    requires OnlyYoung(run, deliveries, operations)
    ensures OnlyYoung(run, Deliveries(OrderOf(deliveries)), operations)
  {
    SortedListingLists(EntriesOf(deliveries), LocksBefore);
    forall d | d in Deliveries(OrderOf(deliveries)) && d.run == run ensures NeverExpires(d.state, operations) {
      DeliveriesAre(OrderOf(deliveries), d);
      var e :| e in OrderOf(deliveries) && e.delivery == d;
      assert e in IndexedOf(deliveries);
      assert d in deliveries;
    }
  }

  /** A run no prune reaches, whatever is delivered for it in between, outlives them all. */
  lemma {:induction false} OutlivesPrunes(s: Stored, operations: seq<Operation>, n: nat, run: RunKey)
    requires run in s.runs && NeverExpires(s.runs[run], operations) && n <= |operations|
    requires forall op: Operation | op in operations && op.Ingest? :: OnlyYoung(run, op.deliveries, operations)
    ensures run in AfterAll(s, operations[..n]).runs && NeverExpires(AfterAll(s, operations[..n]).runs[run], operations)
    decreases n
  {
    if n == 0 {
      assert operations[..0] == [];
    } else {
      var before, op := AfterAll(s, operations[..n - 1]), operations[n - 1];
      assert operations[..n][..n - 1] == operations[..n - 1];
      OutlivesPrunes(s, operations, n - 1, run);
      assert op in operations;
      if op.Ingest? {
        OrderStaysYoung(op.deliveries, run, operations);
        FoldStaysYoung(before.runs, Deliveries(OrderOf(op.deliveries)), run, operations);
      }
    }
  }

  /** A prune deletes exactly the runs with an event time before its cutoff. */
  lemma PruneTakesExactly(s: Stored, cutoff: int, run: RunKey)
    ensures run in AfterOperation(s, Prune(cutoff)).runs <==>
            run in s.runs && !(s.runs[run].eventTime.Some? && s.runs[run].eventTime.value < cutoff)
  {
  }

  /** Main result, over every run of the tables: what is stored is the fold of the operations, and the aggregate is recomputed from it. */
  method Perform(t: Tables, operations: seq<Operation>)
    requires t.Valid() && KnownRows(t.rows)
    requires forall i | 0 <= i < |operations| :: KnownOperation(operations[i])
    modifies t
    ensures Stored(t.runs, t.rows) == AfterAll(Stored(old(t.runs), old(t.rows)), operations)
    ensures t.Valid() && KnownRows(t.rows)
    ensures t.datasets == GroupedRows(RefsOf(t.rows)) && t.members == GroupedMembers(RefsOf(t.rows))
  {
    ghost var start := Stored(t.runs, t.rows);
    for i := 0 to |operations|
      invariant t.Valid() && KnownRows(t.rows)
      invariant Stored(t.runs, t.rows) == AfterAll(start, operations[..i])
    {
      assert operations[..i + 1][..i] == operations[..i];
      Step(t, operations[i]);
    }
    assert operations[..|operations|] == operations;
    KnownRowsHaveKnownRefs(t.rows);
    MaintainedEqualsRecomputed(RefsOf(t.rows), t.datasets, t.members);
  }

  method Step(t: Tables, operation: Operation)
    requires t.Valid() && KnownRows(t.rows) && KnownOperation(operation)
    modifies t
    ensures t.Valid() && KnownRows(t.rows)
    ensures Stored(t.runs, t.rows) == AfterOperation(Stored(old(t.runs), old(t.rows)), operation)
  {
    ghost var runs0, rows0 := t.runs, t.rows;
    match operation
    case Ingest(deliveries) =>
      var order, refused, locks := t.Ingest(deliveries);
      OrderIsUnique(order, deliveries);
      OrderKeepsKnown(order, deliveries);
      FoldKeepsKnown(runs0, rows0, Deliveries(order));
    case Prune(cutoff) =>
      var deleted, inserted, locks := t.Prune(cutoff);
      KnownWithout(rows0, ExpiredRuns(runs0, cutoff));
      KnownRowsHaveKnownRefs(t.rows);
      ghost var staged := StagedBy(runs0, rows0, cutoff);
      assert forall d | d in staged :: DirectionsKnownFor(RefsOf(t.rows), d);
    case Sweep(candidates) =>
      var deleted := t.Sweep(candidates);
  }
}
