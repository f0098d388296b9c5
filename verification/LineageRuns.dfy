/**
 Analyses, schema syncs and statement deletions interleaved at the granularity of their row locks. An
 analysis holds its object's registry row shared from the check to the commit; a writer holds the rows it
 writes exclusively, and cleans the lineage of what it deletes after it has locked it.
 */
module LineageRuns {
  import opened Ordering
  import opened ProtoMessage
  import opened LineageStore

  /** What the analyzers scan: views of both kinds and registered statements. */
  const ANALYZED_TYPES := LINEAGE_PRODUCER_TYPES + STATEMENT_TYPES

  function Analyzed(keys: set<Key>): set<Key> {
    set key | key in keys && key.objectType in ANALYZED_TYPES
  }

  /** What the analyzer makes of a definition: the same definition always gives the same edges. */
  type Analyzer = (Key, Bytes) -> set<Edge>

  ghost predicate ProducesOwnEdges(analyze: Analyzer) {
    forall key, metaHash, e | e in analyze(key, metaHash) :: e.producer == key
  }

  datatype Transaction =
    | Checked(key: Key, metaHash: Bytes)
    | Syncing(locked: set<Key>)
    | Swept(locked: set<Key>, updates: map<Key, Bytes>, deletes: set<Key>, marked: set<Edge>, cleared: set<Key>)

  datatype World = World(tables: Lineage, open: map<nat, Transaction>)

  datatype Step =
    | Check(t: nat, key: Key, metaHash: Bytes)
    | CommitAnalysis(t: nat, failure: Option<string>)
    | CommitSkip(t: nat, errorMessage: Option<string>)
    | RecordError(key: Key, message: string)
    | BeginSync(t: nat)
    | LockRow(t: nat, key: Key)
    | Sweep(t: nat, updates: map<Key, Bytes>, deletes: set<Key>)
    | DropStatements(t: nat, deletes: set<Key>)
    | CommitSync(t: nat)
    | Abort(t: nat)

  function Shared(tx: Transaction): set<Key> {
    if tx.Checked? then {tx.key} else {}
  }

  function Exclusive(tx: Transaction): set<Key> {
    if tx.Checked? then {} else tx.locked
  }

  ghost predicate NoneExclusive(w: World, key: Key) {
    forall u | u in w.open :: key !in Exclusive(w.open[u])
  }

  ghost predicate NoneElse(w: World, t: nat, key: Key) {
    forall u | u in w.open && u != t :: key !in Exclusive(w.open[u]) && key !in Shared(w.open[u])
  }

  function Skipped(l: Lineage, key: Key, metaHash: Bytes, errorMessage: Option<string>): Lineage {
    WithVersion(l, key, Version(metaHash, errorMessage))
  }

  /** What a caller that computes nothing can see: no edges are kept, or they are of this very definition. */
  predicate NothingStale(l: Lineage, key: Key, metaHash: Bytes) {
    EdgesOf(l.edges, key) == {} || (key in l.versions && l.versions[key].metaHash == metaHash)
  }

  ghost predicate Enabled(w: World, step: Step) {
    match step
    case Check(t, key, metaHash) =>
      t !in w.open && key.objectType in ANALYZED_TYPES && NoneExclusive(w, key) && StateOf(w.tables, key, metaHash) == Committed
    case CommitAnalysis(t, _) => t in w.open && w.open[t].Checked?
    case CommitSkip(t, _) => t in w.open && w.open[t].Checked? && NothingStale(w.tables, w.open[t].key, w.open[t].metaHash)
    case RecordError(_, _) => true
    case BeginSync(t) => t !in w.open
    case LockRow(t, key) => t in w.open && w.open[t].Syncing? && NoneElse(w, t, key)
    case Sweep(t, updates, deletes) =>
      && t in w.open && w.open[t].Syncing? && updates.Keys + deletes <= w.open[t].locked && updates.Keys !! deletes
      && forall key | key in deletes :: key.objectType !in STATEMENT_TYPES
    case DropStatements(t, deletes) =>
      t in w.open && w.open[t].Syncing? && deletes <= w.open[t].locked && forall key | key in deletes :: key.objectType in STATEMENT_TYPES
    case CommitSync(t) => t in w.open && w.open[t].Swept?
    case Abort(t) => t in w.open
  }

  function ProducedBy(edges: set<Edge>, keys: set<Key>): set<Edge> {
    set e | e in edges && e.producer in keys
  }

  function Synced(l: Lineage, tx: Transaction): Lineage
    requires tx.Swept?
  {
    Lineage((l.registry + tx.updates) - tx.deletes, l.edges - tx.marked, l.versions - tx.cleared)
  }

  function Errored(l: Lineage, key: Key, message: string): Lineage {
    if key in l.versions then WithVersion(l, key, l.versions[key].(errorMessage := Some(message))) else l
  }

  ghost function After(analyze: Analyzer, w: World, step: Step): World
    requires Enabled(w, step)
  {
    match step
    case Check(t, key, metaHash) => w.(open := w.open[t := Checked(key, metaHash)])
    case CommitAnalysis(t, failure) =>
      var tx := w.open[t];
      World(Replaced(w.tables, tx.key, tx.metaHash, if failure.Some? then {} else analyze(tx.key, tx.metaHash), failure), w.open - {t})
    case CommitSkip(t, errorMessage) => World(Skipped(w.tables, w.open[t].key, w.open[t].metaHash, errorMessage), w.open - {t})
    case RecordError(key, message) => w.(tables := Errored(w.tables, key, message))
    case BeginSync(t) => w.(open := w.open[t := Syncing({})])
    case LockRow(t, key) => w.(open := w.open[t := Syncing(w.open[t].locked + {key})])
    case Sweep(t, updates, deletes) =>
      w.(open := w.open[t := Swept(w.open[t].locked, updates, deletes, DeletedEdges(w.tables.edges, deletes),
                                   w.tables.versions.Keys * Producers(deletes))])
    case DropStatements(t, deletes) =>
      w.(open := w.open[t := Swept(w.open[t].locked, map[], deletes, ProducedBy(w.tables.edges, deletes), w.tables.versions.Keys * deletes)])
    case CommitSync(t) => World(Synced(w.tables, w.open[t]), w.open - {t})
    case Abort(t) => w.(open := w.open - {t})
  }

  // ----- Invariant -----

  /** Every edge comes from the definition its producer's record names, and every record's object exists. */
  ghost predicate Traceable(analyze: Analyzer, l: Lineage) {
    && (forall e | e in l.edges :: e.producer in l.versions && e in analyze(e.producer, l.versions[e.producer].metaHash))
    && (forall key | key in l.versions :: key in l.registry && key.objectType in ANALYZED_TYPES)
  }

  ghost predicate Exclusion(w: World) {
    forall t, u | t in w.open && u in w.open && t != u ::
      Exclusive(w.open[t]) !! Exclusive(w.open[u]) && Exclusive(w.open[t]) !! Shared(w.open[u])
  }

  /** What an open transaction has established stays true while its locks are held. */
  ghost predicate Stands(l: Lineage, tx: Transaction) {
    match tx
    case Checked(key, metaHash) => key.objectType in ANALYZED_TYPES && StateOf(l, key, metaHash) == Committed
    case Syncing(_) => true
    case Swept(locked, updates, deletes, marked, cleared) =>
      && updates.Keys + deletes <= locked && updates.Keys !! deletes
      && (forall e | e in l.edges && e.producer in Analyzed(deletes) :: e in marked)
      && (forall key | key in l.versions && key in Analyzed(deletes) :: key in cleared)
      && cleared <= Analyzed(deletes)
  }

  ghost predicate Invariant(analyze: Analyzer, w: World) {
    && Traceable(analyze, w.tables)
    && Exclusion(w)
    && forall t | t in w.open :: Stands(w.tables, w.open[t])
  }

  lemma CommitKeepsTraceable(analyze: Analyzer, l: Lineage, key: Key, metaHash: Bytes, lineages: set<Edge>, errorMessage: Option<string>)
    requires ProducesOwnEdges(analyze) && Traceable(analyze, l)
    requires key in l.registry && key.objectType in ANALYZED_TYPES && lineages <= analyze(key, metaHash)
    ensures Traceable(analyze, Replaced(l, key, metaHash, lineages, errorMessage))
  {
  }

  /** Traceability rests on the recorded hashes alone, so a recorded error neither breaks nor repairs it. */
  lemma ErrorKeepsTraceable(analyze: Analyzer, before: Lineage, after: Lineage)
    requires after.registry == before.registry && after.edges == before.edges && SameHashes(before, after)
    ensures Traceable(analyze, after) <==> Traceable(analyze, before)
  {
  }

  lemma SafeSkipKeepsTraceable(analyze: Analyzer, l: Lineage, key: Key, metaHash: Bytes, errorMessage: Option<string>)
    requires Traceable(analyze, l) && NothingStale(l, key, metaHash)
    requires key.objectType in ANALYZED_TYPES && StateOf(l, key, metaHash) == Committed
    ensures Traceable(analyze, Skipped(l, key, metaHash, errorMessage))
  {
    assert forall e | e in l.edges && e.producer == key :: e in EdgesOf(l.edges, key);
  }

  lemma SyncKeepsTraceable(analyze: Analyzer, l: Lineage, tx: Transaction)
    requires Traceable(analyze, l) && tx.Swept? && Stands(l, tx)
    ensures Traceable(analyze, Synced(l, tx))
  {
    var after := Synced(l, tx);
    forall e | e in after.edges ensures e.producer in after.versions {
      assert e.producer.objectType in ANALYZED_TYPES;
    }
  }

  /** A commit leaves what the other transactions have established. */
  lemma OthersStand(analyze: Analyzer, w: World, step: Step, u: nat)
    requires ProducesOwnEdges(analyze) && Invariant(analyze, w) && Enabled(w, step)
    requires u in After(analyze, w, step).open && u in w.open && w.open[u] == After(analyze, w, step).open[u]
    ensures Stands(After(analyze, w, step).tables, w.open[u])
  {
    assert Stands(w.tables, w.open[u]);
    if step.CommitAnalysis? || step.CommitSkip? || step.CommitSync? {
      assert step.t != u;
      assert Exclusive(w.open[step.t]) !! Shared(w.open[u]) && Exclusive(w.open[u]) !! Shared(w.open[step.t]);
      assert Exclusive(w.open[step.t]) !! Exclusive(w.open[u]);
    }
  }

  /** Transactions that lock nothing more stay apart. */
  lemma NothingMoreHeld(w: World, after: World)
    requires Exclusion(w)
    requires forall t | t in after.open ::
               t in w.open && Exclusive(after.open[t]) == Exclusive(w.open[t]) && Shared(after.open[t]) == Shared(w.open[t])
    ensures Exclusion(after)
  {
  }

  lemma LockingKeepsExclusion(analyze: Analyzer, w: World, step: Step)
    requires Exclusion(w) && Enabled(w, step) && (step.Check? || step.BeginSync? || step.LockRow?)
    ensures Exclusion(After(analyze, w, step))
  {
  }

  lemma StepKeepsExclusion(analyze: Analyzer, w: World, step: Step)
    requires Exclusion(w) && Enabled(w, step)
    ensures Exclusion(After(analyze, w, step))
  {
    if step.Check? || step.BeginSync? || step.LockRow? {
      LockingKeepsExclusion(analyze, w, step);
    } else {
      NothingMoreHeld(w, After(analyze, w, step));
    }
  }

  lemma StepKeepsInvariant(analyze: Analyzer, w: World, step: Step)
    requires ProducesOwnEdges(analyze) && Invariant(analyze, w) && Enabled(w, step)
    ensures Invariant(analyze, After(analyze, w, step))
  {
    var after := After(analyze, w, step);
    StepKeepsExclusion(analyze, w, step);
    if step.CommitAnalysis? {
      var tx := w.open[step.t];
      assert Stands(w.tables, tx);
      CommitKeepsTraceable(analyze, w.tables, tx.key, tx.metaHash, if step.failure.Some? then {} else analyze(tx.key, tx.metaHash), step.failure);
    } else if step.CommitSkip? {
      assert Stands(w.tables, w.open[step.t]);
      SafeSkipKeepsTraceable(analyze, w.tables, w.open[step.t].key, w.open[step.t].metaHash, step.errorMessage);
    } else if step.CommitSync? {
      SyncKeepsTraceable(analyze, w.tables, w.open[step.t]);
    }
    forall u | u in after.open ensures Stands(after.tables, after.open[u]) {
      if u in w.open && w.open[u] == after.open[u] { OthersStand(analyze, w, step, u); }
    }
  }

  /** Main result: what an analysis commits was computed from the definition that is current as it commits. */
  lemma CommitIsCurrent(analyze: Analyzer, w: World, step: Step)
    requires ProducesOwnEdges(analyze) && Invariant(analyze, w) && Enabled(w, step) && step.CommitAnalysis?
    ensures var tx, after := w.open[step.t], After(analyze, w, step).tables;
            && tx.key in after.registry && after.registry[tx.key] == tx.metaHash == after.versions[tx.key].metaHash
            && EdgesOf(after.edges, tx.key) == (if step.failure.Some? then {} else analyze(tx.key, tx.metaHash))
            && after.versions[tx.key].errorMessage == step.failure && after.registry == w.tables.registry
            && (forall key | key != tx.key :: (key in after.versions <==> key in w.tables.versions) &&
                                              (key in after.versions ==> after.versions[key] == w.tables.versions[key]))
            && forall key | key != tx.key :: EdgesOf(after.edges, key) == EdgesOf(w.tables.edges, key)
  {
    assert Stands(w.tables, w.open[step.t]);
  }

  // ----- Runs -----

  /** The states a run goes through. */
  ghost predicate Reaches(analyze: Analyzer, worlds: seq<World>, steps: seq<Step>) {
    && |worlds| == |steps| + 1
    && worlds[0] == World(Lineage(map[], {}, map[]), map[])
    && forall i | 0 <= i < |steps| :: Enabled(worlds[i], steps[i]) && worlds[i + 1] == After(analyze, worlds[i], steps[i])
  }

  /** Main result: at every moment of every interleaving the stored edges are traceable. */
  lemma {:induction false} AlwaysTraceable(analyze: Analyzer, worlds: seq<World>, steps: seq<Step>, n: nat)
    requires ProducesOwnEdges(analyze) && Reaches(analyze, worlds, steps) && n <= |steps|
    ensures Invariant(analyze, worlds[n])
    decreases n
  {
    if n > 0 {
      AlwaysTraceable(analyze, worlds, steps, n - 1);
      StepKeepsInvariant(analyze, worlds[n - 1], steps[n - 1]);
    }
  }

  /** A view analyzed at its current definition shows only what that definition says. */
  lemma CurrentEdges(analyze: Analyzer, w: World, key: Key)
    requires Invariant(analyze, w) && key in w.tables.versions && w.tables.versions[key].metaHash == w.tables.registry[key]
    ensures EdgesOf(w.tables.edges, key) <= analyze(key, w.tables.registry[key])
  {
  }

  // ----- The deliberate skip -----

  /** Whatever the analyzer makes of definitions, the skip keeps the stored edges traceable. */
  ghost predicate SkipIsSafe(l: Lineage, key: Key, metaHash: Bytes, errorMessage: Option<string>) {
    forall analyze: Analyzer | ProducesOwnEdges(analyze) && Traceable(analyze, l) ::
      Traceable(analyze, Skipped(l, key, metaHash, errorMessage))
  }

  /** The analyzer that finds the stored edges in every definition but the given one. */
  ghost function FindsStored(l: Lineage, key: Key, metaHash: Bytes): Analyzer {
    (k: Key, h: Bytes) => if k == key && h == metaHash then {} else EdgesOf(l.edges, k)
  }

  lemma StaleSkipBreaks(analyze: Analyzer, l: Lineage, key: Key, metaHash: Bytes, errorMessage: Option<string>)
    requires Traceable(analyze, l) && !NothingStale(l, key, metaHash)
    ensures ProducesOwnEdges(FindsStored(l, key, metaHash)) && Traceable(FindsStored(l, key, metaHash), l)
    ensures !Traceable(FindsStored(l, key, metaHash), Skipped(l, key, metaHash, errorMessage))
  {
    var finds, after := FindsStored(l, key, metaHash), Skipped(l, key, metaHash, errorMessage);
    forall e | e in l.edges ensures e in finds(e.producer, l.versions[e.producer].metaHash) {
      assert e in EdgesOf(l.edges, e.producer);
    }
    var e :| e in EdgesOf(l.edges, key);
    assert e in after.edges && e !in finds(key, metaHash);
  }

  /**
   The skip records a fingerprint over edges it did not compute. It is safe exactly when there are no
   edges, or the record already names the definition that is skipped.
   */
  lemma SkipIsSafeExactly(analyze: Analyzer, l: Lineage, key: Key, metaHash: Bytes, errorMessage: Option<string>)
    requires Traceable(analyze, l) && key.objectType in ANALYZED_TYPES && StateOf(l, key, metaHash) == Committed
    ensures SkipIsSafe(l, key, metaHash, errorMessage) <==> NothingStale(l, key, metaHash)
  {
    if NothingStale(l, key, metaHash) {
      forall other: Analyzer | ProducesOwnEdges(other) && Traceable(other, l)
        ensures Traceable(other, Skipped(l, key, metaHash, errorMessage))
      {
        SafeSkipKeepsTraceable(other, l, key, metaHash, errorMessage);
      }
    } else {
      StaleSkipBreaks(analyze, l, key, metaHash, errorMessage);
    }
  }

  /** A view analyzed at one definition, redefined and then skipped, so shows an edge of the old one as current. */
  lemma SkipKeepsOldEdges(key: Key, table: Key, first: Bytes, second: Bytes)
    requires key.objectType == VIEW && first != second
    ensures var edge := Edge(key, table, key, "");
            var analyze := (k: Key, h: Bytes) => if k == key && h == first then {edge} else {};
            var before := Lineage(map[key := second], {edge}, map[key := Version(first, None)]);
            && ProducesOwnEdges(analyze) && Traceable(analyze, before) && StateOf(before, key, second) == Committed
            && !Traceable(analyze, Skipped(before, key, second, None))
  {
    var edge := Edge(key, table, key, "");
    var before := Lineage(map[key := second], {edge}, map[key := Version(first, None)]);
    assert edge in Skipped(before, key, second, None).edges;
  }

  // ----- What can happen -----

  /** Steps that only depend on who is at work. */
  lemma AlwaysPossible(w: World, t: nat, key: Key, metaHash: Bytes, message: string, deletes: set<Key>)
    ensures Enabled(w, RecordError(key, message))
    ensures t !in w.open <==> Enabled(w, BeginSync(t))
    ensures t in w.open <==> Enabled(w, Abort(t))
    ensures t in w.open && w.open[t].Swept? <==> Enabled(w, CommitSync(t))
    ensures t in w.open && w.open[t].Checked? ==> Enabled(w, CommitAnalysis(t, None))
    ensures t in w.open && w.open[t].Syncing? && (forall u | u in w.open && u != t :: key !in Exclusive(w.open[u]) && key !in Shared(w.open[u])) ==>
              Enabled(w, LockRow(t, key))
    ensures t in w.open && w.open[t].Syncing? && deletes == w.open[t].locked && (forall k | k in deletes :: k.objectType in {18, 19}) ==>
              Enabled(w, DropStatements(t, deletes))
    ensures t in w.open && w.open[t].Syncing? && deletes == w.open[t].locked && (forall k | k in deletes :: k.objectType !in {18, 19}) ==>
              Enabled(w, Sweep(t, map[], deletes))
    ensures (t !in w.open && key in w.tables.registry && w.tables.registry[key] == metaHash && key.objectType in {5, 6, 18, 19} &&
             forall u | u in w.open :: key !in Exclusive(w.open[u])) ==> Enabled(w, Check(t, key, metaHash))
  {
  }

  /** A lock is added to those held. */
  lemma LockRowLocks(analyze: Analyzer, w: World, t: nat, key: Key)
    requires Enabled(w, LockRow(t, key))
    ensures Exclusive(After(analyze, w, LockRow(t, key)).open[t]) == Exclusive(w.open[t]) + {key}
  {
  }

  /** Deleting statements takes their rows, their records and the edges they produced, and nothing else. */
  lemma DropTakesExactly(analyze: Analyzer, w: World, t: nat, deletes: set<Key>)
    requires Enabled(w, DropStatements(t, deletes))
    ensures var swept := After(analyze, w, DropStatements(t, deletes));
            && swept.tables == w.tables && Enabled(swept, CommitSync(t))
            && var after := After(analyze, swept, CommitSync(t)).tables;
               && (forall e :: e in after.edges <==> e in w.tables.edges && e.producer !in deletes)
               && after.registry == w.tables.registry - deletes && after.versions == w.tables.versions - deletes
  {
  }

  /** A sync writes its updates and takes what it deletes, with the edges that name a deleted endpoint or producer. */
  lemma SweepTakesExactly(analyze: Analyzer, w: World, t: nat, updates: map<Key, Bytes>, deletes: set<Key>)
    requires Enabled(w, Sweep(t, updates, deletes))
    ensures var swept := After(analyze, w, Sweep(t, updates, deletes));
            && swept.tables == w.tables && Enabled(swept, CommitSync(t))
            && var after := After(analyze, swept, CommitSync(t)).tables;
               && (forall e :: e in after.edges <==>
                     && e in w.tables.edges
                     && !(e.source in deletes && e.source.objectType in {4, 5, 6, 16})
                     && !(e.target in deletes && e.target.objectType in {4, 5, 6, 16})
                     && !(e.producer in deletes && e.producer.objectType in {5, 6}))
               && after.registry == (w.tables.registry + updates) - deletes
               && (forall key :: key in after.versions <==> key in w.tables.versions && !(key in deletes && key.objectType in {5, 6}))
  {
  }
}
