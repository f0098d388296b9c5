/**
 The rebuild of the datasets a prune touched, and why rebuilding only those restores the aggregate
 of every dataset.
 */
module DatasetRebuild {
  import opened DatasetReferences
  import opened DatasetTables
  import opened DatasetStatements
  import opened DatasetRecompute
  import opened RunReferences

  /** The aggregate rows after the rebuild of the staged datasets. */
  function RebuiltRows(refs: seq<Ref>, rows: Datasets, staged: set<DatasetKey>): Datasets {
    (rows - staged) + StagedRows(refs, staged)
  }

  function StagedMembers(refs: seq<Ref>, staged: set<DatasetKey>): Members {
    map r | r in GroupedMembers(refs) && r.dataset in staged :: GroupedMembers(refs)[r]
  }

  function RebuiltMembers(refs: seq<Ref>, members: Members, staged: set<DatasetKey>): Members {
    WithoutDatasets(members, staged) + StagedMembers(refs, staged)
  }

  /** The rebuild's statements on the aggregate rows: prepare, delete the empty ones, upsert the groups. */
  function PreparedRows(rows: Datasets, staged: set<DatasetKey>): Datasets {
    rows + map d | d in staged && d !in rows :: EMPTY_AGGREGATE
  }

  function StagedEmpty(refs: seq<Ref>, staged: set<DatasetKey>): set<DatasetKey> {
    set d | d in staged && d !in DatasetsOf(refs)
  }

  function StagedRows(refs: seq<Ref>, staged: set<DatasetKey>): Datasets {
    map d | d in staged && d in DatasetsOf(refs) :: GroupedRow(refs, d)
  }

  lemma StatementsRebuild(refs: seq<Ref>, rows: Datasets, members: Members, staged: set<DatasetKey>)
    ensures (PreparedRows(rows, staged) - StagedEmpty(refs, staged)) + StagedRows(refs, staged) == RebuiltRows(refs, rows, staged)
    ensures WithoutDatasets(WithoutDatasets(members, StagedEmpty(refs, staged)), staged) == WithoutDatasets(members, staged)
  {
  }

  /** The preparatory insert leaves the rows that are there, and the delete takes the unreferenced ones only. */
  lemma PrepareAndEmpty(refs: seq<Ref>, rows: Datasets, staged: set<DatasetKey>)
    ensures PreparedRows(rows, staged).Keys == rows.Keys + staged && forall d | d in rows :: PreparedRows(rows, staged)[d] == rows[d]
    ensures forall d :: d in StagedEmpty(refs, staged) <==> d in staged && forall ref | ref in refs :: ref.dataset != d
  {
    assert forall d :: d in DatasetsOf(refs) <==> exists ref :: ref in refs && ref.dataset == d;
  }

  /** The references left to the staged datasets all have a direction the rebuild counts. */
  ghost predicate StagedDirectionsKnown(refs: seq<Ref>, staged: set<DatasetKey>) {
    forall d | d in staged :: DirectionsKnownFor(refs, d)
  }

  /** `now` is `stored` without references of the staged datasets only. */
  ghost predicate PrunedTo(stored: seq<Ref>, now: seq<Ref>, taken: seq<Ref>, staged: set<DatasetKey>) {
    && multiset(stored) == multiset(now) + multiset(taken)
    && forall ref | ref in taken :: ref.dataset in staged
  }

  lemma UnstagedUnchanged(stored: seq<Ref>, now: seq<Ref>, taken: seq<Ref>, staged: set<DatasetKey>, d: DatasetKey, m: Measure)
    requires PrunedTo(stored, now, taken, staged) && d !in staged
    ensures Total(now, d, m) == Total(stored, d, m)
    ensures EventTimes(now, d) == EventTimes(stored, d)
  {
    assert multiset(now + taken) == multiset(stored);
    TotalOfPermutation(now + taken, stored, d, m);
    TotalConcat(now, taken, d, m);
    TotalPositive(taken, d, m);
    forall ref: Ref | ref.dataset == d ensures ref in now <==> ref in stored {
      assert ref in stored <==> multiset(stored)[ref] > 0;
      assert ref in now <==> multiset(now)[ref] > 0;
      assert ref !in taken;
      assert multiset(taken)[ref] == 0;
    }
  }

  lemma RebuiltCount(refs: seq<Ref>, members: Members, staged: set<DatasetKey>, r: MemberRef)
    requires Positive(members)
    ensures RefCount(RebuiltMembers(refs, members, staged), r) ==
            if r.dataset in staged then Total(refs, r.dataset, GroupedMember(r.member)) else RefCount(members, r)
    ensures r in RebuiltMembers(refs, members, staged) ==> RefCount(RebuiltMembers(refs, members, staged), r) > 0
  {
    GroupedMemberHasTotal(refs, r);
  }

  lemma RebuiltMembersConsistent(stored: seq<Ref>, now: seq<Ref>, taken: seq<Ref>, staged: set<DatasetKey>, members: Members)
    requires PrunedTo(stored, now, taken, staged) && MembersConsistent(stored, members)
    requires StagedDirectionsKnown(now, staged)
    ensures MembersConsistent(now, RebuiltMembers(now, members, staged))
  {
    var rebuilt := RebuiltMembers(now, members, staged);
    forall r: MemberRef
      ensures RefCount(rebuilt, r) == Total(now, r.dataset, Member(r.member))
      ensures r in rebuilt ==> RefCount(rebuilt, r) > 0
    {
      RebuiltCount(now, members, staged, r);
      GroupedAtMostFolded(now, r.dataset, r.member);
      if r.dataset !in staged { UnstagedUnchanged(stored, now, taken, staged, r.dataset, Member(r.member)); }
    }
    forall r | r in rebuilt ensures rebuilt[r] > 0 {
      assert RefCount(rebuilt, r) > 0;
    }
  }

  lemma RebuiltRowConsistent(stored: seq<Ref>, now: seq<Ref>, taken: seq<Ref>, staged: set<DatasetKey>,
                             datasets: Datasets, members: Members, d: DatasetKey)
    requires PrunedTo(stored, now, taken, staged) && Consistent(stored, datasets, members)
    requires d in staged ==> DirectionsKnownFor(now, d)
    requires MembersConsistent(now, RebuiltMembers(now, members, staged))
    ensures var rows := RebuiltRows(now, datasets, staged);
            && (d in rows <==> Total(now, d, References) > 0)
            && (d in rows ==> RowConsistent(now, RebuiltMembers(now, members, staged), d, rows[d]))
  {
    ReferencedHasTotal(now, d);
    if d in staged {
      TaskRowsAreDistinctTasks(now, RebuiltMembers(now, members, staged), d);
      NewestEventTimeIsNewest(now, d);
    } else {
      UnstagedUnchanged(stored, now, taken, staged, d, References);
      UnstagedUnchanged(stored, now, taken, staged, d, ColumnLineageReferences);
      SameRows(now, members, staged, d, InputTask);
      SameRows(now, members, staged, d, OutputTask);
    }
  }

  lemma SameRows(refs: seq<Ref>, members: Members, staged: set<DatasetKey>, d: DatasetKey, kind: MemberKind)
    requires d !in staged
    ensures MemberRows(RebuiltMembers(refs, members, staged), d, kind) == MemberRows(members, d, kind)
  {
  }

  /**
   Main result: rebuilding the datasets the deleted references named restores the whole aggregate,
   exactly when those datasets hold no reference in a direction the rebuild does not count.
   */
  lemma RebuildRestores(stored: seq<Ref>, now: seq<Ref>, taken: seq<Ref>, staged: set<DatasetKey>,
                        datasets: Datasets, members: Members)
    requires PrunedTo(stored, now, taken, staged) && Consistent(stored, datasets, members)
    ensures Consistent(now, RebuiltRows(now, datasets, staged), RebuiltMembers(now, members, staged)) <==>
            StagedDirectionsKnown(now, staged)
  {
    if StagedDirectionsKnown(now, staged) {
      RebuiltMembersConsistent(stored, now, taken, staged, members);
      forall d
        ensures d in RebuiltRows(now, datasets, staged) <==> Total(now, d, References) > 0
        ensures d in RebuiltRows(now, datasets, staged) ==>
                  RowConsistent(now, RebuiltMembers(now, members, staged), d, RebuiltRows(now, datasets, staged)[d])
      {
        RebuiltRowConsistent(stored, now, taken, staged, datasets, members, d);
      }
    } else {
      var d :| d in staged && !DirectionsKnownFor(now, d);
      var ref :| ref in now && ref.dataset == d && !KnownDirection(ref);
      var r := MemberRef(d, MemberKey(InputTask, ref.taskGUID));
      GroupedAtMostFolded(now, d, r.member);
      RebuiltCount(now, members, staged, r);
      assert RefCount(RebuiltMembers(now, members, staged), r) != Total(now, r.dataset, Member(r.member));
    }
  }

  /** A deleted reference outside the staged datasets leaves a counter that is too high. */
  lemma UnstagedIsMissed(stored: seq<Ref>, now: seq<Ref>, taken: seq<Ref>, staged: set<DatasetKey>,
                         datasets: Datasets, members: Members, ref: Ref)
    requires multiset(stored) == multiset(now) + multiset(taken) && Consistent(stored, datasets, members)
    requires ref in taken && ref.dataset !in staged
    ensures !Consistent(now, RebuiltRows(now, datasets, staged), RebuiltMembers(now, members, staged))
  {
    var d := ref.dataset;
    assert multiset(now + taken) == multiset(stored);
    TotalOfPermutation(now + taken, stored, d, References);
    TotalConcat(now, taken, d, References);
    TotalPositive(taken, d, References);
    assert Contributes(ref, d, References);
    assert Total(stored, d, References) > Total(now, d, References);
    assert d in datasets && RebuiltRows(now, datasets, staged)[d] == datasets[d];
    assert RowConsistent(stored, members, d, datasets[d]);
  }

  /**
   The staging and the delete are two statements. Whatever has been committed in between, the rebuild
   restores the aggregate exactly when every deleted reference names a staged dataset as well.
   */
  lemma RebuildRestoresExactly(stored: seq<Ref>, now: seq<Ref>, taken: seq<Ref>, staged: set<DatasetKey>,
                               datasets: Datasets, members: Members)
    requires multiset(stored) == multiset(now) + multiset(taken) && Consistent(stored, datasets, members)
    ensures Consistent(now, RebuiltRows(now, datasets, staged), RebuiltMembers(now, members, staged)) <==>
            StagedDirectionsKnown(now, staged) && DatasetsOf(taken) <= staged
  {
    if ref :| ref in taken && ref.dataset !in staged {
      assert ref.dataset in DatasetsOf(taken);
      UnstagedIsMissed(stored, now, taken, staged, datasets, members, ref);
    } else {
      RebuildRestores(stored, now, taken, staged, datasets, members);
    }
  }

  /** A dataset a stored reference names has its aggregate row, so the preparatory insert finds it there. */
  lemma StagedHaveRows(refs: seq<Ref>, datasets: Datasets, members: Members, staged: set<DatasetKey>)
    requires Consistent(refs, datasets, members) && staged <= DatasetsOf(refs)
    ensures staged <= datasets.Keys
  {
    forall d | d in staged ensures d in datasets { ReferencedHasTotal(refs, d); }
  }

  /** The sweep finds nothing to delete in a consistent aggregate. */
  lemma NothingToSweep(refs: seq<Ref>, datasets: Datasets, members: Members, d: DatasetKey)
    requires Consistent(refs, datasets, members) && d in datasets
    ensures d in DatasetsOf(refs)
  {
    ReferencedHasTotal(refs, d);
  }

  function Sweepable(refs: seq<Ref>, datasets: Datasets, candidates: set<DatasetKey>): set<DatasetKey> {
    set d | d in datasets && d in candidates && d !in DatasetsOf(refs)
  }

  /** Runs with an event time older than the cutoff; a run without one is kept. */
  function ExpiredRuns(runs: map<RunKey, RunState>, cutoff: int): set<RunKey> {
    set run | run in runs && runs[run].eventTime.Some? && runs[run].eventTime.value < cutoff
  }

  /** The datasets the expired runs' references belong to. */
  function StagedBy(runs: map<RunKey, RunState>, rows: seq<RefRow>, cutoff: int): set<DatasetKey> {
    DatasetsOf(RefsOf(Only(rows, ExpiredRuns(runs, cutoff))))
  }

  /** What a prune leaves: runs without an event time or not older than the cutoff, with their references. */
  ghost predicate KeepsYoung(runs: map<RunKey, RunState>, rows: seq<RefRow>, cutoff: int, runsAfter: map<RunKey, RunState>, rowsAfter: seq<RefRow>) {
    && (forall run :: run in runsAfter <==> run in runs && (runs[run].eventTime.None? || runs[run].eventTime.value >= cutoff))
    && (forall run | run in runsAfter :: runsAfter[run] == runs[run] && Only(rowsAfter, {run}) == Only(rows, {run}))
    && (forall row :: row in rowsAfter <==> row in rows && row.run in runsAfter)
  }

  lemma PruneKeepsYoung(runs: map<RunKey, RunState>, rows: seq<RefRow>, cutoff: int)
    requires OwnedByRuns(runs, rows)
    ensures KeepsYoung(runs, rows, cutoff, runs - ExpiredRuns(runs, cutoff), Without(rows, ExpiredRuns(runs, cutoff)))
  {
    var expired := ExpiredRuns(runs, cutoff);
    forall run | run in runs - expired ensures Only(Without(rows, expired), {run}) == Only(rows, {run}) {
      OnlyOfWithout(rows, expired, run);
    }
    forall row ensures row in Without(rows, expired) <==> row in rows && row.run in runs - expired {
      WithoutMember(rows, expired, row);
    }
  }

  /** Deleting runs cascades to exactly the references that named the staged datasets. */
  lemma PrunedRows(runs: map<RunKey, RunState>, rows: seq<RefRow>, expired: set<RunKey>)
    requires OwnedByRuns(runs, rows)
    ensures OwnedByRuns(runs - expired, Without(rows, expired))
    ensures var staged := DatasetsOf(RefsOf(Only(rows, expired)));
            && PrunedTo(RefsOf(rows), RefsOf(Without(rows, expired)), RefsOf(Only(rows, expired)), staged)
            && staged <= DatasetsOf(RefsOf(rows))
  {
    SplitByRun(rows, expired);
    forall row | row in Without(rows, expired) ensures row.run in runs - expired {
      WithoutMember(rows, expired, row);
    }
    forall ref | ref in RefsOf(Only(rows, expired)) ensures ref in RefsOf(rows) {
      assert ref in multiset(RefsOf(Only(rows, expired)));
      assert ref in multiset(RefsOf(rows));
    }
  }

  lemma {:induction false} WithoutNone(rows: seq<RefRow>)
    ensures Without(rows, {}) == rows && Only(rows, {}) == []
  {
    if rows != [] {
      assert rows == rows[..|rows| - 1] + [rows[|rows| - 1]];
      WithoutNone(rows[..|rows| - 1]);
    }
  }

  lemma NothingExpired(runs: map<RunKey, RunState>, rows: seq<RefRow>, expired: set<RunKey>, datasets: Datasets, members: Members)
    requires expired == {}
    ensures runs - expired == runs && Without(rows, expired) == rows
    ensures var staged := DatasetsOf(RefsOf(Only(rows, expired)));
            && RebuiltRows(RefsOf(rows), datasets, staged) == datasets
            && RebuiltMembers(RefsOf(rows), members, staged) == members
  {
    WithoutNone(rows);
  }

  lemma PruneRestores(runs: map<RunKey, RunState>, rows: seq<RefRow>, expired: set<RunKey>, staged: set<DatasetKey>,
                      datasets: Datasets, members: Members)
    requires OwnedByRuns(runs, rows) && Consistent(RefsOf(rows), datasets, members)
    ensures OwnedByRuns(runs - expired, Without(rows, expired))
    ensures var now, named := RefsOf(Without(rows, expired)), DatasetsOf(RefsOf(Only(rows, expired)));
            && (Consistent(now, RebuiltRows(now, datasets, staged), RebuiltMembers(now, members, staged)) <==>
                StagedDirectionsKnown(now, staged) && named <= staged)
            && named <= datasets.Keys
  {
    PrunedRows(runs, rows, expired);
    SplitByRun(rows, expired);
    RebuildRestoresExactly(RefsOf(rows), RefsOf(Without(rows, expired)), RefsOf(Only(rows, expired)), staged, datasets, members);
    StagedHaveRows(RefsOf(rows), datasets, members, DatasetsOf(RefsOf(Only(rows, expired))));
  }
}
