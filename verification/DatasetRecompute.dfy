/**
 The aggregate as the rebuild computes it from the stored references: GROUP BY, COUNT(DISTINCT),
 MAX. Maintaining the aggregate incrementally must come to the same tables.
 */
module DatasetRecompute {
  import opened DatasetReferences
  import opened DatasetTables

  function DistinctTasks(refs: seq<Ref>, dataset: DatasetKey, direction: string): set<string> {
    set ref | ref in refs && ref.dataset == dataset && ref.direction == direction :: ref.taskGUID
  }

  /** One row of the rebuild's grouped select. */
  function GroupedRow(refs: seq<Ref>, dataset: DatasetKey): Aggregate {
    Aggregate(
      Total(refs, dataset, References),
      |DistinctTasks(refs, dataset, DIRECTION_INPUT)|,
      |DistinctTasks(refs, dataset, DIRECTION_OUTPUT)|,
      Total(refs, dataset, ColumnLineageReferences),
      NewestEventTime(refs, dataset))
  }

  function DatasetsOf(refs: seq<Ref>): set<DatasetKey> {
    set ref | ref in refs :: ref.dataset
  }

  function GroupedRows(refs: seq<Ref>): map<DatasetKey, Aggregate> {
    map dataset | dataset in DatasetsOf(refs) :: GroupedRow(refs, dataset)
  }

  function GroupedMembers(refs: seq<Ref>): Members {
    map r | r in (set ref, key | ref in refs && key in GroupedMembersOf(ref) :: MemberRef(ref.dataset, key))
      :: Total(refs, r.dataset, GroupedMember(r.member))
  }

  predicate KnownDirection(ref: Ref) {
    ref.direction == DIRECTION_INPUT || ref.direction == DIRECTION_OUTPUT
  }

  ghost predicate DirectionsKnown(refs: seq<Ref>) {
    forall ref | ref in refs :: KnownDirection(ref)
  }

  ghost predicate DirectionsKnownFor(refs: seq<Ref>, dataset: DatasetKey) {
    forall ref | ref in refs && ref.dataset == dataset :: KnownDirection(ref)
  }

  lemma ReferencedHasTotal(refs: seq<Ref>, dataset: DatasetKey)
    ensures dataset in DatasetsOf(refs) <==> Total(refs, dataset, References) > 0
  {
    TotalPositive(refs, dataset, References);
    assert forall ref | ref in refs && ref.dataset == dataset :: Contributes(ref, dataset, References);
  }

  lemma GroupedMemberHasTotal(refs: seq<Ref>, r: MemberRef)
    ensures r in GroupedMembers(refs) <==> Total(refs, r.dataset, GroupedMember(r.member)) > 0
  {
    TotalPositive(refs, r.dataset, GroupedMember(r.member));
    assert forall ref | ref in refs && ref.dataset == r.dataset ::
        Contributes(ref, r.dataset, GroupedMember(r.member)) <==> r.member in GroupedMembersOf(ref);
  }

  /** The fold counts a reference towards everything the rebuild does, and perhaps one task more. */
  lemma {:induction false} GroupedAtMostFolded(refs: seq<Ref>, dataset: DatasetKey, key: MemberKey)
    ensures Total(refs, dataset, GroupedMember(key)) <= Total(refs, dataset, Member(key))
    ensures DirectionsKnownFor(refs, dataset) ==> Total(refs, dataset, GroupedMember(key)) == Total(refs, dataset, Member(key))
    ensures (exists ref :: ref in refs && ref.dataset == dataset && !KnownDirection(ref) && key == MemberKey(InputTask, ref.taskGUID))
              ==> Total(refs, dataset, GroupedMember(key)) < Total(refs, dataset, Member(key))
  {
    if refs != [] {
      var rest, last := refs[..|refs| - 1], refs[|refs| - 1];
      GroupedAtMostFolded(rest, dataset, key);
      assert refs == rest + [last];
      assert forall ref | ref in rest :: ref in refs;
      assert last in refs;
      assert KnownDirection(last) ==> GroupedMembersOf(last) == MembersOf(last);
      assert GroupedMembersOf(last) <= MembersOf(last);
    }
  }

  /** A job has one task row per direction it uses, so the rows are as many as the distinct tasks. */
  lemma {:induction false} SameSize(tasks: set<string>, rows: set<MemberRef>, dataset: DatasetKey, kind: MemberKind)
    requires forall r | r in rows :: r == MemberRef(dataset, MemberKey(kind, r.member.value)) && r.member.value in tasks
    requires forall t | t in tasks :: MemberRef(dataset, MemberKey(kind, t)) in rows
    ensures |tasks| == |rows|
    decreases |tasks|
  {
    if tasks == {} {
      assert rows == {};
    } else {
      var t :| t in tasks;
      SameSize(tasks - {t}, rows - {MemberRef(dataset, MemberKey(kind, t))}, dataset, kind);
    }
  }

  lemma TaskRowsAreDistinctTasks(refs: seq<Ref>, members: Members, dataset: DatasetKey)
    requires MembersConsistent(refs, members) && DirectionsKnownFor(refs, dataset)
    ensures |MemberRows(members, dataset, InputTask)| == |DistinctTasks(refs, dataset, DIRECTION_INPUT)|
    ensures |MemberRows(members, dataset, OutputTask)| == |DistinctTasks(refs, dataset, DIRECTION_OUTPUT)|
  {
    forall kind, direction | (kind, direction) == (InputTask, DIRECTION_INPUT) || (kind, direction) == (OutputTask, DIRECTION_OUTPUT)
      ensures |MemberRows(members, dataset, kind)| == |DistinctTasks(refs, dataset, direction)|
    {
      var rows, tasks := MemberRows(members, dataset, kind), DistinctTasks(refs, dataset, direction);
      forall r | r in rows ensures r.member.value in tasks {
        TotalPositive(refs, dataset, Member(r.member));
        assert RefCount(members, r) > 0;
        var ref :| ref in refs && Contributes(ref, dataset, Member(r.member));
        assert KnownDirection(ref);
      }
      forall t | t in tasks ensures MemberRef(dataset, MemberKey(kind, t)) in rows {
        var ref :| ref in refs && ref.dataset == dataset && ref.direction == direction && ref.taskGUID == t;
        var r := MemberRef(dataset, MemberKey(kind, t));
        assert Contributes(ref, dataset, Member(r.member));
        TotalPositive(refs, dataset, Member(r.member));
        assert RefCount(members, r) > 0;
      }
      SameSize(tasks, rows, dataset, kind);
    }
  }

  lemma RowsAreRecomputed(refs: seq<Ref>, datasets: map<DatasetKey, Aggregate>, members: Members)
    requires Consistent(refs, datasets, members) && DirectionsKnown(refs)
    ensures datasets == GroupedRows(refs)
  {
    forall d ensures d in datasets <==> d in GroupedRows(refs) {
      ReferencedHasTotal(refs, d);
    }
    forall d | d in datasets ensures datasets[d] == GroupedRow(refs, d) {
      assert RowConsistent(refs, members, d, datasets[d]);
      TaskRowsAreDistinctTasks(refs, members, d);
      NewestEventTimeIsNewest(refs, d);
    }
  }

  lemma MembersAreRecomputed(refs: seq<Ref>, members: Members)
    requires MembersConsistent(refs, members) && DirectionsKnown(refs)
    ensures members == GroupedMembers(refs)
  {
    forall r: MemberRef ensures RefCount(members, r) == RefCount(GroupedMembers(refs), r) && (r in members <==> r in GroupedMembers(refs)) {
      GroupedAtMostFolded(refs, r.dataset, r.member);
      GroupedMemberHasTotal(refs, r);
    }
    forall r | r in members ensures members[r] == GroupedMembers(refs)[r] {
      assert RefCount(members, r) == RefCount(GroupedMembers(refs), r);
    }
  }

  /** Main result: the maintained tables are the tables the rebuild would compute. */
  lemma MaintainedEqualsRecomputed(refs: seq<Ref>, datasets: map<DatasetKey, Aggregate>, members: Members)
    requires Consistent(refs, datasets, members) && DirectionsKnown(refs)
    ensures datasets == GroupedRows(refs)
    ensures members == GroupedMembers(refs)
  {
    RowsAreRecomputed(refs, datasets, members);
    MembersAreRecomputed(refs, members);
  }

  /**
   The fold files every direction other than output under the input tasks; the rebuild ignores a
   direction it does not know. The two member tables agree exactly when there is none.
   */
  lemma MembersAgreeExactly(refs: seq<Ref>, members: Members)
    requires MembersConsistent(refs, members)
    ensures members == GroupedMembers(refs) <==> DirectionsKnown(refs)
  {
    if DirectionsKnown(refs) {
      MembersAreRecomputed(refs, members);
    } else {
      var ref :| ref in refs && !KnownDirection(ref);
      var r := MemberRef(ref.dataset, MemberKey(InputTask, ref.taskGUID));
      GroupedAtMostFolded(refs, r.dataset, r.member);
      GroupedMemberHasTotal(refs, r);
      assert RefCount(members, r) != RefCount(GroupedMembers(refs), r);
    }
  }
}
