/**
 The aggregate tables, what they must hold for a set of references, and the statements that move
 them by one transaction's deltas.
 */
module DatasetTables {
  import opened Ordering
  import opened DatasetReferences
  import opened DatasetDeltas

  datatype Aggregate = Aggregate(
    refCount: int,
    sourceJobCount: int,
    targetJobCount: int,
    columnLineageRefCount: int,
    lastSeen: Option<int>)

  /** The column defaults of a row the lock statement inserts. */
  const EMPTY_AGGREGATE := Aggregate(0, 0, 0, 0, None)

  datatype MemberRef = MemberRef(dataset: DatasetKey, member: MemberKey)

  type Members = map<MemberRef, int>

  function RefCount(members: Members, r: MemberRef): int {
    if r in members then members[r] else 0
  }

  /** The member rows of one kind a dataset has: one per job for the task kinds. */
  function MemberRows(members: Members, dataset: DatasetKey, kind: MemberKind): set<MemberRef> {
    set r | r in members && r.dataset == dataset && r.member.kind == kind
  }

  /** A member row never holds a zero count. */
  ghost predicate Positive(members: Members) {
    forall r | r in members :: members[r] > 0
  }

  ghost predicate MembersConsistent(refs: seq<Ref>, members: Members) {
    && Positive(members)
    && forall r: MemberRef :: RefCount(members, r) == Total(refs, r.dataset, Member(r.member))
  }

  ghost predicate RowConsistent(refs: seq<Ref>, members: Members, dataset: DatasetKey, row: Aggregate) {
    && row.refCount == Total(refs, dataset, References)
    && row.columnLineageRefCount == Total(refs, dataset, ColumnLineageReferences)
    && row.sourceJobCount == |MemberRows(members, dataset, InputTask)|
    && row.targetJobCount == |MemberRows(members, dataset, OutputTask)|
    && IsNewest(EventTimes(refs, dataset), row.lastSeen)
  }

  /** The aggregate invariant: rows for exactly the referenced datasets, all counters exact. */
  ghost predicate Consistent(refs: seq<Ref>, datasets: map<DatasetKey, Aggregate>, members: Members) {
    && MembersConsistent(refs, members)
    && (forall dataset :: dataset in datasets <==> Total(refs, dataset, References) > 0)
    && (forall dataset | dataset in datasets :: RowConsistent(refs, members, dataset, datasets[dataset]))
  }

  /** Neither the aggregate row nor a member row of the dataset differs. */
  ghost predicate SameDataset(datasets0: map<DatasetKey, Aggregate>, members0: Members,
                              datasets1: map<DatasetKey, Aggregate>, members1: Members, dataset: DatasetKey) {
    && (dataset in datasets0 <==> dataset in datasets1)
    && (dataset in datasets0 ==> datasets0[dataset] == datasets1[dataset])
    && (forall r: MemberRef | r.dataset == dataset :: RefCount(members0, r) == RefCount(members1, r))
  }

  // ----- Member deltas as one list -----

  datatype MemberDelta = MemberDelta(ref: MemberRef, delta: int)

  /** The net change a list of member deltas makes to one member. */
  function Change(list: seq<MemberDelta>, r: MemberRef): int {
    if list == [] then 0
    else Change(list[..|list| - 1], r) + (if list[|list| - 1].ref == r then list[|list| - 1].delta else 0)
  }

  lemma {:induction false} ChangeConcat(a: seq<MemberDelta>, b: seq<MemberDelta>, r: MemberRef)
    ensures Change(a + b, r) == Change(a, r) + Change(b, r)
  {
    if b == [] {
      assert a + b == a;
    } else {
      ChangeConcat(a, b[..|b| - 1], r);
      assert a + b == a + b[..|b| - 1] + [b[|b| - 1]];
    }
  }

  /** A statement's VALUES list names each row at most once. */
  ghost predicate Distinct(list: seq<MemberDelta>) {
    forall i, j | 0 <= i < j < |list| :: list[i].ref != list[j].ref
  }

  lemma {:induction false} ChangeOfUnlisted(list: seq<MemberDelta>, r: MemberRef)
    requires forall i | 0 <= i < |list| :: list[i].ref != r
    ensures Change(list, r) == 0
  {
    if list != [] { ChangeOfUnlisted(list[..|list| - 1], r); }
  }

  lemma ChangeOfListed(list: seq<MemberDelta>, i: nat)
    requires Distinct(list) && i < |list|
    ensures Change(list, list[i].ref) == list[i].delta
    ensures Change(list[..i], list[i].ref) == 0
  {
    assert list == list[..i] + [list[i]] + list[i + 1..];
    ChangeOfUnlisted(list[..i], list[i].ref);
    ChangeOfUnlisted(list[i + 1..], list[i].ref);
    ChangeConcat(list[..i] + [list[i]], list[i + 1..], list[i].ref);
  }

  /** A prefix of a list with distinct rows has changed a row completely or not at all. */
  lemma PrefixChange(list: seq<MemberDelta>, n: nat, r: MemberRef)
    requires Distinct(list) && n <= |list|
    ensures Change(list[..n], r) == 0 || Change(list[..n], r) == Change(list, r)
  {
    assert list == list[..n] + list[n..];
    ChangeConcat(list[..n], list[n..], r);
    if i :| 0 <= i < n && list[i].ref == r {
      ChangeOfUnlisted(list[n..], r);
    } else {
      ChangeOfUnlisted(list[..n], r);
    }
  }

  lemma ChangeOfAppended(list: seq<MemberDelta>, last: MemberDelta, r: MemberRef)
    ensures Change(list + [last], r) == Change(list, r) + (if last.ref == r then last.delta else 0)
  {
  }

  /** Part of a chunk, in a state of being split. */
  ghost predicate SplitSoFar(added: seq<MemberDelta>, removed: seq<MemberDelta>, done: seq<MemberDelta>) {
    && Distinct(added) && (forall i | 0 <= i < |added| :: added[i].delta > 0 && added[i] in done)
    && Distinct(removed) && (forall i | 0 <= i < |removed| :: removed[i].delta < 0 && removed[i] in done)
    && (forall r :: Change(added, r) + Change(removed, r) == Change(done, r))
  }

  lemma SplitStep(added: seq<MemberDelta>, removed: seq<MemberDelta>, done: seq<MemberDelta>, next: MemberDelta)
    requires SplitSoFar(added, removed, done) && forall e | e in done :: e.ref != next.ref
    ensures next.delta > 0 ==> SplitSoFar(added + [next], removed, done + [next])
    ensures next.delta < 0 ==> SplitSoFar(added, removed + [next], done + [next])
  {
    forall r
      ensures Change(done + [next], r) == Change(done, r) + (if next.ref == r then next.delta else 0)
      ensures Change(added + [next], r) == Change(added, r) + (if next.ref == r then next.delta else 0)
      ensures Change(removed + [next], r) == Change(removed, r) + (if next.ref == r then next.delta else 0)
    {
      ChangeOfAppended(done, next, r);
      ChangeOfAppended(added, next, r);
      ChangeOfAppended(removed, next, r);
    }
  }

  /** Splits a chunk into the members that gain references and those that lose them. */
  method Partition(chunk: seq<MemberDelta>) returns (added: seq<MemberDelta>, removed: seq<MemberDelta>)
    requires Distinct(chunk) && forall i | 0 <= i < |chunk| :: chunk[i].delta != 0
    ensures Distinct(added) && forall i | 0 <= i < |added| :: added[i].delta > 0
    ensures Distinct(removed) && forall i | 0 <= i < |removed| :: removed[i].delta < 0
    ensures forall r :: Change(added, r) + Change(removed, r) == Change(chunk, r)
  {
    added, removed := [], [];
    for i := 0 to |chunk|
      invariant SplitSoFar(added, removed, chunk[..i])
    {
      assert chunk[..i + 1] == chunk[..i] + [chunk[i]];
      SplitStep(added, removed, chunk[..i], chunk[i]);
      if chunk[i].delta > 0 {
        added := added + [chunk[i]];
      } else {
        removed := removed + [chunk[i]];
      }
    }
    assert chunk[..|chunk|] == chunk;
  }

  /** The change the deltas make to one member. */
  function MemberChange(deltas: seq<Delta>, r: MemberRef): int {
    if deltas == [] then 0
    else
      var last := deltas[|deltas| - 1];
      MemberChange(deltas[..|deltas| - 1], r) + (if last.dataset == r.dataset then MemberCount(last.members, r.member) else 0)
  }

  lemma {:induction false} MemberChangeUnlisted(deltas: seq<Delta>, r: MemberRef)
    requires forall i | 0 <= i < |deltas| :: deltas[i].dataset != r.dataset
    ensures MemberChange(deltas, r) == 0
  {
    if deltas != [] { MemberChangeUnlisted(deltas[..|deltas| - 1], r); }
  }

  lemma {:induction false} MemberChangeListed(deltas: seq<Delta>, i: nat, r: MemberRef)
    requires Ascending(deltas) && i < |deltas| && deltas[i].dataset == r.dataset
    ensures MemberChange(deltas, r) == MemberCount(deltas[i].members, r.member)
  {
    KeyLessIrreflexive();
    var shorter := deltas[..|deltas| - 1];
    if i == |deltas| - 1 {
      assert forall j | 0 <= j < |shorter| :: KeyLess(shorter[j].dataset, deltas[i].dataset);
      MemberChangeUnlisted(shorter, r);
    } else {
      assert KeyLess(deltas[i].dataset, deltas[|deltas| - 1].dataset);
      MemberChangeListed(shorter, i, r);
    }
  }

  /** The kind as it is stored. */
  function KindName(kind: MemberKind): string {
    match kind
    case InputTask => "task:input"
    case OutputTask => "task:output"
    case Integration => "integration"
    case Source => "source"
  }

  /** Kinds by the names they are stored under. */
  lemma KindsByName()
    ensures KindName(InputTask) == "task:input" && KindName(OutputTask) == "task:output"
    ensures KindName(Integration) == "integration" && KindName(Source) == "source"
  {
  }

  predicate MemberKeyLess(a: MemberKey, b: MemberKey) {
    var x, y := KindName(a.kind), KindName(b.kind);
    StringLess(x, y) || (x == y && StringLess(a.value, b.value))
  }

  function Rank(kind: MemberKind): nat {
    match kind
    case Integration => 0
    case Source => 1
    case InputTask => 2
    case OutputTask => 3
  }

  lemma KindsByRank(a: MemberKind, b: MemberKind)
    requires Rank(a) < Rank(b)
    ensures StringLess(KindName(a), KindName(b))
  {
    var x, y := KindName(a), KindName(b);
    StringLessExactly(x, y);
    if a == InputTask {
      assert x[0] == y[0] && x[1] == y[1] && x[2] == y[2] && x[3] == y[3] && x[4] == y[4];
      assert TextDiffersUpAt(x, y, 5);
    } else {
      assert TextDiffersUpAt(x, y, 0);
    }
  }

  /** Members by kind: integrations, sources, reading jobs, writing jobs; those of one kind by value. */
  lemma MembersByText(a: MemberKey, b: MemberKey)
    ensures MemberKeyLess(a, b) <==> if a.kind != b.kind then Rank(a.kind) < Rank(b.kind) else TextPrecedes(a.value, b.value)
  {
    StringLessExactly(a.value, b.value);
    KindNamesDiffer(a.kind, b.kind);
    StringOrder(KindName(a.kind), KindName(b.kind), KindName(a.kind));
    if Rank(a.kind) < Rank(b.kind) {
      KindsByRank(a.kind, b.kind);
    } else if Rank(b.kind) < Rank(a.kind) {
      KindsByRank(b.kind, a.kind);
    }
  }

  lemma KindNamesDiffer(a: MemberKind, b: MemberKind)
    ensures KindName(a) == KindName(b) ==> a == b
  {
    if a != b {
      assert |KindName(a)| != |KindName(b)| || KindName(a)[0] != KindName(b)[0];
    }
  }

  lemma MemberKeyOrder(a: MemberKey, b: MemberKey, c: MemberKey)
    ensures MemberKeyLess(a, b) ==> !MemberKeyLess(b, a)
    ensures a == b || MemberKeyLess(a, b) || MemberKeyLess(b, a)
    ensures !MemberKeyLess(a, b) && !MemberKeyLess(b, c) ==> !MemberKeyLess(a, c)
  {
    KindNamesDiffer(a.kind, b.kind);
    KeyOrder(DatasetKey(KindName(a.kind), a.value), DatasetKey(KindName(b.kind), b.value), DatasetKey(KindName(c.kind), c.value));
  }

  /** sortedOpenLineageDatasetMemberKeys */
  method SortedMemberKeys(members: map<MemberKey, int>) returns (keys: seq<MemberKey>)
    ensures StrictlySortedBy(MemberKeyLess, keys) && NoRepeats(keys)
    ensures forall key :: key in keys <==> key in members
  {
    var listed := Listing(members.Keys);
    forall a, b, c
      ensures MemberKeyLess(a, b) ==> !MemberKeyLess(b, a)
      ensures !MemberKeyLess(a, b) && !MemberKeyLess(b, c) ==> !MemberKeyLess(a, c)
    {
      MemberKeyOrder(a, b, c);
    }
    forall i, j | 0 <= i < j < |listed| ensures Comparable(MemberKeyLess, listed[i], listed[j]) {
      MemberKeyOrder(listed[i], listed[j], listed[i]);
    }
    keys := SortFunc(listed, MemberKeyLess);
    assert forall key :: key in keys <==> key in multiset(keys);
    assert forall key :: key in listed <==> key in multiset(listed);
    forall i, j | 0 <= i < j < |keys| ensures keys[i] != keys[j] {
      assert MemberKeyLess(keys[i], keys[j]);
    }
  }

  /** By dataset, then by member key. */
  predicate MemberRefLess(a: MemberRef, b: MemberRef) {
    KeyLess(a.dataset, b.dataset) || (a.dataset == b.dataset && MemberKeyLess(a.member, b.member))
  }

  ghost predicate AscendingMembers(list: seq<MemberDelta>) {
    forall i, j | 0 <= i < j < |list| :: MemberRefLess(list[i].ref, list[j].ref)
  }

  lemma AscendingIsDistinct(list: seq<MemberDelta>)
    requires AscendingMembers(list)
    ensures Distinct(list)
  {
    forall i, j | 0 <= i < j < |list| ensures list[i].ref != list[j].ref {
      KeyOrder(list[i].ref.dataset, list[j].ref.dataset, list[i].ref.dataset);
      MemberKeyOrder(list[i].ref.member, list[j].ref.member, list[i].ref.member);
      assert MemberRefLess(list[i].ref, list[j].ref);
    }
  }

  /** One dataset's member deltas, under the given keys. */
  function DeltasUnder(delta: Delta, keys: seq<MemberKey>): seq<MemberDelta> {
    seq(|keys|, i requires 0 <= i < |keys| => MemberDelta(MemberRef(delta.dataset, keys[i]), MemberCount(delta.members, keys[i])))
  }

  lemma DeltasUnderAscend(delta: Delta, keys: seq<MemberKey>)
    requires StrictlySortedBy(MemberKeyLess, keys)
    ensures AscendingMembers(DeltasUnder(delta, keys))
  {
    var list := DeltasUnder(delta, keys);
    forall i, j | 0 <= i < j < |list| ensures MemberRefLess(list[i].ref, list[j].ref) {
      assert MemberKeyLess(keys[i], keys[j]);
    }
  }

  lemma {:induction false} DeltasUnderSum(delta: Delta, keys: seq<MemberKey>, r: MemberRef)
    requires NoRepeats(keys)
    ensures Change(DeltasUnder(delta, keys), r) ==
            (if delta.dataset == r.dataset && r.member in keys then MemberCount(delta.members, r.member) else 0)
  {
    if keys != [] {
      var rest, last := keys[..|keys| - 1], keys[|keys| - 1];
      assert keys == rest + [last] && last !in rest;
      DeltasUnderSum(delta, rest, r);
      assert DeltasUnder(delta, keys) == DeltasUnder(delta, rest) + [MemberDelta(MemberRef(delta.dataset, last), MemberCount(delta.members, last))];
      ChangeOfAppended(DeltasUnder(delta, rest), MemberDelta(MemberRef(delta.dataset, last), MemberCount(delta.members, last)), r);
    }
  }

  lemma DeltasUnderSums(delta: Delta, keys: seq<MemberKey>)
    requires NoRepeats(keys) && forall key :: key in keys <==> key in delta.members
    ensures forall r: MemberRef :: Change(DeltasUnder(delta, keys), r) ==
              (if delta.dataset == r.dataset then MemberCount(delta.members, r.member) else 0)
  {
    forall r: MemberRef
      ensures Change(DeltasUnder(delta, keys), r) == if delta.dataset == r.dataset then MemberCount(delta.members, r.member) else 0
    {
      DeltasUnderSum(delta, keys, r);
    }
  }

  method DatasetMemberDeltas(delta: Delta) returns (list: seq<MemberDelta>)
    requires forall key | key in delta.members :: delta.members[key] != 0
    ensures AscendingMembers(list)
    ensures forall i | 0 <= i < |list| :: list[i].ref.dataset == delta.dataset && list[i].delta != 0
    ensures forall r: MemberRef :: Change(list, r) ==
              (if delta.dataset == r.dataset then MemberCount(delta.members, r.member) else 0)
  {
    var keys := SortedMemberKeys(delta.members);
    list := [];
    for n := 0 to |keys|
      invariant list == DeltasUnder(delta, keys[..n])
    {
      list := list + [MemberDelta(MemberRef(delta.dataset, keys[n]), delta.members[keys[n]])];
    }
    assert keys[..|keys|] == keys;
    DeltasUnderAscend(delta, keys);
    DeltasUnderSums(delta, keys);
  }

  /** openLineageDatasetMemberDeltaList: by dataset, then by member, which is also the order the rows are locked in. */
  method MemberDeltaList(deltas: seq<Delta>) returns (list: seq<MemberDelta>)
    requires Ascending(deltas)
    requires forall i, key | 0 <= i < |deltas| && key in deltas[i].members :: deltas[i].members[key] != 0
    ensures AscendingMembers(list) && Distinct(list)
    ensures forall i, j | 0 <= i < j < |list| ::
              KeyLess(list[i].ref.dataset, list[j].ref.dataset) ||
              (list[i].ref.dataset == list[j].ref.dataset && MemberKeyLess(list[i].ref.member, list[j].ref.member))
    ensures forall i | 0 <= i < |list| :: list[i].delta != 0
    ensures forall r: MemberRef :: Change(list, r) == MemberChange(deltas, r)
  {
    list := [];
    for i := 0 to |deltas|
      invariant AscendingMembers(list)
      invariant forall j | 0 <= j < |list| :: list[j].delta != 0
      invariant forall j | 0 <= j < |list| :: exists d :: 0 <= d < i && deltas[d].dataset == list[j].ref.dataset
      invariant forall r: MemberRef :: Change(list, r) == MemberChange(deltas[..i], r)
    {
      var more := DatasetMemberDeltas(deltas[i]);
      assert deltas[..i + 1][..i] == deltas[..i];
      forall r ensures Change(list + more, r) == MemberChange(deltas[..i + 1], r) {
        ChangeConcat(list, more, r);
      }
      assert forall j | 0 <= j < |list| :: KeyLess(list[j].ref.dataset, deltas[i].dataset);
      list := list + more;
    }
    assert deltas[..|deltas|] == deltas;
    AscendingIsDistinct(list);
  }

  // ----- Job counts -----

  datatype JobDelta = JobDelta(source: int, target: int)

  type Jobs = map<DatasetKey, JobDelta>

  /** How the job count a kind stands for moved; integrations and sources carry no count. */
  function JobChange(jobs: Jobs, dataset: DatasetKey, kind: MemberKind): int {
    if dataset !in jobs then 0
    else if kind == InputTask then jobs[dataset].source
    else if kind == OutputTask then jobs[dataset].target
    else 0
  }

  /** countOpenLineageDatasetJob */
  function CountJob(jobs: Jobs, dataset: DatasetKey, kind: MemberKind, delta: int): (r: Jobs)
    ensures forall d, k :: JobChange(r, d, k) ==
              JobChange(jobs, d, k) + (if d == dataset && k == kind && (k == InputTask || k == OutputTask) then delta else 0)
  {
    if kind != InputTask && kind != OutputTask then jobs
    else
      var row := if dataset in jobs then jobs[dataset] else JobDelta(0, 0);
      jobs[dataset := if kind == InputTask then row.(source := row.source + delta) else row.(target := row.target + delta)]
  }

  predicate IsTaskKind(kind: MemberKind) {
    kind == InputTask || kind == OutputTask
  }

  /** The jobs counted between two states of the member table are the task rows it gained or lost. */
  ghost predicate JobsFollow(before: Jobs, after: Jobs, membersBefore: Members, membersAfter: Members) {
    forall dataset, kind | IsTaskKind(kind) ::
      JobChange(after, dataset, kind) - JobChange(before, dataset, kind) ==
      |MemberRows(membersAfter, dataset, kind)| - |MemberRows(membersBefore, dataset, kind)|
  }

  lemma JobsFollowTransitive(a: Jobs, b: Jobs, c: Jobs, ma: Members, mb: Members, mc: Members)
    requires JobsFollow(a, b, ma, mb) && JobsFollow(b, c, mb, mc)
    ensures JobsFollow(a, c, ma, mc)
  {
    forall dataset: DatasetKey, kind | IsTaskKind(kind) ensures
      JobChange(c, dataset, kind) - JobChange(a, dataset, kind) ==
      |MemberRows(mc, dataset, kind)| - |MemberRows(ma, dataset, kind)| {
      assert JobChange(b, dataset, kind) - JobChange(a, dataset, kind) ==
             |MemberRows(mb, dataset, kind)| - |MemberRows(ma, dataset, kind)|;
      assert JobChange(c, dataset, kind) - JobChange(b, dataset, kind) ==
             |MemberRows(mc, dataset, kind)| - |MemberRows(mb, dataset, kind)|;
    }
  }

  /** A returned count equal to the delta means the row was created, which is one more row. */
  lemma CreatedRow(members: Members, r: MemberRef, delta: int, dataset: DatasetKey, kind: MemberKind)
    requires Positive(members) && delta > 0
    ensures |MemberRows(members[r := RefCount(members, r) + delta], dataset, kind)| ==
            |MemberRows(members, dataset, kind)| +
            (if RefCount(members, r) + delta == delta && r.dataset == dataset && r.member.kind == kind then 1 else 0)
  {
    var rows := MemberRows(members, dataset, kind);
    var updated := MemberRows(members[r := RefCount(members, r) + delta], dataset, kind);
    if r.dataset == dataset && r.member.kind == kind {
      assert updated == rows + {r};
      if r in members {
        assert r in rows && rows + {r} == rows && RefCount(members, r) > 0;
      } else {
        assert r !in rows && RefCount(members, r) == 0;
      }
    } else {
      assert updated == rows;
    }
  }

  function RowsIn(rows: set<MemberRef>, dataset: DatasetKey, kind: MemberKind): set<MemberRef> {
    set r | r in rows && r.dataset == dataset && r.member.kind == kind
  }

  lemma DeletedRows(members: Members, gone: set<MemberRef>, dataset: DatasetKey, kind: MemberKind)
    requires gone <= members.Keys
    ensures |MemberRows(members - gone, dataset, kind)| ==
            |MemberRows(members, dataset, kind)| - |RowsIn(gone, dataset, kind)|
  {
    var lost := RowsIn(gone, dataset, kind);
    assert MemberRows(members - gone, dataset, kind) == MemberRows(members, dataset, kind) - lost;
    assert lost <= MemberRows(members, dataset, kind);
  }

  lemma RowsInGrows(rows: set<MemberRef>, r: MemberRef, dataset: DatasetKey, kind: MemberKind)
    requires r !in rows
    ensures |RowsIn(rows + {r}, dataset, kind)| ==
            |RowsIn(rows, dataset, kind)| + (if r.dataset == dataset && r.member.kind == kind then 1 else 0)
  {
    if r.dataset == dataset && r.member.kind == kind {
      assert RowsIn(rows + {r}, dataset, kind) == RowsIn(rows, dataset, kind) + {r};
    } else {
      assert RowsIn(rows + {r}, dataset, kind) == RowsIn(rows, dataset, kind);
    }
  }
}
