/**
 References from runs to datasets, and what a set of references adds up to for one dataset:
 the quantities the dataset aggregate stores.
 */
module DatasetReferences {
  import opened Ordering

  datatype DatasetKey = DatasetKey(namespace: string, name: string)

  const DIRECTION_INPUT := "input"
  const DIRECTION_OUTPUT := "output"

  /** One reference, down to the fields the aggregate distinguishes. */
  datatype Ref = Ref(
    dataset: DatasetKey,
    direction: string,
    taskGUID: string,
    hasColumnLineage: bool,
    integration: string,
    source: string,
    eventTime: Option<int>)

  datatype MemberKind = InputTask | OutputTask | Integration | Source

  datatype MemberKey = MemberKey(kind: MemberKind, value: string)

  function TaskMemberKind(direction: string): MemberKind {
    if direction == DIRECTION_OUTPUT then OutputTask else InputTask
  }

  /** The member rows one reference counts towards. */
  function MembersOf(ref: Ref): set<MemberKey> {
    {MemberKey(TaskMemberKind(ref.direction), ref.taskGUID)}
    + (if ref.integration != "" then {MemberKey(Integration, ref.integration)} else {})
    + (if ref.source != "" then {MemberKey(Source, ref.source)} else {})
  }

  /**
   The member rows the rebuild's UNION ALL produces for one reference. Unlike the fold, its task
   branches test the direction for both values.
   */
  function GroupedMembersOf(ref: Ref): set<MemberKey> {
    (if ref.direction == DIRECTION_INPUT then {MemberKey(InputTask, ref.taskGUID)} else {})
    + (if ref.direction == DIRECTION_OUTPUT then {MemberKey(OutputTask, ref.taskGUID)} else {})
    + (if ref.integration != "" then {MemberKey(Integration, ref.integration)} else {})
    + (if ref.source != "" then {MemberKey(Source, ref.source)} else {})
  }

  /** Directions by name: the fold files all but "output" under the input tasks, the rebuild drops what it does not know. */
  lemma DirectionsByName(ref: Ref, key: MemberKey)
    ensures key.kind == OutputTask ==> (key in MembersOf(ref) <==> ref.direction == "output" && key.value == ref.taskGUID)
    ensures key.kind == InputTask ==> (key in MembersOf(ref) <==> ref.direction != "output" && key.value == ref.taskGUID)
    ensures key.kind == OutputTask ==> (key in GroupedMembersOf(ref) <==> ref.direction == "output" && key.value == ref.taskGUID)
    ensures key.kind == InputTask ==> (key in GroupedMembersOf(ref) <==> ref.direction == "input" && key.value == ref.taskGUID)
    ensures key.kind == Integration || key.kind == Source ==>
              (key in MembersOf(ref) <==> key.value != "" && key.value == if key.kind == Source then ref.source else ref.integration) &&
              (key in GroupedMembersOf(ref) <==> key in MembersOf(ref))
  {
  }

  /** The counters one dataset keeps over its references. */
  datatype Measure = References | ColumnLineageReferences | Member(key: MemberKey) | GroupedMember(key: MemberKey)

  predicate Contributes(ref: Ref, dataset: DatasetKey, m: Measure) {
    ref.dataset == dataset &&
    match m
    case References => true
    case ColumnLineageReferences => ref.hasColumnLineage
    case Member(key) => key in MembersOf(ref)
    case GroupedMember(key) => key in GroupedMembersOf(ref)
  }

  /** How many of `refs` contribute to the measure: SQL's COUNT over the reference table. */
  function Total(refs: seq<Ref>, dataset: DatasetKey, m: Measure): nat {
    if refs == [] then 0
    else Total(refs[..|refs| - 1], dataset, m) + (if Contributes(refs[|refs| - 1], dataset, m) then 1 else 0)
  }

  lemma {:induction false} TotalConcat(a: seq<Ref>, b: seq<Ref>, dataset: DatasetKey, m: Measure)
    ensures Total(a + b, dataset, m) == Total(a, dataset, m) + Total(b, dataset, m)
  {
    if b == [] {
      assert a + b == a;
    } else {
      TotalConcat(a, b[..|b| - 1], dataset, m);
      assert a + b == a + b[..|b| - 1] + [b[|b| - 1]];
    }
  }

  lemma SameWithoutLast(a: seq<Ref>, b: seq<Ref>) returns (i: nat)
    requires multiset(a) == multiset(b) && a != []
    ensures i < |b| && b[i] == a[|a| - 1]
    ensures multiset(a[..|a| - 1]) == multiset(b[..i] + b[i + 1..])
  {
    var last := a[|a| - 1];
    assert a == a[..|a| - 1] + [last];
    assert last in multiset(b);
    i :| i < |b| && b[i] == last;
    assert b == b[..i] + [last] + b[i + 1..];
    assert multiset(a[..|a| - 1]) == multiset(a) - multiset{last};
    assert multiset(b[..i] + b[i + 1..]) == multiset(b) - multiset{last};
  }

  lemma TotalWithout(b: seq<Ref>, i: nat, dataset: DatasetKey, m: Measure)
    requires i < |b|
    ensures Total(b, dataset, m) ==
            Total(b[..i] + b[i + 1..], dataset, m) + (if Contributes(b[i], dataset, m) then 1 else 0)
  {
    assert b == b[..i] + [b[i]] + b[i + 1..];
    TotalConcat(b[..i] + [b[i]], b[i + 1..], dataset, m);
    TotalConcat(b[..i], b[i + 1..], dataset, m);
  }

  /** A count sees the multiset of references only, never their order. */
  lemma {:induction false} TotalOfPermutation(a: seq<Ref>, b: seq<Ref>, dataset: DatasetKey, m: Measure)
    requires multiset(a) == multiset(b)
    ensures Total(a, dataset, m) == Total(b, dataset, m)
    decreases |a|
  {
    if a == [] {
      assert |multiset(b)| == 0;
    } else {
      var i := SameWithoutLast(a, b);
      TotalOfPermutation(a[..|a| - 1], b[..i] + b[i + 1..], dataset, m);
      TotalWithout(b, i, dataset, m);
    }
  }

  lemma {:induction false} TotalPositive(refs: seq<Ref>, dataset: DatasetKey, m: Measure)
    ensures Total(refs, dataset, m) > 0 <==> exists ref :: ref in refs && Contributes(ref, dataset, m)
  {
    if refs != [] {
      TotalPositive(refs[..|refs| - 1], dataset, m);
      assert refs == refs[..|refs| - 1] + [refs[|refs| - 1]];
      assert refs[|refs| - 1] in refs;
    }
  }

  /** A measure counts some of the dataset's references, so it vanishes with the last of them. */
  lemma {:induction false} TotalAtMostReferences(refs: seq<Ref>, dataset: DatasetKey, m: Measure)
    ensures Total(refs, dataset, m) <= Total(refs, dataset, References)
  {
    if refs != [] {
      TotalAtMostReferences(refs[..|refs| - 1], dataset, m);
    }
  }

  /** `newest` is the maximum of `times`, or absent when there is none: SQL's MAX. */
  ghost predicate IsNewest(times: iset<int>, newest: Option<int>) {
    match newest
    case None => times == iset{}
    case Some(t) => t in times && forall u | u in times :: u <= t
  }

  /** SQL's GREATEST, which ignores a NULL operand. */
  function Greatest(a: Option<int>, b: Option<int>): Option<int> {
    match (a, b)
    case (None, _) => b
    case (_, None) => a
    case (Some(x), Some(y)) => if x < y then b else a
  }

  ghost function EventTimes(refs: seq<Ref>, dataset: DatasetKey): iset<int> {
    iset ref | ref in refs && ref.dataset == dataset && ref.eventTime.Some? :: ref.eventTime.value
  }

  /** MAX(event_time) over a dataset's references. */
  function NewestEventTime(refs: seq<Ref>, dataset: DatasetKey): Option<int> {
    if refs == [] then None
    else
      var rest, last := NewestEventTime(refs[..|refs| - 1], dataset), refs[|refs| - 1];
      if last.dataset == dataset then Greatest(rest, last.eventTime) else rest
  }

  lemma {:induction false} NewestEventTimeIsNewest(refs: seq<Ref>, dataset: DatasetKey)
    ensures IsNewest(EventTimes(refs, dataset), NewestEventTime(refs, dataset))
  {
    if refs != [] {
      var rest, last := refs[..|refs| - 1], refs[|refs| - 1];
      assert refs == rest + [last];
      NewestEventTimeIsNewest(rest, dataset);
      assert EventTimes(refs, dataset) == EventTimes(rest, dataset) +
        (if last.dataset == dataset && last.eventTime.Some? then iset{last.eventTime.value} else iset{});
    }
  }
}
