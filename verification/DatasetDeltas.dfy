/**
 The fold of one ingest transaction: run replacements become one delta per dataset whose
 references really changed.
 */
module DatasetDeltas {
  import opened Ordering
  import opened DatasetReferences

  /** One run's references before and after an ingest replaced them. */
  datatype Replacement = Replacement(before: seq<Ref>, after: seq<Ref>)

  datatype Delta = Delta(
    dataset: DatasetKey,
    refDelta: int,
    columnLineageRefDelta: int,
    members: map<MemberKey, int>,
    lastSeen: Option<int>,
    removed: bool)

  function Before(replacements: seq<Replacement>): seq<Ref> {
    if replacements == [] then []
    else Before(replacements[..|replacements| - 1]) + replacements[|replacements| - 1].before
  }

  function After(replacements: seq<Replacement>): seq<Ref> {
    if replacements == [] then []
    else After(replacements[..|replacements| - 1]) + replacements[|replacements| - 1].after
  }

  /** How often `after` mentions a reference beyond `before`. */
  function Net(before: seq<Ref>, after: seq<Ref>, ref: Ref): int {
    multiset(after)[ref] as int - multiset(before)[ref] as int
  }

  // ----- Net counts per reference -----

  type Counts = map<DatasetKey, map<Ref, int>>

  function CountsOf(counts: Counts, dataset: DatasetKey): map<Ref, int> {
    if dataset in counts then counts[dataset] else map[]
  }

  function NetCount(refs: map<Ref, int>, ref: Ref): int {
    if ref in refs then refs[ref] else 0
  }

  function AddCount(counts: Counts, ref: Ref, count: int): Counts {
    var refs := CountsOf(counts, ref.dataset);
    counts[ref.dataset := refs[ref := NetCount(refs, ref) + count]]
  }

  function Share(refs: map<Ref, int>, ref: Ref, dataset: DatasetKey, m: Measure): int
    requires ref in refs
  {
    if Contributes(ref, dataset, m) then refs[ref] else 0
  }

  /** The signed count of a measure: each reference weighs its net count. */
  ghost function Signed(refs: map<Ref, int>, dataset: DatasetKey, m: Measure): int {
    if refs == map[] then 0
    else
      var ref :| ref in refs;
      Share(refs, ref, dataset, m) + Signed(refs - {ref}, dataset, m)
  }

  lemma {:induction false} SignedWithout(refs: map<Ref, int>, ref: Ref, dataset: DatasetKey, m: Measure)
    requires ref in refs
    ensures Signed(refs, dataset, m) == Share(refs, ref, dataset, m) + Signed(refs - {ref}, dataset, m)
    decreases |refs|
  {
    var picked :| picked in refs &&
      Signed(refs, dataset, m) == Share(refs, picked, dataset, m) + Signed(refs - {picked}, dataset, m);
    if picked != ref {
      SignedWithout(refs - {picked}, ref, dataset, m);
      SignedWithout(refs - {ref}, picked, dataset, m);
      assert refs - {picked} - {ref} == refs - {ref} - {picked};
      assert Share(refs - {picked}, ref, dataset, m) == Share(refs, ref, dataset, m);
      assert Share(refs - {ref}, picked, dataset, m) == Share(refs, picked, dataset, m);
      assert Signed(refs - {picked}, dataset, m) == Share(refs, ref, dataset, m) + Signed(refs - {picked} - {ref}, dataset, m);
      assert Signed(refs - {ref}, dataset, m) == Share(refs, picked, dataset, m) + Signed(refs - {ref} - {picked}, dataset, m);
    }
  }

  lemma SignedUpdate(refs: map<Ref, int>, ref: Ref, count: int, dataset: DatasetKey, m: Measure)
    ensures Signed(refs[ref := count], dataset, m) ==
            Signed(refs, dataset, m) + (if Contributes(ref, dataset, m) then count - NetCount(refs, ref) else 0)
  {
    var updated := refs[ref := count];
    SignedWithout(updated, ref, dataset, m);
    if ref in refs {
      SignedWithout(refs, ref, dataset, m);
      assert updated - {ref} == refs - {ref};
    } else {
      assert updated - {ref} == refs;
    }
  }

  /** Without negative counts a measure is at least each contributing reference's count. */
  lemma {:induction false} SignedAtLeast(refs: map<Ref, int>, dataset: DatasetKey, m: Measure)
    requires forall ref | ref in refs :: refs[ref] >= 0
    ensures Signed(refs, dataset, m) >= 0
    ensures forall ref | ref in refs :: Signed(refs, dataset, m) >= Share(refs, ref, dataset, m)
    decreases |refs|
  {
    forall ref | ref in refs
      ensures Signed(refs, dataset, m) >= Share(refs, ref, dataset, m) >= 0
    {
      SignedWithout(refs, ref, dataset, m);
      SignedAtLeast(refs - {ref}, dataset, m);
    }
  }

  /** `counts` holds, for every reference, how often `after` mentions it beyond `before`. */
  ghost predicate CountsMatch(counts: Counts, before: seq<Ref>, after: seq<Ref>) {
    && (forall dataset, ref :: dataset in counts && ref in counts[dataset] ==> ref.dataset == dataset)
    && (forall ref: Ref :: NetCount(CountsOf(counts, ref.dataset), ref) == Net(before, after, ref))
    && (forall dataset, m :: Signed(CountsOf(counts, dataset), dataset, m) ==
                             Total(after, dataset, m) - Total(before, dataset, m))
  }

  lemma AddCountSigned(counts: Counts, ref: Ref, sign: int, dataset: DatasetKey, m: Measure)
    ensures Signed(CountsOf(AddCount(counts, ref, sign), dataset), dataset, m) ==
            Signed(CountsOf(counts, dataset), dataset, m) + (if Contributes(ref, dataset, m) then sign else 0)
  {
    if dataset == ref.dataset {
      var refs := CountsOf(counts, dataset);
      SignedUpdate(refs, ref, NetCount(refs, ref) + sign, dataset, m);
    }
  }

  lemma CountsMatchStep(counts: Counts, before: seq<Ref>, after: seq<Ref>, ref: Ref, sign: int)
    requires sign == 1 || sign == -1
    requires CountsMatch(counts, before, after)
    ensures sign == 1 ==> CountsMatch(AddCount(counts, ref, sign), before, after + [ref])
    ensures sign == -1 ==> CountsMatch(AddCount(counts, ref, sign), before + [ref], after)
  {
    forall dataset: DatasetKey, m
      ensures Signed(CountsOf(AddCount(counts, ref, sign), dataset), dataset, m) ==
              if sign == 1 then Total(after + [ref], dataset, m) - Total(before, dataset, m)
              else Total(after, dataset, m) - Total(before + [ref], dataset, m)
    {
      AddCountSigned(counts, ref, sign, dataset, m);
    }
  }

  method CountAll(counts: Counts, refs: seq<Ref>, sign: int, ghost before: seq<Ref>, ghost after: seq<Ref>) returns (r: Counts)
    requires sign == 1 || sign == -1
    requires CountsMatch(counts, before, after)
    ensures sign == 1 ==> CountsMatch(r, before, after + refs)
    ensures sign == -1 ==> CountsMatch(r, before + refs, after)
  {
    r := counts;
    assert before + refs[..0] == before && after + refs[..0] == after;
    for j := 0 to |refs|
      invariant sign == 1 ==> CountsMatch(r, before, after + refs[..j])
      invariant sign == -1 ==> CountsMatch(r, before + refs[..j], after)
    {
      assert refs[..j + 1] == refs[..j] + [refs[j]];
      if sign == 1 {
        CountsMatchStep(r, before, after + refs[..j], refs[j], sign);
        assert after + refs[..j + 1] == after + refs[..j] + [refs[j]];
      } else {
        CountsMatchStep(r, before + refs[..j], after, refs[j], sign);
        assert before + refs[..j + 1] == before + refs[..j] + [refs[j]];
      }
      r := AddCount(r, refs[j], sign);
    }
    assert refs[..|refs|] == refs;
  }

  method CountReferences(replacements: seq<Replacement>) returns (counts: Counts)
    ensures CountsMatch(counts, Before(replacements), After(replacements))
  {
    counts := map[];
    for i := 0 to |replacements|
      invariant CountsMatch(counts, Before(replacements[..i]), After(replacements[..i]))
    {
      ghost var before, after := Before(replacements[..i]), After(replacements[..i]);
      counts := CountAll(counts, replacements[i].before, -1, before, after);
      counts := CountAll(counts, replacements[i].after, 1, before + replacements[i].before, after);
      assert replacements[..i + 1][..i] == replacements[..i];
    }
    assert replacements[..|replacements|] == replacements;
  }

  // ----- One dataset's delta -----

  function MemberCount(members: map<MemberKey, int>, key: MemberKey): int {
    if key in members then members[key] else 0
  }

  /** Nets one member's contribution into the delta; a member that nets to zero is not listed. */
  function AddMember(members: map<MemberKey, int>, key: MemberKey, count: int): (r: map<MemberKey, int>)
    ensures forall k :: MemberCount(r, k) == MemberCount(members, k) + (if k == key then count else 0)
    ensures (forall k | k in members :: members[k] != 0) ==> forall k | k in r :: r[k] != 0
  {
    var total := MemberCount(members, key) + count;
    if total != 0 then members[key := total] else members - {key}
  }

  ghost predicate HasNegative(refs: map<Ref, int>) {
    exists ref :: ref in refs && refs[ref] < 0
  }

  ghost function AddedTimes(refs: map<Ref, int>): iset<int> {
    iset ref | ref in refs && refs[ref] > 0 && ref.eventTime.Some? :: ref.eventTime.value
  }

  /** The delta is the signed count of every measure over the net counts of one dataset. */
  ghost predicate Summarizes(delta: Delta, refs: map<Ref, int>) {
    && delta.refDelta == Signed(refs, delta.dataset, References)
    && delta.columnLineageRefDelta == Signed(refs, delta.dataset, ColumnLineageReferences)
    && (forall key :: MemberCount(delta.members, key) == Signed(refs, delta.dataset, Member(key)))
    && (forall key | key in delta.members :: delta.members[key] != 0)
    && (delta.removed <==> HasNegative(refs))
    && IsNewest(AddedTimes(refs), delta.lastSeen)
  }

  function AddReference(delta: Delta, ref: Ref, count: int): Delta {
    var task := AddMember(delta.members, MemberKey(TaskMemberKind(ref.direction), ref.taskGUID), count);
    var integration := if ref.integration != "" then AddMember(task, MemberKey(Integration, ref.integration), count) else task;
    var source := if ref.source != "" then AddMember(integration, MemberKey(Source, ref.source), count) else integration;
    delta.(
      refDelta := delta.refDelta + count,
      columnLineageRefDelta := delta.columnLineageRefDelta + (if ref.hasColumnLineage then count else 0),
      members := source,
      removed := delta.removed || count < 0,
      lastSeen := if count > 0 then Greatest(delta.lastSeen, ref.eventTime) else delta.lastSeen)
  }

  lemma AddedTimesStep(seen: map<Ref, int>, ref: Ref, count: int)
    requires ref !in seen
    ensures AddedTimes(seen[ref := count]) == AddedTimes(seen) +
            (if count > 0 && ref.eventTime.Some? then iset{ref.eventTime.value} else iset{})
    ensures HasNegative(seen[ref := count]) <==> HasNegative(seen) || count < 0
  {
    var next := seen[ref := count];
    assert forall r | r in seen :: r in next && next[r] == seen[r];
    assert forall r | r in next :: r == ref || r in seen;
    assert ref in next && next[ref] == count;
  }

  lemma SignedStep(seen: map<Ref, int>, ref: Ref, count: int, m: Measure)
    requires ref !in seen
    ensures Signed(seen[ref := count], ref.dataset, m) ==
            Signed(seen, ref.dataset, m) + (if Contributes(ref, ref.dataset, m) then count else 0)
  {
    SignedUpdate(seen, ref, count, ref.dataset, m);
  }

  lemma MembersStep(delta: Delta, seen: map<Ref, int>, ref: Ref, count: int, key: MemberKey)
    requires ref !in seen && ref.dataset == delta.dataset
    requires MemberCount(delta.members, key) == Signed(seen, delta.dataset, Member(key))
    ensures MemberCount(AddReference(delta, ref, count).members, key) == Signed(seen[ref := count], delta.dataset, Member(key))
    ensures count == 0 ==> MemberCount(delta.members, key) == Signed(seen[ref := count], delta.dataset, Member(key))
  {
    SignedStep(seen, ref, count, Member(key));
  }

  lemma SummarizesStep(delta: Delta, seen: map<Ref, int>, ref: Ref, count: int)
    requires Summarizes(delta, seen)
    requires ref !in seen && ref.dataset == delta.dataset
    ensures count == 0 ==> Summarizes(delta, seen[ref := count])
    ensures count != 0 ==> Summarizes(AddReference(delta, ref, count), seen[ref := count])
  {
    SignedStep(seen, ref, count, References);
    SignedStep(seen, ref, count, ColumnLineageReferences);
    AddedTimesStep(seen, ref, count);
    forall key
      ensures MemberCount(AddReference(delta, ref, count).members, key) == Signed(seen[ref := count], delta.dataset, Member(key))
      ensures count == 0 ==> MemberCount(delta.members, key) == Signed(seen[ref := count], delta.dataset, Member(key))
    {
      MembersStep(delta, seen, ref, count, key);
    }
  }

  method FoldDataset(dataset: DatasetKey, refs: map<Ref, int>) returns (delta: Delta)
    requires forall ref | ref in refs :: ref.dataset == dataset
    ensures delta.dataset == dataset
    ensures Summarizes(delta, refs)
  {
    delta := Delta(dataset, 0, 0, map[], None, false);
    var rest := refs.Keys;
    ghost var seen: map<Ref, int> := map[];
    while rest != {}
      invariant rest <= refs.Keys
      invariant seen == refs - rest
      invariant delta.dataset == dataset && Summarizes(delta, seen)
      decreases rest
    {
      var ref :| ref in rest;
      SummarizesStep(delta, seen, ref, refs[ref]);
      if refs[ref] != 0 {
        delta := AddReference(delta, ref, refs[ref]);
      }
      rest := rest - {ref};
      seen := seen[ref := refs[ref]];
      assert seen == refs - rest;
    }
    assert seen == refs;
  }

  // ----- The transaction's deltas -----

  ghost function NewTimes(before: seq<Ref>, after: seq<Ref>, dataset: DatasetKey): iset<int> {
    iset ref | ref in after && ref.dataset == dataset && Net(before, after, ref) > 0 && ref.eventTime.Some?
      :: ref.eventTime.value
  }

  /** What one delta says about the references before and after the transaction. */
  ghost predicate IsDelta(delta: Delta, before: seq<Ref>, after: seq<Ref>) {
    var dataset := delta.dataset;
    && delta.refDelta == Total(after, dataset, References) - Total(before, dataset, References)
    && delta.columnLineageRefDelta ==
       Total(after, dataset, ColumnLineageReferences) - Total(before, dataset, ColumnLineageReferences)
    && (forall key :: MemberCount(delta.members, key) ==
                      Total(after, dataset, Member(key)) - Total(before, dataset, Member(key)))
    && (forall key | key in delta.members :: delta.members[key] != 0)
    && (delta.removed <==> exists ref: Ref :: ref.dataset == dataset && Net(before, after, ref) < 0)
    && IsNewest(NewTimes(before, after, dataset), delta.lastSeen)
  }

  predicate KeyLess(a: DatasetKey, b: DatasetKey) {
    StringLess(a.namespace, b.namespace) || (a.namespace == b.namespace && StringLess(a.name, b.name))
  }

  /** Namespaces are compared first, names between equal ones, both by the first difference. */
  lemma KeysByText(a: DatasetKey, b: DatasetKey)
    ensures KeyLess(a, b) <==> if a.namespace != b.namespace then TextPrecedes(a.namespace, b.namespace) else TextPrecedes(a.name, b.name)
  {
    StringLessExactly(a.namespace, b.namespace);
    StringLessExactly(a.name, b.name);
    StringOrder(a.namespace, b.namespace, a.namespace);
  }

  predicate DeltaLess(a: Delta, b: Delta) {
    KeyLess(a.dataset, b.dataset)
  }

  /** The dataset order is strict and total. */
  lemma KeyOrder(a: DatasetKey, b: DatasetKey, c: DatasetKey)
    ensures KeyLess(a, b) ==> !KeyLess(b, a)
    ensures a == b || KeyLess(a, b) || KeyLess(b, a)
    ensures KeyLess(a, b) && KeyLess(b, c) ==> KeyLess(a, c)
    ensures !KeyLess(a, b) && !KeyLess(b, c) ==> !KeyLess(a, c)
  {
    StringOrder(a.namespace, b.namespace, c.namespace);
    StringOrder(b.namespace, c.namespace, a.namespace);
    StringOrder(c.namespace, a.namespace, b.namespace);
    StringOrder(a.name, b.name, c.name);
  }

  lemma KeyLessIrreflexive()
    ensures forall a :: !KeyLess(a, a)
  {
    forall a: DatasetKey ensures !KeyLess(a, a) { KeyOrder(a, a, a); }
  }

  lemma DeltaLessIsStrictWeakOrder()
    ensures StrictWeakOrder(DeltaLess)
  {
    forall a, b, c
      ensures DeltaLess(a, b) ==> !DeltaLess(b, a)
      ensures !DeltaLess(a, b) && !DeltaLess(b, c) ==> !DeltaLess(a, c)
    {
      KeyOrder(a.dataset, b.dataset, c.dataset);
    }
  }

  ghost predicate Ascending(deltas: seq<Delta>) {
    forall i, j | 0 <= i < j < |deltas| :: KeyLess(deltas[i].dataset, deltas[j].dataset)
  }

  ghost predicate Changed(dataset: DatasetKey, before: seq<Ref>, after: seq<Ref>) {
    exists ref: Ref :: ref.dataset == dataset && Net(before, after, ref) != 0
  }

  ghost predicate Lists(deltas: seq<Delta>, dataset: DatasetKey) {
    exists i :: 0 <= i < |deltas| && deltas[i].dataset == dataset
  }

  ghost predicate SameTotals(dataset: DatasetKey, before: seq<Ref>, after: seq<Ref>) {
    forall m :: Total(after, dataset, m) == Total(before, dataset, m)
  }

  /** One delta per dataset whose references changed, and none for any other dataset. */
  ghost predicate AreDeltas(deltas: seq<Delta>, before: seq<Ref>, after: seq<Ref>) {
    && Ascending(deltas)
    && (forall i | 0 <= i < |deltas| :: IsDelta(deltas[i], before, after))
    && (forall dataset :: Lists(deltas, dataset) <==> Changed(dataset, before, after))
    && (forall dataset | !Lists(deltas, dataset) :: SameTotals(dataset, before, after))
  }

  predicate WritesNothing(delta: Delta) {
    && delta.refDelta == 0 && delta.columnLineageRefDelta == 0 && delta.members == map[]
    && !delta.removed && delta.lastSeen == None
  }

  /** The test that drops a delta drops exactly the datasets whose references all cancelled out. */
  lemma WritesNothingExactly(delta: Delta, refs: map<Ref, int>)
    requires Summarizes(delta, refs)
    requires forall ref | ref in refs :: ref.dataset == delta.dataset
    ensures WritesNothing(delta) <==> forall ref | ref in refs :: refs[ref] == 0
  {
    if WritesNothing(delta) {
      SignedAtLeast(refs, delta.dataset, References);
      assert forall ref | ref in refs :: Share(refs, ref, delta.dataset, References) == refs[ref];
    }
    if forall ref | ref in refs :: refs[ref] == 0 {
      forall m ensures Signed(refs, delta.dataset, m) == 0 { SignedOfZeros(refs, delta.dataset, m); }
      assert delta.members == map[] by {
        forall key ensures key !in delta.members {
          assert MemberCount(delta.members, key) == Signed(refs, delta.dataset, Member(key)) == 0;
        }
      }
      assert AddedTimes(refs) == iset{};
    }
  }

  lemma {:induction false} SignedOfZeros(refs: map<Ref, int>, dataset: DatasetKey, m: Measure)
    requires forall ref | ref in refs :: refs[ref] == 0
    ensures Signed(refs, dataset, m) == 0
    decreases |refs|
  {
    if refs != map[] {
      var ref :| ref in refs;
      SignedWithout(refs, ref, dataset, m);
      SignedOfZeros(refs - {ref}, dataset, m);
    }
  }

  lemma SummaryIsDelta(delta: Delta, counts: Counts, before: seq<Ref>, after: seq<Ref>)
    requires CountsMatch(counts, before, after)
    requires Summarizes(delta, CountsOf(counts, delta.dataset))
    ensures IsDelta(delta, before, after)
    ensures WritesNothing(delta) <==> !Changed(delta.dataset, before, after)
  {
    var refs := CountsOf(counts, delta.dataset);
    assert forall ref: Ref | ref.dataset == delta.dataset :: NetCount(refs, ref) == Net(before, after, ref);
    WritesNothingExactly(delta, refs);
    forall t ensures t in AddedTimes(refs) <==> t in NewTimes(before, after, delta.dataset) {
      if t in AddedTimes(refs) {
        var ref :| ref in refs && refs[ref] > 0 && ref.eventTime == Some(t);
        assert NetCount(refs, ref) > 0;
        assert ref in multiset(after);
      }
      if t in NewTimes(before, after, delta.dataset) {
        var ref :| ref in after && ref.dataset == delta.dataset && Net(before, after, ref) > 0 && ref.eventTime == Some(t);
        assert NetCount(refs, ref) > 0;
      }
    }
    assert AddedTimes(refs) == NewTimes(before, after, delta.dataset);
  }

  /** The part of the fold done so far: every changed dataset outside `rest` is listed once. */
  ghost predicate ListsSoFar(deltas: seq<Delta>, rest: set<DatasetKey>, before: seq<Ref>, after: seq<Ref>) {
    && (forall i, j | 0 <= i < j < |deltas| :: deltas[i].dataset != deltas[j].dataset)
    && (forall i | 0 <= i < |deltas| :: deltas[i].dataset !in rest && IsDelta(deltas[i], before, after))
    && (forall dataset | dataset !in rest :: Lists(deltas, dataset) <==> Changed(dataset, before, after))
  }

  lemma ListsAppend(deltas: seq<Delta>, delta: Delta, dataset: DatasetKey)
    ensures Lists(deltas + [delta], dataset) <==> Lists(deltas, dataset) || dataset == delta.dataset
  {
    var longer := deltas + [delta];
    assert longer[|deltas|] == delta;
    if Lists(deltas, dataset) {
      var i :| 0 <= i < |deltas| && deltas[i].dataset == dataset;
      assert longer[i].dataset == dataset;
    }
  }

  lemma ListsOneMore(deltas: seq<Delta>, delta: Delta, rest: set<DatasetKey>, before: seq<Ref>, after: seq<Ref>)
    requires ListsSoFar(deltas, rest, before, after)
    requires delta.dataset in rest && IsDelta(delta, before, after) && Changed(delta.dataset, before, after)
    ensures ListsSoFar(deltas + [delta], rest - {delta.dataset}, before, after)
  {
    var longer := deltas + [delta];
    assert forall i | 0 <= i < |longer| :: longer[i] == if i < |deltas| then deltas[i] else delta;
    forall dataset | dataset !in rest - {delta.dataset} ensures Lists(longer, dataset) <==> Changed(dataset, before, after) {
      ListsAppend(deltas, delta, dataset);
    }
  }

  lemma ListsNoMore(deltas: seq<Delta>, dataset: DatasetKey, rest: set<DatasetKey>, before: seq<Ref>, after: seq<Ref>)
    requires ListsSoFar(deltas, rest, before, after)
    requires dataset in rest && !Changed(dataset, before, after)
    ensures ListsSoFar(deltas, rest - {dataset}, before, after)
  {
  }

  /** openLineageDatasetDeltas */
  method ComputeDeltas(replacements: seq<Replacement>) returns (deltas: seq<Delta>)
    ensures AreDeltas(deltas, Before(replacements), After(replacements))
  {
    ghost var before, after := Before(replacements), After(replacements);
    var counts := CountReferences(replacements);
    deltas := [];
    var rest := counts.Keys;
    forall dataset
      ensures Changed(dataset, before, after) ==> dataset in counts
      ensures !Changed(dataset, before, after) ==> SameTotals(dataset, before, after)
    {
      ChangedIsCounted(counts, before, after, dataset);
    }
    while rest != {}
      invariant rest <= counts.Keys
      invariant ListsSoFar(deltas, rest, before, after)
      decreases rest
    {
      var dataset :| dataset in rest;
      var delta := FoldDataset(dataset, counts[dataset]);
      SummaryIsDelta(delta, counts, before, after);
      if WritesNothing(delta) {
        ListsNoMore(deltas, dataset, rest, before, after);
      } else {
        ListsOneMore(deltas, delta, rest, before, after);
        deltas := deltas + [delta];
      }
      rest := rest - {dataset};
    }
    DeltaLessIsStrictWeakOrder();
    ghost var unsorted := deltas;
    forall i, j | 0 <= i < j < |deltas| ensures Comparable(DeltaLess, deltas[i], deltas[j]) {
      KeyOrder(deltas[i].dataset, deltas[j].dataset, deltas[i].dataset);
    }
    deltas := SortFunc(deltas, DeltaLess);
    SortedDeltas(unsorted, deltas, before, after);
  }

  lemma ChangedIsCounted(counts: Counts, before: seq<Ref>, after: seq<Ref>, dataset: DatasetKey)
    requires CountsMatch(counts, before, after)
    ensures Changed(dataset, before, after) ==> dataset in counts
    ensures !Changed(dataset, before, after) ==> SameTotals(dataset, before, after)
  {
    if Changed(dataset, before, after) {
      var ref: Ref :| ref.dataset == dataset && Net(before, after, ref) != 0;
      assert NetCount(CountsOf(counts, ref.dataset), ref) != 0;
    } else {
      forall ref | ref in CountsOf(counts, dataset) ensures CountsOf(counts, dataset)[ref] == 0 {
        assert NetCount(CountsOf(counts, ref.dataset), ref) == 0;
      }
      forall m ensures Total(after, dataset, m) == Total(before, dataset, m) {
        SignedOfZeros(CountsOf(counts, dataset), dataset, m);
      }
    }
  }

  lemma SortedDeltas(unsorted: seq<Delta>, deltas: seq<Delta>, before: seq<Ref>, after: seq<Ref>)
    requires multiset(deltas) == multiset(unsorted) && StrictlySortedBy(DeltaLess, deltas)
    requires forall i | 0 <= i < |unsorted| :: IsDelta(unsorted[i], before, after)
    requires forall dataset :: Lists(unsorted, dataset) <==> Changed(dataset, before, after)
    requires forall dataset | !Lists(unsorted, dataset) :: SameTotals(dataset, before, after)
    ensures AreDeltas(deltas, before, after)
  {
    forall d: Delta ensures d in deltas <==> d in unsorted {
      assert d in multiset(deltas) <==> d in multiset(unsorted);
    }
    forall i | 0 <= i < |deltas| ensures IsDelta(deltas[i], before, after) {
      assert deltas[i] in unsorted;
    }
    forall dataset ensures Lists(deltas, dataset) <==> Lists(unsorted, dataset) {
      if Lists(deltas, dataset) {
        var i :| 0 <= i < |deltas| && deltas[i].dataset == dataset;
        assert deltas[i] in unsorted;
      }
      if Lists(unsorted, dataset) {
        var i :| 0 <= i < |unsorted| && unsorted[i].dataset == dataset;
        assert unsorted[i] in deltas;
      }
    }
    assert forall i, j | 0 <= i < j < |deltas| :: DeltaLess(deltas[i], deltas[j]);
  }

  // ----- Only the net difference matters -----

  /**
   Two transactions with the same net multiset difference have the same deltas: references that a
   later replacement takes back out leave no trace.
   */
  lemma DeltasDependOnNetDifference(
    first: seq<Delta>, before1: seq<Ref>, after1: seq<Ref>,
    second: seq<Delta>, before2: seq<Ref>, after2: seq<Ref>)
    requires AreDeltas(first, before1, after1) && AreDeltas(second, before2, after2)
    requires multiset(after1) + multiset(before2) == multiset(after2) + multiset(before1)
    ensures first == second
  {
    forall dataset: DatasetKey, m ensures Total(after1, dataset, m) - Total(before1, dataset, m) ==
                              Total(after2, dataset, m) - Total(before2, dataset, m) {
      TotalConcat(after1, before2, dataset, m);
      TotalConcat(after2, before1, dataset, m);
      assert multiset(after1 + before2) == multiset(after2 + before1);
      TotalOfPermutation(after1 + before2, after2 + before1, dataset, m);
    }
    forall ref ensures Net(before1, after1, ref) == Net(before2, after2, ref) {
      assert (multiset(after1) + multiset(before2))[ref] == (multiset(after2) + multiset(before1))[ref];
    }
    forall dataset ensures Lists(first, dataset) <==> Lists(second, dataset) {
      assert Changed(dataset, before1, after1) <==> Changed(dataset, before2, after2);
    }
    forall i, j | 0 <= i < |first| && 0 <= j < |second| && first[i].dataset == second[j].dataset
      ensures first[i] == second[j]
    {
      SameDelta(first[i], before1, after1, second[j], before2, after2);
    }
    SameListing(first, second);
  }

  lemma SameDelta(a: Delta, before1: seq<Ref>, after1: seq<Ref>, b: Delta, before2: seq<Ref>, after2: seq<Ref>)
    requires IsDelta(a, before1, after1) && IsDelta(b, before2, after2) && a.dataset == b.dataset
    requires forall m :: Total(after1, a.dataset, m) - Total(before1, a.dataset, m) ==
                         Total(after2, a.dataset, m) - Total(before2, a.dataset, m)
    requires forall ref :: Net(before1, after1, ref) == Net(before2, after2, ref)
    ensures a == b
  {
    forall key ensures MemberCount(a.members, key) == MemberCount(b.members, key) {
      assert Total(after1, a.dataset, Member(key)) - Total(before1, a.dataset, Member(key)) ==
             Total(after2, a.dataset, Member(key)) - Total(before2, a.dataset, Member(key));
    }
    assert forall key :: key in a.members <==> MemberCount(a.members, key) != 0;
    assert forall key :: key in b.members <==> MemberCount(b.members, key) != 0;
    assert a.members == b.members by {
      forall key ensures key in a.members <==> key in b.members {
        assert MemberCount(a.members, key) == MemberCount(b.members, key);
      }
      forall key | key in a.members ensures a.members[key] == b.members[key] {
        assert MemberCount(a.members, key) == MemberCount(b.members, key);
      }
    }
    assert forall ref :: ref in after1 <==> multiset(after1)[ref] > 0;
    assert forall ref :: ref in after2 <==> multiset(after2)[ref] > 0;
    assert NewTimes(before1, after1, a.dataset) == NewTimes(before2, after2, a.dataset);
  }

  /** Two ascending lists of the same datasets, agreeing dataset by dataset, are the same list. */
  lemma {:induction false} SameListing(first: seq<Delta>, second: seq<Delta>)
    requires Ascending(first) && Ascending(second)
    requires forall dataset :: Lists(first, dataset) <==> Lists(second, dataset)
    requires forall i, j | 0 <= i < |first| && 0 <= j < |second| && first[i].dataset == second[j].dataset :: first[i] == second[j]
    ensures first == second
    decreases |first|
  {
    KeyLessIrreflexive();
    if first == [] {
      if second != [] { assert Lists(second, second[0].dataset); assert false; }
    } else {
      assert Lists(first, first[0].dataset);
      var j :| 0 <= j < |second| && second[j].dataset == first[0].dataset;
      assert Lists(second, second[0].dataset);
      var i :| 0 <= i < |first| && first[i].dataset == second[0].dataset;
      KeyOrder(first[0].dataset, second[0].dataset, first[0].dataset);
      assert i == 0 && j == 0;
      forall dataset ensures Lists(first[1..], dataset) <==> Lists(second[1..], dataset) {
        TailLists(first, dataset);
        TailLists(second, dataset);
      }
      SameListing(first[1..], second[1..]);
      assert first == [first[0]] + first[1..] && second == [second[0]] + second[1..];
    }
  }

  lemma TailLists(deltas: seq<Delta>, dataset: DatasetKey)
    requires Ascending(deltas) && deltas != []
    ensures Lists(deltas[1..], dataset) <==> Lists(deltas, dataset) && dataset != deltas[0].dataset
  {
    KeyLessIrreflexive();
    if Lists(deltas, dataset) && dataset != deltas[0].dataset {
      var i :| 0 <= i < |deltas| && deltas[i].dataset == dataset;
      assert deltas[1..][i - 1].dataset == dataset;
    }
    if Lists(deltas[1..], dataset) {
      var i :| 0 <= i < |deltas| - 1 && deltas[1..][i].dataset == dataset;
      assert deltas[i + 1].dataset == dataset && KeyLess(deltas[0].dataset, deltas[i + 1].dataset);
    }
  }
}
