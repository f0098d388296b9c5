/** Why one transaction's deltas take a consistent aggregate to a consistent aggregate, chunk by chunk. */
module DatasetApplyProof {
  import opened Ordering
  import opened DatasetReferences
  import opened DatasetDeltas
  import opened DatasetTables
  import opened DatasetStatements

  /** `now` is what is stored after replacing `before` by `after` within `stored`. */
  ghost predicate Replaced(stored: seq<Ref>, now: seq<Ref>, before: seq<Ref>, after: seq<Ref>) {
    multiset(now) + multiset(before) == multiset(stored) + multiset(after)
  }

  lemma ReplacedTotals(stored: seq<Ref>, now: seq<Ref>, before: seq<Ref>, after: seq<Ref>, dataset: DatasetKey, m: Measure)
    requires Replaced(stored, now, before, after)
    ensures Total(now, dataset, m) == Total(stored, dataset, m) + Total(after, dataset, m) - Total(before, dataset, m)
  {
    assert multiset(now + before) == multiset(stored + after);
    TotalOfPermutation(now + before, stored + after, dataset, m);
    TotalConcat(now, before, dataset, m);
    TotalConcat(stored, after, dataset, m);
  }

  lemma ReplacedCounts(stored: seq<Ref>, now: seq<Ref>, before: seq<Ref>, after: seq<Ref>, ref: Ref)
    requires Replaced(stored, now, before, after)
    ensures multiset(now)[ref] as int == multiset(stored)[ref] as int + Net(before, after, ref)
  {
    assert (multiset(now) + multiset(before))[ref] == (multiset(stored) + multiset(after))[ref];
  }

  /** The member changes the deltas carry are exactly how the members' totals moved. */
  lemma MemberChangeIsNet(stored: seq<Ref>, now: seq<Ref>, before: seq<Ref>, after: seq<Ref>, deltas: seq<Delta>, r: MemberRef)
    requires Replaced(stored, now, before, after) && AreDeltas(deltas, before, after)
    ensures MemberChange(deltas, r) ==
            Total(now, r.dataset, Member(r.member)) - Total(stored, r.dataset, Member(r.member))
  {
    ReplacedTotals(stored, now, before, after, r.dataset, Member(r.member));
    if Lists(deltas, r.dataset) {
      var i :| 0 <= i < |deltas| && deltas[i].dataset == r.dataset;
      MemberChangeListed(deltas, i, r);
      assert IsDelta(deltas[i], before, after);
    } else {
      MemberChangeUnlisted(deltas, r);
      assert SameTotals(r.dataset, before, after);
    }
  }

  lemma NoReferencesNoTimes(refs: seq<Ref>, dataset: DatasetKey)
    requires Total(refs, dataset, References) == 0
    ensures EventTimes(refs, dataset) == iset{}
    ensures forall m :: Total(refs, dataset, m) == 0
  {
    TotalPositive(refs, dataset, References);
    assert forall ref | ref in refs && ref.dataset == dataset :: Contributes(ref, dataset, References);
    forall m ensures Total(refs, dataset, m) == 0 { TotalAtMostReferences(refs, dataset, m); }
  }

  lemma NoMembers(refs: seq<Ref>, members: Members, dataset: DatasetKey, kind: MemberKind)
    requires MembersConsistent(refs, members) && Total(refs, dataset, References) == 0
    ensures MemberRows(members, dataset, kind) == {}
  {
    NoReferencesNoTimes(refs, dataset);
    forall r: MemberRef | r.dataset == dataset ensures r !in members {
      assert RefCount(members, r) == Total(refs, r.dataset, Member(r.member)) == 0;
    }
  }

  /** When no reference went away the newest time can only be moved up by an added one. */
  lemma LastSeenMovesUp(stored: seq<Ref>, now: seq<Ref>, before: seq<Ref>, after: seq<Ref>, dataset: DatasetKey,
                        lastSeen: Option<int>, added: Option<int>)
    requires Replaced(stored, now, before, after)
    requires forall ref: Ref | ref.dataset == dataset :: Net(before, after, ref) >= 0
    requires IsNewest(EventTimes(stored, dataset), lastSeen)
    requires IsNewest(NewTimes(before, after, dataset), added)
    ensures IsNewest(EventTimes(now, dataset), Greatest(lastSeen, added))
  {
    forall t ensures t in EventTimes(now, dataset) <==> t in EventTimes(stored, dataset) || t in NewTimes(before, after, dataset) {
      if t in EventTimes(now, dataset) {
        var ref :| ref in now && ref.dataset == dataset && ref.eventTime == Some(t);
        ReplacedCounts(stored, now, before, after, ref);
        if ref !in stored {
          assert multiset(now)[ref] > 0 && multiset(stored)[ref] == 0;
          assert Net(before, after, ref) > 0 && multiset(after)[ref] > 0;
          assert ref in after;
        }
      }
      if t in EventTimes(stored, dataset) {
        var ref :| ref in stored && ref.dataset == dataset && ref.eventTime == Some(t);
        ReplacedCounts(stored, now, before, after, ref);
        assert multiset(stored)[ref] > 0;
        assert ref in now;
      }
      if t in NewTimes(before, after, dataset) {
        var ref :| ref in after && ref.dataset == dataset && Net(before, after, ref) > 0 && ref.eventTime == Some(t);
        ReplacedCounts(stored, now, before, after, ref);
        assert multiset(now)[ref] > 0;
        assert ref in now;
      }
    }
  }

  lemma SameTimes(stored: seq<Ref>, now: seq<Ref>, before: seq<Ref>, after: seq<Ref>, dataset: DatasetKey)
    requires Replaced(stored, now, before, after) && !Changed(dataset, before, after)
    ensures EventTimes(now, dataset) == EventTimes(stored, dataset)
  {
    forall ref: Ref | ref.dataset == dataset ensures ref in now <==> ref in stored {
      ReplacedCounts(stored, now, before, after, ref);
      assert Net(before, after, ref) == 0;
      assert ref in now <==> multiset(now)[ref] > 0;
      assert ref in stored <==> multiset(stored)[ref] > 0;
    }
  }

  /** One ingest transaction, as far as the aggregate is concerned. */
  datatype Transaction = Transaction(stored: seq<Ref>, now: seq<Ref>, before: seq<Ref>, after: seq<Ref>, deltas: seq<Delta>)
  {
    ghost predicate Valid() {
      Replaced(stored, now, before, after) && AreDeltas(deltas, before, after)
    }
  }

  lemma UnchangedDataset(t: Transaction, dataset: DatasetKey, members0: Members, members1: Members, kind: MemberKind)
    requires t.Valid() && !Lists(t.deltas, dataset)
    requires MembersConsistent(t.stored, members0) && MembersConsistent(t.now, members1)
    ensures SameTotals(dataset, t.stored, t.now)
    ensures EventTimes(t.now, dataset) == EventTimes(t.stored, dataset)
    ensures MemberRows(members1, dataset, kind) == MemberRows(members0, dataset, kind)
  {
    assert SameTotals(dataset, t.before, t.after);
    forall m ensures Total(t.now, dataset, m) == Total(t.stored, dataset, m) {
      ReplacedTotals(t.stored, t.now, t.before, t.after, dataset, m);
    }
    SameTimes(t.stored, t.now, t.before, t.after, dataset);
    forall r: MemberRef | r.dataset == dataset ensures r in members1 <==> r in members0 {
      assert RefCount(members1, r) == RefCount(members0, r);
    }
  }

  /** The aggregate of a dataset that is not listed stays as it is. */
  lemma UnlistedStays(t: Transaction, dataset: DatasetKey, datasets0: map<DatasetKey, Aggregate>, members0: Members,
                      datasets1: map<DatasetKey, Aggregate>, members1: Members)
    requires t.Valid() && !Lists(t.deltas, dataset)
    requires Consistent(t.stored, datasets0, members0) && Consistent(t.now, datasets1, members1)
    ensures SameDataset(datasets0, members0, datasets1, members1, dataset)
  {
    UnchangedDataset(t, dataset, members0, members1, InputTask);
    UnchangedDataset(t, dataset, members0, members1, OutputTask);
    assert Total(t.now, dataset, References) == Total(t.stored, dataset, References);
    assert Total(t.now, dataset, ColumnLineageReferences) == Total(t.stored, dataset, ColumnLineageReferences);
    if dataset in datasets0 {
      assert RowConsistent(t.stored, members0, dataset, datasets0[dataset]) && RowConsistent(t.now, members1, dataset, datasets1[dataset]);
    }
    forall r: MemberRef | r.dataset == dataset ensures RefCount(members0, r) == RefCount(members1, r) {
      assert Total(t.now, dataset, Member(r.member)) == Total(t.stored, dataset, Member(r.member));
    }
  }

  /** The listed datasets are those whose stored references changed. */
  lemma ListedAreChanged(t: Transaction, dataset: DatasetKey)
    requires t.Valid()
    ensures Lists(t.deltas, dataset) <==> Changed(dataset, t.stored, t.now)
  {
    forall ref: Ref ensures Net(t.stored, t.now, ref) == Net(t.before, t.after, ref) {
      ReplacedCounts(t.stored, t.now, t.before, t.after, ref);
    }
  }

  lemma NothingChanged(stored: seq<Ref>, now: seq<Ref>, before: seq<Ref>, after: seq<Ref>,
                       datasets: map<DatasetKey, Aggregate>, members: Members)
    requires Replaced(stored, now, before, after) && AreDeltas([], before, after)
    requires Consistent(stored, datasets, members)
    ensures Consistent(now, datasets, members)
  {
    var t := Transaction(stored, now, before, after, []);
    forall r: MemberRef ensures RefCount(members, r) == Total(now, r.dataset, Member(r.member)) {
      MemberChangeIsNet(stored, now, before, after, [], r);
    }
    forall d: DatasetKey
      ensures Total(now, d, References) == Total(stored, d, References)
      ensures Total(now, d, ColumnLineageReferences) == Total(stored, d, ColumnLineageReferences)
      ensures EventTimes(now, d) == EventTimes(stored, d)
    {
      UnchangedDataset(t, d, members, members, InputTask);
    }
  }

  lemma Applicable(t: Transaction, members: Members)
    requires t.Valid() && MembersConsistent(t.stored, members)
    ensures forall i, key | 0 <= i < |t.deltas| && key in t.deltas[i].members :: t.deltas[i].members[key] != 0
    ensures forall r: MemberRef :: RefCount(members, r) + MemberChange(t.deltas, r) == Total(t.now, r.dataset, Member(r.member))
  {
    assert forall i | 0 <= i < |t.deltas| :: IsDelta(t.deltas[i], t.before, t.after);
    forall r: MemberRef ensures RefCount(members, r) + MemberChange(t.deltas, r) == Total(t.now, r.dataset, Member(r.member)) {
      MemberChangeIsNet(t.stored, t.now, t.before, t.after, t.deltas, r);
    }
  }

  /** One listed dataset after the transaction: gone with its last reference, or exact. */
  lemma AppliedRow(t: Transaction, i: nat, datasets0: map<DatasetKey, Aggregate>, members0: Members,
                   state: Aggregate, members1: Members, jobs: Jobs)
    requires t.Valid() && i < |t.deltas|
    requires Consistent(t.stored, datasets0, members0) && MembersConsistent(t.now, members1)
    requires JobsFollow(map[], jobs, members0, members1)
    requires state == (if t.deltas[i].dataset in datasets0 then datasets0[t.deltas[i].dataset] else EMPTY_AGGREGATE)
    ensures Empties(t.deltas[i], state) <==> Total(t.now, t.deltas[i].dataset, References) == 0
    ensures RowConsistent(t.now, members1, t.deltas[i].dataset,
              UpdatedRow(t.now, t.deltas[i].dataset, state, RowUpdateOf(t.deltas[i], state, jobs)))
  {
    var delta := t.deltas[i];
    var d := delta.dataset;
    if d !in datasets0 {
      NoReferencesNoTimes(t.stored, d);
      NoMembers(t.stored, members0, d, InputTask);
      NoMembers(t.stored, members0, d, OutputTask);
    }
    assert RowConsistent(t.stored, members0, d, state);
    assert IsDelta(delta, t.before, t.after);
    ReplacedTotals(t.stored, t.now, t.before, t.after, d, References);
    ReplacedTotals(t.stored, t.now, t.before, t.after, d, ColumnLineageReferences);
    assert JobChange(jobs, d, InputTask) == |MemberRows(members1, d, InputTask)| - |MemberRows(members0, d, InputTask)|;
    assert JobChange(jobs, d, OutputTask) == |MemberRows(members1, d, OutputTask)| - |MemberRows(members0, d, OutputTask)|;
    NewestEventTimeIsNewest(t.now, d);
    if !delta.removed {
      LastSeenMovesUp(t.stored, t.now, t.before, t.after, d, state.lastSeen, delta.lastSeen);
    }
  }

  /** The member rows that cascade with an emptied dataset were already gone. */
  lemma NothingCascades(t: Transaction, states: Datasets, members: Members)
    requires MembersConsistent(t.now, members)
    requires forall i | 0 <= i < |t.deltas| && Empties(t.deltas[i], RowOrEmpty(states, t.deltas[i].dataset)) ::
               Total(t.now, t.deltas[i].dataset, References) == 0
    ensures Cascade(members, t.deltas, states) == members
  {
    forall r | r in members ensures Total(t.now, r.dataset, References) > 0 {
      TotalAtMostReferences(t.now, r.dataset, Member(r.member));
      assert RefCount(members, r) > 0;
    }
    CascadeTakesNothing(members, t.deltas, states);
  }

  /** A listed dataset ends with exact counters, or with no row when its last reference went away. */
  lemma ListedRow(t: Transaction, i: nat, datasets: Datasets, members0: Members, members1: Members, jobs: Jobs)
    requires t.Valid() && Consistent(t.stored, datasets, members0) && i < |t.deltas|
    requires MembersConsistent(t.now, members1) && JobsFollow(map[], jobs, members0, members1)
    ensures var states := LockedStates(datasets, t.deltas);
            var after, d := RewriteRows(t.now, datasets + states, t.deltas, states, jobs), t.deltas[i].dataset;
            && (Empties(t.deltas[i], RowOrEmpty(states, d)) <==> Total(t.now, d, References) == 0)
            && (d in after <==> Total(t.now, d, References) > 0)
            && (d in after ==> RowConsistent(t.now, members1, d, after[d]))
  {
    var states, d := LockedStates(datasets, t.deltas), t.deltas[i].dataset;
    LockedStatesAt(datasets, t.deltas);
    assert Lists(t.deltas, d);
    AppliedRow(t, i, datasets, members0, RowOrEmpty(datasets, d), members1, jobs);
    RewriteRowsListed(t.now, datasets + states, t.deltas, states, jobs, i);
  }

  lemma UnlistedRow(t: Transaction, d: DatasetKey, datasets: Datasets, members0: Members, members1: Members, jobs: Jobs)
    requires t.Valid() && Consistent(t.stored, datasets, members0) && !Lists(t.deltas, d)
    requires MembersConsistent(t.now, members1)
    ensures var states := LockedStates(datasets, t.deltas);
            var after := RewriteRows(t.now, datasets + states, t.deltas, states, jobs);
            && (d in after <==> Total(t.now, d, References) > 0)
            && (d in after ==> RowConsistent(t.now, members1, d, after[d]))
  {
    var states := LockedStates(datasets, t.deltas);
    LockedStatesAt(datasets, t.deltas);
    RewriteRowsUnlisted(t.now, datasets + states, t.deltas, states, jobs, d);
    UnchangedDataset(t, d, members0, members1, InputTask);
    UnchangedDataset(t, d, members0, members1, OutputTask);
    assert Total(t.now, d, References) == Total(t.stored, d, References);
    assert Total(t.now, d, ColumnLineageReferences) == Total(t.stored, d, ColumnLineageReferences);
  }

  /** Main step: locking, moving the members and rewriting the rows restores the invariant. */
  lemma AppliedIsConsistent(t: Transaction, datasets: Datasets, members0: Members, members1: Members, jobs: Jobs)
    requires t.Valid() && Consistent(t.stored, datasets, members0)
    requires MembersConsistent(t.now, members1) && JobsFollow(map[], jobs, members0, members1)
    ensures var states := LockedStates(datasets, t.deltas);
            Consistent(t.now, RewriteRows(t.now, datasets + states, t.deltas, states, jobs), Cascade(members1, t.deltas, states))
  {
    var states := LockedStates(datasets, t.deltas);
    forall i | 0 <= i < |t.deltas| && Empties(t.deltas[i], RowOrEmpty(states, t.deltas[i].dataset))
      ensures Total(t.now, t.deltas[i].dataset, References) == 0
    {
      ListedRow(t, i, datasets, members0, members1, jobs);
    }
    NothingCascades(t, states, members1);
    var after := RewriteRows(t.now, datasets + states, t.deltas, states, jobs);
    forall d
      ensures d in after <==> Total(t.now, d, References) > 0
      ensures d in after ==> RowConsistent(t.now, members1, d, after[d])
    {
      if Lists(t.deltas, d) {
        var i :| 0 <= i < |t.deltas| && t.deltas[i].dataset == d;
        ListedRow(t, i, datasets, members0, members1, jobs);
      } else {
        UnlistedRow(t, d, datasets, members0, members1, jobs);
      }
    }
  }
}
