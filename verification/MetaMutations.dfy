/**
 What the meta registry's statements and loops do to the current rows and the history, and that each
 batch leaves exactly one open history row, with the same fingerprint, per current row.
 */
module MetaMutations {
  import opened Ordering
  import opened MetaHistory

  // ----- The history mutations of a batch -----

  ghost predicate DistinctKeys(creates: seq<Create>) {
    forall i, j | 0 <= i < j < |creates| :: creates[i].key != creates[j].key
  }

  /** The open rows found for the batch's keys. */
  ghost predicate FindsOpen(history: seq<History>, existing: map<MetaKey, History>, keys: set<MetaKey>) {
    && (forall key | key in existing :: key in keys && existing[key].key == key && existing[key] in history && Open(existing[key]))
    && (forall i | 0 <= i < |history| && Open(history[i]) && history[i].key in keys :: history[i].key in existing)
  }

  predicate Changes(existing: map<MetaKey, History>, create: Create) {
    create.key in existing && existing[create.key].metaHash != create.metaHash
  }

  /** The rows a batch opens: the new keys and those whose fingerprint changed. */
  function ToOpen(existing: map<MetaKey, History>, creates: seq<Create>): seq<Create> {
    if creates == [] then []
    else
      var last := creates[|creates| - 1];
      ToOpen(existing, creates[..|creates| - 1]) + (if last.key !in existing || Changes(existing, last) then [last] else [])
  }

  function ToClose(existing: map<MetaKey, History>, creates: seq<Create>): seq<History> {
    if creates == [] then []
    else
      var last := creates[|creates| - 1];
      ToClose(existing, creates[..|creates| - 1]) + (if Changes(existing, last) then [existing[last.key]] else [])
  }

  /** buildMetaRegistryHistoryMutations */
  method BuildHistoryMutations(existing: map<MetaKey, History>, creates: seq<Create>)
      returns (toClose: seq<History>, toOpen: seq<Create>)
    ensures toClose == ToClose(existing, creates) && toOpen == ToOpen(existing, creates)
  {
    toClose, toOpen := [], [];
    for i := 0 to |creates|
      invariant toClose == ToClose(existing, creates[..i]) && toOpen == ToOpen(existing, creates[..i])
    {
      var create := creates[i];
      assert creates[..i + 1][..i] == creates[..i] && creates[..i + 1][i] == create;
      if create.key !in existing {
        toOpen := toOpen + [create];
        continue;
      }
      if existing[create.key].metaHash == create.metaHash {
        continue;
      }
      toClose := toClose + [existing[create.key]];
      toOpen := toOpen + [create];
    }
    assert creates[..|creates|] == creates;
  }

  function Opened(create: Create, now: int): History {
    History(create.key, create.metadata, create.metaHash, now, None)
  }

  function OpenedAll(creates: seq<Create>, now: int): seq<History> {
    seq(|creates|, i requires 0 <= i < |creates| => Opened(creates[i], now))
  }

  /** The update that closes the open rows of the given keys. */
  function CloseOne(h: History, keys: set<MetaKey>, now: int): History {
    if h.key in keys && Open(h) then h.(validTo := Some(now)) else h
  }

  function CloseOpen(history: seq<History>, keys: set<MetaKey>, now: int): seq<History> {
    seq(|history|, i requires 0 <= i < |history| => CloseOne(history[i], keys, now))
  }

  function KeysOf(creates: seq<Create>): set<MetaKey> {
    set create | create in creates :: create.key
  }

  function HistoryKeys(list: seq<History>): set<MetaKey> {
    set h | h in list :: h.key
  }

  lemma {:induction false} ToOpenMembers(existing: map<MetaKey, History>, creates: seq<Create>, create: Create)
    ensures create in ToOpen(existing, creates) <==>
            create in creates && (create.key !in existing || Changes(existing, create))
  {
    if creates != [] {
      ToOpenMembers(existing, creates[..|creates| - 1], create);
      assert creates == creates[..|creates| - 1] + [creates[|creates| - 1]];
    }
  }

  lemma {:induction false} ToOpenDistinct(existing: map<MetaKey, History>, creates: seq<Create>)
    requires DistinctKeys(creates)
    ensures DistinctKeys(ToOpen(existing, creates))
  {
    if creates != [] {
      var rest, last := creates[..|creates| - 1], creates[|creates| - 1];
      ToOpenDistinct(existing, rest);
      forall c | c in ToOpen(existing, rest) ensures c.key != last.key {
        ToOpenMembers(existing, rest, c);
        var i :| 0 <= i < |rest| && rest[i] == c;
        assert creates[i].key != creates[|creates| - 1].key;
      }
    }
  }

  lemma {:induction false} ToCloseKeys(existing: map<MetaKey, History>, creates: seq<Create>, key: MetaKey)
    requires forall k | k in existing :: existing[k].key == k
    ensures key in HistoryKeys(ToClose(existing, creates)) <==>
            exists create :: create in creates && create.key == key && Changes(existing, create)
  {
    if creates != [] {
      var rest, last := creates[..|creates| - 1], creates[|creates| - 1];
      assert creates == rest + [last];
      ToCloseKeys(existing, rest, key);
      var earlier := ToClose(existing, rest);
      if Changes(existing, last) {
        assert HistoryKeys(earlier + [existing[last.key]]) == HistoryKeys(earlier) + {last.key};
      } else {
        assert earlier + [] == earlier;
      }
    }
  }

  // ----- The current rows -----

  /** The upsert: an existing row keeps its id, a new one gets the next. */
  function Upserted(rows: Snapshot, create: Create, nextId: nat): Snapshot {
    rows[create.key := Row(if create.key in rows then rows[create.key].id else nextId, create.metadata, create.metaHash)]
  }

  function UpsertedAll(rows: Snapshot, creates: seq<Create>, nextId: nat): Snapshot {
    if creates == [] then rows
    else Upserted(UpsertedAll(rows, creates[..|creates| - 1], nextId), creates[|creates| - 1], nextId + |creates| - 1)
  }

  lemma {:induction false} UpsertedAt(rows: Snapshot, creates: seq<Create>, nextId: nat, key: MetaKey)
    requires DistinctKeys(creates)
    ensures key !in KeysOf(creates) ==>
              (key in UpsertedAll(rows, creates, nextId) <==> key in rows) &&
              (key in rows ==> UpsertedAll(rows, creates, nextId)[key] == rows[key])
    ensures forall create | create in creates && create.key == key ::
              key in UpsertedAll(rows, creates, nextId) &&
              UpsertedAll(rows, creates, nextId)[key].metadata == create.metadata &&
              UpsertedAll(rows, creates, nextId)[key].metaHash == create.metaHash &&
              (key in rows ==> UpsertedAll(rows, creates, nextId)[key].id == rows[key].id)
  {
    if creates != [] {
      var rest, last := creates[..|creates| - 1], creates[|creates| - 1];
      assert creates == rest + [last];
      assert last in creates;
      UpsertedAt(rows, rest, nextId, key);
      forall create | create in rest ensures create.key != last.key && create in creates {
        var i :| 0 <= i < |rest| && rest[i] == create;
        assert creates[i].key != creates[|creates| - 1].key;
      }
      assert KeysOf(creates) == KeysOf(rest) + {last.key};
    }
  }

  /** The first `n` creates are upserted into `next`, and no key was named twice among them. */
  ghost predicate UpsertedSoFar(rows: Snapshot, creates: seq<Create>, nextId: nat, n: nat, next: Snapshot, touched: set<MetaKey>)
    requires n <= |creates|
  {
    && next == UpsertedAll(rows, creates[..n], nextId)
    && touched == KeysOf(creates[..n])
    && DistinctKeys(creates[..n])
  }

  lemma UpsertStep(rows: Snapshot, creates: seq<Create>, nextId: nat, n: nat, next: Snapshot, touched: set<MetaKey>)
    requires n < |creates| && UpsertedSoFar(rows, creates, nextId, n, next, touched)
    ensures creates[n].key !in touched ==>
              UpsertedSoFar(rows, creates, nextId, n + 1, Upserted(next, creates[n], nextId + n), touched + {creates[n].key})
    ensures creates[n].key in touched ==> !DistinctKeys(creates)
  {
    var before, longer := creates[..n], creates[..n + 1];
    assert longer == before + [creates[n]] && longer[..|longer| - 1] == before;
    assert forall j | 0 <= j < n :: before[j] in before;
    if creates[n].key in touched {
      var j :| 0 <= j < n && creates[j].key == creates[n].key;
    }
  }

  ghost predicate UniqueIds(rows: Snapshot, nextId: nat) {
    && (forall key | key in rows :: rows[key].id < nextId)
    && (forall a, b | a in rows && b in rows && a != b :: rows[a].id != rows[b].id)
  }

  lemma {:induction false} UpsertKeepsUniqueIds(rows: Snapshot, creates: seq<Create>, nextId: nat)
    requires UniqueIds(rows, nextId)
    ensures UniqueIds(UpsertedAll(rows, creates, nextId), nextId + |creates|)
  {
    if creates != [] {
      UpsertKeepsUniqueIds(rows, creates[..|creates| - 1], nextId);
    }
  }

  // ----- A create batch -----

  /** The history after a batch of creates. */
  function HistoryAfterCreate(history: seq<History>, existing: map<MetaKey, History>, creates: seq<Create>, now: int): seq<History> {
    CloseOpen(history, HistoryKeys(ToClose(existing, creates)), now) + OpenedAll(ToOpen(existing, creates), now)
  }

  lemma CreateEvolves(history: seq<History>, existing: map<MetaKey, History>, creates: seq<Create>, now: int, clock: int)
    requires Intervals(history, clock) && clock <= now
    requires DistinctKeys(creates) && FindsOpen(history, existing, KeysOf(creates))
    ensures Evolves(history, HistoryAfterCreate(history, existing, creates, now), now)
    ensures ClosedBeforeAdded(history, HistoryAfterCreate(history, existing, creates, now))
  {
    var after, toOpen := HistoryAfterCreate(history, existing, creates, now), ToOpen(existing, creates);
    ToOpenDistinct(existing, creates);
    forall i, j | 0 <= i < j && |history| <= j < |after| && after[i].key == after[j].key ensures !Open(after[i]) {
      var create := toOpen[j - |history|];
      assert after[j] == Opened(create, now) && create in toOpen;
      ToOpenMembers(existing, creates, create);
      assert create.key in KeysOf(creates);
      if i < |history| {
        assert after[i].key == history[i].key == create.key;
        if Open(history[i]) {
          assert create.key in existing;
          ToCloseKeys(existing, creates, create.key);
        }
      }
    }
  }

  /** What the open row of a key is after the batch. */
  lemma CreateOpenAgrees(history: seq<History>, existing: map<MetaKey, History>, creates: seq<Create>, now: int,
                         current: Snapshot, nextId: nat)
    requires OpenAgrees(history, current)
    requires DistinctKeys(creates) && FindsOpen(history, existing, KeysOf(creates))
    ensures OpenAgrees(HistoryAfterCreate(history, existing, creates, now), UpsertedAll(current, creates, nextId))
  {
    var after, next := HistoryAfterCreate(history, existing, creates, now), UpsertedAll(current, creates, nextId);
    forall i | 0 <= i < |after| && Open(after[i]) ensures after[i].key in next && next[after[i].key].metaHash == after[i].metaHash {
      CreateOpenRow(history, existing, creates, now, current, nextId, i);
    }
    forall key | key in next ensures HasOpen(after, key) {
      CreateHasOpen(history, existing, creates, now, current, nextId, key);
    }
  }

  lemma CreateOpenRow(history: seq<History>, existing: map<MetaKey, History>, creates: seq<Create>, now: int,
                      current: Snapshot, nextId: nat, i: nat)
    requires OpenAgrees(history, current)
    requires DistinctKeys(creates) && FindsOpen(history, existing, KeysOf(creates))
    requires i < |HistoryAfterCreate(history, existing, creates, now)| && Open(HistoryAfterCreate(history, existing, creates, now)[i])
    ensures var row, next := HistoryAfterCreate(history, existing, creates, now)[i], UpsertedAll(current, creates, nextId);
            row.key in next && next[row.key].metaHash == row.metaHash
  {
    var row, toOpen := HistoryAfterCreate(history, existing, creates, now)[i], ToOpen(existing, creates);
    UpsertedAt(current, creates, nextId, row.key);
    if i < |history| {
      assert row == history[i];
      if row.key in KeysOf(creates) {
        var create :| create in creates && create.key == row.key;
        ToCloseKeys(existing, creates, row.key);
        assert existing[row.key].metaHash == current[row.key].metaHash;
        assert !Changes(existing, create);
      }
    } else {
      var create := toOpen[i - |history|];
      ToOpenMembers(existing, creates, create);
      assert row == Opened(create, now);
    }
  }

  lemma CreateHasOpen(history: seq<History>, existing: map<MetaKey, History>, creates: seq<Create>, now: int,
                      current: Snapshot, nextId: nat, key: MetaKey)
    requires OpenAgrees(history, current)
    requires DistinctKeys(creates) && FindsOpen(history, existing, KeysOf(creates))
    requires key in UpsertedAll(current, creates, nextId)
    ensures HasOpen(HistoryAfterCreate(history, existing, creates, now), key)
  {
    var after, toOpen := HistoryAfterCreate(history, existing, creates, now), ToOpen(existing, creates);
    UpsertedAt(current, creates, nextId, key);
    if create :| create in creates && create.key == key && create in toOpen {
      var j :| 0 <= j < |toOpen| && toOpen[j] == create;
      assert after[|history| + j] == Opened(create, now);
    } else {
      if key in KeysOf(creates) {
        var create :| create in creates && create.key == key;
        ToOpenMembers(existing, creates, create);
        assert existing[key] in history;
      }
      ToCloseKeys(existing, creates, key);
      forall create | create in creates && create.key == key ensures !Changes(existing, create) {
        ToOpenMembers(existing, creates, create);
      }
      assert HasOpen(history, key);
      var i :| 0 <= i < |history| && history[i].key == key && Open(history[i]);
      assert after[i] == history[i];
    }
  }

  // ----- A delete batch -----

  /** A row named for deletion: its id and its key. */
  datatype Doomed = Doomed(id: nat, key: MetaKey)

  function DoomedKeys(list: seq<Doomed>): set<MetaKey> {
    set d | d in list :: d.key
  }

  function DoomedIds(list: seq<Doomed>): set<nat> {
    set d | d in list :: d.id
  }

  function WithoutIds(rows: Snapshot, ids: set<nat>): Snapshot {
    map key | key in rows && rows[key].id !in ids :: rows[key]
  }

  /** The ids and the keys of the list name the same current rows. */
  ghost predicate NamesSameRows(rows: Snapshot, list: seq<Doomed>) {
    forall key | key in rows :: key in DoomedKeys(list) <==> rows[key].id in DoomedIds(list)
  }

  lemma CloseEvolves(history: seq<History>, keys: set<MetaKey>, now: int)
    ensures Evolves(history, CloseOpen(history, keys, now), now)
    ensures ClosedBeforeAdded(history, CloseOpen(history, keys, now))
  {
  }

  /** Rows go by id and history closes by key: the two stay in step exactly when they name the same rows. */
  lemma DeleteKeepsAgreement(history: seq<History>, current: Snapshot, list: seq<Doomed>, now: int)
    requires OpenAgrees(history, current)
    ensures OpenAgrees(CloseOpen(history, DoomedKeys(list), now), WithoutIds(current, DoomedIds(list))) <==>
            NamesSameRows(current, list)
  {
    var after, rest := CloseOpen(history, DoomedKeys(list), now), WithoutIds(current, DoomedIds(list));
    if NamesSameRows(current, list) {
      forall key | key in rest ensures HasOpen(after, key) {
        assert HasOpen(history, key);
        var i :| 0 <= i < |history| && history[i].key == key && Open(history[i]);
        assert after[i] == history[i];
      }
    } else {
      var key :| key in current && !(key in DoomedKeys(list) <==> current[key].id in DoomedIds(list));
      assert HasOpen(history, key);
      var i :| 0 <= i < |history| && history[i].key == key && Open(history[i]);
      if key in DoomedKeys(list) {
        assert !HasOpen(after, key);
      } else {
        assert after[i] == history[i];
      }
    }
  }

  // ----- A statistics refresh -----

  /** The hash guard: only the row the caller read is rewritten. */
  predicate Refreshes(update: Create, key: MetaKey, row: Row) {
    update.key == key && update.metaHash == row.metaHash
  }

  ghost predicate RefreshedRow(updates: seq<Create>, key: MetaKey, before: Row, after: Row) {
    || ((forall u | u in updates :: !Refreshes(u, key, before)) && after == before)
    || (exists u :: u in updates && Refreshes(u, key, before) && after == before.(metadata := u.metadata))
  }

  ghost predicate Refreshed(updates: seq<Create>, before: Snapshot, after: Snapshot) {
    && before.Keys == after.Keys
    && forall key | key in before :: RefreshedRow(updates, key, before[key], after[key])
  }

  ghost function RefreshedKeys(updates: seq<Create>, rows: Snapshot): set<MetaKey> {
    set u | u in updates && u.key in rows && Refreshes(u, u.key, rows[u.key]) :: u.key
  }

  lemma RefreshKeepsAgreement(history: seq<History>, updates: seq<Create>, before: Snapshot, after: Snapshot, nextId: nat)
    requires Refreshed(updates, before, after) && OpenAgrees(history, before) && UniqueIds(before, nextId)
    ensures OpenAgrees(history, after) && UniqueIds(after, nextId)
  {
    forall key | key in before ensures after[key].id == before[key].id && after[key].metaHash == before[key].metaHash {
      assert RefreshedRow(updates, key, before[key], after[key]);
    }
  }

  // ----- A read as of a time -----

  function VisibleRows(history: seq<History>, t: int): seq<History> {
    if history == [] then []
    else
      var last := history[|history| - 1];
      VisibleRows(history[..|history| - 1], t) + (if Visible(last, t) then [last] else [])
  }

  lemma {:induction false} VisibleRowsAre(history: seq<History>, t: int, h: History)
    ensures h in VisibleRows(history, t) <==> h in history && Visible(h, t)
  {
    if history != [] {
      VisibleRowsAre(history[..|history| - 1], t, h);
      assert history == history[..|history| - 1] + [history[|history| - 1]];
    }
  }

  lemma {:induction false} VisibleRowsDistinct(history: seq<History>, clock: int, t: int)
    requires Intervals(history, clock)
    ensures forall i, j | 0 <= i < j < |VisibleRows(history, t)| :: VisibleRows(history, t)[i].key != VisibleRows(history, t)[j].key
  {
    if history != [] {
      var n := |history| - 1;
      VisibleRowsDistinct(history[..n], clock, t);
      if Visible(history[n], t) {
        forall h | h in VisibleRows(history[..n], t) ensures h.key != history[n].key {
          VisibleRowsAre(history[..n], t, h);
          var i :| 0 <= i < n && history[i] == h;
          VisibleOnce(history, clock, i, n, t);
        }
      }
    }
  }
}
