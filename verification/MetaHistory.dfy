/**
 The validity intervals of the meta registry: how one batch changes them, and why a read as of any
 time finds the snapshot of the last batch at or before it.
 */
module MetaHistory {
  import opened Ordering
  import opened ProtoMessage

  datatype MetaKey = MetaKey(guid: string, objectType: int)

  /** A current row. */
  datatype Row = Row(id: nat, metadata: Message, metaHash: Bytes)

  type Snapshot = map<MetaKey, Row>

  /** What was observed at a time: its fingerprint, valid from then until it was replaced. */
  datatype History = History(key: MetaKey, metadata: Message, metaHash: Bytes, validFrom: int, validTo: Option<int>)

  datatype Create = Create(key: MetaKey, metadata: Message, metaHash: Bytes)

  /** The snapshot after a batch observed at a time. */
  datatype Observed = Observed(at: int, rows: Snapshot)

  predicate Open(h: History) {
    h.validTo.None?
  }

  /** The as-of predicate of a history read. */
  predicate Visible(h: History, t: int) {
    h.validFrom <= t && (h.validTo.None? || h.validTo.value > t)
  }

  // ----- Invariants -----

  ghost predicate Supersedes(earlier: History, later: History) {
    earlier.validTo.Some? && earlier.validTo.value <= later.validFrom
  }

  /** Per key, the intervals are ordered, disjoint and not in the future; only the last may be open. */
  ghost predicate Intervals(history: seq<History>, clock: int) {
    && (forall i | 0 <= i < |history| :: history[i].validFrom <= clock)
    && (forall i | 0 <= i < |history| && history[i].validTo.Some? ::
          history[i].validFrom <= history[i].validTo.value <= clock)
    && (forall i, j | 0 <= i < j < |history| && history[i].key == history[j].key :: Supersedes(history[i], history[j]))
  }

  ghost predicate HasOpen(history: seq<History>, key: MetaKey) {
    exists i :: 0 <= i < |history| && history[i].key == key && Open(history[i])
  }

  ghost predicate HasVisible(history: seq<History>, key: MetaKey, t: int) {
    exists i :: 0 <= i < |history| && history[i].key == key && Visible(history[i], t)
  }

  /** One open row per current row, with its fingerprint, and no other open row. */
  ghost predicate OpenAgrees(history: seq<History>, current: Snapshot) {
    && (forall i | 0 <= i < |history| && Open(history[i]) ::
          history[i].key in current && current[history[i].key].metaHash == history[i].metaHash)
    && (forall key | key in current :: HasOpen(history, key))
  }

  /** A read as of `t` shows `rows`. */
  ghost predicate ShowsAt(history: seq<History>, rows: Snapshot, t: int) {
    && (forall i | 0 <= i < |history| && Visible(history[i], t) ::
          history[i].key in rows && rows[history[i].key].metaHash == history[i].metaHash)
    && (forall key | key in rows :: HasVisible(history, key, t))
  }

  /** The snapshot of the last batch at or before `t`. */
  function SnapshotAt(log: seq<Observed>, t: int): Snapshot {
    if log == [] then map[]
    else if log[|log| - 1].at <= t then log[|log| - 1].rows
    else SnapshotAt(log[..|log| - 1], t)
  }

  ghost predicate Faithful(log: seq<Observed>, history: seq<History>) {
    forall t: int :: ShowsAt(history, SnapshotAt(log, t), t)
  }

  /** A key never has two visible rows. */
  lemma VisibleOnce(history: seq<History>, clock: int, i: nat, j: nat, t: int)
    requires Intervals(history, clock) && i < j < |history|
    requires Visible(history[i], t) && Visible(history[j], t)
    ensures history[i].key != history[j].key
  {
    assert history[i].key == history[j].key ==> Supersedes(history[i], history[j]);
  }

  // ----- One batch -----

  /** Some open rows are closed at `now`, and rows open since `now` are added. */
  ghost predicate Evolves(before: seq<History>, after: seq<History>, now: int) {
    && |before| <= |after|
    && (forall i | 0 <= i < |before| ::
          after[i] == before[i] || (Open(before[i]) && after[i] == before[i].(validTo := Some(now))))
    && (forall i | |before| <= i < |after| :: Open(after[i]) && after[i].validFrom == now)
  }

  /** A row added for a key finds the key's earlier rows closed. */
  ghost predicate ClosedBeforeAdded(before: seq<History>, after: seq<History>) {
    forall i, j | 0 <= i < j && |before| <= j < |after| && after[i].key == after[j].key :: !Open(after[i])
  }

  lemma IntervalsKept(before: seq<History>, after: seq<History>, clock: int, now: int)
    requires Intervals(before, clock) && clock <= now && Evolves(before, after, now) && ClosedBeforeAdded(before, after)
    ensures Intervals(after, now)
  {
    forall i, j | 0 <= i < j < |after| && after[i].key == after[j].key ensures Supersedes(after[i], after[j]) {
      if j < |before| {
        assert Supersedes(before[i], before[j]);
      } else {
        assert !Open(after[i]);
      }
    }
  }

  /** What was visible before the batch stays so for every earlier time. */
  lemma PastKept(before: seq<History>, after: seq<History>, now: int, rows: Snapshot, t: int)
    requires Evolves(before, after, now) && t < now && ShowsAt(before, rows, t)
    ensures ShowsAt(after, rows, t)
  {
    forall i | 0 <= i < |after| && Visible(after[i], t)
      ensures after[i].key in rows && rows[after[i].key].metaHash == after[i].metaHash
    {
      assert i < |before| && Visible(before[i], t);
    }
    forall key | key in rows ensures HasVisible(after, key, t) {
      assert HasVisible(before, key, t);
      var i :| 0 <= i < |before| && before[i].key == key && Visible(before[i], t);
      assert Visible(after[i], t);
    }
  }

  /** Time travel survives a batch observed no earlier than the last one. */
  lemma FaithfulStep(log: seq<Observed>, before: seq<History>, after: seq<History>, current: Snapshot, clock: int, now: int)
    requires Faithful(log, before) && Intervals(before, clock) && clock <= now
    requires Evolves(before, after, now) && ClosedBeforeAdded(before, after) && OpenAgrees(after, current)
    ensures Faithful(log + [Observed(now, current)], after)
    ensures Intervals(after, now)
  {
    IntervalsKept(before, after, clock, now);
    var longer := log + [Observed(now, current)];
    assert longer[..|longer| - 1] == log;
    forall t: int ensures ShowsAt(after, SnapshotAt(longer, t), t) {
      if t < now {
        PastKept(before, after, now, SnapshotAt(log, t), t);
      } else {
      }
    }
  }
}
