/**
 Row locks held to commit. Every writer locks tasks in GUID order, then datasets in
 (namespace, name) order, and touches a run's row only while holding the run's task.
 */
module LockOrder {
  import opened Ordering
  import opened DatasetReferences
  import opened DatasetDeltas

  datatype Resource = Task(guid: string) | Run(task: string, runId: string) | Dataset(key: DatasetKey)

  predicate ResourceLess(a: Resource, b: Resource) {
    match (a, b)
    case (Task(x), Task(y)) => StringLess(x, y)
    case (Task(_), Dataset(_)) => true
    case (Dataset(x), Dataset(y)) => KeyLess(x, y)
    case _ => false
  }

  lemma ResourceLessIsTotal(a: Resource, b: Resource, c: Resource)
    requires !a.Run? && !b.Run? && !c.Run?
    ensures ResourceLess(a, b) ==> !ResourceLess(b, a)
    ensures a == b || ResourceLess(a, b) || ResourceLess(b, a)
    ensures !ResourceLess(a, b) && !ResourceLess(b, c) ==> !ResourceLess(a, c)
  {
    if a.Task? && b.Task? { StringOrder(a.guid, b.guid, if c.Task? then c.guid else a.guid); }
    if a.Dataset? && b.Dataset? { KeyOrder(a.key, b.key, if c.Dataset? then c.key else a.key); }
  }

  ghost predicate RisingBesideRuns(locks: seq<Resource>) {
    forall i, j | 0 <= i < j < |locks| && !locks[i].Run? && !locks[j].Run? :: !ResourceLess(locks[j], locks[i])
  }

  /** The global lock order, with run rows guarded by their task. */
  ghost predicate Ordered(locks: seq<Resource>) {
    && RisingBesideRuns(locks)
    && (forall i | 0 <= i < |locks| && locks[i].Run? :: Task(locks[i].task) in locks[..i])
  }

  /** Transactions in flight: what each will lock, in order, and how far each has got. */
  datatype State = State(programs: seq<seq<Resource>>, position: seq<nat>) {
    predicate Valid() {
      |position| == |programs| && forall i | 0 <= i < |programs| :: position[i] <= |programs[i]|
    }

    /** Every transaction follows the lock order. */
    ghost predicate InOrder() {
      forall i | 0 <= i < |programs| :: Ordered(programs[i])
    }

    predicate Running(i: nat)
      requires |position| == |programs| && i < |programs|
    {
      position[i] < |programs[i]|
    }

    function Request(i: nat): Resource
      requires |position| == |programs| && i < |programs| && Running(i)
    {
      programs[i][position[i]]
    }

    /** A transaction holds what it locked until it commits, which it does after its last lock. */
    predicate Holds(i: nat, r: Resource)
      requires |position| == |programs| && i < |programs| && position[i] <= |programs[i]|
    {
      Running(i) && r in programs[i][..position[i]]
    }

    ghost predicate Exclusive()
      requires Valid()
    {
      forall i, j, r | 0 <= i < |programs| && 0 <= j < |programs| && Holds(i, r) && Holds(j, r) :: i == j
    }

    ghost predicate Blocked(i: nat)
      requires Valid() && i < |programs|
    {
      Running(i) && exists j :: 0 <= j < |programs| && j != i && Holds(j, programs[i][position[i]])
    }

    function Advance(i: nat): State
      requires |position| == |programs| && i < |programs|
    {
      this.(position := position[i := position[i] + 1])
    }

    ghost predicate Next(next: State)
      requires Valid()
    {
      exists i: nat :: i < |programs| && Running(i) && !Blocked(i) && next == Advance(i)
    }
  }

  lemma StepKeepsExclusive(s: State, next: State)
    requires s.Valid() && s.Exclusive() && s.Next(next)
    ensures next.Valid() && next.Exclusive() && next.programs == s.programs
  {
    var i: nat :| i < |s.programs| && s.Running(i) && !s.Blocked(i) && next == s.Advance(i);
    var r := s.programs[i][s.position[i]];
    assert s.programs[i][..s.position[i] + 1] == s.programs[i][..s.position[i]] + [r];
    forall a: nat, x | a < |s.programs| && next.Holds(a, x) ensures s.Holds(a, x) || (a == i && x == r) {
    }
  }

  /** A running transaction that waits for a run row would be waiting for itself. */
  lemma NotBlockedOnRun(s: State, i: nat, j: nat)
    requires s.Valid() && s.InOrder() && s.Exclusive() && i < |s.programs| && j < |s.programs|
    requires s.Running(i) && s.programs[i][s.position[i]].Run?
    requires s.Holds(j, s.programs[i][s.position[i]])
    ensures i == j
  {
    var r := s.programs[i][s.position[i]];
    var at :| 0 <= at < s.position[j] && s.programs[j][at] == r;
    assert Task(r.task) in s.programs[j][..at];
    assert s.programs[j][..at] <= s.programs[j][..s.position[j]];
    assert s.Holds(i, Task(r.task)) && s.Holds(j, Task(r.task));
  }

  ghost predicate AllRequestRows(s: State, among: set<nat>)
    requires s.Valid()
  {
    forall i | i in among :: i < |s.programs| && s.Running(i) && !s.Request(i).Run?
  }

  /** Among some waiting transactions, one waits for a resource no other of them waits beyond. */
  lemma {:induction false} GreatestRequest(s: State, among: set<nat>) returns (m: nat)
    requires s.Valid() && among != {} && AllRequestRows(s, among)
    ensures m in among && forall i | i in among :: !ResourceLess(s.Request(m), s.Request(i))
    decreases among
  {
    var one :| one in among;
    ResourceLessIsTotal(s.Request(one), s.Request(one), s.Request(one));
    m := one;
    if among != {one} {
      var best := GreatestRequest(s, among - {one});
      m := if ResourceLess(s.Request(best), s.Request(one)) then one else best;
      forall i | i in among ensures !ResourceLess(s.Request(m), s.Request(i)) {
        ResourceLessIsTotal(s.Request(one), s.Request(best), s.Request(i));
      }
    }
  }

  /** A holder of `wanted` that asks for nothing beyond it asks for what it already holds. */
  lemma HolderIsFree(s: State, holder: nat, wanted: Resource)
    requires s.Valid() && s.Exclusive() && holder < |s.programs| && s.Holds(holder, wanted)
    requires RisingBesideRuns(s.programs[holder]) && !wanted.Run? && !s.Request(holder).Run?
    requires !ResourceLess(wanted, s.Request(holder))
    ensures !s.Blocked(holder)
  {
    var at :| 0 <= at < s.position[holder] && s.programs[holder][at] == wanted;
    ResourceLessIsTotal(s.Request(holder), wanted, wanted);
    assert s.Holds(holder, s.Request(holder));
  }

  /** No deadlock: while any transaction is unfinished, some transaction can take its next lock. */
  lemma NeverDeadlocked(s: State) returns (i: nat)
    requires s.Valid() && s.InOrder() && s.Exclusive()
    requires exists i: nat :: i < |s.programs| && s.Running(i)
    ensures i < |s.programs| && s.Running(i) && !s.Blocked(i)
  {
    if r: nat :| r < |s.programs| && s.Running(r) && s.programs[r][s.position[r]].Run? {
      i := r;
      forall j: nat | j < |s.programs| && s.Holds(j, s.programs[r][s.position[r]]) ensures j == r {
        NotBlockedOnRun(s, r, j);
      }
    } else {
      var waiting := set k: nat | k < |s.programs| && s.Running(k);
      var k: nat :| k < |s.programs| && s.Running(k);
      assert k in waiting;
      i := GreatestRequest(s, waiting);
      if s.Blocked(i) {
        var holder :| 0 <= holder < |s.programs| && holder != i && s.Holds(holder, s.Request(i));
        HolderIsFree(s, holder, s.Request(i));
        i := holder;
      }
    }
  }

  ghost predicate StepAt(states: seq<State>, k: nat)
    requires k < |states| - 1
  {
    states[k].Valid() && states[k].Next(states[k + 1])
  }

  /** Every interleaving from the start of a set of transactions keeps the locks exclusive and can go on. */
  ghost predicate Interleaving(states: seq<State>) {
    && states != [] && states[0].Valid()
    && (forall i | 0 <= i < |states[0].programs| :: states[0].position[i] == 0)
    && (forall k | 0 <= k < |states| - 1 :: StepAt(states, k))
  }

  lemma {:induction false} InterleavingKeepsExclusive(states: seq<State>, k: nat)
    requires Interleaving(states) && k < |states|
    ensures states[k].Valid() && states[k].Exclusive() && states[k].programs == states[0].programs
  {
    if k == 0 {
    } else {
      InterleavingKeepsExclusive(states, k - 1);
      assert StepAt(states, k - 1);
      StepKeepsExclusive(states[k - 1], states[k]);
    }
  }

  ghost predicate Unfinished(s: State)
    requires s.Valid()
  {
    exists i: nat :: i < |s.programs| && s.Running(i)
  }

  /** Some transaction is unfinished, and each that is waits for another. */
  ghost predicate Deadlocked(s: State) {
    s.Valid() && Unfinished(s) && forall i: nat | i < |s.programs| && s.Running(i) :: s.Blocked(i)
  }

  /** No reachable state of transactions that follow the order is a deadlock. */
  lemma InterleavingNeverStuck(states: seq<State>)
    requires Interleaving(states) && states[0].InOrder()
    ensures var s := states[|states| - 1];
            s.Valid() && !Deadlocked(s) && (Unfinished(s) ==> exists next :: s.Next(next))
  {
    InterleavingKeepsExclusive(states, |states| - 1);
    var s := states[|states| - 1];
    if Unfinished(s) {
      var i := NeverDeadlocked(s);
      assert s.Next(s.Advance(i));
    }
  }
}
