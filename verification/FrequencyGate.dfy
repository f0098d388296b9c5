/**
 The frequency gate of scheduled quality checks as a scheduler: a slot runs unless a completed
 scheduled execution is due less than one tier period before it. Times are seconds.
 */
module FrequencyGate {
  import opened Ordering

  datatype Tier = UNSPECIFIED | HOURLY | DAILY | WEEKLY | UNKNOWN

  datatype Trigger = SCHEDULED | MANUAL

  datatype ExecutionState = RUNNING | COMPLETED | FAILED

  /** An execution of one rule on one target; a manual one carries no slot. */
  datatype Execution = Execution(trigger: Trigger, state: ExecutionState, scheduledAt: Option<int>)

  function TierPeriod(tier: Tier): nat {
    match tier
    case HOURLY => 3600
    case DAILY => 24 * 3600
    case WEEKLY => 7 * 24 * 3600
    case _ => 0
  }

  predicate Blocks(e: Execution, slot: int, period: nat) {
    e.trigger == SCHEDULED && e.state == COMPLETED && e.scheduledAt.Some? && e.scheduledAt.value > slot - period
  }

  /** The NOT EXISTS predicate. */
  predicate GateOpen(executions: seq<Execution>, slot: int, period: nat) {
    forall e | e in executions :: !Blocks(e, slot, period)
  }

  function Completed(slots: seq<int>): seq<Execution> {
    seq(|slots|, i requires 0 <= i < |slots| => Execution(SCHEDULED, COMPLETED, Some(slots[i])))
  }

  /** The slots that run when each admitted run completes before the next slot. */
  function Admitted(slots: seq<int>, period: nat): seq<int> {
    if slots == [] then []
    else
      var before, last := Admitted(slots[..|slots| - 1], period), slots[|slots| - 1];
      before + (if GateOpen(Completed(before), last, period) then [last] else [])
  }

  ghost predicate Increasing(slots: seq<int>) {
    forall i, j | 0 <= i < j < |slots| :: slots[i] < slots[j]
  }

  ghost predicate Spaced(slots: seq<int>, period: nat) {
    Increasing(slots) && forall i, j | 0 <= i < j < |slots| :: slots[j] - slots[i] >= period
  }

  /** The slots that run when other executions of the rule are stored as well, any number at each slot. */
  function AdmittedAmid(slots: seq<int>, period: nat, others: int -> seq<Execution>): seq<int> {
    if slots == [] then []
    else
      var before, last := AdmittedAmid(slots[..|slots| - 1], period, others), slots[|slots| - 1];
      before + (if GateOpen(Completed(before) + others(last), last, period) then [last] else [])
  }

  /** All are manual, or not completed, or without a slot. */
  ghost predicate NoneCounts(executions: seq<Execution>) {
    forall e | e in executions :: e.trigger != SCHEDULED || e.state != COMPLETED || e.scheduledAt.None?
  }

  lemma GateIgnores(executions: seq<Execution>, more: seq<Execution>, slot: int, period: nat)
    requires NoneCounts(more)
    ensures GateOpen(executions + more, slot, period) <==> GateOpen(executions, slot, period)
  {
    assert forall e | e in executions :: e in executions + more;
    assert forall e | e in executions + more :: e in executions || !Blocks(e, slot, period);
  }

  /** Manual, unfinished and failed executions change nothing about which slots run. */
  lemma {:induction false} OthersDoNotBlock(slots: seq<int>, period: nat, others: int -> seq<Execution>)
    requires forall slot :: NoneCounts(others(slot))
    ensures AdmittedAmid(slots, period, others) == Admitted(slots, period)
  {
    if slots != [] {
      var rest, last := slots[..|slots| - 1], slots[|slots| - 1];
      OthersDoNotBlock(rest, period, others);
      GateIgnores(Completed(Admitted(rest, period)), others(last), last, period);
    }
  }

  lemma GateOverSlots(before: seq<int>, slot: int, period: nat)
    ensures GateOpen(Completed(before), slot, period) <==> forall i | 0 <= i < |before| :: slot - before[i] >= period
  {
    var executions := Completed(before);
    if GateOpen(executions, slot, period) {
      forall i | 0 <= i < |before| ensures slot - before[i] >= period {
        assert executions[i] in executions && !Blocks(executions[i], slot, period);
      }
    }
  }

  // ----- Spacing -----

  /** Admitted slots are at least one tier period apart, and are some of the slots, in order. */
  lemma {:induction false} AdmittedIsSpaced(slots: seq<int>, period: nat)
    requires Increasing(slots)
    ensures Spaced(Admitted(slots, period), period)
    ensures forall s | s in Admitted(slots, period) :: s in slots
  {
    if slots != [] {
      var rest, last := slots[..|slots| - 1], slots[|slots| - 1];
      assert slots == rest + [last];
      AdmittedIsSpaced(rest, period);
      GateOverSlots(Admitted(rest, period), last, period);
      forall i | 0 <= i < |Admitted(rest, period)| ensures Admitted(rest, period)[i] < last {
        assert Admitted(rest, period)[i] in rest;
      }
    }
  }

  // ----- Optimality -----

  lemma {:induction false} AdmittedPrefix(slots: seq<int>, n: nat, period: nat)
    requires n <= |slots|
    ensures Admitted(slots[..n], period) <= Admitted(slots, period)
    decreases |slots| - n
  {
    if n == |slots| {
      assert slots[..n] == slots;
    } else {
      assert slots[..n + 1][..n] == slots[..n];
      AdmittedPrefix(slots, n + 1, period);
    }
  }

  lemma AdmittedAscend(slots: seq<int>, period: nat, i: nat, j: nat)
    requires Increasing(slots) && i <= j < |Admitted(slots, period)|
    ensures Admitted(slots, period)[i] <= Admitted(slots, period)[j]
  {
    AdmittedIsSpaced(slots, period);
  }

  lemma AdmittedBefore(slots: seq<int>, p: nat, k: nat, period: nat)
    requires Increasing(slots) && p < |slots| && k < |Admitted(slots[..p], period)|
    ensures k < |Admitted(slots, period)| && Admitted(slots, period)[k] <= slots[p]
  {
    var before := Admitted(slots[..p], period);
    AdmittedPrefix(slots, p, period);
    AdmittedIsSpaced(slots[..p], period);
    assert before[k] in before;
  }

  /** If no admitted slot is nearer than a period before slot `p`, the gate is open there. */
  lemma OpenBehind(slots: seq<int>, p: nat, k: nat, period: nat)
    requires Increasing(slots) && p < |slots| && |Admitted(slots[..p], period)| <= k <= |Admitted(slots, period)|
    requires k > 0 ==> slots[p] - Admitted(slots, period)[k - 1] >= period
    ensures GateOpen(Completed(Admitted(slots[..p], period)), slots[p], period)
  {
    var before := Admitted(slots[..p], period);
    AdmittedPrefix(slots, p, period);
    forall i | 0 <= i < |before| ensures slots[p] - before[i] >= period {
      AdmittedAscend(slots, period, i, k - 1);
    }
    GateOverSlots(before, slots[p], period);
  }

  /** If the first `k` admitted slots leave slot `p` free, one more is admitted by then. */
  lemma NextAdmitted(slots: seq<int>, p: nat, k: nat, period: nat)
    requires Increasing(slots) && p < |slots| && k <= |Admitted(slots, period)|
    requires k > 0 ==> slots[p] - Admitted(slots, period)[k - 1] >= period && Admitted(slots, period)[k - 1] < slots[p]
    ensures k < |Admitted(slots, period)| && Admitted(slots, period)[k] <= slots[p]
  {
    var n := |Admitted(slots[..p], period)|;
    if n > k {
      AdmittedBefore(slots, p, k, period);
    } else {
      OpenBehind(slots, p, k, period);
      AdmittedAt(slots, p, period);
      if n < k { AdmittedAscend(slots, period, n, k - 1); }
    }
  }

  /** Slot `p` is decided by the slots admitted before it, and the decision stands. */
  lemma AdmittedAt(slots: seq<int>, p: nat, period: nat)
    requires p < |slots|
    ensures var before := Admitted(slots[..p], period);
            && before <= Admitted(slots, period)
            && (GateOpen(Completed(before), slots[p], period) ==>
                  |before| < |Admitted(slots, period)| && Admitted(slots, period)[|before|] == slots[p])
  {
    AdmittedPrefix(slots, p, period);
    AdmittedPrefix(slots, p + 1, period);
    assert slots[..p + 1][..p] == slots[..p];
  }

  /** The gate stays ahead: its `k`-th slot is no later than that of any other spaced choice. */
  lemma {:induction false} GateStaysAhead(slots: seq<int>, chosen: seq<int>, k: nat, period: nat)
    requires Increasing(slots) && Spaced(chosen, period) && k < |chosen|
    requires forall s | s in chosen :: s in slots
    ensures k < |Admitted(slots, period)| && Admitted(slots, period)[k] <= chosen[k]
  {
    assert chosen[k] in chosen;
    var p :| 0 <= p < |slots| && slots[p] == chosen[k];
    if k > 0 { GateStaysAhead(slots, chosen, k - 1, period); }
    NextAdmitted(slots, p, k, period);
  }

  /** Main result: no other choice of slots that far apart runs more often. */
  lemma GateIsOptimal(slots: seq<int>, chosen: seq<int>, period: nat)
    requires Increasing(slots) && Spaced(chosen, period) && forall s | s in chosen :: s in slots
    ensures |chosen| <= |Admitted(slots, period)|
  {
    if chosen != [] { GateStaysAhead(slots, chosen, |chosen| - 1, period); }
  }

  // ----- Even slots -----

  function EvenSlots(start: int, cadence: nat, n: nat): seq<int> {
    seq(n, i requires 0 <= i < n => start + i * cadence)
  }

  /** Every how many slots of the cadence a tier runs. */
  function Every(period: nat, cadence: nat): (k: nat)
    requires cadence > 0
    ensures k >= 1
  {
    if period == 0 then 1 else (period + cadence - 1) / cadence
  }

  /** The slots whose position is a multiple of `k`. */
  function EveryKth(start: int, cadence: nat, k: nat, n: nat): seq<int>
    requires k >= 1
  {
    if n == 0 then []
    else EveryKth(start, cadence, k, n - 1) + (if (n - 1) % k == 0 then [start + (n - 1) * cadence] else [])
  }

  lemma EveryCovers(period: nat, cadence: nat, m: nat)
    requires cadence > 0 && m >= 1
    ensures m * cadence >= period <==> m >= Every(period, cadence)
  {
    var k := Every(period, cadence);
    if period > 0 {
      assert k * cadence >= period && (k - 1) * cadence < period by {
        var q, r := (period + cadence - 1) / cadence, (period + cadence - 1) % cadence;
        assert period + cadence - 1 == q * cadence + r;
        assert (q - 1) * cadence == q * cadence - cadence;
      }
      if m >= k { Monotone(k, m, cadence); } else { Monotone(m, k - 1, cadence); }
    }
  }

  lemma Monotone(a: nat, b: nat, c: nat)
    requires a <= b
    ensures a * c <= b * c
  {
    assert b * c == a * c + (b - a) * c;
  }

  lemma MultipleBounds(d: int, k: nat)
    requires k >= 1
    ensures d >= 1 ==> d * k >= k
    ensures d <= -1 ==> d * k + k <= 0
  {
  }

  lemma RemainderIs(x: nat, k: nat, q: nat, r: nat)
    requires k >= 1 && r < k && x == q * k + r
    ensures x % k == r
  {
    var p, t := x / k, x % k;
    assert x == p * k + t;
    assert (p - q) * k == r - t;
    MultipleBounds(p - q, k);
  }

  lemma NextRemainder(x: nat, k: nat)
    requires k >= 1
    ensures (x + 1) % k == if x % k + 1 == k then 0 else x % k + 1
  {
    var q, r := x / k, x % k;
    assert x == q * k + r;
    if r + 1 == k {
      assert (q + 1) * k == q * k + k;
      RemainderIs(x + 1, k, q + 1, 0);
    } else {
      RemainderIs(x + 1, k, q, r + 1);
    }
  }

  /** The last of every k-th slot before the n-th lies `(n - 1) % k + 1` slots back. */
  lemma {:induction false} LastOfEveryKth(start: int, cadence: nat, k: nat, n: nat)
    requires k >= 1 && n >= 1
    ensures var before := EveryKth(start, cadence, k, n);
            && |before| >= 1
            && before[|before| - 1] == start + n * cadence - ((n - 1) % k + 1) * cadence
            && forall i | 0 <= i < |before| :: before[i] <= before[|before| - 1]
  {
    if n > 1 {
      LastOfEveryKth(start, cadence, k, n - 1);
      NextRemainder(n - 2, k);
      var before := EveryKth(start, cadence, k, n - 1);
      var m := (n - 2) % k + 1;
      assert m * cadence >= 0 && (m + 1) * cadence == m * cadence + cadence && n * cadence == (n - 1) * cadence + cadence;
    } else {
      RemainderIs(0, k, 0, 0);
    }
  }

  /** Main result: on slots of an even cadence the gate admits exactly every k-th, k the rounded-up ratio. */
  lemma {:induction false} EvenSlotsAdmitted(start: int, cadence: nat, n: nat, period: nat)
    requires cadence > 0
    ensures Admitted(EvenSlots(start, cadence, n), period) == EveryKth(start, cadence, Every(period, cadence), n)
  {
    var k := Every(period, cadence);
    if n == 0 {
      assert EveryKth(start, cadence, k, 0) == [];
    } else {
      EvenSlotsAdmitted(start, cadence, n - 1, period);
      assert EvenSlots(start, cadence, n)[..n - 1] == EvenSlots(start, cadence, n - 1);
      var before, last := EveryKth(start, cadence, k, n - 1), start + (n - 1) * cadence;
      GateOverSlots(before, last, period);
      if n == 1 {
        RemainderIs(0, k, 0, 0);
      } else {
        EvenStep(start, cadence, k, n - 1, period);
      }
    }
  }

  lemma EvenStep(start: int, cadence: nat, k: nat, n: nat, period: nat)
    requires cadence > 0 && n >= 1 && k == Every(period, cadence)
    ensures var before, slot := EveryKth(start, cadence, k, n), start + n * cadence;
            (forall i | 0 <= i < |before| :: slot - before[i] >= period) <==> n % k == 0
  {
    var before := EveryKth(start, cadence, k, n);
    var m := (n - 1) % k + 1;
    LastOfEveryKth(start, cadence, k, n);
    NextRemainder(n - 1, k);
    EveryCovers(period, cadence, m);
    assert start + n * cadence - before[|before| - 1] == m * cadence;
  }

  /** A tier equal to the target's cadence, or none, runs in every slot. */
  lemma EqualCadenceRunsAlways(start: int, cadence: nat, n: nat, period: nat)
    requires cadence > 0 && (period == cadence || period == 0)
    ensures Admitted(EvenSlots(start, cadence, n), period) == EvenSlots(start, cadence, n)
  {
    EvenSlotsAdmitted(start, cadence, n, period);
    EveryCovers(period, cadence, 1);
    EverySlot(start, cadence, n);
  }

  lemma {:induction false} EverySlot(start: int, cadence: nat, n: nat)
    ensures EveryKth(start, cadence, 1, n) == EvenSlots(start, cadence, n)
  {
    if n > 0 {
      EverySlot(start, cadence, n - 1);
      assert EvenSlots(start, cadence, n) == EvenSlots(start, cadence, n - 1) + [start + (n - 1) * cadence];
    }
  }

  lemma EveryOfMultiple(cadence: nat, k: nat)
    requires cadence > 0 && k >= 1
    ensures Every(k * cadence, cadence) == k
  {
    var x := k * cadence + (cadence - 1);
    var p := x / cadence;
    RemainderIs(x, cadence, k, cadence - 1);
    assert x == p * cadence + (cadence - 1);
    assert (p - k) * cadence == 0;
    MultipleBounds(p - k, cadence);
    assert k * cadence >= cadence by { Monotone(1, k, cadence); }
  }

  /** A tier whose period is `k` cadences runs in every `k`-th slot. */
  lemma MultipleOfCadence(tier: Tier, start: int, cadence: nat, k: nat, n: nat)
    requires cadence > 0 && k >= 1 && TierPeriod(tier) == k * cadence
    ensures Admitted(EvenSlots(start, cadence, n), TierPeriod(tier)) == EveryKth(start, cadence, k, n)
  {
    EveryOfMultiple(cadence, k);
    EvenSlotsAdmitted(start, cadence, n, TierPeriod(tier));
  }

  /** The tiers on the cadences of the targets: hourly and daily slots. */
  lemma TiersOnSlots(start: int, n: nat)
    ensures Admitted(EvenSlots(start, 3600, n), TierPeriod(HOURLY)) == EvenSlots(start, 3600, n)
    ensures Admitted(EvenSlots(start, 3600, n), TierPeriod(DAILY)) == EveryKth(start, 3600, 24, n)
    ensures Admitted(EvenSlots(start, 3600, n), TierPeriod(WEEKLY)) == EveryKth(start, 3600, 168, n)
    ensures Admitted(EvenSlots(start, 86400, n), TierPeriod(DAILY)) == EvenSlots(start, 86400, n)
    ensures Admitted(EvenSlots(start, 86400, n), TierPeriod(WEEKLY)) == EveryKth(start, 86400, 7, n)
  {
    EqualCadenceRunsAlways(start, 3600, n, TierPeriod(HOURLY));
    EqualCadenceRunsAlways(start, 86400, n, TierPeriod(DAILY));
    MultipleOfCadence(DAILY, start, 3600, 24, n);
    MultipleOfCadence(WEEKLY, start, 3600, 168, n);
    MultipleOfCadence(WEEKLY, start, 86400, 7, n);
  }

  /** A tier that is not one of the three holds nothing back. */
  lemma OtherTiersRunAlways(tier: Tier, start: int, cadence: nat, n: nat)
    requires cadence > 0 && (tier == UNSPECIFIED || tier == UNKNOWN)
    ensures Admitted(EvenSlots(start, cadence, n), TierPeriod(tier)) == EvenSlots(start, cadence, n)
  {
    EqualCadenceRunsAlways(start, cadence, n, TierPeriod(tier));
  }

  /** The i-th of every k-th slot is slot `i * k`, as long as there are that many. */
  lemma {:induction false} EveryKthAt(start: int, cadence: nat, k: nat, n: nat)
    requires k >= 1
    ensures forall i | 0 <= i < |EveryKth(start, cadence, k, n)| :: EveryKth(start, cadence, k, n)[i] == start + (i * k) * cadence
    ensures |EveryKth(start, cadence, k, n)| == (n + k - 1) / k
  {
    if n == 0 {
      Quotient(k - 1, k, 0, k - 1);
    } else {
      var q, r := (n - 1) / k, (n - 1) % k;
      EveryKthAt(start, cadence, k, n - 1);
      assert n - 1 == q * k + r;
      if r == 0 {
        if k == 1 { Quotient(n - 2 + k, k, n - 1, 0); Quotient(n - 1 + k, k, n, 0); }
        else { Quotient(n - 2 + k, k, q, k - 1); assert (q + 1) * k == q * k + k; Quotient(n - 1 + k, k, q + 1, 0); }
      } else {
        assert (q + 1) * k == q * k + k;
        Quotient(n - 2 + k, k, q + 1, r - 1);
        Quotient(n - 1 + k, k, q + 1, r);
      }
    }
  }

  lemma Quotient(x: nat, k: nat, q: nat, r: nat)
    requires k >= 1 && r < k && x == q * k + r
    ensures x / k == q
  {
    RemainderIs(x, k, q, r);
    assert x == x / k * k + x % k;
    assert (x / k - q) * k == 0;
    MultipleBounds(x / k - q, k);
  }
}
