/** Poll deadlines of `modbus_collector.c`: 32-bit ticks that wrap, read as points of an unbounded time line. */
module Collector {
  import opened Bytes
  import opened Bits

  const WRAP := 0x1_0000_0000
  const HALF_RANGE := 0x8000_0000

  /** The tick counter at time `t`. */
  function Tick(t: nat): u32 {
    t % WRAP
  }

  /** `TickType_t` subtraction. */
  function TickMinus(a: u32, b: u32): u32 {
    (a - b) % WRAP
  }

  predicate IsReached(now: u32, deadline: u32) {
    TickMinus(now, deadline) < HALF_RANGE
  }

  predicate IsBefore(left: u32, right: u32) {
    left != right && TickMinus(right, left) < HALF_RANGE
  }

  /** `interval_to_ticks` at 1000 ticks a second: the product is taken in 32 bits. */
  function IntervalToTicks(ms: u32): (ticks: u32)
    ensures ticks >= 1
    ensures 1000 <= ms <= 3600000 ==> ticks == ms < HALF_RANGE
  {
    var product := Product(ms);
    if product / 1000 == 0 then 1 else product / 1000
  }

  /** `ms * 1000` in 32 bits; below the width nothing is lost. */
  function Product(ms: u32): (p: u32)
    ensures ms * 1000 < WRAP ==> p == ms * 1000
  {
    var p := ms * 1000;
    if p < WRAP then ModUnique(p, 0, p); p % WRAP else p % WRAP
  }

  lemma TickDifference(a: nat, b: nat)
    ensures TickMinus(Tick(a), Tick(b)) == (a - b) % WRAP
  {
    var q := a / WRAP - b / WRAP;
    assert a - b == (Tick(a) - Tick(b)) + q * WRAP;
    ModShift(Tick(a) - Tick(b), q);
  }

  lemma ModShift(x: int, q: int)
    ensures (x + q * WRAP) % WRAP == x % WRAP
  {
    var y := x + q * WRAP;
    assert y == (x / WRAP + q) * WRAP + x % WRAP;
    ModUnique(y, x / WRAP + q, x % WRAP);
  }

  lemma ModUnique(y: int, k: int, r: int)
    requires y == k * WRAP + r && 0 <= r < WRAP
    ensures y % WRAP == r
  {
    assert y / WRAP == k;
  }

  /** Within half the range, comparing wrapped ticks compares times. */
  lemma TicksCompare(a: nat, b: nat)
    requires -HALF_RANGE < a - b < HALF_RANGE
    ensures IsBefore(Tick(a), Tick(b)) <==> a < b
    ensures IsReached(Tick(a), Tick(b)) <==> b <= a
  {
    TickDifference(a, b);
    TickDifference(b, a);
    if a < b {
      assert (a - b) % WRAP == a - b + WRAP;
    }
  }

  // ---- deadlines as times

  /** The first of the earliest deadlines. */
  predicate IsEarliest(due: seq<nat>, i: nat) {
    i < |due| && forall j | 0 <= j < |due| :: due[i] <= due[j] && (j < i ==> due[i] < due[j])
  }

  predicate Close(due: seq<nat>) {
    forall i, j | 0 <= i < |due| && 0 <= j < |due| :: due[i] - due[j] < HALF_RANGE
  }

  function Advanced(deadline: nat, interval: nat, now: nat): nat
    requires interval >= 1 && deadline <= now
  {
    deadline + ((now - deadline) / interval + 1) * interval
  }

  /** The computation of `advance_deadline`, in 32 bits throughout. */
  function NextTick(deadline: u32, interval: nat, now: u32): u32
    requires interval >= 1
  {
    var elapsed := TickMinus(now, deadline);
    var periods := (elapsed / interval + 1) % WRAP;
    (deadline + periods * interval) % WRAP
  }

  /** The next deadline is strictly ahead, by at most one interval, and in step with the old one. */
  lemma AdvancedIsNext(deadline: nat, interval: nat, now: nat)
    requires interval >= 1 && deadline <= now
    ensures now < Advanced(deadline, interval, now) <= now + interval
    ensures (Advanced(deadline, interval, now) - deadline) % interval == 0
    ensures forall k: nat :: now < deadline + k * interval ==> Advanced(deadline, interval, now) <= deadline + k * interval
  {
    var periods := (now - deadline) / interval;
    var rest := (now - deadline) % interval;
    assert now - deadline == periods * interval + rest;
    assert (periods + 1) * interval == periods * interval + interval;
    MultipleIsMultiple(periods + 1, interval);
    forall k: nat | now < deadline + k * interval
      ensures Advanced(deadline, interval, now) <= deadline + k * interval
    {
      if k <= periods {
        MultiplesGrow(k, periods, interval);
      }
      MultiplesGrow(periods + 1, if k <= periods then periods + 1 else k, interval);
    }
  }

  lemma MultiplesGrow(a: nat, b: nat, m: nat)
    requires a <= b
    ensures a * m <= b * m
  {
  }

  lemma MultipleIsMultiple(k: nat, m: nat)
    requires m >= 1
    ensures (k * m) % m == 0
  {
    var q := (k * m) / m;
    assert (k - q) * m == (k * m) % m;
    AwayFromZero(k - q, m);
  }

  // ---- the task

  class Collector {
    const intervals: seq<u32>
    var nextDeadline: array<u32>
    ghost var due: seq<nat>

    ghost predicate Valid()
      reads this, nextDeadline
    {
      |intervals| == nextDeadline.Length == |due|
      && (forall i | 0 <= i < |intervals| :: 1 <= intervals[i] < HALF_RANGE)
      && forall i | 0 <= i < |due| :: nextDeadline[i] == Tick(due[i])
    }

    /** No deadline is more than its interval ahead of the clock. */
    ghost predicate Ahead(clock: nat)
      requires Valid()
      reads this, nextDeadline
    {
      forall i | 0 <= i < |due| :: due[i] <= clock + intervals[i]
    }

    /** No deadline is so late that, with any interval added, it reaches half the tick range. */
    ghost predicate OnTime(clock: nat)
      requires Valid()
      reads this, nextDeadline
    {
      forall i, j | 0 <= i < |due| && 0 <= j < |due| :: clock - due[i] + intervals[j] < HALF_RANGE
    }

    /** All points are due when the task starts. */
    constructor (ticks: seq<u32>, now: u32, ghost clock: nat)
      requires now == Tick(clock) && forall i | 0 <= i < |ticks| :: 1 <= ticks[i] < HALF_RANGE
      ensures Valid() && fresh(nextDeadline) && intervals == ticks && Ahead(clock) && OnTime(clock)
      ensures due == seq(|ticks|, i => clock)
    {
      intervals := ticks;
      nextDeadline := new u32[|ticks|](i => now);
      due := seq(|ticks|, i => clock);
    }

    /** `select_earliest_point` */
    method SelectEarliest() returns (selected: nat)
      requires Valid() && |due| > 0 && Close(due)
      ensures IsEarliest(due, selected)
    {
      selected := 0;
      var point := 1;
      while point < nextDeadline.Length
        invariant 1 <= point <= nextDeadline.Length
        invariant IsEarliest(due[..point], selected)
      {
        TicksCompare(due[point], due[selected]);
        if IsBefore(nextDeadline[point], nextDeadline[selected]) {
          selected := point;
        }
        point := point + 1;
      }
      assert due[..point] == due;
    }

    /** `advance_deadline` */
    method AdvanceDeadline(point: nat, now: u32, ghost clock: nat)
      requires Valid() && point < |due| && now == Tick(clock) && due[point] <= clock && OnTime(clock)
      modifies this`due, nextDeadline
      ensures Valid() && due == old(due)[point := Advanced(old(due[point]), intervals[point], clock)]
    {
      var deadline, interval := nextDeadline[point], intervals[point];
      assert clock - due[point] + intervals[point] < HALF_RANGE;
      TicksAdvance(due[point], interval, clock);
      hide Tick, NextTick, Advanced;
      nextDeadline[point] := NextTick(deadline, interval, now);
      due := due[point := Advanced(due[point], interval, clock)];
    }

    /**
     * One turn of the task's loop: `now` is read before the check, `later` after the point was processed. The
     * earliest point is served exactly when it is due.
     */
    method Turn(now: u32, later: u32, ghost clock: nat, ghost done: nat) returns (point: nat, served: bool)
      requires Valid() && |due| > 0 && Ahead(clock) && OnTime(done)
      requires clock <= done && now == Tick(clock) && later == Tick(done)
      modifies this`due, nextDeadline
      ensures Valid() && IsEarliest(old(due), point) && Ahead(done)
      ensures served <==> old(due[point]) <= clock
      ensures due == if served then old(due)[point := Advanced(old(due[point]), intervals[point], done)] else old(due)
    {
      point := SelectEarliest();
      TicksCompare(clock, due[point]);
      served := IsReached(now, nextDeadline[point]);
      if served {
        AdvancedIsNext(due[point], intervals[point], done);
        AdvanceDeadline(point, later, done);
      }
    }
  }

  lemma TickPlus(t: nat, d: nat)
    ensures (Tick(t) + d) % WRAP == Tick(t + d)
  {
    assert t + d == Tick(t) + d + (t / WRAP) * WRAP;
    ModShift(Tick(t) + d, t / WRAP);
  }

  /** Advancing a wrapped deadline is advancing the time it stands for. */
  lemma TicksAdvance(deadline: nat, interval: nat, now: nat)
    requires interval >= 1 && deadline <= now && now - deadline + interval < HALF_RANGE
    ensures NextTick(Tick(deadline), interval, Tick(now)) == Tick(Advanced(deadline, interval, now))
  {
    TickDifference(now, deadline);
    var elapsed := now - deadline;
    ModUnique(elapsed, 0, elapsed);
    hide Tick, TickMinus;
    QuotientBelow(elapsed, interval);
    var periods := elapsed / interval + 1;
    ModUnique(periods, 0, periods);
    TickPlus(deadline, periods * interval);
  }

  lemma QuotientBelow(x: nat, m: nat)
    requires m >= 1
    ensures 0 <= x / m <= x
  {
    var q := x / m;
    assert x == q * m + x % m;
    MultiplesGrow(1, m, q);
  }

  // ---- whole runs

  datatype Service = Service(point: nat, begun: nat, finished: nat)

  /** Services one after another, each of the earliest point and once it is due, as `Turn` performs them. */
  predicate IsRun(intervals: seq<u32>, due: seq<nat>, clock: nat, run: seq<Service>)
    requires |due| == |intervals| && forall i | 0 <= i < |intervals| :: intervals[i] >= 1
    decreases |run|
  {
    run == []
    || (var s := run[0];
        IsEarliest(due, s.point) && clock <= s.begun <= s.finished && due[s.point] <= s.begun
        && IsRun(intervals, due[s.point := Advanced(due[s.point], intervals[s.point], s.finished)], s.finished, run[1..]))
  }

  /**
   * While point `p` waits, a point served after `p` fell due is not served again: if another point is served twice,
   * the first service was over before `p` fell due.
   */
  lemma {:induction false} NobodyStarves(intervals: seq<u32>, due: seq<nat>, clock: nat, run: seq<Service>, p: nat, i: nat, j: nat)
    requires |due| == |intervals| && forall k | 0 <= k < |intervals| :: intervals[k] >= 1
    requires IsRun(intervals, due, clock, run) && p < |due|
    requires i < j < |run| && run[i].point == run[j].point && forall k | 0 <= k <= j :: run[k].point != p
    ensures run[i].finished < due[p]
    decreases i
  {
    var s := run[0];
    AdvancedIsNext(due[s.point], intervals[s.point], s.finished);
    var next := due[s.point := Advanced(due[s.point], intervals[s.point], s.finished)];
    if i == 0 {
      NotAheadOf(intervals, next, s.finished, run[1..], p, s.point, j - 1);
    } else {
      NobodyStarves(intervals, next, s.finished, run[1..], p, i - 1, j - 1);
    }
  }

  /** Until `p` is served, only points due no later are. */
  lemma {:induction false} NotAheadOf(intervals: seq<u32>, due: seq<nat>, clock: nat, run: seq<Service>, p: nat, q: nat, j: nat)
    requires |due| == |intervals| && forall k | 0 <= k < |intervals| :: intervals[k] >= 1
    requires IsRun(intervals, due, clock, run) && p < |due| && q < |due|
    requires j < |run| && run[j].point == q && forall k | 0 <= k <= j :: run[k].point != p
    ensures due[q] <= due[p]
    decreases j
  {
    var s := run[0];
    if s.point != q {
      AdvancedIsNext(due[s.point], intervals[s.point], s.finished);
      var next := due[s.point := Advanced(due[s.point], intervals[s.point], s.finished)];
      NotAheadOf(intervals, next, s.finished, run[1..], p, q, j - 1);
    }
  }
}
