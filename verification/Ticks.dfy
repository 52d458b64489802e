/** The 30-bit wrapping millisecond counter (`time.ticks_*`), the uptime accumulated over it and
    the drift-free schedules kept in it.  "True" times are unbounded integers that exist only in
    the proofs; the program sees them modulo 2^30. */
module Ticks {
  import opened Common

  const PERIOD: int := 0x4000_0000
  const HALF: int := 0x2000_0000

  /** config.MAX_TICKS_SAFE_INTERVAL_MS */
  const MAX_TICKS_SAFE_INTERVAL_MS: int := HALF - 1

  /** What `time.ticks_ms()` shows at true time `t`. */
  function TicksMs(t: int): int { t % PERIOD }

  /** `time.ticks_diff(a, b)`: the signed ring difference, in [-2^29, 2^29). */
  function TicksDiff(a: int, b: int): int { (a - b + HALF) % PERIOD - HALF }

  /** `time.ticks_add(t, delta)`; None where it raises OverflowError. */
  function TicksAdd(t: int, delta: int): Option<int> {
    if -HALF < delta < HALF then Some((t + delta) % PERIOD) else None
  }

  /** `config._require_ticks_safe_interval` */
  predicate TicksSafe(value: int, msPerUnit: int) {
    value * msPerUnit <= MAX_TICKS_SAFE_INTERVAL_MS
  }

  /** A tick difference is the true difference exactly when that is less than half a period. */
  lemma {:induction false} DiffExact(t: int, u: int)
    ensures TicksDiff(TicksMs(t), TicksMs(u)) == t - u <==> -HALF <= t - u < HALF
  {
  }

  lemma {:induction false} AddExact(t: int, delta: int)
    requires -HALF < delta < HALF
    ensures TicksAdd(TicksMs(t), delta) == Some(TicksMs(t + delta))
  {
  }

  // ---------------------------------------------------------------------------------------
  // Uptime (uptime.py)
  // ---------------------------------------------------------------------------------------

  /** `accumulated_ms` after reading the clock at the true times `samples`, from `boot` on. */
  function Accumulated(boot: int, samples: seq<int>): int {
    if samples == [] then 0
    else
      var n := |samples| - 1;
      var last := if n == 0 then boot else samples[n - 1];
      Accumulated(boot, samples[..n]) + TicksDiff(TicksMs(samples[n]), TicksMs(last))
  }

  function SampleBefore(boot: int, samples: seq<int>, i: nat): int
    requires i < |samples|
  {
    if i == 0 then boot else samples[i - 1]
  }

  /** The accumulated value has been the true elapsed time after every sample so far. */
  ghost predicate TrueSoFar(boot: int, samples: seq<int>) {
    forall n :: 0 < n <= |samples| ==> Accumulated(boot, samples[..n]) == samples[n - 1] - boot
  }

  ghost predicate SmallGaps(boot: int, samples: seq<int>) {
    forall i :: 0 <= i < |samples| ==> -HALF <= samples[i] - SampleBefore(boot, samples, i) < HALF
  }

  lemma {:induction false} TrueSoFarStep(boot: int, samples: seq<int>)
    requires samples != []
    ensures var n := |samples| - 1;
            TrueSoFar(boot, samples) <==>
            TrueSoFar(boot, samples[..n]) && Accumulated(boot, samples) == samples[n] - boot
  {
    var front := samples[..|samples| - 1];
    assert samples[..|samples|] == samples;
    assert forall k :: 0 < k <= |front| ==> samples[..k] == front[..k];
  }

  lemma {:induction false} SmallGapsStep(boot: int, samples: seq<int>)
    requires samples != []
    ensures var n := |samples| - 1;
            SmallGaps(boot, samples) <==>
            SmallGaps(boot, samples[..n]) && -HALF <= samples[n] - SampleBefore(boot, samples, n) < HALF
  {
  }

  /** The accumulated uptime is the true elapsed time after every sample, for ever, exactly when
      every two consecutive samples are less than half a period apart. */
  lemma {:induction false} UptimeExact(boot: int, samples: seq<int>)
    ensures TrueSoFar(boot, samples) <==> SmallGaps(boot, samples)
  {
    if samples != [] {
      var n := |samples| - 1;
      var front := samples[..n];
      UptimeExact(boot, front);
      TrueSoFarStep(boot, samples);
      SmallGapsStep(boot, samples);
      DiffExact(samples[n], SampleBefore(boot, samples, n));
      if TrueSoFar(boot, front) && n > 0 {
        assert front[..n] == front;
      }
    }
  }

  lemma {:induction false} UptimeNow(boot: int, samples: seq<int>)
    requires samples != [] && SmallGaps(boot, samples)
    ensures Accumulated(boot, samples) == samples[|samples| - 1] - boot
  {
    UptimeExact(boot, samples);
    assert samples[..|samples|] == samples;
  }

  /** The state dictionary of uptime.py. */
  class Uptime {
    var lastTicksMs: int
    var accumulatedMs: int
    ghost const boot: int
    ghost var samples: seq<int>

    ghost function LastSample(): int
      reads this
    {
      if samples == [] then boot else samples[|samples| - 1]
    }

    ghost predicate Valid()
      reads this
    {
      && accumulatedMs == Accumulated(boot, samples)
      && lastTicksMs == TicksMs(LastSample())
    }

    constructor (bootTicksMs: int, ghost bootTime: int)
      requires bootTicksMs == TicksMs(bootTime)
      ensures Valid() && samples == [] && boot == bootTime
    {
      lastTicksMs, accumulatedMs := bootTicksMs, 0;
      boot, samples := bootTime, [];
    }

    /** `current_uptime_ms(state)`; `nowMs` is the clock reading at true time `now`. */
    method CurrentUptimeMs(nowMs: int, ghost now: int) returns (uptimeMs: int)
      requires Valid() && nowMs == TicksMs(now)
      modifies this
      ensures Valid() && samples == old(samples) + [now]
      ensures uptimeMs == Accumulated(boot, samples)
      ensures SmallGaps(boot, samples) ==> uptimeMs == now - boot
    {
      accumulatedMs := accumulatedMs + TicksDiff(nowMs, lastTicksMs);
      lastTicksMs := nowMs;
      samples := samples + [now];
      assert samples[..|samples| - 1] == old(samples);
      if SmallGaps(boot, samples) {
        UptimeNow(boot, samples);
      }
      uptimeMs := accumulatedMs;
    }
  }

  // ---------------------------------------------------------------------------------------
  // Schedules (core1.py)
  // ---------------------------------------------------------------------------------------

  /** `_regrid_next_boundary(anchor, now, interval_ms)`; None where `ticks_add` overflows. */
  function RegridNextBoundary(anchorMs: int, nowMs: int, intervalMs: int): Option<int>
    requires intervalMs > 0
  {
    var elapsed := TicksDiff(nowMs, anchorMs);
    if elapsed < 0 then Some(anchorMs)
    else TicksAdd(anchorMs, (elapsed / intervalMs + 1) * intervalMs)
  }

  function Multiple(k: int, interval: int): int { k * interval }

  /** `d` is a boundary of the grid anchor + k * interval. */
  ghost predicate OnGrid(anchor: int, interval: int, d: int) {
    exists k: int :: d == anchor + Multiple(k, interval)
  }

  lemma {:induction false} OnGridStep(anchor: int, interval: int, d: int)
    requires OnGrid(anchor, interval, d)
    ensures OnGrid(anchor, interval, d + interval)
  {
    var k :| d == anchor + Multiple(k, interval);
    assert Multiple(k + 1, interval) == Multiple(k, interval) + interval;
  }

  lemma {:induction false} FloorStep(elapsed: int, interval: int)
    requires elapsed >= 0 && interval > 0
    ensures elapsed < (elapsed / interval + 1) * interval <= elapsed + interval
  {
  }

  /** The first boundary after `elapsed`, counted from the anchor. */
  function FirstBoundary(elapsed: int, interval: int): (d: int)
    requires elapsed >= 0 && interval > 0
    ensures elapsed < d <= elapsed + interval
  {
    FloorStep(elapsed, interval);
    (elapsed / interval + 1) * interval
  }

  /** Regridding less than half a period after the anchor fails exactly when the next boundary
      lies half a period or more after the anchor; otherwise the result is that boundary of the
      grid, in (now, now + interval]. */
  lemma {:induction false} RegridExact(anchor: int, now: int, interval: int)
    requires interval > 0 && 0 <= now - anchor < HALF
    ensures var r := RegridNextBoundary(TicksMs(anchor), TicksMs(now), interval);
            var b := anchor + FirstBoundary(now - anchor, interval);
            && now < b <= now + interval && OnGrid(anchor, interval, b)
            && (r == None <==> b - anchor >= HALF)
            && (r.Some? ==> r.value == TicksMs(b))
  {
    DiffExact(now, anchor);
    var elapsed := now - anchor;
    var b := anchor + FirstBoundary(elapsed, interval);
    assert b == anchor + Multiple(elapsed / interval + 1, interval);
    if b - anchor < HALF {
      AddExact(anchor, b - anchor);
    }
  }

  lemma {:induction false} MultipleMonotone(a: int, b: int, interval: int)
    requires a <= b && interval > 0
    ensures Multiple(a, interval) <= Multiple(b, interval)
  {
    assert 0 <= (b - a) * interval == Multiple(b, interval) - Multiple(a, interval);
  }

  lemma {:induction false} Floor(e: int, interval: int)
    requires e >= 0 && interval > 0
    ensures Multiple(e / interval, interval) <= e < Multiple(e / interval + 1, interval) == FirstBoundary(e, interval)
  {
    FloorStep(e, interval);
    assert Multiple(e / interval + 1, interval) == Multiple(e / interval, interval) + interval;
  }

  lemma {:induction false} QuotientIs(e: int, k: nat, interval: int)
    requires interval > 0 && Multiple(k, interval) <= e < Multiple(k + 1, interval)
    ensures e / interval == k
  {
    Floor(e, interval);
    if e / interval > k {
      MultipleMonotone(k + 1, e / interval, interval);
    } else if e / interval < k {
      MultipleMonotone(e / interval + 1, k, interval);
    }
  }

  lemma {:induction false} SmallQuotient(elapsed: int, interval: int)
    requires 0 <= elapsed < interval
    ensures elapsed / interval == 0 && FirstBoundary(elapsed, interval) == interval
  {
    QuotientIs(elapsed, 0, interval);
  }

  /** An anchor still to come is itself the next boundary. */
  lemma {:induction false} RegridBeforeAnchor(anchor: int, now: int, interval: int)
    requires interval > 0 && -HALF <= now - anchor < 0
    ensures RegridNextBoundary(TicksMs(anchor), TicksMs(now), interval) == Some(TicksMs(anchor))
  {
    DiffExact(now, anchor);
  }

  lemma {:induction false} RegridInFirstInterval(anchor: int, now: int, interval: int)
    requires 0 <= now - anchor < interval < HALF
    ensures RegridNextBoundary(TicksMs(anchor), TicksMs(now), interval) == Some(TicksMs(anchor + interval))
  {
    RegridExact(anchor, now, interval);
    SmallQuotient(now - anchor, interval);
  }

  /** A schedule set up at `now`, within one interval of the anchor, is due one interval after it. */
  predicate RegridsAt(anchor: int, now: int, interval: int)
    requires interval > 0
  {
    0 <= now - anchor < interval ==>
      RegridNextBoundary(TicksMs(anchor), TicksMs(now), interval) == Some(TicksMs(anchor + interval))
  }

  /** The configuration accepts exactly the intervals that never overflow when the schedule is set up
      within one interval of the anchor. */
  lemma {:induction false} AcceptedIntervalRegrids(value: int, msPerUnit: int)
    requires value > 0 && msPerUnit > 0
    ensures TicksSafe(value, msPerUnit) <==> forall anchor, now :: RegridsAt(anchor, now, value * msPerUnit)
  {
    var interval := value * msPerUnit;
    if TicksSafe(value, msPerUnit) {
      forall anchor, now
        ensures RegridsAt(anchor, now, interval)
      {
        if 0 <= now - anchor < interval {
          RegridInFirstInterval(anchor, now, interval);
        }
      }
    } else {
      RegridExact(0, 0, interval);
      SmallQuotient(0, interval);
      assert !RegridsAt(0, 0, interval);
    }
  }

  /** The boundary after `e` is past `bound` exactly when no whole interval is left in between. */
  lemma {:induction false} PastBound(e: int, bound: int, interval: int)
    requires 0 <= e && 0 <= bound && interval > 0
    ensures FirstBoundary(e, interval) > bound <==> e >= Multiple(bound / interval, interval)
  {
    var k, n := e / interval, bound / interval;
    Floor(e, interval);
    Floor(bound, interval);
    if k >= n {
      MultipleMonotone(n, k, interval);
      MultipleMonotone(n + 1, k + 1, interval);
    } else {
      MultipleMonotone(k + 1, n, interval);
    }
  }

  /** The last boundary of the grid less than half a period after the anchor, counted from it. */
  function LastBoundary(interval: int): (d: int)
    requires 0 < interval <= MAX_TICKS_SAFE_INTERVAL_MS
    ensures 0 < d <= MAX_TICKS_SAFE_INTERVAL_MS < d + interval
  {
    Floor(MAX_TICKS_SAFE_INTERVAL_MS, interval);
    MultipleMonotone(1, MAX_TICKS_SAFE_INTERVAL_MS / interval, interval);
    Multiple(MAX_TICKS_SAFE_INTERVAL_MS / interval, interval)
  }

  /** Being accepted is not enough for the function alone: an accepted interval overflows exactly from
      that boundary on, which for one of at least half the bound is the first. */
  lemma {:induction false} LateRegridOverflows(anchor: int, now: int, interval: int)
    requires 0 < interval <= MAX_TICKS_SAFE_INTERVAL_MS && 0 <= now - anchor < HALF
    ensures RegridNextBoundary(TicksMs(anchor), TicksMs(now), interval) == None <==> now - anchor >= LastBoundary(interval)
    ensures HALF <= 2 * interval ==> LastBoundary(interval) == interval
  {
    RegridExact(anchor, now, interval);
    PastBound(now - anchor, MAX_TICKS_SAFE_INTERVAL_MS, interval);
    if HALF <= 2 * interval {
      QuotientIs(MAX_TICKS_SAFE_INTERVAL_MS, 1, interval);
    }
  }

  /** One periodic duty of the Core 1 loop: its interval and its next deadline, as kept in the
      `schedulers` dictionary. */
  class Schedule {
    const intervalMs: int
    var nextMs: int
    ghost const anchor: int
    /** The true time `nextMs` stands for. */
    ghost var deadline: int
    /** The true time of the latest clock sample. */
    ghost var clock: int
    /** The deadlines that fired, each with the time it fired at. */
    ghost var fired: seq<(int, int)>

    /** Only boundaries of the grid fired, each at most once, in order, never early, and none at or
        after the pending deadline: a boundary is never replayed. */
    ghost predicate FiredInOrder()
      reads this
    {
      && (forall i, j :: 0 <= i < j < |fired| ==> fired[i].1 < fired[j].0)
      && (forall i :: 0 <= i < |fired| ==> fired[i].0 <= fired[i].1 <= clock && OnGrid(anchor, intervalMs, fired[i].0))
    }

    ghost predicate Valid()
      reads this
    {
      && 0 < intervalMs < HALF
      && nextMs == TicksMs(deadline)
      && OnGrid(anchor, intervalMs, deadline)
      && clock < deadline <= clock + intervalMs
      && FiredInOrder()
    }

    constructor (anchorMs: int, nowMs: int, interval: int, ghost anchorTime: int, ghost now: int)
      requires 0 < interval < HALF
      requires anchorMs == TicksMs(anchorTime) && nowMs == TicksMs(now) && 0 <= now - anchorTime < HALF
      requires RegridNextBoundary(anchorMs, nowMs, interval).Some?
      ensures Valid() && fired == [] && clock == now && anchor == anchorTime && intervalMs == interval
    {
      RegridExact(anchorTime, now, interval);
      intervalMs := interval;
      nextMs := RegridNextBoundary(anchorMs, nowMs, interval).value;
      anchor, clock, fired := anchorTime, now, [];
      deadline := anchorTime + FirstBoundary(now - anchorTime, interval);
    }

    /** One visit of the loop: test the deadline against `nowMs` and, if it is due, do the work and
        skip every deadline up to the clock `skipMs`, re-read after the work (the health duty
        skips against the first reading). */
    method Visit(nowMs: int, skipMs: int, ghost now: int, ghost skip: int) returns (due: bool)
      requires Valid()
      requires nowMs == TicksMs(now) && skipMs == TicksMs(skip)
      requires clock <= now <= skip < clock + HALF
      modifies this`nextMs, this`deadline, this`clock, this`fired
      ensures Valid()
      ensures due <==> old(deadline) <= now
      ensures fired == if due then old(fired) + [(old(deadline), now)] else old(fired)
      ensures clock == if due then skip else now
      ensures !due ==> nextMs == old(nextMs) && deadline == old(deadline)
    {
      due := TicksDiff(nowMs, nextMs) >= 0;
      DiffExact(now, deadline);
      if due {
        fired := fired + [(deadline, now)];
        while TicksDiff(skipMs, nextMs) >= 0
          invariant nextMs == TicksMs(deadline) && OnGrid(anchor, intervalMs, deadline)
          invariant old(deadline) <= deadline <= skip + intervalMs
          invariant clock == old(clock) && fired == old(fired) + [(old(deadline), now)]
          decreases skip - deadline
        {
          DiffExact(skip, deadline);
          OnGridStep(anchor, intervalMs, deadline);
          AddExact(deadline, intervalMs);
          nextMs := TicksAdd(nextMs, intervalMs).value;
          deadline := deadline + intervalMs;
        }
        DiffExact(skip, deadline);
        clock := skip;
      } else {
        clock := now;
      }
    }
  }
}
