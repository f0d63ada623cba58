/**
 * The per-entity arithmetic of the delta engine: CPU shares against a core's
 * clock delta, the running min/max bounds, the iowait ratio with its
 * sanitisation rule, the per-core shares, and the `did_something` idle decay.
 * The display passes (passes.dfy) apply these to every process, thread and
 * core of a pair of snapshots.
 */
module Delta {
  import opened Common
  import opened Records

  /** `(float(delta) / total_clock) * 100.0`: the delta as a percentage of the clock delta. */
  function Share(delta: int, total: int): (p: real)
    requires total != 0
    ensures delta == 0 <==> p == 0.0
    ensures (delta >= 0 && total > 0) ==> p >= 0.0
  {
    QuotientValue(delta as real, total as real, 1);
    Quotient(delta as real, total as real, 1) * 100.0
  }

  /** Shares of two deltas against the same clock add up to the share of their sum. */
  lemma ShareAdds(a: int, b: int, total: int)
    requires total != 0
    ensures Share(a, total) + Share(b, total) == Share(a + b, total)
  {
    calc {
      Share(a, total) + Share(b, total);
      (a as real / total as real + b as real / total as real) * 100.0;
      { assert a as real / total as real + b as real / total as real == (a as real + b as real) / total as real; }
      ((a + b) as real / total as real) * 100.0;
    }
  }

  /** A delta no larger than a positive clock delta is a share between 0 and 100. */
  lemma ShareWithinClock(delta: int, total: int)
    requires 0 <= delta <= total && total > 0
    ensures 0.0 <= Share(delta, total) <= 100.0
  {
    assert delta as real / total as real <= 1.0;
  }

  // ---------------------------------------------------------------------
  // Running bounds
  // ---------------------------------------------------------------------

  /**
   * The min/max update of the delta functions: a bound that is still None is
   * seeded from the sample, then each bound is widened to include it.
   */
  function Widen(lo: Option<real>, hi: Option<real>, v: real): (b: (real, real))
    ensures b.0 <= v <= b.1
    ensures lo.None? ==> b.0 == v
    ensures hi.None? ==> b.1 == v
    ensures lo.Some? ==> b.0 <= lo.value && (b.0 == lo.value || b.0 == v)
    ensures hi.Some? ==> b.1 >= hi.value && (b.1 == hi.value || b.1 == v)
  {
    var seededLo := if lo.None? then v else lo.value;
    var seededHi := if hi.None? then v else hi.value;
    (if v < seededLo then v else seededLo, if v > seededHi then v else seededHi)
  }

  /** The bounds after a run of samples, starting from None. */
  function WidenAll(samples: seq<real>): (b: (real, real))
    requires |samples| >= 1
  {
    if |samples| == 1 then Widen(None, None, samples[0])
    else
      var prev := WidenAll(samples[..|samples| - 1]);
      Widen(Some(prev.0), Some(prev.1), samples[|samples| - 1])
  }

  /** Over a run of samples the bounds are exactly the smallest and the largest sample. */
  lemma {:induction false} WidenAllIsExtremes(samples: seq<real>)
    requires |samples| >= 1
    ensures forall k | 0 <= k < |samples| :: WidenAll(samples).0 <= samples[k] <= WidenAll(samples).1
    ensures WidenAll(samples).0 in samples && WidenAll(samples).1 in samples
  {
    if |samples| > 1 {
      var init := samples[..|samples| - 1];
      WidenAllIsExtremes(init);
      assert forall k | 0 <= k < |init| :: init[k] == samples[k];
      assert forall x | x in init :: x in samples;
    }
  }

  // ---------------------------------------------------------------------
  // CPU use of a process or thread
  // ---------------------------------------------------------------------

  /** user, system and total CPU percentages, and the new min/max bounds. */
  datatype CpuUse = CpuUse(user: real, system: real, pct: real, lo: real, hi: real)

  /** utime + stime: the ticks a process or thread has run. */
  function Busy(t: Task): int { t.utime + t.stime }

  /**
   * The percentages against a nonzero core clock delta, bounds seeded from the
   * previous record and widened.
   */
  function CpuAgainst(last: Task, curr: Task, total: int): (c: CpuUse)
    requires total != 0
    ensures c.user == Share(curr.utime - last.utime, total) && c.system == Share(curr.stime - last.stime, total)
    ensures c.user + c.system == c.pct
    ensures c.pct == Share(Busy(curr) - Busy(last), total)
    ensures c.lo <= c.pct <= c.hi
    ensures last.cpuMin.None? ==> c.lo == c.pct
    ensures last.cpuMax.None? ==> c.hi == c.pct
    ensures last.cpuMin.Some? ==> c.lo <= last.cpuMin.value && (c.lo == last.cpuMin.value || c.lo == c.pct)
    ensures last.cpuMax.Some? ==> c.hi >= last.cpuMax.value && (c.hi == last.cpuMax.value || c.hi == c.pct)
  {
    var user := Share(curr.utime - last.utime, total);
    var system := Share(curr.stime - last.stime, total);
    var pct := Share(Busy(curr) - Busy(last), total);
    ShareAdds(curr.utime - last.utime, curr.stime - last.stime, total);
    var b := Widen(last.cpuMin, last.cpuMax, pct);
    CpuUse(user, system, pct, b.0, b.1)
  }

  /**
   * The process path: with a zero clock delta nothing is divided and every
   * percentage and both bounds are 0.
   */
  function ProcessCpu(last: Task, curr: Task, total: int): (c: CpuUse)
    ensures total == 0 ==> c == CpuUse(0.0, 0.0, 0.0, 0.0, 0.0)
    ensures total != 0 ==> c == CpuAgainst(last, curr, total)
  {
    if total != 0 then CpuAgainst(last, curr, total) else CpuUse(0.0, 0.0, 0.0, 0.0, 0.0)
  }

  // ---------------------------------------------------------------------
  // Iowait
  // ---------------------------------------------------------------------

  /** The iowait ratio and its bounds. */
  datatype IoUse = IoUse(pct: real, lo: real, hi: real)

  /** A bound that is unset or lies in [0, 100]. */
  predicate InPercent(b: Option<real>)
  {
    b.None? || 0.0 <= b.value <= 100.0
  }

  /** `float(delta) / float(self.ticks * self.opts.delay)`. */
  function Ratio(last: Task, curr: Task, scale: real): real
    requires scale != 0.0
  {
    Quotient((curr.blkio - last.blkio) as real, scale, 1)
  }

  /**
   * `Δblkio / float(ticks * delay)` with no factor of 100. A zero delta gives
   * 0 with both bounds 0; a ratio outside [0, 100] is forced to 0 with both
   * bounds 0; otherwise the bounds are seeded and widened. A nonzero delta
   * with `ticks * delay == 0` raises ZeroDivisionError: None.
   */
  function Iowait(last: Task, curr: Task, scale: real): (io: Option<IoUse>)
    ensures io.None? <==> curr.blkio != last.blkio && scale == 0.0
    ensures curr.blkio == last.blkio ==> io == Some(IoUse(0.0, 0.0, 0.0))
    ensures io.Some? ==> 0.0 <= io.value.pct <= 100.0 && io.value.lo <= io.value.pct <= io.value.hi
    ensures scale != 0.0 && curr.blkio != last.blkio && !(0.0 <= Ratio(last, curr, scale) <= 100.0) ==>
      io == Some(IoUse(0.0, 0.0, 0.0))
    ensures scale != 0.0 && curr.blkio != last.blkio && 0.0 <= Ratio(last, curr, scale) <= 100.0 ==>
      io.Some? && io.value.pct == Ratio(last, curr, scale)
      && (last.ioMin.None? ==> io.value.lo == io.value.pct)
      && (last.ioMax.None? ==> io.value.hi == io.value.pct)
      && (last.ioMin.Some? ==>
        io.value.lo <= last.ioMin.value && (io.value.lo == last.ioMin.value || io.value.lo == io.value.pct))
      && (last.ioMax.Some? ==>
        io.value.hi >= last.ioMax.value && (io.value.hi == last.ioMax.value || io.value.hi == io.value.pct))
    ensures io.Some? && InPercent(last.ioMin) && InPercent(last.ioMax) ==>
      0.0 <= io.value.lo && io.value.hi <= 100.0
  {
    var delta := curr.blkio - last.blkio;
    if delta == 0 then Some(IoUse(0.0, 0.0, 0.0))
    else if scale == 0.0 then None
    else
      var ratio := Ratio(last, curr, scale);
      if ratio < 0.0 || ratio > 100.0 then Some(IoUse(0.0, 0.0, 0.0))
      else
        var b := Widen(last.ioMin, last.ioMax, ratio);
        Some(IoUse(ratio, b.0, b.1))
  }

  // ---------------------------------------------------------------------
  // Idle decay
  // ---------------------------------------------------------------------

  /** The new `did_something` counter and whether the entity is skipped this cycle. */
  datatype Decision = Decision(did: int, skip: bool)

  /**
   * The idle filter. `exempt` is the selected pid (its counter becomes True,
   * that is 1); `showAll` is `-a`; `idle` means no CPU and no iowait this
   * cycle; `ignore` is `-i`.
   */
  function Decay(exempt: bool, showAll: bool, last: int, idle: bool, ignore: int): (d: Decision)
    ensures exempt ==> d == Decision(1, false)
    ensures !exempt && showAll ==> d == Decision(last, false)
    ensures d.skip ==> !exempt && !showAll && idle && last <= 1 && d.did == 0
    ensures !exempt && !showAll && idle && !d.skip ==> d.did == last - 1 > 0
    ensures !exempt && !showAll && !idle ==> d == Decision(ignore, false)
    ensures last >= 0 && ignore >= 0 ==> d.did >= 0
  {
    if exempt then Decision(1, false)
    else if showAll then Decision(last, false)
    else if idle then
      if last - 1 <= 0 then Decision(0, true) else Decision(last - 1, false)
    else Decision(ignore, false)
  }

  /** The counter after `k` idle cycles in a row (no exemption, no `-a`). */
  function AfterIdle(last: int, k: nat, ignore: int): int
  {
    if k == 0 then last else Decay(false, false, AfterIdle(last, k - 1, ignore), true, ignore).did
  }

  /** Each idle cycle takes one off the counter, down to 0. */
  lemma {:induction false} AfterIdleCountsDown(last: int, k: nat, ignore: int)
    requires last >= 0
    ensures AfterIdle(last, k, ignore) == if last - k > 0 then last - k else 0
  {
    if k > 0 {
      AfterIdleCountsDown(last, k - 1, ignore);
    }
  }

  /**
   * After a cycle with activity (counter = `ignore`) an entity stays listed for
   * `ignore - 1` idle cycles and is hidden from the `ignore`-th on.
   */
  lemma HiddenAfterIgnoreIdleCycles(ignore: int, k: nat)
    requires ignore >= 0 && k >= 1
    ensures Decay(false, false, AfterIdle(ignore, k - 1, ignore), true, ignore).skip <==> k >= ignore
  {
    AfterIdleCountsDown(ignore, k - 1, ignore);
  }

  /** A newcomer starts at 0, so an idle newcomer is hidden on its first cycle. */
  lemma IdleNewcomerHidden(showAll: bool, ignore: int)
    requires !showAll
    ensures Decay(false, showAll, 0, true, ignore).skip
  {
  }

  // ---------------------------------------------------------------------
  // Per-core shares
  // ---------------------------------------------------------------------

  /** The six columns `display_cpu_delta` prints for a core (nice is not shown). */
  datatype CoreUse = CoreUse(user: real, system: real, idle: real, iowait: real, irq: real, softirq: real)

  function CoreShares(c0: CpuSample, c1: CpuSample): (u: CoreUse)
    requires c1.clock - c0.clock != 0
  {
    var total := c1.clock - c0.clock;
    CoreUse(Share(c1.user - c0.user, total), Share(c1.system - c0.system, total),
      Share(c1.idle - c0.idle, total), Share(c1.iowait - c0.iowait, total),
      Share(c1.irq - c0.irq, total), Share(c1.softirq - c0.softirq, total))
  }

  /** The printed columns and the unprinted nice share add up to 100%. */
  lemma CoreSharesSumTo100(c0: CpuSample, c1: CpuSample)
    requires ClockIsSum(c0) && ClockIsSum(c1) && c1.clock - c0.clock != 0
    ensures var u := CoreShares(c0, c1);
      u.user + u.system + u.idle + u.iowait + u.irq + u.softirq + Share(c1.nice - c0.nice, c1.clock - c0.clock) == 100.0
  {
    var t := c1.clock - c0.clock;
    var du, dn, ds, di := c1.user - c0.user, c1.nice - c0.nice, c1.system - c0.system, c1.idle - c0.idle;
    var dw, dq, dsq := c1.iowait - c0.iowait, c1.irq - c0.irq, c1.softirq - c0.softirq;
    assert du + ds + di + dw + dq + dsq + dn == t;
    ShareAdds(du, ds, t);
    ShareAdds(du + ds, di, t);
    ShareAdds(du + ds + di, dw, t);
    ShareAdds(du + ds + di + dw, dq, t);
    ShareAdds(du + ds + di + dw + dq, dsq, t);
    ShareAdds(du + ds + di + dw + dq + dsq, dn, t);
    ShareOfWhole(t);
  }

  lemma ShareOfWhole(t: int)
    requires t != 0
    ensures Share(t, t) == 100.0
  {
    assert t as real / t as real == 1.0;
  }

  // ---------------------------------------------------------------------
  // Updated records
  // ---------------------------------------------------------------------

  /** The current record after the cycle's CPU, iowait and decay updates. */
  function Updated(curr: Task, c: CpuUse, io: IoUse, did: int): (t: Task)
  {
    curr.(cpuPct := Some(c.pct), cpuMin := Some(c.lo), cpuMax := Some(c.hi),
      ioMin := Some(io.lo), ioMax := Some(io.hi), didSomething := did)
  }
}
