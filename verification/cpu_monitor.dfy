/**
 * The CPU watchdog (src/utils/cpuMonitor.js): a counter of consecutive
 * above-threshold samples that asks for a restart on the third one. The
 * sampling itself is an input: `Some(usage)` for a successful measurement,
 * `None` when measuring throws.
 */
module CpuMonitor {
  import opened Wrappers

  datatype Monitor = Monitor(cpuUsage: int, highCPUCount: nat, threshold: int)

  /** The state the module exports: no sample yet, no strikes, threshold 70 percent. */
  const Initial := Monitor(0, 0, 70)

  /** Consecutive high samples that trigger a restart. */
  const Strikes := 3

  /** What one `checkAndRestart` call leaves behind: the new state, its return value, and whether it asked to exit. */
  datatype Check = Check(monitor: Monitor, usage: int, restart: bool)

  /** The threshold a call compares against: its argument, or the monitor's own when omitted. */
  function Limit(m: Monitor, threshold: Option<int>): int {
    threshold.GetOr(m.threshold)
  }

  /**
   * `checkAndRestart(threshold)`: a failed measurement returns 0 and changes
   * nothing; otherwise the sample is stored and returned, a sample strictly
   * above the threshold adds a strike and any other clears the strikes, and a
   * restart is requested once there are three strikes (the count is left as is).
   */
  function CheckAndRestart(m: Monitor, sample: Option<int>, threshold: Option<int>): (r: Check)
    ensures sample.None? ==> r == Check(m, 0, false)
    ensures sample.Some? ==> r.usage == sample.value && r.monitor.cpuUsage == sample.value
    ensures r.monitor.threshold == m.threshold
    ensures sample.Some? && sample.value > Limit(m, threshold) ==> r.monitor.highCPUCount == m.highCPUCount + 1
    ensures sample.Some? && sample.value <= Limit(m, threshold) ==> r.monitor.highCPUCount == 0
    ensures r.restart <==> sample.Some? && sample.value > Limit(m, threshold) && r.monitor.highCPUCount >= Strikes
  {
    match sample
    case None => Check(m, 0, false)
    case Some(usage) =>
      if usage > Limit(m, threshold) then
        var count := m.highCPUCount + 1;
        Check(m.(cpuUsage := usage, highCPUCount := count), usage, count >= Strikes)
      else
        Check(m.(cpuUsage := usage, highCPUCount := 0), usage, false)
  }

  /** `getCurrentUsage()`: the last stored sample. */
  function GetCurrentUsage(m: Monitor): (r: int)
    ensures r == m.cpuUsage
  {
    m.cpuUsage
  }

  /** The state after one call per measurement, all with the same threshold argument. */
  function Run(m: Monitor, samples: seq<Option<int>>, threshold: Option<int>): Monitor {
    if samples == [] then m
    else CheckAndRestart(Run(m, samples[..|samples| - 1], threshold), samples[|samples| - 1], threshold).monitor
  }

  /** The successful measurements, in order. */
  function Successes(samples: seq<Option<int>>): (r: seq<int>)
    ensures |r| <= |samples|
  {
    if samples == [] then []
    else if samples[|samples| - 1].Some? then Successes(samples[..|samples| - 1]) + [samples[|samples| - 1].value]
    else Successes(samples[..|samples| - 1])
  }

  /** The length of the longest run of samples above `limit` at the end of `xs`. */
  function TrailingAbove(xs: seq<int>, limit: int): (n: nat)
    ensures n <= |xs|
  {
    if xs == [] || xs[|xs| - 1] <= limit then 0 else TrailingAbove(xs[..|xs| - 1], limit) + 1
  }

  /** `TrailingAbove` is at least `n` exactly when the last `n` samples are all above the limit. */
  lemma {:induction false} TrailingAboveAtLeast(xs: seq<int>, limit: int, n: nat)
    ensures TrailingAbove(xs, limit) >= n <==> n <= |xs| && forall j :: |xs| - n <= j < |xs| ==> xs[j] > limit
  {
    if n > 0 && xs != [] {
      var init := xs[..|xs| - 1];
      TrailingAboveAtLeast(init, limit, n - 1);
      assert forall j :: 0 <= j < |init| ==> init[j] == xs[j];
    }
  }

  /**
   * Started from a monitor with no strikes, the strike count is the number of
   * successful samples above the threshold at the end of the history: failed
   * measurements are skipped and any low sample starts the count over.
   */
  lemma {:induction false} StrikesAreTrailingHighSamples(m: Monitor, samples: seq<Option<int>>, threshold: Option<int>)
    requires m.highCPUCount == 0
    ensures Run(m, samples, threshold).highCPUCount == TrailingAbove(Successes(samples), Limit(m, threshold))
  {
    if samples != [] {
      var init := samples[..|samples| - 1];
      StrikesAreTrailingHighSamples(m, init, threshold);
      RunKeepsThreshold(m, init, threshold);
      var before := Successes(init);
      if samples[|samples| - 1].Some? {
        assert (before + [samples[|samples| - 1].value])[..|before|] == before;
      }
    }
  }

  lemma {:induction false} RunKeepsThreshold(m: Monitor, samples: seq<Option<int>>, threshold: Option<int>)
    ensures Run(m, samples, threshold).threshold == m.threshold
  {
    if samples != [] {
      RunKeepsThreshold(m, samples[..|samples| - 1], threshold);
    }
  }

  /**
   * From the initial state, a call asks for a restart exactly when its own
   * measurement succeeds and it and the two successful measurements before it
   * were all above the threshold.
   */
  lemma RestartIffThreeHighInARow(samples: seq<Option<int>>, threshold: Option<int>, sample: Option<int>)
    ensures CheckAndRestart(Run(Initial, samples, threshold), sample, threshold).restart <==>
              var all := Successes(samples + [sample]);
              sample.Some? && |all| >= Strikes &&
              forall j :: |all| - Strikes <= j < |all| ==> all[j] > Limit(Initial, threshold)
  {
    var next := samples + [sample];
    assert next[..|samples|] == samples;
    StrikesAreTrailingHighSamples(Initial, next, threshold);
    RunKeepsThreshold(Initial, samples, threshold);
    TrailingAboveAtLeast(Successes(next), Limit(Initial, threshold), Strikes);
  }

  /** After a history, the current usage is the last successful sample, or the old value when every measurement failed. */
  lemma {:induction false} CurrentUsageIsLastSuccess(m: Monitor, samples: seq<Option<int>>, threshold: Option<int>)
    ensures var ok := Successes(samples);
            GetCurrentUsage(Run(m, samples, threshold)) == if ok == [] then m.cpuUsage else ok[|ok| - 1]
  {
    if samples != [] {
      CurrentUsageIsLastSuccess(m, samples[..|samples| - 1], threshold);
    }
  }
}
