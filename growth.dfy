/**
 * GrowthManager's performance switch: every `performanceCheckInterval`
 * seconds the latest frame rate is compared with two thresholds. Growth is
 * paused when it runs and the rate is below the lower one, and resumed when
 * it is paused and the rate is above the upper one; anything in between
 * leaves it as it is (hysteresis). A manual toggle flips the state. The
 * global pause and resume calls are recorded in `calls`; the frame rate and
 * the clock are parameters.
 */
module Growth {
  import opened Engine

  /**
   * One `CheckPerformance`: the new paused flag and the calls it makes. A call
   * is issued exactly when the flag changes, and it is the one that matches
   * the new flag; a running manager pauses exactly when the rate is below
   * `minFps`, a paused one resumes exactly when it is above `resumeFps`, and
   * a rate between the two changes nothing.
   */
  function Check(paused: bool, fps: real, minFps: real, resumeFps: real): (r: (bool, seq<GrowthCall>))
    ensures r.1 == if r.0 == paused then [] else if r.0 then [PauseAllGrowth] else [ResumeAllGrowth]
    ensures r.0 && !paused ==> fps < minFps
    ensures !r.0 && paused ==> fps > resumeFps
    ensures !paused && fps < minFps ==> r == (true, [PauseAllGrowth])
    ensures paused && fps > resumeFps ==> r == (false, [ResumeAllGrowth])
    ensures minFps <= fps <= resumeFps ==> r == (paused, [])
  {
    if !paused && fps < minFps then (true, [PauseAllGrowth])
    else if paused && fps > resumeFps then (false, [ResumeAllGrowth])
    else (paused, [])
  }

  /** Successive checks over the frame-rate samples `fps`: the final flag and all calls made. */
  function Monitor(paused: bool, fps: seq<real>, minFps: real, resumeFps: real): (bool, seq<GrowthCall>) {
    if fps == [] then (paused, [])
    else
      var (p, calls) := Monitor(paused, fps[..|fps| - 1], minFps, resumeFps);
      var (q, more) := Check(p, fps[|fps| - 1], minFps, resumeFps);
      (q, calls + more)
  }

  /** The calls alternate pause, resume, pause, ..., starting with a pause. */
  ghost predicate Alternating(calls: seq<GrowthCall>) {
    forall i :: 0 <= i < |calls| ==> calls[i] == if i % 2 == 0 then PauseAllGrowth else ResumeAllGrowth
  }

  /** The calls made so far alternate, and the flag says whether the last one was a pause. */
  ghost predicate Consistent(paused: bool, calls: seq<GrowthCall>) {
    Alternating(calls) && paused == (|calls| % 2 == 1)
  }

  /** Appending the call a flag change makes keeps the log consistent with the new flag. */
  lemma StepConsistent(paused: bool, calls: seq<GrowthCall>, q: bool, more: seq<GrowthCall>)
    requires Consistent(paused, calls)
    requires more == if q == paused then [] else if q then [PauseAllGrowth] else [ResumeAllGrowth]
    ensures Consistent(q, calls + more)
  {
    if q != paused {
      var all := calls + more;
      forall i | 0 <= i < |all|
        ensures all[i] == if i % 2 == 0 then PauseAllGrowth else ResumeAllGrowth
      {
        if i < |calls| { assert all[i] == calls[i]; }
      }
    }
  }

  /**
   * Any run of checks started from a consistent state makes calls that
   * continue the alternation: never two pauses or two resumes in a row.
   */
  lemma {:induction false} MonitorConsistent(paused: bool, fps: seq<real>, minFps: real, resumeFps: real)
    requires !paused
    ensures Consistent(Monitor(paused, fps, minFps, resumeFps).0, Monitor(paused, fps, minFps, resumeFps).1)
  {
    if fps != [] {
      MonitorConsistent(paused, fps[..|fps| - 1], minFps, resumeFps);
      var (p, calls) := Monitor(paused, fps[..|fps| - 1], minFps, resumeFps);
      var (q, more) := Check(p, fps[|fps| - 1], minFps, resumeFps);
      StepConsistent(p, calls, q, more);
    }
  }

  /** Samples that all lie between the thresholds never pause or resume anything. */
  lemma {:induction false} MonitorInBand(paused: bool, fps: seq<real>, minFps: real, resumeFps: real)
    requires forall i :: 0 <= i < |fps| ==> minFps <= fps[i] <= resumeFps
    ensures Monitor(paused, fps, minFps, resumeFps) == (paused, [])
  {
    if fps != [] {
      var init := fps[..|fps| - 1];
      assert forall i :: 0 <= i < |init| ==> init[i] == fps[i];
      MonitorInBand(paused, init, minFps, resumeFps);
      var last := Check(paused, fps[|fps| - 1], minFps, resumeFps);
      assert last == (paused, []);
      assert Monitor(paused, fps, minFps, resumeFps).1 == [] + last.1 == [];
    }
  }

  class GrowthManager {
    var minFpsThreshold: real
    var resumeFpsThreshold: real
    var performanceCheckInterval: real
    var autoAdjustForPerformance: bool
    var lastPerformanceCheck: real
    var currentFps: real
    var growthPaused: bool
    /** The `IvyNode.PauseAllGrowth` / `ResumeAllGrowth` calls made, in order. */
    var calls: seq<GrowthCall>

    constructor (minFpsThreshold: real, resumeFpsThreshold: real, performanceCheckInterval: real,
                 autoAdjustForPerformance: bool)
      ensures this.minFpsThreshold == minFpsThreshold && this.resumeFpsThreshold == resumeFpsThreshold
      ensures this.performanceCheckInterval == performanceCheckInterval
      ensures this.autoAdjustForPerformance == autoAdjustForPerformance
      ensures lastPerformanceCheck == 0.0 && currentFps == 0.0
      ensures !growthPaused && calls == [] && Valid()
    {
      this.minFpsThreshold := minFpsThreshold;
      this.resumeFpsThreshold := resumeFpsThreshold;
      this.performanceCheckInterval := performanceCheckInterval;
      this.autoAdjustForPerformance := autoAdjustForPerformance;
      lastPerformanceCheck := 0.0;
      currentFps := 0.0;
      growthPaused := false;
      calls := [];
    }

    ghost predicate Valid()
      reads this
    {
      Consistent(growthPaused, calls)
    }

    /** The clock part of `Start`: the first check is timed from `now`. */
    method StartClock(now: real)
      modifies this`lastPerformanceCheck
      ensures lastPerformanceCheck == now
    {
      lastPerformanceCheck := now;
    }

    /** `CheckPerformance`: one hysteresis step on `currentFps`. */
    method CheckPerformance()
      modifies this`growthPaused, this`calls
      ensures var (p, more) := Check(old(growthPaused), currentFps, minFpsThreshold, resumeFpsThreshold);
        growthPaused == p && calls == old(calls) + more
      ensures old(Valid()) ==> Valid()
    {
      if !growthPaused && currentFps < minFpsThreshold {
        calls := calls + [PauseAllGrowth];
        growthPaused := true;
      } else if growthPaused && currentFps > resumeFpsThreshold {
        calls := calls + [ResumeAllGrowth];
        growthPaused := false;
      }
      if old(Valid()) {
        var (p, more) := Check(old(growthPaused), currentFps, minFpsThreshold, resumeFpsThreshold);
        StepConsistent(old(growthPaused), old(calls), p, more);
      }
    }

    /** `ToggleGrowth`: flip the flag and make the call that matches the new value. */
    method ToggleGrowth()
      modifies this`growthPaused, this`calls
      ensures growthPaused == !old(growthPaused)
      ensures calls == old(calls) + [if growthPaused then PauseAllGrowth else ResumeAllGrowth]
      ensures old(Valid()) ==> Valid()
    {
      growthPaused := !growthPaused;
      if growthPaused {
        calls := calls + [PauseAllGrowth];
      } else {
        calls := calls + [ResumeAllGrowth];
      }
      if old(Valid()) {
        StepConsistent(old(growthPaused), old(calls), growthPaused, [calls[|calls| - 1]]);
      }
    }

    /**
     * `Update` on a frame at time `now` whose frame rate is `fps`: with
     * automatic adjustment on, record the rate and, once more than the
     * interval has passed since the last check, check and restart the clock.
     */
    method Update(now: real, fps: real)
      modifies this`currentFps, this`lastPerformanceCheck, this`growthPaused, this`calls
      ensures !autoAdjustForPerformance ==>
        currentFps == old(currentFps) && lastPerformanceCheck == old(lastPerformanceCheck) &&
        growthPaused == old(growthPaused) && calls == old(calls)
      ensures autoAdjustForPerformance ==> currentFps == fps
      ensures autoAdjustForPerformance && now - old(lastPerformanceCheck) > performanceCheckInterval ==>
        && lastPerformanceCheck == now
        && var (p, more) := Check(old(growthPaused), fps, minFpsThreshold, resumeFpsThreshold);
          growthPaused == p && calls == old(calls) + more
      ensures autoAdjustForPerformance && now - old(lastPerformanceCheck) <= performanceCheckInterval ==>
        lastPerformanceCheck == old(lastPerformanceCheck) && growthPaused == old(growthPaused) && calls == old(calls)
      ensures old(Valid()) ==> Valid()
    {
      if autoAdjustForPerformance {
        currentFps := fps;
        if now - lastPerformanceCheck > performanceCheckInterval {
          CheckPerformance();
          lastPerformanceCheck := now;
        }
      }
    }
  }
}
