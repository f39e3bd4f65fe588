/**
 * The clock strategy `TimerBaseChrono<clock_, resolution>`.
 *
 * The clock is not read here: every operation that would call `clock_::now()`
 * takes the current instant `now` as an argument, counted in base clock units.
 * The `resolution` template parameter becomes the number of base units in one
 * tick of the reported count. The "unset" sentinel `time_point::min()` becomes
 * `None`.
 */
module Timer {
  import opened Wrappers

  /** Base clock units per tick of the reported resolution (a duration, so positive). */
  type Resolution = n: nat | 0 < n witness 1

  /**
   * `duration_cast<resolution>(now - start).count()` for a non-negative interval:
   * the number of whole resolution ticks in it, truncated.
   */
  function Elapsed(start: nat, now: nat, res: Resolution): (r: nat)
    requires start <= now
    ensures r * res <= now - start < (r + 1) * res
  {
    (now - start) / res
  }

  /** The truncated count is the only count that brackets the interval. */
  lemma ElapsedIsTruncation(start: nat, now: nat, res: Resolution, q: nat)
    requires start <= now
    requires q * res <= now - start < (q + 1) * res
    ensures q == Elapsed(start, now, res)
  {
  }

  /** A later reading of a running timer never reports less. */
  lemma ElapsedMonotone(start: nat, now1: nat, now2: nat, res: Resolution)
    requires start <= now1 <= now2
    ensures Elapsed(start, now1, res) <= Elapsed(start, now2, res)
  {
  }

  /** A running timer's start is not later than the clock reading `now`. */
  predicate StartNotAfter(start: Option<nat>, now: nat) {
    start.Some? ==> start.value <= now
  }

  class TimerBaseChrono {
    const resolution: Resolution
    /** `m_start`; `None` is the sentinel `time_point::min()` */
    var start: Option<nat>

    /** A fresh timer is not started. */
    constructor (resolution: Resolution)
      ensures this.resolution == resolution
      ensures start == None && !IsStarted()
    {
      this.resolution := resolution;
      start := None;
    }

    /** The timer is running exactly when its start is not the sentinel. */
    predicate IsStarted()
      reads this
    {
      start.Some?
    }

    /** The clock reading `now` is not earlier than the recorded start. */
    predicate NotBefore(now: nat)
      reads this
    {
      StartNotAfter(start, now)
    }

    /** Back to the sentinel: not started. */
    method Clear()
      modifies this
      ensures start == None && !IsStarted()
    {
      start := None;
    }

    /** Records `now` as the start, overwriting any earlier start. */
    method Start(now: nat)
      modifies this
      ensures start == Some(now) && IsStarted()
    {
      start := Some(now);
    }

    /** Elapsed ticks since the start, or 0 when not started; reads no field it changes. */
    function GetMs(now: nat): (r: nat)
      reads this
      requires NotBefore(now)
      ensures !IsStarted() ==> r == 0
      ensures IsStarted() ==> r * resolution <= now - start.value < (r + 1) * resolution
      ensures IsStarted() ==> r == Elapsed(start.value, now, resolution)
    {
      if IsStarted() then Elapsed(start.value, now, resolution) else 0
    }
  }
}
