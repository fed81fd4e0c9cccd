/**
 * The frame clock (src/clock.rs). Instants are readings of a clock in seconds,
 * passed in by the caller in place of `Instant::now()`.
 */
module Clock {
  import opened Vectors

  /**
   * `later - earlier` on instants: the duration between them, or zero when the
   * readings are out of order (the standard library saturates there).
   */
  function Since(later: real, earlier: real): (r: Duration)
    ensures earlier <= later ==> r == later - earlier
    ensures later < earlier ==> r == 0.0
  {
    if earlier <= later then later - earlier else 0.0
  }

  /** The total of a sequence of durations. */
  function Sum(dts: seq<Duration>): (r: Duration)
    decreases |dts|
  {
    if dts == [] then 0.0 else Sum(dts[..|dts| - 1]) + dts[|dts| - 1]
  }

  /** Appending a duration adds it to the total, and the total is at least every one of its parts. */
  lemma {:induction false} SumAppend(dts: seq<Duration>, dt: Duration)
    ensures Sum(dts + [dt]) == Sum(dts) + dt
    ensures forall i :: 0 <= i < |dts| ==> dts[i] <= Sum(dts)
    decreases |dts|
  {
    assert (dts + [dt])[..|dts|] == dts;
    if dts != [] {
      var n := |dts| - 1;
      SumAppend(dts[..n], dts[n]);
      assert dts[..n] + [dts[n]] == dts;
      forall i | 0 <= i < |dts|
        ensures dts[i] <= Sum(dts)
      {
        if i < n {
          assert dts[..n][i] == dts[i];
        }
      }
    }
  }

  class Clock {
    var lastTickTime: Option<real>
    var elapsedTime: Duration
    var lastDt: Duration
    /** Every `last_dt` produced since `new`, in order. */
    ghost var dts: seq<Duration>

    /** The elapsed time is the sum of all deltas so far, and `dt` is the latest of them (zero before the second tick). */
    ghost predicate Valid()
      reads this
    {
      elapsedTime == Sum(dts) &&
      lastDt == (if dts == [] then 0.0 else dts[|dts| - 1]) &&
      (lastTickTime.None? ==> dts == [])
    }

    /** `Clock::new`: no tick yet, nothing elapsed. */
    constructor ()
      ensures Valid()
      ensures lastTickTime == None && elapsedTime == 0.0 && lastDt == 0.0 && dts == []
    {
      lastTickTime, elapsedTime, lastDt := None, 0.0, 0.0;
      dts := [];
    }

    /** `total_time`: the sum of every delta so far. */
    function TotalTime(): (r: Duration)
      reads this
      requires Valid()
      ensures r == Sum(dts)
    {
      elapsedTime
    }

    /** `dt`: the latest delta, zero before the second tick. */
    function Dt(): (r: Duration)
      reads this
      requires Valid()
      ensures dts != [] ==> r == dts[|dts| - 1]
      ensures dts == [] ==> r == 0.0
    {
      lastDt
    }

    /**
     * `tick`, given the two readings of the clock it takes: `now`, from which
     * the delta since the last tick is measured, and `stamp`, recorded as the new
     * last tick. The first tick only records its stamp.
     */
    method Tick(now: real, stamp: real)
      requires Valid()
      modifies this
      ensures Valid()
      ensures lastTickTime == Some(stamp)
      ensures old(lastTickTime).None? ==>
        elapsedTime == old(elapsedTime) && lastDt == old(lastDt) && dts == old(dts)
      ensures old(lastTickTime).Some? ==>
        lastDt == Since(now, old(lastTickTime).value) &&
        elapsedTime == old(elapsedTime) + lastDt &&
        dts == old(dts) + [lastDt]
    {
      if lastTickTime.Some? {
        var lastTick := lastTickTime.value;
        lastDt := Since(now, lastTick);
        SumAppend(dts, lastDt);
        elapsedTime := elapsedTime + lastDt;
        dts := dts + [lastDt];
      }
      lastTickTime := Some(stamp);
    }
  }
}
