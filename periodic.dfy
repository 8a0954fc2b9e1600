/**
 * `Periodic`: a timer polled from the main loop that reports, at most once
 * per interval, that the interval has passed since it last fired.  The
 * elapsed time is the 32-bit difference of `millis()` readings, so the timer
 * keeps working across the wrap of the millisecond counter.
 */
module Periodic {
  import opened Machine

  class Periodic {
    var interval: Nat32
    /** `_last`: the `millis()` reading at the last firing (or reset). */
    var last: Nat32
    /** Whether a function is attached, and how often it was called. */
    const hasFn: bool
    var calls: nat

    /** `Periodic(intervalMs, fn)`: counting starts from time 0. */
    constructor (intervalMs: Nat32, hasFn: bool)
      ensures interval == intervalMs && last == 0 && this.hasFn == hasFn && calls == 0
    {
      interval := intervalMs;
      last := 0;
      this.hasFn := hasFn;
      calls := 0;
    }

    /** The interval has passed at time `now`. */
    predicate Due(now: Nat32)
      reads this
    {
      Elapsed32(now, last) >= interval
    }

    /** `setIntervalMs(ms, reset)`: a reset restarts the count from `now`. */
    method SetIntervalMs(intervalMs: Nat32, reset: bool, now: Nat32)
      modifies this
      ensures interval == intervalMs && calls == old(calls)
      ensures last == if reset then now else old(last)
    {
      interval := intervalMs;
      if reset {
        last := now;
      }
    }

    /** `ready()`: true exactly when the interval has passed, and then the count restarts from `now`. */
    method Ready(now: Nat32) returns (r: bool)
      modifies this
      ensures r == old(Due(now))
      ensures last == if r then now else old(last)
      ensures interval == old(interval) && calls == old(calls)
    {
      if Elapsed32(now, last) >= interval {
        last := now;
        return true;
      }
      return false;
    }

    /** `run()`: without a function the timer is not even consulted. */
    method Run(now: Nat32)
      modifies this
      ensures hasFn && old(Due(now)) ==> last == now && calls == old(calls) + 1
      ensures !(hasFn && old(Due(now))) ==> last == old(last) && calls == old(calls)
      ensures interval == old(interval)
    {
      if hasFn {
        var r := Ready(now);
        if r {
          calls := calls + 1;
        }
      }
    }
  }

  /**
   * Wrap-safety: `d` milliseconds after the last firing the timer is due
   * exactly when `d` reaches the interval, also when the counter wrapped
   * in between.
   */
  lemma DueAfter(last: Nat32, interval: Nat32, d: Nat32)
    ensures Elapsed32(Wrap32(last + d), last) >= interval <==> d >= interval
  {
    ElapsedAfter(last, d);
  }
}
