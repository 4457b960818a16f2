/** The steady clock seen by the synchronization pattern. Real time is
    outside the model: the clock is an oracle whose readings never go
    backwards, and every busy-wait workload call takes at least one tick. */
module Clocks {

  class Clock {
    /** The latest time observed, in nanoseconds. */
    var now: int

    constructor(start: int)
      ensures now == start
    {
      now := start;
    }

    /** `Clock::now()`: some time no earlier than any previous reading. */
    method Now() returns (t: int)
      modifies this
      ensures old(now) <= t && now == t
    {
      t :| t >= now;
      now := t;
    }

    /** One call of a workload body (`low()` or `high()`): time passes. */
    method Work()
      modifies this
      ensures now > old(now)
    {
      var t :| t > now;
      now := t;
    }
  }
}
