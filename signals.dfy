/** Time-stamped samples: a recorded footprint level or a metric reading. */
module Signals {

  /** `metricq::TimeValue`: a time point (nanoseconds) and a value. */
  datatype TimeValue = TimeValue(time: int, value: real)

  /** Time stamps never decrease along the sequence. */
  predicate Sorted(s: seq<TimeValue>)
  {
    forall i, j :: 0 <= i < j < |s| ==> s[i].time <= s[j].time
  }
}
