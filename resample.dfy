/** `timesync::sample`: turns a sparse, time-stamped recording into one value
    per point of the grid time_begin, time_begin + interval, ... below
    time_end, with a cursor that only moves forward. */
module Resample {
  import opened Wrappers
  import opened Signals

  const InsufficientRange := "insufficient time range for sampling"

  /** The message of the std::length_error `vector::reserve` throws. */
  const ReserveTooLarge := "vector::reserve"

  /** `std::vector<double>::max_size()` of libstdc++ on a 64-bit target:
      PTRDIFF_MAX / sizeof(double). */
  const MaxVectorSize: nat := 0x0FFF_FFFF_FFFF_FFFF

  /** The count of a `std::chrono` duration divided by another: integer
      division, truncated toward zero. */
  function TruncDiv(a: int, b: int): (q: int)
    requires b > 0
    ensures a >= 0 ==> q >= 0 && q * b <= a < q * b + b
    ensures a < 0 ==> q <= 0 && q * b - b < a <= q * b
  {
    if a >= 0 then
      DivBounds(a, b);
      a / b
    else
      DivBounds(-a, b);
      -((-a) / b)
  }

  lemma DivBounds(a: int, b: int)
    requires a >= 0 && b > 0
    ensures a / b >= 0 && (a / b) * b <= a < (a / b) * b + b
  {
    assert a == (a / b) * b + a % b;
  }

  lemma MulMono(x: int, y: int, b: int)
    requires x <= y && b > 0
    ensures x * b <= y * b
  {
    assert (y - x) * b >= 0;
  }

  /** `output.reserve((time_end - time_begin) / interval)` throws
      std::length_error: the count, converted to size_t, exceeds max_size().
      A negative count converts to at least 2^63. */
  predicate ReserveFails(begin: int, end: int, interval: int)
    requires interval > 0
  {
    var n := TruncDiv(end - begin, interval);
    n < 0 || n > MaxVectorSize
  }

  /** The reservation fails exactly for a window reversed by at least one
      interval, or one holding more than max_size() whole intervals. */
  lemma ReserveFailsWhen(begin: int, end: int, interval: int)
    requires interval > 0
    ensures ReserveFails(begin, end, interval) <==>
      begin - end >= interval || end - begin >= (MaxVectorSize + 1) * interval
  {
    var n := TruncDiv(end - begin, interval);
    if n < 0 {
      MulMono(n, -1, interval);
    } else if n > MaxVectorSize {
      MulMono(MaxVectorSize + 1, n, interval);
    } else {
      MulMono(n + 1, MaxVectorSize + 1, interval);
    }
  }

  /** Where the cursor stops for grid point tp when it starts at index i: the
      first index at or after i whose time is not before tp, or None when the
      recording runs out first. */
  function Seek(recording: seq<TimeValue>, i: nat, tp: int): (j: Option<nat>)
    requires i <= |recording|
    ensures j.Some? ==> i <= j.value < |recording| && recording[j.value].time >= tp
    ensures j.Some? ==> forall m :: i <= m < j.value ==> recording[m].time < tp
    ensures j.None? ==> forall m :: i <= m < |recording| ==> recording[m].time < tp
    decreases |recording| - i
  {
    if i == |recording| then None
    else if recording[i].time >= tp then Some(i)
    else Seek(recording, i + 1, tp)
  }

  /** The first index of the whole recording whose time is not before t. */
  function First(recording: seq<TimeValue>, t: int): Option<nat>
  {
    Seek(recording, 0, t)
  }

  /** The samples for the grid points tp, tp + interval, ... below end, with
      the cursor at index i: the loop of `sample` from that point on. */
  function SampleFrom(recording: seq<TimeValue>, i: nat, tp: int, end: int, interval: int): Result<seq<real>>
    requires i <= |recording| && interval > 0
    decreases if tp < end then end - tp else 0
  {
    if tp >= end then Success([])
    else match Seek(recording, i, tp)
      case None => Failure(InsufficientRange)
      case Some(j) => Prepend(recording[j].value, SampleFrom(recording, j, tp + interval, end, interval))
  }

  function Prepend(v: real, r: Result<seq<real>>): Result<seq<real>>
  {
    if r.Failure? then r else Success([v] + r.value)
  }

  function Concat(front: seq<real>, r: Result<seq<real>>): Result<seq<real>>
  {
    if r.Failure? then r else Success(front + r.value)
  }

  /** Number of grid points time_begin + k * interval below time_end. */
  function GridSize(begin: int, end: int, interval: int): nat
    requires interval > 0
    decreases if begin < end then end - begin else 0
  {
    if end <= begin then 0 else 1 + GridSize(begin + interval, end, interval)
  }

  /** Grid point k lies below time_end exactly for the first GridSize
      indices k. */
  lemma {:induction false} GridPointsBelowEnd(begin: int, end: int, interval: int, k: nat)
    requires interval > 0
    ensures k < GridSize(begin, end, interval) <==> begin + k * interval < end
    decreases k
  {
    if k > 0 && begin < end {
      GridPointsBelowEnd(begin + interval, end, interval, k - 1);
      assert begin + k * interval == (begin + interval) + (k - 1) * interval;
    }
  }

  /** The result of `sample`: the reservation, then the loop from the first
      grid point with the cursor at the start of the recording. */
  function SampleOf(recording: seq<TimeValue>, begin: int, end: int, interval: int): Result<seq<real>>
    requires interval > 0
  {
    if ReserveFails(begin, end, interval) then Failure(ReserveTooLarge)
    else SampleFrom(recording, 0, begin, end, interval)
  }

  /** `sample`, with the end-of-recording check made before the cursor is
      dereferenced. */
  method Sample(recording: seq<TimeValue>, begin: int, end: int, interval: int) returns (r: Result<seq<real>>)
    requires interval > 0
    ensures r == SampleOf(recording, begin, end, interval)
  {
    var reserve := TruncDiv(end - begin, interval);
    if reserve < 0 || reserve > MaxVectorSize {
      return Failure(ReserveTooLarge);
    }
    var i: nat := 0;
    var output: seq<real> := [];
    var tp := begin;
    ghost var whole := SampleFrom(recording, 0, begin, end, interval);
    if whole.Success? {
      assert [] + whole.value == whole.value;
    }
    while tp < end
      invariant i <= |recording|
      invariant Concat(output, SampleFrom(recording, i, tp, end, interval)) == whole
      decreases end - tp
    {
      ghost var start := i;
      while i == |recording| || recording[i].time < tp
        invariant start <= i <= |recording|
        invariant Seek(recording, i, tp) == Seek(recording, start, tp)
        invariant Concat(output, SampleFrom(recording, start, tp, end, interval)) == whole
        decreases |recording| - i
      {
        if i == |recording| {
          assert SampleFrom(recording, start, tp, end, interval) == Failure(InsufficientRange);
          return Failure(InsufficientRange);
        }
        i := i + 1;
      }
      assert Seek(recording, start, tp) == Some(i);
      ghost var rest := SampleFrom(recording, i, tp + interval, end, interval);
      assert SampleFrom(recording, start, tp, end, interval) == Prepend(recording[i].value, rest);
      if rest.Success? {
        assert output + ([recording[i].value] + rest.value) == (output + [recording[i].value]) + rest.value;
      }
      output := output + [recording[i].value];
      tp := tp + interval;
    }
    assert output + [] == output;
    r := Success(output);
  }

  /** Cursor positions passed over lie before every later grid point, so the
      forward-only cursor finds the same element as a search from the start. */
  lemma {:induction false} SeekFindsFirst(recording: seq<TimeValue>, i: nat, tp: int)
    requires i <= |recording|
    requires forall m :: 0 <= m < i ==> recording[m].time < tp
    ensures Seek(recording, i, tp) == First(recording, tp)
  {
    if i > 0 {
      assert Seek(recording, i - 1, tp) == Seek(recording, i, tp);
      SeekFindsFirst(recording, i - 1, tp);
    }
  }

  /** Values found from grid point tp + interval on, shifted to start at tp
      with the value of element j in front. */
  lemma ShiftValues(recording: seq<TimeValue>, j: nat, tp: int, interval: int, rest: seq<real>)
    requires j < |recording| && First(recording, tp) == Some(j)
    requires forall k :: 0 <= k < |rest| ==>
      First(recording, (tp + interval) + k * interval).Some? &&
      rest[k] == recording[First(recording, (tp + interval) + k * interval).value].value
    ensures var vs := [recording[j].value] + rest;
      forall k :: 0 <= k < |vs| ==>
        First(recording, tp + k * interval).Some? &&
        vs[k] == recording[First(recording, tp + k * interval).value].value
  {
    var vs := [recording[j].value] + rest;
    forall k | 0 <= k < |vs|
      ensures First(recording, tp + k * interval).Some?
      ensures vs[k] == recording[First(recording, tp + k * interval).value].value
    {
      if k > 0 {
        assert tp + k * interval == (tp + interval) + (k - 1) * interval;
      }
    }
  }

  /** The generalised statement behind the success half of
      SampleIsFirstAtOrAfter, for the loop at grid point tp with cursor i. */
  lemma {:induction false} SampleFromSuccess(recording: seq<TimeValue>, i: nat, tp: int, end: int, interval: int)
    requires i <= |recording| && interval > 0
    requires forall m :: 0 <= m < i ==> recording[m].time < tp
    requires SampleFrom(recording, i, tp, end, interval).Success?
    ensures var vs := SampleFrom(recording, i, tp, end, interval).value;
      |vs| == GridSize(tp, end, interval) &&
      forall k :: 0 <= k < |vs| ==>
        First(recording, tp + k * interval).Some? &&
        vs[k] == recording[First(recording, tp + k * interval).value].value
    decreases if tp < end then end - tp else 0
  {
    if tp < end {
      SeekFindsFirst(recording, i, tp);
      var j := Seek(recording, i, tp).value;
      SampleFromSuccess(recording, j, tp + interval, end, interval);
      ShiftValues(recording, j, tp, interval, SampleFrom(recording, j, tp + interval, end, interval).value);
    }
  }

  /** The generalised statement behind the failure half. */
  lemma {:induction false} SampleFromFailure(recording: seq<TimeValue>, i: nat, tp: int, end: int, interval: int)
    requires i <= |recording| && interval > 0
    requires forall m :: 0 <= m < i ==> recording[m].time < tp
    requires SampleFrom(recording, i, tp, end, interval).Failure?
    ensures exists k :: 0 <= k < GridSize(tp, end, interval) && First(recording, tp + k * interval).None?
    decreases if tp < end then end - tp else 0
  {
    SeekFindsFirst(recording, i, tp);
    var s := Seek(recording, i, tp);
    if s.None? {
      assert First(recording, tp + 0 * interval).None?;
    } else {
      var j := s.value;
      SampleFromFailure(recording, j, tp + interval, end, interval);
      var k :| 0 <= k < GridSize(tp + interval, end, interval) && First(recording, (tp + interval) + k * interval).None?;
      ShiftMissing(recording, tp, end, interval, k);
    }
  }

  lemma ShiftMissing(recording: seq<TimeValue>, tp: int, end: int, interval: int, k: nat)
    requires interval > 0 && tp < end
    requires k < GridSize(tp + interval, end, interval) && First(recording, (tp + interval) + k * interval).None?
    ensures k + 1 < GridSize(tp, end, interval) && First(recording, tp + (k + 1) * interval).None?
  {
    assert tp + (k + 1) * interval == (tp + interval) + k * interval;
  }

  /** A reservation that fails is reported before anything is sampled.
      Otherwise there is exactly one value per grid point, and each is the
      value of the first element of the recording whose time is not before
      that grid point; the loop fails, with the range error, only when some
      grid point has no such element. */
  lemma SampleIsFirstAtOrAfter(recording: seq<TimeValue>, begin: int, end: int, interval: int)
    requires interval > 0
    ensures ReserveFails(begin, end, interval) ==> SampleOf(recording, begin, end, interval) == Failure(ReserveTooLarge)
    ensures var r := SampleOf(recording, begin, end, interval);
      r.Success? ==>
        |r.value| == GridSize(begin, end, interval) &&
        forall k :: 0 <= k < |r.value| ==>
          First(recording, begin + k * interval).Some? &&
          r.value[k] == recording[First(recording, begin + k * interval).value].value
    ensures SampleOf(recording, begin, end, interval).Failure? && !ReserveFails(begin, end, interval) ==>
      SampleOf(recording, begin, end, interval).error == InsufficientRange &&
      exists k :: 0 <= k < GridSize(begin, end, interval) && First(recording, begin + k * interval).None?
  {
    if !ReserveFails(begin, end, interval) {
      if SampleFrom(recording, 0, begin, end, interval).Success? {
        SampleFromSuccess(recording, 0, begin, end, interval);
      } else {
        SampleFromFailure(recording, 0, begin, end, interval);
        LoopFailsWithRange(recording, 0, begin, end, interval);
      }
    }
  }

  /** The only error the loop of `sample` raises is the insufficient time
      range. */
  lemma {:induction false} LoopFailsWithRange(recording: seq<TimeValue>, i: nat, tp: int, end: int, interval: int)
    requires i <= |recording| && interval > 0
    ensures SampleFrom(recording, i, tp, end, interval).Failure? ==>
      SampleFrom(recording, i, tp, end, interval).error == InsufficientRange
    decreases if tp < end then end - tp else 0
  {
    if tp < end && Seek(recording, i, tp).Some? {
      LoopFailsWithRange(recording, Seek(recording, i, tp).value, tp + interval, end, interval);
    }
  }

  /** An empty grid (time_begin at or after time_end) gives no samples, even
      from an empty recording, unless the window is reversed by a whole
      interval or more: then the count handed to `reserve` is negative. */
  lemma SampleEmptyGrid(recording: seq<TimeValue>, begin: int, end: int, interval: int)
    requires interval > 0 && begin >= end
    ensures GridSize(begin, end, interval) == 0
    ensures SampleOf(recording, begin, end, interval) ==
      if begin - end >= interval then Failure(ReserveTooLarge) else Success([])
  {
    ReserveFailsWhen(begin, end, interval);
  }

  /** The number reserved never exceeds the number of grid points, and
      falls short of it by at most one, for a window that is not reversed. */
  lemma {:induction false} ReserveWithinGrid(begin: int, end: int, interval: int)
    requires interval > 0 && begin <= end
    ensures TruncDiv(end - begin, interval) <= GridSize(begin, end, interval) <= TruncDiv(end - begin, interval) + 1
  {
    var n := TruncDiv(end - begin, interval);
    if n >= 1 {
      assert begin + (n - 1) * interval < end;
      GridPointsBelowEnd(begin, end, interval, n - 1);
    }
    assert begin + (n + 1) * interval >= end;
    GridPointsBelowEnd(begin, end, interval, n + 1);
  }

  /** A recording with some element at or after time_end covers every grid
      point, so sampling it succeeds exactly when the reservation does, with
      one value per grid point. */
  lemma ReachingEndSamples(recording: seq<TimeValue>, begin: int, end: int, interval: int, j: nat)
    requires interval > 0 && j < |recording| && recording[j].time >= end
    ensures SampleOf(recording, begin, end, interval).Success? <==> !ReserveFails(begin, end, interval)
    ensures SampleFrom(recording, 0, begin, end, interval).Success?
    ensures |SampleFrom(recording, 0, begin, end, interval).value| == GridSize(begin, end, interval)
  {
    forall k | 0 <= k < GridSize(begin, end, interval)
      ensures First(recording, begin + k * interval).Some?
    {
      GridPointsBelowEnd(begin, end, interval, k);
    }
    if SampleFrom(recording, 0, begin, end, interval).Success? {
      SampleFromSuccess(recording, 0, begin, end, interval);
    } else {
      SampleFromFailure(recording, 0, begin, end, interval);
    }
  }

  /** Two signals sampled on the same grid have the same number of values. */
  lemma SameGridSameLength(a: seq<TimeValue>, b: seq<TimeValue>, begin: int, end: int, interval: int)
    requires interval > 0
    requires SampleOf(a, begin, end, interval).Success?
    requires SampleOf(b, begin, end, interval).Success?
    ensures |SampleOf(a, begin, end, interval).value| == |SampleOf(b, begin, end, interval).value|
  {
    SampleIsFirstAtOrAfter(a, begin, end, interval);
    SampleIsFirstAtOrAfter(b, begin, end, interval);
  }

  /** The indices the inner loop of `sample` dereferences as written: it reads
      `it->time` before testing `it` against the end, so a cursor that runs
      off the recording reads index |recording|. */
  function DereferencedAsWritten(recording: seq<TimeValue>, i: nat, tp: int): (d: seq<nat>)
    requires i <= |recording|
    ensures |d| >= 1 && d[0] == i
    decreases |recording| - i
  {
    if i == |recording| then [i]
    else if recording[i].time >= tp then [i]
    else [i] + DereferencedAsWritten(recording, i + 1, tp)
  }

  /** As written, the loop reads one past the end of the recording exactly
      when the corrected check reports an insufficient time range. */
  lemma {:induction false} AsWrittenReadsPastEnd(recording: seq<TimeValue>, i: nat, tp: int)
    requires i <= |recording|
    ensures |recording| in DereferencedAsWritten(recording, i, tp) <==> Seek(recording, i, tp).None?
    decreases |recording| - i
  {
    if i < |recording| && recording[i].time < tp {
      AsWrittenReadsPastEnd(recording, i + 1, tp);
    }
  }

  /** A one-element recording at time 0 sampled at time 1: the source reads
      the element at index 1, which does not exist. */
  lemma AsWrittenExample()
    ensures DereferencedAsWritten([TimeValue(0, 1.0)], 0, 1) == [0, 1]
    ensures SampleOf([TimeValue(0, 1.0)], 1, 2, 1) == Failure(InsufficientRange)
  {
  }
}
