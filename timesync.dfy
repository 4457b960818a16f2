/** `timesync::CCTimeSync`: records a footprint at the start and at the end
    of the measurement, and finds where each footprint lies in the measured
    power signal by cross-correlating the two, both resampled on the grid of
    the footprint's window. */
module TimeSync {
  import opened Wrappers
  import opened Signals
  import opened Clocks
  import opened Floats
  import opened Bits
  import opened PowerOfTwo
  import opened Resample
  import opened Footprints
  import opened Fft

  /** `sampling_interval_` unless overridden: two microseconds, in nanoseconds. */
  const DefaultSamplingInterval: int := 2000

  /** A `std::vector<double>` of sampled values, each a finite double. */
  function AsDoubles(s: seq<real>): (f: seq<Float>)
    ensures |f| == |s| && AllFinite(f)
    ensures forall i :: 0 <= i < |s| ==> f[i] == Finite(s[i])
  {
    seq(|s|, i requires 0 <= i < |s| => Finite(s[i]))
  }

  /** The most samples a footprint window may hold: for more, the extended
      size of the Shifter would pass 2^30 and the `int` loop counter of its
      `operator()` could no longer reach it. */
  const MaxSamples: nat := 0x2000_0000

  /** The extended size a Shifter for size samples uses: 2^L for L the bit
      length of 2 * size - 2. */
  function ExtendedFor(size: nat): (e: nat)
    requires 1 <= size <= MaxSamples
    ensures IsPowerOfTwo(e) && 2 * size - 1 <= e < 2 * (2 * size - 1)
    ensures e < IntLimit
  {
    IntFitsHalfWord(WordBits - 2);
    assert Pow2(WordBits - 1) == 2 * Pow2(WordBits - 2);
    BitLengthAtMost(2 * size - 2, WordBits - 1);
    InRange(2 * size - 1, BitLength(2 * size - 2));
    Pow2(BitLength(2 * size - 2))
  }

  /** The Shifter's extended size is the one `ExtendedFor` names. */
  lemma ExtendedIsExtendedFor(size: nat, e: nat)
    requires 1 <= size <= MaxSamples
    requires IsPowerOfTwo(e) && 2 * size - 1 <= e < 2 * (2 * size - 1)
    ensures e == ExtendedFor(size)
  {
    PowerOfTwoInRangeUnique(2 * size - 1, e, ExtendedFor(size));
  }

  /** Every grid point of a recorded footprint's window lies below time_end,
      the time of its twelfth entry, and the window is not reversed, so
      sampling the footprint fails only when the reservation exceeds
      max_size(), and otherwise gives at least one value. */
  lemma FootprintSamples(recording: seq<TimeValue>, begin: int, end: int, interval: int)
    requires PatternRecorded(recording, begin, end) && interval > 0
    ensures SampleOf(recording, begin, end, interval).Success? <==> !ReserveFails(begin, end, interval)
    ensures GridSize(begin, end, interval) <= MaxVectorSize ==> SampleOf(recording, begin, end, interval).Success?
    ensures SampleOf(recording, begin, end, interval).Success? ==>
      |SampleOf(recording, begin, end, interval).value| == GridSize(begin, end, interval) >= 1
  {
    ReachingEndSamples(recording, begin, end, interval, 11);
    PatternSpan(recording, begin, end);
    ReserveWithinGrid(begin, end, interval);
  }

  /** `find_offset`: the lag at which the measured signal best matches the
      footprint, both sampled on the footprint's window, or the error that
      sampling or the correlation raised. */
  function LagOf(recording: seq<TimeValue>, begin: int, end: int, interval: int, measured: seq<TimeValue>,
                 forward: (seq<Float>, nat) -> Complex, inverse: (seq<Complex>, nat) -> Float): Result<int>
    requires interval > 0 && PatternRecorded(recording, begin, end)
    requires GridSize(begin, end, interval) <= MaxSamples
  {
    FootprintSamples(recording, begin, end, interval);
    var f := SampleOf(recording, begin, end, interval).value;
    var m := SampleOf(measured, begin, end, interval);
    if m.Failure? then Failure(m.error)
    else
      SameGridSameLength(recording, measured, begin, end, interval);
      SignalLag(f, m.value, forward, inverse)
  }

  /** The lag the fft.hpp Shifter finds between two sampled signals of the
      same length, or the error it raises. */
  function SignalLag(footprintSignal: seq<real>, measuredSignal: seq<real>,
                     forward: (seq<Float>, nat) -> Complex, inverse: (seq<Complex>, nat) -> Float): Result<int>
    requires |footprintSignal| == |measuredSignal| && 1 <= |measuredSignal| <= MaxSamples
  {
    var size := |measuredSignal|;
    var c := Correlate(size, ExtendedFor(size), forward, inverse, AsDoubles(footprintSignal), AsDoubles(measuredSignal));
    if c.Failure? then Failure(c.error) else Success(c.value.0)
  }

  /** A lag lies in [-(e - size), size - 1] for the grid's size and extended
      size e, and a measured signal that reaches the end of the window never
      makes sampling fail. */
  lemma LagRange(recording: seq<TimeValue>, begin: int, end: int, interval: int, measured: seq<TimeValue>,
                 forward: (seq<Float>, nat) -> Complex, inverse: (seq<Complex>, nat) -> Float)
    requires interval > 0 && PatternRecorded(recording, begin, end)
    requires GridSize(begin, end, interval) <= MaxSamples
    ensures var size := GridSize(begin, end, interval);
      LagOf(recording, begin, end, interval, measured, forward, inverse).Success? ==>
        size - ExtendedFor(size) <= LagOf(recording, begin, end, interval, measured, forward, inverse).value <= size - 1
    ensures LagOf(recording, begin, end, interval, measured, forward, inverse) == Failure(InsufficientRange) <==>
      SampleOf(measured, begin, end, interval).Failure?
  {
    FootprintSamples(recording, begin, end, interval);
    var f := SampleOf(recording, begin, end, interval).value;
    var m := SampleOf(measured, begin, end, interval);
    if m.Success? {
      SameGridSameLength(recording, measured, begin, end, interval);
      var size := |m.value|;
      var e := ExtendedFor(size);
      CorrelateCheckOrder(size, e, forward, inverse, AsDoubles(f), AsDoubles(m.value));
      if Correlate(size, e, forward, inverse, AsDoubles(f), AsDoubles(m.value)).Success? {
        CorrelateLag(size, e, forward, inverse, AsDoubles(f), AsDoubles(m.value));
      }
    } else {
      SampleFailsWithRange(recording, measured, begin, end, interval);
    }
  }

  /** `sample` fails with the length error exactly when the reservation
      fails, and otherwise only with the insufficient time range; on the
      window of a recorded footprint of at most MaxSamples grid points the
      reservation always succeeds, so only the range error is left. */
  lemma SampleFailsWithRange(recording: seq<TimeValue>, measured: seq<TimeValue>, begin: int, end: int, interval: int)
    requires interval > 0
    ensures SampleOf(measured, begin, end, interval).Failure? ==>
      (SampleOf(measured, begin, end, interval).error == ReserveTooLarge <==> ReserveFails(begin, end, interval))
    ensures SampleOf(measured, begin, end, interval).Failure? && !ReserveFails(begin, end, interval) ==>
      SampleOf(measured, begin, end, interval).error == InsufficientRange
    ensures PatternRecorded(recording, begin, end) && GridSize(begin, end, interval) <= MaxSamples ==>
      !ReserveFails(begin, end, interval)
  {
    SampleIsFirstAtOrAfter(measured, begin, end, interval);
    if PatternRecorded(recording, begin, end) && GridSize(begin, end, interval) <= MaxSamples {
      FootprintSamples(recording, begin, end, interval);
    }
  }

  /** The integer results of `find_offsets`, all in nanoseconds. */
  datatype Offsets = Offsets(offsetBegin: int, offsetEnd: int, footprintDuration: int, measurementDuration: int)

  /** The offsets are the lags in units of the sampling interval; the
      measurement lasts as long as the footprints apart, stretched by how
      far the end offset exceeds the begin offset. */
  function OffsetsOf(lagBegin: int, lagEnd: int, interval: int, timeBegin: int, timeEnd: int): (o: Offsets)
    ensures o.offsetBegin == lagBegin * interval && o.offsetEnd == lagEnd * interval
    ensures o.footprintDuration == timeEnd - timeBegin
    ensures o.measurementDuration - o.footprintDuration == o.offsetEnd - o.offsetBegin
    ensures lagBegin == lagEnd ==> o.measurementDuration == o.footprintDuration
  {
    var offsetBegin := lagBegin * interval;
    var offsetEnd := lagEnd * interval;
    var footprintDuration := timeEnd - timeBegin;
    Offsets(offsetBegin, offsetEnd, footprintDuration, footprintDuration + offsetEnd - offsetBegin)
  }

  class CCTimeSync {
    const clock: Clock
    const samplingInterval: int
    const forward: (seq<Float>, nat) -> Complex
    const inverse: (seq<Complex>, nat) -> Float
    var footprintBegin: Footprint?
    var footprintEnd: Footprint?
    /** What `time_rate_` and `offset_zero_` are computed from: None until
        `find_offsets` first succeeds. */
    var offsets: Option<Offsets>

    /** Each footprint present holds a recorded pattern. */
    ghost predicate Valid()
      reads this`footprintBegin, this`footprintEnd, footprintBegin, footprintEnd
    {
      samplingInterval > 0 &&
      (footprintBegin != null ==>
        PatternRecorded(footprintBegin.recording, footprintBegin.timeBegin, footprintBegin.timeEnd)) &&
      (footprintEnd != null ==>
        PatternRecorded(footprintEnd.recording, footprintEnd.timeBegin, footprintEnd.timeEnd))
    }

    /** Both footprints are recorded, and each window holds no more grid
        points than a Shifter can be built for. */
    ghost predicate Ready()
      reads this`footprintBegin, this`footprintEnd, footprintBegin, footprintEnd
    {
      Valid() && footprintBegin != null && footprintEnd != null &&
      GridSize(footprintBegin.timeBegin, footprintBegin.timeEnd, samplingInterval) <= MaxSamples &&
      GridSize(footprintEnd.timeBegin, footprintEnd.timeEnd, samplingInterval) <= MaxSamples
    }

    /** The result of `find_offsets` on a measured signal: the offsets at
        both footprints, or the first error, the begin footprint first. */
    ghost function OffsetsFor(measured: seq<TimeValue>): (r: Result<Offsets>)
      requires Ready()
      reads this`footprintBegin, this`footprintEnd, footprintBegin, footprintEnd
      ensures r.Success? ==>
        LagOf(footprintBegin.recording, footprintBegin.timeBegin, footprintBegin.timeEnd,
              samplingInterval, measured, forward, inverse).Success? &&
        LagOf(footprintEnd.recording, footprintEnd.timeBegin, footprintEnd.timeEnd,
              samplingInterval, measured, forward, inverse).Success? &&
        r.value.measurementDuration - r.value.footprintDuration == r.value.offsetEnd - r.value.offsetBegin
    {
      var lagBegin := LagOf(footprintBegin.recording, footprintBegin.timeBegin, footprintBegin.timeEnd,
                            samplingInterval, measured, forward, inverse);
      var lagEnd := LagOf(footprintEnd.recording, footprintEnd.timeBegin, footprintEnd.timeEnd,
                          samplingInterval, measured, forward, inverse);
      if lagBegin.Failure? then Failure(lagBegin.error)
      else if lagEnd.Failure? then Failure(lagEnd.error)
      else Success(OffsetsOf(lagBegin.value, lagEnd.value, samplingInterval,
                             footprintBegin.Time(), footprintEnd.Time()))
    }

    /** No footprint yet; the sampling interval is `DefaultSamplingInterval`
        unless the environment sets another. */
    constructor(clock: Clock, samplingInterval: int,
                forward: (seq<Float>, nat) -> Complex, inverse: (seq<Complex>, nat) -> Float)
      requires samplingInterval > 0
      ensures Valid() && footprintBegin == null && footprintEnd == null && offsets == None
      ensures this.clock == clock && this.samplingInterval == samplingInterval
      ensures this.forward == forward && this.inverse == inverse
    {
      this.clock := clock;
      this.samplingInterval := samplingInterval;
      this.forward := forward;
      this.inverse := inverse;
      footprintBegin := null;
      footprintEnd := null;
      offsets := None;
    }

    /** `sync_begin()`: record a new begin footprint; the end footprint stays. */
    method SyncBegin()
      requires Valid()
      modifies this, clock
      ensures Valid() && fresh(footprintBegin) && footprintEnd == old(footprintEnd) && offsets == old(offsets)
    {
      footprintBegin := new Footprint(clock);
    }

    /** `sync_end()`: record a new end footprint; the begin footprint stays. */
    method SyncEnd()
      requires Valid()
      modifies this, clock
      ensures Valid() && fresh(footprintEnd) && footprintBegin == old(footprintBegin) && offsets == old(offsets)
    {
      footprintEnd := new Footprint(clock);
    }

    /** `find_offset`: sample both signals on the footprint's window and
        correlate them with a Shifter of that many samples. */
    method FindOffset(footprint: Footprint, measured: seq<TimeValue>) returns (r: Result<int>)
      requires samplingInterval > 0
      requires PatternRecorded(footprint.recording, footprint.timeBegin, footprint.timeEnd)
      requires GridSize(footprint.timeBegin, footprint.timeEnd, samplingInterval) <= MaxSamples
      ensures r == LagOf(footprint.recording, footprint.timeBegin, footprint.timeEnd, samplingInterval,
                         measured, forward, inverse)
    {
      var stBegin := footprint.timeBegin;
      var stEnd := footprint.timeEnd;
      var footprintSignal := Sample(footprint.recording, stBegin, stEnd, samplingInterval);
      var measuredSignal := Sample(measured, stBegin, stEnd, samplingInterval);
      FootprintSamples(footprint.recording, stBegin, stEnd, samplingInterval);
      if measuredSignal.Failure? {
        return Failure(measuredSignal.error);
      }
      SameGridSameLength(footprint.recording, measured, stBegin, stEnd, samplingInterval);
      r := Correlated(footprintSignal.value, measuredSignal.value);
    }

    /** The second half of `find_offset`: a Shifter of the signals' length
        and the lag it finds. */
    method Correlated(footprintSignal: seq<real>, measuredSignal: seq<real>) returns (r: Result<int>)
      requires |footprintSignal| == |measuredSignal| && 1 <= |measuredSignal| <= MaxSamples
      ensures r == SignalLag(footprintSignal, measuredSignal, forward, inverse)
    {
      var size := |measuredSignal|;
      IntFitsHalfWord(WordBits - 2);
      assert Pow2(WordBits - 1) == 2 * Pow2(WordBits - 2);
      var shifter := new Shifter(size, forward, inverse);
      ExtendedIsExtendedFor(size, shifter.extendedSize);
      var result := shifter.Call(AsDoubles(footprintSignal), AsDoubles(measuredSignal));
      if result.Failure? {
        return Failure(result.error);
      }
      r := Success(result.value.0);
    }

    /** `find_offsets`: both footprints must exist; the offsets of both are
        found, begin first, and kept only when both are found. */
    method FindOffsets(measured: seq<TimeValue>) returns (r: Result<Offsets>)
      requires Ready()
      modifies this`offsets
      ensures r == OffsetsFor(measured)
      ensures offsets == if r.Success? then Some(r.value) else old(offsets)
    {
      var lagBegin := FindOffset(footprintBegin, measured);
      if lagBegin.Failure? {
        return Failure(lagBegin.error);
      }
      var lagEnd := FindOffset(footprintEnd, measured);
      if lagEnd.Failure? {
        return Failure(lagEnd.error);
      }
      var offsetBegin := lagBegin.value * samplingInterval;
      var offsetEnd := lagEnd.value * samplingInterval;
      var footprintDuration := footprintEnd.Time() - footprintBegin.Time();
      var measurementDuration := footprintDuration + offsetEnd - offsetBegin;
      assert Offsets(offsetBegin, offsetEnd, footprintDuration, measurementDuration) ==
        OffsetsOf(lagBegin.value, lagEnd.value, samplingInterval, footprintBegin.Time(), footprintEnd.Time());
      r := Success(Offsets(offsetBegin, offsetEnd, footprintDuration, measurementDuration));
      offsets := Some(r.value);
    }
  }
}
