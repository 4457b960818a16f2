# Clock cross-correlation of the Score-P metricq plugin, in Dafny

This project models the core of `scorep_plugin_metricq` and proves properties of the model. The core is the clock cross-correlation helper of `src/timesync/` and the plugin rules of `src/main.cpp`. The plugin has two jobs:

- it reads metrics from a metricq server into a Score-P trace;
- it finds the offset between the local clock and the server's clock.

To find that offset, the plugin runs a known busy/idle load pattern (the *footprint*) at the start and at the end of the measurement. It then looks for the same pattern in a measured power signal, by cross-correlating the two.

What the model covers:

- **`msequence.dfy`** (`MSequence`):
  - the maximum-length sequence generator: a tap table for degrees 3 to 14, the tap mask, and the shift register `BinaryMSequenceIter` with `reg`, `overflow` and the `++` step;
  - the run-grouping `GroupedBinaryMSequence` with its do-while `take`.
  - The register stays in [1, 2^n) and is injective. It returns to the seed 1 after at most 2^n − 1 steps, and the iterator is exhausted exactly then. The runs alternate in level, spell out the emitted bits, and their lengths add up to that period. For degrees 3, 4 and 5 the period is computed to be 2^n − 1 (7, 15 and 31).
- **`footprint.dfy`** (`Footprints`): two revisions of the footprint, side by side.
  - The header revision: the `low`/`high` busy-wait recording loops, the `run(bool, duration)` dispatch, the fixed 13-phase `run()`, and `time()`.
  - The source-file revision: `run(exponent, quantum)`, which schedules one phase per m-sequence run against an accumulated deadline and skips runs whose deadline has passed.
  - The clock is an object whose readings never go backwards.
- **`resample.dfy`** (`Resample`): `sample`: the `reserve` of the truncated window count, which throws `std::length_error` for a window reversed by a whole interval or more, then the forward-only cursor. It produces one value per grid point, or the out-of-range error.
- **`timesync.dfy`** (`TimeSync`): `CCTimeSync` with its two footprints, `find_offset` and `find_offsets`, and the integer offset arithmetic.
- **`power_of_two.dfy`**, **`bits.dfy`** (`PowerOfTwo`, `Bits`): the 64-bit OR-shift `next_power_of_2` and the sizing of the transform buffers. Bit operations are on naturals, and the `size_t` wrap-around is explicit.
- **`fft.dfy`** (`Fft`), **`floats.dfy`** (`Floats`):
  - the `FFTBase` buffers, with zero-padding and the finiteness scan;
  - `std::max_element` with its comparator;
  - the `Shifter` of `fft.hpp`: its check order and its lag formula `size − 1 − index`.
  - FFTW plans are uninterpreted functions passed in. A double is finite (an exact real) or not.
- **`shifter.dfy`** (`Shifting`): the other `Shifter` revision, from `shifter.hpp`/`shifter.cpp`. It has:
  - a conjugate product over half spectra;
  - the main lobe as the first maximum;
  - the side lobe over indices at least `oversampling_factor` away on the ring;
  - the wrap and negation of the lag;
  - the quality-ratio branch, which only warns;
  - the static call counter.
- **`replace.dfy`**, **`averaging.dfy`**, **`plugin.dfy`** (`Replace`, `Averaging`, `Plugin`): the plugin rules of `main.cpp`:
  - `replace_all`;
  - the glob-to-regex selector;
  - the handle and scope-to-mode rules of `get_metric_properties`;
  - the sync hooks of `start`/`stop`;
  - the "first metric the offsets are found with wins" loop;
  - the averaging and plain write loops of `get_all_values`.

Three behaviours of the code worth noting:

- `time_end_` of the sequence footprint is the end of the last sequence phase, not of the closing tolerance phase (`footprint.cpp:97-119`).
- A main-to-side-lobe ratio below 3 only logs a warning. It does not fail the synchronization attempt (`shifter.hpp:97-107`).
- The `fft.hpp` Shifter returns only the lag and the peak value. It does not return a side-lobe ratio.

## Model

| member | source | states |
|---|---|---|
| MSequence.CoefficientIndices | src/timesync/msequence.hpp:29-60 | succeeds exactly for degrees 3..14, failing with "Unsupported sequence length" otherwise; the first index is n and every other lies in [1, n) |
| MSequence.ComputeCoeffs | src/timesync/msequence.hpp:16-27 | bit k of the mask is set iff k = n − index for some listed index |
| MSequence.TapMaskValid | src/timesync/msequence.hpp:16-27 | every tabled mask has bit 0 set (from the leading index n) and lies below 2^n |
| MSequence.SeedFeedback | src/timesync/msequence.hpp:76-79 | from the seed 1 the feedback bit is 1, because bit 0 of the mask is set |
| MSequence.NextInRange | src/timesync/msequence.hpp:87-96 | one register step keeps the register nonzero and below 2^n |
| MSequence.NextInjective | src/timesync/msequence.hpp:87-96 | two registers with the same successor are equal, so the orbit of the seed is a cycle |
| MSequence.DistinctBeforeReturn | src/timesync/msequence.hpp:87-96 | registers before the first return to 1 are pairwise distinct |
| MSequence.NoReturnBound | src/timesync/msequence.hpp:87-101 | m steps without returning to 1 visit m + 1 distinct nonzero registers, so m + 1 ≤ 2^n − 1 |
| MSequence.FirstReturn | src/timesync/msequence.hpp:87-101 | the register returns to 1 after some p in [1, 2^n), and not before |
| MSequence.PeriodIsFirstReturn | src/timesync/msequence.hpp:87-101 | the computed period is that first return |
| MSequence.CycleGivesPeriod | src/timesync/msequence.hpp:87-101 | a traced orbit from 1 back to 1 that avoids 1 in between fixes the period to its length |
| MSequence.PeriodDegree3 | src/timesync/msequence.hpp:33-34 | the degree-3 generator has period 7 = 2^3 − 1 |
| MSequence.PeriodDegree4 | src/timesync/msequence.hpp:35-36 | the degree-4 generator, taps {4, 1}, has period 15 = 2^4 − 1 |
| MSequence.PeriodDegree5 | src/timesync/msequence.hpp:37-38 | the degree-5 generator, taps {5, 2}, has period 31 = 2^5 − 1 |
| MSequence.FeedbackNine | src/timesync/msequence.hpp:76-79 | with the tap mask 9 of degrees 4 and 5 the output bit is bit 0 xor bit 3 of the register |
| MSequence.FullPeriodSmallDegrees | src/timesync/msequence.hpp:33-38 | for degrees 3 to 5 the tabled taps give a maximum-length sequence: period 2^n − 1 |
| MSequence.BinaryMSequenceIter.Create | src/timesync/msequence.hpp:62-74 | fails exactly outside 3..14 with "Unsupported sequence length"; otherwise reg = 1, overflow = 0 and the tabled mask |
| MSequence.BinaryMSequenceIter.Current | src/timesync/msequence.hpp:76-79 | the current bit is the parity of reg & coeffs, the bit emitted at the current step of the orbit |
| MSequence.BinaryMSequenceIter.HasNext | src/timesync/msequence.hpp:98-101 | true iff the register has not come back to 1 in any step so far |
| MSequence.BinaryMSequenceIter.SameState | src/timesync/msequence.hpp:81-85 | equal register and return count give the same current bit and liveness |
| MSequence.BinaryMSequenceIter.Advance | src/timesync/msequence.hpp:87-96 | the register becomes its successor, stays in [1, 2^n), and overflow counts a return to 1 |
| MSequence.AppendRun | src/timesync/msequence.hpp:123-130 | a run of the other level keeps the runs alternating and extends the flattened bits by that run |
| MSequence.RunEmitted | src/timesync/msequence.hpp:125-129 | count equal bits emitted from a step extend the emitted prefix by count copies of that bit |
| MSequence.TakeKeepsInvariant | src/timesync/msequence.hpp:123-130 | a finished take loop keeps: runs spell out the emitted bits, alternate, and stop at the first return |
| MSequence.GroupedBinaryMSequence.Create | src/timesync/msequence.hpp:113-115 | fails exactly as the iterator does; otherwise no runs and a fresh iterator |
| MSequence.GroupedBinaryMSequence.Take | src/timesync/msequence.hpp:117-131 | nothing and no change once exhausted; otherwise the current level and a count ≥ 1 of increments, appended to the runs |
| MSequence.GroupedBinaryMSequence.RunLength | src/timesync/msequence.hpp:125-129 | the do-while advances until exhaustion or a bit change; the bits passed are count copies of the level |
| MSequence.GroupedBinaryMSequence.ExhaustedAtPeriod | src/timesync/msequence.hpp:98-101 | an exhausted iterator has made exactly period-many steps |
| MSequence.GroupedBinaryMSequence.TotalIsPeriod | src/timesync/msequence.hpp:117-131 | once exhausted, the run lengths add up to the number of steps, which is the period |
| MSequence.GroupedBinaryMSequence.StepsWithinPeriod | src/timesync/msequence.hpp:117-131 | the steps never exceed the period, and a live iterator is below it |
| MSequence.GroupedBinaryMSequence.ShortSequenceTotal | src/timesync/msequence.hpp:117-131 | for degrees 3 to 5 the runs of a whole sequence add up to 2^n − 1 |
| Footprints.HalfTowardZero | src/timesync/footprint.hpp:41 | halving a signed duration rounds toward zero: the two halves differ by at most one |
| Footprints.Footprint.Time | src/timesync/footprint.hpp:39-42 | the midpoint lies in [begin, end] and is at most one tick nearer to begin than to end |
| Footprints.Footprint.Low | src/timesync/footprint.hpp:75-87 | the workload runs at least once; exactly one entry (t, 0.0) is appended with t ≥ start + duration, and t is returned |
| Footprints.Footprint.High | src/timesync/footprint.hpp:89-101 | as Low, appending (t, 1.0) |
| Footprints.Footprint.RunPhase | src/timesync/footprint.hpp:103-114 | high for true, low for false: one entry with the level's value |
| Footprints.Footprint.RunPattern | src/timesync/footprint.hpp:116-140 | 13 entries with levels 0,0,1,0,1,0,1,0,1,0,1,0,0, each at least its duration after the previous; time_begin_ is entry 1 and time_end_ is entry 12 |
| Footprints.Footprint.constructor | src/timesync/footprint.hpp:27-32 | a new footprint holds the recorded fixed pattern |
| Footprints.PatternPrefixStep | src/timesync/footprint.hpp:125-137 | each further phase keeps the recording a prefix of the fixed pattern |
| Footprints.PatternSpan | src/timesync/footprint.hpp:123-135 | the fixed window lasts at least 4165 ms and the recording is sorted by time |
| Footprints.AdjacentSortedIsSorted | src/timesync/footprint.cpp:96-119 | time stamps that never decrease between neighbours never decrease at all |
| Footprints.DeadlineAfterIsPrefixSum | src/timesync/footprint.cpp:96-103 | no drift: the deadline after k runs is time_begin_ + quantum × (sum of their lengths) |
| Footprints.DeadlineIsPrefixSum | src/timesync/footprint.cpp:98-103 | run k's deadline is time_begin_ + quantum × (length of runs 0..k) |
| Footprints.SkipKeepsSchedule | src/timesync/footprint.cpp:104-107 | a run whose deadline has passed records nothing and changes nothing but the runs taken |
| Footprints.ExecuteKeepsSchedule | src/timesync/footprint.cpp:108-116 | a run whose deadline lies ahead adds one phase of its level and one entry at or after its deadline |
| Footprints.ScheduleStep | src/timesync/footprint.cpp:101-116 | either kind of turn keeps the schedule invariant: phases match runs and entries, skips are justified, times sorted |
| Footprints.Footprint.RunToDeadline | src/timesync/footprint.cpp:104-116 | executed iff deadline > time_end_; a skip leaves recording and time_end_; otherwise a positive wait, one entry, time_end_ ≥ deadline |
| Footprints.Footprint.ScheduleNext | src/timesync/footprint.cpp:99-117 | done iff the sequence was exhausted; otherwise the deadline grows by quantum × length and the invariant holds |
| Footprints.Footprint.ScheduleRuns | src/timesync/footprint.cpp:96-117 | the loop ends with the sequence exhausted and the schedule invariant over all runs |
| Footprints.Footprint.RunSequence | src/timesync/footprint.cpp:80-122 | fails iff the exponent is unsupported; otherwise the runs spell out the m-sequence period, with 1 + executed phases + 1 entries, sorted, time_begin_ ≤ time_end_ = end of the last sequence phase |
| Resample.Seek | src/timesync/timesync.hpp:25-32 | the cursor stops at the first index at or after it whose time is not before the grid point, or runs out |
| Resample.GridPointsBelowEnd | src/timesync/timesync.hpp:23 | grid point k lies below time_end exactly for k below the grid size |
| Resample.TruncDiv | src/timesync/timesync.hpp:22 | the chrono quotient truncates toward zero: q·b ≤ a < q·b + b for a ≥ 0, q·b − b < a ≤ q·b for a < 0 |
| Resample.ReserveFailsWhen | src/timesync/timesync.hpp:22 | `reserve` throws exactly when time_begin − time_end ≥ interval or the window holds more than max_size() whole intervals |
| Resample.ReserveWithinGrid | src/timesync/timesync.hpp:22-23 | for a window that is not reversed the reserved count is the grid size or one less |
| Resample.Sample | src/timesync/timesync.hpp:14-37 | the reservation, then the loop, with the end check made before the dereference, as corrected |
| Resample.SeekFindsFirst | src/timesync/timesync.hpp:19-31 | the forward-only cursor finds the same element as a search from the start |
| Resample.SampleIsFirstAtOrAfter | src/timesync/timesync.hpp:22-35 | a failing reservation gives the length error; otherwise one value per grid point, each the value of the first element at or after it, and the range error only when some grid point has none |
| Resample.LoopFailsWithRange | src/timesync/timesync.hpp:23-35 | the only error the sampling loop raises is the insufficient time range |
| Resample.SampleEmptyGrid | src/timesync/timesync.hpp:22-23 | time_begin ≥ time_end gives an empty grid: no values, even from an empty recording, unless time_begin − time_end ≥ interval, where `reserve` throws the length error |
| Resample.ReachingEndSamples | src/timesync/timesync.hpp:22-32 | a recording reaching time_end is sampled successfully exactly when the reservation succeeds, with one value per grid point |
| Resample.SameGridSameLength | src/timesync/timesync.hpp:95-98 | two signals sampled on the same grid have equal lengths |
| Resample.DereferencedAsWritten | src/timesync/timesync.hpp:25-31 | the loop as written reads the cursor before testing it against the end |
| Resample.AsWrittenReadsPastEnd | src/timesync/timesync.hpp:25-30 | as written, index \|recording\| is read exactly when the range is insufficient |
| TimeSync.ExtendedFor | src/timesync/fft.hpp:123-124 | the extended size for up to 2^29 samples is a power of two in [2·size − 1, 2·(2·size − 1)), below 2^31 |
| TimeSync.ExtendedIsExtendedFor | src/timesync/fft.hpp:123-124 | the Shifter's extended size is that one |
| TimeSync.FootprintSamples | src/timesync/timesync.hpp:92-95 | sampling a recorded footprint on its own window fails only when the reservation exceeds max_size(), never for at most max_size() grid points, and gives at least one value |
| TimeSync.LagRange | src/timesync/timesync.hpp:89-106 | a found lag lies in [size − extended, size − 1]; the range error arises iff the measured signal cannot be sampled |
| TimeSync.SampleFailsWithRange | src/timesync/timesync.hpp:22-30 | sampling fails with the length error iff the reservation fails, otherwise only with the range error; on a footprint window of at most 2^29 grid points the reservation succeeds |
| TimeSync.OffsetsOf | src/timesync/timesync.hpp:62-67 | offset = lag × interval; measurement − footprint duration = offset_end − offset_begin; equal lags give equal durations |
| TimeSync.CCTimeSync.OffsetsFor | src/timesync/timesync.hpp:56-67 | success needs both lags found and keeps the duration relation |
| TimeSync.CCTimeSync.constructor | src/timesync/timesync.hpp:108-114 | no footprint and no offsets yet |
| TimeSync.CCTimeSync.SyncBegin | src/timesync/timesync.hpp:42-47 | replaces only the begin footprint, with a new recorded pattern |
| TimeSync.CCTimeSync.SyncEnd | src/timesync/timesync.hpp:49-54 | replaces only the end footprint |
| TimeSync.CCTimeSync.FindOffset | src/timesync/timesync.hpp:89-106 | samples both signals on the footprint's window and returns the lag the correlation finds, with the Shifter's final check made on `ifft_`, as corrected |
| TimeSync.CCTimeSync.Correlated | src/timesync/timesync.hpp:101-105 | a Shifter of the signals' length gives the lag of the best match |
| TimeSync.CCTimeSync.FindOffsets | src/timesync/timesync.hpp:56-76 | both footprints required; begin first; offsets kept only when both are found; a non-finite correlation fails, as corrected |
| PowerOfTwo.NextPowerOf2 | src/timesync/fft.hpp:111-120 | the smallest power of two ≥ size for 1 ≤ size ≤ 2^63, 0 otherwise (size_t wrap-around) |
| PowerOfTwo.SmearStep | src/timesync/shifter.cpp:7-10 | each OR with a shifted copy doubles the window of bits smeared down |
| PowerOfTwo.SmearedIsMask | src/timesync/shifter.cpp:7-10 | after the shifts the value is 2^L − 1, L the bit length of size − 1 |
| PowerOfTwo.Decrement | src/timesync/shifter.cpp:6 | the size_t decrement wraps 0 to 2^64 − 1 |
| PowerOfTwo.Increment | src/timesync/shifter.cpp:11 | the size_t increment wraps 2^64 to 0 |
| PowerOfTwo.NextPowerOf2IsLeast | src/timesync/shifter.cpp:4-13 | no power of two at or above size is smaller than the result |
| PowerOfTwo.NextPowerOf2FixesPowers | src/timesync/shifter.cpp:4-13 | a power of two is returned unchanged |
| PowerOfTwo.NextPowerOf2Idempotent | src/timesync/shifter.cpp:4-13 | applied to its own result it changes nothing |
| PowerOfTwo.ExtendedSize | src/timesync/shifter.cpp:15-16 | for 1 ≤ size ≤ 2^62, next_power_of_2(2·size − 1) is a power of two in [2·size − 1, 2·(2·size − 1)); 0 for size 0 |
| Fft.Padded | src/timesync/fft.hpp:41-44 | the data followed by zeros up to the buffer size |
| Fft.Transform | src/timesync/fft.hpp:45 | the output buffer holds the plan applied to the input buffer |
| Fft.Reverse | src/timesync/fft.hpp:144 | the right signal is read back to front |
| Fft.FFTBase.constructor | src/timesync/fft.hpp:25-29 | buffers of the given size, owned by the new object |
| Fft.FFTBase.Execute | src/timesync/fft.hpp:38-46 | requires len ≤ size; in_[0..len) is the data, the rest zero, and the output is the transform |
| Fft.FFTBase.IsFinite | src/timesync/fft.hpp:68-79 | true iff every output element is finite |
| Fft.MaxElementIndex | src/timesync/fft.hpp:168-174 | the first maximum among finite elements; a non-finite element is never preferred |
| Fft.MaxElement | src/timesync/fft.hpp:168-174 | the std::max_element loop returns that index |
| Fft.Products | src/timesync/fft.hpp:151-158 | element-wise products of the two spectra |
| Fft.CorrelateLag | src/timesync/fft.hpp:168-175 | on success the value is finite and maximal, the lag is size − 1 − first index, in [size − extended, size − 1] |
| Fft.CorrelateCheckOrder | src/timesync/fft.hpp:135-158 | left is checked before right, right before the product; only the four check errors occur |
| Fft.AsWrittenFinalCheckIsDead | src/timesync/fft.hpp:163-166 | as written the cross-correlation check never fails; a non-finite correlation passes as a success |
| Fft.Shifter.constructor | src/timesync/fft.hpp:123-127 | extended size next_power_of_2(2·size − 1), buffers of that size |
| Fft.Shifter.CopySpectrum | src/timesync/fft.hpp:142 | the product buffer receives the left spectrum |
| Fft.Shifter.MultiplySpectrum | src/timesync/fft.hpp:151-158 | fails iff some product is not finite; otherwise the buffer holds the products |
| Fft.Shifter.CrossSpectrum | src/timesync/fft.hpp:135-158 | the left, right and product checks in order, with the products in the buffer |
| Fft.Shifter.Call | src/timesync/fft.hpp:129-176 | for an extended size below 2^31 (the `int` loop counter), the call computes Correlate: the first failing check, with the check of line 163 made on `ifft_` as corrected, or the lag and peak |
| Shifting.CallCounter.constructor | src/timesync/shifter.hpp:21 | the counter starts at −1 |
| Shifting.CallCounter.Next | src/timesync/shifter.hpp:22 | each call adds one |
| Shifting.ConjugateProducts | src/timesync/shifter.hpp:39-46 | each element is the left spectrum times the conjugate of the right |
| Shifting.HalfSpectrum | src/timesync/shifter.hpp:27-37 | the spectrum cut to type_size(extended) elements |
| Shifting.CrossCorrelationOf | src/timesync/shifter.hpp:48-49 | the inverse transform has the extended size |
| Shifting.CircularDistance | src/timesync/shifter.hpp:84-85 | the ring distance is below n, at most n/2, zero iff equal positions, and one of the two remainders |
| Shifting.FarFromMainlobeIsCircular | src/timesync/shifter.hpp:84-86 | with a power-of-two ring the unsigned distance test is the circular distance ≥ oversampling; a negative factor excludes everything |
| Shifting.SidelobeIsLargestFar | src/timesync/shifter.hpp:78-91 | the side lobe bounds every far magnitude and is one of them, or the lowest double when none is far |
| Shifting.Sidelobe | src/timesync/shifter.hpp:78-91 | the loop computes that side lobe |
| Shifting.NoSidelobeIsDoubtful | src/timesync/shifter.hpp:97-103 | without a far element the ratio is below 3 and the warning is given |
| Shifting.WrappedResidue | src/timesync/shifter.hpp:93-96 | the negated wrapped index lies in [−(size − 1), extended − size] and is congruent to minus the index |
| Shifting.ShiftOfCorrelation | src/timesync/shifter.hpp:74-109 | a finite correlation and its first maximum give a shift that fits it |
| Shifting.ShiftRange | src/timesync/shifter.hpp:53-109 | a successful shift negates the wrapped first maximum, with a side lobe bounding every far magnitude |
| Shifting.CheckFinite | src/timesync/shifter.hpp:28 | true iff the first n spectrum elements are finite |
| Shifting.Shifter.constructor | src/timesync/shifter.cpp:15-19 | extended size next_power_of_2(2·size − 1), 0 for size 0; product buffer type_size(extended) long |
| Shifting.Shifter.CopySpectrum | src/timesync/shifter.hpp:32 | the buffer receives the left half spectrum |
| Shifting.Shifter.MultiplyConjugate | src/timesync/shifter.hpp:39-46 | fails iff some conjugate product is not finite; otherwise the buffer holds them |
| Shifting.Shifter.CrossSpectrum | src/timesync/shifter.hpp:27-46 | left, right and product checked in order |
| Shifting.ShiftFrom | src/timesync/shifter.hpp:53-109 | the first maximum, its side lobe, and the negated wrapped index, which fits the `int` returned |
| Shifting.Shifter.Call | src/timesync/shifter.hpp:17-110 | for an extended size below 2^31 (the `int` loop counters), the counter advances; the result is the first failing check or the shift, whose offset fits an `int` |
| Replace.Find | src/main.cpp:53 | std::string::find: the first occurrence at or after pos, or npos |
| Replace.FindSplitsReplaced | src/main.cpp:53-56 | the text up to the found occurrence is kept, the replacement stands for it, and the rest is replaced on from its end |
| Replace.ReplacedAtSuffix | src/main.cpp:55-56 | the replacement of a suffix depends only on that suffix: inserted text is never searched again |
| Replace.ReplaceAllFrom | src/main.cpp:50-58 | the loop as written, its search starting at the indeterminate start_pos |
| Replace.ReplaceAll | src/main.cpp:50-58 | with start_pos at 0, every non-overlapping occurrence is replaced left to right |
| Replace.AsWrittenLeavesDot | src/main.cpp:52-53 | searching "a.*b" from index 2 leaves its dot unescaped, while the search from 0 escapes it |
| Replace.ReplacedByItself | src/main.cpp:50-58 | replacing a pattern by itself changes nothing |
| Replace.ReplacedSingleChar | src/main.cpp:90-91 | replacing a one-character pattern substitutes that character, even when the replacement contains it |
| Replace.SubstitutedAppend | src/main.cpp:90-91 | substitution distributes over concatenation |
| Plugin.EscapesThenWildcards | src/main.cpp:90-91 | escaping dots then widening stars is the per-character translation |
| Plugin.SelectorFor | src/main.cpp:80-94 | no '*': the name as it is; with '*': "^" + the translated glob + "$", with `replace_all` starting at 0, as corrected |
| Plugin.ModeFor | src/main.cpp:118-139 | averaged gives last; otherwise last, next, point follow the scope and unknown gives point |
| Plugin.MetricFor | src/main.cpp:105-113 | use_average only with use_timesync and a nonzero factor, and always then |
| Plugin.FirstSome | src/main.cpp:211-229 | the first present outcome from an index, none before it |
| Plugin.FirstSomeStep | src/main.cpp:211-229 | trying one more metric keeps the flag and offsets those of the first success so far |
| Plugin.MetricqPlugin.constructor | src/main.cpp:67-70 | no handle, no synchronization yet |
| Plugin.MetricqPlugin.GetMetricProperties | src/main.cpp:97-145 | one handle and one property per metric in order; sync is on iff it was or some metric needs it |
| Plugin.MetricqPlugin.Start | src/main.cpp:185-190 | the begin footprint is recorded iff sync is on |
| Plugin.MetricqPlugin.StopSync | src/main.cpp:196-201 | the end footprint is recorded iff sync is on |
| Plugin.MetricqPlugin.OutcomeAt | src/main.cpp:211-229 | entry i of the outcomes is what metric i gives |
| Plugin.MetricqPlugin.FootprintsUnchanged | src/main.cpp:211-229 | trying metrics never changes what any metric gives |
| Plugin.MetricqPlugin.TrySync | src/main.cpp:214-227 | a timesync metric is tried only while unsynced; a failure changes nothing |
| Plugin.MetricqPlugin.TryHandle | src/main.cpp:211-228 | one pass of the loop, trying handle i |
| Plugin.MetricqPlugin.SyncWithFirstMetric | src/main.cpp:210-229 | synced iff it was or some metric succeeds; the offsets are those of the first success |
| Plugin.MetricqPlugin.GetAllValues | src/main.cpp:246-278 | fails iff the drain has no entry for the metric (`map::at`); empty data writes nothing; otherwise averaged or plain writes |
| Plugin.MetricqPlugin.WriteAveraged | src/main.cpp:255-270 | the loop writes exactly the means of complete groups |
| Plugin.MetricqPlugin.WritePlain | src/main.cpp:271-277 | one write per sample, in order |
| Averaging.ClosedGroup | src/main.cpp:263-267 | a running sum of k samples ending at i closes the group, written at sample i's time |
| Averaging.GroupsUpToAt | src/main.cpp:259-269 | write j of the first g groups is group j's mean at its last sample |
| Averaging.GroupsUpToIsAveraged | src/main.cpp:259-269 | all complete groups are ⌊n/k⌋ writes, a trailing partial group dropped |
| Averaging.DivideGroups | src/main.cpp:259-269 | g complete groups and a rest below k make ⌊n/k⌋ groups |
| Averaging.AveragedKeepsSum | src/main.cpp:257-268 | ⌊n/k⌋ writes whose means times k add up to the sum of the complete groups' samples |
| Averaging.AveragedByOne | src/main.cpp:255-277 | averaging by one writes what the plain loop writes |

## Left out

- Affinity (`check_affinity`, `restore_affinity`), the workload bodies (`sqrtsd_loop_`, the inner product, `rep; nop`) and inline asm fences: OS calls and hardware timing. A workload call is one step of the clock, which takes at least one tick.
- `Clock::now()`: the real clock is replaced by a clock object that never goes backwards.
- The `SYNC_TOLERANCE` environment lookup and `duration_parse`: the tolerance is a parameter of `Footprints.Footprint.RunSequence`.
- FFTW planning and execution: the transforms are uninterpreted plan functions passed in. Complex products and doubles are exact reals, or non-finite beyond the double range. Rounding is not modelled.
- `type_size<complex_type>` is not part of this model. It is a parameter of the `Shifting.Shifter` constructor, assumed not to exceed its argument.
- The `fft_.check_finite()` and `ifft_.check_finite()` of the `shifter.hpp` revision are modelled as reporting which check failed, because that revision's `FFTBase` is not part of this model.
- The `CORRELATION_FILE` dump, all logging, and the logged ratio value: I/O. The warning condition is the predicate `Shifting.Doubtful`.
- `time_rate_`, `offset_zero_`, `to_local` and `time_point_scale`: double arithmetic on epoch nanoseconds. The model keeps the integer offsets and durations they are computed from. In `get_all_values`, `convert_time_` is a parameter `convert`.
- TimeSync.CCTimeSync.FindOffsets: requires both windows to hold at most 2^29 grid points (`Ready`). Then the Shifter's extended size stays below 2^31, where the `int` loop counters of `operator()` still reach it. It also requires a positive sampling interval.
- Fft.Shifter.Call, Shifting.Shifter.Call: require an extended size below 2^31. Beyond that the `int` loop counters overflow, which is undefined behaviour in C++.
- Resample.Sample: requires a positive interval. With a zero interval the division at `timesync.hpp:22` divides by zero. With a negative one, a window of at least one whole interval makes `reserve` throw `length_error`. A shorter positive window makes the loop step away from `time_end`, so it never ends. An empty or reversed window gives no values, unless the count exceeds max_size().
- Resample.Sample: an allocation failure (`std::bad_alloc`) of a `reserve` within max_size() is not modelled.
- The metricq network side: metadata fetching, `subscribe`, the sink classes and the drain main loop. The drained data is a map from metric name to samples, and a missing name is the `map::at` error. `add_metric` only feeds the subscription list and is left out with it.
- The plugin constructor's environment parsing (`SERVER`, `TOKEN`, `AVERAGE`, `VERBOSE`) and the `TIMEOUT` parsing of `start`: configuration. The averaging factor is a constructor parameter.
- The `isnan(rate) && rate >= 1000` test: floating point. `use_timesync` is an input flag of the metadata.
- The `ENABLE_TIME_SYNC` build flag is taken as set.
- Plugin.MetricqPlugin.WriteAveraged: `count` is an unbounded integer. The C++ `int` could only overflow past 2^31 samples in one group, which no positive factor reaches.
- MSequence.FullPeriodSmallDegrees: the period 2^n − 1 is computed for degrees 3 to 5 only. For degrees 6 to 14 the model proves the period is the first return to the seed and at most 2^n − 1, but not that it equals 2^n − 1.
- The `steps` counter of `BinaryMSequenceIter` and the `runs` list of `GroupedBinaryMSequence` are ghost fields the source does not have. They carry the position in the orbit and the runs handed out.

## Findings

| source | as written | input that shows it | evidently intended | confidence | as-written member | corrected member |
|---|---|---|---|---|---|---|
| src/timesync/timesync.hpp:25-30 | the inner loop reads `it->time` before testing `it` against the end, so an exhausted cursor is dereferenced | recording [(0, 1.0)], grid point 1: index 1 is read | test the end first and throw `out_of_range` | not executed | Resample.AsWrittenReadsPastEnd | Resample.SampleIsFirstAtOrAfter |
| src/timesync/fft.hpp:163-166 | the "cross-correlation is not finite" check tests `fft_` again instead of `ifft_`, so it can never fire | size 1, a zero spectrum and an inverse transform that overflows: success with a non-finite peak | test `ifft_.isfinite()` | not executed | Fft.AsWrittenFinalCheckIsDead | Fft.CorrelateLag |
| src/main.cpp:52-53 | `start_pos` is never initialised before the first `find` | selector "a.*b" with start_pos 2: the dot stays unescaped | start the search at 0 | not executed | Replace.AsWrittenLeavesDot | Replace.ReplaceAll |
