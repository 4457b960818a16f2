/** The synchronization footprint: a known pattern of busy (high) and idle
    (low) phases, each ending with one (time, level) entry in the recording.
    Two revisions are modelled side by side: the fixed 13-phase pattern of
    the header (`RunPattern`) and the m-sequence scheduler of the source file
    (`RunSequence`). Time points and durations are integer nanoseconds. */
module Footprints {
  import opened Wrappers
  import opened Signals
  import opened Clocks
  import opened MSequence

  const Second: int := 1_000_000_000
  const Millisecond: int := 1_000_000

  /** The recorded value of a phase: 1.0 for high, 0.0 for low. */
  function LevelValue(high: bool): real
  {
    if high then 1.0 else 0.0
  }

  /** `(end - begin) / 2` on a signed duration: rounds toward zero. */
  function HalfTowardZero(d: int): (h: int)
    ensures d >= 0 ==> 0 <= h && h <= d - h <= h + 1
    ensures d < 0 ==> d <= h <= 0 && h - 1 <= d - h <= h
  {
    if d >= 0 then d / 2 else -((-d) / 2)
  }

  /* ---------------------------------------------------------------------- */
  /* The fixed pattern of the header revision                               */
  /* ---------------------------------------------------------------------- */

  /** Levels of the 13 phases of the fixed pattern, in order. */
  const PatternLevels: seq<bool> :=
    [false, false, true, false, true, false, true, false, true, false, true, false, false]

  /** Minimum durations of the 13 phases of the fixed pattern. */
  const PatternDurations: seq<int> :=
    [3 * Second, 1 * Second, 419 * Millisecond, 283 * Millisecond, 179 * Millisecond,
     73 * Millisecond, 31 * Millisecond, 127 * Millisecond, 233 * Millisecond,
     353 * Millisecond, 467 * Millisecond, 1 * Second, 3 * Second]

  /** The shape of a recording produced by the fixed pattern. */
  ghost predicate PatternRecorded(recording: seq<TimeValue>, timeBegin: int, timeEnd: int)
  {
    |recording| == 13 &&
    (forall i :: 0 <= i < 13 ==> recording[i].value == LevelValue(PatternLevels[i])) &&
    (forall i :: 0 < i < 13 ==> recording[i].time >= recording[i - 1].time + PatternDurations[i]) &&
    timeBegin == recording[0].time &&
    timeEnd == recording[11].time
  }

  /** Adjacent time stamps never decrease. */
  predicate AdjacentSorted(s: seq<TimeValue>)
  {
    forall i :: 0 < i < |s| ==> s[i - 1].time <= s[i].time
  }

  lemma {:induction false} AdjacentSortedIsSorted(s: seq<TimeValue>)
    requires AdjacentSorted(s)
    ensures Sorted(s)
    decreases |s|
  {
    if |s| > 1 {
      AdjacentSortedIsSorted(s[..|s| - 1]);
      forall i, j | 0 <= i < j < |s|
        ensures s[i].time <= s[j].time
      {
        if j < |s| - 1 {
          assert s[..|s| - 1][i] == s[i] && s[..|s| - 1][j] == s[j];
        } else if i < j - 1 {
          assert s[..|s| - 1][i] == s[i] && s[..|s| - 1][j - 1] == s[j - 1];
        }
      }
    }
  }

  /** The fixed pattern lasts at least the sum of its middle phases between
      the first and the twelfth entry: 4165 milliseconds. */
  lemma {:induction false} PatternSpan(recording: seq<TimeValue>, timeBegin: int, timeEnd: int)
    requires PatternRecorded(recording, timeBegin, timeEnd)
    ensures timeEnd - timeBegin >= 4165 * Millisecond
    ensures Sorted(recording)
  {
    var r := recording;
    assert r[1].time >= r[0].time + Second;
    assert r[2].time >= r[1].time + 419 * Millisecond;
    assert r[3].time >= r[2].time + 283 * Millisecond;
    assert r[4].time >= r[3].time + 179 * Millisecond;
    assert r[5].time >= r[4].time + 73 * Millisecond;
    assert r[6].time >= r[5].time + 31 * Millisecond;
    assert r[7].time >= r[6].time + 127 * Millisecond;
    assert r[8].time >= r[7].time + 233 * Millisecond;
    assert r[9].time >= r[8].time + 353 * Millisecond;
    assert r[10].time >= r[9].time + 467 * Millisecond;
    assert r[11].time >= r[10].time + Second;
    assert forall i :: 0 < i < 13 ==> PatternDurations[i] >= 0;
    AdjacentSortedIsSorted(recording);
  }

  /** The first |r| entries of a fixed-pattern recording. */
  ghost predicate PatternPrefix(r: seq<TimeValue>)
  {
    |r| <= 13 &&
    (forall i :: 0 <= i < |r| ==> r[i].value == LevelValue(PatternLevels[i])) &&
    (forall i :: 0 < i < |r| ==> r[i].time >= r[i - 1].time + PatternDurations[i])
  }

  /** Appending the entry of phase k, ended at least its duration after
      phase k - 1, keeps a pattern prefix. */
  lemma {:induction false} PatternPrefixStep(r: seq<TimeValue>, t: int, k: nat)
    requires PatternPrefix(r) && |r| == k && 0 < k < 13
    requires t >= r[k - 1].time + PatternDurations[k]
    ensures PatternPrefix(r + [TimeValue(t, LevelValue(PatternLevels[k]))])
  {
    var r' := r + [TimeValue(t, LevelValue(PatternLevels[k]))];
    forall i | 0 <= i < |r'|
      ensures r'[i].value == LevelValue(PatternLevels[i])
    {
      if i < k {
        assert r'[i] == r[i];
      }
    }
    forall i | 0 < i < |r'|
      ensures r'[i].time >= r'[i - 1].time + PatternDurations[i]
    {
      if i < k {
        assert r'[i] == r[i] && r'[i - 1] == r[i - 1];
      } else {
        assert r'[i - 1] == r[k - 1];
      }
    }
  }

  /* ---------------------------------------------------------------------- */
  /* The m-sequence schedule of the source-file revision                    */
  /* ---------------------------------------------------------------------- */

  /** The deadline after the given runs: `begin`, advanced by `quantum`
      times the length of each run in turn. */
  function DeadlineAfter(begin: int, quantum: int, runs: seq<(bool, nat)>): int
  {
    if runs == [] then begin
    else DeadlineAfter(begin, quantum, runs[..|runs| - 1]) + quantum * runs[|runs| - 1].1
  }

  /** The deadline of each run in turn. */
  function Deadlines(begin: int, quantum: int, runs: seq<(bool, nat)>): (d: seq<int>)
    ensures |d| == |runs|
  {
    if runs == [] then []
    else Deadlines(begin, quantum, runs[..|runs| - 1]) + [DeadlineAfter(begin, quantum, runs)]
  }

  /** No drift: the accumulated deadline is the start plus quantum times the
      total length, however the runs are cut. */
  lemma {:induction false} DeadlineAfterIsPrefixSum(begin: int, quantum: int, runs: seq<(bool, nat)>)
    ensures DeadlineAfter(begin, quantum, runs) == begin + quantum * TotalLength(runs)
    decreases |runs|
  {
    if runs != [] {
      var prefix := runs[..|runs| - 1];
      DeadlineAfterIsPrefixSum(begin, quantum, prefix);
      calc {
        DeadlineAfter(begin, quantum, runs);
        begin + quantum * TotalLength(prefix) + quantum * runs[|runs| - 1].1;
        { MultiplyDistributes(quantum, TotalLength(prefix), runs[|runs| - 1].1); }
        begin + quantum * TotalLength(runs);
      }
    }
  }

  lemma MultiplyDistributes(q: int, a: int, b: int)
    ensures q * a + q * b == q * (a + b)
  {
  }

  /** Run k's deadline is the start plus quantum times the total length of
      runs 0..k. */
  lemma {:induction false} DeadlineIsPrefixSum(begin: int, quantum: int, runs: seq<(bool, nat)>, k: nat)
    requires k < |runs|
    ensures Deadlines(begin, quantum, runs)[k] == begin + quantum * TotalLength(runs[..k + 1])
    decreases |runs|
  {
    if k < |runs| - 1 {
      DeadlineIsPrefixSum(begin, quantum, runs[..|runs| - 1], k);
      assert runs[..|runs| - 1][..k + 1] == runs[..k + 1];
    } else {
      assert runs[..k + 1] == runs;
      DeadlineAfterIsPrefixSum(begin, quantum, runs);
    }
  }

  /** An executed phase: the index of its run, its level and its deadline. */
  datatype Phase = Phase(run: nat, high: bool, deadline: int)

  /** Run k was skipped: no phase was executed for it. */
  predicate Unscheduled(schedule: seq<Phase>, k: nat)
  {
    forall i :: 0 <= i < |schedule| ==> schedule[i].run != k
  }

  /** The number of executed phases belonging to runs before run k. */
  function CountBelow(schedule: seq<Phase>, k: nat): (c: nat)
    ensures c <= |schedule|
  {
    if schedule == [] then 0
    else CountBelow(schedule[..|schedule| - 1], k) + (if schedule[|schedule| - 1].run < k then 1 else 0)
  }

  lemma {:induction false} CountBelowAppend(schedule: seq<Phase>, p: Phase, k: nat)
    requires p.run >= k
    ensures CountBelow(schedule + [p], k) == CountBelow(schedule, k)
  {
    assert (schedule + [p])[..|schedule|] == schedule;
  }

  lemma {:induction false} CountBelowAll(schedule: seq<Phase>, k: nat)
    requires forall i :: 0 <= i < |schedule| ==> schedule[i].run < k
    ensures CountBelow(schedule, k) == |schedule|
    decreases |schedule|
  {
    if schedule != [] {
      CountBelowAll(schedule[..|schedule| - 1], k);
    }
  }

  /** Every executed phase belongs to a run: same level, that run's
      deadline; phases follow the order of their runs. */
  ghost predicate PhasesMatchRuns(deadlines: seq<int>, runs: seq<(bool, nat)>, schedule: seq<Phase>)
    requires |deadlines| == |runs|
  {
    (forall i :: 0 <= i < |schedule| ==>
       schedule[i].run < |runs| &&
       schedule[i].high == runs[schedule[i].run].0 &&
       schedule[i].deadline == deadlines[schedule[i].run]) &&
    (forall i, j :: 0 <= i < j < |schedule| ==> schedule[i].run < schedule[j].run)
  }

  /** After the leading entry, one entry per executed phase, with the phase's
      level, at or after its deadline; the deadline was later than the entry
      before it, so the wait passed to the phase was positive. */
  ghost predicate PhasesMatchRecording(schedule: seq<Phase>, recording: seq<TimeValue>)
  {
    |recording| == |schedule| + 1 &&
    forall i :: 0 <= i < |schedule| ==>
      recording[i + 1].value == LevelValue(schedule[i].high) &&
      recording[i].time < schedule[i].deadline <= recording[i + 1].time
  }

  /** Every skipped run had its deadline at or before the latest entry at
      the moment it was taken. */
  ghost predicate SkipsJustified(deadlines: seq<int>, schedule: seq<Phase>, recording: seq<TimeValue>)
  {
    forall k :: 0 <= k < |deadlines| && Unscheduled(schedule, k) ==>
      CountBelow(schedule, k) < |recording| &&
      deadlines[k] <= recording[CountBelow(schedule, k)].time
  }

  /** How the recording, the executed phases and the runs taken so far fit
      together, given the deadlines of those runs. */
  ghost predicate ScheduleInvariant(begin: int, deadlines: seq<int>, runs: seq<(bool, nat)>,
                                    schedule: seq<Phase>, recording: seq<TimeValue>)
  {
    |deadlines| == |runs| &&
    |recording| > 0 &&
    recording[0] == TimeValue(begin, 0.0) &&
    AdjacentSorted(recording) &&
    PhasesMatchRuns(deadlines, runs, schedule) &&
    PhasesMatchRecording(schedule, recording) &&
    SkipsJustified(deadlines, schedule, recording)
  }

  lemma {:induction false} DeadlinesAppend(begin: int, quantum: int, runs: seq<(bool, nat)>, run: (bool, nat))
    ensures DeadlineAfter(begin, quantum, runs + [run]) == DeadlineAfter(begin, quantum, runs) + quantum * run.1
    ensures Deadlines(begin, quantum, runs + [run]) ==
            Deadlines(begin, quantum, runs) + [DeadlineAfter(begin, quantum, runs + [run])]
  {
    assert (runs + [run])[..|runs|] == runs;
  }

  lemma {:induction false} PhasesMatchMoreRuns(deadlines: seq<int>, runs: seq<(bool, nat)>, schedule: seq<Phase>,
                            d: int, run: (bool, nat))
    requires |deadlines| == |runs| && PhasesMatchRuns(deadlines, runs, schedule)
    ensures PhasesMatchRuns(deadlines + [d], runs + [run], schedule)
  {
    forall i | 0 <= i < |schedule|
      ensures (deadlines + [d])[schedule[i].run] == deadlines[schedule[i].run]
      ensures (runs + [run])[schedule[i].run] == runs[schedule[i].run]
    {
    }
  }

  lemma {:induction false} PhasesMatchNewPhase(deadlines: seq<int>, runs: seq<(bool, nat)>, schedule: seq<Phase>,
                            d: int, run: (bool, nat))
    requires |deadlines| == |runs| && PhasesMatchRuns(deadlines, runs, schedule)
    ensures PhasesMatchRuns(deadlines + [d], runs + [run], schedule + [Phase(|runs|, run.0, d)])
  {
    PhasesMatchMoreRuns(deadlines, runs, schedule, d, run);
  }

  lemma {:induction false} SkipsJustifiedSkip(deadlines: seq<int>, schedule: seq<Phase>, recording: seq<TimeValue>, d: int)
    requires SkipsJustified(deadlines, schedule, recording)
    requires |recording| == |schedule| + 1
    requires forall i :: 0 <= i < |schedule| ==> schedule[i].run < |deadlines|
    requires d <= recording[|recording| - 1].time
    ensures SkipsJustified(deadlines + [d], schedule, recording)
  {
    CountBelowAll(schedule, |deadlines|);
    forall k | 0 <= k < |deadlines|
      ensures (deadlines + [d])[k] == deadlines[k]
    {
    }
  }

  lemma {:induction false} SkipsJustifiedExecute(deadlines: seq<int>, schedule: seq<Phase>, recording: seq<TimeValue>,
                              d: int, high: bool, tv: TimeValue)
    requires SkipsJustified(deadlines, schedule, recording)
    ensures SkipsJustified(deadlines + [d], schedule + [Phase(|deadlines|, high, d)], recording + [tv])
  {
    var p := Phase(|deadlines|, high, d);
    forall k | 0 <= k < |deadlines| + 1 && Unscheduled(schedule + [p], k)
      ensures CountBelow(schedule + [p], k) < |recording| + 1
      ensures (deadlines + [d])[k] <= (recording + [tv])[CountBelow(schedule + [p], k)].time
    {
      assert (schedule + [p])[|schedule|].run == |deadlines|;
      assert k < |deadlines|;
      CountBelowAppend(schedule, p, k);
      assert forall i :: 0 <= i < |schedule| ==> (schedule + [p])[i] == schedule[i];
      assert Unscheduled(schedule, k);
    }
  }

  /** A run whose deadline d has passed changes nothing but the runs. */
  lemma {:induction false} SkipKeepsSchedule(begin: int, deadlines: seq<int>, runs: seq<(bool, nat)>,
                          schedule: seq<Phase>, recording: seq<TimeValue>, run: (bool, nat), d: int)
    requires ScheduleInvariant(begin, deadlines, runs, schedule, recording)
    requires d <= recording[|recording| - 1].time
    ensures ScheduleInvariant(begin, deadlines + [d], runs + [run], schedule, recording)
  {
    PhasesMatchMoreRuns(deadlines, runs, schedule, d, run);
    SkipsJustifiedSkip(deadlines, schedule, recording, d);
  }

  /** A run whose deadline d lies ahead adds one phase and one entry. */
  lemma {:induction false} ExecuteKeepsSchedule(begin: int, deadlines: seq<int>, runs: seq<(bool, nat)>,
                             schedule: seq<Phase>, recording: seq<TimeValue>,
                             run: (bool, nat), d: int, t: int)
    requires ScheduleInvariant(begin, deadlines, runs, schedule, recording)
    requires recording[|recording| - 1].time < d <= t
    ensures ScheduleInvariant(begin, deadlines + [d], runs + [run],
                              schedule + [Phase(|runs|, run.0, d)],
                              recording + [TimeValue(t, LevelValue(run.0))])
  {
    var tv := TimeValue(t, LevelValue(run.0));
    PhasesMatchNewPhase(deadlines, runs, schedule, d, run);
    SkipsJustifiedExecute(deadlines, schedule, recording, d, run.0, tv);
    AdjacentSortedAppend(recording, tv);
    PhasesMatchRecordingAppend(schedule, recording, Phase(|runs|, run.0, d), tv);
    assert (recording + [tv])[0] == recording[0];
  }

  lemma AdjacentSortedAppend(recording: seq<TimeValue>, tv: TimeValue)
    requires AdjacentSorted(recording) && |recording| > 0
    requires recording[|recording| - 1].time <= tv.time
    ensures AdjacentSorted(recording + [tv])
  {
    var r' := recording + [tv];
    forall i | 0 < i < |r'|
      ensures r'[i - 1].time <= r'[i].time
    {
      if i < |recording| {
        assert r'[i - 1] == recording[i - 1] && r'[i] == recording[i];
      }
    }
  }

  lemma PhasesMatchRecordingAppend(schedule: seq<Phase>, recording: seq<TimeValue>, p: Phase, tv: TimeValue)
    requires PhasesMatchRecording(schedule, recording)
    requires recording[|recording| - 1].time < p.deadline <= tv.time
    requires tv.value == LevelValue(p.high)
    ensures PhasesMatchRecording(schedule + [p], recording + [tv])
  {
    var s', r' := schedule + [p], recording + [tv];
    forall i | 0 <= i < |s'|
      ensures r'[i + 1].value == LevelValue(s'[i].high)
      ensures r'[i].time < s'[i].deadline <= r'[i + 1].time
    {
      if i < |schedule| {
        assert s'[i] == schedule[i] && r'[i] == recording[i] && r'[i + 1] == recording[i + 1];
      }
    }
  }

  /** One turn of the scheduling loop, skipped or executed, keeps the
      schedule invariant for the runs taken so far. */
  lemma {:induction false} ScheduleStep(begin: int, quantum: int, runs: seq<(bool, nat)>,
                                        schedule: seq<Phase>, before: seq<TimeValue>,
                                        run: (bool, nat), executed: bool,
                                        after: seq<TimeValue>, t: int)
    returns (schedule': seq<Phase>)
    requires ScheduleInvariant(begin, Deadlines(begin, quantum, runs), runs, schedule, before)
    requires executed <==> DeadlineAfter(begin, quantum, runs + [run]) > before[|before| - 1].time
    requires !executed ==> after == before
    requires executed ==>
      after == before + [TimeValue(t, LevelValue(run.0))] && t >= DeadlineAfter(begin, quantum, runs + [run])
    ensures schedule' == if executed then schedule + [Phase(|runs|, run.0, DeadlineAfter(begin, quantum, runs + [run]))]
                         else schedule
    ensures ScheduleInvariant(begin, Deadlines(begin, quantum, runs + [run]), runs + [run], schedule', after)
  {
    var d := DeadlineAfter(begin, quantum, runs + [run]);
    DeadlinesAppend(begin, quantum, runs, run);
    if executed {
      ExecuteKeepsSchedule(begin, Deadlines(begin, quantum, runs), runs, schedule, before, run, d, t);
      schedule' := schedule + [Phase(|runs|, run.0, d)];
    } else {
      SkipKeepsSchedule(begin, Deadlines(begin, quantum, runs), runs, schedule, before, run, d);
      schedule' := schedule;
    }
  }

  /* ---------------------------------------------------------------------- */
  /* The footprint object                                                    */
  /* ---------------------------------------------------------------------- */

  class Footprint {
    const clock: Clock
    var timeBegin: int
    var timeEnd: int
    var recording: seq<TimeValue>

    /** The header revision's constructor: records the fixed pattern. */
    constructor(clock: Clock)
      modifies clock
      ensures this.clock == clock
      ensures PatternRecorded(recording, timeBegin, timeEnd)
      ensures recording[0].time >= old(clock.now) + 3 * Second
    {
      this.clock := clock;
      timeBegin := 0;
      timeEnd := 0;
      recording := [];
      new;
      RunPattern();
    }

    /** `time()`: the midpoint of the synchronization window. */
    function Time(): (t: int)
      reads this
      ensures timeBegin <= timeEnd ==> timeBegin <= t <= timeEnd
      ensures timeBegin <= timeEnd ==> 0 <= (timeEnd - t) - (t - timeBegin) <= 1
    {
      timeBegin + HalfTowardZero(timeEnd - timeBegin)
    }

    /** `low(duration)`: idle until at least `duration` after the first clock
        reading (at least one workload call), then record (time, 0.0). */
    method Low(duration: int) returns (t: int)
      modifies this, clock
      ensures recording == old(recording) + [TimeValue(t, 0.0)]
      ensures t > old(clock.now) && t >= old(clock.now) + duration && clock.now == t
      ensures timeBegin == old(timeBegin) && timeEnd == old(timeEnd)
    {
      var time := clock.Now();
      var end := time + duration;
      clock.Work();
      time := clock.Now();
      while time < end
        invariant clock.now == time && time > old(clock.now)
        invariant end >= old(clock.now) + duration
        decreases end - time
        modifies clock
      {
        clock.Work();
        time := clock.Now();
      }
      recording := recording + [TimeValue(time, 0.0)];
      t := time;
    }

    /** `high(duration)`: as `Low`, busy instead of idle, records 1.0. */
    method High(duration: int) returns (t: int)
      modifies this, clock
      ensures recording == old(recording) + [TimeValue(t, 1.0)]
      ensures t > old(clock.now) && t >= old(clock.now) + duration && clock.now == t
      ensures timeBegin == old(timeBegin) && timeEnd == old(timeEnd)
    {
      var time := clock.Now();
      var end := time + duration;
      clock.Work();
      time := clock.Now();
      while time < end
        invariant clock.now == time && time > old(clock.now)
        invariant end >= old(clock.now) + duration
        decreases end - time
        modifies clock
      {
        clock.Work();
        time := clock.Now();
      }
      recording := recording + [TimeValue(time, 1.0)];
      t := time;
    }

    /** `run(high_low, duration)`: `High` when true, `Low` otherwise. */
    method RunPhase(high: bool, duration: int) returns (t: int)
      modifies this, clock
      ensures recording == old(recording) + [TimeValue(t, LevelValue(high))]
      ensures t > old(clock.now) && t >= old(clock.now) + duration && clock.now == t
      ensures timeBegin == old(timeBegin) && timeEnd == old(timeEnd)
    {
      if high {
        t := High(duration);
      } else {
        t := Low(duration);
      }
    }

    /** The header revision's `run()`: empty the recording, then the 13 fixed
        phases of `PatternLevels`/`PatternDurations` in order; the window
        spans the end of the first to the end of the twelfth phase. */
    method RunPattern()
      modifies this, clock
      ensures PatternRecorded(recording, timeBegin, timeEnd)
      ensures recording[0].time >= old(clock.now) + 3 * Second
    {
      recording := [];
      timeBegin := Low(PatternDurations[0]);
      var i := 1;
      while i < 13
        invariant 1 <= i <= 13
        invariant PatternPrefix(recording) && |recording| == i
        invariant clock.now == recording[i - 1].time
        invariant timeBegin == recording[0].time >= old(clock.now) + 3 * Second
        invariant i > 11 ==> timeEnd == recording[11].time
      {
        ghost var before := recording;
        var t := RunPhase(PatternLevels[i], PatternDurations[i]);
        PatternPrefixStep(before, t, i);
        assert recording[0] == before[0];
        if i == 11 {
          timeEnd := t;
        } else if i > 11 {
          assert recording[11] == before[11];
        }
        i := i + 1;
      }
    }

    /** The body of the scheduling loop for one run of level `high`: skip
        it when its deadline has passed, otherwise stay at its level until
        the deadline and move the end of the window there. The ghost
        parameters carry the schedule: `runs` were taken before this run,
        whose length is `length`. */
    method RunToDeadline(high: bool, deadline: int, ghost begin: int, ghost quantum: int,
                         ghost runs: seq<(bool, nat)>, ghost length: nat, ghost schedule: seq<Phase>)
      returns (executed: bool, ghost schedule': seq<Phase>)
      requires ScheduleInvariant(begin, Deadlines(begin, quantum, runs), runs, schedule, recording)
      requires timeEnd == recording[|recording| - 1].time && clock.now == timeEnd
      requires deadline == DeadlineAfter(begin, quantum, runs + [(high, length)])
      modifies this, clock
      ensures executed <==> deadline > old(timeEnd)
      ensures !executed ==> recording == old(recording) && timeEnd == old(timeEnd)
      ensures executed ==> recording == old(recording) + [TimeValue(timeEnd, LevelValue(high))]
      ensures timeEnd == recording[|recording| - 1].time && clock.now == timeEnd && deadline <= timeEnd
      ensures timeBegin == old(timeBegin)
      ensures schedule' == if executed then schedule + [Phase(|runs|, high, deadline)] else schedule
      ensures ScheduleInvariant(begin, Deadlines(begin, quantum, runs + [(high, length)]),
                                runs + [(high, length)], schedule', recording)
    {
      ghost var before := recording;
      if deadline <= timeEnd {
        executed := false;
      } else {
        var wait := deadline - timeEnd;
        if high {
          timeEnd := High(wait);
        } else {
          timeEnd := Low(wait);
        }
        executed := true;
      }
      schedule' := ScheduleStep(begin, quantum, runs, schedule, before, (high, length), executed, recording, timeEnd);
    }

    /** One turn of the scheduling loop: take the next run of the sequence,
        advance the deadline by `quantum` times its length and run the phase
        when its deadline is still ahead; `done` when the sequence is
        exhausted. */
    method ScheduleNext(sequence: GroupedBinaryMSequence, quantum: int, deadline: int, ghost begin: int,
                        ghost schedule: seq<Phase>)
      returns (done: bool, deadline': int, ghost schedule': seq<Phase>)
      requires sequence.Valid()
      requires ScheduleInvariant(begin, Deadlines(begin, quantum, sequence.runs), sequence.runs, schedule, recording)
      requires timeEnd == recording[|recording| - 1].time && clock.now == timeEnd
      requires deadline == DeadlineAfter(begin, quantum, sequence.runs) <= timeEnd
      modifies this, clock, sequence, sequence.iter
      ensures sequence.Valid() && timeBegin == old(timeBegin)
      ensures done <==> !old(sequence.iter.HasNext())
      ensures done ==> !sequence.iter.HasNext() && sequence.iter.steps == old(sequence.iter.steps)
      ensures done ==> sequence.runs == old(sequence.runs) && schedule' == schedule && recording == old(recording)
      ensures !done ==> sequence.iter.steps > old(sequence.iter.steps)
      ensures ScheduleInvariant(begin, Deadlines(begin, quantum, sequence.runs), sequence.runs, schedule', recording)
      ensures timeEnd == recording[|recording| - 1].time && clock.now == timeEnd
      ensures deadline' == DeadlineAfter(begin, quantum, sequence.runs) <= timeEnd
    {
      ghost var runs := sequence.runs;
      var elem := sequence.Take();
      if elem.None? {
        return true, deadline, schedule;
      }
      var (isHigh, length) := elem.value;
      ghost var run := (isHigh, length);
      assert sequence.runs == runs + [run];
      var duration := quantum * length;
      deadline' := deadline + duration;
      DeadlinesAppend(begin, quantum, runs, run);
      var executed;
      executed, schedule' := RunToDeadline(isHigh, deadline', begin, quantum, runs, length, schedule);
      done := false;
    }

    /** The scheduling loop of `run(exponent, quantum)`: take the runs of
        the sequence one by one, advance the deadline by `quantum` times the
        run length, and run each phase whose deadline is still ahead. */
    method ScheduleRuns(sequence: GroupedBinaryMSequence, quantum: int, ghost begin: int)
      returns (ghost schedule: seq<Phase>)
      requires begin == timeBegin
      requires sequence.Valid() && sequence.runs == []
      requires recording == [TimeValue(timeBegin, 0.0)] && timeEnd == timeBegin && clock.now == timeEnd
      modifies this, clock, sequence, sequence.iter
      ensures sequence.Valid() && !sequence.iter.HasNext()
      ensures ScheduleInvariant(begin, Deadlines(begin, quantum, sequence.runs), sequence.runs, schedule, recording)
      ensures timeBegin == begin && timeEnd == recording[|recording| - 1].time && clock.now == timeEnd
    {
      schedule := [];
      var deadline := timeBegin;
      var done := false;
      while !done
        invariant sequence.Valid() && timeBegin == begin
        invariant done ==> !sequence.iter.HasNext()
        invariant ScheduleInvariant(begin, Deadlines(begin, quantum, sequence.runs), sequence.runs, schedule, recording)
        invariant timeEnd == recording[|recording| - 1].time && clock.now == timeEnd
        invariant deadline == DeadlineAfter(begin, quantum, sequence.runs) <= timeEnd
        decreases Period(sequence.iter.n, sequence.iter.coeffs) - sequence.iter.steps, !done
      {
        sequence.StepsWithinPeriod();
        done, deadline, schedule := ScheduleNext(sequence, quantum, deadline, begin, schedule);
      }
    }

    /** The source-file revision's `run(exponent, quantum)`: empty the
        recording; fail for an unsupported exponent; otherwise a leading low
        phase of `tolerance`, then one phase per m-sequence run whose
        deadline is still ahead, then a trailing low phase of `tolerance`. */
    method RunSequence(exponent: int, quantum: int, tolerance: int)
      returns (r: Result<()>, ghost runs: seq<(bool, nat)>, ghost schedule: seq<Phase>)
      modifies this, clock
      ensures r.Failure? <==> !(3 <= exponent <= 14)
      ensures r.Failure? ==>
        r.error == "Unsupported sequence length" && recording == [] &&
        timeBegin == old(timeBegin) && timeEnd == old(timeEnd)
      ensures r.Success? ==>
        Flatten(runs) == Emitted(exponent, TapMask(exponent), Period(exponent, TapMask(exponent))) &&
        |recording| == |schedule| + 2 &&
        ScheduleInvariant(timeBegin, Deadlines(timeBegin, quantum, runs), runs, schedule, recording[..|recording| - 1]) &&
        timeBegin >= old(clock.now) + tolerance &&
        timeEnd == recording[|recording| - 2].time && timeBegin <= timeEnd &&
        recording[|recording| - 1].value == 0.0 &&
        recording[|recording| - 1].time >= timeEnd + tolerance &&
        Sorted(recording)
    {
      recording := [];
      runs, schedule := [], [];
      var created := GroupedBinaryMSequence.Create(exponent);
      if created.Failure? {
        return Failure(created.error), runs, schedule;
      }
      var sequence := created.value;
      timeBegin := Low(tolerance);
      timeEnd := timeBegin;
      schedule := ScheduleRuns(sequence, quantum, timeBegin);
      runs := sequence.runs;
      sequence.ExhaustedAtPeriod();
      ghost var last := recording;
      AdjacentSortedIsSorted(last);
      var t := Low(tolerance);
      assert recording[..|recording| - 1] == last;
      AdjacentSortedIsSorted(recording);
      r := Success(());
    }
  }
}
