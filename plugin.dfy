/** The Score-P metric plugin `metricq_plugin`: how a metric selector is
    turned into a metadata query, which metrics are time-synchronized and
    averaged, how the offsets are found from the first metric that allows
    it, and what is written for each metric at the end of the run. */
module Plugin {
  import opened Wrappers
  import opened Signals
  import opened Clocks
  import opened Floats
  import opened TimeSync
  import opened Replace
  import opened Averaging

  // ---------------------------------------------------------------------
  // get_metadata: the selector
  // ---------------------------------------------------------------------

  /** A glob read character by character: '.' is escaped, '*' becomes the
      regular-expression wildcard, every other character stands for
      itself. */
  function GlobToRegex(s: string): string
    decreases |s|
  {
    if s == [] then []
    else (if s[0] == '.' then "\\." else if s[0] == '*' then ".*" else [s[0]]) + GlobToRegex(s[1..])
  }

  /** Escaping the dots first and then widening the stars is the
      per-character translation: no star is introduced by the escapes. */
  lemma {:induction false} EscapesThenWildcards(s: string)
    decreases |s|
    ensures Substituted(Substituted(s, '.', "\\."), '*', ".*") == GlobToRegex(s)
  {
    if s != [] {
      var head := if s[0] == '.' then "\\." else [s[0]];
      assert Substituted(s, '.', "\\.") == head + Substituted(s[1..], '.', "\\.");
      SubstitutedAppend(head, Substituted(s[1..], '.', "\\."), '*', ".*");
      EscapesThenWildcards(s[1..]);
      if s[0] == '.' {
        assert Substituted("\\.", '*', ".*") == "\\.";
      } else {
        assert Substituted([s[0]], '*', ".*") == (if s[0] == '*' then ".*" else [s[0]]);
      }
    }
  }

  /** What is asked of the metadata service: a list of names, or a regular
      expression the names must match. */
  datatype Selector = Names(names: seq<string>) | Pattern(regex: string)

  /** `get_metadata`'s selector: a selector without '*' is asked for as the
      one name it is; with a '*' its dots are escaped, each '*' becomes
      ".*", and the result is anchored at both ends. */
  function SelectorFor(s: string): (r: Selector)
    ensures '*' !in s ==> r == Names([s])
    ensures '*' in s ==> r == Pattern("^" + GlobToRegex(s) + "$")
  {
    if '*' !in s then Names([s])
    else
      ReplacedSingleChar(s, '.', "\\.", 0);
      ReplacedSingleChar(Replaced(s, ".", "\\."), '*', ".*", 0);
      EscapesThenWildcards(s);
      Pattern("^" + Replaced(Replaced(s, ".", "\\."), "*", ".*") + "$")
  }

  // ---------------------------------------------------------------------
  // get_metric_properties: handles and modes
  // ---------------------------------------------------------------------

  /** `metricq::Metadata::Scope`. */
  datatype Scope = Last | Next | Point | Unknown

  /** The Score-P property modes the plugin uses, all absolute. */
  datatype Mode = AbsoluteLast | AbsoluteNext | AbsolutePoint

  /** The scope a mode stands for. */
  function ScopeOf(m: Mode): Scope
  {
    match m
    case AbsoluteLast => Last
    case AbsoluteNext => Next
    case AbsolutePoint => Point
  }

  /** An averaged metric is always recorded as the last value; any other
      follows its scope, an unknown scope counting as a point. */
  function ModeFor(useAverage: bool, scope: Scope): (m: Mode)
    ensures useAverage ==> m == AbsoluteLast
    ensures !useAverage && !scope.Unknown? ==> ScopeOf(m) == scope
    ensures !useAverage && scope.Unknown? ==> m == AbsolutePoint
  {
    if useAverage then AbsoluteLast
    else match scope
      case Last => AbsoluteLast
      case Next => AbsoluteNext
      case Point => AbsolutePoint
      case Unknown => AbsolutePoint
  }

  /** What the plugin reads of a metric's metadata; `useTimesync` is whether
      its rate is a number of at least 1000 per second. */
  datatype Metadata = Metadata(name: string, description: string, unit: string, useTimesync: bool, scope: Scope)

  /** The plugin's `Metric` handle. */
  datatype Metric = Metric(name: string, useTimesync: bool, useAverage: bool)

  /** A `scorep::plugin::metric_property` of double values. */
  datatype Property = Property(name: string, description: string, unit: string, mode: Mode)

  /** Only a time-synchronized metric is averaged, and only with an
      averaging factor other than zero. */
  predicate Admissible(m: Metric, average: int)
  {
    m.useAverage ==> m.useTimesync && average != 0
  }

  /** The handle made for a metric. */
  function MetricFor(meta: Metadata, average: int): (m: Metric)
    ensures m.name == meta.name && m.useTimesync == meta.useTimesync && Admissible(m, average)
    ensures meta.useTimesync && average != 0 ==> m.useAverage
  {
    Metric(meta.name, meta.useTimesync, meta.useTimesync && average != 0)
  }

  /** The property declared for a metric. */
  function PropertyFor(meta: Metadata, average: int): Property
  {
    Property(meta.name, meta.description, meta.unit, ModeFor(MetricFor(meta, average).useAverage, meta.scope))
  }

  function MetricsFor(metadata: seq<Metadata>, average: int): seq<Metric>
  {
    seq(|metadata|, i requires 0 <= i < |metadata| => MetricFor(metadata[i], average))
  }

  function PropertiesFor(metadata: seq<Metadata>, average: int): seq<Property>
  {
    seq(|metadata|, i requires 0 <= i < |metadata| => PropertyFor(metadata[i], average))
  }

  // ---------------------------------------------------------------------
  // The plugin object
  // ---------------------------------------------------------------------

  /** The index of the first present value at or after `from`. */
  function FirstSome<T>(xs: seq<Option<T>>, from: nat): (r: Option<nat>)
    decreases |xs| - from
    ensures r.Some? ==> from <= r.value < |xs| && xs[r.value].Some?
    ensures r.Some? ==> forall k :: from <= k < r.value ==> xs[k].None?
    ensures r.None? ==> forall k :: from <= k < |xs| ==> xs[k].None?
  {
    if from >= |xs| then None
    else if xs[from].Some? then Some(from)
    else FirstSome(xs, from + 1)
  }

  /** Before trying index i, the flag and the value say whether and what
      the first present value before i is; trying i keeps them so for i + 1. */
  lemma FirstSomeStep<T>(xs: seq<Option<T>>, i: nat, found0: bool, value0: Option<T>,
                         found: bool, value: Option<T>, found': bool, value': Option<T>)
    requires i < |xs|
    requires var f := FirstSome(xs, 0);
      found == (found0 || (f.Some? && f.value < i)) &&
      value == if !found0 && f.Some? && f.value < i then xs[f.value] else value0
    requires found' == (found || xs[i].Some?)
    requires value' == if !found && xs[i].Some? then xs[i] else value
    ensures var f := FirstSome(xs, 0);
      found' == (found0 || (f.Some? && f.value < i + 1)) &&
      value' == if !found0 && f.Some? && f.value < i + 1 then xs[f.value] else value0
  {
  }

  class MetricqPlugin {
    /** `average_`: the averaging factor. */
    const average: int
    /** `cc_time_sync_`. */
    const timeSync: CCTimeSync
    /** The handles made so far, in order. */
    var handles: seq<Metric>
    /** `do_cc_time_sync_`: some metric needs time synchronization. */
    var doCcTimeSync: bool
    /** `cc_synced_`: the offsets have been found. */
    var ccSynced: bool

    /** Every handle is admissible, and a time-synchronized handle has
        switched synchronization on. */
    ghost predicate Valid()
      reads this`handles, this`doCcTimeSync
    {
      forall i :: 0 <= i < |handles| ==>
        Admissible(handles[i], average) && (handles[i].useTimesync ==> doCcTimeSync)
    }

    /** No handle yet and no synchronization; the averaging factor and the
        time synchronization's settings come from the environment. */
    constructor(average: int, clock: Clock, samplingInterval: int,
                forward: (seq<Float>, nat) -> Complex, inverse: (seq<Complex>, nat) -> Float)
      requires samplingInterval > 0
      ensures Valid() && this.average == average
      ensures handles == [] && !doCcTimeSync && !ccSynced
      ensures fresh(timeSync) && timeSync.Valid() && timeSync.clock == clock
      ensures timeSync.footprintBegin == null && timeSync.footprintEnd == null && timeSync.offsets == None
    {
      this.average := average;
      timeSync := new CCTimeSync(clock, samplingInterval, forward, inverse);
      handles := [];
      doCcTimeSync := false;
      ccSynced := false;
    }

    /** `get_metric_properties`: a handle and a property per metric found,
        in order; any time-synchronized metric switches synchronization on. */
    method GetMetricProperties(metadata: seq<Metadata>) returns (result: seq<Property>)
      requires Valid()
      modifies this`handles, this`doCcTimeSync
      ensures Valid()
      ensures handles == old(handles) + MetricsFor(metadata, average)
      ensures result == PropertiesFor(metadata, average)
      ensures doCcTimeSync ==> old(doCcTimeSync) || exists i :: 0 <= i < |metadata| && metadata[i].useTimesync
      ensures old(doCcTimeSync) ==> doCcTimeSync
      ensures forall i :: 0 <= i < |metadata| && metadata[i].useTimesync ==> doCcTimeSync
    {
      result := [];
      var i := 0;
      while i < |metadata|
        invariant 0 <= i <= |metadata|
        invariant Valid()
        invariant handles == old(handles) + MetricsFor(metadata[..i], average)
        invariant result == PropertiesFor(metadata[..i], average)
        invariant doCcTimeSync ==> old(doCcTimeSync) || exists k :: 0 <= k < i && metadata[k].useTimesync
        invariant old(doCcTimeSync) ==> doCcTimeSync
        invariant forall k :: 0 <= k < i && metadata[k].useTimesync ==> doCcTimeSync
      {
        var meta := metadata[i];
        var useTimesync := meta.useTimesync;
        if useTimesync {
          doCcTimeSync := true;
        }
        var useAverage := useTimesync && average != 0;
        handles := handles + [Metric(meta.name, useTimesync, useAverage)];
        result := result + [Property(meta.name, meta.description, meta.unit, ModeFor(useAverage, meta.scope))];
        assert metadata[..i + 1] == metadata[..i] + [meta];
        i := i + 1;
      }
      assert metadata[..i] == metadata;
    }

    /** `start()`'s synchronization part: the begin footprint is recorded
        when some metric needs it. */
    method Start()
      requires timeSync.Valid()
      modifies timeSync, timeSync.clock
      ensures timeSync.Valid()
      ensures doCcTimeSync ==> fresh(timeSync.footprintBegin)
      ensures !doCcTimeSync ==> timeSync.footprintBegin == old(timeSync.footprintBegin)
      ensures timeSync.footprintEnd == old(timeSync.footprintEnd) && timeSync.offsets == old(timeSync.offsets)
    {
      if doCcTimeSync {
        timeSync.SyncBegin();
      }
    }

    /** `stop()`'s first part: the end footprint is recorded when some
        metric needs it. */
    method StopSync()
      requires timeSync.Valid()
      modifies timeSync, timeSync.clock
      ensures timeSync.Valid()
      ensures doCcTimeSync ==> fresh(timeSync.footprintEnd)
      ensures !doCcTimeSync ==> timeSync.footprintEnd == old(timeSync.footprintEnd)
      ensures timeSync.footprintBegin == old(timeSync.footprintBegin) && timeSync.offsets == old(timeSync.offsets)
    {
      if doCcTimeSync {
        timeSync.SyncEnd();
      }
    }

    /** The offsets found with a metric: its data in the drain and
        `find_offsets` succeeding on it; None for a metric that is not
        time-synchronized. */
    ghost function SyncResult(m: Metric, data: map<string, seq<TimeValue>>): Option<Offsets>
      requires m.useTimesync ==> timeSync.Ready()
      reads timeSync`footprintBegin, timeSync`footprintEnd, timeSync.footprintBegin, timeSync.footprintEnd
    {
      if m.useTimesync && m.name in data && timeSync.OffsetsFor(data[m.name]).Success?
      then Some(timeSync.OffsetsFor(data[m.name]).value)
      else None
    }

    /** The offsets each metric of hs, in order, would give. */
    ghost function Outcomes(hs: seq<Metric>, data: map<string, seq<TimeValue>>): (r: seq<Option<Offsets>>)
      requires forall i :: 0 <= i < |hs| && hs[i].useTimesync ==> timeSync.Ready()
      reads timeSync`footprintBegin, timeSync`footprintEnd, timeSync.footprintBegin, timeSync.footprintEnd
      decreases |hs|
      ensures |r| == |hs|
    {
      if hs == [] then []
      else Outcomes(hs[..|hs| - 1], data) + [SyncResult(hs[|hs| - 1], data)]
    }

    /** Entry i of the outcomes is what metric i gives. */
    lemma {:induction false} OutcomeAt(hs: seq<Metric>, data: map<string, seq<TimeValue>>, i: nat)
      requires forall j :: 0 <= j < |hs| && hs[j].useTimesync ==> timeSync.Ready()
      requires i < |hs|
      decreases |hs|
      ensures Outcomes(hs, data)[i] == SyncResult(hs[i], data)
    {
      var init := hs[..|hs| - 1];
      if i < |init| {
        OutcomeAt(init, data, i);
      }
    }

    /** While neither footprint is touched, whether synchronization is
        ready and what each metric gives stay as they were. */
    twostate lemma FootprintsUnchanged(data: map<string, seq<TimeValue>>)
      requires unchanged(this`handles, timeSync`footprintBegin, timeSync`footprintEnd)
      requires unchanged({timeSync.footprintBegin, timeSync.footprintEnd} - {null})
      requires forall j :: 0 <= j < |handles| && handles[j].useTimesync ==> old(timeSync.Ready())
      ensures forall j :: 0 <= j < |handles| && handles[j].useTimesync ==> timeSync.Ready()
      ensures Outcomes(handles, data) == old(Outcomes(handles, data))
    {
    }

    /** The loop body of `stop()`'s synchronization: a time-synchronized
        metric is tried while no offsets are found; a metric without data or
        whose offsets cannot be found changes nothing. `outcome` is what
        the metric gives. */
    method TrySync(metric: Metric, data: map<string, seq<TimeValue>>, ghost outcome: Option<Offsets>)
      requires metric.useTimesync ==> timeSync.Ready()
      requires outcome == SyncResult(metric, data)
      modifies this`ccSynced, timeSync`offsets
      ensures ccSynced == (old(ccSynced) || outcome.Some?)
      ensures timeSync.offsets == if !old(ccSynced) && outcome.Some? then outcome else old(timeSync.offsets)
    {
      if metric.useTimesync && !ccSynced {
        if metric.name in data {
          var r := timeSync.FindOffsets(data[metric.name]);
          if r.Success? {
            ccSynced := true;
          }
        }
      }
    }

    /** `stop()`'s synchronization loop: the handles are tried in order
        and the first one the offsets are found with wins; every later one
        is skipped. */
    method SyncWithFirstMetric(data: map<string, seq<TimeValue>>)
      requires Valid() && (doCcTimeSync ==> timeSync.Ready())
      modifies this`ccSynced, timeSync`offsets
      ensures var outcomes := Outcomes(handles, data);
        var f := FirstSome(outcomes, 0);
        ccSynced == (old(ccSynced) || f.Some?) &&
        timeSync.offsets == if !old(ccSynced) && f.Some? then outcomes[f.value] else old(timeSync.offsets)
    {
      ghost var outcomes := Outcomes(handles, data);
      ghost var f := FirstSome(outcomes, 0);
      var i := 0;
      while i < |handles|
        invariant 0 <= i <= |handles|
        invariant Valid() && (doCcTimeSync ==> timeSync.Ready())
        invariant Outcomes(handles, data) == outcomes
        invariant ccSynced == (old(ccSynced) || (f.Some? && f.value < i))
        invariant timeSync.offsets ==
          if !old(ccSynced) && f.Some? && f.value < i then outcomes[f.value] else old(timeSync.offsets)
      {
        ghost var synced, offsets := ccSynced, timeSync.offsets;
        TryHandle(i, data, outcomes);
        FirstSomeStep(outcomes, i, old(ccSynced), old(timeSync.offsets), synced, offsets, ccSynced, timeSync.offsets);
        i := i + 1;
      }
    }

    /** One pass of that loop: handle i is tried with what it gives, and
        what every handle gives stays as it was. */
    method TryHandle(i: nat, data: map<string, seq<TimeValue>>, ghost outcomes: seq<Option<Offsets>>)
      requires Valid() && (doCcTimeSync ==> timeSync.Ready())
      requires i < |handles| && Outcomes(handles, data) == outcomes
      modifies this`ccSynced, timeSync`offsets
      ensures Valid() && (doCcTimeSync ==> timeSync.Ready())
      ensures Outcomes(handles, data) == outcomes
      ensures ccSynced == (old(ccSynced) || outcomes[i].Some?)
      ensures timeSync.offsets == if !old(ccSynced) && outcomes[i].Some? then outcomes[i] else old(timeSync.offsets)
    {
      OutcomeAt(handles, data, i);
      TrySync(handles[i], data, outcomes[i]);
      FootprintsUnchanged(data);
    }

    /** `get_all_values`: the values of one metric, written averaged or
        plain; a metric the drain holds no data for is an error, empty data
        writes nothing. `convert` is the metric's time conversion to
        Score-P ticks. */
    method GetAllValues(metric: Metric, data: map<string, seq<TimeValue>>, convert: int -> int)
      returns (r: Result<seq<Write>>)
      ensures metric.name !in data <==> r.Failure?
      ensures metric.name in data && metric.useAverage ==> r == Success(Averaged(data[metric.name], average, convert))
      ensures metric.name in data && !metric.useAverage ==> r == Success(Plain(data[metric.name], convert))
    {
      if metric.name !in data {
        return Failure("map::at");
      }
      var values := data[metric.name];
      if |values| == 0 {
        assert Averaged(values, average, convert) == [] && Plain(values, convert) == [];
        return Success([]);
      }
      var written;
      if metric.useAverage {
        written := WriteAveraged(values, convert);
      } else {
        written := WritePlain(values, convert);
      }
      r := Success(written);
    }

    /** The averaging loop of `get_all_values`. */
    method WriteAveraged(values: seq<TimeValue>, convert: int -> int) returns (written: seq<Write>)
      ensures written == Averaged(values, average, convert)
    {
      written := [];
      var count := 0;
      var sum := 0.0;
      var i := 0;
      while i < |values|
        invariant 0 <= i <= |values|
        invariant average <= 0 ==> written == [] && count == i
        invariant average > 0 ==> 0 <= count < average && i == |written| * average + count
        invariant average > 0 ==> sum == Sum(values, i - count, i)
        invariant average > 0 ==> |written| * average <= i && written == GroupsUpTo(values, average, |written|, convert)
      {
        sum := sum + values[i].value;
        count := count + 1;
        if count == average {
          ClosedGroup(values, average, |written|, i, sum, convert);
          written := written + [Write(convert(values[i].time), sum / average as real)];
          count := 0;
          sum := 0.0;
        }
        i := i + 1;
      }
      if average > 0 {
        DivideGroups(|values|, average, |written|, count);
        GroupsUpToIsAveraged(values, average, convert);
      }
    }

    /** The plain loop of `get_all_values`. */
    method WritePlain(values: seq<TimeValue>, convert: int -> int) returns (written: seq<Write>)
      ensures written == Plain(values, convert)
    {
      written := [];
      var i := 0;
      while i < |values|
        invariant 0 <= i <= |values|
        invariant written == Plain(values[..i], convert)
      {
        written := written + [Write(convert(values[i].time), values[i].value)];
        i := i + 1;
      }
      assert values[..i] == values;
    }
  }
}
