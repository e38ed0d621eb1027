/**
 * The JMeter graph that plots the active thread count (scaled) and the
 * response times of samples against elapsed time, for a running test or for
 * results loaded from a JTL file.
 *
 * Swing, the chart rows and the JMeter engine are not modelled: the test
 * start time, the granulation, the current thread count and the scale
 * setting are inputs of `Add`, and the rows are abstracted to the ordered
 * log of the points added to them.
 */
module ThreadAndResponseTimeGraph {
  import opened Wrappers
  import opened JavaLang

  const ResponseTimes: string := "Response Times"
  const OverallPrefix: string := "Overall "
  const ActiveThreadCountPrefix: string := "Active Thread Count (x "
  const ActiveThreadCountPostfix: string := ")"

  /** The times of a sample result, in milliseconds; `time` is its elapsed time. */
  datatype Sample = Sample(startTime: int, endTime: int, time: int)

  /** The graph's start-time state: where the time axis starts, and whether samples come from a loaded file. */
  datatype StartState = StartState(relativeStartTime: int, isJtlLoad: bool)

  /** A point added to a graph row: to `model` or to `modelAggregate`, the label of the row, and the point. */
  datatype PlotPoint = PlotPoint(aggregate: bool, rowLabel: string, time: int, value: int)

  ghost predicate MultipleOf(x: int, granulation: int) {
    exists q :: x == q * granulation
  }

  /**
   * normalizeTime: the time truncated to a multiple of the granulation,
   * that is the start of the granulation bucket the time falls in.
   */
  function NormalizeTime(time: int, granulation: int): (r: int)
    requires granulation > 0
    ensures MultipleOf(r, granulation)
    ensures time >= 0 ==> 0 <= r <= time && time - r < granulation
    ensures time < 0 ==> time <= r <= 0 && r - time < granulation
  {
    var m := Rem(time, granulation);
    var q := Quot(time, granulation);
    assert time == q * granulation + m;
    assert MultipleOf(time - m, granulation) by {
      assert time - m == q * granulation;
    }
    time - m
  }

  /** How `add` moves the start-time state for an included sample starting at `sampleStart`. */
  function NextStartState(s: StartState, testStartTime: int, sampleStart: int, granulation: int): StartState
    requires granulation > 0
  {
    var init :=
      if s.relativeStartTime != 0 then s
      else if testStartTime != 0 then StartState(NormalizeTime(testStartTime, granulation), false)
      else StartState(NormalizeTime(sampleStart, granulation), true);
    if init.isJtlLoad && init.relativeStartTime > sampleStart
    then StartState(NormalizeTime(sampleStart, granulation), true)
    else init
  }

  function ThreadLabel(scale: int): string {
    ActiveThreadCountPrefix + IntToString(scale) + ActiveThreadCountPostfix
  }

  /** The four points `add` plots for a sample, in the order it adds them. */
  function PlotsOf(res: Sample, threadsCount: int, scale: int, granulation: int): (ps: seq<PlotPoint>)
    requires granulation > 0
    ensures |ps| == 4
    ensures forall k :: 0 <= k < 4 ==> MultipleOf(ps[k].time, granulation)
    ensures forall k :: 0 <= k < 4 ==>
              (res.endTime >= 0 ==> 0 <= ps[k].time <= res.endTime && res.endTime - ps[k].time < granulation)
    ensures !ps[0].aggregate && ps[1].aggregate && !ps[2].aggregate && ps[3].aggregate
    ensures ps[0].value == ps[1].value && InIntRange(ps[0].value)
    ensures (ps[0].value - threadsCount * scale) % IntModulus == 0
    ensures InIntRange(threadsCount * scale) ==> ps[0].value == threadsCount * scale
    ensures ps[2].value == res.time && ps[3].value == res.time
    ensures ps[0].rowLabel == ThreadLabel(scale) && ps[2].rowLabel == ResponseTimes
    ensures ps[1].rowLabel == OverallPrefix + ps[0].rowLabel
    ensures ps[3].rowLabel == OverallPrefix + ps[2].rowLabel
  {
    var t := NormalizeTime(res.endTime, granulation);
    var threads := WrapInt(threadsCount * scale);
    [ PlotPoint(false, ThreadLabel(scale), t, threads),
      PlotPoint(true, OverallPrefix + ThreadLabel(scale), t, threads),
      PlotPoint(false, ResponseTimes, t, res.time),
      PlotPoint(true, OverallPrefix + ResponseTimes, t, res.time) ]
  }

  // ---------------------------------------------------------------------
  // Properties of the start-time state
  // ---------------------------------------------------------------------

  /**
   * On the first included sample the axis start comes from the test start
   * time when the engine has one (a live test), and otherwise from the
   * sample itself (a loaded file); either way it is truncated to a multiple
   * of the granulation.
   */
  lemma FirstSampleFixesStart(testStartTime: int, sampleStart: int, granulation: int)
    requires granulation > 0
    ensures var r := NextStartState(StartState(0, false), testStartTime, sampleStart, granulation);
            && (testStartTime != 0 ==> r == StartState(NormalizeTime(testStartTime, granulation), false))
            && (testStartTime == 0 ==> r == StartState(NormalizeTime(sampleStart, granulation), true))
            && MultipleOf(r.relativeStartTime, granulation)
  {
  }

  /** In a live test, once the axis start is set, later samples leave the state alone. */
  lemma LiveStartIsStable(s: StartState, testStartTime: int, sampleStart: int, granulation: int)
    requires granulation > 0
    requires !s.isJtlLoad && s.relativeStartTime != 0
    ensures NextStartState(s, testStartTime, sampleStart, granulation) == s
  {
  }

  /**
   * When loading a file, once the axis start is set it never moves later: a
   * sample that starts before it moves it to that sample's bucket, any other
   * sample leaves it; either way it ends at or before the sample's start.
   */
  lemma JtlStartOnlyMovesEarlier(s: StartState, testStartTime: int, sampleStart: int, granulation: int)
    requires granulation > 0
    requires s.isJtlLoad && s.relativeStartTime != 0 && sampleStart >= 0
    ensures var r := NextStartState(s, testStartTime, sampleStart, granulation);
            && r.isJtlLoad
            && r.relativeStartTime <= s.relativeStartTime
            && r.relativeStartTime <= sampleStart
            && (s.relativeStartTime > sampleStart ==> r.relativeStartTime == NormalizeTime(sampleStart, granulation))
            && (s.relativeStartTime <= sampleStart ==> r == s)
  {
  }

  /** Whether the graph is loading a file is decided on the first sample and then kept. */
  lemma ModeFixedOnceStarted(s: StartState, testStartTime: int, sampleStart: int, granulation: int)
    requires granulation > 0
    requires s.relativeStartTime != 0
    ensures NextStartState(s, testStartTime, sampleStart, granulation).isJtlLoad == s.isJtlLoad
  {
  }

  /** The state after a run of included samples with the given start times. */
  function StartAfter(s: StartState, testStartTime: int, starts: seq<int>, granulation: int): StartState
    requires granulation > 0
    decreases |starts|
  {
    if starts == [] then s
    else StartAfter(NextStartState(s, testStartTime, starts[0], granulation), testStartTime, starts[1..], granulation)
  }

  /**
   * Loading a file whose samples all start at or after one granulation:
   * the axis start stays set, never moves later, and ends at or before the
   * start of every sample loaded, on a bucket boundary.
   */
  lemma {:induction false} JtlStartPrecedesAllSamples(s: StartState, testStartTime: int, starts: seq<int>,
                                                      granulation: int)
    requires granulation > 0
    requires s.isJtlLoad && s.relativeStartTime > 0 && MultipleOf(s.relativeStartTime, granulation)
    requires forall k :: 0 <= k < |starts| ==> starts[k] >= granulation
    ensures var r := StartAfter(s, testStartTime, starts, granulation);
            && r.isJtlLoad
            && 0 < r.relativeStartTime <= s.relativeStartTime
            && MultipleOf(r.relativeStartTime, granulation)
            && forall k :: 0 <= k < |starts| ==> r.relativeStartTime <= starts[k]
    decreases |starts|
  {
    if starts != [] {
      var next := NextStartState(s, testStartTime, starts[0], granulation);
      JtlStartOnlyMovesEarlier(s, testStartTime, starts[0], granulation);
      assert next.relativeStartTime > 0;
      JtlStartPrecedesAllSamples(next, testStartTime, starts[1..], granulation);
      var r := StartAfter(s, testStartTime, starts, granulation);
      assert r == StartAfter(next, testStartTime, starts[1..], granulation);
      forall k | 0 <= k < |starts| ensures r.relativeStartTime <= starts[k] {
        if k > 0 {
          assert starts[k] == starts[1..][k - 1];
        }
      }
    }
  }

  /** In a live test with the axis start set, any run of samples leaves the state alone. */
  lemma {:induction false} LiveStartStableOverRun(s: StartState, testStartTime: int, starts: seq<int>, granulation: int)
    requires granulation > 0
    requires !s.isJtlLoad && s.relativeStartTime != 0
    ensures StartAfter(s, testStartTime, starts, granulation) == s
    decreases |starts|
  {
    if starts != [] {
      LiveStartIsStable(s, testStartTime, starts[0], granulation);
      LiveStartStableOverRun(s, testStartTime, starts[1..], granulation);
    }
  }

  // ---------------------------------------------------------------------
  // Properties of the plotted points
  // ---------------------------------------------------------------------

  /**
   * Every point of a sample lies in the bucket of its end time; the thread
   * rows get the thread count times the scale (as a Java int: exactly that
   * product whenever it fits in 32 bits), the response-time rows the
   * sample's elapsed time.
   */
  /** The thread rows' label names the scale, which reads back from it. */
  lemma ThreadLabelNamesScale(scale: int)
    ensures var l := ThreadLabel(scale);
            && ActiveThreadCountPrefix <= l
            && ParseInt(l[|ActiveThreadCountPrefix|..|l| - 1]) == Some(scale)
  {
    var l := ThreadLabel(scale);
    assert l[|ActiveThreadCountPrefix|..|l| - 1] == IntToString(scale);
    IntToStringRoundTrip(scale);
  }

  class ThreadAndResponseTimeVsTimeGui {
    var relativeStartTime: int
    var isJtlLoad: bool
    var thrScaleBy: int
    /** The points added to the rows so far, in order. */
    var points: seq<PlotPoint>

    constructor ()
      ensures relativeStartTime == 0 && !isJtlLoad && thrScaleBy == 0 && points == []
    {
      relativeStartTime := 0;
      isJtlLoad := false;
      thrScaleBy := 0;
      points := [];
    }

    function Start(): StartState
      reads this
    {
      StartState(relativeStartTime, isJtlLoad)
    }

    /**
     * add: ignores an excluded sample; otherwise fixes the start of the time
     * axis on the first sample (from the test start time, or, when loading a
     * file, from the sample), moves it earlier for an earlier loaded sample,
     * takes the current scale setting and plots the scaled thread count and
     * the response time at the sample's end-time bucket.
     */
    method Add(included: bool, res: Sample, testStartTime: int, threadsCount: int, scaleSetting: int,
               granulation: int)
      requires granulation > 0
      modifies this
      ensures !included ==> unchanged(this)
      ensures included ==> Start() == NextStartState(old(Start()), testStartTime, res.startTime, granulation)
      ensures included ==> thrScaleBy == scaleSetting
      ensures included ==> points == old(points) + PlotsOf(res, threadsCount, scaleSetting, granulation)
    {
      if !included {
        return;
      }
      if relativeStartTime == 0 {
        relativeStartTime := testStartTime;
        isJtlLoad := false;
        if relativeStartTime == 0 {
          relativeStartTime := res.startTime;
          isJtlLoad := true;
        }
        relativeStartTime := relativeStartTime - Rem(relativeStartTime, granulation);
      }
      if isJtlLoad {
        if relativeStartTime > res.startTime {
          relativeStartTime := res.startTime - Rem(res.startTime, granulation);
        }
      }

      thrScaleBy := scaleSetting;
      var thrLabel := ActiveThreadCountPrefix + IntToString(thrScaleBy) + ActiveThreadCountPostfix;
      var thrAggLabel := OverallPrefix + thrLabel;
      var aggLabel := OverallPrefix + ResponseTimes;

      var threads := WrapInt(threadsCount * thrScaleBy);
      var t := NormalizeTime(res.endTime, granulation);
      points := points + [PlotPoint(false, thrLabel, t, threads)];
      points := points + [PlotPoint(true, thrAggLabel, t, threads)];
      points := points + [PlotPoint(false, ResponseTimes, t, res.time)];
      points := points + [PlotPoint(true, aggLabel, t, res.time)];
    }
  }
}
