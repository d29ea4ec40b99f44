/**
 The evaluation profile's endpoint sweep, against the measure of unions of intervals. Time is
 counted in whole ticks, and a span covers the ticks from its start up to its finish.
 */
module EvaluationSweep {
  import opened Basics
  import opened Intervals
  import opened Ordering
  import opened Sums

  type Phase = string

  datatype Span = Span(phase: Phase, started: int, finished: int)

  datatype Endpoint = Endpoint(time: int, phase: Phase, delta: int)

  /** The running phases of a partition entry, its primary ones apart from the detailed ones. */
  datatype Label = Label(primary: set<Phase>, detailed: set<Phase>)

  datatype Summary = Summary(calls: nat, inclusive: map<Phase, int>, partition: map<Label, int>, measuredUnion: int)

  const PHASES: set<Phase> := {
    "close-verification", "ballot-classification", "encrypted-evaluation", "target-persistence",
    "target-restoration", "retrieval", "working-storage", "evaluation-module", "target-signing"
  }
  const DETAILED: set<Phase> := {"retrieval", "working-storage", "evaluation-module"}

  predicate SpanOk(s: Span) {
    s.phase in PHASES && 0 <= s.started <= s.finished
  }

  function LabelOf(running: set<Phase>): Label {
    Label(running - DETAILED, running * DETAILED)
  }

  /** A label of known phases, each on its side. */
  predicate Known(key: Label) {
    key.primary <= PHASES - DETAILED && key.detailed <= DETAILED
  }

  predicate AllKnown(partition: map<Label, int>) {
    forall key | key in partition :: Known(key)
  }

  // ----- What the summary means -----

  predicate Covers(s: Span, t: int) {
    s.started <= t < s.finished
  }

  /** The phases running during tick `t`. */
  function Running(spans: seq<Span>, t: int): set<Phase> {
    set s | s in spans && Covers(s, t) :: s.phase
  }

  /** The ticks before `end` at which a phase runs: the union of its intervals. */
  function PhaseTicks(spans: seq<Span>, phase: Phase, end: int): set<int> {
    set t | t in Interval(0, end) && phase in Running(spans, t)
  }

  /** The ticks before `end` at which exactly the label's phases run. */
  function LabelTicks(spans: seq<Span>, key: Label, end: int): set<int> {
    set t | t in Interval(0, end) && Running(spans, t) != {} && LabelOf(Running(spans, t)) == key
  }

  /** The ticks before `end` at which anything runs: the union of all intervals. */
  function BusyTicks(spans: seq<Span>, end: int): set<int> {
    set t | t in Interval(0, end) && Running(spans, t) != {}
  }

  /** Each inclusive total measures its phase's ticks, each partition entry its key's, and their sum all. */
  ghost predicate Measures(spans: seq<Span>, inclusive: map<Phase, int>, partition: map<Label, int>, end: int) {
    && MeasuresPhases(spans, inclusive, end)
    && MeasuresLabels(spans, partition, end)
    && SumMap(partition) == |BusyTicks(spans, end)|
  }

  ghost predicate EndsBy(spans: seq<Span>, end: int) {
    forall s | s in spans :: s.finished <= end
  }

  lemma RunningIsKnown(spans: seq<Span>, t: int)
    requires forall s | s in spans :: SpanOk(s)
    ensures Known(LabelOf(Running(spans, t)))
  {
  }

  // ----- Counting endpoints -----

  function Endpoints(spans: seq<Span>): seq<Endpoint> {
    if spans == [] then []
    else
      var s := spans[|spans| - 1];
      Endpoints(spans[..|spans| - 1]) + [Endpoint(s.started, s.phase, 1), Endpoint(s.finished, s.phase, -1)]
  }

  function TimeOf(e: Endpoint): int {
    e.time
  }

  function Sorted(spans: seq<Span>): seq<Endpoint> {
    Sort(Endpoints(spans), TimeOf)
  }

  function DeltaOf(phase: Phase): Endpoint -> int {
    (e: Endpoint) => if e.phase == phase then e.delta else 0
  }

  function DeltaUpTo(phase: Phase, t: int): Endpoint -> int {
    (e: Endpoint) => if e.phase == phase && e.time <= t then e.delta else 0
  }

  function Covering(phase: Phase, t: int): Span -> int {
    (s: Span) => if s.phase == phase && Covers(s, t) then 1 else 0
  }

  lemma TotalTwo<T>(xs: seq<T>, x: T, y: T, weight: T -> int)
    ensures Total(xs + [x, y], weight) == Total(xs, weight) + weight(x) + weight(y)
  {
    assert (xs + [x, y])[..|xs| + 1] == xs + [x];
    assert (xs + [x])[..|xs|] == xs;
  }

  /** The endpoints up to a tick count the spans that cover it, in whatever order the spans came. */
  lemma {:induction false} EndpointsCountCovering(spans: seq<Span>, phase: Phase, t: int)
    requires forall s | s in spans :: SpanOk(s)
    ensures Total(Endpoints(spans), DeltaUpTo(phase, t)) == Total(spans, Covering(phase, t))
  {
    if spans != [] {
      var front, s := spans[..|spans| - 1], spans[|spans| - 1];
      assert s in spans && forall r | r in front :: r in spans;
      EndpointsCountCovering(front, phase, t);
      TotalTwo(Endpoints(front), Endpoint(s.started, s.phase, 1), Endpoint(s.finished, s.phase, -1),
               DeltaUpTo(phase, t));
    }
  }

  lemma {:induction false} EndpointsCancel(spans: seq<Span>, phase: Phase)
    ensures Total(Endpoints(spans), DeltaOf(phase)) == 0
  {
    if spans != [] {
      var front, s := spans[..|spans| - 1], spans[|spans| - 1];
      EndpointsCancel(front, phase);
      TotalTwo(Endpoints(front), Endpoint(s.started, s.phase, 1), Endpoint(s.finished, s.phase, -1), DeltaOf(phase));
    }
  }

  lemma {:induction false} CoveringCounts(spans: seq<Span>, phase: Phase, t: int)
    ensures Total(spans, Covering(phase, t)) >= 0
    ensures Total(spans, Covering(phase, t)) > 0 <==> phase in Running(spans, t)
  {
    if spans != [] {
      var front, s := spans[..|spans| - 1], spans[|spans| - 1];
      CoveringCounts(front, phase, t);
      assert forall r :: r in spans <==> r in front || r == s;
      assert Running(spans, t) == Running(front, t) + if Covers(s, t) then {s.phase} else {};
    }
  }

  /** Once the endpoints split at a tick, the first part decides what it counts. */
  lemma {:induction false} SplitTotal(es: seq<Endpoint>, i: nat, phase: Phase, t: int)
    requires i <= |es|
    requires forall j | 0 <= j < i :: es[j].time <= t
    requires forall j | i <= j < |es| :: es[j].time > t
    ensures Total(es, DeltaUpTo(phase, t)) == Total(es[..i], DeltaOf(phase))
  {
    var last := |es| - 1;
    if es == [] {
    } else if i <= last {
      SplitTotal(es[..last], i, phase, t);
      assert es[..last][..i] == es[..i];
    } else {
      SplitTotal(es[..last], last, phase, t);
      assert es[..last][..last] == es[..last];
      assert es[..i] == es && es[..i][..last] == es[..last];
    }
  }

  /** Between two neighbouring endpoint times exactly the phases with a positive count run. */
  lemma RunningBetween(spans: seq<Span>, i: nat, t: int, active: map<Phase, int>)
    requires forall s | s in spans :: SpanOk(s)
    requires i <= |Sorted(spans)|
    requires forall j | 0 <= j < i :: Sorted(spans)[j].time <= t
    requires forall j | i <= j < |Sorted(spans)| :: Sorted(spans)[j].time > t
    requires forall phase :: Get(active, phase) == Total(Sorted(spans)[..i], DeltaOf(phase))
    ensures Running(spans, t) == set phase | phase in active && active[phase] > 0
  {
    forall phase ensures phase in Running(spans, t) <==> Get(active, phase) > 0 {
      SplitTotal(Sorted(spans), i, phase, t);
      SortTotal(Endpoints(spans), TimeOf, DeltaUpTo(phase, t));
      EndpointsCountCovering(spans, phase, t);
      CoveringCounts(spans, phase, t);
    }
  }

  // ----- Extending the measure over a stretch in which the running phases stay the same -----

  /** Ticks that gain a whole stretch or nothing. */
  lemma TicksExtend(before: set<int>, after: set<int>, previous: int, time: int, gains: bool)
    requires 0 <= previous <= time && forall t | t in before :: t < previous
    requires forall t :: t in after <==> t in before || (gains && previous <= t < time)
    ensures |after| == |before| + if gains then time - previous else 0
  {
    var added := if gains then Interval(previous, time) else {};
    forall t ensures t in after <==> t in before + added {
    }
    assert after == before + added;
    assert before !! added;
  }

  lemma PhaseExtends(spans: seq<Span>, phase: Phase, previous: int, time: int, running: set<Phase>)
    requires 0 <= previous <= time
    requires forall t | previous <= t < time :: Running(spans, t) == running
    ensures |PhaseTicks(spans, phase, time)|
         == |PhaseTicks(spans, phase, previous)| + if phase in running then time - previous else 0
  {
    TicksExtend(PhaseTicks(spans, phase, previous), PhaseTicks(spans, phase, time), previous, time, phase in running);
  }

  lemma LabelExtends(spans: seq<Span>, key: Label, previous: int, time: int, running: set<Phase>)
    requires 0 <= previous <= time
    requires forall t | previous <= t < time :: Running(spans, t) == running
    ensures |LabelTicks(spans, key, time)|
         == |LabelTicks(spans, key, previous)|
          + if running != {} && LabelOf(running) == key then time - previous else 0
  {
    TicksExtend(LabelTicks(spans, key, previous), LabelTicks(spans, key, time), previous, time,
                running != {} && LabelOf(running) == key);
  }

  lemma BusyExtends(spans: seq<Span>, previous: int, time: int, running: set<Phase>)
    requires 0 <= previous <= time
    requires forall t | previous <= t < time :: Running(spans, t) == running
    ensures |BusyTicks(spans, time)| == |BusyTicks(spans, previous)| + if running != {} then time - previous else 0
  {
    TicksExtend(BusyTicks(spans, previous), BusyTicks(spans, time), previous, time, running != {});
  }

  predicate Steady(spans: seq<Span>, previous: int, time: int, running: set<Phase>) {
    0 <= previous <= time && forall t | previous <= t < time :: Running(spans, t) == running
  }

  ghost predicate MeasuresPhases(spans: seq<Span>, inclusive: map<Phase, int>, end: int) {
    forall phase :: Get(inclusive, phase) == |PhaseTicks(spans, phase, end)|
  }

  ghost predicate MeasuresLabels(spans: seq<Span>, partition: map<Label, int>, end: int) {
    forall key :: Get(partition, key) == |LabelTicks(spans, key, end)|
  }

  ghost predicate Added(inclusive: map<Phase, int>, running: set<Phase>, elapsed: int, inclusive': map<Phase, int>) {
    forall phase :: Get(inclusive', phase) == Get(inclusive, phase) + if phase in running then elapsed else 0
  }

  lemma PhasesExtend(spans: seq<Span>, inclusive: map<Phase, int>, previous: int, time: int, running: set<Phase>,
                     inclusive': map<Phase, int>)
    requires Steady(spans, previous, time, running) && MeasuresPhases(spans, inclusive, previous)
    requires Added(inclusive, running, time - previous, inclusive')
    ensures MeasuresPhases(spans, inclusive', time)
  {
    forall phase ensures Get(inclusive', phase) == |PhaseTicks(spans, phase, time)| {
      PhaseExtends(spans, phase, previous, time, running);
    }
  }

  /** The partition with an elapsed time added to what runs, if anything does. */
  function AddToLabel(partition: map<Label, int>, running: set<Phase>, elapsed: int): map<Label, int> {
    if running == {} || elapsed == 0 then partition
    else partition[LabelOf(running) := Get(partition, LabelOf(running)) + elapsed]
  }

  /** Only labels of known phases come in. */
  lemma AddedIsKnown(spans: seq<Span>, partition: map<Label, int>, previous: int, time: int, running: set<Phase>)
    requires (forall s | s in spans :: SpanOk(s)) && Steady(spans, previous, time, running) && AllKnown(partition)
    ensures AllKnown(AddToLabel(partition, running, time - previous))
  {
    if time > previous {
      RunningIsKnown(spans, previous);
    }
  }

  lemma LabelsExtend(spans: seq<Span>, partition: map<Label, int>, previous: int, time: int, running: set<Phase>)
    requires Steady(spans, previous, time, running) && MeasuresLabels(spans, partition, previous)
    ensures MeasuresLabels(spans, AddToLabel(partition, running, time - previous), time)
  {
    var partition' := AddToLabel(partition, running, time - previous);
    forall key ensures Get(partition', key) == |LabelTicks(spans, key, time)| {
      LabelExtends(spans, key, previous, time, running);
    }
  }

  lemma UnionExtends(spans: seq<Span>, partition: map<Label, int>, previous: int, time: int, running: set<Phase>)
    requires Steady(spans, previous, time, running) && SumMap(partition) == |BusyTicks(spans, previous)|
    ensures SumMap(AddToLabel(partition, running, time - previous)) == |BusyTicks(spans, time)|
  {
    BusyExtends(spans, previous, time, running);
    if running != {} && time > previous {
      SumMapUpdate(partition, LabelOf(running), Get(partition, LabelOf(running)) + (time - previous));
    }
  }

  // ----- The sweep -----

  method CollectEndpoints(spans: seq<Span>) returns (endpoints: Option<seq<Endpoint>>)
    ensures endpoints.None? <==> exists s :: s in spans && !SpanOk(s)
    ensures endpoints.Some? ==> endpoints.value == Endpoints(spans)
  {
    var collected: seq<Endpoint> := [];
    for i := 0 to |spans|
      invariant collected == Endpoints(spans[..i])
      invariant forall s | s in spans[..i] :: SpanOk(s)
    {
      var s := spans[i];
      if !SpanOk(s) {
        return None;
      }
      assert spans[..i + 1][..i] == spans[..i];
      collected := collected + [Endpoint(s.started, s.phase, 1), Endpoint(s.finished, s.phase, -1)];
    }
    assert spans[..|spans|] == spans;
    return Some(collected);
  }

  /** Adds an elapsed time to each running phase. */
  method AddToEach(inclusive: map<Phase, int>, running: set<Phase>, elapsed: int) returns (r: map<Phase, int>)
    ensures Added(inclusive, running, elapsed, r)
  {
    r := inclusive;
    var rest := running;
    while rest != {}
      invariant rest <= running
      invariant forall phase ::
        Get(r, phase) == Get(inclusive, phase) + if phase in running && phase !in rest then elapsed else 0
    {
      var phase :| phase in rest;
      r, rest := r[phase := Get(r, phase) + elapsed], rest - {phase};
    }
  }

  /** Where the sweep stands before it takes the endpoint at `i`, and what it counts as active. */
  ghost predicate Positioned(spans: seq<Span>, i: nat, previous: int, active: map<Phase, int>) {
    && i <= |Sorted(spans)|
    && previous >= 0
    && (forall j | 0 <= j < i :: Sorted(spans)[j].time <= previous)
    && (forall j | i <= j < |Sorted(spans)| :: Sorted(spans)[j].time >= previous)
    && (forall phase :: Get(active, phase) == Total(Sorted(spans)[..i], DeltaOf(phase)))
  }

  lemma {:induction false} EndpointsFromZero(spans: seq<Span>)
    requires forall s | s in spans :: SpanOk(s)
    ensures forall e | e in Endpoints(spans) :: e.time >= 0
  {
    if spans != [] {
      assert spans[|spans| - 1] in spans && forall r | r in spans[..|spans| - 1] :: r in spans;
      EndpointsFromZero(spans[..|spans| - 1]);
    }
  }

  lemma SortedTimes(spans: seq<Span>)
    requires forall s | s in spans :: SpanOk(s)
    ensures forall j, k | 0 <= j < k < |Sorted(spans)| :: Sorted(spans)[j].time <= Sorted(spans)[k].time
    ensures forall j | 0 <= j < |Sorted(spans)| :: Sorted(spans)[j].time >= 0
  {
    SortSorts(Endpoints(spans), TimeOf);
    EndpointsFromZero(spans);
    forall j, k | 0 <= j < k < |Sorted(spans)| ensures Sorted(spans)[j].time <= Sorted(spans)[k].time {
      assert TimeOf(Sorted(spans)[j]) <= TimeOf(Sorted(spans)[k]);
    }
    forall j | 0 <= j < |Sorted(spans)| ensures Sorted(spans)[j].time >= 0 {
      assert Sorted(spans)[j] in multiset(Sorted(spans));
    }
  }

  /** Nothing runs before the first endpoint. */
  lemma SweepStarts(spans: seq<Span>, first: int)
    requires forall s | s in spans :: SpanOk(s)
    requires first == if Sorted(spans) == [] then 0 else Sorted(spans)[0].time
    ensures Positioned(spans, 0, first, map[]) && Measures(spans, map[], map[], first)
  {
    SortedTimes(spans);
    forall t | 0 <= t < first ensures Running(spans, t) == {} {
      RunningBetween(spans, 0, t, map[]);
    }
    assert BusyTicks(spans, first) == {};
    assert forall phase :: PhaseTicks(spans, phase, first) == {};
    assert forall key :: LabelTicks(spans, key, first) == {};
  }

  lemma StretchIsSteady(spans: seq<Span>, i: nat, previous: int, active: map<Phase, int>, running: set<Phase>)
    requires forall s | s in spans :: SpanOk(s)
    requires Positioned(spans, i, previous, active) && i < |Sorted(spans)|
    requires running == set phase | phase in active && active[phase] > 0
    ensures Steady(spans, previous, Sorted(spans)[i].time, running)
  {
    SortedTimes(spans);
    forall t | previous <= t < Sorted(spans)[i].time ensures Running(spans, t) == running {
      RunningBetween(spans, i, t, active);
    }
  }

  lemma PositionAdvances(spans: seq<Span>, i: nat, previous: int, active: map<Phase, int>)
    requires forall s | s in spans :: SpanOk(s)
    requires Positioned(spans, i, previous, active) && i < |Sorted(spans)|
    ensures var e := Sorted(spans)[i];
            Positioned(spans, i + 1, e.time, active[e.phase := Get(active, e.phase) + e.delta])
  {
    SortedTimes(spans);
    assert Sorted(spans)[..i + 1][..i] == Sorted(spans)[..i];
  }

  /** A stretch added to whatever runs extends the measure over it. */
  lemma MeasureAdvances(spans: seq<Span>, inclusive: map<Phase, int>, partition: map<Label, int>,
                        previous: int, time: int, running: set<Phase>, inclusive': map<Phase, int>)
    requires Steady(spans, previous, time, running) && Measures(spans, inclusive, partition, previous)
    requires Added(inclusive, running, time - previous, inclusive')
    ensures Measures(spans, inclusive', AddToLabel(partition, running, time - previous), time)
  {
    PhasesExtend(spans, inclusive, previous, time, running, inclusive');
    LabelsExtend(spans, partition, previous, time, running);
    UnionExtends(spans, partition, previous, time, running);
  }

  /** After the last endpoint every count is zero, and the measures hold for any later bound. */
  lemma SweepEnds(spans: seq<Span>, previous: int, active: map<Phase, int>,
                  inclusive: map<Phase, int>, partition: map<Label, int>, end: int)
    requires forall s | s in spans :: SpanOk(s)
    requires Positioned(spans, |Sorted(spans)|, previous, active) && Measures(spans, inclusive, partition, previous)
    ensures forall phase | phase in active :: active[phase] == 0
    ensures EndsBy(spans, end) ==> Measures(spans, inclusive, partition, end)
  {
    var es := Sorted(spans);
    assert es[..|es|] == es;
    forall phase | phase in active ensures active[phase] == 0 {
      assert Get(active, phase) == active[phase];
      SortTotal(Endpoints(spans), TimeOf, DeltaOf(phase));
      EndpointsCancel(spans, phase);
    }
    if EndsBy(spans, end) {
      forall t | t >= previous || t >= end ensures Running(spans, t) == {} {
        if t >= previous {
          RunningBetween(spans, |es|, t, active);
        }
      }
      assert BusyTicks(spans, end) == BusyTicks(spans, previous);
      assert forall phase :: PhaseTicks(spans, phase, end) == PhaseTicks(spans, phase, previous);
      assert forall key :: LabelTicks(spans, key, end) == LabelTicks(spans, key, previous);
    }
  }

  /** What one endpoint's elapsed time adds to the totals. */
  method Account(ghost spans: seq<Span>, inclusive: map<Phase, int>, partition: map<Label, int>,
                 previous: int, time: int, running: set<Phase>)
    returns (inclusive': map<Phase, int>, partition': map<Label, int>)
    requires Steady(spans, previous, time, running) && Measures(spans, inclusive, partition, previous)
    ensures Measures(spans, inclusive', partition', time)
    ensures partition' == AddToLabel(partition, running, time - previous)
  {
    var elapsed := time - previous;
    inclusive', partition' := inclusive, partition;
    if elapsed > 0 && running != {} {
      inclusive' := AddToEach(inclusive, running, elapsed);
      var key := LabelOf(running);
      partition' := partition[key := Get(partition, key) + elapsed];
    }
    assert Added(inclusive, running, elapsed, inclusive') && partition' == AddToLabel(partition, running, elapsed);
    MeasureAdvances(spans, inclusive, partition, previous, time, running, inclusive');
  }

  /** How far the sweep is: what runs is counted, and what ran is measured. */
  ghost predicate Swept(spans: seq<Span>, i: nat, previous: int, active: map<Phase, int>,
                        inclusive: map<Phase, int>, partition: map<Label, int>)
  {
    && (forall s | s in spans :: SpanOk(s)) && i <= |Sorted(spans)|
    && Positioned(spans, i, previous, active) && Measures(spans, inclusive, partition, previous)
    && AllKnown(partition)
  }

  /** One endpoint: accounts for the time up to it and counts it. */
  method Pass(ghost spans: seq<Span>, ghost i: nat, endpoint: Endpoint, previous: int, active: map<Phase, int>,
              inclusive: map<Phase, int>, partition: map<Label, int>)
    returns (active': map<Phase, int>, inclusive': map<Phase, int>, partition': map<Label, int>)
    requires Swept(spans, i, previous, active, inclusive, partition)
    requires i < |Sorted(spans)| && endpoint == Sorted(spans)[i]
    ensures Swept(spans, i + 1, endpoint.time, active', inclusive', partition')
  {
    var running := set phase | phase in active && active[phase] > 0;
    StretchIsSteady(spans, i, previous, active, running);
    PositionAdvances(spans, i, previous, active);
    inclusive', partition' := Account(spans, inclusive, partition, previous, endpoint.time, running);
    AddedIsKnown(spans, partition, previous, endpoint.time, running);
    active' := active[endpoint.phase := Get(active, endpoint.phase) + endpoint.delta];
  }

  lemma SweptAll(spans: seq<Span>, previous: int, active: map<Phase, int>,
                 inclusive: map<Phase, int>, partition: map<Label, int>)
    requires Swept(spans, |Sorted(spans)|, previous, active, inclusive, partition)
    ensures forall phase | phase in active :: active[phase] == 0
    ensures forall end :: EndsBy(spans, end) ==> Measures(spans, inclusive, partition, end)
  {
    SweepEnds(spans, previous, active, inclusive, partition, 0);
    forall end | EndsBy(spans, end) ensures Measures(spans, inclusive, partition, end) {
      SweepEnds(spans, previous, active, inclusive, partition, end);
    }
  }

  // ----- What an entry's key says of a tick -----

  ghost predicate PhaseRuns(spans: seq<Span>, phase: Phase, t: int) {
    exists s :: s in spans && s.phase == phase && s.started <= t < s.finished
  }

  /** The key's phases run during the tick and no others, the three detailed ones kept apart from the rest. */
  ghost predicate RunsExactly(spans: seq<Span>, key: Label, t: int) {
    && (forall phase :: phase in key.primary <==>
          PhaseRuns(spans, phase, t) && phase !in ["retrieval", "working-storage", "evaluation-module"])
    && (forall phase :: phase in key.detailed <==>
          PhaseRuns(spans, phase, t) && phase in ["retrieval", "working-storage", "evaluation-module"])
  }

  /** The ticks a summary's numbers count, told by the spans that run during each. */
  lemma TicksAreOfTheSpans(spans: seq<Span>, phase: Phase, key: Label, end: int, t: int)
    ensures t in PhaseTicks(spans, phase, end) <==> 0 <= t < end && PhaseRuns(spans, phase, t)
    ensures t in BusyTicks(spans, end) <==> 0 <= t < end && exists s :: s in spans && s.started <= t < s.finished
    ensures t in LabelTicks(spans, key, end) <==>
      0 <= t < end && (exists p :: PhaseRuns(spans, p, t)) && RunsExactly(spans, key, t)
  {
    forall p ensures p in Running(spans, t) <==> PhaseRuns(spans, p, t) {
    }
    KeyOfATick(spans, key, t);
    if s :| s in spans && s.started <= t < s.finished {
      assert s.phase in Running(spans, t);
    }
  }

  lemma KeyOfATick(spans: seq<Span>, key: Label, t: int)
    ensures LabelOf(Running(spans, t)) == key <==> RunsExactly(spans, key, t)
  {
    var running := Running(spans, t);
    forall p ensures p in running <==> PhaseRuns(spans, p, t) {
    }
    if RunsExactly(spans, key, t) {
      assert key.primary == running - DETAILED && key.detailed == running * DETAILED;
    }
  }

  /** The whole summary: refused only for a malformed span, and otherwise the measure of the spans. */
  method SummarizeEvaluationProfile(spans: seq<Span>) returns (summary: Option<Summary>)
    ensures summary.Some? <==> forall s | s in spans ::
      && 0 <= s.started <= s.finished
      && s.phase in ["close-verification", "ballot-classification", "encrypted-evaluation", "target-persistence",
                     "target-restoration", "retrieval", "working-storage", "evaluation-module", "target-signing"]
    ensures summary.Some? ==>
      && summary.value.calls == |spans|
      && summary.value.measuredUnion == SumMap(summary.value.partition) && AllKnown(summary.value.partition)
      && forall end :: EndsBy(spans, end) ==> Measures(spans, summary.value.inclusive, summary.value.partition, end)
  {
    var collected := CollectEndpoints(spans);
    if collected.None? {
      return None;
    }
    var endpoints := Sort(collected.value, TimeOf);
    var active: map<Phase, int>, inclusive: map<Phase, int>, partition: map<Label, int> := map[], map[], map[];
    var previous := if endpoints == [] then 0 else endpoints[0].time;
    SweepStarts(spans, previous);
    for i := 0 to |endpoints|
      invariant Swept(spans, i, previous, active, inclusive, partition)
    {
      active, inclusive, partition := Pass(spans, i, endpoints[i], previous, active, inclusive, partition);
      previous := endpoints[i].time;
    }
    SweptAll(spans, previous, active, inclusive, partition);
    if exists phase | phase in active :: active[phase] != 0 {
      return None;
    }
    var measuredUnion := SumValues(partition);
    return Some(Summary(|spans|, inclusive, partition, measuredUnion));
  }

  /** The measures depend on which spans there are, not on their order or repetition. */
  lemma OrderDoesNotMatter(spans: seq<Span>, reordered: seq<Span>,
                           inclusive: map<Phase, int>, partition: map<Label, int>, end: int)
    requires forall s :: s in spans <==> s in reordered
    ensures Measures(spans, inclusive, partition, end) <==> Measures(reordered, inclusive, partition, end)
  {
    forall t ensures Running(spans, t) == Running(reordered, t) {
      assert forall s :: s in spans && Covers(s, t) <==> s in reordered && Covers(s, t);
    }
    assert BusyTicks(spans, end) == BusyTicks(reordered, end);
    assert forall phase :: PhaseTicks(spans, phase, end) == PhaseTicks(reordered, phase, end);
    assert forall key :: LabelTicks(spans, key, end) == LabelTicks(reordered, key, end);
  }
}
