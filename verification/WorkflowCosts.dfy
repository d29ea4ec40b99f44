/** What an accepted trace is charged, and how that fits into its time. */
module WorkflowCosts {
  import opened Basics
  import opened Intervals
  import opened Ordering
  import opened WorkflowModel
  import opened WorkflowCausality

  function Duration(op: Operation): int {
    op.finished - op.started
  }

  function StartupTime(bootstrap: Bootstrap): int {
    bootstrap.finished - bootstrap.started
  }

  function Cost(traced: Traced): int {
    Duration(traced.operation) + traced.bootstrap
  }

  // ----- The order of replay -----

  /** The order in which the operations are replayed: by their starts, and those that start together as given. */
  ghost predicate InStartOrder(operations: seq<Operation>, ordered: seq<Operation>) {
    SortedBy(ordered, StartOf) && SameByKey(ordered, operations, StartOf)
  }

  /** The replayed list is the only one in that order. */
  lemma ReplayOrderIsDetermined(operations: seq<Operation>, ordered: seq<Operation>)
    ensures InStartOrder(operations, ordered) <==> ordered == Ordered(operations)
  {
    SortSorts(operations, StartOf);
    forall start ensures WithKey(Ordered(operations), StartOf, start) == WithKey(operations, StartOf, start) {
      SortIsStable(operations, StartOf, start);
    }
    if InStartOrder(operations, ordered) {
      forall start ensures WithKey(ordered, StartOf, start) == WithKey(Ordered(operations), StartOf, start) {
        assert WithKey(ordered, StartOf, start) == WithKey(operations, StartOf, start);
      }
      StableSortIsUnique(ordered, Ordered(operations), StartOf);
    }
  }

  // ----- Finished stages -----

  ghost predicate StagePrefix(stages: set<int>) {
    exists k :: 0 <= k <= STAGES && stages == Interval(0, k)
  }

  /** An operation finishes at most one stage, not beyond the first it belongs to. */
  lemma FinishesOneStage(op: Operation) returns (s: int)
    requires |op.stages| == 1 || Crossing(op)
    requires 0 <= op.stages[0] < STAGES && Allowed(op.stages[0], op.kind)
    ensures Finishes(op) == {} || Finishes(op) == {s}
    ensures 0 <= s <= op.stages[0]
  {
    s := if op.kind == Close then 4 else op.stages[0];
  }

  lemma IntervalWith(k: int, s: int)
    requires 0 <= s <= k
    ensures Interval(0, k) + {s} == Interval(0, if s < k then k else k + 1)
  {
  }

  lemma ExtendPrefix(stages: set<int>, s: int)
    requires StagePrefix(stages) && 0 <= s < STAGES
    requires forall prior | 0 <= prior < s :: prior in stages
    ensures StagePrefix(stages + {s})
  {
    var k :| 0 <= k <= STAGES && stages == Interval(0, k);
    assert k < s ==> k in stages;
    assert k !in Interval(0, k);
    IntervalWith(k, s);
  }

  lemma FinishKeepsPrefix(m: Monitor, op: Operation)
    requires 0 <= op.position < |m.finishedStages| && StagePrefix(m.finishedStages[op.position])
    requires (|op.stages| == 1 || Crossing(op)) && (forall stage | stage in op.stages :: StageOk(m, op, stage))
    ensures StagePrefix(m.finishedStages[op.position] + Finishes(op))
  {
    var stages := m.finishedStages[op.position];
    assert StageOk(m, op, op.stages[0]);
    var s := FinishesOneStage(op);
    if Finishes(op) == {} {
      assert stages + Finishes(op) == stages;
    } else {
      ExtendPrefix(stages, s);
    }
  }

  /** At every point of an accepted trace each participant's finished stages are the first few. */
  lemma {:induction false} FinishedStagesAreAPrefix(c: Settings, ops: seq<Operation>, p: int)
    requires Accepted(c, ops) && 0 <= p < c.participants
    ensures StagePrefix(StateAfter(c, ops).finishedStages[p])
  {
    if ops == [] {
      assert StateAfter(c, ops).finishedStages[p] == Interval(0, 0);
    } else {
      var last := |ops| - 1;
      FinishedStagesAreAPrefix(c, ops[..last], p);
      var m, op := StateAfter(c, ops[..last]), ops[last];
      if op.position == p && Effective(op) {
        FinishKeepsPrefix(m, op);
      }
    }
  }

  // ----- Charges -----

  function DurationFor(p: int): Traced -> int {
    (t: Traced) => if t.operation.position == p then Duration(t.operation) else 0
  }

  function BootstrapFor(p: int): Traced -> int {
    (t: Traced) => if t.operation.position == p then t.bootstrap else 0
  }

  function StageCostFor(p: int, stage: int): Traced -> int {
    (t: Traced) => if t.operation.position == p && stage in t.operation.stages then Cost(t) else 0
  }

  function CrossingCostFor(p: int): Traced -> int {
    (t: Traced) => if t.operation.position == p && Crossing(t.operation) then Cost(t) else 0
  }

  /** Each participant's record is the sum over its own traced operations. */
  ghost predicate Itemized(traced: seq<Traced>, participant: Participant, p: int) {
    && |participant.visits| == STAGES
    && participant.active == Total(traced, DurationFor(p))
    && participant.bootstrap == Total(traced, BootstrapFor(p))
    && forall stage | 0 <= stage < STAGES ::
         participant.visits[stage].upperBound == Total(traced, StageCostFor(p, stage))
  }

  lemma ChargeItemizes(traced: seq<Traced>, participant: Participant, p: int, t: Traced)
    requires Itemized(traced, participant, p)
    ensures Itemized(traced + [t],
                     if t.operation.position == p then Charge(participant, t.operation, t.bootstrap) else participant,
                     p)
  {
    TotalLast(traced, t, DurationFor(p));
    TotalLast(traced, t, BootstrapFor(p));
    forall stage | 0 <= stage < STAGES {
      TotalLast(traced, t, StageCostFor(p, stage));
    }
  }

  lemma AdvanceRecords(c: Settings, ops: seq<Operation>)
    requires Accepted(c, ops) && ops != []
    ensures var before, m, op := StateAfter(c, ops[..|ops| - 1]), StateAfter(c, ops), ops[|ops| - 1];
            && Accepts(c, before, op) && m == Advance(c, before, op)
            && |m.traced| > 0 && m.traced == before.traced + [m.traced[|m.traced| - 1]]
            && m.traced[|m.traced| - 1].operation == op
            && m.traced[|m.traced| - 1].bootstrap == BootstrapCost(c, before, op)
            && forall p | 0 <= p < c.participants ::
                 m.byParticipant[p] ==
                   if p == op.position then Charge(before.byParticipant[p], op, BootstrapCost(c, before, op))
                   else before.byParticipant[p]
  {
  }

  lemma {:induction false} RecordsAreItemized(c: Settings, ops: seq<Operation>, p: int)
    requires Accepted(c, ops) && 0 <= p < c.participants
    ensures Itemized(StateAfter(c, ops).traced, StateAfter(c, ops).byParticipant[p], p)
  {
    if ops != [] {
      RecordsAreItemized(c, ops[..|ops| - 1], p);
      AdvanceRecords(c, ops);
      var before, m := StateAfter(c, ops[..|ops| - 1]), StateAfter(c, ops);
      ChargeItemizes(before.traced, before.byParticipant[p], p, m.traced[|m.traced| - 1]);
    }
  }

  function VisitTotal(visits: seq<Visit>): int {
    Total(visits, (visit: Visit) => visit.upperBound)
  }

  /** Adding up a participant's visits counts a crossing close twice and everything else once. */
  lemma VisitsCountCrossingsTwice(c: Settings, ops: seq<Operation>, p: int)
    requires Accepted(c, ops) && 0 <= p < c.participants
    ensures var m := StateAfter(c, ops);
            VisitTotal(m.byParticipant[p].visits)
              == m.byParticipant[p].active + m.byParticipant[p].bootstrap + Total(m.traced, CrossingCostFor(p))
  {
    var m := StateAfter(c, ops);
    RecordsAreItemized(c, ops, p);
    OperationsAreStaged(c, ops);
    VisitsByStage(m.traced, m.byParticipant[p].visits, p, STAGES);
    SpreadOverStages(m.traced, p);
    assert m.byParticipant[p].visits[..STAGES] == m.byParticipant[p].visits;
  }

  predicate Staged(t: Traced) {
    (|t.operation.stages| == 1 && 0 <= t.operation.stages[0] < STAGES) || Crossing(t.operation)
  }

  lemma {:induction false} OperationsAreStaged(c: Settings, ops: seq<Operation>)
    requires Accepted(c, ops)
    ensures forall t | t in StateAfter(c, ops).traced :: Staged(t)
  {
    if ops != [] {
      OperationsAreStaged(c, ops[..|ops| - 1]);
      AdvanceRecords(c, ops);
      var before, op := StateAfter(c, ops[..|ops| - 1]), ops[|ops| - 1];
      if !Crossing(op) {
        assert StageOk(before, op, op.stages[0]);
      }
    }
  }

  /** What a traced operation adds to the first `n` stages together. */
  function StageTotal(t: Traced, p: int, n: nat): int {
    if n == 0 then 0 else StageTotal(t, p, n - 1) + StageCostFor(p, n - 1)(t)
  }

  function StagesCost(p: int, n: nat): Traced -> int {
    (t: Traced) => StageTotal(t, p, n)
  }

  lemma {:induction false} TotalAdds<T>(xs: seq<T>, f: T -> int, g: T -> int, h: T -> int)
    requires forall x | x in xs :: h(x) == f(x) + g(x)
    ensures Total(xs, h) == Total(xs, f) + Total(xs, g)
  {
    if xs != [] {
      TotalAdds(xs[..|xs| - 1], f, g, h);
    }
  }

  lemma {:induction false} TotalZero<T>(xs: seq<T>, f: T -> int)
    requires forall x | x in xs :: f(x) == 0
    ensures Total(xs, f) == 0
  {
    if xs != [] {
      TotalZero(xs[..|xs| - 1], f);
    }
  }

  lemma {:induction false} VisitsByStage(traced: seq<Traced>, visits: seq<Visit>, p: int, n: nat)
    requires n <= |visits| && |visits| == STAGES
    requires forall stage | 0 <= stage < STAGES :: visits[stage].upperBound == Total(traced, StageCostFor(p, stage))
    ensures VisitTotal(visits[..n]) == Total(traced, StagesCost(p, n))
  {
    if n == 0 {
      TotalZero(traced, StagesCost(p, 0));
    } else {
      VisitsByStage(traced, visits, p, n - 1);
      assert visits[..n] == visits[..n - 1] + [visits[n - 1]];
      TotalLast(visits[..n - 1], visits[n - 1], (visit: Visit) => visit.upperBound);
      TotalAdds(traced, StagesCost(p, n - 1), StageCostFor(p, n - 1), StagesCost(p, n));
    }
  }

  lemma {:induction false} StageTotalOf(t: Traced, p: int, n: nat)
    requires Staged(t) && n <= STAGES
    ensures t.operation.position != p ==> StageTotal(t, p, n) == 0
    ensures t.operation.position == p && !Crossing(t.operation) ==>
      StageTotal(t, p, n) == if t.operation.stages[0] < n then Cost(t) else 0
    ensures t.operation.position == p && Crossing(t.operation) ==>
      StageTotal(t, p, n) == if n <= 4 then 0 else if n == 5 then Cost(t) else Cost(t) + Cost(t)
  {
    if n > 0 {
      StageTotalOf(t, p, n - 1);
    }
  }

  lemma SpreadOverStages(traced: seq<Traced>, p: int)
    requires forall t | t in traced :: Staged(t)
    ensures Total(traced, StagesCost(p, STAGES))
         == Total(traced, DurationFor(p)) + Total(traced, BootstrapFor(p)) + Total(traced, CrossingCostFor(p))
  {
    var own := (t: Traced) => DurationFor(p)(t) + BootstrapFor(p)(t);
    TotalAdds(traced, DurationFor(p), BootstrapFor(p), own);
    forall t | t in traced ensures StagesCost(p, STAGES)(t) == own(t) + CrossingCostFor(p)(t) {
      StageTotalOf(t, p, STAGES);
    }
    TotalAdds(traced, own, CrossingCostFor(p), StagesCost(p, STAGES));
  }

  // ----- The cohort's totals -----

  function ActiveOf(participant: Participant): int {
    participant.active
  }

  function BootstrapOf(participant: Participant): int {
    participant.bootstrap
  }

  /** The cohort's active and bootstrap times are the sums of its participants'. */
  lemma {:induction false} CohortIsTheSumOfItsParticipants(c: Settings, ops: seq<Operation>)
    requires Accepted(c, ops)
    ensures var m := StateAfter(c, ops);
            && m.active == Total(m.byParticipant, ActiveOf)
            && m.bootstrap == Total(m.byParticipant, BootstrapOf)
  {
    if ops == [] {
      var m := StateAfter(c, ops);
      TotalZero(m.byParticipant, ActiveOf);
      TotalZero(m.byParticipant, BootstrapOf);
    } else {
      CohortIsTheSumOfItsParticipants(c, ops[..|ops| - 1]);
      AdvanceRecords(c, ops);
      var before, m, op := StateAfter(c, ops[..|ops| - 1]), StateAfter(c, ops), ops[|ops| - 1];
      var charged := m.byParticipant[op.position];
      assert m.byParticipant == before.byParticipant[op.position := charged];
      TotalUpdate(before.byParticipant, op.position, charged, ActiveOf);
      TotalUpdate(before.byParticipant, op.position, charged, BootstrapOf);
    }
  }

  /** The cohort's active time is the time of all operations. */
  lemma {:induction false} ActiveIsAllOperations(c: Settings, ops: seq<Operation>)
    requires Accepted(c, ops)
    ensures StateAfter(c, ops).active == Total(ops, Duration)
  {
    if ops != [] {
      ActiveIsAllOperations(c, ops[..|ops| - 1]);
    }
  }

  // ----- Bootstraps -----

  function ChargedIn(sessions: set<int>): Bootstrap -> int {
    (b: Bootstrap) => if b.session in sessions then StartupTime(b) else 0
  }

  lemma {:induction false} StartupHistory(n: nat, bootstraps: seq<Bootstrap>)
    requires Startup(n, bootstraps).Some?
    ensures var startup := Startup(n, bootstraps).value;
            && (forall b | b in bootstraps :: b.session in startup && startup[b.session] == b)
            && (forall s | s in startup ::
                  startup[s] in bootstraps && startup[s].session == s && BootstrapOk(n, startup[s]))
  {
    if bootstraps != [] {
      StartupHistory(n, bootstraps[..|bootstraps| - 1]);
    }
  }

  /** One more session charged adds exactly its own bootstrap. */
  lemma {:induction false} ChargeOneMore(n: nat, bootstraps: seq<Bootstrap>, sessions: set<int>, s: int)
    requires Startup(n, bootstraps).Some? && s !in sessions
    ensures Total(bootstraps, ChargedIn(sessions + {s}))
         == Total(bootstraps, ChargedIn(sessions))
          + if s in Startup(n, bootstraps).value then StartupTime(Startup(n, bootstraps).value[s]) else 0
  {
    if bootstraps != [] {
      ChargeOneMore(n, bootstraps[..|bootstraps| - 1], sessions, s);
      StartupHistory(n, bootstraps);
    }
  }

  lemma {:induction false} BootstrapsCharged(c: Settings, ops: seq<Operation>, bootstraps: seq<Bootstrap>)
    requires Accepted(c, ops) && Startup(c.participants, bootstraps) == Some(c.startup)
    ensures var m := StateAfter(c, ops);
            && m.sessions.Keys <= c.startup.Keys
            && m.bootstrap == Total(bootstraps, ChargedIn(m.sessions.Keys))
  {
    if ops == [] {
      assert StateAfter(c, ops).sessions.Keys == {};
      TotalZero(bootstraps, ChargedIn({}));
    } else {
      BootstrapsCharged(c, ops[..|ops| - 1], bootstraps);
      AdvanceRecords(c, ops);
      var before, m, op := StateAfter(c, ops[..|ops| - 1]), StateAfter(c, ops), ops[|ops| - 1];
      assert m.sessions.Keys == before.sessions.Keys + {op.session};
      if op.session !in before.sessions {
        ChargeOneMore(c.participants, bootstraps, before.sessions.Keys, op.session);
      } else {
        assert m.sessions.Keys == before.sessions.Keys;
      }
    }
  }

  // ----- Fitting into time -----

  /** From when an operation occupies its participant: with its bootstrap, if it is its session's first. */
  function StartAt(c: Settings, ops: seq<Operation>, i: nat): int
    requires Accepted(c, ops) && i < |ops|
  {
    PrefixAccepted(c, ops, i);
    EffectiveStart(c, StateAfter(c, ops[..i]), ops[i])
  }

  predicate AtMost(a: Option<int>, b: Option<int>) {
    a.Some? ==> b.Some? && a.value <= b.value
  }

  /** Everything charged so far lies between `base` and the last finish. */
  predicate Fits(c: Settings, m: Monitor, base: int)
    requires Shaped(c, m)
  {
    && (c.sequential ==>
          if m.lastFinished.Some? then m.active + m.bootstrap <= m.lastFinished.value - base
          else m.active + m.bootstrap == 0)
    && forall p | 0 <= p < c.participants ::
         && AtMost(m.latest[p], m.lastFinished)
         && var record := m.byParticipant[p];
            if m.latest[p].Some? then record.active + record.bootstrap <= m.latest[p].value - base
            else record.active + record.bootstrap == 0
  }

  lemma {:induction false} ChargesFit(c: Settings, ops: seq<Operation>, base: int)
    requires Accepted(c, ops)
    requires forall op | op in ops :: base <= op.started
    requires forall s | s in c.startup :: base <= c.startup[s].started
    ensures Fits(c, StateAfter(c, ops), base)
  {
    if ops != [] {
      ChargesFit(c, ops[..|ops| - 1], base);
      AdvanceRecords(c, ops);
    }
  }

  /** What the checks on the bootstraps leave: each one's interval is not reversed. */
  predicate StartupOk(c: Settings) {
    forall s | s in c.startup :: c.startup[s].started <= c.startup[s].finished
  }

  lemma AdvanceCovers(c: Settings, m: Monitor, op: Operation)
    requires StartupOk(c) && Shaped(c, m) && Accepts(c, m, op)
    ensures EffectiveStart(c, m, op) <= op.finished
    ensures var m' := Advance(c, m, op);
            && AtMost(m.lastFinished, m'.lastFinished) && AtMost(Some(op.finished), m'.lastFinished)
            && AtMost(Some(op.finished), m'.latest[op.position])
            && forall p | 0 <= p < c.participants :: AtMost(m.latest[p], m'.latest[p])
  {
  }

  /** The monitor remembers a finish no earlier than that of the operation at `i`. */
  predicate Covers(c: Settings, m: Monitor, op: Operation)
    requires Shaped(c, m)
  {
    && 0 <= op.position < c.participants
    && AtMost(Some(op.finished), m.lastFinished)
    && AtMost(Some(op.finished), m.latest[op.position])
  }

  lemma CoversStays(c: Settings, m: Monitor, op: Operation, next: Operation)
    requires StartupOk(c) && Shaped(c, m) && Covers(c, m, op) && Accepts(c, m, next)
    ensures Covers(c, Advance(c, m, next), op)
  {
    AdvanceCovers(c, m, next);
  }

  lemma {:induction false} LatestCovers(c: Settings, ops: seq<Operation>, i: nat)
    requires StartupOk(c) && Accepted(c, ops) && i < |ops|
    ensures Covers(c, StateAfter(c, ops), ops[i])
  {
    var last := |ops| - 1;
    LastAccepted(c, ops);
    if i < last {
      LatestCovers(c, ops[..last], i);
      CoversStays(c, StateAfter(c, ops[..last]), ops[i], ops[last]);
    } else {
      AdvanceCovers(c, StateAfter(c, ops[..last]), ops[last]);
    }
  }

  /** No participant ever has two operations at once, and in a sequential run nobody else has either. */
  lemma EffectiveIntervalsAreDisjoint(c: Settings, ops: seq<Operation>, i: nat, j: nat)
    requires StartupOk(c) && Accepted(c, ops) && i < j < |ops|
    requires c.sequential || ops[i].position == ops[j].position
    ensures StartAt(c, ops, i) <= ops[i].finished <= StartAt(c, ops, j)
  {
    PrefixAccepted(c, ops, i);
    AdvanceCovers(c, StateAfter(c, ops[..i]), ops[i]);
    PrefixAccepted(c, ops, j);
    assert ops[..j][i] == ops[i];
    LatestCovers(c, ops[..j], i);
  }

  // ----- The summary -----

  lemma {:induction false} EarliestIsEarliest(start: int, bootstraps: seq<Bootstrap>)
    ensures Earliest(start, bootstraps) <= start
    ensures forall b | b in bootstraps :: Earliest(start, bootstraps) <= b.started
  {
    if bootstraps != [] {
      EarliestIsEarliest(start, bootstraps[..|bootstraps| - 1]);
    }
  }

  /** The settings under which a summary replayed its trace. */
  function SettingsOf(n: nat, quorum: int, releaseThreshold: int, sequential: bool, bootstraps: seq<Bootstrap>)
      : Settings
    requires Startup(n, bootstraps).Some?
  {
    Settings(n, quorum, releaseThreshold, sequential, Startup(n, bootstraps).value)
  }

  /** In an accepted sequential run, all active and bootstrap time fits into the completion time. */
  lemma SequentialCostFitsCompletion(
    operations: seq<Operation>, n: nat, quorum: int, threshold: int, bootstraps: seq<Bootstrap>, r: Summary
  )
    requires Summarize(operations, n, quorum, threshold, true, bootstraps) == Some(r)
    ensures r.sequentialCompletion.Some?
    ensures r.monitor.active + r.monitor.bootstrap <= r.sequentialCompletion.value
  {
    SummaryFits(operations, n, quorum, threshold, true, bootstraps, r);
  }

  lemma SummaryFits(
    operations: seq<Operation>, n: nat, quorum: int, threshold: int, sequential: bool, bootstraps: seq<Bootstrap>,
    r: Summary
  )
    requires Summarize(operations, n, quorum, threshold, sequential, bootstraps) == Some(r)
    ensures var c := SettingsOf(n, quorum, threshold, sequential, bootstraps);
            && Shaped(c, r.monitor) && r.monitor.lastFinished.Some?
            && Fits(c, r.monitor, r.monitor.lastFinished.value - r.cohortWall)
  {
    var c := SettingsOf(n, quorum, threshold, sequential, bootstraps);
    var ordered := Ordered(operations);
    var base := Earliest(ordered[0].started, bootstraps);
    SortSorts(operations, StartOf);
    EarliestIsEarliest(ordered[0].started, bootstraps);
    StartupHistory(n, bootstraps);
    forall op | op in ordered ensures base <= op.started {
      var i :| 0 <= i < |ordered| && ordered[i] == op;
      assert StartOf(ordered[0]) <= StartOf(ordered[i]);
    }
    ChargesFit(c, ordered, base);
  }

  /** In any accepted run each participant's own total fits into the cohort's wall time. */
  lemma ParticipantCostFitsCohortWall(
    operations: seq<Operation>, n: nat, quorum: int, threshold: int, sequential: bool, bootstraps: seq<Bootstrap>,
    r: Summary, p: int
  )
    requires Summarize(operations, n, quorum, threshold, sequential, bootstraps) == Some(r) && 0 <= p < n
    ensures p < |r.monitor.byParticipant|
    ensures r.monitor.byParticipant[p].active + r.monitor.byParticipant[p].bootstrap <= r.cohortWall
  {
    SummaryFits(operations, n, quorum, threshold, sequential, bootstraps, r);
    var c := SettingsOf(n, quorum, threshold, sequential, bootstraps);
    AllStagesFinished(c, Ordered(operations), p);
    StageFinishesLatest(c, Ordered(operations), p);
  }

  /** On acceptance a participant has finished exactly the eight measured stages. */
  lemma AllStagesFinished(c: Settings, ops: seq<Operation>, p: int)
    requires Accepted(c, ops) && Finished(c, StateAfter(c, ops)) && 0 <= p < c.participants
    ensures StateAfter(c, ops).finishedStages[p] == Interval(0, STAGES)
  {
    FinishedStagesAreAPrefix(c, ops, p);
    var stages := StateAfter(c, ops).finishedStages[p];
    assert stages in StateAfter(c, ops).finishedStages;
  }

  lemma {:induction false} StageFinishesLatest(c: Settings, ops: seq<Operation>, p: int)
    requires Accepted(c, ops) && 0 <= p < c.participants
    ensures StateAfter(c, ops).finishedStages[p] != {} ==> StateAfter(c, ops).latest[p].Some?
  {
    if ops != [] {
      StageFinishesLatest(c, ops[..|ops| - 1], p);
      AdvanceRecords(c, ops);
    }
  }

  /**
   Nothing is lost or charged twice: the summary's active time is the time of all operations given,
   its bootstrap time that of all bootstraps given, and both are the sums over the participants.
   */
  lemma EverythingIsChargedOnce(
    operations: seq<Operation>, n: nat, quorum: int, threshold: int, sequential: bool, bootstraps: seq<Bootstrap>,
    r: Summary
  )
    requires Summarize(operations, n, quorum, threshold, sequential, bootstraps) == Some(r)
    ensures r.monitor.active == Total(operations, Duration) == Total(r.monitor.byParticipant, ActiveOf)
    ensures r.monitor.bootstrap == Total(bootstraps, StartupTime) == Total(r.monitor.byParticipant, BootstrapOf)
  {
    var c := SettingsOf(n, quorum, threshold, sequential, bootstraps);
    var ordered := Ordered(operations);
    ActiveIsAllOperations(c, ordered);
    SortTotal(operations, StartOf, Duration);
    CohortIsTheSumOfItsParticipants(c, ordered);
    BootstrapsCharged(c, ordered, bootstraps);
    var sessions := r.monitor.sessions.Keys;
    SubsetSize(sessions, c.startup.Keys);
    StartupHistory(n, bootstraps);
    TotalSame(bootstraps, ChargedIn(sessions), StartupTime);
  }

  lemma {:induction false} TotalSame<T>(xs: seq<T>, f: T -> int, g: T -> int)
    requires forall x | x in xs :: f(x) == g(x)
    ensures Total(xs, f) == Total(xs, g)
  {
    if xs != [] {
      TotalSame(xs[..|xs| - 1], f, g);
    }
  }

  lemma {:induction false} StageHasAnOperation(c: Settings, ops: seq<Operation>, p: int, stage: int) returns (i: nat)
    requires Accepted(c, ops) && 0 <= p < c.participants && stage in StateAfter(c, ops).finishedStages[p]
    ensures i < |ops| && Effective(ops[i]) && ops[i].position == p && stage in Finishes(ops[i])
  {
    AdvanceRecords(c, ops);
    var last := |ops| - 1;
    var before, op := StateAfter(c, ops[..last]), ops[last];
    if stage in before.finishedStages[p] {
      i := StageHasAnOperation(c, ops[..last], p, stage);
    } else {
      i := last;
    }
  }

  lemma ComputesInItsLastStage(op: Operation)
    requires 7 in Finishes(op)
    ensures op.kind == ComputeResult
  {
  }

  /** A trace that finishes has a completed result of every participant, resting on the whole protocol. */
  lemma FinishedTraceIsCertified(c: Settings, ops: seq<Operation>, p: int) returns (i: nat)
    requires Accepted(c, ops) && Finished(c, StateAfter(c, ops))
    requires c.quorum >= 1 && c.participants >= 3 && 0 <= p < c.participants
    ensures i < |ops| && Effective(ops[i]) && ops[i].kind == ComputeResult && ops[i].position == p
    ensures RestsOnTheWholeProtocol(c, ops, i)
  {
    AllStagesFinished(c, ops, p);
    i := StageHasAnOperation(c, ops, p, 7);
    ComputesInItsLastStage(ops[i]);
    ResultRestsOnTheWholeProtocol(c, ops, i);
  }

  /** In every accepted summary every participant computed a result that rests on the whole protocol. */
  lemma EveryParticipantsResultIsCertified(
    operations: seq<Operation>, n: nat, quorum: int, threshold: int, sequential: bool, bootstraps: seq<Bootstrap>,
    p: int
  ) returns (i: nat)
    requires Summarize(operations, n, quorum, threshold, sequential, bootstraps).Some?
    requires quorum >= 1 && 0 <= p < n
    ensures var c, ops := SettingsOf(n, quorum, threshold, sequential, bootstraps), Ordered(operations);
            && i < |ops| && Effective(ops[i]) && ops[i].kind == ComputeResult && ops[i].position == p
            && RestsOnTheWholeProtocol(c, ops, i)
  {
    i := FinishedTraceIsCertified(SettingsOf(n, quorum, threshold, sequential, bootstraps), Ordered(operations), p);
  }
}
