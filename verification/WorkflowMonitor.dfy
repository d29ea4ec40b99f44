/**
 The workflow trace checker's own loop: the maps, sets and totals it updates operation by
 operation, proved to accept and record exactly what WorkflowModel specifies.
 */
module WorkflowMonitors {
  import opened Basics
  import opened Ordering
  import opened WorkflowModel
  import WorkflowReports

  class WorkflowMonitor {
    const c: Settings
    var identifiers: set<int>
    var sessions: map<int, int>
    var published: map<Event, Operation>
    var latest: seq<Option<int>>
    var lastFinished: Option<int>
    var finishedStages: seq<set<int>>
    var byParticipant: seq<Participant>
    var active: int
    var bootstrap: int
    var traced: seq<Traced>

    function State(): Monitor
      reads this
    {
      Monitor(identifiers, sessions, published, latest, lastFinished, finishedStages, byParticipant,
              active, bootstrap, traced)
    }

    predicate Valid()
      reads this
    {
      && Shaped(c, State())
      && forall event | event in published && event.By? :: 0 <= event.position < c.participants
    }

    constructor (c: Settings)
      ensures Valid() && this.c == c && State() == Start(c)
    {
      this.c := c;
      identifiers, sessions, published, lastFinished, traced := {}, map[], map[], None, [];
      active, bootstrap := 0, 0;
      latest := seq(c.participants, _ => None);
      finishedStages := seq(c.participants, _ => {});
      byParticipant :=
        seq(c.participants, _ => Participant(0, 0, 0, None, seq(STAGES, _ => Visit([], {}, 0))));
    }

    method RequireEvent(event: Event, at: int, dependencies: set<int>) returns (ok: bool, r: set<int>)
      requires Valid()
      ensures ok == Met(c, State(), One(event), at)
      ensures ok ==> r == dependencies + Producers(c, State(), One(event), at)
    {
      if event !in published || published[event].finished > at {
        return false, dependencies;
      }
      return true, dependencies + {published[event].id};
    }

    /** Filters the published records of one kind and counts the producers that had finished. */
    method RequireCount(message: Message, count: int, omit: int, at: int, dependencies: set<int>)
      returns (ok: bool, r: set<int>)
      requires Valid()
      ensures ok == Met(c, State(), Many(message, count, omit), at)
      ensures ok ==> r == dependencies + Producers(c, State(), Many(message, count, omit), at)
    {
      ghost var all := Ready(c, State(), message, omit, at);
      var ready := {};
      r := dependencies;
      var rest := published.Keys;
      while rest != {}
        invariant rest <= published.Keys
        invariant forall p :: p in ready <==> p in all && By(message, p) !in rest
        invariant r == dependencies + set p | p in ready :: published[By(message, p)].id
      {
        var event :| event in rest;
        rest := rest - {event};
        if event.By? && event.message == message
           && published[event].position != omit && published[event].finished <= at {
          ready, r := ready + {event.position}, r + {published[event].id};
        }
      }
      assert ready == all;
      ok := |ready| >= count;
    }

    /** Requires a list of needs in turn, collecting the producers they are charged to. */
    method RequireAll(needs: seq<Need>, at: int) returns (ok: bool, dependencies: set<int>)
      requires Valid()
      ensures ok == forall need | need in needs :: Met(c, State(), need, at)
      ensures ok ==> dependencies == (set need, id | need in needs && id in Producers(c, State(), need, at) :: id)
    {
      ok, dependencies := true, {};
      for i := 0 to |needs|
        invariant ok && forall k | 0 <= k < i :: Met(c, State(), needs[k], at)
        invariant dependencies == set need, id | need in needs[..i] && id in Producers(c, State(), need, at) :: id
      {
        match needs[i] {
          case One(event) => ok, dependencies := RequireEvent(event, at, dependencies);
          case Many(message, count, omit) => ok, dependencies := RequireCount(message, count, omit, at, dependencies);
        }
        if !ok {
          assert needs[i] in needs && !Met(c, State(), needs[i], at);
          return;
        }
        assert needs[..i + 1] == needs[..i] + [needs[i]];
      }
      assert needs[..|needs|] == needs;
    }

    /** The switch over completed operations: what each checks and requires, in order. */
    method Requirements(op: Operation) returns (legal: bool, needs: seq<Need>)
      requires op.stages != []
      ensures legal == Legal(op)
      ensures legal ==> forall need :: need in needs <==> need in Needs(c, op)
    {
      var position, stage := op.position, op.stages[|op.stages| - 1];
      legal, needs := true, [];
      match op.kind
      case Create =>
        legal := stage == 0;
        if position != 0 { needs := [One(By(Registration, 0))]; }
      case Publish =>
        if stage == 0 {
          needs := [One(By(Created, position))];
        } else {
          legal, needs := position == 0, [One(ProposedRoster)];
        }
      case ProposeRoster =>
        legal, needs := position == 0, [Many(Registration, c.participants, NOBODY)];
      case AcceptRoster =>
        legal, needs := position != 0, [One(Roster)];
      case Confirm =>
        needs := [One(if position == 0 then Roster else By(AcceptedRoster, position))];
      case Contribute =>
        needs := [One(By(Confirmed, position))];
      case SelectSetup =>
        legal, needs := position == 0, [One(By(Confirmed, position)), Many(Offer, c.releaseThreshold, NOBODY)];
      case EndorseSetup =>
        needs := [One(By(Confirmed, position)), One(Selection)];
      case VerifySetup =>
        legal, needs := op.generation == Some(12), [Many(Endorsement, c.quorum, NOBODY)];
      case CastBallot =>
        legal, needs := op.generation == Some(17), [One(By(Setup, position))];
      case Close =>
        needs := [Many(Ballot, c.participants, NOBODY)];
        if Crossing(op) {
          legal := op.generation == Some(22);
          needs := needs + [One(CloseIntent), Many(Response, c.quorum - 1, 0)];
        } else if position == 0 && op.generation == Some(19) {
        } else if position != 0 && op.generation == Some(21) {
          needs := needs + [One(CloseIntent)];
        } else {
          legal := op.generation == Some(17);
        }
      case SignTarget =>
        legal, needs := op.generation == Some(24), [One(CloseProposal)];
      case Release =>
        legal := op.generation == Some(29);
        needs := [Many(Target, c.quorum, NOBODY), One(By(Target, position))];
      case ComputeResult =>
        needs := [Many(ReleaseShare, c.releaseThreshold, NOBODY), One(By(ReleaseShare, position))];
      case _ =>
    }

    /** The switch over completed operations: what each publishes, and the stage it finishes, if any. */
    method Publications(op: Operation) returns (marks: seq<Event>, finished: set<int>)
      requires op.stages != []
      ensures forall event :: event in marks <==> event in Marks(op)
      ensures finished == Finishes(op)
    {
      var p := op.position;
      marks, finished := [], {};
      match op.kind
      case Create => marks := [By(Created, p)];
      case Publish =>
        if op.stages[|op.stages| - 1] == 0 {
          marks, finished := [By(Registration, p)], {0};
        } else {
          marks := [Roster];
        }
      case ProposeRoster => marks := [ProposedRoster];
      case AcceptRoster => marks := [By(AcceptedRoster, p)];
      case Confirm => marks, finished := [By(Confirmed, p)], {1};
      case Contribute => marks := [By(Offer, p)];
      case SelectSetup => marks, finished := [Selection, By(Endorsement, p)], {2};
      case EndorseSetup => marks, finished := [By(Endorsement, p)], {2};
      case VerifySetup => marks := [By(Setup, p)];
      case CastBallot => marks, finished := [By(Ballot, p)], {3};
      case Close =>
        if Crossing(op) {
          marks, finished := [CloseProposal], {4};
        } else if p == 0 && op.generation == Some(19) {
          marks := [CloseIntent];
        } else if p != 0 && op.generation == Some(21) {
          marks, finished := [By(Response, p)], {4};
        }
      case SignTarget => marks, finished := [By(Target, p)], {5};
      case Release => marks, finished := [By(ReleaseShare, p)], {6};
      case ComputeResult => finished := {7};
      case _ =>
    }

    /** Publishes a completed operation under its names and finishes its stage. */
    method Record(op: Operation)
      requires Valid() && 0 <= op.position < c.participants && op.stages != []
      modifies this`published, this`finishedStages
      ensures Valid()
      ensures published == old(published) + map event | event in Marks(op) :: op
      ensures finishedStages == old(finishedStages)[op.position := old(finishedStages)[op.position] + Finishes(op)]
    {
      var marks, finished := Publications(op);
      published := Marked(published, marks, op);
      assert published == old(published) + map event | event in Marks(op) :: op;
      finishedStages := finishedStages[op.position := finishedStages[op.position] + finished];
    }

    /** The checks on each stage an operation names. */
    method StagesOk(op: Operation) returns (ok: bool)
      requires Valid() && 0 <= op.position < c.participants
      ensures ok == forall stage | stage in op.stages :: StageOk(State(), op, stage)
    {
      var finished := finishedStages[op.position];
      for i := 0 to |op.stages|
        invariant forall k | 0 <= k < i :: StageOk(State(), op, op.stages[k])
      {
        var stage := op.stages[i];
        ok := 0 <= stage < STAGES && Allowed(stage, op.kind) && stage + 1 !in finished;
        if ok {
          for prior := 0 to stage
            invariant ok == forall q | 0 <= q < prior :: q in finished || (Crossing(op) && q == 4)
          {
            ok := ok && (prior in finished || (Crossing(op) && prior == 4));
          }
        }
        assert ok == StageOk(State(), op, stage);
        if !ok {
          assert stage in op.stages;
          return;
        }
      }
      ok := true;
    }

    /** Charges one operation to its participant and to every stage it names. */
    method ChargeOperation(op: Operation, bootstrapCost: int)
      requires Valid() && 0 <= op.position < c.participants
      requires forall stage | stage in op.stages :: 0 <= stage < STAGES
      requires forall i, j | 0 <= i < j < |op.stages| :: op.stages[i] != op.stages[j]
      modifies this`byParticipant
      ensures Valid()
      ensures byParticipant ==
              old(byParticipant)[op.position := Charge(old(byParticipant)[op.position], op, bootstrapCost)]
    {
      var participant := byParticipant[op.position];
      var milliseconds := op.finished - op.started;
      var visits := participant.visits;
      for i := 0 to |op.stages|
        invariant |visits| == STAGES
        invariant forall stage | 0 <= stage < STAGES ::
          visits[stage] == if stage in op.stages[..i] then Charge(participant, op, bootstrapCost).visits[stage]
                           else participant.visits[stage]
      {
        assert op.stages[i] in op.stages;
        assert op.stages[..i + 1] == op.stages[..i] + [op.stages[i]];
        var visit := visits[op.stages[i]];
        visits := visits[op.stages[i] := Visit(visit.operationIds + [op.id], visit.sessions + {op.session},
                                               visit.upperBound + (milliseconds + bootstrapCost))];
      }
      assert op.stages[..|op.stages|] == op.stages;
      assert visits == Charge(participant, op, bootstrapCost).visits;
      var peak := participant.peakBytes;
      for i := 0 to |op.memories|
        invariant peak == Peak(participant.peakBytes, op.memories[..i])
      {
        var bytes := Combined(op.memories[i]);
        var highest := if peak.Some? then peak.value else 0;
        peak := Some(if bytes > highest then bytes else highest);
        assert op.memories[..i + 1][..i] == op.memories[..i];
      }
      assert op.memories[..|op.memories|] == op.memories;
      byParticipant := byParticipant[op.position :=
        Participant(participant.active + milliseconds, participant.bootstrap + bootstrapCost,
                    participant.attempts + 1, peak, visits)];
    }

    /** The checks on the operation's identity, its session and its times. */
    method IsTimely(op: Operation) returns (ok: bool)
      requires Valid()
      ensures ok == Timely(c, State(), op)
    {
      var position := op.position;
      if op.id < 0 || op.id in identifiers || position < 0 || position >= c.participants || op.session < 0 {
        return false;
      }
      if op.session !in c.startup || c.startup[op.session].position != position {
        return false;
      }
      var startup := c.startup[op.session];
      var firstInSession := op.session !in sessions;
      if firstInSession && startup.finished > op.started {
        return false;
      }
      var effectiveStart := if firstInSession then startup.started else op.started;
      if (!firstInSession && sessions[op.session] != position) || op.finished < op.started {
        return false;
      }
      if latest[position].Some? && effectiveStart < latest[position].value {
        return false;
      }
      return !c.sequential || lastFinished.None? || effectiveStart >= lastFinished.value;
    }

    /** The requirements of a completed operation; a status report has none. */
    method MeetsNeeds(op: Operation) returns (ok: bool, dependencies: set<int>)
      requires Valid() && op.stages != []
      ensures ok == (Effective(op) ==> Legal(op) && AllMet(c, State(), op))
      ensures ok ==> dependencies == if Effective(op) then ProducersOfAll(c, State(), op) else {}
    {
      if !Effective(op) {
        return true, {};
      }
      var legal, needs := Requirements(op);
      if !legal {
        return false, {};
      }
      ok, dependencies := RequireAll(needs, op.started);
      SameNeeds(needs, op, ok, dependencies);
    }

    /**
     One turn of the loop: it accepts exactly what the specification accepts and then leaves exactly
     the specified state. A rejection ends the whole summary, so nothing is said of its state.
     */
    method Observe(op: Operation) returns (accepted: bool)
      requires Valid()
      modifies this
      ensures accepted == Accepts(c, old(State()), op)
      ensures accepted ==> Valid() && State() == Advance(c, old(State()), op)
    {
      var timely := IsTimely(op);
      if !timely || (|op.stages| != 1 && !Crossing(op)) {
        return false;
      }
      var stagesOk := StagesOk(op);
      var needsOk, dependencies := MeetsNeeds(op);
      if !stagesOk || !needsOk || exists memory | memory in op.memories :: !SafeMemory(memory) {
        return false;
      }
      Account(op, dependencies);
      return true;
    }

    /** Everything an accepted operation changes. */
    method Account(op: Operation, dependencies: set<int>)
      requires Valid() && Accepts(c, State(), op) && dependencies == Dependencies(c, State(), op)
      modifies this
      ensures Valid() && State() == Advance(c, old(State()), op)
    {
      ghost var before := State();
      assert forall stage | stage in op.stages :: StageOk(State(), op, stage);
      var position := op.position;
      var startup := c.startup[op.session];
      var bootstrapCost := if op.session !in sessions then startup.finished - startup.started else 0;
      RecordAndCharge(op, bootstrapCost);
      AccountTimes(op, bootstrapCost, dependencies);
      AdvancesTo(before, op, dependencies);
    }

    method RecordAndCharge(op: Operation, bootstrapCost: int)
      requires Valid() && 0 <= op.position < c.participants && (|op.stages| == 1 || Crossing(op))
      requires forall stage | stage in op.stages :: 0 <= stage < STAGES
      modifies this`published, this`finishedStages, this`byParticipant
      ensures Valid()
      ensures published ==
              if Effective(op) then old(published) + map event | event in Marks(op) :: op else old(published)
      ensures finishedStages ==
              if Effective(op)
              then old(finishedStages)[op.position := old(finishedStages)[op.position] + Finishes(op)]
              else old(finishedStages)
      ensures byParticipant ==
              old(byParticipant)[op.position := Charge(old(byParticipant)[op.position], op, bootstrapCost)]
    {
      if Effective(op) {
        Record(op);
      }
      ChargeStages(op);
      ChargeOperation(op, bootstrapCost);
    }

    method AccountTimes(op: Operation, bootstrapCost: int, dependencies: set<int>)
      requires Valid() && 0 <= op.position < c.participants
      modifies this`identifiers, this`sessions, this`latest, this`lastFinished, this`active, this`bootstrap, this`traced
      ensures Valid()
      ensures identifiers == old(identifiers) + {op.id} && sessions == old(sessions)[op.session := op.position]
      ensures latest == old(latest)[op.position := Some(op.finished)]
      ensures lastFinished == Some(Later(old(lastFinished), op.finished))
      ensures active == old(active) + (op.finished - op.started) && bootstrap == old(bootstrap) + bootstrapCost
      ensures traced == old(traced) + [Traced(op, bootstrapCost, dependencies)]
    {
      identifiers := identifiers + {op.id};
      sessions := sessions[op.session := op.position];
      latest := latest[op.position := Some(op.finished)];
      lastFinished := Some(
        if lastFinished.Some? && lastFinished.value > op.finished then lastFinished.value else op.finished);
      active, bootstrap := active + (op.finished - op.started), bootstrap + bootstrapCost;
      traced := traced + [Traced(op, bootstrapCost, dependencies)];
    }

    lemma AdvancesTo(m: Monitor, op: Operation, dependencies: set<int>)
      requires Shaped(c, m) && Accepts(c, m, op) && dependencies == Dependencies(c, m, op)
      requires identifiers == m.identifiers + {op.id} && sessions == m.sessions[op.session := op.position]
      requires published == if Effective(op) then m.published + (map event | event in Marks(op) :: op) else m.published
      requires latest == m.latest[op.position := Some(op.finished)]
      requires lastFinished == Some(Later(m.lastFinished, op.finished))
      requires finishedStages ==
        if Effective(op) then m.finishedStages[op.position := m.finishedStages[op.position] + Finishes(op)]
        else m.finishedStages
      requires byParticipant ==
               m.byParticipant[op.position := Charge(m.byParticipant[op.position], op, BootstrapCost(c, m, op))]
      requires active == m.active + (op.finished - op.started) && bootstrap == m.bootstrap + BootstrapCost(c, m, op)
      requires traced == m.traced + [Traced(op, BootstrapCost(c, m, op), dependencies)]
      ensures State() == Advance(c, m, op)
    {
    }

    lemma SameNeeds(needs: seq<Need>, op: Operation, ok: bool, dependencies: set<int>)
      requires forall need :: need in needs <==> need in Needs(c, op)
      requires ok == forall need | need in needs :: Met(c, State(), need, op.started)
      requires ok ==>
                 dependencies == (set need, id | need in needs && id in Producers(c, State(), need, op.started) :: id)
      ensures ok == AllMet(c, State(), op)
      ensures ok ==> dependencies == ProducersOfAll(c, State(), op)
    {
    }

    lemma ChargeStages(op: Operation)
      requires |op.stages| == 1 || Crossing(op)
      ensures forall i, j | 0 <= i < j < |op.stages| :: op.stages[i] != op.stages[j]
    {
    }
  }

  /** Publishes an operation under each name in turn. */
  method Marked(published: map<Event, Operation>, marks: seq<Event>, op: Operation) returns (r: map<Event, Operation>)
    ensures r == published + map event | event in marks :: op
  {
    r := published;
    for i := 0 to |marks|
      invariant r == published + map event | event in marks[..i] :: op
    {
      assert marks[..i + 1] == marks[..i] + [marks[i]];
      r := r[marks[i] := op];
    }
    assert marks[..|marks|] == marks;
  }

  /** The bootstraps by session, refused at the first malformed or repeated one. */
  method CollectStartup(participants: nat, bootstraps: seq<Bootstrap>) returns (startup: Option<map<int, Bootstrap>>)
    ensures startup == Startup(participants, bootstraps)
  {
    var bySession: map<int, Bootstrap> := map[];
    for i := 0 to |bootstraps|
      invariant Startup(participants, bootstraps[..i]) == Some(bySession)
    {
      assert bootstraps[..i + 1][..i] == bootstraps[..i];
      var b := bootstraps[i];
      if b.session in bySession || !BootstrapOk(participants, b) {
        StartupFails(participants, bootstraps, i + 1);
        return None;
      }
      bySession := bySession[b.session := b];
    }
    assert bootstraps[..|bootstraps|] == bootstraps;
    return Some(bySession);
  }

  lemma {:induction false} StartupFails(participants: nat, bootstraps: seq<Bootstrap>, k: nat)
    requires k <= |bootstraps| && Startup(participants, bootstraps[..k]).None?
    ensures Startup(participants, bootstraps).None?
    decreases |bootstraps|
  {
    if k == |bootstraps| {
      assert bootstraps[..k] == bootstraps;
    } else {
      var last := |bootstraps| - 1;
      assert bootstraps[..last][..k] == bootstraps[..k];
      StartupFails(participants, bootstraps[..last], k);
    }
  }

  lemma {:induction false} ReplayFails(c: Settings, ops: seq<Operation>, k: nat)
    requires k <= |ops| && Replay(c, ops[..k]).None?
    ensures Replay(c, ops).None?
    decreases |ops|
  {
    if k == |ops| {
      assert ops[..k] == ops;
    } else {
      var last := |ops| - 1;
      assert ops[..last][..k] == ops[..k];
      ReplayFails(c, ops[..last], k);
    }
  }

  /** What a summary shows of its participants. */
  predicate Displayed(summary: Summary, displays: seq<WorkflowReports.Display>) {
    && |displays| == |summary.monitor.byParticipant|
    && forall p | 0 <= p < |displays| ::
         WorkflowReports.Shows(summary.monitor.byParticipant[p].visits, displays[p])
  }

  /** The whole summarizer. */
  method SummarizeWorkflow(
    operations: seq<Operation>, participants: nat, quorum: int, releaseThreshold: int,
    sequential: bool, bootstraps: seq<Bootstrap>
  ) returns (summary: Option<Summary>, displays: seq<WorkflowReports.Display>)
    ensures summary == Summarize(operations, participants, quorum, releaseThreshold, sequential, bootstraps)
    ensures summary.Some? ==> |displays| == participants && Displayed(summary.value, displays)
  {
    summary, displays := None, [];
    if operations == [] || participants < 3 {
      return;
    }
    var ordered := Ordered(operations);
    SortSorts(operations, StartOf);
    var startup := CollectStartup(participants, bootstraps);
    if startup.Some? {
      var c := Settings(participants, quorum, releaseThreshold, sequential, startup.value);
      summary, displays := SummarizeOrdered(c, ordered, bootstraps);
    }
  }

  /** The loop over the operations in their order, and what follows it. */
  method SummarizeOrdered(c: Settings, ordered: seq<Operation>, bootstraps: seq<Bootstrap>)
      returns (summary: Option<Summary>, displays: seq<WorkflowReports.Display>)
    requires ordered != []
    ensures summary == if Replay(c, ordered).None? then None
                       else Conclude(c, Replay(c, ordered).value, ordered[0].started, bootstraps)
    ensures summary.Some? ==> |displays| == c.participants && Displayed(summary.value, displays)
  {
    summary, displays := None, [];
    var monitor := new WorkflowMonitor(c);
    var accepted := ReplayAll(monitor, ordered);
    if accepted {
      summary := Concluded(monitor, ordered[0].started, bootstraps);
      if summary.Some? {
        displays := WorkflowReports.ReportAll(monitor.byParticipant);
      }
    }
  }

  method Concluded(monitor: WorkflowMonitor, first: int, bootstraps: seq<Bootstrap>) returns (summary: Option<Summary>)
    ensures summary == Conclude(monitor.c, monitor.State(), first, bootstraps)
  {
    if !Finished(monitor.c, monitor.State()) || monitor.lastFinished.None? {
      return None;
    }
    var earliest := EarliestStart(first, bootstraps);
    var wall := monitor.lastFinished.value - earliest;
    return Some(Summary(monitor.State(), wall, if monitor.c.sequential then Some(wall) else None));
  }

  /** The loop over all operations, which stops at the first rejection. */
  method ReplayAll(monitor: WorkflowMonitor, ordered: seq<Operation>) returns (accepted: bool)
    requires monitor.Valid() && monitor.State() == Start(monitor.c)
    modifies monitor
    ensures accepted == Replay(monitor.c, ordered).Some?
    ensures accepted ==> monitor.Valid() && Replay(monitor.c, ordered) == Some(monitor.State())
  {
    for i := 0 to |ordered|
      invariant monitor.Valid()
      invariant Replay(monitor.c, ordered[..i]) == Some(monitor.State())
    {
      assert ordered[..i + 1][..i] == ordered[..i];
      accepted := monitor.Observe(ordered[i]);
      if !accepted {
        ReplayFails(monitor.c, ordered, i + 1);
        return;
      }
    }
    assert ordered[..|ordered|] == ordered;
    accepted := true;
  }

  method EarliestStart(start: int, bootstraps: seq<Bootstrap>) returns (earliest: int)
    ensures earliest == Earliest(start, bootstraps)
  {
    earliest := start;
    for i := 0 to |bootstraps|
      invariant earliest == Earliest(start, bootstraps[..i])
    {
      assert bootstraps[..i + 1][..i] == bootstraps[..i];
      if bootstraps[i].started < earliest {
        earliest := bootstraps[i].started;
      }
    }
    assert bootstraps[..|bootstraps|] == bootstraps;
  }
}
