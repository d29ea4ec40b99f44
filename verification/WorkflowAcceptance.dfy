/**
 Exactly which traces are accepted, told by the operations of the trace alone: what each must be,
 which earlier ones it must find, and when. Nothing here looks at what the checker keeps.
 */
module WorkflowAcceptance {
  import opened Basics
  import opened WorkflowModel
  import opened WorkflowCausality
  import opened WorkflowCosts

  // ----- What an operation is to the others -----

  /** The organizer's closing proposal. */
  predicate Proposes(op: Operation) {
    op.kind == Close && op.position == 0 && op.stages == [4, 5]
  }

  /** The operations that publish a record. */
  predicate Publishes(op: Operation, event: Event) {
    && op.outcome == Completed
    && (event.By? ==> op.position == event.position)
    && match event
       case By(Created, _) => op.kind == Create
       case By(Registration, _) => op.kind == Publish && op.stages == [0]
       case ProposedRoster => op.kind == ProposeRoster
       case Roster => op.kind == Publish && op.stages == [1]
       case By(AcceptedRoster, _) => op.kind == AcceptRoster
       case By(Confirmed, _) => op.kind == Confirm
       case By(Offer, _) => op.kind == Contribute
       case Selection => op.kind == SelectSetup
       case By(Endorsement, _) => op.kind == SelectSetup || op.kind == EndorseSetup
       case By(Setup, _) => op.kind == VerifySetup
       case By(Ballot, _) => op.kind == CastBallot
       case CloseIntent => op.kind == Close && !Proposes(op) && op.position == 0 && op.generation == Some(19)
       case By(Response, _) => op.kind == Close && op.position != 0 && op.generation == Some(21)
       case CloseProposal => Proposes(op)
       case By(Target, _) => op.kind == SignTarget
       case By(ReleaseShare, _) => op.kind == Release
  }

  /** The operations that finish a measured stage of their participant. */
  predicate Completes(op: Operation, stage: int) {
    && op.outcome == Completed
    && match stage
       case 0 => op.kind == Publish && op.stages == [0]
       case 1 => op.kind == Confirm
       case 2 => op.kind == SelectSetup || op.kind == EndorseSetup
       case 3 => op.kind == CastBallot
       case 4 => Proposes(op) || (op.kind == Close && op.position != 0 && op.generation == Some(21))
       case 5 => op.kind == SignTarget
       case 6 => op.kind == Release
       case 7 => op.kind == ComputeResult
       case _ => false
  }

  /** The operation at `j` is the last of these to publish the event. */
  predicate LastToPublish(before: seq<Operation>, j: nat, event: Event) {
    j < |before| && Publishes(before[j], event) && forall k: nat | j < k < |before| :: !Publishes(before[k], event)
  }

  /** The event's last record before an operation had finished when that one started. */
  ghost predicate Finds(before: seq<Operation>, op: Operation, event: Event) {
    exists j: nat :: LastToPublish(before, j, event) && before[j].finished <= op.started
  }

  /** At least so many participants, one left out if given, have a record that had finished. */
  ghost predicate FindsMany(
    c: Settings, before: seq<Operation>, op: Operation, message: Message, count: int, omit: int)
  {
    |set p | 0 <= p < c.participants && p != omit && Finds(before, op, By(message, p))| >= count
  }

  // ----- What an operation must be and find, given those before it -----

  predicate Identified(c: Settings, before: seq<Operation>, op: Operation) {
    && op.id >= 0 && (forall j: nat | j < |before| :: before[j].id != op.id)
    && 0 <= op.position < c.participants
    && op.session >= 0 && op.session in c.startup && c.startup[op.session].position == op.position
    && forall memory | memory in op.memories ::
         && 0 <= memory.workerBytes <= MAX_SAFE && 0 <= memory.helperBytes <= MAX_SAFE
         && 0 <= memory.arenaBytes <= MAX_SAFE
  }

  /** In its session's first operation a participant is busy from the bootstrap on. */
  predicate InTime(c: Settings, before: seq<Operation>, op: Operation)
    requires op.session in c.startup
  {
    var bootstrap := c.startup[op.session];
    var first := forall j: nat | j < |before| :: before[j].session != op.session;
    var start := if first then bootstrap.started else op.started;
    && op.started <= op.finished
    && (first ==> bootstrap.finished <= op.started)
    && forall j: nat | j < |before| && (c.sequential || before[j].position == op.position) ::
         before[j].finished <= start
  }

  /** The stages each kind of operation belongs to. */
  predicate InItsStage(op: Operation) {
    match op.kind
    case Create => op.stages == [0]
    case Publish => op.stages == [0] || op.stages == [1]
    case ProposeRoster => op.stages == [1]
    case AcceptRoster => op.stages == [1]
    case Confirm => op.stages == [1]
    case Contribute => op.stages == [1]
    case SelectSetup => op.stages == [2]
    case EndorseSetup => op.stages == [2]
    case VerifySetup => op.stages == [3]
    case CastBallot => op.stages == [3]
    case Close => op.stages == [4] || op.stages == [5] || (op.position == 0 && op.stages == [4, 5])
    case SignTarget => op.stages == [5]
    case Release => op.stages == [6]
    case ComputeResult => op.stages == [7]
    case Status => |op.stages| == 1 && 0 <= op.stages[0] < 8
    case Unknown => false
  }

  /** The participant finished a stage before. */
  ghost predicate CompletedIn(ops: seq<Operation>, p: int, stage: int) {
    exists j: nat :: j < |ops| && ops[j].position == p && Completes(ops[j], stage)
  }

  /** All earlier stages were finished before, and the next one was not. */
  ghost predicate StageInOrder(before: seq<Operation>, op: Operation, stage: int) {
    && (forall prior | 0 <= prior < stage ::
          CompletedIn(before, op.position, prior) || (Proposes(op) && prior == 4))
    && !CompletedIn(before, op.position, stage + 1)
  }

  /** Who may complete an operation, at which generation, and what it must find. */
  ghost predicate Founded(c: Settings, before: seq<Operation>, op: Operation) {
    var p := op.position;
    match op.kind
    case Create => op.stages == [0] && (p != 0 ==> Finds(before, op, By(Registration, 0)))
    case Publish =>
      if op.stages == [0] then Finds(before, op, By(Created, p)) else p == 0 && Finds(before, op, ProposedRoster)
    case ProposeRoster => p == 0 && FindsMany(c, before, op, Registration, c.participants, -1)
    case AcceptRoster => p != 0 && Finds(before, op, Roster)
    case Confirm => Finds(before, op, if p == 0 then Roster else By(AcceptedRoster, p))
    case Contribute => Finds(before, op, By(Confirmed, p))
    case SelectSetup =>
      p == 0 && Finds(before, op, By(Confirmed, p)) && FindsMany(c, before, op, Offer, c.releaseThreshold, -1)
    case EndorseSetup => Finds(before, op, By(Confirmed, p)) && Finds(before, op, Selection)
    case VerifySetup => op.generation == Some(12) && FindsMany(c, before, op, Endorsement, c.quorum, -1)
    case CastBallot => op.generation == Some(17) && Finds(before, op, By(Setup, p))
    case Close =>
      && FindsMany(c, before, op, Ballot, c.participants, -1)
      && if Proposes(op)
         then && op.generation == Some(22) && Finds(before, op, CloseIntent)
              && FindsMany(c, before, op, Response, c.quorum - 1, 0)
         else || op.generation == Some(17)
              || (p == 0 && op.generation == Some(19))
              || (p != 0 && op.generation == Some(21) && Finds(before, op, CloseIntent))
    case SignTarget => op.generation == Some(24) && Finds(before, op, CloseProposal)
    case Release =>
      op.generation == Some(29) && FindsMany(c, before, op, Target, c.quorum, -1) && Finds(before, op, By(Target, p))
    case ComputeResult =>
      FindsMany(c, before, op, ReleaseShare, c.releaseThreshold, -1) && Finds(before, op, By(ReleaseShare, p))
    case _ => true
  }

  ghost predicate Admissible(c: Settings, before: seq<Operation>, op: Operation) {
    && Identified(c, before, op) && InTime(c, before, op)
    && InItsStage(op) && (forall stage | stage in op.stages :: StageInOrder(before, op, stage))
    && (op.outcome == Completed && op.kind != Status ==> Founded(c, before, op))
  }

  // ----- The two ways to tell what an operation does -----

  lemma StagedMarks(op: Operation, event: Event)
    requires InItsStage(op)
    ensures event in MarkedBy(op) <==> Publishes(op, event)
  {
  }

  lemma StagedFinishes(op: Operation, stage: int)
    requires InItsStage(op)
    ensures Effective(op) && stage in Finishes(op) <==> Completes(op, stage)
  {
  }

  lemma AcceptedIsStaged(m: Monitor, op: Operation)
    requires 0 <= op.position < |m.finishedStages|
    requires (|op.stages| == 1 || Crossing(op)) && forall stage | stage in op.stages :: StageOk(m, op, stage)
    ensures InItsStage(op)
  {
    assert op.stages[0] in op.stages && StageOk(m, op, op.stages[0]);
  }

  // ----- What the checker remembers of a trace -----

  ghost predicate SeenIn(ops: seq<Operation>, id: int) {
    exists j: nat :: j < |ops| && ops[j].id == id
  }

  ghost predicate SessionIn(ops: seq<Operation>, session: int) {
    exists j: nat :: j < |ops| && ops[j].session == session
  }

  /** No operation, of one participant if one is given, finishes after a time. */
  predicate AllBy(ops: seq<Operation>, p: Option<int>, time: int) {
    forall j: nat | j < |ops| && (p.None? || ops[j].position == p.value) :: ops[j].finished <= time
  }

  ghost predicate RemembersIdentities(c: Settings, ops: seq<Operation>, m: Monitor) {
    && (forall id :: id in m.identifiers <==> SeenIn(ops, id))
    && (forall session :: session in m.sessions <==> SessionIn(ops, session))
    && (forall session | session in m.sessions ::
          session in c.startup && m.sessions[session] == c.startup[session].position)
  }

  ghost predicate RemembersTimes(c: Settings, ops: seq<Operation>, m: Monitor)
    requires Shaped(c, m)
  {
    && (forall time :: NotBefore(time, m.lastFinished) <==> AllBy(ops, None, time))
    && (forall p, time | 0 <= p < c.participants :: NotBefore(time, m.latest[p]) <==> AllBy(ops, Some(p), time))
  }

  ghost predicate RemembersRecords(ops: seq<Operation>, m: Monitor) {
    && (forall event | event in m.published ::
          exists j: nat :: LastToPublish(ops, j, event) && m.published[event] == ops[j])
    && (forall event, j: nat | j < |ops| && Publishes(ops[j], event) :: event in m.published)
  }

  ghost predicate RemembersStages(c: Settings, ops: seq<Operation>, m: Monitor)
    requires Shaped(c, m)
  {
    forall p, stage | 0 <= p < c.participants :: stage in m.finishedStages[p] <==> CompletedIn(ops, p, stage)
  }

  lemma IdentitiesAdvance(c: Settings, ops: seq<Operation>, m: Monitor, op: Operation)
    requires RemembersIdentities(c, ops, m) && Shaped(c, m) && Accepts(c, m, op)
    ensures RemembersIdentities(c, ops + [op], Advance(c, m, op))
  {
    var all := ops + [op];
    forall id ensures id in m.identifiers + {op.id} <==> SeenIn(all, id) {
      if SeenIn(ops, id) {
        var j: nat :| j < |ops| && ops[j].id == id;
        assert all[j].id == id;
      }
      assert all[|ops|] == op;
    }
    var sessions := m.sessions[op.session := op.position];
    forall session ensures session in sessions <==> SessionIn(all, session) {
      if SessionIn(ops, session) {
        var j: nat :| j < |ops| && ops[j].session == session;
        assert all[j].session == session;
      }
      assert all[|ops|] == op;
    }
  }

  lemma AllByAdds(ops: seq<Operation>, op: Operation, p: Option<int>, time: int)
    ensures AllBy(ops + [op], p, time) <==>
            AllBy(ops, p, time) && (p.None? || op.position == p.value ==> op.finished <= time)
  {
    var all := ops + [op];
    if AllBy(all, p, time) {
      forall j: nat | j < |ops| && (p.None? || ops[j].position == p.value) ensures ops[j].finished <= time {
        assert all[j] == ops[j];
      }
      assert all[|ops|] == op;
    }
  }

  lemma TimesAdvance(c: Settings, ops: seq<Operation>, m: Monitor, op: Operation)
    requires StartupOk(c) && Shaped(c, m) && Accepts(c, m, op) && RemembersTimes(c, ops, m)
    ensures RemembersTimes(c, ops + [op], Advance(c, m, op))
  {
    var m' := Advance(c, m, op);
    AdvanceCovers(c, m, op);
    forall time ensures NotBefore(time, m'.lastFinished) <==> AllBy(ops + [op], None, time) {
      AllByAdds(ops, op, None, time);
      assert NotBefore(time, m.lastFinished) <==> AllBy(ops, None, time);
    }
    forall p, time | 0 <= p < c.participants
      ensures NotBefore(time, m'.latest[p]) <==> AllBy(ops + [op], Some(p), time)
    {
      AllByAdds(ops, op, Some(p), time);
      assert NotBefore(time, m.latest[p]) <==> AllBy(ops, Some(p), time);
      if p == op.position {
        assert NotBefore(op.finished, m.latest[p]) <==> AllBy(ops, Some(p), op.finished);
      }
    }
  }

  lemma LastAdvances(ops: seq<Operation>, op: Operation, j: nat, event: Event)
    requires LastToPublish(ops, j, event) && !Publishes(op, event)
    ensures LastToPublish(ops + [op], j, event)
  {
    var all := ops + [op];
    forall k: nat | j < k < |all| ensures !Publishes(all[k], event) {
      if k < |ops| {
        assert all[k] == ops[k];
      }
    }
  }

  /** What is published once an operation is added, record by record. */
  ghost predicate Adds(op: Operation, before: map<Event, Operation>, after: map<Event, Operation>) {
    && (forall event :: event in after <==> event in before || Publishes(op, event))
    && forall event | event in after :: after[event] == if Publishes(op, event) then op else before[event]
  }

  lemma AdvanceAdds(c: Settings, m: Monitor, op: Operation)
    requires Shaped(c, m) && Accepts(c, m, op)
    ensures Adds(op, m.published, Advance(c, m, op).published)
  {
    AcceptedIsStaged(m, op);
    forall event ensures event in MarkedBy(op) <==> Publishes(op, event) {
      StagedMarks(op, event);
    }
  }

  lemma RecordAdvances(ops: seq<Operation>, m: Monitor, op: Operation, after: map<Event, Operation>, event: Event)
    requires RemembersRecords(ops, m) && Adds(op, m.published, after) && event in after
    ensures exists j: nat :: LastToPublish(ops + [op], j, event) && after[event] == (ops + [op])[j]
  {
    var all := ops + [op];
    if Publishes(op, event) {
      assert LastToPublish(all, |ops|, event) && after[event] == all[|ops|];
    } else {
      var j: nat :| LastToPublish(ops, j, event) && m.published[event] == ops[j];
      LastAdvances(ops, op, j, event);
      assert all[j] == ops[j];
    }
  }

  lemma RecordsAdvance(c: Settings, ops: seq<Operation>, m: Monitor, op: Operation)
    requires Shaped(c, m) && Accepts(c, m, op) && RemembersRecords(ops, m)
    ensures RemembersRecords(ops + [op], Advance(c, m, op))
  {
    var all, after := ops + [op], Advance(c, m, op).published;
    AdvanceAdds(c, m, op);
    forall event | event in after
      ensures exists j: nat :: LastToPublish(all, j, event) && after[event] == all[j]
    {
      RecordAdvances(ops, m, op, after, event);
    }
    forall event, j: nat | j < |all| && Publishes(all[j], event) ensures event in after {
      if j < |ops| {
        assert all[j] == ops[j] && event in m.published;
      }
    }
  }

  lemma StagesAdvance(c: Settings, ops: seq<Operation>, m: Monitor, op: Operation)
    requires Shaped(c, m) && Accepts(c, m, op) && RemembersStages(c, ops, m)
    ensures RemembersStages(c, ops + [op], Advance(c, m, op))
  {
    var all, m' := ops + [op], Advance(c, m, op);
    AcceptedIsStaged(m, op);
    forall p, stage | 0 <= p < c.participants ensures stage in m'.finishedStages[p] <==> CompletedIn(all, p, stage) {
      StagedFinishes(op, stage);
      assert stage in m.finishedStages[p] <==> CompletedIn(ops, p, stage);
      if CompletedIn(ops, p, stage) {
        var j: nat :| j < |ops| && ops[j].position == p && Completes(ops[j], stage);
        assert all[j] == ops[j];
      }
      assert all[|ops|] == op;
    }
  }

  ghost predicate Remembers(c: Settings, ops: seq<Operation>, m: Monitor) {
    && Shaped(c, m) && RemembersIdentities(c, ops, m) && RemembersTimes(c, ops, m)
    && RemembersRecords(ops, m) && RemembersStages(c, ops, m)
  }

  lemma StartRemembers(c: Settings)
    ensures Remembers(c, [], Start(c))
  {
  }

  lemma {:induction false} AcceptedIsRemembered(c: Settings, ops: seq<Operation>)
    requires StartupOk(c) && Accepted(c, ops)
    ensures Remembers(c, ops, StateAfter(c, ops))
  {
    if ops == [] {
      StartRemembers(c);
    } else {
      var front, op := ops[..|ops| - 1], ops[|ops| - 1];
      LastAccepted(c, ops);
      AcceptedIsRemembered(c, front);
      RemembersOneMore(c, front, StateAfter(c, front), op);
      assert ops == front + [op];
    }
  }

  lemma RemembersOneMore(c: Settings, ops: seq<Operation>, m: Monitor, op: Operation)
    requires StartupOk(c) && Remembers(c, ops, m) && Accepts(c, m, op)
    ensures Remembers(c, ops + [op], Advance(c, m, op))
  {
    IdentitiesAdvance(c, ops, m, op);
    TimesAdvance(c, ops, m, op);
    RecordsAdvance(c, ops, m, op);
    StagesAdvance(c, ops, m, op);
  }

  // ----- One more operation -----

  lemma FindsAgrees(c: Settings, ops: seq<Operation>, m: Monitor, op: Operation, event: Event)
    requires RemembersRecords(ops, m)
    ensures Finds(ops, op, event) <==> Met(c, m, One(event), op.started)
  {
    if Finds(ops, op, event) {
      var j: nat :| LastToPublish(ops, j, event) && ops[j].finished <= op.started;
      var last: nat :| LastToPublish(ops, last, event) && m.published[event] == ops[last];
      assert last == j;
    }
    if event in m.published && m.published[event].finished <= op.started {
      var j: nat :| LastToPublish(ops, j, event) && m.published[event] == ops[j];
    }
  }

  lemma RecordIsTheirs(ops: seq<Operation>, m: Monitor, message: Message, p: int)
    requires RemembersRecords(ops, m) && By(message, p) in m.published
    ensures m.published[By(message, p)].position == p
  {
    var j: nat :| LastToPublish(ops, j, By(message, p)) && m.published[By(message, p)] == ops[j];
  }

  lemma FindsManyAgrees(
    c: Settings, ops: seq<Operation>, m: Monitor, op: Operation, message: Message, count: int, omit: int
  )
    requires RemembersRecords(ops, m)
    ensures FindsMany(c, ops, op, message, count, omit) <==> Met(c, m, Many(message, count, omit), op.started)
  {
    var found := set p | 0 <= p < c.participants && p != omit && Finds(ops, op, By(message, p));
    forall p ensures p in found <==> p in Ready(c, m, message, omit, op.started) {
      FindsAgrees(c, ops, m, op, By(message, p));
      if By(message, p) in m.published {
        RecordIsTheirs(ops, m, message, p);
      }
    }
    assert found == Ready(c, m, message, omit, op.started);
  }

  /** What an operation finds is what its needs say. */
  ghost predicate FindsNeed(c: Settings, ops: seq<Operation>, op: Operation, need: Need) {
    match need
    case One(event) => Finds(ops, op, event)
    case Many(message, count, omit) => FindsMany(c, ops, op, message, count, omit)
  }

  lemma NeedAgrees(c: Settings, ops: seq<Operation>, m: Monitor, op: Operation, need: Need)
    requires RemembersRecords(ops, m)
    ensures Met(c, m, need, op.started) <==> FindsNeed(c, ops, op, need)
  {
    match need
    case One(event) => FindsAgrees(c, ops, m, op, event);
    case Many(message, count, omit) => FindsManyAgrees(c, ops, m, op, message, count, omit);
  }

  lemma FoundedAgrees(c: Settings, ops: seq<Operation>, m: Monitor, op: Operation)
    requires RemembersRecords(ops, m) && InItsStage(op) && Effective(op)
    ensures Founded(c, ops, op) <==> Legal(op) && AllMet(c, m, op)
  {
    forall need ensures Met(c, m, need, op.started) <==> FindsNeed(c, ops, op, need) {
      NeedAgrees(c, ops, m, op, need);
    }
    FoundedIsNeeds(c, ops, op);
  }

  /** The table of needs, read the other way round. */
  lemma FoundedIsNeeds(c: Settings, ops: seq<Operation>, op: Operation)
    requires InItsStage(op) && Effective(op)
    ensures Founded(c, ops, op) <==> Legal(op) && forall need | need in Needs(c, op) :: FindsNeed(c, ops, op, need)
  {
    var p, needs := op.position, Needs(c, op);
    match op.kind
    case Create => assert p != 0 ==> One(By(Registration, 0)) in needs;
    case Publish => assert One(if op.stages == [0] then By(Created, p) else ProposedRoster) in needs;
    case ProposeRoster => assert Many(Registration, c.participants, NOBODY) in needs;
    case AcceptRoster => assert One(Roster) in needs;
    case Confirm => assert One(if p == 0 then Roster else By(AcceptedRoster, p)) in needs;
    case Contribute => assert One(By(Confirmed, p)) in needs;
    case SelectSetup => assert One(By(Confirmed, p)) in needs && Many(Offer, c.releaseThreshold, NOBODY) in needs;
    case EndorseSetup => assert One(By(Confirmed, p)) in needs && One(Selection) in needs;
    case VerifySetup => assert Many(Endorsement, c.quorum, NOBODY) in needs;
    case CastBallot => assert One(By(Setup, p)) in needs;
    case Close =>
      assert Many(Ballot, c.participants, NOBODY) in needs;
      assert Proposes(op) ==> One(CloseIntent) in needs && Many(Response, c.quorum - 1, 0) in needs;
      assert Responds(op) ==> One(CloseIntent) in needs;
    case SignTarget => assert One(CloseProposal) in needs;
    case Release => assert Many(Target, c.quorum, NOBODY) in needs && One(By(Target, p)) in needs;
    case ComputeResult =>
      assert Many(ReleaseShare, c.releaseThreshold, NOBODY) in needs && One(By(ReleaseShare, p)) in needs;
    case _ =>
  }

  lemma StageAgrees(c: Settings, ops: seq<Operation>, m: Monitor, op: Operation, stage: int)
    requires Shaped(c, m) && RemembersStages(c, ops, m) && 0 <= op.position < c.participants
    requires InItsStage(op) && stage in op.stages
    ensures StageOk(m, op, stage) <==> StageInOrder(ops, op, stage)
  {
  }

  lemma StagesAgree(c: Settings, ops: seq<Operation>, m: Monitor, op: Operation)
    requires Shaped(c, m) && RemembersStages(c, ops, m) && 0 <= op.position < c.participants
    ensures InItsStage(op) && (forall stage | stage in op.stages :: StageInOrder(ops, op, stage)) <==>
            (|op.stages| == 1 || Crossing(op)) && forall stage | stage in op.stages :: StageOk(m, op, stage)
  {
    if (|op.stages| == 1 || Crossing(op)) && forall stage | stage in op.stages :: StageOk(m, op, stage) {
      AcceptedIsStaged(m, op);
    }
    if InItsStage(op) {
      forall stage | stage in op.stages ensures StageOk(m, op, stage) <==> StageInOrder(ops, op, stage) {
        StageAgrees(c, ops, m, op, stage);
      }
    }
  }

  lemma IdentityAgrees(c: Settings, ops: seq<Operation>, m: Monitor, op: Operation)
    requires RemembersIdentities(c, ops, m)
    ensures op.id !in m.identifiers <==> forall j: nat | j < |ops| :: ops[j].id != op.id
    ensures op.session !in m.sessions <==> forall j: nat | j < |ops| :: ops[j].session != op.session
  {
    assert op.id in m.identifiers <==> SeenIn(ops, op.id);
    assert op.session in m.sessions <==> SessionIn(ops, op.session);
  }

  lemma TimesAgree(c: Settings, ops: seq<Operation>, m: Monitor, op: Operation, time: int)
    requires Shaped(c, m) && RemembersTimes(c, ops, m) && 0 <= op.position < c.participants
    ensures NotBefore(time, m.latest[op.position]) && (c.sequential ==> NotBefore(time, m.lastFinished)) <==>
            forall j: nat | j < |ops| && (c.sequential || ops[j].position == op.position) :: ops[j].finished <= time
  {
    assert NotBefore(time, m.lastFinished) <==> AllBy(ops, None, time);
    assert NotBefore(time, m.latest[op.position]) <==> AllBy(ops, Some(op.position), time);
  }

  lemma TimelyAgrees(c: Settings, ops: seq<Operation>, m: Monitor, op: Operation)
    requires Remembers(c, ops, m)
    ensures Timely(c, m, op) && (forall memory | memory in op.memories :: SafeMemory(memory)) <==>
            Identified(c, ops, op) && InTime(c, ops, op)
  {
    IdentityAgrees(c, ops, m, op);
    if op.session in c.startup && 0 <= op.position < c.participants {
      TimesAgree(c, ops, m, op, EffectiveStart(c, m, op));
    }
  }

  lemma LastAgrees(c: Settings, ops: seq<Operation>, m: Monitor, op: Operation)
    requires Remembers(c, ops, m)
    ensures Accepts(c, m, op) <==> Admissible(c, ops, op)
  {
    TimelyAgrees(c, ops, m, op);
    if 0 <= op.position < c.participants {
      StagesAgree(c, ops, m, op);
      if InItsStage(op) && Effective(op) {
        FoundedAgrees(c, ops, m, op);
      }
    }
  }

  // ----- Exactly the admissible traces -----

  ghost predicate AllAdmissible(c: Settings, ops: seq<Operation>) {
    forall i: nat | i < |ops| :: Admissible(c, ops[..i], ops[i])
  }

  lemma AdmissibleLast(c: Settings, ops: seq<Operation>, op: Operation)
    ensures AllAdmissible(c, ops + [op]) <==> AllAdmissible(c, ops) && Admissible(c, ops, op)
  {
    var all := ops + [op];
    forall i: nat | i < |ops| ensures all[..i] == ops[..i] && all[i] == ops[i] {
    }
    assert all[..|ops|] == ops && all[|ops|] == op;
    if AllAdmissible(c, all) {
      forall i: nat | i < |ops| ensures Admissible(c, ops[..i], ops[i]) {
        assert Admissible(c, all[..i], all[i]);
      }
      assert Admissible(c, all[..|ops|], all[|ops|]);
    }
  }

  /** A trace is accepted exactly if each operation is admissible after those before it. */
  lemma {:induction false} AcceptedExactlyIfAdmissible(c: Settings, ops: seq<Operation>)
    requires StartupOk(c)
    ensures Accepted(c, ops) <==> forall i: nat | i < |ops| :: Admissible(c, ops[..i], ops[i])
  {
    if ops != [] {
      var front, op := ops[..|ops| - 1], ops[|ops| - 1];
      assert ops == front + [op];
      AcceptedExactlyIfAdmissible(c, front);
      AdmissibleLast(c, front, op);
      if Accepted(c, front) {
        AcceptedIsRemembered(c, front);
        LastAgrees(c, front, StateAfter(c, front), op);
      }
    }
  }
}
