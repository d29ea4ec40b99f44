/**
 That the workflow trace checker accepts anything: the ordinary schedule, in which every participant
 does its part in turn, is accepted for every number of participants, sequential or not, exactly
 while neither threshold asks for more participants than there are.
 */
module WorkflowExistence {
  import opened Basics
  import opened Intervals
  import opened WorkflowModel
  import opened WorkflowCausality
  import opened WorkflowCosts

  // ----- The ordinary schedule -----

  function Does(k: nat, kind: Kind, position: int, stages: seq<int>, generation: Option<int>): Operation {
    Operation(k, position, kind, position, stages, Completed, k, k, generation, [])
  }

  function Length(n: nat): nat {
    12 * n + 2
  }

  /** From the registrations to the offers. */
  function EarlyTurn(n: nat, k: nat): Operation {
    if k < 2 * n then
      if k % 2 == 0 then Does(k, Create, k / 2, [0], None) else Does(k, Publish, k / 2, [0], None)
    else if k == 2 * n then Does(k, ProposeRoster, 0, [1], None)
    else if k == 2 * n + 1 then Does(k, Publish, 0, [1], None)
    else if k < 3 * n + 1 then Does(k, AcceptRoster, k - (2 * n + 1), [1], None)
    else if k < 4 * n + 1 then Does(k, Confirm, k - (3 * n + 1), [1], None)
    else Does(k, Contribute, k - (4 * n + 1), [1], None)
  }

  /** From the selection to the ballots. */
  function MiddleTurn(n: nat, k: nat): Operation {
    if k == 5 * n + 1 then Does(k, SelectSetup, 0, [2], None)
    else if k < 6 * n + 1 then Does(k, EndorseSetup, k - (5 * n + 1), [2], None)
    else if k < 7 * n + 1 then Does(k, VerifySetup, k - (6 * n + 1), [3], Some(12))
    else Does(k, CastBallot, k - (7 * n + 1), [3], Some(17))
  }

  /** From the closing to the results. */
  function LateTurn(n: nat, k: nat): Operation {
    if k == 8 * n + 1 then Does(k, Close, 0, [4], Some(19))
    else if k < 9 * n + 1 then Does(k, Close, k - (8 * n + 1), [4], Some(21))
    else if k == 9 * n + 1 then Does(k, Close, 0, [4, 5], Some(22))
    else if k < 10 * n + 2 then Does(k, SignTarget, k - (9 * n + 2), [5], Some(24))
    else if k < 11 * n + 2 then Does(k, Release, k - (10 * n + 2), [6], Some(29))
    else Does(k, ComputeResult, k - (11 * n + 2), [7], None)
  }

  /** The operation at each tick: round after round, and within a round one participant after the other. */
  function Turn(n: nat, k: nat): Operation {
    if k < 5 * n + 1 then EarlyTurn(n, k) else if k < 8 * n + 1 then MiddleTurn(n, k) else LateTurn(n, k)
  }

  /** The first k turns. */
  function Schedule(n: nat, k: nat): (ops: seq<Operation>)
    ensures |ops| == k
  {
    if k == 0 then [] else Schedule(n, k - 1) + [Turn(n, k - 1)]
  }

  /** Each participant has one session, started as it creates its membership. */
  function Session(p: nat): Bootstrap {
    Bootstrap(p, p, 2 * p, 2 * p)
  }

  function Sessions(n: nat): seq<Bootstrap> {
    if n == 0 then [] else Sessions(n - 1) + [Session(n - 1)]
  }

  /** What the schedule publishes, and when. */
  predicate Comes(n: nat, event: Event) {
    event.By? ==>
      0 <= event.position < n && (event.message == AcceptedRoster || event.message == Response ==> event.position != 0)
  }

  function TickOf(n: nat, event: Event): int {
    match event
    case By(Created, p) => 2 * p
    case By(Registration, p) => 2 * p + 1
    case ProposedRoster => 2 * n
    case Roster => 2 * n + 1
    case By(AcceptedRoster, p) => 2 * n + 1 + p
    case By(Confirmed, p) => 3 * n + 1 + p
    case By(Offer, p) => 4 * n + 1 + p
    case Selection => 5 * n + 1
    case By(Endorsement, p) => 5 * n + 1 + p
    case By(Setup, p) => 6 * n + 1 + p
    case By(Ballot, p) => 7 * n + 1 + p
    case CloseIntent => 8 * n + 1
    case By(Response, p) => 8 * n + 1 + p
    case CloseProposal => 9 * n + 1
    case By(Target, p) => 9 * n + 2 + p
    case By(ReleaseShare, p) => 10 * n + 2 + p
  }

  /** When a participant finishes a stage. */
  function FinishOf(n: nat, p: int, stage: int): int {
    match stage
    case 0 => 2 * p + 1
    case 1 => 3 * n + 1 + p
    case 2 => 5 * n + 1 + p
    case 3 => 7 * n + 1 + p
    case 4 => if p == 0 then 9 * n + 1 else 8 * n + 1 + p
    case 5 => 9 * n + 2 + p
    case 6 => 10 * n + 2 + p
    case _ => 11 * n + 2 + p
  }

  lemma TurnPublishes(n: nat, k: nat, event: Event)
    requires n >= 3 && k < Length(n)
    ensures event in Marks(Turn(n, k)) <==> Comes(n, event) && TickOf(n, event) == k
  {
    if k < 5 * n + 1 {
      EarlyPublishes(n, k, event);
    } else if k < 8 * n + 1 {
      MiddlePublishes(n, k, event);
    } else {
      LatePublishes(n, k, event);
    }
  }

  lemma EarlyPublishes(n: nat, k: nat, event: Event)
    requires n >= 3 && k < 5 * n + 1
    ensures event in Marks(EarlyTurn(n, k)) <==> Comes(n, event) && TickOf(n, event) == k
  {
  }

  lemma MiddlePublishes(n: nat, k: nat, event: Event)
    requires n >= 3 && 5 * n + 1 <= k < 8 * n + 1
    ensures event in Marks(MiddleTurn(n, k)) <==> Comes(n, event) && TickOf(n, event) == k
  {
  }

  lemma LatePublishes(n: nat, k: nat, event: Event)
    requires n >= 3 && 8 * n + 1 <= k < Length(n)
    ensures event in Marks(LateTurn(n, k)) <==> Comes(n, event) && TickOf(n, event) == k
  {
  }

  lemma TurnFinishes(n: nat, k: nat, p: int, stage: int)
    requires n >= 3 && k < Length(n) && 0 <= p < n && 0 <= stage < STAGES
    ensures Turn(n, k).position == p && stage in Finishes(Turn(n, k)) <==> FinishOf(n, p, stage) == k
  {
  }

  /** A completed operation of one tick, in its participant's own session. */
  predicate AtTick(n: nat, op: Operation, k: nat) {
    && op == Does(k, op.kind, op.position, op.stages, op.generation)
    && 0 <= op.position < n && 2 * op.position <= k
  }

  lemma TurnIsAtItsTick(n: nat, k: nat)
    requires n >= 3 && k < Length(n)
    ensures AtTick(n, Turn(n, k), k)
  {
  }

  lemma TurnIsLegal(n: nat, k: nat)
    requires n >= 3 && k < Length(n)
    ensures Effective(Turn(n, k)) && Legal(Turn(n, k))
    ensures |Turn(n, k).stages| == 1 || Crossing(Turn(n, k))
  {
  }

  lemma TurnFinishesMeasured(n: nat, k: nat, stage: int)
    requires n >= 3 && k < Length(n) && stage in Finishes(Turn(n, k))
    ensures 0 <= stage < STAGES
  {
  }

  /** All stages before an operation's are finished by its tick, and the next one is not. */
  predicate InStage(n: nat, op: Operation, stage: int, k: int) {
    && 0 <= stage < STAGES && Allowed(stage, op.kind)
    && (forall prior | 0 <= prior < stage :: FinishOf(n, op.position, prior) < k || (Crossing(op) && prior == 4))
    && (stage + 1 < STAGES ==> FinishOf(n, op.position, stage + 1) >= k)
  }

  lemma TurnIsStaged(n: nat, k: nat, stage: int)
    requires n >= 3 && k < Length(n) && stage in Turn(n, k).stages
    ensures InStage(n, Turn(n, k), stage, k)
  {
    if k < 5 * n + 1 {
      EarlyIsStaged(n, k, stage);
    } else if k < 8 * n + 1 {
      MiddleIsStaged(n, k, stage);
    } else {
      LateIsStaged(n, k, stage);
    }
  }

  lemma EarlyIsStaged(n: nat, k: nat, stage: int)
    requires n >= 3 && k < 5 * n + 1 && stage in EarlyTurn(n, k).stages
    ensures InStage(n, EarlyTurn(n, k), stage, k)
  {
  }

  lemma MiddleIsStaged(n: nat, k: nat, stage: int)
    requires n >= 3 && 5 * n + 1 <= k < 8 * n + 1 && stage in MiddleTurn(n, k).stages
    ensures InStage(n, MiddleTurn(n, k), stage, k)
  {
  }

  lemma LateIsStaged(n: nat, k: nat, stage: int)
    requires n >= 3 && 8 * n + 1 <= k < Length(n) && stage in LateTurn(n, k).stages
    ensures InStage(n, LateTurn(n, k), stage, k)
  {
  }

  /** Neither threshold asks for more participants than there are. */
  predicate Attainable(c: Settings) {
    c.participants >= 3 && c.quorum <= c.participants && c.releaseThreshold <= c.participants
  }

  /** The bootstraps of the first k participants, by session. */
  predicate StartedUpTo(startup: map<int, Bootstrap>, k: nat) {
    && (forall p | 0 <= p < k :: p in startup && startup[p] == Session(p))
    && (forall session | session in startup :: 0 <= session < k)
  }

  /** The settings of the ordinary run. */
  predicate Ordinary(c: Settings) {
    && Attainable(c)
    && StartedUpTo(c.startup, c.participants)
  }

  predicate Earlier(n: nat, event: Event, k: int) {
    Comes(n, event) && TickOf(n, event) < k
  }

  /** A need that the turns before a tick have met. */
  predicate MetBy(n: nat, need: Need, k: int) {
    match need
    case One(event) => Earlier(n, event, k)
    case Many(message, count, omit) =>
      && omit <= 0 && count <= (if omit == 0 then n - 1 else n)
      && forall p | 0 <= p < n && p != omit :: Earlier(n, By(message, p), k)
  }

  lemma TurnNeeds(c: Settings, k: nat, need: Need)
    requires Attainable(c) && k < Length(c.participants) && need in Needs(c, Turn(c.participants, k))
    ensures MetBy(c.participants, need, k)
  {
    if k < 5 * c.participants + 1 {
      EarlyNeeds(c, k, need);
    } else if k < 8 * c.participants + 1 {
      MiddleNeeds(c, k, need);
    } else {
      LateNeeds(c, k, need);
    }
  }

  lemma EarlyNeeds(c: Settings, k: nat, need: Need)
    requires Attainable(c) && k < 5 * c.participants + 1 && need in Needs(c, EarlyTurn(c.participants, k))
    ensures MetBy(c.participants, need, k)
  {
  }

  lemma MiddleNeeds(c: Settings, k: nat, need: Need)
    requires Attainable(c) && 5 * c.participants + 1 <= k < 8 * c.participants + 1
    requires need in Needs(c, MiddleTurn(c.participants, k))
    ensures MetBy(c.participants, need, k)
  {
  }

  lemma LateNeeds(c: Settings, k: nat, need: Need)
    requires Attainable(c) && 8 * c.participants + 1 <= k < Length(c.participants)
    requires need in Needs(c, LateTurn(c.participants, k))
    ensures MetBy(c.participants, need, k)
  {
    if k < 9 * c.participants + 2 {
      ClosingNeeds(c, k, LateTurn(c.participants, k), need);
    } else {
      ResultNeeds(c, k, LateTurn(c.participants, k), need);
    }
  }

  lemma ClosingNeeds(c: Settings, k: nat, op: Operation, need: Need)
    requires Attainable(c) && op.kind == Close && need in Needs(c, op)
    requires k > 8 * c.participants && (k > 9 * c.participants || !Crossing(op))
    requires Responds(op) ==> k > 8 * c.participants + 1
    ensures MetBy(c.participants, need, k)
  {
  }

  lemma ResultNeeds(c: Settings, k: nat, op: Operation, need: Need)
    requires Attainable(c) && op == LateTurn(c.participants, k) && need in Needs(c, op)
    requires 9 * c.participants + 2 <= k < Length(c.participants)
    ensures MetBy(c.participants, need, k)
  {
  }

  // ----- The monitor after the first turns -----

  ghost predicate SeenUpTo(n: nat, identifiers: set<int>, sessions: map<int, int>, k: nat) {
    && (forall id | id in identifiers :: 0 <= id < k)
    && (forall session :: session in sessions <==> 0 <= session < n && 2 * session < k)
    && (forall session | session in sessions :: sessions[session] == session)
  }

  predicate TimedUpTo(latest: seq<Option<int>>, lastFinished: Option<int>, k: nat) {
    && (forall p | 0 <= p < |latest| && latest[p].Some? :: latest[p].value < k)
    && (lastFinished.Some? ==> lastFinished.value < k)
    && (k > 0 ==> lastFinished.Some?)
  }

  ghost predicate PublishedUpTo(n: nat, published: map<Event, Operation>, k: nat) {
    && (forall event :: event in published <==> Earlier(n, event, k))
    && (forall event | event in published :: Published(event, published[event], k))
  }

  predicate Published(event: Event, op: Operation, k: nat) {
    op.finished < k && (event.By? ==> op.position == event.position)
  }

  predicate StagedUpTo(n: nat, p: int, stages: set<int>, k: nat) {
    && (forall stage | 0 <= stage < STAGES :: stage in stages <==> FinishOf(n, p, stage) < k)
    && (forall stage | stage in stages :: 0 <= stage < STAGES)
  }

  predicate AllStagedUpTo(n: nat, finishedStages: seq<set<int>>, k: nat)
    requires |finishedStages| == n
  {
    forall p | 0 <= p < n :: StagedUpTo(n, p, finishedStages[p], k)
  }

  ghost predicate UpTo(c: Settings, m: Monitor, k: nat) {
    && Shaped(c, m)
    && SeenUpTo(c.participants, m.identifiers, m.sessions, k) && TimedUpTo(m.latest, m.lastFinished, k)
    && PublishedUpTo(c.participants, m.published, k) && AllStagedUpTo(c.participants, m.finishedStages, k)
  }

  lemma TickIsTimely(c: Settings, m: Monitor, k: nat, op: Operation)
    requires Ordinary(c) && AtTick(c.participants, op, k) && Shaped(c, m)
    requires SeenUpTo(c.participants, m.identifiers, m.sessions, k) && TimedUpTo(m.latest, m.lastFinished, k)
    ensures Timely(c, m, op)
  {
    assert c.startup[op.position] == Session(op.position);
  }

  lemma StageIsOk(n: nat, m: Monitor, k: nat, op: Operation, stage: int)
    requires |m.finishedStages| == n && 0 <= op.position < n && InStage(n, op, stage, k)
    requires StagedUpTo(n, op.position, m.finishedStages[op.position], k)
    ensures StageOk(m, op, stage)
  {
  }

  lemma NeedIsMet(c: Settings, m: Monitor, k: nat, need: Need)
    requires PublishedUpTo(c.participants, m.published, k) && MetBy(c.participants, need, k) && c.participants > 0
    ensures Met(c, m, need, k)
  {
    match need
    case One(event) => assert Published(event, m.published[event], k);
    case Many(message, count, omit) =>
      var all := Interval(if omit == 0 then 1 else 0, c.participants);
      forall p | p in all ensures p in Ready(c, m, message, omit, k) {
        assert Earlier(c.participants, By(message, p), k);
        assert Published(By(message, p), m.published[By(message, p)], k);
      }
      SubsetSize(all, Ready(c, m, message, omit, k));
  }

  lemma TurnIsAccepted(c: Settings, m: Monitor, k: nat)
    requires Ordinary(c) && k < Length(c.participants) && UpTo(c, m, k)
    ensures Accepts(c, m, Turn(c.participants, k))
  {
    var n, op := c.participants, Turn(c.participants, k);
    TurnIsAtItsTick(n, k);
    TickIsTimely(c, m, k, op);
    TurnIsLegal(n, k);
    forall stage | stage in op.stages ensures StageOk(m, op, stage) {
      TurnIsStaged(n, k, stage);
      StageIsOk(n, m, k, op, stage);
    }
    forall need | need in Needs(c, op) ensures Met(c, m, need, op.started) {
      TurnNeeds(c, k, need);
      NeedIsMet(c, m, k, need);
    }
  }

  lemma PublishedAdvances(n: nat, published: map<Event, Operation>, k: nat, op: Operation)
    requires PublishedUpTo(n, published, k) && Effective(op) && op.finished == k
    requires forall event :: event in Marks(op) <==> Comes(n, event) && TickOf(n, event) == k
    ensures PublishedUpTo(n, published + map event | event in Marks(op) :: op, k + 1)
  {
    var published' := published + map event | event in Marks(op) :: op;
    forall event ensures event in published' <==> Earlier(n, event, k + 1) {
      assert event in published <==> Earlier(n, event, k);
    }
    forall event | event in published' ensures Published(event, published'[event], k + 1) {
      if event in Marks(op) && event.By? {
        MarksOwnMessage(op, event.message, event.position);
      } else if event !in Marks(op) {
        assert Published(event, published[event], k);
      }
    }
  }

  lemma StagesAdvance(n: nat, p: int, stages: set<int>, k: nat)
    requires n >= 3 && k < Length(n) && 0 <= p < n && StagedUpTo(n, p, stages, k)
    ensures StagedUpTo(n, p, if Turn(n, k).position == p then stages + Finishes(Turn(n, k)) else stages, k + 1)
  {
    var op := Turn(n, k);
    var stages' := if op.position == p then stages + Finishes(op) else stages;
    forall stage | 0 <= stage < STAGES ensures stage in stages' <==> FinishOf(n, p, stage) < k + 1 {
      TurnFinishes(n, k, p, stage);
    }
    forall stage | stage in stages' ensures 0 <= stage < STAGES {
      if stage !in stages {
        TurnFinishesMeasured(n, k, stage);
      }
    }
  }

  lemma TimesAdvance(c: Settings, m: Monitor, k: nat, op: Operation)
    requires AtTick(c.participants, op, k) && |m.latest| == c.participants
    requires SeenUpTo(c.participants, m.identifiers, m.sessions, k) && TimedUpTo(m.latest, m.lastFinished, k)
    requires forall session | 2 * session == k && 0 <= session < c.participants :: op.position == session
    ensures SeenUpTo(c.participants, m.identifiers + {op.id}, m.sessions[op.session := op.position], k + 1)
    ensures TimedUpTo(m.latest[op.position := Some(op.finished)], Some(Later(m.lastFinished, op.finished)), k + 1)
  {
  }

  lemma TurnStartsTheSession(n: nat, k: nat, p: int)
    requires n >= 3 && 0 <= p < n && 2 * p == k
    ensures Turn(n, k).position == p
  {
  }

  lemma TurnAdvances(c: Settings, m: Monitor, k: nat)
    requires Ordinary(c) && k < Length(c.participants) && UpTo(c, m, k) && Accepts(c, m, Turn(c.participants, k))
    ensures UpTo(c, Advance(c, m, Turn(c.participants, k)), k + 1)
  {
    var n, op := c.participants, Turn(c.participants, k);
    TurnIsLegal(n, k);
    TurnIsAtItsTick(n, k);
    forall event ensures event in Marks(op) <==> Comes(n, event) && TickOf(n, event) == k {
      TurnPublishes(n, k, event);
    }
    PublishedAdvances(n, m.published, k, op);
    forall p | 0 <= p < n && 2 * p == k ensures op.position == p {
      TurnStartsTheSession(n, k, p);
    }
    TimesAdvance(c, m, k, op);
    var m' := Advance(c, m, op);
    forall p | 0 <= p < n ensures StagedUpTo(n, p, m'.finishedStages[p], k + 1) {
      StagesAdvance(n, p, m.finishedStages[p], k);
    }
  }

  lemma NothingYet(c: Settings)
    ensures UpTo(c, Start(c), 0)
  {
  }

  lemma OneMoreIsAccepted(c: Settings, ops: seq<Operation>, op: Operation)
    requires Accepted(c, ops) && Accepts(c, StateAfter(c, ops), op)
    ensures Accepted(c, ops + [op]) && StateAfter(c, ops + [op]) == Advance(c, StateAfter(c, ops), op)
  {
    assert (ops + [op])[..|ops|] == ops;
  }

  lemma OneMoreTurn(c: Settings, k: nat, ops: seq<Operation>)
    requires Ordinary(c) && k < Length(c.participants) && Accepted(c, ops) && UpTo(c, StateAfter(c, ops), k)
    ensures Accepted(c, ops + [Turn(c.participants, k)])
    ensures UpTo(c, StateAfter(c, ops + [Turn(c.participants, k)]), k + 1)
  {
    TurnIsAccepted(c, StateAfter(c, ops), k);
    TurnAdvances(c, StateAfter(c, ops), k);
    OneMoreIsAccepted(c, ops, Turn(c.participants, k));
  }

  lemma {:induction false} ScheduleIsAccepted(c: Settings, k: nat)
    requires Ordinary(c) && k <= Length(c.participants)
    ensures Accepted(c, Schedule(c.participants, k)) && UpTo(c, StateAfter(c, Schedule(c.participants, k)), k)
  {
    if k == 0 {
      NothingYet(c);
    } else {
      ScheduleIsAccepted(c, k - 1);
      OneMoreTurn(c, k - 1, Schedule(c.participants, k - 1));
    }
  }

  // ----- The whole summary -----

  lemma {:induction false} SessionsStart(n: nat, k: nat)
    requires k <= n
    ensures Startup(n, Sessions(k)).Some? && StartedUpTo(Startup(n, Sessions(k)).value, k)
  {
    if k > 0 {
      SessionsStart(n, k - 1);
      OneMoreSession(n, Sessions(k - 1), k - 1);
    }
  }

  lemma OneMoreSession(n: nat, bootstraps: seq<Bootstrap>, p: nat)
    requires p < n && Startup(n, bootstraps).Some? && StartedUpTo(Startup(n, bootstraps).value, p)
    ensures Startup(n, bootstraps + [Session(p)]).Some?
    ensures StartedUpTo(Startup(n, bootstraps + [Session(p)]).value, p + 1)
  {
    assert (bootstraps + [Session(p)])[..|bootstraps|] == bootstraps;
  }

  lemma {:induction false} ScheduleAt(n: nat, k: nat, i: nat)
    requires i < k
    ensures Schedule(n, k)[i] == Turn(n, i)
  {
    if i < k - 1 {
      ScheduleAt(n, k - 1, i);
    }
  }

  /** The schedule is given in the order of its ticks. */
  lemma ScheduleIsOrdered(n: nat, k: nat)
    requires n >= 3 && k <= Length(n)
    ensures Ordered(Schedule(n, k)) == Schedule(n, k)
  {
    var ops := Schedule(n, k);
    forall i, j | 0 <= i < j < k ensures StartOf(ops[i]) <= StartOf(ops[j]) {
      ScheduleAt(n, k, i);
      ScheduleAt(n, k, j);
      TurnIsAtItsTick(n, i);
      TurnIsAtItsTick(n, j);
    }
    ReplayOrderIsDetermined(ops, ops);
  }

  lemma FinishesInTime(n: nat, p: int, stage: int)
    requires 0 <= p < n && 0 <= stage < STAGES
    ensures FinishOf(n, p, stage) < Length(n)
  {
  }

  lemma StagesAreFinished(n: nat, p: int, stages: set<int>)
    requires 0 <= p < n && StagedUpTo(n, p, stages, Length(n))
    ensures |stages| == STAGES
  {
    forall stage | 0 <= stage < STAGES ensures stage in stages {
      FinishesInTime(n, p, stage);
    }
    assert stages == Interval(0, STAGES);
  }

  lemma SessionsAreUsed(c: Settings, identifiers: set<int>, sessions: map<int, int>)
    requires Ordinary(c) && SeenUpTo(c.participants, identifiers, sessions, Length(c.participants))
    ensures |sessions| == |c.startup|
  {
    forall session ensures session in sessions.Keys <==> session in c.startup.Keys {
      assert session in sessions <==> 0 <= session < c.participants;
      assert session in c.startup <==> 0 <= session < c.participants;
    }
    assert sessions.Keys == c.startup.Keys;
  }

  lemma AllIsFinished(c: Settings, m: Monitor)
    requires Ordinary(c) && UpTo(c, m, Length(c.participants))
    ensures Finished(c, m) && m.lastFinished.Some?
  {
    forall stages | stages in m.finishedStages ensures |stages| == STAGES {
      var p :| 0 <= p < c.participants && m.finishedStages[p] == stages;
      StagesAreFinished(c.participants, p, stages);
    }
    SessionsAreUsed(c, m.identifiers, m.sessions);
  }

  lemma OrderedIsSummarized(n: nat, quorum: int, threshold: int, sequential: bool,
                            ops: seq<Operation>, bootstraps: seq<Bootstrap>)
    requires n >= 3 && ops != [] && Ordered(ops) == ops && Startup(n, bootstraps).Some?
    requires var c := SettingsOf(n, quorum, threshold, sequential, bootstraps);
             Accepted(c, ops) && Finished(c, StateAfter(c, ops)) && StateAfter(c, ops).lastFinished.Some?
    ensures Summarize(ops, n, quorum, threshold, sequential, bootstraps).Some?
  {
  }

  lemma OrdinaryRunIsAccepted(n: nat, quorum: int, threshold: int, sequential: bool)
    requires n >= 3 && quorum <= n && threshold <= n
    ensures Summarize(Schedule(n, Length(n)), n, quorum, threshold, sequential, Sessions(n)).Some?
  {
    SessionsStart(n, n);
    var c, ops := SettingsOf(n, quorum, threshold, sequential, Sessions(n)), Schedule(n, Length(n));
    ScheduleIsAccepted(c, Length(n));
    ScheduleIsOrdered(n, Length(n));
    AllIsFinished(c, StateAfter(c, ops));
    OrderedIsSummarized(n, quorum, threshold, sequential, ops, Sessions(n));
  }

  lemma CountIsAttained(c: Settings, ops: seq<Operation>, i: nat, message: Message, count: int)
    requires Accepted(c, ops) && i < |ops| && Effective(ops[i]) && Many(message, count, NOBODY) in Needs(c, ops[i])
    ensures count <= c.participants
  {
    NeedsHoldBefore(c, ops, i, Many(message, count, NOBODY));
    SubsetSize(Known(c, ops, i, message, NOBODY), Interval(0, c.participants));
  }

  lemma SharesAreReleased(op: Operation, p: int)
    requires By(ReleaseShare, p) in MarkedBy(op)
    ensures Effective(op) && op.kind == Release
  {
  }

  lemma ReleasedBefore(c: Settings, ops: seq<Operation>, i: nat) returns (j: nat)
    requires Accepted(c, ops) && i < |ops| && Effective(ops[i]) && ops[i].kind == ComputeResult
    ensures j < |ops| && Effective(ops[j]) && ops[j].kind == Release
  {
    var p := ops[i].position;
    NeedsHoldBefore(c, ops, i, One(By(ReleaseShare, p)));
    assert Before(ops, i, By(ReleaseShare, p));
    j :| Precedes(ops, j, i) && By(ReleaseShare, p) in MarkedBy(ops[j]);
    SharesAreReleased(ops[j], p);
  }

  lemma ResultAttainsCounts(c: Settings, ops: seq<Operation>, i: nat)
    requires Accepted(c, ops) && i < |ops| && Effective(ops[i]) && ops[i].kind == ComputeResult
    ensures c.releaseThreshold <= c.participants && c.quorum <= c.participants
  {
    CountIsAttained(c, ops, i, ReleaseShare, c.releaseThreshold);
    var j := ReleasedBefore(c, ops, i);
    CountIsAttained(c, ops, j, Target, c.quorum);
  }

  /** What an accepted trace says of the thresholds. */
  lemma CountsAreAttained(c: Settings, ops: seq<Operation>)
    requires Accepted(c, ops) && Finished(c, StateAfter(c, ops)) && c.participants >= 3
    ensures Attainable(c)
  {
    AllStagesFinished(c, ops, 0);
    var i := StageHasAnOperation(c, ops, 0, 7);
    ComputesInItsLastStage(ops[i]);
    ResultAttainsCounts(c, ops, i);
  }

  /**
   Some trace is accepted exactly while there are at least three participants and neither threshold
   asks for more than there are; the same traces are possible one operation at a time.
   */
  lemma SomeTraceIsAccepted(n: nat, quorum: int, threshold: int, sequential: bool)
    ensures (exists operations, bootstraps ::
               Summarize(operations, n, quorum, threshold, sequential, bootstraps).Some?)
       <==> n >= 3 && quorum <= n && threshold <= n
  {
    if n >= 3 && quorum <= n && threshold <= n {
      OrdinaryRunIsAccepted(n, quorum, threshold, sequential);
    }
    forall operations, bootstraps | Summarize(operations, n, quorum, threshold, sequential, bootstraps).Some?
      ensures n >= 3 && quorum <= n && threshold <= n
    {
      CountsAreAttained(SettingsOf(n, quorum, threshold, sequential, bootstraps), Ordered(operations));
    }
  }
}
