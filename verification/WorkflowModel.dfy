/**
 The workflow trace checker as a specification: which operation the monitor accepts in which
 state, what an accepted operation publishes, and what it is charged.
 */
module WorkflowModel {
  import opened Basics
  import opened Ordering

  datatype Kind =
    | Create | Publish | ProposeRoster | AcceptRoster | Confirm | Contribute | SelectSetup
    | EndorseSetup | VerifySetup | CastBallot | Close | SignTarget | Release | ComputeResult | Status
    | Unknown

  datatype Outcome = Completed | Pending | Refused | Stopped | Interrupted

  datatype Memory = Memory(workerBytes: int, helperBytes: int, arenaBytes: int)

  datatype Operation = Operation(
    id: int,
    position: int,
    kind: Kind,
    session: int,
    stages: seq<int>,
    outcome: Outcome,
    started: int,
    finished: int,
    generation: Option<int>,
    memories: seq<Memory>
  )

  datatype Bootstrap = Bootstrap(session: int, position: int, started: int, finished: int)

  /** The messages of which each participant publishes its own. */
  datatype Message =
    | Created | Registration | AcceptedRoster | Confirmed | Offer | Endorsement | Setup | Ballot
    | Response | Target | ReleaseShare

  datatype Event =
    | By(message: Message, position: int)
    | ProposedRoster | Roster | Selection | CloseIntent | CloseProposal

  /** What an operation must find published and finished before it starts. */
  datatype Need = One(event: Event) | Many(message: Message, count: int, omit: int)

  const NOBODY := -1
  const STAGES := 8

  datatype Settings = Settings(
    participants: nat,
    quorum: int,            // the inventory certificate threshold
    releaseThreshold: int,  // the result release threshold
    sequential: bool,
    startup: map<int, Bootstrap>
  )

  // ----- The protocol's table -----

  predicate Allowed(stage: int, kind: Kind) {
    match kind
    case Create => stage == 0
    case Publish => stage == 0 || stage == 1
    case ProposeRoster => stage == 1
    case AcceptRoster => stage == 1
    case Confirm => stage == 1
    case Contribute => stage == 1
    case SelectSetup => stage == 2
    case EndorseSetup => stage == 2
    case VerifySetup => stage == 3
    case CastBallot => stage == 3
    case Close => stage == 4 || stage == 5
    case SignTarget => stage == 5
    case Release => stage == 6
    case ComputeResult => stage == 7
    case Status => true
    case Unknown => false
  }

  /** The one operation that spans two stages: the organizer's closing proposal. */
  predicate Crossing(op: Operation) {
    op.position == 0 && op.kind == Close && op.stages == [4, 5]
  }

  predicate Effective(op: Operation) {
    op.outcome == Completed && op.kind != Status
  }

  predicate InFirstStage(op: Operation) {
    op.stages != [] && op.stages[|op.stages| - 1] == 0
  }

  predicate ClosesIntent(op: Operation) {
    op.kind == Close && !Crossing(op) && op.position == 0 && op.generation == Some(19)
  }

  predicate Responds(op: Operation) {
    op.kind == Close && !Crossing(op) && op.position != 0 && op.generation == Some(21)
  }

  /** Who may complete the operation, and at which generation. */
  predicate Legal(op: Operation) {
    match op.kind
    case Create => InFirstStage(op)
    case Publish => InFirstStage(op) || op.position == 0
    case ProposeRoster => op.position == 0
    case AcceptRoster => op.position != 0
    case SelectSetup => op.position == 0
    case VerifySetup => op.generation == Some(12)
    case CastBallot => op.generation == Some(17)
    case Close =>
      if Crossing(op) then op.generation == Some(22)
      else ClosesIntent(op) || Responds(op) || op.generation == Some(17)
    case SignTarget => op.generation == Some(24)
    case Release => op.generation == Some(29)
    case _ => true
  }

  function Needs(c: Settings, op: Operation): set<Need> {
    var p := op.position;
    match op.kind
    case Create => if p != 0 then {One(By(Registration, 0))} else {}
    case Publish => if InFirstStage(op) then {One(By(Created, p))} else {One(ProposedRoster)}
    case ProposeRoster => {Many(Registration, c.participants, NOBODY)}
    case AcceptRoster => {One(Roster)}
    case Confirm => {One(if p == 0 then Roster else By(AcceptedRoster, p))}
    case Contribute => {One(By(Confirmed, p))}
    case SelectSetup => {One(By(Confirmed, p)), Many(Offer, c.releaseThreshold, NOBODY)}
    case EndorseSetup => {One(By(Confirmed, p)), One(Selection)}
    case VerifySetup => {Many(Endorsement, c.quorum, NOBODY)}
    case CastBallot => {One(By(Setup, p))}
    case Close =>
      {Many(Ballot, c.participants, NOBODY)}
      + (if Crossing(op) then {One(CloseIntent), Many(Response, c.quorum - 1, 0)}
         else if Responds(op) then {One(CloseIntent)} else {})
    case SignTarget => {One(CloseProposal)}
    case Release => {Many(Target, c.quorum, NOBODY), One(By(Target, p))}
    case ComputeResult => {Many(ReleaseShare, c.releaseThreshold, NOBODY), One(By(ReleaseShare, p))}
    case _ => {}
  }

  function Marks(op: Operation): set<Event> {
    var p := op.position;
    match op.kind
    case Create => {By(Created, p)}
    case Publish => if InFirstStage(op) then {By(Registration, p)} else {Roster}
    case ProposeRoster => {ProposedRoster}
    case AcceptRoster => {By(AcceptedRoster, p)}
    case Confirm => {By(Confirmed, p)}
    case Contribute => {By(Offer, p)}
    case SelectSetup => {Selection, By(Endorsement, p)}
    case EndorseSetup => {By(Endorsement, p)}
    case VerifySetup => {By(Setup, p)}
    case CastBallot => {By(Ballot, p)}
    case Close =>
      if Crossing(op) then {CloseProposal}
      else if ClosesIntent(op) then {CloseIntent}
      else if Responds(op) then {By(Response, p)} else {}
    case SignTarget => {By(Target, p)}
    case Release => {By(ReleaseShare, p)}
    case _ => {}
  }

  function Finishes(op: Operation): set<int> {
    match op.kind
    case Publish => if InFirstStage(op) then {0} else {}
    case Confirm => {1}
    case SelectSetup => {2}
    case EndorseSetup => {2}
    case CastBallot => {3}
    case Close => if Crossing(op) || Responds(op) then {4} else {}
    case SignTarget => {5}
    case Release => {6}
    case ComputeResult => {7}
    case _ => {}
  }

  // ----- The monitor -----

  datatype Visit = Visit(operationIds: seq<int>, sessions: set<int>, upperBound: int)

  datatype Participant = Participant(
    active: int, bootstrap: int, attempts: nat, peakBytes: Option<int>, visits: seq<Visit>)

  datatype Traced = Traced(operation: Operation, bootstrap: int, dependencies: set<int>)

  datatype Monitor = Monitor(
    identifiers: set<int>,
    sessions: map<int, int>,
    published: map<Event, Operation>,
    latest: seq<Option<int>>,       // none: nothing yet, before every time
    lastFinished: Option<int>,
    finishedStages: seq<set<int>>,
    byParticipant: seq<Participant>,
    active: int,
    bootstrap: int,
    traced: seq<Traced>
  )

  function Start(c: Settings): Monitor {
    Monitor({}, map[], map[],
            seq(c.participants, _ => None), None, seq(c.participants, _ => {}),
            seq(c.participants, _ => Participant(0, 0, 0, None, seq(STAGES, _ => Visit([], {}, 0)))),
            0, 0, [])
  }

  predicate Shaped(c: Settings, m: Monitor) {
    && |m.latest| == |m.finishedStages| == |m.byParticipant| == c.participants
    && forall p | 0 <= p < c.participants :: |m.byParticipant[p].visits| == STAGES
  }

  predicate NotBefore(start: int, time: Option<int>) {
    time.Some? ==> start >= time.value
  }

  /** The published producers an operation may count on, by their positions. */
  function Ready(c: Settings, m: Monitor, message: Message, omit: int, at: int): set<int> {
    set p | 0 <= p < c.participants && By(message, p) in m.published
            && m.published[By(message, p)].position != omit && m.published[By(message, p)].finished <= at
  }

  predicate Met(c: Settings, m: Monitor, need: Need, at: int) {
    match need
    case One(event) => event in m.published && m.published[event].finished <= at
    case Many(message, count, omit) => |Ready(c, m, message, omit, at)| >= count
  }

  /** The identities of the producers a need is charged to. */
  function Producers(c: Settings, m: Monitor, need: Need, at: int): set<int>
    requires Met(c, m, need, at)
  {
    match need
    case One(event) => {m.published[event].id}
    case Many(message, _, omit) =>
      set p | p in Ready(c, m, message, omit, at) :: m.published[By(message, p)].id
  }

  predicate SafeMemory(memory: Memory) {
    && 0 <= memory.workerBytes <= MAX_SAFE
    && 0 <= memory.helperBytes <= MAX_SAFE
    && 0 <= memory.arenaBytes <= MAX_SAFE
  }

  function Combined(memory: Memory): int {
    memory.workerBytes + memory.helperBytes + memory.arenaBytes
  }

  predicate StageOk(m: Monitor, op: Operation, stage: int)
    requires 0 <= op.position < |m.finishedStages|
  {
    && 0 <= stage < STAGES
    && Allowed(stage, op.kind)
    && (forall prior | 0 <= prior < stage ::
          prior in m.finishedStages[op.position] || (Crossing(op) && prior == 4))
    && stage + 1 !in m.finishedStages[op.position]
  }

  function EffectiveStart(c: Settings, m: Monitor, op: Operation): int
    requires op.session in c.startup
  {
    if op.session !in m.sessions then c.startup[op.session].started else op.started
  }

  function BootstrapCost(c: Settings, m: Monitor, op: Operation): int
    requires op.session in c.startup
  {
    if op.session !in m.sessions then c.startup[op.session].finished - c.startup[op.session].started else 0
  }

  /** The checks on an operation's identity, its session and its times. */
  predicate Timely(c: Settings, m: Monitor, op: Operation)
    requires Shaped(c, m)
  {
    && op.id >= 0 && op.id !in m.identifiers
    && 0 <= op.position < c.participants
    && op.session >= 0 && op.session in c.startup && c.startup[op.session].position == op.position
    && (op.session !in m.sessions ==> c.startup[op.session].finished <= op.started)
    && (op.session in m.sessions ==> m.sessions[op.session] == op.position)
    && op.started <= op.finished
    && NotBefore(EffectiveStart(c, m, op), m.latest[op.position])
    && (c.sequential ==> NotBefore(EffectiveStart(c, m, op), m.lastFinished))
  }

  /** Every assertion the loop body makes about one operation. */
  predicate Accepts(c: Settings, m: Monitor, op: Operation)
    requires Shaped(c, m)
  {
    && Timely(c, m, op)
    && (|op.stages| == 1 || Crossing(op))
    && (forall stage | stage in op.stages :: StageOk(m, op, stage))
    && (Effective(op) ==> Legal(op) && AllMet(c, m, op))
    && (forall memory | memory in op.memories :: SafeMemory(memory))
  }

  function Later(a: Option<int>, b: int): int {
    if a.Some? && a.value > b then a.value else b
  }

  function Peak(peak: Option<int>, memories: seq<Memory>): Option<int> {
    if memories == [] then peak
    else
      var rest := Peak(peak, memories[..|memories| - 1]);
      var highest := if rest.Some? then rest.value else 0;
      var bytes := Combined(memories[|memories| - 1]);
      Some(if bytes > highest then bytes else highest)
  }

  predicate AllMet(c: Settings, m: Monitor, op: Operation) {
    forall need | need in Needs(c, op) :: Met(c, m, need, op.started)
  }

  function ProducersOfAll(c: Settings, m: Monitor, op: Operation): set<int>
    requires AllMet(c, m, op)
  {
    set need, id | need in Needs(c, op) && id in Producers(c, m, need, op.started) :: id
  }

  function Dependencies(c: Settings, m: Monitor, op: Operation): set<int>
    requires Shaped(c, m) && Accepts(c, m, op)
  {
    if Effective(op) then ProducersOfAll(c, m, op) else {}
  }

  function Charge(participant: Participant, op: Operation, bootstrapCost: int): Participant
    requires |participant.visits| == STAGES
  {
    var milliseconds := op.finished - op.started;
    Participant(
      participant.active + milliseconds,
      participant.bootstrap + bootstrapCost,
      participant.attempts + 1,
      Peak(participant.peakBytes, op.memories),
      seq(STAGES, stage requires 0 <= stage < STAGES =>
        var visit := participant.visits[stage];
        if stage in op.stages then
          Visit(visit.operationIds + [op.id], visit.sessions + {op.session},
                visit.upperBound + (milliseconds + bootstrapCost))
        else visit))
  }

  /** The monitor after it accepts an operation. */
  function Advance(c: Settings, m: Monitor, op: Operation): Monitor
    requires Shaped(c, m) && Accepts(c, m, op)
  {
    var p := op.position;
    var bootstrapCost := BootstrapCost(c, m, op);
    Monitor(
      m.identifiers + {op.id},
      m.sessions[op.session := p],
      if Effective(op) then m.published + (map event | event in Marks(op) :: op) else m.published,
      m.latest[p := Some(op.finished)],
      Some(Later(m.lastFinished, op.finished)),
      if Effective(op) then m.finishedStages[p := m.finishedStages[p] + Finishes(op)] else m.finishedStages,
      m.byParticipant[p := Charge(m.byParticipant[p], op, bootstrapCost)],
      m.active + (op.finished - op.started),
      m.bootstrap + bootstrapCost,
      m.traced + [Traced(op, bootstrapCost, Dependencies(c, m, op))])
  }

  /** The monitor after a whole list of operations, none if any of them is rejected. */
  function Replay(c: Settings, ops: seq<Operation>): (r: Option<Monitor>)
    ensures r.Some? ==> Shaped(c, r.value)
  {
    if ops == [] then Some(Start(c))
    else
      var before := Replay(c, ops[..|ops| - 1]);
      var op := ops[|ops| - 1];
      if before.Some? && Accepts(c, before.value, op) then Some(Advance(c, before.value, op)) else None
  }

  // ----- The whole summary -----

  predicate BootstrapOk(participants: nat, bootstrap: Bootstrap) {
    && bootstrap.session >= 0
    && 0 <= bootstrap.position < participants
    && bootstrap.started <= bootstrap.finished
  }

  /** The bootstraps by session, none if one is malformed or a session has two. */
  function Startup(participants: nat, bootstraps: seq<Bootstrap>): Option<map<int, Bootstrap>> {
    if bootstraps == [] then Some(map[])
    else
      var before := Startup(participants, bootstraps[..|bootstraps| - 1]);
      var bootstrap := bootstraps[|bootstraps| - 1];
      if before.Some? && bootstrap.session !in before.value && BootstrapOk(participants, bootstrap)
      then Some(before.value[bootstrap.session := bootstrap]) else None
  }

  /** Every measured stage of every participant finished, and every bootstrap was used. */
  predicate Finished(c: Settings, m: Monitor) {
    && (forall stages | stages in m.finishedStages :: |stages| == STAGES)
    && |m.sessions| == |c.startup|
  }

  function Earliest(start: int, bootstraps: seq<Bootstrap>): int {
    if bootstraps == [] then start
    else
      var before := Earliest(start, bootstraps[..|bootstraps| - 1]);
      var started := bootstraps[|bootstraps| - 1].started;
      if started < before then started else before
  }

  datatype Summary = Summary(monitor: Monitor, cohortWall: int, sequentialCompletion: Option<int>)

  /** What follows the loop: the final checks and the times. */
  function Conclude(c: Settings, m: Monitor, first: int, bootstraps: seq<Bootstrap>): Option<Summary> {
    if !Finished(c, m) || m.lastFinished.None? then None
    else
      var wall := m.lastFinished.value - Earliest(first, bootstraps);
      Some(Summary(m, wall, if c.sequential then Some(wall) else None))
  }

  /** The summary of a trace, none if any assertion fails. */
  function Summarize(
    operations: seq<Operation>, participants: nat, quorum: int, releaseThreshold: int,
    sequential: bool, bootstraps: seq<Bootstrap>
  ): Option<Summary>
  {
    var startup := Startup(participants, bootstraps);
    if operations == [] || participants < 3 || startup.None? then None
    else
      var c := Settings(participants, quorum, releaseThreshold, sequential, startup.value);
      var ordered := Ordered(operations);
      var m := Replay(c, ordered);
      SortSorts(operations, StartOf);
      if m.None? then None else Conclude(c, m.value, ordered[0].started, bootstraps)
  }

  function Ordered(operations: seq<Operation>): seq<Operation> {
    Sort(operations, StartOf)
  }

  function StartOf(op: Operation): int {
    op.started
  }
}
