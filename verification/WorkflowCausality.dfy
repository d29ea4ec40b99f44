/** What an accepted trace says about the order of the protocol's messages. */
module WorkflowCausality {
  import opened Intervals
  import opened WorkflowModel

  predicate Accepted(c: Settings, ops: seq<Operation>) {
    Replay(c, ops).Some?
  }

  function StateAfter(c: Settings, ops: seq<Operation>): Monitor
    requires Accepted(c, ops)
  {
    Replay(c, ops).value
  }

  lemma LastAccepted(c: Settings, ops: seq<Operation>)
    requires Accepted(c, ops) && ops != []
    ensures var front, last := ops[..|ops| - 1], ops[|ops| - 1];
            && Accepted(c, front) && Accepts(c, StateAfter(c, front), last)
            && StateAfter(c, ops) == Advance(c, StateAfter(c, front), last)
  {
  }

  lemma {:induction false} PrefixIsAccepted(c: Settings, ops: seq<Operation>, k: nat)
    requires Accepted(c, ops) && k <= |ops|
    ensures Accepted(c, ops[..k])
  {
    if k == |ops| {
      assert ops[..k] == ops;
    } else {
      var front := ops[..|ops| - 1];
      LastAccepted(c, ops);
      PrefixIsAccepted(c, front, k);
      assert front[..k] == ops[..k];
    }
  }

  /** Every prefix of an accepted trace is accepted, and each operation in the state before it. */
  lemma PrefixAccepted(c: Settings, ops: seq<Operation>, k: nat)
    requires Accepted(c, ops) && k <= |ops|
    ensures Accepted(c, ops[..k])
    ensures k < |ops| ==>
      && Accepts(c, StateAfter(c, ops[..k]), ops[k])
      && Accepted(c, ops[..k + 1])
      && StateAfter(c, ops[..k + 1]) == Advance(c, StateAfter(c, ops[..k]), ops[k])
  {
    PrefixIsAccepted(c, ops, k);
    if k < |ops| {
      PrefixIsAccepted(c, ops, k + 1);
      LastAccepted(c, ops[..k + 1]);
      assert ops[..k + 1][..k] == ops[..k];
    }
  }

  // ----- Messages before an operation, in real time -----

  function MarkedBy(op: Operation): set<Event> {
    if Effective(op) then Marks(op) else {}
  }

  /** The operation at `j` finished before the one at `i` started, and comes earlier in the trace. */
  predicate Precedes(ops: seq<Operation>, j: nat, i: nat) {
    j < i < |ops| && ops[j].finished <= ops[i].started
  }

  /** A completed operation published the event before the operation at `i` started. */
  ghost predicate Before(ops: seq<Operation>, i: nat, event: Event) {
    exists j: nat :: Precedes(ops, j, i) && event in MarkedBy(ops[j])
  }

  /** The participants other than `omit` whose message was published before the operation at `i`. */
  ghost function Known(c: Settings, ops: seq<Operation>, i: nat, message: Message, omit: int): set<int> {
    set p | 0 <= p < c.participants && p != omit && Before(ops, i, By(message, p))
  }

  ghost predicate HoldsBefore(c: Settings, ops: seq<Operation>, i: nat, need: Need) {
    match need
    case One(event) => Before(ops, i, event)
    case Many(message, count, omit) => |Known(c, ops, i, message, omit)| >= count
  }

  /** Every published record comes from an operation of the trace that marks it. */
  ghost predicate PublishedByTrace(ops: seq<Operation>, m: Monitor) {
    forall event | event in m.published ::
      exists j: nat :: j < |ops| && ops[j] == m.published[event] && event in MarkedBy(ops[j])
  }

  lemma {:induction false} PublishedHistory(c: Settings, ops: seq<Operation>)
    requires Accepted(c, ops)
    ensures PublishedByTrace(ops, StateAfter(c, ops))
  {
    if ops != [] {
      var last := |ops| - 1;
      PublishedHistory(c, ops[..last]);
      var before, m := StateAfter(c, ops[..last]), StateAfter(c, ops);
      forall event | event in m.published
        ensures exists j: nat :: j < |ops| && ops[j] == m.published[event] && event in MarkedBy(ops[j])
      {
        if event in MarkedBy(ops[last]) {
          assert m.published[event] == ops[last];
        } else {
          assert event in before.published && m.published[event] == before.published[event];
          var j: nat :| j < last && ops[..last][j] == before.published[event] && event in MarkedBy(ops[..last][j]);
          assert ops[j] == m.published[event];
        }
      }
    }
  }

  /** What an accepted operation needs was published, and had finished, before it started. */
  lemma NeedsHoldBefore(c: Settings, ops: seq<Operation>, i: nat, need: Need)
    requires Accepted(c, ops) && i < |ops| && Effective(ops[i]) && need in Needs(c, ops[i])
    ensures HoldsBefore(c, ops, i, need)
  {
    PrefixAccepted(c, ops, i);
    PublishedHistory(c, ops[..i]);
    var m, op := StateAfter(c, ops[..i]), ops[i];
    assert Met(c, m, need, op.started);
    match need
    case One(event) =>
      PublishedIsBefore(c, ops, i, event);
    case Many(message, count, omit) =>
      forall p | p in Ready(c, m, message, omit, op.started)
        ensures p in Known(c, ops, i, message, omit) {
        PublishedIsBefore(c, ops, i, By(message, p));
        MarksOwnMessage(m.published[By(message, p)], message, p);
      }
      SubsetSize(Ready(c, m, message, omit, op.started), Known(c, ops, i, message, omit));
  }

  lemma PublishedIsBefore(c: Settings, ops: seq<Operation>, i: nat, event: Event)
    requires i < |ops| && Accepted(c, ops[..i]) && PublishedByTrace(ops[..i], StateAfter(c, ops[..i]))
    requires event in StateAfter(c, ops[..i]).published
    requires StateAfter(c, ops[..i]).published[event].finished <= ops[i].started
    ensures Before(ops, i, event) && event in MarkedBy(StateAfter(c, ops[..i]).published[event])
  {
    var m := StateAfter(c, ops[..i]);
    var j: nat :| j < i && ops[..i][j] == m.published[event] && event in MarkedBy(ops[..i][j]);
    assert Precedes(ops, j, i) && event in MarkedBy(ops[j]);
  }

  lemma MarksOwnMessage(op: Operation, message: Message, p: int)
    requires By(message, p) in MarkedBy(op)
    ensures op.position == p
  {
  }

  /** What acceptance says of the order of a trace: every need of every operation was met in time. */
  ghost predicate Causal(c: Settings, ops: seq<Operation>) {
    forall i: nat | i < |ops| :: InOrder(c, ops, i)
  }

  ghost predicate InOrder(c: Settings, ops: seq<Operation>, i: nat)
    requires i < |ops|
  {
    && ops[i].started <= ops[i].finished
    && (Effective(ops[i]) ==> forall need :: need in Needs(c, ops[i]) ==> HoldsBefore(c, ops, i, need))
  }

  lemma AcceptedIsCausal(c: Settings, ops: seq<Operation>)
    requires Accepted(c, ops)
    ensures Causal(c, ops)
  {
    forall i: nat | i < |ops| ensures InOrder(c, ops, i) {
      PrefixAccepted(c, ops, i);
      if Effective(ops[i]) {
        forall need | need in Needs(c, ops[i]) ensures HoldsBefore(c, ops, i, need) {
          NeedsHoldBefore(c, ops, i, need);
        }
      }
    }
  }

  // ----- Causality is transitive -----

  lemma BeforePasses(c: Settings, ops: seq<Operation>, j: nat, i: nat, event: Event)
    requires Causal(c, ops) && Precedes(ops, j, i) && Before(ops, j, event)
    ensures Before(ops, i, event)
  {
    assert InOrder(c, ops, j);
    var k: nat :| Precedes(ops, k, j) && event in MarkedBy(ops[k]);
    assert Precedes(ops, k, i);
  }

  lemma HoldsPasses(c: Settings, ops: seq<Operation>, j: nat, i: nat, need: Need)
    requires Causal(c, ops) && Precedes(ops, j, i) && HoldsBefore(c, ops, j, need)
    ensures HoldsBefore(c, ops, i, need)
  {
    match need
    case One(event) => BeforePasses(c, ops, j, i, event);
    case Many(message, count, omit) =>
      forall p | p in Known(c, ops, j, message, omit) ensures p in Known(c, ops, i, message, omit) {
        BeforePasses(c, ops, j, i, By(message, p));
      }
      SubsetSize(Known(c, ops, j, message, omit), Known(c, ops, i, message, omit));
  }

  /** What anyone who publishes an event needs. */
  function Behind(c: Settings, event: Event): set<Need> {
    match event
    case By(Created, p) => if p != 0 then {One(By(Registration, 0))} else {}
    case By(Registration, p) => {One(By(Created, p))}
    case ProposedRoster => {Many(Registration, c.participants, NOBODY)}
    case Roster => {One(ProposedRoster)}
    case By(AcceptedRoster, _) => {One(Roster)}
    case By(Confirmed, p) => {One(if p == 0 then Roster else By(AcceptedRoster, p))}
    case By(Offer, p) => {One(By(Confirmed, p))}
    case Selection => {Many(Offer, c.releaseThreshold, NOBODY)}
    case By(Endorsement, p) => {One(By(Confirmed, p))}
    case By(Setup, _) => {Many(Endorsement, c.quorum, NOBODY)}
    case By(Ballot, p) => {One(By(Setup, p))}
    case CloseIntent => {Many(Ballot, c.participants, NOBODY)}
    case By(Response, _) => {Many(Ballot, c.participants, NOBODY), One(CloseIntent)}
    case CloseProposal =>
      {Many(Ballot, c.participants, NOBODY), One(CloseIntent), Many(Response, c.quorum - 1, 0)}
    case By(Target, _) => {One(CloseProposal)}
    case By(ReleaseShare, p) => {Many(Target, c.quorum, NOBODY), One(By(Target, p))}
  }

  lemma BehindIsNeeded(c: Settings, op: Operation, event: Event)
    requires event in MarkedBy(op)
    ensures Behind(c, event) <= Needs(c, op)
  {
  }

  /** What stands behind an event held before whatever follows the event. */
  lemma Inherits(c: Settings, ops: seq<Operation>, i: nat, event: Event, need: Need)
    requires Causal(c, ops) && Before(ops, i, event) && need in Behind(c, event)
    ensures HoldsBefore(c, ops, i, need)
  {
    var j: nat :| Precedes(ops, j, i) && event in MarkedBy(ops[j]);
    BehindIsNeeded(c, ops[j], event);
    assert InOrder(c, ops, j);
    HoldsPasses(c, ops, j, i, need);
  }

  /** An endorsement follows the selection, whether it is the organizer's own or another's. */
  lemma EndorsementFollowsSelection(c: Settings, ops: seq<Operation>, i: nat, p: int)
    requires Causal(c, ops) && Before(ops, i, By(Endorsement, p))
    ensures Before(ops, i, Selection)
  {
    var j: nat :| Precedes(ops, j, i) && By(Endorsement, p) in MarkedBy(ops[j]);
    if ops[j].kind == EndorseSetup {
      assert InOrder(c, ops, j) && One(Selection) in Needs(c, ops[j]);
      HoldsPasses(c, ops, j, i, One(Selection));
    }
  }

  /** A confirmation follows the roster, directly for the organizer and by acceptance for the others. */
  lemma ConfirmationFollowsRoster(c: Settings, ops: seq<Operation>, i: nat, p: int)
    requires Causal(c, ops) && Before(ops, i, By(Confirmed, p))
    ensures Before(ops, i, Roster)
  {
    if p == 0 {
      Inherits(c, ops, i, By(Confirmed, p), One(Roster));
    } else {
      Inherits(c, ops, i, By(Confirmed, p), One(By(AcceptedRoster, p)));
      Inherits(c, ops, i, By(AcceptedRoster, p), One(Roster));
    }
  }

  lemma FullOfParticipants(n: nat, members: set<int>)
    requires forall p | p in members :: 0 <= p < n
    requires |members| >= n
    ensures members == Interval(0, n)
  {
    SubsetSize(members, Interval(0, n));
  }

  /** Everyone's message was published before the operation at `i`. */
  ghost predicate Everyone(c: Settings, ops: seq<Operation>, i: nat, message: Message) {
    forall p | 0 <= p < c.participants :: Before(ops, i, By(message, p))
  }

  lemma CountOfAll(c: Settings, ops: seq<Operation>, i: nat, message: Message)
    requires HoldsBefore(c, ops, i, Many(message, c.participants, NOBODY))
    ensures Everyone(c, ops, i, message)
  {
    FullOfParticipants(c.participants, Known(c, ops, i, message, NOBODY));
    forall p | 0 <= p < c.participants ensures Before(ops, i, By(message, p)) {
      assert p in Known(c, ops, i, message, NOBODY);
    }
  }

  lemma EveryoneInherits(c: Settings, ops: seq<Operation>, i: nat, message: Message, earlier: Message)
    requires Causal(c, ops) && Everyone(c, ops, i, message)
    requires forall p :: One(By(earlier, p)) in Behind(c, By(message, p))
    ensures Everyone(c, ops, i, earlier)
  {
    forall p | 0 <= p < c.participants ensures Before(ops, i, By(earlier, p)) {
      Inherits(c, ops, i, By(message, p), One(By(earlier, p)));
    }
  }

  lemma MemberOfMany(c: Settings, ops: seq<Operation>, i: nat, message: Message, count: int, omit: int) returns (p: int)
    requires count > 0 && HoldsBefore(c, ops, i, Many(message, count, omit))
    ensures p in Known(c, ops, i, message, omit)
  {
    p :| p in Known(c, ops, i, message, omit);
  }

  // ----- The protocol's chain, from the result back to the registrations -----

  /** What stands before any closing proposal. */
  lemma ProposalRestsOnBallots(c: Settings, ops: seq<Operation>, i: nat)
    requires Causal(c, ops) && Before(ops, i, CloseProposal)
    ensures Before(ops, i, CloseIntent)
    ensures |Known(c, ops, i, Response, 0)| >= c.quorum - 1
    ensures Everyone(c, ops, i, Ballot) && Everyone(c, ops, i, Setup)
  {
    Inherits(c, ops, i, CloseProposal, One(CloseIntent));
    Inherits(c, ops, i, CloseProposal, Many(Response, c.quorum - 1, 0));
    Inherits(c, ops, i, CloseProposal, Many(Ballot, c.participants, NOBODY));
    CountOfAll(c, ops, i, Ballot);
    EveryoneInherits(c, ops, i, Ballot, Setup);
  }

  /** What stands before any verified setup. */
  lemma SetupRestsOnRegistrations(c: Settings, ops: seq<Operation>, i: nat, p: int)
    requires Causal(c, ops) && Before(ops, i, By(Setup, p)) && c.quorum >= 1
    ensures |Known(c, ops, i, Endorsement, NOBODY)| >= c.quorum
    ensures Before(ops, i, Selection)
    ensures |Known(c, ops, i, Offer, NOBODY)| >= c.releaseThreshold
    ensures Before(ops, i, Roster) && Before(ops, i, ProposedRoster)
    ensures Everyone(c, ops, i, Registration) && Everyone(c, ops, i, Created)
  {
    Inherits(c, ops, i, By(Setup, p), Many(Endorsement, c.quorum, NOBODY));
    var endorser := MemberOfMany(c, ops, i, Endorsement, c.quorum, NOBODY);
    EndorsementFollowsSelection(c, ops, i, endorser);
    Inherits(c, ops, i, Selection, Many(Offer, c.releaseThreshold, NOBODY));
    RosterRestsOnRegistrations(c, ops, i);
  }

  lemma RosterRestsOnRegistrations(c: Settings, ops: seq<Operation>, i: nat)
    requires Causal(c, ops) && Before(ops, i, Selection)
    ensures Before(ops, i, Roster) && Before(ops, i, ProposedRoster)
    ensures Everyone(c, ops, i, Registration) && Everyone(c, ops, i, Created)
  {
    var j: nat :| Precedes(ops, j, i) && Selection in MarkedBy(ops[j]);
    var organizer := ops[j].position;
    assert InOrder(c, ops, j) && One(By(Confirmed, organizer)) in Needs(c, ops[j]);
    HoldsPasses(c, ops, j, i, One(By(Confirmed, organizer)));
    ConfirmationFollowsRoster(c, ops, i, organizer);
    Inherits(c, ops, i, Roster, One(ProposedRoster));
    Inherits(c, ops, i, ProposedRoster, Many(Registration, c.participants, NOBODY));
    CountOfAll(c, ops, i, Registration);
    EveryoneInherits(c, ops, i, Registration, Created);
  }

  lemma ReleaseRestsOnTargets(c: Settings, ops: seq<Operation>, i: nat, p: int)
    requires Causal(c, ops) && Before(ops, i, By(ReleaseShare, p))
    ensures Before(ops, i, By(Target, p)) && |Known(c, ops, i, Target, NOBODY)| >= c.quorum
    ensures Before(ops, i, CloseProposal)
  {
    Inherits(c, ops, i, By(ReleaseShare, p), One(By(Target, p)));
    Inherits(c, ops, i, By(ReleaseShare, p), Many(Target, c.quorum, NOBODY));
    Inherits(c, ops, i, By(Target, p), One(CloseProposal));
  }

  /** The records that stand, finished, before the operation at `i`: the protocol from end to start. */
  ghost predicate RestsOnTheWholeProtocol(c: Settings, ops: seq<Operation>, i: nat)
    requires i < |ops|
  {
    && Before(ops, i, By(ReleaseShare, ops[i].position)) && Before(ops, i, By(Target, ops[i].position))
    && |Known(c, ops, i, ReleaseShare, NOBODY)| >= c.releaseThreshold
    && |Known(c, ops, i, Target, NOBODY)| >= c.quorum
    && Before(ops, i, CloseProposal) && Before(ops, i, CloseIntent)
    && |Known(c, ops, i, Response, 0)| >= c.quorum - 1
    && Everyone(c, ops, i, Ballot) && Everyone(c, ops, i, Setup)
    && |Known(c, ops, i, Endorsement, NOBODY)| >= c.quorum
    && Before(ops, i, Selection) && |Known(c, ops, i, Offer, NOBODY)| >= c.releaseThreshold
    && Before(ops, i, Roster) && Before(ops, i, ProposedRoster)
    && Everyone(c, ops, i, Registration) && Everyone(c, ops, i, Created)
  }

  /**
   In every accepted trace a completed result rests, in real time, on the whole protocol: its own
   release and a threshold of releases, a quorum of target signers, the closing proposal and intent,
   the other members' responses, everyone's ballot and verified setup, a quorum of endorsers, the
   selection, a threshold of offers, the roster, and everyone's registration.
   */
  lemma ResultRestsOnTheWholeProtocol(c: Settings, ops: seq<Operation>, i: nat)
    requires Accepted(c, ops) && i < |ops| && Effective(ops[i]) && ops[i].kind == ComputeResult
    requires c.quorum >= 1 && c.participants >= 3
    ensures RestsOnTheWholeProtocol(c, ops, i)
  {
    AcceptedIsCausal(c, ops);
    CausalResult(c, ops, i);
  }

  lemma CausalResult(c: Settings, ops: seq<Operation>, i: nat)
    requires Causal(c, ops) && i < |ops| && Effective(ops[i]) && ops[i].kind == ComputeResult
    requires c.quorum >= 1 && c.participants >= 3
    ensures RestsOnTheWholeProtocol(c, ops, i)
  {
    var p := ops[i].position;
    assert InOrder(c, ops, i);
    assert HoldsBefore(c, ops, i, Many(ReleaseShare, c.releaseThreshold, NOBODY));
    assert HoldsBefore(c, ops, i, One(By(ReleaseShare, p)));
    ReleaseRestsOnTargets(c, ops, i, p);
    ProposalRestsOnBallots(c, ops, i);
    SetupRestsOnRegistrations(c, ops, i, 0);
  }

  /** The cohort's own records are only ever published by the organizer, at position 0. */
  lemma CohortRecordsAreTheOrganizers(c: Settings, ops: seq<Operation>, j: nat, event: Event)
    requires Accepted(c, ops) && j < |ops| && event in MarkedBy(ops[j]) && !event.By?
    ensures ops[j].position == 0
  {
    PrefixAccepted(c, ops, j);
    assert Legal(ops[j]);
  }

  // ----- The recorded dependencies -----

  ghost predicate IdentifiedByTrace(ops: seq<Operation>, m: Monitor) {
    && (forall j | 0 <= j < |ops| :: ops[j].id in m.identifiers)
    && (forall j, k | 0 <= j < k < |ops| :: ops[j].id != ops[k].id)
  }

  lemma {:induction false} IdentifierHistory(c: Settings, ops: seq<Operation>)
    requires Accepted(c, ops)
    ensures IdentifiedByTrace(ops, StateAfter(c, ops))
  {
    if ops != [] {
      var last := |ops| - 1;
      IdentifierHistory(c, ops[..last]);
      NewIdentifier(StateAfter(c, ops[..last]).identifiers, ops[..last], ops[last]);
      assert StateAfter(c, ops).identifiers == StateAfter(c, ops[..last]).identifiers + {ops[last].id};
      assert ops == ops[..last] + [ops[last]];
    }
  }

  lemma NewIdentifier(identifiers: set<int>, ops: seq<Operation>, op: Operation)
    requires forall j | 0 <= j < |ops| :: ops[j].id in identifiers
    requires forall j, k | 0 <= j < k < |ops| :: ops[j].id != ops[k].id
    requires op.id !in identifiers
    ensures forall j, k | 0 <= j < k < |ops + [op]| :: (ops + [op])[j].id != (ops + [op])[k].id
  {
  }

  lemma {:induction false} TracedLength(c: Settings, ops: seq<Operation>)
    requires Accepted(c, ops)
    ensures |StateAfter(c, ops).traced| == |ops|
  {
    if ops != [] {
      TracedLength(c, ops[..|ops| - 1]);
    }
  }

  /** What the trace records of an operation, in the state before it. */
  ghost predicate RecordedIn(c: Settings, m: Monitor, op: Operation, traced: Traced) {
    && Shaped(c, m) && Accepts(c, m, op)
    && traced == Traced(op, BootstrapCost(c, m, op), Dependencies(c, m, op))
  }

  lemma LastTraced(c: Settings, ops: seq<Operation>)
    requires Accepted(c, ops) && ops != []
    ensures var m, traced, last := StateAfter(c, ops[..|ops| - 1]), StateAfter(c, ops).traced, |ops| - 1;
            && |traced| > 0 && traced == m.traced + [traced[|traced| - 1]]
            && RecordedIn(c, m, ops[last], traced[|traced| - 1])
  {
  }

  /** The records of a prefix are the prefix of the records. */
  lemma {:induction false} TracedPrefix(c: Settings, ops: seq<Operation>, k: nat)
    requires Accepted(c, ops) && k <= |ops|
    ensures Accepted(c, ops[..k])
    ensures |StateAfter(c, ops).traced| == |ops| && StateAfter(c, ops[..k]).traced == StateAfter(c, ops).traced[..k]
  {
    TracedLength(c, ops);
    if k == |ops| {
      assert ops[..k] == ops;
    } else {
      var last := |ops| - 1;
      LastTraced(c, ops);
      TracedPrefix(c, ops[..last], k);
      assert ops[..last][..k] == ops[..k];
    }
  }

  lemma TracedHistory(c: Settings, ops: seq<Operation>, i: nat)
    requires Accepted(c, ops) && i < |ops|
    ensures Accepted(c, ops[..i]) && i < |StateAfter(c, ops).traced|
    ensures RecordedIn(c, StateAfter(c, ops[..i]), ops[i], StateAfter(c, ops).traced[i])
  {
    TracedPrefix(c, ops, i + 1);
    var upTo := ops[..i + 1];
    TracedLength(c, upTo);
    LastTraced(c, upTo);
    assert upTo[..|upTo| - 1] == ops[..i];
  }

  /** A recorded dependency names one operation, which is earlier and had finished before. */
  predicate DependsOn(c: Settings, ops: seq<Operation>, i: nat, j: nat)
    requires Accepted(c, ops)
  {
    var traced := StateAfter(c, ops).traced;
    i < |traced| && j < |ops| && ops[j].id in traced[i].dependencies
  }

  lemma DependencyEvent(c: Settings, m: Monitor, op: Operation, id: int) returns (event: Event)
    requires Shaped(c, m) && Accepts(c, m, op) && id in Dependencies(c, m, op)
    ensures event in m.published && m.published[event].id == id && m.published[event].finished <= op.started
  {
    var need :| need in Needs(c, op) && id in Producers(c, m, need, op.started);
    event := ProducerEvent(c, m, need, op.started, id);
  }

  lemma DependenciesPrecede(c: Settings, ops: seq<Operation>, i: nat, j: nat)
    requires Accepted(c, ops) && i < |ops| && DependsOn(c, ops, i, j)
    ensures Precedes(ops, j, i) && Effective(ops[j])
  {
    TracedHistory(c, ops, i);
    PublishedHistory(c, ops[..i]);
    var m := StateAfter(c, ops[..i]);
    var event := DependencyEvent(c, m, ops[i], ops[j].id);
    var k := PublishedAt(ops[..i], m, event);
    SameIdentity(c, ops, j, k);
  }

  lemma PublishedAt(ops: seq<Operation>, m: Monitor, event: Event) returns (k: nat)
    requires PublishedByTrace(ops, m) && event in m.published
    ensures k < |ops| && ops[k] == m.published[event] && event in MarkedBy(ops[k])
  {
    k :| k < |ops| && ops[k] == m.published[event] && event in MarkedBy(ops[k]);
  }

  lemma SameIdentity(c: Settings, ops: seq<Operation>, j: nat, k: nat)
    requires Accepted(c, ops) && j < |ops| && k < |ops| && ops[j].id == ops[k].id
    ensures j == k
  {
    IdentifierHistory(c, ops);
  }

  lemma ProducerEvent(c: Settings, m: Monitor, need: Need, at: int, id: int) returns (event: Event)
    requires Met(c, m, need, at) && id in Producers(c, m, need, at)
    ensures event in m.published && m.published[event].id == id && m.published[event].finished <= at
  {
    match need
    case One(e) => event := e;
    case Many(message, _, omit) =>
      var p :| p in Ready(c, m, message, omit, at) && m.published[By(message, p)].id == id;
      event := By(message, p);
  }

  /** Along any chain of recorded dependencies the trace index strictly falls, so there is no cycle. */
  lemma {:induction false} DependenciesAreAcyclic(c: Settings, ops: seq<Operation>, chain: seq<nat>)
    requires Accepted(c, ops) && |chain| >= 2
    requires forall k | 0 <= k < |chain| :: chain[k] < |ops|
    requires forall k | 0 <= k < |chain| - 1 :: DependsOn(c, ops, chain[k], chain[k + 1])
    ensures chain[|chain| - 1] < chain[0] && ops[chain[|chain| - 1]].finished <= ops[chain[0]].started
  {
    var last := |chain| - 1;
    DependenciesPrecede(c, ops, chain[last - 1], chain[last]);
    if |chain| > 2 {
      DependenciesAreAcyclic(c, ops, chain[..last]);
      PrefixAccepted(c, ops, chain[last - 1]);
    }
  }
}
