/** What the workflow summary reports of each participant beyond its sums. */
module WorkflowReports {
  import opened Intervals
  import opened WorkflowModel
  import opened WorkflowCausality
  import opened WorkflowCosts

  /** The browser sessions of some visits. */
  function SessionsOf(visits: seq<Visit>): set<int> {
    set visit, session | visit in visits && session in visit.sessions :: session
  }

  /** The participant's own sessions among those a monitor has seen. */
  function OwnSessions(sessions: map<int, int>, p: int): set<int> {
    set session | session in sessions && sessions[session] == p
  }

  /** A charge adds the operation's session, in the stage or stages it belongs to. */
  lemma ChargeAddsSession(participant: Participant, op: Operation, bootstrapCost: int)
    requires |participant.visits| == STAGES
    requires op.stages != [] && forall stage | stage in op.stages :: 0 <= stage < STAGES
    ensures SessionsOf(Charge(participant, op, bootstrapCost).visits) == SessionsOf(participant.visits) + {op.session}
  {
    var visits, visits' := participant.visits, Charge(participant, op, bootstrapCost).visits;
    forall session | session in SessionsOf(visits) + {op.session} ensures session in SessionsOf(visits') {
      if session in SessionsOf(visits) {
        var visit :| visit in visits && session in visit.sessions;
        var stage :| 0 <= stage < STAGES && visits[stage] == visit;
        assert session in visits'[stage].sessions && visits'[stage] in visits';
      } else {
        var stage := op.stages[0];
        assert stage in op.stages && session == op.session;
        assert session in visits'[stage].sessions && visits'[stage] in visits';
      }
    }
    forall session | session in SessionsOf(visits') ensures session in SessionsOf(visits) + {op.session} {
      var visit :| visit in visits' && session in visit.sessions;
      var stage :| 0 <= stage < STAGES && visits'[stage] == visit;
      assert visits[stage] in visits;
    }
  }

  lemma StagesInRange(c: Settings, m: Monitor, op: Operation)
    requires Shaped(c, m) && Accepts(c, m, op)
    ensures op.stages != [] && forall stage | stage in op.stages :: 0 <= stage < STAGES
  {
    forall stage | stage in op.stages ensures 0 <= stage < STAGES {
      assert StageOk(m, op, stage);
    }
  }

  lemma {:induction false} VisitedSessions(c: Settings, ops: seq<Operation>, p: int)
    requires Accepted(c, ops) && 0 <= p < c.participants
    ensures SessionsOf(StateAfter(c, ops).byParticipant[p].visits) == OwnSessions(StateAfter(c, ops).sessions, p)
  {
    if ops != [] {
      var before, m, op := StateAfter(c, ops[..|ops| - 1]), StateAfter(c, ops), ops[|ops| - 1];
      VisitedSessions(c, ops[..|ops| - 1], p);
      AdvanceRecords(c, ops);
      StagesInRange(c, before, op);
      if op.position == p {
        ChargeAddsSession(before.byParticipant[p], op, BootstrapCost(c, before, op));
      }
      SessionJoins(before.sessions, op.session, op.position, p);
    } else {
      assert SessionsOf(StateAfter(c, ops).byParticipant[p].visits) == {};
    }
  }

  lemma SessionJoins(sessions: map<int, int>, session: int, position: int, p: int)
    requires session in sessions ==> sessions[session] == position
    ensures OwnSessions(sessions[session := position], p) ==
            OwnSessions(sessions, p) + if position == p then {session} else {}
  {
  }

  /** Every session seen is a bootstrap's, at the position it was started for. */
  lemma {:induction false} SessionsAreStarted(c: Settings, ops: seq<Operation>)
    requires Accepted(c, ops)
    ensures forall session | session in StateAfter(c, ops).sessions ::
              session in c.startup && StateAfter(c, ops).sessions[session] == c.startup[session].position
  {
    if ops != [] {
      SessionsAreStarted(c, ops[..|ops| - 1]);
      AdvanceRecords(c, ops);
    }
  }

  function StartedFor(c: Settings, p: int): set<int> {
    set session | session in c.startup && c.startup[session].position == p
  }

  lemma SameSessions(c: Settings, sessions: map<int, int>, p: int)
    requires sessions.Keys == c.startup.Keys
    requires forall session | session in sessions ::
               session in c.startup && sessions[session] == c.startup[session].position
    ensures OwnSessions(sessions, p) == StartedFor(c, p)
  {
    forall session | session in StartedFor(c, p) ensures session in OwnSessions(sessions, p) {
      assert session in sessions.Keys;
    }
    forall session | session in OwnSessions(sessions, p) ensures session in StartedFor(c, p) {
      assert session in c.startup;
    }
  }

  /** On acceptance a participant's visited sessions are exactly those whose bootstraps were given for it. */
  lemma SessionsAreTheBootstraps(c: Settings, ops: seq<Operation>, p: int)
    requires Accepted(c, ops) && Finished(c, StateAfter(c, ops)) && 0 <= p < c.participants
    ensures SessionsOf(StateAfter(c, ops).byParticipant[p].visits) == StartedFor(c, p)
  {
    var m := StateAfter(c, ops);
    VisitedSessions(c, ops, p);
    SessionsAreStarted(c, ops);
    forall session | session in m.sessions.Keys ensures session in c.startup.Keys {
      assert session in m.sessions;
    }
    SubsetSize(m.sessions.Keys, c.startup.Keys);
    SameSessions(c, m.sessions, p);
  }

  lemma SessionsAdd(visits: seq<Visit>, visit: Visit)
    ensures SessionsOf(visits + [visit]) == SessionsOf(visits) + visit.sessions
  {
    var more := visits + [visit];
    forall session | session in SessionsOf(visits) + visit.sessions ensures session in SessionsOf(more) {
      if session in visit.sessions {
        assert visit in more;
      } else {
        var earlier :| earlier in visits && session in earlier.sessions;
        assert earlier in more;
      }
    }
  }

  /** What the summary shows of a participant's visits. */
  datatype Display = Display(browserSessions: nat, maximum: int)

  /** The number of distinct sessions, and the largest bound of any visit. */
  predicate Shows(visits: seq<Visit>, display: Display) {
    && display.browserSessions == |SessionsOf(visits)|
    && (forall visit | visit in visits :: visit.upperBound <= display.maximum)
    && exists visit :: visit in visits && visit.upperBound == display.maximum
  }

  method Report(visits: seq<Visit>) returns (display: Display)
    requires visits != []
    ensures Shows(visits, display)
  {
    var sessions: set<int> := {};
    var maximum := visits[0].upperBound;
    for i := 0 to |visits|
      invariant sessions == SessionsOf(visits[..i])
      invariant forall visit | visit in visits[..i] :: visit.upperBound <= maximum
      invariant exists visit :: visit in visits && visit.upperBound == maximum
    {
      assert visits[..i + 1] == visits[..i] + [visits[i]];
      SessionsAdd(visits[..i], visits[i]);
      sessions := sessions + visits[i].sessions;
      if visits[i].upperBound > maximum {
        maximum := visits[i].upperBound;
      }
    }
    assert visits[..|visits|] == visits;
    display := Display(|sessions|, maximum);
  }

  /** One display for each participant. */
  method ReportAll(participants: seq<Participant>) returns (displays: seq<Display>)
    requires forall participant | participant in participants :: participant.visits != []
    ensures |displays| == |participants|
    ensures forall p | 0 <= p < |participants| :: Shows(participants[p].visits, displays[p])
  {
    displays := [];
    for i := 0 to |participants|
      invariant |displays| == i
      invariant forall p | 0 <= p < i :: Shows(participants[p].visits, displays[p])
    {
      var display := Report(participants[i].visits);
      displays := displays + [display];
    }
  }
}
