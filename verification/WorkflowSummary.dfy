/** What an accepted summary says of the operations and bootstraps given, in their own terms. */
module WorkflowSummary {
  import opened Basics
  import opened Intervals
  import opened Ordering
  import opened WorkflowModel
  import opened WorkflowCausality
  import opened WorkflowCosts
  import opened WorkflowAcceptance

  // ----- The bootstraps -----

  /** Every bootstrap is a participant's, and no session has two. */
  predicate BootstrapsValid(n: nat, bootstraps: seq<Bootstrap>) {
    && (forall i | 0 <= i < |bootstraps| ::
          && bootstraps[i].session >= 0 && 0 <= bootstraps[i].position < n
          && bootstraps[i].started <= bootstraps[i].finished)
    && forall i, j | 0 <= i < j < |bootstraps| :: bootstraps[i].session != bootstraps[j].session
  }

  lemma {:induction false} StartsExactlyIfValid(n: nat, bootstraps: seq<Bootstrap>)
    ensures Startup(n, bootstraps).Some? <==> BootstrapsValid(n, bootstraps)
  {
    if bootstraps != [] {
      var front, last := bootstraps[..|bootstraps| - 1], bootstraps[|bootstraps| - 1];
      StartsExactlyIfValid(n, front);
      assert bootstraps == front + [last];
      if BootstrapsValid(n, bootstraps) {
        ValidFront(n, front, last);
      }
      if Startup(n, front).Some? {
        SessionTaken(n, front, last.session);
        ValidAdds(n, front, last);
      }
    }
  }

  lemma SessionTaken(n: nat, bootstraps: seq<Bootstrap>, session: int)
    requires Startup(n, bootstraps).Some?
    ensures session in Startup(n, bootstraps).value <==>
            exists i :: 0 <= i < |bootstraps| && bootstraps[i].session == session
  {
    StartupHistory(n, bootstraps);
    if session in Startup(n, bootstraps).value {
      var i :| 0 <= i < |bootstraps| && bootstraps[i] == Startup(n, bootstraps).value[session];
    }
  }

  lemma ValidFront(n: nat, bootstraps: seq<Bootstrap>, last: Bootstrap)
    requires BootstrapsValid(n, bootstraps + [last])
    ensures BootstrapsValid(n, bootstraps)
  {
    var all := bootstraps + [last];
    assert forall i | 0 <= i < |bootstraps| :: all[i] == bootstraps[i];
  }

  lemma ValidAdds(n: nat, bootstraps: seq<Bootstrap>, last: Bootstrap)
    requires BootstrapsValid(n, bootstraps)
    ensures BootstrapsValid(n, bootstraps + [last]) <==>
            BootstrapOk(n, last) && forall i | 0 <= i < |bootstraps| :: bootstraps[i].session != last.session
  {
    var all := bootstraps + [last];
    assert all[|bootstraps|] == last && forall i | 0 <= i < |bootstraps| :: all[i] == bootstraps[i];
    if BootstrapsValid(n, all) {
      forall i | 0 <= i < |bootstraps| ensures bootstraps[i].session != last.session {
        assert all[i].session != all[|bootstraps|].session;
      }
    }
  }

  // ----- Which summaries are given -----

  lemma StagesComplete(c: Settings, ops: seq<Operation>, p: int)
    requires StartupOk(c) && Accepted(c, ops) && 0 <= p < c.participants
    ensures |StateAfter(c, ops).finishedStages[p]| == STAGES <==>
            forall stage | 0 <= stage < 8 :: CompletedIn(ops, p, stage)
  {
    var stages := StateAfter(c, ops).finishedStages[p];
    FinishedStagesAreAPrefix(c, ops, p);
    AcceptedIsRemembered(c, ops);
    var k :| 0 <= k <= STAGES && stages == Interval(0, k);
    assert forall stage :: stage in stages <==> CompletedIn(ops, p, stage);
    if k < STAGES {
      assert k !in stages;
    }
  }

  lemma SessionsUsed(c: Settings, ops: seq<Operation>)
    requires StartupOk(c) && Accepted(c, ops)
    ensures |StateAfter(c, ops).sessions| == |c.startup| <==>
            forall session | session in c.startup :: SessionIn(ops, session)
  {
    var m := StateAfter(c, ops);
    AcceptedIsRemembered(c, ops);
    assert m.sessions.Keys <= c.startup.Keys by {
      forall session | session in m.sessions.Keys ensures session in c.startup.Keys {
        assert session in m.sessions;
      }
    }
    SameSize(m.sessions, c.startup);
    forall session | session in c.startup ensures session in m.sessions <==> SessionIn(ops, session) {
    }
  }

  lemma SameSize(a: map<int, int>, b: map<int, Bootstrap>)
    requires a.Keys <= b.Keys
    ensures |a| == |b| <==> forall session | session in b :: session in a
  {
    SubsetSize(a.Keys, b.Keys);
    if forall session | session in b :: session in a {
      forall session | session in b.Keys ensures session in a.Keys {
        assert session in b;
      }
      assert a.Keys == b.Keys;
    }
    if |a| == |b| {
      assert forall session | session in b.Keys :: session in a.Keys;
    }
  }

  lemma SomethingFinished(c: Settings, ops: seq<Operation>)
    requires StartupOk(c) && Accepted(c, ops) && ops != []
    ensures StateAfter(c, ops).lastFinished.Some?
  {
    AcceptedIsRemembered(c, ops);
    var time := ops[0].finished - 1;
    assert NotBefore(time, StateAfter(c, ops).lastFinished) <==> AllBy(ops, None, time);
  }

  lemma FinishedExactly(c: Settings, ops: seq<Operation>)
    requires StartupOk(c) && Accepted(c, ops)
    ensures Finished(c, StateAfter(c, ops)) <==>
            && (forall p, stage | 0 <= p < c.participants && 0 <= stage < 8 :: CompletedIn(ops, p, stage))
            && (forall session | session in c.startup :: SessionIn(ops, session))
  {
    var m := StateAfter(c, ops);
    SessionsUsed(c, ops);
    forall p | 0 <= p < c.participants
      ensures |m.finishedStages[p]| == STAGES <==> forall stage | 0 <= stage < 8 :: CompletedIn(ops, p, stage)
    {
      StagesComplete(c, ops, p);
    }
    EverySize(m.finishedStages);
    if forall p, stage | 0 <= p < c.participants && 0 <= stage < 8 :: CompletedIn(ops, p, stage) {
      forall p | 0 <= p < c.participants ensures |m.finishedStages[p]| == STAGES {
      }
    }
    if forall i | 0 <= i < |m.finishedStages| :: |m.finishedStages[i]| == STAGES {
      forall p, stage | 0 <= p < c.participants && 0 <= stage < 8 ensures CompletedIn(ops, p, stage) {
        assert |m.finishedStages[p]| == STAGES;
      }
    }
  }

  lemma EverySize(xs: seq<set<int>>)
    ensures (forall x | x in xs :: |x| == STAGES) <==> forall i | 0 <= i < |xs| :: |xs[i]| == STAGES
  {
    if forall x | x in xs :: |x| == STAGES {
      forall i | 0 <= i < |xs| ensures |xs[i]| == STAGES {
        assert xs[i] in xs;
      }
    }
  }

  lemma SummarizedIfFinished(
    operations: seq<Operation>, n: nat, quorum: int, threshold: int, sequential: bool, bootstraps: seq<Bootstrap>
  )
    requires operations != [] && n >= 3 && Startup(n, bootstraps).Some?
    ensures var c, ops := SettingsOf(n, quorum, threshold, sequential, bootstraps), Ordered(operations);
            Summarize(operations, n, quorum, threshold, sequential, bootstraps).Some? <==>
            Accepted(c, ops) && Finished(c, StateAfter(c, ops)) && StateAfter(c, ops).lastFinished.Some?
  {
    SummarizedByReplay(operations, n, quorum, threshold, sequential, bootstraps);
  }

  lemma SummarizedByReplay(
    operations: seq<Operation>, n: nat, quorum: int, threshold: int, sequential: bool, bootstraps: seq<Bootstrap>
  )
    requires operations != [] && n >= 3 && Startup(n, bootstraps).Some?
    ensures var c, ops := SettingsOf(n, quorum, threshold, sequential, bootstraps), Ordered(operations);
            && ops != []
            && Summarize(operations, n, quorum, threshold, sequential, bootstraps) ==
               match Replay(c, ops)
               case None => None
               case Some(m) => Conclude(c, m, ops[0].started, bootstraps)
  {
    SortSorts(operations, StartOf);
  }

  ghost predicate AllComplete(c: Settings, ops: seq<Operation>) {
    && (forall p, stage | 0 <= p < c.participants && 0 <= stage < 8 :: CompletedIn(ops, p, stage))
    && (forall session | session in c.startup :: SessionIn(ops, session))
  }

  lemma AcceptedAndFinished(c: Settings, ops: seq<Operation>)
    requires StartupOk(c) && ops != []
    ensures Accepted(c, ops) && Finished(c, StateAfter(c, ops)) && StateAfter(c, ops).lastFinished.Some? <==>
            (forall i: nat | i < |ops| :: Admissible(c, ops[..i], ops[i])) && AllComplete(c, ops)
  {
    AcceptedExactlyIfAdmissible(c, ops);
    if Accepted(c, ops) {
      FinishedExactly(c, ops);
      SomethingFinished(c, ops);
    }
  }

  lemma SessionsOfBootstraps(n: nat, bootstraps: seq<Bootstrap>, ops: seq<Operation>)
    requires Startup(n, bootstraps).Some?
    ensures (forall session | session in Startup(n, bootstraps).value :: SessionIn(ops, session)) <==>
            forall b | b in bootstraps :: SessionIn(ops, b.session)
  {
    StartupHistory(n, bootstraps);
  }

  /**
   A summary is given exactly if there are operations and at least three participants, the bootstraps
   are valid, each operation is admissible after those before it in the order of their starts, and
   in the end every participant completed every stage and every bootstrap's session was used.
   */
  lemma SummarizedExactly(
    operations: seq<Operation>, n: nat, quorum: int, threshold: int, sequential: bool, bootstraps: seq<Bootstrap>
  )
    ensures Summarize(operations, n, quorum, threshold, sequential, bootstraps).Some? ==>
              operations != [] && n >= 3 && BootstrapsValid(n, bootstraps)
    ensures operations != [] && n >= 3 && BootstrapsValid(n, bootstraps) ==>
              Startup(n, bootstraps).Some? &&
              var c, ops := SettingsOf(n, quorum, threshold, sequential, bootstraps), Ordered(operations);
              Summarize(operations, n, quorum, threshold, sequential, bootstraps).Some? <==>
                && (forall i: nat | i < |ops| :: Admissible(c, ops[..i], ops[i]))
                && (forall p, stage | 0 <= p < n && 0 <= stage < 8 :: CompletedIn(ops, p, stage))
                && (forall b | b in bootstraps :: SessionIn(ops, b.session))
  {
    StartsExactlyIfValid(n, bootstraps);
    if operations != [] && n >= 3 && BootstrapsValid(n, bootstraps) {
      var c, ops := SettingsOf(n, quorum, threshold, sequential, bootstraps), Ordered(operations);
      StartupHistory(n, bootstraps);
      SortSorts(operations, StartOf);
      SummarizedIfFinished(operations, n, quorum, threshold, sequential, bootstraps);
      AcceptedAndFinished(c, ops);
      SessionsOfBootstraps(n, bootstraps, ops);
    }
  }

  // ----- From when to when -----

  lemma {:induction false} EarliestIsOne(start: int, bootstraps: seq<Bootstrap>)
    ensures Earliest(start, bootstraps) == start
            || exists b :: b in bootstraps && b.started == Earliest(start, bootstraps)
  {
    if bootstraps != [] {
      EarliestIsOne(start, bootstraps[..|bootstraps| - 1]);
      assert bootstraps[|bootstraps| - 1] in bootstraps;
    }
  }

  /** The last finish is the greatest of all. */
  lemma LastFinishIsOne(c: Settings, ops: seq<Operation>)
    requires StartupOk(c) && Accepted(c, ops) && ops != []
    ensures var last := StateAfter(c, ops).lastFinished;
            && last.Some? && (forall op | op in ops :: op.finished <= last.value)
            && exists op :: op in ops && op.finished == last.value
  {
    SomethingFinished(c, ops);
    AcceptedIsRemembered(c, ops);
    var last := StateAfter(c, ops).lastFinished;
    assert NotBefore(last.value, last) <==> AllBy(ops, None, last.value);
    assert NotBefore(last.value - 1, last) <==> AllBy(ops, None, last.value - 1);
    var j: nat :| j < |ops| && ops[j].finished > last.value - 1;
    assert ops[j] in ops;
  }

  /**
   The cohort's wall time runs from the first start of any operation or bootstrap given to the last
   finish of any operation given, and in a sequential run, and only there, it is the completion time.
   */
  lemma WallIsFromFirstToLast(
    operations: seq<Operation>, n: nat, quorum: int, threshold: int, sequential: bool, bootstraps: seq<Bootstrap>,
    r: Summary
  ) returns (s: int, f: int)
    requires Summarize(operations, n, quorum, threshold, sequential, bootstraps) == Some(r)
    ensures r.cohortWall == f - s && r.sequentialCompletion == if sequential then Some(f - s) else None
    ensures FromFirstToLast(operations, bootstraps, s, f)
  {
    SummaryParts(operations, n, quorum, threshold, sequential, bootstraps, r);
    SettingsStart(n, quorum, threshold, sequential, bootstraps);
    s, f := GivenFirstToLast(SettingsOf(n, quorum, threshold, sequential, bootstraps), operations, bootstraps);
  }

  lemma GivenFirstToLast(c: Settings, operations: seq<Operation>, bootstraps: seq<Bootstrap>) returns (s: int, f: int)
    requires var ops := Ordered(operations);
             StartupOk(c) && ops != [] && Accepted(c, ops)
    ensures s == Earliest(Ordered(operations)[0].started, bootstraps)
    ensures StateAfter(c, Ordered(operations)).lastFinished == Some(f)
    ensures FromFirstToLast(operations, bootstraps, s, f)
  {
    SortSorts(operations, StartOf);
    s, f := FirstToLast(c, Ordered(operations), bootstraps);
    OrderedMembers(operations);
    SameEnds(Ordered(operations), operations, bootstraps, s, f);
  }

  /** Something starts at `s` and nothing before; some operation finishes at `f` and none later. */
  ghost predicate FromFirstToLast(operations: seq<Operation>, bootstraps: seq<Bootstrap>, s: int, f: int) {
    && ((exists op :: op in operations && op.started == s) || exists b :: b in bootstraps && b.started == s)
    && (forall op | op in operations :: s <= op.started)
    && (forall b | b in bootstraps :: s <= b.started)
    && (exists op :: op in operations && op.finished == f)
    && (forall op | op in operations :: op.finished <= f)
  }

  lemma SameEnds(ops: seq<Operation>, operations: seq<Operation>, bootstraps: seq<Bootstrap>, s: int, f: int)
    requires FromFirstToLast(ops, bootstraps, s, f) && forall op :: op in operations <==> op in ops
    ensures FromFirstToLast(operations, bootstraps, s, f)
  {
  }

  lemma FirstToLast(c: Settings, ops: seq<Operation>, bootstraps: seq<Bootstrap>) returns (s: int, f: int)
    requires StartupOk(c) && ops != [] && SortedBy(ops, StartOf) && Accepted(c, ops)
    ensures s == Earliest(ops[0].started, bootstraps) && StateAfter(c, ops).lastFinished == Some(f)
    ensures FromFirstToLast(ops, bootstraps, s, f)
  {
    LastFinishIsOne(c, ops);
    s := FirstStart(ops, bootstraps);
    f := StateAfter(c, ops).lastFinished.value;
  }

  lemma FirstStart(ops: seq<Operation>, bootstraps: seq<Bootstrap>) returns (s: int)
    requires SortedBy(ops, StartOf) && ops != []
    ensures s == Earliest(ops[0].started, bootstraps)
    ensures (exists op :: op in ops && op.started == s) || (exists b :: b in bootstraps && b.started == s)
    ensures (forall op | op in ops :: s <= op.started) && (forall b | b in bootstraps :: s <= b.started)
  {
    s := Earliest(ops[0].started, bootstraps);
    EarliestIsOne(ops[0].started, bootstraps);
    EarliestIsEarliest(ops[0].started, bootstraps);
    FirstIsEarliest(ops);
    assert ops[0] in ops;
  }

  lemma SummaryParts(
    operations: seq<Operation>, n: nat, quorum: int, threshold: int, sequential: bool, bootstraps: seq<Bootstrap>,
    r: Summary
  )
    requires Summarize(operations, n, quorum, threshold, sequential, bootstraps) == Some(r)
    ensures var c, ops := SettingsOf(n, quorum, threshold, sequential, bootstraps), Ordered(operations);
            && ops != [] && Accepted(c, ops) && StateAfter(c, ops).lastFinished.Some?
            && r.cohortWall == StateAfter(c, ops).lastFinished.value - Earliest(ops[0].started, bootstraps)
            && r.sequentialCompletion == if sequential then Some(r.cohortWall) else None
  {
    SummarizedByReplay(operations, n, quorum, threshold, sequential, bootstraps);
    var c, ops := SettingsOf(n, quorum, threshold, sequential, bootstraps), Ordered(operations);
    ConcludedParts(c, StateAfter(c, ops), ops[0].started, bootstraps, r);
  }

  lemma ConcludedParts(c: Settings, m: Monitor, first: int, bootstraps: seq<Bootstrap>, r: Summary)
    requires Conclude(c, m, first, bootstraps) == Some(r)
    ensures m.lastFinished.Some? && r.cohortWall == m.lastFinished.value - Earliest(first, bootstraps)
    ensures r.sequentialCompletion == if c.sequential then Some(r.cohortWall) else None
  {
  }

  lemma SettingsStart(n: nat, quorum: int, threshold: int, sequential: bool, bootstraps: seq<Bootstrap>)
    requires Startup(n, bootstraps).Some?
    ensures StartupOk(SettingsOf(n, quorum, threshold, sequential, bootstraps))
  {
    StartupHistory(n, bootstraps);
  }

  lemma OrderedMembers(operations: seq<Operation>)
    ensures forall op :: op in operations <==> op in Ordered(operations)
  {
    SortSorts(operations, StartOf);
    assert forall op :: op in operations <==> op in multiset(operations);
    assert forall op :: op in Ordered(operations) <==> op in multiset(Ordered(operations));
  }

  lemma FirstIsEarliest(ops: seq<Operation>)
    requires SortedBy(ops, StartOf) && ops != []
    ensures forall op | op in ops :: ops[0].started <= op.started
  {
    forall op | op in ops ensures ops[0].started <= op.started {
      var i :| 0 <= i < |ops| && ops[i] == op;
      assert StartOf(ops[0]) <= StartOf(ops[i]);
    }
  }

  // ----- The records of a participant -----

  /** The memory of one measurement, all parts together. */
  function AllBytes(memory: Memory): int {
    memory.workerBytes + memory.helperBytes + memory.arenaBytes
  }

  /** Nothing given, or the largest given. */
  ghost predicate LargestOf(given: iset<int>, peak: Option<int>) {
    match peak
    case None => forall bytes :: bytes !in given
    case Some(largest) => largest in given && forall bytes | bytes in given :: bytes <= largest
  }

  /** What the operations of a participant measured. */
  ghost function Measured(ops: seq<Operation>, p: int): iset<int> {
    iset op, memory | op in ops && op.position == p && memory in op.memories :: AllBytes(memory)
  }

  ghost function BytesOf(memories: seq<Memory>): iset<int> {
    if memories == [] then iset{}
    else BytesOf(memories[..|memories| - 1]) + iset{AllBytes(memories[|memories| - 1])}
  }

  lemma {:induction false} BytesOfThese(memories: seq<Memory>, bytes: int)
    ensures bytes in BytesOf(memories) <==> exists memory :: memory in memories && AllBytes(memory) == bytes
  {
    if memories != [] {
      var front, last := memories[..|memories| - 1], memories[|memories| - 1];
      BytesOfThese(front, bytes);
      assert memories == front + [last];
    }
  }

  lemma {:induction false} PeakTakes(given: iset<int>, peak: Option<int>, memories: seq<Memory>)
    requires LargestOf(given, peak) && forall memory | memory in memories :: SafeMemory(memory)
    requires forall bytes | bytes in given :: bytes >= 0
    ensures LargestOf(given + BytesOf(memories), Peak(peak, memories))
    ensures forall bytes | bytes in given + BytesOf(memories) :: bytes >= 0
  {
    if memories == [] {
      assert given + BytesOf(memories) == given;
    } else {
      var front, last := memories[..|memories| - 1], memories[|memories| - 1];
      assert last in memories && forall memory | memory in front :: memory in memories;
      PeakTakes(given, peak, front);
      LargestTakes(given + BytesOf(front), Peak(peak, front), AllBytes(last));
      assert given + BytesOf(memories) == given + BytesOf(front) + iset{AllBytes(last)};
    }
  }

  lemma LargestTakes(given: iset<int>, peak: Option<int>, bytes: int)
    requires LargestOf(given, peak) && bytes >= 0 && forall other | other in given :: other >= 0
    ensures var highest := if peak.Some? then peak.value else 0;
            LargestOf(given + iset{bytes}, Some(if bytes > highest then bytes else highest))
  {
  }

  /** A participant's peak is the largest combined memory that its operations measured, if any did. */
  lemma {:induction false} PeakIsTheLargest(c: Settings, ops: seq<Operation>, p: int)
    requires Accepted(c, ops) && 0 <= p < c.participants
    ensures forall bytes | bytes in Measured(ops, p) :: bytes >= 0
    ensures LargestOf(Measured(ops, p), StateAfter(c, ops).byParticipant[p].peakBytes)
  {
    if ops == [] {
      assert Measured(ops, p) == iset{};
    } else {
      var front, op := ops[..|ops| - 1], ops[|ops| - 1];
      PeakIsTheLargest(c, front, p);
      PeakOf(c, ops, p);
      assert ops == front + [op];
      PeakAdvances(front, op, p, StateAfter(c, front).byParticipant[p].peakBytes);
    }
  }

  lemma PeakOf(c: Settings, ops: seq<Operation>, p: int)
    requires Accepted(c, ops) && 0 <= p < c.participants && ops != []
    ensures var before, op := StateAfter(c, ops[..|ops| - 1]), ops[|ops| - 1];
            && (forall memory | memory in op.memories :: SafeMemory(memory))
            && StateAfter(c, ops).byParticipant[p].peakBytes ==
               var peak := before.byParticipant[p].peakBytes;
               if op.position == p then Peak(peak, op.memories) else peak
  {
    AdvanceRecords(c, ops);
  }

  lemma PeakAdvances(ops: seq<Operation>, op: Operation, p: int, peak: Option<int>)
    requires LargestOf(Measured(ops, p), peak) && forall bytes | bytes in Measured(ops, p) :: bytes >= 0
    requires forall memory | memory in op.memories :: SafeMemory(memory)
    ensures forall bytes | bytes in Measured(ops + [op], p) :: bytes >= 0
    ensures LargestOf(Measured(ops + [op], p), if op.position == p then Peak(peak, op.memories) else peak)
  {
    MeasuredAdds(ops, op, p);
    if op.position == p {
      PeakTakes(Measured(ops, p), peak, op.memories);
    }
  }

  lemma MeasuredAdds(ops: seq<Operation>, op: Operation, p: int)
    ensures Measured(ops + [op], p) ==
            if op.position == p then Measured(ops, p) + BytesOf(op.memories)
            else Measured(ops, p)
  {
    forall bytes ensures bytes in Measured(ops + [op], p) <==>
                         bytes in Measured(ops, p) || (op.position == p && bytes in BytesOf(op.memories)) {
      MeasuredOne(ops, op, p, bytes);
    }
  }

  lemma MeasuredOne(ops: seq<Operation>, op: Operation, p: int, bytes: int)
    ensures bytes in Measured(ops + [op], p) <==>
            bytes in Measured(ops, p) || (op.position == p && bytes in BytesOf(op.memories))
  {
    BytesOfThese(op.memories, bytes);
    if bytes in Measured(ops + [op], p) {
      var other, memory :|
        other in ops + [op] && other.position == p && memory in other.memories && AllBytes(memory) == bytes;
      assert other in ops || other == op;
    }
    if op.position == p && bytes in BytesOf(op.memories) {
      var memory :| memory in op.memories && AllBytes(memory) == bytes;
      assert op in ops + [op];
    }
  }

  /** The identities of a participant's operations in a stage, in trace order. */
  function IdsIn(ops: seq<Operation>, p: int, stage: int): seq<int> {
    if ops == [] then []
    else
      var op := ops[|ops| - 1];
      IdsIn(ops[..|ops| - 1], p, stage) + if op.position == p && stage in op.stages then [op.id] else []
  }

  function CountOf(ops: seq<Operation>, p: int): nat {
    if ops == [] then 0 else CountOf(ops[..|ops| - 1], p) + if ops[|ops| - 1].position == p then 1 else 0
  }

  /** A participant's visits name its operations in order, and its attempts count them. */
  lemma {:induction false} VisitsNameTheOperations(c: Settings, ops: seq<Operation>, p: int)
    requires Accepted(c, ops) && 0 <= p < c.participants
    ensures var participant := StateAfter(c, ops).byParticipant[p];
            && participant.attempts == CountOf(ops, p)
            && |participant.visits| == 8
            && forall stage | 0 <= stage < 8 :: participant.visits[stage].operationIds == IdsIn(ops, p, stage)
  {
    if ops != [] {
      VisitsNameTheOperations(c, ops[..|ops| - 1], p);
      AdvanceRecords(c, ops);
    }
  }

  /** A bootstrap is charged with its session's first operation, and only there. */
  lemma BootstrapIsChargedFirst(c: Settings, ops: seq<Operation>, i: nat)
    requires StartupOk(c) && Accepted(c, ops) && i < |ops|
    ensures i < |StateAfter(c, ops).traced| && StateAfter(c, ops).traced[i].operation == ops[i]
    ensures ops[i].session in c.startup
    ensures StateAfter(c, ops).traced[i].bootstrap ==
            if exists j: nat :: j < i && ops[j].session == ops[i].session then 0
            else c.startup[ops[i].session].finished - c.startup[ops[i].session].started
  {
    TracedHistory(c, ops, i);
    AcceptedIsRemembered(c, ops[..i]);
    IdentityAgrees(c, ops[..i], StateAfter(c, ops[..i]), ops[i]);
    assert forall j: nat | j < i :: ops[..i][j] == ops[j];
  }

  // ----- The recorded dependencies -----

  /** The records an operation draws on. */
  predicate Draws(n: nat, op: Operation, event: Event) {
    var p := op.position;
    && (event.By? ==> 0 <= event.position < n)
    && match op.kind
       case Create => p != 0 && event == By(Registration, 0)
       case Publish => event == if op.stages == [0] then By(Created, p) else ProposedRoster
       case ProposeRoster => event.By? && event.message == Registration
       case AcceptRoster => event == Roster
       case Confirm => event == if p == 0 then Roster else By(AcceptedRoster, p)
       case Contribute => event == By(Confirmed, p)
       case SelectSetup => event == By(Confirmed, p) || (event.By? && event.message == Offer)
       case EndorseSetup => event == By(Confirmed, p) || event == Selection
       case VerifySetup => event.By? && event.message == Endorsement
       case CastBallot => event == By(Setup, p)
       case Close =>
         || (event.By? && event.message == Ballot)
         || (event == CloseIntent && (Proposes(op) || (p != 0 && op.generation == Some(21))))
         || (event.By? && event.message == Response && event.position != 0 && Proposes(op))
       case SignTarget => event == CloseProposal
       case Release => event.By? && event.message == Target
       case ComputeResult => event.By? && event.message == ReleaseShare
       case _ => false
  }

  predicate Serves(n: nat, need: Need, event: Event) {
    match need
    case One(e) => event == e
    case Many(message, _, omit) =>
      event.By? && event.message == message && event.position != omit && 0 <= event.position < n
  }

  lemma DrawsWhatItNeeds(c: Settings, op: Operation, event: Event) returns (need: Need)
    requires InItsStage(op) && 0 <= op.position < c.participants && Draws(c.participants, op, event)
    ensures need in Needs(c, op) && Serves(c.participants, need, event)
  {
    var p := op.position;
    need := One(event);
    match op.kind
    case ProposeRoster => need := Many(Registration, c.participants, NOBODY);
    case SelectSetup => if event != By(Confirmed, p) { need := Many(Offer, c.releaseThreshold, NOBODY); }
    case VerifySetup => need := Many(Endorsement, c.quorum, NOBODY);
    case Close =>
      if event.By? && event.message == Ballot {
        need := Many(Ballot, c.participants, NOBODY);
      } else if event.By? {
        need := Many(Response, c.quorum - 1, 0);
      }
    case Release => need := Many(Target, c.quorum, NOBODY);
    case ComputeResult => need := Many(ReleaseShare, c.releaseThreshold, NOBODY);
    case _ =>
  }

  lemma NeedsOnlyWhatItDraws(c: Settings, op: Operation, need: Need, event: Event)
    requires InItsStage(op) && 0 <= op.position < c.participants && c.participants > 0
    requires need in Needs(c, op) && Serves(c.participants, need, event)
    ensures Draws(c.participants, op, event)
  {
  }

  /** The operation is the last before to publish a record that serves a need, and had finished. */
  ghost predicate Producer(c: Settings, ops: seq<Operation>, need: Need, at: int, j: nat, event: Event) {
    Serves(c.participants, need, event) && LastToPublish(ops, j, event) && ops[j].finished <= at
  }

  lemma ProducerOfOne(ops: seq<Operation>, m: Monitor, event: Event) returns (j: nat)
    requires RemembersRecords(ops, m) && event in m.published
    ensures LastToPublish(ops, j, event) && m.published[event] == ops[j]
    ensures forall k: nat | LastToPublish(ops, k, event) :: k == j
  {
    j :| LastToPublish(ops, j, event) && m.published[event] == ops[j];
    forall k: nat | LastToPublish(ops, k, event) ensures k == j {
      assert Publishes(ops[k], event);
    }
  }

  lemma ProducersServe(c: Settings, ops: seq<Operation>, m: Monitor, need: Need, at: int, id: int)
    requires RemembersRecords(ops, m) && Met(c, m, need, at)
    ensures id in Producers(c, m, need, at) <==>
            exists j: nat, event :: Producer(c, ops, need, at, j, event) && ops[j].id == id
  {
    if id in Producers(c, m, need, at) {
      var event := EventOf(c, m, need, at, id);
      var j := ProducerOfOne(ops, m, event);
      if event.By? {
        RecordIsTheirs(ops, m, event.message, event.position);
      }
      assert Producer(c, ops, need, at, j, event) && ops[j].id == id;
    }
    if j: nat, event :| Producer(c, ops, need, at, j, event) && ops[j].id == id {
      assert Publishes(ops[j], event) && event in m.published;
      var last := ProducerOfOne(ops, m, event);
      if event.By? {
        RecordIsTheirs(ops, m, event.message, event.position);
      }
    }
  }

  lemma EventOf(c: Settings, m: Monitor, need: Need, at: int, id: int) returns (event: Event)
    requires Met(c, m, need, at) && id in Producers(c, m, need, at)
    ensures event in m.published && m.published[event].id == id && m.published[event].finished <= at
    ensures match need
            case One(e) => event == e
            case Many(message, _, omit) =>
              event.By? && event.message == message && 0 <= event.position < c.participants
              && m.published[event].position != omit
  {
    match need
    case One(e) => event := e;
    case Many(message, _, omit) =>
      var p :| p in Ready(c, m, message, omit, at) && m.published[By(message, p)].id == id;
      event := By(message, p);
  }

  /** An operation among those before that last published a record the operation draws on, and had finished. */
  ghost predicate DrawsOn(n: nat, before: seq<Operation>, op: Operation, j: nat, event: Event) {
    Draws(n, op, event) && LastToPublish(before, j, event) && before[j].finished <= op.started
  }

  /**
   The recorded dependencies of an accepted operation are exactly the last publishers of the records
   it draws on that had finished when it started.
   */
  lemma DependenciesAreTheProducers(c: Settings, ops: seq<Operation>, i: nat, id: int)
    requires StartupOk(c) && c.participants > 0 && Accepted(c, ops) && i < |ops|
    ensures i < |StateAfter(c, ops).traced| && StateAfter(c, ops).traced[i].operation == ops[i]
    ensures id in StateAfter(c, ops).traced[i].dependencies <==>
            ops[i].outcome == Completed
            && exists j: nat, event :: DrawsOn(c.participants, ops[..i], ops[i], j, event) && ops[j].id == id
  {
    TracedHistory(c, ops, i);
    AcceptedIsRemembered(c, ops[..i]);
    DependenciesAre(c, ops[..i], StateAfter(c, ops[..i]), ops[i], id);
    assert forall j: nat | j < i :: ops[..i][j] == ops[j];
  }

  lemma DependenciesAre(c: Settings, ops: seq<Operation>, m: Monitor, op: Operation, id: int)
    requires Remembers(c, ops, m) && c.participants > 0 && Accepts(c, m, op)
    ensures id in Dependencies(c, m, op) <==>
            op.outcome == Completed
            && exists j: nat, event :: DrawsOn(c.participants, ops, op, j, event) && ops[j].id == id
  {
    AcceptedIsStaged(m, op);
    if id in Dependencies(c, m, op) {
      var need :| need in Needs(c, op) && id in Producers(c, m, need, op.started);
      ProducersServe(c, ops, m, need, op.started, id);
      var j: nat, event :| Producer(c, ops, need, op.started, j, event) && ops[j].id == id;
      NeedsOnlyWhatItDraws(c, op, need, event);
      assert DrawsOn(c.participants, ops, op, j, event);
    }
    if op.outcome == Completed {
      if j: nat, event :| DrawsOn(c.participants, ops, op, j, event) && ops[j].id == id {
        var need := DrawsWhatItNeeds(c, op, event);
        assert Met(c, m, need, op.started) && Producer(c, ops, need, op.started, j, event);
        ProducersServe(c, ops, m, need, op.started, id);
      }
    }
  }
}
