/**
 What became of each use, and which browser was idle longest, told by the steps of a run from the
 empty pool rather than by what the pool keeps.
 */
module PoolHistory {
  import opened PoolModel
  import opened PoolProofs
  import opened PoolTheorems

  // ----- How a use ends -----

  /** The step by which a use fails: its action, its launch, the ending it awaited, or its turn. */
  predicate FailsBy(s: System, step: Step, t: nat)
    requires t < |s.tasks|
  {
    var p, task := s.pool, s.tasks[t];
    || step == ActionEnds(t, false)
    || (step == Resume(t) && task.OnLaunch? && task.entry < |p.entries| && p.entries[task.entry].launch == LaunchFailed)
    || (step == Resume(t) && task.OnEviction? && task.entry < |p.entries|
        && p.entries[task.entry].ending == Ended(false))
    || (step.TakeTurn? && step.task == t && (p.closed || p.open == map[]))
  }

  lemma TurnSettles(c: Config, s: System, t: nat, free: int, s': System)
    requires Inv(c, s) && t < |s.tasks| && Next(c, s, TakeTurn(t, free), s') && s'.tasks[t].Settled?
    ensures s'.tasks[t] == Settled(false) && (s.pool.closed || s.pool.open == map[])
  {
    var task := s.tasks[t];
    TurnFindsItsKey(c, s.pool, t, task.key, free, s'.pool, s'.tasks[t]);
    if !s.pool.closed && task.key !in s.pool.open {
      TurnLaunchesExactlyWithRoom(c, s.pool, t, task.key, free, s'.pool, s'.tasks[t]);
    }
  }

  lemma StepSettles(c: Config, s: System, step: Step, s': System, t: nat)
    requires Inv(c, s) && Next(c, s, step, s') && t < |s.tasks|
    ensures t < |s'.tasks|
    ensures s'.tasks[t] == Settled(true) <==> s.tasks[t] == Settled(true) || step == ActionEnds(t, true)
    ensures s'.tasks[t] == Settled(false) ==> s.tasks[t] == Settled(false) || FailsBy(s, step, t)
    ensures s.tasks[t].Settled? ==> s'.tasks[t] == s.tasks[t]
  {
    if step.TakeTurn? && step.task == t && s'.tasks[t].Settled? {
      TurnSettles(c, s, t, step.free, s');
    }
  }

  /** Tasks and entries only ever join. */
  lemma {:induction false} NothingLeaves(c: Config, states: seq<System>, steps: seq<Step>, k: nat, n: nat)
    requires Execution(c, states, steps) && Initial(states[0]) && k <= n < |states|
    ensures |states[k].tasks| <= |states[n].tasks| && |states[k].pool.entries| <= |states[n].pool.entries|
  {
    if k < n {
      NothingLeaves(c, states, steps, k, n - 1);
      ReachableInv(c, states, steps, n - 1);
      NextEvolves(c, states[n - 1], steps[n - 1], states[n]);
      TasksStay(c, states[n - 1], steps[n - 1], states[n]);
    }
  }

  lemma TasksStay(c: Config, s: System, step: Step, s': System)
    requires WellFormed(s.pool) && Next(c, s, step, s')
    ensures |s.tasks| <= |s'.tasks|
    ensures |s'.tasks| > |s.tasks| ==> !s'.tasks[|s.tasks|].Settled? && |s'.tasks| == |s.tasks| + 1
  {
  }

  /** A step concerns a task that was called before. */
  lemma StepsConcernTasks(c: Config, states: seq<System>, steps: seq<Step>, k: nat, n: nat, t: nat)
    requires Execution(c, states, steps) && Initial(states[0]) && k <= n < |steps|
    requires steps[k].ActionEnds? && steps[k].task == t
    ensures t < |states[n].tasks|
  {
    ReachableInv(c, states, steps, k);
    NothingLeaves(c, states, steps, k, n);
  }

  ghost predicate ActedWell(steps: seq<Step>, n: nat, t: nat)
    requires n <= |steps|
  {
    exists k: nat :: k < n && steps[k] == ActionEnds(t, true)
  }

  lemma {:induction false} TaskHistory(c: Config, states: seq<System>, steps: seq<Step>, n: nat, t: nat)
    requires Execution(c, states, steps) && Initial(states[0]) && n < |states| && t < |states[n].tasks|
    ensures states[n].tasks[t] == Settled(true) <==> ActedWell(steps, n, t)
  {
    if n > 0 {
      if t < |states[n - 1].tasks| {
        TaskHistory(c, states, steps, n - 1, t);
        TaskSettlesAt(c, states, steps, n - 1, t);
      } else {
        NewTaskAt(c, states, steps, n - 1, t);
      }
    }
  }

  lemma TaskSettlesAt(c: Config, states: seq<System>, steps: seq<Step>, n: nat, t: nat)
    requires Execution(c, states, steps) && Initial(states[0]) && n < |steps| && t < |states[n].tasks|
    requires states[n].tasks[t] == Settled(true) <==> ActedWell(steps, n, t)
    ensures t < |states[n + 1].tasks|
    ensures states[n + 1].tasks[t] == Settled(true) <==> ActedWell(steps, n + 1, t)
  {
    ReachableInv(c, states, steps, n);
    StepSettles(c, states[n], steps[n], states[n + 1], t);
  }

  lemma NewTaskAt(c: Config, states: seq<System>, steps: seq<Step>, n: nat, t: nat)
    requires Execution(c, states, steps) && Initial(states[0]) && n < |steps|
    requires |states[n].tasks| <= t < |states[n + 1].tasks|
    ensures !states[n + 1].tasks[t].Settled? && !ActedWell(steps, n + 1, t)
  {
    ReachableInv(c, states, steps, n);
    TasksStay(c, states[n], steps[n], states[n + 1]);
    if ActedWell(steps, n + 1, t) {
      var k: nat :| k < n + 1 && steps[k] == ActionEnds(t, true);
      StepsConcernTasks(c, states, steps, k, n, t);
    }
  }

  /** The step that failed a use, if one did. */
  ghost predicate Failed(states: seq<System>, steps: seq<Step>, n: nat, t: nat)
    requires n <= |steps| < |states|
  {
    exists k: nat :: k < n && t < |states[k].tasks| && FailsBy(states[k], steps[k], t)
  }

  lemma {:induction false} FailureHistory(c: Config, states: seq<System>, steps: seq<Step>, n: nat, t: nat)
    requires Execution(c, states, steps) && Initial(states[0]) && n < |states| && t < |states[n].tasks|
    requires states[n].tasks[t] == Settled(false)
    ensures Failed(states, steps, n, t)
  {
    FailsAt(c, states, steps, n - 1, t);
    if states[n - 1].tasks[t] == Settled(false) {
      FailureHistory(c, states, steps, n - 1, t);
    }
  }

  lemma FailsAt(c: Config, states: seq<System>, steps: seq<Step>, n: nat, t: nat)
    requires Execution(c, states, steps) && Initial(states[0]) && n < |steps| && t < |states[n + 1].tasks|
    requires states[n + 1].tasks[t] == Settled(false)
    ensures t < |states[n].tasks| && (states[n].tasks[t] == Settled(false) || FailsBy(states[n], steps[n], t))
  {
    ReachableInv(c, states, steps, n);
    TasksStay(c, states[n], steps[n], states[n + 1]);
    StepSettles(c, states[n], steps[n], states[n + 1], t);
  }

  /**
   A use returns well exactly if its action ended well, and it fails only by its action, by its
   launch, by the ending it awaited for room, or by a turn in a pool that is closed or has no
   browser at all.
   */
  lemma UseReturnsAsItsAction(c: Config, states: seq<System>, steps: seq<Step>, n: nat, t: nat)
    requires Execution(c, states, steps) && Initial(states[0]) && n < |states| && t < |states[n].tasks|
    ensures states[n].tasks[t] == Settled(true) <==> exists k: nat :: k < n && steps[k] == ActionEnds(t, true)
    ensures states[n].tasks[t] == Settled(false) ==> Failed(states, steps, n, t)
  {
    TaskHistory(c, states, steps, n, t);
    if states[n].tasks[t] == Settled(false) {
      FailureHistory(c, states, steps, n, t);
    }
  }

  /** What an awaiting use does once what it awaited is settled. */
  lemma ResumesAsItEnded(c: Config, s: System, t: nat, s': System)
    requires Inv(c, s) && t < |s.tasks| && Next(c, s, Resume(t), s')
    ensures match s.tasks[t]
            case OnEviction(key, e) =>
              e < |s.pool.entries| && s.pool.entries[e].ending.Ended?
              && s'.tasks[t] == if s.pool.entries[e].ending.ok then Turn(key) else Settled(false)
            case OnEnding(key, e) =>
              e < |s.pool.entries| && s.pool.entries[e].ending.Ended? && s'.tasks[t] == Turn(key)
            case OnLaunch(key, e) =>
              e < |s.pool.entries| && s.pool.entries[e].launch != Launching
              && s'.tasks[t] == if s.pool.entries[e].launch == Launched then Acting(key, e) else Settled(false)
            case Parked(key) => t !in s.pool.waiting && s'.tasks[t] == Turn(key)
            case _ => false
  {
  }

  // ----- Which browser was idle longest -----

  /** A step by which a use lets go of an entry. */
  predicate Releases(s: System, step: Step, s': System, e: nat) {
    && (step.ActionEnds? || step.Resume?) && step.task < |s.tasks| && step.task < |s'.tasks|
    && HoldsOf(s.tasks[step.task], e) == 1 && HoldsOf(s'.tasks[step.task], e) == 0
  }

  lemma TurnIdleTimes(c: Config, p: Pool, t: nat, key: Key, free: int, p': Pool, task': Task, d: nat)
    requires PoolInv(c, p) && TurnEffect(c, p, t, key, free, p', task') && d < |p'.entries|
    ensures p'.actionsEnded == p.actionsEnded
    ensures p'.entries[d].idleSince == if d < |p.entries| then p.entries[d].idleSince else 0
  {
  }

  lemma TaskIdleTimes(c: Config, p: Pool, t: nat, task: Task, step: Step, p': Pool, task': Task, d: nat)
    requires PoolInv(c, p) && TaskStep(c, p, t, task, step, p', task') && d < |p'.entries| && !step.TakeTurn?
    ensures |p'.entries| == |p.entries|
    ensures var frees := !step.CloseNext? && HoldsOf(task, d) == 1 && HoldsOf(task', d) == 0;
            && p'.actionsEnded >= p.actionsEnded
            && (frees ==> p'.entries[d].idleSince == p'.actionsEnded > p.actionsEnded)
            && (!frees ==> p'.entries[d].idleSince == p.entries[d].idleSince)
  {
  }

  lemma PoolIdleTimes(p: Pool, step: Step, p': Pool, d: nat)
    requires WellFormed(p) && PoolStep(p, step, p') && d < |p'.entries|
    ensures |p'.entries| == |p.entries| && p'.actionsEnded == p.actionsEnded
    ensures p'.entries[d].idleSince == p.entries[d].idleSince
  {
  }

  /** An entry's idle time is the count at its last release. */
  lemma IdleTimes(c: Config, s: System, step: Step, s': System, d: nat)
    requires Inv(c, s) && Next(c, s, step, s') && d < |s'.pool.entries|
    ensures s'.pool.actionsEnded >= s.pool.actionsEnded
    ensures Releases(s, step, s', d) ==>
              d < |s.pool.entries| && s'.pool.entries[d].idleSince == s'.pool.actionsEnded > s.pool.actionsEnded
    ensures !Releases(s, step, s', d) ==>
              s'.pool.entries[d].idleSince == if d < |s.pool.entries| then s.pool.entries[d].idleSince else 0
  {
    match step
    case TakeTurn(t, free) => TurnIdleTimes(c, s.pool, t, s.tasks[t].key, free, s'.pool, s'.tasks[t], d);
    case Resume(t) => TaskIdleTimes(c, s.pool, t, s.tasks[t], step, s'.pool, s'.tasks[t], d);
    case ActionEnds(t, _) => TaskIdleTimes(c, s.pool, t, s.tasks[t], step, s'.pool, s'.tasks[t], d);
    case CloseNext(t) => TaskIdleTimes(c, s.pool, t, s.tasks[t], step, s'.pool, s'.tasks[t], d);
    case CallUse(_) =>
    case CallCloseAll(_) =>
    case _ => PoolIdleTimes(s.pool, step, s'.pool, d);
  }

  lemma OneRelease(s: System, step: Step, s': System, d: nat, e: nat)
    requires Releases(s, step, s', d) && Releases(s, step, s', e)
    ensures d == e
  {
  }

  ghost predicate ReleasedAt(states: seq<System>, steps: seq<Step>, k: nat, e: nat)
    requires k < |steps| && |states| == |steps| + 1
  {
    Releases(states[k], steps[k], states[k + 1], e)
  }

  /** After every release of e there was one of d. */
  ghost predicate LaterReleased(states: seq<System>, steps: seq<Step>, n: nat, e: nat, d: nat)
    requires n <= |steps| && |states| == |steps| + 1
  {
    forall j: nat | j < n && ReleasedAt(states, steps, j, e) ::
      exists k: nat :: j < k < n && ReleasedAt(states, steps, k, d)
  }

  lemma OneMoreStep(states: seq<System>, steps: seq<Step>, n: nat, e: nat, d: nat)
    requires n < |steps| && |states| == |steps| + 1 && d != e
    requires || ReleasedAt(states, steps, n, d)
             || (LaterReleased(states, steps, n, e, d) && !ReleasedAt(states, steps, n, e))
    ensures LaterReleased(states, steps, n + 1, e, d)
  {
    forall j: nat | j < n + 1 && ReleasedAt(states, steps, j, e)
      ensures exists k: nat :: j < k < n + 1 && ReleasedAt(states, steps, k, d)
    {
      if ReleasedAt(states, steps, n, d) {
        if j == n {
          OneRelease(states[n], steps[n], states[n + 1], d, e);
        }
      } else {
        var k: nat :| j < k < n && ReleasedAt(states, steps, k, d);
      }
    }
  }

  /** Unless the last step released d, the two stood in that order before it, and it did not release e. */
  lemma LastStepOrders(c: Config, states: seq<System>, steps: seq<Step>, n: nat, e: nat, d: nat)
    requires Execution(c, states, steps) && Initial(states[0]) && n < |steps|
    requires e < |states[n + 1].pool.entries| && d < |states[n + 1].pool.entries|
    requires states[n + 1].pool.entries[e].idleSince < states[n + 1].pool.entries[d].idleSince
    ensures d != e
    ensures !ReleasedAt(states, steps, n, d) ==>
              && d < |states[n].pool.entries| && !ReleasedAt(states, steps, n, e)
              && (e < |states[n].pool.entries| ==>
                    states[n].pool.entries[e].idleSince < states[n].pool.entries[d].idleSince)
  {
    ReachableInv(c, states, steps, n);
    IdleTimes(c, states[n], steps[n], states[n + 1], d);
    IdleTimes(c, states[n], steps[n], states[n + 1], e);
    ReachableInv(c, states, steps, n + 1);
    assert EntryOk(states[n + 1].pool, d);
  }

  lemma {:induction false} IdleOrder(c: Config, states: seq<System>, steps: seq<Step>, n: nat, e: nat, d: nat)
    requires Execution(c, states, steps) && Initial(states[0]) && n < |states|
    requires e < |states[n].pool.entries| && d < |states[n].pool.entries|
    requires states[n].pool.entries[e].idleSince < states[n].pool.entries[d].idleSince
    ensures LaterReleased(states, steps, n, e, d)
  {
    LastStepOrders(c, states, steps, n - 1, e, d);
    if !ReleasedAt(states, steps, n - 1, d) {
      if e < |states[n - 1].pool.entries| {
        IdleOrder(c, states, steps, n - 1, e, d);
      } else {
        NeverReleased(c, states, steps, n - 1, e);
      }
    }
    OneMoreStep(states, steps, n - 1, e, d);
  }

  /** An entry is released only once it exists. */
  lemma ReleasedExists(c: Config, s: System, step: Step, s': System, e: nat)
    requires Inv(c, s)
    ensures Releases(s, step, s', e) ==> e < |s.pool.entries|
  {
    if Releases(s, step, s', e) {
      assert TaskOk(s.pool, s.tasks[step.task]);
    }
  }

  lemma NeverReleased(c: Config, states: seq<System>, steps: seq<Step>, n: nat, e: nat)
    requires Execution(c, states, steps) && Initial(states[0]) && n < |states| && e >= |states[n].pool.entries|
    ensures forall j: nat | j < n :: !ReleasedAt(states, steps, j, e)
  {
    forall j: nat | j < n ensures !ReleasedAt(states, steps, j, e) {
      ReachableInv(c, states, steps, j);
      NothingLeaves(c, states, steps, j, n);
      ReleasedExists(c, states[j], steps[j], states[j + 1], e);
    }
  }

  /**
   The browser ended for room is the one that was let go of first: every other idle one was let go
   of again after the last time that one was.
   */
  lemma EvictedWasLetGoFirst(
    c: Config, states: seq<System>, steps: seq<Step>, i: nat, t: nat, key: Key, e: nat, d: nat, j: nat
  )
    requires Execution(c, states, steps) && Initial(states[0]) && j < i < |steps|
    requires steps[i].TakeTurn? && steps[i].task == t
    requires t < |states[i + 1].tasks| && states[i + 1].tasks[t] == OnEviction(key, e)
    requires d != e && Idle(states[i].pool, d) && ReleasedAt(states, steps, j, e)
    ensures exists k: nat :: j < k < i && ReleasedAt(states, steps, k, d)
  {
    EvictionTakesTheLeastRecentlyUsed(c, states, steps, i, i + 1, t, key, e);
    IdleOrder(c, states, steps, i, e, d);
  }

  // ----- A browser's own history -----

  function LaunchOf(s: System, e: nat): Launch {
    if e < |s.pool.entries| then s.pool.entries[e].launch else Launching
  }

  function EndingOf(s: System, e: nat): Ending {
    if e < |s.pool.entries| then s.pool.entries[e].ending else NotEnding
  }

  function BytesOf(s: System, e: nat): int {
    if e < |s.pool.entries| then s.pool.entries[e].bytes else 0
  }

  /** A step that asks for the end of an open browser: by its key, by closing all, or for room. */
  predicate AsksToEnd(s: System, step: Step, s': System, e: nat) {
    && e < |s.pool.entries| && s.pool.entries[e].key in s.pool.open && s.pool.open[s.pool.entries[e].key] == e
    && match step
       case CallEnd(key) => key == s.pool.entries[e].key
       case CloseNext(t) =>
         && t < |s.tasks| && s.tasks[t].ClosingAll?
         && s.tasks[t].rest != [] && s.tasks[t].rest[0] == s.pool.entries[e].key
       case TakeTurn(t, _) =>
         t < |s'.tasks| && s'.tasks[t].OnEviction? && s'.tasks[t].entry == e
       case _ => false
  }

  /** What a step leaves of a browser's launch and memory. */
  ghost predicate LaunchStep(s: System, step: Step, s': System, e: nat) {
    && (LaunchOf(s', e) ==
        match step
        case LaunchSettles(d, ok) => if d != e then LaunchOf(s, e) else if ok then Launched else LaunchFailed
        case _ => LaunchOf(s, e))
    && (BytesOf(s', e) ==
        match step
        case Sampled(d, bytes) => if d == e then bytes else BytesOf(s, e)
        case _ => BytesOf(s, e))
  }

  /** What a step leaves of its ending. */
  ghost predicate EndingStep(s: System, step: Step, s': System, e: nat) {
    EndingOf(s', e) ==
    match step
    case EndingSettles(d, ok) => if d == e then Ended(ok) else EndingOf(s, e)
    case EndingProceeds(d) =>
      if d != e then EndingOf(s, e) else if LaunchOf(s, e) == Launched then Closing else Ended(true)
    case _ =>
      if EndingOf(s, e) == NotEnding && AsksToEnd(s, step, s', e) then AwaitingLaunch else EndingOf(s, e)
  }

  /** When a step about a browser's promises is due. */
  predicate Due(s: System, step: Step, e: nat) {
    match step
    case LaunchSettles(d, _) => d == e ==> LaunchOf(s, e) == Launching
    case EndingSettles(d, _) => d == e ==> EndingOf(s, e) == Closing
    case EndingProceeds(d) => d == e ==> EndingOf(s, e) == AwaitingLaunch && LaunchOf(s, e) != Launching
    case _ => true
  }

  lemma TurnLaunch(c: Config, s: System, step: Step, s': System, e: nat)
    requires Inv(c, s) && step.TakeTurn? && TaskMoves(c, s, step.task, step, s')
    ensures LaunchStep(s, step, s', e)
  {
  }

  lemma TurnEnding(c: Config, s: System, step: Step, s': System, e: nat)
    requires Inv(c, s) && step.TakeTurn? && TaskMoves(c, s, step.task, step, s')
    ensures EndingStep(s, step, s', e)
  {
  }

  lemma TaskLaunch(c: Config, s: System, step: Step, s': System, e: nat)
    requires Inv(c, s) && (step.Resume? || step.ActionEnds? || step.CloseNext?) && TaskMoves(c, s, step.task, step, s')
    ensures LaunchStep(s, step, s', e)
  {
  }

  lemma TaskEnding(c: Config, s: System, step: Step, s': System, e: nat)
    requires Inv(c, s) && (step.Resume? || step.ActionEnds? || step.CloseNext?) && TaskMoves(c, s, step.task, step, s')
    ensures EndingStep(s, step, s', e)
  {
  }

  lemma PoolLaunch(s: System, step: Step, s': System, e: nat)
    requires WellFormed(s.pool) && s'.tasks == s.tasks && PoolStep(s.pool, step, s'.pool)
    ensures LaunchStep(s, step, s', e) && Due(s, step, e)
  {
  }

  lemma PoolEnding(s: System, step: Step, s': System, e: nat)
    requires WellFormed(s.pool) && s'.tasks == s.tasks && PoolStep(s.pool, step, s'.pool)
    ensures EndingStep(s, step, s', e)
  {
  }

  /** Every step changes a browser in exactly these ways, and only where they are due. */
  lemma EveryStepOf(c: Config, s: System, step: Step, s': System, e: nat)
    requires Inv(c, s) && Next(c, s, step, s')
    ensures LaunchStep(s, step, s', e) && EndingStep(s, step, s', e) && Due(s, step, e)
  {
    match step
    case CallUse(_) =>
    case CallCloseAll(_) =>
    case TakeTurn(_, _) =>
      TurnLaunch(c, s, step, s', e);
      TurnEnding(c, s, step, s', e);
    case Resume(_) =>
      TaskLaunch(c, s, step, s', e);
      TaskEnding(c, s, step, s', e);
    case ActionEnds(_, _) =>
      TaskLaunch(c, s, step, s', e);
      TaskEnding(c, s, step, s', e);
    case CloseNext(_) =>
      TaskLaunch(c, s, step, s', e);
      TaskEnding(c, s, step, s', e);
    case _ =>
      PoolLaunch(s, step, s', e);
      PoolEnding(s, step, s', e);
  }

  ghost predicate Happened(steps: seq<Step>, n: nat, step: Step)
    requires n <= |steps|
  {
    exists k: nat :: k < n && steps[k] == step
  }

  lemma OneMore(steps: seq<Step>, n: nat, step: Step)
    requires n < |steps|
    ensures Happened(steps, n + 1, step) <==> Happened(steps, n, step) || steps[n] == step
  {
  }

  /** The bytes of a browser's last sample, none counting as zero. */
  function LastSample(steps: seq<Step>, n: nat, e: nat): int
    requires n <= |steps|
  {
    if n == 0 then 0
    else if steps[n - 1].Sampled? && steps[n - 1].entry == e then steps[n - 1].bytes
    else LastSample(steps, n - 1, e)
  }

  /** The ending went on when the launch had failed, so that there was no browser to end. */
  ghost predicate EndedUnlaunched(steps: seq<Step>, n: nat, e: nat)
    requires n <= |steps|
  {
    Happened(steps, n, EndingProceeds(e)) && Happened(steps, n, LaunchSettles(e, false))
  }

  /** A browser's launch and memory as the steps so far tell them. */
  ghost predicate LaunchTold(s: System, steps: seq<Step>, n: nat, e: nat)
    requires n <= |steps|
  {
    && (LaunchOf(s, e) == Launched <==> Happened(steps, n, LaunchSettles(e, true)))
    && (LaunchOf(s, e) == LaunchFailed <==> Happened(steps, n, LaunchSettles(e, false)))
    && BytesOf(s, e) == LastSample(steps, n, e)
  }

  /** Its ending as they tell it. */
  ghost predicate EndingTold(s: System, steps: seq<Step>, n: nat, e: nat)
    requires n <= |steps|
  {
    && (EndingOf(s, e) == Ended(false) <==> Happened(steps, n, EndingSettles(e, false)))
    && (EndingOf(s, e) == Ended(true) <==> Happened(steps, n, EndingSettles(e, true)) || EndedUnlaunched(steps, n, e))
    && (Happened(steps, n, EndingProceeds(e)) ==> LaunchOf(s, e) != Launching)
    && (Happened(steps, n, EndingProceeds(e)) <==> EndingOf(s, e).Closing? || EndingOf(s, e).Ended?)
  }

  lemma LaunchToldAt(s: System, s': System, steps: seq<Step>, n: nat, e: nat)
    requires n < |steps| && Due(s, steps[n], e) && LaunchStep(s, steps[n], s', e) && LaunchTold(s, steps, n, e)
    ensures LaunchTold(s', steps, n + 1, e)
  {
    OneMore(steps, n, LaunchSettles(e, true));
    OneMore(steps, n, LaunchSettles(e, false));
  }

  lemma EndingToldAt(s: System, s': System, steps: seq<Step>, n: nat, e: nat)
    requires n < |steps| && Due(s, steps[n], e)
    requires LaunchStep(s, steps[n], s', e) && EndingStep(s, steps[n], s', e)
    requires LaunchTold(s, steps, n, e) && EndingTold(s, steps, n, e)
    ensures EndingTold(s', steps, n + 1, e)
  {
    OneMore(steps, n, LaunchSettles(e, false));
    OneMore(steps, n, EndingSettles(e, true));
    OneMore(steps, n, EndingSettles(e, false));
    OneMore(steps, n, EndingProceeds(e));
  }

  lemma ToldAt(c: Config, states: seq<System>, steps: seq<Step>, n: nat, e: nat)
    requires Execution(c, states, steps) && Initial(states[0]) && n < |steps|
    requires LaunchTold(states[n], steps, n, e) && EndingTold(states[n], steps, n, e)
    ensures LaunchTold(states[n + 1], steps, n + 1, e) && EndingTold(states[n + 1], steps, n + 1, e)
  {
    ReachableInv(c, states, steps, n);
    EveryStepOf(c, states[n], steps[n], states[n + 1], e);
    LaunchToldAt(states[n], states[n + 1], steps, n, e);
    EndingToldAt(states[n], states[n + 1], steps, n, e);
  }

  lemma {:induction false} ToldInEveryRun(c: Config, states: seq<System>, steps: seq<Step>, n: nat, e: nat)
    requires Execution(c, states, steps) && Initial(states[0]) && n < |states|
    ensures LaunchTold(states[n], steps, n, e) && EndingTold(states[n], steps, n, e)
  {
    if n == 0 {
      NothingTold(states[0], steps, e);
    } else {
      ToldInEveryRun(c, states, steps, n - 1, e);
      ToldAt(c, states, steps, n - 1, e);
    }
  }

  lemma NothingTold(s: System, steps: seq<Step>, e: nat)
    requires Initial(s)
    ensures LaunchTold(s, steps, 0, e) && EndingTold(s, steps, 0, e)
  {
  }

  /**
   In every run a browser launched, failed or ended exactly as some step had it, its recorded memory
   is its last sample, and it is in the map from its launch until its ending settled or its failed
   launch was handled.
   */
  lemma BrowserHistory(c: Config, states: seq<System>, steps: seq<Step>, n: nat, e: nat)
    requires Execution(c, states, steps) && Initial(states[0]) && n < |states|
    ensures LaunchTold(states[n], steps, n, e) && EndingTold(states[n], steps, n, e)
    ensures var p := states[n].pool;
            (exists k :: k in p.open && p.open[k] == e) <==>
            && e < |p.entries| && !p.entries[e].ending.Ended?
            && !(p.entries[e].launch == LaunchFailed && p.entries[e].handled && p.entries[e].ending == NotEnding)
  {
    ToldInEveryRun(c, states, steps, n, e);
    ReachableInv(c, states, steps, n);
    OpenUntilGone(c, states[n].pool, e);
  }

  lemma OpenUntilGone(c: Config, p: Pool, e: nat)
    requires PoolInv(c, p)
    ensures (exists k :: k in p.open && p.open[k] == e) <==>
            && e < |p.entries| && !p.entries[e].ending.Ended?
            && !(p.entries[e].launch == LaunchFailed && p.entries[e].handled && p.entries[e].ending == NotEnding)
  {
    if e < |p.entries| {
      assert EntryOk(p, e);
      if !Gone(p.entries[e]) {
        assert p.entries[e].key in p.open;
      }
    }
  }
}
