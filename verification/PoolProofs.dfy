/** What every reachable state of the browser pool satisfies. */
module PoolProofs {
  import opened PoolModel

  // ----- The invariant -----

  /** An entry that has left the map: its ending settled, or its launch failed with no ending. */
  predicate Gone(entry: Entry) {
    entry.ending.Ended? || (entry.ending == NotEnding && entry.launch == LaunchFailed && entry.handled)
  }

  predicate EntryOk(p: Pool, e: nat)
    requires e < |p.entries|
  {
    var entry := p.entries[e];
    && (IsOpen(p, e) <==> !Gone(entry))
    && entry.holds >= 0
    && (entry.holds == 0 ==> entry.idleSince > 0)
    && entry.idleSince <= p.actionsEnded
    && (entry.handled ==> entry.launch != Launching)
    && (entry.ending == Closing ==> entry.launch == Launched)
    && (p.waiting != [] && IsOpen(p, e) ==> entry.holds > 0 || entry.ending != NotEnding)
  }

  ghost predicate PoolInv(c: Config, p: Pool) {
    && WellFormed(p)
    && |p.open| <= c.browsers
    && (forall e: nat | e < |p.entries| :: EntryOk(p, e))
    && (forall d: nat, e: nat | d < e < |p.entries| ::
          p.entries[d].idleSince == 0 || p.entries[d].idleSince != p.entries[e].idleSince)
    && (p.waiting != [] ==> p.open != map[])
  }

  predicate TaskOk(p: Pool, task: Task) {
    match task
    case OnEnding(key, e) => e < |p.entries| && p.entries[e].key == key && p.entries[e].ending != NotEnding
    case OnEviction(_, e) => e < |p.entries| && p.entries[e].ending != NotEnding && p.entries[e].holds == 0
    case OnLaunch(key, e) => e < |p.entries| && p.entries[e].key == key
    case Acting(key, e) => e < |p.entries| && p.entries[e].key == key && p.entries[e].launch == Launched
    case ClosingAll(current, rest) =>
      && p.closed
      && (current.Awaiting? ==> current.entry < |p.entries| && p.entries[current.entry].ending != NotEnding)
      && (forall k :: k in p.open ==> k in rest || (current.Awaiting? && p.open[k] == current.entry))
    case ClosedAll => p.closed && p.open == map[]
    case _ => true
  }

  function HoldsOf(task: Task, e: nat): nat {
    if (task.OnLaunch? || task.Acting?) && task.entry == e then 1 else 0
  }

  /** How many tasks hold an entry. */
  function HoldCount(tasks: seq<Task>, e: nat): nat {
    if tasks == [] then 0
    else HoldCount(tasks[..|tasks| - 1], e) + HoldsOf(tasks[|tasks| - 1], e)
  }

  /** What a pool records as held: nothing beyond its entries. */
  function Held(p: Pool, e: nat): int {
    if e < |p.entries| then p.entries[e].holds else 0
  }

  predicate WaitingOk(s: System) {
    && (forall i | 0 <= i < |s.pool.waiting| ::
          s.pool.waiting[i] < |s.tasks| && s.tasks[s.pool.waiting[i]].Parked?)
    && (forall i, j | 0 <= i < j < |s.pool.waiting| :: s.pool.waiting[i] != s.pool.waiting[j])
  }

  ghost predicate Inv(c: Config, s: System) {
    && PoolInv(c, s.pool)
    && (forall t | 0 <= t < |s.tasks| :: TaskOk(s.pool, s.tasks[t]))
    && (forall e: nat :: HoldCount(s.tasks, e) == Held(s.pool, e))
    && WaitingOk(s)
  }

  // ----- Counting holds -----

  lemma {:induction false} HoldCountUpdate(tasks: seq<Task>, t: nat, task: Task, e: nat)
    requires t < |tasks|
    ensures HoldCount(tasks[t := task], e) == HoldCount(tasks, e) - HoldsOf(tasks[t], e) + HoldsOf(task, e)
  {
    var n := |tasks| - 1;
    if t == n {
      assert tasks[t := task][..n] == tasks[..n];
    } else {
      HoldCountUpdate(tasks[..n], t, task, e);
      assert tasks[t := task][..n] == tasks[..n][t := task];
    }
  }

  lemma HoldCountAppend(tasks: seq<Task>, task: Task, e: nat)
    ensures HoldCount(tasks + [task], e) == HoldCount(tasks, e) + HoldsOf(task, e)
  {
    assert (tasks + [task])[..|tasks|] == tasks;
  }

  lemma {:induction false} HeldByATask(tasks: seq<Task>, e: nat)
    requires HoldCount(tasks, e) > 0
    ensures exists t: nat :: t < |tasks| && HoldsOf(tasks[t], e) == 1
  {
    var n := |tasks| - 1;
    if HoldsOf(tasks[n], e) == 0 {
      HeldByATask(tasks[..n], e);
      var t: nat :| t < n && HoldsOf(tasks[..n][t], e) == 1;
      assert HoldsOf(tasks[t], e) == 1;
    }
  }

  lemma HolderCounts(tasks: seq<Task>, t: nat, e: nat)
    requires t < |tasks|
    ensures HoldCount(tasks, e) >= HoldsOf(tasks[t], e)
  {
    HoldCountUpdate(tasks, t, Settled(true), e);
  }

  // ----- Each pool operation keeps the pool invariant -----

  /** An update in place that changes neither who holds the entry nor whether it is gone. */
  lemma SetEntryKeeps(c: Config, p: Pool, e: nat, entry: Entry)
    requires PoolInv(c, p) && e < |p.entries|
    requires entry.key == p.entries[e].key && Gone(entry) == Gone(p.entries[e])
    requires entry.holds == p.entries[e].holds && entry.idleSince == p.entries[e].idleSince
    requires entry.handled ==> entry.launch != Launching
    requires entry.ending == Closing ==> entry.launch == Launched
    requires p.entries[e].ending != NotEnding ==> entry.ending != NotEnding
    ensures PoolInv(c, SetEntry(p, e, entry))
  {
    forall x: nat | x < |p.entries| ensures EntryOk(SetEntry(p, e, entry), x) {
      assert EntryOk(p, x);
    }
  }

  /** An open entry leaves the map as it becomes gone, and every waiter is woken. */
  lemma RemoveKeeps(c: Config, p: Pool, e: nat, entry: Entry)
    requires PoolInv(c, p) && e < |p.entries| && IsOpen(p, e)
    requires entry.key == p.entries[e].key && Gone(entry)
    requires entry.holds == p.entries[e].holds && entry.idleSince == p.entries[e].idleSince
    requires entry.handled ==> entry.launch != Launching
    ensures PoolInv(c, Wake(SetEntry(Remove(p, e), e, entry)))
  {
    var p' := Wake(SetEntry(Remove(p, e), e, entry));
    assert p'.open.Keys == p.open.Keys - {entry.key};
    forall x: nat | x < |p.entries| ensures EntryOk(p', x) {
      assert EntryOk(p, x);
    }
  }

  lemma StartEndingKeeps(c: Config, p: Pool, key: Key)
    requires PoolInv(c, p)
    ensures PoolInv(c, StartEnding(p, key))
  {
    if key in p.open && p.entries[p.open[key]].ending == NotEnding {
      assert EntryOk(p, p.open[key]);
      SetEntryKeeps(c, p, p.open[key], p.entries[p.open[key]].(ending := AwaitingLaunch));
    }
  }

  lemma PoolStepKeeps(c: Config, p: Pool, step: Step, p': Pool)
    requires PoolInv(c, p) && PoolStep(p, step, p')
    ensures PoolInv(c, p')
  {
    if step.CallEnd? {
      StartEndingKeeps(c, p, step.key);
    } else {
      var e := step.entry;
      assert EntryOk(p, e);
      if (step.LaunchHandler? || step.EndingProceeds? || step.EndingSettles?) && IsOpen(p, e) && Gone(p'.entries[e]) {
        RemoveKeeps(c, p, e, p'.entries[e]);
        if step.LaunchHandler? {
          assert p' == Wake(SetEntry(Remove(p, e), e, p'.entries[e]));
        }
      } else {
        SetEntryKeeps(c, p, e, p'.entries[e]);
      }
    }
  }

  lemma ReleaseKeeps(c: Config, p: Pool, e: nat)
    requires PoolInv(c, p) && e < |p.entries| && p.entries[e].holds > 0
    ensures PoolInv(c, Release(p, e))
  {
    var p' := Release(p, e);
    forall x: nat | x < |p.entries| ensures EntryOk(p', x) && p.entries[x].idleSince <= p.actionsEnded {
      assert EntryOk(p, x);
    }
  }

  lemma HoldKeeps(c: Config, p: Pool, e: nat)
    requires PoolInv(c, p) && e < |p.entries|
    ensures PoolInv(c, Hold(p, e))
  {
    forall x: nat | x < |p.entries| ensures EntryOk(Hold(p, e), x) {
      assert EntryOk(p, x);
    }
  }

  lemma OpenKeeps(c: Config, p: Pool, key: Key)
    requires PoolInv(c, p) && key !in p.open && |p.open| < c.browsers
    ensures PoolInv(c, Open(p, key))
  {
    var p' := Open(p, key);
    assert |p'.open| == |p.open| + 1;
    forall x: nat | x < |p'.entries| ensures EntryOk(p', x) {
      if x < |p.entries| {
        assert EntryOk(p, x);
      }
    }
  }

  lemma TurnKeeps(c: Config, p: Pool, t: nat, key: Key, free: int, p': Pool, task': Task)
    requires PoolInv(c, p) && TurnEffect(c, p, t, key, free, p', task')
    ensures PoolInv(c, p')
  {
    if task'.OnLaunch? {
      if key in p.open {
        HoldKeeps(c, p, p.open[key]);
      } else {
        OpenKeeps(c, p, key);
      }
    } else if task'.OnEviction? {
      StartEndingKeeps(c, p, p.entries[task'.entry].key);
    } else if task'.Parked? {
      forall x: nat | x < |p.entries| ensures EntryOk(p', x) {
        assert EntryOk(p, x) && !Idle(p, x);
      }
    }
  }

  // ----- What no step ever undoes -----

  /**
   Nothing is forgotten: an entry keeps its number and key, a settled launch or ending stays as it
   settled, an entry that left the map never returns, one that is ending gains no holder, and a
   closed pool stays closed, opens nothing and only loses entries.
   */
  predicate Evolves(p: Pool, p': Pool) {
    && |p.entries| <= |p'.entries|
    && (forall e: nat | e < |p.entries| :: EntryEvolves(p.entries[e], p'.entries[e]))
    && p.actionsEnded <= p'.actionsEnded
    && (p.closed ==> ClosedEvolves(p, p'))
  }

  predicate EntryEvolves(entry: Entry, entry': Entry) {
    && entry'.key == entry.key
    && (entry.launch != Launching ==> entry'.launch == entry.launch)
    && (entry.handled ==> entry'.handled)
    && (Gone(entry) ==> Gone(entry'))
    && (entry.ending != NotEnding ==> entry'.ending != NotEnding && entry'.holds <= entry.holds)
    && (entry.ending.Ended? ==> entry'.ending == entry.ending)
  }

  predicate ClosedEvolves(p: Pool, p': Pool) {
    && p'.closed
    && |p'.entries| == |p.entries|
    && forall k :: k in p'.open ==> k in p.open && p'.open[k] == p.open[k]
  }

  lemma EvolvesTransitively(p: Pool, q: Pool, r: Pool)
    requires Evolves(p, q) && Evolves(q, r)
    ensures Evolves(p, r)
  {
    forall e: nat | e < |p.entries| ensures EntryEvolves(p.entries[e], r.entries[e]) {
      assert EntryEvolves(p.entries[e], q.entries[e]);
      assert EntryEvolves(q.entries[e], r.entries[e]);
    }
  }

  lemma StartEndingEvolves(c: Config, p: Pool, key: Key)
    requires PoolInv(c, p)
    ensures Evolves(p, StartEnding(p, key))
  {
    if key in p.open {
      assert EntryOk(p, p.open[key]);
    }
  }

  lemma HandleLaunchEvolves(c: Config, p: Pool, e: nat)
    requires PoolInv(c, p) && e < |p.entries| && p.entries[e].launch != Launching && !p.entries[e].handled
    ensures Evolves(p, HandleLaunch(p, e))
  {
    assert EntryOk(p, e);
  }

  lemma SettleEvolves(c: Config, p: Pool, e: nat, ok: bool)
    requires PoolInv(c, p) && e < |p.entries| && p.entries[e].ending in {AwaitingLaunch, Closing}
    ensures Evolves(p, SettleEnding(p, e, ok))
  {
    assert EntryOk(p, e);
  }

  lemma ProceedEvolves(c: Config, p: Pool, e: nat)
    requires PoolInv(c, p) && e < |p.entries| && p.entries[e].ending == AwaitingLaunch
    ensures Evolves(p, ProceedEnding(p, e))
  {
    if p.entries[e].launch == Launched {
      assert EntryOk(p, e);
    } else {
      SettleEvolves(c, p, e, true);
    }
  }

  lemma PoolStepEvolves(c: Config, p: Pool, step: Step, p': Pool)
    requires PoolInv(c, p) && PoolStep(p, step, p')
    ensures Evolves(p, p')
  {
    if step.CallEnd? {
      StartEndingEvolves(c, p, step.key);
    } else if step.LaunchHandler? {
      HandleLaunchEvolves(c, p, step.entry);
    } else if step.EndingProceeds? {
      ProceedEvolves(c, p, step.entry);
    } else if step.EndingSettles? {
      SettleEvolves(c, p, step.entry, step.ok);
    } else {
      assert EntryOk(p, step.entry);
    }
  }

  lemma TurnEvolves(c: Config, p: Pool, t: nat, key: Key, free: int, p': Pool, task': Task)
    requires PoolInv(c, p) && TurnEffect(c, p, t, key, free, p', task')
    ensures Evolves(p, p')
  {
    if task'.OnEviction? {
      StartEndingEvolves(c, p, p.entries[task'.entry].key);
    }
  }

  lemma ReleaseEvolves(p: Pool, e: nat)
    requires e < |p.entries|
    ensures Evolves(p, Release(p, e))
  {
  }

  lemma TaskStepEvolves(c: Config, p: Pool, t: nat, task: Task, step: Step, p': Pool, task': Task)
    requires PoolInv(c, p) && TaskStep(c, p, t, task, step, p', task')
    ensures Evolves(p, p')
  {
    match step
    case TakeTurn(_, free) => TurnEvolves(c, p, t, task.key, free, p', task');
    case Resume(_) => if task.OnLaunch? { ReleaseEvolves(p, task.entry); }
    case ActionEnds(_, _) => ReleaseEvolves(p, task.entry);
    case CloseNext(_) => if task.rest != [] { StartEndingEvolves(c, p, task.rest[0]); }
    case _ =>
  }

  lemma NextEvolves(c: Config, s: System, step: Step, s': System)
    requires Inv(c, s) && Next(c, s, step, s')
    ensures Evolves(s.pool, s'.pool)
  {
    match step
    case CallUse(_) =>
    case CallCloseAll(_) =>
    case TakeTurn(t, _) => TaskStepEvolves(c, s.pool, t, s.tasks[t], step, s'.pool, s'.tasks[t]);
    case Resume(t) => TaskStepEvolves(c, s.pool, t, s.tasks[t], step, s'.pool, s'.tasks[t]);
    case ActionEnds(t, _) => TaskStepEvolves(c, s.pool, t, s.tasks[t], step, s'.pool, s'.tasks[t]);
    case CloseNext(t) => TaskStepEvolves(c, s.pool, t, s.tasks[t], step, s'.pool, s'.tasks[t]);
    case _ => PoolStepEvolves(c, s.pool, step, s'.pool);
  }

  lemma TaskOkEvolves(c: Config, p: Pool, task: Task, p': Pool)
    requires PoolInv(c, p) && PoolInv(c, p') && Evolves(p, p') && TaskOk(p, task)
    ensures TaskOk(p', task)
  {
    match task
    case OnEviction(_, e) =>
      assert EntryEvolves(p.entries[e], p'.entries[e]) && EntryOk(p', e);
    case _ =>
  }

  // ----- Every step keeps the invariant -----

  lemma TaskMoveKeepsPool(c: Config, s: System, t: nat, step: Step, s': System)
    requires Inv(c, s) && TaskMoves(c, s, t, step, s') && Next(c, s, step, s')
    ensures PoolInv(c, s'.pool)
  {
    var task := s.tasks[t];
    if step.TakeTurn? {
      TurnKeeps(c, s.pool, t, task.key, step.free, s'.pool, s'.tasks[t]);
    } else if step.CloseNext? {
      if task.rest != [] {
        StartEndingKeeps(c, s.pool, task.rest[0]);
      }
    } else if s'.pool != s.pool {
      HolderCounts(s.tasks, t, task.entry);
      ReleaseKeeps(c, s.pool, task.entry);
    }
  }

  lemma NextKeepsPool(c: Config, s: System, step: Step, s': System)
    requires Inv(c, s) && Next(c, s, step, s')
    ensures PoolInv(c, s'.pool)
  {
    if step.TakeTurn? || step.Resume? || step.ActionEnds? || step.CloseNext? {
      TaskMoveKeepsPool(c, s, step.task, step, s');
    } else if step.CallCloseAll? {
      forall x: nat | x < |s.pool.entries| ensures EntryOk(s'.pool, x) {
        assert EntryOk(s.pool, x);
      }
    } else if !step.CallUse? {
      PoolStepKeeps(c, s.pool, step, s'.pool);
    }
  }

  lemma TurnTaskOk(c: Config, p: Pool, t: nat, key: Key, free: int, p': Pool, task': Task)
    requires PoolInv(c, p) && TurnEffect(c, p, t, key, free, p', task')
    ensures TaskOk(p', task')
  {
  }

  lemma CloseTaskOk(c: Config, p: Pool, t: nat, task: Task, p': Pool, task': Task)
    requires PoolInv(c, p) && TaskOk(p, task) && TaskStep(c, p, t, task, CloseNext(t), p', task')
    ensures TaskOk(p', task')
  {
    if task.current.Awaiting? {
      assert EntryOk(p, task.current.entry);
    }
  }

  /** The moved task itself. */
  lemma MovedTaskOk(c: Config, p: Pool, t: nat, task: Task, step: Step, p': Pool, task': Task)
    requires PoolInv(c, p) && TaskOk(p, task) && TaskStep(c, p, t, task, step, p', task')
    ensures TaskOk(p', task')
  {
    match step
    case TakeTurn(_, free) => TurnTaskOk(c, p, t, task.key, free, p', task');
    case CloseNext(_) => CloseTaskOk(c, p, t, task, p', task');
    case _ =>
  }

  lemma NextKeepsTasks(c: Config, s: System, step: Step, s': System)
    requires Inv(c, s) && Next(c, s, step, s')
    ensures forall t | 0 <= t < |s'.tasks| :: TaskOk(s'.pool, s'.tasks[t])
  {
    NextKeepsPool(c, s, step, s');
    NextEvolves(c, s, step, s');
    forall t | 0 <= t < |s'.tasks| ensures TaskOk(s'.pool, s'.tasks[t]) {
      if t < |s.tasks| && s'.tasks[t] == s.tasks[t] {
        TaskOkEvolves(c, s.pool, s.tasks[t], s'.pool);
      } else if t < |s.tasks| {
        MovedTaskOk(c, s.pool, t, s.tasks[t], step, s'.pool, s'.tasks[t]);
      }
    }
  }

  lemma TurnHolds(c: Config, p: Pool, t: nat, key: Key, free: int, p': Pool, task': Task, e: nat)
    requires PoolInv(c, p) && TurnEffect(c, p, t, key, free, p', task')
    ensures Held(p', e) == Held(p, e) + HoldsOf(task', e)
  {
  }

  lemma TaskStepHolds(c: Config, p: Pool, t: nat, task: Task, step: Step, p': Pool, task': Task, e: nat)
    requires PoolInv(c, p) && TaskOk(p, task) && TaskStep(c, p, t, task, step, p', task')
    ensures Held(p', e) == Held(p, e) - HoldsOf(task, e) + HoldsOf(task', e)
  {
    if step.TakeTurn? {
      TurnHolds(c, p, t, task.key, step.free, p', task', e);
    }
  }

  lemma PoolStepHolds(p: Pool, step: Step, p': Pool, e: nat)
    requires WellFormed(p) && PoolStep(p, step, p')
    ensures Held(p', e) == Held(p, e)
  {
  }

  lemma MoveKeepsHolds(c: Config, s: System, t: nat, step: Step, s': System, e: nat)
    requires Inv(c, s) && TaskMoves(c, s, t, step, s') && Next(c, s, step, s')
    ensures HoldCount(s'.tasks, e) == Held(s'.pool, e)
  {
    HoldCountUpdate(s.tasks, t, s'.tasks[t], e);
    TaskStepHolds(c, s.pool, t, s.tasks[t], step, s'.pool, s'.tasks[t], e);
  }

  lemma CallKeepsHolds(c: Config, s: System, task: Task, s': System, e: nat)
    requires Inv(c, s) && s'.tasks == s.tasks + [task] && s'.pool.entries == s.pool.entries && HoldsOf(task, e) == 0
    ensures HoldCount(s'.tasks, e) == Held(s'.pool, e)
  {
    HoldCountAppend(s.tasks, task, e);
  }

  /** Holds are conserved: each entry counts exactly the tasks that hold it. */
  lemma NextKeepsHolds(c: Config, s: System, step: Step, s': System, e: nat)
    requires Inv(c, s) && Next(c, s, step, s')
    ensures HoldCount(s'.tasks, e) == Held(s'.pool, e)
  {
    match step
    case TakeTurn(t, _) => MoveKeepsHolds(c, s, t, step, s', e);
    case Resume(t) => MoveKeepsHolds(c, s, t, step, s', e);
    case ActionEnds(t, _) => MoveKeepsHolds(c, s, t, step, s', e);
    case CloseNext(t) => MoveKeepsHolds(c, s, t, step, s', e);
    case CallUse(key) => CallKeepsHolds(c, s, Turn(key), s', e);
    case CallCloseAll(keys) => CallKeepsHolds(c, s, ClosingAll(Nothing, keys), s', e);
    case _ => PoolStepHolds(s.pool, step, s'.pool, e);
  }

  /** What a step makes of the list of waiters. */
  lemma PoolStepWaiting(p: Pool, step: Step, p': Pool)
    requires WellFormed(p) && PoolStep(p, step, p')
    ensures p'.waiting == p.waiting || p'.waiting == []
  {
  }

  lemma TaskStepWaiting(c: Config, p: Pool, t: nat, task: Task, step: Step, p': Pool, task': Task)
    requires WellFormed(p) && TaskStep(c, p, t, task, step, p', task')
    ensures task.Parked? ==> t !in p.waiting
    ensures p'.waiting == p.waiting || p'.waiting == [] || (p'.waiting == p.waiting + [t] && task'.Parked?)
  {
  }

  lemma NextKeepsWaiting(c: Config, s: System, step: Step, s': System)
    requires Inv(c, s) && Next(c, s, step, s')
    ensures WaitingOk(s')
  {
    match step
    case CallUse(_) =>
    case CallCloseAll(_) =>
    case TakeTurn(t, _) => TaskStepWaiting(c, s.pool, t, s.tasks[t], step, s'.pool, s'.tasks[t]);
    case Resume(t) => TaskStepWaiting(c, s.pool, t, s.tasks[t], step, s'.pool, s'.tasks[t]);
    case ActionEnds(t, _) => TaskStepWaiting(c, s.pool, t, s.tasks[t], step, s'.pool, s'.tasks[t]);
    case CloseNext(t) => TaskStepWaiting(c, s.pool, t, s.tasks[t], step, s'.pool, s'.tasks[t]);
    case _ => PoolStepWaiting(s.pool, step, s'.pool);
  }

  lemma NextKeepsInv(c: Config, s: System, step: Step, s': System)
    requires Inv(c, s) && Next(c, s, step, s')
    ensures Inv(c, s')
  {
    NextKeepsPool(c, s, step, s');
    NextKeepsTasks(c, s, step, s');
    forall e: nat ensures HoldCount(s'.tasks, e) == Held(s'.pool, e) {
      NextKeepsHolds(c, s, step, s', e);
    }
    NextKeepsWaiting(c, s, step, s');
  }

  lemma {:induction false} ReachableInv(c: Config, states: seq<System>, steps: seq<Step>, i: nat)
    requires Execution(c, states, steps) && Initial(states[0]) && i < |states|
    ensures Inv(c, states[i])
  {
    if i > 0 {
      ReachableInv(c, states, steps, i - 1);
      NextKeepsInv(c, states[i - 1], steps[i - 1], states[i]);
    }
  }
}
