/**
 How every run of the browser pool ends: what is under way can only go on for so long, and where
 nothing of it can go on nobody waits. The statements are over every run and every outcome.
 */
module PoolProgress {
  import opened Ordering
  import opened PoolModel
  import opened PoolProofs
  import opened PoolTheorems

  // ----- A measure of what is still to come -----

  /** How many completions an entry may still take part in. */
  function EntryWork(entry: Entry): int {
    (if entry.launch == Launching then 1 else 0) + (if entry.handled then 0 else 1)
    + match entry.ending
      case NotEnding => 3
      case AwaitingLaunch => 2
      case Closing => 1
      case Ended(_) => 0
  }

  predicate Acquiring(task: Task) {
    task.Turn? || task.OnEnding? || task.OnEviction? || task.Parked?
  }

  /**
   How many steps a task may still take before it returns. An acquiring one weighs more than the
   browser it may launch, so that its rounds of waiting and retrying leave the work as it is.
   */
  function TaskWork(task: Task): int {
    match task
    case OnLaunch(_, _) => 2
    case Acting(_, _) => 1
    case ClosingAll(_, rest) => 1 + |rest|
    case Settled(_) => 0
    case ClosedAll => 0
    case _ => 8
  }

  function EntriesWork(p: Pool): int {
    Total(p.entries, EntryWork)
  }

  function Work(s: System): int {
    EntriesWork(s.pool) + Total(s.tasks, TaskWork)
  }

  lemma {:induction false} TotalNotNegative<T>(xs: seq<T>, weight: T -> int)
    requires forall x | x in xs :: weight(x) >= 0
    ensures Total(xs, weight) >= 0
  {
    if xs != [] {
      TotalNotNegative(xs[..|xs| - 1], weight);
    }
  }

  lemma WorkNotNegative(s: System)
    ensures Work(s) >= 0
  {
    TotalNotNegative(s.pool.entries, EntryWork);
    TotalNotNegative(s.tasks, TaskWork);
  }

  /** What an acquiring task may still do before it needs something else to happen. */
  function Rank(p: Pool, t: nat, task: Task): int {
    match task
    case Turn(_) => 1
    case Parked(_) => if t in p.waiting then 0 else 2
    case OnEnding(_, e) => if EndedEntry(p, e) then 2 else 0
    case OnEviction(_, e) => if EndedEntry(p, e) then 2 else 0
    case _ => 0
  }

  function Ranks(p: Pool, tasks: seq<Task>, n: nat): int
    requires n <= |tasks|
  {
    if n == 0 then 0 else Ranks(p, tasks, n - 1) + Rank(p, n - 1, tasks[n - 1])
  }

  lemma {:induction false} RanksAreBounded(p: Pool, tasks: seq<Task>, n: nat)
    requires n <= |tasks|
    ensures 0 <= Ranks(p, tasks, n) <= 2 * n
  {
    if n > 0 {
      RanksAreBounded(p, tasks, n - 1);
    }
  }

  lemma {:induction false} RanksFall(p: Pool, tasks: seq<Task>, p': Pool, tasks': seq<Task>, t: nat, n: nat)
    requires n <= |tasks| == |tasks'| && t < |tasks| && Rank(p', t, tasks'[t]) < Rank(p, t, tasks[t])
    requires forall u | 0 <= u < n && u != t :: Rank(p', u, tasks'[u]) == Rank(p, u, tasks[u])
    ensures Ranks(p', tasks', n) <= Ranks(p, tasks, n)
    ensures t < n ==> Ranks(p', tasks', n) < Ranks(p, tasks, n)
  {
    if n > 0 {
      RanksFall(p, tasks, p', tasks', t, n - 1);
    }
  }

  function RankOf(s: System): int {
    Ranks(s.pool, s.tasks, |s.tasks|)
  }

  /** The work comes first and the ranks decide among equals, in one number. */
  function Measure(s: System): int {
    Work(s) * (2 * |s.tasks| + 1) + RankOf(s)
  }

  lemma MeasureNotNegative(s: System)
    ensures Measure(s) >= 0
  {
    WorkNotNegative(s);
    RanksAreBounded(s.pool, s.tasks, |s.tasks|);
  }

  predicate Falls(s: System, s': System) {
    Work(s') < Work(s) || (Work(s') == Work(s) && RankOf(s') < RankOf(s))
  }

  lemma OneNumber(work: int, rank: int, work': int, rank': int, n: nat)
    requires 0 <= rank <= 2 * n && 0 <= rank' <= 2 * n
    requires work' < work || (work' == work && rank' < rank)
    ensures work' * (2 * n + 1) + rank' < work * (2 * n + 1) + rank
  {
    if work' < work {
      assert (work - 1 - work') * (2 * n + 1) >= 0;
    }
  }

  lemma MeasureFalls(s: System, s': System)
    requires |s'.tasks| == |s.tasks| && Falls(s, s')
    ensures Measure(s') < Measure(s)
  {
    RanksAreBounded(s.pool, s.tasks, |s.tasks|);
    RanksAreBounded(s'.pool, s'.tasks, |s'.tasks|);
    OneNumber(Work(s), RankOf(s), Work(s'), RankOf(s'), |s.tasks|);
  }

  /** A step of what is under way: a completion, or a turn of acquire's loop at any free memory. */
  predicate Internal(step: Step) {
    Completion(step) || step.TakeTurn?
  }

  lemma SetEntryWork(p: Pool, e: nat, entry: Entry)
    requires e < |p.entries|
    ensures EntriesWork(SetEntry(p, e, entry)) == EntriesWork(p) - EntryWork(p.entries[e]) + EntryWork(entry)
  {
    TotalUpdate(p.entries, e, entry, EntryWork);
  }

  /** Starting an ending and releasing a hold add nothing to do. */
  lemma StartEndingWork(p: Pool, key: Key)
    requires WellFormed(p)
    ensures EntriesWork(StartEnding(p, key)) <= EntriesWork(p)
  {
    if key in p.open {
      var e := p.open[key];
      SetEntryWork(p, e, p.entries[e].(ending := AwaitingLaunch));
    }
  }

  lemma ReleaseWork(p: Pool, e: nat)
    requires e < |p.entries|
    ensures EntriesWork(Release(p, e)) == EntriesWork(p)
  {
    SetEntryWork(p, e, p.entries[e].(holds := p.entries[e].holds - 1, idleSince := p.actionsEnded + 1));
  }

  lemma PoolStepShrinks(p: Pool, step: Step, p': Pool)
    requires WellFormed(p) && PoolStep(p, step, p') && Completion(step)
    ensures EntriesWork(p') < EntriesWork(p)
  {
    var e := step.entry;
    SetEntryWork(p, e, p'.entries[e]);
    assert p'.entries == SetEntry(p, e, p'.entries[e]).entries;
  }

  lemma TaskStepShrinks(c: Config, p: Pool, t: nat, task: Task, step: Step, p': Pool, task': Task)
    requires WellFormed(p) && TaskStep(c, p, t, task, step, p', task') && Completion(step)
    ensures EntriesWork(p') <= EntriesWork(p)
    ensures TaskWork(task') < TaskWork(task) || (p' == p && Acquiring(task) && task' == Turn(task.key))
    ensures Acquiring(task) ==> Rank(p, t, task) == 2
  {
    match step
    case Resume(_) => if task.OnLaunch? { ReleaseWork(p, task.entry); }
    case ActionEnds(_, _) => ReleaseWork(p, task.entry);
    case CloseNext(_) => if task.rest != [] { StartEndingWork(p, task.rest[0]); }
    case _ =>
  }

  lemma OpenWork(p: Pool, key: Key)
    ensures EntriesWork(Open(p, key)) == EntriesWork(p) + 5
  {
    TotalLast(p.entries, Entry(key, Launching, false, NotEnding, 1, 0, 0), EntryWork);
  }

  lemma EvictionWork(p: Pool, e: nat)
    requires WellFormed(p) && Idle(p, e)
    ensures EntriesWork(StartEnding(p, p.entries[e].key)) == EntriesWork(p) - 1
  {
    SetEntryWork(p, e, p.entries[e].(ending := AwaitingLaunch));
  }

  lemma HoldWork(p: Pool, e: nat)
    requires e < |p.entries|
    ensures EntriesWork(Hold(p, e)) == EntriesWork(p)
  {
    SetEntryWork(p, e, p.entries[e].(holds := p.entries[e].holds + 1));
  }

  /** The two turns that do nothing but wait. */
  predicate Waits(p: Pool, t: nat, key: Key, p': Pool, task': Task) {
    || (p' == p && task'.OnEnding? && !EndedEntry(p, task'.entry))
    || (p' == p.(waiting := p.waiting + [t]) && task' == Parked(key))
  }

  /** Every other turn gets on: it launches or finds a browser, ends one for room, or fails. */
  lemma TurnShrinks(c: Config, p: Pool, t: nat, key: Key, free: int, p': Pool, task': Task)
    requires PoolInv(c, p) && TurnEffect(c, p, t, key, free, p', task')
    ensures Waits(p, t, key, p', task') || EntriesWork(p') + TaskWork(task') < EntriesWork(p) + 8
    ensures TaskWork(task') <= 8
  {
    if p.closed {
    } else if key in p.open {
      assert EntryOk(p, p.open[key]);
      HoldWork(p, p.open[key]);
    } else if HasRoom(c, p, free) {
      OpenWork(p, key);
    } else if exists e: nat :: Idle(p, e) {
      var e: nat :| LeastRecentlyUsed(p, e)
                    && p' == StartEnding(p, p.entries[e].key) && task' == OnEviction(key, e);
      EvictionWork(p, e);
    }
  }

  lemma WaitingRanks(s: System, t: nat, s': System)
    requires t < |s.tasks| == |s'.tasks| && s.tasks[t].Turn? && s'.tasks == s.tasks[t := s'.tasks[t]]
    requires Waits(s.pool, t, s.tasks[t].key, s'.pool, s'.tasks[t])
    ensures Work(s') == Work(s) && RankOf(s') < RankOf(s)
  {
    TotalUpdate(s.tasks, t, s'.tasks[t], TaskWork);
    RanksFall(s.pool, s.tasks, s'.pool, s'.tasks, t, |s.tasks|);
  }

  lemma TurnFalls(c: Config, s: System, t: nat, free: int, s': System)
    requires Inv(c, s) && TaskMoves(c, s, t, TakeTurn(t, free), s')
    ensures Falls(s, s')
  {
    var task, task' := s.tasks[t], s'.tasks[t];
    TurnShrinks(c, s.pool, t, task.key, free, s'.pool, task');
    if Waits(s.pool, t, task.key, s'.pool, task') {
      WaitingRanks(s, t, s');
    } else {
      TotalUpdate(s.tasks, t, task', TaskWork);
    }
  }

  lemma CompletionFalls(c: Config, s: System, t: nat, step: Step, s': System)
    requires WellFormed(s.pool) && TaskMoves(c, s, t, step, s') && Completion(step)
    ensures Falls(s, s')
  {
    TaskStepShrinks(c, s.pool, t, s.tasks[t], step, s'.pool, s'.tasks[t]);
    TotalUpdate(s.tasks, t, s'.tasks[t], TaskWork);
    if TaskWork(s'.tasks[t]) >= TaskWork(s.tasks[t]) {
      RanksFall(s.pool, s.tasks, s'.pool, s'.tasks, t, |s.tasks|);
    }
  }

  /** Every completion and every turn, whatever memory it finds, leaves less to come. */
  lemma StepFalls(c: Config, s: System, step: Step, s': System)
    requires Inv(c, s) && Next(c, s, step, s') && Internal(step)
    ensures |s'.tasks| == |s.tasks| && Falls(s, s')
  {
    match step
    case TakeTurn(t, free) => TurnFalls(c, s, t, free, s');
    case Resume(t) => CompletionFalls(c, s, t, step, s');
    case ActionEnds(t, _) => CompletionFalls(c, s, t, step, s');
    case CloseNext(t) => CompletionFalls(c, s, t, step, s');
    case _ => PoolStepShrinks(s.pool, step, s'.pool);
  }

  // ----- Runs -----

  /** A run from any state that keeps the invariant, of completions and turns. */
  ghost predicate Run(c: Config, states: seq<System>, steps: seq<Step>) {
    && Execution(c, states, steps) && Inv(c, states[0])
    && forall i | 0 <= i < |steps| :: Internal(steps[i])
  }

  lemma RunStep(c: Config, s: System, step: Step, s': System)
    requires Inv(c, s) && Next(c, s, step, s') && Internal(step)
    ensures Inv(c, s') && Measure(s') < Measure(s)
  {
    NextKeepsInv(c, s, step, s');
    StepFalls(c, s, step, s');
    MeasureFalls(s, s');
  }

  lemma RunAt(c: Config, states: seq<System>, steps: seq<Step>, i: nat)
    requires Run(c, states, steps) && i < |steps| && WellFormed(states[i].pool)
    ensures Next(c, states[i], steps[i], states[i + 1]) && Internal(steps[i])
  {
  }

  lemma RunAdvances(c: Config, states: seq<System>, steps: seq<Step>, i: nat)
    requires Run(c, states, steps) && i < |steps| && Inv(c, states[i])
    ensures Inv(c, states[i + 1]) && Measure(states[i + 1]) < Measure(states[i])
  {
    RunAt(c, states, steps, i);
    RunStep(c, states[i], steps[i], states[i + 1]);
  }

  /** Every run ends: it takes no more steps than the measure of its start. */
  lemma {:induction false} RunsAreBounded(c: Config, states: seq<System>, steps: seq<Step>, i: nat)
    requires Run(c, states, steps) && i < |states|
    ensures Inv(c, states[i]) && Measure(states[i]) + i <= Measure(states[0])
  {
    if i > 0 {
      RunsAreBounded(c, states, steps, i - 1);
      RunAdvances(c, states, steps, i - 1);
    }
  }

  lemma RunGoes(c: Config, states: seq<System>, steps: seq<Step>, i: nat)
    requires Run(c, states, steps) && i < |steps|
    ensures WellFormed(states[i].pool) && Next(c, states[i], steps[i], states[i + 1])
  {
    RunsAreBounded(c, states, steps, i);
    RunAt(c, states, steps, i);
  }

  // ----- Where nothing under way can go on -----

  ghost predicate CanComplete(c: Config, s: System)
    requires WellFormed(s.pool)
  {
    exists step, s' :: Completion(step) && Next(c, s, step, s')
  }

  predicate EntryAtRest(p: Pool, e: nat)
    requires e < |p.entries|
  {
    var entry := p.entries[e];
    && entry.launch != Launching && entry.handled && (entry.ending == NotEnding || entry.ending.Ended?)
    && entry.holds == 0
  }

  /** Nothing is under way: every launch and ending is settled, every open browser idle, and nobody awaits anything. */
  predicate AtRest(s: System) {
    && s.pool.waiting == []
    && (forall e: nat | e < |s.pool.entries| :: EntryAtRest(s.pool, e))
    && (forall t | 0 <= t < |s.tasks| :: s.tasks[t].Turn? || s.tasks[t].Settled? || s.tasks[t] == ClosedAll)
  }

  lemma EntryGoesOn(c: Config, s: System, e: nat)
    requires Inv(c, s) && e < |s.pool.entries|
    requires var entry := s.pool.entries[e];
             entry.launch == Launching || !entry.handled || entry.ending in {AwaitingLaunch, Closing}
    ensures CanComplete(c, s)
  {
    var p, entry := s.pool, s.pool.entries[e];
    if entry.launch == Launching {
      var p' := SetEntry(p, e, entry.(launch := Launched));
      assert Next(c, s, LaunchSettles(e, true), System(p', s.tasks));
    } else if !entry.handled {
      assert Next(c, s, LaunchHandler(e), System(HandleLaunch(p, e), s.tasks));
    } else if entry.ending == AwaitingLaunch {
      assert Next(c, s, EndingProceeds(e), System(ProceedEnding(p, e), s.tasks));
    } else {
      assert Next(c, s, EndingSettles(e, true), System(SettleEnding(p, e, true), s.tasks));
    }
  }

  lemma ResumeGoesOn(c: Config, s: System, t: nat, task': Task)
    requires WellFormed(s.pool) && t < |s.tasks|
    requires TaskStep(c, s.pool, t, s.tasks[t], Resume(t), s.pool, task')
    ensures CanComplete(c, s)
  {
    assert Next(c, s, Resume(t), System(s.pool, s.tasks[t := task']));
  }

  lemma CloserGoesOn(c: Config, s: System, t: nat)
    requires Inv(c, s) && t < |s.tasks| && s.tasks[t].ClosingAll?
    ensures CanComplete(c, s)
  {
    var current := s.tasks[t].current;
    assert TaskOk(s.pool, s.tasks[t]);
    if current.Awaiting? && !EndedEntry(s.pool, current.entry) {
      EntryGoesOn(c, s, current.entry);
    } else {
      var next := CloseMoves(c, s, t);
      assert Next(c, s, CloseNext(t), next);
    }
  }

  /** A task that awaits something settled goes on; otherwise what it awaits does. */
  lemma TaskGoesOn(c: Config, s: System, t: nat)
    requires Inv(c, s) && t < |s.tasks|
    requires !s.tasks[t].Turn? && !s.tasks[t].Settled? && s.tasks[t] != ClosedAll
    requires s.tasks[t].Parked? ==> s.pool.waiting == []
    ensures CanComplete(c, s)
  {
    var p, task := s.pool, s.tasks[t];
    assert TaskOk(p, task);
    if (task.OnEnding? || task.OnEviction?) && !EndedEntry(p, task.entry) {
      EntryGoesOn(c, s, task.entry);
    } else {
      match task
      case OnEnding(key, _) => ResumeGoesOn(c, s, t, Turn(key));
      case OnEviction(key, e) => ResumeGoesOn(c, s, t, if p.entries[e].ending.ok then Turn(key) else Settled(false));
      case Parked(key) => ResumeGoesOn(c, s, t, Turn(key));
      case ClosingAll(_, _) => CloserGoesOn(c, s, t);
      case _ =>
        var step, next := HolderMoves(c, s, t, Outcomes(true, true, true));
    }
  }

  lemma WaitersGoOn(c: Config, s: System)
    requires Inv(c, s) && s.pool.waiting != []
    ensures CanComplete(c, s)
  {
    WaitersWaitForSomething(c, s);
    var k :| k in s.pool.open;
    var e := s.pool.open[k];
    if s.pool.entries[e].ending in {AwaitingLaunch, Closing} {
      EntryGoesOn(c, s, e);
    } else {
      var t: nat :| t < |s.tasks| && HoldsOf(s.tasks[t], e) == 1;
      TaskGoesOn(c, s, t);
    }
  }

  lemma NobodyHolds(c: Config, s: System, e: nat)
    requires Inv(c, s) && e < |s.pool.entries|
    requires forall t | 0 <= t < |s.tasks| :: HoldsOf(s.tasks[t], e) == 0
    ensures s.pool.entries[e].holds == 0
  {
    assert EntryOk(s.pool, e) && HoldCount(s.tasks, e) == Held(s.pool, e);
    if s.pool.entries[e].holds > 0 {
      HeldByATask(s.tasks, e);
    }
  }

  /** No completion is left exactly where everything is at rest: nobody waits, whatever happened before. */
  lemma EndsAtRest(c: Config, s: System)
    requires Inv(c, s)
    ensures !CanComplete(c, s) <==> AtRest(s)
  {
    if !CanComplete(c, s) {
      if s.pool.waiting != [] {
        WaitersGoOn(c, s);
      }
      forall t | 0 <= t < |s.tasks| ensures s.tasks[t].Turn? || s.tasks[t].Settled? || s.tasks[t] == ClosedAll {
        if !s.tasks[t].Turn? && !s.tasks[t].Settled? && s.tasks[t] != ClosedAll {
          TaskGoesOn(c, s, t);
        }
      }
      forall e: nat | e < |s.pool.entries| ensures EntryAtRest(s.pool, e) {
        NobodyHolds(c, s, e);
        if s.pool.entries[e].launch == Launching || !s.pool.entries[e].handled
           || s.pool.entries[e].ending in {AwaitingLaunch, Closing} {
          EntryGoesOn(c, s, e);
        }
      }
    }
    if AtRest(s) {
      forall step, s' | Completion(step) ensures !Next(c, s, step, s') {
        NothingAtRestMoves(c, s, step, s');
      }
    }
  }

  lemma NothingAtRestMoves(c: Config, s: System, step: Step, s': System)
    requires Inv(c, s) && AtRest(s) && Completion(step)
    ensures !Next(c, s, step, s')
  {
    if !step.Resume? && !step.ActionEnds? && !step.CloseNext? && step.entry < |s.pool.entries| {
      assert EntryAtRest(s.pool, step.entry);
    }
  }

  // ----- No lost wake-up, in every run -----

  /** What a completion can make of a task: a holder stays one or returns, a waiter stays one or has its turn. */
  predicate Fate(task: Task, task': Task) {
    match task
    case OnLaunch(_, _) => task'.OnLaunch? || task'.Acting? || task'.Settled?
    case Acting(_, _) => task'.Acting? || task'.Settled?
    case ClosingAll(_, _) => task'.ClosingAll? || task' == ClosedAll
    case Parked(key) => task' == task || task' == Turn(key)
    case OnEnding(key, _) => task' == task || task' == Turn(key)
    case OnEviction(key, _) => task' == task || task' == Turn(key) || task' == Settled(false)
    case _ => task' == task
  }

  lemma StepFate(c: Config, s: System, step: Step, s': System, t: nat)
    requires WellFormed(s.pool) && Next(c, s, step, s') && Completion(step) && t < |s.tasks|
    ensures |s'.tasks| == |s.tasks| && Fate(s.tasks[t], s'.tasks[t])
  {
  }

  lemma FateComposes(task: Task, between: Task, task': Task)
    requires Fate(task, between) && Fate(between, task')
    ensures Fate(task, task')
  {
  }

  lemma {:induction false} RunFate(c: Config, states: seq<System>, steps: seq<Step>, i: nat, t: nat)
    requires Run(c, states, steps) && OnlyCompletions(steps) && i < |states| && t < |states[0].tasks|
    ensures t < |states[i].tasks| && Fate(states[0].tasks[t], states[i].tasks[t])
  {
    if i > 0 {
      RunFate(c, states, steps, i - 1, t);
      RunGoes(c, states, steps, i - 1);
      StepFate(c, states[i - 1], steps[i - 1], states[i], t);
      FateComposes(states[0].tasks[t], states[i - 1].tasks[t], states[i].tasks[t]);
    }
  }

  /**
   No wake-up is lost: whatever the outcomes of launches, actions and endings and in whatever order
   they come, a run of completions is bounded, and where it cannot go on nobody waits: whoever awaited
   room or an ending has its turn again or has returned, and whoever held a browser has returned.
   */
  lemma WaitersAreWoken(c: Config, states: seq<System>, steps: seq<Step>, t: nat)
    requires Run(c, states, steps) && OnlyCompletions(steps) && t < |states[0].tasks|
    ensures Inv(c, states[|steps|]) && |steps| <= Measure(states[0])
    ensures !CanComplete(c, states[|steps|]) ==>
              var task, s' := states[0].tasks[t], states[|steps|];
              && s'.pool.waiting == [] && AtRest(s') && t < |s'.tasks|
              && (task.Parked? || task.OnEnding? ==> s'.tasks[t] == Turn(task.key))
              && (task.OnEviction? ==> s'.tasks[t] == Turn(task.key) || s'.tasks[t] == Settled(false))
              && (task.OnLaunch? || task.Acting? ==> s'.tasks[t].Settled?)
  {
    RunsAreBounded(c, states, steps, |steps|);
    MeasureNotNegative(states[|steps|]);
    RunFate(c, states, steps, |steps|, t);
    EndsAtRest(c, states[|steps|]);
  }

  /** From every state, and for any outcomes, some run of completions with those outcomes ends at rest. */
  lemma {:induction false} SomeRunEnds(c: Config, s: System, o: Outcomes)
    returns (states: seq<System>, steps: seq<Step>, s': System)
    requires Inv(c, s)
    ensures Leads(c, states, steps, s, s') && TurnsOut(steps, o) && Inv(c, s') && AtRest(s')
    decreases Measure(s)
  {
    MeasureNotNegative(s);
    EndsAtRest(c, s);
    if AtRest(s) {
      states, steps, s' := [s], [], s;
    } else {
      var step, next := ChosenCompletion(c, s, o);
      RunStep(c, s, step, next);
      MeasureNotNegative(next);
      states, steps, s' := SomeRunEnds(c, next, o);
      states, steps := StepThenRun(c, s, step, next, o, states, steps, s');
    }
  }

  /** Outcomes are the environment's: where some completion can come, one with the given outcomes can. */
  lemma ChosenCompletion(c: Config, s: System, o: Outcomes) returns (step: Step, next: System)
    requires Inv(c, s) && CanComplete(c, s)
    ensures StepTurnsOut(step, o) && Next(c, s, step, next)
  {
    var some, after :| Completion(some) && Next(c, s, some, after);
    step, next := WithOutcomes(c, s, some, after, o);
  }

  lemma WithOutcomes(c: Config, s: System, some: Step, after: System, o: Outcomes) returns (step: Step, next: System)
    requires WellFormed(s.pool) && Completion(some) && Next(c, s, some, after)
    ensures StepTurnsOut(step, o) && Next(c, s, step, next)
  {
    var p := s.pool;
    match some
    case LaunchSettles(e, _) =>
      step := LaunchSettles(e, o.launch);
      var launch := if o.launch then Launched else LaunchFailed;
      next := System(SetEntry(p, e, p.entries[e].(launch := launch)), s.tasks);
    case EndingSettles(e, _) =>
      step, next := EndingSettles(e, o.end), System(SettleEnding(p, e, o.end), s.tasks);
    case ActionEnds(t, _) =>
      step := ActionEnds(t, o.action);
      next := System(Release(p, s.tasks[t].entry), s.tasks[t := Settled(o.action)]);
    case _ =>
      step, next := some, after;
  }

  // ----- Every use returns, in every run -----

  ghost predicate CanGoOn(c: Config, s: System)
    requires WellFormed(s.pool)
  {
    exists step, s' :: Internal(step) && Next(c, s, step, s')
  }

  lemma TurnGoesOn(c: Config, s: System, t: nat)
    requires Inv(c, s) && t < |s.tasks| && s.tasks[t].Turn?
    ensures CanGoOn(c, s)
  {
    TurnIsAlwaysPossible(c, s.pool, t, s.tasks[t].key, 0);
    var p', task' :| TurnEffect(c, s.pool, t, s.tasks[t].key, 0, p', task');
    assert Next(c, s, TakeTurn(t, 0), System(p', s.tasks[t := task']));
  }

  /** A task is a use's or a closeAll's for good. */
  predicate Closer(task: Task) {
    task.ClosingAll? || task == ClosedAll
  }

  lemma StepKeepsKind(c: Config, s: System, step: Step, s': System, t: nat)
    requires WellFormed(s.pool) && Next(c, s, step, s') && t < |s.tasks|
    ensures t < |s'.tasks| && (Closer(s'.tasks[t]) <==> Closer(s.tasks[t]))
  {
  }

  lemma {:induction false} KindStays(c: Config, states: seq<System>, steps: seq<Step>, i: nat, t: nat)
    requires Run(c, states, steps) && i < |states| && t < |states[0].tasks|
    ensures t < |states[i].tasks| && (Closer(states[i].tasks[t]) <==> Closer(states[0].tasks[t]))
  {
    if i > 0 {
      KindStays(c, states, steps, i - 1, t);
      RunGoes(c, states, steps, i - 1);
      StepKeepsKind(c, states[i - 1], steps[i - 1], states[i], t);
    }
  }

  predicate Returned(task: Task) {
    task.Settled? || task == ClosedAll
  }

  lemma AllReturned(c: Config, s: System)
    requires Inv(c, s) && !CanGoOn(c, s)
    ensures AtRest(s) && forall t | 0 <= t < |s.tasks| :: Returned(s.tasks[t])
  {
    assert !CanComplete(c, s);
    EndsAtRest(c, s);
    forall t | 0 <= t < |s.tasks| ensures Returned(s.tasks[t]) {
      if s.tasks[t].Turn? {
        TurnGoesOn(c, s, t);
      }
    }
  }

  /**
   In every pool, open or closed, every use and every closeAll returns: whatever the outcomes, the
   order of completions and turns and the free memory each turn finds, a run of them is bounded, and
   where it cannot go on everything has returned.
   */
  lemma EveryUseReturns(c: Config, states: seq<System>, steps: seq<Step>, t: nat)
    requires Run(c, states, steps) && t < |states[0].tasks|
    ensures Inv(c, states[|steps|]) && |steps| <= Measure(states[0])
    ensures !CanGoOn(c, states[|steps|]) ==>
              var task, s' := states[0].tasks[t], states[|steps|];
              && AtRest(s') && t < |s'.tasks|
              && if Closer(task) then s'.tasks[t] == ClosedAll else s'.tasks[t].Settled?
  {
    RunsAreBounded(c, states, steps, |steps|);
    MeasureNotNegative(states[|steps|]);
    KindStays(c, states, steps, |steps|, t);
    if !CanGoOn(c, states[|steps|]) {
      AllReturned(c, states[|steps|]);
    }
  }

  /**
   Under a closeAll, where a run of completions and turns cannot go on, the closeAll has returned,
   the map is empty, and every use has returned too.
   */
  lemma ClosingAllReturns(c: Config, states: seq<System>, steps: seq<Step>, t: nat)
    requires Run(c, states, steps) && t < |states[0].tasks| && states[0].tasks[t].ClosingAll?
    ensures Inv(c, states[|steps|]) && |steps| <= Measure(states[0])
    ensures !CanGoOn(c, states[|steps|]) ==>
              var s' := states[|steps|];
              && t < |s'.tasks| && s'.tasks[t] == ClosedAll && s'.pool.open == map[] && AtRest(s')
              && forall u | 0 <= u < |s'.tasks| :: Returned(s'.tasks[u])
  {
    EveryUseReturns(c, states, steps, t);
    if !CanGoOn(c, states[|steps|]) {
      AllReturned(c, states[|steps|]);
      assert TaskOk(states[|steps|].pool, states[|steps|].tasks[t]);
    }
  }
}
