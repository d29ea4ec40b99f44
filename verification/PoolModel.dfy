/**
 The browser pool as a transition system. Each stretch of code between two awaits is one
 atomic step, and any task whose await has settled may take the next step, so the executions
 here include every interleaving the event loop can produce.
 */
module PoolModel {
  import opened Sums

  type Key = string

  datatype Launch = Launching | Launched | LaunchFailed

  /** Undefined, awaiting the launch, awaiting the browser's own ending, or settled. */
  datatype Ending = NotEnding | AwaitingLaunch | Closing | Ended(ok: bool)

  /** An entry keeps its number for good; `open` says which entries still are under their key. */
  datatype Entry = Entry(
    key: Key,
    launch: Launch,
    handled: bool,  // whether the reaction to the launch promise has run
    ending: Ending,
    holds: int,
    bytes: int,
    idleSince: nat
  )

  datatype Pool = Pool(
    open: map<Key, nat>,
    entries: seq<Entry>,
    closed: bool,
    waiting: seq<nat>,  // the tasks whose resolvers wait for room
    actionsEnded: nat
  )

  datatype Config = Config(browsers: nat, guardBytes: int)

  /** Where an asynchronous call to the pool stands. */
  datatype Task =
    | Turn(key: Key)                        // about to run acquire's loop body
    | OnEnding(key: Key, entry: nat)        // awaiting the ending of its own key's entry
    | OnEviction(key: Key, entry: nat)      // awaiting the entry it ended for room
    | Parked(key: Key)                      // awaiting its resolver in `waiting`
    | OnLaunch(key: Key, entry: nat)        // holding an entry, awaiting its browser
    | Acting(key: Key, entry: nat)          // its action is in flight
    | Settled(ok: bool)
    | ClosingAll(current: Awaited, rest: seq<Key>)
    | ClosedAll

  datatype Awaited = Nothing | Awaiting(entry: nat)

  datatype System = System(pool: Pool, tasks: seq<Task>)

  // ----- The pool's own operations -----

  predicate WellFormed(p: Pool) {
    forall k :: k in p.open ==> p.open[k] < |p.entries| && p.entries[p.open[k]].key == k
  }

  predicate IsOpen(p: Pool, e: nat)
    requires e < |p.entries|
  {
    p.entries[e].key in p.open && p.open[p.entries[e].key] == e
  }

  function Wake(p: Pool): Pool {
    p.(waiting := [])
  }

  function SetEntry(p: Pool, e: nat, entry: Entry): Pool
    requires e < |p.entries|
  {
    p.(entries := p.entries[e := entry])
  }

  /** What an open browser may still grow by, per key. */
  ghost function GrowthByKey(c: Config, p: Pool): map<Key, int>
    requires WellFormed(p)
  {
    map k | k in p.open :: EntryGrowth(c, p.entries[p.open[k]])
  }

  function EntryGrowth(c: Config, entry: Entry): int {
    if c.guardBytes > entry.bytes then c.guardBytes - entry.bytes else 0
  }

  ghost predicate HasRoom(c: Config, p: Pool, free: int)
    requires WellFormed(p)
  {
    |p.open| < c.browsers && free - SumMap(GrowthByKey(c, p)) >= 2 * c.guardBytes
  }

  predicate Idle(p: Pool, e: nat) {
    e < |p.entries| && IsOpen(p, e) && p.entries[e].holds == 0 && p.entries[e].ending == NotEnding
  }

  /** The least recently used idle browser: every other idle one ended its last action later. */
  ghost predicate LeastRecentlyUsed(p: Pool, e: nat) {
    && Idle(p, e)
    && forall other: nat :: Idle(p, other) && other != e ==> p.entries[e].idleSince < p.entries[other].idleSince
  }

  /** `end`: an ending already under way is shared, and a key that is not open is left alone. */
  function StartEnding(p: Pool, key: Key): Pool
    requires WellFormed(p)
  {
    if key in p.open && p.entries[p.open[key]].ending == NotEnding then
      SetEntry(p, p.open[key], p.entries[p.open[key]].(ending := AwaitingLaunch))
    else p
  }

  function Hold(p: Pool, e: nat): Pool
    requires e < |p.entries|
  {
    SetEntry(p, e, p.entries[e].(holds := p.entries[e].holds + 1))
  }

  function Open(p: Pool, key: Key): Pool {
    p.(open := p.open[key := |p.entries|],
       entries := p.entries + [Entry(key, Launching, false, NotEnding, 1, 0, 0)])
  }

  /** The `finally` of `use`. */
  function Release(p: Pool, e: nat): Pool
    requires e < |p.entries|
  {
    Wake(SetEntry(p, e, p.entries[e].(holds := p.entries[e].holds - 1, idleSince := p.actionsEnded + 1))
         .(actionsEnded := p.actionsEnded + 1))
  }

  function Remove(p: Pool, e: nat): Pool
    requires e < |p.entries|
  {
    if IsOpen(p, e) then p.(open := p.open - {p.entries[e].key}) else p
  }

  /** The `finally` of an ending, after which its promise is settled. */
  function SettleEnding(p: Pool, e: nat, ok: bool): Pool
    requires e < |p.entries|
  {
    Wake(SetEntry(Remove(p, e), e, p.entries[e].(ending := Ended(ok))))
  }

  /** The continuation of an ending once the launch has settled. */
  function ProceedEnding(p: Pool, e: nat): Pool
    requires e < |p.entries|
  {
    if p.entries[e].launch == Launched then SetEntry(p, e, p.entries[e].(ending := Closing))
    else SettleEnding(p, e, true)
  }

  /** The reaction to the launch promise. */
  function HandleLaunch(p: Pool, e: nat): Pool
    requires e < |p.entries|
  {
    var handled := SetEntry(p, e, p.entries[e].(handled := true));
    if p.entries[e].launch == LaunchFailed && IsOpen(p, e) && p.entries[e].ending == NotEnding
    then Wake(Remove(handled, e))
    else handled
  }

  /** One run of acquire's loop body by task `t`, up to its next await or its return. */
  ghost predicate TurnEffect(c: Config, p: Pool, t: nat, key: Key, free: int, p': Pool, task': Task)
    requires WellFormed(p)
  {
    if p.closed then
      p' == p && task' == Settled(false)
    else if key in p.open then
      var e := p.open[key];
      if p.entries[e].ending != NotEnding then p' == p && task' == OnEnding(key, e)
      else p' == Hold(p, e) && task' == OnLaunch(key, e)
    else if HasRoom(c, p, free) then
      p' == Open(p, key) && task' == OnLaunch(key, |p.entries|)
    else if exists e: nat :: Idle(p, e) then
      exists e: nat :: LeastRecentlyUsed(p, e) && p' == StartEnding(p, p.entries[e].key) && task' == OnEviction(key, e)
    else if p.open == map[] then
      p' == p && task' == Settled(false)
    else
      p' == p.(waiting := p.waiting + [t]) && task' == Parked(key)
  }

  // ----- The system's steps -----

  datatype Step =
    | CallUse(key: Key)
    | CallEnd(key: Key)                     // crash or close
    | CallCloseAll(keys: seq<Key>)
    | LaunchSettles(entry: nat, ok: bool)
    | LaunchHandler(entry: nat)
    | Sampled(entry: nat, bytes: int)
    | EndingProceeds(entry: nat)
    | EndingSettles(entry: nat, ok: bool)
    | TakeTurn(task: nat, free: int)
    | Resume(task: nat)
    | ActionEnds(task: nat, ok: bool)
    | CloseNext(task: nat)

  ghost predicate Initial(s: System) {
    s == System(Pool(map[], [], false, [], 0), [])
  }

  predicate EndedEntry(p: Pool, e: nat) {
    e < |p.entries| && p.entries[e].ending.Ended?
  }

  /** Steps of the environment and of the promises the pool itself created. */
  ghost predicate PoolStep(p: Pool, step: Step, p': Pool)
    requires WellFormed(p)
  {
    match step
    case CallEnd(key) => p' == StartEnding(p, key)
    case LaunchSettles(e, ok) =>
      && e < |p.entries| && p.entries[e].launch == Launching
      && p' == SetEntry(p, e, p.entries[e].(launch := if ok then Launched else LaunchFailed))
    case LaunchHandler(e) =>
      && e < |p.entries| && p.entries[e].launch != Launching && !p.entries[e].handled
      && p' == HandleLaunch(p, e)
    case Sampled(e, bytes) =>
      && e < |p.entries| && p.entries[e].launch == Launched && p.entries[e].handled
      && p' == SetEntry(p, e, p.entries[e].(bytes := bytes))
    case EndingProceeds(e) =>
      && e < |p.entries| && p.entries[e].ending == AwaitingLaunch && p.entries[e].launch != Launching
      && p' == ProceedEnding(p, e)
    case EndingSettles(e, ok) =>
      && e < |p.entries| && p.entries[e].ending == Closing
      && p' == SettleEnding(p, e, ok)
    case _ => false
  }

  /** A step of task `t`, from `task` to `task'`. */
  ghost predicate TaskStep(c: Config, p: Pool, t: nat, task: Task, step: Step, p': Pool, task': Task)
    requires WellFormed(p)
  {
    match step
    case TakeTurn(_, free) =>
      task.Turn? && TurnEffect(c, p, t, task.key, free, p', task')
    case Resume(_) =>
      (match task
       case OnEnding(key, e) =>
         EndedEntry(p, e) && p' == p && task' == Turn(key)
       case OnEviction(key, e) =>
         EndedEntry(p, e) && p' == p && task' == if p.entries[e].ending.ok then Turn(key) else Settled(false)
       case Parked(key) =>
         t !in p.waiting && p' == p && task' == Turn(key)
       case OnLaunch(key, e) =>
         && e < |p.entries| && p.entries[e].launch != Launching
         && if p.entries[e].launch == Launched then p' == p && task' == Acting(key, e)
            else p' == Release(p, e) && task' == Settled(false)
       case _ => false)
    case ActionEnds(_, ok) =>
      task.Acting? && task.entry < |p.entries| && p' == Release(p, task.entry) && task' == Settled(ok)
    case CloseNext(_) =>
      && task.ClosingAll?
      && (task.current.Awaiting? ==> EndedEntry(p, task.current.entry))
      && if task.rest == [] then p' == p && task' == ClosedAll
         else
           && p' == StartEnding(p, task.rest[0])
           && task' == ClosingAll(if task.rest[0] in p.open then Awaiting(p.open[task.rest[0]]) else Nothing,
                                  task.rest[1..])
    case _ => false
  }

  ghost predicate Next(c: Config, s: System, step: Step, s': System)
    requires WellFormed(s.pool)
  {
    match step
    case CallUse(key) => s' == System(s.pool, s.tasks + [Turn(key)])
    case CallCloseAll(keys) =>
      && (forall k :: k in s.pool.open ==> k in keys)
      && s' == System(s.pool.(closed := true), s.tasks + [ClosingAll(Nothing, keys)])
    case TakeTurn(t, _) => TaskMoves(c, s, t, step, s')
    case Resume(t) => TaskMoves(c, s, t, step, s')
    case ActionEnds(t, _) => TaskMoves(c, s, t, step, s')
    case CloseNext(t) => TaskMoves(c, s, t, step, s')
    case _ => s'.tasks == s.tasks && PoolStep(s.pool, step, s'.pool)
  }

  ghost predicate TaskMoves(c: Config, s: System, t: nat, step: Step, s': System)
    requires WellFormed(s.pool)
  {
    && t < |s.tasks| && t < |s'.tasks|
    && s'.tasks == s.tasks[t := s'.tasks[t]]
    && TaskStep(c, s.pool, t, s.tasks[t], step, s'.pool, s'.tasks[t])
  }

  /** States and the steps between them. */
  ghost predicate Execution(c: Config, states: seq<System>, steps: seq<Step>) {
    && |states| == |steps| + 1
    && forall i {:trigger steps[i]} | 0 <= i < |steps| && WellFormed(states[i].pool) ::
         Next(c, states[i], steps[i], states[i + 1])
  }
}
