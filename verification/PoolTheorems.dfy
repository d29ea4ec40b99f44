/** What the browser pool promises, over every execution from the empty pool. */
module PoolTheorems {
  import opened Sums
  import opened PoolModel
  import opened PoolProofs

  // ----- Bounded, exclusive browsers -----

  /** The entries whose browser may still be running: launching, open or ending. */
  function Live(p: Pool): set<nat> {
    set e: nat | e < |p.entries| && !Gone(p.entries[e])
  }

  lemma {:induction false} ValuesBounded<K, V>(m: map<K, V>, values: set<V>)
    requires forall v :: v in values ==> exists k :: k in m && m[k] == v
    ensures |values| <= |m|
    decreases |values|
  {
    if values != {} {
      var v :| v in values;
      var k :| k in m && m[k] == v;
      forall w | w in values - {v} ensures exists j :: j in m - {k} && (m - {k})[j] == w {
        var j :| j in m && m[j] == w;
        assert j in m - {k};
      }
      ValuesBounded(m - {k}, values - {v});
    }
  }

  lemma LiveIsOpen(c: Config, p: Pool)
    requires PoolInv(c, p)
    ensures forall e :: e in Live(p) ==> IsOpen(p, e)
  {
    forall e | e in Live(p) ensures IsOpen(p, e) {
      assert EntryOk(p, e);
    }
  }

  /**
   In every reachable state at most the configured number of browsers may be running, no two of
   them under one key, and each is under its key in the map until it has ended.
   */
  lemma BoundedAndExclusive(c: Config, states: seq<System>, steps: seq<Step>, i: nat)
    requires Execution(c, states, steps) && Initial(states[0]) && i < |states|
    ensures var p := states[i].pool;
            && |Live(p)| <= c.browsers
            && (forall e :: e in Live(p) ==> IsOpen(p, e))
            && (forall d, e :: d in Live(p) && e in Live(p) && d != e ==> p.entries[d].key != p.entries[e].key)
  {
    ReachableInv(c, states, steps, i);
    var p := states[i].pool;
    LiveIsOpen(c, p);
    forall e | e in Live(p) ensures exists k :: k in p.open && p.open[k] == e {
      assert p.open[p.entries[e].key] == e;
    }
    ValuesBounded(p.open, Live(p));
  }

  // ----- What a launch needs -----

  lemma TurnLaunches(c: Config, p: Pool, t: nat, key: Key, free: int, p': Pool, task': Task)
    requires PoolInv(c, p) && TurnEffect(c, p, t, key, free, p', task') && |p'.entries| != |p.entries|
    ensures p' == Open(p, key) && !p.closed && key !in p.open && HasRoom(c, p, free)
  {
  }

  /** Only a turn adds an entry. */
  lemma OnlyTurnsLaunch(c: Config, s: System, step: Step, s': System)
    requires Inv(c, s) && Next(c, s, step, s') && !step.TakeTurn?
    ensures |s'.pool.entries| == |s.pool.entries|
  {
  }

  /**
   A browser launches only while the pool is not closed, under a key that is not open, and leaves
   the host, once every open browser including the new one has grown to its guard, one more guard.
   */
  lemma LaunchLeavesRoom(c: Config, s: System, step: Step, s': System)
    requires Inv(c, s) && Next(c, s, step, s') && |s'.pool.entries| != |s.pool.entries|
    requires c.guardBytes >= 0
    ensures step.TakeTurn? && !s.pool.closed
    ensures |s'.pool.entries| == |s.pool.entries| + 1
    ensures var key := s'.pool.entries[|s.pool.entries|].key;
            key !in s.pool.open && s'.pool.open == s.pool.open[key := |s.pool.entries|]
    ensures |s'.pool.open| <= c.browsers
    ensures WellFormed(s'.pool) && step.free - SumMap(GrowthByKey(c, s'.pool)) >= c.guardBytes
  {
    if !step.TakeTurn? {
      OnlyTurnsLaunch(c, s, step, s');
    } else {
      var key := s.tasks[step.task].key;
      TurnLaunches(c, s.pool, step.task, key, step.free, s'.pool, s'.tasks[step.task]);
      OpenKeeps(c, s.pool, key);
      GrowthOfLaunch(c, s.pool, key);
    }
  }

  lemma GrowthOfLaunch(c: Config, p: Pool, key: Key)
    requires WellFormed(p) && key !in p.open && WellFormed(Open(p, key)) && c.guardBytes >= 0
    ensures SumMap(GrowthByKey(c, Open(p, key))) == SumMap(GrowthByKey(c, p)) + c.guardBytes
  {
    var growth := GrowthByKey(c, p);
    assert GrowthByKey(c, Open(p, key)) == growth[key := c.guardBytes];
    SumMapUpdate(growth, key, c.guardBytes);
  }

  // ----- What a turn comes to -----

  /** A turn is refused, awaits an ending, or holds what is open, by what it finds under its key. */
  lemma TurnFindsItsKey(c: Config, p: Pool, t: nat, key: Key, free: int, p': Pool, task': Task)
    requires PoolInv(c, p) && TurnEffect(c, p, t, key, free, p', task')
    ensures p.closed ==> p' == p && task' == Settled(false)
    ensures !p.closed && key in p.open && p.entries[p.open[key]].ending != NotEnding ==>
              p' == p && task' == OnEnding(key, p.open[key])
    ensures !p.closed && key in p.open && p.entries[p.open[key]].ending == NotEnding ==>
              var e := p.open[key];
              && task' == OnLaunch(key, e)
              && p' == p.(entries := p.entries[e := p.entries[e].(holds := p.entries[e].holds + 1)])
  {
  }

  /** The sum that the room is reckoned with: what every open browser may still grow to its guard. */
  lemma GrowthIsToTheGuard(c: Config, p: Pool)
    requires WellFormed(p)
    ensures GrowthByKey(c, p) ==
            map k | k in p.open :: if c.guardBytes > p.entries[p.open[k]].bytes
                                   then c.guardBytes - p.entries[p.open[k]].bytes else 0
  {
  }

  /** An idle browser is one that is open, held by nobody and not ending. */
  lemma IdleUnderItsKey(c: Config, p: Pool)
    requires PoolInv(c, p)
    ensures (exists e: nat :: Idle(p, e)) <==>
            exists k :: k in p.open && p.entries[p.open[k]].holds == 0 && p.entries[p.open[k]].ending == NotEnding
  {
    if e: nat :| Idle(p, e) {
      var k := p.entries[e].key;
      assert k in p.open && p.entries[p.open[k]].holds == 0 && p.entries[p.open[k]].ending == NotEnding;
    }
    if k :| k in p.open && p.entries[p.open[k]].holds == 0 && p.entries[p.open[k]].ending == NotEnding {
      assert Idle(p, p.open[k]);
    }
  }

  /**
   A turn whose key is not open launches exactly if a further browser and two guards beside every
   open browser's growth fit; without that room it ends an idle browser if there is one, waits if
   all are busy, and is refused only if no browser is open at all.
   */
  lemma TurnLaunchesExactlyWithRoom(c: Config, p: Pool, t: nat, key: Key, free: int, p': Pool, task': Task)
    requires PoolInv(c, p) && TurnEffect(c, p, t, key, free, p', task') && !p.closed && key !in p.open
    ensures var growth := map k | k in p.open :: if c.guardBytes > p.entries[p.open[k]].bytes
                                                 then c.guardBytes - p.entries[p.open[k]].bytes else 0;
            var room := |p.open| < c.browsers && free - SumMap(growth) >= 2 * c.guardBytes;
            var idle := exists k ::
              k in p.open && p.entries[p.open[k]].holds == 0 && p.entries[p.open[k]].ending == NotEnding;
            && (task'.OnLaunch? <==> room)
            && (task'.OnEviction? <==> !room && idle)
            && (task'.Parked? <==> !room && !idle && p.open != map[])
            && (task'.Settled? <==> !room && p.open == map[])
    ensures task'.OnLaunch? ==>
              && task' == OnLaunch(key, |p.entries|)
              && p'.entries == p.entries + [Entry(key, Launching, false, NotEnding, 1, 0, 0)]
    ensures task'.Settled? ==> task' == Settled(false) && p' == p
  {
    GrowthIsToTheGuard(c, p);
    IdleUnderItsKey(c, p);
    if e: nat :| Idle(p, e) {
      assert p.entries[e].key in p.open;
    }
  }

  /** Names that are all different. */
  function Name(n: nat): Key {
    if n == 0 then "" else Name(n - 1) + "a"
  }

  lemma {:induction false} NamesDiffer(n: nat)
    ensures |Name(n)| == n
  {
    if n > 0 {
      NamesDiffer(n - 1);
    }
  }

  /** A pool in which the first n names launched, and whose next use is about to take its turn. */
  ghost predicate Opened(c: Config, s: System, n: nat) {
    && Inv(c, s) && !s.pool.closed && |s.pool.entries| == n && |s.pool.open| == n
    && (forall k | k in s.pool.open :: |k| < n)
    && (forall e: nat | e < n :: !Gone(s.pool.entries[e]))
  }

  /** Some host has room for one more browser while fewer than the configured number are open. */
  lemma OneMoreOpens(c: Config, s: System, n: nat) returns (called: System, free: int, launched: System)
    requires Opened(c, s, n) && n < c.browsers
    ensures WellFormed(s.pool) && Next(c, s, CallUse(Name(n)), called) && WellFormed(called.pool)
    ensures Next(c, called, TakeTurn(|s.tasks|, free), launched) && Opened(c, launched, n + 1)
  {
    var key := Name(n);
    NamesDiffer(n);
    called := System(s.pool, s.tasks + [Turn(key)]);
    NextKeepsInv(c, s, CallUse(key), called);
    free := SumMap(GrowthByKey(c, s.pool)) + 2 * c.guardBytes;
    launched := System(Open(s.pool, key), called.tasks[|s.tasks| := OnLaunch(key, n)]);
    assert TurnEffect(c, called.pool, |s.tasks|, key, free, launched.pool, OnLaunch(key, n));
    NextKeepsInv(c, called, TakeTurn(|s.tasks|, free), launched);
  }

  lemma Appended(c: Config, states: seq<System>, steps: seq<Step>, step: Step, next: System)
    requires Execution(c, states, steps) && WellFormed(states[|steps|].pool) && Next(c, states[|steps|], step, next)
    ensures Execution(c, states + [next], steps + [step])
  {
    var all, moves := states + [next], steps + [step];
    forall i | 0 <= i < |moves| && WellFormed(all[i].pool) ensures Next(c, all[i], moves[i], all[i + 1]) {
      if i < |steps| {
        assert all[i] == states[i] && moves[i] == steps[i] && all[i + 1] == states[i + 1];
      }
    }
  }

  lemma {:induction false} OpensUpTo(c: Config, n: nat) returns (states: seq<System>, steps: seq<Step>)
    requires n <= c.browsers
    ensures Execution(c, states, steps) && Initial(states[0]) && Opened(c, states[|steps|], n)
  {
    if n == 0 {
      states, steps := [System(Pool(map[], [], false, [], 0), [])], [];
      ReachableInv(c, states, steps, 0);
    } else {
      states, steps := OpensUpTo(c, n - 1);
      var s := states[|steps|];
      var called, free, launched := OneMoreOpens(c, s, n - 1);
      Appended(c, states, steps, CallUse(Name(n - 1)), called);
      states, steps := states + [called], steps + [CallUse(Name(n - 1))];
      Appended(c, states, steps, TakeTurn(|s.tasks|, free), launched);
      states, steps := states + [launched], steps + [TakeTurn(|s.tasks|, free)];
    }
  }

  /** Every number of browsers up to the configured one is reached, whatever the guard: the bound is tight. */
  lemma FullPoolIsReached(c: Config, n: nat) returns (states: seq<System>, steps: seq<Step>)
    requires n <= c.browsers
    ensures Execution(c, states, steps) && Initial(states[0]) && |Live(states[|steps|].pool)| == n
  {
    states, steps := OpensUpTo(c, n);
    BelowCounts(n);
    assert Live(states[|steps|].pool) == Below(n);
  }

  function Below(n: nat): set<nat> {
    if n == 0 then {} else Below(n - 1) + {n - 1}
  }

  lemma {:induction false} BelowCounts(n: nat)
    ensures |Below(n)| == n && forall e: nat :: e in Below(n) <==> e < n
  {
    if n > 0 {
      BelowCounts(n - 1);
    }
  }

  /** A step gives a task an entry only by launching it or by finding it open and not ending. */
  lemma NeverHandsOutAnEndingEntry(c: Config, s: System, step: Step, s': System, t: nat, e: nat)
    requires Inv(c, s) && Next(c, s, step, s') && t < |s'.tasks|
    requires HoldsOf(s'.tasks[t], e) == 1 && (t < |s.tasks| ==> HoldsOf(s.tasks[t], e) == 0)
    ensures step.TakeTurn? && step.task == t && !s.pool.closed
    ensures e < |s.pool.entries| ==> IsOpen(s.pool, e) && s.pool.entries[e].ending == NotEnding
    ensures e < |s'.pool.entries| && IsOpen(s'.pool, e) && s'.pool.entries[e].key == s'.tasks[t].key
  {
  }

  // ----- Eviction -----

  predicate LeastAmong(p: Pool, e: nat, n: nat) {
    && e < n
    && Idle(p, e)
    && forall other: nat | other < n && Idle(p, other) && other != e ::
         p.entries[e].idleSince < p.entries[other].idleSince
  }

  /** Whenever some browser is idle, one of them ended its last action strictly first. */
  lemma {:induction false} LeastRecentlyUsedExists(c: Config, p: Pool, n: nat)
    requires PoolInv(c, p) && n <= |p.entries|
    requires exists e: nat :: e < n && Idle(p, e)
    ensures exists e: nat :: LeastAmong(p, e, n)
  {
    if exists e: nat :: e < n - 1 && Idle(p, e) {
      LeastRecentlyUsedExists(c, p, n - 1);
      var e: nat :| LeastAmong(p, e, n - 1);
      assert EntryOk(p, e);
      var least := if Idle(p, n - 1) && p.entries[n - 1].idleSince < p.entries[e].idleSince then n - 1 else e;
      assert LeastAmong(p, least, n);
    } else {
      assert LeastAmong(p, n - 1, n);
    }
  }

  lemma SomeIsLeastRecentlyUsed(c: Config, p: Pool) returns (e: nat)
    requires PoolInv(c, p) && exists e: nat :: Idle(p, e)
    ensures LeastRecentlyUsed(p, e)
  {
    LeastRecentlyUsedExists(c, p, |p.entries|);
    e :| LeastAmong(p, e, |p.entries|);
  }

  lemma TurnWithoutIdle(c: Config, p: Pool, t: nat, key: Key, free: int)
    requires WellFormed(p) && (p.closed || key in p.open || HasRoom(c, p, free) || !exists e: nat :: Idle(p, e))
    ensures exists p', task' :: TurnEffect(c, p, t, key, free, p', task')
  {
    if p.closed {
      assert TurnEffect(c, p, t, key, free, p, Settled(false));
    } else if key in p.open {
      if p.entries[p.open[key]].ending != NotEnding {
        assert TurnEffect(c, p, t, key, free, p, OnEnding(key, p.open[key]));
      } else {
        assert TurnEffect(c, p, t, key, free, Hold(p, p.open[key]), OnLaunch(key, p.open[key]));
      }
    } else if HasRoom(c, p, free) {
      assert TurnEffect(c, p, t, key, free, Open(p, key), OnLaunch(key, |p.entries|));
    } else if p.open == map[] {
      assert TurnEffect(c, p, t, key, free, p, Settled(false));
    } else {
      assert TurnEffect(c, p, t, key, free, p.(waiting := p.waiting + [t]), Parked(key));
    }
  }

  /** A turn can be taken in every state, and whenever some browser is idle one is strictly least recently used. */
  lemma TurnIsAlwaysPossible(c: Config, p: Pool, t: nat, key: Key, free: int)
    requires PoolInv(c, p)
    ensures exists p', task' :: TurnEffect(c, p, t, key, free, p', task')
    ensures (exists e: nat :: Idle(p, e)) ==> exists e: nat :: LeastRecentlyUsed(p, e)
  {
    if exists e: nat :: Idle(p, e) {
      var e := SomeIsLeastRecentlyUsed(c, p);
      if !p.closed && key !in p.open && !HasRoom(c, p, free) {
        assert TurnEffect(c, p, t, key, free, StartEnding(p, p.entries[e].key), OnEviction(key, e));
      } else {
        TurnWithoutIdle(c, p, t, key, free);
      }
    } else {
      TurnWithoutIdle(c, p, t, key, free);
    }
  }

  lemma {:induction false} LaterStatesEvolve(c: Config, states: seq<System>, steps: seq<Step>, i: nat, j: nat)
    requires Execution(c, states, steps) && Initial(states[0]) && i <= j < |states|
    ensures Evolves(states[i].pool, states[j].pool)
    decreases j
  {
    if i < j {
      LaterStatesEvolve(c, states, steps, i, j - 1);
      ReachableInv(c, states, steps, j - 1);
      NextEvolves(c, states[j - 1], steps[j - 1], states[j]);
      EvolvesTransitively(states[i].pool, states[j - 1].pool, states[j].pool);
    } else {
      assert forall e: nat | e < |states[i].pool.entries| ::
          EntryEvolves(states[i].pool.entries[e], states[i].pool.entries[e]);
    }
  }

  /** Who holds an entry that nobody held once it was ending. */
  lemma EndingStaysFree(c: Config, s: System, s': System, e: nat)
    requires Inv(c, s) && Inv(c, s') && Evolves(s.pool, s'.pool)
    requires e < |s.pool.entries| && s.pool.entries[e].ending != NotEnding && s.pool.entries[e].holds == 0
    ensures e < |s'.pool.entries|
    ensures forall u: nat :: u < |s'.tasks| ==> HoldsOf(s'.tasks[u], e) == 0
    ensures IsOpen(s'.pool, e) <==> !s'.pool.entries[e].ending.Ended?
  {
    assert EntryEvolves(s.pool.entries[e], s'.pool.entries[e]);
    assert EntryOk(s'.pool, e);
    forall u: nat | u < |s'.tasks| ensures HoldsOf(s'.tasks[u], e) == 0 {
      HolderCounts(s'.tasks, u, e);
      assert HoldCount(s'.tasks, e) == Held(s'.pool, e);
    }
  }

  lemma TurnEvicts(c: Config, p: Pool, t: nat, key: Key, free: int, p': Pool, task': Task)
    requires PoolInv(c, p) && TurnEffect(c, p, t, key, free, p', task') && task'.OnEviction?
    ensures LeastRecentlyUsed(p, task'.entry) && key !in p.open && !HasRoom(c, p, free)
    ensures task'.entry < |p'.entries| && p'.entries[task'.entry].ending != NotEnding
    ensures p'.entries[task'.entry].holds == 0 && task'.key == key
  {
  }

  lemma EvictingStep(c: Config, s: System, step: Step, s': System, key: Key, e: nat)
    requires Inv(c, s) && Next(c, s, step, s') && step.TakeTurn?
    requires step.task < |s'.tasks| && s'.tasks[step.task] == OnEviction(key, e)
    ensures LeastRecentlyUsed(s.pool, e) && key !in s.pool.open
    ensures e < |s'.pool.entries| && s'.pool.entries[e].ending != NotEnding && s'.pool.entries[e].holds == 0
  {
    TurnEvicts(c, s.pool, step.task, s.tasks[step.task].key, step.free, s'.pool, s'.tasks[step.task]);
  }

  lemma EvictingReachableStep(c: Config, states: seq<System>, steps: seq<Step>, i: nat, key: Key, e: nat)
    requires Execution(c, states, steps) && Initial(states[0]) && i < |steps| && steps[i].TakeTurn?
    requires steps[i].task < |states[i + 1].tasks| && states[i + 1].tasks[steps[i].task] == OnEviction(key, e)
    ensures LeastRecentlyUsed(states[i].pool, e) && key !in states[i].pool.open
    ensures var p := states[i + 1].pool;
            e < |p.entries| && p.entries[e].ending != NotEnding && p.entries[e].holds == 0
  {
    ReachableInv(c, states, steps, i);
    EvictingStep(c, states[i], steps[i], states[i + 1], key, e);
  }

  lemma EndingStaysFreeLater(c: Config, states: seq<System>, steps: seq<Step>, i: nat, j: nat, e: nat)
    requires Execution(c, states, steps) && Initial(states[0]) && i <= j < |states|
    requires var p := states[i].pool;
             e < |p.entries| && p.entries[e].ending != NotEnding && p.entries[e].holds == 0
    ensures e < |states[j].pool.entries|
    ensures forall u: nat :: u < |states[j].tasks| ==> HoldsOf(states[j].tasks[u], e) == 0
    ensures IsOpen(states[j].pool, e) <==> !states[j].pool.entries[e].ending.Ended?
  {
    LaterStatesEvolve(c, states, steps, i, j);
    ReachableInv(c, states, steps, i);
    ReachableInv(c, states, steps, j);
    EndingStaysFree(c, states[i], states[j], e);
  }

  /**
   A browser ended for room was the idle one whose last action ended strictly first. From then on
   no task ever holds it, and it stays under its key exactly until its ending settles.
   */
  lemma EvictionTakesTheLeastRecentlyUsed(
    c: Config, states: seq<System>, steps: seq<Step>, i: nat, j: nat, t: nat, key: Key, e: nat
  )
    requires Execution(c, states, steps) && Initial(states[0]) && i < j < |states|
    requires steps[i].TakeTurn? && steps[i].task == t
    requires t < |states[i + 1].tasks| && states[i + 1].tasks[t] == OnEviction(key, e)
    ensures LeastRecentlyUsed(states[i].pool, e) && key !in states[i].pool.open
    ensures e < |states[j].pool.entries|
    ensures forall u: nat :: u < |states[j].tasks| ==> HoldsOf(states[j].tasks[u], e) == 0
    ensures IsOpen(states[j].pool, e) <==> !states[j].pool.entries[e].ending.Ended?
  {
    EvictingReachableStep(c, states, steps, i, key, e);
    EndingStaysFreeLater(c, states, steps, i + 1, j, e);
  }

  // ----- No lost wake-up -----

  /** A promise that is still to settle keeps this entry busy. */
  predicate Busy(s: System, e: nat) {
    && e < |s.pool.entries|
    && IsOpen(s.pool, e)
    && (s.pool.entries[e].ending in {AwaitingLaunch, Closing}
        || exists t: nat :: t < |s.tasks| && HoldsOf(s.tasks[t], e) == 1)
  }

  /** While a task waits for room the pool is not empty and every open browser is busy. */
  lemma WaitersWaitForSomething(c: Config, s: System)
    requires Inv(c, s) && s.pool.waiting != []
    ensures s.pool.open != map[]
    ensures forall k :: k in s.pool.open ==> Busy(s, s.pool.open[k])
  {
    forall k | k in s.pool.open ensures Busy(s, s.pool.open[k]) {
      var e := s.pool.open[k];
      assert EntryOk(s.pool, e);
      assert HoldCount(s.tasks, e) == Held(s.pool, e);
      if s.pool.entries[e].holds > 0 {
        HeldByATask(s.tasks, e);
      }
    }
  }

  /** A run of steps between two states, the first of which may be any state. */
  ghost predicate Leads(c: Config, states: seq<System>, steps: seq<Step>, s: System, s': System) {
    Execution(c, states, steps) && states[0] == s && states[|steps|] == s'
  }

  /** A step that only lets what is already under way complete: no call, no turn. */
  predicate Completion(step: Step) {
    || step.LaunchSettles? || step.LaunchHandler? || step.EndingProceeds? || step.EndingSettles?
    || step.Resume? || step.ActionEnds? || step.CloseNext?
  }

  predicate OnlyCompletions(steps: seq<Step>) {
    forall i | 0 <= i < |steps| :: Completion(steps[i])
  }

  /** Whether launches, actions and browsers' endings succeed. */
  datatype Outcomes = Outcomes(launch: bool, action: bool, end: bool)

  /** Completions in which every launch, action and ending turns out as given. */
  predicate TurnsOut(steps: seq<Step>, o: Outcomes) {
    forall i | 0 <= i < |steps| :: StepTurnsOut(steps[i], o)
  }

  predicate StepTurnsOut(step: Step, o: Outcomes) {
    && Completion(step)
    && (step.LaunchSettles? ==> step.ok == o.launch)
    && (step.ActionEnds? ==> step.ok == o.action)
    && (step.EndingSettles? ==> step.ok == o.end)
  }

  /** Whether an ending under way settles without an error, when its launch and its browser turn out as given. */
  predicate EndsWell(entry: Entry, o: Outcomes) {
    match entry.ending
    case Ended(ok) => ok
    case Closing => o.end
    case _ => entry.launch == LaunchFailed || (entry.launch == Launching && !o.launch) || o.end
  }

  lemma LeadsFirst(c: Config, s: System, step: Step, states: seq<System>, steps: seq<Step>, s': System)
    requires |states| > 0 && Leads(c, states, steps, states[0], s')
    requires WellFormed(s.pool) && Next(c, s, step, states[0])
    ensures Leads(c, [s] + states, [step] + steps, s, s')
  {
    var all, moves := [s] + states, [step] + steps;
    forall i | 0 <= i < |moves| && WellFormed(all[i].pool) ensures Next(c, all[i], moves[i], all[i + 1]) {
      if i > 0 {
        assert all[i] == states[i - 1] && moves[i] == steps[i - 1] && all[i + 1] == states[i];
      }
    }
  }

  /** How many completions separate an entry's ending from its settling. */
  function EndingRank(entry: Entry): nat {
    (if entry.launch == Launching then 1 else 0)
    + (match entry.ending case Ended(_) => 0 case Closing => 1 case _ => 2)
  }

  /** The next completion of an ending under way. */
  function EndingMove(p: Pool, e: nat, o: Outcomes): (Step, Pool)
    requires e < |p.entries|
  {
    var entry := p.entries[e];
    if entry.launch == Launching then
      (LaunchSettles(e, o.launch), SetEntry(p, e, entry.(launch := if o.launch then Launched else LaunchFailed)))
    else if entry.ending == AwaitingLaunch then (EndingProceeds(e), ProceedEnding(p, e))
    else (EndingSettles(e, o.end), SettleEnding(p, e, o.end))
  }

  lemma EndingMoveIsAStep(p: Pool, e: nat, o: Outcomes)
    requires WellFormed(p) && e < |p.entries| && EntryOk(p, e)
    requires p.entries[e].ending in {AwaitingLaunch, Closing}
    ensures var (step, p') := EndingMove(p, e, o);
            && !step.Resume? && !step.ActionEnds? && !step.CloseNext?
            && StepTurnsOut(step, o)
            && PoolStep(p, step, p')
            && e < |p'.entries|
            && (EndedEntry(p', e) ==> p'.waiting == [])
            && EndsWell(p'.entries[e], o) == EndsWell(p.entries[e], o)
            && p'.entries[e].ending != NotEnding && EndingRank(p'.entries[e]) < EndingRank(p.entries[e])
  {
  }

  lemma EndingMoves(c: Config, s: System, e: nat, o: Outcomes)
    returns (step: Step, next: System)
    requires Inv(c, s) && e < |s.pool.entries| && s.pool.entries[e].ending in {AwaitingLaunch, Closing}
    ensures StepTurnsOut(step, o) && Next(c, s, step, next) && Inv(c, next) && Evolves(s.pool, next.pool)
    ensures next.tasks == s.tasks && e < |next.pool.entries|
    ensures EndsWell(next.pool.entries[e], o) == EndsWell(s.pool.entries[e], o)
    ensures EndedEntry(next.pool, e) ==> next.pool.waiting == []
    ensures next.pool.entries[e].ending != NotEnding && EndingRank(next.pool.entries[e]) < EndingRank(s.pool.entries[e])
  {
    assert EntryOk(s.pool, e);
    EndingMoveIsAStep(s.pool, e, o);
    step := EndingMove(s.pool, e, o).0;
    next := System(EndingMove(s.pool, e, o).1, s.tasks);
    NextKeepsInv(c, s, step, next);
    NextEvolves(c, s, step, next);
  }

  /**
   However its launch and its own ending turn out, an ending under way settles accordingly and wakes
   every waiter, with no other completion needed.
   */
  lemma {:induction false} EndingCompletes(c: Config, s: System, e: nat, o: Outcomes)
    returns (states: seq<System>, steps: seq<Step>, s': System)
    requires Inv(c, s) && e < |s.pool.entries| && s.pool.entries[e].ending in {AwaitingLaunch, Closing}
    ensures Leads(c, states, steps, s, s') && Inv(c, s')
    ensures TurnsOut(steps, o)
    ensures s'.tasks == s.tasks && s'.pool.waiting == [] && Evolves(s.pool, s'.pool) && e < |s'.pool.entries|
    ensures s'.pool.entries[e].ending == Ended(EndsWell(s.pool.entries[e], o))
    decreases EndingRank(s.pool.entries[e])
  {
    var step, next := EndingMoves(c, s, e, o);
    if next.pool.entries[e].ending.Ended? {
      states, steps, s' := [next], [], next;
    } else {
      states, steps, s' := EndingCompletes(c, next, e, o);
      EvolvesTransitively(s.pool, next.pool, s'.pool);
    }
    states, steps := StepThenRun(c, s, step, next, o, states, steps, s');
  }

  /** The next completion of a task that holds an entry. */
  function HolderMove(p: Pool, t: nat, task: Task, o: Outcomes): (Step, Pool, Task)
    requires (task.OnLaunch? || task.Acting?) && task.entry < |p.entries|
  {
    var entry := p.entries[task.entry];
    if task.Acting? then (ActionEnds(t, o.action), Release(p, task.entry), Settled(o.action))
    else if entry.launch == Launching then
      (LaunchSettles(task.entry, o.launch),
       SetEntry(p, task.entry, entry.(launch := if o.launch then Launched else LaunchFailed)), task)
    else if entry.launch == Launched then (Resume(t), p, Acting(task.key, task.entry))
    else (Resume(t), Release(p, task.entry), Settled(false))
  }

  function HolderRank(p: Pool, task: Task): nat {
    match task
    case OnLaunch(_, e) => if e < |p.entries| && p.entries[e].launch == Launching then 3 else 2
    case Acting(_, _) => 1
    case _ => 0
  }

  /** Whether a use that holds an entry succeeds, when its launch and its action turn out as given. */
  predicate ActsWell(p: Pool, task: Task, o: Outcomes) {
    match task
    case OnLaunch(_, e) =>
      e < |p.entries| && o.action && (p.entries[e].launch == Launched || (p.entries[e].launch == Launching && o.launch))
    case Acting(_, _) => o.action
    case Settled(ok) => ok
    case _ => false
  }

  lemma HolderMoveIsAStep(c: Config, p: Pool, t: nat, task: Task, o: Outcomes)
    requires WellFormed(p) && TaskOk(p, task) && (task.OnLaunch? || task.Acting?)
    ensures var (step, p', task') := HolderMove(p, t, task, o);
            && StepTurnsOut(step, o)
            && (if step.LaunchSettles? then PoolStep(p, step, p') && task' == task
                else (step == Resume(t) || step == ActionEnds(t, o.action)) && TaskStep(c, p, t, task, step, p', task'))
            && (task'.OnLaunch? || task'.Acting? || (task'.Settled? && p'.waiting == []))
            && ActsWell(p', task', o) == ActsWell(p, task, o)
            && HolderRank(p', task') < HolderRank(p, task)
  {
  }

  lemma HolderMoves(c: Config, s: System, t: nat, o: Outcomes)
    returns (step: Step, next: System)
    requires Inv(c, s) && t < |s.tasks| && (s.tasks[t].OnLaunch? || s.tasks[t].Acting?)
    ensures StepTurnsOut(step, o) && Next(c, s, step, next) && Inv(c, next)
    ensures |next.tasks| == |s.tasks| && next.tasks == s.tasks[t := next.tasks[t]]
    ensures ActsWell(next.pool, next.tasks[t], o) == ActsWell(s.pool, s.tasks[t], o)
    ensures next.tasks[t].OnLaunch? || next.tasks[t].Acting? || (next.tasks[t].Settled? && next.pool.waiting == [])
    ensures HolderRank(next.pool, next.tasks[t]) < HolderRank(s.pool, s.tasks[t])
  {
    assert TaskOk(s.pool, s.tasks[t]);
    HolderMoveIsAStep(c, s.pool, t, s.tasks[t], o);
    var move := HolderMove(s.pool, t, s.tasks[t], o);
    step, next := move.0, System(move.1, s.tasks[t := move.2]);
    NextKeepsInv(c, s, step, next);
  }

  /**
   However its launch and its action turn out, a task that holds an entry returns accordingly,
   releases it and wakes every waiter, with no other completion needed.
   */
  lemma {:induction false} HolderCompletes(c: Config, s: System, t: nat, o: Outcomes)
    returns (states: seq<System>, steps: seq<Step>, s': System)
    requires Inv(c, s) && t < |s.tasks| && (s.tasks[t].OnLaunch? || s.tasks[t].Acting?)
    ensures Leads(c, states, steps, s, s') && Inv(c, s')
    ensures TurnsOut(steps, o)
    ensures s'.tasks == s.tasks[t := Settled(ActsWell(s.pool, s.tasks[t], o))]
    ensures s'.pool.waiting == []
    decreases HolderRank(s.pool, s.tasks[t])
  {
    var step, next := HolderMoves(c, s, t, o);
    if next.tasks[t].Settled? {
      states, steps, s' := [next], [], next;
      assert next.tasks[t] == Settled(ActsWell(s.pool, s.tasks[t], o));
    } else {
      states, steps, s' := HolderCompletes(c, next, t, o);
      SettlesLater(s.tasks, next.tasks, t, ActsWell(s.pool, s.tasks[t], o));
    }
    states, steps := StepThenRun(c, s, step, next, o, states, steps, s');
  }

  /** A step in front of a run, all with the given outcomes. */
  lemma StepThenRun(c: Config, s: System, step: Step, next: System, o: Outcomes,
                    states: seq<System>, steps: seq<Step>, s': System)
    returns (states': seq<System>, steps': seq<Step>)
    requires WellFormed(s.pool) && Next(c, s, step, next) && StepTurnsOut(step, o)
    requires Leads(c, states, steps, next, s') && TurnsOut(steps, o)
    ensures Leads(c, states', steps', s, s') && TurnsOut(steps', o)
  {
    LeadsFirst(c, s, step, states, steps, s');
    states', steps' := [s] + states, [step] + steps;
  }

  lemma SettlesLater(tasks: seq<Task>, next: seq<Task>, t: nat, ok: bool)
    requires t < |tasks| && t < |next| && next == tasks[t := next[t]]
    ensures next[t := Settled(ok)] == tasks[t := Settled(ok)]
  {
  }

  /**
   While tasks wait for room, one launch, action or ending that is under way is enough to wake them
   all, whichever way its launch, its action and its browser's ending turn out.
   */
  lemma OneCompletionWakes(c: Config, s: System, o: Outcomes)
    requires Inv(c, s) && s.pool.waiting != []
    ensures exists states, steps, s' ::
      Leads(c, states, steps, s, s') && s'.pool.waiting == [] && TurnsOut(steps, o)
  {
    WaitersWaitForSomething(c, s);
    var k :| k in s.pool.open;
    var e := s.pool.open[k];
    if s.pool.entries[e].ending in {AwaitingLaunch, Closing} {
      var states, steps, s' := EndingCompletes(c, s, e, o);
      assert Leads(c, states, steps, s, s');
    } else {
      var t: nat :| t < |s.tasks| && HoldsOf(s.tasks[t], e) == 1;
      var states, steps, s' := HolderCompletes(c, s, t, o);
      assert Leads(c, states, steps, s, s');
    }
  }

  // ----- Closing -----

  /** Once closeAll has returned, the map is empty, and it stays empty: nothing launches again. */
  lemma ClosedForGood(c: Config, states: seq<System>, steps: seq<Step>, i: nat, j: nat, t: nat)
    requires Execution(c, states, steps) && Initial(states[0]) && i <= j < |states|
    requires t < |states[i].tasks| && states[i].tasks[t] == ClosedAll
    ensures states[j].pool.open == map[] && Live(states[j].pool) == {}
    ensures |states[j].pool.entries| == |states[i].pool.entries|
  {
    ReachableInv(c, states, steps, i);
    ReachableInv(c, states, steps, j);
    LaterStatesEvolve(c, states, steps, i, j);
    assert TaskOk(states[i].pool, ClosedAll);
    LiveIsOpen(c, states[j].pool);
  }

  lemma LeadsThen(c: Config, s: System, r: System, s': System,
                  states: seq<System>, steps: seq<Step>, states': seq<System>, steps': seq<Step>)
    requires Leads(c, states, steps, s, r) && Leads(c, states', steps', r, s')
    ensures Leads(c, states[..|steps|] + states', steps + steps', s, s')
  {
    var all, moves := states[..|steps|] + states', steps + steps';
    forall i | 0 <= i < |moves| && WellFormed(all[i].pool) ensures Next(c, all[i], moves[i], all[i + 1]) {
      if i < |steps| {
        assert all[i] == states[i] && all[i + 1] == states[i + 1];
      } else {
        assert all[i] == states'[i - |steps|] && all[i + 1] == states'[i + 1 - |steps|];
      }
    }
  }

  lemma CloseMoves(c: Config, s: System, t: nat) returns (next: System)
    requires Inv(c, s) && t < |s.tasks| && s.tasks[t].ClosingAll?
    requires s.tasks[t].current.Awaiting? ==> EndedEntry(s.pool, s.tasks[t].current.entry)
    ensures Next(c, s, CloseNext(t), next) && Inv(c, next) && |next.tasks| == |s.tasks|
    ensures if s.tasks[t].rest == [] then next.tasks[t] == ClosedAll
            else next.tasks[t].ClosingAll? && next.tasks[t].rest == s.tasks[t].rest[1..]
  {
    var rest := s.tasks[t].rest;
    if rest == [] {
      next := System(s.pool, s.tasks[t := ClosedAll]);
    } else {
      var current := if rest[0] in s.pool.open then Awaiting(s.pool.open[rest[0]]) else Nothing;
      next := System(StartEnding(s.pool, rest[0]), s.tasks[t := ClosingAll(current, rest[1..])]);
    }
    assert Next(c, s, CloseNext(t), next);
    NextKeepsInv(c, s, CloseNext(t), next);
  }

  /** With no browser left to end, the next step returns. */
  lemma CloseAllReturns(c: Config, s: System, t: nat) returns (next: System)
    requires Inv(c, s) && t < |s.tasks| && s.tasks[t].ClosingAll? && s.tasks[t].rest == []
    requires s.tasks[t].current.Awaiting? ==> EndedEntry(s.pool, s.tasks[t].current.entry)
    ensures Next(c, s, CloseNext(t), next) && Inv(c, next)
    ensures t < |next.tasks| && next.tasks[t] == ClosedAll && next.pool.open == map[]
  {
    next := CloseMoves(c, s, t);
    assert TaskOk(next.pool, next.tasks[t]);
  }

  lemma AwaitedEndingCompletes(c: Config, s: System, t: nat, o: Outcomes)
    returns (states: seq<System>, steps: seq<Step>, r: System)
    requires Inv(c, s) && t < |s.tasks| && s.tasks[t].ClosingAll? && s.tasks[t].current.Awaiting?
    requires !EndedEntry(s.pool, s.tasks[t].current.entry)
    ensures Leads(c, states, steps, s, r) && Inv(c, r)
    ensures TurnsOut(steps, o)
    ensures r.tasks == s.tasks && EndedEntry(r.pool, s.tasks[t].current.entry)
  {
    assert TaskOk(s.pool, s.tasks[t]);
    states, steps, r := EndingCompletes(c, s, s.tasks[t].current.entry, o);
  }

  /**
   A closeAll under way needs nothing but its own endings: those it started and those it still has to
   start lead to its return, whichever way they turn out, and then the map is empty.
   */
  lemma {:induction false} CloseAllCompletes(c: Config, s: System, t: nat, o: Outcomes)
    returns (states: seq<System>, steps: seq<Step>, s': System)
    requires Inv(c, s) && t < |s.tasks| && s.tasks[t].ClosingAll?
    ensures Leads(c, states, steps, s, s') && Inv(c, s')
    ensures t < |s'.tasks| && s'.tasks[t] == ClosedAll && s'.pool.open == map[]
    ensures TurnsOut(steps, o)
    decreases |s.tasks[t].rest|, s.tasks[t].current.Awaiting? && !EndedEntry(s.pool, s.tasks[t].current.entry)
  {
    var task := s.tasks[t];
    if task.current.Awaiting? && !EndedEntry(s.pool, task.current.entry) {
      var states1, steps1, r := AwaitedEndingCompletes(c, s, t, o);
      var states2, steps2;
      states2, steps2, s' := CloseAllCompletes(c, r, t, o);
      LeadsThen(c, s, r, s', states1, steps1, states2, steps2);
      states, steps := states1[..|steps1|] + states2, steps1 + steps2;
    } else if task.rest == [] {
      s' := CloseAllReturns(c, s, t);
      states, steps := StepThenRun(c, s, CloseNext(t), s', o, [s'], [], s');
    } else {
      var next := CloseMoves(c, s, t);
      states, steps, s' := CloseAllCompletes(c, next, t, o);
      states, steps := StepThenRun(c, s, CloseNext(t), next, o, states, steps, s');
    }
  }
}
