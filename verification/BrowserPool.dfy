/**
 The browser pool's own code: the map, the entries and the waiters that its closures update in
 place. Every method is one stretch between awaits and is proved to be the step of PoolModel that
 carries its name; what those steps keep is proved in PoolProofs and PoolTheorems.
 */
module BrowserPools {
  import opened Sums
  import opened PoolModel
  import opened PoolProofs

  class OpenBrowser {
    ghost const number: nat  // its place among all entries ever made
    const key: Key
    var launch: Launch       // how the launch promise stands
    var handled: bool
    var ending: Ending
    var holds: int
    var bytes: int
    var idleSince: nat

    constructor (key: Key, ghost number: nat)
      ensures this.key == key && this.number == number
      ensures View() == Entry(key, Launching, false, NotEnding, 1, 0, 0)
    {
      this.key, this.number := key, number;
      launch, handled, ending := Launching, false, NotEnding;
      holds, bytes, idleSince := 1, 0, 0;
    }

    function View(): Entry
      reads this
    {
      Entry(key, launch, handled, ending, holds, bytes, idleSince)
    }
  }

  class BrowserPool {
    const browsers: nat
    const guardBytes: int
    var open: map<Key, OpenBrowser>
    var closed: bool
    var waiting: seq<nat>
    var actionsEnded: nat
    ghost var made: seq<OpenBrowser>

    ghost predicate Valid()
      reads this, made
    {
      && (forall e: nat :: e < |made| ==> made[e].number == e)
      && forall k :: k in open ==> open[k] in made && open[k].key == k
    }

    ghost predicate Has(entry: OpenBrowser)
      reads this
    {
      entry.number < |made| && made[entry.number] == entry
    }

    ghost function State(): Pool
      reads this, made
    {
      Pool(map k | k in open :: open[k].number,
           seq(|made|, e requires 0 <= e < |made| reads this, made => made[e].View()),
           closed, waiting, actionsEnded)
    }

    ghost function Settings(): Config {
      Config(browsers, guardBytes)
    }

    constructor (browsers: nat, guardBytes: int)
      ensures Valid() && fresh(this) && made == []
      ensures Settings() == Config(browsers, guardBytes)
      ensures Initial(System(State(), []))
    {
      this.browsers, this.guardBytes := browsers, guardBytes;
      open, closed, waiting, actionsEnded, made := map[], false, [], 0, [];
    }

    lemma GrowthOfOpen(growth: map<Key, int>)
      requires Valid() && growth.Keys == open.Keys
      requires forall k :: k in open ==>
        growth[k] == if guardBytes > open[k].bytes then guardBytes - open[k].bytes else 0
      ensures WellFormed(State()) && growth == GrowthByKey(Settings(), State())
    {
      var spec := GrowthByKey(Settings(), State());
      assert spec.Keys == open.Keys;
      forall k | k in open ensures spec[k] == growth[k] {
        assert State().entries[open[k].number] == open[k].View();
      }
    }

    /** What the open browsers may still grow by, summed in whatever order the map lists them. */
    method Growth() returns (total: int)
      requires Valid()
      ensures WellFormed(State()) && total == SumMap(GrowthByKey(Settings(), State()))
    {
      var growth := map k | k in open :: if guardBytes > open[k].bytes then guardBytes - open[k].bytes else 0;
      GrowthOfOpen(growth);
      total := SumValues(growth);
    }

    method HasRoom(free: int) returns (room: bool)
      requires Valid()
      ensures WellFormed(State()) && room == PoolModel.HasRoom(Settings(), State(), free)
      ensures room <==>
        && |open| < browsers
        && free - SumMap(map k | k in open :: if guardBytes > open[k].bytes then guardBytes - open[k].bytes else 0)
             >= 2 * guardBytes
    {
      if |open| >= browsers {
        assert State().open.Keys == open.Keys;
        return false;
      }
      var total := Growth();
      GrowthOfOpen(map k | k in open :: if guardBytes > open[k].bytes then guardBytes - open[k].bytes else 0);
      assert State().open.Keys == open.Keys;
      return free - total >= 2 * guardBytes;
    }

    predicate IsIdle(entry: OpenBrowser)
      reads entry
    {
      entry.holds == 0 && entry.ending == NotEnding
    }

    /** The scan for the idle browser to end, in whatever order the map lists its entries. */
    method FindIdle() returns (idle: OpenBrowser?)
      requires Valid() && DistinctTimes()
      ensures idle == null ==> forall e: nat :: !Idle(State(), e)
      ensures idle != null ==> Has(idle) && idle.key in open && open[idle.key] == idle
                               && LeastRecentlyUsed(State(), idle.number)
    {
      idle := null;
      var rest := open.Keys;
      while rest != {}
        invariant rest <= open.Keys
        invariant idle == null ==> forall k :: k in open && k !in rest ==> !IsIdle(open[k])
        invariant idle != null ==>
            && idle.key in open && idle.key !in rest && open[idle.key] == idle && IsIdle(idle)
            && forall k :: k in open && k !in rest && IsIdle(open[k]) && open[k] != idle
                 ==> idle.idleSince < open[k].idleSince
      {
        var k :| k in rest;
        var candidate := open[k];
        if IsIdle(candidate) && (idle == null || candidate.idleSince < idle.idleSince) {
          idle := candidate;
        }
        rest := rest - {k};
      }
      OpenNumbers();
    }

    /** An open entry's number is found under its key. */
    lemma OpenNumbers()
      requires Valid()
      ensures forall e: nat :: e < |made| && IsOpen(State(), e) ==> made[e].key in open && open[made[e].key] == made[e]
      ensures forall k :: k in open ==> Has(open[k]) && IsOpen(State(), open[k].number)
    {
    }

    /** No two idle browsers ended their last action at once, which every reachable pool satisfies. */
    ghost predicate DistinctTimes()
      reads this, open.Values
    {
      forall j, k :: j in open && k in open && j != k && IsIdle(open[j]) && IsIdle(open[k])
        ==> open[j].idleSince != open[k].idleSince
    }

    lemma ReachablePoolsHaveDistinctTimes()
      requires Valid() && PoolInv(Settings(), State())
      ensures DistinctTimes()
    {
      var p := State();
      forall j, k | j in open && k in open && j != k && IsIdle(open[j]) && IsIdle(open[k])
        ensures open[j].idleSince != open[k].idleSince {
        assert p.entries[open[j].number] == open[j].View() && p.entries[open[k].number] == open[k].View();
        assert EntryOk(p, open[j].number) && EntryOk(p, open[k].number);
      }
    }

    method End(key: Key)
      requires Valid()
      modifies this, made
      ensures Valid() && made == old(made)
      ensures WellFormed(old(State())) && State() == StartEnding(old(State()), key)
    {
      if key in open {
        var entry := open[key];
        if entry.ending == NotEnding {
          entry.ending := AwaitingLaunch;
        }
      }
      assert State() == StartEnding(old(State()), key);
    }

    /** One run of acquire's loop body, with the free memory the host reports meanwhile. */
    method TakeTurn(t: nat, key: Key, free: int) returns (outcome: Outcome)
      requires Valid() && DistinctTimes()
      modifies this, made
      ensures Valid() && old(made) <= made
      ensures TurnEffect(Settings(), old(State()), t, key, free, State(), outcome.Task(key))
    {
      if closed {
        return Refused;
      }
      if key in open {
        outcome := TakeOpen(t, key, free);
      } else {
        outcome := LaunchOrMakeRoom(t, key, free);
      }
    }

    /** An entry under the key is held, or its ending awaited. */
    method TakeOpen(t: nat, key: Key, free: int) returns (outcome: Outcome)
      requires Valid() && !closed && key in open
      modifies made
      ensures Valid()
      ensures TurnEffect(Settings(), old(State()), t, key, free, State(), outcome.Task(key))
    {
      var entry := open[key];
      if entry.ending != NotEnding {
        return AwaitsEnding(entry);
      }
      HoldEntry(entry);
      return Holds(entry);
    }

    method LaunchOrMakeRoom(t: nat, key: Key, free: int) returns (outcome: Outcome)
      requires Valid() && DistinctTimes() && !closed && key !in open
      modifies this, made
      ensures Valid() && old(made) <= made
      ensures TurnEffect(Settings(), old(State()), t, key, free, State(), outcome.Task(key))
    {
      var room := HasRoom(free);
      if room {
        var entry := OpenEntry(key);
        return Holds(entry);
      }
      outcome := MakeRoom(t, key);
      WithoutRoomTurns(Settings(), old(State()), t, key, free, State(), outcome.Task(key));
    }

    method HoldEntry(entry: OpenBrowser)
      requires Valid() && Has(entry)
      modifies entry
      ensures Valid() && State() == Hold(old(State()), entry.number)
    {
      entry.holds := entry.holds + 1;
      assert State() == Hold(old(State()), entry.number);
    }

    method OpenEntry(key: Key) returns (entry: OpenBrowser)
      requires Valid()
      modifies this
      ensures Valid() && made == old(made) + [entry] && entry.number == |old(made)|
      ensures State() == Open(old(State()), key)
    {
      entry := new OpenBrowser(key, |made|);
      open, made := open[key := entry], made + [entry];
      ghost var before := old(State());
      assert State().entries == before.entries + [entry.View()];
      assert State().open == before.open[key := |before.entries|];
    }

    /** Without room: end the least recently used idle browser, refuse, or wait. */
    method MakeRoom(t: nat, key: Key) returns (outcome: Outcome)
      requires Valid() && DistinctTimes()
      modifies this, made
      ensures Valid() && made == old(made)
      ensures WithoutRoom(old(State()), t, key, State(), outcome.Task(key))
    {
      var idle := FindIdle();
      if idle != null {
        End(idle.key);
        return Evicts(idle);
      }
      if |open| == 0 {
        return Refused;
      }
      var k :| k in open;
      assert k in State().open;
      waiting := waiting + [t];
      assert State() == old(State()).(waiting := old(State()).waiting + [t]);
      return Waits;
    }

    method WakeAll()
      requires Valid()
      modifies this
      ensures Valid() && made == old(made)
      ensures State() == Wake(old(State()))
    {
      waiting := [];
    }

    /** The `finally` of `use`. */
    method EndAction(entry: OpenBrowser)
      requires Valid() && Has(entry)
      modifies this, entry
      ensures Valid() && made == old(made)
      ensures State() == Release(old(State()), entry.number)
    {
      entry.holds := entry.holds - 1;
      actionsEnded := actionsEnded + 1;
      entry.idleSince := actionsEnded;
      WakeAll();
      assert State() == Release(old(State()), entry.number);
    }

    method Delete(entry: OpenBrowser)
      requires Valid() && Has(entry)
      modifies this
      ensures Valid() && made == old(made)
      ensures State() == Remove(old(State()), entry.number)
    {
      if entry.key in open && open[entry.key] == entry {
        open := open - {entry.key};
      }
      assert State() == Remove(old(State()), entry.number);
    }

    /** The `finally` of an ending. */
    method FinishEnding(entry: OpenBrowser, ok: bool)
      requires Valid() && Has(entry)
      modifies this, entry
      ensures Valid() && made == old(made)
      ensures State() == SettleEnding(old(State()), entry.number, ok)
    {
      Delete(entry);
      WakeAll();
      entry.ending := Ended(ok);
      assert State() == SettleEnding(old(State()), entry.number, ok);
    }

    /** An ending's first await has settled: a browser that launched is now asked to end. */
    method ContinueEnding(entry: OpenBrowser)
      requires Valid() && Has(entry)
      modifies this, entry
      ensures Valid() && made == old(made)
      ensures State() == ProceedEnding(old(State()), entry.number)
    {
      if entry.launch == Launched {
        entry.ending := Closing;
        assert State() == ProceedEnding(old(State()), entry.number);
      } else {
        FinishEnding(entry, true);
      }
    }

    /** The reaction to the launch promise. */
    method ReactToLaunch(entry: OpenBrowser)
      requires Valid() && Has(entry)
      modifies this, entry
      ensures Valid() && made == old(made)
      ensures State() == HandleLaunch(old(State()), entry.number)
    {
      entry.handled := true;
      if entry.launch == LaunchFailed && entry.key in open && open[entry.key] == entry && entry.ending == NotEnding {
        label handled:
        assert State() == SetEntry(old(State()), entry.number, entry.View());
        Delete(entry);
        WakeAll();
        assert State() == Wake(Remove(old@handled(State()), entry.number));
      } else {
        assert State() == SetEntry(old(State()), entry.number, entry.View());
      }
    }

    /** The first stretch of closeAll: the keys to end, in some order, each once. */
    method BeginCloseAll() returns (keys: seq<Key>)
      requires Valid()
      modifies this
      ensures Valid() && made == old(made)
      ensures State() == old(State()).(closed := true)
      ensures forall k :: k in keys <==> k in open
      ensures |keys| == |open|
    {
      closed := true;
      keys := [];
      var rest := open.Keys;
      while rest != {}
        invariant rest <= open.Keys
        invariant forall k :: k in keys <==> k in open && k !in rest
        invariant |keys| + |rest| == |open|
      {
        var k :| k in rest;
        keys, rest := keys + [k], rest - {k};
      }
    }
  }

  /** How a run of acquire's loop body ends. */
  /** What a turn does where its key is not open and there is no room. */
  ghost predicate WithoutRoom(p: Pool, t: nat, key: Key, p': Pool, task': Task)
    requires WellFormed(p)
  {
    match task'
    case OnEviction(k, e) => k == key && LeastRecentlyUsed(p, e) && p' == StartEnding(p, p.entries[e].key)
    case Settled(ok) => !ok && (forall e: nat :: !Idle(p, e)) && p' == p && p.open == map[]
    case Parked(k) =>
      k == key && (forall e: nat :: !Idle(p, e)) && p.open != map[] && p' == p.(waiting := p.waiting + [t])
    case _ => false
  }

  lemma WithoutRoomTurns(c: Config, p: Pool, t: nat, key: Key, free: int, p': Pool, task': Task)
    requires WellFormed(p) && WithoutRoom(p, t, key, p', task')
    requires !p.closed && key !in p.open && !HasRoom(c, p, free)
    ensures TurnEffect(c, p, t, key, free, p', task')
  {
  }

  datatype Outcome =
    | Refused
    | AwaitsEnding(entry: OpenBrowser)
    | Holds(entry: OpenBrowser)
    | Evicts(entry: OpenBrowser)
    | Waits
  {
    ghost function Task(key: Key): Task {
      match this
      case Refused => Settled(false)
      case AwaitsEnding(entry) => OnEnding(key, entry.number)
      case Holds(entry) => OnLaunch(key, entry.number)
      case Evicts(entry) => OnEviction(key, entry.number)
      case Waits => Parked(key)
    }
  }
}
