/**
 The relay store's own code: the map of pending promises and the entry files, updated between the
 awaits of its calls. Every method is one stretch between awaits and is proved to be the step of
 RelayStore that carries its name; what those steps keep is proved there and in RelayLog.
 */
module ParticipantRelays {
  import opened Basics
  import opened Ordering
  import opened RelayStore

  // ----- Reading the directory -----

  /** A directory listing names every entry file once, in whatever order. */
  predicate Lists(names: seq<nat>, files: map<nat, Locator>) {
    multiset(names) == multiset(files.Keys)
  }

  lemma ListingSize(names: seq<nat>, files: map<nat, Locator>)
    requires Lists(names, files)
    ensures |names| == |files|
    ensures forall n :: n in names <==> n in files
    ensures forall i, j | 0 <= i < j < |names| :: names[i] != names[j]
  {
    assert |multiset(names)| == |multiset(files.Keys)|;
    forall n ensures n in names <==> n in files {
      assert n in multiset(names) <==> n in multiset(files.Keys);
    }
    forall i, j | 0 <= i < j < |names| ensures names[i] != names[j] {
      if names[i] == names[j] {
        TwiceListed(names, i, j);
        assert false;
      }
    }
  }

  lemma TwiceListed(names: seq<nat>, i: nat, j: nat)
    requires i < j < |names| && names[i] == names[j]
    ensures multiset(names)[names[i]] >= 2
  {
    assert names == names[..j] + [names[j]] + names[j + 1..];
    assert names[i] in names[..j];
  }

  lemma {:induction false} DistinctAscend(sorted: seq<nat>, i: nat)
    requires i < |sorted| && forall j, k | 0 <= j < k < |sorted| :: sorted[j] < sorted[k]
    ensures i <= sorted[i]
  {
    if i > 0 {
      DistinctAscend(sorted[..i], i - 1);
    }
  }

  lemma {:induction false} LastAbove(sorted: seq<nat>, i: nat)
    requires i < |sorted| && forall j, k | 0 <= j < k < |sorted| :: sorted[j] < sorted[k]
    ensures sorted[i] + (|sorted| - 1 - i) <= sorted[|sorted| - 1]
  {
    if i < |sorted| - 1 {
      LastAbove(sorted[..|sorted| - 1], i);
    }
  }

  /** Sorted entry numbers are 0, 1, 2 and so on exactly when the log has no gap. */
  lemma SortedListing(names: seq<nat>, sorted: seq<nat>, files: map<nat, Locator>)
    requires Lists(names, files) && Lists(sorted, files)
    requires forall i, j | 0 <= i < j < |sorted| :: sorted[i] <= sorted[j]
    ensures |sorted| == |files|
    ensures Complete(files) <==> forall i | 0 <= i < |sorted| :: sorted[i] == i
  {
    ListingSize(sorted, files);
    if Complete(files) {
      forall i | 0 <= i < |sorted| ensures sorted[i] == i {
        DistinctAscend(sorted, i);
        LastAbove(sorted, i);
        assert sorted[|sorted| - 1] in sorted;
      }
    } else if forall i | 0 <= i < |sorted| :: sorted[i] == i {
      forall n: nat ensures n in files <==> n < |files| {
        assert n in sorted <==> n < |sorted| by {
          if n < |sorted| {
            assert sorted[n] == n;
          }
        }
      }
    }
  }

  /** Filters, sorts and checks the listing: the number of entries, or None where the prefix has a gap. */
  method Entries(names: seq<nat>, files: map<nat, Locator>) returns (total: Option<nat>)
    requires Lists(names, files)
    ensures if Complete(files) then total == Some(|files|) else total.None?
  {
    var sorted := Sort(names, (name: nat) => name as int);
    SortSorts(names, (name: nat) => name as int);
    SortedListing(names, sorted, files);
    for i := 0 to |sorted|
      invariant forall k | 0 <= k < i :: sorted[k] == k
    {
      if sorted[i] != i {
        return None;
      }
    }
    total := Some(|sorted|);
  }

  // ----- The store -----

  class ParticipantRelay {
    var files: map<Key, map<nat, Locator>>
    var pending: map<Key, nat>
    var calls: seq<Call>

    function State(): Store
      reads this
    {
      Store(files, pending, calls)
    }

    constructor ()
      ensures Initial(State())
    {
      files, pending, calls := map[], map[], [];
    }

    /** Up to the await: takes the previous call's promise and leaves its own in the map. */
    method Arrives(key: Key, request: Request) returns (call: nat)
      modifies this
      ensures call == |old(calls)| && Next(old(State()), Arrive(key, request), State())
    {
      var previous := if key in pending then Some(pending[key]) else None;
      call := |calls|;
      pending := pending[key := call];
      calls := calls + [Call(key, request, previous, Waiting)];
    }

    /** The await of the previous call is over. */
    method Enters(call: nat)
      requires MayEnter(State(), call)
      modifies this`calls
      ensures Next(old(State()), Enter(call), State())
    {
      calls := calls[call := calls[call].(phase := Entered)];
    }

    /** The `finally`: takes the own entry away if no later call replaced it, then unlocks. */
    method Finally(call: nat, result: Result)
      requires call < |calls|
      modifies this`pending, this`calls
      ensures State() == Release(old(State()), call, result)
    {
      var key := calls[call].key;
      if key in pending && pending[key] == call {
        pending := pending - {key};
      }
      calls := calls[call := calls[call].(phase := Done(result))];
    }

    /** Reads the directory of the call's key. */
    method Counts(call: nat, names: seq<nat>)
      requires call < |calls| && calls[call].phase == Entered
      requires Lists(names, FilesOf(State(), calls[call].key))
      modifies this`pending, this`calls
      ensures Next(old(State()), Count(call), State())
    {
      var key := calls[call].key;
      var total := Entries(names, if key in files then files[key] else map[]);
      if total.Some? {
        calls := calls[call := calls[call].(phase := Counted(total.value))];
      } else {
        Finally(call, Failed);
      }
    }

    /** Writes the entry file of an append. */
    method WritesEntry(call: nat)
      requires call < |calls| && calls[call].phase.Counted? && calls[call].request.Append?
      modifies this
      ensures Next(old(State()), Act(call), State())
    {
      var key, index := calls[call].key, calls[call].phase.total;
      var log: map<nat, Locator> := if key in files then files[key] else map[];
      files := files[key := log[index := calls[call].request.locator]];
      Finally(call, Appended(index));
    }

    /**
     Compares an announcement with the entries counted before, and writes it unless it is one of them;
     throws where one of them is gone.
     */
    method WritesUnlessListed(call: nat)
      requires call < |calls| && calls[call].phase.Counted? && calls[call].request.Announce?
      modifies this
      ensures var files := FilesOf(old(State()), old(calls[call].key));
              || Next(old(State()), Act(call), State())
              || (&& Next(old(State()), Fail(call), State())
                  && exists k: nat :: k < old(calls[call].phase.total) && k !in files)
    {
      var key, total, locator := calls[call].key, calls[call].phase.total, calls[call].request.locator;
      var log: map<nat, Locator> := if key in files then files[key] else map[];
      for place := 0 to total
        invariant State() == old(State()) && forall k: nat | k < place :: k in log && log[k] != locator
      {
        if place !in log {
          Finally(call, Failed);
          return;
        }
        if log[place] == locator {
          assert Shows(log, total, place, locator);
          Finally(call, Announced);
          return;
        }
      }
      assert !Listed(log, total, locator);
      files := files[key := log[total := locator]];
      Finally(call, Announced);
    }

    /** Reads the entry files of one page; throws where one is not there. */
    method ReadsPage(call: nat)
      requires call < |calls| && calls[call].phase.Counted? && calls[call].request.Page?
      modifies this`pending, this`calls
      ensures Next(old(State()), Act(call), State())
      ensures var log, total, offset :=
                FilesOf(old(State()), old(calls[call].key)), old(calls[call].phase.total),
                old(calls[call].request.offset);
              calls[call].phase.Done? &&
              match calls[call].phase.result
              case Paged(size, locators) =>
                && size == total && |locators| <= 64
                && (|locators| == 64 || offset + |locators| == total || (offset >= total && locators == []))
                && forall k | 0 <= k < |locators| :: offset + k in log && locators[k] == log[offset + k]
              case Failed => exists k: nat :: offset <= k < offset + 64 && k < total && k !in log
              case _ => false
    {
      var key, total, offset := calls[call].key, calls[call].phase.total, calls[call].request.offset;
      var log: map<nat, Locator> := if key in files then files[key] else map[];
      var end := offset + PageCount(total, offset, PAGE_ENTRIES);
      var locators := [];
      for place := offset to end
        invariant State() == old(State()) && |locators| == place - offset
        invariant forall k: nat | offset <= k < place :: k in log && locators[k - offset] == log[k]
      {
        if place !in log {
          assert !Readable(log, total, offset);
          Finally(call, Failed);
          return;
        }
        locators := locators + [log[place]];
      }
      assert Readable(log, total, offset) && locators == PageOf(log, total, offset);
      Finally(call, Paged(total, locators));
    }

    /** Whatever reading or writing throws releases the lock all the same. */
    method Throws(call: nat)
      requires call < |calls| && (calls[call].phase == Entered || calls[call].phase.Counted?)
      modifies this`pending, this`calls
      ensures Next(old(State()), Fail(call), State())
    {
      Finally(call, Failed);
    }
  }
}
