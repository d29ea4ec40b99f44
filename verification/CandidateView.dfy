/**
 A reader's filtered view of a ballot key: it walks the discovery log page by page, while others go
 on appending, and shows only the candidates whose ballot identity the reader was given.
 */
module CandidateViews {
  import opened Basics
  import opened RelayStore

  type Identity = string

  /** What the view holds for the key: no entry, an entry without bytes, or a selected identity. */
  datatype Pointer = Unviewed | Withheld | Selected(identity: Identity)

  // ----- Specification -----

  /** The locators whose candidates carry the selected identity, in log order. */
  function Matching(log: seq<Locator>, identities: Locator -> Option<Identity>, selected: Identity): seq<Locator> {
    if log == [] then []
    else
      var last := log[|log| - 1];
      Matching(log[..|log| - 1], identities, selected) + if identities(last) == Some(selected) then [last] else []
  }

  function MatchingUpTo(log: seq<Locator>, n: nat, identities: Locator -> Option<Identity>, selected: Identity)
      : seq<Locator>
    requires n <= |log|
  {
    Matching(log[..n], identities, selected)
  }

  lemma MatchingLast(
      log: seq<Locator>, last: Locator, identities: Locator -> Option<Identity>, selected: Identity)
    ensures Matching(log + [last], identities, selected) ==
            Matching(log, identities, selected) + if identities(last) == Some(selected) then [last] else []
  {
    assert (log + [last])[..|log|] == log;
  }

  lemma {:induction false} MatchingAppends(
      log: seq<Locator>, more: seq<Locator>, identities: Locator -> Option<Identity>, selected: Identity)
    ensures Matching(log + more, identities, selected) ==
            Matching(log, identities, selected) + Matching(more, identities, selected)
  {
    if more == [] {
      assert log + more == log;
    } else {
      var front, last := more[..|more| - 1], more[|more| - 1];
      MatchingAppends(log, front, identities, selected);
      MatchingLast(log + front, last, identities, selected);
      assert log + more == log + front + [last];
    }
  }

  /** Pages read at different times fit together: what a later walk shows continues an earlier one. */
  lemma LaterViewsContinue(
      earlier: seq<Locator>, later: seq<Locator>, identities: Locator -> Option<Identity>, selected: Identity,
      offset: nat)
    requires earlier <= later
    ensures var first, second := Matching(earlier, identities, selected), Matching(later, identities, selected);
            && first <= second
            && Slice(first, offset, PAGE_ENTRIES) <= Slice(second, offset, PAGE_ENTRIES)
  {
    assert later == earlier + later[|earlier|..];
    MatchingAppends(earlier, later[|earlier|..], identities, selected);
  }

  /** Exactly the log's locators with the selected identity are shown, each as often as it was logged. */
  lemma {:induction false} MatchingIsTheSelection(
      log: seq<Locator>, identities: Locator -> Option<Identity>, selected: Identity, locator: Locator)
    ensures multiset(Matching(log, identities, selected))[locator] ==
            if identities(locator) == Some(selected) then multiset(log)[locator] else 0
  {
    if log != [] {
      var n := |log| - 1;
      MatchingIsTheSelection(log[..n], identities, selected, locator);
      assert log == log[..n] + [log[n]];
    }
  }

  // ----- The view -----

  class CandidateView {
    /** The key's discovery log: others append to it between any two reads. */
    var log: seq<Locator>
    /** The ballot identity a candidate's bytes carry, if they carry one. */
    const identities: Locator -> Option<Identity>
    var projected: set<Locator>
    var ballotIdentities: map<Locator, Identity>

    constructor (identities: Locator -> Option<Identity>)
      ensures Valid() && log == [] && this.identities == identities
    {
      log, projected, ballotIdentities := [], {}, map[];
      this.identities := identities;
    }

    ghost predicate Known(locator: Locator)
      reads this
    {
      if identities(locator).Some?
      then locator in ballotIdentities && ballotIdentities[locator] == identities(locator).value
      else locator !in ballotIdentities
    }

    ghost predicate Valid()
      reads this
    {
      && (forall locator | locator in projected :: Known(locator))
      && (forall locator | locator in ballotIdentities :: identities(locator) == Some(ballotIdentities[locator]))
    }

    /** Remembers a candidate's identity; a candidate projected before is left alone. */
    method Project(locator: Locator)
      requires Valid()
      modifies this`projected, this`ballotIdentities
      ensures Valid() && Known(locator)
    {
      if locator in projected {
        return;
      }
      var identity := identities(locator);
      if identity.Some? {
        ballotIdentities := ballotIdentities[locator := identity.value];
      }
      projected := projected + {locator};
    }

    /** The store's own page: any number of appends may come before it. */
    method StorePage(offset: nat) returns (total: nat, locators: seq<Locator>)
      modifies this`log
      ensures old(log) <= log && total == |log| && locators == Slice(log, offset, PAGE_ENTRIES)
    {
      var appended: seq<Locator> := *;
      log := log + appended;
      total := |log|;
      locators := if offset >= total then [] else log[offset..][..Min(PAGE_ENTRIES, total - offset)];
    }

    /** Keeps the matching ones among some locators. */
    method Keep(locators: seq<Locator>, visible: seq<Locator>, selected: Identity) returns (kept: seq<Locator>)
      requires Valid()
      modifies this`projected, this`ballotIdentities
      ensures Valid() && kept == locators + Matching(visible, identities, selected)
    {
      kept := locators;
      for i := 0 to |visible|
        invariant Valid() && kept == locators + Matching(visible[..i], identities, selected)
      {
        var locator := visible[i];
        Project(locator);
        if locator in ballotIdentities && ballotIdentities[locator] == selected {
          kept := kept + [locator];
        }
        assert visible[..i + 1][..i] == visible[..i];
      }
      assert visible[..|visible|] == visible;
    }

    /** A store page cut at the snapshot's end is the snapshot's next stretch. */
    lemma VisibleIsNext(snapshot: seq<Locator>, log: seq<Locator>, total: nat, selected: Identity)
      requires snapshot <= log && total <= |snapshot|
      ensures var page := Slice(log, total, PAGE_ENTRIES);
              var visible := page[..Min(|page|, |snapshot| - total)];
              && total + |visible| <= |snapshot| && (total < |snapshot| ==> visible != [])
              && MatchingUpTo(snapshot, total, identities, selected) + Matching(visible, identities, selected) ==
                 MatchingUpTo(snapshot, total + |visible|, identities, selected)
    {
      var page := Slice(log, total, PAGE_ENTRIES);
      var visible := page[..Min(|page|, |snapshot| - total)];
      assert snapshot[..total] + visible == snapshot[..total + |visible|];
      MatchingAppends(snapshot[..total], visible, identities, selected);
    }

    /** One read of the walk: it fixes the end at the first and adds the matches of the next stretch. */
    method ReadOn(total: nat, end: Option<nat>, found: seq<Locator>, selected: Identity, ghost snapshot: seq<Locator>)
        returns (total': nat, end': nat, found': seq<Locator>, more: bool, ghost snapshot': seq<Locator>)
      requires Valid() && snapshot <= log && total <= |snapshot|
      requires if end.Some? then end.value == |snapshot| else total == 0
      requires found == MatchingUpTo(snapshot, total, identities, selected)
      modifies this
      ensures Valid() && old(log) <= log && snapshot <= snapshot' <= log && (end.Some? ==> snapshot' == snapshot)
      ensures end' == |snapshot'| && total <= total' <= end'
      ensures found' == MatchingUpTo(snapshot', total', identities, selected)
      ensures if more then total < total' else total' == end'
    {
      var size, page := StorePage(total);
      snapshot' := if end.Some? then snapshot else log;
      end' := if end.Some? then end.value else size;
      var visible := page[..Min(|page|, end' - total)];
      VisibleIsNext(snapshot', log, total, selected);
      assert MatchingUpTo(snapshot', total, identities, selected) == found by {
        assert snapshot'[..total] == snapshot[..total];
      }
      found' := Keep(found, visible, selected);
      total' := total + |visible|;
      more := visible != [] && total' < end';
    }

    /** Every match among the entries the log had at its first reading, however many follow meanwhile. */
    method Walk(selected: Identity) returns (locators: seq<Locator>, ghost snapshot: seq<Locator>)
      requires Valid()
      modifies this
      ensures Valid() && old(log) <= snapshot <= log
      ensures locators == Matching(snapshot, identities, selected)
    {
      var total, end, more;
      total, end, locators, more, snapshot := ReadOn(0, None, [], selected, log);
      while more
        invariant Valid() && old(log) <= snapshot <= log
        invariant total <= end == |snapshot| && (more || total == end)
        invariant locators == MatchingUpTo(snapshot, total, identities, selected)
        decreases end - total, more
      {
        total, end, locators, more, snapshot := ReadOn(total, Some(end), locators, selected, snapshot);
      }
      assert snapshot[..total] == snapshot;
    }

    /** One page of the view. */
    method Page(isBallot: bool, pointer: Pointer, offset: nat)
        returns (total: nat, locators: seq<Locator>, ghost snapshot: seq<Locator>)
      requires Valid()
      modifies this
      ensures Valid() && old(log) <= snapshot <= log
      ensures !isBallot || pointer.Unviewed? ==>
                && total == |snapshot| && locators == Slice(snapshot, offset, PAGE_ENTRIES)
                && IsPageOf(snapshot, offset, locators)
      ensures isBallot && pointer.Withheld? ==> total == 0 && locators == []
      ensures isBallot && pointer.Selected? ==>
                var matching := Matching(snapshot, identities, pointer.identity);
                && total == |matching| && locators == Slice(matching, offset, PAGE_ENTRIES)
                && IsPageOf(matching, offset, locators)
    {
      if !isBallot || pointer.Unviewed? {
        total, locators := StorePage(offset);
        snapshot := log;
        SlicesArePages(snapshot, offset);
      } else if pointer.Withheld? {
        total, locators, snapshot := 0, [], log;
      } else {
        var matching;
        matching, snapshot := Walk(pointer.identity);
        total := |matching|;
        locators := if offset >= total then [] else matching[offset..][..Min(PAGE_ENTRIES, total - offset)];
        SlicesArePages(matching, offset);
      }
    }
  }
}
