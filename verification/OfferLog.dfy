/**
 The offer announcements over every interleaving of announcing and paging calls: the lock makes each
 of them one step on its position's list.
 */
module OfferLog {
  import opened OfferAnnouncements
  import opened RelayStore
  import opened RelayLog

  /** What one key's successful announcements announced, in the order the calls arrived. */
  function AnnouncedBy(calls: seq<Call>, key: Key): seq<Locator> {
    if calls == [] then []
    else
      var front, last := AnnouncedBy(calls[..|calls| - 1], key), calls[|calls| - 1];
      if Succeeded(last, key) then front + [last.request.locator] else front
  }

  /** Nothing but announcements and pages was asked of a position. */
  predicate OnlyAnnounces(calls: seq<Call>, key: Key) {
    forall call | call in calls && call.key == key :: !call.request.Append?
  }

  lemma {:induction false} AppendsAreAnnounced(calls: seq<Call>, key: Key)
    requires OnlyAnnounces(calls, key)
    ensures Appends(calls, key) == AnnounceAll(AnnouncedBy(calls, key))
  {
    if calls != [] {
      var front, last := calls[..|calls| - 1], calls[|calls| - 1];
      assert last in calls && forall call | call in front :: call in calls;
      AppendsAreAnnounced(front, key);
      if Succeeded(last, key) {
        AnnounceOneMore(AnnouncedBy(front, key), last.request.locator);
      }
    }
  }

  lemma AnnounceOneMore<T>(identities: seq<T>, identity: T)
    ensures AnnounceAll(identities + [identity]) == AddOnce(AnnounceAll(identities), identity)
  {
    assert (identities + [identity])[..|identities|] == identities;
  }

  /**
   In every reachable state a position's list is what its successful announcements announced, in the
   order the calls arrived and each identity once, however the calls interleave.
   */
  lemma ListIsTheAnnouncementsInOrder(states: seq<Store>, steps: seq<Step>, n: nat, key: Key)
    requires Execution(states, steps) && n < |states| && OnlyAnnounces(states[n].calls, key)
    ensures LogsComplete(states[n])
    ensures Log(states[n], key) == AnnounceAll(AnnouncedBy(states[n].calls, key))
  {
    LogIsTheAppendsInOrder(states, steps, n);
    AppendsAreAnnounced(states[n].calls, key);
  }
}
