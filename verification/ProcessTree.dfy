/** The process tree's fixpoint, against chains of child links from the root. */
module ProcessTree {
  import opened Basics
  import opened Ordering

  datatype Process = Process(identifier: int, parent: int, bytes: int, started: Option<int>)

  datatype Description = Missing | Malformed | Tree(processes: nat, bytes: int)

  predicate BytesOk(p: Process) {
    0 <= p.bytes <= MAX_SAFE
  }

  /** When each identifier's process started, as far as known; of records that share one, the last counts. */
  function StartedBy(ps: seq<Process>): map<int, Option<int>> {
    if ps == [] then map[]
    else StartedBy(ps[..|ps| - 1])[ps[|ps| - 1].identifier := ps[|ps| - 1].started]
  }

  /** A process did not start before the process that now has its parent's identifier. */
  predicate IsChild(started: map<int, Option<int>>, p: Process) {
    p.started.None? || p.parent !in started || started[p.parent].None? || p.started.value >= started[p.parent].value
  }

  /** Records from a child of the root on, each the child of the one before. */
  ghost predicate Chain(ps: seq<Process>, root: int, path: seq<Process>) {
    && path != []
    && path[0].parent == root
    && (forall i | 0 <= i < |path| :: path[i] in ps && IsChild(StartedBy(ps), path[i]))
    && (forall i | 0 < i < |path| :: path[i].parent == path[i - 1].identifier)
  }

  ghost predicate Descends(ps: seq<Process>, root: int, id: int) {
    id == root || exists path: seq<Process> :: Chain(ps, root, path) && path[|path| - 1].identifier == id
  }

  function Identifiers(ps: seq<Process>): set<int> {
    set p | p in ps :: p.identifier
  }

  /** The root and everything a chain of child links reaches from it. */
  ghost function Owned(ps: seq<Process>, root: int): set<int> {
    set id | id in Identifiers(ps) + {root} && Descends(ps, root, id)
  }

  ghost function OwnedBytes(owned: set<int>): Process -> int {
    (p: Process) => if p.identifier in owned then p.bytes else 0
  }

  ghost function Describe(root: int, ps: seq<Process>): Description {
    if root !in Identifiers(ps) then Missing
    else if exists p :: p in ps && !BytesOk(p) then Malformed
    else Tree(|Owned(ps, root)|, Total(ps, OwnedBytes(Owned(ps, root))))
  }

  lemma {:induction false} StartedKeys(ps: seq<Process>)
    ensures StartedBy(ps).Keys == Identifiers(ps)
  {
    if ps != [] {
      StartedKeys(ps[..|ps| - 1]);
      assert forall p :: p in ps <==> p in ps[..|ps| - 1] || p == ps[|ps| - 1];
    }
  }

  /** A child of a descendant descends. */
  lemma ChildDescends(ps: seq<Process>, root: int, p: Process)
    requires p in ps && IsChild(StartedBy(ps), p) && Descends(ps, root, p.parent)
    ensures Descends(ps, root, p.identifier)
  {
    if p.parent == root {
      assert Chain(ps, root, [p]);
    } else {
      var path: seq<Process> :| Chain(ps, root, path) && path[|path| - 1].identifier == p.parent;
      assert Chain(ps, root, path + [p]);
      assert (path + [p])[|path + [p]| - 1].identifier == p.identifier;
    }
  }

  /** No more children to add. */
  predicate Closed(ps: seq<Process>, owned: set<int>) {
    forall p | p in ps && p.parent in owned && IsChild(StartedBy(ps), p) :: p.identifier in owned
  }

  lemma {:induction false} ClosedHoldsChains(ps: seq<Process>, root: int, owned: set<int>, path: seq<Process>)
    requires root in owned && Closed(ps, owned) && Chain(ps, root, path)
    ensures path[|path| - 1].identifier in owned
    decreases |path|
  {
    var last := |path| - 1;
    assert path[last] in ps;
    if last > 0 {
      ClosedHoldsChains(ps, root, owned, path[..last]);
    }
  }

  lemma ClosedIsOwned(ps: seq<Process>, root: int, owned: set<int>)
    requires root in owned && Closed(ps, owned)
    requires forall id | id in owned :: id in Identifiers(ps) + {root} && Descends(ps, root, id)
    ensures owned == Owned(ps, root)
  {
    forall id | id in Owned(ps, root) ensures id in owned {
      if id != root {
        var path: seq<Process> :| Chain(ps, root, path) && path[|path| - 1].identifier == id;
        ClosedHoldsChains(ps, root, owned, path);
      }
    }
    assert forall id | id in owned :: id in Owned(ps, root);
  }

  // ----- What is owned, by the records alone -----

  /** No process that took the parent's identifier is known to have started later; the last record counts. */
  predicate NotOlder(ps: seq<Process>, p: Process) {
    p.started.Some? ==>
      forall k | 0 <= k < |ps| && ps[k].identifier == p.parent && ps[k].started.Some?
                 && (forall later | k < later < |ps| :: ps[later].identifier != p.parent) ::
        ps[k].started.value <= p.started.value
  }

  lemma {:induction false} LastRecordCounts(ps: seq<Process>, id: int)
    ensures id !in StartedBy(ps) ==> forall k | 0 <= k < |ps| :: ps[k].identifier != id
    ensures id in StartedBy(ps) ==>
              exists k | 0 <= k < |ps| ::
                && ps[k].identifier == id && ps[k].started == StartedBy(ps)[id]
                && forall later | k < later < |ps| :: ps[later].identifier != id
  {
    if ps != [] {
      var front, last := ps[..|ps| - 1], ps[|ps| - 1];
      LastRecordCounts(front, id);
      if last.identifier == id {
        assert ps[|ps| - 1].started == StartedBy(ps)[id];
      } else if id in StartedBy(ps) {
        var k :| 0 <= k < |front| && front[k].identifier == id && front[k].started == StartedBy(front)[id]
                 && forall later | k < later < |front| :: front[later].identifier != id;
        assert ps[k] == front[k];
      }
    }
  }

  lemma ChildrenAreNotOlder(ps: seq<Process>, p: Process)
    ensures IsChild(StartedBy(ps), p) <==> NotOlder(ps, p)
  {
    LastRecordCounts(ps, p.parent);
    if p.parent in StartedBy(ps) {
      var k :| 0 <= k < |ps| && ps[k].identifier == p.parent && ps[k].started == StartedBy(ps)[p.parent]
               && forall later | k < later < |ps| :: ps[later].identifier != p.parent;
      forall j | 0 <= j < |ps| && ps[j].identifier == p.parent
                 && (forall later | j < later < |ps| :: ps[later].identifier != p.parent)
        ensures j == k
      {
      }
    }
  }

  /** A set that holds the root, and each process whose parent it holds and that is no older. */
  predicate Inherits(ps: seq<Process>, root: int, owned: set<int>) {
    root in owned && forall p | p in ps && p.parent in owned && NotOlder(ps, p) :: p.identifier in owned
  }

  /** What is owned is the least such set: nothing less will do, and nothing else belongs. */
  lemma OwnedIsTheLeast(ps: seq<Process>, root: int, owned: set<int>)
    ensures Inherits(ps, root, Owned(ps, root))
    ensures Inherits(ps, root, owned) ==> Owned(ps, root) <= owned
  {
    forall p ensures IsChild(StartedBy(ps), p) <==> NotOlder(ps, p) {
      ChildrenAreNotOlder(ps, p);
    }
    forall p | p in ps && p.parent in Owned(ps, root) && NotOlder(ps, p) ensures p.identifier in Owned(ps, root) {
      ChildDescends(ps, root, p);
    }
    if Inherits(ps, root, owned) {
      forall id | id in Owned(ps, root) ensures id in owned {
        if id != root {
          var path: seq<Process> :| Chain(ps, root, path) && path[|path| - 1].identifier == id;
          ClosedHoldsChains(ps, root, owned, path);
        }
      }
    }
  }

  lemma ParentIsOwned(ps: seq<Process>, root: int, id: int) returns (p: Process)
    requires id in Owned(ps, root) && id != root
    ensures p in ps && p.identifier == id && p.parent in Owned(ps, root) && NotOlder(ps, p)
  {
    var path: seq<Process> :| Chain(ps, root, path) && path[|path| - 1].identifier == id;
    var last := |path| - 1;
    p := path[last];
    ChildrenAreNotOlder(ps, p);
    if last > 0 {
      assert Chain(ps, root, path[..last]) && path[..last][last - 1].identifier == p.parent;
      assert path[last - 1] in ps;
    }
  }

  /**
   A process other than the root is owned exactly if some record of it has an owned parent and did
   not start before it: an unknown start, or a parent with no known start, never stands against it.
   */
  lemma OwnedExactlyIfItsParentIs(ps: seq<Process>, root: int, id: int)
    ensures root in Owned(ps, root)
    ensures id != root ==>
              (id in Owned(ps, root) <==>
               exists p :: p in ps && p.identifier == id && p.parent in Owned(ps, root) && NotOlder(ps, p))
  {
    OwnedIsTheLeast(ps, root, {});
    if id in Owned(ps, root) && id != root {
      var p := ParentIsOwned(ps, root, id);
    }
  }

  /** For a process recorded once, under a parent whose records agree on its start. */
  lemma OwnedBesideItsParent(ps: seq<Process>, root: int, p: Process)
    requires p in ps && p.identifier != root && forall q | q in ps && q.identifier == p.identifier :: q == p
    ensures p.parent in Owned(ps, root)
            && (p.started.None? || forall q | q in ps && q.identifier == p.parent && q.started.Some? ::
                                     q.started.value <= p.started.value) ==>
            p.identifier in Owned(ps, root)
    ensures p.started.Some? && (exists q :: q in ps && q.identifier == p.parent)
            && (forall q | q in ps && q.identifier == p.parent ::
                  q.started.Some? && q.started.value > p.started.value) ==>
            p.identifier !in Owned(ps, root)
  {
    OwnedExactlyIfItsParentIs(ps, root, p.identifier);
    LastRecordCounts(ps, p.parent);
    if q :| q in ps && q.identifier == p.parent {
      StartedKeys(ps);
      assert p.parent in Identifiers(ps);
      var k :| 0 <= k < |ps| && ps[k].identifier == p.parent
               && forall later | k < later < |ps| :: ps[later].identifier != p.parent;
      assert ps[k] in ps;
    }
  }

  /** Where no start is known, exactly what parent links lead to from the root is owned. */
  lemma LinksAloneDecide(ps: seq<Process>, root: int, owned: set<int>)
    requires forall p | p in ps :: p.started.None?
    ensures root in Owned(ps, root)
    ensures forall p | p in ps && p.parent in Owned(ps, root) :: p.identifier in Owned(ps, root)
    ensures root in owned && (forall p | p in ps && p.parent in owned :: p.identifier in owned) ==>
              Owned(ps, root) <= owned
  {
    OwnedIsTheLeast(ps, root, owned);
  }

  method CollectStarted(ps: seq<Process>) returns (started: map<int, Option<int>>)
    ensures started == StartedBy(ps)
  {
    started := map[];
    for i := 0 to |ps|
      invariant started == StartedBy(ps[..i])
    {
      assert ps[..i + 1][..i] == ps[..i];
      started := started[ps[i].identifier := ps[i].started];
    }
    assert ps[..|ps|] == ps;
  }

  /** One pass over the processes: adds the children of what is owned, also of what it just added. */
  method AddChildren(root: int, ps: seq<Process>, started: map<int, Option<int>>, before: set<int>)
      returns (owned: set<int>, changed: bool)
    requires started == StartedBy(ps)
    requires before <= Identifiers(ps) + {root} && forall id | id in before :: Descends(ps, root, id)
    ensures before <= owned <= Identifiers(ps) + {root} && forall id | id in owned :: Descends(ps, root, id)
    ensures changed == (owned != before) && (!changed ==> Closed(ps, owned))
  {
    owned, changed := before, false;
    for i := 0 to |ps|
      invariant before <= owned <= Identifiers(ps) + {root}
      invariant changed == (owned != before)
      invariant forall id | id in owned :: Descends(ps, root, id)
      invariant forall p | p in ps[..i] && p.parent in before && IsChild(started, p) :: p.identifier in owned
    {
      var p := ps[i];
      assert ps[..i + 1] == ps[..i] + [p];
      if p.parent in owned && p.identifier !in owned && IsChild(started, p) {
        ChildDescends(ps, root, p);
        owned := owned + {p.identifier};
        changed := true;
      }
    }
    assert ps[..|ps|] == ps;
  }

  /** Grows the owned set until a whole pass over the processes adds nothing. */
  method CollectOwned(root: int, ps: seq<Process>, started: map<int, Option<int>>) returns (owned: set<int>)
    requires started == StartedBy(ps)
    ensures owned == Owned(ps, root)
  {
    ghost var all := Identifiers(ps) + {root};
    owned := {root};
    var changed := true;
    while changed
      invariant root in owned && owned <= all
      invariant forall id | id in owned :: Descends(ps, root, id)
      invariant !changed ==> Closed(ps, owned)
      decreases |all - owned|, changed
    {
      ghost var before := owned;
      owned, changed := AddChildren(root, ps, started, owned);
      Shrinks(all, before, owned);
    }
    ClosedIsOwned(ps, root, owned);
  }

  lemma Shrinks(all: set<int>, before: set<int>, owned: set<int>)
    requires before <= owned <= all
    ensures owned != before ==> |all - owned| < |all - before|
  {
    assert all - before == (all - owned) + (owned - before);
    assert |all - before| == |all - owned| + |owned - before|;
    assert owned - before == {} ==> owned == before;
  }

  method DescribeProcessTree(root: int, ps: seq<Process>) returns (r: Description)
    ensures r == Describe(root, ps)
    ensures r == Missing <==> forall p | p in ps :: p.identifier != root
    ensures r == Malformed <==>
            (exists p :: p in ps && p.identifier == root)
            && exists p :: p in ps && !(0 <= p.bytes <= 0x1F_FFFF_FFFF_FFFF)
    ensures r.Tree? ==>
              && r.processes == |Owned(ps, root)|
              && r.bytes == Total(ps, (p: Process) => if p.identifier in Owned(ps, root) then p.bytes else 0)
  {
    var started := CollectStarted(ps);
    StartedKeys(ps);
    if root !in started {
      return Missing;
    }
    var owned := CollectOwned(root, ps, started);
    var total := SumOwned(ps, owned);
    return if total.Some? then Tree(|owned|, total.value) else Malformed;
  }

  /** The owned processes' bytes, none if any count of bytes is out of range. */
  method SumOwned(ps: seq<Process>, owned: set<int>) returns (total: Option<int>)
    ensures total.None? <==> exists p :: p in ps && !BytesOk(p)
    ensures total.Some? ==> total.value == Total(ps, OwnedBytes(owned))
  {
    var sum := 0;
    for i := 0 to |ps|
      invariant sum == Total(ps[..i], OwnedBytes(owned))
      invariant forall p | p in ps[..i] :: BytesOk(p)
    {
      if !BytesOk(ps[i]) {
        return None;
      }
      assert ps[..i + 1][..i] == ps[..i];
      sum := sum + if ps[i].identifier in owned then ps[i].bytes else 0;
    }
    assert ps[..|ps|] == ps;
    return Some(sum);
  }

  // ----- When the order does not matter -----

  /** Records that share an identifier agree on when their process started. */
  predicate Agree(ps: seq<Process>) {
    forall p, q | p in ps && q in ps && p.identifier == q.identifier :: p.started == q.started
  }

  lemma {:induction false} StartedOfAgreed(ps: seq<Process>, p: Process)
    requires Agree(ps) && p in ps
    ensures p.identifier in StartedBy(ps) && StartedBy(ps)[p.identifier] == p.started
  {
    var front, last := ps[..|ps| - 1], ps[|ps| - 1];
    assert last in ps && forall q | q in front :: q in ps;
    if p.identifier != last.identifier {
      StartedOfAgreed(front, p);
    }
  }

  lemma SameStarted(ps: seq<Process>, reordered: seq<Process>)
    requires Agree(ps) && forall p :: p in ps <==> p in reordered
    ensures StartedBy(ps) == StartedBy(reordered)
  {
    StartedKeys(ps);
    StartedKeys(reordered);
    forall id | id in Identifiers(ps) ensures StartedBy(ps)[id] == StartedBy(reordered)[id] {
      var p :| p in ps && p.identifier == id;
      StartedOfAgreed(ps, p);
      StartedOfAgreed(reordered, p);
    }
  }

  lemma SameMembers(ps: seq<Process>, reordered: seq<Process>)
    requires multiset(ps) == multiset(reordered)
    ensures forall p :: p in ps <==> p in reordered
  {
    assert forall p :: p in ps <==> p in multiset(ps);
    assert forall p :: p in reordered <==> p in multiset(reordered);
  }

  lemma SameOwned(root: int, ps: seq<Process>, reordered: seq<Process>)
    requires Agree(ps) && forall p :: p in ps <==> p in reordered
    ensures Owned(ps, root) == Owned(reordered, root)
  {
    SameStarted(ps, reordered);
    forall path: seq<Process> ensures Chain(ps, root, path) <==> Chain(reordered, root, path) {
    }
    assert Identifiers(ps) == Identifiers(reordered);
  }

  /** While records that share an identifier agree, processes listed in another order describe the same tree. */
  lemma OrderDoesNotMatter(root: int, ps: seq<Process>, reordered: seq<Process>)
    requires Agree(ps) && multiset(ps) == multiset(reordered)
    ensures Describe(root, ps) == Describe(root, reordered)
  {
    SameMembers(ps, reordered);
    SameOwned(root, ps, reordered);
    assert Identifiers(ps) == Identifiers(reordered);
    TotalPermutes(ps, reordered, OwnedBytes(Owned(ps, root)));
  }

  /** Whatever further process joins, every order of all of them owns the same processes from every root. */
  ghost predicate OrderFree(ps: seq<Process>) {
    forall c: Process, root: int, xs: seq<Process>, ys: seq<Process> |
      && c.identifier !in Identifiers(ps)
      && multiset(xs) == multiset(ps + [c]) && multiset(ys) == multiset(ps + [c]) ::
      Owned(xs, root) == Owned(ys, root)
  }

  /** The order never matters exactly when records that share an identifier agree on its start. */
  lemma OrderMattersExactlyOnDisagreement(ps: seq<Process>)
    ensures OrderFree(ps) <==> Agree(ps)
  {
    if Agree(ps) {
      forall c: Process, root: int, xs: seq<Process>, ys: seq<Process> |
        && c.identifier !in Identifiers(ps)
        && multiset(xs) == multiset(ps + [c]) && multiset(ys) == multiset(ps + [c])
        ensures Owned(xs, root) == Owned(ys, root)
      {
        OrderIsFree(ps, c, root, xs, ys);
      }
    }
    if !Agree(ps) {
      var p, q :| p in ps && q in ps && p.identifier == q.identifier && p.started != q.started;
      if LaterStart(p.started, q.started) {
        DisagreementShows(ps, p, q);
      } else {
        DisagreementShows(ps, q, p);
      }
    }
  }

  lemma OrderIsFree(ps: seq<Process>, c: Process, root: int, xs: seq<Process>, ys: seq<Process>)
    requires Agree(ps) && c.identifier !in Identifiers(ps)
    requires multiset(xs) == multiset(ps + [c]) && multiset(ys) == multiset(ps + [c])
    ensures Owned(xs, root) == Owned(ys, root)
  {
    SameMembers(xs, ps + [c]);
    SameMembers(xs, ys);
    assert Agree(xs) by {
      assert forall p | p in ps :: p.identifier in Identifiers(ps);
      assert forall p | p in ps + [c] :: p in ps || p == c;
    }
    SameOwned(root, xs, ys);
  }

  /** A child that fits under the first start does not fit under the second. */
  predicate LaterStart(a: Option<int>, b: Option<int>) {
    b.Some? && (a.None? || a.value < b.value)
  }

  /** A child under the first start only: with no start known just before the second, else at the first. */
  function ChildBetween(id: int, parent: int, a: Option<int>, b: Option<int>): Process
    requires LaterStart(a, b)
  {
    Process(id, parent, 0, Some(if a.Some? then a.value else b.value - 1))
  }

  /** Two starts of one identifier own different processes, once a child joins that only one of them could have. */
  lemma DisagreementShows(ps: seq<Process>, p: Process, q: Process)
    requires p in ps && q in ps && p.identifier == q.identifier && LaterStart(p.started, q.started)
    ensures !OrderFree(ps)
  {
    var unused := FreshIdentifier(ps);
    var c := ChildBetween(unused, p.identifier, p.started, q.started);
    var xs := WithLast(ps, c, p);
    var ys := WithLast(ps, c, q);
    assert p.identifier in Identifiers(ps);
    ChildIsOwned(ps, c, p, xs);
    ChildIsNotOwned(ps, c, q, ys);
    assert Owned(xs, p.identifier) != Owned(ys, p.identifier);
  }

  lemma {:induction false} FreshIdentifier(ps: seq<Process>) returns (unused: int)
    ensures forall p | p in ps :: p.identifier < unused
  {
    unused := 0;
    if ps != [] {
      var front, last := ps[..|ps| - 1], ps[|ps| - 1];
      var above := FreshIdentifier(front);
      unused := if above > last.identifier then above else last.identifier + 1;
      assert ps == front + [last];
    }
  }

  /** The processes and a further one, with a given record last. */
  lemma WithLast(ps: seq<Process>, c: Process, last: Process) returns (xs: seq<Process>)
    requires last in ps
    ensures multiset(xs) == multiset(ps + [c]) && xs != [] && xs[|xs| - 1] == last
    ensures forall x :: x in xs <==> x in ps || x == c
  {
    var k :| 0 <= k < |ps| && ps[k] == last;
    xs := ps[..k] + ps[k + 1..] + [c] + [last];
    assert ps == ps[..k] + [last] + ps[k + 1..];
    SameMembers(xs, ps + [c]);
  }

  lemma ChildIsOwned(ps: seq<Process>, c: Process, last: Process, xs: seq<Process>)
    requires forall x :: x in xs <==> x in ps || x == c
    requires xs != [] && xs[|xs| - 1] == last && c.parent == last.identifier
    requires IsChild(map[last.identifier := last.started], c)
    ensures c.identifier in Owned(xs, last.identifier)
  {
    assert StartedBy(xs)[last.identifier] == last.started;
    assert Chain(xs, last.identifier, [c]);
    assert [c][|[c]| - 1].identifier == c.identifier && c in xs;
  }

  lemma ChildIsNotOwned(ps: seq<Process>, c: Process, last: Process, xs: seq<Process>)
    requires forall x :: x in xs <==> x in ps || x == c
    requires xs != [] && xs[|xs| - 1] == last && c.parent == last.identifier
    requires c.identifier !in Identifiers(ps) && c.identifier != last.identifier
    requires !IsChild(map[last.identifier := last.started], c)
    ensures c.identifier !in Owned(xs, last.identifier)
  {
    assert StartedBy(xs)[last.identifier] == last.started;
    assert forall x | x in ps :: x.identifier in Identifiers(ps);
    forall path: seq<Process> | Chain(xs, last.identifier, path) ensures path[|path| - 1].identifier != c.identifier {
      assert path[|path| - 1] in xs;
    }
  }

  /** For one, a list of two records of one process and of a child: reordered, the child is not owned. */
  lemma SharedIdentifiersDependOnOrder()
    ensures var early, late, other := Process(1, 0, 0, Some(0)), Process(1, 0, 0, Some(5)), Process(2, 1, 7, Some(3));
            && 2 in Owned([late, other, early], 1)
            && 2 !in Owned([early, other, late], 1)
  {
    var early, late, other := Process(1, 0, 0, Some(0)), Process(1, 0, 0, Some(5)), Process(2, 1, 7, Some(3));
    var ps := [early, late];
    assert forall x :: x in [late, other, early] <==> x in ps || x == other;
    assert forall x :: x in [early, other, late] <==> x in ps || x == other;
    assert Identifiers(ps) == {1};
    ChildIsOwned(ps, other, early, [late, other, early]);
    ChildIsNotOwned(ps, other, late, [early, other, late]);
  }
}
