/** A stable sort by a key, as the language's own array sort is specified. */
module Ordering {

  predicate SortedBy<T>(xs: seq<T>, key: T -> int) {
    forall i, j | 0 <= i < j < |xs| :: key(xs[i]) <= key(xs[j])
  }

  /** Inserts after every element whose key is not greater. */
  function Insert<T>(xs: seq<T>, key: T -> int, x: T): seq<T> {
    if xs == [] || key(xs[|xs| - 1]) <= key(x) then xs + [x]
    else Insert(xs[..|xs| - 1], key, x) + [xs[|xs| - 1]]
  }

  function Sort<T>(xs: seq<T>, key: T -> int): seq<T> {
    if xs == [] then [] else Insert(Sort(xs[..|xs| - 1], key), key, xs[|xs| - 1])
  }

  lemma {:induction false} InsertPermutes<T>(xs: seq<T>, key: T -> int, x: T)
    ensures multiset(Insert(xs, key, x)) == multiset(xs) + multiset{x}
    ensures |Insert(xs, key, x)| == |xs| + 1
  {
    if xs != [] && key(xs[|xs| - 1]) > key(x) {
      InsertPermutes(xs[..|xs| - 1], key, x);
      assert xs == xs[..|xs| - 1] + [xs[|xs| - 1]];
    }
  }

  lemma {:induction false} InsertSorts<T>(xs: seq<T>, key: T -> int, x: T)
    requires SortedBy(xs, key)
    ensures SortedBy(Insert(xs, key, x), key)
    ensures forall y | y in Insert(xs, key, x) :: y in xs || y == x
  {
    if xs != [] && key(xs[|xs| - 1]) > key(x) {
      var front, last := xs[..|xs| - 1], xs[|xs| - 1];
      InsertSorts(front, key, x);
      var inserted := Insert(front, key, x);
      forall i | 0 <= i < |inserted| ensures key(inserted[i]) <= key(last) {
        assert inserted[i] in inserted;
      }
    }
  }

  lemma {:induction false} SortSorts<T>(xs: seq<T>, key: T -> int)
    ensures SortedBy(Sort(xs, key), key)
    ensures multiset(Sort(xs, key)) == multiset(xs) && |Sort(xs, key)| == |xs|
  {
    if xs != [] {
      var front, x := xs[..|xs| - 1], xs[|xs| - 1];
      SortSorts(front, key);
      InsertPermutes(Sort(front, key), key, x);
      InsertSorts(Sort(front, key), key, x);
      assert xs == front + [x];
    }
  }

  /** The elements with one key, in their order. */
  function WithKey<T>(xs: seq<T>, key: T -> int, value: int): seq<T> {
    if xs == [] then [] else AddWithKey(WithKey(xs[..|xs| - 1], key, value), xs[|xs| - 1], key, value)
  }

  function AddWithKey<T>(kept: seq<T>, x: T, key: T -> int, value: int): seq<T> {
    if key(x) == value then kept + [x] else kept
  }

  lemma WithKeyLast<T>(xs: seq<T>, x: T, key: T -> int, value: int)
    ensures WithKey(xs + [x], key, value) == AddWithKey(WithKey(xs, key, value), x, key, value)
  {
    assert (xs + [x])[..|xs|] == xs;
  }

  lemma {:induction false} InsertIsStable<T>(xs: seq<T>, key: T -> int, x: T, value: int)
    requires SortedBy(xs, key)
    ensures WithKey(Insert(xs, key, x), key, value) == AddWithKey(WithKey(xs, key, value), x, key, value)
  {
    if xs == [] || key(xs[|xs| - 1]) <= key(x) {
      WithKeyLast(xs, x, key, value);
    } else {
      var front, last := xs[..|xs| - 1], xs[|xs| - 1];
      InsertIsStable(front, key, x, value);
      WithKeyLast(Insert(front, key, x), last, key, value);
    }
  }

  /** Elements with equal keys keep their order. */
  lemma {:induction false} SortIsStable<T>(xs: seq<T>, key: T -> int, value: int)
    ensures WithKey(Sort(xs, key), key, value) == WithKey(xs, key, value)
  {
    if xs != [] {
      SortIsStable(xs[..|xs| - 1], key, value);
      SortSorts(xs[..|xs| - 1], key);
      InsertIsStable(Sort(xs[..|xs| - 1], key), key, xs[|xs| - 1], value);
    }
  }

  lemma {:induction false} WithKeyMembers<T>(xs: seq<T>, key: T -> int, value: int, x: T)
    ensures x in WithKey(xs, key, value) <==> x in xs && key(x) == value
  {
    if xs != [] {
      var front, last := xs[..|xs| - 1], xs[|xs| - 1];
      WithKeyMembers(front, key, value, x);
      assert xs == front + [last];
    }
  }

  lemma LastIsGreatest<T>(xs: seq<T>, key: T -> int, x: T)
    requires SortedBy(xs, key) && x in xs
    ensures key(x) <= key(xs[|xs| - 1])
  {
    var i :| 0 <= i < |xs| && xs[i] == x;
  }

  lemma LastWithKey<T>(xs: seq<T>, ys: seq<T>, key: T -> int)
    requires SortedBy(ys, key) && xs != []
    requires WithKey(xs, key, key(xs[|xs| - 1])) == WithKey(ys, key, key(xs[|xs| - 1]))
    ensures ys != [] && key(xs[|xs| - 1]) <= key(ys[|ys| - 1])
  {
    var x := xs[|xs| - 1];
    WithKeyMembers(xs, key, key(x), x);
    WithKeyMembers(ys, key, key(x), x);
    LastIsGreatest(ys, key, x);
  }

  lemma SameFronts<T>(xs: seq<T>, ys: seq<T>, last: T, key: T -> int, value: int)
    requires WithKey(xs + [last], key, value) == WithKey(ys + [last], key, value)
    ensures WithKey(xs, key, value) == WithKey(ys, key, value)
  {
    WithKeyLast(xs, last, key, value);
    WithKeyLast(ys, last, key, value);
    if key(last) == value {
      SameLast(WithKey(xs, key, value), WithKey(ys, key, value), last, last);
    }
  }

  /** The same elements with each key. */
  ghost predicate SameByKey<T>(xs: seq<T>, ys: seq<T>, key: T -> int) {
    forall value :: WithKey(xs, key, value) == WithKey(ys, key, value)
  }

  lemma LastsAgree<T>(xs: seq<T>, x: T, ys: seq<T>, y: T, key: T -> int)
    requires SortedBy(xs + [x], key) && SortedBy(ys + [y], key) && SameByKey(xs + [x], ys + [y], key)
    ensures x == y
  {
    LastWithKey(xs + [x], ys + [y], key);
    LastWithKey(ys + [y], xs + [x], key);
    WithKeyLast(xs, x, key, key(x));
    WithKeyLast(ys, y, key, key(x));
    assert WithKey(xs + [x], key, key(x)) == WithKey(ys + [y], key, key(x));
    SameLast(WithKey(xs, key, key(x)), WithKey(ys, key, key(x)), x, y);
  }

  lemma FrontsAgree<T>(xs: seq<T>, ys: seq<T>, last: T, key: T -> int)
    requires SameByKey(xs + [last], ys + [last], key)
    ensures SameByKey(xs, ys, key)
  {
    forall value ensures WithKey(xs, key, value) == WithKey(ys, key, value) {
      assert WithKey(xs + [last], key, value) == WithKey(ys + [last], key, value);
      SameFronts(xs, ys, last, key, value);
    }
  }

  lemma NonemptyAlike<T>(xs: seq<T>, ys: seq<T>, key: T -> int)
    requires SortedBy(xs, key) && SortedBy(ys, key) && SameByKey(xs, ys, key)
    ensures xs == [] <==> ys == []
  {
    if xs != [] {
      LastWithKey(xs, ys, key);
    } else if ys != [] {
      LastWithKey(ys, xs, key);
    }
  }

  /** The two lists end alike, and what is before the end meets the same conditions. */
  lemma EndsAgree<T>(xs: seq<T>, x: T, ys: seq<T>, y: T, key: T -> int)
    requires SortedBy(xs + [x], key) && SortedBy(ys + [y], key) && SameByKey(xs + [x], ys + [y], key)
    ensures x == y && SortedBy(xs, key) && SortedBy(ys, key) && SameByKey(xs, ys, key)
  {
    LastsAgree(xs, x, ys, y, key);
    FrontsAgree(xs, ys, x, key);
    FrontSorted(xs, x, key);
    FrontSorted(ys, y, key);
  }

  lemma FrontSorted<T>(xs: seq<T>, x: T, key: T -> int)
    requires SortedBy(xs + [x], key)
    ensures SortedBy(xs, key)
  {
    forall i, j | 0 <= i < j < |xs| ensures key(xs[i]) <= key(xs[j]) {
      assert (xs + [x])[i] == xs[i] && (xs + [x])[j] == xs[j];
    }
  }

  /** There is one sorted list only that keeps the order of elements with equal keys. */
  lemma {:induction false} StableSortIsUnique<T>(xs: seq<T>, ys: seq<T>, key: T -> int)
    requires SortedBy(xs, key) && SortedBy(ys, key) && SameByKey(xs, ys, key)
    ensures xs == ys
    decreases |xs|
  {
    NonemptyAlike(xs, ys, key);
    if xs != [] {
      var n, m := |xs| - 1, |ys| - 1;
      LastSplits(xs);
      LastSplits(ys);
      EndsAgree(xs[..n], xs[n], ys[..m], ys[m], key);
      StableSortIsUnique(xs[..n], ys[..m], key);
    }
  }

  lemma LastSplits<T>(xs: seq<T>)
    requires xs != []
    ensures xs == xs[..|xs| - 1] + [xs[|xs| - 1]]
  {
  }

  lemma SameLast<T>(xs: seq<T>, ys: seq<T>, x: T, y: T)
    requires xs + [x] == ys + [y]
    ensures x == y && xs == ys
  {
    assert (xs + [x])[|xs|] == x && (ys + [y])[|ys|] == y;
    assert xs == (xs + [x])[..|xs|] && ys == (ys + [y])[..|ys|];
  }

  /** Of elements with equal keys, a second key that was sorted stays sorted. */
  lemma {:induction false} WithKeySorted<T>(xs: seq<T>, key: T -> int, value: int, second: T -> int)
    requires SortedBy(xs, second)
    ensures SortedBy(WithKey(xs, key, value), second)
  {
    if xs != [] {
      var front, last := xs[..|xs| - 1], xs[|xs| - 1];
      WithKeySorted(front, key, value, second);
      var kept := WithKey(front, key, value);
      forall i | 0 <= i < |kept| ensures second(kept[i]) <= second(last) {
        WithKeyMembers(front, key, value, kept[i]);
      }
    }
  }

  lemma {:induction false} SortedWithKey<T>(xs: seq<T>, key: T -> int, i: nat, j: nat, second: T -> int)
    requires i < j < |xs| && key(xs[i]) == key(xs[j]) && SortedBy(WithKey(xs, key, key(xs[i])), second)
    ensures second(xs[i]) <= second(xs[j])
  {
    var front, last, kept := xs[..|xs| - 1], xs[|xs| - 1], WithKey(xs, key, key(xs[i]));
    assert kept[..|WithKey(front, key, key(xs[i]))|] == WithKey(front, key, key(xs[i]));
    if j < |xs| - 1 {
      SortedWithKey(front, key, i, j, second);
    } else {
      WithKeyMembers(front, key, key(xs[i]), front[i]);
      var k :| 0 <= k < |kept| - 1 && kept[k] == xs[i];
      assert kept[|kept| - 1] == last;
    }
  }

  /** Sorting by a second key first decides between elements whose keys are equal. */
  lemma SortBreaksTies<T>(xs: seq<T>, key: T -> int, second: T -> int, i: nat, j: nat)
    requires i < j < |xs|
    ensures var sorted := Sort(Sort(xs, second), key);
            |sorted| == |xs| && (key(sorted[i]) == key(sorted[j]) ==> second(sorted[i]) <= second(sorted[j]))
  {
    var inner := Sort(xs, second);
    var sorted := Sort(inner, key);
    SortSorts(xs, second);
    SortSorts(inner, key);
    if key(sorted[i]) == key(sorted[j]) {
      SortIsStable(inner, key, key(sorted[i]));
      WithKeySorted(inner, key, key(sorted[i]), second);
      SortedWithKey(sorted, key, i, j, second);
    }
  }

  /** The sum of a weight over a sequence. */
  function Total<T>(xs: seq<T>, weight: T -> int): int {
    if xs == [] then 0 else Total(xs[..|xs| - 1], weight) + weight(xs[|xs| - 1])
  }

  lemma TotalLast<T>(xs: seq<T>, x: T, weight: T -> int)
    ensures Total(xs + [x], weight) == Total(xs, weight) + weight(x)
  {
    assert (xs + [x])[..|xs|] == xs;
  }

  lemma {:induction false} TotalUpdate<T>(xs: seq<T>, i: nat, x: T, weight: T -> int)
    requires i < |xs|
    ensures Total(xs[i := x], weight) == Total(xs, weight) - weight(xs[i]) + weight(x)
  {
    var last := |xs| - 1;
    if i < last {
      TotalUpdate(xs[..last], i, x, weight);
      assert xs[i := x][..last] == xs[..last][i := x];
    } else {
      assert xs[i := x][..last] == xs[..last];
    }
  }

  lemma {:induction false} InsertTotal<T>(xs: seq<T>, key: T -> int, x: T, weight: T -> int)
    ensures Total(Insert(xs, key, x), weight) == Total(xs, weight) + weight(x)
  {
    var r := Insert(xs, key, x);
    if xs == [] || key(xs[|xs| - 1]) <= key(x) {
      assert r[..|xs|] == xs;
    } else {
      InsertTotal(xs[..|xs| - 1], key, x, weight);
      assert r[..|r| - 1] == Insert(xs[..|xs| - 1], key, x);
    }
  }

  lemma {:induction false} SortTotal<T>(xs: seq<T>, key: T -> int, weight: T -> int)
    ensures Total(Sort(xs, key), weight) == Total(xs, weight)
  {
    if xs != [] {
      SortTotal(xs[..|xs| - 1], key, weight);
      InsertTotal(Sort(xs[..|xs| - 1], key), key, xs[|xs| - 1], weight);
    }
  }

  lemma {:induction false} TotalTake<T>(xs: seq<T>, i: nat, weight: T -> int)
    requires i < |xs|
    ensures Total(xs, weight) == Total(xs[..i] + xs[i + 1..], weight) + weight(xs[i])
  {
    var last := |xs| - 1;
    if i == last {
      assert xs[..i] + xs[i + 1..] == xs[..last];
    } else {
      TotalTake(xs[..last], i, weight);
      var rest := xs[..i] + xs[i + 1..];
      assert rest[..|rest| - 1] == xs[..last][..i] + xs[..last][i + 1..];
    }
  }

  lemma WithoutOne<T>(xs: seq<T>, i: nat)
    requires i < |xs|
    ensures multiset(xs[..i] + xs[i + 1..]) == multiset(xs) - multiset{xs[i]}
  {
    assert xs == xs[..i] + [xs[i]] + xs[i + 1..];
  }

  /** A sum does not depend on the order. */
  lemma {:induction false} TotalPermutes<T>(xs: seq<T>, ys: seq<T>, weight: T -> int)
    requires multiset(xs) == multiset(ys)
    ensures Total(xs, weight) == Total(ys, weight)
    decreases |xs|
  {
    if xs == [] {
      assert |multiset(ys)| == 0;
    } else {
      var front, last := xs[..|xs| - 1], xs[|xs| - 1];
      WithoutOne(xs, |xs| - 1);
      assert front + xs[|xs|..] == front;
      assert last in multiset(ys);
      var i :| 0 <= i < |ys| && ys[i] == last;
      WithoutOne(ys, i);
      TotalPermutes(front, ys[..i] + ys[i + 1..], weight);
      TotalTake(ys, i, weight);
    }
  }
}
