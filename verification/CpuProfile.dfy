/**
 The summary of a trace's CPU samples: the time each function spent at the top of a sampled stack
 and anywhere on it, in every thread and over all of them.
 */
module CpuProfiles {
  import opened Basics
  import opened Ordering
  import opened Sums

  /** A node of the call tree under the name its frame is listed by. */
  datatype Node = Node(parent: Option<int>, name: string)

  /** A thread's profile, its chunks put together. */
  datatype Thread = Thread(nodes: map<int, Node>, samples: seq<int>, deltas: seq<int>)

  datatype Summary = Summary(sampled: int, self: map<string, int>, inclusive: map<string, int>)

  const IDLE := {"(root)", "(idle)", "(program)"}

  // ----- Specification -----

  /** Every parent link leads lower. */
  ghost predicate Acyclic(nodes: map<int, Node>, height: map<int, nat>) {
    && nodes.Keys <= height.Keys
    && forall id | id in nodes && nodes[id].parent.Some? && nodes[id].parent.value in nodes ::
         height[nodes[id].parent.value] < height[id]
  }

  function Parent(nodes: map<int, Node>, id: int): Option<int>
    requires id in nodes
  {
    if nodes[id].parent.Some? && nodes[id].parent.value in nodes then nodes[id].parent else None
  }

  /** The functions on a stack, each once however often it recurs. */
  ghost function OnStack(nodes: map<int, Node>, height: map<int, nat>, id: int): set<string>
    requires Acyclic(nodes, height) && id in nodes
    decreases height[id]
  {
    var parent := Parent(nodes, id);
    var own := if nodes[id].name in IDLE then {} else {nodes[id].name};
    own + if parent.Some? then OnStack(nodes, height, parent.value) else {}
  }

  /** A sample lasts until the next one. */
  function Weight(thread: Thread, k: nat): nat {
    if k + 1 < |thread.deltas| && thread.deltas[k + 1] > 0 then thread.deltas[k + 1] else 0
  }

  predicate Working(thread: Thread, k: nat)
    requires k < |thread.samples|
  {
    thread.samples[k] in thread.nodes && thread.nodes[thread.samples[k]].name !in IDLE
  }

  /** The time of a thread's first n samples: all of it, under one leaf, and with one function on the stack. */
  function Sampled(thread: Thread, n: nat): nat
    requires n <= |thread.samples|
  {
    if n == 0 then 0 else Sampled(thread, n - 1) + if Working(thread, n - 1) then Weight(thread, n - 1) else 0
  }

  function Self(thread: Thread, n: nat, name: string): nat
    requires n <= |thread.samples|
  {
    if n == 0 then 0
    else
      var k := n - 1;
      Self(thread, k, name) +
      if Working(thread, k) && thread.nodes[thread.samples[k]].name == name then Weight(thread, k) else 0
  }

  ghost function Inclusive(thread: Thread, height: map<int, nat>, n: nat, name: string): nat
    requires n <= |thread.samples| && Acyclic(thread.nodes, height)
  {
    if n == 0 then 0
    else
      var k := n - 1;
      Inclusive(thread, height, k, name) +
      if Working(thread, k) && name in OnStack(thread.nodes, height, thread.samples[k]) then Weight(thread, k) else 0
  }

  /** A function's own time is within its time on the stack, and that within all time, recursion or not. */
  lemma {:induction false} SelfWithinInclusive(thread: Thread, height: map<int, nat>, n: nat, name: string)
    requires n <= |thread.samples| && Acyclic(thread.nodes, height)
    ensures Self(thread, n, name) <= Inclusive(thread, height, n, name) <= Sampled(thread, n)
  {
    if n > 0 {
      SelfWithinInclusive(thread, height, n - 1, name);
      if Working(thread, n - 1) {
        var leaf := thread.samples[n - 1];
        assert thread.nodes[leaf].name in OnStack(thread.nodes, height, leaf);
      }
    }
  }

  /** A walk from a node up its parents, as far as they are known. */
  predicate Climbs(nodes: map<int, Node>, path: seq<int>) {
    && path != [] && (forall i | 0 <= i < |path| :: path[i] in nodes)
    && forall i | 0 <= i < |path| - 1 :: nodes[path[i]].parent == Some(path[i + 1])
  }

  ghost predicate ClimbsTo(nodes: map<int, Node>, id: int, name: string) {
    exists path: seq<int> :: Climbs(nodes, path) && path[0] == id && nodes[path[|path| - 1]].name == name
  }

  /** A name is on a stack exactly if a walk up from its leaf comes to it and it names work. */
  lemma {:induction false} OnStackExactlyIfClimbed(nodes: map<int, Node>, height: map<int, nat>, id: int, name: string)
    requires Acyclic(nodes, height) && id in nodes
    ensures name in OnStack(nodes, height, id) <==>
            name !in {"(root)", "(idle)", "(program)"} && ClimbsTo(nodes, id, name)
    decreases height[id]
  {
    var parent := Parent(nodes, id);
    if parent.Some? {
      OnStackExactlyIfClimbed(nodes, height, parent.value, name);
      if ClimbsTo(nodes, parent.value, name) {
        var path: seq<int> :| Climbs(nodes, path) && path[0] == parent.value && nodes[path[|path| - 1]].name == name;
        assert Climbs(nodes, [id] + path) && ([id] + path)[|path|] == path[|path| - 1];
      }
    }
    if nodes[id].name == name {
      assert Climbs(nodes, [id]) && [id][0] == id;
    }
    if ClimbsTo(nodes, id, name) {
      var path: seq<int> :| Climbs(nodes, path) && path[0] == id && nodes[path[|path| - 1]].name == name;
      if |path| > 1 {
        assert nodes[path[0]].parent == Some(path[1]);
        assert Climbs(nodes, path[1..]) && path[1..][0] == parent.value && path[1..][|path| - 2] == path[|path| - 1];
      }
    }
  }

  /** What one more sample adds: the time up to the next sample, under its leaf and all over its stack. */
  lemma SampleAddsItsDelta(thread: Thread, height: map<int, nat>, k: nat, name: string)
    requires k < |thread.samples| && Acyclic(thread.nodes, height)
    ensures var id := thread.samples[k];
            var works := id in thread.nodes && thread.nodes[id].name !in {"(root)", "(idle)", "(program)"};
            var time := if k + 1 < |thread.deltas| && thread.deltas[k + 1] > 0 then thread.deltas[k + 1] else 0;
            && Sampled(thread, k + 1) - Sampled(thread, k) == (if works then time else 0)
            && Self(thread, k + 1, name) - Self(thread, k, name) ==
                 (if works && thread.nodes[id].name == name then time else 0)
            && Inclusive(thread, height, k + 1, name) - Inclusive(thread, height, k, name) ==
                 (if works && name !in {"(root)", "(idle)", "(program)"} && ClimbsTo(thread.nodes, id, name)
                  then time else 0)
    ensures Sampled(thread, 0) == Self(thread, 0, name) == Inclusive(thread, height, 0, name) == 0
  {
    if thread.samples[k] in thread.nodes {
      OnStackExactlyIfClimbed(thread.nodes, height, thread.samples[k], name);
    }
  }

  // ----- Totals by name -----

  function Add(totals: map<string, int>, name: string, weight: int): map<string, int> {
    totals[name := Get(totals, name) + weight]
  }

  /** Totals to which a weight was added for each of some names. */
  ghost predicate AddedFor(totals: map<string, int>, names: set<string>, weight: nat, totals': map<string, int>) {
    forall name :: Get(totals', name) == Get(totals, name) + if name in names then weight else 0
  }

  lemma AddOneMore(totals: map<string, int>, names: set<string>, weight: nat, added: map<string, int>, name: string)
    requires AddedFor(totals, names, weight, added) && name !in names
    ensures AddedFor(totals, names + {name}, weight, Add(added, name, weight))
  {
  }

  /** Charges every function on a stack once, in the thread's totals and in all threads'. */
  method ChargeStack(nodes: map<int, Node>, ghost height: map<int, nat>, leaf: int, weight: nat,
                     all: map<string, int>, own: map<string, int>)
      returns (all': map<string, int>, own': map<string, int>)
    requires Acyclic(nodes, height) && leaf in nodes
    ensures AddedFor(all, OnStack(nodes, height, leaf), weight, all')
    ensures AddedFor(own, OnStack(nodes, height, leaf), weight, own')
  {
    all', own' := all, own;
    var onStack: set<string> := {};
    var node := Some(leaf);
    while node.Some?
      invariant node.Some? ==> node.value in nodes
      invariant onStack + (if node.Some? then OnStack(nodes, height, node.value) else {})
             == OnStack(nodes, height, leaf)
      invariant AddedFor(all, onStack, weight, all') && AddedFor(own, onStack, weight, own')
      decreases if node.Some? then height[node.value] + 1 else 0
    {
      var name := nodes[node.value].name;
      if name !in IDLE && name !in onStack {
        AddOneMore(all, onStack, weight, all', name);
        AddOneMore(own, onStack, weight, own', name);
        onStack := onStack + {name};
        all', own' := Add(all', name, weight), Add(own', name, weight);
      }
      node := Parent(nodes, node.value);
    }
  }

  /** A summary with one more sample under its leaf and on its stack. */
  ghost predicate Charged(summary: Summary, summary': Summary, leafName: string, onStack: set<string>, weight: nat) {
    && summary'.sampled == summary.sampled + weight
    && SumMap(summary'.self) == SumMap(summary.self) + weight
    && (forall name :: Get(summary'.self, name) == Get(summary.self, name) + if name == leafName then weight else 0)
    && AddedFor(summary.inclusive, onStack, weight, summary'.inclusive)
  }

  lemma AddingCharges(summary: Summary, leafName: string, onStack: set<string>, weight: nat,
                      inclusive: map<string, int>)
    requires AddedFor(summary.inclusive, onStack, weight, inclusive)
    ensures Charged(summary, Summary(summary.sampled + weight, Add(summary.self, leafName, weight), inclusive),
                    leafName, onStack, weight)
  {
    SumMapUpdate(summary.self, leafName, Get(summary.self, leafName) + weight);
  }

  method ChargeSample(thread: Thread, ghost height: map<int, nat>, k: nat, all: Summary, own: Summary)
      returns (all': Summary, own': Summary)
    requires Acyclic(thread.nodes, height) && k < |thread.samples| && Working(thread, k)
    ensures var leaf := thread.samples[k];
            var onStack := OnStack(thread.nodes, height, leaf);
            && Charged(all, all', thread.nodes[leaf].name, onStack, Weight(thread, k))
            && Charged(own, own', thread.nodes[leaf].name, onStack, Weight(thread, k))
  {
    var leaf, weight := thread.samples[k], Weight(thread, k);
    var leafName := thread.nodes[leaf].name;
    ghost var onStack := OnStack(thread.nodes, height, leaf);
    var allInclusive, ownInclusive := ChargeStack(thread.nodes, height, leaf, weight, all.inclusive, own.inclusive);
    own' := Summary(own.sampled + weight, Add(own.self, leafName, weight), ownInclusive);
    all' := Summary(all.sampled + weight, Add(all.self, leafName, weight), allInclusive);
    AddingCharges(own, leafName, onStack, weight, ownInclusive);
    AddingCharges(all, leafName, onStack, weight, allInclusive);
  }

  /** What the first n samples of a thread give it. */
  ghost predicate Summarizes(summary: Summary, thread: Thread, height: map<int, nat>, n: nat)
    requires n <= |thread.samples| && Acyclic(thread.nodes, height)
  {
    && summary.sampled == Sampled(thread, n) == SumMap(summary.self)
    && (forall name :: Get(summary.self, name) == Self(thread, n, name))
    && (forall name :: Get(summary.inclusive, name) == Inclusive(thread, height, n, name))
  }

  /** All totals are those before and one thread's. */
  ghost predicate Joins(before: Summary, own: Summary, after: Summary) {
    && after.sampled == before.sampled + own.sampled
    && SumMap(after.self) == SumMap(before.self) + SumMap(own.self)
    && (forall name :: Get(after.self, name) == Get(before.self, name) + Get(own.self, name))
    && (forall name :: Get(after.inclusive, name) == Get(before.inclusive, name) + Get(own.inclusive, name))
  }

  lemma ChargedSummarizes(thread: Thread, height: map<int, nat>, k: nat, own: Summary, own': Summary)
    requires k < |thread.samples| && Acyclic(thread.nodes, height) && Working(thread, k)
    requires Summarizes(own, thread, height, k)
    requires Charged(own, own', thread.nodes[thread.samples[k]].name,
                     OnStack(thread.nodes, height, thread.samples[k]), Weight(thread, k))
    ensures Summarizes(own', thread, height, k + 1)
  {
  }

  lemma ChargedJoins(before: Summary, own: Summary, all: Summary, own': Summary, all': Summary,
                     leafName: string, onStack: set<string>, weight: nat)
    requires Joins(before, own, all)
    requires Charged(own, own', leafName, onStack, weight) && Charged(all, all', leafName, onStack, weight)
    ensures Joins(before, own', all')
  {
  }

  /** One thread's samples; adds them to the totals of all threads too. */
  method SummarizeThread(thread: Thread, ghost height: map<int, nat>, all: Summary)
      returns (own: Summary, all': Summary)
    requires Acyclic(thread.nodes, height)
    ensures Summarizes(own, thread, height, |thread.samples|) && Joins(all, own, all')
  {
    own, all' := Summary(0, map[], map[]), all;
    for k := 0 to |thread.samples|
      invariant Summarizes(own, thread, height, k) && Joins(all, own, all')
    {
      if Working(thread, k) {
        ghost var own0, all0, leaf := own, all', thread.samples[k];
        all', own := ChargeSample(thread, height, k, all', own);
        ChargedSummarizes(thread, height, k, own0, own);
        ChargedJoins(all, own0, all0, own, all', thread.nodes[leaf].name,
                     OnStack(thread.nodes, height, leaf), Weight(thread, k));
      }
    }
  }

  // ----- All threads -----

  function SampledByAll(threads: seq<Summary>): int {
    if threads == [] then 0 else SampledByAll(threads[..|threads| - 1]) + threads[|threads| - 1].sampled
  }

  function SelfInAll(threads: seq<Summary>, name: string): int {
    if threads == [] then 0 else SelfInAll(threads[..|threads| - 1], name) + Get(threads[|threads| - 1].self, name)
  }

  function InclusiveInAll(threads: seq<Summary>, name: string): int {
    if threads == [] then 0
    else InclusiveInAll(threads[..|threads| - 1], name) + Get(threads[|threads| - 1].inclusive, name)
  }

  /** What all threads' summaries add up to. */
  ghost predicate Totals(all: Summary, summaries: seq<Summary>) {
    && all.sampled == SampledByAll(summaries) == SumMap(all.self)
    && (forall name :: Get(all.self, name) == SelfInAll(summaries, name))
    && (forall name :: Get(all.inclusive, name) == InclusiveInAll(summaries, name))
  }

  lemma TotalsJoin(all: Summary, own: Summary, all': Summary, summaries: seq<Summary>)
    requires Totals(all, summaries) && Joins(all, own, all') && own.sampled == SumMap(own.self)
    ensures Totals(all', summaries + [own])
  {
    assert (summaries + [own])[..|summaries|] == summaries;
  }

  lemma {:induction false} AllBounded(
      summaries: seq<Summary>, threads: seq<Thread>, heights: seq<map<int, nat>>, name: string)
    requires |summaries| == |threads| == |heights|
    requires forall i | 0 <= i < |threads| ::
               && Acyclic(threads[i].nodes, heights[i])
               && Summarizes(summaries[i], threads[i], heights[i], |threads[i].samples|)
    ensures SelfInAll(summaries, name) <= InclusiveInAll(summaries, name) <= SampledByAll(summaries)
  {
    if summaries != [] {
      var n := |summaries| - 1;
      AllBounded(summaries[..n], threads[..n], heights[..n], name);
      SelfWithinInclusive(threads[n], heights[n], |threads[n].samples|, name);
    }
  }

  /** The whole trace: every microsecond is under one leaf of one thread, and the totals bound each other. */
  method SummarizeCpuTrace(threads: seq<Thread>, ghost heights: seq<map<int, nat>>)
      returns (all: Summary, summaries: seq<Summary>)
    requires |heights| == |threads| && forall i | 0 <= i < |threads| :: Acyclic(threads[i].nodes, heights[i])
    ensures |summaries| == |threads|
    ensures forall i | 0 <= i < |threads| :: Summarizes(summaries[i], threads[i], heights[i], |threads[i].samples|)
    ensures Totals(all, summaries)
    ensures forall name :: Get(all.self, name) <= Get(all.inclusive, name) <= all.sampled
  {
    all, summaries := Summary(0, map[], map[]), [];
    for i := 0 to |threads|
      invariant |summaries| == i
      invariant forall j | 0 <= j < i :: Summarizes(summaries[j], threads[j], heights[j], |threads[j].samples|)
      invariant Totals(all, summaries)
    {
      var own, all';
      own, all' := SummarizeThread(threads[i], heights[i], all);
      TotalsJoin(all, own, all', summaries);
      all, summaries := all', summaries + [own];
    }
    forall name ensures Get(all.self, name) <= Get(all.inclusive, name) <= all.sampled {
      AllBounded(summaries, threads, heights, name);
    }
  }

  // ----- Ranking -----

  function Most(entry: (string, int)): int {
    -entry.1
  }

  /** The largest entries, in descending order: nothing left out is larger than anything listed. */
  method Ranked(entries: seq<(string, int)>, limit: nat)
      returns (ranked: seq<(string, int)>, ghost rest: seq<(string, int)>)
    ensures multiset(ranked + rest) == multiset(entries)
    ensures |ranked| == if |entries| < limit then |entries| else limit
    ensures forall i, j | 0 <= i < j < |ranked| :: ranked[i].1 >= ranked[j].1
    ensures forall i, j | 0 <= i < |ranked| && 0 <= j < |rest| :: ranked[i].1 >= rest[j].1
  {
    var sorted := Sort(entries, Most);
    SortSorts(entries, Most);
    var count := if |sorted| < limit then |sorted| else limit;
    ranked, rest := sorted[..count], sorted[count..];
    assert ranked + rest == sorted;
    forall i, j | 0 <= i < j < |sorted| ensures sorted[i].1 >= sorted[j].1 {
      assert Most(sorted[i]) <= Most(sorted[j]);
    }
  }
}
