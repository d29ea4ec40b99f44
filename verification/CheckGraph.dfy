/**
 The check's lanes: the gating ones run in order, the parallel ones together until the first
 failure stops the rest, and the desktop browser lane after everything else passed. How a lane's
 commands end, when, and whether its limit fired are inputs.
 */
module CheckGraphs {
  import opened Ordering

  datatype Status = Failed | Passed | Stopped

  /** How a lane's commands came to an end. */
  datatype Ending = Ending(exitCode: int, timedOut: bool, duration: nat)

  datatype LaneResult = LaneResult(lane: nat, exitCode: int, status: Status, timedOut: bool, duration: nat)

  // ----- Specification -----

  predicate Fails(ending: Ending) {
    ending.exitCode != 0 || ending.timedOut
  }

  /** Whether some lane that ended earlier had already aborted its siblings. */
  predicate AbortedBefore(endings: seq<Ending>, k: nat)
    requires k <= |endings|
  {
    exists j | 0 <= j < k :: endings[j].exitCode != 0
  }

  /** The status of the lane that ended k-th: only a lane that failed by itself counts as failed. */
  function Verdict(endings: seq<Ending>, k: nat): Status
    requires k < |endings|
  {
    if endings[k].timedOut then Failed
    else if endings[k].exitCode == 0 then Passed
    else if AbortedBefore(endings, k) then Stopped
    else Failed
  }

  /** A lane that failed never reports exit code zero, also when its limit fired as it succeeded. */
  function Report(lane: nat, ending: Ending, status: Status): LaneResult {
    var exitCode := if ending.timedOut && ending.exitCode == 0 then 1 else ending.exitCode;
    LaneResult(lane, exitCode, status, ending.timedOut, ending.duration)
  }

  /** The parallel results in the order in which the lanes ended. */
  function Ended(order: seq<nat>, endings: seq<Ending>): (results: seq<LaneResult>)
    requires |order| == |endings|
    ensures |results| == |order|
  {
    seq(|order|, k requires 0 <= k < |order| => Report(order[k], endings[k], Verdict(endings, k)))
  }

  function GatingStatus(ending: Ending): Status {
    if Fails(ending) then Failed else Passed
  }

  predicate AllPassed(results: seq<LaneResult>) {
    forall r | r in results :: r.status == Passed
  }

  /** A result that a run can give: the exit code tells whether the lane passed. */
  predicate Sound(result: LaneResult) {
    && (result.status == Passed <==> result.exitCode == 0)
    && (result.timedOut ==> result.status == Failed)
  }

  /** The exit code of the first failed lane, or zero. */
  function ExitCode(results: seq<LaneResult>): int {
    if results == [] then 0
    else if results[0].status == Failed then results[0].exitCode
    else ExitCode(results[1..])
  }

  lemma {:induction false} ExitCodeIsTheFirstFailure(results: seq<LaneResult>)
    requires forall r | r in results :: Sound(r)
    ensures ExitCode(results) != 0 <==> exists r :: r in results && r.status == Failed
    ensures ExitCode(results) != 0 ==>
              exists k | 0 <= k < |results| ::
                && results[k].status == Failed && ExitCode(results) == results[k].exitCode
                && forall j | 0 <= j < k :: results[j].status != Failed
  {
    if results != [] {
      if results[0].status == Failed {
        assert results[0] in results && Sound(results[0]);
      } else {
        var rest := results[1..];
        ExitCodeIsTheFirstFailure(rest);
        if ExitCode(rest) != 0 {
          var k :| 0 <= k < |rest| && rest[k].status == Failed && ExitCode(rest) == rest[k].exitCode
                   && forall j | 0 <= j < k :: rest[j].status != Failed;
          assert results[k + 1].status == Failed;
          forall j | 0 <= j < k + 1 ensures results[j].status != Failed {
            if j > 0 {
              assert results[j] == rest[j - 1];
            }
          }
        } else {
          assert forall r | r in results :: r == results[0] || r in rest;
        }
      }
    }
  }

  // ----- What the parallel verdicts imply -----

  /** A lane is stopped only after another failed with a nonzero exit code. */
  lemma StoppedImpliesFailed(endings: seq<Ending>, k: nat) returns (cause: nat)
    requires k < |endings| && Verdict(endings, k) == Stopped
    ensures cause < k && Verdict(endings, cause) == Failed && endings[cause].exitCode != 0
  {
    var j :| 0 <= j < k && endings[j].exitCode != 0;
    cause := FirstFailure(endings, j);
  }

  lemma {:induction false} FirstFailure(endings: seq<Ending>, k: nat) returns (first: nat)
    requires k < |endings| && endings[k].exitCode != 0
    ensures first <= k && endings[first].exitCode != 0 && !AbortedBefore(endings, first)
  {
    if AbortedBefore(endings, k) {
      var j :| 0 <= j < k && endings[j].exitCode != 0;
      first := FirstFailure(endings, j);
    } else {
      first := k;
    }
  }

  // ----- The runner -----

  class AbortController {
    var aborted: bool

    constructor ()
      ensures !aborted
    {
      aborted := false;
    }
  }

  /** What a lane does once its commands have ended. */
  method RunLane(lane: nat, ending: Ending, siblings: AbortController?) returns (result: LaneResult)
    modifies siblings
    ensures siblings == null ==> result == Report(lane, ending, GatingStatus(ending))
    ensures siblings != null ==>
              && siblings.aborted == (old(siblings.aborted) || ending.exitCode != 0)
              && result == Report(lane, ending,
                   if ending.timedOut then Failed
                   else if ending.exitCode == 0 then Passed
                   else if old(siblings.aborted) then Stopped
                   else Failed)
  {
    var status := if ending.exitCode == 0 then Passed else Failed;
    if ending.exitCode != 0 && !ending.timedOut && siblings != null && siblings.aborted {
      status := Stopped;
    } else if ending.exitCode != 0 && siblings != null {
      siblings.aborted := true;
    }
    result := LaneResult(lane,
      if ending.exitCode == 0 && ending.timedOut then 1 else ending.exitCode,
      if ending.timedOut then Failed else status, ending.timedOut, ending.duration);
  }

  /** The lanes in the order in which they end, each once. */
  predicate Completes(order: seq<nat>, lanes: nat) {
    && |order| == lanes
    && (forall k | 0 <= k < |order| :: order[k] < lanes)
    && forall j, k | 0 <= j < k < |order| :: order[j] != order[k]
  }

  function LaneOf(result: LaneResult): int {
    result.lane
  }

  function Shortness(result: LaneResult): int {
    var duration: int := result.duration;
    -duration
  }

  /** Longest first, and those that took equally long in lane order. */
  function Arranged(ended: seq<LaneResult>): seq<LaneResult> {
    Sort(Sort(ended, LaneOf), Shortness)
  }

  lemma ArrangedSorts(ended: seq<LaneResult>)
    ensures multiset(Arranged(ended)) == multiset(ended)
    ensures forall i, j | 0 <= i < j < |Arranged(ended)| ::
              var r, q := Arranged(ended)[i], Arranged(ended)[j];
              r.duration > q.duration || (r.duration == q.duration && r.lane <= q.lane)
  {
    var inLaneOrder := Sort(ended, LaneOf);
    SortSorts(ended, LaneOf);
    SortSorts(inLaneOrder, Shortness);
    forall i, j | 0 <= i < j < |Arranged(ended)|
      ensures var r, q := Arranged(ended)[i], Arranged(ended)[j];
              r.duration > q.duration || (r.duration == q.duration && r.lane <= q.lane)
    {
      assert Shortness(Arranged(ended)[i]) <= Shortness(Arranged(ended)[j]);
      SortBreaksTies(ended, Shortness, LaneOf, i, j);
    }
  }

  method RunParallel(order: seq<nat>, endings: seq<Ending>) returns (results: seq<LaneResult>)
    requires Completes(order, |endings|)
    ensures results == Arranged(Ended(order, endings))
  {
    var siblings := new AbortController();
    var ended: seq<LaneResult> := [];
    for k := 0 to |order|
      invariant fresh(siblings) && siblings.aborted == AbortedBefore(endings, k)
      invariant |ended| == k && forall i | 0 <= i < k :: ended[i] == Report(order[i], endings[i], Verdict(endings, i))
    {
      var result := RunLane(order[k], endings[k], siblings);
      ended := ended + [result];
    }
    assert ended == Ended(order, endings);
    results := Arranged(ended);
  }

  /** The gating lanes' results, in order, up to the first that fails. */
  method RunGating(gating: seq<Ending>) returns (results: seq<LaneResult>, passed: bool)
    ensures |results| <= |gating|
    ensures forall k | 0 <= k < |results| :: results[k] == Report(k, gating[k], GatingStatus(gating[k]))
    ensures passed <==> forall k | 0 <= k < |gating| :: !Fails(gating[k])
    ensures if passed then |results| == |gating|
            else results != [] && Fails(gating[|results| - 1]) && AllPassed(results[..|results| - 1])
  {
    results := [];
    for k := 0 to |gating|
      invariant |results| == k && AllPassed(results)
      invariant forall i | 0 <= i < k :: !Fails(gating[i]) && results[i] == Report(i, gating[i], Passed)
    {
      var result := RunLane(k, gating[k], null);
      if result.status == Failed {
        return results + [result], false;
      }
      results := results + [result];
    }
    passed := true;
  }

  /** The first failed result's exit code, found as the results are searched. */
  method Finish(results: seq<LaneResult>) returns (exitCode: int)
    ensures exitCode == ExitCode(results)
  {
    for k := 0 to |results|
      invariant ExitCode(results) == ExitCode(results[k..])
    {
      assert results[k..][0] == results[k] && results[k..][1..] == results[k + 1..];
      if results[k].status == Failed {
        return results[k].exitCode;
      }
    }
    exitCode := 0;
  }

  /** What the gating and the parallel results contribute to the whole. */
  lemma GatingIsSound(gating: seq<Ending>, results: seq<LaneResult>)
    requires |results| <= |gating|
    requires forall k | 0 <= k < |results| :: results[k] == Report(k, gating[k], GatingStatus(gating[k]))
    ensures forall r | r in results :: Sound(r) && r.status != Stopped
    ensures AllPassed(results) <==> forall k | 0 <= k < |results| :: !Fails(gating[k])
  {
    forall k | 0 <= k < |results| ensures results[k].status == Passed <==> !Fails(gating[k]) {
      assert results[k] in results;
    }
  }

  lemma EndedIsSound(order: seq<nat>, endings: seq<Ending>)
    requires |order| == |endings|
    ensures forall r | r in Ended(order, endings) :: Sound(r)
    ensures AllPassed(Ended(order, endings)) <==> forall k | 0 <= k < |endings| :: !Fails(endings[k])
    ensures StopsHaveACause(Ended(order, endings))
  {
    var results := Ended(order, endings);
    forall k | 0 <= k < |endings| && Fails(endings[k]) ensures results[k] in results && results[k].status != Passed {
    }
    forall r | r in results && r.status == Stopped ensures exists f :: f in results && f.status == Failed {
      var k :| 0 <= k < |results| && results[k] == r;
      var cause := StoppedImpliesFailed(endings, k);
      assert results[cause] in results;
    }
  }

  /** A lane was stopped only if another failed. */
  predicate StopsHaveACause(results: seq<LaneResult>) {
    (exists r :: r in results && r.status == Stopped) ==> exists r :: r in results && r.status == Failed
  }

  /** At most one parallel lane fails other than by its limit. */
  lemma OneFailsByItself(order: seq<nat>, endings: seq<Ending>, j: nat, k: nat)
    requires |order| == |endings| && j < |order| && k < |order|
    requires Ended(order, endings)[j].status == Failed && !Ended(order, endings)[j].timedOut
    requires Ended(order, endings)[k].status == Failed && !Ended(order, endings)[k].timedOut
    ensures j == k
  {
    assert endings[j].exitCode != 0 && endings[k].exitCode != 0;
  }

  lemma ParallelIsSound(order: seq<nat>, endings: seq<Ending>, results: seq<LaneResult>)
    requires |order| == |endings| && results == Arranged(Ended(order, endings))
    ensures |results| == |endings| && forall r | r in results :: Sound(r)
    ensures AllPassed(results) <==> forall k | 0 <= k < |endings| :: !Fails(endings[k])
    ensures StopsHaveACause(results)
  {
    EndedIsSound(order, endings);
    ArrangedSorts(Ended(order, endings));
    assert |results| == |multiset(results)| == |Ended(order, endings)|;
    assert forall r :: r in results <==> r in multiset(results);
    assert forall r :: r in Ended(order, endings) <==> r in multiset(Ended(order, endings));
  }

  predicate NoneFails(endings: seq<Ending>) {
    forall k | 0 <= k < |endings| :: endings[k].exitCode == 0 && !endings[k].timedOut
  }

  /** A lane that runs by itself passed or failed. */
  predicate Judged(result: LaneResult, ending: Ending) {
    result.status == if ending.exitCode == 0 && !ending.timedOut then Passed else Failed
  }

  /** The parts of a run's results: the gating lanes', the parallel lanes' and the desktop lane's. */
  ghost predicate Parts(
      gating: seq<Ending>, order: seq<nat>, parallel: seq<Ending>, desktop: seq<Ending>,
      gated: seq<LaneResult>, together: seq<LaneResult>, last: seq<LaneResult>)
    requires |order| == |parallel| && |desktop| <= 1
  {
    && |gated| <= |gating|
    && (forall k | 0 <= k < |gated| :: gated[k] == Report(k, gating[k], GatingStatus(gating[k])))
    && if AllPassed(gated)
       then && |gated| == |gating|
            && together == Arranged(Ended(order, parallel))
            && last == if desktop != [] && AllPassed(together)
                       then [Report(0, desktop[0], GatingStatus(desktop[0]))] else []
       else AllPassed(gated[..|gated| - 1]) && together == [] && last == []
  }

  /** What a run's parts say of the whole. */
  lemma PartsAreSound(
      gating: seq<Ending>, order: seq<nat>, parallel: seq<Ending>, desktop: seq<Ending>,
      gated: seq<LaneResult>, together: seq<LaneResult>, last: seq<LaneResult>)
    requires |order| == |parallel| && |desktop| <= 1
    requires Parts(gating, order, parallel, desktop, gated, together, last)
    ensures var results := gated + together + last;
            && (forall r | r in results :: Sound(r))
            && StopsHaveACause(results)
            && (AllPassed(results) <==> NoneFails(gating) && NoneFails(parallel) && NoneFails(desktop))
  {
    GatingIsSound(gating, gated);
    if AllPassed(gated) {
      ParallelIsSound(order, parallel, together);
      assert forall r :: r in gated + together + last <==> r in gated || r in together || r in last;
      if last != [] {
        assert last[0] in last;
      }
    } else {
      assert gated + together + last == gated;
    }
  }

  /** A result tells how its lane's commands ended: their exit code, or 1 where a limit fired as they succeeded. */
  predicate Tells(result: LaneResult, lane: nat, ending: Ending) {
    && result.lane == lane && result.timedOut == ending.timedOut && result.duration == ending.duration
    && result.exitCode == if ending.exitCode != 0 then ending.exitCode else if ending.timedOut then 1 else 0
  }

  /** A parallel lane's status, by how it and those before it ended. */
  lemma EndedExactly(order: seq<nat>, endings: seq<Ending>, k: nat)
    requires |order| == |endings| && k < |order|
    ensures var result, ending := Ended(order, endings)[k], endings[k];
            var aborted := exists j | 0 <= j < k :: endings[j].exitCode != 0;
            && Tells(result, order[k], ending)
            && (result.status == Passed <==> !ending.timedOut && ending.exitCode == 0)
            && (result.status == Stopped <==> !ending.timedOut && ending.exitCode != 0 && aborted)
            && (result.status == Failed <==> ending.timedOut || (ending.exitCode != 0 && !aborted))
  {
  }

  lemma PartsTell(
      gating: seq<Ending>, order: seq<nat>, parallel: seq<Ending>, desktop: seq<Ending>,
      gated: seq<LaneResult>, together: seq<LaneResult>, last: seq<LaneResult>)
    requires |order| == |parallel| && |desktop| <= 1
    requires Parts(gating, order, parallel, desktop, gated, together, last)
    ensures forall k | 0 <= k < |gated| :: Tells(gated[k], k, gating[k]) && Judged(gated[k], gating[k])
    ensures forall r | r in together :: exists k | 0 <= k < |order| :: Tells(r, order[k], parallel[k])
    ensures |last| <= |desktop| && forall r | r in last :: Tells(r, 0, desktop[0]) && Judged(r, desktop[0])
    ensures together != [] ==> |together| == |parallel|
  {
    if AllPassed(gated) {
      var ended := Ended(order, parallel);
      ArrangedSorts(ended);
      assert |together| == |multiset(together)| == |multiset(ended)| == |ended|;
      forall r | r in together ensures exists k | 0 <= k < |order| :: Tells(r, order[k], parallel[k]) {
        assert r in multiset(together) && r in multiset(ended);
        var k :| 0 <= k < |ended| && ended[k] == r;
        EndedExactly(order, parallel, k);
      }
    }
  }

  /** The whole check, over every order in which the parallel lanes may end. */
  method RunCheckGraph(gating: seq<Ending>, order: seq<nat>, parallel: seq<Ending>, desktop: seq<Ending>)
      returns (exitCode: int, results: seq<LaneResult>,
               ghost gated: seq<LaneResult>, ghost together: seq<LaneResult>, ghost last: seq<LaneResult>)
    requires Completes(order, |parallel|) && |desktop| <= 1
    ensures results == gated + together + last
    ensures Parts(gating, order, parallel, desktop, gated, together, last)
    ensures exitCode == ExitCode(results)
    ensures exitCode == 0 <==> AllPassed(results)
    ensures exitCode == 0 <==> NoneFails(gating) && NoneFails(parallel) && NoneFails(desktop)
    ensures StopsHaveACause(results)
    ensures forall k | 0 <= k < |gated| :: Tells(gated[k], k, gating[k]) && Judged(gated[k], gating[k])
    ensures forall r | r in together :: exists k | 0 <= k < |order| :: Tells(r, order[k], parallel[k])
    ensures |last| <= |desktop| && forall r | r in last :: Tells(r, 0, desktop[0]) && Judged(r, desktop[0])
    ensures exitCode != 0 ==>
              exists k | 0 <= k < |results| ::
                && results[k].status == Failed && exitCode == results[k].exitCode
                && forall j | 0 <= j < k :: results[j].status != Failed
  {
    var passed;
    results, passed := RunGating(gating);
    gated, together, last := results, [], [];
    GatingIsSound(gating, gated);
    if passed {
      var parallelResults := RunParallel(order, parallel);
      together := parallelResults;
      results := results + parallelResults;
      if desktop != [] && AllPassed(results) {
        var desktopResult := RunLane(0, desktop[0], null);
        last := [desktopResult];
        results := results + [desktopResult];
      }
    }
    assert AllPassed(gated + together) <==> AllPassed(gated) && AllPassed(together);
    assert results == gated + together + last;
    PartsAreSound(gating, order, parallel, desktop, gated, together, last);
    PartsTell(gating, order, parallel, desktop, gated, together, last);
    ExitCodeIsTheFirstFailure(results);
    NoFailureMeansAllPassed(results);
    exitCode := Finish(results);
  }

  lemma NoFailureMeansAllPassed(results: seq<LaneResult>)
    requires StopsHaveACause(results)
    ensures AllPassed(results) <==> !exists r :: r in results && r.status == Failed
  {
    if r :| r in results && r.status != Passed {
      assert r.status == Stopped || r.status == Failed;
    }
  }
}
