/**
 What the relay's discovery log is, over every interleaving of its calls: the successful appends in
 the order they arrived, of which every page shows a stretch that never changes afterwards.
 */
module RelayLog {
  import opened Basics
  import opened RelayStore

  // ----- The log and the appends -----

  /** The entries of one key by number. */
  function Log(s: Store, key: Key): seq<Locator>
    requires forall i: nat | i < |FilesOf(s, key)| :: i in FilesOf(s, key)
  {
    var files := FilesOf(s, key);
    seq(|files|, i requires 0 <= i < |files| => files[i])
  }

  predicate Succeeded(call: Call, key: Key) {
    && call.key == key && call.phase.Done?
    && (|| (call.request.Append? && call.phase.result.Appended?)
        || (call.request.Announce? && call.phase.result.Announced?))
  }

  /** A list with what one successful call adds: an announcement adds nothing that is listed. */
  function WithCall(listed: seq<Locator>, call: Call): seq<Locator>
    requires Succeeded(call, call.key)
  {
    if call.request.Announce? && call.request.locator in listed then listed else listed + [call.request.locator]
  }

  /** What one key's successful appends and announcements list, in the order the calls arrived. */
  function Appends(calls: seq<Call>, key: Key): seq<Locator> {
    if calls == [] then []
    else
      var front, last := Appends(calls[..|calls| - 1], key), calls[|calls| - 1];
      if Succeeded(last, key) then WithCall(front, last) else front
  }

  /** The log is what the successful calls list, and each append was told its place in it. */
  ghost predicate Recorded(s: Store) {
    && LogsComplete(s)
    && (forall key :: Log(s, key) == Appends(s.calls, key))
    && (forall i: nat | i < |s.calls| :: PlaceKnown(s.calls, i))
  }

  predicate PlaceKnown(calls: seq<Call>, i: nat)
    requires i < |calls|
  {
    Succeeded(calls[i], calls[i].key) && calls[i].request.Append? ==>
      calls[i].phase.result.index == |Appends(calls[..i], calls[i].key)|
  }

  lemma {:induction false} AppendsSame(calls: seq<Call>, calls': seq<Call>, key: Key)
    requires |calls| == |calls'|
    requires forall i | 0 <= i < |calls| ::
               && Succeeded(calls[i], key) == Succeeded(calls'[i], key)
               && calls[i].request == calls'[i].request
    ensures Appends(calls, key) == Appends(calls', key)
  {
    if calls != [] {
      AppendsSame(calls[..|calls| - 1], calls'[..|calls| - 1], key);
    }
  }

  /** Calls that did not succeed add nothing behind those that came before. */
  lemma {:induction false} AppendsStop(calls: seq<Call>, n: nat, key: Key)
    requires n <= |calls| && forall i | n <= i < |calls| :: !Succeeded(calls[i], key)
    ensures Appends(calls, key) == Appends(calls[..n], key)
  {
    if n == |calls| {
      assert calls[..n] == calls;
    } else {
      AppendsStop(calls[..|calls| - 1], n, key);
      assert calls[..|calls| - 1][..n] == calls[..n];
    }
  }

  /** A call that succeeds in its turn comes last among those that succeeded. */
  lemma AppendsGain(calls: seq<Call>, i: nat, call: Call)
    requires i < |calls| && Succeeded(call, call.key)
    requires forall j | i <= j < |calls| :: !Succeeded(calls[j], call.key)
    ensures Appends(calls[i := call], call.key) == WithCall(Appends(calls, call.key), call)
    ensures Appends(calls, call.key) == Appends(calls[..i], call.key)
  {
    var calls' := calls[i := call];
    AppendsStop(calls, i, call.key);
    AppendsStop(calls', i + 1, call.key);
    assert calls'[..i + 1] == calls[..i] + [call];
    assert (calls[..i] + [call])[..i] == calls[..i];
  }

  /** Whoever acts stands before every call on its key that has succeeded after it: there are none. */
  lemma ActorIsLast(s: Store, i: nat, j: nat)
    requires InTurn(s) && i <= j < |s.calls| && s.calls[i].phase.Counted?
    ensures !Succeeded(s.calls[j], s.calls[i].key)
  {
    if i < j && s.calls[j].key == s.calls[i].key {
      assert Same(s, i, j);
    }
  }

  /** A successful append is behind only finished calls, so nothing changes what came before it. */
  lemma PlacesStay(s: Store, step: Step, s': Store, i: nat)
    requires InTurn(s) && Next(s, step, s') && i < |s.calls| && s'.calls[i] == s.calls[i]
    requires PlaceKnown(s.calls, i) && |s.calls| <= |s'.calls|
    ensures PlaceKnown(s'.calls, i)
  {
    var key := s.calls[i].key;
    if Succeeded(s.calls[i], key) {
      forall j | 0 <= j < i
        ensures Succeeded(s.calls[..i][j], key) == Succeeded(s'.calls[..i][j], key)
        ensures s.calls[..i][j].request == s'.calls[..i][j].request
      {
        if !step.Arrive? && step.call == j {
          if s.calls[j].key == key {
            assert Same(s, j, i);
          }
        } else {
          UntouchedCall(s, step, s', j);
        }
      }
      AppendsSame(s.calls[..i], s'.calls[..i], key);
    }
  }

  lemma QuietCalls(s: Store, step: Step, s': Store, key: Key)
    requires Next(s, step, s') && !step.Arrive?
    requires step.Act? ==> s.calls[step.call].request.Page? || s.calls[step.call].key != key
    ensures Appends(s'.calls, key) == Appends(s.calls, key)
  {
    var i := step.call;
    assert s'.calls == s.calls[i := s'.calls[i]] && s'.calls[i].request == s.calls[i].request;
    assert !Succeeded(s.calls[i], key) && !Succeeded(s'.calls[i], key);
    AppendsSame(s.calls, s'.calls, key);
  }

  /** Steps other than an append's last leave the log and the successful appends as they are. */
  lemma QuietSteps(s: Store, step: Step, s': Store, key: Key)
    requires Next(s, step, s') && LogsComplete(s) && LogsComplete(s')
    requires step.Act? ==> s.calls[step.call].request.Page? || s.calls[step.call].key != key
    ensures Log(s', key) == Log(s, key) && Appends(s'.calls, key) == Appends(s.calls, key)
  {
    assert FilesOf(s', key) == FilesOf(s, key);
    if step.Arrive? {
      assert s'.calls[..|s'.calls| - 1] == s.calls;
    } else {
      QuietCalls(s, step, s', key);
    }
  }

  lemma ListedIsLogged(s: Store, key: Key, locator: Locator)
    requires LogsComplete(s)
    ensures Listed(FilesOf(s, key), |FilesOf(s, key)|, locator) <==> locator in Log(s, key)
  {
    var files, log := FilesOf(s, key), Log(s, key);
    if locator in log {
      var place :| 0 <= place < |log| && log[place] == locator;
      assert Shows(files, |files|, place, locator);
    }
    if Listed(files, |files|, locator) {
      var place: nat :| Shows(files, |files|, place, locator);
      assert log[place] == locator;
    }
  }

  /** The entries of the acting call's key, with what it writes. */
  lemma ActOnLog(s: Store, i: nat, s': Store)
    requires InTurn(s) && CountsHold(s) && LogsComplete(s) && LogsComplete(s')
    requires Next(s, Act(i), s') && !s.calls[i].request.Page?
    ensures var key, locator := s.calls[i].key, s.calls[i].request.locator;
            Log(s', key) == if Writes(s, i) then Log(s, key) + [locator] else Log(s, key)
    ensures Writes(s, i) ==> s.calls[i].phase.total == |Log(s, s.calls[i].key)|
  {
    if Writes(s, i) {
      WriteExtends(s, i);
    } else {
      assert FilesOf(s', s.calls[i].key) == FilesOf(s, s.calls[i].key);
    }
  }

  /** The acting call joins the successful ones, last on its key. */
  lemma ActOnAppends(s: Store, i: nat, s': Store)
    requires InTurn(s) && Next(s, Act(i), s') && !s.calls[i].request.Page? && Succeeded(s'.calls[i], s.calls[i].key)
    ensures var key := s.calls[i].key;
            && Appends(s'.calls, key) == WithCall(Appends(s.calls, key), s'.calls[i])
            && Appends(s'.calls[..i], key) == Appends(s.calls, key)
  {
    var call, key := s'.calls[i], s.calls[i].key;
    forall j | i <= j < |s.calls| ensures !Succeeded(s.calls[j], key) {
      ActorIsLast(s, i, j);
    }
    AppendsGain(s.calls, i, call);
    assert s'.calls == s.calls[i := call] && s'.calls[..i] == s.calls[..i];
  }

  /** What the last step of an append or an announcement makes of the log, as of the list. */
  lemma AppendIsRecorded(s: Store, i: nat, s': Store)
    requires InTurn(s) && CountsHold(s) && Recorded(s) && LogsComplete(s')
    requires Next(s, Act(i), s') && !s.calls[i].request.Page?
    ensures Log(s', s.calls[i].key) == Appends(s'.calls, s.calls[i].key) && PlaceKnown(s'.calls, i)
  {
    ActOnLog(s, i, s');
    ListedIsLogged(s, s.calls[i].key, s.calls[i].request.locator);
    ActOnAppends(s, i, s');
  }

  lemma NextKeepsRecord(s: Store, step: Step, s': Store)
    requires InTurn(s) && CountsHold(s) && Recorded(s) && Next(s, step, s') && LogsComplete(s')
    ensures Recorded(s')
  {
    forall key ensures Log(s', key) == Appends(s'.calls, key) {
      if step.Act? && !s.calls[step.call].request.Page? && s.calls[step.call].key == key {
        AppendIsRecorded(s, step.call, s');
      } else {
        QuietSteps(s, step, s', key);
      }
    }
    forall i: nat | i < |s'.calls| ensures PlaceKnown(s'.calls, i) {
      if !step.Arrive? && step.call == i {
        if step.Act? && !s.calls[i].request.Page? {
          AppendIsRecorded(s, i, s');
        }
      } else if i < |s.calls| {
        UntouchedCall(s, step, s', i);
        PlacesStay(s, step, s', i);
      }
    }
  }

  lemma StepKeepsRecord(states: seq<Store>, steps: seq<Step>, i: nat)
    requires Execution(states, steps) && i < |steps| && Recorded(states[i])
    ensures Recorded(states[i + 1])
  {
    ReachableInv(states, steps, i);
    ReachableInv(states, steps, i + 1);
    NextKeepsRecord(states[i], steps[i], states[i + 1]);
  }

  /** The log of every key is exactly its successful appends, in the order they arrived. */
  lemma {:induction false} LogIsTheAppendsInOrder(states: seq<Store>, steps: seq<Step>, i: nat)
    requires Execution(states, steps) && i < |states|
    ensures Recorded(states[i])
  {
    if i > 0 {
      LogIsTheAppendsInOrder(states, steps, i - 1);
      StepKeepsRecord(states, steps, i - 1);
    } else {
      ReachableInv(states, steps, 0);
    }
  }

  lemma {:induction false} AppendsGrow(calls: seq<Call>, m: nat, n: nat, key: Key)
    requires m <= n <= |calls|
    ensures |Appends(calls[..m], key)| <= |Appends(calls[..n], key)|
  {
    if m < n {
      AppendsGrow(calls, m, n - 1, key);
      assert calls[..n][..n - 1] == calls[..n - 1];
    }
  }

  /** No two appends on a key are told the same index: the later arrival is told the greater one. */
  lemma IndicesFollowArrivals(states: seq<Store>, steps: seq<Step>, n: nat, i: nat, j: nat)
    requires Execution(states, steps) && n < |states|
    requires i < j < |states[n].calls| && Same(states[n], i, j)
    requires Succeeded(states[n].calls[i], states[n].calls[i].key) && states[n].calls[i].request.Append?
    requires Succeeded(states[n].calls[j], states[n].calls[j].key) && states[n].calls[j].request.Append?
    ensures states[n].calls[i].phase.result.index < states[n].calls[j].phase.result.index
  {
    LogIsTheAppendsInOrder(states, steps, n);
    var calls, key := states[n].calls, states[n].calls[i].key;
    assert PlaceKnown(calls, i) && PlaceKnown(calls, j);
    AppendsGrow(calls, i + 1, j, key);
    assert calls[..i + 1][..i] == calls[..i];
  }

  // ----- What callers were told stays true -----

  lemma StepGrows(states: seq<Store>, steps: seq<Step>, i: nat, key: Key)
    requires Execution(states, steps) && i < |steps|
    ensures FilesGrow(FilesOf(states[i], key), FilesOf(states[i + 1], key))
  {
    ReachableInv(states, steps, i);
    NextKeepsInv(states[i], steps[i], states[i + 1]);
  }

  lemma {:induction false} LaterLogsGrow(states: seq<Store>, steps: seq<Step>, i: nat, j: nat, key: Key)
    requires Execution(states, steps) && i <= j < |states|
    ensures FilesGrow(FilesOf(states[i], key), FilesOf(states[j], key))
  {
    if i < j {
      LaterLogsGrow(states, steps, i, j - 1, key);
      StepGrows(states, steps, j - 1, key);
    }
  }

  /** The log is append-only: what it held once is a prefix of what it holds ever after. */
  lemma LogIsAppendOnly(states: seq<Store>, steps: seq<Step>, i: nat, j: nat, key: Key)
    requires Execution(states, steps) && i <= j < |states|
    ensures LogsComplete(states[i]) && LogsComplete(states[j])
    ensures Log(states[i], key) <= Log(states[j], key)
  {
    LaterLogsGrow(states, steps, i, j, key);
    ReachableInv(states, steps, i);
    ReachableInv(states, steps, j);
    assert Complete(FilesOf(states[i], key)) && Complete(FilesOf(states[j], key));
  }

  lemma {:induction false} FinishedCallsStay(states: seq<Store>, steps: seq<Step>, i: nat, j: nat, call: nat)
    requires Execution(states, steps) && i <= j < |states|
    requires call < |states[i].calls| && Finished(states[i], call)
    ensures call < |states[j].calls| && states[j].calls[call] == states[i].calls[call]
  {
    if i < j {
      FinishedCallsStay(states, steps, i, j - 1, call);
      UntouchedCall(states[j - 1], steps[j - 1], states[j], call);
    }
  }

  lemma PageIsASlice(s: Store, i: nat)
    requires LogsComplete(s) && i < |s.calls| && ResultOk(s, i)
    requires s.calls[i].request.Page? && s.calls[i].phase.Done? && s.calls[i].phase.result.Paged?
    ensures var log, result := Log(s, s.calls[i].key), s.calls[i].phase.result;
            && result.total <= |log|
            && result.locators == Slice(log[..result.total], s.calls[i].request.offset, PAGE_ENTRIES)
  {
    var log, result, offset := Log(s, s.calls[i].key), s.calls[i].phase.result, s.calls[i].request.offset;
    var page := Slice(log[..result.total], offset, PAGE_ENTRIES);
    assert |page| == |result.locators|;
    forall k | 0 <= k < |page| ensures page[k] == result.locators[k] {
      assert Shows(FilesOf(s, s.calls[i].key), result.total, offset + k, result.locators[k]);
      assert page[k] == log[..result.total][offset + k] == log[offset + k];
    }
  }

  /** A page is the requested stretch of the log as it was, and at every later moment still is, up to its total. */
  lemma PagesNeverChange(states: seq<Store>, steps: seq<Step>, i: nat, j: nat, call: nat)
    requires Execution(states, steps) && i <= j < |states|
    requires call < |states[i].calls| && states[i].calls[call].request.Page?
    requires states[i].calls[call].phase.Done? && states[i].calls[call].phase.result.Paged?
    ensures LogsComplete(states[j])
    ensures var key, result := states[i].calls[call].key, states[i].calls[call].phase.result;
            && result.total <= |Log(states[j], key)|
            && result.locators ==
                 Slice(Log(states[j], key)[..result.total], states[i].calls[call].request.offset, PAGE_ENTRIES)
            && IsPageOf(Log(states[j], key)[..result.total], states[i].calls[call].request.offset, result.locators)
  {
    FinishedCallsStay(states, steps, i, j, call);
    ReachableInv(states, steps, j);
    PageIsASlice(states[j], call);
    var key, result := states[i].calls[call].key, states[i].calls[call].phase.result;
    SlicesArePages(Log(states[j], key)[..result.total], states[i].calls[call].request.offset);
  }

  /** Reading a page never fails, and what it returns is a page of the whole log as it was then. */
  lemma PagesShowTheLog(states: seq<Store>, steps: seq<Step>, i: nat, call: nat)
    requires Execution(states, steps) && i < |steps| && steps[i] == Act(call)
    requires call < |states[i].calls| && states[i].calls[call].request.Page?
    ensures call < |states[i + 1].calls| && LogsComplete(states[i])
    ensures var log, phase := Log(states[i], states[i].calls[call].key), states[i + 1].calls[call].phase;
            && phase.Done? && phase.result.Paged? && phase.result.total == |log|
            && IsPageOf(log, states[i].calls[call].request.offset, phase.result.locators)
  {
    ReachableInv(states, steps, i);
    StepPages(states[i], call, states[i + 1]);
  }

  lemma StepPages(s: Store, i: nat, s': Store)
    requires CountsHold(s) && LogsComplete(s) && Next(s, Act(i), s') && s.calls[i].request.Page?
    ensures var log, phase := Log(s, s.calls[i].key), s'.calls[i].phase;
            && phase.Done? && phase.result.Paged? && phase.result.total == |log|
            && IsPageOf(log, s.calls[i].request.offset, phase.result.locators)
  {
    var files, offset := FilesOf(s, s.calls[i].key), s.calls[i].request.offset;
    assert Complete(files);
    PageIsOk(files, |files|, offset);
    CompletePage(files, offset);
    SlicesArePages(Log(s, s.calls[i].key), offset);
  }

  lemma CompletePage(files: map<nat, Locator>, offset: nat)
    requires Complete(files) && Readable(files, |files|, offset)
    ensures PageOf(files, |files|, offset) ==
            Slice(seq(|files|, i requires 0 <= i < |files| => files[i]), offset, 64)
  {
  }

  lemma StepActs(s: Store, i: nat, s': Store)
    requires Inv(s) && LogsComplete(s') && Next(s, Act(i), s') && !s.calls[i].request.Page?
    ensures var log, log', request := Log(s, s.calls[i].key), Log(s', s.calls[i].key), s.calls[i].request;
            && (request.Append? ==>
                  log' == log + [request.locator] && s'.calls[i].phase == Done(Appended(|log|)))
            && (request.Announce? ==>
                  && log' == (if request.locator in log then log else log + [request.locator])
                  && s'.calls[i].phase == Done(Announced))
  {
    ActOnLog(s, i, s');
    ListedIsLogged(s, s.calls[i].key, s.calls[i].request.locator);
  }

  /**
   An append adds its locator and is told its place, an announcement adds only what is not there, and
   no other log moves.
   */
  lemma ActsOnItsLog(states: seq<Store>, steps: seq<Step>, i: nat, call: nat, other: Key)
    requires Execution(states, steps) && i < |steps| && steps[i] == Act(call)
    ensures call < |states[i].calls| && LogsComplete(states[i]) && LogsComplete(states[i + 1])
    ensures !states[i].calls[call].request.Page? ==>
              var key, request := states[i].calls[call].key, states[i].calls[call].request;
              var log, log' := Log(states[i], key), Log(states[i + 1], key);
              && call < |states[i + 1].calls|
              && (request.Append? ==>
                    log' == log + [request.locator] && states[i + 1].calls[call].phase == Done(Appended(|log|)))
              && (request.Announce? ==>
                    && log' == (if request.locator in log then log else log + [request.locator])
                    && states[i + 1].calls[call].phase == Done(Announced))
    ensures other != states[i].calls[call].key || states[i].calls[call].request.Page? ==>
              Log(states[i + 1], other) == Log(states[i], other)
  {
    ReachableInv(states, steps, i);
    ReachableInv(states, steps, i + 1);
    assert Next(states[i], steps[i], states[i + 1]);
    if !states[i].calls[call].request.Page? {
      StepActs(states[i], call, states[i + 1]);
    }
    if other != states[i].calls[call].key || states[i].calls[call].request.Page? {
      QuietSteps(states[i], steps[i], states[i + 1], other);
    }
  }

  predicate HasFailed(s: Store, call: nat) {
    call < |s.calls| && s.calls[call].phase == Done(Failed)
  }

  lemma ActSucceeds(s: Store, i: nat, s': Store)
    requires LogsComplete(s) && CountsHold(s) && Next(s, Act(i), s')
    ensures s'.calls == s.calls[i := s'.calls[i]] && s'.calls[i].phase.Done? && s'.calls[i].phase.result != Failed
  {
    assert Complete(FilesOf(s, s.calls[i].key));
    if s.calls[i].request.Page? {
      PageIsOk(FilesOf(s, s.calls[i].key), s.calls[i].phase.total, s.calls[i].request.offset);
    }
  }

  lemma StepFails(s: Store, step: Step, s': Store, call: nat)
    requires LogsComplete(s) && CountsHold(s) && Next(s, step, s')
    ensures HasFailed(s', call) <==> HasFailed(s, call) || step == Fail(call)
  {
    match step
    case Arrive(_, _) =>
    case Enter(_) =>
    case Count(i) => assert Complete(FilesOf(s, s.calls[i].key));
    case Act(i) => ActSucceeds(s, i, s');
    case Fail(_) =>
  }

  ghost predicate Thrown(steps: seq<Step>, n: nat, call: nat)
    requires n <= |steps|
  {
    exists k: nat :: k < n && steps[k] == Fail(call)
  }

  lemma FailedAt(states: seq<Store>, steps: seq<Step>, n: nat, call: nat)
    requires Execution(states, steps) && n < |steps|
    requires HasFailed(states[n], call) <==> Thrown(steps, n, call)
    ensures HasFailed(states[n + 1], call) <==> Thrown(steps, n + 1, call)
  {
    ReachableInv(states, steps, n);
    StepFails(states[n], steps[n], states[n + 1], call);
  }

  /** A call fails exactly if its own action threw: no other call, whatever it does, makes it fail. */
  lemma {:induction false} FailsExactlyIfThrown(states: seq<Store>, steps: seq<Step>, n: nat, call: nat)
    requires Execution(states, steps) && n < |states|
    ensures HasFailed(states[n], call) <==> Thrown(steps, n, call)
  {
    if n > 0 {
      FailsExactlyIfThrown(states, steps, n - 1, call);
      FailedAt(states, steps, n - 1, call);
    }
  }

  /** An append finds its locator under the index it was told, then and ever after. */
  lemma AppendsAreFound(states: seq<Store>, steps: seq<Step>, i: nat, j: nat, call: nat)
    requires Execution(states, steps) && i <= j < |states|
    requires call < |states[i].calls| && Succeeded(states[i].calls[call], states[i].calls[call].key)
    requires states[i].calls[call].request.Append?
    ensures LogsComplete(states[j])
    ensures var key, index := states[i].calls[call].key, states[i].calls[call].phase.result.index;
            index < |Log(states[j], key)| && Log(states[j], key)[index] == states[i].calls[call].request.locator
  {
    FinishedCallsStay(states, steps, i, j, call);
    ReachableInv(states, steps, j);
    assert ResultOk(states[j], call);
    assert Complete(FilesOf(states[j], states[i].calls[call].key));
  }

  // ----- The chain of promises -----

  predicate Busy(s: Store, key: Key) {
    exists i: nat :: i < |s.calls| && s.calls[i].key == key && !Finished(s, i)
  }

  predicate PastAwait(s: Store, i: nat)
    requires i < |s.calls|
  {
    s.calls[i].phase.Entered? || s.calls[i].phase.Counted?
  }

  /** Calls on a key run one at a time, in the order they arrived. */
  lemma OneAtATimeInOrder(states: seq<Store>, steps: seq<Step>, n: nat, i: nat, j: nat)
    requires Execution(states, steps) && n < |states|
    requires i < |states[n].calls| && j < |states[n].calls| && i != j && Same(states[n], i, j)
    requires PastAwait(states[n], i)
    ensures if j < i then Finished(states[n], j) else states[n].calls[j].phase == Waiting
  {
    ReachableInv(states, steps, n);
    assert Same(states[n], j, i);
  }

  /** The lock map forgets a key exactly when the last call to arrive at it finishes. */
  lemma PendingUntilTheLastFinishes(states: seq<Store>, steps: seq<Step>, n: nat, key: Key)
    requires Execution(states, steps) && n < |states|
    ensures key in states[n].pending <==> Busy(states[n], key)
    ensures key in states[n].pending ==>
              var last := states[n].pending[key];
              && last < |states[n].calls| && states[n].calls[last].key == key && !Finished(states[n], last)
              && forall j: nat | last < j < |states[n].calls| :: states[n].calls[j].key != key
  {
    ReachableInv(states, steps, n);
    if key in states[n].pending {
      assert !Finished(states[n], states[n].pending[key]);
    }
  }

  /** The first call on a key that has not finished. */
  lemma {:induction false} FirstUnfinished(s: Store, key: Key, n: nat) returns (first: nat)
    requires n < |s.calls| && s.calls[n].key == key && !Finished(s, n)
    ensures first <= n && s.calls[first].key == key && !Finished(s, first)
    ensures forall j: nat | j < first && s.calls[j].key == key :: Finished(s, j)
  {
    if j: nat :| j < n && s.calls[j].key == key && !Finished(s, j) {
      first := FirstUnfinished(s, key, j);
    } else {
      first := n;
    }
  }

  /** No deadlock: while a key is busy, its first unfinished call can take its next step without failing. */
  lemma BusyKeysMove(states: seq<Store>, steps: seq<Step>, n: nat, key: Key)
      returns (first: nat, step: Step, s': Store)
    requires Execution(states, steps) && n < |states| && Busy(states[n], key)
    ensures first < |states[n].calls| && states[n].calls[first].key == key
    ensures !step.Arrive? && !step.Fail? && step.call == first && Next(states[n], step, s')
    ensures s'.calls[first].phase != Done(Failed)
  {
    ReachableInv(states, steps, n);
    var s := states[n];
    var i: nat :| i < |s.calls| && s.calls[i].key == key && !Finished(s, i);
    first := FirstUnfinished(s, key, i);
    var call := s.calls[first];
    assert Complete(FilesOf(s, key));
    match call.phase
    case Waiting =>
      if call.previous.Some? {
        assert Same(s, call.previous.value, first);
      }
      step, s' := Enter(first), SetPhase(s, first, Entered);
    case Entered => step, s' := Count(first), SetPhase(s, first, Counted(|FilesOf(s, key)|));
    case Counted(total) =>
      step := Act(first);
      assert total == |FilesOf(s, key)|;
      if call.request.Page? {
        PageIsOk(FilesOf(s, key), total, call.request.offset);
        s' := Release(s, first, Paged(total, PageOf(FilesOf(s, key), total, call.request.offset)));
      } else if Writes(s, first) {
        s' := AfterWrite(s, first, total, call.request.locator);
      } else {
        s' := Release(s, first, Announced);
      }
  }

  function Remaining(phase: Phase): nat {
    match phase
    case Waiting => 3
    case Entered => 2
    case Counted(_) => 1
    case Done(_) => 0
  }

  function Work(calls: seq<Call>): nat {
    if calls == [] then 0 else Work(calls[..|calls| - 1]) + Remaining(calls[|calls| - 1].phase)
  }

  lemma {:induction false} WorkShrinks(calls: seq<Call>, i: nat, call: Call)
    requires i < |calls| && Remaining(call.phase) < Remaining(calls[i].phase)
    ensures Work(calls[i := call]) < Work(calls)
  {
    var n := |calls| - 1;
    if i == n {
      assert calls[i := call][..n] == calls[..n];
    } else {
      WorkShrinks(calls[..n], i, call);
      assert calls[i := call][..n] == calls[..n][i := call];
    }
  }

  lemma StepShrinksWork(s: Store, step: Step, s': Store)
    requires Next(s, step, s') && !step.Arrive?
    ensures Work(s'.calls) < Work(s.calls)
  {
    var i := step.call;
    assert s'.calls == s.calls[i := s'.calls[i]];
    WorkShrinks(s.calls, i, s'.calls[i]);
  }

  /** Once calls stop arriving, the rest ends within the steps that are left to take. */
  lemma {:induction false} EveryCallFinishes(states: seq<Store>, steps: seq<Step>, i: nat, j: nat)
    requires Execution(states, steps) && i <= j < |states|
    requires forall k | i <= k < j :: !steps[k].Arrive?
    ensures Work(states[j].calls) + (j - i) <= Work(states[i].calls)
  {
    if i < j {
      EveryCallFinishes(states, steps, i, j - 1);
      StepShrinksWork(states[j - 1], steps[j - 1], states[j]);
    }
  }
}
