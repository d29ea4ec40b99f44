/**
 The relay's discovery log as a transition system: a chain of promises per key serializes the
 actions on that key, and each append reads the directory and then writes the next entry's file in
 separate steps between which any other call may run. The offer announcements keep the same lock
 around a list to which an entry is added only if it is not listed; their records stand here for
 the numbered entries.
 */
module RelayStore {
  import opened Basics

  type Key = string
  type Locator = string

  datatype Request = Append(locator: Locator) | Announce(locator: Locator) | Page(offset: nat)

  datatype Result = Appended(index: nat) | Announced | Paged(total: nat, locators: seq<Locator>) | Failed

  datatype Phase =
    | Waiting                // awaiting the previous call's promise, if there was one
    | Entered
    | Counted(total: nat)    // the directory was read
    | Done(result: Result)   // the promise is released

  datatype Call = Call(key: Key, request: Request, previous: Option<nat>, phase: Phase)

  /** The entry files by their numbers, and the last call to arrive at each key. */
  datatype Store = Store(files: map<Key, map<nat, Locator>>, pending: map<Key, nat>, calls: seq<Call>)

  const PAGE_ENTRIES := 64

  function FilesOf(s: Store, key: Key): map<nat, Locator> {
    if key in s.files then s.files[key] else map[]
  }

  /** The directory holds entries numbered from zero without a gap. */
  ghost predicate Complete(files: map<nat, Locator>) {
    forall i: nat :: i in files <==> i < |files|
  }

  /** The log has this locator at this place, which is before the total. */
  predicate Shows(files: map<nat, Locator>, total: nat, place: nat, locator: Locator) {
    place < total && place in files && files[place] == locator
  }

  /** One of the first entries is this locator. */
  ghost predicate Listed(files: map<nat, Locator>, total: nat, locator: Locator) {
    exists place: nat :: Shows(files, total, place, locator)
  }

  /** The entry files of one page are there. */
  predicate Readable(files: map<nat, Locator>, total: nat, offset: nat) {
    forall place: nat | offset <= place < offset + PageCount(total, offset, PAGE_ENTRIES) :: place in files
  }

  /** The entries of one page, read from their files. */
  function PageOf(files: map<nat, Locator>, total: nat, offset: nat): seq<Locator>
    requires Readable(files, total, offset)
  {
    var count := PageCount(total, offset, PAGE_ENTRIES);
    seq(count, i requires 0 <= i < count => files[offset + i])
  }

  // ----- Steps -----

  datatype Step =
    | Arrive(key: Key, request: Request)
    | Enter(call: nat)
    | Count(call: nat)
    | Act(call: nat)
    | Fail(call: nat)

  function SetPhase(s: Store, i: nat, phase: Phase): Store
    requires i < |s.calls|
  {
    s.(calls := s.calls[i := s.calls[i].(phase := phase)])
  }

  /** The `finally`: the last call to arrive takes its entry away, and its promise is released. */
  function Release(s: Store, i: nat, result: Result): Store
    requires i < |s.calls|
  {
    var key := s.calls[i].key;
    var pending := if key in s.pending && s.pending[key] == i then s.pending - {key} else s.pending;
    SetPhase(s, i, Done(result)).(pending := pending)
  }

  function AfterArrive(s: Store, key: Key, request: Request): Store {
    var previous := if key in s.pending then Some(s.pending[key]) else None;
    s.(pending := s.pending[key := |s.calls|], calls := s.calls + [Call(key, request, previous, Waiting)])
  }

  /** Writes the entry file with the number counted before, whatever is there by now. */
  function AfterWrite(s: Store, i: nat, total: nat, locator: Locator): Store
    requires i < |s.calls|
  {
    var key := s.calls[i].key;
    var result := if s.calls[i].request.Append? then Appended(total) else Announced;
    Release(s, i, result).(files := s.files[key := FilesOf(s, key)[total := locator]])
  }

  /** Whether a call's last step writes an entry: an append always, an announcement unless it is listed. */
  ghost predicate Writes(s: Store, i: nat)
    requires i < |s.calls| && s.calls[i].phase.Counted?
  {
    var call := s.calls[i];
    match call.request
    case Append(_) => true
    case Announce(locator) => !Listed(FilesOf(s, call.key), call.phase.total, locator)
    case Page(_) => false
  }

  predicate MayEnter(s: Store, i: nat) {
    && i < |s.calls| && s.calls[i].phase == Waiting
    && (s.calls[i].previous.Some? ==>
          s.calls[i].previous.value < |s.calls| && s.calls[s.calls[i].previous.value].phase.Done?)
  }

  ghost predicate Next(s: Store, step: Step, s': Store) {
    match step
    case Arrive(key, request) => s' == AfterArrive(s, key, request)
    case Enter(i) => MayEnter(s, i) && s' == SetPhase(s, i, Entered)
    case Count(i) =>
      && i < |s.calls| && s.calls[i].phase == Entered
      && var files := FilesOf(s, s.calls[i].key);
         if Complete(files) then s' == SetPhase(s, i, Counted(|files|)) else s' == Release(s, i, Failed)
    case Act(i) =>
      && i < |s.calls| && s.calls[i].phase.Counted?
      && var call := s.calls[i];
         var total := call.phase.total;
         (match call.request
          case Page(offset) =>
            if Readable(FilesOf(s, call.key), total, offset)
            then s' == Release(s, i, Paged(total, PageOf(FilesOf(s, call.key), total, offset)))
            else s' == Release(s, i, Failed)
          case _ =>
            s' == if Writes(s, i) then AfterWrite(s, i, total, call.request.locator) else Release(s, i, Announced))
    case Fail(i) =>
      && i < |s.calls| && (s.calls[i].phase == Entered || s.calls[i].phase.Counted?)
      && s' == Release(s, i, Failed)
  }

  ghost predicate Initial(s: Store) {
    s == Store(map[], map[], [])
  }

  ghost predicate Execution(states: seq<Store>, steps: seq<Step>) {
    && |states| == |steps| + 1
    && Initial(states[0])
    && forall i {:trigger steps[i]} | 0 <= i < |steps| :: Next(states[i], steps[i], states[i + 1])
  }

  // ----- The invariant -----

  predicate Finished(s: Store, i: nat)
    requires i < |s.calls|
  {
    s.calls[i].phase.Done?
  }

  predicate Same(s: Store, i: nat, j: nat)
    requires i < |s.calls| && j < |s.calls|
  {
    s.calls[i].key == s.calls[j].key
  }

  /** Every call that got past its await came after all earlier calls on its key had finished. */
  predicate InTurn(s: Store) {
    forall i: nat, j: nat | i < j < |s.calls| && Same(s, i, j) && s.calls[j].phase != Waiting :: Finished(s, i)
  }

  /** A call awaits the one just before it on its key, or none if those had all finished. */
  predicate Linked(s: Store) {
    && (forall j: nat | j < |s.calls| && s.calls[j].previous.Some? ::
          var i := s.calls[j].previous.value;
          && i < j && Same(s, i, j)
          && forall k: nat | i < k < j :: !Same(s, k, j))
    && (forall i: nat, j: nat | i < j < |s.calls| && Same(s, i, j) && s.calls[j].previous.None? :: Finished(s, i))
  }

  /** The pending entry is the last call to arrive, for as long as that call has not finished. */
  predicate PendingIsLast(s: Store) {
    && (forall key | key in s.pending ::
          var i := s.pending[key];
          && i < |s.calls| && s.calls[i].key == key && !Finished(s, i)
          && forall j: nat | i < j < |s.calls| :: s.calls[j].key != key)
    && (forall i: nat | i < |s.calls| && s.calls[i].key !in s.pending :: Finished(s, i))
  }

  predicate CountsHold(s: Store) {
    forall i: nat | i < |s.calls| && s.calls[i].phase.Counted? :: s.calls[i].phase.total == |FilesOf(s, s.calls[i].key)|
  }

  ghost predicate LogsComplete(s: Store) {
    forall key :: Complete(FilesOf(s, key))
  }

  /** What a finished call returned stays true of the log. */
  ghost predicate ResultOk(s: Store, i: nat)
    requires i < |s.calls|
  {
    var call, files := s.calls[i], FilesOf(s, s.calls[i].key);
    call.phase.Done? ==>
      match call.phase.result
      case Appended(index) => call.request.Append? && index in files && files[index] == call.request.locator
      case Announced => call.request.Announce? && Listed(files, |files|, call.request.locator)
      case Paged(total, locators) =>
        && call.request.Page? && total <= |files|
        && |locators| == PageCount(total, call.request.offset, PAGE_ENTRIES)
        && forall k | 0 <= k < |locators| :: Shows(files, total, call.request.offset + k, locators[k])
      case Failed => true
  }

  ghost predicate Inv(s: Store) {
    && InTurn(s) && Linked(s) && PendingIsLast(s) && CountsHold(s) && LogsComplete(s)
    && forall i: nat | i < |s.calls| :: ResultOk(s, i)
  }

  // ----- Every step keeps the locks -----

  /** The same calls, none of them less far than before. */
  predicate Progresses(s: Store, s': Store) {
    && |s'.calls| == |s.calls|
    && forall i: nat | i < |s.calls| :: CallProgresses(s.calls[i], s'.calls[i])
  }

  predicate CallProgresses(call: Call, call': Call) {
    && call'.key == call.key && call'.request == call.request && call'.previous == call.previous
    && (call.phase.Done? ==> call'.phase == call.phase)
  }

  lemma LinksProgress(s: Store, s': Store)
    requires Linked(s) && Progresses(s, s')
    ensures Linked(s')
  {
    forall j: nat | j < |s'.calls| && s'.calls[j].previous.Some?
      ensures var i := s'.calls[j].previous.value;
              i < j && Same(s', i, j) && forall k: nat | i < k < j :: !Same(s', k, j)
    {
      assert CallProgresses(s.calls[j], s'.calls[j]);
      var i := s.calls[j].previous.value;
      assert i < j && Same(s, i, j) && CallProgresses(s.calls[i], s'.calls[i]);
      forall k: nat | i < k < j ensures !Same(s', k, j) {
        assert CallProgresses(s.calls[k], s'.calls[k]) && !Same(s, k, j);
      }
    }
    forall i: nat, j: nat | i < j < |s'.calls| && Same(s', i, j) && s'.calls[j].previous.None?
      ensures Finished(s', i)
    {
      assert CallProgresses(s.calls[i], s'.calls[i]) && CallProgresses(s.calls[j], s'.calls[j]);
      assert Same(s, i, j) && Finished(s, i);
    }
  }

  /** Turns are kept while nobody but those whose turn it is gets past its await. */
  lemma TurnsProgress(s: Store, s': Store)
    requires InTurn(s) && Progresses(s, s')
    requires forall j: nat | j < |s.calls| && s.calls[j].phase == Waiting && s'.calls[j].phase != Waiting ::
               forall i: nat | i < j && Same(s, i, j) :: Finished(s, i)
    ensures InTurn(s')
  {
    forall i: nat, j: nat | i < j < |s'.calls| && Same(s', i, j) && s'.calls[j].phase != Waiting
      ensures Finished(s', i)
    {
      assert CallProgresses(s.calls[i], s'.calls[i]) && CallProgresses(s.calls[j], s'.calls[j]);
      assert Same(s, i, j) && Finished(s, i);
    }
  }

  /** Without a release the pending entries stay as they are. */
  lemma PendingProgresses(s: Store, s': Store)
    requires PendingIsLast(s) && Progresses(s, s') && s'.pending == s.pending
    requires forall i: nat | i < |s.calls| && !Finished(s, i) :: !Finished(s', i)
    ensures PendingIsLast(s')
  {
    forall key | key in s'.pending
      ensures var i := s'.pending[key];
              && i < |s'.calls| && s'.calls[i].key == key && !Finished(s', i)
              && forall j: nat | i < j < |s'.calls| :: s'.calls[j].key != key
    {
      assert forall j: nat | j < |s.calls| :: CallProgresses(s.calls[j], s'.calls[j]);
    }
    forall i: nat | i < |s'.calls| && s'.calls[i].key !in s'.pending ensures Finished(s', i) {
      assert CallProgresses(s.calls[i], s'.calls[i]) && Finished(s, i);
    }
  }

  /** A release removes the pending entry exactly when it is the last arrival's. */
  lemma ReleasePending(s: Store, i: nat, result: Result)
    requires InTurn(s) && PendingIsLast(s) && i < |s.calls|
    requires s.calls[i].phase != Waiting && !Finished(s, i)
    ensures PendingIsLast(Release(s, i, result))
  {
    var s', key := Release(s, i, result), s.calls[i].key;
    assert key in s.pending;
    if s.pending[key] == i {
      forall j: nat | j < |s'.calls| && s'.calls[j].key !in s'.pending ensures Finished(s', j) {
        if s.calls[j].key == key && j != i {
          assert j < i && Same(s, j, i) && Finished(s, j);
        }
      }
    }
  }

  lemma ReleaseKeepsLocks(s: Store, i: nat, result: Result)
    requires InTurn(s) && Linked(s) && PendingIsLast(s) && i < |s.calls|
    requires s.calls[i].phase != Waiting && !Finished(s, i)
    ensures var s' := Release(s, i, result); InTurn(s') && Linked(s') && PendingIsLast(s') && Progresses(s, s')
  {
    var s' := Release(s, i, result);
    LinksProgress(s, s');
    TurnsProgress(s, s');
    ReleasePending(s, i, result);
  }

  lemma SetPhaseKeepsLocks(s: Store, i: nat, phase: Phase)
    requires InTurn(s) && Linked(s) && PendingIsLast(s) && i < |s.calls| && !Finished(s, i) && !phase.Done?
    requires s.calls[i].phase == Waiting ==> forall j: nat | j < i && Same(s, j, i) :: Finished(s, j)
    ensures var s' := SetPhase(s, i, phase); InTurn(s') && Linked(s') && PendingIsLast(s') && Progresses(s, s')
  {
    var s' := SetPhase(s, i, phase);
    LinksProgress(s, s');
    TurnsProgress(s, s');
    PendingProgresses(s, s');
  }

  lemma ArriveLinks(s: Store, key: Key, request: Request)
    requires Linked(s) && PendingIsLast(s)
    ensures Linked(AfterArrive(s, key, request))
  {
    var s', n := AfterArrive(s, key, request), |s.calls|;
    forall j: nat | j < |s'.calls| && s'.calls[j].previous.Some?
      ensures var i := s'.calls[j].previous.value;
              i < j && Same(s', i, j) && forall k: nat | i < k < j :: !Same(s', k, j)
    {
      if j < n {
        var i := s.calls[j].previous.value;
        assert i < j && Same(s, i, j);
        forall k: nat | i < k < j ensures !Same(s', k, j) {
          assert !Same(s, k, j);
        }
      }
    }
    forall i: nat, j: nat | i < j < |s'.calls| && Same(s', i, j) && s'.calls[j].previous.None?
      ensures Finished(s', i)
    {
      if j < n {
        assert Same(s, i, j) && Finished(s, i);
      } else {
        assert Finished(s, i);
      }
    }
  }

  lemma ArriveIsLast(s: Store, key: Key, request: Request)
    requires PendingIsLast(s)
    ensures PendingIsLast(AfterArrive(s, key, request))
  {
    var s' := AfterArrive(s, key, request);
    forall i: nat | i < |s'.calls| && s'.calls[i].key !in s'.pending ensures Finished(s', i) {
      assert Finished(s, i);
    }
  }

  lemma ArriveKeepsTurns(s: Store, key: Key, request: Request)
    requires InTurn(s)
    ensures InTurn(AfterArrive(s, key, request))
  {
    var s' := AfterArrive(s, key, request);
    forall i: nat, j: nat | i < j < |s'.calls| && Same(s', i, j) && s'.calls[j].phase != Waiting
      ensures Finished(s', i)
    {
      assert Same(s, i, j) && Finished(s, i);
    }
  }

  lemma ArriveKeepsLocks(s: Store, key: Key, request: Request)
    requires InTurn(s) && Linked(s) && PendingIsLast(s)
    ensures var s' := AfterArrive(s, key, request); InTurn(s') && Linked(s') && PendingIsLast(s')
  {
    ArriveLinks(s, key, request);
    ArriveIsLast(s, key, request);
    ArriveKeepsTurns(s, key, request);
  }

  /** A call enters only once every earlier call on its key has finished. */
  lemma EntersInTurn(s: Store, i: nat, j: nat)
    requires InTurn(s) && Linked(s) && MayEnter(s, i) && j < i && Same(s, j, i)
    ensures Finished(s, j)
  {
    if s.calls[i].previous.Some? {
      var previous := s.calls[i].previous.value;
      assert previous < i && Same(s, previous, i);
      if j < previous {
        assert Same(s, j, previous) && s.calls[previous].phase != Waiting;
      }
    }
  }

  // ----- Every step keeps the log and what was returned from it -----

  /** Entry files are only ever added: none is lost or overwritten. */
  ghost predicate Grows(s: Store, s': Store) {
    forall key :: FilesGrow(FilesOf(s, key), FilesOf(s', key))
  }

  ghost predicate FilesGrow(files: map<nat, Locator>, files': map<nat, Locator>) {
    && |files| <= |files'|
    && forall i | i in files :: i in files' && files'[i] == files[i]
  }

  /** While a call is past its await, no other call on its key is. */
  lemma Alone(s: Store, i: nat, j: nat)
    requires InTurn(s) && i < |s.calls| && j < |s.calls| && i != j && Same(s, i, j)
    requires s.calls[i].phase != Waiting && !Finished(s, i)
    requires s.calls[j].phase != Waiting
    ensures Finished(s, j)
  {
    if j < i {
      assert Same(s, j, i);
    }
  }

  /** The next entry leaves a complete log complete. */
  lemma NextEntry(files: map<nat, Locator>, locator: Locator)
    requires Complete(files)
    ensures var files' := files[|files| := locator];
            && |files'| == |files| + 1 && Complete(files') && FilesGrow(files, files')
            && Shows(files', |files'|, |files|, locator)
  {
  }

  lemma WriteExtends(s: Store, i: nat)
    requires CountsHold(s) && LogsComplete(s) && i < |s.calls| && s.calls[i].phase.Counted? && Writes(s, i)
    ensures var total, locator := s.calls[i].phase.total, s.calls[i].request.locator;
            var s' := AfterWrite(s, i, total, locator);
            && Grows(s, s') && LogsComplete(s') && ResultOk(s', i)
            && FilesOf(s', s.calls[i].key) == FilesOf(s, s.calls[i].key)[total := locator]
            && total == |FilesOf(s, s.calls[i].key)|
            && forall key | key != s.calls[i].key :: FilesOf(s', key) == FilesOf(s, key)
  {
    var key, total, locator := s.calls[i].key, s.calls[i].phase.total, s.calls[i].request.locator;
    var s' := AfterWrite(s, i, total, locator);
    assert Complete(FilesOf(s, key));
    NextEntry(FilesOf(s, key), locator);
    forall k ensures Complete(FilesOf(s', k)) && FilesGrow(FilesOf(s, k), FilesOf(s', k)) {
      assert Complete(FilesOf(s, k));
    }
  }

  lemma WriteKeepsCounts(s: Store, i: nat)
    requires InTurn(s) && CountsHold(s) && i < |s.calls| && s.calls[i].phase.Counted? && Writes(s, i)
    ensures CountsHold(AfterWrite(s, i, s.calls[i].phase.total, s.calls[i].request.locator))
  {
    var s' := AfterWrite(s, i, s.calls[i].phase.total, s.calls[i].request.locator);
    forall j: nat | j < |s'.calls| && s'.calls[j].phase.Counted?
      ensures s'.calls[j].phase.total == |FilesOf(s', s'.calls[j].key)|
    {
      if s.calls[j].key == s.calls[i].key {
        Alone(s, i, j);
      }
    }
  }

  /** What was returned before stays true as the logs grow. */
  lemma ResultsStay(s: Store, s': Store, i: nat)
    requires Grows(s, s') && i < |s.calls| && i < |s'.calls|
    requires ResultOk(s, i) && s'.calls[i].key == s.calls[i].key && s'.calls[i].request == s.calls[i].request
    requires s'.calls[i].phase.Done? ==> s'.calls[i].phase == s.calls[i].phase
    ensures ResultOk(s', i)
  {
    var call, files, files' := s.calls[i], FilesOf(s, s.calls[i].key), FilesOf(s', s.calls[i].key);
    assert FilesGrow(files, files');
    if s'.calls[i].phase.Done? && call.phase.result.Paged? {
      var total, locators, offset := call.phase.result.total, call.phase.result.locators, call.request.offset;
      forall k | 0 <= k < |locators| ensures Shows(files', total, offset + k, locators[k]) {
        assert Shows(files, total, offset + k, locators[k]);
      }
    } else if s'.calls[i].phase.Done? && call.phase.result.Announced? {
      var place: nat :| Shows(files, |files|, place, call.request.locator);
      assert Shows(files', |files'|, place, call.request.locator);
    }
  }

  lemma SameFiles(s: Store, s': Store)
    requires s'.files == s.files
    ensures Grows(s, s')
    ensures LogsComplete(s) ==> LogsComplete(s')
  {
    assert forall key :: FilesOf(s', key) == FilesOf(s, key);
    if LogsComplete(s) {
      assert forall key :: Complete(FilesOf(s, key));
    }
  }

  /** The result with which a step finishes its call is true when it is given. */
  lemma NewResultOk(s: Store, step: Step, s': Store, i: nat)
    requires InTurn(s) && CountsHold(s) && LogsComplete(s) && Next(s, step, s') && !step.Arrive? && step.call == i
    ensures i < |s'.calls| && ResultOk(s', i)
  {
    if step.Act? && Writes(s, i) {
      WriteExtends(s, i);
    } else if step.Act? {
      assert FilesOf(s', s.calls[i].key) == FilesOf(s, s.calls[i].key);
      if s.calls[i].request.Page? {
        PageIsOk(FilesOf(s, s.calls[i].key), s.calls[i].phase.total, s.calls[i].request.offset);
      }
    }
  }

  /** In a complete log every page up to the count can be read, and shows the log. */
  lemma PageIsOk(files: map<nat, Locator>, total: nat, offset: nat)
    requires Complete(files) && total <= |files|
    ensures Readable(files, total, offset)
    ensures var page := PageOf(files, total, offset);
            && |page| == PageCount(total, offset, PAGE_ENTRIES)
            && forall k | 0 <= k < |page| :: Shows(files, total, offset + k, page[k])
  {
  }

  /** A step that writes no file keeps what was counted, while no call starts to count. */
  lemma CountsStay(s: Store, s': Store)
    requires CountsHold(s) && s'.files == s.files && |s.calls| <= |s'.calls|
    requires forall i: nat | i < |s'.calls| && s'.calls[i].phase.Counted? ::
               if i < |s.calls| && s'.calls[i] == s.calls[i] then true
               else s'.calls[i].phase.total == |FilesOf(s, s'.calls[i].key)|
    ensures CountsHold(s')
  {
    forall i: nat | i < |s'.calls| && s'.calls[i].phase.Counted?
      ensures s'.calls[i].phase.total == |FilesOf(s', s'.calls[i].key)|
    {
      assert FilesOf(s', s'.calls[i].key) == FilesOf(s, s'.calls[i].key);
    }
  }

  /** A step changes no call but its own. */
  lemma UntouchedCall(s: Store, step: Step, s': Store, i: nat)
    requires Next(s, step, s') && i < |s.calls| && (step.Arrive? || step.call != i)
    ensures |s.calls| <= |s'.calls| && s'.calls[i] == s.calls[i]
  {
  }

  lemma QuietKeepsFiles(s: Store, step: Step, s': Store)
    requires Next(s, step, s') && !(step.Act? && Writes(s, step.call))
    ensures s'.files == s.files
  {
  }

  lemma QuietKeepsCounts(s: Store, step: Step, s': Store)
    requires CountsHold(s) && Next(s, step, s') && !(step.Act? && Writes(s, step.call))
    ensures CountsHold(s')
  {
    QuietKeepsFiles(s, step, s');
    forall i: nat | i < |s'.calls| && s'.calls[i].phase.Counted?
      ensures if i < |s.calls| && s'.calls[i] == s.calls[i] then true
              else s'.calls[i].phase.total == |FilesOf(s, s'.calls[i].key)|
    {
      if i < |s.calls| && (step.Arrive? || step.call != i) {
        UntouchedCall(s, step, s', i);
      }
    }
    CountsStay(s, s');
  }

  /** A step that writes adds one entry; any other leaves every log as it is. */
  lemma NextGrows(s: Store, step: Step, s': Store)
    requires InTurn(s) && CountsHold(s) && LogsComplete(s) && Next(s, step, s')
    ensures Grows(s, s') && LogsComplete(s') && CountsHold(s')
  {
    if step.Act? && Writes(s, step.call) {
      WriteExtends(s, step.call);
      WriteKeepsCounts(s, step.call);
    } else {
      QuietKeepsFiles(s, step, s');
      SameFiles(s, s');
      QuietKeepsCounts(s, step, s');
    }
  }

  lemma LocksIgnoreFiles(s: Store, s': Store)
    requires InTurn(s) && Linked(s) && PendingIsLast(s) && s'.calls == s.calls && s'.pending == s.pending
    ensures InTurn(s') && Linked(s') && PendingIsLast(s')
  {
    LinksProgress(s, s');
    TurnsProgress(s, s');
    PendingProgresses(s, s');
  }

  lemma ActReleases(s: Store, i: nat, s': Store)
    requires Next(s, Act(i), s')
    ensures s'.calls[i].phase.Done?
    ensures var released := Release(s, i, s'.calls[i].phase.result);
            s'.calls == released.calls && s'.pending == released.pending
  {
  }

  lemma ActKeepsLocks(s: Store, i: nat, s': Store)
    requires InTurn(s) && Linked(s) && PendingIsLast(s) && Next(s, Act(i), s')
    ensures InTurn(s') && Linked(s') && PendingIsLast(s') && Progresses(s, s')
  {
    ActReleases(s, i, s');
    ReleaseKeepsLocks(s, i, s'.calls[i].phase.result);
    LocksIgnoreFiles(Release(s, i, s'.calls[i].phase.result), s');
  }

  lemma NextKeepsLocks(s: Store, step: Step, s': Store)
    requires InTurn(s) && Linked(s) && PendingIsLast(s) && Next(s, step, s')
    ensures InTurn(s') && Linked(s') && PendingIsLast(s')
    ensures !step.Arrive? ==> Progresses(s, s')
  {
    match step
    case Arrive(key, request) => ArriveKeepsLocks(s, key, request);
    case Enter(i) =>
      forall j: nat | j < i && Same(s, j, i) ensures Finished(s, j) {
        EntersInTurn(s, i, j);
      }
      SetPhaseKeepsLocks(s, i, Entered);
    case Count(i) =>
      if s'.calls[i].phase.Counted? {
        SetPhaseKeepsLocks(s, i, s'.calls[i].phase);
      } else {
        ReleaseKeepsLocks(s, i, Failed);
      }
    case Act(i) => ActKeepsLocks(s, i, s');
    case Fail(i) => ReleaseKeepsLocks(s, i, Failed);
  }

  lemma NextKeepsInv(s: Store, step: Step, s': Store)
    requires Inv(s) && Next(s, step, s')
    ensures Inv(s') && Grows(s, s')
  {
    NextKeepsLocks(s, step, s');
    NextGrows(s, step, s');
    forall i: nat | i < |s'.calls| ensures ResultOk(s', i) {
      if !step.Arrive? && step.call == i {
        NewResultOk(s, step, s', i);
      } else if i < |s.calls| {
        ResultsStay(s, s', i);
      }
    }
  }

  lemma {:induction false} ReachableInv(states: seq<Store>, steps: seq<Step>, i: nat)
    requires Execution(states, steps) && i < |states|
    ensures Inv(states[i])
  {
    if i > 0 {
      ReachableInv(states, steps, i - 1);
      NextKeepsInv(states[i - 1], steps[i - 1], states[i]);
    } else {
      assert forall key :: FilesOf(states[0], key) == map[];
    }
  }
}
