/**
 The handshake that keeps a fast operation from slipping past its memory guard: output events, the
 end of the process and the monitor's own stretches may interleave in any order. Every method is one
 stretch between awaits, or one file becoming visible.
 */
module GatedGuards {
  import opened Basics

  // ----- The operation's output -----

  /** What a trimmed output line is; completion may carry no usable duration. */
  datatype Line = Skipped | Ready | Completed(milliseconds: Option<nat>) | Malformed

  datatype Heard = Heard(ready: bool, completed: Option<nat>)

  /** After some output: what was heard, what is still pending, and whether an assertion failed. */
  datatype Outcome = Outcome(heard: Heard, pending: string, ok: bool)

  function Newline(text: string): (n: nat)
    ensures n <= |text| && '\n' !in text[..n] && (n < |text| ==> text[n] == '\n')
  {
    if text == "" || text[0] == '\n' then 0 else 1 + Newline(text[1..])
  }

  function HearLine(line: Line, started: bool, heard: Heard): Option<Heard> {
    match line
    case Skipped => Some(heard)
    case Malformed => None
    case Ready => if heard.ready then None else Some(heard.(ready := true))
    case Completed(milliseconds) =>
      if started && heard.completed.None? && milliseconds.Some? then Some(heard.(completed := milliseconds)) else None
  }

  /** Reads every whole line, up to the first that is refused. */
  function Hear(text: string, classify: string -> Line, started: bool, heard: Heard): Outcome
    decreases |text|
  {
    var n := Newline(text);
    if n == |text| then Outcome(heard, text, true)
    else
      var next := HearLine(classify(text[..n]), started, heard);
      if next.None? then Outcome(heard, text[n + 1..], false)
      else Hear(text[n + 1..], classify, started, next.value)
  }

  lemma NewlineIn(text: string, more: string)
    requires Newline(text) < |text|
    ensures Newline(text + more) == Newline(text)
    decreases |text|
  {
    if text[0] != '\n' {
      assert (text + more)[1..] == text[1..] + more;
      NewlineIn(text[1..], more);
    }
  }

  /** However the output is cut into chunks, the same is heard. */
  lemma {:induction false} ChunksAreHeardAlike(
      text: string, more: string, classify: string -> Line, started: bool, heard: Heard)
    requires Hear(text, classify, started, heard).ok
    ensures var first := Hear(text, classify, started, heard);
            Hear(text + more, classify, started, heard) == Hear(first.pending + more, classify, started, first.heard)
    decreases |text|
  {
    var n := Newline(text);
    if n < |text| {
      NewlineIn(text, more);
      var next := HearLine(classify(text[..n]), started, heard);
      assert (text + more)[..n] == text[..n];
      assert (text + more)[n + 1..] == text[n + 1..] + more;
      ChunksAreHeardAlike(text[n + 1..], more, classify, started, next.value);
    }
  }

  // ----- What happened, in order -----

  datatype Phase = Initial | Periodic | Final

  datatype Event =
    | OperationReady
    | Asks(phase: Phase)                 // starts to read the process tree's memory
    | Sampled(phase: Phase, bytes: nat)
    | Authorized
    | StartFile
    | OperationCompleted(milliseconds: nat)
    | FinishFile

  function Largest(trace: seq<Event>): nat {
    if trace == [] then 0
    else
      var rest, last := Largest(trace[..|trace| - 1]), trace[|trace| - 1];
      if last.Sampled? && last.bytes > rest then last.bytes else rest
  }

  function Samples(trace: seq<Event>, phase: Phase): nat {
    if trace == [] then 0
    else
      var last := trace[|trace| - 1];
      Samples(trace[..|trace| - 1], phase) + if last.Sampled? && last.phase == phase then 1 else 0
  }

  lemma {:induction false} LargestIsMaximum(trace: seq<Event>)
    ensures forall i | 0 <= i < |trace| && trace[i].Sampled? :: trace[i].bytes <= Largest(trace)
    ensures Largest(trace) != 0 ==> exists i | 0 <= i < |trace| :: trace[i].Sampled? && trace[i].bytes == Largest(trace)
  {
    if trace != [] {
      var front := trace[..|trace| - 1];
      LargestIsMaximum(front);
      if Largest(trace) == Largest(front) && Largest(trace) != 0 {
        var i :| 0 <= i < |front| && front[i].Sampled? && front[i].bytes == Largest(front);
        assert trace[i] == front[i];
      }
    }
  }

  /** The one place of an event. */
  predicate OnlyAt(trace: seq<Event>, i: nat, event: Event) {
    i < |trace| && trace[i] == event && forall k | 0 <= k < |trace| && trace[k] == event :: k == i
  }

  /** The one sample of a phase. */
  predicate OnlySample(trace: seq<Event>, i: nat, phase: Phase) {
    && i < |trace| && trace[i].Sampled? && trace[i].phase == phase
    && forall k | 0 <= k < |trace| && trace[k].Sampled? && trace[k].phase == phase :: k == i
  }

  /** The start file was written for an operation that was ready and then observed within the limit. */
  ghost predicate StartJustified(trace: seq<Event>, start: nat, limit: nat) {
    exists ready: nat, sample: nat, authorized: nat ::
      && OnlyAt(trace, ready, OperationReady) && OnlySample(trace, sample, Initial)
      && OnlyAt(trace, authorized, Authorized)
      && ready < sample < authorized < start && trace[sample].bytes <= limit
  }

  /** The finish file was written after a completion that followed the authorization, and a later observation. */
  ghost predicate FinishJustified(trace: seq<Event>, finish: nat, limit: nat) {
    exists authorized: nat, completed: nat, asks: nat, sample: nat ::
      && OnlyAt(trace, authorized, Authorized)
      && completed < |trace| && trace[completed].OperationCompleted?
      && OnlyAt(trace, asks, Asks(Final)) && OnlySample(trace, sample, Final)
      && authorized < completed < asks < sample < finish && trace[sample].bytes <= limit
  }

  // ----- Where the events stand -----

  datatype Monitor =
    | AwaitsReady | Sampling(phase: Phase) | WritesStart | Races | WritesFinish | Done | Failed

  datatype Settled = Open | Resolved | Rejected

  /** Where the events that happen once stand, if they happened. */
  datatype Places = Places(
    ready: Option<nat>, initial: Option<nat>, authorized: Option<nat>,
    completed: Option<nat>, asksFinal: Option<nat>, final: Option<nat>)

  /** An event that happens at most once stands at its place. */
  ghost predicate Placed(trace: seq<Event>, places: Places) {
    forall k | 0 <= k < |trace| ::
      match trace[k]
      case OperationReady => places.ready == Some(k)
      case Asks(phase) => phase == Final ==> places.asksFinal == Some(k)
      case Sampled(phase, _) =>
        (phase == Initial ==> places.initial == Some(k)) && (phase == Final ==> places.final == Some(k))
      case Authorized => places.authorized == Some(k)
      case OperationCompleted(_) => places.completed == Some(k)
      case StartFile => places.authorized.Some? && places.authorized.value < k
      case FinishFile => places.final.Some? && places.final.value < k
  }

  /** The places name those events, each after those it needs. */
  ghost predicate Sequenced(trace: seq<Event>, places: Places) {
    && (places.ready.Some? ==> places.ready.value < |trace| && trace[places.ready.value] == OperationReady)
    && (places.initial.Some? ==>
          && places.initial.value < |trace| && trace[places.initial.value].Sampled?
          && trace[places.initial.value].phase == Initial
          && places.ready.Some? && places.ready.value < places.initial.value)
    && (places.authorized.Some? ==>
          && places.authorized.value < |trace| && trace[places.authorized.value] == Authorized
          && places.initial.Some? && places.initial.value < places.authorized.value)
    && (places.completed.Some? ==>
          && places.completed.value < |trace| && trace[places.completed.value].OperationCompleted?
          && places.authorized.Some? && places.authorized.value < places.completed.value)
    && (places.asksFinal.Some? ==>
          && places.asksFinal.value < |trace| && trace[places.asksFinal.value] == Asks(Final)
          && places.completed.Some? && places.completed.value < places.asksFinal.value)
    && (places.final.Some? ==>
          && places.final.value < |trace| && trace[places.final.value].Sampled?
          && trace[places.final.value].phase == Final
          && places.asksFinal.Some? && places.asksFinal.value < places.final.value)
  }

  /** Every sample taken was within the limit. */
  predicate WithinLimit(trace: seq<Event>, limit: nat) {
    forall k | 0 <= k < |trace| && trace[k].Sampled? :: trace[k].bytes <= limit
  }

  lemma StartIsJustified(trace: seq<Event>, places: Places, limit: nat, start: nat)
    requires Placed(trace, places) && Sequenced(trace, places)
    requires places.authorized.Some? ==> SampleWithin(trace, places.initial, limit)
    requires start < |trace| && trace[start] == StartFile
    ensures StartJustified(trace, start, limit)
  {
    var ready, sample, authorized := places.ready.value, places.initial.value, places.authorized.value;
    assert OnlyAt(trace, ready, OperationReady) && OnlySample(trace, sample, Initial);
    assert OnlyAt(trace, authorized, Authorized);
  }

  lemma FinishIsJustified(trace: seq<Event>, places: Places, limit: nat, finish: nat)
    requires Placed(trace, places) && Sequenced(trace, places)
    requires finish < |trace| && trace[finish] == FinishFile && SampleWithin(trace, places.final, limit)
    ensures FinishJustified(trace, finish, limit)
  {
    var authorized, completed := places.authorized.value, places.completed.value;
    var asks, sample := places.asksFinal.value, places.final.value;
    assert OnlyAt(trace, authorized, Authorized) && OnlyAt(trace, asks, Asks(Final));
    assert OnlySample(trace, sample, Final);
  }

  // ----- The guard -----

  datatype State = State(
    readySeen: bool, started: bool, completionSeen: Option<nat>, finishReleased: bool, pending: string,
    ready: Settled, completed: Settled, monitor: Monitor,
    peakMemory: nat, initial: nat, periodic: nat, final: nat,
    trace: seq<Event>, places: Places)

  datatype Step =
    | Observe(chunk: string)
    | Stop
    | ReadyAwaited
    | SampleReturned(bytes: Option<int>)  // what reading the memory gave, if anything
    | StartAppears
    | StartReturned(written: bool)
    | RaceWon(timer: bool)
    | FinishAppears
    | FinishReturned(written: bool)

  function Begin(): State {
    State(false, false, None, false, "", Open, Open, AwaitsReady, 0, 0, 0, 0, [],
          Places(None, None, None, None, None, None))
  }

  /** A promise settles once. */
  function Settle(promise: Settled, outcome: Settled): Settled {
    if promise == Open then outcome else promise
  }

  function HearsReady(s: State): State {
    s.(readySeen := true, ready := Settle(s.ready, Resolved),
       trace := s.trace + [OperationReady], places := s.places.(ready := Some(|s.trace|)))
  }

  function HearsCompleted(s: State, milliseconds: nat): State {
    s.(completionSeen := Some(milliseconds), completed := Settle(s.completed, Resolved),
       trace := s.trace + [OperationCompleted(milliseconds)], places := s.places.(completed := Some(|s.trace|)))
  }

  function HeardSoFar(s: State): Heard {
    Heard(s.readySeen, s.completionSeen)
  }

  /** A state after some events were heard, within one chunk. */
  function Reached(s: State, heard: Heard): State {
    var s1 := if heard.ready && !s.readySeen then HearsReady(s) else s;
    if heard.completed.Some? && s.completionSeen.None? then HearsCompleted(s1, heard.completed.value) else s1
  }

  function AfterObserve(s: State, classify: string -> Line, chunk: string): State {
    var outcome := Hear(s.pending + chunk, classify, s.started, HeardSoFar(s));
    Reached(s, outcome.heard).(pending := outcome.pending)
  }

  function AfterStop(s: State): State {
    if s.finishReleased then s
    else s.(ready := Settle(s.ready, Rejected), completed := Settle(s.completed, Rejected))
  }

  /** The monitor starts to sample. */
  function AsksFor(s: State, phase: Phase): State {
    s.(monitor := Sampling(phase), trace := s.trace + [Asks(phase)],
       places := if phase == Final then s.places.(asksFinal := Some(|s.trace|)) else s.places)
  }

  function Recorded(s: State, phase: Phase, bytes: nat): State {
    var s' := s.(peakMemory := if bytes > s.peakMemory then bytes else s.peakMemory,
                 trace := s.trace + [Sampled(phase, bytes)]);
    match phase
    case Initial => s'.(initial := s.initial + 1, places := s.places.(initial := Some(|s.trace|)))
    case Periodic => s'.(periodic := s.periodic + 1)
    case Final => s'.(final := s.final + 1, places := s.places.(final := Some(|s.trace|)))
  }

  /** What the monitor does once a sample within the limit was taken. */
  function GoesOn(s: State, phase: Phase): State {
    match phase
    case Initial =>
      s.(started := true, monitor := WritesStart,
         trace := s.trace + [Authorized], places := s.places.(authorized := Some(|s.trace|)))
    case Periodic => s.(monitor := Races)
    case Final => s.(finishReleased := true, monitor := WritesFinish)
  }

  /** A reading that counts: a positive integer that the number holds exactly. */
  predicate Observed(bytes: Option<int>) {
    bytes.Some? && 0 < bytes.value <= MAX_SAFE
  }

  function AfterSample(s: State, phase: Phase, bytes: Option<int>, limit: nat): State {
    if !Observed(bytes) then s.(monitor := Failed)
    else if bytes.value > limit then Recorded(s, phase, bytes.value).(monitor := Failed)
    else GoesOn(Recorded(s, phase, bytes.value), phase)
  }

  predicate Next(s: State, classify: string -> Line, limit: nat, step: Step, s': State) {
    match step
    case Observe(chunk) => s' == AfterObserve(s, classify, chunk)
    case Stop => s' == AfterStop(s)
    case ReadyAwaited =>
      && s.monitor == AwaitsReady && s.ready != Open
      && s' == if s.ready == Resolved then AsksFor(s, Initial) else s.(monitor := Failed)
    case SampleReturned(bytes) => s.monitor.Sampling? && s' == AfterSample(s, s.monitor.phase, bytes, limit)
    case StartAppears => s.monitor == WritesStart && s' == s.(trace := s.trace + [StartFile])
    case StartReturned(written) => s.monitor == WritesStart && s' == s.(monitor := if written then Races else Failed)
    case RaceWon(timer) =>
      && s.monitor == Races && (timer || s.completed != Open)
      && s' == if timer then AsksFor(s, Periodic)
               else if s.completed == Resolved then AsksFor(s, Final)
               else s.(monitor := Failed)
    case FinishAppears => s.monitor == WritesFinish && s' == s.(trace := s.trace + [FinishFile])
    case FinishReturned(written) => s.monitor == WritesFinish && s' == s.(monitor := if written then Done else Failed)
  }

  ghost predicate Execution(states: seq<State>, classify: string -> Line, limit: nat, steps: seq<Step>) {
    && |states| == |steps| + 1 && states[0] == Begin()
    && forall i {:trigger steps[i]} | 0 <= i < |steps| :: Next(states[i], classify, limit, steps[i], states[i + 1])
  }

  // ----- The invariant -----

  /** How far the monitor is shows in the trace. */
  predicate Follows(s: State) {
    && (s.readySeen <==> s.places.ready.Some?) && (s.ready == Resolved ==> s.readySeen)
    && (s.started <==> s.places.authorized.Some?)
    && (s.completionSeen.Some? <==> s.places.completed.Some?) && (s.completed == Resolved ==> s.completionSeen.Some?)
    && (s.finishReleased ==> s.places.final.Some?)
    && match s.monitor
       case AwaitsReady => s.places.initial.None? && !s.started && s.places.asksFinal.None?
       case Sampling(phase) =>
         && !s.finishReleased && s.places.final.None? && (phase == Final <==> s.places.asksFinal.Some?)
         && if phase == Initial then s.readySeen && s.places.initial.None? && !s.started else s.started
       case WritesStart => s.started && !s.finishReleased && s.places.asksFinal.None? && s.places.final.None?
       case Races => s.started && !s.finishReleased && s.places.asksFinal.None? && s.places.final.None?
       case WritesFinish => s.started && s.finishReleased
       case Done => s.started && s.finishReleased
       case Failed => true
  }

  predicate Tallies(s: State) {
    && s.peakMemory == Largest(s.trace)
    && s.initial == Samples(s.trace, Initial) && s.periodic == Samples(s.trace, Periodic)
    && s.final == Samples(s.trace, Final)
  }

  predicate SampleWithin(trace: seq<Event>, place: Option<nat>, limit: nat) {
    place.Some? && place.value < |trace| && trace[place.value].Sampled? && trace[place.value].bytes <= limit
  }

  /** Nobody goes on after a sample beyond the limit. */
  predicate Limited(s: State, limit: nat) {
    && (s.monitor != Failed ==> WithinLimit(s.trace, limit))
    && (s.started ==> SampleWithin(s.trace, s.places.initial, limit))
    && (s.finishReleased ==> SampleWithin(s.trace, s.places.final, limit))
    && (FinishFile in s.trace ==> s.finishReleased)
  }

  ghost predicate Inv(s: State, limit: nat) {
    Placed(s.trace, s.places) && Sequenced(s.trace, s.places) && Follows(s) && Tallies(s) && Limited(s, limit)
  }

  /** An event that is no sample changes no tally and no limit. */
  lemma QuietEvent(s: State, s': State, event: Event, limit: nat)
    requires s'.trace == s.trace + [event] && !event.Sampled?
    requires s'.peakMemory == s.peakMemory
    requires s'.initial == s.initial && s'.periodic == s.periodic && s'.final == s.final
    requires Tallies(s)
    ensures Tallies(s') && WithinLimit(s'.trace, limit) == WithinLimit(s.trace, limit)
  {
    assert s'.trace[..|s.trace|] == s.trace;
    if WithinLimit(s'.trace, limit) {
      forall k | 0 <= k < |s.trace| && s.trace[k].Sampled? ensures s.trace[k].bytes <= limit {
        assert s'.trace[k] == s.trace[k];
      }
    }
  }

  lemma HearsReadyKeeps(s: State, limit: nat)
    requires Inv(s, limit) && !s.readySeen
    ensures Inv(HearsReady(s), limit)
  {
    QuietEvent(s, HearsReady(s), OperationReady, limit);
  }

  lemma HearsCompletedKeeps(s: State, milliseconds: nat, limit: nat)
    requires Inv(s, limit) && s.completionSeen.None? && s.started
    ensures Inv(HearsCompleted(s, milliseconds), limit)
  {
    QuietEvent(s, HearsCompleted(s, milliseconds), OperationCompleted(milliseconds), limit);
  }

  /** Nothing once heard is taken back, and a completion is heard only after the start was authorized. */
  lemma {:induction false} HearOnlyAdds(text: string, classify: string -> Line, started: bool, heard: Heard)
    ensures var after := Hear(text, classify, started, heard).heard;
            && (heard.ready ==> after.ready)
            && (heard.completed.Some? ==> after.completed == heard.completed)
            && (after.completed.Some? && heard.completed.None? ==> started)
    decreases |text|
  {
    var n := Newline(text);
    if n < |text| {
      var next := HearLine(classify(text[..n]), started, heard);
      if next.Some? {
        HearOnlyAdds(text[n + 1..], classify, started, next.value);
      }
    }
  }

  lemma ObserveKeeps(s: State, classify: string -> Line, chunk: string, limit: nat)
    requires Inv(s, limit)
    ensures Inv(AfterObserve(s, classify, chunk), limit)
  {
    var outcome := Hear(s.pending + chunk, classify, s.started, HeardSoFar(s));
    HearOnlyAdds(s.pending + chunk, classify, s.started, HeardSoFar(s));
    var s1 := s;
    if outcome.heard.ready && !s.readySeen {
      HearsReadyKeeps(s, limit);
      s1 := HearsReady(s);
    }
    if outcome.heard.completed.Some? && s.completionSeen.None? {
      HearsCompletedKeeps(s1, outcome.heard.completed.value, limit);
    }
  }

  lemma AsksKeeps(s: State, phase: Phase, limit: nat)
    requires Inv(s, limit)
    requires if phase == Initial
             then s.monitor == AwaitsReady && s.readySeen && s.places.final.None? && !s.finishReleased
             else s.monitor == Races
    requires phase == Final ==> s.completed == Resolved
    ensures Inv(AsksFor(s, phase), limit)
  {
    QuietEvent(s, AsksFor(s, phase), Asks(phase), limit);
  }

  lemma RecordedIsPlaced(s: State, bytes: nat)
    requires Placed(s.trace, s.places) && Sequenced(s.trace, s.places) && Follows(s) && s.monitor.Sampling?
    ensures var s' := Recorded(s, s.monitor.phase, bytes);
            Placed(s'.trace, s'.places)
  {
  }

  lemma RecordedIsSequenced(s: State, bytes: nat)
    requires Sequenced(s.trace, s.places) && Follows(s) && s.monitor.Sampling?
    ensures var s' := Recorded(s, s.monitor.phase, bytes);
            Sequenced(s'.trace, s'.places)
  {
  }

  lemma RecordedKeeps(s: State, bytes: nat, limit: nat)
    requires Inv(s, limit) && s.monitor.Sampling?
    ensures var s' := Recorded(s, s.monitor.phase, bytes);
            && Placed(s'.trace, s'.places) && Sequenced(s'.trace, s'.places) && Tallies(s')
            && (bytes <= limit ==> WithinLimit(s'.trace, limit))
            && Limited(s'.(monitor := Failed), limit)
  {
    var s' := Recorded(s, s.monitor.phase, bytes);
    RecordedIsPlaced(s, bytes);
    RecordedIsSequenced(s, bytes);
    RecordedTallies(s, s.monitor.phase, bytes);
    SampleStaysWithin(s.trace, Sampled(s.monitor.phase, bytes), limit);
    if s.started {
      assert s'.places.initial == s.places.initial;
    }
  }

  lemma SampleStaysWithin(trace: seq<Event>, event: Event, limit: nat)
    requires event.Sampled?
    ensures WithinLimit(trace, limit) && event.bytes <= limit ==> WithinLimit(trace + [event], limit)
  {
  }

  lemma RecordedTallies(s: State, phase: Phase, bytes: nat)
    requires Tallies(s)
    ensures Tallies(Recorded(s, phase, bytes))
  {
    TallyStep(s.trace, Sampled(phase, bytes), Initial);
    TallyStep(s.trace, Sampled(phase, bytes), Periodic);
    TallyStep(s.trace, Sampled(phase, bytes), Final);
  }

  lemma TallyStep(trace: seq<Event>, event: Event, phase: Phase)
    ensures Samples(trace + [event], phase) ==
            Samples(trace, phase) + if event.Sampled? && event.phase == phase then 1 else 0
    ensures Largest(trace + [event]) ==
            if event.Sampled? && event.bytes > Largest(trace) then event.bytes else Largest(trace)
  {
    assert (trace + [event])[..|trace|] == trace;
  }

  lemma GoesOnKeeps(s: State, bytes: nat, limit: nat)
    requires Inv(s, limit) && s.monitor.Sampling? && bytes <= limit
    ensures Inv(GoesOn(Recorded(s, s.monitor.phase, bytes), s.monitor.phase), limit)
  {
    var phase := s.monitor.phase;
    RecordedKeeps(s, bytes, limit);
    var s1 := Recorded(s, phase, bytes);
    if phase == Initial {
      QuietEvent(s1, GoesOn(s1, phase), Authorized, limit);
    }
  }

  lemma AppearsKeeps(s: State, event: Event, limit: nat)
    requires Inv(s, limit)
    requires if event == StartFile then s.monitor == WritesStart else event == FinishFile && s.monitor == WritesFinish
    ensures Inv(s.(trace := s.trace + [event]), limit)
  {
    QuietEvent(s, s.(trace := s.trace + [event]), event, limit);
  }

  lemma SampleKeeps(s: State, bytes: Option<int>, limit: nat)
    requires Inv(s, limit) && s.monitor.Sampling?
    ensures Inv(AfterSample(s, s.monitor.phase, bytes, limit), limit)
  {
    if Observed(bytes) {
      if bytes.value <= limit {
        GoesOnKeeps(s, bytes.value, limit);
      } else {
        RecordedKeeps(s, bytes.value, limit);
      }
    }
  }

  /** The monitor may give up at any time, go on from a written file, and promises may be rejected. */
  lemma QuietKeeps(s: State, s': State, limit: nat)
    requires Inv(s, limit)
    requires s' == s.(monitor := s'.monitor, ready := s'.ready, completed := s'.completed)
    requires s'.ready == s.ready || s'.ready == Rejected
    requires s'.completed == s.completed || s'.completed == Rejected
    requires s'.monitor == s.monitor || s'.monitor == Failed
             || (s.monitor == WritesStart && s'.monitor == Races) || (s.monitor == WritesFinish && s'.monitor == Done)
    ensures Inv(s', limit)
  {
  }

  lemma NextKeepsInv(s: State, classify: string -> Line, limit: nat, step: Step, s': State)
    requires Inv(s, limit) && Next(s, classify, limit, step, s')
    ensures Inv(s', limit)
  {
    if step.Observe? {
      ObserveKeeps(s, classify, step.chunk, limit);
    } else if step.SampleReturned? {
      SampleKeeps(s, step.bytes, limit);
    } else if step.StartAppears? {
      AppearsKeeps(s, StartFile, limit);
    } else if step.FinishAppears? {
      AppearsKeeps(s, FinishFile, limit);
    } else if step.ReadyAwaited? && s.ready == Resolved {
      AsksKeeps(s, Initial, limit);
    } else if step.RaceWon? && step.timer {
      AsksKeeps(s, Periodic, limit);
    } else if step.RaceWon? && s.completed == Resolved {
      AsksKeeps(s, Final, limit);
    } else {
      QuietKeeps(s, s', limit);
    }
  }

  lemma {:induction false} ReachableInv(
      states: seq<State>, classify: string -> Line, limit: nat, steps: seq<Step>, i: nat)
    requires Execution(states, classify, limit, steps) && i < |states|
    ensures Inv(states[i], limit)
  {
    if i > 0 {
      ReachableInv(states, classify, limit, steps, i - 1);
      NextKeepsInv(states[i - 1], classify, limit, steps[i - 1], states[i]);
    }
  }

  // ----- What the files and the result prove -----

  /** A start file proves readiness, one observation within the limit and the authorization after it. */
  lemma StartFileIsJustified(
      states: seq<State>, classify: string -> Line, limit: nat, steps: seq<Step>, i: nat, start: nat)
    requires Execution(states, classify, limit, steps) && i < |states|
    requires start < |states[i].trace| && states[i].trace[start] == StartFile
    ensures StartJustified(states[i].trace, start, limit)
  {
    ReachableInv(states, classify, limit, steps, i);
    StartIsJustified(states[i].trace, states[i].places, limit, start);
  }

  /** A finish file proves a completion after the start, and an observation asked for only after it. */
  lemma FinishFileIsJustified(
      states: seq<State>, classify: string -> Line, limit: nat, steps: seq<Step>, i: nat, finish: nat)
    requires Execution(states, classify, limit, steps) && i < |states|
    requires finish < |states[i].trace| && states[i].trace[finish] == FinishFile
    ensures FinishJustified(states[i].trace, finish, limit)
  {
    ReachableInv(states, classify, limit, steps, i);
    FinishIsJustified(states[i].trace, states[i].places, limit, finish);
  }

  /**
   A successful guard took one initial and one final sample, and its peak is the largest of all
   samples, within the limit.
   */
  lemma SuccessIsObserved(states: seq<State>, classify: string -> Line, limit: nat, steps: seq<Step>, i: nat)
    requires Execution(states, classify, limit, steps) && i < |states| && states[i].monitor == Done
    ensures states[i].initial == 1 && states[i].final == 1 && states[i].completionSeen.Some?
    ensures states[i].periodic == Samples(states[i].trace, Periodic)
    ensures states[i].peakMemory == Largest(states[i].trace) <= limit && WithinLimit(states[i].trace, limit)
  {
    ReachableInv(states, classify, limit, steps, i);
    var s := states[i];
    LargestIsMaximum(s.trace);
    OneSample(s.trace, s.places.initial.value, Initial);
    OneSample(s.trace, s.places.final.value, Final);
  }

  lemma {:induction false} OneSample(trace: seq<Event>, place: nat, phase: Phase)
    requires OnlySample(trace, place, phase)
    ensures Samples(trace, phase) == 1
  {
    var n := |trace| - 1;
    if place == n {
      NoSample(trace[..n], phase);
    } else {
      OneSample(trace[..n], place, phase);
    }
  }

  lemma {:induction false} NoSample(trace: seq<Event>, phase: Phase)
    requires forall k | 0 <= k < |trace| && trace[k].Sampled? :: trace[k].phase != phase
    ensures Samples(trace, phase) == 0
  {
    if trace != [] {
      NoSample(trace[..|trace| - 1], phase);
    }
  }

  // ----- The guard's own code -----

  class GatedGuard {
    const memoryLimit: nat
    const classify: string -> Line
    var readySeen: bool
    var started: bool
    var completionSeen: Option<nat>
    var finishReleased: bool
    var pending: string
    var ready: Settled
    var completed: Settled
    var monitor: Monitor
    var peakMemory: nat
    var initial: nat
    var periodic: nat
    var final: nat
    ghost var trace: seq<Event>
    ghost var places: Places

    ghost function View(): State
      reads this
    {
      State(readySeen, started, completionSeen, finishReleased, pending, ready, completed, monitor,
            peakMemory, initial, periodic, final, trace, places)
    }

    constructor (memoryLimit: nat, classify: string -> Line)
      ensures View() == Begin() && this.memoryLimit == memoryLimit && this.classify == classify
    {
      this.memoryLimit, this.classify := memoryLimit, classify;
      readySeen, started, completionSeen, finishReleased, pending := false, false, None, false, "";
      ready, completed, monitor := Open, Open, AwaitsReady;
      peakMemory, initial, periodic, final := 0, 0, 0, 0;
      trace, places := [], Places(None, None, None, None, None, None);
    }

    method SeesReady()
      modifies this
      ensures View() == HearsReady(old(View()))
    {
      readySeen := true;
      ready := if ready == Open then Resolved else ready;
      trace, places := trace + [OperationReady], places.(ready := Some(|trace|));
    }

    method SeesCompleted(milliseconds: nat)
      modifies this
      ensures View() == HearsCompleted(old(View()), milliseconds)
    {
      completionSeen := Some(milliseconds);
      completed := if completed == Open then Resolved else completed;
      trace, places := trace + [OperationCompleted(milliseconds)], places.(completed := Some(|trace|));
    }

    /** One output line; false where it is refused. */
    method SeesLine(line: Line) returns (ok: bool)
      modifies this
      ensures ok == HearLine(line, old(started), HeardSoFar(old(View()))).Some?
      ensures !ok <==>
              || line == Malformed || (line == Ready && old(readySeen))
              || (line.Completed? && (!old(started) || old(completionSeen).Some? || line.milliseconds.None?))
      ensures readySeen <==> old(readySeen) || line == Ready
      ensures completionSeen == if line.Completed? && ok then line.milliseconds else old(completionSeen)
      ensures View() ==
              if line == Ready && ok then HearsReady(old(View()))
              else if line.Completed? && ok then HearsCompleted(old(View()), line.milliseconds.value)
              else old(View())
    {
      ok := true;
      match line {
        case Skipped =>
        case Malformed => ok := false;
        case Ready =>
          if readySeen {
            return false;
          }
          SeesReady();
        case Completed(milliseconds) =>
          if !started || completionSeen.Some? || milliseconds.None? {
            return false;
          }
          SeesCompleted(milliseconds.value);
      }
    }

    /** Takes the first pending line and handles it. */
    method SeesNextLine(ghost before: State) returns (ok: bool)
      requires Within(before, View()) && '\n' in pending
      modifies this
      ensures Within(before, View()) && |pending| < |old(pending)| && started == old(started)
      ensures Hear(old(pending), classify, started, HeardSoFar(old(View()))) ==
              if ok then Hear(pending, classify, started, HeardSoFar(View()))
              else Outcome(HeardSoFar(View()), pending, false)
    {
      var n := Newline(pending);
      HasNewline(pending);
      HearStep(pending, classify, started, HeardSoFar(View()));
      var line := classify(pending[..n]);
      pending := pending[n + 1..];
      OneMoreLine(before, View(), line);
      ok := SeesLine(line);
    }

    /** Reads the whole lines that have arrived; stops at the first that is refused. */
    method ObserveStdout(chunk: string) returns (ok: bool)
      requires started ==> readySeen
      modifies this
      ensures Next(old(View()), classify, memoryLimit, Observe(chunk), View())
      ensures ok == Hear(old(pending) + chunk, classify, old(started), HeardSoFar(old(View()))).ok
    {
      ghost var before, text := View(), pending + chunk;
      pending := pending + chunk;
      ok := true;
      while ok && '\n' in pending
        invariant Within(before, View())
        invariant if ok
                  then Hear(text, classify, started, HeardSoFar(before)) ==
                       Hear(pending, classify, started, HeardSoFar(View()))
                  else Hear(text, classify, started, HeardSoFar(before)) == Outcome(HeardSoFar(View()), pending, false)
        decreases |pending|, ok
      {
        ok := SeesNextLine(before);
      }
      if ok {
        HasNewline(pending);
        HearStep(pending, classify, started, HeardSoFar(View()));
      }
    }

    method StopMonitoring()
      modifies this
      ensures Next(old(View()), classify, memoryLimit, Stop, View())
    {
      if finishReleased {
        return;
      }
      ready := if ready == Open then Rejected else ready;
      completed := if completed == Open then Rejected else completed;
    }

    method AwaitsReadyDone()
      requires monitor == AwaitsReady && ready != Open
      modifies this
      ensures Next(old(View()), classify, memoryLimit, ReadyAwaited, View())
    {
      if ready == Rejected {
        monitor := Failed;
        return;
      }
      monitor := Sampling(Initial);
      trace := trace + [Asks(Initial)];
    }

    method Records(phase: Phase, bytes: nat)
      modifies this
      ensures View() == Recorded(old(View()), phase, bytes)
    {
      match phase {
        case Initial => initial, places := initial + 1, places.(initial := Some(|trace|));
        case Periodic => periodic := periodic + 1;
        case Final => final, places := final + 1, places.(final := Some(|trace|));
      }
      trace := trace + [Sampled(phase, bytes)];
      peakMemory := if bytes > peakMemory then bytes else peakMemory;
    }

    method Proceeds(phase: Phase)
      modifies this
      ensures View() == GoesOn(old(View()), phase)
    {
      match phase {
        case Initial =>
          started, monitor := true, WritesStart;
          trace, places := trace + [Authorized], places.(authorized := Some(|trace|));
        case Periodic => monitor := Races;
        case Final => finishReleased, monitor := true, WritesFinish;
      }
    }

    /** Reading the memory returned: records the sample, checks it and goes on to the next await. */
    method SampleTaken(bytes: Option<int>)
      requires monitor.Sampling?
      modifies this
      ensures Next(old(View()), classify, memoryLimit, SampleReturned(bytes), View())
    {
      var phase := monitor.phase;
      if !Observed(bytes) {
        monitor := Failed;
        return;
      }
      Records(phase, bytes.value);
      if bytes.value > memoryLimit {
        monitor := Failed;
      } else {
        Proceeds(phase);
      }
    }

    method RaceDone(timer: bool)
      requires monitor == Races && (timer || completed != Open)
      modifies this
      ensures Next(old(View()), classify, memoryLimit, RaceWon(timer), View())
    {
      if timer {
        monitor, trace := Sampling(Periodic), trace + [Asks(Periodic)];
      } else if completed == Resolved {
        places := places.(asksFinal := Some(|trace|));
        monitor, trace := Sampling(Final), trace + [Asks(Final)];
      } else {
        monitor := Failed;
      }
    }

    method FileWritten(written: bool)
      requires monitor == WritesStart || monitor == WritesFinish
      modifies this
      ensures Next(old(View()), classify, memoryLimit,
                if old(monitor) == WritesStart then StartReturned(written) else FinishReturned(written), View())
    {
      monitor := if !written then Failed else if monitor == WritesStart then Races else Done;
    }
  }

  /** A state in the middle of a chunk: only what the chunk's lines say has changed. */
  predicate Within(before: State, s: State) {
    && s.started == before.started && (s.started ==> before.readySeen)
    && (s.completionSeen.Some? && before.completionSeen.None? ==> s.started)
    && s == Reached(before, HeardSoFar(s)).(pending := s.pending)
  }

  lemma OneMoreLine(before: State, s: State, line: Line)
    requires Within(before, s)
    ensures line == Ready && !s.readySeen ==> Within(before, HearsReady(s))
    ensures line.Completed? && line.milliseconds.Some? && s.started && s.completionSeen.None? ==>
              Within(before, HearsCompleted(s, line.milliseconds.value))
  {
  }

  lemma HearStep(text: string, classify: string -> Line, started: bool, heard: Heard)
    ensures var n := Newline(text);
            Hear(text, classify, started, heard) ==
            if n == |text| then Outcome(heard, text, true)
            else
              var next := HearLine(classify(text[..n]), started, heard);
              if next.None? then Outcome(heard, text[n + 1..], false)
              else Hear(text[n + 1..], classify, started, next.value)
  {
  }

  lemma {:induction false} HasNewline(text: string)
    ensures '\n' in text <==> Newline(text) < |text|
  {
    var n := Newline(text);
    assert text == text[..n] + text[n..];
  }
}
