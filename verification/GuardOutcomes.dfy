/** When the guard fails and when it succeeds, over every interleaving, told by the steps alone. */
module GuardOutcomes {
  import opened Basics
  import opened GatedGuards

  /** A step by which the monitor gives up: an exit, a reading, or a write that failed. */
  predicate GivesUp(s: State, limit: nat, step: Step) {
    match step
    case ReadyAwaited => s.ready == Rejected
    case RaceWon(timer) => !timer && s.completed == Rejected
    case SampleReturned(bytes) => !(bytes.Some? && 1 <= bytes.value <= 0x1F_FFFF_FFFF_FFFF && bytes.value <= limit)
    case StartReturned(written) => !written
    case FinishReturned(written) => !written
    case _ => false
  }

  lemma StepGivesUp(s: State, classify: string -> Line, limit: nat, step: Step, s': State)
    requires Next(s, classify, limit, step, s')
    ensures s'.monitor == Failed <==> s.monitor == Failed || GivesUp(s, limit, step)
  {
  }

  lemma StepOutcome(s: State, classify: string -> Line, limit: nat, step: Step, s': State)
    requires Next(s, classify, limit, step, s')
    ensures s'.monitor == Done <==> s.monitor == Done || step == FinishReturned(true)
  {
  }

  ghost predicate GaveUp(states: seq<State>, limit: nat, steps: seq<Step>, i: nat)
    requires |states| == |steps| + 1 && i < |states|
  {
    exists k: nat :: k < i && GivesUp(states[k], limit, steps[k])
  }

  lemma GaveUpAt(states: seq<State>, classify: string -> Line, limit: nat, steps: seq<Step>, i: nat)
    requires Execution(states, classify, limit, steps) && i < |steps|
    requires states[i].monitor == Failed <==> GaveUp(states, limit, steps, i)
    ensures states[i + 1].monitor == Failed <==> GaveUp(states, limit, steps, i + 1)
  {
    StepGivesUp(states[i], classify, limit, steps[i], states[i + 1]);
  }

  lemma OutcomeAt(states: seq<State>, classify: string -> Line, limit: nat, steps: seq<Step>, i: nat)
    requires Execution(states, classify, limit, steps) && i < |steps|
    ensures states[i + 1].monitor == Done <==> states[i].monitor == Done || steps[i] == FinishReturned(true)
    ensures steps[i] == FinishReturned(true) ==> states[i].monitor == WritesFinish
  {
    StepOutcome(states[i], classify, limit, steps[i], states[i + 1]);
  }

  /** The guard fails exactly by one of those steps. */
  lemma {:induction false} FailsExactlyIfItGivesUp(
      states: seq<State>, classify: string -> Line, limit: nat, steps: seq<Step>, i: nat)
    requires Execution(states, classify, limit, steps) && i < |states|
    ensures states[i].monitor == Failed <==> GaveUp(states, limit, steps, i)
  {
    if i > 0 {
      FailsExactlyIfItGivesUp(states, classify, limit, steps, i - 1);
      GaveUpAt(states, classify, limit, steps, i - 1);
    }
  }

  /** The final sample was taken within the limit, and the finish file written after it. */
  ghost predicate Finishes(states: seq<State>, limit: nat, steps: seq<Step>, k: nat)
    requires |states| == |steps| + 1 && k < |steps|
  {
    && steps[k] == FinishReturned(true)
    && exists j: nat, bytes: int :: TakesFinal(states, limit, steps, j, bytes) && j < k
  }

  predicate TakesFinal(states: seq<State>, limit: nat, steps: seq<Step>, j: nat, bytes: int)
    requires |states| == |steps| + 1
  {
    && j < |steps| && states[j].monitor == Sampling(Final)
    && steps[j] == SampleReturned(Some(bytes)) && 1 <= bytes <= limit
  }

  /** The monitor writes its finish file only after the final sample. */
  lemma {:induction false} WritingFollowsTheFinalSample(
      states: seq<State>, classify: string -> Line, limit: nat, steps: seq<Step>, i: nat)
    requires Execution(states, classify, limit, steps) && i < |states| && states[i].monitor == WritesFinish
    ensures exists j: nat, bytes: int :: TakesFinal(states, limit, steps, j, bytes) && j < i
  {
    var s, step := states[i - 1], steps[i - 1];
    assert Next(s, classify, limit, step, states[i]);
    if s.monitor == WritesFinish {
      WritingFollowsTheFinalSample(states, classify, limit, steps, i - 1);
    } else {
      assert step.SampleReturned? && TakesFinal(states, limit, steps, i - 1, step.bytes.value);
    }
  }

  /** The guard succeeds exactly if the finish file, begun after the final sample, was written. */
  lemma {:induction false} SucceedsExactlyIfWritten(
      states: seq<State>, classify: string -> Line, limit: nat, steps: seq<Step>, i: nat)
    requires Execution(states, classify, limit, steps) && i < |states|
    ensures states[i].monitor == Done <==> exists k: nat :: k < i && Finishes(states, limit, steps, k)
  {
    if i > 0 {
      SucceedsExactlyIfWritten(states, classify, limit, steps, i - 1);
      DoneAt(states, classify, limit, steps, i - 1);
    }
  }

  lemma DoneAt(states: seq<State>, classify: string -> Line, limit: nat, steps: seq<Step>, i: nat)
    requires Execution(states, classify, limit, steps) && i < |steps|
    ensures states[i + 1].monitor == Done <==> states[i].monitor == Done || Finishes(states, limit, steps, i)
  {
    OutcomeAt(states, classify, limit, steps, i);
    if steps[i] == FinishReturned(true) {
      WritingFollowsTheFinalSample(states, classify, limit, steps, i);
    }
  }

  /** The monitor is past its start file. */
  predicate PastStart(monitor: Monitor) {
    match monitor
    case Races => true
    case Sampling(phase) => phase != Initial
    case WritesFinish => true
    case Done => true
    case _ => false
  }

  ghost predicate Started(steps: seq<Step>, i: nat)
    requires i <= |steps|
  {
    exists k: nat :: k < i && steps[k] == StartReturned(true)
  }

  lemma StepPasses(s: State, classify: string -> Line, limit: nat, step: Step, s': State)
    requires Next(s, classify, limit, step, s')
    ensures PastStart(s'.monitor) ==> PastStart(s.monitor) || step == StartReturned(true)
  {
  }

  lemma StepStarts(s: State, classify: string -> Line, limit: nat, step: Step, s': State)
    requires Next(s, classify, limit, step, s')
    ensures PastStart(s.monitor) || step == StartReturned(true) ==> PastStart(s'.monitor) || s'.monitor == Failed
    ensures s.monitor == Failed ==> s'.monitor == Failed
  {
  }

  lemma StartedAt(states: seq<State>, classify: string -> Line, limit: nat, steps: seq<Step>, i: nat)
    requires Execution(states, classify, limit, steps) && i < |steps|
    requires PastStart(states[i].monitor) ==> Started(steps, i)
    requires Started(steps, i) ==> PastStart(states[i].monitor) || states[i].monitor == Failed
    ensures PastStart(states[i + 1].monitor) ==> Started(steps, i + 1)
    ensures Started(steps, i + 1) ==> PastStart(states[i + 1].monitor) || states[i + 1].monitor == Failed
  {
    StepPasses(states[i], classify, limit, steps[i], states[i + 1]);
    StepStarts(states[i], classify, limit, steps[i], states[i + 1]);
  }

  /** The monitor goes on from its start file exactly if that was written, unless it gives up later. */
  lemma {:induction false} GoesOnExactlyIfStarted(
      states: seq<State>, classify: string -> Line, limit: nat, steps: seq<Step>, i: nat)
    requires Execution(states, classify, limit, steps) && i < |states|
    ensures PastStart(states[i].monitor) ==> Started(steps, i)
    ensures Started(steps, i) ==> PastStart(states[i].monitor) || states[i].monitor == Failed
  {
    if i > 0 {
      GoesOnExactlyIfStarted(states, classify, limit, steps, i - 1);
      StartedAt(states, classify, limit, steps, i - 1);
    }
  }

  // ----- The promises -----

  ghost predicate StoppedBefore(states: seq<State>, steps: seq<Step>, i: nat, ready: bool)
    requires |states| == |steps| + 1 && i < |states|
  {
    exists k: nat :: k < i && steps[k] == Stop
                     && if ready then !states[k].readySeen else states[k].completionSeen.None?
  }

  lemma StoppedAt(states: seq<State>, steps: seq<Step>, i: nat, ready: bool)
    requires |states| == |steps| + 1 && i < |steps|
    ensures StoppedBefore(states, steps, i + 1, ready) <==>
            || StoppedBefore(states, steps, i, ready)
            || (steps[i] == Stop && if ready then !states[i].readySeen else states[i].completionSeen.None?)
  {
  }

  lemma StepSettles(s: State, classify: string -> Line, limit: nat, step: Step, s': State)
    requires Inv(s, limit) && Next(s, classify, limit, step, s')
    requires s.readySeen ==> s.ready != Open
    requires s.completionSeen.Some? ==> s.completed != Open
    ensures s'.readySeen ==> s'.ready != Open
    ensures s'.completionSeen.Some? ==> s'.completed != Open
  {
    if step.Observe? {
      HearOnlyAdds(s.pending + step.chunk, classify, s.started, HeardSoFar(s));
    }
  }

  lemma StepPromises(s: State, classify: string -> Line, limit: nat, step: Step, s': State)
    requires Inv(s, limit) && Next(s, classify, limit, step, s')
    requires s.readySeen ==> s.ready != Open
    requires s.completionSeen.Some? ==> s.completed != Open
    ensures s'.ready == Rejected <==> s.ready == Rejected || (step == Stop && !s.readySeen)
    ensures s'.completed == Rejected <==> s.completed == Rejected || (step == Stop && s.completionSeen.None?)
  {
    if step.Observe? {
      HearOnlyAdds(s.pending + step.chunk, classify, s.started, HeardSoFar(s));
    }
  }

  lemma PromisesAt(states: seq<State>, classify: string -> Line, limit: nat, steps: seq<Step>, i: nat)
    requires Execution(states, classify, limit, steps) && i < |steps|
    requires states[i].readySeen ==> states[i].ready != Open
    requires states[i].completionSeen.Some? ==> states[i].completed != Open
    ensures var s, s', stop := states[i], states[i + 1], steps[i] == Stop;
            && (s'.readySeen ==> s'.ready != Open)
            && (s'.completionSeen.Some? ==> s'.completed != Open)
            && (s'.ready == Rejected <==> s.ready == Rejected || (stop && !s.readySeen))
            && (s'.completed == Rejected <==> s.completed == Rejected || (stop && s.completionSeen.None?))
  {
    ReachableInv(states, classify, limit, steps, i);
    StepSettles(states[i], classify, limit, steps[i], states[i + 1]);
    StepPromises(states[i], classify, limit, steps[i], states[i + 1]);
  }

  /** A promise is rejected exactly if the process ended before it was heard, and open only while neither happened. */
  lemma {:induction false} RejectedExactlyIfStopped(
      states: seq<State>, classify: string -> Line, limit: nat, steps: seq<Step>, i: nat)
    requires Execution(states, classify, limit, steps) && i < |states|
    ensures states[i].ready == Rejected <==> StoppedBefore(states, steps, i, true)
    ensures states[i].completed == Rejected <==> StoppedBefore(states, steps, i, false)
    ensures states[i].readySeen ==> states[i].ready != Open
    ensures states[i].completionSeen.Some? ==> states[i].completed != Open
  {
    if i > 0 {
      RejectedExactlyIfStopped(states, classify, limit, steps, i - 1);
      PromisesAt(states, classify, limit, steps, i - 1);
      StoppedAt(states, steps, i - 1, true);
      StoppedAt(states, steps, i - 1, false);
    }
  }

  // ----- Success is possible -----

  /** A reading that the guard takes. */
  predicate Acceptable(bytes: nat, limit: nat) {
    1 <= bytes <= 0x1F_FFFF_FFFF_FFFF && bytes <= limit
  }

  ghost predicate RunTo(states: seq<State>, classify: string -> Line, limit: nat, steps: seq<Step>, s: State) {
    Execution(states, classify, limit, steps) && states[|steps|] == s
  }

  lemma OneStep(
      states: seq<State>, classify: string -> Line, limit: nat, steps: seq<Step>, s: State, step: Step, s': State)
    requires RunTo(states, classify, limit, steps, s) && Next(s, classify, limit, step, s')
    ensures RunTo(states + [s'], classify, limit, steps + [step], s')
  {
    var all, moves := states + [s'], steps + [step];
    forall i | 0 <= i < |moves| ensures Next(all[i], classify, limit, moves[i], all[i + 1]) {
      if i < |steps| {
        assert all[i] == states[i] && moves[i] == steps[i] && all[i + 1] == states[i + 1];
      }
    }
  }

  lemma {:induction false} LineEnds(line: string)
    requires '\n' !in line
    ensures Newline(line + "\n") == |line|
  {
    if line != "" {
      assert (line + "\n")[1..] == line[1..] + "\n";
      LineEnds(line[1..]);
    }
  }

  lemma HearsOneLine(line: string, classify: string -> Line, started: bool, heard: Heard)
    requires '\n' !in line && HearLine(classify(line), started, heard).Some?
    ensures Hear(line + "\n", classify, started, heard) ==
            Outcome(HearLine(classify(line), started, heard).value, "", true)
  {
    LineEnds(line);
    assert (line + "\n")[..|line|] == line && (line + "\n")[|line| + 1..] == "";
  }

  /** The operation runs, the monitor races, and so many periodic samples were taken. */
  predicate Racing(s: State, samples: nat) {
    && s.monitor == Races && s.started && s.readySeen && s.completionSeen.None? && s.completed == Open
    && !s.finishReleased && s.pending == "" && s.periodic == samples && StartFile in s.trace
  }

  lemma Observes(s: State, classify: string -> Line, limit: nat, line: string, heard: Heard)
    requires s.pending == "" && '\n' !in line && HearLine(classify(line), s.started, HeardSoFar(s)) == Some(heard)
    ensures Next(s, classify, limit, Observe(line + "\n"), Reached(s, heard).(pending := ""))
  {
    HearsOneLine(line, classify, s.started, HeardSoFar(s));
    assert s.pending + (line + "\n") == line + "\n";
  }

  lemma RunStarts(classify: string -> Line, limit: nat, ready: string, initial: nat)
      returns (states: seq<State>, steps: seq<Step>, s: State)
    requires '\n' !in ready && classify(ready) == Ready && Acceptable(initial, limit)
    ensures RunTo(states, classify, limit, steps, s) && Racing(s, 0)
  {
    var s0 := Begin();
    Observes(s0, classify, limit, ready, Heard(true, None));
    var s1 := Reached(s0, Heard(true, None)).(pending := "");
    OneStep([s0], classify, limit, [], s0, Observe(ready + "\n"), s1);
    states, steps := [s0] + [s1], [] + [Observe(ready + "\n")];
    var s2 := AsksFor(s1, Initial);
    OneStep(states, classify, limit, steps, s1, ReadyAwaited, s2);
    states, steps := states + [s2], steps + [ReadyAwaited];
    var s3 := AfterSample(s2, Initial, Some(initial), limit);
    OneStep(states, classify, limit, steps, s2, SampleReturned(Some(initial)), s3);
    states, steps := states + [s3], steps + [SampleReturned(Some(initial))];
    var s4 := s3.(trace := s3.trace + [StartFile]);
    OneStep(states, classify, limit, steps, s3, StartAppears, s4);
    states, steps := states + [s4], steps + [StartAppears];
    s := s4.(monitor := Races);
    OneStep(states, classify, limit, steps, s4, StartReturned(true), s);
    states, steps := states + [s], steps + [StartReturned(true)];
  }

  lemma RunSamples(
      states: seq<State>, classify: string -> Line, limit: nat, steps: seq<Step>, s: State, n: nat, bytes: nat)
      returns (states': seq<State>, steps': seq<Step>, s': State)
    requires RunTo(states, classify, limit, steps, s) && Racing(s, n) && Acceptable(bytes, limit)
    ensures RunTo(states', classify, limit, steps', s') && Racing(s', n + 1)
  {
    var s1 := AsksFor(s, Periodic);
    OneStep(states, classify, limit, steps, s, RaceWon(true), s1);
    s' := AfterSample(s1, Periodic, Some(bytes), limit);
    OneStep(states + [s1], classify, limit, steps + [RaceWon(true)], s1, SampleReturned(Some(bytes)), s');
    states', steps' := states + [s1] + [s'], steps + [RaceWon(true)] + [SampleReturned(Some(bytes))];
  }

  lemma {:induction false} RunSamplesAll(
      classify: string -> Line, limit: nat, ready: string, initial: nat, periodic: seq<nat>)
      returns (states: seq<State>, steps: seq<Step>, s: State)
    requires '\n' !in ready && classify(ready) == Ready && Acceptable(initial, limit)
    requires forall bytes | bytes in periodic :: Acceptable(bytes, limit)
    ensures RunTo(states, classify, limit, steps, s) && Racing(s, |periodic|)
  {
    if periodic == [] {
      states, steps, s := RunStarts(classify, limit, ready, initial);
    } else {
      states, steps, s := RunSamplesAll(classify, limit, ready, initial, periodic[..|periodic| - 1]);
      states, steps, s :=
        RunSamples(states, classify, limit, steps, s, |periodic| - 1, periodic[|periodic| - 1]);
    }
  }

  lemma RunFinishes(
      states: seq<State>, classify: string -> Line, limit: nat, steps: seq<Step>, s: State, n: nat,
      done: string, final: nat)
      returns (states': seq<State>, steps': seq<Step>, s': State)
    requires RunTo(states, classify, limit, steps, s) && Racing(s, n) && Acceptable(final, limit)
    requires '\n' !in done && classify(done).Completed? && classify(done).milliseconds.Some?
    ensures RunTo(states', classify, limit, steps', s')
    ensures s'.monitor == Done && s'.periodic == n && StartFile in s'.trace && FinishFile in s'.trace
  {
    var heard := Heard(true, classify(done).milliseconds);
    Observes(s, classify, limit, done, heard);
    var s1 := Reached(s, heard).(pending := "");
    OneStep(states, classify, limit, steps, s, Observe(done + "\n"), s1);
    states', steps' := states + [s1], steps + [Observe(done + "\n")];
    var s2 := AsksFor(s1, Final);
    OneStep(states', classify, limit, steps', s1, RaceWon(false), s2);
    states', steps' := states' + [s2], steps' + [RaceWon(false)];
    var s3 := AfterSample(s2, Final, Some(final), limit);
    OneStep(states', classify, limit, steps', s2, SampleReturned(Some(final)), s3);
    states', steps' := states' + [s3], steps' + [SampleReturned(Some(final))];
    var s4 := s3.(trace := s3.trace + [FinishFile]);
    OneStep(states', classify, limit, steps', s3, FinishAppears, s4);
    states', steps' := states' + [s4], steps' + [FinishAppears];
    s' := s4.(monitor := Done);
    OneStep(states', classify, limit, steps', s4, FinishReturned(true), s');
    states', steps' := states' + [s'], steps' + [FinishReturned(true)];
  }

  /**
   Whatever acceptable readings come first, last and in between, some run takes them all, writes both
   files and succeeds.
   */
  lemma SuccessIsPossible(
      classify: string -> Line, limit: nat, ready: string, done: string, initial: nat, periodic: seq<nat>, final: nat)
      returns (states: seq<State>, steps: seq<Step>, s: State)
    requires '\n' !in ready && classify(ready) == Ready
    requires '\n' !in done && classify(done).Completed? && classify(done).milliseconds.Some?
    requires Acceptable(initial, limit) && Acceptable(final, limit)
    requires forall bytes | bytes in periodic :: Acceptable(bytes, limit)
    ensures Execution(states, classify, limit, steps) && states[|steps|] == s
    ensures s.monitor == Done && s.periodic == |periodic| && StartFile in s.trace && FinishFile in s.trace
  {
    states, steps, s := RunSamplesAll(classify, limit, ready, initial, periodic);
    states, steps, s := RunFinishes(states, classify, limit, steps, s, |periodic|, done, final);
  }
}
