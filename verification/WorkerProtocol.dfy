/** The worker server as a concurrent machine: each section under its mutex,
    each wait of a goroutine and each end of an engine is one step. */
module WorkerProtocol {

  datatype WorkerState = Idle | Prepared | Scheduled | Running | Stopped | Failed

  predicate Terminal(state: WorkerState) {
    state == Stopped || state == Failed
  }

  /** The goroutine that starts the engine of one generation.  `Claiming` has
      started it and is about to lock, `StoppingOwn` found the run gone. */
  datatype GoPc = Timing | StartingEngine | Failing | Claiming | StoppingOwn | AwaitingDone | Finalizing | Ended

  datatype Goroutine = Goroutine(runID: string, cancelled: bool, pc: GoPc)

  /** A stop request that found the run running and has unlocked. */
  datatype Handler = Handler(generation: nat, runID: string, engineEnded: bool)

  /** Engines, and the goroutines that start them, are known by the generation
      they were prepared for.  `runs` remembers the run of each generation. */
  datatype State = State(generation: nat, runID: string, state: WorkerState, goroutines: map<nat, Goroutine>,
                         engines: set<nat>, handlers: map<nat, Handler>, runs: map<nat, string>)

  datatype Step =
    | Prepare(runID: string)
    | Start(runID: string, inWindow: bool)
    | TimerFires(g: nat)
    | ContextDone(g: nat)
    | StartEngine(g: nat)
    | FailRun(g: nat)
    | Claim(g: nat)
    | OwnStopped(g: nat)
    | EngineEnds(g: nat)
    | DoneSeen(g: nat)
    | Finalize(g: nat)
    | StopRequest(runID: string, handler: nat)
    | StopReturns(handler: nat)
    | StopFinishes(handler: nat)

  function Init(): State {
    State(0, "", Idle, map[], {}, map[], map[])
  }

  predicate At(s: State, g: nat, pc: GoPc) {
    g in s.goroutines && s.goroutines[g].pc == pc
  }

  predicate Active(state: WorkerState) {
    state == Scheduled || state == Running
  }

  /** `newIDs` says that no run id is used twice. */
  predicate Enabled(s: State, step: Step, newIDs: bool) {
    match step
    case Prepare(runID) => newIDs ==> runID !in s.runs.Values
    case Start(_, _) => true
    case TimerFires(g) => At(s, g, Timing)
    case ContextDone(g) => At(s, g, Timing) && s.goroutines[g].cancelled
    case StartEngine(g) => At(s, g, StartingEngine)
    case FailRun(g) => At(s, g, Failing)
    case Claim(g) => At(s, g, Claiming)
    case OwnStopped(g) => At(s, g, StoppingOwn) && g !in s.engines
    case EngineEnds(g) => g in s.engines
    case DoneSeen(g) => At(s, g, AwaitingDone) && g !in s.engines
    case Finalize(g) => At(s, g, Finalizing)
    case StopRequest(_, handler) => handler !in s.handlers
    case StopReturns(handler) =>
      handler in s.handlers && !s.handlers[handler].engineEnded && s.handlers[handler].generation !in s.engines
    case StopFinishes(handler) => handler in s.handlers && s.handlers[handler].engineEnded
  }

  function Go(s: State, g: nat, pc: GoPc): State
    requires g in s.goroutines
  {
    s.(goroutines := s.goroutines[g := s.goroutines[g].(pc := pc)])
  }

  /** Call the cancel function of the schedule, if there is one. */
  function CancelSchedule(s: State): State {
    if At(s, s.generation, Timing) then
      s.(goroutines := s.goroutines[s.generation := s.goroutines[s.generation].(cancelled := true)])
    else s
  }

  function Mine(s: State, g: nat): bool
    requires g in s.goroutines
  {
    s.generation == g && s.runID == s.goroutines[g].runID
  }

  function Next(s: State, step: Step, newIDs: bool): State
    requires Enabled(s, step, newIDs)
  {
    match step
    case Prepare(runID) =>
      if Active(s.state) then s
      else
        CancelSchedule(s).(generation := s.generation + 1, runID := runID, state := Prepared,
                           runs := s.runs[s.generation + 1 := runID])
    case Start(runID, inWindow) =>
      if runID == "" || runID != s.runID || s.state != Prepared || !inWindow then s
      else s.(state := Scheduled, goroutines := s.goroutines[s.generation := Goroutine(runID, false, Timing)])
    case TimerFires(g) => Go(s, g, StartingEngine)
    case ContextDone(g) => Go(s, g, Ended)
    case StartEngine(g) =>
      if g in s.engines then Go(s, g, Failing) else Go(s.(engines := s.engines + {g}), g, Claiming)
    case FailRun(g) => Go(if Mine(s, g) then s.(state := Failed) else s, g, Ended)
    case Claim(g) =>
      if Mine(s, g) && s.state == Scheduled then Go(s.(state := Running), g, AwaitingDone)
      else Go(s, g, StoppingOwn)
    case OwnStopped(g) => Go(s, g, Ended)
    case EngineEnds(g) => s.(engines := s.engines - {g})
    case DoneSeen(g) => Go(s, g, Finalizing)
    case Finalize(g) => Go(if Mine(s, g) && s.state == Running then s.(state := Stopped) else s, g, Ended)
    case StopRequest(runID, handler) =>
      if runID == "" || runID != s.runID || Terminal(s.state) then s
      else if s.state == Running then s.(handlers := s.handlers[handler := Handler(s.generation, runID, false)])
      else CancelSchedule(s).(state := Stopped)
    case StopReturns(handler) =>
      s.(handlers := s.handlers[handler := s.handlers[handler].(engineEnded := true)])
    case StopFinishes(handler) =>
      var t := s.(handlers := s.handlers - {handler});
      if s.runID == s.handlers[handler].runID && !Terminal(s.state) then t.(state := Stopped) else t
  }

  ghost predicate Leads(s: State, steps: seq<Step>, t: State, newIDs: bool)
    decreases |steps|
  {
    if steps == [] then t == s
    else
      var last := |steps| - 1;
      exists m ::
        Leads(s, steps[..last], m, newIDs) && Enabled(m, steps[last], newIDs) && t == Next(m, steps[last], newIDs)
  }

  ghost predicate Reachable(s: State, newIDs: bool) {
    exists steps :: Leads(Init(), steps, s, newIDs)
  }

  // ----- what always holds

  /** The engine of g was started, and its goroutine knows. */
  predicate Launched(pc: GoPc) {
    pc == Claiming || pc == StoppingOwn || pc == AwaitingDone
  }

  predicate PastLaunch(pc: GoPc) {
    pc == AwaitingDone || pc == Finalizing || pc == Ended
  }

  /** The goroutine of g fits the engine of g and the server. */
  ghost predicate GoroutineFits(s: State, g: nat)
    requires g in s.goroutines
  {
    var pc := s.goroutines[g].pc;
    && 1 <= g <= s.generation && g in s.runs && s.goroutines[g].runID == s.runs[g]
    && (g in s.engines ==> Launched(pc))
    && (pc == AwaitingDone && g in s.engines ==> s.generation == g && s.state == Running)
    && pc != Failing
    && (s.goroutines[g].cancelled && s.generation == g ==> s.state != Scheduled)
  }

  ghost predicate ServerFits(s: State) {
    && (forall g | g in s.runs :: 1 <= g <= s.generation)
    && (s.generation == 0 ==> s.state == Idle && s.runID == "")
    && (s.generation >= 1 ==> s.generation in s.runs && s.runs[s.generation] == s.runID)
    && (s.state == Idle || s.state == Prepared ==> s.generation !in s.goroutines)
    && (s.state == Scheduled ==>
          s.generation in s.goroutines && s.goroutines[s.generation].pc in {Timing, StartingEngine, Claiming})
    && (s.state == Running ==>
          s.generation in s.goroutines && s.goroutines[s.generation].pc in {AwaitingDone, Finalizing})
  }

  ghost predicate HandlerFits(s: State, h: nat)
    requires h in s.handlers
  {
    var g := s.handlers[h].generation;
    && g in s.goroutines && PastLaunch(s.goroutines[g].pc)
    && g in s.runs && s.handlers[h].runID == s.runs[g]
    && (s.handlers[h].engineEnded ==> g !in s.engines)
  }

  ghost predicate RunsDiffer(s: State) {
    forall g, h | g in s.runs && h in s.runs && s.runs[g] == s.runs[h] :: g == h
  }

  ghost predicate Invariant(s: State) {
    && ServerFits(s) && RunsDiffer(s)
    && (forall g | g in s.engines :: g in s.goroutines)
    && (forall g | g in s.goroutines :: GoroutineFits(s, g))
    && (forall h | h in s.handlers :: HandlerFits(s, h))
  }

  lemma MovedGoroutine(s: State, t: State, g: nat, pc: GoPc)
    requires Invariant(s) && g in s.goroutines && t == Go(s, g, pc)
    requires pc != Failing && (g in s.engines ==> Launched(pc))
    requires pc == AwaitingDone ==> g !in s.engines || (s.generation == g && s.state == Running)
    requires PastLaunch(s.goroutines[g].pc) ==> PastLaunch(pc)
    requires s.generation == g ==>
               && (s.state == Scheduled ==> pc in {Timing, StartingEngine, Claiming})
               && (s.state == Running ==> pc in {AwaitingDone, Finalizing})
    ensures Invariant(t)
  {
    forall k | k in t.goroutines
      ensures GoroutineFits(t, k)
    {
      assert GoroutineFits(s, k);
    }
    forall h | h in t.handlers
      ensures HandlerFits(t, h)
    {
      assert HandlerFits(s, h);
    }
  }

  /** The server leaves the active states once the engine is not running. */
  lemma LeftActive(s: State, t: State)
    requires Invariant(s) && t == s.(state := t.state)
    requires Terminal(t.state) && s.generation >= 1
    requires s.state == Running ==> s.generation !in s.engines
    ensures Invariant(t)
  {
    forall k | k in t.goroutines
      ensures GoroutineFits(t, k)
    {
      assert GoroutineFits(s, k);
    }
    forall h | h in t.handlers
      ensures HandlerFits(t, h)
    {
      assert HandlerFits(s, h);
    }
  }

  lemma CancelKeeps(s: State)
    requires Invariant(s) && s.state != Scheduled
    ensures Invariant(CancelSchedule(s))
  {
    var t := CancelSchedule(s);
    forall k | k in t.goroutines
      ensures GoroutineFits(t, k)
    {
      assert GoroutineFits(s, k);
    }
    forall h | h in t.handlers
      ensures HandlerFits(t, h)
    {
      assert HandlerFits(s, h);
    }
  }

  lemma PrepareKeeps(s: State, runID: string)
    requires Invariant(s) && Enabled(s, Prepare(runID), true)
    ensures Invariant(Next(s, Prepare(runID), true))
  {
    if !Active(s.state) {
      var c := CancelSchedule(s);
      CancelKeeps(s);
      var t := Next(s, Prepare(runID), true);
      forall k | k in t.goroutines
        ensures GoroutineFits(t, k) && k <= s.generation
      {
        assert GoroutineFits(c, k);
      }
      forall h | h in t.handlers
        ensures HandlerFits(t, h)
      {
        assert HandlerFits(c, h);
      }
      forall g | g in s.runs
        ensures s.runs[g] != runID
      {
        assert s.runs[g] in s.runs.Values;
      }
    }
  }

  lemma StartKeeps(s: State, runID: string, inWindow: bool)
    requires Invariant(s)
    ensures Invariant(Next(s, Start(runID, inWindow), true))
  {
    var t := Next(s, Start(runID, inWindow), true);
    if t != s {
      assert s.generation >= 1 by {
        assert s.state == Prepared && runID == s.runID && runID != "";
      }
      forall k | k in t.goroutines
        ensures GoroutineFits(t, k)
      {
        if k != s.generation {
          assert GoroutineFits(s, k);
        }
      }
      forall h | h in t.handlers
        ensures HandlerFits(t, h)
      {
        assert HandlerFits(s, h);
      }
    }
  }

  lemma ContextDoneKeeps(s: State, g: nat)
    requires Invariant(s) && Enabled(s, ContextDone(g), true)
    ensures Invariant(Next(s, ContextDone(g), true))
  {
    assert GoroutineFits(s, g);
    MovedGoroutine(s, Next(s, ContextDone(g), true), g, Ended);
  }

  lemma StartEngineKeeps(s: State, g: nat)
    requires Invariant(s) && At(s, g, StartingEngine)
    ensures Invariant(Next(s, StartEngine(g), true))
  {
    assert GoroutineFits(s, g);
    var t := Next(s, StartEngine(g), true);
    forall k | k in t.goroutines
      ensures GoroutineFits(t, k)
    {
      assert GoroutineFits(s, k);
    }
    forall h | h in t.handlers
      ensures HandlerFits(t, h)
    {
      assert HandlerFits(s, h);
    }
  }

  lemma ClaimKeeps(s: State, g: nat)
    requires Invariant(s) && At(s, g, Claiming)
    ensures Invariant(Next(s, Claim(g), true))
  {
    assert GoroutineFits(s, g);
    if Mine(s, g) && s.state == Scheduled {
      var t := Next(s, Claim(g), true);
      forall k | k in t.goroutines
        ensures GoroutineFits(t, k)
      {
        assert GoroutineFits(s, k);
      }
      forall h | h in t.handlers
        ensures HandlerFits(t, h)
      {
        assert HandlerFits(s, h);
      }
    } else {
      MovedGoroutine(s, Next(s, Claim(g), true), g, StoppingOwn);
    }
  }

  lemma EndsKeeps(s: State, g: nat)
    requires Invariant(s) && g in s.engines
    ensures Invariant(Next(s, EngineEnds(g), true))
  {
    var t := Next(s, EngineEnds(g), true);
    forall k | k in t.goroutines
      ensures GoroutineFits(t, k)
    {
      assert GoroutineFits(s, k);
    }
    forall h | h in t.handlers
      ensures HandlerFits(t, h)
    {
      assert HandlerFits(s, h);
    }
  }

  lemma FinalizeKeeps(s: State, g: nat)
    requires Invariant(s) && At(s, g, Finalizing)
    ensures Invariant(Next(s, Finalize(g), true))
  {
    assert GoroutineFits(s, g);
    if Mine(s, g) && s.state == Running {
      var m := s.(state := Stopped);
      LeftActive(s, m);
      MovedGoroutine(m, Next(s, Finalize(g), true), g, Ended);
    } else {
      MovedGoroutine(s, Next(s, Finalize(g), true), g, Ended);
    }
  }

  lemma StopRequestKeeps(s: State, runID: string, handler: nat)
    requires Invariant(s) && Enabled(s, StopRequest(runID, handler), true)
    ensures Invariant(Next(s, StopRequest(runID, handler), true))
  {
    var t := Next(s, StopRequest(runID, handler), true);
    if runID == "" || runID != s.runID || Terminal(s.state) {
    } else if s.state == Running {
      assert GoroutineFits(s, s.generation);
      forall h | h in t.handlers
        ensures HandlerFits(t, h)
      {
        if h != handler {
          assert HandlerFits(s, h);
        }
      }
      forall k | k in t.goroutines
        ensures GoroutineFits(t, k)
      {
        assert GoroutineFits(s, k);
      }
    } else {
      var m := s.(state := Stopped);
      LeftActive(s, m);
      CancelKeeps(m);
      assert t == CancelSchedule(m);
    }
  }

  lemma StopReturnsKeeps(s: State, h: nat)
    requires Invariant(s) && Enabled(s, StopReturns(h), true)
    ensures Invariant(Next(s, StopReturns(h), true))
  {
    HandlersChanged(s, Next(s, StopReturns(h), true));
  }

  lemma StopFinishesKeeps(s: State, h: nat)
    requires Invariant(s) && Enabled(s, StopFinishes(h), true)
    ensures Invariant(Next(s, StopFinishes(h), true))
  {
    assert HandlerFits(s, h);
    var m := s.(handlers := s.handlers - {h});
    HandlersChanged(s, m);
    if s.runID == s.handlers[h].runID && !Terminal(s.state) {
      OwnRun(s, h);
      LeftActive(m, m.(state := Stopped));
    }
  }

  /** With new run ids a handler of the current run belongs to the current
      generation. */
  lemma OwnRun(s: State, h: nat)
    requires Invariant(s) && h in s.handlers && s.runID == s.handlers[h].runID
    ensures s.handlers[h].generation == s.generation >= 1
  {
    assert HandlerFits(s, h);
    assert GoroutineFits(s, s.handlers[h].generation);
    assert s.runs[s.generation] == s.runs[s.handlers[h].generation];
  }

  lemma NeverFails(s: State, g: nat)
    requires Invariant(s)
    ensures !At(s, g, Failing)
  {
    if g in s.goroutines {
      assert GoroutineFits(s, g);
    }
  }

  lemma HandlersChanged(s: State, t: State)
    requires Invariant(s) && t == s.(handlers := t.handlers)
    requires forall h | h in t.handlers :: h in s.handlers
               && t.handlers[h] == s.handlers[h].(engineEnded := t.handlers[h].engineEnded)
               && (t.handlers[h].engineEnded ==> s.handlers[h].engineEnded || s.handlers[h].generation !in s.engines)
    ensures Invariant(t)
  {
    forall k | k in t.goroutines
      ensures GoroutineFits(t, k)
    {
      assert GoroutineFits(s, k);
    }
    forall h | h in t.handlers
      ensures HandlerFits(t, h)
    {
      assert HandlerFits(s, h);
    }
  }

  lemma StepKeeps(s: State, step: Step)
    requires Invariant(s) && Enabled(s, step, true)
    ensures Invariant(Next(s, step, true))
  {
    match step {
      case Prepare(runID) => PrepareKeeps(s, runID);
      case Start(runID, inWindow) => StartKeeps(s, runID, inWindow);
      case TimerFires(g) =>
        assert GoroutineFits(s, g);
        MovedGoroutine(s, Next(s, step, true), g, StartingEngine);
      case ContextDone(g) => ContextDoneKeeps(s, g);
      case StartEngine(g) => StartEngineKeeps(s, g);
      case FailRun(g) => NeverFails(s, g);
      case Claim(g) => ClaimKeeps(s, g);
      case OwnStopped(g) =>
        assert GoroutineFits(s, g);
        MovedGoroutine(s, Next(s, step, true), g, Ended);
      case EngineEnds(g) => EndsKeeps(s, g);
      case DoneSeen(g) =>
        assert GoroutineFits(s, g);
        MovedGoroutine(s, Next(s, step, true), g, Finalizing);
      case Finalize(g) => FinalizeKeeps(s, g);
      case StopRequest(runID, handler) => StopRequestKeeps(s, runID, handler);
      case StopReturns(handler) => StopReturnsKeeps(s, handler);
      case StopFinishes(handler) => StopFinishesKeeps(s, handler);
    }
  }

  lemma {:induction false} LeadsKeeps(s: State, steps: seq<Step>, t: State)
    requires Invariant(s) && Leads(s, steps, t, true)
    ensures Invariant(t)
    decreases |steps|
  {
    if steps != [] {
      var last := |steps| - 1;
      var m :| Leads(s, steps[..last], m, true) && Enabled(m, steps[last], true) && t == Next(m, steps[last], true);
      LeadsKeeps(s, steps[..last], m);
      StepKeeps(m, steps[last]);
    }
  }

  lemma ReachableInvariant(s: State)
    requires Reachable(s, true)
    ensures Invariant(s)
  {
    var steps :| Leads(Init(), steps, s, true);
    LeadsKeeps(Init(), steps, s);
  }

  // ----- what is promised

  /** Its goroutine is about to find the run gone, or has, and stops it. */
  predicate AboutToStop(s: State, g: nat) {
    || At(s, g, StoppingOwn)
    || (At(s, g, Claiming) && !(Mine(s, g) && s.state == Scheduled))
  }

  /** An engine runs only for the current generation while that is scheduled
      or running, or its goroutine is committed to stopping it. */
  lemma EnginesAreOwned(s: State, g: nat)
    requires Reachable(s, true) && g in s.engines
    ensures (s.generation == g && Active(s.state)) || AboutToStop(s, g)
  {
    ReachableInvariant(s);
    assert GoroutineFits(s, g);
  }

  /** A running server has an engine that was started for its run, and the
      scheduled start itself never fails. */
  lemma RunningWasStarted(s: State, g: nat)
    requires Reachable(s, true)
    ensures s.state == Running ==>
              s.generation in s.goroutines && PastLaunch(s.goroutines[s.generation].pc)
              && s.goroutines[s.generation].runID == s.runID
    ensures !At(s, g, Failing)
  {
    ReachableInvariant(s);
    NeverFails(s, g);
    if s.state == Running {
      assert GoroutineFits(s, s.generation);
    }
  }

  function Actor(s: State, step: Step): int {
    match step
    case TimerFires(g) => g
    case ContextDone(g) => g
    case StartEngine(g) => g
    case FailRun(g) => g
    case Claim(g) => g
    case OwnStopped(g) => g
    case EngineEnds(g) => g
    case DoneSeen(g) => g
    case Finalize(g) => g
    case StopReturns(h) => if h in s.handlers then s.handlers[h].generation else -1
    case StopFinishes(h) => if h in s.handlers then s.handlers[h].generation else -1
    case _ => -1
  }

  /** What is left of older generations never changes the server. */
  lemma StaleStepsAreHarmless(s: State, step: Step)
    requires Reachable(s, true) && Enabled(s, step, true)
    requires 0 <= Actor(s, step) < s.generation
    ensures var t := Next(s, step, true);
            t.generation == s.generation && t.runID == s.runID && t.state == s.state
  {
    ReachableInvariant(s);
    if step.StopFinishes? && s.runID == s.handlers[step.handler].runID {
      OwnRun(s, step.handler);
    }
  }
}
