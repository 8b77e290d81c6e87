/** One planned iteration with its data: variables, verdicts, and a record of
    what has been executed, on top of the control machine. */
module Iteration {
  import opened ExecutionPlan
  import opened Scenario
  import opened Variables
  import opened Machine
  import opened JoinDiscipline

  datatype Program = Program(
    entry: nat,
    steps: seq<Step>,
    maxTransitions: nat,
    scenario: seq<ScenarioStep>,
    assertionCount: nat)

  predicate VerdictsFit(step: ScenarioStep, count: nat) {
    match step
    case RequestKind(_, request) =>
      forall i | 0 <= i < |request.assertions| :: request.assertions[i].resultIndex < count
    case AssertKind(_, assertion) => assertion.resultIndex < count
    case DelayKind(_) => true
  }

  predicate Sound(p: Program) {
    && Resolved(p.steps) && p.entry < |p.steps|
    && (forall i: nat | i < |p.steps| && p.steps[i].Scenario? :: p.steps[i].scenarioIndex < |p.scenario|)
    && (forall s | 0 <= s < |p.scenario| :: VerdictsFit(p.scenario[s], p.assertionCount))
  }

  /** What the outside world does to a scenario step. */
  datatype Effect = Cancel | TransportError | Respond(response: Response, verdicts: seq<bool>)

  datatype IterationInput = IterationInput(effect: Effect, selection: nat)

  datatype Data = Data(vars: Vars, results: seq<bool>)

  predicate Fits(p: Program, d: Data) {
    d.vars.FramesStored() && |d.results| == p.assertionCount
  }

  // ----- one scenario step

  predicate Renders(v: Vars, names: seq<string>)
    requires v.FramesStored()
  {
    forall i | 0 <= i < |names| :: Value(v, names[i]).Some?
  }

  predicate Verdict(verdicts: seq<bool>, i: nat) {
    i < |verdicts| && verdicts[i]
  }

  /** Write the verdicts of the first n assertions into their slots. */
  function WriteVerdicts(results: seq<bool>, assertions: seq<Assertion>, verdicts: seq<bool>, n: nat): (r: seq<bool>)
    requires n <= |assertions| && forall i | 0 <= i < |assertions| :: assertions[i].resultIndex < |results|
    ensures |r| == |results|
  {
    if n == 0 then results
    else WriteVerdicts(results, assertions, verdicts, n - 1)[assertions[n - 1].resultIndex := Verdict(verdicts, n - 1)]
  }

  /** The verdicts that a request writes: all false unless it gets a response. */
  function VerdictsOf(request: RequestStep, v: Vars, effect: Effect): seq<bool>
    requires v.FramesStored()
  {
    if Renders(v, request.templateNames) && effect.Respond? then effect.verdicts else []
  }

  function VarsAfter(request: RequestStep, v: Vars, effect: Effect): (r: Vars)
    requires v.FramesStored()
    ensures r.FramesStored()
  {
    if Renders(v, request.templateNames) && effect.Respond? then CaptureAll(v, request.captures, effect.response)
    else InvalidateAll(v, request.captures)
  }

  datatype StepResult = StepResult(outcome: StepOutcome, data: Data)

  function RunStep(p: Program, step: ScenarioStep, d: Data, effect: Effect): (r: StepResult)
    requires Fits(p, d) && VerdictsFit(step, p.assertionCount)
    ensures Fits(p, r.data)
  {
    match step
    case DelayKind(_) => StepResult(if effect.Cancel? then Canceled else Continue, d)
    case AssertKind(_, assertion) =>
      StepResult(if d.results[assertion.resultIndex] || assertion.failureMode != StopMode
                 then Continue else StopIteration, d)
    case RequestKind(_, request) =>
      if effect.Cancel? then StepResult(Canceled, d)
      else StepResult(Continue,
                      Data(VarsAfter(request, d.vars, effect),
                           WriteVerdicts(d.results, request.assertions, VerdictsOf(request, d.vars, effect),
                                         |request.assertions|)))
  }

  // ----- what a run leaves behind in the record

  /** A capture that keeps or gains a value when its request runs. */
  predicate CaptureSucceeds(request: RequestStep, v: Vars, effect: Effect, i: nat)
    requires v.FramesStored() && i < |request.captures|
  {
    || AlreadyHeld(v, request.captures[i])
    || (Renders(v, request.templateNames) && effect.Respond?
        && Eligible(v, request.captures, effect.response, i)
        && !CaptureFails(v, request.captures, effect.response))
  }

  ghost function FailedNames(request: RequestStep, v: Vars, effect: Effect): set<string>
    requires v.FramesStored()
  {
    set i | 0 <= i < |request.captures| && !CaptureSucceeds(request, v, effect, i) :: request.captures[i].name
  }

  /** `executed`: the plan steps that have run; `frames`: the routes being
      taken; `framesAt`: the routes taken when a step last ran; `verdicts`:
      what a request last wrote; `failed`: names of captures that have failed. */
  datatype History = History(
    executed: set<nat>,
    frames: seq<Frame>,
    framesAt: map<nat, seq<Frame>>,
    verdicts: map<nat, seq<bool>>,
    failed: set<string>)

  datatype World = World(status: Status, data: Data, history: History)

  predicate Consistent(p: Program, w: World) {
    Sound(p) && Fits(p, w.data) && (w.status.Running? ==> OnPlan(p.steps, w.status.control))
  }

  predicate Active(w: World) {
    w.status.Running? && w.status.control.pc >= 0
  }

  /** The scenario step about to run. */
  function Current(p: Program, w: World): ScenarioStep
    requires Consistent(p, w) && Active(w) && p.steps[w.status.control.pc].Scenario?
  {
    p.scenario[p.steps[w.status.control.pc].scenarioIndex]
  }

  function OutcomeOf(p: Program, w: World, input: IterationInput): StepOutcome
    requires Consistent(p, w) && Active(w)
  {
    if p.steps[w.status.control.pc].Scenario?
    then RunStep(p, Current(p, w), w.data, input.effect).outcome
    else Continue
  }

  /** What the control machine sees of a transition. */
  function ControlInput(p: Program, w: World, input: IterationInput): Input
    requires Consistent(p, w) && Active(w)
  {
    Input(OutcomeOf(p, w, input), input.selection)
  }

  function NextStatus(p: Program, w: World, input: IterationInput): (s: Status)
    requires Consistent(p, w) && Active(w)
    ensures s.Running? ==> OnPlan(p.steps, s.control)
  {
    Next(p.steps, w.status.control, ControlInput(p, w, input))
  }

  function NextData(p: Program, w: World, input: IterationInput): (d: Data)
    requires Consistent(p, w) && Active(w)
    ensures Fits(p, d)
  {
    var pc := w.status.control.pc;
    match p.steps[pc]
    case Scenario(_, _, _) => RunStep(p, Current(p, w), w.data, input.effect).data
    case Branch(_, routes, _, _) =>
      BranchWeight(p.steps, pc);
      w.data.(vars := PushBranch(w.data.vars, routes[SelectRoute(p.steps[pc], input.selection)].scopeKey))
    case Join(_, _) =>
      if NextStatus(p, w, input).Running? then w.data.(vars := PopBranch(w.data.vars)) else w.data
    case Loop(_, _, _, _) => w.data
  }

  ghost function NextHistory(p: Program, w: World, input: IterationInput): History
    requires Consistent(p, w) && Active(w)
  {
    var pc: nat := w.status.control.pc;
    var h := w.history;
    var moved := h.(executed := h.executed + {pc},
                    framesAt := h.framesAt[pc := h.frames],
                    frames := NextFrames(p.steps, w.status.control, h.frames, ControlInput(p, w, input)));
    if p.steps[pc].Scenario? && Current(p, w).RequestKind? then
      var request := Current(p, w).request;
      moved.(verdicts := h.verdicts[pc := VerdictsOf(request, w.data.vars, input.effect)],
             failed := h.failed + FailedNames(request, w.data.vars, input.effect))
    else moved
  }

  ghost function Transition(p: Program, w: World, input: IterationInput): (r: World)
    requires Consistent(p, w) && Active(w)
    ensures Consistent(p, r)
  {
    World(NextStatus(p, w, input), NextData(p, w, input), NextHistory(p, w, input))
  }

  ghost function RunAll(p: Program, w: World, inputs: seq<IterationInput>): (r: World)
    requires Consistent(p, w)
    ensures Consistent(p, r)
    decreases |inputs|
  {
    if inputs == [] || !Active(w) then w
    else RunAll(p, Transition(p, w, inputs[0]), inputs[1..])
  }

  function EmptyHistory(): History {
    History({}, [], map[], map[], {})
  }

  /** An iteration starts with what earlier iterations left in the data. */
  function StartWorld(p: Program, d: Data): (w: World)
    requires Sound(p) && |d.results| == p.assertionCount
    ensures Consistent(p, w)
  {
    World(Running(Start(p.steps, p.entry)), d.(vars := BeginIteration(d.vars)), EmptyHistory())
  }

  lemma {:induction false} RunAllAppend(p: Program, w: World, first: seq<IterationInput>, second: seq<IterationInput>)
    requires Consistent(p, w)
    ensures RunAll(p, w, first + second) == RunAll(p, RunAll(p, w, first), second)
    decreases |first|
  {
    if first == [] {
      assert first + second == second;
    } else if Active(w) {
      assert (first + second)[1..] == first[1..] + second;
      RunAllAppend(p, Transition(p, w, first[0]), first[1..], second);
    }
  }

  lemma RunAllLast(p: Program, w: World, inputs: seq<IterationInput>)
    requires Consistent(p, w) && inputs != []
    ensures var before := RunAll(p, w, inputs[..|inputs| - 1]);
            RunAll(p, w, inputs) ==
            if Active(before) then Transition(p, before, inputs[|inputs| - 1]) else before
  {
    var last := |inputs| - 1;
    assert inputs == inputs[..last] + [inputs[last]];
    RunAllAppend(p, w, inputs[..last], [inputs[last]]);
    var before := RunAll(p, w, inputs[..last]);
    if Active(before) {
      assert RunAll(p, Transition(p, before, inputs[last]), []) == Transition(p, before, inputs[last]);
    }
  }

  /** The inputs that the control machine sees along a run. */
  ghost function ControlInputs(p: Program, w: World, inputs: seq<IterationInput>): seq<Input>
    requires Consistent(p, w)
    decreases |inputs|
  {
    if inputs == [] || !Active(w) then []
    else [ControlInput(p, w, inputs[0])] + ControlInputs(p, Transition(p, w, inputs[0]), inputs[1..])
  }

  /** A run with data is a run of the control machine. */
  lemma {:induction false} RunsProject(p: Program, w: World, inputs: seq<IterationInput>)
    requires Consistent(p, w)
    ensures RunAll(p, w, inputs).status == Run(p.steps, w.status, ControlInputs(p, w, inputs))
    ensures RunAll(p, w, inputs).history.frames
         == RunFrames(p.steps, w.status, w.history.frames, ControlInputs(p, w, inputs))
    ensures |ControlInputs(p, w, inputs)| <= |inputs|
    ensures Active(RunAll(p, w, inputs)) ==> |ControlInputs(p, w, inputs)| == |inputs|
    decreases |inputs|
  {
    if inputs != [] && Active(w) {
      var next := Transition(p, w, inputs[0]);
      RunsProject(p, next, inputs[1..]);
      var controls := ControlInputs(p, w, inputs);
      assert controls[1..] == ControlInputs(p, next, inputs[1..]);
    }
  }
}
