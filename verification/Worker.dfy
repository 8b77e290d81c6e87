/** The worker's own loop over an execution plan, with its mutable fields,
    proved to compute the run of the specification and to reach its end. */
module Worker {
  import opened ExecutionPlan
  import opened Scenario
  import opened Variables
  import opened Machine
  import opened TransitionBounds
  import opened Iteration
  import opened IterationEnds

  function Prefix(env: nat -> IterationInput, n: nat): (s: seq<IterationInput>)
    ensures |s| == n && forall i | 0 <= i < n :: s[i] == env(i)
  {
    seq(n, i requires 0 <= i < n => env(i))
  }

  /** Subtract weights until the selection falls below one. */
  method SelectExecutionRoute(step: Step, value: nat) returns (route: nat)
    requires step.Branch? && step.routes != [] && step.routeWeight > 0
    ensures route < |step.routes| && route == SelectRoute(step, value)
  {
    var selection: nat := value % step.routeWeight;
    route := 0;
    while route < |step.routes| - 1
      invariant 0 <= route < |step.routes|
      invariant SelectFrom(step.routes, selection, route) == SelectRoute(step, value)
    {
      if selection < step.routes[route].weight {
        return;
      }
      selection := selection - step.routes[route].weight;
      route := route + 1;
    }
  }

  class WorkerRuntime {
    const program: Program
    const variables: WorkerVariables
    const assertionResults: array<bool>
    const loopIterations: array<nat>
    var activeRoutes: seq<ActiveRoute>

    ghost predicate Valid()
      reads this, variables, assertionResults, loopIterations
    {
      && Sound(program) && variables.Valid()
      && assertionResults.Length == program.assertionCount
      && loopIterations.Length == |program.steps|
    }

    ghost function Values(): Data
      reads variables, assertionResults
    {
      Data(variables.State(), assertionResults[..])
    }

    constructor (program: Program, runtimeVariables: map<string, string>)
      requires Sound(program)
      ensures Valid() && this.program == program
      ensures Values().vars == Vars(runtimeVariables, map[], map[], map[], map[], [])
      ensures fresh(variables) && fresh(assertionResults) && fresh(loopIterations)
    {
      this.program := program;
      variables := new WorkerVariables(runtimeVariables);
      assertionResults := new bool[program.assertionCount](_ => false);
      loopIterations := new nat[|program.steps|](_ => 0);
      activeRoutes := [];
    }

    method AllRender(names: seq<string>) returns (ok: bool)
      requires Valid()
      ensures ok == Renders(variables.State(), names)
    {
      for i := 0 to |names|
        invariant forall j | 0 <= j < i :: Value(variables.State(), names[j]).Some?
      {
        var value := variables.Lookup(names[i]);
        if value.None? {
          return false;
        }
      }
      return true;
    }

    method EvaluateAssertions(assertions: seq<Assertion>, verdicts: seq<bool>)
      requires Valid()
      requires forall i | 0 <= i < |assertions| :: assertions[i].resultIndex < program.assertionCount
      modifies assertionResults
      ensures Valid()
      ensures assertionResults[..] == WriteVerdicts(old(assertionResults[..]), assertions, verdicts, |assertions|)
    {
      for index := 0 to |assertions|
        invariant assertionResults[..] == WriteVerdicts(old(assertionResults[..]), assertions, verdicts, index)
      {
        assertionResults[assertions[index].resultIndex] := Verdict(verdicts, index);
      }
    }

    method RunRequestStep(request: RequestStep, effect: Effect) returns (outcome: StepOutcome)
      requires Valid()
      requires forall i | 0 <= i < |request.assertions| :: request.assertions[i].resultIndex < program.assertionCount
      modifies variables, assertionResults
      ensures Valid()
      ensures outcome == if effect.Cancel? then Canceled else Continue
      ensures effect.Cancel? ==> Values() == old(Values())
      ensures !effect.Cancel? ==>
                Values().vars == VarsAfter(request, old(Values()).vars, effect)
                && Values().results == WriteVerdicts(old(Values()).results, request.assertions,
                                                     VerdictsOf(request, old(Values()).vars, effect),
                                                     |request.assertions|)
    {
      if effect.Cancel? {
        return Canceled;
      }
      var rendered := AllRender(request.templateNames);
      if !rendered {
        variables.InvalidateCaptures(request.captures);
        EvaluateAssertions(request.assertions, []);
        return Continue;
      }
      match effect {
        case TransportError =>
          variables.InvalidateCaptures(request.captures);
          EvaluateAssertions(request.assertions, []);
        case Respond(response, verdicts) =>
          var failed := variables.CaptureVariables(request.captures, response);
          EvaluateAssertions(request.assertions, verdicts);
      }
      return Continue;
    }

    method RunStep(step: ScenarioStep, effect: Effect) returns (outcome: StepOutcome)
      requires Valid() && VerdictsFit(step, program.assertionCount)
      modifies variables, assertionResults
      ensures Valid()
      ensures StepResult(outcome, Values()) == Iteration.RunStep(program, step, old(Values()), effect)
    {
      match step {
        case DelayKind(_) =>
          return if effect.Cancel? then Canceled else Continue;
        case AssertKind(_, assertion) =>
          if assertionResults[assertion.resultIndex] {
            return Continue;
          }
          return if assertion.failureMode == StopMode then StopIteration else Continue;
        case RequestKind(_, request) =>
          outcome := RunRequestStep(request, effect);
      }
    }

    method ClearLoops()
      requires Valid()
      modifies loopIterations
      ensures Valid() && loopIterations[..] == Start(program.steps, program.entry).loopIterations
    {
      for index := 0 to loopIterations.Length
        invariant forall i | 0 <= i < index :: loopIterations[i] == 0
      {
        loopIterations[index] := 0;
      }
    }

    ghost predicate Matches(w: World, pc: int)
      reads this, variables, assertionResults, loopIterations
    {
      w.data == Values() && w.status == Running(Control(pc, loopIterations[..], activeRoutes))
    }

    /** Start an iteration and walk the plan.  The environment answers one
        transition after the other; `used` counts the answers consumed. */
    method RunIteration(env: nat -> IterationInput) returns (completed: bool, ghost used: nat)
      requires Valid() && LoopsBounded(program.steps)
      requires program.maxTransitions == TransitionBound(program.steps)
      modifies this, variables, assertionResults, loopIterations
      ensures Valid() && used <= program.maxTransitions
      ensures var w := RunAll(program, StartWorld(program, old(Values())), Prefix(env, used));
              !Active(w) && Values() == w.data
      ensures !completed <==> WasCut(program, old(Values()), Prefix(env, used))
    {
      ghost var before := Values();
      ghost var start := StartWorld(program, before);
      variables.Begin();
      ClearLoops();
      activeRoutes := [];
      var programCounter: int := program.entry;
      var transitions: nat := 0;
      assert RunAll(program, start, Prefix(env, 0)) == start;
      while programCounter >= 0 && transitions < program.maxTransitions
        invariant Valid() && transitions <= program.maxTransitions
        invariant Matches(RunAll(program, start, Prefix(env, transitions)), programCounter)
        decreases program.maxTransitions - transitions
      {
        ghost var w := RunAll(program, start, Prefix(env, transitions));
        used := transitions + 1;
        assert Prefix(env, used)[..transitions] == Prefix(env, transitions);
        RunAllLast(program, start, Prefix(env, used));
        var ended, done;
        programCounter, ended, done := Step(env(transitions), programCounter, w);
        if ended {
          EndOfIteration(program, before, Prefix(env, used));
          return done, used;
        }
        transitions := transitions + 1;
      }
      used := transitions;
      if programCounter >= 0 {
        GuardUnused(start, Prefix(env, used));
      }
      EndOfIteration(program, before, Prefix(env, used));
      return true, used;
    }

    /** One turn of the loop; `ended` and `completed` say how the iteration
        returns, if it does. */
    method Step(input: IterationInput, programCounter: nat, ghost w: World)
      returns (next: int, ended: bool, completed: bool)
      requires Valid() && Consistent(program, w) && Matches(w, programCounter)
      modifies this, variables, assertionResults, loopIterations
      ensures Valid() && Values() == Transition(program, w, input).data
      ensures ended <==> !Transition(program, w, input).status.Running?
      ensures !ended ==> Matches(Transition(program, w, input), next)
      ensures ended ==> completed == !Transition(program, w, input).status.Cancelled?
    {
      var instruction := program.steps[programCounter];
      next, ended, completed := programCounter, false, true;
      match instruction {
        case Scenario(_, scenarioIndex, following) =>
          var outcome := RunStep(program.scenario[scenarioIndex], input.effect);
          match outcome {
            case Canceled => ended, completed := true, false;
            case StopIteration => ended := true;
            case Continue => next := following;
          }
        case Branch(_, routes, _, join) =>
          BranchWeight(program.steps, programCounter);
          var index := SelectExecutionRoute(instruction, input.selection);
          variables.Push(routes[index].scopeKey);
          activeRoutes := activeRoutes + [ActiveRoute(join, routes[index].metricsIndex)];
          next := routes[index].target;
        case Join(_, following) =>
          if |activeRoutes| == 0 || activeRoutes[|activeRoutes| - 1].join != programCounter {
            ended := true;
          } else {
            activeRoutes := activeRoutes[..|activeRoutes| - 1];
            variables.Pop();
            next := following;
          }
        case Loop(_, body, exit, maxIterations) =>
          if loopIterations[programCounter] < maxIterations {
            loopIterations[programCounter] := loopIterations[programCounter] + 1;
            next := body;
          } else {
            loopIterations[programCounter] := 0;
            next := exit;
          }
      }
    }

    /** When the loop stops, it is never the transition guard that stopped it. */
    lemma GuardUnused(start: World, inputs: seq<IterationInput>)
      requires Sound(program) && LoopsBounded(program.steps)
      requires program.maxTransitions == TransitionBound(program.steps)
      requires Consistent(program, start) && start.status == Running(Start(program.steps, program.entry))
      requires |inputs| >= program.maxTransitions
      ensures !Active(RunAll(program, start, inputs))
    {
      if Active(RunAll(program, start, inputs)) {
        RunsProject(program, start, inputs);
        GuardNeverTruncates(program.steps, program.entry, ControlInputs(program, start, inputs));
      }
    }
  }
}
