/** Scope keys over the values that runs themselves store: in plans whose
    routes open with a scenario step, some run of some scenario loses a value
    exactly when nested routes share a key. */
module ScopeRuns {
  import opened ExecutionPlan
  import opened Regions
  import opened Scenario
  import opened Options
  import opened Variables
  import opened Machine
  import opened JoinDiscipline
  import opened Iteration
  import opened TemplateScope
  import opened TemplateRuns
  import opened ScopeKeys

  // ----- values that are lost

  /** After these inputs a branch is about to run, and taking its route loses a
      value that is held outside all routes or under one of those being
      taken. */
  ghost predicate LosesAt(p: Program, d: Data, inputs: seq<IterationInput>, input: IterationInput)
    requires Sound(p) && |d.results| == p.assertionCount
  {
    var w := RunAll(p, StartWorld(p, d), inputs);
    Active(w) && LosesValue(p, w, input)
  }

  ghost predicate NeverLoses(p: Program, d: Data)
    requires Sound(p) && |d.results| == p.assertionCount
  {
    forall inputs, input :: !LosesAt(p, d, inputs, input)
  }

  /** No run of any scenario with this plan loses a value. */
  ghost predicate PlanIsSafe(steps: seq<Step>, entry: nat) {
    forall p: Program, d: Data | Sound(p) && p.steps == steps && p.entry == entry && |d.results| == p.assertionCount ::
      NeverLoses(p, d)
  }

  ghost predicate RoutesOpenWithSteps(steps: seq<Step>)
    requires Resolved(steps)
  {
    forall b: nat, k: nat | IsRoute(steps, b, k) ::
      Target(steps, b, k) < |steps| && steps[Target(steps, b, k)].Scenario?
  }

  // ----- a scenario of one capture

  function ScenarioSize(steps: seq<Step>): (n: nat)
    ensures forall i | 0 <= i < |steps| && steps[i].Scenario? :: steps[i].scenarioIndex < n
  {
    if steps == [] then 0
    else
      var last, rest := steps[|steps| - 1], ScenarioSize(steps[..|steps| - 1]);
      assert forall i | 0 <= i < |steps| - 1 :: steps[i] == steps[..|steps| - 1][i];
      if last.Scenario? && last.scenarioIndex >= rest then last.scenarioIndex + 1 else rest
  }

  function CaptureStep(): ScenarioStep {
    RequestKind("x", RequestStep(0, [Capture("x", IterationScope)], [], []))
  }

  /** Every scenario step is a request that captures "x". */
  function Capturing(steps: seq<Step>, entry: nat): Program {
    Program(entry, steps, 0, seq(ScenarioSize(steps), _ => CaptureStep()), 0)
  }

  function Nothing(): Data {
    Data(Vars(map[], map[], map[], map[], map[], []), [])
  }

  function Answer(): Effect {
    Respond(Response([true], true, [Some("")]), [])
  }

  lemma CapturingIsSound(steps: seq<Step>, entry: nat)
    requires Resolved(steps) && entry < |steps|
    ensures Sound(Capturing(steps, entry)) && |Nothing().results| == Capturing(steps, entry).assertionCount
  {
  }

  /** An answered request leaves "x" on top, and the rest as it was. */
  lemma AnswerCaptures(v: Vars)
    requires v.FramesStored()
    ensures VarsAfter(CaptureStep().request, v, Answer()) == v.WithTopIteration(v.TopIteration()["x" := ""])
  {
    var captures, response := [Capture("x", IterationScope)], Response([true], true, [Some("")]);
    assert captures[..0] == [];
    assert DropUnselected(v, captures, response, 0) == v;
    assert DropUnselected(v, captures, response, 1) == v;
    assert EligiblePositions(v, captures, response, 0) == [];
    var positions := EligiblePositions(v, captures, response, 1);
    assert positions == [0] && AllFound(response, positions);
    assert positions[..0] == [] && SetAll(v, captures, response, []) == v;
    assert SetAll(v, captures, response, positions) == Set(v, captures[0], "");
  }

  // ----- what its runs store

  ghost predicate OnlyIterations(v: Vars) {
    "x" !in v.run && forall key | key in v.branchRuns :: "x" !in v.branchRuns[key]
  }

  /** The first step of the innermost route has run. */
  predicate TopHasRun(steps: seq<Step>, pc: int, frames: seq<Frame>)
    requires forall i | 0 <= i < |frames| :: IsRoute(steps, frames[i].branch, frames[i].route)
  {
    frames != [] ==> pc != Target(steps, frames[|frames| - 1].branch, frames[|frames| - 1].route)
  }

  /** Every route being taken holds "x", the innermost once its first step has
      run. */
  ghost predicate Stocks(p: Program, w: World)
    requires Consistent(p, w)
  {
    Active(w) ==>
      && OnlyIterations(w.data.vars)
      && FramesMatch(p.steps, w.data.vars, w.history.frames)
      && Disciplined(p.steps, w.status, w.history.frames)
      && forall n: nat | 0 < n <= |w.history.frames|
           && (n < |w.history.frames| || TopHasRun(p.steps, w.status.control.pc, w.history.frames)) ::
           HeldIn(p.steps, w.data.vars, w.history.frames[..n], "x")
  }

  /** The program is the one above, on a plan of the kind considered. */
  ghost predicate Considered(p: Program) {
    && WellStructured(p.steps, p.entry) && NoForeignEntry(p.steps, p.entry) && RoutesOpenWithSteps(p.steps)
    && p == Capturing(p.steps, p.entry) && Sound(p)
  }

  lemma AllHeld(p: Program, w: World, n: nat)
    requires Consistent(p, w) && Active(w) && Considered(p) && Stocks(p, w)
    requires !p.steps[w.status.control.pc].Scenario? && 0 < n <= |w.history.frames|
    ensures HeldIn(p.steps, w.data.vars, w.history.frames[..n], "x")
  {
    var top := w.history.frames[|w.history.frames| - 1];
    assert IsRoute(p.steps, top.branch, top.route);
    assert p.steps[Target(p.steps, top.branch, top.route)].Scenario?;
  }

  lemma ScenarioStocks(p: Program, w: World, input: IterationInput)
    requires Consistent(p, w) && Active(w) && Considered(p) && Stocks(p, w)
    requires p.steps[w.status.control.pc].Scenario? && input.effect == Answer()
    ensures var next := Transition(p, w, input);
            && OnlyIterations(next.data.vars) && next.history.frames == w.history.frames
            && forall n: nat | 0 < n <= |w.history.frames| ::
                 HeldIn(p.steps, next.data.vars, w.history.frames[..n], "x")
  {
    var v := w.data.vars;
    assert Current(p, w) == CaptureStep();
    AnswerCaptures(v);
    assert Transition(p, w, input).data.vars == v.WithTopIteration(v.TopIteration()["x" := ""]);
    hide Considered, WellStructured, NoForeignEntry, Disciplined;
    CaptureStocks(p.steps, v, w.history.frames);
  }

  lemma CaptureStocks(steps: seq<Step>, v: Vars, frames: seq<Frame>)
    requires v.FramesStored() && OnlyIterations(v) && FramesMatch(steps, v, frames)
    requires forall n: nat | 0 < n < |frames| :: HeldIn(steps, v, frames[..n], "x")
    ensures var u := v.WithTopIteration(v.TopIteration()["x" := ""]);
            OnlyIterations(u) && forall n: nat | 0 < n <= |frames| :: HeldIn(steps, u, frames[..n], "x")
  {
    var u := v.WithTopIteration(v.TopIteration()["x" := ""]);
    forall n: nat | 0 < n <= |frames|
      ensures HeldIn(steps, u, frames[..n], "x")
    {
      assert v.frames[n - 1] == KeyOf(steps, frames[n - 1]);
      assert n < |frames| ==> HeldIn(steps, v, frames[..n], "x");
    }
  }

  lemma BranchStocks(p: Program, w: World, input: IterationInput)
    requires Consistent(p, w) && Active(w) && Considered(p) && Stocks(p, w)
    requires p.steps[w.status.control.pc].Branch?
    requires !LosesValue(p, w, input)
    ensures var next := Transition(p, w, input);
            && OnlyIterations(next.data.vars)
            && |next.history.frames| == |w.history.frames| + 1
            && (forall n: nat | 0 < n < |next.history.frames| ::
                  HeldIn(p.steps, next.data.vars, next.history.frames[..n], "x"))
            && (FramesMatch(p.steps, next.data.vars, next.history.frames) ==>
                  !TopHasRun(p.steps, next.status.control.pc, next.history.frames))
  {
    var next, frames := Transition(p, w, input), w.history.frames;
    BranchWeight(p.steps, w.status.control.pc);
    forall n: nat | 0 < n < |next.history.frames|
      ensures HeldIn(p.steps, next.data.vars, next.history.frames[..n], "x")
    {
      AllHeld(p, w, n);
      assert next.history.frames[..n] == frames[..n];
      assert !LosesName(p, w, input, n, "x");
    }
  }

  lemma StepStocks(p: Program, w: World, input: IterationInput)
    requires Consistent(p, w) && Active(w) && Considered(p) && Stocks(p, w) && input.effect == Answer()
    requires !LosesValue(p, w, input)
    ensures Stocks(p, Transition(p, w, input))
  {
    var next := Transition(p, w, input);
    NextIsDisciplined(p.steps, p.entry, w.status.control, w.history.frames, ControlInput(p, w, input));
    if Active(next) {
      FramesStayMatched(p, w, input);
      match p.steps[w.status.control.pc]
      case Scenario(_, _, _) => ScenarioStocks(p, w, input);
      case Branch(_, _, _, _) => BranchStocks(p, w, input);
      case Join(_, _) => JoinStocks(p, w, input);
      case Loop(_, _, _, _) => LoopStocks(p, w, input);
    }
  }

  lemma JoinStocks(p: Program, w: World, input: IterationInput)
    requires Consistent(p, w) && Active(w) && Active(Transition(p, w, input)) && Considered(p) && Stocks(p, w)
    requires p.steps[w.status.control.pc].Join?
    ensures var next := Transition(p, w, input);
            && OnlyIterations(next.data.vars)
            && forall n: nat | 0 < n <= |next.history.frames| ::
                 HeldIn(p.steps, next.data.vars, next.history.frames[..n], "x")
  {
    JoinPops(p, w, input);
    var next, frames := Transition(p, w, input), w.history.frames;
    forall n: nat | 0 < n <= |next.history.frames|
      ensures HeldIn(p.steps, next.data.vars, next.history.frames[..n], "x")
    {
      AllHeld(p, w, n);
      assert next.history.frames[..n] == frames[..n];
    }
  }

  lemma LoopStocks(p: Program, w: World, input: IterationInput)
    requires Consistent(p, w) && Active(w) && Considered(p) && Stocks(p, w)
    requires p.steps[w.status.control.pc].Loop?
    ensures var next := Transition(p, w, input);
            && next.data.vars == w.data.vars && next.history.frames == w.history.frames
            && forall n: nat | 0 < n <= |w.history.frames| ::
                 HeldIn(p.steps, w.data.vars, w.history.frames[..n], "x")
  {
    forall n: nat | 0 < n <= |w.history.frames|
      ensures HeldIn(p.steps, w.data.vars, w.history.frames[..n], "x")
    {
      AllHeld(p, w, n);
    }
  }

  ghost predicate Answered(inputs: seq<IterationInput>) {
    forall i | 0 <= i < |inputs| :: inputs[i].effect == Answer()
  }

  lemma {:induction false} RunsStock(p: Program, inputs: seq<IterationInput>)
    requires Considered(p) && |Nothing().results| == p.assertionCount && NeverLoses(p, Nothing()) && Answered(inputs)
    ensures Stocks(p, RunAll(p, StartWorld(p, Nothing()), inputs))
    decreases |inputs|
  {
    var start := StartWorld(p, Nothing());
    if inputs == [] {
      RunsAreDisciplined(p.steps, p.entry, []);
    } else {
      var rest, last := inputs[..|inputs| - 1], inputs[|inputs| - 1];
      RunsStock(p, rest);
      RunAllLast(p, start, inputs);
      var w := RunAll(p, start, rest);
      assert !LosesAt(p, Nothing(), rest, last);
      if Active(w) {
        StepStocks(p, w, last);
      }
    }
  }

  // ----- the same run with data

  function WithAnswers(inputs: seq<Input>): (r: seq<IterationInput>)
    ensures |r| == |inputs|
  {
    seq(|inputs|, i requires 0 <= i < |inputs| => IterationInput(Answer(), inputs[i].selection))
  }

  lemma SameTransition(p: Program, w: World, input: Input)
    requires Consistent(p, w) && Active(w) && p == Capturing(p.steps, p.entry)
    requires Next(p.steps, w.status.control, input).Running?
    ensures var next := Transition(p, w, IterationInput(Answer(), input.selection));
            && next.status == Next(p.steps, w.status.control, input)
            && next.history.frames == NextFrames(p.steps, w.status.control, w.history.frames, input)
  {
    if p.steps[w.status.control.pc].Scenario? {
      assert Current(p, w) == CaptureStep();
    }
  }

  /** Where the control machine goes on, so does the scenario. */
  lemma {:induction false} SameRun(p: Program, w: World, inputs: seq<Input>)
    requires Consistent(p, w) && p == Capturing(p.steps, p.entry) && Run(p.steps, w.status, inputs).Running?
    ensures RunAll(p, w, WithAnswers(inputs)).status == Run(p.steps, w.status, inputs)
    ensures RunAll(p, w, WithAnswers(inputs)).history.frames
         == RunFrames(p.steps, w.status, w.history.frames, inputs)
    decreases |inputs|
  {
    if inputs != [] && Active(w) {
      SameTransition(p, w, inputs[0]);
      assert WithAnswers(inputs)[1..] == WithAnswers(inputs[1..]);
      SameRun(p, Transition(p, w, WithAnswers(inputs)[0]), inputs[1..]);
    }
  }

  /** Nested routes that share a key lose a value. */
  lemma SharedKeyLoses(steps: seq<Step>, entry: nat, b: nat, k: nat, d: nat, m: nat)
    requires WellStructured(steps, entry) && NoForeignEntry(steps, entry) && RoutesOpenWithSteps(steps)
    requires IsRoute(steps, b, k) && IsRoute(steps, d, m) && InsideVia(steps, b, k, d)
    requires steps[b].routes[k].scopeKey == steps[d].routes[m].scopeKey
    ensures Sound(Capturing(steps, entry)) && !NeverLoses(Capturing(steps, entry), Nothing())
  {
    var p := Capturing(steps, entry);
    CapturingIsSound(steps, entry);
    if NeverLoses(p, Nothing()) {
      var choice, inputs, i := RunToNested(steps, entry, b, k, d, m);
      SameRun(p, StartWorld(p, Nothing()), inputs);
      RunsStock(p, WithAnswers(inputs));
      var w := RunAll(p, StartWorld(p, Nothing()), WithAnswers(inputs));
      AllHeld(p, w, i + 1);
      assert LosesName(p, w, IterationInput(Answer(), choice[d]), i + 1, "x");
      assert LosesAt(p, Nothing(), WithAnswers(inputs), IterationInput(Answer(), choice[d]));
    }
  }

  /** In plans whose routes open with a scenario step: no run of any scenario
      loses a value exactly when the keys of nested routes are distinct. */
  lemma StoredValuesAreExact(steps: seq<Step>, entry: nat)
    requires WellStructured(steps, entry) && NoForeignEntry(steps, entry) && RoutesOpenWithSteps(steps)
    ensures NestedKeysDistinct(steps) <==> PlanIsSafe(steps, entry)
  {
    if NestedKeysDistinct(steps) {
      forall p: Program, d: Data | Sound(p) && p.steps == steps && p.entry == entry && |d.results| == p.assertionCount
        ensures NeverLoses(p, d)
      {
        DistinctNeverLoses(p, d);
      }
    } else {
      var b: nat, k: nat, d: nat, m: nat :|
        IsRoute(steps, b, k) && IsRoute(steps, d, m) && InsideVia(steps, b, k, d)
        && steps[b].routes[k].scopeKey == steps[d].routes[m].scopeKey;
      SharedKeyLoses(steps, entry, b, k, d, m);
      CapturingIsSound(steps, entry);
      assert !NeverLoses(Capturing(steps, entry), Nothing());
    }
  }

  lemma DistinctKeeps(p: Program, d: Data, inputs: seq<IterationInput>, input: IterationInput)
    requires Sound(p) && |d.results| == p.assertionCount
    requires WellStructured(p.steps, p.entry) && NoForeignEntry(p.steps, p.entry) && NestedKeysDistinct(p.steps)
    ensures !LosesAt(p, d, inputs, input)
  {
    var w := RunAll(p, StartWorld(p, d), inputs);
    if Active(w) {
      BranchKeepsOpenValues(p, d, inputs, input);
    }
  }

  lemma DistinctNeverLoses(p: Program, d: Data)
    requires Sound(p) && |d.results| == p.assertionCount
    requires WellStructured(p.steps, p.entry) && NoForeignEntry(p.steps, p.entry) && NestedKeysDistinct(p.steps)
    ensures NeverLoses(p, d)
  {
    forall inputs, input
      ensures !LosesAt(p, d, inputs, input)
    {
      DistinctKeeps(p, d, inputs, input);
    }
  }
}
