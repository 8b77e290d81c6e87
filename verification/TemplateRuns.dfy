/** Template scope soundness over whole runs. */
module TemplateRuns {
  import opened Walks
  import opened ExecutionPlan
  import opened Regions
  import opened Scenario
  import opened Variables
  import opened Machine
  import opened JoinDiscipline
  import opened Iteration
  import opened Freshness
  import opened TemplateScope

  ghost predicate Produces(p: Program, r: int, name: string)
    requires Sound(p)
  {
    IsRequest(p, r) && exists i :: 0 <= i < |RequestAt(p, r).captures| && RequestAt(p, r).captures[i].name == name
  }

  /** r is about to run, or the run may have come here without it. */
  ghost predicate OffPath(p: Program, w: World, r: nat)
    requires Consistent(p, w) && Active(w)
  {
    w.status.control.pc == r || ReachAvoiding(Full(p.steps), p.entry, w.status.control.pc, r)
  }

  /** The frames under which r last ran are still there, and hold the name. */
  ghost predicate StillHeld(p: Program, w: World, r: nat, name: string)
    requires Consistent(p, w)
  {
    && r in w.history.framesAt
    && w.history.framesAt[r] <= w.history.frames
    && (name !in w.history.failed ==> HeldIn(p.steps, w.data.vars, w.history.framesAt[r], name))
  }

  /** r last ran inside the routes recorded for it. */
  ghost predicate RanInside(p: Program, w: World, r: nat)
    requires Consistent(p, w)
  {
    && r in w.history.framesAt
    && var frames := w.history.framesAt[r];
       frames != [] ==> OpenFrame(p.steps, frames[|frames| - 1], r)
  }

  ghost predicate ProducerOk(p: Program, w: World, r: nat, name: string)
    requires Consistent(p, w) && Active(w)
  {
    RanInside(p, w, r) && (OffPath(p, w, r) || StillHeld(p, w, r, name))
  }

  ghost predicate ScopeInvariant(p: Program, w: World, name: string)
    requires Consistent(p, w)
  {
    Active(w) ==>
      && FramesMatch(p.steps, w.data.vars, w.history.frames)
      && Disciplined(p.steps, w.status, w.history.frames)
      && (forall r: nat | r in w.history.executed && Produces(p, r, name) :: ProducerOk(p, w, r, name))
  }

  lemma OffPathStays(p: Program, w: World, input: IterationInput, r: nat)
    requires Consistent(p, w) && Active(w) && Active(Transition(p, w, input))
    requires ReachAvoiding(Full(p.steps), p.entry, w.status.control.pc, r)
    ensures OffPath(p, Transition(p, w, input), r)
  {
    GraphsWellFormed(p.steps);
    NextFollowsEdge(p.steps, w.status.control, ControlInput(p, w, input));
    var next := Transition(p, w, input).status.control.pc;
    if next != r {
      ReachThen(Full(p.steps), p.entry, w.status.control.pc, next, r);
    }
  }

  /** The routes being taken contain the scenario step about to run. */
  lemma RanInsideNow(p: Program, w: World, input: IterationInput)
    requires Consistent(p, w) && Active(w) && Disciplined(p.steps, w.status, w.history.frames)
    ensures RanInside(p, Transition(p, w, input), w.status.control.pc)
  {
    var frames := w.history.frames;
    if frames != [] {
      FrameFacts(p.steps, w.status.control, frames, |frames| - 1);
    }
  }

  // ----- the four kinds of transition

  lemma KeepsHeld(steps: seq<Step>, v: Vars, u: Vars, frames: seq<Frame>, name: string)
    requires Keeps(v, u, name) && HeldIn(steps, v, frames, name)
    ensures HeldIn(steps, u, frames, name)
  {
  }

  lemma OwnRunHolds(p: Program, w: World, input: IterationInput, name: string)
    requires Consistent(p, w) && Active(w) && Active(Transition(p, w, input))
    requires Produces(p, w.status.control.pc, name)
    requires FramesMatch(p.steps, w.data.vars, w.history.frames)
    ensures StillHeld(p, Transition(p, w, input), w.status.control.pc, name)
  {
    var request := RequestAt(p, w.status.control.pc);
    var v := w.data.vars;
    var i :| 0 <= i < |request.captures| && request.captures[i].name == name;
    if name !in FailedNames(request, v, input.effect) {
      RequestHolds(request, v, input.effect, i);
      RequestKeeps(request, v, input.effect, name);
    }
  }

  lemma ScenarioKeepsHeld(p: Program, w: World, input: IterationInput, r: nat, name: string)
    requires Consistent(p, w) && Active(w) && Active(Transition(p, w, input))
    requires p.steps[w.status.control.pc].Scenario? && r != w.status.control.pc
    requires StillHeld(p, w, r, name)
    ensures StillHeld(p, Transition(p, w, input), r, name)
  {
    if IsRequest(p, w.status.control.pc) {
      var request := RequestAt(p, w.status.control.pc);
      var next := Transition(p, w, input);
      if name !in next.history.failed {
        RequestKeeps(request, w.data.vars, input.effect, name);
        KeepsHeld(p.steps, w.data.vars, next.data.vars, w.history.framesAt[r], name);
      }
    }
  }

  lemma BranchKeepsHeld(p: Program, w: World, input: IterationInput, r: nat, name: string)
    requires Consistent(p, w) && Active(w) && NestedKeysDistinct(p.steps)
    requires p.steps[w.status.control.pc].Branch? && r != w.status.control.pc
    requires Disciplined(p.steps, w.status, w.history.frames)
    requires StillHeld(p, w, r, name)
    ensures StillHeld(p, Transition(p, w, input), r, name)
  {
    var pc: nat := w.status.control.pc;
    BranchWeight(p.steps, pc);
    assert StepResolved(p.steps, pc);
    var held := w.history.framesAt[r];
    if held != [] {
      var i := |held| - 1;
      assert w.history.frames[i] == held[i];
      FrameFacts(p.steps, w.status.control, w.history.frames, i);
      assert StepResolved(p.steps, held[i].branch);
      assert InsideVia(p.steps, held[i].branch, held[i].route, pc);
      assert IsRoute(p.steps, pc, SelectRoute(p.steps[pc], input.selection));
    }
  }

  lemma LoopKeepsHeld(p: Program, w: World, input: IterationInput, r: nat, name: string)
    requires Consistent(p, w) && Active(w)
    requires p.steps[w.status.control.pc].Loop? && r != w.status.control.pc
    requires StillHeld(p, w, r, name)
    ensures StillHeld(p, Transition(p, w, input), r, name)
  {
  }

  lemma JoinPops(p: Program, w: World, input: IterationInput)
    requires Consistent(p, w) && Active(w) && Active(Transition(p, w, input))
    requires p.steps[w.status.control.pc].Join? && Disciplined(p.steps, w.status, w.history.frames)
    ensures w.history.frames != []
    ensures var frames := w.history.frames; var next := Transition(p, w, input);
            && next.history.frames == frames[..|frames| - 1]
            && next.history.failed == w.history.failed
            && next.history.framesAt == w.history.framesAt[w.status.control.pc as nat := frames]
            && next.data.vars == PopBranch(w.data.vars)
  {
  }

  /** Popping the frame under which r last ran: the join can be reached
      without r. */
  lemma PoppedCanBeBypassed(p: Program, w: World, input: IterationInput, r: nat)
    requires Consistent(p, w) && Active(w) && Active(Transition(p, w, input))
    requires WellStructured(p.steps, p.entry) && NoForeignEntry(p.steps, p.entry)
    requires p.steps[w.status.control.pc].Join? && IsRequest(p, r)
    requires Disciplined(p.steps, w.status, w.history.frames) && w.history.frames != []
    requires OpenFrame(p.steps, w.history.frames[|w.history.frames| - 1], r)
    ensures OffPath(p, Transition(p, w, input), r)
  {
    var frames := w.history.frames;
    var frame := frames[|frames| - 1];
    FrameFacts(p.steps, w.status.control, frames, |frames| - 1);
    assert StepResolved(p.steps, frame.branch);
    assert InsideVia(p.steps, frame.branch, frame.route, r);
    JoinBypassesInside(p.steps, p.entry, frame.branch, frame.route, r);
    OffPathStays(p, w, input, r);
  }

  /** A join pops one frame: either r ran further out, or it can be bypassed. */
  lemma JoinKeepsOrBypasses(p: Program, w: World, input: IterationInput, r: nat, name: string)
    requires Consistent(p, w) && Active(w) && Active(Transition(p, w, input))
    requires WellStructured(p.steps, p.entry) && NoForeignEntry(p.steps, p.entry)
    requires p.steps[w.status.control.pc].Join? && IsRequest(p, r)
    requires Disciplined(p.steps, w.status, w.history.frames)
    requires RanInside(p, w, r) && StillHeld(p, w, r, name)
    ensures ProducerOk(p, Transition(p, w, input), r, name)
  {
    JoinPops(p, w, input);
    var frames := w.history.frames;
    var held := w.history.framesAt[r];
    if held == frames {
      PoppedCanBeBypassed(p, w, input, r);
    } else {
      assert held <= frames[..|frames| - 1];
      assert StillHeld(p, Transition(p, w, input), r, name);
    }
  }

  lemma ProducerStaysOk(p: Program, w: World, input: IterationInput, r: nat, name: string)
    requires Consistent(p, w) && Active(w) && Active(Transition(p, w, input))
    requires WellStructured(p.steps, p.entry) && NoForeignEntry(p.steps, p.entry) && NestedKeysDistinct(p.steps)
    requires FramesMatch(p.steps, w.data.vars, w.history.frames)
    requires Disciplined(p.steps, w.status, w.history.frames)
    requires Produces(p, r, name) && (r in w.history.executed ==> ProducerOk(p, w, r, name))
    requires r == w.status.control.pc || r in w.history.executed
    ensures ProducerOk(p, Transition(p, w, input), r, name)
  {
    if r == w.status.control.pc {
      RanInsideNow(p, w, input);
      OwnRunHolds(p, w, input, name);
    } else if OffPath(p, w, r) {
      OffPathStays(p, w, input, r);
    } else {
      match p.steps[w.status.control.pc]
      case Scenario(_, _, _) => ScenarioKeepsHeld(p, w, input, r, name);
      case Branch(_, _, _, _) => BranchKeepsHeld(p, w, input, r, name);
      case Join(_, _) => JoinKeepsOrBypasses(p, w, input, r, name);
      case Loop(_, _, _, _) => LoopKeepsHeld(p, w, input, r, name);
    }
  }

  lemma FramesStayMatched(p: Program, w: World, input: IterationInput)
    requires Consistent(p, w) && Active(w) && Active(Transition(p, w, input))
    requires FramesMatch(p.steps, w.data.vars, w.history.frames)
    requires Disciplined(p.steps, w.status, w.history.frames)
    ensures FramesMatch(p.steps, Transition(p, w, input).data.vars, Transition(p, w, input).history.frames)
  {
    var pc := w.status.control.pc;
    match p.steps[pc]
    case Scenario(_, _, _) =>
      if IsRequest(p, pc) {
        RequestKeepsFrames(RequestAt(p, pc), w.data.vars, input.effect);
      }
    case Branch(_, _, _, _) => BranchWeight(p.steps, pc);
    case Join(_, _) =>
    case Loop(_, _, _, _) =>
  }

  lemma RequestKeepsFrames(request: RequestStep, v: Vars, effect: Effect)
    requires v.FramesStored()
    ensures VarsAfter(request, v, effect).frames == v.frames
    ensures VarsAfter(request, v, effect).runtime == v.runtime
  {
    var captures := request.captures;
    InvalidateAllKeepsFrames(v, captures);
    if effect.Respond? {
      DropKeepsFrames(v, captures, effect.response, |captures|);
      var dropped := DropUnselected(v, captures, effect.response, |captures|);
      var positions := EligiblePositions(v, captures, effect.response, |captures|);
      assert forall j | 0 <= j < |positions| :: positions[j] in positions;
      InvalidateAllKeepsFrames(dropped, Selected(captures, positions));
      if AllFound(effect.response, positions) {
        SetAllKeeps(dropped, captures, effect.response, positions, "");
      }
    }
  }

  lemma {:induction false} InvalidateAllKeepsFrames(v: Vars, captures: seq<Capture>)
    requires v.FramesStored()
    ensures InvalidateAll(v, captures).frames == v.frames && InvalidateAll(v, captures).runtime == v.runtime
  {
    if captures != [] {
      InvalidateAllKeepsFrames(v, captures[..|captures| - 1]);
    }
  }

  lemma {:induction false} DropKeepsFrames(v: Vars, captures: seq<Capture>, response: Response, n: nat)
    requires v.FramesStored() && n <= |captures|
    ensures DropUnselected(v, captures, response, n).frames == v.frames
    ensures DropUnselected(v, captures, response, n).runtime == v.runtime
  {
    if n > 0 {
      DropKeepsFrames(v, captures, response, n - 1);
    }
  }

  // ----- whole runs

  lemma InvariantKept(p: Program, w: World, input: IterationInput, name: string)
    requires Consistent(p, w) && Active(w) && ScopeInvariant(p, w, name)
    requires WellStructured(p.steps, p.entry) && NoForeignEntry(p.steps, p.entry) && NestedKeysDistinct(p.steps)
    ensures ScopeInvariant(p, Transition(p, w, input), name)
  {
    var next := Transition(p, w, input);
    NextIsDisciplined(p.steps, p.entry, w.status.control, w.history.frames, ControlInput(p, w, input));
    if Active(next) {
      FramesStayMatched(p, w, input);
      forall r: nat | r in next.history.executed && Produces(p, r, name)
        ensures ProducerOk(p, next, r, name)
      {
        ProducerStaysOk(p, w, input, r, name);
      }
    }
  }

  lemma {:induction false} RunsKeepInvariant(p: Program, d: Data, inputs: seq<IterationInput>, name: string)
    requires Sound(p) && |d.results| == p.assertionCount
    requires WellStructured(p.steps, p.entry) && NoForeignEntry(p.steps, p.entry) && NestedKeysDistinct(p.steps)
    ensures ScopeInvariant(p, RunAll(p, StartWorld(p, d), inputs), name)
    decreases |inputs|
  {
    var start := StartWorld(p, d);
    if inputs == [] {
      RunsAreDisciplined(p.steps, p.entry, []);
    } else {
      RunsKeepInvariant(p, d, inputs[..|inputs| - 1], name);
      RunAllLast(p, start, inputs);
      var before := RunAll(p, start, inputs[..|inputs| - 1]);
      if Active(before) {
        InvariantKept(p, before, inputs[|inputs| - 1], name);
      }
    }
  }

  lemma {:induction false} RunsKeepRuntime(p: Program, d: Data, inputs: seq<IterationInput>)
    requires Sound(p) && |d.results| == p.assertionCount
    ensures RunAll(p, StartWorld(p, d), inputs).data.vars.runtime == d.vars.runtime
    decreases |inputs|
  {
    if inputs != [] {
      RunsKeepRuntime(p, d, inputs[..|inputs| - 1]);
      RunAllLast(p, StartWorld(p, d), inputs);
      var before := RunAll(p, StartWorld(p, d), inputs[..|inputs| - 1]);
      if Active(before) && IsRequest(p, before.status.control.pc) {
        RequestKeepsFrames(RequestAt(p, before.status.control.pc), before.data.vars, inputs[|inputs| - 1].effect);
      }
    }
  }

  /** A name with a dominating producer is found when a step runs, unless one
      of its captures has failed in this iteration. */
  lemma ProducedNameIsFound(p: Program, d: Data, inputs: seq<IterationInput>, r: nat, name: string)
    requires Sound(p) && |d.results| == p.assertionCount
    requires WellStructured(p.steps, p.entry) && NoForeignEntry(p.steps, p.entry) && NestedKeysDistinct(p.steps)
    requires Active(RunAll(p, StartWorld(p, d), inputs)) && Produces(p, r, name)
    requires var w := RunAll(p, StartWorld(p, d), inputs);
             && r != w.status.control.pc && Dominates(Full(p.steps), p.entry, r, w.status.control.pc)
             && name !in w.history.failed
    ensures Value(RunAll(p, StartWorld(p, d), inputs).data.vars, name).Some?
  {
    var w := RunAll(p, StartWorld(p, d), inputs);
    DominatorHasRun(p, d, inputs, r);
    RunsKeepInvariant(p, d, inputs, name);
    assert ProducerOk(p, w, r, name);
    HeldIsFound(p.steps, w.data.vars, w.history.framesAt[r], w.history.frames, name);
  }

  /** What the compiler checks of the template names of a request. */
  ghost predicate TemplateCovered(p: Program, runtimeNames: set<string>, x: nat, name: string)
    requires Sound(p)
  {
    || name in runtimeNames
    || exists r: nat :: Produces(p, r, name) && r != x && Dominates(Full(p.steps), p.entry, r, x)
  }

  ghost predicate TemplatesCovered(p: Program, runtimeNames: set<string>)
    requires Sound(p)
  {
    forall x: nat, i: nat | IsRequest(p, x) && i < |RequestAt(p, x).templateNames| ::
      TemplateCovered(p, runtimeNames, x, RequestAt(p, x).templateNames[i])
  }

  /** A request of an accepted plan never fails to render its templates in an
      iteration in which no capture of their names has failed. */
  lemma AcceptedRequestRenders(p: Program, d: Data, inputs: seq<IterationInput>)
    requires Sound(p) && |d.results| == p.assertionCount
    requires WellStructured(p.steps, p.entry) && NoForeignEntry(p.steps, p.entry) && NestedKeysDistinct(p.steps)
    requires TemplatesCovered(p, d.vars.runtime.Keys)
    requires Active(RunAll(p, StartWorld(p, d), inputs))
    requires IsRequest(p, RunAll(p, StartWorld(p, d), inputs).status.control.pc)
    requires var w := RunAll(p, StartWorld(p, d), inputs);
             forall name | name in RequestAt(p, w.status.control.pc).templateNames :: name !in w.history.failed
    ensures var w := RunAll(p, StartWorld(p, d), inputs);
            Renders(w.data.vars, RequestAt(p, w.status.control.pc).templateNames)
  {
    var w := RunAll(p, StartWorld(p, d), inputs);
    var x: nat := w.status.control.pc;
    var names := RequestAt(p, x).templateNames;
    RunsKeepRuntime(p, d, inputs);
    forall i: nat | i < |names|
      ensures Value(w.data.vars, names[i]).Some?
    {
      assert TemplateCovered(p, d.vars.runtime.Keys, x, names[i]);
      if names[i] !in d.vars.runtime.Keys {
        var r: nat :| Produces(p, r, names[i]) && r != x && Dominates(Full(p.steps), p.entry, r, x);
        ProducedNameIsFound(p, d, inputs, r, names[i]);
      }
    }
  }
}
