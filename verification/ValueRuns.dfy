/** Where the values that a run sees come from: inside a route the value last
    captured there, in the maps of the iteration only what this iteration has
    captured, and in those of the run what was captured first. */
module ValueRuns {
  import opened ExecutionPlan
  import opened Regions
  import opened Scenario
  import opened Options
  import opened Variables
  import opened Machine
  import opened JoinDiscipline
  import opened Iteration
  import opened Freshness
  import opened TemplateScope
  import opened TemplateRuns
  import opened ScopeKeys
  import opened CapturedValues

  /** The configuration has no request with two captures of one name. */
  predicate CapturesDistinct(p: Program)
    requires Sound(p)
  {
    forall r: nat, i: nat | r < |p.steps| && IsRequest(p, r) && i < |RequestAt(p, r).captures| ::
      OnlyCapture(RequestAt(p, r).captures, i)
  }

  predicate Mentions(request: RequestStep, name: string) {
    exists i :: 0 <= i < |request.captures| && request.captures[i].name == name
  }

  // ----- the values under one stack of routes

  datatype Stored = Stored(iteration: Option<string>, run: Option<string>)

  function AtKey(maps: map<string, Values>, key: string, name: string): Option<string> {
    if key in maps then At(maps[key], name) else None
  }

  /** What is stored where a capture under these routes writes it. */
  function StoredUnder(steps: seq<Step>, v: Vars, frames: seq<Frame>, name: string): Stored
    requires frames == [] || IsRoute(steps, frames[|frames| - 1].branch, frames[|frames| - 1].route)
  {
    if frames == [] then Stored(At(v.iteration, name), At(v.run, name))
    else
      var key := KeyOf(steps, frames[|frames| - 1]);
      Stored(AtKey(v.branchIterations, key, name), AtKey(v.branchRuns, key, name))
  }

  lemma TopIsStored(steps: seq<Step>, v: Vars, frames: seq<Frame>, name: string)
    requires v.FramesStored() && FramesMatch(steps, v, frames)
    ensures frames == [] || IsRoute(steps, frames[|frames| - 1].branch, frames[|frames| - 1].route)
    ensures StoredUnder(steps, v, frames, name) == Stored(At(v.TopIteration(), name), At(v.TopRun(), name))
  {
  }

  lemma SparedUnder(steps: seq<Step>, v: Vars, u: Vars, frames: seq<Frame>, name: string)
    requires v.FramesStored() && u.FramesStored() && OnlyTopChanges(v, u)
    requires At(u.TopIteration(), name) == At(v.TopIteration(), name)
    requires At(u.TopRun(), name) == At(v.TopRun(), name)
    requires frames == [] || IsRoute(steps, frames[|frames| - 1].branch, frames[|frames| - 1].route)
    ensures StoredUnder(steps, u, frames, name) == StoredUnder(steps, v, frames, name)
  {
  }

  /** The step about to run captures the name. */
  predicate CapturesNow(p: Program, w: World, name: string)
    requires Consistent(p, w) && Active(w)
  {
    IsRequest(p, w.status.control.pc) && Mentions(RequestAt(p, w.status.control.pc), name)
  }

  lemma BranchKeepsStored(p: Program, w: World, input: IterationInput, frames: seq<Frame>, name: string)
    requires Consistent(p, w) && Active(w) && IsBranch(p.steps, w.status.control.pc)
    requires NestedKeysDistinct(p.steps) && Disciplined(p.steps, w.status, w.history.frames)
    requires frames <= w.history.frames
    ensures frames == [] || IsRoute(p.steps, frames[|frames| - 1].branch, frames[|frames| - 1].route)
    ensures StoredUnder(p.steps, Transition(p, w, input).data.vars, frames, name)
         == StoredUnder(p.steps, w.data.vars, frames, name)
  {
    var pc: nat := w.status.control.pc;
    BranchWeight(p.steps, pc);
    OpenKeysDiffer(p.steps, w.status.control, w.history.frames, SelectRoute(p.steps[pc], input.selection));
    if frames != [] {
      assert frames[|frames| - 1] == w.history.frames[|frames| - 1];
    }
  }

  /** A transition that does not capture the name leaves it as it is stored
      under the routes being taken. */
  lemma TransitionKeepsStored(p: Program, w: World, input: IterationInput, frames: seq<Frame>, name: string)
    requires Consistent(p, w) && Active(w) && NestedKeysDistinct(p.steps)
    requires Disciplined(p.steps, w.status, w.history.frames)
    requires !CapturesNow(p, w, name) && frames <= w.history.frames
    requires frames == [] || IsRoute(p.steps, frames[|frames| - 1].branch, frames[|frames| - 1].route)
    ensures StoredUnder(p.steps, Transition(p, w, input).data.vars, frames, name)
         == StoredUnder(p.steps, w.data.vars, frames, name)
  {
    var pc: nat := w.status.control.pc;
    if IsBranch(p.steps, pc) {
      BranchKeepsStored(p, w, input, frames, name);
    } else if IsRequest(p, pc) && !input.effect.Cancel? {
      var request := RequestAt(p, pc);
      RequestSpares(request, w.data.vars, input.effect, name);
      SparedUnder(p.steps, w.data.vars, VarsAfter(request, w.data.vars, input.effect), frames, name);
    }
  }

  // ----- since a request ran

  /** The routes that were being taken after j inputs have been taken since. */
  ghost predicate OpenSince(p: Program, d: Data, inputs: seq<IterationInput>, j: nat)
    requires Sound(p) && |d.results| == p.assertionCount && j <= |inputs|
  {
    forall m: nat | j <= m <= |inputs| ::
      After(p, d, inputs, j).history.frames <= After(p, d, inputs, m).history.frames
  }

  /** No step after the j-th transition captures the name. */
  ghost predicate NotCapturedSince(p: Program, d: Data, inputs: seq<IterationInput>, j: nat, name: string)
    requires Sound(p) && |d.results| == p.assertionCount
  {
    forall m: nat | j < m < |inputs| && Active(After(p, d, inputs, m)) ::
      !CapturesNow(p, After(p, d, inputs, m), name)
  }

  lemma AfterPrefix(p: Program, d: Data, inputs: seq<IterationInput>, n: nat, m: nat)
    requires Sound(p) && |d.results| == p.assertionCount && m <= n <= |inputs|
    ensures After(p, d, inputs[..n], m) == After(p, d, inputs, m)
  {
    assert inputs[..n][..m] == inputs[..m];
  }

  lemma AfterNext(p: Program, d: Data, inputs: seq<IterationInput>, m: nat)
    requires Sound(p) && |d.results| == p.assertionCount && m < |inputs|
    ensures After(p, d, inputs, m + 1) == if Active(After(p, d, inputs, m))
                                          then Transition(p, After(p, d, inputs, m), inputs[m])
                                          else After(p, d, inputs, m)
  {
    RunAllLast(p, StartWorld(p, d), inputs[..m + 1]);
    assert inputs[..m + 1][..m] == inputs[..m];
  }

  lemma {:induction false} StoredSince(p: Program, d: Data, inputs: seq<IterationInput>, j: nat, n: nat, name: string)
    requires Sound(p) && |d.results| == p.assertionCount && j < n <= |inputs|
    requires WellStructured(p.steps, p.entry) && NoForeignEntry(p.steps, p.entry) && NestedKeysDistinct(p.steps)
    requires OpenSince(p, d, inputs, j) && NotCapturedSince(p, d, inputs, j, name)
    requires Active(After(p, d, inputs, n))
    ensures var frames := After(p, d, inputs, j).history.frames;
            && (frames == [] || IsRoute(p.steps, frames[|frames| - 1].branch, frames[|frames| - 1].route))
            && StoredUnder(p.steps, After(p, d, inputs, n).data.vars, frames, name)
            == StoredUnder(p.steps, After(p, d, inputs, j + 1).data.vars, frames, name)
    decreases n
  {
    hide WellStructured, NoForeignEntry, NestedKeysDistinct, StoredUnder, RunAll, Produces, ProducerOk, Sound;
    var frames := After(p, d, inputs, j).history.frames;
    assert frames <= After(p, d, inputs, n).history.frames;
    RunsKeepInvariant(p, d, inputs[..n], name);
    if frames != [] {
      assert frames[|frames| - 1] == After(p, d, inputs, n).history.frames[|frames| - 1];
    }
    if j + 1 < n {
      AfterNext(p, d, inputs, n - 1);
      StoredSince(p, d, inputs, j, n - 1, name);
      RunsKeepInvariant(p, d, inputs[..n - 1], name);
      assert frames <= After(p, d, inputs, n - 1).history.frames;
      TransitionKeepsStored(p, After(p, d, inputs, n - 1), inputs[n - 1], frames, name);
    }
  }

  // ----- the value last captured in a route

  /** What is stored on top is visible. */
  lemma TopIsVisible(v: Vars, name: string)
    requires v.FramesStored() && name !in v.runtime
    ensures var iteration, run := At(v.TopIteration(), name), At(v.TopRun(), name);
            iteration.Some? || run.Some? ==> Value(v, name) == if iteration.Some? then iteration else run
  {
    if v.frames != [] && FrameHolds(v, name, |v.frames| - 1) {
      InnermostDecides(v, name, |v.frames|, |v.frames| - 1);
    }
  }

  lemma CapturedUnder(p: Program, w: World, input: IterationInput, i: nat)
    requires Consistent(p, w) && Active(w) && IsRequest(p, w.status.control.pc) && !input.effect.Cancel?
    requires OnlyCapture(RequestAt(p, w.status.control.pc).captures, i)
    requires FramesMatch(p.steps, w.data.vars, w.history.frames)
    ensures var request, frames := RequestAt(p, w.status.control.pc), w.history.frames;
            var capture, given := request.captures[i], Given(request, w.data.vars, input.effect, i);
            && (frames == [] || IsRoute(p.steps, frames[|frames| - 1].branch, frames[|frames| - 1].route))
            && var before, after := StoredUnder(p.steps, w.data.vars, frames, capture.name),
                                    StoredUnder(p.steps, Transition(p, w, input).data.vars, frames, capture.name);
               && after.iteration == (if capture.scope == IterationScope then given else before.iteration)
               && after.run == if capture.scope == RunScope && before.run.None? then given else before.run
  {
    var request := RequestAt(p, w.status.control.pc);
    var name := request.captures[i].name;
    var u := VarsAfter(request, w.data.vars, input.effect);
    RequestCaptures(request, w.data.vars, input.effect, i);
    TopIsStored(p.steps, w.data.vars, w.history.frames, name);
    TopIsStored(p.steps, u, w.history.frames, name);
  }

  /** The value that a name has inside a route is the one that was captured
      there last, whatever is stored under it elsewhere: the response of the
      request gave it, for a name of the iteration; for a name of the run the
      first one given stays. */
  lemma LatestCaptureIsFound(p: Program, d: Data, inputs: seq<IterationInput>, j: nat, i: nat)
    requires Sound(p) && |d.results| == p.assertionCount && j < |inputs|
    requires WellStructured(p.steps, p.entry) && NoForeignEntry(p.steps, p.entry) && NestedKeysDistinct(p.steps)
    requires var w := After(p, d, inputs, j);
             && Active(w) && IsRequest(p, w.status.control.pc) && !inputs[j].effect.Cancel?
             && OnlyCapture(RequestAt(p, w.status.control.pc).captures, i)
             && RequestAt(p, w.status.control.pc).captures[i].name !in d.vars.runtime
             && NotCapturedSince(p, d, inputs, j, RequestAt(p, w.status.control.pc).captures[i].name)
    requires OpenSince(p, d, inputs, j) && Active(RunAll(p, StartWorld(p, d), inputs))
    requires RunAll(p, StartWorld(p, d), inputs).history.frames == After(p, d, inputs, j).history.frames
    ensures var w := After(p, d, inputs, j);
            var v, request := w.data.vars, RequestAt(p, w.status.control.pc);
            var capture, given := request.captures[i], Given(request, v, inputs[j].effect, i);
            var found := Value(RunAll(p, StartWorld(p, d), inputs).data.vars, capture.name);
            && (capture.scope == IterationScope && given.Some? ==> found == given)
            && (capture.scope == RunScope && capture.name !in v.TopIteration() ==>
                  && (capture.name in v.TopRun() ==> found == Some(v.TopRun()[capture.name]))
                  && (capture.name !in v.TopRun() && given.Some? ==> found == given))
  {
    var w, last := After(p, d, inputs, j), RunAll(p, StartWorld(p, d), inputs);
    var name := RequestAt(p, w.status.control.pc).captures[i].name;
    assert inputs[..|inputs|] == inputs;
    RunsKeepInvariant(p, d, inputs, name);
    RunsKeepInvariant(p, d, inputs[..j], name);
    RunsKeepRuntime(p, d, inputs);
    StoredSince(p, d, inputs, j, |inputs|, name);
    AfterNext(p, d, inputs, j);
    CapturedUnder(p, w, inputs[j], i);
    TopIsStored(p.steps, w.data.vars, w.history.frames, name);
    TopIsStored(p.steps, last.data.vars, last.history.frames, name);
    TopIsVisible(last.data.vars, name);
  }

  // ----- where values come from

  /** The m-th transition runs a request whose i-th capture gives the name this
      value. */
  ghost predicate CapturesAt(p: Program, d: Data, inputs: seq<IterationInput>, m: nat, i: nat, name: string,
                             scope: VariableScope, value: string)
    requires Sound(p) && |d.results| == p.assertionCount
  {
    && m < |inputs| && Active(After(p, d, inputs, m)) && IsRequest(p, After(p, d, inputs, m).status.control.pc)
    && var w := After(p, d, inputs, m); var request := RequestAt(p, w.status.control.pc);
       && i < |request.captures| && request.captures[i] == Capture(name, scope)
       && Given(request, w.data.vars, inputs[m].effect, i) == Some(value)
  }

  ghost predicate Captured(p: Program, d: Data, inputs: seq<IterationInput>, name: string, scope: VariableScope,
                           value: string)
    requires Sound(p) && |d.results| == p.assertionCount
  {
    exists m: nat, i: nat :: CapturesAt(p, d, inputs, m, i, name, scope, value)
  }

  lemma CapturedBefore(p: Program, d: Data, inputs: seq<IterationInput>, name: string, scope: VariableScope,
                       value: string)
    requires Sound(p) && |d.results| == p.assertionCount && inputs != []
    requires Captured(p, d, inputs[..|inputs| - 1], name, scope, value)
    ensures Captured(p, d, inputs, name, scope, value)
  {
    var shorter := inputs[..|inputs| - 1];
    var m: nat, i: nat :| CapturesAt(p, d, shorter, m, i, name, scope, value);
    AfterPrefix(p, d, inputs, |inputs| - 1, m);
    assert CapturesAt(p, d, inputs, m, i, name, scope, value);
  }

  lemma CapturedLast(p: Program, d: Data, inputs: seq<IterationInput>, i: nat)
    requires Sound(p) && |d.results| == p.assertionCount && inputs != []
    requires var w := After(p, d, inputs, |inputs| - 1);
             && Active(w) && IsRequest(p, w.status.control.pc)
             && i < |RequestAt(p, w.status.control.pc).captures|
             && Given(RequestAt(p, w.status.control.pc), w.data.vars, inputs[|inputs| - 1].effect, i).Some?
    ensures var w := After(p, d, inputs, |inputs| - 1);
            var request := RequestAt(p, w.status.control.pc);
            var given := Given(request, w.data.vars, inputs[|inputs| - 1].effect, i);
            Captured(p, d, inputs, request.captures[i].name, request.captures[i].scope, given.value)
  {
    var w := After(p, d, inputs, |inputs| - 1);
    var request := RequestAt(p, w.status.control.pc);
    var given := Given(request, w.data.vars, inputs[|inputs| - 1].effect, i);
    assert CapturesAt(p, d, inputs, |inputs| - 1, i, request.captures[i].name, request.captures[i].scope, given.value);
  }

  ghost predicate AllCaptured(p: Program, d: Data, inputs: seq<IterationInput>, values: Values)
    requires Sound(p) && |d.results| == p.assertionCount
  {
    forall name | name in values :: Captured(p, d, inputs, name, IterationScope, values[name])
  }

  /** Nothing in the maps of the iteration is older than the iteration. */
  ghost predicate IterationFresh(p: Program, d: Data, inputs: seq<IterationInput>, v: Vars)
    requires Sound(p) && |d.results| == p.assertionCount && v.FramesStored()
  {
    && AllCaptured(p, d, inputs, v.iteration)
    && forall k | 0 <= k < |v.frames| :: AllCaptured(p, d, inputs, v.branchIterations[v.frames[k]])
  }

  /** A run value is never replaced, and a new one was captured. */
  ghost predicate RunKept(p: Program, d: Data, inputs: seq<IterationInput>, before: Values, after: Values)
    requires Sound(p) && |d.results| == p.assertionCount
  {
    && (forall name | name in before :: name in after && after[name] == before[name])
    && (forall name | name in after && name !in before :: Captured(p, d, inputs, name, RunScope, after[name]))
  }

  function KeptFor(v: Vars, key: string): Values {
    if key in v.branchRuns then v.branchRuns[key] else map[]
  }

  ghost predicate RunsKept(p: Program, d: Data, inputs: seq<IterationInput>, v: Vars, u: Vars)
    requires Sound(p) && |d.results| == p.assertionCount
  {
    && RunKept(p, d, inputs, v.run, u.run)
    && (forall key | key in v.branchRuns :: key in u.branchRuns)
    && (forall key | key in u.branchRuns :: RunKept(p, d, inputs, KeptFor(v, key), u.branchRuns[key]))
  }

  lemma FreshLonger(p: Program, d: Data, inputs: seq<IterationInput>, values: Values)
    requires Sound(p) && |d.results| == p.assertionCount && inputs != []
    requires AllCaptured(p, d, inputs[..|inputs| - 1], values)
    ensures AllCaptured(p, d, inputs, values)
  {
    forall name | name in values
      ensures Captured(p, d, inputs, name, IterationScope, values[name])
    {
      CapturedBefore(p, d, inputs, name, IterationScope, values[name]);
    }
  }

  lemma KeptLonger(p: Program, d: Data, inputs: seq<IterationInput>, before: Values, after: Values)
    requires Sound(p) && |d.results| == p.assertionCount && inputs != []
    requires RunKept(p, d, inputs[..|inputs| - 1], before, after)
    ensures RunKept(p, d, inputs, before, after)
  {
    forall name | name in after && name !in before
      ensures Captured(p, d, inputs, name, RunScope, after[name])
    {
      CapturedBefore(p, d, inputs, name, RunScope, after[name]);
    }
  }

  /** The maps on top after the last request. */
  lemma RequestFresh(p: Program, d: Data, inputs: seq<IterationInput>)
    requires Sound(p) && |d.results| == p.assertionCount && CapturesDistinct(p) && inputs != []
    requires Active(After(p, d, inputs, |inputs| - 1))
    requires IsRequest(p, After(p, d, inputs, |inputs| - 1).status.control.pc)
    requires AllCaptured(p, d, inputs, After(p, d, inputs, |inputs| - 1).data.vars.TopIteration())
    ensures var w := After(p, d, inputs, |inputs| - 1);
            var u := VarsAfter(RequestAt(p, w.status.control.pc), w.data.vars, inputs[|inputs| - 1].effect);
            && OnlyTopChanges(w.data.vars, u) && AllCaptured(p, d, inputs, u.TopIteration())
            && RunKept(p, d, inputs, w.data.vars.TopRun(), u.TopRun())
  {
    var w, effect := After(p, d, inputs, |inputs| - 1), inputs[|inputs| - 1].effect;
    var request := RequestAt(p, w.status.control.pc);
    var v, u := w.data.vars, VarsAfter(request, w.data.vars, effect);
    RequestOnTop(request, v, effect);
    forall name
      ensures name in u.TopIteration() ==> Captured(p, d, inputs, name, IterationScope, u.TopIteration()[name])
      ensures name in v.TopRun() ==> name in u.TopRun() && u.TopRun()[name] == v.TopRun()[name]
      ensures name in u.TopRun() && name !in v.TopRun() ==>
                Captured(p, d, inputs, name, RunScope, u.TopRun()[name])
    {
      NameAfterRequest(p, d, inputs, name);
    }
  }

  lemma RequestOnTop(request: RequestStep, v: Vars, effect: Effect)
    requires v.FramesStored()
    ensures OnlyTopChanges(v, VarsAfter(request, v, effect))
  {
    var captures := request.captures;
    InvalidateAllEffect(v, captures, "");
    if Renders(v, request.templateNames) && effect.Respond? {
      var response := effect.response;
      var dropped := DropUnselected(v, captures, response, |captures|);
      var positions := EligiblePositions(v, captures, response, |captures|);
      DropChangesTop(v, captures, response, |captures|);
      if AllFound(response, positions) {
        SetAllChangesTop(dropped, captures, response, positions);
        TopChangesOn(v, dropped, SetAll(dropped, captures, response, positions));
      } else {
        InvalidateAllEffect(dropped, Selected(captures, positions), "");
        TopChangesOn(v, dropped, InvalidateAll(dropped, Selected(captures, positions)));
      }
    }
  }

  lemma NameAfterRequest(p: Program, d: Data, inputs: seq<IterationInput>, name: string)
    requires Sound(p) && |d.results| == p.assertionCount && CapturesDistinct(p) && inputs != []
    requires Active(After(p, d, inputs, |inputs| - 1))
    requires IsRequest(p, After(p, d, inputs, |inputs| - 1).status.control.pc)
    requires AllCaptured(p, d, inputs, After(p, d, inputs, |inputs| - 1).data.vars.TopIteration())
    ensures var w := After(p, d, inputs, |inputs| - 1);
            var v := w.data.vars;
            var u := VarsAfter(RequestAt(p, w.status.control.pc), v, inputs[|inputs| - 1].effect);
            && (name in u.TopIteration() ==> Captured(p, d, inputs, name, IterationScope, u.TopIteration()[name]))
            && (name in v.TopRun() ==> name in u.TopRun() && u.TopRun()[name] == v.TopRun()[name])
            && (name in u.TopRun() && name !in v.TopRun() ==>
                  Captured(p, d, inputs, name, RunScope, u.TopRun()[name]))
  {
    hide OnlyTopChanges, Captured, Given, VarsAfter, Vars.TopRun, Vars.TopIteration;
    var w, effect := After(p, d, inputs, |inputs| - 1), inputs[|inputs| - 1].effect;
    var request := RequestAt(p, w.status.control.pc);
    if Mentions(request, name) {
      var i: nat :| i < |request.captures| && request.captures[i].name == name;
      RequestCaptures(request, w.data.vars, effect, i);
      if Given(request, w.data.vars, effect, i).Some? {
        CapturedLast(p, d, inputs, i);
      }
    } else {
      RequestSpares(request, w.data.vars, effect, name);
    }
  }

  lemma KeptOn(p: Program, d: Data, inputs: seq<IterationInput>, a: Values, b: Values, c: Values)
    requires Sound(p) && |d.results| == p.assertionCount
    requires RunKept(p, d, inputs, a, b) && RunKept(p, d, inputs, b, c)
    ensures RunKept(p, d, inputs, a, c)
  {
  }

  /** What held before the last transition, about all inputs. */
  lemma OriginsLonger(p: Program, d: Data, inputs: seq<IterationInput>, v: Vars)
    requires Sound(p) && |d.results| == p.assertionCount && inputs != [] && v.FramesStored()
    requires IterationFresh(p, d, inputs[..|inputs| - 1], v) && RunsKept(p, d, inputs[..|inputs| - 1], d.vars, v)
    ensures IterationFresh(p, d, inputs, v) && RunsKept(p, d, inputs, d.vars, v)
  {
    hide AllCaptured, RunKept;
    FreshLonger(p, d, inputs, v.iteration);
    KeptLonger(p, d, inputs, d.vars.run, v.run);
    forall k | 0 <= k < |v.frames|
      ensures AllCaptured(p, d, inputs, v.branchIterations[v.frames[k]])
    {
      FreshLonger(p, d, inputs, v.branchIterations[v.frames[k]]);
    }
    forall key | key in v.branchRuns
      ensures RunKept(p, d, inputs, KeptFor(d.vars, key), v.branchRuns[key])
    {
      KeptLonger(p, d, inputs, KeptFor(d.vars, key), v.branchRuns[key]);
    }
  }

  lemma RequestOrigins(p: Program, d: Data, inputs: seq<IterationInput>)
    requires Sound(p) && |d.results| == p.assertionCount && CapturesDistinct(p) && inputs != []
    requires Active(After(p, d, inputs, |inputs| - 1))
    requires IsRequest(p, After(p, d, inputs, |inputs| - 1).status.control.pc)
    requires var v := After(p, d, inputs, |inputs| - 1).data.vars;
             IterationFresh(p, d, inputs, v) && RunsKept(p, d, inputs, d.vars, v)
    ensures var w := After(p, d, inputs, |inputs| - 1);
            var u := VarsAfter(RequestAt(p, w.status.control.pc), w.data.vars, inputs[|inputs| - 1].effect);
            IterationFresh(p, d, inputs, u) && RunsKept(p, d, inputs, d.vars, u)
  {
    hide AllCaptured, RunKept;
    var w := After(p, d, inputs, |inputs| - 1);
    var v := w.data.vars;
    var u := VarsAfter(RequestAt(p, w.status.control.pc), v, inputs[|inputs| - 1].effect);
    RequestFresh(p, d, inputs);
    if v.frames == [] {
      KeptOn(p, d, inputs, d.vars.run, v.run, u.run);
    } else {
      var top := v.frames[|v.frames| - 1];
      KeptOn(p, d, inputs, KeptFor(d.vars, top), v.branchRuns[top], u.branchRuns[top]);
    }
  }

  lemma NothingIsCaptured(p: Program, d: Data, inputs: seq<IterationInput>)
    requires Sound(p) && |d.results| == p.assertionCount
    ensures AllCaptured(p, d, inputs, map[]) && RunKept(p, d, inputs, map[], map[])
  {
  }

  lemma BranchOrigins(p: Program, d: Data, inputs: seq<IterationInput>, v: Vars, key: string)
    requires Sound(p) && |d.results| == p.assertionCount && v.FramesStored()
    requires IterationFresh(p, d, inputs, v) && RunsKept(p, d, inputs, d.vars, v)
    ensures IterationFresh(p, d, inputs, PushBranch(v, key)) && RunsKept(p, d, inputs, d.vars, PushBranch(v, key))
  {
    hide Captured;
    NothingIsCaptured(p, d, inputs);
    hide AllCaptured, RunKept;
    var u := PushBranch(v, key);
    forall k | 0 <= k < |u.frames|
      ensures AllCaptured(p, d, inputs, u.branchIterations[u.frames[k]])
    {
      assert u.frames[k] != key ==> u.frames[k] == v.frames[k];
    }
  }

  lemma TransitionOrigins(p: Program, d: Data, inputs: seq<IterationInput>)
    requires Sound(p) && |d.results| == p.assertionCount && CapturesDistinct(p) && inputs != []
    requires Active(After(p, d, inputs, |inputs| - 1))
    requires var v := After(p, d, inputs, |inputs| - 1).data.vars;
             IterationFresh(p, d, inputs, v) && RunsKept(p, d, inputs, d.vars, v)
    ensures var u := Transition(p, After(p, d, inputs, |inputs| - 1), inputs[|inputs| - 1]).data.vars;
            IterationFresh(p, d, inputs, u) && RunsKept(p, d, inputs, d.vars, u)
  {
    hide AllCaptured, RunKept, KeptFor;
    var w, input := After(p, d, inputs, |inputs| - 1), inputs[|inputs| - 1];
    var pc: nat := w.status.control.pc;
    if IsRequest(p, pc) {
      RequestOrigins(p, d, inputs);
    } else if IsBranch(p.steps, pc) {
      BranchWeight(p.steps, pc);
      BranchOrigins(p, d, inputs, w.data.vars,
                    p.steps[pc].routes[SelectRoute(p.steps[pc], input.selection)].scopeKey);
    }
  }

  /** In every run the maps of the iteration hold only what this iteration has
      captured under their names, also those of the routes being taken; and run
      values, which iterations share, are those that were captured first. */
  lemma {:induction false} ValuesHaveOrigins(p: Program, d: Data, inputs: seq<IterationInput>)
    requires Sound(p) && |d.results| == p.assertionCount && CapturesDistinct(p)
    ensures var v := RunAll(p, StartWorld(p, d), inputs).data.vars;
            IterationFresh(p, d, inputs, v) && RunsKept(p, d, inputs, d.vars, v)
    decreases |inputs|
  {
    if inputs != [] {
      hide IterationFresh, RunsKept;
      var shorter := inputs[..|inputs| - 1];
      ValuesHaveOrigins(p, d, shorter);
      OriginsLonger(p, d, inputs, RunAll(p, StartWorld(p, d), shorter).data.vars);
      RunAllLast(p, StartWorld(p, d), inputs);
      if Active(After(p, d, inputs, |inputs| - 1)) {
        TransitionOrigins(p, d, inputs);
      }
    }
  }
}
