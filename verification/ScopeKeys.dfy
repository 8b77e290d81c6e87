/** Taking a route clears the iteration values stored under its key; no value
    held under a route being taken is lost exactly when nested keys are
    distinct. */
module ScopeKeys {
  import opened ExecutionPlan
  import opened Regions
  import opened Variables
  import opened Machine
  import opened JoinDiscipline
  import opened ForeignEntry
  import opened Iteration
  import opened TemplateScope
  import opened TemplateRuns

  /** Every value held outside all routes, or under one of those being taken,
      is held there still after a route with this key is taken. */
  ghost predicate PushKeepsHeld(steps: seq<Step>, frames: seq<Frame>, v: Vars, key: string)
    requires v.FramesStored()
  {
    forall n: nat, name | n <= |frames| && HeldIn(steps, v, frames[..n], name) ::
      HeldIn(steps, PushBranch(v, key), frames[..n], name)
  }

  /** The key of the route that branch b takes. */
  function KeyTaken(steps: seq<Step>, choice: Choice, b: nat): string
    requires Resolved(steps) && IsBranch(steps, b) && |choice| == |steps|
  {
    steps[b].routes[Taken(steps, choice, b)].scopeKey
  }

  /** A branch that is about to run loses no value, whatever is held under the
      routes being taken. */
  ghost predicate TakesSafely(steps: seq<Step>, choice: Choice, c: Control, frames: seq<Frame>)
    requires Resolved(steps) && |choice| == |steps|
  {
    IsBranch(steps, c.pc) ==>
      forall v: Vars | v.FramesStored() && FramesMatch(steps, v, frames) ::
        PushKeepsHeld(steps, frames, v, KeyTaken(steps, choice, c.pc))
  }

  ghost predicate SafeAfter(steps: seq<Step>, entry: nat, choice: Choice, inputs: seq<Input>)
    requires Resolved(steps) && entry < |steps| && |choice| == |steps|
  {
    var start := Running(Start(steps, entry));
    var s := Run(steps, start, inputs);
    s.Running? ==> TakesSafely(steps, choice, s.control, RunFrames(steps, start, [], inputs))
  }

  lemma OtherKeysKeepHeld(steps: seq<Step>, frames: seq<Frame>, v: Vars, key: string)
    requires v.FramesStored() && FramesMatch(steps, v, frames)
    requires forall i | 0 <= i < |frames| :: KeyOf(steps, frames[i]) != key
    ensures PushKeepsHeld(steps, frames, v, key)
  {
    forall n: nat, name | n <= |frames| && HeldIn(steps, v, frames[..n], name)
      ensures HeldIn(steps, PushBranch(v, key), frames[..n], name)
    {
      if n > 0 {
        assert frames[..n][|frames[..n]| - 1] == frames[n - 1];
        assert KeyOf(steps, frames[n - 1]) != key;
      }
    }
  }

  /** The routes being taken have other keys than the branch about to run can
      take. */
  lemma OpenKeysDiffer(steps: seq<Step>, c: Control, frames: seq<Frame>, k: nat)
    requires Resolved(steps) && NestedKeysDistinct(steps) && Nested(steps, c, frames) && IsRoute(steps, c.pc, k)
    ensures forall i | 0 <= i < |frames| ::
              IsRoute(steps, frames[i].branch, frames[i].route)
              && KeyOf(steps, frames[i]) != steps[c.pc].routes[k].scopeKey
  {
    forall i | 0 <= i < |frames|
      ensures IsRoute(steps, frames[i].branch, frames[i].route)
      ensures KeyOf(steps, frames[i]) != steps[c.pc].routes[k].scopeKey
    {
      FrameFacts(steps, c, frames, i);
      assert StepResolved(steps, frames[i].branch);
      assert InsideVia(steps, frames[i].branch, frames[i].route, c.pc);
    }
  }

  lemma DistinctKeysAreSafe(steps: seq<Step>, entry: nat, choice: Choice, inputs: seq<Input>)
    requires WellStructured(steps, entry) && NoForeignEntry(steps, entry) && NestedKeysDistinct(steps)
    requires |choice| == |steps|
    ensures SafeAfter(steps, entry, choice, inputs)
  {
    var start := Running(Start(steps, entry));
    var s := Run(steps, start, inputs);
    var frames := RunFrames(steps, start, [], inputs);
    RunsAreDisciplined(steps, entry, inputs);
    if s.Running? && IsBranch(steps, s.control.pc) {
      OpenKeysDiffer(steps, s.control, frames, Taken(steps, choice, s.control.pc));
      forall v: Vars | v.FramesStored() && FramesMatch(steps, v, frames)
        ensures PushKeepsHeld(steps, frames, v, KeyTaken(steps, choice, s.control.pc))
      {
        OtherKeysKeepHeld(steps, frames, v, KeyTaken(steps, choice, s.control.pc));
      }
    }
  }

  /** A value held outside all routes, or under the first n being taken, is
      gone after the transition. */
  ghost predicate LosesName(p: Program, w: World, input: IterationInput, n: nat, name: string)
    requires Consistent(p, w) && Active(w) && n <= |w.history.frames|
  {
    && HeldIn(p.steps, w.data.vars, w.history.frames[..n], name)
    && !HeldIn(p.steps, Transition(p, w, input).data.vars, w.history.frames[..n], name)
  }

  /** A branch is about to run, and taking its route loses such a value. */
  ghost predicate LosesValue(p: Program, w: World, input: IterationInput)
    requires Consistent(p, w) && Active(w)
  {
    && IsBranch(p.steps, w.status.control.pc)
    && exists n: nat, name :: n <= |w.history.frames| && LosesName(p, w, input, n, name)
  }

  lemma OtherKeysLoseNothing(p: Program, w: World, input: IterationInput)
    requires Consistent(p, w) && Active(w) && NestedKeysDistinct(p.steps) && ScopeInvariant(p, w, "")
    ensures !LosesValue(p, w, input)
  {
    var pc: nat := w.status.control.pc;
    if IsBranch(p.steps, pc) {
      BranchWeight(p.steps, pc);
      var k := SelectRoute(p.steps[pc], input.selection);
      OpenKeysDiffer(p.steps, w.status.control, w.history.frames, k);
      OtherKeysKeepHeld(p.steps, w.history.frames, w.data.vars, p.steps[pc].routes[k].scopeKey);
    }
  }

  /** In every run of such a plan, with its data, the values held under the
      routes being taken survive the taking of another one. */
  lemma BranchKeepsOpenValues(p: Program, d: Data, inputs: seq<IterationInput>, input: IterationInput)
    requires Sound(p) && |d.results| == p.assertionCount
    requires WellStructured(p.steps, p.entry) && NoForeignEntry(p.steps, p.entry) && NestedKeysDistinct(p.steps)
    requires Active(RunAll(p, StartWorld(p, d), inputs))
    ensures !LosesValue(p, RunAll(p, StartWorld(p, d), inputs), input)
  {
    RunsKeepInvariant(p, d, inputs, "");
    OtherKeysLoseNothing(p, RunAll(p, StartWorld(p, d), inputs), input);
  }

  // ----- a shared key

  /** Some run takes route k of b and is about to run branch d inside it, where
      it will take route m. */
  lemma RunToNested(steps: seq<Step>, entry: nat, b: nat, k: nat, d: nat, m: nat)
    returns (choice: Choice, inputs: seq<Input>, i: nat)
    requires WellStructured(steps, entry) && NoForeignEntry(steps, entry)
    requires IsRoute(steps, b, k) && IsRoute(steps, d, m) && InsideVia(steps, b, k, d)
    ensures |choice| == |steps| && Taken(steps, choice, d) == m
    ensures var start := Running(Start(steps, entry));
            var s := Run(steps, start, inputs);
            var frames := RunFrames(steps, start, [], inputs);
            && Chosen(steps, start, choice, inputs)
            && s.Running? && s.control.pc == d && i < |frames| && frames[i] == Frame(b, k)
  {
    var start := Start(steps, entry);
    EveryRouteSelectable(steps, d, m);
    choice := ChoiceFor(steps, d, WeightBefore(steps[d].routes, m));
    ChoiceGuides(steps, d, WeightBefore(steps[d].routes, m));
    var c := ReachStep(steps, entry, choice, d);
    JoinDisciplineIsExact(steps, entry);
    inputs :| LeadsBy(steps, choice, start, c, inputs);
    RunsAreDisciplined(steps, entry, inputs);
    var frames := RunFrames(steps, Running(start), [], inputs);
    assert Open(steps, b, d);
    i := ListedAt(frames, b);
    FrameFacts(steps, c, frames, i);
    assert StepResolved(steps, b);
    OneRouteInside(steps, b, k, frames[i].route, d);
  }

  /** The keys of the routes being taken. */
  function KeysOf(steps: seq<Step>, frames: seq<Frame>): (keys: seq<string>)
    requires forall i | 0 <= i < |frames| :: IsRoute(steps, frames[i].branch, frames[i].route)
    ensures |keys| == |frames| && forall i | 0 <= i < |keys| :: keys[i] == KeyOf(steps, frames[i])
  {
    seq(|frames|, i requires 0 <= i < |frames| => KeyOf(steps, frames[i]))
  }

  /** A store in which every route being taken holds one iteration value. */
  function Stocked(keys: seq<string>): (v: Vars)
    ensures v.FramesStored() && v.frames == keys
    ensures forall i | 0 <= i < |keys| :: "x" in v.branchIterations[keys[i]] && v.branchRuns[keys[i]] == map[]
  {
    Vars(map[], map[], map[], map key | key in keys :: map[], map key | key in keys :: map["x" := ""], keys)
  }

  lemma SharedKeyLosesValue(steps: seq<Step>, entry: nat, b: nat, k: nat, d: nat, m: nat)
    returns (choice: Choice, inputs: seq<Input>)
    requires WellStructured(steps, entry) && NoForeignEntry(steps, entry)
    requires IsRoute(steps, b, k) && IsRoute(steps, d, m) && InsideVia(steps, b, k, d)
    requires steps[b].routes[k].scopeKey == steps[d].routes[m].scopeKey
    ensures |choice| == |steps| && Chosen(steps, Running(Start(steps, entry)), choice, inputs)
    ensures !SafeAfter(steps, entry, choice, inputs)
  {
    var i;
    choice, inputs, i := RunToNested(steps, entry, b, k, d, m);
    RunsAreDisciplined(steps, entry, inputs);
    var c := Run(steps, Running(Start(steps, entry)), inputs).control;
    var frames := RunFrames(steps, Running(Start(steps, entry)), [], inputs);
    forall j | 0 <= j < |frames|
      ensures IsRoute(steps, frames[j].branch, frames[j].route)
    {
      FrameFacts(steps, c, frames, j);
    }
    var v := Stocked(KeysOf(steps, frames));
    assert frames[..i + 1][|frames[..i + 1]| - 1] == frames[i];
    assert HeldIn(steps, v, frames[..i + 1], "x");
    assert KeyOf(steps, frames[i]) == KeyTaken(steps, choice, d);
    assert !HeldIn(steps, PushBranch(v, KeyTaken(steps, choice, d)), frames[..i + 1], "x");
    assert !PushKeepsHeld(steps, frames, v, KeyTaken(steps, choice, d));
    assert FramesMatch(steps, v, frames);
  }

  /** No run, whatever is held in it, loses a value of a route being taken to
      another route exactly when the scope keys of nested routes are distinct;
      a run that keeps the route of each branch shows it. */
  lemma ScopeKeysAreExact(steps: seq<Step>, entry: nat)
    requires WellStructured(steps, entry) && NoForeignEntry(steps, entry)
    ensures NestedKeysDistinct(steps) <==>
            forall choice, inputs |
              |choice| == |steps| && Chosen(steps, Running(Start(steps, entry)), choice, inputs) ::
              SafeAfter(steps, entry, choice, inputs)
  {
    if NestedKeysDistinct(steps) {
      forall choice, inputs | |choice| == |steps| && Chosen(steps, Running(Start(steps, entry)), choice, inputs)
        ensures SafeAfter(steps, entry, choice, inputs)
      {
        DistinctKeysAreSafe(steps, entry, choice, inputs);
      }
    } else {
      var b: nat, k: nat, d: nat, m: nat :|
        IsRoute(steps, b, k) && IsRoute(steps, d, m) && InsideVia(steps, b, k, d)
        && steps[b].routes[k].scopeKey == steps[d].routes[m].scopeKey;
      var choice, inputs := SharedKeyLosesValue(steps, entry, b, k, d, m);
    }
  }
}
