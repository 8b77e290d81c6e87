/** A template variable is found when its request runs: the frame in which a
    dominating producer captured it is still on the stack. */
module TemplateScope {
  import opened Walks
  import opened ExecutionPlan
  import opened Regions
  import opened Scenario
  import opened Variables
  import opened JoinDiscipline
  import opened Iteration

  function KeyOf(steps: seq<Step>, frame: Frame): string
    requires IsRoute(steps, frame.branch, frame.route)
  {
    steps[frame.branch].routes[frame.route].scopeKey
  }

  /** Routes that can be taken at the same time have different scope keys. */
  ghost predicate NestedKeysDistinct(steps: seq<Step>) {
    forall b: nat, k: nat, d: nat, m: nat |
      IsRoute(steps, b, k) && IsRoute(steps, d, m) && InsideVia(steps, b, k, d) ::
      steps[b].routes[k].scopeKey != steps[d].routes[m].scopeKey
  }

  // ----- a route never dominates what follows its join

  /** What is reached before the branch runs is reached without the insides
      of the branch. */
  lemma BeforeBranchIsOutside(steps: seq<Step>, entry: nat, b: nat, q: nat, r: nat)
    requires WellStructured(steps, entry) && NoForeignEntry(steps, entry)
    requires IsBranch(steps, b) && Inside(steps, b, r) && ReachAvoiding(Full(steps), entry, q, b)
    ensures ReachAvoiding(Full(steps), entry, q, r)
  {
    GraphsWellFormed(steps);
    var s := set x: nat | x < |steps| && x != b && !Open(steps, b, x) && ReachAvoiding(Full(steps), entry, x, r);
    ReachSelf(Full(steps), entry, r);
    forall a: nat, x: nat | a in s && Edge(Full(steps), a, x) && x != b
      ensures x in s
    {
      EdgeBound(Full(steps), a, x);
      ReachThen(Full(steps), entry, a, x, r);
    }
    ReachStaysIn(Full(steps), s, entry, q, b);
  }

  lemma OtherRouteAvoids(steps: seq<Step>, b: nat, k: nat, m: nat, r: nat)
    requires Resolved(steps) && LoopsBounded(steps) && BranchesStructured(steps)
    requires IsRoute(steps, b, k) && IsRoute(steps, b, m) && k != m && InsideVia(steps, b, k, r)
    ensures ReachAvoiding(Full(steps), Target(steps, b, m), steps[b].join, r)
  {
    GraphsWellFormed(steps);
    var join, t := steps[b].join, Target(steps, b, m);
    assert StepResolved(steps, b);
    assert BranchStructured(steps, b) && RouteClosed(steps, b, m);
    InsideLeadsToJoin(steps, b, k, r);
    if t == join {
      ReachSelf(Full(steps), t, r);
    } else {
      var q := FirstArrival(Reduced(steps), t, join);
      ReachSelf(Reduced(steps), t, join);
      if t == r {
        RouteOfInside(steps, b, k, m, r);
      }
      ReachSelf(Full(steps), t, r);
      var s := set x: nat | x < |steps| && InRoute(steps, b, m, x) && ReachAvoiding(Full(steps), t, x, r);
      forall a: nat, x: nat | a in s && Edge(Reduced(steps), a, x) && x != join
        ensures x in s
      {
        EdgeBound(Reduced(steps), a, x);
        ReachThen(Reduced(steps), t, a, x, join);
        if x == r {
          RouteOfInside(steps, b, k, m, r);
        }
        FullEdge(steps, a, x);
        ReachThen(Full(steps), t, a, x, r);
      }
      ReachStaysIn(Reduced(steps), s, t, q, join);
      FullEdge(steps, q, join);
      ReachThen(Full(steps), t, q, join, r);
    }
  }

  /** Any step inside a branch can be bypassed on the way to the join. */
  lemma JoinBypassesInside(steps: seq<Step>, entry: nat, b: nat, k: nat, r: nat)
    requires WellStructured(steps, entry) && NoForeignEntry(steps, entry)
    requires IsRoute(steps, b, k) && InsideVia(steps, b, k, r)
    ensures ReachAvoiding(Full(steps), entry, steps[b].join, r)
  {
    GraphsWellFormed(steps);
    assert StepResolved(steps, b);
    assert Reach(Full(steps), entry, b);
    var q := FirstArrival(Full(steps), entry, b);
    BeforeBranchIsOutside(steps, entry, b, q, r);
    NotInsideItself(steps, b);
    ReachThen(Full(steps), entry, q, b, r);
    var m: nat := if k == 0 then 1 else 0;
    OtherRouteAvoids(steps, b, k, m, r);
    RouteEdge(steps, b, Target(steps, b, m));
    FullEdge(steps, b, Target(steps, b, m));
    ReachEnds(Full(steps), Target(steps, b, m), steps[b].join, r);
    ReachThen(Full(steps), entry, b, Target(steps, b, m), r);
    ReachTrans(Full(steps), entry, Target(steps, b, m), steps[b].join, r);
  }

  // ----- values in frames

  predicate Holds(iteration: Values, run: Values, name: string) {
    name in iteration || name in run
  }

  /** `name` is held where a capture under these frames would write it. */
  predicate HeldIn(steps: seq<Step>, v: Vars, frames: seq<Frame>, name: string) {
    if frames == [] then Holds(v.iteration, v.run, name)
    else
      var top := frames[|frames| - 1];
      && IsRoute(steps, top.branch, top.route)
      && KeyOf(steps, top) in v.branchIterations && KeyOf(steps, top) in v.branchRuns
      && Holds(v.branchIterations[KeyOf(steps, top)], v.branchRuns[KeyOf(steps, top)], name)
  }

  predicate FramesMatch(steps: seq<Step>, v: Vars, frames: seq<Frame>) {
    |v.frames| == |frames| && forall i | 0 <= i < |frames| ::
      IsRoute(steps, frames[i].branch, frames[i].route) && v.frames[i] == KeyOf(steps, frames[i])
  }

  lemma {:induction false} FrameValueFound(v: Vars, name: string, n: nat, i: nat)
    requires v.FramesStored() && i < n <= |v.frames|
    requires Holds(v.branchIterations[v.frames[i]], v.branchRuns[v.frames[i]], name)
    ensures FrameValue(v, name, n).Some?
  {
    if i < n - 1 {
      FrameValueFound(v, name, n - 1, i);
    }
  }

  /** A value held in a frame that is still on the stack is found. */
  lemma HeldIsFound(steps: seq<Step>, v: Vars, held: seq<Frame>, frames: seq<Frame>, name: string)
    requires v.FramesStored() && FramesMatch(steps, v, frames)
    requires held <= frames && HeldIn(steps, v, held, name)
    ensures Value(v, name).Some?
  {
    if held != [] {
      var i := |held| - 1;
      assert frames[i] == held[i];
      FrameValueFound(v, name, |frames|, i);
    }
  }

  // ----- what a request does to the values of one name

  /** Nothing that v holds under `name` is missing from u. */
  predicate Keeps(v: Vars, u: Vars, name: string) {
    && u.frames == v.frames && u.runtime == v.runtime
    && (name in v.iteration ==> name in u.iteration) && (name in v.run ==> name in u.run)
    && (forall key | key in v.branchIterations ::
          key in u.branchIterations && (name in v.branchIterations[key] ==> name in u.branchIterations[key]))
    && (forall key | key in v.branchRuns ::
          key in u.branchRuns && (name in v.branchRuns[key] ==> name in u.branchRuns[key]))
  }

  lemma InvalidateKeeps(v: Vars, capture: Capture, name: string)
    requires v.FramesStored()
    ensures capture.name != name ==> Keeps(v, Invalidate(v, capture), name)
    ensures Invalidate(v, capture).TopRun() == v.TopRun()
    ensures capture.scope == RunScope ==> Keeps(v, Invalidate(v, capture), name)
  {
  }

  lemma SetKeeps(v: Vars, capture: Capture, value: string, name: string)
    requires v.FramesStored()
    ensures Keeps(v, Set(v, capture, value), name)
    ensures var u := Set(v, capture, value); Holds(u.TopIteration(), u.TopRun(), capture.name)
  {
  }

  lemma KeepsTop(v: Vars, u: Vars, name: string)
    requires v.FramesStored() && u.FramesStored() && Keeps(v, u, name)
    ensures Holds(v.TopIteration(), v.TopRun(), name) ==> Holds(u.TopIteration(), u.TopRun(), name)
  {
  }

  /** Captures of `name` are never among those invalidated. */
  predicate Spared(captures: seq<Capture>, name: string) {
    forall i | 0 <= i < |captures| :: captures[i].name != name || captures[i].scope == RunScope
  }

  lemma {:induction false} InvalidateAllKeeps(v: Vars, captures: seq<Capture>, name: string)
    requires v.FramesStored() && Spared(captures, name)
    ensures Keeps(v, InvalidateAll(v, captures), name)
  {
    if captures != [] {
      var last := |captures| - 1;
      InvalidateAllKeeps(v, captures[..last], name);
      InvalidateKeeps(InvalidateAll(v, captures[..last]), captures[last], name);
    }
  }

  lemma {:induction false} DropKeeps(v: Vars, captures: seq<Capture>, response: Response, n: nat, name: string)
    requires v.FramesStored() && n <= |captures|
    requires forall i | 0 <= i < n && captures[i].name == name ::
               AlreadyHeld(v, captures[i]) || response.Selects(i) || captures[i].scope == RunScope
    ensures Keeps(v, DropUnselected(v, captures, response, n), name)
    ensures DropUnselected(v, captures, response, n).TopRun() == v.TopRun()
  {
    if n > 0 {
      DropKeeps(v, captures, response, n - 1, name);
      InvalidateKeeps(DropUnselected(v, captures, response, n - 1), captures[n - 1], name);
    }
  }

  lemma {:induction false} SetAllKeeps(v: Vars, captures: seq<Capture>, response: Response, positions: seq<nat>,
                                       name: string)
    requires v.FramesStored()
    requires forall i | i in positions :: i < |captures| && response.Found(i).Some?
    ensures Keeps(v, SetAll(v, captures, response, positions), name)
    ensures forall i | i in positions && captures[i].name == name ::
              var u := SetAll(v, captures, response, positions); Holds(u.TopIteration(), u.TopRun(), name)
  {
    if positions != [] {
      var last := |positions| - 1;
      assert forall i | i in positions[..last] :: i in positions;
      assert positions[last] in positions;
      SetAllKeeps(v, captures, response, positions[..last], name);
      var before := SetAll(v, captures, response, positions[..last]);
      var capture, value := captures[positions[last]], response.Found(positions[last]).value;
      SetKeeps(before, capture, value, name);
      KeepsTop(before, Set(before, capture, value), name);
      forall i | i in positions && captures[i].name == name
        ensures var u := SetAll(v, captures, response, positions); Holds(u.TopIteration(), u.TopRun(), name)
      {
        if i != positions[last] {
          assert i in positions[..last];
        }
      }
    }
  }

  /** All captures of `name` succeed: the name loses nothing. */
  lemma RequestKeeps(request: RequestStep, v: Vars, effect: Effect, name: string)
    requires v.FramesStored() && name !in FailedNames(request, v, effect)
    ensures Keeps(v, VarsAfter(request, v, effect), name)
  {
    var captures := request.captures;
    forall i | 0 <= i < |captures| && captures[i].name == name
      ensures CaptureSucceeds(request, v, effect, i)
    {
    }
    if Renders(v, request.templateNames) && effect.Respond? {
      var response := effect.response;
      DropKeeps(v, captures, response, |captures|, name);
      var positions := EligiblePositions(v, captures, response, |captures|);
      var dropped := DropUnselected(v, captures, response, |captures|);
      if positions != [] {
        if AllFound(response, positions) {
          SetAllKeeps(dropped, captures, response, positions, name);
        } else {
          assert CaptureFails(v, captures, response);
          assert forall j | 0 <= j < |positions| :: positions[j] in positions;
          InvalidateAllKeeps(dropped, Selected(captures, positions), name);
        }
      }
    } else {
      InvalidateAllKeeps(v, captures, name);
    }
  }

  /** A request that captures `name` without failing leaves it held on top. */
  lemma RequestHolds(request: RequestStep, v: Vars, effect: Effect, i: nat)
    requires v.FramesStored() && i < |request.captures|
    requires request.captures[i].name !in FailedNames(request, v, effect)
    ensures var u := VarsAfter(request, v, effect);
            Holds(u.TopIteration(), u.TopRun(), request.captures[i].name)
  {
    var name := request.captures[i].name;
    assert CaptureSucceeds(request, v, effect, i);
    RequestKeeps(request, v, effect, name);
    if AlreadyHeld(v, request.captures[i]) {
      KeepsTop(v, VarsAfter(request, v, effect), name);
    } else {
      var response := effect.response;
      var positions := EligiblePositions(v, request.captures, response, |request.captures|);
      assert i in positions;
      SetAllKeeps(DropUnselected(v, request.captures, response, |request.captures|),
                  request.captures, response, positions, name);
    }
  }
}
