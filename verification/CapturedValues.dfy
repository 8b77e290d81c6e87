/** Which value each captured name has after a request, and what a request
    leaves alone. */
module CapturedValues {
  import opened Scenario
  import opened Options
  import opened Variables
  import opened Iteration

  function At(values: Values, name: string): Option<string> {
    if name in values then Some(values[name]) else None
  }

  /** Only the maps that a capture writes to may differ. */
  predicate OnlyTopChanges(v: Vars, u: Vars)
    requires v.FramesStored() && u.FramesStored()
  {
    && u.frames == v.frames && u.runtime == v.runtime
    && u.branchRuns.Keys == v.branchRuns.Keys && u.branchIterations.Keys == v.branchIterations.Keys
    && if v.frames == [] then u.branchRuns == v.branchRuns && u.branchIterations == v.branchIterations
       else
         var top := v.frames[|v.frames| - 1];
         && u.run == v.run && u.iteration == v.iteration
         && (forall key | key in v.branchRuns && key != top :: u.branchRuns[key] == v.branchRuns[key])
         && (forall key | key in v.branchIterations && key != top ::
               u.branchIterations[key] == v.branchIterations[key])
  }

  // ----- one capture

  lemma InvalidateEffect(v: Vars, capture: Capture, name: string)
    requires v.FramesStored()
    ensures var u := Invalidate(v, capture);
            && OnlyTopChanges(v, u) && u.TopRun() == v.TopRun()
            && At(u.TopIteration(), name)
            == if capture.scope == IterationScope && capture.name == name then None else At(v.TopIteration(), name)
  {
  }

  lemma WithTopChangesTop(v: Vars, values: Values)
    requires v.FramesStored()
    ensures OnlyTopChanges(v, v) && OnlyTopChanges(v, v.WithTopRun(values))
    ensures OnlyTopChanges(v, v.WithTopIteration(values))
  {
  }

  lemma SetChangesTop(v: Vars, capture: Capture, value: string)
    requires v.FramesStored()
    ensures OnlyTopChanges(v, Set(v, capture, value))
  {
    hide OnlyTopChanges;
    WithTopChangesTop(v, v.TopRun()[capture.name := value]);
    WithTopChangesTop(v, v.TopIteration()[capture.name := value]);
  }

  lemma SetEffect(v: Vars, capture: Capture, value: string, name: string)
    requires v.FramesStored()
    ensures var u := Set(v, capture, value);
            && OnlyTopChanges(v, u)
            && At(u.TopIteration(), name)
            == (if capture.scope == IterationScope && capture.name == name then Some(value)
                else At(v.TopIteration(), name))
            && At(u.TopRun(), name)
            == if capture.scope == RunScope && capture.name == name && name !in v.TopRun() then Some(value)
               else At(v.TopRun(), name)
  {
    hide OnlyTopChanges;
    SetChangesTop(v, capture, value);
  }

  lemma TopChangesOn(v: Vars, u: Vars, w: Vars)
    requires v.FramesStored() && u.FramesStored() && w.FramesStored()
    requires OnlyTopChanges(v, u) && OnlyTopChanges(u, w)
    ensures OnlyTopChanges(v, w)
  {
  }

  // ----- all of them

  predicate Forgets(captures: seq<Capture>, name: string) {
    exists j :: 0 <= j < |captures| && captures[j].name == name && captures[j].scope == IterationScope
  }

  lemma {:induction false} InvalidateAllEffect(v: Vars, captures: seq<Capture>, name: string)
    requires v.FramesStored()
    ensures var u := InvalidateAll(v, captures);
            && OnlyTopChanges(v, u) && u.TopRun() == v.TopRun()
            && At(u.TopIteration(), name) == if Forgets(captures, name) then None else At(v.TopIteration(), name)
  {
    hide OnlyTopChanges;
    WithTopChangesTop(v, v.TopRun());
    if captures != [] {
      var last := |captures| - 1;
      InvalidateAllEffect(v, captures[..last], name);
      InvalidateEffect(InvalidateAll(v, captures[..last]), captures[last], name);
      TopChangesOn(v, InvalidateAll(v, captures[..last]), InvalidateAll(v, captures));
      assert Forgets(captures, name) <==>
             Forgets(captures[..last], name)
             || (captures[last].name == name && captures[last].scope == IterationScope);
    }
  }

  lemma {:induction false} DropChangesTop(v: Vars, captures: seq<Capture>, response: Response, n: nat)
    requires v.FramesStored() && n <= |captures|
    ensures OnlyTopChanges(v, DropUnselected(v, captures, response, n))
  {
    hide OnlyTopChanges, Invalidate, AlreadyHeld;
    WithTopChangesTop(v, map[]);
    if n > 0 {
      var before := DropUnselected(v, captures, response, n - 1);
      DropChangesTop(v, captures, response, n - 1);
      InvalidateEffect(before, captures[n - 1], "");
      TopChangesOn(v, before, Invalidate(before, captures[n - 1]));
    }
  }

  predicate Drops(captures: seq<Capture>, response: Response, n: nat, name: string)
    requires n <= |captures|
  {
    exists j :: 0 <= j < n && captures[j].name == name && captures[j].scope == IterationScope && !response.Selects(j)
  }

  lemma {:induction false} DropEffect(v: Vars, captures: seq<Capture>, response: Response, n: nat, name: string)
    requires v.FramesStored() && n <= |captures|
    ensures var u := DropUnselected(v, captures, response, n);
            && OnlyTopChanges(v, u) && u.TopRun() == v.TopRun()
            && At(u.TopIteration(), name)
            == if Drops(captures, response, n, name) then None else At(v.TopIteration(), name)
  {
    hide OnlyTopChanges, Invalidate, AlreadyHeld, Vars.TopRun, Vars.TopIteration, At;
    NothingDropped(v, captures, response);
    WithTopChangesTop(v, map[]);
    if n > 0 {
      hide DropUnselected;
      DropEffect(v, captures, response, n - 1, name);
      NextDropped(v, captures, response, n - 1);
      InvalidateEffect(DropUnselected(v, captures, response, n - 1), captures[n - 1], name);
      DropChangesTop(v, captures, response, n);
      assert Drops(captures, response, n, name) <==>
             Drops(captures, response, n - 1, name)
             || (captures[n - 1].name == name && captures[n - 1].scope == IterationScope && !response.Selects(n - 1));
    }
  }

  lemma {:induction false} SetAllChangesTop(v: Vars, captures: seq<Capture>, response: Response, positions: seq<nat>)
    requires v.FramesStored() && forall j | j in positions :: j < |captures| && response.Found(j).Some?
    ensures OnlyTopChanges(v, SetAll(v, captures, response, positions))
  {
    hide OnlyTopChanges;
    WithTopChangesTop(v, v.TopRun());
    if positions != [] {
      var last := |positions| - 1;
      assert forall j | j in positions[..last] :: j in positions;
      assert positions[last] in positions;
      var before := SetAll(v, captures, response, positions[..last]);
      SetAllChangesTop(v, captures, response, positions[..last]);
      SetChangesTop(before, captures[positions[last]], response.Found(positions[last]).value);
      TopChangesOn(v, before, SetAll(v, captures, response, positions));
    }
  }

  /** Capture i is the only one of its name, as the configuration demands. */
  predicate OnlyCapture(captures: seq<Capture>, i: nat) {
    i < |captures| && forall j | 0 <= j < |captures| && captures[j].name == captures[i].name :: j == i
  }

  lemma {:induction false} SetAllEffect(v: Vars, captures: seq<Capture>, response: Response, positions: seq<nat>,
                                        i: nat)
    requires v.FramesStored() && OnlyCapture(captures, i)
    requires forall j | j in positions :: j < |captures| && response.Found(j).Some?
    ensures var u, name := SetAll(v, captures, response, positions), captures[i].name;
            && OnlyTopChanges(v, u)
            && At(u.TopIteration(), name)
            == (if captures[i].scope == IterationScope && i in positions then response.Found(i)
                else At(v.TopIteration(), name))
            && At(u.TopRun(), name)
            == if captures[i].scope == RunScope && i in positions && name !in v.TopRun() then response.Found(i)
               else At(v.TopRun(), name)
  {
    hide OnlyTopChanges;
    if positions != [] {
      var last := |positions| - 1;
      assert forall j | j in positions[..last] :: j in positions;
      assert positions[last] in positions;
      assert positions == positions[..last] + [positions[last]];
      SetAllEffect(v, captures, response, positions[..last], i);
      SetEffect(SetAll(v, captures, response, positions[..last]), captures[positions[last]],
                response.Found(positions[last]).value, captures[i].name);
      TopChangesOn(v, SetAll(v, captures, response, positions[..last]), SetAll(v, captures, response, positions));
    } else {
      WithTopChangesTop(v, v.TopRun());
    }
  }

  lemma {:induction false} SetAllSpares(v: Vars, captures: seq<Capture>, response: Response, positions: seq<nat>,
                                        name: string)
    requires v.FramesStored() && forall j | 0 <= j < |captures| :: captures[j].name != name
    requires forall j | j in positions :: j < |captures| && response.Found(j).Some?
    ensures var u := SetAll(v, captures, response, positions);
            && OnlyTopChanges(v, u) && At(u.TopIteration(), name) == At(v.TopIteration(), name)
            && At(u.TopRun(), name) == At(v.TopRun(), name)
  {
    hide OnlyTopChanges;
    if positions != [] {
      var last := |positions| - 1;
      assert forall j | j in positions[..last] :: j in positions;
      assert positions[last] in positions;
      SetAllSpares(v, captures, response, positions[..last], name);
      SetEffect(SetAll(v, captures, response, positions[..last]), captures[positions[last]],
                response.Found(positions[last]).value, name);
      TopChangesOn(v, SetAll(v, captures, response, positions[..last]), SetAll(v, captures, response, positions));
    } else {
      WithTopChangesTop(v, v.TopRun());
    }
  }

  // ----- a request

  /** The response fills every capture that is still wanted. */
  predicate Fills(request: RequestStep, v: Vars, effect: Effect)
    requires v.FramesStored()
  {
    && Renders(v, request.templateNames) && effect.Respond? && effect.response.documentValid
    && forall j | 0 <= j < |request.captures| && effect.response.Selects(j)
         && !(request.captures[j].scope == RunScope && request.captures[j].name in v.TopRun()) ::
         effect.response.Found(j).Some?
  }

  /** What a request gives to its i-th capture. */
  function Given(request: RequestStep, v: Vars, effect: Effect, i: nat): Option<string>
    requires v.FramesStored()
  {
    if Fills(request, v, effect) && effect.response.Selects(i) then effect.response.Found(i) else None
  }

  /** A name of the iteration has what the response gives it, or nothing; a
      name of the run keeps the first value that it was given. */
  lemma RequestCaptures(request: RequestStep, v: Vars, effect: Effect, i: nat)
    requires v.FramesStored() && OnlyCapture(request.captures, i)
    ensures var u, capture := VarsAfter(request, v, effect), request.captures[i];
            && OnlyTopChanges(v, u)
            && At(u.TopIteration(), capture.name)
            == (if capture.scope == IterationScope then Given(request, v, effect, i)
                else At(v.TopIteration(), capture.name))
            && At(u.TopRun(), capture.name)
            == if capture.scope == RunScope && capture.name !in v.TopRun() then Given(request, v, effect, i)
               else At(v.TopRun(), capture.name)
  {
    hide OnlyTopChanges, Drops, Forgets, Fills;
    var captures, name := request.captures, request.captures[i].name;
    if Renders(v, request.templateNames) && effect.Respond? {
      var response := effect.response;
      var dropped := DropUnselected(v, captures, response, |captures|);
      var positions := EligiblePositions(v, captures, response, |captures|);
      DropEffect(v, captures, response, |captures|, name);
      DropsOnly(captures, response, i);
      PositionsFill(request, v, effect, i);
      if positions != [] {
        if AllFound(response, positions) {
          SetAllEffect(dropped, captures, response, positions, i);
          TopChangesOn(v, dropped, VarsAfter(request, v, effect));
        } else {
          InvalidateAllEffect(dropped, Selected(captures, positions), name);
          SelectedForgets(captures, positions, i);
          TopChangesOn(v, dropped, VarsAfter(request, v, effect));
        }
      }
    } else {
      InvalidateAllEffect(v, captures, name);
      OnlyForgets(captures, i);
      NotFilled(request, v, effect);
    }
  }

  lemma NotFilled(request: RequestStep, v: Vars, effect: Effect)
    requires v.FramesStored() && !(Renders(v, request.templateNames) && effect.Respond?)
    ensures !Fills(request, v, effect)
  {
  }

  lemma OnlyForgets(captures: seq<Capture>, i: nat)
    requires OnlyCapture(captures, i)
    ensures Forgets(captures, captures[i].name) <==> captures[i].scope == IterationScope
  {
  }

  lemma DropsOnly(captures: seq<Capture>, response: Response, i: nat)
    requires OnlyCapture(captures, i)
    ensures Drops(captures, response, |captures|, captures[i].name) <==>
            captures[i].scope == IterationScope && !response.Selects(i)
  {
  }

  lemma PositionsFill(request: RequestStep, v: Vars, effect: Effect, i: nat)
    requires v.FramesStored() && i < |request.captures|
    requires Renders(v, request.templateNames) && effect.Respond?
    ensures var captures, response := request.captures, effect.response;
            var positions := EligiblePositions(v, captures, response, |captures|);
            && (i in positions <==> !AlreadyHeld(v, captures[i]) && response.Selects(i))
            && (AllFound(response, positions) <==> Fills(request, v, effect))
  {
    var positions := EligiblePositions(v, request.captures, effect.response, |request.captures|);
    forall j: nat | j < |request.captures|
      ensures j in positions <==> Eligible(v, request.captures, effect.response, j)
    {
    }
  }

  lemma SelectedForgets(captures: seq<Capture>, positions: seq<nat>, i: nat)
    requires OnlyCapture(captures, i) && forall j | j in positions :: j < |captures|
    ensures Forgets(Selected(captures, positions), captures[i].name) <==>
            captures[i].scope == IterationScope && i in positions
  {
    var selected := Selected(captures, positions);
    assert forall j | 0 <= j < |positions| :: positions[j] in positions;
    if captures[i].scope == IterationScope && i in positions {
      var j :| 0 <= j < |positions| && positions[j] == i;
      assert selected[j] == captures[i];
    }
  }

  lemma Unnamed(captures: seq<Capture>, positions: seq<nat>, response: Response, name: string)
    requires forall j | 0 <= j < |captures| :: captures[j].name != name
    requires forall j | j in positions :: j < |captures|
    ensures !Forgets(captures, name) && !Forgets(Selected(captures, positions), name)
    ensures !Drops(captures, response, |captures|, name)
  {
    assert forall j | 0 <= j < |positions| :: positions[j] in positions;
  }

  /** A name that a request does not capture is left alone. */
  lemma RequestSpares(request: RequestStep, v: Vars, effect: Effect, name: string)
    requires v.FramesStored() && forall j | 0 <= j < |request.captures| :: request.captures[j].name != name
    ensures var u := VarsAfter(request, v, effect);
            && OnlyTopChanges(v, u) && At(u.TopIteration(), name) == At(v.TopIteration(), name)
            && At(u.TopRun(), name) == At(v.TopRun(), name)
  {
    hide OnlyTopChanges, Drops, Forgets;
    var captures := request.captures;
    if Renders(v, request.templateNames) && effect.Respond? {
      var response := effect.response;
      var dropped := DropUnselected(v, captures, response, |captures|);
      var positions := EligiblePositions(v, captures, response, |captures|);
      Unnamed(captures, positions, response, name);
      DropEffect(v, captures, response, |captures|, name);
      if positions != [] {
        if AllFound(response, positions) {
          SetAllSpares(dropped, captures, response, positions, name);
          TopChangesOn(v, dropped, VarsAfter(request, v, effect));
        } else {
          InvalidateAllEffect(dropped, Selected(captures, positions), name);
          TopChangesOn(v, dropped, VarsAfter(request, v, effect));
        }
      }
    } else {
      InvalidateAllEffect(v, captures, name);
      Unnamed(captures, [], Response([], false, []), name);
    }
  }
}
