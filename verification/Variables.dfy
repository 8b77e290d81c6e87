/** The variables of one worker: values of the iteration and of the run, and a
    stack of branch frames whose maps are kept per route and reused. */
module Variables {
  import opened Scenario
  import opened Options

  type Values = map<string, string>

  /** A frame is the key of a route; its two maps are the ones stored under
      that key, so frames with equal keys share them. */
  datatype Vars = Vars(
    runtime: Values,
    iteration: Values,
    run: Values,
    branchRuns: map<string, Values>,
    branchIterations: map<string, Values>,
    frames: seq<string>)
  {
    predicate FramesStored() {
      forall i | 0 <= i < |frames| :: frames[i] in branchRuns && frames[i] in branchIterations
    }

    /** The maps that a capture writes to. */
    function TopIteration(): Values
      requires FramesStored()
    {
      if frames == [] then iteration else branchIterations[frames[|frames| - 1]]
    }

    function TopRun(): Values
      requires FramesStored()
    {
      if frames == [] then run else branchRuns[frames[|frames| - 1]]
    }

    function WithTopIteration(values: Values): (v: Vars)
      requires FramesStored()
      ensures v.FramesStored() && v.TopIteration() == values && v.TopRun() == TopRun()
    {
      if frames == [] then this.(iteration := values)
      else this.(branchIterations := branchIterations[frames[|frames| - 1] := values])
    }

    function WithTopRun(values: Values): (v: Vars)
      requires FramesStored()
      ensures v.FramesStored() && v.TopRun() == values && v.TopIteration() == TopIteration()
    {
      if frames == [] then this.(run := values)
      else this.(branchRuns := branchRuns[frames[|frames| - 1] := values])
    }
  }

  function BeginIteration(v: Vars): Vars {
    v.(iteration := map[], frames := [])
  }

  /** Search the innermost n frames from the inside out. */
  function FrameValue(v: Vars, name: string, n: nat): Option<string>
    requires v.FramesStored() && n <= |v.frames|
  {
    if n == 0 then None
    else
      var key := v.frames[n - 1];
      if name in v.branchIterations[key] then Some(v.branchIterations[key][name])
      else if name in v.branchRuns[key] then Some(v.branchRuns[key][name])
      else FrameValue(v, name, n - 1)
  }

  function Value(v: Vars, name: string): Option<string>
    requires v.FramesStored()
  {
    if name in v.runtime then Some(v.runtime[name])
    else
      var inFrames := FrameValue(v, name, |v.frames|);
      if inFrames.Some? then inFrames
      else if name in v.iteration then Some(v.iteration[name])
      else if name in v.run then Some(v.run[name])
      else None
  }

  predicate FrameHolds(v: Vars, name: string, i: nat)
    requires v.FramesStored()
  {
    i < |v.frames| && (name in v.branchIterations[v.frames[i]] || name in v.branchRuns[v.frames[i]])
  }

  /** The innermost frame that holds the name. */
  predicate Innermost(v: Vars, name: string, i: nat)
    requires v.FramesStored()
  {
    FrameHolds(v, name, i) && forall j | i < j < |v.frames| :: !FrameHolds(v, name, j)
  }

  /** What is visible under a name: a runtime value hides all others, an inner
      frame hides outer ones, frames hide the maps of the worker, and in each
      place values of the iteration hide those of the run. */
  ghost predicate Visible(v: Vars, name: string, value: Option<string>)
    requires v.FramesStored()
  {
    if name in v.runtime then value == Some(v.runtime[name])
    else
      && (forall i: nat | Innermost(v, name, i) ::
            var iteration, run := v.branchIterations[v.frames[i]], v.branchRuns[v.frames[i]];
            value == if name in iteration then Some(iteration[name]) else Some(run[name]))
      && ((forall i: nat | i < |v.frames| :: !FrameHolds(v, name, i)) ==>
            value == if name in v.iteration then Some(v.iteration[name])
                     else if name in v.run then Some(v.run[name]) else None)
  }

  lemma {:induction false} InnermostDecides(v: Vars, name: string, n: nat, i: nat)
    requires v.FramesStored() && i < n <= |v.frames| && FrameHolds(v, name, i)
    requires forall j | i < j < n :: !FrameHolds(v, name, j)
    ensures var iteration, run := v.branchIterations[v.frames[i]], v.branchRuns[v.frames[i]];
            FrameValue(v, name, n) == if name in iteration then Some(iteration[name]) else Some(run[name])
  {
    if i < n - 1 {
      assert !FrameHolds(v, name, n - 1);
      InnermostDecides(v, name, n - 1, i);
    }
  }

  lemma {:induction false} NoFrameDecides(v: Vars, name: string, n: nat)
    requires v.FramesStored() && n <= |v.frames| && forall i: nat | i < n :: !FrameHolds(v, name, i)
    ensures FrameValue(v, name, n) == None
  {
    if n > 0 {
      assert !FrameHolds(v, name, n - 1);
      NoFrameDecides(v, name, n - 1);
    }
  }

  lemma ValueIsVisible(v: Vars, name: string)
    requires v.FramesStored()
    ensures Visible(v, name, Value(v, name))
  {
    forall i: nat | Innermost(v, name, i)
      ensures FrameValue(v, name, |v.frames|)
           == if name in v.branchIterations[v.frames[i]] then Some(v.branchIterations[v.frames[i]][name])
              else Some(v.branchRuns[v.frames[i]][name])
    {
      InnermostDecides(v, name, |v.frames|, i);
    }
    if forall i: nat | i < |v.frames| :: !FrameHolds(v, name, i) {
      NoFrameDecides(v, name, |v.frames|);
    }
  }

  lemma FoundSomewhere(v: Vars, name: string)
    requires v.FramesStored()
    ensures Value(v, name).Some? <==>
            || name in v.runtime || name in v.iteration || name in v.run
            || exists i: nat :: i < |v.frames| && FrameHolds(v, name, i)
  {
    if forall i: nat | i < |v.frames| :: !FrameHolds(v, name, i) {
      NoFrameDecides(v, name, |v.frames|);
    } else {
      var i: nat := |v.frames| - 1;
      while !FrameHolds(v, name, i)
        invariant i < |v.frames| && forall j: nat | i < j < |v.frames| :: !FrameHolds(v, name, j)
        decreases i
      {
        i := i - 1;
      }
      InnermostDecides(v, name, |v.frames|, i);
    }
  }

  function Set(v: Vars, capture: Capture, value: string): (r: Vars)
    requires v.FramesStored()
    ensures r.FramesStored()
  {
    match capture.scope
    case RunScope =>
      if capture.name in v.TopRun() then v else v.WithTopRun(v.TopRun()[capture.name := value])
    case IterationScope => v.WithTopIteration(v.TopIteration()[capture.name := value])
  }

  function Invalidate(v: Vars, capture: Capture): (r: Vars)
    requires v.FramesStored()
    ensures r.FramesStored()
  {
    if capture.scope == IterationScope then v.WithTopIteration(v.TopIteration() - {capture.name}) else v
  }

  function PushBranch(v: Vars, key: string): (r: Vars)
    requires v.FramesStored()
    ensures r.FramesStored()
  {
    v.(branchRuns := if key in v.branchRuns then v.branchRuns else v.branchRuns[key := map[]],
       branchIterations := v.branchIterations[key := map[]],
       frames := v.frames + [key])
  }

  function PopBranch(v: Vars): (r: Vars)
    requires v.FramesStored()
    ensures r.FramesStored()
  {
    if v.frames == [] then v else v.(frames := v.frames[..|v.frames| - 1])
  }

  // ----- capturing from a response

  /** What a response offers to the captures of its request, by position:
      whether the status selects the capture, whether the body is a JSON
      document, and what the path of the capture finds in it. */
  datatype Response = Response(statusMatches: seq<bool>, documentValid: bool, values: seq<Option<string>>)
  {
    predicate Selects(i: nat) {
      i < |statusMatches| && statusMatches[i]
    }

    function Found(i: nat): Option<string> {
      if i < |values| then values[i] else None
    }
  }

  predicate AlreadyHeld(v: Vars, capture: Capture)
    requires v.FramesStored()
  {
    capture.scope == RunScope && capture.name in v.TopRun()
  }

  function InvalidateAll(v: Vars, captures: seq<Capture>): (r: Vars)
    requires v.FramesStored()
    ensures r.FramesStored()
  {
    if captures == [] then v
    else Invalidate(InvalidateAll(v, captures[..|captures| - 1]), captures[|captures| - 1])
  }

  /** Captures not selected by the status lose their old value. */
  function DropUnselected(v: Vars, captures: seq<Capture>, response: Response, n: nat): (r: Vars)
    requires v.FramesStored() && n <= |captures|
    ensures r.FramesStored()
  {
    if n == 0 then v
    else
      var before := DropUnselected(v, captures, response, n - 1);
      if AlreadyHeld(v, captures[n - 1]) || response.Selects(n - 1) then before
      else Invalidate(before, captures[n - 1])
  }

  predicate Eligible(v: Vars, captures: seq<Capture>, response: Response, i: nat)
    requires v.FramesStored() && i < |captures|
  {
    !AlreadyHeld(v, captures[i]) && response.Selects(i)
  }

  /** The positions that go on to the document, in order. */
  function EligiblePositions(v: Vars, captures: seq<Capture>, response: Response, n: nat): (r: seq<nat>)
    requires v.FramesStored() && n <= |captures|
    ensures forall i :: i in r <==> 0 <= i < n && Eligible(v, captures, response, i)
  {
    if n == 0 then []
    else EligiblePositions(v, captures, response, n - 1)
         + if Eligible(v, captures, response, n - 1) then [n - 1] else []
  }

  function SetAll(v: Vars, captures: seq<Capture>, response: Response, positions: seq<nat>): (r: Vars)
    requires v.FramesStored()
    requires forall i | i in positions :: i < |captures| && response.Found(i).Some?
    ensures r.FramesStored()
  {
    if positions == [] then v
    else
      var last := |positions| - 1;
      assert forall i | i in positions[..last] :: i in positions;
      assert positions[last] in positions;
      Set(SetAll(v, captures, response, positions[..last]),
          captures[positions[last]], response.Found(positions[last]).value)
  }

  function Selected(captures: seq<Capture>, positions: seq<nat>): seq<Capture>
    requires forall i | i in positions :: i < |captures|
  {
    seq(|positions|, j requires 0 <= j < |positions| => assert positions[j] in positions; captures[positions[j]])
  }

  predicate AllFound(response: Response, positions: seq<nat>)
  {
    response.documentValid
    && forall i | i in positions :: response.Found(i).Some?
  }

  /** All eligible captures are set, or all are invalidated. */
  function CaptureAll(v: Vars, captures: seq<Capture>, response: Response): (r: Vars)
    requires v.FramesStored()
    ensures r.FramesStored()
  {
    var dropped := DropUnselected(v, captures, response, |captures|);
    var positions := EligiblePositions(v, captures, response, |captures|);
    if positions == [] then dropped
    else if AllFound(response, positions) then SetAll(dropped, captures, response, positions)
    else InvalidateAll(dropped, Selected(captures, positions))
  }

  predicate CaptureFails(v: Vars, captures: seq<Capture>, response: Response)
    requires v.FramesStored()
  {
    var positions := EligiblePositions(v, captures, response, |captures|);
    positions != [] && !AllFound(response, positions)
  }

  lemma NothingDropped(v: Vars, captures: seq<Capture>, response: Response)
    requires v.FramesStored()
    ensures DropUnselected(v, captures, response, 0) == v
  {
  }

  /** What the first pass does with the next capture. */
  lemma NextDropped(v: Vars, captures: seq<Capture>, response: Response, n: nat)
    requires v.FramesStored() && n < |captures|
    requires DropUnselected(v, captures, response, n).TopRun() == v.TopRun()
    ensures var before := DropUnselected(v, captures, response, n);
            var held := captures[n].scope == RunScope && captures[n].name in v.TopRun();
            && DropUnselected(v, captures, response, n + 1)
            == (if held || response.Selects(n) then before else Invalidate(before, captures[n]))
            && Invalidate(before, captures[n]).TopRun() == v.TopRun()
            && (Eligible(v, captures, response, n) <==> !held && response.Selects(n))
  {
  }

  // ----- the worker's own representation

  class WorkerVariables {
    var runtime: Values
    var iteration: Values
    var run: Values
    var branchRuns: map<string, Values>
    var branchIterations: map<string, Values>
    var branchFrames: seq<string>

    ghost function State(): Vars
      reads this
    {
      Vars(runtime, iteration, run, branchRuns, branchIterations, branchFrames)
    }

    ghost predicate Valid()
      reads this
    {
      State().FramesStored()
    }

    constructor (runtimeVariables: Values)
      ensures Valid() && State() == Vars(runtimeVariables, map[], map[], map[], map[], [])
    {
      runtime, iteration, run := runtimeVariables, map[], map[];
      branchRuns, branchIterations, branchFrames := map[], map[], [];
    }

    method Begin()
      modifies this
      ensures Valid() && State() == BeginIteration(old(State()))
    {
      iteration := map[];
      branchFrames := [];
    }

    method Lookup(name: string) returns (value: Option<string>)
      requires Valid()
      ensures Visible(State(), name, value) && value == Value(State(), name)
    {
      hide Visible;
      ValueIsVisible(State(), name);
      if name in runtime {
        return Some(runtime[name]);
      }
      var index := |branchFrames|;
      while index > 0
        invariant 0 <= index <= |branchFrames|
        invariant FrameValue(State(), name, |branchFrames|) == FrameValue(State(), name, index)
      {
        index := index - 1;
        var key := branchFrames[index];
        if name in branchIterations[key] {
          return Some(branchIterations[key][name]);
        }
        if name in branchRuns[key] {
          return Some(branchRuns[key][name]);
        }
      }
      if name in iteration {
        return Some(iteration[name]);
      }
      return if name in run then Some(run[name]) else None;
    }

    method RunValueExists(name: string) returns (exists_: bool)
      requires Valid()
      ensures exists_ == (name in State().TopRun())
    {
      if |branchFrames| > 0 {
        return name in branchRuns[branchFrames[|branchFrames| - 1]];
      }
      return name in run;
    }

    method SetVariable(capture: Capture, value: string)
      requires Valid()
      modifies this
      ensures Valid() && State() == Set(old(State()), capture, value)
    {
      if |branchFrames| > 0 {
        var key := branchFrames[|branchFrames| - 1];
        if capture.scope == RunScope {
          if capture.name !in branchRuns[key] {
            branchRuns := branchRuns[key := branchRuns[key][capture.name := value]];
          }
          return;
        }
        branchIterations := branchIterations[key := branchIterations[key][capture.name := value]];
        return;
      }
      if capture.scope == RunScope {
        var held := RunValueExists(capture.name);
        if !held {
          run := run[capture.name := value];
        }
        return;
      }
      iteration := iteration[capture.name := value];
    }

    method InvalidateCapture(capture: Capture)
      requires Valid()
      modifies this
      ensures Valid() && State() == Invalidate(old(State()), capture)
    {
      if capture.scope == IterationScope {
        if |branchFrames| > 0 {
          var key := branchFrames[|branchFrames| - 1];
          branchIterations := branchIterations[key := branchIterations[key] - {capture.name}];
          return;
        }
        iteration := iteration - {capture.name};
      }
    }

    method InvalidateCaptures(captures: seq<Capture>)
      requires Valid()
      modifies this
      ensures Valid() && State() == InvalidateAll(old(State()), captures)
    {
      for index := 0 to |captures|
        invariant Valid() && State() == InvalidateAll(old(State()), captures[..index])
      {
        assert captures[..index + 1][..index] == captures[..index];
        InvalidateCapture(captures[index]);
      }
      assert captures[..|captures|] == captures;
    }

    method Push(key: string)
      requires Valid()
      modifies this
      ensures Valid() && State() == PushBranch(old(State()), key)
    {
      if key !in branchRuns {
        branchRuns := branchRuns[key := map[]];
      }
      branchIterations := branchIterations[key := map[]];
      branchFrames := branchFrames + [key];
    }

    method Pop()
      requires Valid()
      modifies this
      ensures Valid() && State() == PopBranch(old(State()))
    {
      if |branchFrames| == 0 {
        return;
      }
      branchFrames := branchFrames[..|branchFrames| - 1];
    }

    /** The first pass over the captures: skip, invalidate or keep. */
    method SelectEligible(captures: seq<Capture>, response: Response) returns (eligible: seq<nat>)
      requires Valid()
      modifies this
      ensures Valid() && State() == DropUnselected(old(State()), captures, response, |captures|)
      ensures eligible == EligiblePositions(old(State()), captures, response, |captures|)
    {
      hide DropUnselected, Invalidate, Eligible, AlreadyHeld, Vars.TopRun;
      ghost var before := State();
      eligible := [];
      NothingDropped(before, captures, response);
      for index := 0 to |captures|
        invariant Valid() && State() == DropUnselected(before, captures, response, index)
        invariant State().TopRun() == before.TopRun()
        invariant eligible == EligiblePositions(before, captures, response, index)
      {
        var capture := captures[index];
        NextDropped(before, captures, response, index);
        if capture.scope == RunScope {
          var held := RunValueExists(capture.name);
          if held {
            continue;
          }
        }
        if !response.Selects(index) {
          InvalidateCapture(capture);
          continue;
        }
        eligible := eligible + [index];
      }
    }

    method SetEligible(captures: seq<Capture>, response: Response, eligible: seq<nat>)
      requires Valid()
      requires forall i | i in eligible :: i < |captures| && response.Found(i).Some?
      modifies this
      ensures Valid() && State() == SetAll(old(State()), captures, response, eligible)
    {
      ghost var before := State();
      for k := 0 to |eligible|
        invariant forall i | i in eligible[..k] :: i < |captures| && response.Found(i).Some?
        invariant Valid() && State() == SetAll(before, captures, response, eligible[..k])
      {
        assert eligible[k] in eligible;
        assert eligible[..k + 1][..k] == eligible[..k];
        SetVariable(captures[eligible[k]], response.Found(eligible[k]).value);
      }
      assert eligible[..|eligible|] == eligible;
    }

    method CaptureVariables(captures: seq<Capture>, response: Response) returns (failed: bool)
      requires Valid()
      modifies this
      ensures Valid() && State() == CaptureAll(old(State()), captures, response)
      ensures failed == CaptureFails(old(State()), captures, response)
    {
      var eligible := SelectEligible(captures, response);
      if |eligible| == 0 {
        return false;
      }
      if !response.documentValid {
        InvalidateCaptures(Selected(captures, eligible));
        return true;
      }
      var k := 0;
      while k < |eligible| && response.Found(eligible[k]).Some?
        invariant 0 <= k <= |eligible|
        invariant forall j | 0 <= j < k :: response.Found(eligible[j]).Some?
      {
        k := k + 1;
      }
      if k < |eligible| {
        assert eligible[k] in eligible;
        InvalidateCaptures(Selected(captures, eligible));
        return true;
      }
      SetEligible(captures, response, eligible);
      return false;
    }
  }
}
