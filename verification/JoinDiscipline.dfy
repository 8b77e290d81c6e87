/** Joins match the branch on top of the stack in every run, if no transition
    enters a branch from outside. */
module JoinDiscipline {
  import opened Walks
  import opened ExecutionPlan
  import opened Regions
  import opened Machine

  /** A route being taken, as the branch and the position of the route. */
  datatype Frame = Frame(branch: nat, route: nat)

  function NextFrames(steps: seq<Step>, c: Control, frames: seq<Frame>, input: Input): seq<Frame>
    requires Resolved(steps) && OnPlan(steps, c) && c.pc >= 0
  {
    match steps[c.pc]
    case Branch(_, _, _, _) =>
      BranchWeight(steps, c.pc);
      frames + [Frame(c.pc, SelectRoute(steps[c.pc], input.selection))]
    case Join(_, _) => if frames == [] then [] else frames[..|frames| - 1]
    case _ => frames
  }

  /** The routes being taken after a run. */
  function RunFrames(steps: seq<Step>, s: Status, frames: seq<Frame>, inputs: seq<Input>): seq<Frame>
    requires Resolved(steps) && (s.Running? ==> OnPlan(steps, s.control))
    decreases |inputs|
  {
    if inputs == [] || !s.Running? || s.control.pc < 0 then frames
    else RunFrames(steps, Next(steps, s.control, inputs[0]),
                   NextFrames(steps, s.control, frames, inputs[0]), inputs[1..])
  }

  predicate FrameRecorded(steps: seq<Step>, active: ActiveRoute, frame: Frame) {
    && IsRoute(steps, frame.branch, frame.route)
    && active.join == steps[frame.branch].join
    && active.metricsIndex == steps[frame.branch].routes[frame.route].metricsIndex
  }

  ghost predicate OpenFrame(steps: seq<Step>, frame: Frame, v: nat) {
    IsRoute(steps, frame.branch, frame.route) && OpenVia(steps, frame.branch, frame.route, v)
  }

  ghost predicate Encloses(steps: seq<Step>, outer: Frame, inner: Frame) {
    IsRoute(steps, outer.branch, outer.route) && InsideVia(steps, outer.branch, outer.route, inner.branch)
  }

  /** The active routes are real, each contains the step about to run, and each
      contains the branch of the next one. */
  ghost predicate Nested(steps: seq<Step>, c: Control, frames: seq<Frame>) {
    && |frames| == |c.activeRoutes|
    && (forall i {:trigger FrameRecorded(steps, c.activeRoutes[i], frames[i])} | 0 <= i < |frames| ::
          FrameRecorded(steps, c.activeRoutes[i], frames[i]))
    && (c.pc >= 0 ==> forall i {:trigger OpenFrame(steps, frames[i], c.pc)} | 0 <= i < |frames| ::
                        OpenFrame(steps, frames[i], c.pc))
    && (forall i, j {:trigger Encloses(steps, frames[i], frames[j])} | 0 <= i < j < |frames| ::
          Encloses(steps, frames[i], frames[j]))
  }

  ghost predicate Listed(frames: seq<Frame>, b: nat) {
    exists i :: 0 <= i < |frames| && frames[i].branch == b
  }

  /** Every branch open at the step about to run is being taken. */
  ghost predicate AllOpenListed(steps: seq<Step>, c: Control, frames: seq<Frame>) {
    c.pc >= 0 ==> forall b: nat | IsBranch(steps, b) && Open(steps, b, c.pc) :: Listed(frames, b)
  }

  lemma FrameFacts(steps: seq<Step>, c: Control, frames: seq<Frame>, i: nat)
    requires Nested(steps, c, frames) && i < |frames|
    ensures i < |c.activeRoutes| && FrameRecorded(steps, c.activeRoutes[i], frames[i])
    ensures c.pc >= 0 ==> OpenFrame(steps, frames[i], c.pc)
  {
    assert FrameRecorded(steps, c.activeRoutes[i], frames[i]);
    if c.pc >= 0 {
      assert OpenFrame(steps, frames[i], c.pc);
    }
  }

  lemma FramesDiffer(steps: seq<Step>, c: Control, frames: seq<Frame>, i: nat, j: nat)
    requires Resolved(steps) && LoopsBounded(steps) && BranchesStructured(steps)
    requires Nested(steps, c, frames) && i < j < |frames|
    ensures IsBranch(steps, frames[i].branch) && IsBranch(steps, frames[j].branch)
    ensures frames[i].branch != frames[j].branch
    ensures steps[frames[i].branch].join != steps[frames[j].branch].join
  {
    FrameFacts(steps, c, frames, i);
    FrameFacts(steps, c, frames, j);
    assert Encloses(steps, frames[i], frames[j]);
    NotInsideItself(steps, frames[i].branch);
  }

  lemma ActiveJoinsDiffer(steps: seq<Step>, c: Control, frames: seq<Frame>, i: nat, j: nat)
    requires Resolved(steps) && LoopsBounded(steps) && BranchesStructured(steps)
    requires Nested(steps, c, frames) && i < j < |frames|
    ensures c.activeRoutes[i].join != c.activeRoutes[j].join
  {
    FramesDiffer(steps, c, frames, i, j);
    FrameFacts(steps, c, frames, i);
    FrameFacts(steps, c, frames, j);
  }

  lemma OpenFrameStep(steps: seq<Step>, frame: Frame, u: nat, v: nat)
    requires Resolved(steps) && OpenFrame(steps, frame, u) && Edge(Full(steps), u, v)
    requires u != steps[frame.branch].join
    ensures OpenFrame(steps, frame, v)
  {
    InsideStep(steps, frame.branch, frame.route, u, v);
  }

  lemma NestedAfterPlainStep(steps: seq<Step>, c: Control, d: Control, frames: seq<Frame>)
    requires Resolved(steps) && OnPlan(steps, c) && c.pc >= 0 && !steps[c.pc].Join?
    requires Nested(steps, c, frames) && d.activeRoutes == c.activeRoutes
    requires d.pc >= 0 ==> Edge(Full(steps), c.pc, d.pc)
    ensures Nested(steps, d, frames)
  {
    if d.pc >= 0 {
      forall i | 0 <= i < |frames|
        ensures OpenFrame(steps, frames[i], d.pc)
      {
        FrameFacts(steps, c, frames, i);
        assert StepResolved(steps, frames[i].branch);
        OpenFrameStep(steps, frames[i], c.pc, d.pc);
      }
    }
  }

  lemma NestedAfterBranch(steps: seq<Step>, c: Control, d: Control, frames: seq<Frame>, k: nat)
    requires Resolved(steps) && OnPlan(steps, c) && IsRoute(steps, c.pc, k)
    requires Nested(steps, c, frames) && d.pc == Target(steps, c.pc, k)
    requires d.activeRoutes == c.activeRoutes
                               + [ActiveRoute(steps[c.pc].join, steps[c.pc].routes[k].metricsIndex)]
    ensures Nested(steps, d, frames + [Frame(c.pc, k)])
  {
    var pushed := Frame(c.pc, k);
    var longer := frames + [pushed];
    RouteEdge(steps, c.pc, d.pc);
    FullEdge(steps, c.pc, d.pc);
    TargetIsOpen(steps, c.pc, k);
    forall i | 0 <= i < |frames|
      ensures FrameRecorded(steps, c.activeRoutes[i], frames[i])
      ensures OpenFrame(steps, frames[i], d.pc)
      ensures Encloses(steps, frames[i], pushed)
    {
      FrameFacts(steps, c, frames, i);
      assert StepResolved(steps, frames[i].branch);
      OpenFrameStep(steps, frames[i], c.pc, d.pc);
    }
    forall i, j | 0 <= i < j < |longer|
      ensures Encloses(steps, longer[i], longer[j])
    {
      if j < |frames| {
        assert Encloses(steps, frames[i], frames[j]);
      }
    }
  }

  lemma NestedAfterJoin(steps: seq<Step>, c: Control, d: Control, frames: seq<Frame>)
    requires Resolved(steps) && LoopsBounded(steps) && BranchesStructured(steps)
    requires OnPlan(steps, c) && c.pc >= 0 && steps[c.pc].Join?
    requires Nested(steps, c, frames) && frames != [] && c.activeRoutes[|frames| - 1].join == c.pc
    requires d.activeRoutes == c.activeRoutes[..|frames| - 1]
    requires d.pc >= 0 ==> Edge(Full(steps), c.pc, d.pc)
    ensures Nested(steps, d, frames[..|frames| - 1])
  {
    var top: nat := |frames| - 1;
    var shorter := frames[..top];
    forall i | 0 <= i < top
      ensures FrameRecorded(steps, c.activeRoutes[i], frames[i])
      ensures d.pc >= 0 ==> OpenFrame(steps, frames[i], d.pc)
    {
      FrameFacts(steps, c, frames, i);
      if d.pc >= 0 {
        ActiveJoinsDiffer(steps, c, frames, i, top);
        OpenFrameStep(steps, frames[i], c.pc, d.pc);
      }
    }
    forall i, j | 0 <= i < j < |shorter|
      ensures Encloses(steps, shorter[i], shorter[j])
    {
      assert Encloses(steps, frames[i], frames[j]);
    }
  }

  /** Whatever the plan, a transition keeps the active routes nested. */
  lemma NextKeepsNested(steps: seq<Step>, c: Control, frames: seq<Frame>, input: Input)
    requires Resolved(steps) && LoopsBounded(steps) && BranchesStructured(steps)
    requires OnPlan(steps, c) && c.pc >= 0 && Nested(steps, c, frames)
    requires Next(steps, c, input).Running?
    ensures Nested(steps, Next(steps, c, input).control, NextFrames(steps, c, frames, input))
  {
    var d := Next(steps, c, input).control;
    if d.pc >= 0 {
      NextFollowsEdge(steps, c, input);
    }
    match steps[c.pc]
    case Branch(_, _, _, _) =>
      BranchWeight(steps, c.pc);
      NestedAfterBranch(steps, c, d, frames, SelectRoute(steps[c.pc], input.selection));
    case Join(_, _) =>
      NestedAfterJoin(steps, c, d, frames);
    case _ =>
      NestedAfterPlainStep(steps, c, d, frames);
  }

  /** With no foreign entry the branches open after a transition are those of
      the step before, plus a branch just taken, less a branch just joined. */
  lemma OpenStep(steps: seq<Step>, entry: nat, u: nat, v: nat, b: nat)
    requires WellStructured(steps, entry) && NoForeignEntry(steps, entry)
    requires Edge(Full(steps), u, v) && IsBranch(steps, b) && Open(steps, b, v)
    ensures u == b || (Open(steps, b, u) && u != steps[b].join)
  {
    if u != b {
      assert Inside(steps, b, u);
      var k: nat :| IsRoute(steps, b, k) && InsideVia(steps, b, k, u);
      InsideLeadsToJoin(steps, b, k, u);
    }
  }

  lemma StaysListed(steps: seq<Step>, c: Control, frames: seq<Frame>, input: Input, b: nat)
    requires Resolved(steps) && OnPlan(steps, c) && c.pc >= 0 && Nested(steps, c, frames)
    requires Next(steps, c, input).Running?
    requires c.pc == b || (IsBranch(steps, b) && c.pc != steps[b].join && Listed(frames, b))
    requires IsBranch(steps, b)
    ensures Listed(NextFrames(steps, c, frames, input), b)
  {
    var after := NextFrames(steps, c, frames, input);
    if c.pc == b {
      assert after[|frames|].branch == b;
    } else {
      var i :| 0 <= i < |frames| && frames[i].branch == b;
      FrameFacts(steps, c, frames, i);
      if steps[c.pc].Join? {
        assert i < |frames| - 1;
      }
      assert after[i].branch == b;
    }
  }

  lemma NextKeepsListed(steps: seq<Step>, entry: nat, c: Control, frames: seq<Frame>, input: Input)
    requires WellStructured(steps, entry) && NoForeignEntry(steps, entry)
    requires OnPlan(steps, c) && c.pc >= 0 && Nested(steps, c, frames) && AllOpenListed(steps, c, frames)
    requires Next(steps, c, input).Running?
    ensures AllOpenListed(steps, Next(steps, c, input).control, NextFrames(steps, c, frames, input))
  {
    var d := Next(steps, c, input).control;
    if d.pc >= 0 {
      NextFollowsEdge(steps, c, input);
      forall b: nat | IsBranch(steps, b) && Open(steps, b, d.pc)
        ensures Listed(NextFrames(steps, c, frames, input), b)
      {
        OpenStep(steps, entry, c.pc, d.pc, b);
        StaysListed(steps, c, frames, input, b);
      }
    }
  }

  /** An outer route cannot be joined while an inner one is being taken. */
  lemma InnerFrameBlocksJoin(steps: seq<Step>, c: Control, frames: seq<Frame>, i: nat, j: nat)
    requires Resolved(steps) && LoopsBounded(steps) && BranchesStructured(steps)
    requires OnPlan(steps, c) && c.pc >= 0 && Nested(steps, c, frames) && i < j < |frames|
    ensures IsBranch(steps, frames[i].branch) && steps[frames[i].branch].join != c.pc
  {
    FramesDiffer(steps, c, frames, i, j);
    FrameFacts(steps, c, frames, j);
    assert Encloses(steps, frames[i], frames[j]);
    NestedJoin(steps, frames[i].branch, frames[i].route, frames[j].branch);
  }

  lemma JoinOwner(steps: seq<Step>, j: nat) returns (b: nat)
    requires JoinsOwned(steps) && j < |steps| && steps[j].Join?
    ensures IsBranch(steps, b) && steps[b].join == j
  {
    assert Owned(steps, j);
    b :| IsBranch(steps, b) && steps[b].join == j;
  }

  lemma ListedAt(frames: seq<Frame>, b: nat) returns (i: nat)
    requires Listed(frames, b)
    ensures i < |frames| && frames[i].branch == b
  {
    i :| 0 <= i < |frames| && frames[i].branch == b;
  }

  /** The join about to run is the join of the innermost active route. */
  lemma JoinIsOnTop(steps: seq<Step>, c: Control, frames: seq<Frame>)
    requires Resolved(steps) && LoopsBounded(steps) && BranchesStructured(steps)
    requires OnPlan(steps, c) && c.pc >= 0 && steps[c.pc].Join?
    requires Nested(steps, c, frames) && AllOpenListed(steps, c, frames)
    ensures frames != [] && c.activeRoutes[|frames| - 1].join == c.pc
  {
    var owner := JoinOwner(steps, c.pc);
    assert Open(steps, owner, c.pc);
    var i := ListedAt(frames, owner);
    if i < |frames| - 1 {
      InnerFrameBlocksJoin(steps, c, frames, i, |frames| - 1);
    }
    FrameFacts(steps, c, frames, i);
  }

  predicate JoinMatches(steps: seq<Step>, c: Control)
    requires OnPlan(steps, c)
  {
    c.pc >= 0 && steps[c.pc].Join? ==>
      c.activeRoutes != [] && c.activeRoutes[|c.activeRoutes| - 1].join == c.pc
  }

  /** No mismatch has ended the iteration, the active routes are nested and
      complete, and a join about to run is the innermost one. */
  ghost predicate Disciplined(steps: seq<Step>, s: Status, frames: seq<Frame>)
    requires s.Running? ==> OnPlan(steps, s.control)
  {
    && !s.JoinMismatch?
    && (s.Running? ==> Nested(steps, s.control, frames) && AllOpenListed(steps, s.control, frames)
                       && JoinMatches(steps, s.control))
  }

  lemma NextIsDisciplined(steps: seq<Step>, entry: nat, c: Control, frames: seq<Frame>, input: Input)
    requires WellStructured(steps, entry) && NoForeignEntry(steps, entry)
    requires OnPlan(steps, c) && c.pc >= 0 && Disciplined(steps, Running(c), frames)
    ensures Disciplined(steps, Next(steps, c, input), NextFrames(steps, c, frames, input))
  {
    if Next(steps, c, input).Running? {
      NextKeepsNested(steps, c, frames, input);
      NextKeepsListed(steps, entry, c, frames, input);
      var d := Next(steps, c, input).control;
      if d.pc >= 0 && steps[d.pc].Join? {
        JoinIsOnTop(steps, d, NextFrames(steps, c, frames, input));
      }
    }
  }

  /** Join discipline in every run. */
  lemma {:induction false} RunsAreDisciplined(steps: seq<Step>, entry: nat, inputs: seq<Input>)
    requires WellStructured(steps, entry) && NoForeignEntry(steps, entry)
    ensures Disciplined(steps, Run(steps, Running(Start(steps, entry)), inputs),
                        RunFrames(steps, Running(Start(steps, entry)), [], inputs))
    decreases |inputs|
  {
    var start := Running(Start(steps, entry));
    if inputs != [] {
      var last := |inputs| - 1;
      RunsAreDisciplined(steps, entry, inputs[..last]);
      RunLast(steps, start, inputs);
      FramesLast(steps, start, [], inputs);
      var before := Run(steps, start, inputs[..last]);
      if before.Running? && before.control.pc >= 0 {
        NextIsDisciplined(steps, entry, before.control, RunFrames(steps, start, [], inputs[..last]), inputs[last]);
      }
    }
  }

  lemma {:induction false} FramesAppend(steps: seq<Step>, s: Status, frames: seq<Frame>,
                                        first: seq<Input>, second: seq<Input>)
    requires Resolved(steps) && (s.Running? ==> OnPlan(steps, s.control))
    ensures RunFrames(steps, s, frames, first + second)
         == RunFrames(steps, Run(steps, s, first), RunFrames(steps, s, frames, first), second)
    decreases |first|
  {
    if first == [] {
      assert first + second == second;
    } else if s.Running? && s.control.pc >= 0 {
      assert (first + second)[1..] == first[1..] + second;
      FramesAppend(steps, Next(steps, s.control, first[0]),
                   NextFrames(steps, s.control, frames, first[0]), first[1..], second);
    }
  }

  lemma FramesLast(steps: seq<Step>, s: Status, frames: seq<Frame>, inputs: seq<Input>)
    requires Resolved(steps) && (s.Running? ==> OnPlan(steps, s.control)) && inputs != []
    ensures var last := |inputs| - 1;
            var before := Run(steps, s, inputs[..last]);
            var framesBefore := RunFrames(steps, s, frames, inputs[..last]);
            RunFrames(steps, s, frames, inputs) ==
            if before.Running? && before.control.pc >= 0
            then NextFrames(steps, before.control, framesBefore, inputs[last]) else framesBefore
  {
    var last := |inputs| - 1;
    assert inputs == inputs[..last] + [inputs[last]];
    FramesAppend(steps, s, frames, inputs[..last], [inputs[last]]);
  }
}
