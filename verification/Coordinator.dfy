/** The coordinator of one distributed run, the network, and its workers: all
    workers are prepared before any of them is started. */
module Coordinator {
  import W = WorkerProtocol

  /** The run; for each worker the plan of its shard, and that plan as the
      worker decodes it; and how the digest of a plan is computed. */
  datatype Run = Run(id: string, plans: seq<string>, decoded: seq<string>, hash: string -> string)
  {
    predicate Valid() {
      |decoded| == |plans|
    }
  }

  /** What the goroutine of a parallel operation has come to. */
  datatype Call = Waiting | Sent | Returned(ok: bool)

  datatype Phase = Preparing | Starting | StoppingPrepared | Finished(ok: bool)

  datatype Message = PrepareMessage(worker: nat) | StartMessage(worker: nat) | StopMessage(worker: nat)

  /** An accepted preparation, with the digest that the worker computed. */
  datatype Reply = PrepareReply(worker: nat, digest: string) | StartReply(worker: nat)

  /** Messages and replies may arrive late, more than once, or never: both sets
      only grow.  `installed` are the plans that this run has installed at each
      worker, by generation; `committed` tells that the second phase was
      reached. */
  datatype State = State(phase: Phase, calls: seq<Call>, network: set<Message>, replies: set<Reply>,
                         workers: seq<W.State>, installed: seq<map<nat, string>>, committed: bool)

  datatype Step =
    | Begin(worker: nat, contextDone: bool)
    | DeliverPrepare(worker: nat)
    | DeliverStart(worker: nat, inWindow: bool)
    | DeliverStop(worker: nat, handler: nat)
    | Succeed(worker: nat)
    | Fail(worker: nat)
    | AllReturned
    | WorkerStep(worker: nat, step: W.Step)

  function Init(run: Run): State {
    State(Preparing, seq(|run.plans|, _ => Waiting), {}, {}, seq(|run.plans|, _ => W.Init()),
          seq(|run.plans|, _ => map[]), false)
  }

  /** Other coordinators use other run ids. */
  predicate Foreign(step: W.Step, runID: string) {
    match step
    case Prepare(id) => id != runID
    case Start(id, _) => id != runID
    case _ => true
  }

  predicate AllDone(calls: seq<Call>) {
    forall i | 0 <= i < |calls| :: calls[i].Returned?
  }

  predicate AllOk(calls: seq<Call>) {
    forall i | 0 <= i < |calls| :: calls[i] == Returned(true)
  }

  predicate Enabled(run: Run, s: State, step: Step) {
    run.Valid() && |s.calls| == |s.workers| == |s.installed| == |run.plans|
    && match step
       case Begin(i, _) => i < |s.calls| && s.calls[i] == Waiting && !s.phase.Finished?
       case DeliverPrepare(i) => i < |s.workers| && PrepareMessage(i) in s.network
       case DeliverStart(i, _) => i < |s.workers| && StartMessage(i) in s.network
       case DeliverStop(i, handler) =>
         i < |s.workers| && StopMessage(i) in s.network && handler !in s.workers[i].handlers
       case Succeed(i) =>
         i < |s.calls| && s.calls[i] == Sent
         && (s.phase.Preparing? ==> PrepareReply(i, run.hash(run.plans[i])) in s.replies)
         && (s.phase.Starting? ==> StartReply(i) in s.replies)
       case Fail(i) => i < |s.calls| && s.calls[i] == Sent
       case AllReturned => AllDone(s.calls) && !s.phase.Finished?
       case WorkerStep(i, step) => i < |s.workers| && Foreign(step, run.id) && W.Enabled(s.workers[i], step, false)
  }

  function OnWorker(s: State, i: nat, step: W.Step): State
    requires i < |s.workers| && W.Enabled(s.workers[i], step, false)
  {
    s.(workers := s.workers[i := W.Next(s.workers[i], step, false)])
  }

  function MessageOf(phase: Phase, i: nat): Message {
    match phase
    case Preparing => PrepareMessage(i)
    case Starting => StartMessage(i)
    case _ => StopMessage(i)
  }

  function Again(s: State, phase: Phase): State {
    s.(phase := phase, calls := seq(|s.calls|, _ => Waiting))
  }

  function Next(run: Run, s: State, step: Step): State
    requires Enabled(run, s, step)
  {
    match step
    case Begin(i, contextDone) =>
      if contextDone then s.(calls := s.calls[i := Returned(false)])
      else s.(calls := s.calls[i := Sent], network := s.network + {MessageOf(s.phase, i)})
    case DeliverPrepare(i) =>
      if W.Active(s.workers[i].state) then s
      else
        var t := OnWorker(s, i, W.Prepare(run.id));
        t.(replies := s.replies + {PrepareReply(i, run.hash(run.decoded[i]))},
           installed := s.installed[i := s.installed[i][t.workers[i].generation := run.decoded[i]]])
    case DeliverStart(i, inWindow) =>
      var t := OnWorker(s, i, W.Start(run.id, inWindow));
      if t.workers[i].state == W.Scheduled && s.workers[i].state == W.Prepared
      then t.(replies := s.replies + {StartReply(i)}) else t
    case DeliverStop(i, handler) => OnWorker(s, i, W.StopRequest(run.id, handler))
    case Succeed(i) => s.(calls := s.calls[i := Returned(true)])
    case Fail(i) => s.(calls := s.calls[i := Returned(false)])
    case AllReturned =>
      (match s.phase
       case Preparing => if AllOk(s.calls) then Again(s, Starting).(committed := true) else Again(s, StoppingPrepared)
       case Starting => if AllOk(s.calls) then s.(phase := Finished(true)) else Again(s, StoppingPrepared)
       case StoppingPrepared => s.(phase := Finished(false))
       case Finished(ok) => s)
    case WorkerStep(i, step) => OnWorker(s, i, step)
  }

  ghost predicate Leads(run: Run, s: State, steps: seq<Step>, t: State)
    decreases |steps|
  {
    if steps == [] then t == s
    else
      var last := |steps| - 1;
      exists m :: Leads(run, s, steps[..last], m) && Enabled(run, m, steps[last]) && t == Next(run, m, steps[last])
  }

  ghost predicate Reachable(run: Run, s: State) {
    exists steps :: Leads(run, Init(run), steps, s)
  }

  // ----- what always holds

  /** No worker was ever told to start the run. */
  ghost predicate NotStarted(w: W.State, runID: string) {
    forall g | g in w.goroutines :: w.goroutines[g].runID != runID
  }

  ghost predicate Accepted(w: W.State, runID: string) {
    exists g :: g in w.runs && w.runs[g] == runID
  }

  /** The worker knows the run of every generation and of every start. */
  ghost predicate RunsRecorded(w: W.State) {
    && (forall g | g in w.runs :: g <= w.generation)
    && (forall g | g in w.goroutines :: g in w.runs && w.runs[g] == w.goroutines[g].runID)
    && (w.state == W.Prepared ==> w.generation in w.runs && w.runs[w.generation] == w.runID)
  }

  /** Whatever the worker has prepared for the run is its plan as decoded. */
  ghost predicate InstalledFor(run: Run, w: W.State, installed: map<nat, string>, plan: string) {
    forall g | g in w.runs && w.runs[g] == run.id :: g in installed && installed[g] == plan
  }

  ghost predicate AllPrepared(run: Run, s: State)
    requires |s.workers| == |run.plans|
  {
    forall i: nat | i < |run.plans| :: PrepareReply(i, run.hash(run.plans[i])) in s.replies
  }

  ghost predicate AllStarted(run: Run, s: State) {
    forall i: nat | i < |run.plans| :: StartReply(i) in s.replies
  }

  ghost predicate WorkersFit(run: Run, s: State)
    requires run.Valid() && |s.workers| == |s.installed| == |run.plans|
  {
    forall i | 0 <= i < |s.workers| ::
      RunsRecorded(s.workers[i]) && InstalledFor(run, s.workers[i], s.installed[i], run.decoded[i])
  }

  ghost predicate RepliesFit(run: Run, s: State)
    requires run.Valid() && |s.workers| == |run.plans|
  {
    && (forall i: nat, d | PrepareReply(i, d) in s.replies ::
          i < |s.workers| && Accepted(s.workers[i], run.id) && d == run.hash(run.decoded[i]))
    && (forall i: nat | StartReply(i) in s.replies :: i < |s.workers| && !NotStarted(s.workers[i], run.id))
  }

  ghost predicate PhasesFit(run: Run, s: State)
    requires |s.calls| == |s.workers| == |run.plans|
  {
    && (s.phase == Starting || (s.phase.Finished? && s.phase.ok) ==> s.committed)
    && (s.phase == Preparing ==> forall i: nat | i < |s.calls| && s.calls[i] == Returned(true) ::
          PrepareReply(i, run.hash(run.plans[i])) in s.replies)
    && (s.phase == Starting ==> forall i: nat | i < |s.calls| && s.calls[i] == Returned(true) ::
          StartReply(i) in s.replies)
    && (s.phase == Finished(true) ==> AllStarted(run, s))
    && (s.committed ==> AllPrepared(run, s))
    && (!s.committed ==>
          && (forall i :: StartMessage(i) !in s.network)
          && (forall i | 0 <= i < |s.workers| :: NotStarted(s.workers[i], run.id)))
  }

  ghost predicate Invariant(run: Run, s: State) {
    && run.Valid() && |s.calls| == |s.workers| == |s.installed| == |run.plans|
    && WorkersFit(run, s) && RepliesFit(run, s) && PhasesFit(run, s)
  }

  lemma PrepareKeepsRecords(w: W.State, runID: string)
    requires RunsRecorded(w)
    ensures RunsRecorded(W.Next(w, W.Prepare(runID), false))
  {
    assert W.CancelSchedule(w).goroutines.Keys == w.goroutines.Keys;
  }

  lemma StartKeepsRecords(w: W.State, runID: string, inWindow: bool)
    requires RunsRecorded(w)
    ensures RunsRecorded(W.Next(w, W.Start(runID, inWindow), false))
  {
  }

  /** Runs and goroutines have the ids they had. */
  predicate SameIDs(w: W.State, v: W.State) {
    && v.runs == w.runs && v.generation == w.generation && v.runID == w.runID
    && v.goroutines.Keys == w.goroutines.Keys && (v.state == W.Prepared ==> w.state == W.Prepared)
    && forall g | g in w.goroutines :: v.goroutines[g].runID == w.goroutines[g].runID
  }

  predicate OfGoroutine(step: W.Step) {
    step.TimerFires? || step.ContextDone? || step.StartEngine? || step.FailRun? || step.Claim? || step.OwnStopped?
    || step.DoneSeen? || step.Finalize?
  }

  lemma GoroutineStep(w: W.State, step: W.Step)
    requires W.Enabled(w, step, false) && OfGoroutine(step)
    ensures SameIDs(w, W.Next(w, step, false))
  {
  }

  lemma ServerStep(w: W.State, step: W.Step)
    requires W.Enabled(w, step, false) && !step.Prepare? && !step.Start? && !OfGoroutine(step)
    ensures SameIDs(w, W.Next(w, step, false))
  {
  }

  /** All steps but these two leave runs and goroutines their ids. */
  lemma OtherStep(w: W.State, step: W.Step)
    requires W.Enabled(w, step, false) && !step.Prepare? && !step.Start?
    ensures SameIDs(w, W.Next(w, step, false))
  {
    if OfGoroutine(step) {
      GoroutineStep(w, step);
    } else {
      ServerStep(w, step);
    }
  }

  lemma WorkerKeepsRecords(w: W.State, step: W.Step)
    requires W.Enabled(w, step, false) && RunsRecorded(w)
    ensures RunsRecorded(W.Next(w, step, false))
  {
    if step.Prepare? {
      PrepareKeepsRecords(w, step.runID);
    } else if step.Start? {
      StartKeepsRecords(w, step.runID, step.inWindow);
    } else {
      OtherStep(w, step);
    }
  }

  lemma WorkerKeepsAccepted(w: W.State, step: W.Step, runID: string)
    requires W.Enabled(w, step, false) && RunsRecorded(w)
    ensures var v := W.Next(w, step, false);
            && (Accepted(w, runID) ==> Accepted(v, runID))
            && (step == W.Prepare(runID) && !W.Active(w.state) ==> Accepted(v, runID))
  {
    var v := W.Next(w, step, false);
    if Accepted(w, runID) {
      var g :| g in w.runs && w.runs[g] == runID;
      assert g in v.runs && v.runs[g] == runID;
    }
    if step == W.Prepare(runID) && !W.Active(w.state) {
      assert v.runs[w.generation + 1] == runID;
    }
  }

  lemma WorkerStaysUnstarted(w: W.State, step: W.Step, runID: string)
    requires W.Enabled(w, step, false) && NotStarted(w, runID)
    requires !step.Start? || step.runID != runID
    ensures NotStarted(W.Next(w, step, false), runID)
  {
    var v := W.Next(w, step, false);
    forall g | g in v.goroutines
      ensures v.goroutines[g].runID != runID
    {
      if g in w.goroutines && !step.Start? {
        assert v.goroutines[g].runID == w.goroutines[g].runID;
      }
    }
  }

  lemma WorkerStaysStarted(w: W.State, step: W.Step, runID: string)
    requires W.Enabled(w, step, false) && RunsRecorded(w) && !NotStarted(w, runID)
    ensures !NotStarted(W.Next(w, step, false), runID)
  {
    var v := W.Next(w, step, false);
    var g :| g in w.goroutines && w.goroutines[g].runID == runID;
    assert g in v.goroutines && v.goroutines[g].runID == runID;
  }

  /** A worker step that neither prepares nor starts the run. */
  lemma WorkerKeepsInstalled(run: Run, w: W.State, step: W.Step, installed: map<nat, string>, plan: string)
    requires W.Enabled(w, step, false) && step != W.Prepare(run.id) && InstalledFor(run, w, installed, plan)
    ensures InstalledFor(run, W.Next(w, step, false), installed, plan)
  {
  }

  lemma WorkerInstalls(run: Run, w: W.State, installed: map<nat, string>, plan: string)
    requires RunsRecorded(w) && InstalledFor(run, w, installed, plan) && !W.Active(w.state)
    ensures var v := W.Next(w, W.Prepare(run.id), false);
            InstalledFor(run, v, installed[v.generation := plan], plan)
  {
  }

  lemma OnWorkerKeeps(run: Run, s: State, i: nat, step: W.Step, t: State)
    requires Invariant(run, s) && i < |s.workers| && W.Enabled(s.workers[i], step, false)
    requires step != W.Prepare(run.id) && (!step.Start? || step.runID != run.id || s.committed)
    requires t == OnWorker(s, i, step)
    ensures Invariant(run, t)
  {
    WorkerKeepsRecords(s.workers[i], step);
    WorkerKeepsAccepted(s.workers[i], step, run.id);
    WorkerKeepsInstalled(run, s.workers[i], step, s.installed[i], run.decoded[i]);
    if NotStarted(s.workers[i], run.id) {
      if !s.committed {
        WorkerStaysUnstarted(s.workers[i], step, run.id);
      }
    } else {
      WorkerStaysStarted(s.workers[i], step, run.id);
    }
  }

  lemma PrepareKeeps(run: Run, s: State, i: nat)
    requires Invariant(run, s) && Enabled(run, s, DeliverPrepare(i)) && !W.Active(s.workers[i].state)
    ensures Invariant(run, Next(run, s, DeliverPrepare(i)))
  {
    var step := W.Prepare(run.id);
    WorkerKeepsRecords(s.workers[i], step);
    WorkerKeepsAccepted(s.workers[i], step, run.id);
    WorkerInstalls(run, s.workers[i], s.installed[i], run.decoded[i]);
    if NotStarted(s.workers[i], run.id) {
      WorkerStaysUnstarted(s.workers[i], step, run.id);
    } else {
      WorkerStaysStarted(s.workers[i], step, run.id);
    }
  }

  lemma StartKeeps(run: Run, s: State, i: nat, inWindow: bool)
    requires Invariant(run, s) && Enabled(run, s, DeliverStart(i, inWindow))
    ensures Invariant(run, Next(run, s, DeliverStart(i, inWindow)))
  {
    var t := OnWorker(s, i, W.Start(run.id, inWindow));
    OnWorkerKeeps(run, s, i, W.Start(run.id, inWindow), t);
    if t.workers[i].state == W.Scheduled && s.workers[i].state == W.Prepared {
      assert t.workers[i].goroutines[s.workers[i].generation].runID == run.id;
    }
  }

  lemma CallsKeep(run: Run, s: State, step: Step)
    requires Invariant(run, s) && Enabled(run, s, step)
    requires step.Begin? || step.Succeed? || step.Fail? || step.AllReturned?
    ensures Invariant(run, Next(run, s, step))
  {
  }

  lemma StepKeeps(run: Run, s: State, step: Step)
    requires Invariant(run, s) && Enabled(run, s, step)
    ensures Invariant(run, Next(run, s, step))
  {
    match step {
      case DeliverPrepare(i) =>
        if !W.Active(s.workers[i].state) {
          PrepareKeeps(run, s, i);
        }
      case DeliverStart(i, inWindow) => StartKeeps(run, s, i, inWindow);
      case DeliverStop(i, handler) =>
        OnWorkerKeeps(run, s, i, W.StopRequest(run.id, handler), Next(run, s, step));
      case WorkerStep(i, inner) =>
        OnWorkerKeeps(run, s, i, inner, Next(run, s, step));
      case _ => CallsKeep(run, s, step);
    }
  }

  lemma {:induction false} LeadsKeeps(run: Run, s: State, steps: seq<Step>, t: State)
    requires Invariant(run, s) && Leads(run, s, steps, t)
    ensures Invariant(run, t)
    decreases |steps|
  {
    if steps != [] {
      var last := |steps| - 1;
      var m :| Leads(run, s, steps[..last], m) && Enabled(run, m, steps[last]) && t == Next(run, m, steps[last]);
      LeadsKeeps(run, s, steps[..last], m);
      StepKeeps(run, m, steps[last]);
    }
  }

  lemma ReachableInvariant(run: Run, s: State)
    requires run.Valid() && Reachable(run, s)
    ensures Invariant(run, s)
  {
    var steps :| Leads(run, Init(run), steps, s);
    assert Invariant(run, Init(run));
    LeadsKeeps(run, Init(run), steps, s);
  }

  // ----- what is promised

  /** Worker j has accepted the preparation and returned the digest of its own
      shard, which is that of every plan it has installed for the run. */
  ghost predicate PreparedFor(run: Run, s: State, j: nat)
    requires run.Valid() && j < |s.workers| == |s.installed| == |run.plans|
  {
    && PrepareReply(j, run.hash(run.plans[j])) in s.replies && Accepted(s.workers[j], run.id)
    && forall g | g in s.workers[j].runs && s.workers[j].runs[g] == run.id ::
         g in s.installed[j] && run.hash(s.installed[j][g]) == run.hash(run.plans[j])
  }

  /** If the engine of any worker runs for the run, every worker is prepared
      for it, and that engine has a plan with the digest of its shard. */
  lemma AllPreparedBeforeAnyStart(run: Run, s: State, i: nat, g: nat)
    requires run.Valid() && Reachable(run, s) && i < |s.workers|
    requires g in s.workers[i].engines && g in s.workers[i].goroutines && s.workers[i].goroutines[g].runID == run.id
    ensures |s.workers| == |s.installed| == |run.plans|
    ensures forall j: nat | j < |s.workers| :: PreparedFor(run, s, j)
    ensures g in s.installed[i] && run.hash(s.installed[i][g]) == run.hash(run.plans[i])
  {
    ReachableInvariant(run, s);
    assert !NotStarted(s.workers[i], run.id);
    AllArePrepared(run, s);
    assert RunsRecorded(s.workers[i]);
    assert PreparedFor(run, s, i);
  }

  lemma AllArePrepared(run: Run, s: State)
    requires Invariant(run, s) && s.committed
    ensures forall j: nat | j < |s.workers| :: PreparedFor(run, s, j)
  {
    forall j: nat | j < |s.workers|
      ensures PreparedFor(run, s, j)
    {
      assert PrepareReply(j, run.hash(run.plans[j])) in s.replies;
      assert InstalledFor(run, s.workers[j], s.installed[j], run.decoded[j]);
    }
  }

  /** The worker was told to start the run and accepted it. */
  ghost predicate StartedFor(run: Run, s: State, j: nat)
    requires j < |s.workers|
  {
    StartReply(j) in s.replies
    && exists g :: g in s.workers[j].goroutines && s.workers[j].goroutines[g].runID == run.id
  }

  /** A run that was handed to the caller was prepared and started by all its
      workers. */
  lemma FinishedRunIsStarted(run: Run, s: State)
    requires run.Valid() && Reachable(run, s) && s.phase == Finished(true)
    ensures |s.workers| == |s.installed| == |run.plans|
    ensures forall j: nat | j < |s.workers| :: PreparedFor(run, s, j) && StartedFor(run, s, j)
  {
    ReachableInvariant(run, s);
    AllArePrepared(run, s);
    forall j: nat | j < |s.workers|
      ensures StartedFor(run, s, j)
    {
      assert !NotStarted(s.workers[j], run.id);
    }
  }

  // ----- a run that was not started everywhere

  predicate Failing(phase: Phase) {
    phase == StoppingPrepared || phase == Finished(false)
  }

  /** Every call to stop a worker that was made has sent its message, and a
      finished coordinator has no call left. */
  ghost predicate StopsFit(s: State) {
    && (Failing(s.phase) ==> forall i: nat | i < |s.calls| && s.calls[i] != Waiting && s.calls[i] != Returned(false) ::
          StopMessage(i) in s.network)
    && (s.phase.Finished? ==> AllDone(s.calls))
  }

  lemma StopsKept(run: Run, s: State, step: Step)
    requires Enabled(run, s, step) && StopsFit(s)
    ensures StopsFit(Next(run, s, step))
  {
    var t := Next(run, s, step);
    if step.Begin? || step.Succeed? || step.Fail? || step.AllReturned? {
      forall i: nat | Failing(t.phase) && i < |t.calls| && t.calls[i] != Waiting && t.calls[i] != Returned(false)
        ensures StopMessage(i) in t.network
      {
      }
    } else {
      assert t.phase == s.phase && t.calls == s.calls && t.network == s.network;
    }
  }

  lemma {:induction false} LeadsKeepsStops(run: Run, s: State, steps: seq<Step>, t: State)
    requires StopsFit(s) && Leads(run, s, steps, t)
    ensures StopsFit(t)
    decreases |steps|
  {
    if steps != [] {
      var last := |steps| - 1;
      var m :| Leads(run, s, steps[..last], m) && Enabled(run, m, steps[last]) && t == Next(run, m, steps[last]);
      LeadsKeepsStops(run, s, steps[..last], m);
      StopsKept(run, m, steps[last]);
    }
  }

  /** When a run is given up, every worker has been sent a request to stop it,
      unless the call to it failed. */
  lemma FailedRunIsStopped(run: Run, s: State)
    requires run.Valid() && Reachable(run, s) && s.phase == Finished(false)
    ensures |s.calls| == |run.plans|
    ensures forall i: nat | i < |s.calls| && s.calls[i] != Returned(false) :: StopMessage(i) in s.network
  {
    ReachableInvariant(run, s);
    var steps :| Leads(run, Init(run), steps, s);
    LeadsKeepsStops(run, Init(run), steps, s);
  }
}
