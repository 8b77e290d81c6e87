/** Why run ids must be new: engines are owned in every run that prepares given
    ids exactly when no id occurs twice among them.  Otherwise a stop request
    that has not returned yet ends a later run of the same id, whose engine
    goes on running. */
module ReusedRun {
  import opened WorkerProtocol

  // ----- runs that prepare given ids

  /** The run of each of the first n generations. */
  function RunsOf(ids: seq<string>, n: nat): map<nat, string>
    requires n <= |ids|
  {
    if n == 0 then map[] else RunsOf(ids, n - 1)[n := ids[n - 1]]
  }

  lemma {:induction false} RunsOfAll(ids: seq<string>, n: nat)
    requires n <= |ids|
    ensures forall g :: g in RunsOf(ids, n) <==> 1 <= g <= n
    ensures forall g | 1 <= g <= n :: RunsOf(ids, n)[g] == ids[g - 1]
  {
    if n > 0 {
      RunsOfAll(ids, n - 1);
    }
  }

  lemma {:induction false} RunsOfPrefix(ids: seq<string>, m: nat, n: nat)
    requires n <= m <= |ids|
    ensures RunsOf(ids[..m], n) == RunsOf(ids, n)
  {
    if n > 0 {
      RunsOfPrefix(ids, m, n - 1);
    }
  }

  /** s is reached by a run that prepares exactly these ids, in this order,
      whether they are new or not. */
  ghost predicate ReachedWith(ids: seq<string>, s: State) {
    Reachable(s, false) && s.generation == |ids| && s.runs == RunsOf(ids, |ids|)
  }

  ghost predicate Distinct(ids: seq<string>) {
    forall i, j | 0 <= i < j < |ids| :: ids[i] != ids[j]
  }

  /** Every engine that runs is wanted or about to be stopped. */
  ghost predicate Owned(s: State) {
    forall g | g in s.engines :: (s.generation == g && Active(s.state)) || AboutToStop(s, g)
  }

  // ----- distinct ids are enough

  /** A step that is not an accepted preparation leaves generations alone. */
  lemma GenerationStep(s: State, step: Step)
    requires Enabled(s, step, false)
    ensures var t := Next(s, step, false);
            if step.Prepare? && !Active(s.state)
            then t.generation == s.generation + 1 && t.runs == s.runs[s.generation + 1 := step.runID]
            else t.generation == s.generation && t.runs == s.runs
    ensures step.Prepare? && Active(s.state) ==> Next(s, step, false) == s
  {
  }

  /** The ids prepared so far. */
  lemma {:induction false} PreparedIds(steps: seq<Step>, s: State) returns (ids: seq<string>)
    requires Leads(Init(), steps, s, false)
    ensures s.generation == |ids| && s.runs == RunsOf(ids, |ids|)
    decreases |steps|
  {
    if steps == [] {
      ids := [];
    } else {
      var last := |steps| - 1;
      var m :| Leads(Init(), steps[..last], m, false) && Enabled(m, steps[last], false)
               && s == Next(m, steps[last], false);
      ids := PreparedIds(steps[..last], m);
      GenerationStep(m, steps[last]);
      if steps[last].Prepare? && !Active(m.state) {
        var longer := ids + [steps[last].runID];
        RunsOfPrefix(longer, |ids|, |ids|);
        assert longer[..|ids|] == ids;
        ids := longer;
      }
    }
  }

  /** A step of a run whose ids are distinct uses a new id, or does nothing. */
  lemma StepOwned(s: State, step: Step, before: seq<string>, ids: seq<string>)
    requires Invariant(s) && Enabled(s, step, false) && Distinct(ids)
    requires s.generation == |before| && s.runs == RunsOf(before, |before|)
    requires Next(s, step, false).generation == |ids| && Next(s, step, false).runs == RunsOf(ids, |ids|)
    ensures Invariant(Next(s, step, false))
  {
    GenerationStep(s, step);
    if step.Prepare? && !Active(s.state) {
      RunsOfAll(ids, |ids|);
      RunsOfAll(before, |before|);
      forall g | g in s.runs
        ensures s.runs[g] != step.runID
      {
        assert Next(s, step, false).runs[g] == ids[g - 1];
        assert Next(s, step, false).runs[|ids|] == ids[|ids| - 1];
      }
      PrepareKeeps(s, step.runID);
    } else if !step.Prepare? {
      StepKeeps(s, step);
    }
  }

  lemma DistinctPrefix(ids: seq<string>, before: seq<string>)
    requires Distinct(ids) && |before| <= |ids| && RunsOf(before, |before|).Items <= RunsOf(ids, |ids|).Items
    ensures Distinct(before)
  {
    RunsOfAll(ids, |ids|);
    RunsOfAll(before, |before|);
    forall k | 0 <= k < |before|
      ensures before[k] == ids[k]
    {
      assert (k + 1, before[k]) in RunsOf(before, |before|).Items;
    }
  }

  /** Where ids are distinct a run may as well be one that only uses new ids. */
  lemma {:induction false} LeadsOwned(steps: seq<Step>, s: State, ids: seq<string>)
    requires Leads(Init(), steps, s, false) && s.generation == |ids| && s.runs == RunsOf(ids, |ids|)
    requires Distinct(ids)
    ensures Invariant(s)
    decreases |steps|
  {
    if steps != [] {
      var last := |steps| - 1;
      var m :| Leads(Init(), steps[..last], m, false) && Enabled(m, steps[last], false)
               && s == Next(m, steps[last], false);
      var before := PreparedIds(steps[..last], m);
      GenerationStep(m, steps[last]);
      RunsOfAll(before, |before|);
      DistinctPrefix(ids, before);
      LeadsOwned(steps[..last], m, before);
      StepOwned(m, steps[last], before, ids);
    }
  }

  lemma DistinctIsEnough(ids: seq<string>, s: State)
    requires Distinct(ids) && ReachedWith(ids, s)
    ensures Owned(s)
  {
    var steps :| Leads(Init(), steps, s, false);
    LeadsOwned(steps, s, ids);
    forall g | g in s.engines
      ensures (s.generation == g && Active(s.state)) || AboutToStop(s, g)
    {
      assert GoroutineFits(s, g);
    }
  }

  // ----- an id that occurs twice

  lemma Go(s: State, step: Step) returns (t: State)
    requires Reachable(s, false) && Enabled(s, step, false)
    ensures t == Next(s, step, false) && Reachable(t, false)
  {
    t := Next(s, step, false);
    var steps :| Leads(Init(), steps, s, false);
    var longer := steps + [step];
    assert longer[..|longer| - 1] == steps;
    assert Leads(Init(), longer, t, false);
  }

  /** The server after preparing the first n ids. */
  function Server(ids: seq<string>, n: nat, state: WorkerState, goroutines: map<nat, Goroutine>, engines: set<nat>,
                  handlers: map<nat, Handler>): State
    requires n <= |ids|
  {
    State(n, if n == 0 then "" else ids[n - 1], state, goroutines, engines, handlers, RunsOf(ids, n))
  }

  /** The ids between n and m are prepared and never started. */
  lemma {:induction false} PrepareUpTo(ids: seq<string>, n: nat, m: nat, state: WorkerState,
                                       goroutines: map<nat, Goroutine>, engines: set<nat>,
                                       handlers: map<nat, Handler>)
    requires n <= m <= |ids| && !Active(state)
    requires forall g | g in goroutines :: g <= n && goroutines[g].pc != Timing
    requires Reachable(Server(ids, n, state, goroutines, engines, handlers), false)
    ensures Reachable(Server(ids, m, if n == m then state else Prepared, goroutines, engines, handlers), false)
    decreases m - n
  {
    if n < m {
      var s := Go(Server(ids, n, state, goroutines, engines, handlers), Prepare(ids[n]));
      assert s == Server(ids, n + 1, Prepared, goroutines, engines, handlers);
      PrepareUpTo(ids, n + 1, m, Prepared, goroutines, engines, handlers);
    }
  }

  /** The prepared run is started, and its engine runs. */
  lemma StartIt(ids: seq<string>, n: nat, goroutines: map<nat, Goroutine>, handlers: map<nat, Handler>)
    requires 1 <= n <= |ids| && ids[n - 1] != "" && n !in goroutines
    requires Reachable(Server(ids, n, Prepared, goroutines, {}, handlers), false)
    ensures Reachable(Server(ids, n, Running, goroutines[n := Goroutine(ids[n - 1], false, AwaitingDone)], {n},
                             handlers), false)
  {
    var r := ids[n - 1];
    var s := Go(Server(ids, n, Prepared, goroutines, {}, handlers), Start(r, true));
    assert s == Server(ids, n, Scheduled, goroutines[n := Goroutine(r, false, Timing)], {}, handlers);
    s := Go(s, TimerFires(n));
    assert s == Server(ids, n, Scheduled, goroutines[n := Goroutine(r, false, StartingEngine)], {}, handlers);
    ClaimIt(ids, n, goroutines, handlers);
  }

  lemma ClaimIt(ids: seq<string>, n: nat, goroutines: map<nat, Goroutine>, handlers: map<nat, Handler>)
    requires 1 <= n <= |ids|
    requires Reachable(Server(ids, n, Scheduled, goroutines[n := Goroutine(ids[n - 1], false, StartingEngine)], {},
                              handlers), false)
    ensures Reachable(Server(ids, n, Running, goroutines[n := Goroutine(ids[n - 1], false, AwaitingDone)], {n},
                             handlers), false)
  {
    var r := ids[n - 1];
    var s := Go(Server(ids, n, Scheduled, goroutines[n := Goroutine(r, false, StartingEngine)], {}, handlers),
                StartEngine(n));
    assert s == Server(ids, n, Scheduled, goroutines[n := Goroutine(r, false, Claiming)], {n}, handlers);
    s := Go(s, Claim(n));
    assert s == Server(ids, n, Running, goroutines[n := Goroutine(r, false, AwaitingDone)], {n}, handlers);
  }

  /** A stop request finds the engine running and waits until it has ended. */
  lemma StopIt(ids: seq<string>, n: nat)
    requires 1 <= n <= |ids| && ids[n - 1] != ""
    requires Reachable(Server(ids, n, Running, map[n := Goroutine(ids[n - 1], false, AwaitingDone)], {n}, map[]), false)
    ensures Reachable(Server(ids, n, Running, map[n := Goroutine(ids[n - 1], false, AwaitingDone)], {},
                             map[0 := Handler(n, ids[n - 1], true)]), false)
  {
    var r := ids[n - 1];
    var s := Go(Server(ids, n, Running, map[n := Goroutine(r, false, AwaitingDone)], {n}, map[]), StopRequest(r, 0));
    assert s.handlers == map[0 := Handler(n, r, false)];
    s := Go(s, EngineEnds(n));
    s := Go(s, StopReturns(0));
    assert s.engines == {} && s.handlers == map[0 := Handler(n, r, true)];
  }

  /** The first use ends by itself while the stop request waits for the lock. */
  lemma EndIt(ids: seq<string>, n: nat)
    requires 1 <= n <= |ids| && ids[n - 1] != ""
    requires Reachable(Server(ids, n, Running, map[n := Goroutine(ids[n - 1], false, AwaitingDone)], {n}, map[]), false)
    ensures Reachable(Server(ids, n, Stopped, map[n := Goroutine(ids[n - 1], false, Ended)], {},
                             map[0 := Handler(n, ids[n - 1], true)]), false)
  {
    var r := ids[n - 1];
    StopIt(ids, n);
    var s := Go(Server(ids, n, Running, map[n := Goroutine(r, false, AwaitingDone)], {}, map[0 := Handler(n, r, true)]),
                DoneSeen(n));
    assert s.goroutines == map[n := Goroutine(r, false, Finalizing)];
    s := Go(s, Finalize(n));
    assert s.goroutines == map[n := Goroutine(r, false, Ended)];
  }

  /** The goroutines of the two uses. */
  function Both(ids: seq<string>, i: nat, j: nat): map<nat, Goroutine>
    requires i < j < |ids|
  {
    map[i + 1 := Goroutine(ids[i], false, Ended), j + 1 := Goroutine(ids[j], false, AwaitingDone)]
  }

  /** An engine runs for a run that the server says is over, and its goroutine
      is not going to stop it. */
  ghost predicate Lost(s: State) {
    s.generation in s.engines && s.state == Stopped && !AboutToStop(s, s.generation)
  }

  function FirstOnly(ids: seq<string>, i: nat): map<nat, Goroutine>
    requires i < |ids|
  {
    map[i + 1 := Goroutine(ids[i], false, Ended)]
  }

  function Pending(ids: seq<string>, i: nat): map<nat, Handler>
    requires i < |ids|
  {
    map[0 := Handler(i + 1, ids[i], true)]
  }

  lemma FirstUseEnds(ids: seq<string>, i: nat)
    requires i < |ids| && ids[i] != ""
    ensures Reachable(Server(ids, i + 1, Stopped, FirstOnly(ids, i), {}, Pending(ids, i)), false)
  {
    assert Leads(Init(), [], Init(), false);
    assert Server(ids, 0, Idle, map[], {}, map[]) == Init();
    PrepareUpTo(ids, 0, i + 1, Idle, map[], {}, map[]);
    StartIt(ids, i + 1, map[], map[]);
    EndIt(ids, i + 1);
  }

  lemma SecondUseRuns(ids: seq<string>, i: nat, j: nat)
    requires i < j < |ids| && ids[i] == ids[j] != ""
    ensures Reachable(Server(ids, j + 1, Running, Both(ids, i, j), {j + 1}, Pending(ids, i)), false)
  {
    FirstUseEnds(ids, i);
    PrepareUpTo(ids, i + 1, j + 1, Stopped, FirstOnly(ids, i), {}, Pending(ids, i));
    StartIt(ids, j + 1, FirstOnly(ids, i), Pending(ids, i));
    assert FirstOnly(ids, i)[j + 1 := Goroutine(ids[j], false, AwaitingDone)] == Both(ids, i, j);
  }

  /** The stop request of the first use ends the second. */
  lemma SecondUseStops(ids: seq<string>, i: nat, j: nat)
    requires i < j < |ids| && ids[i] == ids[j] != ""
    ensures Reachable(Server(ids, j + 1, Stopped, Both(ids, i, j), {j + 1}, map[]), false)
  {
    SecondUseRuns(ids, i, j);
    var s := Go(Server(ids, j + 1, Running, Both(ids, i, j), {j + 1}, Pending(ids, i)), StopFinishes(0));
    assert s.handlers == map[];
  }

  lemma RepeatedIdLosesEngine(ids: seq<string>, i: nat, j: nat) returns (s: State)
    requires i < j < |ids| && ids[i] == ids[j] != ""
    ensures ReachedWith(ids, s) && !Owned(s)
    ensures j + 1 == |ids| ==> Lost(s)
  {
    SecondUseStops(ids, i, j);
    PrepareUpTo(ids, j + 1, |ids|, Stopped, Both(ids, i, j), {j + 1}, map[]);
    s := Server(ids, |ids|, if j + 1 == |ids| then Stopped else Prepared, Both(ids, i, j), {j + 1}, map[]);
    assert At(s, j + 1, AwaitingDone);
    assert j + 1 in s.engines;
  }

  /** All runs that prepare these ids, in this order, keep their engines owned
      exactly when no id occurs twice. */
  lemma OwnershipIsExact(ids: seq<string>)
    requires forall i | 0 <= i < |ids| :: ids[i] != ""
    ensures Distinct(ids) <==> forall s | ReachedWith(ids, s) :: Owned(s)
  {
    if Distinct(ids) {
      forall s | ReachedWith(ids, s)
        ensures Owned(s)
      {
        DistinctIsEnough(ids, s);
      }
    } else {
      var i, j :| 0 <= i < j < |ids| && ids[i] == ids[j];
      var s := RepeatedIdLosesEngine(ids, i, j);
    }
  }
}
