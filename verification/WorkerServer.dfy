/** The worker server as an object: each method is one section under the
    mutex, and takes the step of the protocol that it stands for. */
module WorkerServer {
  import opened WorkerProtocol
  import opened Options

  /** What an accepted preparation leaves. */
  lemma PreparesNext(s: State, runID: string, newIDs: bool)
    requires Enabled(s, Prepare(runID), newIDs) && !Active(s.state)
    ensures Next(s, Prepare(runID), newIDs)
         == CancelSchedule(s).(generation := s.generation + 1, runID := runID, state := Prepared,
                               runs := s.runs[s.generation + 1 := runID])
  {
  }

  lemma RefusedNext(s: State, runID: string, newIDs: bool)
    requires Enabled(s, Prepare(runID), newIDs) && Active(s.state)
    ensures Next(s, Prepare(runID), newIDs) == s
  {
  }

  class Server {
    var generation: nat
    var runID: string
    var state: WorkerState
    /** The generation whose engine is installed, and the one whose scheduled
        start can still be cancelled. */
    var loadEngine: nat
    var scheduleCancel: Option<nat>
    /** The goroutines and the stop requests that have been begun. */
    var goroutines: map<nat, Goroutine>
    var handlers: map<nat, Handler>
    /** The engines that run, and the run of each generation: no section reads
        them. */
    var engines: set<nat>
    var runs: map<nat, string>

    function View(): State
      reads this
    {
      State(generation, runID, state, goroutines, engines, handlers, runs)
    }

    /** A start that is still waiting, and was not cancelled, can be. */
    ghost predicate Valid()
      reads this
    {
      && loadEngine == generation
      && (scheduleCancel.Some? ==> scheduleCancel.value == generation && generation in goroutines)
      && (generation in goroutines && goroutines[generation].pc == Timing && !goroutines[generation].cancelled ==>
            scheduleCancel == Some(generation))
    }

    constructor ()
      ensures Valid() && View() == Init()
    {
      generation, runID, state, loadEngine, scheduleCancel := 0, "", Idle, 0, None;
      goroutines, handlers, engines, runs := map[], map[], {}, map[];
    }

    /** Calling a cancel function matters only while the start waits. */
    method CallCancel(g: nat)
      requires g in goroutines
      modifies this`goroutines
      ensures goroutines == if old(goroutines)[g].pc == Timing
                            then old(goroutines)[g := old(goroutines)[g].(cancelled := true)] else old(goroutines)
    {
      if goroutines[g].pc == Timing {
        goroutines := goroutines[g := goroutines[g].(cancelled := true)];
      }
    }

    method HandlePrepare(newRunID: string, ghost newIDs: bool) returns (accepted: bool)
      requires Valid() && Enabled(View(), Prepare(newRunID), newIDs) && generation + 1 !in goroutines
      modifies this
      ensures Valid() && View() == Next(old(View()), Prepare(newRunID), newIDs)
      ensures accepted <==> !Active(old(state))
      ensures if accepted then state == Prepared && runID == newRunID && generation == old(generation) + 1
              else View() == old(View())
    {
      hide Next, Enabled;
      if state == Scheduled || state == Running {
        RefusedNext(View(), newRunID, newIDs);
        return false;
      }
      if scheduleCancel.Some? {
        CallCancel(scheduleCancel.value);
      }
      assert View() == CancelSchedule(old(View()));
      PreparesNext(old(View()), newRunID, newIDs);
      generation := generation + 1;
      runID := newRunID;
      state := Prepared;
      loadEngine := generation;
      scheduleCancel := None;
      runs := runs[generation := newRunID];
      return true;
    }

    method HandleStart(startRunID: string, inWindow: bool, ghost newIDs: bool) returns (accepted: bool)
      requires Valid() && (state == Prepared ==> generation !in goroutines)
      modifies this
      ensures Valid() && View() == Next(old(View()), Start(startRunID, inWindow), newIDs)
      ensures accepted <==> startRunID != "" && startRunID == old(runID) && old(state) == Prepared && inWindow
      ensures if accepted then state == Scheduled && At(View(), generation, Timing) else View() == old(View())
      ensures generation == old(generation) && runID == old(runID)
    {
      if startRunID == "" || startRunID != runID {
        return false;
      }
      if state != Prepared {
        return false;
      }
      if !inWindow {
        return false;
      }
      scheduleCancel := Some(generation);
      state := Scheduled;
      goroutines := goroutines[generation := Goroutine(runID, false, Timing)];
      return true;
    }

    /** The goroutine that has started its engine asks whether its run is still
        wanted; if it is not, it will stop the engine. */
    method ClaimRun(g: nat, ghost newIDs: bool) returns (claimed: bool)
      requires Valid() && At(View(), g, Claiming)
      modifies this
      ensures Valid() && View() == Next(old(View()), Claim(g), newIDs)
      ensures claimed <==> generation == g && runID == old(goroutines)[g].runID && old(state) == Scheduled
      ensures state == if claimed then Running else old(state)
      ensures At(View(), g, if claimed then AwaitingDone else StoppingOwn)
      ensures generation == old(generation) && runID == old(runID)
    {
      var own := goroutines[g];
      if generation != g || runID != own.runID || state != Scheduled {
        goroutines := goroutines[g := own.(pc := StoppingOwn)];
        return false;
      }
      state := Running;
      scheduleCancel := None;
      goroutines := goroutines[g := own.(pc := AwaitingDone)];
      return true;
    }

    method EndRun(g: nat, ghost newIDs: bool)
      requires Valid() && At(View(), g, Finalizing)
      modifies this
      ensures Valid() && View() == Next(old(View()), Finalize(g), newIDs)
      ensures state == if generation == g && runID == old(goroutines)[g].runID && old(state) == Running then Stopped
                       else old(state)
      ensures At(View(), g, Ended) && generation == old(generation) && runID == old(runID)
    {
      if generation == g && runID == goroutines[g].runID && state == Running {
        state := Stopped;
      }
      goroutines := goroutines[g := goroutines[g].(pc := Ended)];
    }

    method MarkFailed(g: nat, ghost newIDs: bool)
      requires Valid() && At(View(), g, Failing)
      modifies this
      ensures Valid() && View() == Next(old(View()), FailRun(g), newIDs)
      ensures state == if generation == g && runID == old(goroutines)[g].runID then Failed else old(state)
      ensures At(View(), g, Ended) && generation == old(generation) && runID == old(runID)
    {
      if generation == g && runID == goroutines[g].runID {
        state := Failed;
        scheduleCancel := None;
      }
      goroutines := goroutines[g := goroutines[g].(pc := Ended)];
    }

    /** The first section of a stop request; `waits` tells that the engine must
        be stopped before the request can finish. */
    method HandleStop(stopRunID: string, handler: nat, ghost newIDs: bool) returns (found: bool, waits: bool)
      requires Valid() && Enabled(View(), StopRequest(stopRunID, handler), newIDs)
      requires state == Running ==> generation in goroutines && goroutines[generation].pc != Timing
      modifies this
      ensures Valid() && View() == Next(old(View()), StopRequest(stopRunID, handler), newIDs)
      ensures found <==> stopRunID != "" && stopRunID == old(runID)
      ensures waits <==> found && old(state) == Running
      ensures state == if found && !Terminal(old(state)) && !waits then Stopped else old(state)
      ensures waits ==> handler in handlers && handlers[handler] == Handler(generation, stopRunID, false)
      ensures generation == old(generation) && runID == old(runID)
    {
      if stopRunID == "" || stopRunID != runID {
        return false, false;
      }
      if Terminal(state) {
        return true, false;
      }
      if scheduleCancel.Some? {
        CallCancel(scheduleCancel.value);
        scheduleCancel := None;
      }
      if state != Running {
        assert goroutines == CancelSchedule(old(View())).goroutines;
        state := Stopped;
        return true, false;
      }
      handlers := handlers[handler := Handler(loadEngine, stopRunID, false)];
      return true, true;
    }

    /** The last section of a stop request whose engine has ended: it compares
        the run id only. */
    method FinishStop(handler: nat, ghost newIDs: bool)
      requires Valid() && Enabled(View(), StopFinishes(handler), newIDs)
      modifies this
      ensures Valid() && View() == Next(old(View()), StopFinishes(handler), newIDs)
      ensures state == if runID == old(handlers)[handler].runID && !Terminal(old(state)) then Stopped else old(state)
      ensures handler !in handlers && generation == old(generation) && runID == old(runID)
    {
      if runID == handlers[handler].runID && !Terminal(state) {
        state := Stopped;
      }
      handlers := handlers - {handler};
    }
  }

  /** The preconditions of the sections hold in every run with new run ids. */
  lemma SectionsApply(s: State)
    requires Reachable(s, true)
    ensures s.generation + 1 !in s.goroutines
    ensures s.state == Prepared ==> s.generation !in s.goroutines
    ensures s.state == Running ==> s.generation in s.goroutines && s.goroutines[s.generation].pc != Timing
  {
    ReachableInvariant(s);
    forall g | g in s.goroutines
      ensures g <= s.generation
    {
      assert GoroutineFits(s, g);
    }
  }
}
