/** The launcher's process-wide state and the two ways it runs a loaded
    module.  The module-level lists `before_start_events` and
    `after_stop_events` and the globals `stop_event` and `global_task` are
    the fields of one `Runner` object. */
module Runner {
  import opened Lifecycle
  import opened Signals

  /** The loop shared by every hook phase: invoke the hooks in registration
      order and stop at the first one that raises. */
  method RunHooks(hooks: seq<Hook>, phase: Phase, inLoop: bool, raises: Hook -> bool)
    returns (events: seq<Event>, failed: Option<Hook>)
    ensures PhaseRun(events, failed) == RunPhase(hooks, phase, inLoop, raises)
  {
    events := [];
    failed := None;
    for i := 0 to |hooks|
      invariant events == Invocations(hooks[..i], phase, inLoop)
      invariant forall j :: 0 <= j < i ==> !raises(hooks[j])
    {
      assert hooks[..i + 1] == hooks[..i] + [hooks[i]];
      events := events + [Invocation(phase, hooks[i], inLoop)];
      if raises(hooks[i]) {
        failed := Some(hooks[i]);
        RunPhaseFirstRaise(hooks, phase, inLoop, raises, i);
        return;
      }
    }
    assert hooks[..|hooks|] == hooks;
    RunPhaseNoneRaise(hooks, phase, inLoop, raises);
  }

  /** The interrupt state an asynchronous run leaves behind.  A run whose
      before hooks fail touches neither global.  Otherwise the run leaves an
      event behind, set whenever the wait ended, and a task that is no longer
      running unless the wait itself was cancelled. */
  function StateAfterAsyncRun(s: SignalState, beforeFailed: bool, ending: Ending): (r: SignalState)
    ensures beforeFailed ==> r == s
    ensures !beforeFailed ==> r.stopEvent != NoEvent && r.task != NoTask
    ensures !beforeFailed ==> (r.stopEvent == Set <==> ending != WaitCancelled)
    ensures !beforeFailed ==> (r.task == Pending <==> ending == WaitCancelled)
  {
    if beforeFailed then s
    else match ending
      case MainReturns => SignalState(Set, Finished)
      case MainRaises => SignalState(Set, Finished)
      case Interrupted => SignalState(Set, CancelRequested)
      case WaitCancelled => SignalState(Unset, Pending)
  }

  class Runner {
    var beforeStartEvents: seq<Hook>
    var afterStopEvents: seq<Hook>
    var stopEvent: StopEvent
    var globalTask: TaskState

    /** The state at import time: no hooks, no event, no task. */
    constructor ()
      ensures beforeStartEvents == [] && afterStopEvents == []
      ensures stopEvent == NoEvent && globalTask == NoTask
    {
      beforeStartEvents := [];
      afterStopEvents := [];
      stopEvent := NoEvent;
      globalTask := NoTask;
    }

    function State(): SignalState
      reads this
    {
      SignalState(stopEvent, globalTask)
    }

    /** `before_start(evt)`: appends to the before list; nothing else changes. */
    method BeforeStart(h: Hook)
      modifies this`beforeStartEvents
      ensures beforeStartEvents == old(beforeStartEvents) + [h]
    {
      beforeStartEvents := beforeStartEvents + [h];
    }

    /** `after_stop(evt)`: appends to the after list; nothing else changes. */
    method AfterStop(h: Hook)
      modifies this`afterStopEvents
      ensures afterStopEvents == old(afterStopEvents) + [h]
    {
      afterStopEvents := afterStopEvents + [h];
    }

    /** `sigint_handler`, step by step as the source takes it. */
    method SigintHandler() returns (reaction: Reaction)
      modifies this`stopEvent, this`globalTask
      ensures Transition(State(), reaction) == OnInterrupt(old(State()))
    {
      if stopEvent == NoEvent {
        reaction := AttributeError;
        return;
      }
      if stopEvent == Set {
        reaction := Exit(1);
        return;
      }
      stopEvent := Set;
      if globalTask != NoTask {
        globalTask := Cancel(globalTask);
      }
      reaction := Handled;
    }

    /** `run(module, *argv)`: before hooks, `main`, and after hooks in a
        `finally`; coroutine hooks are driven by `asyncio.run`. */
    method Run(raises: Hook -> bool, mainRaises: bool) returns (trace: seq<Event>, outcome: Outcome)
      ensures RunResult(trace, outcome) == SyncRun(beforeStartEvents, afterStopEvents, raises, mainRaises)
    {
      var failed;
      trace, failed := RunHooks(beforeStartEvents, BeforePhase, false, raises);
      if failed.Some? {
        outcome := Raised(HookFault(failed.value));
        return;
      }
      trace := trace + [MainCalled];
      var afterEvents, afterFailed := RunHooks(afterStopEvents, AfterPhase, false, raises);
      trace := trace + afterEvents;
      if afterFailed.Some? {
        outcome := Raised(HookFault(afterFailed.value));
      } else if mainRaises {
        outcome := Raised(MainFault);
      } else {
        outcome := Completed;
      }
    }

    /** `main_task`: await `main`, and in a `finally` set the stop event,
        whether `main` returned or raised. */
    method MainTask(mainRaises: bool) returns (events: seq<Event>, raised: bool)
      modifies this`stopEvent
      ensures stopEvent == Set && raised == mainRaises
      ensures events == [MainAwaited, StopEventSet(ByMainTask)]
    {
      events := [MainAwaited];
      raised := mainRaises;
      stopEvent := Set;
      events := events + [StopEventSet(ByMainTask)];
    }

    /** The `try` block of `aio_run` once the event exists and `main_task`
        is scheduled: wait for the event.  `main_task` sets it after `main`,
        or the interrupt handler sets it and cancels the main task, or the
        wait is cancelled first. */
    method WaitForStop(ending: Ending) returns (steps: seq<Event>)
      requires stopEvent == Unset && globalTask == Pending
      modifies this`stopEvent, this`globalTask
      ensures [EventCreated, TaskScheduled, WaitStarted] + steps == Middle(ending)
      ensures State() == StateAfterAsyncRun(old(State()), false, ending)
    {
      if ending == MainReturns || ending == MainRaises {
        var taskEvents, _ := MainTask(ending == MainRaises);
        globalTask := Finished;
        steps := taskEvents + [WaitEnded];
      } else if ending == Interrupted {
        var reaction := SigintHandler();
        assert reaction == Handled;
        steps := [StopEventSet(ByHandler), TaskCancelRequested, WaitEnded];
      } else {
        steps := [WaitAborted];
      }
    }

    /** `aio_run(module, *argv)`.  How the wait ends is given by `ending`;
        on `Interrupted` the interrupt handler itself runs. */
    method AioRun(raises: Hook -> bool, ending: Ending) returns (trace: seq<Event>, outcome: Outcome)
      modifies this`stopEvent, this`globalTask
      ensures RunResult(trace, outcome) == AsyncRun(beforeStartEvents, afterStopEvents, raises, ending)
      ensures State() == StateAfterAsyncRun(old(State()),
        RunPhase(beforeStartEvents, BeforePhase, true, raises).failed.Some?, ending)
    {
      trace := [HandlerInstalled];
      var events, failed := RunHooks(beforeStartEvents, BeforePhase, true, raises);
      trace := trace + events;
      if failed.Some? {
        outcome := Raised(HookFault(failed.value));
        return;
      }
      stopEvent := Unset;
      globalTask := Pending;
      var steps := WaitForStop(ending);
      trace := trace + [EventCreated, TaskScheduled, WaitStarted] + steps;
      assert trace == [HandlerInstalled] + events + Middle(ending);
      var afterEvents, afterFailed := RunHooks(afterStopEvents, AfterPhase, true, raises);
      trace := trace + afterEvents;
      if afterFailed.Some? {
        outcome := Raised(HookFault(afterFailed.value));
      } else if ending == WaitCancelled {
        outcome := Raised(WaitCancelledFault);
      } else {
        outcome := Completed;
      }
    }
  }

  /** Once an asynchronous run has got past its before hooks and its wait
      has ended, the event stays set, so any later interrupt in the process
      takes the exit branch. */
  lemma InterruptAfterAsyncRunExits(s: SignalState, ending: Ending)
    requires ending != WaitCancelled
    ensures OnInterrupt(StateAfterAsyncRun(s, false, ending)).reaction == Exit(1)
  {
  }

  /** An interrupt that arrives during the before hooks of the first
      asynchronous run (the handler is installed, the event not yet created,
      so the globals are as at import time) makes the handler raise, since it
      reads `stop_event.is_set()` before testing the event for `None`. */
  method InterruptBeforeFirstRun() returns (reaction: Reaction)
    ensures reaction == AttributeError
  {
    var r := new Runner();
    reaction := r.SigintHandler();
  }
}
