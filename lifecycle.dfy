/** What a run of a loaded module looks like from outside: the trace of
    hook invocations and entry-point steps that `run` and `aio_run` produce,
    and how the run ends.  Calling the module's code is not modelled: whether
    a hook or the entry point raises is given as a parameter. */
module Lifecycle {

  datatype Option<T> = None | Some(value: T)

  /** A registered lifecycle hook; `isCoroutine` is what
      `asyncio.iscoroutinefunction` reports for it. */
  datatype Hook = Hook(name: string, isCoroutine: bool)

  datatype Phase = BeforePhase | AfterPhase

  /** How a hook is driven: a plain call, `asyncio.run` on a fresh event loop
      (coroutine hooks in `run`), or `await` (coroutine hooks in `aio_run`). */
  datatype Driver = Called | OwnLoop | Awaited

  datatype StopSetter = ByMainTask | ByHandler

  datatype Event =
    | HookRan(phase: Phase, hook: Hook, driver: Driver)
    | MainCalled            // `module.main(*argv)` in `run`
    | HandlerInstalled      // `signal.signal(signal.SIGINT, sigint_handler)`
    | EventCreated          // `stop_event = asyncio.Event()`
    | TaskScheduled         // `global_task = asyncio.create_task(main_task())`
    | WaitStarted           // `await stop_event.wait()` suspends
    | MainAwaited           // `await module.main(*argv)` in `main_task` runs to its end
    | StopEventSet(setter: StopSetter)
    | TaskCancelRequested   // `global_task.cancel()` from the interrupt handler
    | WaitEnded             // the wait returns because the event is set
    | WaitAborted           // the wait is itself cancelled

  /** What an exception that leaves a run came from. */
  datatype Fault = HookFault(hook: Hook) | MainFault | WaitCancelledFault

  datatype Outcome = Completed | Raised(fault: Fault)

  /** How the asynchronous run's wait comes to an end. */
  datatype Ending =
    | MainReturns     // main returns; `main_task`'s `finally` sets the event
    | MainRaises      // main raises; the same `finally` sets the event
    | Interrupted     // a first SIGINT sets the event and cancels the main task
    | WaitCancelled   // the supervising wait is cancelled

  /** One phase of hook invocations: the events produced and the hook that
      raised, if one did. */
  datatype PhaseRun = PhaseRun(events: seq<Event>, failed: Option<Hook>)

  datatype RunResult = RunResult(trace: seq<Event>, outcome: Outcome)

  function DriverOf(h: Hook, inLoop: bool): Driver
  {
    if !h.isCoroutine then Called else if inLoop then Awaited else OwnLoop
  }

  function Invocation(phase: Phase, h: Hook, inLoop: bool): Event
  {
    HookRan(phase, h, DriverOf(h, inLoop))
  }

  /** The events of invoking every hook of `hooks`, in order. */
  function Invocations(hooks: seq<Hook>, phase: Phase, inLoop: bool): (r: seq<Event>)
    ensures |r| == |hooks|
  {
    seq(|hooks|, i requires 0 <= i < |hooks| => Invocation(phase, hooks[i], inLoop))
  }

  /** The loop `for evt in hooks: evt(module)`: the hooks run one after the
      other in registration order, and the first one that raises aborts
      the rest of the phase. */
  function RunPhase(hooks: seq<Hook>, phase: Phase, inLoop: bool, raises: Hook -> bool): (r: PhaseRun)
    ensures |r.events| <= |hooks|
    ensures r.events == Invocations(hooks[..|r.events|], phase, inLoop)
    ensures r.failed.None? ==> |r.events| == |hooks|
    ensures r.failed.Some? ==>
      |r.events| > 0 && r.failed.value == hooks[|r.events| - 1] && raises(r.failed.value)
    ensures forall i :: 0 <= i < |r.events| && (r.failed.None? || i < |r.events| - 1) ==>
      !raises(hooks[i])
    decreases |hooks|
  {
    if hooks == [] then PhaseRun([], None)
    else
      var e := Invocation(phase, hooks[0], inLoop);
      if raises(hooks[0]) then
        assert hooks[..1] == [hooks[0]];
        PhaseRun([e], Some(hooks[0]))
      else
        var rest := RunPhase(hooks[1..], phase, inLoop, raises);
        assert hooks[..|rest.events| + 1] == [hooks[0]] + hooks[1..][..|rest.events|];
        PhaseRun([e] + rest.events, rest.failed)
  }

  /** A phase in which no hook raises invokes every hook. */
  lemma RunPhaseNoneRaise(hooks: seq<Hook>, phase: Phase, inLoop: bool, raises: Hook -> bool)
    requires forall i :: 0 <= i < |hooks| ==> !raises(hooks[i])
    ensures RunPhase(hooks, phase, inLoop, raises) == PhaseRun(Invocations(hooks, phase, inLoop), None)
  {
    var r := RunPhase(hooks, phase, inLoop, raises);
    assert r.failed.None? && hooks[..|r.events|] == hooks;
  }

  /** A phase stops at the first hook that raises, after invoking it. */
  lemma RunPhaseFirstRaise(hooks: seq<Hook>, phase: Phase, inLoop: bool, raises: Hook -> bool, k: nat)
    requires k < |hooks| && raises(hooks[k])
    requires forall i :: 0 <= i < k ==> !raises(hooks[i])
    ensures RunPhase(hooks, phase, inLoop, raises) ==
      PhaseRun(Invocations(hooks[..k + 1], phase, inLoop), Some(hooks[k]))
  {
    var r := RunPhase(hooks, phase, inLoop, raises);
    assert |r.events| == k + 1;
  }

  /** No hook of `hooks` raises. */
  predicate NoneRaise(hooks: seq<Hook>, raises: Hook -> bool)
  {
    forall i :: 0 <= i < |hooks| ==> !raises(hooks[i])
  }

  /** A phase fails exactly when one of its hooks raises, and its events are
      hook invocations only. */
  lemma PhaseFailsIffRaise(hooks: seq<Hook>, phase: Phase, inLoop: bool, raises: Hook -> bool)
    ensures var r := RunPhase(hooks, phase, inLoop, raises);
      (r.failed.None? <==> NoneRaise(hooks, raises)) &&
      forall e :: e in r.events ==> e.HookRan?
  {
    var r := RunPhase(hooks, phase, inLoop, raises);
    if r.failed.Some? {
      assert raises(hooks[|r.events| - 1]);
    }
  }

  /** `run(module, *argv)`: the before hooks, then `module.main`, then in a
      `finally` the after hooks.  An exception from an after hook replaces
      the one from `main`, as an exception raised in a Python `finally` does. */
  function SyncRun(before: seq<Hook>, after: seq<Hook>, raises: Hook -> bool, mainRaises: bool): (r: RunResult)
    ensures MainCalled in r.trace <==> NoneRaise(before, raises)
    ensures r.outcome == Completed <==>
      NoneRaise(before, raises) && !mainRaises && NoneRaise(after, raises)
  {
    var b := RunPhase(before, BeforePhase, false, raises);
    PhaseFailsIffRaise(before, BeforePhase, false, raises);
    if b.failed.Some? then RunResult(b.events, Raised(HookFault(b.failed.value)))
    else
      var a := RunPhase(after, AfterPhase, false, raises);
      PhaseFailsIffRaise(after, AfterPhase, false, raises);
      RunResult(b.events + [MainCalled] + a.events,
                if a.failed.Some? then Raised(HookFault(a.failed.value))
                else if mainRaises then Raised(MainFault)
                else Completed)
  }

  /** The steps of `aio_run` between the before hooks and the after hooks,
      for each way the wait can end.  `MainAwaited` marks `main` running to
      its end (returning or raising); on an interrupt `main` may have started,
      but it is cut short by the cancellation, so the event is absent. */
  function Middle(ending: Ending): (r: seq<Event>)
    ensures |r| >= 4 && r[..3] == [EventCreated, TaskScheduled, WaitStarted]
    ensures r[|r| - 1] == if ending == WaitCancelled then WaitAborted else WaitEnded
  {
    [EventCreated, TaskScheduled, WaitStarted] +
    match ending
    case MainReturns => [MainAwaited, StopEventSet(ByMainTask), WaitEnded]
    case MainRaises => [MainAwaited, StopEventSet(ByMainTask), WaitEnded]
    case Interrupted => [StopEventSet(ByHandler), TaskCancelRequested, WaitEnded]
    case WaitCancelled => [WaitAborted]
  }

  /** `main` runs to its end exactly when the wait ends through
      `main_task`; the handler sets the event and cancels the main task
      exactly on an interrupt. */
  lemma MiddleSteps(ending: Ending)
    ensures MainAwaited in Middle(ending) <==> ending == MainReturns || ending == MainRaises
    ensures TaskCancelRequested in Middle(ending) <==> ending == Interrupted
    ensures StopEventSet(ByHandler) in Middle(ending) <==> ending == Interrupted
  {
    var m := Middle(ending);
    if ending == WaitCancelled {
      assert m == [EventCreated, TaskScheduled, WaitStarted, WaitAborted];
    } else if ending == Interrupted {
      assert m == [EventCreated, TaskScheduled, WaitStarted, StopEventSet(ByHandler), TaskCancelRequested, WaitEnded];
    } else {
      assert m == [EventCreated, TaskScheduled, WaitStarted, MainAwaited, StopEventSet(ByMainTask), WaitEnded];
    }
  }

  /** `aio_run(module, *argv)`: install the interrupt handler, await the
      before hooks, create the stop event, schedule `main_task` and wait for
      the event; in the `finally`, await the after hooks.  An exception of
      `main` stays inside the main task: the wait returns normally and the run
      completes.  Only a cancelled wait or a raising hook makes it raise. */
  function AsyncRun(before: seq<Hook>, after: seq<Hook>, raises: Hook -> bool, ending: Ending): (r: RunResult)
    ensures TaskScheduled in r.trace <==> NoneRaise(before, raises)
    ensures r.outcome == Completed <==>
      NoneRaise(before, raises) && ending != WaitCancelled && NoneRaise(after, raises)
  {
    var b := RunPhase(before, BeforePhase, true, raises);
    PhaseFailsIffRaise(before, BeforePhase, true, raises);
    if b.failed.Some? then RunResult([HandlerInstalled] + b.events, Raised(HookFault(b.failed.value)))
    else
      var a := RunPhase(after, AfterPhase, true, raises);
      PhaseFailsIffRaise(after, AfterPhase, true, raises);
      RunResult([HandlerInstalled] + b.events + Middle(ending) + a.events,
                if a.failed.Some? then Raised(HookFault(a.failed.value))
                else if ending == WaitCancelled then Raised(WaitCancelledFault)
                else Completed)
  }

  /** The position of an event in the life of a run. */
  function Stage(e: Event): nat
  {
    match e
    case HandlerInstalled => 0
    case HookRan(phase, _, _) => if phase == BeforePhase then 1 else 7
    case EventCreated => 2
    case TaskScheduled => 3
    case WaitStarted => 4
    case MainCalled => 5
    case MainAwaited => 5
    case StopEventSet(_) => 5
    case TaskCancelRequested => 5
    case WaitEnded => 6
    case WaitAborted => 6
  }

  /** Events of a trace never go back to an earlier stage. */
  predicate Staged(t: seq<Event>)
  {
    forall i, j :: 0 <= i < j < |t| ==> Stage(t[i]) <= Stage(t[j])
  }

  predicate AtMost(t: seq<Event>, k: nat)
  {
    forall i :: 0 <= i < |t| ==> Stage(t[i]) <= k
  }

  predicate AtLeast(t: seq<Event>, k: nat)
  {
    forall i :: 0 <= i < |t| ==> k <= Stage(t[i])
  }

  /** Two staged traces, the first ending no later than stage `k` and the
      second starting no earlier, make a staged trace. */
  lemma StagedConcat(a: seq<Event>, b: seq<Event>, k: nat)
    requires Staged(a) && Staged(b) && AtMost(a, k) && AtLeast(b, k)
    ensures Staged(a + b)
  {
    var t := a + b;
    forall i, j | 0 <= i < j < |t| ensures Stage(t[i]) <= Stage(t[j]) {
      if j < |a| {
        assert t[i] == a[i] && t[j] == a[j];
      } else if i >= |a| {
        assert t[i] == b[i - |a|] && t[j] == b[j - |a|];
      } else {
        assert t[i] == a[i] && t[j] == b[j - |a|];
      }
    }
  }

  lemma AtMostConcat(a: seq<Event>, b: seq<Event>, k: nat)
    requires AtMost(a, k) && AtMost(b, k)
    ensures AtMost(a + b, k)
  {
    forall i | 0 <= i < |a + b| ensures Stage((a + b)[i]) <= k {
      if i >= |a| {
        assert (a + b)[i] == b[i - |a|];
      }
    }
  }

  /** The steps between the hook phases lie between stages 2 and 6, in
      order. */
  lemma MiddleStaged(ending: Ending)
    ensures Staged(Middle(ending)) && AtLeast(Middle(ending), 2) && AtMost(Middle(ending), 6)
  {
    var m := Middle(ending);
    assert Stage(m[0]) == 2 && Stage(m[1]) == 3 && Stage(m[2]) == 4;
    if ending == WaitCancelled {
      assert |m| == 4 && Stage(m[3]) == 6;
    } else {
      assert |m| == 6 && Stage(m[3]) == 5 && Stage(m[4]) == 5 && Stage(m[5]) == 6;
    }
  }

  /** Every event of a phase run has that phase's stage. */
  lemma PhaseEventsAtStage(hooks: seq<Hook>, phase: Phase, inLoop: bool, raises: Hook -> bool)
    ensures var r := RunPhase(hooks, phase, inLoop, raises);
      forall i :: 0 <= i < |r.events| ==>
        r.events[i].HookRan? && r.events[i].phase == phase &&
        Stage(r.events[i]) == if phase == BeforePhase then 1 else 7
  {
  }

  lemma PhaseStaged(hooks: seq<Hook>, phase: Phase, inLoop: bool, raises: Hook -> bool)
    ensures var e := RunPhase(hooks, phase, inLoop, raises).events;
      Staged(e) && AtLeast(e, if phase == BeforePhase then 1 else 7) &&
      AtMost(e, if phase == BeforePhase then 1 else 7)
  {
    PhaseEventsAtStage(hooks, phase, inLoop, raises);
  }

  /** In `run`, every before hook precedes `main`, and `main` precedes every
      after hook, whatever raises. */
  lemma SyncRunStaged(before: seq<Hook>, after: seq<Hook>, raises: Hook -> bool, mainRaises: bool)
    ensures Staged(SyncRun(before, after, raises, mainRaises).trace)
  {
    var b := RunPhase(before, BeforePhase, false, raises);
    PhaseStaged(before, BeforePhase, false, raises);
    if b.failed.None? {
      var a := RunPhase(after, AfterPhase, false, raises);
      PhaseStaged(after, AfterPhase, false, raises);
      StagedConcat(b.events, [MainCalled], 1);
      AtMostConcat(b.events, [MainCalled], 5);
      StagedConcat(b.events + [MainCalled], a.events, 5);
    }
  }

  /** With no hook raising, `run` invokes every before hook in registration
      order, then `main`, then every after hook in registration order, and
      raises only if `main` does. */
  lemma SyncRunAllHooks(before: seq<Hook>, after: seq<Hook>, raises: Hook -> bool, mainRaises: bool)
    requires forall i :: 0 <= i < |before| ==> !raises(before[i])
    requires forall i :: 0 <= i < |after| ==> !raises(after[i])
    ensures SyncRun(before, after, raises, mainRaises) ==
      RunResult(Invocations(before, BeforePhase, false) + [MainCalled] + Invocations(after, AfterPhase, false),
                if mainRaises then Raised(MainFault) else Completed)
  {
    RunPhaseNoneRaise(before, BeforePhase, false, raises);
    RunPhaseNoneRaise(after, AfterPhase, false, raises);
  }

  /** When `main` raises, the after hooks still run (up to the first one
      that raises), and the run still raises. */
  lemma SyncRunMainRaises(before: seq<Hook>, after: seq<Hook>, raises: Hook -> bool)
    requires forall i :: 0 <= i < |before| ==> !raises(before[i])
    ensures var r := SyncRun(before, after, raises, true);
      r.trace == Invocations(before, BeforePhase, false) + [MainCalled] +
                 RunPhase(after, AfterPhase, false, raises).events &&
      r.outcome.Raised?
  {
    RunPhaseNoneRaise(before, BeforePhase, false, raises);
  }

  /** When before hook `k` is the first to raise, `run` stops there: the
      trace is the invocations of hooks `0..k`, neither `main` nor any after
      hook runs, and the exception of hook `k` propagates. */
  lemma SyncRunBeforeRaises(before: seq<Hook>, after: seq<Hook>, raises: Hook -> bool, mainRaises: bool, k: nat)
    requires k < |before| && raises(before[k])
    requires forall i :: 0 <= i < k ==> !raises(before[i])
    ensures SyncRun(before, after, raises, mainRaises) ==
      RunResult(Invocations(before[..k + 1], BeforePhase, false), Raised(HookFault(before[k])))
    ensures MainCalled !in SyncRun(before, after, raises, mainRaises).trace
  {
    RunPhaseFirstRaise(before, BeforePhase, false, raises, k);
    PhaseEventsAtStage(before, BeforePhase, false, raises);
  }

  /** In `aio_run`, the handler is installed first, every before hook is
      done before the event is created and the main task scheduled, and the after
      hooks come only after the wait has ended. */
  lemma AsyncRunStaged(before: seq<Hook>, after: seq<Hook>, raises: Hook -> bool, ending: Ending)
    ensures Staged(AsyncRun(before, after, raises, ending).trace)
  {
    var b := RunPhase(before, BeforePhase, true, raises);
    PhaseStaged(before, BeforePhase, true, raises);
    StagedConcat([HandlerInstalled], b.events, 0);
    if b.failed.None? {
      var a := RunPhase(after, AfterPhase, true, raises);
      PhaseStaged(after, AfterPhase, true, raises);
      var m := Middle(ending);
      MiddleStaged(ending);
      var head := [HandlerInstalled] + b.events;
      AtMostConcat([HandlerInstalled], b.events, 1);
      StagedConcat(head, m, 2);
      AtMostConcat(head, m, 6);
      StagedConcat(head + m, a.events, 6);
    }
  }

  /** Once the before hooks succeed, `aio_run` reaches its after hooks on
      every ending, in registration order; it completes normally even when
      `main` raised (the exception stays in the main task) and raises only for a
      cancelled wait or a raising after hook. */
  lemma AsyncRunAfterHooksAlways(before: seq<Hook>, after: seq<Hook>, raises: Hook -> bool, ending: Ending)
    requires forall i :: 0 <= i < |before| ==> !raises(before[i])
    ensures var r := AsyncRun(before, after, raises, ending);
      r.trace == [HandlerInstalled] + Invocations(before, BeforePhase, true) + Middle(ending) +
                 RunPhase(after, AfterPhase, true, raises).events
  {
    RunPhaseNoneRaise(before, BeforePhase, true, raises);
  }

  /** With no hook raising, `aio_run` runs every before hook, the main task and
      every after hook, and completes unless its wait was cancelled. */
  lemma AsyncRunAllHooks(before: seq<Hook>, after: seq<Hook>, raises: Hook -> bool, ending: Ending)
    requires forall i :: 0 <= i < |before| ==> !raises(before[i])
    requires forall i :: 0 <= i < |after| ==> !raises(after[i])
    ensures AsyncRun(before, after, raises, ending) ==
      RunResult([HandlerInstalled] + Invocations(before, BeforePhase, true) + Middle(ending) +
                Invocations(after, AfterPhase, true),
                if ending == WaitCancelled then Raised(WaitCancelledFault) else Completed)
  {
    RunPhaseNoneRaise(before, BeforePhase, true, raises);
    RunPhaseNoneRaise(after, AfterPhase, true, raises);
  }

  /** A before hook that raises in `aio_run` ends the run before the event
      exists: no task is scheduled and no after hook runs. */
  lemma AsyncRunBeforeRaises(before: seq<Hook>, after: seq<Hook>, raises: Hook -> bool, ending: Ending, k: nat)
    requires k < |before| && raises(before[k])
    requires forall i :: 0 <= i < k ==> !raises(before[i])
    ensures AsyncRun(before, after, raises, ending) ==
      RunResult([HandlerInstalled] + Invocations(before[..k + 1], BeforePhase, true), Raised(HookFault(before[k])))
    ensures TaskScheduled !in AsyncRun(before, after, raises, ending).trace
  {
    RunPhaseFirstRaise(before, BeforePhase, true, raises, k);
    PhaseEventsAtStage(before, BeforePhase, true, raises);
  }
}
