/** The SIGINT handler of the asynchronous run (`sigint_handler`) as a
    transition on the process-wide pair (`stop_event`, `global_task`). */
module Signals {

  /** `stop_event`: still `None` (no asynchronous run has created it), an
      `asyncio.Event` not yet set, or one that is set. */
  datatype StopEvent = NoEvent | Unset | Set

  /** `global_task`: `None`, a running task, one asked to cancel, or a
      finished one. */
  datatype TaskState = NoTask | Pending | CancelRequested | Finished

  datatype SignalState = SignalState(stopEvent: StopEvent, task: TaskState)

  /** What the handler does: return normally, leave through `sys.exit`, or
      fail on `None.is_set()` with an `AttributeError`. */
  datatype Reaction = Handled | Exit(status: int) | AttributeError

  datatype Transition = Transition(state: SignalState, reaction: Reaction)

  /** `Task.cancel()`: a running task is asked to stop; a task already asked,
      or already finished, is left as it is. */
  function Cancel(t: TaskState): TaskState
  {
    if t == Pending then CancelRequested else t
  }

  /** One interrupt.  `stop_event.is_set()` is evaluated before the event is
      checked for `None`, so with no event the handler raises and changes
      nothing.  A set event means a second interrupt: exit with status 1.
      Otherwise the event is set (an `asyncio.Event` object is always true,
      so the guard on it always passes) and the main task, if there is one, is
      cancelled. */
  function OnInterrupt(s: SignalState): (r: Transition)
    ensures r.reaction == Handled <==> s.stopEvent == Unset
    ensures r.reaction != Handled ==> r.state == s
    ensures r.reaction == Handled ==> r.state.stopEvent == Set && r.state.task != Pending
  {
    match s.stopEvent
    case NoEvent => Transition(s, AttributeError)
    case Set => Transition(s, Exit(1))
    case Unset =>
      Transition(SignalState(Set, if s.task == NoTask then NoTask else Cancel(s.task)), Handled)
  }

  /** What the handler does in each state: exit with status 1 and change
      nothing when the event is set; set the event and cancel a running task
      when it is not; raise and change nothing when there is no event. */
  lemma OnInterruptCases(s: SignalState)
    ensures s.stopEvent == Set ==> OnInterrupt(s) == Transition(s, Exit(1))
    ensures s.stopEvent == Unset ==>
      OnInterrupt(s).reaction == Handled && OnInterrupt(s).state.stopEvent == Set &&
      (s.task == Pending ==> OnInterrupt(s).state.task == CancelRequested) &&
      (s.task != Pending ==> OnInterrupt(s).state.task == s.task)
    ensures s.stopEvent == NoEvent ==> OnInterrupt(s) == Transition(s, AttributeError)
  {
  }

  /** The handler never clears the event. */
  lemma OnInterruptNeverClears(s: SignalState)
    requires s.stopEvent != NoEvent
    ensures OnInterrupt(s).state.stopEvent == Set
  {
  }

  /** The reactions to `n` interrupts in a row, starting in state `s`. */
  function Interrupts(s: SignalState, n: nat): (r: seq<Reaction>)
    ensures |r| == n
    decreases n
  {
    if n == 0 then []
    else
      var t := OnInterrupt(s);
      [t.reaction] + Interrupts(t.state, n - 1)
  }

  lemma {:induction false} InterruptsAfterSetExit(s: SignalState, n: nat)
    requires s.stopEvent == Set
    ensures forall i :: 0 <= i < n ==> Interrupts(s, n)[i] == Exit(1)
    decreases n
  {
    if n > 0 {
      InterruptsAfterSetExit(s, n - 1);
      assert Interrupts(s, n) == [Exit(1)] + Interrupts(s, n - 1);
    }
  }

  /** During a run (the event exists and is not set), the first interrupt is
      handled gracefully and every later one takes the exit branch. */
  lemma {:induction false} SecondInterruptExits(s: SignalState, n: nat)
    requires s.stopEvent == Unset && n > 0
    ensures Interrupts(s, n)[0] == Handled
    ensures forall i :: 1 <= i < n ==> Interrupts(s, n)[i] == Exit(1)
  {
    var t := OnInterrupt(s);
    InterruptsAfterSetExit(t.state, n - 1);
    assert Interrupts(s, n) == [Handled] + Interrupts(t.state, n - 1);
  }
}
