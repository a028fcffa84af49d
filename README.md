# python-runner launcher, modelled in Dafny

A verified model of the module launcher in `runner/__init__.py`. Given a
module name, the launcher loads the module and runs its `main`, directly or
as an asyncio task. It invokes the registered before-start and after-stop
hooks around the run, handles SIGINT during an asynchronous run, and can
start the module as several replica processes.

The model has five modules:

- `ArgvSplit` (`argv_split.dfy`): `split_argv`. `Split` is a reference
  definition that reads the tokens front to back. `SplitArgv` is the
  source's loop: it pops tokens from a reversed copy and flips the
  `is_module_argv` flag, and it is proved equal to `Split`. `Split` is then
  characterised without recursion. Complete launcher options (a flag with
  `=`, or a flag followed by its value token) come first, then the module
  name, and the module part comes after. This shape holds for every split,
  and only the split has it.
- `ModuleName` (`module_name.dfy`): `fixed_module_name`. The
  `os.path.isfile` test is passed in as a boolean parameter.
- `Lifecycle` (`lifecycle.dfy`): the traces of `run` and `aio_run` as
  functions. They cover the hook phases in registration order, `main` and
  the main task steps, the `finally` blocks, and how each run ends. The lemmas
  prove the ordering: before hooks, then the entry point, then after hooks.
  They also prove the error paths.
- `Signals` (`signals.dfy`): `sigint_handler` as a transition on the pair
  (`stop_event`, `global_task`).
- `Runner` (`runner.dfy`): a class whose fields are the module's globals
  `before_start_events`, `after_stop_events`, `stop_event` and
  `global_task`. Each method changes the state the way the source function
  does. Each method is proved against the functions above. `AioRun` runs
  the real interrupt handler in its `Interrupted` case.
- `Replicas` (`replicas.dfy`): the `start` calls that `main` makes for a
  given `processes` option.

Notes on what the code does:

- `split_argv` keeps the module name as the LAST element of `script_argv`.
  `main` then reads it as the positional `module_name` out of `script_argv`
  (runner/__init__.py:159-164). So `["-p", "3", "mymodule", "a", "b"]`
  splits into `["-p", "3", "mymodule"]` and `["a", "b"]`, and
  `["mymodule"]` splits into `["mymodule"]` and `[]`. See
  `ArgvSplit.SplitExamples`.
- In `aio_run`, an exception from `main` stays inside the main task. The
  wait returns, the after hooks run, and the run completes normally. The
  exception is not raised again.
- A replica sees only its `PROCESS_ID`, not the replica count.
- The handler reads `stop_event.is_set()` before it checks `stop_event`.
  So an interrupt that arrives while `stop_event` is still `None` raises
  `AttributeError`. That is the case during the before hooks of the first
  asynchronous run, after the handler is installed. The `if stop_event:`
  guard always passes for an event object.

Whether a hook or `main` raises, and how an asynchronous wait ends, are
parameters (`raises`, `mainRaises`, `ending`). The model does not call the
module's code.

## Model

| member | source | states |
|---|---|---|
| `ArgvSplit.Split` | runner/__init__.py:129-145 | The reference split, read front to back. The first token always stays with the launcher, and the module part starts only after a token that is not a flag. |
| `ArgvSplit.SplitArgv` | runner/__init__.py:121-147 | The pop loop over a reversed private copy of the input returns exactly the reference split `Split(argv)`. The caller's sequence is a value and is never changed. |
| `ArgvSplit.ScanIsSplit` | runner/__init__.py:129-147 | Running the loop step by step from the launcher phase over any remaining tokens appends exactly their reference split. |
| `ArgvSplit.SplitConcat` | runner/__init__.py:126-147 | `script_argv ++ module_argv` is the input, exactly and in order. |
| `ArgvSplit.SplitHasShape` | runner/__init__.py:135-145 | Every split is complete options, then the module name with any module part after it. Otherwise the module part is empty and the launcher part is complete options, possibly ending with one flag that has no value. |
| `ArgvSplit.ShapeIsSplit` | runner/__init__.py:135-145 | A decomposition `s ++ m == args` with that shape is the split. The shape fixes the split uniquely. |
| `ArgvSplit.SplitCharacterized` | runner/__init__.py:129-147 | `(s, m)` is the split of `args` if and only if `s ++ m == args` and `(s, m)` has the split shape. |
| `ArgvSplit.ModuleArgvFollowsName` | runner/__init__.py:135-145 | A non-empty module part means the last launcher token is the module name: it is not a flag and only complete options come before it. |
| `ArgvSplit.AllOptionsNoModule` | runner/__init__.py:139-145 | When every token is a flag, the module part is empty and the whole input is launcher options. A trailing flag without `=` takes nothing. |
| `ArgvSplit.OptionValueTaken` | runner/__init__.py:139-142 | A flag without `=` takes the next token as its value whatever that token is, and the phase does not end there. A flag with `=` takes nothing extra. |
| `ArgvSplit.SplitExamples` | runner/__init__.py:121-147 | Concrete splits of the code as written, with the module name kept in `script_argv`. |
| `ModuleName.StripPySuffix` | runner/__init__.py:33-34 | A trailing `.py` is cut exactly when the name ends with it, and then exactly once: the result with `.py` appended is the input. Otherwise the name is kept. |
| `ModuleName.StripDotSlash` | runner/__init__.py:36-37 | A leading `./` is cut exactly when the name starts with it, and then exactly once: `./` before the result is the input. Otherwise the name is kept. |
| `ModuleName.ReplaceSlashes` | runner/__init__.py:39 | The result has the same length, every `/` becomes `.`, every other character is kept, and no `/` remains. |
| `ModuleName.FixedModuleName` | runner/__init__.py:31-41 | When the name is not a file, it comes back unchanged. Otherwise the result contains no `/` and is, position by position, the path part with `/` read as `.`. |
| `ModuleName.FixedModuleNameDecomposes` | runner/__init__.py:33-37 | The input is the path part between a prefix and a suffix. The suffix is `.py` exactly when the input ends with `.py`, and the prefix is `./` exactly when the input without that suffix starts with `./`. Both are empty otherwise. |
| `ModuleName.FixedModuleNameRoundTrip` | runner/__init__.py:31-41 | For paths without their own dots, turning `.` back into `/` recovers the path part. |
| `ModuleName.FixedModuleNameExamples` | runner/__init__.py:31-41 | `./a/b.py` names the module `a.b` when it is a file, and is kept as it is when it is not. |
| `ModuleName.FixedModuleNameOfBareSuffix` | runner/__init__.py:33-39 | A file named `.py` gives the empty module name. |
| `Lifecycle.RunPhase` | runner/__init__.py:84-88 | The events are the invocations of a prefix of the hooks, in registration order. Either every hook ran and none raised, or the last one run is the first that raised. |
| `Lifecycle.RunPhaseNoneRaise` | runner/__init__.py:84-88 | A phase in which no hook raises invokes all hooks in order. |
| `Lifecycle.RunPhaseFirstRaise` | runner/__init__.py:84-88 | A phase stops right after the first raising hook and reports that hook. |
| `Lifecycle.PhaseFailsIffRaise` | runner/__init__.py:84-88 | A phase fails exactly when one of its hooks raises, and it produces only hook invocations. |
| `Lifecycle.SyncRun` | runner/__init__.py:83-97 | `main` is called exactly when no before hook raises. The run completes exactly when no before hook, no after hook and not `main` raises. |
| `Lifecycle.Middle` | runner/__init__.py:64-75 | The steps between the phases start with creating the event, scheduling the main task and starting the wait. They end with the wait ending, or with the wait aborted when it is cancelled. |
| `Lifecycle.MiddleSteps` | runner/__init__.py:66-74 | `main` runs to its end exactly when the wait ends through `main_task`. The handler sets the event and cancels the main task exactly on an interrupt. |
| `Lifecycle.AsyncRun` | runner/__init__.py:52-80 | The main task is scheduled exactly when no before hook raises. The run completes exactly when no hook raises and the wait was not cancelled, whether or not `main` raised. |
| `Lifecycle.SyncRunStaged` | runner/__init__.py:83-97 | In `run`, no before hook event comes after `main`, and no after hook event comes before it, whatever raises. |
| `Lifecycle.SyncRunAllHooks` | runner/__init__.py:83-97 | With no hook raising, the trace is all before hooks, then `main`, then all after hooks. The run raises exactly when `main` does. |
| `Lifecycle.SyncRunMainRaises` | runner/__init__.py:90-97 | When `main` raises, the after hooks still run, up to the first that raises, and the run still raises. |
| `Lifecycle.SyncRunBeforeRaises` | runner/__init__.py:84-88 | When before hook `k` is the first to raise, the trace is hooks `0..k`. Neither `main` nor any after hook runs, and hook `k`'s exception propagates. |
| `Lifecycle.AsyncRunStaged` | runner/__init__.py:52-80 | In `aio_run`, events come in this order: the handler is installed, the before hooks run, the event is created, the main task is scheduled, the wait starts, the main task steps run, the wait ends, the after hooks run. |
| `Lifecycle.AsyncRunAfterHooksAlways` | runner/__init__.py:64-80 | Once the before hooks succeed, the after hooks run on every ending: normal return, error, interrupt or cancelled wait. |
| `Lifecycle.AsyncRunAllHooks` | runner/__init__.py:52-80 | With no hook raising, every hook runs in order. The run completes even when `main` raised, and raises only if the wait was cancelled. |
| `Lifecycle.AsyncRunBeforeRaises` | runner/__init__.py:58-64 | A raising before hook ends `aio_run` before the event exists. No task is scheduled and no after hook runs. |
| `Signals.OnInterrupt` | runner/__init__.py:19-28 | The handler returns normally exactly when the event exists and is not set. Then the event is set afterwards and no task is left running. On the other paths (exit or `AttributeError`) nothing changes. |
| `Signals.OnInterruptCases` | runner/__init__.py:19-28 | Event set: exit with status 1, no state change. Event unset: it becomes set and a running task is asked to cancel. No event: `AttributeError`, no state change. |
| `Signals.OnInterruptNeverClears` | runner/__init__.py:21-25 | The handler never clears an existing event. |
| `Signals.SecondInterruptExits` | runner/__init__.py:19-28 | During a run, the first of any number of interrupts is handled and every later one exits with status 1. |
| `Runner.RunHooks` | runner/__init__.py:84-88 | The hook loop returns exactly the phase result `RunPhase`. |
| `Runner.StateAfterAsyncRun` | runner/__init__.py:52-80 | A run whose before hooks fail leaves both globals as they were. Otherwise an event and a task remain: the event is set exactly when the wait ended, and the task is still running exactly when the wait was cancelled. |
| `Runner.Runner.constructor` | runner/__init__.py:12-16 | At import time both hook lists are empty, `stop_event` is `None` and there is no task. |
| `Runner.Runner.BeforeStart` | runner/__init__.py:44-45 | Appends the hook to the end of the before list. No other field changes. |
| `Runner.Runner.AfterStop` | runner/__init__.py:48-49 | Appends the hook to the end of the after list. No other field changes. |
| `Runner.Runner.SigintHandler` | runner/__init__.py:19-28 | The new state and the handler's reaction are the transition `OnInterrupt` of the old state. |
| `Runner.Runner.Run` | runner/__init__.py:83-97 | The trace and the outcome are those of `SyncRun` over the registered hooks. |
| `Runner.Runner.MainTask` | runner/__init__.py:66-70 | After `main` returns or raises, the stop event is set. |
| `Runner.Runner.WaitForStop` | runner/__init__.py:66-74 | From an unset event and a running task, the wait produces the steps of `Middle` after the first three, and leaves the state `StateAfterAsyncRun` gives. On an interrupt it runs the real handler. |
| `Runner.Runner.AioRun` | runner/__init__.py:52-80 | The trace and the outcome are those of `AsyncRun`. The final `stop_event`/`global_task` pair is the one `StateAfterAsyncRun` gives for the ending. |
| `Runner.InterruptAfterAsyncRunExits` | runner/__init__.py:21-22 | The event stays set after an asynchronous run whose wait ended, so a later interrupt exits with status 1. |
| `Runner.InterruptBeforeFirstRun` | runner/__init__.py:15-21 | An interrupt during the before hooks of the first asynchronous run, once the handler is installed and before the event exists, makes the handler raise `AttributeError`. |
| `Replicas.Launches` | runner/__init__.py:166-187 | If `processes > 1`, `start` is called with ids `1..processes` in order. These ids are distinct and cover the whole range. Otherwise `start` is called once in-process with no id. |

## Left out

- `start` (runner/__init__.py:100-118) is not modelled. Its parts are logging, `import_module`, `os.environ['PROCESS_ID']`, replacing the arguments with one `parse_args` result, and the choice between `run` and `aio_run` by `asyncio.iscoroutinefunction`. These are foreign calls and ambient I/O.
- `os.path.isfile` is a file-system query. It is the `isFile` parameter of `FixedModuleName`.
- The argparse configuration and parsing in `main` (runner/__init__.py:152-164) are library code. Only the `processes` value it yields is an input, to `Launches`.
- Process spawning, the `join(10)` polling loop and the `terminate`/`kill` teardown (runner/__init__.py:169-185) are OS process orchestration with timeouts. Only the list of ids is modelled.
- The asyncio event loop, real task scheduling and the delivery of cancellation are concurrency. `aio_run` is modelled as one sequential trace per way its wait can end.
- Runner.Runner.AioRun: on `Interrupted` it leaves the main task in the cancel-requested state. It does not model when the main task's own `finally` runs relative to the after hooks. The source leaves that order to the event loop.
- Runner.Runner.AioRun: it does not model an interrupt that arrives during the before or after hooks. `Signals.OnInterrupt` gives the handler's effect in any state. A second interrupt's `sys.exit(1)` ends the process, so it is a reaction, not a trace.
- Lifecycle.RunPhase: hook and `main` outcomes are fixed per hook by the `raises` parameter. A hook registered in both lists therefore behaves the same in both phases.
- The logging setup and its messages are output only.
