# retry: a verified model of the retry state machine

`retry` runs a command line again and again until it exits with code 0.
`-c N` bounds the number of executions. `-i SEC` sets the pause between two
attempts. This project models the tool's core in Dafny and proves its
behaviour.

The core has three parts:

- **The state machine** (`App`, in `app.dfy`).
  - A phase is either *execute the command* or *sleep*.
  - The machine counts failed attempts and carries an optional limit.
  - `Handle` is one transition. Exit code 0 is `Done(Succeeded)`. Any other
    outcome counts one failure; the run then ends with `Done(Failure)` if
    the limit is reached, or goes to sleep otherwise. A sleep always goes
    back to executing.
  - `Run` is the driver loop, a `while` loop proved equal to the recursive
    `RunSpec`.
- **The step values** (`Components`, in `components.dfy`).
  - The executor step `CmdExecutor`.
  - The not-found decorator `PrintableCmdNotFound`.
  - The waiter `WaitSec`.
  - The `SharedState` envelope, which carries the configuration and the
    executor handle through both phases.
  - The two conversions between the envelopes of the two phases
    (`IntoWait`, `IntoExec`).
- **Two self-contained pieces of the child-process executor**
  (`ChildProcess`, in `child_process.dfy`).
  - `Parse` splits a command line on single spaces into a program and its
    options. It is a method, as in the source, which collects a vector and
    drains it.
  - `PollResult` maps the outcome of waiting for the child to a result.

`types.dfy` (`Types`) holds the shared vocabulary. `scenarios.dfy`
(`Scenarios`) states whole runs from the initial state, matching the
tool's command-line tests.

Nothing is performed; everything observable is a value:

- The executor's report for an execution is an input: `response` for one
  step, and `respond(k)` for the k-th execution of a run.
- What a step does is returned, in order, as a trace of effects:
  - `Spawn(executor, command)`, a request to the executor;
  - `Diagnostic(line)`, a line on standard error;
  - `Delay(sec)`, a pause.
- A run takes at most `fuel` steps. `None` means no verdict within the
  fuel. An unbounded run of a command that never succeeds never reaches a
  verdict (`UnboundedNeverDone`).

Decisions worth knowing:

- A limit of 0 behaves like a limit of 1. The limit is tested on the
  incremented count (`count + 1 >= limit`), so the first failure already
  meets a limit of 0 (`Scenarios.Executions`).
- A command must exit with code 0 to succeed. Any
  other code, a failure to start, and a child without an exit code are all
  failures. Only an error (not a non-zero code) writes the not-found line.
- A command line is split on single spaces (src/exec/child_process.rs:57).
  Consecutive spaces give empty pieces, and a tab or any other whitespace
  character is not a separator.

## Model

| member | source | states |
|---|---|---|
| `ChildProcess.PollResult` | src/exec/child_process.rs:20-25 | a wait that completed with an exit code gives `Ok` of that code; a status without a code and a failed wait both give the same `Err` with the abnormal-termination message |
| `ChildProcess.Split` | src/exec/child_process.rs:57 | splitting on `' '` yields at least one piece, so the `None` branch of the first-element lookup cannot be taken |
| `ChildProcess.JoinSplit` | src/exec/child_process.rs:57-64 | joining the pieces with single spaces gives back exactly the input |
| `ChildProcess.SplitNoSpace` | src/exec/child_process.rs:57 | no piece contains a space |
| `ChildProcess.SplitCount` | src/exec/child_process.rs:57-59 | there is one piece more than there are spaces in the input |
| `ChildProcess.SplitJoin` | src/exec/child_process.rs:57 | splitting inverts joining space-free pieces, empty ones included |
| `ChildProcess.SplitFirst` | src/exec/child_process.rs:57-62 | the first piece is the longest space-free prefix; after it comes a space and the pieces of the rest, or the input has no space and is one piece |
| `ChildProcess.Parse` | src/exec/child_process.rs:56-67 | the program is the first piece of the split command line and the options are all the remaining pieces, in order; the empty input gives `("", [])` |
| `ChildProcess.ParseResult` | src/exec/child_process.rs:57-64 | the program is the text before the first space (all of it without a space), the options are the pieces after that space, one per space; program and options join back to the input, and none contains a space |
| `ChildProcess.ParsePing` | src/exec/child_process.rs:143-147 | `ping 8.8.8.8` splits into the program `ping` and the one option `8.8.8.8` |
| `Components.CmdExecutor.Handle` | src/app/components.rs:15-17 | one request to the executor handle with exactly the step's command line, and the executor's report returned as it is |
| `Components.PrintableCmdNotFound.Handle` | src/app/components.rs:32-41 | the inner step runs once, the result is the inner result unchanged, and the not-found line for the decorator's command follows exactly when that result is an error |
| `Components.NotFoundCounts` | src/app/components.rs:33-38 | the decorated step requests exactly one execution, never waits, and writes one not-found line on an error and none otherwise |
| `Components.HandleExec` | src/app/components.rs:70-72 | the envelope only delegates; the report is returned as it is, and a coherent envelope runs the configured command on its own handle |
| `Components.HandleWait` | src/app/components.rs:70-72 | the envelope only delegates to its waiter; a coherent one waits the configured interval |
| `Components.NewExecStep` | src/app.rs:48-52 | the first envelope keeps the configuration and the handle, and both the decorator and its executor carry the configured command on that handle |
| `Components.IntoWait` | src/app/components.rs:75-85 | configuration and handle are kept, and the wait is the configured interval |
| `Components.IntoExec` | src/app/components.rs:87-101 | configuration and handle are kept, and the decorator's command and the executor's command are both the configured command, on the kept handle |
| `Components.ExecRoundTrip` | src/app/components.rs:75-101 | execute, wait, execute keeps configuration and handle, re-establishes decorator command = executor command = configured command, and gives back the original envelope exactly when it already satisfied that |
| `Components.WaitRoundTrip` | src/app/components.rs:75-101 | wait, execute, wait keeps configuration and handle, and gives back a waiting envelope exactly when it waits the configured interval |
| `App.New` | src/app.rs:41-56 | the initial state executes, has counted nothing, takes the configured limit, carries the configuration and handle, and satisfies the run invariant |
| `App.Handle` | src/app.rs:65-93 | exit code 0 gives `Done(Succeeded)` whatever the count and limit; any other outcome gives `Done(Failure)` when count + 1 reaches the limit and otherwise a sleep with count + 1 built from the same envelope; a sleep goes back to executing with count and limit untouched; the effects are the executing step's, or one delay of the sleep's interval |
| `App.HandleEffects` | src/app.rs:66-91 | an execute step requests exactly one execution and no delay, and writes the not-found line exactly for an error; a sleep step requests only one delay |
| `App.HandleKeeps` | src/app.rs:66-92 | phases strictly alternate, a verdict comes only from executing, the limit never changes, the count never decreases, and configuration and handle are carried into the next phase |
| `App.HandlePreservesValid` | src/app.rs:66-92 | every step preserves the run invariant: coherent steps, a sleep only after a failure, the configured limit, and the count below the limit |
| `App.RunSpecDone` | src/app.rs:96-103 | a step that ends the run gives the run's verdict and its effects |
| `App.RunSpecNext` | src/app.rs:96-103 | a step that does not end the run puts its effects before the rest of the run and leaves the verdict to the rest |
| `App.Run` | src/app.rs:96-103 | the loop's verdict and trace are exactly those of the recursive run definition |
| `App.ExecSucceeds` | src/app.rs:68 | a successful execution ends the run with `Succeeded` after one execution and no sleep |
| `App.ExecFailsAtLimit` | src/app.rs:69-74 | a failure at the limit ends the run with `Failure`, one execution, no sleep, and the not-found line only for an error |
| `App.FailThenSleep` | src/app.rs:69-91 | a failure below the limit and the sleep after it lead back to the same execute step with one more failure counted, after that execution's effects and one delay of the configured interval |
| `App.FailThenSleepCounts` | src/app.rs:69-91 | a failure below the limit and its sleep add one execution, one delay and, for an error, one not-found line to the rest of the run |
| `App.FailingRun` | src/app.rs:70-74 | with a limit, when each execution still allowed fails, the run ends in `Failure` after exactly those executions and one sleep fewer, whatever a later execution would report |
| `App.FailingRunDiagnostics` | src/app/components.rs:35-38 | when each execution still allowed is an error, a bounded run writes the not-found line for the configured command once per execution |
| `App.OneStep` | src/app.rs:96-101 | a step that does not end the run adds its execution or its delay to the counts of the rest, and leaves the verdict to the rest |
| `App.UnboundedNeverDone` | src/app.rs:72-81 | without a limit, when each execution the run makes within its steps fails, the run reaches no verdict, and executions and sleeps alternate, whatever a later execution would report |
| `App.SucceedsOnAttempt` | src/app.rs:66-91 | when execution n is the first to exit with 0 and the limit allows it, the run ends in `Succeeded` after exactly n + 1 executions and n sleeps |
| `App.StepConforms` | src/app.rs:66-91 | every effect of a step from a valid state uses the configured command, handle and interval |
| `App.RunUsesConfig` | src/app/components.rs:75-101 | every execution a run requests is of the configured command on the shared handle, every delay is the configured interval, and every diagnostic names the configured command |
| `App.RunVerdicts` | src/app.rs:66-103 | whatever the executor reports, `Failure` needs a limit, and `Succeeded` means the run made at least one execution and the last one it made exited with 0 |
| `App.AttemptsLeft` | src/app.rs:70-74 | from any state with a limit at least one execution remains, and exactly one once count + 1 reaches the limit |
| `Scenarios.Executions` | src/app.rs:70-73 | a limit allows that many executions, and a limit of 0 still one |
| `Scenarios.ConfiguredFailure` | tests/cli.rs:32-43 | from the initial state with `-c N`, when the N allowed executions all fail, the run fails after exactly N executions and N - 1 sleeps, every effect using the configuration |
| `Scenarios.ConfiguredNotFound` | tests/cli.rs:40-42 | from the initial state with `-c N`, when the N allowed executions are all errors, the not-found line is written N times |
| `Scenarios.LimitBeforeLateSuccess` | src/app.rs:70-74 | with `-c 2`, two failures end the run in `Failure` after two executions and one sleep even when a third execution would exit with 0 |
| `Scenarios.DummyTwice` | tests/cli.rs:32-75 | `retry dummy -c 2` fails, standard error is the not-found line for `dummy` twice, each ending in a newline, and there are two executions and one sleep, of the configured interval |
| `Scenarios.DummyOnce` | src/app.rs:72-74 | `retry dummy -c 1` fails after one execution with one not-found line and no sleep |
| `Scenarios.StderrTwice` | src/app/components.rs:36 | two diagnostic lines on standard error are each followed by a newline |
| `Scenarios.DelayIsInterval` | src/app/components.rs:75-85 | a conforming trace that delays at all sleeps the configured interval |
| `Scenarios.EchoSucceeds` | tests/cli.rs:4-15 | `retry "echo abc" -c 2` whose first execution exits with 0 succeeds after exactly one execution, of `echo abc`, with no sleep; the executor runs the program `echo` with the one option `abc` |

## Left out

- Process spawning and piping are not modelled: `TokioCmdExecutor`'s spawn, the child's stdout and stderr, and the `Stub*` test doubles (src/exec/child_process.rs:29-51, 70-136). They are operating-system and tokio I/O. The executor's report is an input instead.
- `WaitSec`'s timer (src/app/components.rs:52-54) is recorded as a `Delay` effect and not performed. `Components.WaitSec.Handle` therefore has no contract of its own. The `f64` interval is kept as an uninterpreted bit pattern that is only copied, so the panic of `Duration::from_secs_f64` (src/app/components.rs:53) on a negative or non-finite interval is not modelled: the model records a `Delay` for any interval.
- Async/await, `async_trait`, the `Send`/`Sync` bounds and the reference counting of `Arc` are not modelled. The executor handle is an opaque, immutable identity.
- The construction of `TokioPipedCmdExecutor` in `App::new` (src/app.rs:43) is left out. The handle is a parameter of `App.New`.
- Command-line parsing (src/config.rs) and the mapping of the verdict to the process exit code (src/main.rs:39-44) are not modelled. src/main.rs:37 calls `App::new` with three arguments while src/app.rs:42 takes a `Config`; the model follows src/app.rs.
- The generic `App<E, S>` and its `Component` trait dispatch are modelled for the step types the program actually uses. The decorator is modelled around `CmdExecutor` only. The test doubles of src/app.rs:109-143 are covered by the all-inputs contract of `App.Handle`.
- `src/exec/mod.rs`, which defines `Exit` and the executor traits, is not part of this model. An exit is identified with its signed 32-bit exit code.
- App.Run: `run` loops until it gets `Done` and can loop forever. The model bounds it by `fuel` steps and reports `None` when no verdict is reached within them.
- The attempt counter is a `usize` in the source and an unbounded `nat` here. `self.count + 1` (src/app.rs:70) overflows only after `usize::MAX` failed attempts, which is possible only without a limit; that overflow (a panic in debug builds, a wrap-around in release builds) is not modelled.
- The integration tests (tests/cli.rs) expect `.success()` of the failing runs. That exit status conflicts with src/main.rs:39-42 and is not modelled. Their wall-clock timing is modelled only as a count of `Delay` effects.
- The standard output of the child (`abc` in tests/cli.rs:14) is the child's own and is not modelled.
