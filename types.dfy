/** Vocabulary shared by the whole model of the `retry` tool: the outcome of
    one command run, the opaque collaborators, the run configuration, and the
    trace of observable effects (spawn requests, diagnostic lines, delays)
    that the steps produce instead of performing I/O. */
module Types {

  datatype Option<T> = None | Some(value: T)

  /** A process exit code, the platform's signed 32-bit integer. */
  newtype ExitCode = x: int | -0x8000_0000 <= x < 0x8000_0000

  /** `Result<Exit>`: the command ran and exited with `code`, or an error
      (the command was not found or could not be started, or it ended
      without an exit code) carrying its message. */
  datatype ExecResult = Ok(code: ExitCode) | Err(message: string)

  /** Exit code 0 is the only success signal. */
  predicate IsSuccess(r: ExecResult) {
    r.Ok? && r.code == 0
  }

  /** The shared `Arc<dyn PipedCmdExecutor>` handle, known only by identity:
      the model never looks inside it, it only passes it along. */
  datatype Executor = Executor(id: nat)

  /** The `f64` waiting interval, kept as its bit pattern and never
      interpreted: the model only copies it. */
  datatype Seconds = Seconds(bits: bv64)

  /** The run configuration: the full command line, the optional maximum
      number of executions (`usize`), and the interval between attempts. */
  datatype Config = Config(command: string, count: Option<nat>, interval: Seconds)

  /** One observable effect of a step: a request to the executor to run a
      command line, a line written to standard error, or a timed delay. */
  datatype Effect =
    | Spawn(executor: Executor, command: string)
    | Diagnostic(line: string)
    | Delay(sec: Seconds)

  /** What a step produces: its effects, in order, and its value. */
  datatype Output<T> = Output(effects: seq<Effect>, value: T)

  /** Number of command executions requested in a trace. */
  function Spawns(trace: seq<Effect>): nat {
    if trace == [] then 0 else (if trace[0].Spawn? then 1 else 0) + Spawns(trace[1..])
  }

  /** Number of delays in a trace. */
  function Delays(trace: seq<Effect>): nat {
    if trace == [] then 0 else (if trace[0].Delay? then 1 else 0) + Delays(trace[1..])
  }

  /** The diagnostic lines of a trace, in order. */
  function Diagnostics(trace: seq<Effect>): seq<string> {
    if trace == [] then []
    else (if trace[0].Diagnostic? then [trace[0].line] else []) + Diagnostics(trace[1..])
  }

  /** What `eprintln!` puts on standard error for a sequence of lines. */
  function Stderr(lines: seq<string>): string {
    if lines == [] then "" else lines[0] + "\n" + Stderr(lines[1..])
  }

  /** The counts and the diagnostics of a trace are those of its parts. */
  lemma {:induction false} TraceAppend(a: seq<Effect>, b: seq<Effect>)
    ensures Spawns(a + b) == Spawns(a) + Spawns(b)
    ensures Delays(a + b) == Delays(a) + Delays(b)
    ensures Diagnostics(a + b) == Diagnostics(a) + Diagnostics(b)
  {
    if a == [] {
      assert a + b == b;
    } else {
      assert (a + b)[0] == a[0];
      assert (a + b)[1..] == a[1..] + b;
      TraceAppend(a[1..], b);
    }
  }

  /** `n` copies of the same line. */
  function Repeat(line: string, n: nat): (r: seq<string>)
    ensures |r| == n && forall i :: 0 <= i < n ==> r[i] == line
  {
    if n == 0 then [] else [line] + Repeat(line, n - 1)
  }
}
