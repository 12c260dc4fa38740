/** The step values the state machine runs: the command executor, the
    not-found diagnostic decorator around it, the waiter, the envelope that
    carries the configuration and the executor handle through both phases,
    and the two conversions between the envelopes of the two phases. */
module Components {
  import opened Types

  /** The diagnostic for a command that could not be run. */
  function NotFoundLine(command: string): string {
    "retry: command not found '" + command + "'"
  }

  /** Runs one command line on the shared executor. */
  datatype CmdExecutor = CmdExecutor(command: string, executor: Executor) {

    /** One request to the executor, with exactly this executor's command
        line; `response` is what the executor reports and is returned as
        it is. */
    function Handle(response: ExecResult): (r: Output<ExecResult>)
      ensures r.value == response
      ensures r.effects == [Spawn(executor, command)]
    {
      Output([Spawn(executor, command)], response)
    }
  }

  /** Decorates the executor: reports a failure to run `command`. */
  datatype PrintableCmdNotFound = PrintableCmdNotFound(command: string, inner: CmdExecutor) {

    /** Runs the inner step once, then writes one diagnostic line when its
        result is an error; the result is the inner result, unchanged. */
    function Handle(response: ExecResult): (r: Output<ExecResult>)
      ensures r.value == inner.Handle(response).value == response
      ensures r.effects == [Spawn(inner.executor, inner.command)]
                         + (if response.Err? then [Diagnostic(NotFoundLine(command))] else [])
    {
      var result := inner.Handle(response);
      var report := if result.value.Err? then [Diagnostic(NotFoundLine(command))] else [];
      Output(result.effects + report, result.value)
    }
  }

  /** The decorated step executes once, never waits, and writes the
      not-found line exactly when the execution is an error. */
  lemma NotFoundCounts(d: PrintableCmdNotFound, response: ExecResult)
    ensures var effects := d.Handle(response).effects;
      && Spawns(effects) == 1 && Delays(effects) == 0
      && Diagnostics(effects) == if response.Err? then [NotFoundLine(d.command)] else []
  {
    var report := if response.Err? then [Diagnostic(NotFoundLine(d.command))] else [];
    TraceAppend(d.inner.Handle(response).effects, report);
  }

  /** Waits `sec` seconds; waiting is recorded, not performed. */
  datatype WaitSec = WaitSec(sec: Seconds) {

    function Handle(): seq<Effect> {
      [Delay(sec)]
    }
  }

  /** The envelope of a phase: the configuration, the shared executor
      handle and the phase's own step. */
  datatype SharedState<C> = SharedState(config: Config, executor: Executor, inner: C)

  type ExecStep = SharedState<PrintableCmdNotFound>

  type WaitStep = SharedState<WaitSec>

  /** The envelope only delegates to the step it carries. */
  function HandleExec(s: ExecStep, response: ExecResult): (r: Output<ExecResult>)
    ensures r == s.inner.Handle(response)
    ensures r.value == response
    ensures ExecCoherent(s) ==> r.effects[0] == Spawn(s.executor, s.config.command)
  {
    s.inner.Handle(response)
  }

  /** The envelope only delegates to the waiter it carries. */
  function HandleWait(s: WaitStep): (effects: seq<Effect>)
    ensures effects == s.inner.Handle()
    ensures WaitCoherent(s) ==> effects == [Delay(s.config.interval)]
  {
    s.inner.Handle()
  }

  /** An executing envelope is coherent when the decorator and the executor
      it wraps both run the configured command on the envelope's handle. */
  predicate ExecCoherent(s: ExecStep) {
    && s.inner.command == s.config.command
    && s.inner.inner.command == s.config.command
    && s.inner.inner.executor == s.executor
  }

  /** A waiting envelope is coherent when it waits the configured interval. */
  predicate WaitCoherent(s: WaitStep) {
    s.inner.sec == s.config.interval
  }

  /** The envelope `App::new` builds for the first attempt. */
  function NewExecStep(config: Config, executor: Executor): (s: ExecStep)
    ensures s.config == config && s.executor == executor
    ensures ExecCoherent(s)
  {
    SharedState(config, executor,
      PrintableCmdNotFound(config.command, CmdExecutor(config.command, executor)))
  }

  /** Execute to wait: keeps the configuration and the handle, and waits
      the configured interval. */
  function IntoWait(s: ExecStep): (w: WaitStep)
    ensures w.config == s.config && w.executor == s.executor
    ensures w.inner.sec == s.config.interval
    ensures WaitCoherent(w)
  {
    SharedState(s.config, s.executor, WaitSec(s.config.interval))
  }

  /** Wait to execute: keeps the configuration and the handle, and rebuilds
      the decorator and its executor from the configured command. */
  function IntoExec(w: WaitStep): (s: ExecStep)
    ensures s.config == w.config && s.executor == w.executor
    ensures s.inner.command == w.config.command
    ensures s.inner.inner == CmdExecutor(w.config.command, w.executor)
    ensures ExecCoherent(s)
  {
    SharedState(w.config, w.executor,
      PrintableCmdNotFound(w.config.command, CmdExecutor(w.config.command, w.executor)))
  }

  /** Execute, wait, execute: the configuration and the handle survive, the
      result is coherent, and a coherent envelope comes back unchanged. */
  lemma ExecRoundTrip(s: ExecStep)
    ensures IntoExec(IntoWait(s)).config == s.config
    ensures IntoExec(IntoWait(s)).executor == s.executor
    ensures ExecCoherent(IntoExec(IntoWait(s)))
    ensures IntoExec(IntoWait(s)) == s <==> ExecCoherent(s)
  {
  }

  /** Wait, execute, wait: a coherent waiting envelope comes back unchanged. */
  lemma WaitRoundTrip(w: WaitStep)
    ensures IntoWait(IntoExec(w)).config == w.config
    ensures IntoWait(IntoExec(w)).executor == w.executor
    ensures IntoWait(IntoExec(w)) == w <==> WaitCoherent(w)
  {
  }
}
