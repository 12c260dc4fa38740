/** The retry state machine: a phase (execute the command, or sleep), the
    number of failed attempts so far and the optional limit on executions;
    one transition step, and the driver loop that steps until a verdict. */
module App {
  import opened Types
  import opened Components

  datatype RetryResult = Succeeded | Failure

  datatype Transition<T> = Next(next: T) | Done(result: RetryResult)

  datatype AppState = ExecuteCommand(exec: ExecStep) | Sleep(sleep: WaitStep)

  datatype App = App(state: AppState, count: nat, limit: Option<nat>)

  /** The configuration the current phase carries. */
  function ConfigOf(app: App): Config {
    match app.state
    case ExecuteCommand(e) => e.config
    case Sleep(s) => s.config
  }

  /** The executor handle the current phase carries. */
  function ExecutorOf(app: App): Executor {
    match app.state
    case ExecuteCommand(e) => e.executor
    case Sleep(s) => s.executor
  }

  /** The invariant of every state a run goes through: the phase's step is
      built from the configuration, the limit is the configured one, a
      sleep follows at least one failure, and a bounded run has not yet
      used up its executions. */
  predicate Valid(app: App) {
    && (match app.state
        case ExecuteCommand(e) => ExecCoherent(e)
        case Sleep(s) => WaitCoherent(s) && app.count > 0)
    && app.limit == ConfigOf(app).count
    && (app.limit.Some? && app.count > 0 ==> app.count < app.limit.value)
  }

  /** `App::new`: the first attempt, nothing failed yet, the configured
      limit. */
  function New(config: Config, executor: Executor): (app: App)
    ensures Valid(app)
    ensures app.state.ExecuteCommand? && app.count == 0 && app.limit == config.count
    ensures ConfigOf(app) == config && ExecutorOf(app) == executor
  {
    App(ExecuteCommand(NewExecStep(config, executor)), 0, config.count)
  }

  /** `StateMachine::handle`: one step. In the execute phase `response` is
      what the executor reports for this attempt; a sleep runs no command
      and does not look at it. */
  function Handle(app: App, response: ExecResult): (r: Output<Transition<App>>)
    // exit code 0 succeeds, whatever the count and the limit
    ensures app.state.ExecuteCommand? && IsSuccess(response) ==> r.value == Done(Succeeded)
    // any other outcome counts one failure, then stops at the limit or sleeps
    ensures app.state.ExecuteCommand? && !IsSuccess(response) ==>
      if app.limit.Some? && app.count + 1 >= app.limit.value then r.value == Done(Failure)
      else r.value == Next(App(Sleep(IntoWait(app.state.exec)), app.count + 1, app.limit))
    // a sleep always goes back to executing, count and limit as they were
    ensures app.state.Sleep? ==>
      r.value == Next(App(ExecuteCommand(IntoExec(app.state.sleep)), app.count, app.limit))
    // observable effects: the executing step's, or one delay
    ensures app.state.ExecuteCommand? ==> r.effects == app.state.exec.inner.Handle(response).effects
    ensures app.state.Sleep? ==> r.effects == [Delay(app.state.sleep.inner.sec)]
  {
    match app.state
    case ExecuteCommand(component) =>
      var out := HandleExec(component, response);
      var t :=
        if out.value.Ok? && out.value.code == 0 then Done(Succeeded)
        else
          var nextCount := app.count + 1;
          if app.limit.Some? && nextCount >= app.limit.value then Done(Failure)
          else Next(App(Sleep(IntoWait(component)), nextCount, app.limit));
      Output(out.effects, t)
    case Sleep(component) =>
      Output(HandleWait(component), Next(App(ExecuteCommand(IntoExec(component)), app.count, app.limit)))
  }

  /** An execute step requests one execution and reports the not-found
      line exactly when the execution is an error; a sleep step only
      delays. */
  lemma HandleEffects(app: App, response: ExecResult)
    ensures var effects := Handle(app, response).effects;
      && Spawns(effects) == (if app.state.ExecuteCommand? then 1 else 0)
      && Delays(effects) == (if app.state.ExecuteCommand? then 0 else 1)
      && Diagnostics(effects) == if app.state.ExecuteCommand? && response.Err?
                                 then [NotFoundLine(app.state.exec.inner.command)] else []
  {
    if app.state.ExecuteCommand? {
      NotFoundCounts(app.state.exec.inner, response);
    }
  }

  /** Phases alternate, a verdict comes only from an execution, the limit
      never changes, the count never decreases, and the configuration and
      the executor handle are carried over. */
  lemma HandleKeeps(app: App, response: ExecResult)
    ensures var t := Handle(app, response).value;
      && (t.Next? ==> (app.state.ExecuteCommand? <==> t.next.state.Sleep?))
      && (t.Next? ==> t.next.limit == app.limit && t.next.count >= app.count)
      && (t.Done? ==> app.state.ExecuteCommand?)
      && (t.Next? ==> ConfigOf(t.next) == ConfigOf(app) && ExecutorOf(t.next) == ExecutorOf(app))
  {
  }

  /** Every step keeps the invariant. */
  lemma HandlePreservesValid(app: App, response: ExecResult)
    requires Valid(app)
    ensures Handle(app, response).value.Next? ==> Valid(Handle(app, response).value.next)
  {
  }

  /** At a valid execute state of a bounded run: how many executions are
      still allowed, this one included. */
  function AttemptsLeft(app: App): (n: nat)
    requires app.limit.Some?
    ensures n >= 1
    ensures app.count + 1 >= app.limit.value ==> n == 1
  {
    if app.count < app.limit.value then app.limit.value - app.count else 1
  }

  /** The driver loop, as a function: at most `fuel` steps from `app`, where
      `respond(k)` is the executor's report for the k-th execution of the
      run and `attempts` executions have happened before `app`. The value is
      the verdict of the first `Done`, or `None` if there was none within
      the fuel. */
  function RunSpec(app: App, respond: nat -> ExecResult, attempts: nat, fuel: nat): (r: Output<Option<RetryResult>>)
    decreases fuel
  {
    if fuel == 0 then Output([], None)
    else
      var step := Handle(app, respond(attempts));
      var attempts' := if app.state.ExecuteCommand? then attempts + 1 else attempts;
      match step.value
      case Done(result) => Output(step.effects, Some(result))
      case Next(next) =>
        var rest := RunSpec(next, respond, attempts', fuel - 1);
        Output(step.effects + rest.effects, rest.value)
  }

  /** A step that ends the run gives the run's verdict and effects. */
  lemma RunSpecDone(app: App, respond: nat -> ExecResult, attempts: nat, fuel: nat, verdict: RetryResult)
    requires fuel > 0 && Handle(app, respond(attempts)).value == Done(verdict)
    ensures RunSpec(app, respond, attempts, fuel) == Output(Handle(app, respond(attempts)).effects, Some(verdict))
  {
  }

  /** A step that does not end the run puts its effects before the rest of
      the run, and leaves the verdict to the rest. */
  lemma RunSpecNext(app: App, respond: nat -> ExecResult, attempts: nat, fuel: nat, next: App, attempts': nat)
    requires fuel > 0 && Handle(app, respond(attempts)).value == Next(next)
    requires attempts' == if app.state.ExecuteCommand? then attempts + 1 else attempts
    ensures RunSpec(app, respond, attempts, fuel).effects
         == Handle(app, respond(attempts)).effects + RunSpec(next, respond, attempts', fuel - 1).effects
    ensures RunSpec(app, respond, attempts, fuel).value == RunSpec(next, respond, attempts', fuel - 1).value
  {
  }

  /** `run`: steps the machine, at most `fuel` times, until it is done. */
  method Run(app0: App, respond: nat -> ExecResult, fuel: nat) returns (result: Option<RetryResult>, trace: seq<Effect>)
    ensures Output(trace, result) == RunSpec(app0, respond, 0, fuel)
  {
    var app := app0;
    var attempts := 0;
    var steps := 0;
    trace := [];
    result := None;
    while steps < fuel
      invariant steps <= fuel
      invariant result.None?
      invariant RunSpec(app0, respond, 0, fuel).effects == trace + RunSpec(app, respond, attempts, fuel - steps).effects
      invariant RunSpec(app0, respond, 0, fuel).value == RunSpec(app, respond, attempts, fuel - steps).value
      decreases fuel - steps
    {
      var step := Handle(app, respond(attempts));
      var attempts' := if app.state.ExecuteCommand? then attempts + 1 else attempts;
      match step.value
      case Done(verdict) =>
        RunSpecDone(app, respond, attempts, fuel - steps, verdict);
        trace := trace + step.effects;
        result := Some(verdict);
        break;
      case Next(next) =>
        RunSpecNext(app, respond, attempts, fuel - steps, next, attempts');
        assert trace + (step.effects + RunSpec(next, respond, attempts', fuel - steps - 1).effects)
            == trace + step.effects + RunSpec(next, respond, attempts', fuel - steps - 1).effects;
        trace := trace + step.effects;
        app := next;
        attempts := attempts';
        steps := steps + 1;
    }
  }

  /** A run at an execute state whose execution succeeds stops there with
      `Succeeded`, having executed once and not slept. */
  lemma ExecSucceeds(app: App, respond: nat -> ExecResult, attempts: nat, fuel: nat)
    requires app.state.ExecuteCommand? && IsSuccess(respond(attempts)) && fuel >= 1
    ensures var r := RunSpec(app, respond, attempts, fuel);
      && r.value == Some(Succeeded)
      && Spawns(r.effects) == 1 && Delays(r.effects) == 0
  {
    HandleEffects(app, respond(attempts));
  }

  /** A run at an execute state whose execution fails at the limit stops
      there with `Failure`, having executed once, not slept, and reported
      the not-found line if the execution was an error. */
  lemma ExecFailsAtLimit(app: App, respond: nat -> ExecResult, attempts: nat, fuel: nat)
    requires app.state.ExecuteCommand? && !IsSuccess(respond(attempts)) && fuel >= 1
    requires app.limit.Some? && app.count + 1 >= app.limit.value
    ensures var r := RunSpec(app, respond, attempts, fuel);
      && r.value == Some(Failure)
      && Spawns(r.effects) == 1 && Delays(r.effects) == 0
      && Diagnostics(r.effects)
         == if respond(attempts).Err? then [NotFoundLine(app.state.exec.inner.command)] else []
  {
    HandleEffects(app, respond(attempts));
  }

  /** A failed execution below the limit, and the sleep after it, bring a
      valid run back to executing the same step with one more failure
      counted, having executed once and slept the configured interval. */
  lemma FailThenSleep(app: App, respond: nat -> ExecResult, attempts: nat, fuel: nat)
    requires Valid(app) && app.state.ExecuteCommand? && !IsSuccess(respond(attempts))
    requires app.limit.None? || app.count + 1 < app.limit.value
    requires fuel >= 2
    ensures Valid(app.(count := app.count + 1))
    ensures var r := RunSpec(app, respond, attempts, fuel);
      var rest := RunSpec(app.(count := app.count + 1), respond, attempts + 1, fuel - 2);
      && r.value == rest.value
      && r.effects == Handle(app, respond(attempts)).effects + [Delay(ConfigOf(app).interval)] + rest.effects
  {
    var step := Handle(app, respond(attempts));
    var sleeping := step.value.next;
    ExecRoundTrip(app.state.exec);
    assert Handle(sleeping, respond(attempts + 1)).value.next == app.(count := app.count + 1);
  }

  /** What a failed execution and the sleep after it add to the rest of a
      valid run: one execution, one delay, and the not-found line when the
      execution was an error. */
  lemma FailThenSleepCounts(app: App, respond: nat -> ExecResult, attempts: nat, fuel: nat)
    requires Valid(app) && app.state.ExecuteCommand? && !IsSuccess(respond(attempts))
    requires app.limit.None? || app.count + 1 < app.limit.value
    requires fuel >= 2
    ensures Valid(app.(count := app.count + 1))
    ensures var r := RunSpec(app, respond, attempts, fuel);
      var rest := RunSpec(app.(count := app.count + 1), respond, attempts + 1, fuel - 2);
      && r.value == rest.value
      && Spawns(r.effects) == Spawns(rest.effects) + 1
      && Delays(r.effects) == Delays(rest.effects) + 1
      && Diagnostics(r.effects)
         == (if respond(attempts).Err? then [NotFoundLine(ConfigOf(app).command)] else []) + Diagnostics(rest.effects)
  {
    FailThenSleep(app, respond, attempts, fuel);
    var effects := Handle(app, respond(attempts)).effects;
    HandleEffects(app, respond(attempts));
    TraceAppend(effects, [Delay(ConfigOf(app).interval)]);
    TraceAppend(effects + [Delay(ConfigOf(app).interval)],
                RunSpec(app.(count := app.count + 1), respond, attempts + 1, fuel - 2).effects);
  }

  /** A bounded run whose command fails on each execution still allowed,
      from a valid execute state, ends in `Failure` after exactly those
      executions, with one sleep between each two of them, whatever a later
      execution would have reported. */
  lemma {:induction false} FailingRun(app: App, respond: nat -> ExecResult, attempts: nat, fuel: nat)
    requires Valid(app) && app.state.ExecuteCommand? && app.limit.Some?
    requires forall k :: attempts <= k < attempts + AttemptsLeft(app) ==> !IsSuccess(respond(k))
    requires fuel >= 2 * AttemptsLeft(app) - 1
    ensures var r := RunSpec(app, respond, attempts, fuel);
      && r.value == Some(Failure)
      && Spawns(r.effects) == AttemptsLeft(app)
      && Delays(r.effects) == AttemptsLeft(app) - 1
    decreases AttemptsLeft(app)
  {
    if app.count + 1 < app.limit.value {
      FailThenSleepCounts(app, respond, attempts, fuel);
      FailingRun(app.(count := app.count + 1), respond, attempts + 1, fuel - 2);
    } else {
      ExecFailsAtLimit(app, respond, attempts, fuel);
    }
  }

  /** In a bounded run where every execution still allowed is an error,
      each execution writes the not-found line for the configured command
      once. */
  lemma {:induction false} FailingRunDiagnostics(app: App, respond: nat -> ExecResult, attempts: nat, fuel: nat)
    requires Valid(app) && app.state.ExecuteCommand? && app.limit.Some?
    requires forall k :: attempts <= k < attempts + AttemptsLeft(app) ==> respond(k).Err?
    requires fuel >= 2 * AttemptsLeft(app) - 1
    ensures Diagnostics(RunSpec(app, respond, attempts, fuel).effects)
         == Repeat(NotFoundLine(ConfigOf(app).command), AttemptsLeft(app))
    decreases AttemptsLeft(app)
  {
    var line := NotFoundLine(ConfigOf(app).command);
    if app.count + 1 < app.limit.value {
      var again := app.(count := app.count + 1);
      FailThenSleepCounts(app, respond, attempts, fuel);
      FailingRunDiagnostics(again, respond, attempts + 1, fuel - 2);
      assert Repeat(line, AttemptsLeft(app)) == [line] + Repeat(line, AttemptsLeft(again));
    } else {
      ExecFailsAtLimit(app, respond, attempts, fuel);
    }
  }

  /** One step that does not end the run adds its execution or its delay
      to the rest of the run, and leaves the verdict to the rest. */
  lemma OneStep(app: App, respond: nat -> ExecResult, attempts: nat, fuel: nat)
    requires fuel > 0 && Handle(app, respond(attempts)).value.Next?
    ensures var attempts' := if app.state.ExecuteCommand? then attempts + 1 else attempts;
      var r := RunSpec(app, respond, attempts, fuel);
      var rest := RunSpec(Handle(app, respond(attempts)).value.next, respond, attempts', fuel - 1);
      && r.value == rest.value
      && Spawns(r.effects) == (if app.state.ExecuteCommand? then 1 else 0) + Spawns(rest.effects)
      && Delays(r.effects) == (if app.state.ExecuteCommand? then 0 else 1) + Delays(rest.effects)
  {
    var step := Handle(app, respond(attempts));
    var attempts' := if app.state.ExecuteCommand? then attempts + 1 else attempts;
    HandleEffects(app, respond(attempts));
    TraceAppend(step.effects, RunSpec(step.value.next, respond, attempts', fuel - 1).effects);
  }

  /** An unbounded run whose command never succeeds never reaches a
      verdict, however long it runs, and alternates executions and sleeps:
      of its `fuel` steps, half (rounded up from an execute state) are
      executions and the others sleeps. */
  lemma {:induction false} UnboundedNeverDone(app: App, respond: nat -> ExecResult, attempts: nat, fuel: nat)
    requires app.limit.None?
    requires forall k :: attempts <= k < attempts + (if app.state.ExecuteCommand? then (fuel + 1) / 2 else fuel / 2)
                         ==> !IsSuccess(respond(k))
    ensures var r := RunSpec(app, respond, attempts, fuel);
      && r.value == None
      && Spawns(r.effects) == (if app.state.ExecuteCommand? then (fuel + 1) / 2 else fuel / 2)
      && Delays(r.effects) == (if app.state.ExecuteCommand? then fuel / 2 else (fuel + 1) / 2)
    decreases fuel
  {
    if fuel > 0 {
      var attempts' := if app.state.ExecuteCommand? then attempts + 1 else attempts;
      if app.state.ExecuteCommand? {
        assert !IsSuccess(respond(attempts));
        assert (fuel - 1) / 2 == (fuel + 1) / 2 - 1;
      } else {
        assert ((fuel - 1) + 1) / 2 == fuel / 2;
      }
      var next := Handle(app, respond(attempts)).value.next;
      OneStep(app, respond, attempts, fuel);
      UnboundedNeverDone(next, respond, attempts', fuel - 1);
    }
  }

  /** A run from a valid execute state whose first successful execution is
      execution `n` of the run, within the limit, ends in `Succeeded` after
      exactly the executions up to `n` and one sleep between each two. */
  lemma {:induction false} SucceedsOnAttempt(app: App, respond: nat -> ExecResult, attempts: nat, fuel: nat, n: nat)
    requires Valid(app) && app.state.ExecuteCommand?
    requires attempts <= n
    requires forall j :: attempts <= j < n ==> !IsSuccess(respond(j))
    requires IsSuccess(respond(n))
    requires app.limit.Some? ==> n - attempts < AttemptsLeft(app)
    requires fuel >= 2 * (n - attempts) + 1
    ensures var r := RunSpec(app, respond, attempts, fuel);
      && r.value == Some(Succeeded)
      && Spawns(r.effects) == n - attempts + 1
      && Delays(r.effects) == n - attempts
    decreases n - attempts
  {
    if attempts == n {
      ExecSucceeds(app, respond, attempts, fuel);
    } else {
      FailThenSleepCounts(app, respond, attempts, fuel);
      SucceedsOnAttempt(app.(count := app.count + 1), respond, attempts + 1, fuel - 2, n);
    }
  }

  /** An effect a run with this configuration and executor handle may
      have: an execution of the configured command on the handle, a delay
      of the configured interval, or the not-found line for the command. */
  predicate Expected(e: Effect, config: Config, executor: Executor) {
    match e
    case Spawn(x, command) => x == executor && command == config.command
    case Delay(sec) => sec == config.interval
    case Diagnostic(line) => line == NotFoundLine(config.command)
  }

  predicate Conforms(trace: seq<Effect>, config: Config, executor: Executor) {
    forall e :: e in trace ==> Expected(e, config, executor)
  }

  /** One step of a valid state has only expected effects. */
  lemma StepConforms(app: App, response: ExecResult)
    requires Valid(app)
    ensures Conforms(Handle(app, response).effects, ConfigOf(app), ExecutorOf(app))
  {
  }

  /** Every execution a valid run requests is of the configured command on
      the shared executor handle, every delay is the configured interval,
      and every diagnostic names the configured command: the configuration
      is the same in every phase. */
  lemma {:induction false} RunUsesConfig(app: App, respond: nat -> ExecResult, attempts: nat, fuel: nat)
    requires Valid(app)
    ensures Conforms(RunSpec(app, respond, attempts, fuel).effects, ConfigOf(app), ExecutorOf(app))
    decreases fuel
  {
    if fuel > 0 {
      var step := Handle(app, respond(attempts));
      StepConforms(app, respond(attempts));
      if step.value.Next? {
        var attempts' := if app.state.ExecuteCommand? then attempts + 1 else attempts;
        HandlePreservesValid(app, respond(attempts));
        RunUsesConfig(step.value.next, respond, attempts', fuel - 1);
      }
    }
  }

  /** Whatever the executor reports: a `Failure` verdict needs a limit, and
      a `Succeeded` verdict comes from the last execution the run made,
      which exited with 0. */
  lemma {:induction false} RunVerdicts(app: App, respond: nat -> ExecResult, attempts: nat, fuel: nat)
    ensures var r := RunSpec(app, respond, attempts, fuel);
      && (r.value == Some(Failure) ==> app.limit.Some?)
      && (r.value == Some(Succeeded) ==>
            Spawns(r.effects) >= 1 && IsSuccess(respond(attempts + Spawns(r.effects) - 1)))
    decreases fuel
  {
    if fuel > 0 {
      var step := Handle(app, respond(attempts));
      HandleKeeps(app, respond(attempts));
      HandleEffects(app, respond(attempts));
      if step.value.Next? {
        var attempts' := if app.state.ExecuteCommand? then attempts + 1 else attempts;
        OneStep(app, respond, attempts, fuel);
        RunVerdicts(step.value.next, respond, attempts', fuel - 1);
      }
    }
  }
}
