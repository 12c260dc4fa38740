/** Whole runs from the state `App::new` builds, as the command-line tool
    performs them: the configured number of executions, the diagnostics on
    standard error, and the sleeps between attempts. */
module Scenarios {
  import opened Types
  import opened Components
  import opened App
  import opened ChildProcess

  /** How many executions a configured limit allows: a limit of 0 still
      executes once, because the limit is compared after counting. */
  function Executions(limit: nat): (n: nat)
    ensures n >= 1 && (limit >= 1 ==> n == limit)
  {
    if limit == 0 then 1 else limit
  }

  /** A run with `-c` given whose allowed executions all fail stops with
      `Failure` after exactly those executions, sleeping the configured
      interval between each two of them: the limit decides, whatever a
      further execution would have reported. */
  lemma ConfiguredFailure(config: Config, executor: Executor, respond: nat -> ExecResult, fuel: nat)
    requires config.count.Some?
    requires forall k :: 0 <= k < Executions(config.count.value) ==> !IsSuccess(respond(k))
    requires fuel >= 2 * Executions(config.count.value) - 1
    ensures var r := RunSpec(New(config, executor), respond, 0, fuel);
      && r.value == Some(Failure)
      && Spawns(r.effects) == Executions(config.count.value)
      && Delays(r.effects) == Executions(config.count.value) - 1
      && Conforms(r.effects, config, executor)
  {
    var app := New(config, executor);
    assert AttemptsLeft(app) == Executions(config.count.value);
    FailingRun(app, respond, 0, fuel);
    RunUsesConfig(app, respond, 0, fuel);
  }

  /** A command that cannot be run, with `-c N`, writes the not-found line
      once per allowed execution. */
  lemma ConfiguredNotFound(config: Config, executor: Executor, respond: nat -> ExecResult, fuel: nat)
    requires config.count.Some?
    requires forall k :: 0 <= k < Executions(config.count.value) ==> respond(k).Err?
    requires fuel >= 2 * Executions(config.count.value) - 1
    ensures Diagnostics(RunSpec(New(config, executor), respond, 0, fuel).effects)
         == Repeat(NotFoundLine(config.command), Executions(config.count.value))
  {
    var app := New(config, executor);
    assert AttemptsLeft(app) == Executions(config.count.value);
    FailingRunDiagnostics(app, respond, 0, fuel);
  }

  /** `retry dummy -c 2`: `dummy` cannot be run, so standard error holds
      the not-found line twice, the run fails, and there is exactly one
      sleep, of the configured interval. */
  lemma DummyTwice(interval: Seconds, executor: Executor, respond: nat -> ExecResult, fuel: nat)
    requires respond(0).Err? && respond(1).Err?
    requires fuel >= 3
    ensures var r := RunSpec(New(Config("dummy", Some(2), interval), executor), respond, 0, fuel);
      && r.value == Some(Failure)
      && Stderr(Diagnostics(r.effects))
         == "retry: command not found 'dummy'" + "\n" + "retry: command not found 'dummy'" + "\n"
      && Spawns(r.effects) == 2
      && Delays(r.effects) == 1
      && Delay(interval) in r.effects
  {
    var config := Config("dummy", Some(2), interval);
    var r := RunSpec(New(config, executor), respond, 0, fuel);
    ConfiguredFailure(config, executor, respond, fuel);
    ConfiguredNotFound(config, executor, respond, fuel);
    assert Executions(config.count.value) == 2;
    StderrTwice(NotFoundLine("dummy"));
    DummyLine();
    DelayIsInterval(r.effects, config, executor);
  }

  /** `retry dummy -c 1`: the first failure ends the run, with one
      not-found line and no sleep at all. */
  lemma DummyOnce(interval: Seconds, executor: Executor, respond: nat -> ExecResult, fuel: nat)
    requires respond(0).Err?
    requires fuel >= 1
    ensures var r := RunSpec(New(Config("dummy", Some(1), interval), executor), respond, 0, fuel);
      && r.value == Some(Failure)
      && Spawns(r.effects) == 1
      && Delays(r.effects) == 0
      && Diagnostics(r.effects) == [NotFoundLine("dummy")]
  {
    var config := Config("dummy", Some(1), interval);
    ConfiguredFailure(config, executor, respond, fuel);
    ConfiguredNotFound(config, executor, respond, fuel);
    assert Executions(config.count.value) == 1;
    assert Repeat(NotFoundLine("dummy"), 1) == [NotFoundLine("dummy")];
  }

  /** With `-c 2`, two failures end the run with `Failure` even when a
      third execution would have exited with 0. */
  lemma LimitBeforeLateSuccess(config: Config, executor: Executor, respond: nat -> ExecResult, fuel: nat)
    requires config.count == Some(2)
    requires !IsSuccess(respond(0)) && !IsSuccess(respond(1)) && respond(2) == Ok(0)
    requires fuel >= 3
    ensures var r := RunSpec(New(config, executor), respond, 0, fuel);
      && r.value == Some(Failure)
      && Spawns(r.effects) == 2
      && Delays(r.effects) == 1
  {
    assert Executions(config.count.value) == 2;
    ConfiguredFailure(config, executor, respond, fuel);
  }

  /** The not-found line for `dummy`. */
  lemma DummyLine()
    ensures NotFoundLine("dummy") == "retry: command not found 'dummy'"
  {
  }

  /** Two copies of a line on standard error. */
  lemma StderrTwice(line: string)
    ensures Stderr(Repeat(line, 2)) == line + "\n" + line + "\n"
  {
    assert Repeat(line, 2) == [line, line];
    assert [line, line][1..] == [line];
    assert Stderr([line]) == line + "\n";
  }

  /** A conforming trace that delays at all delays the configured interval. */
  lemma DelayIsInterval(trace: seq<Effect>, config: Config, executor: Executor)
    requires Delays(trace) > 0 && Conforms(trace, config, executor)
    ensures Delay(config.interval) in trace
  {
    DelayOccurs(trace);
    var i :| 0 <= i < |trace| && trace[i].Delay?;
    assert trace[i] in trace;
  }

  /** A trace with a delay contains one. */
  lemma {:induction false} DelayOccurs(trace: seq<Effect>)
    requires Delays(trace) > 0
    ensures exists i :: 0 <= i < |trace| && trace[i].Delay?
  {
    if !trace[0].Delay? {
      DelayOccurs(trace[1..]);
      var i :| 0 <= i < |trace[1..]| && trace[1..][i].Delay?;
      assert trace[i + 1].Delay?;
    }
  }

  /** `retry "echo abc" -c 2`: the first execution exits with 0, so the run
      succeeds after one execution of `echo abc`, without sleeping; the
      executor runs the program `echo` with the single option `abc`. */
  lemma EchoSucceeds(interval: Seconds, executor: Executor, respond: nat -> ExecResult, fuel: nat)
    requires respond(0) == Ok(0)
    requires fuel >= 1
    ensures var r := RunSpec(New(Config("echo abc", Some(2), interval), executor), respond, 0, fuel);
      && r.value == Some(Succeeded)
      && Spawns(r.effects) == 1 && Delays(r.effects) == 0
      && r.effects == [Spawn(executor, "echo abc")]
    ensures Split("echo abc") == ["echo", "abc"]
  {
    var app := New(Config("echo abc", Some(2), interval), executor);
    SucceedsOnAttempt(app, respond, 0, fuel, 0);
    var parts := ["echo", "abc"];
    assert Join(parts) == "echo abc";
    SplitJoin(parts);
  }
}
