/** The two self-contained pieces of the child-process executor: splitting a
    command line into a program and its options, and mapping the outcome of
    waiting for the child to an execution result. */
module ChildProcess {
  import opened Types

  /** The message of the error a child without an exit code produces. */
  const AbnormalMessage := "failed to start child process or terminated abnormally"

  /** `std::process::ExitStatus`, seen through `code()`: `None` when the
      process was ended by a signal. */
  datatype ExitStatus = ExitStatus(code: Option<ExitCode>)

  /** `io::Result<ExitStatus>`: the wait completed, or it failed. */
  datatype WaitResult = Exited(status: ExitStatus) | WaitFailed(error: string)

  /** The mapping `poll` applies when the child is ready: an exit code is an
      `Ok`, a missing code or a failed wait is the same error. */
  function PollResult(w: WaitResult): (r: ExecResult)
    ensures r.Ok? <==> w.Exited? && w.status.code.Some?
    ensures r.Ok? ==> r.code == w.status.code.value
    ensures r.Err? ==> r.message == AbnormalMessage
  {
    match w
    case Exited(ExitStatus(Some(code))) => Ok(code)
    case _ => Err(AbnormalMessage)
  }

  /** `s.split(' ')`: the maximal pieces of `s` between single spaces,
      including empty ones; never empty itself. */
  function Split(s: string): (parts: seq<string>)
    ensures |parts| >= 1
    decreases |s|
  {
    if s == [] then [""]
    else
      var rest := Split(s[1..]);
      if s[0] == ' ' then [""] + rest
      else [[s[0]] + rest[0]] + rest[1..]
  }

  /** `parts.join(" ")`. */
  function Join(parts: seq<string>): string
    requires |parts| >= 1
    decreases |parts|
  {
    if |parts| == 1 then parts[0] else parts[0] + " " + Join(parts[1..])
  }

  /** Joining the pieces with single spaces gives back the input. */
  lemma {:induction false} JoinSplit(s: string)
    ensures Join(Split(s)) == s
    decreases |s|
  {
    if s != [] {
      var rest := Split(s[1..]);
      JoinSplit(s[1..]);
      if s[0] == ' ' {
        assert Split(s) == [""] + rest;
        assert ([""] + rest)[1..] == rest;
      } else if |rest| == 1 {
        assert Split(s) == [[s[0]] + rest[0]];
      } else {
        var parts := [[s[0]] + rest[0]] + rest[1..];
        assert parts[1..] == rest[1..];
        assert Join(rest) == rest[0] + " " + Join(rest[1..]);
        assert Join(parts) == [s[0]] + rest[0] + " " + Join(rest[1..]);
        assert s == [s[0]] + s[1..];
      }
    }
  }

  /** No piece contains a space. */
  lemma {:induction false} SplitNoSpace(s: string)
    ensures forall i :: 0 <= i < |Split(s)| ==> ' ' !in Split(s)[i]
    decreases |s|
  {
    if s != [] {
      SplitNoSpace(s[1..]);
    }
  }

  /** There is one piece more than there are spaces. */
  lemma {:induction false} SplitCount(s: string)
    ensures |Split(s)| == multiset(s)[' '] + 1
    decreases |s|
  {
    if s != [] {
      SplitCount(s[1..]);
      assert s == [s[0]] + s[1..];
      assert multiset(s) == multiset([s[0]]) + multiset(s[1..]);
    }
  }

  /** A space-free word followed by a space splits off as the first piece. */
  lemma {:induction false} SplitAfterWord(w: string, t: string)
    requires ' ' !in w
    ensures Split(w + " " + t) == [w] + Split(t)
    decreases |w|
  {
    var s := w + " " + t;
    if w == [] {
      assert s == " " + t;
      assert s[1..] == t;
    } else {
      assert s[0] == w[0];
      assert s[1..] == w[1..] + " " + t;
      SplitAfterWord(w[1..], t);
      assert [w[0]] + w[1..] == w;
    }
  }

  /** A space-free string is a single piece. */
  lemma {:induction false} SplitWord(w: string)
    requires ' ' !in w
    ensures Split(w) == [w]
    decreases |w|
  {
    if w != [] {
      SplitWord(w[1..]);
      assert [w[0]] + w[1..] == w;
    }
  }

  /** Splitting inverts joining space-free pieces. */
  lemma {:induction false} SplitJoin(parts: seq<string>)
    requires |parts| >= 1
    requires forall i :: 0 <= i < |parts| ==> ' ' !in parts[i]
    ensures Split(Join(parts)) == parts
    decreases |parts|
  {
    if |parts| == 1 {
      SplitWord(parts[0]);
    } else {
      SplitJoin(parts[1..]);
      SplitAfterWord(parts[0], Join(parts[1..]));
      assert [parts[0]] + parts[1..] == parts;
    }
  }

  /** The first piece is the longest space-free prefix, and the remaining
      pieces are the pieces of what follows the first space. */
  lemma {:induction false} SplitFirst(s: string)
    ensures var p := Split(s)[0];
      && p <= s && ' ' !in p
      && (|p| < |s| ==> s[|p|] == ' ' && Split(s)[1..] == Split(s[|p| + 1..]))
      && (|p| == |s| ==> |Split(s)| == 1)
    decreases |s|
  {
    if s != [] {
      var rest := Split(s[1..]);
      SplitFirst(s[1..]);
      if s[0] == ' ' {
        assert Split(s) == [""] + rest;
      } else {
        var q := rest[0];
        assert Split(s)[0] == [s[0]] + q;
        assert Split(s)[1..] == rest[1..];
        assert s == [s[0]] + s[1..];
        if |q| < |s[1..]| {
          assert s[1..][|q| + 1..] == s[|q| + 2..];
        }
      }
    }
  }

  /** `TokioCmdExecutor::parse`: the pieces of the command line are
      collected, the options are drained off after the first piece, and the
      first piece becomes the program. */
  method Parse(command: string) returns (program: string, options: seq<string>)
    ensures program == Split(command)[0] && options == Split(command)[1..]
    ensures command == "" ==> program == "" && options == []
  {
    var elements := Split(command);
    options := elements[1..];
    elements := elements[..1];
    program := if |elements| > 0 then elements[0] else "";
  }

  /** What `parse` gives: the program is the text before the first space
      (the whole input when it has none), the options are the pieces after
      that space, in order, one per space; program and options join back to
      the input, and none of them contains a space. */
  lemma ParseResult(command: string)
    ensures var program, options := Split(command)[0], Split(command)[1..];
      && Join([program] + options) == command
      && ' ' !in program && (forall i :: 0 <= i < |options| ==> ' ' !in options[i])
      && |options| == multiset(command)[' ']
      && program <= command
      && (|program| < |command| ==> command[|program|] == ' ' && options == Split(command[|program| + 1..]))
      && (|program| == |command| ==> options == [])
  {
    var parts := Split(command);
    JoinSplit(command);
    SplitNoSpace(command);
    SplitCount(command);
    SplitFirst(command);
    assert [parts[0]] + parts[1..] == parts;
  }

  /** The command line of the unit test. */
  lemma ParsePing()
    ensures Split("ping 8.8.8.8") == ["ping", "8.8.8.8"]
  {
    var parts := ["ping", "8.8.8.8"];
    assert Join(parts) == "ping 8.8.8.8";
    SplitJoin(parts);
  }
}
