/**
 * What one run of the dispatcher does, as functions of its inputs: the
 * fail-fast chain of argument mode and the read-evaluate loop of REPL mode.
 *
 * The inline parser and the command manager's `run` are not part of this
 * model; they enter as functions (`Parser`, `Runner`) that may fail. Every
 * call the dispatcher makes to the manager's `run` is recorded as a `Call`,
 * and every message the REPL prints is recorded as a string.
 */
module Dispatch {
  import opened Wrappers
  import opened Splitter
  import opened Text

  /** The token that chains invocations in argument mode. */
  const Separator: string := "and"

  /** The positional and keyword values the inline parser produces (values kept as text). */
  datatype Parsed = Parsed(args: seq<string>, kwargs: map<string, string>)

  /** The inline parser: raw argument text to values, or the message of the error it raised. */
  type Parser = string -> Result<Parsed, string>

  /**
   * What the manager's `run` did with one call: it returned, it raised an
   * `Exception`, or it raised a `BaseException` that is not an `Exception`
   * (`KeyboardInterrupt`, `SystemExit`), which `except Exception` does not
   * catch.
   */
  datatype RunResult = Returned | Threw(msg: string) | Aborted(msg: string)

  /** The manager's `run`: the command name and its values to a result. */
  type Runner = (string, Parsed) -> RunResult

  /** One call of the manager's `run`, with the raw argument text it was parsed from. */
  datatype Call = Call(name: string, raw: string, parsed: Parsed)

  /** An exception raised while dispatching one invocation. */
  datatype Failure =
    | NotSubscriptable        // `command[0]` on a `None` group
    | IndexOutOfRange         // `[0]` on an empty list of tokens
    | ParseFailed(msg: string)
    | RunFailed(msg: string)
    | RunAborted(msg: string) // not an `Exception`: no handler of the dispatcher catches it
    | UnboundCommand          // the REPL error handler read `command` before any assignment

  /** How a run ended: normally, or with an exception that escaped it. */
  datatype Outcome = Completed | Raised(failure: Failure)

  /** The text of an exception as the REPL formats it. */
  function Describe(f: Failure): string {
    match f
    case NotSubscriptable => "'NoneType' object is not subscriptable"
    case IndexOutOfRange => "list index out of range"
    case ParseFailed(msg) => msg
    case RunFailed(msg) => msg
    case RunAborted(msg) => msg
    case UnboundCommand => "local variable 'command' referenced before assignment"
  }

  /**
   * The message the REPL prints for a failed line: a fixed prefix, the
   * command, a fixed infix, and the text of the exception, which can each
   * be read back from their positions.
   */
  function ErrorMessage(command: string, f: Failure): (m: string)
    ensures |m| == 26 + |command| + |Describe(f)|
    ensures m[..17] == "Error executing: " && m[17..17 + |command|] == command
    ensures m[17 + |command|..26 + |command|] == ". Error: " && m[26 + |command|..] == Describe(f)
  {
    var prefix, infix := "Error executing: ", ". Error: ";
    assert |prefix| == 17 && |infix| == 9;
    prefix + command + infix + Describe(f)
  }

  /** The exception a result of the manager's `run` raised, if any. */
  function FailureOf(r: RunResult): Option<Failure> {
    match r
    case Returned => None
    case Threw(msg) => Some(RunFailed(msg))
    case Aborted(msg) => Some(RunAborted(msg))
  }

  /** What dispatching one invocation did: the call made, if any, and the exception raised, if any. */
  datatype Step = Step(call: Option<Call>, failure: Option<Failure>)

  /**
   * Dispatch one invocation: the first token names the command, the rest
   * joined by single spaces is parsed, and the manager runs the command.
   */
  function Invoke(tokens: seq<string>, parse: Parser, run: Runner): (st: Step)
    ensures tokens == [] ==> st == Step(None, Some(IndexOutOfRange))
    ensures st.call.Some? ==>
      (tokens != [] && st.call.value.name == tokens[0]
       && st.call.value.raw == Join(tokens[1..])
       && parse(st.call.value.raw) == Success(st.call.value.parsed))
    ensures st.call.None? <==> tokens == [] || parse(Join(tokens[1..])).Failure?
    ensures st.failure.None? <==> st.call.Some? && run(st.call.value.name, st.call.value.parsed) == Returned
    ensures tokens != [] && parse(Join(tokens[1..])).Failure? ==>
      st.failure == Some(ParseFailed(parse(Join(tokens[1..])).error))
    ensures st.call.Some? ==> st.failure == FailureOf(run(st.call.value.name, st.call.value.parsed))
  {
    if tokens == [] then Step(None, Some(IndexOutOfRange))
    else
      var raw := Join(tokens[1..]);
      match parse(raw)
      case Failure(msg) => Step(None, Some(ParseFailed(msg)))
      case Success(p) =>
        Step(Some(Call(tokens[0], raw, p)), FailureOf(run(tokens[0], p)))
  }

  /** The calls a step made (none or one). */
  function Made(st: Step): seq<Call> {
    match st.call
    case None => []
    case Some(c) => [c]
  }

  // ---------------------------------------------------------------------
  // Argument mode
  // ---------------------------------------------------------------------

  /** The calls argument mode made, and how it ended. */
  datatype ArgsRun = ArgsRun(calls: seq<Call>, outcome: Outcome)

  /** Dispatch one group: a `None` group fails before anything is called. */
  function InvokeGroup(group: Entry, parse: Parser, run: Runner): Step {
    match group
    case None => Step(None, Some(NotSubscriptable))
    case Some(tokens) => Invoke(tokens, parse, run)
  }

  /** Argument mode over the split groups: in order, stopping at the first exception. */
  function RunGroups(groups: seq<Entry>, parse: Parser, run: Runner): ArgsRun
    decreases |groups|
  {
    if groups == [] then ArgsRun([], Completed)
    else
      var st := InvokeGroup(groups[0], parse, run);
      match st.failure
      case Some(f) => ArgsRun(Made(st), Raised(f))
      case None =>
        var r := RunGroups(groups[1..], parse, run);
        ArgsRun(Made(st) + r.calls, r.outcome)
  }

  /** Argument mode on the tokens after the program name. */
  function ArgsMode(args: seq<string>, parse: Parser, run: Runner): ArgsRun {
    RunGroups(Split(args, Separator), parse, run)
  }

  /**
   * The calls follow the groups: the i-th call is the i-th group's name and
   * its remaining tokens joined by single spaces; there are never more calls
   * than groups.
   */
  lemma {:induction false} CallsFollowGroups(groups: seq<Entry>, parse: Parser, run: Runner)
    ensures var r := RunGroups(groups, parse, run);
      |r.calls| <= |groups|
      && forall i :: 0 <= i < |r.calls| ==>
        groups[i].Some? && groups[i].value != []
        && r.calls[i].name == groups[i].value[0]
        && r.calls[i].raw == Join(groups[i].value[1..])
        && parse(r.calls[i].raw) == Success(r.calls[i].parsed)
    decreases |groups|
  {
    if groups != [] {
      var st := InvokeGroup(groups[0], parse, run);
      if st.failure.None? {
        CallsFollowGroups(groups[1..], parse, run);
        var r := RunGroups(groups, parse, run);
        var t := RunGroups(groups[1..], parse, run);
        forall i | 0 <= i < |r.calls|
          ensures groups[i].Some? && groups[i].value != []
            && r.calls[i].name == groups[i].value[0]
            && r.calls[i].raw == Join(groups[i].value[1..])
            && parse(r.calls[i].raw) == Success(r.calls[i].parsed)
        {
          if i > 0 {
            assert r.calls[i] == t.calls[i - 1];
            assert groups[i] == groups[1..][i - 1];
          }
        }
      }
    }
  }

  /** One group of argument mode: it either raises and ends the run, or is followed by the rest. */
  lemma RunGroupsStep(groups: seq<Entry>, parse: Parser, run: Runner)
    requires groups != []
    ensures var st := InvokeGroup(groups[0], parse, run);
      var t := RunGroups(groups[1..], parse, run);
      RunGroups(groups, parse, run)
      == if st.failure.Some? then ArgsRun(Made(st), Raised(st.failure.value))
         else ArgsRun(Made(st) + t.calls, t.outcome)
  {
  }

  /** `RunGroupsStep` for the groups from index `i` on. */
  lemma RunGroupsFrom(groups: seq<Entry>, i: nat, parse: Parser, run: Runner)
    requires i < |groups|
    ensures var st := InvokeGroup(groups[i], parse, run);
      var r := RunGroups(groups[i..], parse, run);
      var t := RunGroups(groups[i + 1..], parse, run);
      r.calls == (if st.failure.Some? then Made(st) else Made(st) + t.calls)
      && r.outcome == (if st.failure.Some? then Raised(st.failure.value) else t.outcome)
  {
    assert groups[i..][0] == groups[i] && groups[i..][1..] == groups[i + 1..];
    RunGroupsStep(groups[i..], parse, run);
  }

  /** Fail-fast: every call but the last returned normally. */
  lemma {:induction false} EarlierCallsReturned(groups: seq<Entry>, parse: Parser, run: Runner)
    ensures var r := RunGroups(groups, parse, run);
      forall i :: 0 <= i < |r.calls| - 1 ==> run(r.calls[i].name, r.calls[i].parsed) == Returned
    decreases |groups|
  {
    if groups != [] && InvokeGroup(groups[0], parse, run).failure.None? {
      RunGroupsStep(groups, parse, run);
      EarlierCallsReturned(groups[1..], parse, run);
      var r := RunGroups(groups, parse, run);
      var t := RunGroups(groups[1..], parse, run);
      assert forall i :: 0 < i < |r.calls| ==> r.calls[i] == t.calls[i - 1];
    }
  }

  /** Argument mode completes exactly when every group was called and every call returned. */
  lemma {:induction false} ArgsCompletesIff(groups: seq<Entry>, parse: Parser, run: Runner)
    ensures var r := RunGroups(groups, parse, run);
      r.outcome == Completed <==>
        |r.calls| == |groups|
        && forall i :: 0 <= i < |r.calls| ==> run(r.calls[i].name, r.calls[i].parsed) == Returned
    decreases |groups|
  {
    if groups != [] {
      var st := InvokeGroup(groups[0], parse, run);
      var r := RunGroups(groups, parse, run);
      RunGroupsStep(groups, parse, run);
      if st.failure.None? {
        assert groups[0].Some?;
        var c := st.call.value;
        assert run(c.name, c.parsed) == Returned;
        ArgsCompletesIff(groups[1..], parse, run);
        var t := RunGroups(groups[1..], parse, run);
        assert r.calls == [c] + t.calls;
        assert r.outcome == t.outcome;
        assert forall i :: 0 < i < |r.calls| ==> r.calls[i] == t.calls[i - 1];
        assert forall i :: 0 <= i < |t.calls| ==> t.calls[i] == r.calls[i + 1];
      } else if st.call.Some? {
        var c := st.call.value;
        assert groups[0].Some?;
        assert run(c.name, c.parsed) != Returned;
        assert r.calls == [c] && r.calls[0] == c && r.outcome != Completed;
      }
    }
  }

  /** Whether an exception was raised by the manager's `run` rather than before it. */
  predicate FromRun(f: Failure) {
    f.RunFailed? || f.RunAborted?
  }

  /**
   * Where argument mode raised: an exception of the manager's `run` comes
   * from the last call, and any other failure from the group right after
   * the last call, which failed before reaching the manager.
   */
  lemma {:induction false} ArgsFailureSite(groups: seq<Entry>, parse: Parser, run: Runner)
    ensures var r := RunGroups(groups, parse, run);
      (r.outcome.Raised? && FromRun(r.outcome.failure) ==>
        r.calls != [] && var last := r.calls[|r.calls| - 1];
        FailureOf(run(last.name, last.parsed)) == Some(r.outcome.failure))
      && (r.outcome.Raised? && !FromRun(r.outcome.failure) ==>
        |r.calls| < |groups|
        && InvokeGroup(groups[|r.calls|], parse, run) == Step(None, Some(r.outcome.failure)))
    decreases |groups|
  {
    if groups != [] {
      var st := InvokeGroup(groups[0], parse, run);
      if st.failure.None? {
        RunGroupsStep(groups, parse, run);
        ArgsFailureSite(groups[1..], parse, run);
        CallsFollowGroups(groups[1..], parse, run);
        var r := RunGroups(groups, parse, run);
        var t := RunGroups(groups[1..], parse, run);
        if t.calls != [] {
          assert r.calls[|r.calls| - 1] == t.calls[|t.calls| - 1];
        }
        if r.outcome.Raised? && !FromRun(r.outcome.failure) {
          assert groups[|r.calls|] == groups[1..][|t.calls|];
        }
      }
    }
  }

  /** A leading `and` aborts argument mode before any command runs. */
  lemma LeadingSeparatorAborts(rest: seq<string>, parse: Parser, run: Runner)
    ensures ArgsMode([Separator] + rest, parse, run) == ArgsRun([], Raised(NotSubscriptable))
  {
    SplitAfter([], rest, Separator);
    assert [] + [Separator] + rest == [Separator] + rest;
  }

  /**
   * Two groups where the second fails: the calls are the first group's and
   * whatever the second made before raising, nothing from `rest`, and the
   * run ends with the second group's exception.
   */
  lemma SecondGroupFails(a: seq<string>, b: seq<string>, rest: seq<Entry>, parse: Parser, run: Runner)
    requires InvokeGroup(Some(a), parse, run).failure.None?
    requires InvokeGroup(Some(b), parse, run).failure.Some?
    ensures var r := RunGroups([Some(a), Some(b)] + rest, parse, run);
      var sa := InvokeGroup(Some(a), parse, run);
      var sb := InvokeGroup(Some(b), parse, run);
      r.calls == Made(sa) + Made(sb) && |Made(sa)| == 1 && |r.calls| <= 2
      && r.outcome == Raised(sb.failure.value)
  {
    var groups := [Some(a), Some(b)] + rest;
    assert groups[0] == Some(a) && groups[1..] == [Some(b)] + rest && groups[1..][0] == Some(b);
    RunGroupsStep(groups, parse, run);
    RunGroupsStep(groups[1..], parse, run);
  }

  /**
   * Two chained invocations where the second fails: the first has run, and
   * nothing is run after the second.
   */
  lemma SecondFailureKeepsFirst(a: seq<string>, b: seq<string>, tail: seq<string>, parse: Parser, run: Runner)
    requires a != [] && Separator !in a && b != [] && Separator !in b
    requires InvokeGroup(Some(a), parse, run).failure.None?
    requires InvokeGroup(Some(b), parse, run).failure.Some?
    ensures var r := ArgsMode(a + [Separator] + b + [Separator] + tail, parse, run);
      var sb := InvokeGroup(Some(b), parse, run);
      1 <= |r.calls| <= 2 && r.calls[0].name == a[0] && r.calls[0].raw == Join(a[1..])
      && (|r.calls| == 2 ==> r.calls[1].name == b[0] && r.calls[1].raw == Join(b[1..]))
      && r.outcome == Raised(sb.failure.value)
  {
    var lst := a + [Separator] + b + [Separator] + tail;
    assert lst == a + [Separator] + (b + [Separator] + tail);
    SplitAfter(a, b + [Separator] + tail, Separator);
    SplitAfter(b, tail, Separator);
    assert Split(lst, Separator) == [Some(a), Some(b)] + Split(tail, Separator);
    SecondGroupFails(a, b, Split(tail, Separator), parse, run);
    var sa := InvokeGroup(Some(a), parse, run);
    var sb := InvokeGroup(Some(b), parse, run);
    assert Made(sa) == [sa.call.value];
    assert sb.call.Some? ==> Made(sb) == [sb.call.value];
  }

  // ---------------------------------------------------------------------
  // REPL mode
  // ---------------------------------------------------------------------

  /** What the prompt returned: a line, Control-C, or Control-D. */
  datatype InputEvent = Line(text: string) | Interrupt | EndOfInput

  /** A call of `exit` that returned normally. */
  predicate ExitReturned(c: Call, run: Runner) {
    c.name == "exit" && run(c.name, c.parsed) == Returned
  }

  /**
   * What the `try` block for one line and its `except` handler did: the
   * value of `command` afterwards, the calls made, the messages printed,
   * the exception that escaped, if any, and whether a returned `exit`
   * cleared the run flag.
   */
  datatype LineResult = LineResult(
    command: Option<string>, calls: seq<Call>, printed: seq<string>, escaped: Option<Failure>, exited: bool)

  /**
   * One submitted line: `command` takes the line's first word when it has
   * one; an `Exception` is reported with the name `command` then holds, and
   * when it holds none the handler itself raises; an exception that is not
   * an `Exception` is not caught.
   */
  function OnLine(text: string, command: Option<string>, parse: Parser, run: Runner): (e: LineResult)
    ensures e.command == if Words(text) == [] then command else Some(Words(text)[0])
    ensures e.calls == Made(Invoke(Words(text), parse, run))
    ensures forall c :: c in e.calls ==> Words(text) != [] && c.name == Words(text)[0]
    ensures e.escaped == Some(UnboundCommand) <==> Words(text) == [] && command.None?
    ensures e.escaped.Some? && e.escaped != Some(UnboundCommand) ==>
      e.escaped.value.RunAborted? && e.calls != []
      && run(e.calls[0].name, e.calls[0].parsed) == Aborted(e.escaped.value.msg)
    ensures Invoke(Words(text), parse, run).failure.Some? && Invoke(Words(text), parse, run).failure.value.RunAborted? ==>
      e.escaped == Invoke(Words(text), parse, run).failure
    ensures e.escaped.Some? ==> e.printed == [] && !e.exited
    ensures e.exited <==> e.calls != [] && ExitReturned(e.calls[0], run)
    ensures e.escaped.None? ==>
      (e.printed == [] <==> e.calls != [] && run(e.calls[0].name, e.calls[0].parsed) == Returned)
    ensures e.printed != [] ==>
      e.command.Some? && Invoke(Words(text), parse, run).failure.Some?
      && e.printed == [ErrorMessage(e.command.value, Invoke(Words(text), parse, run).failure.value)]
  {
    var words := Words(text);
    var named := if words == [] then command else Some(words[0]);
    var st := Invoke(words, parse, run);
    match st.failure
    case Some(f) =>
      if f.RunAborted? then LineResult(named, Made(st), [], Some(f), false)
      else if named.None? then LineResult(named, [], [], Some(UnboundCommand), false)
      else LineResult(named, Made(st), [ErrorMessage(named.value, f)], None, false)
    case None =>
      LineResult(named, Made(st), [], None, words[0] == "exit")
  }

  /** The calls the REPL made, what it printed, how it ended, and whether `exit` stopped it. */
  datatype ReplRun = ReplRun(calls: seq<Call>, printed: seq<string>, outcome: Outcome, exited: bool)

  /** `r` preceded by further calls and messages. */
  function Prefixed(calls: seq<Call>, printed: seq<string>, r: ReplRun): ReplRun {
    ReplRun(calls + r.calls, printed + r.printed, r.outcome, r.exited)
  }

  /**
   * The REPL loop from the next prompt on; `command` is the name of the
   * last line that had one, `None` before any. An exhausted input reads as
   * end of input. The loop stops at Control-D, when an exception escapes
   * a line, and after a returned `exit`, which clears the run flag checked
   * before the next prompt.
   */
  function Repl(events: seq<InputEvent>, command: Option<string>, parse: Parser, run: Runner): ReplRun
    decreases |events|
  {
    if events == [] then ReplRun([], [], Completed, false)
    else match events[0]
      case EndOfInput => ReplRun([], [], Completed, false)
      case Interrupt => Repl(events[1..], command, parse, run)
      case Line(text) =>
        var e := OnLine(text, command, parse, run);
        if e.escaped.Some? then ReplRun(e.calls, [], Raised(e.escaped.value), false)
        else if e.exited then ReplRun(e.calls, e.printed, Completed, true)
        else Prefixed(e.calls, e.printed, Repl(events[1..], e.command, parse, run))
  }

  /** A whole REPL session: `command` starts unassigned. */
  function ReplMode(events: seq<InputEvent>, parse: Parser, run: Runner): ReplRun {
    Repl(events, None, parse, run)
  }

  lemma {:induction false} PrefixedTwice(calls: seq<Call>, printed: seq<string>, more: seq<Call>, morePrinted: seq<string>, r: ReplRun)
    ensures Prefixed(calls, printed, Prefixed(more, morePrinted, r)) == Prefixed(calls + more, printed + morePrinted, r)
  {
  }

  /** The events with every Control-C removed. */
  function WithoutInterrupts(events: seq<InputEvent>): seq<InputEvent> {
    if events == [] then []
    else if events[0] == Interrupt then WithoutInterrupts(events[1..])
    else [events[0]] + WithoutInterrupts(events[1..])
  }

  /** Control-C only re-prompts: removing every interrupt changes nothing. */
  lemma {:induction false} InterruptsIgnored(events: seq<InputEvent>, command: Option<string>, parse: Parser, run: Runner)
    ensures Repl(WithoutInterrupts(events), command, parse, run) == Repl(events, command, parse, run)
    decreases |events|
  {
    if events != [] {
      var ev := events[0];
      if ev == Interrupt {
        InterruptsIgnored(events[1..], command, parse, run);
      } else {
        var e := WithoutInterrupts(events);
        assert e == [ev] + WithoutInterrupts(events[1..]);
        assert e[1..] == WithoutInterrupts(events[1..]);
        if ev.Line? {
          InterruptsIgnored(events[1..], OnLine(ev.text, command, parse, run).command, parse, run);
        }
      }
    }
  }

  /** Control-D ends the loop: nothing after it is read. */
  lemma {:induction false} NothingAfterEnd(pre: seq<InputEvent>, post: seq<InputEvent>, command: Option<string>, parse: Parser, run: Runner)
    ensures Repl(pre + [EndOfInput] + post, command, parse, run) == Repl(pre + [EndOfInput], command, parse, run)
    decreases |pre|
  {
    if pre == [] {
      assert pre + [EndOfInput] + post == [EndOfInput] + post;
      assert pre + [EndOfInput] == [EndOfInput];
    } else {
      var ev := pre[0];
      assert (pre + [EndOfInput] + post)[0] == ev && (pre + [EndOfInput])[0] == ev;
      assert (pre + [EndOfInput] + post)[1..] == pre[1..] + [EndOfInput] + post;
      assert (pre + [EndOfInput])[1..] == pre[1..] + [EndOfInput];
      if ev.Line? {
        NothingAfterEnd(pre[1..], post, OnLine(ev.text, command, parse, run).command, parse, run);
      } else if ev == Interrupt {
        NothingAfterEnd(pre[1..], post, command, parse, run);
      }
    }
  }

  /**
   * Once a command name has been seen, every `Exception` is caught: only an
   * exception that is not an `Exception`, raised by a command, escapes.
   */
  lemma {:induction false} NamedCatchesExceptions(events: seq<InputEvent>, name: string, parse: Parser, run: Runner)
    ensures var r := Repl(events, Some(name), parse, run);
      r.outcome.Raised? ==> r.outcome.failure.RunAborted?
    decreases |events|
  {
    if events != [] {
      match events[0]
      case EndOfInput =>
      case Interrupt => NamedCatchesExceptions(events[1..], name, parse, run);
      case Line(text) =>
        var e := OnLine(text, Some(name), parse, run);
        NamedCatchesExceptions(events[1..], e.command.value, parse, run);
    }
  }

  /** Whether the first line, before any Control-D, has no words. */
  predicate FirstLineBlank(events: seq<InputEvent>) decreases |events| {
    if events == [] then false
    else match events[0]
      case EndOfInput => false
      case Interrupt => FirstLineBlank(events[1..])
      case Line(text) => Words(text) == []
  }

  /**
   * A session ends with the handler's own exception exactly when its first
   * line is blank: the handler then reads `command` before it was ever
   * assigned. Any other exception that ends a session is one a command
   * raised that is not an `Exception`.
   */
  lemma {:induction false} ReplRaisesIff(events: seq<InputEvent>, parse: Parser, run: Runner)
    ensures ReplMode(events, parse, run).outcome == Raised(UnboundCommand) <==> FirstLineBlank(events)
    ensures ReplMode(events, parse, run).outcome.Raised? ==>
      ReplMode(events, parse, run).outcome == Raised(UnboundCommand)
      || ReplMode(events, parse, run).outcome.failure.RunAborted?
    decreases |events|
  {
    if events != [] {
      match events[0]
      case EndOfInput =>
      case Interrupt => ReplRaisesIff(events[1..], parse, run);
      case Line(text) =>
        var e := OnLine(text, None, parse, run);
        if e.escaped.None? && !e.exited {
          NamedCatchesExceptions(events[1..], e.command.value, parse, run);
        }
    }
  }

  /**
   * A failing line is reported and the loop goes on: the message names the
   * line's own command, and the rest of the input is processed with that
   * name remembered.
   */
  lemma FailingLineContinues(text: string, rest: seq<InputEvent>, command: Option<string>, parse: Parser, run: Runner)
    requires Words(text) != []
    requires Invoke(Words(text), parse, run).failure.Some?
    requires !Invoke(Words(text), parse, run).failure.value.RunAborted?
    ensures var st := Invoke(Words(text), parse, run);
      Repl([Line(text)] + rest, command, parse, run)
      == Prefixed(Made(st), [ErrorMessage(Words(text)[0], st.failure.value)],
                  Repl(rest, Some(Words(text)[0]), parse, run))
  {
    assert ([Line(text)] + rest)[1..] == rest;
  }

  /**
   * A command that raises an exception that is not an `Exception` ends the
   * session with it: its call is made, nothing is printed for it, and
   * nothing after it is read.
   */
  lemma AbortEscapes(text: string, rest: seq<InputEvent>, command: Option<string>, parse: Parser, run: Runner)
    requires Words(text) != []
    requires Invoke(Words(text), parse, run).failure.Some?
    requires Invoke(Words(text), parse, run).failure.value.RunAborted?
    ensures var st := Invoke(Words(text), parse, run);
      Repl([Line(text)] + rest, command, parse, run)
      == ReplRun([st.call.value], [], Raised(st.failure.value), false)
  {
    assert ([Line(text)] + rest)[0] == Line(text);
  }

  /**
   * A blank line after a named one reports the previous line's command with
   * the index error of `split()[0]`.
   */
  lemma BlankLineNamesPrevious(text: string, rest: seq<InputEvent>, name: string, parse: Parser, run: Runner)
    requires forall i :: 0 <= i < |text| ==> IsSpace(text[i])
    ensures Repl([Line(text)] + rest, Some(name), parse, run)
      == Prefixed([], [ErrorMessage(name, IndexOutOfRange)], Repl(rest, Some(name), parse, run))
  {
    NoWordsIffBlank(text);
    assert ([Line(text)] + rest)[0] == Line(text) && ([Line(text)] + rest)[1..] == rest;
    assert OnLine(text, Some(name), parse, run)
      == LineResult(Some(name), [], [ErrorMessage(name, IndexOutOfRange)], None, false);
  }

  /** A session's calls with no returned `exit` before the last, and `exited` exactly when the last one is one. */
  predicate ExitOnlyLast(r: ReplRun, run: Runner) {
    (forall i :: 0 <= i < |r.calls| - 1 ==> !ExitReturned(r.calls[i], run))
    && (r.exited <==> r.calls != [] && ExitReturned(r.calls[|r.calls| - 1], run))
  }

  lemma ExitOnlyLastPrefixed(calls: seq<Call>, printed: seq<string>, t: ReplRun, run: Runner)
    requires |calls| <= 1 && (calls != [] ==> !ExitReturned(calls[0], run))
    requires ExitOnlyLast(t, run)
    ensures ExitOnlyLast(Prefixed(calls, printed, t), run)
  {
    var r := Prefixed(calls, printed, t);
    assert forall i :: |calls| <= i < |r.calls| ==> r.calls[i] == t.calls[i - |calls|];
  }

  lemma LineExit(text: string, command: Option<string>, parse: Parser, run: Runner)
    ensures var e := OnLine(text, command, parse, run);
      |e.calls| <= 1 && (e.escaped.Some? ==> !e.exited)
      && (e.exited <==> e.calls != [] && ExitReturned(e.calls[0], run))
  {
  }

  /** A returned `exit` is the last call of a session, and it is what set `exited`. */
  lemma {:induction false} ExitIsLast(events: seq<InputEvent>, command: Option<string>, parse: Parser, run: Runner)
    ensures ExitOnlyLast(Repl(events, command, parse, run), run)
    decreases |events|
  {
    if events != [] {
      match events[0]
      case EndOfInput =>
      case Interrupt => ExitIsLast(events[1..], command, parse, run);
      case Line(text) =>
        var e := OnLine(text, command, parse, run);
        LineExit(text, command, parse, run);
        if e.escaped.None? && !e.exited {
          ExitIsLast(events[1..], e.command, parse, run);
          ExitOnlyLastPrefixed(e.calls, e.printed, Repl(events[1..], e.command, parse, run), run);
        }
    }
  }

  /** The first word of every non-blank line, before any Control-D. */
  function LineNames(events: seq<InputEvent>): set<string> decreases |events| {
    if events == [] then {}
    else match events[0]
      case EndOfInput => {}
      case Interrupt => LineNames(events[1..])
      case Line(text) =>
        var words := Words(text);
        (if words == [] then {} else {words[0]}) + LineNames(events[1..])
  }

  /** Every call the REPL makes names the first word of a line typed before Control-D. */
  lemma {:induction false} CallsComeFromLines(events: seq<InputEvent>, command: Option<string>, parse: Parser, run: Runner)
    ensures forall c :: c in Repl(events, command, parse, run).calls ==> c.name in LineNames(events)
    decreases |events|
  {
    if events != [] {
      match events[0]
      case EndOfInput =>
      case Interrupt => CallsComeFromLines(events[1..], command, parse, run);
      case Line(text) =>
        CallsComeFromLines(events[1..], OnLine(text, command, parse, run).command, parse, run);
    }
  }
}
