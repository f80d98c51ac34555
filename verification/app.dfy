/**
 * `VulcanoApp`, the application object, and the part of its command
 * manager the dispatcher touches.
 *
 * The application is a singleton whose `__init__` may run many times: it
 * keeps the manager and the context it already has and creates them only
 * when they are missing. `Run` registers the built-ins `exit` and `help`,
 * then runs in argument mode when the process got at least one token after
 * its name, and in REPL mode otherwise.
 */
module App {
  import opened Wrappers
  import opened Splitter
  import opened Text
  import opened Dispatch

  /** A command bound in the manager: the two built-ins, or one the application registered. */
  datatype Command = ExitBuiltin | HelpBuiltin | UserCommand(id: string)

  /** What the manager was asked to do, in order. */
  datatype ManagerEvent = Registered(name: string) | Ran(call: Call)

  /** The log entries of a sequence of calls. */
  function RanAll(calls: seq<Call>): (log: seq<ManagerEvent>)
    ensures |log| == |calls|
  {
    if calls == [] then [] else [Ran(calls[0])] + RanAll(calls[1..])
  }

  lemma {:induction false} RanAllAppend(a: seq<Call>, b: seq<Call>)
    ensures RanAll(a + b) == RanAll(a) + RanAll(b)
    decreases |a|
  {
    if a == [] {
      assert a + b == b;
    } else {
      assert (a + b)[1..] == a[1..] + b;
      RanAllAppend(a[1..], b);
    }
  }

  /** A log that recorded `done`, extended by the entries of `more`. */
  lemma LogExtends(log: seq<ManagerEvent>, done: seq<Call>, more: seq<Call>)
    ensures log + RanAll(done) + RanAll(more) == log + RanAll(done + more)
  {
    RanAllAppend(done, more);
  }

  /**
   * The command manager, seen from the dispatcher: the bindings it holds
   * and the log of what it was asked to do. What a command does when it
   * runs is the `Runner` it is given.
   */
  class CommandManager {
    var commands: map<string, Command>
    var log: seq<ManagerEvent>

    constructor ()
      ensures commands == map[] && log == []
    {
      commands := map[];
      log := [];
    }

    /** Binds `name` to `command`, replacing any earlier binding of that name. */
    method RegisterCommand(command: Command, name: string)
      modifies this
      ensures commands == old(commands)[name := command]
      ensures log == old(log) + [Registered(name)]
    {
      commands := commands[name := command];
      log := log + [Registered(name)];
    }

    /** Runs one call and records it. */
    method Run(call: Call, run: Runner) returns (result: RunResult)
      modifies this
      ensures result == run(call.name, call.parsed)
      ensures commands == old(commands) && log == old(log) + [Ran(call)]
    {
      result := run(call.name, call.parsed);
      log := log + [Ran(call)];
    }
  }

  /** Argument mode is requested when the process got a token after its own name. */
  predicate RequestIsForArgs(argv: seq<string>): (b: bool)
    ensures b <==> ArgsOf(argv) != []
  {
    |argv| >= 2
  }

  /** `sys.argv[1:]`: the tokens after the program name. */
  function ArgsOf(argv: seq<string>): seq<string> {
    if argv == [] then [] else argv[1..]
  }

  class VulcanoApp {
    /** `_manager`; `null` before the first `__init__`. */
    var manager: CommandManager?
    /** `context`; `None` before the first `__init__`. */
    var context: Option<map<string, string>>
    /** `do_repl`, the REPL run flag. */
    var doRepl: bool
    /** What the application printed. */
    var printed: seq<string>

    ghost predicate Valid()
      reads this
    {
      manager != null && context.Some?
    }

    /** The first construction of the singleton: a fresh object, then `__init__`. */
    constructor ()
      ensures Valid() && fresh(manager)
      ensures manager.commands == map[] && manager.log == []
      ensures context == Some(map[]) && !doRepl && printed == []
    {
      manager := null;
      context := None;
      doRepl := false;
      printed := [];
      new;
      Init();
    }

    /** `__init__`: keeps an existing manager and context, creates the missing ones. */
    method Init()
      modifies this
      ensures Valid()
      ensures old(manager) != null ==>
        (manager == old(manager) && manager.commands == old(manager.commands) && manager.log == old(manager.log))
      ensures old(manager) == null ==> fresh(manager) && manager.commands == map[] && manager.log == []
      ensures context == if old(context).Some? then old(context) else Some(map[])
      ensures doRepl == old(doRepl) && printed == old(printed)
    {
      if manager == null {
        manager := new CommandManager();
      }
      if context.None? {
        context := Some(map[]);
      }
    }

    /** `_prepare_builtins`: binds `exit`, then `help`. */
    method PrepareBuiltins()
      requires Valid()
      modifies manager
      ensures manager.commands == old(manager.commands)["exit" := ExitBuiltin]["help" := HelpBuiltin]
      ensures manager.log == old(manager.log) + [Registered("exit"), Registered("help")]
    {
      manager.RegisterCommand(ExitBuiltin, "exit");
      manager.RegisterCommand(HelpBuiltin, "help");
    }

    /**
     * The body of `_exec_from_args`'s loop for one group: index its name,
     * join and parse the rest, run it. The exception raised, if any, is
     * returned.
     */
    method ExecGroup(command: Entry, parse: Parser, run: Runner) returns (failure: Option<Failure>)
      requires Valid()
      modifies manager
      ensures manager.commands == old(manager.commands)
      ensures var st := InvokeGroup(command, parse, run);
        failure == st.failure && manager.log == old(manager.log) + RanAll(Made(st))
    {
      if command.None? {
        return Some(NotSubscriptable);
      }
      if command.value == [] {
        return Some(IndexOutOfRange);
      }
      var commandName := command.value[0];
      var arguments := Join(command.value[1..]);
      var parsed := parse(arguments);
      if parsed.Failure? {
        return Some(ParseFailed(parsed.error));
      }
      var call := Call(commandName, arguments, parsed.value);
      var result := manager.Run(call, run);
      assert RanAll([call]) == [Ran(call)];
      failure := FailureOf(result);
    }

    /** `_exec_from_args`: the groups of `sys.argv[1:]`, in order, until one raises. */
    method ExecFromArgs(argv: seq<string>, parse: Parser, run: Runner) returns (outcome: Outcome)
      requires Valid()
      modifies manager
      ensures var r := ArgsMode(ArgsOf(argv), parse, run);
        manager.log == old(manager.log) + RanAll(r.calls) && outcome == r.outcome
      ensures manager.commands == old(manager.commands)
    {
      var commands := SplitListByArg(ArgsOf(argv), Separator);
      outcome := ExecGroups(commands, parse, run);
    }

    /** The loop of `_exec_from_args` over the split groups. */
    method ExecGroups(commands: seq<Entry>, parse: Parser, run: Runner) returns (outcome: Outcome)
      requires Valid()
      modifies manager
      ensures var r := RunGroups(commands, parse, run);
        manager.log == old(manager.log) + RanAll(r.calls) && outcome == r.outcome
      ensures manager.commands == old(manager.commands)
    {
      ghost var total := RunGroups(commands, parse, run);
      ghost var done: seq<Call> := [];
      assert commands[0..] == commands;
      for i := 0 to |commands|
        invariant manager.commands == old(manager.commands)
        invariant manager.log == old(manager.log) + RanAll(done)
        invariant done + RunGroups(commands[i..], parse, run).calls == total.calls
        invariant RunGroups(commands[i..], parse, run).outcome == total.outcome
      {
        ghost var st := InvokeGroup(commands[i], parse, run);
        ghost var next := RunGroups(commands[i + 1..], parse, run);
        RunGroupsFrom(commands, i, parse, run);
        var failure := ExecGroup(commands[i], parse, run);
        LogExtends(old(manager.log), done, Made(st));
        if failure.Some? {
          assert done + Made(st) == total.calls;
          return Raised(failure.value);
        }
        assert done + (Made(st) + next.calls) == (done + Made(st)) + next.calls;
        done := done + Made(st);
      }
      assert done + [] == done;
      outcome := Completed;
    }

    /**
     * The `try` block for one REPL line and its `except` handler: split the
     * line, remember its first word in `command`, parse and run; a failure is
     * printed with the name held in `command`, and when there is none yet
     * the handler itself raises.
     */
    method ExecLine(userInput: string, command: Option<string>, parse: Parser, run: Runner)
      returns (named: Option<string>, escaped: Option<Failure>)
      requires Valid()
      modifies this, manager
      ensures Valid() && manager == old(manager) && context == old(context)
      ensures manager.commands == old(manager.commands)
      ensures var e := OnLine(userInput, command, parse, run);
        named == e.command && escaped == e.escaped
        && manager.log == old(manager.log) + RanAll(e.calls)
        && printed == old(printed) + e.printed
        && doRepl == (if e.exited then false else old(doRepl))
    {
      named, escaped := command, None;
      var words := Words(userInput);
      if words == [] {
        if named.None? {
          escaped := Some(UnboundCommand);
          return;
        }
        printed := printed + [ErrorMessage(named.value, IndexOutOfRange)];
        return;
      }
      named := Some(words[0]);
      var arguments := Join(words[1..]);
      var parsed := parse(arguments);
      if parsed.Failure? {
        printed := printed + [ErrorMessage(named.value, ParseFailed(parsed.error))];
        return;
      }
      var call := Call(words[0], arguments, parsed.value);
      var result := manager.Run(call, run);
      assert RanAll([call]) == [Ran(call)];
      match result
      case Aborted(msg) =>
        escaped := Some(RunAborted(msg));
      case Threw(msg) =>
        printed := printed + [ErrorMessage(named.value, RunFailed(msg))];
      case Returned =>
        if words[0] == "exit" {
          doRepl := false;
        }
    }

    /**
     * `_exec_from_repl`: prompt while the run flag is set; Control-C
     * re-prompts, Control-D (or the end of the input) stops, and a failure on
     * a line is printed and the loop goes on.
     */
    method ExecFromRepl(events: seq<InputEvent>, parse: Parser, run: Runner) returns (outcome: Outcome)
      requires Valid()
      modifies this, manager
      ensures Valid() && manager == old(manager) && context == old(context)
      ensures var r := ReplMode(events, parse, run);
        manager.log == old(manager.log) + RanAll(r.calls) && printed == old(printed) + r.printed
        && outcome == r.outcome && doRepl == !r.exited
      ensures manager.commands == old(manager.commands)
    {
      doRepl := true;
      var command: Option<string> := None;
      var i := 0;
      ghost var total := ReplMode(events, parse, run);
      ghost var doneCalls: seq<Call> := [];
      ghost var donePrinted: seq<string> := [];
      assert events[0..] == events;
      while doRepl
        invariant 0 <= i <= |events|
        invariant Valid() && manager == old(manager) && context == old(context)
        invariant manager.commands == old(manager.commands)
        invariant manager.log == old(manager.log) + RanAll(doneCalls)
        invariant printed == old(printed) + donePrinted
        invariant doRepl ==> Prefixed(doneCalls, donePrinted, Repl(events[i..], command, parse, run)) == total
        invariant !doRepl ==> ReplRun(doneCalls, donePrinted, Completed, true) == total
        decreases |events| - i
      {
        assert doneCalls + [] == doneCalls && donePrinted + [] == donePrinted;
        if i == |events| {
          assert Repl(events[i..], command, parse, run) == ReplRun([], [], Completed, false);
          break;
        }
        var event := events[i];
        assert events[i..] == [event] + events[i + 1..];
        i := i + 1;
        match event
        case Interrupt =>
          continue;
        case EndOfInput =>
          assert Repl(events[i - 1..], command, parse, run) == ReplRun([], [], Completed, false);
          break;
        case Line(userInput) =>
          ghost var e := OnLine(userInput, command, parse, run);
          ghost var here := Repl(events[i - 1..], command, parse, run);
          var escaped;
          command, escaped := ExecLine(userInput, command, parse, run);
          LogExtends(old(manager.log), doneCalls, e.calls);
          if escaped.Some? {
            assert here == ReplRun(e.calls, [], Raised(escaped.value), false);
            assert donePrinted + [] == donePrinted;
            return Raised(escaped.value);
          }
          assert old(printed) + donePrinted + e.printed == old(printed) + (donePrinted + e.printed);
          if e.exited {
            assert here == ReplRun(e.calls, e.printed, Completed, true);
          } else {
            ghost var t := Repl(events[i..], command, parse, run);
            assert here == Prefixed(e.calls, e.printed, t);
            PrefixedTwice(doneCalls, donePrinted, e.calls, e.printed, t);
          }
          doneCalls := doneCalls + e.calls;
          donePrinted := donePrinted + e.printed;
      }
      outcome := Completed;
    }

    /**
     * `run`: register the built-ins, then dispatch in argument mode when the
     * process got a token after its name and in REPL mode otherwise.
     */
    method Run(argv: seq<string>, events: seq<InputEvent>, parse: Parser, run: Runner) returns (outcome: Outcome)
      requires Valid()
      modifies this, manager
      ensures Valid() && manager == old(manager) && context == old(context)
      ensures manager.commands == old(manager.commands)["exit" := ExitBuiltin]["help" := HelpBuiltin]
      ensures RequestIsForArgs(argv) ==>
        var r := ArgsMode(argv[1..], parse, run);
        manager.log == old(manager.log) + [Registered("exit"), Registered("help")] + RanAll(r.calls)
        && outcome == r.outcome && printed == old(printed) && doRepl == old(doRepl)
      ensures !RequestIsForArgs(argv) ==>
        var r := ReplMode(events, parse, run);
        manager.log == old(manager.log) + [Registered("exit"), Registered("help")] + RanAll(r.calls)
        && printed == old(printed) + r.printed && outcome == r.outcome && doRepl == !r.exited
    {
      PrepareBuiltins();
      if RequestIsForArgs(argv) {
        outcome := ExecFromArgs(argv, parse, run);
      } else {
        outcome := ExecFromRepl(events, parse, run);
      }
    }
  }
}
