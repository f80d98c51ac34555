# Vulcano dispatch core in Dafny

Vulcano turns a Python program into a command-line application. Once its
commands are registered, `VulcanoApp.run` first registers the two built-ins
`exit` and `help`. It then works in one of two modes:

- **Argument mode**, when the process got at least one token after its name.
  The tokens are cut into invocations at every `and`. Each invocation is run
  in order: its first token names the command, and the remaining tokens,
  joined by single spaces, are handed to the inline parser. The first
  exception stops the run.
- **REPL mode**, otherwise. Lines are read until Control-D or until `exit`
  clears the run flag. Control-C at the prompt only re-prompts. An
  `Exception` raised on a line is printed as
  `Error executing: <command>. Error: <error>` and the loop goes on, with
  two exceptions:
  - When the very first line is blank, no command name has been assigned
    yet. The handler's own `print` then raises `UnboundLocalError`, which
    ends the session.
  - An exception raised by a command that is not an `Exception`, such as
    `KeyboardInterrupt` or `SystemExit`, is not caught and also ends the
    session.

This project models that dispatch core. It is made of five files:

- `wrappers.dfy`: `Option` and `Result`.
- `split.dfy` (module `Splitter`): `split_list_by_arg`. This is a reference
  definition `Split` and the loop `SplitListByArg`, which is proved equal to
  it. Next to them are lemmas on what the split keeps, how many entries it
  produces, and how to rebuild the token list from it.
- `text.dfy` (module `Text`): Python's `str.split()` and `" ".join`. The
  REPL splits each line with the first; both modes join a command's
  remaining tokens with the second.
- `dispatch.dfy` (module `Dispatch`): what one run does, as functions of its
  inputs. `ArgsMode` is the fail-fast chain and `Repl` is the read-evaluate
  loop. Lemmas state what both promise.
- `app.dfy` (module `App`): the classes `CommandManager` and `VulcanoApp`.
  Their methods update fields. The dispatching methods (`ExecGroup`,
  `ExecGroups`, `ExecFromArgs`, `ExecLine`, `ExecFromRepl` and `Run`) are
  proved to leave exactly the state that the `Dispatch` functions describe.
  The others state their new fields directly.

The inline parser and the manager's `run` are not part of this model. They
enter as function parameters (`Parser` and `Runner`) that may fail. Every
call of the manager's `run` is recorded in the manager's log, and every
message the REPL prints is recorded in `VulcanoApp.printed`. The command
line `sys.argv` and the stream of prompt results are parameters of `Run`.

The model follows the code of `split_list_by_arg`. The code appends the
pending group at every separator, even when there is no pending group, so
`["and"]` gives `[None]` and `["a", "and", "and", "b"]` gives
`[["a"], None, ["b"]]`. Argument mode then fails on the `None` group at
`command[0]`, after the commands before it have run.

## Model

| member | source | states |
|---|---|---|
| Splitter.SplitListByArg | vulcano/app/classes.py:27-46 | the loop's result equals the reference split `Split(lst, separator)`, whose properties are the lemmas below |
| Splitter.SplitOfEmpty | vulcano/app/classes.py:34-46 | an empty token list gives no groups |
| Splitter.SplitExamples | vulcano/app/classes.py:36-45 | `["and"]` gives `[None]`, two leading separators give two `None` entries, `a b and c` gives `[[a, b], [c]]`, and a trailing separator adds nothing |
| Splitter.SplitWellFormed | vulcano/app/classes.py:37-43 | every group present is non-empty and free of the separator |
| Splitter.SplitKeepsTokens | vulcano/app/classes.py:40-43 | the groups, concatenated, are the input with every separator removed, in order |
| Splitter.SplitLength | vulcano/app/classes.py:37-45 | there is one entry per separator, plus one when the input is non-empty and does not end with a separator |
| Splitter.SplitAppend | vulcano/app/classes.py:36-45 | splitting a list whose first part ends at a separator is splitting the two parts and concatenating |
| Splitter.SeparatorWithoutGroup | vulcano/app/classes.py:37-39 | a separator with no pending group contributes a `None` entry |
| Splitter.RejoinSplit | vulcano/app/classes.py:34-46 | joining the entries back with separators gives the input, with a separator added at the end when it is missing |
| Splitter.SplitRejoin | vulcano/app/classes.py:34-46 | every well-formed list of entries is produced by splitting its own rejoined form, so `Split` loses nothing else |
| Text.WordsAreWords | vulcano/app/classes.py:121-122 | every word of `str.split()` is non-empty and free of whitespace |
| Text.NoWordsIffBlank | vulcano/app/classes.py:121 | a line has no words exactly when it is empty or all whitespace, the case where `split()[0]` fails |
| Text.WordsOfJoin | vulcano/app/classes.py:122 | splitting words joined by single spaces gives the words back |
| Dispatch.Invoke | vulcano/app/classes.py:98-101 | no tokens fails with the index error and makes no call. A parse failure makes no call and carries the parser's error. Otherwise the call names the first token, with the rest joined by spaces and parsed, and the step carries exactly the exception the manager's `run` raised, or none when it returned |
| Dispatch.CallsFollowGroups | vulcano/app/classes.py:96-101 | there are never more calls than groups; the i-th call is the i-th group's first token, with the group's remaining tokens joined and parsed |
| Dispatch.EarlierCallsReturned | vulcano/app/classes.py:97-101 | fail-fast: every call before the last one returned normally |
| Dispatch.ArgsCompletesIff | vulcano/app/classes.py:97-101 | argument mode completes exactly when every group was called and every call returned |
| Dispatch.ArgsFailureSite | vulcano/app/classes.py:97-101 | an exception of the manager's `run` is the one the last call raised; any other failure comes from the group right after the last call, which failed before reaching the manager |
| Dispatch.LeadingSeparatorAborts | vulcano/app/classes.py:96-98 | arguments that start with `and` fail on `None[0]` before any command runs |
| Dispatch.SecondGroupFails | vulcano/app/classes.py:97-101 | when the first of two groups succeeds and the second fails, the calls are exactly the first group's call and what the second made (at most two in all), nothing from later groups, and the run ends with the second group's exception |
| Dispatch.SecondFailureKeepsFirst | vulcano/app/classes.py:96-101 | the same for `a and b and tail` as typed on the command line: one or two calls, the first for `a` with its joined arguments, a second only for `b`, and the run ends with `b`'s exception |
| Dispatch.OnLine | vulcano/app/classes.py:120-126 | one REPL line. `command` becomes the line's first word, or keeps its old value on a blank line. The calls are exactly those of dispatching the line's words, so a call is made whenever the line has words and its joined arguments parse, with those arguments. The handler's own exception escapes exactly when the line is blank and no command was seen yet; a command's non-`Exception` always escapes, after its call, and is the only other escape. `exit` stops the loop exactly when an `exit` call returned. Otherwise a message is printed exactly when no call returned, and it is the error message with the current command |
| Dispatch.InterruptsIgnored | vulcano/app/classes.py:113-116 | removing every Control-C from the input changes nothing |
| Dispatch.NothingAfterEnd | vulcano/app/classes.py:117-118 | nothing after Control-D is read |
| Dispatch.NamedCatchesExceptions | vulcano/app/classes.py:120-126 | once a command name has been seen, every `Exception` is caught; only a command's non-`Exception` ends the loop with an exception |
| Dispatch.ReplRaisesIff | vulcano/app/classes.py:120-126 | a session ends with the unbound-`command` exception exactly when its first line is blank; any other exception that ends it is a command's non-`Exception` |
| Dispatch.FailingLineContinues | vulcano/app/classes.py:120-126 | a line that fails with an `Exception` prints its error with its own command name, and the loop continues with that name remembered |
| Dispatch.AbortEscapes | vulcano/app/classes.py:120-126 | a command that raises a non-`Exception` ends the session with it: its call is made, nothing is printed and nothing after it is read |
| Dispatch.ErrorMessage | vulcano/app/classes.py:126 | the message is `Error executing: `, the command, `. Error: ` and the exception's text, each at a position from which it can be read back |
| Dispatch.BlankLineNamesPrevious | vulcano/app/classes.py:121-126 | a blank line after a named one prints the previous name with the index error and runs nothing |
| Dispatch.ExitIsLast | vulcano/app/classes.py:112-124 | a returned `exit` is the last call of a session; the session ends by `exit` exactly when its last call is a returned `exit` |
| Dispatch.CallsComeFromLines | vulcano/app/classes.py:112-124 | every call names the first word of some line typed before Control-D |
| App.CommandManager.RegisterCommand | vulcano/app/classes.py:92-93 | the name is bound to the command, replacing any earlier binding, and the registration is logged |
| App.CommandManager.Run | vulcano/app/classes.py:101 | the result is the runner's result for the call; the call is logged and the bindings are unchanged |
| App.VulcanoApp.constructor | vulcano/app/classes.py:54-59 | the first construction creates an empty manager and an empty context |
| App.VulcanoApp.Init | vulcano/app/classes.py:54-59 | an existing manager and context are kept unchanged; only missing ones are created |
| App.VulcanoApp.PrepareBuiltins | vulcano/app/classes.py:91-93 | `exit` is bound and then `help`, in that order in the log |
| App.VulcanoApp.ExecGroup | vulcano/app/classes.py:98-101 | the exception raised and the log entries for one group are exactly those of `InvokeGroup` |
| App.VulcanoApp.ExecGroups | vulcano/app/classes.py:97-101 | the loop's log and outcome are exactly those of `RunGroups` over the groups |
| App.VulcanoApp.ExecFromArgs | vulcano/app/classes.py:95-101 | the manager's log gains exactly the calls of `ArgsMode(sys.argv[1:])`, and the run ends as it does |
| App.VulcanoApp.ExecLine | vulcano/app/classes.py:120-126 | the name held afterwards, the exception that escaped, the log, the messages and the run flag are exactly those `OnLine` states |
| App.VulcanoApp.ExecFromRepl | vulcano/app/classes.py:103-126 | the log, the printed messages, the outcome and the run flag are exactly those of `ReplMode` over the input events |
| App.RequestIsForArgs | vulcano/app/classes.py:61-68 | argument mode is requested exactly when there is at least one token after the program name |
| App.VulcanoApp.Run | vulcano/app/classes.py:77-89 | the built-ins are registered first. With two or more `argv` entries the run is argument mode on `argv[1:]`, with nothing printed and the run flag untouched; otherwise it is REPL mode on the input events |

## Left out

- The prompt_toolkit session, completer, lexer and theme are left out. They
  only decorate the prompt, and the prompt's results enter as the sequence of
  input events. Running out of events is read as Control-D.
- The internals of `CommandManager` and of `inline_parser` are left out.
  They are not part of this model, so `CommandManager` keeps only its
  bindings and a log. The parser and the command bodies are the `Parser`
  and `Runner` parameters.
- The `Runner` is one fixed function, so a command's result cannot depend on
  what earlier commands did, nor on `context`.
- Commands' changes to `context` are not modelled.
- The parser's values are kept as text. There is no type conversion.
- A parser failure is assumed to be an `Exception`. Only the manager's `run`
  can raise an exception that is not one.
- `Parsed` stands for the `*args, **kwargs` call. How Python binds them to a
  command's parameters is left out.
- The bodies of the built-ins `exit` and `help` are left out. The model
  assumes one effect: an `exit` call that returns normally clears the REPL
  run flag, so the loop stops before the next prompt.
- App.VulcanoApp.ExecFromArgs: does not model the run flag that `exit` may
  set in argument mode. The flag is read only by the REPL.
- The Singleton `__new__` is left out. The constructor stands for the first
  creation; `Init` stands for any later `__init__`.
- The `getattr` defaults in `__init__` construct a `CommandManager` even when
  one exists, and then discard it. This is not modelled, because the object
  is unobservable.
- The application's `command` decorator, which forwards to the manager, is
  left out. It only passes its arguments to the manager's registration.
- `print` is modelled by appending the message to `printed`. The text of an
  exception is modelled by `Describe`.
- Python's `UnboundLocalError` wording varies between Python versions. The
  message text in `Describe` is never printed, because that exception
  escapes the loop.
