# nested-yargs, modelled in Dafny

nested-yargs puts a tree of sub-commands on top of the yargs argument parser.
A tree is made of categories and commands: `$ widgets create <name>` is the
root category `$`, the category `widgets` below it and the command `create`
below that. Each `run` of a node installs a validation check on the shared
yargs instance and a failure callback. The node's `path` is derived from its
`parent` back-link. This project models that layer, all of it in `index.js`:

- **Tree** (`tree.dfy`). Categories and commands are classes with a `parent`
  field. `Path` follows the back-links. Its termination measure is a ghost
  chain of ancestors, `Ancestry`. `AddCommand` is `command(child)`: it
  stores the child by name and points the child's `parent` at the category.
  A category's `CheckAsWritten` is the `check` closure of its `run` as the
  code has it, and `Check` is that closure with the lookup restricted to
  registered children (see "## Findings"). Each `Run` is the
  validation half of `run`: it sets the usage text, checks the parsed
  arguments, and hands a failure to a fresh error handler.
- **Unknown-argument check** (`unknown_args.dfy`). The loops that build the
  alias lookup and collect the unknown keys are proved against
  `UnknownKeys`, a definition over the ordered keys of `argv`.
- **Parameter grammar** (`params.dfy`). `Scan` is the scanner behind the
  global `replace` with `<[^>]+>|\[[^\]]+\]`. `ParseParams` keeps the
  source's two counters and its early throws. It is proved against
  `ParamsOutcome`, `FirstRejected` and `Stored`.
- **Error handler** (`errors.dfy`). The closure of `createErrorHandler`
  becomes an `ErrorHandler` object. The `hasShownHelpScreen` flag lives on
  the yargs instance (`Context.Parser`), so all handlers of one instance
  share it: at most one help screen and one message are ever shown.
- **Values and context** (`values.dfy`, `context.dfy`). JavaScript truthiness
  of positional entries matters here: `undefined`, `""` and the number `0`
  are falsy. The model also captures how `String(n)` writes a number and how
  `join` glues the path words together. The yargs instance is reduced to
  the option registry it exposes, the usage text, and the output the handler
  produces.
- **Walkthrough** (`walkthrough.dfy`). It builds `$ widgets create <name>`
  the way a host program does, and models three invocations of it.

Three behaviours of `index.js` are easy to misread:

- The category check (index.js:49) fails with "Please enter a valid
  command." for any falsy name: a missing one, an empty string or the
  number 0.
- At the root category the path without the root is empty, so the message
  built at index.js:50-52 reads "No such command ` bogus`", with a space
  after the backtick (`Tree.Category.NoSuchCommandNamesInvocation`).
- `parseParams` (index.js:196) accepts a required parameter whose value is
  the string "0" and rejects the number 0. Which of the two yargs hands
  over for a command-line `0` depends on yargs' number parsing, which is not
  part of this model.

## Model

| member | source | states |
|---|---|---|
| Values.At | index.js:46 | indexing `argv._` gives the entry inside the array and `undefined` outside it |
| Values.Text | index.js:47 | a positional used as a key or in a message is its own string; a number becomes non-empty text with no spaces |
| Values.SplitJoin | index.js:44 | splitting a space-joined path gives back the path when no name holds a space (`join` has an inverse) |
| Context.Parser.constructor | index.js:132 | a new yargs instance has shown nothing, and its flag is clear |
| Errors.Display | index.js:134 | the printed line is the Error's message, or the bare string; an Error with an empty message prints "undefined" |
| Errors.ErrorHandler.constructor | index.js:123-124 | the handler is bound to the yargs instance it was made for |
| Errors.ErrorHandler.Handle | index.js:124-144 | first failure on an instance: one help screen, one message, flag set; once the flag is set, nothing changes; never fails for an Error or a string; the at-most-once invariant is kept |
| Errors.NestedFailuresReportOnce | index.js:126-136 | several handlers of one instance failing in turn leave one help screen and the first message only |
| Params.MatchLength | index.js:183 | an anchored match is an opening bracket, at least one character other than its closer, then the closer; no match means the closer is missing or comes straight after the opener |
| Params.Scan | index.js:183-186 | every scanned token has a non-empty name without its closing bracket |
| Params.ScanShow | index.js:183-186 | a well-formed token at the head of the grammar is scanned as exactly that token, and scanning resumes behind it |
| Params.ScanRender | index.js:183-186 | scanning a grammar written out from tokens gives back those tokens (round trip) |
| Params.FirstRejected | index.js:188-197 | the index of the first token whose parse throws: every earlier token passes |
| Params.ParamsAcceptedExactly | index.js:188-197 | the parse succeeds exactly when every required token comes before all optional ones and reads a truthy value |
| Params.StoredLookup | index.js:199 | each stored name holds the value of the last token with that name |
| Params.StoredKeys | index.js:181-199 | `params` holds no key other than a stored token's name |
| Params.RequiredThenOptionalAccepted | index.js:183-199 | `<a> [b]` parses whenever `a` has a truthy value, storing `a` and `b` (absent `b` stored as undefined) |
| Params.OptionalBeforeRequiredRejected | index.js:188-189 | `[a] <b>` always fails with "Optional parameters must be specified last", after storing `a` |
| Params.MissingRequiredRejected | index.js:196-197 | `<id>` with no value, the number 0 or "" fails with "Parameter `id` is required."; the string "0" passes |
| Params.PresentRequiredStored | index.js:194-199 | `<id>` with a truthy value parses and stores that value under `id` only |
| Params.ParseParams | index.js:177-201 | resets `params`, walks the tokens with the two counters, throws on the first rejected token, and leaves the values stored before it; `argv` gains the `params` key and `argv._` is untouched |
| UnknownArgs.UnknownKeysExactly | index.js:160-168 | a key is reported exactly when it was parsed and is not reserved, described, demanded, an alias, or the base of a `no-` alias |
| UnknownArgs.UnknownKeysConcat | index.js:160-168 | the report follows the key order of `argv` (collection distributes over concatenation) |
| UnknownArgs.NegatedFlagIsKnown | index.js:164 | `verbose` passes when `no-verbose` is an alias |
| UnknownArgs.ReservedKeysKnown | index.js:161 | `_` and `$0` are never reported, whatever is registered |
| UnknownArgs.OneUnknownKey | index.js:160-171 | with only `foo` described, the keys `_ $0 foo bar` report `bar` alone |
| UnknownArgs.AllKeysUnknownInOrder | index.js:160-173 | with nothing registered, `foo bar baz` are all reported, in that order |
| UnknownArgs.CheckForUnknownArguments | index.js:148-175 | no unknown key passes; one gives "Unknown argument: X"; several give "Unknown arguments: " and the keys joined by ", " in key order |
| Tree.OrDefault | index.js:8-9 | a missing or empty name or description falls back to its default (`$0`, "") |
| Tree.Node.Path | index.js:13-20 | a child's path, whichever kind it is, ends with its own name and is one longer than its ancestry |
| Tree.Category.constructor | index.js:6-11 | a new category is a root with no children, its name defaulting to `$0` and its description to "" |
| Tree.Category.Path | index.js:13-20 | a category's path has one entry per ancestor plus itself, ending with its own name |
| Tree.Category.PathListsAncestors | index.js:13-20 | the path lists the ancestors' names from the root down |
| Tree.Category.AddCommand | index.js:23-29 | the child is stored under its name, overwriting an earlier child of that name; every other entry stays; the child's parent is this category; the category is returned; the child's path is this path plus its name |
| Tree.Category.UsageWords | index.js:44 | the category usage line reads "Usage:", the path words, then "<command>" |
| Tree.Category.NoSuchCommandNamesInvocation | index.js:50-52 | below the root, the message names the typed words joined by spaces; at the root it starts with a space |
| Tree.Category.Demand | index.js:56 | `.demand(path.length, ...)` fails with "Please enter a valid command." exactly when there are no more positionals than ancestors |
| Tree.Category.CheckAsWritten | index.js:45-55 | the check as the code has it: it passes exactly when the entry at index `path.length - 1` is truthy and names a registered child or a name `Object.prototype` provides; a falsy entry gives "Please enter a valid command." |
| Tree.Category.Check | index.js:45-55 | the corrected check (the code as written is `Tree.Category.CheckAsWritten`): it passes exactly when the entry at index `path.length - 1` is truthy and names a registered child; a falsy entry gives "Please enter a valid command."; an unregistered name gives "No such command" |
| Tree.Category.ChecksAgreeOffPrototype | index.js:46-54 | for every name other than those `Object.prototype` provides, the check as written and the corrected check give the same outcome |
| Tree.Category.DemandSubsumed | index.js:56 | `.demand(path.length)` adds nothing: whenever it fails, the check fails with the same message |
| Tree.Category.InheritedNameSlipsThrough | index.js:47-50 | the check as written lets `toString` through with no such child; the corrected check reports it |
| Tree.Category.Run | index.js:31-64 | sets the category usage; the outcome is the corrected check's; the registry is kept; a pass shows nothing; a failure goes to the one-shot handler |
| Tree.Settle | index.js:43-57 | the usage text is set; a failed check reaches a new handler for the instance |
| Tree.Command.constructor | index.js:67-73 | a new command is a root, its name defaulting to `$0`, its description to "" and its grammar to "" |
| Tree.Command.Path | index.js:75-82 | a command's path is its parent's path plus its own name |
| Tree.Command.UsageWords | index.js:107-109 | the command usage line reads "Usage:", the path words, "[options]" and, when there is a grammar, its words |
| Tree.Command.Check | index.js:94-105 | unknown keys are checked first; when there are none and the grammar is non-empty, the parameters are parsed behind the command's path |
| Tree.Command.Run | index.js:85-120 | sets the command usage and runs the check; a pass shows nothing; a failure goes to the one-shot handler; the registry stays as it is |
| Walkthrough.BuildWidgets | index.js:23-29 | building `$ widgets create` bottom-up gives paths `$ widgets` and `$ widgets create` |
| Walkthrough.InvokeCreateFoo | index.js:194-199 | `$ widgets create foo` passes both checks and stores `name = "foo"` |
| Walkthrough.BogusMessage | index.js:50-52 | for `widgets` the message for `bogus` is "No such command `widgets bogus`" |
| Walkthrough.InvokeBogus | index.js:45-57 | `$ widgets bogus` fails with that message, which a fresh instance shows |
| Walkthrough.InvokeCreateWithoutName | index.js:196-197 | `$ widgets create` fails with "Parameter `name` is required.", which is shown only if nothing was shown before |
| Walkthrough.InvokeBogusThenMissing | index.js:132-136 | two failures on one instance print the first message only |

## Left out

- Registration with yargs is not modelled: `yargs.command` for each child, `.options`, `.example`, `.help` and `.demand` as a library call (index.js:35-41, 56-59, 89-91, 111). That code belongs to yargs. `.demand` appears as `Tree.Category.Demand`.
- The `setup`, `options` and `examples` hooks of a node's options are not modelled. They change yargs' option registry, which the model takes as the frozen `Registry` they leave behind.
- Reading `yargs.argv` parses the command line and recurses into the child's `run`. That parsing is not modelled. The parsed `argv` (its positionals and its ordered keys) is an input.
- Tree.Category.Run: it uses the corrected lookup `Check`, not `CheckAsWritten`. So a name `Object.prototype` provides (`$ toString` with no such child) fails with "No such command", where the code passes it and prints nothing. `Tree.Category.ChecksAgreeOffPrototype` shows the two agree on every other name.
- Tree.Category.Run: only the validation and failure path of `run` is modelled. It does not return `argv`, and the recursion into children happens inside yargs.
- Tree.Command.Run: the `handler` called through Bluebird, and its rejection routed to the error handler, are not modelled (index.js:115-117). That dispatch is asynchronous and fire-and-forget. Like `Tree.Category.Run`, it does not return `argv` (index.js:113-119).
- Errors.ErrorHandler.Handle: only Error objects and strings are modelled as the failure value. A handler rejected through Bluebird can pass any value: `undefined` or `null` would make index.js:134 throw a TypeError at `err.message`, and a number or a plain object would print "undefined". So "never fails" holds for the modelled values only.
- `showHelp`, `console.log` and the `colors` styling are not rendered. They appear as a count of help screens and the list of printed lines.
- `exports.createApp`, `createCategory`, `createCommand` and `exports.run` are thin wrappers around the constructors and `run`, so they are not modelled (index.js:203-220).
- Tree.Category.AddCommand requires the child category not to be the category itself or one of its ancestors. The source accepts such a child, and every later `path` read then recurses without end.
- Tree.Category.AddCommand: a child named `__proto__` replaces the prototype of `commands` instead of adding an entry. The model stores it as an ordinary entry.
- Values.Text: only integral numbers are modelled. Fractions, exponent notation, `NaN` and booleans in `argv._` are not.
- UnknownArgs.CheckForUnknownArguments takes `argv.keys` as the order `Object.keys` yields. That order's rule of integer-like keys first is not modelled. An alias named `__proto__` is treated as a registered alias, although `aliasLookup` would not hold it as an own property.
- UnknownArgs.CheckForUnknownArguments: `Known` reads the registry as sets, so it does not capture that index.js:162-165 call `hasOwnProperty` on the objects themselves. A flag described or demanded under the name `hasOwnProperty`, or an alias of that name, hides the method behind a value. The first key that is not `_`, `$0` or `params` then makes the source throw a TypeError ("… .hasOwnProperty is not a function"). That error fails the check, where the model passes or reports only the unknown keys.
- Params.ParseParams: a token named `__proto__` (grammar `<__proto__>` or `[__proto__]`) is stored as an ordinary entry of `params`. At index.js:199 the assignment goes through the `__proto__` setter, which ignores a string, a number or `undefined`, so `params` gets no such key.
- Params.StoredLookup: for the name `__proto__` it states the model's ordinary entry; in the source that name is never stored (see `Params.ParseParams` above).
- The grammar (`options.params`) is modelled as a string. A non-string value given for it is not modelled.
- The type declarations in `anjdreas-nested-yargs.d.ts` hold no logic and are not part of this model. They declare `path` as a string, while the code builds an array.

## Findings

| source | as written | input that shows it | evidently intended | confidence | as-written member | corrected member |
|---|---|---|---|---|---|---|
| index.js:47-50 | the child is looked up with `self.commands[commandName]` on a plain object, so a name that `Object.prototype` provides (`toString`, `constructor`, `__proto__`, `valueOf`, …) yields a truthy value and passes the "No such command" check | `$ toString` on a category with no child named `toString` | only registered children pass; every other name fails with "No such command" | not executed | Tree.Category.CheckAsWritten, Tree.Category.InheritedNameSlipsThrough | Tree.Category.Check |
