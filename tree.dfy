/** The command tree: categories hold named children, commands are leaves, and
    every node derives its path from its `parent` back-link. Each node's `run`
    is modelled by its validation half: usage text, the installed check, and
    the hand-over of a failure to the error handler. */
module Tree {
  import opened Values
  import opened Context
  import opened UnknownArgs
  import opened Params
  import opened Errors

  const InvalidCommandMessage := "Please enter a valid command."

  /** `given || fallback` for an optional string argument. */
  function OrDefault(given: Option<string>, fallback: string): (r: string)
    ensures given.Some? && given.value != "" ==> r == given.value
    ensures given.None? || given == Some("") ==> r == fallback
  {
    if given.Some? && given.value != "" then given.value else fallback
  }

  /** `chain` lists the ancestors reached from `p` by `parent` links, nearest
      first, ending at a root. A finite chain exists exactly when the links do
      not run in a cycle, so it serves as the termination measure of `path`. */
  ghost predicate Ancestry(p: Category?, chain: seq<Category>)
    reads chain
    decreases |chain|
  {
    if p == null then chain == []
    else |chain| > 0 && chain[0] == p && Ancestry(p.parent, chain[1..])
  }

  lemma {:induction false} AncestryUnique(p: Category?, c1: seq<Category>, c2: seq<Category>)
    requires Ancestry(p, c1) && Ancestry(p, c2)
    ensures c1 == c2
    decreases |c1|
  {
    if p != null {
      AncestryUnique(p.parent, c1[1..], c2[1..]);
      assert c1 == [p] + c1[1..] && c2 == [p] + c2[1..];
    }
  }

  lemma {:induction false} AncestrySuffix(p: Category?, chain: seq<Category>, k: nat)
    requires Ancestry(p, chain) && k < |chain|
    ensures Ancestry(chain[k].parent, chain[k + 1..])
  {
    if k > 0 {
      AncestrySuffix(p.parent, chain[1..], k - 1);
      assert chain[1..][k - 1] == chain[k] && chain[1..][k..] == chain[k + 1..];
    }
  }

  /** A category whose ancestry is finite is not among its own ancestors. */
  lemma NotOwnAncestor(c: Category, chain: seq<Category>)
    requires Ancestry(c.parent, chain)
    ensures c !in chain
  {
    if c in chain {
      var k :| 0 <= k < |chain| && chain[k] == c;
      AncestrySuffix(c.parent, chain, k);
      AncestryUnique(c.parent, chain, chain[k + 1..]);
    }
  }

  /** A usage line splits into "Usage:", the path words, and the words of what follows. */
  lemma UsageLineWords(words: seq<string>, rest: string)
    requires |words| > 0 && forall i :: 0 <= i < |words| ==> ' ' !in words[i]
    ensures Split("Usage: " + Join(words, " ") + " " + rest, ' ') == ["Usage:"] + words + Split(rest, ' ')
  {
    var joined := Join(words, " ");
    var tail := joined + [' '] + rest;
    assert "Usage: " + joined + " " + rest == "Usage:" + [' '] + tail by {
      assert "Usage: " == "Usage:" + [' '];
    }
    assert Split(tail, ' ') == words + Split(rest, ' ') by {
      SplitAround(joined, ' ', rest);
      SplitJoin(words, ' ');
    }
    SplitAround("Usage:", ' ', tail);
    SplitWithout("Usage:", ' ');
  }

  /** The placeholders of the usage lines are single words. */
  lemma PlaceholderWords()
    ensures Split("<command>", ' ') == ["<command>"] && Split("[options]", ' ') == ["[options]"]
  {
    CommandPlaceholder();
    OptionsPlaceholder();
  }

  lemma CommandPlaceholder()
    ensures Split("<command>", ' ') == ["<command>"]
  {
    SplitWithout("<command>", ' ');
  }

  lemma OptionsPlaceholder()
    ensures Split("[options]", ' ') == ["[options]"]
  {
    SplitWithout("[options]", ' ');
  }

  /** The usage line of a category splits into "Usage:", the path words and "<command>". */
  lemma CommandsLineWords(words: seq<string>)
    requires |words| > 0 && forall i :: 0 <= i < |words| ==> ' ' !in words[i]
    ensures Split("Usage: " + Join(words, " ") + " <command>", ' ') == ["Usage:"] + words + ["<command>"]
  {
    var head := "Usage: " + Join(words, " ");
    assert head + " <command>" == head + " " + "<command>" by {
      assert " <command>" == " " + "<command>";
    }
    UsageLineWords(words, "<command>");
    PlaceholderWords();
  }

  /** The usage line of a command splits into "Usage:", the path words,
      "[options]" and the words of the grammar. */
  lemma OptionsLineWords(words: seq<string>, params: string)
    requires |words| > 0 && forall i :: 0 <= i < |words| ==> ' ' !in words[i]
    ensures Split("Usage: " + Join(words, " ") + " [options]" + (if params != "" then " " + params else ""), ' ')
      == ["Usage:"] + words + ["[options]"] + (if params == "" then [] else Split(params, ' '))
  {
    var joined := Join(words, " ");
    var rest := OptionsTail(params);
    assert "Usage: " + joined + " [options]" + (if params != "" then " " + params else "")
      == "Usage: " + joined + " " + rest by {
      CommandUsageShape(joined, params);
    }
    assert Split(rest, ' ') == ["[options]"] + (if params == "" then [] else Split(params, ' ')) by {
      PlaceholderWords();
      if params != "" {
        SplitAround("[options]", ' ', params);
      }
    }
    UsageLineWords(words, rest);
  }

  /** What follows the path in a command's usage line, after one space. */
  function OptionsTail(params: string): string
  {
    if params == "" then "[options]" else "[options]" + [' '] + params
  }

  lemma CommandUsageShape(joined: string, params: string)
    ensures "Usage: " + joined + " [options]" + (if params != "" then " " + params else "")
      == "Usage: " + joined + " " + OptionsTail(params)
  {
    var word := "[options]";
    assert " [options]" == [' '] + word;
    SpaceThenWords("Usage: " + joined, word, params);
  }

  /** A child held in a category's `commands` object. */
  datatype Node = CategoryNode(category: Category) | CommandNode(command: Command)
  {
    function Target(): object
    {
      if CategoryNode? then category else command
    }

    function Name(): string
      reads Target()
    {
      if CategoryNode? then category.name else command.name
    }

    function Parent(): Category?
      reads Target()
    {
      if CategoryNode? then category.parent else command.parent
    }

    function Path(ghost chain: seq<Category>): (p: seq<string>)
      reads Target(), chain
      requires Ancestry(Parent(), chain)
      ensures |p| == |chain| + 1 && p[|chain|] == Name()
    {
      match this
      case CategoryNode(c) => c.Path(chain)
      case CommandNode(m) => m.Path(chain)
    }
  }

  class Category {
    var name: string
    var description: string
    var parent: Category?
    var commands: map<string, Node>

    /** `new Category(name, description)`: a missing or empty name becomes `$0`. */
    constructor (name: Option<string>, description: Option<string>)
      ensures this.name == OrDefault(name, "$0") && this.description == OrDefault(description, "")
      ensures parent == null && commands == map[]
    {
      this.name := OrDefault(name, "$0");
      this.description := OrDefault(description, "");
      parent := null;
      commands := map[];
    }

    /** The `path` getter: the parent's path with this name appended. */
    function Path(ghost chain: seq<Category>): (p: seq<string>)
      reads this, chain
      requires Ancestry(parent, chain)
      ensures |p| == |chain| + 1 && p[|chain|] == name
      decreases |chain|
    {
      if parent == null then [name] else parent.Path(chain[1..]) + [name]
    }

    /** The path lists the names of the ancestors from the root down, then this one. */
    lemma {:induction false} PathListsAncestors(chain: seq<Category>, i: nat)
      requires Ancestry(parent, chain) && i < |chain|
      ensures Path(chain)[i] == chain[|chain| - 1 - i].name
      decreases |chain|
    {
      var up := chain[1..];
      if i < |up| {
        parent.PathListsAncestors(up, i);
        assert up[|up| - 1 - i] == chain[|chain| - 1 - i];
      }
    }

    /** `command(child)`: stores the child under its name, overwriting any
        earlier child of that name, points its `parent` here and returns this
        category. The child category may not be this one or an ancestor of it:
        that would close a cycle through which `path` never returns. */
    method AddCommand(child: Node, ghost chain: seq<Category>) returns (self: Category)
      requires Ancestry(parent, chain)
      requires child.CategoryNode? ==> child.category != this && child.category !in chain
      modifies this, child.Target()
      ensures self == this
      ensures commands == old(commands)[child.Name() := child]
      ensures child.Parent() == this
      ensures child.Name() == old(child.Name())
      ensures child.CategoryNode? ==> unchanged(child.category`name, child.category`description, child.category`commands)
      ensures child.CommandNode? ==> unchanged(child.command`name, child.command`description, child.command`params)
      ensures name == old(name) && description == old(description) && parent == old(parent)
      ensures Ancestry(parent, chain) && Path(chain) == old(Path(chain))
      ensures Ancestry(child.Parent(), [this] + chain)
      ensures child.Path([this] + chain) == Path(chain) + [child.Name()]
    {
      NotOwnAncestor(this, chain);
      commands := commands[child.Name() := child];
      match child {
        case CategoryNode(c) => c.parent := this;
        case CommandNode(m) => m.parent := this;
      }
      assert ([this] + chain)[1..] == chain;
      self := this;
    }

    /** `yargs.usage(...)` of a category. */
    function Usage(ghost chain: seq<Category>): string
      reads this, chain
      requires Ancestry(parent, chain)
    {
      "Usage: " + Join(Path(chain), " ") + " <command>"
    }

    /** The usage line reads, word by word, "Usage:", the path, "<command>". */
    lemma UsageWords(chain: seq<Category>)
      requires Ancestry(parent, chain)
      requires forall i :: 0 <= i < |Path(chain)| ==> ' ' !in Path(chain)[i]
      ensures Split(Usage(chain), ' ') == ["Usage:"] + Path(chain) + ["<command>"]
    {
      CommandsLineWords(Path(chain));
    }

    /** The "No such command" message: the category path without the root,
        then the name the user gave. */
    function NoSuchCommandMessage(ghost chain: seq<Category>, commandName: string): string
      reads this, chain
      requires Ancestry(parent, chain)
    {
      "No such command `" + Join(Path(chain)[1..], " ") + " " + commandName + "`"
    }

    /** Below the root the message names the invoked words exactly
        ("widgets bogus"); at the root it starts with a space. */
    lemma NoSuchCommandNamesInvocation(chain: seq<Category>, commandName: string)
      requires Ancestry(parent, chain)
      ensures |chain| > 0 ==>
        NoSuchCommandMessage(chain, commandName) == "No such command `" + Join(Path(chain)[1..] + [commandName], " ") + "`"
      ensures |chain| == 0 ==>
        NoSuchCommandMessage(chain, commandName) == "No such command ` " + commandName + "`"
    {
      var below := Path(chain)[1..];
      assert |below| == |chain|;
      if |chain| > 0 {
        JoinThenWord("No such command `", below, commandName, "`");
      } else {
        EmptyJoinThenWord("No such command `", below, commandName, "`");
      }
    }

    /** The positional demand `.demand(path.length, ...)`, which yargs applies
        before the check. */
    function Demand(positional: seq<Positional>, ghost chain: seq<Category>): (o: Outcome)
      reads this, chain
      requires Ancestry(parent, chain)
      ensures o == Pass <==> |chain| < |positional|
      ensures o.Fail? ==> o.message == InvalidCommandMessage
    {
      if |positional| < |Path(chain)| then Fail(InvalidCommandMessage) else Pass
    }

    /** The `check` callback of `run` as written: the child named at index
        `path.length - 1` is looked up with `self.commands[commandName]` on a
        plain object, so a name `Object.prototype` provides finds a value too. */
    function CheckAsWritten(positional: seq<Positional>, ghost chain: seq<Category>): (o: Outcome)
      reads this, chain
      requires Ancestry(parent, chain)
      ensures o == Pass <==>
        && |chain| < |positional| && Truthy(Some(positional[|chain|]))
        && (Text(positional[|chain|]) in commands || Text(positional[|chain|]) in InheritedKeys)
      ensures !Truthy(At(positional, |chain|)) ==> o == Fail(InvalidCommandMessage)
    {
      var commandName := At(positional, |Path(chain)| - 1);
      if !Truthy(commandName) then Fail(InvalidCommandMessage)
      else if Text(commandName.value) !in commands && Text(commandName.value) !in InheritedKeys then
        Fail(NoSuchCommandMessage(chain, Text(commandName.value)))
      else Pass
    }

    /** The `check` callback with the lookup restricted to registered children:
        a falsy name is invalid, a name without a child is reported, and any
        other name passes. */
    function Check(positional: seq<Positional>, ghost chain: seq<Category>): (o: Outcome)
      reads this, chain
      requires Ancestry(parent, chain)
      ensures o == Pass <==>
        |chain| < |positional| && Truthy(Some(positional[|chain|])) && Text(positional[|chain|]) in commands
      ensures !Truthy(At(positional, |chain|)) ==> o == Fail(InvalidCommandMessage)
      ensures Truthy(At(positional, |chain|)) && Text(positional[|chain|]) !in commands ==>
        o == Fail(NoSuchCommandMessage(chain, Text(positional[|chain|])))
    {
      var commandName := At(positional, |Path(chain)| - 1);
      if !Truthy(commandName) then Fail(InvalidCommandMessage)
      else if Text(commandName.value) !in commands then
        Fail(NoSuchCommandMessage(chain, Text(commandName.value)))
      else Pass
    }

    /** The demand adds nothing: too few positionals leave the name absent,
        which the check rejects with the same message. */
    lemma DemandSubsumed(positional: seq<Positional>, chain: seq<Category>)
      requires Ancestry(parent, chain)
      ensures Demand(positional, chain).Fail? ==> Check(positional, chain) == Demand(positional, chain)
    {
    }

    /** The two checks differ only on names `Object.prototype` provides: for
        those the source lets an unregistered name through. */
    lemma InheritedNameSlipsThrough(positional: seq<Positional>, chain: seq<Category>)
      requires Ancestry(parent, chain)
      requires |chain| < |positional| && positional[|chain|] == Str("toString")
      requires "toString" !in commands
      ensures CheckAsWritten(positional, chain) == Pass
      ensures Check(positional, chain) == Fail(NoSuchCommandMessage(chain, "toString"))
    {
    }

    /** Outside the names `Object.prototype` provides, the check as written and
        the corrected check agree. */
    lemma ChecksAgreeOffPrototype(positional: seq<Positional>, chain: seq<Category>)
      requires Ancestry(parent, chain)
      requires |chain| < |positional| ==> Text(positional[|chain|]) !in InheritedKeys
      ensures CheckAsWritten(positional, chain) == Check(positional, chain)
    {
      assert |Path(chain)| - 1 == |chain|;
    }

    /** The validation half of `run`: sets the usage text, applies the demand
        and then the check once `yargs.argv` is read, and hands a failure's
        message to a new error handler. */
    method Run(yargs: Parser, argv: Argv, ghost chain: seq<Category>) returns (o: Outcome)
      requires Ancestry(parent, chain)
      modifies yargs
      ensures o == Check(argv.positional, chain)
      ensures yargs.usage == Usage(chain)
      ensures yargs.registry == old(yargs.registry)
      ensures o.Pass? ==>
        && yargs.hasShownHelpScreen == old(yargs.hasShownHelpScreen)
        && yargs.helpScreens == old(yargs.helpScreens)
        && yargs.printed == old(yargs.printed)
      ensures o.Fail? ==> HandledOnce(yargs, Message(o.message))
    {
      var usage := Usage(chain);
      o := Demand(argv.positional, chain);
      if o.Pass? {
        o := Check(argv.positional, chain);
      } else {
        DemandSubsumed(argv.positional, chain);
      }
      Settle(yargs, usage, o);
    }
  }

  /** What `run` does around its check: the usage text is set, and a failed
      check reaches a new error handler for this yargs instance. */
  method Settle(yargs: Parser, usage: string, o: Outcome)
    modifies yargs
    ensures yargs.usage == usage && yargs.registry == old(yargs.registry)
    ensures o.Pass? ==>
      && yargs.hasShownHelpScreen == old(yargs.hasShownHelpScreen)
      && yargs.helpScreens == old(yargs.helpScreens)
      && yargs.printed == old(yargs.printed)
    ensures o.Fail? ==> HandledOnce(yargs, Message(o.message))
  {
    var errorHandler := new ErrorHandler(yargs);
    yargs.usage := usage;
    if o.Fail? {
      errorHandler.Handle(Message(o.message));
    }
  }

  /** Names every plain object inherits from `Object.prototype`; each one looked
      up on `commands` yields a truthy value. */
  const InheritedKeys: set<string> := {
    "constructor", "__proto__", "toString", "toLocaleString", "valueOf",
    "hasOwnProperty", "isPrototypeOf", "propertyIsEnumerable",
    "__defineGetter__", "__defineSetter__", "__lookupGetter__", "__lookupSetter__"
  }

  class Command {
    var name: string
    var description: string
    var parent: Category?
    /** `options.params`: the positional-parameter grammar. */
    var params: string

    /** `new Command(name, description, options)`: a missing or empty name becomes
        `$0`, a missing `params` grammar the empty string. */
    constructor (name: Option<string>, description: Option<string>, params: Option<string>)
      ensures this.name == OrDefault(name, "$0") && this.description == OrDefault(description, "")
      ensures this.params == (if params.Some? then params.value else "")
      ensures parent == null
    {
      this.name := OrDefault(name, "$0");
      this.description := OrDefault(description, "");
      this.params := if params.Some? then params.value else "";
      parent := null;
    }

    /** The `path` getter: the parent's path with this name appended. */
    function Path(ghost chain: seq<Category>): (p: seq<string>)
      reads this, chain
      requires Ancestry(parent, chain)
      ensures |p| == |chain| + 1 && p[|chain|] == name
    {
      if parent == null then [name] else parent.Path(chain[1..]) + [name]
    }

    /** `yargs.usage(...)` of a command: the grammar follows " [options]" when there is one. */
    function Usage(ghost chain: seq<Category>): string
      reads this, chain
      requires Ancestry(parent, chain)
    {
      "Usage: " + Join(Path(chain), " ") + " [options]" + (if params != "" then " " + params else "")
    }

    /** The usage line reads, word by word, "Usage:", the path, "[options]" and
        the words of the grammar. */
    lemma UsageWords(chain: seq<Category>)
      requires Ancestry(parent, chain)
      requires forall i :: 0 <= i < |Path(chain)| ==> ' ' !in Path(chain)[i]
      ensures Split(Usage(chain), ' ') ==
        ["Usage:"] + Path(chain) + ["[options]"] + (if params == "" then [] else Split(params, ' '))
    {
      OptionsLineWords(Path(chain), params);
    }

    /** What the `check` callback of `run` leaves behind. Unknown arguments are
        checked first; when there are none and the command has a grammar, the
        parameters are parsed at offsets behind this command's path, and the
        outcome and `params` are those of the first rejected token. */
    twostate predicate Checked(registry: Registry, argv: Argv, chain: seq<Category>, o: Outcome)
      reads this, chain, argv
      requires Ancestry(parent, chain)
    {
      && argv.positional == old(argv.positional)
      && var u := UnknownKeys(registry, old(argv.keys));
      && (|u| == 1 ==> o == Fail("Unknown argument: " + u[0]) && unchanged(argv))
      && (|u| > 1 ==> o == Fail("Unknown arguments: " + Join(u, ", ")) && unchanged(argv))
      && (|u| == 0 && params == "" ==> o == Pass && unchanged(argv))
      && (|u| == 0 && params != "" ==>
            var ts := Scan(params);
            var rejected := FirstRejected(ts, argv.positional, |Path(chain)|, 0);
            && o == ParamsOutcome(ts, argv.positional, |Path(chain)|)
            && argv.params == Stored(ts[..rejected], argv.positional, |Path(chain)|)
            && argv.keys == if "params" in old(argv.keys) then old(argv.keys) else old(argv.keys) + ["params"])
    }

    /** The `check` callback of `run`. */
    method Check(yargs: Parser, argv: Argv, ghost chain: seq<Category>) returns (o: Outcome)
      requires Ancestry(parent, chain)
      modifies argv
      ensures Checked(yargs.registry, argv, chain, o)
    {
      o := CheckForUnknownArguments(yargs, argv);
      if o.Pass? && params != "" {
        o := ParseParams(argv, params, |Path(chain)|);
      }
    }

    /** The validation half of `run`: sets the usage text, runs the check once
        `yargs.argv` is read, and hands a failure's message to a new error
        handler. */
    method Run(yargs: Parser, argv: Argv, ghost chain: seq<Category>) returns (o: Outcome)
      requires Ancestry(parent, chain)
      modifies yargs, argv
      ensures yargs.usage == Usage(chain)
      ensures yargs.registry == old(yargs.registry)
      ensures Checked(yargs.registry, argv, chain, o)
      ensures o.Pass? ==>
        && yargs.hasShownHelpScreen == old(yargs.hasShownHelpScreen)
        && yargs.helpScreens == old(yargs.helpScreens)
        && yargs.printed == old(yargs.printed)
      ensures o.Fail? ==> HandledOnce(yargs, Message(o.message))
    {
      var usage := Usage(chain);
      o := Check(yargs, argv, chain);
      Settle(yargs, usage, o);
    }
  }
}
