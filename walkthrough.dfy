/** A client of the model: the tree `$ widgets create <name>` built bottom-up,
    as host programs do, then validated the way the nested runs validate an
    invocation. */
module Walkthrough {
  import opened Values
  import opened Context
  import opened UnknownArgs
  import opened Params
  import opened Tree

  method BuildWidgets() returns (app: Category, widgets: Category, create: Command)
    ensures fresh(app) && fresh(widgets) && fresh(create)
    ensures Ancestry(widgets.parent, [app]) && Ancestry(create.parent, [widgets, app])
    ensures widgets.commands == map["create" := CommandNode(create)]
    ensures widgets.Path([app]) == ["$", "widgets"]
    ensures create.Path([widgets, app]) == ["$", "widgets", "create"]
    ensures create.params == "<name>"
  {
    app := new Category(Some("$"), None);
    widgets := new Category(Some("widgets"), Some("Manage widgets"));
    create := new Command(Some("create"), Some("Create a widget"), Some("<name>"));
    var w := widgets.AddCommand(CommandNode(create), []);
    var a := app.AddCommand(CategoryNode(widgets), []);
    assert Ancestry(create.parent, [widgets, app]) by {
      assert [widgets, app][1..] == [app];
    }
  }

  /** `$ widgets create foo`: the category finds `create`, which stores `foo` as `name`. */
  method InvokeCreateFoo() returns (found: Outcome, created: Outcome, name: Option<Positional>)
    ensures found == Pass && created == Pass
    ensures name == Some(Str("foo"))
  {
    var app, widgets, create := BuildWidgets();
    var yargs := new Parser(Registry(map[], {}, {}));
    var positional := [Str("widgets"), Str("create"), Str("foo")];
    var argv := new Argv(positional, ["_", "$0"]);
    found := widgets.Check(positional, [app]);
    ReservedKeysKnown(yargs.registry);
    NameGrammar();
    PresentRequiredStored("name", positional, 3);
    created := create.Run(yargs, argv, [widgets, app]);
    name := argv.params["name"];
  }

  /** The grammar of `create`: one required parameter, `name`. */
  lemma NameGrammar()
    ensures Show(Token(true, "name")) == "<name>" && WellFormed(Token(true, "name"))
    ensures RequiredMessage("name") == "Parameter `name` is required."
  {
  }

  /** `$ widgets create` with no name, on a yargs instance that may already
      have failed: the command reports the missing parameter, and the message
      reaches the output only if nothing was shown before. */
  method InvokeCreateWithoutName(yargs: Parser, app: Category, widgets: Category, create: Command)
      returns (missing: Outcome)
    requires Ancestry(create.parent, [widgets, app]) && create.params == "<name>"
    modifies yargs
    ensures missing == Fail("Parameter `name` is required.")
    ensures old(yargs.hasShownHelpScreen) ==> yargs.printed == old(yargs.printed)
    ensures !old(yargs.hasShownHelpScreen) ==> yargs.printed == old(yargs.printed) + [missing.message]
  {
    var argv := new Argv([Str("widgets"), Str("create")], ["_", "$0"]);
    ReservedKeysKnown(yargs.registry);
    NameGrammar();
    MissingRequiredRejected("name", argv.positional, 3);
    missing := create.Run(yargs, argv, [widgets, app]);
  }

  /** Below `$`, the message for `bogus` names the words the user typed. */
  lemma BogusMessage(app: Category, widgets: Category)
    requires Ancestry(widgets.parent, [app]) && widgets.Path([app]) == ["$", "widgets"]
    ensures widgets.NoSuchCommandMessage([app], "bogus") == "No such command `widgets bogus`"
  {
    assert widgets.Path([app])[1..] == ["widgets"];
  }

  /** `$ widgets bogus`: the category reports the unknown name and, on a fresh
      yargs instance, shows that message. */
  method InvokeBogus(yargs: Parser, app: Category, widgets: Category) returns (bogus: Outcome)
    requires Ancestry(widgets.parent, [app]) && widgets.Path([app]) == ["$", "widgets"]
    requires "bogus" !in widgets.commands
    modifies yargs
    ensures bogus == Fail("No such command `widgets bogus`")
    ensures yargs.hasShownHelpScreen
    ensures !old(yargs.hasShownHelpScreen) ==> yargs.printed == old(yargs.printed) + [bogus.message]
  {
    var argv := new Argv([Str("widgets"), Str("bogus")], ["_", "$0"]);
    BogusMessage(app, widgets);
    bogus := widgets.Run(yargs, argv, [app]);
  }

  /** `$ widgets bogus`, then `$ widgets create` on the same yargs instance: two
      failures, one help screen, the first message only. */
  method InvokeBogusThenMissing() returns (bogus: Outcome, missing: Outcome, printed: seq<string>)
    ensures bogus == Fail("No such command `widgets bogus`")
    ensures missing == Fail("Parameter `name` is required.")
    ensures printed == ["No such command `widgets bogus`"]
  {
    var app, widgets, create := BuildWidgets();
    var yargs := new Parser(Registry(map[], {}, {}));
    bogus := InvokeBogus(yargs, app, widgets);
    missing := InvokeCreateWithoutName(yargs, app, widgets, create);
    printed := yargs.printed;
  }
}
