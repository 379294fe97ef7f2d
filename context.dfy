/** The two yargs objects the layer works against, reduced to the state it
    reads and writes. yargs itself (flag parsing, help rendering, command
    registration) is not part of this model. */
module Context {
  import opened Values

  /** The option registry yargs holds once every `setup` hook has run. */
  datatype Registry = Registry(
    /** `yargs.parsed.aliases`: canonical flag name to its aliases. */
    aliases: map<string, seq<string>>,
    /** Keys of `yargs.getUsageInstance().getDescriptions()`. */
    descriptions: set<string>,
    /** Keys of `yargs.getDemanded()`. */
    demanded: set<string>)

  /** The yargs instance threaded through every `run`: the frozen, post-`setup`
      option registry the unknown-argument check reads, the usage text, and the
      one-shot `hasShownHelpScreen` flag with the output it guards. */
  class Parser {
    var registry: Registry
    /** Text last given to `yargs.usage`. */
    var usage: string
    var hasShownHelpScreen: bool
    /** How often `showHelp` rendered the help screen. */
    var helpScreens: nat
    /** Lines written with `console.log`, colours dropped. */
    var printed: seq<string>

    constructor (registry: Registry)
      ensures this.registry == registry
      ensures usage == "" && !hasShownHelpScreen && helpScreens == 0 && printed == []
      ensures ReportedAtMostOnce()
    {
      this.registry := registry;
      usage := "";
      hasShownHelpScreen := false;
      helpScreens := 0;
      printed := [];
    }

    /** At most one help screen and one message, and the flag says whether they were shown. */
    ghost predicate ReportedAtMostOnce()
      reads this
    {
      helpScreens <= 1 && |printed| == helpScreens && (hasShownHelpScreen <==> helpScreens == 1)
    }
  }

  /** The parsed-argument view `yargs.argv`: `argv._`, the order of its own keys
      (`Object.keys(argv)`) and the `params` object the grammar parser fills. */
  class Argv {
    var positional: seq<Positional>
    var keys: seq<string>
    var params: map<string, Option<Positional>>

    constructor (positional: seq<Positional>, keys: seq<string>)
      ensures this.positional == positional && this.keys == keys && params == map[]
    {
      this.positional := positional;
      this.keys := keys;
      params := map[];
    }
  }
}
