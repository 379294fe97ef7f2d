/** `checkForUnknownArguments`: a permissive replacement for yargs' strict mode
    that reads the registry as it stands after every `setup` hook and accepts
    the `--no-<flag>` spelling of a negated boolean. */
module UnknownArgs {
  import opened Values
  import opened Context

  /** `aliasLookup.hasOwnProperty(s)` once the lookup is built: `s` appears in
      the alias list of some canonical flag. */
  ghost predicate IsAlias(aliases: map<string, seq<string>>, s: string)
  {
    exists k :: k in aliases && s in aliases[k]
  }

  /** A parsed key the check lets through. */
  ghost predicate Known(reg: Registry, key: string)
  {
    || key == "$0" || key == "_" || key == "params"
    || key in reg.descriptions
    || key in reg.demanded
    || IsAlias(reg.aliases, "no-" + key)
    || IsAlias(reg.aliases, key)
  }

  /** The keys the check collects, in the order `keys` presents them. */
  ghost function UnknownKeys(reg: Registry, keys: seq<string>): seq<string>
  {
    if keys == [] then []
    else
      var last := keys[|keys| - 1];
      UnknownKeys(reg, keys[..|keys| - 1]) + (if Known(reg, last) then [] else [last])
  }

  /** A key is reported exactly when it was parsed and none of the exemptions hold. */
  lemma {:induction false} UnknownKeysExactly(reg: Registry, keys: seq<string>, x: string)
    ensures x in UnknownKeys(reg, keys) <==> x in keys && !Known(reg, x)
  {
    if keys != [] {
      var init := keys[..|keys| - 1];
      UnknownKeysExactly(reg, init, x);
      assert keys == init + [keys[|keys| - 1]];
    }
  }

  /** Collecting distributes over concatenation: the report keeps encounter order. */
  lemma {:induction false} UnknownKeysConcat(reg: Registry, k1: seq<string>, k2: seq<string>)
    ensures UnknownKeys(reg, k1 + k2) == UnknownKeys(reg, k1) + UnknownKeys(reg, k2)
  {
    if k2 == [] {
      assert k1 + k2 == k1;
    } else {
      var init := k2[..|k2| - 1];
      assert (k1 + k2)[..|k1 + k2| - 1] == k1 + init;
      UnknownKeysConcat(reg, k1, init);
    }
  }

  /** The negated-flag exemption: `verbose` is accepted when `no-verbose` is an alias. */
  lemma NegatedFlagIsKnown(reg: Registry, key: string, canonical: string)
    requires canonical in reg.aliases && "no-" + key in reg.aliases[canonical]
    ensures UnknownKeys(reg, [key]) == []
  {
    assert IsAlias(reg.aliases, "no-" + key);
    assert [key][..0] == [];
  }

  /** The keys yargs always puts into `argv` are never reported, whatever is registered. */
  lemma ReservedKeysKnown(reg: Registry)
    ensures UnknownKeys(reg, ["_", "$0"]) == []
  {
    assert UnknownKeys(reg, ["_"]) == [] by { assert ["_"][..0] == []; }
    assert ["_", "$0"][..1] == ["_"];
  }

  /** With only `foo` described, `bar` is the one unknown key; the reserved keys pass. */
  lemma OneUnknownKey()
    ensures UnknownKeys(Registry(map[], {"foo"}, {}), ["_", "$0", "foo", "bar"]) == ["bar"]
  {
    var reg := Registry(map[], {"foo"}, {});
    assert !IsAlias(reg.aliases, "bar") && !IsAlias(reg.aliases, "no-bar");
    assert UnknownKeys(reg, ["_"]) == [] by { assert ["_"][..0] == []; }
    assert UnknownKeys(reg, ["_", "$0"]) == [] by { assert ["_", "$0"][..1] == ["_"]; }
    assert UnknownKeys(reg, ["_", "$0", "foo"]) == [] by { assert ["_", "$0", "foo"][..2] == ["_", "$0"]; }
    assert ["_", "$0", "foo", "bar"][..3] == ["_", "$0", "foo"];
  }

  /** With nothing registered, every non-reserved key is reported, in key order. */
  lemma AllKeysUnknownInOrder()
    ensures UnknownKeys(Registry(map[], {}, {}), ["_", "foo", "bar", "baz"]) == ["foo", "bar", "baz"]
  {
    var reg := Registry(map[], {}, {});
    assert !IsAlias(reg.aliases, "foo") && !IsAlias(reg.aliases, "no-foo");
    assert !IsAlias(reg.aliases, "bar") && !IsAlias(reg.aliases, "no-bar");
    assert !IsAlias(reg.aliases, "baz") && !IsAlias(reg.aliases, "no-baz");
    assert UnknownKeys(reg, ["_"]) == [] by { assert ["_"][..0] == []; }
    assert UnknownKeys(reg, ["_", "foo"]) == ["foo"] by { assert ["_", "foo"][..1] == ["_"]; }
    assert UnknownKeys(reg, ["_", "foo", "bar"]) == ["foo", "bar"] by { assert ["_", "foo", "bar"][..2] == ["_", "foo"]; }
    assert ["_", "foo", "bar", "baz"][..3] == ["_", "foo", "bar"];
  }

  /** Throws the singular message for one unknown key and the comma-joined plural
      message for several, in key order. */
  method CheckForUnknownArguments(yargs: Parser, argv: Argv) returns (o: Outcome)
    ensures var u := UnknownKeys(yargs.registry, argv.keys);
      && (|u| == 0 ==> o == Pass)
      && (|u| == 1 ==> o == Fail("Unknown argument: " + u[0]))
      && (|u| > 1 ==> o == Fail("Unknown arguments: " + Join(u, ", ")))
  {
    var reg := yargs.registry;
    var aliases := reg.aliases;
    var lookup: map<string, string> := map[];
    var pending := aliases.Keys;
    while pending != {}
      invariant pending <= aliases.Keys
      invariant forall s :: s in lookup <==> exists k :: k in aliases && k !in pending && s in aliases[k]
      invariant forall s :: s in lookup ==> lookup[s] in aliases && s in aliases[lookup[s]]
      decreases |pending|
    {
      var k :| k in pending;
      var list := aliases[k];
      var j := 0;
      while j < |list|
        invariant 0 <= j <= |list|
        invariant forall s :: s in lookup <==>
          (exists k' :: k' in aliases && k' !in pending && s in aliases[k']) || s in list[..j]
        invariant forall s :: s in lookup ==> lookup[s] in aliases && s in aliases[lookup[s]]
      {
        lookup := lookup[list[j] := k];
        assert list[..j + 1] == list[..j] + [list[j]];
        j := j + 1;
      }
      assert list[..j] == list;
      pending := pending - {k};
    }

    var keys := argv.keys;
    var unknown: seq<string> := [];
    var i := 0;
    while i < |keys|
      invariant 0 <= i <= |keys|
      invariant unknown == UnknownKeys(reg, keys[..i])
    {
      var key := keys[i];
      assert keys[..i + 1][..i] == keys[..i];
      assert IsAlias(aliases, key) <==> key in lookup;
      assert IsAlias(aliases, "no-" + key) <==> "no-" + key in lookup;
      if key != "$0" && key != "_" && key != "params"
        && key !in reg.descriptions
        && key !in reg.demanded
        && "no-" + key !in lookup
        && key !in lookup
      {
        unknown := unknown + [key];
      }
      i := i + 1;
    }
    assert keys[..i] == keys;

    if |unknown| == 1 {
      o := Fail("Unknown argument: " + unknown[0]);
    } else if |unknown| > 1 {
      o := Fail("Unknown arguments: " + Join(unknown, ", "));
    } else {
      o := Pass;
    }
  }
}
