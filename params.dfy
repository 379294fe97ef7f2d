/** `parseParams`: the positional-parameter grammar of a command. A grammar
    such as "<name> [size]" declares the values that follow the command path
    in `argv._`; `<...>` tokens are required, `[...]` tokens optional, and no
    required token may follow an optional one. */
module Params {
  import opened Values
  import opened Context

  datatype Token = Token(required: bool, name: string)

  const OrderMessage := "Optional parameters must be specified last"

  function RequiredMessage(name: string): string
  {
    "Parameter `" + name + "` is required."
  }

  /** The bracket that closes a token opened by `open`. */
  function Closer(open: char): char
  {
    if open == '<' then '>' else ']'
  }

  /** A token the scanner can produce: a non-empty name without its closing bracket. */
  predicate WellFormed(t: Token)
  {
    |t.name| > 0 && Closer(if t.required then '<' else '[') !in t.name
  }

  /** Index of the first `c` in `s`, if any. */
  function IndexOf(s: string, c: char): (r: Option<nat>)
    ensures r.Some? ==> r.value < |s| && s[r.value] == c && c !in s[..r.value]
    ensures r.None? ==> c !in s
  {
    if s == [] then None
    else if s[0] == c then Some(0)
    else
      match IndexOf(s[1..], c)
      case None => None
      case Some(i) => assert s[..i + 1] == [s[0]] + s[1..][..i]; Some(i + 1)
  }

  /** Length of the match of `<[^>]+>|\[[^\]]+\]` anchored at the start of `g`:
      an opening bracket, one or more characters other than its closer, then the
      closer. */
  function MatchLength(g: string): (r: Option<nat>)
    ensures r.Some? ==> && 3 <= r.value <= |g|
                        && (g[0] == '<' || g[0] == '[')
                        && g[r.value - 1] == Closer(g[0])
                        && Closer(g[0]) !in g[1..r.value - 1]
    ensures r.None? && |g| > 0 && (g[0] == '<' || g[0] == '[') ==>
              Closer(g[0]) !in g[1..] || g[1] == Closer(g[0])
  {
    if |g| > 0 && (g[0] == '<' || g[0] == '[') then
      match IndexOf(g[1..], Closer(g[0]))
      case Some(i) =>
        assert g[1..][..i] == g[1..i + 1];
        if i >= 1 then Some(i + 2) else None
      case None => None
    else None
  }

  /** The tokens a global `String.prototype.replace` with the grammar regex
      visits, left to right; after a match the scan resumes behind it. */
  function Scan(g: string): (ts: seq<Token>)
    ensures forall i :: 0 <= i < |ts| ==> WellFormed(ts[i])
    decreases |g|
  {
    if g == [] then []
    else
      match MatchLength(g)
      case Some(n) => [Token(g[0] == '<', g[1..n - 1])] + Scan(g[n..])
      case None => Scan(g[1..])
  }

  /** How a token is written in a grammar. */
  function Show(t: Token): string
  {
    if t.required then "<" + t.name + ">" else "[" + t.name + "]"
  }

  /** A grammar string: the tokens written out, separated by single spaces. */
  function Render(ts: seq<Token>): string
  {
    if |ts| == 0 then ""
    else if |ts| == 1 then Show(ts[0])
    else Show(ts[0]) + " " + Render(ts[1..])
  }

  lemma IndexOfFirst(a: string, c: char, b: string)
    requires c !in a
    ensures IndexOf(a + [c] + b, c) == Some(|a|)
  {
    var s := a + [c] + b;
    assert s[|a|] == c;
  }

  /** A well-formed token at the head of the input is scanned as exactly itself. */
  lemma ScanShow(t: Token, rest: string)
    requires WellFormed(t)
    ensures Scan(Show(t) + rest) == [t] + Scan(rest)
  {
    var g := Show(t) + rest;
    var close := Closer(g[0]);
    assert g[1..] == t.name + [close] + rest;
    IndexOfFirst(t.name, close, rest);
    assert MatchLength(g) == Some(|t.name| + 2);
    assert g[1..|t.name| + 1] == t.name;
    assert g[|t.name| + 2..] == rest;
  }

  /** A space between tokens is skipped. */
  lemma ScanSpace(rest: string)
    ensures Scan(" " + rest) == Scan(rest)
  {
    assert MatchLength(" " + rest) == None;
    assert (" " + rest)[1..] == rest;
  }

  /** Scanning a rendered grammar gives back its tokens. */
  lemma {:induction false} ScanRender(ts: seq<Token>)
    requires forall i :: 0 <= i < |ts| ==> WellFormed(ts[i])
    ensures Scan(Render(ts)) == ts
  {
    if |ts| == 1 {
      ScanShow(ts[0], "");
      assert Show(ts[0]) + "" == Show(ts[0]);
    } else if |ts| > 1 {
      var rest := Render(ts[1..]);
      assert Render(ts) == Show(ts[0]) + (" " + rest);
      ScanShow(ts[0], " " + rest);
      ScanSpace(rest);
      ScanRender(ts[1..]);
      assert [ts[0]] + ts[1..] == ts;
    }
  }

  /** Some token before index `k` is optional. */
  ghost predicate OptionalBefore(ts: seq<Token>, k: nat)
    requires k <= |ts|
  {
    exists j :: 0 <= j < k && !ts[j].required
  }

  /** The value the token at index `k` reads: the k-th positional behind the
      command path (index `|path| - 2 + required + optional` with the counts
      including this token). */
  function ValueOf(positional: seq<Positional>, pathLength: nat, k: nat): Option<Positional>
  {
    At(positional, pathLength - 1 + k)
  }

  /** The token at `k` makes the parse throw: it is required and either follows
      an optional token or reads a falsy value. */
  ghost predicate Rejects(ts: seq<Token>, positional: seq<Positional>, pathLength: nat, k: nat)
    requires k < |ts|
  {
    ts[k].required && (OptionalBefore(ts, k) || !Truthy(ValueOf(positional, pathLength, k)))
  }

  /** The first rejected index at or after `from`, or `|ts|` when there is none. */
  ghost function FirstRejected(ts: seq<Token>, positional: seq<Positional>, pathLength: nat, from: nat): (k: nat)
    requires from <= |ts|
    ensures from <= k <= |ts|
    ensures k < |ts| ==> Rejects(ts, positional, pathLength, k)
    ensures forall j :: from <= j < k ==> !Rejects(ts, positional, pathLength, j)
    decreases |ts| - from
  {
    if from == |ts| then from
    else if Rejects(ts, positional, pathLength, from) then from
    else FirstRejected(ts, positional, pathLength, from + 1)
  }

  /** The `params` object after storing each token's value in order; a later
      token with the same name overwrites an earlier one. */
  ghost function Stored(ts: seq<Token>, positional: seq<Positional>, pathLength: nat): map<string, Option<Positional>>
  {
    if ts == [] then map[]
    else
      var k := |ts| - 1;
      Stored(ts[..k], positional, pathLength)[ts[k].name := ValueOf(positional, pathLength, k)]
  }

  lemma OptionalBeforeStep(ts: seq<Token>, i: nat)
    requires i < |ts|
    ensures OptionalBefore(ts, i + 1) <==> OptionalBefore(ts, i) || !ts[i].required
  {
    if !ts[i].required {
      assert 0 <= i < i + 1 && !ts[i].required;
    }
  }

  lemma StoredStep(ts: seq<Token>, positional: seq<Positional>, pathLength: nat, i: nat)
    requires i < |ts|
    ensures Stored(ts[..i + 1], positional, pathLength)
      == Stored(ts[..i], positional, pathLength)[ts[i].name := ValueOf(positional, pathLength, i)]
  {
    assert ts[..i + 1][..i] == ts[..i];
  }

  /** What the parse throws, if anything: the error of the first rejected token. */
  ghost function ParamsOutcome(ts: seq<Token>, positional: seq<Positional>, pathLength: nat): Outcome
  {
    var k := FirstRejected(ts, positional, pathLength, 0);
    if k == |ts| then Pass
    else if OptionalBefore(ts, k) then Fail(OrderMessage)
    else Fail(RequiredMessage(ts[k].name))
  }

  /** An index with no rejection before it that is rejected itself, or is the
      end, is the first rejected one. */
  lemma FirstRejectedIs(ts: seq<Token>, positional: seq<Positional>, pathLength: nat, i: nat)
    requires i <= |ts|
    requires forall j :: 0 <= j < i ==> !Rejects(ts, positional, pathLength, j)
    requires i < |ts| ==> Rejects(ts, positional, pathLength, i)
    ensures FirstRejected(ts, positional, pathLength, 0) == i
    ensures ParamsOutcome(ts, positional, pathLength) ==
      if i == |ts| then Pass
      else if OptionalBefore(ts, i) then Fail(OrderMessage)
      else Fail(RequiredMessage(ts[i].name))
  {
  }

  /** The parse succeeds exactly when required tokens all come first and each reads a truthy value. */
  lemma ParamsAcceptedExactly(ts: seq<Token>, positional: seq<Positional>, pathLength: nat)
    ensures ParamsOutcome(ts, positional, pathLength) == Pass <==>
      forall k :: 0 <= k < |ts| && ts[k].required ==>
        !OptionalBefore(ts, k) && Truthy(ValueOf(positional, pathLength, k))
  {
    var k := FirstRejected(ts, positional, pathLength, 0);
    if k < |ts| {
      assert Rejects(ts, positional, pathLength, k);
      assert ParamsOutcome(ts, positional, pathLength) != Pass;
      assert !(!OptionalBefore(ts, k) && Truthy(ValueOf(positional, pathLength, k)));
    } else {
      forall j | 0 <= j < |ts| && ts[j].required
        ensures !OptionalBefore(ts, j) && Truthy(ValueOf(positional, pathLength, j))
      {
        assert !Rejects(ts, positional, pathLength, j);
      }
    }
  }

  /** Every token name is a key of `params`, holding the value of the last token of that name. */
  lemma {:induction false} StoredLookup(ts: seq<Token>, positional: seq<Positional>, pathLength: nat, j: nat)
    requires j < |ts|
    requires forall i :: j < i < |ts| ==> ts[i].name != ts[j].name
    ensures ts[j].name in Stored(ts, positional, pathLength)
    ensures Stored(ts, positional, pathLength)[ts[j].name] == ValueOf(positional, pathLength, j)
  {
    var k := |ts| - 1;
    if j < k {
      StoredLookup(ts[..k], positional, pathLength, j);
    }
  }

  /** `params` holds no key other than the names of the tokens stored. */
  lemma {:induction false} StoredKeys(ts: seq<Token>, positional: seq<Positional>, pathLength: nat, name: string)
    requires name in Stored(ts, positional, pathLength)
    ensures exists j :: 0 <= j < |ts| && ts[j].name == name
  {
    var k := |ts| - 1;
    if ts[k].name != name {
      StoredKeys(ts[..k], positional, pathLength, name);
      var j :| 0 <= j < k && ts[..k][j].name == name;
      assert ts[j].name == name;
    }
  }

  /** "<a> [b]" parses whenever `a` reads a truthy value; `b` may be absent. */
  lemma RequiredThenOptionalAccepted(a: string, b: string, positional: seq<Positional>, pathLength: nat)
    requires WellFormed(Token(true, a)) && WellFormed(Token(false, b))
    requires Truthy(ValueOf(positional, pathLength, 0))
    ensures var ts := Scan(Show(Token(true, a)) + " " + Show(Token(false, b)));
      && ParamsOutcome(ts, positional, pathLength) == Pass
      && Stored(ts, positional, pathLength) ==
           map[a := ValueOf(positional, pathLength, 0), b := ValueOf(positional, pathLength, 1)]
  {
    var ts := [Token(true, a), Token(false, b)];
    assert Scan(Show(ts[0]) + " " + Show(ts[1])) == ts by {
      assert ts[1..] == [ts[1]];
      ScanRender(ts);
    }
    assert !Rejects(ts, positional, pathLength, 0);
    assert !Rejects(ts, positional, pathLength, 1);
    FirstRejectedIs(ts, positional, pathLength, 2);
    assert ts[..1][..0] == [];
    assert Stored(ts[..1], positional, pathLength) == map[a := ValueOf(positional, pathLength, 0)];
  }

  /** "[a] <b>" always fails on the ordering rule, after storing `a`. */
  lemma OptionalBeforeRequiredRejected(a: string, b: string, positional: seq<Positional>, pathLength: nat)
    requires WellFormed(Token(false, a)) && WellFormed(Token(true, b))
    ensures var ts := Scan(Show(Token(false, a)) + " " + Show(Token(true, b)));
      && ParamsOutcome(ts, positional, pathLength) == Fail(OrderMessage)
      && Stored(ts[..FirstRejected(ts, positional, pathLength, 0)], positional, pathLength)
           == map[a := ValueOf(positional, pathLength, 0)]
  {
    var ts := [Token(false, a), Token(true, b)];
    assert Scan(Show(ts[0]) + " " + Show(ts[1])) == ts by {
      assert ts[1..] == [ts[1]];
      ScanRender(ts);
    }
    assert !Rejects(ts, positional, pathLength, 0);
    assert OptionalBefore(ts, 1) by { assert !ts[0].required; }
    FirstRejectedIs(ts, positional, pathLength, 1);
    assert ts[..1][..0] == [];
    assert Stored(ts[..1], positional, pathLength) == map[a := ValueOf(positional, pathLength, 0)];
    assert ParamsOutcome(ts, positional, pathLength) == Fail(OrderMessage);
  }

  /** "<id>" with nothing behind the command path fails naming `id`; so does a
      numeric 0 (JavaScript falsiness), while the string "0" passes. */
  lemma MissingRequiredRejected(id: string, positional: seq<Positional>, pathLength: nat)
    requires WellFormed(Token(true, id))
    ensures var ts := Scan(Show(Token(true, id)));
      var v := ValueOf(positional, pathLength, 0);
      && ((v == None || v == Some(Num(0)) || v == Some(Str(""))) ==>
            ParamsOutcome(ts, positional, pathLength) == Fail(RequiredMessage(id)))
      && (v == Some(Str("0")) ==> ParamsOutcome(ts, positional, pathLength) == Pass)
  {
    var ts := [Token(true, id)];
    assert Scan(Show(ts[0])) == ts by {
      ScanRender(ts);
    }
    assert !OptionalBefore(ts, 0);
    if !Truthy(ValueOf(positional, pathLength, 0)) {
      FirstRejectedIs(ts, positional, pathLength, 0);
    } else {
      FirstRejectedIs(ts, positional, pathLength, 1);
    }
  }

  /** "<id>" with a truthy value behind the command path parses and stores it
      as the only parameter. */
  lemma PresentRequiredStored(id: string, positional: seq<Positional>, pathLength: nat)
    requires WellFormed(Token(true, id))
    requires Truthy(ValueOf(positional, pathLength, 0))
    ensures var ts := Scan(Show(Token(true, id)));
      && ParamsOutcome(ts, positional, pathLength) == Pass
      && Stored(ts[..FirstRejected(ts, positional, pathLength, 0)], positional, pathLength)
           == map[id := ValueOf(positional, pathLength, 0)]
  {
    var ts := [Token(true, id)];
    assert Scan(Show(ts[0])) == ts by {
      ScanRender(ts);
    }
    assert !OptionalBefore(ts, 0);
    FirstRejectedIs(ts, positional, pathLength, 1);
    assert ts[..1] == ts && ts[..0] == [];
  }

  /** Resets `argv.params`, then walks the tokens with the two counters, storing
      each value until a token is rejected; what was stored before stays. */
  method ParseParams(argv: Argv, grammar: string, pathLength: nat) returns (o: Outcome)
    modifies argv
    ensures argv.positional == old(argv.positional)
    ensures argv.keys == if "params" in old(argv.keys) then old(argv.keys) else old(argv.keys) + ["params"]
    ensures o == ParamsOutcome(Scan(grammar), argv.positional, pathLength)
    ensures var ts := Scan(grammar);
      argv.params == Stored(ts[..FirstRejected(ts, argv.positional, pathLength, 0)], argv.positional, pathLength)
  {
    var ts := Scan(grammar);
    ghost var positional := argv.positional;
    var required, optional := 0, 0;
    if "params" !in argv.keys {
      argv.keys := argv.keys + ["params"];
    }
    ghost var keys := argv.keys;
    argv.params := map[];
    var i := 0;
    while i < |ts|
      invariant 0 <= i <= |ts|
      invariant argv.positional == positional && argv.keys == keys
      invariant required + optional == i
      invariant optional > 0 <==> OptionalBefore(ts, i)
      invariant forall j :: 0 <= j < i ==> !Rejects(ts, positional, pathLength, j)
      invariant argv.params == Stored(ts[..i], positional, pathLength)
    {
      var t := ts[i];
      if t.required && optional > 0 {
        o := Fail(OrderMessage);
        FirstRejectedIs(ts, positional, pathLength, i);
        return;
      }
      OptionalBeforeStep(ts, i);
      if t.required {
        required := required + 1;
      } else {
        optional := optional + 1;
      }
      var value := At(argv.positional, pathLength - 2 + required + optional);
      assert value == ValueOf(positional, pathLength, i);
      if t.required && !Truthy(value) {
        o := Fail(RequiredMessage(t.name));
        FirstRejectedIs(ts, positional, pathLength, i);
        return;
      }
      assert !Rejects(ts, positional, pathLength, i);
      argv.params := argv.params[t.name := value];
      StoredStep(ts, positional, pathLength, i);
      i := i + 1;
    }
    assert ts[..i] == ts;
    FirstRejectedIs(ts, positional, pathLength, i);
    o := Pass;
  }
}
