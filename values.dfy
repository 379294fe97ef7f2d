/** Plain values shared by the whole model: optional values, the outcome of a
    yargs `check` callback, the entries of `argv._`, and the string joins the
    messages and usage lines are built with. */
module Values {

  datatype Option<+T> = None | Some(value: T)

  /** What a `check` callback does: return true, or throw an Error with a message. */
  datatype Outcome = Pass | Fail(message: string)

  /** An entry of `argv._`. yargs hands positional words over as strings, or as
      numbers when they look numeric; only integral numbers are modelled. */
  datatype Positional = Str(s: string) | Num(n: int)

  /** `arr[i]` in JavaScript: `undefined` (None) outside the array. */
  function At(s: seq<Positional>, i: int): (r: Option<Positional>)
    ensures r.Some? <==> 0 <= i < |s|
    ensures r.Some? ==> r.value == s[i]
  {
    if 0 <= i < |s| then Some(s[i]) else None
  }

  /** JavaScript truthiness of a looked-up entry: `undefined`, the empty string
      and the number 0 are falsy. */
  predicate Truthy(v: Option<Positional>)
  {
    match v
    case None => false
    case Some(Str(s)) => s != ""
    case Some(Num(n)) => n != 0
  }

  /** Decimal digits of a natural number, as JavaScript's `String(n)` writes it. */
  function Digits(n: nat): (r: string)
    ensures |r| > 0
    ensures forall i :: 0 <= i < |r| ==> '0' <= r[i] <= '9'
    decreases n
  {
    var d := ['0' + (n % 10) as char];
    if n < 10 then d else Digits(n / 10) + d
  }

  /** `String(v)`: the text a positional entry becomes when used as an object
      key or concatenated into a message. */
  function Text(v: Positional): (r: string)
    ensures v.Num? ==> |r| > 0 && ' ' !in r
    ensures v.Str? ==> r == v.s
  {
    match v
    case Str(s) => s
    case Num(n) => if n < 0 then "-" + Digits(-n) else Digits(n)
  }

  /** `xs.join(sep)`. */
  function Join(xs: seq<string>, sep: string): string
  {
    if |xs| == 0 then ""
    else if |xs| == 1 then xs[0]
    else xs[0] + sep + Join(xs[1..], sep)
  }

  /** Splitting at every occurrence of `sep` (empty pieces kept); the inverse of
      `Join` with a one-character separator. */
  function Split(s: string, sep: char): (r: seq<string>)
    ensures |r| > 0
  {
    if s == [] then [""]
    else
      var rest := Split(s[1..], sep);
      if s[0] == sep then [""] + rest else [[s[0]] + rest[0]] + rest[1..]
  }

  lemma {:induction false} SplitWithout(s: string, sep: char)
    requires sep !in s
    ensures Split(s, sep) == [s]
  {
    if s != [] {
      SplitWithout(s[1..], sep);
      assert [s[0]] + s[1..] == s;
    }
  }

  /** A separator character is exactly a cut between two split pieces. */
  lemma {:induction false} SplitAround(x: string, sep: char, y: string)
    ensures Split(x + [sep] + y, sep) == Split(x, sep) + Split(y, sep)
  {
    if x == [] {
      assert [] + [sep] + y == [sep] + y;
      assert ([sep] + y)[1..] == y;
    } else {
      assert (x + [sep] + y)[1..] == x[1..] + [sep] + y;
      SplitAround(x[1..], sep, y);
    }
  }

  lemma {:induction false} JoinAppend(xs: seq<string>, sep: string, y: string)
    requires |xs| > 0
    ensures Join(xs + [y], sep) == Join(xs, sep) + sep + y
  {
    if |xs| > 1 {
      assert (xs + [y])[1..] == xs[1..] + [y];
      JoinAppend(xs[1..], sep, y);
    }
  }

  lemma Regroup(a: string, b: string, c: string, d: string)
    ensures a + b + " " + c + d == a + (b + " " + c) + d
  {
  }

  /** A space-led word followed by an optional space-led tail is one space
      followed by the word and the tail. */
  lemma SpaceThenWords(head: string, word: string, tail: string)
    ensures head + ([' '] + word) + (if tail != "" then [' '] + tail else "")
      == head + [' '] + (if tail == "" then word else word + [' '] + tail)
  {
  }

  /** Appending a word after a non-empty join extends the join. */
  lemma JoinThenWord(pre: string, below: seq<string>, word: string, post: string)
    requires |below| > 0
    ensures pre + Join(below, " ") + " " + word + post == pre + Join(below + [word], " ") + post
  {
    JoinAppend(below, " ", word);
    Regroup(pre, Join(below, " "), word, post);
  }

  lemma EmptyJoinThenWord(pre: string, below: seq<string>, word: string, post: string)
    requires |below| == 0
    ensures pre + Join(below, " ") + " " + word + post == pre + " " + word + post
  {
    assert Join(below, " ") == "";
  }

  /** Splitting a join gives back its pieces when no piece holds the separator. */
  lemma {:induction false} SplitJoin(xs: seq<string>, sep: char)
    requires |xs| > 0
    requires forall i :: 0 <= i < |xs| ==> sep !in xs[i]
    ensures Split(Join(xs, [sep]), sep) == xs
  {
    if |xs| == 1 {
      SplitWithout(xs[0], sep);
    } else {
      SplitJoin(xs[1..], sep);
      SplitWithout(xs[0], sep);
      SplitAround(xs[0], sep, Join(xs[1..], [sep]));
    }
  }
}
