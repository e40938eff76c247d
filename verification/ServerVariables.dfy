/** `GetServerVariable`: the ALL_RAW block printer and a parser for its format. */
module ServerVariables {
  import opened Text

  datatype Variable = Variable(name: string, value: string)

  const NUL := '\0'

  // ----- the block format -----

  function Entry(v: Variable): string {
    v.name + "=" + v.value + [NUL]
  }

  /** All entries in order, closed by an empty entry. */
  function Block(env: seq<Variable>): string {
    if env == [] then [NUL] else Entry(env[0]) + Block(env[1..])
  }

  function Capacity(env: seq<Variable>): nat {
    if env == [] then 1 else |env[0].name| + 1 + |env[0].value| + 1 + Capacity(env[1..])
  }

  /** The ALL_RAW branch: a sizing loop, then a printing loop over the parallel name and value lists. */
  method AllRaw(envName: seq<string>, envValue: seq<string>, ghost env: seq<Variable>) returns (res: string, size: int)
    requires |envName| == |envValue| == |env|
    requires forall i :: 0 <= i < |env| ==> env[i] == Variable(envName[i], envValue[i])
    ensures res == Block(env)
    ensures |res| == size
  {
    size := 1;
    for i := 0 to |envName|
      invariant size + Capacity(env[i..]) == 1 + Capacity(env)
    {
      assert env[i..][0] == env[i] && env[i..][1..] == env[i + 1..];
      size := size + |envName[i]| + 1;
      size := size + |envValue[i]| + 1;
    }
    res := "";
    for i := 0 to |envName|
      invariant res + Block(env[i..]) == Block(env)
    {
      EntryMovesOver(res, env, i);
      res := res + envName[i];
      res := res + "=";
      res := res + envValue[i];
      res := res + [NUL];
    }
    res := res + [NUL];
    BlockLength(env);
  }

  /** Printing one entry moves it from what is still to print to what is printed. */
  lemma EntryMovesOver(printed: string, env: seq<Variable>, i: nat)
    requires i < |env|
    ensures printed + Block(env[i..]) ==
            printed + env[i].name + "=" + env[i].value + [NUL] + Block(env[i + 1..])
  {
  }

  lemma {:induction false} BlockLength(env: seq<Variable>)
    ensures |Block(env)| == Capacity(env)
  {
    if env != [] { BlockLength(env[1..]); }
  }

  // ----- reading a block back -----

  /** Position of the first `c` in `s`, or |s|. */
  function Find(s: string, c: char): (r: nat)
    ensures r <= |s|
    ensures r < |s| ==> s[r] == c
    ensures forall i :: 0 <= i < r ==> s[i] != c
  {
    if s == "" || s[0] == c then 0 else 1 + Find(s[1..], c)
  }

  /** Reads NUL-terminated name=value entries up to the empty entry; anything else is malformed. */
  function Parse(s: string): Option<seq<Variable>>
    decreases |s|
  {
    var end := Find(s, NUL);
    if end == |s| then None
    else if end == 0 then if |s| == 1 then Some([]) else None
    else
      var eq := Find(s[..end], '=');
      if eq == end then None
      else
        var rest := Parse(s[end + 1..]);
        if rest.None? then None
        else Some([Variable(s[..eq], s[eq + 1..end])] + rest.value)
  }

  /** What a caller can check of the environment: no '=' or NUL in a name, no NUL in a value. */
  predicate Printable(v: Variable) {
    '=' !in v.name && NUL !in v.name && NUL !in v.value
  }

  lemma FindInConcat(a: string, c: char, b: string)
    requires c !in a
    ensures Find(a + [c] + b, c) == |a|
  {
    var s := a + [c] + b;
    assert s[|a|] == c;
    assert forall i :: 0 <= i < |a| ==> s[i] == a[i] && s[i] != c;
  }

  lemma ParseEntry(v: Variable, tail: string)
    requires Printable(v)
    ensures Parse(Entry(v) + tail) ==
            if Parse(tail).None? then None else Some([v] + Parse(tail).value)
  {
    var text := v.name + "=" + v.value;
    var s := Entry(v) + tail;
    assert s == text + [NUL] + tail;
    FindInConcat(text, NUL, tail);
    assert s[..|text|] == v.name + ['='] + v.value;
    FindInConcat(v.name, '=', v.value);
    assert s[|text| + 1..] == tail;
    assert s[..|v.name|] == v.name && s[|v.name| + 1..|text|] == v.value;
  }

  lemma {:induction false} PrintableBlockParses(env: seq<Variable>)
    requires forall v <- env :: Printable(v)
    ensures Parse(Block(env)) == Some(env)
  {
    if env != [] {
      PrintableBlockParses(env[1..]);
      ParseEntry(env[0], Block(env[1..]));
      assert [env[0]] + env[1..] == env;
    }
  }

  lemma {:induction false} ParsedIsPrintable(s: string)
    requires Parse(s).Some?
    ensures forall v <- Parse(s).value :: Printable(v)
    decreases |s|
  {
    var end := Find(s, NUL);
    if end != 0 {
      ParsedIsPrintable(s[end + 1..]);
    }
  }

  /** What the reader accepts is the block of what it returns. */
  lemma {:induction false} ParsedIsBlock(s: string)
    requires Parse(s).Some?
    ensures s == Block(Parse(s).value)
    decreases |s|
  {
    var end := Find(s, NUL);
    if end == 0 {
      assert s == [NUL];
    } else {
      var eq, rest := Find(s[..end], '='), s[end + 1..];
      ParsedIsBlock(rest);
      EntryAt(s, eq, end);
      BlockOfOneMore(Variable(s[..eq], s[eq + 1..end]), Parse(rest).value);
    }
  }

  lemma EntryAt(s: string, eq: nat, end: nat)
    requires eq < end < |s| && s[eq] == '=' && s[end] == NUL
    ensures s == Entry(Variable(s[..eq], s[eq + 1..end])) + s[end + 1..]
  {
  }

  lemma BlockOfOneMore(v: Variable, env: seq<Variable>)
    ensures Block([v] + env) == Entry(v) + Block(env)
  {
    assert ([v] + env)[1..] == env;
  }

  /** The reader and the printer are inverse: a text reads as an environment exactly when it is its block and every
      variable is printable. */
  lemma ReadsOnlyBlocks(s: string, env: seq<Variable>)
    ensures Parse(s) == Some(env) <==>
            s == Block(env) && forall v <- env :: '=' !in v.name && '\0' !in v.name && '\0' !in v.value
  {
    if Parse(s) == Some(env) {
      ParsedIsBlock(s);
    }
    BlockRoundTrip(env);
  }

  /** The block can be read back to the environment it came from exactly when every variable is printable: no '='
      or NUL in its name, no NUL in its value. */
  lemma BlockRoundTrip(env: seq<Variable>)
    ensures Parse(Block(env)) == Some(env) <==>
            forall v <- env :: '=' !in v.name && '\0' !in v.name && '\0' !in v.value
  {
    if Parse(Block(env)) == Some(env) {
      ParsedIsPrintable(Block(env));
    }
    if forall v <- env :: Printable(v) {
      PrintableBlockParses(env);
    }
  }
}
