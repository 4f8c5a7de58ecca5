/** `parse_argv`: a command line becomes positionals and options; how it is spelled makes no difference. */
module ArgvParsing {
  import opened Patterns
  import opened OptionParsing

  datatype Argv = Argv(leaves: seq<LeafDef>, options: seq<LeafDef>) | Error(error: OptionParsing.Error)

  function Positionals(toks: seq<string>): seq<LeafDef> {
    if toks == [] then [] else [Argument("", Str(toks[0]))] + Positionals(toks[1..])
  }

  function After(found: seq<LeafDef>, r: Argv): Argv {
    if r.Argv? then r.(leaves := found + r.leaves) else r
  }

  predicate IsLong(tok: string) {
    StartsWith(tok, "--") && tok != "--"
  }

  predicate IsShort(tok: string) {
    StartsWith(tok, "-") && tok != "-" && !StartsWith(tok, "--")
  }

  function ParseArgv(toks: seq<string>, options: seq<LeafDef>, optionsFirst: bool): Argv
    decreases |toks|
  {
    if toks == [] then Argv([], options)
    else if toks[0] == "--" then Argv(Positionals(toks), options)
    else if IsLong(toks[0]) then Continue(ParseLong(toks, options, true), |toks|, optionsFirst)
    else if IsShort(toks[0]) then Continue(ParseShort(toks, options, true), |toks|, optionsFirst)
    else if optionsFirst then Argv(Positionals(toks), options)
    else After([Argument("", Str(toks[0]))], ParseArgv(toks[1..], options, optionsFirst))
  }

  function Continue(p: Parse, bound: nat, optionsFirst: bool): Argv
    requires p.Done? ==> |p.rest| < bound
    decreases bound, 0
  {
    if p.Fail? then Error(p.error) else After(p.found, ParseArgv(p.rest, p.options, optionsFirst))
  }

  // ---------- Stacks of short options ----------

  /** Whether `-c` is a known option that takes an argument. */
  predicate TakesArgument(options: seq<LeafDef>, c: char) {
    var similar := WithShort(options, ['-', c]);
    |similar| == 1 && similar[0].argcount > 0
  }

  lemma {:induction false} WithShortSnoc(options: seq<LeafDef>, o: LeafDef, name: string)
    ensures WithShort(options + [o], name) ==
            WithShort(options, name) + if o.Option? && o.short == name then [o] else []
  {
    if options == [] {
      assert options + [o] == [o] && [o][1..] == [];
      assert WithShort([o], name) == (if o.Option? && o.short == name then [o] else []) + WithShort([o][1..], name);
    } else {
      assert (options + [o])[0] == options[0] && (options + [o])[1..] == options[1..] + [o];
      WithShortSnoc(options[1..], o, name);
    }
  }

  lemma AfterTwice(a: seq<LeafDef>, b: seq<LeafDef>, r: Argv)
    ensures After(a, After(b, r)) == After(a + b, r)
  {
    if r.Argv? { assert a + (b + r.leaves) == (a + b) + r.leaves; }
  }

  lemma ShortToken(s: string)
    requires s != "" && s[0] != '-'
    ensures var tok := "-" + s; tok[1..] == s && IsShort(tok) && !IsLong(tok) && tok != "--"
  {
    var tok := "-" + s;
    assert tok[0] == '-' && tok[1] == s[0] != "--"[1];
  }

  /** The table after a flag: an unknown one joins it. */
  function Flagged(options: seq<LeafDef>, c: char): seq<LeafDef> {
    if WithShort(options, ['-', c]) == [] then options + [NewOption(['-', c], "", 0)] else options
  }

  function FlagLeaf(options: seq<LeafDef>, c: char): LeafDef {
    var similar := WithShort(options, ['-', c]);
    Valued(if similar == [] then NewOption(['-', c], "", 0) else similar[0], Empty, true)
  }

  /** What a stack leads to. */
  function AfterStack(p: Parse, optionsFirst: bool): Argv {
    if p.Fail? then Error(p.error) else After(p.found, ParseArgv(p.rest, p.options, optionsFirst))
  }

  /** A token `-s` in front is parsed as a stack. */
  lemma StackFirst(toks: seq<string>, s: string, options: seq<LeafDef>, optionsFirst: bool)
    requires s != "" && s[0] != '-' && toks != [] && toks[0] == "-" + s
    ensures ParseArgv(toks, options, optionsFirst) == AfterStack(ParseShorts(s, toks[1..], options, true), optionsFirst)
  {
    ShortToken(s);
  }

  lemma StackIs(s: string, post: seq<string>, options: seq<LeafDef>, optionsFirst: bool)
    requires s != "" && s[0] != '-'
    ensures ParseArgv(["-" + s] + post, options, optionsFirst) ==
            AfterStack(ParseShorts(s, post, options, true), optionsFirst)
  {
    var toks := ["-" + s] + post;
    assert toks[0] == "-" + s && toks[1..] == post;
    StackFirst(toks, s, options, optionsFirst);
  }

  lemma ShortsFlag(s: string, post: seq<string>, options: seq<LeafDef>)
    requires s != "" && !TakesArgument(options, s[0])
    ensures ParseShorts(s, post, options, true) ==
            if |WithShort(options, ['-', s[0]])| > 1 then Fail(OptionError)
            else Then(FlagLeaf(options, s[0]), ParseShorts(s[1..], post, Flagged(options, s[0]), true))
  {}

  /** A flag alone: then the rest of the line under the table it leaves. */
  lemma FlagAlone(c: char, post: seq<string>, options: seq<LeafDef>, optionsFirst: bool)
    requires c != '-' && !TakesArgument(options, c)
    ensures ParseArgv(["-" + [c]] + post, options, optionsFirst) ==
            if |WithShort(options, ['-', c])| > 1 then Error(OptionError)
            else After([FlagLeaf(options, c)], ParseArgv(post, Flagged(options, c), optionsFirst))
  {
    StackIs([c], post, options, optionsFirst);
    ShortsFlag([c], post, options);
    assert [c][1..] == "";
    assert [FlagLeaf(options, c)] + [] == [FlagLeaf(options, c)];
  }

  /** A flag at the head of a stack: then the rest of the stack under the table it leaves. */
  lemma FlagInStack(s: string, post: seq<string>, options: seq<LeafDef>, optionsFirst: bool)
    requires |s| >= 2 && s[0] != '-' && s[1] != '-' && !TakesArgument(options, s[0])
    ensures ParseArgv(["-" + s] + post, options, optionsFirst) ==
            if |WithShort(options, ['-', s[0]])| > 1 then Error(OptionError)
            else After([FlagLeaf(options, s[0])],
                       ParseArgv(["-" + s[1..]] + post, Flagged(options, s[0]), optionsFirst))
  {
    StackIs(s, post, options, optionsFirst);
    ShortsFlag(s, post, options);
    StackIs(s[1..], post, Flagged(options, s[0]), optionsFirst);
    var r := ParseShorts(s[1..], post, Flagged(options, s[0]), true);
    if r.Done? { AfterTwice([FlagLeaf(options, s[0])], r.found, ParseArgv(r.rest, r.options, optionsFirst)); }
  }

  lemma ShortsValue(s: string, post: seq<string>, tail: seq<string>, options: seq<LeafDef>)
    requires |s| >= 2 && TakesArgument(options, s[0]) && s[1..] != "--" && tail == [s[1..]] + post
    ensures ParseShorts(s, post, options, true) == ParseShorts([s[0]], tail, options, true)
  {
    assert tail[0] == s[1..] && tail[1..] == post;
  }

  /** A value attached to its option may be a token of its own. */
  lemma SplitValue(s: string, post: seq<string>, options: seq<LeafDef>, optionsFirst: bool)
    requires |s| >= 2 && s[0] != '-' && TakesArgument(options, s[0]) && s[1..] != "--"
    ensures ParseArgv(["-" + s] + post, options, optionsFirst) ==
            ParseArgv(["-" + [s[0]], s[1..]] + post, options, optionsFirst)
  {
    var apart := ["-" + [s[0]], s[1..]] + post;
    StackIs(s, post, options, optionsFirst);
    StackFirst(apart, [s[0]], options, optionsFirst);
    ShortsValue(s, post, apart[1..], options);
  }

  /** A stack with every flag, and the value of an option that takes one, in a token of its own. */
  function Exploded(s: string, options: seq<LeafDef>): seq<string>
    requires s != ""
  {
    if |s| == 1 then ["-" + s]
    else if TakesArgument(options, s[0]) then ["-" + [s[0]], s[1..]]
    else ["-" + [s[0]]] + Exploded(s[1..], options)
  }

  /** No flag of the stack is a dash, and an attached value is not `--`. */
  ghost predicate Explodes(s: string, options: seq<LeafDef>) {
    && s != "" && s[0] != '-'
    && (|s| > 1 ==> if TakesArgument(options, s[0]) then s[1..] != "--" else Explodes(s[1..], options))
  }

  /** Flags that join the table take no argument. */
  lemma FlaggedTakesArgument(options: seq<LeafDef>, c: char, d: char)
    ensures TakesArgument(Flagged(options, c), d) == TakesArgument(options, d)
  {
    var o := NewOption(['-', c], "", 0);
    WithShortSnoc(options, o, ['-', d]);
    if c == d { assert ['-', c] == ['-', d]; } else { assert ['-', c][1] != ['-', d][1]; }
  }

  lemma {:induction false} ExplodedStable(s: string, options: seq<LeafDef>, c: char)
    requires Explodes(s, options)
    ensures Explodes(s, Flagged(options, c)) && Exploded(s, Flagged(options, c)) == Exploded(s, options)
    decreases |s|
  {
    FlaggedTakesArgument(options, c, s[0]);
    if |s| > 1 && !TakesArgument(options, s[0]) { ExplodedStable(s[1..], options, c); }
  }

  /** A flag at the head of a stack may be a token of its own, if the rest of the stack may be spelled as `rest`. */
  lemma SplitFlag(s: string, rest: seq<string>, options: seq<LeafDef>, post: seq<string>, optionsFirst: bool)
    requires |s| >= 2 && s[0] != '-' && s[1] != '-' && !TakesArgument(options, s[0])
    requires var next := Flagged(options, s[0]);
             ParseArgv(["-" + s[1..]] + post, next, optionsFirst) == ParseArgv(rest + post, next, optionsFirst)
    ensures ParseArgv(["-" + s] + post, options, optionsFirst) ==
            ParseArgv(["-" + [s[0]]] + (rest + post), options, optionsFirst)
  {
    FlagInStack(s, post, options, optionsFirst);
    FlagAlone(s[0], rest + post, options, optionsFirst);
  }

  lemma ExplodedIs(s: string, options: seq<LeafDef>, post: seq<string>)
    requires |s| > 1
    ensures Exploded(s, options) + post ==
            if TakesArgument(options, s[0]) then ["-" + [s[0]], s[1..]] + post
            else ["-" + [s[0]]] + (Exploded(s[1..], options) + post)
  {}

  /** Spelling out a stack changes neither what is parsed, nor the option table, nor the error. */
  lemma {:induction false} ExplodeStack(s: string, post: seq<string>, options: seq<LeafDef>, optionsFirst: bool)
    requires Explodes(s, options)
    ensures ParseArgv(["-" + s] + post, options, optionsFirst) ==
            ParseArgv(Exploded(s, options) + post, options, optionsFirst)
    decreases |s|
  {
    if |s| > 1 {
      ExplodedIs(s, options, post);
      if TakesArgument(options, s[0]) {
        SplitValue(s, post, options, optionsFirst);
      } else {
        ExplodedStable(s[1..], options, s[0]);
        ExplodeStack(s[1..], post, Flagged(options, s[0]), optionsFirst);
        SplitFlag(s, Exploded(s[1..], options), options, post, optionsFirst);
      }
    }
  }

  // ---------- Long options ----------

  lemma {:induction false} EqualSignIn(long: string, tail: string)
    requires '=' !in long && (tail == "" || tail[0] == '=')
    ensures EqualSign(long + tail) == |long|
  {
    if long == "" {
      assert long + tail == tail;
    } else {
      assert (long + tail)[0] == long[0] && (long + tail)[1..] == long[1..] + tail;
      EqualSignIn(long[1..], tail);
    }
  }

  /** A token `--long` or `--long=value` is parsed as a long option of that name. */
  lemma LongTokenIs(long: string, tail: string, post: seq<string>, options: seq<LeafDef>, optionsFirst: bool)
    requires StartsWith(long, "--") && long + tail != "--" && '=' !in long && (tail == "" || tail[0] == '=')
    ensures var toks := [long + tail] + post;
            && EqualSign(toks[0]) == |long| && toks[0][..|long|] == long && toks[0][|long|..] == tail
            && toks[1..] == post
            && ParseArgv(toks, options, optionsFirst) == Continue(ParseLong(toks, options, true), |toks|, optionsFirst)
  {
    var tok := long + tail;
    EqualSignIn(long, tail);
    assert tok[..|long|] == long && tok[|long|..] == tail;
    assert tok[0] == long[0] == "--"[0] && tok[1] == long[1] == "--"[1];
    assert StartsWith(tok, "--");
  }

  lemma LongValue(long: string, value: string, attached: seq<string>, apart: seq<string>, options: seq<LeafDef>)
    requires attached != [] && attached[0] == long + ("=" + value) && EqualSign(attached[0]) == |long|
    requires |apart| >= 2 && apart[0] == long && apart[1] == value && EqualSign(long) == |long|
    requires apart[1..][1..] == attached[1..] && value != "" && value != "--"
    requires var exact := WithLong(options, long); |exact| == 1 && exact[0].argcount > 0
    ensures ParseLong(attached, options, true) == ParseLong(apart, options, true)
  {
    assert attached[0][..|long|] == long && attached[0][|long| + 1..] == value && long[..|long|] == long;
  }

  /** The value of a known option may follow its name after `=` or as the next token. */
  lemma SplitLongValue(long: string, value: string, post: seq<string>, options: seq<LeafDef>, optionsFirst: bool)
    requires StartsWith(long, "--") && long != "--" && '=' !in long && value != "" && value != "--"
    requires var exact := WithLong(options, long); |exact| == 1 && exact[0].argcount > 0
    ensures ParseArgv([long + ("=" + value)] + post, options, optionsFirst) ==
            ParseArgv([long, value] + post, options, optionsFirst)
  {
    var tail := [value] + post;
    LongTokenIs(long, "=" + value, post, options, optionsFirst);
    LongTokenIs(long, "", tail, options, optionsFirst);
    assert long + "" == long && [long, value] + post == [long] + tail;
    assert tail[1..] == post;
    LongValue(long, value, [long + ("=" + value)] + post, [long] + tail, options);
  }

  lemma {:induction false} OnlyPrefixed(options: seq<LeafDef>, short: string, long: string)
    requires StartsWith(long, short) && long != ""
    ensures |WithLong(options, long)| <= |WithLongPrefix(options, short)|
    ensures forall o <- WithLong(options, long) :: o in WithLongPrefix(options, short)
    ensures forall o <- WithLongPrefix(options, short) :: o.Option? && (o.long == long ==> o in WithLong(options, long))
  {
    if options != [] { OnlyPrefixed(options[1..], short, long); }
  }

  /**
   What is parsed for a token `long` with `tail` attached depends on the options it is taken for, not on its spelling.
   */
  lemma SameSpelling(a: string, b: string, tail: string, post: seq<string>, options: seq<LeafDef>)
    requires EqualSign(a + tail) == |a| && EqualSign(b + tail) == |b| && (a + tail)[..|a|] == a
    requires (b + tail)[..|b|] == b
    requires WithLong(options, a) == [] && WithLongPrefix(options, a) == WithLong(options, b)
    requires |WithLong(options, b)| == 1
    ensures ParseLong([a + tail] + post, options, true) == ParseLong([b + tail] + post, options, true)
  {
    SameTail(a, b, tail);
    var s, t := [a + tail] + post, [b + tail] + post;
    assert s[0] == a + tail && t[0] == b + tail && s[1..] == t[1..] == post;
  }

  /** An abbreviation that fits one long name only stands for it, with or without a value attached. */
  lemma Abbreviation(short: string, tail: string, post: seq<string>, options: seq<LeafDef>, optionsFirst: bool)
    requires StartsWith(short, "--") && short + tail != "--" && '=' !in short && (tail == "" || tail[0] == '=')
    requires WithLong(options, short) == [] && |WithLongPrefix(options, short)| == 1
    requires '=' !in WithLongPrefix(options, short)[0].long
    ensures var long := WithLongPrefix(options, short)[0].long;
            ParseArgv([short + tail] + post, options, optionsFirst) ==
            ParseArgv([long + tail] + post, options, optionsFirst)
  {
    var o := WithLongPrefix(options, short)[0];
    var long := o.long;
    OnlyOne(options, short, long);
    assert long[0] == short[0] && long[1] == short[1];
    LongTokenIs(short, tail, post, options, optionsFirst);
    LongTokenIs(long, tail, post, options, optionsFirst);
    SameSpelling(short, long, tail, post, options);
  }

  lemma OnlyOne(options: seq<LeafDef>, short: string, long: string)
    requires |WithLongPrefix(options, short)| == 1 && WithLongPrefix(options, short)[0].long == long
    ensures WithLong(options, long) == WithLongPrefix(options, short)
  {
    var o := WithLongPrefix(options, short)[0];
    OnlyPrefixed(options, short, long);
    assert o in WithLongPrefix(options, short);
  }

  lemma SameTail(a: string, b: string, tail: string)
    ensures tail != "" ==> (a + tail)[|a| + 1..] == (b + tail)[|b| + 1..] == tail[1..]
  {}

  // ---------- In the middle of a command line ----------

  /** What a first part of argv parses to on its own, when the parser ends up at its end still looking for options. */
  function Head(toks: seq<string>, options: seq<LeafDef>, optionsFirst: bool): Argv
    decreases |toks|
  {
    if toks == [] then Argv([], options)
    else if toks[0] == "--" then Error(OutOfRange)
    else if IsLong(toks[0]) then
      var p := ParseLong(toks, options, true);
      if p.Fail? then Error(p.error) else After(p.found, Head(p.rest, p.options, optionsFirst))
    else if IsShort(toks[0]) then
      var p := ParseShort(toks, options, true);
      if p.Fail? then Error(p.error) else After(p.found, Head(p.rest, p.options, optionsFirst))
    else if optionsFirst then Error(OutOfRange)
    else After([Argument("", Str(toks[0]))], Head(toks[1..], options, optionsFirst))
  }

  /** After such a part, the line goes on as if it started there with the table reached. */
  lemma {:induction false} ParseAfterHead(
    pre: seq<string>, post: seq<string>, options: seq<LeafDef>, optionsFirst: bool)
    requires Head(pre, options, optionsFirst).Argv?
    ensures var h := Head(pre, options, optionsFirst);
            ParseArgv(pre + post, options, optionsFirst) == After(h.leaves, ParseArgv(post, h.options, optionsFirst))
    decreases |pre|
  {
    if pre == [] {
      assert pre + post == post;
      AfterTwice([], [], ParseArgv(post, options, optionsFirst));
    } else {
      assert (pre + post)[0] == pre[0] && (pre + post)[1..] == pre[1..] + post;
      var found, rest, options' := [Argument("", Str(pre[0]))], pre[1..], options;
      if IsLong(pre[0]) {
        var p := ParseLong(pre, options, true);
        ParseLongLocal(pre, post, options, true);
        found, rest, options' := p.found, p.rest, p.options;
      } else if IsShort(pre[0]) {
        var p := ParseShort(pre, options, true);
        ParseShortsLocal(pre[0][1..], pre[1..], post, options, true);
        found, rest, options' := p.found, p.rest, p.options;
      }
      ParseAfterHead(rest, post, options', optionsFirst);
      var h := Head(rest, options', optionsFirst);
      AfterTwice(found, h.leaves, ParseArgv(post, h.options, optionsFirst));
    }
  }

  /** Spelling out a stack anywhere it is read as one makes no difference to the command line. */
  lemma ExplodeAnywhere(pre: seq<string>, s: string, post: seq<string>, options: seq<LeafDef>, optionsFirst: bool)
    requires var h := Head(pre, options, optionsFirst); h.Argv? && Explodes(s, h.options)
    ensures var h := Head(pre, options, optionsFirst);
            ParseArgv(pre + (["-" + s] + post), options, optionsFirst) ==
            ParseArgv(pre + (Exploded(s, h.options) + post), options, optionsFirst)
  {
    var h := Head(pre, options, optionsFirst);
    ParseAfterHead(pre, ["-" + s] + post, options, optionsFirst);
    ParseAfterHead(pre, Exploded(s, h.options) + post, options, optionsFirst);
    ExplodeStack(s, post, h.options, optionsFirst);
  }

  // ---------- What the matcher is given ----------

  lemma {:induction false} PositionalsAre(toks: seq<string>)
    ensures |Positionals(toks)| == |toks|
    ensures forall k :: 0 <= k < |toks| ==> Positionals(toks)[k] == Argument("", Str(toks[k]))
  {
    if toks != [] { PositionalsAre(toks[1..]); }
  }

  /** argv is parsed into nameless positionals, each a word, and options with what they take, and nothing else. */
  lemma {:induction false} ParseArgvLeaves(toks: seq<string>, options: seq<LeafDef>, optionsFirst: bool)
    requires ParseArgv(toks, options, optionsFirst).Argv?
    ensures forall d <- ParseArgv(toks, options, optionsFirst).leaves ::
      IsGiven(d) || (d.Argument? && d.argName == "" && d.GetValue().Str?)
    decreases |toks|
  {
    PositionalsAre(toks);
    if toks != [] && toks[0] != "--" {
      if IsLong(toks[0]) {
        var p := ParseLong(toks, options, true);
        LongGiven(toks, options);
        ParseArgvLeaves(p.rest, p.options, optionsFirst);
      } else if IsShort(toks[0]) {
        var p := ParseShort(toks, options, true);
        ShortsGiven(toks[0][1..], toks[1..], options);
        ParseArgvLeaves(p.rest, p.options, optionsFirst);
      } else if !optionsFirst {
        ParseArgvLeaves(toks[1..], options, optionsFirst);
      }
    }
  }
}
