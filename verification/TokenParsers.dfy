/** The parsers as they run: loops and recursive calls that advance one token stream and grow the option table. */
module TokenParsers {
  import opened Patterns
  import opened OptionParsing
  import Usage = UsageParsing
  import Command = ArgvParsing

  /** What a parser returns, or the exception it throws. */
  datatype Outcome<+T> = Ok(value: T) | Raised(error: Error)

  class Tokens {
    const tokens: seq<string>
    const isParsingArgv: bool
    var index: nat

    ghost predicate Valid()
      reads this
    {
      index <= |tokens|
    }

    ghost function Rest(): seq<string>
      requires Valid()
      reads this
    {
      tokens[index..]
    }

    constructor (tokens: seq<string>, isParsingArgv: bool)
      ensures this.tokens == tokens && this.isParsingArgv == isParsingArgv && Valid() && Rest() == tokens
    {
      this.tokens, this.isParsingArgv, index := tokens, isParsingArgv, 0;
    }

    method Peek() returns (token: string)
      requires Valid()
      ensures token == Current(Rest())
    {
      token := if index < |tokens| then tokens[index] else "";
    }

    /** The current token; `at` throws when there is none, after the index has moved. */
    method Pop() returns (r: Outcome<string>)
      requires Valid()
      modifies this`index
      ensures index == old(index) + 1
      ensures old(Rest()) == [] ==> r == Raised(OutOfRange)
      ensures old(Rest()) != [] ==> Valid() && r == Ok(old(Rest())[0]) && Rest() == old(Rest())[1..]
    {
      r := if index < |tokens| then Ok(tokens[index]) else Raised(OutOfRange);
      index := index + 1;
    }
  }

  // ---------- Options ----------

  ghost function Following(found: seq<LeafDef>, r: Parse): Parse {
    if r.Done? then r.(found := found + r.found) else r
  }

  lemma FollowingThen(found: seq<LeafDef>, o: LeafDef, r: Parse)
    ensures Following(found, Then(o, r)) == Following(found + [o], r)
  {
    if r.Done? { assert found + ([o] + r.found) == (found + [o]) + r.found; }
  }

  /** The next token as the value of an option. */
  method TakeValue(tokens: Tokens) returns (r: Outcome<string>)
    requires tokens.Valid()
    modifies tokens`index
    ensures tokens.Valid()
    ensures var next := Current(old(tokens.Rest()));
            if next == "" || next == "--" then r == Raised(OptionError) && tokens.index == old(tokens.index)
            else r == Ok(next) && tokens.index == old(tokens.index) + 1 && tokens.Rest() == old(tokens.Rest())[1..]
  {
    var next := tokens.Peek();
    if next == "" || next == "--" { return Raised(OptionError); }
    r := tokens.Pop();
  }

  /** The option at `i` of a stack, and where the next one starts. */
  method ParseShortAt(tokens: Tokens, token: string, i: nat, options: seq<LeafDef>)
    returns (r: Outcome<(LeafDef, nat)>, options': seq<LeafDef>)
    requires tokens.Valid() && i < |token|
    modifies tokens`index
    ensures tokens.Valid() && tokens.index >= old(tokens.index)
    ensures r.Ok? ==> i < r.value.1 <= |token|
    ensures r.Ok? ==> ParseShorts(token[i..], old(tokens.Rest()), options, tokens.isParsingArgv) ==
                      Then(r.value.0, ParseShorts(token[r.value.1..], tokens.Rest(), options', tokens.isParsingArgv))
    ensures r.Raised? ==> ParseShorts(token[i..], old(tokens.Rest()), options, tokens.isParsingArgv) == Fail(r.error)
  {
    var argv := tokens.isParsingArgv;
    var shortOpt := ['-', token[i]];
    var similar := WithShort(options, shortOpt);
    assert token[i..][1..] == token[i + 1..] && token[|token|..] == "";
    options' := options;
    if |similar| > 1 {
      return Raised(OptionError), options';
    } else if similar == [] {
      var o := NewOption(shortOpt, "", 0);
      return Ok((Valued(o, Empty, argv), i + 1)), options + [o];
    } else if similar[0].argcount == 0 {
      return Ok((Valued(similar[0], Empty, argv), i + 1)), options';
    }
    var val := Ok(token[i + 1..]);
    if i + 1 == |token| { val := TakeValue(tokens); }
    if val.Raised? { return Raised(val.error), options'; }
    var o := Valued(similar[0], Str(val.value), argv);
    assert [o] + [] == [o];
    return Ok((o, |token|)), options';
  }

  method ParseShortTokens(tokens: Tokens, options: seq<LeafDef>)
    returns (r: Outcome<seq<LeafDef>>, options': seq<LeafDef>)
    requires tokens.Valid() && tokens.index < |tokens.tokens| && StartsWith(tokens.Rest()[0], "-")
    modifies tokens`index
    ensures (r.Ok? ==> tokens.Valid()) && tokens.index > old(tokens.index)
    ensures r.Ok? ==>
      ParseShort(old(tokens.Rest()), options, tokens.isParsingArgv) == Done(r.value, tokens.Rest(), options')
    ensures r.Raised? ==> ParseShort(old(tokens.Rest()), options, tokens.isParsingArgv) == Fail(r.error)
  {
    var argv := tokens.isParsingArgv;
    ghost var total := ParseShort(tokens.Rest(), options, argv);
    var popped := tokens.Pop();
    var token := popped.value;
    var i := 1;
    var ret := [];
    options' := options;
    while i < |token|
      invariant 1 <= i <= |token| && tokens.Valid() && tokens.index > old(tokens.index)
      invariant total == Following(ret, ParseShorts(token[i..], tokens.Rest(), options', argv))
    {
      var found;
      found, options' := ParseShortAt(tokens, token, i, options');
      if found.Raised? { return Raised(found.error), options'; }
      FollowingThen(ret, found.value.0, ParseShorts(token[found.value.1..], tokens.Rest(), options', argv));
      ret, i := ret + [found.value.0], found.value.1;
    }
    assert token[i..] == "";
    return Ok(ret), options';
  }

  method ParseLongToken(tokens: Tokens, options: seq<LeafDef>)
    returns (r: Outcome<seq<LeafDef>>, options': seq<LeafDef>)
    requires tokens.Valid() && tokens.index < |tokens.tokens|
    modifies tokens`index
    ensures (r.Ok? ==> tokens.Valid()) && tokens.index > old(tokens.index)
    ensures r.Ok? ==>
      ParseLong(old(tokens.Rest()), options, tokens.isParsingArgv) == Done(r.value, tokens.Rest(), options')
    ensures r.Raised? ==> ParseLong(old(tokens.Rest()), options, tokens.isParsingArgv) == Fail(r.error)
  {
    var argv := tokens.isParsingArgv;
    var popped := tokens.Pop();
    var token := popped.value;
    var i := EqualSign(token);
    var longOpt := token[..i];
    var val := if i < |token| then Str(token[i + 1..]) else Empty;
    var similar := WithLong(options, longOpt);
    if argv && similar == [] { similar := WithLongPrefix(options, longOpt); }
    options' := options;
    if |similar| > 1 {
      return Raised(OptionError), options';
    } else if similar == [] {
      var o := NewOption("", longOpt, if val.Empty? then 0 else 1);
      return Ok([Valued(o, val, argv)]), options + [o];
    } else {
      var o := similar[0];
      if o.argcount == 0 {
        if !val.Empty? { return Raised(OptionError), options'; }
      } else if val.Empty? {
        var arg := TakeValue(tokens);
        if arg.Raised? { return Raised(arg.error), options'; }
        val := Str(arg.value);
      }
      return Ok([Valued(o, val, argv)]), options';
    }
  }

  // ---------- argv ----------

  method RestAsArguments(tokens: Tokens, before: seq<LeafDef>) returns (ret: seq<LeafDef>)
    requires tokens.Valid()
    modifies tokens`index
    ensures tokens.Valid() && tokens.Rest() == [] && ret == before + Command.Positionals(old(tokens.Rest()))
  {
    ret := before;
    ghost var total := before + Command.Positionals(tokens.Rest());
    while tokens.index < |tokens.tokens|
      invariant tokens.Valid() && total == ret + Command.Positionals(tokens.Rest())
      decreases |tokens.tokens| - tokens.index
    {
      ghost var later := Command.Positionals(tokens.Rest()[1..]);
      var popped := tokens.Pop();
      var token := popped.value;
      assert ret + ([Argument("", Str(token))] + later) == (ret + [Argument("", Str(token))]) + later;
      ret := ret + [Argument("", Str(token))];
    }
  }

  /** One round of the loop: what the front of argv is, and where it goes on. */
  method ParseArgvFront(tokens: Tokens, options: seq<LeafDef>, optionsFirst: bool)
    returns (r: Outcome<seq<LeafDef>>, options': seq<LeafDef>)
    requires tokens.Valid() && tokens.isParsingArgv && tokens.index < |tokens.tokens|
    modifies tokens`index
    ensures r.Ok? ==> tokens.Valid() && tokens.index > old(tokens.index)
    ensures r.Ok? ==> Command.ParseArgv(old(tokens.Rest()), options, optionsFirst) ==
                      Command.After(r.value, Command.ParseArgv(tokens.Rest(), options', optionsFirst))
    ensures r.Raised? ==> Command.ParseArgv(old(tokens.Rest()), options, optionsFirst) == Command.Error(r.error)
  {
    var token := tokens.Peek();
    options' := options;
    if token == "--" || (optionsFirst && (token == "-" || !StartsWith(token, "-"))) {
      var ret := RestAsArguments(tokens, []);
      assert [] + ret + [] == ret;
      r := Ok(ret);
    } else if StartsWith(token, "--") {
      r, options' := ParseLongToken(tokens, options);
    } else if StartsWith(token, "-") && token != "-" {
      r, options' := ParseShortTokens(tokens, options);
    } else {
      var _ := tokens.Pop();
      r := Ok([Argument("", Str(token))]);
    }
  }

  method ParseArgvTokens(tokens: Tokens, options: seq<LeafDef>, optionsFirst: bool)
    returns (r: Outcome<seq<LeafDef>>, options': seq<LeafDef>)
    requires tokens.Valid() && tokens.isParsingArgv
    modifies tokens`index
    ensures r.Ok? ==> tokens.Valid()
    ensures Command.ParseArgv(old(tokens.Rest()), options, optionsFirst) ==
            if r.Ok? then Command.Argv(r.value, options') else Command.Error(r.error)
  {
    ghost var total := Command.ParseArgv(tokens.Rest(), options, optionsFirst);
    var ret := [];
    options' := options;
    Command.AfterTwice([], [], total);
    while tokens.index < |tokens.tokens|
      invariant tokens.Valid()
      invariant total == Command.After(ret, Command.ParseArgv(tokens.Rest(), options', optionsFirst))
      decreases |tokens.tokens| - tokens.index
    {
      var found;
      found, options' := ParseArgvFront(tokens, options', optionsFirst);
      if found.Raised? { return Raised(found.error), options'; }
      Command.AfterTwice(ret, found.value, Command.ParseArgv(tokens.Rest(), options', optionsFirst));
      ret := ret + found.value;
    }
    assert ret + [] == ret;
    return Ok(ret), options';
  }

  // ---------- The usage text ----------

  method ParseAtomTokens(tokens: Tokens, options: seq<LeafDef>)
    returns (r: Outcome<seq<Pattern<LeafDef>>>, options': seq<LeafDef>)
    requires tokens.Valid() && tokens.index < |tokens.tokens| && !tokens.isParsingArgv
    modifies tokens`index
    ensures (r.Ok? ==> tokens.Valid()) && tokens.index > old(tokens.index)
    ensures r.Ok? ==> Usage.ParseAtom(old(tokens.Rest()), options) == Usage.Parsed(r.value, tokens.Rest(), options')
    ensures r.Raised? ==> Usage.ParseAtom(old(tokens.Rest()), options) == Usage.Failed(r.error)
    decreases |tokens.tokens| - tokens.index, 0
  {
    var token := tokens.Peek();
    options' := options;
    if token == "[" || token == "(" {
      var _ := tokens.Pop();
      var expr;
      expr, options' := ParseExprTokens(tokens, options);
      if expr.Raised? { return expr, options'; }
      var trailing := tokens.Pop();
      if trailing.Raised? { return Raised(trailing.error), options'; }
      if trailing.value != (if token == "[" then "]" else ")") { return Raised(LanguageError), options'; }
      return Ok([if token == "[" then Optional(expr.value) else Required(expr.value)]), options';
    } else if token == "options" {
      var _ := tokens.Pop();
      return Ok([OptionsShortcut([])]), options';
    } else if Usage.IsOption(token) {
      var found;
      if StartsWith(token, "--") {
        found, options' := ParseLongToken(tokens, options);
      } else {
        found, options' := ParseShortTokens(tokens, options);
      }
      if found.Raised? { return Raised(found.error), options'; }
      return Ok(Usage.Leaves(found.value)), options';
    } else {
      var popped := tokens.Pop();
      var name := popped.value;
      var leaf := if Usage.IsArgumentSpec(name) then Argument(name, Empty) else LeafDef.Command(name, Bool(false));
      return Ok([Leaf(leaf)]), options';
    }
  }

  lemma PrependTwice(a: seq<Pattern<LeafDef>>, b: seq<Pattern<LeafDef>>, r: Usage.Trees)
    ensures Usage.Prepend(a, Usage.Prepend(b, r)) == Usage.Prepend(a + b, r) && Usage.Prepend([], r) == r
  {
    if r.Parsed? { assert a + (b + r.trees) == (a + b) + r.trees; }
  }

  method ParseSeqTokens(tokens: Tokens, options: seq<LeafDef>)
    returns (r: Outcome<seq<Pattern<LeafDef>>>, options': seq<LeafDef>)
    requires tokens.Valid() && !tokens.isParsingArgv
    modifies tokens`index
    ensures (r.Ok? ==> tokens.Valid()) && tokens.index >= old(tokens.index)
    ensures r.Ok? ==> Usage.ParseSeq(old(tokens.Rest()), options) == Usage.Parsed(r.value, tokens.Rest(), options')
    ensures r.Raised? ==> Usage.ParseSeq(old(tokens.Rest()), options) == Usage.Failed(r.error)
    decreases |tokens.tokens| - tokens.index, 1
  {
    ghost var total := Usage.ParseSeq(tokens.Rest(), options);
    var ret := [];
    options' := options;
    PrependTwice([], [], total);
    while tokens.index < |tokens.tokens|
      invariant tokens.Valid() && tokens.index >= old(tokens.index)
      invariant total == Usage.Prepend(ret, Usage.ParseSeq(tokens.Rest(), options'))
      decreases |tokens.tokens| - tokens.index
    {
      var token := tokens.Peek();
      if token == "]" || token == ")" || token == "|" { break; }
      var atom;
      atom, options' := ParseAtomTokens(tokens, options');
      if atom.Raised? { return atom, options'; }
      var next := tokens.Peek();
      if next == "..." {
        var _ := tokens.Pop();
        PrependTwice(ret, [OneOrMore(atom.value)], Usage.ParseSeq(tokens.Rest(), options'));
        ret := ret + [OneOrMore(atom.value)];
      } else {
        PrependTwice(ret, atom.value, Usage.ParseSeq(tokens.Rest(), options'));
        ret := ret + atom.value;
      }
    }
    assert ret + [] == ret;
    return Ok(ret), options';
  }

  method ParseExprTokens(tokens: Tokens, options: seq<LeafDef>)
    returns (r: Outcome<seq<Pattern<LeafDef>>>, options': seq<LeafDef>)
    requires tokens.Valid() && !tokens.isParsingArgv
    modifies tokens`index
    ensures (r.Ok? ==> tokens.Valid()) && tokens.index >= old(tokens.index)
    ensures r.Ok? ==> Usage.ParseExpr(old(tokens.Rest()), options) == Usage.Parsed(r.value, tokens.Rest(), options')
    ensures r.Raised? ==> Usage.ParseExpr(old(tokens.Rest()), options) == Usage.Failed(r.error)
    decreases |tokens.tokens| - tokens.index, 2
  {
    var s;
    s, options' := ParseSeqTokens(tokens, options);
    if s.Raised? { return s, options'; }
    var bar := tokens.Peek();
    if bar != "|" { return s, options'; }
    var ret := [Usage.Collapse(s.value)];
    ghost var first, all := ret, Usage.ParseAlternatives(tokens.Rest(), options');
    while bar == "|"
      invariant tokens.Valid() && tokens.index >= old(tokens.index)
      invariant bar == Current(tokens.Rest()) && Usage.Stops(tokens.Rest())
      invariant Usage.Prepend(first, all) == Usage.Prepend(ret, Usage.ParseAlternatives(tokens.Rest(), options'))
      decreases |tokens.tokens| - tokens.index
    {
      var _ := tokens.Pop();
      s, options' := ParseSeqTokens(tokens, options');
      if s.Raised? { return s, options'; }
      PrependTwice(ret, [Usage.Collapse(s.value)], Usage.ParseAlternatives(tokens.Rest(), options'));
      ret := ret + [Usage.Collapse(s.value)];
      bar := tokens.Peek();
    }
    assert ret + [] == ret;
    return Ok([Usage.CollapseEither(ret)]), options';
  }
}
