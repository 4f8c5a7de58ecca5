/** Options in a usage text: they are told from words, found in the table of descriptions, and kept as described. */
module UsageOptions {
  import opened Patterns
  import opened OptionParsing
  import opened UsageParsing
  import opened ArgvPrinting
  import ArgvParsing

  /** An option as a usage text has it: with its argument if it takes one, and not abbreviated. */
  ghost predicate Spelled(x: Item, table: seq<LeafDef>) {
    Typed(x, table) && !x.Word? && (x.Long? || x.LongValue? || x.LongApart? ==> x.name == x.o.long)
  }

  lemma ShortToken(name: string, tail: string, post: seq<string>)
    requires IsShortName(name)
    ensures var toks := [name + tail] + post;
            && toks[0][1..] == [name[1]] + tail && toks[1..] == post && name == ['-', name[1]]
            && IsOption(toks[0]) && !StartsWith(toks[0], "--") && toks[0] !in ["[", "(", "options"]
  {
    var tok := name + tail;
    assert tok[0] == '-' && tok[1] == name[1] != '-';
    assert tok[..1] == "-" && tok[..2] != "--";
  }

  lemma LongToken(name: string, tail: string)
    requires IsLongName(name)
    ensures var tok := name + tail;
            IsOption(tok) && StartsWith(tok, "--") && tok !in ["[", "(", "options"]
  {
    var tok := name + tail;
    assert tok[..2] == name[..2] == "--";
    assert tok[..1] == "-" && |tok| > 2 && tok[0] == '-';
  }

  lemma ShortFound(x: Item, s: string, rest: seq<string>, post: seq<string>, table: seq<LeafDef>)
    requires OfOption(x) && (x.Short? || x.ShortValue? || x.ShortApart?)
    requires (x.Short? <==> x.o.argcount == 0) && (!x.Short? ==> x.value != "") && (x.ShortApart? ==> x.value != "--")
    requires s != "" && s[1..] == ShortTail(x) && WithShort(table, ['-', s[0]]) == [x.o]
    requires rest == if x.ShortApart? then [x.value] + post else post
    ensures ParseShorts(s, rest, table, false) == Done([x.o], post, table)
  {
    if x.ShortApart? { assert rest[0] == x.value && rest[1..] == post; }
  }

  lemma LongFound(x: Item, toks: seq<string>, post: seq<string>, table: seq<LeafDef>)
    requires OfOption(x) && (x.Long? || x.LongValue? || x.LongApart?) && WithLong(table, x.name) == [x.o]
    requires (x.Long? <==> x.o.argcount == 0) && (x.LongApart? ==> x.value != "" && x.value != "--")
    requires toks != [] && EqualSign(toks[0]) == |x.name| && toks[0][..|x.name|] == x.name
    requires toks[0][|x.name|..] == LongTail(x)
    requires toks[1..] == if x.LongApart? then [x.value] + post else post
    ensures ParseLong(toks, table, false) == Done([x.o], post, table)
  {
    if x.LongApart? { assert toks[1..][0] == x.value && toks[1..][1..] == post; }
    if x.LongValue? { assert toks[0][|x.name| + 1..] == toks[0][|x.name|..][1..] == x.value; }
  }

  lemma ShortAtom(x: Item, post: seq<string>, table: seq<LeafDef>)
    requires Spelled(x, table) && (x.Short? || x.ShortValue? || x.ShortApart?)
    ensures ParseAtom(PrintItem(x) + post, table) == Parsed([Leaf(x.o)], post, table)
  {
    var i :| OnlyShort(table, x.o, i);
    OneShort(table, x.o, i);
    var s, rest := [x.o.short[1]] + ShortTail(x), if x.ShortApart? then [x.value] + post else post;
    assert x.o.short + "" == x.o.short;
    assert PrintItem(x) + post == [x.o.short + ShortTail(x)] + rest;
    ShortToken(x.o.short, ShortTail(x), rest);
    assert s[1..] == ShortTail(x);
    ShortFound(x, s, rest, post, table);
    assert Leaves([x.o]) == [Leaf(x.o)];
  }

  lemma LongAtom(x: Item, post: seq<string>, table: seq<LeafDef>)
    requires Spelled(x, table) && (x.Long? || x.LongValue? || x.LongApart?)
    ensures ParseAtom(PrintItem(x) + post, table) == Parsed([Leaf(x.o)], post, table)
  {
    var i :| MeansLong(table, x.name, x.o, i);
    OneLong(table, x.o, i);
    var rest := if x.LongApart? then [x.value] + post else post;
    var toks := [x.name + LongTail(x)] + rest;
    LongItemPrints(x, post);
    LongToken(x.name, LongTail(x));
    ArgvParsing.LongTokenIs(x.name, LongTail(x), rest, table, false);
    LongFound(x, toks, post, table);
    assert Leaves([x.o]) == [Leaf(x.o)];
  }

  /** A described option is parsed to what is described, however it is spelled; the table stays as it is. */
  lemma OptionAtom(x: Item, post: seq<string>, table: seq<LeafDef>)
    requires Spelled(x, table)
    ensures ParseAtom(PrintItem(x) + post, table) == Parsed([Leaf(x.o)], post, table)
  {
    if x.Short? || x.ShortValue? || x.ShortApart? { ShortAtom(x, post, table); } else { LongAtom(x, post, table); }
  }

  /** An option that is not described is a flag that is not set, and joins the table. */
  lemma NewShortAtom(name: string, post: seq<string>, table: seq<LeafDef>)
    requires IsShortName(name) && forall o <- table :: o.Option? ==> o.short != name
    ensures var o := Option(name, "", 0, Bool(false));
            ParseAtom([name] + post, table) == Parsed([Leaf(o)], post, table + [o])
  {
    NoneShort(table, name);
    ShortToken(name, "", post);
    assert name + "" == name;
    var s, o := [name[1]], Option(name, "", 0, Bool(false));
    assert s[1..] == "" && ([name] + post)[0][1..] == s;
    assert ParseShorts(s, post, table, false) == Done([o], post, table + [o]);
    assert Leaves([o]) == [Leaf(o)];
  }

  /** A long option joins as one that takes an argument if it has one. */
  lemma NewLongAtom(name: string, value: Value, post: seq<string>, table: seq<LeafDef>)
    requires IsLongName(name) && (value.Empty? || value.Str?)
    requires forall o <- table :: o.Option? ==> o.long != name
    ensures var o := if value.Str? then Option("", name, 1, Empty) else Option("", name, 0, Bool(false));
            ParseAtom([if value.Str? then name + "=" + value.text else name] + post, table) ==
            Parsed([Leaf(o)], post, table + [o])
  {
    var tail := if value.Str? then "=" + value.text else "";
    assert name + tail == if value.Str? then name + "=" + value.text else name;
    NoneLong(table, name);
    LongToken(name, tail);
    ArgvParsing.LongTokenIs(name, tail, post, table, false);
    var o := if value.Str? then Option("", name, 1, Empty) else Option("", name, 0, Bool(false));
    assert Leaves([o]) == [Leaf(o)];
  }
}
