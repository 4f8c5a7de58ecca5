/**
 Command lines as a user types them, item by item, and what `parse_argv` makes of them: the items again, in order; and
 the command lines that it refuses.
 */
module ArgvPrinting {
  import opened Patterns
  import opened OptionParsing
  import opened ArgvParsing

  /** One item of a command line. A long name may be abbreviated: it is typed as `name`. */
  datatype Item =
    | Word(text: string)
    | Short(o: LeafDef)
    | ShortValue(o: LeafDef, value: string)
    | ShortApart(o: LeafDef, value: string)
    | Long(o: LeafDef, name: string)
    | LongValue(o: LeafDef, name: string, value: string)
    | LongApart(o: LeafDef, name: string, value: string)

  predicate OfOption(x: Item) {
    !x.Word? ==> x.o.Option?
  }

  function PrintItem(x: Item): seq<string>
    requires OfOption(x)
  {
    match x
    case Word(text) => [text]
    case Short(o) => [o.short]
    case ShortValue(o, value) => [o.short + value]
    case ShortApart(o, value) => [o.short, value]
    case Long(_, name) => [name]
    case LongValue(_, name, value) => [name + "=" + value]
    case LongApart(_, name, value) => [name, value]
  }

  /** The leaf of an item: a positional, a flag that is set, or an option with its value. */
  function LeafOf(x: Item): LeafDef
    requires OfOption(x)
  {
    match x
    case Word(text) => Argument("", Str(text))
    case Short(o) => Option(o.short, o.long, o.argcount, Bool(true))
    case Long(o, _) => Option(o.short, o.long, o.argcount, Bool(true))
    case _ => Option(x.o.short, x.o.long, x.o.argcount, Str(x.value))
  }

  /** The option of the table at `i` is the only one with its short name. */
  ghost predicate OnlyShort(table: seq<LeafDef>, o: LeafDef, i: nat) {
    && i < |table| && table[i] == o && o.Option?
    && forall j :: 0 <= j < |table| && j != i && table[j].Option? ==> table[j].short != o.short
  }

  /** A long name as typed means the option at `i`: it is its name, or else an abbreviation, and of no other option. */
  ghost predicate MeansLong(table: seq<LeafDef>, name: string, o: LeafDef, i: nat) {
    && i < |table| && table[i] == o && o.Option?
    && if name == o.long
       then forall j :: 0 <= j < |table| && j != i && table[j].Option? ==> table[j].long != name
       else StartsWith(o.long, name) &&
            forall j :: 0 <= j < |table| && j != i && table[j].Option? ==> !StartsWith(table[j].long, name)
  }

  ghost predicate IsShortName(name: string) {
    |name| == 2 && name[0] == '-' && name[1] != '-'
  }

  ghost predicate IsLongName(name: string) {
    StartsWith(name, "--") && name != "--" && '=' !in name
  }

  /** Items that are typed so that they can be told apart: options of the table, with a value if they take one. */
  ghost predicate Typed(x: Item, table: seq<LeafDef>) {
    OfOption(x) &&
    match x
    case Word(text) => text == "-" || !StartsWith(text, "-")
    case Short(o) => (exists i :: OnlyShort(table, o, i)) && IsShortName(o.short) && o.argcount == 0
    case ShortValue(o, value) =>
      (exists i :: OnlyShort(table, o, i)) && IsShortName(o.short) && o.argcount > 0 && value != ""
    case ShortApart(o, value) =>
      && (exists i :: OnlyShort(table, o, i)) && IsShortName(o.short) && o.argcount > 0
      && value != "" && value != "--"
    case Long(o, name) => (exists i :: MeansLong(table, name, o, i)) && IsLongName(name) && o.argcount == 0
    case LongValue(o, name, _) => (exists i :: MeansLong(table, name, o, i)) && IsLongName(name) && o.argcount > 0
    case LongApart(o, name, value) =>
      && (exists i :: MeansLong(table, name, o, i)) && IsLongName(name) && o.argcount > 0
      && value != "" && value != "--"
  }

  ghost predicate AllTyped(xs: seq<Item>, table: seq<LeafDef>) {
    forall x <- xs :: Typed(x, table)
  }

  function Print(xs: seq<Item>): seq<string>
    requires forall x <- xs :: OfOption(x)
  {
    if xs == [] then [] else PrintItem(xs[0]) + Print(xs[1..])
  }

  function LeavesOf(xs: seq<Item>): (r: seq<LeafDef>)
    requires forall x <- xs :: OfOption(x)
    ensures |r| == |xs| && forall i :: 0 <= i < |xs| ==> r[i] == LeafOf(xs[i])
  {
    if xs == [] then [] else [LeafOf(xs[0])] + LeavesOf(xs[1..])
  }

  // ---------- The option that a name means ----------

  lemma {:induction false} NoneShort(table: seq<LeafDef>, name: string)
    requires forall j :: 0 <= j < |table| && table[j].Option? ==> table[j].short != name
    ensures WithShort(table, name) == []
  {
    if table != [] { NoneShort(table[1..], name); }
  }

  lemma {:induction false} OneShort(table: seq<LeafDef>, o: LeafDef, i: nat)
    requires OnlyShort(table, o, i)
    ensures WithShort(table, o.short) == [o]
  {
    if i == 0 { NoneShort(table[1..], o.short); } else { OneShort(table[1..], o, i - 1); }
  }

  lemma {:induction false} NoneLong(table: seq<LeafDef>, name: string)
    requires forall j :: 0 <= j < |table| && table[j].Option? ==> table[j].long != name
    ensures WithLong(table, name) == []
  {
    if table != [] { NoneLong(table[1..], name); }
  }

  lemma {:induction false} NonePrefixed(table: seq<LeafDef>, name: string)
    requires forall j :: 0 <= j < |table| && table[j].Option? ==> !StartsWith(table[j].long, name)
    ensures WithLongPrefix(table, name) == []
  {
    if table != [] { NonePrefixed(table[1..], name); }
  }

  lemma {:induction false} OneLong(table: seq<LeafDef>, o: LeafDef, i: nat)
    requires o.Option? && MeansLong(table, o.long, o, i)
    ensures WithLong(table, o.long) == [o]
  {
    if i == 0 { NoneLong(table[1..], o.long); } else { OneLong(table[1..], o, i - 1); }
  }

  lemma {:induction false} OnePrefixed(table: seq<LeafDef>, name: string, o: LeafDef, i: nat)
    requires MeansLong(table, name, o, i) && name != o.long
    ensures WithLong(table, name) == [] && WithLongPrefix(table, name) == [o]
  {
    if i == 0 {
      NoneLong(table[1..], name);
      NonePrefixed(table[1..], name);
    } else {
      OnePrefixed(table[1..], name, o, i - 1);
    }
  }

  /** The options that a long name as typed is taken for. */
  function Similar(table: seq<LeafDef>, name: string): seq<LeafDef> {
    if WithLong(table, name) == [] then WithLongPrefix(table, name) else WithLong(table, name)
  }

  lemma OneSimilar(table: seq<LeafDef>, name: string, o: LeafDef, i: nat)
    requires MeansLong(table, name, o, i)
    ensures Similar(table, name) == [o]
  {
    if name == o.long { OneLong(table, o, i); } else { OnePrefixed(table, name, o, i); }
  }

  // ---------- One item ----------

  lemma WordParses(text: string, post: seq<string>, table: seq<LeafDef>)
    requires Typed(Word(text), table)
    ensures ParseArgv([text] + post, table, false) == After([LeafOf(Word(text))], ParseArgv(post, table, false))
  {
    var toks := [text] + post;
    assert toks[0] == text && toks[1..] == post;
    if text != "-" { NoDash(text); }
  }

  lemma NoDash(text: string)
    requires !StartsWith(text, "-")
    ensures !StartsWith(text, "--") && text != "--"
  {
    if text != "" { assert text[0] != '-' by { assert text[0] == '-' ==> "-" <= text; } }
  }

  /** A short option with what is attached to it. */
  lemma ShortParses(o: LeafDef, tail: string, post: seq<string>, table: seq<LeafDef>, i: nat, optionsFirst: bool)
    requires OnlyShort(table, o, i) && IsShortName(o.short)
    ensures ParseArgv([o.short + tail] + post, table, optionsFirst) ==
            AfterStack(ParseShorts([o.short[1]] + tail, post, table, true), optionsFirst)
    ensures o.short == ['-', o.short[1]] && WithShort(table, ['-', o.short[1]]) == [o]
  {
    var s := [o.short[1]] + tail;
    assert o.short == ['-', o.short[1]];
    assert o.short + tail == "-" + s;
    StackIs(s, post, table, optionsFirst);
    OneShort(table, o, i);
  }

  /** What is attached to a short name. */
  function ShortTail(x: Item): string
    requires x.Short? || x.ShortValue? || x.ShortApart?
  {
    if x.ShortValue? then x.value else ""
  }

  lemma ShortIs(x: Item, s: string, rest: seq<string>, post: seq<string>, table: seq<LeafDef>)
    requires OfOption(x) && (x.Short? || x.ShortValue? || x.ShortApart?)
    requires (x.Short? <==> x.o.argcount == 0) && (!x.Short? ==> x.value != "") && (x.ShortApart? ==> x.value != "--")
    requires s != "" && s[1..] == ShortTail(x) && WithShort(table, ['-', s[0]]) == [x.o]
    requires rest == if x.ShortApart? then [x.value] + post else post
    ensures ParseShorts(s, rest, table, true) == Done([LeafOf(x)], post, table)
  {
    if x.ShortApart? { assert rest[0] == x.value && rest[1..] == post; }
  }

  lemma ShortItemParses(x: Item, post: seq<string>, table: seq<LeafDef>, optionsFirst: bool)
    requires Typed(x, table) && (x.Short? || x.ShortValue? || x.ShortApart?)
    ensures ParseArgv(PrintItem(x) + post, table, optionsFirst) ==
            After([LeafOf(x)], ParseArgv(post, table, optionsFirst))
  {
    var i :| OnlyShort(table, x.o, i);
    var s, rest := [x.o.short[1]] + ShortTail(x), if x.ShortApart? then [x.value] + post else post;
    ShortParses(x.o, ShortTail(x), rest, table, i, optionsFirst);
    assert x.o.short + "" == x.o.short;
    assert PrintItem(x) + post == [x.o.short + ShortTail(x)] + rest;
    assert s[1..] == ShortTail(x);
    ShortIs(x, s, rest, post, table);
  }

  /** What is attached to a long name. */
  function LongTail(x: Item): string
    requires x.Long? || x.LongValue? || x.LongApart?
  {
    if x.LongValue? then "=" + x.value else ""
  }

  lemma LongIs(x: Item, toks: seq<string>, post: seq<string>, table: seq<LeafDef>)
    requires OfOption(x) && (x.Long? || x.LongValue? || x.LongApart?) && Similar(table, x.name) == [x.o]
    requires (x.Long? <==> x.o.argcount == 0) && (x.LongApart? ==> x.value != "" && x.value != "--")
    requires toks != [] && EqualSign(toks[0]) == |x.name| && toks[0][..|x.name|] == x.name
    requires toks[0][|x.name|..] == LongTail(x)
    requires toks[1..] == if x.LongApart? then [x.value] + post else post
    ensures ParseLong(toks, table, true) == Done([LeafOf(x)], post, table)
  {
    if x.LongApart? { assert toks[1..][0] == x.value && toks[1..][1..] == post; }
    if x.LongValue? { assert toks[0][|x.name| + 1..] == toks[0][|x.name|..][1..] == x.value; }
  }

  lemma LongItemPrints(x: Item, post: seq<string>)
    requires OfOption(x) && (x.Long? || x.LongValue? || x.LongApart?)
    ensures PrintItem(x) + post == [x.name + LongTail(x)] + if x.LongApart? then [x.value] + post else post
  {
    assert x.name + "" == x.name;
    if x.LongValue? { assert x.name + "=" + x.value == x.name + ("=" + x.value); }
  }

  lemma LongItemParses(x: Item, post: seq<string>, table: seq<LeafDef>, optionsFirst: bool)
    requires Typed(x, table) && (x.Long? || x.LongValue? || x.LongApart?)
    ensures ParseArgv(PrintItem(x) + post, table, optionsFirst) ==
            After([LeafOf(x)], ParseArgv(post, table, optionsFirst))
  {
    var i :| MeansLong(table, x.name, x.o, i);
    OneSimilar(table, x.name, x.o, i);
    var rest := if x.LongApart? then [x.value] + post else post;
    LongItemPrints(x, post);
    LongTokenIs(x.name, LongTail(x), rest, table, optionsFirst);
    LongIs(x, [x.name + LongTail(x)] + rest, post, table);
  }

  lemma ItemParses(x: Item, post: seq<string>, table: seq<LeafDef>, optionsFirst: bool)
    requires Typed(x, table) && (x.Word? ==> !optionsFirst)
    ensures ParseArgv(PrintItem(x) + post, table, optionsFirst) ==
            After([LeafOf(x)], ParseArgv(post, table, optionsFirst))
  {
    if x.Word? {
      WordParses(x.text, post, table);
    } else if x.Short? || x.ShortValue? || x.ShortApart? {
      ShortItemParses(x, post, table, optionsFirst);
    } else {
      LongItemParses(x, post, table, optionsFirst);
    }
  }

  // ---------- The command line ----------

  /** Where the parser no longer looks for options: at the end, at `--`, or at a word if options come first. */
  ghost predicate Positional(post: seq<string>, optionsFirst: bool) {
    post == [] || post[0] == "--" || (optionsFirst && (post[0] == "-" || !StartsWith(post[0], "-")))
  }

  lemma PositionalsRest(post: seq<string>, table: seq<LeafDef>, optionsFirst: bool)
    requires Positional(post, optionsFirst)
    ensures ParseArgv(post, table, optionsFirst) == Argv(seq(|post|, i requires 0 <= i < |post| =>
              Argument("", Str(post[i]))), table)
  {
    PositionalsAre(post);
    var words := seq(|post|, i requires 0 <= i < |post| => Argument("", Str(post[i])));
    assert Positionals(post) == words;
    if post != [] && post[0] != "--" && post[0] != "-" { NoDash(post[0]); }
  }

  lemma {:induction false} ItemsParse(xs: seq<Item>, post: seq<string>, table: seq<LeafDef>, optionsFirst: bool)
    requires AllTyped(xs, table) && (optionsFirst ==> forall x <- xs :: !x.Word?)
    ensures ParseArgv(Print(xs) + post, table, optionsFirst) ==
            After(LeavesOf(xs), ParseArgv(post, table, optionsFirst))
    decreases |xs|
  {
    if xs == [] {
      assert Print(xs) + post == post;
      AfterTwice([], [], ParseArgv(post, table, optionsFirst));
    } else {
      assert Typed(xs[0], table) && forall x <- xs[1..] :: x in xs && Typed(x, table);
      FirstParses(xs, post, table, optionsFirst);
      ItemsParse(xs[1..], post, table, optionsFirst);
      AfterTwice([LeafOf(xs[0])], LeavesOf(xs[1..]), ParseArgv(post, table, optionsFirst));
    }
  }

  lemma FirstParses(xs: seq<Item>, post: seq<string>, table: seq<LeafDef>, optionsFirst: bool)
    requires xs != [] && Typed(xs[0], table) && (xs[0].Word? ==> !optionsFirst) && forall x <- xs :: OfOption(x)
    ensures ParseArgv(Print(xs) + post, table, optionsFirst) ==
            After([LeafOf(xs[0])], ParseArgv(Print(xs[1..]) + post, table, optionsFirst))
  {
    var rest := Print(xs[1..]) + post;
    assert Print(xs) + post == PrintItem(xs[0]) + rest;
    ItemParses(xs[0], rest, table, optionsFirst);
  }

  /**
   What is typed is what is parsed: the leaves of the items, in order, then every remaining token, `--` included, as a
   positional; and the option table is as it was.
   */
  lemma PrintedParses(xs: seq<Item>, post: seq<string>, table: seq<LeafDef>, optionsFirst: bool)
    requires AllTyped(xs, table) && (optionsFirst ==> forall x <- xs :: !x.Word?) && Positional(post, optionsFirst)
    ensures ParseArgv(Print(xs) + post, table, optionsFirst) ==
            Argv(LeavesOf(xs) + seq(|post|, i requires 0 <= i < |post| => Argument("", Str(post[i]))), table)
  {
    ItemsParse(xs, post, table, optionsFirst);
    PositionalsRest(post, table, optionsFirst);
  }

  // ---------- Options that the table does not have ----------

  /** An unknown short option is a flag that is set; it joins the table as one that is not. */
  lemma UnknownShort(name: string, post: seq<string>, table: seq<LeafDef>, optionsFirst: bool)
    requires IsShortName(name) && forall o <- table :: o.Option? ==> o.short != name
    ensures ParseArgv([name] + post, table, optionsFirst) ==
            After([Option(name, "", 0, Bool(true))],
                  ParseArgv(post, table + [Option(name, "", 0, Bool(false))], optionsFirst))
  {
    assert name == "-" + [name[1]] == ['-', name[1]];
    NoneShort(table, name);
    FlagAlone(name[1], post, table, optionsFirst);
  }

  lemma LongNew(toks: seq<string>, name: string, value: Value, table: seq<LeafDef>)
    requires toks != [] && EqualSign(toks[0]) == |name| && toks[0][..|name|] == name && Similar(table, name) == []
    requires if value.Str? then toks[0][|name|..] == "=" + value.text else value.Empty? && toks[0] == name
    ensures ParseLong(toks, table, true) ==
            if value.Str? then Done([Option("", name, 1, value)], toks[1..], table + [Option("", name, 1, Empty)])
            else Done([Option("", name, 0, Bool(true))], toks[1..], table + [Option("", name, 0, Bool(false))])
  {
    if value.Str? { assert toks[0][|name| + 1..] == toks[0][|name|..][1..] == value.text; }
  }

  /** So is an unknown long option, unless it has a value: then it takes one from there on. */
  lemma UnknownLong(name: string, value: Value, post: seq<string>, table: seq<LeafDef>, optionsFirst: bool)
    requires IsLongName(name) && (value.Empty? || value.Str?)
    requires forall o <- table :: o.Option? ==> !StartsWith(o.long, name)
    ensures ParseArgv([if value.Str? then name + "=" + value.text else name] + post, table, optionsFirst) ==
            if value.Str?
            then After([Option("", name, 1, value)],
                       ParseArgv(post, table + [Option("", name, 1, Empty)], optionsFirst))
            else After([Option("", name, 0, Bool(true))],
                       ParseArgv(post, table + [Option("", name, 0, Bool(false))], optionsFirst))
  {
    var tail := if value.Str? then "=" + value.text else "";
    assert name + tail == if value.Str? then name + "=" + value.text else name;
    NoneLong(table, name);
    NonePrefixed(table, name);
    LongTokenIs(name, tail, post, table, optionsFirst);
    LongNew([name + tail] + post, name, value, table);
  }

  // ---------- Command lines that are refused ----------

  /** What can be wrong with an option. */
  datatype Fault =
    | AmbiguousShort(name: string, i: nat, j: nat)
    | AmbiguousLong(name: string, i: nat, j: nat)
    | UnwantedValue(name: string, i: nat, value: string)
    | MissingAfterShort(i: nat)
    | MissingAfterLong(name: string, i: nat)

  /** No value follows: the end, an empty token or `--`. */
  ghost predicate NoValue(post: seq<string>) {
    post == [] || post[0] == "" || post[0] == "--"
  }

  ghost predicate Shares(table: seq<LeafDef>, i: nat, j: nat) {
    i < j < |table| && table[i].Option? && table[j].Option?
  }

  /** The first token has that fault. */
  ghost predicate Faulty(f: Fault, tok: string, post: seq<string>, table: seq<LeafDef>) {
    match f
    case AmbiguousShort(name, i, j) =>
      && IsShortName(name) && StartsWith(tok, name)
      && Shares(table, i, j) && table[i].short == table[j].short == name
    case AmbiguousLong(name, i, j) =>
      && IsLongName(name) && (tok == name || StartsWith(tok, name + "="))
      && Shares(table, i, j)
      && if exists o <- table :: o.Option? && o.long == name then table[i].long == table[j].long == name
         else StartsWith(table[i].long, name) && StartsWith(table[j].long, name)
    case UnwantedValue(name, i, value) =>
      && IsLongName(name) && tok == name + "=" + value
      && i < |table| && MeansLong(table, name, table[i], i) && table[i].argcount == 0
    case MissingAfterShort(i) =>
      && i < |table| && OnlyShort(table, table[i], i) && table[i].argcount > 0
      && IsShortName(table[i].short) && tok == table[i].short && NoValue(post)
    case MissingAfterLong(name, i) =>
      && IsLongName(name) && tok == name && NoValue(post)
      && i < |table| && MeansLong(table, name, table[i], i) && table[i].argcount > 0
  }

  lemma {:induction false} TwoShort(table: seq<LeafDef>, name: string, i: nat, j: nat)
    requires Shares(table, i, j) && table[i].short == table[j].short == name
    ensures |WithShort(table, name)| > 1
  {
    if i > 0 { TwoShort(table[1..], name, i - 1, j - 1); } else { SomeShort(table[1..], name, j - 1); }
  }

  lemma {:induction false} SomeShort(table: seq<LeafDef>, name: string, j: nat)
    requires j < |table| && table[j].Option? && table[j].short == name
    ensures WithShort(table, name) != []
  {
    if j > 0 { SomeShort(table[1..], name, j - 1); }
  }

  lemma {:induction false} TwoLong(table: seq<LeafDef>, name: string, i: nat, j: nat)
    requires Shares(table, i, j) && table[i].long == table[j].long == name
    ensures |WithLong(table, name)| > 1
  {
    if i > 0 { TwoLong(table[1..], name, i - 1, j - 1); } else { SomeLong(table[1..], name, j - 1); }
  }

  lemma {:induction false} SomeLong(table: seq<LeafDef>, name: string, j: nat)
    requires j < |table| && table[j].Option? && table[j].long == name
    ensures WithLong(table, name) != []
  {
    if j > 0 { SomeLong(table[1..], name, j - 1); }
  }

  lemma {:induction false} TwoPrefixed(table: seq<LeafDef>, name: string, i: nat, j: nat)
    requires Shares(table, i, j) && StartsWith(table[i].long, name) && StartsWith(table[j].long, name) && name != ""
    ensures |WithLongPrefix(table, name)| > 1
  {
    if i > 0 { TwoPrefixed(table[1..], name, i - 1, j - 1); } else { SomePrefixed(table[1..], name, j - 1); }
  }

  lemma {:induction false} SomePrefixed(table: seq<LeafDef>, name: string, j: nat)
    requires j < |table| && table[j].Option? && StartsWith(table[j].long, name) && name != ""
    ensures WithLongPrefix(table, name) != []
  {
    if j > 0 { SomePrefixed(table[1..], name, j - 1); }
  }

  lemma TwoSimilar(f: Fault, tok: string, post: seq<string>, table: seq<LeafDef>)
    requires f.AmbiguousLong? && Faulty(f, tok, post, table)
    ensures |Similar(table, f.name)| > 1
  {
    if o :| o in table && o.Option? && o.long == f.name {
      TwoLong(table, f.name, f.i, f.j);
    } else {
      NoneLong(table, f.name);
      TwoPrefixed(table, f.name, f.i, f.j);
    }
  }

  lemma ShortRefused(f: Fault, tok: string, post: seq<string>, table: seq<LeafDef>, optionsFirst: bool)
    requires (f.AmbiguousShort? || f.MissingAfterShort?) && Faulty(f, tok, post, table)
    ensures ParseArgv([tok] + post, table, optionsFirst) == Error(OptionError)
  {
    var s := tok[1..];
    var name := if f.AmbiguousShort? then f.name else table[f.i].short;
    assert tok == "-" + s && name == ['-', s[0]];
    StackIs(s, post, table, optionsFirst);
    if f.AmbiguousShort? { TwoShort(table, name, f.i, f.j); } else { OneShort(table, table[f.i], f.i); }
  }

  /** What is attached to a faulty long option. */
  lemma FaultTail(f: Fault, tok: string, post: seq<string>, table: seq<LeafDef>) returns (tail: string)
    requires (f.AmbiguousLong? || f.UnwantedValue? || f.MissingAfterLong?) && Faulty(f, tok, post, table)
    ensures tok == f.name + tail && (tail == "" || tail[0] == '=')
    ensures (f.UnwantedValue? ==> tail != "") && (f.MissingAfterLong? ==> tail == "")
  {
    tail := tok[|f.name|..];
    if f.UnwantedValue? {
      assert tok == f.name + ("=" + f.value);
    } else if tok != f.name {
      assert tok[|f.name|] == (f.name + "=")[|f.name|];
    }
  }

  lemma LongFails(toks: seq<string>, name: string, table: seq<LeafDef>)
    requires toks != [] && EqualSign(toks[0]) == |name| && toks[0][..|name|] == name
    requires var similar := Similar(table, name);
             || |similar| > 1
             || (|similar| == 1 && if similar[0].argcount == 0 then toks[0] != name
                                   else toks[0] == name && NoValue(toks[1..]))
    ensures ParseLong(toks, table, true) == Fail(OptionError)
  {}

  lemma LongRefused(f: Fault, tok: string, post: seq<string>, table: seq<LeafDef>, optionsFirst: bool)
    requires (f.AmbiguousLong? || f.UnwantedValue? || f.MissingAfterLong?) && Faulty(f, tok, post, table)
    ensures ParseArgv([tok] + post, table, optionsFirst) == Error(OptionError)
  {
    if f.AmbiguousLong? { TwoSimilar(f, tok, post, table); } else { OneSimilar(table, f.name, table[f.i], f.i); }
    var tail := FaultTail(f, tok, post, table);
    LongTokenIs(f.name, tail, post, table, optionsFirst);
    LongFails([tok] + post, f.name, table);
  }

  /** A command line is refused at the first faulty option, whatever follows. */
  lemma FaultRefused(
    xs: seq<Item>, f: Fault, tok: string, post: seq<string>, table: seq<LeafDef>, optionsFirst: bool)
    requires AllTyped(xs, table) && (optionsFirst ==> forall x <- xs :: !x.Word?) && Faulty(f, tok, post, table)
    ensures ParseArgv(Print(xs) + ([tok] + post), table, optionsFirst) == Error(OptionError)
  {
    ItemsParse(xs, [tok] + post, table, optionsFirst);
    if f.AmbiguousShort? || f.MissingAfterShort? {
      ShortRefused(f, tok, post, table, optionsFirst);
    } else {
      LongRefused(f, tok, post, table, optionsFirst);
    }
  }
}
