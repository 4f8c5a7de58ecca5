/**
 The dictionary against argv, from one end to the other: what a program reads for an element of its usage text, said
 with what the user typed.
 */
module Dictionary {
  import opened Sequences
  import opened Patterns
  import opened Fix
  import opened Matching
  import opened MatchStore
  import opened MatchRefinement
  import opened MatchTotals
  import opened MatchResults
  import opened MatchMarking
  import opened Preparing
  import opened Docopt
  import MatchLanguage
  import MatchCompleteness
  import UsageLanguage
  import OptionParsing
  import Usage = UsageParsing
  import UsageMatching
  import Command = ArgvParsing
  import Printing = ArgvPrinting

  // ---------- What argv has for an element ----------

  /** What argv has on the channel of a leaf: the options of its name, or the positionals. */
  predicate MeantFor(x: LeafDef, given: LeafDef) {
    if x.Option? then given.Option? && given.Name() == x.Name() else !given.Option?
  }

  function Mine(argv: seq<LeafDef>, x: LeafDef): (r: seq<LeafDef>)
    ensures forall g <- r :: g in argv && MeantFor(x, g)
    ensures forall g <- argv :: MeantFor(x, g) ==> g in r
  {
    if argv == [] then [] else (if MeantFor(x, argv[0]) then [argv[0]] else []) + Mine(argv[1..], x)
  }

  ghost function Tokens(argv: seq<LeafDef>): seq<Tok> {
    View(Start(argv).left, argv)
  }

  ghost predicate AreOf(toks: seq<Tok>, argv: seq<LeafDef>, leaves: seq<LeafDef>) {
    |toks| == |leaves| && forall i :: 0 <= i < |toks| ==> toks[i].id < |argv| && argv[toks[i].id] == leaves[i]
  }

  lemma {:induction false} ChannelIsMine(argv: seq<LeafDef>, x: LeafDef, k: nat)
    requires k <= |argv|
    ensures AreOf(Proj(Tokens(argv)[k..], LeafChannel(x)), argv, Mine(argv[k..], x))
    decreases |argv| - k
  {
    if k < |argv| {
      ChannelIsMine(argv, x, k + 1);
      assert Tokens(argv)[k..][0] == TokAt(k, argv) && Tokens(argv)[k..][1..] == Tokens(argv)[k + 1..];
      assert argv[k..][0] == argv[k] && argv[k..][1..] == argv[k + 1..];
      var ts, ms := Proj(Tokens(argv)[k + 1..], LeafChannel(x)), Mine(argv[k + 1..], x);
      if MeantFor(x, argv[k]) {
        Head(TokAt(k, argv), ts);
        Head(argv[k], ms);
      }
    }
  }

  // ---------- One element of the pattern ----------

  ghost predicate IsTexts(leaves: seq<LeafDef>, texts: seq<string>) {
    |texts| == |leaves| && forall i :: 0 <= i < |leaves| ==> leaves[i].GetValue() == Str(texts[i])
  }

  /**
   The value of an element for what argv has for it. Nothing: its own. A single one that does not accumulate: `true` for
   a command, and else the value in argv. Those that accumulate, if nothing that was given up shows: their number, or
   their texts in the order of argv.
   */
  ghost predicate ValueFor(mine: seq<LeafDef>, d: LeafDef, clear: bool, v: Value) {
    if mine == [] then v == d.GetValue()
    else if !Accumulates(d.GetValue()) then |mine| == 1 && v == if d.Command? then Bool(true) else mine[0].GetValue()
    else if !clear then true
    else if d.GetValue().Long? then v == Long(|mine|)
    else v.StrList? && (!d.Command? && (forall g <- mine :: g.GetValue().Str?) ==> IsTexts(mine, v.texts))
  }

  lemma TextsOf(kept: seq<Tok>, argv: seq<LeafDef>, mine: seq<LeafDef>, d: LeafDef, v: Value)
    requires AreOf(kept, argv, mine) && TokIdsIn(kept, argv) && AddsUp(kept, d, argv, v)
    requires !d.GetValue().Long? && !d.Command? && forall g <- mine :: g.GetValue().Str?
    ensures v.StrList? && IsTexts(mine, v.texts)
  {
    forall t <- kept ensures argv[t.id].GetValue().Str? {
      var i :| 0 <= i < |kept| && kept[i] == t;
      assert mine[i] in mine;
    }
  }

  lemma ElementAnswer(p: Pattern<LeafDef>, argv: seq<LeafDef>, a: Answer, d: LeafDef)
    requires Fits(p) && Matched(p, argv, a) && a.Options? && OneDefinitionPerName(Leaves(p)) && d in Leaves(p)
    requires d.Option? || AloneOnChannel(Leaves(p), d)
    ensures d.Name() in a.values
    ensures ValueFor(Mine(argv, d), d, Clear(p, Tokens(argv), d), a.values[d.Name()])
  {
    var toks := Tokens(argv);
    var m, v := Match(p, toks), a.values[d.Name()];
    assert m.ok && m.left == [] && AnswerFor(p, argv, toks, d, v);
    TakesWholeChannel(p, toks, d);
    ChannelIsMine(argv, d, 0);
    assert toks[0..] == toks && argv[0..] == argv;
    var kept, mine := Kept(m.log, d), Mine(argv, d);
    assert AreOf(kept, argv, mine);
    if kept != [] && Accumulates(d.GetValue()) && Clear(p, toks, d) && !d.GetValue().Long? && !d.Command?
       && forall g <- mine :: g.GetValue().Str?
    {
      TextsOf(kept, argv, mine, d, v);
    }
  }

  // ---------- One element of the usage ----------

  /** How a usage text and an argv are read. */
  ghost predicate Reads(
    usage: seq<string>, doc: seq<LeafDef>, argv: seq<string>, optionsFirst: bool,
    trees: seq<Pattern<LeafDef>>, given: seq<LeafDef>)
  {
    var u := Usage.ParseExpr(usage, doc);
    u.Parsed? && u.rest == [] && u.trees == trees &&
    var c := Command.ParseArgv(argv, u.options, optionsFirst);
    c.Argv? && c.leaves == given
  }

  /** An element of the usage; its shortcut stands for all options that are described. */
  ghost predicate IsElement(trees: seq<Pattern<LeafDef>>, doc: seq<LeafDef>, x: LeafDef) {
    x in LeavesAll(trees) || (HaveShortcut(trees) && x in doc)
  }

  lemma {:induction false} MineOfFixed(argv: seq<LeafDef>, x: LeafDef, d: LeafDef)
    requires d.Name() == x.Name() && d.Option? == x.Option?
    ensures Mine(argv, d) == Mine(argv, x)
  {
    if argv != [] { MineOfFixed(argv[1..], x, d); }
  }

  lemma FixedKeeps(x: LeafDef, repeats: bool, d: LeafDef)
    requires FixedAs(x, repeats, d)
    ensures d.Name() == x.Name() && d.Option? == x.Option?
  {}

  lemma FixedAlone(usage: seq<string>, doc: seq<LeafDef>, x: LeafDef, d: LeafDef)
    requires AreOptions(doc) && Usage.ParseExpr(usage, doc).Parsed? && !x.Option?
    requires var trees := Usage.ParseExpr(usage, doc).trees;
             FixedAs(x, RepeatsIn(trees, x), d) && forall y :: y in LeavesAll(trees) && !y.Option? ==> y == x
    ensures AloneOnChannel(Leaves(Prepared(Usage.ParseExpr(usage, doc).trees, doc)), d)
  {
    var trees := Usage.ParseExpr(usage, doc).trees;
    forall e | e in Leaves(Prepared(trees, doc)) && LeafChannel(e) == LeafChannel(d) ensures e == d {
      PreparedLeaves(usage, doc, e);
      var y :| IsElement(trees, doc, y) && FixedAs(y, RepeatsIn(trees, y), e);
      FixedKeeps(x, RepeatsIn(trees, x), d);
      FixedKeeps(y, RepeatsIn(trees, y), e);
      assert y !in doc;
    }
  }

  /**
   What the dictionary has for an element of the usage: an option, or the only positional. It is what argv has for it,
   and its value before argv is the one that `fix` gives it.
   */
  lemma UsageAnswer(
    usage: seq<string>, doc: seq<LeafDef>, argv: seq<string>, help: bool, version: bool, optionsFirst: bool, a: Answer,
    trees: seq<Pattern<LeafDef>>, given: seq<LeafDef>, x: LeafDef, d: LeafDef)
    requires AreOptions(doc) && !UsageMatching.RepeatsStack(usage, doc, doc)
    requires Reads(usage, doc, argv, optionsFirst, trees, given)
    requires IsAnswer(usage, doc, argv, help, version, optionsFirst, a) && a.Options?
    requires OneDefinitionPerName(Leaves(Prepared(trees, doc)))
    requires IsElement(trees, doc, x) && FixedAs(x, RepeatsIn(trees, x), d)
    requires x.Option? || forall y :: y in LeavesAll(trees) && !y.Option? ==> y == x
    ensures Fits(Prepared(trees, doc)) && x.Name() in a.values
    ensures ValueFor(Mine(given, x), d, Clear(Prepared(trees, doc), Tokens(given), d), a.values[x.Name()])
  {
    var p := Prepared(trees, doc);
    PreparedFits(usage, doc);
    PreparedLeaves(usage, doc, d);
    if !x.Option? { FixedAlone(usage, doc, x, d); }
    ElementAnswer(p, given, a, d);
    MineOfFixed(given, x, d);
  }

  /** An option without an argument that repeats: the number of times that argv has it. */
  lemma RepeatedFlag(
    usage: seq<string>, doc: seq<LeafDef>, argv: seq<string>, help: bool, version: bool, optionsFirst: bool, a: Answer,
    trees: seq<Pattern<LeafDef>>, given: seq<LeafDef>, o: LeafDef)
    requires AreOptions(doc) && !UsageMatching.RepeatsStack(usage, doc, doc)
    requires Reads(usage, doc, argv, optionsFirst, trees, given)
    requires IsAnswer(usage, doc, argv, help, version, optionsFirst, a) && a.Options?
    requires OneDefinitionPerName(Leaves(Prepared(trees, doc))) && Fits(Prepared(trees, doc))
    requires IsElement(trees, doc, o) && o.Option? && o.argcount == 0 && RepeatsIn(trees, o)
    requires Clear(Prepared(trees, doc), Tokens(given), Option(o.short, o.long, 0, Long(0)))
    ensures o.Name() in a.values && a.values[o.Name()] == Long(|Mine(given, o)|)
  {
    var d := Option(o.short, o.long, 0, Long(0));
    UsageAnswer(usage, doc, argv, help, version, optionsFirst, a, trees, given, o, d);
  }

  /** An option with an argument that repeats: the arguments that argv has for it, in order. */
  lemma RepeatedOption(
    usage: seq<string>, doc: seq<LeafDef>, argv: seq<string>, help: bool, version: bool, optionsFirst: bool, a: Answer,
    trees: seq<Pattern<LeafDef>>, given: seq<LeafDef>, o: LeafDef)
    requires AreOptions(doc) && !UsageMatching.RepeatsStack(usage, doc, doc)
    requires Reads(usage, doc, argv, optionsFirst, trees, given)
    requires IsAnswer(usage, doc, argv, help, version, optionsFirst, a) && a.Options?
    requires OneDefinitionPerName(Leaves(Prepared(trees, doc))) && Fits(Prepared(trees, doc))
    requires IsElement(trees, doc, o) && o.Option? && o.argcount > 0 && RepeatsIn(trees, o)
    requires Clear(Prepared(trees, doc), Tokens(given), Option(o.short, o.long, o.argcount, ListOf(o.optValue)))
    requires Mine(given, o) != [] && forall g <- Mine(given, o) :: g.argcount > 0
    ensures o.Name() in a.values && a.values[o.Name()].StrList?
    ensures IsTexts(Mine(given, o), a.values[o.Name()].texts)
  {
    var d := Option(o.short, o.long, o.argcount, ListOf(o.optValue));
    UsageAnswer(usage, doc, argv, help, version, optionsFirst, a, trees, given, o, d);
    Command.ParseArgvLeaves(argv, Usage.ParseExpr(usage, doc).options, optionsFirst);
    assert forall g <- Mine(given, o) :: g in given && OptionParsing.IsGiven(g);
  }

  /**
   What is answered with a dictionary is in the language of the usage text, where its shortcut stands for the described
   options that it does not mention. For an orderly pattern, all that is in it is answered so.
   */
  lemma AcceptedIsUsage(
    usage: seq<string>, doc: seq<LeafDef>, argv: seq<string>, optionsFirst: bool, a: Answer,
    trees: seq<Pattern<LeafDef>>, given: seq<LeafDef>)
    requires AreOptions(doc) && !UsageMatching.RepeatsStack(usage, doc, doc)
    requires Reads(usage, doc, argv, optionsFirst, trees, given)
    requires IsAnswer(usage, doc, argv, false, false, optionsFirst, a)
    ensures var inUsage := UsageLanguage.InUsageAll(trees, Unmentioned(doc, LeafLists(trees)),
                                                    MatchLanguage.WordOf(Tokens(given)));
            && (a.Options? ==> inUsage)
            && (MatchCompleteness.Orderly(Prepared(trees, doc), true) ==> (a.Options? <==> inUsage))
  {
    PreparedFits(usage, doc);
    UsageLanguage.PreparedLanguage(trees, doc, MatchLanguage.WordOf(Tokens(given)));
  }

  // ---------- A usage of options only ----------

  /** `prog [options]`, as tokens and as a tree. */
  const OPTIONS_USAGE := ["(", "[", "options", "]", ")"]
  const OPTIONS_TREES: seq<Pattern<LeafDef>> := [Required([Optional([OptionsShortcut([])])])]

  lemma OptionsUsageIs(doc: seq<LeafDef>)
    ensures Usage.ParseExpr(OPTIONS_USAGE, doc) == Usage.Parsed(OPTIONS_TREES, [], doc)
  {
    var t := OPTIONS_USAGE;
    assert t[1..] == ["[", "options", "]", ")"] && t[2..] == ["options", "]", ")"] && t[3..] == ["]", ")"];
    assert t[4..] == [")"] && t[5..] == [];
    assert t[1..][1..] == t[2..] && t[2..][1..] == t[3..] && t[3..][1..] == t[4..] && t[4..][1..] == t[5..];
    assert Usage.ParseAtom(t[2..], doc) == Usage.Parsed([OptionsShortcut([])], t[3..], doc);
    assert Usage.ParseSeq(t[3..], doc) == Usage.Parsed([], t[3..], doc);
    assert Usage.ParseExpr(t[2..], doc) == Usage.Parsed([OptionsShortcut([])], t[3..], doc);
    assert Usage.ParseAtom(t[1..], doc) == Usage.Parsed([Optional([OptionsShortcut([])])], t[4..], doc);
    assert Usage.ParseSeq(t[4..], doc) == Usage.Parsed([], t[4..], doc);
    assert Usage.ParseExpr(t[1..], doc) == Usage.Parsed([Optional([OptionsShortcut([])])], t[4..], doc);
    assert Usage.ParseAtom(t, doc) == Usage.Parsed(OPTIONS_TREES, t[5..], doc);
    assert Usage.ParseSeq(t[5..], doc) == Usage.Parsed([], [], doc);
  }

  lemma OptionsUsageStacks(doc: seq<LeafDef>)
    ensures !UsageMatching.RepeatsStack(OPTIONS_USAGE, doc, doc)
  {
    var t := OPTIONS_USAGE;
    assert t[1..][1..] == t[2..] && t[2..][1..] == t[3..] && t[3..][1..] == t[4..] && t[4..][1..] == [];
    UsageMatching.SymbolScan(t, doc, doc);
    UsageMatching.SymbolScan(t[1..], doc, doc);
    UsageMatching.SymbolScan(t[2..], doc, doc);
    UsageMatching.SymbolScan(t[3..], doc, doc);
    UsageMatching.SymbolScan(t[4..], doc, doc);
  }

  /** An option is entered under its long name if it has one. */
  function Key(o: LeafDef): string
    requires o.Option?
  {
    if o.long != "" then o.long else o.short
  }

  /** Described options that can be told apart by name, with a flag or a text as their own value, if any. */
  ghost predicate Described(doc: seq<LeafDef>) {
    && AreOptions(doc) && (forall o <- doc :: !Accumulates(o.GetValue()))
    && forall i, j :: 0 <= i < j < |doc| ==> doc[i].Name() != doc[j].Name()
  }

  lemma DescribedOnce(doc: seq<LeafDef>, o: LeafDef, o': LeafDef)
    requires Described(doc) && o in doc && o' in doc && o.Name() == o'.Name()
    ensures o == o'
  {
    var i :| 0 <= i < |doc| && doc[i] == o;
    var j :| 0 <= j < |doc| && doc[j] == o';
  }

  /** Options typed one by one, none twice. */
  ghost predicate EachOnce(xs: seq<Printing.Item>, doc: seq<LeafDef>) {
    && Printing.AllTyped(xs, doc) && (forall x <- xs :: !x.Word?)
    && forall i, j :: 0 <= i < j < |xs| ==> xs[i].o != xs[j].o
  }

  lemma TypedIn(x: Printing.Item, doc: seq<LeafDef>)
    requires Printing.Typed(x, doc) && !x.Word?
    ensures x.o in doc && Printing.LeafOf(x).Option? && Printing.LeafOf(x).Name() == x.o.Name()
  {
    if x.Short? || x.ShortValue? || x.ShortApart? {
      var i :| Printing.OnlyShort(doc, x.o, i);
    } else {
      var i :| Printing.MeansLong(doc, x.name, x.o, i);
    }
  }

  // The tree has the described options in place of the shortcut, and none of them repeats.

  lemma OptionsDoNotRepeat(d: LeafDef)
    ensures !RepeatsIn(OPTIONS_TREES, d) && LeafLists(OPTIONS_TREES) == [] && HaveShortcut(OPTIONS_TREES)
    ensures LeavesAll(OPTIONS_TREES) == {}
  {
    var short: Pattern<LeafDef> := OptionsShortcut([]);
    var group := Optional([short]);
    OneTree(short);
    OneTree(group);
    OneTree(Required([group]));
  }

  /** A list of one tree. */
  lemma OneTree(p: Pattern<LeafDef>)
    ensures LeafLists([p]) == LeafList(p) && LeavesAll([p]) == Leaves(p) && HaveShortcut([p]) == HasShortcut(p)
    ensures OutlineAll([p]) == [Outline(p)]
    ensures forall x :: MaxCountAll([Outline(p)], x) == Plus(MaxCount(Outline(p), x), Most(0))
    ensures forall opts :: FillAll([p], opts) == [Fill(p, opts)]
  {
    assert [p][1..] == [] && [Outline(p)][1..] == [];
  }

  lemma OptionsPattern(doc: seq<LeafDef>)
    ensures Prepared(OPTIONS_TREES, doc) ==
            Required([Required([Optional([OptionsShortcut(Usage.Leaves(Unmentioned(doc, [])))])])])
  {
    var short: Pattern<LeafDef> := OptionsShortcut([]);
    OneTree(short);
    OneTree(Optional([short]));
    OneTree(OPTIONS_TREES[0]);
    OptionsUsageIs(doc);
    ExprBare(OPTIONS_USAGE, doc);
    forall d ensures !RepeatsIn(OPTIONS_TREES, d) && LeafLists(OPTIONS_TREES) == [] { OptionsDoNotRepeat(d); }
    PreparedOnce(OPTIONS_TREES, doc);
  }

  lemma {:induction false} OptionsLoose(opts: seq<LeafDef>, x: LeafDef)
    ensures MatchCompleteness.LooseAll(Usage.Leaves(opts), x)
  {
    if opts != [] {
      assert Usage.Leaves(opts)[1..] == Usage.Leaves(opts[1..]);
      OptionsLoose(opts[1..], x);
    }
  }

  lemma {:induction false} OptionsOrderly(opts: seq<LeafDef>, last: bool)
    ensures MatchCompleteness.OrderlyEach(Usage.Leaves(opts), last)
  {
    if opts != [] {
      assert Usage.Leaves(opts)[1..] == Usage.Leaves(opts[1..]);
      OptionsOrderly(opts[1..], last);
      forall x <- Matching.Leaves(Usage.Leaves(opts)[0])
        ensures MatchCompleteness.LooseAll(Usage.Leaves(opts)[1..], x)
      {
        OptionsLoose(opts[1..], x);
      }
    }
  }

  /** A group of one that is orderly is orderly. */
  lemma OneOrderly(p: Pattern<LeafDef>)
    requires MatchCompleteness.Orderly(p, true)
    ensures MatchCompleteness.Orderly(Required([p]), true) && MatchCompleteness.Orderly(Optional([p]), true)
  {
    var ps := [p];
    assert ps[1..] == [] && MatchCompleteness.OrderlyAll(ps[1..], true) && MatchCompleteness.OrderlyEach(ps[1..], true);
    assert MatchCompleteness.Orderly(ps[0], true && |ps| == 1);
    assert forall x :: MatchCompleteness.DroppableAll(ps[1..], x) && MatchCompleteness.LooseAll(ps[1..], x);
    assert MatchCompleteness.OrderlyAll(ps, true) && MatchCompleteness.OrderlyEach(ps, true);
  }

  lemma OptionsPatternOrderly(doc: seq<LeafDef>)
    ensures MatchCompleteness.Orderly(Prepared(OPTIONS_TREES, doc), true)
  {
    var opts := Unmentioned(doc, []);
    var short := OptionsShortcut(Usage.Leaves(opts));
    OptionsOrderly(opts, true);
    OneOrderly(short);
    OneOrderly(Optional([short]));
    OneOrderly(Required([Optional([short])]));
    OptionsPattern(doc);
  }

  /** Every word of options that are described, each at most once, is a word of the usage. */
  lemma OptionsWord(doc: seq<LeafDef>, w: MatchLanguage.Word)
    requires AreOptions(doc) && w.pos == [] && w.opts <= UsageLanguage.Names(Unmentioned(doc, []))
    ensures MatchLanguage.In(Prepared(OPTIONS_TREES, doc), w)
  {
    var opts := Unmentioned(doc, []);
    var short: Pattern<LeafDef> := OptionsShortcut([]);
    OneWord(short, opts, w);
    OneWord(Optional([short]), opts, w);
    OneWord(OPTIONS_TREES[0], opts, w);
    OptionsDoNotRepeat(Option("", "", 0, Empty));
    UsageLanguage.PreparedLanguage(OPTIONS_TREES, doc, w);
  }

  lemma OneWord(p: Pattern<LeafDef>, opts: seq<LeafDef>, w: MatchLanguage.Word)
    requires UsageLanguage.InUsage(p, opts, w)
    ensures UsageLanguage.InUsageAll([p], opts, w) && UsageLanguage.InUsageEach([p], opts, w)
  {
    var ps := [p];
    assert ps[1..] == [];
    MatchLanguage.JoinUnit(w);
    assert w == MatchLanguage.Join(w, MatchLanguage.NO_WORD);
    assert UsageLanguage.InUsageAll(ps[1..], opts, MatchLanguage.NO_WORD);
    assert UsageLanguage.InUsageEach(ps[1..], opts, MatchLanguage.NO_WORD);
  }

  // What argv has for each option.

  lemma {:induction false} NoneMine(argv: seq<LeafDef>, x: LeafDef)
    requires forall g <- argv :: !MeantFor(x, g)
    ensures Mine(argv, x) == []
  {
    if argv != [] { NoneMine(argv[1..], x); }
  }

  lemma ItemIsFor(x: Printing.Item, doc: seq<LeafDef>, o: LeafDef)
    requires Described(doc) && Printing.Typed(x, doc) && !x.Word? && o in doc
    ensures MeantFor(o, Printing.LeafOf(x)) <==> x.o == o
  {
    TypedIn(x, doc);
    if x.o.Name() == o.Name() { DescribedOnce(doc, x.o, o); }
  }

  lemma NotTyped(xs: seq<Printing.Item>, doc: seq<LeafDef>, o: LeafDef)
    requires Described(doc) && EachOnce(xs, doc) && o in doc && forall x <- xs :: x.o != o
    ensures Mine(Printing.LeavesOf(xs), o) == []
  {
    var given := Printing.LeavesOf(xs);
    forall g <- given ensures !MeantFor(o, g) {
      var i :| 0 <= i < |given| && given[i] == g;
      assert xs[i] in xs;
      ItemIsFor(xs[i], doc, o);
    }
    NoneMine(given, o);
  }

  lemma OnceTail(xs: seq<Printing.Item>, doc: seq<LeafDef>)
    requires EachOnce(xs, doc) && xs != []
    ensures Printing.Typed(xs[0], doc) && !xs[0].Word? && EachOnce(xs[1..], doc)
    ensures forall y <- xs[1..] :: y.o != xs[0].o
  {
    var rest := xs[1..];
    assert xs[0] in xs && (forall y <- rest :: y in xs) && forall k :: 0 <= k < |rest| ==> rest[k] == xs[k + 1];
  }

  lemma MineCons(g: LeafDef, rest: seq<LeafDef>, o: LeafDef)
    ensures Mine([g] + rest, o) == (if MeantFor(o, g) then [g] else []) + Mine(rest, o)
  {
    Head(g, rest);
  }

  lemma {:induction false} TypedOnce(xs: seq<Printing.Item>, doc: seq<LeafDef>, i: nat)
    requires Described(doc) && EachOnce(xs, doc) && i < |xs| && xs[i].o in doc
    ensures Mine(Printing.LeavesOf(xs), xs[i].o) == [Printing.LeafOf(xs[i])]
  {
    var rest, o := xs[1..], xs[i].o;
    OnceTail(xs, doc);
    ItemIsFor(xs[0], doc, o);
    MineCons(Printing.LeafOf(xs[0]), Printing.LeavesOf(rest), o);
    if i == 0 {
      NotTyped(rest, doc, o);
    } else {
      assert rest[i - 1] == xs[i] && xs[i] in rest;
      TypedOnce(rest, doc, i - 1);
    }
  }

  lemma MineIsItem(xs: seq<Printing.Item>, doc: seq<LeafDef>, o: LeafDef)
    requires Described(doc) && EachOnce(xs, doc) && o in doc
    ensures forall x <- xs :: x.o == o ==> Mine(Printing.LeavesOf(xs), o) == [Printing.LeafOf(x)]
    ensures (forall x <- xs :: x.o != o) ==> Mine(Printing.LeavesOf(xs), o) == []
  {
    forall x <- xs | x.o == o ensures Mine(Printing.LeavesOf(xs), o) == [Printing.LeafOf(x)] {
      var i :| 0 <= i < |xs| && xs[i] == x;
      TypedOnce(xs, doc, i);
    }
    if forall x <- xs :: x.o != o { NotTyped(xs, doc, o); }
  }

  lemma {:induction false} NamesOfOptions(opts: seq<LeafDef>, o: LeafDef)
    requires o in opts
    ensures UsageLanguage.Names(opts)[o.Name()] >= 1
  {
    if opts[0] != o { NamesOfOptions(opts[1..], o); }
  }

  /** No positionals, and every name at most once. */
  lemma ItemsWord(xs: seq<Printing.Item>, doc: seq<LeafDef>)
    requires Described(doc) && EachOnce(xs, doc)
    ensures var w := MatchLanguage.WordOf(Tokens(Printing.LeavesOf(xs)));
            w.pos == [] && w.opts <= UsageLanguage.Names(Unmentioned(doc, []))
  {
    var given := Printing.LeavesOf(xs);
    var toks, opts := Tokens(given), Unmentioned(doc, []);
    var w := MatchLanguage.WordOf(toks);
    NoPositionals(xs, doc);
    forall name ensures w.opts[name] <= UsageLanguage.Names(opts)[name] {
      OnceInWord(xs, doc, name);
    }
  }

  lemma NoPositionals(xs: seq<Printing.Item>, doc: seq<LeafDef>)
    requires Described(doc) && EachOnce(xs, doc)
    ensures MatchLanguage.WordOf(Tokens(Printing.LeavesOf(xs))).pos == []
  {
    var given, x := Printing.LeavesOf(xs), Argument("", Empty);
    var toks := Tokens(given);
    assert toks[0..] == toks && given[0..] == given;
    ChannelIsMine(given, x, 0);
    forall g <- given ensures g.Option? {
      var i :| 0 <= i < |given| && given[i] == g;
      assert xs[i] in xs;
      TypedIn(xs[i], doc);
    }
    NoneMine(given, x);
    MatchLanguage.WordOnChannels(toks, "");
  }

  /** How often an option occurs in the word of argv. */
  lemma OptionInWord(argv: seq<LeafDef>, o: LeafDef)
    requires o.Option?
    ensures MatchLanguage.WordOf(Tokens(argv)).opts[o.Name()] == |Mine(argv, o)|
  {
    var toks := Tokens(argv);
    assert toks[0..] == toks && argv[0..] == argv;
    MatchLanguage.WordOnChannels(toks, o.Name());
    ChannelIsMine(argv, o, 0);
  }

  lemma OnceInWord(xs: seq<Printing.Item>, doc: seq<LeafDef>, name: string)
    requires Described(doc) && EachOnce(xs, doc)
    ensures MatchLanguage.WordOf(Tokens(Printing.LeavesOf(xs))).opts[name] <=
            UsageLanguage.Names(Unmentioned(doc, []))[name]
  {
    var given, o := Printing.LeavesOf(xs), Option("", name, 0, Empty);
    OptionInWord(given, o);
    var mine := Mine(given, o);
    if mine != [] {
      assert mine[0] in mine;
      var i :| 0 <= i < |given| && given[i] == mine[0];
      ItemOnce(xs, doc, o, i);
    }
  }

  lemma ItemOnce(xs: seq<Printing.Item>, doc: seq<LeafDef>, o: LeafDef, i: nat)
    requires Described(doc) && EachOnce(xs, doc) && o.Option? && i < |xs|
    requires Printing.LeavesOf(xs)[i].Name() == o.Name()
    ensures |Mine(Printing.LeavesOf(xs), o)| == 1 && UsageLanguage.Names(Unmentioned(doc, []))[o.Name()] >= 1
  {
    assert xs[i] in xs;
    TypedIn(xs[i], doc);
    MineIsItem(xs, doc, xs[i].o);
    MineOfFixed(Printing.LeavesOf(xs), o, xs[i].o);
    NamesOfOptions(Unmentioned(doc, []), xs[i].o);
  }

  lemma OptionsAccepted(
    doc: seq<LeafDef>, xs: seq<Printing.Item>, help: bool, version: bool, optionsFirst: bool, a: Answer)
    requires Described(doc) && EachOnce(xs, doc) && !UsageMatching.RepeatsStack(OPTIONS_USAGE, doc, doc)
    requires !(help && Asks(Printing.LeavesOf(xs), {"-h", "--help"}))
    requires !(version && Asks(Printing.LeavesOf(xs), {"--version"}))
    requires IsAnswer(OPTIONS_USAGE, doc, Printing.Print(xs), help, version, optionsFirst, a)
    ensures var p := Prepared(OPTIONS_TREES, doc); Fits(p) && Matched(p, Printing.LeavesOf(xs), a) && a.Options?
  {
    OptionsUsageIs(doc);
    ItemsRead(xs, doc, optionsFirst);
    PreparedFits(OPTIONS_USAGE, doc);
    OptionsPatternOrderly(doc);
    ItemsWord(xs, doc);
    OptionsWord(doc, MatchLanguage.WordOf(Tokens(Printing.LeavesOf(xs))));
  }

  lemma OptionAnswer(doc: seq<LeafDef>, xs: seq<Printing.Item>, a: Answer, o: LeafDef)
    requires Described(doc) && EachOnce(xs, doc) && o in doc && a.Options?
    requires var p := Prepared(OPTIONS_TREES, doc); Fits(p) && Matched(p, Printing.LeavesOf(xs), a)
    ensures Key(o) in a.values
    ensures forall x <- xs :: x.o == o ==> a.values[Key(o)] == Printing.LeafOf(x).GetValue()
    ensures (forall x <- xs :: x.o != o) ==> a.values[Key(o)] == o.GetValue()
  {
    OptionsLeaves(doc, o);
    OptionsDefinedOnce(doc);
    ElementAnswer(Prepared(OPTIONS_TREES, doc), Printing.LeavesOf(xs), a, o);
    MineIsItem(xs, doc, o);
  }

  lemma OptionsKeys(doc: seq<LeafDef>, given: seq<LeafDef>, a: Answer, name: string)
    requires Described(doc) && a.Options?
    requires var p := Prepared(OPTIONS_TREES, doc); Fits(p) && Matched(p, given, a)
    ensures name in a.values <==> exists o <- doc :: Key(o) == name
  {
    var p := Prepared(OPTIONS_TREES, doc);
    OptionsDefinedOnce(doc);
    assert Answers(p, given, Tokens(given), a.values);
    forall d ensures d in Leaves(p) <==> d in doc { OptionsLeaves(doc, d); }
  }

  /**
   With `prog [options]`, described options in any order, each at most once, and however they are typed, are answered
   with a dictionary: it has the values that are typed, and of the other options the ones that are described.
   */
  lemma OptionsAnswer(
    doc: seq<LeafDef>, xs: seq<Printing.Item>, help: bool, version: bool, optionsFirst: bool, a: Answer)
    requires Described(doc) && EachOnce(xs, doc) && !UsageMatching.RepeatsStack(OPTIONS_USAGE, doc, doc)
    requires !(help && Asks(Printing.LeavesOf(xs), {"-h", "--help"}))
    requires !(version && Asks(Printing.LeavesOf(xs), {"--version"}))
    requires IsAnswer(OPTIONS_USAGE, doc, Printing.Print(xs), help, version, optionsFirst, a)
    ensures a.Options? && forall name :: name in a.values <==> exists o <- doc :: Key(o) == name
    ensures forall x <- xs :: x.o in doc && a.values[Key(x.o)] == Printing.LeafOf(x).GetValue()
    ensures forall o <- doc :: (forall x <- xs :: x.o != o) ==> a.values[Key(o)] == o.GetValue()
  {
    OptionsAccepted(doc, xs, help, version, optionsFirst, a);
    forall name ensures name in a.values <==> exists o <- doc :: Key(o) == name {
      OptionsKeys(doc, Printing.LeavesOf(xs), a, name);
    }
    forall x <- xs ensures x.o in doc && a.values[Key(x.o)] == Printing.LeafOf(x).GetValue() {
      TypedIn(x, doc);
      OptionAnswer(doc, xs, a, x.o);
    }
    forall o <- doc | forall x <- xs :: x.o != o ensures a.values[Key(o)] == o.GetValue() {
      OptionAnswer(doc, xs, a, o);
    }
  }

  lemma ItemsRead(xs: seq<Printing.Item>, doc: seq<LeafDef>, optionsFirst: bool)
    requires EachOnce(xs, doc)
    ensures Command.ParseArgv(Printing.Print(xs), doc, optionsFirst) == Command.Argv(Printing.LeavesOf(xs), doc)
  {
    Printing.PrintedParses(xs, [], doc, optionsFirst);
    assert Printing.Print(xs) + [] == Printing.Print(xs);
  }

  lemma OptionsLeaves(doc: seq<LeafDef>, d: LeafDef)
    ensures d in Leaves(Prepared(OPTIONS_TREES, doc)) <==> d in doc
  {
    OptionsUsageIs(doc);
    PreparedLeaves(OPTIONS_USAGE, doc, d);
    forall x ensures !RepeatsIn(OPTIONS_TREES, x) && HaveShortcut(OPTIONS_TREES) && LeavesAll(OPTIONS_TREES) == {} {
      OptionsDoNotRepeat(x);
    }
    if d in doc { assert FixedAs(d, RepeatsIn(OPTIONS_TREES, d), d); }
  }

  lemma OptionsDefinedOnce(doc: seq<LeafDef>)
    requires Described(doc)
    ensures OneDefinitionPerName(Leaves(Prepared(OPTIONS_TREES, doc)))
  {
    var p := Prepared(OPTIONS_TREES, doc);
    forall o, o' | o in Leaves(p) && o' in Leaves(p) && o.Name() == o'.Name() ensures o == o' {
      OptionsLeaves(doc, o);
      OptionsLeaves(doc, o');
      DescribedOnce(doc, o, o');
    }
  }
}
