/** What a usage text accepts, by the grammar of its text: options shortcuts included, whatever `fix` does. */
module UsageLanguage {
  import opened Sequences
  import opened Patterns
  import opened Fix
  import opened Matching
  import opened MatchLanguage
  import opened Preparing
  import Usage = UsageParsing

  // ---------- The language of a usage ----------

  function Names(opts: seq<LeafDef>): multiset<string> {
    if opts == [] then multiset{} else multiset{opts[0].Name()} + Names(opts[1..])
  }

  /**
   The words of a usage, where a shortcut stands for the words without positionals in which each of `opts` occurs at
   most once.
   */
  ghost predicate InUsage(p: Pattern<LeafDef>, opts: seq<LeafDef>, w: Word)
    decreases p, 0, 1
  {
    match p
    case Leaf(_) => In(p, w)
    case OptionsShortcut(_) => w.pos == [] && w.opts <= Names(opts)
    case Required(ps) => InUsageAll(ps, opts, w)
    case Optional(ps) => InUsageEach(ps, opts, w)
    case OneOrMore(ps) => |ps| == 1 && exists n: nat :: n >= 1 && InUsagePower(ps[0], opts, n, w)
    case Either(ps) => exists q <- ps :: InUsage(q, opts, w)
  }

  ghost predicate InUsageAll(ps: seq<Pattern<LeafDef>>, opts: seq<LeafDef>, w: Word)
    decreases ps, 0, 0
  {
    if ps == [] then w == NO_WORD
    else exists u, v :: w == Join(u, v) && InUsage(ps[0], opts, u) && InUsageAll(ps[1..], opts, v)
  }

  ghost predicate InUsageEach(ps: seq<Pattern<LeafDef>>, opts: seq<LeafDef>, w: Word)
    decreases ps, 0, 0
  {
    if ps == [] then w == NO_WORD
    else exists u, v ::
        w == Join(u, v) && (u == NO_WORD || InUsage(ps[0], opts, u)) && InUsageEach(ps[1..], opts, v)
  }

  ghost predicate InUsagePower(p: Pattern<LeafDef>, opts: seq<LeafDef>, n: nat, w: Word)
    decreases p, n, 0
  {
    if n == 0 then w == NO_WORD
    else exists u, v :: w == Join(u, v) && InUsage(p, opts, u) && InUsagePower(p, opts, n - 1, v)
  }

  lemma {:induction false} EachIsOptions(opts: seq<LeafDef>, w: Word)
    requires AreOptions(opts) && InEach(Usage.Leaves(opts), w)
    ensures w.pos == [] && w.opts <= Names(opts)
  {
    var ps := Usage.Leaves(opts);
    if opts != [] {
      assert ps[1..] == Usage.Leaves(opts[1..]);
      assert opts[0] in opts && forall o <- opts[1..] :: o in opts;
      var u, v :| w == Join(u, v) && (u == NO_WORD || In(ps[0], u)) && InEach(ps[1..], v);
      EachIsOptions(opts[1..], v);
      OptionJoined(opts[0], u, v, Names(opts[1..]));
    }
  }

  lemma OptionJoined(o: LeafDef, u: Word, v: Word, names: multiset<string>)
    requires o.Option? && (u == NO_WORD || In(Leaf(o), u)) && v.pos == [] && v.opts <= names
    ensures Join(u, v).pos == [] && Join(u, v).opts <= multiset{o.Name()} + names
  {}

  lemma {:induction false} OptionsAreEach(opts: seq<LeafDef>, bag: multiset<string>)
    requires AreOptions(opts) && bag <= Names(opts)
    ensures InEach(Usage.Leaves(opts), Word([], bag))
  {
    var ps := Usage.Leaves(opts);
    if opts != [] {
      assert ps[1..] == Usage.Leaves(opts[1..]);
      assert opts[0] in opts && forall o <- opts[1..] :: o in opts;
      var here := if opts[0].Name() in bag then multiset{opts[0].Name()} else multiset{};
      BagTail(bag, opts[0].Name(), Names(opts[1..]));
      OptionsAreEach(opts[1..], bag - here);
      OptionFirst(opts[0], ps, here, bag - here);
    }
  }

  lemma BagTail(bag: multiset<string>, name: string, rest: multiset<string>)
    requires bag <= multiset{name} + rest
    ensures var here := if name in bag then multiset{name} else multiset{};
            bag - here <= rest && here + (bag - here) == bag
  {}

  lemma OptionFirst(o: LeafDef, ps: seq<Pattern<LeafDef>>, here: multiset<string>, rest: multiset<string>)
    requires o.Option? && ps != [] && ps[0] == Leaf(o) && InEach(ps[1..], Word([], rest))
    requires here == multiset{} || here == multiset{o.Name()}
    ensures InEach(ps, Word([], here + rest))
  {
    var u := Word([], here);
    assert u == NO_WORD || In(ps[0], u);
    assert Join(u, Word([], rest)) == Word([], here + rest);
  }

  /** Options in any order, each or not. */
  lemma EachOption(opts: seq<LeafDef>, w: Word)
    requires AreOptions(opts)
    ensures InEach(Usage.Leaves(opts), w) <==> w.pos == [] && w.opts <= Names(opts)
  {
    if InEach(Usage.Leaves(opts), w) { EachIsOptions(opts, w); }
    if w.pos == [] && w.opts <= Names(opts) { OptionsAreEach(opts, w.opts); }
  }

  lemma {:induction false} FillLanguage(p: Pattern<LeafDef>, opts: seq<LeafDef>, w: Word)
    requires AreOptions(opts)
    ensures In(Fill(p, Usage.Leaves(opts)), w) <==> InUsage(p, opts, w)
    decreases p, 0, 1
  {
    match p
    case Leaf(_) =>
    case OptionsShortcut(_) => EachOption(opts, w);
    case Required(ps) => FillAllLanguage(ps, opts, w);
    case Optional(ps) => FillEachLanguage(ps, opts, w);
    case OneOrMore(ps) => FillMoreLanguage(ps, opts, w);
    case Either(ps) => FillSomeLanguage(ps, opts, w);
  }

  lemma {:induction false} FillAllLanguage(ps: seq<Pattern<LeafDef>>, opts: seq<LeafDef>, w: Word)
    requires AreOptions(opts)
    ensures InAll(FillAll(ps, Usage.Leaves(opts)), w) <==> InUsageAll(ps, opts, w)
    decreases ps, 0, 0
  {
    if ps != [] {
      var q, qs := Fill(ps[0], Usage.Leaves(opts)), FillAll(ps[1..], Usage.Leaves(opts));
      Head(q, qs);
      forall u, v | w == Join(u, v)
        ensures In(q, u) && InAll(qs, v) <==> InUsage(ps[0], opts, u) && InUsageAll(ps[1..], opts, v)
      {
        FillLanguage(ps[0], opts, u);
        FillAllLanguage(ps[1..], opts, v);
      }
    }
  }

  lemma {:induction false} FillEachLanguage(ps: seq<Pattern<LeafDef>>, opts: seq<LeafDef>, w: Word)
    requires AreOptions(opts)
    ensures InEach(FillAll(ps, Usage.Leaves(opts)), w) <==> InUsageEach(ps, opts, w)
    decreases ps, 0, 0
  {
    if ps != [] {
      var q, qs := Fill(ps[0], Usage.Leaves(opts)), FillAll(ps[1..], Usage.Leaves(opts));
      Head(q, qs);
      forall u, v | w == Join(u, v)
        ensures In(q, u) && InEach(qs, v) <==> InUsage(ps[0], opts, u) && InUsageEach(ps[1..], opts, v)
      {
        FillLanguage(ps[0], opts, u);
        FillEachLanguage(ps[1..], opts, v);
      }
      forall v ensures InEach(qs, v) <==> InUsageEach(ps[1..], opts, v) { FillEachLanguage(ps[1..], opts, v); }
    }
  }

  lemma {:induction false} FillPowerLanguage(p: Pattern<LeafDef>, opts: seq<LeafDef>, n: nat, w: Word)
    requires AreOptions(opts)
    ensures InPower(Fill(p, Usage.Leaves(opts)), n, w) <==> InUsagePower(p, opts, n, w)
    decreases p, 1, n
  {
    if n > 0 {
      var q := Fill(p, Usage.Leaves(opts));
      forall u, v | w == Join(u, v)
        ensures In(q, u) && InPower(q, n - 1, v) <==> InUsage(p, opts, u) && InUsagePower(p, opts, n - 1, v)
      {
        FillLanguage(p, opts, u);
        FillPowerLanguage(p, opts, n - 1, v);
      }
    }
  }

  lemma HowOften(ps: seq<Pattern<LeafDef>>, w: Word) returns (n: nat)
    requires In(OneOrMore(ps), w)
    ensures |ps| == 1 && n >= 1 && InPower(ps[0], n, w)
  {
    n :| n >= 1 && InPower(ps[0], n, w);
  }

  lemma MoreIs(ps: seq<Pattern<LeafDef>>, q: Pattern<LeafDef>, w: Word)
    requires |ps| == 1 && ps[0] == q
    ensures In(OneOrMore(ps), w) <==> exists n: nat :: n >= 1 && InPower(q, n, w)
  {
    if In(OneOrMore(ps), w) { var n := HowOften(ps, w); }
    if n: nat :| n >= 1 && InPower(q, n, w) { assert InPower(ps[0], n, w); }
  }

  lemma {:induction false} FillMoreLanguage(ps: seq<Pattern<LeafDef>>, opts: seq<LeafDef>, w: Word)
    requires AreOptions(opts)
    ensures In(OneOrMore(FillAll(ps, Usage.Leaves(opts))), w) <==> InUsage(OneOrMore(ps), opts, w)
    decreases ps, 0, 0
  {
    if |ps| == 1 {
      assert ps[1..] == [];
      var q := Fill(ps[0], Usage.Leaves(opts));
      assert FillAll(ps, Usage.Leaves(opts)) == [q];
      forall n: nat ensures InPower(q, n, w) <==> InUsagePower(ps[0], opts, n, w) {
        FillPowerLanguage(ps[0], opts, n, w);
      }
      MoreIs(FillAll(ps, Usage.Leaves(opts)), q, w);
    }
  }

  lemma {:induction false} FillSomeLanguage(ps: seq<Pattern<LeafDef>>, opts: seq<LeafDef>, w: Word)
    requires AreOptions(opts)
    ensures InSome(FillAll(ps, Usage.Leaves(opts)), w) <==> exists q <- ps :: InUsage(q, opts, w)
    decreases ps, 0, 0
  {
    if ps != [] {
      FillLanguage(ps[0], opts, w);
      FillSomeLanguage(ps[1..], opts, w);
      Head(Fill(ps[0], Usage.Leaves(opts)), FillAll(ps[1..], Usage.Leaves(opts)));
      assert (exists q <- ps :: InUsage(q, opts, w)) <==>
             InUsage(ps[0], opts, w) || exists q <- ps[1..] :: InUsage(q, opts, w) by
      {
        assert ps == [ps[0]] + ps[1..];
      }
    }
  }

  // ---------- Marking changes no word ----------

  lemma {:induction false} MarkLanguage(p: Pattern<LeafDef>, all: seq<Pattern<LeafDef>>, w: Word)
    ensures In(Mark(p, all), w) <==> In(p, w)
    decreases p, 0, 1
  {
    match p
    case Leaf(_) =>
    case Required(ps) => MarkAllLanguage(ps, all, w);
    case Optional(ps) => MarkEachLanguage(ps, all, w);
    case OptionsShortcut(ps) => MarkEachLanguage(ps, all, w);
    case OneOrMore(ps) => MarkMoreLanguage(ps, all, w);
    case Either(ps) => MarkSomeLanguage(ps, all, w);
  }

  lemma {:induction false} MarkAllLanguage(ps: seq<Pattern<LeafDef>>, all: seq<Pattern<LeafDef>>, w: Word)
    ensures InAll(MarkAll(ps, all), w) <==> InAll(ps, w)
    decreases ps, 0, 0
  {
    if ps != [] {
      var q, qs := Mark(ps[0], all), MarkAll(ps[1..], all);
      Head(q, qs);
      forall u, v | w == Join(u, v) ensures In(q, u) && InAll(qs, v) <==> In(ps[0], u) && InAll(ps[1..], v) {
        MarkLanguage(ps[0], all, u);
        MarkAllLanguage(ps[1..], all, v);
      }
    }
  }

  lemma {:induction false} MarkEachLanguage(ps: seq<Pattern<LeafDef>>, all: seq<Pattern<LeafDef>>, w: Word)
    ensures InEach(MarkAll(ps, all), w) <==> InEach(ps, w)
    decreases ps, 0, 0
  {
    if ps != [] {
      var q, qs := Mark(ps[0], all), MarkAll(ps[1..], all);
      Head(q, qs);
      forall u, v | w == Join(u, v) ensures In(q, u) && InEach(qs, v) <==> In(ps[0], u) && InEach(ps[1..], v) {
        MarkLanguage(ps[0], all, u);
        MarkEachLanguage(ps[1..], all, v);
      }
      forall v ensures InEach(qs, v) <==> InEach(ps[1..], v) { MarkEachLanguage(ps[1..], all, v); }
    }
  }

  lemma {:induction false} MarkPowerLanguage(p: Pattern<LeafDef>, all: seq<Pattern<LeafDef>>, n: nat, w: Word)
    ensures InPower(Mark(p, all), n, w) <==> InPower(p, n, w)
    decreases p, 1, n
  {
    if n > 0 {
      var q := Mark(p, all);
      forall u, v | w == Join(u, v)
        ensures In(q, u) && InPower(q, n - 1, v) <==> In(p, u) && InPower(p, n - 1, v)
      {
        MarkLanguage(p, all, u);
        MarkPowerLanguage(p, all, n - 1, v);
      }
    }
  }

  lemma {:induction false} MarkMoreLanguage(ps: seq<Pattern<LeafDef>>, all: seq<Pattern<LeafDef>>, w: Word)
    ensures In(OneOrMore(MarkAll(ps, all)), w) <==> In(OneOrMore(ps), w)
    decreases ps, 0, 0
  {
    if |ps| == 1 {
      var q := Mark(ps[0], all);
      forall n: nat ensures InPower(q, n, w) <==> InPower(ps[0], n, w) { MarkPowerLanguage(ps[0], all, n, w); }
      MoreIs(MarkAll(ps, all), q, w);
      MoreIs(ps, ps[0], w);
    }
  }

  lemma {:induction false} MarkSomeLanguage(ps: seq<Pattern<LeafDef>>, all: seq<Pattern<LeafDef>>, w: Word)
    ensures InSome(MarkAll(ps, all), w) <==> InSome(ps, w)
    decreases ps, 0, 0
  {
    if ps != [] {
      MarkLanguage(ps[0], all, w);
      MarkSomeLanguage(ps[1..], all, w);
      Head(Mark(ps[0], all), MarkAll(ps[1..], all));
    }
  }

  // ---------- The prepared pattern ----------

  /**
   The words of the prepared pattern are those of the usage, where a shortcut stands for all described options that the
   usage does not mention.
   */
  lemma PreparedLanguage(trees: seq<Pattern<LeafDef>>, doc: seq<LeafDef>, w: Word)
    requires AreOptions(doc)
    ensures In(Prepared(trees, doc), w) <==> InUsageAll(trees, Unmentioned(doc, LeafLists(trees)), w)
  {
    MarkAllLanguage(Filled(trees, doc), Filled(trees, doc), w);
    FillAllLanguage(trees, Unmentioned(doc, LeafLists(trees)), w);
  }
}
