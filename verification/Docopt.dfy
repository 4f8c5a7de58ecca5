/**
 `docopt_parse` from tokens to the dictionary: the usage text becomes a pattern, the pattern is fixed, argv is parsed
 and matched, and every element of the usage is reported with a value.
 */
module Docopt {
  import opened Sequences
  import opened Patterns
  import opened Fix
  import opened Preparing
  import opened Matching
  import opened MatchStore
  import opened MatchRefinement
  import opened MatchAccumulate
  import opened MatchEntries
  import opened MatchTotals
  import opened MatchResults
  import opened MatchAttempts
  import opened MatchValues
  import opened MatchMarking
  import MatchLanguage
  import MatchCompleteness
  import OptionParsing
  import Usage = UsageParsing
  import UsageMatching
  import Command = ArgvParsing
  import TokenParsers
  import Matcher

  /** The dictionary, or the exception that is thrown. */
  datatype Answer =
    | Options(values: map<string, Value>)
    | LanguageError(error: OptionParsing.Error)
    | ArgumentError(error: OptionParsing.Error)
    | UnexpectedArgument
    | NoMatch
    | ExitHelp
    | ExitVersion

  // ---------- Leaf objects ----------

  /** A tree of values as a tree of leaf objects, one for each leaf. */
  function Share(p: Pattern<LeafDef>, cells: seq<LeafDef>): (r: (Pattern<int>, seq<LeafDef>))
    ensures cells <= r.1 && Valid(r.0, |r.1|) && Resolve(r.0, r.1) == p
    decreases p, 1
  {
    match p
    case Leaf(d) => (Pattern<int>.Leaf(|cells|), cells + [d])
    case Required(ps) => var (qs, cells') := ShareAll(ps, cells); (Pattern<int>.Required(qs), cells')
    case Optional(ps) => var (qs, cells') := ShareAll(ps, cells); (Pattern<int>.Optional(qs), cells')
    case OptionsShortcut(ps) => var (qs, cells') := ShareAll(ps, cells); (Pattern<int>.OptionsShortcut(qs), cells')
    case OneOrMore(ps) => var (qs, cells') := ShareAll(ps, cells); (Pattern<int>.OneOrMore(qs), cells')
    case Either(ps) => var (qs, cells') := ShareAll(ps, cells); (Pattern<int>.Either(qs), cells')
  }

  function ShareAll(ps: seq<Pattern<LeafDef>>, cells: seq<LeafDef>): (r: (seq<Pattern<int>>, seq<LeafDef>))
    ensures cells <= r.1 && ValidAll(r.0, |r.1|) && ResolveAll(r.0, r.1) == ps
    decreases ps, 0
  {
    if ps == [] then ([], cells) else
    var (q, cells') := Share(ps[0], cells);
    var (qs, cells'') := ShareAll(ps[1..], cells');
    ResolveMore(q, cells', cells'');
    Head(q, qs);
    assert [ps[0]] + ps[1..] == ps;
    ([q] + qs, cells'')
  }

  lemma {:induction false} ResolveMore(p: Pattern<int>, cells: seq<LeafDef>, cells': seq<LeafDef>)
    requires Valid(p, |cells|) && cells <= cells'
    ensures Valid(p, |cells'|) && Resolve(p, cells') == Resolve(p, cells)
    decreases p, 1
  {
    if !p.Leaf? { ResolveAllMore(p.children, cells, cells'); }
  }

  lemma {:induction false} ResolveAllMore(ps: seq<Pattern<int>>, cells: seq<LeafDef>, cells': seq<LeafDef>)
    requires ValidAll(ps, |cells|) && cells <= cells'
    ensures ValidAll(ps, |cells'|) && ResolveAll(ps, cells') == ResolveAll(ps, cells)
    decreases ps, 0
  {
    if ps != [] {
      ResolveMore(ps[0], cells, cells');
      ResolveAllMore(ps[1..], cells, cells');
    }
  }

  // ---------- The argv that is matched ----------

  function Indices(n: nat): (r: seq<int>)
    ensures |r| == n && forall i :: 0 <= i < n ==> r[i] == i
  {
    seq(n, i => i)
  }

  /** argv before the match: its leaves in a row, nothing collected. */
  function Start(argv: seq<LeafDef>): State {
    State(Indices(|argv|), [], argv)
  }

  /** What `parse_argv` makes is fit to be matched. */
  lemma StartIsProper(toks: seq<string>, options: seq<LeafDef>, optionsFirst: bool)
    requires Command.ParseArgv(toks, options, optionsFirst).Argv?
    ensures var s := Start(Command.ParseArgv(toks, options, optionsFirst).leaves);
            Proper(s) && NoRepeat(s.left) && NoAlias(s)
  {
    var argv := Command.ParseArgv(toks, options, optionsFirst).leaves;
    Command.ParseArgvLeaves(toks, options, optionsFirst);
    forall k | 0 <= k < |argv| ensures IsArgv(argv[k]) {
      assert argv[k] in argv;
    }
  }

  /** Every positional of argv is one word, and so is every option that takes an argument. */
  lemma ArgvIsWords(toks: seq<string>, options: seq<LeafDef>, optionsFirst: bool, leaf: LeafDef)
    requires Command.ParseArgv(toks, options, optionsFirst).Argv? && !leaf.Command?
    requires forall d <- Command.ParseArgv(toks, options, optionsFirst).leaves ::
      leaf.Option? && d.Option? && d.Name() == leaf.Name() ==> d.argcount > 0
    ensures var argv := Command.ParseArgv(toks, options, optionsFirst).leaves;
            OneWordEach(View(Start(argv).left, argv), leaf, argv)
  {
    var argv := Command.ParseArgv(toks, options, optionsFirst).leaves;
    Command.ParseArgvLeaves(toks, options, optionsFirst);
    var view := View(Start(argv).left, argv);
    forall t <- view | ChannelOf(t) == LeafChannel(leaf) ensures t.id < |argv| && |WordsAt(t, leaf, argv)| == 1 {
      var i :| 0 <= i < |view| && view[i] == t;
      assert t == TokAt(i, argv) && argv[i] in argv;
    }
  }

  // ---------- The dictionary ----------

  /** The last of the leaves of a name, if there is one, and the value in `values` otherwise. */
  ghost predicate Updated(values: map<string, Value>, leaves: seq<LeafDef>, values': map<string, Value>) {
    && (forall name :: name in values' <==> name in values || exists k :: 0 <= k < |leaves| && leaves[k].Name() == name)
    && (forall k :: 0 <= k < |leaves| && (forall j :: k < j < |leaves| ==> leaves[j].Name() != leaves[k].Name()) ==>
          values'[leaves[k].Name()] == leaves[k].GetValue())
    && (forall name :: name in values && (forall k :: 0 <= k < |leaves| ==> leaves[k].Name() != name) ==>
          values'[name] == values[name])
  }

  method SetValues(values: map<string, Value>, leaves: seq<LeafDef>) returns (values': map<string, Value>)
    ensures Updated(values, leaves, values')
  {
    values' := values;
    for i := 0 to |leaves|
      invariant Updated(values, leaves[..i], values')
    {
      var d := leaves[i];
      assert leaves[..i + 1] == leaves[..i] + [d];
      UpdateOne(values, leaves[..i], values', d);
      values' := values'[d.Name() := d.GetValue()];
    }
    assert leaves[..|leaves|] == leaves;
  }

  lemma UpdateOne(values: map<string, Value>, leaves: seq<LeafDef>, values': map<string, Value>, d: LeafDef)
    requires Updated(values, leaves, values')
    ensures Updated(values, leaves + [d], values'[d.Name() := d.GetValue()])
  {
    var all, next := leaves + [d], values'[d.Name() := d.GetValue()];
    forall name ensures name in next <==> name in values || exists k :: 0 <= k < |all| && all[k].Name() == name {
      SomeNamed(leaves, d, name);
    }
    forall k | 0 <= k < |all| && (forall j :: k < j < |all| ==> all[j].Name() != all[k].Name())
      ensures next[all[k].Name()] == all[k].GetValue()
    {
      if k < |leaves| {
        assert all[|leaves|].Name() != all[k].Name();
        assert forall j :: k < j < |leaves| ==> leaves[j] == all[j];
      }
    }
    forall name | name in values && forall k :: 0 <= k < |all| ==> all[k].Name() != name
      ensures next[name] == values[name]
    {
      assert all[|leaves|].Name() != name;
      assert forall k :: 0 <= k < |leaves| ==> leaves[k] == all[k];
    }
  }

  lemma SomeNamed(leaves: seq<LeafDef>, d: LeafDef, name: string)
    ensures var all := leaves + [d];
            (exists k :: 0 <= k < |all| && all[k].Name() == name) <==>
            (exists k :: 0 <= k < |leaves| && leaves[k].Name() == name) || d.Name() == name
  {
    var all := leaves + [d];
    if k :| 0 <= k < |leaves| && leaves[k].Name() == name { assert all[k] == leaves[k]; }
    if d.Name() == name { assert all[|leaves|] == d; }
  }

  // ---------- What the dictionary says ----------

  /**
   Every leaf of the pattern is a key and no other name is. One that took nothing has the value of the pattern. One that
   takes at most once has what it took. One that repeats has what its attempts add up to, which is what its takes add
   up to if nothing that the match gave up shows.
   */
  ghost predicate Answers(p: Pattern<LeafDef>, argv: seq<LeafDef>, toks: seq<Tok>, values: map<string, Value>)
    requires WellFormed(p)
  {
    && (forall name :: name in values <==> exists d :: d in Leaves(p) && d.Name() == name)
    && forall d :: d in Leaves(p) ==> d.Name() in values && AnswerFor(p, argv, toks, d, values[d.Name()])
  }

  ghost predicate AnswerFor(p: Pattern<LeafDef>, argv: seq<LeafDef>, toks: seq<Tok>, d: LeafDef, v: Value)
    requires WellFormed(p)
  {
    var kept, tried := Kept(Match(p, toks).log, d), Attempts(p, toks, d, false);
    && TokIdsIn(kept, argv)
    && if kept == [] then v == d.GetValue()
       else if Accumulates(d.GetValue()) then
         && tried != [] && AttemptIdsIn(tried, argv) && v == Final(tried, d, argv)
         && (Clear(p, toks, d) ==> AddsUp(kept, d, argv, v))
       else |kept| == 1 && v == if d.Command? then Bool(true) else argv[kept[0].id].GetValue()
  }

  /** The value of a leaf that repeats: how often it was taken, or the texts that argv has for it, in order. */
  ghost predicate AddsUp(kept: seq<Tok>, d: LeafDef, argv: seq<LeafDef>, v: Value)
    requires TokIdsIn(kept, argv)
  {
    if d.GetValue().Long? then v == Long(|kept|)
    else
      && v == StrList(WordsOf(kept, d, argv))
      && (!d.Command? && (forall t <- kept :: argv[t.id].GetValue().Str?) ==> AreTexts(kept, argv, v.texts))
  }

  ghost predicate AreTexts(kept: seq<Tok>, argv: seq<LeafDef>, texts: seq<string>)
    requires TokIdsIn(kept, argv)
  {
    |texts| == |kept| && forall i :: 0 <= i < |kept| ==> argv[kept[i].id].GetValue() == Str(texts[i])
  }

  lemma {:induction false} WordsAreTexts(kept: seq<Tok>, d: LeafDef, argv: seq<LeafDef>)
    requires TokIdsIn(kept, argv) && !d.Command? && forall t <- kept :: argv[t.id].GetValue().Str?
    ensures AreTexts(kept, argv, WordsOf(kept, d, argv))
  {
    if kept != [] { WordsAreTexts(kept[1..], d, argv); }
  }

  lemma SumAddsUp(kept: seq<Tok>, d: LeafDef, argv: seq<LeafDef>)
    requires TokIdsIn(kept, argv) && Accumulates(d.GetValue())
    ensures AddsUp(kept, d, argv, Sum(kept, d, argv))
  {
    if !d.Command? && forall t <- kept :: argv[t.id].GetValue().Str? { WordsAreTexts(kept, d, argv); }
  }

  /**
   Without given-up branches, and with several definitions of a name: the entries made one by one, on the defaults.
   */
  ghost predicate InTurn(p: Pattern<LeafDef>, argv: seq<LeafDef>, log: seq<Take>, values: map<string, Value>) {
    IdsIn(log, argv) && exists defaults ::
      Updated(map[], LeafList(p), defaults) && Updated(defaults, EnterAll([], log, argv), values)
  }

  ghost predicate Succeeds(p: Pattern<LeafDef>, s: State) {
    && Fits(p) && OneDefinitionPerName(Leaves(p)) && IsMarked(p)
    && Proper(s) && NoRepeat(s.left) && s.coll == [] && NoAlias(s) && MatchS(p, s).ok
  }

  /** Which leaves have an entry. */
  lemma EnteredIffTaken(p: Pattern<LeafDef>, s: State, d: LeafDef)
    requires Succeeds(p, s) && d in Leaves(p)
    ensures var r := MatchS(p, s);
            d.Name() in NamesOf(r.st.coll, r.st.heap) <==> Takes(Match(p, View(s.left, s.heap)).log, d) >= 1
  {
    var toks := View(s.left, s.heap);
    var log := Match(p, toks).log;
    StepState(p, s);
    MatchByLeaves(p, toks);
    assert NamesOf(s.coll, s.heap) == [];
    RecordNames([], log, d.Name());
    KeptIffTaken(log, d);
  }

  /** Every entry is of a leaf of the pattern. */
  lemma EntriesAreLeaves(p: Pattern<LeafDef>, s: State, name: string)
    requires Succeeds(p, s) && name in NamesOf(MatchS(p, s).st.coll, MatchS(p, s).st.heap)
    ensures exists d :: d in Leaves(p) && d.Name() == name
  {
    var toks := View(s.left, s.heap);
    var log := Match(p, toks).log;
    StepState(p, s);
    MatchByLeaves(p, toks);
    assert NamesOf(s.coll, s.heap) == [];
    RecordNames([], log, name);
    var k :| 0 <= k < |log| && log[k].leaf.Name() == name;
    assert log[k].leaf in Leaves(p);
  }

  lemma {:induction false} ValuesOfOne(coll: seq<int>, heap: seq<LeafDef>, name: string, j: nat)
    requires InHeap(coll, heap) && j < |coll| && heap[coll[j]].Name() == name && Count(NamesOf(coll, heap), name) <= 1
    ensures ValuesNamed(coll, heap, name) == [heap[coll[j]].GetValue()]
  {
    var names := NamesOf(coll, heap);
    assert names[1..] == NamesOf(coll[1..], heap);
    CountIn(names[1..], name);
    if j == 0 {
      NoValues(coll[1..], heap, name);
    } else {
      assert coll[1..][j - 1] == coll[j] && names[1..][j - 1] == name;
      ValuesOfOne(coll[1..], heap, name, j - 1);
    }
  }

  lemma {:induction false} NoValues(coll: seq<int>, heap: seq<LeafDef>, name: string)
    requires InHeap(coll, heap) && name !in NamesOf(coll, heap)
    ensures ValuesNamed(coll, heap, name) == []
  {
    if coll != [] {
      assert NamesOf(coll, heap)[0] == heap[coll[0]].Name() && NamesOf(coll[1..], heap) == NamesOf(coll, heap)[1..];
      NoValues(coll[1..], heap, name);
    }
  }

  /** The entry of a leaf, at `j`, holds its answer. */
  lemma EntryAnswers(p: Pattern<LeafDef>, s: State, d: LeafDef, j: nat)
    requires Succeeds(p, s) && d in Leaves(p)
    requires var st := MatchS(p, s).st; j < |st.coll| && st.heap[st.coll[j]].Name() == d.Name()
    ensures var st, toks := MatchS(p, s).st, View(s.left, s.heap);
            Takes(Match(p, toks).log, d) >= 1 && AnswerFor(p, s.heap, toks, d, st.heap[st.coll[j]].GetValue())
  {
    var st := MatchS(p, s).st;
    assert NamesOf(st.coll, st.heap)[j] == d.Name();
    EnteredIffTaken(p, s, d);
    if Accumulates(d.GetValue()) { RepeatedAnswers(p, s, d, j); } else { ReportedAnswers(p, s, d, j); }
  }

  /** What is reported for a leaf is what argv gives to it with each of its tokens. */
  lemma {:induction false} ReportedKept(log: seq<Take>, d: LeafDef, argv: seq<LeafDef>)
    ensures IdsIn(log, argv) ==>
      && TokIdsIn(Kept(log, d), argv) && |ReportedValues(log, d, argv)| == |Kept(log, d)|
      && forall i :: 0 <= i < |Kept(log, d)| ==>
        ReportedValues(log, d, argv)[i] == if d.Command? then Bool(true) else argv[Kept(log, d)[i].id].GetValue()
    decreases |log|
  {
    if log != [] && IdsIn(log, argv) {
      var rest := log[1..];
      ReportedKept(rest, d, argv);
      assert Kept(log, d) == (if log[0].leaf == d then [log[0].tok] else []) + Kept(rest, d);
      assert ReportedValues(log, d, argv) ==
             (if log[0].leaf == d then [GivenValue(d, argv[log[0].tok.id])] else []) + ReportedValues(rest, d, argv);
    }
  }

  lemma ReportedAnswers(p: Pattern<LeafDef>, s: State, d: LeafDef, j: nat)
    requires Succeeds(p, s) && d in Leaves(p) && !Accumulates(d.GetValue())
    requires var st := MatchS(p, s).st; j < |st.coll| && st.heap[st.coll[j]].Name() == d.Name()
    ensures var st, kept := MatchS(p, s).st, Kept(Match(p, View(s.left, s.heap)).log, d);
            && TokIdsIn(kept, s.heap) && |kept| == 1
            && st.heap[st.coll[j]].GetValue() == if d.Command? then Bool(true) else s.heap[kept[0].id].GetValue()
  {
    var st := MatchS(p, s).st;
    var log := Match(p, View(s.left, s.heap)).log;
    StartsReady(s, d);
    NoNameTwice(p, s, d.Name());
    MatchReports(p, s, s.heap, d);
    ValuesOfOne(st.coll, st.heap, d.Name(), j);
    assert ValuesNamed(s.coll, s.heap, d.Name()) == [];
    assert ReportedValues(log, d, s.heap) == [st.heap[st.coll[j]].GetValue()];
    ReportedKept(log, d, s.heap);
    assert ReportedValues(log, d, s.heap)[0] == st.heap[st.coll[j]].GetValue();
  }

  lemma RepeatedAnswers(p: Pattern<LeafDef>, s: State, d: LeafDef, j: nat)
    requires Succeeds(p, s) && d in Leaves(p) && Accumulates(d.GetValue())
    requires Kept(Match(p, View(s.left, s.heap)).log, d) != []
    requires var st := MatchS(p, s).st; j < |st.coll| && st.heap[st.coll[j]].Name() == d.Name()
    ensures var st := MatchS(p, s).st; AnswerFor(p, s.heap, View(s.left, s.heap), d, st.heap[st.coll[j]].GetValue())
  {
    var st := MatchS(p, s).st;
    EntriesOfName(p, s, d);
    EntryHolds(p, s, d);
    ExactIff(p, s, d);
    SumAddsUp(Kept(Match(p, View(s.left, s.heap)).log, d), d, s.heap);
    assert Entries(st.coll, st.heap)[j].Name() == d.Name();
  }

  /** The dictionary of a successful match answers for every leaf. */
  lemma DictionaryAnswers(p: Pattern<LeafDef>, s: State, defaults: map<string, Value>, values: map<string, Value>)
    requires Succeeds(p, s) && Updated(map[], LeafList(p), defaults)
    requires var st := MatchS(p, s).st; Updated(defaults, Entries(st.coll, st.heap), values)
    ensures Answers(p, s.heap, View(s.left, s.heap), values)
  {
    var toks := View(s.left, s.heap);
    forall d | d in Leaves(p) ensures d.Name() in values && AnswerFor(p, s.heap, toks, d, values[d.Name()]) {
      LeafAnswers(p, s, defaults, values, d);
    }
    forall name ensures name in values <==> exists d :: d in Leaves(p) && d.Name() == name {
      if name in values { KeyIsName(p, s, defaults, values, name); }
      if d :| d in Leaves(p) && d.Name() == name { NameIsKey(p, s, defaults, values, d); }
    }
  }

  /** A key is a default, so the name of a leaf, or an entry, so the name of a leaf too. */
  lemma KeyIsName(p: Pattern<LeafDef>, s: State, defaults: map<string, Value>, values: map<string, Value>, name: string)
    requires Succeeds(p, s) && Updated(map[], LeafList(p), defaults) && name in values
    requires var st := MatchS(p, s).st; Updated(defaults, Entries(st.coll, st.heap), values)
    ensures exists d :: d in Leaves(p) && d.Name() == name
  {
    var st := MatchS(p, s).st;
    if name in defaults {
      DefaultIsName(p, defaults, name);
    } else {
      KeyIsEntry(st, defaults, values, name);
      EntriesAreLeaves(p, s, name);
    }
  }

  lemma KeyIsEntry(st: State, defaults: map<string, Value>, values: map<string, Value>, name: string)
    requires Sane(st) && Updated(defaults, Entries(st.coll, st.heap), values) && name in values && name !in defaults
    ensures name in NamesOf(st.coll, st.heap)
  {
    var es := Entries(st.coll, st.heap);
    var k :| 0 <= k < |es| && es[k].Name() == name;
    assert NamesOf(st.coll, st.heap)[k] == name;
  }

  lemma DefaultIsName(p: Pattern<LeafDef>, defaults: map<string, Value>, name: string)
    requires Updated(map[], LeafList(p), defaults) && name in defaults
    ensures exists d :: d in Leaves(p) && d.Name() == name
  {
    var k :| 0 <= k < |LeafList(p)| && LeafList(p)[k].Name() == name;
    LeafListIs(p, LeafList(p)[k]);
  }

  lemma NameIsKey(p: Pattern<LeafDef>, s: State, defaults: map<string, Value>, values: map<string, Value>, d: LeafDef)
    requires Succeeds(p, s) && Updated(map[], LeafList(p), defaults) && d in Leaves(p)
    requires var st := MatchS(p, s).st; Updated(defaults, Entries(st.coll, st.heap), values)
    ensures d.Name() in values
  {
    DefaultOf(p, defaults, d);
  }

  lemma LeafAnswers(p: Pattern<LeafDef>, s: State, defaults: map<string, Value>, values: map<string, Value>, d: LeafDef)
    requires Succeeds(p, s) && Updated(map[], LeafList(p), defaults) && d in Leaves(p)
    requires var st := MatchS(p, s).st; Updated(defaults, Entries(st.coll, st.heap), values)
    ensures d.Name() in values && AnswerFor(p, s.heap, View(s.left, s.heap), d, values[d.Name()])
  {
    var st := MatchS(p, s).st;
    DefaultOf(p, defaults, d);
    EnteredIffTaken(p, s, d);
    if d.Name() in NamesOf(st.coll, st.heap) {
      var j := EntryInDictionary(p, s, defaults, values, d);
      EntryAnswers(p, s, d, j);
    } else {
      NotInDictionary(st, defaults, values, d.Name());
    }
  }

  lemma DictionaryInTurn(p: Pattern<LeafDef>, s: State, defaults: map<string, Value>, values: map<string, Value>)
    requires Fits(p) && Linear(p) && Proper(s) && NoRepeat(s.left) && s.coll == [] && MatchS(p, s).ok
    requires Updated(map[], LeafList(p), defaults)
    requires var st := MatchS(p, s).st; Updated(defaults, Entries(st.coll, st.heap), values)
    ensures InTurn(p, s.heap, Match(p, View(s.left, s.heap)).log, values)
  {
    LinearTracks(p, s);
    assert Entries(s.coll, s.heap) == [];
  }

  /** The only entry of a name is what the dictionary has for it. */
  lemma EntryInDictionary(
    p: Pattern<LeafDef>, s: State, defaults: map<string, Value>, values: map<string, Value>, d: LeafDef)
    returns (j: nat)
    requires Succeeds(p, s) && d in Leaves(p)
    requires var st := MatchS(p, s).st;
             Updated(defaults, Entries(st.coll, st.heap), values) && d.Name() in NamesOf(st.coll, st.heap)
    ensures var st := MatchS(p, s).st;
            && j < |st.coll| && st.heap[st.coll[j]].Name() == d.Name()
            && d.Name() in values && values[d.Name()] == st.heap[st.coll[j]].GetValue()
  {
    var st := MatchS(p, s).st;
    var es, names := Entries(st.coll, st.heap), NamesOf(st.coll, st.heap);
    j :| 0 <= j < |names| && names[j] == d.Name();
    NoNameTwice(p, s, d.Name());
    CountAtMostOne(names, d.Name());
    assert forall i :: 0 <= i < |es| ==> es[i].Name() == names[i];
  }

  lemma NotInDictionary(st: State, defaults: map<string, Value>, values: map<string, Value>, name: string)
    requires Sane(st) && Updated(defaults, Entries(st.coll, st.heap), values) && name in defaults
    requires name !in NamesOf(st.coll, st.heap)
    ensures name in values && values[name] == defaults[name]
  {
    var es, names := Entries(st.coll, st.heap), NamesOf(st.coll, st.heap);
    assert forall k :: 0 <= k < |es| ==> es[k].Name() == names[k];
  }

  lemma DefaultOf(p: Pattern<LeafDef>, defaults: map<string, Value>, d: LeafDef)
    requires OneDefinitionPerName(Leaves(p)) && Updated(map[], LeafList(p), defaults) && d in Leaves(p)
    ensures d.Name() in defaults && defaults[d.Name()] == d.GetValue()
  {
    LeafListIs(p, d);
    var k := LastIndex(LeafList(p), d);
    forall j | k < j < |LeafList(p)| ensures LeafList(p)[j].Name() != d.Name() {
      LeafListIs(p, LeafList(p)[j]);
    }
  }

  lemma {:induction false} LastIndex(ds: seq<LeafDef>, d: LeafDef) returns (k: nat)
    requires d in ds
    ensures k < |ds| && ds[k] == d && forall j :: k < j < |ds| ==> ds[j] != d
  {
    var n := |ds| - 1;
    if ds[n] == d {
      k := n;
    } else {
      k := LastIndex(ds[..n], d);
      assert forall j :: k < j < n ==> ds[..n][j] == ds[j];
    }
  }

  // ---------- docopt_parse ----------

  predicate IsOptionSet(argv: seq<LeafDef>, opt1: string, opt2: string) {
    exists o <- argv :: (o.Name() == opt1 || (opt2 != "" && o.Name() == opt2)) && o.GetValue() != Empty
  }

  /** argv has an option of one of these names. */
  ghost predicate Asks(argv: seq<LeafDef>, names: set<string>) {
    exists o <- argv :: o.Name() in names
  }

  /** Whatever argv has is set. */
  lemma AsksIffSet(toks: seq<string>, options: seq<LeafDef>, optionsFirst: bool, opt1: string, opt2: string)
    requires Command.ParseArgv(toks, options, optionsFirst).Argv? && opt1 != ""
    ensures var argv := Command.ParseArgv(toks, options, optionsFirst).leaves;
            IsOptionSet(argv, opt1, opt2) <==> Asks(argv, if opt2 == "" then {opt1} else {opt1, opt2})
  {
    Command.ParseArgvLeaves(toks, options, optionsFirst);
  }

  /**
   The answer to a parsed argv. It is a dictionary exactly when the pattern matches with nothing left. Then argv is a
   word of the pattern; and if the pattern is orderly, every word is answered with a dictionary.
   */
  ghost predicate Matched(p: Pattern<LeafDef>, argv: seq<LeafDef>, a: Answer)
    requires WellFormed(p)
  {
    var toks := View(Start(argv).left, argv);
    var m := Match(p, toks);
    && (m.ok && m.left == [] ==>
          && a.Options?
          && (OneDefinitionPerName(Leaves(p)) ==> Answers(p, argv, toks, a.values))
          && (Linear(p) ==> InTurn(p, argv, m.log, a.values)))
    && (m.ok && m.left != [] ==> a == UnexpectedArgument)
    && (!m.ok ==> a == NoMatch)
    && (a.Options? ==> MatchLanguage.In(p, MatchLanguage.WordOf(toks)))
    && (MatchCompleteness.Orderly(p, true) ==> (a.Options? <==> MatchLanguage.In(p, MatchLanguage.WordOf(toks))))
  }

  ghost predicate IsAnswer(
    usage: seq<string>, doc: seq<LeafDef>, argv: seq<string>, help: bool, version: bool, optionsFirst: bool, a: Answer)
    requires AreOptions(doc) && !UsageMatching.RepeatsStack(usage, doc, doc)
  {
    var u := Usage.ParseExpr(usage, doc);
    if u.Failed? then a == LanguageError(u.error)
    else if u.rest != [] then a == LanguageError(OptionParsing.LanguageError)
    else
      var c := Command.ParseArgv(argv, u.options, optionsFirst);
      if c.Error? then a == ArgumentError(c.error)
      else if help && Asks(c.leaves, {"-h", "--help"}) then a == ExitHelp
      else if version && Asks(c.leaves, {"--version"}) then a == ExitVersion
      else
        PreparedFits(usage, doc);
        Matched(Prepared(u.trees, doc), c.leaves, a)
  }

  lemma MatchedIs(p: Pattern<LeafDef>, argv: seq<LeafDef>, a: Answer)
    requires Fits(p) && Proper(Start(argv))
    requires var r := MatchS(p, Start(argv));
             if !r.ok then a == NoMatch else if r.st.left != [] then a == UnexpectedArgument
             else
               && a.Options?
               && (OneDefinitionPerName(Leaves(p)) ==> Answers(p, argv, View(Start(argv).left, argv), a.values))
               && (Linear(p) ==> InTurn(p, argv, Match(p, View(Start(argv).left, argv)).log, a.values))
    ensures Matched(p, argv, a)
  {
    var toks := View(Start(argv).left, argv);
    MatchRefines(p, Start(argv));
    if MatchS(p, Start(argv)).ok { assert |MatchS(p, Start(argv)).st.left| == |Match(p, toks).left|; }
    if a.Options? { MatchLanguage.AcceptedIsInLanguage(p, toks); }
    if MatchCompleteness.Orderly(p, true) { MatchCompleteness.OrderlyAcceptsItsLanguage(p, toks); }
  }

  /** `create_pattern_tree` and `fix`, from a parsed usage. */
  method Prepare(trees: seq<Pattern<LeafDef>>, doc: seq<LeafDef>) returns (p: Pattern<LeafDef>)
    ensures p == Prepared(trees, doc)
  {
    var filled := Filled(trees, doc);
    var (children, cells) := ShareAll(filled, []);
    var tree := new PatternTree(children, cells);
    tree.Fix();
    p := Required(ResolveAll(tree.children, tree.cells));
  }

  /** Matching a parsed argv, and the dictionary. */
  method MatchArgv(p: Pattern<LeafDef>, argv: seq<LeafDef>) returns (a: Answer)
    requires Fits(p) && IsMarked(p)
    requires Proper(Start(argv)) && NoRepeat(Start(argv).left) && NoAlias(Start(argv))
    ensures Matched(p, argv, a)
  {
    var heap := new Matcher.LeafHeap(argv);
    var matched, left, collected := heap.Match(p, Indices(|argv|), []);
    if !matched {
      a := NoMatch;
    } else if left != [] {
      a := UnexpectedArgument;
    } else {
      var defaults := SetValues(map[], LeafList(p));
      var values := SetValues(defaults, Entries(collected, heap.heap));
      a := Options(values);
      if OneDefinitionPerName(Leaves(p)) { DictionaryAnswers(p, Start(argv), defaults, values); }
      if Linear(p) { DictionaryInTurn(p, Start(argv), defaults, values); }
    }
    MatchedIs(p, argv, a);
  }

  method DocoptParse(
    usage: seq<string>, doc: seq<LeafDef>, argv: seq<string>, help: bool, version: bool, optionsFirst: bool)
    returns (a: Answer)
    requires AreOptions(doc) && !UsageMatching.RepeatsStack(usage, doc, doc)
    ensures IsAnswer(usage, doc, argv, help, version, optionsFirst, a)
  {
    var usageTokens := new TokenParsers.Tokens(usage, false);
    var trees, table := TokenParsers.ParseExprTokens(usageTokens, doc);
    if trees.Raised? { return LanguageError(trees.error); }
    if usageTokens.index < |usageTokens.tokens| { return LanguageError(OptionParsing.LanguageError); }
    PreparedFits(usage, doc);
    var p := Prepare(trees.value, doc);
    var argvTokens := new TokenParsers.Tokens(argv, true);
    var leaves, _ := TokenParsers.ParseArgvTokens(argvTokens, table, optionsFirst);
    if leaves.Raised? { return ArgumentError(leaves.error); }
    AsksIffSet(argv, table, optionsFirst, "-h", "--help");
    if help && IsOptionSet(leaves.value, "-h", "--help") { return ExitHelp; }
    AsksIffSet(argv, table, optionsFirst, "--version", "");
    if version && IsOptionSet(leaves.value, "--version", "") { return ExitVersion; }
    StartIsProper(argv, table, optionsFirst);
    FixedIsMarked(Filled(trees.value, doc));
    a := MatchArgv(p, leaves.value);
  }
}
