/**
 What marking means for matching. A leaf that cannot occur twice in one alternative is taken at most once, so marking
 the others is enough for `collected` to have one entry per name; and a leaf that is not marked reports what it took.
 */
module MatchMarking {
  import opened Sequences
  import opened Patterns
  import opened Fix
  import opened Matching
  import opened MatchStore
  import opened MatchRefinement
  import opened MatchAccumulate
  import opened MatchEntries
  import opened MatchTotals
  import opened MatchResults

  // ---------- A leaf that does not repeat is taken at most once ----------

  /** A leaf of which an alternative has one at most is not taken more often than that. */
  ghost predicate AtMost(n: nat, m: Multiplicity) {
    m.Most? && (m.count <= 1 ==> n <= m.count)
  }

  lemma {:induction false} TakesAtMost(p: Pattern<LeafDef>, toks: seq<Tok>, leaf: LeafDef)
    requires WellFormed(p) && HasAlternatives(p)
    ensures AtMost(Takes(Match(p, toks).log, leaf), MaxCount(p, leaf))
    decreases p, |toks|, 0
  {
    match p
    case Leaf(_) => TakesLeafAtMost(p, toks, leaf);
    case Required(ps) => TakesAllAtMost(ps, toks, leaf);
    case Optional(ps) => TakesEachAtMost(ps, toks, leaf);
    case OptionsShortcut(ps) => TakesEachAtMost(ps, toks, leaf);
    case OneOrMore(ps) => TakesMoreAtMost(ps, toks, leaf);
    case Either(ps) => TakesEitherAtMost(ps, toks, leaf);
  }

  lemma TakesLeafAtMost(p: Pattern<LeafDef>, toks: seq<Tok>, leaf: LeafDef)
    requires p.Leaf?
    ensures AtMost(Takes(Match(p, toks).log, leaf), MaxCount(p, leaf))
  {
    var log := Match(p, toks).log;
    if log != [] { KeptOne(log[0], leaf); }
  }

  lemma {:induction false} TakesMoreAtMost(ps: seq<Pattern<LeafDef>>, toks: seq<Tok>, leaf: LeafDef)
    requires WellFormed(OneOrMore(ps)) && HaveAlternatives(ps)
    ensures AtMost(Takes(Match(OneOrMore(ps), toks).log, leaf), MaxCount(OneOrMore(ps), leaf))
    decreases ps, |toks|, 2
  {
    HasMultiplicity(ps[0], leaf);
    MoreMultiplicity(ps, leaf);
    if MaxCount(ps[0], leaf) == Most(0) {
      TakesNever(ps, toks, leaf);
      MoreLog(ps, toks);
    }
  }

  lemma MoreMultiplicity(ps: seq<Pattern<LeafDef>>, leaf: LeafDef)
    requires |ps| == 1 && MaxCount(ps[0], leaf).Most?
    ensures MaxCount(OneOrMore(ps), leaf) == Most(2 * MaxCount(ps[0], leaf).count)
  {
    OneMultiplicity(ps, leaf);
  }

  lemma MoreLog(ps: seq<Pattern<LeafDef>>, toks: seq<Tok>)
    requires WellFormed(OneOrMore(ps))
    ensures Match(OneOrMore(ps), toks).log == [] || Match(OneOrMore(ps), toks).log == MatchMore(ps[0], toks).log
  {}

  lemma {:induction false} TakesEitherAtMost(ps: seq<Pattern<LeafDef>>, toks: seq<Tok>, leaf: LeafDef)
    requires WellFormedAll(ps) && ps != [] && HaveAlternatives(ps)
    ensures AtMost(Takes(Match(Either(ps), toks).log, leaf), MaxCountEither(ps, leaf))
    decreases ps, |toks|, 2
  {
    HaveMultiplicity(ps, leaf);
    EitherLog(ps, toks);
    var outs := MatchOutcomes(ps, toks);
    if outs != [] { TakesSomeAtMost(ps, toks, leaf, FirstMin(Sizes(outs))); }
  }

  lemma EitherLog(ps: seq<Pattern<LeafDef>>, toks: seq<Tok>)
    requires WellFormedAll(ps)
    ensures var outs := MatchOutcomes(ps, toks);
            Match(Either(ps), toks).log == if outs == [] then [] else outs[FirstMin(Sizes(outs))].log
  {}

  lemma OneMultiplicity(ps: seq<Pattern<LeafDef>>, leaf: LeafDef)
    requires |ps| == 1 && MaxCount(ps[0], leaf).Most?
    ensures MaxCountAll(ps, leaf) == MaxCount(ps[0], leaf)
  {
    assert ps[1..] == [];
  }

  lemma {:induction false} TakesAllAtMost(ps: seq<Pattern<LeafDef>>, toks: seq<Tok>, leaf: LeafDef)
    requires WellFormedAll(ps) && HaveAlternatives(ps)
    ensures AtMost(Takes(MatchAll(ps, toks).log, leaf), MaxCountAll(ps, leaf))
    decreases ps, |toks|, 0
  {
    if ps != [] {
      var m := Match(ps[0], toks);
      var n := MatchAll(ps[1..], m.left);
      TakesAtMost(ps[0], toks, leaf);
      TakesAllAtMost(ps[1..], m.left, leaf);
      KeptConcat(m.log, n.log, leaf);
    }
  }

  lemma {:induction false} TakesEachAtMost(ps: seq<Pattern<LeafDef>>, toks: seq<Tok>, leaf: LeafDef)
    requires WellFormedAll(ps) && HaveAlternatives(ps)
    ensures AtMost(Takes(MatchEach(ps, toks).log, leaf), MaxCountAll(ps, leaf))
    decreases ps, |toks|, 0
  {
    if ps != [] {
      var m := Match(ps[0], toks);
      var n := MatchEach(ps[1..], m.left);
      TakesAtMost(ps[0], toks, leaf);
      TakesEachAtMost(ps[1..], m.left, leaf);
      KeptConcat(m.log, n.log, leaf);
    }
  }

  lemma {:induction false} TakesNever(ps: seq<Pattern<LeafDef>>, toks: seq<Tok>, leaf: LeafDef)
    requires WellFormed(OneOrMore(ps)) && HaveAlternatives(ps) && MaxCount(ps[0], leaf) == Most(0)
    ensures Takes(MatchMore(ps[0], toks).log, leaf) == 0
    decreases ps, |toks|, 1
  {
    var m := Match(ps[0], toks);
    if m.ok && m.log != [] {
      TakesAtMost(ps[0], toks, leaf);
      TakesNever(ps, m.left, leaf);
      KeptConcat(m.log, MatchMore(ps[0], m.left).log, leaf);
    }
  }

  lemma LargerAtMost(n: nat, m: Multiplicity, m': Multiplicity)
    requires m.Most? || m'.Most?
    ensures AtMost(n, m) || AtMost(n, m') ==> AtMost(n, Larger(m, m'))
  {}

  lemma {:induction false} TakesSomeAtMost(ps: seq<Pattern<LeafDef>>, toks: seq<Tok>, leaf: LeafDef, k: nat)
    requires WellFormedAll(ps) && HaveAlternatives(ps) && k < |MatchOutcomes(ps, toks)|
    ensures AtMost(Takes(MatchOutcomes(ps, toks)[k].log, leaf), MaxCountEither(ps, leaf))
    decreases ps, |toks|, 0
  {
    if ps != [] {
      var m, rest, n := Match(ps[0], toks), MatchOutcomes(ps[1..], toks), Takes(MatchOutcomes(ps, toks)[k].log, leaf);
      HasMultiplicity(ps[0], leaf);
      LargerAtMost(n, MaxCount(ps[0], leaf), MaxCountEither(ps[1..], leaf));
      if m.ok && k == 0 {
        TakesAtMost(ps[0], toks, leaf);
      } else {
        TakesSomeAtMost(ps[1..], toks, leaf, if m.ok then k - 1 else k);
      }
    }
  }

  lemma {:induction false} HasMultiplicity(p: Pattern<LeafDef>, leaf: LeafDef)
    requires HasAlternatives(p)
    ensures MaxCount(p, leaf).Most?
    decreases p, 1
  {
    if !p.Leaf? { HaveMultiplicity(p.children, leaf); }
  }

  lemma {:induction false} HaveMultiplicity(ps: seq<Pattern<LeafDef>>, leaf: LeafDef)
    requires HaveAlternatives(ps)
    ensures MaxCountAll(ps, leaf).Most? && (ps != [] ==> MaxCountEither(ps, leaf).Most?)
    decreases ps, 0
  {
    if ps != [] {
      HasMultiplicity(ps[0], leaf);
      HaveMultiplicity(ps[1..], leaf);
    }
  }

  /** A leaf that does not repeat in a pattern is taken at most once by every match of it. */
  lemma TakenAtMostOnce(p: Pattern<LeafDef>, toks: seq<Tok>, leaf: LeafDef)
    requires WellFormed(p) && HasAlternatives(p) && !Repeats([p], leaf)
    ensures Takes(Match(p, toks).log, leaf) <= 1
  {
    TakesAtMost(p, toks, leaf);
    OneMultiplicity([p], leaf);
  }

  // ---------- One entry per name ----------

  lemma {:induction false} RecordCount(names: seq<string>, log: seq<Take>, leaf: LeafDef)
    requires !Accumulates(leaf.GetValue())
    requires forall k :: 0 <= k < |log| && log[k].leaf.Name() == leaf.Name() ==> log[k].leaf == leaf
    ensures Count(Record(names, log), leaf.Name()) == Count(names, leaf.Name()) + Takes(log, leaf)
    decreases |log|
  {
    if log != [] {
      var t := log[0];
      CountSnoc(names, t.leaf.Name(), leaf.Name());
      RecordCount(RecordOne(names, t.leaf), log[1..], leaf);
      assert log == [t] + log[1..];
      KeptConcat([t], log[1..], leaf);
      KeptOne(t, leaf);
    }
  }

  /** The takes under a name that make an entry each. */
  function PlainTakes(log: seq<Take>, name: string): nat
    decreases |log|
  {
    if log == [] then 0 else
    (if log[0].leaf.Name() == name && !Accumulates(log[0].leaf.GetValue()) then 1 else 0) + PlainTakes(log[1..], name)
  }

  /** The first take under a name counts or makes a list. */
  predicate StartsSum(log: seq<Take>, name: string)
    decreases |log|
  {
    log != [] && if log[0].leaf.Name() == name then Accumulates(log[0].leaf.GetValue()) else StartsSum(log[1..], name)
  }

  lemma {:induction false} RecordTimes(names: seq<string>, log: seq<Take>, name: string)
    ensures Count(Record(names, log), name) == Count(names, name) + PlainTakes(log, name) +
            if Count(names, name) == 0 && StartsSum(log, name) then 1 else 0
    decreases |log|
  {
    if log != [] {
      CountSnoc(names, log[0].leaf.Name(), name);
      CountIn(names, name);
      RecordTimes(RecordOne(names, log[0].leaf), log[1..], name);
    }
  }

  /** How often a name is collected, for every pattern, with any number of definitions of the name. */
  lemma TimesCollected(p: Pattern<LeafDef>, s: State, name: string)
    requires WellFormed(p) && NamedOptions(p)
    requires Proper(s) && NoRepeat(s.left) && s.coll == [] && MatchS(p, s).ok
    ensures var r, log := MatchS(p, s), Match(p, View(s.left, s.heap)).log;
            Count(NamesOf(r.st.coll, r.st.heap), name) == PlainTakes(log, name) + if StartsSum(log, name) then 1 else 0
  {
    StepState(p, s);
    assert NamesOf(s.coll, s.heap) == [];
    RecordTimes([], Match(p, View(s.left, s.heap)).log, name);
  }

  /** Leaves that repeat have a counter or a list. */
  ghost predicate IsMarked(p: Pattern<LeafDef>) {
    forall d :: d in Leaves(p) && Repeats([p], d) ==> Accumulates(d.GetValue())
  }

  /** In a marked pattern with one definition per name, no name is collected twice. */
  lemma NoNameTwice(p: Pattern<LeafDef>, s: State, name: string)
    requires WellFormed(p) && NamedOptions(p) && HasAlternatives(p) && OneDefinitionPerName(Leaves(p)) && IsMarked(p)
    requires Proper(s) && NoRepeat(s.left) && s.coll == [] && MatchS(p, s).ok
    ensures Count(NamesOf(MatchS(p, s).st.coll, MatchS(p, s).st.heap), name) <= 1
  {
    var toks := View(s.left, s.heap);
    var log := Match(p, toks).log;
    StepState(p, s);
    MatchByLeaves(p, toks);
    assert NamesOf(s.coll, s.heap) == [];
    if d :| d in Leaves(p) && d.Name() == name && !Accumulates(d.GetValue()) {
      RecordCount([], log, d);
      TakenAtMostOnce(p, toks, d);
    } else {
      RecordOnce([], log, name);
    }
  }

  // ---------- Leaves that are not marked report what they took ----------

  function ValuesNamed(coll: seq<int>, heap: seq<LeafDef>, name: string): seq<Value>
    requires InHeap(coll, heap)
  {
    if coll == [] then [] else
    (if heap[coll[0]].Name() == name then [heap[coll[0]].GetValue()] else []) + ValuesNamed(coll[1..], heap, name)
  }

  /** What argv gives to a leaf that takes one of its tokens once: a command is there, all else has a value. */
  function GivenValue(leaf: LeafDef, given: LeafDef): Value {
    if leaf.Command? then Bool(true) else given.GetValue()
  }

  function ReportedValues(log: seq<Take>, leaf: LeafDef, heap: seq<LeafDef>): seq<Value>
    requires IdsIn(log, heap)
    decreases |log|
  {
    if log == [] then [] else
    (if log[0].leaf == leaf then [GivenValue(leaf, heap[log[0].tok.id])] else []) +
    ReportedValues(log[1..], leaf, heap)
  }

  lemma {:induction false} ReportedConcat(a: seq<Take>, b: seq<Take>, leaf: LeafDef, heap: seq<LeafDef>)
    requires IdsIn(a, heap) && IdsIn(b, heap)
    ensures IdsIn(a + b, heap)
    ensures ReportedValues(a + b, leaf, heap) == ReportedValues(a, leaf, heap) + ReportedValues(b, leaf, heap)
    decreases |a|
  {
    if a == [] {
      assert a + b == b;
    } else {
      ConcatTail(a, b);
      ReportedConcat(a[1..], b, leaf, heap);
      ConcatAssoc(if a[0].leaf == leaf then [GivenValue(leaf, heap[a[0].tok.id])] else [],
                  ReportedValues(a[1..], leaf, heap), ReportedValues(b, leaf, heap));
    }
  }

  lemma {:induction false} ValuesSnoc(coll: seq<int>, m: int, heap: seq<LeafDef>, name: string)
    requires InHeap(coll, heap) && 0 <= m < |heap|
    ensures ValuesNamed(coll + [m], heap, name) ==
            ValuesNamed(coll, heap, name) + if heap[m].Name() == name then [heap[m].GetValue()] else []
  {
    if coll == [] {
      assert coll + [m] == [m] && [m][1..] == [];
    } else {
      ConcatTail(coll, [m]);
      ValuesSnoc(coll[1..], m, heap, name);
      ConcatAssoc(if heap[coll[0]].Name() == name then [heap[coll[0]].GetValue()] else [],
                  ValuesNamed(coll[1..], heap, name), if heap[m].Name() == name then [heap[m].GetValue()] else []);
    }
  }

  /** Entries of a name that is not written keep their values. */
  lemma {:induction false} ValuesKept(coll: seq<int>, heap: seq<LeafDef>, heap': seq<LeafDef>, name: string)
    requires InHeap(coll, heap) && SameNamed(name, heap, heap') && |heap| <= |heap'|
    requires forall k :: 0 <= k < |coll| ==> heap'[coll[k]].Name() == heap[coll[k]].Name()
    ensures InHeap(coll, heap') && ValuesNamed(coll, heap', name) == ValuesNamed(coll, heap, name)
  {
    if coll != [] { ValuesKept(coll[1..], heap, heap', name); }
  }

  ghost predicate Plain(p: Pattern<LeafDef>, leaf: LeafDef) {
    WellFormed(p) && NamedOptions(p) && Sole(Leaves(p), leaf) && !Accumulates(leaf.GetValue())
  }

  ghost predicate PlainAll(ps: seq<Pattern<LeafDef>>, leaf: LeafDef) {
    WellFormedAll(ps) && NamedOptionsAll(ps) && Sole(LeavesAll(ps), leaf) && !Accumulates(leaf.GetValue())
  }

  /** The entries under the name grow by the values that the takes of the leaf report. */
  ghost predicate Reports(s: State, s': State, log: seq<Take>, leaf: LeafDef, orig: seq<LeafDef>)
    requires Sane(s) && Sane(s')
  {
    && Clean(s', orig, leaf) && IdsIn(log, orig)
    && ValuesNamed(s'.coll, s'.heap, leaf.Name()) ==
       ValuesNamed(s.coll, s.heap, leaf.Name()) + ReportedValues(log, leaf, orig)
  }

  lemma ReportsThen(s: State, s1: State, s2: State, a: seq<Take>, b: seq<Take>, leaf: LeafDef, orig: seq<LeafDef>)
    requires Sane(s) && Sane(s1) && Sane(s2) && Reports(s, s1, a, leaf, orig) && Reports(s1, s2, b, leaf, orig)
    ensures Reports(s, s2, a + b, leaf, orig)
  {
    ReportedConcat(a, b, leaf, orig);
    ConcatAssoc(ValuesNamed(s.coll, s.heap, leaf.Name()), ReportedValues(a, leaf, orig), ReportedValues(b, leaf, orig));
  }

  lemma NamesEvolve(s: State, heap': seq<LeafDef>, coll: seq<int>)
    requires InHeap(coll, s.heap) && HeapEvolves(s.coll, s.heap, heap')
    ensures forall k :: 0 <= k < |coll| ==> heap'[coll[k]].Name() == s.heap[coll[k]].Name()
  {
    forall k | 0 <= k < |coll| ensures heap'[coll[k]].Name() == s.heap[coll[k]].Name() {
      assert SameLeaf(s.heap[coll[k]], heap'[coll[k]]);
    }
  }

  /** A match that enters nothing under the name, because it fails or takes nothing. */
  lemma ReportsNothing(s: State, heap': seq<LeafDef>, leaf: LeafDef, orig: seq<LeafDef>)
    requires Ready(s, orig, leaf) && Sane(s.(heap := heap')) && HeapEvolves(s.coll, s.heap, heap')
    requires SameNamed(leaf.Name(), s.heap, heap')
    ensures Reports(s, s.(heap := heap'), [], leaf, orig)
  {
    CleanKept(s, s.(heap := heap'), leaf, orig);
    NamesEvolve(s, heap', s.coll);
    ValuesKept(s.coll, s.heap, heap', leaf.Name());
  }

  lemma LeafReports(x: LeafDef, s: State, orig: seq<LeafDef>, leaf: LeafDef)
    requires Plain(Leaf(x), leaf) && Ready(s, orig, leaf) && MatchLeaf(x, s).ok
    ensures Reports(s, MatchLeaf(x, s).st, Match(Leaf(x), View(s.left, s.heap)).log, leaf, orig)
  {
    var i, name := SingleMatch(x, s.left, s.heap), leaf.Name();
    var (m, heap) := Report(x, s, i);
    var (coll', heap') := Collect(x, m, s.coll, heap);
    SamePick(x, s);
    ReportFacts(x, s);
    LeafEvolves(x, s);
    LeafSpares(x, s, name);
    CleanKept(s, MatchLeaf(x, s).st, leaf, orig);
    NamesEvolve(s, heap', s.coll);
    ValuesKept(s.coll, s.heap, heap', name);
    CollectWrites(x, m, s.coll, heap);
    CollectSpares(x, m, s.coll, heap, name);
    ValuesSnoc(s.coll, m, heap', name);
    OneReport(x, s, orig, leaf, i);
    SetNamesOf(x, m, s.coll, heap);
  }

  lemma SetNamesOf(x: LeafDef, m: int, coll: seq<int>, heap: seq<LeafDef>)
    requires InHeap(coll, heap) && 0 <= m < |heap|
    ensures forall h :: 0 <= h < |heap| ==> Collect(x, m, coll, heap).1[h].Name() == heap[h].Name()
  {}

  lemma OneReport(x: LeafDef, s: State, orig: seq<LeafDef>, leaf: LeafDef, i: nat)
    requires Plain(Leaf(x), leaf) && Ready(s, orig, leaf) && i == SingleMatch(x, s.left, s.heap) < |s.left|
    ensures var t := Take(x, View(s.left, s.heap)[i]);
            t.tok.id < |orig| && ReportedValues([t], leaf, orig) ==
            if x == leaf then [Reported(leaf, s.heap[s.left[i]]).GetValue()] else []
  {
    var t := Take(x, View(s.left, s.heap)[i]);
    assert s.left[i] in s.left;
    assert [t][1..] == [];
    ReportFacts(x, s);
    if x == leaf { assert s.heap[s.left[i]] == orig[s.left[i]]; }
  }

  lemma {:induction false} MatchReports(p: Pattern<LeafDef>, s: State, orig: seq<LeafDef>, leaf: LeafDef)
    requires Plain(p, leaf) && Ready(s, orig, leaf)
    ensures MatchS(p, s).ok ==> Reports(s, MatchS(p, s).st, Match(p, View(s.left, s.heap)).log, leaf, orig)
    decreases p, |s.left|, 0
  {
    match p
    case Leaf(x) => if MatchLeaf(x, s).ok { LeafReports(x, s, orig, leaf); }
    case Required(ps) =>
      MatchAllRefines(ps, s);
      MatchAllReports(ps, s, orig, leaf);
    case Optional(ps) => MatchEachReports(ps, s, orig, leaf);
    case OptionsShortcut(ps) => MatchEachReports(ps, s, orig, leaf);
    case OneOrMore(ps) =>
      LeavesOfOne(ps);
      MatchLoopReports(ps, s, true, [], orig, leaf);
    case Either(ps) =>
      EitherIs(ps, s);
      var outs := MatchOutcomesS(ps, s).0;
      if outs != [] { OutcomeReports(ps, s, orig, leaf, FirstMin(SizesS(outs))); }
  }

  /** A step, successful or not: a failure restores the lists, and its log is empty. */
  lemma {:induction false} StepReports(p: Pattern<LeafDef>, s: State, orig: seq<LeafDef>, leaf: LeafDef)
    requires Plain(p, leaf) && Ready(s, orig, leaf)
    ensures var r, o := MatchS(p, s), Match(p, View(s.left, s.heap));
            && Ready(r.st, orig, leaf) && Reports(s, r.st, o.log, leaf, orig)
            && View(r.st.left, r.st.heap) == o.left && r.ok == o.ok
    decreases p, |s.left|, 1
  {
    var r := MatchS(p, s);
    StepState(p, s);
    MatchReports(p, s, orig, leaf);
    if !r.ok {
      MatchSpares(p, s, leaf.Name());
      ReportsNothing(s, r.st.heap, leaf, orig);
    }
  }

  lemma {:induction false} MatchAllReports(ps: seq<Pattern<LeafDef>>, s: State, orig: seq<LeafDef>, leaf: LeafDef)
    requires PlainAll(ps, leaf) && Ready(s, orig, leaf)
    ensures MatchAllS(ps, s).ok ==> Reports(s, MatchAllS(ps, s).st, MatchAll(ps, View(s.left, s.heap)).log, leaf, orig)
    decreases ps, |s.left|, 0
  {
    if ps != [] && MatchS(ps[0], s).ok {
      var m, o := MatchS(ps[0], s), Match(ps[0], View(s.left, s.heap));
      StepReports(ps[0], s, orig, leaf);
      MatchAllReports(ps[1..], m.st, orig, leaf);
      MatchAllRefines(ps[1..], m.st);
      var r := MatchAllS(ps[1..], m.st);
      if r.ok { ReportsThen(s, m.st, r.st, o.log, MatchAll(ps[1..], o.left).log, leaf, orig); }
    }
  }

  lemma {:induction false} MatchEachReports(ps: seq<Pattern<LeafDef>>, s: State, orig: seq<LeafDef>, leaf: LeafDef)
    requires PlainAll(ps, leaf) && Ready(s, orig, leaf)
    ensures Reports(s, MatchEachS(ps, s), MatchEach(ps, View(s.left, s.heap)).log, leaf, orig)
    decreases ps, |s.left|, 0
  {
    if ps != [] {
      var m, o := MatchS(ps[0], s), Match(ps[0], View(s.left, s.heap));
      StepReports(ps[0], s, orig, leaf);
      MatchEachReports(ps[1..], m.st, orig, leaf);
      ReportsThen(s, m.st, MatchEachS(ps[1..], m.st), o.log, MatchEach(ps[1..], o.left).log, leaf, orig);
    }
  }

  lemma {:induction false} MatchLoopReports(
    ps: seq<Pattern<LeafDef>>, s: State, first: bool, prev: seq<int>, orig: seq<LeafDef>, leaf: LeafDef)
    requires WellFormed(OneOrMore(ps)) && PlainAll(ps, leaf) && Ready(s, orig, leaf) && (first || prev == s.left)
    ensures var r := MatchLoopS(ps[0], s, first, prev);
            r.ok ==> Reports(s, r.st, MatchMore(ps[0], View(s.left, s.heap)).log, leaf, orig)
    decreases ps, |s.left|, if first then 2 else 1
  {
    var toks := View(s.left, s.heap);
    var m, o := MatchS(ps[0], s), Match(ps[0], toks);
    LeavesOfOne(ps);
    StepReports(ps[0], s, orig, leaf);
    if m.ok && (first || m.st.left != prev) {
      MatchLoopReports(ps, m.st, false, m.st.left, orig, leaf);
      MatchMoreAgain(ps[0], toks);
      ReportsThen(s, m.st, MatchLoopS(ps[0], m.st, false, m.st.left).st, o.log, MatchMore(ps[0], o.left).log, leaf,
                  orig);
    } else if m.ok {
      assert o.log == [];
    }
  }

  ghost predicate OutcomeReported(s: State, r: Outcomes, os: seq<Outcome>, k: nat, leaf: LeafDef, orig: seq<LeafDef>)
    requires Sane(s)
  {
    k < |r.0| && k < |os| && ListsReport(s, r.0[k], r.1, os[k].log, leaf, orig)
  }

  ghost predicate ListsReport(
    s: State, lists: (seq<int>, seq<int>), heap: seq<LeafDef>, log: seq<Take>, leaf: LeafDef, orig: seq<LeafDef>)
    requires Sane(s)
  {
    var t := State(lists.0, lists.1, heap);
    Sane(t) && Reports(s, t, log, leaf, orig)
  }

  lemma ReportShift(
    s: State, first: seq<(seq<int>, seq<int>)>, of: seq<Outcome>, r: Outcomes, os: seq<Outcome>, i: nat, k: nat,
    leaf: LeafDef, orig: seq<LeafDef>)
    requires Sane(s) && |first| == |of| && OutcomeReported(s, r, os, i, leaf, orig) && k == |first| + i
    ensures OutcomeReported(s, (first + r.0, r.1), of + os, k, leaf, orig)
  {
    assert (first + r.0)[k] == r.0[i] && (of + os)[k] == os[i];
  }

  lemma {:induction false} OutcomeReports(
    ps: seq<Pattern<LeafDef>>, s: State, orig: seq<LeafDef>, leaf: LeafDef, k: nat)
    requires PlainAll(ps, leaf) && Ready(s, orig, leaf) && k < |MatchOutcomesS(ps, s).0|
    ensures OutcomeReported(s, MatchOutcomesS(ps, s), MatchOutcomes(ps, View(s.left, s.heap)), k, leaf, orig)
    decreases ps, |s.left|, 1
  {
    if ps != [] {
      var m := MatchS(ps[0], s);
      PlainCons(ps, leaf);
      OutcomesAre(ps, s);
      if k < |OwnLists(m)| {
        FirstOutcomeReports(ps[0], ps[1..], s, orig, leaf);
      } else {
        LaterOutcomeReports(ps, s, orig, leaf, k - |OwnLists(m)|, k);
      }
    }
  }

  lemma {:induction false} FirstOutcomeReports(
    p: Pattern<LeafDef>, rest: seq<Pattern<LeafDef>>, s: State, orig: seq<LeafDef>, leaf: LeafDef)
    requires Plain(p, leaf) && PlainAll(rest, leaf) && Ready(s, orig, leaf) && MatchS(p, s).ok
    ensures var m, o := MatchS(p, s), Match(p, View(s.left, s.heap));
            var s' := s.(heap := m.st.heap);
            Sane(s') && var r := MatchOutcomesS(rest, s');
            OutcomeReported(s, ([(m.st.left, m.st.coll)] + r.0, r.1), [o] + MatchOutcomes(rest, View(s.left, s.heap)),
                            0, leaf, orig)
    decreases p, |s.left|, 2
  {
    var m, o := MatchS(p, s), Match(p, View(s.left, s.heap));
    var s' := s.(heap := m.st.heap);
    StepReports(p, s, orig, leaf);
    StepLists(p, s);
    LaterHeap(p, rest, s);
    MatchOutcomesSpare(rest, s', leaf.Name());
    var r := MatchOutcomesS(rest, s');
    ReportsUnder(s, m.st, r.1, o.log, leaf, orig);
    ReportFirst(s, (m.st.left, m.st.coll), o, r, MatchOutcomes(rest, View(s.left, s.heap)), leaf, orig);
  }

  lemma StepLists(p: Pattern<LeafDef>, s: State)
    requires WellFormed(p) && NamedOptions(p) && Proper(s)
    ensures forall x <- MatchS(p, s).st.left :: x in s.left
  {
    MatchRefines(p, s);
  }

  lemma ReportFirst(
    s: State, lists: (seq<int>, seq<int>), o: Outcome, r: Outcomes, os: seq<Outcome>, leaf: LeafDef, orig: seq<LeafDef>)
    requires Sane(s) && ListsReport(s, lists, r.1, o.log, leaf, orig)
    ensures OutcomeReported(s, ([lists] + r.0, r.1), [o] + os, 0, leaf, orig)
  {}

  /** What a branch reports holds under the heap that the later branches leave. */
  lemma ReportsUnder(s: State, s1: State, heap: seq<LeafDef>, log: seq<Take>, leaf: LeafDef, orig: seq<LeafDef>)
    requires Proper(s) && NoAlias(s) && Proper(s1) && Reports(s, s1, log, leaf, orig)
    requires forall x <- s1.left :: x in s.left
    requires HeapEvolves(s.coll, s1.heap, heap) && SameNamed(leaf.Name(), s1.heap, heap)
    requires InHeap(s1.coll, heap) && NamesOf(s1.coll, heap) == NamesOf(s1.coll, s1.heap)
    ensures ListsReport(s, (s1.left, s1.coll), heap, log, leaf, orig)
  {
    assert forall k :: 0 <= k < |s1.coll| ==> heap[s1.coll[k]].Name() == NamesOf(s1.coll, heap)[k];
    ValuesKept(s1.coll, s1.heap, heap, leaf.Name());
    CleanUnder(s, s1, heap, leaf, orig);
  }

  lemma CleanUnder(s: State, s1: State, heap: seq<LeafDef>, leaf: LeafDef, orig: seq<LeafDef>)
    requires Proper(s) && Proper(s1) && Clean(s1, orig, leaf) && HeapEvolves(s.coll, s1.heap, heap)
    requires SameNamed(leaf.Name(), s1.heap, heap)
    requires (forall x <- s1.left :: x in s.left) && NoAlias(s)
    ensures Clean(s1.(heap := heap), orig, leaf)
  {
    forall x <- s1.left
      ensures 0 <= x < |orig| && SameLeaf(orig[x], heap[x]) && (Relevant(orig[x], leaf) ==> heap[x] == orig[x])
    {
      InLeft(s1, x);
      assert SameLeaf(s1.heap[x], heap[x]);
      assert x in s.left;
    }
  }

  lemma {:induction false} LaterOutcomeReports(
    ps: seq<Pattern<LeafDef>>, s: State, orig: seq<LeafDef>, leaf: LeafDef, i: nat, k: nat)
    requires ps != [] && PlainAll(ps, leaf) && Ready(s, orig, leaf)
    requires i < |MatchOutcomesS(ps[1..], s.(heap := MatchS(ps[0], s).st.heap)).0|
    requires k == |OwnLists(MatchS(ps[0], s))| + i
    ensures var m, o, toks := MatchS(ps[0], s), Match(ps[0], View(s.left, s.heap)), View(s.left, s.heap);
            var r := MatchOutcomesS(ps[1..], s.(heap := m.st.heap));
            OutcomeReported(s, (OwnLists(m) + r.0, r.1), OwnOutcome(o) + MatchOutcomes(ps[1..], toks), k, leaf, orig)
    decreases ps, |s.left|, 0
  {
    var m, o, rest := MatchS(ps[0], s), Match(ps[0], View(s.left, s.heap)), ps[1..];
    var s' := s.(heap := m.st.heap);
    PlainCons(ps, leaf);
    StepVerdict(ps[0], s);
    RestartsReady(ps[0], s, orig, leaf);
    OutcomeReports(rest, s', orig, leaf, i);
    ReportedBefore(s, s', MatchOutcomesS(rest, s'), MatchOutcomes(rest, View(s.left, s.heap)), i, leaf, orig);
    ReportShift(s, OwnLists(m), OwnOutcome(o), MatchOutcomesS(rest, s'), MatchOutcomes(rest, View(s.left, s.heap)), i,
                k, leaf, orig);
  }

  lemma PlainCons(ps: seq<Pattern<LeafDef>>, leaf: LeafDef)
    requires ps != [] && PlainAll(ps, leaf)
    ensures Plain(ps[0], leaf) && PlainAll(ps[1..], leaf)
  {}

  /** What is reported from the lists as they were is reported from the lists before. */
  lemma ReportedBefore(s: State, s': State, r: Outcomes, os: seq<Outcome>, i: nat, leaf: LeafDef, orig: seq<LeafDef>)
    requires Sane(s) && Sane(s') && OutcomeReported(s', r, os, i, leaf, orig)
    requires ValuesNamed(s'.coll, s'.heap, leaf.Name()) == ValuesNamed(s.coll, s.heap, leaf.Name())
    ensures OutcomeReported(s, r, os, i, leaf, orig)
  {}

  lemma RestartsReady(p: Pattern<LeafDef>, s: State, orig: seq<LeafDef>, leaf: LeafDef)
    requires Plain(p, leaf) && Ready(s, orig, leaf)
    ensures var s' := s.(heap := MatchS(p, s).st.heap);
            && Ready(s', orig, leaf) && View(s'.left, s'.heap) == View(s.left, s.heap)
            && ValuesNamed(s'.coll, s'.heap, leaf.Name()) == ValuesNamed(s.coll, s.heap, leaf.Name())
  {
    var m := MatchS(p, s);
    var s' := s.(heap := m.st.heap);
    StepState(p, s);
    RefinesThen(s, Result(true, s'), s');
    ViewStable(s, m.st.heap, s.left);
    MatchSpares(p, s, leaf.Name());
    ReportsNothing(s, m.st.heap, leaf, orig);
  }

  // ---------- Marked patterns ----------

  lemma MarkLeafKeeps(d: LeafDef, all: seq<Pattern<LeafDef>>)
    ensures var d' := MarkLeaf(d, all); d'.Name() == d.Name() && d'.Option? == d.Option? && d'.Command? == d.Command?
  {}

  /** Marking keeps what the matcher asks of a pattern. */
  lemma {:induction false} MarkKeeps(p: Pattern<LeafDef>, all: seq<Pattern<LeafDef>>)
    ensures WellFormed(p) ==> WellFormed(Mark(p, all))
    ensures NamedOptions(p) ==> NamedOptions(Mark(p, all))
    ensures HasAlternatives(p) ==> HasAlternatives(Mark(p, all))
    decreases p, 1
  {
    if p.Leaf? {
      MarkLeafKeeps(p.leaf, all);
    } else {
      MarkAllKeeps(p.children, all);
      if p.OneOrMore? && |p.children| == 1 { MarkKeeps(p.children[0], all); }
    }
  }

  lemma {:induction false} MarkAllKeeps(ps: seq<Pattern<LeafDef>>, all: seq<Pattern<LeafDef>>)
    ensures WellFormedAll(ps) ==> WellFormedAll(MarkAll(ps, all))
    ensures NamedOptionsAll(ps) ==> NamedOptionsAll(MarkAll(ps, all))
    ensures HaveAlternatives(ps) ==> HaveAlternatives(MarkAll(ps, all))
    decreases ps, 0
  {
    if ps != [] {
      MarkKeeps(ps[0], all);
      MarkAllKeeps(ps[1..], all);
      Head(Mark(ps[0], all), MarkAll(ps[1..], all));
    }
  }

  lemma {:induction false} LeavesMarked(p: Pattern<LeafDef>, all: seq<Pattern<LeafDef>>, d': LeafDef)
    ensures d' in Leaves(Mark(p, all)) <==> exists d :: d in Leaves(p) && d' == MarkLeaf(d, all)
    decreases p, 1
  {
    if !p.Leaf? { LeavesAllMarked(p.children, all, d'); }
  }

  lemma {:induction false} LeavesAllMarked(ps: seq<Pattern<LeafDef>>, all: seq<Pattern<LeafDef>>, d': LeafDef)
    ensures d' in LeavesAll(MarkAll(ps, all)) <==> exists d :: d in LeavesAll(ps) && d' == MarkLeaf(d, all)
    decreases ps, 0
  {
    if ps != [] {
      LeavesMarked(ps[0], all, d');
      LeavesAllMarked(ps[1..], all, d');
      Head(Mark(ps[0], all), MarkAll(ps[1..], all));
    }
  }

  lemma MarkedValue(d: LeafDef, all: seq<Pattern<LeafDef>>)
    ensures Repeats(all, d) ==> Accumulates(MarkLeaf(d, all).GetValue())
  {}

  /** Marking does not change how often a leaf occurs that has neither a counter nor a list. */
  lemma {:induction false} MarkCount(p: Pattern<LeafDef>, all: seq<Pattern<LeafDef>>, d: LeafDef)
    requires !Accumulates(d.GetValue()) && !Repeats(all, d)
    ensures MaxCount(Mark(p, all), d) == MaxCount(p, d)
    decreases p, 1
  {
    if p.Leaf? { MarkedValue(p.leaf, all); } else { MarkAllCount(p.children, all, d); }
  }

  lemma {:induction false} MarkAllCount(ps: seq<Pattern<LeafDef>>, all: seq<Pattern<LeafDef>>, d: LeafDef)
    requires !Accumulates(d.GetValue()) && !Repeats(all, d)
    ensures MaxCountAll(MarkAll(ps, all), d) == MaxCountAll(ps, d)
    ensures MaxCountEither(MarkAll(ps, all), d) == MaxCountEither(ps, d)
    decreases ps, 0
  {
    if ps != [] {
      MarkCount(ps[0], all, d);
      MarkAllCount(ps[1..], all, d);
      Head(Mark(ps[0], all), MarkAll(ps[1..], all));
    }
  }

  /** In a pattern that has been fixed, every leaf that repeats has a counter or a list. */
  lemma FixedIsMarked(trees: seq<Pattern<LeafDef>>)
    requires HaveAlternatives(trees)
    ensures IsMarked(Required(MarkAll(trees, trees)))
  {
    var p := Required(MarkAll(trees, trees));
    forall d | d in Leaves(p) && !Accumulates(d.GetValue()) ensures !Repeats([p], d) {
      LeavesAllMarked(trees, trees, d);
      var e :| e in LeavesAll(trees) && d == MarkLeaf(e, trees);
      MarkedValue(e, trees);
      MarkAllCount(trees, trees, d);
      HaveMultiplicity(trees, d);
      OneMultiplicity([p], d);
    }
  }
}
