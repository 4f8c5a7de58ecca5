/**
 Facts about every match that say nothing yet about values: which names are never written, who takes which tokens, and
 the states that a match and its branches go through. And what the takes of one leaf add up to.
 */
module MatchTotals {
  import opened Sequences
  import opened Patterns
  import opened Matching
  import opened MatchStore
  import opened MatchRefinement
  import opened MatchAccumulate
  import opened MatchEntries

  // ---------- Names that are never written ----------

  ghost predicate SameNamed(name: string, heap: seq<LeafDef>, heap': seq<LeafDef>) {
    |heap| <= |heap'| && forall h :: 0 <= h < |heap| && heap[h].Name() == name ==> heap'[h] == heap[h]
  }

  /** No leaf of that name counts or makes a list. */
  ghost predicate Quiet(leaves: set<LeafDef>, name: string) {
    forall d :: d in leaves && d.Name() == name ==> !Accumulates(d.GetValue())
  }

  lemma CollectSpares(leaf: LeafDef, m: int, coll: seq<int>, heap: seq<LeafDef>, name: string)
    requires InHeap(coll, heap) && 0 <= m < |heap| && heap[m].Name() == leaf.Name()
    requires leaf.Name() == name ==> !Accumulates(leaf.GetValue())
    ensures SameNamed(name, heap, Collect(leaf, m, coll, heap).1)
  {}

  lemma LeafSpares(leaf: LeafDef, s: State, name: string)
    requires Proper(s) && (leaf.Option? ==> leaf.Name() != "")
    requires (leaf.Name() == name ==> !Accumulates(leaf.GetValue()))
    ensures SameNamed(name, s.heap, MatchLeaf(leaf, s).st.heap)
  {
    var i := SingleMatch(leaf, s.left, s.heap);
    if i < |s.left| {
      var (m, heap) := Report(leaf, s, i);
      ReportFacts(leaf, s);
      CollectSpares(leaf, m, s.coll, heap, name);
      assert forall h :: 0 <= h < |s.heap| ==> heap[h] == s.heap[h];
    }
  }

  /** Shared leaves of a quiet name are not written by any match, given up or not. */
  lemma {:induction false} MatchSpares(p: Pattern<LeafDef>, s: State, name: string)
    requires WellFormed(p) && NamedOptions(p) && Proper(s) && Quiet(Leaves(p), name)
    ensures SameNamed(name, s.heap, MatchS(p, s).st.heap)
    decreases p, |s.left|, 0
  {
    match p
    case Leaf(leaf) => LeafSpares(leaf, s, name);
    case Required(ps) => MatchAllSpares(ps, s, name);
    case Optional(ps) => MatchEachSpares(ps, s, name);
    case OptionsShortcut(ps) => MatchEachSpares(ps, s, name);
    case OneOrMore(ps) => MatchLoopSpares(ps, s, true, [], name);
    case Either(ps) => MatchOutcomesSpare(ps, s, name);
  }

  lemma {:induction false} MatchAllSpares(ps: seq<Pattern<LeafDef>>, s: State, name: string)
    requires WellFormedAll(ps) && NamedOptionsAll(ps) && Proper(s) && Quiet(LeavesAll(ps), name)
    ensures SameNamed(name, s.heap, MatchAllS(ps, s).st.heap)
    decreases ps, |s.left|, 0
  {
    if ps != [] {
      StepFacts(ps[0], s);
      MatchSpares(ps[0], s, name);
      if MatchS(ps[0], s).ok { MatchAllSpares(ps[1..], MatchS(ps[0], s).st, name); }
    }
  }

  lemma {:induction false} MatchEachSpares(ps: seq<Pattern<LeafDef>>, s: State, name: string)
    requires WellFormedAll(ps) && NamedOptionsAll(ps) && Proper(s) && Quiet(LeavesAll(ps), name)
    ensures SameNamed(name, s.heap, MatchEachS(ps, s).heap)
    decreases ps, |s.left|, 0
  {
    if ps != [] {
      StepFacts(ps[0], s);
      MatchSpares(ps[0], s, name);
      MatchEachSpares(ps[1..], MatchS(ps[0], s).st, name);
    }
  }

  lemma {:induction false} MatchLoopSpares(
    ps: seq<Pattern<LeafDef>>, s: State, first: bool, prev: seq<int>, name: string)
    requires WellFormed(OneOrMore(ps)) && NamedOptionsAll(ps) && Proper(s) && (first || prev == s.left)
    requires Quiet(LeavesAll(ps), name)
    ensures SameNamed(name, s.heap, MatchLoopS(ps[0], s, first, prev).st.heap)
    decreases ps, |s.left|, if first then 2 else 1
  {
    var m := MatchS(ps[0], s);
    StepFacts(ps[0], s);
    MatchSpares(ps[0], s, name);
    if !((!first && m.st.left == prev) || !m.ok) { MatchLoopSpares(ps, m.st, false, m.st.left, name); }
  }

  lemma {:induction false} MatchOutcomesSpare(ps: seq<Pattern<LeafDef>>, s: State, name: string)
    requires WellFormedAll(ps) && NamedOptionsAll(ps) && Proper(s) && Quiet(LeavesAll(ps), name)
    ensures SameNamed(name, s.heap, MatchOutcomesS(ps, s).1)
    decreases ps, |s.left|, 0
  {
    if ps != [] {
      var m := MatchS(ps[0], s);
      var s' := s.(heap := m.st.heap);
      MatchRefines(ps[0], s);
      RefinesThen(s, Result(true, s'), s');
      MatchSpares(ps[0], s, name);
      MatchOutcomesSpare(ps[1..], s', name);
    }
  }

  // ---------- Takes of one leaf, and what they add up to ----------

  /** One definition per name, as a usage text that names each of its elements once over gives. */
  ghost predicate OneDefinitionPerName(leaves: set<LeafDef>) {
    forall d, d' :: d in leaves && d' in leaves && d.Name() == d'.Name() ==> d == d'
  }

  /** The tokens that one leaf has taken. */
  function Kept(log: seq<Take>, leaf: LeafDef): seq<Tok>
    decreases |log|
  {
    if log == [] then [] else
    (if log[0].leaf == leaf then [log[0].tok] else []) + Kept(log[1..], leaf)
  }

  lemma {:induction false} KeptConcat(a: seq<Take>, b: seq<Take>, leaf: LeafDef)
    ensures Kept(a + b, leaf) == Kept(a, leaf) + Kept(b, leaf)
    decreases |a|
  {
    if a == [] {
      assert a + b == b;
    } else {
      ConcatTail(a, b);
      KeptConcat(a[1..], b, leaf);
      ConcatAssoc(if a[0].leaf == leaf then [a[0].tok] else [], Kept(a[1..], leaf), Kept(b, leaf));
    }
  }

  lemma KeptOne(t: Take, leaf: LeafDef)
    ensures Kept([t], leaf) == if t.leaf == leaf then [t.tok] else []
  {
    assert [t][1..] == [];
  }

  lemma {:induction false} KeptIffTaken(log: seq<Take>, leaf: LeafDef)
    ensures Kept(log, leaf) != [] <==> exists k :: 0 <= k < |log| && log[k].leaf == leaf
    decreases |log|
  {
    if log != [] {
      KeptIffTaken(log[1..], leaf);
      if k :| 0 <= k < |log| && log[k].leaf == leaf {
        if k > 0 { assert log[1..][k - 1] == log[k]; }
      }
      if k :| 0 <= k < |log[1..]| && log[1..][k].leaf == leaf { assert log[k + 1] == log[1..][k]; }
    }
  }

  function Takes(log: seq<Take>, leaf: LeafDef): nat {
    |Kept(log, leaf)|
  }

  ghost predicate IdsIn(log: seq<Take>, heap: seq<LeafDef>) {
    forall k :: 0 <= k < |log| ==> log[k].tok.id < |heap|
  }

  ghost predicate TokIdsIn(toks: seq<Tok>, heap: seq<LeafDef>) {
    forall k :: 0 <= k < |toks| ==> toks[k].id < |heap|
  }

  lemma {:induction false} KeptIds(log: seq<Take>, leaf: LeafDef, heap: seq<LeafDef>)
    requires IdsIn(log, heap)
    ensures TokIdsIn(Kept(log, leaf), heap)
    decreases |log|
  {
    if log != [] { KeptIds(log[1..], leaf, heap); }
  }

  /** What a token adds to the list of a leaf: the words that argv has for it. */
  function WordsAt(t: Tok, leaf: LeafDef, heap: seq<LeafDef>): seq<string>
    requires t.id < |heap|
  {
    if leaf.Command? then [] else
    match heap[t.id].GetValue()
    case Str(s) => [s]
    case StrList(l) => l
    case _ => []
  }

  function WordsOf(toks: seq<Tok>, leaf: LeafDef, heap: seq<LeafDef>): seq<string>
    requires TokIdsIn(toks, heap)
  {
    if toks == [] then [] else WordsAt(toks[0], leaf, heap) + WordsOf(toks[1..], leaf, heap)
  }

  lemma {:induction false} WordsConcat(a: seq<Tok>, b: seq<Tok>, leaf: LeafDef, heap: seq<LeafDef>)
    requires TokIdsIn(a, heap) && TokIdsIn(b, heap)
    ensures WordsOf(a + b, leaf, heap) == WordsOf(a, leaf, heap) + WordsOf(b, leaf, heap)
  {
    if a == [] {
      assert a + b == b;
    } else {
      ConcatTail(a, b);
      WordsConcat(a[1..], b, leaf, heap);
      ConcatAssoc(WordsAt(a[0], leaf, heap), WordsOf(a[1..], leaf, heap), WordsOf(b, leaf, heap));
    }
  }

  /** The value that tokens add up to in a leaf: how many there are, or their words in order. */
  function Sum(toks: seq<Tok>, leaf: LeafDef, heap: seq<LeafDef>): Value
    requires TokIdsIn(toks, heap)
  {
    if leaf.GetValue().Long? then Long(|toks|) else StrList(WordsOf(toks, leaf, heap))
  }

  /** No entry for a leaf that took nothing, exactly one with the sum of what it took for a leaf that did. */
  ghost predicate Exact(es: seq<LeafDef>, log: seq<Take>, leaf: LeafDef, heap: seq<LeafDef>)
    requires TokIdsIn(Kept(log, leaf), heap)
  {
    var j := FirstEntry(es, leaf.Name());
    && (forall k :: 0 <= k < |es| && es[k].Name() == leaf.Name() ==> k == j)
    && (j < |es| <==> Kept(log, leaf) != [])
    && (j < |es| ==> es[j].GetValue() == Sum(Kept(log, leaf), leaf, heap))
  }

  // ---------- Tokens that have not been written ----------

  /** The tokens that `leaf` could take. */
  ghost predicate Relevant(d: LeafDef, leaf: LeafDef) {
    if leaf.Option? then d.Option? && d.Name() == leaf.Name() else IsArg(d)
  }

  /** Tokens that `leaf` could still take are as they were in `orig`. */
  ghost predicate Clean(s: State, orig: seq<LeafDef>, leaf: LeafDef) {
    && |orig| <= |s.heap|
    && forall x <- s.left ::
      0 <= x < |orig| && SameLeaf(orig[x], s.heap[x]) && (Relevant(orig[x], leaf) ==> s.heap[x] == orig[x])
  }

  /** `leaf` is the only leaf of its name. */
  ghost predicate Sole(leaves: set<LeafDef>, leaf: LeafDef) {
    forall d :: d in leaves && d.Name() == leaf.Name() ==> d == leaf
  }

  ghost predicate Ready(s: State, orig: seq<LeafDef>, leaf: LeafDef) {
    Proper(s) && NoAlias(s) && Clean(s, orig, leaf)
  }

  /** Tokens stay clean where the name of the leaf is not written. */
  lemma CleanKept(s: State, s': State, leaf: LeafDef, orig: seq<LeafDef>)
    requires Proper(s) && Clean(s, orig, leaf) && Evolves(s, s')
    requires leaf.Option? ==> SameNamed(leaf.Name(), s.heap, s'.heap)
    ensures Clean(s', orig, leaf)
  {
    forall x <- s'.left
      ensures 0 <= x < |orig| && SameLeaf(orig[x], s'.heap[x]) && (Relevant(orig[x], leaf) ==> s'.heap[x] == orig[x])
    {
      assert x in s.left;
      assert SameLeaf(s.heap[x], s'.heap[x]);
      var i :| 0 <= i < |s.left| && s.left[i] == x;
    }
  }

  lemma {:induction false} RecordNames(names: seq<string>, log: seq<Take>, name: string)
    ensures name in Record(names, log) <==> name in names || exists k :: 0 <= k < |log| && log[k].leaf.Name() == name
    decreases |log|
  {
    if log != [] {
      RecordNames(RecordOne(names, log[0].leaf), log[1..], name);
      if k :| 0 <= k < |log| && log[k].leaf.Name() == name {
        if k > 0 { assert log[1..][k - 1] == log[k]; }
      }
      if k :| 0 <= k < |log[1..]| && log[1..][k].leaf.Name() == name {
        assert log[k + 1] == log[1..][k];
      }
    }
  }

  // ---------- Takes are by leaves of the pattern, on their channels ----------

  ghost predicate ByLeaves(log: seq<Take>, leaves: set<LeafDef>) {
    forall k :: 0 <= k < |log| ==> log[k].leaf in leaves && ChannelOf(log[k].tok) == LeafChannel(log[k].leaf)
  }

  lemma {:induction false} MatchByLeaves(p: Pattern<LeafDef>, toks: seq<Tok>)
    requires WellFormed(p) && NamedOptions(p)
    ensures ByLeaves(Match(p, toks).log, Leaves(p))
    decreases p, |toks|, 0
  {
    match p
    case Leaf(leaf) => PickHead(leaf, toks);
    case Required(ps) => MatchAllByLeaves(ps, toks);
    case Optional(ps) => MatchEachByLeaves(ps, toks);
    case OptionsShortcut(ps) => MatchEachByLeaves(ps, toks);
    case OneOrMore(ps) => MatchMoreByLeaves(ps, toks);
    case Either(ps) => MatchOutcomesByLeaves(ps, toks);
  }

  lemma {:induction false} MatchAllByLeaves(ps: seq<Pattern<LeafDef>>, toks: seq<Tok>)
    requires WellFormedAll(ps) && NamedOptionsAll(ps)
    ensures ByLeaves(MatchAll(ps, toks).log, LeavesAll(ps))
    decreases ps, |toks|, 0
  {
    if ps != [] {
      MatchByLeaves(ps[0], toks);
      MatchAllByLeaves(ps[1..], Match(ps[0], toks).left);
    }
  }

  lemma {:induction false} MatchEachByLeaves(ps: seq<Pattern<LeafDef>>, toks: seq<Tok>)
    requires WellFormedAll(ps) && NamedOptionsAll(ps)
    ensures ByLeaves(MatchEach(ps, toks).log, LeavesAll(ps))
    decreases ps, |toks|, 0
  {
    if ps != [] {
      MatchByLeaves(ps[0], toks);
      MatchEachByLeaves(ps[1..], Match(ps[0], toks).left);
    }
  }

  lemma {:induction false} MatchMoreByLeaves(ps: seq<Pattern<LeafDef>>, toks: seq<Tok>)
    requires WellFormed(OneOrMore(ps)) && NamedOptionsAll(ps)
    ensures ByLeaves(MatchMore(ps[0], toks).log, LeavesAll(ps))
    decreases ps, |toks|, 1
  {
    var m := Match(ps[0], toks);
    MatchByLeaves(ps[0], toks);
    if m.ok && m.log != [] { MatchMoreByLeaves(ps, m.left); }
  }

  lemma {:induction false} MatchOutcomesByLeaves(ps: seq<Pattern<LeafDef>>, toks: seq<Tok>)
    requires WellFormedAll(ps) && NamedOptionsAll(ps)
    ensures forall k :: 0 <= k < |MatchOutcomes(ps, toks)| ==> ByLeaves(MatchOutcomes(ps, toks)[k].log, LeavesAll(ps))
    decreases ps, |toks|, 0
  {
    if ps != [] {
      MatchByLeaves(ps[0], toks);
      MatchOutcomesByLeaves(ps[1..], toks);
    }
  }

  /** The only leaf of its channel. */
  ghost predicate AloneOnChannel(leaves: set<LeafDef>, leaf: LeafDef) {
    forall d :: d in leaves && LeafChannel(d) == LeafChannel(leaf) ==> d == leaf
  }

  lemma {:induction false} KeptIsChannel(log: seq<Take>, leaves: set<LeafDef>, leaf: LeafDef)
    requires ByLeaves(log, leaves) && AloneOnChannel(leaves, leaf)
    ensures Kept(log, leaf) == Proj(Taken(log), LeafChannel(leaf))
    decreases |log|
  {
    if log != [] {
      var rest := log[1..];
      assert forall k :: 0 <= k < |rest| ==> rest[k] == log[k + 1];
      KeptIsChannel(rest, leaves, leaf);
      Head(log[0].tok, Taken(rest));
    }
  }

  // ---------- Infallible patterns ----------

  lemma {:induction false} InfallibleMatches(p: Pattern<LeafDef>, toks: seq<Tok>)
    requires WellFormed(p) && Infallible(p)
    ensures Match(p, toks).ok
    decreases p, 1
  {
    match p
    case Required(ps) => InfallibleAllMatches(ps, toks);
    case OneOrMore(ps) => InfallibleMatches(ps[0], toks);
    case Optional(_) =>
    case OptionsShortcut(_) =>
  }

  lemma {:induction false} InfallibleAllMatches(ps: seq<Pattern<LeafDef>>, toks: seq<Tok>)
    requires WellFormedAll(ps) && InfallibleAll(ps)
    ensures MatchAll(ps, toks).ok
    decreases ps, 0
  {
    if ps != [] {
      InfallibleMatches(ps[0], toks);
      InfallibleAllMatches(ps[1..], Match(ps[0], toks).left);
    }
  }

  // ---------- One step ----------

  ghost predicate Suits(p: Pattern<LeafDef>, leaf: LeafDef) {
    WellFormed(p) && NamedOptions(p) && Sole(Leaves(p), leaf) && Accumulates(leaf.GetValue())
  }

  ghost predicate SuitAll(ps: seq<Pattern<LeafDef>>, leaf: LeafDef) {
    WellFormedAll(ps) && NamedOptionsAll(ps) && Sole(LeavesAll(ps), leaf) && Accumulates(leaf.GetValue())
  }

  lemma SuitCons(ps: seq<Pattern<LeafDef>>, leaf: LeafDef)
    requires ps != [] && SuitAll(ps, leaf)
    ensures Suits(ps[0], leaf) && SuitAll(ps[1..], leaf)
  {}

  /** After a match, successful or not, the lists are good to go on with, and look like the leftovers. */
  lemma StepState(p: Pattern<LeafDef>, s: State)
    requires WellFormed(p) && NamedOptions(p) && Proper(s) && NoAlias(s)
    ensures var r, o := MatchS(p, s), Match(p, View(s.left, s.heap));
            && Proper(r.st) && NoAlias(r.st) && Evolves(s, r.st) && Extends(s, r.st, o.log)
            && r.ok == o.ok && View(r.st.left, r.st.heap) == o.left
  {
    var r, o := MatchS(p, s), Match(p, View(s.left, s.heap));
    MatchRefines(p, s);
    EvolvesProper(s, r.st);
    MatchRecords(p, s);
    StepExtends(s, r, o, Leaves(p));
  }

  lemma LogIds(p: Pattern<LeafDef>, s: State, orig: seq<LeafDef>, leaf: LeafDef)
    requires WellFormed(p) && Sane(s) && Clean(s, orig, leaf)
    ensures IdsIn(Match(p, View(s.left, s.heap)).log, orig)
  {
    var toks := View(s.left, s.heap);
    MatchConserves(p, toks);
    LogFrom(toks, Match(p, toks));
    TokIds(s, orig, leaf, Match(p, toks).log);
  }

  lemma TokIds(s: State, orig: seq<LeafDef>, leaf: LeafDef, log: seq<Take>)
    requires Sane(s) && Clean(s, orig, leaf) && forall k :: 0 <= k < |log| ==> log[k].tok in View(s.left, s.heap)
    ensures IdsIn(log, orig)
  {
    forall k | 0 <= k < |log| ensures log[k].tok.id < |orig| {
      var i :| 0 <= i < |s.left| && View(s.left, s.heap)[i] == log[k].tok;
      assert s.left[i] in s.left;
    }
  }

  /** The first entry of a name is where the names say. */
  lemma FirstAt(coll: seq<int>, heap: seq<LeafDef>, name: string, j: nat)
    requires InHeap(coll, heap) && j < |coll| && heap[coll[j]].Name() == name
    requires forall k :: 0 <= k < j ==> heap[coll[k]].Name() != name
    ensures FirstWithName(coll, heap, name) == j
  {}

  lemma SetNames(heap: seq<LeafDef>, h: int, v: Value)
    requires 0 <= h < |heap|
    ensures forall k :: 0 <= k < |heap| ==> SetCell(heap, h, v)[k].Name() == heap[k].Name()
    ensures SetCell(heap, h, v)[h].GetValue() == v
  {}

  ghost predicate NotEntered(s: State, leaf: LeafDef)
    requires InHeap(s.coll, s.heap)
  {
    leaf.Name() !in NamesOf(s.coll, s.heap)
  }

  // ---------- Alternatives ----------

  type Outcomes = (seq<(seq<int>, seq<int>)>, seq<LeafDef>)

  /** What holds under the heap that the alternatives after one leave. */
  lemma LaterHeap(p: Pattern<LeafDef>, rest: seq<Pattern<LeafDef>>, s: State)
    requires WellFormed(p) && NamedOptions(p) && WellFormedAll(rest) && NamedOptionsAll(rest) && Proper(s) && NoAlias(s)
    ensures var m := MatchS(p, s);
            var s' := s.(heap := m.st.heap);
            Proper(s') && var heap := MatchOutcomesS(rest, s').1;
            && Sane(m.st.(heap := heap)) && HeapEvolves(s.coll, m.st.heap, heap)
            && NamesOf(m.st.coll, heap) == NamesOf(m.st.coll, m.st.heap)
            && (forall h :: 0 <= h < |m.st.heap| && h !in s.left && h !in s.coll ==> heap[h] == m.st.heap[h])
  {
    var m := MatchS(p, s);
    var s' := s.(heap := m.st.heap);
    StepState(p, s);
    RefinesThen(s, Result(true, s'), s');
    MatchOutcomesRefine(rest, s');
    MatchOutcomesRecord(rest, s');
    NamesKept(m.st.coll, s.coll, m.st.heap, MatchOutcomesS(rest, s').1);
  }

  lemma SameFirst(coll: seq<int>, heap: seq<LeafDef>, heap': seq<LeafDef>, name: string)
    requires InHeap(coll, heap) && InHeap(coll, heap') && NamesOf(coll, heap') == NamesOf(coll, heap)
    ensures FirstWithName(coll, heap', name) == FirstWithName(coll, heap, name)
  {
    assert forall k :: 0 <= k < |coll| ==> heap'[coll[k]].Name() == NamesOf(coll, heap')[k] == heap[coll[k]].Name();
  }

  lemma NoOptionNamed(leaves: set<LeafDef>, leaf: LeafDef)
    requires Sole(leaves, leaf) && !leaf.Option?
    ensures !OptionNamed(leaf.Name(), leaves)
  {}

  /** A positional is collected in a leaf that is neither in argv nor collected before. */
  lemma EntryIsNew(leaves: set<LeafDef>, s: State, s': State, leaf: LeafDef, c: int)
    requires Sole(leaves, leaf) && Sane(s) && NotEntered(s, leaf) && !leaf.Option?
    requires Reaches(s, s', leaves) && HeapEvolves(s.coll, s.heap, s'.heap)
    requires c in s'.coll && 0 <= c < |s'.heap| && s'.heap[c].Name() == leaf.Name()
    ensures c >= |s.heap|
  {
    if c < |s.heap| {
      assert SameLeaf(s.heap[c], s'.heap[c]);
      NotInCollected(s, leaf, c);
      NoOptionNamed(leaves, leaf);
    }
  }

  lemma NotInCollected(s: State, leaf: LeafDef, c: int)
    requires Sane(s) && NotEntered(s, leaf) && 0 <= c < |s.heap| && s.heap[c].Name() == leaf.Name()
    ensures c !in s.coll
  {
    assert forall k :: 0 <= k < |s.coll| ==> s.heap[s.coll[k]].Name() == NamesOf(s.coll, s.heap)[k];
  }

  /** The outcome of an alternative, if it matches. */
  function OwnLists(m: Result): seq<(seq<int>, seq<int>)> {
    if m.ok then [(m.st.left, m.st.coll)] else []
  }

  function OwnOutcome(o: Outcome): seq<Outcome> {
    if o.ok then [o] else []
  }

  /** The outcomes of a list, by its first alternative and the others. */
  lemma OutcomesAre(ps: seq<Pattern<LeafDef>>, s: State)
    requires ps != [] && WellFormedAll(ps) && NamedOptionsAll(ps) && Proper(s)
    ensures var m, o, toks := MatchS(ps[0], s), Match(ps[0], View(s.left, s.heap)), View(s.left, s.heap);
            var r := MatchOutcomesS(ps[1..], s.(heap := m.st.heap));
            && m.ok == o.ok
            && MatchOutcomesS(ps, s) == (OwnLists(m) + r.0, r.1)
            && MatchOutcomes(ps, toks) == OwnOutcome(o) + MatchOutcomes(ps[1..], toks)
  {
    MatchRefines(ps[0], s);
  }

  lemma StepVerdict(p: Pattern<LeafDef>, s: State)
    requires WellFormed(p) && NamedOptions(p) && Proper(s)
    ensures MatchS(p, s).ok == Match(p, View(s.left, s.heap)).ok
  {
    MatchRefines(p, s);
  }

}
