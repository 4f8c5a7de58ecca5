/**
 What a match does to `collected` and to the shared leaves, for every pattern: which names are entered and in which
 order, which leaves can be written at all, and that names without a counter or a list keep the value they were given.
 */
module MatchEntries {
  import opened Sequences
  import opened Patterns
  import opened Matching
  import opened MatchStore
  import opened MatchRefinement
  import opened MatchAccumulate

  // ---------- Names ----------

  function NamesOf(coll: seq<int>, heap: seq<LeafDef>): (r: seq<string>)
    requires InHeap(coll, heap)
    ensures |r| == |coll| && forall k :: 0 <= k < |r| ==> r[k] == heap[coll[k]].Name()
  {
    seq(|coll|, k requires 0 <= k < |coll| && 0 <= coll[k] < |heap| => heap[coll[k]].Name())
  }

  /** A leaf that accumulates enters its name once, another one every time. */
  function RecordOne(names: seq<string>, leaf: LeafDef): seq<string> {
    if Accumulates(leaf.GetValue()) && leaf.Name() in names then names else names + [leaf.Name()]
  }

  function Record(names: seq<string>, log: seq<Take>): seq<string>
    decreases |log|
  {
    if log == [] then names else Record(RecordOne(names, log[0].leaf), log[1..])
  }

  lemma {:induction false} RecordConcat(names: seq<string>, a: seq<Take>, b: seq<Take>)
    ensures Record(names, a + b) == Record(Record(names, a), b)
    decreases |a|
  {
    if a == [] {
      assert a + b == b;
    } else {
      ConcatTail(a, b);
      RecordConcat(RecordOne(names, a[0].leaf), a[1..], b);
    }
  }

  lemma NamesKept(coll: seq<int>, of: seq<int>, heap: seq<LeafDef>, heap': seq<LeafDef>)
    requires InHeap(coll, heap) && HeapEvolves(of, heap, heap')
    ensures InHeap(coll, heap') && NamesOf(coll, heap') == NamesOf(coll, heap)
  {
    forall k | 0 <= k < |coll| ensures heap'[coll[k]].Name() == heap[coll[k]].Name() {
      assert SameLeaf(heap[coll[k]], heap'[coll[k]]);
    }
  }

  // ---------- What is written, and what is entered ----------

  ghost predicate OptionNamed(name: string, leaves: set<LeafDef>) {
    exists d :: d in leaves && d.Option? && d.Name() == name
  }

  /**
   Only leaves in the lists are written; what is entered is new, or an option of argv that a leaf of the pattern names.
   */
  ghost predicate Reaches(s: State, s': State, leaves: set<LeafDef>)
    requires Sane(s)
  {
    && |s.heap| <= |s'.heap|
    && (forall x <- s'.left :: x in s.left)
    && (forall c <- s'.coll :: c in s.coll || c >= |s.heap| || (c in s.left && OptionNamed(s.heap[c].Name(), leaves)))
    && (forall h :: 0 <= h < |s.heap| && h !in s.left && h !in s.coll ==> s'.heap[h] == s.heap[h])
  }

  /** `collected` grows at its end, by the names of the takes. */
  ghost predicate Extends(s: State, s': State, log: seq<Take>)
    requires Sane(s) && Sane(s')
  {
    s.coll <= s'.coll && NoAlias(s') && NamesOf(s'.coll, s'.heap) == Record(NamesOf(s.coll, s.heap), log)
  }

  ghost predicate Records(s: State, r: Result, o: Outcome, leaves: set<LeafDef>)
    requires Sane(s) && Sane(r.st)
  {
    Reaches(s, r.st, leaves) && (r.ok ==> Extends(s, r.st, o.log))
  }

  lemma RecordsNothing(s: State, leaves: set<LeafDef>)
    requires Sane(s) && NoAlias(s)
    ensures Reaches(s, s, leaves) && Extends(s, s, [])
  {}

  lemma ReachesRestored(s: State, s': State, leaves: set<LeafDef>)
    requires Sane(s) && Reaches(s, s', leaves)
    ensures Reaches(s, s.(heap := s'.heap), leaves)
  {}

  lemma ReachesThen(s: State, s1: State, s2: State, a: set<LeafDef>, b: set<LeafDef>)
    requires Sane(s) && Sane(s1) && Reaches(s, s1, a) && Evolves(s, s1) && Reaches(s1, s2, b)
    ensures Reaches(s, s2, a + b)
  {
    forall c <- s2.coll ensures c in s.coll || c >= |s.heap| || (c in s.left && OptionNamed(s.heap[c].Name(), a + b)) {
      if c in s1.coll {
        if c in s.left && c !in s.coll && c < |s.heap| { OptionNamedIn(s.heap[c].Name(), a, a + b); }
      } else if c < |s1.heap| && c in s1.left {
        assert SameLeaf(s.heap[c], s1.heap[c]) by { InLeft(s, c); }
        OptionNamedIn(s1.heap[c].Name(), b, a + b);
      }
    }
  }

  lemma InLeft(s: State, x: int)
    requires Sane(s) && x in s.left
    ensures 0 <= x < |s.heap|
  {
    var i :| 0 <= i < |s.left| && s.left[i] == x;
  }

  lemma OptionNamedIn(name: string, a: set<LeafDef>, b: set<LeafDef>)
    requires a <= b
    ensures OptionNamed(name, a) ==> OptionNamed(name, b)
  {}

  lemma ExtendsThen(s: State, s1: State, s2: State, a: seq<Take>, b: seq<Take>)
    requires Sane(s) && Sane(s1) && Sane(s2) && Extends(s, s1, a) && Extends(s1, s2, b)
    ensures Extends(s, s2, a + b)
  {
    RecordConcat(NamesOf(s.coll, s.heap), a, b);
  }

  // ---------- Leaves ----------

  lemma {:induction false} FirstIsIn(coll: seq<int>, heap: seq<LeafDef>, name: string)
    requires InHeap(coll, heap)
    ensures FirstWithName(coll, heap, name) < |coll| <==> name in NamesOf(coll, heap)
  {
    var j, names := FirstWithName(coll, heap, name), NamesOf(coll, heap);
    if j < |coll| { assert names[j] == name; }
  }

  lemma CollectNames(leaf: LeafDef, m: int, coll: seq<int>, heap: seq<LeafDef>)
    requires InHeap(coll, heap) && 0 <= m < |heap| && heap[m].Name() == leaf.Name()
    ensures var r := Collect(leaf, m, coll, heap); NamesOf(r.0, r.1) == RecordOne(NamesOf(coll, heap), leaf)
  {
    FirstIsIn(coll, heap, leaf.Name());
    var r := Collect(leaf, m, coll, heap);
    assert forall h :: 0 <= h < |heap| ==> r.1[h].Name() == heap[h].Name();
  }

  lemma CollectWrites(leaf: LeafDef, m: int, coll: seq<int>, heap: seq<LeafDef>)
    requires InHeap(coll, heap) && 0 <= m < |heap|
    ensures var r := Collect(leaf, m, coll, heap);
            && (r.0 == coll || r.0 == coll + [m])
            && (forall h :: 0 <= h < |heap| && h != m && h !in coll ==> r.1[h] == heap[h])
  {
    var j := FirstWithName(coll, heap, leaf.Name());
    if j < |coll| { assert coll[j] in coll; }
  }

  /** A match reports a leaf that is named like the one that took it: a new one, or the option in argv. */
  lemma ReportFacts(leaf: LeafDef, s: State)
    requires Proper(s) && (leaf.Option? ==> leaf.Name() != "") && SingleMatch(leaf, s.left, s.heap) < |s.left|
    ensures var i := SingleMatch(leaf, s.left, s.heap);
            var (m, heap) := Report(leaf, s, i);
            && heap[m].Name() == leaf.Name()
            && (if leaf.Option? then m == s.left[i] && heap == s.heap else m == |s.heap|)
  {}

  lemma OneTake(names: seq<string>, t: Take)
    ensures Record(names, [t]) == RecordOne(names, t.leaf)
  {
    assert [t][1..] == [];
  }

  /** A taken token, reported and collected, is recorded. */
  lemma TakeRecords(leaf: LeafDef, s: State, i: nat)
    requires Proper(s) && (leaf.Option? ==> leaf.Name() != "") && i == SingleMatch(leaf, s.left, s.heap) < |s.left|
    ensures var (m, heap) := Report(leaf, s, i);
            var (coll', heap') := Collect(leaf, m, s.coll, heap);
            NamesOf(coll', heap') == RecordOne(NamesOf(s.coll, s.heap), leaf)
  {
    var (m, heap) := Report(leaf, s, i);
    ReportFacts(leaf, s);
    CollectNames(leaf, m, s.coll, heap);
    assert NamesOf(s.coll, heap) == NamesOf(s.coll, s.heap);
  }

  lemma TakeReaches(leaf: LeafDef, s: State, i: nat)
    requires Proper(s) && NoAlias(s) && (leaf.Option? ==> leaf.Name() != "")
    requires i == SingleMatch(leaf, s.left, s.heap) < |s.left|
    ensures var (m, heap) := Report(leaf, s, i);
            var (coll', heap') := Collect(leaf, m, s.coll, heap);
            var s' := State(Remove(s.left, i), coll', heap');
            Reaches(s, s', {leaf}) && NoAlias(s') && s.coll <= coll'
  {
    var (m, heap) := Report(leaf, s, i);
    ReportFacts(leaf, s);
    CollectWrites(leaf, m, s.coll, heap);
    var (coll', heap') := Collect(leaf, m, s.coll, heap);
    LeafReaches(leaf, s, i, m, heap, coll', heap');
  }

  lemma LeafRecords(leaf: LeafDef, s: State)
    requires Proper(s) && NoAlias(s) && (leaf.Option? ==> leaf.Name() != "")
    ensures Records(s, MatchLeaf(leaf, s), Match(Leaf(leaf), View(s.left, s.heap)), {leaf})
  {
    var i := SingleMatch(leaf, s.left, s.heap);
    SamePick(leaf, s);
    if i == |s.left| {
      RecordsNothing(s, {leaf});
    } else {
      TakeRecords(leaf, s, i);
      TakeReaches(leaf, s, i);
      OneTake(NamesOf(s.coll, s.heap), Take(leaf, View(s.left, s.heap)[i]));
    }
  }

  lemma LeafReaches(leaf: LeafDef, s: State, i: nat, m: int, heap: seq<LeafDef>, coll': seq<int>, heap': seq<LeafDef>)
    requires Sane(s) && NoAlias(s) && i < |s.left| && |s.heap| <= |heap| == |heap'| && s.heap == heap[..|s.heap|]
    requires m == |s.heap| || (m == s.left[i] && leaf.Option? && s.heap[m].Name() == leaf.Name())
    requires coll' == s.coll || coll' == s.coll + [m]
    requires forall h :: 0 <= h < |heap| && h != m && h !in s.coll ==> heap'[h] == heap[h]
    ensures var s' := State(Remove(s.left, i), coll', heap'); Reaches(s, s', {leaf}) && NoAlias(s')
  {
    RemoveNoRepeat(s.left, i);
    assert s.left[i] in s.left;
    assert leaf in {leaf};
    assert forall x <- s.left :: x < |s.heap|;
    assert forall x <- s.coll :: x < |s.heap|;
  }

  // ---------- All patterns ----------

  lemma {:induction false} MatchRecords(p: Pattern<LeafDef>, s: State)
    requires WellFormed(p) && NamedOptions(p) && Proper(s) && NoAlias(s)
    ensures Records(s, MatchS(p, s), Match(p, View(s.left, s.heap)), Leaves(p))
    decreases p, |s.left|, 0
  {
    MatchRefines(p, s);
    match p
    case Leaf(leaf) => LeafRecords(leaf, s);
    case Required(ps) =>
      MatchAllRecords(ps, s);
      ReachesRestored(s, MatchAllS(ps, s).st, LeavesAll(ps));
    case Optional(ps) => MatchEachRecords(ps, s);
    case OptionsShortcut(ps) => MatchEachRecords(ps, s);
    case OneOrMore(ps) =>
      MatchLoopRecords(ps, s, true, []);
      ReachesRestored(s, MatchLoopS(ps[0], s, true, []).st, LeavesAll(ps));
    case Either(ps) => EitherRecords(ps, s);
  }

  lemma SameOutcomes(ps: seq<Pattern<LeafDef>>, s: State)
    requires WellFormedAll(ps) && NamedOptionsAll(ps) && Proper(s)
    ensures var outs, os := MatchOutcomesS(ps, s).0, MatchOutcomes(ps, View(s.left, s.heap));
            |outs| == |os| && SizesS(outs) == Sizes(os)
  {
    MatchOutcomesRefine(ps, s);
    SameChoice(MatchOutcomesS(ps, s), MatchOutcomes(ps, View(s.left, s.heap)));
  }

  /** The choice among the outcomes, with sharing and without. */
  lemma EitherIs(ps: seq<Pattern<LeafDef>>, s: State)
    requires WellFormedAll(ps) && NamedOptionsAll(ps) && Proper(s)
    ensures var (outs, heap) := MatchOutcomesS(ps, s);
            var (r, o) := (MatchS(Either(ps), s), Match(Either(ps), View(s.left, s.heap)));
            if outs == [] then r == Result(false, s.(heap := heap))
            else
              var k := FirstMin(SizesS(outs));
              && r == Result(true, State(outs[k].0, outs[k].1, heap))
              && k < |MatchOutcomes(ps, View(s.left, s.heap))| && o == MatchOutcomes(ps, View(s.left, s.heap))[k]
  {
    SameOutcomes(ps, s);
  }

  lemma {:induction false} EitherRecords(ps: seq<Pattern<LeafDef>>, s: State)
    requires WellFormedAll(ps) && NamedOptionsAll(ps) && Proper(s) && NoAlias(s)
    ensures Records(s, MatchS(Either(ps), s), Match(Either(ps), View(s.left, s.heap)), LeavesAll(ps))
    decreases ps, |s.left|, 1
  {
    EitherIs(ps, s);
    MatchOutcomesRecord(ps, s);
  }

  lemma {:induction false} MatchAllRecords(ps: seq<Pattern<LeafDef>>, s: State)
    requires WellFormedAll(ps) && NamedOptionsAll(ps) && Proper(s) && NoAlias(s)
    ensures Records(s, MatchAllS(ps, s), MatchAll(ps, View(s.left, s.heap)), LeavesAll(ps))
    decreases ps, |s.left|, 0
  {
    if ps == [] {
      RecordsNothing(s, {});
    } else {
      var m := MatchS(ps[0], s);
      MatchRefines(ps[0], s);
      StepFacts(ps[0], s);
      MatchRecords(ps[0], s);
      if m.ok {
        MatchAllRecords(ps[1..], m.st);
        MatchAllRefines(ps[1..], m.st);
        var r := MatchAllS(ps[1..], m.st);
        ReachesThen(s, m.st, r.st, Leaves(ps[0]), LeavesAll(ps[1..]));
        if r.ok {
          ExtendsThen(s, m.st, r.st, Match(ps[0], View(s.left, s.heap)).log,
                      MatchAll(ps[1..], View(m.st.left, m.st.heap)).log);
        }
      } else {
        ReachesMore(s, m.st, Leaves(ps[0]), LeavesAll(ps));
      }
    }
  }

  lemma ReachesMore(s: State, s': State, a: set<LeafDef>, b: set<LeafDef>)
    requires Sane(s) && Reaches(s, s', a) && a <= b
    ensures Reaches(s, s', b)
  {
    forall c <- s'.coll ensures c in s.coll || c >= |s.heap| || (c in s.left && OptionNamed(s.heap[c].Name(), b)) {
      if c in s.left && c < |s.heap| {
        InLeft(s, c);
        OptionNamedIn(s.heap[c].Name(), a, b);
      }
    }
  }

  lemma {:induction false} MatchEachRecords(ps: seq<Pattern<LeafDef>>, s: State)
    requires WellFormedAll(ps) && NamedOptionsAll(ps) && Proper(s) && NoAlias(s)
    ensures Records(s, Result(true, MatchEachS(ps, s)), MatchEach(ps, View(s.left, s.heap)), LeavesAll(ps))
    decreases ps, |s.left|, 0
  {
    if ps == [] {
      RecordsNothing(s, {});
    } else {
      var m, o := MatchS(ps[0], s), Match(ps[0], View(s.left, s.heap));
      MatchRefines(ps[0], s);
      StepFacts(ps[0], s);
      MatchRecords(ps[0], s);
      StepExtends(s, m, o, Leaves(ps[0]));
      MatchEachRecords(ps[1..], m.st);
      var r, n := MatchEachS(ps[1..], m.st), MatchEach(ps[1..], View(m.st.left, m.st.heap));
      ReachesThen(s, m.st, r, Leaves(ps[0]), LeavesAll(ps[1..]));
      ExtendsThen(s, m.st, r, o.log, n.log);
    }
  }

  /** A failed match restores the lists, so it enters nothing, like its empty log. */
  lemma StepExtends(s: State, m: Result, o: Outcome, leaves: set<LeafDef>)
    requires Proper(s) && NoAlias(s) && Sane(m.st) && Records(s, m, o, leaves) && Refines(s, m, o)
    requires !m.ok ==> m.st.left == s.left && m.st.coll == s.coll && o.log == [] && o.left == View(s.left, s.heap)
    ensures Extends(s, m.st, o.log) && View(m.st.left, m.st.heap) == o.left
  {
    if !m.ok {
      NamesKept(s.coll, s.coll, s.heap, m.st.heap);
      ViewStable(s, m.st.heap, s.left);
    }
  }

  lemma {:induction false} MatchLoopRecords(ps: seq<Pattern<LeafDef>>, s: State, first: bool, prev: seq<int>)
    requires WellFormed(OneOrMore(ps)) && NamedOptionsAll(ps) && Proper(s) && NoAlias(s) && (first || prev == s.left)
    ensures Records(s, MatchLoopS(ps[0], s, first, prev), MatchMore(ps[0], View(s.left, s.heap)), LeavesAll(ps))
    decreases ps, |s.left|, if first then 2 else 1
  {
    var toks := View(s.left, s.heap);
    var m, o := MatchS(ps[0], s), Match(ps[0], toks);
    assert Leaves(ps[0]) <= LeavesAll(ps);
    MatchRefines(ps[0], s);
    StepFacts(ps[0], s);
    MatchRecords(ps[0], s);
    StepExtends(s, m, o, Leaves(ps[0]));
    ReachesMore(s, m.st, Leaves(ps[0]), LeavesAll(ps));
    if m.ok && (first || m.st.left != prev) {
      MatchLoopRecords(ps, m.st, false, m.st.left);
      var r, n := MatchLoopS(ps[0], m.st, false, m.st.left), MatchMore(ps[0], View(m.st.left, m.st.heap));
      MatchMoreAgain(ps[0], toks);
      ReachesThen(s, m.st, r.st, LeavesAll(ps), LeavesAll(ps));
      ExtendsThen(s, m.st, r.st, o.log, n.log);
    }
  }

  ghost predicate OutcomesRecord(
    s: State, r: (seq<(seq<int>, seq<int>)>, seq<LeafDef>), outs: seq<Outcome>, leaves: set<LeafDef>)
    requires Sane(s)
  {
    && Reaches(s, s.(heap := r.1), leaves)
    && |r.0| == |outs|
    && forall k :: 0 <= k < |outs| ==>
      var s' := State(r.0[k].0, r.0[k].1, r.1);
      Sane(s') && Reaches(s, s', leaves) && Extends(s, s', outs[k].log)
  }

  lemma {:induction false} MatchOutcomesRecord(ps: seq<Pattern<LeafDef>>, s: State)
    requires WellFormedAll(ps) && NamedOptionsAll(ps) && Proper(s) && NoAlias(s)
    ensures OutcomesRecord(s, MatchOutcomesS(ps, s), MatchOutcomes(ps, View(s.left, s.heap)), LeavesAll(ps))
    decreases ps, |s.left|, 0
  {
    if ps == [] {
      RecordsNothing(s, {});
    } else {
      var toks := View(s.left, s.heap);
      var m := MatchS(ps[0], s);
      var s' := s.(heap := m.st.heap);
      MatchRefines(ps[0], s);
      RefinesThen(s, Result(true, s'), s');
      ViewStable(s, m.st.heap, s.left);
      MatchRecords(ps[0], s);
      ReachesRestored(s, m.st, Leaves(ps[0]));
      MatchOutcomesRefine(ps[1..], s');
      MatchOutcomesRecord(ps[1..], s');
      OutcomesRecordThen(s, m, Match(ps[0], toks), MatchOutcomesS(ps[1..], s'), MatchOutcomes(ps[1..], toks),
                         Leaves(ps[0]), LeavesAll(ps[1..]));
    }
  }

  lemma OutcomesRecordThen(
    s: State, m: Result, o: Outcome, rest: (seq<(seq<int>, seq<int>)>, seq<LeafDef>), outs: seq<Outcome>,
    a: set<LeafDef>, b: set<LeafDef>)
    requires Proper(s) && Sane(m.st) && Records(s, m, o, a) && Refines(s, m, o)
    requires var s' := s.(heap := m.st.heap);
             Sane(s') && Evolves(s, s') && OutcomesRecord(s', rest, outs, b) && OutcomesRefine(s', rest, outs)
    ensures OutcomesRecord(s, ((if m.ok then [(m.st.left, m.st.coll)] else []) + rest.0, rest.1),
                           (if m.ok then [o] else []) + outs, a + b)
  {
    var s' := s.(heap := m.st.heap);
    ReachesRestored(s, m.st, a);
    ReachesThen(s, s', s'.(heap := rest.1), a, b);
    NamesKept(s.coll, s.coll, s.heap, s'.heap);
    forall k | 0 <= k < |outs|
      ensures var t := State(rest.0[k].0, rest.0[k].1, rest.1);
              Sane(t) && Reaches(s, t, a + b) && Extends(s, t, outs[k].log)
    {
      ReachesThen(s, s', State(rest.0[k].0, rest.0[k].1, rest.1), a, b);
    }
    if m.ok { FirstOutcome(s, m, o, rest.1, a, b); }
  }

  /** The lists of a branch under the heap that the later branches leave. */
  lemma FirstOutcome(s: State, m: Result, o: Outcome, heap: seq<LeafDef>, a: set<LeafDef>, b: set<LeafDef>)
    requires Proper(s) && Sane(m.st) && Records(s, m, o, a) && m.ok
    requires var s' := s.(heap := m.st.heap);
             Sane(s') && HeapEvolves(s.coll, m.st.heap, heap) && Reaches(s', s'.(heap := heap), b)
    ensures var t := m.st.(heap := heap); Sane(t) && Reaches(s, t, a + b) && Extends(s, t, o.log)
  {
    NamesKept(m.st.coll, s.coll, m.st.heap, heap);
    ReachesMore(s, m.st, a, a + b);
  }
}
