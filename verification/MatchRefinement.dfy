/**
 Verdict and leftovers of the matcher with shared leaves are those of the token-level matcher,
 whatever `collected` holds and whatever is written into the leaves on the way.
 */
module MatchRefinement {
  import opened Sequences
  import opened Patterns
  import opened Matching
  import opened MatchStore
  import MatchLanguage

  /** `parse_argv` makes positionals without a name, and options. */
  predicate IsArgv(d: LeafDef) {
    (d.Argument? && d.argName == "") || d.Option?
  }

  /** No positional still to be matched has been collected: collected positionals are always new leaves. */
  ghost predicate Proper(s: State) {
    && Sane(s)
    && forall k :: 0 <= k < |s.left| ==>
      IsArgv(s.heap[s.left[k]]) && (IsArg(s.heap[s.left[k]]) ==> s.left[k] !in s.coll)
  }

  function TokAt(h: int, heap: seq<LeafDef>): Tok
    requires 0 <= h < |heap|
  {
    if IsArg(heap[h]) then Pos(h, heap[h].GetValue()) else Opt(h, heap[h].Name())
  }

  /** The tokens a list of pointers stands for. */
  function View(left: seq<int>, heap: seq<LeafDef>): (r: seq<Tok>)
    requires InHeap(left, heap)
    ensures |r| == |left| && forall k :: 0 <= k < |r| ==> r[k] == TokAt(left[k], heap)
  {
    seq(|left|, k requires 0 <= k < |left| && 0 <= left[k] < |heap| => TokAt(left[k], heap))
  }

  // ---------- What a match may change ----------

  ghost predicate SameLeaf(d: LeafDef, d': LeafDef) {
    d' == d.SetValue(d'.GetValue())
  }

  /** Leaves keep their class and names; a positional outside `coll` keeps its value too. */
  ghost predicate HeapEvolves(coll: seq<int>, heap: seq<LeafDef>, heap': seq<LeafDef>) {
    && |heap| <= |heap'|
    && forall h :: 0 <= h < |heap| ==>
         SameLeaf(heap[h], heap'[h]) && (IsArg(heap[h]) && h !in coll ==> heap'[h] == heap[h])
  }

  /** Nothing enters `left`; only new leaves and options enter `coll`. */
  ghost predicate ListsEvolve(s: State, left: seq<int>, coll: seq<int>) {
    && (forall x <- left :: x in s.left)
    && forall c <- coll :: c in s.coll || c >= |s.heap| || (0 <= c < |s.heap| && !IsArg(s.heap[c]))
  }

  ghost predicate Evolves(s: State, s': State) {
    HeapEvolves(s.coll, s.heap, s'.heap) && ListsEvolve(s, s'.left, s'.coll)
  }

  lemma EvolvesTrans(s: State, s': State, s'': State)
    requires Proper(s) && Evolves(s, s') && Evolves(s', s'')
    ensures Evolves(s, s'')
  {
    forall h | 0 <= h < |s.heap|
      ensures SameLeaf(s.heap[h], s''.heap[h]) && (IsArg(s.heap[h]) && h !in s.coll ==> s''.heap[h] == s.heap[h])
    {
      assert SameLeaf(s.heap[h], s'.heap[h]) && SameLeaf(s'.heap[h], s''.heap[h]);
    }
    forall c | c in s''.coll
      ensures c in s.coll || c >= |s.heap| || (0 <= c < |s.heap| && !IsArg(s.heap[c]))
    {
      if 0 <= c < |s.heap| { assert SameLeaf(s.heap[c], s'.heap[c]); }
    }
  }

  lemma EvolvesProper(s: State, s': State)
    requires Proper(s) && Sane(s') && Evolves(s, s')
    ensures Proper(s')
  {
    forall k | 0 <= k < |s'.left|
      ensures IsArgv(s'.heap[s'.left[k]]) && (IsArg(s'.heap[s'.left[k]]) ==> s'.left[k] !in s'.coll)
    {
      var x := s'.left[k];
      assert x in s'.left;
      var i :| 0 <= i < |s.left| && s.left[i] == x;
      assert SameLeaf(s.heap[x], s'.heap[x]);
    }
  }

  /** Lists drawn from `left` look the same before and after. */
  lemma ViewStable(s: State, heap': seq<LeafDef>, left: seq<int>)
    requires Proper(s) && HeapEvolves(s.coll, s.heap, heap') && forall x <- left :: x in s.left
    ensures InHeap(left, s.heap) && InHeap(left, heap') && View(left, heap') == View(left, s.heap)
  {
    forall k | 0 <= k < |left| ensures 0 <= left[k] < |s.heap| && TokAt(left[k], heap') == TokAt(left[k], s.heap) {
      var x := left[k];
      assert x in left;
      var i :| 0 <= i < |s.left| && s.left[i] == x;
      assert SameLeaf(s.heap[x], heap'[x]);
    }
  }

  // ---------- Leaves ----------

  lemma {:induction false} SameFirstArg(left: seq<int>, heap: seq<LeafDef>)
    requires InHeap(left, heap)
    ensures FirstArg(left, heap) == FirstPos(View(left, heap))
  {
    if left != [] {
      SameFirstArg(left[1..], heap);
      assert View(left, heap)[1..] == View(left[1..], heap);
    }
  }

  lemma {:induction false} SameFirstNamed(left: seq<int>, heap: seq<LeafDef>, name: string)
    requires InHeap(left, heap) && forall k :: 0 <= k < |left| ==> IsArgv(heap[left[k]])
    ensures FirstWithName(left, heap, name) == FirstNamed(View(left, heap), name)
  {
    if left != [] {
      SameFirstNamed(left[1..], heap, name);
      assert View(left, heap)[1..] == View(left[1..], heap);
    }
  }

  lemma SamePick(leaf: LeafDef, s: State)
    requires Proper(s)
    ensures SingleMatch(leaf, s.left, s.heap) == Pick(leaf, View(s.left, s.heap))
  {
    SameFirstArg(s.left, s.heap);
    SameFirstNamed(s.left, s.heap, leaf.Name());
    var i := FirstArg(s.left, s.heap);
    if i < |s.left| { assert View(s.left, s.heap)[i] == TokAt(s.left[i], s.heap); }
  }

  /** Writing a collected leaf, a new one or an option is harmless. */
  lemma WriteEvolves(coll: seq<int>, heap: seq<LeafDef>, heap': seq<LeafDef>, h: int, v: Value)
    requires |heap| <= |heap'| && heap == heap'[..|heap|] && 0 <= h < |heap'|
    requires h in coll || h >= |heap| || heap[h].Option?
    ensures HeapEvolves(coll, heap, heap') && HeapEvolves(coll, heap, SetCell(heap', h, v))
  {
    assert forall k :: 0 <= k < |heap| ==> heap'[k] == heap[k];
  }

  lemma RemoveMembers<T>(s: seq<T>, i: nat)
    requires i < |s|
    ensures forall x <- Remove(s, i) :: x in s
  {}

  /** What is reported for a match is a new leaf or an option. */
  lemma ReportedIsNew(leaf: LeafDef, s: State)
    requires Proper(s) && (leaf.Option? ==> leaf.Name() != "") && SingleMatch(leaf, s.left, s.heap) < |s.left|
    ensures var m := Report(leaf, s, SingleMatch(leaf, s.left, s.heap)).0; m >= |s.heap| || s.heap[m].Option?
  {}

  lemma CollectEvolves(leaf: LeafDef, m: int, s: State, heap: seq<LeafDef>)
    requires InHeap(s.coll, s.heap) && |s.heap| <= |heap| && s.heap == heap[..|s.heap|]
    requires 0 <= m < |heap| && (m >= |s.heap| || s.heap[m].Option?)
    ensures var r := Collect(leaf, m, s.coll, heap); HeapEvolves(s.coll, s.heap, r.1) && ListsEvolve(s, [], r.0)
  {
    var j := FirstWithName(s.coll, heap, leaf.Name());
    if j < |s.coll| {
      WriteEvolves(s.coll, s.heap, heap, s.coll[j], NextValue(leaf, heap[m], heap[s.coll[j]].GetValue()));
    } else {
      WriteEvolves(s.coll, s.heap, heap, m, FirstValue(leaf, heap[m]));
    }
  }

  lemma LeafEvolves(leaf: LeafDef, s: State)
    requires Proper(s) && (leaf.Option? ==> leaf.Name() != "")
    ensures Evolves(s, MatchLeaf(leaf, s).st)
  {
    var i := SingleMatch(leaf, s.left, s.heap);
    if i < |s.left| {
      ReportedIsNew(leaf, s);
      var (m, heap) := Report(leaf, s, i);
      CollectEvolves(leaf, m, s, heap);
      RemoveMembers(s.left, i);
    }
  }

  lemma ViewRemove(left: seq<int>, heap: seq<LeafDef>, i: nat)
    requires InHeap(left, heap) && i < |left|
    ensures InHeap(Remove(left, i), heap) && View(Remove(left, i), heap) == Remove(View(left, heap), i)
  {}

  lemma LeafRefines(leaf: LeafDef, s: State)
    requires Proper(s) && (leaf.Option? ==> leaf.Name() != "")
    ensures Refines(s, MatchLeaf(leaf, s), Match(Leaf(leaf), View(s.left, s.heap)))
  {
    var i, r := SingleMatch(leaf, s.left, s.heap), MatchLeaf(leaf, s);
    LeafEvolves(leaf, s);
    SamePick(leaf, s);
    ViewStable(s, r.st.heap, r.st.left);
    if i < |s.left| { ViewRemove(s.left, s.heap, i); }
  }

  // ---------- All patterns ----------

  ghost predicate Refines(s: State, r: Result, o: Outcome)
    requires Sane(s) && Sane(r.st)
  {
    && Evolves(s, r.st)
    && r.ok == o.ok
    && (r.ok ==> View(r.st.left, r.st.heap) == o.left)
  }

  lemma RefinesThen(s: State, m: Result, s': State)
    requires Proper(s) && Sane(m.st) && Sane(s') && Evolves(s, m.st)
    ensures Proper(m.st)
    ensures Evolves(m.st, s') ==> Evolves(s, s')
  {
    EvolvesProper(s, m.st);
    if Evolves(m.st, s') { EvolvesTrans(s, m.st, s'); }
  }

  /** The matcher with shared leaves refines the token-level matcher. */
  lemma {:induction false} MatchRefines(p: Pattern<LeafDef>, s: State)
    requires WellFormed(p) && NamedOptions(p) && Proper(s)
    ensures Refines(s, MatchS(p, s), Match(p, View(s.left, s.heap)))
    decreases p, |s.left|, 0
  {
    match p
    case Leaf(leaf) => LeafRefines(leaf, s);
    case Required(ps) => MatchAllRefines(ps, s);
    case Optional(ps) => MatchEachRefines(ps, s);
    case OptionsShortcut(ps) => MatchEachRefines(ps, s);
    case OneOrMore(ps) => MatchLoopRefines(ps[0], s, true, []);
    case Either(ps) =>
      MatchOutcomesRefine(ps, s);
      SameChoice(MatchOutcomesS(ps, s), MatchOutcomes(ps, View(s.left, s.heap)));
  }

  lemma {:induction false} MatchAllRefines(ps: seq<Pattern<LeafDef>>, s: State)
    requires WellFormedAll(ps) && NamedOptionsAll(ps) && Proper(s)
    ensures Refines(s, MatchAllS(ps, s), MatchAll(ps, View(s.left, s.heap)))
    decreases ps, |s.left|, 0
  {
    if ps != [] {
      var m := MatchS(ps[0], s);
      MatchRefines(ps[0], s);
      RefinesThen(s, m, MatchAllS(ps, s).st);
      if m.ok { MatchAllRefines(ps[1..], m.st); }
    }
  }

  lemma {:induction false} MatchEachRefines(ps: seq<Pattern<LeafDef>>, s: State)
    requires WellFormedAll(ps) && NamedOptionsAll(ps) && Proper(s)
    ensures Refines(s, Result(true, MatchEachS(ps, s)), MatchEach(ps, View(s.left, s.heap)))
    decreases ps, |s.left|, 0
  {
    if ps != [] {
      var m := MatchS(ps[0], s);
      MatchRefines(ps[0], s);
      RefinesThen(s, m, MatchEachS(ps, s));
      ViewStable(s, m.st.heap, s.left);
      MatchEachRefines(ps[1..], m.st);
    }
  }

  lemma {:induction false} MatchLoopRefines(p: Pattern<LeafDef>, s: State, first: bool, prev: seq<int>)
    requires WellFormed(p) && NamedOptions(p) && Proper(s) && (first || prev == s.left)
    ensures var r, toks := MatchLoopS(p, s, first, prev), View(s.left, s.heap);
            && Evolves(s, r.st)
            && (r.ok <==> !first || Match(p, toks).ok)
            && (r.ok ==> View(r.st.left, r.st.heap) == MatchMore(p, toks).left)
    decreases p, |s.left|, if first then 2 else 1
  {
    var m, o := MatchS(p, s), Match(p, View(s.left, s.heap));
    MatchRefines(p, s);
    ViewStable(s, m.st.heap, s.left);
    RefinesThen(s, m, MatchLoopS(p, s, first, prev).st);
    if !((!first && m.st.left == prev) || !m.ok) {
      MatchLoopRefines(p, m.st, false, m.st.left);
    }
  }

  lemma {:induction false} MatchOutcomesRefine(ps: seq<Pattern<LeafDef>>, s: State)
    requires WellFormedAll(ps) && NamedOptionsAll(ps) && Proper(s)
    ensures OutcomesRefine(s, MatchOutcomesS(ps, s), MatchOutcomes(ps, View(s.left, s.heap)))
    decreases ps, |s.left|, 0
  {
    if ps != [] {
      var toks := View(s.left, s.heap);
      var m := MatchS(ps[0], s);
      MatchRefines(ps[0], s);
      var s' := s.(heap := m.st.heap);
      RefinesThen(s, Result(true, s'), s');
      ViewStable(s, m.st.heap, s.left);
      MatchOutcomesRefine(ps[1..], s');
      var (outs, heap) := MatchOutcomesS(ps[1..], s');
      OutcomesThen(s, m, Match(ps[0], toks), (outs, heap), MatchOutcomes(ps[1..], toks));
    }
  }

  ghost predicate OutcomesRefine(s: State, r: (seq<(seq<int>, seq<int>)>, seq<LeafDef>), outs: seq<Outcome>)
    requires Sane(s)
  {
    && HeapEvolves(s.coll, s.heap, r.1)
    && |r.0| == |outs|
    && forall k :: 0 <= k < |outs| ==>
      && InHeap(r.0[k].0, r.1) && ListsEvolve(s, r.0[k].0, r.0[k].1) && View(r.0[k].0, r.1) == outs[k].left
  }

  lemma OutcomesThen(
    s: State, m: Result, o: Outcome, rest: (seq<(seq<int>, seq<int>)>, seq<LeafDef>), outs: seq<Outcome>)
    requires Proper(s) && Sane(m.st) && Refines(s, m, o)
    requires OutcomesRefine(s.(heap := m.st.heap), rest, outs)
    ensures OutcomesRefine(s, ((if m.ok then [(m.st.left, m.st.coll)] else []) + rest.0, rest.1),
                           (if m.ok then [o] else []) + outs)
  {
    var s' := s.(heap := m.st.heap);
    EvolvesProper(s, s');
    EvolvesTrans(s, s', s'.(heap := rest.1));
    ViewStable(s', rest.1, m.st.left);
    forall k | 0 <= k < |rest.0| ensures ListsEvolve(s, rest.0[k].0, rest.0[k].1) {
      assert ListsEvolve(s', rest.0[k].0, rest.0[k].1);
      EvolvesTrans(s, s', State(rest.0[k].0, rest.0[k].1, rest.1));
    }
  }

  lemma SameChoice(r: (seq<(seq<int>, seq<int>)>, seq<LeafDef>), outs: seq<Outcome>)
    requires |r.0| == |outs| && forall k :: 0 <= k < |outs| ==> |r.0[k].0| == |outs[k].left|
    ensures SizesS(r.0) == Sizes(outs)
  {}

  // ---------- What follows for the matcher with shared leaves ----------

  /** Two argv lists that agree on every channel get the same verdict and leftovers, whatever is collected. */
  lemma MatchSSeesChannels(p: Pattern<LeafDef>, s: State, s': State)
    requires WellFormed(p) && NamedOptions(p) && Proper(s) && Proper(s')
    requires SameChannels(View(s.left, s.heap), View(s'.left, s'.heap))
    ensures var r, r' := MatchS(p, s), MatchS(p, s');
            && r.ok == r'.ok
            && SameChannels(View(r.st.left, r.st.heap), View(r'.st.left, r'.st.heap))
  {
    MatchRefines(p, s);
    MatchRefines(p, s');
    MatchSeesChannels(p, View(s.left, s.heap), View(s'.left, s'.heap));
    ViewStable(s, MatchS(p, s).st.heap, s.left);
    ViewStable(s', MatchS(p, s').st.heap, s'.left);
  }

  /** A failed match leaves `left` as it was, a successful one leaves a subsequence of it. */
  lemma MatchSLeavesSubsequence(p: Pattern<LeafDef>, s: State)
    requires WellFormed(p) && NamedOptions(p) && Proper(s)
    ensures var r := MatchS(p, s);
            && Subsequence(r.st.left, s.left)
            && (!r.ok ==> r.st.left == s.left && r.st.coll == s.coll)
  {
    var toks, r := View(s.left, s.heap), MatchS(p, s);
    MatchRefines(p, s);
    MatchConserves(p, toks);
    SubsequenceRefl(s.left);
    if r.ok { SubsequenceIds(r.st.left, r.st.heap, s.left, s.heap); }
  }

  /** After a repetition has matched, one more match of its child fails or takes nothing. */
  lemma RepetitionIsMaximal(ps: seq<Pattern<LeafDef>>, s: State)
    requires WellFormed(OneOrMore(ps)) && NamedOptionsAll(ps) && Proper(s) && MatchS(OneOrMore(ps), s).ok
    ensures var st := MatchS(OneOrMore(ps), s).st;
            var again := MatchS(ps[0], st);
            !again.ok || again.st.left == st.left
  {
    var st, toks := MatchS(OneOrMore(ps), s).st, View(s.left, s.heap);
    MatchRefines(OneOrMore(ps), s);
    EvolvesProper(s, st);
    MatchRefines(ps[0], st);
    MatchLanguage.OneOrMoreIsMaximal(ps[0], toks);
    var again := MatchS(ps[0], st);
    if again.ok { assert |View(again.st.left, again.st.heap)| == |View(st.left, st.heap)|; }
  }

  lemma {:induction false} SubsequenceIds(a: seq<int>, ha: seq<LeafDef>, b: seq<int>, hb: seq<LeafDef>)
    requires InHeap(a, ha) && InHeap(b, hb) && Subsequence(View(a, ha), View(b, hb))
    ensures Subsequence(a, b)
    decreases |b|
  {
    if a != [] {
      assert View(b, hb)[1..] == View(b[1..], hb) && View(a, ha)[1..] == View(a[1..], ha);
      if View(a, ha)[0] == View(b, hb)[0] {
        SubsequenceIds(a[1..], ha, b[1..], hb);
      } else {
        SubsequenceIds(a, ha, b[1..], hb);
        SubsequenceCons(a, b[0], b[1..]);
        assert [b[0]] + b[1..] == b;
      }
    }
  }
}
