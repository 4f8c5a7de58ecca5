/**
 Every take of a leaf that repeats, kept or given up. Values are written into leaves that copies of the lists share, so
 a branch that is given up leaves its traces. The attempts of a leaf are what it takes on the way, told from the tokens
 alone; what its entry holds in the end is proved to be what the attempts write, for every pattern.
 */
module MatchAttempts {
  import opened Sequences
  import opened Patterns
  import opened Matching
  import opened MatchStore
  import opened MatchRefinement
  import opened MatchAccumulate
  import opened MatchEntries
  import opened MatchTotals

  /** A leaf taking a token; `first` if its name has no entry yet. */
  datatype Attempt = Attempt(tok: Tok, first: bool)

  /** Traces of a branch that is given up show in a leaf of argv, or in an entry that was there before. */
  predicate Shows(leaf: LeafDef, entered: bool) {
    leaf.Option? || entered
  }

  function Attempts(p: Pattern<LeafDef>, toks: seq<Tok>, leaf: LeafDef, entered: bool): seq<Attempt>
    requires WellFormed(p)
    decreases p, |toks|, 0
  {
    match p
    case Leaf(d) =>
      var i := Pick(d, toks);
      if d == leaf && i < |toks| then [Attempt(toks[i], !entered)] else []
    case Required(ps) =>
      if Shows(leaf, entered) || MatchAll(ps, toks).ok then AttemptsAll(ps, toks, leaf, entered) else []
    case Optional(ps) => AttemptsEach(ps, toks, leaf, entered)
    case OptionsShortcut(ps) => AttemptsEach(ps, toks, leaf, entered)
    case OneOrMore(ps) => AttemptsMore(ps[0], toks, leaf, entered, true)
    case Either(ps) =>
      if Shows(leaf, entered) then AttemptsSome(ps, toks, leaf, entered)
      else ChosenAttempts(MatchOutcomes(ps, toks), OutcomeAttempts(ps, toks, leaf, entered))
  }

  function AttemptsAll(ps: seq<Pattern<LeafDef>>, toks: seq<Tok>, leaf: LeafDef, entered: bool): seq<Attempt>
    requires WellFormedAll(ps)
    decreases ps, |toks|, 0
  {
    if ps == [] then [] else
    var m := Match(ps[0], toks);
    Attempts(ps[0], toks, leaf, entered) +
    if m.ok then AttemptsAll(ps[1..], m.left, leaf, entered || Takes(m.log, leaf) > 0) else []
  }

  function AttemptsEach(ps: seq<Pattern<LeafDef>>, toks: seq<Tok>, leaf: LeafDef, entered: bool): seq<Attempt>
    requires WellFormedAll(ps)
    decreases ps, |toks|, 0
  {
    if ps == [] then [] else
    var m := Match(ps[0], toks);
    Attempts(ps[0], toks, leaf, entered) + AttemptsEach(ps[1..], m.left, leaf, entered || Takes(m.log, leaf) > 0)
  }

  /** Every round of a repetition, with the last one, which fails or takes nothing. */
  function AttemptsMore(p: Pattern<LeafDef>, toks: seq<Tok>, leaf: LeafDef, entered: bool, first: bool): seq<Attempt>
    requires WellFormed(p)
    decreases p, |toks|, if first then 2 else 1
  {
    var m := Match(p, toks);
    Attempts(p, toks, leaf, entered) +
    if m.ok && (first || m.log != [])
    then AttemptsMore(p, m.left, leaf, entered || Takes(m.log, leaf) > 0, false) else []
  }

  /** All alternatives, each from the start. */
  function AttemptsSome(ps: seq<Pattern<LeafDef>>, toks: seq<Tok>, leaf: LeafDef, entered: bool): seq<Attempt>
    requires WellFormedAll(ps)
    decreases ps, |toks|, 0
  {
    if ps == [] then [] else Attempts(ps[0], toks, leaf, entered) + AttemptsSome(ps[1..], toks, leaf, entered)
  }

  /** The attempts of each alternative that matches. */
  function OutcomeAttempts(
    ps: seq<Pattern<LeafDef>>, toks: seq<Tok>, leaf: LeafDef, entered: bool): (r: seq<seq<Attempt>>)
    requires WellFormedAll(ps)
    ensures |r| == |MatchOutcomes(ps, toks)|
    decreases ps, |toks|, 0
  {
    if ps == [] then [] else
    OwnAttempts(Match(ps[0], toks), Attempts(ps[0], toks, leaf, entered)) +
    OutcomeAttempts(ps[1..], toks, leaf, entered)
  }

  function OwnAttempts(o: Outcome, tried: seq<Attempt>): seq<seq<Attempt>> {
    if o.ok then [tried] else []
  }

  function ChosenAttempts(outs: seq<Outcome>, tried: seq<seq<Attempt>>): seq<Attempt>
    requires |tried| == |outs|
  {
    if outs == [] then [] else tried[FirstMin(Sizes(outs))]
  }

  // ---------- What attempts write ----------

  ghost predicate AttemptIdsIn(tried: seq<Attempt>, heap: seq<LeafDef>) {
    forall k :: 0 <= k < |tried| ==> tried[k].tok.id < |heap|
  }

  /**
   The value after an attempt. The first one starts a counter at one. It starts a list with the words of its own leaf,
   which for an option is the leaf in argv that holds `v`.
   */
  function Wrote(v: Value, a: Attempt, leaf: LeafDef, heap: seq<LeafDef>): Value
    requires a.tok.id < |heap|
  {
    var m := Reported(leaf, heap[a.tok.id]);
    if !a.first then NextValue(leaf, m, v) else FirstValue(leaf, if leaf.Option? then m.SetValue(v) else m)
  }

  function After(v: Value, tried: seq<Attempt>, leaf: LeafDef, heap: seq<LeafDef>): Value
    requires AttemptIdsIn(tried, heap)
    decreases |tried|
  {
    if tried == [] then v else After(Wrote(v, tried[0], leaf, heap), tried[1..], leaf, heap)
  }

  lemma {:induction false} AfterConcat(v: Value, a: seq<Attempt>, b: seq<Attempt>, leaf: LeafDef, heap: seq<LeafDef>)
    requires AttemptIdsIn(a, heap) && AttemptIdsIn(b, heap)
    ensures AttemptIdsIn(a + b, heap) && After(v, a + b, leaf, heap) == After(After(v, a, leaf, heap), b, leaf, heap)
    decreases |a|
  {
    if a == [] {
      assert a + b == b;
    } else {
      ConcatTail(a, b);
      AfterConcat(Wrote(v, a[0], leaf, heap), a[1..], b, leaf, heap);
    }
  }

  lemma AfterOne(v: Value, a: Attempt, leaf: LeafDef, heap: seq<LeafDef>)
    requires a.tok.id < |heap|
    ensures AttemptIdsIn([a], heap) && After(v, [a], leaf, heap) == Wrote(v, a, leaf, heap)
  {
    assert [a][1..] == [];
  }

  // ---------- The leaf that is written ----------

  ghost predicate Entered(s: State, leaf: LeafDef)
    requires InHeap(s.coll, s.heap)
  {
    FirstWithName(s.coll, s.heap, leaf.Name()) < |s.coll|
  }

  /** The entry of the name. Without one, for an option, the first token of the name; else -1. */
  function Cell(s: State, leaf: LeafDef): int
    requires Sane(s)
  {
    var j := FirstWithName(s.coll, s.heap, leaf.Name());
    if j < |s.coll| then s.coll[j] else
    var c := Proj(View(s.left, s.heap), LeafChannel(leaf));
    if leaf.Option? && c != [] then c[0].id else -1
  }

  function CellValue(s: State, leaf: LeafDef): Value
    requires Sane(s)
  {
    if 0 <= Cell(s, leaf) < |s.heap| then s.heap[Cell(s, leaf)].GetValue() else Empty
  }

  /** No leaf of the name but `c` changes. */
  ghost predicate SameBut(name: string, c: int, heap: seq<LeafDef>, heap': seq<LeafDef>) {
    |heap| <= |heap'| && forall h :: 0 <= h < |heap| && heap[h].Name() == name && h != c ==> heap'[h] == heap[h]
  }

  /** From `s` to `s'` the attempts have been written, into one leaf if they show. */
  ghost predicate Writes(s: State, s': State, tried: seq<Attempt>, leaf: LeafDef, orig: seq<LeafDef>)
    requires Sane(s) && Sane(s')
  {
    && (Shows(leaf, Entered(s, leaf)) ==> Cell(s', leaf) == Cell(s, leaf))
    && AttemptIdsIn(tried, orig) && CellValue(s', leaf) == After(CellValue(s, leaf), tried, leaf, orig)
    && (leaf.Option? ==>
          && SameBut(leaf.Name(), Cell(s, leaf), s.heap, s'.heap)
          && forall a <- tried :: a.first ==> a.tok.id == Cell(s, leaf))
  }

  /** Tokens that `leaf` could still take, other than the one that is written, are as they were in `orig`. */
  ghost predicate Tidy(s: State, orig: seq<LeafDef>, leaf: LeafDef)
    requires Sane(s)
  {
    && |orig| <= |s.heap|
    && forall x <- s.left ::
      && 0 <= x < |orig| && SameLeaf(orig[x], s.heap[x])
      && (Relevant(orig[x], leaf) && x != Cell(s, leaf) ==> s.heap[x] == orig[x])
  }

  ghost predicate Starts(s: State, orig: seq<LeafDef>, leaf: LeafDef) {
    Proper(s) && NoAlias(s) && Tidy(s, orig, leaf)
  }

  lemma WritesNothing(s: State, leaf: LeafDef, orig: seq<LeafDef>)
    requires Sane(s)
    ensures Writes(s, s, [], leaf, orig)
  {}

  lemma WritesThen(s: State, s1: State, s2: State, a: seq<Attempt>, b: seq<Attempt>, leaf: LeafDef, orig: seq<LeafDef>)
    requires Sane(s) && Sane(s1) && Sane(s2) && HeapEvolves(s.coll, s.heap, s1.heap)
    requires Writes(s, s1, a, leaf, orig) && Writes(s1, s2, b, leaf, orig) && (Entered(s, leaf) ==> Entered(s1, leaf))
    ensures Writes(s, s2, a + b, leaf, orig)
  {
    AfterConcat(CellValue(s, leaf), a, b, leaf, orig);
    if leaf.Option? {
      forall h | 0 <= h < |s.heap| && s.heap[h].Name() == leaf.Name() && h != Cell(s, leaf)
        ensures s2.heap[h] == s.heap[h]
      {
        assert SameLeaf(s.heap[h], s1.heap[h]);
      }
    }
  }

  /** The lists look the same under a heap that has evolved, so the same leaf is written. */
  lemma CellStable(s: State, heap': seq<LeafDef>, leaf: LeafDef)
    requires Sane(s) && Sane(s.(heap := heap')) && NamesOf(s.coll, heap') == NamesOf(s.coll, s.heap)
    requires View(s.left, heap') == View(s.left, s.heap)
    ensures Cell(s.(heap := heap'), leaf) == Cell(s, leaf)
    ensures Entered(s.(heap := heap'), leaf) <==> Entered(s, leaf)
  {
    SameFirst(s.coll, s.heap, heap', leaf.Name());
  }

  /** Giving a branch up restores the lists and keeps what it wrote. */
  lemma WritesRestored(s: State, s': State, tried: seq<Attempt>, leaf: LeafDef, orig: seq<LeafDef>)
    requires Proper(s) && Sane(s') && HeapEvolves(s.coll, s.heap, s'.heap) && Writes(s, s', tried, leaf, orig)
    ensures Sane(s.(heap := s'.heap))
    ensures Writes(s, s.(heap := s'.heap), if Shows(leaf, Entered(s, leaf)) then tried else [], leaf, orig)
  {
    NamesKept(s.coll, s.coll, s.heap, s'.heap);
    ViewStable(s, s'.heap, s.left);
    CellStable(s, s'.heap, leaf);
    if Shows(leaf, Entered(s, leaf)) && Cell(s, leaf) >= 0 { CellIsNamed(s, leaf); }
  }

  /** The leaf that is written is one of the shared leaves, of that name. */
  lemma CellIsNamed(s: State, leaf: LeafDef)
    requires Proper(s) && Cell(s, leaf) >= 0
    ensures Cell(s, leaf) < |s.heap| && s.heap[Cell(s, leaf)].Name() == leaf.Name()
    ensures Entered(s, leaf) || Cell(s, leaf) in s.left
  {
    var toks, ch := View(s.left, s.heap), LeafChannel(leaf);
    if !Entered(s, leaf) {
      var c := Proj(toks, ch);
      HeadIsIn(toks, ch);
      var i :| 0 <= i < |toks| && toks[i] == c[0];
      assert toks[i] == TokAt(s.left[i], s.heap);
    }
  }

  lemma {:induction false} HeadIsIn(toks: seq<Tok>, ch: Channel)
    requires Proj(toks, ch) != []
    ensures Proj(toks, ch)[0] in toks && ChannelOf(Proj(toks, ch)[0]) == ch
  {
    if ChannelOf(toks[0]) != ch { HeadIsIn(toks[1..], ch); }
  }

  // ---------- One step ----------

  /** The next part finds the tokens tidy. */
  lemma TidyKept(s: State, s': State, tried: seq<Attempt>, leaf: LeafDef, orig: seq<LeafDef>)
    requires Starts(s, orig, leaf) && Sane(s') && NoAlias(s') && Evolves(s, s') && Writes(s, s', tried, leaf, orig)
    ensures Tidy(s', orig, leaf)
  {
    forall x <- s'.left
      ensures && 0 <= x < |orig| && SameLeaf(orig[x], s'.heap[x])
              && (Relevant(orig[x], leaf) && x != Cell(s', leaf) ==> s'.heap[x] == orig[x])
    {
      assert x in s.left;
      InLeft(s, x);
      assert SameLeaf(s.heap[x], s'.heap[x]);
    }
  }

  /** An entry is made by taking, and stays. */
  lemma StepEntered(p: Pattern<LeafDef>, s: State, leaf: LeafDef)
    requires Suits(p, leaf) && Proper(s) && NoAlias(s)
    ensures Entered(MatchS(p, s).st, leaf) <==> Entered(s, leaf) || Takes(Match(p, View(s.left, s.heap)).log, leaf) > 0
  {
    var r, toks := MatchS(p, s), View(s.left, s.heap);
    StepState(p, s);
    MatchByLeaves(p, toks);
    KeptIffTaken(Match(p, toks).log, leaf);
    RecordNames(NamesOf(s.coll, s.heap), Match(p, toks).log, leaf.Name());
    FirstIsIn(s.coll, s.heap, leaf.Name());
    FirstIsIn(r.st.coll, r.st.heap, leaf.Name());
  }

  /** A part that does not take the leaf keeps the one that is written. */
  lemma UntakenCell(p: Pattern<LeafDef>, s: State, leaf: LeafDef)
    requires Suits(p, leaf) && Proper(s) && NoAlias(s) && Kept(Match(p, View(s.left, s.heap)).log, leaf) == []
    requires HasName(leaf)
    ensures Cell(MatchS(p, s).st, leaf) == Cell(s, leaf)
  {
    var r, toks := MatchS(p, s), View(s.left, s.heap);
    StepState(p, s);
    StepEntered(p, s, leaf);
    NamesKept(s.coll, s.coll, s.heap, r.st.heap);
    if Entered(s, leaf) { EntryStays(s, r.st, leaf.Name()); } else if leaf.Option? { UntakenChannel(p, toks, leaf); }
  }

  lemma EntryStays(s: State, s': State, name: string)
    requires Sane(s) && Sane(s') && s.coll <= s'.coll && NamesOf(s.coll, s'.heap) == NamesOf(s.coll, s.heap)
    requires FirstWithName(s.coll, s.heap, name) < |s.coll|
    ensures FirstWithName(s'.coll, s'.heap, name) == FirstWithName(s.coll, s.heap, name)
  {
    var j := FirstWithName(s.coll, s.heap, name);
    assert forall k :: 0 <= k < |s.coll| ==>
      s'.coll[k] == s.coll[k] && s'.heap[s'.coll[k]].Name() == NamesOf(s.coll, s'.heap)[k];
    FirstAt(s'.coll, s'.heap, name, j);
  }

  /** The channel of an option changes only if the option is taken. */
  lemma UntakenChannel(p: Pattern<LeafDef>, toks: seq<Tok>, leaf: LeafDef)
    requires WellFormed(p) && NamedOptions(p) && Sole(Leaves(p), leaf) && leaf.Option? && leaf.Name() != ""
    requires Kept(Match(p, toks).log, leaf) == []
    ensures Proj(Match(p, toks).left, LeafChannel(leaf)) == Proj(toks, LeafChannel(leaf))
  {
    var o, ch := Match(p, toks), LeafChannel(leaf);
    MatchConserves(p, toks);
    MatchByLeaves(p, toks);
    KeptIsChannel(o.log, Leaves(p), leaf);
    assert Proj(toks, ch) == Proj(Taken(o.log), ch) + Proj(o.left, ch);
  }

  /** Another leaf writes nothing of this name. */
  lemma OtherWrites(d: LeafDef, s: State, orig: seq<LeafDef>, leaf: LeafDef)
    requires Suits(Leaf(d), leaf) && d != leaf && Starts(s, orig, leaf) && HasName(leaf)
    ensures Writes(s, MatchLeaf(d, s).st, [], leaf, orig)
  {
    var st, log := MatchLeaf(d, s).st, Match(Leaf(d), View(s.left, s.heap)).log;
    assert MatchS(Leaf(d), s).st == st;
    LeafSpares(d, s, leaf.Name());
    if log != [] { KeptOne(log[0], leaf); }
    UntakenCell(Leaf(d), s, leaf);
    if Cell(s, leaf) >= 0 { CellIsNamed(s, leaf); }
  }

  lemma CollectedFirst(leaf: LeafDef, s: State, left: seq<int>, heap: seq<LeafDef>, m: int)
    requires Sane(s) && Accumulates(leaf.GetValue()) && !Entered(s, leaf) && |s.heap| <= |heap|
    requires s.heap == heap[..|s.heap|]
    requires 0 <= m < |heap| && heap[m].Name() == leaf.Name() && InHeap(left, heap)
    ensures var (coll', heap') := Collect(leaf, m, s.coll, heap);
            var s' := State(left, coll', heap');
            && heap' == SetCell(heap, m, FirstValue(leaf, heap[m]))
            && Sane(s') && Entered(s', leaf) && Cell(s', leaf) == m && CellValue(s', leaf) == FirstValue(leaf, heap[m])
  {
    assert forall h :: 0 <= h < |s.heap| ==> heap[h] == s.heap[h];
    var v, j := FirstValue(leaf, heap[m]), |s.coll|;
    SetNames(heap, m, v);
    FirstAt(s.coll + [m], SetCell(heap, m, v), leaf.Name(), j);
  }

  lemma CollectedNext(leaf: LeafDef, s: State, left: seq<int>, heap: seq<LeafDef>, m: int)
    requires Sane(s) && Accumulates(leaf.GetValue()) && Entered(s, leaf) && |s.heap| <= |heap|
    requires s.heap == heap[..|s.heap|]
    requires 0 <= m < |heap| && heap[m].Name() == leaf.Name() && InHeap(left, heap)
    ensures var (coll', heap') := Collect(leaf, m, s.coll, heap);
            var s', v := State(left, coll', heap'), NextValue(leaf, heap[m], CellValue(s, leaf));
            && heap' == SetCell(heap, Cell(s, leaf), v)
            && Sane(s') && Entered(s', leaf) && Cell(s', leaf) == Cell(s, leaf) && CellValue(s', leaf) == v
  {
    assert forall h :: 0 <= h < |s.heap| ==> heap[h] == s.heap[h];
    var j := FirstWithName(s.coll, s.heap, leaf.Name());
    var v := NextValue(leaf, heap[m], heap[s.coll[j]].GetValue());
    FirstAt(s.coll, heap, leaf.Name(), j);
    SetNames(heap, s.coll[j], v);
    FirstAt(s.coll, SetCell(heap, s.coll[j], v), leaf.Name(), j);
  }

  /** What is taken is as it was, unless it is the leaf that is written. */
  lemma TakenIsTidy(leaf: LeafDef, s: State, orig: seq<LeafDef>, i: nat)
    requires Starts(s, orig, leaf) && HasName(leaf) && i == SingleMatch(leaf, s.left, s.heap) < |s.left|
    ensures var x := s.left[i];
            && x < |orig| && View(s.left, s.heap)[i].id == x && (x != Cell(s, leaf) ==> s.heap[x] == orig[x])
            && (leaf.Option? && !Entered(s, leaf) ==> x == Cell(s, leaf))
            && (!leaf.Option? || Entered(s, leaf) ==> x != Cell(s, leaf))
  {
    var toks, x := View(s.left, s.heap), s.left[i];
    assert x in s.left;
    SamePick(leaf, s);
    PickHead(leaf, toks);
    ReportFacts(leaf, s);
  }

  lemma FirstWrites(leaf: LeafDef, s: State, orig: seq<LeafDef>, i: nat)
    requires Accumulates(leaf.GetValue()) && HasName(leaf) && Starts(s, orig, leaf)
    requires i == SingleMatch(leaf, s.left, s.heap) < |s.left| && !Entered(s, leaf)
    ensures Writes(s, MatchLeaf(leaf, s).st, [Attempt(View(s.left, s.heap)[i], true)], leaf, orig)
  {
    var (m, heap) := Report(leaf, s, i);
    var a := Attempt(View(s.left, s.heap)[i], true);
    TakenIsTidy(leaf, s, orig, i);
    ReportFacts(leaf, s);
    CollectedFirst(leaf, s, Remove(s.left, i), heap, m);
    AfterOne(CellValue(s, leaf), a, leaf, orig);
  }

  lemma NextWrites(leaf: LeafDef, s: State, orig: seq<LeafDef>, i: nat)
    requires Accumulates(leaf.GetValue()) && HasName(leaf) && Starts(s, orig, leaf)
    requires i == SingleMatch(leaf, s.left, s.heap) < |s.left| && Entered(s, leaf)
    ensures Writes(s, MatchLeaf(leaf, s).st, [Attempt(View(s.left, s.heap)[i], false)], leaf, orig)
  {
    var (m, heap) := Report(leaf, s, i);
    var a := Attempt(View(s.left, s.heap)[i], false);
    TakenIsTidy(leaf, s, orig, i);
    ReportFacts(leaf, s);
    CollectedNext(leaf, s, Remove(s.left, i), heap, m);
    AfterOne(CellValue(s, leaf), a, leaf, orig);
  }

  /** The leaf itself writes its attempt. */
  lemma LeafWrites(leaf: LeafDef, s: State, orig: seq<LeafDef>)
    requires Accumulates(leaf.GetValue()) && HasName(leaf) && Starts(s, orig, leaf)
    ensures Writes(s, MatchLeaf(leaf, s).st, Attempts(Leaf(leaf), View(s.left, s.heap), leaf, Entered(s, leaf)), leaf,
                   orig)
  {
    var i := SingleMatch(leaf, s.left, s.heap);
    SamePick(leaf, s);
    if i == |s.left| {
      WritesNothing(s, leaf, orig);
    } else if Entered(s, leaf) {
      NextWrites(leaf, s, orig, i);
    } else {
      FirstWrites(leaf, s, orig, i);
    }
  }

  // ---------- All patterns ----------

  /** For every pattern, matched or not, what it writes for the leaf is what its attempts write. */
  lemma {:induction false} MatchWrites(p: Pattern<LeafDef>, s: State, orig: seq<LeafDef>, leaf: LeafDef)
    requires Suits(p, leaf) && HasName(leaf) && Starts(s, orig, leaf)
    ensures Writes(s, MatchS(p, s).st, Attempts(p, View(s.left, s.heap), leaf, Entered(s, leaf)), leaf, orig)
    decreases p, |s.left|, 0
  {
    match p
    case Leaf(d) => if d == leaf { LeafWrites(leaf, s, orig); } else { OtherWrites(d, s, orig, leaf); }
    case Required(ps) => RequiredWrites(ps, s, orig, leaf);
    case Optional(ps) => EachWrites(ps, s, orig, leaf);
    case OptionsShortcut(ps) => EachWrites(ps, s, orig, leaf);
    case OneOrMore(ps) => MoreWrites(ps, s, true, [], orig, leaf);
    case Either(ps) =>
      if Shows(leaf, Entered(s, leaf)) { EitherShows(ps, s, orig, leaf); } else { EitherHides(ps, s, orig, leaf); }
  }

  /** After a part, matched or not, the next one can start. */
  lemma {:induction false} StepWrites(p: Pattern<LeafDef>, s: State, orig: seq<LeafDef>, leaf: LeafDef)
    requires Suits(p, leaf) && HasName(leaf) && Starts(s, orig, leaf)
    ensures var r, o := MatchS(p, s), Match(p, View(s.left, s.heap));
            && Writes(s, r.st, Attempts(p, View(s.left, s.heap), leaf, Entered(s, leaf)), leaf, orig)
            && r.ok == o.ok && View(r.st.left, r.st.heap) == o.left && HeapEvolves(s.coll, s.heap, r.st.heap)
            && Starts(r.st, orig, leaf) && Entered(r.st, leaf) == (Entered(s, leaf) || Takes(o.log, leaf) > 0)
    decreases p, |s.left|, 1
  {
    MatchWrites(p, s, orig, leaf);
    StepState(p, s);
    StepEntered(p, s, leaf);
    TidyKept(s, MatchS(p, s).st, Attempts(p, View(s.left, s.heap), leaf, Entered(s, leaf)), leaf, orig);
  }

  lemma {:induction false} RequiredWrites(ps: seq<Pattern<LeafDef>>, s: State, orig: seq<LeafDef>, leaf: LeafDef)
    requires SuitAll(ps, leaf) && HasName(leaf) && Starts(s, orig, leaf)
    ensures Writes(s, MatchS(Required(ps), s).st, Attempts(Required(ps), View(s.left, s.heap), leaf, Entered(s, leaf)),
                   leaf, orig)
    decreases ps, |s.left|, 1
  {
    MatchAllRefines(ps, s);
    AllWrites(ps, s, orig, leaf);
    WritesRestored(s, MatchAllS(ps, s).st, AttemptsAll(ps, View(s.left, s.heap), leaf, Entered(s, leaf)), leaf, orig);
  }

  lemma {:induction false} AllWrites(ps: seq<Pattern<LeafDef>>, s: State, orig: seq<LeafDef>, leaf: LeafDef)
    requires SuitAll(ps, leaf) && HasName(leaf) && Starts(s, orig, leaf)
    ensures Writes(s, MatchAllS(ps, s).st, AttemptsAll(ps, View(s.left, s.heap), leaf, Entered(s, leaf)), leaf, orig)
    decreases ps, |s.left|, 0
  {
    if ps == [] {
      WritesNothing(s, leaf, orig);
    } else {
      var m, o, e := MatchS(ps[0], s), Match(ps[0], View(s.left, s.heap)), Entered(s, leaf);
      var a := Attempts(ps[0], View(s.left, s.heap), leaf, e);
      SuitCons(ps, leaf);
      StepWrites(ps[0], s, orig, leaf);
      if m.ok {
        AllWrites(ps[1..], m.st, orig, leaf);
        var b := AttemptsAll(ps[1..], o.left, leaf, e || Takes(o.log, leaf) > 0);
        WritesThen(s, m.st, MatchAllS(ps[1..], m.st).st, a, b, leaf, orig);
      } else {
        assert a + [] == a;
      }
    }
  }

  lemma {:induction false} EachWrites(ps: seq<Pattern<LeafDef>>, s: State, orig: seq<LeafDef>, leaf: LeafDef)
    requires SuitAll(ps, leaf) && HasName(leaf) && Starts(s, orig, leaf)
    ensures Writes(s, MatchEachS(ps, s), AttemptsEach(ps, View(s.left, s.heap), leaf, Entered(s, leaf)), leaf, orig)
    decreases ps, |s.left|, 0
  {
    if ps == [] {
      WritesNothing(s, leaf, orig);
    } else {
      var m, o, e := MatchS(ps[0], s), Match(ps[0], View(s.left, s.heap)), Entered(s, leaf);
      SuitCons(ps, leaf);
      StepWrites(ps[0], s, orig, leaf);
      EachWrites(ps[1..], m.st, orig, leaf);
      WritesThen(s, m.st, MatchEachS(ps[1..], m.st), Attempts(ps[0], View(s.left, s.heap), leaf, e),
                 AttemptsEach(ps[1..], o.left, leaf, e || Takes(o.log, leaf) > 0), leaf, orig);
    }
  }

  lemma {:induction false} MoreWrites(
    ps: seq<Pattern<LeafDef>>, s: State, first: bool, prev: seq<int>, orig: seq<LeafDef>, leaf: LeafDef)
    requires WellFormed(OneOrMore(ps)) && SuitAll(ps, leaf) && HasName(leaf) && Starts(s, orig, leaf)
    requires first || prev == s.left
    ensures var tried := AttemptsMore(ps[0], View(s.left, s.heap), leaf, Entered(s, leaf), first);
            Writes(s, MatchLoopS(ps[0], s, first, prev).st, tried, leaf, orig)
    decreases ps, |s.left|, if first then 3 else 2
  {
    var m, o, e := MatchS(ps[0], s), Match(ps[0], View(s.left, s.heap)), Entered(s, leaf);
    var a := Attempts(ps[0], View(s.left, s.heap), leaf, e);
    SuitCons(ps, leaf);
    StepWrites(ps[0], s, orig, leaf);
    SameLength(ps[0], s);
    if m.ok && (first || o.log != []) {
      MoreWrites(ps, m.st, false, m.st.left, orig, leaf);
      var b := AttemptsMore(ps[0], o.left, leaf, e || Takes(o.log, leaf) > 0, false);
      WritesThen(s, m.st, MatchLoopS(ps[0], m.st, false, m.st.left).st, a, b, leaf, orig);
    } else {
      assert a + [] == a;
    }
  }

  /** A match takes nothing exactly when it leaves everything. */
  lemma SameLength(p: Pattern<LeafDef>, s: State)
    requires WellFormed(p) && NamedOptions(p) && Proper(s)
    ensures MatchS(p, s).ok ==> (MatchS(p, s).st.left == s.left <==> Match(p, View(s.left, s.heap)).log == [])
  {
    MatchRefines(p, s);
    var r, o := MatchS(p, s), Match(p, View(s.left, s.heap));
    if r.ok { assert |r.st.left| == |o.left|; }
  }

  // ---------- Alternatives ----------

  /** The next alternative starts with the lists of this one and the heap it leaves. */
  lemma {:induction false} NextStarts(p: Pattern<LeafDef>, s: State, orig: seq<LeafDef>, leaf: LeafDef)
    requires Suits(p, leaf) && HasName(leaf) && Starts(s, orig, leaf)
    ensures var s' := s.(heap := MatchS(p, s).st.heap);
            var tried := Attempts(p, View(s.left, s.heap), leaf, Entered(s, leaf));
            && Starts(s', orig, leaf) && View(s'.left, s'.heap) == View(s.left, s.heap)
            && HeapEvolves(s.coll, s.heap, s'.heap) && Entered(s', leaf) == Entered(s, leaf)
            && Writes(s, s', if Shows(leaf, Entered(s, leaf)) then tried else [], leaf, orig)
    decreases p, |s.left|, 1
  {
    var m, tried := MatchS(p, s), Attempts(p, View(s.left, s.heap), leaf, Entered(s, leaf));
    var s' := s.(heap := m.st.heap);
    MatchWrites(p, s, orig, leaf);
    StepState(p, s);
    WritesRestored(s, m.st, tried, leaf, orig);
    RefinesThen(s, Result(true, s'), s');
    ViewStable(s, m.st.heap, s.left);
    NamesKept(s.coll, s.coll, s.heap, m.st.heap);
    CellStable(s, m.st.heap, leaf);
    TidyKept(s, s', if Shows(leaf, Entered(s, leaf)) then tried else [], leaf, orig);
  }

  /** The heap after all alternatives, if traces show. */
  lemma {:induction false} SomeWrites(ps: seq<Pattern<LeafDef>>, s: State, orig: seq<LeafDef>, leaf: LeafDef)
    requires SuitAll(ps, leaf) && HasName(leaf) && Starts(s, orig, leaf) && Shows(leaf, Entered(s, leaf))
    ensures var s' := s.(heap := MatchOutcomesS(ps, s).1);
            var tried := AttemptsSome(ps, View(s.left, s.heap), leaf, Entered(s, leaf));
            Sane(s') && Writes(s, s', tried, leaf, orig)
    decreases ps, |s.left|, 0
  {
    if ps == [] {
      WritesNothing(s, leaf, orig);
    } else {
      var e, toks, s' := Entered(s, leaf), View(s.left, s.heap), s.(heap := MatchS(ps[0], s).st.heap);
      SuitCons(ps, leaf);
      NextStarts(ps[0], s, orig, leaf);
      SomeWrites(ps[1..], s', orig, leaf);
      OutcomesAre(ps, s);
      WritesThen(s, s', s'.(heap := MatchOutcomesS(ps[1..], s').1), Attempts(ps[0], toks, leaf, e),
                 AttemptsSome(ps[1..], toks, leaf, e), leaf, orig);
    }
  }

  /** The lists of an alternative under the heap that the later ones leave. */
  lemma {:induction false} FirstOutcomeCell(p: Pattern<LeafDef>, rest: seq<Pattern<LeafDef>>, s: State, leaf: LeafDef)
    requires Suits(p, leaf) && SuitAll(rest, leaf) && Proper(s) && NoAlias(s)
    ensures var m := MatchS(p, s);
            var s' := s.(heap := m.st.heap);
            Sane(s') && var t := m.st.(heap := MatchOutcomesS(rest, s').1);
            Sane(t) && Cell(t, leaf) == Cell(m.st, leaf) && Entered(t, leaf) == Entered(m.st, leaf)
  {
    var m := MatchS(p, s);
    var s' := s.(heap := m.st.heap);
    LaterHeap(p, rest, s);
    MatchRefines(p, s);
    ViewStable(s', MatchOutcomesS(rest, s').1, m.st.left);
    CellStable(m.st, MatchOutcomesS(rest, s').1, leaf);
  }

  /** The lists of the `k`-th outcome. */
  ghost function OutcomeState(r: Outcomes, k: nat): State
    requires k < |r.0|
  {
    State(r.0[k].0, r.0[k].1, r.1)
  }

  lemma OutcomeStateShift(first: seq<(seq<int>, seq<int>)>, r: Outcomes, i: nat, k: nat)
    requires i < |r.0| && k == |first| + i
    ensures OutcomeState((first + r.0, r.1), k) == OutcomeState(r, i)
  {}

  ghost predicate SameCellIn(r: Outcomes, k: nat, leaf: LeafDef, c: int) {
    k < |r.0| && Sane(OutcomeState(r, k)) && Cell(OutcomeState(r, k), leaf) == c
  }

  lemma SameCellShift(first: seq<(seq<int>, seq<int>)>, r: Outcomes, i: nat, k: nat, leaf: LeafDef, c: int)
    requires SameCellIn(r, i, leaf, c) && k == |first| + i
    ensures SameCellIn((first + r.0, r.1), k, leaf, c)
  {
    OutcomeStateShift(first, r, i, k);
  }

  lemma SameCellFirst(m: Result, r: Outcomes, leaf: LeafDef, c: int)
    requires m.ok && Sane(m.st.(heap := r.1)) && Cell(m.st.(heap := r.1), leaf) == c
    ensures SameCellIn((OwnLists(m) + r.0, r.1), 0, leaf, c)
  {}

  /** All outcomes have the same leaf written, if traces show. */
  lemma {:induction false} OutcomeCell(ps: seq<Pattern<LeafDef>>, s: State, orig: seq<LeafDef>, leaf: LeafDef, k: nat)
    requires SuitAll(ps, leaf) && HasName(leaf) && Starts(s, orig, leaf) && Shows(leaf, Entered(s, leaf))
    requires k < |MatchOutcomesS(ps, s).0|
    ensures SameCellIn(MatchOutcomesS(ps, s), k, leaf, Cell(s, leaf))
    decreases ps, |s.left|, 1
  {
    if ps != [] {
      var own := OwnLists(MatchS(ps[0], s));
      SuitCons(ps, leaf);
      OutcomesAre(ps, s);
      if k < |own| {
        FirstCell(ps[0], ps[1..], s, orig, leaf);
      } else {
        LaterCell(ps, s, orig, leaf, k - |own|, k);
      }
    }
  }

  lemma {:induction false} FirstCell(
    p: Pattern<LeafDef>, rest: seq<Pattern<LeafDef>>, s: State, orig: seq<LeafDef>, leaf: LeafDef)
    requires Suits(p, leaf) && SuitAll(rest, leaf) && HasName(leaf) && Starts(s, orig, leaf)
    requires Shows(leaf, Entered(s, leaf))
    requires MatchS(p, s).ok
    ensures var m := MatchS(p, s);
            var s' := s.(heap := m.st.heap);
            Sane(s') && var r := MatchOutcomesS(rest, s');
            SameCellIn((OwnLists(m) + r.0, r.1), 0, leaf, Cell(s, leaf))
    decreases p, |s.left|, 1
  {
    MatchWrites(p, s, orig, leaf);
    FirstOutcomeCell(p, rest, s, leaf);
    SameCellFirst(MatchS(p, s), MatchOutcomesS(rest, s.(heap := MatchS(p, s).st.heap)), leaf, Cell(s, leaf));
  }

  lemma {:induction false} LaterCell(
    ps: seq<Pattern<LeafDef>>, s: State, orig: seq<LeafDef>, leaf: LeafDef, i: nat, k: nat)
    requires ps != [] && SuitAll(ps, leaf) && HasName(leaf) && Starts(s, orig, leaf) && Shows(leaf, Entered(s, leaf))
    requires var m := MatchS(ps[0], s); i < |MatchOutcomesS(ps[1..], s.(heap := m.st.heap)).0| && k == |OwnLists(m)| + i
    ensures var m := MatchS(ps[0], s);
            var r := MatchOutcomesS(ps[1..], s.(heap := m.st.heap));
            SameCellIn((OwnLists(m) + r.0, r.1), k, leaf, Cell(s, leaf))
    decreases ps, |s.left|, 0
  {
    var m, rest, s' := MatchS(ps[0], s), ps[1..], s.(heap := MatchS(ps[0], s).st.heap);
    SuitCons(ps, leaf);
    NextStarts(ps[0], s, orig, leaf);
    OutcomeCell(rest, s', orig, leaf, i);
    SameCellShift(OwnLists(m), MatchOutcomesS(rest, s'), i, k, leaf, Cell(s, leaf));
  }

  /** A positional makes its entry in a new leaf, which no later alternative writes. */
  lemma {:induction false} FirstOutcomeWrites(
    p: Pattern<LeafDef>, rest: seq<Pattern<LeafDef>>, s: State, orig: seq<LeafDef>, leaf: LeafDef)
    requires Suits(p, leaf) && SuitAll(rest, leaf) && Starts(s, orig, leaf) && !Shows(leaf, Entered(s, leaf))
    ensures var m := MatchS(p, s);
            var s' := s.(heap := m.st.heap);
            Sane(s') && var t := m.st.(heap := MatchOutcomesS(rest, s').1);
            Sane(t) && CellValue(t, leaf) == CellValue(m.st, leaf)
  {
    var m := MatchS(p, s);
    FirstOutcomeCell(p, rest, s, leaf);
    if Cell(m.st, leaf) >= 0 {
      LaterHeap(p, rest, s);
      StepState(p, s);
      CellIsNamed(m.st, leaf);
      MatchRecords(p, s);
      FirstIsIn(s.coll, s.heap, leaf.Name());
      EntryIsNew(Leaves(p), s, m.st, leaf, Cell(m.st, leaf));
    }
  }

  ghost predicate OutcomeWritten(r: Outcomes, tried: seq<seq<Attempt>>, k: nat, leaf: LeafDef, orig: seq<LeafDef>) {
    k < |r.0| && k < |tried| && Sane(OutcomeState(r, k)) && AttemptIdsIn(tried[k], orig) &&
    CellValue(OutcomeState(r, k), leaf) == After(Empty, tried[k], leaf, orig)
  }

  lemma WrittenShift(
    first: seq<(seq<int>, seq<int>)>, own: seq<seq<Attempt>>, r: Outcomes, tried: seq<seq<Attempt>>, i: nat, k: nat,
    leaf: LeafDef, orig: seq<LeafDef>)
    requires OutcomeWritten(r, tried, i, leaf, orig) && |first| == |own| && k == |first| + i
    ensures OutcomeWritten((first + r.0, r.1), own + tried, k, leaf, orig)
  {
    OutcomeStateShift(first, r, i, k);
    assert (own + tried)[k] == tried[i];
  }

  /** Each outcome holds what its own alternative wrote, if traces do not show. */
  lemma {:induction false} OutcomeWrites(ps: seq<Pattern<LeafDef>>, s: State, orig: seq<LeafDef>, leaf: LeafDef, k: nat)
    requires SuitAll(ps, leaf) && HasName(leaf) && Starts(s, orig, leaf) && !Shows(leaf, Entered(s, leaf))
    requires k < |MatchOutcomesS(ps, s).0|
    ensures OutcomeWritten(MatchOutcomesS(ps, s), OutcomeAttempts(ps, View(s.left, s.heap), leaf, false), k, leaf, orig)
    decreases ps, |s.left|, 1
  {
    if ps != [] {
      var own := OwnLists(MatchS(ps[0], s));
      SuitCons(ps, leaf);
      OutcomesAre(ps, s);
      if k < |own| {
        FirstWritten(ps[0], ps[1..], s, orig, leaf);
      } else {
        LaterWritten(ps, s, orig, leaf, k - |own|, k);
      }
    }
  }

  lemma {:induction false} FirstWritten(
    p: Pattern<LeafDef>, rest: seq<Pattern<LeafDef>>, s: State, orig: seq<LeafDef>, leaf: LeafDef)
    requires Suits(p, leaf) && SuitAll(rest, leaf) && HasName(leaf) && Starts(s, orig, leaf)
    requires !Shows(leaf, Entered(s, leaf))
    requires MatchS(p, s).ok
    ensures var m, toks := MatchS(p, s), View(s.left, s.heap);
            var s', own := s.(heap := m.st.heap), OwnAttempts(Match(p, toks), Attempts(p, toks, leaf, false));
            Sane(s') && var r := MatchOutcomesS(rest, s');
            OutcomeWritten((OwnLists(m) + r.0, r.1), own + OutcomeAttempts(rest, toks, leaf, false), 0, leaf, orig)
    decreases p, |s.left|, 1
  {
    MatchWrites(p, s, orig, leaf);
    StepVerdict(p, s);
    FirstOutcomeWrites(p, rest, s, orig, leaf);
  }

  lemma {:induction false} LaterWritten(
    ps: seq<Pattern<LeafDef>>, s: State, orig: seq<LeafDef>, leaf: LeafDef, i: nat, k: nat)
    requires ps != [] && SuitAll(ps, leaf) && HasName(leaf) && Starts(s, orig, leaf) && !Shows(leaf, Entered(s, leaf))
    requires var m := MatchS(ps[0], s); i < |MatchOutcomesS(ps[1..], s.(heap := m.st.heap)).0| && k == |OwnLists(m)| + i
    ensures var m, toks := MatchS(ps[0], s), View(s.left, s.heap);
            var own := OwnAttempts(Match(ps[0], toks), Attempts(ps[0], toks, leaf, false));
            var r := MatchOutcomesS(ps[1..], s.(heap := m.st.heap));
            OutcomeWritten((OwnLists(m) + r.0, r.1), own + OutcomeAttempts(ps[1..], toks, leaf, false), k, leaf, orig)
    decreases ps, |s.left|, 0
  {
    var m, rest, s' := MatchS(ps[0], s), ps[1..], s.(heap := MatchS(ps[0], s).st.heap);
    var toks := View(s.left, s.heap);
    SuitCons(ps, leaf);
    StepVerdict(ps[0], s);
    NextStarts(ps[0], s, orig, leaf);
    OutcomeWrites(rest, s', orig, leaf, i);
    WrittenShift(OwnLists(m), OwnAttempts(Match(ps[0], toks), Attempts(ps[0], toks, leaf, false)),
                 MatchOutcomesS(rest, s'),
                 OutcomeAttempts(rest, toks, leaf, false), i, k, leaf, orig);
  }

  lemma ShownWrites(s: State, t: State, heap: seq<LeafDef>, tried: seq<Attempt>, leaf: LeafDef, orig: seq<LeafDef>)
    requires Sane(s) && Sane(t) && t.heap == heap && Sane(s.(heap := heap))
    requires Writes(s, s.(heap := heap), tried, leaf, orig)
    requires Shows(leaf, Entered(s, leaf)) && Cell(t, leaf) == Cell(s, leaf)
    ensures Writes(s, t, tried, leaf, orig)
  {}

  lemma {:induction false} EitherShows(ps: seq<Pattern<LeafDef>>, s: State, orig: seq<LeafDef>, leaf: LeafDef)
    requires SuitAll(ps, leaf) && HasName(leaf) && Starts(s, orig, leaf) && Shows(leaf, Entered(s, leaf))
    ensures Writes(s, MatchS(Either(ps), s).st, AttemptsSome(ps, View(s.left, s.heap), leaf, Entered(s, leaf)), leaf,
                   orig)
    decreases ps, |s.left|, 2
  {
    var r, tried := MatchOutcomesS(ps, s), AttemptsSome(ps, View(s.left, s.heap), leaf, Entered(s, leaf));
    SomeWrites(ps, s, orig, leaf);
    EitherIs(ps, s);
    if r.0 != [] {
      var k := FirstMin(SizesS(r.0));
      OutcomeCell(ps, s, orig, leaf, k);
      ShownWrites(s, OutcomeState(r, k), r.1, tried, leaf, orig);
    }
  }

  lemma HiddenWrites(s: State, r: Outcomes, tried: seq<seq<Attempt>>, k: nat, leaf: LeafDef, orig: seq<LeafDef>)
    requires Sane(s) && !Shows(leaf, Entered(s, leaf)) && OutcomeWritten(r, tried, k, leaf, orig)
    ensures Writes(s, OutcomeState(r, k), tried[k], leaf, orig)
  {}

  lemma NoOutcomeWrites(ps: seq<Pattern<LeafDef>>, s: State, leaf: LeafDef, orig: seq<LeafDef>)
    requires SuitAll(ps, leaf) && Proper(s) && !Shows(leaf, Entered(s, leaf))
    ensures var s' := s.(heap := MatchOutcomesS(ps, s).1); Sane(s') && Writes(s, s', [], leaf, orig)
  {
    var heap := MatchOutcomesS(ps, s).1;
    MatchOutcomesRefine(ps, s);
    NamesKept(s.coll, s.coll, s.heap, heap);
    ViewStable(s, heap, s.left);
    CellStable(s, heap, leaf);
  }

  lemma {:induction false} EitherHides(ps: seq<Pattern<LeafDef>>, s: State, orig: seq<LeafDef>, leaf: LeafDef)
    requires SuitAll(ps, leaf) && HasName(leaf) && Starts(s, orig, leaf) && !Shows(leaf, Entered(s, leaf))
    ensures var outs := MatchOutcomes(ps, View(s.left, s.heap));
            var tried := OutcomeAttempts(ps, View(s.left, s.heap), leaf, false);
            Writes(s, MatchS(Either(ps), s).st, ChosenAttempts(outs, tried), leaf, orig)
    decreases ps, |s.left|, 2
  {
    var r := MatchOutcomesS(ps, s);
    SameOutcomes(ps, s);
    EitherIs(ps, s);
    if r.0 == [] {
      NoOutcomeWrites(ps, s, leaf, orig);
    } else {
      var k := FirstMin(SizesS(r.0));
      OutcomeWrites(ps, s, orig, leaf, k);
      HiddenWrites(s, r, OutcomeAttempts(ps, View(s.left, s.heap), leaf, false), k, leaf, orig);
    }
  }
}
