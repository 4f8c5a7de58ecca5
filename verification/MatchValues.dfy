/**
 What the entry of a leaf holds after a match, for every pattern, and when that is what its takes add up to. A counter
 holds the attempts since the last one that found no entry. A list holds the first word and the words of all attempts
 that found an entry, kept or given up.
 */
module MatchValues {
  import opened Sequences
  import opened Patterns
  import opened Matching
  import opened MatchStore
  import opened MatchRefinement
  import opened MatchAccumulate
  import opened MatchEntries
  import opened MatchTotals
  import opened MatchAttempts

  // ---------- Kept takes are among the attempts ----------

  /** Tokens taken one after the other. */
  function Flagged(toks: seq<Tok>, entered: bool): (r: seq<Attempt>)
    ensures |r| == |toks| && forall k :: 0 <= k < |r| ==> r[k] == Attempt(toks[k], k == 0 && !entered)
  {
    seq(|toks|, k requires 0 <= k < |toks| => Attempt(toks[k], k == 0 && !entered))
  }

  lemma FlaggedConcat(a: seq<Tok>, b: seq<Tok>, entered: bool)
    ensures Flagged(a + b, entered) == Flagged(a, entered) + Flagged(b, entered || |a| > 0)
  {}

  /** The first attempt, and no other of a positional, finds no entry. */
  ghost predicate Flags(tried: seq<Attempt>, leaf: LeafDef, entered: bool) {
    && (entered ==> forall a <- tried :: !a.first)
    && (!entered && tried != [] ==> tried[0].first)
    && (!leaf.Option? ==> forall k :: 0 < k < |tried| ==> !tried[k].first)
  }

  ghost predicate From(tried: seq<Attempt>, toks: seq<Tok>, leaf: LeafDef) {
    forall a <- tried :: a.tok in toks && ChannelOf(a.tok) == LeafChannel(leaf)
  }

  /** Attempts at `toks` among which `kept` have been kept. */
  ghost predicate Fair(tried: seq<Attempt>, kept: seq<Tok>, toks: seq<Tok>, leaf: LeafDef, entered: bool) {
    && From(tried, toks, leaf) && Flags(tried, leaf, entered)
    && Subsequence(Flagged(kept, entered), tried)
    && (!Shows(leaf, entered) && kept == [] ==> tried == [])
  }

  lemma {:induction false} SubsequenceConcat<T>(a: seq<T>, b: seq<T>, c: seq<T>, d: seq<T>)
    requires Subsequence(a, b) && Subsequence(c, d)
    ensures Subsequence(a + c, b + d)
    decreases |b|
  {
    if b == [] {
      assert a + c == c && b + d == d;
    } else {
      assert (b + d)[1..] == b[1..] + d;
      if a == [] {
        SubsequenceConcat(a, b[1..], c, d);
        SubsequenceCons(a + c, b[0], b[1..] + d);
        assert [b[0]] + (b[1..] + d) == b + d;
      } else {
        assert (a + c)[1..] == a[1..] + c;
        if a[0] == b[0] { SubsequenceConcat(a[1..], b[1..], c, d); } else { SubsequenceConcat(a, b[1..], c, d); }
      }
    }
  }

  lemma FlagsThen(a: seq<Attempt>, kept: seq<Tok>, toks: seq<Tok>, b: seq<Attempt>, leaf: LeafDef, entered: bool)
    requires Fair(a, kept, toks, leaf, entered) && Flags(b, leaf, entered || |kept| > 0)
    ensures Flags(a + b, leaf, entered)
  {
    if a == [] { assert a + b == b && Flagged(kept, entered) == []; }
  }

  lemma FromThen(a: seq<Attempt>, b: seq<Attempt>, toks: seq<Tok>, left: seq<Tok>, leaf: LeafDef)
    requires From(a, toks, leaf) && From(b, left, leaf) && forall t <- left :: t in toks
    ensures From(a + b, toks, leaf)
  {}

  lemma FairThen(
    a: seq<Attempt>, k: seq<Tok>, toks: seq<Tok>, b: seq<Attempt>, l: seq<Tok>, left: seq<Tok>, leaf: LeafDef,
    entered: bool)
    requires Fair(a, k, toks, leaf, entered) && Fair(b, l, left, leaf, entered || |k| > 0)
    requires forall t <- left :: t in toks
    ensures Fair(a + b, k + l, toks, leaf, entered)
  {
    FlagsThen(a, k, toks, b, leaf, entered);
    FromThen(a, b, toks, left, leaf);
    FlaggedConcat(k, l, entered);
    SubsequenceConcat(Flagged(k, entered), a, Flagged(l, entered || |k| > 0), b);
  }

  lemma FairNothing(toks: seq<Tok>, leaf: LeafDef, entered: bool)
    ensures Fair([], [], toks, leaf, entered)
  {}

  /** What is left was there before. */
  lemma LeftIn(p: Pattern<LeafDef>, toks: seq<Tok>)
    requires WellFormed(p)
    ensures forall t <- Match(p, toks).left :: t in toks
  {
    MatchConserves(p, toks);
    SubsequenceIn(Match(p, toks).left, toks);
  }

  lemma {:induction false} SubsequenceIn<T>(a: seq<T>, b: seq<T>)
    requires Subsequence(a, b)
    ensures forall x <- a :: x in b
    decreases |b|
  {
    if a != [] {
      assert a == [a[0]] + a[1..];
      if a[0] == b[0] { SubsequenceIn(a[1..], b[1..]); } else { SubsequenceIn(a, b[1..]); }
    }
  }

  lemma {:induction false} AttemptsFair(p: Pattern<LeafDef>, toks: seq<Tok>, leaf: LeafDef, entered: bool)
    requires WellFormed(p) && HasName(leaf)
    ensures Fair(Attempts(p, toks, leaf, entered), Kept(Match(p, toks).log, leaf), toks, leaf, entered)
    decreases p, |toks|, 0
  {
    match p
    case Leaf(d) => LeafFair(d, toks, leaf, entered);
    case Required(ps) =>
      AllFair(ps, toks, leaf, entered);
      FairNothing(toks, leaf, entered);
      assert Flagged([], entered) == [];
    case Optional(ps) => EachFair(ps, toks, leaf, entered);
    case OptionsShortcut(ps) => EachFair(ps, toks, leaf, entered);
    case OneOrMore(ps) => MoreFair(ps, toks, leaf, entered, true);
    case Either(ps) => EitherFair(ps, toks, leaf, entered);
  }

  lemma FairOne(t: Tok, toks: seq<Tok>, leaf: LeafDef, entered: bool)
    requires t in toks && ChannelOf(t) == LeafChannel(leaf)
    ensures Fair([Attempt(t, !entered)], [t], toks, leaf, entered)
  {
    assert Flagged([t], entered) == [Attempt(t, !entered)];
    SubsequenceRefl([Attempt(t, !entered)]);
  }

  lemma LeafFair(d: LeafDef, toks: seq<Tok>, leaf: LeafDef, entered: bool)
    requires HasName(leaf)
    ensures Fair(Attempts(Leaf(d), toks, leaf, entered), Kept(Match(Leaf(d), toks).log, leaf), toks, leaf, entered)
  {
    var i := Pick(d, toks);
    FairNothing(toks, leaf, entered);
    if i < |toks| {
      KeptOne(Take(d, toks[i]), leaf);
      if d == leaf {
        PickHead(leaf, toks);
        FairOne(toks[i], toks, leaf, entered);
      }
    }
  }

  /** The attempts of a sequence, which is fair as far as it gets. */
  lemma {:induction false} AllFair(ps: seq<Pattern<LeafDef>>, toks: seq<Tok>, leaf: LeafDef, entered: bool)
    requires WellFormedAll(ps) && HasName(leaf)
    ensures var tried, o := AttemptsAll(ps, toks, leaf, entered), MatchAll(ps, toks);
            && From(tried, toks, leaf) && Flags(tried, leaf, entered)
            && (o.ok ==> Fair(tried, Kept(o.log, leaf), toks, leaf, entered))
    decreases ps, |toks|, 0
  {
    if ps == [] {
      FairNothing(toks, leaf, entered);
    } else {
      var m, a := Match(ps[0], toks), Attempts(ps[0], toks, leaf, entered);
      var k, e := Kept(m.log, leaf), entered || Takes(m.log, leaf) > 0;
      AttemptsFair(ps[0], toks, leaf, entered);
      if m.ok {
        var b, n := AttemptsAll(ps[1..], m.left, leaf, e), MatchAll(ps[1..], m.left);
        LeftIn(ps[0], toks);
        AllFair(ps[1..], m.left, leaf, e);
        FlagsThen(a, k, toks, b, leaf, entered);
        FromThen(a, b, toks, m.left, leaf);
        if n.ok {
          KeptConcat(m.log, n.log, leaf);
          FairThen(a, k, toks, b, Kept(n.log, leaf), m.left, leaf, entered);
        }
      } else {
        assert a + [] == a;
      }
    }
  }

  lemma {:induction false} EachFair(ps: seq<Pattern<LeafDef>>, toks: seq<Tok>, leaf: LeafDef, entered: bool)
    requires WellFormedAll(ps) && HasName(leaf)
    ensures Fair(AttemptsEach(ps, toks, leaf, entered), Kept(MatchEach(ps, toks).log, leaf), toks, leaf, entered)
    decreases ps, |toks|, 0
  {
    if ps == [] {
      FairNothing(toks, leaf, entered);
    } else {
      var m, e := Match(ps[0], toks), entered || Takes(Match(ps[0], toks).log, leaf) > 0;
      var n := MatchEach(ps[1..], m.left);
      AttemptsFair(ps[0], toks, leaf, entered);
      LeftIn(ps[0], toks);
      EachFair(ps[1..], m.left, leaf, e);
      KeptConcat(m.log, n.log, leaf);
      FairThen(Attempts(ps[0], toks, leaf, entered), Kept(m.log, leaf), toks, AttemptsEach(ps[1..], m.left, leaf, e),
               Kept(n.log, leaf), m.left, leaf, entered);
    }
  }

  /** A repetition, by its first round and the others. */
  lemma MoreIs(ps: seq<Pattern<LeafDef>>, toks: seq<Tok>, leaf: LeafDef, entered: bool, first: bool)
    requires WellFormed(OneOrMore(ps))
    ensures var m, a := Match(ps[0], toks), Attempts(ps[0], toks, leaf, entered);
            var e := entered || Takes(m.log, leaf) > 0;
            if m.ok && (first || m.log != []) then
              && AttemptsMore(ps[0], toks, leaf, entered, first) == a + AttemptsMore(ps[0], m.left, leaf, e, false)
              && Kept(MatchMore(ps[0], toks).log, leaf) == Kept(m.log, leaf) + Kept(MatchMore(ps[0], m.left).log, leaf)
            else
              && AttemptsMore(ps[0], toks, leaf, entered, first) == a
              && Kept(MatchMore(ps[0], toks).log, leaf) == Kept(m.log, leaf) == []
  {
    var m, a := Match(ps[0], toks), Attempts(ps[0], toks, leaf, entered);
    if m.ok && (first || m.log != []) {
      MatchMoreAgain(ps[0], toks);
      KeptConcat(m.log, MatchMore(ps[0], m.left).log, leaf);
    } else {
      assert a + [] == a;
    }
  }

  lemma {:induction false} MoreFair(
    ps: seq<Pattern<LeafDef>>, toks: seq<Tok>, leaf: LeafDef, entered: bool, first: bool)
    requires WellFormed(OneOrMore(ps)) && HasName(leaf)
    ensures Fair(AttemptsMore(ps[0], toks, leaf, entered, first), Kept(MatchMore(ps[0], toks).log, leaf), toks, leaf,
                 entered)
    decreases ps, |toks|, if first then 2 else 1
  {
    var m, a := Match(ps[0], toks), Attempts(ps[0], toks, leaf, entered);
    var e := entered || Takes(m.log, leaf) > 0;
    AttemptsFair(ps[0], toks, leaf, entered);
    MoreIs(ps, toks, leaf, entered, first);
    if m.ok && (first || m.log != []) {
      LeftIn(ps[0], toks);
      MoreFair(ps, m.left, leaf, e, false);
      FairThen(a, Kept(m.log, leaf), toks, AttemptsMore(ps[0], m.left, leaf, e, false),
               Kept(MatchMore(ps[0], m.left).log, leaf),
               m.left, leaf, entered);
    }
  }

  lemma {:induction false} EitherFair(ps: seq<Pattern<LeafDef>>, toks: seq<Tok>, leaf: LeafDef, entered: bool)
    requires WellFormedAll(ps) && HasName(leaf)
    ensures Fair(Attempts(Either(ps), toks, leaf, entered), Kept(Match(Either(ps), toks).log, leaf), toks, leaf,
                 entered)
    decreases ps, |toks|, 1
  {
    var outs := MatchOutcomes(ps, toks);
    if Shows(leaf, entered) {
      SomeFair(ps, toks, leaf, entered);
      if outs != [] { SomeKept(ps, toks, leaf, entered, outs[FirstMin(Sizes(outs))]); }
    } else if outs == [] {
      FairNothing(toks, leaf, entered);
    } else {
      OutcomeFair(ps, toks, leaf, entered, FirstMin(Sizes(outs)));
    }
  }

  lemma {:induction false} SomeFair(ps: seq<Pattern<LeafDef>>, toks: seq<Tok>, leaf: LeafDef, entered: bool)
    requires WellFormedAll(ps) && HasName(leaf) && Shows(leaf, entered)
    ensures var tried := AttemptsSome(ps, toks, leaf, entered); From(tried, toks, leaf) && Flags(tried, leaf, entered)
    decreases ps, |toks|, 0
  {
    if ps != [] {
      var a, b := Attempts(ps[0], toks, leaf, entered), AttemptsSome(ps[1..], toks, leaf, entered);
      AttemptsFair(ps[0], toks, leaf, entered);
      SomeFair(ps[1..], toks, leaf, entered);
      if a == [] { assert a + b == b; }
    }
  }

  lemma {:induction false} SomeKept(ps: seq<Pattern<LeafDef>>, toks: seq<Tok>, leaf: LeafDef, entered: bool, o: Outcome)
    requires WellFormedAll(ps) && HasName(leaf) && o in MatchOutcomes(ps, toks)
    ensures Subsequence(Flagged(Kept(o.log, leaf), entered), AttemptsSome(ps, toks, leaf, entered))
    decreases ps, |toks|, 0
  {
    if ps != [] {
      var a, b := Attempts(ps[0], toks, leaf, entered), AttemptsSome(ps[1..], toks, leaf, entered);
      var kept := Flagged(Kept(o.log, leaf), entered);
      if o in MatchOutcomes(ps[1..], toks) {
        SomeKept(ps[1..], toks, leaf, entered, o);
        SubsequenceConcat([], a, kept, b);
        assert [] + kept == kept;
      } else {
        AttemptsFair(ps[0], toks, leaf, entered);
        SubsequenceConcat(kept, a, [], b);
        assert kept + [] == kept;
      }
    }
  }

  lemma OutcomesCons(ps: seq<Pattern<LeafDef>>, toks: seq<Tok>, leaf: LeafDef, entered: bool)
    requires ps != [] && WellFormedAll(ps)
    ensures var own := OwnOutcome(Match(ps[0], toks));
            var tried := OwnAttempts(Match(ps[0], toks), Attempts(ps[0], toks, leaf, entered));
            && |own| == |tried| && MatchOutcomes(ps, toks) == own + MatchOutcomes(ps[1..], toks)
            && OutcomeAttempts(ps, toks, leaf, entered) == tried + OutcomeAttempts(ps[1..], toks, leaf, entered)
  {}

  lemma Shifted<T>(a: seq<T>, b: seq<T>, all: seq<T>, i: nat, k: nat)
    requires all == a + b && |a| + i == k < |all|
    ensures i < |b| && all[k] == b[i]
  {}

  lemma {:induction false} OutcomeFair(ps: seq<Pattern<LeafDef>>, toks: seq<Tok>, leaf: LeafDef, entered: bool, k: nat)
    requires WellFormedAll(ps) && HasName(leaf) && k < |MatchOutcomes(ps, toks)|
    ensures Fair(OutcomeAttempts(ps, toks, leaf, entered)[k], Kept(MatchOutcomes(ps, toks)[k].log, leaf), toks, leaf,
                 entered)
    decreases ps, |toks|, 0
  {
    if ps != [] {
      var m, a := Match(ps[0], toks), Attempts(ps[0], toks, leaf, entered);
      var own, i := OwnOutcome(m), k - |OwnOutcome(m)|;
      OutcomesCons(ps, toks, leaf, entered);
      if k < |own| {
        AttemptsFair(ps[0], toks, leaf, entered);
      } else {
        OutcomeFair(ps[1..], toks, leaf, entered, i);
        Shifted(own, MatchOutcomes(ps[1..], toks), MatchOutcomes(ps, toks), i, k);
        Shifted(OwnAttempts(m, a), OutcomeAttempts(ps[1..], toks, leaf, entered),
                OutcomeAttempts(ps, toks, leaf, entered), i, k);
      }
    }
  }

  // ---------- What attempts add up to ----------

  /** Where a counter stands that stood at `n`. */
  function Counter(n: int, tried: seq<Attempt>): int
    decreases |tried|
  {
    if tried == [] then n else Counter(if tried[0].first then 1 else n + 1, tried[1..])
  }

  /** The tokens of the attempts that found an entry. */
  function Next(tried: seq<Attempt>): seq<Tok> {
    if tried == [] then [] else (if tried[0].first then [] else [tried[0].tok]) + Next(tried[1..])
  }

  lemma {:induction false} NextConcat(a: seq<Attempt>, b: seq<Attempt>)
    ensures Next(a + b) == Next(a) + Next(b)
  {
    if a == [] {
      assert a + b == b;
    } else {
      ConcatTail(a, b);
      NextConcat(a[1..], b);
    }
  }

  lemma {:induction false} CounterConcat(n: int, a: seq<Attempt>, b: seq<Attempt>)
    ensures Counter(n, a + b) == Counter(Counter(n, a), b)
    decreases |a|
  {
    if a == [] {
      assert a + b == b;
    } else {
      ConcatTail(a, b);
      CounterConcat(if a[0].first then 1 else n + 1, a[1..], b);
    }
  }

  lemma {:induction false} NextIds(tried: seq<Attempt>, heap: seq<LeafDef>)
    requires AttemptIdsIn(tried, heap)
    ensures TokIdsIn(Next(tried), heap)
  {
    if tried != [] { NextIds(tried[1..], heap); }
  }

  function Number(v: Value): int {
    if v.Long? then v.number else 0
  }

  lemma {:induction false} AfterCounts(v: Value, tried: seq<Attempt>, leaf: LeafDef, heap: seq<LeafDef>)
    requires AttemptIdsIn(tried, heap) && leaf.GetValue().Long?
    ensures After(v, tried, leaf, heap) == if tried == [] then v else Long(Counter(Number(v), tried))
    decreases |tried|
  {
    if tried != [] { AfterCounts(Wrote(v, tried[0], leaf, heap), tried[1..], leaf, heap); }
  }

  /** What a list becomes with one attempt. */
  lemma ListWrote(v: Value, a: Attempt, leaf: LeafDef, heap: seq<LeafDef>)
    requires a.tok.id < |heap| && leaf.GetValue().StrList?
    ensures v.StrList? && (leaf.Option? || !a.first) ==>
      Wrote(v, a, leaf, heap) == StrList(v.texts + if a.first then [] else WordsAt(a.tok, leaf, heap))
    ensures a.first && (leaf.Option? ==> v == heap[a.tok.id].GetValue()) ==>
      Wrote(v, a, leaf, heap) == StrList(WordsAt(a.tok, leaf, heap))
  {
    if v.StrList? { assert v.texts + [] == v.texts; }
  }

  lemma {:induction false} AfterLists(l: seq<string>, tried: seq<Attempt>, leaf: LeafDef, heap: seq<LeafDef>)
    requires AttemptIdsIn(tried, heap) && leaf.GetValue().StrList? && (leaf.Option? || forall a <- tried :: !a.first)
    ensures TokIdsIn(Next(tried), heap)
    ensures After(StrList(l), tried, leaf, heap) == StrList(l + WordsOf(Next(tried), leaf, heap))
    decreases |tried|
  {
    NextIds(tried, heap);
    if tried == [] {
      assert l + [] == l;
    } else {
      var w := if tried[0].first then [] else WordsAt(tried[0].tok, leaf, heap);
      ListWrote(StrList(l), tried[0], leaf, heap);
      AfterLists(l + w, tried[1..], leaf, heap);
      ConcatAssoc(l, w, WordsOf(Next(tried[1..]), leaf, heap));
      NextWords(tried, leaf, heap);
    }
  }

  lemma NextWords(tried: seq<Attempt>, leaf: LeafDef, heap: seq<LeafDef>)
    requires tried != [] && AttemptIdsIn(tried, heap) && TokIdsIn(Next(tried), heap) && TokIdsIn(Next(tried[1..]), heap)
    ensures var w := if tried[0].first then [] else WordsAt(tried[0].tok, leaf, heap);
            WordsOf(Next(tried), leaf, heap) == w + WordsOf(Next(tried[1..]), leaf, heap)
  {
    if tried[0].first {
      assert Next(tried) == Next(tried[1..]);
    } else {
      Head(tried[0].tok, Next(tried[1..]));
    }
  }

  /** The tokens whose words a list holds. */
  function Heard(tried: seq<Attempt>): seq<Tok>
    requires tried != []
  {
    [tried[0].tok] + Next(tried)
  }

  /** The value that attempts from no entry leave. */
  function Final(tried: seq<Attempt>, leaf: LeafDef, heap: seq<LeafDef>): Value
    requires tried != [] && AttemptIdsIn(tried, heap)
  {
    NextIds(tried, heap);
    if leaf.GetValue().Long? then Long(Counter(0, tried)) else StrList(WordsOf(Heard(tried), leaf, heap))
  }

  lemma AfterIsFinal(v: Value, tried: seq<Attempt>, leaf: LeafDef, heap: seq<LeafDef>)
    requires AttemptIdsIn(tried, heap) && tried != [] && Flags(tried, leaf, false) && Accumulates(leaf.GetValue())
    requires leaf.Option? ==> v == heap[tried[0].tok.id].GetValue()
    ensures After(v, tried, leaf, heap) == Final(tried, leaf, heap)
  {
    NextIds(tried, heap);
    if leaf.GetValue().Long? {
      AfterCounts(v, tried, leaf, heap);
    } else {
      var t := tried[0].tok;
      ListWrote(v, tried[0], leaf, heap);
      AfterLists(WordsAt(t, leaf, heap), tried[1..], leaf, heap);
      assert Next(tried) == Next(tried[1..]);
      Head(t, Next(tried));
    }
  }

  // ---------- The entry of a leaf, for every pattern ----------

  lemma TakenHasName(p: Pattern<LeafDef>, toks: seq<Tok>, leaf: LeafDef)
    requires WellFormed(p) && NamedOptions(p) && Kept(Match(p, toks).log, leaf) != []
    ensures HasName(leaf)
  {
    MatchByLeaves(p, toks);
    KeptIffTaken(Match(p, toks).log, leaf);
    NamedLeaf(p, leaf);
  }

  lemma FreshStarts(s: State, leaf: LeafDef)
    requires Proper(s) && NoRepeat(s.left) && s.coll == []
    ensures Starts(s, s.heap, leaf) && !Entered(s, leaf)
  {
    forall x <- s.left ensures 0 <= x < |s.heap| && SameLeaf(s.heap[x], s.heap[x]) {
      InLeft(s, x);
    }
  }

  /** The attempts of a leaf from nothing collected. */
  ghost predicate Tried(tried: seq<Attempt>, kept: seq<Tok>, s: State, leaf: LeafDef)
    requires Sane(s)
  {
    && Fair(tried, kept, View(s.left, s.heap), leaf, false) && AttemptIdsIn(tried, s.heap)
    && (leaf.Option? ==> forall a <- tried :: a.first ==> a.tok.id == Cell(s, leaf))
  }

  lemma AttemptsTried(p: Pattern<LeafDef>, s: State, leaf: LeafDef)
    requires Suits(p, leaf) && HasName(leaf) && Proper(s) && NoRepeat(s.left) && s.coll == []
    ensures var toks := View(s.left, s.heap);
            Tried(Attempts(p, toks, leaf, false), Kept(Match(p, toks).log, leaf), s, leaf)
  {
    FreshStarts(s, leaf);
    MatchWrites(p, s, s.heap, leaf);
    AttemptsFair(p, View(s.left, s.heap), leaf, false);
  }

  /** What the entry holds, for every pattern. */
  lemma EntryHolds(p: Pattern<LeafDef>, s: State, leaf: LeafDef)
    requires Suits(p, leaf) && Proper(s) && NoRepeat(s.left) && s.coll == [] && MatchS(p, s).ok
    requires Kept(Match(p, View(s.left, s.heap)).log, leaf) != []
    ensures var r, tried := MatchS(p, s), Attempts(p, View(s.left, s.heap), leaf, false);
            var es := Entries(r.st.coll, r.st.heap);
            var j := FirstEntry(es, leaf.Name());
            tried != [] && AttemptIdsIn(tried, s.heap) && j < |es| && es[j].GetValue() == Final(tried, leaf, s.heap)
  {
    var r, toks := MatchS(p, s), View(s.left, s.heap);
    var tried := Attempts(p, toks, leaf, false);
    TakenHasName(p, toks, leaf);
    FreshStarts(s, leaf);
    StepWrites(p, s, s.heap, leaf);
    AttemptsFair(p, toks, leaf, false);
    if leaf.Option? { FirstIsCell(tried, s, leaf); }
    AfterIsFinal(CellValue(s, leaf), tried, leaf, s.heap);
    SameFirstEntry(r.st.coll, r.st.heap, leaf.Name());
  }

  lemma FirstIsCell(tried: seq<Attempt>, s: State, leaf: LeafDef)
    requires Proper(s) && tried != [] && tried[0].first && AttemptIdsIn(tried, s.heap)
    requires forall a <- tried :: a.first ==> a.tok.id == Cell(s, leaf)
    ensures CellValue(s, leaf) == s.heap[tried[0].tok.id].GetValue()
  {
    assert tried[0] in tried;
  }

  // ---------- When it is what the takes add up to ----------

  /**
   Nothing that was given up shows. A counter has had as many attempts as there are takes since it was last started. A
   list has had no attempts that found an entry but those that are kept.
   */
  predicate Undisturbed(tried: seq<Attempt>, n: nat, leaf: LeafDef) {
    n == 0 || if leaf.GetValue().Long? then Counter(0, tried) == n else |Next(tried)| == n - 1
  }

  /** Every token of the leaf has one word, as the values of options and positionals have. */
  ghost predicate OneWordEach(toks: seq<Tok>, leaf: LeafDef, heap: seq<LeafDef>) {
    forall t <- toks :: ChannelOf(t) == LeafChannel(leaf) ==> t.id < |heap| && |WordsAt(t, leaf, heap)| == 1
  }

  lemma {:induction false} WordsCounted(toks: seq<Tok>, leaf: LeafDef, heap: seq<LeafDef>)
    requires TokIdsIn(toks, heap) && forall t <- toks :: t.id < |heap| && |WordsAt(t, leaf, heap)| == 1
    ensures |WordsOf(toks, leaf, heap)| == |toks|
  {
    if toks != [] { WordsCounted(toks[1..], leaf, heap); }
  }

  lemma {:induction false} NextSubsequence(a: seq<Attempt>, b: seq<Attempt>)
    requires Subsequence(a, b)
    ensures Subsequence(Next(a), Next(b))
    decreases |b|
  {
    if a != [] {
      var x := if b[0].first then [] else [b[0].tok];
      if a[0] == b[0] {
        NextSubsequence(a[1..], b[1..]);
        SubsequenceRefl(x);
        SubsequenceConcat(x, x, Next(a[1..]), Next(b[1..]));
      } else {
        NextSubsequence(a, b[1..]);
        SubsequenceConcat([], x, Next(a), Next(b[1..]));
        assert [] + Next(a) == Next(a);
      }
    }
  }

  lemma {:induction false} SubsequenceLength<T>(a: seq<T>, b: seq<T>)
    requires Subsequence(a, b)
    ensures |a| <= |b| && (|a| == |b| ==> a == b)
    decreases |b|
  {
    if a != [] {
      if a[0] == b[0] { SubsequenceLength(a[1..], b[1..]); } else { SubsequenceLength(a, b[1..]); }
      assert a == [a[0]] + a[1..] && b == [b[0]] + b[1..];
    }
  }

  lemma {:induction false} NextFlagged(toks: seq<Tok>)
    ensures Next(Flagged(toks, true)) == toks
  {
    if toks != [] {
      assert Flagged(toks, true)[1..] == Flagged(toks[1..], true);
      NextFlagged(toks[1..]);
    }
  }

  lemma NextOfFresh(toks: seq<Tok>)
    requires toks != []
    ensures Next(Flagged(toks, false)) == toks[1..]
  {
    assert Flagged(toks, false)[1..] == Flagged(toks[1..], true);
    NextFlagged(toks[1..]);
  }

  /** All kept takes but the first are among the attempts that found an entry; the first is the first attempt. */
  lemma KeptIsHeard(tried: seq<Attempt>, kept: seq<Tok>, s: State, leaf: LeafDef)
    requires Proper(s) && Tried(tried, kept, s, leaf) && kept != []
    ensures tried != [] && tried[0].tok.id == kept[0].id && Subsequence(kept[1..], Next(tried))
  {
    var flagged := Flagged(kept, false);
    NextSubsequence(flagged, tried);
    NextOfFresh(kept);
    SubsequenceIn(flagged, tried);
    assert flagged[0] in flagged;
    var k :| 0 <= k < |tried| && tried[k] == flagged[0];
    assert tried[0] in tried;
  }

  lemma SameWords(a: Tok, b: Tok, rest: seq<Tok>, leaf: LeafDef, heap: seq<LeafDef>)
    requires a.id == b.id < |heap| && TokIdsIn(rest, heap)
    ensures WordsOf([a] + rest, leaf, heap) == WordsOf([b] + rest, leaf, heap)
  {
    Head(a, rest);
    Head(b, rest);
  }

  lemma ListIsKept(tried: seq<Attempt>, kept: seq<Tok>, s: State, leaf: LeafDef)
    requires Proper(s) && Tried(tried, kept, s, leaf) && kept != [] && TokIdsIn(kept, s.heap)
    requires |Next(tried)| == |kept| - 1
    ensures tried != [] && TokIdsIn(Heard(tried), s.heap)
    ensures WordsOf(Heard(tried), leaf, s.heap) == WordsOf(kept, leaf, s.heap)
  {
    KeptIsHeard(tried, kept, s, leaf);
    NextIds(tried, s.heap);
    SubsequenceLength(kept[1..], Next(tried));
    SameWords(tried[0].tok, kept[0], kept[1..], leaf, s.heap);
    assert kept == [kept[0]] + kept[1..];
  }

  lemma KeptIsList(tried: seq<Attempt>, kept: seq<Tok>, s: State, leaf: LeafDef)
    requires Proper(s) && Tried(tried, kept, s, leaf) && tried != [] && TokIdsIn(kept, s.heap)
    requires TokIdsIn(Heard(tried), s.heap)
    requires OneWordEach(View(s.left, s.heap), leaf, s.heap)
    requires WordsOf(Heard(tried), leaf, s.heap) == WordsOf(kept, leaf, s.heap)
    ensures |Next(tried)| == |kept| - 1
  {
    HeardCounted(tried, View(s.left, s.heap), leaf, s.heap);
    KeptCounted(tried, kept, s, leaf);
  }

  lemma {:induction false} NextFrom(tried: seq<Attempt>, toks: seq<Tok>, leaf: LeafDef)
    requires From(tried, toks, leaf)
    ensures forall t <- Next(tried) :: t in toks && ChannelOf(t) == LeafChannel(leaf)
  {
    if tried != [] {
      assert tried[0] in tried;
      NextFrom(tried[1..], toks, leaf);
    }
  }

  lemma HeardCounted(tried: seq<Attempt>, toks: seq<Tok>, leaf: LeafDef, heap: seq<LeafDef>)
    requires tried != [] && From(tried, toks, leaf) && OneWordEach(toks, leaf, heap) && TokIdsIn(Heard(tried), heap)
    ensures |WordsOf(Heard(tried), leaf, heap)| == 1 + |Next(tried)|
  {
    NextFrom(tried, toks, leaf);
    assert tried[0] in tried;
    WordsCounted(Heard(tried), leaf, heap);
  }

  lemma KeptCounted(tried: seq<Attempt>, kept: seq<Tok>, s: State, leaf: LeafDef)
    requires Proper(s) && Tried(tried, kept, s, leaf) && TokIdsIn(kept, s.heap)
    requires OneWordEach(View(s.left, s.heap), leaf, s.heap)
    ensures |WordsOf(kept, leaf, s.heap)| == |kept|
  {
    var flagged := Flagged(kept, false);
    SubsequenceIn(flagged, tried);
    forall t <- kept ensures t.id < |s.heap| && |WordsAt(t, leaf, s.heap)| == 1 {
      var k :| 0 <= k < |kept| && kept[k] == t;
      assert flagged[k] in flagged && flagged[k].tok == t;
    }
    WordsCounted(kept, leaf, s.heap);
  }

  lemma FinalIsSum(tried: seq<Attempt>, kept: seq<Tok>, s: State, leaf: LeafDef)
    requires Proper(s) && Tried(tried, kept, s, leaf) && kept != [] && tried != [] && TokIdsIn(kept, s.heap)
    requires Accumulates(leaf.GetValue())
    ensures Undisturbed(tried, |kept|, leaf) ==> Final(tried, leaf, s.heap) == Sum(kept, leaf, s.heap)
    ensures leaf.GetValue().Long? || OneWordEach(View(s.left, s.heap), leaf, s.heap) ==>
      (Undisturbed(tried, |kept|, leaf) <==> Final(tried, leaf, s.heap) == Sum(kept, leaf, s.heap))
  {
    NextIds(tried, s.heap);
    if leaf.GetValue().StrList? {
      var same := Final(tried, leaf, s.heap) == Sum(kept, leaf, s.heap);
      if |Next(tried)| == |kept| - 1 {
        ListIsKept(tried, kept, s, leaf);
      } else if OneWordEach(View(s.left, s.heap), leaf, s.heap) && same {
        KeptIsList(tried, kept, s, leaf);
      }
    }
  }
}
