/**
 Conditions on the pattern alone under which nothing that a match gives up shows in the entry of a leaf.
 */
module MatchSteady {
  import opened Sequences
  import opened Patterns
  import opened Matching
  import opened MatchStore
  import opened MatchRefinement
  import opened MatchAccumulate
  import opened MatchEntries
  import opened MatchTotals
  import opened MatchAttempts
  import opened MatchValues
  import opened MatchResults

  // ---------- Steady parts ----------

  /** When `p` fails, `leaf` has taken nothing. */
  ghost predicate Firm(p: Pattern<LeafDef>, leaf: LeafDef)
    decreases p, 1
  {
    leaf !in Leaves(p) ||
    match p
    case Leaf(_) => true
    case Required(ps) => FirmAll(ps, leaf)
    case OneOrMore(ps) => FirmAll(ps, leaf)
    case Optional(_) => true
    case OptionsShortcut(_) => true
    case Either(_) => false
  }

  ghost predicate FirmAll(ps: seq<Pattern<LeafDef>>, leaf: LeafDef)
    decreases ps, 0
  {
    ps == [] ||
    if leaf in Leaves(ps[0]) then Firm(ps[0], leaf) && InfallibleAll(ps[1..]) else FirmAll(ps[1..], leaf)
  }

  /**
   `leaf` is in no alternative, and in no part that is skipped or ends a repetition after `leaf` has taken something.
   */
  ghost predicate Steady(p: Pattern<LeafDef>, leaf: LeafDef)
    decreases p, 1
  {
    leaf !in Leaves(p) ||
    match p
    case Leaf(_) => true
    case Required(ps) => SteadyAll(ps, leaf, false)
    case Optional(ps) => SteadyAll(ps, leaf, true)
    case OptionsShortcut(ps) => SteadyAll(ps, leaf, true)
    case OneOrMore(ps) => SteadyAll(ps, leaf, true)
    case Either(_) => false
  }

  ghost predicate SteadyAll(ps: seq<Pattern<LeafDef>>, leaf: LeafDef, firm: bool)
    decreases ps, 0
  {
    ps == [] || (Steady(ps[0], leaf) && (firm ==> Firm(ps[0], leaf)) && SteadyAll(ps[1..], leaf, firm))
  }

  lemma OneFirm(ps: seq<Pattern<LeafDef>>, leaf: LeafDef)
    requires |ps| == 1
    ensures FirmAll(ps, leaf) <==> Firm(ps[0], leaf)
    ensures LeavesAll(ps) == Leaves(ps[0])
  {
    assert ps[1..] == [];
  }

  /** The tokens of attempts. */
  function TokensOf(tried: seq<Attempt>): (r: seq<Tok>)
    ensures |r| == |tried| && forall k :: 0 <= k < |r| ==> r[k] == tried[k].tok
  {
    seq(|tried|, k requires 0 <= k < |tried| => tried[k].tok)
  }

  /** What a part takes of the leaf before it ends, well or badly. */
  function Tries(p: Pattern<LeafDef>, toks: seq<Tok>, leaf: LeafDef): seq<Tok>
    requires WellFormed(p)
  {
    TokensOf(Attempts(p, toks, leaf, true))
  }

  /** Attempts that are made one after the other. */
  ghost predicate Straight(tried: seq<Attempt>, entered: bool) {
    tried == Flagged(TokensOf(tried), entered)
  }

  lemma StraightThen(a: seq<Attempt>, kept: seq<Tok>, b: seq<Attempt>, entered: bool)
    requires a == Flagged(kept, entered) && Straight(b, entered || |kept| > 0)
    ensures Straight(a + b, entered)
  {
    var k, l := TokensOf(a), TokensOf(b);
    assert TokensOf(a + b) == k + l && k == kept;
    FlaggedConcat(k, l, entered);
  }

  lemma FlaggedIsStraight(kept: seq<Tok>, entered: bool)
    ensures Straight(Flagged(kept, entered), entered) && TokensOf(Flagged(kept, entered)) == kept
  {}

  /** A pattern without the leaf makes no attempts. */
  lemma {:induction false} AbsentAttempts(p: Pattern<LeafDef>, toks: seq<Tok>, leaf: LeafDef, entered: bool)
    requires WellFormed(p) && leaf !in Leaves(p)
    ensures Attempts(p, toks, leaf, entered) == []
    decreases p, |toks|, 0
  {
    match p
    case Leaf(_) =>
    case Required(ps) => AbsentAll(ps, toks, leaf, entered);
    case Optional(ps) => AbsentEach(ps, toks, leaf, entered);
    case OptionsShortcut(ps) => AbsentEach(ps, toks, leaf, entered);
    case OneOrMore(ps) => AbsentMore(ps, toks, leaf, entered, true);
    case Either(ps) =>
      var outs, tried := MatchOutcomes(ps, toks), OutcomeAttempts(ps, toks, leaf, entered);
      AbsentSome(ps, toks, leaf, entered);
      if outs != [] { assert tried[FirstMin(Sizes(outs))] in tried; }
  }

  lemma {:induction false} AbsentAll(ps: seq<Pattern<LeafDef>>, toks: seq<Tok>, leaf: LeafDef, entered: bool)
    requires WellFormedAll(ps) && leaf !in LeavesAll(ps)
    ensures AttemptsAll(ps, toks, leaf, entered) == []
    decreases ps, |toks|, 0
  {
    if ps != [] {
      var m := Match(ps[0], toks);
      AbsentAttempts(ps[0], toks, leaf, entered);
      AbsentAll(ps[1..], m.left, leaf, entered || Takes(m.log, leaf) > 0);
    }
  }

  lemma {:induction false} AbsentEach(ps: seq<Pattern<LeafDef>>, toks: seq<Tok>, leaf: LeafDef, entered: bool)
    requires WellFormedAll(ps) && leaf !in LeavesAll(ps)
    ensures AttemptsEach(ps, toks, leaf, entered) == []
    decreases ps, |toks|, 0
  {
    if ps != [] {
      var m := Match(ps[0], toks);
      AbsentAttempts(ps[0], toks, leaf, entered);
      AbsentEach(ps[1..], m.left, leaf, entered || Takes(m.log, leaf) > 0);
    }
  }

  lemma {:induction false} AbsentMore(
    ps: seq<Pattern<LeafDef>>, toks: seq<Tok>, leaf: LeafDef, entered: bool, first: bool)
    requires WellFormed(OneOrMore(ps)) && leaf !in LeavesAll(ps)
    ensures AttemptsMore(ps[0], toks, leaf, entered, first) == []
    decreases ps, |toks|, if first then 2 else 1
  {
    var m := Match(ps[0], toks);
    AbsentAttempts(ps[0], toks, leaf, entered);
    if m.ok && (first || m.log != []) { AbsentMore(ps, m.left, leaf, entered || Takes(m.log, leaf) > 0, false); }
  }

  lemma {:induction false} AbsentSome(ps: seq<Pattern<LeafDef>>, toks: seq<Tok>, leaf: LeafDef, entered: bool)
    requires WellFormedAll(ps) && leaf !in LeavesAll(ps)
    ensures AttemptsSome(ps, toks, leaf, entered) == []
    ensures forall tried <- OutcomeAttempts(ps, toks, leaf, entered) :: tried == []
    decreases ps, |toks|, 0
  {
    if ps != [] {
      AbsentAttempts(ps[0], toks, leaf, entered);
      AbsentSome(ps[1..], toks, leaf, entered);
    }
  }

  /** So it takes nothing for it. */
  lemma AbsentKept(p: Pattern<LeafDef>, toks: seq<Tok>, leaf: LeafDef)
    requires WellFormed(p) && HasName(leaf) && leaf !in Leaves(p)
    ensures Kept(Match(p, toks).log, leaf) == []
  {
    AbsentAttempts(p, toks, leaf, false);
    AttemptsFair(p, toks, leaf, false);
    assert |Flagged(Kept(Match(p, toks).log, leaf), false)| == 0;
  }

  /** A steady part that matches makes the attempts that it keeps. One that does not makes none, if it is firm. */
  ghost predicate Steadily(tried: seq<Attempt>, o: Outcome, leaf: LeafDef, entered: bool, firm: bool) {
    && (o.ok ==> tried == Flagged(Kept(o.log, leaf), entered))
    && (!o.ok && firm ==> tried == [])
    && (Shows(leaf, entered) ==> Straight(tried, entered))
  }

  lemma {:induction false} SteadyAttempts(p: Pattern<LeafDef>, toks: seq<Tok>, leaf: LeafDef, entered: bool)
    requires WellFormed(p) && HasName(leaf) && Steady(p, leaf)
    ensures Steadily(Attempts(p, toks, leaf, entered), Match(p, toks), leaf, entered, Firm(p, leaf))
    decreases p, |toks|, 0
  {
    if leaf !in Leaves(p) {
      AbsentAttempts(p, toks, leaf, entered);
      AbsentKept(p, toks, leaf);
      FlaggedIsStraight([], entered);
    } else {
      match p
      case Leaf(_) => if Pick(leaf, toks) < |toks| { KeptOne(Take(leaf, toks[Pick(leaf, toks)]), leaf); }
      case Required(ps) => SteadyAllAttempts(ps, toks, leaf, entered);
      case Optional(ps) => SteadyEachAttempts(ps, toks, leaf, entered);
      case OptionsShortcut(ps) => SteadyEachAttempts(ps, toks, leaf, entered);
      case OneOrMore(ps) =>
        OneFirm(ps, leaf);
        SteadyMoreAttempts(ps, toks, leaf, entered, true);
    }
  }

  lemma {:induction false} SteadyAllAttempts(ps: seq<Pattern<LeafDef>>, toks: seq<Tok>, leaf: LeafDef, entered: bool)
    requires WellFormedAll(ps) && HasName(leaf) && SteadyAll(ps, leaf, false)
    ensures Steadily(AttemptsAll(ps, toks, leaf, entered), MatchAll(ps, toks), leaf, entered, FirmAll(ps, leaf))
    decreases ps, |toks|, 0
  {
    if ps == [] {
      FlaggedIsStraight([], entered);
    } else {
      var m, a := Match(ps[0], toks), Attempts(ps[0], toks, leaf, entered);
      var e := entered || Takes(m.log, leaf) > 0;
      SteadyAttempts(ps[0], toks, leaf, entered);
      if m.ok {
        var b, n := AttemptsAll(ps[1..], m.left, leaf, e), MatchAll(ps[1..], m.left);
        SteadyAllAttempts(ps[1..], m.left, leaf, e);
        if Shows(leaf, entered) { StraightThen(a, Kept(m.log, leaf), b, entered); }
        if n.ok {
          KeptConcat(m.log, n.log, leaf);
          FlaggedConcat(Kept(m.log, leaf), Kept(n.log, leaf), entered);
        } else if leaf !in Leaves(ps[0]) {
          AbsentAttempts(ps[0], toks, leaf, entered);
          AbsentKept(ps[0], toks, leaf);
        } else if InfallibleAll(ps[1..]) {
          InfallibleAllMatches(ps[1..], m.left);
        }
      } else {
        assert a + [] == a;
        if leaf !in Leaves(ps[0]) { AbsentAttempts(ps[0], toks, leaf, entered); }
      }
    }
  }

  lemma {:induction false} SteadyEachAttempts(ps: seq<Pattern<LeafDef>>, toks: seq<Tok>, leaf: LeafDef, entered: bool)
    requires WellFormedAll(ps) && HasName(leaf) && SteadyAll(ps, leaf, true)
    ensures AttemptsEach(ps, toks, leaf, entered) == Flagged(Kept(MatchEach(ps, toks).log, leaf), entered)
    decreases ps, |toks|, 0
  {
    if ps != [] {
      var m, e := Match(ps[0], toks), entered || Takes(Match(ps[0], toks).log, leaf) > 0;
      SteadyAttempts(ps[0], toks, leaf, entered);
      SteadyEachAttempts(ps[1..], m.left, leaf, e);
      KeptConcat(m.log, MatchEach(ps[1..], m.left).log, leaf);
      FlaggedConcat(Kept(m.log, leaf), Kept(MatchEach(ps[1..], m.left).log, leaf), entered);
      if !m.ok { assert Flagged(Kept(m.log, leaf), entered) == []; }
    }
  }

  lemma {:induction false} SteadyMoreAttempts(
    ps: seq<Pattern<LeafDef>>, toks: seq<Tok>, leaf: LeafDef, entered: bool, first: bool)
    requires WellFormed(OneOrMore(ps)) && HasName(leaf) && SteadyAll(ps, leaf, true)
    ensures AttemptsMore(ps[0], toks, leaf, entered, first) == Flagged(Kept(MatchMore(ps[0], toks).log, leaf), entered)
    decreases ps, |toks|, if first then 2 else 1
  {
    var m, e := Match(ps[0], toks), entered || Takes(Match(ps[0], toks).log, leaf) > 0;
    SteadyAttempts(ps[0], toks, leaf, entered);
    MoreIs(ps, toks, leaf, entered, first);
    if m.ok && (first || m.log != []) {
      SteadyMoreAttempts(ps, m.left, leaf, e, false);
      FlaggedConcat(Kept(m.log, leaf), Kept(MatchMore(ps[0], m.left).log, leaf), entered);
    } else if !m.ok {
      assert Flagged([], entered) == [];
    }
  }

  // ---------- Leaves that are entered once ----------

  /**
   `leaf` is entered exactly, if nothing is entered under its name before. An option may be in one alternative of an
   `Either`, and then nowhere else. A positional may be in all of them: it is collected in a new leaf each time.
   */
  ghost predicate Once(p: Pattern<LeafDef>, leaf: LeafDef)
    decreases p, 1
  {
    leaf !in Leaves(p) || Steady(p, leaf) ||
    match p
    case Leaf(_) => true
    case Required(ps) => OnceAll(ps, leaf, false)
    case Optional(ps) => OnceAll(ps, leaf, true)
    case OptionsShortcut(ps) => OnceAll(ps, leaf, true)
    case OneOrMore(_) => false
    case Either(ps) => OnceSome(ps, leaf)
  }

  /**
   The first part with `leaf` may give up a branch; a later one only if `leaf` is a positional and the later one is
   steady.
   */
  ghost predicate OnceAll(ps: seq<Pattern<LeafDef>>, leaf: LeafDef, firm: bool)
    decreases ps, 0
  {
    ps == [] ||
    if leaf !in Leaves(ps[0]) then OnceAll(ps[1..], leaf, firm)
    else Once(ps[0], leaf) && (leaf !in LeavesAll(ps[1..]) || (!leaf.Option? && SteadyAll(ps[1..], leaf, firm)))
  }

  ghost predicate OnceSome(ps: seq<Pattern<LeafDef>>, leaf: LeafDef)
    decreases ps, 0
  {
    ps == [] || (
      && Once(ps[0], leaf) && OnceSome(ps[1..], leaf)
      && (leaf !in Leaves(ps[0]) || !leaf.Option? || leaf !in LeavesAll(ps[1..])))
  }

  /** What is kept is what was attempted, or nothing is kept. */
  ghost predicate OnlyKept(tried: seq<Attempt>, kept: seq<Tok>) {
    kept == [] || tried == Flagged(kept, false)
  }

  lemma {:induction false} OnceAttempts(p: Pattern<LeafDef>, toks: seq<Tok>, leaf: LeafDef)
    requires WellFormed(p) && HasName(leaf) && Once(p, leaf)
    ensures OnlyKept(Attempts(p, toks, leaf, false), Kept(Match(p, toks).log, leaf))
    decreases p, |toks|, 0
  {
    if Match(p, toks).ok {
      if leaf !in Leaves(p) {
        AbsentKept(p, toks, leaf);
      } else if Steady(p, leaf) {
        SteadyAttempts(p, toks, leaf, false);
      } else {
        match p
        case Required(ps) => OnceAllAttempts(ps, toks, leaf);
        case Optional(ps) => OnceEachAttempts(ps, toks, leaf);
        case OptionsShortcut(ps) => OnceEachAttempts(ps, toks, leaf);
        case Either(ps) => OnceEitherAttempts(ps, toks, leaf);
      }
    }
  }

  /** A first part with the leaf, and a rest without it or, for a positional, a steady one. */
  lemma OnceThen(a: seq<Attempt>, k: seq<Tok>, b: seq<Attempt>, l: seq<Tok>, toks: seq<Tok>, leaf: LeafDef)
    requires OnlyKept(a, k) && Fair(a, k, toks, leaf, false)
    requires (b == [] && l == []) || (!leaf.Option? && b == Flagged(l, |k| > 0))
    ensures OnlyKept(a + b, k + l)
  {
    FlaggedConcat(k, l, false);
    if b == [] && l == [] { assert a + b == a && k + l == k; }
  }

  lemma {:induction false} OnceAllAttempts(ps: seq<Pattern<LeafDef>>, toks: seq<Tok>, leaf: LeafDef)
    requires WellFormedAll(ps) && HasName(leaf) && OnceAll(ps, leaf, false) && MatchAll(ps, toks).ok
    ensures OnlyKept(AttemptsAll(ps, toks, leaf, false), Kept(MatchAll(ps, toks).log, leaf))
    decreases ps, |toks|, 0
  {
    if ps != [] {
      var m, a, rest := Match(ps[0], toks), Attempts(ps[0], toks, leaf, false), ps[1..];
      var n, e := MatchAll(rest, m.left), Takes(m.log, leaf) > 0;
      KeptConcat(m.log, n.log, leaf);
      if leaf !in Leaves(ps[0]) {
        AbsentKept(ps[0], toks, leaf);
        AbsentAttempts(ps[0], toks, leaf, false);
        OnceAllAttempts(rest, m.left, leaf);
      } else {
        OnceAttempts(ps[0], toks, leaf);
        AttemptsFair(ps[0], toks, leaf, false);
        if leaf !in LeavesAll(rest) {
          AbsentAll(rest, m.left, leaf, e);
          AbsentKept(Required(rest), m.left, leaf);
        } else {
          SteadyAllAttempts(rest, m.left, leaf, e);
        }
        OnceThen(a, Kept(m.log, leaf), AttemptsAll(rest, m.left, leaf, e), Kept(n.log, leaf), toks, leaf);
      }
    }
  }

  lemma {:induction false} OnceEachAttempts(ps: seq<Pattern<LeafDef>>, toks: seq<Tok>, leaf: LeafDef)
    requires WellFormedAll(ps) && HasName(leaf) && OnceAll(ps, leaf, true)
    ensures OnlyKept(AttemptsEach(ps, toks, leaf, false), Kept(MatchEach(ps, toks).log, leaf))
    decreases ps, |toks|, 0
  {
    if ps != [] {
      var m, a, rest := Match(ps[0], toks), Attempts(ps[0], toks, leaf, false), ps[1..];
      var n, e := MatchEach(rest, m.left), Takes(m.log, leaf) > 0;
      KeptConcat(m.log, n.log, leaf);
      if leaf !in Leaves(ps[0]) {
        AbsentKept(ps[0], toks, leaf);
        AbsentAttempts(ps[0], toks, leaf, false);
        OnceEachAttempts(rest, m.left, leaf);
      } else {
        OnceAttempts(ps[0], toks, leaf);
        AttemptsFair(ps[0], toks, leaf, false);
        if leaf !in LeavesAll(rest) {
          AbsentEach(rest, m.left, leaf, e);
          AbsentKept(Optional(rest), m.left, leaf);
        } else {
          SteadyEachAttempts(rest, m.left, leaf, e);
        }
        OnceThen(a, Kept(m.log, leaf), AttemptsEach(rest, m.left, leaf, e), Kept(n.log, leaf), toks, leaf);
      }
    }
  }

  lemma {:induction false} OnceEitherAttempts(ps: seq<Pattern<LeafDef>>, toks: seq<Tok>, leaf: LeafDef)
    requires WellFormedAll(ps) && HasName(leaf) && OnceSome(ps, leaf)
    ensures OnlyKept(Attempts(Either(ps), toks, leaf, false), Kept(Match(Either(ps), toks).log, leaf))
    decreases ps, |toks|, 1
  {
    var outs := MatchOutcomes(ps, toks);
    if outs != [] {
      var k := FirstMin(Sizes(outs));
      if leaf.Option? { OnceSomeAttempts(ps, toks, leaf, outs[k]); } else { OnceOutcome(ps, toks, leaf, k); }
    }
  }

  /** At most one alternative has an option, so what the others do not attempt does not matter. */
  lemma {:induction false} OnceSomeAttempts(ps: seq<Pattern<LeafDef>>, toks: seq<Tok>, leaf: LeafDef, o: Outcome)
    requires WellFormedAll(ps) && HasName(leaf) && OnceSome(ps, leaf) && leaf.Option? && o in MatchOutcomes(ps, toks)
    ensures OnlyKept(AttemptsSome(ps, toks, leaf, false), Kept(o.log, leaf))
    decreases ps, |toks|, 0
  {
    if ps != [] {
      var a, b := Attempts(ps[0], toks, leaf, false), AttemptsSome(ps[1..], toks, leaf, false);
      if leaf !in Leaves(ps[0]) {
        AbsentAttempts(ps[0], toks, leaf, false);
        AbsentKept(ps[0], toks, leaf);
        if o in MatchOutcomes(ps[1..], toks) { OnceSomeAttempts(ps[1..], toks, leaf, o); }
        assert a + b == b;
      } else {
        AbsentSome(ps[1..], toks, leaf, false);
        OnceAttempts(ps[0], toks, leaf);
        if o in MatchOutcomes(ps[1..], toks) { AbsentOutcome(ps[1..], toks, leaf, o); }
        assert a + b == a;
      }
    }
  }

  lemma {:induction false} AbsentOutcome(ps: seq<Pattern<LeafDef>>, toks: seq<Tok>, leaf: LeafDef, o: Outcome)
    requires WellFormedAll(ps) && HasName(leaf) && leaf !in LeavesAll(ps) && o in MatchOutcomes(ps, toks)
    ensures Kept(o.log, leaf) == []
  {
    if ps != [] {
      AbsentKept(ps[0], toks, leaf);
      if o in MatchOutcomes(ps[1..], toks) { AbsentOutcome(ps[1..], toks, leaf, o); }
    }
  }

  lemma {:induction false} OnceOutcome(ps: seq<Pattern<LeafDef>>, toks: seq<Tok>, leaf: LeafDef, k: nat)
    requires WellFormedAll(ps) && HasName(leaf) && OnceSome(ps, leaf) && k < |MatchOutcomes(ps, toks)|
    ensures OnlyKept(OutcomeAttempts(ps, toks, leaf, false)[k], Kept(MatchOutcomes(ps, toks)[k].log, leaf))
    decreases ps, |toks|, 0
  {
    if ps != [] {
      var m, a := Match(ps[0], toks), Attempts(ps[0], toks, leaf, false);
      var own, i := OwnOutcome(m), k - |OwnOutcome(m)|;
      OutcomesCons(ps, toks, leaf, false);
      if k < |own| {
        OnceAttempts(ps[0], toks, leaf);
      } else {
        OnceOutcome(ps[1..], toks, leaf, i);
        Shifted(own, MatchOutcomes(ps[1..], toks), MatchOutcomes(ps, toks), i, k);
        Shifted(OwnAttempts(m, a), OutcomeAttempts(ps[1..], toks, leaf, false), OutcomeAttempts(ps, toks, leaf, false),
                i, k);
      }
    }
  }

  lemma {:induction false} CounterOnly(n: int, toks: seq<Tok>)
    ensures Counter(n, Flagged(toks, true)) == n + |toks|
    decreases |toks|
  {
    if toks != [] {
      assert Flagged(toks, true)[1..] == Flagged(toks[1..], true);
      CounterOnly(n + 1, toks[1..]);
    }
  }

  lemma CounterOfFresh(n: int, toks: seq<Tok>)
    ensures Counter(n, Flagged(toks, false)) == if toks == [] then n else |toks|
  {
    if toks != [] {
      assert Flagged(toks, false)[1..] == Flagged(toks[1..], true);
      CounterOnly(1, toks[1..]);
    }
  }

  /** A leaf that is entered once is entered exactly, whatever argv is. */
  lemma OnceIsClear(p: Pattern<LeafDef>, toks: seq<Tok>, leaf: LeafDef)
    requires WellFormed(p) && NamedOptions(p) && Once(p, leaf)
    ensures Clear(p, toks, leaf)
  {
    var kept := Kept(Match(p, toks).log, leaf);
    if kept != [] {
      TakenHasName(p, toks, leaf);
      OnceAttempts(p, toks, leaf);
      CounterOfFresh(0, kept);
      NextOfFresh(kept);
    }
  }

  /** So the entry of such a leaf holds the number of its takes, or their words in order. */
  lemma AccumulatesExactly(p: Pattern<LeafDef>, s: State, leaf: LeafDef)
    requires Suits(p, leaf) && Once(p, leaf) && Proper(s) && NoRepeat(s.left) && s.coll == [] && MatchS(p, s).ok
    ensures var r, log := MatchS(p, s), Match(p, View(s.left, s.heap)).log;
            TokIdsIn(Kept(log, leaf), s.heap) && Exact(Entries(r.st.coll, r.st.heap), log, leaf, s.heap)
  {
    OnceIsClear(p, View(s.left, s.heap), leaf);
    ExactIff(p, s, leaf);
  }

  // ---------- Linear patterns are among these ----------

  lemma {:induction false} LinearIsSteady(p: Pattern<LeafDef>, leaf: LeafDef)
    ensures Linear(p) ==> Steady(p, leaf)
    ensures Atomic(p) ==> Firm(p, leaf)
    decreases p, 1
  {
    match p
    case Leaf(_) =>
    case Required(ps) => LinearAllIsSteady(ps, leaf);
    case Optional(ps) => LinearAllIsSteady(ps, leaf);
    case OptionsShortcut(ps) => LinearAllIsSteady(ps, leaf);
    case OneOrMore(ps) => LinearAllIsSteady(ps, leaf);
    case Either(_) =>
  }

  lemma {:induction false} LinearAllIsSteady(ps: seq<Pattern<LeafDef>>, leaf: LeafDef)
    ensures LinearAll(ps, false) ==> SteadyAll(ps, leaf, false)
    ensures LinearAll(ps, true) ==> SteadyAll(ps, leaf, true)
    ensures AtomicAll(ps) ==> FirmAll(ps, leaf)
    ensures InfallibleAll(ps) ==> FirmAll(ps, leaf)
    decreases ps, 0
  {
    if ps != [] {
      LinearIsSteady(ps[0], leaf);
      InfallibleIsFirm(ps[0], leaf);
      LinearAllIsSteady(ps[1..], leaf);
    }
  }

  lemma {:induction false} InfallibleIsFirm(p: Pattern<LeafDef>, leaf: LeafDef)
    ensures Infallible(p) ==> Firm(p, leaf)
    decreases p, 1
  {
    match p
    case Required(ps) => LinearAllIsSteady(ps, leaf);
    case OneOrMore(ps) => LinearAllIsSteady(ps, leaf);
    case Leaf(_) =>
    case Optional(_) =>
    case OptionsShortcut(_) =>
    case Either(_) =>
  }
}
