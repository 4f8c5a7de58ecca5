/**
 An option that repeats and stands in several lines of a usage. Every line starts with the same leaf of argv. A counter
 ends with the count of the last line that came to take the option, matched or not. A list ends with its first word and
 all words that any line has added to it.
 */
module MatchAlternatives {
  import opened Sequences
  import opened Patterns
  import opened Matching
  import opened MatchStore
  import opened MatchRefinement
  import opened MatchAccumulate
  import opened MatchEntries
  import opened MatchTotals
  import opened MatchAttempts
  import opened MatchValues
  import opened MatchResults
  import opened MatchSteady

  // ---------- Steady lines ----------

  ghost predicate SteadyLines(lines: seq<Pattern<LeafDef>>, leaf: LeafDef) {
    lines == [] || (Steady(lines[0], leaf) && SteadyLines(lines[1..], leaf))
  }

  /** How often the last line takes the option that comes to take it at all. */
  function LastTries(lines: seq<Pattern<LeafDef>>, toks: seq<Tok>, leaf: LeafDef): nat
    requires WellFormedAll(lines)
  {
    if lines == [] then 0 else
    var n := LastTries(lines[1..], toks, leaf);
    if n >= 1 then n else |Tries(lines[0], toks, leaf)|
  }

  function AllButFirst<T>(s: seq<T>): seq<T> {
    if s == [] then [] else s[1..]
  }

  /** What each line takes after its first take, line by line. */
  function LaterTries(lines: seq<Pattern<LeafDef>>, toks: seq<Tok>, leaf: LeafDef): seq<Tok>
    requires WellFormedAll(lines)
  {
    if lines == [] then [] else AllButFirst(Tries(lines[0], toks, leaf)) + LaterTries(lines[1..], toks, leaf)
  }

  /** How often the lines take the option again, all in all. */
  function Again(lines: seq<Pattern<LeafDef>>, toks: seq<Tok>, leaf: LeafDef): nat
    requires WellFormedAll(lines)
  {
    if lines == [] then 0 else
    var n := |Tries(lines[0], toks, leaf)|;
    (if n > 1 then n - 1 else 0) + Again(lines[1..], toks, leaf)
  }

  lemma {:induction false} AgainIsLater(lines: seq<Pattern<LeafDef>>, toks: seq<Tok>, leaf: LeafDef)
    requires WellFormedAll(lines)
    ensures |LaterTries(lines, toks, leaf)| == Again(lines, toks, leaf)
  {
    if lines != [] { AgainIsLater(lines[1..], toks, leaf); }
  }

  /** A steady line makes the same attempts whether the name is entered or not, one after the other. */
  lemma LineAttempts(line: Pattern<LeafDef>, toks: seq<Tok>, leaf: LeafDef)
    requires WellFormed(line) && HasName(leaf) && leaf.Option? && Steady(line, leaf)
    ensures Attempts(line, toks, leaf, false) == Flagged(Tries(line, toks, leaf), false)
  {
    SteadyAttempts(line, toks, leaf, false);
    SameTries(line, toks, leaf);
  }

  /** What an option takes does not depend on its entry. */
  lemma {:induction false} SameTries(p: Pattern<LeafDef>, toks: seq<Tok>, leaf: LeafDef)
    requires WellFormed(p) && leaf.Option?
    ensures TokensOf(Attempts(p, toks, leaf, false)) == TokensOf(Attempts(p, toks, leaf, true))
    decreases p, |toks|, 0
  {
    match p
    case Leaf(_) =>
    case Required(ps) => SameTriesAll(ps, toks, leaf);
    case Optional(ps) => SameTriesEach(ps, toks, leaf);
    case OptionsShortcut(ps) => SameTriesEach(ps, toks, leaf);
    case OneOrMore(ps) => SameTriesMore(ps, toks, leaf, true);
    case Either(ps) => SameTriesSome(ps, toks, leaf);
  }

  lemma TokensConcat(a: seq<Attempt>, b: seq<Attempt>)
    ensures TokensOf(a + b) == TokensOf(a) + TokensOf(b)
  {}

  lemma {:induction false} SameTriesAll(ps: seq<Pattern<LeafDef>>, toks: seq<Tok>, leaf: LeafDef)
    requires WellFormedAll(ps) && leaf.Option?
    ensures TokensOf(AttemptsAll(ps, toks, leaf, false)) == TokensOf(AttemptsAll(ps, toks, leaf, true))
    decreases ps, |toks|, 0
  {
    if ps != [] {
      var m, e := Match(ps[0], toks), Takes(Match(ps[0], toks).log, leaf) > 0;
      SameTries(ps[0], toks, leaf);
      if m.ok {
        SameTriesAll(ps[1..], m.left, leaf);
        TokensConcat(Attempts(ps[0], toks, leaf, false), AttemptsAll(ps[1..], m.left, leaf, e));
        TokensConcat(Attempts(ps[0], toks, leaf, true), AttemptsAll(ps[1..], m.left, leaf, true));
      }
    }
  }

  lemma {:induction false} SameTriesEach(ps: seq<Pattern<LeafDef>>, toks: seq<Tok>, leaf: LeafDef)
    requires WellFormedAll(ps) && leaf.Option?
    ensures TokensOf(AttemptsEach(ps, toks, leaf, false)) == TokensOf(AttemptsEach(ps, toks, leaf, true))
    decreases ps, |toks|, 0
  {
    if ps != [] {
      var m, e := Match(ps[0], toks), Takes(Match(ps[0], toks).log, leaf) > 0;
      SameTries(ps[0], toks, leaf);
      SameTriesEach(ps[1..], m.left, leaf);
      TokensConcat(Attempts(ps[0], toks, leaf, false), AttemptsEach(ps[1..], m.left, leaf, e));
      TokensConcat(Attempts(ps[0], toks, leaf, true), AttemptsEach(ps[1..], m.left, leaf, true));
    }
  }

  lemma {:induction false} SameTriesMore(ps: seq<Pattern<LeafDef>>, toks: seq<Tok>, leaf: LeafDef, first: bool)
    requires WellFormed(OneOrMore(ps)) && leaf.Option?
    ensures TokensOf(AttemptsMore(ps[0], toks, leaf, false, first)) ==
            TokensOf(AttemptsMore(ps[0], toks, leaf, true, first))
    decreases ps, |toks|, if first then 2 else 1
  {
    var m, e := Match(ps[0], toks), Takes(Match(ps[0], toks).log, leaf) > 0;
    SameTries(ps[0], toks, leaf);
    MoreIs(ps, toks, leaf, false, first);
    MoreIs(ps, toks, leaf, true, first);
    if m.ok && (first || m.log != []) {
      SameTriesMore(ps, m.left, leaf, false);
      TokensConcat(Attempts(ps[0], toks, leaf, false), AttemptsMore(ps[0], m.left, leaf, e, false));
      TokensConcat(Attempts(ps[0], toks, leaf, true), AttemptsMore(ps[0], m.left, leaf, true, false));
    }
  }

  lemma {:induction false} SameTriesSome(ps: seq<Pattern<LeafDef>>, toks: seq<Tok>, leaf: LeafDef)
    requires WellFormedAll(ps) && leaf.Option?
    ensures TokensOf(AttemptsSome(ps, toks, leaf, false)) == TokensOf(AttemptsSome(ps, toks, leaf, true))
    decreases ps, |toks|, 0
  {
    if ps != [] {
      SameTries(ps[0], toks, leaf);
      SameTriesSome(ps[1..], toks, leaf);
      TokensConcat(Attempts(ps[0], toks, leaf, false), AttemptsSome(ps[1..], toks, leaf, false));
      TokensConcat(Attempts(ps[0], toks, leaf, true), AttemptsSome(ps[1..], toks, leaf, true));
    }
  }

  /** All lines together: where a counter stands, and what a list has heard. */
  lemma {:induction false} LinesAttempts(lines: seq<Pattern<LeafDef>>, toks: seq<Tok>, leaf: LeafDef, n: int)
    requires WellFormedAll(lines) && HasName(leaf) && leaf.Option? && SteadyLines(lines, leaf)
    ensures var tried, last := AttemptsSome(lines, toks, leaf, false), LastTries(lines, toks, leaf);
            Counter(n, tried) == (if last == 0 then n else last) && Next(tried) == LaterTries(lines, toks, leaf)
  {
    if lines != [] {
      var a, b := Attempts(lines[0], toks, leaf, false), AttemptsSome(lines[1..], toks, leaf, false);
      var own := Tries(lines[0], toks, leaf);
      LineAttempts(lines[0], toks, leaf);
      CounterOfFresh(n, own);
      if own == [] { assert a == []; } else { NextOfFresh(own); }
      LinesAttempts(lines[1..], toks, leaf, Counter(n, a));
      CounterConcat(n, a, b);
      NextConcat(a, b);
    }
  }

  // ---------- Usages of several lines ----------

  /** The alternatives themselves, or the group of them that a usage text is parsed to. */
  ghost predicate IsUsage(p: Pattern<LeafDef>, lines: seq<Pattern<LeafDef>>) {
    p == Either(lines) || p == Required([Either(lines)])
  }

  lemma UsageAttempts(p: Pattern<LeafDef>, lines: seq<Pattern<LeafDef>>, toks: seq<Tok>, leaf: LeafDef)
    requires WellFormed(p) && WellFormedAll(lines) && IsUsage(p, lines) && leaf.Option?
    ensures Attempts(p, toks, leaf, false) == AttemptsSome(lines, toks, leaf, false)
  {
    if p.Required? {
      var m, a := Match(Either(lines), toks), Attempts(Either(lines), toks, leaf, false);
      assert p.children[0] == Either(lines) && p.children[1..] == [];
      assert a + [] == a;
      assert AttemptsAll(p.children, toks, leaf, false) == a;
    }
  }

  /**
   The counter of an option in several lines is exact if and only if it is not taken, or the last line that came to take
   it, matched or not, took it as often as the chosen one.
   */
  lemma CountExactIff(p: Pattern<LeafDef>, lines: seq<Pattern<LeafDef>>, s: State, leaf: LeafDef)
    requires Suits(p, leaf) && WellFormedAll(lines) && IsUsage(p, lines) && SteadyLines(lines, leaf)
    requires leaf.Option? && leaf.GetValue().Long?
    requires Proper(s) && NoRepeat(s.left) && s.coll == [] && MatchS(p, s).ok
    ensures var r, toks := MatchS(p, s), View(s.left, s.heap);
            var es, log := Entries(r.st.coll, r.st.heap), Match(p, toks).log;
            var j := FirstEntry(es, leaf.Name());
            && TokIdsIn(Kept(log, leaf), s.heap)
            && (j < |es| ==> es[j].GetValue() == Long(LastTries(lines, toks, leaf)))
            && (Exact(es, log, leaf, s.heap) <==>
                  Takes(log, leaf) == 0 || LastTries(lines, toks, leaf) == Takes(log, leaf))
  {
    var toks := View(s.left, s.heap);
    ExactIff(p, s, leaf);
    EntriesOfName(p, s, leaf);
    if Kept(Match(p, toks).log, leaf) != [] {
      TakenHasName(p, toks, leaf);
      EntryHolds(p, s, leaf);
      UsageAttempts(p, lines, toks, leaf);
      LinesAttempts(lines, toks, leaf, 0);
      AttemptsFair(p, toks, leaf, false);
      StartsCounted(Attempts(p, toks, leaf, false), leaf);
    }
  }

  lemma StartsCounted(tried: seq<Attempt>, leaf: LeafDef)
    requires tried != [] && Flags(tried, leaf, false)
    ensures Counter(0, tried) >= 1
  {
    CounterGrows(1, tried[1..]);
  }

  lemma {:induction false} CounterGrows(n: int, tried: seq<Attempt>)
    requires n >= 1
    ensures Counter(n, tried) >= 1
    decreases |tried|
  {
    if tried != [] { CounterGrows(if tried[0].first then 1 else n + 1, tried[1..]); }
  }

  /**
   The list of an option in several lines holds the words of its first token and, line by line, of what each line takes
   after its first take.
   */
  lemma ListHears(p: Pattern<LeafDef>, lines: seq<Pattern<LeafDef>>, s: State, leaf: LeafDef)
    requires Suits(p, leaf) && WellFormedAll(lines) && IsUsage(p, lines) && SteadyLines(lines, leaf)
    requires leaf.Option? && leaf.GetValue().StrList?
    requires Proper(s) && NoRepeat(s.left) && s.coll == [] && MatchS(p, s).ok
    requires Kept(Match(p, View(s.left, s.heap)).log, leaf) != []
    ensures var r, toks := MatchS(p, s), View(s.left, s.heap);
            var es, mine := Entries(r.st.coll, r.st.heap), Proj(toks, LeafChannel(leaf));
            var j := FirstEntry(es, leaf.Name());
            && j < |es| && mine != [] && TokIdsIn([mine[0]] + LaterTries(lines, toks, leaf), s.heap)
            && es[j].GetValue() == StrList(WordsOf([mine[0]] + LaterTries(lines, toks, leaf), leaf, s.heap))
  {
    var toks := View(s.left, s.heap);
    var tried, mine := Attempts(p, toks, leaf, false), Proj(toks, LeafChannel(leaf));
    EntryHolds(p, s, leaf);
    TakenHasName(p, toks, leaf);
    AttemptsTried(p, s, leaf);
    assert tried[0] in tried;
    UsageAttempts(p, lines, toks, leaf);
    LinesAttempts(lines, toks, leaf, 0);
    NextIds(tried, s.heap);
    SameWords(tried[0].tok, mine[0], Next(tried), leaf, s.heap);
  }

  /**
   It is exact if and only if the option is not taken, or the lines take it again, all in all, no more often than the
   chosen one does: no other line came to take it twice.
   */
  lemma ListExactIff(p: Pattern<LeafDef>, lines: seq<Pattern<LeafDef>>, s: State, leaf: LeafDef)
    requires Suits(p, leaf) && WellFormedAll(lines) && IsUsage(p, lines) && SteadyLines(lines, leaf)
    requires Proper(s) && NoRepeat(s.left) && s.coll == [] && MatchS(p, s).ok
    requires leaf.Option? && leaf.GetValue().StrList? && OneWordEach(View(s.left, s.heap), leaf, s.heap)
    ensures var r, toks := MatchS(p, s), View(s.left, s.heap);
            var es, log := Entries(r.st.coll, r.st.heap), Match(p, toks).log;
            && TokIdsIn(Kept(log, leaf), s.heap)
            && (Exact(es, log, leaf, s.heap) <==>
                  Takes(log, leaf) == 0 || Again(lines, toks, leaf) == Takes(log, leaf) - 1)
  {
    var toks := View(s.left, s.heap);
    ExactIff(p, s, leaf);
    AgainIsLater(lines, toks, leaf);
    if Kept(Match(p, toks).log, leaf) != [] {
      TakenHasName(p, toks, leaf);
      UsageAttempts(p, lines, toks, leaf);
      LinesAttempts(lines, toks, leaf, 0);
    }
  }

  // ---------- Options in no alternative ----------

  /** The leaf is in no `Either`. */
  ghost predicate Unsplit(p: Pattern<LeafDef>, leaf: LeafDef)
    decreases p, 1
  {
    leaf !in Leaves(p) || p.Leaf? || (!p.Either? && UnsplitAll(p.children, leaf))
  }

  ghost predicate UnsplitAll(ps: seq<Pattern<LeafDef>>, leaf: LeafDef)
    decreases ps, 0
  {
    ps == [] || (Unsplit(ps[0], leaf) && UnsplitAll(ps[1..], leaf))
  }

  /**
   The takes of parts that are given up while the leaf is already entered. A part that is given up before that wastes
   nothing, since the counter starts again.
   */
  ghost function Wasted(p: Pattern<LeafDef>, toks: seq<Tok>, leaf: LeafDef, entered: bool): nat
    requires WellFormed(p)
    decreases p, |toks|, 0
  {
    if leaf !in Leaves(p) then 0 else
    match p
    case Leaf(_) => 0
    case Required(ps) =>
      if MatchAll(ps, toks).ok then WastedAll(ps, toks, leaf, entered)
      else if entered then |AttemptsAll(ps, toks, leaf, true)| else 0
    case Optional(ps) => WastedEach(ps, toks, leaf, entered)
    case OptionsShortcut(ps) => WastedEach(ps, toks, leaf, entered)
    case OneOrMore(ps) => WastedMore(ps[0], toks, leaf, entered, true)
    case Either(_) => 0
  }

  ghost function WastedAll(ps: seq<Pattern<LeafDef>>, toks: seq<Tok>, leaf: LeafDef, entered: bool): nat
    requires WellFormedAll(ps)
    decreases ps, |toks|, 0
  {
    if ps == [] then 0 else
    var m := Match(ps[0], toks);
    Wasted(ps[0], toks, leaf, entered) + WastedAll(ps[1..], m.left, leaf, entered || Takes(m.log, leaf) > 0)
  }

  ghost function WastedEach(ps: seq<Pattern<LeafDef>>, toks: seq<Tok>, leaf: LeafDef, entered: bool): nat
    requires WellFormedAll(ps)
    decreases ps, |toks|, 0
  {
    if ps == [] then 0 else
    var m := Match(ps[0], toks);
    Wasted(ps[0], toks, leaf, entered) + WastedEach(ps[1..], m.left, leaf, entered || Takes(m.log, leaf) > 0)
  }

  /** Every round counts, and the last one too. */
  ghost function WastedMore(p: Pattern<LeafDef>, toks: seq<Tok>, leaf: LeafDef, entered: bool, first: bool): nat
    requires WellFormed(p)
    decreases p, |toks|, if first then 2 else 1
  {
    var m := Match(p, toks);
    Wasted(p, toks, leaf, entered) +
    if m.ok && (first || m.log != []) then WastedMore(p, m.left, leaf, entered || Takes(m.log, leaf) > 0, false) else 0
  }

  /** What `w` wasted takes mean for a counter that stands at `n`. */
  ghost predicate Wastes(tried: seq<Attempt>, kept: nat, w: nat, entered: bool) {
    if entered then |tried| == kept + w && forall a <- tried :: !a.first
    else if kept == 0 then w == 0
    else forall n :: Counter(n, tried) == kept + w
  }

  lemma {:induction false} CounterAdds(n: int, tried: seq<Attempt>)
    requires forall a <- tried :: !a.first
    ensures Counter(n, tried) == n + |tried|
    decreases |tried|
  {
    if tried != [] {
      assert tried[0] in tried;
      CounterAdds(n + 1, tried[1..]);
    }
  }

  lemma WastesThen(a: seq<Attempt>, k: nat, w: nat, b: seq<Attempt>, l: nat, v: nat, entered: bool)
    requires Wastes(a, k, w, entered) && Wastes(b, l, v, entered || k > 0)
    ensures Wastes(a + b, k + l, w + v, entered)
  {
    if !entered && k + l > 0 {
      forall n ensures Counter(n, a + b) == k + l + w + v {
        CounterConcat(n, a, b);
        if k > 0 { CounterAdds(k + w, b); }
      }
    }
  }

  lemma {:induction false} AttemptsWaste(p: Pattern<LeafDef>, toks: seq<Tok>, leaf: LeafDef, entered: bool)
    requires WellFormed(p) && HasName(leaf) && leaf.Option? && Unsplit(p, leaf)
    ensures Wastes(Attempts(p, toks, leaf, entered), Takes(Match(p, toks).log, leaf), Wasted(p, toks, leaf, entered),
                   entered)
    decreases p, |toks|, 0
  {
    if leaf !in Leaves(p) {
      AbsentAttempts(p, toks, leaf, entered);
      AbsentKept(p, toks, leaf);
    } else {
      match p
      case Leaf(_) => if Pick(leaf, toks) < |toks| { KeptOne(Take(leaf, toks[Pick(leaf, toks)]), leaf); }
      case Required(ps) => RequiredWastes(ps, toks, leaf, entered);
      case Optional(ps) => EachWaste(ps, toks, leaf, entered);
      case OptionsShortcut(ps) => EachWaste(ps, toks, leaf, entered);
      case OneOrMore(ps) => MoreWaste(ps, toks, leaf, entered, true);
    }
  }

  lemma {:induction false} RequiredWastes(ps: seq<Pattern<LeafDef>>, toks: seq<Tok>, leaf: LeafDef, entered: bool)
    requires WellFormedAll(ps) && HasName(leaf) && leaf.Option? && UnsplitAll(ps, leaf) && leaf in LeavesAll(ps)
    ensures var p := Required(ps);
            Wastes(Attempts(p, toks, leaf, entered), Takes(Match(p, toks).log, leaf), Wasted(p, toks, leaf, entered),
                   entered)
    decreases ps, |toks|, 1
  {
    if MatchAll(ps, toks).ok { AllWaste(ps, toks, leaf, entered); } else { AllFair(ps, toks, leaf, entered); }
  }

  lemma {:induction false} AllWaste(ps: seq<Pattern<LeafDef>>, toks: seq<Tok>, leaf: LeafDef, entered: bool)
    requires WellFormedAll(ps) && HasName(leaf) && leaf.Option? && UnsplitAll(ps, leaf) && MatchAll(ps, toks).ok
    ensures var log := MatchAll(ps, toks).log;
            Wastes(AttemptsAll(ps, toks, leaf, entered), Takes(log, leaf), WastedAll(ps, toks, leaf, entered), entered)
    decreases ps, |toks|, 0
  {
    if ps != [] {
      var m, e := Match(ps[0], toks), entered || Takes(Match(ps[0], toks).log, leaf) > 0;
      var n := MatchAll(ps[1..], m.left);
      AttemptsWaste(ps[0], toks, leaf, entered);
      AllWaste(ps[1..], m.left, leaf, e);
      KeptConcat(m.log, n.log, leaf);
      WastesThen(Attempts(ps[0], toks, leaf, entered), Takes(m.log, leaf), Wasted(ps[0], toks, leaf, entered),
                 AttemptsAll(ps[1..], m.left, leaf, e), Takes(n.log, leaf),
                 WastedAll(ps[1..], m.left, leaf, e), entered);
    }
  }

  lemma {:induction false} EachWaste(ps: seq<Pattern<LeafDef>>, toks: seq<Tok>, leaf: LeafDef, entered: bool)
    requires WellFormedAll(ps) && HasName(leaf) && leaf.Option? && UnsplitAll(ps, leaf)
    ensures var log := MatchEach(ps, toks).log;
            Wastes(AttemptsEach(ps, toks, leaf, entered), Takes(log, leaf), WastedEach(ps, toks, leaf, entered),
                   entered)
    decreases ps, |toks|, 0
  {
    if ps != [] {
      var m, e := Match(ps[0], toks), entered || Takes(Match(ps[0], toks).log, leaf) > 0;
      var n := MatchEach(ps[1..], m.left);
      AttemptsWaste(ps[0], toks, leaf, entered);
      EachWaste(ps[1..], m.left, leaf, e);
      KeptConcat(m.log, n.log, leaf);
      WastesThen(Attempts(ps[0], toks, leaf, entered), Takes(m.log, leaf), Wasted(ps[0], toks, leaf, entered),
                 AttemptsEach(ps[1..], m.left, leaf, e), Takes(n.log, leaf),
                 WastedEach(ps[1..], m.left, leaf, e), entered);
    }
  }

  lemma {:induction false} MoreWaste(
    ps: seq<Pattern<LeafDef>>, toks: seq<Tok>, leaf: LeafDef, entered: bool, first: bool)
    requires WellFormed(OneOrMore(ps)) && HasName(leaf) && leaf.Option? && UnsplitAll(ps, leaf)
    ensures var log := MatchMore(ps[0], toks).log;
            Wastes(AttemptsMore(ps[0], toks, leaf, entered, first), Takes(log, leaf),
                   WastedMore(ps[0], toks, leaf, entered, first), entered)
    decreases ps, |toks|, if first then 2 else 1
  {
    var m, e := Match(ps[0], toks), entered || Takes(Match(ps[0], toks).log, leaf) > 0;
    AttemptsWaste(ps[0], toks, leaf, entered);
    MoreIs(ps, toks, leaf, entered, first);
    if m.ok && (first || m.log != []) {
      MoreWaste(ps, m.left, leaf, e, false);
      WastesThen(Attempts(ps[0], toks, leaf, entered), Takes(m.log, leaf), Wasted(ps[0], toks, leaf, entered),
                 AttemptsMore(ps[0], m.left, leaf, e, false), Takes(MatchMore(ps[0], m.left).log, leaf),
                 WastedMore(ps[0], m.left, leaf, e, false), entered);
    }
  }

  lemma CountsWaste(p: Pattern<LeafDef>, toks: seq<Tok>, leaf: LeafDef)
    requires WellFormed(p) && NamedOptions(p) && Unsplit(p, leaf) && leaf.Option?
    requires Kept(Match(p, toks).log, leaf) != []
    ensures Counter(0, Attempts(p, toks, leaf, false)) == Takes(Match(p, toks).log, leaf) + Wasted(p, toks, leaf, false)
  {
    TakenHasName(p, toks, leaf);
    AttemptsWaste(p, toks, leaf, false);
  }

  /**
   The counter of an option in no alternative holds its takes and those that were wasted, so it is exact if and only if
   it is not taken, or none was wasted.
   */
  lemma WasteExactIff(p: Pattern<LeafDef>, s: State, leaf: LeafDef)
    requires Suits(p, leaf) && Unsplit(p, leaf) && leaf.Option? && leaf.GetValue().Long?
    requires Proper(s) && NoRepeat(s.left) && s.coll == [] && MatchS(p, s).ok
    ensures var r, toks := MatchS(p, s), View(s.left, s.heap);
            var es, log := Entries(r.st.coll, r.st.heap), Match(p, toks).log;
            var j := FirstEntry(es, leaf.Name());
            && TokIdsIn(Kept(log, leaf), s.heap)
            && (j < |es| ==> es[j].GetValue() == Long(Takes(log, leaf) + Wasted(p, toks, leaf, false)))
            && (Exact(es, log, leaf, s.heap) <==> Takes(log, leaf) == 0 || Wasted(p, toks, leaf, false) == 0)
  {
    var toks := View(s.left, s.heap);
    ExactIff(p, s, leaf);
    EntriesOfName(p, s, leaf);
    if Kept(Match(p, toks).log, leaf) != [] {
      CountsWaste(p, toks, leaf);
      EntryHolds(p, s, leaf);
    }
  }
}
