/**
 What the matcher accepts, against the declarative language of a pattern: concatenation, optional
 parts, repetition and union, over words of positionals in order and options in any order.
 */
module MatchLanguage {
  import opened Sequences
  import opened Patterns
  import opened Matching

  datatype Word = Word(pos: seq<Value>, opts: multiset<string>)

  const NO_WORD := Word([], multiset{})

  function Join(u: Word, v: Word): Word {
    Word(u.pos + v.pos, u.opts + v.opts)
  }

  // ---------- The language of a pattern ----------

  ghost predicate In(p: Pattern<LeafDef>, w: Word)
    decreases p, 0, 1
  {
    match p
    case Leaf(leaf) =>
      (match leaf
       case Argument(_, _) => |w.pos| == 1 && w.opts == multiset{}
       case Command(n, _) => w.pos == [Str(n)] && w.opts == multiset{}
       case Option(_, _, _, _) => w.pos == [] && w.opts == multiset{leaf.Name()})
    case Required(ps) => InAll(ps, w)
    case Optional(ps) => InEach(ps, w)
    case OptionsShortcut(ps) => InEach(ps, w)
    case OneOrMore(ps) => |ps| == 1 && exists n: nat :: n >= 1 && InPower(ps[0], n, w)
    case Either(ps) => InSome(ps, w)
  }

  ghost predicate InAll(ps: seq<Pattern<LeafDef>>, w: Word)
    decreases ps, 0, 0
  {
    if ps == [] then w == NO_WORD
    else exists u, v :: w == Join(u, v) && In(ps[0], u) && InAll(ps[1..], v)
  }

  ghost predicate InEach(ps: seq<Pattern<LeafDef>>, w: Word)
    decreases ps, 0, 0
  {
    if ps == [] then w == NO_WORD
    else exists u, v :: w == Join(u, v) && (u == NO_WORD || In(ps[0], u)) && InEach(ps[1..], v)
  }

  /** `n` words of `p`, one after the other. */
  ghost predicate InPower(p: Pattern<LeafDef>, n: nat, w: Word)
    decreases p, n, 0
  {
    if n == 0 then w == NO_WORD
    else exists u, v :: w == Join(u, v) && In(p, u) && InPower(p, n - 1, v)
  }

  ghost predicate InSome(ps: seq<Pattern<LeafDef>>, w: Word)
    decreases ps, 0, 0
  {
    ps != [] && (In(ps[0], w) || InSome(ps[1..], w))
  }

  // ---------- The word a list of tokens spells ----------

  function TokWord(t: Tok): Word {
    if t.Pos? then Word([t.value], multiset{}) else Word([], multiset{t.name})
  }

  function WordOf(toks: seq<Tok>): Word {
    if toks == [] then NO_WORD else
    Join(TokWord(toks[0]), WordOf(toks[1..]))
  }

  lemma JoinAssoc(u: Word, v: Word, w: Word)
    ensures Join(Join(u, v), w) == Join(u, Join(v, w))
  {
    ConcatAssoc(u.pos, v.pos, w.pos);
  }

  lemma JoinUnit(u: Word)
    ensures Join(NO_WORD, u) == u == Join(u, NO_WORD)
  {}

  lemma {:induction false} WordOfConcat(a: seq<Tok>, b: seq<Tok>)
    ensures WordOf(a + b) == Join(WordOf(a), WordOf(b))
  {
    if a == [] {
      assert a + b == b;
      JoinUnit(WordOf(b));
    } else {
      assert (a + b)[0] == a[0] && (a + b)[1..] == a[1..] + b;
      WordOfConcat(a[1..], b);
      assert WordOf(a + b) == Join(TokWord(a[0]), Join(WordOf(a[1..]), WordOf(b)));
      JoinAssoc(TokWord(a[0]), WordOf(a[1..]), WordOf(b));
    }
  }

  function TakenWord(log: seq<Take>): Word {
    WordOf(Taken(log))
  }

  lemma TakenWordConcat(a: seq<Take>, b: seq<Take>)
    ensures TakenWord(a + b) == Join(TakenWord(a), TakenWord(b))
  {
    TakenConcat(a, b);
    WordOfConcat(Taken(a), Taken(b));
  }

  // ---------- Soundness ----------

  lemma TakenOne(leaf: LeafDef, t: Tok)
    ensures TakenWord([Take(leaf, t)]) == TokWord(t)
  {
    var log := [Take(leaf, t)];
    assert log[1..] == [] && [t][1..] == [];
    assert Taken(log) == [t] + Taken(log[1..]) == [t];
    assert WordOf([t]) == Join(TokWord(t), WordOf([t][1..]));
    JoinUnit(TokWord(t));
  }

  lemma LeafSound(leaf: LeafDef, toks: seq<Tok>)
    requires leaf.Option? ==> leaf.Name() != ""
    ensures var r := Match(Leaf(leaf), toks); r.ok ==> In(Leaf(leaf), TakenWord(r.log))
  {
    var i := Pick(leaf, toks);
    if i < |toks| {
      TakenOne(leaf, toks[i]);
    }
  }

  /** Whatever a pattern takes when it matches is a word of its language. */
  lemma {:induction false} MatchSound(p: Pattern<LeafDef>, toks: seq<Tok>)
    requires WellFormed(p) && NamedOptions(p)
    ensures var r := Match(p, toks); r.ok ==> In(p, TakenWord(r.log))
    decreases p, |toks|, 0
  {
    match p
    case Leaf(leaf) => LeafSound(leaf, toks);
    case Required(ps) => MatchAllSound(ps, toks);
    case Optional(ps) => MatchEachSound(ps, toks);
    case OptionsShortcut(ps) => MatchEachSound(ps, toks);
    case OneOrMore(ps) =>
      if Match(ps[0], toks).ok { var n := MatchMoreSound(ps[0], toks); }
    case Either(ps) =>
      var outs := MatchOutcomes(ps, toks);
      if outs != [] { MatchOutcomesSound(ps, toks, FirstMin(Sizes(outs))); }
  }

  lemma {:induction false} MatchAllSound(ps: seq<Pattern<LeafDef>>, toks: seq<Tok>)
    requires WellFormedAll(ps) && NamedOptionsAll(ps)
    ensures var r := MatchAll(ps, toks); r.ok ==> InAll(ps, TakenWord(r.log))
    decreases ps, |toks|, 0
  {
    if ps != [] {
      var m := Match(ps[0], toks);
      MatchSound(ps[0], toks);
      if m.ok {
        MatchAllSound(ps[1..], m.left);
        TakenWordConcat(m.log, MatchAll(ps[1..], m.left).log);
      }
    }
  }

  lemma {:induction false} MatchEachSound(ps: seq<Pattern<LeafDef>>, toks: seq<Tok>)
    requires WellFormedAll(ps) && NamedOptionsAll(ps)
    ensures InEach(ps, TakenWord(MatchEach(ps, toks).log))
    decreases ps, |toks|, 0
  {
    if ps != [] {
      var m := Match(ps[0], toks);
      MatchSound(ps[0], toks);
      MatchEachSound(ps[1..], m.left);
      TakenWordConcat(m.log, MatchEach(ps[1..], m.left).log);
    }
  }

  lemma PowerStep(p: Pattern<LeafDef>, n: nat, log: seq<Take>, rest: seq<Take>)
    requires In(p, TakenWord(log)) && InPower(p, n, TakenWord(rest))
    ensures InPower(p, n + 1, TakenWord(log + rest))
  {
    TakenWordConcat(log, rest);
  }

  lemma {:induction false} MatchMoreSound(p: Pattern<LeafDef>, toks: seq<Tok>) returns (n: nat)
    requires WellFormed(p) && NamedOptions(p) && Match(p, toks).ok
    ensures n >= 1 && InPower(p, n, TakenWord(MatchMore(p, toks).log))
    decreases p, |toks|, 1
  {
    var m := Match(p, toks);
    MatchSound(p, toks);
    var rest := [];
    n := 0;
    if m.log != [] && Match(p, m.left).ok {
      n := MatchMoreSound(p, m.left);
      rest := MatchMore(p, m.left).log;
    }
    PowerStep(p, n, m.log, rest);
    assert MatchMore(p, toks).log == m.log + rest;
    n := n + 1;
  }

  lemma {:induction false} MatchOutcomesSound(ps: seq<Pattern<LeafDef>>, toks: seq<Tok>, k: nat)
    requires WellFormedAll(ps) && NamedOptionsAll(ps) && k < |MatchOutcomes(ps, toks)|
    ensures InSome(ps, TakenWord(MatchOutcomes(ps, toks)[k].log))
    decreases ps, |toks|, 0
  {
    if ps != [] {
      var m := Match(ps[0], toks);
      MatchSound(ps[0], toks);
      if m.ok && k > 0 {
        MatchOutcomesSound(ps[1..], toks, k - 1);
      } else if !m.ok {
        MatchOutcomesSound(ps[1..], toks, k);
      }
    }
  }

  // ---------- argv as a whole ----------

  function Values(toks: seq<Tok>): seq<Value> {
    if toks == [] then [] else TokWord(toks[0]).pos + Values(toks[1..])
  }

  lemma {:induction false} ValuesConcat(a: seq<Tok>, b: seq<Tok>)
    ensures Values(a + b) == Values(a) + Values(b)
  {
    if a == [] {
      assert a + b == b;
    } else {
      assert (a + b)[0] == a[0] && (a + b)[1..] == a[1..] + b;
      ValuesConcat(a[1..], b);
      ConcatAssoc(TokWord(a[0]).pos, Values(a[1..]), Values(b));
    }
  }

  lemma {:induction false} WordOnChannels(toks: seq<Tok>, name: string)
    ensures WordOf(toks).opts[name] == |Proj(toks, Named(name))|
    ensures WordOf(toks).pos == Values(Proj(toks, Positionals))
  {
    if toks != [] {
      WordOnChannels(toks[1..], name);
      var here := if toks[0].Pos? then [toks[0]] else [];
      ValuesConcat(here, Proj(toks[1..], Positionals));
      if toks[0].Pos? { assert here[1..] == [] && Values(here) == TokWord(toks[0]).pos + Values(here[1..]); }
    }
  }

  /** Taken positionals are a prefix of those given, taken options a part of those given. */
  lemma ConservesWord(toks: seq<Tok>, r: Outcome)
    requires Conserves(toks, r)
    ensures WordOf(toks) == Join(TakenWord(r.log), WordOf(r.left))
  {
    PositionalsSplit(toks, Taken(r.log), r.left);
    OptionsSplit(toks, Taken(r.log), r.left);
  }

  lemma PositionalsSplit(toks: seq<Tok>, t: seq<Tok>, left: seq<Tok>)
    requires Proj(toks, Positionals) == Proj(t, Positionals) + Proj(left, Positionals)
    ensures WordOf(toks).pos == WordOf(t).pos + WordOf(left).pos
  {
    WordOnChannels(toks, "");
    WordOnChannels(t, "");
    WordOnChannels(left, "");
    ValuesConcat(Proj(t, Positionals), Proj(left, Positionals));
  }

  lemma OptionsSplit(toks: seq<Tok>, t: seq<Tok>, left: seq<Tok>)
    requires forall ch :: Proj(toks, ch) == Proj(t, ch) + Proj(left, ch)
    ensures WordOf(toks).opts == WordOf(t).opts + WordOf(left).opts
  {
    forall name ensures WordOf(toks).opts[name] == WordOf(t).opts[name] + WordOf(left).opts[name] {
      WordOnChannels(toks, name);
      WordOnChannels(t, name);
      WordOnChannels(left, name);
      assert Proj(toks, Named(name)) == Proj(t, Named(name)) + Proj(left, Named(name));
    }
  }

  /** A pattern takes a word of its language from the front of every channel. */
  lemma MatchTakesWord(p: Pattern<LeafDef>, toks: seq<Tok>)
    requires WellFormed(p) && NamedOptions(p) && Match(p, toks).ok
    ensures exists u :: In(p, u) && WordOf(toks) == Join(u, WordOf(Match(p, toks).left))
  {
    MatchSound(p, toks);
    MatchConserves(p, toks);
    ConservesWord(toks, Match(p, toks));
  }

  /** `docopt_parse` accepts an argv only if the whole of it is a word of the usage pattern. */
  lemma AcceptedIsInLanguage(p: Pattern<LeafDef>, argv: seq<Tok>)
    requires WellFormed(p) && NamedOptions(p) && Match(p, argv).ok && Match(p, argv).left == []
    ensures In(p, WordOf(argv))
  {
    MatchTakesWord(p, argv);
    var u :| In(p, u) && WordOf(argv) == Join(u, WordOf(Match(p, argv).left));
    JoinUnit(u);
  }

  /** After `OneOrMore` has matched, its child can take nothing more. */
  lemma {:induction false} OneOrMoreIsMaximal(p: Pattern<LeafDef>, toks: seq<Tok>)
    requires WellFormed(p)
    ensures var r := MatchMore(p, toks); !Match(p, r.left).ok || Match(p, r.left).log == []
    decreases |toks|
  {
    var m := Match(p, toks);
    if m.ok && m.log != [] { OneOrMoreIsMaximal(p, m.left); }
  }
}
