/**
 The greedy matcher seen through the tokens alone: which tokens of argv a pattern takes, and which
 leaf takes each of them. Verdict and leftovers of the real matcher, which also writes values into
 shared leaves, are proved equal to this function in module `MatchStore`.
 */
module Matching {
  import opened Sequences
  import opened Patterns

  /** An element of argv: a positional argument with its value, or an option with its name. */
  datatype Tok = Pos(id: nat, value: Value) | Opt(id: nat, name: string)

  /** A leaf of the pattern taking a token. */
  datatype Take = Take(leaf: LeafDef, tok: Tok)

  datatype Outcome = Outcome(ok: bool, left: seq<Tok>, log: seq<Take>)

  function TokName(t: Tok): string {
    if t.Pos? then "" else t.name
  }

  // ---------- single_match ----------

  function FirstPos(toks: seq<Tok>): (i: nat)
    ensures i <= |toks| && (i < |toks| ==> toks[i].Pos?) && forall k :: 0 <= k < i ==> toks[k].Opt?
  {
    if toks == [] || toks[0].Pos? then 0 else 1 + FirstPos(toks[1..])
  }

  function FirstNamed(toks: seq<Tok>, name: string): (i: nat)
    ensures i <= |toks| && (i < |toks| ==> TokName(toks[i]) == name)
    ensures forall k :: 0 <= k < i ==> TokName(toks[k]) != name
  {
    if toks == [] || TokName(toks[0]) == name then 0 else 1 + FirstNamed(toks[1..], name)
  }

  /** The token a leaf takes, or `|toks|` when it takes none. */
  function Pick(leaf: LeafDef, toks: seq<Tok>): (i: nat)
    ensures i <= |toks|
  {
    match leaf
    case Argument(_, _) => FirstPos(toks)
    case Command(n, _) =>
      var i := FirstPos(toks);
      if i < |toks| && toks[i].value == Str(n) then i else |toks|
    case Option(_, _, _, _) => FirstNamed(toks, leaf.Name())
  }

  // ---------- match ----------

  /** `OneOrMore::match` asserts that it has exactly one child. */
  ghost predicate WellFormed(p: Pattern<LeafDef>)
    decreases p, 1
  {
    match p
    case Leaf(_) => true
    case OneOrMore(ps) => |ps| == 1 && WellFormed(ps[0])
    case _ => WellFormedAll(p.children)
  }

  ghost predicate WellFormedAll(ps: seq<Pattern<LeafDef>>)
    decreases ps, 0
  {
    ps == [] || (WellFormed(ps[0]) && WellFormedAll(ps[1..]))
  }

  /** The leaves of a pattern. */
  ghost function Leaves(p: Pattern<LeafDef>): set<LeafDef>
    decreases p, 1
  {
    if p.Leaf? then {p.leaf} else LeavesAll(p.children)
  }

  ghost function LeavesAll(ps: seq<Pattern<LeafDef>>): set<LeafDef>
    decreases ps, 0
  {
    if ps == [] then {} else Leaves(ps[0]) + LeavesAll(ps[1..])
  }

  lemma LeavesOfOne(ps: seq<Pattern<LeafDef>>)
    requires |ps| == 1
    ensures LeavesAll(ps) == Leaves(ps[0])
  {
    assert ps[1..] == [];
  }

  /** The index of the first smallest element. */
  function FirstMin(sizes: seq<nat>): (i: nat)
    requires sizes != []
    ensures i < |sizes|
    ensures forall k :: 0 <= k < |sizes| ==> sizes[i] <= sizes[k]
    ensures forall k :: 0 <= k < i ==> sizes[i] < sizes[k]
  {
    if |sizes| == 1 then 0 else
    var j := FirstMin(sizes[1..]);
    assert forall k :: 0 < k < |sizes| ==> sizes[k] == sizes[1..][k - 1];
    if sizes[j + 1] < sizes[0] then j + 1 else 0
  }

  function Sizes(outs: seq<Outcome>): (r: seq<nat>)
    ensures |r| == |outs|
    ensures forall k :: 0 <= k < |outs| ==> r[k] == |outs[k].left|
  {
    seq(|outs|, k requires 0 <= k < |outs| => |outs[k].left|)
  }

  ghost predicate Accounts(toks: seq<Tok>, r: Outcome) {
    && |r.left| + |r.log| == |toks|
    && (r.log == [] ==> r.left == toks)
    && (!r.ok ==> r.log == [])
  }

  /** What a pattern takes from `toks`: a failure takes nothing and leaves `toks` as it was. */
  function Match(p: Pattern<LeafDef>, toks: seq<Tok>): (r: Outcome)
    requires WellFormed(p)
    ensures Accounts(toks, r)
    decreases p, |toks|, 0
  {
    match p
    case Leaf(leaf) =>
      var i := Pick(leaf, toks);
      if i == |toks| then Outcome(false, toks, [])
      else Outcome(true, Remove(toks, i), [Take(leaf, toks[i])])
    case Required(ps) => MatchAll(ps, toks)
    case Optional(ps) => MatchEach(ps, toks)
    case OptionsShortcut(ps) => MatchEach(ps, toks)
    case OneOrMore(ps) =>
      if Match(ps[0], toks).ok then MatchMore(ps[0], toks) else Outcome(false, toks, [])
    case Either(ps) =>
      var outs := MatchOutcomes(ps, toks);
      if outs == [] then Outcome(false, toks, []) else outs[FirstMin(Sizes(outs))]
  }

  /** All of `ps` in turn, or nothing. */
  function MatchAll(ps: seq<Pattern<LeafDef>>, toks: seq<Tok>): (r: Outcome)
    requires WellFormedAll(ps)
    ensures Accounts(toks, r)
    decreases ps, |toks|, 0
  {
    if ps == [] then Outcome(true, toks, []) else
    var m := Match(ps[0], toks);
    if !m.ok then m else
    var n := MatchAll(ps[1..], m.left);
    if !n.ok then Outcome(false, toks, []) else Outcome(true, n.left, m.log + n.log)
  }

  /** Each of `ps` that matches, in turn. */
  function MatchEach(ps: seq<Pattern<LeafDef>>, toks: seq<Tok>): (r: Outcome)
    requires WellFormedAll(ps)
    ensures Accounts(toks, r) && r.ok
    decreases ps, |toks|, 0
  {
    if ps == [] then Outcome(true, toks, []) else
    var m := Match(ps[0], toks);
    var n := MatchEach(ps[1..], m.left);
    Outcome(true, n.left, m.log + n.log)
  }

  /** `p` again and again, while it matches and takes something. */
  function MatchMore(p: Pattern<LeafDef>, toks: seq<Tok>): (r: Outcome)
    requires WellFormed(p)
    ensures Accounts(toks, r) && r.ok
    decreases p, |toks|, 1
  {
    var m := Match(p, toks);
    if !m.ok || m.log == [] then Outcome(true, toks, []) else
    var n := MatchMore(p, m.left);
    Outcome(true, n.left, m.log + n.log)
  }

  /** The outcomes of those of `ps` that match `toks`. */
  function MatchOutcomes(ps: seq<Pattern<LeafDef>>, toks: seq<Tok>): (outs: seq<Outcome>)
    requires WellFormedAll(ps)
    ensures forall k :: 0 <= k < |outs| ==> Accounts(toks, outs[k]) && outs[k].ok
    decreases ps, |toks|, 0
  {
    if ps == [] then [] else
    var m := Match(ps[0], toks);
    (if m.ok then [m] else []) + MatchOutcomes(ps[1..], toks)
  }

  // ---------- Conservation on every channel ----------

  /** Positionals form one channel, the options of each name another. */
  datatype Channel = Positionals | Named(option: string)

  function ChannelOf(t: Tok): Channel {
    if t.Pos? then Positionals else Named(t.name)
  }

  function Proj(toks: seq<Tok>, ch: Channel): seq<Tok> {
    if toks == [] then [] else
    (if ChannelOf(toks[0]) == ch then [toks[0]] else []) + Proj(toks[1..], ch)
  }

  function Taken(log: seq<Take>): seq<Tok> {
    if log == [] then [] else [log[0].tok] + Taken(log[1..])
  }

  lemma {:induction false} ProjConcat(a: seq<Tok>, b: seq<Tok>, ch: Channel)
    ensures Proj(a + b, ch) == Proj(a, ch) + Proj(b, ch)
  {
    if a == [] {
      assert a + b == b;
    } else {
      ProjConcat(a[1..], b, ch);
      assert (a + b)[0] == a[0] && (a + b)[1..] == a[1..] + b;
      ConcatAssoc(if ChannelOf(a[0]) == ch then [a[0]] else [], Proj(a[1..], ch), Proj(b, ch));
    }
  }

  lemma {:induction false} TakenConcat(a: seq<Take>, b: seq<Take>)
    ensures Taken(a + b) == Taken(a) + Taken(b)
  {
    if a == [] {
      assert a + b == b;
    } else {
      TakenConcat(a[1..], b);
      assert (a + b)[1..] == a[1..] + b;
    }
  }

  lemma {:induction false} ProjNone(toks: seq<Tok>, ch: Channel)
    requires forall k :: 0 <= k < |toks| ==> ChannelOf(toks[k]) != ch
    ensures Proj(toks, ch) == []
  {
    if toks != [] { ProjNone(toks[1..], ch); }
  }

  /** Taking the first token of its channel takes the head of that channel and leaves the others. */
  lemma ProjRemove(toks: seq<Tok>, i: nat, ch: Channel)
    requires i < |toks| && forall k :: 0 <= k < i ==> ChannelOf(toks[k]) != ChannelOf(toks[i])
    ensures Proj(toks, ch) == Proj([toks[i]], ch) + Proj(Remove(toks, i), ch)
    ensures ch == ChannelOf(toks[i]) ==> Proj(toks, ch) == [toks[i]] + Proj(Remove(toks, i), ch)
    ensures ch != ChannelOf(toks[i]) ==> Proj(toks, ch) == Proj(Remove(toks, i), ch)
  {
    assert toks == toks[..i] + ([toks[i]] + toks[i + 1..]);
    ProjConcat(toks[..i], [toks[i]] + toks[i + 1..], ch);
    ProjConcat([toks[i]], toks[i + 1..], ch);
    ProjConcat(toks[..i], toks[i + 1..], ch);
    assert Proj([toks[i]], ch) == (if ChannelOf(toks[i]) == ch then [toks[i]] else []) + Proj([], ch);
    if ch == ChannelOf(toks[i]) { ProjNone(toks[..i], ch); }
  }

  lemma PickIsFirst(leaf: LeafDef, toks: seq<Tok>)
    requires Pick(leaf, toks) < |toks|
    ensures var i := Pick(leaf, toks); forall k :: 0 <= k < i ==> ChannelOf(toks[k]) != ChannelOf(toks[i])
  {}

  ghost predicate Subsequence<T>(a: seq<T>, b: seq<T>) {
    a == [] || (b != [] && if a[0] == b[0] then Subsequence(a[1..], b[1..]) else Subsequence(a, b[1..]))
  }

  lemma {:induction false} SubsequenceCons<T>(a: seq<T>, x: T, b: seq<T>)
    requires Subsequence(a, b)
    ensures Subsequence(a, [x] + b)
    decreases |b|, 1
  {
    assert ([x] + b)[1..] == b;
    if a != [] && a[0] == x { SubsequenceTail(a, b); }
  }

  lemma {:induction false} SubsequenceTail<T>(a: seq<T>, b: seq<T>)
    requires a != [] && Subsequence(a, b)
    ensures Subsequence(a[1..], b)
    decreases |b|, 0
  {
    assert b == [b[0]] + b[1..];
    if a[0] == b[0] {
      SubsequenceCons(a[1..], b[0], b[1..]);
    } else {
      SubsequenceTail(a, b[1..]);
      SubsequenceCons(a[1..], b[0], b[1..]);
    }
  }

  lemma {:induction false} SubsequenceTrans<T>(a: seq<T>, b: seq<T>, c: seq<T>)
    requires Subsequence(a, b) && Subsequence(b, c)
    ensures Subsequence(a, c)
    decreases |c|
  {
    if a != [] {
      if b[0] != c[0] {
        SubsequenceTrans(a, b, c[1..]);
        SubsequenceCons(a, c[0], c[1..]);
        assert [c[0]] + c[1..] == c;
      } else if a[0] == b[0] {
        SubsequenceTrans(a[1..], b[1..], c[1..]);
      } else {
        SubsequenceTrans(a, b[1..], c[1..]);
      }
    }
  }

  lemma {:induction false} SubsequenceRemove<T>(s: seq<T>, i: nat)
    requires i < |s|
    ensures Subsequence(Remove(s, i), s) && Subsequence(s, s)
  {
    if i > 0 {
      SubsequenceRemove(s[1..], i - 1);
      assert Remove(s, i)[1..] == Remove(s[1..], i - 1);
    } else {
      SubsequenceRefl(s[1..]);
      assert Remove(s, 0) == s[1..];
      SubsequenceCons(s[1..], s[0], s[1..]);
      assert [s[0]] + s[1..] == s;
    }
  }

  lemma {:induction false} SubsequenceRefl<T>(s: seq<T>)
    ensures Subsequence(s, s)
  {
    if s != [] { SubsequenceRefl(s[1..]); }
  }

  /** What is left keeps its order; on every channel the taken tokens, in the order of the log, come before it. */
  ghost predicate Conserves(toks: seq<Tok>, r: Outcome) {
    && Subsequence(r.left, toks)
    && forall ch :: Proj(toks, ch) == Proj(Taken(r.log), ch) + Proj(r.left, ch)
  }

  lemma ConservesNothing(toks: seq<Tok>, ok: bool)
    ensures Conserves(toks, Outcome(ok, toks, []))
  {
    SubsequenceRefl(toks);
  }

  lemma LeafConserves(leaf: LeafDef, toks: seq<Tok>, i: nat)
    requires i == Pick(leaf, toks) < |toks|
    ensures Conserves(toks, Outcome(true, Remove(toks, i), [Take(leaf, toks[i])]))
  {
    PickIsFirst(leaf, toks);
    SubsequenceRemove(toks, i);
    var log := [Take(leaf, toks[i])];
    assert Taken(log) == [toks[i]] + Taken(log[1..]);
    forall ch ensures Proj(toks, ch) == Proj(Taken(log), ch) + Proj(Remove(toks, i), ch) {
      ProjRemove(toks, i, ch);
    }
  }

  lemma ConservesThen(toks: seq<Tok>, m: Outcome, n: Outcome)
    requires Conserves(toks, m) && Conserves(m.left, n)
    ensures Conserves(toks, Outcome(true, n.left, m.log + n.log))
  {
    SubsequenceTrans(n.left, m.left, toks);
    TakenConcat(m.log, n.log);
    forall ch ensures Proj(toks, ch) == Proj(Taken(m.log + n.log), ch) + Proj(n.left, ch) {
      ProjThen(toks, Taken(m.log), m.left, Taken(n.log), n.left, ch);
    }
  }

  lemma ProjThen(toks: seq<Tok>, a: seq<Tok>, rest: seq<Tok>, b: seq<Tok>, left: seq<Tok>, ch: Channel)
    requires Proj(toks, ch) == Proj(a, ch) + Proj(rest, ch)
    requires Proj(rest, ch) == Proj(b, ch) + Proj(left, ch)
    ensures Proj(toks, ch) == Proj(a + b, ch) + Proj(left, ch)
  {
    ProjConcat(a, b, ch);
    ConcatAssoc(Proj(a, ch), Proj(b, ch), Proj(left, ch));
  }

  lemma {:induction false} MatchConserves(p: Pattern<LeafDef>, toks: seq<Tok>)
    requires WellFormed(p)
    ensures Conserves(toks, Match(p, toks))
    decreases p, |toks|, 0
  {
    ConservesNothing(toks, false);
    match p
    case Leaf(leaf) =>
      if Pick(leaf, toks) < |toks| { LeafConserves(leaf, toks, Pick(leaf, toks)); }
    case Required(ps) => MatchAllConserves(ps, toks);
    case Optional(ps) => MatchEachConserves(ps, toks);
    case OptionsShortcut(ps) => MatchEachConserves(ps, toks);
    case OneOrMore(ps) => MatchMoreConserves(ps[0], toks);
    case Either(ps) => MatchOutcomesConserve(ps, toks);
  }

  lemma {:induction false} MatchAllConserves(ps: seq<Pattern<LeafDef>>, toks: seq<Tok>)
    requires WellFormedAll(ps)
    ensures Conserves(toks, MatchAll(ps, toks))
    decreases ps, |toks|, 0
  {
    ConservesNothing(toks, true);
    ConservesNothing(toks, false);
    if ps != [] {
      var m := Match(ps[0], toks);
      MatchConserves(ps[0], toks);
      if m.ok {
        MatchAllConserves(ps[1..], m.left);
        ConservesThen(toks, m, MatchAll(ps[1..], m.left));
      }
    }
  }

  lemma {:induction false} MatchEachConserves(ps: seq<Pattern<LeafDef>>, toks: seq<Tok>)
    requires WellFormedAll(ps)
    ensures Conserves(toks, MatchEach(ps, toks))
    decreases ps, |toks|, 0
  {
    ConservesNothing(toks, true);
    ConservesNothing(toks, false);
    if ps != [] {
      var m := Match(ps[0], toks);
      MatchConserves(ps[0], toks);
      MatchEachConserves(ps[1..], m.left);
      ConservesThen(toks, m, MatchEach(ps[1..], m.left));
    }
  }

  lemma {:induction false} MatchMoreConserves(p: Pattern<LeafDef>, toks: seq<Tok>)
    requires WellFormed(p)
    ensures Conserves(toks, MatchMore(p, toks))
    decreases p, |toks|, 1
  {
    ConservesNothing(toks, true);
    var m := Match(p, toks);
    if m.ok && m.log != [] {
      MatchConserves(p, toks);
      MatchMoreConserves(p, m.left);
      ConservesThen(toks, m, MatchMore(p, m.left));
    }
  }

  lemma {:induction false} MatchOutcomesConserve(ps: seq<Pattern<LeafDef>>, toks: seq<Tok>)
    requires WellFormedAll(ps)
    ensures forall k :: 0 <= k < |MatchOutcomes(ps, toks)| ==> Conserves(toks, MatchOutcomes(ps, toks)[k])
    decreases ps, |toks|, 0
  {
    if ps != [] {
      MatchConserves(ps[0], toks);
      MatchOutcomesConserve(ps[1..], toks);
    }
  }

  // ---------- Only the channels matter ----------

  /** A token without its identity: the text of a positional, the name of an option. */
  function Shape(t: Tok): Tok {
    t.(id := 0)
  }

  function Shapes(toks: seq<Tok>): (r: seq<Tok>)
    ensures |r| == |toks| && forall k :: 0 <= k < |r| ==> r[k] == Shape(toks[k])
  {
    seq(|toks|, k requires 0 <= k < |toks| => Shape(toks[k]))
  }

  ghost predicate SameChannels(a: seq<Tok>, b: seq<Tok>) {
    forall ch :: Shapes(Proj(a, ch)) == Shapes(Proj(b, ch))
  }

  /** The same leaves took tokens of the same shape, in the same order. */
  ghost predicate SameLog(a: seq<Take>, b: seq<Take>) {
    |a| == |b| && forall k :: 0 <= k < |a| ==> a[k].leaf == b[k].leaf && Shape(a[k].tok) == Shape(b[k].tok)
  }

  ghost predicate Alike(r: Outcome, r': Outcome) {
    r.ok == r'.ok && SameChannels(r.left, r'.left) && SameLog(r.log, r'.log)
  }

  /** Options are built with a short or a long name, so no option leaf is nameless. */
  ghost predicate NamedOptions(p: Pattern<LeafDef>)
    decreases p, 1
  {
    match p
    case Leaf(leaf) => leaf.Option? ==> leaf.Name() != ""
    case _ => NamedOptionsAll(p.children)
  }

  ghost predicate NamedOptionsAll(ps: seq<Pattern<LeafDef>>)
    decreases ps, 0
  {
    ps == [] || (NamedOptions(ps[0]) && NamedOptionsAll(ps[1..]))
  }

  ghost predicate HasName(leaf: LeafDef) {
    leaf.Option? ==> leaf.Name() != ""
  }

  lemma {:induction false} NamedLeaf(p: Pattern<LeafDef>, leaf: LeafDef)
    requires NamedOptions(p) && leaf in Leaves(p)
    ensures HasName(leaf)
    decreases p, 1
  {
    if !p.Leaf? { NamedLeafAll(p.children, leaf); }
  }

  lemma {:induction false} NamedLeafAll(ps: seq<Pattern<LeafDef>>, leaf: LeafDef)
    requires NamedOptionsAll(ps) && leaf in LeavesAll(ps)
    ensures HasName(leaf)
    decreases ps, 0
  {
    if leaf in Leaves(ps[0]) { NamedLeaf(ps[0], leaf); } else { NamedLeafAll(ps[1..], leaf); }
  }

  /** No `Either` without alternatives. */
  ghost predicate HasAlternatives(p: Pattern<LeafDef>)
    decreases p, 1
  {
    match p
    case Leaf(_) => true
    case Either(ps) => ps != [] && HaveAlternatives(ps)
    case _ => HaveAlternatives(p.children)
  }

  ghost predicate HaveAlternatives(ps: seq<Pattern<LeafDef>>)
    decreases ps, 0
  {
    ps == [] || (HasAlternatives(ps[0]) && HaveAlternatives(ps[1..]))
  }

  function LeafChannel(leaf: LeafDef): Channel {
    if leaf.Option? then Named(leaf.Name()) else Positionals
  }

  /** A leaf looks at the head of its channel. */
  lemma PickHead(leaf: LeafDef, toks: seq<Tok>)
    requires leaf.Option? ==> leaf.Name() != ""
    ensures var i, c := Pick(leaf, toks), Proj(toks, LeafChannel(leaf));
            && (i < |toks| <==> c != [] && (leaf.Command? ==> c[0].Pos? && c[0].value == Str(leaf.cmdName)))
            && (i < |toks| ==> ChannelOf(toks[i]) == LeafChannel(leaf) && toks[i] == c[0])
  {
    var ch := LeafChannel(leaf);
    var j := if leaf.Option? then FirstNamed(toks, leaf.Name()) else FirstPos(toks);
    if j == |toks| {
      ProjNone(toks, ch);
    } else {
      ProjRemove(toks, j, ch);
    }
  }

  lemma AlikeThen(m: Outcome, n: Outcome, m': Outcome, n': Outcome)
    requires SameLog(m.log, m'.log) && Alike(n, n')
    ensures Alike(Outcome(true, n.left, m.log + n.log), Outcome(true, n'.left, m'.log + n'.log))
  {}

  lemma AlikeLeaf(leaf: LeafDef, a: seq<Tok>, b: seq<Tok>)
    requires SameChannels(a, b) && (leaf.Option? ==> leaf.Name() != "")
    ensures Alike(Match(Leaf(leaf), a), Match(Leaf(leaf), b))
  {
    var ch := LeafChannel(leaf);
    PickHead(leaf, a);
    PickHead(leaf, b);
    assert Shapes(Proj(a, ch)) == Shapes(Proj(b, ch));
    if Proj(a, ch) != [] {
      assert Shapes(Proj(a, ch))[0] == Shape(Proj(a, ch)[0]);
      assert Shapes(Proj(b, ch))[0] == Shape(Proj(b, ch)[0]);
    }
    var i, j := Pick(leaf, a), Pick(leaf, b);
    if i < |a| {
      assert j < |b|;
      PickIsFirst(leaf, a);
      PickIsFirst(leaf, b);
      forall c ensures Shapes(Proj(Remove(a, i), c)) == Shapes(Proj(Remove(b, j), c)) {
        ProjRemove(a, i, c);
        ProjRemove(b, j, c);
        assert Shapes(Proj(a, c)) == Shapes(Proj(b, c));
        ShapesTail(Proj(a, c), Proj(b, c), Proj(Remove(a, i), c), Proj(Remove(b, j), c));
      }
    }
  }

  lemma ShapesTail(a: seq<Tok>, b: seq<Tok>, a': seq<Tok>, b': seq<Tok>)
    requires Shapes(a) == Shapes(b)
    requires (a == a' && b == b') || (a != [] && b != [] && a[1..] == a' && b[1..] == b')
    ensures Shapes(a') == Shapes(b')
  {
    if a != a' || b != b' {
      assert Shapes(a') == Shapes(a)[1..];
      assert Shapes(b') == Shapes(b)[1..];
    }
  }

  /** Two argv lists that agree on every channel get the same verdict, takes and leftovers. */
  lemma {:induction false} MatchSeesChannels(p: Pattern<LeafDef>, a: seq<Tok>, b: seq<Tok>)
    requires WellFormed(p) && NamedOptions(p) && SameChannels(a, b)
    ensures Alike(Match(p, a), Match(p, b))
    decreases p, |a|, 0
  {
    match p
    case Leaf(leaf) => AlikeLeaf(leaf, a, b);
    case Required(ps) => MatchAllSeesChannels(ps, a, b);
    case Optional(ps) => MatchEachSeesChannels(ps, a, b);
    case OptionsShortcut(ps) => MatchEachSeesChannels(ps, a, b);
    case OneOrMore(ps) =>
      MatchSeesChannels(ps[0], a, b);
      MatchMoreSeesChannels(ps[0], a, b);
    case Either(ps) =>
      MatchOutcomesSeeChannels(ps, a, b);
      SameFirstMin(a, b, MatchOutcomes(ps, a), MatchOutcomes(ps, b));
  }

  lemma {:induction false} MatchAllSeesChannels(ps: seq<Pattern<LeafDef>>, a: seq<Tok>, b: seq<Tok>)
    requires WellFormedAll(ps) && NamedOptionsAll(ps) && SameChannels(a, b)
    ensures Alike(MatchAll(ps, a), MatchAll(ps, b))
    decreases ps, |a|, 0
  {
    if ps != [] {
      var m, m' := Match(ps[0], a), Match(ps[0], b);
      MatchSeesChannels(ps[0], a, b);
      if m.ok {
        MatchAllSeesChannels(ps[1..], m.left, m'.left);
        AlikeThen(m, MatchAll(ps[1..], m.left), m', MatchAll(ps[1..], m'.left));
      }
    }
  }

  lemma {:induction false} MatchEachSeesChannels(ps: seq<Pattern<LeafDef>>, a: seq<Tok>, b: seq<Tok>)
    requires WellFormedAll(ps) && NamedOptionsAll(ps) && SameChannels(a, b)
    ensures Alike(MatchEach(ps, a), MatchEach(ps, b))
    decreases ps, |a|, 0
  {
    if ps != [] {
      var m, m' := Match(ps[0], a), Match(ps[0], b);
      MatchSeesChannels(ps[0], a, b);
      MatchEachSeesChannels(ps[1..], m.left, m'.left);
      AlikeThen(m, MatchEach(ps[1..], m.left), m', MatchEach(ps[1..], m'.left));
    }
  }

  lemma {:induction false} MatchMoreSeesChannels(p: Pattern<LeafDef>, a: seq<Tok>, b: seq<Tok>)
    requires WellFormed(p) && NamedOptions(p) && SameChannels(a, b)
    ensures Alike(MatchMore(p, a), MatchMore(p, b))
    decreases p, |a|, 1
  {
    var m, m' := Match(p, a), Match(p, b);
    MatchSeesChannels(p, a, b);
    if m.ok && m.log != [] {
      MatchMoreSeesChannels(p, m.left, m'.left);
      AlikeThen(m, MatchMore(p, m.left), m', MatchMore(p, m'.left));
    }
  }

  lemma {:induction false} MatchOutcomesSeeChannels(ps: seq<Pattern<LeafDef>>, a: seq<Tok>, b: seq<Tok>)
    requires WellFormedAll(ps) && NamedOptionsAll(ps) && SameChannels(a, b)
    ensures var outs, outs' := MatchOutcomes(ps, a), MatchOutcomes(ps, b);
            |outs| == |outs'| && forall k :: 0 <= k < |outs| ==> Alike(outs[k], outs'[k])
    decreases ps, |a|, 0
  {
    if ps != [] {
      MatchSeesChannels(ps[0], a, b);
      MatchOutcomesSeeChannels(ps[1..], a, b);
    }
  }

  /** Outcomes that took the same number of tokens are ranked alike. */
  lemma SameFirstMin(a: seq<Tok>, b: seq<Tok>, outs: seq<Outcome>, outs': seq<Outcome>)
    requires |outs| == |outs'|
    requires forall k :: 0 <= k < |outs| ==>
      Accounts(a, outs[k]) && Accounts(b, outs'[k]) && |outs[k].log| == |outs'[k].log|
    ensures outs != [] ==> FirstMin(Sizes(outs)) == FirstMin(Sizes(outs'))
  {
    if outs != [] {
      var i, j := FirstMin(Sizes(outs)), FirstMin(Sizes(outs'));
      assert Sizes(outs)[i] == |outs[i].left| && Sizes(outs)[j] == |outs[j].left|;
      assert Sizes(outs')[i] == |outs'[i].left| && Sizes(outs')[j] == |outs'[j].left|;
    }
  }
}
