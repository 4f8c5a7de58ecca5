/**
 When the greedy matcher accepts every word of a pattern. It does on orderly patterns, where a part that may take more
 than it must is followed only by parts that can do without what it takes. On flat patterns that is also necessary.
 */
module MatchCompleteness {
  import opened Sequences
  import opened Patterns
  import opened Matching
  import opened MatchLanguage

  ghost predicate Accepts(p: Pattern<LeafDef>, toks: seq<Tok>)
    requires WellFormed(p)
  {
    Match(p, toks).ok && Match(p, toks).left == []
  }

  // ---------- Orderly patterns ----------

  /** Some token could be taken by both. */
  predicate Clash(x: LeafDef, y: LeafDef) {
    LeafChannel(x) == LeafChannel(y) && (x.Command? && y.Command? ==> x.cmdName == y.cmdName)
  }

  /** Every word of `p` has a token on `ch`. */
  ghost predicate Blocks(p: Pattern<LeafDef>, ch: Channel)
    decreases p, 1
  {
    match p
    case Leaf(leaf) => LeafChannel(leaf) == ch
    case Required(ps) => BlocksAny(ps, ch)
    case OneOrMore(ps) => |ps| == 1 && Blocks(ps[0], ch)
    case _ => false
  }

  ghost predicate BlocksAny(ps: seq<Pattern<LeafDef>>, ch: Channel)
    decreases ps, 0
  {
    ps != [] && (Blocks(ps[0], ch) || BlocksAny(ps[1..], ch))
  }

  /** A word of `p` that begins, on its channel, with a token for `x` is a word of `p` without it too. */
  ghost predicate Droppable(p: Pattern<LeafDef>, x: LeafDef)
    decreases p, 1
  {
    match p
    case Leaf(leaf) => !Clash(leaf, x)
    case Required(ps) => DroppableAll(ps, x)
    case Optional(ps) => LooseAll(ps, x)
    case OptionsShortcut(ps) => LooseAll(ps, x)
    case OneOrMore(ps) => |ps| == 1 && Droppable(ps[0], x)
    case Either(ps) => DroppableEach(ps, x)
  }

  /** In a sequence, only the parts up to the first that must have a token on the channel matter. */
  ghost predicate DroppableAll(ps: seq<Pattern<LeafDef>>, x: LeafDef)
    decreases ps, 0
  {
    ps == [] || (Droppable(ps[0], x) && (Blocks(ps[0], LeafChannel(x)) || DroppableAll(ps[1..], x)))
  }

  ghost predicate DroppableEach(ps: seq<Pattern<LeafDef>>, x: LeafDef)
    decreases ps, 0
  {
    ps == [] || (Droppable(ps[0], x) && DroppableEach(ps[1..], x))
  }

  /** A word of `p` that begins with a token for `x` is a word of `p`, or empty, without it. */
  ghost predicate Loose(p: Pattern<LeafDef>, x: LeafDef)
    decreases p, 1
  {
    match p
    case Leaf(_) => true
    case Required(ps) => DroppableAll(ps, x) || (|ps| == 1 && Loose(ps[0], x))
    case Optional(ps) => LooseAll(ps, x)
    case OptionsShortcut(ps) => LooseAll(ps, x)
    case OneOrMore(ps) => |ps| == 1 && Loose(ps[0], x)
    case Either(ps) => LooseAll(ps, x)
  }

  ghost predicate LooseAll(ps: seq<Pattern<LeafDef>>, x: LeafDef)
    decreases ps, 0
  {
    ps == [] || (Loose(ps[0], x) && LooseAll(ps[1..], x))
  }

  /** The leaves for which `p` may take more than a word of its language needs. */
  ghost function Flexible(p: Pattern<LeafDef>): set<LeafDef>
    decreases p, 1
  {
    match p
    case Leaf(_) => {}
    case Required(ps) => FlexibleAll(ps)
    case _ => LeavesAll(p.children)
  }

  ghost function FlexibleAll(ps: seq<Pattern<LeafDef>>): set<LeafDef>
    decreases ps, 0
  {
    if ps == [] then {} else Flexible(ps[0]) + FlexibleAll(ps[1..])
  }

  /** Taking as much as possible is never wrong in `p`; alternatives may stand only where nothing follows. */
  ghost predicate Orderly(p: Pattern<LeafDef>, last: bool)
    decreases p, 1
  {
    match p
    case Leaf(_) => true
    case Required(ps) => OrderlyAll(ps, last)
    case Optional(ps) => OrderlyEach(ps, last)
    case OptionsShortcut(ps) => OrderlyEach(ps, last)
    case OneOrMore(ps) => |ps| == 1 && Orderly(ps[0], false) && forall x <- Flexible(ps[0]) :: Droppable(ps[0], x)
    case Either(ps) => last && OrderlySome(ps)
  }

  ghost predicate OrderlyAll(ps: seq<Pattern<LeafDef>>, last: bool)
    decreases ps, 0
  {
    ps == [] || (
      && Orderly(ps[0], last && |ps| == 1) && OrderlyAll(ps[1..], last)
      && forall x <- Flexible(ps[0]) :: DroppableAll(ps[1..], x))
  }

  ghost predicate OrderlyEach(ps: seq<Pattern<LeafDef>>, last: bool)
    decreases ps, 0
  {
    ps == [] || (
      && Orderly(ps[0], last && |ps| == 1) && OrderlyEach(ps[1..], last)
      && forall x <- Leaves(ps[0]) :: LooseAll(ps[1..], x))
  }

  ghost predicate OrderlySome(ps: seq<Pattern<LeafDef>>)
    decreases ps, 0
  {
    ps == [] || (Orderly(ps[0], true) && OrderlySome(ps[1..]))
  }

  // ---------- Repetition ----------

  function Copies(p: Pattern<LeafDef>, n: nat): seq<Pattern<LeafDef>> {
    if n == 0 then [] else [p] + Copies(p, n - 1)
  }

  lemma {:induction false} PowerIsCopies(p: Pattern<LeafDef>, n: nat, w: Word)
    ensures InPower(p, n, w) <==> InAll(Copies(p, n), w)
    decreases n
  {
    if n > 0 {
      var ps := Copies(p, n);
      Head(p, Copies(p, n - 1));
      assert ps[0] == p && ps[1..] == Copies(p, n - 1);
      forall v ensures InPower(p, n - 1, v) <==> InAll(ps[1..], v) {
        PowerIsCopies(p, n - 1, v);
      }
    }
  }

  lemma Rounds(ps: seq<Pattern<LeafDef>>, w: Word) returns (n: nat)
    requires In(OneOrMore(ps), w)
    ensures |ps| == 1 && n >= 1 && InAll(Copies(ps[0], n), w)
  {
    n :| n >= 1 && InPower(ps[0], n, w);
    PowerIsCopies(ps[0], n, w);
  }

  lemma InAllCons(ps: seq<Pattern<LeafDef>>, u: Word, v: Word)
    ensures ps != [] && In(ps[0], u) && InAll(ps[1..], v) ==> InAll(ps, Join(u, v))
  {}

  lemma InAllUncons(ps: seq<Pattern<LeafDef>>, w: Word) returns (u: Word, v: Word)
    ensures InAll(ps, w) && ps != [] ==> w == Join(u, v) && In(ps[0], u) && InAll(ps[1..], v)
  {
    u, v := w, w;
    if InAll(ps, w) && ps != [] { u, v :| w == Join(u, v) && In(ps[0], u) && InAll(ps[1..], v); }
  }

  lemma CopiesCons(p: Pattern<LeafDef>, k: nat)
    ensures Copies(p, k + 1) != [] && Copies(p, k + 1)[0] == p && Copies(p, k + 1)[1..] == Copies(p, k)
  {
    Head(p, Copies(p, k));
  }

  lemma CopiesPut(p: Pattern<LeafDef>, k: nat, x: Word, v: Word)
    ensures In(p, x) && InAll(Copies(p, k), v) ==> InAll(Copies(p, k + 1), Join(x, v))
  {
    CopiesCons(p, k);
    InAllCons(Copies(p, k + 1), x, v);
  }

  /** One more round, unless it is empty. */
  lemma CopiesJoin(p: Pattern<LeafDef>, k: nat, x: Word, v: Word) returns (m: nat)
    ensures (x == NO_WORD || In(p, x)) && InAll(Copies(p, k), v) ==> InAll(Copies(p, m), Join(x, v))
  {
    JoinUnit(v);
    CopiesPut(p, k, x, v);
    m := if x == NO_WORD then k else k + 1;
  }

  lemma CopiesSplit(p: Pattern<LeafDef>, n: nat, w: Word) returns (k: nat, u: Word, v: Word)
    ensures InAll(Copies(p, n), w) && w != NO_WORD ==>
      n == k + 1 && w == Join(u, v) && In(p, u) && InAll(Copies(p, k), v)
  {
    k := if n == 0 then 0 else n - 1;
    CopiesCons(p, k);
    u, v := InAllUncons(Copies(p, n), w);
  }

  // ---------- Words with a token less ----------

  ghost predicate HasToken(w: Word, ch: Channel) {
    if ch.Positionals? then w.pos != [] else ch.option in w.opts
  }

  /** `d` is one token for `x`. */
  ghost predicate OneToken(d: Word, x: LeafDef) {
    In(Leaf(x), d)
  }

  lemma JoinCancel(u: Word, v: Word, v': Word)
    requires Join(u, v) == Join(u, v')
    ensures v == v'
  {
    assert v.pos == (u.pos + v.pos)[|u.pos|..] == (u.pos + v'.pos)[|u.pos|..] == v'.pos;
    forall n ensures v.opts[n] == v'.opts[n] {
      assert (u.opts + v.opts)[n] == (u.opts + v'.opts)[n];
    }
  }

  /**
   The first token for `x` of two joined words is the first one of one of them; if not of the first, that has none.
   */
  lemma JoinHead(d: Word, w: Word, u: Word, v: Word, x: LeafDef) returns (inFirst: bool, y: Word)
    requires OneToken(d, x) && Join(d, w) == Join(u, v)
    ensures inFirst ==> u == Join(d, y) && w == Join(y, v)
    ensures !inFirst ==> v == Join(d, y) && w == Join(u, y) && !HasToken(u, LeafChannel(x))
  {
    if x.Option? {
      inFirst, y := JoinHeadNamed(d, w, u, v, x.Name());
    } else {
      inFirst, y := JoinHeadPositional(d, w, u, v);
    }
  }

  lemma JoinHeadPositional(d: Word, w: Word, u: Word, v: Word) returns (inFirst: bool, y: Word)
    requires |d.pos| == 1 && d.opts == multiset{} && Join(d, w) == Join(u, v)
    ensures inFirst ==> u == Join(d, y) && w == Join(y, v)
    ensures !inFirst ==> v == Join(d, y) && w == Join(u, y) && u.pos == []
  {
    inFirst := u.pos != [];
    y := if inFirst then Word(u.pos[1..], u.opts) else Word(v.pos[1..], v.opts);
    assert w.pos == (d.pos + w.pos)[1..] == (u.pos + v.pos)[1..];
    assert d.pos[0] == (d.pos + w.pos)[0] == (u.pos + v.pos)[0];
    if inFirst {
      assert u.pos == d.pos + y.pos && w.pos == y.pos + v.pos;
    } else {
      assert v.pos == d.pos + y.pos && w.pos == u.pos + y.pos;
    }
  }

  lemma JoinHeadNamed(d: Word, w: Word, u: Word, v: Word, n: string) returns (inFirst: bool, y: Word)
    requires d.pos == [] && d.opts == multiset{n} && Join(d, w) == Join(u, v)
    ensures inFirst ==> u == Join(d, y) && w == Join(y, v)
    ensures !inFirst ==> v == Join(d, y) && w == Join(u, y) && n !in u.opts
  {
    inFirst := n in u.opts;
    assert w.pos == [] + w.pos == u.pos + v.pos;
    if inFirst {
      TakeOne(u.opts, v.opts, w.opts, n);
      y := Word(u.pos, u.opts - multiset{n});
    } else {
      assert u.opts + v.opts == v.opts + u.opts && n in u.opts + v.opts;
      TakeOne(v.opts, u.opts, w.opts, n);
      y := Word(v.pos, v.opts - multiset{n});
      assert w.opts == y.opts + u.opts == u.opts + y.opts;
    }
  }

  lemma TakeOne<T>(a: multiset<T>, b: multiset<T>, c: multiset<T>, n: T)
    requires multiset{n} + c == a + b && n in a
    ensures a == multiset{n} + (a - multiset{n}) && c == (a - multiset{n}) + b
  {
    forall k ensures c[k] == ((a - multiset{n}) + b)[k] {
      assert (multiset{n} + c)[k] == (a + b)[k];
    }
  }

  lemma {:induction false} Drop(p: Pattern<LeafDef>, x: LeafDef, d: Word, w: Word)
    requires Droppable(p, x) && OneToken(d, x)
    ensures In(p, Join(d, w)) ==> In(p, w)
    decreases p, 0, 1
  {
    if In(p, Join(d, w)) {
      match p
      case Leaf(leaf) => LeafHasNoOther(leaf, x, d, w);
      case Required(ps) => DropAll(ps, x, d, w);
      case Optional(ps) => DropEach(ps, x, d, w);
      case OptionsShortcut(ps) => DropEach(ps, x, d, w);
      case OneOrMore(ps) =>
        var n := Rounds(ps, Join(d, w));
        DropCopies(ps, n, x, d, w);
        PowerIsCopies(ps[0], n, w);
      case Either(ps) => DropSome(ps, x, d, w);
    }
  }

  lemma LeafHasNoOther(leaf: LeafDef, x: LeafDef, d: Word, w: Word)
    requires OneToken(d, x) && In(Leaf(leaf), Join(d, w))
    ensures Clash(leaf, x) && w == NO_WORD
  {
    if leaf.Option? {
      assert |d.pos + w.pos| == 0 && |d.opts + w.opts| == 1;
      assert x.Option? && x.Name() in d.opts + w.opts;
    } else {
      assert |d.opts + w.opts| == 0 && |d.pos + w.pos| == 1;
      assert d.pos != [] && w.pos == [];
      assert d.pos + w.pos == d.pos;
    }
  }

  lemma {:induction false} DropAll(ps: seq<Pattern<LeafDef>>, x: LeafDef, d: Word, w: Word)
    requires DroppableAll(ps, x) && OneToken(d, x)
    ensures InAll(ps, Join(d, w)) ==> InAll(ps, w)
    decreases ps, 0, 0
  {
    NoTokenInNoWord(d, w, x);
    if ps != [] && InAll(ps, Join(d, w)) {
      var u, v := InAllUncons(ps, Join(d, w));
      var inFirst, y := JoinHead(d, w, u, v, x);
      if inFirst {
        Drop(ps[0], x, d, y);
      } else {
        if Blocks(ps[0], LeafChannel(x)) { BlocksHas(ps[0], LeafChannel(x), u); }
        DropAll(ps[1..], x, d, y);
      }
      InAllCons(ps, y, v);
      InAllCons(ps, u, y);
    }
  }

  lemma HasTokenJoin(u: Word, v: Word, ch: Channel)
    ensures HasToken(u, ch) || HasToken(v, ch) ==> HasToken(Join(u, v), ch)
  {
    if ch.Named? { assert (u.opts + v.opts)[ch.option] == u.opts[ch.option] + v.opts[ch.option]; }
  }

  /** A part that must have a token on a channel has one. */
  lemma {:induction false} BlocksHas(p: Pattern<LeafDef>, ch: Channel, w: Word)
    requires Blocks(p, ch) && In(p, w)
    ensures HasToken(w, ch)
    decreases p, 0, 1
  {
    match p
    case Leaf(_) =>
    case Required(ps) => BlocksAnyHas(ps, ch, w);
    case OneOrMore(ps) =>
      var n := Rounds(ps, w);
      CopiesCons(ps[0], n - 1);
      var u, v := InAllUncons(Copies(ps[0], n), w);
      BlocksHas(ps[0], ch, u);
      HasTokenJoin(u, v, ch);
  }

  lemma {:induction false} BlocksAnyHas(ps: seq<Pattern<LeafDef>>, ch: Channel, w: Word)
    requires BlocksAny(ps, ch) && InAll(ps, w)
    ensures HasToken(w, ch)
    decreases ps, 0, 0
  {
    var u, v := InAllUncons(ps, w);
    if Blocks(ps[0], ch) { BlocksHas(ps[0], ch, u); } else { BlocksAnyHas(ps[1..], ch, v); }
    HasTokenJoin(u, v, ch);
  }

  lemma NoTokenInNoWord(d: Word, w: Word, x: LeafDef)
    requires OneToken(d, x)
    ensures Join(d, w) != NO_WORD
  {
    HasTokenJoin(d, w, LeafChannel(x));
  }

  lemma {:induction false} DropSome(ps: seq<Pattern<LeafDef>>, x: LeafDef, d: Word, w: Word)
    requires DroppableEach(ps, x) && OneToken(d, x)
    ensures InSome(ps, Join(d, w)) ==> InSome(ps, w)
    decreases ps, 0, 0
  {
    if ps != [] {
      Drop(ps[0], x, d, w);
      DropSome(ps[1..], x, d, w);
    }
  }

  lemma {:induction false} DropCopies(ps: seq<Pattern<LeafDef>>, n: nat, x: LeafDef, d: Word, w: Word)
    requires Droppable(OneOrMore(ps), x) && OneToken(d, x)
    ensures InAll(Copies(ps[0], n), Join(d, w)) ==> InAll(Copies(ps[0], n), w)
    decreases ps, n, 3
  {
    NoTokenInNoWord(d, w, x);
    var k, u, v := CopiesSplit(ps[0], n, Join(d, w));
    if InAll(Copies(ps[0], n), Join(d, w)) { DropFromRound(ps, k, x, d, w, u, v); }
  }

  /** The token is in the first round or in a later one. */
  lemma {:induction false} DropFromRound(
    ps: seq<Pattern<LeafDef>>, k: nat, x: LeafDef, d: Word, w: Word, u: Word, v: Word)
    requires Droppable(OneOrMore(ps), x) && OneToken(d, x) && Join(d, w) == Join(u, v)
    ensures In(ps[0], u) && InAll(Copies(ps[0], k), v) ==> InAll(Copies(ps[0], k + 1), w)
    decreases ps, k, 4
  {
    var inFirst, y := JoinHead(d, w, u, v, x);
    if inFirst {
      Drop(ps[0], x, d, y);
      CopiesPut(ps[0], k, y, v);
    } else {
      DropCopies(ps, k, x, d, y);
      CopiesPut(ps[0], k, u, y);
    }
  }

  lemma {:induction false} DropLoose(p: Pattern<LeafDef>, x: LeafDef, d: Word, w: Word)
    requires Loose(p, x) && OneToken(d, x)
    ensures In(p, Join(d, w)) ==> w == NO_WORD || In(p, w)
    decreases p, 0, 1
  {
    if In(p, Join(d, w)) {
      match p
      case Leaf(leaf) => LeafHasNoOther(leaf, x, d, w);
      case Required(ps) =>
        if DroppableAll(ps, x) {
          DropAll(ps, x, d, w);
        } else {
          InAllOne(ps[0], Join(d, w));
          InAllOne(ps[0], w);
          assert ps == [ps[0]];
          DropLoose(ps[0], x, d, w);
        }
      case Optional(ps) => DropEach(ps, x, d, w);
      case OptionsShortcut(ps) => DropEach(ps, x, d, w);
      case OneOrMore(ps) =>
        var n := Rounds(ps, Join(d, w));
        var m := DropLooseCopies(ps, n, x, d, w);
        PowerIsCopies(ps[0], m, w);
      case Either(ps) => DropLooseSome(ps, x, d, w);
    }
  }

  lemma InAllOne(p: Pattern<LeafDef>, w: Word)
    ensures InAll([p], w) <==> In(p, w)
  {
    assert [p][1..] == [];
    if In(p, w) {
      JoinUnit(w);
      assert InAll([p][1..], NO_WORD);
    }
    if InAll([p], w) {
      var u, v :| w == Join(u, v) && In([p][0], u) && InAll([p][1..], v);
      JoinUnit(u);
    }
  }

  lemma {:induction false} DropEach(ps: seq<Pattern<LeafDef>>, x: LeafDef, d: Word, w: Word)
    requires LooseAll(ps, x) && OneToken(d, x)
    ensures InEach(ps, Join(d, w)) ==> InEach(ps, w)
    decreases ps, 0, 0
  {
    NoTokenInNoWord(d, w, x);
    if ps != [] && InEach(ps, Join(d, w)) {
      var u, v :| Join(d, w) == Join(u, v) && (u == NO_WORD || In(ps[0], u)) && InEach(ps[1..], v);
      var inFirst, y := JoinHead(d, w, u, v, x);
      if inFirst {
        NoTokenInNoWord(d, y, x);
        DropLoose(ps[0], x, d, y);
      } else {
        DropEach(ps[1..], x, d, y);
      }
    }
  }

  lemma {:induction false} DropLooseSome(ps: seq<Pattern<LeafDef>>, x: LeafDef, d: Word, w: Word)
    requires LooseAll(ps, x) && OneToken(d, x)
    ensures InSome(ps, Join(d, w)) ==> w == NO_WORD || InSome(ps, w)
    decreases ps, 0, 0
  {
    if ps != [] {
      DropLoose(ps[0], x, d, w);
      DropLooseSome(ps[1..], x, d, w);
    }
  }

  lemma {:induction false} DropLooseCopies(
    ps: seq<Pattern<LeafDef>>, n: nat, x: LeafDef, d: Word, w: Word) returns (m: nat)
    requires Loose(OneOrMore(ps), x) && OneToken(d, x)
    ensures InAll(Copies(ps[0], n), Join(d, w)) ==> InAll(Copies(ps[0], m), w)
    decreases ps, n, 2
  {
    m := 0;
    if InAll(Copies(ps[0], n), Join(d, w)) {
      NoTokenInNoWord(d, w, x);
      var k, u, v := CopiesSplit(ps[0], n, Join(d, w));
      var inFirst, y := JoinHead(d, w, u, v, x);
      if inFirst {
        DropLoose(ps[0], x, d, y);
        m := CopiesJoin(ps[0], k, y, v);
      } else {
        m := DropLooseCopies(ps, k, x, d, y);
        m := CopiesJoin(ps[0], m, u, y);
      }
    }
  }

  // ---------- Words with a word less ----------

  /** Every token of the word is for one of the leaves. */
  ghost predicate Over(w: Word, xs: set<LeafDef>) {
    && (forall v <- w.pos :: exists x <- xs :: !x.Option? && OneToken(Word([v], multiset{}), x))
    && (forall n <- w.opts :: exists x <- xs :: x.Option? && x.Name() == n)
  }

  /** A word that is not empty is a token and the rest. */
  lemma FirstToken(t: Word, xs: set<LeafDef>) returns (x: LeafDef, d: Word, t': Word)
    requires t != NO_WORD && Over(t, xs)
    ensures x in xs && OneToken(d, x) && t == Join(d, t') && Over(t', xs)
    ensures |t'.pos| + |t'.opts| < |t.pos| + |t.opts|
  {
    if t.pos != [] {
      assert t.pos[0] in t.pos;
      x :| x in xs && !x.Option? && OneToken(Word([t.pos[0]], multiset{}), x);
      d, t' := Word([t.pos[0]], multiset{}), Word(t.pos[1..], t.opts);
      assert t.pos == d.pos + t'.pos;
    } else {
      var n :| n in t.opts;
      x :| x in xs && x.Option? && x.Name() == n;
      d, t' := Word([], multiset{n}), Word([], t.opts - multiset{n});
      assert t.opts == d.opts + t'.opts;
    }
  }

  /** A word all of whose tokens can be dropped can be dropped. */
  lemma {:induction false} DropWord(qs: seq<Pattern<LeafDef>>, t: Word, w: Word, xs: set<LeafDef>)
    requires Over(t, xs) && forall x <- xs :: DroppableAll(qs, x)
    ensures InAll(qs, Join(t, w)) ==> InAll(qs, w)
    decreases |t.pos| + |t.opts|
  {
    if t == NO_WORD {
      JoinUnit(w);
    } else {
      var x, d, t' := FirstToken(t, xs);
      JoinAssoc(d, t', w);
      DropAll(qs, x, d, Join(t', w));
      DropWord(qs, t', w, xs);
    }
  }

  lemma OverJoin(u: Word, v: Word, a: set<LeafDef>, b: set<LeafDef>)
    requires Over(u, a) && Over(v, b)
    ensures Over(Join(u, v), a + b)
  {
    forall t <- u.pos + v.pos ensures exists x <- a + b :: !x.Option? && OneToken(Word([t], multiset{}), x) {
      assert t in u.pos || t in v.pos;
    }
    forall n <- u.opts + v.opts ensures exists x <- a + b :: x.Option? && x.Name() == n {
      assert n in u.opts || n in v.opts;
    }
  }

  /** The tokens of a word are for the leaves of its pattern. */
  lemma LeafOver(leaf: LeafDef, w: Word)
    requires In(Leaf(leaf), w)
    ensures Over(w, {leaf})
  {
    assert leaf in {leaf};
    if !leaf.Option? { assert w == Word([w.pos[0]], multiset{}); }
  }

  lemma {:induction false} InOver(p: Pattern<LeafDef>, w: Word)
    requires In(p, w)
    ensures Over(w, Leaves(p))
    decreases p, 0, 1
  {
    match p
    case Leaf(leaf) => LeafOver(leaf, w);
    case Required(ps) => InAllOver(ps, w);
    case Optional(ps) => InEachOver(ps, w);
    case OptionsShortcut(ps) => InEachOver(ps, w);
    case OneOrMore(ps) =>
      var n := Rounds(ps, w);
      LeavesOfOne(ps);
      InCopiesOver(ps, n, w);
    case Either(ps) => InSomeOver(ps, w);
  }

  lemma {:induction false} InAllOver(ps: seq<Pattern<LeafDef>>, w: Word)
    requires InAll(ps, w)
    ensures Over(w, LeavesAll(ps))
    decreases ps, 0, 0
  {
    if ps != [] {
      var u, v :| w == Join(u, v) && In(ps[0], u) && InAll(ps[1..], v);
      InOver(ps[0], u);
      InAllOver(ps[1..], v);
      OverJoin(u, v, Leaves(ps[0]), LeavesAll(ps[1..]));
    }
  }

  lemma {:induction false} InEachOver(ps: seq<Pattern<LeafDef>>, w: Word)
    requires InEach(ps, w)
    ensures Over(w, LeavesAll(ps))
    decreases ps, 0, 0
  {
    if ps != [] {
      var u, v :| w == Join(u, v) && (u == NO_WORD || In(ps[0], u)) && InEach(ps[1..], v);
      if u != NO_WORD { InOver(ps[0], u); }
      InEachOver(ps[1..], v);
      OverJoin(u, v, Leaves(ps[0]), LeavesAll(ps[1..]));
    }
  }

  lemma {:induction false} InCopiesOver(ps: seq<Pattern<LeafDef>>, n: nat, w: Word)
    requires |ps| == 1 && InAll(Copies(ps[0], n), w)
    ensures Over(w, Leaves(ps[0]))
    decreases ps, n, 2
  {
    if w != NO_WORD {
      var k, u, v := CopiesSplit(ps[0], n, w);
      InOver(ps[0], u);
      InCopiesOver(ps, k, v);
      OverJoin(u, v, Leaves(ps[0]), Leaves(ps[0]));
    }
  }

  lemma {:induction false} InSomeOver(ps: seq<Pattern<LeafDef>>, w: Word)
    requires InSome(ps, w)
    ensures Over(w, LeavesAll(ps))
    decreases ps, 0, 0
  {
    if In(ps[0], w) { InOver(ps[0], w); } else { InSomeOver(ps[1..], w); }
  }

  // ---------- Sequences of patterns ----------

  lemma {:induction false} InAllConcat(ps: seq<Pattern<LeafDef>>, qs: seq<Pattern<LeafDef>>, u: Word, v: Word)
    requires InAll(ps, u) && InAll(qs, v)
    ensures InAll(ps + qs, Join(u, v))
    decreases |ps|
  {
    if ps == [] {
      assert ps + qs == qs;
      JoinUnit(v);
    } else {
      var a, b :| u == Join(a, b) && In(ps[0], a) && InAll(ps[1..], b);
      ConcatTail(ps, qs);
      InAllConcat(ps[1..], qs, b, v);
      JoinAssoc(a, b, v);
    }
  }

  lemma {:induction false} InAllSplit(
    ps: seq<Pattern<LeafDef>>, qs: seq<Pattern<LeafDef>>, w: Word) returns (u: Word, v: Word)
    requires InAll(ps + qs, w)
    ensures w == Join(u, v) && InAll(ps, u) && InAll(qs, v)
    decreases |ps|
  {
    if ps == [] {
      assert ps + qs == qs;
      JoinUnit(w);
      u, v := NO_WORD, w;
    } else {
      ConcatTail(ps, qs);
      var a, b :| w == Join(a, b) && In(ps[0], a) && InAll(ps[1..] + qs, b);
      u, v := InAllSplit(ps[1..], qs, b);
      JoinAssoc(a, u, v);
      u := Join(a, u);
    }
  }

  lemma {:induction false} DroppableConcat(ps: seq<Pattern<LeafDef>>, qs: seq<Pattern<LeafDef>>, x: LeafDef)
    requires DroppableAll(ps, x) && DroppableAll(qs, x)
    ensures DroppableAll(ps + qs, x)
    decreases |ps|
  {
    if ps == [] {
      assert ps + qs == qs;
    } else {
      ConcatTail(ps, qs);
      if !Blocks(ps[0], LeafChannel(x)) { DroppableConcat(ps[1..], qs, x); }
    }
  }

  lemma {:induction false} DroppableCopies(p: Pattern<LeafDef>, n: nat, x: LeafDef)
    requires Droppable(p, x)
    ensures DroppableAll(Copies(p, n), x)
    decreases n
  {
    if n > 0 {
      Head(p, Copies(p, n - 1));
      DroppableCopies(p, n - 1, x);
    }
  }

  lemma {:induction false} FlexibleIsOwn(p: Pattern<LeafDef>)
    ensures Flexible(p) <= Leaves(p)
    decreases p, 1
  {
    if p.Required? { FlexibleAllIsOwn(p.children); }
  }

  lemma {:induction false} FlexibleAllIsOwn(ps: seq<Pattern<LeafDef>>)
    ensures FlexibleAll(ps) <= LeavesAll(ps)
    decreases ps, 0
  {
    if ps != [] {
      FlexibleIsOwn(ps[0]);
      FlexibleAllIsOwn(ps[1..]);
    }
  }

  // ---------- Taking as much as possible is never wrong ----------

  lemma LeafTakesWord(leaf: LeafDef, toks: seq<Tok>, u: Word, v: Word)
    requires (leaf.Option? ==> leaf.Name() != "") && WordOf(toks) == Join(u, v) && In(Leaf(leaf), u)
    ensures var r := Match(Leaf(leaf), toks); r.ok && WordOf(r.left) == v
  {
    var ch := LeafChannel(leaf);
    PickHead(leaf, toks);
    WordOnChannels(toks, leaf.Name());
    var c := Proj(toks, ch);
    if leaf.Option? {
      assert (u.opts + v.opts)[leaf.Name()] >= 1;
    } else {
      assert (u.pos + v.pos)[0] == u.pos[0];
      HeadValue(toks);
    }
    var i, r := Pick(leaf, toks), Match(Leaf(leaf), toks);
    LeafConserves(leaf, toks, i);
    ConservesWord(toks, r);
    TakenOne(leaf, toks[i]);
    assert TokWord(toks[i]) == u;
    JoinCancel(u, WordOf(r.left), v);
  }

  lemma {:induction false} AllPositional(toks: seq<Tok>)
    ensures forall t <- Proj(toks, Positionals) :: t.Pos?
  {
    if toks != [] { AllPositional(toks[1..]); }
  }

  /** The first positional of a word is the value of the first positional token. */
  lemma HeadValue(toks: seq<Tok>)
    requires WordOf(toks).pos != []
    ensures var c := Proj(toks, Positionals); c != [] && c[0].Pos? && c[0].value == WordOf(toks).pos[0]
  {
    WordOnChannels(toks, "");
    AllPositional(toks);
    var c := Proj(toks, Positionals);
    if c != [] { assert c[0] in c; }
  }

  /** What `p` takes beyond need, from words of what follows, what follows can do without. */
  lemma TakesDroppable(p: Pattern<LeafDef>, qs: seq<Pattern<LeafDef>>, toks: seq<Tok>)
    requires WellFormed(p) && NamedOptions(p) && InAll(qs, WordOf(toks)) && Match(p, toks).ok
    requires forall x <- Leaves(p) :: DroppableAll(qs, x)
    ensures InAll(qs, WordOf(Match(p, toks).left))
  {
    var r := Match(p, toks);
    MatchSound(p, toks);
    MatchConserves(p, toks);
    ConservesWord(toks, r);
    InOver(p, TakenWord(r.log));
    DropWord(qs, TakenWord(r.log), WordOf(r.left), Leaves(p));
  }

  /** A word of `p` and of what follows leaves a word of what follows. */
  lemma {:induction false} Completes(
    p: Pattern<LeafDef>, last: bool, qs: seq<Pattern<LeafDef>>, toks: seq<Tok>, u: Word, v: Word)
    requires WellFormed(p) && NamedOptions(p) && Orderly(p, last) && (last ==> qs == [])
    requires forall x <- Flexible(p) :: DroppableAll(qs, x)
    ensures WordOf(toks) == Join(u, v) && In(p, u) && InAll(qs, v) ==>
      Match(p, toks).ok && InAll(qs, WordOf(Match(p, toks).left))
    decreases p, |toks|, 0, 0
  {
    if WordOf(toks) == Join(u, v) && In(p, u) && InAll(qs, v) {
      match p
      case Leaf(leaf) => LeafTakesWord(leaf, toks, u, v);
      case Required(ps) => CompletesAll(ps, last, qs, toks, u, v);
      case Optional(ps) => CompletesEach(ps, last, qs, toks, u, v);
      case OptionsShortcut(ps) => CompletesEach(ps, last, qs, toks, u, v);
      case OneOrMore(ps) =>
        var n := Rounds(ps, u);
        LeavesOfOne(ps);
        InAllConcat(Copies(ps[0], n), qs, u, v);
        CompletesMore(ps, n, qs, toks);
      case Either(ps) =>
        JoinUnit(u);
        var k := CompletesSome(ps, toks, u);
        var outs := MatchOutcomes(ps, toks);
        assert Sizes(outs)[FirstMin(Sizes(outs))] <= Sizes(outs)[k] == 0;
    }
  }

  lemma {:induction false} CompletesAll(
    ps: seq<Pattern<LeafDef>>, last: bool, qs: seq<Pattern<LeafDef>>, toks: seq<Tok>, u: Word, v: Word)
    requires WellFormedAll(ps) && NamedOptionsAll(ps) && OrderlyAll(ps, last) && (last ==> qs == [])
    requires forall x <- FlexibleAll(ps) :: DroppableAll(qs, x)
    requires WordOf(toks) == Join(u, v) && InAll(ps, u) && InAll(qs, v)
    ensures MatchAll(ps, toks).ok && InAll(qs, WordOf(MatchAll(ps, toks).left))
    decreases ps, |toks|, 0, 0
  {
    if ps == [] {
      JoinUnit(v);
    } else {
      var a, b := InAllUncons(ps, u);
      var rest := ps[1..] + qs;
      JoinAssoc(a, b, v);
      InAllConcat(ps[1..], qs, b, v);
      forall x <- Flexible(ps[0]) ensures DroppableAll(rest, x) {
        DroppableConcat(ps[1..], qs, x);
      }
      Completes(ps[0], last && |ps| == 1, rest, toks, a, Join(b, v));
      var m := Match(ps[0], toks);
      var b', v' := InAllSplit(ps[1..], qs, WordOf(m.left));
      CompletesAll(ps[1..], last, qs, m.left, b', v');
    }
  }

  /** What follows the first of several optional parts. */
  ghost function After(ps: seq<Pattern<LeafDef>>, qs: seq<Pattern<LeafDef>>): seq<Pattern<LeafDef>> {
    (if ps == [] then [] else [Optional(ps)]) + qs
  }

  lemma AfterWord(ps: seq<Pattern<LeafDef>>, u: Word)
    ensures InEach(ps, u) <==> InAll(if ps == [] then [] else [Optional(ps)], u)
  {
    if ps != [] { InAllOne(Optional(ps), u); }
  }

  lemma AfterDroppable(ps: seq<Pattern<LeafDef>>, qs: seq<Pattern<LeafDef>>, x: LeafDef)
    requires LooseAll(ps, x) && DroppableAll(qs, x)
    ensures DroppableAll(After(ps, qs), x)
  {
    if ps != [] {
      assert Droppable(Optional(ps), x) && [Optional(ps)][1..] == [];
      DroppableConcat([Optional(ps)], qs, x);
    } else {
      assert After(ps, qs) == qs;
    }
  }

  lemma AfterFollows(ps: seq<Pattern<LeafDef>>, qs: seq<Pattern<LeafDef>>, b: Word, v: Word)
    requires InEach(ps, b) && InAll(qs, v)
    ensures InAll(After(ps, qs), Join(b, v))
  {
    AfterWord(ps, b);
    InAllConcat(if ps == [] then [] else [Optional(ps)], qs, b, v);
  }

  lemma AfterSplit(ps: seq<Pattern<LeafDef>>, qs: seq<Pattern<LeafDef>>, w: Word) returns (b: Word, v: Word)
    requires InAll(After(ps, qs), w)
    ensures w == Join(b, v) && InEach(ps, b) && InAll(qs, v)
  {
    b, v := InAllSplit(if ps == [] then [] else [Optional(ps)], qs, w);
    AfterWord(ps, b);
  }

  /** The first of several optional parts, with a word for it or without. */
  lemma {:induction false} CompletesFirst(
    p: Pattern<LeafDef>, last: bool, rest: seq<Pattern<LeafDef>>, toks: seq<Tok>, a: Word, w: Word)
    requires WellFormed(p) && NamedOptions(p) && Orderly(p, last) && (last ==> rest == [])
    requires forall x <- Leaves(p) :: DroppableAll(rest, x)
    requires WordOf(toks) == Join(a, w) && (a == NO_WORD || In(p, a)) && InAll(rest, w)
    ensures InAll(rest, WordOf(Match(p, toks).left))
    decreases p, |toks|, 1, 0
  {
    FlexibleIsOwn(p);
    if a != NO_WORD {
      Completes(p, last, rest, toks, a, w);
    } else {
      JoinUnit(w);
      if Match(p, toks).ok { TakesDroppable(p, rest, toks); }
    }
  }

  lemma {:induction false} CompletesEach(
    ps: seq<Pattern<LeafDef>>, last: bool, qs: seq<Pattern<LeafDef>>, toks: seq<Tok>, u: Word, v: Word)
    requires WellFormedAll(ps) && NamedOptionsAll(ps) && OrderlyEach(ps, last) && (last ==> qs == [])
    requires forall x <- LeavesAll(ps) :: DroppableAll(qs, x)
    requires WordOf(toks) == Join(u, v) && InEach(ps, u) && InAll(qs, v)
    ensures InAll(qs, WordOf(MatchEach(ps, toks).left))
    decreases ps, |toks|, 0, 0
  {
    if ps == [] {
      JoinUnit(v);
    } else {
      var a, b :| u == Join(a, b) && (a == NO_WORD || In(ps[0], a)) && InEach(ps[1..], b);
      var rest := After(ps[1..], qs);
      JoinAssoc(a, b, v);
      AfterFollows(ps[1..], qs, b, v);
      forall x <- Leaves(ps[0]) ensures DroppableAll(rest, x) {
        AfterDroppable(ps[1..], qs, x);
      }
      CompletesFirst(ps[0], last && |ps| == 1, rest, toks, a, Join(b, v));
      var m := Match(ps[0], toks);
      var b', v' := AfterSplit(ps[1..], qs, WordOf(m.left));
      CompletesEach(ps[1..], last, qs, m.left, b', v');
    }
  }

  /** Rounds beyond need take what can be dropped. */
  lemma {:induction false} MoreRounds(p: Pattern<LeafDef>, qs: seq<Pattern<LeafDef>>, toks: seq<Tok>)
    requires WellFormed(p) && NamedOptions(p) && InAll(qs, WordOf(toks))
    requires forall x <- Leaves(p) :: DroppableAll(qs, x)
    ensures InAll(qs, WordOf(MatchMore(p, toks).left))
    decreases |toks|
  {
    var m := Match(p, toks);
    if m.ok && m.log != [] {
      TakesDroppable(p, qs, toks);
      MoreRounds(p, qs, m.left);
    }
  }

  lemma MatchMoreStep(p: Pattern<LeafDef>, toks: seq<Tok>)
    requires WellFormed(p) && Match(p, toks).ok
    ensures MatchMore(p, toks).left == MatchMore(p, Match(p, toks).left).left
  {}

  lemma CopiesDroppable(p: Pattern<LeafDef>, n: nat, qs: seq<Pattern<LeafDef>>)
    requires (forall x <- Flexible(p) :: Droppable(p, x)) && forall x <- Leaves(p) :: DroppableAll(qs, x)
    ensures forall x <- Flexible(p) :: DroppableAll(Copies(p, n) + qs, x)
  {
    FlexibleIsOwn(p);
    forall x <- Flexible(p) ensures DroppableAll(Copies(p, n) + qs, x) {
      DroppableCopies(p, n, x);
      DroppableConcat(Copies(p, n), qs, x);
    }
  }

  lemma {:induction false} CompletesMore(ps: seq<Pattern<LeafDef>>, n: nat, qs: seq<Pattern<LeafDef>>, toks: seq<Tok>)
    requires WellFormed(OneOrMore(ps)) && NamedOptionsAll(ps) && Orderly(OneOrMore(ps), false)
    requires forall x <- Leaves(ps[0]) :: DroppableAll(qs, x)
    requires InAll(Copies(ps[0], n) + qs, WordOf(toks))
    ensures (n >= 1 ==> Match(ps[0], toks).ok) && InAll(qs, WordOf(MatchMore(ps[0], toks).left))
    decreases ps, |toks|, 1, n
  {
    if n == 0 {
      assert Copies(ps[0], n) + qs == qs;
      MoreRounds(ps[0], qs, toks);
    } else {
      var k: nat := n - 1;
      var rest := Copies(ps[0], k) + qs;
      CopiesCons(ps[0], k);
      ConcatTail(Copies(ps[0], n), qs);
      var a, b := InAllUncons(Copies(ps[0], n) + qs, WordOf(toks));
      CopiesDroppable(ps[0], k, qs);
      Completes(ps[0], false, rest, toks, a, b);
      CompletesMore(ps, k, qs, Match(ps[0], toks).left);
      MatchMoreStep(ps[0], toks);
    }
  }

  lemma {:induction false} CompletesSome(ps: seq<Pattern<LeafDef>>, toks: seq<Tok>, u: Word) returns (k: nat)
    requires WellFormedAll(ps) && NamedOptionsAll(ps) && OrderlySome(ps)
    requires WordOf(toks) == u && InSome(ps, u)
    ensures k < |MatchOutcomes(ps, toks)| && MatchOutcomes(ps, toks)[k].left == []
    decreases ps, |toks|, 0, 0
  {
    var m := Match(ps[0], toks);
    if In(ps[0], u) {
      JoinUnit(u);
      Completes(ps[0], true, [], toks, u, NO_WORD);
      EmptyWord(m.left);
      k := 0;
    } else {
      var j := CompletesSome(ps[1..], toks, u);
      k := if m.ok then j + 1 else j;
    }
  }

  lemma {:induction false} WordSize(toks: seq<Tok>)
    ensures |WordOf(toks).pos| + |WordOf(toks).opts| == |toks|
  {
    if toks != [] { WordSize(toks[1..]); }
  }

  lemma EmptyWord(toks: seq<Tok>)
    requires WordOf(toks) == NO_WORD
    ensures toks == []
  {
    WordSize(toks);
  }

  /** An orderly pattern accepts exactly the words of its language. */
  lemma OrderlyAcceptsItsLanguage(p: Pattern<LeafDef>, toks: seq<Tok>)
    requires WellFormed(p) && NamedOptions(p) && Orderly(p, true)
    ensures Accepts(p, toks) <==> In(p, WordOf(toks))
  {
    if Accepts(p, toks) { AcceptedIsInLanguage(p, toks); }
    if In(p, WordOf(toks)) {
      JoinUnit(WordOf(toks));
      Completes(p, true, [], toks, WordOf(toks), NO_WORD);
      EmptyWord(Match(p, toks).left);
    }
  }

  // ---------- Flat patterns: in order if and only if complete ----------

  /** A leaf, or a leaf repeated. */
  predicate IsSimple(p: Pattern<LeafDef>) {
    p.Leaf? || (p.OneOrMore? && |p.children| == 1 && p.children[0].Leaf?)
  }

  function SimpleLeaf(p: Pattern<LeafDef>): LeafDef
    requires IsSimple(p)
  {
    if p.Leaf? then p.leaf else p.children[0].leaf
  }

  /** What a usage line without groups and alternatives consists of. */
  predicate IsFlat(p: Pattern<LeafDef>) {
    IsSimple(p) || ((p.Optional? || p.OptionsShortcut?) && forall q <- p.children :: IsSimple(q))
  }

  predicate AreFlat(ps: seq<Pattern<LeafDef>>) {
    forall p <- ps :: IsFlat(p)
  }

  /** How many of the items must take a token from `ch`. */
  function Needs(items: seq<Pattern<LeafDef>>, ch: Channel): nat {
    if items == [] then 0 else
    (if IsSimple(items[0]) && LeafChannel(SimpleLeaf(items[0])) == ch then 1 else 0) + Needs(items[1..], ch)
  }

  /** The first item that must take a token from the channel of `x` has no use for what `x` takes. */
  predicate Spares(items: seq<Pattern<LeafDef>>, x: LeafDef) {
    items == [] ||
    if IsSimple(items[0]) && LeafChannel(SimpleLeaf(items[0])) == LeafChannel(x) then !Clash(SimpleLeaf(items[0]), x)
    else Spares(items[1..], x)
  }

  /** Behind every optional or repeated item comes first one that spares its leaves, channel by channel. */
  ghost predicate InOrder(items: seq<Pattern<LeafDef>>) {
    items == [] || (
      && (items[0].Leaf? || forall x <- Leaves(items[0]) :: Spares(items[1..], x))
      && InOrder(items[1..]))
  }

  lemma SimpleFacts(p: Pattern<LeafDef>, x: LeafDef, last: bool)
    requires IsSimple(p)
    ensures Orderly(p, last) && Loose(p, x) && Leaves(p) == {SimpleLeaf(p)}
    ensures !Clash(SimpleLeaf(p), x) ==> Droppable(p, x)
    ensures LeafChannel(SimpleLeaf(p)) == LeafChannel(x) ==> Blocks(p, LeafChannel(x))
  {
    if p.OneOrMore? {
      var q := p.children[0];
      assert Flexible(q) == {} && Orderly(q, false) && Loose(q, x);
      LeavesOfOne(p.children);
    }
  }

  lemma {:induction false} SimplesLoose(ps: seq<Pattern<LeafDef>>, x: LeafDef)
    requires forall q <- ps :: IsSimple(q)
    ensures LooseAll(ps, x)
  {
    if ps != [] {
      SimpleFacts(ps[0], x, false);
      SimplesLoose(ps[1..], x);
    }
  }

  lemma {:induction false} SimplesOrderly(ps: seq<Pattern<LeafDef>>, last: bool)
    requires forall q <- ps :: IsSimple(q)
    ensures OrderlyEach(ps, last)
  {
    if ps != [] {
      SimpleFacts(ps[0], SimpleLeaf(ps[0]), last && |ps| == 1);
      SimplesOrderly(ps[1..], last);
      forall x <- Leaves(ps[0]) ensures LooseAll(ps[1..], x) {
        SimplesLoose(ps[1..], x);
      }
    }
  }

  lemma {:induction false} SparedDroppable(items: seq<Pattern<LeafDef>>, x: LeafDef)
    requires AreFlat(items) && Spares(items, x)
    ensures DroppableAll(items, x)
  {
    if items != [] {
      assert items[0] in items;
      if IsSimple(items[0]) { SimpleFacts(items[0], x, false); } else { SimplesLoose(items[0].children, x); }
      if !(IsSimple(items[0]) && LeafChannel(SimpleLeaf(items[0])) == LeafChannel(x)) {
        SparedDroppable(items[1..], x);
      }
    }
  }

  lemma {:induction false} InOrderIsOrderly(items: seq<Pattern<LeafDef>>)
    requires AreFlat(items) && InOrder(items)
    ensures OrderlyAll(items, true)
  {
    if items != [] {
      var h, rest := items[0], items[1..];
      assert h in items;
      InOrderIsOrderly(rest);
      if IsSimple(h) { SimpleFacts(h, SimpleLeaf(h), |items| == 1); } else { SimplesOrderly(h.children, |items| == 1); }
      FlexibleIsOwn(h);
      forall x <- Flexible(h) ensures DroppableAll(rest, x) {
        SparedDroppable(rest, x);
      }
    }
  }

  /** A flat pattern in order accepts exactly the words of its language. */
  lemma InOrderIsComplete(items: seq<Pattern<LeafDef>>, toks: seq<Tok>)
    requires AreFlat(items) && WellFormedAll(items) && NamedOptionsAll(items) && InOrder(items)
    ensures Accepts(Required(items), toks) <==> In(Required(items), WordOf(toks))
  {
    InOrderIsOrderly(items);
    OrderlyAcceptsItsLanguage(Required(items), toks);
  }

  // ---------- What flat patterns take ----------

  lemma LessLeft(toks: seq<Tok>, r: Outcome, ch: Channel)
    requires Conserves(toks, r)
    ensures |Proj(r.left, ch)| <= |Proj(toks, ch)|
  {
    assert Proj(toks, ch) == Proj(Taken(r.log), ch) + Proj(r.left, ch);
  }

  /** A leaf that matches takes the head of its channel and nothing else. */
  lemma LeafEffect(leaf: LeafDef, toks: seq<Tok>, ch: Channel)
    requires leaf.Option? ==> leaf.Name() != ""
    ensures var r, c := Match(Leaf(leaf), toks), Proj(toks, ch);
            && (ch != LeafChannel(leaf) ==> Proj(r.left, ch) == c)
            && (ch == LeafChannel(leaf) && r.ok ==> c != [] && Proj(r.left, ch) == c[1..])
            && (ch == LeafChannel(leaf) && !leaf.Command? ==> (r.ok <==> c != []))
  {
    PickHead(leaf, toks);
    var i := Pick(leaf, toks);
    if i < |toks| {
      PickIsFirst(leaf, toks);
      ProjRemove(toks, i, ch);
    }
  }

  lemma SimpleTakes(p: Pattern<LeafDef>, toks: seq<Tok>)
    requires IsSimple(p) && WellFormed(p) && NamedOptions(p) && Match(p, toks).ok
    ensures var ch := LeafChannel(SimpleLeaf(p)); |Proj(Match(p, toks).left, ch)| < |Proj(toks, ch)|
  {
    var leaf := SimpleLeaf(p);
    var m, ch := Match(Leaf(leaf), toks), LeafChannel(leaf);
    if p.OneOrMore? {
      assert p.children[0] == Leaf(leaf) && NamedOptions(p.children[0]);
      MatchMoreConserves(Leaf(leaf), m.left);
      LessLeft(m.left, MatchMore(Leaf(leaf), m.left), ch);
    }
    LeafEffect(leaf, toks, ch);
  }

  /** A flat pattern that matches finds what it needs on every channel. */
  lemma {:induction false} MatchMeetsNeeds(items: seq<Pattern<LeafDef>>, toks: seq<Tok>, ch: Channel)
    requires AreFlat(items) && WellFormedAll(items) && NamedOptionsAll(items) && MatchAll(items, toks).ok
    ensures |Proj(toks, ch)| >= Needs(items, ch)
    decreases |items|
  {
    if items != [] {
      var m := Match(items[0], toks);
      MatchConserves(items[0], toks);
      LessLeft(toks, m, ch);
      if IsSimple(items[0]) { SimpleTakes(items[0], toks); }
      MatchMeetsNeeds(items[1..], m.left, ch);
    }
  }

  // ---------- Out of order, a shortest word is rejected ----------

  predicate CanTake(x: LeafDef, t: Tok) {
    ChannelOf(t) == LeafChannel(x) && (x.Command? ==> t.Pos? && t.value == Str(x.cmdName))
  }

  /** One token for every item that must take one, in order: a shortest word. */
  predicate Spells(items: seq<Pattern<LeafDef>>, toks: seq<Tok>) {
    if items == [] then toks == []
    else if IsSimple(items[0]) then
      toks != [] && CanTake(SimpleLeaf(items[0]), toks[0]) && Spells(items[1..], toks[1..])
    else Spells(items[1..], toks)
  }

  /** What is left of a shortest word for the items after the first. */
  function Later(items: seq<Pattern<LeafDef>>, toks: seq<Tok>): seq<Tok>
    requires items != [] && Spells(items, toks)
  {
    if IsSimple(items[0]) then toks[1..] else toks
  }

  /** Some optional or repeated item can take the token of a later one. */
  ghost predicate Tempts(items: seq<Pattern<LeafDef>>, toks: seq<Tok>)
    requires Spells(items, toks)
  {
    items != [] && (
      || (!items[0].Leaf? && exists x <- Leaves(items[0]) :: Match(Leaf(x), Later(items, toks)).ok)
      || Tempts(items[1..], Later(items, toks)))
  }

  lemma {:induction false} SpellsJustEnough(items: seq<Pattern<LeafDef>>, toks: seq<Tok>, ch: Channel)
    requires Spells(items, toks)
    ensures |Proj(toks, ch)| == Needs(items, ch)
  {
    if items != [] { SpellsJustEnough(items[1..], Later(items, toks), ch); }
  }

  /** A leaf takes the first token of its word. */
  lemma LeafTakesFirst(x: LeafDef, toks: seq<Tok>)
    requires toks != [] && CanTake(x, toks[0]) && HasName(x)
    ensures Match(Leaf(x), toks).ok && Match(Leaf(x), toks).left == toks[1..]
  {
    assert Pick(x, toks) == 0;
  }

  /** When the first item takes more than its share, the others starve. */
  lemma TakesTooMuch(items: seq<Pattern<LeafDef>>, toks: seq<Tok>, ch: Channel)
    requires items != [] && AreFlat(items) && WellFormedAll(items) && NamedOptionsAll(items) && Spells(items, toks)
    requires |Proj(Match(items[0], toks).left, ch)| < |Proj(Later(items, toks), ch)|
    ensures !MatchAll(items, toks).ok
  {
    SpellsJustEnough(items[1..], Later(items, toks), ch);
    if MatchAll(items, toks).ok { MatchMeetsNeeds(items[1..], Match(items[0], toks).left, ch); }
  }

  /** Optional leaves one of which can take something take something. */
  lemma {:induction false} EachTakes(ps: seq<Pattern<LeafDef>>, toks: seq<Tok>, x: LeafDef)
    requires WellFormedAll(ps) && (forall q <- ps :: IsSimple(q)) && x in LeavesAll(ps) && Match(Leaf(x), toks).ok
    ensures MatchEach(ps, toks).log != []
  {
    var m := Match(ps[0], toks);
    SimpleFacts(ps[0], x, false);
    if x in Leaves(ps[0]) {
      if ps[0].OneOrMore? { assert ps[0].children[0] == Leaf(x) && MatchMore(Leaf(x), toks).log != []; }
    } else if m.log == [] {
      EachTakes(ps[1..], toks, x);
    }
  }

  lemma TakenHas(toks: seq<Tok>, r: Outcome)
    requires Conserves(toks, r) && r.log != []
    ensures |Proj(r.left, ChannelOf(r.log[0].tok))| < |Proj(toks, ChannelOf(r.log[0].tok))|
  {
    var t := r.log[0].tok;
    assert Proj(toks, ChannelOf(t)) == Proj(Taken(r.log), ChannelOf(t)) + Proj(r.left, ChannelOf(t));
    Head(t, Taken(r.log[1..]));
  }

  /** The first item takes its share of a shortest word and no more, or the match fails. */
  lemma TakesItsShare(items: seq<Pattern<LeafDef>>, toks: seq<Tok>)
    requires items != [] && AreFlat(items) && WellFormedAll(items) && NamedOptionsAll(items) && Spells(items, toks)
    ensures !MatchAll(items, toks).ok || Match(items[0], toks).left == Later(items, toks)
    ensures !items[0].Leaf? && (exists x <- Leaves(items[0]) :: Match(Leaf(x), Later(items, toks)).ok) ==>
      !MatchAll(items, toks).ok
  {
    var h := items[0];
    assert h in items;
    if h.Leaf? {
      LeafTakesFirst(h.leaf, toks);
    } else if IsSimple(h) {
      RepeatedShare(items, toks);
    } else {
      var m := Match(h, toks);
      MatchConserves(h, toks);
      if m.log != [] {
        TakenHas(toks, m);
        TakesTooMuch(items, toks, ChannelOf(m.log[0].tok));
      } else if x :| x in Leaves(h) && Match(Leaf(x), toks).ok {
        EachTakes(h.children, toks, x);
      }
    }
  }

  lemma RepeatedShare(items: seq<Pattern<LeafDef>>, toks: seq<Tok>)
    requires items != [] && AreFlat(items) && WellFormedAll(items) && NamedOptionsAll(items) && Spells(items, toks)
    requires IsSimple(items[0]) && !items[0].Leaf?
    ensures var x := SimpleLeaf(items[0]);
            if Match(Leaf(x), toks[1..]).ok then !MatchAll(items, toks).ok else Match(items[0], toks).left == toks[1..]
    ensures Leaves(items[0]) == {SimpleLeaf(items[0])}
  {
    var h, x := items[0], SimpleLeaf(items[0]);
    SimpleFacts(h, x, false);
    NamedLeaf(h, x);
    LeafTakesFirst(x, toks);
    MatchMoreStep(Leaf(x), toks);
    var more := MatchMore(Leaf(x), toks[1..]);
    assert h.children[0] == Leaf(x) && Match(h, toks).left == more.left;
    if Match(Leaf(x), toks[1..]).ok {
      MatchMoreConserves(Leaf(x), toks[1..]);
      TakenHas(toks[1..], more);
      TakesTooMuch(items, toks, ChannelOf(more.log[0].tok));
    }
  }

  lemma {:induction false} TemptedStarves(items: seq<Pattern<LeafDef>>, toks: seq<Tok>)
    requires AreFlat(items) && WellFormedAll(items) && NamedOptionsAll(items) && Spells(items, toks)
    requires Tempts(items, toks)
    ensures !MatchAll(items, toks).ok
    decreases |items|
  {
    TakesItsShare(items, toks);
    if Tempts(items[1..], Later(items, toks)) { TemptedStarves(items[1..], Later(items, toks)); }
  }

  // ---------- A shortest word that tempts ----------

  /** A token that both can take, if there is one. */
  function TokFor(x: LeafDef, y: LeafDef): Tok {
    if x.Option? then Opt(0, x.Name())
    else if x.Command? then Pos(0, Str(x.cmdName))
    else if y.Command? then Pos(0, Str(y.cmdName))
    else Pos(0, Empty)
  }

  function Shortest(items: seq<Pattern<LeafDef>>): (toks: seq<Tok>)
    ensures Spells(items, toks)
  {
    if items == [] then []
    else if IsSimple(items[0]) then [TokFor(SimpleLeaf(items[0]), SimpleLeaf(items[0]))] + Shortest(items[1..])
    else Shortest(items[1..])
  }

  /** A shortest word whose first token on the channel is one for `x`. */
  lemma {:induction false} ShortestFor(items: seq<Pattern<LeafDef>>, x: LeafDef) returns (toks: seq<Tok>)
    requires !Spares(items, x) && HasName(x)
    ensures Spells(items, toks) && Match(Leaf(x), toks).ok
  {
    var rest := items[1..];
    if !IsSimple(items[0]) {
      toks := ShortestFor(rest, x);
    } else {
      var y := SimpleLeaf(items[0]);
      if LeafChannel(y) == LeafChannel(x) {
        toks := [TokFor(y, x)] + Shortest(rest);
        assert toks[1..] == Shortest(rest) && CanTake(x, toks[0]);
        LeafTakesFirst(x, toks);
      } else {
        var later := ShortestFor(rest, x);
        toks := [TokFor(y, y)] + later;
        assert toks[1..] == later;
        PickHead(x, later);
        PickHead(x, toks);
      }
    }
  }

  lemma {:induction false} TemptingWord(items: seq<Pattern<LeafDef>>) returns (toks: seq<Tok>)
    requires NamedOptionsAll(items) && !InOrder(items)
    ensures Spells(items, toks) && Tempts(items, toks)
  {
    var h, rest := items[0], items[1..];
    var later;
    if x :| !h.Leaf? && x in Leaves(h) && !Spares(rest, x) {
      NamedLeaf(h, x);
      later := ShortestFor(rest, x);
    } else {
      later := TemptingWord(rest);
    }
    toks := (if IsSimple(h) then [TokFor(SimpleLeaf(h), SimpleLeaf(h))] else []) + later;
    assert later == if IsSimple(h) then toks[1..] else toks;
  }

  lemma SimpleWord(p: Pattern<LeafDef>, t: Tok)
    requires IsSimple(p) && CanTake(SimpleLeaf(p), t)
    ensures In(p, TokWord(t))
  {
    var w := TokWord(t);
    JoinUnit(w);
    assert In(Leaf(SimpleLeaf(p)), w);
    if p.OneOrMore? {
      assert InPower(p.children[0], 0, NO_WORD) && InPower(p.children[0], 1, Join(w, NO_WORD));
    }
  }

  lemma {:induction false} SpelledIsWord(items: seq<Pattern<LeafDef>>, toks: seq<Tok>)
    requires AreFlat(items) && Spells(items, toks)
    ensures InAll(items, WordOf(toks))
  {
    if items != [] {
      assert items[0] in items;
      SpelledIsWord(items[1..], Later(items, toks));
      if IsSimple(items[0]) {
        SimpleWord(items[0], toks[0]);
        InAllCons(items, TokWord(toks[0]), WordOf(toks[1..]));
      } else {
        NothingOptional(items[0].children);
        JoinUnit(WordOf(toks));
        InAllCons(items, NO_WORD, WordOf(toks));
      }
    }
  }

  lemma {:induction false} NothingOptional(ps: seq<Pattern<LeafDef>>)
    ensures InEach(ps, NO_WORD)
  {
    if ps != [] {
      NothingOptional(ps[1..]);
      JoinUnit(NO_WORD);
    }
  }

  /** A flat pattern accepts exactly the words of its language if and only if it is in order. */
  lemma CompleteIffInOrder(items: seq<Pattern<LeafDef>>)
    requires AreFlat(items) && WellFormedAll(items) && NamedOptionsAll(items)
    ensures InOrder(items) <==> forall toks :: Accepts(Required(items), toks) <==> In(Required(items), WordOf(toks))
  {
    if InOrder(items) {
      forall toks ensures Accepts(Required(items), toks) <==> In(Required(items), WordOf(toks)) {
        InOrderIsComplete(items, toks);
      }
    } else {
      var toks := TemptingWord(items);
      TemptedStarves(items, toks);
      SpelledIsWord(items, toks);
      assert !Accepts(Required(items), toks) && In(Required(items), WordOf(toks));
    }
  }

  /** `[<a>] <b>` rejects a single positional, although it is a word of the pattern. */
  lemma OptionalBeforeRequired(items: seq<Pattern<LeafDef>>, opt: seq<Pattern<LeafDef>>, a: LeafDef, b: LeafDef, t: Tok)
    requires a.Argument? && b.Argument? && t.Pos? && opt == [Leaf(a)] && items == [Optional(opt), Leaf(b)]
    ensures WellFormed(Required(items)) && !Match(Required(items), [t]).ok && In(Required(items), WordOf([t]))
  {
    var rest := items[1..];
    assert rest == [Leaf(b)] && rest[1..] == [] && opt[1..] == [] && [t][1..] == [];
    assert WellFormedAll(opt[1..]) && WellFormed(opt[0]) && WellFormedAll(opt);
    assert WellFormedAll(rest[1..]) && WellFormed(rest[0]) && WellFormedAll(rest);
    assert FirstPos([t]) == 0 && Remove([t], 0) == [];
    assert Match(opt[0], [t]).left == [] && MatchEach(opt[1..], []).left == [];
    assert Match(items[0], [t]).left == [];
    assert !Match(rest[0], []).ok && !MatchAll(rest, []).ok;
    NothingOptional(opt);
    JoinUnit(TokWord(t));
    InAllOne(Leaf(b), TokWord(t));
    InAllCons(items, NO_WORD, TokWord(t));
  }
}
