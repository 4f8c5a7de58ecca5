/**
 `BranchPattern::fix`: equal leaves become one shared object, then every leaf that can occur twice
 in one alternative gets an accumulating value. A shared leaf object is a handle into `cells`;
 comparing pointers is comparing handles.
 */
module Fix {
  import opened Sequences
  import opened Patterns
  import opened Expansion

  // ---------- How often a leaf can occur, without expanding ----------

  datatype Multiplicity = NoAlternative | Most(count: nat)

  function Plus(m: Multiplicity, n: Multiplicity): Multiplicity {
    if m.Most? && n.Most? then Most(m.count + n.count) else NoAlternative
  }

  function Larger(m: Multiplicity, n: Multiplicity): Multiplicity {
    if m.NoAlternative? || (n.Most? && m.count < n.count) then n else m
  }

  /**
   The most often `l` occurs in one alternative: maximum over `Either`, sum over sequences, doubled for `OneOrMore`.
   */
  function MaxCount<L(==)>(p: Pattern<L>, l: L): Multiplicity
    decreases p, 1
  {
    match p
    case Leaf(x) => Most(if x == l then 1 else 0)
    case Either(ps) => MaxCountEither(ps, l)
    case OneOrMore(ps) => Plus(MaxCountAll(ps, l), MaxCountAll(ps, l))
    case Required(ps) => MaxCountAll(ps, l)
    case Optional(ps) => MaxCountAll(ps, l)
    case OptionsShortcut(ps) => MaxCountAll(ps, l)
  }

  function MaxCountAll<L(==)>(ps: seq<Pattern<L>>, l: L): Multiplicity
    decreases ps, 0
  {
    if ps == [] then Most(0) else Plus(MaxCount(ps[0], l), MaxCountAll(ps[1..], l))
  }

  function MaxCountEither<L(==)>(ps: seq<Pattern<L>>, l: L): Multiplicity
    decreases ps, 0
  {
    if ps == [] then NoAlternative else Larger(MaxCount(ps[0], l), MaxCountEither(ps[1..], l))
  }

  ghost predicate Attained<L>(alts: seq<multiset<L>>, l: L, n: nat) {
    exists a <- alts :: a[l] == n
  }

  ghost predicate Bounded<L>(alts: seq<multiset<L>>, l: L, n: nat) {
    forall a <- alts :: a[l] <= n
  }

  ghost predicate IsMax<L>(alts: seq<multiset<L>>, l: L, m: Multiplicity) {
    match m
    case NoAlternative => alts == []
    case Most(n) => Attained(alts, l, n) && Bounded(alts, l, n)
  }

  lemma {:induction false} InAddToAll<L>(x: multiset<L>, b: seq<multiset<L>>, y: multiset<L>)
    ensures y in AddToAll(x, b) <==> exists z <- b :: y == x + z
  {
    if b != [] { InAddToAll(x, b[1..], y); }
  }

  lemma {:induction false} InProduct<L>(a: seq<multiset<L>>, b: seq<multiset<L>>, y: multiset<L>)
    ensures y in Product(a, b) <==> exists x, z :: x in a && z in b && y == x + z
  {
    if a != [] {
      InAddToAll(a[0], b, y);
      InProduct(a[1..], b, y);
    }
  }

  lemma ProductBounded<L>(a: seq<multiset<L>>, b: seq<multiset<L>>, l: L, m: nat, n: nat)
    requires Bounded(a, l, m) && Bounded(b, l, n)
    ensures Bounded(Product(a, b), l, m + n)
  {
    forall y | y in Product(a, b) ensures y[l] <= m + n {
      InProduct(a, b, y);
      var x, z :| x in a && z in b && y == x + z;
      assert y[l] == x[l] + z[l];
    }
  }

  lemma ProductAttained<L>(a: seq<multiset<L>>, b: seq<multiset<L>>, l: L, m: nat, n: nat)
    requires Attained(a, l, m) && Attained(b, l, n)
    ensures Attained(Product(a, b), l, m + n)
  {
    var x :| x in a && x[l] == m;
    var z :| z in b && z[l] == n;
    InProduct(a, b, x + z);
    assert (x + z)[l] == m + n;
  }

  lemma IsMaxProduct<L>(a: seq<multiset<L>>, b: seq<multiset<L>>, l: L, m: Multiplicity, n: Multiplicity)
    requires IsMax(a, l, m) && IsMax(b, l, n)
    ensures IsMax(Product(a, b), l, Plus(m, n))
  {
    if n.NoAlternative? {
      ProductEmptyRight(a);
    } else if m.Most? {
      ProductBounded(a, b, l, m.count, n.count);
      ProductAttained(a, b, l, m.count, n.count);
    }
  }

  lemma IsMaxUnion<L>(a: seq<multiset<L>>, b: seq<multiset<L>>, l: L, m: Multiplicity, n: Multiplicity)
    requires IsMax(a, l, m) && IsMax(b, l, n)
    ensures IsMax(a + b, l, Larger(m, n))
  {
    if a == [] {
      assert a + b == b;
    } else if b == [] {
      assert a + b == a;
    }
  }

  /** The direct recursion computes the maximum over the alternatives of the exponential expansion. */
  lemma {:induction false} MaxCountIsMax<L>(p: Pattern<L>, l: L)
    ensures IsMax(Denote(p), l, MaxCount(p, l))
    decreases p, 1
  {
    match p
    case Leaf(x) => assert Denote(p) == [multiset{x}] && multiset{x} in Denote(p);
    case Either(ps) => MaxCountEitherIsMax(ps, l);
    case OneOrMore(ps) =>
      MaxCountAllIsMax(ps, l);
      IsMaxProduct(DenoteAll(ps), DenoteAll(ps), l, MaxCountAll(ps, l), MaxCountAll(ps, l));
    case Required(ps) => MaxCountAllIsMax(ps, l);
    case Optional(ps) => MaxCountAllIsMax(ps, l);
    case OptionsShortcut(ps) => MaxCountAllIsMax(ps, l);
  }

  lemma {:induction false} MaxCountAllIsMax<L>(ps: seq<Pattern<L>>, l: L)
    ensures IsMax(DenoteAll(ps), l, MaxCountAll(ps, l))
    decreases ps, 0
  {
    if ps == [] {
      assert multiset{} in DenoteAll(ps);
    } else {
      MaxCountIsMax(ps[0], l);
      MaxCountAllIsMax(ps[1..], l);
      IsMaxProduct(Denote(ps[0]), DenoteAll(ps[1..]), l, MaxCount(ps[0], l), MaxCountAll(ps[1..], l));
    }
  }

  lemma {:induction false} MaxCountEitherIsMax<L>(ps: seq<Pattern<L>>, l: L)
    ensures IsMax(DenoteUnion(ps), l, MaxCountEither(ps, l))
    decreases ps, 0
  {
    if ps != [] {
      MaxCountIsMax(ps[0], l);
      MaxCountEitherIsMax(ps[1..], l);
      IsMaxUnion(Denote(ps[0]), DenoteUnion(ps[1..]), l, MaxCount(ps[0], l), MaxCountEither(ps[1..], l));
    }
  }

  /** Whether `l` occurs at least twice in some alternative of a list of patterns. */
  predicate Repeats<L(==)>(ps: seq<Pattern<L>>, l: L) {
    var m := MaxCountAll(ps, l);
    m.Most? && m.count >= 2
  }

  lemma SameElements<L>(a: seq<multiset<L>>, b: seq<multiset<L>>, x: multiset<L>)
    requires Same(a, b)
    ensures x in a <==> x in b
  {
    assert x in a <==> x in multiset(a);
    assert x in b <==> x in multiset(b);
  }

  lemma RepeatsExpanded<L>(ps: seq<Pattern<L>>, either: seq<seq<Pattern<L>>>, l: L)
    requires AllLeafOnly(either) && Same(Alternatives(either), DenoteAll(ps))
    ensures Repeats(ps, l) <==> exists g <- either :: LeafBag(g)[l] >= 2
  {
    var alts := Alternatives(either);
    MaxCountAllIsMax(ps, l);
    if Repeats(ps, l) {
      var a :| a in DenoteAll(ps) && a[l] == MaxCountAll(ps, l).count;
      SameElements(alts, DenoteAll(ps), a);
      var i :| 0 <= i < |alts| && alts[i] == a;
      assert either[i] in either && LeafBag(either[i])[l] >= 2;
    } else if g :| g in either && LeafBag(g)[l] >= 2 {
      var i :| 0 <= i < |either| && either[i] == g;
      SameElements(alts, DenoteAll(ps), alts[i]);
      assert false;
    }
  }

  // ---------- Shared leaves ----------

  ghost predicate Valid(p: Pattern<int>, n: nat)
    decreases p, 1
  {
    if p.Leaf? then 0 <= p.leaf < n else ValidAll(p.children, n)
  }

  ghost predicate ValidAll(ps: seq<Pattern<int>>, n: nat)
    decreases ps, 0
  {
    ps == [] || (Valid(ps[0], n) && ValidAll(ps[1..], n))
  }

  ghost function Handles(p: Pattern<int>): set<int>
    decreases p, 1
  {
    if p.Leaf? then {p.leaf} else HandlesAll(p.children)
  }

  ghost function HandlesAll(ps: seq<Pattern<int>>): set<int>
    decreases ps, 0
  {
    if ps == [] then {} else Handles(ps[0]) + HandlesAll(ps[1..])
  }

  /** The tree with every handle replaced by the leaf it stands for. */
  function Resolve(p: Pattern<int>, cells: seq<LeafDef>): Pattern<LeafDef>
    requires Valid(p, |cells|)
    decreases p, 1
  {
    match p
    case Leaf(h) => Leaf(cells[h])
    case Required(ps) => Required(ResolveAll(ps, cells))
    case Optional(ps) => Optional(ResolveAll(ps, cells))
    case OptionsShortcut(ps) => OptionsShortcut(ResolveAll(ps, cells))
    case OneOrMore(ps) => OneOrMore(ResolveAll(ps, cells))
    case Either(ps) => Either(ResolveAll(ps, cells))
  }

  function ResolveAll(ps: seq<Pattern<int>>, cells: seq<LeafDef>): (r: seq<Pattern<LeafDef>>)
    requires ValidAll(ps, |cells|)
    ensures |r| == |ps|
    decreases ps, 0
  {
    if ps == [] then [] else [Resolve(ps[0], cells)] + ResolveAll(ps[1..], cells)
  }

  ghost function Elems(s: seq<int>): set<int> {
    set k | k in s
  }

  /** Different handles of `hs` hold different leaves. */
  ghost predicate Distinct(hs: set<int>, cells: seq<LeafDef>) {
    && (forall h <- hs :: 0 <= h < |cells|)
    && (forall h, k :: h in hs && k in hs && cells[h] == cells[k] ==> h == k)
  }

  ghost predicate AllDistinct(hs: seq<int>, cells: seq<LeafDef>) {
    && (forall i :: 0 <= i < |hs| ==> 0 <= hs[i] < |cells|)
    && (forall i, j :: 0 <= i < |hs| && 0 <= j < |hs| && cells[hs[i]] == cells[hs[j]] ==> hs[i] == hs[j])
  }

  lemma {:induction false} MaxCountResolved(p: Pattern<int>, h: int, cells: seq<LeafDef>, hs: set<int>)
    requires Valid(p, |cells|) && Handles(p) <= hs && h in hs && Distinct(hs, cells)
    ensures MaxCount(p, h) == MaxCount(Resolve(p, cells), cells[h])
    decreases p, 1
  {
    if !p.Leaf? { MaxCountAllResolved(p.children, h, cells, hs); }
  }

  lemma {:induction false} MaxCountAllResolved(ps: seq<Pattern<int>>, h: int, cells: seq<LeafDef>, hs: set<int>)
    requires ValidAll(ps, |cells|) && HandlesAll(ps) <= hs && h in hs && Distinct(hs, cells)
    ensures MaxCountAll(ps, h) == MaxCountAll(ResolveAll(ps, cells), cells[h])
    ensures MaxCountEither(ps, h) == MaxCountEither(ResolveAll(ps, cells), cells[h])
    decreases ps, 0
  {
    if ps != [] {
      MaxCountResolved(ps[0], h, cells, hs);
      MaxCountAllResolved(ps[1..], h, cells, hs);
      assert ResolveAll(ps, cells)[1..] == ResolveAll(ps[1..], cells);
    }
  }

  lemma {:induction false} CountedIsHandle(p: Pattern<int>, h: int, n: nat)
    requires Valid(p, n) && MaxCount(p, h).Most? && MaxCount(p, h).count >= 1
    ensures 0 <= h < n
    decreases p, 1
  {
    if !p.Leaf? { CountedIsHandleAll(p.children, h, n); }
  }

  lemma {:induction false} CountedIsHandleAll(ps: seq<Pattern<int>>, h: int, n: nat)
    requires ValidAll(ps, n)
    ensures MaxCountAll(ps, h).Most? && MaxCountAll(ps, h).count >= 1 ==> 0 <= h < n
    ensures MaxCountEither(ps, h).Most? && MaxCountEither(ps, h).count >= 1 ==> 0 <= h < n
    decreases ps, 0
  {
    if ps != [] {
      if MaxCount(ps[0], h).Most? && MaxCount(ps[0], h).count >= 1 { CountedIsHandle(ps[0], h, n); }
      CountedIsHandleAll(ps[1..], h, n);
    }
  }

  /** The expansion brings in no leaf that the tree does not have. */
  lemma ExpandedLeafValid(ps: seq<Pattern<int>>, either: seq<seq<Pattern<int>>>, i: nat, j: nat, n: nat)
    requires ValidAll(ps, n) && AllLeafOnly(either) && Same(Alternatives(either), DenoteAll(ps))
    requires i < |either| && j < |either[i]|
    ensures 0 <= either[i][j].leaf < n
  {
    var h := either[i][j].leaf;
    var a := Alternatives(either)[i];
    LeafBagMember(either[i], j);
    SameElements(Alternatives(either), DenoteAll(ps), a);
    MaxCountAllIsMax(ps, h);
    CountedIsHandleAll(ps, h, n);
  }

  // ---------- Accumulating values ----------

  predicate IsSpace(c: char) {
    c in " \t\r\n\U{0B}\U{0C}"
  }

  /** The blank, and the five control characters from the tab on. */
  lemma SpacesAre(c: char)
    ensures IsSpace(c) <==> c as int == 32 || 9 <= c as int <= 13
  {}

  function WordLength(s: string): (n: nat)
    ensures n <= |s| && (forall i :: 0 <= i < n ==> !IsSpace(s[i])) && (n < |s| ==> IsSpace(s[n]))
  {
    if s == [] || IsSpace(s[0]) then 0 else 1 + WordLength(s[1..])
  }

  /** `split`: the maximal runs of non-space characters. */
  function Split(s: string): (ws: seq<string>)
    ensures forall w <- ws :: w != [] && forall c <- w :: !IsSpace(c)
  {
    if s == [] then [] else
    if IsSpace(s[0]) then Split(s[1..]) else
    var n := WordLength(s);
    [s[..n]] + Split(s[n..])
  }

  predicate AllSpace(s: string) {
    forall c <- s :: IsSpace(c)
  }

  predicate IsWord(w: string) {
    w != [] && forall c <- w :: !IsSpace(c)
  }

  /** A text made of words and the gaps before, between and after them. */
  function Spaced(gaps: seq<string>, ws: seq<string>): string
    requires |gaps| == |ws| + 1
  {
    if ws == [] then gaps[0] else gaps[0] + (ws[0] + Spaced(gaps[1..], ws[1..]))
  }

  /** Words between gaps of white space; only the outer gaps may be empty. */
  ghost predicate Separates(gaps: seq<string>, ws: seq<string>) {
    && |gaps| == |ws| + 1
    && (forall w <- ws :: IsWord(w))
    && (forall g <- gaps :: AllSpace(g))
    && (forall i :: 0 < i < |ws| ==> gaps[i] != [])
  }

  lemma {:induction false} SplitSkipsGap(g: string, rest: string)
    requires AllSpace(g)
    ensures Split(g + rest) == Split(rest)
  {
    if g == [] {
      assert g + rest == rest;
    } else {
      assert (g + rest)[1..] == g[1..] + rest;
      SplitSkipsGap(g[1..], rest);
    }
  }

  lemma {:induction false} WordLengthIs(w: string, rest: string)
    requires (forall c <- w :: !IsSpace(c)) && (rest == [] || IsSpace(rest[0]))
    ensures WordLength(w + rest) == |w|
  {
    if w == [] {
      assert w + rest == rest;
    } else {
      assert (w + rest)[1..] == w[1..] + rest;
      WordLengthIs(w[1..], rest);
    }
  }

  lemma SplitTakesWord(w: string, rest: string)
    requires IsWord(w) && (rest == [] || IsSpace(rest[0]))
    ensures Split(w + rest) == [w] + Split(rest)
  {
    WordLengthIs(w, rest);
    assert (w + rest)[..|w|] == w && (w + rest)[|w|..] == rest;
    assert w[0] in w;
  }

  /** `Split` finds the words of every text that is made of them, whatever the gaps. */
  lemma {:induction false} SplitOfSpaced(gaps: seq<string>, ws: seq<string>)
    requires Separates(gaps, ws)
    ensures Split(Spaced(gaps, ws)) == ws
    decreases |ws|
  {
    if ws == [] {
      SplitSkipsGap(gaps[0], []);
      assert gaps[0] + [] == gaps[0];
    } else {
      var rest := Spaced(gaps[1..], ws[1..]);
      SplitOfSpaced(gaps[1..], ws[1..]);
      assert gaps[1] in gaps;
      SplitSkipsGap(gaps[0], ws[0] + rest);
      SplitTakesWord(ws[0], rest);
    }
  }

  /** One more word in front; a text that goes on with white space begins with a gap. */
  lemma SpacedCons(w: string, gaps: seq<string>, ws: seq<string>)
    requires IsWord(w) && Separates(gaps, ws)
    requires Spaced(gaps, ws) == [] || IsSpace(Spaced(gaps, ws)[0])
    ensures Separates([[]] + gaps, [w] + ws) && Spaced([[]] + gaps, [w] + ws) == w + Spaced(gaps, ws)
  {
    if ws != [] {
      assert IsWord(ws[0]);
      assert gaps[0] != [];
    }
    assert ([[]] + gaps)[1..] == gaps && ([w] + ws)[1..] == ws;
  }

  lemma SpacedSkip(c: char, gaps: seq<string>, ws: seq<string>)
    requires IsSpace(c) && Separates(gaps, ws)
    ensures var gaps' := [[c] + gaps[0]] + gaps[1..];
            Separates(gaps', ws) && Spaced(gaps', ws) == [c] + Spaced(gaps, ws)
  {
    var gaps' := [[c] + gaps[0]] + gaps[1..];
    assert AllSpace(gaps[0]);
    assert gaps'[1..] == gaps[1..];
    if ws != [] {
      ConcatAssoc([c], gaps[0], ws[0] + Spaced(gaps[1..], ws[1..]));
    }
  }

  lemma SplitAtWord(s: string)
    requires s != [] && !IsSpace(s[0])
    ensures var n := WordLength(s);
            && n > 0 && Split(s) == [s[..n]] + Split(s[n..]) && IsWord(s[..n])
            && (s[n..] == [] || IsSpace(s[n..][0])) && s == s[..n] + s[n..]
  {}

  /** And every text is made of the words that `Split` finds. */
  lemma {:induction false} SpacedOfSplit(s: string) returns (gaps: seq<string>)
    ensures Separates(gaps, Split(s)) && Spaced(gaps, Split(s)) == s
    decreases |s|
  {
    if s == [] {
      gaps := [[]];
    } else if IsSpace(s[0]) {
      var rest := SpacedOfSplit(s[1..]);
      gaps := [[s[0]] + rest[0]] + rest[1..];
      SpacedSkip(s[0], rest, Split(s[1..]));
      assert s == [s[0]] + s[1..];
    } else {
      SplitAtWord(s);
      var n := WordLength(s);
      var rest := SpacedOfSplit(s[n..]);
      gaps := [[]] + rest;
      SpacedCons(s[..n], rest, Split(s[n..]));
    }
  }

  predicate CountsUp(d: LeafDef) {
    d.Command? || (d.Option? && d.argcount == 0)
  }

  /** A leaf that repeats: a counter from zero, or a list seeded from its default. */
  function Accumulating(d: LeafDef): LeafDef {
    if CountsUp(d) then d.SetValue(Long(0)) else
    match d.GetValue()
    case StrList(_) => d
    case Str(s) => d.SetValue(StrList(Split(s)))
    case _ => d.SetValue(StrList([]))
  }

  lemma AccumulatingTwice(d: LeafDef)
    ensures Accumulating(Accumulating(d)) == Accumulating(d)
  {}

  /** A leaf of `all` as marking leaves it. */
  function MarkLeaf(d: LeafDef, all: seq<Pattern<LeafDef>>): LeafDef {
    if Repeats(all, d) then Accumulating(d) else d
  }

  /** The list that a value seeds. */
  function ListOf(v: Value): Value {
    match v
    case StrList(_) => v
    case Str(s) => StrList(Split(s))
    case _ => StrList([])
  }

  /**
   A leaf before and after `fix`. One that does not repeat is as before. A command that repeats counts from zero, and so
   does an option without an argument; an argument that repeats has a list, and so has an option with one.
   */
  predicate FixedAs(d: LeafDef, repeats: bool, d': LeafDef) {
    if !repeats then d' == d else
    match d
    case Command(n, _) => d' == Command(n, Long(0))
    case Argument(n, v) => d' == Argument(n, ListOf(v))
    case Option(s, l, argcount, v) => d' == Option(s, l, argcount, if argcount == 0 then Long(0) else ListOf(v))
  }

  /** Marking fixes every leaf; so what accumulates is what repeats. */
  lemma AccumulatesIffRepeats(ps: seq<Pattern<LeafDef>>, d: LeafDef)
    ensures FixedAs(d, Repeats(ps, d), MarkLeaf(d, ps))
    ensures !Accumulates(d.GetValue()) ==> (Accumulates(MarkLeaf(d, ps).GetValue()) <==> Repeats(ps, d))
  {}

  /** The tree with every leaf marked that repeats in `all`. */
  function Mark(p: Pattern<LeafDef>, all: seq<Pattern<LeafDef>>): Pattern<LeafDef>
    decreases p, 1
  {
    match p
    case Leaf(d) => Leaf(MarkLeaf(d, all))
    case Required(ps) => Required(MarkAll(ps, all))
    case Optional(ps) => Optional(MarkAll(ps, all))
    case OptionsShortcut(ps) => OptionsShortcut(MarkAll(ps, all))
    case OneOrMore(ps) => OneOrMore(MarkAll(ps, all))
    case Either(ps) => Either(MarkAll(ps, all))
  }

  function MarkAll(ps: seq<Pattern<LeafDef>>, all: seq<Pattern<LeafDef>>): (r: seq<Pattern<LeafDef>>)
    ensures |r| == |ps|
    decreases ps, 0
  {
    if ps == [] then [] else [Mark(ps[0], all)] + MarkAll(ps[1..], all)
  }

  lemma {:induction false} ResolveMarked(
    p: Pattern<int>, was: seq<LeafDef>, now: seq<LeafDef>, all: seq<Pattern<LeafDef>>)
    requires Valid(p, |was|) && |now| == |was|
    requires forall h <- Handles(p) :: 0 <= h < |was| && now[h] == MarkLeaf(was[h], all)
    ensures Resolve(p, now) == Mark(Resolve(p, was), all)
    decreases p, 1
  {
    if !p.Leaf? {
      assert HandlesAll(p.children) == Handles(p);
      ResolveAllMarked(p.children, was, now, all);
    }
  }

  lemma {:induction false} ResolveAllMarked(
    ps: seq<Pattern<int>>, was: seq<LeafDef>, now: seq<LeafDef>, all: seq<Pattern<LeafDef>>)
    requires ValidAll(ps, |was|) && |now| == |was|
    requires forall h <- HandlesAll(ps) :: 0 <= h < |was| && now[h] == MarkLeaf(was[h], all)
    ensures ResolveAll(ps, now) == MarkAll(ResolveAll(ps, was), all)
    decreases ps, 0
  {
    if ps != [] {
      assert Handles(ps[0]) <= HandlesAll(ps) && HandlesAll(ps[1..]) <= HandlesAll(ps);
      ResolveMarked(ps[0], was, now, all);
      ResolveAllMarked(ps[1..], was, now, all);
      Head(Resolve(ps[0], was), ResolveAll(ps[1..], was));
    }
  }

  // ---------- fix() ----------

  ghost predicate Marked(groups: seq<seq<Pattern<int>>>, h: int)
    requires AllLeafOnly(groups)
  {
    exists g <- groups :: LeafBag(g)[h] >= 2
  }

  /** `now` is `was` with the leaves accumulating that repeat in some group. */
  ghost predicate MarkedBy(groups: seq<seq<Pattern<int>>>, was: seq<LeafDef>, now: seq<LeafDef>)
    requires AllLeafOnly(groups)
  {
    && |now| == |was|
    && forall h :: 0 <= h < |was| ==> now[h] == if Marked(groups, h) then Accumulating(was[h]) else was[h]
  }

  lemma MarkedByStep(groups: seq<seq<Pattern<int>>>, i: nat, was: seq<LeafDef>, now: seq<LeafDef>, next: seq<LeafDef>)
    requires AllLeafOnly(groups) && i < |groups| && MarkedBy(groups[..i], was, now)
    requires |next| == |now| && forall h :: 0 <= h < |now| ==>
      next[h] == if LeafBag(groups[i])[h] >= 2 then Accumulating(now[h]) else now[h]
    ensures MarkedBy(groups[..i + 1], was, next)
  {
    forall h | 0 <= h < |was| ensures next[h] == if Marked(groups[..i + 1], h) then Accumulating(was[h]) else was[h] {
      MarkedStep(groups, i, h);
    }
  }

  lemma MarkedStep(groups: seq<seq<Pattern<int>>>, i: nat, h: int)
    requires AllLeafOnly(groups) && i < |groups|
    ensures Marked(groups[..i + 1], h) <==> Marked(groups[..i], h) || LeafBag(groups[i])[h] >= 2
  {
    assert groups[..i + 1] == groups[..i] + [groups[i]];
    if LeafBag(groups[i])[h] >= 2 { assert groups[i] in groups[..i + 1]; }
  }

  lemma {:induction false} LeafBagMember<L>(g: seq<Pattern<L>>, j: nat)
    requires LeafOnly(g) && j < |g|
    ensures LeafBag(g)[g[j].leaf] >= 1
  {
    if j > 0 { LeafBagMember(g[1..], j - 1); }
  }

  lemma {:induction false} LeafBagFrom<L>(g: seq<Pattern<L>>, l: L)
    requires LeafOnly(g) && l in LeafBag(g)
    ensures Leaf(l) in g
  {
    if g != [] && g[0] != Leaf(l) {
      assert l in LeafBag(g[1..]);
      LeafBagFrom(g[1..], l);
    }
  }

  lemma {:induction false} ValidMember(ps: seq<Pattern<int>>, i: nat, n: nat)
    requires ValidAll(ps, n) && i < |ps|
    ensures Valid(ps[i], n)
  {
    if i > 0 { ValidMember(ps[1..], i - 1, n); }
  }

  lemma {:induction false} AppendPattern(ps: seq<Pattern<int>>, p: Pattern<int>, cells: seq<LeafDef>)
    requires ValidAll(ps, |cells|) && Valid(p, |cells|)
    ensures ValidAll(ps + [p], |cells|)
    ensures ResolveAll(ps + [p], cells) == ResolveAll(ps, cells) + [Resolve(p, cells)]
    ensures HandlesAll(ps + [p]) == HandlesAll(ps) + Handles(p)
  {
    if ps == [] {
      assert ps + [p] == [p];
      assert [p][1..] == [];
      assert HandlesAll([p]) == Handles(p) + HandlesAll([]);
    } else {
      ConsSplit(ps, [p]);
      AppendPattern(ps[1..], p, cells);
    }
  }

  /** The shared leaf equal to `h` among `patterns`, entered there if it is new. */
  method Canonical(h: int, patterns: seq<int>, cells: seq<LeafDef>) returns (u: int, patterns': seq<int>)
    requires 0 <= h < |cells| && AllDistinct(patterns, cells)
    ensures u in patterns' && 0 <= u < |cells| && cells[u] == cells[h]
    ensures AllDistinct(patterns', cells)
    ensures patterns <= patterns'
  {
    for i := 0 to |patterns|
      invariant forall k :: 0 <= k < i ==> cells[patterns[k]] != cells[h]
    {
      if cells[patterns[i]] == cells[h] {
        return patterns[i], patterns;
      }
    }
    return h, patterns + [h];
  }

  /** `fix_identities`: the tree keeps its leaves, and equal leaves of it become one handle. */
  method FixIdentities(ps: seq<Pattern<int>>, patterns: seq<int>, cells: seq<LeafDef>)
    returns (ps': seq<Pattern<int>>, patterns': seq<int>)
    requires ValidAll(ps, |cells|) && AllDistinct(patterns, cells)
    ensures ValidAll(ps', |cells|) && ResolveAll(ps', cells) == ResolveAll(ps, cells)
    ensures AllDistinct(patterns', cells) && HandlesAll(ps') <= Elems(patterns')
    ensures patterns <= patterns'
    decreases ps
  {
    ps', patterns' := [], patterns;
    for i := 0 to |ps|
      invariant ValidAll(ps[..i], |cells|) && ValidAll(ps', |cells|)
      invariant ResolveAll(ps', cells) == ResolveAll(ps[..i], cells)
      invariant AllDistinct(patterns', cells) && HandlesAll(ps') <= Elems(patterns')
      invariant patterns <= patterns'
    {
      var child := ps[i];
      ValidMember(ps, i, |cells|);
      ghost var before := patterns';
      if child.Leaf? {
        var u;
        u, patterns' := Canonical(child.leaf, patterns', cells);
        child := Leaf(u);
      } else {
        var qs;
        qs, patterns' := FixIdentities(child.children, patterns', cells);
        child := child.(children := qs);
      }
      assert ps[..i + 1] == ps[..i] + [ps[i]];
      AppendPattern(ps[..i], ps[i], cells);
      AppendPattern(ps', child, cells);
      assert forall k <- before :: k in patterns';
      ps' := ps' + [child];
    }
    assert ps[..|ps|] == ps;
  }

  /** A usage pattern: the children of its top-level `Required`, and the leaf objects they share. */
  class PatternTree {
    var children: seq<Pattern<int>>
    var cells: seq<LeafDef>

    ghost predicate WellFormed()
      reads this
    {
      ValidAll(children, |cells|)
    }

    constructor (ps: seq<Pattern<int>>, leaves: seq<LeafDef>)
      requires ValidAll(ps, |leaves|)
      ensures WellFormed() && children == ps && cells == leaves
    {
      children, cells := ps, leaves;
    }

    /** `fix_repeating_arguments`: a leaf is changed exactly when it can occur twice in one alternative. */
    method FixRepeatingArguments()
      requires WellFormed()
      modifies this`cells
      ensures |cells| == |old(cells)|
      ensures forall h :: 0 <= h < |cells| ==>
        cells[h] == if Repeats(children, h) then Accumulating(old(cells[h])) else old(cells[h])
    {
      ghost var was := cells;
      var either := Transform(children);
      for i := 0 to |either|
        invariant MarkedBy(either[..i], was, cells)
      {
        forall j | 0 <= j < |either[i]| ensures 0 <= either[i][j].leaf < |cells| {
          ExpandedLeafValid(children, either, i, j, |cells|);
        }
        ghost var now := cells;
        MarkGroup(either[i]);
        MarkedByStep(either, i, was, now, cells);
      }
      assert either[..|either|] == either;
      forall h | 0 <= h < |was| ensures Repeats(children, h) <==> Marked(either, h) {
        RepeatsExpanded(children, either, h);
      }
    }

    /** One group of the expansion: its leaves that occur more than once become accumulating. */
    method MarkGroup(group: seq<Pattern<int>>)
      requires LeafOnly(group)
      requires forall j :: 0 <= j < |group| ==> 0 <= group[j].leaf < |cells|
      modifies this`cells
      ensures |cells| == |old(cells)|
      ensures forall h :: 0 <= h < |cells| ==>
        cells[h] == if LeafBag(group)[h] >= 2 then Accumulating(old(cells[h])) else old(cells[h])
    {
      ghost var was, marked := cells, {};
      var count := LeafBag(group);
      for j := 0 to |group|
        invariant |cells| == |was|
        invariant forall h :: 0 <= h < |was| ==> cells[h] == if h in marked then Accumulating(was[h]) else was[h]
        invariant forall k :: 0 <= k < j && count[group[k].leaf] >= 2 ==> group[k].leaf in marked
        invariant forall h <- marked :: count[h] >= 2
      {
        var h := group[j].leaf;
        LeafBagMember(group, j);
        if count[h] != 1 {
          AccumulatingTwice(was[h]);
          cells := cells[h := Accumulating(cells[h])];
          marked := marked + {h};
        }
      }
      forall h | 0 <= h < |was| && count[h] >= 2 ensures h in marked {
        LeafBagFrom(group, h);
      }
    }

    /** After `fix`, equal leaves are one object, and a leaf accumulates exactly when it repeats. */
    method Fix()
      requires WellFormed()
      modifies this
      ensures WellFormed() && |cells| == |old(cells)|
      ensures Distinct(HandlesAll(children), old(cells))
      ensures ResolveAll(children, old(cells)) == old(ResolveAll(children, cells))
      ensures forall h <- HandlesAll(children) ::
        FixedAs(old(cells)[h], Repeats(old(ResolveAll(children, cells)), old(cells)[h]), cells[h])
      ensures forall h <- HandlesAll(children) :: !Accumulates(old(cells)[h].GetValue()) ==>
        (Accumulates(cells[h].GetValue()) <==> Repeats(old(ResolveAll(children, cells)), old(cells)[h]))
      ensures ResolveAll(children, cells) == MarkAll(old(ResolveAll(children, cells)), old(ResolveAll(children, cells)))
    {
      var patterns;
      children, patterns := FixIdentities(children, [], cells);
      ghost var hs := HandlesAll(children);
      ghost var was := cells;
      FixRepeatingArguments();
      forall h <- hs ensures Repeats(children, h) <==> Repeats(ResolveAll(children, was), was[h]) {
        MaxCountAllResolved(children, h, was, hs);
      }
      forall h <- hs
        ensures FixedAs(was[h], Repeats(ResolveAll(children, was), was[h]), cells[h])
        ensures !Accumulates(was[h].GetValue()) ==>
          (Accumulates(cells[h].GetValue()) <==> Repeats(ResolveAll(children, was), was[h]))
      {
        AccumulatesIffRepeats(ResolveAll(children, was), was[h]);
      }
      ResolveAllMarked(children, was, cells, ResolveAll(children, was));
    }
  }
}
