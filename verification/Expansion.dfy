/**
 The expansion of a pattern tree into leaf-only alternatives, written twice in the repository:
 `transform` in C++ (first branch node found) and `either` in Python (priority by node type).
 Both are loops over a queue of groups; both are proved to compute one recursive denotation.
 */
module Expansion {
  import opened Sequences
  import opened Patterns

  // ---------- Products of alternatives ----------

  /** `x` added to every alternative of `b`. */
  function AddToAll<L>(x: multiset<L>, b: seq<multiset<L>>): seq<multiset<L>> {
    if b == [] then [] else [x + b[0]] + AddToAll(x, b[1..])
  }

  /** Every alternative of `a` joined with every alternative of `b`. */
  function Product<L>(a: seq<multiset<L>>, b: seq<multiset<L>>): seq<multiset<L>> {
    if a == [] then [] else AddToAll(a[0], b) + Product(a[1..], b)
  }

  ghost predicate Same<L>(a: seq<multiset<L>>, b: seq<multiset<L>>) {
    multiset(a) == multiset(b)
  }

  lemma {:induction false} AddToAllConcat<L>(x: multiset<L>, a: seq<multiset<L>>, b: seq<multiset<L>>)
    ensures AddToAll(x, a + b) == AddToAll(x, a) + AddToAll(x, b)
  {
    if a == [] {
      assert a + b == b;
    } else {
      ConsSplit(a, b);
      AddToAllConcat(x, a[1..], b);
      ConcatAssoc([x + a[0]], AddToAll(x, a[1..]), AddToAll(x, b));
    }
  }

  lemma {:induction false} ProductConcatLeft<L>(a: seq<multiset<L>>, a': seq<multiset<L>>, b: seq<multiset<L>>)
    ensures Product(a + a', b) == Product(a, b) + Product(a', b)
  {
    if a == [] {
      assert a + a' == a';
    } else {
      ConsSplit(a, a');
      ProductConcatLeft(a[1..], a', b);
      ConcatAssoc(AddToAll(a[0], b), Product(a[1..], b), Product(a', b));
    }
  }

  lemma {:induction false} ProductConcatRight<L>(a: seq<multiset<L>>, b: seq<multiset<L>>, b': seq<multiset<L>>)
    ensures multiset(Product(a, b + b')) == multiset(Product(a, b)) + multiset(Product(a, b'))
  {
    if a != [] {
      ProductConcatRight(a[1..], b, b');
      AddToAllConcat(a[0], b, b');
    }
  }

  lemma {:induction false} AddNothing<L>(b: seq<multiset<L>>)
    ensures AddToAll(multiset{}, b) == b
  {
    if b != [] {
      AddNothing(b[1..]);
      assert multiset{} + b[0] == b[0];
    }
  }

  lemma ProductCons<L>(x: multiset<L>, b: seq<multiset<L>>)
    ensures Product([x], b) == AddToAll(x, b)
  {
    assert [x][1..] == [];
    assert Product([x][1..], b) == [];
  }

  lemma ProductUnit<L>(b: seq<multiset<L>>)
    ensures Product([multiset{}], b) == b
  {
    ProductCons(multiset{}, b);
    AddNothing(b);
  }

  lemma {:induction false} ProductEmptyRight<L>(a: seq<multiset<L>>)
    ensures Product(a, []) == []
  {
    if a != [] { ProductEmptyRight(a[1..]); }
  }

  lemma {:induction false} ProductSingleRight<L>(a: seq<multiset<L>>, x: multiset<L>)
    ensures Product(a, [x]) == AddToAll(x, a)
  {
    if a != [] {
      ProductSingleRight(a[1..], x);
      assert [x][1..] == [];
      assert AddToAll(a[0], [x]) == [a[0] + x] + AddToAll(a[0], []);
      assert a[0] + x == x + a[0];
    }
  }

  lemma {:induction false} ProductSwap<L>(a: seq<multiset<L>>, b: seq<multiset<L>>)
    ensures Same(Product(a, b), Product(b, a))
  {
    if a == [] {
      ProductEmptyRight(b);
    } else {
      ConsSplit(a, a);
      ProductConcatRight(b, [a[0]], a[1..]);
      ProductSingleRight(b, a[0]);
      ProductSwap(a[1..], b);
    }
  }

  lemma {:induction false} AddTwice<L>(x: multiset<L>, y: multiset<L>, c: seq<multiset<L>>)
    ensures AddToAll(x, AddToAll(y, c)) == AddToAll(x + y, c)
  {
    if c != [] {
      AddTwice(x, y, c[1..]);
      assert x + (y + c[0]) == x + y + c[0];
    }
  }

  lemma {:induction false} AddToAllProduct<L>(x: multiset<L>, b: seq<multiset<L>>, c: seq<multiset<L>>)
    ensures AddToAll(x, Product(b, c)) == Product(AddToAll(x, b), c)
  {
    if b != [] {
      AddToAllProduct(x, b[1..], c);
      AddToAllConcat(x, AddToAll(b[0], c), Product(b[1..], c));
      AddTwice(x, b[0], c);
    }
  }

  lemma {:induction false} ProductAssoc<L>(a: seq<multiset<L>>, b: seq<multiset<L>>, c: seq<multiset<L>>)
    ensures Product(Product(a, b), c) == Product(a, Product(b, c))
  {
    if a != [] {
      ProductAssoc(a[1..], b, c);
      ProductConcatLeft(AddToAll(a[0], b), Product(a[1..], b), c);
      AddToAllProduct(a[0], b, c);
    }
  }

  lemma MoveToFront<T>(l: seq<T>, x: T, r: seq<T>)
    ensures multiset(l + [x] + r) == multiset{x} + multiset(l + r)
  {}

  lemma CancelOne<T>(x: T, m: multiset<T>, n: multiset<T>)
    requires multiset{x} + m == multiset{x} + n
    ensures m == n
  {
    assert m == multiset{x} + m - multiset{x} == multiset{x} + n - multiset{x} == n;
  }

  lemma ProductMoveToFront<L>(l: seq<multiset<L>>, x: multiset<L>, r: seq<multiset<L>>, b: seq<multiset<L>>)
    ensures multiset(Product(l + [x] + r, b)) == multiset(AddToAll(x, b)) + multiset(Product(l + r, b))
  {
    ProductConcatLeft(l + [x], r, b);
    ProductConcatLeft(l, [x], b);
    ProductConcatLeft(l, r, b);
    ProductCons(x, b);
  }

  lemma {:induction false} ProductRespectsLeft<L>(a: seq<multiset<L>>, a': seq<multiset<L>>, b: seq<multiset<L>>)
    requires Same(a, a')
    ensures Same(Product(a, b), Product(a', b))
    decreases |a|
  {
    if a == [] {
      assert |multiset(a')| == 0;
    } else {
      var x := a[0];
      assert x in multiset(a');
      var j :| 0 <= j < |a'| && a'[j] == x;
      var l, r := a'[..j], a'[j + 1..];
      assert a' == l + [x] + r;
      ConsSplit(a, a);
      MoveToFront(l, x, r);
      assert multiset(a) == multiset{x} + multiset(a[1..]);
      CancelOne(x, multiset(a[1..]), multiset(l + r));
      ProductRespectsLeft(a[1..], l + r, b);
      ProductMoveToFront(l, x, r, b);
    }
  }

  lemma ProductRespectsRight<L>(a: seq<multiset<L>>, b: seq<multiset<L>>, b': seq<multiset<L>>)
    requires Same(b, b')
    ensures Same(Product(a, b), Product(a, b'))
  {
    ProductSwap(a, b);
    ProductSwap(a, b');
    ProductRespectsLeft(b, b', a);
  }

  // ---------- The denotation ----------

  /** The alternatives of a tree: union over `Either`, product over sequences, doubled for `OneOrMore`. */
  function Denote<L>(p: Pattern<L>): seq<multiset<L>>
    decreases p, 1
  {
    match p
    case Leaf(l) => [multiset{l}]
    case Either(ps) => DenoteUnion(ps)
    case OneOrMore(ps) => Product(DenoteAll(ps), DenoteAll(ps))
    case Required(ps) => DenoteAll(ps)
    case Optional(ps) => DenoteAll(ps)
    case OptionsShortcut(ps) => DenoteAll(ps)
  }

  function DenoteAll<L>(ps: seq<Pattern<L>>): seq<multiset<L>>
    decreases ps, 0
  {
    if ps == [] then [multiset{}] else Product(Denote(ps[0]), DenoteAll(ps[1..]))
  }

  function DenoteUnion<L>(ps: seq<Pattern<L>>): seq<multiset<L>>
    decreases ps, 0
  {
    if ps == [] then [] else Denote(ps[0]) + DenoteUnion(ps[1..])
  }

  function DenoteGroups<L>(groups: seq<seq<Pattern<L>>>): seq<multiset<L>> {
    if groups == [] then [] else DenoteAll(groups[0]) + DenoteGroups(groups[1..])
  }

  lemma {:induction false} DenoteAllConcat<L>(ps: seq<Pattern<L>>, qs: seq<Pattern<L>>)
    ensures DenoteAll(ps + qs) == Product(DenoteAll(ps), DenoteAll(qs))
  {
    if ps == [] {
      assert ps + qs == qs;
      ProductUnit(DenoteAll(qs));
    } else {
      DenoteAllConcat(ps[1..], qs);
      assert (ps + qs)[1..] == ps[1..] + qs;
      ProductAssoc(Denote(ps[0]), DenoteAll(ps[1..]), DenoteAll(qs));
    }
  }

  lemma {:induction false} DenoteGroupsConcat<L>(gs: seq<seq<Pattern<L>>>, hs: seq<seq<Pattern<L>>>)
    ensures DenoteGroups(gs + hs) == DenoteGroups(gs) + DenoteGroups(hs)
  {
    if gs == [] {
      assert gs + hs == hs;
    } else {
      DenoteGroupsConcat(gs[1..], hs);
      ConsSplit(gs, hs);
      ConcatAssoc(DenoteAll(gs[0]), DenoteGroups(gs[1..]), DenoteGroups(hs));
    }
  }

  lemma RemoveLater<T>(s: seq<T>, i: nat)
    requires 0 < i < |s|
    ensures Remove(s, i) != [] && Remove(s, i)[0] == s[0] && Remove(s, i)[1..] == Remove(s[1..], i - 1)
  {}

  lemma ProductRotate<L>(a: seq<multiset<L>>, b: seq<multiset<L>>, c: seq<multiset<L>>, bc: seq<multiset<L>>)
    requires Same(bc, Product(b, c))
    ensures Same(Product(a, bc), Product(b, Product(a, c)))
  {
    ProductRespectsRight(a, bc, Product(b, c));
    ProductAssoc(a, b, c);
    ProductSwap(a, b);
    ProductRespectsLeft(Product(a, b), Product(b, a), c);
    ProductAssoc(b, a, c);
  }

  /** Any element of a group may be taken to its front. */
  lemma {:induction false} DenotePullOut<L>(g: seq<Pattern<L>>, i: nat)
    requires i < |g|
    ensures Same(DenoteAll(g), Product(Denote(g[i]), DenoteAll(Remove(g, i))))
    decreases i
  {
    if i == 0 {
      assert Remove(g, 0) == g[1..];
    } else {
      DenotePullOut(g[1..], i - 1);
      ProductRotate(Denote(g[0]), Denote(g[i]), DenoteAll(Remove(g[1..], i - 1)), DenoteAll(g[1..]));
      RemoveLater(g, i);
    }
  }

  // ---------- One expansion step ----------

  /** "[e] + rest" for each `e` of `ps`. */
  function EachInFront<L>(ps: seq<Pattern<L>>, rest: seq<Pattern<L>>): seq<seq<Pattern<L>>> {
    if ps == [] then [] else [[ps[0]] + rest] + EachInFront(ps[1..], rest)
  }

  /** The groups that replace a group whose branch at `i` is expanded. */
  function Expand<L>(g: seq<Pattern<L>>, i: nat): seq<seq<Pattern<L>>>
    requires i < |g| && !g[i].Leaf?
  {
    var rest := Remove(g, i);
    var ps := g[i].children;
    if g[i].Either? then EachInFront(ps, rest)
    else if g[i].OneOrMore? then [ps + ps + rest]
    else [ps + rest]
  }

  lemma {:induction false} ExpandEither<L>(ps: seq<Pattern<L>>, rest: seq<Pattern<L>>)
    ensures DenoteGroups(EachInFront(ps, rest)) == Product(DenoteUnion(ps), DenoteAll(rest))
  {
    if ps != [] {
      ExpandEither(ps[1..], rest);
      assert EachInFront(ps, rest)[1..] == EachInFront(ps[1..], rest);
      assert ([ps[0]] + rest)[1..] == rest;
      ProductConcatLeft(Denote(ps[0]), DenoteUnion(ps[1..]), DenoteAll(rest));
    }
  }

  lemma DenoteOneGroup<L>(g: seq<Pattern<L>>)
    ensures DenoteGroups([g]) == DenoteAll(g)
  {
    assert DenoteGroups([g]) == DenoteAll(g) + DenoteGroups([]);
  }

  lemma DenoteSingle<L>(p: Pattern<L>)
    ensures DenoteAll([p]) == Denote(p) && DenoteGroups([[p]]) == Denote(p)
  {
    assert DenoteAll([p]) == Product(Denote(p), DenoteAll([p][1..]));
    ProductSingleRight(Denote(p), multiset{});
    AddNothing(Denote(p));
    DenoteOneGroup([p]);
  }

  /** Expanding any branch of a group keeps its alternatives. */
  lemma ExpandPreserves<L>(g: seq<Pattern<L>>, i: nat)
    requires i < |g| && !g[i].Leaf?
    ensures Same(DenoteGroups(Expand(g, i)), DenoteAll(g))
  {
    var rest := Remove(g, i);
    DenotePullOut(g, i);
    var ps := g[i].children;
    if g[i].Either? {
      ExpandEither(ps, rest);
    } else if g[i].OneOrMore? {
      DenoteAllConcat(ps + ps, rest);
      DenoteAllConcat(ps, ps);
      DenoteOneGroup(ps + ps + rest);
    } else {
      DenoteAllConcat(ps, rest);
      DenoteOneGroup(ps + rest);
    }
  }

  // ---------- Leaf-only groups ----------

  ghost predicate LeafOnly<L>(g: seq<Pattern<L>>) {
    forall k :: 0 <= k < |g| ==> g[k].Leaf?
  }

  function LeafBag<L>(g: seq<Pattern<L>>): multiset<L>
    requires LeafOnly(g)
  {
    if g == [] then multiset{} else multiset{g[0].leaf} + LeafBag(g[1..])
  }

  ghost predicate AllLeafOnly<L>(gs: seq<seq<Pattern<L>>>) {
    forall k :: 0 <= k < |gs| ==> LeafOnly(gs[k])
  }

  /** What an expansion returns, read as alternatives. */
  function Alternatives<L>(gs: seq<seq<Pattern<L>>>): seq<multiset<L>>
    requires AllLeafOnly(gs)
  {
    seq(|gs|, i requires 0 <= i < |gs| => LeafBag(gs[i]))
  }

  lemma {:induction false} DenoteLeafOnly<L>(g: seq<Pattern<L>>)
    requires LeafOnly(g)
    ensures DenoteAll(g) == [LeafBag(g)]
  {
    if g != [] {
      DenoteLeafOnly(g[1..]);
      var l, b := multiset{g[0].leaf}, LeafBag(g[1..]);
      assert Denote(g[0]) == [l];
      assert Product([l], [b]) == AddToAll(l, [b]) + Product([], [b]);
      assert AddToAll(l, [b]) == [l + b];
    }
  }

  // ---------- The termination measure ----------

  function Weight<L>(p: Pattern<L>): nat
    decreases p, 1
  {
    match p
    case Leaf(_) => 1
    case OneOrMore(ps) => 1 + 2 * WeightAll(ps)
    case _ => 1 + WeightAll(p.children)
  }

  function WeightAll<L>(ps: seq<Pattern<L>>): nat
    decreases ps, 0
  {
    if ps == [] then 0 else Weight(ps[0]) + WeightAll(ps[1..])
  }

  function Pow2(n: nat): (r: nat)
    ensures r >= 1
  {
    if n == 0 then 1 else 2 * Pow2(n - 1)
  }

  /** What the queue still has to do: it falls at every pop. */
  function Work<L>(groups: seq<seq<Pattern<L>>>): nat {
    if groups == [] then 0 else Pow2(WeightAll(groups[0])) + Work(groups[1..])
  }

  lemma {:induction false} Pow2Add(m: nat, n: nat)
    ensures Pow2(m + n) == Pow2(m) * Pow2(n)
  {
    if m != 0 {
      Pow2Add(m - 1, n);
      assert Pow2(m + n) == 2 * Pow2(m - 1 + n);
    }
  }

  lemma {:induction false} WeightConcat<L>(ps: seq<Pattern<L>>, qs: seq<Pattern<L>>)
    ensures WeightAll(ps + qs) == WeightAll(ps) + WeightAll(qs)
  {
    if ps == [] {
      assert ps + qs == qs;
    } else {
      WeightConcat(ps[1..], qs);
      assert (ps + qs)[1..] == ps[1..] + qs;
    }
  }

  lemma WeightPullOut<L>(g: seq<Pattern<L>>, i: nat)
    requires i < |g|
    ensures WeightAll(g) == Weight(g[i]) + WeightAll(Remove(g, i))
  {
    var tail := g[i..];
    assert g == g[..i] + tail && tail[0] == g[i] && tail[1..] == g[i + 1..];
    WeightConcat(g[..i], tail);
    WeightConcat(g[..i], g[i + 1..]);
  }

  lemma {:induction false} WorkConcat<L>(gs: seq<seq<Pattern<L>>>, hs: seq<seq<Pattern<L>>>)
    ensures Work(gs + hs) == Work(gs) + Work(hs)
  {
    if gs == [] {
      assert gs + hs == hs;
    } else {
      WorkConcat(gs[1..], hs);
      assert (gs + hs)[1..] == gs[1..] + hs;
    }
  }

  lemma PowSum(a: nat, b: nat, s: nat)
    requires a >= 1 && s <= Pow2(b)
    requires b >= 1 || s == 0
    ensures Pow2(a) + s <= Pow2(a + b)
  {
    Pow2Add(a, b);
    PowStep(a - 1);
    if b >= 1 {
      PowStep(b - 1);
      SumBelowProduct(Pow2(a), Pow2(b));
    }
  }

  lemma SumBelowProduct(x: int, y: int)
    requires x >= 2 && y >= 2
    ensures x + y <= x * y
  {
    assert (x - 1) * (y - 1) >= 1;
  }

  /** The groups of an `Either` together weigh at most what its children do. */
  lemma {:induction false} WorkEither<L>(ps: seq<Pattern<L>>, rest: seq<Pattern<L>>)
    ensures ps != [] ==> WeightAll(ps) >= 1
    ensures Work(EachInFront(ps, rest)) <= (if ps == [] then 0 else Pow2(WeightAll(ps) + WeightAll(rest)))
  {
    if ps != [] {
      WorkEither(ps[1..], rest);
      assert EachInFront(ps, rest)[1..] == EachInFront(ps[1..], rest);
      assert ([ps[0]] + rest)[1..] == rest;
      PowSpread(Weight(ps[0]), WeightAll(ps[1..]), WeightAll(rest), ps[1..] != []);
    }
  }

  lemma PowSpread(w: nat, v: nat, r: nat, more: bool)
    requires w >= 1 && (more ==> v >= 1)
    ensures Pow2(w + r) + (if more then Pow2(v + r) else 0) <= Pow2(w + v + r)
  {
    var s := if more then Pow2(v) else 0;
    PowSum(w, v, s);
    Pow2Add(w, r);
    Pow2Add(v, r);
    Pow2Add(w + v, r);
    Distribute(Pow2(w), s, Pow2(w + v), Pow2(r));
  }

  lemma Distribute(x: int, s: int, y: int, r: int)
    requires x + s <= y && r >= 0
    ensures x * r + s * r <= y * r
  {
    assert (x + s) * r <= y * r;
  }

  lemma WorkOneGroup<L>(g: seq<Pattern<L>>)
    ensures Work([g]) == Pow2(WeightAll(g))
  {
    assert Work([g]) == Pow2(WeightAll(g)) + Work([g][1..]);
  }

  lemma PowStep(n: nat)
    ensures Pow2(n) < Pow2(n + 1)
  {}

  lemma SequenceShrinks<L>(ps: seq<Pattern<L>>, rest: seq<Pattern<L>>, w: nat)
    requires w == 1 + WeightAll(ps) + WeightAll(rest)
    ensures Work([ps + rest]) < Pow2(w)
  {
    WeightConcat(ps, rest);
    WorkOneGroup(ps + rest);
    PowStep(WeightAll(ps + rest));
  }

  lemma ExpandShrinks<L>(g: seq<Pattern<L>>, i: nat)
    requires i < |g| && !g[i].Leaf?
    ensures Work(Expand(g, i)) < Pow2(WeightAll(g))
  {
    var rest, ps := Remove(g, i), g[i].children;
    WeightPullOut(g, i);
    if g[i].Either? {
      WorkEither(ps, rest);
      PowStep(WeightAll(ps) + WeightAll(rest));
    } else if g[i].OneOrMore? {
      WeightConcat(ps, ps);
      SequenceShrinks(ps + ps, rest, WeightAll(g));
    } else {
      SequenceShrinks(ps, rest, WeightAll(g));
    }
  }

  // ---------- Runs of the queue under any strategy ----------

  datatype Queue<L> = Queue(groups: seq<seq<Pattern<L>>>, done: seq<seq<Pattern<L>>>)

  /** One pop: a leaf-only front group is finished, any branch of another one may be expanded. */
  ghost predicate Pop<L(!new)>(q: Queue<L>, q': Queue<L>) {
    && q.groups != []
    && if LeafOnly(q.groups[0]) then
         q' == Queue(q.groups[1..], q.done + [q.groups[0]])
       else
         exists i :: 0 <= i < |q.groups[0]| && !q.groups[0][i].Leaf?
           && q' == Queue(q.groups[1..] + Expand(q.groups[0], i), q.done)
  }

  /** What the queue stands for: finished alternatives and those still to come. */
  ghost function Meaning<L>(q: Queue<L>): multiset<multiset<L>>
    requires AllLeafOnly(q.done)
  {
    multiset(DenoteGroups(q.groups)) + multiset(Alternatives(q.done))
  }

  lemma FinishKeeps<L>(q: Queue<L>)
    requires q.groups != [] && LeafOnly(q.groups[0]) && AllLeafOnly(q.done)
    ensures var q' := Queue(q.groups[1..], q.done + [q.groups[0]]);
            AllLeafOnly(q'.done) && Meaning(q') == Meaning(q) && Work(q'.groups) < Work(q.groups)
  {
    var g := q.groups[0];
    DenoteLeafOnly(g);
    assert Alternatives(q.done + [g]) == Alternatives(q.done) + [LeafBag(g)];
  }

  lemma ExpandKeeps<L>(q: Queue<L>, i: nat)
    requires q.groups != [] && AllLeafOnly(q.done)
    requires i < |q.groups[0]| && !q.groups[0][i].Leaf?
    ensures var q' := Queue(q.groups[1..] + Expand(q.groups[0], i), q.done);
            Meaning(q') == Meaning(q) && Work(q'.groups) < Work(q.groups)
  {
    var g := q.groups[0];
    ExpandPreserves(g, i);
    DenoteGroupsConcat(q.groups[1..], Expand(g, i));
    ExpandShrinks(g, i);
    WorkConcat(q.groups[1..], Expand(g, i));
  }

  ghost predicate IsRun<L(!new)>(run: seq<Queue<L>>) {
    run != [] && forall k {:trigger run[k]} :: 0 <= k < |run| - 1 ==> Pop(run[k], run[k + 1])
  }

  /** Every run, whatever branch each pop picks, keeps the meaning and spends work at each pop. */
  lemma {:induction false} RunKeeps<L(!new)>(run: seq<Queue<L>>)
    requires IsRun(run) && AllLeafOnly(run[0].done)
    ensures var last := run[|run| - 1];
            AllLeafOnly(last.done) && Meaning(last) == Meaning(run[0])
            && |run| - 1 + Work(last.groups) <= Work(run[0].groups)
    decreases |run|
  {
    if |run| > 1 {
      assert Pop(run[0], run[1]);
      var q := run[0];
      if LeafOnly(q.groups[0]) {
        FinishKeeps(q);
      } else {
        var i :| 0 <= i < |q.groups[0]| && !q.groups[0][i].Leaf?
          && run[1] == Queue(q.groups[1..] + Expand(q.groups[0], i), q.done);
        ExpandKeeps(q, i);
      }
      var rest := run[1..];
      assert forall k {:trigger rest[k]} :: 0 <= k < |rest| - 1 ==>
        rest[k] == run[k + 1] && rest[k + 1] == run[k + 1 + 1];
      RunKeeps(rest);
    }
  }

  /** A complete run ends with the denotation of the list it started from. */
  lemma RunComputesDenotation<L(!new)>(ps: seq<Pattern<L>>, run: seq<Queue<L>>)
    requires IsRun(run) && run[0] == Queue([ps], []) && run[|run| - 1].groups == []
    ensures var d := run[|run| - 1].done; AllLeafOnly(d) && Same(Alternatives(d), DenoteAll(ps))
  {
    RunKeeps(run);
    DenoteOneGroup(ps);
    assert Alternatives(run[0].done) == [];
    assert Meaning(run[0]) == multiset(DenoteAll(ps)) + multiset{};
  }

  /** Confluence: two complete runs over one list of patterns end with the same alternatives. */
  lemma RunsConfluent<L(!new)>(ps: seq<Pattern<L>>, run: seq<Queue<L>>, run': seq<Queue<L>>)
    requires IsRun(run) && run[0] == Queue([ps], []) && run[|run| - 1].groups == []
    requires IsRun(run') && run'[0] == Queue([ps], []) && run'[|run'| - 1].groups == []
    ensures var d, d' := run[|run| - 1].done, run'[|run'| - 1].done;
            AllLeafOnly(d) && AllLeafOnly(d') && Same(Alternatives(d), Alternatives(d'))
  {
    RunComputesDenotation(ps, run);
    RunComputesDenotation(ps, run');
  }

  // ---------- The two loops ----------

  lemma MeaningAtStart<L>(ps: seq<Pattern<L>>)
    ensures Meaning(Queue([ps], [])) == multiset(DenoteAll(ps))
  {
    DenoteOneGroup(ps);
    assert Alternatives<L>([]) == [];
  }

  lemma MeaningAtEnd<L>(done: seq<seq<Pattern<L>>>)
    requires AllLeafOnly(done)
    ensures Meaning(Queue([], done)) == multiset(Alternatives(done))
  {}

  /** The first branch of a group, or its length when it has no branch. */
  method PickFirstBranch<L>(children: seq<Pattern<L>>) returns (i: nat)
    ensures i <= |children|
    ensures forall k :: 0 <= k < i ==> children[k].Leaf?
    ensures i < |children| ==> !children[i].Leaf?
  {
    i := 0;
    while i < |children| && children[i].Leaf?
      invariant i <= |children|
      invariant forall k :: 0 <= k < i ==> children[k].Leaf?
    {
      i := i + 1;
    }
  }

  /** The C++ loop: the first branch node of the front group is expanded. */
  method Transform<L>(pattern: seq<Pattern<L>>) returns (result: seq<seq<Pattern<L>>>)
    ensures AllLeafOnly(result)
    ensures Same(Alternatives(result), DenoteAll(pattern))
  {
    result := [];
    var groups := [pattern];
    MeaningAtStart(pattern);
    while groups != []
      invariant AllLeafOnly(result)
      invariant Meaning(Queue(groups, result)) == multiset(DenoteAll(pattern))
      decreases Work(groups)
    {
      var children := groups[0];
      var i := PickFirstBranch(children);
      if i == |children| {
        FinishKeeps(Queue(groups, result));
        groups, result := groups[1..], result + [children];
      } else {
        ExpandKeeps(Queue(groups, result), i);
        groups := groups[1..] + Expand(children, i);
      }
    }
    MeaningAtEnd(result);
  }

  /** The order in which the Python loop looks for a node to expand; leaves come last. */
  function Priority<L>(p: Pattern<L>): nat {
    match p
    case Either(_) => 0
    case Required(_) => 1
    case Optional(_) => 2
    case OptionsShortcut(_) => 3
    case OneOrMore(_) => 4
    case Leaf(_) => 5
  }

  /** The node that the Python loop expands: the first `Either`, without one the first `Required`, and so on. */
  ghost predicate IsPick<L>(g: seq<Pattern<L>>, i: nat)
    requires i < |g|
  {
    match g[i]
    case Either(_) => forall k :: 0 <= k < i ==> !g[k].Either?
    case Required(_) => (forall p <- g :: !p.Either?) && forall k :: 0 <= k < i ==> !g[k].Required?
    case Optional(_) => (forall p <- g :: !p.Either? && !p.Required?) && forall k :: 0 <= k < i ==> !g[k].Optional?
    case OptionsShortcut(_) =>
      && (forall p <- g :: !p.Either? && !p.Required? && !p.Optional?)
      && forall k :: 0 <= k < i ==> !g[k].OptionsShortcut?
    case OneOrMore(_) =>
      (forall p <- g :: p.OneOrMore? || p.Leaf?) && forall k :: 0 <= k < i ==> !g[k].OneOrMore?
    case Leaf(_) => false
  }

  /** The first branch of the best kind in a group, or its length when it has no branch. */
  method PickByPriority<L>(children: seq<Pattern<L>>) returns (best: nat)
    ensures best <= |children|
    ensures best == |children| ==> LeafOnly(children)
    ensures best < |children| ==> IsPick(children, best)
  {
    best := |children|;
    for i := 0 to |children|
      invariant best < i || best == |children|
      invariant best == |children| ==> forall k :: 0 <= k < i ==> children[k].Leaf?
      invariant best < |children| ==> !children[best].Leaf?
      invariant best < |children| ==> forall k :: 0 <= k < i ==> Priority(children[best]) <= Priority(children[k])
      invariant best < |children| ==> forall k :: 0 <= k < best ==> Priority(children[best]) < Priority(children[k])
    {
      var bound := if best == |children| then 5 else Priority(children[best]);
      if Priority(children[i]) < bound { best := i; }
    }
  }

  /** The Python loop: an `Either` goes first, a `OneOrMore` last. */
  method EitherForm<L>(root: Pattern<L>) returns (result: seq<seq<Pattern<L>>>)
    ensures AllLeafOnly(result)
    ensures Same(Alternatives(result), Denote(root))
  {
    result := [];
    var groups := [[root]];
    MeaningAtStart([root]);
    DenoteSingle(root);
    while groups != []
      invariant AllLeafOnly(result)
      invariant Meaning(Queue(groups, result)) == multiset(Denote(root))
      decreases Work(groups)
    {
      var children := groups[0];
      var i := PickByPriority(children);
      if i == |children| {
        FinishKeeps(Queue(groups, result));
        groups, result := groups[1..], result + [children];
      } else {
        ExpandKeeps(Queue(groups, result), i);
        groups := groups[1..] + Expand(children, i);
      }
    }
    MeaningAtEnd(result);
  }

  /** The two implementations agree on every tree the parsers build, whose root is a `Required`. */
  method ExpandBothWays<L>(children: seq<Pattern<L>>)
    returns (cpp: seq<seq<Pattern<L>>>, python: seq<seq<Pattern<L>>>)
    ensures AllLeafOnly(cpp) && AllLeafOnly(python)
    ensures Same(Alternatives(cpp), Alternatives(python))
  {
    cpp := Transform(children);
    python := EitherForm(Required(children));
  }
}
