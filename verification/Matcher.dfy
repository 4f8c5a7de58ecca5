/** The matcher as it runs: loops over pattern lists that rewrite `left`, `collected` and shared leaves. */
module Matcher {
  import opened Sequences
  import opened Patterns
  import opened Matching
  import opened MatchStore

  /** The leaf objects that `left` and `collected` point to. */
  class LeafHeap {
    var heap: seq<LeafDef>

    constructor (argv: seq<LeafDef>)
      ensures heap == argv
    {
      heap := argv;
    }

    ghost function Now(left: seq<int>, coll: seq<int>): State
      reads this
    {
      State(left, coll, heap)
    }

    method FindByName(s: seq<int>, name: string) returns (i: nat)
      requires InHeap(s, heap)
      ensures i == FirstWithName(s, heap, name)
    {
      i := 0;
      while i < |s| && heap[s[i]].Name() != name
        invariant i <= |s| && FirstWithName(s, heap, name) == i + FirstWithName(s[i..], heap, name)
      {
        i := i + 1;
      }
    }

    method FindArgument(s: seq<int>) returns (i: nat)
      requires InHeap(s, heap)
      ensures i == FirstArg(s, heap)
    {
      i := 0;
      while i < |s| && !IsArg(heap[s[i]])
        invariant i <= |s| && FirstArg(s, heap) == i + FirstArg(s[i..], heap)
      {
        i := i + 1;
      }
    }

    /** `LeafPattern::match` with the three `single_match` functions. */
    method MatchOneLeaf(leaf: LeafDef, left: seq<int>, coll: seq<int>)
      returns (ok: bool, left': seq<int>, coll': seq<int>)
      requires Sane(Now(left, coll))
      modifies this
      ensures Result(ok, Now(left', coll')) == MatchLeaf(leaf, old(Now(left, coll)))
    {
      var i;
      if leaf.Option? {
        i := FindByName(left, leaf.Name());
      } else {
        i := FindArgument(left);
        if leaf.Command? && i < |left| && heap[left[i]].GetValue() != Str(leaf.cmdName) { i := |left|; }
      }
      if i == |left| { return false, left, coll; }
      var m := left[i];
      if !leaf.Option? {
        m := |heap|;
        heap := heap + [Reported(leaf, heap[left[i]])];
      }
      left' := left[..i] + left[i + 1..];
      coll' := CollectOne(leaf, m, coll);
      ok := true;
    }

    /** The reported leaf `m` is entered, or added to the entry of its name. */
    method CollectOne(leaf: LeafDef, m: int, coll: seq<int>) returns (coll': seq<int>)
      requires InHeap(coll, heap) && 0 <= m < |heap|
      modifies this
      ensures (coll', heap) == Collect(leaf, m, coll, old(heap))
    {
      coll' := coll;
      if !Accumulates(leaf.GetValue()) {
        coll' := coll + [m];
      } else {
        var j := FindByName(coll, leaf.Name());
        if j == |coll| {
          coll' := coll + [m];
          heap := SetCell(heap, m, FirstValue(leaf, heap[m]));
        } else {
          heap := SetCell(heap, coll[j], NextValue(leaf, heap[m], heap[coll[j]].GetValue()));
        }
      }
    }

    method Match(p: Pattern<LeafDef>, left: seq<int>, coll: seq<int>)
      returns (ok: bool, left': seq<int>, coll': seq<int>)
      requires WellFormed(p) && Sane(Now(left, coll))
      modifies this
      ensures Result(ok, Now(left', coll')) == MatchS(p, old(Now(left, coll)))
      decreases p, 1
    {
      match p
      case Leaf(leaf) => ok, left', coll' := MatchOneLeaf(leaf, left, coll);
      case Required(ps) => ok, left', coll' := MatchRequired(ps, left, coll);
      case Optional(ps) => left', coll' := MatchOptional(ps, left, coll); ok := true;
      case OptionsShortcut(ps) => left', coll' := MatchOptional(ps, left, coll); ok := true;
      case OneOrMore(ps) => ok, left', coll' := MatchOneOrMore(ps, left, coll);
      case Either(ps) => ok, left', coll' := MatchEither(ps, left, coll);
    }

    method MatchRequired(ps: seq<Pattern<LeafDef>>, left: seq<int>, coll: seq<int>)
      returns (ok: bool, left': seq<int>, coll': seq<int>)
      requires WellFormedAll(ps) && Sane(Now(left, coll))
      modifies this
      ensures Result(ok, Now(left', coll')) == MatchS(Required(ps), old(Now(left, coll)))
      decreases ps, 0
    {
      ghost var start := Now(left, coll);
      var l, c := left, coll;
      for i := 0 to |ps|
        invariant WellFormedAll(ps[i..]) && Sane(Now(l, c))
        invariant MatchAllS(ps, start) == MatchAllS(ps[i..], Now(l, c))
      {
        var ret;
        ret, l, c := Match(ps[i], l, c);
        if !ret { return false, left, coll; }
        assert ps[i..][1..] == ps[i + 1..];
      }
      return true, l, c;
    }

    method MatchOptional(ps: seq<Pattern<LeafDef>>, left: seq<int>, coll: seq<int>)
      returns (left': seq<int>, coll': seq<int>)
      requires WellFormedAll(ps) && Sane(Now(left, coll))
      modifies this
      ensures Now(left', coll') == MatchEachS(ps, old(Now(left, coll)))
      decreases ps, 0
    {
      ghost var start := Now(left, coll);
      left', coll' := left, coll;
      for i := 0 to |ps|
        invariant WellFormedAll(ps[i..]) && Sane(Now(left', coll'))
        invariant MatchEachS(ps, start) == MatchEachS(ps[i..], Now(left', coll'))
      {
        var ret;
        ret, left', coll' := Match(ps[i], left', coll');
        assert ps[i..][1..] == ps[i + 1..];
      }
    }

    method MatchOneOrMore(ps: seq<Pattern<LeafDef>>, left: seq<int>, coll: seq<int>)
      returns (ok: bool, left': seq<int>, coll': seq<int>)
      requires |ps| == 1 && WellFormed(ps[0]) && Sane(Now(left, coll))
      modifies this
      ensures Result(ok, Now(left', coll')) == MatchS(OneOrMore(ps), old(Now(left, coll)))
      decreases ps, 0
    {
      ghost var total := MatchLoopS(ps[0], Now(left, coll), true, []);
      var l, c := left, coll;
      var matched, times: nat, firstLoop := true, 0, true;
      var l_ := [];
      while matched
        invariant Sane(Now(l, c)) && (firstLoop || l_ == l) && (!firstLoop && matched ==> times > 0)
        invariant matched ==> total == MatchLoopS(ps[0], Now(l, c), firstLoop, l_)
        invariant !matched ==> total == Result(times > 0, Now(l, c))
        invariant firstLoop ==> matched && times == 0
        decreases matched, |l|, firstLoop
      {
        matched, l, c := Match(ps[0], l, c);
        if matched { times := times + 1; }
        if firstLoop {
          firstLoop := false;
        } else if l == l_ {
          break;
        }
        l_ := l;
      }
      if times == 0 { return false, left, coll; }
      return true, l, c;
    }

    method MatchEither(ps: seq<Pattern<LeafDef>>, left: seq<int>, coll: seq<int>)
      returns (ok: bool, left': seq<int>, coll': seq<int>)
      requires WellFormedAll(ps) && Sane(Now(left, coll))
      modifies this
      ensures Result(ok, Now(left', coll')) == MatchS(Either(ps), old(Now(left, coll)))
      decreases ps, 0
    {
      ghost var s := Now(left, coll);
      ghost var all := MatchOutcomesS(ps, s);
      var outcomes: seq<(seq<int>, seq<int>)> := [];
      assert ps[0..] == ps;
      for i := 0 to |ps|
        invariant Pending(ps, i, Now(left, coll), outcomes, all)
      {
        PendingStep(ps, i, Now(left, coll), outcomes, all);
        var matched, l, c := Match(ps[i], left, coll);
        if matched { outcomes := outcomes + [(l, c)]; }
      }
      PendingEnd(ps, s, Now(left, coll), outcomes, all);
      if outcomes == [] { return false, left, coll; }
      var min := MinElement(outcomes);
      return true, outcomes[min].0, outcomes[min].1;
    }
  }

  /** The outcomes so far, and those of the alternatives from `i` on, are all outcomes. */
  ghost predicate Pending(
    ps: seq<Pattern<LeafDef>>, i: nat, s: State, outcomes: seq<(seq<int>, seq<int>)>,
    all: (seq<(seq<int>, seq<int>)>, seq<LeafDef>))
    requires i <= |ps|
  {
    && WellFormedAll(ps[i..]) && Sane(s)
    && var rest := MatchOutcomesS(ps[i..], s); all.0 == outcomes + rest.0 && all.1 == rest.1
  }

  lemma PendingStep(
    ps: seq<Pattern<LeafDef>>, i: nat, s: State, outcomes: seq<(seq<int>, seq<int>)>,
    all: (seq<(seq<int>, seq<int>)>, seq<LeafDef>))
    requires i < |ps| && Pending(ps, i, s, outcomes, all)
    ensures WellFormed(ps[i])
    ensures var m := MatchS(ps[i], s);
            Pending(ps, i + 1, s.(heap := m.st.heap), if m.ok then outcomes + [(m.st.left, m.st.coll)] else outcomes,
                    all)
  {
    assert ps[i..][0] == ps[i] && ps[i..][1..] == ps[i + 1..];
    var m := MatchS(ps[i], s);
    var later := MatchOutcomesS(ps[i + 1..], s.(heap := m.st.heap)).0;
    ConcatAssoc(outcomes, if m.ok then [(m.st.left, m.st.coll)] else [], later);
    assert [] + later == later;
  }

  /** With no alternative pending, the choice is among the outcomes so far. */
  lemma PendingEnd(
    ps: seq<Pattern<LeafDef>>, s: State, s': State, outcomes: seq<(seq<int>, seq<int>)>,
    all: (seq<(seq<int>, seq<int>)>, seq<LeafDef>))
    requires WellFormedAll(ps) && Sane(s) && all == MatchOutcomesS(ps, s) && Pending(ps, |ps|, s', outcomes, all)
    ensures MatchS(Either(ps), s) ==
            if outcomes == [] then Result(false, s.(heap := s'.heap))
            else var best := outcomes[FirstMin(SizesS(outcomes))]; Result(true, State(best.0, best.1, s'.heap))
  {
    assert ps[|ps|..] == [] && outcomes + [] == outcomes;
    assert all.0 == outcomes && all.1 == s'.heap;
  }

  /** `std::min_element` by the number of tokens left: the first of the smallest. */
  method MinElement(outcomes: seq<(seq<int>, seq<int>)>) returns (min: nat)
    requires outcomes != []
    ensures min < |outcomes| && min == FirstMin(SizesS(outcomes))
  {
    min := 0;
    for i := 1 to |outcomes|
      invariant min < i
      invariant forall k :: 0 <= k < i ==> |outcomes[min].0| <= |outcomes[k].0|
      invariant forall k :: 0 <= k < min ==> |outcomes[min].0| < |outcomes[k].0|
    {
      if |outcomes[i].0| < |outcomes[min].0| { min := i; }
    }
    assert SizesS(outcomes)[min] == |outcomes[min].0|;
  }
}
