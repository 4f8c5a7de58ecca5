/**
 Usages on which a branch that is given up spoils the entry of an option: a count that is too high, one that is too low,
 and lists with words that argv does not have.
 */
module MatchExamples {
  import opened Sequences
  import opened Patterns
  import opened Matching
  import opened MatchStore
  import opened MatchRefinement
  import opened MatchAccumulate
  import opened MatchEntries
  import opened MatchTotals
  import opened MatchSteady

  // ---------- Branches that spoil a count ----------

  const FLAG := Option("-v", "", 0, Long(0))
  const GIVEN_FLAG := Option("-v", "", 0, Bool(true))
  const NAME := Argument("<x>", Empty)

  /** `-v [(-v <x>)] [-v]` */
  const USAGE: Pattern<LeafDef> :=
    Required([Leaf(FLAG), Optional([Required([Leaf(FLAG), Leaf(NAME)])]), Optional([Leaf(FLAG)])])

  lemma OptionalOne(q: Pattern<LeafDef>, s: State)
    requires WellFormed(q) && Sane(s)
    ensures WellFormed(Optional([q])) && MatchS(Optional([q]), s) == Result(true, MatchS(q, s).st)
  {
    assert [q][1..] == [];
    assert MatchEachS([q], s) == MatchEachS([q][1..], MatchS(q, s).st);
  }

  /** The two flags of `-v -v` when the first is collected with count `n`. */
  function Counted(n: int): seq<LeafDef> {
    [FLAG.SetValue(Long(n)), GIVEN_FLAG]
  }

  lemma RaiseCounter(n: int)
    ensures MatchLeaf(FLAG, State([1], [0], Counted(n))) == Result(true, State([], [0], Counted(n + 1)))
  {
    var s := State([1], [0], Counted(n));
    assert SingleMatch(FLAG, s.left, s.heap) == 0;
    assert Report(FLAG, s, 0) == (1, s.heap);
    assert FirstWithName([0], s.heap, "-v") == 0;
    assert NextValue(FLAG, s.heap[1], s.heap[0].GetValue()) == Long(n + 1);
    assert SetCell(s.heap, 0, Long(n + 1)) == Counted(n + 1);
    assert Collect(FLAG, 1, s.coll, s.heap) == ([0], Counted(n + 1));
    assert Remove([1], 0) == [];
  }

  lemma StartCounter()
    ensures MatchLeaf(FLAG, State([0, 1], [], [GIVEN_FLAG, GIVEN_FLAG])) == Result(true, State([1], [0], Counted(1)))
  {
    var s := State([0, 1], [], [GIVEN_FLAG, GIVEN_FLAG]);
    assert SingleMatch(FLAG, s.left, s.heap) == 0;
    assert Report(FLAG, s, 0) == (0, s.heap);
    assert SetCell(s.heap, 0, Long(1)) == Counted(1) && s.coll + [0] == [0];
    assert Collect(FLAG, 0, s.coll, s.heap) == ([0], Counted(1));
    assert Remove([0, 1], 0) == [1];
  }

  lemma AllStep(ps: seq<Pattern<LeafDef>>, s: State, s': State)
    requires ps != [] && WellFormed(ps[0]) && WellFormedAll(ps[1..]) && Sane(s) && Sane(s')
    requires MatchS(ps[0], s) == Result(true, s')
    ensures WellFormedAll(ps) && MatchAllS(ps, s) == MatchAllS(ps[1..], s')
  {}

  lemma LastStep(p: Pattern<LeafDef>, s: State)
    requires WellFormed(p) && Sane(s)
    ensures WellFormedAll([p]) && MatchAllS([p], s) == MatchS(p, s)
  {
    assert [p][1..] == [];
  }

  lemma NameFails(heap: seq<LeafDef>)
    requires |heap| == 2
    ensures MatchLeaf(NAME, State([], [0], heap)) == Result(false, State([], [0], heap))
  {}

  /** The group in the middle takes the second flag, fails on `<x>`, and leaves the counter raised. */
  lemma GroupGivesUp(ps: seq<Pattern<LeafDef>>, n: int)
    requires ps == [Leaf(FLAG), Leaf(NAME)]
    ensures WellFormed(Required(ps))
    ensures MatchS(Required(ps), State([1], [0], Counted(n))) == Result(false, State([1], [0], Counted(n + 1)))
  {
    var s, s' := State([1], [0], Counted(n)), State([], [0], Counted(n + 1));
    assert ps[1..] == [ps[1]];
    RaiseCounter(n);
    NameFails(s'.heap);
    LastStep(ps[1], s');
    AllStep(ps, s, s');
  }

  lemma ThreeSteps(ps: seq<Pattern<LeafDef>>, s: State, s1: State, s2: State, s3: State)
    requires |ps| == 3 && WellFormed(ps[0]) && WellFormed(ps[1]) && WellFormed(ps[2])
    requires Sane(s) && Sane(s1) && Sane(s2) && Sane(s3)
    requires MatchS(ps[0], s) == Result(true, s1) && MatchS(ps[1], s1) == Result(true, s2)
    requires MatchS(ps[2], s2) == Result(true, s3)
    ensures WellFormedAll(ps) && MatchAllS(ps, s) == Result(true, s3)
  {
    assert ps[1..][1..] == [ps[2]];
    LastStep(ps[2], s2);
    AllStep(ps[1..], s1, s2);
    AllStep(ps, s, s1);
  }

  /** On `-v -v` the flag counts three: the branch that is given up has already written the shared entry. */
  lemma DiscardedBranchStillCounts(p: Pattern<LeafDef>, s: State)
    requires p == USAGE && s == State([0, 1], [], [GIVEN_FLAG, GIVEN_FLAG])
    ensures WellFormed(p) && OneDefinitionPerName(Leaves(p)) && !Linear(p)
    ensures MatchS(p, s) == Result(true, State([], [0], Counted(3)))
  {
    var s1, s2, s3 := State([1], [0], Counted(1)), State([1], [0], Counted(2)), State([], [0], Counted(3));
    StartCounter();
    GroupGivesUp([Leaf(FLAG), Leaf(NAME)], 1);
    OptionalOne(Required([Leaf(FLAG), Leaf(NAME)]), s1);
    RaiseCounter(2);
    OptionalOne(Leaf(FLAG), s2);
    ThreeSteps(p.children, s, s1, s2, s3);
    UsageShape(p.children, [Leaf(FLAG), Leaf(NAME)]);
  }

  lemma LeavesCons(p: Pattern<LeafDef>, ps: seq<Pattern<LeafDef>>)
    requires ps != [] && ps[0] == p
    ensures LeavesAll(ps) == Leaves(p) + LeavesAll(ps[1..])
  {}

  lemma UsageShape(ps: seq<Pattern<LeafDef>>, qs: seq<Pattern<LeafDef>>)
    requires qs == [Leaf(FLAG), Leaf(NAME)] && |ps| == 3
    requires ps[0] == Leaf(FLAG) && ps[1] == Optional([Required(qs)]) && ps[2] == Optional([Leaf(FLAG)])
    ensures OneDefinitionPerName(LeavesAll(ps)) && !LinearAll(ps, false)
  {
    var group, flag := [Required(qs)], [Leaf(FLAG)];
    assert ps[1..][1..] == ps[2..] && ps[2..][1..] == [] && qs[1..][1..] == [] && group[1..] == [] && flag[1..] == [];
    LeavesCons(Leaf(FLAG), qs);
    LeavesCons(Leaf(NAME), qs[1..]);
    LeavesCons(Required(qs), group);
    LeavesCons(Leaf(FLAG), flag);
    LeavesCons(ps[0], ps);
    LeavesCons(ps[1], ps[1..]);
    LeavesCons(ps[2], ps[2..]);
    assert LeavesAll(ps) == {FLAG, NAME};
    assert !Infallible(qs[1..][0]) && !InfallibleAll(qs[1..]);
    assert !AtomicAll(qs) && !Atomic(Required(qs));
    assert !LinearAll(group, true) && !Linear(ps[1]);
    assert !LinearAll(ps[1..], false);
  }

  // ---------- A count that starts again ----------

  /** A flag that is still to be matched starts its count at one, whatever an earlier branch has written into it. */
  lemma RestartCounter(n: int)
    ensures MatchLeaf(FLAG, State([0, 1], [], Counted(n))) == Result(true, State([1], [0], Counted(1)))
  {
    var s := State([0, 1], [], Counted(n));
    assert SingleMatch(FLAG, s.left, s.heap) == 0;
    assert Report(FLAG, s, 0) == (0, s.heap);
    assert SetCell(s.heap, 0, Long(1)) == Counted(1) && s.coll + [0] == [0];
    assert Collect(FLAG, 0, s.coll, s.heap) == ([0], Counted(1));
    assert Remove([0, 1], 0) == [1];
  }

  lemma NameFailsOnFlag(n: int)
    ensures MatchLeaf(NAME, State([1], [0], Counted(n))) == Result(false, State([1], [0], Counted(n)))
  {
    assert FirstArg([1], Counted(n)) == 1;
  }

  lemma TwoFlags(ps: seq<Pattern<LeafDef>>, s: State)
    requires ps == [Leaf(FLAG), Leaf(FLAG)] && s == State([0, 1], [], [GIVEN_FLAG, GIVEN_FLAG])
    ensures WellFormed(Required(ps)) && MatchS(Required(ps), s) == Result(true, State([], [0], Counted(2)))
  {
    var s1 := State([1], [0], Counted(1));
    assert ps[1..] == [ps[1]];
    StartCounter();
    RaiseCounter(1);
    LastStep(ps[1], s1);
    AllStep(ps, s, s1);
  }

  lemma FlagAndName(ps: seq<Pattern<LeafDef>>, n: int)
    requires ps == [Leaf(FLAG), Leaf(NAME)]
    ensures WellFormed(Required(ps))
    ensures MatchS(Required(ps), State([0, 1], [], Counted(n))) == Result(false, State([0, 1], [], Counted(1)))
  {
    var s, s1 := State([0, 1], [], Counted(n)), State([1], [0], Counted(1));
    assert ps[1..] == [ps[1]];
    RestartCounter(n);
    NameFailsOnFlag(1);
    LastStep(ps[1], s1);
    AllStep(ps, s, s1);
  }

  lemma OutcomesCons(ps: seq<Pattern<LeafDef>>, s: State)
    requires ps != [] && WellFormed(ps[0]) && WellFormedAll(ps[1..]) && Sane(s)
    ensures WellFormedAll(ps) && var m := MatchS(ps[0], s);
            var r := MatchOutcomesS(ps[1..], s.(heap := m.st.heap));
            MatchOutcomesS(ps, s) == ((if m.ok then [(m.st.left, m.st.coll)] else []) + r.0, r.1)
  {}

  lemma NoOutcomes(s: State)
    requires Sane(s)
    ensures MatchOutcomesS([], s) == ([], s.heap)
  {}

  lemma SecondFails(ps: seq<Pattern<LeafDef>>, s: State, s': State)
    requires |ps| == 1 && WellFormed(ps[0]) && Sane(s) && Sane(s') && MatchS(ps[0], s) == Result(false, s')
    requires s' == s.(heap := s'.heap)
    ensures WellFormedAll(ps) && MatchOutcomesS(ps, s) == ([], s'.heap)
  {
    assert ps[1..] == [];
    OutcomesCons(ps, s);
    NoOutcomes(s');
    var r := MatchOutcomesS(ps[1..], s.(heap := s'.heap));
    assert r == ([], s'.heap) && [] + r.0 == r.0;
  }

  lemma ChooseOnly(ps: seq<Pattern<LeafDef>>, s: State, s1: State, heap: seq<LeafDef>)
    requires WellFormedAll(ps) && Sane(s) && MatchOutcomesS(ps, s) == ([(s1.left, s1.coll)], heap)
    ensures MatchS(Either(ps), s) == Result(true, s1.(heap := heap))
  {
    assert FirstMin(SizesS([(s1.left, s1.coll)])) == 0;
  }

  /** Two alternatives, of which the second fails and leaves `heap`. */
  lemma FirstOfTwo(ps: seq<Pattern<LeafDef>>, s: State, s1: State, heap: seq<LeafDef>)
    requires |ps| == 2 && WellFormed(ps[0]) && WellFormed(ps[1])
    requires Sane(s) && Sane(s1) && Sane(s.(heap := s1.heap)) && Sane(s.(heap := heap))
    requires MatchS(ps[0], s) == Result(true, s1)
    requires MatchS(ps[1], s.(heap := s1.heap)) == Result(false, s.(heap := heap))
    ensures WellFormed(Either(ps)) && MatchS(Either(ps), s) == Result(true, s1.(heap := heap))
  {
    SecondFails(ps[1..], s.(heap := s1.heap), s.(heap := heap));
    OutcomesCons(ps, s);
    assert [(s1.left, s1.coll)] + [] == [(s1.left, s1.coll)];
    ChooseOnly(ps, s, s1, heap);
  }

  /**
   The usage `-v -v | -v <x>` on `-v -v` counts one: the second alternative fails, but has started the count again.
   */
  lemma LaterBranchRestartsCount(
    ps: seq<Pattern<LeafDef>>, flags: seq<Pattern<LeafDef>>, named: seq<Pattern<LeafDef>>, s: State)
    requires flags == [Leaf(FLAG), Leaf(FLAG)] && named == [Leaf(FLAG), Leaf(NAME)]
    requires ps == [Required(flags), Required(named)]
    requires s == State([0, 1], [], [GIVEN_FLAG, GIVEN_FLAG])
    ensures WellFormed(Either(ps)) && MatchS(Either(ps), s) == Result(true, State([], [0], Counted(1)))
    ensures !Once(Either(ps), FLAG)
  {
    var s1 := State([], [0], Counted(2));
    TwoFlags(flags, s);
    FlagAndName(named, 2);
    FirstOfTwo(ps, s, s1, Counted(1));
    InTwoAlternatives(ps, flags, named);
  }

  lemma InTwoAlternatives(ps: seq<Pattern<LeafDef>>, a: seq<Pattern<LeafDef>>, b: seq<Pattern<LeafDef>>)
    requires a != [] && b != [] && a[0] == Leaf(FLAG) && b[0] == Leaf(FLAG) && ps == [Required(a), Required(b)]
    ensures !Once(Either(ps), FLAG)
  {
    LeavesCons(Leaf(FLAG), a);
    LeavesCons(Leaf(FLAG), b);
    LeavesCons(ps[0], ps);
    LeavesCons(ps[1], ps[1..]);
    assert FLAG in Leaves(ps[0]) && FLAG in LeavesAll(ps[1..]) && FLAG in Leaves(Either(ps));
  }

  // ---------- A list that is heard twice ----------

  const LISTED := Option("-o", "", 1, StrList([]))

  function GivenOption(word: string): LeafDef {
    Option("-o", "", 1, Str(word))
  }

  /** The two options of `-o A -o B` when the first has been written. */
  function Listed(words: seq<string>): seq<LeafDef> {
    [LISTED.SetValue(StrList(words)), GivenOption("B")]
  }

  /** An option that is still to be matched starts with the words that it holds. */
  lemma StartList(v: Value, words: seq<string>)
    requires Words(v) == words
    ensures MatchLeaf(LISTED, State([0, 1], [], [LISTED.SetValue(v), GivenOption("B")])) ==
            Result(true, State([1], [0], Listed(words)))
  {
    var s := State([0, 1], [], [LISTED.SetValue(v), GivenOption("B")]);
    assert SingleMatch(LISTED, s.left, s.heap) == 0;
    assert Report(LISTED, s, 0) == (0, s.heap);
    assert FirstValue(LISTED, s.heap[0]) == StrList(words);
    assert SetCell(s.heap, 0, StrList(words)) == Listed(words) && s.coll + [0] == [0];
    assert Collect(LISTED, 0, s.coll, s.heap) == ([0], Listed(words));
    assert Remove([0, 1], 0) == [1];
  }

  lemma GrowList(words: seq<string>)
    ensures MatchLeaf(LISTED, State([1], [0], Listed(words))) == Result(true, State([], [0], Listed(words + ["B"])))
  {
    var s := State([1], [0], Listed(words));
    assert SingleMatch(LISTED, s.left, s.heap) == 0;
    assert Report(LISTED, s, 0) == (1, s.heap);
    assert FirstWithName([0], s.heap, "-o") == 0;
    assert NextValue(LISTED, s.heap[1], s.heap[0].GetValue()) == StrList(words + ["B"]);
    assert SetCell(s.heap, 0, StrList(words + ["B"])) == Listed(words + ["B"]);
    assert Collect(LISTED, 1, s.coll, s.heap) == ([0], Listed(words + ["B"]));
    assert Remove([1], 0) == [];
  }

  lemma ListTwice(ps: seq<Pattern<LeafDef>>, v: Value, words: seq<string>)
    requires ps == [Leaf(LISTED), Leaf(LISTED)] && Words(v) == words
    ensures WellFormed(Required(ps))
    ensures MatchS(Required(ps), State([0, 1], [], [LISTED.SetValue(v), GivenOption("B")])) ==
            Result(true, State([], [0], Listed(words + ["B"])))
  {
    var s, s1 := State([0, 1], [], [LISTED.SetValue(v), GivenOption("B")]), State([1], [0], Listed(words));
    assert ps[1..] == [ps[1]];
    StartList(v, words);
    GrowList(words);
    LastStep(ps[1], s1);
    AllStep(ps, s, s1);
  }

  /** A line that takes both and then misses `<x>` leaves its words behind. */
  lemma ListTwiceAndName(ps: seq<Pattern<LeafDef>>, v: Value, words: seq<string>)
    requires ps == [Leaf(LISTED), Leaf(LISTED), Leaf(NAME)] && Words(v) == words
    ensures WellFormed(Required(ps))
    ensures MatchS(Required(ps), State([0, 1], [], [LISTED.SetValue(v), GivenOption("B")])) ==
            Result(false, State([0, 1], [], Listed(words + ["B"])))
  {
    var s, s1 := State([0, 1], [], [LISTED.SetValue(v), GivenOption("B")]), State([1], [0], Listed(words));
    var s2 := State([], [0], Listed(words + ["B"]));
    assert ps[1..][1..] == [ps[2]];
    StartList(v, words);
    GrowList(words);
    NameFails(s2.heap);
    LastStep(ps[2], s2);
    AllStep(ps[1..], s1, s2);
    AllStep(ps, s, s1);
  }

  /**
   The usage `-o V -o V | -o V -o V <x>` on `-o A -o B` ends with A, B, B: the second line adds to the list of the
   first.
   */
  lemma LaterLineAddsToList(
    ps: seq<Pattern<LeafDef>>, twice: seq<Pattern<LeafDef>>, named: seq<Pattern<LeafDef>>, s: State)
    requires twice == [Leaf(LISTED), Leaf(LISTED)] && named == [Leaf(LISTED), Leaf(LISTED), Leaf(NAME)]
    requires ps == [Required(twice), Required(named)] && s == State([0, 1], [], [GivenOption("A"), GivenOption("B")])
    ensures WellFormed(Either(ps)) && MatchS(Either(ps), s) == Result(true, State([], [0], Listed(["A", "B", "B"])))
  {
    var s1 := State([], [0], Listed(["A", "B"]));
    ListTwice(twice, Str("A"), ["A"]);
    ListTwiceAndName(named, StrList(["A", "B"]), ["A", "B"]);
    assert ["A"] + ["B"] == ["A", "B"] && ["A", "B"] + ["B"] == ["A", "B", "B"];
    FirstOfTwo(ps, s, s1, Listed(["A", "B", "B"]));
  }

  /** The repetition `[-o V]...` takes both options and then one round that takes nothing. */
  lemma ListLoop(p: Pattern<LeafDef>, v: Value, words: seq<string>)
    requires p == Optional([Leaf(LISTED)]) && Words(v) == words
    ensures WellFormed(OneOrMore([p]))
    ensures MatchS(OneOrMore([p]), State([0, 1], [], [LISTED.SetValue(v), GivenOption("B")])) ==
            Result(true, State([], [0], Listed(words + ["B"])))
  {
    var s, s1 := State([0, 1], [], [LISTED.SetValue(v), GivenOption("B")]), State([1], [0], Listed(words));
    var s2 := State([], [0], Listed(words + ["B"]));
    StartList(v, words);
    OptionalOne(Leaf(LISTED), s);
    GrowList(words);
    OptionalOne(Leaf(LISTED), s1);
    assert MatchLeaf(LISTED, s2) == Result(false, s2);
    OptionalOne(Leaf(LISTED), s2);
    assert MatchLoopS(p, s2, false, s2.left) == Result(true, s2);
    assert MatchLoopS(p, s1, false, s1.left) == Result(true, s2);
    assert MatchLoopS(p, s, true, []) == Result(true, s2);
  }

  /**
   The usage `[(-o V -o V <x>)] [-o V]...` on `-o A -o B` ends with A, B, B too: the group is given up before any
   entry.
   */
  lemma GivenUpGroupStaysInList(ps: seq<Pattern<LeafDef>>, named: seq<Pattern<LeafDef>>, s: State)
    requires named == [Leaf(LISTED), Leaf(LISTED), Leaf(NAME)]
    requires ps == [Optional([Required(named)]), OneOrMore([Optional([Leaf(LISTED)])])]
    requires s == State([0, 1], [], [GivenOption("A"), GivenOption("B")])
    ensures WellFormed(Required(ps)) && MatchS(Required(ps), s) == Result(true, State([], [0], Listed(["A", "B", "B"])))
  {
    var s1, s2 := State([0, 1], [], Listed(["A", "B"])), State([], [0], Listed(["A", "B", "B"]));
    ListTwiceAndName(named, Str("A"), ["A"]);
    assert ["A"] + ["B"] == ["A", "B"] && ["A", "B"] + ["B"] == ["A", "B", "B"];
    OptionalOne(Required(named), s);
    ListLoop(Optional([Leaf(LISTED)]), StrList(["A", "B"]), ["A", "B"]);
    assert ps[1..] == [ps[1]];
    LastStep(ps[1], s1);
    AllStep(ps, s, s1);
  }
}
