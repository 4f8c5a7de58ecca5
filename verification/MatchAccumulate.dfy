/**
 Counters and lists. A leaf that repeats keeps one entry in `collected`; on patterns that never give
 up a branch after taking something, that entry is exactly what its own takes add up to.
 */
module MatchAccumulate {
  import opened Sequences
  import opened Patterns
  import opened Matching
  import opened MatchStore
  import opened MatchRefinement

  // ---------- Patterns that never discard a take ----------

  /** Never fails. */
  ghost predicate Infallible(p: Pattern<LeafDef>)
    decreases p, 1
  {
    match p
    case Optional(_) => true
    case OptionsShortcut(_) => true
    case Required(ps) => InfallibleAll(ps)
    case OneOrMore(ps) => InfallibleAll(ps)
    case _ => false
  }

  ghost predicate InfallibleAll(ps: seq<Pattern<LeafDef>>)
    decreases ps, 0
  {
    ps == [] || (Infallible(ps[0]) && InfallibleAll(ps[1..]))
  }

  /** Fails only before it has taken anything. */
  ghost predicate Atomic(p: Pattern<LeafDef>)
    decreases p, 1
  {
    match p
    case Leaf(_) => true
    case Required(ps) => AtomicAll(ps)
    case OneOrMore(ps) => AtomicAll(ps)
    case Optional(_) => true
    case OptionsShortcut(_) => true
    case Either(_) => false
  }

  ghost predicate AtomicAll(ps: seq<Pattern<LeafDef>>)
    decreases ps, 0
  {
    ps == [] || (Atomic(ps[0]) && InfallibleAll(ps[1..]))
  }

  /** No `Either`, and what may be skipped or repeated fails only before it has taken anything. */
  ghost predicate Linear(p: Pattern<LeafDef>)
    decreases p, 1
  {
    match p
    case Leaf(_) => true
    case Required(ps) => LinearAll(ps, false)
    case Optional(ps) => LinearAll(ps, true)
    case OptionsShortcut(ps) => LinearAll(ps, true)
    case OneOrMore(ps) => LinearAll(ps, true)
    case Either(_) => false
  }

  ghost predicate LinearAll(ps: seq<Pattern<LeafDef>>, atomic: bool)
    decreases ps, 0
  {
    ps == [] || (Linear(ps[0]) && (atomic ==> Atomic(ps[0])) && LinearAll(ps[1..], atomic))
  }

  // ---------- Entries ----------

  /** The leaves in `collected`, by value. */
  function Entries(coll: seq<int>, heap: seq<LeafDef>): (r: seq<LeafDef>)
    requires InHeap(coll, heap)
    ensures |r| == |coll| && forall k :: 0 <= k < |r| ==> r[k] == heap[coll[k]]
  {
    seq(|coll|, k requires 0 <= k < |coll| && 0 <= coll[k] < |heap| => heap[coll[k]])
  }

  function FirstEntry(es: seq<LeafDef>, name: string): (i: nat)
    ensures i <= |es| && (i < |es| ==> es[i].Name() == name)
    ensures forall k :: 0 <= k < i ==> es[k].Name() != name
  {
    if es == [] || es[0].Name() == name then 0 else 1 + FirstEntry(es[1..], name)
  }

  /** One take, on values: no sharing. */
  function Enter(es: seq<LeafDef>, leaf: LeafDef, cell: LeafDef): seq<LeafDef> {
    var m := Reported(leaf, cell);
    if !Accumulates(leaf.GetValue()) then es + [m] else
    var j := FirstEntry(es, leaf.Name());
    if j == |es| then es + [m.SetValue(FirstValue(leaf, m))]
    else es[j := es[j].SetValue(NextValue(leaf, m, es[j].GetValue()))]
  }

  /** All takes of a log, on values; `heap` holds argv as it was before the first of them. */
  function EnterAll(es: seq<LeafDef>, log: seq<Take>, heap: seq<LeafDef>): seq<LeafDef>
    requires forall k :: 0 <= k < |log| ==> log[k].tok.id < |heap|
  {
    if log == [] then es else
    var n := |log| - 1;
    Enter(EnterAll(es, log[..n], heap), log[n].leaf, heap[log[n].tok.id])
  }

  lemma {:induction false} EnterAllConcat(es: seq<LeafDef>, a: seq<Take>, b: seq<Take>, heap: seq<LeafDef>)
    requires forall k :: 0 <= k < |a| ==> a[k].tok.id < |heap|
    requires forall k :: 0 <= k < |b| ==> b[k].tok.id < |heap|
    ensures EnterAll(es, a + b, heap) == EnterAll(EnterAll(es, a, heap), b, heap)
    decreases |b|
  {
    if b == [] {
      assert a + b == a;
    } else {
      var n := |b| - 1;
      EnterAllConcat(es, a, b[..n], heap);
      assert (a + b)[..|a + b| - 1] == a + b[..n];
    }
  }

  lemma {:induction false} EnterAllSame(es: seq<LeafDef>, log: seq<Take>, heap: seq<LeafDef>, heap': seq<LeafDef>)
    requires forall k :: 0 <= k < |log| ==> log[k].tok.id < |heap| && log[k].tok.id < |heap'|
    requires forall k :: 0 <= k < |log| ==> heap[log[k].tok.id] == heap'[log[k].tok.id]
    ensures EnterAll(es, log, heap) == EnterAll(es, log, heap')
  {
    if log != [] { EnterAllSame(es, log[..|log| - 1], heap, heap'); }
  }

  // ---------- States without aliasing ----------

  ghost predicate NoRepeat(s: seq<int>) {
    forall i, j :: 0 <= i < j < |s| ==> s[i] != s[j]
  }

  ghost predicate NoAlias(s: State) {
    NoRepeat(s.left) && NoRepeat(s.coll) && forall x <- s.coll :: x !in s.left
  }

  /** What has not been taken yet has not been written. */
  ghost predicate LeftKept(s: State, s': State)
    requires Sane(s')
  {
    |s.heap| <= |s'.heap| && forall k :: 0 <= k < |s'.left| ==>
      s'.left[k] < |s.heap| && s'.heap[s'.left[k]] == s.heap[s'.left[k]]
  }

  /** Takes are by leaves of the pattern, each of a token of its own kind. */
  ghost predicate LogFits(log: seq<Take>, leaves: set<LeafDef>, n: nat) {
    forall k :: 0 <= k < |log| ==>
      && log[k].leaf in leaves && log[k].tok.id < n
      && (if log[k].leaf.Option? then log[k].tok == Opt(log[k].tok.id, log[k].leaf.Name()) else log[k].tok.Pos?)
  }

  ghost predicate Tracks(s: State, s': State, log: seq<Take>, leaves: set<LeafDef>)
    requires Sane(s) && Sane(s')
  {
    && NoAlias(s') && LeftKept(s, s') && LogFits(log, leaves, |s.heap|)
    && Entries(s'.coll, s'.heap) == EnterAll(Entries(s.coll, s.heap), log, s.heap)
  }

  lemma TracksNothing(s: State, leaves: set<LeafDef>)
    requires Sane(s) && NoAlias(s)
    ensures Tracks(s, s, [], leaves)
  {}

  // ---------- Leaves ----------

  lemma {:induction false} SameFirstEntry(coll: seq<int>, heap: seq<LeafDef>, name: string)
    requires InHeap(coll, heap)
    ensures FirstWithName(coll, heap, name) == FirstEntry(Entries(coll, heap), name)
  {
    if coll != [] {
      SameFirstEntry(coll[1..], heap, name);
      assert Entries(coll, heap)[1..] == Entries(coll[1..], heap);
    }
  }

  /** Without aliasing, collecting a leaf is entering it by value. */
  lemma CollectEnters(leaf: LeafDef, m: int, coll: seq<int>, heap: seq<LeafDef>, cell: LeafDef)
    requires InHeap(coll, heap) && 0 <= m < |heap| && heap[m] == Reported(leaf, cell)
    requires NoRepeat(coll) && m !in coll
    ensures var r := Collect(leaf, m, coll, heap);
            && NoRepeat(r.0)
            && Entries(r.0, r.1) == Enter(Entries(coll, heap), leaf, cell)
            && (forall h :: 0 <= h < |heap| && h != m && h !in coll ==> r.1[h] == heap[h])
            && (forall c <- r.0 :: c == m || c in coll)
  {
    SameFirstEntry(coll, heap, leaf.Name());
    var j := FirstWithName(coll, heap, leaf.Name());
    if Accumulates(leaf.GetValue()) && j < |coll| { assert coll[j] in coll; }
  }

  lemma ExtendEntries(coll: seq<int>, heap: seq<LeafDef>, heap': seq<LeafDef>)
    requires InHeap(coll, heap) && |heap| <= |heap'| && heap == heap'[..|heap|]
    ensures Entries(coll, heap') == Entries(coll, heap)
  {
    assert forall h :: 0 <= h < |heap| ==> heap'[h] == heap[h];
  }

  lemma RemoveNoRepeat(s: seq<int>, i: nat)
    requires NoRepeat(s) && i < |s|
    ensures NoRepeat(Remove(s, i)) && s[i] !in Remove(s, i) && forall x <- Remove(s, i) :: x in s
  {}

  lemma LeafTracks(leaf: LeafDef, s: State)
    requires Proper(s) && NoAlias(s) && (leaf.Option? ==> leaf.Name() != "") && MatchLeaf(leaf, s).ok
    ensures Tracks(s, MatchLeaf(leaf, s).st, Match(Leaf(leaf), View(s.left, s.heap)).log, {leaf})
  {
    var i := SingleMatch(leaf, s.left, s.heap);
    SamePick(leaf, s);
    var (m, heap) := Report(leaf, s, i);
    var cell := s.heap[s.left[i]];
    assert s.left[i] in s.left;
    CollectEnters(leaf, m, s.coll, heap, cell);
    ExtendEntries(s.coll, s.heap, heap);
    RemoveNoRepeat(s.left, i);
    var t := Take(leaf, View(s.left, s.heap)[i]);
    EnterOne(Entries(s.coll, s.heap), t, s.heap);
    LeafLeftKept(s, MatchLeaf(leaf, s).st, m, heap);
  }

  lemma EnterOne(es: seq<LeafDef>, t: Take, heap: seq<LeafDef>)
    requires t.tok.id < |heap|
    ensures EnterAll(es, [t], heap) == Enter(es, t.leaf, heap[t.tok.id])
  {
    assert [t][..0] == [];
  }

  lemma LeafLeftKept(s: State, s': State, m: int, heap: seq<LeafDef>)
    requires Proper(s) && Sane(s') && |s.heap| <= |heap| == |s'.heap| && s.heap == heap[..|s.heap|]
    requires forall h :: 0 <= h < |heap| && h != m && h !in s.coll ==> s'.heap[h] == heap[h]
    requires forall x <- s'.left :: x in s.left && x != m
    requires forall x <- s.coll :: x !in s.left
    ensures LeftKept(s, s')
  {
    forall k | 0 <= k < |s'.left| ensures s'.left[k] < |s.heap| && s'.heap[s'.left[k]] == s.heap[s'.left[k]] {
      var x := s'.left[k];
      assert x in s'.left;
      var i :| 0 <= i < |s.left| && s.left[i] == x;
      assert heap[x] == s.heap[x];
    }
  }

  // ---------- All linear patterns ----------

  lemma {:induction false} InProj(toks: seq<Tok>, t: Tok)
    ensures t in toks <==> t in Proj(toks, ChannelOf(t))
  {
    if toks != [] { InProj(toks[1..], t); }
  }

  lemma {:induction false} InTaken(log: seq<Take>, k: nat)
    requires k < |log|
    ensures log[k].tok in Taken(log)
  {
    if k > 0 { InTaken(log[1..], k - 1); }
  }

  lemma LogFrom(toks: seq<Tok>, r: Outcome)
    requires Conserves(toks, r)
    ensures forall k :: 0 <= k < |r.log| ==> r.log[k].tok in toks
  {
    forall k | 0 <= k < |r.log| ensures r.log[k].tok in toks {
      var t := r.log[k].tok;
      InTaken(r.log, k);
      InProj(Taken(r.log), t);
      InProj(toks, t);
      assert Proj(toks, ChannelOf(t)) == Proj(Taken(r.log), ChannelOf(t)) + Proj(r.left, ChannelOf(t));
    }
  }

  lemma TracksThen(s: State, s1: State, s2: State, a: seq<Take>, b: seq<Take>, la: set<LeafDef>, lb: set<LeafDef>)
    requires Sane(s) && Sane(s1) && Sane(s2) && Tracks(s, s1, a, la) && Tracks(s1, s2, b, lb)
    requires forall x <- s2.left :: x in s1.left
    requires forall k :: 0 <= k < |b| ==> b[k].tok in View(s1.left, s1.heap)
    ensures Tracks(s, s2, a + b, la + lb)
  {
    forall k | 0 <= k < |b| ensures b[k].tok.id < |s.heap| && s.heap[b[k].tok.id] == s1.heap[b[k].tok.id] {
      var i :| 0 <= i < |s1.left| && View(s1.left, s1.heap)[i] == b[k].tok;
      assert b[k].tok.id == s1.left[i];
    }
    EnterAllConcat(Entries(s.coll, s.heap), a, b, s.heap);
    EnterAllSame(Entries(s1.coll, s1.heap), b, s1.heap, s.heap);
    forall k | 0 <= k < |s2.left| ensures s2.left[k] < |s.heap| && s2.heap[s2.left[k]] == s.heap[s2.left[k]] {
      assert s2.left[k] in s2.left;
      var i :| 0 <= i < |s1.left| && s1.left[i] == s2.left[k];
    }
  }

  /** What the induction carries for a pattern or a list of them. */
  ghost predicate Linearly(s: State, r: Result, o: Outcome, leaves: set<LeafDef>, atomic: bool, infallible: bool)
    requires Sane(s) && Sane(r.st)
  {
    && (r.ok ==> Tracks(s, r.st, o.log, leaves))
    && (!r.ok && atomic ==> r.st == s)
    && (infallible ==> r.ok)
  }

  lemma StepFacts(p: Pattern<LeafDef>, s: State)
    requires WellFormed(p) && NamedOptions(p) && Proper(s)
    ensures var m, o := MatchS(p, s), Match(p, View(s.left, s.heap));
            && Proper(m.st) && (forall x <- m.st.left :: x in s.left)
            && m.ok == o.ok && (m.ok ==> View(m.st.left, m.st.heap) == o.left)
  {
    MatchRefines(p, s);
    EvolvesProper(s, MatchS(p, s).st);
  }

  lemma {:induction false} LinearTracks(p: Pattern<LeafDef>, s: State)
    requires WellFormed(p) && NamedOptions(p) && Linear(p) && Proper(s) && NoAlias(s)
    ensures Linearly(s, MatchS(p, s), Match(p, View(s.left, s.heap)), Leaves(p), Atomic(p), Infallible(p))
    decreases p, |s.left|, 0
  {
    match p
    case Leaf(leaf) =>
      LeafRefines(leaf, s);
      if MatchLeaf(leaf, s).ok { LeafTracks(leaf, s); }
    case Required(ps) => LinearAllTracks(ps, s);
    case Optional(ps) => LinearEachTracks(ps, s);
    case OptionsShortcut(ps) => LinearEachTracks(ps, s);
    case OneOrMore(ps) =>
      StepFacts(ps[0], s);
      LinearLoopTracks(ps[0], s, true, []);
      assert InfallibleAll(ps) ==> Infallible(ps[0]);
      assert ps[1..] == [] && LeavesAll(ps) == Leaves(ps[0]) + LeavesAll(ps[1..]);
  }

  lemma {:induction false} LinearAllTracks(ps: seq<Pattern<LeafDef>>, s: State)
    requires WellFormedAll(ps) && NamedOptionsAll(ps) && LinearAll(ps, false) && Proper(s) && NoAlias(s)
    ensures Linearly(s, MatchAllS(ps, s), MatchAll(ps, View(s.left, s.heap)), LeavesAll(ps), AtomicAll(ps),
                     InfallibleAll(ps))
    decreases ps, |s.left|, 0
  {
    if ps == [] {
      TracksNothing(s, {});
    } else {
      var m := MatchS(ps[0], s);
      StepFacts(ps[0], s);
      LinearTracks(ps[0], s);
      if m.ok {
        LinearAllTracks(ps[1..], m.st);
        var r, o := MatchAllS(ps[1..], m.st), MatchAll(ps[1..], View(m.st.left, m.st.heap));
        MatchAllRefines(ps[1..], m.st);
        MatchAllConserves(ps[1..], View(m.st.left, m.st.heap));
        LogFrom(View(m.st.left, m.st.heap), o);
        if r.ok {
          TracksThen(s, m.st, r.st, Match(ps[0], View(s.left, s.heap)).log, o.log, Leaves(ps[0]), LeavesAll(ps[1..]));
        }
      }
    }
  }

  lemma {:induction false} LinearEachTracks(ps: seq<Pattern<LeafDef>>, s: State)
    requires WellFormedAll(ps) && NamedOptionsAll(ps) && LinearAll(ps, true) && Proper(s) && NoAlias(s)
    ensures Tracks(s, MatchEachS(ps, s), MatchEach(ps, View(s.left, s.heap)).log, LeavesAll(ps))
    decreases ps, |s.left|, 0
  {
    if ps == [] {
      TracksNothing(s, {});
    } else {
      var m, o := MatchS(ps[0], s), Match(ps[0], View(s.left, s.heap));
      StepFacts(ps[0], s);
      LinearTracks(ps[0], s);
      if !m.ok { TracksNothing(s, Leaves(ps[0])); }
      LinearEachTracks(ps[1..], m.st);
      var n := MatchEach(ps[1..], View(m.st.left, m.st.heap));
      MatchEachRefines(ps[1..], m.st);
      MatchEachConserves(ps[1..], View(m.st.left, m.st.heap));
      LogFrom(View(m.st.left, m.st.heap), n);
      TracksThen(s, m.st, MatchEachS(ps[1..], m.st), o.log, n.log, Leaves(ps[0]), LeavesAll(ps[1..]));
    }
  }

  lemma MatchMoreAgain(p: Pattern<LeafDef>, toks: seq<Tok>)
    requires WellFormed(p) && Match(p, toks).ok
    ensures MatchMore(p, toks).log == Match(p, toks).log + MatchMore(p, Match(p, toks).left).log
  {}

  lemma LoopFacts(p: Pattern<LeafDef>, s: State)
    requires WellFormed(p) && NamedOptions(p) && Proper(s)
    ensures forall x <- MatchLoopS(p, s, false, s.left).st.left :: x in s.left
    ensures var log := MatchMore(p, View(s.left, s.heap)).log;
            forall k :: 0 <= k < |log| ==> log[k].tok in View(s.left, s.heap)
  {
    MatchLoopRefines(p, s, false, s.left);
    MatchMoreConserves(p, View(s.left, s.heap));
    LogFrom(View(s.left, s.heap), MatchMore(p, View(s.left, s.heap)));
  }

  lemma {:induction false} LinearLoopTracks(p: Pattern<LeafDef>, s: State, first: bool, prev: seq<int>)
    requires WellFormed(p) && NamedOptions(p) && Linear(p) && Atomic(p) && Proper(s) && NoAlias(s)
    requires first || prev == s.left
    ensures var r := MatchLoopS(p, s, first, prev);
            && (r.ok ==> Tracks(s, r.st, MatchMore(p, View(s.left, s.heap)).log, Leaves(p)))
            && (!r.ok ==> r.st == s)
            && (Infallible(p) ==> r.ok)
    decreases p, |s.left|, if first then 2 else 1
  {
    var toks := View(s.left, s.heap);
    var m, o := MatchS(p, s), Match(p, toks);
    StepFacts(p, s);
    LinearTracks(p, s);
    if !m.ok {
      TracksNothing(s, Leaves(p));
    } else if first || m.st.left != prev {
      LinearLoopTracks(p, m.st, false, m.st.left);
      LoopFacts(p, m.st);
      MatchMoreAgain(p, toks);
      var n := MatchMore(p, View(m.st.left, m.st.heap));
      TracksThen(s, m.st, MatchLoopS(p, m.st, false, m.st.left).st, o.log, n.log, Leaves(p), Leaves(p));
    }
  }
}
