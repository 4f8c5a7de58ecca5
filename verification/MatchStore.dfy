/**
 The matcher with its shared leaves. `left` and `collected` are lists of pointers: handles into
 `heap`. Copies of the lists are shallow, so a value written in a branch that is given up stays
 written. Verdict and leftovers are proved independent of all that.
 */
module MatchStore {
  import opened Sequences
  import opened Patterns
  import opened Matching

  datatype State = State(left: seq<int>, coll: seq<int>, heap: seq<LeafDef>)

  datatype Result = Result(ok: bool, st: State)

  ghost predicate InHeap(s: seq<int>, heap: seq<LeafDef>) {
    forall k :: 0 <= k < |s| ==> 0 <= s[k] < |heap|
  }

  predicate IsArg(d: LeafDef) {
    d.Argument? || d.Command?
  }

  // ---------- LeafPattern::match ----------

  function FirstArg(left: seq<int>, heap: seq<LeafDef>): (i: nat)
    requires InHeap(left, heap)
    ensures i <= |left| && (i < |left| ==> IsArg(heap[left[i]]))
    ensures forall k :: 0 <= k < i ==> !IsArg(heap[left[k]])
  {
    if left == [] || IsArg(heap[left[0]]) then 0 else 1 + FirstArg(left[1..], heap)
  }

  function FirstWithName(s: seq<int>, heap: seq<LeafDef>, name: string): (i: nat)
    requires InHeap(s, heap)
    ensures i <= |s| && (i < |s| ==> heap[s[i]].Name() == name)
    ensures forall k :: 0 <= k < i ==> heap[s[k]].Name() != name
  {
    if s == [] || heap[s[0]].Name() == name then 0 else 1 + FirstWithName(s[1..], heap, name)
  }

  /** `single_match`: the position in `left` of what the leaf takes, or its length. */
  function SingleMatch(leaf: LeafDef, left: seq<int>, heap: seq<LeafDef>): (i: nat)
    requires InHeap(left, heap)
    ensures i <= |left|
  {
    match leaf
    case Argument(_, _) => FirstArg(left, heap)
    case Command(n, _) =>
      var i := FirstArg(left, heap);
      if i < |left| && heap[left[i]].GetValue() == Str(n) then i else |left|
    case Option(_, _, _, _) => FirstWithName(left, heap, leaf.Name())
  }

  /** The leaf `single_match` reports: a new one for a positional, the one in argv for an option. */
  function Reported(leaf: LeafDef, cell: LeafDef): LeafDef {
    match leaf
    case Argument(n, _) => Argument(n, cell.GetValue())
    case Command(n, _) => Command(n, Bool(true))
    case Option(_, _, _, _) => cell
  }

  /** What a matched value adds to a list. */
  function Words(v: Value): seq<string> {
    match v
    case Str(s) => [s]
    case StrList(l) => l
    case _ => []
  }

  /** The value of the first match of an accumulating leaf, or of the next one when `before` is collected. */
  function FirstValue(leaf: LeafDef, m: LeafDef): Value {
    if leaf.GetValue().Long? then Long(1) else StrList(Words(m.GetValue()))
  }

  function NextValue(leaf: LeafDef, m: LeafDef, before: Value): Value {
    if leaf.GetValue().Long? then Long(1 + if before.Long? then before.number else 0)
    else StrList((if before.StrList? then before.texts else []) + Words(m.GetValue()))
  }

  function SetCell(heap: seq<LeafDef>, h: int, v: Value): seq<LeafDef>
    requires 0 <= h < |heap|
  {
    heap[h := heap[h].SetValue(v)]
  }

  /** The handle and the heap after `single_match` has reported position `i`. */
  function Report(leaf: LeafDef, s: State, i: nat): (r: (int, seq<LeafDef>))
    requires InHeap(s.left, s.heap) && i < |s.left|
    ensures |s.heap| <= |r.1| && s.heap == r.1[..|s.heap|] && 0 <= r.0 < |r.1|
    ensures r.1[r.0] == Reported(leaf, s.heap[s.left[i]])
  {
    if leaf.Option? then (s.left[i], s.heap)
    else (|s.heap|, s.heap + [Reported(leaf, s.heap[s.left[i]])])
  }

  /** Entering the reported leaf `m` into `coll`: a leaf that accumulates keeps one entry per name. */
  function Collect(leaf: LeafDef, m: int, coll: seq<int>, heap: seq<LeafDef>): (r: (seq<int>, seq<LeafDef>))
    requires InHeap(coll, heap) && 0 <= m < |heap|
    ensures |r.1| == |heap| && InHeap(r.0, heap)
  {
    if !Accumulates(leaf.GetValue()) then (coll + [m], heap) else
    var j := FirstWithName(coll, heap, leaf.Name());
    if j == |coll| then (coll + [m], SetCell(heap, m, FirstValue(leaf, heap[m])))
    else (coll, SetCell(heap, coll[j], NextValue(leaf, heap[m], heap[coll[j]].GetValue())))
  }

  function MatchLeaf(leaf: LeafDef, s: State): (r: Result)
    requires InHeap(s.left, s.heap) && InHeap(s.coll, s.heap)
    ensures InHeap(r.st.left, r.st.heap) && InHeap(r.st.coll, r.st.heap) && |s.heap| <= |r.st.heap|
    ensures |r.st.left| == |s.left| - (if r.ok then 1 else 0) && (!r.ok ==> r.st == s)
  {
    var i := SingleMatch(leaf, s.left, s.heap);
    if i == |s.left| then Result(false, s) else
    var (m, heap) := Report(leaf, s, i);
    var (coll', heap') := Collect(leaf, m, s.coll, heap);
    Result(true, State(Remove(s.left, i), coll', heap'))
  }

  // ---------- The branches ----------

  ghost predicate Sane(s: State) {
    InHeap(s.left, s.heap) && InHeap(s.coll, s.heap)
  }

  /** What every match promises about its lists: a failure restores them, a success never lengthens `left`. */
  ghost predicate Shrinks(s: State, r: Result) {
    && Sane(r.st) && |s.heap| <= |r.st.heap|
    && (!r.ok ==> r.st.left == s.left && r.st.coll == s.coll)
    && |r.st.left| <= |s.left| && (|r.st.left| == |s.left| ==> r.st.left == s.left)
  }

  function MatchS(p: Pattern<LeafDef>, s: State): (r: Result)
    requires WellFormed(p) && Sane(s)
    ensures Shrinks(s, r)
    decreases p, |s.left|, 0
  {
    match p
    case Leaf(leaf) => MatchLeaf(leaf, s)
    case Required(ps) =>
      var r := MatchAllS(ps, s);
      if r.ok then r else Result(false, s.(heap := r.st.heap))
    case Optional(ps) => Result(true, MatchEachS(ps, s))
    case OptionsShortcut(ps) => Result(true, MatchEachS(ps, s))
    case OneOrMore(ps) =>
      var r := MatchLoopS(ps[0], s, true, []);
      if r.ok then r else Result(false, s.(heap := r.st.heap))
    case Either(ps) =>
      var (outs, heap) := MatchOutcomesS(ps, s);
      if outs == [] then Result(false, s.(heap := heap)) else
      var best := outs[FirstMin(SizesS(outs))];
      Result(true, State(best.0, best.1, heap))
  }

  /** All of `ps` on one copy of the lists; the lists of a failure are given up by the caller. */
  function MatchAllS(ps: seq<Pattern<LeafDef>>, s: State): (r: Result)
    requires WellFormedAll(ps) && Sane(s)
    ensures Sane(r.st) && |s.heap| <= |r.st.heap|
    ensures |r.st.left| <= |s.left| && (|r.st.left| == |s.left| ==> r.st.left == s.left)
    decreases ps, |s.left|, 0
  {
    if ps == [] then Result(true, s) else
    var m := MatchS(ps[0], s);
    if !m.ok then m else MatchAllS(ps[1..], m.st)
  }

  function MatchEachS(ps: seq<Pattern<LeafDef>>, s: State): (r: State)
    requires WellFormedAll(ps) && Sane(s)
    ensures Shrinks(s, Result(true, r))
    decreases ps, |s.left|, 0
  {
    if ps == [] then s else MatchEachS(ps[1..], MatchS(ps[0], s).st)
  }

  /** The loop of `OneOrMore::match`: `prev` is the list after the round before, unless this is the first. */
  function MatchLoopS(p: Pattern<LeafDef>, s: State, first: bool, prev: seq<int>): (r: Result)
    requires WellFormed(p) && Sane(s) && (first || prev == s.left)
    ensures Sane(r.st) && |s.heap| <= |r.st.heap|
    ensures |r.st.left| <= |s.left| && (|r.st.left| == |s.left| ==> r.st.left == s.left)
    ensures !first ==> r.ok
    decreases p, |s.left|, if first then 2 else 1
  {
    var m := MatchS(p, s);
    if (!first && m.st.left == prev) || !m.ok then Result(!first || m.ok, m.st)
    else MatchLoopS(p, m.st, false, m.st.left)
  }

  function SizesS(outs: seq<(seq<int>, seq<int>)>): (r: seq<nat>)
    ensures |r| == |outs|
    ensures forall k :: 0 <= k < |outs| ==> r[k] == |outs[k].0|
  {
    seq(|outs|, k requires 0 <= k < |outs| => |outs[k].0|)
  }

  /** Every child on its own copy of the lists, all on one heap. */
  function MatchOutcomesS(ps: seq<Pattern<LeafDef>>, s: State): (r: (seq<(seq<int>, seq<int>)>, seq<LeafDef>))
    requires WellFormedAll(ps) && Sane(s)
    ensures |s.heap| <= |r.1|
    ensures forall k :: 0 <= k < |r.0| ==> Shrinks(s, Result(true, State(r.0[k].0, r.0[k].1, r.1)))
    decreases ps, |s.left|, 0
  {
    if ps == [] then ([], s.heap) else
    var m := MatchS(ps[0], s);
    var (outs, heap) := MatchOutcomesS(ps[1..], s.(heap := m.st.heap));
    ((if m.ok then [(m.st.left, m.st.coll)] else []) + outs, heap)
  }
}
