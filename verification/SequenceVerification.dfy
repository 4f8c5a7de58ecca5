/**
 FakeIt's sequence verification: how often a pattern of blocks, with gaps allowed between blocks,
 occurs in a trace of invocations. The search is greedy; its count is proved to be the maximum.
 */
module SequenceVerification {
  import opened Sequences

  // ---------- Expected sequences ----------

  /** A matcher, two sequences one after the other, or one repeated: `operator*` refuses fewer than one time. */
  datatype Sequence<M> =
    | Single(matcher: M)
    | Concatenated(s1: Sequence<M>, s2: Sequence<M>)
    | Repeated(s: Sequence<M>, times: nat)

  ghost predicate Accepted<M>(s: Sequence<M>) {
    match s
    case Single(_) => true
    case Concatenated(a, b) => Accepted(a) && Accepted(b)
    case Repeated(a, n) => n >= 1 && Accepted(a)
  }

  function Size<M>(s: Sequence<M>): nat {
    match s
    case Single(_) => 1
    case Concatenated(a, b) => Size(a) + Size(b)
    case Repeated(a, n) => Size(a) * n
  }

  function Copies<T>(s: seq<T>, n: nat): seq<T> {
    if n == 0 then [] else s + Copies(s, n - 1)
  }

  function Expected<M>(s: Sequence<M>): seq<M> {
    match s
    case Single(m) => [m]
    case Concatenated(a, b) => Expected(a) + Expected(b)
    case Repeated(a, n) => Copies(Expected(a), n)
  }

  lemma {:induction false} CopiesLength<T>(s: seq<T>, n: nat)
    ensures |Copies(s, n)| == |s| * n
  {
    if n > 0 {
      CopiesLength(s, n - 1);
      assert |s| * n == |s| + |s| * (n - 1);
    }
  }

  lemma ProductPositive(x: nat, y: nat)
    requires x >= 1 && y >= 1
    ensures x * y >= 1
  {}

  /** The size a sequence reports is the length of what it expects, and it is never empty. */
  lemma {:induction false} SizeIsLength<M>(s: Sequence<M>)
    ensures Size(s) == |Expected(s)|
    ensures Accepted(s) ==> Size(s) >= 1
  {
    match s
    case Single(_) =>
    case Concatenated(a, b) =>
      SizeIsLength(a);
      SizeIsLength(b);
    case Repeated(a, n) =>
      SizeIsLength(a);
      CopiesLength(Expected(a), n);
      if n >= 1 && Size(a) >= 1 { ProductPositive(Size(a), n); }
  }

  /** `getExpectedSequence`: what a sequence expects is added at the end of a list. */
  method GetExpectedSequence<M>(s: Sequence<M>, into: seq<M>) returns (into': seq<M>)
    ensures into' == into + Expected(s)
    decreases s
  {
    match s {
      case Single(m) => into' := into + [m];
      case Concatenated(a, b) =>
        into' := GetExpectedSequence(a, into);
        into' := GetExpectedSequence(b, into');
      case Repeated(a, n) =>
        into' := into;
        for i := 0 to n
          invariant into' == into + Copies(Expected(a), i)
        {
          into' := GetExpectedSequence(a, into');
          CopiesSnoc(Expected(a), i);
        }
    }
  }

  /** Calls put together one after the other, as `a + b + c` does. */
  function Chain<M>(ms: seq<M>): Sequence<M>
    requires ms != []
  {
    var n := |ms| - 1;
    if n == 0 then Single(ms[0]) else Concatenated(Chain(ms[..n]), Single(ms[n]))
  }

  /** Calls are expected in the order in which they are put together, in every round of a repetition. */
  lemma {:induction false} ChainIsExpected<M>(ms: seq<M>, times: nat, round: nat, k: nat)
    requires k < |ms|
    ensures Expected(Chain(ms)) == ms
    ensures var all := Expected(Repeated(Chain(ms), times));
            |all| == |ms| * times && (round < times ==> 0 <= round * |ms| + k < |all| && all[round * |ms| + k] == ms[k])
    decreases |ms|
  {
    var n := |ms| - 1;
    if n > 0 { ChainIsExpected(ms[..n], 0, 0, 0); }
    assert Expected(Chain(ms)) == ms;
    CopiesLength(ms, times);
    if round < times { CopiesAt(ms, times, round, k); }
  }

  lemma {:induction false} CopiesAt<T>(s: seq<T>, n: nat, round: nat, k: nat)
    requires round < n && k < |s|
    ensures 0 <= round * |s| + k < |Copies(s, n)| && Copies(s, n)[round * |s| + k] == s[k]
    decreases n
  {
    if round > 0 {
      CopiesAt(s, n - 1, round - 1, k);
      assert round * |s| == |s| + (round - 1) * |s|;
    }
  }

  // ---------- Occurrences ----------

  predicate MatchesAt<M(==), I(==)>(matches: set<(M, I)>, block: seq<M>, trace: seq<I>, start: int) {
    0 <= start <= start + |block| <= |trace| && forall j :: 0 <= j < |block| ==> (block[j], trace[start + j]) in matches
  }

  /** `at` places the blocks in order from `from` on, without overlap, each on a match. */
  ghost predicate Embeds<M, I>(matches: set<(M, I)>, blocks: seq<seq<M>>, trace: seq<I>, from: int, at: seq<int>) {
    if blocks == [] then at == []
    else at != [] && from <= at[0] && MatchesAt(matches, blocks[0], trace, at[0])
         && Embeds(matches, blocks[1..], trace, at[0] + |blocks[0]|, at[1..])
  }

  /** Where the placed blocks end. */
  function End<M>(blocks: seq<seq<M>>, from: int, at: seq<int>): int
    requires |at| <= |blocks|
  {
    if at == [] then from else End(blocks[1..], at[0] + |blocks[0]|, at[1..])
  }

  ghost predicate Fits<M, I>(matches: set<(M, I)>, blocks: seq<seq<M>>, trace: seq<I>) {
    exists at :: Embeds(matches, blocks, trace, 0, at)
  }

  /** `n` complete occurrences of the pattern, one after the other. */
  ghost predicate Occurs<M, I>(matches: set<(M, I)>, pattern: seq<seq<M>>, trace: seq<I>, n: nat) {
    Fits(matches, Copies(pattern, n), trace)
  }

  // ---------- The greedy placement ----------

  /** The first place from `from` on where the block matches, or -1. */
  function First<M(==), I(==)>(matches: set<(M, I)>, block: seq<M>, trace: seq<I>, from: nat): (i: int)
    ensures i == -1 || from <= i <= i + |block| <= |trace|
    decreases |trace| - from
  {
    if from + |block| > |trace| then -1
    else if MatchesAt(matches, block, trace, from) then from
    else First(matches, block, trace, from + 1)
  }

  lemma {:induction false} FirstMatches<M, I>(matches: set<(M, I)>, block: seq<M>, trace: seq<I>, from: nat)
    ensures var i := First(matches, block, trace, from); i == -1 || MatchesAt(matches, block, trace, i)
    decreases |trace| - from
  {
    if from + |block| <= |trace| && !MatchesAt(matches, block, trace, from) {
      FirstMatches(matches, block, trace, from + 1);
    }
  }

  lemma {:induction false} FirstIsFirst<M, I>(matches: set<(M, I)>, block: seq<M>, trace: seq<I>, from: nat, k: int)
    requires from <= k && MatchesAt(matches, block, trace, k)
    ensures from <= First(matches, block, trace, from) <= k
    decreases k - from
  {
    if from < k { FirstIsFirst(matches, block, trace, from + 1, k); }
  }

  /** How many blocks were placed, and where the last of them ends. */
  datatype Round = Round(placed: nat, end: nat)

  /** Each block at its first place after the one before it, up to the first block that has none. */
  function Greedy<M(==), I(==)>(matches: set<(M, I)>, blocks: seq<seq<M>>, trace: seq<I>, from: nat): (r: Round)
    ensures r.placed <= |blocks| && r.end >= from
  {
    if blocks == [] then Round(0, from) else
    var i := First(matches, blocks[0], trace, from);
    if i == -1 then Round(0, from) else
    var r := Greedy(matches, blocks[1..], trace, i + |blocks[0]|);
    Round(1 + r.placed, r.end)
  }

  /** The invocations under the blocks that were placed. */
  function Covered<M(==), I(==)>(matches: set<(M, I)>, blocks: seq<seq<M>>, trace: seq<I>, from: nat): seq<I> {
    if blocks == [] then [] else
    var i := First(matches, blocks[0], trace, from);
    if i == -1 then [] else
    var e := i + |blocks[0]|;
    trace[i..e] + Covered(matches, blocks[1..], trace, e)
  }

  /** What was placed is an embedding. */
  lemma {:induction false} GreedyEmbeds<M, I>(
    matches: set<(M, I)>, blocks: seq<seq<M>>, trace: seq<I>, from: nat) returns (at: seq<int>)
    ensures var r := Greedy(matches, blocks, trace, from); Embeds(matches, blocks[..r.placed], trace, from, at)
  {
    at := [];
    var r := Greedy(matches, blocks, trace, from);
    if r.placed > 0 {
      var i := First(matches, blocks[0], trace, from);
      FirstMatches(matches, blocks[0], trace, from);
      var rest := GreedyEmbeds(matches, blocks[1..], trace, i + |blocks[0]|);
      at := [i] + rest;
      assert blocks[..r.placed][1..] == blocks[1..][..r.placed - 1] && at[1..] == rest;
    }
  }

  /** Greedy stays ahead: wherever the blocks fit at all, they fit greedily and end no later. */
  lemma {:induction false} GreedyStaysAhead<M, I>(
    matches: set<(M, I)>, blocks: seq<seq<M>>, trace: seq<I>, from: nat, from': int, at': seq<int>)
    requires from <= from' && Embeds(matches, blocks, trace, from', at')
    ensures |at'| == |blocks|
    ensures var r := Greedy(matches, blocks, trace, from);
            r.placed == |blocks| && r.end <= End(blocks, from', at')
  {
    if blocks != [] {
      FirstIsFirst(matches, blocks[0], trace, from, at'[0]);
      var i := First(matches, blocks[0], trace, from);
      GreedyStaysAhead(matches, blocks[1..], trace, i + |blocks[0]|, at'[0] + |blocks[0]|, at'[1..]);
    }
  }

  /** The blocks can be placed if and only if the greedy placement reaches the last of them. */
  lemma GreedyDecides<M, I>(matches: set<(M, I)>, blocks: seq<seq<M>>, trace: seq<I>)
    ensures Fits(matches, blocks, trace) <==> Greedy(matches, blocks, trace, 0).placed == |blocks|
  {
    if Greedy(matches, blocks, trace, 0).placed == |blocks| {
      var at := GreedyEmbeds(matches, blocks, trace, 0);
      assert blocks[..|blocks|] == blocks;
    } else if Fits(matches, blocks, trace) {
      var at :| Embeds(matches, blocks, trace, 0, at);
      GreedyStaysAhead(matches, blocks, trace, 0, 0, at);
      assert false;
    }
  }

  lemma {:induction false} GreedyConcat<M, I>(
    matches: set<(M, I)>, a: seq<seq<M>>, b: seq<seq<M>>, trace: seq<I>, from: nat)
    requires Greedy(matches, a, trace, from).placed == |a|
    ensures var r := Greedy(matches, b, trace, Greedy(matches, a, trace, from).end);
            Greedy(matches, a + b, trace, from) == Round(|a| + r.placed, r.end)
  {
    if a == [] {
      assert a + b == b;
    } else {
      ConcatTail(a, b);
      GreedyConcat(matches, a[1..], b, trace, First(matches, a[0], trace, from) + |a[0]|);
    }
  }

  lemma {:induction false} CoveredConcat<M, I>(
    matches: set<(M, I)>, a: seq<seq<M>>, b: seq<seq<M>>, trace: seq<I>, from: nat)
    requires Greedy(matches, a, trace, from).placed == |a|
    ensures Covered(matches, a + b, trace, from) ==
            Covered(matches, a, trace, from) + Covered(matches, b, trace, Greedy(matches, a, trace, from).end)
  {
    if a == [] {
      assert a + b == b;
    } else {
      ConcatTail(a, b);
      var i := First(matches, a[0], trace, from);
      var e := i + |a[0]|;
      CoveredConcat(matches, a[1..], b, trace, e);
      ConcatAssoc(trace[i..e], Covered(matches, a[1..], trace, e),
                  Covered(matches, b, trace, Greedy(matches, a[1..], trace, e).end));
    }
  }

  lemma {:induction false} CopiesSnoc<T>(s: seq<T>, n: nat)
    ensures Copies(s, n + 1) == Copies(s, n) + s
  {
    if n == 0 {
      assert Copies(s, 0) == [] && s + [] == s == [] + s;
    } else {
      CopiesSnoc(s, n - 1);
      ConcatAssoc(s, Copies(s, n - 1), s);
    }
  }

  lemma {:induction false} EmbedsPrefix<M, I>(
    matches: set<(M, I)>, a: seq<seq<M>>, b: seq<seq<M>>, trace: seq<I>, from: int, at: seq<int>)
    requires Embeds(matches, a + b, trace, from, at)
    ensures |a| <= |at| && Embeds(matches, a, trace, from, at[..|a|])
  {
    if a != [] {
      assert (a + b)[0] == a[0] && (a + b)[1..] == a[1..] + b;
      EmbedsPrefix(matches, a[1..], b, trace, at[0] + |a[0]|, at[1..]);
      assert at[..|a|][1..] == at[1..][..|a[1..]|];
    }
  }

  /** Fewer occurrences fit wherever more do. */
  lemma {:induction false} OccursFewer<M, I>(matches: set<(M, I)>, pattern: seq<seq<M>>, trace: seq<I>, n: nat, m: nat)
    requires Occurs(matches, pattern, trace, n) && m <= n
    ensures Occurs(matches, pattern, trace, m)
    decreases n
  {
    if m < n {
      var at :| Embeds(matches, Copies(pattern, n), trace, 0, at);
      CopiesSnoc(pattern, n - 1);
      EmbedsPrefix(matches, Copies(pattern, n - 1), pattern, trace, 0, at);
      OccursFewer(matches, pattern, trace, n - 1, m);
    }
  }

  // ---------- MatchAnalysis ----------

  function Blocks<M>(pattern: seq<Sequence<M>>): (r: seq<seq<M>>)
    ensures |r| == |pattern| && forall k :: 0 <= k < |r| ==> r[k] == Expected(pattern[k])
  {
    seq(|pattern|, k requires 0 <= k < |pattern| => Expected(pattern[k]))
  }

  method IsMatch<M(==), I(==)>(matches: set<(M, I)>, actual: seq<I>, expected: seq<M>, start: nat) returns (found: bool)
    requires start + |expected| <= |actual|
    ensures found <==> MatchesAt(matches, expected, actual, start)
  {
    found := true;
    var j := 0;
    while found && j < |expected|
      invariant j <= |expected|
      invariant found ==> forall k :: 0 <= k < j ==> (expected[k], actual[start + k]) in matches
      invariant !found ==> exists k :: 0 <= k < j && (expected[k], actual[start + k]) !in matches
    {
      found := (expected[j], actual[start + j]) in matches;
      j := j + 1;
    }
  }

  /** The first place of one sequence, or -1, and its size. */
  method FindNextBlock<M(==), I(==)>(matches: set<(M, I)>, sequence: Sequence<M>, actual: seq<I>, startSearchIndex: nat)
    returns (index: int, size: nat)
    ensures index == First(matches, Expected(sequence), actual, startSearchIndex) && size == |Expected(sequence)|
    ensures index == -1 || startSearchIndex <= index <= |actual| - size
  {
    var expected := Expected(sequence);
    SizeIsLength(sequence);
    size := Size(sequence);
    var i := startSearchIndex;
    while i < |actual| - |expected| + 1
      invariant startSearchIndex <= i
      invariant First(matches, expected, actual, startSearchIndex) == First(matches, expected, actual, i)
      decreases |actual| - i
    {
      var found := IsMatch(matches, actual, expected, i);
      if found { return i, size; }
      i := i + 1;
    }
    return -1, size;
  }

  /** A placement at block `k` that has reached `from` and covered `before` will end as `r`, having covered `all`. */
  ghost predicate Leads<M, I>(
    matches: set<(M, I)>, blocks: seq<seq<M>>, k: nat, trace: seq<I>, from: nat, before: seq<I>, r: Round, all: seq<I>)
    requires k <= |blocks|
  {
    var t := Greedy(matches, blocks[k..], trace, from);
    r == Round(k + t.placed, t.end) && all == before + Covered(matches, blocks[k..], trace, from)
  }

  lemma LeadsStart<M, I>(matches: set<(M, I)>, blocks: seq<seq<M>>, trace: seq<I>, from: nat, before: seq<I>)
    ensures Leads(matches, blocks, 0, trace, from, before,
                  Greedy(matches, blocks, trace, from), before + Covered(matches, blocks, trace, from))
  {
    assert blocks[0..] == blocks;
  }

  lemma LeadsStep<M, I>(
    matches: set<(M, I)>, blocks: seq<seq<M>>, k: nat, trace: seq<I>, from: nat, before: seq<I>, r: Round, all: seq<I>,
    i: int, size: nat)
    requires k < |blocks| && Leads(matches, blocks, k, trace, from, before, r, all)
    requires i == First(matches, blocks[k], trace, from) && size == |blocks[k]|
    ensures i == -1 ==> r.placed == k && all == before
    ensures i != -1 ==> Leads(matches, blocks, k + 1, trace, i + size, before + trace[i..i + size], r, all)
  {
    assert blocks[k..][0] == blocks[k] && blocks[k..][1..] == blocks[k + 1..];
    if i != -1 { ConcatAssoc(before, trace[i..i + size], Covered(matches, blocks[k + 1..], trace, i + size)); }
  }

  lemma LeadsEnd<M, I>(
    matches: set<(M, I)>, blocks: seq<seq<M>>, trace: seq<I>, from: nat, before: seq<I>, r: Round, all: seq<I>)
    requires Leads(matches, blocks, |blocks|, trace, from, before, r, all)
    ensures r == Round(|blocks|, from) && all == before
  {
    assert blocks[|blocks|..] == [];
  }

  /** One round over the pattern; on failure the blocks placed so far stay in `matched`. */
  method FindNextMatch<M(==), I(==)>(
    matches: set<(M, I)>, pattern: seq<Sequence<M>>, actual: seq<I>, start: nat, end: nat, matchedBefore: seq<I>)
    returns (found: bool, end': nat, matched: seq<I>)
    ensures var r := Greedy(matches, Blocks(pattern), actual, start);
            found == (r.placed == |pattern|) && end' == (if found then r.end else end)
    ensures matched == matchedBefore + Covered(matches, Blocks(pattern), actual, start)
  {
    ghost var blocks := Blocks(pattern);
    ghost var r := Greedy(matches, blocks, actual, start);
    ghost var all := matchedBefore + Covered(matches, blocks, actual, start);
    LeadsStart(matches, blocks, actual, start, matchedBefore);
    var startSearchIndex: nat := start;
    matched := matchedBefore;
    for k := 0 to |pattern|
      invariant Leads(matches, blocks, k, actual, startSearchIndex, matched, r, all)
    {
      var index, size := FindNextBlock(matches, pattern[k], actual, startSearchIndex);
      LeadsStep(matches, blocks, k, actual, startSearchIndex, matched, r, all, index, size);
      if index == -1 { return false, end, matched; }
      matched, startSearchIndex := matched + actual[index..index + size], index + size;
    }
    LeadsEnd(matches, blocks, actual, startSearchIndex, matched, r, all);
    return true, startSearchIndex, matched;
  }

  /** `n` is the largest number of complete, non-overlapping occurrences, in order, that the trace has room for. */
  ghost predicate IsMaximum<M, I>(matches: set<(M, I)>, pattern: seq<seq<M>>, trace: seq<I>, n: nat) {
    Occurs(matches, pattern, trace, n) && forall m: nat :: Occurs(matches, pattern, trace, m) ==> m <= n
  }

  lemma GreedyMaximum<M, I>(matches: set<(M, I)>, pattern: seq<seq<M>>, trace: seq<I>, n: nat)
    requires Greedy(matches, Copies(pattern, n), trace, 0).placed == |Copies(pattern, n)|
    requires Greedy(matches, Copies(pattern, n + 1), trace, 0).placed < |Copies(pattern, n + 1)|
    ensures IsMaximum(matches, pattern, trace, n)
  {
    GreedyDecides(matches, Copies(pattern, n), trace);
    GreedyDecides(matches, Copies(pattern, n + 1), trace);
    forall m: nat | Occurs(matches, pattern, trace, m) ensures m <= n {
      if m > n {
        OccursFewer(matches, pattern, trace, m, n + 1);
        assert false;
      }
    }
  }

  /** A complete round over non-empty blocks moves forward. */
  lemma {:induction false} GreedyAdvances<M, I>(matches: set<(M, I)>, blocks: seq<seq<M>>, trace: seq<I>, from: nat)
    requires blocks != [] && blocks[0] != [] && Greedy(matches, blocks, trace, from).placed == |blocks|
    ensures from < Greedy(matches, blocks, trace, from).end
  {}

  lemma {:induction false} GreedyInTrace<M, I>(matches: set<(M, I)>, blocks: seq<seq<M>>, trace: seq<I>, from: nat)
    requires from <= |trace|
    ensures Greedy(matches, blocks, trace, from).end <= |trace|
  {
    if blocks != [] {
      var i := First(matches, blocks[0], trace, from);
      if i != -1 { GreedyInTrace(matches, blocks[1..], trace, i + |blocks[0]|); }
    }
  }

  /** The state of the search after `n` complete occurrences: where it stands and what it has collected. */
  ghost predicate Searched<M, I>(
    matches: set<(M, I)>, blocks: seq<seq<M>>, trace: seq<I>, n: nat, end: nat, covered: seq<I>) {
    && Greedy(matches, Copies(blocks, n), trace, 0) == Round(|Copies(blocks, n)|, end)
    && Covered(matches, Copies(blocks, n), trace, 0) == covered
  }

  /** One more round after `n` complete occurrences. */
  lemma SearchNext<M, I>(matches: set<(M, I)>, blocks: seq<seq<M>>, trace: seq<I>, n: nat, end: nat, covered: seq<I>)
    requires blocks != [] && blocks[0] != [] && end <= |trace| && Searched(matches, blocks, trace, n, end, covered)
    ensures var t := Greedy(matches, blocks, trace, end);
            var c := covered + Covered(matches, blocks, trace, end);
            && Covered(matches, Copies(blocks, n + 1), trace, 0) == c
            && (t.placed == |blocks| ==> Searched(matches, blocks, trace, n + 1, t.end, c) && end < t.end <= |trace|)
            && (t.placed != |blocks| ==> IsMaximum(matches, blocks, trace, n))
  {
    var t := Greedy(matches, blocks, trace, end);
    CopiesSnoc(blocks, n);
    GreedyConcat(matches, Copies(blocks, n), blocks, trace, 0);
    CoveredConcat(matches, Copies(blocks, n), blocks, trace, 0);
    GreedyInTrace(matches, blocks, trace, end);
    if t.placed == |blocks| {
      GreedyAdvances(matches, blocks, trace, end);
    } else {
      GreedyMaximum(matches, blocks, trace, n);
    }
  }

  /**
   Why the loop ends: a complete round moves on if and only if the pattern is not empty. On an empty one it never
   fails.
   */
  lemma RoundAdvancesIff<M, I>(matches: set<(M, I)>, pattern: seq<Sequence<M>>, trace: seq<I>, from: nat)
    requires forall s <- pattern :: Accepted(s)
    ensures var r := Greedy(matches, Blocks(pattern), trace, from);
            r.placed == |pattern| ==> (r.end > from <==> pattern != [])
    ensures pattern == [] ==> Greedy(matches, Blocks(pattern), trace, from) == Round(|pattern|, from)
  {
    if pattern != [] {
      assert pattern[0] in pattern;
      SizeIsLength(pattern[0]);
      if Greedy(matches, Blocks(pattern), trace, from).placed == |pattern| {
        GreedyAdvances(matches, Blocks(pattern), trace, from);
      }
    }
  }

  /**
   The count is the maximum. `matched` holds the invocations of the counted occurrences followed by
   those of the blocks of one more occurrence that could still be placed.
   */
  method CountMatches<M(==), I(==)>(matches: set<(M, I)>, pattern: seq<Sequence<M>>, actual: seq<I>)
    returns (count: nat, matched: seq<I>)
    requires pattern != [] && Accepted(pattern[0])
    ensures IsMaximum(matches, Blocks(pattern), actual, count)
    ensures matched == Covered(matches, Copies(Blocks(pattern), count + 1), actual, 0)
  {
    ghost var blocks := Blocks(pattern);
    SizeIsLength(pattern[0]);
    var end, startSearchIndex := 0, 0;
    count, matched := 0, [];
    while true
      invariant startSearchIndex <= |actual|
      invariant Searched(matches, blocks, actual, count, startSearchIndex, matched)
      decreases |actual| - startSearchIndex
    {
      SearchNext(matches, blocks, actual, count, startSearchIndex, matched);
      var found;
      found, end, matched := FindNextMatch(matches, pattern, actual, startSearchIndex, end, matched);
      if !found { break; }
      count := count + 1;
      startSearchIndex := end;
    }
  }
}
