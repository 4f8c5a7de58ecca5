/**
 What a match reports for a leaf that repeats, for every pattern: how many entries it has, when they are exact, in which
 order its takes come, and what that makes of an argv that is matched as a whole.
 */
module MatchResults {
  import opened Sequences
  import opened Patterns
  import opened Matching
  import opened MatchStore
  import opened MatchRefinement
  import opened MatchAccumulate
  import opened MatchEntries
  import opened MatchTotals
  import opened MatchAttempts
  import opened MatchValues

  // ---------- One entry ----------

  function Count(names: seq<string>, name: string): nat {
    if names == [] then 0 else (if names[0] == name then 1 else 0) + Count(names[1..], name)
  }

  lemma {:induction false} CountSnoc(names: seq<string>, x: string, name: string)
    ensures Count(names + [x], name) == Count(names, name) + if x == name then 1 else 0
  {
    if names == [] {
      assert names + [x] == [x] && [x][1..] == [];
    } else {
      ConcatTail(names, [x]);
      CountSnoc(names[1..], x, name);
    }
  }

  lemma {:induction false} CountIn(names: seq<string>, name: string)
    ensures Count(names, name) > 0 <==> name in names
  {
    if names != [] { CountIn(names[1..], name); }
  }

  lemma {:induction false} CountAtMostOne(names: seq<string>, name: string)
    requires Count(names, name) <= 1
    ensures forall i, j :: 0 <= i < j < |names| && names[i] == name ==> names[j] != name
  {
    if names != [] {
      CountAtMostOne(names[1..], name);
      CountIn(names[1..], name);
      forall i, j | 0 <= i < j < |names| && names[i] == name ensures names[j] != name {
        assert names[j] == names[1..][j - 1] && (i > 0 ==> names[i] == names[1..][i - 1]);
      }
    }
  }

  /** A name that only accumulating leaves take is entered at most once. */
  lemma {:induction false} RecordOnce(names: seq<string>, log: seq<Take>, name: string)
    requires Count(names, name) <= 1
    requires forall k :: 0 <= k < |log| && log[k].leaf.Name() == name ==> Accumulates(log[k].leaf.GetValue())
    ensures Count(Record(names, log), name) <= 1
    decreases |log|
  {
    if log != [] {
      CountIn(names, name);
      CountSnoc(names, log[0].leaf.Name(), name);
      RecordOnce(RecordOne(names, log[0].leaf), log[1..], name);
    }
  }

  /** The entries of a name, for every pattern: one if the leaf took something, none otherwise. */
  lemma EntriesOfName(p: Pattern<LeafDef>, s: State, leaf: LeafDef)
    requires Suits(p, leaf) && Proper(s) && NoRepeat(s.left) && s.coll == [] && MatchS(p, s).ok
    ensures var r := MatchS(p, s);
            var es, log := Entries(r.st.coll, r.st.heap), Match(p, View(s.left, s.heap)).log;
            var j := FirstEntry(es, leaf.Name());
            && (forall k :: 0 <= k < |es| && es[k].Name() == leaf.Name() ==> k == j)
            && (j < |es| <==> Kept(log, leaf) != [])
  {
    var r, log, name := MatchS(p, s), Match(p, View(s.left, s.heap)).log, leaf.Name();
    StepState(p, s);
    MatchByLeaves(p, View(s.left, s.heap));
    var names := NamesOf(r.st.coll, r.st.heap);
    assert NamesOf(s.coll, s.heap) == [];
    RecordNames([], log, name);
    RecordOnce([], log, name);
    CountAtMostOne(names, name);
    KeptIffTaken(log, leaf);
    FirstIsIn(r.st.coll, r.st.heap, name);
    SameFirstEntry(r.st.coll, r.st.heap, name);
    forall k | 0 <= k < |names| && names[k] == name ensures k == FirstWithName(r.st.coll, r.st.heap, name) {
      var j := FirstWithName(r.st.coll, r.st.heap, name);
      assert j < |names| && names[j] == name;
    }
  }

  lemma KeptInHeap(p: Pattern<LeafDef>, s: State, leaf: LeafDef)
    requires WellFormed(p) && Proper(s) && NoRepeat(s.left) && s.coll == []
    ensures var log := Match(p, View(s.left, s.heap)).log; IdsIn(log, s.heap) && TokIdsIn(Kept(log, leaf), s.heap)
  {
    StartsReady(s, leaf);
    LogIds(p, s, s.heap, leaf);
    KeptIds(Match(p, View(s.left, s.heap)).log, leaf, s.heap);
  }

  lemma StartsReady(s: State, leaf: LeafDef)
    requires Proper(s) && NoRepeat(s.left) && s.coll == []
    ensures Ready(s, s.heap, leaf) && NotEntered(s, leaf)
  {
    forall x <- s.left ensures 0 <= x < |s.heap| && SameLeaf(s.heap[x], s.heap[x]) {
      InLeft(s, x);
    }
    assert NamesOf(s.coll, s.heap) == [];
  }

  // ---------- Exact entries ----------

  /** Nothing that the match gave up shows in the entry of the leaf. */
  predicate Clear(p: Pattern<LeafDef>, toks: seq<Tok>, leaf: LeafDef)
    requires WellFormed(p)
  {
    Undisturbed(Attempts(p, toks, leaf, false), Takes(Match(p, toks).log, leaf), leaf)
  }

  /**
   From nothing collected, and for every pattern, a repeating leaf ends with the number of its takes, or their words in
   order, if and only if nothing that the match gave up shows.
   */
  lemma ExactIff(p: Pattern<LeafDef>, s: State, leaf: LeafDef)
    requires Suits(p, leaf) && Proper(s) && NoRepeat(s.left) && s.coll == [] && MatchS(p, s).ok
    ensures var r, toks := MatchS(p, s), View(s.left, s.heap);
            var es, log := Entries(r.st.coll, r.st.heap), Match(p, toks).log;
            && TokIdsIn(Kept(log, leaf), s.heap) && (Clear(p, toks, leaf) ==> Exact(es, log, leaf, s.heap))
            && (leaf.GetValue().Long? || OneWordEach(toks, leaf, s.heap) ==>
                  (Clear(p, toks, leaf) <==> Exact(es, log, leaf, s.heap)))
  {
    var toks := View(s.left, s.heap);
    var kept := Kept(Match(p, toks).log, leaf);
    KeptInHeap(p, s, leaf);
    EntriesOfName(p, s, leaf);
    if kept != [] {
      EntryHolds(p, s, leaf);
      TakenHasName(p, toks, leaf);
      AttemptsTried(p, s, leaf);
      FinalIsSum(Attempts(p, toks, leaf, false), kept, s, leaf);
    }
  }

  // ---------- The order of the takes ----------

  ghost predicate OnChannel(log: seq<Take>, leaf: LeafDef) {
    forall k :: 0 <= k < |log| && log[k].leaf == leaf ==> ChannelOf(log[k].tok) == LeafChannel(leaf)
  }

  lemma {:induction false} KeptOnChannel(log: seq<Take>, leaf: LeafDef)
    requires OnChannel(log, leaf)
    ensures Subsequence(Kept(log, leaf), Proj(Taken(log), LeafChannel(leaf)))
    decreases |log|
  {
    if log != [] {
      var rest, ch := log[1..], LeafChannel(leaf);
      assert forall k :: 0 <= k < |rest| ==> rest[k] == log[k + 1];
      KeptOnChannel(rest, leaf);
      Head(log[0].tok, Taken(rest));
      var x := if log[0].leaf == leaf then [log[0].tok] else [];
      var y := if ChannelOf(log[0].tok) == ch then [log[0].tok] else [];
      if x == y { SubsequenceRefl(x); }
      SubsequenceConcat(x, y, Kept(rest, leaf), Proj(Taken(rest), ch));
    }
  }

  lemma {:induction false} SubsequencePrefix<T>(a: seq<T>, b: seq<T>, c: seq<T>)
    requires Subsequence(a, b)
    ensures Subsequence(a, b + c)
  {
    if a != [] {
      assert (b + c)[1..] == b[1..] + c;
      if a[0] == b[0] { SubsequencePrefix(a[1..], b[1..], c); } else { SubsequencePrefix(a, b[1..], c); }
    }
  }

  lemma {:induction false} ProjSubsequence(toks: seq<Tok>, ch: Channel)
    ensures Subsequence(Proj(toks, ch), toks)
  {
    if toks != [] {
      ProjSubsequence(toks[1..], ch);
      assert toks == [toks[0]] + toks[1..];
      if ChannelOf(toks[0]) == ch {
        assert Proj(toks, ch)[1..] == Proj(toks[1..], ch);
      } else {
        assert Proj(toks, ch) == Proj(toks[1..], ch);
        SubsequenceCons(Proj(toks[1..], ch), toks[0], toks[1..]);
      }
    }
  }

  /** In every match, a leaf takes its tokens in the order of argv. */
  lemma TakesInArgvOrder(p: Pattern<LeafDef>, toks: seq<Tok>, leaf: LeafDef)
    requires WellFormed(p) && NamedOptions(p)
    ensures Subsequence(Kept(Match(p, toks).log, leaf), toks)
  {
    var r, ch := Match(p, toks), LeafChannel(leaf);
    MatchConserves(p, toks);
    MatchByLeaves(p, toks);
    KeptOnChannel(r.log, leaf);
    assert Proj(toks, ch) == Proj(Taken(r.log), ch) + Proj(r.left, ch);
    SubsequencePrefix(Kept(r.log, leaf), Proj(Taken(r.log), ch), Proj(r.left, ch));
    ProjSubsequence(toks, ch);
    SubsequenceTrans(Kept(r.log, leaf), Proj(toks, ch), toks);
  }

  // ---------- When all of argv is matched ----------

  lemma TakesWholeChannel(p: Pattern<LeafDef>, toks: seq<Tok>, leaf: LeafDef)
    requires WellFormed(p) && NamedOptions(p) && AloneOnChannel(Leaves(p), leaf) && Match(p, toks).left == []
    ensures Kept(Match(p, toks).log, leaf) == Proj(toks, LeafChannel(leaf))
  {
    var r, ch := Match(p, toks), LeafChannel(leaf);
    MatchConserves(p, toks);
    MatchByLeaves(p, toks);
    KeptIsChannel(r.log, Leaves(p), leaf);
    assert Proj(toks, ch) == Proj(Taken(r.log), ch) + Proj(r.left, ch);
  }

  /**
   When the whole of argv is matched, the counter of an option is the number of times argv has it, and its list has the
   words that argv has for it, in order, if and only if nothing that was given up shows. So for the only positional.
   */
  lemma HoldsItsOccurrences(p: Pattern<LeafDef>, s: State, leaf: LeafDef)
    requires Suits(p, leaf) && (leaf.Option? || AloneOnChannel(Leaves(p), leaf))
    requires Proper(s) && NoRepeat(s.left) && s.coll == [] && MatchS(p, s).ok && MatchS(p, s).st.left == []
    ensures var r, toks := MatchS(p, s), View(s.left, s.heap);
            var es, all := Entries(r.st.coll, r.st.heap), Proj(toks, LeafChannel(leaf));
            var j := FirstEntry(es, leaf.Name());
            && TokIdsIn(all, s.heap) && (j < |es| <==> all != [])
            && (j < |es| && Clear(p, toks, leaf) ==> es[j].GetValue() == Sum(all, leaf, s.heap))
            && (j < |es| && (leaf.GetValue().Long? || OneWordEach(toks, leaf, s.heap)) ==>
                  (Clear(p, toks, leaf) <==> es[j].GetValue() == Sum(all, leaf, s.heap)))
  {
    var toks := View(s.left, s.heap);
    var all := Proj(toks, LeafChannel(leaf));
    MatchRefines(p, s);
    TakesWholeChannel(p, toks, leaf);
    assert Kept(Match(p, toks).log, leaf) == all;
    EntriesOfName(p, s, leaf);
    ExactIff(p, s, leaf);
  }
}
