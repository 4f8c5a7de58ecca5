/**
 `create_pattern_tree` and what `fix` makes of it: every options shortcut gets the described options that the usage does
 not mention, and leaves that repeat count or make lists.
 */
module Preparing {
  import opened Sequences
  import opened Patterns
  import opened Fix
  import opened Matching
  import opened MatchMarking
  import OptionParsing
  import Usage = UsageParsing
  import UsageMatching

  // ---------- The leaves of a pattern ----------

  /** `leaves()`: all leaves, in the order of the text. */
  function LeafList(p: Pattern<LeafDef>): seq<LeafDef>
    decreases p, 1
  {
    if p.Leaf? then [p.leaf] else LeafLists(p.children)
  }

  function LeafLists(ps: seq<Pattern<LeafDef>>): seq<LeafDef>
    decreases ps, 0
  {
    if ps == [] then [] else LeafList(ps[0]) + LeafLists(ps[1..])
  }

  lemma {:induction false} LeafListIs(p: Pattern<LeafDef>, d: LeafDef)
    ensures d in LeafList(p) <==> d in Leaves(p)
    decreases p, 1
  {
    if !p.Leaf? { LeafListsAre(p.children, d); }
  }

  lemma {:induction false} LeafListsAre(ps: seq<Pattern<LeafDef>>, d: LeafDef)
    ensures d in LeafLists(ps) <==> d in LeavesAll(ps)
    decreases ps, 0
  {
    if ps != [] {
      LeafListIs(ps[0], d);
      LeafListsAre(ps[1..], d);
    }
  }

  // ---------- [options] ----------

  /** The tree with `opts` in place of every options shortcut. */
  function Fill(p: Pattern<LeafDef>, opts: seq<Pattern<LeafDef>>): Pattern<LeafDef>
    decreases p, 1
  {
    match p
    case Leaf(_) => p
    case Required(ps) => Required(FillAll(ps, opts))
    case Optional(ps) => Optional(FillAll(ps, opts))
    case OptionsShortcut(_) => OptionsShortcut(opts)
    case OneOrMore(ps) => OneOrMore(FillAll(ps, opts))
    case Either(ps) => Either(FillAll(ps, opts))
  }

  function FillAll(ps: seq<Pattern<LeafDef>>, opts: seq<Pattern<LeafDef>>): (r: seq<Pattern<LeafDef>>)
    ensures |r| == |ps|
    decreases ps, 0
  {
    if ps == [] then [] else [Fill(ps[0], opts)] + FillAll(ps[1..], opts)
  }

  /** The documented options that the usage does not mention, each once. */
  function Unmentioned(doc: seq<LeafDef>, mentioned: seq<LeafDef>): (r: seq<LeafDef>)
    ensures forall d <- r :: d in doc && d !in mentioned
    ensures forall d <- doc :: d in r || d in mentioned
    ensures forall i, j :: 0 <= i < j < |r| ==> r[i] != r[j]
  {
    if doc == [] then [] else
    var n := |doc| - 1;
    var before := Unmentioned(doc[..n], mentioned);
    assert doc == doc[..n] + [doc[n]];
    if doc[n] in mentioned || doc[n] in before then before else before + [doc[n]]
  }

  ghost predicate Fits(p: Pattern<LeafDef>) {
    WellFormed(p) && NamedOptions(p) && HasAlternatives(p)
  }

  ghost predicate FitAll(ps: seq<Pattern<LeafDef>>) {
    WellFormedAll(ps) && NamedOptionsAll(ps) && HaveAlternatives(ps)
  }

  lemma {:induction false} FillFits(p: Pattern<LeafDef>, opts: seq<Pattern<LeafDef>>)
    requires Fits(p) && FitAll(opts)
    ensures Fits(Fill(p, opts))
    decreases p, 1
  {
    match p
    case Leaf(_) =>
    case OptionsShortcut(_) =>
    case OneOrMore(ps) =>
      assert NamedOptionsAll(ps) && HaveAlternatives(ps);
      FillFits(ps[0], opts);
      FillOne(ps, opts);
    case _ => FillAllFits(p.children, opts);
  }

  lemma FillOne(ps: seq<Pattern<LeafDef>>, opts: seq<Pattern<LeafDef>>)
    requires |ps| == 1 && Fits(Fill(ps[0], opts))
    ensures Fits(OneOrMore(FillAll(ps, opts)))
  {
    assert ps[1..] == [];
    assert FillAll(ps, opts) == [Fill(ps[0], opts)];
    UsageMatching.OneMatches(Fill(ps[0], opts));
  }

  lemma {:induction false} FillAllFits(ps: seq<Pattern<LeafDef>>, opts: seq<Pattern<LeafDef>>)
    requires FitAll(ps) && FitAll(opts)
    ensures FitAll(FillAll(ps, opts))
    decreases ps, 0
  {
    if ps != [] {
      FillFits(ps[0], opts);
      FillAllFits(ps[1..], opts);
      Head(Fill(ps[0], opts), FillAll(ps[1..], opts));
    }
  }

  // ---------- The pattern that is matched ----------

  function Filled(trees: seq<Pattern<LeafDef>>, doc: seq<LeafDef>): seq<Pattern<LeafDef>> {
    FillAll(trees, Usage.Leaves(Unmentioned(doc, LeafLists(trees))))
  }

  /** The pattern of a usage text after `fix`. */
  function Prepared(trees: seq<Pattern<LeafDef>>, doc: seq<LeafDef>): Pattern<LeafDef> {
    Required(MarkAll(Filled(trees, doc), Filled(trees, doc)))
  }

  /** Options as the option descriptions give them. */
  predicate AreOptions(doc: seq<LeafDef>) {
    forall o <- doc :: o.Option? && o.Name() != ""
  }

  /** Every usage text without a repeated stack gives a pattern that can be matched. */
  lemma PreparedFits(usage: seq<string>, doc: seq<LeafDef>)
    requires Usage.ParseExpr(usage, doc).Parsed? && Usage.ParseExpr(usage, doc).rest == []
    requires !UsageMatching.RepeatsStack(usage, doc, doc) && AreOptions(doc)
    ensures FitAll(Filled(Usage.ParseExpr(usage, doc).trees, doc))
    ensures Fits(Prepared(Usage.ParseExpr(usage, doc).trees, doc))
  {
    var trees := Usage.ParseExpr(usage, doc).trees;
    UsageMatching.UsageMatchesIff(usage, doc);
    var opts := Unmentioned(doc, LeafLists(trees));
    UsageMatching.LeavesMatch(opts);
    FillAllFits(trees, Usage.Leaves(opts));
    MarkAllKeeps(Filled(trees, doc), Filled(trees, doc));
  }

  // ---------- What a usage text mentions ----------

  /** What can stand at a leaf of a usage: an element of it, or a shortcut. */
  datatype Mention = Element(def: LeafDef) | Shortcut

  /** The usage with its shortcuts as leaves. */
  function Outline(p: Pattern<LeafDef>): Pattern<Mention>
    decreases p, 1
  {
    match p
    case Leaf(d) => Pattern<Mention>.Leaf(Element(d))
    case OptionsShortcut(_) => Pattern<Mention>.Leaf(Shortcut)
    case Required(ps) => Pattern<Mention>.Required(OutlineAll(ps))
    case Optional(ps) => Pattern<Mention>.Optional(OutlineAll(ps))
    case OneOrMore(ps) => Pattern<Mention>.OneOrMore(OutlineAll(ps))
    case Either(ps) => Pattern<Mention>.Either(OutlineAll(ps))
  }

  function OutlineAll(ps: seq<Pattern<LeafDef>>): seq<Pattern<Mention>>
    decreases ps, 0
  {
    if ps == [] then [] else [Outline(ps[0])] + OutlineAll(ps[1..])
  }

  predicate HasShortcut(p: Pattern<LeafDef>)
    decreases p, 1
  {
    p.OptionsShortcut? || (!p.Leaf? && HaveShortcut(p.children))
  }

  predicate HaveShortcut(ps: seq<Pattern<LeafDef>>)
    decreases ps, 0
  {
    ps != [] && (HasShortcut(ps[0]) || HaveShortcut(ps[1..]))
  }

  /** The shortcuts have nothing yet, as a usage text is parsed. */
  ghost predicate Bare(p: Pattern<LeafDef>)
    decreases p, 1
  {
    p.Leaf? || (if p.OptionsShortcut? then p.children == [] else BareAll(p.children))
  }

  ghost predicate BareAll(ps: seq<Pattern<LeafDef>>)
    decreases ps, 0
  {
    ps == [] || (Bare(ps[0]) && BareAll(ps[1..]))
  }

  lemma {:induction false} BareConcat(a: seq<Pattern<LeafDef>>, b: seq<Pattern<LeafDef>>)
    requires BareAll(a) && BareAll(b)
    ensures BareAll(a + b)
    decreases |a|
  {
    if a == [] {
      assert a + b == b;
    } else {
      assert (a + b)[0] == a[0] && (a + b)[1..] == a[1..] + b;
      BareConcat(a[1..], b);
    }
  }

  lemma BareOne(p: Pattern<LeafDef>)
    ensures BareAll([p]) <==> Bare(p)
  {
    assert [p][1..] == [];
  }

  lemma {:induction false} LeavesBare(found: seq<LeafDef>)
    ensures BareAll(Usage.Leaves(found))
  {
    if found != [] {
      LeavesBare(found[1..]);
      assert Usage.Leaves(found)[1..] == Usage.Leaves(found[1..]);
    }
  }

  lemma CollapseBare(ps: seq<Pattern<LeafDef>>)
    requires BareAll(ps)
    ensures Bare(Usage.Collapse(ps)) && Bare(Usage.CollapseEither(ps))
  {
    if |ps| == 1 { BareOne(ps[0]); }
  }

  lemma {:induction false} AtomBare(toks: seq<string>, table: seq<LeafDef>)
    requires toks != [] && Usage.ParseAtom(toks, table).Parsed?
    ensures BareAll(Usage.ParseAtom(toks, table).trees)
    decreases |toks|, 0
  {
    var trees := Usage.ParseAtom(toks, table).trees;
    if toks[0] == "[" || toks[0] == "(" { ExprBare(toks[1..], table); }
    if |trees| == 1 {
      BareOne(trees[0]);
    } else if toks[0] != "[" && toks[0] != "(" && toks[0] != "options" && Usage.IsOption(toks[0]) {
      LeavesBare(if OptionParsing.StartsWith(toks[0], "--") then OptionParsing.ParseLong(toks, table, false).found
                 else OptionParsing.ParseShort(toks, table, false).found);
    }
  }

  lemma {:induction false} SeqBare(toks: seq<string>, table: seq<LeafDef>)
    requires Usage.ParseSeq(toks, table).Parsed?
    ensures BareAll(Usage.ParseSeq(toks, table).trees)
    decreases |toks|, 1
  {
    if !Usage.Stops(toks) {
      AtomBare(toks, table);
      var atom := Usage.ParseAtom(toks, table);
      if OptionParsing.Current(atom.rest) == "..." {
        SeqBare(atom.rest[1..], atom.options);
        BareOne(OneOrMore(atom.trees));
        BareConcat([OneOrMore(atom.trees)], Usage.ParseSeq(atom.rest[1..], atom.options).trees);
      } else {
        SeqBare(atom.rest, atom.options);
        BareConcat(atom.trees, Usage.ParseSeq(atom.rest, atom.options).trees);
      }
    }
  }

  lemma {:induction false} AlternativesBare(toks: seq<string>, table: seq<LeafDef>)
    requires Usage.Stops(toks) && Usage.ParseAlternatives(toks, table).Parsed?
    ensures BareAll(Usage.ParseAlternatives(toks, table).trees)
    decreases |toks|, 2
  {
    if OptionParsing.Current(toks) == "|" {
      SeqBare(toks[1..], table);
      var s := Usage.ParseSeq(toks[1..], table);
      AlternativesBare(s.rest, s.options);
      CollapseBare(s.trees);
      BareOne(Usage.Collapse(s.trees));
      BareConcat([Usage.Collapse(s.trees)], Usage.ParseAlternatives(s.rest, s.options).trees);
    }
  }

  lemma {:induction false} ExprBare(toks: seq<string>, table: seq<LeafDef>)
    requires Usage.ParseExpr(toks, table).Parsed?
    ensures BareAll(Usage.ParseExpr(toks, table).trees)
    decreases |toks|, 3
  {
    SeqBare(toks, table);
    var s := Usage.ParseSeq(toks, table);
    if OptionParsing.Current(s.rest) == "|" {
      AlternativesBare(s.rest, s.options);
      var more := Usage.ParseAlternatives(s.rest, s.options);
      CollapseBare(s.trees);
      BareOne(Usage.Collapse(s.trees));
      BareConcat([Usage.Collapse(s.trees)], more.trees);
      CollapseBare([Usage.Collapse(s.trees)] + more.trees);
      BareOne(Usage.CollapseEither([Usage.Collapse(s.trees)] + more.trees));
    }
  }

  // ---------- The leaves of the prepared pattern ----------

  lemma {:induction false} FillLeaves(p: Pattern<LeafDef>, opts: seq<Pattern<LeafDef>>)
    requires Bare(p)
    ensures Leaves(Fill(p, opts)) == Leaves(p) + if HasShortcut(p) then LeavesAll(opts) else {}
    decreases p, 1
  {
    if !p.Leaf? && !p.OptionsShortcut? { FillAllLeaves(p.children, opts); }
  }

  lemma {:induction false} FillAllLeaves(ps: seq<Pattern<LeafDef>>, opts: seq<Pattern<LeafDef>>)
    requires BareAll(ps)
    ensures LeavesAll(FillAll(ps, opts)) == LeavesAll(ps) + if HaveShortcut(ps) then LeavesAll(opts) else {}
    decreases ps, 0
  {
    if ps != [] {
      FillLeaves(ps[0], opts);
      FillAllLeaves(ps[1..], opts);
      Head(Fill(ps[0], opts), FillAll(ps[1..], opts));
    }
  }

  lemma {:induction false} LeavesOfOptions(found: seq<LeafDef>, d: LeafDef)
    ensures d in LeavesAll(Usage.Leaves(found)) <==> d in found
  {
    if found != [] {
      LeavesOfOptions(found[1..], d);
      assert Usage.Leaves(found)[1..] == Usage.Leaves(found[1..]);
    }
  }

  /** How often a leaf can occur once the shortcuts are filled: as often as it is mentioned, or as they are. */
  lemma {:induction false} FillCount(p: Pattern<LeafDef>, opts: seq<Pattern<LeafDef>>, d: LeafDef)
    requires d in Leaves(p) ==> MaxCountAll(opts, d) == Most(0)
    requires MaxCountAll(opts, d) == Most(0) || MaxCountAll(opts, d) == Most(1)
    ensures MaxCountAll(opts, d) == Most(0) ==> MaxCount(Fill(p, opts), d) == MaxCount(Outline(p), Element(d))
    ensures MaxCountAll(opts, d) == Most(1) ==> MaxCount(Fill(p, opts), d) == MaxCount(Outline(p), Shortcut)
    decreases p, 1
  {
    if !p.Leaf? && !p.OptionsShortcut? { FillAllCount(p.children, opts, d); }
  }

  lemma {:induction false} FillAllCount(ps: seq<Pattern<LeafDef>>, opts: seq<Pattern<LeafDef>>, d: LeafDef)
    requires d in LeavesAll(ps) ==> MaxCountAll(opts, d) == Most(0)
    requires MaxCountAll(opts, d) == Most(0) || MaxCountAll(opts, d) == Most(1)
    ensures var x := if MaxCountAll(opts, d) == Most(0) then Element(d) else Shortcut;
            && MaxCountAll(FillAll(ps, opts), d) == MaxCountAll(OutlineAll(ps), x)
            && MaxCountEither(FillAll(ps, opts), d) == MaxCountEither(OutlineAll(ps), x)
    decreases ps, 0
  {
    if ps != [] {
      FillCount(ps[0], opts, d);
      FillAllCount(ps[1..], opts, d);
      Head(Fill(ps[0], opts), FillAll(ps[1..], opts));
      Head(Outline(ps[0]), OutlineAll(ps[1..]));
    }
  }

  lemma {:induction false} OptionsCount(found: seq<LeafDef>, d: LeafDef)
    requires forall i, j :: 0 <= i < j < |found| ==> found[i] != found[j]
    ensures MaxCountAll(Usage.Leaves(found), d) == Most(if d in found then 1 else 0)
  {
    if found != [] {
      OptionsCount(found[1..], d);
      assert Usage.Leaves(found)[1..] == Usage.Leaves(found[1..]);
    }
  }

  /** Whether an element repeats in the prepared usage: where it is mentioned, or else with the shortcut. */
  predicate RepeatsIn(trees: seq<Pattern<LeafDef>>, d: LeafDef) {
    Repeats(OutlineAll(trees), if d in LeafLists(trees) then Element(d) else Shortcut)
  }

  lemma FilledRepeats(trees: seq<Pattern<LeafDef>>, doc: seq<LeafDef>, d: LeafDef)
    requires d in LeafLists(trees) || d in doc
    ensures Repeats(Filled(trees, doc), d) <==> RepeatsIn(trees, d)
  {
    var unmentioned := Unmentioned(doc, LeafLists(trees));
    LeafListsAre(trees, d);
    OptionsCount(unmentioned, d);
    FillAllCount(trees, Usage.Leaves(unmentioned), d);
  }

  /**
   The leaves of the prepared pattern are those of the usage and, if it has a shortcut, all options that are described,
   as `fix` leaves them.
   */
  lemma PreparedLeaves(usage: seq<string>, doc: seq<LeafDef>, d': LeafDef)
    requires Usage.ParseExpr(usage, doc).Parsed?
    ensures var trees := Usage.ParseExpr(usage, doc).trees;
            d' in Leaves(Prepared(trees, doc)) <==>
            exists d :: (d in LeavesAll(trees) || (HaveShortcut(trees) && d in doc)) &&
                        FixedAs(d, RepeatsIn(trees, d), d')
  {
    var trees := Usage.ParseExpr(usage, doc).trees;
    var filled, unmentioned := Filled(trees, doc), Unmentioned(doc, LeafLists(trees));
    ExprBare(usage, doc);
    FillAllLeaves(trees, Usage.Leaves(unmentioned));
    LeavesAllMarked(filled, filled, d');
    forall d ensures d in LeavesAll(filled) <==> d in LeavesAll(trees) || (HaveShortcut(trees) && d in doc) {
      LeafListsAre(trees, d);
      LeavesOfOptions(unmentioned, d);
    }
    forall d | d in LeavesAll(filled) ensures d' == MarkLeaf(d, filled) <==> FixedAs(d, RepeatsIn(trees, d), d') {
      LeafListsAre(trees, d);
      FilledRepeats(trees, doc, d);
      AccumulatesIffRepeats(filled, d);
    }
  }

  // ---------- Without a shortcut ----------

  lemma {:induction false} FillNothing(p: Pattern<LeafDef>, opts: seq<Pattern<LeafDef>>)
    requires !HasShortcut(p)
    ensures Fill(p, opts) == p
    decreases p, 1
  {
    if !p.Leaf? { FillAllNothing(p.children, opts); }
  }

  lemma {:induction false} FillAllNothing(ps: seq<Pattern<LeafDef>>, opts: seq<Pattern<LeafDef>>)
    requires !HaveShortcut(ps)
    ensures FillAll(ps, opts) == ps
    decreases ps, 0
  {
    if ps != [] {
      FillNothing(ps[0], opts);
      FillAllNothing(ps[1..], opts);
    }
  }

  /** A usage without a shortcut is prepared by `fix` alone, whatever is described. */
  lemma PreparedAsIs(trees: seq<Pattern<LeafDef>>, doc: seq<LeafDef>)
    requires !HaveShortcut(trees)
    ensures Prepared(trees, doc) == Required(MarkAll(trees, trees))
  {
    FillAllNothing(trees, Usage.Leaves(Unmentioned(doc, LeafLists(trees))));
  }

  // ---------- Without repetition ----------

  lemma {:induction false} MarkNothing(p: Pattern<LeafDef>, all: seq<Pattern<LeafDef>>)
    requires forall d <- Leaves(p) :: !Repeats(all, d)
    ensures Mark(p, all) == p
    decreases p, 1
  {
    if !p.Leaf? { MarkAllNothing(p.children, all); }
  }

  lemma {:induction false} MarkAllNothing(ps: seq<Pattern<LeafDef>>, all: seq<Pattern<LeafDef>>)
    requires forall d <- LeavesAll(ps) :: !Repeats(all, d)
    ensures MarkAll(ps, all) == ps
    decreases ps, 0
  {
    if ps != [] {
      MarkNothing(ps[0], all);
      MarkAllNothing(ps[1..], all);
    }
  }

  /** A usage in which nothing repeats is as it was, but for its shortcuts. */
  lemma PreparedOnce(trees: seq<Pattern<LeafDef>>, doc: seq<LeafDef>)
    requires BareAll(trees) && forall d :: d in LeafLists(trees) || d in doc ==> !RepeatsIn(trees, d)
    ensures Prepared(trees, doc) == Required(Filled(trees, doc))
  {
    var filled, unmentioned := Filled(trees, doc), Unmentioned(doc, LeafLists(trees));
    FillAllLeaves(trees, Usage.Leaves(unmentioned));
    forall d <- LeavesAll(filled) ensures !Repeats(filled, d) {
      LeafListsAre(trees, d);
      LeavesOfOptions(unmentioned, d);
      FilledRepeats(trees, doc, d);
    }
    MarkAllNothing(filled, filled);
  }
}
