/**
 Which parsed usage patterns the matcher can be given. Every option in them has a name, and `OneOrMore::match` finds the
 one child that it asserts unless a stack of short options is followed by an ellipsis.
 */
module UsageMatching {
  import opened Sequences
  import opened Patterns
  import opened OptionParsing
  import opened UsageParsing
  import Matching
  import ArgvParsing

  /** A stack of short options of which the first takes no argument. */
  predicate IsStack(token: string, options: seq<LeafDef>) {
    IsOption(token) && !StartsWith(token, "--") && |token| > 2 && !ArgvParsing.TakesArgument(options, token[1])
  }

  lemma {:induction false} ShortsFound(chars: string, rest: seq<string>, options: seq<LeafDef>)
    requires chars != "" && ParseShorts(chars, rest, options, false).Done?
    ensures var n := |ParseShorts(chars, rest, options, false).found|;
            n >= 1 && (n == 1 <==> |chars| == 1 || ArgvParsing.TakesArgument(options, chars[0]))
    decreases |chars|
  {
    var similar := WithShort(options, ['-', chars[0]]);
    if |chars| > 1 && |similar| <= 1 && !ArgvParsing.TakesArgument(options, chars[0]) {
      ShortsFound(chars[1..], rest, if similar == [] then options + [NewOption(['-', chars[0]], "", 0)] else options);
    } else if |chars| == 1 {
      assert chars[1..] == "";
    }
  }

  /** An atom is one tree, so that `...` after it can be matched, exactly when it is not a stack of short options. */
  lemma AtomIsSingle(toks: seq<string>, options: seq<LeafDef>)
    requires !Stops(toks) && ParseAtom(toks, options).Parsed?
    ensures |ParseAtom(toks, options).trees| == 1 <==> !IsStack(toks[0], options)
  {
    var token := toks[0];
    if token == "[" || token == "(" || token == "options" {
      SymbolsAreNotOptions();
    } else if IsOption(token) && !StartsWith(token, "--") {
      ShortsFound(token[1..], toks[1..], options);
    }
  }

  // ---------- Every option has a name ----------

  ghost predicate AllNamed(found: seq<LeafDef>) {
    forall o <- found :: o.Option? && o.Name() != ""
  }

  lemma {:induction false} ShortsNamed(chars: string, rest: seq<string>, options: seq<LeafDef>, argv: bool)
    requires ParseShorts(chars, rest, options, argv).Done?
    ensures AllNamed(ParseShorts(chars, rest, options, argv).found)
    decreases |chars|
  {
    if chars != "" {
      var name := ['-', chars[0]];
      var similar := WithShort(options, name);
      if similar == [] {
        ShortsNamed(chars[1..], rest, options + [NewOption(name, "", 0)], argv);
      } else if similar[0].argcount == 0 {
        ShortsNamed(chars[1..], rest, options, argv);
      }
    }
  }

  lemma LongNamed(toks: seq<string>, options: seq<LeafDef>, argv: bool)
    requires toks != [] && StartsWith(toks[0], "--") && ParseLong(toks, options, argv).Done?
    ensures AllNamed(ParseLong(toks, options, argv).found)
  {
    var token := toks[0];
    assert token[0] == "--"[0] && token[1] == "--"[1];
    assert EqualSign(token) >= 2;
  }

  /** All options are named, and no `Either` is empty. */
  ghost predicate Fine(ps: seq<Tree>) {
    Matching.NamedOptionsAll(ps) && Matching.HaveAlternatives(ps)
  }

  lemma {:induction false} NamedConcat(a: seq<Tree>, b: seq<Tree>)
    ensures Matching.NamedOptionsAll(a + b) <==> Matching.NamedOptionsAll(a) && Matching.NamedOptionsAll(b)
    ensures Matching.WellFormedAll(a + b) <==> Matching.WellFormedAll(a) && Matching.WellFormedAll(b)
    ensures Matching.HaveAlternatives(a + b) <==> Matching.HaveAlternatives(a) && Matching.HaveAlternatives(b)
  {
    if a == [] {
      assert a + b == b;
    } else {
      ConcatTail(a, b);
      NamedConcat(a[1..], b);
    }
  }

  lemma {:induction false} LeavesMatch(found: seq<LeafDef>)
    requires AllNamed(found)
    ensures Fine(Leaves(found)) && Matching.WellFormedAll(Leaves(found))
  {
    if found != [] {
      assert found[0] in found;
      LeavesMatch(found[1..]);
      assert Leaves(found)[1..] == Leaves(found[1..]);
    }
  }

  lemma OneMatches(p: Tree)
    ensures Matching.NamedOptionsAll([p]) <==> Matching.NamedOptions(p)
    ensures Matching.WellFormedAll([p]) <==> Matching.WellFormed(p)
    ensures Matching.HaveAlternatives([p]) <==> Matching.HasAlternatives(p)
  {
    assert [p][1..] == [];
  }

  // ---------- The table of a usage text ----------

  /** The same short options take an argument. */
  ghost predicate SameShorts(options: seq<LeafDef>, options': seq<LeafDef>) {
    forall c :: ArgvParsing.TakesArgument(options', c) == ArgvParsing.TakesArgument(options, c)
  }

  lemma {:induction false} ShortsKeepTable(chars: string, rest: seq<string>, options: seq<LeafDef>)
    requires ParseShorts(chars, rest, options, false).Done?
    ensures SameShorts(options, ParseShorts(chars, rest, options, false).options)
    decreases |chars|
  {
    if chars != "" {
      var similar := WithShort(options, ['-', chars[0]]);
      if similar == [] {
        var next := ArgvParsing.Flagged(options, chars[0]);
        forall c ensures ArgvParsing.TakesArgument(next, c) == ArgvParsing.TakesArgument(options, c) {
          ArgvParsing.FlaggedTakesArgument(options, chars[0], c);
        }
        ShortsKeepTable(chars[1..], rest, ArgvParsing.Flagged(options, chars[0]));
      } else if similar[0].argcount == 0 {
        ShortsKeepTable(chars[1..], rest, options);
      }
    }
  }

  lemma LongKeepsTable(toks: seq<string>, options: seq<LeafDef>)
    requires toks != [] && ParseLong(toks, options, false).Done?
    ensures SameShorts(options, ParseLong(toks, options, false).options)
  {
    var r := ParseLong(toks, options, false);
    if r.options != options {
      var o := r.options[|options|];
      forall c ensures ArgvParsing.TakesArgument(r.options, c) == ArgvParsing.TakesArgument(options, c) {
        ArgvParsing.WithShortSnoc(options, o, ['-', c]);
      }
    }
  }

  // ---------- A stack before an ellipsis ----------

  function ParseOption(toks: seq<string>, options: seq<LeafDef>): (r: Parse)
    requires toks != [] && IsOption(toks[0])
    ensures r.Done? ==> |r.rest| < |toks|
  {
    if StartsWith(toks[0], "--") then ParseLong(toks, options, false) else ParseShort(toks, options, false)
  }

  /**
   Some stack of short options, with the value it may take, is followed by an ellipsis. A scan from left to right that
   skips the values of options; `table` grows on the way, but which short options take a value is decided by `options`.
   */
  predicate RepeatsStack(toks: seq<string>, table: seq<LeafDef>, options: seq<LeafDef>)
    decreases |toks|
  {
    toks != [] &&
    if !IsOption(toks[0]) then RepeatsStack(toks[1..], table, options)
    else
      var p := ParseOption(toks, table);
      p.Done? && ((IsStack(toks[0], options) && Current(p.rest) == "...") || RepeatsStack(p.rest, p.options, options))
  }

  /** A parsed part has no repeated stack exactly when its trees can be matched; then the scan goes on after it. */
  ghost predicate Scanned(toks: seq<string>, table: seq<LeafDef>, options: seq<LeafDef>, r: Trees) {
    r.Parsed? ==>
      && SameShorts(options, r.options) && Fine(r.trees)
      && (RepeatsStack(toks, table, options) <==>
            !Matching.WellFormedAll(r.trees) || RepeatsStack(r.rest, r.options, options))
  }

  lemma OptionScan(toks: seq<string>, table: seq<LeafDef>, options: seq<LeafDef>)
    requires toks != [] && IsOption(toks[0]) && SameShorts(options, table) && ParseOption(toks, table).Done?
    ensures var p := ParseOption(toks, table);
            SameShorts(options, p.options) && Fine(Leaves(p.found)) && Matching.WellFormedAll(Leaves(p.found))
  {
    var p := ParseOption(toks, table);
    if StartsWith(toks[0], "--") {
      LongNamed(toks, table, false);
      LongKeepsTable(toks, table);
    } else {
      ShortsNamed(toks[0][1..], toks[1..], table, false);
      ShortsKeepTable(toks[0][1..], toks[1..], table);
    }
    LeavesMatch(p.found);
  }

  /** A symbol is skipped by the scan. */
  lemma SymbolScan(toks: seq<string>, table: seq<LeafDef>, options: seq<LeafDef>)
    requires toks != [] && toks[0] in ["[", "]", "(", ")", "|", "...", "options"]
    ensures !IsOption(toks[0]) && RepeatsStack(toks, table, options) == RepeatsStack(toks[1..], table, options)
  {
    SymbolsAreNotOptions();
  }

  lemma {:induction false} AtomScan(toks: seq<string>, table: seq<LeafDef>, options: seq<LeafDef>)
    requires !Stops(toks) && SameShorts(options, table)
    ensures var r := ParseAtom(toks, table);
            r.Parsed? ==>
              && SameShorts(options, r.options) && Fine(r.trees)
              && (|r.trees| == 1 <==> !IsStack(toks[0], options))
              && (RepeatsStack(toks, table, options) <==>
                    || (IsStack(toks[0], options) && Current(r.rest) == "...")
                    || !Matching.WellFormedAll(r.trees) || RepeatsStack(r.rest, r.options, options))
    decreases |toks|, 0
  {
    var r := ParseAtom(toks, table);
    if r.Parsed? {
      AtomIsSingle(toks, table);
      assert ArgvParsing.TakesArgument(table, if |toks[0]| > 1 then toks[0][1] else '-') ==
             ArgvParsing.TakesArgument(options, if |toks[0]| > 1 then toks[0][1] else '-');
      if toks[0] == "[" || toks[0] == "(" {
        SymbolScan(toks, table, options);
        GroupScan(toks, table, options);
      } else if toks[0] == "options" {
        SymbolScan(toks, table, options);
        OneMatches(OptionsShortcut([]));
      } else if IsOption(toks[0]) {
        OptionScan(toks, table, options);
      } else {
        OneMatches(r.trees[0]);
      }
    }
  }

  lemma {:induction false} GroupScan(toks: seq<string>, table: seq<LeafDef>, options: seq<LeafDef>)
    requires toks != []
    requires (toks[0] == "[" || toks[0] == "(") && SameShorts(options, table) && ParseAtom(toks, table).Parsed?
    ensures Scanned(toks[1..], table, options, ParseAtom(toks, table))
    decreases |toks| - 1, 4
  {
    var e, r := ParseExpr(toks[1..], table), ParseAtom(toks, table);
    ExprScan(toks[1..], table, options);
    SymbolScan(e.rest, e.options, options);
    OneMatches(r.trees[0]);
  }

  /** An atom, repeated or not, and what the scan says of it. */
  lemma ItemScan(toks: seq<string>, atom: Trees, table: seq<LeafDef>, options: seq<LeafDef>)
    requires toks != [] && atom.Parsed? && Fine(atom.trees) && (|atom.trees| == 1 <==> !IsStack(toks[0], options))
    requires RepeatsStack(toks, table, options) <==>
               || (IsStack(toks[0], options) && Current(atom.rest) == "...")
               || !Matching.WellFormedAll(atom.trees) || RepeatsStack(atom.rest, atom.options, options)
    ensures var more := Current(atom.rest) == "...";
            var item := if more then [OneOrMore(atom.trees)] else atom.trees;
            var rest := if more then atom.rest[1..] else atom.rest;
            && Fine(item)
            && (RepeatsStack(toks, table, options) <==>
                  !Matching.WellFormedAll(item) || RepeatsStack(rest, atom.options, options))
  {
    if Current(atom.rest) == "..." {
      SymbolScan(atom.rest, atom.options, options);
      OneMatches(OneOrMore(atom.trees));
      if |atom.trees| == 1 {
        OneMatches(atom.trees[0]);
        assert atom.trees == [atom.trees[0]];
      }
    }
  }

  lemma {:induction false} SeqScan(toks: seq<string>, table: seq<LeafDef>, options: seq<LeafDef>)
    requires SameShorts(options, table)
    ensures Scanned(toks, table, options, ParseSeq(toks, table))
    decreases |toks|, 1
  {
    if !Stops(toks) && ParseAtom(toks, table).Parsed? {
      var atom := ParseAtom(toks, table);
      AtomScan(toks, table, options);
      ItemScan(toks, atom, table, options);
      var more := Current(atom.rest) == "...";
      var item := if more then [OneOrMore(atom.trees)] else atom.trees;
      var rest := if more then atom.rest[1..] else atom.rest;
      SeqScan(rest, atom.options, options);
      var r := ParseSeq(rest, atom.options);
      if r.Parsed? { NamedConcat(item, r.trees); }
    }
  }

  lemma CollapseMatches(trees: seq<Tree>)
    ensures Matching.NamedOptions(Collapse(trees)) <==> Matching.NamedOptionsAll(trees)
    ensures Matching.WellFormed(Collapse(trees)) <==> Matching.WellFormedAll(trees)
    ensures Matching.HasAlternatives(Collapse(trees)) <==> Matching.HaveAlternatives(trees)
  {
    if |trees| == 1 {
      OneMatches(trees[0]);
      assert trees == [trees[0]];
    }
  }

  lemma {:induction false} AlternativesScan(toks: seq<string>, table: seq<LeafDef>, options: seq<LeafDef>)
    requires Stops(toks) && SameShorts(options, table)
    ensures Scanned(toks, table, options, ParseAlternatives(toks, table))
    decreases |toks|, 2
  {
    if Current(toks) == "|" {
      SymbolScan(toks, table, options);
      SeqScan(toks[1..], table, options);
      var s := ParseSeq(toks[1..], table);
      if s.Parsed? {
        AlternativesScan(s.rest, s.options, options);
        CollapseMatches(s.trees);
        OneMatches(Collapse(s.trees));
        var r := ParseAlternatives(s.rest, s.options);
        if r.Parsed? { NamedConcat([Collapse(s.trees)], r.trees); }
      }
    }
  }

  lemma {:induction false} ExprScan(toks: seq<string>, table: seq<LeafDef>, options: seq<LeafDef>)
    requires SameShorts(options, table)
    ensures Scanned(toks, table, options, ParseExpr(toks, table))
    decreases |toks|, 3
  {
    SeqScan(toks, table, options);
    var s := ParseSeq(toks, table);
    if s.Parsed? && Current(s.rest) == "|" {
      AlternativesScan(s.rest, s.options, options);
      var more := ParseAlternatives(s.rest, s.options);
      if more.Parsed? {
        var alts := [Collapse(s.trees)] + more.trees;
        CollapseMatches(s.trees);
        OneMatches(Collapse(s.trees));
        NamedConcat([Collapse(s.trees)], more.trees);
        EitherMatches(alts);
      }
    }
  }

  lemma EitherMatches(alts: seq<Tree>)
    requires alts != []
    ensures var p := [CollapseEither(alts)];
            && (Matching.NamedOptionsAll(p) <==> Matching.NamedOptionsAll(alts))
            && (Matching.WellFormedAll(p) <==> Matching.WellFormedAll(alts))
            && (Matching.HaveAlternatives(p) <==> Matching.HaveAlternatives(alts))
  {
    OneMatches(CollapseEither(alts));
    if |alts| == 1 { assert alts == [CollapseEither(alts)]; }
  }

  /**
   The pattern of any usage text names all of its options and has no empty `Either`, and the matcher meets no
   repetition without exactly one child if and only if the text has no stack of short options before an ellipsis.
   */
  lemma UsageMatchesIff(toks: seq<string>, options: seq<LeafDef>)
    requires ParseExpr(toks, options).Parsed? && ParseExpr(toks, options).rest == []
    ensures var p := Required(ParseExpr(toks, options).trees);
            && Matching.NamedOptions(p) && Matching.HasAlternatives(p)
            && (Matching.WellFormed(p) <==> !RepeatsStack(toks, options, options))
  {
    ExprScan(toks, options, options);
  }
}
