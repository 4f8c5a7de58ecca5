/**
 The usage grammar: `parse_atom`, `parse_seq` and `parse_expr`, and what trees they can make. The trees
 made from tokens without options are exactly the canonical ones, and printing undoes parsing.
 */
module UsageParsing {
  import opened Sequences
  import opened Patterns
  import opened OptionParsing

  type Tree = Pattern<LeafDef>

  datatype Trees =
    | Parsed(trees: seq<Tree>, rest: seq<string>, options: seq<LeafDef>)
    | Failed(error: Error)

  predicate IsUpper(c: char) {
    'A' <= c <= 'Z'
  }

  /** `<...>`, or upper-case letters only. */
  predicate IsArgumentSpec(token: string) {
    token != "" && ((token[0] == '<' && token[|token| - 1] == '>') || forall c <- token :: IsUpper(c))
  }

  predicate Stops(toks: seq<string>) {
    toks == [] || toks[0] == "]" || toks[0] == ")" || toks[0] == "|"
  }

  predicate IsOption(token: string) {
    StartsWith(token, "-") && token != "-" && token != "--"
  }

  function Leaves(found: seq<LeafDef>): (r: seq<Tree>)
    ensures |r| == |found| && forall k :: 0 <= k < |r| ==> r[k] == Leaf(found[k])
  {
    seq(|found|, k requires 0 <= k < |found| => Leaf(found[k]))
  }

  function FromOptions(p: Parse): Trees {
    if p.Fail? then Failed(p.error) else Parsed(Leaves(p.found), p.rest, p.options)
  }

  function ParseAtom(toks: seq<string>, options: seq<LeafDef>): (r: Trees)
    requires toks != []
    ensures r.Parsed? ==> |r.rest| < |toks|
    decreases |toks|, 0
  {
    var token, after := toks[0], toks[1..];
    if token == "[" then
      Close(ParseExpr(after, options), "]")
    else if token == "(" then
      Close(ParseExpr(after, options), ")")
    else if token == "options" then Parsed([OptionsShortcut([])], after, options)
    else if IsOption(token) then
      FromOptions(if StartsWith(token, "--") then ParseLong(toks, options, false) else ParseShort(toks, options, false))
    else Parsed([Leaf(if IsArgumentSpec(token) then Argument(token, Empty) else Command(token, Bool(false)))], after,
                options)
  }

  /**
   A word of a usage text is an argument if it is in angle brackets, or in capital letters only, and a command
   otherwise, dashes on their own included; neither has a value yet.
   */
  lemma WordIs(w: string, post: seq<string>, options: seq<LeafDef>)
    requires w !in ["[", "(", "options"] && (!StartsWith(w, "-") || w == "-" || w == "--")
    ensures var r := ParseAtom([w] + post, options);
            && r.Parsed? && r.rest == post && r.options == options
            && (if (exists inner :: w == "<" + inner + ">") || (w != "" && forall c <- w :: 'A' <= c <= 'Z')
                then r.trees == [Leaf(Argument(w, Empty))]
                else r.trees == [Leaf(Command(w, Bool(false)))])
  {
    var toks := [w] + post;
    assert toks[0] == w && toks[1..] == post;
    if |w| >= 2 && w[0] == '<' && w[|w| - 1] == '>' { assert w == "<" + w[1..|w| - 1] + ">"; }
  }

  /** The closing bracket of a group, and the group. */
  function Close(r: Trees, bracket: string): (r': Trees)
    ensures r'.Parsed? ==> r.Parsed? && |r'.rest| < |r.rest|
  {
    if r.Failed? then r
    else if r.rest == [] then Failed(OutOfRange)
    else if r.rest[0] != bracket then Failed(LanguageError)
    else Parsed([if bracket == "]" then Optional(r.trees) else Required(r.trees)], r.rest[1..], r.options)
  }

  function Prepend(trees: seq<Tree>, r: Trees): Trees {
    if r.Parsed? then r.(trees := trees + r.trees) else r
  }

  function ParseSeq(toks: seq<string>, options: seq<LeafDef>): (r: Trees)
    ensures r.Parsed? ==> |r.rest| <= |toks| && Stops(r.rest)
    decreases |toks|, 1
  {
    if Stops(toks) then Parsed([], toks, options) else
    var atom := ParseAtom(toks, options);
    if atom.Failed? then atom
    else if Current(atom.rest) == "..." then Prepend([OneOrMore(atom.trees)], ParseSeq(atom.rest[1..], atom.options))
    else Prepend(atom.trees, ParseSeq(atom.rest, atom.options))
  }

  function Collapse(trees: seq<Tree>): Tree {
    if |trees| == 1 then trees[0] else Required(trees)
  }

  /** The alternatives that follow, each behind its bar. */
  function ParseAlternatives(toks: seq<string>, options: seq<LeafDef>): (r: Trees)
    requires Stops(toks)
    ensures r.Parsed? ==> |r.rest| <= |toks| && Stops(r.rest) && Current(r.rest) != "|"
    decreases |toks|, 2
  {
    if Current(toks) != "|" then Parsed([], toks, options) else
    var s := ParseSeq(toks[1..], options);
    if s.Failed? then s else Prepend([Collapse(s.trees)], ParseAlternatives(s.rest, s.options))
  }

  function ParseExpr(toks: seq<string>, options: seq<LeafDef>): (r: Trees)
    ensures r.Parsed? ==> |r.rest| <= |toks| && Stops(r.rest) && Current(r.rest) != "|"
    decreases |toks|, 3
  {
    var s := ParseSeq(toks, options);
    if s.Failed? || Current(s.rest) != "|" then s else
    var more := ParseAlternatives(s.rest, s.options);
    if more.Failed? then more else more.(trees := [CollapseEither([Collapse(s.trees)] + more.trees)])
  }

  function CollapseEither(trees: seq<Tree>): Tree {
    if |trees| == 1 then trees[0] else Either(trees)
  }

  // ---------- Canonical trees ----------

  /** Tokens that `parse_atom` turns into a command or an argument. */
  predicate IsWord(token: string) {
    token != "[" && token != "(" && token != "options" && !IsOption(token)
    && token != "]" && token != ")" && token != "|"
  }

  /** What one atom can be: a word, a group of an expression, or the options shortcut. */
  ghost predicate IsAtom(p: Tree)
    decreases p, 0
  {
    match p
    case Leaf(Argument(n, v)) => v == Empty && IsWord(n) && IsArgumentSpec(n)
    case Leaf(Command(n, v)) => v == Bool(false) && IsWord(n) && !IsArgumentSpec(n)
    case Required(ps) => IsExpr(ps)
    case Optional(ps) => IsExpr(ps)
    case OptionsShortcut(ps) => ps == []
    case _ => false
  }

  ghost predicate IsItem(p: Tree)
    decreases p, 1
  {
    if p.OneOrMore? then |p.children| == 1 && IsAtom(p.children[0]) else IsAtom(p)
  }

  /** The first token an item is written with. */
  function FirstToken(p: Tree): string {
    match p
    case Leaf(l) => l.Name()
    case Required(_) => "("
    case Optional(_) => "["
    case OneOrMore(ps) => if ps == [] then "" else FirstToken(ps[0])
    case _ => "options"
  }

  /** Items in a row; a command spelled `...` would be read as a repetition unless one stands before it already. */
  ghost predicate IsItems(ps: seq<Tree>)
    decreases ps, 2
  {
    ps == [] || (
      && IsItem(ps[0]) && IsItems(ps[1..])
      && (|ps| > 1 && FirstToken(ps[1]) == "..." ==> ps[0].OneOrMore?))
  }

  ghost predicate AreItems(ps: seq<Tree>)
    decreases ps, 2
  {
    ps == [] || (IsItem(ps[0]) && AreItems(ps[1..]))
  }

  /** An expression: items in a row, or one `Either` of at least two items. */
  ghost predicate IsExpr(ps: seq<Tree>)
    decreases ps, 3
  {
    IsItems(ps) || (|ps| == 1 && ps[0].Either? && |ps[0].children| >= 2 && AreItems(ps[0].children))
  }

  // ---------- Printing ----------

  /** A tree as the tokens of a usage text. */
  function Print(p: Tree): seq<string>
    decreases p, 1
  {
    match p
    case Leaf(l) => [l.Name()]
    case Required(ps) => ["("] + PrintAll(ps) + [")"]
    case Optional(ps) => ["["] + PrintAll(ps) + ["]"]
    case OptionsShortcut(_) => ["options"]
    case OneOrMore(ps) => PrintAll(ps) + ["..."]
    case Either(ps) => if ps == [] then [] else Print(ps[0]) + PrintBars(ps[1..])
  }

  function PrintAll(ps: seq<Tree>): seq<string>
    decreases ps, 0
  {
    if ps == [] then [] else Print(ps[0]) + PrintAll(ps[1..])
  }

  function PrintBars(ps: seq<Tree>): seq<string>
    decreases ps, 0
  {
    if ps == [] then [] else ["|"] + Print(ps[0]) + PrintBars(ps[1..])
  }

  lemma PrintOne(p: Tree)
    ensures PrintAll([p]) == Print(p)
  {
    assert [p][1..] == [];
  }

  /** An item starts with its first token, which does not end a sequence. */
  lemma {:induction false} PrintStarts(p: Tree, rest: seq<string>)
    requires IsItem(p)
    ensures Print(p) != [] && Print(p)[0] == FirstToken(p) && !Stops(Print(p) + rest)
    decreases p
  {
    if p.OneOrMore? {
      PrintOne(p.children[0]);
      PrintStarts(p.children[0], ["..."] + rest);
      assert p.children == [p.children[0]];
    }
  }

  // ---------- Parsing undoes printing ----------

  lemma {:induction false} AtomBack(p: Tree, rest: seq<string>, options: seq<LeafDef>)
    requires IsAtom(p)
    ensures Print(p) + rest != [] && ParseAtom(Print(p) + rest, options) == Parsed([p], rest, options)
    decreases p, 0
  {
    match p
    case Leaf(l) => Head(l.Name(), rest);
    case Required(ps) => GroupBack("(", ps, ")", rest, options);
    case Optional(ps) => GroupBack("[", ps, "]", rest, options);
    case OptionsShortcut(ps) => Head("options", rest);
  }

  lemma {:induction false} GroupBack(
    open: string, ps: seq<Tree>, close: string, rest: seq<string>, options: seq<LeafDef>)
    requires IsExpr(ps) && ((open == "(" && close == ")") || (open == "[" && close == "]"))
    ensures var toks := [open] + PrintAll(ps) + [close] + rest;
            ParseAtom(toks, options) == Parsed([if close == "]" then Optional(ps) else Required(ps)], rest, options)
    decreases ps, 4
  {
    var toks := [open] + PrintAll(ps) + [close] + rest;
    var after := PrintAll(ps) + ([close] + rest);
    assert toks == [open] + after;
    Head(open, after);
    Head(close, rest);
    ExprBack(ps, [close] + rest, options);
  }

  /** One item in front of tokens that do not start with an ellipsis, unless it ends with one itself. */
  lemma {:induction false} ItemBack(p: Tree, rest: seq<string>, options: seq<LeafDef>)
    requires IsItem(p) && (Current(rest) == "..." ==> p.OneOrMore?)
    ensures ParseSeq(Print(p) + rest, options) == Prepend([p], ParseSeq(rest, options))
    decreases p, 1
  {
    PrintStarts(p, rest);
    if p.OneOrMore? {
      var a := p.children[0];
      assert p.children == [a];
      PrintOne(a);
      ConcatAssoc(Print(a), ["..."], rest);
      Head("...", rest);
      AtomBack(a, ["..."] + rest, options);
    } else {
      AtomBack(p, rest, options);
    }
  }

  /** What follows an item does not turn it into a repetition. */
  lemma NoEllipsis(ps: seq<Tree>, rest: seq<string>)
    requires ps != [] && IsItems(ps) && Stops(rest)
    ensures Current(PrintAll(ps[1..]) + rest) == "..." ==> ps[0].OneOrMore?
  {
    if |ps| > 1 {
      var tail := PrintAll(ps[1..][1..]) + rest;
      PrintStarts(ps[1], tail);
      ConcatAssoc(Print(ps[1]), PrintAll(ps[1..][1..]), rest);
    } else {
      assert PrintAll(ps[1..]) + rest == rest;
    }
  }

  lemma PrintAllIs(ps: seq<Tree>, rest: seq<string>)
    requires ps != []
    ensures PrintAll(ps) + rest == Print(ps[0]) + (PrintAll(ps[1..]) + rest)
  {
    ConcatAssoc(Print(ps[0]), PrintAll(ps[1..]), rest);
  }

  lemma PrependIs(p: Tree, ps: seq<Tree>, rest: seq<string>, options: seq<LeafDef>)
    requires ps != [] && ps[0] == p
    ensures Prepend([p], Parsed(ps[1..], rest, options)) == Parsed(ps, rest, options)
  {
    assert [p] + ps[1..] == ps;
  }

  lemma {:induction false} ItemsBack(ps: seq<Tree>, rest: seq<string>, options: seq<LeafDef>)
    requires IsItems(ps) && Stops(rest)
    ensures ParseSeq(PrintAll(ps) + rest, options) == Parsed(ps, rest, options)
    decreases ps, 2
  {
    if ps == [] {
      assert PrintAll(ps) + rest == rest;
    } else {
      PrintAllIs(ps, rest);
      ItemsBack(ps[1..], rest, options);
      NoEllipsis(ps, rest);
      ItemBack(ps[0], PrintAll(ps[1..]) + rest, options);
      PrependIs(ps[0], ps, rest, options);
    }
  }

  lemma BarStep(toks: seq<string>, p: Tree, tail: seq<string>, options: seq<LeafDef>)
    requires Stops(tail) && ParseSeq(toks, options) == Parsed([p], tail, options)
    ensures Stops(["|"] + toks)
    ensures ParseAlternatives(["|"] + toks, options) == Prepend([p], ParseAlternatives(tail, options))
  {
    Head("|", toks);
  }

  lemma {:induction false} BarsBack(ps: seq<Tree>, rest: seq<string>, options: seq<LeafDef>)
    requires AreItems(ps) && Stops(rest) && Current(rest) != "|"
    ensures Stops(PrintBars(ps) + rest) && ParseAlternatives(PrintBars(ps) + rest, options) == Parsed(ps, rest, options)
    decreases ps, 2
  {
    if ps == [] {
      assert PrintBars(ps) + rest == rest;
    } else {
      var tail := PrintBars(ps[1..]) + rest;
      ConcatAssoc(["|"] + Print(ps[0]), PrintBars(ps[1..]), rest);
      ConcatAssoc(["|"], Print(ps[0]), tail);
      BarsBack(ps[1..], rest, options);
      SingleBack(ps[0], tail, options);
      BarStep(Print(ps[0]) + tail, ps[0], tail, options);
      assert [ps[0]] + ps[1..] == ps;
    }
  }

  /** An alternative is one item, and comes back as itself. */
  lemma {:induction false} SingleBack(p: Tree, rest: seq<string>, options: seq<LeafDef>)
    requires IsItem(p) && Stops(rest)
    ensures ParseSeq(Print(p) + rest, options) == Parsed([p], rest, options)
    decreases p, 2
  {
    ItemBack(p, rest, options);
    assert [p] + [] == [p];
  }

  /** Printing a canonical expression and parsing it gives the expression back, and leaves the rest untouched. */
  lemma {:induction false} ExprBack(ps: seq<Tree>, rest: seq<string>, options: seq<LeafDef>)
    requires IsExpr(ps) && Stops(rest) && Current(rest) != "|"
    ensures ParseExpr(PrintAll(ps) + rest, options) == Parsed(ps, rest, options)
    decreases ps, 3
  {
    if IsItems(ps) {
      ItemsBack(ps, rest, options);
    } else {
      assert ps == [ps[0]];
      PrintOne(ps[0]);
      EitherBack(ps[0].children, rest, options);
    }
  }

  /** A sequence and the alternatives after it are an `Either`. */
  lemma ExprIs(toks: seq<string>, p: Tree, tail: seq<string>, alts: seq<Tree>, rest: seq<string>, options: seq<LeafDef>)
    requires ParseSeq(toks, options) == Parsed([p], tail, options) && Stops(tail) && Current(tail) == "|" && alts != []
    requires ParseAlternatives(tail, options) == Parsed(alts, rest, options)
    ensures ParseExpr(toks, options) == Parsed([Either([p] + alts)], rest, options)
  {}

  lemma {:induction false} EitherBack(alts: seq<Tree>, rest: seq<string>, options: seq<LeafDef>)
    requires |alts| >= 2 && AreItems(alts) && Stops(rest) && Current(rest) != "|"
    ensures ParseExpr(Print(Either(alts)) + rest, options) == Parsed([Either(alts)], rest, options)
    decreases alts, 2
  {
    var tail := PrintBars(alts[1..]) + rest;
    PrintEither(alts, rest);
    BarsBack(alts[1..], rest, options);
    BarsStart(alts[1..], rest);
    SingleBack(alts[0], tail, options);
    ExprIs(Print(alts[0]) + tail, alts[0], tail, alts[1..], rest, options);
  }

  lemma PrintEither(alts: seq<Tree>, rest: seq<string>)
    requires alts != []
    ensures Print(Either(alts)) + rest == Print(alts[0]) + (PrintBars(alts[1..]) + rest)
    ensures [alts[0]] + alts[1..] == alts
  {
    ConcatAssoc(Print(alts[0]), PrintBars(alts[1..]), rest);
  }

  lemma BarsStart(ps: seq<Tree>, rest: seq<string>)
    requires ps != []
    ensures Current(PrintBars(ps) + rest) == "|"
  {}

  // ---------- The parser makes canonical trees only ----------

  ghost predicate OptionFree(toks: seq<string>) {
    forall k :: 0 <= k < |toks| ==> !IsOption(toks[k])
  }

  /** What parsing option-free tokens leaves alone. */
  ghost predicate Plain(r: Trees, options: seq<LeafDef>) {
    r.Parsed? ==> r.options == options && OptionFree(r.rest)
  }

  lemma {:induction false} AtomCanonical(toks: seq<string>, options: seq<LeafDef>)
    requires !Stops(toks) && OptionFree(toks)
    ensures var r := ParseAtom(toks, options);
            Plain(r, options) &&
            (r.Parsed? ==> |r.trees| == 1 && IsAtom(r.trees[0]) && FirstToken(r.trees[0]) == toks[0])
    decreases |toks|, 0
  {
    if toks[0] == "[" || toks[0] == "(" { ExprCanonical(toks[1..], options); }
  }

  lemma {:induction false} SeqCanonical(toks: seq<string>, options: seq<LeafDef>)
    requires OptionFree(toks)
    ensures var r := ParseSeq(toks, options);
            && Plain(r, options)
            && (r.Parsed? ==> IsItems(r.trees) && (r.trees != [] ==> toks != [] && FirstToken(r.trees[0]) == toks[0]))
    decreases |toks|, 1
  {
    if !Stops(toks) {
      AtomCanonical(toks, options);
      var atom := ParseAtom(toks, options);
      if atom.Parsed? {
        var more := Current(atom.rest) == "...";
        var rest := if more then atom.rest[1..] else atom.rest;
        SeqCanonical(rest, atom.options);
        var r := ParseSeq(rest, atom.options);
        if r.Parsed? { ItemsCons(if more then OneOrMore(atom.trees) else atom.trees[0], r.trees); }
        assert !more ==> atom.trees == [atom.trees[0]];
      }
    }
  }

  lemma ItemsCons(p: Tree, ps: seq<Tree>)
    requires IsItem(p) && IsItems(ps) && (ps != [] && FirstToken(ps[0]) == "..." ==> p.OneOrMore?)
    ensures IsItems([p] + ps)
  {
    Head(p, ps);
  }

  lemma {:induction false} ItemsAreItems(ps: seq<Tree>)
    requires IsItems(ps)
    ensures AreItems(ps)
  {
    if ps != [] { ItemsAreItems(ps[1..]); }
  }

  lemma CollapseCanonical(trees: seq<Tree>)
    requires IsItems(trees)
    ensures IsItem(Collapse(trees))
  {}

  lemma AreItemsCons(p: Tree, ps: seq<Tree>)
    requires IsItem(p) && AreItems(ps)
    ensures AreItems([p] + ps)
  {
    Head(p, ps);
  }

  lemma {:induction false} AlternativesCanonical(toks: seq<string>, options: seq<LeafDef>)
    requires Stops(toks) && OptionFree(toks)
    ensures var r := ParseAlternatives(toks, options);
            Plain(r, options) && (r.Parsed? ==> AreItems(r.trees) && (Current(toks) == "|" ==> r.trees != []))
    decreases |toks|, 2
  {
    if Current(toks) == "|" {
      SeqCanonical(toks[1..], options);
      var s := ParseSeq(toks[1..], options);
      if s.Parsed? {
        AlternativesCanonical(s.rest, s.options);
        CollapseCanonical(s.trees);
        var r := ParseAlternatives(s.rest, s.options);
        if r.Parsed? { AreItemsCons(Collapse(s.trees), r.trees); }
      }
    }
  }

  lemma {:induction false} ExprCanonical(toks: seq<string>, options: seq<LeafDef>)
    requires OptionFree(toks)
    ensures var r := ParseExpr(toks, options); Plain(r, options) && (r.Parsed? ==> IsExpr(r.trees))
    decreases |toks|, 3
  {
    SeqCanonical(toks, options);
    var s := ParseSeq(toks, options);
    if s.Parsed? && Current(s.rest) == "|" {
      AlternativesCanonical(s.rest, s.options);
      var more := ParseAlternatives(s.rest, s.options);
      CollapseCanonical(s.trees);
      if more.Parsed? { AreItemsCons(Collapse(s.trees), more.trees); }
    }
  }

  lemma SymbolsAreNotOptions()
    ensures !IsOption("options") && !IsOption("(") && !IsOption(")") && !IsOption("[") && !IsOption("]")
    ensures !IsOption("|") && !IsOption("...")
  {
    assert "options"[0] != '-' && "("[0] != '-' && ")"[0] != '-' && "["[0] != '-' && "]"[0] != '-' && "|"[0] != '-';
    assert "..."[0] != '-';
  }

  lemma {:induction false} PrintOptionFree(p: Tree)
    requires IsItem(p)
    ensures OptionFree(Print(p))
    decreases p, 4
  {
    SymbolsAreNotOptions();
    match p
    case Leaf(_) =>
    case Required(ps) => PrintAllOptionFree(ps);
    case Optional(ps) => PrintAllOptionFree(ps);
    case OptionsShortcut(_) =>
    case OneOrMore(ps) =>
      assert ps == [ps[0]];
      PrintOne(ps[0]);
      PrintOptionFree(ps[0]);
  }

  lemma {:induction false} PrintAllOptionFree(ps: seq<Tree>)
    requires IsExpr(ps)
    ensures OptionFree(PrintAll(ps))
    decreases ps, 4
  {
    if IsItems(ps) {
      if ps != [] {
        PrintOptionFree(ps[0]);
        PrintAllOptionFree(ps[1..]);
      }
    } else {
      assert ps == [ps[0]];
      PrintOne(ps[0]);
      PrintOptionFree(ps[0].children[0]);
      PrintBarsOptionFree(ps[0].children[1..]);
    }
  }

  lemma {:induction false} PrintBarsOptionFree(ps: seq<Tree>)
    requires AreItems(ps)
    ensures OptionFree(PrintBars(ps))
    decreases ps, 5
  {
    SymbolsAreNotOptions();
    if ps != [] {
      PrintOptionFree(ps[0]);
      PrintBarsOptionFree(ps[1..]);
    }
  }

  /** A list of trees is what some option-free usage text parses to exactly when it is canonical. */
  lemma CanonicalIsParsed(ps: seq<Tree>, options: seq<LeafDef>)
    ensures IsExpr(ps) <==> exists toks :: OptionFree(toks) && ParseExpr(toks, options) == Parsed(ps, [], options)
  {
    if IsExpr(ps) {
      ExprBack(ps, [], options);
      PrintAllOptionFree(ps);
      assert PrintAll(ps) + [] == PrintAll(ps);
    } else if toks :| OptionFree(toks) && ParseExpr(toks, options) == Parsed(ps, [], options) {
      ExprCanonical(toks, options);
      assert false;
    }
  }
}
