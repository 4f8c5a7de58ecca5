/** Long and short options, as both the usage text and argv spell them: `parse_long` and `parse_short`. */
module OptionParsing {
  import opened Patterns

  /** A language error, an option error, or `pop` on an exhausted token list. */
  datatype Error = LanguageError | OptionError | OutOfRange

  /** What was parsed, the tokens left over, and the option table, which unknown options join. */
  datatype Parse =
    | Done(found: seq<LeafDef>, rest: seq<string>, options: seq<LeafDef>)
    | Fail(error: Error)

  predicate StartsWith(s: string, prefix: string) {
    prefix <= s
  }

  /** `current()`: the empty string when there is no token. */
  function Current(toks: seq<string>): string {
    if toks == [] then "" else toks[0]
  }

  /** An option as its constructor makes it: one that takes an argument starts without a value. */
  function NewOption(short: string, long: string, argcount: nat): LeafDef {
    Option(short, long, argcount, if argcount > 0 then Empty else Bool(false))
  }

  function WithShort(options: seq<LeafDef>, name: string): (r: seq<LeafDef>)
    ensures |r| <= |options|
    ensures forall k :: 0 <= k < |r| ==> r[k].Option? && r[k].short == name
  {
    if options == [] then [] else
    (if options[0].Option? && options[0].short == name then [options[0]] else []) + WithShort(options[1..], name)
  }

  function WithLong(options: seq<LeafDef>, name: string): (r: seq<LeafDef>)
    ensures forall k :: 0 <= k < |r| ==> r[k].Option? && r[k].long == name
  {
    if options == [] then [] else
    (if options[0].Option? && options[0].long == name then [options[0]] else []) + WithLong(options[1..], name)
  }

  function WithLongPrefix(options: seq<LeafDef>, name: string): (r: seq<LeafDef>)
    ensures forall k :: 0 <= k < |r| ==> r[k].Option? && r[k].long != "" && StartsWith(r[k].long, name)
  {
    if options == [] then [] else
    (if options[0].Option? && options[0].long != "" && StartsWith(options[0].long, name) then [options[0]] else [])
    + WithLongPrefix(options[1..], name)
  }

  /** In argv an option gets its value, `true` when it takes none; in a usage text it keeps its own. */
  function Valued(o: LeafDef, val: Value, argv: bool): LeafDef {
    if argv then o.SetValue(if val.Empty? then Bool(true) else val) else o
  }

  /** An option as argv gives it: with its argument, or `true` if it takes none. */
  predicate IsGiven(o: LeafDef) {
    o.Option? && if o.argcount == 0 then o.GetValue() == Bool(true) else o.GetValue().Str?
  }

  // ---------- parse_short ----------

  /** The options of a stack of short option characters; `rest` are the tokens after it. */
  function ParseShorts(chars: string, rest: seq<string>, options: seq<LeafDef>, argv: bool): (r: Parse)
    ensures r.Done? ==> |r.rest| <= |rest| && forall o <- r.found :: o.Option?
    decreases |chars|
  {
    if chars == "" then Done([], rest, options) else
    var name := ['-', chars[0]];
    var similar := WithShort(options, name);
    if |similar| > 1 then Fail(OptionError)
    else if similar == [] then
      var o := NewOption(name, "", 0);
      Then(Valued(o, Empty, argv), ParseShorts(chars[1..], rest, options + [o], argv))
    else if similar[0].argcount == 0 then
      Then(Valued(similar[0], Empty, argv), ParseShorts(chars[1..], rest, options, argv))
    else if |chars| > 1 then
      Done([Valued(similar[0], Str(chars[1..]), argv)], rest, options)
    else if Current(rest) == "" || Current(rest) == "--" then Fail(OptionError)
    else Done([Valued(similar[0], Str(rest[0]), argv)], rest[1..], options)
  }

  function Then(o: LeafDef, r: Parse): Parse {
    if r.Done? then r.(found := [o] + r.found) else r
  }

  function ParseShort(toks: seq<string>, options: seq<LeafDef>, argv: bool): (r: Parse)
    requires toks != [] && StartsWith(toks[0], "-")
    ensures r.Done? ==> |r.rest| < |toks| && forall o <- r.found :: o.Option?
  {
    ParseShorts(toks[0][1..], toks[1..], options, argv)
  }

  // ---------- parse_long ----------

  /** The position of the first `=`, or the length. */
  function EqualSign(s: string): (i: nat)
    ensures i <= |s| && (i < |s| ==> s[i] == '=') && forall k :: 0 <= k < i ==> s[k] != '='
  {
    if s == "" || s[0] == '=' then 0 else 1 + EqualSign(s[1..])
  }

  function ParseLong(toks: seq<string>, options: seq<LeafDef>, argv: bool): (r: Parse)
    requires toks != []
    ensures r.Done? ==> |r.rest| < |toks| && forall o <- r.found :: o.Option?
  {
    var i := EqualSign(toks[0]);
    var long, rest := toks[0][..i], toks[1..];
    var val := if i < |toks[0]| then Str(toks[0][i + 1..]) else Empty;
    var exact := WithLong(options, long);
    var similar := if argv && exact == [] then WithLongPrefix(options, long) else exact;
    if |similar| > 1 then Fail(OptionError)
    else if similar == [] then
      var o := NewOption("", long, if val.Empty? then 0 else 1);
      Done([Valued(o, val, argv)], rest, options + [o])
    else if similar[0].argcount == 0 then
      if !val.Empty? then Fail(OptionError) else Done([Valued(similar[0], Empty, argv)], rest, options)
    else if !val.Empty? then Done([Valued(similar[0], val, argv)], rest, options)
    else if Current(rest) == "" || Current(rest) == "--" then Fail(OptionError)
    else Done([Valued(similar[0], Str(rest[0]), argv)], rest[1..], options)
  }

  // ---------- Options are given with what they take ----------

  lemma {:induction false} ShortsGiven(chars: string, rest: seq<string>, options: seq<LeafDef>)
    requires ParseShorts(chars, rest, options, true).Done?
    ensures forall o <- ParseShorts(chars, rest, options, true).found :: IsGiven(o)
    decreases |chars|
  {
    if chars != "" {
      var name := ['-', chars[0]];
      var similar := WithShort(options, name);
      if similar == [] {
        ShortsGiven(chars[1..], rest, options + [NewOption(name, "", 0)]);
      } else if similar[0].argcount == 0 {
        ShortsGiven(chars[1..], rest, options);
      }
    }
  }

  lemma LongGiven(toks: seq<string>, options: seq<LeafDef>)
    requires toks != [] && ParseLong(toks, options, true).Done?
    ensures forall o <- ParseLong(toks, options, true).found :: IsGiven(o)
  {}

  // ---------- Parsing looks at no more than it takes ----------

  lemma {:induction false} ParseShortsLocal(
    chars: string, rest: seq<string>, more: seq<string>, options: seq<LeafDef>, argv: bool)
    requires ParseShorts(chars, rest, options, argv).Done?
    ensures var r := ParseShorts(chars, rest, options, argv);
            ParseShorts(chars, rest + more, options, argv) == r.(rest := r.rest + more)
    decreases |chars|
  {
    if chars != "" {
      var name := ['-', chars[0]];
      var similar := WithShort(options, name);
      if similar == [] {
        ParseShortsLocal(chars[1..], rest, more, options + [NewOption(name, "", 0)], argv);
      } else if similar[0].argcount == 0 {
        ParseShortsLocal(chars[1..], rest, more, options, argv);
      } else if |chars| == 1 {
        assert (rest + more)[1..] == rest[1..] + more;
      }
    }
  }

  lemma ParseLongLocal(toks: seq<string>, more: seq<string>, options: seq<LeafDef>, argv: bool)
    requires toks != [] && ParseLong(toks, options, argv).Done?
    ensures var r := ParseLong(toks, options, argv);
            ParseLong(toks + more, options, argv) == r.(rest := r.rest + more)
  {
    assert (toks + more)[0] == toks[0] && (toks + more)[1..] == toks[1..] + more;
    if toks[1..] != [] { assert (toks[1..] + more)[1..] == toks[1..][1..] + more; }
  }
}
