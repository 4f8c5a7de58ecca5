/** The pattern trees of docopt: what a usage text is parsed into, what argv is matched against. */
module Patterns {

  /** The tagged union of docopt_value.h. */
  datatype Value =
    | Empty
    | Bool(truth: bool)
    | Long(number: int)
    | Str(text: string)
    | StrList(texts: seq<string>)

  /** The values that add up over matches: a counter or a list. */
  predicate Accumulates(v: Value) {
    v.Long? || v.StrList?
  }

  /** The three leaf classes with the fields they are built from. */
  datatype LeafDef =
    | Argument(argName: string, argValue: Value)
    | Command(cmdName: string, cmdValue: Value)
    | Option(short: string, long: string, argcount: nat, optValue: Value)
  {
    function Name(): string {
      match this
      case Argument(n, _) => n
      case Command(n, _) => n
      case Option(s, l, _, _) => if l == "" then s else l
    }

    function GetValue(): Value {
      match this
      case Argument(_, v) => v
      case Command(_, v) => v
      case Option(_, _, _, v) => v
    }

    function SetValue(v: Value): LeafDef {
      match this
      case Argument(n, _) => Argument(n, v)
      case Command(n, _) => Command(n, v)
      case Option(s, l, a, _) => Option(s, l, a, v)
    }
  }

  /** A tree over leaves of type `L`: leaf definitions, or handles of shared leaf objects. */
  datatype Pattern<L> =
    | Leaf(leaf: L)
    | Required(children: seq<Pattern<L>>)
    | Optional(children: seq<Pattern<L>>)
    | OptionsShortcut(children: seq<Pattern<L>>)
    | OneOrMore(children: seq<Pattern<L>>)
    | Either(children: seq<Pattern<L>>)
}
