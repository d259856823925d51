/** The grammar IR the parser builds, with the hole an unclosed bracket leaves in it. */
module Ast {
  import opened Strings
  import opened Numeric
  import opened Tokens

  datatype Bound = Fin(n: nat) | Unbounded

  datatype Wrap = Opt | Star | Plus | Rep(min: nat, max: Bound)

  /** An element; `Hole` is the missing node of an atom that popped without one. */
  datatype Elem =
    | Hole
    | Lit(leaf: Leaf, sp: Option<Span>)
    | Wrapped(wrap: Wrap, inner: Elem, sp: Option<Span>)
    | Group(alts: seq<Sequence>, sp: Option<Span>)

  datatype Sequence = Sequence(items: seq<Elem>)

  datatype Rule = Rule(name: string, alts: seq<Sequence>, incremental: bool, sp: Option<Span>)

  /** `elem`'s close: the item itself for a count of one, and otherwise the wrapper its
      bounds name. */
  function Repeat(min: nat, max: Bound, item: Elem): Elem {
    if min == 1 && max == Fin(1) then item else Wrapped(WrapFor(min, max), item, None)
  }

  function WrapFor(min: nat, max: Bound): Wrap {
    if min == 0 && max == Unbounded then Star
    else if min == 1 && max == Unbounded then Plus
    else if min == 0 && max == Fin(1) then Opt
    else Rep(min, max)
  }
}
