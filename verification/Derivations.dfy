/** Derivations as trees over tokens, of the grammar that stands over the table in the source
    (ts/src/converter.ts:133-143): a type for each of its rules, a constructor for each form.

    A production's name may also be prose before `=`, which the table takes and the comment does
    not say, and a bracket's closing token may be missing: what the table makes of an unclosed
    bracket is a derivation of everything but that token. */
module Derivations {
  import opened Strings
  import opened Ports
  import opened Numeric
  import opened Tokens
  import opened Ast
  import Unicode

  datatype Count =
    | One
    | Exactly(n: Token)
    | AtLeast(n: Token, star: Token)
    | AtMost(star: Token, n: Token)
    | Any(star: Token)
    | Between(n: Token, star: Token, m: Token)

  datatype Atom =
    | Simple(t: Token)
    | Marked(prefix: Token, t: Token)
    | Bracket(open: Token, alts: Alts, close: Option<Token>)

  datatype Element = Element(count: Count, atom: Atom)

  datatype Seq = Empty | Then(first: Element, more: Seq)

  datatype Alts = Only(head: Seq) | Or(head: Seq, slash: Token, more: Alts)

  datatype Production = Production(name: Token, op: Token, alts: Alts)

  // ---- what is a derivation

  predicate CountOk(c: Count) {
    match c
    case One => true
    case Exactly(n) => n.kind == NUM
    case AtLeast(n, star) => n.kind == NUM && star.kind == STAR
    case AtMost(star, n) => star.kind == STAR && n.kind == NUM
    case Any(star) => star.kind == STAR
    case Between(n, star, m) => n.kind == NUM && star.kind == STAR && m.kind == NUM
  }

  predicate Mates(open: Kind, close: Kind) {
    (open == LP && close == RP) || (open == OB && close == CB)
  }

  /** An atom of the grammar; a numeric value is one when it names code points. */
  predicate AtomOk(port: Port, a: Atom) {
    match a
    case Simple(t) => t.kind == TX || t.kind == ST || t.kind == PV || (t.kind == NV && DecodeFor(port, t.src).Some?)
    case Marked(prefix, t) => (prefix.kind == SS || prefix.kind == SI) && t.kind == ST
    case Bracket(open, alts, close) =>
      && (open.kind == LP || open.kind == OB)
      && (close.Some? ==> Mates(open.kind, close.value.kind))
      && AltsOk(port, alts)
  }

  predicate ElementOk(port: Port, e: Element) { CountOk(e.count) && AtomOk(port, e.atom) }

  predicate SeqOk(port: Port, s: Seq) {
    match s
    case Empty => true
    case Then(e, more) => ElementOk(port, e) && SeqOk(port, more)
  }

  predicate AltsOk(port: Port, a: Alts) {
    match a
    case Only(s) => SeqOk(port, s)
    case Or(s, slash, more) => SeqOk(port, s) && slash.kind == ALT && AltsOk(port, more)
  }

  predicate HeaderOk(name: Token, op: Token) {
    (name.kind == TX && (op.kind == DEF || op.kind == DEFA)) || (name.kind == PV && op.kind == DEF)
  }

  predicate ProductionOk(port: Port, p: Production) { HeaderOk(p.name, p.op) && AltsOk(port, p.alts) }

  predicate AllOk(port: Port, ps: seq<Production>) { forall p :: p in ps ==> ProductionOk(port, p) }

  // ---- whether every bracket is closed

  predicate AtomClosed(a: Atom) { a.Bracket? ==> a.close.Some? && AltsClosed(a.alts) }

  predicate SeqClosed(s: Seq) { s.Then? ==> AtomClosed(s.first.atom) && SeqClosed(s.more) }

  predicate AltsClosed(a: Alts) {
    match a
    case Only(s) => SeqClosed(s)
    case Or(s, _, more) => SeqClosed(s) && AltsClosed(more)
  }

  predicate AllClosed(ps: seq<Production>) { forall p :: p in ps ==> AltsClosed(p.alts) }

  /** A derivation of the grammar. */
  predicate Derivation(port: Port, ps: seq<Production>) { AllOk(port, ps) && AllClosed(ps) }

  /** One in which, as the comment has it, no production is named by prose. */
  predicate Strict(port: Port, ps: seq<Production>) {
    Derivation(port, ps) && forall p :: p in ps ==> p.name.kind == TX
  }

  // ---- how deep the brackets go

  function Max(a: nat, b: nat): nat { if a < b then b else a }

  function AtomNest(a: Atom): nat { if a.Bracket? then 1 + AltsNest(a.alts) else 0 }

  function SeqNest(s: Seq): nat {
    match s
    case Empty => 0
    case Then(e, more) => Max(AtomNest(e.atom), SeqNest(more))
  }

  function AltsNest(a: Alts): nat {
    match a
    case Only(s) => SeqNest(s)
    case Or(s, _, more) => Max(SeqNest(s), AltsNest(more))
  }

  predicate NestWithin(ps: seq<Production>, n: nat) { forall p :: p in ps ==> AltsNest(p.alts) <= n }

  // ---- the tokens a derivation derives, in front of those that follow it

  function CountOnto(c: Count, rest: seq<Token>): seq<Token> {
    match c
    case One => rest
    case Exactly(n) => [n] + rest
    case AtLeast(n, star) => [n, star] + rest
    case AtMost(star, n) => [star, n] + rest
    case Any(star) => [star] + rest
    case Between(n, star, m) => [n, star, m] + rest
  }

  function AtomOnto(a: Atom, rest: seq<Token>): seq<Token> {
    match a
    case Simple(t) => [t] + rest
    case Marked(prefix, t) => [prefix, t] + rest
    case Bracket(open, alts, close) =>
      [open] + AltsOnto(alts, if close.Some? then [close.value] + rest else rest)
  }

  function ElementOnto(e: Element, rest: seq<Token>): seq<Token> {
    CountOnto(e.count, AtomOnto(e.atom, rest))
  }

  function SeqOnto(s: Seq, rest: seq<Token>): seq<Token> {
    match s
    case Empty => rest
    case Then(e, more) => ElementOnto(e, SeqOnto(more, rest))
  }

  function AltsOnto(a: Alts, rest: seq<Token>): seq<Token> {
    match a
    case Only(s) => SeqOnto(s, rest)
    case Or(s, slash, more) => SeqOnto(s, [slash] + AltsOnto(more, rest))
  }

  function ProductionOnto(p: Production, rest: seq<Token>): seq<Token> {
    [p.name, p.op] + AltsOnto(p.alts, rest)
  }

  function Onto(ps: seq<Production>, rest: seq<Token>): seq<Token> {
    if ps == [] then rest else ProductionOnto(ps[0], Onto(ps[1..], rest))
  }

  /** The tokens a grammar's productions derive. */
  function Yield(ps: seq<Production>): seq<Token> { Onto(ps, []) }

  // ---- the tree a derivation builds

  function Bounds(c: Count): (nat, Bound) {
    match c
    case One => (1, Fin(1))
    case Exactly(n) => (CountOf(n), Fin(CountOf(n)))
    case AtLeast(n, _) => (CountOf(n), Unbounded)
    case AtMost(_, n) => (0, Fin(CountOf(n)))
    case Any(_) => (0, Unbounded)
    case Between(n, _, m) => (CountOf(n), Fin(CountOf(m)))
  }

  function SimpleLeaf(port: Port, t: Token): Leaf {
    match t.kind
    case ST => Term(Unicode.OfString(t.val), false)
    case PV => Prose(ProseText(t))
    case NV => (match DecodeFor(port, t.src) case Some(leaf) => leaf case None => Prose(""))
    case _ => Reference(t.val)
  }

  /** An atom's node; a bracket that was not closed leaves a hole. */
  function BuildAtom(port: Port, a: Atom): Elem {
    match a
    case Simple(t) => Lit(SimpleLeaf(port, t), SpanTo(Some(t), None))
    case Marked(prefix, t) =>
      Lit(Term(Unicode.OfString(t.val), prefix.kind == SS), SpanTo(Some(prefix), Some(t)))
    case Bracket(open, alts, close) =>
      if close.None? then Hole
      else
        var sp := SpanTo(Some(open), close);
        var group := Group(BuildAlts(port, alts), sp);
        if open.kind == LP then group else Wrapped(Opt, group, sp)
  }

  /** The repetition wrapper, which Go and Rust leave off a hole. */
  function BuildElement(port: Port, e: Element): Elem {
    var item := BuildAtom(port, e.atom);
    var (min, max) := Bounds(e.count);
    if item == Hole && !port.TypeScript? then Hole else Repeat(min, max, item)
  }

  function BuildSeq(port: Port, s: Seq): seq<Elem> {
    match s
    case Empty => []
    case Then(e, more) => [BuildElement(port, e)] + BuildSeq(port, more)
  }

  function BuildAlts(port: Port, a: Alts): seq<Sequence> {
    match a
    case Only(s) => [Sequence(BuildSeq(port, s))]
    case Or(s, _, more) => [Sequence(BuildSeq(port, s))] + BuildAlts(port, more)
  }

  function BuildProduction(port: Port, p: Production): Rule {
    Rule(if p.name.kind == PV then p.name.src else p.name.val,
         BuildAlts(port, p.alts), p.op.kind == DEFA, SpanTo(Some(p.name), None))
  }

  function Build(port: Port, ps: seq<Production>): seq<Rule> {
    seq(|ps|, i requires 0 <= i < |ps| => BuildProduction(port, ps[i]))
  }
}
