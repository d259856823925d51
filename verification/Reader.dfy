/** The table read as a recursive descent: what each rule, opened on the tokens that are
    left, derives and what it leaves. `level` counts the brackets around the point reached. */
module Reader {
  import opened Strings
  import opened Ports
  import opened Numeric
  import opened Tokens
  import opened Choices
  import opened Derivations

  datatype Parsed<+T> = Fail | Got(tree: T, rest: seq<Token>)

  /** A bracket inside `level` others is an atom `4 * level + 5` rules deep. */
  predicate Refuses(mode: Mode, level: nat) {
    mode.maxDepth.Some? && mode.maxDepth.value < 4 * level + 5
  }

  /** A bracket around alternatives read, closed by its mate if that is next. */
  function Enclosed(open: Token, inner: Parsed<Alts>): (p: Parsed<Atom>)
    ensures p.Got? ==> inner.Got? && |p.rest| <= |inner.rest|
  {
    match inner
    case Fail => Fail
    case Got(alts, left) =>
      if |left| > 0 && Mates(open.kind, left[0].kind) then Got(Bracket(open, alts, Some(left[0])), left[1..])
      else Got(Bracket(open, alts, None), left)
  }

  function ReadAtom(mode: Mode, level: nat, rest: seq<Token>): (p: Parsed<Atom>)
    ensures p.Got? ==> |p.rest| < |rest|
    decreases |rest|, 0
  {
    if (Is(rest, 0, SS) || Is(rest, 0, SI)) && Is(rest, 1, ST) then Got(Marked(rest[0], rest[1]), rest[2..])
    else if Is(rest, 0, ST) || Is(rest, 0, PV) || Is(rest, 0, TX) then Got(Simple(rest[0]), rest[1..])
    else if Is(rest, 0, NV) then
      if DecodeFor(mode.port, rest[0].src).Some? then Got(Simple(rest[0]), rest[1..]) else Fail
    else if (Is(rest, 0, LP) || Is(rest, 0, OB)) && !Refuses(mode, level) then
      ReadBracket(mode, level, rest[0], rest[1..])
    else Fail
  }

  /** What follows an opened bracket: its alternatives, and its mate if that is next. */
  function ReadBracket(mode: Mode, level: nat, open: Token, rest: seq<Token>): (p: Parsed<Atom>)
    ensures p.Got? ==> |p.rest| <= |rest|
    decreases |rest|, 5
  {
    Enclosed(open, ReadAlts(mode, level + 1, rest))
  }

  /** The repetition prefix an element opens with. */
  function ReadCount(rest: seq<Token>): (c: (Count, nat))
    ensures c.1 <= |rest|
    ensures CountOk(c.0) && CountOnto(c.0, rest[c.1..]) == rest
  {
    if Is(rest, 0, NUM) && Is(rest, 1, STAR) && Is(rest, 2, NUM) && AtomAt(rest, 3) then
      (Between(rest[0], rest[1], rest[2]), 3)
    else if Is(rest, 0, NUM) && Is(rest, 1, STAR) && AtomAt(rest, 2) then (AtLeast(rest[0], rest[1]), 2)
    else if Is(rest, 0, STAR) && Is(rest, 1, NUM) && AtomAt(rest, 2) then (AtMost(rest[0], rest[1]), 2)
    else if Is(rest, 0, STAR) && AtomAt(rest, 1) then (Any(rest[0]), 1)
    else if Is(rest, 0, NUM) && AtomAt(rest, 1) then (Exactly(rest[0]), 1)
    else (One, 0)
  }

  function ReadElement(mode: Mode, level: nat, rest: seq<Token>): (p: Parsed<Element>)
    ensures p.Got? ==> |p.rest| < |rest|
    decreases |rest|, 1
  {
    var (count, n) := ReadCount(rest);
    match ReadAtom(mode, level, rest[n..])
    case Fail => Fail
    case Got(atom, left) => Got(Element(count, atom), left)
  }

  /** The rest of a sequence, after an element. */
  function ReadMore(mode: Mode, level: nat, rest: seq<Token>): (p: Parsed<Seq>)
    ensures p.Got? ==> |p.rest| <= |rest|
    decreases |rest|, 3
  {
    if SeqStops(rest) || !Starts(rest) then Got(Empty, rest) else ReadSome(mode, level, rest)
  }

  function ReadSome(mode: Mode, level: nat, rest: seq<Token>): (p: Parsed<Seq>)
    ensures p.Got? ==> |p.rest| <= |rest|
    decreases |rest|, 2
  {
    match ReadElement(mode, level, rest)
    case Fail => Fail
    case Got(e, left) =>
      match ReadMore(mode, level, left)
      case Fail => Fail
      case Got(more, end) => Got(Then(e, more), end)
  }

  /** A sequence; before its first element, a token that starts none is an error. */
  function ReadSeq(mode: Mode, level: nat, rest: seq<Token>): (p: Parsed<Seq>)
    ensures p.Got? ==> |p.rest| <= |rest|
    decreases |rest|, 3
  {
    if SeqStops(rest) then Got(Empty, rest) else ReadSome(mode, level, rest)
  }

  function ReadAlts(mode: Mode, level: nat, rest: seq<Token>): (p: Parsed<Alts>)
    ensures p.Got? ==> |p.rest| <= |rest|
    decreases |rest|, 4
  {
    match ReadSeq(mode, level, rest)
    case Fail => Fail
    case Got(s, left) =>
      if Is(left, 0, ALT) then
        match ReadAlts(mode, level, left[1..])
        case Fail => Fail
        case Got(more, end) => Got(Or(s, left[0], more), end)
      else Got(Only(s), left)
  }

  /** Productions, as long as a header stands next. */
  function ReadProductions(mode: Mode, rest: seq<Token>): (p: Parsed<seq<Production>>)
    ensures p.Got? ==> |p.rest| <= |rest|
    decreases |rest|
  {
    if !AtHeader(rest) then Got([], rest)
    else
      match ReadAlts(mode, 0, rest[2..])
      case Fail => Fail
      case Got(alts, left) =>
        match ReadProductions(mode, left)
        case Fail => Fail
        case Got(more, end) => Got([Production(rest[0], rest[1], alts)] + more, end)
  }

  /** A whole source: nothing may be left of it. */
  function ReadAll(mode: Mode, tokens: seq<Token>): Option<seq<Production>> {
    match ReadProductions(mode, tokens)
    case Fail => None
    case Got(ps, left) => if left == [] then Some(ps) else None
  }
}
