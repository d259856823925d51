/** The tokens the lexer hands the meta-grammar, and the spans copied off them. */
module Tokens {
  import opened Strings
  import opened Numeric

  /** Token kinds, named as in the source. `Other` is any token no alternate lists;
      the end of the source is the end of the token sequence. */
  datatype Kind =
    | DEF | DEFA | ALT | STAR | NUM | NV | SS | SI | LP | RP | OB | CB | PV | TX | ST | Other

  datatype Token = Token(kind: Kind, src: string, val: string, at: nat, len: nat, row: nat, col: nat)

  datatype Span = Span(s: nat, e: nat, r: nat, c: nat)

  function SpanOf(t: Token): Span {
    Span(t.at, t.at + t.len, t.row, t.col)
  }

  /** One span over two tokens, and over the one that is there when the other is not. */
  function SpanTo(from: Option<Token>, to: Option<Token>): Option<Span> {
    match (from, to)
    case (None, None) => None
    case (Some(a), None) => Some(SpanOf(a))
    case (None, Some(b)) => Some(SpanOf(b))
    case (Some(a), Some(b)) => Some(Span(a.at, b.at + b.len, a.row, a.col))
  }

  /** The tokens that can open an atom, the `ATOM` token set. */
  predicate OpensAtom(k: Kind) {
    k == ST || k == NV || k == TX || k == LP || k == OB || k == SS || k == SI || k == PV
  }

  /** Whether the token at `i` is there and of kind `k`. */
  predicate Is(rest: seq<Token>, i: nat, k: Kind) {
    i < |rest| && rest[i].kind == k
  }

  predicate AtomAt(rest: seq<Token>, i: nat) {
    i < |rest| && OpensAtom(rest[i].kind)
  }

  /** What is left when `n` tokens are read; reading at the end stays at the end. */
  function Drop(rest: seq<Token>, n: nat): seq<Token> {
    if n <= |rest| then rest[n..] else []
  }

  /** The count a `#NUM` token holds, `parseInt(src, 10)` on a run of digits. */
  function CountOf(t: Token): nat {
    match ParseInt(t.src, 10)
    case Some(n) => n
    case None => 0
  }

  /** The text between a prose token's angle brackets, `src.slice(1, -1)`. */
  function ProseText(t: Token): string {
    if |t.src| < 2 then "" else t.src[1..|t.src| - 1]
  }
}
