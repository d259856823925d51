/** Where the nodes of a parse's tree stand in the text. */
module Spans {
  import opened Strings
  import opened Ports
  import opened Tokens
  import opened Ast
  import opened Derivations

  /** From where one token starts, in its row and column, to where another ends. */
  predicate Covers(sp: Option<Span>, first: Token, last: Token) {
    && sp.Some?
    && sp.value.s == first.at && sp.value.r == first.row && sp.value.c == first.col
    && sp.value.e == last.at + last.len
  }

  /** What a derivation derives stands in front of what follows it. */
  predicate InFront(ts: seq<Token>, rest: seq<Token>) {
    |ts| >= |rest| && ts[|ts| - |rest|..] == rest
  }

  lemma FrontOf(t: Token, ts: seq<Token>, rest: seq<Token>)
    requires InFront(ts, rest)
    ensures InFront([t] + ts, rest)
  {
    assert ([t] + ts)[|ts| + 1 - |rest|..] == ts[|ts| - |rest|..];
  }

  lemma Itself(rest: seq<Token>)
    ensures InFront(rest, rest)
  {
    assert rest[0..] == rest;
  }

  lemma FrontTrans(a: seq<Token>, b: seq<Token>, c: seq<Token>)
    requires InFront(a, b) && InFront(b, c)
    ensures InFront(a, c)
  {
    assert a[|a| - |c|..] == a[|a| - |b|..][|b| - |c|..];
  }

  lemma CountFront(c: Count, rest: seq<Token>)
    ensures InFront(CountOnto(c, rest), rest)
  {
    var ts := CountOnto(c, rest);
    assert ts[|ts| - |rest|..] == rest;
  }

  lemma {:induction false} AtomFront(a: Atom, rest: seq<Token>)
    ensures InFront(AtomOnto(a, rest), rest)
    decreases a, 0
  {
    match a
    case Simple(t) =>
      Itself(rest);
      FrontOf(t, rest, rest);
    case Marked(prefix, t) => assert ([prefix, t] + rest)[2..] == rest;
    case Bracket(open, alts, close) =>
      var inner := if close.Some? then [close.value] + rest else rest;
      assert inner[|inner| - |rest|..] == rest;
      AltsFront(alts, inner);
      FrontTrans(AltsOnto(alts, inner), inner, rest);
      FrontOf(open, AltsOnto(alts, inner), rest);
  }

  lemma {:induction false} SeqFront(s: Seq, rest: seq<Token>)
    ensures InFront(SeqOnto(s, rest), rest)
    decreases s, 0
  {
    match s
    case Empty => Itself(rest);
    case Then(e, more) =>
      var tail := SeqOnto(more, rest);
      var after := AtomOnto(e.atom, tail);
      SeqFront(more, rest);
      AtomFront(e.atom, tail);
      CountFront(e.count, after);
      assert SeqOnto(s, rest) == ElementOnto(e, tail) == CountOnto(e.count, after);
      FrontTrans(after, tail, rest);
      FrontTrans(SeqOnto(s, rest), after, rest);
  }

  lemma {:induction false} AltsFront(a: Alts, rest: seq<Token>)
    ensures InFront(AltsOnto(a, rest), rest)
    decreases a, 1
  {
    match a
    case Only(s) => SeqFront(s, rest);
    case Or(s, slash, more) =>
      AltsFront(more, rest);
      FrontOf(slash, AltsOnto(more, rest), rest);
      SeqFront(s, [slash] + AltsOnto(more, rest));
      FrontTrans(AltsOnto(a, rest), [slash] + AltsOnto(more, rest), rest);
  }

  /** The span of an atom's node. */
  function SpanAt(t: Elem): Option<Span> {
    match t
    case Hole => None
    case Lit(_, sp) => sp
    case Wrapped(_, _, sp) => sp
    case Group(_, sp) => sp
  }

  lemma LastKept(ts: seq<Token>, last: Token)
    requires InFront(ts, [last])
    ensures ts != [] && ts[|ts| - 1] == last
  {
    assert ts[|ts| - 1..][0] == ts[|ts| - 1];
  }

  /** A bracket's tokens start with the one that opens it and end with the one that closes it. */
  lemma BracketEnds(a: Atom)
    requires a.Bracket? && a.close.Some?
    ensures var ts := AtomOnto(a, []); ts != [] && ts[0] == a.open && ts[|ts| - 1] == a.close.value
  {
    var inner := AltsOnto(a.alts, [a.close.value]);
    AltsFront(a.alts, [a.close.value]);
    LastKept(inner, a.close.value);
    assert [a.close.value] + [] == [a.close.value];
    assert AtomOnto(a, []) == [a.open] + inner;
  }

  /** An atom's node stands from its first token's start to its last token's end, and so does the
      group inside a bracketed option. */
  lemma AtomSpan(port: Port, a: Atom)
    requires AtomOk(port, a) && (a.Bracket? ==> a.close.Some?)
    ensures var ts, node := AtomOnto(a, []), BuildAtom(port, a);
            && ts != [] && Covers(SpanAt(node), ts[0], ts[|ts| - 1])
            && (node.Wrapped? ==> Covers(SpanAt(node.inner), ts[0], ts[|ts| - 1]))
  {
    if a.Bracket? {
      BracketEnds(a);
    }
  }

  /** A production stands where its name does; a repetition written in front of an atom has no
      span of its own. */
  lemma ProductionSpan(port: Port, p: Production)
    ensures Covers(BuildProduction(port, p).sp, p.name, p.name)
    ensures forall e: Element ::
              BuildElement(port, e) == BuildAtom(port, e.atom) || SpanAt(BuildElement(port, e)) == None
  {
  }
}
