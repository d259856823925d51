/** What each port reads of the sources TypeScript reads: those whose numbers it decodes and
    whose brackets nest within its limit, the same way. */
module Porting {
  import opened Strings
  import opened Ports
  import opened Numeric
  import opened Tokens
  import opened Choices
  import opened Derivations
  import opened Reader
  import opened Grammar
  import opened Numerals

  // ---- what a mode keeps of what TypeScript reads

  predicate AtomKept(mode: Mode, level: nat, a: Atom)
    decreases a
  {
    match a
    case Simple(t) => t.kind == NV ==> DecodeFor(mode.port, t.src).Some?
    case Marked(_, _) => true
    case Bracket(_, alts, _) => !Refuses(mode, level) && AltsKept(mode, level + 1, alts)
  }

  predicate SeqKept(mode: Mode, level: nat, s: Seq)
    decreases s
  {
    s.Then? ==> AtomKept(mode, level, s.first.atom) && SeqKept(mode, level, s.more)
  }

  predicate AltsKept(mode: Mode, level: nat, a: Alts)
    decreases a
  {
    match a
    case Only(s) => SeqKept(mode, level, s)
    case Or(s, _, more) => SeqKept(mode, level, s) && AltsKept(mode, level, more)
  }

  predicate AllKept(mode: Mode, ps: seq<Production>) { forall p :: p in ps ==> AltsKept(mode, 0, p.alts) }

  lemma NumeralReads(mode: Mode, level: nat, rest: seq<Token>)
    requires Is(rest, 0, NV)
    ensures var p := ReadAtom(TYPESCRIPT, level, rest);
            ReadAtom(mode, level, rest) == if p.Got? && AtomKept(mode, level, p.tree) then p else Fail
  {
    Narrower(mode.port, rest[0].src);
  }

  lemma TerminalReads(mode: Mode, level: nat, rest: seq<Token>)
    requires !Is(rest, 0, LP) && !Is(rest, 0, OB) && !Is(rest, 0, NV)
    ensures var p := ReadAtom(TYPESCRIPT, level, rest);
            ReadAtom(mode, level, rest) == p && (p.Got? ==> AtomKept(mode, level, p.tree))
  {
  }

  lemma {:induction false} AtomReads(mode: Mode, level: nat, rest: seq<Token>)
    ensures var p := ReadAtom(TYPESCRIPT, level, rest);
            ReadAtom(mode, level, rest) == if p.Got? && AtomKept(mode, level, p.tree) then p else Fail
    decreases |rest|, 0
  {
    if Is(rest, 0, LP) || Is(rest, 0, OB) {
      OpensBracket(mode, level, rest);
      OpensBracket(TYPESCRIPT, level, rest);
      BracketReads(mode, level, rest[0], rest[1..]);
    } else if Is(rest, 0, NV) {
      NumeralReads(mode, level, rest);
    } else {
      TerminalReads(mode, level, rest);
    }
  }

  lemma OpensBracket(mode: Mode, level: nat, rest: seq<Token>)
    requires Is(rest, 0, LP) || Is(rest, 0, OB)
    ensures ReadAtom(mode, level, rest) ==
            if Refuses(mode, level) then Fail else ReadBracket(mode, level, rest[0], rest[1..])
  {
  }

  lemma {:induction false} BracketReads(mode: Mode, level: nat, open: Token, rest: seq<Token>)
    ensures var p := ReadBracket(TYPESCRIPT, level, open, rest);
            var kept := if p.Got? && AtomKept(mode, level, p.tree) then p else Fail;
            if Refuses(mode, level) then kept == Fail else ReadBracket(mode, level, open, rest) == kept
    decreases |rest|, 5
  {
    AltsReads(mode, level + 1, rest);
  }

  lemma {:induction false} ElementReads(mode: Mode, level: nat, rest: seq<Token>)
    ensures var p := ReadElement(TYPESCRIPT, level, rest);
            ReadElement(mode, level, rest) == if p.Got? && AtomKept(mode, level, p.tree.atom) then p else Fail
    decreases |rest|, 1
  {
    AtomReads(mode, level, rest[ReadCount(rest).1..]);
  }

  lemma {:induction false} SomeReads(mode: Mode, level: nat, rest: seq<Token>)
    ensures var p := ReadSome(TYPESCRIPT, level, rest);
            ReadSome(mode, level, rest) == if p.Got? && SeqKept(mode, level, p.tree) then p else Fail
    decreases |rest|, 2
  {
    ElementReads(mode, level, rest);
    match ReadElement(TYPESCRIPT, level, rest)
    case Fail =>
    case Got(e, left) => MoreReads(mode, level, left);
  }

  lemma {:induction false} MoreReads(mode: Mode, level: nat, rest: seq<Token>)
    ensures var p := ReadMore(TYPESCRIPT, level, rest);
            ReadMore(mode, level, rest) == if p.Got? && SeqKept(mode, level, p.tree) then p else Fail
    decreases |rest|, 3
  {
    if !SeqStops(rest) && Starts(rest) {
      SomeReads(mode, level, rest);
    }
  }

  lemma {:induction false} SeqReads(mode: Mode, level: nat, rest: seq<Token>)
    ensures var p := ReadSeq(TYPESCRIPT, level, rest);
            ReadSeq(mode, level, rest) == if p.Got? && SeqKept(mode, level, p.tree) then p else Fail
    decreases |rest|, 3
  {
    if !SeqStops(rest) {
      SomeReads(mode, level, rest);
    }
  }

  lemma {:induction false} AltsReads(mode: Mode, level: nat, rest: seq<Token>)
    ensures var p := ReadAlts(TYPESCRIPT, level, rest);
            ReadAlts(mode, level, rest) == if p.Got? && AltsKept(mode, level, p.tree) then p else Fail
    decreases |rest|, 4
  {
    SeqReads(mode, level, rest);
    match ReadSeq(TYPESCRIPT, level, rest)
    case Fail =>
    case Got(s, left) =>
      if Is(left, 0, ALT) {
        AltsReads(mode, level, left[1..]);
      }
  }

  lemma {:induction false} ProductionsRead(mode: Mode, rest: seq<Token>)
    ensures var p := ReadProductions(TYPESCRIPT, rest);
            ReadProductions(mode, rest) == if p.Got? && AllKept(mode, p.tree) then p else Fail
    decreases |rest|
  {
    if AtHeader(rest) {
      AltsReads(mode, 0, rest[2..]);
      match ReadAlts(TYPESCRIPT, 0, rest[2..])
      case Fail =>
      case Got(alts, left) =>
        ProductionsRead(mode, left);
        var p := ReadProductions(TYPESCRIPT, left);
        if p.Got? {
          KeptCons(mode, Production(rest[0], rest[1], alts), p.tree);
        }
    }
  }

  lemma KeptCons(mode: Mode, p: Production, ps: seq<Production>)
    ensures AllKept(mode, [p] + ps) <==> AltsKept(mode, 0, p.alts) && AllKept(mode, ps)
  {
    var all := [p] + ps;
    assert forall q :: q in all <==> q == p || q in ps;
    assert p in all;
  }

  // ---- which those are

  /** Every numeric value among the tokens names code points to a port. */
  predicate Decodes(port: Port, ts: seq<Token>) {
    forall t :: t in ts && t.kind == NV ==> DecodeFor(port, t.src).Some?
  }

  /** Whether brackets nested `nest` deep fit inside `level` others. */
  predicate Fits(mode: Mode, level: nat, nest: nat) {
    mode.maxDepth.None? || nest == 0 || 4 * (level + nest) + 1 <= mode.maxDepth.value
  }

  lemma DecodesCons(port: Port, t: Token, ts: seq<Token>)
    ensures Decodes(port, [t] + ts) <==> (t.kind == NV ==> DecodeFor(port, t.src).Some?) && Decodes(port, ts)
  {
    assert forall u :: u in [t] + ts <==> u == t || u in ts;
    assert t in [t] + ts;
  }

  lemma CountDecodes(port: Port, c: Count, rest: seq<Token>)
    requires CountOk(c)
    ensures Decodes(port, CountOnto(c, rest)) <==> Decodes(port, rest)
  {
    assert forall t :: t in CountOnto(c, rest) <==> t in rest || (t in CountOnto(c, []) && t.kind != NV);
  }

  lemma {:induction false} AtomKeeps(mode: Mode, level: nat, a: Atom, rest: seq<Token>)
    requires AtomOk(TypeScript, a)
    ensures AtomKept(mode, level, a) && Decodes(mode.port, rest) <==>
            Fits(mode, level, AtomNest(a)) && Decodes(mode.port, AtomOnto(a, rest))
    decreases a
  {
    match a
    case Simple(t) => DecodesCons(mode.port, t, rest);
    case Marked(prefix, t) =>
      DecodesCons(mode.port, prefix, [t] + rest);
      DecodesCons(mode.port, t, rest);
      assert [prefix, t] + rest == [prefix] + ([t] + rest);
    case Bracket(open, alts, close) =>
      var after := if close.Some? then [close.value] + rest else rest;
      if close.Some? {
        DecodesCons(mode.port, close.value, rest);
      }
      AltsKeeps(mode, level + 1, alts, after);
      DecodesCons(mode.port, open, AltsOnto(alts, after));
  }

  lemma {:induction false} SeqKeeps(mode: Mode, level: nat, s: Seq, rest: seq<Token>)
    requires SeqOk(TypeScript, s)
    ensures SeqKept(mode, level, s) && Decodes(mode.port, rest) <==>
            Fits(mode, level, SeqNest(s)) && Decodes(mode.port, SeqOnto(s, rest))
    decreases s
  {
    match s
    case Empty =>
    case Then(e, more) =>
      SeqKeeps(mode, level, more, rest);
      AtomKeeps(mode, level, e.atom, SeqOnto(more, rest));
      CountDecodes(mode.port, e.count, AtomOnto(e.atom, SeqOnto(more, rest)));
  }

  lemma {:induction false} AltsKeeps(mode: Mode, level: nat, a: Alts, rest: seq<Token>)
    requires AltsOk(TypeScript, a)
    ensures AltsKept(mode, level, a) && Decodes(mode.port, rest) <==>
            Fits(mode, level, AltsNest(a)) && Decodes(mode.port, AltsOnto(a, rest))
    decreases a
  {
    match a
    case Only(s) => SeqKeeps(mode, level, s, rest);
    case Or(s, slash, more) =>
      AltsKeeps(mode, level, more, rest);
      DecodesCons(mode.port, slash, AltsOnto(more, rest));
      SeqKeeps(mode, level, s, [slash] + AltsOnto(more, rest));
  }

  predicate NestFits(mode: Mode, ps: seq<Production>) {
    forall p :: p in ps ==> Fits(mode, 0, AltsNest(p.alts))
  }

  lemma {:induction false} AllKeeps(mode: Mode, ps: seq<Production>)
    requires AllOk(TypeScript, ps)
    ensures AllKept(mode, ps) <==> NestFits(mode, ps) && Decodes(mode.port, Yield(ps))
    decreases |ps|
  {
    if ps != [] {
      var p, more := ps[0], ps[1..];
      assert ps == [p] + more && ProductionOk(TypeScript, p);
      assert forall q :: q in ps <==> q == p || q in more;
      AllKeeps(mode, more);
      AltsKeeps(mode, 0, p.alts, Yield(more));
      HeaderDecodes(mode.port, p, AltsOnto(p.alts, Yield(more)));
    }
  }

  lemma HeaderDecodes(port: Port, p: Production, rest: seq<Token>)
    requires HeaderOk(p.name, p.op)
    ensures Decodes(port, [p.name, p.op] + rest) <==> Decodes(port, rest)
  {
    DecodesCons(port, p.name, [p.op] + rest);
    DecodesCons(port, p.op, rest);
    assert [p.name, p.op] + rest == [p.name] + ([p.op] + rest);
  }

  /** Every mode reads a source as TypeScript does, or not at all: it does exactly where its
      port decodes every numeric value and the brackets nest within its limit. */
  lemma ReadsWhatItKeeps(mode: Mode, tokens: seq<Token>)
    ensures var all := ReadAll(TYPESCRIPT, tokens);
            ReadAll(mode, tokens) ==
            if all.Some? && NestFits(mode, all.value) && Decodes(mode.port, tokens) then all else None
  {
    ProductionsRead(mode, tokens);
    ProductionsSound(TYPESCRIPT, tokens);
    var all := ReadAll(TYPESCRIPT, tokens);
    if all.Some? {
      AllKeeps(mode, all.value);
    }
  }

  /** Rust's check as a bracket opens refuses exactly the sources nested past 511. */
  lemma LimitIsNesting(ps: seq<Production>)
    ensures NestFits(RUST, ps) <==> NestWithin(ps, 511)
  {
    assert forall n: nat :: Fits(RUST, 0, n) <==> n <= 511;
  }
}
