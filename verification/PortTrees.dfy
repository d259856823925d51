/** Where a port builds the tree TypeScript builds: wherever it decodes each numeric value to
    the same element, if no bracket is left open. */
module PortTrees {
  import opened Ports
  import opened Numeric
  import opened Tokens
  import opened Ast
  import opened Derivations

  predicate Same(port: Port, ts: seq<Token>) {
    forall t :: t in ts && t.kind == NV ==> DecodeFor(port, t.src) == Decode(t.src)
  }

  lemma SameCons(port: Port, t: Token, ts: seq<Token>)
    ensures Same(port, [t] + ts) <==> (t.kind == NV ==> DecodeFor(port, t.src) == Decode(t.src)) && Same(port, ts)
  {
    assert forall u :: u in [t] + ts <==> u == t || u in ts;
    assert t in [t] + ts;
  }

  lemma CountSame(port: Port, c: Count, rest: seq<Token>)
    requires CountOk(c)
    ensures Same(port, CountOnto(c, rest)) <==> Same(port, rest)
  {
    assert forall t :: t in CountOnto(c, rest) <==> t in rest || (t in CountOnto(c, []) && t.kind != NV);
  }

  lemma LeafSame(port: Port, t: Token)
    requires AtomOk(TypeScript, Simple(t)) && AtomOk(port, Simple(t))
    ensures SimpleLeaf(port, t) == SimpleLeaf(TypeScript, t) <==>
            (t.kind == NV ==> DecodeFor(port, t.src) == Decode(t.src))
  {
  }

  lemma TerminalSame(port: Port, a: Atom, rest: seq<Token>)
    requires AtomOk(TypeScript, a) && AtomOk(port, a) && !a.Bracket?
    ensures BuildAtom(port, a) != Hole && BuildAtom(TypeScript, a) != Hole
    ensures BuildAtom(port, a) == BuildAtom(TypeScript, a) && Same(port, rest) <==> Same(port, AtomOnto(a, rest))
  {
    match a
    case Simple(t) =>
      LeafSame(port, t);
      SameCons(port, t, rest);
    case Marked(prefix, t) =>
      assert forall u :: u in [prefix, t] + rest <==> u == prefix || u == t || u in rest;
  }

  lemma {:induction false} AtomSame(port: Port, a: Atom, rest: seq<Token>)
    requires AtomOk(TypeScript, a) && AtomOk(port, a) && AtomClosed(a)
    ensures BuildAtom(port, a) != Hole && BuildAtom(TypeScript, a) != Hole
    ensures BuildAtom(port, a) == BuildAtom(TypeScript, a) && Same(port, rest) <==> Same(port, AtomOnto(a, rest))
    decreases a
  {
    if a.Bracket? {
      var after := [a.close.value] + rest;
      SameCons(port, a.close.value, rest);
      AltsSame(port, a.alts, after);
      SameCons(port, a.open, AltsOnto(a.alts, after));
    } else {
      TerminalSame(port, a, rest);
    }
  }

  /** A repetition around two elements is the same exactly when they are. */
  lemma RepeatSame(min: nat, max: Bound, x: Elem, y: Elem)
    ensures Repeat(min, max, x) == Repeat(min, max, y) <==> x == y
  {
  }

  lemma {:induction false} ElementSame(port: Port, e: Element, rest: seq<Token>)
    requires ElementOk(TypeScript, e) && ElementOk(port, e) && AtomClosed(e.atom)
    ensures BuildElement(port, e) == BuildElement(TypeScript, e) && Same(port, rest) <==>
            Same(port, ElementOnto(e, rest))
    decreases e
  {
    AtomSame(port, e.atom, rest);
    CountSame(port, e.count, AtomOnto(e.atom, rest));
    var (min, max) := Bounds(e.count);
    RepeatSame(min, max, BuildAtom(port, e.atom), BuildAtom(TypeScript, e.atom));
  }

  lemma ConsSame<T>(x: T, xs: seq<T>, y: T, ys: seq<T>)
    ensures [x] + xs == [y] + ys <==> x == y && xs == ys
  {
    if [x] + xs == [y] + ys {
      assert x == ([x] + xs)[0] == ([y] + ys)[0] == y;
      assert xs == ([x] + xs)[1..] == ([y] + ys)[1..] == ys;
    }
  }

  lemma {:induction false} SeqSame(port: Port, s: Seq, rest: seq<Token>)
    requires SeqOk(TypeScript, s) && SeqOk(port, s) && SeqClosed(s)
    ensures BuildSeq(port, s) == BuildSeq(TypeScript, s) && Same(port, rest) <==> Same(port, SeqOnto(s, rest))
    decreases s
  {
    match s
    case Empty =>
    case Then(e, more) =>
      SeqSame(port, more, rest);
      ElementSame(port, e, SeqOnto(more, rest));
      ConsSame(BuildElement(port, e), BuildSeq(port, more), BuildElement(TypeScript, e), BuildSeq(TypeScript, more));
  }

  lemma {:induction false} AltsSame(port: Port, a: Alts, rest: seq<Token>)
    requires AltsOk(TypeScript, a) && AltsOk(port, a) && AltsClosed(a)
    ensures BuildAlts(port, a) == BuildAlts(TypeScript, a) && Same(port, rest) <==> Same(port, AltsOnto(a, rest))
    decreases a
  {
    var x, y := Sequence(BuildSeq(port, a.head)), Sequence(BuildSeq(TypeScript, a.head));
    match a
    case Only(s) => SeqSame(port, s, rest);
    case Or(s, slash, more) =>
      AltsSame(port, more, rest);
      SameCons(port, slash, AltsOnto(more, rest));
      SeqSame(port, s, [slash] + AltsOnto(more, rest));
      ConsSame(x, BuildAlts(port, more), y, BuildAlts(TypeScript, more));
  }

  lemma BuildCons(port: Port, p: Production, more: seq<Production>)
    ensures Build(port, [p] + more) == [BuildProduction(port, p)] + Build(port, more)
  {
  }

  lemma HeaderSame(port: Port, p: Production, rest: seq<Token>)
    requires HeaderOk(p.name, p.op)
    ensures Same(port, [p.name, p.op] + rest) <==> Same(port, rest)
  {
    assert forall t :: t in [p.name, p.op] + rest <==> t == p.name || t == p.op || t in rest;
  }

  /** Both ports build one tree exactly where they decode every numeric value alike. */
  lemma {:induction false} BuildSame(port: Port, ps: seq<Production>)
    requires Derivation(TypeScript, ps) && AllOk(port, ps)
    ensures Build(port, ps) == Build(TypeScript, ps) <==> Same(port, Yield(ps))
    decreases |ps|
  {
    if ps != [] {
      var p, more := ps[0], ps[1..];
      assert ps == [p] + more && ProductionOk(TypeScript, p) && ProductionOk(port, p) && AltsClosed(p.alts);
      BuildSame(port, more);
      AltsSame(port, p.alts, Yield(more));
      HeaderSame(port, p, AltsOnto(p.alts, Yield(more)));
      BuildCons(port, p, more);
      BuildCons(TypeScript, p, more);
      ConsSame(BuildProduction(port, p), Build(port, more), BuildProduction(TypeScript, p), Build(TypeScript, more));
    }
  }
}
