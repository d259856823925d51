/** The descent reads exactly the grammar of the comment: what it reads derives the tokens
    it read, and it reads every derivation back. */
module Grammar {
  import opened Strings
  import opened Ports
  import opened Tokens
  import opened Choices
  import opened Derivations
  import opened Reader

  // ---- soundness: what is read derives what was there

  lemma {:induction false} BracketSound(mode: Mode, level: nat, open: Token, rest: seq<Token>)
    requires open.kind == LP || open.kind == OB
    ensures var p := ReadBracket(mode, level, open, rest);
            p.Got? ==> AtomOk(mode.port, p.tree) && AtomOnto(p.tree, p.rest) == [open] + rest
    decreases |rest|, 5
  {
    AltsSound(mode, level + 1, rest);
    match ReadAlts(mode, level + 1, rest)
    case Fail =>
    case Got(alts, left) =>
      if |left| > 0 && Mates(open.kind, left[0].kind) {
        assert [left[0]] + left[1..] == left;
      }
  }

  lemma {:induction false} AtomSound(mode: Mode, level: nat, rest: seq<Token>)
    ensures var p := ReadAtom(mode, level, rest);
            p.Got? ==> AtomOk(mode.port, p.tree) && AtomOnto(p.tree, p.rest) == rest
    decreases |rest|, 0
  {
    if Is(rest, 0, LP) || Is(rest, 0, OB) {
      if !Refuses(mode, level) {
        BracketSound(mode, level, rest[0], rest[1..]);
        assert [rest[0]] + rest[1..] == rest;
      }
    } else {
      TerminalSound(mode, level, rest);
    }
  }

  lemma TerminalSound(mode: Mode, level: nat, rest: seq<Token>)
    requires !Is(rest, 0, LP) && !Is(rest, 0, OB)
    ensures var p := ReadAtom(mode, level, rest);
            p.Got? ==> AtomOk(mode.port, p.tree) && AtomOnto(p.tree, p.rest) == rest
  {
    if |rest| > 0 {
      assert rest == [rest[0]] + rest[1..];
    }
    if |rest| > 1 {
      assert rest == [rest[0], rest[1]] + rest[2..];
    }
  }

  lemma {:induction false} ElementSound(mode: Mode, level: nat, rest: seq<Token>)
    ensures var p := ReadElement(mode, level, rest);
            p.Got? ==> ElementOk(mode.port, p.tree) && ElementOnto(p.tree, p.rest) == rest
    decreases |rest|, 1
  {
    AtomSound(mode, level, rest[ReadCount(rest).1..]);
  }

  lemma {:induction false} SomeSound(mode: Mode, level: nat, rest: seq<Token>)
    ensures var p := ReadSome(mode, level, rest);
            p.Got? ==> SeqOk(mode.port, p.tree) && SeqOnto(p.tree, p.rest) == rest
    decreases |rest|, 2
  {
    ElementSound(mode, level, rest);
    match ReadElement(mode, level, rest)
    case Fail =>
    case Got(e, left) => MoreSound(mode, level, left);
  }

  lemma {:induction false} MoreSound(mode: Mode, level: nat, rest: seq<Token>)
    ensures var p := ReadMore(mode, level, rest);
            p.Got? ==> SeqOk(mode.port, p.tree) && SeqOnto(p.tree, p.rest) == rest
    decreases |rest|, 3
  {
    if !SeqStops(rest) && Starts(rest) {
      SomeSound(mode, level, rest);
    }
  }

  lemma {:induction false} SeqSound(mode: Mode, level: nat, rest: seq<Token>)
    ensures var p := ReadSeq(mode, level, rest);
            p.Got? ==> SeqOk(mode.port, p.tree) && SeqOnto(p.tree, p.rest) == rest
    decreases |rest|, 3
  {
    if !SeqStops(rest) {
      SomeSound(mode, level, rest);
    }
  }

  lemma {:induction false} AltsSound(mode: Mode, level: nat, rest: seq<Token>)
    ensures var p := ReadAlts(mode, level, rest);
            p.Got? ==> AltsOk(mode.port, p.tree) && AltsOnto(p.tree, p.rest) == rest
    decreases |rest|, 4
  {
    SeqSound(mode, level, rest);
    match ReadSeq(mode, level, rest)
    case Fail =>
    case Got(s, left) =>
      if Is(left, 0, ALT) {
        AltsSound(mode, level, left[1..]);
        assert left == [left[0]] + left[1..];
      }
  }

  lemma {:induction false} ProductionsSound(mode: Mode, rest: seq<Token>)
    ensures var p := ReadProductions(mode, rest);
            p.Got? ==> AllOk(mode.port, p.tree) && Onto(p.tree, p.rest) == rest
    decreases |rest|
  {
    if AtHeader(rest) {
      AltsSound(mode, 0, rest[2..]);
      match ReadAlts(mode, 0, rest[2..])
      case Fail =>
      case Got(alts, left) =>
        ProductionsSound(mode, left);
        HeaderOnto(mode, rest, alts, left);
    }
  }

  lemma HeaderOnto(mode: Mode, rest: seq<Token>, alts: Alts, left: seq<Token>)
    requires AtHeader(rest) && AltsOk(mode.port, alts) && AltsOnto(alts, left) == rest[2..]
    ensures ProductionOk(mode.port, Production(rest[0], rest[1], alts))
    ensures [rest[0], rest[1]] + AltsOnto(alts, left) == rest
  {
  }

  // ---- completeness: every derivation is read back

  predicate AltsStops(rest: seq<Token>) {
    SeqStops(rest) && !Is(rest, 0, ALT)
  }

  lemma AtomFirst(port: Port, a: Atom, rest: seq<Token>)
    requires AtomOk(port, a)
    ensures AtomAt(AtomOnto(a, rest), 0)
  {
  }

  lemma {:induction false} BracketComplete(port: Port, level: nat, a: Atom, rest: seq<Token>)
    requires AtomOk(port, a) && AtomClosed(a) && a.Bracket?
    ensures ReadBracket(Mode(port, None), level, a.open, AltsOnto(a.alts, [a.close.value] + rest)) == Got(a, rest)
    decreases a, 0
  {
    var inner := [a.close.value] + rest;
    AltsComplete(port, level + 1, a.alts, inner);
    assert inner[1..] == rest;
  }

  /** An opening token hands the rest to its bracket. */
  lemma OpensAt(port: Port, level: nat, open: Token, inner: seq<Token>)
    requires open.kind == LP || open.kind == OB
    ensures ReadAtom(Mode(port, None), level, [open] + inner) == ReadBracket(Mode(port, None), level, open, inner)
  {
    assert ([open] + inner)[1..] == inner;
  }

  lemma {:induction false} AtomComplete(port: Port, level: nat, a: Atom, rest: seq<Token>)
    requires AtomOk(port, a) && AtomClosed(a)
    ensures ReadAtom(Mode(port, None), level, AtomOnto(a, rest)) == Got(a, rest)
    decreases a, 1
  {
    if a.Bracket? {
      BracketComplete(port, level, a, rest);
      OpensAt(port, level, a.open, AltsOnto(a.alts, [a.close.value] + rest));
    } else {
      TerminalComplete(port, level, a, rest);
    }
  }

  lemma TerminalComplete(port: Port, level: nat, a: Atom, rest: seq<Token>)
    requires AtomOk(port, a) && !a.Bracket?
    ensures ReadAtom(Mode(port, None), level, AtomOnto(a, rest)) == Got(a, rest)
  {
    var all := AtomOnto(a, rest);
    if a.Simple? {
      assert all[1..] == rest;
    } else {
      assert all[2..] == rest;
    }
  }

  lemma CountComplete(c: Count, tail: seq<Token>)
    requires CountOk(c) && AtomAt(tail, 0)
    ensures var r := ReadCount(CountOnto(c, tail)); r.0 == c && CountOnto(c, tail)[r.1..] == tail
  {
    var all := CountOnto(c, tail);
    var n := if c.One? then 0 else if c.Exactly? || c.Any? then 1 else if c.Between? then 3 else 2;
    assert all[n..] == tail && all[n] == tail[0];
  }

  lemma {:induction false} ElementComplete(port: Port, level: nat, e: Element, rest: seq<Token>)
    requires ElementOk(port, e) && AtomClosed(e.atom)
    ensures ReadElement(Mode(port, None), level, ElementOnto(e, rest)) == Got(e, rest)
    decreases e, 2
  {
    AtomFirst(port, e.atom, rest);
    CountComplete(e.count, AtomOnto(e.atom, rest));
    AtomComplete(port, level, e.atom, rest);
  }

  /** No element and no end of a sequence starts with `=` or `=/`, so the name an element
      ends in is never taken for the next production's. */
  lemma ElementStarts(port: Port, e: Element, tail: seq<Token>)
    requires ElementOk(port, e)
    requires !Is(tail, 0, DEF) && !Is(tail, 0, DEFA)
    ensures Starts(ElementOnto(e, tail)) && !SeqStops(ElementOnto(e, tail))
  {
    AtomFirst(port, e.atom, tail);
  }

  lemma SeqFirst(port: Port, s: Seq, rest: seq<Token>)
    requires SeqOk(port, s) && SeqStops(rest)
    ensures !Is(SeqOnto(s, rest), 0, DEF) && !Is(SeqOnto(s, rest), 0, DEFA)
  {
    if s.Then? {
      AtomFirst(port, s.first.atom, SeqOnto(s.more, rest));
    }
  }

  lemma SomeJoins(port: Port, level: nat, all: seq<Token>, e: Element, tail: seq<Token>, more: Seq, rest: seq<Token>)
    requires ReadElement(Mode(port, None), level, all) == Got(e, tail)
    requires ReadMore(Mode(port, None), level, tail) == Got(more, rest)
    ensures ReadSome(Mode(port, None), level, all) == Got(Then(e, more), rest)
  {
  }

  lemma {:induction false} MoreComplete(port: Port, level: nat, s: Seq, rest: seq<Token>)
    requires SeqOk(port, s) && SeqClosed(s) && SeqStops(rest)
    ensures ReadMore(Mode(port, None), level, SeqOnto(s, rest)) == Got(s, rest)
    decreases s, 3
  {
    if s.Then? {
      SomeComplete(port, level, s, rest);
    }
  }

  lemma {:induction false} SomeComplete(port: Port, level: nat, s: Seq, rest: seq<Token>)
    requires SeqOk(port, s) && SeqClosed(s) && SeqStops(rest) && s.Then?
    ensures var all := SeqOnto(s, rest);
            ReadSome(Mode(port, None), level, all) == Got(s, rest) && Starts(all) && !SeqStops(all)
    decreases s, 2
  {
    var tail := SeqOnto(s.more, rest);
    SeqFirst(port, s.more, rest);
    ElementStarts(port, s.first, tail);
    ElementComplete(port, level, s.first, tail);
    MoreComplete(port, level, s.more, rest);
    SomeJoins(port, level, SeqOnto(s, rest), s.first, tail, s.more, rest);
  }

  lemma {:induction false} SeqComplete(port: Port, level: nat, s: Seq, rest: seq<Token>)
    requires SeqOk(port, s) && SeqClosed(s) && SeqStops(rest)
    ensures ReadSeq(Mode(port, None), level, SeqOnto(s, rest)) == Got(s, rest)
    decreases s, 3
  {
    if s.Then? {
      SomeComplete(port, level, s, rest);
    }
  }

  lemma {:induction false} AltsComplete(port: Port, level: nat, a: Alts, rest: seq<Token>)
    requires AltsOk(port, a) && AltsClosed(a) && AltsStops(rest)
    ensures ReadAlts(Mode(port, None), level, AltsOnto(a, rest)) == Got(a, rest)
    decreases a, 4
  {
    match a
    case Only(s) => SeqComplete(port, level, s, rest);
    case Or(s, slash, more) =>
      var after := [slash] + AltsOnto(more, rest);
      SeqComplete(port, level, s, after);
      assert after[1..] == AltsOnto(more, rest);
      AltsComplete(port, level, more, rest);
  }

  lemma {:induction false} ProductionsComplete(port: Port, ps: seq<Production>)
    requires Derivation(port, ps)
    ensures ReadProductions(Mode(port, None), Yield(ps)) == Got(ps, [])
    ensures ps != [] ==> AtHeader(Yield(ps))
  {
    if ps != [] {
      var p, after := ps[0], Yield(ps[1..]);
      assert ProductionOk(port, p) && AltsClosed(p.alts);
      ProductionsComplete(port, ps[1..]);
      AltsComplete(port, 0, p.alts, after);
      assert Yield(ps)[2..] == AltsOnto(p.alts, after);
      assert ps == [p] + ps[1..];
    }
  }

  /** For every token sequence the descent reads it as a derivation exactly when it has
      one, and then as that one. */
  lemma ReadsExactlyDerivations(port: Port, tokens: seq<Token>, ps: seq<Production>)
    ensures ReadAll(Mode(port, None), tokens) == Some(ps) && AllClosed(ps) <==>
            Derivation(port, ps) && Yield(ps) == tokens
  {
    ProductionsSound(Mode(port, None), tokens);
    if Derivation(port, ps) && Yield(ps) == tokens {
      ProductionsComplete(port, ps);
    }
  }

  /** The grammar is unambiguous. */
  lemma Unambiguous(port: Port, ps: seq<Production>, qs: seq<Production>)
    requires Derivation(port, ps) && Derivation(port, qs) && Yield(ps) == Yield(qs)
    ensures ps == qs
  {
    ProductionsComplete(port, ps);
    ProductionsComplete(port, qs);
  }

  // ---- productions named by prose

  /** Prose in front of `=`. */
  predicate NamesByProse(ts: seq<Token>) { exists k :: 0 <= k < |ts| && Is(ts, k, PV) && Is(ts, k + 1, DEF) }

  /** Tokens that do not start with `=`, and name by prose where those behind them do. */
  predicate NamesAlike(ts: seq<Token>, rest: seq<Token>) {
    !Is(ts, 0, DEF) && (NamesByProse(ts) <==> NamesByProse(rest))
  }

  lemma FrontNames(t: Token, rest: seq<Token>)
    requires t.kind == PV ==> !Is(rest, 0, DEF)
    ensures NamesByProse([t] + rest) <==> NamesByProse(rest)
  {
    var ts := [t] + rest;
    if k :| 0 <= k < |ts| && Is(ts, k, PV) && Is(ts, k + 1, DEF) {
      assert k > 0 ==> Is(rest, k - 1, PV) && Is(rest, k, DEF);
    }
    if k :| 0 <= k < |rest| && Is(rest, k, PV) && Is(rest, k + 1, DEF) {
      assert Is(ts, k + 1, PV) && Is(ts, k + 2, DEF);
    }
  }

  lemma Front(t: Token, rest: seq<Token>)
    requires t.kind != DEF && !Is(rest, 0, DEF)
    ensures NamesAlike([t] + rest, rest)
  {
    FrontNames(t, rest);
  }

  lemma CountNames(c: Count, rest: seq<Token>)
    requires CountOk(c) && !Is(rest, 0, DEF)
    ensures NamesAlike(CountOnto(c, rest), rest)
  {
    match c
    case One =>
    case Exactly(n) => Front(n, rest);
    case AtLeast(n, star) => FrontTwo(n, star, rest);
    case AtMost(star, n) => FrontTwo(star, n, rest);
    case Any(star) => Front(star, rest);
    case Between(n, star, m) =>
      FrontTwo(star, m, rest);
      Front(n, [star, m] + rest);
      assert [n] + ([star, m] + rest) == [n, star, m] + rest;
  }

  lemma FrontTwo(t: Token, u: Token, rest: seq<Token>)
    requires t.kind != DEF && u.kind != DEF && !Is(rest, 0, DEF)
    ensures NamesAlike([t, u] + rest, rest)
  {
    Front(u, rest);
    Front(t, [u] + rest);
    assert [t] + ([u] + rest) == [t, u] + rest;
  }

  lemma {:induction false} AtomNames(port: Port, a: Atom, rest: seq<Token>)
    requires AtomOk(port, a) && !Is(rest, 0, DEF)
    ensures NamesAlike(AtomOnto(a, rest), rest)
    decreases a, 0
  {
    match a
    case Simple(t) => Front(t, rest);
    case Marked(prefix, t) => FrontTwo(prefix, t, rest);
    case Bracket(open, alts, close) =>
      var inner := if close.Some? then [close.value] + rest else rest;
      if close.Some? {
        Front(close.value, rest);
      }
      AltsNames(port, alts, inner);
      Front(open, AltsOnto(alts, inner));
  }

  lemma {:induction false} SeqNames(port: Port, s: Seq, rest: seq<Token>)
    requires SeqOk(port, s) && !Is(rest, 0, DEF)
    ensures NamesAlike(SeqOnto(s, rest), rest)
    decreases s, 0
  {
    if s.Then? {
      SeqNames(port, s.more, rest);
      AtomNames(port, s.first.atom, SeqOnto(s.more, rest));
      CountNames(s.first.count, AtomOnto(s.first.atom, SeqOnto(s.more, rest)));
    }
  }

  lemma {:induction false} AltsNames(port: Port, a: Alts, rest: seq<Token>)
    requires AltsOk(port, a) && !Is(rest, 0, DEF)
    ensures NamesAlike(AltsOnto(a, rest), rest)
    decreases a, 1
  {
    match a
    case Only(s) => SeqNames(port, s, rest);
    case Or(s, slash, more) =>
      AltsNames(port, more, rest);
      Front(slash, AltsOnto(more, rest));
      SeqNames(port, s, [slash] + AltsOnto(more, rest));
  }

  lemma HeaderNames(p: Production, rest: seq<Token>, tail: seq<Token>)
    requires HeaderOk(p.name, p.op) && NamesAlike(tail, rest)
    ensures !Is([p.name, p.op] + tail, 0, DEF)
    ensures NamesByProse([p.name, p.op] + tail) <==> p.name.kind == PV || NamesByProse(rest)
  {
    var ts := [p.name, p.op] + tail;
    assert [p.name] + ([p.op] + tail) == ts;
    FrontNames(p.op, tail);
    if p.name.kind == PV {
      assert Is(ts, 0, PV) && Is(ts, 0 + 1, DEF);
    } else {
      FrontNames(p.name, [p.op] + tail);
    }
  }

  /** Among the tokens a derivation derives prose stands in front of `=` exactly where it names
      a production. */
  lemma {:induction false} ProseNames(port: Port, ps: seq<Production>)
    requires AllOk(port, ps)
    ensures !Is(Yield(ps), 0, DEF)
    ensures NamesByProse(Yield(ps)) <==> exists p :: p in ps && p.name.kind == PV
    decreases |ps|
  {
    if ps != [] {
      var p, more := ps[0], ps[1..];
      assert p in ps && ProductionOk(port, p);
      assert forall q :: q in ps <==> q == p || q in more;
      ProseNames(port, more);
      AltsNames(port, p.alts, Yield(more));
      HeaderNames(p, Yield(more), AltsOnto(p.alts, Yield(more)));
    }
  }
}
