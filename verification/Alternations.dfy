/** What a class of several members renders to, read back: the tokens of the alternation parse to
    a group that matches what the class does. */
module Alternations {
  import opened Strings
  import opened Unicode
  import opened Numeric
  import opened DigitText
  import opened CodePoints
  import opened Ranges
  import opened Ports
  import opened Tokens
  import opened Ast
  import opened Classes
  import opened ClassPatterns
  import opened ClassTexts
  import opened Printer
  import Holes
  import Parsing
  import D = Derivations

  // ---- the tokens of a text

  function Quoted(c: char): Token { Written(ST, "\"" + [c] + "\"").(val := [c]) }

  /** The tokens' sources with a space between two, but none behind `%s`. */
  function Spelt(ts: seq<Token>): string {
    if ts == [] then ""
    else ts[0].src + (if |ts| > 1 && ts[0].kind != SS then " " else "") + Spelt(ts[1..])
  }

  predicate CodeDigits(h: string) { AllDigits(h, 16) && h != "" && Value(h, 16) <= 0x10_FFFF }

  predicate LetterCode(n: nat) { n < 0x80 && Letter(n as char) }

  /** A member whose text is exact: two code points, or an ASCII character that, alone, has at
      most four digits and, as a range of one, is no letter. */
  predicate Exact(m: Member) {
    && CodeDigits(m.lo) && CodeDigits(m.hi)
    && var n := Value(m.lo, 16);
       if m.lo == m.hi then |m.lo| <= 4 && n < 0x80 else n != Value(m.hi, 16) || (n < 0x80 && !LetterCode(n))
  }

  function CharAtom(h: string, c: char): D.Atom {
    if !Printable(c) then D.Simple(Written(NV, "%x" + h + "-" + h))
    else if Letter(c) then D.Marked(Written(SS, "%s"), Quoted(c))
    else D.Simple(Quoted(c))
  }

  function MemberAtom(m: Member): D.Atom
    requires Exact(m)
  {
    if m.lo != m.hi then D.Simple(Written(NV, "%x" + m.lo + "-" + m.hi))
    else CharAtom(m.lo, Value(m.lo, 16) as char)
  }

  function Row(m: Member): D.Seq
    requires Exact(m)
  {
    D.Then(D.Element(D.One, MemberAtom(m)), D.Empty)
  }

  function Rows(ms: seq<Member>): D.Alts
    requires ms != [] && forall m :: m in ms ==> Exact(m)
  {
    if |ms| == 1 then D.Only(Row(ms[0])) else D.Or(Row(ms[0]), Written(ALT, "/"), Rows(ms[1..]))
  }

  function Alternation(ms: seq<Member>): D.Atom
    requires ms != [] && forall m :: m in ms ==> Exact(m)
  {
    D.Bracket(Written(LP, "("), Rows(ms), Some(Written(RP, ")")))
  }

  // ---- the text is the tokens'

  lemma SpeltFront(t: Token, rest: seq<Token>)
    ensures Spelt([t] + rest) == t.src + (if rest != [] && t.kind != SS then " " else "") + Spelt(rest)
  {
    assert ([t] + rest)[1..] == rest;
  }

  /** A member's tokens spell its text, and a space before what follows. */
  lemma MemberSpelt(m: Member, rest: seq<Token>)
    requires Exact(m)
    ensures MemberText(m).Some?
    ensures rest != [] ==> Spelt(D.AtomOnto(MemberAtom(m), rest)) == MemberText(m).value + " " + Spelt(rest)
  {
    if m.lo != m.hi {
      SpeltFront(Written(NV, "%x" + m.lo + "-" + m.hi), rest);
    } else {
      AloneTexts(m.lo, Value(m.lo, 16));
      CharSpelt(m.lo, Value(m.lo, 16) as char, rest);
    }
  }

  lemma CharSpelt(h: string, c: char, rest: seq<Token>)
    ensures var text := if Printable(c) then LitText([c]) else "%x" + h + "-" + h;
            rest != [] ==> Spelt(D.AtomOnto(CharAtom(h, c), rest)) == text + " " + Spelt(rest)
  {
    if !Printable(c) {
      SpeltFront(Written(NV, "%x" + h + "-" + h), rest);
    } else {
      LiteralText(c);
      if Letter(c) {
        MarkedSpelt(Quoted(c), rest);
      } else {
        SpeltFront(Quoted(c), rest);
      }
    }
  }

  lemma LiteralText(c: char)
    ensures LitText([c]) == if Letter(c) then "%s" + Quoted(c).src else Quoted(c).src
  {
    assert c in [c];
  }

  lemma MarkedSpelt(t: Token, rest: seq<Token>)
    requires t.kind != SS
    ensures rest != [] ==> Spelt([Written(SS, "%s"), t] + rest) == "%s" + t.src + " " + Spelt(rest)
  {
    SpeltFront(t, rest);
    SpeltFront(Written(SS, "%s"), [t] + rest);
    assert [Written(SS, "%s")] + ([t] + rest) == [Written(SS, "%s"), t] + rest;
  }

  lemma Spaced(a: string, b: string, c: string)
    ensures a + " " + ("/" + " " + (b + " " + c)) == a + " / " + b + " " + c
  {
  }

  lemma TextsFront(m: Member, more: seq<Member>)
    requires MemberText(m).Some? && MemberTexts(more).Some?
    ensures MemberTexts([m] + more) == Some([MemberText(m).value] + MemberTexts(more).value)
  {
    assert ([m] + more)[1..] == more;
  }

  lemma RowOnto(m: Member, rest: seq<Token>)
    requires Exact(m)
    ensures D.SeqOnto(Row(m), rest) == D.AtomOnto(MemberAtom(m), rest) != []
  {
  }

  lemma RowsOnto(ms: seq<Member>, rest: seq<Token>)
    requires ms != [] && forall m :: m in ms ==> Exact(m)
    ensures D.AltsOnto(Rows(ms), rest) ==
            D.AtomOnto(MemberAtom(ms[0]),
                       if |ms| == 1 then rest else [Written(ALT, "/")] + D.AltsOnto(Rows(ms[1..]), rest))
    ensures D.AltsOnto(Rows(ms), rest) != []
  {
    RowOnto(ms[0], if |ms| == 1 then rest else [Written(ALT, "/")] + D.AltsOnto(Rows(ms[1..]), rest));
  }

  lemma {:induction false} RowsSpelt(ms: seq<Member>, rest: seq<Token>)
    requires ms != [] && rest != [] && forall m :: m in ms ==> Exact(m)
    ensures MemberTexts(ms).Some?
    ensures Spelt(D.AltsOnto(Rows(ms), rest)) == Strings.Join(" / ", MemberTexts(ms).value) + " " + Spelt(rest)
    decreases |ms|
  {
    var m, more := ms[0], ms[1..];
    assert ms == [m] + more && m in ms;
    RowsOnto(ms, rest);
    if more == [] {
      MemberSpelt(m, rest);
      TextsFront(m, []);
      assert [MemberText(m).value] + [] == [MemberText(m).value];
    } else {
      var slash, tail := Written(ALT, "/"), D.AltsOnto(Rows(more), rest);
      RowsSpelt(more, rest);
      RowsOnto(more, rest);
      MemberSpelt(m, [slash] + tail);
      SpeltFront(slash, tail);
      TextsFront(m, more);
      JoinStep(" / ", MemberText(m).value, MemberTexts(more).value);
      Spaced(MemberText(m).value, Strings.Join(" / ", MemberTexts(more).value), Spelt(rest));
    }
  }

  lemma {:induction false} AlternationSpelt(ms: seq<Member>)
    requires ms != [] && forall m :: m in ms ==> Exact(m)
    ensures MemberTexts(ms).Some?
    ensures Spelt(D.AtomOnto(Alternation(ms), [])) == "( " + Strings.Join(" / ", MemberTexts(ms).value) + " )"
  {
    var open, close := Written(LP, "("), Written(RP, ")");
    RowsSpelt(ms, [close]);
    RowsOnto(ms, [close]);
    SpeltFront(open, D.AltsOnto(Rows(ms), [close]));
    CloseSpelt(close);
    assert [close] + [] == [close];
    Bracketed(Strings.Join(" / ", MemberTexts(ms).value));
  }

  lemma CloseSpelt(t: Token)
    ensures Spelt([t]) == t.src
  {
    assert [t][1..] == [];
  }

  lemma Bracketed(text: string)
    ensures "(" + " " + (text + " " + ")") == "( " + text + " )"
  {
  }

  /** A class of several exact members renders to what the tokens of its alternation spell. */
  lemma TextIsSpelt(parts: seq<Part>)
    requires ClassOk(OfParts(false, parts)) && |parts| > 1
    requires forall m :: m in AllRendered(parts) ==> Exact(m)
    ensures AllRendered(parts) != []
    ensures ClassText(Pattern(OfParts(false, parts))) == Some(Spelt(D.AtomOnto(Alternation(AllRendered(parts)), [])))
  {
    NoneEmpty(parts);
    SeveralText(parts);
    AlternationSpelt(AllRendered(parts));
  }

  // ---- what is parsed back

  /** A code point without regard to the case of an ASCII letter. */
  function Folded(n: nat): nat { if 'A' as int <= n <= 'Z' as int then n + 0x20 else n }

  /** Whether a leaf matches one code point. */
  ghost predicate LeafHolds(leaf: Leaf, c: Cp) {
    match leaf
    case Term(literal, cs) =>
      |literal| == 1 && if cs then literal[0] == Num(c) else Folded(literal[0]) == Folded(Num(c))
    case Regex(pattern, _) => Readable(pattern) && Holds(ClassSpans(pattern), c)
    case _ => false
  }

  /** Whether one of a group's alternatives is a leaf that matches it. */
  ghost predicate GroupHolds(alts: seq<Sequence>, c: Cp) {
    exists i :: 0 <= i < |alts| && RowHolds(alts[i], c)
  }

  ghost predicate RowHolds(row: Sequence, c: Cp) {
    |row.items| == 1 && row.items[0].Lit? && LeafHolds(row.items[0].leaf, c)
  }

  predicate MemberCovers(m: Member, c: Cp) { Value(m.lo, 16) <= Num(c) <= Value(m.hi, 16) }

  lemma RangeHolds(m: Member, c: Cp)
    requires Exact(m) && m.lo != m.hi
    ensures var leaf := Decode("%x" + m.lo + "-" + m.hi);
            leaf.Some? && (LeafHolds(leaf.value, c) <==> MemberCovers(m, c))
  {
    var lo, hi := Value(m.lo, 16), Value(m.hi, 16);
    RangeSpells(m, lo, hi);
    if lo != hi {
      RangeClassMatches(lo, hi, c);
    } else {
      OneUnit(lo as char);
      OneHolds(lo, false, c);
    }
  }

  /** A range of one ASCII character, written in different digits, is read without regard to
      case: its text is exact exactly where the character is no letter. */
  lemma RangeOfOne(m: Member, n: nat)
    requires CodeDigits(m.lo) && CodeDigits(m.hi) && m.lo != m.hi && Value(m.lo, 16) == Value(m.hi, 16) == n < 0x80
    ensures MemberText(m).Some? && Decode(MemberText(m).value).Some?
    ensures var leaf := Decode(MemberText(m).value).value;
            (forall c: Cp :: LeafHolds(leaf, c) <==> MemberCovers(m, c)) <==> !LetterCode(n)
  {
    RangeSpells(m, n, n);
    OneUnit(n as char);
    var leaf := Term([n], false);
    if LetterCode(n) {
      var other := Cp(0, 0, if n < 'a' as int then n + 0x20 else n - 0x20);
      NumIs(other);
      assert LeafHolds(leaf, other) && !MemberCovers(m, other);
    } else {
      forall c: Cp ensures LeafHolds(leaf, c) <==> MemberCovers(m, c) {
        OneHolds(n, false, c);
      }
    }
  }

  /** So a class of one range is rendered exactly there. */
  lemma RangeOfOneClass(p: Part, n: nat, k: Class)
    requires p.Run? && PartOk(p) && k == OfParts(false, [p]) && DigitsOf(p.lo) != DigitsOf(p.hi)
    requires Value(p.lo.digits, 16) == Value(p.hi.digits, 16) == n < 0x80
    ensures ClassText(Pattern(k)).Some? && Decode(ClassText(Pattern(k)).value).Some?
    ensures var leaf := Decode(ClassText(Pattern(k)).value).value;
            (forall c: Cp :: LeafHolds(leaf, c) <==> Matches(k, c)) <==> !LetterCode(n)
  {
    var m := Rendered(p);
    DigitsName(p.lo);
    DigitsName(p.hi);
    OneText(p);
    RangeOfOne(m, n);
    forall c: Cp ensures MemberCovers(m, c) <==> Matches(k, c) {
      OneCovers(p, c);
      RenderedHolds(p, c);
    }
  }

  lemma BracedDigits(e: Escaped)
    requires EscapeOk(e) && e.braced
    ensures DigitsOf(e) == HexUpper(e.digits)
  {
    EscapeHexIs(BodyOf(e));
    CoreReads(e);
  }

  lemma PlainDigits(e: Escaped)
    requires EscapeOk(e) && !e.braced && "00" <= e.digits
    ensures DigitsOf(e) == HexUpper(e.digits[2..])
  {
    EscapeHexIs(BodyOf(e));
    PlainHex(e.digits);
  }

  lemma LetterDigits()
    ensures AllDigits("041", 16) && AllDigits("0041", 16)
    ensures Value("041", 16) == Value("0041", 16) == 0x41
  {
    FourDigits('0', '0', '4', '1');
    LeadingZeros(1, "041");
    assert seq(1, _ => '0') + "041" == "0041";
  }

  /** A letter in braces with a zero in front, and the same in four digits: `%x041-41`, which
      matches both cases. */
  lemma RangeInput(p: Part)
    requires p == Run(Escaped("041", true), Escaped("0041", false))
    ensures PartOk(p) && DigitsOf(p.lo) == "041" && DigitsOf(p.hi) == "41"
    ensures Value(p.lo.digits, 16) == Value(p.hi.digits, 16) == 0x41 && LetterCode(0x41)
  {
    LetterDigits();
    BracedDigits(p.lo);
    PlainDigits(p.hi);
  }

  /** What the leaf of a member's tokens matches. */
  lemma MemberHolds(m: Member, c: Cp)
    requires Exact(m)
    ensures var a := MemberAtom(m);
            && D.AtomOk(TypeScript, a) && D.AtomClosed(a) && D.BuildAtom(TypeScript, a).Lit?
            && (LeafHolds(D.BuildAtom(TypeScript, a).leaf, c) <==> MemberCovers(m, c))
  {
    if m.lo != m.hi {
      RangeHolds(m, c);
    } else {
      CharHolds(m.lo, Value(m.lo, 16), c);
    }
  }

  lemma CharHolds(h: string, n: nat, c: Cp)
    requires AllDigits(h, 16) && 1 <= |h| <= 4 && Value(h, 16) == n < 0x80
    ensures var a := CharAtom(h, n as char);
            && D.AtomOk(TypeScript, a) && D.AtomClosed(a) && D.BuildAtom(TypeScript, a).Lit?
            && (LeafHolds(D.BuildAtom(TypeScript, a).leaf, c) <==> Num(c) == n)
  {
    CharLeaf(h, n);
    OneHolds(n, Printable(n as char) && Letter(n as char), c);
  }

  /** The literal a character's tokens build; one read without regard to case is no letter. */
  lemma CharLeaf(h: string, n: nat)
    requires AllDigits(h, 16) && 1 <= |h| <= 4 && Value(h, 16) == n < 0x80
    ensures var a := CharAtom(h, n as char);
            && D.AtomOk(TypeScript, a) && D.AtomClosed(a) && D.BuildAtom(TypeScript, a).Lit?
            && D.BuildAtom(TypeScript, a).leaf == Term([n], Printable(n as char) && Letter(n as char))
    ensures Letter(n as char) ==> Printable(n as char)
  {
    if Printable(n as char) {
      QuotedLeaf(n as char);
    } else {
      RawLeaf(h, n);
    }
  }

  lemma RawLeaf(h: string, n: nat)
    requires AllDigits(h, 16) && 1 <= |h| <= 4 && Value(h, 16) == n < 0x80 && !Printable(n as char)
    ensures Decode("%x" + h + "-" + h) == Some(Term([n], false)) && !Letter(n as char)
  {
    AloneSpells(h, n);
    CharIs(n);
    OneUnit(n as char);
  }

  lemma QuotedLeaf(c: char)
    requires (c as int) < 0x80
    ensures D.SimpleLeaf(TypeScript, Quoted(c)) == Term([c as int], false)
    ensures var marked := D.BuildAtom(TypeScript, D.Marked(Written(SS, "%s"), Quoted(c)));
            marked.Lit? && marked.leaf == Term([c as int], true)
  {
    OneUnit(c);
  }

  lemma OneHolds(n: nat, cs: bool, c: Cp)
    requires n < 0x80 && (Letter(n as char) ==> cs)
    ensures LeafHolds(Term([n], cs), c) <==> Num(c) == n
  {
  }

  lemma OneUnit(c: char)
    requires (c as int) < 0x80
    ensures OfString([c]) == [c as int] && FromCodePoint(c as int) == [c as int]
  {
    assert seq(1, i requires 0 <= i < 1 => [c][i] as int) == [c as int];
    assert [c as int][1..] == [];
    assert Unicode.Join([c as int]) == FromCodePoint(c as int) + Unicode.Join([]);
  }

  lemma RowBuilt(m: Member, c: Cp)
    requires Exact(m)
    ensures D.SeqOk(TypeScript, Row(m)) && D.SeqClosed(Row(m))
    ensures RowHolds(Sequence(D.BuildSeq(TypeScript, Row(m))), c) <==> MemberCovers(m, c)
  {
    MemberHolds(m, c);
    OneElement(MemberAtom(m));
  }

  /** A sequence of one atom. */
  lemma OneElement(a: D.Atom)
    requires D.AtomOk(TypeScript, a) && D.AtomClosed(a)
    ensures var s := D.Then(D.Element(D.One, a), D.Empty);
            && D.SeqOk(TypeScript, s) && D.SeqClosed(s) && D.BuildSeq(TypeScript, s) == [D.BuildAtom(TypeScript, a)]
  {
    assert D.SeqOk(TypeScript, D.Empty) && D.SeqClosed(D.Empty) && D.BuildSeq(TypeScript, D.Empty) == [];
    assert D.BuildElement(TypeScript, D.Element(D.One, a)) == D.BuildAtom(TypeScript, a);
  }

  lemma GroupFront(row: Sequence, rows: seq<Sequence>, c: Cp)
    ensures GroupHolds([row] + rows, c) <==> RowHolds(row, c) || GroupHolds(rows, c)
  {
    var all := [row] + rows;
    assert all[0] == row;
    assert forall i :: 0 <= i < |rows| ==> all[i + 1] == rows[i];
  }

  lemma {:induction false} RowsHold(ms: seq<Member>, c: Cp)
    requires ms != [] && forall m :: m in ms ==> Exact(m)
    ensures D.AltsOk(TypeScript, Rows(ms)) && D.AltsClosed(Rows(ms))
    ensures GroupHolds(D.BuildAlts(TypeScript, Rows(ms)), c) <==> exists m :: m in ms && MemberCovers(m, c)
    decreases |ms|
  {
    var m, more := ms[0], ms[1..];
    assert m in ms;
    assert forall x :: x in ms <==> x == m || x in more;
    RowBuilt(m, c);
    var row := Sequence(D.BuildSeq(TypeScript, Row(m)));
    if more == [] {
      GroupFront(row, [], c);
      assert [row] + [] == [row];
    } else {
      RowsHold(more, c);
      GroupFront(row, D.BuildAlts(TypeScript, Rows(more)), c);
    }
  }

  /** The digits rendered cover what the members do. */
  lemma RenderedCovers(parts: seq<Part>, c: Cp)
    requires ClassOk(OfParts(false, parts))
    ensures (exists m :: m in AllRendered(parts) && MemberCovers(m, c)) <==> Covers(OfParts(false, parts), c)
  {
    var ms := AllRendered(parts);
    NoneEmpty(parts);
    forall i | 0 <= i < |parts| ensures MemberCovers(ms[i], c) <==> PartHolds(parts[i], c) {
      RenderedHolds(parts[i], c);
    }
    if i :| 0 <= i < |parts| && PartHolds(parts[i], c) {
      assert ms[i] in ms;
    }
  }

  lemma RenderedHolds(p: Part, c: Cp)
    requires PartOk(p)
    ensures MemberCovers(Rendered(p), c) <==> PartHolds(p, c)
  {
    match p
    case Lone(e) => DigitsName(e);
    case Run(lo, hi) =>
      DigitsName(lo);
      DigitsName(hi);
  }

  // ---- a rule of the alternation

  /** A production whose one element is an atom. */
  function OneAtom(name: Token, op: Token, a: D.Atom): D.Production {
    D.Production(name, op, D.Only(D.Then(D.Element(D.One, a), D.Empty)))
  }

  /** A class of several exact members renders to a text whose tokens parse, as a rule, to a
      group that matches what the class does. */
  lemma AlternationReadsBack(parts: seq<Part>, name: Token, op: Token, c: Cp)
    requires ClassOk(OfParts(false, parts)) && |parts| > 1 && D.HeaderOk(name, op)
    requires forall m :: m in AllRendered(parts) ==> Exact(m)
    ensures AllRendered(parts) != []
    ensures var k, a := OfParts(false, parts), Alternation(AllRendered(parts));
            var rules := D.Build(TypeScript, [OneAtom(name, op, a)]);
            && ClassText(Pattern(k)) == Some(Spelt(D.AtomOnto(a, [])))
            && Parsing.Parses(TYPESCRIPT, [name, op] + D.AtomOnto(a, []), rules) && Holes.HoleFree(rules)
            && |rules| == 1 && |rules[0].alts| == 1 && |rules[0].alts[0].items| == 1
            && var group := rules[0].alts[0].items[0];
               group.Group? && (GroupHolds(group.alts, c) <==> Matches(k, c))
  {
    var k, ms := OfParts(false, parts), AllRendered(parts);
    TextIsSpelt(parts);
    RowsHold(ms, c);
    RenderedCovers(parts, c);
    CoveredIsCode(ms, c);
    AtomParses(name, op, Alternation(ms));
  }

  lemma CoveredIsCode(ms: seq<Member>, c: Cp)
    requires forall m :: m in ms ==> Exact(m)
    ensures (exists m :: m in ms && MemberCovers(m, c)) ==> Num(c) <= 0x10_FFFF
  {
  }

  lemma OneYield(name: Token, op: Token, a: D.Atom)
    ensures D.Yield([OneAtom(name, op, a)]) == [name, op] + D.AtomOnto(a, [])
  {
    var p, s := OneAtom(name, op, a), D.Then(D.Element(D.One, a), D.Empty);
    assert [p][1..] == [];
    assert D.Onto([p], []) == D.ProductionOnto(p, D.Onto([], []));
    assert D.SeqOnto(s, []) == D.ElementOnto(s.first, []);
  }

  lemma OneBuilt(name: Token, op: Token, a: D.Atom)
    requires D.HeaderOk(name, op) && D.AtomOk(TypeScript, a) && D.AtomClosed(a)
    ensures var ps := [OneAtom(name, op, a)];
            && D.Derivation(TypeScript, ps) && |D.Build(TypeScript, ps)| == 1
            && D.Build(TypeScript, ps)[0].alts == [Sequence([D.BuildAtom(TypeScript, a)])]
  {
    var s := D.Then(D.Element(D.One, a), D.Empty);
    OneElement(a);
    assert D.AltsOk(TypeScript, D.Only(s)) && D.AltsClosed(D.Only(s));
  }

  lemma AtomParses(name: Token, op: Token, a: D.Atom)
    requires D.HeaderOk(name, op) && D.AtomOk(TypeScript, a) && D.AtomClosed(a)
    ensures var rules := D.Build(TypeScript, [OneAtom(name, op, a)]);
            && Parsing.Parses(TYPESCRIPT, [name, op] + D.AtomOnto(a, []), rules) && Holes.HoleFree(rules)
            && |rules| == 1 && rules[0].alts == [Sequence([D.BuildAtom(TypeScript, a)])]
  {
    var ps := [OneAtom(name, op, a)];
    OneYield(name, op, a);
    OneBuilt(name, op, a);
    Parsing.AcceptsExactlyTheGrammar(TypeScript, D.Yield(ps), D.Build(TypeScript, ps));
  }
}
