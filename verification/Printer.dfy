/** Printing a tree as tokens, and parsing the print back. */
module Printer {
  import opened Strings
  import opened Ports
  import opened Unicode
  import opened Numeric
  import opened DigitText
  import opened Numerals
  import opened Tokens
  import opened Ast
  import opened Derivations
  import opened Holes
  import opened Parsing

  // ---- a tree without its spans

  function Erase(t: Elem): Elem
    decreases t
  {
    match t
    case Hole => Hole
    case Lit(leaf, _) => Lit(leaf, None)
    case Wrapped(wrap, inner, _) => Wrapped(wrap, Erase(inner), None)
    case Group(alts, _) => Group(seq(|alts|, i requires 0 <= i < |alts| => EraseRow(alts[i])), None)
  }

  function EraseRow(s: Sequence): Sequence
    decreases s
  {
    Sequence(seq(|s.items|, i requires 0 <= i < |s.items| => Erase(s.items[i])))
  }

  function EraseRows(alts: seq<Sequence>): seq<Sequence> {
    seq(|alts|, i requires 0 <= i < |alts| => EraseRow(alts[i]))
  }

  function EraseRules(rules: seq<Rule>): seq<Rule> {
    seq(|rules|, i requires 0 <= i < |rules| => rules[i].(alts := EraseRows(rules[i].alts), sp := None))
  }

  // ---- writing a tree out

  function Written(kind: Kind, src: string): Token {
    Token(kind, src, src, 0, |src|, 0, 0)
  }

  const STAR_TOKEN: Token := Written(STAR, "*")

  function CountToken(n: nat): Token { Written(NUM, Digits(n, 10)) }

  /** A literal's units as a dotted concatenation of code points. */
  function Dotted(literal: seq<Unit>): string {
    "%x" + Strings.Join(".", seq(|literal|, i requires 0 <= i < |literal| => Hex(literal[i])))
  }

  /** A string whose units are the literal's. */
  ghost function TextOf(literal: seq<Unit>): string
    requires exists val :: OfString(val) == literal
  {
    var val :| OfString(val) == literal;
    val
  }

  /** Two different ends whose class is the pattern. */
  ghost predicate IsRange(pattern: string, flags: string, lo: CodePoint, hi: CodePoint) {
    lo != hi && Regex(pattern, flags) == RangeClass(lo, hi)
  }

  /** The leaves a parse builds: a class is a range, and the text of a case-sensitive literal
      was a string's. */
  ghost predicate LeafPrints(leaf: Leaf) {
    match leaf
    case Term(literal, cs) => cs ==> exists val :: OfString(val) == literal
    case Regex(pattern, flags) => exists lo: CodePoint, hi: CodePoint :: IsRange(pattern, flags, lo, hi)
    case _ => true
  }

  ghost function LeafAtom(leaf: Leaf): Derivations.Atom
    requires LeafPrints(leaf)
  {
    match leaf
    case Term(literal, cs) =>
      if cs then Marked(Written(SS, "%s"), Written(ST, TextOf(literal)))
      else if literal == [] then Simple(Written(ST, ""))
      else Simple(Written(NV, Dotted(literal)))
    case Regex(pattern, flags) =>
      var lo: CodePoint, hi: CodePoint :| IsRange(pattern, flags, lo, hi);
      Simple(Written(NV, "%x" + Hex(lo) + "-" + Hex(hi)))
    case Prose(text) => Simple(Written(PV, "<" + text + ">"))
    case Reference(name) => Simple(Written(TX, name))
  }

  /** The count whose bounds give a wrapper. */
  function CountOfWrap(wrap: Wrap): Count {
    match wrap
    case Opt => Between(CountToken(0), STAR_TOKEN, CountToken(1))
    case Star => Any(STAR_TOKEN)
    case Plus => Derivations.AtLeast(CountToken(1), STAR_TOKEN)
    case Rep(min, Fin(max)) => Between(CountToken(min), STAR_TOKEN, CountToken(max))
    case Rep(min, Unbounded) => Derivations.AtLeast(CountToken(min), STAR_TOKEN)
  }

  /** A counted repetition is of bounds no other wrapper is for. */
  predicate WrapPrints(wrap: Wrap) {
    wrap.Rep? ==>
      && !(wrap.min == 0 && wrap.max == Unbounded) && !(wrap.min == 1 && wrap.max == Unbounded)
      && !(wrap.min == 0 && wrap.max == Fin(1)) && !(wrap.min == 1 && wrap.max == Fin(1))
  }

  /** What stands as an atom: a leaf, a group of at least one sequence, or a bracketed
      option. */
  ghost predicate AtomPrints(t: Elem)
    decreases t, 0
  {
    match t
    case Hole => false
    case Lit(leaf, _) => LeafPrints(leaf)
    case Wrapped(wrap, inner, _) =>
      wrap == Opt && inner.Group? && inner.alts != [] && forall i :: 0 <= i < |inner.alts| ==> RowPrints(inner.alts[i])
    case Group(alts, _) => alts != [] && forall i :: 0 <= i < |alts| ==> RowPrints(alts[i])
  }

  ghost predicate RowPrints(s: Sequence)
    decreases s, 0
  {
    forall i :: 0 <= i < |s.items| ==> Prints(s.items[i])
  }

  /** A tree the grammar can write: at most one repetition around an atom. */
  ghost predicate Prints(t: Elem)
    decreases t, 1
  {
    AtomPrints(t) || (t.Wrapped? && WrapPrints(t.wrap) && AtomPrints(t.inner))
  }

  ghost predicate AltsPrint(alts: seq<Sequence>) {
    alts != [] && forall i :: 0 <= i < |alts| ==> RowPrints(alts[i])
  }

  ghost predicate RulesPrint(rules: seq<Rule>) {
    forall i :: 0 <= i < |rules| ==> AltsPrint(rules[i].alts)
  }

  // ---- the derivation printed

  ghost function AtomOf(t: Elem): Derivations.Atom
    requires AtomPrints(t)
    decreases t, 0
  {
    match t
    case Lit(leaf, _) => LeafAtom(leaf)
    case Wrapped(_, inner, _) => Bracket(Written(OB, "["), AltsOf(inner.alts), Some(Written(CB, "]")))
    case Group(alts, _) => Bracket(Written(LP, "("), AltsOf(alts), Some(Written(RP, ")")))
  }

  ghost function ElementOf(t: Elem): Element
    requires Prints(t)
    decreases t, 1
  {
    if AtomPrints(t) then Element(One, AtomOf(t)) else Element(CountOfWrap(t.wrap), AtomOf(t.inner))
  }

  ghost function SeqOf(ts: seq<Elem>): Seq
    requires forall i :: 0 <= i < |ts| ==> Prints(ts[i])
    decreases ts, 0
  {
    if ts == [] then Empty else Then(ElementOf(ts[0]), SeqOf(ts[1..]))
  }

  ghost function RowOf(s: Sequence): Seq
    requires RowPrints(s)
    decreases s, 0
  {
    SeqOf(s.items)
  }

  ghost function AltsOf(alts: seq<Sequence>): Alts
    requires AltsPrint(alts)
    decreases alts, 0
  {
    if |alts| == 1 then Only(RowOf(alts[0])) else Or(RowOf(alts[0]), Written(ALT, "/"), AltsOf(alts[1..]))
  }

  ghost function ProductionOf(r: Rule): Production
    requires AltsPrint(r.alts)
  {
    var prose := r.name != "" && r.name[0] == '<' && !r.incremental;
    Production(Written(if prose then PV else TX, r.name),
               if r.incremental then Written(DEFA, "=/") else Written(DEF, "="), AltsOf(r.alts))
  }

  ghost function ProductionsOf(rules: seq<Rule>): seq<Production>
    requires RulesPrint(rules)
  {
    seq(|rules|, i requires 0 <= i < |rules| => ProductionOf(rules[i]))
  }

  /** The tokens of a tree. */
  ghost function Print(rules: seq<Rule>): seq<Token>
    requires RulesPrint(rules)
  {
    Yield(ProductionsOf(rules))
  }

  // ---- what is printed builds the tree again

  lemma CountBack(n: nat)
    ensures CountOf(CountToken(n)) == n
  {
    ParseDigits(n, 10);
  }

  lemma DottedBack(literal: seq<Unit>)
    requires literal != []
    ensures Decode(Dotted(literal)) == Some(Term(literal, false))
  {
    var parts := seq(|literal|, i requires 0 <= i < |literal| => Hex(literal[i]));
    forall i | 0 <= i < |parts| ensures AllDigits(parts[i], 16) && Value(parts[i], 16) == literal[i] {
      DigitsRead(literal[i], 16);
    }
    HexDotted(parts, literal);
    JoinUnits(literal);
  }

  lemma RangeBack(lo: CodePoint, hi: CodePoint)
    requires lo != hi
    ensures Decode("%x" + Hex(lo) + "-" + Hex(hi)) == Some(RangeClass(lo, hi))
  {
    DigitsRead(lo, 16);
    DigitsRead(hi, 16);
    HexRange(Hex(lo), Hex(hi), lo, hi);
  }

  /** An atom of the grammar that builds a leaf. */
  predicate BuildsLeaf(a: Derivations.Atom, leaf: Leaf) {
    AtomOk(TypeScript, a) && AtomClosed(a) && BuildAtom(TypeScript, a).Lit? && BuildAtom(TypeScript, a).leaf == leaf
  }

  lemma NumberBuilds(src: string, leaf: Leaf)
    requires Decode(src) == Some(leaf)
    ensures BuildsLeaf(Simple(Written(NV, src)), leaf)
  {
  }

  lemma TermBack(leaf: Leaf)
    requires LeafPrints(leaf) && leaf.Term?
    ensures BuildsLeaf(LeafAtom(leaf), leaf)
  {
    if !leaf.caseSensitive && leaf.literal != [] {
      DottedBack(leaf.literal);
      NumberBuilds(Dotted(leaf.literal), leaf);
    }
  }

  lemma RegexBack(leaf: Leaf)
    requires LeafPrints(leaf) && leaf.Regex?
    ensures BuildsLeaf(LeafAtom(leaf), leaf)
  {
    var lo: CodePoint, hi: CodePoint :| IsRange(leaf.pattern, leaf.flags, lo, hi) &&
      LeafAtom(leaf) == Simple(Written(NV, "%x" + Hex(lo) + "-" + Hex(hi)));
    RangeBack(lo, hi);
    NumberBuilds("%x" + Hex(lo) + "-" + Hex(hi), leaf);
  }

  lemma LeafBack(leaf: Leaf)
    requires LeafPrints(leaf)
    ensures BuildsLeaf(LeafAtom(leaf), leaf)
  {
    match leaf
    case Term(_, _) => TermBack(leaf);
    case Regex(_, _) => RegexBack(leaf);
    case Prose(text) => assert ("<" + text + ">")[1..|text| + 1] == text;
    case Reference(_) =>
  }

  lemma {:induction false} AtomBack(t: Elem)
    requires AtomPrints(t)
    ensures var a := AtomOf(t);
            AtomOk(TypeScript, a) && AtomClosed(a) && Erase(BuildAtom(TypeScript, a)) == Erase(t)
    decreases t, 0
  {
    match t
    case Lit(leaf, _) => LeafBack(leaf);
    case Wrapped(_, inner, _) => AltsBack(inner.alts);
    case Group(alts, _) => AltsBack(alts);
  }

  lemma WrapBack(wrap: Wrap, item: Elem)
    requires WrapPrints(wrap)
    ensures var (min, max) := Bounds(CountOfWrap(wrap));
            CountOk(CountOfWrap(wrap)) && Repeat(min, max, item) == Wrapped(wrap, item, None)
  {
    CountBack(0);
    CountBack(1);
    match wrap
    case Rep(min, Fin(max)) => CountBack(min); CountBack(max);
    case Rep(min, Unbounded) => CountBack(min);
    case _ =>
  }

  lemma {:induction false} ElementBack(t: Elem)
    requires Prints(t)
    ensures var e := ElementOf(t);
            ElementOk(TypeScript, e) && AtomClosed(e.atom) && Erase(BuildElement(TypeScript, e)) == Erase(t)
    decreases t, 1
  {
    if AtomPrints(t) {
      AtomBack(t);
    } else {
      AtomBack(t.inner);
      WrapBack(t.wrap, BuildAtom(TypeScript, AtomOf(t.inner)));
    }
  }

  lemma {:induction false} SeqBack(ts: seq<Elem>)
    requires forall i :: 0 <= i < |ts| ==> Prints(ts[i])
    ensures var s := SeqOf(ts);
            && SeqOk(TypeScript, s) && SeqClosed(s)
            && EraseRow(Sequence(BuildSeq(TypeScript, s))) == EraseRow(Sequence(ts))
    decreases ts, 0
  {
    if ts != [] {
      ElementBack(ts[0]);
      SeqBack(ts[1..]);
      EraseRowCons(ts[0], ts[1..]);
      assert ts == [ts[0]] + ts[1..];
      EraseRowCons(BuildElement(TypeScript, ElementOf(ts[0])), BuildSeq(TypeScript, SeqOf(ts[1..])));
    }
  }

  lemma EraseRowCons(t: Elem, ts: seq<Elem>)
    ensures EraseRow(Sequence([t] + ts)) == Sequence([Erase(t)] + EraseRow(Sequence(ts)).items)
  {
  }

  lemma EraseRowsCons(s: Sequence, alts: seq<Sequence>)
    ensures EraseRows([s] + alts) == [EraseRow(s)] + EraseRows(alts)
  {
  }

  lemma {:induction false} RowBack(s: Sequence)
    requires RowPrints(s)
    ensures var q := RowOf(s);
            && SeqOk(TypeScript, q) && SeqClosed(q)
            && EraseRow(Sequence(BuildSeq(TypeScript, q))) == EraseRow(s)
    decreases s, 0
  {
    SeqBack(s.items);
    assert s == Sequence(s.items);
  }

  lemma {:induction false} AltsBack(alts: seq<Sequence>)
    requires AltsPrint(alts)
    ensures var a := AltsOf(alts);
            AltsOk(TypeScript, a) && AltsClosed(a) && EraseRows(BuildAlts(TypeScript, a)) == EraseRows(alts)
    decreases alts, 0
  {
    RowBack(alts[0]);
    var row := Sequence(BuildSeq(TypeScript, RowOf(alts[0])));
    EraseRowsCons(alts[0], alts[1..]);
    assert alts == [alts[0]] + alts[1..];
    if |alts| > 1 {
      AltsBack(alts[1..]);
      EraseRowsCons(row, BuildAlts(TypeScript, AltsOf(alts[1..])));
    } else {
      EraseRowsCons(row, []);
      assert [row] + [] == [row];
    }
  }

  /** A tree that can be written is read back, spans aside, from the tokens it is written
      with. */
  lemma PrintedParses(rules: seq<Rule>)
    requires RulesPrint(rules)
    ensures exists back: seq<Rule> ::
              Parses(TYPESCRIPT, Print(rules), back) && HoleFree(back) && EraseRules(back) == EraseRules(rules)
  {
    var ps := ProductionsOf(rules);
    var back := Build(TypeScript, ps);
    forall i | 0 <= i < |ps|
      ensures ProductionOk(TypeScript, ps[i]) && AltsClosed(ps[i].alts)
      ensures EraseRows(back[i].alts) == EraseRows(rules[i].alts)
    {
      AltsBack(rules[i].alts);
    }
    assert Derivation(TypeScript, ps);
    AcceptsExactlyTheGrammar(TypeScript, Print(rules), back);
    assert EraseRules(back) == EraseRules(rules);
  }

  // ---- every tree a parse builds can be written

  lemma DecodedPrints(src: string)
    requires Decode(src).Some?
    ensures LeafPrints(Decode(src).value)
  {
    var radix := RadixOf(src[1]);
    var body := src[2..];
    if '-' in body {
      var ends := Split('-', body);
      var lo, hi := ParseCodePoint(ends[0], radix).value, ParseCodePoint(ends[1], radix).value;
      if lo != hi {
        assert IsRange(RangeClass(lo, hi).pattern, RangeClass(lo, hi).flags, lo, hi);
      }
    }
  }

  lemma {:induction false} BuiltAtomPrints(a: Derivations.Atom)
    requires AtomOk(TypeScript, a) && AtomClosed(a)
    ensures AtomPrints(BuildAtom(TypeScript, a))
    decreases a, 0
  {
    match a
    case Simple(t) =>
      if t.kind == NV {
        DecodedPrints(t.src);
      }
    case Marked(_, t) =>
      assert OfString(t.val) == OfString(t.val);
    case Bracket(_, alts, _) => BuiltAltsPrint(alts);
  }

  lemma {:induction false} BuiltSeqPrints(s: Seq)
    requires SeqOk(TypeScript, s) && SeqClosed(s)
    ensures RowPrints(Sequence(BuildSeq(TypeScript, s)))
    decreases s, 0
  {
    if s.Then? {
      BuiltAtomPrints(s.first.atom);
      BuiltSeqPrints(s.more);
      var e := BuildElement(TypeScript, s.first);
      assert Prints(e);
      var items := Sequence(BuildSeq(TypeScript, s)).items;
      forall i | 0 <= i < |items| ensures Prints(items[i]) {
        if i > 0 {
          assert items[i] == Sequence(BuildSeq(TypeScript, s.more)).items[i - 1];
        }
      }
    }
  }

  lemma {:induction false} BuiltAltsPrint(a: Alts)
    requires AltsOk(TypeScript, a) && AltsClosed(a)
    ensures AltsPrint(BuildAlts(TypeScript, a))
    decreases a, 0
  {
    BuiltSeqPrints(a.head);
    if a.Or? {
      BuiltAltsPrint(a.more);
      var rest := BuildAlts(TypeScript, a.more);
      forall i | 0 <= i < |BuildAlts(TypeScript, a)| ensures RowPrints(BuildAlts(TypeScript, a)[i]) {
        if i > 0 {
          assert BuildAlts(TypeScript, a)[i] == rest[i - 1];
        }
      }
    }
  }

  /** Every tree a parse accepts can be written, and the print parses back to it. */
  lemma ParsedPrintsBack(tokens: seq<Token>, rules: seq<Rule>)
    requires Parses(TYPESCRIPT, tokens, rules) && HoleFree(rules)
    ensures RulesPrint(rules)
    ensures exists back: seq<Rule> ::
              Parses(TYPESCRIPT, Print(rules), back) && HoleFree(back) && EraseRules(back) == EraseRules(rules)
  {
    AcceptsExactlyTheGrammar(TypeScript, tokens, rules);
    var ps: seq<Production> :| Derivation(TypeScript, ps) && Yield(ps) == tokens && Build(TypeScript, ps) == rules;
    forall i | 0 <= i < |rules| ensures AltsPrint(rules[i].alts) {
      assert ps[i] in ps;
      BuiltAltsPrint(ps[i].alts);
    }
    PrintedParses(rules);
  }
}
