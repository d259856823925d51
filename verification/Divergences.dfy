/** Inputs on which the ports part company: a range, digits of another radix, and halves of a
    surrogate pair. */
module Divergences {
  import opened Strings
  import opened Unicode
  import opened Ports
  import opened Numeric
  import opened DigitText
  import opened Numerals
  import opened Tokens
  import opened Ast
  import opened Derivations
  import opened Grammar
  import opened Porting
  import opened Parsing

  const NAME: Token := Token(TX, "a", "a", 0, 1, 1, 1)
  const IS: Token := Token(DEF, "=", "=", 2, 1, 1, 3)

  function Number(src: string): Token { Token(NV, src, src, 4, |src|, 1, 5) }

  /** The source `a = ` and one numeric value. */
  function Source(src: string): seq<Token> { [NAME, IS, Number(src)] }

  function OneRule(src: string, leaf: Leaf): seq<Rule> {
    [Rule("a", [Sequence([Lit(leaf, Some(SpanOf(Number(src))))])], false, Some(SpanOf(NAME)))]
  }

  function Alone(t: Token): Alts { Only(Then(Element(One, Simple(t)), Empty)) }

  function Deriving(src: string): seq<Derivations.Production> {
    [Derivations.Production(NAME, IS, Alone(Number(src)))]
  }

  lemma AloneDerives(port: Port, t: Token, leaf: Leaf)
    requires t.kind == NV && DecodeFor(port, t.src) == Some(leaf)
    ensures AltsOk(port, Alone(t)) && AltsClosed(Alone(t)) && AltsNest(Alone(t)) == 0
    ensures BuildAlts(port, Alone(t)) == [Sequence([Lit(leaf, Some(SpanOf(t)))])]
  {
    var e, s := Element(One, Simple(t)), Alone(t).head;
    assert ElementOk(port, e) && SeqOk(port, Empty);
    assert SeqOk(port, s);
    assert SeqNest(Empty) == 0 && SeqNest(s) == 0;
    assert BuildElement(port, e) == Lit(leaf, Some(SpanOf(t)));
    assert BuildSeq(port, s) == [Lit(leaf, Some(SpanOf(t)))];
  }

  lemma AloneYields(t: Token)
    ensures AltsOnto(Alone(t), []) == [t]
  {
    assert ElementOnto(Element(One, Simple(t)), []) == [t];
    assert SeqOnto(Empty, []) == [];
  }

  lemma SourceDerives(port: Port, src: string, leaf: Leaf)
    requires DecodeFor(port, src) == Some(leaf)
    ensures Derivation(port, Deriving(src)) && NestWithin(Deriving(src), 0)
  {
    AloneDerives(port, Number(src), leaf);
  }

  lemma SourceBuilds(port: Port, src: string, leaf: Leaf)
    requires DecodeFor(port, src) == Some(leaf)
    ensures Build(port, Deriving(src)) == OneRule(src, leaf)
  {
    AloneDerives(port, Number(src), leaf);
    assert BuildProduction(port, Deriving(src)[0]) == OneRule(src, leaf)[0];
  }

  lemma SourceYields(src: string)
    ensures Yield(Deriving(src)) == Source(src)
  {
    AloneYields(Number(src));
    assert Onto(Deriving(src)[1..], []) == [];
    assert [NAME, IS] + [Number(src)] == Source(src);
  }

  lemma SourceDecodes(port: Port, src: string)
    requires DecodeFor(port, src).Some?
    ensures Decodes(port, Source(src))
  {
    forall t | t in Source(src) && t.kind == NV ensures t.src == src {
    }
  }

  /** It parses to the one rule that holds what the port decodes. */
  lemma SourceParses(mode: Mode, src: string, leaf: Leaf)
    requires DecodeFor(mode.port, src) == Some(leaf)
    ensures Parses(mode, Source(src), OneRule(src, leaf))
  {
    Narrower(mode.port, src);
    SourceDerives(TypeScript, src, Decode(src).value);
    SourceBuilds(mode.port, src, leaf);
    SourceYields(src);
    ReadsExactlyDerivations(TypeScript, Source(src), Deriving(src));
    ReadsWhatItKeeps(mode, Source(src));
    SourceDecodes(mode.port, src);
    ParsesRead(mode, Source(src), OneRule(src, leaf));
  }

  lemma RangeRead()
    ensures NumeralFor(TypeScript, "%x41-5A") == Some(Interval(0x41, 0x5A))
    ensures NumeralFor(GoPort, "%x41-5A") == Some(Interval(0x41, 0x5A))
  {
    TwoDigits('4', '1');
    TwoDigits('5', 'A');
    assert "%" + ['x'] + "41" + "-" + "5A" == "%x41-5A";
    ReadsRange('x', 16, "41", "5A", 0x41, 0x5A);
    PlainRange('x', 16, "41", "5A", 0x41, 0x5A);
  }

  /** `%x41-5A`: all three read it, and Go writes another class for it. */
  lemma RangeDiverges(src: string, written: Leaf, other: Leaf)
    requires src == "%x41-5A" && written == RangeClass(0x41, 0x5A) && other == GoClass(0x41, 0x5A)
    ensures Parses(TYPESCRIPT, Source(src), OneRule(src, written)) && Parses(RUST, Source(src), OneRule(src, written))
    ensures Parses(GO, Source(src), OneRule(src, other)) && OneRule(src, other) != OneRule(src, written)
  {
    RangeDecodes(src, written, other);
    EachParses(src, written, written, other);
    RulesDiffer(src, written, other);
  }

  lemma RangeDecodes(src: string, written: Leaf, other: Leaf)
    requires src == "%x41-5A" && written == RangeClass(0x41, 0x5A) && other == GoClass(0x41, 0x5A)
    ensures Decode(src) == Some(written) && DecodeFor(RustPort, src) == Some(written)
    ensures DecodeFor(GoPort, src) == Some(other) && other != written
  {
    RangeRead();
    ClassesDiffer(0x41, 0x5A);
  }

  lemma RulesDiffer(src: string, a: Leaf, b: Leaf)
    requires a != b
    ensures OneRule(src, b) != OneRule(src, a)
  {
    assert OneRule(src, a)[0].alts[0].items[0] == Lit(a, Some(SpanOf(Number(src))));
    assert OneRule(src, b)[0].alts[0].items[0] == Lit(b, Some(SpanOf(Number(src))));
  }

  lemma DigitsRead5()
    ensures NumeralFor(TypeScript, "%d5A") == Some(Chain([5])) && !PlainNumeral("%d5A")
  {
    var src, body := "%d5A", "5A";
    assert src[2..] == body;
    SplitFirst('.', body, "");
    var parts: seq<string> := [body];
    assert parts[1..] == [];
    assert ParseCodePoints(parts[1..], 10) == Some([]);
    assert [5] + [] == [5];
    assert ParseCodePoints(parts, 10) == Some([5]);
    assert src[1] == 'd' && RadixOf(src[1]) == 10 && '-' !in body;
    assert body[1] in body && !AllDigits(body, 10);
    assert body in parts;
  }

  /** `%d5A`: TypeScript and Rust read the digits of its radix, and Go refuses the source. */
  lemma DigitsDiverge(src: string, five: Leaf)
    requires src == "%d5A" && five == Term([5], false)
    ensures Parses(TYPESCRIPT, Source(src), OneRule(src, five)) && Parses(RUST, Source(src), OneRule(src, five))
    ensures !Accepts(GO, Source(src))
  {
    DigitsRead5();
    FiveWritten([5]);
    SourceParses(TYPESCRIPT, src, five);
    SourceParses(RUST, src, five);
    GoAccepts(Source(src));
    assert Number(src) in Source(src);
  }

  lemma FiveWritten(codes: seq<CodePoint>)
    requires codes == [5]
    ensures LeafFor(TypeScript, Chain(codes)) == Term([5], false) == LeafFor(RustPort, Chain(codes))
  {
    JoinUnits(codes);
    ChainShared(RustPort, codes);
  }

  lemma PairReads()
    ensures NumeralFor(TypeScript, "%xD800.DC00") == Some(Chain([0xD800, 0xDC00]))
    ensures NumeralFor(GoPort, "%xD800.DC00") == Some(Chain([0xD800, 0xDC00]))
  {
    FourDigits('D', '8', '0', '0');
    FourDigits('D', 'C', '0', '0');
    var parts := ["D800", "DC00"];
    assert "%" + ['x'] + Strings.Join(".", parts) == "%xD800.DC00" by {
      assert parts[1..] == ["DC00"];
    }
    ReadsDotted('x', 16, parts, [0xD800, 0xDC00]);
    PlainDotted('x', 16, parts, [0xD800, 0xDC00]);
  }

  lemma PairDecodes(src: string, halves: Leaf, replaced: Leaf)
    requires src == "%xD800.DC00"
    requires halves == Term([0xD800, 0xDC00], false) && replaced == Term([0xFFFD, 0xFFFD], false)
    ensures Decode(src) == Some(halves) && DecodeFor(RustPort, src) == Some(halves)
    ensures DecodeFor(GoPort, src) == Some(replaced)
  {
    PairReads();
    PairWritten([0xD800, 0xDC00]);
  }

  lemma PairWritten(codes: seq<CodePoint>)
    requires codes == [0xD800, 0xDC00]
    ensures LeafFor(TypeScript, Chain(codes)) == Term([0xD800, 0xDC00], false)
    ensures LeafFor(RustPort, Chain(codes)) == Term([0xD800, 0xDC00], false)
    ensures LeafFor(GoPort, Chain(codes)) == Term([0xFFFD, 0xFFFD], false)
  {
    JoinUnits(codes);
    assert WellPaired(codes);
    ChainShared(RustPort, codes);
    assert Scalars(codes) == [0xFFFD, 0xFFFD];
    JoinUnits([0xFFFD, 0xFFFD]);
  }

  /** `%xD800.DC00`: the halves of U+10000 in TypeScript and in Rust, two replacement
      characters in Go. */
  lemma PairDiverges(src: string, halves: Leaf, replaced: Leaf)
    requires src == "%xD800.DC00"
    requires halves == Term([0xD800, 0xDC00], false) && replaced == Term([0xFFFD, 0xFFFD], false)
    ensures Parses(TYPESCRIPT, Source(src), OneRule(src, halves))
    ensures Parses(RUST, Source(src), OneRule(src, halves))
    ensures Parses(GO, Source(src), OneRule(src, replaced))
  {
    PairDecodes(src, halves, replaced);
    EachParses(src, halves, halves, replaced);
  }

  lemma EachParses(src: string, ts: Leaf, rust: Leaf, go: Leaf)
    requires Decode(src) == Some(ts) && DecodeFor(RustPort, src) == Some(rust) && DecodeFor(GoPort, src) == Some(go)
    ensures Parses(TYPESCRIPT, Source(src), OneRule(src, ts)) && Parses(RUST, Source(src), OneRule(src, rust))
    ensures Parses(GO, Source(src), OneRule(src, go))
  {
    SourceParses(TYPESCRIPT, src, ts);
    SourceParses(RUST, src, rust);
    SourceParses(GO, src, go);
  }
}
