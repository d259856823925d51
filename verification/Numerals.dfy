/** Where the ports' readings of one numeric value are the same. */
module Numerals {
  import opened Strings
  import opened Unicode
  import opened Ports
  import opened Utf16
  import opened Numeric
  import opened DigitText

  /** Every part of the text is digits of its radix, and at most one `-` stands among them. */
  predicate PlainNumeral(src: string) {
    |src| >= 2 &&
    var radix := RadixOf(src[1]);
    var body := src[2..];
    var parts := if '-' in body then Split('-', body) else Split('.', body);
    ('-' in body ==> |parts| == 2) && forall p :: p in parts ==> AllDigits(p, radix)
  }

  lemma WholeIsPrefix(text: string, radix: Radix)
    requires AllDigits(text, radix)
    ensures ParseWhole(text, radix) == ParseCodePoint(text, radix)
  {
  }

  lemma {:induction false} WholeParts(parts: seq<string>, radix: Radix)
    ensures ParseAllWhole(parts, radix) ==
            if forall p :: p in parts ==> AllDigits(p, radix) then ParseCodePoints(parts, radix) else None
    decreases |parts|
  {
    if parts != [] {
      WholeParts(parts[1..], radix);
      assert parts == [parts[0]] + parts[1..];
      assert forall p :: p in parts <==> p == parts[0] || p in parts[1..];
      if AllDigits(parts[0], radix) {
        WholeIsPrefix(parts[0], radix);
      }
    }
  }

  /** A text cut once, and cut everywhere. */
  lemma CutOnce(body: string)
    requires '-' in body
    ensures var i, parts := Find('-', body), Split('-', body);
            i < |body| && parts[0] == body[..i] && parts[1..] == Split('-', body[i + 1..])
            && (|parts| == 2 <==> '-' !in body[i + 1..]) && ('-' !in body[i + 1..] ==> parts[1] == body[i + 1..])
  {
    var i := Find('-', body);
    assert body[..|body|] == body;
    SplitStep('-', body);
    var rest := body[i + 1..];
    SplitStep('-', rest);
    var j := Find('-', rest);
    if j == |rest| {
      assert rest[..j] == rest;
    } else {
      assert rest[j] in rest;
    }
  }

  lemma DashIsNoDigit(text: string, radix: Radix)
    requires '-' in text
    ensures !AllDigits(text, radix)
  {
  }

  lemma TwoParts(parts: seq<string>, radix: Radix)
    requires |parts| == 2
    ensures OfEnds(ParseWhole(parts[0], radix), ParseWhole(parts[1], radix)) ==
            if forall p :: p in parts ==> AllDigits(p, radix)
            then OfEnds(ParseCodePoint(parts[0], radix), ParseCodePoint(parts[1], radix))
            else None
  {
    assert parts == [parts[0], parts[1]];
    assert forall p :: p in parts <==> p == parts[0] || p == parts[1];
  }

  lemma EndsRead(body: string, radix: Radix)
    requires '-' in body
    ensures var i, parts := Find('-', body), Split('-', body);
            i < |body| &&
            var whole := OfEnds(ParseWhole(body[..i], radix), ParseWhole(body[i + 1..], radix));
            if |parts| == 2 && (forall p :: p in parts ==> AllDigits(p, radix))
            then whole == OfEnds(ParseCodePoint(parts[0], radix), ParseCodePoint(parts[1], radix))
            else whole == None
  {
    CutOnce(body);
    var i, parts := Find('-', body), Split('-', body);
    if '-' in body[i + 1..] {
      DashIsNoDigit(body[i + 1..], radix);
    } else {
      TwoParts(parts, radix);
    }
  }

  /** Go reads exactly the plain ones of the texts TypeScript and Rust read, and those alike. */
  lemma WholeIsPlain(src: string)
    ensures ReadWhole(src) == if PlainNumeral(src) then ReadNumeral(src) else None
  {
    if |src| >= 2 {
      var radix, body := RadixOf(src[1]), src[2..];
      if '-' in body {
        EndsRead(body, radix);
      } else {
        WholeParts(Split('.', body), radix);
      }
    }
  }

  /** Digits of the radix alone are plain. */
  lemma PlainDotted(letter: char, radix: Radix, parts: seq<string>, codes: seq<CodePoint>)
    requires BaseLetter(letter, radix) && |parts| == |codes| > 0
    requires forall i :: 0 <= i < |parts| ==>
               AllDigits(parts[i], radix) && parts[i] != "" && Value(parts[i], radix) == codes[i]
    ensures NumeralFor(GoPort, "%" + [letter] + Strings.Join(".", parts)) == Some(Chain(codes))
  {
    ReadsDotted(letter, radix, parts, codes);
    Prefixed(letter, Strings.Join(".", parts));
    WholeIsPlain("%" + [letter] + Strings.Join(".", parts));
  }

  lemma PlainRange(letter: char, radix: Radix, low: string, high: string, lo: CodePoint, hi: CodePoint)
    requires BaseLetter(letter, radix)
    requires AllDigits(low, radix) && low != "" && Value(low, radix) == lo
    requires AllDigits(high, radix) && high != "" && Value(high, radix) == hi
    ensures NumeralFor(GoPort, "%" + [letter] + low + "-" + high) ==
            Some(if lo == hi then Single(lo) else Interval(lo, hi))
  {
    var src := "%" + [letter] + low + "-" + high;
    ReadsRange(letter, radix, low, high, lo, hi);
    assert src[1] == letter && src[2..][|low|] == '-';
    WholeIsPlain(src);
  }

  /** Dotted digits after each letter, as each port decodes them: joined, each scalar alone, or
      the joined units read as characters. */
  lemma PortsDecodeDotted(letter: char, radix: Radix, parts: seq<string>, codes: seq<CodePoint>)
    requires (radix == 16 && (letter == 'x' || letter == 'X')) || (radix == 10 && (letter == 'd' || letter == 'D'))
          || (radix == 2 && (letter == 'b' || letter == 'B'))
    requires |parts| == |codes| > 0
    requires forall i :: 0 <= i < |parts| ==>
               AllDigits(parts[i], radix) && parts[i] != "" && Value(parts[i], radix) == codes[i]
    ensures var src := "%" + [letter] + Strings.Join(".", parts);
            && DecodeFor(TypeScript, src) == Some(Term(Unicode.Join(codes), false))
            && DecodeFor(RustPort, src) == Some(Term(Unicode.Join(Lossy(Unicode.Join(codes))), false))
            && DecodeFor(GoPort, src) == Some(Term(Unicode.Join(Scalars(codes)), false))
  {
    var src := "%" + [letter] + Strings.Join(".", parts);
    PlainDotted(letter, radix, parts, codes);
    ReadsDotted(letter, radix, parts, codes);
    ChainDecodes(TypeScript, src, codes);
    ChainDecodes(RustPort, src, codes);
    ChainDecodes(GoPort, src, codes);
  }

  /** Two ends after each letter, as each port decodes them. */
  lemma PortsDecodeRange(letter: char, radix: Radix, low: string, high: string, lo: CodePoint, hi: CodePoint)
    requires (radix == 16 && (letter == 'x' || letter == 'X')) || (radix == 10 && (letter == 'd' || letter == 'D'))
          || (radix == 2 && (letter == 'b' || letter == 'B'))
    requires AllDigits(low, radix) && low != "" && Value(low, radix) == lo
    requires AllDigits(high, radix) && high != "" && Value(high, radix) == hi && lo != hi
    ensures var src := "%" + [letter] + low + "-" + high;
            && DecodeFor(TypeScript, src) == Some(RangeClass(lo, hi)) == DecodeFor(RustPort, src)
            && DecodeFor(GoPort, src) == Some(GoClass(lo, hi))
  {
    PlainRange(letter, radix, low, high, lo, hi);
    ReadsRange(letter, radix, low, high, lo, hi);
  }

  lemma PaddedHex(n: CodePoint)
    ensures AllDigits(Pad4(Hex(n)), 16) && |Pad4(Hex(n))| >= 4 && Value(Pad4(Hex(n)), 16) == n
  {
    DigitsRead(n, 16);
    if |Hex(n)| < 4 {
      LeadingZeros(4 - |Hex(n)|, Hex(n));
    }
  }

  /** The class Go writes for a range: its ends in order, each in braces, in at least four
      hexadecimal digits. */
  lemma GoClassReads(lo: CodePoint, hi: CodePoint) returns (low: string, high: string)
    ensures GoClass(lo, hi) == Regex("[\\x{" + low + "}-\\x{" + high + "}]", "")
    ensures AllDigits(low, 16) && |low| >= 4 && Value(low, 16) == lo
    ensures AllDigits(high, 16) && |high| >= 4 && Value(high, 16) == hi
  {
    low, high := Pad4(Hex(lo)), Pad4(Hex(hi));
    PaddedHex(lo);
    PaddedHex(hi);
  }

  lemma ChainDecodes(port: Port, src: string, codes: seq<CodePoint>)
    requires NumeralFor(port, src) == Some(Chain(codes))
    ensures DecodeFor(port, src) == Some(Term(Held(port, codes), false))
  {
  }

  /** No port decodes what TypeScript does not. */
  lemma Narrower(port: Port, src: string)
    ensures DecodeFor(port, src).Some? ==> Decode(src).Some?
  {
    WholeIsPlain(src);
  }

  // ---- where what is decoded is the same

  /** The code points a numeral names one by one, and not by a range. */
  function CodesOf(n: Numeral): seq<CodePoint> {
    match n
    case Single(c) => [c]
    case Interval(_, _) => []
    case Chain(codes) => codes
  }

  /** Units, taken as code points, join to themselves. */
  lemma {:induction false} JoinUnits(literal: seq<Unit>)
    ensures Unicode.Join(literal) == literal
    decreases |literal|
  {
    if literal != [] {
      JoinUnits(literal[1..]);
      assert literal == [literal[0]] + literal[1..];
    }
  }

  lemma {:induction false} ScalarsSame(codes: seq<CodePoint>)
    ensures Unicode.Join(Scalars(codes)) == Unicode.Join(codes) <==> forall c :: c in codes ==> !Surrogate(c)
    decreases |codes|
  {
    if codes != [] {
      var c, rest := codes[0], codes[1..];
      ScalarsSame(rest);
      assert codes == [c] + rest;
      assert Scalars(codes) == [Scalar(c)] + Scalars(rest);
      JoinCons(c, rest);
      JoinCons(Scalar(c), Scalars(rest));
      SameFirst(FromCodePoint(Scalar(c)), FromCodePoint(c), Unicode.Join(Scalars(rest)), Unicode.Join(rest));
      assert forall d :: d in codes <==> d == c || d in rest;
    }
  }

  lemma SameFirst(a: seq<Unit>, b: seq<Unit>, x: seq<Unit>, y: seq<Unit>)
    requires |a| == |b|
    ensures a + x == b + y <==> a == b && x == y
  {
    if a + x == b + y {
      assert a == (a + x)[..|a|] == (b + y)[..|b|] == b;
      assert x == (a + x)[|a|..] == (b + y)[|b|..] == y;
    }
  }

  /** A half that stands without its mate beside it. */
  predicate Unpaired(codes: seq<CodePoint>, i: nat)
    requires i < |codes|
  {
    && Surrogate(codes[i])
    && !(HighHalf(codes[i]) && i + 1 < |codes| && LowHalf(codes[i + 1]))
    && !(LowHalf(codes[i]) && i > 0 && HighHalf(codes[i - 1]))
  }

  predicate WellPaired(codes: seq<CodePoint>) {
    forall i :: 0 <= i < |codes| ==> !Unpaired(codes, i)
  }

  lemma PairedAfter(codes: seq<CodePoint>, n: nat)
    requires 0 < n <= |codes| && !HighHalf(codes[n - 1])
    requires forall i :: 0 <= i < n ==> !Unpaired(codes, i)
    ensures WellPaired(codes) <==> WellPaired(codes[n..])
  {
    var rest := codes[n..];
    forall i | 0 <= i < |rest| ensures Unpaired(rest, i) <==> Unpaired(codes, i + n) {
    }
    if WellPaired(rest) {
      forall i | 0 <= i < |codes| ensures !Unpaired(codes, i) {
        assert i >= n ==> !Unpaired(rest, i - n);
      }
    }
    if WellPaired(codes) {
      forall i | 0 <= i < |rest| ensures !Unpaired(rest, i) {
        assert !Unpaired(codes, i + n);
      }
    }
  }

  /** Decoding the joined units and encoding them again keeps the text exactly where no half
      stands alone. */
  lemma {:induction false} LossySame(codes: seq<CodePoint>)
    ensures Unicode.Join(Lossy(Unicode.Join(codes))) == Unicode.Join(codes) <==> WellPaired(codes)
  {
    LossyNames(codes);
    NamedSame(codes);
  }

  lemma {:induction false} NamedSame(codes: seq<CodePoint>)
    ensures Unicode.Join(Named(codes)) == Unicode.Join(codes) <==> WellPaired(codes)
    decreases |codes|
  {
    if codes != [] {
      if HighHalf(codes[0]) && |codes| > 1 && LowHalf(codes[1]) {
        PairSame(codes);
      } else {
        OneSame(codes);
      }
    }
  }

  lemma {:induction false} PairSame(codes: seq<CodePoint>)
    requires |codes| > 1 && HighHalf(codes[0]) && LowHalf(codes[1])
    ensures Unicode.Join(Named(codes)) == Unicode.Join(codes) <==> WellPaired(codes)
    decreases |codes|, 0
  {
    var joined, rest := JoinHalves(codes[0], codes[1]), codes[2..];
    NamedSame(rest);
    PairedAfter(codes, 2);
    JoinCons(joined, Named(rest));
    assert codes == [codes[0], codes[1]] + rest;
    assert FromCodePoint(joined) == [codes[0], codes[1]];
    SameFirst(FromCodePoint(joined), [codes[0], codes[1]], Unicode.Join(Named(rest)), Unicode.Join(rest));
  }

  lemma {:induction false} OneSame(codes: seq<CodePoint>)
    requires codes != [] && !(HighHalf(codes[0]) && |codes| > 1 && LowHalf(codes[1]))
    ensures Unicode.Join(Named(codes)) == Unicode.Join(codes) <==> WellPaired(codes)
    decreases |codes|, 0
  {
    var c, rest := codes[0], codes[1..];
    NamedSame(rest);
    assert codes == [c] + rest;
    JoinCons(c, rest);
    JoinCons(Scalar(c), Named(rest));
    SameFirst(FromCodePoint(Scalar(c)), FromCodePoint(c), Unicode.Join(Named(rest)), Unicode.Join(rest));
    if Surrogate(c) {
      assert Unpaired(codes, 0);
    } else {
      PairedAfter(codes, 1);
    }
  }

  /** Where a port writes a numeral as TypeScript does. */
  predicate Shared(port: Port, n: Numeral) {
    match port
    case TypeScript => true
    case GoPort => !n.Interval? && forall c :: c in CodesOf(n) ==> !Surrogate(c)
    case RustPort => WellPaired(CodesOf(n))
  }

  lemma ClassesDiffer(lo: CodePoint, hi: CodePoint)
    ensures GoClass(lo, hi) != RangeClass(lo, hi)
  {
    assert GoClass(lo, hi).pattern[2] == 'x';
    assert RangeClass(lo, hi).pattern[2] == 'u';
  }

  lemma SingleShared(port: Port, c: CodePoint)
    ensures LeafFor(port, Single(c)) == LeafFor(TypeScript, Single(c)) <==> Shared(port, Single(c))
  {
    assert WellPaired([c]) <==> !Unpaired([c], 0);
    assert c in [c];
  }

  lemma ChainShared(port: Port, codes: seq<CodePoint>)
    ensures LeafFor(port, Chain(codes)) == LeafFor(TypeScript, Chain(codes)) <==> Shared(port, Chain(codes))
  {
    match port
    case TypeScript =>
    case GoPort => ScalarsSame(codes);
    case RustPort => LossySame(codes);
  }

  lemma LeafShared(port: Port, n: Numeral)
    ensures LeafFor(port, n) == LeafFor(TypeScript, n) <==> Shared(port, n)
  {
    match n
    case Single(c) => SingleShared(port, c);
    case Interval(lo, hi) => ClassesDiffer(lo, hi);
    case Chain(codes) => ChainShared(port, codes);
  }

  /** Whether a port decodes a text TypeScript decodes, by the text alone. */
  predicate Admits(port: Port, src: string) { port.GoPort? ==> PlainNumeral(src) }

  /** Whether it then decodes it to the same element. */
  predicate Agrees(port: Port, src: string) {
    ReadNumeral(src).Some? ==> Shared(port, ReadNumeral(src).value)
  }

  lemma DecodesWhere(port: Port, src: string)
    ensures DecodeFor(port, src).Some? <==> Decode(src).Some? && Admits(port, src)
    ensures DecodeFor(port, src).Some? ==> (DecodeFor(port, src) == Decode(src) <==> Agrees(port, src))
  {
    WholeIsPlain(src);
    if NumeralFor(port, src).Some? {
      LeafShared(port, NumeralFor(port, src).value);
    }
  }
}
