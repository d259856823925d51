/** Code points as the render holds them: three numbers, the bytes from the highest. */
module CodePoints {
  import opened Numeric
  import opened DigitText

  type Byte = b: int | 0 <= b < 256

  datatype Cp = Cp(top: nat, mid: Byte, low: Byte)

  datatype Order = Less | Equal | Greater

  function Compare(a: nat, b: nat): Order {
    if a < b then Less else if a == b then Equal else Greater
  }

  /** `abnf-cp-order`: by the bytes, the highest first. */
  function CpOrder(a: Cp, b: Cp): Order {
    if Compare(a.top, b.top) != Equal then Compare(a.top, b.top)
    else if Compare(a.mid, b.mid) != Equal then Compare(a.mid, b.mid)
    else Compare(a.low, b.low)
  }

  predicate CpBefore(a: Cp, b: Cp) { CpOrder(a, b) == Less }

  predicate CpIs(a: Cp, b: Cp) { CpOrder(a, b) == Equal }

  /** `abnf-cp-next`: the low byte one more, carried into the bytes above it. */
  function CpNext(c: Cp): Cp {
    if c.low == 255 then
      if c.mid == 255 then Cp(c.top + 1, 0, 0) else Cp(c.top, c.mid + 1, 0)
    else Cp(c.top, c.mid, c.low + 1)
  }

  /** The number bytes are, from the highest. */
  function Positional(bytes: seq<nat>): nat {
    if bytes == [] then 0 else Positional(bytes[..|bytes| - 1]) * 0x100 + bytes[|bytes| - 1]
  }

  /** The number a code point's bytes are. */
  function Num(c: Cp): nat { Positional([c.top, c.mid, c.low]) }

  lemma NumIs(c: Cp)
    ensures Num(c) == c.top * 0x1_0000 + c.mid * 0x100 + c.low
  {
    PositionalSnoc([], c.top);
    PositionalSnoc([c.top], c.mid);
    PositionalSnoc([c.top, c.mid], c.low);
    assert [] + [c.top] == [c.top] && [c.top] + [c.mid] == [c.top, c.mid];
    assert [c.top, c.mid] + [c.low] == [c.top, c.mid, c.low];
  }

  lemma PositionalSnoc(bytes: seq<nat>, b: nat)
    ensures Positional(bytes + [b]) == Positional(bytes) * 0x100 + b
  {
    assert (bytes + [b])[..|bytes|] == bytes;
  }

  /** The bytes are ordered as the numbers are, and the carry is the number after. */
  lemma OrderIsNumeric(a: Cp, b: Cp)
    ensures CpBefore(a, b) <==> Num(a) < Num(b)
    ensures CpIs(a, b) <==> a == b
    ensures a == b <==> Num(a) == Num(b)
  {
    NumIs(a);
    NumIs(b);
  }

  lemma NextIsSuccessor(c: Cp)
    ensures Num(CpNext(c)) == Num(c) + 1
  {
    NumIs(c);
    NumIs(CpNext(c));
  }

  const FIRST: Cp := Cp(0, 0, 0)
  const LAST: Cp := Cp(0x10, 0xFF, 0xFF)

  lemma EndsAre(c: Cp)
    ensures CpIs(c, FIRST) <==> Num(c) == 0
    ensures CpIs(c, LAST) <==> Num(c) == 0x10_FFFF
  {
    OrderIsNumeric(c, FIRST);
    OrderIsNumeric(c, LAST);
    NumIs(FIRST);
    NumIs(LAST);
  }

  // ---- from one to six hexadecimal digits

  /** `abnf-six`: zeros in front, six digits in all. */
  function Six(h: string): string {
    if |h| >= 6 then h else seq(6 - |h|, _ => '0') + h
  }

  /** A pair's place among the 256, `00` to `FF` in order. */
  function PairValue(pair: string): Byte
    requires |pair| == 2 && AllDigits(pair, 16)
  {
    DigitValue(pair[0]) * 16 + DigitValue(pair[1])
  }

  lemma SixDigits(h: string)
    requires AllDigits(h, 16) && |h| <= 6
    ensures |Six(h)| == 6 && AllDigits(Six(h), 16) && Value(Six(h), 16) == Value(h, 16)
  {
    LeadingZeros(6 - |h|, h);
    assert seq(0, _ => '0') + h == h;
  }

  /** The bytes of the three pairs of six digits. */
  function CpOfPairs(x: string): Cp
    requires |x| == 6 && AllDigits(x, 16)
  {
    Cp(PairValue(x[..2]), PairValue(x[2..4]), PairValue(x[4..]))
  }

  /** `abnf-cp`: the code point of one to six digits, in either case. */
  function CpOfHex(h: string): Cp
    requires AllDigits(h, 16) && |h| <= 6
  {
    UpperReads(h);
    SixDigits(HexUpper(h));
    CpOfPairs(Six(HexUpper(h)))
  }

  lemma PairReads(text: string, pair: string)
    requires |pair| == 2 && AllDigits(pair, 16)
    ensures Value(text + pair, 16) == Value(text, 16) * 256 + PairValue(pair)
  {
    ValueSnoc(text, pair[0], 16);
    ValueSnoc(text + [pair[0]], pair[1], 16);
    assert text + pair == text + [pair[0]] + [pair[1]];
  }

  lemma ThreePairs(a: string, b: string, c: string)
    requires |a| == |b| == |c| == 2 && AllDigits(a, 16) && AllDigits(b, 16) && AllDigits(c, 16)
    ensures Num(Cp(PairValue(a), PairValue(b), PairValue(c))) == Value(a + b + c, 16)
  {
    NumIs(Cp(PairValue(a), PairValue(b), PairValue(c)));
    assert "" + a == a;
    PairReads("", a);
    PairReads(a, b);
    PairReads(a + b, c);
  }

  lemma CpOfPairsIsValue(x: string)
    requires |x| == 6 && AllDigits(x, 16)
    ensures Num(CpOfPairs(x)) == Value(x, 16)
  {
    var a, b, c := x[..2], x[2..4], x[4..];
    assert x == a + b + c;
    ThreePairs(a, b, c);
  }

  /** The bytes are the number the digits name. */
  lemma CpOfHexIsValue(h: string)
    requires AllDigits(h, 16) && |h| <= 6
    ensures Num(CpOfHex(h)) == Value(h, 16)
  {
    UpperReads(h);
    SixDigits(HexUpper(h));
    CpOfPairsIsValue(Six(HexUpper(h)));
  }
}
