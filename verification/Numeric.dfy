/** Numeric values: `%x41`, `%d65`, `%b1000001`, the range `%x41-5A` and the
    concatenation `%x0D.0A`, as each port reads them and as each writes what it read. */
module Numeric {
  import opened Strings
  import opened Unicode
  import opened Ports
  import opened Utf16

  /** What a terminal or a reference holds. */
  datatype Leaf =
    | Term(literal: seq<Unit>, caseSensitive: bool)
    | Regex(pattern: string, flags: string)
    | Prose(text: string)
    | Reference(name: string)

  type Radix = r: nat | r == 2 || r == 10 || r == 16 witness 2

  /** A digit's value in the widest radix, or 16 for a character that is no digit. */
  function DigitValue(c: char): (d: nat)
    ensures d <= 16
  {
    if '0' <= c <= '9' then c as int - '0' as int
    else if 'a' <= c <= 'f' then c as int - 'a' as int + 10
    else if 'A' <= c <= 'F' then c as int - 'A' as int + 10
    else 16
  }

  /** The longest prefix of `text` that is digits of `radix`. */
  function DigitPrefix(text: string, radix: Radix): (prefix: string)
    ensures prefix <= text
    ensures forall c :: c in prefix ==> DigitValue(c) < radix
    ensures |prefix| < |text| ==> DigitValue(text[|prefix|]) >= radix
  {
    if text == "" || DigitValue(text[0]) >= radix then ""
    else [text[0]] + DigitPrefix(text[1..], radix)
  }

  /** The integer a string of digits names. */
  function Value(digits: string, radix: Radix): nat {
    if digits == "" then 0
    else Value(digits[..|digits| - 1], radix) * radix + DigitValue(digits[|digits| - 1])
  }

  /** `parseInt(text, radix)`: nothing (NaN) where no digit leads. */
  function ParseInt(text: string, radix: Radix): Option<nat> {
    var digits := DigitPrefix(text, radix);
    if digits == "" then None else Some(Value(digits, radix))
  }

  /** A code point, or nothing where the text names no number or one past U+10FFFF. */
  function ParseCodePoint(text: string, radix: Radix): Option<CodePoint> {
    match ParseInt(text, radix)
    case None => None
    case Some(n) => if n <= 0x10_FFFF then Some(n) else None
  }

  function RadixOf(base: char): Radix {
    if base == 'x' || base == 'X' then 16 else if base == 'd' || base == 'D' then 10 else 2
  }

  function ParseCodePoints(parts: seq<string>, radix: Radix): Option<seq<CodePoint>> {
    if parts == [] then Some([])
    else
      match (ParseCodePoint(parts[0], radix), ParseCodePoints(parts[1..], radix))
      case (Some(c), Some(cs)) => Some([c] + cs)
      case _ => None
  }

  function Digit(d: nat): char
    requires d < 16
  {
    "0123456789abcdef"[d]
  }

  /** `n.toString(radix)`. */
  function Digits(n: nat, radix: Radix): (text: string)
    ensures text != ""
  {
    if n < radix then [Digit(n)] else Digits(n / radix, radix) + [Digit(n % radix)]
  }

  function Hex(n: nat): string { Digits(n, 16) }

  /** `text.padStart(4, '0')`. */
  function Pad4(text: string): string {
    if |text| >= 4 then text else seq(4 - |text|, _ => '0') + text
  }

  /** A class member's escape: braced where either end is past U+FFFF. */
  function Escape(n: nat, astral: bool): string {
    if astral then "\\u{" + Hex(n) + "}" else "\\u" + Pad4(Hex(n))
  }

  function RangeClass(lo: CodePoint, hi: CodePoint): Leaf {
    var astral := 0xFFFF < lo || 0xFFFF < hi;
    Regex("[" + Escape(lo, astral) + "-" + Escape(hi, astral) + "]", if astral then "u" else "")
  }

  /** The class Go writes, whose escape takes any number of digits and no flag. */
  function GoClass(lo: CodePoint, hi: CodePoint): Leaf {
    Regex("[\\x{" + Pad4(Hex(lo)) + "}-\\x{" + Pad4(Hex(hi)) + "}]", "")
  }

  // ---- what a text names

  /** One code point, written alone or as a range of two equal ends; a range; or a
      concatenation. */
  datatype Numeral = Single(c: CodePoint) | Interval(lo: CodePoint, hi: CodePoint) | Chain(codes: seq<CodePoint>)

  function OfEnds(lo: Option<CodePoint>, hi: Option<CodePoint>): Option<Numeral> {
    match (lo, hi)
    case (Some(l), Some(h)) => Some(if l == h then Single(l) else Interval(l, h))
    case _ => None
  }

  function OfCodes(codes: Option<seq<CodePoint>>): Option<Numeral> {
    match codes
    case Some(cs) => Some(Chain(cs))
    case None => None
  }

  /** TypeScript and Rust: `parseInt` stops at the first character that is no digit, and a
      range keeps its first two ends. Nothing where a code point is out of range. */
  function ReadNumeral(src: string): Option<Numeral> {
    if |src| < 2 then None
    else
      var radix := RadixOf(src[1]);
      var body := src[2..];
      if '-' in body then
        var ends := Split('-', body);
        OfEnds(ParseCodePoint(ends[0], radix), ParseCodePoint(ends[1], radix))
      else OfCodes(ParseCodePoints(Split('.', body), radix))
  }

  predicate AllDigits(text: string, radix: Radix) {
    forall c :: c in text ==> DigitValue(c) < radix
  }

  /** `strconv.ParseInt`, of a text without a sign: every character is a digit. */
  function ParseWhole(text: string, radix: Radix): Option<CodePoint> {
    if text != "" && AllDigits(text, radix) then ParseCodePoint(text, radix) else None
  }

  function ParseAllWhole(parts: seq<string>, radix: Radix): Option<seq<CodePoint>> {
    if parts == [] then Some([])
    else
      match (ParseWhole(parts[0], radix), ParseAllWhole(parts[1..], radix))
      case (Some(c), Some(cs)) => Some([c] + cs)
      case _ => None
  }

  /** Go: a range is cut once, and every part is read whole. */
  function ReadWhole(src: string): Option<Numeral> {
    if |src| < 2 then None
    else
      var radix := RadixOf(src[1]);
      var body := src[2..];
      if '-' in body then
        var i := Find('-', body);
        OfEnds(ParseWhole(body[..i], radix), if i < |body| then ParseWhole(body[i + 1..], radix) else None)
      else OfCodes(ParseAllWhole(Split('.', body), radix))
  }

  function NumeralFor(port: Port, src: string): Option<Numeral> {
    if port.GoPort? then ReadWhole(src) else ReadNumeral(src)
  }

  // ---- what it is decoded to

  /** The code point a string of scalar values holds in place of another. */
  function Scalar(c: CodePoint): CodePoint {
    if Surrogate(c) then REPLACEMENT else c
  }

  function Scalars(codes: seq<CodePoint>): seq<CodePoint> {
    seq(|codes|, i requires 0 <= i < |codes| => Scalar(codes[i]))
  }

  /** The text of a concatenation: TypeScript joins its units, Go writes each code point as a
      rune, and Rust decodes the joined units. */
  function Held(port: Port, codes: seq<CodePoint>): seq<Unit> {
    match port
    case TypeScript => Unicode.Join(codes)
    case GoPort => Unicode.Join(Scalars(codes))
    case RustPort => Unicode.Join(Lossy(Unicode.Join(codes)))
  }

  function LeafFor(port: Port, n: Numeral): Leaf {
    match n
    case Single(c) => Term(FromCodePoint(if port.TypeScript? then c else Scalar(c)), false)
    case Interval(lo, hi) => if port.GoPort? then GoClass(lo, hi) else RangeClass(lo, hi)
    case Chain(codes) => Term(Held(port, codes), false)
  }

  /** The element a numeric value names; nothing where the port reports one out of range. */
  function DecodeFor(port: Port, src: string): Option<Leaf> {
    match NumeralFor(port, src)
    case Some(n) => Some(LeafFor(port, n))
    case None => None
  }

  /** As the canonical TypeScript decodes it. */
  function Decode(src: string): Option<Leaf> { DecodeFor(TypeScript, src) }
}
