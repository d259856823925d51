/** Text as the converter holds it: source text is a sequence of characters, and the
    text of a literal is what a JavaScript string holds, a sequence of UTF-16 units. */
module Unicode {

  type Unit = u: int | 0 <= u < 0x1_0000

  type CodePoint = c: int | 0 <= c <= 0x10_FFFF

  predicate HighHalf(u: int) { 0xD800 <= u <= 0xDBFF }

  predicate LowHalf(u: int) { 0xDC00 <= u <= 0xDFFF }

  predicate Surrogate(u: int) { 0xD800 <= u <= 0xDFFF }

  /** The units of one code point, a surrogate standing as itself. */
  function FromCodePoint(c: CodePoint): (units: seq<Unit>)
    ensures 1 <= |units| <= 2
  {
    if c < 0x1_0000 then [c]
    else [0xD800 + (c - 0x1_0000) / 0x400, 0xDC00 + (c - 0x1_0000) % 0x400]
  }

  /** The units of a list of code points, one after another. */
  function Join(codes: seq<CodePoint>): seq<Unit> {
    if codes == [] then [] else FromCodePoint(codes[0]) + Join(codes[1..])
  }

  /** A source string's units. */
  function OfString(text: string): seq<Unit> {
    Join(seq(|text|, i requires 0 <= i < |text| => text[i] as int))
  }
}
