/** Numbers written out and read back. */
module DigitText {
  import opened Strings
  import opened Unicode
  import opened Numeric

  lemma {:induction false} PrefixOfDigits(text: string, radix: Radix)
    requires AllDigits(text, radix)
    ensures DigitPrefix(text, radix) == text
  {
    if text != "" {
      PrefixOfDigits(text[1..], radix);
      assert text == [text[0]] + text[1..];
    }
  }

  lemma DivMod(n: nat, radix: Radix)
    ensures (n / radix) * radix + n % radix == n && n % radix < radix
    ensures n >= radix ==> n / radix < n
    ensures n < radix ==> n % radix == n
  {
  }

  lemma DigitIsDigit(d: nat)
    requires d < 16
    ensures DigitValue(Digit(d)) == d
  {
  }

  lemma ValueSnoc(text: string, c: char, radix: Radix)
    ensures Value(text + [c], radix) == Value(text, radix) * radix + DigitValue(c)
  {
    assert (text + [c])[..|text|] == text;
  }

  lemma {:induction false} DigitsRead(n: nat, radix: Radix)
    ensures AllDigits(Digits(n, radix), radix) && Value(Digits(n, radix), radix) == n
    decreases n
  {
    DivMod(n, radix);
    var q, d := n / radix, n % radix;
    DigitIsDigit(d);
    if n < radix {
      assert Digits(n, radix) == "" + [Digit(d)];
      ValueSnoc("", Digit(d), radix);
    } else {
      DigitsRead(q, radix);
      assert Digits(n, radix) == Digits(q, radix) + [Digit(d)];
      ValueSnoc(Digits(q, radix), Digit(d), radix);
    }
  }

  lemma TwoDigits(a: char, b: char)
    requires DigitValue(a) < 16 && DigitValue(b) < 16
    ensures AllDigits([a, b], 16) && Value([a, b], 16) == 16 * DigitValue(a) + DigitValue(b)
  {
    ValueSnoc("", a, 16);
    ValueSnoc([a], b, 16);
    assert "" + [a] == [a] && [a] + [b] == [a, b];
  }

  lemma FourDigits(a: char, b: char, c: char, d: char)
    requires DigitValue(a) < 16 && DigitValue(b) < 16 && DigitValue(c) < 16 && DigitValue(d) < 16
    ensures AllDigits([a, b, c, d], 16)
    ensures Value([a, b, c, d], 16) ==
            0x1000 * DigitValue(a) + 0x100 * DigitValue(b) + 0x10 * DigitValue(c) + DigitValue(d)
  {
    TwoDigits(a, b);
    ValueSnoc([a, b], c, 16);
    ValueSnoc([a, b, c], d, 16);
    assert [a, b] + [c] == [a, b, c] && [a, b, c] + [d] == [a, b, c, d];
  }

  function Power16(k: nat): nat { if k == 0 then 1 else 16 * Power16(k - 1) }

  lemma {:induction false} HexWidth(n: nat, k: nat)
    requires k >= 1 && n < Power16(k)
    ensures |Hex(n)| <= k
    decreases k
  {
    if n >= 16 {
      HexWidth(n / 16, k - 1);
    }
  }

  /** `parseInt` reads back what `toString` wrote. */
  lemma ParseDigits(n: nat, radix: Radix)
    ensures ParseInt(Digits(n, radix), radix) == Some(n)
  {
    DigitsRead(n, radix);
    PrefixOfDigits(Digits(n, radix), radix);
  }

  // ---- leading zeros, and the other case

  lemma {:induction false} LeadingZeros(k: nat, text: string)
    requires AllDigits(text, 16)
    ensures AllDigits(seq(k, _ => '0') + text, 16)
    ensures Value(seq(k, _ => '0') + text, 16) == Value(text, 16)
    decreases k + |text|
  {
    var zeros := seq(k, _ => '0');
    var all := zeros + text;
    if text == "" {
      assert all == zeros;
      if k > 0 {
        LeadingZeros(k - 1, "");
        assert all[..|all| - 1] == seq(k - 1, _ => '0') + "";
      }
    } else {
      LeadingZeros(k, text[..|text| - 1]);
      assert all[..|all| - 1] == zeros + text[..|text| - 1];
    }
  }

  function Upper(c: char): char {
    if 'a' <= c <= 'f' then c - 'a' + 'A' else c
  }

  /** `abnf-hex-upper`: the hexadecimal letters in capitals. */
  function HexUpper(text: string): (r: string)
    ensures |r| == |text|
    ensures forall i | 0 <= i < |text| :: r[i] == Upper(text[i])
  {
    if text == "" then "" else [Upper(text[0])] + HexUpper(text[1..])
  }

  lemma {:induction false} UpperReads(text: string)
    requires AllDigits(text, 16)
    ensures AllDigits(HexUpper(text), 16) && Value(HexUpper(text), 16) == Value(text, 16)
    decreases |text|
  {
    if text != "" {
      var n := |text| - 1;
      var init, c := text[..n], text[n];
      assert text == init + [c] && c in text;
      assert AllDigits(init, 16);
      UpperReads(init);
      UpperSnoc(init, c);
      UpperDigit(c);
      ValueSnoc(init, c, 16);
      ValueSnoc(HexUpper(init), Upper(c), 16);
    }
  }

  lemma UpperSnoc(text: string, c: char)
    ensures HexUpper(text + [c]) == HexUpper(text) + [Upper(c)]
  {
  }

  lemma UpperDigit(c: char)
    ensures DigitValue(Upper(c)) == DigitValue(c)
  {
  }

  function Lower(c: char): char {
    if 'A' <= c <= 'F' then c - 'A' + 'a' else c
  }

  /** `abnf-hex-lower`: the hexadecimal letters in small letters. */
  function HexLower(text: string): (r: string)
    ensures |r| == |text|
    ensures forall i | 0 <= i < |text| :: r[i] == Lower(text[i])
  {
    if text == "" then "" else [Lower(text[0])] + HexLower(text[1..])
  }

  lemma {:induction false} LowerReads(text: string)
    requires AllDigits(text, 16)
    ensures AllDigits(HexLower(text), 16) && Value(HexLower(text), 16) == Value(text, 16)
    decreases |text|
  {
    if text != "" {
      var n := |text| - 1;
      var init, c := text[..n], text[n];
      assert text == init + [c] && c in text;
      assert AllDigits(init, 16);
      LowerReads(init);
      LowerSnoc(init, c);
      LowerDigit(c);
      ValueSnoc(init, c, 16);
      ValueSnoc(HexLower(init), Lower(c), 16);
    }
  }

  lemma LowerSnoc(text: string, c: char)
    ensures HexLower(text + [c]) == HexLower(text) + [Lower(c)]
  {
  }

  lemma LowerDigit(c: char)
    ensures DigitValue(Lower(c)) == DigitValue(c)
  {
  }

  // ---- dotted concatenations and ranges

  /** The radix a letter stands for. */
  predicate BaseLetter(letter: char, radix: Radix) {
    match letter
    case 'x' => radix == 16
    case 'X' => radix == 16
    case 'd' => radix == 10
    case 'D' => radix == 10
    case 'b' => radix == 2
    case 'B' => radix == 2
    case _ => false
  }

  /** What a part names: the digits in front of it, as far as they go. */
  function PartValue(part: string, radix: Radix): nat { Value(DigitPrefix(part, radix), radix) }

  /** A part no digit leads, or that names no code point. */
  predicate Unnamed(part: string, radix: Radix) { DigitPrefix(part, radix) == "" || PartValue(part, radix) > 0x10_FFFF }

  /** Code points named one by one, by parts that all name one. */
  predicate PartsName(parts: seq<string>, radix: Radix, codes: seq<CodePoint>) {
    && |codes| == |parts|
    && forall i :: 0 <= i < |parts| ==> !Unnamed(parts[i], radix) && codes[i] == PartValue(parts[i], radix)
  }

  predicate SomeUnnamed(parts: seq<string>, radix: Radix) { exists p :: p in parts && Unnamed(p, radix) }

  lemma PartReads(part: string, radix: Radix)
    ensures ParseCodePoint(part, radix) == if Unnamed(part, radix) then None else Some(PartValue(part, radix))
  {
  }

  lemma {:induction false} PartsRead(parts: seq<string>, radix: Radix)
    ensures match ParseCodePoints(parts, radix)
            case None => SomeUnnamed(parts, radix)
            case Some(codes) => PartsName(parts, radix, codes)
    decreases |parts|
  {
    if parts != [] {
      PartReads(parts[0], radix);
      PartsRead(parts[1..], radix);
      assert forall p :: p in parts <==> p == parts[0] || p in parts[1..];
    }
  }

  lemma Prefixed(letter: char, body: string)
    ensures var src := "%" + [letter] + body; |src| >= 2 && src[1] == letter && src[2..] == body
  {
  }

  /** A dotted concatenation, of parts of any text: refused exactly where a part is no code
      point, and otherwise the code points they name, in order. */
  lemma DottedIs(letter: char, radix: Radix, parts: seq<string>)
    requires BaseLetter(letter, radix) && parts != [] && forall p :: p in parts ==> '-' !in p && '.' !in p
    ensures match ReadNumeral("%" + [letter] + Strings.Join(".", parts))
            case None => SomeUnnamed(parts, radix)
            case Some(n) => n.Chain? && PartsName(parts, radix, n.codes)
    ensures '-' !in Strings.Join(".", parts) && Split('.', Strings.Join(".", parts)) == parts
  {
    Prefixed(letter, Strings.Join(".", parts));
    JoinLacks('-', ".", parts);
    SplitJoin('.', parts);
    PartsRead(parts, radix);
  }

  /** Ends with `-` between them: the first two count, refused exactly where one is no code
      point. */
  lemma DashedIs(letter: char, radix: Radix, ends: seq<string>)
    requires BaseLetter(letter, radix) && |ends| >= 2 && forall p :: p in ends ==> '-' !in p
    ensures ReadNumeral("%" + [letter] + Strings.Join("-", ends)) ==
            if Unnamed(ends[0], radix) || Unnamed(ends[1], radix) then None
            else if PartValue(ends[0], radix) == PartValue(ends[1], radix) then Some(Single(PartValue(ends[0], radix)))
            else Some(Interval(PartValue(ends[0], radix), PartValue(ends[1], radix)))
    ensures '-' in Strings.Join("-", ends) && Split('-', Strings.Join("-", ends)) == ends
  {
    var body := Strings.Join("-", ends);
    Prefixed(letter, body);
    SplitJoin('-', ends);
    JoinHolds('-', ends);
  }

  lemma JoinHolds(sep: char, parts: seq<string>)
    requires |parts| >= 2
    ensures sep in Strings.Join([sep], parts)
  {
    assert Strings.Join([sep], parts)[|parts[0]|] == sep;
  }

  /** Digits of the radix are what they name. */
  lemma AllNamed(part: string, radix: Radix, c: CodePoint)
    requires AllDigits(part, radix) && part != "" && Value(part, radix) == c
    ensures PartValue(part, radix) == c && !Unnamed(part, radix) && '-' !in part && '.' !in part
  {
    PrefixOfDigits(part, radix);
  }

  lemma {:induction false} JoinLacks(c: char, sep: string, parts: seq<string>)
    requires c !in sep && forall p :: p in parts ==> c !in p
    ensures c !in Strings.Join(sep, parts)
    decreases |parts|
  {
    if |parts| > 1 {
      JoinLacks(c, sep, parts[1..]);
    }
  }

  /** A dotted concatenation names the code points its parts name. */
  lemma ReadsDotted(letter: char, radix: Radix, parts: seq<string>, codes: seq<CodePoint>)
    requires BaseLetter(letter, radix) && |parts| == |codes| > 0
    requires forall i :: 0 <= i < |parts| ==>
               AllDigits(parts[i], radix) && parts[i] != "" && Value(parts[i], radix) == codes[i]
    ensures ReadNumeral("%" + [letter] + Strings.Join(".", parts)) == Some(Chain(codes))
    ensures '-' !in Strings.Join(".", parts) && Split('.', Strings.Join(".", parts)) == parts
  {
    forall i | 0 <= i < |parts|
      ensures PartValue(parts[i], radix) == codes[i] && !Unnamed(parts[i], radix)
      ensures '-' !in parts[i] && '.' !in parts[i]
    {
      AllNamed(parts[i], radix, codes[i]);
    }
    DottedIs(letter, radix, parts);
    var read := ReadNumeral("%" + [letter] + Strings.Join(".", parts));
    assert read.Some? && read.value.codes == codes;
  }

  /** `%x`, `%d` and `%b`, in either case, before dotted digits in base 16, 10 and 2: the
      literal of the code points the digits name. */
  lemma DecodeDotted(letter: char, radix: Radix, parts: seq<string>, codes: seq<CodePoint>)
    requires (radix == 16 && (letter == 'x' || letter == 'X')) || (radix == 10 && (letter == 'd' || letter == 'D'))
          || (radix == 2 && (letter == 'b' || letter == 'B'))
    requires |parts| == |codes| > 0
    requires forall i :: 0 <= i < |parts| ==>
               AllDigits(parts[i], radix) && parts[i] != "" && Value(parts[i], radix) == codes[i]
    ensures Decode("%" + [letter] + Strings.Join(".", parts)) == Some(Term(Unicode.Join(codes), false))
  {
    ReadsDotted(letter, radix, parts, codes);
  }

  /** A range names its two ends, or the one they are. */
  lemma ReadsRange(letter: char, radix: Radix, low: string, high: string, lo: CodePoint, hi: CodePoint)
    requires BaseLetter(letter, radix)
    requires AllDigits(low, radix) && low != "" && Value(low, radix) == lo
    requires AllDigits(high, radix) && high != "" && Value(high, radix) == hi
    ensures var src := "%" + [letter] + low + "-" + high;
            && ReadNumeral(src) == Some(if lo == hi then Single(lo) else Interval(lo, hi))
            && src[2..] == low + "-" + high && Split('-', low + "-" + high) == [low, high]
  {
    var ends := [low, high];
    AllNamed(low, radix, lo);
    AllNamed(high, radix, hi);
    DashedIs(letter, radix, ends);
    JoinPair(letter, low, high);
  }

  lemma JoinPair(letter: char, low: string, high: string)
    ensures Strings.Join("-", [low, high]) == low + "-" + high
    ensures "%" + [letter] + low + "-" + high == "%" + [letter] + (low + "-" + high)
    ensures ("%" + [letter] + (low + "-" + high))[2..] == low + "-" + high
  {
    assert [low, high][1..] == [high];
  }

  /** The same letters before two ends: the class from the one to the other, or the one
      character they are. */
  lemma DecodeRange(letter: char, radix: Radix, low: string, high: string, lo: CodePoint, hi: CodePoint)
    requires (radix == 16 && (letter == 'x' || letter == 'X')) || (radix == 10 && (letter == 'd' || letter == 'D'))
          || (radix == 2 && (letter == 'b' || letter == 'B'))
    requires AllDigits(low, radix) && low != "" && Value(low, radix) == lo
    requires AllDigits(high, radix) && high != "" && Value(high, radix) == hi
    ensures Decode("%" + [letter] + low + "-" + high) ==
            Some(if lo == hi then Term(FromCodePoint(lo), false) else RangeClass(lo, hi))
  {
    ReadsRange(letter, radix, low, high, lo, hi);
  }

  lemma HexDotted(parts: seq<string>, codes: seq<CodePoint>)
    requires |parts| == |codes| > 0
    requires forall i :: 0 <= i < |parts| ==>
               AllDigits(parts[i], 16) && parts[i] != "" && Value(parts[i], 16) == codes[i]
    ensures Decode("%x" + Strings.Join(".", parts)) == Some(Term(Unicode.Join(codes), false))
  {
    DecodeDotted('x', 16, parts, codes);
    assert "%" + ['x'] == "%x";
  }

  lemma HexRange(low: string, high: string, lo: CodePoint, hi: CodePoint)
    requires AllDigits(low, 16) && low != "" && Value(low, 16) == lo
    requires AllDigits(high, 16) && high != "" && Value(high, 16) == hi
    ensures Decode("%x" + low + "-" + high) ==
            Some(if lo == hi then Term(FromCodePoint(lo), false) else RangeClass(lo, hi))
  {
    DecodeRange('x', 16, low, high, lo, hi);
    assert "%" + ['x'] == "%x";
  }
}
