/** What a class renders to: each member as a text that is read back as it. */
module ClassTexts {
  import opened Strings
  import opened Unicode
  import opened Numeric
  import opened DigitText
  import opened Classes
  import opened ClassPatterns

  // ---- the members read for rendering

  /** The digits an escape is rendered with. */
  function DigitsOf(e: Escaped): string { EscapeHex(ESC + BodyOf(e)) }

  function Rendered(p: Part): Member {
    match p
    case Lone(e) => Member(DigitsOf(e), DigitsOf(e))
    case Run(lo, hi) => Member(DigitsOf(lo), DigitsOf(hi))
  }

  function AllRendered(parts: seq<Part>): seq<Member> {
    if parts == [] then [] else [Rendered(parts[0])] + AllRendered(parts[1..])
  }

  lemma LoneRendered(pieces: seq<string>, i: nat, e: Escaped)
    requires i < |pieces| && pieces[i] == BodyOf(e) && EscapeOk(e) && (i > 0 ==> !Ends("-", pieces[i - 1]))
    ensures MembersFrom(pieces, i) == [Rendered(Lone(e))] + MembersFrom(pieces, i + 1)
  {
    BodyReads(e);
  }

  lemma RunRendered(pieces: seq<string>, i: nat, lo: Escaped, hi: Escaped)
    requires i + 1 < |pieces| && pieces[i] == BodyOf(lo) + "-" && pieces[i + 1] == BodyOf(hi)
    requires EscapeOk(lo) && EscapeOk(hi) && (i > 0 ==> !Ends("-", pieces[i - 1]))
    ensures MembersFrom(pieces, i) == [Rendered(Run(lo, hi))] + MembersFrom(pieces, i + 2)
  {
    BodyReads(lo);
    BodyReads(hi);
    assert MembersFrom(pieces, i + 1) == MembersFrom(pieces, i + 2);
  }

  lemma {:induction false} RendersParts(pieces: seq<string>, i: nat, parts: seq<Part>)
    requires StartsAt(pieces, i, parts) && forall p :: p in parts ==> PartOk(p)
    ensures MembersFrom(pieces, i) == AllRendered(parts)
    decreases |parts|
  {
    if parts != [] {
      assert parts[0] in parts && PartOk(parts[0]);
      match parts[0]
      case Lone(e) =>
        NextLone(pieces, i, parts);
        LoneRendered(pieces, i, e);
        RendersParts(pieces, i + 1, parts[1..]);
      case Run(lo, hi) =>
        NextRun(pieces, i, parts);
        RunRendered(pieces, i, lo, hi);
        RendersParts(pieces, i + 2, parts[1..]);
    }
  }

  /** The digits rendered name what the escape's digits do: in capitals, and of four without two
      zeros in front. */
  lemma DigitsName(e: Escaped)
    requires EscapeOk(e)
    ensures var h := DigitsOf(e);
            && AllDigits(h, 16) && 1 <= |h| <= 6 && Value(h, 16) == Value(e.digits, 16)
            && (forall c :: c in h ==> !('a' <= c <= 'f'))
            && |h| == if !e.braced && "00" <= e.digits then 2 else |e.digits|
  {
    EscapeHexIs(BodyOf(e));
    UpperReads(e.digits);
    if e.braced {
      CoreReads(e);
      NoSmall(e.digits);
    } else {
      PlainHex(e.digits);
      NoSmall(e.digits);
      if "00" <= e.digits {
        ZerosOff(e.digits);
        UpperReads(e.digits[2..]);
        NoSmall(e.digits[2..]);
      }
    }
  }

  lemma NoSmall(h: string)
    ensures forall c :: c in HexUpper(h) ==> !('a' <= c <= 'f')
  {
    forall i | 0 <= i < |h| ensures !('a' <= HexUpper(h)[i] <= 'f') {
    }
  }

  lemma {:induction false} NoneEmpty(parts: seq<Part>)
    requires forall p :: p in parts ==> PartOk(p)
    ensures |AllRendered(parts)| == |parts|
    ensures forall i :: 0 <= i < |parts| ==> AllRendered(parts)[i] == Rendered(parts[i])
    ensures forall m :: m in AllRendered(parts) ==> m.lo != ""
    decreases |parts|
  {
    if parts != [] {
      assert parts[0] in parts && PartOk(parts[0]);
      NoneEmpty(parts[1..]);
      DigitsName(if parts[0].Lone? then parts[0].e else parts[0].lo);
    }
  }

  /** A class of several members renders to the alternation of its members' texts, in order,
      and to nothing where one of them has none. */
  lemma {:induction false} SeveralText(parts: seq<Part>)
    requires ClassOk(OfParts(false, parts)) && |parts| > 1
    ensures ClassText(Pattern(OfParts(false, parts))) ==
            match MemberTexts(AllRendered(parts))
            case Some(ts) => Some("( " + Strings.Join(" / ", ts) + " )")
            case None => None
  {
    MembersRendered(parts);
    NoneEmpty(parts);
    PatternStarts(OfParts(false, parts));
  }

  lemma MembersRendered(parts: seq<Part>)
    requires ClassOk(OfParts(false, parts))
    ensures var body := Between(Pattern(OfParts(false, parts)));
            !Starts("^", body) && ClassMembers(body) == AllRendered(parts)
  {
    var k := OfParts(false, parts);
    var text := Inner(Pieces(parts));
    PatternInner(k);
    assert "" + text == text;
    StartsIsPrefix("^", text);
    assert text[0] == '\\';
    CutInner(Pieces(parts));
    assert Pieces(parts)[0..] == Pieces(parts);
    RendersParts(Pieces(parts), 0, parts);
  }

  /** Each of the texts is its member's. */
  lemma {:induction false} TextsAre(ms: seq<Member>)
    ensures MemberTexts(ms).Some? <==> forall i :: 0 <= i < |ms| ==> MemberText(ms[i]).Some?
    ensures MemberTexts(ms).Some? ==>
              var ts := MemberTexts(ms).value;
              |ts| == |ms| && forall i :: 0 <= i < |ms| ==> MemberText(ms[i]) == Some(ts[i])
    decreases |ms|
  {
    if ms != [] {
      TextsAre(ms[1..]);
      assert forall i :: 0 < i < |ms| ==> ms[i] == ms[1..][i - 1];
    }
  }

  // ---- what a member's text is read as

  /** A range's text is decoded to its class, or to its one character. */
  lemma RangeSpells(m: Member, lo: CodePoint, hi: CodePoint)
    requires AllDigits(m.lo, 16) && m.lo != "" && Value(m.lo, 16) == lo
    requires AllDigits(m.hi, 16) && m.hi != "" && Value(m.hi, 16) == hi
    requires m.lo != m.hi
    ensures MemberText(m).Some?
    ensures Decode(MemberText(m).value) == Some(if lo == hi then Term(FromCodePoint(lo), false) else RangeClass(lo, hi))
  {
    HexRange(m.lo, m.hi, lo, hi);
  }

  lemma AsciiIs(h4: string)
    requires |h4| >= 4
    ensures AsciiCode(h4) <==> h4[0] == '0' && h4[1] == '0' && '0' <= h4[2] <= '7'
  {
    StartsIsPrefix("00", h4);
    assert h4[..2] == [h4[0], h4[1]];
    if "00" <= h4 {
      assert h4 == "00" + h4[2..];
      AfterPrefix("00", h4[2..]);
    }
  }

  lemma FourValue(a: char, b: char, c: char, d: char)
    requires DigitValue(a) < 16 && DigitValue(b) < 16 && DigitValue(c) < 16 && DigitValue(d) < 16
    ensures Value([a, b, c, d], 16) < 0x80 <==> a == '0' && b == '0' && '0' <= c <= '7'
    ensures a == '0' && b == '0' ==> Value([a, b, c, d], 16) == 0x10 * DigitValue(c) + DigitValue(d)
  {
    FourDigits(a, b, c, d);
  }

  lemma FourIs(h4: string)
    requires |h4| == 4 && AllDigits(h4, 16)
    ensures AsciiCode(h4) <==> Value(h4, 16) < 0x80
    ensures AsciiCode(h4) ==> Unquoted(h4) == [Value(h4, 16) as char]
  {
    assert h4[0] in h4 && h4[1] in h4 && h4[2] in h4 && h4[3] in h4;
    FourValue(h4[0], h4[1], h4[2], h4[3]);
    assert h4 == [h4[0], h4[1], h4[2], h4[3]];
    AsciiIs(h4);
    assert h4[4..] == "";
  }

  lemma PadKeeps(h: string)
    requires AllDigits(h, 16) && 1 <= |h| <= 4
    ensures |Pad4(h)| == 4 && AllDigits(Pad4(h), 16) && Value(Pad4(h), 16) == Value(h, 16)
  {
    LeadingZeros(4 - |h|, h);
    assert seq(0, _ => '0') + h == h;
  }

  lemma ShortCode(h: string, n: nat)
    requires AllDigits(h, 16) && 1 <= |h| <= 4 && Value(h, 16) == n
    ensures AsciiCode(Pad4(HexLower(h))) <==> n < 0x80
    ensures n < 0x80 ==> Unquoted(Pad4(HexLower(h))) == [n as char]
  {
    LowerReads(h);
    PadKeeps(HexLower(h));
    FourIs(Pad4(HexLower(h)));
  }

  lemma AloneTexts(h: string, n: CodePoint)
    requires AllDigits(h, 16) && 1 <= |h| <= 4 && Value(h, 16) == n
    ensures AloneText(h) ==
            if n >= 0x80 then None
            else Some(if Printable(n as char) then LitText([n as char]) else "%x" + h + "-" + h)
  {
    ShortCode(h, n);
    if n < 0x80 {
      AloneOfOne(h, Pad4(HexLower(h)), n as char);
    }
  }

  /** A character alone, of at most four digits, has a text exactly below U+0080: a quoted
      string of it, from the space to the tilde but for the quote, exact where it is a letter,
      and otherwise a value decoded to it, which is then no letter. */
  lemma AloneSpells(h: string, n: CodePoint)
    requires AllDigits(h, 16) && 1 <= |h| <= 4 && Value(h, 16) == n
    ensures AloneText(h).Some? <==> n < 0x80
    ensures n < 0x80 && 0x20 <= n <= 0x7E && n != 0x22 ==>
              AloneText(h) ==
              Some((if 0x41 <= n <= 0x5A || 0x61 <= n <= 0x7A then "%s" else "") + "\"" + [n as char] + "\"")
    ensures n < 0x80 && !(0x20 <= n <= 0x7E && n != 0x22) ==>
              AloneText(h) == Some("%x" + h + "-" + h)
              && Decode("%x" + h + "-" + h) == Some(Term(FromCodePoint(n), false))
  {
    AloneTexts(h, n);
    HexRange(h, h, n, n);
    if n < 0x80 {
      CharIs(n);
      OneLiteral(n as char);
    }
  }

  lemma CharIs(n: nat)
    requires n < 0x80
    ensures Printable(n as char) <==> 0x20 <= n <= 0x7E && n != 0x22
    ensures Letter(n as char) <==> 0x41 <= n <= 0x5A || 0x61 <= n <= 0x7A
  {
  }

  lemma OneLiteral(c: char)
    ensures LitText([c]) == (if Letter(c) then "%s" else "") + "\"" + [c] + "\""
  {
    assert c in [c];
  }

  lemma AloneOfOne(h: string, h4: string, c: char)
    requires |h4| >= 4 && AsciiCode(h4) && Unquoted(h4) == [c]
    ensures AloneOf(h, h4) == Some(if Printable(c) then LitText([c]) else "%x" + h + "-" + h)
  {
    assert c in [c];
  }

  /** A text of the character two digits name and the digits behind them, in small letters. */
  predicate LongText(text: string, h: string)
    requires |h| >= 4
  {
    && |text| == |h| - 3 && text[0] as int == 0x10 * DigitValue(h[2]) + DigitValue(h[3])
    && forall i :: 4 <= i < |h| ==> text[i - 3] == if 'A' <= h[i] <= 'F' then h[i] - 'A' + 'a' else h[i]
  }

  lemma LongTextIs(h: string, low: string)
    requires |low| == |h| > 4 && AllDigits(h, 16) && forall i :: 0 <= i < |h| ==> low[i] == Lower(h[i])
    ensures LongText(Unquoted(low), h)
  {
    assert h[2] in h && h[3] in h;
    LowerDigit(h[2]);
    LowerDigit(h[3]);
    var text := Unquoted(low);
    assert forall i :: 4 <= i < |h| ==> text[i - 3] == low[i];
  }

  /** Of five or six digits the character is taken to be ASCII by the first four, and the others,
      in small letters, are read as text after it. */
  lemma LongAlone(h: string)
    requires AllDigits(h, 16) && 5 <= |h| <= 6
    ensures AloneText(h).Some? <==> h[0] == '0' && h[1] == '0' && '0' <= h[2] <= '7'
    ensures var text := Unquoted(HexLower(h));
            LongText(text, h) && (AloneText(h).Some? ==>
              AloneText(h) == Some(if Printable(text[0]) then LitText(text) else "%x" + h + "-" + h))
  {
    var low := HexLower(h);
    LowerReads(h);
    LongTextIs(h, low);
    LongAdmits(h, low);
    if AsciiCode(low) {
      LongChosen(h, low);
    }
  }

  lemma LongAdmits(h: string, low: string)
    requires |low| == |h| > 4 && low[0] == Lower(h[0]) && low[1] == Lower(h[1]) && low[2] == Lower(h[2])
    ensures AsciiCode(low) <==> h[0] == '0' && h[1] == '0' && '0' <= h[2] <= '7'
  {
    AsciiIs(low);
  }

  lemma LongChosen(h: string, low: string)
    requires |low| > 4 && AllDigits(low, 16) && AsciiCode(low)
    ensures AloneOf(h, low) == Some(if Printable(Unquoted(low)[0]) then LitText(Unquoted(low)) else "%x" + h + "-" + h)
  {
    var text := Unquoted(low);
    assert text[0] in text && forall i :: 0 < i < |text| ==> text[i] == low[i + 3];
    forall c | c in text[1..] ensures Printable(c) {
      assert c in low;
    }
    assert forall c :: c in text ==> c == text[0] || c in text[1..];
  }

  /** The class a range of two code points is, written and read back, is itself: the same
      pattern and the same flags. */
  lemma RangeRoundTrip(lo: CodePoint, hi: CodePoint)
    requires lo != hi
    ensures ClassText(RangeClass(lo, hi).pattern).Some?
    ensures Decode(ClassText(RangeClass(lo, hi).pattern).value) == Some(RangeClass(lo, hi))
  {
    var p := WrittenRange(lo, hi);
    RangeIsWritten(lo, hi);
    WrittenRangeOk(lo, hi);
    OneText(p);
    RunSpells(p, lo, hi);
  }

  lemma RunSpells(p: Part, lo: CodePoint, hi: CodePoint)
    requires PartOk(p) && p.Run? && Value(p.lo.digits, 16) == lo && Value(p.hi.digits, 16) == hi && lo != hi
    ensures var text := MemberText(Rendered(p));
            text.Some? && Decode(text.value) == Some(RangeClass(lo, hi))
  {
    DigitsName(p.lo);
    DigitsName(p.hi);
    RangeSpells(Rendered(p), lo, hi);
  }

  /** A class of one member renders to that member's text. */
  lemma OneText(p: Part)
    requires PartOk(p)
    ensures ClassText(Pattern(OfParts(false, [p]))) == MemberText(Rendered(p))
  {
    MembersRendered([p]);
    NoneEmpty([p]);
    PatternStarts(OfParts(false, [p]));
    assert AllRendered([p]) == [Rendered(p)];
  }

  // ---- every character, and negated classes

  /** The class of every character renders to the range of every code point. */
  lemma AnythingText()
    ensures ClassText(Pattern(Anything)) == Some("%x0-10FFFF")
    ensures Decode("%x0-10FFFF") == Some(RangeClass(0, 0x10_FFFF))
  {
    FirstAndLast();
    var low, high := "0", "10FFFF";
    HexRange(low, high, 0, 0x10_FFFF);
    AnythingJoined(low, high);
  }

  lemma AnythingJoined(low: string, high: string)
    requires low == "0" && high == "10FFFF"
    ensures "%x" + low + "-" + high == "%x0-10FFFF"
  {
  }

  /** A negated class renders to nothing. */
  lemma NegatedHasNone(k: Class)
    requires ClassOk(k) && k.OfParts? && k.negated
    ensures ClassText(Pattern(k)).None?
  {
    var text := Inner(Pieces(k.parts));
    PatternInner(k);
    PatternStarts(k);
    StartsIsPrefix("^", "^" + text);
  }
}
