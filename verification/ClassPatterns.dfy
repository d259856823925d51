/** Character classes as the compiler writes their patterns: what the render reads out of the
    text is what the class matches. */
module ClassPatterns {
  import opened Unicode
  import opened Numeric
  import opened DigitText
  import opened CodePoints
  import opened Ranges
  import opened Tiling
  import opened Classes

  // ---- a class, written

  /** An escape: its digits, four of them, or one to six in braces. */
  datatype Escaped = Escaped(digits: string, braced: bool)

  /** A member: a character alone, or a range. */
  datatype Part = Lone(e: Escaped) | Run(lo: Escaped, hi: Escaped)

  datatype Class = Anything | OfParts(negated: bool, parts: seq<Part>)

  predicate EscapeOk(e: Escaped) {
    AllDigits(e.digits, 16) && if e.braced then 1 <= |e.digits| <= 6 else |e.digits| == 4
  }

  predicate PartOk(p: Part) {
    match p
    case Lone(e) => EscapeOk(e)
    case Run(lo, hi) => EscapeOk(lo) && EscapeOk(hi)
  }

  predicate ClassOk(k: Class) {
    k.OfParts? ==> k.parts != [] && forall p :: p in k.parts ==> PartOk(p)
  }

  function BodyOf(e: Escaped): string { if e.braced then "{" + e.digits + "}" else e.digits }

  /** What stands between the escapes' marks. */
  function PiecesOf(p: Part): seq<string> {
    match p
    case Lone(e) => [BodyOf(e)]
    case Run(lo, hi) => [BodyOf(lo) + "-", BodyOf(hi)]
  }

  function Pieces(parts: seq<Part>): seq<string> {
    if parts == [] then [] else PiecesOf(parts[0]) + Pieces(parts[1..])
  }

  function Inner(pieces: seq<string>): string {
    if pieces == [] then "" else ESC + (pieces[0] + Inner(pieces[1..]))
  }

  function Pattern(k: Class): string {
    match k
    case Anything => "[\\s\\S]"
    case OfParts(negated, parts) => "[" + ((if negated then "^" else "") + Inner(Pieces(parts)) + "]")
  }

  // ---- cut at its escapes

  predicate Unmarked(pieces: seq<string>) { forall p :: p in pieces ==> '\\' !in p }

  lemma {:induction false} CutPieces(first: string, pieces: seq<string>)
    requires '\\' !in first && Unmarked(pieces)
    ensures SplitOn(ESC, first + Inner(pieces)) == [first] + pieces
    decreases |pieces|
  {
    if pieces == [] {
      assert first + "" == first;
      CutAt(ESC, first, "");
    } else {
      var rest := pieces[0] + Inner(pieces[1..]);
      CutPieces(pieces[0], pieces[1..]);
      assert first + (ESC + rest) == first + ESC + rest;
      CutAt(ESC, first, rest);
      assert [pieces[0]] + pieces[1..] == pieces;
    }
  }

  lemma CutInner(pieces: seq<string>)
    requires Unmarked(pieces)
    ensures SplitOn(ESC, Inner(pieces))[1..] == pieces
  {
    CutPieces("", pieces);
    assert "" + Inner(pieces) == Inner(pieces);
  }

  /** Characters of a piece. */
  predicate PieceText(x: string) {
    forall c :: c in x ==> DigitValue(c) < 16 || c == '{' || c == '}' || c == '-'
  }

  lemma {:induction false} PiecesText(parts: seq<Part>)
    requires forall p :: p in parts ==> PartOk(p)
    ensures forall x :: x in Pieces(parts) ==> PieceText(x)
    decreases |parts|
  {
    if parts != [] {
      assert parts[0] in parts;
      PiecesText(parts[1..]);
    }
  }

  lemma {:induction false} InnerText(pieces: seq<string>)
    requires forall x :: x in pieces ==> PieceText(x)
    ensures Unmarked(pieces) && '[' !in Inner(pieces) && ']' !in Inner(pieces)
    decreases |pieces|
  {
    if pieces != [] {
      InnerText(pieces[1..]);
      assert pieces[0] in pieces && PieceText(pieces[0]);
    }
  }

  // ---- read member by member

  lemma BodyReads(e: Escaped)
    requires EscapeOk(e)
    ensures var x := BodyOf(e);
            && !Ends("-", x) && Ends("-", x + "-") && Before("-", x + "-") == x && x != ""
            && PieceHex(x) == e.digits && PieceHex(x + "-") == e.digits
  {
    var x := BodyOf(e);
    assert '-' !in x;
    BeforeIs('-', x);
    CoreReads(e);
  }

  /** Braces are taken off. */
  lemma CoreReads(e: Escaped)
    requires EscapeOk(e)
    ensures var x := BodyOf(e);
            x != "" && (Starts("{", x) <==> e.braced) && (e.braced ==> Before("}", After("{", x)) == e.digits)
  {
    var x := BodyOf(e);
    StartsIsPrefix("{", x);
    if e.braced {
      assert x == "{" + (e.digits + "}");
      AfterPrefix("{", e.digits + "}");
      BeforeIs('}', e.digits);
    } else {
      assert x[0] in x;
    }
  }

  /** The digits of a member's ends. */
  function MemberOf(p: Part): Member {
    match p
    case Lone(e) => Member(e.digits, e.digits)
    case Run(lo, hi) => Member(lo.digits, hi.digits)
  }

  function MembersOf(parts: seq<Part>): seq<Member> {
    if parts == [] then [] else [MemberOf(parts[0])] + MembersOf(parts[1..])
  }

  /** A place in the pieces at which a member starts. */
  predicate StartsAt(pieces: seq<string>, i: nat, parts: seq<Part>) {
    i <= |pieces| && pieces[i..] == Pieces(parts) && (i > 0 ==> !Ends("-", pieces[i - 1]))
  }

  lemma NextLone(pieces: seq<string>, i: nat, parts: seq<Part>)
    requires StartsAt(pieces, i, parts) && parts != [] && parts[0].Lone? && PartOk(parts[0])
    ensures i < |pieces| && pieces[i] == BodyOf(parts[0].e) && StartsAt(pieces, i + 1, parts[1..])
  {
    BodyReads(parts[0].e);
    assert Pieces(parts)[1..] == Pieces(parts[1..]);
    assert pieces[i] == pieces[i..][0] && pieces[i + 1..] == pieces[i..][1..];
  }

  lemma NextRun(pieces: seq<string>, i: nat, parts: seq<Part>)
    requires StartsAt(pieces, i, parts) && parts != [] && parts[0].Run? && PartOk(parts[0])
    ensures i + 1 < |pieces| && StartsAt(pieces, i + 2, parts[1..])
    ensures pieces[i] == BodyOf(parts[0].lo) + "-" && pieces[i + 1] == BodyOf(parts[0].hi)
  {
    BodyReads(parts[0].hi);
    assert Pieces(parts)[2..] == Pieces(parts[1..]);
    assert pieces[i] == pieces[i..][0] && pieces[i + 1] == pieces[i..][1] && pieces[i + 2..] == pieces[i..][2..];
  }

  lemma LoneRead(pieces: seq<string>, i: nat, e: Escaped)
    requires i < |pieces| && pieces[i] == BodyOf(e) && EscapeOk(e) && (i > 0 ==> !Ends("-", pieces[i - 1]))
    ensures HexSpansFrom(pieces, i) == [MemberOf(Lone(e))] + HexSpansFrom(pieces, i + 1)
  {
    BodyReads(e);
  }

  lemma RunRead(pieces: seq<string>, i: nat, lo: Escaped, hi: Escaped)
    requires i + 1 < |pieces| && pieces[i] == BodyOf(lo) + "-" && pieces[i + 1] == BodyOf(hi)
    requires EscapeOk(lo) && EscapeOk(hi) && (i > 0 ==> !Ends("-", pieces[i - 1]))
    ensures HexSpansFrom(pieces, i) == [MemberOf(Run(lo, hi))] + HexSpansFrom(pieces, i + 2)
  {
    BodyReads(lo);
    BodyReads(hi);
    assert HexSpansFrom(pieces, i + 1) == HexSpansFrom(pieces, i + 2);
  }

  /** Members are read off the pieces one after another. */
  lemma {:induction false} ReadsParts(pieces: seq<string>, i: nat, parts: seq<Part>)
    requires StartsAt(pieces, i, parts) && forall p :: p in parts ==> PartOk(p)
    ensures HexSpansFrom(pieces, i) == MembersOf(parts)
    decreases |parts|
  {
    if parts != [] {
      assert parts[0] in parts && PartOk(parts[0]);
      match parts[0]
      case Lone(e) =>
        NextLone(pieces, i, parts);
        LoneRead(pieces, i, e);
        ReadsParts(pieces, i + 1, parts[1..]);
      case Run(lo, hi) =>
        NextRun(pieces, i, parts);
        RunRead(pieces, i, lo, hi);
        ReadsParts(pieces, i + 2, parts[1..]);
    }
  }

  // ---- a pattern's text

  /** `abnf-member-piece`: an escape's text, and a hyphen after a low end. */
  predicate MemberPiece(piece: string) {
    EscapePiece(if Ends("-", piece) then Before("-", piece) else piece)
  }

  predicate EscapePiece(core: string) {
    if Starts("{", core) then Ends("}", core) && HexDigits(Before("}", After("{", core)))
    else |core| == 4 && HexDigits(core)
  }

  predicate HexDigits(h: string) { AllDigits(h, 16) && 1 <= |h| <= 6 }

  /** What stands between a pattern's brackets. */
  function Between(body: string): string { Before("]", After("[", body)) }

  /** The same, without the mark of a negated class. */
  function MembersText(body: string): string {
    var inner := Between(body);
    if Starts("^", inner) then After("^", inner) else inner
  }

  /** `abnf-class-pattern`: whether the render reads a pattern as one class. */
  predicate Admitted(body: string) {
    body == "[\\s\\S]" ||
    (Ends("]", body) && |SplitOn("[", Between(body))| == 1 && |SplitOn("]", Between(body))| == 1 &&
     AdmittedPieces(SplitOn(ESC, MembersText(body))))
  }

  predicate AdmittedPieces(pieces: seq<string>) {
    |pieces| > 1 && pieces[0] == "" && !Ends("-", pieces[|pieces| - 1]) &&
    forall p :: p in pieces[1..] ==> MemberPiece(p)
  }

  predicate Readable(body: string) { forall m :: m in ClassHexSpans(body) ==> HexMember(m) }

  /** `abnf-class-spans`. */
  function ClassSpans(body: string): (spans: seq<Span>)
    requires Readable(body)
    ensures |spans| == |ClassHexSpans(body)|
  {
    var ms := ClassHexSpans(body);
    seq(|ms|, i requires 0 <= i < |ms| => assert ms[i] in ms; ClassSpan(ms[i]))
  }

  lemma {:induction false} PiecesReadable(pieces: seq<string>, i: nat)
    requires i <= |pieces| && forall p :: p in pieces ==> MemberPiece(p)
    ensures forall m :: m in HexSpansFrom(pieces, i) ==> HexMember(m)
    decreases |pieces| - i
  {
    if i < |pieces| {
      PiecesReadable(pieces, i + 1);
      PieceReadable(pieces[i]);
      if i + 1 < |pieces| {
        PieceReadable(pieces[i + 1]);
      }
    }
  }

  lemma PieceReadable(piece: string)
    requires MemberPiece(piece)
    ensures HexDigits(PieceHex(piece))
  {
  }

  /** Every pattern admitted is read as members of one to six digits. */
  lemma AdmittedReadable(body: string)
    requires Admitted(body)
    ensures Readable(body)
  {
    if body == "[\\s\\S]" {
      assert ClassHexSpans(body) == [Member("0", "10FFFF")];
      assert HexMember(Member("0", "10FFFF"));
    } else {
      PiecesReadable(SplitOn(ESC, MembersText(body))[1..], 0);
    }
  }

  // ---- what is read is what was written

  lemma PatternInner(k: Class)
    requires ClassOk(k) && k.OfParts?
    ensures Unmarked(Pieces(k.parts)) && Pieces(k.parts) != []
    ensures Between(Pattern(k)) == (if k.negated then "^" else "") + Inner(Pieces(k.parts))
    ensures MembersText(Pattern(k)) == Inner(Pieces(k.parts))
    ensures '[' !in Between(Pattern(k)) && ']' !in Between(Pattern(k))
  {
    var text := Inner(Pieces(k.parts));
    PiecesText(k.parts);
    InnerText(Pieces(k.parts));
    InsideBrackets((if k.negated then "^" else "") + text);
    if k.negated {
      StartsIsPrefix("^", "^" + text);
      AfterPrefix("^", text);
    } else {
      assert "" + text == text;
      StartsIsPrefix("^", text);
      assert text[0] == '\\';
    }
  }

  lemma PatternStarts(k: Class)
    requires ClassOk(k)
    ensures Starts("[^", Pattern(k)) <==> k.OfParts? && k.negated
    ensures k.OfParts? ==> Pattern(k) != "[\\s\\S]"
  {
    if k.OfParts? {
      var text := Inner(Pieces(k.parts));
      PartsWhole(k.parts);
      if k.negated {
        NegatedStarts(text);
      } else {
        assert "" + text == text;
        PlainStarts(text);
      }
    } else {
      StartsIsPrefix("[^", "[\\s\\S]");
      assert "[\\s\\S]"[1] != "[^"[1];
    }
  }

  lemma NegatedStarts(text: string)
    ensures Starts("[^", "[" + (("^" + text) + "]")) && "[" + (("^" + text) + "]") != "[\\s\\S]"
  {
    var pattern := "[" + (("^" + text) + "]");
    StartsIsPrefix("[^", pattern);
    assert pattern == "[^" + (text + "]");
    assert pattern[1] == '^';
  }

  lemma PlainStarts(text: string)
    requires ESC <= text
    ensures !Starts("[^", "[" + (text + "]")) && "[" + (text + "]") != "[\\s\\S]"
  {
    var pattern := "[" + (text + "]");
    StartsIsPrefix("[^", pattern);
    assert pattern[1] == '\\' && pattern[2] == 'u';
  }

  /** The members a class is read as. */
  function ReadAs(k: Class): seq<Member> {
    if k.Anything? then [Member("0", "10FFFF")] else MembersOf(k.parts)
  }

  /** A class written is read back, member by member. */
  lemma ReadsBack(k: Class)
    requires ClassOk(k)
    ensures ClassHexSpans(Pattern(k)) == ReadAs(k) && Readable(Pattern(k))
  {
    if k.Anything? {
      assert HexMember(Member("0", "10FFFF"));
    } else {
      PartsBack(k);
      MembersHex(k.parts);
    }
  }

  lemma PartsBack(k: Class)
    requires ClassOk(k) && k.OfParts?
    ensures ClassHexSpans(Pattern(k)) == MembersOf(k.parts)
  {
    PatternStarts(k);
    PatternInner(k);
    CutInner(Pieces(k.parts));
    assert Pieces(k.parts)[0..] == Pieces(k.parts);
    ReadsParts(Pieces(k.parts), 0, k.parts);
  }

  lemma {:induction false} MembersHex(parts: seq<Part>)
    requires forall p :: p in parts ==> PartOk(p)
    ensures forall m :: m in MembersOf(parts) ==> HexMember(m)
    decreases |parts|
  {
    if parts != [] {
      assert parts[0] in parts && PartOk(parts[0]);
      MembersHex(parts[1..]);
    }
  }

  // ---- what is admitted is what was written

  lemma BodyPiece(e: Escaped)
    requires EscapeOk(e)
    ensures MemberPiece(BodyOf(e)) && MemberPiece(BodyOf(e) + "-")
  {
    BodyReads(e);
    CoreReads(e);
    if e.braced {
      BracedEnds(e.digits);
    }
  }

  lemma BracedEnds(h: string)
    requires '}' !in h
    ensures Ends("}", "{" + h + "}")
  {
    BeforeIs('}', "{" + h);
  }

  /** Two pieces in a row that are both the low end of a range. */
  predicate Chains(pieces: seq<string>) {
    exists i :: 0 <= i < |pieces| - 1 && Ends("-", pieces[i]) && Ends("-", pieces[i + 1])
  }

  /** Pieces of whole members. */
  predicate Whole(pieces: seq<string>) {
    && (forall x :: x in pieces ==> MemberPiece(x))
    && !Chains(pieces) && (pieces != [] ==> !Ends("-", pieces[|pieces| - 1]))
  }

  lemma WholeTwo(x: string, y: string)
    requires MemberPiece(x) && MemberPiece(y) && !Ends("-", y)
    ensures Whole([x, y])
  {
  }

  lemma PartWhole(p: Part)
    requires PartOk(p)
    ensures Whole(PiecesOf(p)) && PiecesOf(p) != []
  {
    match p
    case Lone(e) =>
      BodyReads(e);
      BodyPiece(e);
    case Run(lo, hi) =>
      BodyReads(hi);
      BodyPiece(lo);
      BodyPiece(hi);
      WholeTwo(BodyOf(lo) + "-", BodyOf(hi));
  }

  lemma WholeConcat(a: seq<string>, b: seq<string>)
    requires Whole(a) && Whole(b)
    ensures Whole(a + b)
  {
    var all := a + b;
    forall i | 0 <= i < |all| - 1 ensures !(Ends("-", all[i]) && Ends("-", all[i + 1])) {
      if i >= |a| {
        assert all[i] == b[i - |a|] && all[i + 1] == b[i + 1 - |a|];
      } else if i == |a| - 1 {
        assert all[i] == a[|a| - 1];
      }
    }
    if b == [] {
      assert all == a;
    }
  }

  lemma {:induction false} PartsWhole(parts: seq<Part>)
    requires forall p :: p in parts ==> PartOk(p)
    ensures Whole(Pieces(parts)) && (parts != [] ==> Pieces(parts) != [])
    decreases |parts|
  {
    if parts != [] {
      assert parts[0] in parts && PartOk(parts[0]);
      PartWhole(parts[0]);
      PartsWhole(parts[1..]);
      WholeConcat(PiecesOf(parts[0]), Pieces(parts[1..]));
    }
  }

  lemma SplitOne(c: char, s: string)
    ensures |SplitOn([c], s)| == 1 <==> c !in s
  {
    if c in s {
      var k :| 0 <= k < |s| && s[k] == c;
      assert [c] <= s[k..];
      assert FindOn([c], s) <= k;
    } else {
      CutAt([c], s, "");
    }
  }

  lemma BracketEnds(text: string)
    requires ']' !in text
    ensures Ends("]", "[" + (text + "]"))
  {
    BeforeIs(']', "[" + text);
    assert "[" + (text + "]") == ("[" + text) + [']'];
  }

  lemma PartsAdmitted(k: Class)
    requires ClassOk(k) && k.OfParts?
    ensures AdmittedPieces(SplitOn(ESC, MembersText(Pattern(k))))
  {
    var pieces := Pieces(k.parts);
    PatternInner(k);
    CutPieces("", pieces);
    assert "" + Inner(pieces) == Inner(pieces);
    PartsWhole(k.parts);
  }

  /** Every class written is admitted. */
  lemma WrittenAdmitted(k: Class)
    requires ClassOk(k)
    ensures Admitted(Pattern(k))
  {
    if k.OfParts? {
      PatternInner(k);
      BracketEnds(Between(Pattern(k)));
      SplitOne('[', Between(Pattern(k)));
      SplitOne(']', Between(Pattern(k)));
      PartsAdmitted(k);
    }
  }

  // ---- what a class matches

  /** The code points from a member's low end to its high end. */
  predicate PartHolds(p: Part, c: Cp) {
    Value(MemberOf(p).lo, 16) <= Num(c) <= Value(MemberOf(p).hi, 16)
  }

  predicate Covers(k: Class, c: Cp) {
    match k
    case Anything => Num(c) <= 0x10_FFFF
    case OfParts(_, parts) => exists i :: 0 <= i < |parts| && PartHolds(parts[i], c)
  }

  predicate Matches(k: Class, c: Cp) {
    Num(c) <= 0x10_FFFF && Covers(k, c) == !(k.OfParts? && k.negated)
  }

  /** A member's ends in order, and code points. */
  predicate Ordered(k: Class) {
    k.OfParts? ==> forall i :: 0 <= i < |k.parts| ==>
      Value(MemberOf(k.parts[i]).lo, 16) <= Value(MemberOf(k.parts[i]).hi, 16) <= 0x10_FFFF
  }

  lemma {:induction false} MembersAt(parts: seq<Part>, i: nat)
    requires i < |parts|
    ensures |MembersOf(parts)| == |parts| && MembersOf(parts)[i] == MemberOf(parts[i])
    decreases |parts|
  {
    if i > 0 {
      MembersAt(parts[1..], i - 1);
    } else if |parts| > 1 {
      MembersAt(parts[1..], 0);
    }
  }

  lemma SpanAt(k: Class, i: nat)
    requires ClassOk(k) && k.OfParts? && i < |k.parts|
    ensures Readable(Pattern(k)) && |ClassSpans(Pattern(k))| == |k.parts|
    ensures var s := ClassSpans(Pattern(k))[i];
            Num(s.lo) == Value(MemberOf(k.parts[i]).lo, 16) && Num(s.hi) == Value(MemberOf(k.parts[i]).hi, 16)
  {
    ReadsBack(k);
    MembersAt(k.parts, i);
    var m := MemberOf(k.parts[i]);
    assert m in ClassHexSpans(Pattern(k)) && HexMember(m);
    CpOfHexIsValue(m.lo);
    CpOfHexIsValue(m.hi);
  }

  lemma AnythingSpans()
    ensures Readable(Pattern(Anything)) && |ClassSpans(Pattern(Anything))| == 1
    ensures var s := ClassSpans(Pattern(Anything))[0]; Num(s.lo) == 0 && Num(s.hi) == 0x10_FFFF
  {
    ReadsBack(Anything);
    FirstAndLast();
    CpOfHexIsValue("0");
    CpOfHexIsValue("10FFFF");
  }

  lemma FirstAndLast()
    ensures AllDigits("0", 16) && Value("0", 16) == 0
    ensures AllDigits("10FFFF", 16) && Value("10FFFF", 16) == 0x10_FFFF
  {
    ValueSnoc("", '0', 16);
    assert "" + "0" == "0";
    var ones := "1" + "0" + "F" + "F" + "F" + "F";
    ValueSnoc("", '1', 16);
    assert "" + "1" == "1";
    ValueSnoc("1", '0', 16);
    ValueSnoc("1" + "0", 'F', 16);
    ValueSnoc("1" + "0" + "F", 'F', 16);
    ValueSnoc("1" + "0" + "F" + "F", 'F', 16);
    ValueSnoc("1" + "0" + "F" + "F" + "F", 'F', 16);
    assert ones == "10FFFF";
  }

  lemma PartsCover(k: Class, c: Cp)
    requires ClassOk(k) && k.OfParts? && Readable(Pattern(k))
    ensures Holds(ClassSpans(Pattern(k)), c) <==> exists i :: 0 <= i < |k.parts| && PartHolds(k.parts[i], c)
  {
    var spans := ClassSpans(Pattern(k));
    SpanAt(k, 0);
    if Holds(spans, c) {
      var i :| 0 <= i < |spans| && Within(spans[i], c);
      SpanAt(k, i);
      assert PartHolds(k.parts[i], c);
    }
    if i :| 0 <= i < |k.parts| && PartHolds(k.parts[i], c) {
      SpanAt(k, i);
      assert spans[i] in spans;
    }
  }

  lemma SpansCover(k: Class, c: Cp)
    requires ClassOk(k)
    ensures Readable(Pattern(k)) && (Holds(ClassSpans(Pattern(k)), c) <==> Covers(k, c))
  {
    ReadsBack(k);
    if k.Anything? {
      AnythingSpans();
      assert ClassSpans(Pattern(k))[0] in ClassSpans(Pattern(k));
    } else {
      PartsCover(k, c);
    }
  }

  lemma PartsOrdered(k: Class, s: Span)
    requires ClassOk(k) && k.OfParts? && Ordered(k) && Readable(Pattern(k)) && s in ClassSpans(Pattern(k))
    ensures Num(s.lo) <= Num(s.hi) <= 0x10_FFFF
  {
    var spans := ClassSpans(Pattern(k));
    SpanAt(k, 0);
    var i :| 0 <= i < |spans| && spans[i] == s;
    SpanAt(k, i);
  }

  lemma SpansOrdered(k: Class)
    requires ClassOk(k) && Ordered(k)
    ensures Readable(Pattern(k)) && WellOrdered(ClassSpans(Pattern(k))) && WithinUnicode(ClassSpans(Pattern(k)))
  {
    ReadsBack(k);
    if k.Anything? {
      AnythingSpans();
    } else {
      forall s | s in ClassSpans(Pattern(k)) ensures Num(s.lo) <= Num(s.hi) <= 0x10_FFFF {
        PartsOrdered(k, s);
      }
    }
  }

  /** The range a numeric range's two code points are written as. */
  function WrittenRange(lo: CodePoint, hi: CodePoint): Part {
    var astral := 0xFFFF < lo || 0xFFFF < hi;
    Run(Escaped(EscapeDigits(lo, astral), astral), Escaped(EscapeDigits(hi, astral), astral))
  }

  lemma WrittenRangeOk(lo: CodePoint, hi: CodePoint)
    ensures var p := WrittenRange(lo, hi);
            PartOk(p) && p.Run? && Value(p.lo.digits, 16) == lo && Value(p.hi.digits, 16) == hi
    ensures var astral := 0xFFFF < lo || 0xFFFF < hi;
            var p := WrittenRange(lo, hi);
            BodyOf(p.lo) == EscapeBody(lo, astral) && BodyOf(p.hi) == EscapeBody(hi, astral)
  {
    var astral := 0xFFFF < lo || 0xFFFF < hi;
    EscapeDigitsAre(lo, astral);
    EscapeDigitsAre(hi, astral);
    FourOrBraced(lo, astral);
    FourOrBraced(hi, astral);
  }

  /** The class it is decoded to is that one range, written. */
  lemma RangeIsWritten(lo: CodePoint, hi: CodePoint)
    ensures RangeClass(lo, hi).pattern == Pattern(OfParts(false, [WrittenRange(lo, hi)]))
  {
    var p := WrittenRange(lo, hi);
    WrittenRangeOk(lo, hi);
    RangeBodyIs(lo, hi);
    RunInner(p.lo, p.hi);
    assert "" + Inner(Pieces([p])) == Inner(Pieces([p]));
  }

  lemma FourOrBraced(n: CodePoint, astral: bool)
    requires !astral ==> n <= 0xFFFF
    ensures BodyOf(Escaped(EscapeDigits(n, astral), astral)) == EscapeBody(n, astral)
    ensures !astral ==> |EscapeDigits(n, astral)| == 4
  {
    if !astral {
      Pad4Is(n);
    }
  }

  lemma RunInner(lo: Escaped, hi: Escaped)
    ensures Inner(Pieces([Run(lo, hi)])) == RangeBody(BodyOf(lo), BodyOf(hi))
  {
    var x, y := BodyOf(lo), BodyOf(hi);
    assert Pieces([Run(lo, hi)]) == [x + "-", y];
    assert [x + "-", y][1..] == [y] && [y][1..] == [];
    assert Inner([y]) == ESC + (y + "");
    assert y + "" == y;
    assert (x + "-") + (ESC + y) == x + "-" + ESC + y;
  }

  /** It matches the code points from the one end to the other. */
  lemma RangeClassMatches(lo: CodePoint, hi: CodePoint, c: Cp)
    ensures var pattern := RangeClass(lo, hi).pattern;
            Readable(pattern) && (Holds(ClassSpans(pattern), c) <==> lo <= Num(c) <= hi)
  {
    var p := WrittenRange(lo, hi);
    RangeIsWritten(lo, hi);
    WrittenRangeOk(lo, hi);
    OneCovers(p, c);
    SpansCover(OfParts(false, [p]), c);
  }

  lemma OneCovers(p: Part, c: Cp)
    ensures Covers(OfParts(false, [p]), c) <==> PartHolds(p, c)
  {
    assert [p][0] == p;
  }
}
