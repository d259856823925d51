/** A character class written as a numeric range, and the ranges it holds. */
module Classes {
  import opened Strings
  import opened Unicode
  import opened Numeric
  import opened DigitText
  import opened CodePoints
  import opened Ranges

  // ---- cutting by a string

  /** The first place `sep` stands in `s`, or the length of `s`. */
  function FindOn(sep: string, s: string): (i: nat)
    requires sep != ""
    ensures i <= |s| && (i < |s| ==> sep <= s[i..])
    ensures forall k :: 0 <= k < i ==> !(sep <= s[k..])
  {
    if s == "" || sep <= s then 0
    else
      var i := 1 + FindOn(sep, s[1..]);
      assert forall k :: 1 <= k <= |s| ==> s[1..][k - 1..] == s[k..];
      i
  }

  /** `s` cut at every `sep`, from the left. */
  function SplitOn(sep: string, s: string): (pieces: seq<string>)
    requires sep != ""
    ensures pieces != []
    decreases |s|
  {
    var i := FindOn(sep, s);
    if i == |s| then [s] else [s[..i]] + SplitOn(sep, s[i + |sep|..])
  }

  /** `abnf-after`: what follows the first `p`. */
  function After(p: string, s: string): string
    requires p != ""
  {
    Strings.Join(p, SplitOn(p, s)[1..])
  }

  /** `abnf-before`: what stands before the last `p`. */
  function Before(p: string, s: string): string
    requires p != ""
  {
    Strings.Join(p, SplitOn(p, s)[..|SplitOn(p, s)| - 1])
  }

  /** `abnf-starts` and `abnf-ends`. */
  predicate Starts(p: string, s: string)
    requires p != ""
  {
    s != "" && SplitOn(p, s)[0] == ""
  }

  predicate Ends(p: string, s: string)
    requires p != ""
  {
    s != "" && SplitOn(p, s)[|SplitOn(p, s)| - 1] == ""
  }

  lemma FindsFirst(sep: string, a: string, b: string)
    requires sep != "" && sep[0] !in a
    ensures FindOn(sep, a + sep + b) == |a|
  {
    var s := a + sep + b;
    forall k | 0 <= k < |a| ensures !(sep <= s[k..]) {
      assert s[k..][0] == a[k];
    }
    assert s[|a|..] == sep + b;
  }

  /** Cutting where no character before the separator is the separator's first. */
  lemma CutAt(sep: string, a: string, b: string)
    requires sep != "" && sep[0] !in a
    ensures SplitOn(sep, a) == [a]
    ensures SplitOn(sep, a + sep + b) == [a] + SplitOn(sep, b)
  {
    FindsFirst(sep, a, b);
    var s := a + sep + b;
    assert s[..|a|] == a && s[|a| + |sep|..] == b;
  }

  lemma CutStep(sep: string, s: string, i: nat)
    requires sep != "" && i == FindOn(sep, s)
    ensures i == |s| ==> SplitOn(sep, s) == [s]
    ensures i < |s| ==> i + |sep| <= |s| && s == s[..i] + sep + s[i + |sep|..]
    ensures i < |s| ==> SplitOn(sep, s) == [s[..i]] + SplitOn(sep, s[i + |sep|..])
  {
    if i < |s| {
      assert s[i..][..|sep|] == sep;
    }
  }

  /** A separator is not found in a string that lacks one of its characters. */
  lemma Absent(sep: string, s: string, c: char)
    requires c in sep && c !in s
    ensures SplitOn(sep, s) == [s]
  {
    CutStep(sep, s, FindOn(sep, s));
  }

  lemma {:induction false} JoinSplitOn(sep: string, s: string)
    requires sep != ""
    ensures Strings.Join(sep, SplitOn(sep, s)) == s
    decreases |s|
  {
    var i := FindOn(sep, s);
    CutStep(sep, s, i);
    if i < |s| {
      var rest := s[i + |sep|..];
      JoinSplitOn(sep, rest);
      JoinStep(sep, s[..i], SplitOn(sep, rest));
    }
  }

  lemma StartsIsPrefix(p: string, s: string)
    requires p != "" && s != ""
    ensures Starts(p, s) <==> p <= s
  {
    assert s[0..] == s;
  }

  /** What follows a separator, and what stands before one at the end. */
  lemma AfterIs(sep: string, a: string, b: string)
    requires sep != "" && sep[0] !in a
    ensures After(sep, a + sep + b) == b
  {
    CutAt(sep, a, b);
    JoinSplitOn(sep, b);
  }

  lemma AfterPrefix(sep: string, b: string)
    requires sep != ""
    ensures After(sep, sep + b) == b
  {
    AfterIs(sep, "", b);
    assert "" + sep + b == sep + b;
  }

  lemma BeforeIs(c: char, a: string)
    requires c !in a
    ensures Before([c], a + [c]) == a && Ends([c], a + [c])
    ensures a != "" ==> !Ends([c], a)
  {
    CutAt([c], a, "");
    CutAt([c], "", "");
    assert a + [c] + "" == a + [c];
    assert SplitOn([c], a + [c]) == [a, ""];
    assert [a, ""][..1] == [a];
  }

  // ---- a class's members

  const ESC: string := "\\u"

  /** A member: the digits of its low end and its high end. */
  datatype Member = Member(lo: string, hi: string)

  /** `abnf-escape-hex`. */
  function EscapeHex(e: string): string {
    if Starts(ESC, e) then BodyHex(After(ESC, e)) else ""
  }

  /** The digits after an escape's mark: those between braces, or the four, without two zeros
      in front. */
  function BodyHex(h: string): string {
    if Starts("{", h) then HexUpper(Before("}", After("{", h)))
    else if Starts("00", h) then HexUpper(After("00", h))
    else HexUpper(h)
  }

  lemma EscapeHexIs(h: string)
    ensures EscapeHex(ESC + h) == BodyHex(h)
  {
    StartsIsPrefix(ESC, ESC + h);
    AfterPrefix(ESC, h);
  }

  /** `abnf-class-members`, from the piece at `i` on: one after a low end is its high end. */
  function MembersFrom(pieces: seq<string>, i: nat): seq<Member>
    requires i <= |pieces|
    decreases |pieces| - i
  {
    if i == |pieces| then []
    else if i > 0 && Ends("-", pieces[i - 1]) then MembersFrom(pieces, i + 1)
    else if Ends("-", pieces[i]) then
      var high := if i + 1 < |pieces| then pieces[i + 1] else "";
      [Member(EscapeHex(ESC + Before("-", pieces[i])), EscapeHex(ESC + high))] + MembersFrom(pieces, i + 1)
    else [Member(EscapeHex(ESC + pieces[i]), EscapeHex(ESC + pieces[i]))] + MembersFrom(pieces, i + 1)
  }

  function ClassMembers(body: string): seq<Member> {
    MembersFrom(SplitOn(ESC, body)[1..], 0)
  }

  predicate Letter(c: char) { 'A' <= c <= 'Z' || 'a' <= c <= 'z' }

  predicate Printable(c: char) { ' ' <= c <= '~' && c != '"' }

  /** `abnf-ascii-code`: whether four hexadecimal digits name an ASCII character. */
  predicate AsciiCode(h4: string) {
    Starts("00", h4) && var rest := After("00", h4); rest != "" && '0' <= rest[0] <= '7'
  }

  /** The string a JSON reader makes of a `u` escape: the character its four digits name, the
      first two of them zeros, and any text after them. */
  function Unquoted(h4: string): string
    requires |h4| >= 4
  {
    [(0x10 * DigitValue(h4[2]) + DigitValue(h4[3])) as char] + h4[4..]
  }

  /** `abnf-lit-text`, of an exact match a quoted string can hold. */
  function LitText(text: string): string {
    (if exists c :: c in text && Letter(c) then "%s" else "") + "\"" + text + "\""
  }

  /** A character alone, whose four digits are `h4`: a string where one can hold it, otherwise
      below U+0080 a range of one, and nothing where ABNF would fold its case. */
  function AloneOf(h: string, h4: string): Option<string>
    requires |h4| >= 4
  {
    if !AsciiCode(h4) then None
    else if forall c :: c in Unquoted(h4) ==> Printable(c) then Some(LitText(Unquoted(h4)))
    else Some("%x" + h + "-" + h)
  }

  function AloneText(h: string): Option<string> { AloneOf(h, Pad4(HexLower(h))) }

  /** `abnf-member-text`. */
  function MemberText(m: Member): Option<string> {
    if m.lo != m.hi then Some("%x" + m.lo + "-" + m.hi) else AloneText(m.lo)
  }

  function MemberTexts(ms: seq<Member>): Option<seq<string>> {
    if ms == [] then Some([])
    else
      match (MemberText(ms[0]), MemberTexts(ms[1..]))
      case (Some(t), Some(ts)) => Some([t] + ts)
      case _ => None
  }

  /** `abnf-range-text`: nothing for a class ABNF has no form for. */
  function RangeText(pattern: string): Option<string> {
    var body := Before("]", After("[", pattern));
    if Starts("^", body) then None
    else
      var ms := ClassMembers(body);
      if ms == [] || exists m :: m in ms && m.lo == "" then None
      else if |ms| == 1 then MemberText(ms[0])
      else
        match MemberTexts(ms)
        case Some(ts) => Some("( " + Strings.Join(" / ", ts) + " )")
        case None => None
  }

  /** `abnf-class-text`. */
  function ClassText(pattern: string): Option<string> {
    if pattern == "[\\s\\S]" then Some("%x0-10FFFF") else RangeText(pattern)
  }

  // ---- the class a numeric range is

  /** An escape's text after the mark: braces, or four digits. */
  function EscapeBody(n: nat, astral: bool): string {
    if astral then "{" + Hex(n) + "}" else Pad4(Hex(n))
  }

  predicate EscapeText(x: string) {
    x != "" && forall c :: c in x ==> DigitValue(c) < 16 || c == '{' || c == '}'
  }

  lemma EscapeIs(n: CodePoint, astral: bool)
    ensures Escape(n, astral) == ESC + EscapeBody(n, astral)
    ensures EscapeText(EscapeBody(n, astral))
  {
    DigitsRead(n, 16);
    if astral {
      Braced(Hex(n));
    } else {
      LeadingZeros(if |Hex(n)| >= 4 then 0 else 4 - |Hex(n)|, Hex(n));
    }
  }

  lemma Braced(h: string)
    requires AllDigits(h, 16)
    ensures "\\u{" + h + "}" == ESC + ("{" + h + "}") && EscapeText("{" + h + "}")
  {
    assert "\\u{" == ESC + "{";
  }

  /** Four digits, or the last two where the first two are zeros. */
  lemma PlainHex(h: string)
    requires |h| == 4 && AllDigits(h, 16)
    ensures BodyHex(h) == HexUpper(if "00" <= h then h[2..] else h)
  {
    StartsIsPrefix("{", h);
    assert h[0] in h;
    StartsIsPrefix("00", h);
    if "00" <= h {
      assert h == "00" + h[2..];
      AfterPrefix("00", h[2..]);
    }
  }

  lemma Pad4Is(n: nat)
    requires n < 0x1_0000
    ensures |Pad4(Hex(n))| == 4 && AllDigits(Pad4(Hex(n)), 16) && Value(Pad4(Hex(n)), 16) == n
  {
    DigitsRead(n, 16);
    assert Power16(4) == 0x1_0000 by {
      assert Power16(2) == 0x100;
    }
    HexWidth(n, 4);
    LeadingZeros(4 - |Hex(n)|, Hex(n));
    assert seq(0, _ => '0') + Hex(n) == Hex(n);
  }

  lemma ZerosOff(h: string)
    requires |h| == 4 && AllDigits(h, 16) && "00" <= h
    ensures AllDigits(h[2..], 16) && Value(h[2..], 16) == Value(h, 16)
  {
    assert h == seq(2, _ => '0') + h[2..];
    assert forall c :: c in h[2..] ==> c in h;
    LeadingZeros(2, h[2..]);
  }

  /** The body of a class of one range. */
  function RangeBody(x: string, y: string): string { ESC + (x + "-" + ESC + y) }

  lemma RangeBodyIs(lo: CodePoint, hi: CodePoint)
    ensures var astral := 0xFFFF < lo || 0xFFFF < hi;
            RangeClass(lo, hi).pattern == "[" + (RangeBody(EscapeBody(lo, astral), EscapeBody(hi, astral)) + "]")
  {
    var astral := 0xFFFF < lo || 0xFFFF < hi;
    var x, y := EscapeBody(lo, astral), EscapeBody(hi, astral);
    EscapeIs(lo, astral);
    EscapeIs(hi, astral);
    PatternNests(ESC, x, y);
  }

  lemma PatternNests(e: string, x: string, y: string)
    ensures "[" + (e + x) + "-" + (e + y) + "]" == "[" + (e + (x + "-" + e + y) + "]")
  {
  }

  lemma InsideBrackets(body: string)
    requires ']' !in body
    ensures Before("]", After("[", "[" + (body + "]"))) == body
  {
    AfterPrefix("[", body + "]");
    BeforeIs(']', body);
  }

  // ---- the code points a class's pattern holds

  /** `abnf-piece-hex`. */
  function PieceHex(p: string): string {
    var core := if Ends("-", p) then Before("-", p) else p;
    if Starts("{", core) then Before("}", After("{", core)) else core
  }

  function HexSpansFrom(pieces: seq<string>, i: nat): seq<Member>
    requires i <= |pieces|
    decreases |pieces| - i
  {
    if i == |pieces| then []
    else if i > 0 && Ends("-", pieces[i - 1]) then HexSpansFrom(pieces, i + 1)
    else
      var lo := PieceHex(pieces[i]);
      var hi := if Ends("-", pieces[i]) && i + 1 < |pieces| then PieceHex(pieces[i + 1]) else lo;
      [Member(lo, hi)] + HexSpansFrom(pieces, i + 1)
  }

  /** `abnf-class-hex-spans`. */
  function ClassHexSpans(pattern: string): seq<Member> {
    if pattern == "[\\s\\S]" then [Member("0", "10FFFF")]
    else
      var inner := Before("]", After("[", pattern));
      HexSpansFrom(SplitOn(ESC, if Starts("^", inner) then After("^", inner) else inner)[1..], 0)
  }

  predicate HexMember(m: Member) {
    && AllDigits(m.lo, 16) && 0 < |m.lo| <= 6
    && AllDigits(m.hi, 16) && 0 < |m.hi| <= 6
  }

  /** `abnf-class-spans`, of members whose digits name code points. */
  function ClassSpan(m: Member): Span
    requires HexMember(m)
  {
    Span(CpOfHex(m.lo), CpOfHex(m.hi))
  }

  /** The digits between an escape's braces, or the four it has. */
  function EscapeDigits(n: nat, astral: bool): string {
    if astral then Hex(n) else Pad4(Hex(n))
  }

  lemma EscapeDigitsAre(n: CodePoint, astral: bool)
    requires !astral ==> n <= 0xFFFF
    ensures var h := EscapeDigits(n, astral); AllDigits(h, 16) && 0 < |h| <= 6 && Value(h, 16) == n
  {
    DigitsRead(n, 16);
    if astral {
      assert Power16(6) == 0x100_0000 by {
        assert Power16(2) == 0x100;
        assert Power16(4) == 0x1_0000;
      }
      HexWidth(n, 6);
    } else {
      Pad4Is(n);
    }
  }
}
