/** The flags a token's class is accepted with: `u`, which has it match by code points, or none,
    which has it match by units. */
module ClassFlags {
  import opened Unicode
  import opened Numeric
  import opened DigitText
  import opened Classes
  import opened ClassPatterns
  import Utf16

  // ---- the flags that fit a pattern

  /** `abnf-wants-u`. */
  predicate WantsU(body: string) {
    body == "[\\s\\S]" || Starts("[^", body) || |SplitOn("\\u{", body)| > 1
  }

  /** `abnf-hex-from`: four digits that begin as one of some prefixes does. */
  predicate HexFrom(h: string, prefixes: seq<string>) {
    |h| == 4 && exists p :: p in prefixes && p != "" && Starts(p, HexUpper(h))
  }

  const PAST_SURROGATES: seq<string> := ["E", "F"]
  const FROM_SURROGATES: seq<string> := ["D8", "D9", "DA", "DB", "DC", "DD", "DE", "DF", "E", "F"]

  /** `abnf-holds-surrogate`. */
  predicate HoldsSurrogate(body: string) {
    exists m :: m in ClassHexSpans(body) && !HexFrom(m.lo, PAST_SURROGATES) && HexFrom(m.hi, FROM_SURROGATES)
  }

  /** `abnf-flags-fit`. */
  predicate FlagsFit(body: string, flags: string) {
    if WantsU(body) then flags == "u"
    else if HoldsSurrogate(body) then flags == ""
    else flags == "" || flags == "u"
  }

  /** The class of a numeric range has the flag exactly where its pattern wants it. */
  lemma RangeFlags(lo: CodePoint, hi: CodePoint)
    ensures RangeClass(lo, hi).flags == if WantsU(RangeClass(lo, hi).pattern) then "u" else ""
  {
    var astral := 0xFFFF < lo || 0xFFFF < hi;
    var x, y := EscapeBody(lo, astral), EscapeBody(hi, astral);
    RangeIsWritten(lo, hi);
    WrittenRangeOk(lo, hi);
    PatternStarts(OfParts(false, [WrittenRange(lo, hi)]));
    RangeBodyIs(lo, hi);
    if astral {
      BracedWants(Hex(lo), "}-" + ESC + y + "]");
      BracedBody(Hex(lo), y);
    } else {
      PlainBody(lo, hi);
      Absent("\\u{", RangeClass(lo, hi).pattern, '{');
    }
  }

  lemma BracedBody(h: string, y: string)
    ensures "[" + (RangeBody("{" + h + "}", y) + "]") == "[" + "\\u{" + (h + ("}-" + ESC + y + "]"))
  {
  }

  lemma BracedWants(h: string, rest: string)
    ensures |SplitOn("\\u{", "[" + "\\u{" + (h + rest))| > 1
  {
    CutAt("\\u{", "[", h + rest);
  }

  lemma PlainBody(lo: CodePoint, hi: CodePoint)
    requires lo <= 0xFFFF && hi <= 0xFFFF
    ensures '{' !in RangeClass(lo, hi).pattern && '{' in "\\u{"
  {
    Pad4Is(lo);
    Pad4Is(hi);
    assert "\\u{"[2] == '{';
  }

  // ---- what the flags tell apart

  /** Whether a number is between the ends of a member. */
  predicate AmongParts(parts: seq<Part>, n: int) {
    exists i :: 0 <= i < |parts| && Value(MemberOf(parts[i]).lo, 16) <= n <= Value(MemberOf(parts[i]).hi, 16)
  }

  lemma PastAre(p: string)
    ensures p in PAST_SURROGATES <==> p == "E" || p == "F"
  {
  }

  lemma FirstAre(p: string)
    ensures p in FROM_SURROGATES ==>
              p == "E" || p == "F" || (|p| == 2 && p[0] == 'D' && Upper(p[1]) == p[1] && 8 <= DigitValue(p[1]) < 16)
  {
  }

  lemma FirstAll(c: char)
    requires Upper(c) == c && 8 <= DigitValue(c) < 16
    ensures ['D', c] in FROM_SURROGATES
  {
    var all := FROM_SURROGATES;
    assert all[0] == ['D', '8'] && all[1] == ['D', '9'] && all[2] == ['D', 'A'] && all[3] == ['D', 'B'];
    assert all[4] == ['D', 'C'] && all[5] == ['D', 'D'] && all[6] == ['D', 'E'] && all[7] == ['D', 'F'];
  }

  lemma StartsFrom(p: string, x: string)
    requires |x| == 4 && p != ""
    ensures |p| == 1 ==> (Starts(p, x) <==> x[0] == p[0])
    ensures |p| == 2 ==> (Starts(p, x) <==> x[0] == p[0] && x[1] == p[1])
  {
    StartsIsPrefix(p, x);
  }

  lemma FourBounds(x: string)
    requires |x| == 4 && AllDigits(x, 16)
    ensures DigitValue(x[0]) < 16 && DigitValue(x[1]) < 16
    ensures var n := 0x1000 * DigitValue(x[0]) + 0x100 * DigitValue(x[1]); n <= Value(x, 16) < n + 0x100
  {
    assert x[0] in x && x[1] in x && x[2] in x && x[3] in x;
    FourDigits(x[0], x[1], x[2], x[3]);
    assert x == [x[0], x[1], x[2], x[3]];
  }

  lemma FourUpper(h: string)
    requires |h| == 4 && AllDigits(h, 16)
    ensures var x := HexUpper(h);
            && AllDigits(x, 16) && Value(x, 16) == Value(h, 16) && Upper(x[0]) == x[0] && Upper(x[1]) == x[1]
  {
    UpperReads(h);
  }

  lemma CapitalIs(c: char)
    requires Upper(c) == c && DigitValue(c) < 16
    ensures c == 'D' <==> DigitValue(c) == 13
    ensures c == 'E' || c == 'F' <==> DigitValue(c) >= 14
  {
  }

  lemma BoundIs(a: nat, b: nat, v: nat)
    requires a < 16 && b < 16 && 0x1000 * a + 0x100 * b <= v < 0x1000 * a + 0x100 * b + 0x100
    ensures v >= 0xD800 <==> a >= 14 || (a == 13 && b >= 8)
    ensures v >= 0xE000 <==> a >= 14
    ensures v <= 0xFFFF
  {
  }

  lemma FromPast(h: string, x: string)
    requires |h| == 4 && AllDigits(h, 16) && x == HexUpper(h)
    ensures HexFrom(h, PAST_SURROGATES) <==> Value(h, 16) >= 0xE000
  {
    FourUpper(h);
    FourBounds(x);
    PastStarts(x);
    CapitalIs(x[0]);
    BoundIs(DigitValue(x[0]), DigitValue(x[1]), Value(x, 16));
  }

  lemma PastStarts(x: string)
    requires |x| == 4
    ensures (exists p :: p in PAST_SURROGATES && p != "" && Starts(p, x)) <==> x[0] == 'E' || x[0] == 'F'
  {
    StartsFrom("E", x);
    StartsFrom("F", x);
    PastAre("E");
    PastAre("F");
    if p :| p in PAST_SURROGATES && p != "" && Starts(p, x) {
      PastAre(p);
    }
  }

  lemma FirstStarts(x: string)
    requires |x| == 4 && Upper(x[1]) == x[1] && DigitValue(x[1]) < 16
    ensures (exists p :: p in FROM_SURROGATES && p != "" && Starts(p, x)) <==>
            x[0] == 'E' || x[0] == 'F' || (x[0] == 'D' && DigitValue(x[1]) >= 8)
  {
    if p :| p in FROM_SURROGATES && p != "" && Starts(p, x) {
      FirstAre(p);
      StartsFrom(p, x);
    }
    if x[0] == 'D' && DigitValue(x[1]) >= 8 {
      FirstAll(x[1]);
      StartsFrom(['D', x[1]], x);
    }
    StartsFrom("E", x);
    StartsFrom("F", x);
    assert FROM_SURROGATES[8] == "E" && FROM_SURROGATES[9] == "F";
  }

  lemma FromFirst(h: string, x: string)
    requires |h| == 4 && AllDigits(h, 16) && x == HexUpper(h)
    ensures HexFrom(h, FROM_SURROGATES) <==> Value(h, 16) >= 0xD800
    ensures Value(h, 16) <= 0xFFFF
  {
    FourUpper(h);
    FourBounds(x);
    FirstStarts(x);
    CapitalIs(x[0]);
    BoundIs(DigitValue(x[0]), DigitValue(x[1]), Value(x, 16));
  }

  /** Members of four digits, each with its ends in order. */
  predicate PlainParts(parts: seq<Part>) {
    forall i :: 0 <= i < |parts| ==>
      var m := MemberOf(parts[i]);
      PartOk(parts[i]) && |m.lo| == |m.hi| == 4 && Value(m.lo, 16) <= Value(m.hi, 16)
  }

  /** A member whose ends take in some surrogate. */
  predicate TakesHalf(m: Member) { Value(m.lo, 16) <= 0xDFFF && Value(m.hi, 16) >= 0xD800 }

  lemma HalfTaken(m: Member)
    requires |m.lo| == |m.hi| == 4 && AllDigits(m.lo, 16) && AllDigits(m.hi, 16)
    ensures !HexFrom(m.lo, PAST_SURROGATES) && HexFrom(m.hi, FROM_SURROGATES) <==> TakesHalf(m)
  {
    FromPast(m.lo, HexUpper(m.lo));
    FromFirst(m.hi, HexUpper(m.hi));
  }

  lemma MembersTake(parts: seq<Part>)
    requires PlainParts(parts)
    ensures (exists m :: m in MembersOf(parts) && !HexFrom(m.lo, PAST_SURROGATES) && HexFrom(m.hi, FROM_SURROGATES))
            <==> exists i :: 0 <= i < |parts| && TakesHalf(MemberOf(parts[i]))
  {
    var ms := MembersOf(parts);
    MembersLength(parts);
    forall i | 0 <= i < |parts|
      ensures ms[i] == MemberOf(parts[i])
      ensures !HexFrom(ms[i].lo, PAST_SURROGATES) && HexFrom(ms[i].hi, FROM_SURROGATES) <==> TakesHalf(ms[i])
    {
      MembersAt(parts, i);
      HalfTaken(MemberOf(parts[i]));
    }
  }

  lemma {:induction false} MembersLength(parts: seq<Part>)
    ensures |MembersOf(parts)| == |parts|
  {
    if parts != [] {
      MembersAt(parts, 0);
    }
  }

  lemma TakesOne(parts: seq<Part>)
    requires PlainParts(parts)
    ensures (exists i :: 0 <= i < |parts| && TakesHalf(MemberOf(parts[i]))) <==>
            exists n | 0xD800 <= n <= 0xDFFF :: AmongParts(parts, n)
  {
    if i :| 0 <= i < |parts| && TakesHalf(MemberOf(parts[i])) {
      var lo := Value(MemberOf(parts[i]).lo, 16);
      assert AmongParts(parts, if lo < 0xD800 then 0xD800 else lo);
    }
    if n :| 0xD800 <= n <= 0xDFFF && AmongParts(parts, n) {
      var i :| 0 <= i < |parts| && Value(MemberOf(parts[i]).lo, 16) <= n <= Value(MemberOf(parts[i]).hi, 16);
      assert TakesHalf(MemberOf(parts[i]));
    }
  }

  lemma AmongUnits(parts: seq<Part>, n: int)
    requires PlainParts(parts) && AmongParts(parts, n)
    ensures n <= 0xFFFF
  {
    var i :| 0 <= i < |parts| && Value(MemberOf(parts[i]).lo, 16) <= n <= Value(MemberOf(parts[i]).hi, 16);
    FromFirst(MemberOf(parts[i]).hi, HexUpper(MemberOf(parts[i]).hi));
  }

  /** A class of members of four digits is said to hold a surrogate exactly where it holds one. */
  lemma HoldsSurrogateIs(parts: seq<Part>)
    requires parts != [] && PlainParts(parts)
    ensures HoldsSurrogate(Pattern(OfParts(false, parts))) <==> exists n | 0xD800 <= n <= 0xDFFF :: AmongParts(parts, n)
  {
    PartsBack(OfParts(false, parts));
    MembersTake(parts);
    TakesOne(parts);
  }

  predicate Paired(units: seq<Unit>) { |units| > 1 && HighHalf(units[0]) && LowHalf(units[1]) }

  /** How many units of a text a class takes: read by code points with `u`, by units without. */
  function Taken(parts: seq<Part>, wide: bool, units: seq<Unit>): nat {
    if units == [] then 0
    else if wide && Paired(units) then if AmongParts(parts, Utf16.JoinHalves(units[0], units[1])) then 2 else 0
    else if AmongParts(parts, units[0]) then 1 else 0
  }

  /** One that holds none takes the same of every text with either flags. */
  lemma FlagsAlike(parts: seq<Part>, units: seq<Unit>)
    requires parts != [] && PlainParts(parts) && !HoldsSurrogate(Pattern(OfParts(false, parts)))
    ensures Taken(parts, true, units) == Taken(parts, false, units)
  {
    HoldsSurrogateIs(parts);
    if Paired(units) && AmongParts(parts, Utf16.JoinHalves(units[0], units[1])) {
      AmongUnits(parts, Utf16.JoinHalves(units[0], units[1]));
    }
  }

  // ---- which flags fit a class

  predicate Braced(p: Part) {
    match p
    case Lone(e) => e.braced
    case Run(lo, hi) => lo.braced || hi.braced
  }

  /** The flags a class is matched with: `u` where it is every character, negated, or written with
      braces; none where it holds a surrogate; and either elsewhere. */
  ghost predicate FlagsRight(k: Class, flags: string) {
    if k.Anything? || k.negated || (exists p :: p in k.parts && Braced(p)) then flags == "u"
    else if exists n | 0xD800 <= n <= 0xDFFF :: AmongParts(k.parts, n) then flags == ""
    else flags == "" || flags == "u"
  }

  lemma CutWhereFound(sep: string, a: string, b: string)
    requires sep != ""
    ensures |SplitOn(sep, a + sep + b)| > 1
  {
    var s := a + sep + b;
    assert sep <= s[|a|..];
    CutStep(sep, s, FindOn(sep, s));
  }

  lemma {:induction false} InnerMarked(pieces: seq<string>, x: string) returns (a: string, b: string)
    requires x in pieces && x != "" && x[0] == '{'
    ensures Inner(pieces) == a + "\\u{" + b
    decreases |pieces|
  {
    if x == pieces[0] {
      a, b := "", x[1..] + Inner(pieces[1..]);
      assert x == "{" + x[1..];
    } else {
      a, b := InnerMarked(pieces[1..], x);
      a := ESC + (pieces[0] + a);
    }
  }

  lemma {:induction false} BracedPiece(parts: seq<Part>, p: Part) returns (x: string)
    requires p in parts && Braced(p)
    ensures x in Pieces(parts) && x != "" && x[0] == '{'
    decreases |parts|
  {
    if p == parts[0] {
      x := match p
        case Lone(e) => BodyOf(e)
        case Run(lo, hi) => if lo.braced then BodyOf(lo) + "-" else BodyOf(hi);
      assert x in PiecesOf(p);
    } else {
      x := BracedPiece(parts[1..], p);
    }
  }

  lemma {:induction false} PlainPieces(parts: seq<Part>)
    requires forall p :: p in parts ==> PartOk(p) && !Braced(p)
    ensures forall x :: x in Pieces(parts) ==> '{' !in x
    decreases |parts|
  {
    if parts != [] {
      assert parts[0] in parts && PartOk(parts[0]);
      PlainPieces(parts[1..]);
    }
  }

  lemma {:induction false} PlainInner(pieces: seq<string>)
    requires forall x :: x in pieces ==> '{' !in x
    ensures '{' !in Inner(pieces)
    decreases |pieces|
  {
    if pieces != [] {
      assert pieces[0] in pieces;
      PlainInner(pieces[1..]);
    }
  }

  /** Where a pattern wants the flag. */
  lemma WantsWhere(k: Class)
    requires ClassOk(k)
    ensures WantsU(Pattern(k)) <==> k.Anything? || k.negated || exists p :: p in k.parts && Braced(p)
  {
    PatternStarts(k);
    if k.OfParts? && !k.negated {
      var text := Inner(Pieces(k.parts));
      assert "" + text == text;
      if p :| p in k.parts && Braced(p) {
        var x := BracedPiece(k.parts, p);
        var a, b := InnerMarked(Pieces(k.parts), x);
        MarkedWants(text, a, b);
      } else {
        PlainPieces(k.parts);
        PlainInner(Pieces(k.parts));
        PlainWants(text);
      }
    }
  }

  lemma Bracketed(mark: string, a: string, b: string)
    ensures "[" + ((a + mark + b) + "]") == ("[" + a) + mark + (b + "]")
  {
  }

  lemma MarkedWants(text: string, a: string, b: string)
    requires text == a + "\\u{" + b
    ensures |SplitOn("\\u{", "[" + (text + "]"))| > 1
  {
    Bracketed("\\u{", a, b);
    CutWhereFound("\\u{", "[" + a, b + "]");
  }

  lemma PlainWants(text: string)
    requires '{' !in text
    ensures |SplitOn("\\u{", "[" + (text + "]"))| == 1
  {
    var mark := "\\u{";
    assert mark[2] == '{';
    Absent(mark, "[" + (text + "]"), '{');
  }

  lemma HoldsWhere(k: Class)
    requires ClassOk(k) && Ordered(k) && k.OfParts? && !k.negated && forall p :: p in k.parts ==> !Braced(p)
    ensures HoldsSurrogate(Pattern(k)) <==> exists n | 0xD800 <= n <= 0xDFFF :: AmongParts(k.parts, n)
  {
    forall i | 0 <= i < |k.parts|
      ensures PartOk(k.parts[i]) && |MemberOf(k.parts[i]).lo| == |MemberOf(k.parts[i]).hi| == 4
    {
      assert k.parts[i] in k.parts;
    }
    HoldsSurrogateIs(k.parts);
    assert k == OfParts(false, k.parts);
  }

  /** The flags are accepted exactly where they are the ones the class is matched with. */
  lemma FlagsFitIs(k: Class, flags: string)
    requires ClassOk(k) && Ordered(k)
    ensures FlagsFit(Pattern(k), flags) <==> FlagsRight(k, flags)
  {
    WantsWhere(k);
    if !WantsU(Pattern(k)) {
      HoldsWhere(k);
    }
  }
}
