/** The class a token set's name gives, read back out of the name. */
module ClassNames {
  import opened Strings
  import opened Numeric
  import opened DigitText
  import opened CodePoints
  import opened Classes
  import opened ClassPatterns
  import opened Admissions
  import S = ClassSets

  // ---- the name

  /** A character of a name: `u`, `s` and the hexadecimal letters in capitals, and an underscore
      for each mark a pattern is written with. */
  function NameChar(c: char): char {
    if c == 'u' then 'U' else if c == 's' then 'S'
    else if PatternMark(c) then '_' else Upper(c)
  }

  predicate PatternMark(c: char) {
    c == '[' || c == ']' || c == '^' || c == '-' || c == '\\' || c == '{' || c == '}'
  }

  function NameText(s: string): (r: string)
    ensures |r| == |s| && forall i :: 0 <= i < |s| ==> r[i] == NameChar(s[i])
  {
    if s == "" then "" else [NameChar(s[0])] + NameText(s[1..])
  }

  /** `abnf-trim-end`: an underscore off the end, and one more. */
  function TrimOnce(s: string): string { if Ends("_", s) then Before("_", s) else s }

  function TrimEnd(s: string): string { if Ends("_", s) then TrimOnce(Before("_", s)) else s }

  /** `abnf-class-name`. */
  function ClassName(pattern: string): string { TrimEnd("RX_" + NameText(pattern)) }

  // ---- what it is read as

  /** What stands behind a member's mark, from the parts of its name: digits, or braces around
      them, and a hyphen after a low end. */
  function SetBody(parts: seq<string>): string
    requires parts != []
  {
    if parts[0] == "" then
      "{" + HexLower(if |parts| > 1 then parts[1] else "") + "}" + if |parts| == 4 then "-" else ""
    else HexLower(parts[0]) + if |parts| == 2 then "-" else ""
  }

  /** `abnf-set-member`. */
  function SetMember(piece: string): string { ESC + SetBody(Split('_', piece)) }

  function SetMembers(pieces: seq<string>): string {
    if pieces == [] then "" else SetMember(pieces[0]) + SetMembers(pieces[1..])
  }

  const MARK: string := "_U"

  /** `abnf-set-token`: nothing where the class read has another name. */
  function SetPattern(name: string): Option<string> {
    var rest := After("RX_", name);
    if rest == "__S_S" then Some("[\\s\\S]")
    else
      var pieces := SplitOn(MARK, rest);
      var pattern := "[" + ((if pieces[0] == "__" then "^" else "") + SetMembers(pieces[1..]) + "]");
      if ClassName(pattern) == name then Some(pattern) else None
  }

  // ---- the name of a pattern

  lemma NameConcat(a: string, b: string)
    ensures NameText(a + b) == NameText(a) + NameText(b)
  {
  }

  lemma LowerConcat(a: string, b: string)
    ensures HexLower(a + b) == HexLower(a) + HexLower(b)
  {
  }

  function SmallEscape(e: Escaped): Escaped { Escaped(HexLower(e.digits), e.braced) }

  lemma LowerBody(e: Escaped)
    ensures HexLower(BodyOf(e)) == BodyOf(SmallEscape(e))
    ensures HexLower(BodyOf(e) + "-") == BodyOf(SmallEscape(e)) + "-"
  {
    LowerBraces(e.digits);
    LowerConcat(BodyOf(e), "-");
  }

  lemma LowerBraces(h: string)
    ensures HexLower("{" + h + "}") == "{" + HexLower(h) + "}"
  {
    LowerConcat("{" + h, "}");
    LowerConcat("{", h);
  }

  lemma LowerPiece(piece: string, rest: string)
    ensures HexLower(ESC + (piece + rest)) == ESC + (HexLower(piece) + HexLower(rest))
  {
    LowerConcat(ESC, piece + rest);
    LowerConcat(piece, rest);
  }

  lemma NameDigits(h: string)
    requires AllDigits(h, 16)
    ensures '_' !in NameText(h) && 'U' !in NameText(h) && HexLower(NameText(h)) == HexLower(h)
  {
    forall i | 0 <= i < |h|
      ensures NameText(h)[i] != '_' && NameText(h)[i] != 'U' && Lower(NameText(h)[i]) == Lower(h[i])
    {
      assert h[i] in h;
    }
  }

  /** A name does not tell small letters from capitals. */
  lemma NameOfLower(s: string)
    ensures NameText(HexLower(s)) == NameText(s)
  {
    forall i | 0 <= i < |s| ensures NameChar(Lower(s[i])) == NameChar(s[i]) {
    }
  }

  /** The name of an escape, with an underscore for each brace. */
  lemma NameIs(e: Escaped)
    requires EscapeOk(e)
    ensures var h := NameText(e.digits);
            && NameText(BodyOf(e)) == (if e.braced then "_" + (h + "_") else h)
            && h != "" && '_' !in h && 'U' !in h && HexLower(h) == HexLower(e.digits)
  {
    NameDigits(e.digits);
    NameBraces(e.digits);
  }

  lemma NameBraces(h: string)
    ensures NameText("{" + h + "}") == "_" + (NameText(h) + "_")
  {
    NameConcat("{" + h, "}");
    NameConcat("{", h);
  }

  // ---- a name cut at its members

  /** The members' names, each behind its mark. */
  function Joined(names: seq<string>): string {
    if names == [] then "" else MARK + (names[0] + Joined(names[1..]))
  }

  lemma MarkAt(first: string, rest: string, k: nat)
    requires 'U' !in first && k < |first|
    ensures !(MARK <= (first + (MARK + rest))[k..])
  {
    var s := first + (MARK + rest);
    assert s[k..][1] == s[k + 1];
    if k + 1 < |first| {
      assert s[k + 1] == first[k + 1];
    }
  }

  lemma CutMark(first: string, rest: string)
    requires 'U' !in first
    ensures SplitOn(MARK, first + (MARK + rest)) == [first] + SplitOn(MARK, rest)
  {
    var s := first + (MARK + rest);
    assert s[|first|..] == MARK + rest;
    forall k | 0 <= k < |first| ensures !(MARK <= s[k..]) {
      MarkAt(first, rest, k);
    }
    CutStep(MARK, s, |first|);
    assert s[..|first|] == first && s[|first| + 2..] == rest;
  }

  lemma {:induction false} CutNames(first: string, names: seq<string>)
    requires 'U' !in first && forall x :: x in names ==> 'U' !in x
    ensures SplitOn(MARK, first + Joined(names)) == [first] + names
    decreases |names|
  {
    if names == [] {
      Absent(MARK, first, 'U');
      assert first + "" == first;
    } else {
      var rest := names[0] + Joined(names[1..]);
      CutNames(names[0], names[1..]);
      CutMark(first, rest);
      assert names == [names[0]] + names[1..];
    }
  }

  // ---- members read back

  /** Without an underscore at the end. */
  function Trimmed(x: string): string { if x != "" && x[|x| - 1] == '_' then x[..|x| - 1] else x }

  /** The names of the pieces, the last one trimmed. */
  function NamesOf(pieces: seq<string>): (names: seq<string>)
    ensures |names| == |pieces|
  {
    if pieces == [] then []
    else if |pieces| == 1 then [Trimmed(NameText(pieces[0]))]
    else [NameText(pieces[0])] + NamesOf(pieces[1..])
  }

  lemma PlainParts(h: string)
    requires '_' !in h
    ensures Split('_', h) == [h] && Split('_', h + "_") == [h, ""]
  {
    SplitFirst('_', h, "");
    SplitTwo('_', h, "");
    assert h + ['_'] + "" == h + "_";
  }

  lemma BracedParts(h: string)
    requires '_' !in h
    ensures Split('_', "_" + h) == ["", h] && Split('_', "_" + (h + "_")) == ["", h, ""]
  {
    PlainParts(h);
    BehindMark(h);
    BehindMark(h + "_");
  }

  lemma BehindMark(s: string)
    ensures Split('_', "_" + s) == [""] + Split('_', s)
  {
    SplitFirst('_', "", s);
    assert "" + ['_'] + s == "_" + s;
  }

  lemma LowParts(h: string)
    requires '_' !in h
    ensures Split('_', "_" + (h + "_" + "_")) == [""] + ([h] + ["", ""])
  {
    BehindMark(h + "_" + "_");
    SplitFirst('_', h, "_");
    PlainParts("");
    assert "" + "_" == "_";
  }

  lemma PlainBack(e: Escaped, h: string)
    requires EscapeOk(e) && !e.braced && h == NameText(e.digits)
    ensures NameText(BodyOf(e)) == h && NameText(BodyOf(e) + "-") == h + "_" && Trimmed(h) == h
    ensures SetBody([h]) == HexLower(BodyOf(e)) && SetBody([h, ""]) == HexLower(BodyOf(e) + "-")
  {
    NameIs(e);
    LowerBody(e);
    NameConcat(BodyOf(e), "-");
  }

  lemma BracedBack(e: Escaped, h: string)
    requires EscapeOk(e) && e.braced && h == NameText(e.digits)
    ensures SetBody(["", h]) == HexLower(BodyOf(e)) && SetBody(["", h, ""]) == HexLower(BodyOf(e))
    ensures SetBody([""] + ([h] + ["", ""])) == HexLower(BodyOf(e) + "-")
  {
    NameIs(e);
    LowerBody(e);
  }

  lemma BracedNames(e: Escaped, h: string)
    requires EscapeOk(e) && e.braced && h == NameText(e.digits)
    ensures NameText(BodyOf(e)) == "_" + (h + "_") && Trimmed("_" + (h + "_")) == "_" + h
    ensures NameText(BodyOf(e) + "-") == "_" + (h + "_" + "_")
  {
    NameIs(e);
    NameConcat(BodyOf(e), "-");
  }

  /** An escape is read back from its name, trimmed or not, and a low end from a name with an
      underscore for the hyphen. */
  lemma EscapeBack(e: Escaped)
    requires EscapeOk(e)
    ensures var x := BodyOf(e);
            && SetMember(NameText(x)) == ESC + HexLower(x) && SetMember(Trimmed(NameText(x))) == ESC + HexLower(x)
            && SetMember(NameText(x + "-")) == ESC + HexLower(x + "-")
  {
    var h := NameText(e.digits);
    NameIs(e);
    if e.braced {
      BracedBack(e, h);
      BracedNames(e, h);
      BracedParts(h);
      LowParts(h);
    } else {
      PlainBack(e, h);
      PlainParts(h);
    }
  }

  lemma PieceBack(piece: string)
    requires MemberPiece(piece)
    ensures SetMember(NameText(piece)) == ESC + HexLower(piece)
    ensures !Ends("-", piece) ==> SetMember(Trimmed(NameText(piece))) == ESC + HexLower(piece)
    ensures 'U' !in NameText(piece)
  {
    var e := PieceEscaped(piece);
    EscapeBack(e);
    BodyText(e);
    NameUnmarked(piece);
  }

  lemma NameUnmarked(piece: string)
    requires PieceText(piece)
    ensures 'U' !in NameText(piece)
  {
    forall i | 0 <= i < |piece| ensures NameText(piece)[i] != 'U' {
      assert piece[i] in piece;
    }
  }

  lemma SetMembersStep(name: string, names: seq<string>)
    ensures SetMembers([name] + names) == SetMember(name) + SetMembers(names)
  {
    assert ([name] + names)[1..] == names;
  }

  lemma LowerInner(pieces: seq<string>)
    requires pieces != []
    ensures HexLower(Inner(pieces)) == ESC + HexLower(pieces[0]) + HexLower(Inner(pieces[1..]))
  {
    LowerPiece(pieces[0], Inner(pieces[1..]));
  }

  /** The members are read back from their names. */
  lemma {:induction false} NamesBack(pieces: seq<string>)
    requires Whole(pieces)
    ensures SetMembers(NamesOf(pieces)) == HexLower(Inner(pieces))
    ensures forall x :: x in NamesOf(pieces) ==> 'U' !in x
    decreases |pieces|
  {
    if pieces != [] {
      var first, rest := pieces[0], pieces[1..];
      assert first in pieces;
      PieceBack(first);
      WholeTail(pieces, 1);
      NamesBack(rest);
      LowerInner(pieces);
      if rest == [] {
        SetMembersStep(Trimmed(NameText(first)), []);
      } else {
        SetMembersStep(NameText(first), NamesOf(rest));
      }
    }
  }

  // ---- the name trimmed

  lemma TrimmedBehind(a: string, b: string)
    requires b != ""
    ensures Trimmed(a + b) == a + Trimmed(b)
  {
    assert (a + b)[|a + b| - 1] == b[|b| - 1];
  }

  /** The last name is trimmed, and so the names joined. */
  lemma {:induction false} JoinedNames(pieces: seq<string>)
    requires pieces != [] && forall x :: x in pieces ==> x != ""
    ensures Joined(NamesOf(pieces)) == Trimmed(NameText(Inner(pieces))) && NameText(Inner(pieces)) != ""
    decreases |pieces|
  {
    var first, rest := pieces[0], pieces[1..];
    assert pieces == [first] + rest && first in pieces;
    assert forall x :: x in rest ==> x in pieces;
    NameInner(first, rest);
    if rest == [] {
      LastTrimmed(NameText(first));
    } else {
      JoinedNames(rest);
      TrimmedBehind(MARK + NameText(first), NameText(Inner(rest)));
      JoinedStep(NameText(first), NamesOf(rest));
    }
  }

  lemma JoinedStep(name: string, names: seq<string>)
    ensures Joined([name] + names) == MARK + name + Joined(names)
  {
    assert ([name] + names)[1..] == names;
  }

  lemma LastTrimmed(name: string)
    requires name != ""
    ensures Joined([Trimmed(name)]) == Trimmed(MARK + name + "")
  {
    assert MARK + name + "" == MARK + name && Trimmed(name) + "" == Trimmed(name);
    assert [Trimmed(name)][1..] == [];
    TrimmedBehind(MARK, name);
  }

  lemma NameInner(first: string, rest: seq<string>)
    ensures NameText(Inner([first] + rest)) == MARK + NameText(first) + NameText(Inner(rest))
  {
    assert ([first] + rest)[1..] == rest;
    NameConcat(ESC, first + Inner(rest));
    NameConcat(first, Inner(rest));
  }

  lemma TrimsTwo(x: string)
    requires x != ""
    ensures TrimEnd(x + "_") == Trimmed(x)
  {
    EndsIsLast('_', x + "_");
    BeforeLast('_', x + "_");
    assert (x + "_")[..|x + "_"| - 1] == x;
    EndsIsLast('_', x);
    if x[|x| - 1] == '_' {
      BeforeLast('_', x);
    }
  }

  // ---- the class read back

  function Head(negated: bool): string { if negated then "__" else "_" }

  lemma BracketsName(inner: string)
    ensures NameText("[" + (inner + "]")) == "_" + (NameText(inner) + "_")
  {
    NameConcat("[", inner + "]");
    NameConcat(inner, "]");
  }

  lemma Regroup(first: string, mark: string, name: string)
    ensures first + ("_" + (mark + name + "_")) == first + ("_" + mark + name) + "_"
  {
  }

  lemma PatternName(negated: bool, text: string)
    ensures "RX_" + NameText("[" + ((if negated then "^" else "") + text + "]")) ==
            "RX_" + (Head(negated) + NameText(text)) + "_"
  {
    var mark := if negated then "^" else "";
    BracketsName(mark + text);
    NameConcat(mark, text);
    Regroup("RX_", NameText(mark), NameText(text));
    assert Head(negated) == "_" + NameText(mark);
  }

  /** A class's name is its members' names behind their marks. */
  lemma NameJoins(k: Class)
    requires k.OfParts? && ClassOk(k)
    ensures ClassName(Pattern(k)) == "RX_" + (Head(k.negated) + Joined(NamesOf(Pieces(k.parts))))
  {
    var pieces := Pieces(k.parts);
    var name := NameText(Inner(pieces));
    PartsWhole(k.parts);
    PiecesStand(pieces);
    JoinedNames(pieces);
    PatternName(k.negated, Inner(pieces));
    TrimsTwo("RX_" + (Head(k.negated) + name));
    TrimmedBehind(Head(k.negated), name);
    TrimmedBehind("RX_", Head(k.negated) + name);
  }

  lemma PiecesStand(pieces: seq<string>)
    requires Whole(pieces)
    ensures forall x :: x in pieces ==> x != ""
  {
    forall x | x in pieces ensures x != "" {
      var e := PieceEscaped(x);
    }
  }

  lemma LowerPattern(negated: bool, text: string)
    ensures HexLower("[" + ((if negated then "^" else "") + text + "]")) ==
            "[" + ((if negated then "^" else "") + HexLower(text) + "]")
  {
    var mark := if negated then "^" else "";
    LowerBrackets(mark + text);
    LowerConcat(mark, text);
    assert HexLower(mark) == mark;
  }

  lemma LowerBrackets(inner: string)
    ensures HexLower("[" + (inner + "]")) == "[" + (HexLower(inner) + "]")
  {
    LowerConcat("[", inner + "]");
    LowerConcat(inner, "]");
  }

  lemma Marked(head: string, names: seq<string>)
    requires names != []
    ensures 'U' in head + Joined(names)
  {
    assert Joined(names)[1] == 'U';
  }

  lemma CutName(head: string, names: seq<string>)
    requires 'U' !in head && names != [] && forall x :: x in names ==> 'U' !in x
    ensures var rest := After("RX_", "RX_" + (head + Joined(names)));
            rest != "__S_S" && SplitOn(MARK, rest) == [head] + names
  {
    AfterPrefix("RX_", head + Joined(names));
    Marked(head, names);
    CutNames(head, names);
  }

  /** What a class's name is cut into. */
  lemma NamePieces(k: Class)
    requires k.OfParts? && ClassOk(k)
    ensures var rest := After("RX_", ClassName(Pattern(k)));
            rest != "__S_S" && SplitOn(MARK, rest) == [Head(k.negated)] + NamesOf(Pieces(k.parts))
    ensures SetMembers(NamesOf(Pieces(k.parts))) == HexLower(Inner(Pieces(k.parts)))
  {
    PartsWhole(k.parts);
    NamesBack(Pieces(k.parts));
    NameJoins(k);
    CutName(Head(k.negated), NamesOf(Pieces(k.parts)));
  }

  lemma NameBack(k: Class)
    requires ClassOk(k)
    ensures SetPattern(ClassName(Pattern(k))) == Some(HexLower(Pattern(k)))
  {
    NameOfLower(Pattern(k));
    if k.OfParts? {
      var pieces, names := Pieces(k.parts), NamesOf(Pieces(k.parts));
      NamePieces(k);
      LowerPattern(k.negated, Inner(pieces));
      assert ([Head(k.negated)] + names)[1..] == names;
    } else {
      AnyName();
      AnySmall();
    }
  }

  lemma AnyText()
    ensures NameText("[\\s\\S]") == "__S_S_"
  {
  }

  lemma AnySmall()
    ensures HexLower("[\\s\\S]") == "[\\s\\S]"
  {
  }

  lemma AnyName()
    ensures After("RX_", ClassName("[\\s\\S]")) == "__S_S"
  {
    AnyText();
    assert "RX_" + "__S_S_" == "RX_" + "__S_S" + "_";
    TrimsTwo("RX_" + "__S_S");
    AfterPrefix("RX_", "__S_S");
  }

  // ---- the class read, in small letters

  function SmallPart(p: Part): Part {
    match p
    case Lone(e) => Lone(SmallEscape(e))
    case Run(lo, hi) => Run(SmallEscape(lo), SmallEscape(hi))
  }

  function SmallParts(parts: seq<Part>): (small: seq<Part>)
    ensures |small| == |parts| && forall i :: 0 <= i < |parts| ==> small[i] == SmallPart(parts[i])
  {
    if parts == [] then [] else [SmallPart(parts[0])] + SmallParts(parts[1..])
  }

  function SmallClass(k: Class): Class {
    match k
    case Anything => Anything
    case OfParts(negated, parts) => OfParts(negated, SmallParts(parts))
  }

  lemma SmallBody(e: Escaped)
    requires EscapeOk(e)
    ensures EscapeOk(SmallEscape(e)) && Value(SmallEscape(e).digits, 16) == Value(e.digits, 16)
  {
    LowerReads(e.digits);
  }

  lemma InnerStep(piece: string, rest: seq<string>)
    ensures Inner([piece] + rest) == ESC + (piece + Inner(rest))
  {
    assert ([piece] + rest)[1..] == rest;
  }

  lemma {:induction false} SmallInner(parts: seq<Part>)
    requires forall p :: p in parts ==> PartOk(p)
    ensures Inner(Pieces(SmallParts(parts))) == HexLower(Inner(Pieces(parts)))
    decreases |parts|
  {
    if parts != [] {
      assert parts[0] in parts && PartOk(parts[0]);
      SmallInner(parts[1..]);
      SmallStep(parts[0], Pieces(parts[1..]), Pieces(SmallParts(parts[1..])));
      assert SmallParts(parts)[1..] == SmallParts(parts[1..]);
    }
  }

  lemma SmallStep(p: Part, rest: seq<string>, small: seq<string>)
    requires PartOk(p) && Inner(small) == HexLower(Inner(rest))
    ensures Inner(PiecesOf(SmallPart(p)) + small) == HexLower(Inner(PiecesOf(p) + rest))
    decreases p.Run?
  {
    match p
    case Lone(e) =>
      LowerBody(e);
      InnerStep(BodyOf(e), rest);
      InnerStep(BodyOf(SmallEscape(e)), small);
      LowerPiece(BodyOf(e), Inner(rest));
    case Run(lo, hi) =>
      LowerBody(lo);
      LowerBody(hi);
      SmallStep(Lone(hi), rest, small);
      InnerStep(BodyOf(lo) + "-", [BodyOf(hi)] + rest);
      InnerStep(BodyOf(SmallEscape(lo)) + "-", [BodyOf(SmallEscape(hi))] + small);
      LowerPiece(BodyOf(lo) + "-", Inner([BodyOf(hi)] + rest));
  }

  /** In small letters a class is written as its pattern is, and matches what it does. */
  lemma SmallPattern(k: Class)
    requires ClassOk(k)
    ensures ClassOk(SmallClass(k)) && Pattern(SmallClass(k)) == HexLower(Pattern(k))
  {
    match k
    case Anything => AnySmall();
    case OfParts(negated, parts) =>
      SmallInner(parts);
      LowerPattern(negated, Inner(Pieces(parts)));
      SmallOk(parts);
  }

  lemma SmallOk(parts: seq<Part>)
    requires forall p :: p in parts ==> PartOk(p)
    ensures forall p :: p in SmallParts(parts) ==> PartOk(p)
  {
    forall i | 0 <= i < |parts| ensures PartOk(SmallPart(parts[i])) {
      SmallPartOk(parts[i]);
    }
  }

  lemma SmallPartOk(p: Part)
    requires PartOk(p)
    ensures PartOk(SmallPart(p))
    ensures Value(MemberOf(SmallPart(p)).lo, 16) == Value(MemberOf(p).lo, 16)
    ensures Value(MemberOf(SmallPart(p)).hi, 16) == Value(MemberOf(p).hi, 16)
  {
    match p
    case Lone(e) => SmallBody(e);
    case Run(lo, hi) =>
      SmallBody(lo);
      SmallBody(hi);
  }

  lemma SmallAlike(k: Class, c: Cp)
    requires ClassOk(k)
    ensures Ordered(SmallClass(k)) <==> Ordered(k)
    ensures Matches(SmallClass(k), c) <==> Matches(k, c)
  {
    if k.OfParts? {
      var small := SmallParts(k.parts);
      forall i | 0 <= i < |small|
        ensures Value(MemberOf(small[i]).lo, 16) == Value(MemberOf(k.parts[i]).lo, 16)
        ensures Value(MemberOf(small[i]).hi, 16) == Value(MemberOf(k.parts[i]).hi, 16)
        ensures PartHolds(small[i], c) <==> PartHolds(k.parts[i], c)
      {
        SmallPartOk(k.parts[i]);
      }
    }
  }

  // ---- a name, place by place

  /** The character a name has for one of a pattern: an underscore for a mark, and a letter in
      capitals, those a pattern is written with being `a` to `f`, `s` and `u`. */
  predicate PlaceIs(c: char, n: char) {
    if c == '[' || c == ']' || c == '{' || c == '}' || c == '^' || c == '-' || c == '\\' then n == '_'
    else if 'a' <= c <= 'f' || c == 's' || c == 'u' then n as int == c as int - 'a' as int + 'A' as int
    else n == c
  }

  /** Behind `RX_`, a pattern's places, less up to two underscores at the end. */
  predicate Spells(name: string, pattern: string) {
    && "RX_" <= name && |pattern| - 2 <= |name| - 3 <= |pattern|
    && (forall i :: 0 <= i < |name| - 3 ==> PlaceIs(pattern[i], name[i + 3]))
    && (forall i :: |name| - 3 <= i < |pattern| ==> PlaceIs(pattern[i], '_'))
    && (|name| - 3 > |pattern| - 2 ==> name[|name| - 1] != '_')
  }

  lemma PlaceOnce(c: char, n: char)
    ensures PlaceIs(c, n) <==> n == NameChar(c)
  {
  }

  lemma TrimsNone(x: string)
    requires x != "" && x[|x| - 1] != '_'
    ensures TrimEnd(x) == x
  {
    EndsIsLast('_', x);
  }

  /** A text trimmed of the underscores at its end, up to two. */
  predicate TrimmedOf(full: string, r: string) {
    && r <= full && |full| - 2 <= |r| && (forall i :: |r| <= i < |full| ==> full[i] == '_')
    && (r != "" && |r| > |full| - 2 ==> r[|r| - 1] != '_')
  }

  lemma TrimIs(x: string)
    requires |x| > 2
    ensures TrimmedOf(x, TrimEnd(x))
  {
    if x[|x| - 1] == '_' {
      var init := x[..|x| - 1];
      assert x == init + "_";
      TrimsTwo(init);
    } else {
      TrimsNone(x);
    }
  }

  lemma TrimmedOnce(full: string, a: string, b: string)
    requires TrimmedOf(full, a) && TrimmedOf(full, b) && |full| > 2
    ensures a == b
  {
    NotShorter(full, a, b);
    NotShorter(full, b, a);
    assert a == full[..|a|] && b == full[..|b|];
  }

  lemma NotShorter(full: string, a: string, b: string)
    requires TrimmedOf(full, a) && TrimmedOf(full, b) && |full| > 2
    ensures |a| >= |b|
  {
    if |b| > |full| - 2 {
      assert b[|b| - 1] == full[|b| - 1];
    }
  }

  /** A text that has at each place, three on, the one character the pattern's place allows. */
  predicate Fits(pattern: string, full: string) {
    && "RX_" <= full && |full| == |pattern| + 3
    && forall i, n: char {:trigger PlaceIs(pattern[i], n)} ::
         0 <= i < |pattern| ==> (PlaceIs(pattern[i], n) <==> n == full[i + 3])
  }

  lemma NameFits(pattern: string)
    ensures Fits(pattern, "RX_" + NameText(pattern))
  {
    var full := "RX_" + NameText(pattern);
    assert full[..3] == "RX_";
    forall i, n: char | 0 <= i < |pattern| ensures PlaceIs(pattern[i], n) <==> n == full[i + 3] {
      PlaceOnce(pattern[i], n);
    }
  }

  lemma SpelledIsPrefix(name: string, pattern: string, full: string)
    requires |pattern| >= 2 && Fits(pattern, full) && Spells(name, pattern)
    ensures name <= full
  {
    forall i | 0 <= i < |name| ensures name[i] == full[i] {
      if i >= 3 {
        assert PlaceIs(pattern[i - 3], name[i - 3 + 3]);
      }
    }
  }

  lemma SpelledIsTrimmed(name: string, pattern: string, full: string)
    requires |pattern| >= 2 && Fits(pattern, full) && Spells(name, pattern)
    ensures TrimmedOf(full, name)
  {
    SpelledIsPrefix(name, pattern, full);
    forall i | |name| <= i < |full| ensures full[i] == '_' {
      assert PlaceIs(pattern[i - 3], '_');
    }
  }

  lemma TrimmedIsSpelled(name: string, pattern: string, full: string)
    requires |pattern| >= 2 && Fits(pattern, full) && TrimmedOf(full, name)
    ensures Spells(name, pattern)
  {
    forall i | 0 <= i < |name| - 3 ensures PlaceIs(pattern[i], name[i + 3]) {
      assert name[i + 3] == full[i + 3];
    }
    forall i | |name| - 3 <= i < |pattern| ensures PlaceIs(pattern[i], '_') {
      assert full[i + 3] == '_';
    }
  }

  /** The name of a pattern is the one text it spells. */
  lemma NameIsSpelt(name: string, pattern: string)
    requires |pattern| >= 2
    ensures Spells(name, pattern) <==> name == ClassName(pattern)
  {
    var full := "RX_" + NameText(pattern);
    TrimIs(full);
    NameFits(pattern);
    TrimmedIsSpelled(ClassName(pattern), pattern, full);
    if Spells(name, pattern) {
      SpelledIsTrimmed(name, pattern, full);
      TrimmedOnce(full, name, TrimEnd(full));
    }
  }

  /** A pattern with the hexadecimal digits in small letters. */
  predicate InSmall(small: string, pattern: string) {
    && |small| == |pattern|
    && forall i :: 0 <= i < |pattern| ==>
         small[i] == if 'A' <= pattern[i] <= 'F' then pattern[i] - 'A' + 'a' else pattern[i]
  }

  /** From the name a class's pattern spells the pattern is read, with the digits in small
      letters. */
  lemma NameReadsBack(k: Class, name: string)
    requires ClassOk(k) && Spells(name, Pattern(k))
    ensures SetPattern(name).Some? && InSmall(SetPattern(name).value, Pattern(k))
  {
    PatternLong(k);
    NameIsSpelt(name, Pattern(k));
    NameBack(k);
  }

  lemma PatternLong(k: Class)
    ensures |Pattern(k)| >= 2
  {
  }

  /** From any name of a set's a pattern is read only if it spells the name. */
  lemma NameIsChecked(name: string)
    requires "RX_" <= name && SetPattern(name).Some?
    ensures Spells(name, SetPattern(name).value)
  {
    var rest := name[3..];
    assert name == "RX_" + rest;
    AfterPrefix("RX_", rest);
    if rest == "__S_S" {
      AnyText();
      NameIsSpelt(name, "[\\s\\S]");
      assert "RX_" + "__S_S_" == name + "_";
      TrimsTwo(name);
    } else {
      NameIsSpelt(name, SetPattern(name).value);
    }
  }

  // ---- the check by name

  /** `abnf-check-set`: nothing where the name gives no class or a token is refused. */
  function CheckNamed(name: string, srcs: seq<string>): Option<bool>
    requires SetPattern(name).Some? ==> Readable(SetPattern(name).value)
  {
    match SetPattern(name)
    case None => None
    case Some(pattern) => S.CheckSet(pattern, srcs)
  }

  /** A set with the name a class spells is refused exactly for a token, and passes exactly when
      its tokens match, between them, what the class does. */
  lemma CheckNamedIsExact(own: Class, name: string, srcs: seq<string>)
    requires ClassOk(own) && Ordered(own) && Spells(name, Pattern(own))
    requires forall src :: src in srcs ==> S.Proper(src)
    ensures SetPattern(name).Some? && Readable(SetPattern(name).value)
    ensures CheckNamed(name, srcs).Some? <==> forall src :: src in srcs ==> S.Accepted(src)
    ensures CheckNamed(name, srcs).Some? ==>
              (CheckNamed(name, srcs).value <==> forall c: Cp :: S.AnyMatches(srcs, c) <==> Matches(own, c))
  {
    var small := SmallClass(own);
    PatternLong(own);
    NameIsSpelt(name, Pattern(own));
    NameBack(own);
    SmallPattern(own);
    SmallAlike(own, FIRST);
    S.CheckSetIsExact(small, srcs);
    forall c: Cp ensures Matches(small, c) <==> Matches(own, c) {
      SmallAlike(own, c);
    }
  }

  // ---- the small letters

  lemma LetterSpells(name: string, pattern: string)
    requires pattern == "[\\u0061-\\u007a]" && name == "RX___U0061__U007A"
    ensures Spells(name, pattern)
  {
  }

  lemma LettersPattern(k: Class)
    requires k == OfParts(false, [Run(Escaped("0061", false), Escaped("007a", false))])
    ensures ClassOk(k) && Pattern(k) == "[\\u0061-\\u007a]"
  {
    FourDigits('0', '0', '6', '1');
    FourDigits('0', '0', '7', 'a');
    RunInner(k.parts[0].lo, k.parts[0].hi);
  }

  lemma SmallAlready(small: string, pattern: string)
    requires InSmall(small, pattern) && pattern == "[\\u0061-\\u007a]"
    ensures small == pattern
  {
    assert forall i :: 0 <= i < |pattern| ==> small[i] == pattern[i];
  }

  /** The small letters, by name. */
  lemma LettersReadBack(name: string)
    requires name == "RX___U0061__U007A"
    ensures SetPattern(name) == Some("[\\u0061-\\u007a]")
  {
    var k := OfParts(false, [Run(Escaped("0061", false), Escaped("007a", false))]);
    LettersPattern(k);
    LetterSpells(name, Pattern(k));
    NameReadsBack(k, name);
    SmallAlready(SetPattern(name).value, Pattern(k));
  }
}
