/** Which patterns the render reads as a class: every one the compiler writes, and no other
    that opens a bracket, but for chains of ranges, whose last member it loses. */
module Admissions {
  import opened Strings
  import opened Classes
  import opened ClassPatterns

  lemma {:induction false} JoinSnoc(sep: string, init: seq<string>, last: string)
    requires init != []
    ensures Strings.Join(sep, init + [last]) == Strings.Join(sep, init) + sep + last
    decreases |init|
  {
    assert init == [init[0]] + init[1..];
    if |init| > 1 {
      JoinSnoc(sep, init[1..], last);
      assert init + [last] == [init[0]] + (init[1..] + [last]);
      JoinStep(sep, init[0], init[1..] + [last]);
      JoinStep(sep, init[0], init[1..]);
    } else {
      JoinStep(sep, init[0], [last]);
      assert init + [last] == [init[0]] + [last];
    }
  }

  function LastPiece(sep: string, s: string): string
    requires sep != ""
  {
    SplitOn(sep, s)[|SplitOn(sep, s)| - 1]
  }

  lemma LastFound(c: char, s: string, i: nat)
    requires i == FindOn([c], s) && i < |s|
    ensures LastPiece([c], s) == LastPiece([c], s[i + 1..])
    ensures i + 1 == |s| ==> s[i] == c
  {
    CutStep([c], s, i);
  }

  /** Cutting by one character tells the last character, and what stands before it. */
  lemma {:induction false} EndsIsLast(c: char, s: string)
    ensures s == "" ==> LastPiece([c], s) == ""
    ensures s != "" ==> (LastPiece([c], s) == "" <==> s[|s| - 1] == c)
    decreases |s|
  {
    var i := FindOn([c], s);
    if i == |s| {
      SplitOne(c, s);
      CutNone(c, s);
    } else {
      LastFound(c, s, i);
      EndsIsLast(c, s[i + 1..]);
    }
  }

  lemma CutNone(c: char, s: string)
    ensures c !in s ==> SplitOn([c], s) == [s]
  {
    if c !in s {
      CutAt([c], s, "");
    }
  }

  lemma BeforeLast(c: char, s: string)
    requires s != "" && s[|s| - 1] == c
    ensures Before([c], s) == s[..|s| - 1]
  {
    EndsIsLast(c, s);
    JoinSplitOn([c], s);
    BeforeJoined(c, s, SplitOn([c], s));
  }

  lemma BeforeJoined(c: char, s: string, pieces: seq<string>)
    requires pieces != [] && pieces[|pieces| - 1] == "" && Strings.Join([c], pieces) == s && s != ""
    ensures Strings.Join([c], pieces[..|pieces| - 1]) == s[..|s| - 1]
  {
    var init := pieces[..|pieces| - 1];
    assert pieces == init + [""];
    if init != [] {
      JoinSnoc([c], init, "");
      assert s == Strings.Join([c], init) + [c];
    }
  }

  /** One marked piece after another. */
  lemma {:induction false} JoinInner(first: string, pieces: seq<string>)
    ensures Strings.Join(ESC, [first] + pieces) == first + Inner(pieces)
    decreases |pieces|
  {
    if pieces == [] {
      assert first + "" == first && [first] + pieces == [first];
    } else {
      JoinInner(pieces[0], pieces[1..]);
      assert [pieces[0]] + pieces[1..] == pieces;
      JoinStep(ESC, first, pieces);
      assert first + ESC + (pieces[0] + Inner(pieces[1..])) == first + Inner(pieces);
    }
  }

  lemma BraceOff(inner: string)
    requires inner != "" && inner[|inner| - 1] == '}'
    ensures Before("}", After("{", "{" + inner)) + "}" == inner
  {
    AfterPrefix("{", inner);
    BeforeLast('}', inner);
  }

  lemma BracesOff(core: string)
    requires Starts("{", core) && Ends("}", core)
    ensures core == "{" + Before("}", After("{", core)) + "}"
  {
    StartsIsPrefix("{", core);
    EndsIsLast('}', core);
    assert core == "{" + core[1..];
    BraceOff(core[1..]);
  }

  /** The escape a piece's text is. */
  lemma CoreEscaped(core: string) returns (e: Escaped)
    requires EscapePiece(core)
    ensures EscapeOk(e) && BodyOf(e) == core
  {
    if Starts("{", core) {
      BracesOff(core);
      e := Escaped(Before("}", After("{", core)), true);
    } else {
      e := Escaped(core, false);
    }
  }

  lemma HyphenOff(piece: string)
    ensures Ends("-", piece) ==> piece == Before("-", piece) + "-"
  {
    EndsIsLast('-', piece);
    if Ends("-", piece) {
      BeforeLast('-', piece);
      assert piece == piece[..|piece| - 1] + "-";
    }
  }

  lemma PieceEscaped(piece: string) returns (e: Escaped)
    requires MemberPiece(piece)
    ensures EscapeOk(e) && piece == if Ends("-", piece) then BodyOf(e) + "-" else BodyOf(e)
  {
    HyphenOff(piece);
    e := CoreEscaped(if Ends("-", piece) then Before("-", piece) else piece);
  }

  lemma WholeTail(pieces: seq<string>, n: nat)
    requires Whole(pieces) && n <= |pieces|
    ensures Whole(pieces[n..])
  {
    var rest := pieces[n..];
    forall i | 0 <= i < |rest| - 1 ensures !(Ends("-", rest[i]) && Ends("-", rest[i + 1])) {
      assert rest[i] == pieces[n + i] && rest[i + 1] == pieces[n + i + 1];
    }
  }

  lemma LonePieces(pieces: seq<string>, e: Escaped, more: seq<Part>)
    requires pieces != [] && pieces[0] == BodyOf(e) && Pieces(more) == pieces[1..]
    ensures Pieces([Lone(e)] + more) == pieces
  {
    assert ([Lone(e)] + more)[1..] == more;
    assert pieces == [pieces[0]] + pieces[1..];
  }

  lemma RunPieces(pieces: seq<string>, lo: Escaped, hi: Escaped, more: seq<Part>)
    requires |pieces| > 1 && pieces[0] == BodyOf(lo) + "-" && pieces[1] == BodyOf(hi) && Pieces(more) == pieces[2..]
    ensures Pieces([Run(lo, hi)] + more) == pieces
  {
    assert ([Run(lo, hi)] + more)[1..] == more;
    assert pieces == [pieces[0], pieces[1]] + pieces[2..];
  }

  lemma HighEnd(pieces: seq<string>)
    requires Whole(pieces) && pieces != [] && Ends("-", pieces[0])
    ensures |pieces| > 1 && !Ends("-", pieces[1]) && MemberPiece(pieces[1])
  {
    assert |pieces| > 1 ==> pieces[1] in pieces;
  }

  /** Pieces of whole members are some members' pieces. */
  lemma {:induction false} WholeParts(pieces: seq<string>) returns (parts: seq<Part>)
    requires Whole(pieces)
    ensures Pieces(parts) == pieces && forall p :: p in parts ==> PartOk(p)
    decreases |pieces|
  {
    if pieces == [] {
      parts := [];
    } else {
      assert pieces[0] in pieces;
      var e := PieceEscaped(pieces[0]);
      if Ends("-", pieces[0]) {
        HighEnd(pieces);
        var hi := PieceEscaped(pieces[1]);
        WholeTail(pieces, 2);
        var more := WholeParts(pieces[2..]);
        RunPieces(pieces, e, hi, more);
        parts := [Run(e, hi)] + more;
      } else {
        WholeTail(pieces, 1);
        var more := WholeParts(pieces[1..]);
        LonePieces(pieces, e, more);
        parts := [Lone(e)] + more;
      }
    }
  }

  /** A range whose high end is the low end of the next. */
  predicate Chained(body: string) {
    body != "[\\s\\S]" && Chains(SplitOn(ESC, MembersText(body))[1..])
  }

  lemma BracketsOff(body: string)
    requires "[" <= body && Ends("]", body)
    ensures body == "[" + (Between(body) + "]")
  {
    EndsIsLast(']', body);
    var rest := body[1..];
    assert body == "[" + rest;
    AfterPrefix("[", rest);
    BeforeLast(']', rest);
    assert rest == rest[..|rest| - 1] + "]";
  }

  lemma MarkOff(inner: string)
    ensures inner == (if Starts("^", inner) then "^" + After("^", inner) else inner)
  {
    if Starts("^", inner) {
      StartsIsPrefix("^", inner);
      assert inner == "^" + inner[1..];
      AfterPrefix("^", inner[1..]);
    }
  }

  /** What the walk asks of a pattern other than `[\\s\\S]`. */
  predicate AdmittedText(body: string) {
    && Ends("]", body) && |SplitOn("[", Between(body))| == 1 && |SplitOn("]", Between(body))| == 1
    && AdmittedPieces(SplitOn(ESC, MembersText(body)))
  }

  predicate ChainedText(body: string) { Chains(SplitOn(ESC, MembersText(body))[1..]) }

  lemma TextWritten(body: string) returns (k: Class)
    requires "[" <= body && AdmittedText(body) && !ChainedText(body)
    ensures k.OfParts? && ClassOk(k) && Pattern(k) == body
  {
    var pieces := SplitOn(ESC, MembersText(body));
    assert pieces == [""] + pieces[1..];
    var parts := WholeParts(pieces[1..]);
    k := OfParts(Starts("^", Between(body)), parts);
    BracketsOff(body);
    MarkOff(Between(body));
    JoinSplitOn(ESC, MembersText(body));
    JoinInner("", pieces[1..]);
    assert "" + Inner(pieces[1..]) == Inner(pieces[1..]);
  }

  lemma WrittenText(k: Class)
    requires k.OfParts? && ClassOk(k)
    ensures "[" <= Pattern(k) && AdmittedText(Pattern(k)) && !ChainedText(Pattern(k))
  {
    WrittenAdmitted(k);
    PatternStarts(k);
    PatternInner(k);
    CutInner(Pieces(k.parts));
    PartsWhole(k.parts);
  }

  /** What stands before the first bracket is not read. */
  lemma TextBefore(prefix: string, pattern: string)
    requires '[' !in prefix && "[" <= pattern
    ensures Between(prefix + pattern) == Between(pattern)
    ensures Ends("]", prefix + pattern) <==> Ends("]", pattern)
  {
    var rest := pattern[1..];
    assert pattern == "[" + rest && prefix + pattern == prefix + "[" + rest;
    AfterIs("[", prefix, rest);
    AfterPrefix("[", rest);
    EndsIsLast(']', pattern);
    EndsIsLast(']', prefix + pattern);
  }

  lemma NoBracket(body: string)
    requires '[' !in body
    ensures !AdmittedText(body)
  {
    CutNone('[', body);
    CutNone(']', "");
    assert Between(body) == "";
    CutAt(ESC, "", "");
  }

  lemma FirstBracket(body: string) returns (prefix: string, pattern: string)
    requires '[' in body
    ensures '[' !in prefix && "[" <= pattern && body == prefix + pattern
  {
    var i := Find('[', body);
    assert body[..|body|] == body;
    prefix, pattern := body[..i], body[i..];
    assert body == prefix + pattern;
  }

  /** A class written, after text without a bracket. */
  ghost predicate WrittenAfter(body: string, prefix: string, k: Class) {
    '[' !in prefix && k.OfParts? && ClassOk(k) && body == prefix + Pattern(k)
  }

  lemma AdmittedAfter(body: string, prefix: string, k: Class)
    requires WrittenAfter(body, prefix, k)
    ensures AdmittedText(body) && !ChainedText(body)
  {
    WrittenText(k);
    TextBefore(prefix, Pattern(k));
  }

  lemma AfterWritten(body: string) returns (prefix: string, k: Class)
    requires AdmittedText(body) && !ChainedText(body)
    ensures WrittenAfter(body, prefix, k)
  {
    if '[' !in body {
      NoBracket(body);
    }
    var pattern;
    prefix, pattern := FirstBracket(body);
    TextBefore(prefix, pattern);
    k := TextWritten(pattern);
  }

  /** The patterns admitted in which no range's high end is again a low end are the class of
      every character and the classes the compiler writes, these after any text at all that
      has no bracket. */
  lemma AdmitsClasses(body: string)
    ensures Admitted(body) && !Chained(body) <==>
            body == "[\\s\\S]" || exists prefix, k :: WrittenAfter(body, prefix, k)
  {
    if body != "[\\s\\S]" {
      if Admitted(body) && !Chained(body) {
        var prefix, k := AfterWritten(body);
      }
      if prefix, k :| WrittenAfter(body, prefix, k) {
        AdmittedAfter(body, prefix, k);
      }
    }
  }

  lemma NoTextBefore(prefix: string, pattern: string)
    requires '[' !in prefix && "[" <= prefix + pattern
    ensures prefix == ""
  {
    assert (prefix + pattern)[0] == '[';
  }

  lemma AnchoredWritten(body: string) returns (k: Class)
    requires "[" <= body && Admitted(body) && !Chained(body)
    ensures ClassOk(k) && Pattern(k) == body
  {
    if body == "[\\s\\S]" {
      k := Anything;
    } else {
      var prefix;
      prefix, k := AfterWritten(body);
      NoTextBefore(prefix, Pattern(k));
      assert "" + Pattern(k) == Pattern(k);
    }
  }

  lemma WrittenAnchored(k: Class)
    requires ClassOk(k)
    ensures "[" <= Pattern(k) && Admitted(Pattern(k)) && !Chained(Pattern(k))
  {
    WrittenAdmitted(k);
    if k.OfParts? {
      WrittenText(k);
    }
  }

  /** Where a pattern opens a bracket, as the render asks of a token outside a set, those are
      exactly the classes written. */
  lemma AdmitsAnchored(body: string)
    requires "[" <= body
    ensures Admitted(body) && !Chained(body) <==> exists k :: ClassOk(k) && Pattern(k) == body
  {
    if Admitted(body) && !Chained(body) {
      var k := AnchoredWritten(body);
    }
    if k :| ClassOk(k) && Pattern(k) == body {
      WrittenAnchored(k);
    }
  }

  /** A class with text before it is read as the class alone, and a negated one as what it
      leaves out. */
  lemma TextBeforeIsLost(prefix: string, k: Class)
    requires '[' !in prefix && k.OfParts? && ClassOk(k) && (prefix != "" || !k.negated)
    ensures var body := prefix + Pattern(k);
            Admitted(body) && !Starts("[^", body) && ClassHexSpans(body) == MembersOf(k.parts)
  {
    var body := prefix + Pattern(k);
    AdmittedAfter(body, prefix, k);
    WrittenText(k);
    TextBefore(prefix, Pattern(k));
    PartsBack(k);
    PatternStarts(k);
    if prefix == "" {
      assert body == Pattern(k);
    } else {
      StartsIsPrefix("[^", body);
      assert body[0] == prefix[0] && prefix[0] in prefix;
    }
  }

  /** Such a chain is admitted and then read without its last member: of `\\uX-\\uY-\\uZ` only
      the range from X to Y. */
  lemma ChainLosesMember(x: Escaped, y: Escaped, z: Escaped)
    requires EscapeOk(x) && EscapeOk(y) && EscapeOk(z)
    ensures var body := "[" + (Inner([BodyOf(x) + "-", BodyOf(y) + "-", BodyOf(z)]) + "]");
            Admitted(body) && Chained(body) && ClassHexSpans(body) == [Member(x.digits, y.digits)]
  {
    var pieces := [BodyOf(x) + "-", BodyOf(y) + "-", BodyOf(z)];
    var body := "[" + (Inner(pieces) + "]");
    ChainText(x, y, z, pieces);
    InsideBrackets(Inner(pieces));
    PlainStarts(Inner(pieces));
    StartsIsPrefix("^", Inner(pieces));
    assert Inner(pieces)[0] == '\\';
    BracketEnds(Inner(pieces));
    SplitOne('[', Inner(pieces));
    SplitOne(']', Inner(pieces));
    CutPieces("", pieces);
    assert "" + Inner(pieces) == Inner(pieces) && ([""] + pieces)[1..] == pieces;
    ChainReads(x, y, z, pieces);
  }

  lemma OfThree(a: string, b: string, c: string, keep: string -> bool)
    requires keep(a) && keep(b) && keep(c)
    ensures forall p :: p in [a, b, c] ==> keep(p)
  {
  }

  lemma ChainText(x: Escaped, y: Escaped, z: Escaped, pieces: seq<string>)
    requires EscapeOk(x) && EscapeOk(y) && EscapeOk(z) && pieces == [BodyOf(x) + "-", BodyOf(y) + "-", BodyOf(z)]
    ensures Unmarked(pieces) && '[' !in Inner(pieces) && ']' !in Inner(pieces)
    ensures AdmittedPieces([""] + pieces) && Chains(pieces)
  {
    BodyText(x);
    BodyText(y);
    BodyText(z);
    OfThree(pieces[0], pieces[1], pieces[2], PieceText);
    InnerText(pieces);
    ChainPieces(x, y, z, pieces);
    ChainAdmitted(pieces);
  }

  lemma ChainPieces(x: Escaped, y: Escaped, z: Escaped, pieces: seq<string>)
    requires EscapeOk(x) && EscapeOk(y) && EscapeOk(z) && pieces == [BodyOf(x) + "-", BodyOf(y) + "-", BodyOf(z)]
    ensures forall p :: p in pieces ==> MemberPiece(p)
    ensures Ends("-", pieces[0]) && Ends("-", pieces[1]) && !Ends("-", pieces[2])
  {
    ChainPiece(x);
    ChainPiece(y);
    ChainPiece(z);
    OfThree(pieces[0], pieces[1], pieces[2], MemberPiece);
  }

  lemma ChainPiece(e: Escaped)
    requires EscapeOk(e)
    ensures MemberPiece(BodyOf(e)) && !Ends("-", BodyOf(e))
    ensures MemberPiece(BodyOf(e) + "-") && Ends("-", BodyOf(e) + "-")
  {
    BodyReads(e);
    BodyPiece(e);
  }

  lemma BodyText(e: Escaped)
    requires EscapeOk(e)
    ensures PieceText(BodyOf(e)) && PieceText(BodyOf(e) + "-")
  {
  }

  lemma ChainAdmitted(pieces: seq<string>)
    requires |pieces| == 3 && forall p :: p in pieces ==> MemberPiece(p)
    requires Ends("-", pieces[0]) && Ends("-", pieces[0 + 1]) && !Ends("-", pieces[2])
    ensures AdmittedPieces([""] + pieces) && Chains(pieces)
  {
    var all := [""] + pieces;
    assert all[1..] == pieces && all[|all| - 1] == pieces[2];
  }

  lemma ChainReads(x: Escaped, y: Escaped, z: Escaped, pieces: seq<string>)
    requires EscapeOk(x) && EscapeOk(y) && EscapeOk(z) && pieces == [BodyOf(x) + "-", BodyOf(y) + "-", BodyOf(z)]
    ensures HexSpansFrom(pieces, 0) == [Member(x.digits, y.digits)]
  {
    BodyReads(x);
    BodyReads(y);
    BodyReads(z);
    assert HexSpansFrom(pieces, 3) == [];
    assert HexSpansFrom(pieces, 2) == HexSpansFrom(pieces, 3);
    assert HexSpansFrom(pieces, 1) == HexSpansFrom(pieces, 2);
  }
}
