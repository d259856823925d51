/** The check of a token set: the class its name gives, against the sources of the tokens laid
    over it. */
module ClassSets {
  import opened Strings
  import opened Numeric
  import opened DigitText
  import opened CodePoints
  import opened Ranges
  import Tiling
  import opened Classes
  import opened ClassPatterns
  import opened ClassFlags
  import opened Admissions

  // ---- a token's source, `@~/^BODY/FLAGS`

  /** What stands between the first slash and the last. */
  function TokenText(src: string): string {
    var parts := Split('/', src);
    if |parts| < 2 then "" else Strings.Join("/", parts[1..|parts| - 1])
  }

  function TokenFlags(src: string): string {
    var parts := Split('/', src);
    parts[|parts| - 1]
  }

  function TokenBody(src: string): string { After("^", TokenText(src)) }

  // ---- the check

  /** `abnf-member-spans`: nothing where the render refuses a token of a set. */
  function MemberSpans(src: string): Option<seq<Span>> {
    var body := TokenBody(src);
    if Starts("@", src) && Admitted(body) && !Starts("[^", body) && FlagsFit(body, TokenFlags(src)) then
      AdmittedReadable(body);
      Some(ClassSpans(body))
    else None
  }

  function SetSpans(srcs: seq<string>): Option<seq<Span>> {
    if srcs == [] then Some([])
    else
      match (MemberSpans(srcs[0]), SetSpans(srcs[1..]))
      case (Some(a), Some(b)) => Some(a + b)
      case _ => None
  }

  /** `abnf-check-set`: nothing where a token is refused. */
  function CheckSet(pat: string, srcs: seq<string>): Option<bool>
    requires Readable(pat)
  {
    match SetSpans(srcs)
    case None => None
    case Some(spans) => Some(Tiling.Lays(Starts("[^", pat), ClassSpans(pat), spans))
  }

  // ---- where the check is exact

  /** What the render asks of a token outside a set: nothing stands before the class. */
  predicate Anchored(src: string) { "^[" <= TokenText(src) }

  /** Every range's ends are in order and code points. */
  predicate InOrder(src: string) {
    forall m :: m in ClassHexSpans(TokenBody(src)) && HexMember(m) ==>
      Value(m.lo, 16) <= Value(m.hi, 16) <= 0x10_FFFF
  }

  /** Such a token in which no range's high end is again a low end, its ends in order. */
  predicate Proper(src: string) { Anchored(src) && !Chained(TokenBody(src)) && InOrder(src) }

  predicate Negated(k: Class) { k.OfParts? && k.negated }

  /** A class is what a token is written with, between the slashes and behind the anchor. */
  ghost predicate Spelt(src: string, k: Class, flags: string) {
    ClassOk(k) && exists mark :: SpeltWith(src, mark, "^" + Pattern(k), flags)
  }

  predicate SpeltWith(src: string, mark: string, text: string, flags: string) {
    '/' !in mark && '/' !in flags && src == mark + ['/'] + (text + ['/'] + flags)
  }

  /** A token the render does not refuse: a class, not negated, with the flags it is matched with. */
  ghost predicate Accepted(src: string) {
    "@" <= src && exists k, flags :: Spelt(src, k, flags) && !Negated(k) && FlagsRight(k, flags)
  }

  ghost predicate TokenMatches(src: string, c: Cp) { exists k, flags :: Spelt(src, k, flags) && Matches(k, c) }

  ghost predicate AnyMatches(srcs: seq<string>, c: Cp) { exists src :: src in srcs && TokenMatches(src, c) }

  // ---- a token cut at its slashes

  predicate Stands(src: string, k: Class) { ClassOk(k) && TokenText(src) == "^" + Pattern(k) }

  lemma {:induction false} NoSlashInner(pieces: seq<string>)
    requires forall x :: x in pieces ==> PieceText(x)
    ensures '/' !in Inner(pieces)
    decreases |pieces|
  {
    if pieces != [] {
      assert pieces[0] in pieces && PieceText(pieces[0]);
      NoSlashInner(pieces[1..]);
    }
  }

  lemma NoSlash(k: Class)
    requires ClassOk(k)
    ensures '/' !in "^" + Pattern(k)
  {
    if k.OfParts? {
      PiecesText(k.parts);
      NoSlashInner(Pieces(k.parts));
    }
  }

  lemma MiddleIs(src: string, text: string)
    requires TokenText(src) == text && text != "" && '/' !in text
    ensures SpeltWith(src, Split('/', src)[0], text, TokenFlags(src))
  {
    var parts := Split('/', src);
    JoinSplit('/', src);
    var middle := parts[1..|parts| - 1];
    if |middle| > 1 {
      JoinHolds('/', middle);
    }
    assert middle == [text];
    assert parts == [parts[0], text, parts[2]];
    JoinThree('/', parts[0], text, parts[2]);
  }

  lemma JoinThree(sep: char, a: string, b: string, c: string)
    ensures Strings.Join([sep], [a, b, c]) == a + [sep] + (b + [sep] + c)
  {
    JoinStep([sep], a, [b, c]);
    JoinStep([sep], b, [c]);
    JoinStep([sep], c, []);
    assert [a] + [b, c] == [a, b, c] && [b] + [c] == [b, c];
  }

  /** The text of a source is what stands between its first slash and its last, and the flags
      are what stands behind. */
  lemma SpeltParts(src: string, mark: string, text: string, flags: string)
    requires SpeltWith(src, mark, text, flags)
    ensures TokenText(src) == text && TokenFlags(src) == flags
  {
    SplitFirst('/', mark, text + ['/'] + flags);
    SplitLast('/', text, flags);
    JoinSplit('/', text);
    MiddleOf(mark, Split('/', text), flags);
  }

  lemma MiddleOf(first: string, middle: seq<string>, last: string)
    ensures var parts := [first] + (middle + [last]);
            parts[1..|parts| - 1] == middle && parts[|parts| - 1] == last
  {
  }

  /** What is between a source's slashes is a class exactly where the source is spelt so. */
  lemma SpeltStands(src: string, k: Class, flags: string)
    requires ClassOk(k)
    ensures Spelt(src, k, flags) <==> Stands(src, k) && flags == TokenFlags(src)
  {
    NoSlash(k);
    if mark :| SpeltWith(src, mark, "^" + Pattern(k), flags) {
      SpeltParts(src, mark, "^" + Pattern(k), flags);
    }
    if Stands(src, k) {
      MiddleIs(src, "^" + Pattern(k));
    }
  }

  lemma BodyStands(src: string, k: Class)
    requires Stands(src, k)
    ensures TokenBody(src) == Pattern(k)
  {
    AfterPrefix("^", Pattern(k));
  }

  lemma AnchoredStands(src: string) returns (k: Class)
    requires Anchored(src) && !Chained(TokenBody(src)) && Admitted(TokenBody(src))
    ensures Stands(src, k)
  {
    var text := TokenText(src);
    assert text[0] == '^' && text == "^" + text[1..] && "[" <= text[1..];
    AfterPrefix("^", text[1..]);
    k := AnchoredWritten(TokenBody(src));
  }

  lemma {:induction false} MemberAt(parts: seq<Part>, i: nat)
    requires i < |parts|
    ensures MemberOf(parts[i]) in MembersOf(parts)
  {
    MembersAt(parts, i);
  }

  lemma StandsOrdered(src: string, k: Class)
    requires Proper(src) && Stands(src, k)
    ensures Ordered(k)
  {
    if k.OfParts? {
      BodyStands(src, k);
      PartsBack(k);
      MembersHex(k.parts);
      forall i | 0 <= i < |k.parts|
        ensures Value(MemberOf(k.parts[i]).lo, 16) <= Value(MemberOf(k.parts[i]).hi, 16) <= 0x10_FFFF
      {
        MemberAt(k.parts, i);
      }
    }
  }

  /** The render refuses a token exactly where it is no such class. */
  lemma TokenAccepted(src: string)
    requires Proper(src)
    ensures MemberSpans(src).Some? <==> Accepted(src)
    ensures MemberSpans(src).Some? ==> exists k :: Stands(src, k) && !Negated(k)
  {
    if MemberSpans(src).Some? {
      var k := AnchoredStands(src);
      AcceptedStands(src, k);
    }
    if Accepted(src) {
      var k, flags :| Spelt(src, k, flags) && !Negated(k) && FlagsRight(k, flags);
      SpeltStands(src, k, flags);
      StandsAccepted(src, k);
    }
  }

  lemma AcceptedStands(src: string, k: Class)
    requires Proper(src) && Stands(src, k) && MemberSpans(src).Some?
    ensures Accepted(src) && !Negated(k)
  {
    BodyStands(src, k);
    PatternStarts(k);
    StandsOrdered(src, k);
    FlagsFitIs(k, TokenFlags(src));
    SpeltStands(src, k, TokenFlags(src));
    StartsIsPrefix("@", src);
  }

  lemma StandsAccepted(src: string, k: Class)
    requires Proper(src) && Stands(src, k) && !Negated(k) && FlagsRight(k, TokenFlags(src)) && "@" <= src
    ensures MemberSpans(src).Some?
  {
    BodyStands(src, k);
    PatternStarts(k);
    StandsOrdered(src, k);
    FlagsFitIs(k, TokenFlags(src));
    WrittenAdmitted(k);
    StartsIsPrefix("@", src);
  }

  /** Two classes written alike match alike. */
  lemma WrittenOnce(a: Class, b: Class, c: Cp)
    requires ClassOk(a) && ClassOk(b) && Pattern(a) == Pattern(b)
    ensures Matches(a, c) <==> Matches(b, c)
  {
    PatternStarts(a);
    PatternStarts(b);
    SpansCover(a, c);
    SpansCover(b, c);
  }

  lemma TokenHolds(src: string, c: Cp)
    requires Proper(src) && MemberSpans(src).Some?
    ensures WellOrdered(MemberSpans(src).value)
    ensures Holds(MemberSpans(src).value, c) <==> TokenMatches(src, c)
  {
    TokenAccepted(src);
    var k :| Stands(src, k) && !Negated(k);
    BodyStands(src, k);
    StandsOrdered(src, k);
    SpansOrdered(k);
    SpansCover(k, c);
    CoversWithin(k, c);
    SpeltStands(src, k, TokenFlags(src));
    if other, flags :| Spelt(src, other, flags) && Matches(other, c) {
      SpeltStands(src, other, flags);
      WrittenOnce(k, other, c);
    }
  }

  lemma CoversWithin(k: Class, c: Cp)
    requires Ordered(k) && !Negated(k)
    ensures Matches(k, c) <==> Covers(k, c)
  {
  }

  lemma {:induction false} SetHolds(srcs: seq<string>, c: Cp)
    requires forall src :: src in srcs ==> Proper(src)
    ensures SetSpans(srcs).Some? <==> forall src :: src in srcs ==> Accepted(src)
    ensures SetSpans(srcs).Some? ==> WellOrdered(SetSpans(srcs).value)
    ensures SetSpans(srcs).Some? ==> (Holds(SetSpans(srcs).value, c) <==> AnyMatches(srcs, c))
    decreases |srcs|
  {
    if srcs != [] {
      var src, more := srcs[0], srcs[1..];
      assert src in srcs;
      assert forall t :: t in srcs <==> t == src || t in more;
      TokenAccepted(src);
      SetHolds(more, c);
      if SetSpans(srcs).Some? {
        TokenHolds(src, c);
        HoldsEither(MemberSpans(src).value, SetSpans(more).value, c);
      }
    }
  }

  lemma HoldsEither(a: seq<Span>, b: seq<Span>, c: Cp)
    ensures Holds(a + b, c) <==> Holds(a, c) || Holds(b, c)
  {
    assert forall s :: s in a + b <==> s in a || s in b;
  }

  /** Of proper tokens the check refuses exactly those that are no class or whose flags do not
      fit, and passes the others exactly when they match, between them, what the class its name
      gives does, negated or not. */
  lemma CheckSetIsExact(own: Class, srcs: seq<string>)
    requires ClassOk(own) && Ordered(own) && forall src :: src in srcs ==> Proper(src)
    ensures Readable(Pattern(own))
    ensures CheckSet(Pattern(own), srcs).Some? <==> forall src :: src in srcs ==> Accepted(src)
    ensures CheckSet(Pattern(own), srcs).Some? ==>
              (CheckSet(Pattern(own), srcs).value <==> forall c: Cp :: AnyMatches(srcs, c) <==> Matches(own, c))
  {
    SetHolds(srcs, FIRST);
    SpansOrdered(own);
    PatternStarts(own);
    if SetSpans(srcs).Some? {
      var spans, mine := SetSpans(srcs).value, ClassSpans(Pattern(own));
      Tiling.LaysExactly(Negated(own), mine, spans);
      forall c: Cp
        ensures Holds(spans, c) <==> AnyMatches(srcs, c)
        ensures Tiling.Matches(Negated(own), mine, c) <==> Matches(own, c)
      {
        SetHolds(srcs, c);
        SpansCover(own, c);
      }
    }
  }

  /** A body accepted is read as at least one member. */
  lemma ReadsSome(body: string)
    requires Admitted(body) && !Chained(body) && !Starts("[^", body)
    ensures ClassHexSpans(body) != []
  {
    if body != "[\\s\\S]" {
      AdmitsClasses(body);
      var prefix, k :| WrittenAfter(body, prefix, k);
      PatternStarts(k);
      assert prefix == "" ==> body == Pattern(k);
      TextBeforeIsLost(prefix, k);
    }
  }

  lemma SpanInOrder(m: Member)
    requires HexMember(m) && Value(m.lo, 16) <= Value(m.hi, 16)
    ensures Num(ClassSpan(m).lo) <= Num(ClassSpan(m).hi)
  {
    CpOfHexIsValue(m.lo);
    CpOfHexIsValue(m.hi);
  }

  lemma SpansInOrder(src: string)
    requires InOrder(src) && Readable(TokenBody(src))
    ensures WellOrdered(ClassSpans(TokenBody(src)))
  {
    var ms := ClassHexSpans(TokenBody(src));
    forall i | 0 <= i < |ms| ensures HexMember(ms[i]) && Num(ClassSpan(ms[i]).lo) <= Num(ClassSpan(ms[i]).hi) {
      assert ms[i] in ms;
      SpanInOrder(ms[i]);
    }
  }

  lemma LowEndHeld(spans: seq<Span>)
    requires WellOrdered(spans) && spans != []
    ensures Holds(spans, spans[0].lo)
  {
    assert spans[0] in spans && Within(spans[0], spans[0].lo);
  }

  lemma StandsAnchored(src: string, k: Class)
    requires Stands(src, k)
    ensures Anchored(src)
  {
    WrittenAnchored(k);
  }

  lemma MatchesAnchored(src: string, c: Cp)
    requires TokenMatches(src, c)
    ensures Anchored(src)
  {
    var k, flags :| Spelt(src, k, flags) && Matches(k, c);
    SpeltStands(src, k, flags);
    StandsAnchored(src, k);
  }

  lemma AcceptedBody(src: string, body: string)
    requires MemberSpans(src).Some? && body == TokenBody(src)
    ensures Admitted(body) && !Starts("[^", body)
  {
  }

  lemma AcceptedSpans(src: string, body: string)
    requires MemberSpans(src).Some? && body == TokenBody(src)
    ensures Readable(body) && MemberSpans(src) == Some(ClassSpans(body))
  {
    AcceptedBody(src, body);
    AdmittedReadable(body);
  }

  lemma ReadsWhatIsHeld(src: string, body: string)
    requires MemberSpans(src).Some? && body == TokenBody(src) && !Chained(body) && InOrder(src)
    ensures var spans := MemberSpans(src).value; spans != [] && Holds(spans, spans[0].lo)
  {
    AcceptedBody(src, body);
    AcceptedSpans(src, body);
    ReadsSome(body);
    SpansInOrder(src);
    LowEndHeld(ClassSpans(body));
  }

  /** A token accepted is read as what it matches exactly where nothing stands before its
      class. */
  lemma ReadRightWhere(src: string, spans: seq<Span>)
    requires MemberSpans(src) == Some(spans) && !Chained(TokenBody(src)) && InOrder(src)
    ensures (forall c: Cp :: Holds(spans, c) <==> TokenMatches(src, c)) <==> Anchored(src)
  {
    if Anchored(src) {
      forall c: Cp ensures Holds(spans, c) <==> TokenMatches(src, c) {
        TokenHolds(src, c);
      }
    } else {
      ReadsWhatIsHeld(src, TokenBody(src));
      if TokenMatches(src, spans[0].lo) {
        MatchesAnchored(src, spans[0].lo);
      }
    }
  }

  // ---- where it is not

  /** A token's source in which a class stands after other text, before the anchor or behind
      it; a negated class only behind it, since the render refuses one that opens its body. */
  predicate StandsLate(src: string, before: string, prefix: string, k: Class) {
    && k.OfParts? && ClassOk(k) && '^' !in before && '[' !in prefix
    && before + prefix != "" && (prefix != "" || !k.negated)
    && TokenText(src) == before + "^" + (prefix + Pattern(k))
    && Starts("@", src) && FlagsFit(TokenBody(src), TokenFlags(src))
  }

  /** It is read as a class of the members alone. */
  lemma LateReads(src: string, before: string, prefix: string, k: Class, own: Class)
    requires StandsLate(src, before, prefix, k)
    requires own.OfParts? && own.parts == k.parts
    ensures ClassOk(own) && Readable(Pattern(own)) && MemberSpans(src) == Some(ClassSpans(Pattern(own)))
  {
    AfterIs("^", before, prefix + Pattern(k));
    TextBeforeIsLost(prefix, k);
    PartsBack(own);
    ReadsBack(own);
    AdmittedReadable(TokenBody(src));
  }

  /** A set of such a token passes for the class of its members, though the token matches other
      text, or the opposite class. */
  lemma LatePasses(src: string, before: string, prefix: string, k: Class, own: Class)
    requires StandsLate(src, before, prefix, k)
    requires own.OfParts? && own.parts == k.parts && !own.negated && Ordered(own)
    ensures Readable(Pattern(own)) && CheckSet(Pattern(own), [src]) == Some(true)
    ensures !Anchored(src)
  {
    LateReads(src, before, prefix, k, own);
    LateIsLate(src, before, prefix, k);
    PatternStarts(own);
    SpansOrdered(own);
    OneToken(src, ClassSpans(Pattern(own)));
    Tiling.MergedSame(ClassSpans(Pattern(own)), ClassSpans(Pattern(own)));
  }

  lemma OneToken(src: string, spans: seq<Span>)
    requires MemberSpans(src) == Some(spans)
    ensures SetSpans([src]) == Some(spans)
  {
    assert [src][1..] == [];
    assert spans + [] == spans;
  }

  lemma LateIsLate(src: string, before: string, prefix: string, k: Class)
    requires StandsLate(src, before, prefix, k)
    ensures !Anchored(src)
  {
    var text := TokenText(src);
    assert text == before + "^" + (prefix + Pattern(k));
    if before != "" {
      assert text[0] in before;
    } else {
      assert text[1] in prefix;
    }
  }

  // ---- two such tokens

  /** A pattern without a brace that is not negated fits no flags. */
  lemma PlainFits(body: string)
    requires '{' !in body && body != "[\\s\\S]" && !Starts("[^", body)
    ensures FlagsFit(body, "")
  {
    var mark := "\\u{";
    assert mark[2] == '{';
    Absent(mark, body, '{');
  }

  const LETTER: Part := Lone(Escaped("0041", false))

  lemma LetterPattern(negated: bool)
    ensures ClassOk(OfParts(negated, [LETTER])) && Ordered(OfParts(negated, [LETTER]))
    ensures Pattern(OfParts(negated, [LETTER])) == if negated then "[^\\u0041]" else "[\\u0041]"
  {
    FourDigits('0', '0', '4', '1');
    assert PiecesOf(LETTER) == ["0041"] && [LETTER][1..] == [];
    assert Pieces([LETTER]) == ["0041"];
    assert Inner(["0041"]) == ESC + ("0041" + "");
    assert Inner(["0041"]) == "\\u0041";
  }

  lemma PlainSource(src: string, body: string)
    requires '/' !in body && src == "@/^" + body + "/"
    ensures TokenText(src) == "^" + body && TokenFlags(src) == "" && Starts("@", src)
  {
    var text := "^" + body;
    assert src == "@" + ['/'] + (text + ['/'] + "");
    SpeltParts(src, "@", text, "");
    StartsIsPrefix("@", src);
  }

  lemma PlainBehind(body: string, prefix: string, pat: string)
    requires prefix != "" && '[' !in prefix && body == prefix + pat && '{' !in body
    ensures FlagsFit(body, "")
  {
    assert body[0] == prefix[0] && prefix[0] in prefix;
    StartsIsPrefix("[^", body);
    PlainFits(body);
  }

  /** A class written without braces or slashes, behind other text, and no flags. */
  lemma PlainStands(src: string, prefix: string, pat: string, k: Class)
    requires k.OfParts? && ClassOk(k) && pat == Pattern(k) && prefix != "" && '[' !in prefix
    requires '{' !in prefix + pat && '/' !in prefix + pat && src == "@/^" + (prefix + pat) + "/"
    ensures StandsLate(src, "", prefix, k)
  {
    var body := prefix + pat;
    PlainSource(src, body);
    PlainBehind(body, prefix, pat);
    AfterPrefix("^", body);
    NoneInFront(body);
  }

  lemma NoneInFront(body: string)
    ensures "" + "^" + body == "^" + body
  {
  }

  lemma LetterSource(negated: bool, pat: string, src: string)
    requires pat == if negated then "[^\\u0041]" else "[\\u0041]"
    requires src == if negated then "@/^x[^\\u0041]/" else "@/^x[\\u0041]/"
    ensures '{' !in "x" + pat && '/' !in "x" + pat && src == "@/^" + ("x" + pat) + "/"
  {
  }

  /** `x` and then the letter A, and `x` and then any other character: each passes for the class
      of the letter A. */
  lemma LateInputs(negated: bool, src: string)
    requires src == if negated then "@/^x[^\\u0041]/" else "@/^x[\\u0041]/"
    ensures Readable("[\\u0041]") && CheckSet("[\\u0041]", [src]) == Some(true) && !Anchored(src)
  {
    var k, own := OfParts(negated, [LETTER]), OfParts(false, [LETTER]);
    var prefix := "x";
    LetterPattern(negated);
    LetterPattern(false);
    LetterSource(negated, Pattern(k), src);
    PlainStands(src, prefix, Pattern(k), k);
    LatePasses(src, "", prefix, k, own);
  }
}
