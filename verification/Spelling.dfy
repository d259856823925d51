/** A literal's text as the code points of a numeric value: its ASCII characters cut out
    first, then each run of other characters taken apart a block of 256 at a time. */
module Spelling {
  import opened Strings
  import opened Unicode
  import opened Numeric
  import opened DigitText
  import opened Lists

  const HEX: string := "0123456789ABCDEF"

  /** A pair of hexadecimal digits, `abnf-hex-pairs` at `n`. */
  function Pair(n: nat): string
    requires n < 256
  {
    [HEX[n / 16], HEX[n % 16]]
  }

  /** `abnf-point-hex`. */
  function PointHex(hh: string, l: string): string
    requires |hh| == 2
  {
    if hh == "00" then l else if hh[0] == '0' then hh[1..] + l else hh + l
  }

  /** A character of the Basic Multilingual Plane and its code point's digits. */
  datatype Spelled = Spelled(ch: char, code: string)

  function CodeOf(c: char): string {
    var n := c as int;
    if n < 0x1_0000 then PointHex(Pair(n / 256), Pair(n % 256)) else ""
  }

  /** `abnf-ascii`. */
  function Ascii(): (r: seq<Spelled>)
    ensures |r| == 128
    ensures forall i :: 0 <= i < 128 ==> r[i] == Spelled(i as char, Pair(i))
  {
    seq(128, i requires 0 <= i < 128 => Spelled(i as char, Pair(i)))
  }

  // ---- cutting characters out

  datatype Seg = Raw(text: string) | Coded(code: string)

  function Between(code: string, pieces: seq<string>): seq<Seg> {
    if pieces == [] then [] else [Coded(code), Raw(pieces[0])] + Between(code, pieces[1..])
  }

  /** `abnf-cut-seg`. */
  function CutSeg(ch: Spelled, seg: Seg): seq<Seg> {
    match seg
    case Raw(text) =>
      var pieces := Split(ch.ch, text);
      [Raw(pieces[0])] + Between(ch.code, pieces[1..])
    case Coded(_) => [seg]
  }

  function CutAll(ch: Spelled, segs: seq<Seg>): seq<Seg> {
    if segs == [] then [] else CutSeg(ch, segs[0]) + CutAll(ch, segs[1..])
  }

  /** `abnf-kept-seg`. */
  predicate KeptSeg(seg: Seg) { seg != Raw("") }

  /** `abnf-code-walk`. */
  function CodeWalk(chars: seq<Spelled>, segs: seq<Seg>): seq<Seg>
    decreases |chars|
  {
    if chars == [] then segs
    else CodeWalk(chars[..|chars| - 1], Filter(CutAll(chars[|chars| - 1], segs), KeptSeg))
  }

  // ---- the characters past ASCII

  /** The last block no character of a run is below, of those to `i`. */
  function TopBlock(run: string, i: nat): (b: nat)
    ensures b <= i && (b > 0 ==> forall c :: c in run ==> c as int >= 256 * b)
    ensures b < i ==> exists c :: c in run && (c as int) < 256 * (b + 1)
  {
    if i == 0 || forall c :: c in run ==> c as int >= 256 * i then i else TopBlock(run, i - 1)
  }

  predicate BmpChar(c: char) { c as int < 0x1_0000 }

  function BlockChars(b: nat): (r: seq<Spelled>)
    requires b < 0xD8 || 0xE0 <= b < 0x100
    ensures |r| == 256
    ensures forall l :: 0 <= l < 256 ==> r[l] == Spelled((b * 256 + l) as char, PointHex(Pair(b), Pair(l)))
  {
    seq(256, l requires 0 <= l < 256 => Spelled((b * 256 + l) as char, PointHex(Pair(b), Pair(l))))
  }

  function Among(chars: seq<Spelled>, run: string): seq<Spelled> {
    Filter(chars, (ch: Spelled) => ch.ch in run)
  }

  /** `abnf-strip-chars`. */
  function StripChars(chars: seq<Spelled>, s: string): string
    decreases |chars|
  {
    if chars == [] then s
    else StripChars(chars[..|chars| - 1], Without(chars[|chars| - 1].ch, s))
  }

  function CharsOf(s: string): set<char> { set c | c in s }

  predicate Wide(run: string) { forall c :: c in run ==> BmpChar(c) && c as int >= 0x80 }

  /** A string without one of its characters. */
  function Without(c: char, s: string): string { Strings.Join("", Split(c, s)) }

  lemma JoinPlain(first: string, pieces: seq<string>)
    requires pieces != []
    ensures Strings.Join("", [first] + pieces) == first + Strings.Join("", pieces)
  {
    JoinStep("", first, pieces);
    assert first + "" == first;
  }

  lemma WithoutStep(c: char, s: string)
    ensures Find(c, s) == |s| ==> Without(c, s) == s
    ensures Find(c, s) < |s| ==> Without(c, s) == s[..Find(c, s)] + Without(c, s[Find(c, s) + 1..])
  {
    SplitStep(c, s);
    var i := Find(c, s);
    if i < |s| {
      JoinPlain(s[..i], Split(c, s[i + 1..]));
    }
  }

  lemma AtPlace(s: string, i: nat, x: char)
    requires i < |s|
    ensures x in s <==> x in s[..i] || x == s[i] || x in s[i + 1..]
  {
    assert s == s[..i] + [s[i]] + s[i + 1..];
  }

  lemma {:induction false} WithoutIs(c: char, s: string, x: char)
    ensures x in Without(c, s) <==> x in s && x != c
    decreases |s|
  {
    WithoutStep(c, s);
    var i := Find(c, s);
    if i < |s| {
      WithoutIs(c, s[i + 1..], x);
      AtPlace(s, i, x);
    }
  }

  lemma {:induction false} StripsExactly(chars: seq<Spelled>, s: string, x: char)
    ensures x in StripChars(chars, s) <==> x in s && forall k :: 0 <= k < |chars| ==> chars[k].ch != x
    decreases |chars|
  {
    if chars != [] {
      var init, last := chars[..|chars| - 1], chars[|chars| - 1];
      StripsExactly(init, Without(last.ch, s), x);
      WithoutIs(last.ch, s, x);
      assert (forall k :: 0 <= k < |chars| ==> chars[k].ch != x)
        <==> last.ch != x && forall k :: 0 <= k < |init| ==> init[k].ch != x;
    }
  }

  /** The block of a run's least character is one with characters, and the run holds some. */
  lemma BlockIsHeld(run: string)
    requires run != "" && Wide(run)
    ensures var b := TopBlock(run, 0xFF);
            (b < 0xD8 || 0xE0 <= b < 0x100) && exists c :: c in run && c as int / 256 == b
  {
    var b := TopBlock(run, 0xFF);
    if b < 0xFF {
      var c :| c in run && (c as int) < 256 * (b + 1);
      assert c as int / 256 == b;
    } else {
      assert run[0] in run && run[0] as int / 256 == 0xFF;
    }
  }

  /** A block's characters are those whose numbers are in it, each with its code. */
  lemma CodeAt(n: nat, hh: string, l: string)
    requires n < 0xD800 || 0xE000 <= n < 0x1_0000
    requires hh == Pair(n / 256) && l == Pair(n % 256)
    ensures CodeOf(n as char) == PointHex(hh, l)
  {
  }

  lemma BlockHolds(b: nat, c: char)
    requires b < 0xD8 || 0xE0 <= b < 0x100
    ensures Spelled(c, CodeOf(c)) in BlockChars(b) <==> BmpChar(c) && c as int / 256 == b
  {
    if BmpChar(c) && c as int / 256 == b {
      AtItsPlace(b, c);
    }
    if Spelled(c, CodeOf(c)) in BlockChars(b) {
      InBlock(b, Spelled(c, CodeOf(c)));
    }
  }

  lemma InBlock(b: nat, ch: Spelled)
    requires (b < 0xD8 || 0xE0 <= b < 0x100) && ch in BlockChars(b)
    ensures ch.code == CodeOf(ch.ch) && ch.ch as int / 256 == b
  {
    var l: nat :| l < 256 && BlockChars(b)[l] == ch;
    var n := ch.ch as int;
    BlockDivides(b, l);
    assert n / 256 == b && n % 256 == l;
    AtItsPlace(b, ch.ch);
  }

  lemma AtItsPlace(b: nat, c: char)
    requires (b < 0xD8 || 0xE0 <= b < 0x100) && c as int / 256 == b
    ensures BmpChar(c) && BlockChars(b)[c as int % 256] == Spelled(c, CodeOf(c))
  {
    var l := c as int % 256;
    assert c as int == b * 256 + l;
    CodeAt(b * 256 + l, Pair(b), Pair(l));
  }

  lemma BlockDivides(b: nat, l: nat)
    requires l < 256
    ensures (b * 256 + l) / 256 == b && (b * 256 + l) % 256 == l
  {
  }

  predicate CodesRight(chars: seq<Spelled>) {
    forall k :: 0 <= k < |chars| ==> chars[k].code == CodeOf(chars[k].ch)
  }

  function ChSet(chars: seq<Spelled>): set<char> { set ch | ch in chars :: ch.ch }

  /** What a block's characters are among a run's: the run's characters in the block. */
  lemma AmongBlock(b: nat, run: string)
    requires (b < 0xD8 || 0xE0 <= b < 0x100) && Wide(run)
    ensures CodesRight(Among(BlockChars(b), run))
    ensures ChSet(Among(BlockChars(b), run)) == set c | c in run && c as int / 256 == b
  {
    var found := Among(BlockChars(b), run);
    forall ch | ch in found ensures ch.code == CodeOf(ch.ch) && ch.ch in run && ch.ch as int / 256 == b {
      InBlock(b, ch);
    }
    forall c | c in run && c as int / 256 == b ensures c in ChSet(found) {
      BlockHolds(b, c);
      assert Spelled(c, CodeOf(c)) in found;
    }
  }

  lemma StripSet(chars: seq<Spelled>, s: string)
    ensures CharsOf(StripChars(chars, s)) == CharsOf(s) - ChSet(chars)
  {
    forall x ensures x in StripChars(chars, s) <==> x in s && x !in ChSet(chars) {
      StripsExactly(chars, s, x);
      if x in ChSet(chars) {
        var ch :| ch in chars && ch.ch == x;
        var k :| 0 <= k < |chars| && chars[k] == ch;
      }
    }
  }

  /** One round takes a block's characters off the run, and at least one of them. */
  lemma RoundTakes(run: string)
    requires run != "" && Wide(run)
    ensures var b := TopBlock(run, 0xFF);
            && (b < 0xD8 || 0xE0 <= b < 0x100)
            && var found := Among(BlockChars(b), run);
               && CodesRight(found) && Wide(StripChars(found, run))
               && CharsOf(StripChars(found, run)) == CharsOf(run) - ChSet(found)
               && CharsOf(StripChars(found, run)) < CharsOf(run)
  {
    BlockIsHeld(run);
    var b := TopBlock(run, 0xFF);
    var found := Among(BlockChars(b), run);
    AmongBlock(b, run);
    StripSet(found, run);
    var c :| c in run && c as int / 256 == b;
    assert c in ChSet(found) && c in CharsOf(run);
    forall x | x in StripChars(found, run) ensures x in run {
      assert x in CharsOf(StripChars(found, run));
    }
  }

  /** `abnf-wide-chars`. */
  function WideChars(run: string, acc: seq<Spelled>): seq<Spelled>
    requires Wide(run)
    decreases CharsOf(run)
  {
    if run == "" then acc
    else
      RoundTakes(run);
      var found := Among(BlockChars(TopBlock(run, 0xFF)), run);
      WideChars(StripChars(found, run), acc + found)
  }

  /** Every character of the run is found, with its code. */
  lemma {:induction false} WideCharsFind(run: string, acc: seq<Spelled>)
    requires Wide(run) && CodesRight(acc)
    ensures CodesRight(WideChars(run, acc))
    ensures CharsOf(run) + ChSet(acc) <= ChSet(WideChars(run, acc))
    decreases CharsOf(run)
  {
    if run != "" {
      RoundTakes(run);
      var found := Among(BlockChars(TopBlock(run, 0xFF)), run);
      WideCharsFind(StripChars(found, run), acc + found);
      assert ChSet(acc + found) == ChSet(acc) + ChSet(found);
    }
  }

  // ---- what the pieces spell

  /** Each character's code point, in order: what the pieces are to spell. */
  function SpellText(text: string): (r: seq<string>)
    ensures |r| == |text|
    ensures forall i :: 0 <= i < |text| ==> r[i] == CodeOf(text[i])
  {
    seq(|text|, i requires 0 <= i < |text| => CodeOf(text[i]))
  }

  function SpellSeg(seg: Seg): seq<string> {
    match seg
    case Raw(text) => SpellText(text)
    case Coded(code) => [code]
  }

  function SpellSegs(segs: seq<Seg>): seq<string> {
    if segs == [] then [] else SpellSeg(segs[0]) + SpellSegs(segs[1..])
  }

  lemma {:induction false} SpellConcat(a: seq<Seg>, b: seq<Seg>)
    ensures SpellSegs(a + b) == SpellSegs(a) + SpellSegs(b)
    decreases |a|
  {
    if a == [] {
      assert a + b == b;
    } else {
      assert (a + b)[0] == a[0] && (a + b)[1..] == a[1..] + b;
      SpellConcat(a[1..], b);
    }
  }

  function CutPieces(code: string, pieces: seq<string>): seq<Seg>
    requires pieces != []
  {
    [Raw(pieces[0])] + Between(code, pieces[1..])
  }

  lemma CutPiecesStep(code: string, first: string, pieces: seq<string>)
    requires pieces != []
    ensures CutPieces(code, [first] + pieces) == [Raw(first), Coded(code)] + CutPieces(code, pieces)
  {
    assert ([first] + pieces)[1..] == pieces;
  }

  lemma SpellPair(first: string, code: string, rest: seq<Seg>)
    ensures SpellSegs([Raw(first), Coded(code)] + rest) == SpellText(first) + [code] + SpellSegs(rest)
  {
    var all := [Raw(first), Coded(code)] + rest;
    assert all[1..] == [Coded(code)] + rest;
    assert all[1..][1..] == rest;
  }

  /** A text's pieces before and after a character, and the character's code between. */
  lemma CutAround(text: string, i: nat, segs: seq<Seg>)
    requires i < |text| && SpellSegs(segs) == SpellText(text[i + 1..])
    ensures SpellSegs([Raw(text[..i]), Coded(CodeOf(text[i]))] + segs) == SpellText(text)
  {
    SpellPair(text[..i], CodeOf(text[i]), segs);
    SpellTextAt(text, i);
  }

  lemma CutNone(code: string, text: string)
    ensures SpellSegs(CutPieces(code, [text])) == SpellText(text)
  {
    SpellOne(Raw(text));
    assert CutPieces(code, [text]) == [Raw(text)];
  }

  /** Cutting a character out, with its code put back, spells the same. */
  lemma {:induction false} CutSpells(c: char, text: string)
    ensures SpellSegs(CutPieces(CodeOf(c), Split(c, text))) == SpellText(text)
    decreases |text|
  {
    var i := Find(c, text);
    SplitStep(c, text);
    if i == |text| {
      CutNone(CodeOf(c), text);
    } else {
      var rest := text[i + 1..];
      CutSpells(c, rest);
      CutPiecesStep(CodeOf(c), text[..i], Split(c, rest));
      CutAround(text, i, CutPieces(CodeOf(c), Split(c, rest)));
    }
  }

  lemma SpellTextAt(text: string, i: nat)
    requires i < |text|
    ensures SpellText(text) == SpellText(text[..i]) + [CodeOf(text[i])] + SpellText(text[i + 1..])
  {
  }

  lemma SpellOne(seg: Seg)
    ensures SpellSegs([seg]) == SpellSeg(seg)
  {
    assert [seg][1..] == [];
  }

  lemma {:induction false} CutAllSpells(ch: Spelled, segs: seq<Seg>)
    requires ch.code == CodeOf(ch.ch)
    ensures SpellSegs(CutAll(ch, segs)) == SpellSegs(segs)
  {
    if segs != [] {
      CutAllSpells(ch, segs[1..]);
      SpellConcat(CutSeg(ch, segs[0]), CutAll(ch, segs[1..]));
      match segs[0]
      case Raw(text) => CutSpells(ch.ch, text);
      case Coded(code) => assert [segs[0]][1..] == [];
    }
  }

  lemma {:induction false} KeptSpells(segs: seq<Seg>)
    ensures SpellSegs(Filter(segs, KeptSeg)) == SpellSegs(segs)
  {
    if segs != [] {
      KeptSpells(segs[1..]);
    }
  }

  /** The walk keeps what is spelled. */
  lemma {:induction false} WalkSpells(chars: seq<Spelled>, segs: seq<Seg>)
    requires CodesRight(chars)
    ensures SpellSegs(CodeWalk(chars, segs)) == SpellSegs(segs)
    decreases |chars|
  {
    if chars != [] {
      var last := chars[|chars| - 1];
      CutAllSpells(last, segs);
      KeptSpells(CutAll(last, segs));
      WalkSpells(chars[..|chars| - 1], Filter(CutAll(last, segs), KeptSeg));
    }
  }

  // ---- what the pieces still hold uncut

  predicate RawsIn(segs: seq<Seg>, allowed: set<char>) {
    forall seg :: seg in segs && seg.Raw? ==> CharsOf(seg.text) <= allowed
  }

  lemma {:induction false} BetweenHolds(code: string, pieces: seq<string>, seg: Seg)
    requires seg in Between(code, pieces) && seg.Raw?
    ensures seg.text in pieces
  {
    if seg != Raw(pieces[0]) {
      BetweenHolds(code, pieces[1..], seg);
    }
  }

  lemma {:induction false} PieceWithin(c: char, text: string, p: string)
    requires p in Split(c, text)
    ensures CharsOf(p) <= CharsOf(text) - {c}
    decreases |text|
  {
    var i := Find(c, text);
    if i < |text| && p != text[..i] {
      PieceWithin(c, text[i + 1..], p);
    }
  }

  lemma CutSegWithin(ch: Spelled, seg: Seg, one: Seg, allowed: set<char>)
    requires one in CutSeg(ch, seg) && one.Raw? && (seg.Raw? ==> CharsOf(seg.text) <= allowed)
    ensures CharsOf(one.text) <= allowed - {ch.ch}
  {
    var pieces := Split(ch.ch, seg.text);
    if one != Raw(pieces[0]) {
      BetweenHolds(ch.code, pieces[1..], one);
    }
    PieceWithin(ch.ch, seg.text, one.text);
  }

  lemma {:induction false} CutAllWithin(ch: Spelled, segs: seq<Seg>, allowed: set<char>)
    requires RawsIn(segs, allowed)
    ensures RawsIn(CutAll(ch, segs), allowed - {ch.ch})
  {
    if segs != [] {
      CutAllWithin(ch, segs[1..], allowed);
      forall one | one in CutSeg(ch, segs[0]) && one.Raw? ensures CharsOf(one.text) <= allowed - {ch.ch} {
        CutSegWithin(ch, segs[0], one, allowed);
      }
    }
  }

  /** After the walk no run holds a character cut out, and none is empty. */
  lemma {:induction false} WalkLeaves(chars: seq<Spelled>, segs: seq<Seg>, allowed: set<char>)
    requires RawsIn(segs, allowed)
    ensures RawsIn(CodeWalk(chars, segs), allowed - ChSet(chars))
    ensures Raw("") in CodeWalk(chars, segs) ==> chars == [] && Raw("") in segs
    decreases |chars|
  {
    if chars != [] {
      var init, last := chars[..|chars| - 1], chars[|chars| - 1];
      CutAllWithin(last, segs, allowed);
      WalkLeaves(init, Filter(CutAll(last, segs), KeptSeg), allowed - {last.ch});
      assert chars == init + [last];
      assert ChSet(chars) == ChSet(init) + {last.ch};
    }
  }

  // ---- the codes of a text

  function CodesOf(segs: seq<Seg>): (r: seq<string>)
    ensures |r| == |segs|
  {
    seq(|segs|, i requires 0 <= i < |segs| => match segs[i] case Raw(_) => "" case Coded(code) => code)
  }

  /** `abnf-wide-codes`: nothing where a run holds a character past U+FFFF. */
  function WideCodes(seg: Seg): Option<seq<string>> {
    match seg
    case Raw(raw) =>
      if Wide(raw) then Some(CodesOf(CodeWalk(WideChars(raw, []), [Raw(raw)]))) else None
    case Coded(code) => Some([code])
  }

  function AllWideCodes(segs: seq<Seg>): Option<seq<string>> {
    if segs == [] then Some([])
    else
      match (WideCodes(segs[0]), AllWideCodes(segs[1..]))
      case (Some(a), Some(b)) => Some(a + b)
      case _ => None
  }

  /** `abnf-codes`. */
  function Codes(text: string): Option<seq<string>> {
    AllWideCodes(CodeWalk(Among(Ascii(), text), [Raw(text)]))
  }

  lemma {:induction false} CodedSpells(segs: seq<Seg>)
    requires forall seg :: seg in segs ==> seg.Coded?
    ensures CodesOf(segs) == SpellSegs(segs)
  {
    if segs != [] {
      CodedSpells(segs[1..]);
      assert segs == [segs[0]] + segs[1..];
      assert segs[0] in segs;
    }
  }

  lemma RunSpells(raw: string)
    requires raw != "" && Wide(raw)
    ensures WideCodes(Raw(raw)) == Some(SpellText(raw))
  {
    var found := WideChars(raw, []);
    WideCharsFind(raw, []);
    WalkCutsAll(found, raw);
    CodedSpells(CodeWalk(found, [Raw(raw)]));
    WalkSpells(found, [Raw(raw)]);
    SpellOne(Raw(raw));
  }

  /** A walk over every character a run holds leaves no run. */
  lemma WalkCutsAll(found: seq<Spelled>, raw: string)
    requires raw != "" && CharsOf(raw) <= ChSet(found)
    ensures forall seg :: seg in CodeWalk(found, [Raw(raw)]) ==> seg.Coded?
  {
    var segs := CodeWalk(found, [Raw(raw)]);
    WalkLeaves(found, [Raw(raw)], CharsOf(raw));
    forall seg | seg in segs ensures seg.Coded? {
      if seg.Raw? {
        NoCharsIsEmpty(seg.text, CharsOf(raw) - ChSet(found));
      }
    }
  }

  lemma NoCharsIsEmpty(text: string, allowed: set<char>)
    requires CharsOf(text) <= allowed && allowed == {}
    ensures text == ""
  {
    if text != "" {
      HasChar(text);
    }
  }

  lemma HasChar(text: string)
    requires text != ""
    ensures CharsOf(text) != {}
  {
    assert text[0] in CharsOf(text);
  }

  lemma {:induction false} SegsSpell(segs: seq<Seg>)
    requires forall seg :: seg in segs && seg.Raw? ==> seg.text != "" && Wide(seg.text)
    ensures AllWideCodes(segs) == Some(SpellSegs(segs))
  {
    if segs != [] {
      SegsSpell(segs[1..]);
      assert segs[0] in segs;
      if segs[0].Raw? {
        RunSpells(segs[0].text);
      }
    }
  }

  lemma AsciiCode(n: nat)
    requires n < 128
    ensures CodeOf(n as char) == Pair(n)
  {
    assert n / 256 == 0 && n % 256 == n;
    assert Pair(0) == "00";
  }

  lemma AsciiRight(ch: Spelled)
    requires ch in Ascii()
    ensures ch.code == CodeOf(ch.ch) && (ch.ch as int) < 0x80
  {
    var i :| 0 <= i < 128 && Ascii()[i] == ch;
    AsciiCode(i);
  }

  lemma AsciiCodes(text: string)
    ensures CodesRight(Among(Ascii(), text))
    ensures ChSet(Among(Ascii(), text)) == set c | c in text && (c as int) < 0x80
  {
    var present := Among(Ascii(), text);
    forall ch | ch in present ensures ch.code == CodeOf(ch.ch) && (ch.ch as int) < 0x80 {
      AsciiRight(ch);
    }
    forall c | c in text && (c as int) < 0x80 ensures c in ChSet(present) {
      assert Ascii()[c as int].ch == c;
      assert Ascii()[c as int] in present;
    }
  }

  /** A text of the Basic Multilingual Plane is taken apart into its characters' code points,
      in order. */
  lemma CodesSpell(text: string)
    requires text != "" && forall c :: c in text ==> BmpChar(c)
    ensures Codes(text) == Some(SpellText(text))
    ensures forall i :: 0 <= i < |text| ==> CodeIs(SpellText(text)[i], text[i] as int)
  {
    forall i | 0 <= i < |text| ensures CodeIs(SpellText(text)[i], text[i] as int) {
      CodeShape(text[i]);
    }
    var present := Among(Ascii(), text);
    var segs := CodeWalk(present, [Raw(text)]);
    AsciiCodes(text);
    AsciiWalkLeaves(text);
    WalkSpells(present, [Raw(text)]);
    SpellOne(Raw(text));
    SegsSpell(segs);
  }

  /** Once the ASCII characters are cut out, the runs hold only others. */
  lemma AsciiWalkLeaves(text: string)
    requires text != "" && forall c :: c in text ==> BmpChar(c)
    ensures forall seg :: seg in CodeWalk(Among(Ascii(), text), [Raw(text)]) && seg.Raw? ==>
              seg.text != "" && Wide(seg.text)
  {
    var present := Among(Ascii(), text);
    AsciiCodes(text);
    WalkLeaves(present, [Raw(text)], CharsOf(text));
    forall seg | seg in CodeWalk(present, [Raw(text)]) && seg.Raw? ensures seg.text != "" && Wide(seg.text) {
      AllowedIsWide(seg.text, text, CharsOf(text) - ChSet(present));
    }
  }

  lemma AllowedIsWide(run: string, text: string, allowed: set<char>)
    requires forall c :: c in text ==> BmpChar(c)
    requires CharsOf(run) <= allowed
    requires forall c :: c in allowed ==> c in text && c as int >= 0x80
    ensures Wide(run)
  {
    forall c | c in run ensures BmpChar(c) && c as int >= 0x80 {
      assert c in CharsOf(run);
    }
  }

  // ---- and read back

  lemma PairIs(n: nat)
    requires n < 256
    ensures AllDigits(Pair(n), 16) && Value(Pair(n), 16) == n
  {
    HexDigitIs(n / 16);
    HexDigitIs(n % 16);
    ValueSnoc("", HEX[n / 16], 16);
    ValueSnoc([HEX[n / 16]], HEX[n % 16], 16);
    assert "" + [HEX[n / 16]] == [HEX[n / 16]];
    assert [HEX[n / 16]] + [HEX[n % 16]] == Pair(n);
  }

  lemma HexDigitIs(d: nat)
    requires d < 16
    ensures DigitValue(HEX[d]) == d && (HEX[d] == '0' <==> d == 0)
  {
  }

  /** A pair after some digits. */
  lemma PairAfter(digits: string, n: nat)
    requires n < 256 && AllDigits(digits, 16)
    ensures AllDigits(digits + Pair(n), 16) && Value(digits + Pair(n), 16) == Value(digits, 16) * 256 + n
  {
    HexDigitIs(n / 16);
    HexDigitIs(n % 16);
    ValueSnoc(digits, HEX[n / 16], 16);
    ValueSnoc(digits + [HEX[n / 16]], HEX[n % 16], 16);
    assert digits + [HEX[n / 16]] + [HEX[n % 16]] == digits + Pair(n);
  }

  /** A character's code reads as the character. */
  /** A code point's digits: in capitals, at least two, and no zero in front of more. */
  predicate CodeIs(code: string, n: nat) {
    && AllDigits(code, 16) && Value(code, 16) == n && (forall d :: d in code ==> '0' <= d <= '9' || 'A' <= d <= 'F')
    && |code| == if n < 0x100 then 2 else if n < 0x1000 then 3 else 4
  }

  lemma HexIsCapital(d: nat)
    requires d < 16
    ensures '0' <= HEX[d] <= '9' || 'A' <= HEX[d] <= 'F'
    ensures HEX[d] == '0' <==> d == 0
  {
  }

  lemma CodeShape(c: char)
    requires BmpChar(c)
    ensures CodeIs(CodeOf(c), c as int)
  {
    CodeReads(c);
    var h, l := c as int / 256, c as int % 256;
    HexIsCapital(h / 16);
    HexIsCapital(h % 16);
    HexIsCapital(l / 16);
    HexIsCapital(l % 16);
    PairZero(h);
  }

  lemma PairZero(h: nat)
    requires h < 256
    ensures Pair(h) == "00" <==> h == 0
    ensures Pair(h)[0] == '0' <==> h < 16
  {
    HexIsCapital(h / 16);
    HexIsCapital(h % 16);
    assert h == h / 16 * 16 + h % 16;
  }

  lemma CodeReads(c: char)
    requires BmpChar(c)
    ensures CodeOf(c) != "" && AllDigits(CodeOf(c), 16) && Value(CodeOf(c), 16) == c as int
  {
    var h, l := c as int / 256, c as int % 256;
    HexDigitIs(h / 16);
    HexDigitIs(h % 16);
    PairIs(h);
    PairIs(l);
    if Pair(h) != "00" {
      PairAfter(Pair(h), l);
      LowAlone(h);
      PairAfter(Pair(h)[1..], l);
    }
  }

  lemma LowAlone(h: nat)
    requires h < 256
    ensures AllDigits(Pair(h)[1..], 16) && (h < 16 ==> Value(Pair(h)[1..], 16) == h)
  {
    HexDigitIs(h % 16);
    ValueSnoc("", HEX[h % 16], 16);
    assert "" + [HEX[h % 16]] == Pair(h)[1..];
  }

  /** A text written as a numeric value is read back as itself. */
  lemma TextRoundTrip(text: string)
    requires text != "" && forall c :: c in text ==> BmpChar(c)
    ensures Codes(text).Some?
    ensures Decode("%x" + Strings.Join(".", Codes(text).value)) == Some(Term(OfString(text), false))
  {
    CodesSpell(text);
    var points := seq(|text|, i requires 0 <= i < |text| => text[i] as int);
    forall i | 0 <= i < |text|
      ensures AllDigits(SpellText(text)[i], 16) && SpellText(text)[i] != ""
      ensures Value(SpellText(text)[i], 16) == points[i]
    {
      CodeReads(text[i]);
    }
    HexDotted(SpellText(text), points);
  }

  // ---- texts that are refused

  predicate NoneBlank(segs: seq<Seg>) { Coded("") !in segs }

  lemma {:induction false} BetweenCoded(code: string, pieces: seq<string>)
    requires code != ""
    ensures NoneBlank(Between(code, pieces))
  {
    if pieces != [] {
      BetweenCoded(code, pieces[1..]);
    }
  }

  lemma {:induction false} CutCoded(ch: Spelled, segs: seq<Seg>)
    requires ch.code != "" && NoneBlank(segs)
    ensures NoneBlank(CutAll(ch, segs))
  {
    if segs != [] {
      CutCoded(ch, segs[1..]);
      match segs[0]
      case Raw(text) => BetweenCoded(ch.code, Split(ch.ch, text)[1..]);
      case Coded(_) => assert segs[0] in segs;
    }
  }

  lemma {:induction false} WalkCoded(chars: seq<Spelled>, segs: seq<Seg>)
    requires (forall ch :: ch in chars ==> ch.code != "") && NoneBlank(segs)
    ensures NoneBlank(CodeWalk(chars, segs))
    decreases |chars|
  {
    if chars != [] {
      var last := chars[|chars| - 1];
      CutCoded(last, segs);
      WalkCoded(chars[..|chars| - 1], Filter(CutAll(last, segs), KeptSeg));
    }
  }

  lemma {:induction false} BlankIsRaw(segs: seq<Seg>)
    requires NoneBlank(segs) && "" in SpellSegs(segs)
    ensures AllWideCodes(segs).None?
    decreases |segs|
  {
    if "" in SpellSeg(segs[0]) {
      assert segs[0] in segs;
      var text := segs[0].text;
      var i :| 0 <= i < |text| && CodeOf(text[i]) == "";
      CodeStands(text[i]);
      assert text[i] in text;
    } else {
      assert forall seg :: seg in segs[1..] ==> seg in segs;
      BlankIsRaw(segs[1..]);
    }
  }

  lemma CodeStands(c: char)
    ensures CodeOf(c) == "" <==> !BmpChar(c)
  {
    if BmpChar(c) {
      CodeReads(c);
    }
  }

  /** A text is taken apart exactly where it holds no character past U+FFFF. */
  lemma CodesWhere(text: string)
    requires text != ""
    ensures Codes(text).Some? <==> forall c :: c in text ==> BmpChar(c)
  {
    if forall c :: c in text ==> BmpChar(c) {
      CodesSpell(text);
    } else {
      var present := Among(Ascii(), text);
      var i :| 0 <= i < |text| && !BmpChar(text[i]);
      CodeStands(text[i]);
      assert SpellText(text)[i] == "";
      AsciiCodes(text);
      forall ch | ch in present ensures ch.code != "" {
        AsciiRight(ch);
        CodeStands(ch.ch);
      }
      WalkCoded(present, [Raw(text)]);
      WalkSpells(present, [Raw(text)]);
      SpellOne(Raw(text));
      BlankIsRaw(CodeWalk(present, [Raw(text)]));
    }
  }
}
