/** The last two of a code point's digits as the render finds them, by cutting: under a cut
    from the left some are missed. */
module PairEnds {
  import opened Strings
  import opened Numeric
  import opened CodePoints
  import opened Classes
  import opened Admissions

  /** A pair `abnf-ends` holds of: what `abnf-pair-end` takes. */
  predicate EndPair(pair: string, digits: string) {
    |pair| == 2 && AllDigits(pair, 16) && Ends(pair, digits)
  }

  /** The last three digits are one, and the digit before them another. */
  predicate Overlaps(digits: string) {
    |digits| == 4 && digits[1] == digits[2] == digits[3] && digits[0] != digits[1]
  }

  /** What a text ends in by cutting it does end in. */
  lemma EndsIsSuffix(p: string, s: string)
    requires p != "" && Ends(p, s)
    ensures |p| <= |s| && s[|s| - |p|..] == p
  {
    var pieces := SplitOn(p, s);
    var init := pieces[..|pieces| - 1];
    assert pieces == init + [""];
    JoinSplitOn(p, s);
    assert init == [] ==> pieces == [""];
    assert Strings.Join(p, [""]) == "";
    if init != [] {
      JoinSnoc(p, init, "");
      assert s == Strings.Join(p, init) + p;
    }
  }

  lemma CutWhole(p: string)
    requires p != ""
    ensures SplitOn(p, p) == ["", ""] && SplitOn(p, "") == [""]
  {
    CutStep(p, "", 0);
    assert p[0..] == p && FindOn(p, p) == 0;
    CutStep(p, p, 0);
    assert p[|p|..] == "";
  }

  lemma PairFound(p: string, s: string)
    requires |s| == 4 && p == s[2..]
    ensures Ends(p, s) <==> !Overlaps(s)
  {
    var i := FindOn(p, s);
    CutWhole(p);
    if i == 1 {
      ShortCut(p, s[3..]);
    }
  }

  lemma ShortCut(p: string, s: string)
    requires |s| < |p|
    ensures SplitOn(p, s) == [s]
  {
    var i := FindOn(p, s);
    CutStep(p, s, i);
  }

  /** Of four digits the last two are found exactly where they do not overlap themselves one
      place before, and nothing else is found: `00` is not found in `E000`. */
  lemma EndPairFound(digits: string)
    requires |digits| == 4 && AllDigits(digits, 16)
    ensures forall pair :: EndPair(pair, digits) ==> pair == digits[2..]
    ensures EndPair(digits[2..], digits) <==> !Overlaps(digits)
  {
    forall pair | EndPair(pair, digits) ensures pair == digits[2..] {
      EndsIsSuffix(pair, digits);
    }
    PairFound(digits[2..], digits);
    assert forall c :: c in digits[2..] ==> c in digits;
  }

  /** The four digits it is looked for in: those after the first pair. */
  lemma AfterFirstPair(x: string)
    requires |x| == 6
    ensures After(x[..2], x) == x[2..]
  {
    assert x == x[..2] + x[2..];
    AfterPrefix(x[..2], x[2..]);
  }

  /** `abnf-cp` by cutting: nothing where no pair is found at the end. */
  ghost function CpByCut(x: string): Option<Cp>
    requires |x| == 6 && AllDigits(x, 16)
  {
    var rest := After(x[..2], x);
    if pair :| EndPair(pair, rest) then Some(Cp(PairValue(x[..2]), PairValue(x[2..4]), PairValue(pair))) else None
  }

  /** Cut from the left, six digits are read as their code point exactly where their last two
      do not overlap themselves, and otherwise as none. */
  lemma CutReads(x: string)
    requires |x| == 6 && AllDigits(x, 16)
    ensures CpByCut(x) == if Overlaps(x[2..]) then None else Some(CpOfPairs(x))
  {
    AfterFirstPair(x);
    var rest := x[2..];
    assert forall c :: c in rest ==> c in x;
    EndPairFound(rest);
    assert rest[2..] == x[4..];
  }
}
