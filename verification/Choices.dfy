/** What the table chooses, rule by rule: each lemma reads one list of alternates off as
    the tokens it looks at. */
module Choices {
  import opened Tokens
  import opened MetaGrammar

  /** A choice that reads nothing and does nothing but go on. */
  predicate Looks(c: Choice, goto: Goto) {
    c.Chosen? && c.alt.goto == goto && c.alt.action == Nothing && |c.alt.s| <= c.alt.back
  }

  /** A choice that acts, and reads `n` tokens. */
  predicate Does(c: Choice, n: nat, goto: Goto, action: Action) {
    c.Chosen? && c.alt.goto == goto && c.alt.action == action && |c.alt.s| == c.alt.back + n
  }

  /** The tokens that start a production: a name and its operator. */
  predicate AtHeader(rest: seq<Token>) {
    || (Is(rest, 0, TX) && (Is(rest, 1, DEF) || Is(rest, 1, DEFA)))
    || (Is(rest, 0, PV) && Is(rest, 1, DEF))
  }

  /** Where a sequence ends. */
  predicate SeqStops(rest: seq<Token>) {
    |rest| == 0 || Is(rest, 0, ALT) || Is(rest, 0, RP) || Is(rest, 0, CB) || AtHeader(rest)
  }

  /** Where an element starts. */
  predicate Starts(rest: seq<Token>) {
    AtomAt(rest, 0) || Is(rest, 0, STAR) || Is(rest, 0, NUM)
  }

  lemma ChooseConcat(a: Alternates, b: Alternates, rest: seq<Token>, kind: GroupKind)
    ensures Choose(Concat(a, b), rest, kind) ==
            var c := Choose(a, rest, kind); if c.Chosen? then c else Choose(b, rest, kind)
    decreases a
  {
  }

  function Else(c: Choice, d: Choice): Choice {
    if c.Chosen? then c else d
  }

  lemma ChooseFour(a: Alternates, b: Alternates, c: Alternates, d: Alternates, rest: seq<Token>, kind: GroupKind)
    ensures Choose(Concat(a, Concat(b, Concat(c, d))), rest, kind) ==
            Else(Choose(a, rest, kind), Else(Choose(b, rest, kind), Else(Choose(c, rest, kind), Choose(d, rest, kind))))
  {
    ChooseConcat(c, d, rest, kind);
    ChooseConcat(b, Concat(c, d), rest, kind);
    ChooseConcat(a, Concat(b, Concat(c, d)), rest, kind);
  }

  lemma OpenNames(rest: seq<Token>, kind: GroupKind)
    ensures var c := Choose(SeqOpenNames(), rest, kind);
            if AtHeader(rest) then Looks(c, Stay)
            else if Is(rest, 0, TX) && (Is(rest, 1, NUM) || AtomAt(rest, 1)) then Looks(c, Push(ELEM))
            else c == NoMatch
  {
    if !Is(rest, 0, TX) {
      assert !Is(rest, 0, PV) ==> Choose(SeqOpenNames(), rest, kind) == NoMatch;
    }
  }

  lemma CloseNames(rest: seq<Token>, kind: GroupKind)
    ensures var c := Choose(SeqCloseNames(), rest, kind);
            if AtHeader(rest) then Looks(c, Stay)
            else if Is(rest, 0, TX) && (Is(rest, 1, NUM) || AtomAt(rest, 1)) then Looks(c, Push(ELEM))
            else c == NoMatch
  {
    if !Is(rest, 0, TX) {
      assert !Is(rest, 0, PV) ==> Choose(SeqCloseNames(), rest, kind) == NoMatch;
    }
  }

  lemma Ends(rest: seq<Token>, kind: GroupKind)
    ensures var c := Choose(SeqEnds(), rest, kind);
            if |rest| == 0 || Is(rest, 0, ALT) || Is(rest, 0, RP) || Is(rest, 0, CB) then Looks(c, Stay)
            else c == NoMatch
  {
  }

  lemma Terminals(rest: seq<Token>, kind: GroupKind)
    ensures var c := Choose(SeqTerminals(), rest, kind);
            if Is(rest, 0, ST) || Is(rest, 0, NV) || Is(rest, 0, SS) || Is(rest, 0, SI) || Is(rest, 0, PV)
            then Looks(c, Push(ELEM))
            else c == NoMatch
  {
  }

  lemma Others(rest: seq<Token>, kind: GroupKind)
    ensures var c := Choose(SeqOthers(), rest, kind);
            if Is(rest, 0, TX) || Is(rest, 0, LP) || Is(rest, 0, OB) || Is(rest, 0, STAR) || Is(rest, 0, NUM)
            then Looks(c, Push(ELEM))
            else c == NoMatch
  {
  }

  lemma AtSeqTokens(last: Alternate, rest: seq<Token>, kind: GroupKind)
    requires last.s == [] && last.guard == Always
    ensures var c := Choose(SeqTokens(last), rest, kind);
            if |rest| == 0 || Is(rest, 0, ALT) || Is(rest, 0, RP) || Is(rest, 0, CB) then Looks(c, Stay)
            else if Starts(rest) then Looks(c, Push(ELEM))
            else c == Chosen(last)
  {
    Ends(rest, kind);
    Terminals(rest, kind);
    Others(rest, kind);
    ChooseFour(SeqEnds(), SeqTerminals(), SeqOthers(), Cons(last, Nil), rest, kind);
  }

  lemma ElemEnds(rest: seq<Token>, kind: GroupKind)
    ensures Does(Choose(ElemClose(), rest, kind), 0, Stay, CloseElem)
  {
  }

  lemma HeaderOpens(rest: seq<Token>, kind: GroupKind)
    ensures var c := Choose(ProdOpen(), rest, kind);
            if Is(rest, 0, TX) && Is(rest, 1, DEF) then Does(c, 2, Push(ALTS), NameProd)
            else if Is(rest, 0, PV) && Is(rest, 1, DEF) then Does(c, 2, Push(ALTS), NameProse)
            else if Is(rest, 0, TX) && Is(rest, 1, DEFA) then Does(c, 2, Push(ALTS), NameMore)
            else c == NoMatch
  {
  }

  lemma HeaderCloses(rest: seq<Token>, kind: GroupKind)
    ensures Looks(Choose(ProdClose(), rest, kind), if AtHeader(rest) then Replace(PROD) else Stay)
  {
  }

  lemma Starred(rest: seq<Token>, kind: GroupKind)
    ensures var c := Choose(ElemStarred(), rest, kind);
            if Is(rest, 0, NUM) && Is(rest, 1, STAR) && Is(rest, 2, NUM) && AtomAt(rest, 3)
            then Does(c, 3, Push(ATOM), CountBetween)
            else if Is(rest, 0, NUM) && Is(rest, 1, STAR) && AtomAt(rest, 2)
            then Does(c, 2, Push(ATOM), CountAtLeast)
            else if Is(rest, 0, STAR) && Is(rest, 1, NUM) && AtomAt(rest, 2)
            then Does(c, 2, Push(ATOM), CountAtMost)
            else if Is(rest, 0, STAR) && AtomAt(rest, 1)
            then Does(c, 1, Push(ATOM), CountAny)
            else c == NoMatch
  {
  }

  lemma Plain(rest: seq<Token>, kind: GroupKind)
    ensures var c := Choose(ElemPlain(), rest, kind);
            if Is(rest, 0, NUM) && AtomAt(rest, 1) then Does(c, 1, Push(ATOM), CountExact)
            else Looks(c, Push(ATOM))
  {
  }

  lemma OpenTerminals(rest: seq<Token>, kind: GroupKind)
    ensures var c := Choose(AtomTerminals(), rest, kind);
            if Is(rest, 0, SS) && Is(rest, 1, ST) then Does(c, 2, Stay, TermExact)
            else if Is(rest, 0, SI) && Is(rest, 1, ST) then Does(c, 2, Stay, TermFolded)
            else if Is(rest, 0, ST) then Does(c, 1, Stay, TermBare)
            else if Is(rest, 0, NV) then Does(c, 1, Stay, TermNumeric)
            else c == NoMatch
  {
  }

  lemma OpenOthers(rest: seq<Token>, kind: GroupKind)
    ensures var c := Choose(AtomOthers(), rest, kind);
            if Is(rest, 0, PV) then Does(c, 1, Stay, TermProse)
            else if Is(rest, 0, TX) then Does(c, 1, Stay, TermRef)
            else if Is(rest, 0, LP) then Does(c, 1, Push(ALTS), OpenGroup)
            else if Is(rest, 0, OB) then Does(c, 1, Push(ALTS), OpenOption)
            else c == NoMatch
  {
  }

  lemma GivesBackPrefixes(rest: seq<Token>, kind: GroupKind)
    ensures var c := Choose(AtomGivesBackPrefixes(), rest, kind); c == NoMatch || Looks(c, Stay)
  {
  }

  lemma GivesBackOthers(rest: seq<Token>, kind: GroupKind)
    ensures Looks(Choose(AtomGivesBackOthers(), rest, kind), Stay)
  {
  }

  lemma AtAtomPops(rest: seq<Token>, kind: GroupKind)
    ensures Looks(Choose(AtomPops(), rest, kind), Stay)
  {
    GivesBackPrefixes(rest, kind);
    GivesBackOthers(rest, kind);
    ChooseConcat(AtomGivesBackPrefixes(), AtomGivesBackOthers(), rest, kind);
    ChooseConcat(AtomGivesBackAtoms(), Concat(AtomGivesBackPrefixes(), AtomGivesBackOthers()), rest, kind);
  }

  lemma OwnMates(rest: seq<Token>, kind: GroupKind)
    ensures var c := Choose(AtomMates(), rest, kind);
            if Is(rest, 0, RP) && kind == InParens then Does(c, 1, Stay, CloseGroup)
            else if Is(rest, 0, CB) && kind == InBrackets then Does(c, 1, Stay, CloseOption)
            else c == NoMatch
  {
  }

  /** The choice a rule's phase makes. */
  function Pick(rule: RuleName, phase: Phase, rest: seq<Token>, kind: GroupKind): Choice {
    Choose(Table(rule, phase), rest, kind)
  }

  lemma AtAbnf(rule: RuleName, phase: Phase, rest: seq<Token>, kind: GroupKind)
    requires rule == ABNF
    ensures var c := Pick(rule, phase, rest, kind);
            if |rest| == 0 then Does(c, 1, Stay, Nothing) && c.alt.back == 0
            else if phase == Open then Looks(c, Push(PROD))
            else c == NoMatch
  {
  }

  lemma AtProd(rule: RuleName, phase: Phase, rest: seq<Token>, kind: GroupKind)
    requires rule == PROD
    ensures var c := Pick(rule, phase, rest, kind);
            if phase == Close then Looks(c, if AtHeader(rest) then Replace(PROD) else Stay)
            else if Is(rest, 0, TX) && Is(rest, 1, DEF) then Does(c, 2, Push(ALTS), NameProd)
            else if Is(rest, 0, PV) && Is(rest, 1, DEF) then Does(c, 2, Push(ALTS), NameProse)
            else if Is(rest, 0, TX) && Is(rest, 1, DEFA) then Does(c, 2, Push(ALTS), NameMore)
            else c == NoMatch
  {
    if phase == Open { HeaderOpens(rest, kind); } else { HeaderCloses(rest, kind); }
  }

  lemma AtAlts(rule: RuleName, phase: Phase, rest: seq<Token>, kind: GroupKind)
    requires rule == ALTS
    ensures var c := Pick(rule, phase, rest, kind);
            if phase == Open then Looks(c, Push(SEQ))
            else if Is(rest, 0, ALT) then Does(c, 1, Push(SEQ), Nothing)
            else Looks(c, Stay)
  {
  }

  lemma AtSeq(rule: RuleName, phase: Phase, rest: seq<Token>, kind: GroupKind)
    requires rule == SEQ
    ensures var c := Pick(rule, phase, rest, kind);
            if SeqStops(rest) then Looks(c, Stay)
            else if phase == Open || Starts(rest) then Looks(c, Push(ELEM))
            else Looks(c, Stay)
  {
    if phase == Open {
      var last := Look([], 0, Push(ELEM));
      OpenNames(rest, kind);
      AtSeqTokens(last, rest, kind);
      ChooseConcat(SeqOpenNames(), SeqTokens(last), rest, kind);
    } else {
      var last := Look([], 1, Stay);
      CloseNames(rest, kind);
      AtSeqTokens(last, rest, kind);
      ChooseConcat(SeqCloseNames(), SeqTokens(last), rest, kind);
    }
  }

  /** The alternate an opening element takes, by the repetition prefix it stands on. */
  predicate CountChoice(rest: seq<Token>, c: Choice) {
    if Is(rest, 0, NUM) && Is(rest, 1, STAR) && Is(rest, 2, NUM) && AtomAt(rest, 3)
    then Does(c, 3, Push(ATOM), CountBetween)
    else if Is(rest, 0, NUM) && Is(rest, 1, STAR) && AtomAt(rest, 2)
    then Does(c, 2, Push(ATOM), CountAtLeast)
    else if Is(rest, 0, STAR) && Is(rest, 1, NUM) && AtomAt(rest, 2)
    then Does(c, 2, Push(ATOM), CountAtMost)
    else if Is(rest, 0, STAR) && AtomAt(rest, 1)
    then Does(c, 1, Push(ATOM), CountAny)
    else if Is(rest, 0, NUM) && AtomAt(rest, 1)
    then Does(c, 1, Push(ATOM), CountExact)
    else Looks(c, Push(ATOM))
  }

  lemma AtElem(rule: RuleName, phase: Phase, rest: seq<Token>, kind: GroupKind)
    requires rule == ELEM
    ensures var c := Pick(rule, phase, rest, kind);
            if phase == Close then Does(c, 0, Stay, CloseElem) else CountChoice(rest, c)
  {
    if phase == Open {
      Starred(rest, kind);
      Plain(rest, kind);
      ChooseConcat(ElemStarred(), ElemPlain(), rest, kind);
    } else {
      ElemEnds(rest, kind);
    }
  }

  /** The alternate an opening atom takes, by the tokens it stands on. */
  predicate AtomChoice(rest: seq<Token>, c: Choice) {
    if Is(rest, 0, SS) && Is(rest, 1, ST) then Does(c, 2, Stay, TermExact)
    else if Is(rest, 0, SI) && Is(rest, 1, ST) then Does(c, 2, Stay, TermFolded)
    else if Is(rest, 0, ST) then Does(c, 1, Stay, TermBare)
    else if Is(rest, 0, NV) then Does(c, 1, Stay, TermNumeric)
    else if Is(rest, 0, PV) then Does(c, 1, Stay, TermProse)
    else if Is(rest, 0, TX) then Does(c, 1, Stay, TermRef)
    else if Is(rest, 0, LP) then Does(c, 1, Push(ALTS), OpenGroup)
    else if Is(rest, 0, OB) then Does(c, 1, Push(ALTS), OpenOption)
    else c == NoMatch
  }

  lemma AtAtomOpen(rule: RuleName, phase: Phase, rest: seq<Token>, kind: GroupKind)
    requires rule == ATOM && phase == Open
    ensures AtomChoice(rest, Pick(rule, phase, rest, kind))
  {
    OpenTerminals(rest, kind);
    OpenOthers(rest, kind);
    ChooseConcat(AtomTerminals(), AtomOthers(), rest, kind);
  }

  /** The alternate a closing atom takes: its own mate's, or the one that gives back. */
  predicate CloseChoice(rest: seq<Token>, kind: GroupKind, c: Choice) {
    if Is(rest, 0, RP) && kind == InParens then Does(c, 1, Stay, CloseGroup)
    else if Is(rest, 0, CB) && kind == InBrackets then Does(c, 1, Stay, CloseOption)
    else Looks(c, Stay)
  }

  lemma AtAtomClose(rule: RuleName, phase: Phase, rest: seq<Token>, kind: GroupKind)
    requires rule == ATOM && phase == Close
    ensures CloseChoice(rest, kind, Pick(rule, phase, rest, kind))
  {
    OwnMates(rest, kind);
    AtAtomPops(rest, kind);
    ChooseConcat(AtomMates(), AtomPops(), rest, kind);
  }

  lemma AtAtom(rule: RuleName, phase: Phase, rest: seq<Token>, kind: GroupKind)
    requires rule == ATOM
    ensures var c := Pick(rule, phase, rest, kind);
            if phase == Close then Looks(c, Stay) || Does(c, 1, Stay, CloseGroup) || Does(c, 1, Stay, CloseOption)
            else c.Chosen? ==>
              |rest| > 0 && |c.alt.s| >= c.alt.back + 1 && (c.alt.goto == Stay || c.alt.goto == Push(ALTS))
  {
    if phase == Open { AtAtomOpen(rule, phase, rest, kind); } else { AtAtomClose(rule, phase, rest, kind); }
  }
}
