/** `abnfRules`: the meta-grammar as a table of alternates, in the source's order.

    An alternate matches when its symbols match the next tokens and its guard holds; it
    reads as many tokens as it has symbols, less the `back` it gives back, and then stays
    with its rule, pushes a child or is replaced. The first alternate that matches is
    taken. */
module MetaGrammar {
  import opened Tokens

  datatype RuleName = ABNF | PROD | ALTS | SEQ | ELEM | ATOM

  datatype Phase = Open | Close

  /** A symbol of an alternate's `s`: a token kind, the `ATOM` set, the end of the source. */
  datatype Sym = T(kind: Kind) | Atom | End

  datatype Goto = Stay | Push(rule: RuleName) | Replace(rule: RuleName)

  datatype Guard = Always | InGroup | InOption

  datatype Action =
    | Nothing
    | NameProd | NameProse | NameMore
    | CountBetween | CountAtLeast | CountAtMost | CountAny | CountExact
    | CloseElem
    | TermExact | TermFolded | TermBare | TermNumeric | TermProse | TermRef
    | OpenGroup | OpenOption | CloseGroup | CloseOption

  datatype Alternate = Alternate(s: seq<Sym>, back: nat, goto: Goto, guard: Guard, action: Action)

  datatype Alternates = Nil | Cons(first: Alternate, more: Alternates)

  /** `{ s, b, p }`, an alternate that only looks and pushes or stays. */
  function Look(s: seq<Sym>, back: nat, goto: Goto): Alternate {
    Alternate(s, back, goto, Always, Nothing)
  }

  function Do(s: seq<Sym>, back: nat, goto: Goto, action: Action): Alternate {
    Alternate(s, back, goto, Always, action)
  }

  /** Two runs of alternates, tried one after the other. */
  function Concat(a: Alternates, b: Alternates): Alternates {
    match a
    case Nil => b
    case Cons(first, more) => Cons(first, Concat(more, b))
  }

  /** What a sequence that has read no element does at a name: the next production's header
      ends it, a name before a count or an atom starts an element. */
  function SeqOpenNames(): Alternates {
    Cons(Look([T(TX), T(DEF)], 2, Stay),
    Cons(Look([T(TX), T(DEFA)], 2, Stay),
    Cons(Look([T(TX), T(NUM)], 2, Push(ELEM)),
    Cons(Look([T(TX), Atom], 2, Push(ELEM)),
    Cons(Look([T(PV), T(DEF)], 2, Stay), Nil)))))
  }

  /** The same after an element, with the prose header tried third instead of last. */
  function SeqCloseNames(): Alternates {
    Cons(Look([T(TX), T(DEF)], 2, Stay),
    Cons(Look([T(TX), T(DEFA)], 2, Stay),
    Cons(Look([T(PV), T(DEF)], 2, Stay),
    Cons(Look([T(TX), T(NUM)], 2, Push(ELEM)),
    Cons(Look([T(TX), Atom], 2, Push(ELEM)), Nil)))))
  }

  /** The tokens a sequence ends at. */
  function SeqEnds(): Alternates {
    Cons(Look([T(ALT)], 1, Stay),
    Cons(Look([End], 1, Stay),
    Cons(Look([T(RP)], 1, Stay),
    Cons(Look([T(CB)], 1, Stay), Nil))))
  }

  /** Strings, numeric values and prose start an element. */
  function SeqTerminals(): Alternates {
    Cons(Look([T(ST)], 1, Push(ELEM)),
    Cons(Look([T(NV)], 1, Push(ELEM)),
    Cons(Look([T(SS)], 1, Push(ELEM)),
    Cons(Look([T(SI)], 1, Push(ELEM)),
    Cons(Look([T(PV)], 1, Push(ELEM)), Nil)))))
  }

  /** A name, a bracket or a count starts one too. */
  function SeqOthers(): Alternates {
    Cons(Look([T(TX)], 1, Push(ELEM)),
    Cons(Look([T(LP)], 1, Push(ELEM)),
    Cons(Look([T(OB)], 1, Push(ELEM)),
    Cons(Look([T(STAR)], 1, Push(ELEM)),
    Cons(Look([T(NUM)], 1, Push(ELEM)), Nil)))))
  }

  /** A count with a star in it stands before an atom. */
  function ElemStarred(): Alternates {
    Cons(Do([T(NUM), T(STAR), T(NUM), Atom], 1, Push(ATOM), CountBetween),
    Cons(Do([T(NUM), T(STAR), Atom], 1, Push(ATOM), CountAtLeast),
    Cons(Do([T(STAR), T(NUM), Atom], 1, Push(ATOM), CountAtMost),
    Cons(Do([T(STAR), Atom], 1, Push(ATOM), CountAny), Nil))))
  }

  /** A count alone stands before an atom, or there is none. */
  function ElemPlain(): Alternates {
    Cons(Do([T(NUM), Atom], 1, Push(ATOM), CountExact),
    Cons(Look([], 0, Push(ATOM)), Nil))
  }

  /** An atom that is a string, marked or bare, or a numeric value. */
  function AtomTerminals(): Alternates {
    Cons(Do([T(SS), T(ST)], 0, Stay, TermExact),
    Cons(Do([T(SI), T(ST)], 0, Stay, TermFolded),
    Cons(Do([T(ST)], 0, Stay, TermBare),
    Cons(Do([T(NV)], 0, Stay, TermNumeric), Nil))))
  }

  /** An atom that is prose or a name, or opens a bracket. */
  function AtomOthers(): Alternates {
    Cons(Do([T(PV)], 0, Stay, TermProse),
    Cons(Do([T(TX)], 0, Stay, TermRef),
    Cons(Do([T(LP)], 0, Push(ALTS), OpenGroup),
    Cons(Do([T(OB)], 0, Push(ALTS), OpenOption), Nil))))
  }

  /** A bracket's atom closes on its own mate. */
  function AtomMates(): Alternates {
    Cons(Alternate([T(RP)], 0, Stay, InGroup, CloseGroup),
    Cons(Alternate([T(CB)], 0, Stay, InOption, CloseOption), Nil))
  }

  /** An atom pops in front of a token that can open another, and gives it back. */
  function AtomGivesBackAtoms(): Alternates {
    Cons(Look([T(TX)], 1, Stay),
    Cons(Look([T(ST)], 1, Stay),
    Cons(Look([T(NV)], 1, Stay),
    Cons(Look([T(SS)], 1, Stay),
    Cons(Look([T(SI)], 1, Stay), Nil)))))
  }

  /** It does so in front of prose, a count and an opening bracket. */
  function AtomGivesBackPrefixes(): Alternates {
    Cons(Look([T(PV)], 1, Stay),
    Cons(Look([T(NUM)], 1, Stay),
    Cons(Look([T(STAR)], 1, Stay),
    Cons(Look([T(LP)], 1, Stay),
    Cons(Look([T(OB)], 1, Stay), Nil)))))
  }

  /** It does so in front of what ends a sequence, and at last of any token. */
  function AtomGivesBackOthers(): Alternates {
    Cons(Look([T(RP)], 1, Stay),
    Cons(Look([T(CB)], 1, Stay),
    Cons(Look([T(ALT)], 1, Stay),
    Cons(Look([T(DEF)], 1, Stay),
    Cons(Look([End], 1, Stay),
    Cons(Look([], 1, Stay), Nil))))))
  }

  function AbnfOpen(): Alternates {
    Cons(Look([End], 0, Stay),
    Cons(Look([], 0, Push(PROD)), Nil))
  }

  function AbnfClose(): Alternates {
    Cons(Look([End], 0, Stay), Nil)
  }

  function ProdOpen(): Alternates {
    Cons(Do([T(TX), T(DEF)], 0, Push(ALTS), NameProd),
    Cons(Do([T(PV), T(DEF)], 0, Push(ALTS), NameProse),
    Cons(Do([T(TX), T(DEFA)], 0, Push(ALTS), NameMore), Nil)))
  }

  function ProdClose(): Alternates {
    Cons(Look([T(TX), T(DEF)], 2, Replace(PROD)),
    Cons(Look([T(TX), T(DEFA)], 2, Replace(PROD)),
    Cons(Look([T(PV), T(DEF)], 2, Replace(PROD)),
    Cons(Look([], 1, Stay), Nil))))
  }

  function AltsOpen(): Alternates {
    Cons(Look([], 0, Push(SEQ)), Nil)
  }

  function AltsClose(): Alternates {
    Cons(Look([T(ALT)], 0, Push(SEQ)),
    Cons(Look([], 1, Stay), Nil))
  }

  function SeqTokens(last: Alternate): Alternates {
    Concat(SeqEnds(), Concat(SeqTerminals(), Concat(SeqOthers(), Cons(last, Nil))))
  }

  function SeqOpen(): Alternates {
    Concat(SeqOpenNames(), SeqTokens(Look([], 0, Push(ELEM))))
  }

  function SeqClose(): Alternates {
    Concat(SeqCloseNames(), SeqTokens(Look([], 1, Stay)))
  }

  function ElemOpen(): Alternates {
    Concat(ElemStarred(), ElemPlain())
  }

  function ElemClose(): Alternates {
    Cons(Do([], 0, Stay, CloseElem), Nil)
  }

  function AtomOpen(): Alternates {
    Concat(AtomTerminals(), AtomOthers())
  }

  function AtomPops(): Alternates {
    Concat(AtomGivesBackAtoms(), Concat(AtomGivesBackPrefixes(), AtomGivesBackOthers()))
  }

  function AtomClose(): Alternates {
    Concat(AtomMates(), AtomPops())
  }

  function Table(rule: RuleName, phase: Phase): Alternates {
    match rule
    case ABNF => if phase == Open then AbnfOpen() else AbnfClose()
    case PROD => if phase == Open then ProdOpen() else ProdClose()
    case ALTS => if phase == Open then AltsOpen() else AltsClose()
    case SEQ => if phase == Open then SeqOpen() else SeqClose()
    case ELEM => if phase == Open then ElemOpen() else ElemClose()
    case ATOM => if phase == Open then AtomOpen() else AtomClose()
  }

  predicate SymMatches(sym: Sym, rest: seq<Token>, i: nat) {
    match sym
    case T(k) => Is(rest, i, k)
    case Atom => AtomAt(rest, i)
    case End => |rest| <= i
  }

  /** No alternate looks further than four tokens. */
  predicate Matches(s: seq<Sym>, rest: seq<Token>) {
    && (0 < |s| ==> SymMatches(s[0], rest, 0))
    && (1 < |s| ==> SymMatches(s[1], rest, 1))
    && (2 < |s| ==> SymMatches(s[2], rest, 2))
    && (3 < |s| ==> SymMatches(s[3], rest, 3))
    && |s| <= 4
  }

  /** What a rule remembers of the bracket that opened it. */
  datatype GroupKind = NoGroup | InParens | InBrackets

  predicate Passes(guard: Guard, kind: GroupKind) {
    match guard
    case Always => true
    case InGroup => kind == InParens
    case InOption => kind == InBrackets
  }

  datatype Choice = NoMatch | Chosen(alt: Alternate)

  /** The first alternate that matches. */
  function Choose(alts: Alternates, rest: seq<Token>, kind: GroupKind): Choice
    decreases alts
  {
    match alts
    case Nil => NoMatch
    case Cons(a, more) =>
      if Matches(a.s, rest) && Passes(a.guard, kind) then Chosen(a) else Choose(more, rest, kind)
  }

  /** What an alternate leaves of the tokens: a give-back past what it matched reads none. */
  function Read(alt: Alternate, rest: seq<Token>): seq<Token> {
    if |alt.s| <= alt.back then rest else Drop(rest, |alt.s| - alt.back)
  }
}
