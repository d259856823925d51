/** Every run of the table halts, after a number of steps linear in the tokens, although
    pushes, replacements and give-backs read nothing. */
module Halting {
  import opened Ports
  import opened Tokens
  import opened MetaGrammar
  import opened Choices
  import opened Engine

  /** What a rule's phase may still spend before it reads a token; an element and an atom
      about to open are in debt, which the token they must read pays. */
  function Weight(rule: RuleName, phase: Phase): int {
    if phase == Close then 1
    else match rule
      case ABNF => 2
      case PROD => 0
      case ALTS => 4
      case SEQ => 2
      case ELEM => -1
      case ATOM => -3
  }

  /** Every rule under the running one waits to close. */
  predicate Suspended(s: Stack) {
    match s
    case Bottom => true
    case Over(f, below) => f.phase == Close && Suspended(below)
  }

  predicate Ready(s: State) {
    s.Running? ==> Suspended(s.below)
  }

  function Measure(s: State): nat {
    if s.Running? then 9 * |s.rest| + Weight(s.top.rule, s.top.phase) + Depth(s.below) + 4 else 0
  }

  /** What the running rule and the one it hands over to weigh afterwards. */
  function Next(rule: RuleName, phase: Phase, goto: Goto): int {
    match goto
    case Push(child) => 1 + Weight(child, Open)
    case Replace(other) => Weight(other, Open)
    case Stay => if phase == Open then 1 else 0
  }

  /** What a chosen alternate does to the weight, and that only a closing production replaces. */
  predicate Pays(rule: RuleName, phase: Phase, rest: seq<Token>, c: Choice) {
    c.Chosen? ==>
      && (c.alt.goto.Replace? ==> rule == PROD && phase == Close)
      && Next(rule, phase, c.alt.goto) - 9 * (|rest| - |Read(c.alt, rest)|) < Weight(rule, phase)
  }

  lemma AbnfPays(rule: RuleName, phase: Phase, rest: seq<Token>, kind: GroupKind)
    requires rule == ABNF
    ensures Pays(rule, phase, rest, Pick(rule, phase, rest, kind))
  {
    AtAbnf(rule, phase, rest, kind);
  }

  lemma ProdPays(rule: RuleName, phase: Phase, rest: seq<Token>, kind: GroupKind)
    requires rule == PROD
    ensures Pays(rule, phase, rest, Pick(rule, phase, rest, kind))
  {
    AtProd(rule, phase, rest, kind);
  }

  lemma AltsPays(rule: RuleName, phase: Phase, rest: seq<Token>, kind: GroupKind)
    requires rule == ALTS
    ensures Pays(rule, phase, rest, Pick(rule, phase, rest, kind))
  {
    AtAlts(rule, phase, rest, kind);
  }

  /** A sequence only looks ahead. */
  lemma SeqLooks(rule: RuleName, phase: Phase, rest: seq<Token>, kind: GroupKind)
    requires rule == SEQ
    ensures var c := Pick(rule, phase, rest, kind); c == NoMatch || Looks(c, Stay) || Looks(c, Push(ELEM))
  {
    AtSeq(rule, phase, rest, kind);
  }

  lemma LooksPay(phase: Phase, rest: seq<Token>, c: Choice)
    requires c == NoMatch || Looks(c, Stay) || Looks(c, Push(ELEM))
    ensures Pays(SEQ, phase, rest, c)
  {
  }

  lemma SeqPays(rule: RuleName, phase: Phase, rest: seq<Token>, kind: GroupKind)
    requires rule == SEQ
    ensures Pays(rule, phase, rest, Pick(rule, phase, rest, kind))
  {
    SeqLooks(rule, phase, rest, kind);
    LooksPay(phase, rest, Pick(rule, phase, rest, kind));
  }

  lemma ElemPays(rule: RuleName, phase: Phase, rest: seq<Token>, kind: GroupKind)
    requires rule == ELEM
    ensures Pays(rule, phase, rest, Pick(rule, phase, rest, kind))
  {
    AtElem(rule, phase, rest, kind);
  }

  lemma AtomPays(rule: RuleName, phase: Phase, rest: seq<Token>, kind: GroupKind)
    requires rule == ATOM
    ensures Pays(rule, phase, rest, Pick(rule, phase, rest, kind))
  {
    AtAtom(rule, phase, rest, kind);
  }

  lemma AtEach(rule: RuleName, phase: Phase, rest: seq<Token>, kind: GroupKind)
    ensures Pays(rule, phase, rest, Pick(rule, phase, rest, kind))
  {
    match rule {
      case ABNF => AbnfPays(rule, phase, rest, kind);
      case PROD => ProdPays(rule, phase, rest, kind);
      case ALTS => AltsPays(rule, phase, rest, kind);
      case SEQ => SeqPays(rule, phase, rest, kind);
      case ELEM => ElemPays(rule, phase, rest, kind);
      case ATOM => AtomPays(rule, phase, rest, kind);
    }
  }

  /** Every step of a running machine, from any state at all whose suspended rules are
      closing, lowers the measure. */
  lemma StepDecreases(mode: Mode, s: State)
    requires s.Running? && Ready(s)
    ensures Ready(Step(mode, s))
    ensures Step(mode, s).Running? ==> Measure(Step(mode, s)) < Measure(s)
  {
    AtEach(s.top.rule, s.top.phase, s.rest, s.top.bag.kind);
  }

  /** The outcome of a run. */
  function Final(mode: Mode, s: State): (end: State)
    requires Ready(s)
    ensures !end.Running?
    decreases Measure(s), s.Running?
  {
    if s.Running? then
      StepDecreases(mode, s);
      Final(mode, Step(mode, s))
    else s
  }

  /** An account of where runs end: it does not change along a step, and a run that has
      ended ends where it is. */
  ghost predicate Follows(mode: Mode, end: State -> State) {
    && (forall s: State {:trigger Step(mode, s)} :: s.Running? && Ready(s) ==> end(s) == end(Step(mode, s)))
    && forall s: State :: !s.Running? ==> end(s) == s
  }

  function Outcome(mode: Mode): State -> State {
    s => if Ready(s) then Final(mode, s) else s
  }

  lemma OutcomeFollows(mode: Mode)
    ensures Follows(mode, Outcome(mode))
  {
    forall s: State | s.Running? && Ready(s) ensures Outcome(mode)(s) == Outcome(mode)(Step(mode, s)) {
      StepDecreases(mode, s);
    }
  }

  /** There is such an account, and it is where the run of `tokens` ends. */
  lemma Account(mode: Mode, tokens: seq<Token>) returns (end: State -> State)
    ensures Follows(mode, end) && end(Init(tokens)) == Final(mode, Init(tokens))
  {
    end := Outcome(mode);
    OutcomeFollows(mode);
  }

  /** How many steps a run takes. */
  function Steps(mode: Mode, s: State): nat
    requires Ready(s)
    decreases Measure(s), s.Running?
  {
    if s.Running? then
      StepDecreases(mode, s);
      1 + Steps(mode, Step(mode, s))
    else 0
  }

  lemma {:induction false} StepsBounded(mode: Mode, s: State)
    requires Ready(s)
    ensures Steps(mode, s) <= Measure(s) + 1
    decreases Measure(s), s.Running?
  {
    if s.Running? {
      StepDecreases(mode, s);
      StepsBounded(mode, Step(mode, s));
    }
  }

  /** A parse of any tokens takes at most nine steps a token and seven more. */
  lemma RunIsLinear(mode: Mode, tokens: seq<Token>)
    ensures Steps(mode, Init(tokens)) <= 9 * |tokens| + 7
  {
    StepsBounded(mode, Init(tokens));
  }
}
