/** What the Rust port's depth check turns away, and the shape of every reachable stack. */
module Depths {
  import opened Ports
  import opened Tokens
  import opened MetaGrammar
  import opened Choices
  import opened Engine
  import opened Halting

  // ---- the stack

  /** The rule that stands at a depth: abnf, prod, and then alts, seq, elem and atom over
      and over. */
  function RuleAt(depth: nat): RuleName {
    if depth == 0 then ABNF else if depth == 1 then PROD
    else if depth % 4 == 2 then ALTS else if depth % 4 == 3 then SEQ
    else if depth % 4 == 0 then ELEM else ATOM
  }

  /** Every suspended rule stands at its depth, and a suspended atom is an open bracket. */
  predicate Shaped(s: Stack) {
    match s
    case Bottom => true
    case Over(f, below) =>
      f.rule == RuleAt(Depth(below)) && (f.rule == ATOM ==> f.bag.kind != NoGroup) && Shaped(below)
  }

  predicate WellShaped(s: State) {
    s.Running? ==> s.top.rule == RuleAt(Depth(s.below)) && Shaped(s.below) && Suspended(s.below)
  }

  /** The one rule a rule pushes. */
  function ChildOf(rule: RuleName): RuleName {
    match rule
    case ABNF => PROD
    case PROD => ALTS
    case ALTS => SEQ
    case SEQ => ELEM
    case ELEM => ATOM
    case ATOM => ALTS
  }

  /** A choice stays, pushes its rule's one child, or replaces the rule by its like. */
  predicate GoesOn(rule: RuleName, goto: Goto) {
    goto == Stay || goto == Push(ChildOf(rule)) || goto == Replace(rule)
  }

  lemma ElemGoesOn(rule: RuleName, phase: Phase, rest: seq<Token>, kind: GroupKind)
    requires rule == ELEM
    ensures var c := Pick(rule, phase, rest, kind); c.Chosen? ==> GoesOn(rule, c.alt.goto)
  {
    AtElem(rule, phase, rest, kind);
  }

  lemma AtomGoesOn(rule: RuleName, phase: Phase, rest: seq<Token>, kind: GroupKind)
    requires rule == ATOM
    ensures var c := Pick(rule, phase, rest, kind);
            c.Chosen? ==>
              && GoesOn(rule, c.alt.goto) && !c.alt.goto.Replace?
              && (c.alt.goto.Push? ==> c.alt.action == OpenGroup || c.alt.action == OpenOption)
  {
    if phase == Open { AtAtomOpen(rule, phase, rest, kind); } else { AtAtomClose(rule, phase, rest, kind); }
  }

  lemma RuleGoesOn(rule: RuleName, phase: Phase, rest: seq<Token>, kind: GroupKind)
    ensures var c := Pick(rule, phase, rest, kind); c.Chosen? ==> GoesOn(rule, c.alt.goto)
  {
    match rule {
      case ABNF => AtAbnf(rule, phase, rest, kind);
      case PROD => AtProd(rule, phase, rest, kind);
      case ALTS => AtAlts(rule, phase, rest, kind);
      case SEQ => AtSeq(rule, phase, rest, kind);
      case ELEM => ElemGoesOn(rule, phase, rest, kind);
      case ATOM => AtomGoesOn(rule, phase, rest, kind);
    }
  }

  lemma GoKeepsShape(goto: Goto, f: Frame, below: Stack, store: Store, rest: seq<Token>)
    requires f.rule == RuleAt(Depth(below)) && Shaped(below) && GoesOn(f.rule, goto)
    requires f.rule == ATOM && goto.Push? ==> f.bag.kind != NoGroup
    ensures var s := Go(goto, f, below, store, rest);
            s.Running? ==> s.top.rule == RuleAt(Depth(s.below)) && Shaped(s.below)
  {
  }

  lemma StepKeepsShape(mode: Mode, s: State)
    requires s.Running? && WellShaped(s)
    ensures WellShaped(Step(mode, s))
  {
    var rule, phase, kind := s.top.rule, s.top.phase, s.top.bag.kind;
    StepDecreases(mode, s);
    RuleGoesOn(rule, phase, s.rest, kind);
    if rule == ATOM {
      AtomGoesOn(rule, phase, s.rest, kind);
    }
    match Pick(rule, phase, s.rest, kind)
    case NoMatch =>
    case Chosen(alt) =>
      var before := Before(s.top, s.store);
      match Act(mode, alt.action, before.0, s.rest, Depth(s.below), before.1)
      case Refused(_) =>
      case Done(f, store) => GoKeepsShape(alt.goto, f, s.below, store, Read(alt, s.rest));
  }

  /** The machine's step, standing still once a run has ended. */
  function Stepper(mode: Mode): State -> State {
    (s: State) => if s.Running? then Step(mode, s) else s
  }

  /** The state `n` steps on. */
  function After(step: State -> State, s: State, n: nat): State
    decreases n
  {
    if n == 0 then s else After(step, step(s), n - 1)
  }

  lemma {:induction false} AfterKeeps(step: State -> State, inv: State -> bool, s: State, n: nat)
    requires inv(s) && forall t :: inv(t) ==> inv(step(t))
    ensures inv(After(step, s, n))
    decreases n
  {
    if n > 0 {
      AfterKeeps(step, inv, step(s), n - 1);
    }
  }

  lemma AfterShaped(mode: Mode, tokens: seq<Token>, n: nat)
    ensures WellShaped(After(Stepper(mode), Init(tokens), n))
  {
    forall t | WellShaped(t) ensures WellShaped(Stepper(mode)(t)) {
      if t.Running? {
        StepKeepsShape(mode, t);
      }
    }
    AfterKeeps(Stepper(mode), s => WellShaped(s), Init(tokens), n);
  }

  /** The brackets open under a stack. */
  function OpenBrackets(s: Stack): nat {
    match s
    case Bottom => 0
    case Over(f, below) => OpenBrackets(below) + if f.rule == ATOM then 1 else 0
  }

  /** A bracket costs four rules: the depth of a shaped stack counts its open brackets. */
  lemma {:induction false} DepthCountsBrackets(s: Stack)
    requires Shaped(s)
    ensures OpenBrackets(s) == if Depth(s) < 2 then 0 else (Depth(s) - 2) / 4
    decreases s
  {
    if s.Over? {
      DepthCountsBrackets(s.below);
    }
  }

  /** The rules stand in whole blocks of four, one block an open bracket, and a running
      atom's depth is four times the brackets open around it, and five. */
  predicate InBlocks(s: State) {
    s.Running? ==>
      && Shaped(s.below) && s.top.rule == RuleAt(Depth(s.below))
      && (s.top.rule == ATOM ==> Depth(s.below) == 4 * OpenBrackets(s.below) + 5)
  }

  lemma ShapedInBlocks(s: State)
    requires WellShaped(s)
    ensures InBlocks(s)
  {
    if s.Running? {
      DepthCountsBrackets(s.below);
    }
  }

  /** So it is in every state any run reaches. */
  lemma ReachableShape(mode: Mode, tokens: seq<Token>, n: nat)
    ensures InBlocks(After(Stepper(mode), Init(tokens), n))
  {
    AfterShaped(mode, tokens, n);
    ShapedInBlocks(After(Stepper(mode), Init(tokens), n));
  }
}
