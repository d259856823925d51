/** The pushdown machine that runs the table.

    A rule's `node` is a reference: arrays live in a store and are shared, so that what a
    child appends through the node it inherited its parent sees. `bo` runs before a rule
    opens and `bc` before every close; a rule closes again each time a child it pushed
    while closing pops; a replacement takes its predecessor's place and node. */
module Engine {
  import opened Strings
  import opened Ports
  import opened Numeric
  import opened Tokens
  import opened Ast
  import opened MetaGrammar
  import opened Choices
  import Unicode

  datatype Val =
    | Undef
    | Arr(id: nat)
    | LitV(leaf: Leaf, sp: Option<Span>)
    | WrapV(wrap: Wrap, inner: Val, sp: Option<Span>)
    | GroupV(alts: Val, sp: Option<Span>)
    | RuleV(name: string, alts: Val, incremental: bool, sp: Option<Span>)

  type Store = seq<seq<Val>>

  /** A rule's private `u`. */
  datatype Bag = Bag(name: string, nameTok: Option<Token>, incremental: bool,
                     min: nat, max: Bound, kind: GroupKind, open: Option<Token>)

  const EMPTY_BAG: Bag := Bag("", None, false, 0, Fin(0), NoGroup, None)

  datatype Frame = Frame(rule: RuleName, phase: Phase, node: Val, child: Val, bag: Bag)

  /** The suspended rules, the innermost first. */
  datatype Stack = Bottom | Over(frame: Frame, below: Stack)

  datatype Failure = Unexpected | BadNumber | TooDeep

  datatype State =
    | Running(top: Frame, below: Stack, store: Store, rest: seq<Token>)
    | Accepted(node: Val, store: Store)
    | Failed(why: Failure)

  function Depth(s: Stack): nat {
    match s
    case Bottom => 0
    case Over(_, below) => 1 + Depth(below)
  }

  /** A new rule, opening, with the node its parent or predecessor hands it. */
  function NewRule(rule: RuleName, node: Val): Frame {
    Frame(rule, Open, node, Undef, EMPTY_BAG)
  }

  function Init(tokens: seq<Token>): State {
    Running(NewRule(ABNF, Undef), Bottom, [], tokens)
  }

  function Append(store: Store, list: Val, x: Val): Store {
    if list.Arr? && list.id < |store| then store[list.id := store[list.id] + [x]] else store
  }

  datatype Effect = Done(frame: Frame, store: Store) | Refused(why: Failure)

  /** The `bo` and `bc` hooks. */
  function Before(f: Frame, store: Store): (r: (Frame, Store))
    ensures r.0.rule == f.rule && r.0.phase == f.phase && r.0.child == f.child
    ensures r.0.bag.kind == f.bag.kind && r.0.bag.open == f.bag.open
  {
    if f.phase == Open then
      match f.rule
      case ABNF => (f.(node := Arr(|store|)), store + [[]])
      case ALTS => (f.(node := Arr(|store|)), store + [[]])
      case SEQ => (f.(node := Arr(|store|)), store + [[]])
      case ELEM => (Counts(f, 1, Fin(1)), store)
      case ATOM => (f.(node := Undef), store)
      case PROD => (f, store)
    else
      match f.rule
      case PROD =>
        (f, if f.child == Undef then store
            else Append(store, f.node, RuleV(f.bag.name, f.child, f.bag.incremental, SpanTo(f.bag.nameTok, None))))
      case ALTS => (f, if f.child == Undef then store else Append(store, f.node, f.child))
      case _ => (f, store)
  }

  /** `elem`'s wrapper over the node its atom left. */
  function WrapItem(mode: Mode, min: nat, max: Bound, item: Val): Val {
    if item == Undef && !mode.port.TypeScript? then Undef
    else if min == 1 && max == Fin(1) then item
    else WrapV(WrapFor(min, max), item, None)
  }

  /** The token an alternate matched at `i`. */
  function Tok(rest: seq<Token>, i: nat): Token {
    if i < |rest| then rest[i] else Token(Other, "", "", 0, 0, 0, 0)
  }

  function Name(f: Frame, t: Token, name: string, incremental: bool): Frame {
    f.(bag := f.bag.(name := name, nameTok := Some(t), incremental := incremental))
  }

  function Counts(f: Frame, min: nat, max: Bound): Frame {
    f.(bag := f.bag.(min := min, max := max))
  }

  function SetLeaf(f: Frame, leaf: Leaf, sp: Option<Span>): Frame {
    f.(node := LitV(leaf, sp))
  }

  /** A quoted string's text. */
  function Quoted(t: Token, caseSensitive: bool): Leaf {
    Term(Unicode.OfString(t.val), caseSensitive)
  }

  /** A bracket opens unless it stands too deep. */
  function Bracket(mode: Mode, f: Frame, t: Token, kind: GroupKind, depth: nat, store: Store): Effect {
    if mode.maxDepth.Some? && mode.maxDepth.value < depth then Refused(TooDeep)
    else Done(f.(bag := f.bag.(kind := kind, open := Some(t))), store)
  }

  /** A numeric value sets its element, if it has one. */
  function Number(f: Frame, leaf: Option<Leaf>, t: Token, store: Store): Effect {
    match leaf
    case Some(l) => Done(SetLeaf(f, l, SpanTo(Some(t), None)), store)
    case None => Refused(BadNumber)
  }

  /** An alternate's action, on the tokens it matched. */
  function Act(mode: Mode, action: Action, f: Frame, rest: seq<Token>, depth: nat, store: Store): (e: Effect)
    ensures e.Done? ==> e.frame.rule == f.rule && e.frame.phase == f.phase && e.frame.child == f.child
    ensures e.Done? && (action == OpenGroup || action == OpenOption) ==> e.frame.bag.kind != NoGroup
  {
    var t0 := Tok(rest, 0);
    var t1 := Tok(rest, 1);
    match action
    case Nothing => Done(f, store)
    case NameProd => Done(Name(f, t0, t0.val, false), store)
    case NameProse => Done(Name(f, t0, t0.src, false), store)
    case NameMore => Done(Name(f, t0, t0.val, true), store)
    case CountBetween => Done(Counts(f, CountOf(t0), Fin(CountOf(Tok(rest, 2)))), store)
    case CountAtLeast => Done(Counts(f, CountOf(t0), Unbounded), store)
    case CountAtMost => Done(Counts(f, 0, Fin(CountOf(t1))), store)
    case CountAny => Done(Counts(f, 0, Unbounded), store)
    case CountExact => Done(Counts(f, CountOf(t0), Fin(CountOf(t0))), store)
    case CloseElem => Done(f, Append(store, f.node, WrapItem(mode, f.bag.min, f.bag.max, f.child)))
    case TermExact => Done(SetLeaf(f, Quoted(t1, true), SpanTo(Some(t0), Some(t1))), store)
    case TermFolded => Done(SetLeaf(f, Quoted(t1, false), SpanTo(Some(t0), Some(t1))), store)
    case TermBare => Done(SetLeaf(f, Quoted(t0, false), SpanTo(Some(t0), None)), store)
    case TermNumeric => Number(f, DecodeFor(mode.port, t0.src), t0, store)
    case TermProse => Done(SetLeaf(f, Prose(ProseText(t0)), SpanTo(Some(t0), None)), store)
    case TermRef => Done(SetLeaf(f, Reference(t0.val), SpanTo(Some(t0), None)), store)
    case OpenGroup => Bracket(mode, f, t0, InParens, depth, store)
    case OpenOption => Bracket(mode, f, t0, InBrackets, depth, store)
    case CloseGroup => Done(f.(node := GroupV(f.child, SpanTo(f.bag.open, Some(t0)))), store)
    case CloseOption =>
      var bracket := SpanTo(f.bag.open, Some(t0));
      Done(f.(node := WrapV(Opt, GroupV(f.child, bracket), bracket)), store)
  }

  /** The rule under a popped one, its `child` the popped rule's node. */
  function Resume(below: Stack, node: Val, store: Store, rest: seq<Token>): State {
    match below
    case Bottom => Accepted(node, store)
    case Over(f, under) => Running(f.(child := node), under, store, rest)
  }

  /** Where an alternate goes once it has acted. */
  function Go(goto: Goto, f: Frame, below: Stack, store: Store, rest: seq<Token>): State {
    match goto
    case Push(rule) => Running(NewRule(rule, f.node), Over(f.(phase := Close), below), store, rest)
    case Replace(rule) => Running(NewRule(rule, f.node), below, store, rest)
    case Stay => if f.phase == Open then Running(f.(phase := Close), below, store, rest)
                 else Resume(below, f.node, store, rest)
  }

  /** What a rule does once its alternate is known: the hook, the action, and where it goes
      with the tokens left. */
  function Acted(mode: Mode, s: State, goto: Goto, action: Action, left: seq<Token>): State
    requires s.Running?
  {
    var before := Before(s.top, s.store);
    match Act(mode, action, before.0, s.rest, Depth(s.below), before.1)
    case Refused(why) => Failed(why)
    case Done(f, store) => Go(goto, f, s.below, store, left)
  }

  /** One step, by the first alternate that matches. A rule none of whose alternates matches
      ends the parse. */
  function Step(mode: Mode, s: State): State
    requires s.Running?
  {
    match Pick(s.top.rule, s.top.phase, s.rest, s.top.bag.kind)
    case NoMatch => Failed(Unexpected)
    case Chosen(alt) => Acted(mode, s, alt.goto, alt.action, Read(alt, s.rest))
  }
}
