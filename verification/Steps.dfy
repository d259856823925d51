/** The machine's steps, rule by rule: each lemma says which state a rule leads to, whose
    run ends as the rule's own does. */
module Steps {
  import opened Strings
  import opened Ports
  import opened Numeric
  import opened Tokens
  import opened Ast
  import opened MetaGrammar
  import opened Choices
  import opened Engine
  import opened Halting
  import opened Derivations
  import opened Reader

  /** What a rule does with `n` tokens read. */
  function Doing(mode: Mode, s: State, n: nat, goto: Goto, action: Action): State
    requires s.Running?
  {
    Acted(mode, s, goto, action, Drop(s.rest, n))
  }

  lemma Taken(mode: Mode, end: State -> State, s: State, n: nat, goto: Goto, action: Action)
    requires Follows(mode, end) && s.Running? && Ready(s)
    requires Does(Pick(s.top.rule, s.top.phase, s.rest, s.top.bag.kind), n, goto, action)
    ensures end(s) == end(Doing(mode, s, n, goto, action))
  {
    StepIs(mode, s, Pick(s.top.rule, s.top.phase, s.rest, s.top.bag.kind), n, goto, action);
  }

  lemma StepIs(mode: Mode, s: State, c: Choice, n: nat, goto: Goto, action: Action)
    requires s.Running? && c == Pick(s.top.rule, s.top.phase, s.rest, s.top.bag.kind) && Does(c, n, goto, action)
    ensures Step(mode, s) == Doing(mode, s, n, goto, action)
  {
    assert Read(c.alt, s.rest) == Drop(s.rest, n);
  }

  /** The same for an alternate that reads nothing and only goes on. */
  lemma Passed(mode: Mode, end: State -> State, s: State, goto: Goto)
    requires Follows(mode, end) && s.Running? && Ready(s)
    requires Looks(Pick(s.top.rule, s.top.phase, s.rest, s.top.bag.kind), goto)
    ensures end(s) == end(Go(goto, Before(s.top, s.store).0, s.below, Before(s.top, s.store).1, s.rest))
  {
    assert Step(mode, s) == Go(goto, Before(s.top, s.store).0, s.below, Before(s.top, s.store).1, s.rest);
  }

  lemma Stuck(mode: Mode, end: State -> State, s: State)
    requires Follows(mode, end) && s.Running? && Ready(s)
    requires Pick(s.top.rule, s.top.phase, s.rest, s.top.bag.kind) == NoMatch
    ensures end(s).Failed?
  {
    assert Step(mode, s) == Failed(Unexpected);
  }

  // ---- elem

  /** An element waiting for its atom. */
  function Counting(node: Val, count: Count): Frame {
    Counts(NewRule(ELEM, node), Bounds(count).0, Bounds(count).1).(phase := Close)
  }

  /** The action a repetition prefix is read with. */
  function CountAction(count: Count): Action {
    match count
    case One => Nothing
    case Exactly(_) => CountExact
    case AtLeast(_, _) => CountAtLeast
    case AtMost(_, _) => CountAtMost
    case Any(_) => CountAny
    case Between(_, _, _) => CountBetween
  }

  lemma CountPicked(rest: seq<Token>, c: Choice, count: Count, n: nat)
    requires CountChoice(rest, c) && (count, n) == ReadCount(rest)
    ensures if count.One? then Looks(c, Push(ATOM)) && n == 0 else Does(c, n, Push(ATOM), CountAction(count))
  {
  }

  lemma {:induction false} CountActs(mode: Mode, f: Frame, depth: nat, store: Store, rest: seq<Token>, count: Count,
                                     tail: seq<Token>)
    requires CountOnto(count, tail) == rest && !count.One?
    ensures Act(mode, CountAction(count), f, rest, depth, store) ==
            Done(Counts(f, Bounds(count).0, Bounds(count).1), store)
  {
    match count
    case Exactly(n) => assert rest[0] == n;
    case AtLeast(n, star) => assert rest[0] == n;
    case AtMost(star, n) => assert rest[1] == n;
    case Any(_) =>
    case Between(n, star, m) => assert rest[0] == n && rest[2] == m;
  }

  lemma {:induction false} CountDoes(mode: Mode, node: Val, below: Stack, store: Store, rest: seq<Token>,
                                     count: Count, n: nat)
    requires (count, n) == ReadCount(rest) && !count.One?
    ensures Doing(mode, Running(NewRule(ELEM, node), below, store, rest), n, Push(ATOM), CountAction(count)) ==
            Running(NewRule(ATOM, node), Over(Counting(node, count), below), store, rest[n..])
  {
    var f := Counts(NewRule(ELEM, node), 1, Fin(1));
    assert Before(NewRule(ELEM, node), store) == (f, store);
    CountActs(mode, f, Depth(below), store, rest, count, rest[n..]);
  }

  /** An element counts its atom with the repetition prefix it opens on. */
  lemma ElemOpens(mode: Mode, end: State -> State, node: Val, below: Stack, store: Store, rest: seq<Token>)
    requires Follows(mode, end) && Suspended(below)
    ensures var (count, n) := ReadCount(rest);
            end(Running(NewRule(ELEM, node), below, store, rest)) ==
            end(Running(NewRule(ATOM, node), Over(Counting(node, count), below), store, rest[n..]))
  {
    var f := NewRule(ELEM, node);
    var (count, n) := ReadCount(rest);
    AtElem(f.rule, f.phase, rest, f.bag.kind);
    CountPicked(rest, Pick(f.rule, f.phase, rest, f.bag.kind), count, n);
    if count.One? {
      Passed(mode, end, Running(f, below, store, rest), Push(ATOM));
    } else {
      CountDoes(mode, node, below, store, rest, count, n);
      Taken(mode, end, Running(f, below, store, rest), n, Push(ATOM), CountAction(count));
    }
  }

  lemma ElemCloses(mode: Mode, end: State -> State, f: Frame, below: Stack, store: Store, rest: seq<Token>)
    requires Follows(mode, end) && Suspended(below)
    requires f.rule == ELEM && f.phase == Close
    ensures end(Running(f, below, store, rest)) ==
            end(Resume(below, f.node, Append(store, f.node, WrapItem(mode, f.bag.min, f.bag.max, f.child)), rest))
  {
    AtElem(f.rule, f.phase, rest, f.bag.kind);
    Taken(mode, end, Running(f, below, store, rest), 0, Stay, CloseElem);
  }

  // ---- atom

  /** An atom of one or two tokens, its node set, waiting to pop. */
  function Settled(t: Elem): Frame
    requires t.Lit?
  {
    NewRule(ATOM, LitV(t.leaf, t.sp)).(phase := Close)
  }

  function MarkedAction(mark: Token): Action { if mark.kind == SS then TermExact else TermFolded }

  lemma MarkedDoes(mode: Mode, node: Val, below: Stack, store: Store, rest: seq<Token>)
    requires Is(rest, 0, SS) || Is(rest, 0, SI)
    requires Is(rest, 1, ST)
    ensures Doing(mode, Running(NewRule(ATOM, node), below, store, rest), 2, Stay, MarkedAction(rest[0])) ==
            Running(Settled(BuildAtom(mode.port, Marked(rest[0], rest[1]))), below, store, rest[2..])
  {
  }

  lemma AtomOpensMarked(mode: Mode, end: State -> State, node: Val, below: Stack, store: Store, rest: seq<Token>)
    requires Follows(mode, end) && Suspended(below)
    requires Is(rest, 0, SS) || Is(rest, 0, SI)
    requires Is(rest, 1, ST)
    ensures end(Running(NewRule(ATOM, node), below, store, rest)) ==
            end(Running(Settled(BuildAtom(mode.port, Marked(rest[0], rest[1]))), below, store, rest[2..]))
  {
    var f := NewRule(ATOM, node);
    AtAtomOpen(f.rule, f.phase, rest, f.bag.kind);
    MarkedDoes(mode, node, below, store, rest);
    Taken(mode, end, Running(f, below, store, rest), 2, Stay, MarkedAction(rest[0]));
  }

  /** The action a string, prose or a name is read with. */
  function LeafAction(t: Token): Action {
    match t.kind
    case ST => TermBare
    case PV => TermProse
    case _ => TermRef
  }

  lemma LeafPicked(rest: seq<Token>, c: Choice)
    requires AtomChoice(rest, c)
    requires Is(rest, 0, ST) || Is(rest, 0, PV) || Is(rest, 0, TX)
    ensures Does(c, 1, Stay, LeafAction(rest[0]))
  {
  }

  lemma LeafDoes(mode: Mode, node: Val, below: Stack, store: Store, rest: seq<Token>)
    requires Is(rest, 0, ST) || Is(rest, 0, PV) || Is(rest, 0, TX)
    ensures Doing(mode, Running(NewRule(ATOM, node), below, store, rest), 1, Stay, LeafAction(rest[0])) ==
            Running(Settled(BuildAtom(mode.port, Simple(rest[0]))), below, store, rest[1..])
  {
  }

  lemma AtomOpensLeaf(mode: Mode, end: State -> State, node: Val, below: Stack, store: Store, rest: seq<Token>)
    requires Follows(mode, end) && Suspended(below)
    requires Is(rest, 0, ST) || Is(rest, 0, PV) || Is(rest, 0, TX)
    ensures end(Running(NewRule(ATOM, node), below, store, rest)) ==
            end(Running(Settled(BuildAtom(mode.port, Simple(rest[0]))), below, store, rest[1..]))
  {
    var f := NewRule(ATOM, node);
    AtAtomOpen(f.rule, f.phase, rest, f.bag.kind);
    LeafPicked(rest, Pick(f.rule, f.phase, rest, f.bag.kind));
    LeafDoes(mode, node, below, store, rest);
    Taken(mode, end, Running(f, below, store, rest), 1, Stay, LeafAction(rest[0]));
  }

  /** What the numeric action makes of a value's element, or of one out of range. */
  function NumericLeft(leaf: Option<Leaf>, below: Stack, store: Store, t: Token, left: seq<Token>): State {
    match leaf
    case None => Failed(BadNumber)
    case Some(l) =>
      Running(SetLeaf(NewRule(ATOM, Undef), l, SpanTo(Some(t), None)).(phase := Close), below, store, left)
  }

  lemma NumericActs(mode: Mode, f: Frame, t: Token, rest: seq<Token>, depth: nat, store: Store)
    requires t == Tok(rest, 0)
    ensures Act(mode, TermNumeric, f, rest, depth, store) == Number(f, DecodeFor(mode.port, t.src), t, store)
  {
  }

  lemma TermNumericDoes(mode: Mode, node: Val, below: Stack, store: Store, rest: seq<Token>, leaf: Option<Leaf>)
    requires Is(rest, 0, NV) && leaf == DecodeFor(mode.port, rest[0].src)
    ensures Doing(mode, Running(NewRule(ATOM, node), below, store, rest), 1, Stay, TermNumeric) ==
            NumericLeft(leaf, below, store, rest[0], rest[1..])
  {
    NumericActs(mode, NewRule(ATOM, Undef), rest[0], rest, Depth(below), store);
  }

  lemma NumberTaken(mode: Mode, end: State -> State, node: Val, below: Stack, store: Store, rest: seq<Token>,
                    leaf: Option<Leaf>)
    requires Follows(mode, end) && Suspended(below)
    requires Is(rest, 0, NV) && leaf == DecodeFor(mode.port, rest[0].src)
    ensures end(Running(NewRule(ATOM, node), below, store, rest)) ==
            end(NumericLeft(leaf, below, store, rest[0], rest[1..]))
  {
    var f := NewRule(ATOM, node);
    AtAtomOpen(f.rule, f.phase, rest, f.bag.kind);
    TermNumericDoes(mode, node, below, store, rest, leaf);
    Taken(mode, end, Running(f, below, store, rest), 1, Stay, TermNumeric);
  }

  lemma AtomOpensNumber(mode: Mode, end: State -> State, node: Val, below: Stack, store: Store, rest: seq<Token>)
    requires Follows(mode, end) && Suspended(below)
    requires Is(rest, 0, NV)
    ensures DecodeFor(mode.port, rest[0].src).None? ==> end(Running(NewRule(ATOM, node), below, store, rest)).Failed?
    ensures DecodeFor(mode.port, rest[0].src).Some? ==>
              end(Running(NewRule(ATOM, node), below, store, rest)) ==
              end(Running(Settled(BuildAtom(mode.port, Simple(rest[0]))), below, store, rest[1..]))
  {
    NumberTaken(mode, end, node, below, store, rest, DecodeFor(mode.port, rest[0].src));
  }

  lemma AtomOpensNothing(mode: Mode, end: State -> State, node: Val, below: Stack, store: Store, rest: seq<Token>)
    requires Follows(mode, end) && Suspended(below)
    requires !AtomAt(rest, 0) || ((Is(rest, 0, SS) || Is(rest, 0, SI)) && !Is(rest, 1, ST))
    ensures end(Running(NewRule(ATOM, node), below, store, rest)).Failed?
  {
    var f := NewRule(ATOM, node);
    AtAtomOpen(f.rule, f.phase, rest, f.bag.kind);
    Stuck(mode, end, Running(f, below, store, rest));
  }

  /** What the descent reads of a terminal. */
  function Terminal(port: Port, rest: seq<Token>): Parsed<Atom> {
    if Is(rest, 0, ST) || Is(rest, 0, PV) || Is(rest, 0, TX) || (Is(rest, 0, NV) && DecodeFor(port, rest[0].src).Some?)
    then Got(Simple(rest[0]), rest[1..])
    else if (Is(rest, 0, SS) || Is(rest, 0, SI)) && Is(rest, 1, ST) then Got(Marked(rest[0], rest[1]), rest[2..])
    else Fail
  }

  lemma ReadsTerminal(mode: Mode, level: nat, rest: seq<Token>)
    requires !Is(rest, 0, LP) && !Is(rest, 0, OB)
    ensures ReadAtom(mode, level, rest) == Terminal(mode.port, rest)
  {
  }

  lemma {:induction false} TerminalOpens(mode: Mode, end: State -> State, node: Val, below: Stack, store: Store,
                                         rest: seq<Token>)
    requires Follows(mode, end) && Suspended(below)
    requires !Is(rest, 0, LP) && !Is(rest, 0, OB)
    ensures var s := Running(NewRule(ATOM, node), below, store, rest);
            match Terminal(mode.port, rest)
            case Fail => end(s).Failed?
            case Got(a, left) => end(s) == end(Running(Settled(BuildAtom(mode.port, a)), below, store, left))
  {
    if Is(rest, 0, ST) || Is(rest, 0, PV) || Is(rest, 0, TX) {
      AtomOpensLeaf(mode, end, node, below, store, rest);
    } else if Is(rest, 0, NV) {
      AtomOpensNumber(mode, end, node, below, store, rest);
    } else if (Is(rest, 0, SS) || Is(rest, 0, SI)) && Is(rest, 1, ST) {
      AtomOpensMarked(mode, end, node, below, store, rest);
    } else {
      AtomOpensNothing(mode, end, node, below, store, rest);
    }
  }

  /** A terminal atom opens as the descent reads it. */
  lemma {:induction false} AtomOpens(mode: Mode, end: State -> State, node: Val, below: Stack, store: Store,
                                     rest: seq<Token>, level: nat)
    requires Follows(mode, end) && Suspended(below)
    requires !Is(rest, 0, LP) && !Is(rest, 0, OB)
    ensures var s := Running(NewRule(ATOM, node), below, store, rest);
            match ReadAtom(mode, level, rest)
            case Fail => end(s).Failed?
            case Got(a, left) =>
              var t := BuildAtom(mode.port, a);
              t.Lit? && end(s) == end(Running(Settled(t), below, store, left))
  {
    ReadsTerminal(mode, level, rest);
    TerminalOpens(mode, end, node, below, store, rest);
  }

  function BracketKind(t: Token): GroupKind {
    if t.kind == LP then InParens else InBrackets
  }

  /** An atom whose bracket has opened. */
  function Opened(t: Token): Frame {
    NewRule(ATOM, Undef).(phase := Close, bag := EMPTY_BAG.(kind := BracketKind(t), open := Some(t)))
  }

  function Opening(mode: Mode, below: Stack, store: Store, rest: seq<Token>): State
    requires rest != []
  {
    if mode.maxDepth.Some? && mode.maxDepth.value < Depth(below) then Failed(TooDeep)
    else Running(NewRule(ALTS, Undef), Over(Opened(rest[0]), below), store, rest[1..])
  }

  function OpenAction(t: Token): Action { if t.kind == LP then OpenGroup else OpenOption }

  lemma OpenDoes(mode: Mode, node: Val, below: Stack, store: Store, rest: seq<Token>)
    requires Is(rest, 0, LP) || Is(rest, 0, OB)
    ensures Doing(mode, Running(NewRule(ATOM, node), below, store, rest), 1, Push(ALTS), OpenAction(rest[0])) ==
            Opening(mode, below, store, rest)
  {
  }

  lemma AtomOpensBracket(mode: Mode, end: State -> State, node: Val, below: Stack, store: Store, rest: seq<Token>)
    requires Follows(mode, end) && Suspended(below)
    requires Is(rest, 0, LP) || Is(rest, 0, OB)
    ensures end(Running(NewRule(ATOM, node), below, store, rest)) == end(Opening(mode, below, store, rest))
  {
    var f := NewRule(ATOM, node);
    AtAtomOpen(f.rule, f.phase, rest, f.bag.kind);
    OpenDoes(mode, node, below, store, rest);
    Taken(mode, end, Running(f, below, store, rest), 1, Push(ALTS), OpenAction(rest[0]));
  }

  lemma AtomClosesTerminal(mode: Mode, end: State -> State, f: Frame, below: Stack, store: Store, rest: seq<Token>)
    requires Follows(mode, end) && Suspended(below)
    requires f.rule == ATOM && f.phase == Close && f.bag.kind == NoGroup
    ensures end(Running(f, below, store, rest)) == end(Resume(below, f.node, store, rest))
  {
    AtAtomClose(f.rule, f.phase, rest, f.bag.kind);
    Passed(mode, end, Running(f, below, store, rest), Stay);
  }

  /** The node a bracket leaves: nothing unless its own mate is next. */
  function BracketNode(open: Token, child: Val, close: Option<Token>): Val {
    if close.None? then Undef
    else
      var sp := SpanTo(Some(open), close);
      if open.kind == LP then GroupV(child, sp) else WrapV(Opt, GroupV(child, sp), sp)
  }

  function Closing(open: Token, child: Val, below: Stack, store: Store, rest: seq<Token>): State {
    if |rest| > 0 && Mates(open.kind, rest[0].kind)
    then Resume(below, BracketNode(open, child, Some(rest[0])), store, rest[1..])
    else Resume(below, Undef, store, rest)
  }

  function CloseAction(open: Token): Action { if open.kind == LP then CloseGroup else CloseOption }

  lemma CloseDoes(mode: Mode, open: Token, child: Val, below: Stack, store: Store, rest: seq<Token>)
    requires |rest| > 0 && Mates(open.kind, rest[0].kind)
    ensures Doing(mode, Running(Opened(open).(child := child), below, store, rest), 1, Stay, CloseAction(open)) ==
            Closing(open, child, below, store, rest)
  {
  }

  lemma AtomClosesBracket(mode: Mode, end: State -> State, open: Token, child: Val, below: Stack, store: Store,
                          rest: seq<Token>)
    requires Follows(mode, end) && Suspended(below)
    requires open.kind == LP || open.kind == OB
    ensures end(Running(Opened(open).(child := child), below, store, rest)) ==
            end(Closing(open, child, below, store, rest))
  {
    var f := Opened(open).(child := child);
    AtAtomClose(f.rule, f.phase, rest, f.bag.kind);
    if |rest| > 0 && Mates(open.kind, rest[0].kind) {
      CloseDoes(mode, open, child, below, store, rest);
      Taken(mode, end, Running(f, below, store, rest), 1, Stay, CloseAction(open));
    } else {
      Passed(mode, end, Running(f, below, store, rest), Stay);
    }
  }

  // ---- seq and alts

  lemma SeqOpens(mode: Mode, end: State -> State, node: Val, below: Stack, store: Store, rest: seq<Token>)
    requires Follows(mode, end) && Suspended(below)
    ensures var f := NewRule(SEQ, Arr(|store|)).(phase := Close);
            end(Running(NewRule(SEQ, node), below, store, rest)) ==
            end(if SeqStops(rest) then Running(f, below, store + [[]], rest)
                else Running(NewRule(ELEM, Arr(|store|)), Over(f, below), store + [[]], rest))
  {
    var f := NewRule(SEQ, node);
    AtSeq(f.rule, f.phase, rest, f.bag.kind);
    if SeqStops(rest) {
      Passed(mode, end, Running(f, below, store, rest), Stay);
    } else {
      Passed(mode, end, Running(f, below, store, rest), Push(ELEM));
    }
  }

  lemma SeqCloses(mode: Mode, end: State -> State, f: Frame, below: Stack, store: Store, rest: seq<Token>)
    requires Follows(mode, end) && Suspended(below)
    requires f.rule == SEQ && f.phase == Close
    ensures end(Running(f, below, store, rest)) ==
            end(if SeqStops(rest) || !Starts(rest) then Resume(below, f.node, store, rest)
                else Running(NewRule(ELEM, f.node), Over(f, below), store, rest))
  {
    AtSeq(f.rule, f.phase, rest, f.bag.kind);
    Passed(mode, end, Running(f, below, store, rest), if SeqStops(rest) || !Starts(rest) then Stay else Push(ELEM));
  }

  lemma AltsOpens(mode: Mode, end: State -> State, node: Val, below: Stack, store: Store, rest: seq<Token>)
    requires Follows(mode, end) && Suspended(below)
    ensures var f := NewRule(ALTS, Arr(|store|)).(phase := Close);
            end(Running(NewRule(ALTS, node), below, store, rest)) ==
            end(Running(NewRule(SEQ, Arr(|store|)), Over(f, below), store + [[]], rest))
  {
    var f := NewRule(ALTS, node);
    AtAlts(f.rule, f.phase, rest, f.bag.kind);
    Passed(mode, end, Running(f, below, store, rest), Push(SEQ));
  }

  lemma AltsCloses(mode: Mode, end: State -> State, f: Frame, below: Stack, store: Store, rest: seq<Token>)
    requires Follows(mode, end) && Suspended(below)
    requires f.rule == ALTS && f.phase == Close && f.child != Undef
    ensures var store' := Append(store, f.node, f.child);
            end(Running(f, below, store, rest)) ==
            end(if Is(rest, 0, ALT) then Running(NewRule(SEQ, f.node), Over(f, below), store', rest[1..])
                else Resume(below, f.node, store', rest))
  {
    AtAlts(f.rule, f.phase, rest, f.bag.kind);
    if Is(rest, 0, ALT) {
      Taken(mode, end, Running(f, below, store, rest), 1, Push(SEQ), Nothing);
    } else {
      Passed(mode, end, Running(f, below, store, rest), Stay);
    }
  }

  // ---- prod and abnf

  /** The production a header names, waiting for its alternatives. */
  function Named(node: Val, name: Token, op: Token): Frame {
    Name(NewRule(PROD, node).(phase := Close), name, if name.kind == PV then name.src else name.val, op.kind == DEFA)
  }

  function HeaderAction(name: Token, op: Token): Action {
    if op.kind == DEFA then NameMore else if name.kind == PV then NameProse else NameProd
  }

  lemma HeaderDoes(mode: Mode, node: Val, below: Stack, store: Store, rest: seq<Token>)
    requires AtHeader(rest)
    ensures Doing(mode, Running(NewRule(PROD, node), below, store, rest), 2, Push(ALTS),
                  HeaderAction(rest[0], rest[1])) ==
            Running(NewRule(ALTS, node), Over(Named(node, rest[0], rest[1]), below), store, rest[2..])
  {
  }

  lemma ProdOpens(mode: Mode, end: State -> State, node: Val, below: Stack, store: Store, rest: seq<Token>)
    requires Follows(mode, end) && Suspended(below)
    ensures var s := Running(NewRule(PROD, node), below, store, rest);
            if AtHeader(rest)
            then
              end(s) == end(Running(NewRule(ALTS, node), Over(Named(node, rest[0], rest[1]), below), store, rest[2..]))
            else end(s).Failed?
  {
    var f := NewRule(PROD, node);
    var s := Running(f, below, store, rest);
    AtProd(f.rule, f.phase, rest, f.bag.kind);
    if AtHeader(rest) {
      HeaderDoes(mode, node, below, store, rest);
      Taken(mode, end, s, 2, Push(ALTS), HeaderAction(rest[0], rest[1]));
    } else {
      Stuck(mode, end, s);
    }
  }

  lemma ProdCloses(mode: Mode, end: State -> State, f: Frame, below: Stack, store: Store, rest: seq<Token>)
    requires Follows(mode, end) && Suspended(below)
    requires f.rule == PROD && f.phase == Close && f.child != Undef
    ensures var store' := Append(store, f.node,
              RuleV(f.bag.name, f.child, f.bag.incremental, SpanTo(f.bag.nameTok, None)));
            end(Running(f, below, store, rest)) ==
            end(if AtHeader(rest) then Running(NewRule(PROD, f.node), below, store', rest)
                else Resume(below, f.node, store', rest))
  {
    AtProd(f.rule, f.phase, rest, f.bag.kind);
    Passed(mode, end, Running(f, below, store, rest), if AtHeader(rest) then Replace(PROD) else Stay);
  }

  lemma AbnfOpens(mode: Mode, end: State -> State, tokens: seq<Token>)
    requires Follows(mode, end)
    ensures var f := NewRule(ABNF, Arr(0)).(phase := Close);
            end(Init(tokens)) ==
            end(if tokens == [] then Running(f, Bottom, [[]], [])
                else Running(NewRule(PROD, Arr(0)), Over(f, Bottom), [[]], tokens))
  {
    var s := Init(tokens);
    assert s.store + [[]] == [[]];
    AtAbnf(s.top.rule, s.top.phase, tokens, s.top.bag.kind);
    if tokens == [] {
      Taken(mode, end, s, 1, Stay, Nothing);
    } else {
      Passed(mode, end, s, Push(PROD));
    }
  }

  lemma AbnfCloses(mode: Mode, end: State -> State, f: Frame, store: Store, rest: seq<Token>)
    requires Follows(mode, end)
    requires f.rule == ABNF && f.phase == Close
    ensures if rest == [] then end(Running(f, Bottom, store, rest)) == Accepted(f.node, store)
            else end(Running(f, Bottom, store, rest)).Failed?
  {
    var s := Running(f, Bottom, store, rest);
    AtAbnf(f.rule, f.phase, rest, f.bag.kind);
    if rest == [] {
      Taken(mode, end, s, 1, Stay, Nothing);
    } else {
      Stuck(mode, end, s);
    }
  }
}
