/** A run of the machine ends as the descent does, and its arrays hold the tree that the
    descent's derivation builds. */
module Simulation {
  import opened Strings
  import opened Ports
  import opened Tokens
  import opened MetaGrammar
  import opened Choices
  import opened Engine
  import opened Halting
  import opened Derivations
  import opened Reader
  import opened Steps
  import opened Storage

  lemma {:induction false} SimAtom(mode: Mode, end: State -> State, level: nat, node: Val, below: Stack, store: Store,
                                   rest: seq<Token>)
    returns (v: Val, store': Store)
    requires Follows(mode, end) && Suspended(below) && below.Over? && Depth(below) == 4 * level + 5
    ensures var s := Running(NewRule(ATOM, node), below, store, rest);
            match ReadAtom(mode, level, rest)
            case Fail => end(s).Failed?
            case Got(a, left) =>
              && store <= store' && Holds(store', |store|, v, BuildAtom(mode.port, a))
              && end(s) == end(Resume(below, v, store', left))
    decreases |rest|, 0
  {
    if Is(rest, 0, LP) || Is(rest, 0, OB) {
      v, store' := SimOpened(mode, end, level, node, below, store, rest, ReadAtom(mode, level, rest));
    } else {
      store' := store;
      v := SimTerminal(mode, end, level, node, below, store, rest);
    }
  }

  /** A bracket opens, or stands too deep. */
  lemma {:induction false} SimOpened(mode: Mode, end: State -> State, level: nat, node: Val, below: Stack, store: Store,
                                     rest: seq<Token>, p: Parsed<Atom>)
    returns (v: Val, store': Store)
    requires Follows(mode, end) && Suspended(below) && below.Over? && Depth(below) == 4 * level + 5
    requires Is(rest, 0, LP) || Is(rest, 0, OB)
    requires p == if Refuses(mode, level) then Fail else ReadBracket(mode, level, rest[0], rest[1..])
    ensures var s := Running(NewRule(ATOM, node), below, store, rest);
            match p
            case Fail => end(s).Failed?
            case Got(a, left) =>
              && store <= store' && Holds(store', |store|, v, BuildAtom(mode.port, a))
              && end(s) == end(Resume(below, v, store', left))
    decreases |rest| - 1, 9
  {
    v, store' := Undef, store;
    AtomOpensBracket(mode, end, node, below, store, rest);
    if !Refuses(mode, level) {
      v, store' := SimBracket(mode, end, level, rest[0], below, store, rest[1..]);
    }
  }

  /** An atom without a bracket leaves its terminal and no array. */
  lemma {:induction false} SimTerminal(mode: Mode, end: State -> State, level: nat, node: Val, below: Stack,
                                       store: Store, rest: seq<Token>)
    returns (v: Val)
    requires Follows(mode, end) && Suspended(below)
    requires !Is(rest, 0, LP) && !Is(rest, 0, OB)
    ensures var s := Running(NewRule(ATOM, node), below, store, rest);
            match ReadAtom(mode, level, rest)
            case Fail => end(s).Failed?
            case Got(a, left) =>
              && Holds(store, |store|, v, BuildAtom(mode.port, a))
              && end(s) == end(Resume(below, v, store, left))
  {
    v := Undef;
    AtomOpens(mode, end, node, below, store, rest, level);
    match ReadAtom(mode, level, rest)
    case Fail =>
    case Got(a, left) =>
      var f := Settled(BuildAtom(mode.port, a));
      AtomClosesTerminal(mode, end, f, below, store, left);
      v := f.node;
  }

  lemma {:induction false} SimBracket(mode: Mode, end: State -> State, level: nat, open: Token, below: Stack,
                                      store: Store, rest: seq<Token>)
    returns (v: Val, store': Store)
    requires Follows(mode, end) && Suspended(below) && below.Over? && Depth(below) == 4 * level + 5
    requires open.kind == LP || open.kind == OB
    ensures var s := Running(NewRule(ALTS, Undef), Over(Opened(open), below), store, rest);
            match ReadBracket(mode, level, open, rest)
            case Fail => end(s).Failed?
            case Got(a, left) =>
              && store <= store' && Holds(store', |store|, v, BuildAtom(mode.port, a))
              && end(s) == end(Resume(below, v, store', left))
    decreases |rest|, 8
  {
    var child;
    child, store' := SimAlts(mode, end, level + 1, Undef, Over(Opened(open), below), store, rest);
    v := SimEnclosed(mode, end, open, child, ReadAlts(mode, level + 1, rest), below, |store|, store');
  }

  /** Once its alternatives have popped. */
  lemma {:induction false} SimEnclosed(mode: Mode, end: State -> State, open: Token, child: Val, r: Parsed<Alts>,
                                       below: Stack, lo: nat, store: Store)
    returns (v: Val)
    requires Follows(mode, end) && Suspended(below) && (open.kind == LP || open.kind == OB)
    requires r.Got? ==> HoldsAlts(store, lo, child, BuildAlts(mode.port, r.tree))
    ensures match Enclosed(open, r)
            case Fail => r == Fail
            case Got(a, left) =>
              && Holds(store, lo, v, BuildAtom(mode.port, a))
              && end(Running(Opened(open).(child := child), below, store, r.rest)) == end(Resume(below, v, store, left))
  {
    v := Undef;
    match r
    case Fail =>
    case Got(alts, left) => v := SimClosing(mode, end, open, child, alts, below, lo, store, left);
  }

  /** A bracket closes on its own mate, or gives the token back and leaves nothing. */
  lemma SimClosing(mode: Mode, end: State -> State, open: Token, child: Val, alts: Alts, below: Stack, lo: nat,
                   store: Store,
                   rest: seq<Token>)
    returns (v: Val)
    requires Follows(mode, end) && Suspended(below) && (open.kind == LP || open.kind == OB)
    requires HoldsAlts(store, lo, child, BuildAlts(mode.port, alts))
    ensures var closed := |rest| > 0 && Mates(open.kind, rest[0].kind);
            var atom := Bracket(open, alts, if closed then Some(rest[0]) else None);
            && Holds(store, lo, v, BuildAtom(mode.port, atom))
            && end(Running(Opened(open).(child := child), below, store, rest)) ==
               end(Resume(below, v, store, if closed then rest[1..] else rest))
  {
    AtomClosesBracket(mode, end, open, child, below, store, rest);
    var close := if |rest| > 0 && Mates(open.kind, rest[0].kind) then Some(rest[0]) else None;
    v := BracketNode(open, child, close);
    BracketHolds(mode, store, lo, open, child, alts, close);
  }

  /** The node a bracket leaves stands for the bracket, or for the hole. */
  lemma BracketHolds(mode: Mode, store: Store, lo: nat, open: Token, child: Val, alts: Alts, close: Option<Token>)
    requires HoldsAlts(store, lo, child, BuildAlts(mode.port, alts))
    ensures Holds(store, lo, BracketNode(open, child, close), BuildAtom(mode.port, Bracket(open, alts, close)))
  {
    HoldsGroup(store, lo, child, BuildAlts(mode.port, alts), SpanTo(Some(open), close));
  }

  lemma {:induction false} SimElement(mode: Mode, end: State -> State, level: nat, at: nat, below: Stack,
                                      store: Store, rest: seq<Token>)
    returns (v: Val, store': Store)
    requires Follows(mode, end) && Suspended(below) && below.Over? && Depth(below) == 4 * level + 4 && at < |store|
    ensures var s := Running(NewRule(ELEM, Arr(at)), below, store, rest);
            match ReadElement(mode, level, rest)
            case Fail => end(s).Failed?
            case Got(e, left) =>
              && Pushed(store, store', at, [v]) && Holds(store', |store|, v, BuildElement(mode.port, e))
              && end(s) == end(Resume(below, Arr(at), store', left))
    decreases |rest|, 1
  {
    var (count, n) := ReadCount(rest);
    var f := Counting(Arr(at), count);
    ElemOpens(mode, end, Arr(at), below, store, rest);
    var item, store1 := SimAtom(mode, end, level, Arr(at), Over(f, below), store, rest[n..]);
    v, store' := Undef, store;
    match ReadAtom(mode, level, rest[n..])
    case Fail =>
    case Got(a, left) =>
      var g := f.(child := item);
      v := WrapItem(mode, g.bag.min, g.bag.max, item);
      store' := Append(store1, Arr(at), v);
      ElemCloses(mode, end, g, below, store1, left);
      PushItem(store, store1, at, v, BuildElement(mode.port, Element(count, a)));
  }

  lemma {:induction false} SimSome(mode: Mode, end: State -> State, level: nat, at: nat, f: Frame, below: Stack,
                                   store: Store, rest: seq<Token>)
    returns (vs: seq<Val>, store': Store)
    requires Follows(mode, end) && Suspended(below) && below.Over? && Depth(below) == 4 * level + 3 && at < |store|
    requires f.rule == SEQ && f.phase == Close && f.node == Arr(at)
    ensures var s := Running(NewRule(ELEM, Arr(at)), Over(f, below), store, rest);
            match ReadSome(mode, level, rest)
            case Fail => end(s).Failed?
            case Got(q, left) =>
              && Pushed(store, store', at, vs) && HoldsEach(store', at + 1, vs, BuildSeq(mode.port, q))
              && end(s) == end(Resume(below, Arr(at), store', left))
    decreases |rest|, 2
  {
    var v, store1 := SimElement(mode, end, level, at, Over(f, below), store, rest);
    vs, store' := [], store;
    match ReadElement(mode, level, rest)
    case Fail =>
    case Got(e, left) =>
      var vs1;
      vs1, store' := SimMore(mode, end, level, at, f.(child := Arr(at)), below, store1, left);
      match ReadMore(mode, level, left)
      case Fail =>
      case Got(more, after) =>
        vs := [v] + vs1;
        PushElem(store, store1, store', at, v, BuildElement(mode.port, e), vs1, BuildSeq(mode.port, more));
  }

  lemma {:induction false} SimMore(mode: Mode, end: State -> State, level: nat, at: nat, f: Frame, below: Stack,
                                   store: Store, rest: seq<Token>)
    returns (vs: seq<Val>, store': Store)
    requires Follows(mode, end) && Suspended(below) && below.Over? && Depth(below) == 4 * level + 3 && at < |store|
    requires f.rule == SEQ && f.phase == Close && f.node == Arr(at)
    ensures var s := Running(f, below, store, rest);
            match ReadMore(mode, level, rest)
            case Fail => end(s).Failed?
            case Got(q, left) =>
              && Pushed(store, store', at, vs) && HoldsEach(store', at + 1, vs, BuildSeq(mode.port, q))
              && end(s) == end(Resume(below, Arr(at), store', left))
    decreases |rest|, 3
  {
    SeqCloses(mode, end, f, below, store, rest);
    if SeqStops(rest) || !Starts(rest) {
      vs, store' := [], store;
    } else {
      vs, store' := SimSome(mode, end, level, at, f, below, store, rest);
    }
  }

  lemma {:induction false} SimSeq(mode: Mode, end: State -> State, level: nat, node: Val, below: Stack, store: Store,
                                  rest: seq<Token>)
    returns (store': Store)
    requires Follows(mode, end) && Suspended(below) && below.Over? && Depth(below) == 4 * level + 3
    ensures var s := Running(NewRule(SEQ, node), below, store, rest);
            match ReadSeq(mode, level, rest)
            case Fail => end(s).Failed?
            case Got(q, left) =>
              && store <= store' && HoldsSeq(store', |store|, Arr(|store|), BuildSeq(mode.port, q))
              && end(s) == end(Resume(below, Arr(|store|), store', left))
    decreases |rest|, 5
  {
    var at := |store|;
    var f := NewRule(SEQ, Arr(at)).(phase := Close);
    var start := store + [[]];
    SeqOpens(mode, end, node, below, store, rest);
    store' := start;
    if SeqStops(rest) {
      SeqCloses(mode, end, f, below, start, rest);
    } else {
      store' := SimFullSeq(mode, end, level, f, below, store, start, rest, ReadSome(mode, level, rest));
    }
  }

  lemma {:induction false} SimRow(mode: Mode, end: State -> State, level: nat, at: nat, f: Frame, below: Stack,
                                  store: Store, rest: seq<Token>)
    returns (store': Store)
    requires Follows(mode, end) && Suspended(below) && below.Over? && Depth(below) == 4 * level + 3 && at < |store|
    requires f.rule == SEQ && f.phase == Close && f.node == Arr(at)
    ensures var s := Running(NewRule(ELEM, Arr(at)), Over(f, below), store, rest);
            match ReadSome(mode, level, rest)
            case Fail => end(s).Failed?
            case Got(q, left) =>
              && Filled(store, store', at, BuildSeq(mode.port, q))
              && end(s) == end(Resume(below, Arr(at), store', left))
    decreases |rest|, 3
  {
    var vs;
    vs, store' := SimSome(mode, end, level, at, f, below, store, rest);
  }

  /** A sequence with elements, each pushed onto the array it made. */
  lemma {:induction false} SimFullSeq(mode: Mode, end: State -> State, level: nat, f: Frame, below: Stack, store: Store,
                                      start: Store, rest: seq<Token>, r: Parsed<Seq>)
    returns (store': Store)
    requires Follows(mode, end) && Suspended(below) && below.Over? && Depth(below) == 4 * level + 3
    requires f.rule == SEQ && f.phase == Close && f.node == Arr(|store|) && start == store + [[]]
    requires r == ReadSome(mode, level, rest)
    ensures var s := Running(NewRule(ELEM, Arr(|store|)), Over(f, below), start, rest);
            match r
            case Fail => end(s).Failed?
            case Got(q, left) =>
              && store <= store' && HoldsSeq(store', |store|, Arr(|store|), BuildSeq(mode.port, q))
              && end(s) == end(Resume(below, Arr(|store|), store', left))
    decreases |rest|, 4
  {
    store' := SimRow(mode, end, level, |store|, f, below, start, rest);
    match r
    case Fail =>
    case Got(q, _) => FillSeq(store, start, store', BuildSeq(mode.port, q));
  }

  /** The sequences of an alternation, each pushed onto its array as it returns. */
  lemma {:induction false} SimEachSeq(mode: Mode, end: State -> State, level: nat, at: nat, f: Frame, below: Stack,
                                      store: Store, rest: seq<Token>)
    returns (vs: seq<Val>, store': Store)
    requires Follows(mode, end) && Suspended(below) && below.Over? && Depth(below) == 4 * level + 2 && at < |store|
    requires f.rule == ALTS && f.phase == Close && f.node == Arr(at)
    ensures var s := Running(NewRule(SEQ, Arr(at)), Over(f, below), store, rest);
            match ReadAlts(mode, level, rest)
            case Fail => end(s).Failed?
            case Got(a, left) =>
              && Pushed(store, store', at, vs) && HoldsSeqs(store', at + 1, vs, BuildAlts(mode.port, a))
              && end(s) == end(Resume(below, Arr(at), store', left))
    decreases |rest|, 6
  {
    var id := |store|;
    var store1 := SimSeq(mode, end, level, Arr(at), Over(f, below), store, rest);
    vs, store' := [], store;
    match ReadSeq(mode, level, rest)
    case Fail =>
    case Got(q, left) =>
      var g := f.(child := Arr(id));
      var store2 := Append(store1, Arr(at), Arr(id));
      var ts := BuildSeq(mode.port, q);
      AltsCloses(mode, end, g, below, store1, left);
      PushFreshSeq(store, store1, at, ts);
      if Is(left, 0, ALT) {
        var vs1;
        vs1, store' := SimEachSeq(mode, end, level, at, g, below, store2, left[1..]);
        match ReadAlts(mode, level, left[1..])
        case Fail =>
        case Got(more, after) =>
          vs := [Arr(id)] + vs1;
          PushSeq(store, store2, store', at, Arr(id), ts, vs1, BuildAlts(mode.port, more));
      } else {
        vs, store' := [Arr(id)], store2;
      }
  }

  lemma {:induction false} SimAlts(mode: Mode, end: State -> State, level: nat, node: Val, below: Stack, store: Store,
                                   rest: seq<Token>)
    returns (v: Val, store': Store)
    requires Follows(mode, end) && Suspended(below) && below.Over? && Depth(below) == 4 * level + 2
    ensures var s := Running(NewRule(ALTS, node), below, store, rest);
            match ReadAlts(mode, level, rest)
            case Fail => end(s).Failed?
            case Got(a, left) =>
              && store <= store' && v != Undef && HoldsAlts(store', |store|, v, BuildAlts(mode.port, a))
              && end(s) == end(Resume(below, v, store', left))
    decreases |rest|, 7
  {
    var at := |store|;
    var f := NewRule(ALTS, Arr(at)).(phase := Close);
    AltsOpens(mode, end, node, below, store, rest);
    var vs;
    v := Arr(at);
    vs, store' := SimEachSeq(mode, end, level, at, f, below, store + [[]], rest);
    match ReadAlts(mode, level, rest)
    case Fail =>
    case Got(a, left) =>
      FillAlts(store, store', vs, BuildAlts(mode.port, a));
  }

  /** One production: its rule is pushed as its alternatives return. */
  lemma {:induction false} SimProduction(mode: Mode, end: State -> State, f: Frame, store: Store, rest: seq<Token>)
    returns (v: Val, store': Store)
    requires Follows(mode, end) && f.rule == ABNF && f.phase == Close && |store| > 0 && AtHeader(rest)
    ensures var s := Running(NewRule(PROD, Arr(0)), Over(f, Bottom), store, rest);
            match ReadAlts(mode, 0, rest[2..])
            case Fail => end(s).Failed?
            case Got(alts, left) =>
              && Pushed(store, store', 0, [v])
              && HoldsRule(store', 1, v, BuildProduction(mode.port, Production(rest[0], rest[1], alts)))
              && end(s) == end(if AtHeader(left) then Running(NewRule(PROD, Arr(0)), Over(f, Bottom), store', left)
                               else Resume(Over(f, Bottom), Arr(0), store', left))
  {
    var g := Named(Arr(0), rest[0], rest[1]);
    ProdOpens(mode, end, Arr(0), Over(f, Bottom), store, rest);
    assert Depth(Over(f, Bottom)) == 1;
    var child, store1 := SimAlts(mode, end, 0, Arr(0), Over(g, Over(f, Bottom)), store, rest[2..]);
    v, store' := Undef, store;
    match ReadAlts(mode, 0, rest[2..])
    case Fail =>
    case Got(alts, left) =>
      v := RuleV(g.bag.name, child, g.bag.incremental, SpanTo(g.bag.nameTok, None));
      store' := Append(store1, Arr(0), v);
      ProdCloses(mode, end, g.(child := child), Over(f, Bottom), store1, left);
      PushFreshRule(store, store1, 0, v, BuildProduction(mode.port, Production(rest[0], rest[1], alts)));
  }

  lemma {:induction false} NextProduction(mode: Mode, rest: seq<Token>, alts: Alts, left: seq<Token>)
    requires AtHeader(rest) && ReadAlts(mode, 0, rest[2..]) == Got(alts, left)
    ensures var p := Production(rest[0], rest[1], alts);
            if !AtHeader(left) then ReadProductions(mode, rest) == Got([p], left)
            else match ReadProductions(mode, left)
              case Fail => ReadProductions(mode, rest) == Fail
              case Got(more, after) => ReadProductions(mode, rest) == Got([p] + more, after)
  {
    if !AtHeader(left) {
      assert ReadProductions(mode, left) == Got([], left);
      assert [Production(rest[0], rest[1], alts)] + [] == [Production(rest[0], rest[1], alts)];
    }
  }

  lemma BuildCons(port: Port, p: Production, more: seq<Production>)
    ensures Build(port, [p]) == [BuildProduction(port, p)]
    ensures Build(port, [p] + more) == [BuildProduction(port, p)] + Build(port, more)
  {
  }

  /** One production's array, and those after it, are the list's. */
  lemma MoreProductions(mode: Mode, store: Store, store1: Store, store': Store, rest: seq<Token>, alts: Alts,
                        left: seq<Token>, v: Val, vs: seq<Val>, more: seq<Production>, after: seq<Token>)
    requires AtHeader(rest) && ReadAlts(mode, 0, rest[2..]) == Got(alts, left) && AtHeader(left)
    requires |store| > 0 && Pushed(store, store1, 0, [v])
    requires HoldsRule(store1, 1, v, BuildProduction(mode.port, Production(rest[0], rest[1], alts)))
    requires ReadProductions(mode, left) == Got(more, after)
    requires Pushed(store1, store', 0, vs) && HoldsRules(store', 1, vs, Build(mode.port, more))
    ensures var ps := [Production(rest[0], rest[1], alts)] + more;
            && ReadProductions(mode, rest) == Got(ps, after)
            && Pushed(store, store', 0, [v] + vs) && HoldsRules(store', 1, [v] + vs, Build(mode.port, ps))
  {
    var p := Production(rest[0], rest[1], alts);
    NextProduction(mode, rest, alts, left);
    PushRule(store, store1, store', 0, v, BuildProduction(mode.port, p), vs, Build(mode.port, more));
    BuildCons(mode.port, p, more);
  }

  lemma {:induction false} SimProductions(mode: Mode, end: State -> State, f: Frame, store: Store, rest: seq<Token>)
    returns (vs: seq<Val>, store': Store)
    requires Follows(mode, end) && f.rule == ABNF && f.phase == Close && |store| > 0 && AtHeader(rest)
    ensures var s := Running(NewRule(PROD, Arr(0)), Over(f, Bottom), store, rest);
            match ReadProductions(mode, rest)
            case Fail => end(s).Failed?
            case Got(ps, left) =>
              && Pushed(store, store', 0, vs) && HoldsRules(store', 1, vs, Build(mode.port, ps))
              && end(s) == end(Resume(Over(f, Bottom), Arr(0), store', left))
    decreases |rest|
  {
    var v, store1 := SimProduction(mode, end, f, store, rest);
    vs, store' := [v], store1;
    match ReadAlts(mode, 0, rest[2..])
    case Fail =>
    case Got(alts, left) =>
      NextProduction(mode, rest, alts, left);
      if !AtHeader(left) {
        BuildCons(mode.port, Production(rest[0], rest[1], alts), []);
      } else {
        var vs1;
        vs1, store' := SimProductions(mode, end, f, store1, left);
        match ReadProductions(mode, left)
        case Fail =>
        case Got(more, after) =>
          vs := [v] + vs1;
          MoreProductions(mode, store, store1, store', rest, alts, left, v, vs1, more, after);
      }
  }

  /** For every token sequence and every port's machine: a run is accepted exactly when the
      descent reads the tokens, and its node is then the tree of what was read. */
  lemma {:induction false} RunMeans(mode: Mode, tokens: seq<Token>)
    ensures var e := Final(mode, Init(tokens));
            match ReadAll(mode, tokens)
            case None => e.Failed?
            case Some(ps) => e.Accepted? && HoldsGrammar(e.store, e.node, Build(mode.port, ps))
  {
    var end := Outcome(mode);
    OutcomeFollows(mode);
    AbnfOpens(mode, end, tokens);
    var f := NewRule(ABNF, Arr(0)).(phase := Close);
    if tokens == [] {
      AbnfCloses(mode, end, f, [[]], []);
    } else if AtHeader(tokens) {
      var vs, store' := SimProductions(mode, end, f, [[]], tokens);
      match ReadProductions(mode, tokens)
      case Fail =>
      case Got(ps, left) =>
        AbnfCloses(mode, end, f.(child := Arr(0)), store', left);
        KeepsRules(store', 1, store', 0, vs, Build(mode.port, ps));
        assert store'[0] == vs;
    } else {
      ProdOpens(mode, end, Arr(0), Over(f, Bottom), [[]], tokens);
    }
  }
}
