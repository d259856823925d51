/** The brackets a run leaves open: an atom that gives a token back for want of its mate
    leaves exactly one, and its hole is found. */
module GiveBacks {
  import opened Ports
  import opened Tokens
  import opened Ast
  import opened MetaGrammar
  import opened Choices
  import opened Engine
  import opened Halting
  import opened Derivations
  import opened Reader
  import opened Grammar
  import opened Holes
  import opened Depths
  import opened Parsing

  // ---- brackets among tokens

  /** What a token does to the number of brackets open. */
  function Turn(k: Kind): int {
    if k == LP || k == OB then 1 else if k == RP || k == CB then -1 else 0
  }

  /** The opening tokens less the closing ones. */
  function Balance(ts: seq<Token>): int {
    if ts == [] then 0 else Turn(ts[0].kind) + Balance(ts[1..])
  }

  /** Tokens that are no brackets can be left off. */
  lemma {:induction false} BalanceDrop(ts: seq<Token>, n: nat)
    requires n <= |ts| && forall i :: 0 <= i < n ==> Turn(ts[i].kind) == 0
    ensures Balance(ts[n..]) == Balance(ts)
    decreases n
  {
    if n > 0 {
      BalanceDrop(ts[1..], n - 1);
      assert ts[1..][n - 1..] == ts[n..];
    } else {
      assert ts[0..] == ts;
    }
  }

  // ---- brackets of a state

  /** A bracket that has opened and whose alternatives have popped. */
  predicate OpenAtom(f: Frame) { f.rule == ATOM && f.phase == Close && f.bag.kind != NoGroup }

  /** The brackets still open in a running state, and those among the tokens left. */
  function Standing(s: State): int {
    if s.Running? then Balance(s.rest) + OpenBrackets(s.below) + (if OpenAtom(s.top) then 1 else 0) else 0
  }

  /** A bracket's atom about to pop through the alternate that gives the next token back. */
  predicate GivesBack(s: State) {
    s.Running? && OpenAtom(s.top) && Looks(Pick(ATOM, Close, s.rest, s.top.bag.kind), Stay)
  }

  /** What a choice does to the brackets: what it reads are no brackets, but for the opening
      and the closing alternates of an atom, and only by pushing does one open. */
  predicate Counted(rule: RuleName, phase: Phase, rest: seq<Token>, kind: GroupKind, c: Choice) {
    c.Chosen? ==>
      && (c.alt.goto == Stay ==> c.alt.action != OpenGroup && c.alt.action != OpenOption)
      && (rule == ATOM && phase == Close ==> c.alt.goto == Stay)
      && Balance(rest) - Balance(Read(c.alt, rest)) ==
         if rule == ATOM && c.alt.goto.Push? then 1
         else if rule == ATOM && phase == Close && kind != NoGroup && !Looks(c, Stay) then -1
         else 0
  }

  lemma ReadsNone(rest: seq<Token>, alt: Alternate, n: nat)
    requires |alt.s| == alt.back + n && n <= |rest|
    requires forall i :: 0 <= i < n ==> Turn(rest[i].kind) == 0
    ensures Balance(Read(alt, rest)) == Balance(rest)
  {
    if n > 0 {
      BalanceDrop(rest, n);
    }
  }

  lemma AltsCounted(rule: RuleName, phase: Phase, rest: seq<Token>, kind: GroupKind)
    requires rule == ALTS
    ensures Counted(rule, phase, rest, kind, Pick(rule, phase, rest, kind))
  {
    AtAlts(rule, phase, rest, kind);
    if phase == Close && Is(rest, 0, ALT) {
      ReadsNone(rest, Pick(rule, phase, rest, kind).alt, 1);
    }
  }

  lemma HeaderCounted(rest: seq<Token>, kind: GroupKind, c: Choice)
    requires AtHeader(rest) && c.Chosen? && c.alt.goto == Push(ALTS) && |c.alt.s| == c.alt.back + 2
    ensures Counted(PROD, Open, rest, kind, c)
  {
    ReadsNone(rest, c.alt, 2);
  }

  lemma ProdCounted(rule: RuleName, phase: Phase, rest: seq<Token>, kind: GroupKind)
    requires rule == PROD
    ensures Counted(rule, phase, rest, kind, Pick(rule, phase, rest, kind))
  {
    AtProd(rule, phase, rest, kind);
    if phase == Open && AtHeader(rest) {
      HeaderCounted(rest, kind, Pick(rule, phase, rest, kind));
    }
  }

  lemma PrefixCounted(rest: seq<Token>, c: Choice)
    requires CountChoice(rest, c)
    ensures c.Chosen? && c.alt.goto == Push(ATOM) && Balance(Read(c.alt, rest)) == Balance(rest)
  {
    if !Looks(c, Push(ATOM)) {
      ReadsNone(rest, c.alt, |c.alt.s| - c.alt.back);
    }
  }

  lemma ElemCounted(rule: RuleName, phase: Phase, rest: seq<Token>, kind: GroupKind)
    requires rule == ELEM
    ensures Counted(rule, phase, rest, kind, Pick(rule, phase, rest, kind))
  {
    AtElem(rule, phase, rest, kind);
    if phase == Open {
      PrefixCounted(rest, Pick(rule, phase, rest, kind));
    }
  }

  lemma AtomOpenCounted(rest: seq<Token>, kind: GroupKind, c: Choice)
    requires AtomChoice(rest, c)
    ensures Counted(ATOM, Open, rest, kind, c)
  {
    if c.Chosen? && c.alt.goto == Stay {
      ReadsNone(rest, c.alt, |c.alt.s| - c.alt.back);
    }
  }

  lemma MateCounted(rest: seq<Token>, kind: GroupKind, c: Choice)
    requires |rest| > 0 && Turn(rest[0].kind) == -1 && kind != NoGroup
    requires Does(c, 1, Stay, CloseGroup) || Does(c, 1, Stay, CloseOption)
    ensures Counted(ATOM, Close, rest, kind, c)
  {
  }

  lemma PopCounted(rest: seq<Token>, kind: GroupKind, c: Choice)
    requires Looks(c, Stay)
    ensures Counted(ATOM, Close, rest, kind, c)
  {
  }

  lemma AtomCloseCounted(rest: seq<Token>, kind: GroupKind, c: Choice)
    requires CloseChoice(rest, kind, c)
    ensures Counted(ATOM, Close, rest, kind, c)
  {
    if Looks(c, Stay) {
      PopCounted(rest, kind, c);
    } else {
      MateCounted(rest, kind, c);
    }
  }

  lemma EachCounted(rule: RuleName, phase: Phase, rest: seq<Token>, kind: GroupKind)
    ensures Counted(rule, phase, rest, kind, Pick(rule, phase, rest, kind))
  {
    match rule {
      case ABNF => AtAbnf(rule, phase, rest, kind);
      case PROD => ProdCounted(rule, phase, rest, kind);
      case ALTS => AltsCounted(rule, phase, rest, kind);
      case SEQ => SeqLooks(rule, phase, rest, kind);
      case ELEM => ElemCounted(rule, phase, rest, kind);
      case ATOM =>
        if phase == Open {
          AtAtomOpen(rule, phase, rest, kind);
          AtomOpenCounted(rest, kind, Pick(rule, phase, rest, kind));
        } else {
          AtAtomClose(rule, phase, rest, kind);
          AtomCloseCounted(rest, kind, Pick(rule, phase, rest, kind));
        }
    }
  }

  // ---- a step gives back one bracket or none

  /** A rule that has not opened has no bracket. */
  predicate Fresh(s: State) { s.Running? && s.top.phase == Open ==> s.top.bag.kind == NoGroup }

  /** Only the actions of an opening bracket set its kind. */
  lemma KindKept(mode: Mode, action: Action, f: Frame, rest: seq<Token>, depth: nat, store: Store)
    ensures var e := Act(mode, action, f, rest, depth, store);
            e.Done? && action != OpenGroup && action != OpenOption ==> e.frame.bag.kind == f.bag.kind
  {
  }

  predicate Sound(s: State) { WellShaped(s) && Fresh(s) }

  /** At the bottom of the stack only the end of the source lets the grammar pop. */
  lemma BottomEnds(s: State)
    requires s.Running? && WellShaped(s) && s.below == Bottom
    ensures var c := Pick(s.top.rule, s.top.phase, s.rest, s.top.bag.kind);
            c.Chosen? && c.alt.goto == Stay ==> Read(c.alt, s.rest) == []
  {
    AtAbnf(s.top.rule, s.top.phase, s.rest, s.top.bag.kind);
  }

  /** A choice that has acted keeps the brackets standing, but for one given back. */
  lemma ChoiceCounts(s: State, c: Choice, f: Frame, store: Store)
    requires s.Running? && Sound(s) && c.Chosen?
    requires Counted(s.top.rule, s.top.phase, s.rest, s.top.bag.kind, c) && GoesOn(s.top.rule, c.alt.goto)
    requires f.rule == s.top.rule && f.phase == s.top.phase
    requires s.top.rule == ATOM && c.alt.goto == Stay ==> f.bag.kind == s.top.bag.kind
    requires f.phase == Open && c.alt.goto == Stay ==> f.bag.kind == NoGroup
    requires s.below == Bottom && c.alt.goto == Stay && s.top.phase == Close ==> Read(c.alt, s.rest) == []
    ensures var t := Go(c.alt.goto, f, s.below, store, Read(c.alt, s.rest));
            Fresh(t) && Standing(s) == Standing(t) + if OpenAtom(s.top) && Looks(c, Stay) then 1 else 0
  {
  }

  /** Every step keeps the brackets standing, but for one that an atom gives back. */
  lemma StepCounts(mode: Mode, s: State)
    requires s.Running? && Sound(s)
    ensures Sound(Step(mode, s))
    ensures !Step(mode, s).Failed? ==> Standing(s) == Standing(Step(mode, s)) + if GivesBack(s) then 1 else 0
  {
    StepKeepsShape(mode, s);
    PickCounts(mode, s, Pick(s.top.rule, s.top.phase, s.rest, s.top.bag.kind));
  }

  lemma PickCounts(mode: Mode, s: State, c: Choice)
    requires s.Running? && Sound(s) && c == Pick(s.top.rule, s.top.phase, s.rest, s.top.bag.kind)
    ensures Fresh(Step(mode, s))
    ensures !Step(mode, s).Failed? ==>
              Standing(s) == Standing(Step(mode, s)) + if OpenAtom(s.top) && Looks(c, Stay) then 1 else 0
  {
    RuleGoesOn(s.top.rule, s.top.phase, s.rest, s.top.bag.kind);
    EachCounted(s.top.rule, s.top.phase, s.rest, s.top.bag.kind);
    if s.below == Bottom {
      BottomEnds(s);
    }
    if c.Chosen? {
      var before := Before(s.top, s.store);
      ActCounts(mode, s, c, before, Act(mode, c.alt.action, before.0, s.rest, Depth(s.below), before.1));
    }
  }

  lemma ActCounts(mode: Mode, s: State, c: Choice, before: (Frame, Store), e: Effect)
    requires s.Running? && Sound(s) && c.Chosen?
    requires before == Before(s.top, s.store)
    requires e == Act(mode, c.alt.action, before.0, s.rest, Depth(s.below), before.1)
    requires Counted(s.top.rule, s.top.phase, s.rest, s.top.bag.kind, c) && GoesOn(s.top.rule, c.alt.goto)
    requires s.below == Bottom && c.alt.goto == Stay && s.top.phase == Close ==> Read(c.alt, s.rest) == []
    ensures e.Done? ==>
              var t := Go(c.alt.goto, e.frame, s.below, e.store, Read(c.alt, s.rest));
              Fresh(t) && Standing(s) == Standing(t) + if OpenAtom(s.top) && Looks(c, Stay) then 1 else 0
  {
    KindKept(mode, c.alt.action, before.0, s.rest, Depth(s.below), before.1);
    if e.Done? {
      ChoiceCounts(s, c, e.frame, e.store);
    }
  }

  // ---- over a run

  /** How many atoms of a run give a token back for want of their mate. */
  function Pops(mode: Mode, s: State): nat
    requires Ready(s)
    decreases Measure(s), s.Running?
  {
    if s.Running? then
      StepDecreases(mode, s);
      (if GivesBack(s) then 1 else 0) + Pops(mode, Step(mode, s))
    else 0
  }

  lemma PopsNext(mode: Mode, s: State, next: State)
    requires s.Running? && Ready(s) && next == Step(mode, s)
    ensures Ready(next) && (next.Running? ==> Measure(next) < Measure(s))
    ensures Final(mode, s) == Final(mode, next)
    ensures Pops(mode, s) == (if GivesBack(s) then 1 else 0) + Pops(mode, next)
  {
    StepDecreases(mode, s);
  }

  lemma {:induction false} PopsStand(mode: Mode, s: State)
    requires Sound(s) && Ready(s)
    ensures Final(mode, s).Accepted? ==> Standing(s) == Pops(mode, s)
    decreases Measure(s), s.Running?
  {
    if s.Running? {
      var next := Step(mode, s);
      PopsNext(mode, s, next);
      StepCounts(mode, s);
      PopsStand(mode, next);
    }
  }

  /** Whether a run comes to a state that holds of a predicate. */
  ghost predicate Comes(step: State -> State, hit: State -> bool, s: State) {
    exists n: nat :: hit(After(step, s, n))
  }

  lemma ComesNext(step: State -> State, hit: State -> bool, s: State)
    ensures Comes(step, hit, s) <==> hit(s) || Comes(step, hit, step(s))
  {
    assert After(step, s, 0) == s;
    if n: nat :| hit(After(step, s, n)) {
      if n > 0 {
        assert hit(After(step, step(s), n - 1));
      }
    }
    if n: nat :| hit(After(step, step(s), n)) {
      assert After(step, s, n + 1) == After(step, step(s), n);
    }
  }

  /** There is one exactly where the run comes to a state that gives back. */
  lemma {:induction false} PopsReached(mode: Mode, s: State)
    requires Ready(s)
    ensures Pops(mode, s) > 0 <==> Comes(Stepper(mode), GivesBack, s)
    decreases Measure(s), s.Running?
  {
    if s.Running? {
      var next := Step(mode, s);
      ComesNext(Stepper(mode), GivesBack, s);
      PopsNext(mode, s, next);
      PopsReached(mode, next);
    } else {
      StandsStill(mode, s);
    }
  }

  lemma {:induction false} StandsStill(mode: Mode, s: State)
    requires !s.Running?
    ensures forall n: nat :: After(Stepper(mode), s, n) == s
  {
    forall n: nat ensures After(Stepper(mode), s, n) == s {
      AfterKeeps(Stepper(mode), t => t == s, s, n);
    }
  }

  // ---- of a derivation

  /** The brackets of an atom that are not closed, at any nesting. */
  function AtomOpen(a: Atom): nat {
    if a.Bracket? then AltsOpen(a.alts) + (if a.close.None? then 1 else 0) else 0
  }

  function SeqOpen(s: Seq): nat {
    if s.Then? then AtomOpen(s.first.atom) + SeqOpen(s.more) else 0
  }

  function AltsOpen(a: Alts): nat {
    match a
    case Only(s) => SeqOpen(s)
    case Or(s, _, more) => SeqOpen(s) + AltsOpen(more)
  }

  function AllOpen(ps: seq<Production>): nat {
    if ps == [] then 0 else AltsOpen(ps[0].alts) + AllOpen(ps[1..])
  }

  lemma BalanceCons(t: Token, ts: seq<Token>)
    ensures Balance([t] + ts) == Turn(t.kind) + Balance(ts)
  {
    assert ([t] + ts)[1..] == ts;
  }

  lemma CountBalance(c: Count, rest: seq<Token>)
    requires CountOk(c)
    ensures Balance(CountOnto(c, rest)) == Balance(rest)
  {
    var all := CountOnto(c, rest);
    var n := |all| - |rest|;
    BalanceDrop(all, n);
    assert all[n..] == rest;
  }

  lemma {:induction false} AtomBalance(port: Port, a: Atom, rest: seq<Token>)
    requires AtomOk(port, a)
    ensures Balance(AtomOnto(a, rest)) == AtomOpen(a) + Balance(rest)
    decreases a
  {
    match a
    case Simple(t) => BalanceCons(t, rest);
    case Marked(prefix, t) =>
      BalanceDrop(AtomOnto(a, rest), 2);
      assert AtomOnto(a, rest)[2..] == rest;
    case Bracket(open, alts, close) =>
      var after := if close.Some? then [close.value] + rest else rest;
      if close.Some? {
        BalanceCons(close.value, rest);
      }
      AltsBalance(port, alts, after);
      BalanceCons(open, AltsOnto(alts, after));
  }

  lemma {:induction false} SeqBalance(port: Port, s: Seq, rest: seq<Token>)
    requires SeqOk(port, s)
    ensures Balance(SeqOnto(s, rest)) == SeqOpen(s) + Balance(rest)
    decreases s
  {
    match s
    case Empty =>
    case Then(e, more) =>
      SeqBalance(port, more, rest);
      AtomBalance(port, e.atom, SeqOnto(more, rest));
      CountBalance(e.count, AtomOnto(e.atom, SeqOnto(more, rest)));
  }

  lemma {:induction false} AltsBalance(port: Port, a: Alts, rest: seq<Token>)
    requires AltsOk(port, a)
    ensures Balance(AltsOnto(a, rest)) == AltsOpen(a) + Balance(rest)
    decreases a
  {
    match a
    case Only(s) => SeqBalance(port, s, rest);
    case Or(s, slash, more) =>
      AltsBalance(port, more, rest);
      BalanceCons(slash, AltsOnto(more, rest));
      SeqBalance(port, s, [slash] + AltsOnto(more, rest));
  }

  lemma {:induction false} AllBalance(port: Port, ps: seq<Production>)
    requires AllOk(port, ps)
    ensures Balance(Yield(ps)) == AllOpen(ps)
    decreases |ps|
  {
    if ps != [] {
      var p, more := ps[0], ps[1..];
      assert p in ps && ProductionOk(port, p);
      AllBalance(port, more);
      AltsBalance(port, p.alts, Yield(more));
      var all := Yield(ps);
      BalanceDrop(all, 2);
      assert all[2..] == AltsOnto(p.alts, Yield(more));
    }
  }

  lemma {:induction false} AtomOpens(a: Atom)
    ensures AtomOpen(a) == 0 <==> AtomClosed(a)
    decreases a
  {
    if a.Bracket? {
      AltsOpens(a.alts);
    }
  }

  lemma {:induction false} SeqOpens(s: Seq)
    ensures SeqOpen(s) == 0 <==> SeqClosed(s)
    decreases s
  {
    if s.Then? {
      AtomOpens(s.first.atom);
      SeqOpens(s.more);
    }
  }

  lemma {:induction false} AltsOpens(a: Alts)
    ensures AltsOpen(a) == 0 <==> AltsClosed(a)
    decreases a
  {
    SeqOpens(a.head);
    if a.Or? {
      AltsOpens(a.more);
    }
  }

  lemma {:induction false} AllOpens(ps: seq<Production>)
    ensures AllOpen(ps) == 0 <==> AllClosed(ps)
    decreases |ps|
  {
    if ps != [] {
      AltsOpens(ps[0].alts);
      AllOpens(ps[1..]);
      assert forall q :: q in ps <==> q == ps[0] || q in ps[1..];
    }
  }

  // ---- both together

  /** Every accepting run gives back one token for each bracket that what was read leaves
      open. */
  lemma PopsAreOpen(mode: Mode, tokens: seq<Token>)
    requires Accepts(mode, tokens)
    ensures ReadAll(mode, tokens).Some? && Pops(mode, Init(tokens)) == AllOpen(ReadAll(mode, tokens).value)
  {
    AcceptsWhatItReads(mode, tokens);
    PopsStand(mode, Init(tokens));
    ProductionsSound(mode, tokens);
    AllBalance(mode.port, ReadAll(mode, tokens).value);
  }

  lemma HolesArePops(mode: Mode, tokens: seq<Token>, rules: seq<Rule>)
    requires Parses(mode, tokens, rules)
    ensures HoleFree(rules) <==> Pops(mode, Init(tokens)) == 0
  {
    ParsesRead(mode, tokens, rules);
    PopsAreOpen(mode, tokens);
    var ps := ReadAll(mode, tokens).value;
    AllOpens(ps);
    HoleFreeIsClosed(mode.port, ps);
  }

  /** In every accepting run a hole is built exactly when some bracket's atom pops through the
      alternate that gives the next token back, and the walk finds it. */
  lemma HolesAreGivenBack(mode: Mode, tokens: seq<Token>, rules: seq<Rule>)
    requires Parses(mode, tokens, rules)
    ensures !HoleFree(rules) <==> Comes(Stepper(mode), GivesBack, Init(tokens))
  {
    HolesArePops(mode, tokens, rules);
    PopsReached(mode, Init(tokens));
  }

  /** The same of each production: its rule holds a hole exactly when one of its brackets was
      left open. */
  lemma HolesAreOpenBrackets(mode: Mode, tokens: seq<Token>, rules: seq<Rule>, i: nat)
    requires Parses(mode, tokens, rules) && i < |rules|
    ensures var all := ReadAll(mode, tokens);
            all.Some? && |all.value| == |rules| && (HoleAmong(rules[i].alts) <==> AltsOpen(all.value[i].alts) > 0)
  {
    ParsesRead(mode, tokens, rules);
    var ps := ReadAll(mode, tokens).value;
    AltsHole(mode.port, ps[i].alts);
    AltsOpens(ps[i].alts);
  }
}
