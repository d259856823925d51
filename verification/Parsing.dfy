/** What the table accepts, and what it builds, in the terms of the grammar it is written for. */
module Parsing {
  import opened Strings
  import opened Ports
  import opened Tokens
  import opened Ast
  import opened Engine
  import opened Halting
  import opened Derivations
  import opened Reader
  import opened Grammar
  import opened Storage
  import opened Simulation
  import opened Holes
  import opened Numeric
  import opened Numerals
  import opened Porting
  import opened PortTrees

  /** A run on `tokens` is accepted, and its result is the tree `rules`. */
  ghost predicate Parses(mode: Mode, tokens: seq<Token>, rules: seq<Rule>) {
    var e := Final(mode, Init(tokens));
    e.Accepted? && HoldsGrammar(e.store, e.node, rules)
  }

  lemma ParsesOnce(mode: Mode, tokens: seq<Token>, rules: seq<Rule>, others: seq<Rule>)
    requires Parses(mode, tokens, rules) && Parses(mode, tokens, others)
    ensures rules == others
  {
    var e := Final(mode, Init(tokens));
    HoldsGrammarOnce(e.store, e.node, rules, others);
  }

  /** What was read, brackets left open included, and what it built. */
  lemma ParsesRead(mode: Mode, tokens: seq<Token>, rules: seq<Rule>)
    ensures Parses(mode, tokens, rules) <==>
            var all := ReadAll(mode, tokens); all.Some? && rules == Build(mode.port, all.value)
  {
    RunMeans(mode, tokens);
    var all := ReadAll(mode, tokens);
    if all.Some? && Parses(mode, tokens, rules) {
      ParsesOnce(mode, tokens, rules, Build(mode.port, all.value));
    }
  }

  /** For every token sequence the table accepts with a hole-free tree exactly when the
      sequence derives from the grammar, and the tree is the derivation's. */
  lemma AcceptsExactlyTheGrammar(port: Port, tokens: seq<Token>, rules: seq<Rule>)
    ensures Parses(Mode(port, None), tokens, rules) && HoleFree(rules) <==>
            exists ps: seq<Production> :: Derivation(port, ps) && Yield(ps) == tokens && Build(port, ps) == rules
  {
    ParsesRead(Mode(port, None), tokens, rules);
    if Parses(Mode(port, None), tokens, rules) && HoleFree(rules) {
      var ps := ReadAll(Mode(port, None), tokens).value;
      HoleFreeIsClosed(port, ps);
      ReadsExactlyDerivations(port, tokens, ps);
    }
    if ps :| Derivation(port, ps) && Yield(ps) == tokens && Build(port, ps) == rules {
      ReadsExactlyDerivations(port, tokens, ps);
      HoleFreeIsClosed(port, ps);
    }
  }

  /** The comment names a production by an identifier only: its grammar derives exactly those
      of the sequences in which no prose stands in front of `=`. */
  lemma AcceptsTheCommentedGrammar(port: Port, tokens: seq<Token>, rules: seq<Rule>)
    ensures Parses(Mode(port, None), tokens, rules) && HoleFree(rules) && !NamesByProse(tokens) <==>
            exists ps: seq<Production> :: Strict(port, ps) && Yield(ps) == tokens && Build(port, ps) == rules
  {
    AcceptsExactlyTheGrammar(port, tokens, rules);
    forall ps: seq<Production> | Derivation(port, ps) && Yield(ps) == tokens
      ensures Strict(port, ps) <==> !NamesByProse(tokens)
    {
      ProseNames(port, ps);
      NamedByEither(port, ps);
    }
  }

  lemma NamedByEither(port: Port, ps: seq<Production>)
    requires AllOk(port, ps)
    ensures (forall p :: p in ps ==> p.name.kind == TX) <==> !exists p :: p in ps && p.name.kind == PV
  {
    assert forall p :: p in ps ==> HeaderOk(p.name, p.op);
  }

  // ---- the ports beside TypeScript

  predicate Accepts(mode: Mode, tokens: seq<Token>) { Final(mode, Init(tokens)).Accepted? }

  lemma AcceptsWhatItReads(mode: Mode, tokens: seq<Token>)
    ensures Accepts(mode, tokens) <==> ReadAll(mode, tokens).Some?
  {
    RunMeans(mode, tokens);
  }

  /** Go accepts a source that TypeScript accepts exactly when each of its numeric values is
      plain: only digits of its radix between the dots, or on both sides of its one `-`. */
  lemma GoAccepts(tokens: seq<Token>)
    ensures Accepts(GO, tokens) <==>
            Accepts(TYPESCRIPT, tokens) && forall t :: t in tokens && t.kind == NV ==> PlainNumeral(t.src)
  {
    AcceptsWhatItReads(TYPESCRIPT, tokens);
    AcceptsWhatItReads(GO, tokens);
    ReadsWhatItKeeps(GO, tokens);
    DecodedByAll(GoPort, tokens);
  }

  /** Rust accepts a source that TypeScript accepts exactly when no bracket of it is nested
      past 511. */
  lemma RustAccepts(tokens: seq<Token>)
    ensures var all := ReadAll(TYPESCRIPT, tokens);
            Accepts(RUST, tokens) <==> Accepts(TYPESCRIPT, tokens) && all.Some? && NestWithin(all.value, 511)
  {
    AcceptsWhatItReads(TYPESCRIPT, tokens);
    AcceptsWhatItReads(RUST, tokens);
    ReadsWhatItKeeps(RUST, tokens);
    DecodedByAll(RustPort, tokens);
    if ReadAll(TYPESCRIPT, tokens).Some? {
      LimitIsNesting(ReadAll(TYPESCRIPT, tokens).value);
    }
  }

  /** In a source TypeScript reads every numeric value is decoded there, so a port decodes
      them all exactly where it admits each text. */
  lemma DecodedByAll(port: Port, tokens: seq<Token>)
    ensures ReadAll(TYPESCRIPT, tokens).Some? ==>
              (Decodes(port, tokens) <==> forall t :: t in tokens && t.kind == NV ==> Admits(port, t.src))
  {
    ReadsWhatItKeeps(TYPESCRIPT, tokens);
    forall t | t in tokens && t.kind == NV
      ensures DecodeFor(port, t.src).Some? <==> Decode(t.src).Some? && Admits(port, t.src)
    {
      DecodesWhere(port, t.src);
    }
  }

  /** Of a source both accept, a port refuses the productions TypeScript refuses for holes,
      and where there is none builds TypeScript's tree exactly when each numeric value agrees:
      in Go none is a range of two ends or names a surrogate, in Rust none keeps half a pair. */
  lemma PortsAgree(mode: Mode, tokens: seq<Token>, rules: seq<Rule>, others: seq<Rule>)
    requires Parses(TYPESCRIPT, tokens, rules) && Parses(mode, tokens, others)
    ensures |others| == |rules|
    ensures forall i :: 0 <= i < |rules| ==> (HoleAmong(others[i].alts) <==> HoleAmong(rules[i].alts))
    ensures HoleFree(rules) ==>
              (others == rules <==> forall t :: t in tokens && t.kind == NV ==> Agrees(mode.port, t.src))
  {
    ParsesRead(TYPESCRIPT, tokens, rules);
    ParsesRead(mode, tokens, others);
    ReadsWhatItKeeps(mode, tokens);
    var ps := ReadAll(TYPESCRIPT, tokens).value;
    ProductionsSound(mode, tokens);
    ProductionsSound(TYPESCRIPT, tokens);
    forall i | 0 <= i < |rules| ensures HoleAmong(others[i].alts) <==> HoleAmong(rules[i].alts) {
      PortsRejectAlike(TypeScript, mode.port, ps, i);
    }
    if HoleFree(rules) {
      HoleFreeIsClosed(TypeScript, ps);
      BuildSame(mode.port, ps);
      SameByAll(mode.port, tokens);
    }
  }

  lemma SameByAll(port: Port, tokens: seq<Token>)
    requires Decodes(port, tokens)
    ensures Same(port, tokens) <==> forall t :: t in tokens && t.kind == NV ==> Agrees(port, t.src)
  {
    forall t | t in tokens && t.kind == NV ensures DecodeFor(port, t.src) == Decode(t.src) <==> Agrees(port, t.src) {
      DecodesWhere(port, t.src);
    }
  }
}
