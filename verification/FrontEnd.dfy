/** The passes after the parse, in the order they run: annotations, incremental alternatives,
    the walk for holes, and the core rules. */
module FrontEnd {
  import opened Strings
  import opened Ports
  import opened Numeric
  import opened Ast
  import opened Derivations
  import opened Holes
  import opened Comments
  import opened Productions
  import opened Annotations
  import opened Incrementals
  import opened Parsing
  import T = Tokens
  import C = CoreRules

  datatype Refused =
    | NoProductions
    | BadAnnotation(a: Annotations.Refusal)
    | BadMerge(m: MergeError)
    | Malformed(name: string)

  /** The user's productions and the core rules added to them, or why there are none. */
  datatype Outcome = Grammar(user: seq<Line>, added: seq<C.Production>) | No(why: Refused)

  function LineOf(r: Rule): Line { Line(r.name, r.alts, r.incremental, r.sp, None, None) }

  function LinesOf(rules: seq<Rule>): (lines: seq<Line>)
    ensures |lines| == |rules| && forall i :: 0 <= i < |rules| ==> lines[i] == LineOf(rules[i])
  {
    seq(|rules|, i requires 0 <= i < |rules| => LineOf(rules[i]))
  }

  function Annotated(lines: seq<Line>, values: Values): (r: seq<Line>)
    requires |values| == |lines|
    ensures |r| == |lines| && forall i :: 0 <= i < |lines| ==> r[i] == lines[i].(value := values[i])
  {
    seq(|lines|, i requires 0 <= i < |lines| => lines[i].(value := values[i]))
  }

  /** The names an element references, looking where the walk for holes looks. */
  function RefsAt(t: Elem): set<string>
    decreases t
  {
    match t
    case Hole => {}
    case Lit(leaf, _) => if leaf.Reference? then {leaf.name} else {}
    case Wrapped(_, inner, _) => RefsAt(inner)
    case Group(alts, _) =>
      set i, j, n | 0 <= i < |alts| && 0 <= j < |alts[i].items| && n in RefsAt(alts[i].items[j]) :: n
  }

  function RefsIn(s: Sequence): set<string> { set j, n | 0 <= j < |s.items| && n in RefsAt(s.items[j]) :: n }

  function RefsAmong(alts: seq<Sequence>): set<string> { set s, n | s in alts && n in RefsIn(s) :: n }

  function Referring(lines: seq<Line>): seq<C.Production> {
    seq(|lines|, i requires 0 <= i < |lines| => C.Production(lines[i].name, RefsAmong(lines[i].alts)))
  }

  /** The first production refused for a hole. */
  function FirstHole(lines: seq<Line>): (r: Option<string>)
    ensures r.None? <==> forall line :: line in lines ==> !HoleAmong(line.alts)
  {
    if lines == [] then None
    else if HoleAmong(lines[0].alts) then Some(lines[0].name)
    else FirstHole(lines[1..])
  }

  /** `parseAbnf` once the parse has returned. */
  function AfterParse(p: Patterns, blank: Blank, src: string, rules: seq<Rule>, core: seq<C.Production>): Outcome {
    if rules == [] then No(NoProductions)
    else
      var (e, values) := Attach(p, blank, src, LinesOf(rules));
      if e.Some? then No(BadAnnotation(e.value))
      else
        match Merge(Annotated(LinesOf(rules), values), |rules|)
        case Refused(why) => No(BadMerge(why))
        case Folded(user, _) =>
          if FirstHole(user).Some? then No(Malformed(FirstHole(user).value))
          else Grammar(user, C.Settle(core, C.Start(Referring(user))).out)
  }

  // ---- merging moves sequences and loses none

  predicate Among(lines: seq<Line>, s: Sequence) { exists j :: 0 <= j < |lines| && s in lines[j].alts }

  /** What a family's alternatives hold: the base's and those of the lines that extend it. */
  lemma {:induction false} FamilyHolds(lines: seq<Line>, i: nat, n: nat, s: Sequence)
    requires i < n <= |lines|
    ensures s in FamilyAlts(lines, i, n) <==>
            s in lines[i].alts || exists j :: i < j < n && Extends(lines, j, i) && s in lines[j].alts
    decreases n
  {
    if n > i + 1 {
      FamilyHolds(lines, i, n - 1, s);
    }
  }

  lemma FamiliesHold(lines: seq<Line>, s: Sequence)
    requires AllExtend(lines, |lines|)
    ensures Among(Families(lines, |lines|), s) <==> Among(lines, s)
  {
    var n := |lines|;
    var bases, families := Bases(lines, n), Families(lines, n);
    if Among(families, s) {
      var k :| 0 <= k < |families| && s in families[k].alts;
      FamilyHolds(lines, bases[k], n, s);
    }
    if Among(lines, s) {
      var j: nat :| j < n && s in lines[j].alts;
      var i := if lines[j].incremental then LastNamed(lines, lines[j].name, j).value else j;
      assert i in bases;
      var k :| 0 <= k < |bases| && bases[k] == i;
      FamilyHolds(lines, i, n, s);
      assert s in families[k].alts;
    }
  }

  predicate HoleInLines(lines: seq<Line>) { exists line :: line in lines && HoleAmong(line.alts) }

  lemma HoleIsAmong(lines: seq<Line>)
    ensures HoleInLines(lines) <==> exists s :: Among(lines, s) && HoleIn(s)
  {
    if HoleInLines(lines) {
      var line :| line in lines && HoleAmong(line.alts);
      var i :| 0 <= i < |line.alts| && HoleIn(line.alts[i]);
      var j :| 0 <= j < |lines| && lines[j] == line;
      assert line.alts[i] in lines[j].alts;
      assert Among(lines, line.alts[i]);
    }
    if s :| Among(lines, s) && HoleIn(s) {
      var j :| 0 <= j < |lines| && s in lines[j].alts;
      assert lines[j] in lines && HoleAmong(lines[j].alts);
    }
  }

  /** The walk after the merge refuses exactly where a parsed rule, `=/` lines included, holds
      a hole. */
  lemma HolesSurviveMerge(lines: seq<Line>)
    requires AllExtend(lines, |lines|)
    ensures HoleInLines(Families(lines, |lines|)) <==> HoleInLines(lines)
  {
    forall s ensures Among(Families(lines, |lines|), s) <==> Among(lines, s) {
      FamiliesHold(lines, s);
    }
    HoleIsAmong(lines);
    HoleIsAmong(Families(lines, |lines|));
  }

  lemma LinesHole(rules: seq<Rule>, values: Values)
    requires |values| == |rules|
    ensures HoleInLines(Annotated(LinesOf(rules), values)) <==> !HoleFree(rules)
  {
    var lines := Annotated(LinesOf(rules), values);
    forall i | 0 <= i < |rules| ensures lines[i].alts == rules[i].alts && lines[i] in lines && rules[i] in rules {
    }
    if !HoleFree(rules) {
      var r :| r in rules && HoleAmong(r.alts);
      var i :| 0 <= i < |rules| && rules[i] == r;
      assert HoleAmong(lines[i].alts);
    }
  }

  // ---- what succeeds

  /** Every rule a parse builds has a span. */
  predicate Spanned(rules: seq<Rule>) { forall i :: 0 <= i < |rules| ==> rules[i].sp.Some? }

  predicate AnnotationsFit(p: Patterns, blank: Blank, src: string, rules: seq<Rule>) {
    Acceptable(p, StartsOf(LinesOf(rules)), CommentsFrom(blank, src, 0))
  }

  /** The lines the merge is given: each rule with the annotation that follows it. */
  function Given(p: Patterns, blank: Blank, src: string, rules: seq<Rule>): (lines: seq<Line>)
    ensures |lines| == |rules|
  {
    Annotated(LinesOf(rules), Attach(p, blank, src, LinesOf(rules)).1)
  }

  /** The passes succeed exactly when there is a rule, the annotations fit, every `=/` line has
      a rule to extend and none is annotated twice, and no rule parsed holds a hole. */
  lemma SucceedsExactly(p: Patterns, blank: Blank, src: string, rules: seq<Rule>, core: seq<C.Production>)
    requires Spanned(rules)
    ensures AfterParse(p, blank, src, rules, core).Grammar? <==>
            && rules != [] && AnnotationsFit(p, blank, src, rules)
            && Mergeable(Given(p, blank, src, rules), |rules|) && HoleFree(rules)
  {
    if rules != [] {
      var lines := Given(p, blank, src, rules);
      assert LinesOf(rules)[0].sp.Some?;
      AttachIsExact(p, blank, src, LinesOf(rules));
      MergeIsExact(lines, |lines|);
      LinesHole(rules, Attach(p, blank, src, LinesOf(rules)).1);
      if Mergeable(lines, |lines|) {
        HolesSurviveMerge(lines);
      }
    }
  }

  /** For every source: it is parsed and passes exactly when its tokens derive from the grammar
      and its annotations and `=/` lines are in order. */
  lemma SourceSucceeds(p: Patterns, blank: Blank, src: string, tokens: seq<T.Token>, core: seq<C.Production>)
    ensures (exists rules :: Parses(TYPESCRIPT, tokens, rules) && AfterParse(p, blank, src, rules, core).Grammar?) <==>
            exists ps: seq<Derivations.Production> ::
              var rules := Build(TypeScript, ps);
              && Derivation(TypeScript, ps) && Yield(ps) == tokens && rules != []
              && AnnotationsFit(p, blank, src, rules) && Mergeable(Given(p, blank, src, rules), |rules|)
  {
    forall ps ensures Spanned(Build(TypeScript, ps)) {
    }
    if rules :| Parses(TYPESCRIPT, tokens, rules) && AfterParse(p, blank, src, rules, core).Grammar? {
      ParsesRead(TYPESCRIPT, tokens, rules);
      SucceedsExactly(p, blank, src, rules, core);
      AcceptsExactlyTheGrammar(TypeScript, tokens, rules);
    }
    if ps: seq<Derivations.Production> :|
      var rules := Build(TypeScript, ps);
      && Derivation(TypeScript, ps) && Yield(ps) == tokens && rules != []
      && AnnotationsFit(p, blank, src, rules) && Mergeable(Given(p, blank, src, rules), |rules|)
    {
      AcceptsExactlyTheGrammar(TypeScript, tokens, Build(TypeScript, ps));
      SucceedsExactly(p, blank, src, Build(TypeScript, ps), core);
    }
  }

  // ---- which core rules are added

  function RuleNames(rules: seq<Rule>): set<string> { set r | r in rules :: r.name }

  function RuleRefs(rules: seq<Rule>): set<string> { set r, n | r in rules && n in RefsAmong(r.alts) :: n }

  lemma FamilyNames(lines: seq<Line>, name: string)
    requires AllExtend(lines, |lines|)
    ensures (exists k :: 0 <= k < |Families(lines, |lines|)| && Families(lines, |lines|)[k].name == name) <==>
            exists j :: 0 <= j < |lines| && lines[j].name == name
  {
    var n := |lines|;
    var bases, families := Bases(lines, n), Families(lines, n);
    if k :| 0 <= k < |families| && families[k].name == name {
      assert lines[bases[k]].name == name;
    }
    if j: nat :| j < n && lines[j].name == name {
      var i := if lines[j].incremental then LastNamed(lines, name, j).value else j;
      assert i in bases;
      var k :| 0 <= k < |bases| && bases[k] == i;
      assert families[k].name == name;
    }
  }

  lemma ReferringNames(lines: seq<Line>, name: string)
    ensures name in C.Names(Referring(lines)) <==> exists j :: 0 <= j < |lines| && lines[j].name == name
  {
    var ps := Referring(lines);
    if j :| 0 <= j < |lines| && lines[j].name == name {
      assert ps[j] in ps;
    }
  }

  lemma ReferringRefs(lines: seq<Line>, name: string)
    ensures name in C.Refs(Referring(lines)) <==> exists s :: Among(lines, s) && name in RefsIn(s)
  {
    var ps := Referring(lines);
    if name in C.Refs(ps) {
      var q :| q in ps && name in q.refs;
      var j :| 0 <= j < |ps| && ps[j] == q;
      var s :| s in lines[j].alts && name in RefsIn(s);
      assert Among(lines, s);
    }
    if s :| Among(lines, s) && name in RefsIn(s) {
      var j :| 0 <= j < |lines| && s in lines[j].alts;
      assert ps[j] in ps && name in ps[j].refs;
    }
  }

  /** What the lines name and reference is what the rules parsed do. */
  lemma GivenRefers(p: Patterns, blank: Blank, src: string, rules: seq<Rule>, name: string)
    ensures var lines := Given(p, blank, src, rules);
            && (name in RuleNames(rules) <==> exists j :: 0 <= j < |lines| && lines[j].name == name)
            && (name in RuleRefs(rules) <==> exists s :: Among(lines, s) && name in RefsIn(s))
  {
    var lines := Given(p, blank, src, rules);
    if name in RuleNames(rules) {
      var j :| 0 <= j < |rules| && rules[j].name == name;
      assert lines[j].name == name;
    }
    if j :| 0 <= j < |lines| && lines[j].name == name {
      assert rules[j] in rules;
    }
    if name in RuleRefs(rules) {
      var r :| r in rules && name in RefsAmong(r.alts);
      var j :| 0 <= j < |rules| && rules[j] == r;
      var s :| s in r.alts && name in RefsIn(s);
      assert s in lines[j].alts;
      assert Among(lines, s);
    }
    if s :| Among(lines, s) && name in RefsIn(s) {
      var j :| 0 <= j < |lines| && s in lines[j].alts;
      assert rules[j] in rules && name in RefsAmong(rules[j].alts);
    }
  }

  lemma MergedRefers(lines: seq<Line>, name: string)
    requires AllExtend(lines, |lines|)
    ensures var user := Referring(Families(lines, |lines|));
            && (name in C.Names(user) <==> exists j :: 0 <= j < |lines| && lines[j].name == name)
            && (name in C.Refs(user) <==> exists s :: Among(lines, s) && name in RefsIn(s))
  {
    var families := Families(lines, |lines|);
    ReferringNames(families, name);
    FamilyNames(lines, name);
    ReferringRefs(families, name);
    forall s ensures Among(families, s) <==> Among(lines, s) {
      FamiliesHold(lines, s);
    }
  }

  lemma UserRefers(p: Patterns, blank: Blank, src: string, rules: seq<Rule>, core: seq<C.Production>)
    requires AfterParse(p, blank, src, rules, core).Grammar?
    ensures var user := Referring(AfterParse(p, blank, src, rules, core).user);
            C.Names(user) == RuleNames(rules) && C.Refs(user) == RuleRefs(rules)
  {
    var lines := Given(p, blank, src, rules);
    var user := Referring(AfterParse(p, blank, src, rules, core).user);
    MergeIsExact(lines, |lines|);
    forall name
      ensures name in C.Names(user) <==> name in RuleNames(rules)
      ensures name in C.Refs(user) <==> name in RuleRefs(rules)
    {
      MergedRefers(lines, name);
      GivenRefers(p, blank, src, rules, name);
    }
  }

  /** The core rules added are the least set, not defined by any rule parsed, that some rule
      parsed, a `=/` line or not, or a rule added references, each once. */
  lemma AddsLeast(p: Patterns, blank: Blank, src: string, rules: seq<Rule>, core: seq<C.Production>)
    requires C.Distinct(core) && AfterParse(p, blank, src, rules, core).Grammar?
    ensures var added := AfterParse(p, blank, src, rules, core).added;
            && C.Distinct(added)
            && (forall q :: q in added ==> q in core && q.name !in RuleNames(rules))
            && C.Closed(core, RuleNames(rules), RuleRefs(rules), C.Names(added))
            && forall given :: C.Closed(core, RuleNames(rules), RuleRefs(rules), given) ==> C.Names(added) <= given
  {
    UserRefers(p, blank, src, rules, core);
    C.CoreIsLeast(core, Referring(AfterParse(p, blank, src, rules, core).user));
  }

  // ---- what a rule references

  /** A path into an element, a step into each wrapper and into a place of each group, that ends
      at a reference to a name. */
  ghost predicate Occurs(t: Elem, path: seq<(nat, nat)>, name: string)
    decreases |path|
  {
    match t
    case Hole => false
    case Lit(leaf, _) => path == [] && leaf == Reference(name)
    case Wrapped(_, inner, _) => path != [] && path[0] == (0, 0) && Occurs(inner, path[1..], name)
    case Group(alts, _) =>
      && path != [] && path[0].0 < |alts| && path[0].1 < |alts[path[0].0].items|
      && Occurs(alts[path[0].0].items[path[0].1], path[1..], name)
  }

  lemma OccursBelow(t: Elem, step: (nat, nat), path: seq<(nat, nat)>, inner: Elem, name: string)
    requires Occurs(inner, path, name)
    requires (t.Wrapped? && t.inner == inner && step == (0, 0))
          || (t.Group? && step.0 < |t.alts| && step.1 < |t.alts[step.0].items| && t.alts[step.0].items[step.1] == inner)
    ensures Occurs(t, [step] + path, name)
  {
    assert ([step] + path)[1..] == path;
  }

  lemma {:induction false} ReferenceOccurs(t: Elem, name: string) returns (path: seq<(nat, nat)>)
    requires name in RefsAt(t)
    ensures Occurs(t, path, name)
    decreases t
  {
    match t
    case Lit(leaf, _) => path := [];
    case Wrapped(_, inner, _) =>
      path := ReferenceOccurs(inner, name);
      OccursBelow(t, (0, 0), path, inner, name);
      path := [(0, 0)] + path;
    case Group(alts, _) =>
      var i, j :| 0 <= i < |alts| && 0 <= j < |alts[i].items| && name in RefsAt(alts[i].items[j]);
      path := ReferenceOccurs(alts[i].items[j], name);
      OccursBelow(t, (i, j), path, alts[i].items[j], name);
      path := [(i, j)] + path;
  }

  lemma {:induction false} OccursIsReference(t: Elem, path: seq<(nat, nat)>, name: string)
    requires Occurs(t, path, name)
    ensures name in RefsAt(t)
    decreases |path|
  {
    match t
    case Lit(leaf, _) =>
    case Wrapped(_, inner, _) => OccursIsReference(inner, path[1..], name);
    case Group(alts, _) =>
      var e := alts[path[0].0].items[path[0].1];
      OccursIsReference(e, path[1..], name);
      assert name in RefsAt(e);
  }

  /** The names a grammar references, for which core rules are added, are exactly those a path
      into some rule ends at, however deep it goes. */
  lemma RuleRefsOccur(rules: seq<Rule>, name: string)
    ensures name in RuleRefs(rules) <==> exists r, path :: r in rules && Occurs(Group(r.alts, None), path, name)
  {
    if name in RuleRefs(rules) {
      var r :| r in rules && name in RefsAmong(r.alts);
      GroupRefs(r.alts, name);
      var path := ReferenceOccurs(Group(r.alts, None), name);
      assert exists r, path :: r in rules && Occurs(Group(r.alts, None), path, name);
    }
    if r, path :| r in rules && Occurs(Group(r.alts, None), path, name) {
      OccursIsReference(Group(r.alts, None), path, name);
      GroupRefs(r.alts, name);
      assert name in RuleRefs(rules);
    }
  }

  lemma GroupRefs(alts: seq<Sequence>, name: string)
    ensures name in RefsAmong(alts) <==> name in RefsAt(Group(alts, None))
  {
    if name in RefsAmong(alts) {
      var s :| s in alts && name in RefsIn(s);
      var i :| 0 <= i < |alts| && alts[i] == s;
      var j :| 0 <= j < |s.items| && name in RefsAt(s.items[j]);
      assert name in RefsAt(alts[i].items[j]);
    }
    if name in RefsAt(Group(alts, None)) {
      var i, j :| 0 <= i < |alts| && 0 <= j < |alts[i].items| && name in RefsAt(alts[i].items[j]);
      assert alts[i] in alts && name in RefsIn(alts[i]);
    }
  }
}
