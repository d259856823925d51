/** What the passes after the parse return, in terms of the rules parsed and the text's comments
    alone. */
module Outcomes {
  import opened Strings
  import opened Ast
  import opened Holes
  import opened Comments
  import opened Productions
  import opened Annotations
  import opened Incrementals
  import opened FrontEnd
  import C = CoreRules
  import O = CoreOrder

  // ---- the rules that make up a production

  /** Where each rule starts. */
  function RuleStarts(rules: seq<Rule>): (r: Starts)
    ensures |r| == |rules|
  {
    seq(|rules|, i requires 0 <= i < |rules| => if rules[i].sp.Some? then Some(rules[i].sp.value.s) else None)
  }

  /** A `=/` rule that extends the rule at `i`, the last before it with its name that is none. */
  predicate Continues(rules: seq<Rule>, j: nat, i: nat)
    requires j < |rules|
  {
    && i < j && rules[j].incremental && !rules[i].incremental && rules[i].name == rules[j].name
    && forall m :: i < m < j ==> rules[m].incremental || rules[m].name != rules[j].name
  }

  predicate OfFamily(rules: seq<Rule>, m: nat, i: nat)
    requires m < |rules|
  {
    m == i || Continues(rules, m, i)
  }

  /** A rule's alternatives, and in order those of the rules before `n` that extend it. */
  function ExtendedAlts(rules: seq<Rule>, i: nat, n: nat): seq<Sequence>
    requires i < n <= |rules|
  {
    if n == i + 1 then rules[i].alts
    else ExtendedAlts(rules, i, n - 1) + if Continues(rules, n - 1, i) then rules[n - 1].alts else []
  }

  /** The one annotation the rule or what extends it is followed by, or none. */
  ghost predicate ValueFits(p: Patterns, rules: seq<Rule>, cs: seq<Comment>, i: nat, value: Option<Annotation>) {
    && (forall j, m: nat ::
          0 <= j < |cs| && m < |rules| && OfFamily(rules, m, i) && Owns(p, RuleStarts(rules), cs, j, m) ==>
          var claim := p.claim(cs[j].body).value;
          value == if claim.isArray then Some(ArrayOf) else Some(ObjectOf(claim.members)))
    && ((forall j, m: nat :: 0 <= j < |cs| && m < |rules| && OfFamily(rules, m, i) ==>
           !Owns(p, RuleStarts(rules), cs, j, m)) ==> value == None)
  }

  /** The rules that extend none, in order. */
  predicate AreBases(rules: seq<Rule>, bases: seq<nat>) {
    && (forall k :: 0 <= k < |bases| ==> bases[k] < |rules| && !rules[bases[k]].incremental)
    && (forall k, l :: 0 <= k < l < |bases| ==> bases[k] < bases[l])
    && forall i: nat :: i < |rules| && !rules[i].incremental ==> i in bases
  }

  // ---- the lines the merge is given

  /** Lines that are rules, each with an annotation or none. */
  predicate LinesAre(lines: seq<Line>, rules: seq<Rule>) {
    && |lines| == |rules|
    && forall i :: 0 <= i < |rules| ==>
         && lines[i].name == rules[i].name && lines[i].alts == rules[i].alts && lines[i].sp == rules[i].sp
         && lines[i].incremental == rules[i].incremental && lines[i].nodeKind == None
  }

  lemma ExtendsAlike(lines: seq<Line>, rules: seq<Rule>, j: nat, i: nat)
    requires LinesAre(lines, rules) && j < |rules|
    ensures Extends(lines, j, i) <==> Continues(rules, j, i)
  {
    var last := LastNamed(lines, lines[j].name, j);
    if Continues(rules, j, i) {
      assert last.Some? && i <= last.value;
    }
  }

  lemma {:induction false} AltsAlike(lines: seq<Line>, rules: seq<Rule>, i: nat, n: nat)
    requires LinesAre(lines, rules) && i < n <= |rules|
    ensures FamilyAlts(lines, i, n) == ExtendedAlts(rules, i, n)
    decreases n
  {
    if n > i + 1 {
      AltsAlike(lines, rules, i, n - 1);
      ExtendsAlike(lines, rules, n - 1, i);
    }
  }

  lemma GivenAre(p: Patterns, blank: Blank, src: string, rules: seq<Rule>)
    ensures LinesAre(Given(p, blank, src, rules), rules)
    ensures StartsOf(LinesOf(rules)) == RuleStarts(rules)
  {
  }

  /** An annotation of the family is one of its lines'. */
  lemma {:induction false} ValuesOfLines(lines: seq<Line>, i: nat, n: nat, v: Annotation)
    requires i < n <= |lines|
    ensures v in FamilyValues(lines, i, n) <==>
            lines[i].value == Some(v) || exists m :: i < m < n && Extends(lines, m, i) && lines[m].value == Some(v)
    decreases n
  {
    if n > i + 1 {
      ValuesOfLines(lines, i, n - 1, v);
    }
  }

  /** Where at most one line of a family is annotated, the family's annotation is that line's. */
  lemma OnlyIs(lines: seq<Line>, rules: seq<Rule>, i: nat, m: nat)
    requires LinesAre(lines, rules) && i < |rules| && m < |rules| && OfFamily(rules, m, i)
    requires |FamilyValues(lines, i, |lines|)| <= 1 && lines[m].value.Some?
    ensures Only(FamilyValues(lines, i, |lines|)) == lines[m].value
  {
    ExtendsAlike(lines, rules, m, i);
    ValuesOfLines(lines, i, |lines|, lines[m].value.value);
  }

  lemma OnlyFrom(lines: seq<Line>, rules: seq<Rule>, i: nat)
    requires LinesAre(lines, rules) && i < |rules|
    requires forall m: nat :: m < |rules| && OfFamily(rules, m, i) ==> lines[m].value == None
    ensures Only(FamilyValues(lines, i, |lines|)) == None
  {
    if FamilyValues(lines, i, |lines|) != [] {
      var m := ValueFrom(lines, i, |lines|);
      ExtendsAlike(lines, rules, m, i);
      assert OfFamily(rules, m, i);
    }
  }

  /** What a claim gives. */
  predicate Gives(claim: Claim, value: Option<Annotation>) {
    value == if claim.isArray then Some(ArrayOf) else Some(ObjectOf(claim.members))
  }

  /** Each line given has the annotation that follows its rule, or none. */
  lemma LineGiven(p: Patterns, blank: Blank, src: string, rules: seq<Rule>, m: nat)
    requires Spanned(rules) && m < |rules| && AnnotationsFit(p, blank, src, rules)
    ensures var cs, value := CommentsFrom(blank, src, 0), Given(p, blank, src, rules)[m].value;
            && (forall j :: 0 <= j < |cs| && Owns(p, RuleStarts(rules), cs, j, m) ==>
                  Gives(p.claim(cs[j].body).value, value))
            && ((forall j :: 0 <= j < |cs| ==> !Owns(p, RuleStarts(rules), cs, j, m)) ==> value == None)
  {
    var lines := LinesOf(rules);
    GivenAre(p, blank, src, rules);
    assert lines[0].sp.Some?;
    AttachIsExact(p, blank, src, lines);
    assert GivenFrom(p, RuleStarts(rules), CommentsFrom(blank, src, 0), 0, ValuesOf(lines), m,
                     Attach(p, blank, src, lines).1[m]);
  }

  lemma FamilyGiven(p: Patterns, blank: Blank, src: string, rules: seq<Rule>, i: nat, j: nat, m: nat)
    requires Spanned(rules) && i < |rules| && AnnotationsFit(p, blank, src, rules)
    requires var lines := Given(p, blank, src, rules); |FamilyValues(lines, i, |lines|)| <= 1
    requires var cs := CommentsFrom(blank, src, 0); j < |cs| && m < |rules| && Owns(p, RuleStarts(rules), cs, j, m)
    requires OfFamily(rules, m, i)
    ensures var lines := Given(p, blank, src, rules);
            Gives(p.claim(CommentsFrom(blank, src, 0)[j].body).value, Only(FamilyValues(lines, i, |lines|)))
  {
    GivenAre(p, blank, src, rules);
    LineGiven(p, blank, src, rules, m);
    OnlyIs(Given(p, blank, src, rules), rules, i, m);
  }

  lemma FamilyValue(p: Patterns, blank: Blank, src: string, rules: seq<Rule>, i: nat)
    requires Spanned(rules) && i < |rules| && AnnotationsFit(p, blank, src, rules)
    requires var lines := Given(p, blank, src, rules); |FamilyValues(lines, i, |lines|)| <= 1
    ensures var lines := Given(p, blank, src, rules);
            ValueFits(p, rules, CommentsFrom(blank, src, 0), i, Only(FamilyValues(lines, i, |lines|)))
  {
    var lines, cs, starts := Given(p, blank, src, rules), CommentsFrom(blank, src, 0), RuleStarts(rules);
    forall j, m: nat | 0 <= j < |cs| && m < |rules| && OfFamily(rules, m, i) && Owns(p, starts, cs, j, m)
      ensures Gives(p.claim(cs[j].body).value, Only(FamilyValues(lines, i, |lines|)))
    {
      FamilyGiven(p, blank, src, rules, i, j, m);
    }
    if forall j, m: nat :: 0 <= j < |cs| && m < |rules| && OfFamily(rules, m, i) ==> !Owns(p, starts, cs, j, m) {
      forall m: nat | m < |rules| && OfFamily(rules, m, i) ensures lines[m].value == None {
        LineGiven(p, blank, src, rules, m);
      }
      GivenAre(p, blank, src, rules);
      OnlyFrom(lines, rules, i);
    }
  }

  // ---- what is returned

  /** What a production returned holds of the rule at `i` and those that extend it. */
  ghost predicate ProductionIs(p: Patterns, rules: seq<Rule>, cs: seq<Comment>, i: nat, line: Line)
    requires i < |rules|
  {
    && line.name == rules[i].name && line.sp == rules[i].sp && !line.incremental && line.nodeKind == None
    && line.alts == ExtendedAlts(rules, i, |rules|) && ValueFits(p, rules, cs, i, line.value)
  }

  lemma FamilyIs(p: Patterns, blank: Blank, src: string, rules: seq<Rule>, i: nat)
    requires Spanned(rules) && i < |rules| && !rules[i].incremental && AnnotationsFit(p, blank, src, rules)
    requires Mergeable(Given(p, blank, src, rules), |rules|)
    ensures ProductionIs(p, rules, CommentsFrom(blank, src, 0), i, Family(Given(p, blank, src, rules), i, |rules|))
  {
    var lines := Given(p, blank, src, rules);
    GivenAre(p, blank, src, rules);
    AltsAlike(lines, rules, i, |lines|);
    assert |FamilyValues(lines, i, |lines|)| <= 1;
    FamilyValue(p, blank, src, rules, i);
  }

  /** Where the passes succeed there is one production for each rule that extends none, in
      order. Each has that rule's name and span, its alternatives and then those of the rules
      that extend it, and the one annotation that follows one of them. */
  lemma UserIsExact(p: Patterns, blank: Blank, src: string, rules: seq<Rule>, core: seq<C.Production>)
    returns (bases: seq<nat>)
    requires Spanned(rules) && AfterParse(p, blank, src, rules, core).Grammar?
    ensures AreBases(rules, bases)
    ensures var user := AfterParse(p, blank, src, rules, core).user;
            && |user| == |bases|
            && forall k :: 0 <= k < |bases| ==> ProductionIs(p, rules, CommentsFrom(blank, src, 0), bases[k], user[k])
  {
    var lines := Given(p, blank, src, rules);
    SucceedsExactly(p, blank, src, rules, core);
    MergeIsExact(lines, |lines|);
    GivenAre(p, blank, src, rules);
    bases := Bases(lines, |lines|);
    forall k | 0 <= k < |bases|
      ensures ProductionIs(p, rules, CommentsFrom(blank, src, 0), bases[k], Family(lines, bases[k], |lines|))
    {
      FamilyIs(p, blank, src, rules, bases[k]);
    }
  }

  /** And the core rules behind them are added in turn, for what the rules parsed name and
      reference. */
  lemma AddedAreInTurn(p: Patterns, blank: Blank, src: string, rules: seq<Rule>, core: seq<C.Production>)
    returns (places: seq<nat>)
    requires AfterParse(p, blank, src, rules, core).Grammar?
    ensures O.InTurn(core, RuleNames(rules), RuleRefs(rules), AfterParse(p, blank, src, rules, core).added, places)
  {
    UserRefers(p, blank, src, rules, core);
    places := O.AddedInTurn(core, Referring(AfterParse(p, blank, src, rules, core).user));
  }

  // ---- what is refused

  /** The comment at `m` is the first that is wrong, and this is what is wrong with it. */
  ghost predicate FirstWrongComment(p: Patterns, starts: Starts, cs: seq<Comment>, m: nat, e: Annotations.Refusal,
                                    taken: set<nat>)
  {
    && m < |cs| && AcceptableTo(p, starts, cs, m) && WrongAt(p, starts, cs, m, e, taken)
    && forall i :: i in taken ==> exists j :: 0 <= j < m && Owns(p, starts, cs, j, i)
  }

  /** The rule at `i` extends none and it or what extends it holds a hole, as none before does. */
  predicate FirstHoled(rules: seq<Rule>, i: nat) {
    && i < |rules| && !rules[i].incremental && HoleAmong(ExtendedAlts(rules, i, |rules|))
    && forall m :: 0 <= m < i && !rules[m].incremental ==> !HoleAmong(ExtendedAlts(rules, m, |rules|))
  }

  lemma {:induction false} FirstHoleIs(lines: seq<Line>) returns (k: nat)
    requires FirstHole(lines).Some?
    ensures k < |lines| && FirstHole(lines) == Some(lines[k].name) && HoleAmong(lines[k].alts)
    ensures forall m :: 0 <= m < k ==> !HoleAmong(lines[m].alts)
  {
    if HoleAmong(lines[0].alts) {
      k := 0;
    } else {
      k := FirstHoleIs(lines[1..]);
      k := k + 1;
    }
  }

  lemma HoledFamily(lines: seq<Line>, rules: seq<Rule>) returns (i: nat)
    requires LinesAre(lines, rules) && FirstHole(Families(lines, |lines|)).Some?
    ensures FirstHoled(rules, i) && FirstHole(Families(lines, |lines|)) == Some(rules[i].name)
  {
    var n := |lines|;
    var bases := Bases(lines, n);
    var k := FirstHoleIs(Families(lines, n));
    i := bases[k];
    AltsAlike(lines, rules, i, n);
    forall m: nat | m < i && !rules[m].incremental ensures !HoleAmong(ExtendedAlts(rules, m, n)) {
      assert m in bases;
      var l :| 0 <= l < |bases| && bases[l] == m;
      assert l < k;
      AltsAlike(lines, rules, m, n);
      assert Families(lines, n)[l].alts == FamilyAlts(lines, m, n);
    }
  }

  /** Where they do not succeed the passes say why: there is no rule; or the first comment that
      is wrong, and what is wrong with it; or, of annotations that fit, the first line with
      nothing to extend or a second annotation; or, of lines that merge, the first rule that
      holds a hole with what extends it. */
  lemma RefusalIsExact(p: Patterns, blank: Blank, src: string, rules: seq<Rule>, core: seq<C.Production>)
    requires Spanned(rules) && AfterParse(p, blank, src, rules, core).No?
    ensures var lines := Given(p, blank, src, rules);
            match AfterParse(p, blank, src, rules, core).why
            case NoProductions => rules == []
            case BadAnnotation(e) =>
              exists m, taken :: FirstWrongComment(p, RuleStarts(rules), CommentsFrom(blank, src, 0), m, e, taken)
            case BadMerge(e) =>
              AnnotationsFit(p, blank, src, rules)
              && exists j :: 0 <= j < |lines| && Mergeable(lines, j) && RefusedAt(lines, j, e)
            case Malformed(name) =>
              AnnotationsFit(p, blank, src, rules) && Mergeable(lines, |lines|)
              && exists i :: 0 <= i < |rules| && FirstHoled(rules, i) && rules[i].name == name
  {
    if rules != [] {
      var lines := Given(p, blank, src, rules);
      GivenAre(p, blank, src, rules);
      assert LinesOf(rules)[0].sp.Some?;
      AttachIsExact(p, blank, src, LinesOf(rules));
      MergeIsExact(lines, |lines|);
      match AfterParse(p, blank, src, rules, core).why
      case BadAnnotation(e) =>
        var m, taken := RefusalIsFirst(p, blank, src, LinesOf(rules));
        assert FirstWrongComment(p, RuleStarts(rules), CommentsFrom(blank, src, 0), m, e, taken);
      case BadMerge(e) => var j := MergeRefusal(lines, |lines|);
      case Malformed(name) => var i := HoledFamily(lines, rules);
      case NoProductions =>
    }
  }
}
