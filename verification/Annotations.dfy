/** Annotations attached to the productions they follow, by a cursor that only moves forward. */
module Annotations {
  import opened Strings
  import opened Productions
  import opened Comments

  /** An annotation as a comment claims it: its kind and the words after it. */
  datatype Claim = Claim(isArray: bool, members: seq<string>)

  /** The notation's patterns: what claim a comment's text makes, and what names a member. */
  datatype Patterns = Patterns(claim: string -> Option<Claim>, member: string -> bool)

  datatype Refusal =
    | BeforeAnyRule(body: string)
    | ArrayWithMembers(rule: nat)
    | NoMemberName(rule: nat, member: string)
    | MemberTwice(rule: nat, member: string)
    | TwoAnnotations(rule: nat)

  // ---- the owner of a place in the text

  /** Where each production starts, for those with a span. */
  type Starts = seq<Option<nat>>

  /** Whether a production starts before the place, no earlier than another does. */
  predicate Follows(starts: Starts, at: nat, i: nat, other: Option<nat>)
    requires i < |starts|
  {
    starts[i].Some? && starts[i].value < at
    && (other.Some? && other.value < |starts| && starts[other.value].Some? ==>
          starts[other.value].value <= starts[i].value)
  }

  /** The last of the first `n` productions that starts before a place: the latest start, and
      the later production of two that share it. */
  function LastBefore(starts: Starts, at: nat, n: nat): (r: Option<nat>)
    requires n <= |starts|
    ensures r.Some? ==> r.value < n && starts[r.value].Some? && starts[r.value].value < at
  {
    if n == 0 then None
    else
      var r := LastBefore(starts, at, n - 1);
      if Follows(starts, at, n - 1, r) then Some(n - 1) else r
  }

  function Owner(starts: Starts, at: nat): (r: Option<nat>)
    ensures r.Some? ==> r.value < |starts| && starts[r.value].Some? && starts[r.value].value < at
  {
    LastBefore(starts, at, |starts|)
  }

  /** Earlier in the text, or at the same place and earlier in the list. */
  predicate Sooner(starts: Starts, i: nat, j: nat)
    requires i < |starts| && j < |starts| && starts[i].Some? && starts[j].Some?
  {
    starts[i].value < starts[j].value || (starts[i].value == starts[j].value && i <= j)
  }

  /** No production that starts before the place is later than the owner. */
  lemma {:induction false} LastIsLatest(starts: Starts, at: nat, n: nat)
    requires n <= |starts|
    ensures forall i :: 0 <= i < n && starts[i].Some? && starts[i].value < at ==>
              LastBefore(starts, at, n).Some? && Sooner(starts, i, LastBefore(starts, at, n).value)
  {
    if n > 0 {
      LastIsLatest(starts, at, n - 1);
    }
  }

  // ---- the productions in the order they start

  predicate InOrder(starts: Starts, order: seq<nat>) {
    && (forall k :: 0 <= k < |order| ==> order[k] < |starts| && starts[order[k]].Some?)
    && forall j, k :: 0 <= j < k < |order| ==> Sooner(starts, order[j], order[k])
  }

  /** A production put behind every one that starts no later. */
  function Insert(starts: Starts, order: seq<nat>, i: nat): seq<nat>
    requires InOrder(starts, order) && i < |starts| && starts[i].Some?
  {
    if order == [] then [i]
    else if starts[order[|order| - 1]].value <= starts[i].value then order + [i]
    else Insert(starts, order[..|order| - 1], i) + [order[|order| - 1]]
  }

  predicate AllBelow(order: seq<nat>, i: nat) { forall k :: 0 <= k < |order| ==> order[k] < i }

  lemma {:induction false} InsertKeeps(starts: Starts, order: seq<nat>, i: nat)
    requires InOrder(starts, order) && i < |starts| && starts[i].Some? && AllBelow(order, i)
    ensures InOrder(starts, Insert(starts, order, i))
    ensures forall m: nat :: m in Insert(starts, order, i) <==> m in order || m == i
    decreases |order|
  {
    if order == [] {
    } else if starts[order[|order| - 1]].value <= starts[i].value {
      InOrderSnoc(starts, order, i);
    } else {
      var init, last := order[..|order| - 1], order[|order| - 1];
      assert order == init + [last];
      InsertKeeps(starts, init, i);
      var r := Insert(starts, init, i);
      assert r != [] && r[|r| - 1] in r;
      if r[|r| - 1] != i {
        var m :| 0 <= m < |init| && init[m] == r[|r| - 1];
        assert Sooner(starts, order[m], order[|init|]);
      }
      InOrderSnoc(starts, r, last);
    }
  }

  lemma InOrderSnoc(starts: Starts, order: seq<nat>, i: nat)
    requires InOrder(starts, order) && i < |starts| && starts[i].Some?
    requires order != [] ==> Sooner(starts, order[|order| - 1], i)
    ensures InOrder(starts, order + [i])
  {
    forall k | 0 <= k < |order| ensures Sooner(starts, order[k], i) {
      assert k == |order| - 1 || Sooner(starts, order[k], order[|order| - 1]);
    }
  }

  /** The first `n` productions with a span, by where they start: a stable sort. */
  function Ordered(starts: Starts, n: nat): (r: seq<nat>)
    requires n <= |starts|
    ensures InOrder(starts, r) && forall m: nat :: m in r <==> m < n && starts[m].Some?
  {
    if n == 0 then []
    else
      var r := Ordered(starts, n - 1);
      if starts[n - 1].Some? then
        assert AllBelow(r, n - 1) by {
          assert forall k :: 0 <= k < |r| ==> r[k] in r;
        }
        InsertKeeps(starts, r, n - 1);
        Insert(starts, r, n - 1)
      else r
  }

  /** Where the cursor stops is just past the owner. */
  lemma CursorIsSearch(starts: Starts, order: seq<nat>, at: nat, idx: nat)
    requires InOrder(starts, order) && forall m: nat :: m in order <==> m < |starts| && starts[m].Some?
    requires idx <= |order|
    requires forall k :: 0 <= k < idx ==> starts[order[k]].value < at
    requires idx < |order| ==> starts[order[idx]].value >= at
    ensures Owner(starts, at) == if idx == 0 then None else Some(order[idx - 1])
  {
    var owner := Owner(starts, at);
    LastIsLatest(starts, at, |starts|);
    forall k | idx <= k < |order| ensures starts[order[k]].value >= at {
      assert idx == k || Sooner(starts, order[idx], order[k]);
    }
    if owner.Some? {
      assert owner.value in order;
      var k :| 0 <= k < |order| && order[k] == owner.value;
      assert k < idx;
      assert k == idx - 1 || Sooner(starts, order[k], order[idx - 1]);
    }
    if idx > 0 {
      assert order[idx - 1] in order;
    }
  }

  // ---- what a claim must be

  /** The first member refused: one that is no rule name, or one named before. */
  function CheckMembers(p: Patterns, rule: nat, ms: seq<string>, i: nat): Option<Refusal>
    requires i <= |ms|
    decreases |ms| - i
  {
    if i == |ms| then None
    else if !p.member(ms[i]) then Some(NoMemberName(rule, ms[i]))
    else if ms[i] in ms[..i] then Some(MemberTwice(rule, ms[i]))
    else CheckMembers(p, rule, ms, i + 1)
  }

  function CheckClaim(p: Patterns, rule: nat, c: Claim): Option<Refusal> {
    if c.isArray then (if c.members != [] then Some(ArrayWithMembers(rule)) else None)
    else CheckMembers(p, rule, c.members, 0)
  }

  /** An array that names no members, or members that are rule names, each once. */
  predicate WellFormed(p: Patterns, c: Claim) {
    if c.isArray then c.members == []
    else
      && (forall i :: 0 <= i < |c.members| ==> p.member(c.members[i]))
      && forall i, j :: 0 <= i < j < |c.members| ==> c.members[i] != c.members[j]
  }

  lemma {:induction false} MembersPass(p: Patterns, rule: nat, ms: seq<string>, i: nat)
    requires i <= |ms|
    ensures CheckMembers(p, rule, ms, i).None? <==>
            forall j :: i <= j < |ms| ==> p.member(ms[j]) && ms[j] !in ms[..j]
    decreases |ms| - i
  {
    if i < |ms| {
      MembersPass(p, rule, ms, i + 1);
    }
  }

  lemma ClaimPasses(p: Patterns, rule: nat, c: Claim)
    ensures CheckClaim(p, rule, c).None? <==> WellFormed(p, c)
  {
    if !c.isArray {
      MembersPass(p, rule, c.members, 0);
      forall j | 0 <= j < |c.members|
        ensures c.members[j] !in c.members[..j] <==> forall i :: 0 <= i < j ==> c.members[i] != c.members[j]
      {
        assert forall i :: 0 <= i < j ==> c.members[..j][i] == c.members[i];
      }
    }
  }

  function AnnotationOf(c: Claim): Annotation {
    if c.isArray then ArrayOf else ObjectOf(c.members)
  }

  // ---- attaching them, comment by comment

  type Values = seq<Option<Annotation>>

  /** One comment: what it makes of the annotations, or why it is refused. */
  function AttachOne(p: Patterns, starts: Starts, c: Comment, values: Values): (Option<Refusal>, Values)
    requires |values| == |starts|
  {
    match p.claim(c.body)
    case None => (None, values)
    case Some(claim) =>
      match Owner(starts, c.at)
      case None => (Some(BeforeAnyRule(c.body)), values)
      case Some(owner) =>
        match CheckClaim(p, owner, claim)
        case Some(e) => (Some(e), values)
        case None =>
          if values[owner].Some? then (Some(TwoAnnotations(owner)), values)
          else (None, values[owner := Some(AnnotationOf(claim))])
  }

  function AttachFrom(p: Patterns, starts: Starts, cs: seq<Comment>, k: nat, values: Values)
    : (r: (Option<Refusal>, Values))
    requires |values| == |starts| && k <= |cs|
    ensures |r.1| == |starts|
    decreases |cs| - k
  {
    if k == |cs| then (None, values)
    else
      var (e, next) := AttachOne(p, starts, cs[k], values);
      if e.Some? then (e, next) else AttachFrom(p, starts, cs, k + 1, next)
  }

  function StartsOf(lines: seq<Line>): (r: Starts)
    ensures |r| == |lines|
    ensures forall i :: 0 <= i < |lines| ==> r[i] == if lines[i].sp.Some? then Some(lines[i].sp.value.s) else None
  {
    seq(|lines|, i requires 0 <= i < |lines| => if lines[i].sp.Some? then Some(lines[i].sp.value.s) else None)
  }

  function ValuesOf(lines: seq<Line>): (r: Values)
    ensures |r| == |lines|
    ensures forall i :: 0 <= i < |lines| ==> r[i] == lines[i].value
  {
    seq(|lines|, i requires 0 <= i < |lines| => lines[i].value)
  }

  /** Every annotation in a text attached to the production it follows; without a span on
      any production, nothing is. */
  function Attach(p: Patterns, blank: Blank, src: string, lines: seq<Line>): (r: (Option<Refusal>, Values))
    ensures |r.1| == |lines|
  {
    if Ordered(StartsOf(lines), |lines|) == [] then (None, ValuesOf(lines))
    else AttachFrom(p, StartsOf(lines), CommentsFrom(blank, src, 0), 0, ValuesOf(lines))
  }

  // ---- which texts are accepted, and what each production is given

  /** Whether the comment at `j` claims an annotation for a production. */
  predicate Owns(p: Patterns, starts: Starts, cs: seq<Comment>, j: nat, i: nat)
    requires j < |cs|
  {
    p.claim(cs[j].body).Some? && Owner(starts, cs[j].at) == Some(i)
  }

  /** A comment that claims nothing, or a well-formed annotation after some production. */
  predicate Sound(p: Patterns, starts: Starts, cs: seq<Comment>, j: nat)
    requires j < |cs|
  {
    p.claim(cs[j].body).Some? ==> Owner(starts, cs[j].at).Some? && WellFormed(p, p.claim(cs[j].body).value)
  }

  /** Of the comments from `k` on, up to `m`: every one is sound, and no production has two
      annotations. */
  predicate Accepts(p: Patterns, starts: Starts, cs: seq<Comment>, k: nat, m: nat, values: Values)
    requires |values| == |starts| && k <= m <= |cs|
  {
    && (forall j :: k <= j < m ==> Sound(p, starts, cs, j))
    && (forall j, i: nat :: k <= j < m && i < |values| && Owns(p, starts, cs, j, i) ==> values[i].None?)
    && (forall j, l, i: nat ::
          k <= j < l < m && i < |values| && Owns(p, starts, cs, j, i) ==> !Owns(p, starts, cs, l, i))
  }

  /** What a production has once the comments from `k` on are attached: an array, or an object
      with the members claimed, in their order. */
  ghost predicate GivenFrom(p: Patterns, starts: Starts, cs: seq<Comment>, k: nat, values: Values, i: nat,
                            value: Option<Annotation>)
    requires |values| == |starts| && k <= |cs| && i < |values|
  {
    && (forall j :: k <= j < |cs| && Owns(p, starts, cs, j, i) ==>
          var claim := p.claim(cs[j].body).value;
          value == if claim.isArray then Some(ArrayOf) else Some(ObjectOf(claim.members)))
    && ((forall j :: k <= j < |cs| ==> !Owns(p, starts, cs, j, i)) ==> value == values[i])
  }

  lemma OneAccepted(p: Patterns, starts: Starts, cs: seq<Comment>, k: nat, m: nat, values: Values)
    requires |values| == |starts| && k < m <= |cs|
    ensures var (e, next) := AttachOne(p, starts, cs[k], values);
            && |next| == |values|
            && (Accepts(p, starts, cs, k, m, values) <==> e.None? && Accepts(p, starts, cs, k + 1, m, next))
  {
    if p.claim(cs[k].body).Some? && Owner(starts, cs[k].at).Some? {
      ClaimPasses(p, Owner(starts, cs[k].at).value, p.claim(cs[k].body).value);
      assert Owns(p, starts, cs, k, Owner(starts, cs[k].at).value);
    }
    var (e, next) := AttachOne(p, starts, cs[k], values);
    if Accepts(p, starts, cs, k, m, values) {
      assert Sound(p, starts, cs, k);
      StillAccepted(p, starts, cs, k, m, values, next);
    }
    if e.None? && Accepts(p, starts, cs, k + 1, m, next) {
      AcceptedBefore(p, starts, cs, k, m, values, next);
    }
  }

  lemma StillAccepted(p: Patterns, starts: Starts, cs: seq<Comment>, k: nat, m: nat, values: Values, next: Values)
    requires |values| == |starts| && k < m <= |cs| && Accepts(p, starts, cs, k, m, values)
    requires AttachOne(p, starts, cs[k], values) == (None, next) && |next| == |values|
    ensures Accepts(p, starts, cs, k + 1, m, next)
  {
    forall j, i: nat | k + 1 <= j < m && i < |next| && Owns(p, starts, cs, j, i) ensures next[i].None? {
      assert !Owns(p, starts, cs, k, i);
      assert values[i].None?;
    }
  }

  lemma AcceptedBefore(p: Patterns, starts: Starts, cs: seq<Comment>, k: nat, m: nat, values: Values, next: Values)
    requires |values| == |starts| && k < m <= |cs| && |next| == |values| && Accepts(p, starts, cs, k + 1, m, next)
    requires AttachOne(p, starts, cs[k], values) == (None, next) && Sound(p, starts, cs, k)
    ensures Accepts(p, starts, cs, k, m, values)
  {
    forall j, i: nat | k <= j < m && i < |values| && Owns(p, starts, cs, j, i) ensures values[i].None? {
      assert j > k ==> next[i].None?;
    }
    forall j, l, i: nat | k <= j < l < m && i < |values| && Owns(p, starts, cs, j, i)
      ensures !Owns(p, starts, cs, l, i)
    {
      if j == k {
        assert next[i].Some?;
      }
    }
  }

  lemma {:induction false} AttachesExactly(p: Patterns, starts: Starts, cs: seq<Comment>, k: nat, values: Values)
    requires |values| == |starts| && k <= |cs|
    ensures var (e, after) := AttachFrom(p, starts, cs, k, values);
            && (e.None? <==> Accepts(p, starts, cs, k, |cs|, values))
            && (e.None? ==> forall i: nat :: i < |values| ==> GivenFrom(p, starts, cs, k, values, i, after[i]))
    decreases |cs| - k
  {
    if k < |cs| {
      OneAccepted(p, starts, cs, k, |cs|, values);
      var (e, next) := AttachOne(p, starts, cs[k], values);
      if e.None? {
        AttachesExactly(p, starts, cs, k + 1, next);
        var (e2, after) := AttachFrom(p, starts, cs, k + 1, next);
        if e2.None? {
          forall i: nat | i < |values| ensures GivenFrom(p, starts, cs, k, values, i, after[i]) {
            GivenOne(p, starts, cs, k, values, next, i, after[i]);
          }
        }
      }
    }
  }

  lemma GivenOne(p: Patterns, starts: Starts, cs: seq<Comment>, k: nat, values: Values, next: Values, i: nat,
                 value: Option<Annotation>)
    requires |values| == |starts| && k < |cs| && |next| == |values| && i < |values|
    requires AttachOne(p, starts, cs[k], values) == (None, next) && Accepts(p, starts, cs, k, |cs|, values)
    requires GivenFrom(p, starts, cs, k + 1, next, i, value)
    ensures GivenFrom(p, starts, cs, k, values, i, value)
  {
    if Owns(p, starts, cs, k, i) {
      assert forall j :: k + 1 <= j < |cs| ==> !Owns(p, starts, cs, j, i);
      assert next[i] == Some(AnnotationOf(p.claim(cs[k].body).value));
    } else {
      assert next[i] == values[i];
    }
  }

  /** Every comment of the first `m` is sound, and no two are for one production. */
  predicate AcceptableTo(p: Patterns, starts: Starts, cs: seq<Comment>, m: nat)
    requires m <= |cs|
  {
    && (forall j :: 0 <= j < m ==> Sound(p, starts, cs, j))
    && forall j, l, i: nat ::
         0 <= j < l < m && i < |starts| && Owns(p, starts, cs, j, i) ==> !Owns(p, starts, cs, l, i)
  }

  predicate Acceptable(p: Patterns, starts: Starts, cs: seq<Comment>) { AcceptableTo(p, starts, cs, |cs|) }

  /** With no annotation to start from, a text's annotations are attached exactly when each is
      well-formed and follows a production, and no production is followed by two; each
      production then has the annotation that follows it. */
  lemma AttachIsExact(p: Patterns, blank: Blank, src: string, lines: seq<Line>)
    requires exists i :: 0 <= i < |lines| && lines[i].sp.Some?
    requires forall i :: 0 <= i < |lines| ==> lines[i].value.None?
    ensures var (e, after) := Attach(p, blank, src, lines);
            var starts, cs := StartsOf(lines), CommentsFrom(blank, src, 0);
            && (e.None? <==> Acceptable(p, starts, cs))
            && (e.None? ==> forall i: nat :: i < |lines| ==> GivenFrom(p, starts, cs, 0, ValuesOf(lines), i, after[i]))
  {
    var starts, cs := StartsOf(lines), CommentsFrom(blank, src, 0);
    var i: nat :| i < |lines| && lines[i].sp.Some?;
    assert i in Ordered(starts, |lines|);
    AttachesExactly(p, starts, cs, 0, ValuesOf(lines));
  }

  // ---- why a text is refused

  /** The first of the members that is no name, or that stands before. */
  ghost predicate FirstWrong(p: Patterns, ms: seq<string>, j: nat, twice: bool) {
    && j < |ms| && (if twice then p.member(ms[j]) && ms[j] in ms[..j] else !p.member(ms[j]))
    && forall i :: 0 <= i < j ==> p.member(ms[i]) && ms[i] !in ms[..i]
  }

  /** What is wrong with a claim for a production. */
  ghost predicate WrongClaim(p: Patterns, owner: nat, c: Claim, e: Refusal) {
    match e
    case ArrayWithMembers(rule) => rule == owner && c.isArray && c.members != []
    case NoMemberName(rule, member) =>
      rule == owner && !c.isArray && exists j: nat :: FirstWrong(p, c.members, j, false) && c.members[j] == member
    case MemberTwice(rule, member) =>
      rule == owner && !c.isArray && exists j: nat :: FirstWrong(p, c.members, j, true) && c.members[j] == member
    case _ => false
  }

  /** What is wrong with the comment at `m`, where `taken` are the productions annotated. */
  ghost predicate WrongAt(p: Patterns, starts: Starts, cs: seq<Comment>, m: nat, e: Refusal, taken: set<nat>)
    requires m < |cs|
  {
    && p.claim(cs[m].body).Some?
    && var claim := p.claim(cs[m].body).value;
       match e
       case BeforeAnyRule(body) =>
         body == cs[m].body && forall i :: 0 <= i < |starts| && starts[i].Some? ==> starts[i].value >= cs[m].at
       case TwoAnnotations(rule) => Owner(starts, cs[m].at) == Some(rule) && WellFormed(p, claim) && rule in taken
       case _ => Owner(starts, cs[m].at).Some? && WrongClaim(p, Owner(starts, cs[m].at).value, claim, e)
  }

  lemma {:induction false} MembersWrong(p: Patterns, rule: nat, ms: seq<string>, i: nat)
    requires i <= |ms| && CheckMembers(p, rule, ms, i).Some?
    requires forall j :: 0 <= j < i ==> p.member(ms[j]) && ms[j] !in ms[..j]
    ensures WrongClaim(p, rule, Claim(false, ms), CheckMembers(p, rule, ms, i).value)
    decreases |ms| - i
  {
    if !p.member(ms[i]) {
      assert FirstWrong(p, ms, i, false);
    } else if ms[i] in ms[..i] {
      assert FirstWrong(p, ms, i, true);
    } else {
      MembersWrong(p, rule, ms, i + 1);
    }
  }

  lemma NoneBefore(starts: Starts, at: nat)
    requires Owner(starts, at).None?
    ensures forall i :: 0 <= i < |starts| && starts[i].Some? ==> starts[i].value >= at
  {
    LastIsLatest(starts, at, |starts|);
  }

  ghost function Taken(values: Values): set<nat> { set i: nat | i < |values| && values[i].Some? }

  lemma OneWrong(p: Patterns, starts: Starts, cs: seq<Comment>, k: nat, values: Values)
    requires |values| == |starts| && k < |cs| && AttachOne(p, starts, cs[k], values).0.Some?
    ensures WrongAt(p, starts, cs, k, AttachOne(p, starts, cs[k], values).0.value, Taken(values))
  {
    var claim := p.claim(cs[k].body).value;
    if Owner(starts, cs[k].at).None? {
      NoneBefore(starts, cs[k].at);
    } else {
      var owner := Owner(starts, cs[k].at).value;
      ClaimPasses(p, owner, claim);
      if CheckClaim(p, owner, claim).Some? && !claim.isArray {
        MembersWrong(p, owner, claim.members, 0);
        assert claim == Claim(false, claim.members);
      }
    }
  }

  /** Annotated before the comment at `m`: by one of those from `k` on, or from the start. */
  ghost predicate TakenBy(p: Patterns, starts: Starts, cs: seq<Comment>, k: nat, m: nat, values: Values, i: nat)
    requires |values| == |starts| && k <= m <= |cs|
  {
    (i < |values| && values[i].Some?) || exists j :: k <= j < m && Owns(p, starts, cs, j, i)
  }

  lemma {:induction false} RefusesFrom(p: Patterns, starts: Starts, cs: seq<Comment>, k: nat, values: Values)
    returns (m: nat, taken: set<nat>)
    requires |values| == |starts| && k <= |cs| && AttachFrom(p, starts, cs, k, values).0.Some?
    ensures k <= m < |cs| && Accepts(p, starts, cs, k, m, values)
    ensures WrongAt(p, starts, cs, m, AttachFrom(p, starts, cs, k, values).0.value, taken)
    ensures forall i :: i in taken ==> TakenBy(p, starts, cs, k, m, values, i)
    decreases |cs| - k
  {
    var (e, next) := AttachOne(p, starts, cs[k], values);
    if e.Some? {
      OneWrong(p, starts, cs, k, values);
      m, taken := k, Taken(values);
    } else {
      m, taken := RefusesFrom(p, starts, cs, k + 1, next);
      OneAccepted(p, starts, cs, k, m, values);
      forall i | i in taken ensures TakenBy(p, starts, cs, k, m, values, i) {
        assert TakenBy(p, starts, cs, k + 1, m, next, i);
        assert i < |values| && next[i].Some? ==> values[i].Some? || Owns(p, starts, cs, k, i);
      }
    }
  }

  /** A text refused is refused for the first comment that is wrong, for what is wrong with it:
      no production before it, an array with members, the first member that is no name or is
      named twice, or a production an earlier comment annotates. */
  lemma RefusalIsFirst(p: Patterns, blank: Blank, src: string, lines: seq<Line>) returns (m: nat, taken: set<nat>)
    requires forall i :: 0 <= i < |lines| ==> lines[i].value.None?
    requires Attach(p, blank, src, lines).0.Some?
    ensures var starts, cs := StartsOf(lines), CommentsFrom(blank, src, 0);
            && m < |cs| && AcceptableTo(p, starts, cs, m)
            && WrongAt(p, starts, cs, m, Attach(p, blank, src, lines).0.value, taken)
            && forall i :: i in taken ==> exists j :: 0 <= j < m && Owns(p, starts, cs, j, i)
  {
    var starts, cs := StartsOf(lines), CommentsFrom(blank, src, 0);
    m, taken := RefusesFrom(p, starts, cs, 0, ValuesOf(lines));
    forall i | i in taken ensures exists j :: 0 <= j < m && Owns(p, starts, cs, j, i) {
      assert TakenBy(p, starts, cs, 0, m, ValuesOf(lines), i);
    }
  }

  // ---- the pass over the objects

  function Views(prods: seq<Production>): (r: seq<Line>)
    reads prods, set p | p in prods :: p.alts
    ensures |r| == |prods|
    ensures forall i :: 0 <= i < |prods| ==> r[i] == prods[i].View()
  {
    seq(|prods|, i requires 0 <= i < |prods| reads prods, set p | p in prods :: p.alts => prods[i].View())
  }

  predicate Apart(prods: seq<Production>) {
    forall i, j :: 0 <= i < j < |prods| ==> prods[i] != prods[j]
  }

  /** The members of an object are checked as the source's loop does. */
  method Members(p: Patterns, rule: nat, ms: seq<string>) returns (e: Option<Refusal>)
    ensures e == CheckMembers(p, rule, ms, 0)
  {
    var i := 0;
    while i < |ms|
      invariant 0 <= i <= |ms|
      invariant CheckMembers(p, rule, ms, 0) == CheckMembers(p, rule, ms, i)
    {
      if !p.member(ms[i]) {
        return Some(NoMemberName(rule, ms[i]));
      }
      if ms[i] in ms[..i] {
        return Some(MemberTwice(rule, ms[i]));
      }
      i := i + 1;
    }
    e := None;
  }

  /** One comment's annotation, given the owner the cursor found. */
  method AttachTo(p: Patterns, c: Comment, owner: Option<nat>, prods: seq<Production>, ghost starts: Starts)
    returns (e: Option<Refusal>)
    requires Apart(prods) && |starts| == |prods| && owner == Owner(starts, c.at)
    modifies prods
    ensures (e, ValuesOf(Views(prods))) == AttachOne(p, starts, c, old(ValuesOf(Views(prods))))
    ensures forall q :: q in prods ==> old(q.alts.items) == q.alts.items
  {
    ghost var before := ValuesOf(Views(prods));
    var found := p.claim(c.body);
    if found.None? {
      assert ValuesOf(Views(prods)) == before;
      return None;
    }
    if owner.None? {
      assert ValuesOf(Views(prods)) == before;
      return Some(BeforeAnyRule(c.body));
    }
    var claim := found.value;
    var i := owner.value;
    if claim.isArray {
      e := if claim.members != [] then Some(ArrayWithMembers(i)) else None;
    } else {
      e := Members(p, i, claim.members);
    }
    if e.Some? {
      assert ValuesOf(Views(prods)) == before;
      return;
    }
    if prods[i].value.Some? {
      assert ValuesOf(Views(prods)) == before;
      return Some(TwoAnnotations(i));
    }
    prods[i].value := Some(AnnotationOf(claim));
    assert ValuesOf(Views(prods)) == before[i := Some(AnnotationOf(claim))];
  }

  /** The cursor moved forward past every production that starts before a place; the owner is
      the one it passed last. */
  method Advance(starts: Starts, order: seq<nat>, at: nat, from: nat) returns (idx: nat, owner: Option<nat>)
    requires InOrder(starts, order) && forall m: nat :: m in order <==> m < |starts| && starts[m].Some?
    requires from <= |order| && forall m :: 0 <= m < from ==> starts[order[m]].value < at
    ensures from <= idx <= |order| && forall m :: 0 <= m < idx ==> starts[order[m]].value < at
    ensures owner == Owner(starts, at)
  {
    idx := from;
    while idx < |order| && starts[order[idx]].value < at
      invariant from <= idx <= |order|
      invariant forall m :: 0 <= m < idx ==> starts[order[m]].value < at
    {
      idx := idx + 1;
    }
    CursorIsSearch(starts, order, at, idx);
    owner := if idx == 0 then None else Some(order[idx - 1]);
  }

  /** `attachValueAnnotations`: the cursor never moves back. */
  method AttachValueAnnotations(p: Patterns, blank: Blank, src: string, prods: seq<Production>)
    returns (e: Option<Refusal>)
    requires Apart(prods)
    modifies prods
    ensures (e, ValuesOf(Views(prods))) == Attach(p, blank, src, old(Views(prods)))
  {
    ghost var lines := Views(prods);
    var starts := seq(|prods|, i requires 0 <= i < |prods| =>
      if prods[i].sp.Some? then Some(prods[i].sp.value.s) else None);
    assert starts == StartsOf(lines);
    var ordered := Ordered(starts, |prods|);
    if |ordered| == 0 {
      return None;
    }
    var comments := AnnotationComments(blank, src);
    ScanAscends(blank, src, 0);
    var idx := 0;
    var k := 0;
    while k < |comments|
      invariant 0 <= k <= |comments| && idx <= |ordered|
      invariant forall m :: 0 <= m < idx && k < |comments| ==> starts[ordered[m]].value < comments[k].at
      invariant AttachFrom(p, starts, comments, k, ValuesOf(Views(prods)))
             == AttachFrom(p, starts, comments, 0, ValuesOf(lines))
    {
      var c := comments[k];
      var owner;
      idx, owner := Advance(starts, ordered, c.at, idx);
      e := AttachTo(p, c, owner, prods, starts);
      if e.Some? {
        return;
      }
      k := k + 1;
    }
    e := None;
  }
}
