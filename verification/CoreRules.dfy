/** The core rules a grammar is given, and the ones it named itself, recovered from the order
    they were added in. */
module CoreRules {
  import opened Lists

  /** A production by its name and the names it references. */
  datatype Production = Production(name: string, refs: set<string>)

  function Names(prods: seq<Production>): set<string> { set p | p in prods :: p.name }

  function Refs(prods: seq<Production>): set<string> { set p, n | p in prods && n in p.refs :: n }

  predicate Distinct(prods: seq<Production>) {
    forall i, j :: 0 <= i < j < |prods| ==> prods[i].name != prods[j].name
  }

  /** What the loop holds: the names defined, the names referenced, the copies added. */
  datatype State = State(defined: set<string>, needed: set<string>, out: seq<Production>)

  function Start(user: seq<Production>): State { State(Names(user), Refs(user), []) }

  function Visit(p: Production, st: State): State {
    if p.name in st.defined || p.name !in st.needed then st
    else State(st.defined + {p.name}, st.needed + p.refs, st.out + [p])
  }

  /** A pass over the table, from the rule at `i` on. */
  function PassFrom(core: seq<Production>, i: nat, st: State): State
    requires i <= |core|
    decreases |core| - i
  {
    if i == |core| then st else PassFrom(core, i + 1, Visit(core[i], st))
  }

  /** How much of the table is left to add. */
  function Left(core: seq<Production>, st: State): nat { |Names(core) - st.defined| }

  lemma {:induction false} PassGrows(core: seq<Production>, i: nat, st: State)
    requires i <= |core|
    ensures var next := PassFrom(core, i, st);
            st.out <= next.out && st.defined <= next.defined && st.needed <= next.needed
    ensures PassFrom(core, i, st).out == st.out ==> PassFrom(core, i, st) == st
    ensures PassFrom(core, i, st).out != st.out ==> Left(core, PassFrom(core, i, st)) < Left(core, st)
    decreases |core| - i
  {
    if i < |core| {
      var next := Visit(core[i], st);
      PassGrows(core, i + 1, next);
      if next != st {
        assert core[i].name in Names(core) - st.defined;
        Fewer(Names(core), st.defined, next.defined, core[i].name);
        assert next.out != st.out;
      }
    }
  }

  lemma Fewer(all: set<string>, a: set<string>, b: set<string>, n: string)
    requires a <= b && n in all && n !in a && n in b
    ensures |all - b| < |all - a|
  {
    assert all - b <= (all - a) - {n};
    SubsetSize(all - b, (all - a) - {n});
  }

  lemma SubsetSize(a: set<string>, b: set<string>)
    requires a <= b
    ensures |a| <= |b|
  {
    assert b == a + (b - a);
  }

  /** Passes, until one adds nothing. */
  function Settle(core: seq<Production>, st: State): State
    decreases Left(core, st)
  {
    PassGrows(core, 0, st);
    var next := PassFrom(core, 0, st);
    if next.out == st.out then st else Settle(core, next)
  }

  /** `withCoreRules`, once the user's productions hold no hole. */
  method WithCoreRules(core: seq<Production>, user: seq<Production>) returns (all: seq<Production>)
    ensures all == user + Settle(core, Start(user)).out
  {
    var defined := Names(user);
    var needed := Refs(user);
    var out: seq<Production> := [];
    var added := true;
    while added
      invariant Settle(core, State(defined, needed, out)) == Settle(core, Start(user))
      invariant !added ==> Settle(core, Start(user)) == State(defined, needed, out)
      decreases added, Left(core, State(defined, needed, out))
    {
      ghost var before := State(defined, needed, out);
      PassGrows(core, 0, before);
      added := false;
      var i := 0;
      while i < |core|
        invariant 0 <= i <= |core|
        invariant PassFrom(core, i, State(defined, needed, out)) == PassFrom(core, 0, before)
        invariant added <==> out != before.out
        invariant before.out <= out
      {
        var p := core[i];
        if p.name !in defined && p.name in needed {
          defined := defined + {p.name};
          out := out + [p];
          needed := needed + p.refs;
          added := true;
        }
        i := i + 1;
      }
    }
    all := user + out;
  }

  // ---- what is added: the least set closed under reference

  /** The names a grammar that references some and defines others must be given. */
  ghost predicate Closed(core: seq<Production>, defined: set<string>, needed: set<string>, given: set<string>) {
    forall p :: p in core && p.name !in defined && Called(core, needed, given, p.name) ==> p.name in given
  }

  /** Whether the grammar references a name, or a rule it is given does. */
  ghost predicate Called(core: seq<Production>, needed: set<string>, given: set<string>, name: string) {
    name in needed || exists q :: q in core && q.name in given && name in q.refs
  }

  /** Each rule added was referenced by the user or by one added before it. */
  predicate Asked(needed: set<string>, out: seq<Production>) {
    forall k :: 0 <= k < |out| ==> out[k].name in needed || out[k].name in Refs(out[..k])
  }

  ghost predicate Inv(core: seq<Production>, user: State, st: State) {
    && st.defined == user.defined + Names(st.out)
    && st.needed == user.needed + Refs(st.out)
    && Distinct(st.out)
    && Names(st.out) !! user.defined
    && (forall p :: p in st.out ==> p in core)
    && Asked(user.needed, st.out)
  }

  lemma NamesSnoc(out: seq<Production>, p: Production)
    ensures Names(out + [p]) == Names(out) + {p.name}
    ensures Refs(out + [p]) == Refs(out) + p.refs
  {
  }

  lemma AskedSnoc(needed: set<string>, out: seq<Production>, p: Production)
    requires Asked(needed, out) && (p.name in needed || p.name in Refs(out))
    ensures Asked(needed, out + [p])
  {
    var r := out + [p];
    forall k | 0 <= k < |r| ensures r[k].name in needed || r[k].name in Refs(r[..k]) {
      if k < |out| {
        assert r[..k] == out[..k];
      } else {
        assert r[..k] == out;
      }
    }
  }

  lemma VisitKeeps(core: seq<Production>, user: State, p: Production, st: State)
    requires Inv(core, user, st) && p in core
    ensures Inv(core, user, Visit(p, st))
  {
    if Visit(p, st) != st {
      NamesSnoc(st.out, p);
      AskedSnoc(user.needed, st.out, p);
      assert forall q :: q in st.out ==> q.name in Names(st.out);
    }
  }

  lemma {:induction false} PassKeeps(core: seq<Production>, user: State, i: nat, st: State)
    requires i <= |core| && Inv(core, user, st)
    ensures Inv(core, user, PassFrom(core, i, st))
    decreases |core| - i
  {
    if i < |core| {
      VisitKeeps(core, user, core[i], st);
      PassKeeps(core, user, i + 1, Visit(core[i], st));
    }
  }

  /** A pass that adds nothing passed every rule by. */
  lemma {:induction false} PassedBy(core: seq<Production>, i: nat, k: nat, st: State)
    requires i <= k < |core| && PassFrom(core, i, st).out == st.out
    ensures core[k].name in st.defined || core[k].name !in st.needed
    decreases k - i
  {
    PassGrows(core, i + 1, Visit(core[i], st));
    if i < k {
      PassedBy(core, i + 1, k, st);
    }
  }

  lemma {:induction false} SettleKeeps(core: seq<Production>, user: State, st: State)
    requires Inv(core, user, st)
    ensures Inv(core, user, Settle(core, st))
    ensures PassFrom(core, 0, Settle(core, st)).out == Settle(core, st).out
    decreases Left(core, st)
  {
    PassGrows(core, 0, st);
    var next := PassFrom(core, 0, st);
    if next.out != st.out {
      PassKeeps(core, user, 0, st);
      SettleKeeps(core, user, next);
    }
  }

  /** Every set closed under reference holds what was asked for. */
  lemma {:induction false} AskedIsLeast(core: seq<Production>, user: State, st: State, given: set<string>, k: nat)
    requires Inv(core, user, st) && Closed(core, user.defined, user.needed, given) && k < |st.out|
    ensures st.out[k].name in given
    decreases k
  {
    var p := st.out[k];
    assert p in st.out && p.name in Names(st.out);
    if p.name !in user.needed {
      var q :| q in st.out[..k] && p.name in q.refs;
      var m :| 0 <= m < k && st.out[..k][m] == q;
      AskedIsLeast(core, user, st, given, m);
      assert q in st.out;
    }
  }

  lemma CalledIsGiven(core: seq<Production>, user: State, st: State, p: Production)
    requires Distinct(core) && Inv(core, user, st) && PassFrom(core, 0, st).out == st.out
    requires p in core && p.name !in user.defined && Called(core, user.needed, Names(st.out), p.name)
    ensures p.name in Names(st.out)
  {
    var k :| 0 <= k < |core| && core[k] == p;
    PassedBy(core, 0, k, st);
    if p.name !in user.needed {
      var q :| q in core && q.name in Names(st.out) && p.name in q.refs;
      assert p.name in Refs(st.out);
    }
  }

  /** The rules added are exactly the least set of core rules, not the user's, that the user
      or an added rule references, each once. */
  lemma CoreIsLeast(core: seq<Production>, user: seq<Production>)
    requires Distinct(core)
    ensures var out := Settle(core, Start(user)).out;
            && Distinct(out)
            && (forall p :: p in out ==> p in core && p.name !in Names(user))
            && Closed(core, Names(user), Refs(user), Names(out))
            && forall given :: Closed(core, Names(user), Refs(user), given) ==> Names(out) <= given
  {
    var start := Start(user);
    var st := Settle(core, start);
    SettleKeeps(core, start, start);
    forall p | p in st.out ensures p.name !in Names(user) {
      assert p.name in Names(st.out);
    }
    forall p | p in core && p.name !in start.defined && Called(core, start.needed, Names(st.out), p.name)
      ensures p.name in Names(st.out)
    {
      CalledIsGiven(core, start, st, p);
    }
    forall given, n | Closed(core, Names(user), Refs(user), given) && n in Names(st.out) ensures n in given {
      var p :| p in st.out && p.name == n;
      var k :| 0 <= k < |st.out| && st.out[k] == p;
      AskedIsLeast(core, start, st, given, k);
    }
  }

  // ---- the rules the user named, recovered from the order

  /** A name's place in the table, past its end where it has none. */
  function IndexOf(core: seq<Production>, name: string): (i: nat)
    ensures i <= |core| && (i < |core| ==> core[i].name == name)
    ensures forall k :: 0 <= k < i ==> core[k].name != name
  {
    if core == [] || core[0].name == name then 0
    else
      var i := 1 + IndexOf(core[1..], name);
      assert forall k :: 1 <= k <= |core| - 1 ==> core[1..][k - 1] == core[k];
      i
  }

  /** The first place after `i` whose rule stands before the one ahead of it in the table. */
  function FirstFall(core: seq<Production>, list: seq<Production>, i: nat): (f: nat)
    requires i <= |list|
    ensures i <= f <= |list|
    decreases |list| - i
  {
    if i == |list| then i
    else if i > 0 && IndexOf(core, list[i].name) < IndexOf(core, list[i - 1].name) then i
    else FirstFall(core, list, i + 1)
  }

  /** `abnf-direct-core`, of the core rules in the order they stand. */
  function DirectCore(core: seq<Production>, list: seq<Production>): seq<Production> {
    list[..FirstFall(core, list, 0)]
  }

  /** The core rules the user references and does not define, in table order. */
  function Direct(core: seq<Production>, user: State): seq<Production> {
    Filter(core, (p: Production) => p.name !in user.defined && p.name in user.needed)
  }

  /** Every reference of a core rule is to one earlier in the table. */
  predicate Backward(core: seq<Production>) {
    forall i, n :: 0 <= i < |core| && n in core[i].refs ==> IndexOf(core, n) < i
  }

  lemma FilterSnoc<T(!new)>(a: seq<T>, x: T, keep: T -> bool)
    ensures Filter(a + [x], keep) == Filter(a, keep) + if keep(x) then [x] else []
    decreases |a|
  {
    if a == [] {
      assert [x][1..] == [];
    } else {
      assert (a + [x])[0] == a[0] && (a + [x])[1..] == a[1..] + [x];
      FilterSnoc(a[1..], x, keep);
    }
  }

  lemma FilterConcat<T(!new)>(a: seq<T>, b: seq<T>, keep: T -> bool)
    ensures Filter(a + b, keep) == Filter(a, keep) + Filter(b, keep)
    decreases |a|
  {
    if a == [] {
      assert a + b == b;
    } else {
      assert (a + b)[0] == a[0] && (a + b)[1..] == a[1..] + b;
      FilterConcat(a[1..], b, keep);
    }
  }

  lemma IndexOfSelf(core: seq<Production>, i: nat)
    requires Distinct(core) && i < |core|
    ensures IndexOf(core, core[i].name) == i
  {
    var j := IndexOf(core, core[i].name);
  }

  /** What the first pass has added before the rule at `i`. */
  ghost predicate FirstPass(core: seq<Production>, user: State, i: nat, st: State)
    requires i <= |core|
  {
    && st.out == Direct(core[..i], user)
    && st.defined == user.defined + Names(st.out)
    && st.needed == user.needed + Refs(st.out)
  }

  /** Nothing added before a rule references it. */
  lemma NotAhead(core: seq<Production>, i: nat, out: seq<Production>)
    requires Distinct(core) && Backward(core) && i < |core| && forall p :: p in out ==> p in core[..i]
    ensures core[i].name !in Names(out) && core[i].name !in Refs(out)
  {
    IndexOfSelf(core, i);
    forall p | p in out ensures p.name != core[i].name && core[i].name !in p.refs {
      var k :| 0 <= k < i && core[..i][k] == p;
      assert core[k] == p;
    }
  }

  lemma FirstPassStep(core: seq<Production>, user: State, i: nat, st: State)
    requires Distinct(core) && Backward(core) && i < |core| && FirstPass(core, user, i, st)
    ensures FirstPass(core, user, i + 1, Visit(core[i], st))
  {
    NotAhead(core, i, st.out);
    FilterSnoc(core[..i], core[i], (p: Production) => p.name !in user.defined && p.name in user.needed);
    assert core[..i + 1] == core[..i] + [core[i]];
    NamesSnoc(st.out, core[i]);
  }

  /** The first pass adds exactly the rules the user references and does not define. */
  lemma {:induction false} FirstPassIsDirect(core: seq<Production>, user: State, i: nat, st: State)
    requires Distinct(core) && Backward(core) && i <= |core| && FirstPass(core, user, i, st)
    ensures PassFrom(core, i, st).out == Direct(core, user)
    decreases |core| - i
  {
    if i < |core| {
      FirstPassStep(core, user, i, st);
      FirstPassIsDirect(core, user, i + 1, Visit(core[i], st));
    } else {
      assert core[..i] == core;
    }
  }

  predicate Rising(core: seq<Production>, list: seq<Production>) {
    forall a, b :: 0 <= a < b < |list| ==> IndexOf(core, list[a].name) < IndexOf(core, list[b].name)
  }

  lemma {:induction false} FilterRises(core: seq<Production>, list: seq<Production>, keep: Production -> bool)
    requires Rising(core, list)
    ensures Rising(core, Filter(list, keep))
  {
    if list != [] {
      FilterRises(core, list[1..], keep);
      var rest := Filter(list[1..], keep);
      forall b | 0 <= b < |rest| ensures IndexOf(core, list[0].name) < IndexOf(core, rest[b].name) {
        assert rest[b] in list[1..];
        var k :| 0 <= k < |list[1..]| && list[1..][k] == rest[b];
        assert list[k + 1] == rest[b];
      }
    }
  }

  /** A list that rises, then falls at once, falls first where it turns. */
  lemma {:induction false} FallsAt(core: seq<Production>, a: seq<Production>, b: seq<Production>, i: nat)
    requires i <= |a| && Rising(core, a)
    requires b != [] ==> a != [] && IndexOf(core, b[0].name) < IndexOf(core, a[|a| - 1].name)
    ensures FirstFall(core, a + b, i) == |a|
    decreases |a| - i
  {
    if i < |a| {
      FallsAt(core, a, b, i + 1);
      assert i > 0 ==> (a + b)[i] == a[i] && (a + b)[i - 1] == a[i - 1];
    } else if b != [] {
      assert (a + b)[i] == b[0] && (a + b)[i - 1] == a[i - 1];
    }
  }

  /** Whether a list keeps every rule that references another. */
  ghost predicate KeepsReferring(core: seq<Production>, keep: Production -> bool) {
    forall p :: p in core && p.refs != {} ==> keep(p)
  }

  /** The first rule kept of those a later pass added is referenced by one the first pass did,
      which is kept. */
  lemma LaterIsCalled(core: seq<Production>, user: State, st: State, n: nat, keep: Production -> bool)
    returns (f: Production, q: Production)
    requires Distinct(core) && Inv(core, user, st) && KeepsReferring(core, keep)
    requires n <= |st.out| && st.out[..n] == Direct(core, user) && Filter(st.out[n..], keep) != []
    ensures f == Filter(st.out[n..], keep)[0] && q in Filter(st.out[..n], keep) && f.name in q.refs && q in core
  {
    var k := FirstKept(st.out, n, keep);
    f := st.out[n + k];
    q := Caller(core, user, st, n + k);
    assert keep(q);
  }

  lemma FirstKept(out: seq<Production>, n: nat, keep: Production -> bool) returns (k: nat)
    requires n <= |out| && Filter(out[n..], keep) != []
    ensures n + k < |out| && Filter(out[n..], keep)[0] == out[n + k]
    ensures forall j :: n <= j < n + k ==> !keep(out[j])
  {
    k := FilterFirst(out[n..], keep);
    forall j | n <= j < n + k ensures !keep(out[j]) {
      assert out[n..][j - n] == out[j];
    }
  }

  /** A rule the user does not reference is referenced by one added before it. */
  lemma Caller(core: seq<Production>, user: State, st: State, k: nat) returns (q: Production)
    requires Inv(core, user, st) && k < |st.out| && st.out[k].name !in user.needed
    ensures q in st.out[..k] && st.out[k].name in q.refs && q in core
  {
    q :| q in st.out[..k] && st.out[k].name in q.refs;
    assert q in st.out;
  }

  lemma DirectRises(core: seq<Production>, user: State, keep: Production -> bool)
    requires Distinct(core)
    ensures Rising(core, Filter(Direct(core, user), keep))
  {
    FilterRises(core, core, (p: Production) => p.name !in user.defined && p.name in user.needed);
    FilterRises(core, Direct(core, user), keep);
  }

  /** In a list that rises, one a rule references stands before the last. */
  lemma CalledIsEarlier(core: seq<Production>, a: seq<Production>, f: string, q: Production)
    requires Distinct(core) && Backward(core) && Rising(core, a) && q in a && q in core && f in q.refs
    ensures IndexOf(core, f) < IndexOf(core, a[|a| - 1].name)
  {
    var i :| 0 <= i < |core| && core[i] == q;
    IndexOfSelf(core, i);
    var j :| 0 <= j < |a| && a[j] == q;
    assert j == |a| - 1 || IndexOf(core, a[j].name) < IndexOf(core, a[|a| - 1].name);
  }

  lemma LaterFalls(core: seq<Production>, user: State, st: State, n: nat, keep: Production -> bool)
    requires Distinct(core) && Backward(core) && Inv(core, user, st) && KeepsReferring(core, keep)
    requires n <= |st.out| && st.out[..n] == Direct(core, user)
    ensures FirstFall(core, Filter(st.out[..n], keep) + Filter(st.out[n..], keep), 0) == |Filter(st.out[..n], keep)|
  {
    var a, b := Filter(st.out[..n], keep), Filter(st.out[n..], keep);
    DirectRises(core, user, keep);
    if b != [] {
      var f, q := LaterIsCalled(core, user, st, n, keep);
      CalledIsEarlier(core, a, f.name, q);
    }
    FallsAt(core, a, b, 0);
  }

  /** The rules the loop adds start with those of the first pass. */
  lemma FirstPassFirst(core: seq<Production>, user: seq<Production>)
    requires Distinct(core) && Backward(core)
    ensures Direct(core, Start(user)) <= Settle(core, Start(user)).out
  {
    var start := Start(user);
    FirstPassIsDirect(core, start, 0, start);
    var next := PassFrom(core, 0, start);
    PassGrows(core, 0, start);
    SettleGrows(core, next);
  }

  lemma {:induction false} SettleGrows(core: seq<Production>, st: State)
    ensures st.out <= Settle(core, st).out
    decreases Left(core, st)
  {
    PassGrows(core, 0, st);
    var next := PassFrom(core, 0, st);
    if next.out != st.out {
      SettleGrows(core, next);
    }
  }

  /** Cutting the order the core rules were added in at its first descent gives exactly the
      undefined ones the user referenced, even when rules without references are gone. */
  lemma DirectCoreIsDirect(core: seq<Production>, user: seq<Production>, keep: Production -> bool)
    requires Distinct(core) && Backward(core) && KeepsReferring(core, keep)
    ensures DirectCore(core, Filter(Settle(core, Start(user)).out, keep)) == Filter(Direct(core, Start(user)), keep)
  {
    var start := Start(user);
    var st := Settle(core, start);
    SettleKeeps(core, start, start);
    FirstPassFirst(core, user);
    var n := |Direct(core, start)|;
    LaterFalls(core, start, st, n, keep);
    CutInTwo(st.out, n, keep);
  }

  lemma CutInTwo(out: seq<Production>, n: nat, keep: Production -> bool)
    requires n <= |out|
    ensures Filter(out, keep) == Filter(out[..n], keep) + Filter(out[n..], keep)
    ensures Filter(out, keep)[..|Filter(out[..n], keep)|] == Filter(out[..n], keep)
  {
    assert out == out[..n] + out[n..];
    FilterConcat(out[..n], out[n..], keep);
  }

  // ---- the table of RFC 5234, Appendix B.1

  function CoreTable(): seq<Production> {
    [Production("ALPHA", {}), Production("BIT", {}), Production("CHAR", {}), Production("CR", {})] + FromLf()
  }

  function FromLf(): seq<Production> {
    [Production("LF", {}), Production("CRLF", {"CR", "LF"}), Production("CTL", {}), Production("DIGIT", {})]
    + FromDquote()
  }

  function FromDquote(): seq<Production> {
    [Production("DQUOTE", {}), Production("HEXDIG", {"DIGIT"}), Production("HTAB", {}), Production("OCTET", {})]
    + FromSp()
  }

  function FromSp(): seq<Production> {
    [Production("SP", {}), Production("VCHAR", {}), Production("WSP", {"SP", "HTAB"}),
     Production("LWSP", {"WSP", "CRLF"})]
  }

  /** Each rule new, and its references to ones already seen. */
  predicate Ordered(core: seq<Production>, seen: set<string>) {
    core == [] || (core[0].name !in seen && core[0].refs <= seen && Ordered(core[1..], seen + {core[0].name}))
  }

  lemma OrderedCons(p: Production, rest: seq<Production>, seen: set<string>)
    requires p.name !in seen && p.refs <= seen && Ordered(rest, seen + {p.name})
    ensures Ordered([p] + rest, seen)
  {
    assert ([p] + rest)[1..] == rest;
  }

  lemma {:induction false} OrderedAt(core: seq<Production>, i: nat, k: nat)
    requires i <= k < |core| && Ordered(core[i..], Names(core[..i]))
    ensures core[k].name !in Names(core[..k]) && core[k].refs <= Names(core[..k])
    decreases k - i
  {
    if i < k {
      assert core[..i + 1] == core[..i] + [core[i]];
      NamesSnoc(core[..i], core[i]);
      assert core[i..][1..] == core[i + 1..];
      OrderedAt(core, i + 1, k);
    }
  }

  lemma OrderedIsBackward(core: seq<Production>)
    requires Ordered(core, {})
    ensures Distinct(core) && Backward(core)
  {
    assert core[0..] == core && Names(core[..0]) == {};
    forall i, j | 0 <= i < j < |core| ensures core[i].name != core[j].name {
      OrderedAt(core, 0, j);
      assert core[i] in core[..j];
    }
    forall i, n | 0 <= i < |core| && n in core[i].refs ensures IndexOf(core, n) < i {
      OrderedAt(core, 0, i);
      var p :| p in core[..i] && p.name == n;
      var k :| 0 <= k < i && core[k] == p;
    }
  }

  lemma FromSpOrdered()
    ensures Ordered(FromSp(), {"ALPHA", "BIT", "CHAR", "CR", "LF", "CRLF", "CTL", "DIGIT", "DQUOTE",
                               "HEXDIG", "HTAB", "OCTET"})
  {
    var s0 := {"ALPHA", "BIT", "CHAR", "CR", "LF", "CRLF", "CTL", "DIGIT", "DQUOTE", "HEXDIG", "HTAB", "OCTET"};
    var s1 := s0 + {"SP"};
    var s2 := s1 + {"VCHAR"};
    var s3 := s2 + {"WSP"};
    var s4 := s3 + {"LWSP"};
    var t3 := Production("LWSP", {"WSP", "CRLF"});
    var t2 := Production("WSP", {"SP", "HTAB"});
    var t1 := Production("VCHAR", {});
    var t0 := Production("SP", {});
    OrderedCons(t3, [], s3);
    OrderedCons(t2, [t3], s2);
    OrderedCons(t1, [t2] + ([t3]), s1);
    OrderedCons(t0, [t1] + ([t2] + ([t3])), s0);
    assert FromSp() == [t0] + ([t1] + ([t2] + ([t3])));
  }

  lemma FromDquoteOrdered()
    ensures Ordered(FromDquote(), {"ALPHA", "BIT", "CHAR", "CR", "LF", "CRLF", "CTL", "DIGIT"})
  {
    FromSpOrdered();
    var s0 := {"ALPHA", "BIT", "CHAR", "CR", "LF", "CRLF", "CTL", "DIGIT"};
    var s1 := s0 + {"DQUOTE"};
    var s2 := s1 + {"HEXDIG"};
    var s3 := s2 + {"HTAB"};
    var s4 := s3 + {"OCTET"};
    assert s4 == {"ALPHA", "BIT", "CHAR", "CR", "LF", "CRLF", "CTL", "DIGIT", "DQUOTE", "HEXDIG", "HTAB", "OCTET"};
    var t3 := Production("OCTET", {});
    var t2 := Production("HTAB", {});
    var t1 := Production("HEXDIG", {"DIGIT"});
    var t0 := Production("DQUOTE", {});
    OrderedCons(t3, FromSp(), s3);
    OrderedCons(t2, [t3] + FromSp(), s2);
    OrderedCons(t1, [t2] + ([t3] + FromSp()), s1);
    OrderedCons(t0, [t1] + ([t2] + ([t3] + FromSp())), s0);
    assert FromDquote() == [t0] + ([t1] + ([t2] + ([t3] + FromSp())));
  }

  lemma FromLfOrdered()
    ensures Ordered(FromLf(), {"ALPHA", "BIT", "CHAR", "CR"})
  {
    FromDquoteOrdered();
    var s0 := {"ALPHA", "BIT", "CHAR", "CR"};
    var s1 := s0 + {"LF"};
    var s2 := s1 + {"CRLF"};
    var s3 := s2 + {"CTL"};
    var s4 := s3 + {"DIGIT"};
    assert s4 == {"ALPHA", "BIT", "CHAR", "CR", "LF", "CRLF", "CTL", "DIGIT"};
    var t3 := Production("DIGIT", {});
    var t2 := Production("CTL", {});
    var t1 := Production("CRLF", {"CR", "LF"});
    var t0 := Production("LF", {});
    OrderedCons(t3, FromDquote(), s3);
    OrderedCons(t2, [t3] + FromDquote(), s2);
    OrderedCons(t1, [t2] + ([t3] + FromDquote()), s1);
    OrderedCons(t0, [t1] + ([t2] + ([t3] + FromDquote())), s0);
    assert FromLf() == [t0] + ([t1] + ([t2] + ([t3] + FromDquote())));
  }

  lemma CoreTableOrdered()
    ensures Ordered(CoreTable(), {})
  {
    FromLfOrdered();
    var s0: set<string> := {};
    var s1 := s0 + {"ALPHA"};
    var s2 := s1 + {"BIT"};
    var s3 := s2 + {"CHAR"};
    var s4 := s3 + {"CR"};
    assert s4 == {"ALPHA", "BIT", "CHAR", "CR"};
    var t3 := Production("CR", {});
    var t2 := Production("CHAR", {});
    var t1 := Production("BIT", {});
    var t0 := Production("ALPHA", {});
    OrderedCons(t3, FromLf(), s3);
    OrderedCons(t2, [t3] + FromLf(), s2);
    OrderedCons(t1, [t2] + ([t3] + FromLf()), s1);
    OrderedCons(t0, [t1] + ([t2] + ([t3] + FromLf())), s0);
    assert CoreTable() == [t0] + ([t1] + ([t2] + ([t3] + FromLf())));
  }

  /** The table is one the recovery is right for. */
  lemma CoreTableIsBackward()
    ensures Distinct(CoreTable()) && Backward(CoreTable())
  {
    CoreTableOrdered();
    OrderedIsBackward(CoreTable());
  }

  // ---- what the table holds

  /** The rules of the appendix, each with the ones it is written with. */
  predicate InAppendix(n: string, refs: set<string>) {
    if n == "CRLF" then refs == {"CR", "LF"}
    else if n == "HEXDIG" then refs == {"DIGIT"}
    else if n == "WSP" then refs == {"SP", "HTAB"}
    else if n == "LWSP" then refs == {"WSP", "CRLF"}
    else
      && refs == {}
      && (n == "ALPHA" || n == "BIT" || n == "CHAR" || n == "CR" || n == "LF" || n == "CTL" || n == "DIGIT"
          || n == "DQUOTE" || n == "HTAB" || n == "OCTET" || n == "SP" || n == "VCHAR")
  }

  lemma InSp(p: Production)
    ensures p in FromSp() <==>
            p == Production("SP", {}) || p == Production("VCHAR", {}) || p == Production("WSP", {"SP", "HTAB"})
            || p == Production("LWSP", {"WSP", "CRLF"})
  {
  }

  lemma InDquote(p: Production)
    ensures p in FromDquote() <==>
            p == Production("DQUOTE", {}) || p == Production("HEXDIG", {"DIGIT"}) || p == Production("HTAB", {})
            || p == Production("OCTET", {}) || p in FromSp()
  {
  }

  lemma InLf(p: Production)
    ensures p in FromLf() <==>
            p == Production("LF", {}) || p == Production("CRLF", {"CR", "LF"}) || p == Production("CTL", {})
            || p == Production("DIGIT", {}) || p in FromDquote()
  {
  }

  lemma InTable(p: Production)
    ensures p in CoreTable() <==>
            p == Production("ALPHA", {}) || p == Production("BIT", {}) || p == Production("CHAR", {})
            || p == Production("CR", {}) || p in FromLf()
  {
  }

  /** The table holds those and no other. */
  lemma TableHolds(p: Production)
    ensures p in CoreTable() <==> InAppendix(p.name, p.refs)
  {
    InTable(p);
    InLf(p);
    InDquote(p);
    InSp(p);
  }

  /** In the order of the appendix. */
  lemma TableOrder()
    ensures var t := CoreTable();
            && |t| == 16
            && t[0].name == "ALPHA" && t[1].name == "BIT" && t[2].name == "CHAR" && t[3].name == "CR"
            && t[4].name == "LF" && t[5].name == "CRLF" && t[6].name == "CTL" && t[7].name == "DIGIT"
            && t[8].name == "DQUOTE" && t[9].name == "HEXDIG" && t[10].name == "HTAB" && t[11].name == "OCTET"
            && t[12].name == "SP" && t[13].name == "VCHAR" && t[14].name == "WSP" && t[15].name == "LWSP"
  {
    assert FromSp()[3].name == "LWSP" && FromDquote()[4..] == FromSp() && FromLf()[4..] == FromDquote();
    assert CoreTable()[4..] == FromLf();
  }

  /** A rule of the table the user does not define is added where one added references it. */
  lemma PulledBy(core: seq<Production>, user: seq<Production>, q: Production, n: string, refs: set<string>)
    requires Distinct(core) && q in core && Production(n, refs) in core && n in q.refs && n !in Names(user)
    requires q.name in Names(Settle(core, Start(user)).out)
    ensures n in Names(Settle(core, Start(user)).out)
  {
    CoreIsLeast(core, user);
    assert Called(core, Refs(user), Names(Settle(core, Start(user)).out), n);
  }

  lemma PulledByUser(core: seq<Production>, user: seq<Production>, n: string, refs: set<string>)
    requires Distinct(core) && Production(n, refs) in core && n in Refs(user) && n !in Names(user)
    ensures n in Names(Settle(core, Start(user)).out)
  {
    CoreIsLeast(core, user);
    assert Called(core, Refs(user), Names(Settle(core, Start(user)).out), n);
  }

  /** The names a rule of the table is written with, at any remove, and its own. */
  function Pulled(name: string): set<string> {
    if name == "CRLF" then {"CRLF", "CR", "LF"}
    else if name == "HEXDIG" then {"HEXDIG", "DIGIT"}
    else if name == "WSP" then {"WSP", "SP", "HTAB"}
    else if name == "LWSP" then {"LWSP", "WSP", "SP", "HTAB", "CRLF", "CR", "LF"}
    else {name}
  }

  lemma PulledClosed(name: string, p: Production, q: Production)
    requires InAppendix(p.name, p.refs) && InAppendix(q.name, q.refs) && q.name in Pulled(name) && p.name in q.refs
    ensures p.name in Pulled(name)
  {
  }

  /** A user who names one core rule, and defines none. */
  predicate NamesOne(user: seq<Production>, name: string) {
    && name in Refs(user)
    && forall p :: p in CoreTable() ==> p.name !in Names(user) && (p.name in Refs(user) ==> p.name == name)
  }

  lemma NoMore(user: seq<Production>, name: string)
    requires NamesOne(user, name)
    ensures Closed(CoreTable(), Names(user), Refs(user), Pulled(name))
  {
    var core := CoreTable();
    forall p | p in core && Called(core, Refs(user), Pulled(name), p.name) ensures p.name in Pulled(name) {
      TableHolds(p);
      if p.name !in Refs(user) {
        var q :| q in core && q.name in Pulled(name) && p.name in q.refs;
        TableHolds(q);
        PulledClosed(name, p, q);
      }
    }
  }

  lemma NoLess(user: seq<Production>, name: string, refs: set<string>)
    requires NamesOne(user, name) && Production(name, refs) in CoreTable()
    ensures Pulled(name) <= Names(Settle(CoreTable(), Start(user)).out)
  {
    var core := CoreTable();
    CoreTableIsBackward();
    PulledByUser(core, user, name, refs);
    TableHolds(Production(name, refs));
    TablePulls(user, name);
    if name == "LWSP" {
      TablePulls(user, "WSP");
      TablePulls(user, "CRLF");
    }
  }

  /** What a rule added is written with is added. */
  lemma TablePulls(user: seq<Production>, name: string)
    requires forall p :: p in CoreTable() ==> p.name !in Names(user)
    requires name in Names(Settle(CoreTable(), Start(user)).out)
    ensures var added := Names(Settle(CoreTable(), Start(user)).out);
            && (name == "CRLF" ==> {"CR", "LF"} <= added) && (name == "HEXDIG" ==> {"DIGIT"} <= added)
            && (name == "WSP" ==> {"SP", "HTAB"} <= added) && (name == "LWSP" ==> {"WSP", "CRLF"} <= added)
  {
    if name == "CRLF" {
      TablePullsOne(user, Production(name, {"CR", "LF"}), "CR");
      TablePullsOne(user, Production(name, {"CR", "LF"}), "LF");
    } else if name == "HEXDIG" {
      TablePullsOne(user, Production(name, {"DIGIT"}), "DIGIT");
    } else if name == "WSP" {
      TablePullsOne(user, Production(name, {"SP", "HTAB"}), "SP");
      TablePullsOne(user, Production(name, {"SP", "HTAB"}), "HTAB");
    } else if name == "LWSP" {
      TablePullsOne(user, Production(name, {"WSP", "CRLF"}), "WSP");
      TablePullsOne(user, Production(name, {"WSP", "CRLF"}), "CRLF");
    }
  }

  /** What a rule of the table is written with is in the table. */
  lemma ReferredIsRule(q: Production, n: string) returns (refs: set<string>)
    requires InAppendix(q.name, q.refs) && n in q.refs
    ensures InAppendix(n, refs)
  {
    refs := if n == "WSP" then {"SP", "HTAB"} else if n == "CRLF" then {"CR", "LF"} else {};
  }

  lemma TablePullsOne(user: seq<Production>, q: Production, n: string)
    requires forall p :: p in CoreTable() ==> p.name !in Names(user)
    requires q.name in Names(Settle(CoreTable(), Start(user)).out) && InAppendix(q.name, q.refs) && n in q.refs
    ensures n in Names(Settle(CoreTable(), Start(user)).out)
  {
    var core := CoreTable();
    var refs := ReferredIsRule(q, n);
    CoreTableIsBackward();
    TableHolds(q);
    TableHolds(Production(n, refs));
    PulledBy(core, user, q, n, refs);
  }

  /** What each core rule pulls in, where a user names it alone: the rules it is written with, at
      any remove. */
  lemma CorePulls(user: seq<Production>, name: string, refs: set<string>)
    requires NamesOne(user, name) && Production(name, refs) in CoreTable()
    ensures Names(Settle(CoreTable(), Start(user)).out) ==
            if name == "CRLF" then {"CRLF", "CR", "LF"}
            else if name == "HEXDIG" then {"HEXDIG", "DIGIT"}
            else if name == "WSP" then {"WSP", "SP", "HTAB"}
            else if name == "LWSP" then {"LWSP", "WSP", "SP", "HTAB", "CRLF", "CR", "LF"}
            else {name}
  {
    CoreTableIsBackward();
    CoreIsLeast(CoreTable(), user);
    NoMore(user, name);
    NoLess(user, name, refs);
  }
}
