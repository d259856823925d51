/** What the arrays of the engine's store hold: the tree a node stands for, and what later
    writes leave of it. */
module Storage {
  import opened Strings
  import opened Tokens
  import opened Ast
  import opened Engine

  // ---- what a node in the store stands for, in arrays numbered from `lo` on

  predicate Stored(store: Store, lo: nat, v: Val) {
    v.Arr? && lo <= v.id < |store|
  }

  ghost predicate Holds(store: Store, lo: nat, v: Val, t: Elem)
    decreases t
  {
    match t
    case Hole => v == Undef
    case Lit(leaf, sp) => v == LitV(leaf, sp)
    case Wrapped(wrap, inner, sp) => v.WrapV? && v.wrap == wrap && v.sp == sp && Holds(store, lo, v.inner, inner)
    case Group(alts, sp) =>
      && v.GroupV? && v.sp == sp
      && Stored(store, lo, v.alts) && |store[v.alts.id]| == |alts|
      && forall i | 0 <= i < |alts| ::
        var s := store[v.alts.id][i];
        && Stored(store, lo, s) && |store[s.id]| == |alts[i].items|
        && forall j | 0 <= j < |alts[i].items| :: Holds(store, lo, store[s.id][j], alts[i].items[j])
  }

  ghost predicate HoldsEach(store: Store, lo: nat, vs: seq<Val>, ts: seq<Elem>) {
    && |vs| == |ts|
    && forall i {:trigger Holds(store, lo, vs[i], ts[i])} | 0 <= i < |ts| :: Holds(store, lo, vs[i], ts[i])
  }

  ghost predicate HoldsSeq(store: Store, lo: nat, v: Val, ts: seq<Elem>) {
    Stored(store, lo, v) && HoldsEach(store, lo, store[v.id], ts)
  }

  ghost predicate HoldsSeqs(store: Store, lo: nat, vs: seq<Val>, alts: seq<Sequence>) {
    && |vs| == |alts|
    && forall i {:trigger HoldsSeq(store, lo, vs[i], alts[i].items)} | 0 <= i < |alts| ::
      HoldsSeq(store, lo, vs[i], alts[i].items)
  }

  ghost predicate HoldsAlts(store: Store, lo: nat, v: Val, alts: seq<Sequence>) {
    Stored(store, lo, v) && HoldsSeqs(store, lo, store[v.id], alts)
  }

  lemma HoldsGroup(store: Store, lo: nat, v: Val, alts: seq<Sequence>, sp: Option<Span>)
    ensures Holds(store, lo, GroupV(v, sp), Group(alts, sp)) <==> HoldsAlts(store, lo, v, alts)
  {
    if Holds(store, lo, GroupV(v, sp), Group(alts, sp)) {
      forall i | 0 <= i < |alts| ensures HoldsSeq(store, lo, store[v.id][i], alts[i].items) {
      }
    }
    if HoldsAlts(store, lo, v, alts) {
      forall i | 0 <= i < |alts| ensures HoldsSeq(store, lo, store[v.id][i], alts[i].items) {
      }
    }
  }

  ghost predicate HoldsRule(store: Store, lo: nat, v: Val, r: Rule) {
    v.RuleV? && v.name == r.name && v.incremental == r.incremental && v.sp == r.sp
    && HoldsAlts(store, lo, v.alts, r.alts)
  }

  ghost predicate HoldsRules(store: Store, lo: nat, vs: seq<Val>, rs: seq<Rule>) {
    && |vs| == |rs|
    && forall i {:trigger HoldsRule(store, lo, vs[i], rs[i])} | 0 <= i < |rs| :: HoldsRule(store, lo, vs[i], rs[i])
  }

  /** The result of a parse: the rules' array. */
  ghost predicate HoldsGrammar(store: Store, v: Val, rs: seq<Rule>) {
    Stored(store, 0, v) && HoldsRules(store, 0, store[v.id], rs)
  }

  /** A node stands for one tree only. */
  lemma {:induction false} HoldsOnce(store: Store, v: Val, t: Elem, u: Elem)
    requires Holds(store, 0, v, t) && Holds(store, 0, v, u)
    ensures t == u
    decreases t
  {
    match t
    case Hole =>
    case Lit(_, _) =>
    case Wrapped(_, inner, _) => HoldsOnce(store, v.inner, inner, u.inner);
    case Group(alts, _) =>
      forall i | 0 <= i < |alts| ensures alts[i] == u.alts[i] {
        var items := store[store[v.alts.id][i].id];
        forall j | 0 <= j < |alts[i].items| ensures alts[i].items[j] == u.alts[i].items[j] {
          HoldsOnce(store, items[j], alts[i].items[j], u.alts[i].items[j]);
        }
        assert alts[i].items == u.alts[i].items;
      }
      assert alts == u.alts;
  }

  lemma HoldsGrammarOnce(store: Store, v: Val, rs: seq<Rule>, qs: seq<Rule>)
    requires HoldsGrammar(store, v, rs) && HoldsGrammar(store, v, qs)
    ensures rs == qs
  {
    forall i | 0 <= i < |rs| ensures rs[i] == qs[i] {
      var r := store[v.id][i];
      assert HoldsRule(store, 0, r, rs[i]) && HoldsRule(store, 0, r, qs[i]);
      HoldsGroup(store, 0, r.alts, rs[i].alts, None);
      HoldsGroup(store, 0, r.alts, qs[i].alts, None);
      HoldsOnce(store, GroupV(r.alts, None), Group(rs[i].alts, None), Group(qs[i].alts, None));
    }
  }

  // ---- what writes leave alone

  /** Nothing from `lo` on has changed. */
  predicate Kept(store: Store, store': Store, lo: nat) {
    |store| <= |store'| && forall i | lo <= i < |store| :: store'[i] == store[i]
  }

  /** Only array `at` has changed among the old ones, by `vs` at its end. */
  predicate Pushed(store: Store, store': Store, at: nat, vs: seq<Val>) {
    && at < |store| <= |store'|
    && (forall i | 0 <= i < |store| && i != at :: store'[i] == store[i])
    && store'[at] == store[at] + vs
  }

  lemma {:induction false} KeepsElem(store: Store, lo: nat, store': Store, lo': nat, v: Val, t: Elem)
    requires Kept(store, store', lo) && lo' <= lo && Holds(store, lo, v, t)
    ensures Holds(store', lo', v, t)
    decreases t
  {
    match t
    case Hole =>
    case Lit(_, _) =>
    case Wrapped(_, inner, _) => KeepsElem(store, lo, store', lo', v.inner, inner);
    case Group(alts, _) =>
      forall i, j | 0 <= i < |alts| && 0 <= j < |alts[i].items|
        ensures Holds(store', lo', store[store[v.alts.id][i].id][j], alts[i].items[j])
      {
        KeepsElem(store, lo, store', lo', store[store[v.alts.id][i].id][j], alts[i].items[j]);
      }
  }

  lemma KeepsEach(store: Store, lo: nat, store': Store, lo': nat, vs: seq<Val>, ts: seq<Elem>)
    requires Kept(store, store', lo) && lo' <= lo && HoldsEach(store, lo, vs, ts)
    ensures HoldsEach(store', lo', vs, ts)
  {
    forall i | 0 <= i < |ts| ensures Holds(store', lo', vs[i], ts[i]) {
      KeepsElem(store, lo, store', lo', vs[i], ts[i]);
    }
  }

  lemma KeepsSeqs(store: Store, lo: nat, store': Store, lo': nat, vs: seq<Val>, alts: seq<Sequence>)
    requires Kept(store, store', lo) && lo' <= lo && HoldsSeqs(store, lo, vs, alts)
    ensures HoldsSeqs(store', lo', vs, alts)
  {
    forall i | 0 <= i < |alts| ensures HoldsSeq(store', lo', vs[i], alts[i].items) {
      assert HoldsSeq(store, lo, vs[i], alts[i].items);
      KeepsEach(store, lo, store', lo', store[vs[i].id], alts[i].items);
    }
  }

  lemma KeepsAlts(store: Store, lo: nat, store': Store, lo': nat, v: Val, alts: seq<Sequence>)
    requires Kept(store, store', lo) && lo' <= lo && HoldsAlts(store, lo, v, alts)
    ensures HoldsAlts(store', lo', v, alts)
  {
    KeepsSeqs(store, lo, store', lo', store[v.id], alts);
  }

  lemma KeepsRules(store: Store, lo: nat, store': Store, lo': nat, vs: seq<Val>, rs: seq<Rule>)
    requires Kept(store, store', lo) && lo' <= lo && HoldsRules(store, lo, vs, rs)
    ensures HoldsRules(store', lo', vs, rs)
  {
    forall i | 0 <= i < |rs| ensures HoldsRule(store', lo', vs[i], rs[i]) {
      assert HoldsRule(store, lo, vs[i], rs[i]);
      KeepsAlts(store, lo, store', lo', vs[i].alts, rs[i].alts);
    }
  }

  // ---- an array grows by one, and then by the rest

  lemma PushElem(store: Store, store1: Store, store': Store, at: nat, v: Val, t: Elem, vs: seq<Val>, ts: seq<Elem>)
    requires Pushed(store, store1, at, [v]) && Holds(store1, |store|, v, t)
    requires Pushed(store1, store', at, vs) && HoldsEach(store', at + 1, vs, ts)
    ensures Pushed(store, store', at, [v] + vs) && HoldsEach(store', at + 1, [v] + vs, [t] + ts)
  {
    KeepsElem(store1, |store|, store1, at + 1, v, t);
    KeepsElem(store1, at + 1, store', at + 1, v, t);
    PushedTwice(store, store1, store', at, v, vs);
    HoldsCons(store', at + 1, v, t, vs, ts);
  }

  lemma PushedTwice(store: Store, store1: Store, store': Store, at: nat, v: Val, vs: seq<Val>)
    requires Pushed(store, store1, at, [v]) && Pushed(store1, store', at, vs)
    ensures Pushed(store, store', at, [v] + vs)
  {
    assert store[at] + [v] + vs == store[at] + ([v] + vs);
  }

  lemma HoldsCons(store: Store, lo: nat, v: Val, t: Elem, vs: seq<Val>, ts: seq<Elem>)
    requires Holds(store, lo, v, t) && HoldsEach(store, lo, vs, ts)
    ensures HoldsEach(store, lo, [v] + vs, [t] + ts)
  {
    forall i | 0 <= i < |[t] + ts| ensures Holds(store, lo, ([v] + vs)[i], ([t] + ts)[i]) {
      if i > 0 {
        assert Holds(store, lo, vs[i - 1], ts[i - 1]);
      }
    }
  }

  lemma PushFreshSeq(store: Store, store1: Store, at: nat, ts: seq<Elem>)
    requires at < |store| && store <= store1 && HoldsSeq(store1, |store|, Arr(|store|), ts)
    ensures var store2 := Append(store1, Arr(at), Arr(|store|));
            Pushed(store, store2, at, [Arr(|store|)]) && HoldsSeq(store2, at + 1, Arr(|store|), ts)
  {
    var store2 := Append(store1, Arr(at), Arr(|store|));
    KeepsEach(store1, |store|, store2, at + 1, store1[|store|], ts);
  }

  lemma PushFreshRule(store: Store, store1: Store, at: nat, v: Val, r: Rule)
    requires at < |store| && store <= store1 && HoldsRule(store1, |store|, v, r)
    ensures var store2 := Append(store1, Arr(at), v);
            Pushed(store, store2, at, [v]) && HoldsRule(store2, at + 1, v, r)
  {
    KeepsAlts(store1, |store|, Append(store1, Arr(at), v), at + 1, v.alts, r.alts);
  }

  lemma PushItem(store: Store, store1: Store, at: nat, v: Val, t: Elem)
    requires at < |store| && store <= store1 && Holds(store1, |store|, v, t)
    ensures var store2 := Append(store1, Arr(at), v);
            Pushed(store, store2, at, [v]) && Holds(store2, |store|, v, t)
  {
    KeepsElem(store1, |store|, Append(store1, Arr(at), v), |store|, v, t);
  }

  lemma PushSeq(store: Store, store1: Store, store': Store, at: nat, v: Val, ts: seq<Elem>, vs: seq<Val>,
                alts: seq<Sequence>)
    requires Pushed(store, store1, at, [v]) && HoldsSeq(store1, at + 1, v, ts)
    requires Pushed(store1, store', at, vs) && HoldsSeqs(store', at + 1, vs, alts)
    ensures Pushed(store, store', at, [v] + vs) && HoldsSeqs(store', at + 1, [v] + vs, [Sequence(ts)] + alts)
  {
    KeepsEach(store1, at + 1, store', at + 1, store1[v.id], ts);
    assert HoldsSeq(store', at + 1, v, ts);
  }

  lemma PushRule(store: Store, store1: Store, store': Store, at: nat, v: Val, r: Rule, vs: seq<Val>, rs: seq<Rule>)
    requires Pushed(store, store1, at, [v]) && HoldsRule(store1, at + 1, v, r)
    requires Pushed(store1, store', at, vs) && HoldsRules(store', at + 1, vs, rs)
    ensures Pushed(store, store', at, [v] + vs) && HoldsRules(store', at + 1, [v] + vs, [r] + rs)
  {
    KeepsAlts(store1, at + 1, store', at + 1, v.alts, r.alts);
  }

  // ---- a new array, filled

  /** The array at `at` has grown by nodes that hold elements. */
  ghost predicate Filled(store: Store, store': Store, at: nat, ts: seq<Elem>) {
    exists vs: seq<Val> :: Pushed(store, store', at, vs) && HoldsEach(store', at + 1, vs, ts)
  }

  lemma FillSeq(store: Store, start: Store, store': Store, ts: seq<Elem>)
    requires start == store + [[]] && Filled(start, store', |store|, ts)
    ensures store <= store' && HoldsSeq(store', |store|, Arr(|store|), ts)
  {
    var vs :| Pushed(start, store', |store|, vs) && HoldsEach(store', |store| + 1, vs, ts);
    KeepsEach(store', |store| + 1, store', |store|, vs, ts);
    assert store'[|store|] == vs;
  }

  lemma FillAlts(store: Store, store': Store, vs: seq<Val>, alts: seq<Sequence>)
    requires Pushed(store + [[]], store', |store|, vs) && HoldsSeqs(store', |store| + 1, vs, alts)
    ensures store <= store' && HoldsAlts(store', |store|, Arr(|store|), alts)
  {
    KeepsSeqs(store', |store| + 1, store', |store|, vs, alts);
    assert store'[|store|] == vs;
  }
}
