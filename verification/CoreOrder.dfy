/** The order core rules are added in: that of the table, gone round again for what was called
    for too late. */
module CoreOrder {
  import opened CoreRules

  /** A rule defined neither by the user nor among those added, that one of them references. */
  predicate Due(p: Production, defined: set<string>, needed: set<string>, out: seq<Production>) {
    p.name !in defined && p.name !in Names(out) && (p.name in needed || p.name in Refs(out))
  }

  predicate NoneDue(core: seq<Production>, defined: set<string>, needed: set<string>, out: seq<Production>, i: nat,
                    j: nat)
    requires j <= |core|
  {
    forall m :: i <= m < j ==> !Due(core[m], defined, needed, out)
  }

  /** The first rule due from a place in the table on, or else from its start. */
  predicate FirstDue(core: seq<Production>, defined: set<string>, needed: set<string>, out: seq<Production>, from: nat,
                     j: nat)
  {
    && j < |core| && Due(core[j], defined, needed, out)
    && if from <= j then NoneDue(core, defined, needed, out, from, j)
       else NoneDue(core, defined, needed, out, from, |core|) && NoneDue(core, defined, needed, out, 0, j)
  }

  function After(places: seq<nat>, k: nat): nat
    requires k <= |places|
  {
    if k == 0 then 0 else places[k - 1] + 1
  }

  /** The rule added at `k` is the first due behind the one added before it. */
  predicate TurnAt(core: seq<Production>, defined: set<string>, needed: set<string>, out: seq<Production>,
                   places: seq<nat>, k: nat)
    requires k < |out| == |places|
  {
    FirstDue(core, defined, needed, out[..k], After(places, k), places[k]) && out[k] == core[places[k]]
  }

  predicate InTurn(core: seq<Production>, defined: set<string>, needed: set<string>, out: seq<Production>,
                   places: seq<nat>)
  {
    && |places| == |out|
    && forall k {:trigger TurnAt(core, defined, needed, out, places, k)} ::
         0 <= k < |out| ==> TurnAt(core, defined, needed, out, places, k)
  }

  /** Nothing is due from the last place up to `i`, or round the end of the table up to it. */
  predicate Clear(core: seq<Production>, defined: set<string>, needed: set<string>, out: seq<Production>, from: nat,
                  i: nat, round: bool)
    requires i <= |core|
  {
    if round then
      NoneDue(core, defined, needed, out, from, |core|) && NoneDue(core, defined, needed, out, 0, i)
    else from <= i && NoneDue(core, defined, needed, out, from, i)
  }

  lemma TurnSnoc(core: seq<Production>, defined: set<string>, needed: set<string>, out: seq<Production>,
                 places: seq<nat>, j: nat)
    requires InTurn(core, defined, needed, out, places)
    requires FirstDue(core, defined, needed, out, After(places, |places|), j)
    ensures InTurn(core, defined, needed, out + [core[j]], places + [j])
  {
    var more, at := out + [core[j]], places + [j];
    forall k | 0 <= k < |more| ensures TurnAt(core, defined, needed, more, at, k) {
      if k < |out| {
        assert TurnAt(core, defined, needed, out, places, k);
        assert more[..k] == out[..k] && After(at, k) == After(places, k);
      } else {
        assert more[..k] == out && After(at, k) == After(places, |places|);
      }
    }
  }

  /** What is defined and referenced is what the user and the rules added define and reference. */
  predicate Synced(user: State, st: State) {
    st.defined == user.defined + Names(st.out) && st.needed == user.needed + Refs(st.out)
  }

  /** A rule is added where it is due. */
  lemma VisitsDue(user: State, st: State, p: Production)
    requires Synced(user, st)
    ensures Synced(user, Visit(p, st))
    ensures Visit(p, st).out == if Due(p, user.defined, user.needed, st.out) then st.out + [p] else st.out
  {
    NamesSnoc(st.out, p);
  }

  /** Where a pass stands. */
  predicate Turned(core: seq<Production>, user: State, st: State, places: seq<nat>, i: nat, round: bool) {
    && i <= |core| && Synced(user, st) && InTurn(core, user.defined, user.needed, st.out, places)
    && Clear(core, user.defined, user.needed, st.out, After(places, |places|), i, round)
  }

  lemma ClearIsFirst(core: seq<Production>, defined: set<string>, needed: set<string>, out: seq<Production>,
                     from: nat, i: nat, round: bool)
    requires i < |core| && Clear(core, defined, needed, out, from, i, round)
    ensures Due(core[i], defined, needed, out) ==> FirstDue(core, defined, needed, out, from, i)
    ensures !Due(core[i], defined, needed, out) ==> Clear(core, defined, needed, out, from, i + 1, round)
  {
  }

  /** One rule visited. */
  lemma VisitInTurn(core: seq<Production>, user: State, i: nat, st: State, places: seq<nat>, round: bool)
    returns (next: seq<nat>, rounded: bool)
    requires i < |core| && Turned(core, user, st, places, i, round)
    ensures Turned(core, user, Visit(core[i], st), next, i + 1, rounded)
  {
    VisitsDue(user, st, core[i]);
    ClearIsFirst(core, user.defined, user.needed, st.out, After(places, |places|), i, round);
    if Due(core[i], user.defined, user.needed, st.out) {
      TurnSnoc(core, user.defined, user.needed, st.out, places, i);
      next, rounded := places + [i], false;
    } else {
      next, rounded := places, round;
    }
  }

  lemma PassStep(core: seq<Production>, i: nat, st: State)
    requires i <= |core|
    ensures PassFrom(core, i, st) == if i == |core| then st else PassFrom(core, i + 1, Visit(core[i], st))
  {
  }

  lemma {:induction false} PassInTurn(core: seq<Production>, user: State, i: nat, st: State, places: seq<nat>,
                                      round: bool, after: State)
    returns (next: seq<nat>, rounded: bool)
    requires i <= |core| && Turned(core, user, st, places, i, round) && after == PassFrom(core, i, st)
    ensures Turned(core, user, after, next, |core|, rounded)
    decreases |core| - i
  {
    PassStep(core, i, st);
    if i == |core| {
      next, rounded := places, round;
    } else {
      var visited := Visit(core[i], st);
      var seen, turn := VisitInTurn(core, user, i, st, places, round);
      next, rounded := PassInTurn(core, user, i + 1, visited, seen, turn, after);
    }
  }

  lemma {:induction false} SettleInTurn(core: seq<Production>, user: State, st: State, places: seq<nat>, round: bool)
    returns (next: seq<nat>)
    requires Turned(core, user, st, places, 0, round)
    ensures InTurn(core, user.defined, user.needed, Settle(core, st).out, next)
    decreases Left(core, st)
  {
    PassGrows(core, 0, st);
    var after := PassFrom(core, 0, st);
    var rounded;
    next, rounded := PassInTurn(core, user, 0, st, places, round, after);
    if after.out != st.out {
      next := SettleInTurn(core, user, after, next, true);
    }
  }

  /** The core rules are added in turn: each is the first of the table, from behind the one added
      before it and round past the end, that the user or a rule added references and none of
      them defines. */
  lemma AddedInTurn(core: seq<Production>, user: seq<Production>) returns (places: seq<nat>)
    ensures InTurn(core, Names(user), Refs(user), Settle(core, Start(user)).out, places)
  {
    places := SettleInTurn(core, Start(user), Start(user), [], false);
  }
}
