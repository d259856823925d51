/** `rejectHoles`: an unclosed bracket leaves a hole, and the walk finds it wherever it is. */
module Holes {
  import opened Strings
  import opened Ports
  import opened Ast
  import opened Derivations

  /** Whether an element is a hole or holds one, looking where the shared compiler's own
      walk looks: into a wrapper's element and a group's sequences. */
  predicate HoleAt(t: Elem)
    decreases t
  {
    match t
    case Hole => true
    case Lit(_, _) => false
    case Wrapped(_, inner, _) => HoleAt(inner)
    case Group(alts, _) => exists i, j :: 0 <= i < |alts| && 0 <= j < |alts[i].items| && HoleAt(alts[i].items[j])
  }

  predicate HoleIn(alt: Sequence) { exists j :: 0 <= j < |alt.items| && HoleAt(alt.items[j]) }

  predicate HoleAmong(alts: seq<Sequence>) { exists i :: 0 <= i < |alts| && HoleIn(alts[i]) }

  /** The first rule that holds a hole, which the source refuses by name. */
  method RejectHoles(rules: seq<Rule>) returns (bad: Option<Rule>)
    ensures bad.None? <==> forall r :: r in rules ==> !HoleAmong(r.alts)
    ensures bad.Some? ==> exists k :: 0 <= k < |rules| && rules[k] == bad.value && HoleAmong(rules[k].alts)
                                      && forall i :: 0 <= i < k ==> !HoleAmong(rules[i].alts)
  {
    for i := 0 to |rules|
      invariant forall k :: 0 <= k < i ==> !HoleAmong(rules[k].alts)
    {
      for j := 0 to |rules[i].alts|
        invariant forall k :: 0 <= k < j ==> !HoleIn(rules[i].alts[k])
      {
        if HoleIn(rules[i].alts[j]) {
          return Some(rules[i]);
        }
      }
    }
    return None;
  }

  lemma HoleInCons(t: Elem, ts: seq<Elem>)
    ensures HoleIn(Sequence([t] + ts)) <==> HoleAt(t) || HoleIn(Sequence(ts))
  {
    var all := Sequence([t] + ts);
    if HoleAt(t) {
      assert HoleAt(all.items[0]);
    }
    if HoleIn(Sequence(ts)) {
      var j :| 0 <= j < |ts| && HoleAt(ts[j]);
      assert HoleAt(all.items[j + 1]);
    }
    if HoleIn(all) && !HoleAt(t) {
      var j :| 0 <= j < |all.items| && HoleAt(all.items[j]);
      assert HoleAt(Sequence(ts).items[j - 1]);
    }
  }

  lemma HoleAmongCons(s: Sequence, alts: seq<Sequence>)
    ensures HoleAmong([s] + alts) <==> HoleIn(s) || HoleAmong(alts)
  {
    var all := [s] + alts;
    if HoleIn(s) {
      assert HoleIn(all[0]);
    }
    if HoleAmong(alts) {
      var i :| 0 <= i < |alts| && HoleIn(alts[i]);
      assert HoleIn(all[i + 1]);
    }
    if HoleAmong(all) && !HoleIn(s) {
      var i :| 0 <= i < |all| && HoleIn(all[i]);
      assert HoleIn(alts[i - 1]);
    }
  }

  /** A closed bracket holds the holes of its alternatives. */
  lemma BracketHole(port: Port, a: Atom)
    requires a.Bracket? && a.close.Some?
    ensures HoleAt(BuildAtom(port, a)) <==> HoleAmong(BuildAlts(port, a.alts))
  {
  }

  /** A hole is built exactly where a bracket is not closed, and found at any nesting: with
      the wrapped hole of TypeScript and with the bare one of Go and Rust alike. */
  lemma {:induction false} AtomHole(port: Port, a: Atom)
    ensures HoleAt(BuildAtom(port, a)) <==> !AtomClosed(a)
    decreases a
  {
    if a.Bracket? && a.close.Some? {
      AltsHole(port, a.alts);
      BracketHole(port, a);
    }
  }

  lemma {:induction false} SeqHole(port: Port, s: Seq)
    ensures HoleIn(Sequence(BuildSeq(port, s))) <==> !SeqClosed(s)
    decreases s
  {
    if s.Then? {
      AtomHole(port, s.first.atom);
      SeqHole(port, s.more);
      HoleInCons(BuildElement(port, s.first), BuildSeq(port, s.more));
    }
  }

  lemma {:induction false} AltsHole(port: Port, a: Alts)
    ensures HoleAmong(BuildAlts(port, a)) <==> !AltsClosed(a)
    decreases a
  {
    SeqHole(port, a.head);
    var s := Sequence(BuildSeq(port, a.head));
    match a
    case Only(_) =>
      HoleAmongCons(s, []);
      assert [s] + [] == [s];
    case Or(_, _, more) =>
      AltsHole(port, more);
      HoleAmongCons(s, BuildAlts(port, more));
  }

  /** No rule of a tree is refused. */
  predicate HoleFree(rules: seq<Rule>) { forall r :: r in rules ==> !HoleAmong(r.alts) }

  lemma HoleFreeIsClosed(port: Port, ps: seq<Production>)
    ensures HoleFree(Build(port, ps)) <==> AllClosed(ps)
  {
    var rules := Build(port, ps);
    forall i | 0 <= i < |ps| ensures HoleAmong(rules[i].alts) <==> !AltsClosed(ps[i].alts) {
      AltsHole(port, ps[i].alts);
    }
    if HoleFree(rules) {
      forall p | p in ps ensures AltsClosed(p.alts) {
        var i :| 0 <= i < |ps| && ps[i] == p;
        assert rules[i] in rules;
      }
    }
  }

  /** The ports refuse the same productions of one derivation. */
  lemma PortsRejectAlike(port: Port, other: Port, ps: seq<Production>, i: nat)
    requires i < |ps|
    ensures HoleAmong(Build(port, ps)[i].alts) <==> HoleAmong(Build(other, ps)[i].alts)
  {
    AltsHole(port, ps[i].alts);
    AltsHole(other, ps[i].alts);
  }
}
