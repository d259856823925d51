/** Comparing and tiling two lists of ranges, and the check of a token set they make. */
module Tiling {
  import opened CodePoints
  import opened Ranges

  // ---- merged lists as canonical forms

  /** `abnf-spans-same`. */
  predicate Same(a: seq<Span>, b: seq<Span>) {
    |a| == |b| && forall i :: 0 <= i < |a| ==> CpIs(a[i].lo, b[i].lo) && CpIs(a[i].hi, b[i].hi)
  }

  ghost predicate SameSet(a: seq<Span>, b: seq<Span>) {
    forall c :: Holds(a, c) <==> Holds(b, c)
  }

  /** What the first range of a list apart holds, and what stands below and just above it. */
  lemma HeadHolds(a: seq<Span>, c: Cp)
    requires Apart(a) && a != []
    ensures Num(c) < Num(a[0].lo) || Num(c) == Num(a[0].hi) + 1 ==> !Holds(a, c)
    ensures Within(a[0], c) ==> Holds(a, c)
    ensures Num(a[0].hi) < Num(c) ==> (Holds(a, c) <==> Holds(a[1..], c))
    ensures Num(c) <= Num(a[0].hi) + 1 ==> !Holds(a[1..], c)
  {
    assert forall s :: s in a <==> s == a[0] || s in a[1..] by {
      assert a == [a[0]] + a[1..];
    }
  }

  /** Two lists apart that hold the same code points start with the same range. */
  lemma SameHead(a: seq<Span>, b: seq<Span>)
    requires Apart(a) && Apart(b) && a != [] && b != [] && SameSet(a, b)
    ensures a[0] == b[0]
  {
    HeadHolds(a, a[0].lo);
    HeadHolds(b, a[0].lo);
    HeadHolds(a, b[0].lo);
    HeadHolds(b, b[0].lo);
    OrderIsNumeric(a[0].lo, b[0].lo);
    SameHigh(a, b);
    SameHigh(b, a);
    OrderIsNumeric(a[0].hi, b[0].hi);
  }

  lemma SameHigh(a: seq<Span>, b: seq<Span>)
    requires Apart(a) && Apart(b) && a != [] && b != [] && SameSet(a, b) && a[0].lo == b[0].lo
    ensures Num(a[0].hi) >= Num(b[0].hi)
  {
    var next := CpNext(a[0].hi);
    NextIsSuccessor(a[0].hi);
    HeadHolds(a, next);
    HeadHolds(b, next);
  }

  /** The canonical form: lists apart that hold the same code points are the same list. */
  lemma {:induction false} ApartUnique(a: seq<Span>, b: seq<Span>)
    requires Apart(a) && Apart(b) && SameSet(a, b)
    ensures a == b
    decreases |a|
  {
    if a == [] {
      if b != [] {
        HeadHolds(b, b[0].lo);
      }
    } else if b == [] {
      HeadHolds(a, a[0].lo);
    } else {
      SameHead(a, b);
      forall c ensures Holds(a[1..], c) <==> Holds(b[1..], c) {
        HeadHolds(a, c);
        HeadHolds(b, c);
      }
      ApartUnique(a[1..], b[1..]);
      assert a == [a[0]] + a[1..] && b == [b[0]] + b[1..];
    }
  }

  lemma MergedSet(a: seq<Span>)
    requires WellOrdered(a)
    ensures SameSet(Merged(a), a)
  {
    forall c ensures Holds(Merged(a), c) <==> Holds(a, c) {
      MergedHolds(a, c);
    }
  }

  lemma MergedEqual(x: seq<Span>, y: seq<Span>)
    requires Apart(x) && Apart(y)
    ensures Same(x, y) <==> SameSet(x, y)
  {
    if SameSet(x, y) {
      ApartUnique(x, y);
    }
  }

  /** Two merged lists are found the same exactly when the lists hold the same code points. */
  lemma MergedSame(a: seq<Span>, b: seq<Span>)
    requires WellOrdered(a) && WellOrdered(b)
    ensures Same(Merged(a), Merged(b)) <==> SameSet(a, b)
  {
    MergedApart(a);
    MergedApart(b);
    MergedSet(a);
    MergedSet(b);
    MergedEqual(Merged(a), Merged(b));
  }

  // ---- tiling

  /** `abnf-spans-tile`. */
  predicate Tile(a: seq<Span>, b: seq<Span>) {
    Chained(Sorted(Merged(a) + Merged(b)))
  }

  predicate Chained(all: seq<Span>) {
    && all != []
    && CpIs(all[0].lo, FIRST) && CpIs(all[|all| - 1].hi, LAST)
    && forall i :: 0 <= i < |all| - 1 ==> Linked(all, i)
  }

  /** The range after the one at `i` starts at the code point past it. */
  predicate Linked(all: seq<Span>, i: int)
    requires 0 <= i < |all| - 1
  {
    CpIs(all[i + 1].lo, CpNext(all[i].hi))
  }

  lemma ChainStart(all: seq<Span>, c: Cp)
    requires Chained(all)
    ensures Num(all[0].lo) <= Num(c)
  {
    EndsAre(all[0].lo);
  }

  /** Every code point to U+10FFFF is in exactly one of the two lists, and none past it in
      either. */
  ghost predicate Partition(a: seq<Span>, b: seq<Span>) {
    forall c {:trigger Holds(a, c)} {:trigger Holds(b, c)} ::
      if Num(c) <= 0x10_FFFF then Holds(a, c) != Holds(b, c) else !Holds(a, c) && !Holds(b, c)
  }

  /** No code point is in the ranges at two places. */
  ghost predicate Once(all: seq<Span>) {
    forall i, j, c :: 0 <= i < j < |all| ==> !(Within(all[i], c) && Within(all[j], c))
  }

  ghost predicate Covers(all: seq<Span>) {
    forall c {:trigger Holds(all, c)} :: Holds(all, c) <==> Num(c) <= 0x10_FFFF
  }

  // -- a chain holds every code point once

  lemma ChainStep(all: seq<Span>, i: nat)
    requires Chained(all) && i + 1 < |all|
    ensures Num(all[i + 1].lo) == Num(all[i].hi) + 1
  {
    assert Linked(all, i);
    OrderIsNumeric(all[i + 1].lo, CpNext(all[i].hi));
    NextIsSuccessor(all[i].hi);
  }

  lemma {:induction false} ChainOnce(all: seq<Span>, i: nat, j: nat)
    requires Chained(all) && WellOrdered(all) && i < j < |all|
    ensures Num(all[i].hi) < Num(all[j].lo)
    decreases j
  {
    ChainStep(all, j - 1);
    if i < j - 1 {
      ChainOnce(all, i, j - 1);
      assert all[j - 1] in all;
    }
  }

  lemma {:induction false} ChainCovers(all: seq<Span>, i: nat, c: Cp)
    requires Chained(all) && i < |all| && Num(c) <= Num(all[i].hi)
    ensures Holds(all, c)
    decreases i
  {
    ChainStart(all, c);
    if Num(all[i].lo) <= Num(c) {
      assert all[i] in all;
    } else {
      ChainStep(all, i - 1);
      ChainCovers(all, i - 1, c);
    }
  }

  lemma ChainIsPartition(all: seq<Span>)
    requires Chained(all) && WellOrdered(all)
    ensures Once(all) && Covers(all)
  {
    forall i, j, c | 0 <= i < j < |all| ensures !(Within(all[i], c) && Within(all[j], c)) {
      ChainOnce(all, i, j);
    }
    forall c ensures Holds(all, c) <==> Num(c) <= 0x10_FFFF {
      ChainEnds(all, c);
    }
  }

  lemma ChainEnds(all: seq<Span>, c: Cp)
    requires Chained(all) && WellOrdered(all)
    ensures Holds(all, c) <==> Num(c) <= 0x10_FFFF
  {
    ChainLast(all);
    if Num(c) <= 0x10_FFFF {
      ChainCovers(all, |all| - 1, c);
    }
    if Holds(all, c) {
      var i: nat :| i < |all| && Within(all[i], c);
      ChainBelow(all, i);
    }
  }

  lemma ChainLast(all: seq<Span>)
    requires Chained(all)
    ensures Num(all[|all| - 1].hi) == 0x10_FFFF
  {
    EndsAre(all[|all| - 1].hi);
  }

  lemma ChainBelow(all: seq<Span>, i: nat)
    requires Chained(all) && WellOrdered(all) && i < |all|
    ensures Num(all[i].hi) <= Num(all[|all| - 1].hi)
  {
    var n := |all| - 1;
    if i < n {
      ChainOnce(all, i, n);
      assert all[n] in all;
    }
  }

  // -- a sorted list that holds every code point once is a chain

  lemma CoverFirst(all: seq<Span>)
    requires InOrder(all) && Covers(all)
    ensures all != [] && CpIs(all[0].lo, FIRST)
  {
    OrderIsNumeric(FIRST, FIRST);
    EndsAre(FIRST);
    var i := CoverAt(all, FIRST);
    assert i > 0 ==> Num(all[0].lo) <= Num(all[i].lo);
    EndsAre(all[0].lo);
  }

  lemma CoverAt(all: seq<Span>, c: Cp) returns (i: nat)
    requires Covers(all) && Num(c) <= 0x10_FFFF
    ensures i < |all| && Within(all[i], c)
  {
    assert Holds(all, c);
    i :| i < |all| && Within(all[i], c);
  }

  lemma OnceRises(all: seq<Span>, i: nat, j: nat)
    requires InOrder(all) && WellOrdered(all) && Once(all) && i < j < |all|
    ensures Num(all[i].hi) < Num(all[j].lo)
  {
    assert all[j] in all && all[i] in all;
    assert !(Within(all[i], all[j].lo) && Within(all[j], all[j].lo));
  }

  /** Past a range's high end the next code point held starts the next range. */
  lemma CoverNext(all: seq<Span>, i: nat, next: Cp)
    requires InOrder(all) && WellOrdered(all) && Once(all)
    requires i < |all| && Num(next) == Num(all[i].hi) + 1 && Holds(all, next)
    ensures i + 1 < |all| && all[i + 1].lo == next
  {
    var m: nat :| m < |all| && Within(all[m], next);
    assert all[i] in all;
    if m < i {
      OnceRises(all, m, i);
    } else {
      OnceRises(all, i, i + 1);
      OrderIsNumeric(all[i + 1].lo, next);
    }
  }

  lemma CoverIsChained(all: seq<Span>)
    requires InOrder(all) && WellOrdered(all) && Once(all) && Covers(all)
    ensures Chained(all)
  {
    CoverFirst(all);
    forall i: nat | i < |all| - 1 ensures Linked(all, i) {
      CoverLink(all, i);
    }
    CoverLast(all);
  }

  lemma HeldEnds(all: seq<Span>, i: nat)
    requires WellOrdered(all) && Covers(all) && i < |all|
    ensures Num(all[i].lo) <= 0x10_FFFF && Num(all[i].hi) <= 0x10_FFFF
  {
    assert all[i] in all;
    assert Within(all[i], all[i].hi) && Within(all[i], all[i].lo);
    assert Holds(all, all[i].hi) && Holds(all, all[i].lo);
  }

  lemma CoverLink(all: seq<Span>, i: nat)
    requires InOrder(all) && WellOrdered(all) && Once(all) && Covers(all) && i + 1 < |all|
    ensures Linked(all, i)
  {
    var next := CpNext(all[i].hi);
    NextIsSuccessor(all[i].hi);
    OnceRises(all, i, i + 1);
    HeldEnds(all, i + 1);
    CoverNext(all, i, next);
    OrderIsNumeric(next, next);
  }

  lemma CoverLast(all: seq<Span>)
    requires InOrder(all) && WellOrdered(all) && Once(all) && Covers(all) && all != []
    ensures CpIs(all[|all| - 1].hi, LAST)
  {
    var n := |all| - 1;
    HeldEnds(all, n);
    EndsAre(all[n].hi);
    if Num(all[n].hi) < 0x10_FFFF {
      var next := CpNext(all[n].hi);
      NextIsSuccessor(all[n].hi);
      CoverNext(all, n, next);
    }
  }

  // -- from the two lists to the sorted one

  /** Sorting keeps each place's range, and no two places share one. */
  lemma SortedOnce(spans: seq<Span>)
    ensures Once(spans) <==> Once(Sorted(spans))
  {
    var all := Sorted(spans);
    if Once(spans) {
      forall k, m, c | 0 <= k < m < |all| ensures !(Within(all[k], c) && Within(all[m], c)) {
        var i, j := Place(spans, k), Place(spans, m);
        assert i < j || j < i;
      }
    }
    if Once(all) {
      forall i, j, c | 0 <= i < j < |spans| ensures !(Within(spans[i], c) && Within(spans[j], c)) {
        PlaceOfRank(spans, i);
        PlaceOfRank(spans, j);
        var k, m := Rank(spans, i), Rank(spans, j);
        assert k < m || m < k;
      }
    }
  }

  lemma PlaceOfRank(spans: seq<Span>, i: nat)
    requires i < |spans|
    ensures Rank(spans, i) < |spans| && Place(spans, Rank(spans, i)) == i
    ensures Sorted(spans)[Rank(spans, i)] == spans[i]
  {
    RankBelow(spans, i);
    RankOnce(spans, i, Place(spans, Rank(spans, i)));
  }

  ghost predicate Disjoint(a: seq<Span>, b: seq<Span>) {
    forall c :: !(Holds(a, c) && Holds(b, c))
  }

  lemma OverlapTwice(a: seq<Span>, b: seq<Span>, i: nat, j: nat, c: Cp)
    requires i < |a| && j < |b| && Within(a[i], c) && Within(b[j], c)
    ensures !Once(a + b)
  {
    assert (a + b)[i] == a[i] && (a + b)[|a| + j] == b[j];
  }

  lemma OnceIsDisjoint(a: seq<Span>, b: seq<Span>)
    requires Apart(a) && Apart(b)
    ensures Once(a + b) <==> Disjoint(a, b)
  {
    var all := a + b;
    if Once(all) {
      forall c ensures !(Holds(a, c) && Holds(b, c)) {
        if Holds(a, c) && Holds(b, c) {
          var i: nat :| i < |a| && Within(a[i], c);
          var j: nat :| j < |b| && Within(b[j], c);
          OverlapTwice(a, b, i, j, c);
        }
      }
    }
    if Disjoint(a, b) {
      forall i, j, c | 0 <= i < j < |all| ensures !(Within(all[i], c) && Within(all[j], c)) {
        if i < |a| <= j {
          assert Within(all[i], c) ==> Holds(a, c);
          assert Within(all[j], c) ==> Holds(b, c);
        } else if j < |a| {
          assert !(Within(a[i], c) && Within(a[j], c));
        } else {
          assert !(Within(b[i - |a|], c) && Within(b[j - |a|], c));
        }
      }
    }
  }

  /** The partition, restated of the two merged lists laid end to end. */
  lemma PartitionIsCover(a: seq<Span>, b: seq<Span>)
    requires WellOrdered(a) && WellOrdered(b)
    ensures Partition(a, b) <==> Disjoint(Merged(a), Merged(b)) && Covers(Sorted(Merged(a) + Merged(b)))
  {
    var x, y := Merged(a), Merged(b);
    forall c
      ensures Holds(x, c) <==> Holds(a, c)
      ensures Holds(y, c) <==> Holds(b, c)
      ensures Holds(Sorted(x + y), c) <==> Holds(a, c) || Holds(b, c)
    {
      MergedHolds(a, c);
      MergedHolds(b, c);
      SortedHolds(x + y, c);
    }
  }

  /** Two lists of ranges tile exactly when they hold every code point between them, each
      once. */
  lemma TileIsPartition(a: seq<Span>, b: seq<Span>)
    requires WellOrdered(a) && WellOrdered(b)
    ensures Tile(a, b) <==> Partition(a, b)
  {
    var x, y := Merged(a), Merged(b);
    MergedApart(a);
    MergedApart(b);
    var all := Sorted(x + y);
    SortedSorts(x + y);
    assert WellOrdered(x + y);
    assert WellOrdered(all);
    SortedOnce(x + y);
    OnceIsDisjoint(x, y);
    PartitionIsCover(a, b);
    if Chained(all) {
      ChainIsPartition(all);
    }
    if Once(all) && Covers(all) {
      CoverIsChained(all);
    }
  }

  // ---- the check of a token set

  /** The ranges of the tokens laid over a class beside its own, and whether it is negated. */
  predicate Lays(negated: bool, own: seq<Span>, tokens: seq<Span>) {
    if negated then Tile(own, tokens) else Same(Merged(own), Merged(tokens))
  }

  /** What a class matches: the code points its ranges hold, or the others. */
  predicate Matches(negated: bool, own: seq<Span>, c: Cp) {
    if negated then Num(c) <= 0x10_FFFF && !Holds(own, c) else Holds(own, c)
  }

  predicate WithinUnicode(spans: seq<Span>) {
    forall s :: s in spans ==> Num(s.hi) <= 0x10_FFFF
  }

  /** They are laid over it exactly when they hold what it matches. */
  lemma LaysExactly(negated: bool, own: seq<Span>, tokens: seq<Span>)
    requires WellOrdered(own) && WellOrdered(tokens) && WithinUnicode(own)
    ensures Lays(negated, own, tokens) <==> forall c :: Holds(tokens, c) <==> Matches(negated, own, c)
  {
    if negated {
      TileIsPartition(own, tokens);
      forall c | Holds(own, c) ensures Num(c) <= 0x10_FFFF {
      }
    } else {
      MergedSame(own, tokens);
    }
  }
}
