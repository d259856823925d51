/** The ranges a character class holds: sorted, merged, compared and tiled as the render
    does, and what those say of the sets of code points they denote. */
module Ranges {
  import opened CodePoints

  datatype Span = Span(lo: Cp, hi: Cp)

  // ---- lists by their indices

  /** The indices below `n` that `keep` holds of, in order. */
  function Indices(n: nat, keep: nat -> bool): (r: seq<nat>)
    ensures forall k :: 0 <= k < |r| ==> r[k] < n && keep(r[k])
    ensures forall k, m :: 0 <= k < m < |r| ==> r[k] < r[m]
    ensures forall i: nat :: i < n && keep(i) ==> i in r
  {
    if n == 0 then []
    else if keep(n - 1) then Indices(n - 1, keep) + [n - 1]
    else Indices(n - 1, keep)
  }

  // ---- sorting by rank

  /** Whether the range at `j` sorts before the one at `i`: a lower start, or the same one
      earlier in the list. */
  predicate Sooner(spans: seq<Span>, j: nat, i: nat)
    requires i < |spans| && j < |spans|
  {
    match CpOrder(spans[j].lo, spans[i].lo)
    case Less => true
    case Equal => j < i
    case Greater => false
  }

  /** How many ranges sort before the one at `i`. */
  function Rank(spans: seq<Span>, i: nat): nat
    requires i < |spans|
  {
    |Indices(|spans|, (j: nat) => j < |spans| && Sooner(spans, j, i))|
  }

  /** The ranges whose rank is `k`, of which the first is taken. */
  function WithRank(spans: seq<Span>, k: nat): seq<nat> {
    Indices(|spans|, (i: nat) => i < |spans| && Rank(spans, i) == k)
  }

  /** `abnf-spans-sorted`. */
  function Sorted(spans: seq<Span>): (r: seq<Span>)
    ensures |r| == |spans|
  {
    seq(|spans|, k requires 0 <= k < |spans| => RanksFill(spans, k); spans[WithRank(spans, k)[0]])
  }

  function SoonerSet(spans: seq<Span>, i: nat): set<nat>
    requires i < |spans|
  {
    set j: nat | 0 <= j < |spans| && Sooner(spans, j, i)
  }

  function Elements(s: seq<nat>): set<nat> { set x | x in s }

  /** A rising list is as long as its set. */
  lemma {:induction false} CountIsSet(s: seq<nat>)
    requires forall k, m :: 0 <= k < m < |s| ==> s[k] < s[m]
    ensures |Elements(s)| == |s|
    decreases |s|
  {
    if s != [] {
      var n := |s| - 1;
      var init := s[..n];
      CountIsSet(init);
      assert s == init + [s[n]];
      assert s[n] !in init;
      assert Elements(s) == Elements(init) + {s[n]};
    }
  }

  lemma RankIsSet(spans: seq<Span>, i: nat)
    requires i < |spans|
    ensures Rank(spans, i) == |SoonerSet(spans, i)|
  {
    var r := Indices(|spans|, (j: nat) => j < |spans| && Sooner(spans, j, i));
    CountIsSet(r);
    assert Elements(r) == SoonerSet(spans, i);
  }

  /** Ranks rise with the order, and stay below the list's length. */
  lemma RankRises(spans: seq<Span>, j: nat, i: nat)
    requires i < |spans| && j < |spans| && Sooner(spans, j, i)
    ensures Rank(spans, j) < Rank(spans, i)
  {
    RankIsSet(spans, i);
    RankIsSet(spans, j);
    forall k | k in SoonerSet(spans, j) ensures k in SoonerSet(spans, i) {
    }
    OrderIsNumeric(spans[j].lo, spans[j].lo);
    assert j in SoonerSet(spans, i) && j !in SoonerSet(spans, j);
    Proper(SoonerSet(spans, j), SoonerSet(spans, i), j);
  }

  lemma Proper(a: set<nat>, b: set<nat>, x: nat)
    requires a <= b && x in b && x !in a
    ensures |a| < |b|
  {
    assert a <= b - {x};
    Smaller(a, b - {x});
  }

  lemma Smaller(a: set<nat>, b: set<nat>)
    requires a <= b
    ensures |a| <= |b|
  {
    assert b == a + (b - a);
  }

  lemma RankBelow(spans: seq<Span>, i: nat)
    requires i < |spans|
    ensures Rank(spans, i) < |spans|
  {
    RankIsSet(spans, i);
    OrderIsNumeric(spans[i].lo, spans[i].lo);
    Proper(SoonerSet(spans, i), UpTo(|spans|), i);
  }

  /** The indices below `n`. */
  function UpTo(n: nat): (r: set<nat>)
    ensures |r| == n
    ensures forall j: nat :: j in r <==> j < n
  {
    if n == 0 then {} else UpTo(n - 1) + {n - 1}
  }

  lemma RankOnce(spans: seq<Span>, i: nat, j: nat)
    requires i < |spans| && j < |spans| && Rank(spans, i) == Rank(spans, j)
    ensures i == j
  {
    if Sooner(spans, i, j) {
      RankRises(spans, i, j);
    } else if Sooner(spans, j, i) {
      RankRises(spans, j, i);
    }
  }

  /** The ranks of the first `m` ranges. */
  function RanksOf(spans: seq<Span>, m: nat): (r: set<nat>)
    requires m <= |spans|
    ensures forall k :: k in r ==> exists i: nat :: i < m && Rank(spans, i) == k
  {
    if m == 0 then {} else RanksOf(spans, m - 1) + {Rank(spans, m - 1)}
  }

  lemma OneMore(a: set<nat>, x: nat)
    requires x !in a
    ensures |a + {x}| == |a| + 1
  {
  }

  lemma {:induction false} RanksCount(spans: seq<Span>, m: nat)
    requires m <= |spans|
    ensures |RanksOf(spans, m)| == m
    decreases m
  {
    if m > 0 {
      RanksCount(spans, m - 1);
      NewRank(spans, m - 1);
      OneMore(RanksOf(spans, m - 1), Rank(spans, m - 1));
    }
  }

  lemma NewRank(spans: seq<Span>, m: nat)
    requires m < |spans|
    ensures Rank(spans, m) !in RanksOf(spans, m)
  {
    forall i: nat | i < m ensures Rank(spans, i) != Rank(spans, m) {
      if Rank(spans, i) == Rank(spans, m) {
        RankOnce(spans, i, m);
      }
    }
  }

  /** Every place in the sorted list has exactly one range of that rank. */
  lemma RanksFill(spans: seq<Span>, k: nat)
    requires k < |spans|
    ensures WithRank(spans, k) != []
  {
    var n := |spans|;
    RanksCount(spans, n);
    var ranks, all := RanksOf(spans, n), UpTo(n);
    forall r | r in ranks ensures r in all {
      var i: nat :| i < n && Rank(spans, i) == r;
      RankBelow(spans, i);
    }
    SameSize(ranks, all);
    assert k in ranks;
    var i: nat :| i < n && Rank(spans, i) == k;
    assert i in WithRank(spans, k);
  }

  lemma SameSize(a: set<nat>, b: set<nat>)
    requires a <= b && |a| == |b|
    ensures a == b
  {
    if x :| x in b && x !in a {
      Proper(a, b, x);
    }
  }

  /** Where the range of rank `k` stands in the list. */
  function Place(spans: seq<Span>, k: nat): (i: nat)
    requires k < |spans|
    ensures i < |spans| && Rank(spans, i) == k && Sorted(spans)[k] == spans[i]
  {
    RanksFill(spans, k);
    WithRank(spans, k)[0]
  }

  predicate InOrder(spans: seq<Span>) {
    forall i, j :: 0 <= i < j < |spans| ==> Num(spans[i].lo) <= Num(spans[j].lo)
  }

  /** The sorted list is in order, and holds the ranges the list does. */
  lemma SortedSorts(spans: seq<Span>)
    ensures InOrder(Sorted(spans))
    ensures forall s :: s in Sorted(spans) <==> s in spans
  {
    var r := Sorted(spans);
    forall k, m | 0 <= k < m < |r| ensures Num(r[k].lo) <= Num(r[m].lo) {
      var i, j := Place(spans, k), Place(spans, m);
      if Sooner(spans, j, i) {
        RankRises(spans, j, i);
      }
      OrderIsNumeric(spans[i].lo, spans[j].lo);
    }
    forall s | s in spans ensures s in r {
      var i: nat :| i < |spans| && spans[i] == s;
      RankBelow(spans, i);
      RankOnce(spans, i, Place(spans, Rank(spans, i)));
    }
    forall s | s in r ensures s in spans {
      var k :| 0 <= k < |r| && r[k] == s;
      assert r[k] == spans[Place(spans, k)];
    }
  }

  // ---- the code points ranges hold

  predicate WellOrdered(spans: seq<Span>) {
    forall s :: s in spans ==> Num(s.lo) <= Num(s.hi)
  }

  predicate Within(s: Span, c: Cp) { Num(s.lo) <= Num(c) <= Num(s.hi) }

  predicate Holds(spans: seq<Span>, c: Cp) {
    exists s :: s in spans && Within(s, c)
  }

  lemma SortedHolds(spans: seq<Span>, c: Cp)
    ensures Holds(Sorted(spans), c) <==> Holds(spans, c)
  {
    SortedSorts(spans);
  }

  // ---- merging

  /** Whether a gap stands before the range at `i`: every earlier one ends before the code
      point before it. */
  predicate StartsBlock(sorted: seq<Span>, i: nat)
    requires i < |sorted|
  {
    forall j :: 0 <= j < i ==> CpBefore(CpNext(sorted[j].hi), sorted[i].lo)
  }

  function BlockStarts(sorted: seq<Span>): seq<nat> {
    Indices(|sorted|, (i: nat) => i < |sorted| && StartsBlock(sorted, i))
  }

  /** `abnf-cp-max`: the first code point no other is above. */
  function CpMax(cps: seq<Cp>): (m: Cp)
    requires cps != []
    ensures m in cps && forall c :: c in cps ==> Num(c) <= Num(m)
  {
    var tops := Indices(|cps|, (i: nat) => i < |cps| && forall j :: 0 <= j < |cps| ==> !CpBefore(cps[i], cps[j]));
    var top := Greatest(cps);
    assert top in tops by {
      forall j | 0 <= j < |cps| ensures !CpBefore(cps[top], cps[j]) {
        OrderIsNumeric(cps[top], cps[j]);
      }
    }
    assert forall j :: 0 <= j < |cps| ==> Num(cps[j]) <= Num(cps[tops[0]]) by {
      forall j | 0 <= j < |cps| ensures Num(cps[j]) <= Num(cps[tops[0]]) {
        OrderIsNumeric(cps[tops[0]], cps[j]);
      }
    }
    cps[tops[0]]
  }

  /** The place of a code point no other is above. */
  function Greatest(cps: seq<Cp>): (k: nat)
    requires cps != []
    ensures k < |cps| && forall j :: 0 <= j < |cps| ==> Num(cps[j]) <= Num(cps[k])
  {
    if |cps| == 1 then 0
    else
      var k := Greatest(cps[..|cps| - 1]);
      if Num(cps[k]) < Num(cps[|cps| - 1]) then |cps| - 1 else k
  }

  /** Where block `k` ends: at the next block's start. */
  function BlockEnd(sorted: seq<Span>, starts: seq<nat>, k: nat): nat
    requires k < |starts|
  {
    if k + 1 < |starts| then starts[k + 1] else |sorted|
  }

  function BlockMembers(sorted: seq<Span>, starts: seq<nat>, k: nat): seq<nat>
    requires k < |starts|
  {
    Indices(|sorted|, (i: nat) => starts[k] <= i < BlockEnd(sorted, starts, k))
  }

  /** The high ends of a list's ranges at some places. */
  function Highs(sorted: seq<Span>, at: seq<nat>): seq<Cp>
    requires forall k :: 0 <= k < |at| ==> at[k] < |sorted|
  {
    seq(|at|, k requires 0 <= k < |at| => sorted[at[k]].hi)
  }

  /** `abnf-block-span`. */
  function BlockSpan(sorted: seq<Span>, k: nat): Span
    requires k < |BlockStarts(sorted)|
  {
    var starts := BlockStarts(sorted);
    var members := BlockMembers(sorted, starts, k);
    assert starts[k] < |sorted| && starts[k] < BlockEnd(sorted, starts, k);
    assert starts[k] in members;
    Span(sorted[starts[k]].lo, CpMax(Highs(sorted, members)))
  }

  function Blocks(sorted: seq<Span>): (r: seq<Span>)
    ensures |r| == |BlockStarts(sorted)|
    ensures forall k :: 0 <= k < |r| ==> r[k] == BlockSpan(sorted, k)
  {
    seq(|BlockStarts(sorted)|, k requires 0 <= k < |BlockStarts(sorted)| => BlockSpan(sorted, k))
  }

  /** `abnf-spans-merged`. */
  function Merged(spans: seq<Span>): seq<Span> { Blocks(Sorted(spans)) }

  /** Apart: well-ordered, in order, with a gap between each two. */
  predicate Apart(spans: seq<Span>) {
    && WellOrdered(spans)
    && forall i, j :: 0 <= i < j < |spans| ==> Num(spans[i].hi) + 1 < Num(spans[j].lo)
  }

  lemma BlockFacts(sorted: seq<Span>, k: nat)
    requires k < |BlockStarts(sorted)|
    ensures var starts := BlockStarts(sorted);
            var from, to := starts[k], BlockEnd(sorted, starts, k);
            var b := BlockSpan(sorted, k);
            && from < to <= |sorted| && StartsBlock(sorted, from)
            && b.lo == sorted[from].lo
            && (forall i :: from <= i < to ==> Num(sorted[i].hi) <= Num(b.hi))
            && exists i :: from <= i < to && b.hi == sorted[i].hi
  {
    var starts := BlockStarts(sorted);
    var from, to := starts[k], BlockEnd(sorted, starts, k);
    var members := BlockMembers(sorted, starts, k);
    var highs := Highs(sorted, members);
    assert from in members;
    forall i | from <= i < to ensures sorted[i].hi in highs {
      assert i in members;
      var m :| 0 <= m < |members| && members[m] == i;
      assert highs[m] == sorted[i].hi;
    }
    var m :| 0 <= m < |highs| && highs[m] == CpMax(highs);
    assert sorted[members[m]].hi == BlockSpan(sorted, k).hi;
  }

  /** A range starts a block where it starts past the successor of every end before it. */
  predicate Gap(sorted: seq<Span>, i: nat)
    requires i < |sorted|
  {
    forall j :: 0 <= j < i ==> Num(sorted[j].hi) + 1 < Num(sorted[i].lo)
  }

  lemma StartIsGap(sorted: seq<Span>, i: nat)
    requires i < |sorted|
    ensures StartsBlock(sorted, i) <==> Gap(sorted, i)
  {
    forall j | 0 <= j < i
      ensures CpBefore(CpNext(sorted[j].hi), sorted[i].lo) <==> Num(sorted[j].hi) + 1 < Num(sorted[i].lo)
    {
      OrderIsNumeric(CpNext(sorted[j].hi), sorted[i].lo);
      NextIsSuccessor(sorted[j].hi);
    }
  }

  /** Between two starts no range starts a block. */
  lemma NoStartInside(sorted: seq<Span>, k: nat, i: nat)
    requires k < |BlockStarts(sorted)|
    requires BlockStarts(sorted)[k] < i < BlockEnd(sorted, BlockStarts(sorted), k) && i < |sorted|
    ensures !Gap(sorted, i)
  {
    var starts := BlockStarts(sorted);
    forall m | 0 <= m < |starts| ensures starts[m] != i {
      if k + 1 < m {
        assert starts[k + 1] < starts[m];
      } else if m < k {
        assert starts[m] < starts[k];
      }
    }
    assert i !in starts;
    StartIsGap(sorted, i);
  }

  /** From a block's low end to the high end of one of its ranges, every code point is in
      a range of the block. */
  lemma {:induction false} BlockFills(sorted: seq<Span>, k: nat, i: nat, c: Cp) returns (w: nat)
    requires k < |BlockStarts(sorted)|
    requires BlockStarts(sorted)[k] <= i < BlockEnd(sorted, BlockStarts(sorted), k) && i < |sorted|
    requires Num(sorted[BlockStarts(sorted)[k]].lo) <= Num(c) <= Num(sorted[i].hi)
    ensures w <= i && Within(sorted[w], c)
    decreases i
  {
    var from := BlockStarts(sorted)[k];
    if Num(sorted[i].lo) <= Num(c) {
      w := i;
    } else {
      NoStartInside(sorted, k, i);
      var j :| 0 <= j < i && !(Num(sorted[j].hi) + 1 < Num(sorted[i].lo));
      StartIsGap(sorted, from);
      w := BlockFills(sorted, k, j, c);
    }
  }

  /** Every range is in one of the blocks. */
  lemma {:induction false} BlockOf(sorted: seq<Span>, i: nat) returns (k: nat)
    requires i < |sorted|
    ensures k < |BlockStarts(sorted)|
    ensures BlockStarts(sorted)[k] <= i < BlockEnd(sorted, BlockStarts(sorted), k)
    decreases i
  {
    var starts := BlockStarts(sorted);
    if StartsBlock(sorted, i) {
      assert i in starts;
      k :| 0 <= k < |starts| && starts[k] == i;
    } else {
      k := BlockOf(sorted, i - 1);
    }
  }

  /** What a block holds one of the ranges holds. */
  lemma BlockHeld(sorted: seq<Span>, k: nat, c: Cp)
    requires k < |BlockStarts(sorted)| && Within(BlockSpan(sorted, k), c)
    ensures Holds(sorted, c)
  {
    var from, to := BlockStarts(sorted)[k], BlockEnd(sorted, BlockStarts(sorted), k);
    BlockFacts(sorted, k);
    var i: nat :| from <= i < to && BlockSpan(sorted, k).hi == sorted[i].hi;
    var w := BlockFills(sorted, k, i, c);
    assert sorted[w] in sorted;
  }

  /** What a range holds its block holds. */
  lemma HeldInBlock(sorted: seq<Span>, i: nat, c: Cp)
    requires i < |sorted| && InOrder(sorted) && Within(sorted[i], c)
    ensures Holds(Blocks(sorted), c)
  {
    var k := BlockOf(sorted, i);
    BlockFacts(sorted, k);
    assert Num(sorted[BlockStarts(sorted)[k]].lo) <= Num(sorted[i].lo);
    assert Blocks(sorted)[k] in Blocks(sorted);
  }

  /** Merging changes which ranges hold the code points, and not which are held. */
  lemma MergedHolds(spans: seq<Span>, c: Cp)
    ensures Holds(Merged(spans), c) <==> Holds(spans, c)
  {
    var sorted := Sorted(spans);
    SortedHolds(spans, c);
    if Holds(Blocks(sorted), c) {
      var k: nat :| k < |Blocks(sorted)| && Within(Blocks(sorted)[k], c);
      BlockHeld(sorted, k, c);
    }
    if Holds(sorted, c) {
      var i: nat :| i < |sorted| && Within(sorted[i], c);
      SortedSorts(spans);
      HeldInBlock(sorted, i, c);
    }
  }

  /** A block's ends are the low end of its first range and the high end of one of its own. */
  lemma BlockEnds(sorted: seq<Span>, k: nat) returns (from: nat, i: nat)
    requires k < |BlockStarts(sorted)|
    ensures from == BlockStarts(sorted)[k] < |sorted| && BlockSpan(sorted, k).lo == sorted[from].lo
    ensures i < BlockEnd(sorted, BlockStarts(sorted), k) <= |sorted| && BlockSpan(sorted, k).hi == sorted[i].hi
  {
    BlockFacts(sorted, k);
    from := BlockStarts(sorted)[k];
    i :| from <= i < BlockEnd(sorted, BlockStarts(sorted), k) && BlockSpan(sorted, k).hi == sorted[i].hi;
  }

  lemma EndsBefore(sorted: seq<Span>, starts: seq<nat>, k: nat, m: nat)
    requires k < m < |starts| && forall a, b :: 0 <= a < b < |starts| ==> starts[a] < starts[b]
    ensures BlockEnd(sorted, starts, k) <= starts[m]
  {
  }

  lemma StartGap(sorted: seq<Span>, m: nat, i: nat)
    requires m < |BlockStarts(sorted)| && i < BlockStarts(sorted)[m] < |sorted|
    ensures Num(sorted[i].hi) + 1 < Num(sorted[BlockStarts(sorted)[m]].lo)
  {
    StartIsGap(sorted, BlockStarts(sorted)[m]);
  }

  lemma BlockGap(sorted: seq<Span>, k: nat, m: nat)
    requires k < m < |BlockStarts(sorted)|
    ensures Num(BlockSpan(sorted, k).hi) + 1 < Num(BlockSpan(sorted, m).lo)
  {
    var from, i := BlockEnds(sorted, k);
    var to, j := BlockEnds(sorted, m);
    EndsBefore(sorted, BlockStarts(sorted), k, m);
    StartGap(sorted, m, i);
  }

  lemma BlockOrdered(sorted: seq<Span>, k: nat)
    requires k < |BlockStarts(sorted)| && WellOrdered(sorted)
    ensures Num(BlockSpan(sorted, k).lo) <= Num(BlockSpan(sorted, k).hi)
  {
    BlockFacts(sorted, k);
    assert sorted[BlockStarts(sorted)[k]] in sorted;
  }

  /** The merged list is in order, with a gap between each two ranges. */
  lemma MergedApart(spans: seq<Span>)
    requires WellOrdered(spans)
    ensures Apart(Merged(spans))
  {
    var sorted := Sorted(spans);
    SortedSorts(spans);
    forall k, m | 0 <= k < m < |Blocks(sorted)|
      ensures Num(Blocks(sorted)[k].hi) + 1 < Num(Blocks(sorted)[m].lo)
    {
      BlockGap(sorted, k, m);
    }
    forall s | s in Blocks(sorted) ensures Num(s.lo) <= Num(s.hi) {
      var k: nat :| k < |Blocks(sorted)| && Blocks(sorted)[k] == s;
      BlockOrdered(sorted, k);
    }
  }
}
