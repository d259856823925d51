/** The cached core rules and the copies handed out: over every interleaving of parses and of
    writes by callers, the cache keeps what it holds.

    Objects and arrays are cells, numbered so that what a cell is made of comes before it. */
module CoreCache {
  import opened Strings

  type Id = nat

  /** A production, an array, an element, or a span. A span is an object: a copied field that
      refers to one shares it. */
  datatype Cell =
    | Prod(name: string, sp: Option<Id>, rows: Id)
    | Array(items: seq<Id>)
    | Elem(payload: string, sp: Option<Id>, inner: Option<Id>, alts: Option<Id>)
    | SpanAt(s: nat, e: nat)

  type Heap = seq<Cell>

  function Opt(o: Option<Id>): seq<Id> { if o.Some? then [o.value] else [] }

  /** The cells a copy copies. */
  function Kids(c: Cell): seq<Id> {
    match c
    case Prod(_, _, alts) => [alts]
    case Array(items) => items
    case Elem(_, _, inner, alts) => Opt(inner) + Opt(alts)
    case SpanAt(_, _) => []
  }

  function SpanOf(c: Cell): Option<Id> {
    match c
    case Prod(_, sp, _) => sp
    case Elem(_, sp, _, _) => sp
    case _ => None
  }

  /** Every cell a cell refers to. */
  function Refs(c: Cell): seq<Id> { Kids(c) + Opt(SpanOf(c)) }

  /** A set of cells made only of each other, and none with a span. */
  predicate Region(heap: Heap, region: set<Id>) {
    forall i :: i in region ==>
      i < |heap| && SpanOf(heap[i]) == None && Within(Kids(heap[i]), i, region)
  }

  /** Cells of a region, before another. */
  predicate Within(ids: seq<Id>, id: Id, region: set<Id>) {
    forall m :: 0 <= m < |ids| ==> ids[m] < id && ids[m] in region
  }

  /** Cells numbered from `lo` and below `hi`. */
  predicate Numbered(ids: seq<Id>, lo: nat, hi: nat) {
    forall m :: 0 <= m < |ids| ==> lo <= ids[m] < hi
  }

  // ---- copying

  /** `cloneProduction`: a new cell for every production, array and element below one. */
  function Clone(heap: Heap, id: Id): (Heap, Id)
    decreases id, 1, 0
  {
    if id >= |heap| then (heap, id)
    else
      var (h, kids) := CloneAll(heap, id, Kids(heap[id]));
      (h + [WithKids(heap[id], kids)], |h|)
  }

  function CloneAll(heap: Heap, id: Id, ids: seq<Id>): (Heap, seq<Id>)
    decreases id, 0, |ids|
  {
    if ids == [] || ids[0] >= id then (heap, [])
    else
      var (h, first) := Clone(heap, ids[0]);
      var (h', rest) := CloneAll(h, id, ids[1..]);
      (h', [first] + rest)
  }

  /** A cell with its kids replaced, its other fields copied. */
  function WithKids(c: Cell, kids: seq<Id>): Cell {
    if |kids| != |Kids(c)| then c
    else
      match c
      case Prod(name, sp, _) => Prod(name, sp, kids[0])
      case Array(_) => Array(kids)
      case Elem(payload, sp, inner, alts) =>
        Elem(payload, sp, if inner.Some? then Some(kids[0]) else None,
             if alts.Some? then Some(kids[|kids| - 1]) else None)
      case SpanAt(_, _) => c
  }

  // ---- the tree below a cell

  /** All a cell says but its span and the cells it is made of. */
  datatype Label =
    | OfRule(name: string)
    | OfArray
    | OfElement(payload: string, wraps: bool, groups: bool)
    | OfSpan(s: nat, e: nat)

  datatype Tree = Missing | Node(what: Label, kids: seq<Tree>)

  function LabelOf(c: Cell): Label {
    match c
    case Prod(name, _, _) => OfRule(name)
    case Array(_) => OfArray
    case Elem(payload, _, inner, alts) => OfElement(payload, inner.Some?, alts.Some?)
    case SpanAt(s, e) => OfSpan(s, e)
  }

  function TreeOf(heap: Heap, id: Id): Tree
    decreases id, 1, 0
  {
    if id >= |heap| then Missing else Node(LabelOf(heap[id]), TreesOf(heap, id, Kids(heap[id])))
  }

  function TreesOf(heap: Heap, id: Id, ids: seq<Id>): seq<Tree>
    decreases id, 0, |ids|
  {
    if ids == [] then []
    else [if ids[0] < id then TreeOf(heap, ids[0]) else Missing] + TreesOf(heap, id, ids[1..])
  }

  /** More cells change no tree there was. */
  lemma {:induction false} TreeKept(heap: Heap, more: Heap, id: Id)
    requires heap <= more && id < |heap|
    ensures TreeOf(more, id) == TreeOf(heap, id)
    decreases id, 1, 0
  {
    TreesKept(heap, more, id, Kids(heap[id]));
  }

  lemma {:induction false} TreesKept(heap: Heap, more: Heap, id: Id, ids: seq<Id>)
    requires heap <= more && id < |heap|
    ensures TreesOf(more, id, ids) == TreesOf(heap, id, ids)
    decreases id, 0, |ids|
  {
    if ids != [] {
      if ids[0] < id {
        TreeKept(heap, more, ids[0]);
      }
      TreesKept(heap, more, id, ids[1..]);
    }
  }

  // ---- a copy shares nothing with what it copies

  /** The cells from `lo` on refer only to each other, each to ones before it. */
  predicate Fresh(heap: Heap, lo: nat) {
    forall i :: lo <= i < |heap| ==> Numbered(Refs(heap[i]), lo, i)
  }

  lemma KidsAre(c: Cell, kids: seq<Id>)
    requires |kids| == |Kids(c)|
    ensures Kids(WithKids(c, kids)) == kids && LabelOf(WithKids(c, kids)) == LabelOf(c)
    ensures SpanOf(WithKids(c, kids)) == SpanOf(c)
  {
  }

  lemma {:induction false} CloneIsFresh(heap: Heap, region: set<Id>, lo: nat, id: Id)
    requires Region(heap, region) && id in region && lo <= |heap| && Fresh(heap, lo)
    ensures var (h, copy) := Clone(heap, id);
            && heap <= h && Fresh(h, lo) && |heap| <= copy < |h|
            && TreeOf(h, copy) == TreeOf(heap, id)
    decreases id, 1, 0
  {
    CloneAllIsFresh(heap, region, lo, id, Kids(heap[id]));
    var (h, kids) := CloneAll(heap, id, Kids(heap[id]));
    KidsAre(heap[id], kids);
    var cell := WithKids(heap[id], kids);
    FreshSnoc(h, lo, cell);
    TreesAt(h, h + [cell], id, Kids(heap[id]), kids, heap);
    CopyTree(h, cell, heap, id);
  }

  lemma FreshSnoc(heap: Heap, lo: nat, cell: Cell)
    requires Fresh(heap, lo) && Numbered(Refs(cell), lo, |heap|)
    ensures Fresh(heap + [cell], lo)
  {
  }

  lemma CopyTree(h: Heap, cell: Cell, heap: Heap, id: Id)
    requires id < |heap| && LabelOf(cell) == LabelOf(heap[id])
    requires TreesOf(h + [cell], |h|, Kids(cell)) == TreesOf(heap, id, Kids(heap[id]))
    ensures TreeOf(h + [cell], |h|) == TreeOf(heap, id)
  {
  }

  lemma NumberedCons(first: Id, rest: seq<Id>, lo: nat, mid: nat, hi: nat)
    requires lo <= first < mid <= hi && Numbered(rest, mid, hi)
    ensures Numbered([first] + rest, lo, hi)
  {
  }

  lemma {:induction false} CloneAllIsFresh(heap: Heap, region: set<Id>, lo: nat, id: Id, ids: seq<Id>)
    requires Region(heap, region) && id in region && lo <= |heap| && Fresh(heap, lo)
    requires Within(ids, id, region)
    ensures var (h, kids) := CloneAll(heap, id, ids);
            && heap <= h && Fresh(h, lo) && Numbered(kids, |heap|, |h|)
            && Copied(h, kids, heap, ids)
    decreases id, 0, |ids|
  {
    if ids != [] {
      var (h, first) := Clone(heap, ids[0]);
      CloneIsFresh(heap, region, lo, ids[0]);
      RegionKept(heap, h, region);
      CloneAllIsFresh(h, region, lo, id, ids[1..]);
      var (h', rest) := CloneAll(h, id, ids[1..]);
      NumberedCons(first, rest, |heap|, |h|, |h'|);
      TreeKept(h, h', first);
      CopiedCons(h', first, rest, heap, h, ids);
    }
  }

  lemma RegionKept(heap: Heap, more: Heap, region: set<Id>)
    requires Region(heap, region) && heap <= more
    ensures Region(more, region)
  {
    forall i | i in region ensures i < |more| && more[i] == heap[i] {
    }
  }

  /** The copies have the trees of what they copy. */
  predicate Copied(h: Heap, copies: seq<Id>, heap: Heap, ids: seq<Id>) {
    |copies| == |ids| && forall i :: 0 <= i < |ids| ==> CopyAt(h, copies, heap, ids, i)
  }

  predicate CopyAt(h: Heap, copies: seq<Id>, heap: Heap, ids: seq<Id>, i: int)
    requires 0 <= i < |ids| == |copies|
  {
    TreeOf(h, copies[i]) == TreeOf(heap, ids[i])
  }

  lemma CopiedCons(h: Heap, first: Id, rest: seq<Id>, heap: Heap, mid: Heap, ids: seq<Id>)
    requires ids != [] && TreeOf(h, first) == TreeOf(heap, ids[0])
    requires heap <= mid && Copied(h, rest, mid, ids[1..])
    requires forall m :: 0 <= m < |ids| ==> ids[m] < |heap|
    ensures Copied(h, [first] + rest, heap, ids)
  {
    var copies := [first] + rest;
    forall i | 0 <= i < |ids| ensures CopyAt(h, copies, heap, ids, i) {
      if i > 0 {
        CopiedNext(h, rest, heap, mid, ids[1..], i - 1);
      }
    }
  }

  lemma CopiedNext(h: Heap, rest: seq<Id>, heap: Heap, mid: Heap, ids: seq<Id>, i: nat)
    requires heap <= mid && Copied(h, rest, mid, ids) && i < |ids| && ids[i] < |heap|
    ensures TreeOf(h, rest[i]) == TreeOf(heap, ids[i])
  {
    assert CopyAt(h, rest, mid, ids, i);
    TreeKept(heap, mid, ids[i]);
  }

  lemma CopiedTail(h: Heap, copies: seq<Id>, heap: Heap, ids: seq<Id>)
    requires Copied(h, copies, heap, ids) && ids != []
    ensures Copied(h, copies[1..], heap, ids[1..])
  {
    forall i | 0 <= i < |ids[1..]| ensures CopyAt(h, copies[1..], heap, ids[1..], i) {
      assert CopyAt(h, copies, heap, ids, i + 1);
    }
  }

  /** Trees by kids, from trees one by one. */
  lemma {:induction false} TreesAt(h: Heap, h': Heap, id: Id, ids: seq<Id>, kids: seq<Id>, heap: Heap)
    requires h <= h' && |h'| == |h| + 1 && Copied(h, kids, heap, ids)
    requires (forall m :: 0 <= m < |ids| ==> ids[m] < id) && Numbered(kids, 0, |h|)
    ensures TreesOf(h', |h|, kids) == TreesOf(heap, id, ids)
    decreases |ids|
  {
    if ids != [] {
      assert CopyAt(h, kids, heap, ids, 0);
      TreeKept(h, h', kids[0]);
      CopiedTail(h, kids, heap, ids);
      TreesAt(h, h', id, ids[1..], kids[1..], heap);
    }
  }

  // ---- stripping, in place, before a rule is cached

  function NoSpan(c: Cell): Cell {
    match c
    case Prod(name, _, rows) => Prod(name, None, rows)
    case Elem(payload, _, inner, alts) => Elem(payload, None, inner, alts)
    case _ => c
  }

  /** `stripSpans`: the span of a production, and of everything under it. */
  function Strip(heap: Heap, id: Id): (h: Heap)
    ensures |h| == |heap|
    decreases id, 1, 0
  {
    if id >= |heap| then heap else StripAll(heap[id := NoSpan(heap[id])], id, Kids(heap[id]))
  }

  function StripAll(heap: Heap, id: Id, ids: seq<Id>): (h: Heap)
    ensures |h| == |heap|
    decreases id, 0, |ids|
  {
    if ids == [] || ids[0] >= id then heap else StripAll(Strip(heap, ids[0]), id, ids[1..])
  }

  /** The cells under one, itself among them. */
  function Under(heap: Heap, id: Id): set<Id>
    decreases id, 1, 0
  {
    if id >= |heap| then {} else {id} + UnderAll(heap, id, Kids(heap[id]))
  }

  function UnderAll(heap: Heap, id: Id, ids: seq<Id>): set<Id>
    decreases id, 0, |ids|
  {
    if ids == [] || ids[0] >= id then {} else Under(heap, ids[0]) + UnderAll(heap, id, ids[1..])
  }

  /** From `lo` on, cells made only of ones before them. */
  predicate Layered(heap: Heap, lo: nat) {
    forall i :: lo <= i < |heap| ==> Numbered(Kids(heap[i]), lo, i)
  }

  /** The same cells, but for some of their spans. */
  predicate Alike(heap: Heap, h: Heap) {
    |h| == |heap| && forall i :: 0 <= i < |heap| ==> NoSpan(h[i]) == NoSpan(heap[i])
  }

  lemma NoSpanKids(c: Cell)
    ensures Kids(NoSpan(c)) == Kids(c) && SpanOf(NoSpan(c)) == None && NoSpan(NoSpan(c)) == NoSpan(c)
  {
  }

  lemma AlikeKids(heap: Heap, h: Heap, i: Id)
    requires Alike(heap, h) && i < |heap|
    ensures Kids(h[i]) == Kids(heap[i])
  {
    NoSpanKids(h[i]);
    NoSpanKids(heap[i]);
  }

  lemma {:induction false} UnderAlike(heap: Heap, h: Heap, id: Id)
    requires Alike(heap, h)
    ensures Under(h, id) == Under(heap, id)
    decreases id, 1, 0
  {
    if id < |heap| {
      AlikeKids(heap, h, id);
      UnderAllAlike(heap, h, id, Kids(heap[id]));
    }
  }

  lemma {:induction false} UnderAllAlike(heap: Heap, h: Heap, id: Id, ids: seq<Id>)
    requires Alike(heap, h)
    ensures UnderAll(h, id, ids) == UnderAll(heap, id, ids)
    decreases id, 0, |ids|
  {
    if ids != [] && ids[0] < id {
      UnderAlike(heap, h, ids[0]);
      UnderAllAlike(heap, h, id, ids[1..]);
    }
  }

  /** Stripped on a set of cells, and otherwise the same. */
  predicate StrippedOn(heap: Heap, h: Heap, region: set<Id>) {
    |h| == |heap| && forall i :: 0 <= i < |heap| ==> h[i] == if i in region then NoSpan(heap[i]) else heap[i]
  }

  lemma StrippedTwice(heap: Heap, mid: Heap, h: Heap, a: set<Id>, b: set<Id>)
    requires StrippedOn(heap, mid, a) && StrippedOn(mid, h, b)
    ensures StrippedOn(heap, h, a + b) && Alike(heap, mid)
  {
    forall i | 0 <= i < |heap| ensures h[i] == if i in a + b then NoSpan(heap[i]) else heap[i] {
      NoSpanKids(heap[i]);
    }
    forall i | 0 <= i < |heap| ensures NoSpan(mid[i]) == NoSpan(heap[i]) {
      NoSpanKids(heap[i]);
    }
  }

  lemma {:induction false} StripIs(heap: Heap, lo: nat, id: Id)
    requires Layered(heap, lo) && lo <= id
    ensures StrippedOn(heap, Strip(heap, id), Under(heap, id))
    decreases id, 1, 0
  {
    if id < |heap| {
      var kids := Kids(heap[id]);
      var mid := heap[id := NoSpan(heap[id])];
      assert StrippedOn(heap, mid, {id});
      LayeredAlike(heap, mid, lo, {id});
      assert Numbered(kids, lo, id);
      StripAllIs(mid, lo, id, kids);
      StrippedTwice(heap, mid, Strip(heap, id), {id}, UnderAll(mid, id, kids));
      UnderAllAlike(heap, mid, id, kids);
    }
  }

  lemma LayeredAlike(heap: Heap, h: Heap, lo: nat, region: set<Id>)
    requires Layered(heap, lo) && StrippedOn(heap, h, region)
    ensures Layered(h, lo)
  {
    forall i | lo <= i < |h| ensures Numbered(Kids(h[i]), lo, i) {
      NoSpanKids(heap[i]);
    }
  }

  lemma NumberedTail(ids: seq<Id>, lo: nat, hi: nat)
    requires Numbered(ids, lo, hi) && ids != []
    ensures Numbered(ids[1..], lo, hi) && lo <= ids[0] < hi
  {
    assert forall m :: 0 <= m < |ids| - 1 ==> ids[1..][m] == ids[m + 1];
  }

  lemma {:induction false} StripAllIs(heap: Heap, lo: nat, id: Id, ids: seq<Id>)
    requires Layered(heap, lo) && Numbered(ids, lo, id)
    ensures StrippedOn(heap, StripAll(heap, id, ids), UnderAll(heap, id, ids))
    decreases id, 0, |ids|
  {
    if ids != [] {
      var mid := Strip(heap, ids[0]);
      NumberedTail(ids, lo, id);
      StripIs(heap, lo, ids[0]);
      LayeredAlike(heap, mid, lo, Under(heap, ids[0]));
      StripAllIs(mid, lo, id, ids[1..]);
      StrippedTwice(heap, mid, StripAll(heap, id, ids), Under(heap, ids[0]), UnderAll(mid, id, ids[1..]));
      UnderAllAlike(heap, mid, id, ids[1..]);
    }
  }

  /** The cells under one are made of each other. */
  lemma {:induction false} UnderCloses(heap: Heap, lo: nat, id: Id, i: Id)
    requires Layered(heap, lo) && lo <= id && i in Under(heap, id)
    ensures lo <= i < |heap| && i <= id && Within(Kids(heap[i]), i, Under(heap, id))
    decreases id, 1, 0
  {
    assert Numbered(Kids(heap[id]), lo, id);
    if i == id {
      KidsUnder(heap, lo, id, Kids(heap[id]));
    } else {
      UnderAllCloses(heap, lo, id, Kids(heap[id]), i);
    }
  }

  lemma {:induction false} UnderAllCloses(heap: Heap, lo: nat, id: Id, ids: seq<Id>, i: Id)
    requires Layered(heap, lo) && Numbered(ids, lo, id) && i in UnderAll(heap, id, ids)
    ensures lo <= i < |heap| && i < id && Within(Kids(heap[i]), i, UnderAll(heap, id, ids))
    decreases id, 0, |ids|
  {
    NumberedTail(ids, lo, id);
    if i in Under(heap, ids[0]) {
      UnderCloses(heap, lo, ids[0], i);
    } else {
      UnderAllCloses(heap, lo, id, ids[1..], i);
    }
  }

  lemma {:induction false} KidsUnder(heap: Heap, lo: nat, id: Id, ids: seq<Id>)
    requires id < |heap| && Numbered(ids, lo, id)
    ensures Within(ids, id, UnderAll(heap, id, ids))
    decreases |ids|
  {
    if ids != [] {
      NumberedTail(ids, lo, id);
      KidsUnder(heap, lo, id, ids[1..]);
      assert ids[0] in Under(heap, ids[0]);
      forall m | 0 <= m < |ids| ensures ids[m] in UnderAll(heap, id, ids) {
        if m > 0 {
          assert ids[m] == ids[1..][m - 1];
        }
      }
    }
  }

  // ---- the loop that fills the cache

  /** The cells under any of a list. */
  function UnderEach(heap: Heap, ids: seq<Id>): set<Id> {
    if ids == [] then {} else Under(heap, ids[0]) + UnderEach(heap, ids[1..])
  }

  lemma {:induction false} UnderEachAlike(heap: Heap, h: Heap, ids: seq<Id>)
    requires Alike(heap, h)
    ensures UnderEach(h, ids) == UnderEach(heap, ids)
    decreases |ids|
  {
    if ids != [] {
      UnderAlike(heap, h, ids[0]);
      UnderEachAlike(heap, h, ids[1..]);
    }
  }

  lemma {:induction false} UnderEachCloses(heap: Heap, lo: nat, ids: seq<Id>, i: Id)
    requires Layered(heap, lo) && Numbered(ids, lo, |heap|) && i in UnderEach(heap, ids)
    ensures lo <= i < |heap| && Within(Kids(heap[i]), i, UnderEach(heap, ids))
    decreases |ids|
  {
    NumberedTail(ids, lo, |heap|);
    if i in Under(heap, ids[0]) {
      UnderCloses(heap, lo, ids[0], i);
    } else {
      UnderEachCloses(heap, lo, ids[1..], i);
    }
  }

  lemma {:induction false} RootsUnder(heap: Heap, ids: seq<Id>)
    requires Numbered(ids, 0, |heap|)
    ensures forall i :: 0 <= i < |ids| ==> ids[i] in UnderEach(heap, ids)
    decreases |ids|
  {
    if ids != [] {
      NumberedTail(ids, 0, |heap|);
      RootsUnder(heap, ids[1..]);
      forall i | 0 <= i < |ids| ensures ids[i] in UnderEach(heap, ids) {
        if i > 0 {
          assert ids[i] == ids[1..][i - 1];
        }
      }
    }
  }

  lemma UnderSnoc(heap: Heap, ids: seq<Id>, n: nat)
    requires n < |ids|
    ensures UnderEach(heap, ids[..n + 1]) == UnderEach(heap, ids[..n]) + Under(heap, ids[n])
  {
    UnderConcat(heap, ids[..n], [ids[n]]);
    assert ids[..n + 1] == ids[..n] + [ids[n]];
  }

  lemma UnderCons(heap: Heap, id: Id, ids: seq<Id>)
    ensures UnderEach(heap, [id] + ids) == Under(heap, id) + UnderEach(heap, ids)
  {
    assert ([id] + ids)[1..] == ids;
  }

  lemma {:induction false} UnderConcat(heap: Heap, a: seq<Id>, b: seq<Id>)
    ensures UnderEach(heap, a + b) == UnderEach(heap, a) + UnderEach(heap, b)
    decreases |a|
  {
    if a == [] {
      assert a + b == b;
    } else {
      UnderConcat(heap, a[1..], b);
      UnderCons(heap, a[0], a[1..] + b);
      assert a + b == [a[0]] + (a[1..] + b);
    }
  }

  /** `getCoreRules`: the parsed rules, every one stripped in place, and then cached. Nothing
      but the spans under them changes. */
  method GetCoreRules(heap: Heap, lo: nat, raw: seq<Id>, out: set<Id>) returns (s: State)
    requires Layered(heap, lo) && Numbered(raw, lo, |heap|)
    ensures s.cache == raw && s.out == out && StrippedOn(heap, s.heap, UnderEach(heap, raw))
  {
    var h := heap;
    assert raw[..0] == [];
    for n := 0 to |raw|
      invariant StrippedOn(heap, h, UnderEach(heap, raw[..n])) && Layered(h, lo)
    {
      StripIs(h, lo, raw[n]);
      LayeredAlike(h, Strip(h, raw[n]), lo, Under(h, raw[n]));
      StrippedTwice(heap, h, Strip(h, raw[n]), UnderEach(heap, raw[..n]), Under(h, raw[n]));
      UnderAlike(heap, h, raw[n]);
      UnderSnoc(heap, raw, n);
      h := Strip(h, raw[n]);
    }
    assert raw[..|raw|] == raw;
    s := State(h, raw, out);
  }

  // ---- runs: parses hand out copies, callers write what they were handed

  /** The heap, the cached productions, and the cells callers can reach. */
  datatype State = State(heap: Heap, cache: seq<Id>, out: set<Id>)

  datatype Action =
    | Parse(rule: nat)                  // a copy of one of the cached productions
    | Make(cell: Cell)                  // anything new: a user's production, a span
    | Write(id: Id, cell: Cell)         // a caller assigns fields of what it holds

  predicate Held(out: set<Id>, c: Cell) {
    forall m :: 0 <= m < |Refs(c)| ==> Refs(c)[m] in out
  }

  /** A caller refers only to what it holds. */
  predicate Allowed(s: State, a: Action) {
    match a
    case Parse(rule) => rule < |s.cache|
    case Make(cell) => Held(s.out, cell)
    case Write(id, cell) => id in s.out && id < |s.heap| && Held(s.out, cell)
  }

  /** The cells from `lo` on, below `hi`. */
  function Cells(lo: nat, hi: nat): (r: set<Id>)
    ensures forall i: Id :: i in r <==> lo <= i < hi
    decreases hi - lo
  {
    if lo >= hi then {} else Cells(lo + 1, hi) + {lo}
  }

  function Do(s: State, a: Action): State
    requires Allowed(s, a)
  {
    match a
    case Parse(rule) =>
      var (h, _) := Clone(s.heap, s.cache[rule]);
      s.(heap := h, out := s.out + Cells(|s.heap|, |h|))
    case Make(cell) => s.(heap := s.heap + [cell], out := s.out + {|s.heap|})
    case Write(id, cell) => s.(heap := s.heap[id := cell])
  }

  /** Runs of allowed actions. */
  predicate Runs(s: State, actions: seq<Action>)
    decreases |actions|
  {
    actions == [] || (Allowed(s, actions[0]) && Runs(Do(s, actions[0]), actions[1..]))
  }

  function After(s: State, actions: seq<Action>): State
    requires Runs(s, actions)
    decreases |actions|
  {
    if actions == [] then s else After(Do(s, actions[0]), actions[1..])
  }

  /** The cache apart from what callers hold, which refers to nothing else. */
  predicate Separate(s: State, region: set<Id>) {
    && Region(s.heap, region) && region !! s.out
    && (forall i :: 0 <= i < |s.cache| ==> s.cache[i] in region)
    && (forall i :: i in s.out ==> i < |s.heap| && Held(s.out, s.heap[i]))
  }

  /** The cells of a region are as they were. */
  predicate Same(heap: Heap, heap': Heap, region: set<Id>) {
    forall i :: i in region ==> i < |heap| && i < |heap'| && heap'[i] == heap[i]
  }

  /** One action leaves the cache as it was, and apart; a copy has the cached rule's tree. */
  lemma DoKeeps(s: State, a: Action, region: set<Id>)
    requires Separate(s, region) && Allowed(s, a)
    ensures Separate(Do(s, a), region) && Same(s.heap, Do(s, a).heap, region)
    ensures a.Parse? ==> var (h, copy) := Clone(s.heap, s.cache[a.rule]);
              copy in Do(s, a).out && TreeOf(h, copy) == TreeOf(s.heap, s.cache[a.rule])
  {
    match a
    case Parse(rule) => ParseKeeps(s, rule, region);
    case Make(cell) => RegionKept(s.heap, s.heap + [cell], region);
    case Write(id, cell) =>
  }

  lemma ParseKeeps(s: State, rule: nat, region: set<Id>)
    requires Separate(s, region) && rule < |s.cache|
    ensures Separate(Do(s, Parse(rule)), region) && Same(s.heap, Do(s, Parse(rule)).heap, region)
    ensures var (h, copy) := Clone(s.heap, s.cache[rule]);
            copy in Do(s, Parse(rule)).out && TreeOf(h, copy) == TreeOf(s.heap, s.cache[rule])
  {
    var lo := |s.heap|;
    CloneIsFresh(s.heap, region, lo, s.cache[rule]);
    var (h, copy) := Clone(s.heap, s.cache[rule]);
    RegionKept(s.heap, h, region);
    var out := s.out + Cells(lo, |h|);
    forall i | i in out ensures i < |h| && Held(out, h[i]) {
      if i in s.out {
        assert h[i] == s.heap[i];
      }
    }
  }

  lemma {:induction false} RunsKeep(s: State, actions: seq<Action>, region: set<Id>)
    requires Separate(s, region) && Runs(s, actions)
    ensures Separate(After(s, actions), region) && Same(s.heap, After(s, actions).heap, region)
    ensures forall i :: 0 <= i < |s.cache| ==> TreeOf(After(s, actions).heap, s.cache[i]) == TreeOf(s.heap, s.cache[i])
    ensures After(s, actions).cache == s.cache
    decreases |actions|
  {
    if actions != [] {
      DoKeeps(s, actions[0], region);
      var next := Do(s, actions[0]);
      RunsKeep(next, actions[1..], region);
      forall i | 0 <= i < |s.cache| ensures TreeOf(next.heap, s.cache[i]) == TreeOf(s.heap, s.cache[i]) {
        TreeSame(s.heap, next.heap, region, s.cache[i]);
      }
    }
  }

  /** What callers hold, and refer to, was there before the core rules were parsed. */
  predicate Earlier(heap: Heap, lo: nat, out: set<Id>) {
    forall i :: i in out ==> i < lo && i < |heap| && Held(out, heap[i])
  }

  /** The loop leaves the cache apart from callers, closed and without spans: what was just
      parsed refers only to itself. */
  lemma CachedApart(heap: Heap, lo: nat, raw: seq<Id>, s: State)
    requires Layered(heap, lo) && Numbered(raw, lo, |heap|) && Earlier(heap, lo, s.out)
    requires s.cache == raw && StrippedOn(heap, s.heap, UnderEach(heap, raw))
    ensures Separate(s, UnderEach(heap, raw))
  {
    var region := UnderEach(heap, raw);
    forall i | i in region
      ensures lo <= i < |s.heap| && SpanOf(s.heap[i]) == None && Within(Kids(s.heap[i]), i, region)
    {
      UnderEachCloses(heap, lo, raw, i);
      NoSpanKids(heap[i]);
    }
    RootsUnder(heap, raw);
  }

  /** Whatever was parsed and held before, over every interleaving of parses and of callers'
      writes the cached rules keep the trees they were parsed to, without spans, and apart from
      every cell a caller can reach. */
  lemma CacheIsKept(heap: Heap, lo: nat, raw: seq<Id>, s: State, actions: seq<Action>)
    requires Layered(heap, lo) && Numbered(raw, lo, |heap|) && Earlier(heap, lo, s.out)
    requires s.cache == raw && StrippedOn(heap, s.heap, UnderEach(heap, raw)) && Runs(s, actions)
    ensures var end, region := After(s, actions), UnderEach(heap, raw);
            && end.cache == raw && Separate(end, region)
            && forall i :: 0 <= i < |raw| ==> TreeOf(end.heap, raw[i]) == TreeOf(heap, raw[i])
  {
    CachedApart(heap, lo, raw, s);
    RunsKeep(s, actions, UnderEach(heap, raw));
    StrippedTrees(heap, s.heap, UnderEach(heap, raw));
  }

  /** A tree does not show spans. */
  lemma StrippedTrees(heap: Heap, h: Heap, region: set<Id>)
    requires StrippedOn(heap, h, region)
    ensures forall id :: TreeOf(h, id) == TreeOf(heap, id)
  {
    forall id ensures TreeOf(h, id) == TreeOf(heap, id) {
      StrippedTree(heap, h, region, id);
    }
  }

  lemma {:induction false} StrippedTree(heap: Heap, h: Heap, region: set<Id>, id: Id)
    requires StrippedOn(heap, h, region)
    ensures TreeOf(h, id) == TreeOf(heap, id)
    decreases id, 1, 0
  {
    if id < |heap| {
      NoSpanKids(heap[id]);
      assert LabelOf(NoSpan(heap[id])) == LabelOf(heap[id]);
      StrippedTreesOf(heap, h, region, id, Kids(heap[id]));
    }
  }

  lemma {:induction false} StrippedTreesOf(heap: Heap, h: Heap, region: set<Id>, id: Id, ids: seq<Id>)
    requires StrippedOn(heap, h, region)
    ensures TreesOf(h, id, ids) == TreesOf(heap, id, ids)
    decreases id, 0, |ids|
  {
    if ids != [] {
      if ids[0] < id {
        StrippedTree(heap, h, region, ids[0]);
      }
      StrippedTreesOf(heap, h, region, id, ids[1..]);
    }
  }

  lemma {:induction false} TreeSame(heap: Heap, heap': Heap, region: set<Id>, id: Id)
    requires Region(heap, region) && Same(heap, heap', region) && id in region
    ensures TreeOf(heap', id) == TreeOf(heap, id)
    decreases id, 1, 0
  {
    TreesSame(heap, heap', region, id, Kids(heap[id]));
  }

  lemma {:induction false} TreesSame(heap: Heap, heap': Heap, region: set<Id>, id: Id, ids: seq<Id>)
    requires Region(heap, region) && Same(heap, heap', region) && id in region
    requires Within(ids, id, region)
    ensures TreesOf(heap', id, ids) == TreesOf(heap, id, ids)
    decreases id, 0, |ids|
  {
    if ids != [] {
      TreeSame(heap, heap', region, ids[0]);
      TreesSame(heap, heap', region, id, ids[1..]);
    }
  }
}
