/** Incremental alternatives folded into the production they extend, in place. */
module Incrementals {
  import opened Strings
  import opened Ast
  import opened Productions
  import A = Annotations

  datatype MergeError = NoBase(name: string) | TwoValues(name: string)

  /** The productions kept, and where each name was last defined. */
  datatype Folded = Folded(out: seq<Line>, byName: map<string, nat>) | Refused(error: MergeError)

  predicate NamesWithin(st: Folded) {
    st.Folded? ==> forall n :: n in st.byName ==> st.byName[n] < |st.out|
  }

  function Clean(line: Line): Line { line.(incremental := false) }

  function FoldLine(st: Folded, line: Line): (r: Folded)
    requires NamesWithin(st)
    ensures NamesWithin(r)
  {
    if st.Refused? then st
    else if !line.incremental then
      Folded(st.out + [Clean(line)], st.byName[line.name := |st.out|])
    else if line.name !in st.byName then Refused(NoBase(line.name))
    else
      var k := st.byName[line.name];
      var base := st.out[k];
      if line.value.Some? && base.value.Some? then Refused(TwoValues(line.name))
      else
        var value := if line.value.Some? then line.value else base.value;
        Folded(st.out[k := base.(alts := base.alts + line.alts, value := value)], st.byName)
  }

  /** `mergeIncrementals`, over the first `n` productions. */
  function Merge(lines: seq<Line>, n: nat): (r: Folded)
    requires n <= |lines|
    ensures NamesWithin(r)
  {
    if n == 0 then Folded([], map[]) else FoldLine(Merge(lines, n - 1), lines[n - 1])
  }

  /** An account of the fold, line by line: `Merge` is one. */
  ghost predicate StepAt(fold: nat -> Folded, lines: seq<Line>, k: nat)
    requires k < |lines|
  {
    NamesWithin(fold(k)) && fold(k + 1) == FoldLine(fold(k), lines[k])
  }

  ghost predicate Folds(fold: nat -> Folded, lines: seq<Line>) {
    && fold(0) == Folded([], map[])
    && forall k: nat {:trigger StepAt(fold, lines, k)} :: k < |lines| ==> StepAt(fold, lines, k)
  }

  function MergeFold(lines: seq<Line>): nat -> Folded {
    (n: nat) => if n <= |lines| then Merge(lines, n) else Folded([], map[])
  }

  lemma {:induction false} RefusalStays(fold: nat -> Folded, lines: seq<Line>, n: nat, m: nat)
    requires Folds(fold, lines) && n <= m <= |lines| && fold(n).Refused?
    ensures fold(m) == fold(n)
    decreases m
  {
    if n < m {
      RefusalStays(fold, lines, n, m - 1);
      assert StepAt(fold, lines, m - 1);
    }
  }

  // ---- what each kept production holds

  /** The last of the first `n` productions that defines a name. */
  function LastNamed(lines: seq<Line>, name: string, n: nat): (r: Option<nat>)
    requires n <= |lines|
    ensures r.Some? ==> r.value < n && !lines[r.value].incremental && lines[r.value].name == name
    ensures forall i :: 0 <= i < n && !lines[i].incremental && lines[i].name == name ==> r.Some? && i <= r.value
  {
    if n == 0 then None
    else if !lines[n - 1].incremental && lines[n - 1].name == name then Some(n - 1)
    else LastNamed(lines, name, n - 1)
  }

  /** Whether an incremental production extends the one at `i`. */
  predicate Extends(lines: seq<Line>, j: nat, i: nat)
    requires j < |lines|
  {
    lines[j].incremental && LastNamed(lines, lines[j].name, j) == Some(i)
  }

  /** The alternatives of a production and of those that extend it, in order. */
  function FamilyAlts(lines: seq<Line>, i: nat, n: nat): seq<Sequence>
    requires i < n <= |lines|
  {
    if n == i + 1 then lines[i].alts
    else FamilyAlts(lines, i, n - 1) + if Extends(lines, n - 1, i) then lines[n - 1].alts else []
  }

  /** Their annotations, in order. */
  function FamilyValues(lines: seq<Line>, i: nat, n: nat): seq<Annotation>
    requires i < n <= |lines|
  {
    var last := if lines[n - 1].value.Some? then [lines[n - 1].value.value] else [];
    if n == i + 1 then last
    else FamilyValues(lines, i, n - 1) + if Extends(lines, n - 1, i) then last else []
  }

  /** The productions that define a name, of the first `n`. */
  function Bases(lines: seq<Line>, n: nat): (r: seq<nat>)
    requires n <= |lines|
    ensures forall k :: 0 <= k < |r| ==> r[k] < n && !lines[r[k]].incremental
    ensures forall j, k :: 0 <= j < k < |r| ==> r[j] < r[k]
    ensures forall i: nat :: i < n && !lines[i].incremental ==> i in r
  {
    if n == 0 then [] else if lines[n - 1].incremental then Bases(lines, n - 1) else Bases(lines, n - 1) + [n - 1]
  }

  function Only(values: seq<Annotation>): Option<Annotation> {
    if values == [] then None else Some(values[0])
  }

  /** A production with what extends it folded in. */
  function Family(lines: seq<Line>, i: nat, n: nat): Line
    requires i < n <= |lines|
  {
    lines[i].(incremental := false, alts := FamilyAlts(lines, i, n), value := Only(FamilyValues(lines, i, n)))
  }

  function Families(lines: seq<Line>, n: nat): (r: seq<Line>)
    requires n <= |lines|
    ensures |r| == |Bases(lines, n)|
    ensures forall k :: 0 <= k < |r| ==> r[k] == Family(lines, Bases(lines, n)[k], n)
  {
    seq(|Bases(lines, n)|, k requires 0 <= k < |Bases(lines, n)| => Family(lines, Bases(lines, n)[k], n))
  }

  /** Every incremental production extends one, and no production has two annotations among
      its own and those of what extends it. */
  predicate Mergeable(lines: seq<Line>, n: nat)
    requires n <= |lines|
  {
    AllExtend(lines, n) && NoneTwice(lines, n)
  }

  predicate AllExtend(lines: seq<Line>, n: nat)
    requires n <= |lines|
  {
    forall j :: 0 <= j < n && lines[j].incremental ==> LastNamed(lines, lines[j].name, j).Some?
  }

  predicate NoneTwice(lines: seq<Line>, n: nat)
    requires n <= |lines|
  {
    forall i {:trigger FamilyValues(lines, i, n)} ::
      0 <= i < n && !lines[i].incremental ==> |FamilyValues(lines, i, n)| <= 1
  }

  /** Each name is mapped to the place of the last production kept that defines it. */
  ghost predicate NamesRight(lines: seq<Line>, n: nat, byName: map<string, nat>)
    requires n <= |lines|
  {
    forall name :: NameRight(lines, n, byName, name)
  }

  predicate NameRight(lines: seq<Line>, n: nat, byName: map<string, nat>, name: string)
    requires n <= |lines|
  {
    if name in byName then
      byName[name] < |Bases(lines, n)| && LastNamed(lines, name, n) == Some(Bases(lines, n)[byName[name]])
    else LastNamed(lines, name, n) == None
  }

  /** What the fold holds is the families so far, and where each name is last defined. */
  ghost predicate FoldIs(lines: seq<Line>, n: nat, st: Folded)
    requires n <= |lines|
  {
    && (st.Folded? <==> Mergeable(lines, n))
    && (st.Folded? ==> st.out == Families(lines, n) && NamesRight(lines, n, st.byName))
  }

  lemma NamesBase(lines: seq<Line>, n: nat, byName: map<string, nat>)
    requires n < |lines| && !lines[n].incremental && NamesRight(lines, n, byName)
    ensures NamesRight(lines, n + 1, byName[lines[n].name := |Bases(lines, n)|])
  {
    var next, m := byName[lines[n].name := |Bases(lines, n)|], n + 1;
    forall name ensures NameRight(lines, m, next, name) {
      assert NameRight(lines, n, byName, name);
    }
  }

  lemma NamesSame(lines: seq<Line>, n: nat, byName: map<string, nat>)
    requires n < |lines| && lines[n].incremental && NamesRight(lines, n, byName)
    ensures NamesRight(lines, n + 1, byName)
  {
    var m := n + 1;
    forall name ensures NameRight(lines, m, byName, name) {
      assert NameRight(lines, n, byName, name);
    }
  }

  lemma FamiliesBase(lines: seq<Line>, n: nat)
    requires n < |lines| && !lines[n].incremental
    ensures Families(lines, n + 1) == Families(lines, n) + [Clean(lines[n])]
  {
    forall k | 0 <= k < |Bases(lines, n)|
      ensures Family(lines, Bases(lines, n)[k], n + 1) == Family(lines, Bases(lines, n)[k], n)
    {
      assert !Extends(lines, n, Bases(lines, n)[k]);
    }
    assert Family(lines, n, n + 1) == Clean(lines[n]);
  }

  lemma FoldBase(lines: seq<Line>, n: nat, st: Folded)
    requires n < |lines| && NamesWithin(st) && FoldIs(lines, n, st) && !lines[n].incremental
    ensures FoldIs(lines, n + 1, FoldLine(st, lines[n]))
  {
    MergeableBase(lines, n);
    if st.Folded? {
      FamiliesBase(lines, n);
      NamesBase(lines, n, st.byName);
    }
  }

  lemma MergeableBase(lines: seq<Line>, n: nat)
    requires n < |lines| && !lines[n].incremental
    ensures Mergeable(lines, n + 1) <==> Mergeable(lines, n)
  {
    forall i: nat | i < n && !lines[i].incremental
      ensures |FamilyValues(lines, i, n + 1)| <= 1 <==> |FamilyValues(lines, i, n)| <= 1
    {
    }
    assert |FamilyValues(lines, n, n + 1)| <= 1;
    if NoneTwice(lines, n + 1) {
      forall i: nat | i < n && !lines[i].incremental ensures |FamilyValues(lines, i, n)| <= 1 {
        assert |FamilyValues(lines, i, n + 1)| <= 1;
      }
    }
  }

  lemma FoldIncremental(lines: seq<Line>, n: nat, st: Folded)
    requires n < |lines| && NamesWithin(st) && FoldIs(lines, n, st) && lines[n].incremental
    ensures FoldIs(lines, n + 1, FoldLine(st, lines[n]))
  {
    if st.Folded? {
      assert NameRight(lines, n, st.byName, lines[n].name);
    }
    if st.Folded? && lines[n].name in st.byName {
      FoldExtends(lines, n, st);
    } else {
      Unmergeable(lines, n);
    }
  }

  lemma FoldExtends(lines: seq<Line>, n: nat, st: Folded)
    requires n < |lines| && NamesWithin(st) && FoldIs(lines, n, st) && lines[n].incremental
    requires st.Folded? && lines[n].name in st.byName
    ensures FoldIs(lines, n + 1, FoldLine(st, lines[n]))
  {
    var k := st.byName[lines[n].name];
    assert NameRight(lines, n, st.byName, lines[n].name);
    var i := Bases(lines, n)[k];
    MergeableExtends(lines, n, i);
    assert st.out[k].value == Only(FamilyValues(lines, i, n));
    NamesSame(lines, n, st.byName);
    if !(lines[n].value.Some? && FamilyValues(lines, i, n) != []) {
      FamiliesExtend(lines, n, k);
    }
  }

  lemma Unmergeable(lines: seq<Line>, n: nat)
    requires n < |lines| && lines[n].incremental
    requires !Mergeable(lines, n) || LastNamed(lines, lines[n].name, n).None?
    ensures !Mergeable(lines, n + 1)
  {
    if !NoneTwice(lines, n) {
      var i: nat :| i < n && !lines[i].incremental && |FamilyValues(lines, i, n)| > 1;
      ValuesGrow(lines, n, i);
    }
  }

  lemma ValuesGrow(lines: seq<Line>, n: nat, i: nat)
    requires i < n < |lines|
    ensures |FamilyValues(lines, i, n + 1)| >= |FamilyValues(lines, i, n)|
  {
  }

  lemma MergeableExtends(lines: seq<Line>, n: nat, i: nat)
    requires n < |lines| && Extends(lines, n, i) && Mergeable(lines, n)
    ensures Mergeable(lines, n + 1) <==> !(lines[n].value.Some? && FamilyValues(lines, i, n) != [])
  {
    NoneTwiceNext(lines, n, i);
  }

  lemma NoneTwiceNext(lines: seq<Line>, n: nat, i: nat)
    requires n < |lines| && Extends(lines, n, i) && NoneTwice(lines, n)
    ensures NoneTwice(lines, n + 1) <==> !(lines[n].value.Some? && FamilyValues(lines, i, n) != [])
  {
    assert !lines[i].incremental && i < n;
    assert |FamilyValues(lines, i, n)| <= 1;
    assert FamilyValues(lines, i, n + 1) ==
           FamilyValues(lines, i, n) + if lines[n].value.Some? then [lines[n].value.value] else [];
    forall m: nat | m < n && m != i && !lines[m].incremental ensures |FamilyValues(lines, m, n + 1)| <= 1 {
      assert |FamilyValues(lines, m, n)| <= 1;
    }
  }

  lemma FamiliesExtend(lines: seq<Line>, n: nat, k: nat)
    requires n < |lines| && lines[n].incremental && k < |Bases(lines, n)| && Extends(lines, n, Bases(lines, n)[k])
    requires !(lines[n].value.Some? && FamilyValues(lines, Bases(lines, n)[k], n) != [])
    ensures var base := Families(lines, n)[k];
            Families(lines, n + 1) == Families(lines, n)[k := base.(
              alts := base.alts + lines[n].alts, value := if lines[n].value.Some? then lines[n].value else base.value)]
  {
    var i := Bases(lines, n)[k];
    forall m | 0 <= m < |Bases(lines, n)| && m != k
      ensures Family(lines, Bases(lines, n)[m], n + 1) == Family(lines, Bases(lines, n)[m], n)
    {
      assert Bases(lines, n)[m] != i;
      FamilySame(lines, n, Bases(lines, n)[m]);
    }
  }

  lemma FamilySame(lines: seq<Line>, n: nat, i: nat)
    requires i < n < |lines| && !Extends(lines, n, i)
    ensures Family(lines, i, n + 1) == Family(lines, i, n)
  {
  }

  lemma {:induction false} FoldIsExact(fold: nat -> Folded, lines: seq<Line>, n: nat)
    requires Folds(fold, lines) && n <= |lines|
    ensures FoldIs(lines, n, fold(n))
    decreases n
  {
    if n == 0 {
      assert Families(lines, 0) == [];
    } else {
      FoldIsExact(fold, lines, n - 1);
      assert StepAt(fold, lines, n - 1);
      FoldNext(lines, n - 1, fold(n - 1));
    }
  }

  lemma MergeFolds(lines: seq<Line>)
    ensures Folds(MergeFold(lines), lines)
  {
    forall k: nat | k < |lines| ensures StepAt(MergeFold(lines), lines, k) {
    }
  }

  /** The merge succeeds exactly when every incremental production has one to extend and no
      rule is annotated twice, and then every production kept holds its own alternatives,
      those of what extends it in order, and the one annotation among them. */
  lemma MergeIsExact(lines: seq<Line>, n: nat)
    requires n <= |lines|
    ensures FoldIs(lines, n, Merge(lines, n))
  {
    MergeFolds(lines);
    FoldIsExact(MergeFold(lines), lines, n);
  }

  lemma FoldNext(lines: seq<Line>, n: nat, st: Folded)
    requires n < |lines| && NamesWithin(st) && FoldIs(lines, n, st)
    ensures FoldIs(lines, n + 1, FoldLine(st, lines[n]))
  {
    if lines[n].incremental {
      FoldIncremental(lines, n, st);
    } else {
      FoldBase(lines, n, st);
    }
  }

  // ---- why a merge is refused

  /** An incremental production with none of its name before it. */
  predicate Stray(lines: seq<Line>, j: nat)
    requires j < |lines|
  {
    lines[j].incremental && forall i :: 0 <= i < j ==> lines[i].incremental || lines[i].name != lines[j].name
  }

  /** One with an annotation, where what it extends has one, or an earlier one that extends it. */
  ghost predicate SecondValue(lines: seq<Line>, j: nat)
    requires j < |lines|
  {
    && lines[j].incremental && lines[j].value.Some?
    && exists i: nat, m: nat ::
         i <= m < j && Extends(lines, j, i) && lines[m].value.Some? && (m == i || Extends(lines, m, i))
  }

  lemma {:induction false} ValueFrom(lines: seq<Line>, i: nat, n: nat) returns (m: nat)
    requires i < n <= |lines| && FamilyValues(lines, i, n) != []
    ensures i <= m < n && lines[m].value.Some? && (m == i || Extends(lines, m, i))
    decreases n
  {
    if n == i + 1 || (lines[n - 1].value.Some? && Extends(lines, n - 1, i)) {
      m := n - 1;
    } else {
      m := ValueFrom(lines, i, n - 1);
    }
  }

  /** What a refusal at a line says of it. */
  ghost predicate RefusedAt(lines: seq<Line>, j: nat, e: MergeError)
    requires j < |lines|
  {
    match e
    case NoBase(name) => name == lines[j].name && Stray(lines, j)
    case TwoValues(name) => name == lines[j].name && SecondValue(lines, j)
  }

  lemma StrayRefused(lines: seq<Line>, j: nat, byName: map<string, nat>)
    requires j < |lines| && lines[j].incremental && NamesRight(lines, j, byName) && lines[j].name !in byName
    ensures Stray(lines, j)
  {
    assert NameRight(lines, j, byName, lines[j].name);
  }

  lemma FamilySecond(lines: seq<Line>, j: nat, i: nat)
    requires j < |lines| && Extends(lines, j, i) && lines[j].value.Some? && FamilyValues(lines, i, j) != []
    ensures SecondValue(lines, j)
  {
    var m := ValueFrom(lines, i, j);
  }

  lemma SecondRefused(lines: seq<Line>, j: nat, byName: map<string, nat>)
    requires j < |lines| && lines[j].incremental && lines[j].value.Some?
    requires NamesRight(lines, j, byName) && lines[j].name in byName && byName[lines[j].name] < |Bases(lines, j)|
    requires Families(lines, j)[byName[lines[j].name]].value.Some?
    ensures SecondValue(lines, j)
  {
    assert NameRight(lines, j, byName, lines[j].name);
    FamilySecond(lines, j, Bases(lines, j)[byName[lines[j].name]]);
  }

  lemma LineRefused(lines: seq<Line>, j: nat, st: Folded)
    requires j < |lines| && NamesWithin(st) && FoldIs(lines, j, st) && st.Folded? && FoldLine(st, lines[j]).Refused?
    ensures RefusedAt(lines, j, FoldLine(st, lines[j]).error)
  {
    if lines[j].name !in st.byName {
      StrayRefused(lines, j, st.byName);
    } else {
      SecondRefused(lines, j, st.byName);
    }
  }

  /** The merge is refused for the first line it cannot take, by that line's name: one with
      nothing to extend, or a second annotation. */
  lemma {:induction false} MergeRefusal(lines: seq<Line>, n: nat) returns (j: nat)
    requires n <= |lines| && Merge(lines, n).Refused?
    ensures j < n && Mergeable(lines, j) && RefusedAt(lines, j, Merge(lines, n).error)
    decreases n
  {
    var st := Merge(lines, n - 1);
    if st.Refused? {
      j := MergeRefusal(lines, n - 1);
    } else {
      j := n - 1;
      MergeIsExact(lines, j);
      LineRefused(lines, j, st);
    }
  }

  // ---- the fold over the objects

  /** Each production has a list of alternatives of its own. */
  predicate ListsApart(prods: seq<Production>) {
    forall i, j :: 0 <= i < j < |prods| ==> prods[i].alts != prods[j].alts
  }

  ghost function ListsOf(prods: seq<Production>): set<AltList> { set p | p in prods :: p.alts }

  /** What the loop holds of the first `n` productions: new ones, each with the list of
      alternatives of the production it was made from, and the rest untouched. */
  ghost predicate Shared(prods: seq<Production>, out: seq<Production>, from: seq<nat>, n: nat)
    requires n <= |prods|
  {
    && |from| == |out|
    && (forall k :: 0 <= k < |out| ==> from[k] < n && out[k].alts == prods[from[k]].alts)
    && (forall j, k :: 0 <= j < k < |out| ==> from[j] < from[k] && out[j] != out[k])
  }

  lemma SharedApart(prods: seq<Production>, out: seq<Production>, from: seq<nat>, n: nat, k: nat)
    requires n <= |prods| && ListsApart(prods) && Shared(prods, out, from, n) && k < |out|
    ensures forall j :: 0 <= j < |out| && j != k ==> out[j].alts != out[k].alts && out[j] != out[k]
    ensures forall j :: n <= j < |prods| ==> prods[j].alts != out[k].alts
  {
    forall j | 0 <= j < |out| && j != k ensures out[j].alts != out[k].alts && out[j] != out[k] {
      assert from[j] < from[k] || from[k] < from[j];
      assert j < k || k < j;
    }
  }

  /** Alternatives pushed onto the list of the production kept at `k`, and its annotation. */
  method Extend(out: seq<Production>, k: nat, extra: seq<Sequence>, value: Option<Annotation>)
    requires k < |out|
    requires forall j :: 0 <= j < |out| && j != k ==> out[j].alts != out[k].alts && out[j] != out[k]
    modifies out[k], out[k].alts
    ensures A.Views(out) == old(A.Views(out))[k := old(A.Views(out)[k]).(
              alts := old(out[k].alts.items) + extra, value := if value.Some? then value else old(out[k].value))]
  {
    var base := out[k];
    base.alts.items := base.alts.items + extra;
    if value.Some? {
      base.value := value;
    }
  }

  /** The names that were defined, the objects kept and where they came from, after a line. */
  method FoldOne(prods: seq<Production>, n: nat, out: seq<Production>, byName: map<string, nat>, ghost from: seq<nat>,
                 ghost lists: set<AltList>)
    returns (kept: seq<Production>, names: map<string, nat>, e: Option<MergeError>, ghost origins: seq<nat>)
    requires n < |prods| && ListsApart(prods) && Shared(prods, out, from, n)
    requires forall k :: 0 <= k < |out| ==> out[k] !in prods
    requires forall name :: name in byName ==> byName[name] < |out|
    requires forall j :: 0 <= j < |prods| ==> prods[j].alts in lists
    modifies out, lists
    ensures FoldLine(Folded(old(A.Views(out)), byName), old(prods[n].View()))
         == if e.Some? then Refused(e.value) else Folded(A.Views(kept), names)
    ensures Shared(prods, kept, origins, n + 1)
    ensures forall k :: 0 <= k < |kept| ==> (k < |out| && kept[k] == out[k]) || fresh(kept[k])
    ensures forall j :: n < j < |prods| ==> prods[j].View() == old(prods[j].View())
  {
    var p := prods[n];
    kept, names, e, origins := out, byName, None, from;
    if !p.incremental {
      var clean := new Production(p.name, p.alts, false, p.sp, p.nodeKind, p.value);
      kept, origins, names := out + [clean], from + [n], byName[p.name := |out|];
      assert A.Views(kept) == A.Views(out) + [clean.View()];
    } else if p.name !in byName {
      e := Some(NoBase(p.name));
    } else {
      var k := byName[p.name];
      SharedApart(prods, out, from, n, k);
      assert out[k] in out && prods[from[k]].alts in lists;
      if p.value.Some? && out[k].value.Some? {
        e := Some(TwoValues(p.name));
      } else {
        Extend(out, k, p.alts.items, p.value);
      }
    }
  }

  method FoldAll(prods: seq<Production>, ghost fold: nat -> Folded)
    returns (out: seq<Production>, names: map<string, nat>, e: Option<MergeError>)
    requires ListsApart(prods) && Folds(fold, A.Views(prods))
    modifies ListsOf(prods)
    ensures fold(|prods|) == if e.Some? then Refused(e.value) else Folded(A.Views(out), names)
    ensures forall k :: 0 <= k < |out| ==> fresh(out[k])
  {
    ghost var lines := A.Views(prods);
    ghost var from: seq<nat> := [];
    ghost var lists := ListsOf(prods);
    names := map[];
    out := [];
    var n := 0;
    while n < |prods|
      invariant 0 <= n <= |prods|
      invariant fold(n) == Folded(A.Views(out), names)
      invariant Shared(prods, out, from, n)
      invariant forall k :: 0 <= k < |out| ==> fresh(out[k])
      invariant forall j :: n <= j < |prods| ==> prods[j].View() == lines[j]
    {
      assert StepAt(fold, lines, n);
      out, names, e, from := FoldOne(prods, n, out, names, from, lists);
      n := n + 1;
      if e.Some? {
        RefusalStays(fold, lines, n, |prods|);
        return;
      }
    }
    e := None;
  }

  /** `mergeIncrementals`: a base's own list of alternatives is grown. */
  method MergeIncrementals(prods: seq<Production>) returns (out: seq<Production>, e: Option<MergeError>)
    requires ListsApart(prods)
    modifies ListsOf(prods)
    ensures Merge(old(A.Views(prods)), |prods|).Refused? ==> e == Some(Merge(old(A.Views(prods)), |prods|).error)
    ensures Merge(old(A.Views(prods)), |prods|).Folded? ==>
              e == None && A.Views(out) == Merge(old(A.Views(prods)), |prods|).out
    ensures forall k :: 0 <= k < |out| ==> fresh(out[k])
  {
    var names;
    out, names, e := FoldAll(prods, MergeFold(A.Views(prods)));
  }
}
