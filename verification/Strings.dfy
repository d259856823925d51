/** The string operations the converter and the render share. */
module Strings {

  datatype Option<+T> = None | Some(value: T)

  /** The first place `sep` stands in `s`, or the length of `s`. */
  function Find(sep: char, s: string): (i: nat)
    ensures i <= |s|
    ensures sep !in s[..i]
    ensures i < |s| ==> s[i] == sep
  {
    if s == [] || s[0] == sep then 0 else 1 + Find(sep, s[1..])
  }

  /** `s` cut at every `sep`: always one piece more than there are cuts. */
  function Split(sep: char, s: string): (pieces: seq<string>)
    ensures |pieces| >= if sep in s then 2 else 1
    ensures forall p :: p in pieces ==> sep !in p
    decreases |s|
  {
    var i := Find(sep, s);
    if i == |s| then [s] else [s[..i]] + Split(sep, s[i + 1..])
  }

  /** The pieces put back together with `sep` between them. */
  function Join(sep: string, pieces: seq<string>): string {
    if pieces == [] then ""
    else if |pieces| == 1 then pieces[0]
    else pieces[0] + sep + Join(sep, pieces[1..])
  }

  /** Cutting a string that one `sep` divides from a piece free of it. */
  lemma SplitFirst(sep: char, a: string, b: string)
    requires sep !in a
    ensures Split(sep, a) == [a]
    ensures Split(sep, a + [sep] + b) == [a] + Split(sep, b)
  {
    FindUnique(sep, a, |a|);
    var s := a + [sep] + b;
    assert s[|a|] == sep && s[..|a|] == a;
    FindUnique(sep, s, |a|);
    assert s[|a| + 1..] == b;
  }

  lemma FindUnique(sep: char, s: string, i: nat)
    requires i <= |s| && sep !in s[..i] && (i < |s| ==> s[i] == sep)
    ensures Find(sep, s) == i
  {
    var j := Find(sep, s);
    assert forall k | 0 <= k < i :: s[k] == s[..i][k];
    assert forall k | 0 <= k < j :: s[k] == s[..j][k];
  }

  /** Cutting undoes joining, for pieces that do not hold the separator. */
  lemma {:induction false} SplitJoin(sep: char, pieces: seq<string>)
    requires pieces != []
    requires forall p :: p in pieces ==> sep !in p
    ensures Split(sep, Join([sep], pieces)) == pieces
  {
    if |pieces| == 1 {
      SplitFirst(sep, pieces[0], "");
    } else {
      var first, rest := pieces[0], pieces[1..];
      assert pieces == [first] + rest;
      SplitJoin(sep, rest);
      JoinStep([sep], first, rest);
      SplitFirst(sep, first, Join([sep], rest));
    }
  }

  /** Joining undoes cutting. */
  lemma {:induction false} JoinSplit(sep: char, s: string)
    ensures Join([sep], Split(sep, s)) == s
    decreases |s|
  {
    var i := Find(sep, s);
    SplitStep(sep, s);
    if i < |s| {
      var rest := s[i + 1..];
      JoinSplit(sep, rest);
      JoinStep([sep], s[..i], Split(sep, rest));
      assert s == s[..i] + [sep] + rest;
    }
  }

  lemma Regroup(a: string, b: string, c: string)
    ensures a + b + c == a + (b + c)
  {
  }

  lemma SplitFront(sep: char, a: string, first: string, rest: string, b: string)
    requires sep !in first && a == first + [sep] + rest
    ensures Split(sep, a + [sep] + b) == [first] + Split(sep, rest + [sep] + b)
  {
    var head := first + [sep];
    Regroup(head, rest, [sep]);
    Regroup(head, rest + [sep], b);
    SplitFirst(sep, first, rest + [sep] + b);
  }

  /** A piece behind the last separator. */
  lemma {:induction false} SplitLast(sep: char, a: string, b: string)
    requires sep !in b
    ensures Split(sep, a + [sep] + b) == Split(sep, a) + [b]
    decreases |a|
  {
    var i := Find(sep, a);
    SplitStep(sep, a);
    if i == |a| {
      SplitTwo(sep, a, b);
    } else {
      SplitLast(sep, a[i + 1..], b);
      SplitFront(sep, a, a[..i], a[i + 1..], b);
      Behind(a[..i], Split(sep, a[i + 1..]), b);
    }
  }

  lemma Behind(first: string, pieces: seq<string>, last: string)
    ensures [first] + (pieces + [last]) == [first] + pieces + [last]
  {
  }

  /** Cutting two pieces joined. */
  lemma SplitTwo(sep: char, a: string, b: string)
    requires sep !in a && sep !in b
    ensures Split(sep, a + [sep] + b) == [a, b]
  {
    SplitFirst(sep, a, b);
    SplitFirst(sep, b, "");
  }

  lemma SplitStep(sep: char, s: string)
    ensures Find(sep, s) == |s| ==> Split(sep, s) == [s]
    ensures Find(sep, s) < |s| ==> Split(sep, s) == [s[..Find(sep, s)]] + Split(sep, s[Find(sep, s) + 1..])
  {
  }

  lemma JoinStep(sep: string, first: string, pieces: seq<string>)
    ensures pieces != [] ==> Join(sep, [first] + pieces) == first + sep + Join(sep, pieces)
    ensures Join(sep, [first]) == first
  {
    assert ([first] + pieces)[1..] == pieces;
  }
}
