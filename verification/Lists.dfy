/** Filtering and flattening lists. */
module Lists {

  function Filter<T(!new)>(s: seq<T>, keep: T -> bool): (r: seq<T>)
    ensures forall x :: x in r <==> x in s && keep(x)
  {
    if s == [] then []
    else if keep(s[0]) then [s[0]] + Filter(s[1..], keep)
    else Filter(s[1..], keep)
  }

  /** The first item kept, and that none before it is. */
  lemma {:induction false} FilterFirst<T(!new)>(s: seq<T>, keep: T -> bool) returns (k: nat)
    requires Filter(s, keep) != []
    ensures k < |s| && keep(s[k]) && Filter(s, keep)[0] == s[k]
    ensures forall m :: 0 <= m < k ==> !keep(s[m])
  {
    if keep(s[0]) {
      k := 0;
    } else {
      var r := FilterFirst(s[1..], keep);
      k := r + 1;
      forall m | 0 <= m < k ensures !keep(s[m]) {
        if m > 0 {
          assert s[m] == s[1..][m - 1];
        }
      }
    }
  }

  /** Where an item kept stands, and that those kept before it are those kept of what stands
      before. */
  lemma {:induction false} FilterAt<T(!new)>(s: seq<T>, keep: T -> bool, k: nat) returns (n: nat)
    requires k < |Filter(s, keep)|
    ensures n < |s| && s[n] == Filter(s, keep)[k]
    ensures forall m :: 0 <= m < n && keep(s[m]) ==> s[m] in Filter(s, keep)[..k]
    decreases |s|
  {
    if keep(s[0]) && k == 0 {
      n := 0;
    } else {
      var before := if keep(s[0]) then k - 1 else k;
      n := FilterAt(s[1..], keep, before);
      n := n + 1;
      forall m | 0 <= m < n && keep(s[m]) ensures s[m] in Filter(s, keep)[..k] {
        KeptBehind(s, keep, k);
        if m > 0 {
          assert s[m] == s[1..][m - 1];
          assert s[m] in Filter(s[1..], keep)[..before];
        }
      }
    }
  }

  lemma KeptBehind<T(!new)>(s: seq<T>, keep: T -> bool, k: nat)
    requires s != [] && k < |Filter(s, keep)|
    ensures keep(s[0]) && k > 0 ==> Filter(s, keep)[..k] == [s[0]] + Filter(s[1..], keep)[..k - 1]
    ensures !keep(s[0]) ==> Filter(s, keep)[..k] == Filter(s[1..], keep)[..k]
  {
  }
}
