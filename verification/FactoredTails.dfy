/** Left-factored tails expanded back: an alternative that ends in a tail becomes the prefix
    before it followed by each of the tail's alternatives in turn. */
module FactoredTails {

  /** An element: a left-factored tail the compiler made, or anything else, by its key. */
  datatype Sym = Fact(name: string) | Plain(key: string)

  /** Every tail's alternatives, and a rank for each. */
  datatype Tails = Tails(alts: map<string, seq<seq<Sym>>>, rank: map<string, nat>)

  /** The tails an alternative refers to are ones there are, ranked below a bound. */
  predicate Below(env: Tails, alt: seq<Sym>, bound: nat) {
    forall i :: 0 <= i < |alt| && alt[i].Fact? ==>
      alt[i].name in env.alts && alt[i].name in env.rank && env.rank[alt[i].name] < bound
  }

  /** Tails refer only to tails of lower rank. */
  predicate Ranked(env: Tails) {
    forall n :: n in env.alts ==>
      n in env.rank && forall k :: 0 <= k < |env.alts[n]| ==> Below(env, env.alts[n][k], env.rank[n])
  }

  predicate Closed(env: Tails, alt: seq<Sym>) {
    forall i :: 0 <= i < |alt| && alt[i].Fact? ==> alt[i].name in env.alts
  }

  // ---- a weight that every expansion lowers

  /** A tail outweighs each of its alternatives, and an alternative weighs what its tails do. */
  function TailWeight(env: Tails, n: string): nat
    requires Ranked(env) && n in env.alts
    decreases env.rank[n], 2, 0
  {
    1 + AltsWeight(env, n, |env.alts[n]|)
  }

  function AltsWeight(env: Tails, n: string, k: nat): nat
    requires Ranked(env) && n in env.alts && k <= |env.alts[n]|
    decreases env.rank[n], 1, k
  {
    if k == 0 then 0
    else
      AltsWeight(env, n, k - 1) + BoundedWeight(env, env.alts[n][k - 1], env.rank[n])
  }

  function BoundedWeight(env: Tails, alt: seq<Sym>, bound: nat): nat
    requires Ranked(env) && Below(env, alt, bound)
    decreases bound, 0, |alt|
  {
    if alt == [] then 0
    else
      var last := alt[|alt| - 1];
      BoundedWeight(env, alt[..|alt| - 1], bound) + if last.Fact? then TailWeight(env, last.name) else 0
  }

  function Weight(env: Tails, alt: seq<Sym>): nat
    requires Ranked(env) && Closed(env, alt)
    decreases |alt|
  {
    if alt == [] then 0
    else
      var last := alt[|alt| - 1];
      Weight(env, alt[..|alt| - 1]) + if last.Fact? then TailWeight(env, last.name) else 0
  }

  lemma {:induction false} WeightIsBounded(env: Tails, alt: seq<Sym>, bound: nat)
    requires Ranked(env) && Below(env, alt, bound)
    ensures Weight(env, alt) == BoundedWeight(env, alt, bound)
    decreases |alt|
  {
    if alt != [] {
      WeightIsBounded(env, alt[..|alt| - 1], bound);
    }
  }

  lemma {:induction false} AltsOutweigh(env: Tails, n: string, m: nat, k: nat)
    requires Ranked(env) && n in env.alts && k < m <= |env.alts[n]|
    ensures Closed(env, env.alts[n][k]) && Weight(env, env.alts[n][k]) <= AltsWeight(env, n, m)
    decreases m
  {
    if k < m - 1 {
      AltsOutweigh(env, n, m - 1, k);
    } else {
      WeightIsBounded(env, env.alts[n][k], env.rank[n]);
    }
  }

  lemma {:induction false} WeightConcat(env: Tails, a: seq<Sym>, b: seq<Sym>)
    requires Ranked(env) && Closed(env, a) && Closed(env, b)
    ensures Closed(env, a + b) && Weight(env, a + b) == Weight(env, a) + Weight(env, b)
    decreases |b|
  {
    if b == [] {
      assert a + b == a;
    } else {
      var init := b[..|b| - 1];
      WeightConcat(env, a, init);
      assert (a + b)[..|a + b| - 1] == a + init;
    }
  }

  /** Putting one of a tail's alternatives in the tail's place lowers the weight. */
  lemma ExpandsLower(env: Tails, alt: seq<Sym>, k: nat)
    requires Ranked(env) && Closed(env, alt) && alt != [] && alt[|alt| - 1].Fact?
    requires k < |env.alts[alt[|alt| - 1].name]|
    ensures var tail := env.alts[alt[|alt| - 1].name][k];
            Closed(env, alt[..|alt| - 1] + tail) && Weight(env, alt[..|alt| - 1] + tail) < Weight(env, alt)
  {
    var n := alt[|alt| - 1].name;
    AltsOutweigh(env, n, |env.alts[n]|, k);
    WeightConcat(env, alt[..|alt| - 1], env.alts[n][k]);
  }

  // ---- the expansion

  /** `abnf-expand`. */
  function Expand(env: Tails, alt: seq<Sym>): seq<seq<Sym>>
    requires Ranked(env) && Closed(env, alt)
    decreases Weight(env, alt), 1, 0
  {
    if alt == [] || !alt[|alt| - 1].Fact? then [alt]
    else ExpandFrom(env, alt, 0)
  }

  /** The expansions by the last tail's alternatives from `k` on. */
  function ExpandFrom(env: Tails, alt: seq<Sym>, k: nat): seq<seq<Sym>>
    requires Ranked(env) && Closed(env, alt) && alt != [] && alt[|alt| - 1].Fact?
    requires k <= |env.alts[alt[|alt| - 1].name]|
    decreases Weight(env, alt), 0, |env.alts[alt[|alt| - 1].name]| - k
  {
    var tails := env.alts[alt[|alt| - 1].name];
    if k == |tails| then []
    else
      ExpandsLower(env, alt, k);
      Expand(env, alt[..|alt| - 1] + tails[k]) + ExpandFrom(env, alt, k + 1)
  }

  predicate EndsInTail(alt: seq<Sym>) { alt != [] && alt[|alt| - 1].Fact? }

  /** No expansion ends in a tail. */
  lemma {:induction false} NoneEndsInTail(env: Tails, alt: seq<Sym>, e: seq<Sym>)
    requires Ranked(env) && Closed(env, alt) && e in Expand(env, alt)
    ensures !EndsInTail(e)
    decreases Weight(env, alt), 1, 0
  {
    if EndsInTail(alt) {
      NoneFromEnds(env, alt, 0, e);
    }
  }

  lemma {:induction false} NoneFromEnds(env: Tails, alt: seq<Sym>, k: nat, e: seq<Sym>)
    requires Ranked(env) && Closed(env, alt) && EndsInTail(alt)
    requires k <= |env.alts[alt[|alt| - 1].name]| && e in ExpandFrom(env, alt, k)
    ensures !EndsInTail(e)
    decreases Weight(env, alt), 0, |env.alts[alt[|alt| - 1].name]| - k
  {
    var tails := env.alts[alt[|alt| - 1].name];
    ExpandsLower(env, alt, k);
    var one := alt[..|alt| - 1] + tails[k];
    if e in Expand(env, one) {
      NoneEndsInTail(env, one, e);
    } else {
      NoneFromEnds(env, alt, k + 1, e);
    }
  }

  // ---- the language of an alternative

  lemma HeadLighter(env: Tails, alt: seq<Sym>)
    requires Ranked(env) && Closed(env, alt) && alt != []
    ensures Closed(env, alt[1..])
    ensures Weight(env, alt) == Weight(env, alt[1..]) + if alt[0].Fact? then TailWeight(env, alt[0].name) else 0
  {
    assert alt == [alt[0]] + alt[1..];
    WeightConcat(env, [alt[0]], alt[1..]);
    assert [alt[0]][..0] == [];
  }

  lemma AltLighter(env: Tails, n: string, k: nat)
    requires Ranked(env) && n in env.alts && k < |env.alts[n]|
    ensures Closed(env, env.alts[n][k]) && Weight(env, env.alts[n][k]) < TailWeight(env, n)
  {
    AltsOutweigh(env, n, |env.alts[n]|, k);
  }

  /** Whether an alternative reads as a word of plain keys: its elements, one after another. */
  ghost predicate Reads(env: Tails, alt: seq<Sym>, word: seq<string>)
    requires Ranked(env) && Closed(env, alt)
    decreases Weight(env, alt), 1, |alt|
  {
    if alt == [] then word == []
    else
      HeadLighter(env, alt);
      exists n: nat :: n <= |word| && SymReads(env, alt[0], word[..n]) && Reads(env, alt[1..], word[n..])
  }

  /** A plain element reads as its key, a tail as one of its alternatives does. */
  ghost predicate SymReads(env: Tails, s: Sym, word: seq<string>)
    requires Ranked(env) && (s.Fact? ==> s.name in env.alts)
    decreases if s.Fact? then TailWeight(env, s.name) else 0, 0, 0
  {
    match s
    case Plain(key) => word == [key]
    case Fact(n) => exists k: nat :: k < |env.alts[n]| && AltReads(env, n, k, word)
  }

  ghost predicate AltReads(env: Tails, n: string, k: nat, word: seq<string>)
    requires Ranked(env) && n in env.alts && k < |env.alts[n]|
    decreases TailWeight(env, n) - 1, 2, 0
  {
    AltLighter(env, n, k);
    Reads(env, env.alts[n][k], word)
  }

  lemma ReadsHead(env: Tails, alt: seq<Sym>, word: seq<string>) returns (n: nat)
    requires Ranked(env) && Closed(env, alt) && alt != [] && Reads(env, alt, word)
    ensures n <= |word| && Closed(env, alt[1..])
    ensures SymReads(env, alt[0], word[..n]) && Reads(env, alt[1..], word[n..])
  {
    HeadLighter(env, alt);
    n :| n <= |word| && SymReads(env, alt[0], word[..n]) && Reads(env, alt[1..], word[n..]);
  }

  lemma SlicesMeet(word: seq<string>, k: nat, n: nat)
    requires k <= |word| && n <= |word[k..]|
    ensures k + n <= |word| && word[k..][..n] == word[..k + n][k..] && word[k..][n..] == word[k + n..]
    ensures word[..k] == word[..k + n][..k]
  {
  }

  /** Two alternatives end to end read as a word of each. */
  lemma ConsReads(env: Tails, alt: seq<Sym>, word: seq<string>, k: nat)
    requires Ranked(env) && Closed(env, alt) && alt != [] && Closed(env, alt[1..]) && k <= |word|
    requires SymReads(env, alt[0], word[..k]) && Reads(env, alt[1..], word[k..])
    ensures Reads(env, alt, word)
  {
  }

  lemma {:induction false} ConcatReads(env: Tails, a: seq<Sym>, b: seq<Sym>, word: seq<string>) returns (n: nat)
    requires Ranked(env) && Closed(env, a) && Closed(env, b) && Closed(env, a + b) && Reads(env, a + b, word)
    ensures n <= |word| && Reads(env, a, word[..n]) && Reads(env, b, word[n..])
    decreases |a|
  {
    if a == [] {
      n := 0;
      assert a + b == b && word[0..] == word;
    } else {
      assert (a + b)[0] == a[0] && (a + b)[1..] == a[1..] + b;
      var k := ReadsHead(env, a + b, word);
      var m := ConcatReads(env, a[1..], b, word[k..]);
      SlicesMeet(word, k, m);
      n := k + m;
      ConsReads(env, a, word[..n], k);
    }
  }

  lemma {:induction false} ReadsConcat(env: Tails, a: seq<Sym>, b: seq<Sym>, word: seq<string>, n: nat)
    requires Ranked(env) && Closed(env, a) && Closed(env, b) && Closed(env, a + b)
    requires n <= |word| && Reads(env, a, word[..n]) && Reads(env, b, word[n..])
    ensures Reads(env, a + b, word)
    decreases |a|
  {
    if a == [] {
      assert a + b == b && word[n..] == word;
    } else {
      assert (a + b)[0] == a[0] && (a + b)[1..] == a[1..] + b;
      var k := ReadsHead(env, a, word[..n]);
      SlicesMeet(word, k, n - k);
      ReadsConcat(env, a[1..], b, word[k..], n - k);
    }
  }

  lemma OneReads(env: Tails, s: Sym, word: seq<string>)
    requires Ranked(env) && (s.Fact? ==> s.name in env.alts)
    ensures Reads(env, [s], word) <==> SymReads(env, s, word)
  {
    assert [s][1..] == [];
    if Reads(env, [s], word) {
      var n := ReadsHead(env, [s], word);
      assert word[..n] == word;
    }
    if SymReads(env, s, word) {
      assert word[..|word|] == word && word[|word|..] == [];
    }
  }

  /** An alternative that ends in a tail reads as the prefix and one of the tail's
      alternatives do. */
  lemma TailReads(env: Tails, alt: seq<Sym>, word: seq<string>) returns (k: nat)
    requires Ranked(env) && Closed(env, alt) && EndsInTail(alt) && Reads(env, alt, word)
    ensures var tails := env.alts[alt[|alt| - 1].name];
            k < |tails| && Closed(env, alt[..|alt| - 1] + tails[k]) && Reads(env, alt[..|alt| - 1] + tails[k], word)
  {
    var init, last := alt[..|alt| - 1], alt[|alt| - 1];
    assert alt == init + [last];
    var n := ConcatReads(env, init, [last], word);
    OneReads(env, last, word[n..]);
    k :| k < |env.alts[last.name]| && AltReads(env, last.name, k, word[n..]);
    ExpandsLower(env, alt, k);
    AltLighter(env, last.name, k);
    ReadsConcat(env, init, env.alts[last.name][k], word, n);
  }

  lemma ReadsTail(env: Tails, alt: seq<Sym>, k: nat, word: seq<string>)
    requires Ranked(env) && Closed(env, alt) && EndsInTail(alt) && k < |env.alts[alt[|alt| - 1].name]|
    requires var one := alt[..|alt| - 1] + env.alts[alt[|alt| - 1].name][k]; Closed(env, one) && Reads(env, one, word)
    ensures Reads(env, alt, word)
  {
    var init, last := alt[..|alt| - 1], alt[|alt| - 1];
    assert alt == init + [last];
    AltLighter(env, last.name, k);
    var n := ConcatReads(env, init, env.alts[last.name][k], word);
    assert AltReads(env, last.name, k, word[n..]);
    OneReads(env, last, word[n..]);
    ReadsConcat(env, init, [last], word, n);
  }

  // ---- expansion keeps the language

  /** A word of the alternative is a word of one of its expansions. */
  lemma {:induction false} ExpandFinds(env: Tails, alt: seq<Sym>, word: seq<string>) returns (e: seq<Sym>)
    requires Ranked(env) && Closed(env, alt) && Reads(env, alt, word)
    ensures e in Expand(env, alt) && Closed(env, e) && Reads(env, e, word)
    decreases Weight(env, alt)
  {
    if EndsInTail(alt) {
      var k := TailReads(env, alt, word);
      var one := alt[..|alt| - 1] + env.alts[alt[|alt| - 1].name][k];
      ExpandsLower(env, alt, k);
      e := ExpandFinds(env, one, word);
      InExpansion(env, alt, 0, k, e);
    } else {
      e := alt;
    }
  }

  /** Each tail alternative's expansions are among the alternative's. */
  lemma {:induction false} InExpansion(env: Tails, alt: seq<Sym>, from: nat, k: nat, e: seq<Sym>)
    requires Ranked(env) && Closed(env, alt) && EndsInTail(alt)
    requires from <= k < |env.alts[alt[|alt| - 1].name]|
    requires var one := alt[..|alt| - 1] + env.alts[alt[|alt| - 1].name][k]; Closed(env, one) && e in Expand(env, one)
    ensures e in ExpandFrom(env, alt, from)
    decreases k - from
  {
    ExpandsLower(env, alt, from);
    if from < k {
      InExpansion(env, alt, from + 1, k, e);
    }
  }

  /** A word of an expansion is a word of the alternative. */
  lemma {:induction false} ExpandAddsNothing(env: Tails, alt: seq<Sym>, e: seq<Sym>, word: seq<string>)
    requires Ranked(env) && Closed(env, alt) && e in Expand(env, alt)
    ensures Closed(env, e)
    ensures Reads(env, e, word) ==> Reads(env, alt, word)
    decreases Weight(env, alt), 1, 0
  {
    if EndsInTail(alt) {
      FromAddsNothing(env, alt, 0, e, word);
    }
  }

  lemma {:induction false} FromAddsNothing(env: Tails, alt: seq<Sym>, k: nat, e: seq<Sym>, word: seq<string>)
    requires Ranked(env) && Closed(env, alt) && EndsInTail(alt)
    requires k <= |env.alts[alt[|alt| - 1].name]| && e in ExpandFrom(env, alt, k)
    ensures Closed(env, e)
    ensures Reads(env, e, word) ==> Reads(env, alt, word)
    decreases Weight(env, alt), 0, |env.alts[alt[|alt| - 1].name]| - k
  {
    var tails := env.alts[alt[|alt| - 1].name];
    ExpandsLower(env, alt, k);
    var one := alt[..|alt| - 1] + tails[k];
    if e in Expand(env, one) {
      ExpandAddsNothing(env, one, e, word);
      if Reads(env, e, word) {
        ReadsTail(env, alt, k, word);
      }
    } else {
      FromAddsNothing(env, alt, k + 1, e, word);
    }
  }

  /** The expansions read as exactly the words the alternative does, and none ends in a tail. */
  lemma ExpandKeepsLanguage(env: Tails, alt: seq<Sym>, word: seq<string>)
    requires Ranked(env) && Closed(env, alt)
    ensures forall e :: e in Expand(env, alt) ==> Closed(env, e) && !EndsInTail(e)
    ensures Reads(env, alt, word) <==> exists e :: e in Expand(env, alt) && Closed(env, e) && Reads(env, e, word)
  {
    forall e | e in Expand(env, alt)
      ensures Closed(env, e) && !EndsInTail(e) && (Reads(env, e, word) ==> Reads(env, alt, word))
    {
      NoneEndsInTail(env, alt, e);
      ExpandAddsNothing(env, alt, e, word);
    }
    if Reads(env, alt, word) {
      var e := ExpandFinds(env, alt, word);
    }
  }
}
