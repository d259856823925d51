/** References written back: where a run of a rule's alternatives is another rule's, each
    followed by one same tail, the reference and the tail are written in their place. */
module WriteBack {
  import opened Strings
  import opened Lists

  // ---- alternatives and the keys they are compared by

  /** An element: a reference to a rule the written file names, or anything else, by its key. */
  datatype El = Ref(name: string) | Other(key: string)

  function Key(e: El): string {
    match e
    case Ref(name) => "@" + name
    case Other(key) => key
  }

  /** `abnf-seq-keys`. */
  function Keys(alt: seq<El>): (ks: seq<string>)
    ensures |ks| == |alt|
    ensures forall i :: 0 <= i < |alt| ==> ks[i] == Key(alt[i])
  {
    seq(|alt|, i requires 0 <= i < |alt| => Key(alt[i]))
  }

  function AllKeys(alts: seq<seq<El>>): (ka: seq<seq<string>>)
    ensures |ka| == |alts|
    ensures forall i :: 0 <= i < |alts| ==> ka[i] == Keys(alts[i])
  {
    seq(|alts|, i requires 0 <= i < |alts| => Keys(alts[i]))
  }

  /** A rule the written file can name, with the keys of its alternatives. */
  datatype Candidate = Candidate(name: string, keys: seq<seq<string>>)

  const BETWEEN: char := 1 as char
  const NO_TAIL: string := [0 as char]

  /** What a key is: some text, without the marks the keys are joined and compared by. */
  predicate CleanKey(key: string) { key != "" && BETWEEN !in key && key != NO_TAIL }

  predicate CleanKeys(ks: seq<string>) { forall k :: k in ks ==> CleanKey(k) }

  predicate CleanAlts(ka: seq<seq<string>>) { forall ks :: ks in ka ==> CleanKeys(ks) }

  /** Every rule has an alternative. */
  predicate CleanCandidates(cands: seq<Candidate>) {
    forall c :: c in cands ==> c.keys != [] && CleanAlts(c.keys)
  }

  // ---- where a candidate stands

  /** `abnf-prefix-tail`. */
  function PrefixTail(ks: seq<string>, cs: seq<string>): string {
    if |ks| < |cs| then NO_TAIL
    else if Join([BETWEEN], ks[..|cs|]) == Join([BETWEEN], cs) then Join([BETWEEN], ks[|cs|..])
    else NO_TAIL
  }

  /** `abnf-cand-matches`. */
  predicate CandMatches(c: Candidate, ka: seq<seq<string>>, i: nat)
    requires c.keys != [] && i < |ka|
  {
    if |ka| < i + |c.keys| then false
    else
      var first := PrefixTail(ka[i], c.keys[0]);
      first != NO_TAIL && forall j :: 0 <= j < |c.keys| ==> PrefixTail(ka[i + j], c.keys[j]) == first
  }

  /** The candidate's alternatives, each followed by the tail, are those from `i` on. */
  predicate RunAt(c: Candidate, ka: seq<seq<string>>, i: nat, tail: seq<string>) {
    && i + |c.keys| <= |ka|
    && forall j :: 0 <= j < |c.keys| ==> ka[i + j] == c.keys[j] + tail
  }

  /** Joining keeps lists of keys apart. */
  lemma JoinInjective(a: seq<string>, b: seq<string>)
    requires CleanKeys(a) && CleanKeys(b)
    ensures Join([BETWEEN], a) == Join([BETWEEN], b) <==> a == b
    ensures Join([BETWEEN], a) != NO_TAIL
  {
    if a != [] {
      assert a[0] in a;
      SplitJoin(BETWEEN, a);
      JoinIsNoMark(a);
    }
    if b != [] {
      assert b[0] in b;
      SplitJoin(BETWEEN, b);
    }
  }

  lemma JoinIsNoMark(a: seq<string>)
    requires CleanKeys(a) && a != []
    ensures Join([BETWEEN], a) != NO_TAIL && Join([BETWEEN], a) != ""
  {
    assert a[0] in a;
    if |a| > 1 {
      assert |Join([BETWEEN], a)| >= |a[0]| + 1;
    }
  }

  lemma PrefixTailIs(ks: seq<string>, cs: seq<string>, tail: seq<string>)
    requires CleanKeys(ks) && CleanKeys(cs) && CleanKeys(tail)
    ensures PrefixTail(ks, cs) != NO_TAIL <==> cs <= ks
    ensures PrefixTail(ks, cs) == Join([BETWEEN], tail) <==> ks == cs + tail
  {
    JoinInjective(tail, tail);
    if |cs| <= |ks| {
      var head, rest := ks[..|cs|], ks[|cs|..];
      assert ks == head + rest;
      JoinInjective(head, cs);
      JoinInjective(rest, tail);
    }
  }

  /** A candidate is found to match exactly where its alternatives stand, each followed by
      one same tail, which is what follows the first of them. */
  lemma MatchIsRun(c: Candidate, ka: seq<seq<string>>, i: nat)
    requires c.keys != [] && CleanAlts(c.keys) && CleanAlts(ka) && i < |ka|
    ensures CandMatches(c, ka, i) <==> |c.keys[0]| <= |ka[i]| && RunAt(c, ka, i, ka[i][|c.keys[0]|..])
    ensures CandMatches(c, ka, i) <==> exists tail :: RunAt(c, ka, i, tail)
  {
    assert c.keys[0] in c.keys && ka[i] in ka;
    if tail :| RunAt(c, ka, i, tail) {
      assert ka[i + 0] == c.keys[0] + tail;
      assert ka[i][|c.keys[0]|..] == tail;
    }
    if |c.keys[0]| <= |ka[i]| && i + |c.keys| <= |ka| {
      var tail := ka[i][|c.keys[0]|..];
      PrefixTailIs(ka[i], c.keys[0], tail);
      assert ka[i] == ka[i][..|c.keys[0]|] + tail;
      forall j | 0 <= j < |c.keys|
        ensures PrefixTail(ka[i + j], c.keys[j]) == Join([BETWEEN], tail) <==> ka[i + j] == c.keys[j] + tail
      {
        assert ka[i + j] in ka && c.keys[j] in c.keys;
        PrefixTailIs(ka[i + j], c.keys[j], tail);
      }
      assert RunAt(c, ka, i, tail) ==> ka[i + 0] == c.keys[0] + tail;
    }
  }

  /** `abnf-cand-at`'s hits: the candidates, but for the rule itself, that stand at `i`. */
  predicate Hit(c: Candidate, ka: seq<seq<string>>, i: nat, self: string)
    requires i < |ka|
  {
    c.keys != [] && c.name != self && CandMatches(c, ka, i)
  }

  function Hits(cands: seq<Candidate>, ka: seq<seq<string>>, i: nat, self: string): seq<Candidate>
    requires i < |ka|
  {
    Filter(cands, c => Hit(c, ka, i, self))
  }

  predicate Longest(c: Candidate, hits: seq<Candidate>) {
    forall d :: d in hits ==> |d.keys| <= |c.keys|
  }

  /** `abnf-cand-at`. */
  function CandAt(cands: seq<Candidate>, ka: seq<seq<string>>, i: nat, self: string): Option<Candidate>
    requires i < |ka|
  {
    var hits := Hits(cands, ka, i, self);
    var most := Filter(hits, c => Longest(c, hits));
    if most == [] then None else Some(most[0])
  }

  /** Some hit has the most alternatives. */
  lemma {:induction false} LongestExists(hits: seq<Candidate>) returns (c: Candidate)
    requires hits != []
    ensures c in hits && Longest(c, hits)
  {
    if |hits| == 1 {
      c := hits[0];
    } else {
      var rest := LongestExists(hits[1..]);
      assert hits == [hits[0]] + hits[1..];
      c := if |hits[0].keys| > |rest.keys| then hits[0] else rest;
    }
  }

  /** One is found exactly where some candidate other than the rule stands, and no other that
      stands there has more alternatives. */
  lemma CandAtIsLongest(cands: seq<Candidate>, ka: seq<seq<string>>, i: nat, self: string)
    requires i < |ka|
    ensures CandAt(cands, ka, i, self).None? <==> forall c :: c in cands ==> !Hit(c, ka, i, self)
    ensures var r := CandAt(cands, ka, i, self);
            r.Some? ==> && r.value in cands && Hit(r.value, ka, i, self)
                        && forall d :: d in cands && Hit(d, ka, i, self) ==> |d.keys| <= |r.value.keys|
  {
    var hits := Hits(cands, ka, i, self);
    if hits != [] {
      var c := LongestExists(hits);
      assert c in Filter(hits, c => Longest(c, hits));
    }
    if CandAt(cands, ka, i, self).Some? {
      assert CandAt(cands, ka, i, self).value in Filter(hits, c => Longest(c, hits));
    }
  }

  // ---- the runs written back

  function Best(cands: seq<Candidate>, ka: seq<seq<string>>, self: string): (best: seq<Option<Candidate>>)
    ensures |best| == |ka|
    ensures forall i :: 0 <= i < |ka| ==> best[i] == CandAt(cands, ka, i, self)
  {
    seq(|ka|, i requires 0 <= i < |ka| => CandAt(cands, ka, i, self))
  }

  predicate Covers(best: seq<Option<Candidate>>, j: nat, i: nat)
    requires j < |best|
  {
    best[j].Some? && j < i < j + |best[j].value.keys|
  }

  predicate Accepted(best: seq<Option<Candidate>>, i: nat)
    requires i < |best|
  {
    best[i].Some? && forall j :: 0 <= j < |best| ==> !Covers(best, j, i)
  }

  /** Whether an accepted run other than its own stands over `i`. */
  predicate Taken(best: seq<Option<Candidate>>, i: nat) {
    exists j :: 0 <= j < |best| && Accepted(best, j) && Covers(best, j, i)
  }

  /** What is written for alternatives: one of them, or a reference and its tail. */
  datatype Piece = Kept(alt: seq<El>) | Back(cand: Candidate, tail: seq<El>)

  function Text(p: Piece): seq<El> {
    match p
    case Kept(alt) => alt
    case Back(cand, tail) => [Ref(cand.name)] + tail
  }

  function Texts(ps: seq<Piece>): (alts: seq<seq<El>>)
    ensures |alts| == |ps|
    ensures forall i :: 0 <= i < |ps| ==> alts[i] == Text(ps[i])
  {
    seq(|ps|, i requires 0 <= i < |ps| => Text(ps[i]))
  }

  /** `abnf-unsub-at`. */
  function PieceAt(alts: seq<seq<El>>, best: seq<Option<Candidate>>, i: nat): seq<Piece>
    requires |best| == |alts| && i < |alts|
  {
    if Accepted(best, i) then
      var c := best[i].value;
      var lead := if c.keys == [] then 0 else |c.keys[0]|;
      [Back(c, if lead <= |alts[i]| then alts[i][lead..] else [])]
    else if Taken(best, i) then []
    else [Kept(alts[i])]
  }

  function PiecesFrom(alts: seq<seq<El>>, best: seq<Option<Candidate>>, i: nat): seq<Piece>
    requires |best| == |alts| && i <= |alts|
    decreases |alts| - i
  {
    if i == |alts| then [] else PieceAt(alts, best, i) + PiecesFrom(alts, best, i + 1)
  }

  function Pieces(cands: seq<Candidate>, self: string, alts: seq<seq<El>>): seq<Piece> {
    PiecesFrom(alts, Best(cands, AllKeys(alts), self), 0)
  }

  /** `abnf-alias`: one alternative of one reference. */
  predicate Alias(alts: seq<seq<El>>) {
    |alts| == 1 && |alts[0]| == 1 && alts[0][0].Ref?
  }

  /** `abnf-unsub`. */
  function Unsub(cands: seq<Candidate>, self: string, alts: seq<seq<El>>): seq<seq<El>> {
    if cands == [] then alts
    else
      var out := Texts(Pieces(cands, self, alts));
      if Alias(out) then alts else out
  }

  // ---- replacing the references by what they stand for

  /** The keys of a rule's alternatives, each followed by a tail. */
  function Follow(keys: seq<seq<string>>, tail: seq<string>): (r: seq<seq<string>>)
    ensures |r| == |keys|
    ensures forall j :: 0 <= j < |keys| ==> r[j] == keys[j] + tail
  {
    seq(|keys|, j requires 0 <= j < |keys| => keys[j] + tail)
  }

  function Restore(p: Piece): seq<seq<string>> {
    match p
    case Kept(alt) => [Keys(alt)]
    case Back(cand, tail) => Follow(cand.keys, Keys(tail))
  }

  function RestoreAll(ps: seq<Piece>): seq<seq<string>> {
    if ps == [] then [] else Restore(ps[0]) + RestoreAll(ps[1..])
  }

  /** The runs accepted never overlap, and each stays within the alternatives. */
  lemma RunsApart(best: seq<Option<Candidate>>, i: nat, j: nat)
    requires i < j < |best| && Accepted(best, i) && Accepted(best, j)
    ensures i + |best[i].value.keys| <= j
  {
    assert !Covers(best, i, j);
  }

  /** A run that starts where none is open leaves none open where it ends. */
  lemma FreeAfter(best: seq<Option<Candidate>>, i: nat)
    requires i < |best| && !Taken(best, i) && (Accepted(best, i) ==> |best[i].value.keys| > 0)
    ensures !Taken(best, if Accepted(best, i) then i + |best[i].value.keys| else i + 1)
  {
    var next := if Accepted(best, i) then i + |best[i].value.keys| else i + 1;
    forall j | 0 <= j < |best| && Accepted(best, j) ensures !Covers(best, j, next) {
      assert !Covers(best, j, i);
      if i < j {
        assert Accepted(best, i) ==> !Covers(best, i, j);
      }
    }
  }

  /** Within an accepted run nothing more is written. */
  lemma {:induction false} RunWritesOnce(alts: seq<seq<El>>, best: seq<Option<Candidate>>, i: nat, m: nat)
    requires |best| == |alts| && i < |alts| && Accepted(best, i)
    requires i < m <= i + |best[i].value.keys| <= |alts|
    ensures PiecesFrom(alts, best, m) == PiecesFrom(alts, best, i + |best[i].value.keys|)
    decreases |alts| - m
  {
    if m < i + |best[i].value.keys| {
      assert Covers(best, i, m);
      assert PieceAt(alts, best, m) == [];
      RunWritesOnce(alts, best, i, m + 1);
    }
  }

  /** What is written where a run starts, replaced, is the alternatives of the run. */
  predicate Restored(alts: seq<seq<El>>, best: seq<Option<Candidate>>, i: nat)
    requires |best| == |alts| && i < |alts| && Accepted(best, i)
  {
    var n := |best[i].value.keys|;
    && 0 < n && i + n <= |alts|
    && |PieceAt(alts, best, i)| == 1
    && Restore(PieceAt(alts, best, i)[0]) == AllKeys(alts)[i..i + n]
  }

  lemma RunRestores(alts: seq<seq<El>>, best: seq<Option<Candidate>>, i: nat, c: Candidate, tail: seq<El>)
    requires |best| == |alts| && i < |alts| && Accepted(best, i) && best[i] == Some(c) && c.keys != []
    requires |c.keys[0]| <= |alts[i]| && tail == alts[i][|c.keys[0]|..]
    requires RunAt(c, AllKeys(alts), i, Keys(tail))
    ensures Restored(alts, best, i)
  {
    assert Follow(c.keys, Keys(tail)) == AllKeys(alts)[i..i + |c.keys|];
  }

  lemma RunIsRestored(cands: seq<Candidate>, self: string, alts: seq<seq<El>>, i: nat)
    requires CleanCandidates(cands) && CleanAlts(AllKeys(alts)) && i < |alts|
    requires Accepted(Best(cands, AllKeys(alts), self), i)
    ensures Restored(alts, Best(cands, AllKeys(alts), self), i)
  {
    var ka := AllKeys(alts);
    var best := Best(cands, ka, self);
    var c := best[i].value;
    CandAtIsLongest(cands, ka, i, self);
    MatchIsRun(c, ka, i);
    var tail := alts[i][|c.keys[0]|..];
    assert Keys(tail) == ka[i][|c.keys[0]|..];
    RunRestores(alts, best, i, c, tail);
  }

  lemma RestoresRun(here: seq<Piece>, rest: seq<Piece>, ka: seq<seq<string>>, i: nat, next: nat)
    requires |here| == 1 && i <= next <= |ka|
    requires Restore(here[0]) == ka[i..next] && RestoreAll(rest) == ka[next..]
    ensures RestoreAll(here + rest) == ka[i..]
  {
    SliceRest(ka, i, next);
    RestoreOne(here, rest);
  }

  lemma FromHere(alts: seq<seq<El>>, best: seq<Option<Candidate>>, i: nat)
    requires |best| == |alts| && i < |alts|
    ensures PiecesFrom(alts, best, i) == PieceAt(alts, best, i) + PiecesFrom(alts, best, i + 1)
  {
  }

  lemma SliceRest<T>(s: seq<T>, i: nat, j: nat)
    requires i <= j <= |s|
    ensures s[i..] == s[i..j] + s[j..]
  {
  }

  lemma RestoreOne(one: seq<Piece>, rest: seq<Piece>)
    requires |one| == 1
    ensures RestoreAll(one + rest) == Restore(one[0]) + RestoreAll(rest)
  {
    assert (one + rest)[1..] == rest;
  }

  lemma RestoresAccepted(alts: seq<seq<El>>, best: seq<Option<Candidate>>, ka: seq<seq<string>>, i: nat, next: nat)
    requires |best| == |alts| == |ka| && i < |alts| && Accepted(best, i)
    requires next == i + |best[i].value.keys| && i < next <= |alts|
    requires |PieceAt(alts, best, i)| == 1 && Restore(PieceAt(alts, best, i)[0]) == ka[i..next]
    requires RestoreAll(PiecesFrom(alts, best, next)) == ka[next..]
    ensures RestoreAll(PiecesFrom(alts, best, i)) == ka[i..]
  {
    var here, rest := PieceAt(alts, best, i), PiecesFrom(alts, best, next);
    assert PiecesFrom(alts, best, i) == here + rest by {
      RunWritesOnce(alts, best, i, i + 1);
      FromHere(alts, best, i);
    }
    RestoresRun(here, rest, ka, i, next);
  }

  lemma RestoresKept(alts: seq<seq<El>>, best: seq<Option<Candidate>>, i: nat)
    requires |best| == |alts| && i < |alts| && !Accepted(best, i) && !Taken(best, i)
    requires RestoreAll(PiecesFrom(alts, best, i + 1)) == AllKeys(alts)[i + 1..]
    ensures RestoreAll(PiecesFrom(alts, best, i)) == AllKeys(alts)[i..]
  {
    var ka := AllKeys(alts);
    assert ka[i..] == [ka[i]] + ka[i + 1..];
    assert PieceAt(alts, best, i) == [Kept(alts[i])];
  }

  /** What is written from a place on, with its references replaced, is the keys from that
      place on. */
  lemma {:induction false} RestoresFrom(alts: seq<seq<El>>, best: seq<Option<Candidate>>, i: nat)
    requires |best| == |alts| && i <= |alts| && !Taken(best, i)
    requires forall m: nat | m < |alts| && Accepted(best, m) :: Restored(alts, best, m)
    ensures RestoreAll(PiecesFrom(alts, best, i)) == AllKeys(alts)[i..]
    decreases |alts| - i
  {
    if i < |alts| {
      if Accepted(best, i) {
        assert Restored(alts, best, i);
        var next := i + |best[i].value.keys|;
        FreeAfter(best, i);
        RestoresFrom(alts, best, next);
        RestoresAccepted(alts, best, AllKeys(alts), i, next);
      } else {
        FreeAfter(best, i);
        RestoresFrom(alts, best, i + 1);
        RestoresKept(alts, best, i);
      }
    }
  }

  /** Write-back keeps a rule: every reference put in, replaced by its candidate's
      alternatives, each followed by the kept tail, gives the alternatives' keys in order. */
  lemma WriteBackRestores(cands: seq<Candidate>, self: string, alts: seq<seq<El>>)
    requires CleanCandidates(cands) && CleanAlts(AllKeys(alts))
    ensures RestoreAll(Pieces(cands, self, alts)) == AllKeys(alts)
  {
    var best := Best(cands, AllKeys(alts), self);
    forall m: nat | m < |alts| && Accepted(best, m) ensures Restored(alts, best, m) {
      RunIsRestored(cands, self, alts, m);
    }
    assert !Taken(best, 0);
    RestoresFrom(alts, best, 0);
    assert AllKeys(alts)[0..] == AllKeys(alts);
  }

  /** Only other rules are written in. */
  lemma {:induction false} BackIsACandidate(cands: seq<Candidate>, self: string, alts: seq<seq<El>>, i: nat, p: Piece)
    requires i <= |alts| && p in PiecesFrom(alts, Best(cands, AllKeys(alts), self), i) && p.Back?
    ensures p.cand in cands && p.cand.name != self
    decreases |alts| - i
  {
    var best := Best(cands, AllKeys(alts), self);
    if p in PieceAt(alts, best, i) {
      CandAtIsLongest(cands, AllKeys(alts), i, self);
      assert p.cand == best[i].value;
    } else {
      BackIsACandidate(cands, self, alts, i + 1, p);
    }
  }

  // ---- and so what the rule matches

  /** What each key matches. */
  type Meaning = (string, string) -> bool

  /** Whether elements match a text, one after another. */
  ghost predicate SeqMatches(m: Meaning, ks: seq<string>, text: string) {
    if ks == [] then text == ""
    else exists n: nat :: n <= |text| && m(ks[0], text[..n]) && SeqMatches(m, ks[1..], text[n..])
  }

  ghost predicate AnyMatches(m: Meaning, ka: seq<seq<string>>, text: string) {
    exists i :: 0 <= i < |ka| && SeqMatches(m, ka[i], text)
  }

  /** A reference to a candidate matches what the rule does. */
  ghost predicate Respects(m: Meaning, cands: seq<Candidate>) {
    forall c, text :: c in cands ==> (m(Key(Ref(c.name)), text) <==> AnyMatches(m, c.keys, text))
  }

  lemma {:induction false} SeqMatchesConcat(m: Meaning, a: seq<string>, b: seq<string>, text: string)
    ensures SeqMatches(m, a + b, text) <==>
            exists n: nat :: n <= |text| && SeqMatches(m, a, text[..n]) && SeqMatches(m, b, text[n..])
    decreases |a|
  {
    if a == [] {
      assert a + b == b && text[0..] == text;
      assert SeqMatches(m, a, text[..0]);
    } else {
      assert (a + b)[0] == a[0] && (a + b)[1..] == a[1..] + b;
      if SeqMatches(m, a + b, text) {
        ConcatSplits(m, a, b, text);
      }
      if n: nat :| n <= |text| && SeqMatches(m, a, text[..n]) && SeqMatches(m, b, text[n..]) {
        var head := text[..n];
        var k: nat :| k <= |head| && m(a[0], head[..k]) && SeqMatches(m, a[1..], head[k..]);
        assert head[..k] == text[..k];
        var rest := text[k..];
        assert rest[..n - k] == head[k..] && rest[n - k..] == text[n..];
        SeqMatchesConcat(m, a[1..], b, rest);
      }
    }
  }

  /** A first element's text, then the others', is the text of them all. */
  lemma SeqMatchesCons(m: Meaning, a: seq<string>, text: string, k: nat)
    requires a != [] && k <= |text| && m(a[0], text[..k]) && SeqMatches(m, a[1..], text[k..])
    ensures SeqMatches(m, a, text)
  {
  }

  lemma ConcatSplits(m: Meaning, a: seq<string>, b: seq<string>, text: string)
    requires a != [] && SeqMatches(m, a + b, text)
    ensures exists n: nat :: n <= |text| && SeqMatches(m, a, text[..n]) && SeqMatches(m, b, text[n..])
    decreases |a|, 0
  {
    assert (a + b)[0] == a[0] && (a + b)[1..] == a[1..] + b;
    var k: nat :| k <= |text| && m((a + b)[0], text[..k]) && SeqMatches(m, (a + b)[1..], text[k..]);
    SeqMatchesConcat(m, a[1..], b, text[k..]);
    var n: nat :| n <= |text[k..]| && SeqMatches(m, a[1..], text[k..][..n]) && SeqMatches(m, b, text[k..][n..]);
    SlicesMeet(text, k, n);
    SeqMatchesCons(m, a, text[..k + n], k);
  }

  lemma SlicesMeet(text: string, k: nat, n: nat)
    requires k <= |text| && n <= |text[k..]|
    ensures k + n <= |text| && text[k..][..n] == text[..k + n][k..] && text[k..][n..] == text[k + n..]
    ensures text[..k] == text[..k + n][..k]
  {
  }

  lemma OneKey(m: Meaning, k: string, text: string)
    ensures SeqMatches(m, [k], text) <==> m(k, text)
  {
    assert [k][1..] == [];
    if SeqMatches(m, [k], text) {
      var n: nat :| n <= |text| && m(k, text[..n]) && SeqMatches(m, [k][1..], text[n..]);
      assert text[..n] == text;
    }
    if m(k, text) {
      assert text[..|text|] == text && text[|text|..] == "";
      assert SeqMatches(m, [k][1..], text[|text|..]);
    }
  }

  /** A reference and a tail match what the candidate's alternatives and the tail do. */
  lemma BackMatches(m: Meaning, c: Candidate, tail: seq<string>, text: string)
    requires forall t :: m(Key(Ref(c.name)), t) <==> AnyMatches(m, c.keys, t)
    ensures SeqMatches(m, [Key(Ref(c.name))] + tail, text) <==> AnyMatches(m, Follow(c.keys, tail), text)
  {
    var key := Key(Ref(c.name));
    SeqMatchesConcat(m, [key], tail, text);
    if n: nat :| n <= |text| && SeqMatches(m, [key], text[..n]) && SeqMatches(m, tail, text[n..]) {
      OneKey(m, key, text[..n]);
      var i :| 0 <= i < |c.keys| && SeqMatches(m, c.keys[i], text[..n]);
      SeqMatchesConcat(m, c.keys[i], tail, text);
      assert Follow(c.keys, tail)[i] == c.keys[i] + tail;
    }
    if i :| 0 <= i < |c.keys| && SeqMatches(m, Follow(c.keys, tail)[i], text) {
      SeqMatchesConcat(m, c.keys[i], tail, text);
      var n: nat :| n <= |text| && SeqMatches(m, c.keys[i], text[..n]) && SeqMatches(m, tail, text[n..]);
      OneKey(m, key, text[..n]);
    }
  }

  lemma AnyConcat(m: Meaning, a: seq<seq<string>>, b: seq<seq<string>>, text: string)
    ensures AnyMatches(m, a + b, text) <==> AnyMatches(m, a, text) || AnyMatches(m, b, text)
  {
    if i :| 0 <= i < |a| && SeqMatches(m, a[i], text) {
      assert (a + b)[i] == a[i];
    }
    if i :| 0 <= i < |b| && SeqMatches(m, b[i], text) {
      assert (a + b)[|a| + i] == b[i];
    }
  }

  /** A reference written back matches what its candidate's alternatives do. */
  ghost predicate Faithful(m: Meaning, p: Piece) {
    p.Back? ==> forall t :: m(Key(Ref(p.cand.name)), t) <==> AnyMatches(m, p.cand.keys, t)
  }

  lemma PieceMatches(m: Meaning, p: Piece, text: string)
    requires Faithful(m, p)
    ensures SeqMatches(m, Keys(Text(p)), text) <==> AnyMatches(m, Restore(p), text)
  {
    match p
    case Kept(alt) =>
      assert Restore(p)[0] == Keys(alt);
    case Back(c, tail) =>
      BackMatches(m, c, Keys(tail), text);
      assert Keys(Text(p)) == [Key(Ref(c.name))] + Keys(tail);
  }

  lemma {:induction false} PiecesMatch(m: Meaning, ps: seq<Piece>, text: string)
    requires forall p :: p in ps ==> Faithful(m, p)
    ensures AnyMatches(m, AllKeys(Texts(ps)), text) <==> AnyMatches(m, RestoreAll(ps), text)
  {
    if ps != [] {
      assert ps[0] in ps;
      PieceMatches(m, ps[0], text);
      PiecesMatch(m, ps[1..], text);
      assert AllKeys(Texts(ps)) == [Keys(Text(ps[0]))] + AllKeys(Texts(ps[1..]));
      AnyCons(m, Keys(Text(ps[0])), AllKeys(Texts(ps[1..])), text);
      AnyConcat(m, Restore(ps[0]), RestoreAll(ps[1..]), text);
    }
  }

  lemma AnyCons(m: Meaning, ks: seq<string>, rest: seq<seq<string>>, text: string)
    ensures AnyMatches(m, [ks] + rest, text) <==> SeqMatches(m, ks, text) || AnyMatches(m, rest, text)
  {
    AnyConcat(m, [ks], rest, text);
    assert [ks][0] == ks;
  }

  /** Under every meaning that gives a reference its rule's, the rule written matches what the
      rule matched. */
  lemma WriteBackKeepsMeaning(cands: seq<Candidate>, self: string, alts: seq<seq<El>>, m: Meaning, text: string)
    requires CleanCandidates(cands) && CleanAlts(AllKeys(alts)) && Respects(m, cands)
    ensures AnyMatches(m, AllKeys(Unsub(cands, self, alts)), text) <==> AnyMatches(m, AllKeys(alts), text)
  {
    var ps := Pieces(cands, self, alts);
    forall p | p in ps ensures Faithful(m, p) {
      if p.Back? {
        BackIsACandidate(cands, self, alts, 0, p);
      }
    }
    PiecesMatch(m, ps, text);
    WriteBackRestores(cands, self, alts);
  }
}
