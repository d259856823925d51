/** Exactly which references are written back, and where. */
module Unsubs {
  import opened Strings
  import opened Lists
  import opened WriteBack

  /** A candidate other than the rule whose alternatives stand from `i` on, each followed by one
      same tail. */
  ghost predicate StandsAt(cands: seq<Candidate>, ka: seq<seq<string>>, self: string, i: nat, c: Candidate) {
    c in cands && c.name != self && c.keys != [] && i < |ka| && exists tail :: RunAt(c, ka, i, tail)
  }

  /** The first of the candidates that stand at `i` with the most alternatives. */
  ghost predicate ChosenAt(cands: seq<Candidate>, ka: seq<seq<string>>, self: string, i: nat, c: Candidate) {
    && StandsAt(cands, ka, self, i, c)
    && (forall d :: StandsAt(cands, ka, self, i, d) ==> |d.keys| <= |c.keys|)
    && exists k :: 0 <= k < |cands| && cands[k] == c
                   && forall m :: 0 <= m < k && StandsAt(cands, ka, self, i, cands[m]) ==> |cands[m].keys| < |c.keys|
  }

  /** A candidate is written in at `i`: it is chosen there, and none chosen before reaches it. */
  ghost predicate WrittenAt(cands: seq<Candidate>, ka: seq<seq<string>>, self: string, i: nat, c: Candidate) {
    && ChosenAt(cands, ka, self, i, c)
    && forall j, d :: 0 <= j < i && ChosenAt(cands, ka, self, j, d) ==> j + |d.keys| <= i
  }

  // ---- what the search finds

  lemma HitStands(cands: seq<Candidate>, ka: seq<seq<string>>, self: string, i: nat, c: Candidate)
    requires CleanCandidates(cands) && CleanAlts(ka) && i < |ka| && c in cands
    ensures Hit(c, ka, i, self) <==> StandsAt(cands, ka, self, i, c)
  {
    if c.keys != [] {
      MatchIsRun(c, ka, i);
    }
  }

  lemma FoundIsChosen(cands: seq<Candidate>, ka: seq<seq<string>>, self: string, i: nat)
    requires CleanCandidates(cands) && CleanAlts(ka) && i < |ka|
    ensures match CandAt(cands, ka, i, self)
            case None => forall c :: !StandsAt(cands, ka, self, i, c)
            case Some(c) => ChosenAt(cands, ka, self, i, c)
  {
    forall c | c in cands ensures Hit(c, ka, i, self) <==> StandsAt(cands, ka, self, i, c) {
      HitStands(cands, ka, self, i, c);
    }
    CandAtIsLongest(cands, ka, i, self);
    if CandAt(cands, ka, i, self).Some? {
      FoundIsFirst(cands, ka, self, i);
    }
  }

  lemma FoundIsFirst(cands: seq<Candidate>, ka: seq<seq<string>>, self: string, i: nat)
    requires i < |ka| && CandAt(cands, ka, i, self).Some?
    ensures var c := CandAt(cands, ka, i, self).value;
            exists k :: 0 <= k < |cands| && cands[k] == c
                        && forall m :: 0 <= m < k && Hit(cands[m], ka, i, self) ==> |cands[m].keys| < |c.keys|
  {
    var hits := Hits(cands, ka, i, self);
    var c := CandAt(cands, ka, i, self).value;
    var k := FilterFirst(hits, c => Longest(c, hits));
    var n := FilterAt(cands, c => Hit(c, ka, i, self), k);
    forall m | 0 <= m < n && Hit(cands[m], ka, i, self) ensures |cands[m].keys| < |c.keys| {
      var l :| 0 <= l < k && hits[..k][l] == cands[m];
      assert hits[l] == cands[m] && !Longest(hits[l], hits) && Longest(c, hits);
    }
  }

  /** One that is first before another is no longer. */
  lemma ChosenFirst(cands: seq<Candidate>, ka: seq<seq<string>>, self: string, i: nat, k: nat, l: nat)
    requires k < |cands| && l < |cands|
    requires StandsAt(cands, ka, self, i, cands[k]) && StandsAt(cands, ka, self, i, cands[l])
    requires forall m :: 0 <= m < k && StandsAt(cands, ka, self, i, cands[m]) ==> |cands[m].keys| < |cands[k].keys|
    requires |cands[k].keys| == |cands[l].keys|
    ensures k <= l
  {
  }

  lemma ChosenOnce(cands: seq<Candidate>, ka: seq<seq<string>>, self: string, i: nat, c: Candidate, d: Candidate)
    requires ChosenAt(cands, ka, self, i, c) && ChosenAt(cands, ka, self, i, d)
    ensures c == d
  {
    var k :| 0 <= k < |cands| && cands[k] == c
             && forall m :: 0 <= m < k && StandsAt(cands, ka, self, i, cands[m]) ==> |cands[m].keys| < |c.keys|;
    var l :| 0 <= l < |cands| && cands[l] == d
             && forall m :: 0 <= m < l && StandsAt(cands, ka, self, i, cands[m]) ==> |cands[m].keys| < |d.keys|;
    ChosenFirst(cands, ka, self, i, k, l);
    ChosenFirst(cands, ka, self, i, l, k);
  }

  /** Where the search accepts a candidate is where it is written in. */
  lemma AcceptedIsWritten(cands: seq<Candidate>, ka: seq<seq<string>>, self: string, i: nat)
    requires CleanCandidates(cands) && CleanAlts(ka) && i < |ka|
    ensures var best := Best(cands, ka, self);
            && (Accepted(best, i) ==> WrittenAt(cands, ka, self, i, best[i].value))
            && ((exists c :: WrittenAt(cands, ka, self, i, c)) ==> Accepted(best, i))
  {
    var best := Best(cands, ka, self);
    FoundIsChosen(cands, ka, self, i);
    if Accepted(best, i) {
      forall j, d | 0 <= j < i && ChosenAt(cands, ka, self, j, d) ensures j + |d.keys| <= i {
        FoundIsChosen(cands, ka, self, j);
        ChosenOnce(cands, ka, self, j, d, best[j].value);
        assert !Covers(best, j, i);
      }
    }
    if c :| WrittenAt(cands, ka, self, i, c) {
      forall j | 0 <= j < |best| ensures !Covers(best, j, i) {
        if j < i {
          FoundIsChosen(cands, ka, self, j);
        }
      }
    }
  }

  // ---- what is written

  lemma RestoreConcat(a: seq<Piece>, b: seq<Piece>)
    ensures RestoreAll(a + b) == RestoreAll(a) + RestoreAll(b)
  {
    if a == [] {
      assert a + b == b;
    } else {
      assert (a + b)[1..] == a[1..] + b;
      RestoreConcat(a[1..], b);
    }
  }

  /** What is written before a place, from one on. */
  lemma {:induction false} PiecesBefore(alts: seq<seq<El>>, best: seq<Option<Candidate>>, from: nat, i: nat)
    returns (before: seq<Piece>)
    requires |best| == |alts| && from <= i <= |alts|
    ensures PiecesFrom(alts, best, from) == before + PiecesFrom(alts, best, i)
    decreases i - from
  {
    if from == i {
      before := [];
    } else {
      var here, tail := PieceAt(alts, best, from), PiecesFrom(alts, best, i);
      var more := PiecesBefore(alts, best, from + 1, i);
      FromHere(alts, best, from);
      Joined(here, more, tail);
      before := here + more;
    }
  }

  lemma Joined(a: seq<Piece>, b: seq<Piece>, c: seq<Piece>)
    ensures a + (b + c) == a + b + c
  {
  }

  /** What is written at a place where no run is open: what is before it, restored, is the
      alternatives before it. */
  lemma RestoresBefore(cands: seq<Candidate>, self: string, alts: seq<seq<El>>, i: nat, before: seq<Piece>)
    requires CleanCandidates(cands) && CleanAlts(AllKeys(alts)) && i <= |alts|
    requires var best := Best(cands, AllKeys(alts), self);
             !Taken(best, i) && Pieces(cands, self, alts) == before + PiecesFrom(alts, best, i)
    ensures RestoreAll(before) == AllKeys(alts)[..i]
  {
    var ka := AllKeys(alts);
    var best := Best(cands, ka, self);
    forall m: nat | m < |alts| && Accepted(best, m) ensures Restored(alts, best, m) {
      RunIsRestored(cands, self, alts, m);
    }
    RestoresFrom(alts, best, i);
    WriteBackRestores(cands, self, alts);
    RestoreConcat(before, PiecesFrom(alts, best, i));
    FrontOf(RestoreAll(before), ka, i);
  }

  lemma FrontOf<T>(front: seq<T>, all: seq<T>, i: nat)
    requires i <= |all| && front + all[i..] == all
    ensures front == all[..i]
  {
    assert |front| == i;
    assert all[..i] == (front + all[i..])[..i];
  }

  /** What a piece is, that stands for the alternatives from `i` on. */
  ghost predicate PieceIs(cands: seq<Candidate>, self: string, alts: seq<seq<El>>, i: nat, p: Piece)
    requires i < |alts|
  {
    match p
    case Kept(alt) => alt == alts[i] && forall c :: !WrittenAt(cands, AllKeys(alts), self, i, c)
    case Back(c, tail) =>
      && WrittenAt(cands, AllKeys(alts), self, i, c)
      && c.keys != [] && |c.keys[0]| <= |alts[i]| && tail == alts[i][|c.keys[0]|..]
  }

  lemma HereIs(cands: seq<Candidate>, self: string, alts: seq<seq<El>>, i: nat)
    requires CleanCandidates(cands) && CleanAlts(AllKeys(alts)) && i < |alts|
    ensures var here := PieceAt(alts, Best(cands, AllKeys(alts), self), i);
            here != [] ==> |here| == 1 && PieceIs(cands, self, alts, i, here[0])
    ensures forall c :: WrittenAt(cands, AllKeys(alts), self, i, c) ==>
              PieceAt(alts, Best(cands, AllKeys(alts), self), i) == [Back(c, alts[i][|c.keys[0]|..])]
  {
    var ka := AllKeys(alts);
    var best := Best(cands, ka, self);
    AcceptedIsWritten(cands, ka, self, i);
    if Accepted(best, i) {
      MatchIsRun(best[i].value, ka, i);
    }
    forall c | WrittenAt(cands, ka, self, i, c)
      ensures PieceAt(alts, best, i) == [Back(c, alts[i][|c.keys[0]|..])]
    {
      ChosenOnce(cands, ka, self, i, c, best[i].value);
    }
  }

  lemma ItemBehind<T>(before: seq<T>, here: seq<T>, rest: seq<T>)
    requires |here| == 1
    ensures var all := before + (here + rest);
            |before| < |all| && all[|before|] == here[0] && all[..|before|] == before
  {
  }

  /** Every reference to be written in stands in what is written, with the tail behind it, where
      the alternatives it is written for began. */
  lemma WritesEach(cands: seq<Candidate>, self: string, alts: seq<seq<El>>, i: nat, c: Candidate)
    returns (k: nat)
    requires CleanCandidates(cands) && CleanAlts(AllKeys(alts)) && i < |alts|
    requires WrittenAt(cands, AllKeys(alts), self, i, c)
    ensures var ps := Pieces(cands, self, alts);
            && k < |ps| && ps[k] == Back(c, alts[i][|c.keys[0]|..])
            && RestoreAll(ps[..k]) == AllKeys(alts)[..i]
  {
    var best := Best(cands, AllKeys(alts), self);
    var before := PiecesBefore(alts, best, 0, i);
    AcceptedIsWritten(cands, AllKeys(alts), self, i);
    HereIs(cands, self, alts, i);
    RestoresBefore(cands, self, alts, i, before);
    FromHere(alts, best, i);
    k := |before|;
    ItemBehind(before, PieceAt(alts, best, i), PiecesFrom(alts, best, i + 1));
  }

  /** The place a piece was written at. */
  lemma {:induction false} PieceFrom(alts: seq<seq<El>>, best: seq<Option<Candidate>>, i: nat, k: nat)
    returns (j: nat, before: seq<Piece>)
    requires |best| == |alts| && i <= |alts| && k < |PiecesFrom(alts, best, i)|
    ensures i <= j < |alts| && |before| == k && PieceAt(alts, best, j) == [PiecesFrom(alts, best, i)[k]]
    ensures PiecesFrom(alts, best, i) == before + PiecesFrom(alts, best, j)
    decreases |alts| - i
  {
    var here := PieceAt(alts, best, i);
    if k < |here| {
      j, before := i, [];
    } else {
      FromHere(alts, best, i);
      var more;
      j, more := PieceFrom(alts, best, i + 1, k - |here|);
      Joined(here, more, PiecesFrom(alts, best, j));
      before := here + more;
    }
  }

  /** And every piece written is either a reference to be written in, where the alternatives it
      is written for began, or an alternative at which none is, as it was. */
  lemma PiecesAre(cands: seq<Candidate>, self: string, alts: seq<seq<El>>, k: nat) returns (i: nat)
    requires CleanCandidates(cands) && CleanAlts(AllKeys(alts)) && k < |Pieces(cands, self, alts)|
    ensures var ps := Pieces(cands, self, alts);
            i < |alts| && PieceIs(cands, self, alts, i, ps[k]) && RestoreAll(ps[..k]) == AllKeys(alts)[..i]
  {
    var best, ps := Best(cands, AllKeys(alts), self), Pieces(cands, self, alts);
    var before;
    i, before := PieceFrom(alts, best, 0, k);
    HereIs(cands, self, alts, i);
    NotTaken(alts, best, i);
    RestoresBefore(cands, self, alts, i, before);
    assert ps[..k] == before;
  }

  lemma NotTaken(alts: seq<seq<El>>, best: seq<Option<Candidate>>, i: nat)
    requires |best| == |alts| && i < |alts| && PieceAt(alts, best, i) != []
    ensures !Taken(best, i)
  {
  }

  lemma AliasIs(out: seq<seq<El>>)
    ensures Alias(out) <==> exists name :: out == [[Ref(name)]]
  {
    if Alias(out) {
      var name := out[0][0].name;
      assert out[0] == [Ref(name)];
      assert out == [[Ref(name)]];
    }
  }

  lemma NoneToWrite(self: string, alts: seq<seq<El>>)
    ensures Texts(Pieces([], self, alts)) == alts
  {
    NoneWritten(self, alts, 0);
    assert alts[0..] == alts;
  }

  /** A rule is written as those pieces, but where they are one reference alone as it was. */
  lemma UnsubIs(cands: seq<Candidate>, self: string, alts: seq<seq<El>>)
    ensures var out := Texts(Pieces(cands, self, alts));
            Unsub(cands, self, alts) == if exists name :: out == [[Ref(name)]] then alts else out
  {
    AliasIs(Texts(Pieces(cands, self, alts)));
    NoneToWrite(self, alts);
  }

  lemma {:induction false} NoneWritten(self: string, alts: seq<seq<El>>, i: nat)
    requires i <= |alts|
    ensures Texts(PiecesFrom(alts, Best([], AllKeys(alts), self), i)) == alts[i..]
    decreases |alts| - i
  {
    if i < |alts| {
      var best := Best([], AllKeys(alts), self);
      NoneWritten(self, alts, i + 1);
      assert forall j :: 0 <= j < |best| ==> best[j].None?;
      TextsFront(Kept(alts[i]), PiecesFrom(alts, best, i + 1));
    }
  }

  lemma TextsFront(p: Piece, rest: seq<Piece>)
    ensures Texts([p] + rest) == [Text(p)] + Texts(rest)
  {
  }
}
