/** A dotted concatenation as the Rust port decodes it: through UTF-16 units, and from those
    to characters, with a replacement character for each half that has no mate. */
module Utf16 {
  import opened Unicode

  const REPLACEMENT: CodePoint := 0xFFFD

  /** The code point a pair of halves encodes. */
  function JoinHalves(high: int, low: int): (c: CodePoint)
    requires HighHalf(high) && LowHalf(low)
    ensures c >= 0x1_0000
  {
    (high - 0xD800) * 0x400 + (low - 0xDC00) + 0x1_0000
  }

  lemma HalvesJoin(c: CodePoint)
    requires c >= 0x1_0000
    ensures var u := FromCodePoint(c); |u| == 2 && HighHalf(u[0]) && LowHalf(u[1]) && JoinHalves(u[0], u[1]) == c
  {
  }

  /** `push_utf16` for each part, in order. */
  method PushAll(codes: seq<CodePoint>) returns (units: seq<Unit>)
    ensures units == Join(codes)
  {
    units := [];
    var i := 0;
    while i < |codes|
      invariant 0 <= i <= |codes|
      invariant units + Join(codes[i..]) == Join(codes)
    {
      units := units + FromCodePoint(codes[i]);
      i := i + 1;
    }
    assert codes[i..] == [];
  }

  /** `String::from_utf16_lossy`. */
  function Lossy(units: seq<Unit>): seq<CodePoint> {
    if units == [] then []
    else if !Surrogate(units[0]) then [units[0]] + Lossy(units[1..])
    else if HighHalf(units[0]) && |units| > 1 && LowHalf(units[1]) then
      [JoinHalves(units[0], units[1])] + Lossy(units[2..])
    else [REPLACEMENT] + Lossy(units[1..])
  }

  /** What a list of code points names as text: a high half before a low one is the code point
      they encode, any other half is no character. */
  function Named(codes: seq<CodePoint>): seq<CodePoint> {
    if codes == [] then []
    else if HighHalf(codes[0]) && |codes| > 1 && LowHalf(codes[1]) then
      [JoinHalves(codes[0], codes[1])] + Named(codes[2..])
    else [if Surrogate(codes[0]) then REPLACEMENT else codes[0]] + Named(codes[1..])
  }

  lemma JoinCons(c: CodePoint, rest: seq<CodePoint>)
    ensures Join([c] + rest) == FromCodePoint(c) + Join(rest)
  {
    assert ([c] + rest)[1..] == rest;
  }

  /** A list's first unit is a half exactly where its first code point is one, or astral. */
  lemma FirstUnit(codes: seq<CodePoint>)
    ensures Join(codes) == [] <==> codes == []
    ensures codes != [] ==> (LowHalf(Join(codes)[0]) <==> LowHalf(codes[0]))
  {
    if codes != [] && codes[0] >= 0x1_0000 {
      HalvesJoin(codes[0]);
    }
  }

  /** Decoding through the units names the characters the code points do. */
  lemma {:induction false} LossyNames(codes: seq<CodePoint>)
    ensures Lossy(Join(codes)) == Named(codes)
    decreases |codes|
  {
    if codes != [] {
      var c, rest := codes[0], codes[1..];
      assert codes == [c] + rest;
      JoinCons(c, rest);
      FirstUnit(rest);
      var units := Join(codes);
      if c >= 0x1_0000 {
        HalvesJoin(c);
        LossyNames(rest);
        assert units[2..] == Join(rest);
      } else if HighHalf(c) && rest != [] && LowHalf(rest[0]) {
        assert rest == [rest[0]] + rest[1..];
        JoinCons(rest[0], rest[1..]);
        LossyNames(codes[2..]);
        assert units[2..] == Join(codes[2..]);
      } else {
        LossyNames(rest);
        assert units[1..] == Join(rest);
      }
    }
  }

  /** Whether halves would pair across the place two lists meet. */
  predicate PairsAcross(a: seq<CodePoint>, b: seq<CodePoint>) {
    a != [] && b != [] && HighHalf(a[|a| - 1]) && LowHalf(b[0])
  }

  lemma {:induction false} NamedConcat(a: seq<CodePoint>, b: seq<CodePoint>)
    requires !PairsAcross(a, b)
    ensures Named(a + b) == Named(a) + Named(b)
    decreases |a|
  {
    if a == [] {
      assert a + b == b;
    } else if |a| > 1 && HighHalf(a[0]) && LowHalf(a[1]) {
      NamedConcat(a[2..], b);
      NamedPair(a, b);
    } else {
      NamedConcat(a[1..], b);
      NamedOne(a, b);
    }
  }

  lemma NamedPair(a: seq<CodePoint>, b: seq<CodePoint>)
    requires |a| > 1 && HighHalf(a[0]) && LowHalf(a[1]) && Named(a[2..] + b) == Named(a[2..]) + Named(b)
    ensures Named(a + b) == Named(a) + Named(b)
  {
    var all := a + b;
    assert all[0] == a[0] && all[1] == a[1] && all[2..] == a[2..] + b;
  }

  lemma NamedOne(a: seq<CodePoint>, b: seq<CodePoint>)
    requires a != [] && !(|a| > 1 && HighHalf(a[0]) && LowHalf(a[1])) && !PairsAcross(a, b)
    requires Named(a[1..] + b) == Named(a[1..]) + Named(b)
    ensures Named(a + b) == Named(a) + Named(b)
  {
    var all := a + b;
    assert all[0] == a[0] && all[1..] == a[1..] + b;
  }

  lemma NamedAround(a: seq<CodePoint>, mid: seq<CodePoint>, b: seq<CodePoint>)
    requires !PairsAcross(a, mid) && !PairsAcross(a + mid, b)
    ensures Lossy(Join(a + mid + b)) == Lossy(Join(a)) + Named(mid) + Lossy(Join(b))
  {
    LossyNames(a + mid + b);
    LossyNames(a);
    LossyNames(b);
    NamedConcat(a, mid);
    NamedConcat(a + mid, b);
  }

  /** An adjacent high and low half, wherever they stand, become the code point they encode. */
  lemma PairJoins(a: seq<CodePoint>, high: CodePoint, low: CodePoint, b: seq<CodePoint>)
    requires HighHalf(high) && LowHalf(low)
    ensures Lossy(Join(a + [high, low] + b)) == Lossy(Join(a)) + [JoinHalves(high, low)] + Lossy(Join(b))
  {
    NamedAround(a, [high, low], b);
    assert Named([high, low]) == [JoinHalves(high, low)] + Named([]);
  }

  /** Anything else stands for itself, but for a half without a mate, which becomes the
      replacement character. */
  lemma OtherStands(a: seq<CodePoint>, c: CodePoint, b: seq<CodePoint>)
    requires !PairsAcross(a, [c]) && !PairsAcross([c], b)
    ensures Lossy(Join(a + [c] + b)) == Lossy(Join(a)) + [if Surrogate(c) then REPLACEMENT else c] + Lossy(Join(b))
  {
    NamedAround(a, [c], b);
    assert Named([c]) == [if Surrogate(c) then REPLACEMENT else c] + Named([]);
  }

  /** Without surrogates the code points come back unchanged. */
  lemma {:induction false} PlainUnchanged(codes: seq<CodePoint>)
    requires forall c :: c in codes ==> !Surrogate(c)
    ensures Lossy(Join(codes)) == codes
    decreases |codes|
  {
    LossyNames(codes);
    if codes != [] {
      assert codes == [codes[0]] + codes[1..] && codes[0] in codes;
      PlainUnchanged(codes[1..]);
      LossyNames(codes[1..]);
    }
  }
}
