/** The Rust port's integer parse: exact in 128 bits while it fits, and then in decimal, by
    long multiplication, so that one rounding sees the exact integer. */
module WideInteger {
  import opened Numeric
  import opened DigitText

  /** What the one rounding is given: no number, the exact integer, or infinity at once. */
  datatype Rounding = NaN | Of(n: nat) | Infinity

  const U128_END: nat := 0x1_0000_0000_0000_0000_0000_0000_0000_0000

  // ---- decimal digits, the lowest first

  predicate Decimal(s: seq<nat>) { forall i :: 0 <= i < |s| ==> s[i] < 10 }

  function LowFirst(s: seq<nat>): nat { if s == [] then 0 else s[0] + 10 * LowFirst(s[1..]) }

  /** What is pushed for the carry that is left. */
  function CarryDigits(carry: nat): (r: seq<nat>)
    ensures Decimal(r) && LowFirst(r) == carry
  {
    if carry == 0 then [] else [carry % 10] + CarryDigits(carry / 10)
  }

  /** The digits multiplied by the radix, with a carry added. */
  function MulAdd(s: seq<nat>, radix: Radix, carry: nat): (r: seq<nat>)
    ensures Decimal(r)
  {
    if s == [] then CarryDigits(carry)
    else
      var value := s[0] * radix + carry;
      [value % 10] + MulAdd(s[1..], radix, value / 10)
  }

  lemma {:induction false} MulAddIs(s: seq<nat>, radix: Radix, carry: nat)
    ensures LowFirst(MulAdd(s, radix, carry)) == LowFirst(s) * radix + carry
    decreases |s|
  {
    if s != [] {
      var value := s[0] * radix + carry;
      MulAddIs(s[1..], radix, value / 10);
      assert MulAdd(s, radix, carry)[1..] == MulAdd(s[1..], radix, value / 10);
      Regroup(value, LowFirst(s[1..]), s[0], radix, carry);
    }
  }

  lemma Regroup(value: nat, rest: nat, first: nat, radix: Radix, carry: nat)
    requires value == first * radix + carry
    ensures value % 10 + 10 * (rest * radix + value / 10) == (first + 10 * rest) * radix + carry
  {
    assert value % 10 + 10 * (value / 10) == value;
    assert 10 * (rest * radix) == (10 * rest) * radix;
    assert (first + 10 * rest) * radix == first * radix + (10 * rest) * radix;
  }

  /** One slot multiplied in place. */
  method TakeSlot(decimal: seq<nat>, k: nat, radix: Radix, carry: nat) returns (next: seq<nat>, left: nat)
    requires k < |decimal| && decimal[k] < 10 && carry < radix
    ensures |next| == |decimal| && next[k + 1..] == decimal[k + 1..] && left < radix
    ensures next[..k + 1] + MulAdd(decimal[k + 1..], radix, left) == decimal[..k] + MulAdd(decimal[k..], radix, carry)
  {
    ghost var rest := decimal[k..];
    assert rest[1..] == decimal[k + 1..];
    var slot := decimal[k];
    var value := slot * radix + carry;
    next, left := decimal[k := value % 10], value / 10;
  }

  /** The carry that is left, pushed digit by digit. */
  method PushCarry(slots: seq<nat>, carry: nat) returns (decimal: seq<nat>)
    ensures decimal == slots + CarryDigits(carry)
  {
    decimal := slots;
    var left: nat := carry;
    while left > 0
      invariant decimal + CarryDigits(left) == slots + CarryDigits(carry)
    {
      assert decimal + CarryDigits(left) == decimal + [left % 10] + CarryDigits(left / 10);
      decimal := decimal + [left % 10];
      left := left / 10;
    }
  }

  /** One digit taken in: every slot multiplied in place, the slots below ten and the carry
      below the radix. */
  method TakeDigit(slots: seq<nat>, radix: Radix, digit: nat) returns (decimal: seq<nat>)
    requires Decimal(slots) && digit < radix
    ensures decimal == MulAdd(slots, radix, digit)
  {
    decimal := slots;
    var carry: nat := digit;
    var k := 0;
    while k < |decimal|
      invariant 0 <= k <= |decimal| == |slots| && carry < radix
      invariant decimal[k..] == slots[k..]
      invariant decimal[..k] + MulAdd(decimal[k..], radix, carry) == MulAdd(slots, radix, digit)
    {
      assert decimal[k..][0] == slots[k..][0] && decimal[k..][1..] == slots[k + 1..];
      decimal, carry := TakeSlot(decimal, k, radix, carry);
      k := k + 1;
    }
    assert decimal[..k] == decimal;
    decimal := PushCarry(decimal, carry);
  }

  // ---- the digits as text

  /** The digits from the highest, as characters. */
  function DecimalText(s: seq<nat>): string
    requires Decimal(s)
  {
    if s == [] then "" else DecimalText(s[1..]) + [Digit(s[0])]
  }

  lemma {:induction false} DecimalReads(s: seq<nat>)
    requires Decimal(s)
    ensures AllDigits(DecimalText(s), 10) && Value(DecimalText(s), 10) == LowFirst(s)
  {
    if s != [] {
      DecimalReads(s[1..]);
      DigitIsDigit(s[0]);
      ValueSnoc(DecimalText(s[1..]), Digit(s[0]), 10);
    }
  }

  // ---- the early infinity

  function Pow2(n: nat): (p: nat)
    ensures p >= 1
  {
    if n == 0 then 1 else 2 * Pow2(n - 1)
  }

  lemma {:induction false} Pow2Grows(a: nat, b: nat)
    requires a <= b
    ensures Pow2(a) <= Pow2(b)
    decreases b
  {
    if a < b {
      Pow2Grows(a, b - 1);
    }
  }

  function TrimZeros(digits: string): (r: string)
    ensures |r| <= |digits|
    ensures r != "" ==> r[0] != '0'
  {
    if digits != "" && digits[0] == '0' then TrimZeros(digits[1..]) else digits
  }

  lemma {:induction false} TrimReads(digits: string, radix: Radix)
    requires AllDigits(digits, radix)
    ensures AllDigits(TrimZeros(digits), radix) && Value(TrimZeros(digits), radix) == Value(digits, radix)
  {
    if digits != "" && digits[0] == '0' {
      TrimReads(digits[1..], radix);
      ZeroFirst(digits, radix);
    }
  }

  /** A zero in front changes nothing. */
  lemma {:induction false} ZeroFirst(digits: string, radix: Radix)
    requires digits != "" && digits[0] == '0'
    ensures Value(digits, radix) == Value(digits[1..], radix)
    decreases |digits|
  {
    if |digits| > 1 {
      var init := digits[..|digits| - 1];
      ZeroFirst(init, radix);
      assert digits[1..][..|digits| - 2] == init[1..];
    }
  }

  /** The bits a digit of a radix that is a power of two holds: `radix.log2()`. */
  function Bits(radix: Radix): nat
    requires radix != 10
  {
    if radix == 2 then 1 else 4
  }

  lemma BitsAre(radix: Radix, n: nat)
    requires radix != 10
    ensures Pow2(n + Bits(radix)) == Pow2(n) * radix
  {
    if radix == 16 {
      assert Pow2(n + 4) == 2 * Pow2(n + 3);
      assert Pow2(n + 2) == 2 * Pow2(n + 1);
    }
  }

  /** A number whose first digit is not zero is at least the power its width gives. */
  lemma {:induction false} WidthBounds(digits: string, radix: Radix)
    requires radix != 10 && AllDigits(digits, radix) && digits != "" && digits[0] != '0'
    ensures Value(digits, radix) >= Pow2(Bits(radix) * (|digits| - 1))
    decreases |digits|
  {
    if |digits| == 1 {
      assert digits == "" + [digits[0]];
      ValueSnoc("", digits[0], radix);
      assert digits[0] in digits;
    } else {
      var init := digits[..|digits| - 1];
      WidthBounds(init, radix);
      BitsAre(radix, Bits(radix) * (|init| - 1));
      assert Value(digits, radix) >= Value(init, radix) * radix;
      Scale(Pow2(Bits(radix) * (|init| - 1)), Value(init, radix), radix);
    }
  }

  lemma Scale(a: nat, b: nat, radix: Radix)
    requires a <= b
    ensures a * radix <= b * radix
  {
  }

  /** Past the width the source allows, the integer is past every finite double. */
  lemma TooWide(digits: string, radix: Radix)
    requires radix != 10 && AllDigits(digits, radix)
    requires 1100 < |TrimZeros(digits)| * Bits(radix)
    ensures Value(digits, radix) >= Pow2(1024)
  {
    var d := TrimZeros(digits);
    TrimReads(digits, radix);
    WidthBounds(d, radix);
    Pow2Grows(1024, Bits(radix) * (|d| - 1));
  }

  // ---- the parse

  /** Where the source answers infinity from the width alone. */
  predicate CutAtOnce(digits: string, radix: Radix) {
    radix != 10 && 1100 < |TrimZeros(digits)| * Bits(radix)
  }

  /** `parse_int_wide`: the exact integer in decimal, or infinity where the width alone says
      so. */
  method ParseIntWide(digits: string, radix: Radix) returns (r: Rounding)
    requires AllDigits(digits, radix)
    ensures r == if radix != 10 && 1100 < |TrimZeros(digits)| * (if radix == 16 then 4 else 1) then Infinity
                 else Of(Value(digits, radix))
    ensures r == Infinity ==> Value(digits, radix) >= Pow2(1024)
  {
    if radix == 10 {
      return Of(Value(digits, 10));
    }
    if CutAtOnce(digits, radix) {
      TooWide(digits, radix);
      return Infinity;
    }
    var decimal := [0];
    var i := 0;
    while i < |digits|
      invariant 0 <= i <= |digits|
      invariant Decimal(decimal) && LowFirst(decimal) == Value(digits[..i], radix)
    {
      assert digits[i] in digits;
      ghost var before := decimal;
      decimal := TakeDigit(decimal, radix, DigitValue(digits[i]));
      MulAddIs(before, radix, DigitValue(digits[i]));
      assert digits[..i + 1] == digits[..i] + [digits[i]];
      ValueSnoc(digits[..i], digits[i], radix);
      i := i + 1;
    }
    assert digits[..i] == digits;
    DecimalReads(decimal);
    r := Of(Value(DecimalText(decimal), 10));
  }

  lemma SnocGrows(text: string, c: char, radix: Radix)
    ensures Value(text, radix) <= Value(text + [c], radix)
  {
    ValueSnoc(text, c, radix);
    AtLeastOnce(Value(text, radix), radix);
  }

  lemma AtLeastOnce(n: nat, radix: Radix)
    ensures n <= n * radix
  {
  }

  /** The digits so far are no more than all of them. */
  lemma {:induction false} PrefixBelow(digits: string, i: nat, radix: Radix)
    requires i <= |digits|
    ensures Value(digits[..i], radix) <= Value(digits, radix)
    decreases |digits| - i
  {
    if i < |digits| {
      PrefixBelow(digits, i + 1, radix);
      assert digits[..i + 1] == digits[..i] + [digits[i]];
      SnocGrows(digits[..i], digits[i], radix);
    } else {
      assert digits[..i] == digits;
    }
  }

  /** `parse_int`: nothing where no digit leads, and otherwise the exact integer of the
      longest prefix of digits, unless that is past every finite double. */
  method ParseExact(text: string, radix: Radix) returns (r: Rounding)
    ensures match ParseInt(text, radix)
            case None => r == NaN
            case Some(n) =>
              && (r == if n >= U128_END && CutAtOnce(DigitPrefix(text, radix), radix) then Infinity else Of(n))
              && (r == Infinity ==> n >= Pow2(1024))
  {
    var digits := DigitPrefix(text, radix);
    if digits == "" {
      return NaN;
    }
    var exact := 0;
    var i := 0;
    while i < |digits|
      invariant 0 <= i <= |digits|
      invariant exact == Value(digits[..i], radix) < U128_END
    {
      assert digits[..i + 1] == digits[..i] + [digits[i]];
      ValueSnoc(digits[..i], digits[i], radix);
      var next := exact * radix + DigitValue(digits[i]);
      if next >= U128_END {
        PrefixBelow(digits, i + 1, radix);
        r := ParseIntWide(digits, radix);
        return;
      }
      exact := next;
      i := i + 1;
    }
    assert digits[..i] == digits;
    r := Of(exact);
  }
}
