/** Integer literals of any size, read digit by digit into a fixed number of bits. */
module CircuitLiterals {
  import opened Words
  import opened Fsm

  // ----- what a literal denotes -----

  function DigitOf(c: char, radix: nat): Option<nat> {
    if '0' <= c <= '9' then Some((c - '0') as nat)
    else if radix == 16 && 'a' <= c <= 'f' then Some((c - 'a') as nat + 10)
    else if radix == 16 && 'A' <= c <= 'F' then Some((c - 'A') as nat + 10)
    else None
  }

  function NumberOf(digits: string, radix: nat): Option<nat> {
    if digits == "" then Some(0)
    else
      match (NumberOf(digits[..|digits| - 1], radix), DigitOf(digits[|digits| - 1], radix))
      case (Some(high), Some(low)) => Some(high * radix + low)
      case _ => None
  }

  function WithoutSign(text: string): string {
    if text != "" && (text[0] == '-' || text[0] == '+') then text[1..] else text
  }

  predicate Hexadecimal(text: string) {
    |text| >= 2 && text[0] == '0' && (text[1] == 'x' || text[1] == 'X')
  }

  /** The signed decimal or hexadecimal number; nothing for text without digits or with
      other characters. */
  function LiteralValue(text: string): Option<int> {
    var unsigned := WithoutSign(text);
    var (digits, radix) := if Hexadecimal(unsigned) then (unsigned[2..], 16) else (unsigned, 10);
    if digits == "" then None
    else
      match NumberOf(digits, radix)
      case None => None
      case Some(n) => Some(if text[0] == '-' then 0 - n else n)
  }

  // ----- reading -----

  function Scaled(n: nat, radix: nat, digit: nat): nat {
    n * radix + digit
  }

  /** The number in the low bits plus a carry into position `j`. */
  function WithCarry(low: Bits, carry: nat): nat {
    ToNat(low) + carry * Pow2(|low|)
  }

  /** Multiplies the bits by the radix and adds the digit, carrying upwards. */
  method AccumulateDigit(bits: array<bool>, radix: nat, digit: nat)
    modifies bits
    ensures bits[..] == FromInt(Scaled(ToNat(old(bits[..])), radix, digit), bits.Length)
  {
    hide FromInt;
    hide ToNat;
    hide Pow2;
    hide Scaled;
    hide WithCarry;
    ghost var before := bits[..];
    var carry: nat := digit;
    NothingCarried(before, radix, digit);
    assert bits[..0] == before[..0] == [];
    for j := 0 to bits.Length
      invariant bits[j..] == before[j..]
      invariant WithCarry(bits[..j], carry) == Scaled(ToNat(before[..j]), radix, digit)
    {
      ghost var low := bits[..j];
      assert bits[j] == bits[j..][0] == before[j];
      BitTimes(bits[j], radix);
      var value: nat := BitVal(bits[j]) * radix + carry;
      bits[j] := value % 2 == 1;
      assert bits[..j + 1] == low + [bits[j]];
      assert before[..j + 1] == before[..j] + [before[j]];
      CarryOn(low, carry, before[..j], radix, digit, before[j], value);
      carry := value / 2;
    }
    assert bits[..bits.Length] == bits[..] && before[..bits.Length] == before;
    CarryDropped(bits[..], carry);
  }

  lemma BitTimes(bit: bool, radix: nat)
    ensures BitVal(bit) * radix == if bit then radix else 0
  {
  }

  lemma NothingCarried(before: Bits, radix: nat, digit: nat)
    ensures WithCarry([], digit) == Scaled(ToNat(before[..0]), radix, digit)
  {
  }

  lemma CarryDropped(b: Bits, carry: nat)
    ensures b == FromInt(WithCarry(b, carry), |b|)
  {
    hide FromInt;
    hide ToNat;
    hide Pow2;
    FromIntCongruent(WithCarry(b, carry), ToNat(b), |b|, carry);
    FromIntToNat(b);
  }

  lemma CarryOn(low: Bits, carry: nat, before: Bits, radix: nat, digit: nat, bit: bool, value: nat)
    requires |low| == |before| && WithCarry(low, carry) == Scaled(ToNat(before), radix, digit)
    requires value == BitVal(bit) * radix + carry
    ensures WithCarry(low + [value % 2 == 1], value / 2) == Scaled(ToNat(before + [bit]), radix, digit)
  {
    hide ToNat;
    hide Pow2;
    ToNatSnoc(low, value % 2 == 1);
    ToNatSnoc(before, bit);
    Pow2Doubles(|low|);
    CarryStep(ToNat(low), carry, Pow2(|low|), ToNat(before), radix, digit, BitVal(bit), value);
  }

  lemma Pow2Doubles(j: nat)
    ensures Pow2(j + 1) == 2 * Pow2(j)
  {
  }

  lemma EmptySums(before: Bits)
    ensures ToNat([]) == 0 && Pow2(0) == 1 && ToNat(before[..0]) == 0
  {
  }

  lemma CarryStep(low: nat, carry: nat, p: nat, old': nat, radix: nat, digit: nat, bit: nat, value: nat)
    requires low + carry * p == old' * radix + digit && value == bit * radix + carry && bit <= 1
    ensures low + (if value % 2 == 1 then p else 0) + (value / 2) * (2 * p) ==
      (old' + if bit == 1 then p else 0) * radix + digit
  {
    assert value == 2 * (value / 2) + value % 2;
    var half := value / 2;
    assert value * p == half * (2 * p) + (value % 2) * p by {
      assert (2 * half + value % 2) * p == (2 * half) * p + (value % 2) * p;
      assert (2 * half) * p == half * (2 * p);
    }
    assert value * p == bit * radix * p + carry * p by {
      assert (bit * radix + carry) * p == (bit * radix) * p + carry * p;
    }
    if bit == 0 {
      assert bit * radix * p == 0;
    } else {
      assert bit == 1;
      assert bit * radix * p == p * radix;
      assert (old' + p) * radix == old' * radix + p * radix;
    }
  }

  /** Two's complement: inverts every bit and adds one. */
  method NegateBits(bits: array<bool>)
    modifies bits
    ensures bits[..] == Negated(old(bits[..]))
  {
    hide FromInt;
    hide ToNat;
    hide Pow2;
    ghost var before := bits[..];
    var carry := true;
    EmptySums(before);
    assert bits[..0] == before[..0] == [];
    for j := 0 to bits.Length
      invariant bits[j..] == before[j..]
      invariant ToNat(bits[..j]) + ToNat(before[..j]) + BitVal(carry) * Pow2(j) == Pow2(j)
    {
      ghost var low := bits[..j];
      assert bits[j] == bits[j..][0] == before[j];
      var inverted := !bits[j];
      bits[j] := inverted != carry;
      assert bits[..j + 1] == low + [bits[j]];
      ToNatSnoc(low, bits[j]);
      ToNatPrefix(before, j);
      Pow2Doubles(j);
      carry := carry && inverted;
    }
    assert bits[..bits.Length] == bits[..] && before[..bits.Length] == before;
    FromIntCongruent(0 - ToNat(before), ToNat(bits[..]), bits.Length, BitVal(carry) - 1);
    FromIntToNat(bits[..]);
  }

  /** The literal modulo `2^width`, without ever holding more than `width` bits. */
  method ParseConstant(text: string, width: nat) returns (r: Option<Bits>)
    ensures r == match LiteralValue(text)
      case None => None
      case Some(n) => Some(FromInt(n, width))
  {
    hide FromInt;
    hide ToNat;
    hide Pow2;
    var negative := text != "" && text[0] == '-';
    var unsigned := WithoutSign(text);
    var (digits, radix) := if Hexadecimal(unsigned) then (unsigned[2..], 16) else (unsigned, 10);
    if digits == "" {
      return None;
    }
    var bits := new bool[width](_ => false);
    assert bits[..] == Zeros(width);
    ZeroBits(width);
    for i := 0 to |digits|
      invariant NumberOf(digits[..i], radix).Some? && bits[..] == FromInt(NumberOf(digits[..i], radix).value, width)
    {
      var digit := DigitOf(digits[i], radix);
      assert digits[..i + 1][..i] == digits[..i];
      if digit == None {
        BadPrefix(digits, radix, i);
        return None;
      }
      ghost var n := NumberOf(digits[..i], radix).value;
      AccumulateDigit(bits, radix, digit.value);
      DigitLowBits(n, radix, digit.value, width);
    }
    assert digits[..|digits|] == digits;
    ghost var n := NumberOf(digits, radix).value;
    if negative {
      NegateBits(bits);
      NegateLowBits(n, width);
    }
    return Some(bits[..]);
  }

  lemma ZeroBits(width: nat)
    ensures Zeros(width) == FromInt(0, width)
  {
    ToNatZeros(width);
    FromIntToNat(Zeros(width));
  }

  lemma {:induction false} BadPrefix(digits: string, radix: nat, i: nat)
    requires i < |digits| && DigitOf(digits[i], radix) == None
    ensures NumberOf(digits, radix) == None
  {
    if i < |digits| - 1 {
      BadPrefix(digits[..|digits| - 1], radix, i);
    }
  }

  lemma DigitLowBits(n: nat, radix: nat, digit: nat, width: nat)
    ensures FromInt(Scaled(ToNat(FromInt(n, width)), radix, digit), width) == FromInt(n * radix + digit, width)
  {
    hide FromInt;
    hide ToNat;
    hide Pow2;
    var k := FromIntWraps(n, width);
    var m := ToNat(FromInt(n, width));
    assert n * radix + digit == m * radix + digit + (k * radix) * Pow2(width) by {
      assert n * radix == m * radix + (k * Pow2(width)) * radix;
      assert (k * Pow2(width)) * radix == (k * radix) * Pow2(width);
    }
    FromIntCongruent(n * radix + digit, m * radix + digit, width, k * radix);
  }

  lemma NegateLowBits(n: nat, width: nat)
    ensures Negated(FromInt(n, width)) == FromInt(0 - n, width)
  {
    hide FromInt;
    hide ToNat;
    hide Pow2;
    var m: int, k: int := ToNat(FromInt(n, width)), 0;
    k := FromIntWraps(n, width);
    FromIntCongruent(0 - n, 0 - m, width, 0 - k);
  }
}
