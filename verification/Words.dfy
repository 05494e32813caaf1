/** Bit vectors as sequences of booleans, least-significant bit first, and the
    natural numbers they denote. */
module Words {

  type Bits = seq<bool>

  function Pow2(n: nat): (p: nat)
    ensures p >= 1
  {
    if n == 0 then 1 else 2 * Pow2(n - 1)
  }

  function BitVal(b: bool): nat {
    if b then 1 else 0
  }

  /** The number a bit vector denotes. The recursion removes the most-significant
      bit, which suits the circuit builders: they append bits upwards. */
  function ToNat(b: Bits): (n: nat)
    ensures n < Pow2(|b|)
  {
    if b == [] then 0
    else
      var last := |b| - 1;
      ToNat(b[..last]) + (if b[last] then Pow2(last) else 0)
  }

  /** The low bits of an integer in two's complement: `n` modulo `2^width`. */
  function FromInt(n: int, width: nat): (b: Bits)
    ensures |b| == width
    decreases width
  {
    if width == 0 then [] else [n % 2 == 1] + FromInt(n / 2, width - 1)
  }

  function Zeros(width: nat): (b: Bits)
    ensures |b| == width
  {
    seq(width, _ => false)
  }

  function Not(b: Bits): (r: Bits)
    ensures |r| == |b|
  {
    seq(|b|, i requires 0 <= i < |b| => !b[i])
  }

  function Fill(width: nat, bit: bool): (b: Bits)
    ensures |b| == width
  {
    seq(width, _ => bit)
  }

  // ----- powers of two -----

  lemma {:induction false} Pow2Add(m: nat, n: nat)
    ensures Pow2(m + n) == Pow2(m) * Pow2(n)
  {
    if m > 0 {
      Pow2Add(m - 1, n);
      calc {
        Pow2(m + n);
        2 * Pow2(m - 1 + n);
        2 * (Pow2(m - 1) * Pow2(n));
        (2 * Pow2(m - 1)) * Pow2(n);
      }
    }
  }

  lemma {:induction false} Pow2Monotone(m: nat, n: nat)
    requires m <= n
    ensures Pow2(m) <= Pow2(n)
  {
    if m < n {
      Pow2Monotone(m, n - 1);
    }
  }

  // ----- values of bit vectors -----

  lemma ToNatSnoc(b: Bits, bit: bool)
    ensures ToNat(b + [bit]) == ToNat(b) + (if bit then Pow2(|b|) else 0)
  {
    var c := b + [bit];
    assert c[..|c| - 1] == b;
  }

  /** A prefix of length `i + 1` adds bit `i`. */
  lemma ToNatPrefix(b: Bits, i: nat)
    requires i < |b|
    ensures ToNat(b[..i + 1]) == ToNat(b[..i]) + (if b[i] then Pow2(i) else 0)
  {
    assert b[..i + 1] == b[..i] + [b[i]];
    ToNatSnoc(b[..i], b[i]);
  }

  lemma {:induction false} ToNatAppend(a: Bits, b: Bits)
    ensures ToNat(a + b) == ToNat(a) + Pow2(|a|) * ToNat(b)
  {
    if b == [] {
      assert a + b == a;
    } else {
      var last := |b| - 1;
      var init := b[..last];
      assert a + b == (a + init) + [b[last]];
      ToNatSnoc(a + init, b[last]);
      ToNatAppend(a, init);
      Pow2Add(|a|, last);
      Distribute(Pow2(|a|), ToNat(init), if b[last] then Pow2(last) else 0);
    }
  }

  lemma ToNatCons(bit: bool, b: Bits)
    ensures ToNat([bit] + b) == BitVal(bit) + 2 * ToNat(b)
  {
    ToNatAppend([bit], b);
    assert [bit][..0] == [];
    assert Pow2(1) == 2;
  }

  lemma ToNatSplit(b: Bits, k: nat)
    requires k <= |b|
    ensures ToNat(b) == ToNat(b[..k]) + Pow2(k) * ToNat(b[k..])
  {
    assert b == b[..k] + b[k..];
    ToNatAppend(b[..k], b[k..]);
  }

  lemma {:induction false} ToNatZeros(width: nat)
    ensures ToNat(Zeros(width)) == 0
  {
    if width > 0 {
      ToNatZeros(width - 1);
      assert Zeros(width)[..width - 1] == Zeros(width - 1);
    }
  }

  lemma {:induction false} ToNatNot(b: Bits)
    ensures ToNat(Not(b)) == Pow2(|b|) - 1 - ToNat(b)
  {
    if b != [] {
      var last := |b| - 1;
      ToNatNot(b[..last]);
      assert Not(b)[..last] == Not(b[..last]);
    }
  }

  lemma {:induction false} ToNatOnes(width: nat)
    ensures ToNat(Fill(width, true)) == Pow2(width) - 1
  {
    if width > 0 {
      ToNatOnes(width - 1);
      assert Fill(width, true)[..width - 1] == Fill(width - 1, true);
    }
  }

  lemma {:induction false} ToNatZeroIff(b: Bits)
    ensures ToNat(b) == 0 <==> forall i :: 0 <= i < |b| ==> !b[i]
  {
    if b != [] {
      var last := |b| - 1;
      ToNatZeroIff(b[..last]);
      if forall i :: 0 <= i < last ==> !b[..last][i] {
        assert forall i :: 0 <= i < last ==> !b[i];
      } else {
        var i :| 0 <= i < last && b[..last][i];
        assert b[i];
      }
    }
  }

  /** Equal-width vectors denoting the same number are the same vector. */
  lemma {:induction false} ToNatInjective(a: Bits, b: Bits)
    requires |a| == |b| && ToNat(a) == ToNat(b)
    ensures a == b
  {
    if a != [] {
      var last := |a| - 1;
      assert ToNat(a[..last]) < Pow2(last) && ToNat(b[..last]) < Pow2(last);
      assert a[last] == b[last];
      ToNatInjective(a[..last], b[..last]);
      assert a == a[..last] + [a[last]];
      assert b == b[..last] + [b[last]];
    }
  }

  lemma {:induction false} ToNatFromInt(n: int, width: nat)
    ensures ToNat(FromInt(n, width)) == n % Pow2(width)
    decreases width
  {
    if width > 0 {
      ToNatFromInt(n / 2, width - 1);
      ToNatCons(n % 2 == 1, FromInt(n / 2, width - 1));
      HalveModulo(n, Pow2(width - 1));
    }
  }

  lemma FromIntToNat(b: Bits)
    ensures FromInt(ToNat(b), |b|) == b
  {
    hide FromInt;
    hide ToNat;
    ToNatFromInt(ToNat(b), |b|);
    SmallModulo(ToNat(b), Pow2(|b|));
    ToNatInjective(FromInt(ToNat(b), |b|), b);
  }

  lemma ToNatFromSmall(n: nat, width: nat)
    requires n < Pow2(width)
    ensures ToNat(FromInt(n, width)) == n
  {
    hide FromInt;
    hide ToNat;
    ToNatFromInt(n, width);
    SmallModulo(n, Pow2(width));
  }

  /** Integers that differ by a multiple of `2^width` have the same low bits. */
  lemma FromIntCongruent(n: int, m: int, width: nat, k: int)
    requires n == m + k * Pow2(width)
    ensures FromInt(n, width) == FromInt(m, width)
  {
    hide FromInt;
    hide ToNat;
    ToNatFromInt(n, width);
    ToNatFromInt(m, width);
    ModuloAddMultiple(m, Pow2(width), k);
    ToNatInjective(FromInt(n, width), FromInt(m, width));
  }

  /** What is lost by keeping the low bits is a multiple of `2^width`. */
  lemma FromIntWraps(n: int, width: nat) returns (k: int)
    ensures n == ToNat(FromInt(n, width)) + k * Pow2(width)
  {
    hide FromInt;
    hide ToNat;
    ToNatFromInt(n, width);
    k := n / Pow2(width);
  }

  lemma {:induction false} FromIntAddPow2(n: int, width: nat)
    ensures FromInt(n + Pow2(width), width) == FromInt(n, width)
    decreases width
  {
    if width > 0 {
      FromIntAddPow2(n / 2, width - 1);
    }
  }

  /** Low bits of a sum depend on low bits of the operands only. */
  lemma {:induction false} AddCongruent(x: int, y: int, c: int, x': int, y': int, width: nat)
    requires FromInt(x, width) == FromInt(x', width) && FromInt(y, width) == FromInt(y', width)
    requires 0 <= c <= 1
    ensures FromInt(x + y + c, width) == FromInt(x' + y' + c, width)
    decreases width
  {
    if width > 0 {
      FromIntTail(x, x', width);
      FromIntTail(y, y', width);
      var carry := (x % 2 + y % 2 + c) / 2;
      assert (x + y + c) / 2 == x / 2 + y / 2 + carry;
      assert (x' + y' + c) / 2 == x' / 2 + y' / 2 + carry;
      AddCongruent(x / 2, y / 2, carry, x' / 2, y' / 2, width - 1);
    }
  }

  lemma FromIntTail(x: int, y: int, width: nat)
    requires width > 0 && FromInt(x, width) == FromInt(y, width)
    ensures x % 2 == y % 2 && FromInt(x / 2, width - 1) == FromInt(y / 2, width - 1)
  {
    var a, b := FromInt(x, width), FromInt(y, width);
    assert a[0] == b[0];
    assert a[1..] == FromInt(x / 2, width - 1) && b[1..] == FromInt(y / 2, width - 1);
  }

  /** Complementing every bit subtracts from minus one. */
  lemma {:induction false} FromIntComplement(x: int, width: nat)
    ensures FromInt(-1 - x, width) == Not(FromInt(x, width))
    decreases width
  {
    if width > 0 {
      FromIntComplement(x / 2, width - 1);
      assert (-1 - x) / 2 == -1 - x / 2;
      assert Not([x % 2 == 1] + FromInt(x / 2, width - 1)) == [x % 2 != 1] + Not(FromInt(x / 2, width - 1));
    }
  }

  lemma AddLowBits(x: int, y: int, width: nat)
    ensures FromInt(ToNat(FromInt(x, width)) + ToNat(FromInt(y, width)), width) == FromInt(x + y, width)
  {
    hide FromInt;
    hide ToNat;
    FromIntToNat(FromInt(x, width));
    FromIntToNat(FromInt(y, width));
    AddCongruent(ToNat(FromInt(x, width)), ToNat(FromInt(y, width)), 0, x, y, width);
  }

  lemma SubtractCongruent(x: int, y: int, x': int, y': int, width: nat)
    requires FromInt(x, width) == FromInt(x', width) && FromInt(y, width) == FromInt(y', width)
    ensures FromInt(x - y, width) == FromInt(x' - y', width)
  {
    hide FromInt;
    FromIntComplement(y, width);
    FromIntComplement(y', width);
    AddCongruent(x, -1 - y, 1, x', -1 - y', width);
    assert x + (-1 - y) + 1 == x - y && x' + (-1 - y') + 1 == x' - y';
  }

  lemma SubtractLowBits(x: int, y: int, width: nat)
    ensures FromInt(ToNat(FromInt(x, width)) - ToNat(FromInt(y, width)), width) == FromInt(x - y, width)
  {
    hide FromInt;
    hide ToNat;
    FromIntToNat(FromInt(x, width));
    FromIntToNat(FromInt(y, width));
    SubtractCongruent(ToNat(FromInt(x, width)), ToNat(FromInt(y, width)), x, y, width);
  }

  /** Multiples of a higher power of two have no low bits. */
  lemma {:induction false} FromIntMultiple(n: int, d: nat, width: nat)
    requires width <= d
    ensures FromInt(n * Pow2(d), width) == Zeros(width)
    decreases width
  {
    if width > 0 {
      HalveProduct(n, Pow2(d - 1));
      FromIntMultiple(n, d - 1, width - 1);
    }
  }

  lemma HalveProduct(n: int, p: int)
    ensures (n * (2 * p)) % 2 == 0 && (n * (2 * p)) / 2 == n * p
  {
    assert n * (2 * p) == 2 * (n * p);
  }

  lemma MultiplyLowBits(x: int, y: int, width: nat)
    ensures FromInt(ToNat(FromInt(x, width)) * ToNat(FromInt(y, width)), width) == FromInt(x * y, width)
  {
    hide FromInt;
    hide ToNat;
    var k := FromIntWraps(x, width);
    var l := FromIntWraps(y, width);
    var m, n := ToNat(FromInt(x, width)), ToNat(FromInt(y, width));
    ProductOfWrapped(x, m, k, y, n, l, Pow2(width));
    FromIntCongruent(x * y, m * n, width, k * y + l * m);
  }

  lemma ProductOfWrapped(x: int, m: int, k: int, y: int, n: int, l: int, p: int)
    requires x == m + k * p && y == n + l * p
    ensures x * y == m * n + (k * y + l * m) * p
  {
    calc {
      x * y;
      { Distribute(y, m, k * p); }
      m * y + (k * p) * y;
      { Distribute(m, n, l * p); }
      m * n + m * (l * p) + (k * p) * y;
      { assert m * (l * p) == (l * m) * p && (k * p) * y == (k * y) * p; }
      m * n + (l * m) * p + (k * y) * p;
      { Distribute(p, l * m, k * y); }
      m * n + (k * y + l * m) * p;
    }
  }

  // ----- modular arithmetic -----

  lemma SmallModulo(n: nat, m: nat)
    requires n < m
    ensures n % m == n
  {
  }

  lemma Distribute(k: int, x: int, y: int)
    ensures k * (x + y) == k * x + k * y
    ensures k * (x - y) == k * x - k * y
    ensures k * 0 == 0
  {
  }

  lemma MultipleBound(m: int, k: int)
    requires m > 0
    ensures k >= 1 ==> m * k >= m
    ensures k <= -1 ==> m * k <= -m
  {
  }

  lemma ModuloUnique(n: int, m: nat, q: int, r: int)
    requires m > 0 && n == q * m + r && 0 <= r < m
    ensures n % m == r && n / m == q
  {
    QuotientUnique(m, q, r, n / m, n % m);
  }

  lemma QuotientUnique(m: int, q: int, r: int, q': int, r': int)
    requires 0 <= r < m && 0 <= r' < m
    requires q * m + r == q' * m + r'
    ensures q == q' && r == r'
  {
    Distribute(m, q, q');
    MultipleBound(m, q - q');
  }

  lemma ModuloAddMultiple(n: int, m: nat, k: int)
    requires m > 0
    ensures (n + k * m) % m == n % m
  {
    ModuloUnique(n + k * m, m, n / m + k, n % m);
  }

  lemma ModuloOfSum(a: int, b: int, m: nat)
    requires m > 0
    ensures (a % m + b) % m == (a + b) % m
  {
    var k := a / m;
    assert a == k * m + a % m;
    ModuloAddMultiple(a % m + b, m, k);
  }

  lemma ModuloTwice(a: int, m: nat)
    requires m > 0
    ensures (a % m) % m == a % m
  {
    SmallModulo(a % m, m);
  }

  lemma HalveModulo(n: int, m: nat)
    requires m > 0
    ensures n % (2 * m) == n % 2 + 2 * ((n / 2) % m)
  {
    var h := n / 2;
    var q, r := h / m, h % m;
    assert n == n % 2 + 2 * h;
    assert h == q * m + r;
    assert n == q * (2 * m) + (n % 2 + 2 * r) by {
      assert 2 * (q * m) == q * (2 * m);
    }
    ModuloUnique(n, 2 * m, q, n % 2 + 2 * r);
  }

  // ----- two's complement -----

  /** The most-significant bit, false for the empty vector. */
  function SignBit(b: Bits): bool {
    b != [] && b[|b| - 1]
  }

  function ToInt(b: Bits): int {
    if SignBit(b) then ToNat(b) - Pow2(|b|) else ToNat(b)
  }

  lemma FromIntToInt(b: Bits)
    ensures FromInt(ToInt(b), |b|) == b
  {
    hide FromInt;
    hide ToNat;
    FromIntToNat(b);
    FromIntAddPow2(ToNat(b) - Pow2(|b|), |b|);
  }

  /** Integer division rounding toward zero. */
  function TruncDiv(a: int, b: int): int
    requires b != 0
  {
    if a >= 0 then (if b > 0 then a / b else -(a / -b))
    else (if b > 0 then -(-a / b) else -a / -b)
  }

  /** What integer division rounding toward zero leaves. */
  function TruncRem(a: int, b: int): int
    requires b != 0
  {
    a - TruncDiv(a, b) * b
  }

  lemma ProductSigns(x: int, y: int)
    ensures (-x) * y == -(x * y) && x * (-y) == -(x * y)
  {
  }

  /** The remainder is smaller than the divisor and takes the dividend's sign. */
  lemma TruncRemBounds(a: int, b: int)
    requires b != 0
    ensures -(if b > 0 then b else -b) < TruncRem(a, b) < (if b > 0 then b else -b)
    ensures a >= 0 ==> TruncRem(a, b) >= 0
    ensures a <= 0 ==> TruncRem(a, b) <= 0
  {
    var m, n := if a >= 0 then a else -a, if b > 0 then b else -b;
    var q, r := m / n, m % n;
    assert m == q * n + r;
    ProductSigns(q, n);
    ProductSigns(-q, n);
  }

  /** Two's complement negation at a fixed width. */
  function Negated(b: Bits): (r: Bits)
    ensures |r| == |b|
  {
    FromInt(0 - ToNat(b), |b|)
  }

  lemma ToNatNegated(b: Bits)
    ensures ToNat(Negated(b)) == if ToNat(b) == 0 then 0 else Pow2(|b|) - ToNat(b)
  {
    hide FromInt;
    hide ToNat;
    if ToNat(b) == 0 {
      ToNatFromSmall(0, |b|);
    } else {
      FromIntAddPow2(0 - ToNat(b), |b|);
      ToNatFromSmall(Pow2(|b|) - ToNat(b), |b|);
    }
  }

  lemma SignBitRange(b: Bits)
    requires b != []
    ensures SignBit(b) <==> ToNat(b) >= Pow2(|b| - 1)
    ensures Pow2(|b|) == 2 * Pow2(|b| - 1)
  {
  }

  /** The absolute value of the signed number, as an unsigned one. */
  function Magnitude(b: Bits): (r: Bits)
    ensures |r| == |b|
  {
    if SignBit(b) then Negated(b) else b
  }

  lemma MagnitudeIsAbsolute(b: Bits)
    ensures ToNat(Magnitude(b)) == if ToInt(b) >= 0 then ToInt(b) else -ToInt(b)
    ensures SignBit(b) <==> ToInt(b) < 0
    ensures ToInt(b) == 0 <==> ToNat(b) == 0
  {
    if SignBit(b) {
      SignBitRange(b);
      ToNatNegated(b);
    }
  }

  function Maximum(a: nat, b: nat): nat {
    if a >= b then a else b
  }
}
