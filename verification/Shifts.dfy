/** Shifts and rotations of fixed-width vectors, and the arithmetic they perform.
    They are generic so that one definition moves both values and bits. */
module Shifts {
  import opened Words

  /** Moves elements to higher indices; the vacated low ones become `fill`. */
  function ShiftUp<T>(x: seq<T>, distance: nat, fill: T): (r: seq<T>)
    ensures |r| == |x|
  {
    seq(|x|, i requires 0 <= i < |x| => if i < distance then fill else x[i - distance])
  }

  /** Moves elements to lower indices; the vacated high ones become `fill`. */
  function ShiftDown<T>(x: seq<T>, distance: nat, fill: T): (r: seq<T>)
    ensures |r| == |x|
  {
    seq(|x|, i requires 0 <= i < |x| => if i + distance < |x| then x[i + distance] else fill)
  }

  /** Element `i` of the result is element `i + distance` of `x`, cyclically. */
  function RotateBy<T>(x: seq<T>, distance: int): (r: seq<T>)
    ensures |r| == |x|
  {
    seq(|x|, i requires 0 <= i < |x| => x[(i + distance) % |x|])
  }

  // ----- two moves in a row -----

  lemma ShiftUpTwice<T>(x: seq<T>, d: nat, e: nat, fill: T)
    ensures ShiftUp(ShiftUp(x, d, fill), e, fill) == ShiftUp(x, d + e, fill)
  {
  }

  lemma ShiftDownTwice<T>(x: seq<T>, d: nat, e: nat, fill: T)
    ensures ShiftDown(ShiftDown(x, d, fill), e, fill) == ShiftDown(x, d + e, fill)
  {
  }

  lemma RotateTwice<T>(x: seq<T>, d: int, e: int)
    ensures RotateBy(RotateBy(x, d), e) == RotateBy(x, d + e)
  {
    forall i | 0 <= i < |x|
      ensures RotateBy(RotateBy(x, d), e)[i] == RotateBy(x, d + e)[i]
    {
      RotateTwiceAt(x, d, e, i);
    }
  }

  lemma RotateTwiceAt<T>(x: seq<T>, d: int, e: int, i: nat)
    requires i < |x|
    ensures RotateBy(RotateBy(x, d), e)[i] == RotateBy(x, d + e)[i]
  {
    IndexTwice(i, e, d, |x|);
    var j := (i + e) % |x|;
    assert RotateBy(RotateBy(x, d), e)[i] == RotateBy(x, d)[j];
    assert RotateBy(x, d)[j] == x[(j + d) % |x|];
  }

  lemma IndexTwice(i: int, d: int, e: int, n: nat)
    requires n > 0
    ensures 0 <= (i + d) % n < n
    ensures ((i + d) % n + e) % n == (i + (d + e)) % n
  {
    ModuloOfSum(i + d, e, n);
  }

  /** Only the distance modulo the width matters to a rotation. */
  lemma RotateModulo<T>(x: seq<T>, d: int, e: int)
    requires x != [] ==> d % |x| == e % |x|
    ensures RotateBy(x, d) == RotateBy(x, e)
  {
    forall i | 0 <= i < |x|
      ensures RotateBy(x, d)[i] == RotateBy(x, e)[i]
    {
      ModuloOfSum(d, i, |x|);
      ModuloOfSum(e, i, |x|);
    }
  }

  lemma NegateModulo(d: int, e: int, n: nat)
    requires n > 0 && d % n == e % n
    ensures (-d) % n == (-e) % n
  {
    var k := e / n - d / n;
    Distribute(n, e / n, d / n);
    assert -d == -e + k * n;
    ModuloAddMultiple(-e, n, k);
  }

  /** Rotating back by the same distance gives the vector back. */
  lemma RotateBack<T>(x: seq<T>, d: int)
    ensures RotateBy(RotateBy(x, d), -d) == x
  {
    calc {
      RotateBy(RotateBy(x, d), -d);
      { RotateTwice(x, d, -d); }
      RotateBy(x, d + -d);
      { assert d + -d == 0; }
      RotateBy(x, 0);
      { RotateByZero(x); }
      x;
    }
  }

  lemma RotateByZero<T>(x: seq<T>)
    ensures RotateBy(x, 0) == x
  {
    forall i | 0 <= i < |x|
      ensures RotateBy(x, 0)[i] == x[i]
    {
      SmallModulo(i, |x|);
    }
  }

  // ----- the arithmetic of shifts -----

  lemma ShiftUpIsMultiplication(b: Bits, d: nat)
    ensures ShiftUp(b, d, false) == FromInt(ToNat(b) * Pow2(d), |b|)
  {
    if d <= |b| {
      ShiftUpSplit(b, d);
      Pow2Add(d, |b| - d);
      var low, high := ToNat(b[..|b| - d]), ToNat(b[|b| - d..]);
      ShiftedSplit(ToNat(b), low, high, Pow2(d), Pow2(|b| - d));
      FromIntCongruent(ToNat(b) * Pow2(d), Pow2(d) * low, |b|, high);
      FromIntToNat(ShiftUp(b, d, false));
    } else {
      ShiftUpTooFar(b, d);
    }
  }

  lemma ShiftUpTooFar(b: Bits, d: nat)
    requires d > |b|
    ensures ShiftUp(b, d, false) == FromInt(ToNat(b) * Pow2(d), |b|)
  {
    assert ShiftUp(b, d, false) == Zeros(|b|);
    FromIntMultiple(ToNat(b), d, |b|);
  }

  lemma ShiftUpSplit(b: Bits, d: nat)
    requires d <= |b|
    ensures ToNat(ShiftUp(b, d, false)) == Pow2(d) * ToNat(b[..|b| - d])
    ensures ToNat(b) == ToNat(b[..|b| - d]) + Pow2(|b| - d) * ToNat(b[|b| - d..])
  {
    var low := b[..|b| - d];
    assert ShiftUp(b, d, false) == Zeros(d) + low;
    ToNatAppend(Zeros(d), low);
    ToNatZeros(d);
    ToNatSplit(b, |b| - d);
  }

  lemma ShiftedSplit(n: nat, low: nat, high: nat, p: nat, q: nat)
    requires n == low + q * high
    ensures n * p == p * low + high * (p * q)
  {
    Distribute(p, low, q * high);
    assert p * (q * high) == high * (p * q);
  }

  lemma ShiftDownIsDivision(b: Bits, d: nat)
    ensures ToNat(ShiftDown(b, d, false)) == ToNat(b) / Pow2(d)
  {
    var w := |b|;
    if d <= w {
      ShiftDownSplit(b, d);
      ModuloUnique(ToNat(b), Pow2(d), ToNat(b[d..]), ToNat(b[..d]));
    } else {
      assert ShiftDown(b, d, false) == Zeros(w);
      ToNatZeros(w);
      Pow2Monotone(w, d);
      ModuloUnique(ToNat(b), Pow2(d), 0, ToNat(b));
    }
  }

  lemma ShiftDownSplit(b: Bits, d: nat)
    requires d <= |b|
    ensures ToNat(ShiftDown(b, d, false)) == ToNat(b[d..])
    ensures ToNat(b) == ToNat(b[d..]) * Pow2(d) + ToNat(b[..d])
  {
    assert ShiftDown(b, d, false) == b[d..] + Zeros(d);
    ToNatAppend(b[d..], Zeros(d));
    ToNatZeros(d);
    Distribute(Pow2(|b| - d), 0, 0);
    ToNatSplit(b, d);
  }

  /** An arithmetic right shift is floor division of the signed value. */
  lemma ArithmeticShiftIsFloorDivision(b: Bits, d: nat)
    ensures ToInt(ShiftDown(b, d, SignBit(b))) == ToInt(b) / Pow2(d)
  {
    var w := |b|;
    if !SignBit(b) {
      ShiftDownIsDivision(b, d);
    } else {
      var shifted := ShiftDown(b, d, true);
      assert Not(shifted) == ShiftDown(Not(b), d, false);
      ShiftDownIsDivision(Not(b), d);
      ToNatNot(b);
      ToNatNot(shifted);
      assert SignBit(shifted);
      NegativeFloor(ToInt(b), Pow2(d));
    }
  }

  lemma NegativeFloor(n: int, p: nat)
    requires p > 0
    ensures n / p == -1 - (-1 - n) / p
  {
    var m := -1 - n;
    var q, r := m / p, m % p;
    assert m == q * p + r;
    assert n == (-1 - q) * p + (p - 1 - r);
    ModuloUnique(n, p, -1 - q, p - 1 - r);
  }
}
