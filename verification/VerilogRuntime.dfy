/** The two-state bit vectors of generated Rust simulators.

    A vector of width `w` is a `Bits` of length `w`; its storage holds the number
    it denotes in an integer of at least `w` bits whose unused high bits are
    clear. */
module VerilogRuntime {
  import opened Words
  import opened Fsm

  const USIZE_BITS: nat := 64

  // ----- storage -----

  datatype Arithmetic = AddOp | SubOp | MulOp | DivOp

  /** Bits in the storage that the generator picks for a width. Booleans compute in
      128 bits. */
  function Capacity(width: nat): (c: nat)
    ensures c >= width
  {
    if width <= 1 then 128
    else if width <= 8 then 8
    else if width <= 16 then 16
    else if width <= 32 then 32
    else if width <= 64 then 64
    else if width <= 128 then 128
    else width
  }

  /** Wrapping storage arithmetic; a zero divisor gives the largest value. */
  function Wrapping(operation: Arithmetic, a: nat, b: nat, capacity: nat): int {
    match operation
    case AddOp => (a + b) % Pow2(capacity)
    case SubOp => (a - b) % Pow2(capacity)
    case MulOp => (a * b) % Pow2(capacity)
    case DivOp => if b == 0 then Pow2(capacity) - 1 else a / b
  }

  /** The stored result keeps only the low `width` bits. */
  function StorageArithmetic(operation: Arithmetic, a: nat, b: nat, width: nat): (r: nat)
    ensures r < Pow2(width)
  {
    Wrapping(operation, a, b, Capacity(width)) % Pow2(width)
  }

  /** What the operation means at the declared width. */
  function WordArithmetic(operation: Arithmetic, a: nat, b: nat, width: nat): Bits {
    match operation
    case AddOp => FromInt(a + b, width)
    case SubOp => FromInt(a - b, width)
    case MulOp => FromInt(a * b, width)
    case DivOp => if b == 0 then Fill(width, true) else FromInt(a / b, width)
  }

  /** Wrapping at the storage width and masking is wrapping at the declared width. */
  lemma StorageIsExact(operation: Arithmetic, a: nat, b: nat, width: nat)
    ensures FromInt(StorageArithmetic(operation, a, b, width), width) == WordArithmetic(operation, a, b, width)
    ensures ToNat(WordArithmetic(operation, a, b, width)) == StorageArithmetic(operation, a, b, width)
  {
    hide FromInt;
    hide ToNat;
    hide Capacity;
    var c := Capacity(width);
    match operation {
      case AddOp => MaskAfterWrap(a + b, width, c);
      case SubOp => MaskAfterWrap(a - b, width, c);
      case MulOp => MaskAfterWrap(a * b, width, c);
      case DivOp =>
        if b == 0 {
          MaskAfterWrap(-1, width, c);
          ModuloUnique(-1, Pow2(c), -1, Pow2(c) - 1);
          ModuloUnique(-1, Pow2(width), -1, Pow2(width) - 1);
          ToNatOnes(width);
          FromIntToNat(Fill(width, true));
        } else {
          ToNatFromInt(a / b, width);
          FromIntToNat(FromInt(a / b, width));
        }
    }
  }

  lemma MaskAfterWrap(n: int, width: nat, capacity: nat)
    requires width <= capacity
    ensures (n % Pow2(capacity)) % Pow2(width) == n % Pow2(width)
    ensures ToNat(FromInt(n, width)) == n % Pow2(width)
    ensures FromInt(n % Pow2(width), width) == FromInt(n, width)
  {
    hide FromInt;
    hide ToNat;
    hide Pow2;
    Pow2Add(capacity - width, width);
    var big, small, q := Pow2(capacity), Pow2(width), n / Pow2(capacity);
    assert n == n % big + q * big;
    var k := q * Pow2(capacity - width);
    ProductAssociates(q, Pow2(capacity - width), small);
    assert n == n % big + k * small;
    ModuloAddMultiple(n % big, small, k);
    ToNatFromInt(n, width);
    FromIntToNat(FromInt(n, width));
  }

  lemma ProductAssociates(x: int, y: int, z: int)
    ensures x * (y * z) == (x * y) * z
  {
  }

  // ----- bits -----

  /** Bits past the top read as false. */
  function BitAt(b: Bits, i: nat): bool {
    i < |b| && b[i]
  }

  predicate Truthy(b: Bits) {
    exists i :: 0 <= i < |b| && b[i]
  }

  function Resized(b: Bits, width: nat, signed: bool): (r: Bits)
    ensures |r| == width
  {
    seq(width, i requires 0 <= i < width => if i < |b| then b[i] else signed && SignBit(b))
  }

  /** The value as a machine word; none when it does not fit. */
  function ToUsize(b: Bits): Option<nat> {
    if exists i :: USIZE_BITS <= i < |b| && b[i] then None
    else Some(ToNat(if |b| <= USIZE_BITS then b else b[..USIZE_BITS]))
  }

  lemma ToUsizeIsValue(b: Bits)
    ensures ToUsize(b).Some? ==> ToUsize(b).value == ToNat(b) < Pow2(USIZE_BITS)
    ensures ToUsize(b) == None ==> ToNat(b) >= Pow2(USIZE_BITS)
  {
    hide ToNat;
    hide Pow2;
    if |b| <= USIZE_BITS {
      Pow2Monotone(|b|, USIZE_BITS);
    } else {
      var high := b[USIZE_BITS..];
      ToNatSplit(b, USIZE_BITS);
      ToNatZeroIff(high);
      if exists i :: USIZE_BITS <= i < |b| && b[i] {
        var i :| USIZE_BITS <= i < |b| && b[i];
        assert high[i - USIZE_BITS];
        MultipleBound(Pow2(USIZE_BITS), ToNat(high));
      } else {
        assert forall j :: 0 <= j < |high| ==> !high[j];
        assert Pow2(USIZE_BITS) * 0 == 0;
      }
    }
  }

  // ----- arithmetic -----

  function Computed(operation: Arithmetic, a: Bits, b: Bits): (r: Bits)
    requires |a| == |b|
    ensures |r| == |a|
  {
    FromInt(StorageArithmetic(operation, ToNat(a), ToNat(b), |a|), |a|)
  }

  function Negate(b: Bits): (r: Bits)
    ensures |r| == |b|
  {
    Computed(SubOp, Zeros(|b|), b)
  }

  /** Divides magnitudes and negates when the signs differ. */
  function DivSigned(a: Bits, b: Bits): (r: Bits)
    requires |a| == |b|
    ensures |r| == |a|
  {
    if a == [] then []
    else
      var quotient := Computed(DivOp, if SignBit(a) then Negate(a) else a, if SignBit(b) then Negate(b) else b);
      if SignBit(a) != SignBit(b) then Negate(quotient) else quotient
  }

  lemma NegateIsNegated(b: Bits)
    ensures Negate(b) == Negated(b)
  {
    hide FromInt;
    hide ToNat;
    ToNatZeros(|b|);
    StorageIsExact(SubOp, 0, ToNat(b), |b|);
  }

  // ----- comparison -----

  datatype Order = Less | Same | Greater

  function OrderOf(a: int, b: int): Order {
    if a < b then Less else if a == b then Same else Greater
  }

  /** From the top bit down; the first difference decides. */
  method CmpUnsigned(a: Bits, b: Bits) returns (order: Order)
    ensures order == OrderOf(ToNat(a), ToNat(b))
  {
    hide ToNat;
    ghost var width := if |a| >= |b| then |a| else |b|;
    ghost var x, y := Resized(a, width, false), Resized(b, width, false);
    ZeroExtended(a, width);
    ZeroExtended(b, width);
    var index := if |a| >= |b| then |a| else |b|;
    while index > 0
      invariant 0 <= index <= width
      invariant forall i :: index <= i < width ==> x[i] == y[i]
    {
      index := index - 1;
      if BitAt(a, index) != BitAt(b, index) {
        FirstDifference(x, y, index);
        return if BitAt(b, index) then Less else Greater;
      }
    }
    assert x == y;
    return Same;
  }

  /** Different signs decide; otherwise the sign-extended bits do. */
  method CmpSigned(a: Bits, b: Bits) returns (order: Order)
    ensures order == OrderOf(ToInt(a), ToInt(b))
  {
    hide ToNat;
    var width := if |a| >= |b| then |a| else |b|;
    ghost var x, y := Resized(a, width, true), Resized(b, width, true);
    SignExtended(a, width);
    SignExtended(b, width);
    if width == 0 {
      return Same;
    }
    ToIntBySign(x);
    ToIntBySign(y);
    var leftSign, rightSign := Extended(a, width - 1), Extended(b, width - 1);
    if leftSign != rightSign {
      return if leftSign then Less else Greater;
    }
    var index := width;
    while index > 0
      invariant 0 <= index <= width
      invariant forall i :: index <= i < width ==> x[i] == y[i]
    {
      index := index - 1;
      if Extended(a, index) != Extended(b, index) {
        FirstDifference(x, y, index);
        return if Extended(b, index) then Less else Greater;
      }
    }
    assert x == y;
    return Same;
  }

  function Extended(b: Bits, i: nat): bool {
    if i < |b| then b[i] else SignBit(b)
  }

  lemma {:induction false} ZeroExtended(b: Bits, width: nat)
    requires |b| <= width
    ensures ToNat(Resized(b, width, false)) == ToNat(b)
  {
    hide ToNat;
    assert Resized(b, width, false) == b + Zeros(width - |b|);
    ToNatAppend(b, Zeros(width - |b|));
    ToNatZeros(width - |b|);
    assert Pow2(|b|) * 0 == 0;
  }

  lemma SignExtended(b: Bits, width: nat)
    requires |b| <= width
    ensures ToInt(Resized(b, width, true)) == ToInt(b)
    ensures SignBit(Resized(b, width, true)) == SignBit(b)
  {
    hide ToNat;
    hide Pow2;
    var r := Resized(b, width, true);
    if SignBit(b) {
      assert r == b + Fill(width - |b|, true);
      ToNatAppend(b, Fill(width - |b|, true));
      ToNatOnes(width - |b|);
      Pow2Add(|b|, width - |b|);
      Distribute(Pow2(|b|), Pow2(width - |b|), 1);
    } else {
      ZeroExtended(b, width);
      assert r == Resized(b, width, false);
    }
  }

  lemma ToIntBySign(b: Bits)
    requires b != []
    ensures SignBit(b) <==> ToInt(b) < 0
  {
  }

  /** The top difference decides the order of the numbers. */
  lemma FirstDifference(x: Bits, y: Bits, index: nat)
    requires |x| == |y| && index < |x| && x[index] != y[index]
    requires forall i :: index < i < |x| ==> x[i] == y[i]
    ensures ToNat(x) < ToNat(y) <==> y[index]
    ensures ToNat(x) != ToNat(y)
  {
    hide ToNat;
    hide Pow2;
    ghost var k := index + 1;
    ToNatSplit(x, k);
    ToNatSplit(y, k);
    assert x[k..] == y[k..];
    ToNatPrefix(x, index);
    ToNatPrefix(y, index);
  }

  // ----- moving bits -----

  /** Shifts saturate: a distance of the output width or more leaves only the fill. */
  function Shift(b: Bits, amount: Bits, width: nat, right: bool, arithmetic: bool): (r: Option<Bits>)
    ensures r.Some? ==> |r.value| == width
  {
    var fill := arithmetic && BitAt(b, if width == 0 then 0 else width - 1);
    match ToUsize(amount)
    case None => None
    case Some(distance) =>
      if distance >= width then Some(Fill(width, fill))
      else
        var value := Resized(b, width, false);
        Some(seq(width, i requires 0 <= i < width =>
          if right then (if i + distance < width then value[i + distance] else fill)
          else i >= distance && value[i - distance]))
  }

  function Concat(left: Bits, right: Bits): (r: Bits)
    ensures |r| == |left| + |right|
  {
    right + left
  }

  function Replicate(b: Bits, count: nat): (r: Bits)
    ensures |r| == |b| * count
  {
    if count == 0 then [] else Replicate(b, count - 1) + b
  }

  /** The bits from `offset` upwards. */
  function Select(b: Bits, offset: nat, width: nat): (r: Bits)
    ensures |r| == width
  {
    seq(width, i requires 0 <= i < width => BitAt(b, offset + i))
  }

  /** The vector with `width` bits replaced, or unchanged if they would not fit. */
  function Selected(b: Bits, offset: nat, width: nat, value: Bits): (r: Bits)
    ensures |r| == |b|
  {
    if offset + width > |b| then b
    else seq(|b|, i requires 0 <= i < |b| => if offset <= i < offset + width then BitAt(value, i - offset) else b[i])
  }

  /** A vector that is assigned in place. */
  class BitVector {
    var bits: Bits

    constructor (b: Bits)
      ensures bits == b
    {
      bits := b;
    }

    /** Bits past the top are dropped. */
    method SetBit(index: nat, value: bool)
      modifies this
      ensures bits == if index < |old(bits)| then old(bits)[index := value] else old(bits)
    {
      if index < |bits| {
        bits := bits[index := value];
      }
    }

    method AssignSelect(offset: nat, width: nat, value: Bits)
      modifies this
      ensures bits == Selected(old(bits), offset, width, value)
    {
      if offset + width > |bits| {
        return;
      }
      for i := 0 to width
        invariant bits == Selected(old(bits), offset, i, value)
      {
        SetBit(offset + i, BitAt(value, i));
      }
    }
  }

  lemma BitAfterAssign(b: Bits, offset: nat, value: Bits, i: nat)
    requires offset + |value| <= |b|
    ensures BitAt(Selected(b, offset, |value|, value), i) ==
      if offset <= i < offset + |value| then value[i - offset] else BitAt(b, i)
  {
    if i < |b| {
      assert Selected(b, offset, |value|, value)[i] ==
        if offset <= i < offset + |value| then BitAt(value, i - offset) else b[i];
    }
  }

  /** Assigning a slice and selecting it again. */
  lemma SelectAfterAssign(b: Bits, offset: nat, value: Bits)
    requires offset + |value| <= |b|
    ensures Select(Selected(b, offset, |value|, value), offset, |value|) == value
    ensures Selected(b, offset, |value|, Select(b, offset, |value|)) == b
  {
    var read := Select(Selected(b, offset, |value|, value), offset, |value|);
    forall i | 0 <= i < |value|
      ensures read[i] == value[i]
    {
      BitAfterAssign(b, offset, value, offset + i);
    }
    var again := Selected(b, offset, |value|, Select(b, offset, |value|));
    forall i | 0 <= i < |b|
      ensures again[i] == b[i]
    {
      BitAfterAssign(b, offset, Select(b, offset, |value|), i);
      if offset <= i < offset + |value| {
        var j := i - offset;
        assert Select(b, offset, |value|)[j] == BitAt(b, offset + j);
      }
    }
  }

  /** Other slices keep their value. */
  lemma SelectElsewhere(b: Bits, offset: nat, value: Bits, i: nat, n: nat)
    requires offset + |value| <= |b| && (i + n <= offset || offset + |value| <= i)
    ensures Select(Selected(b, offset, |value|, value), i, n) == Select(b, i, n)
  {
    forall k | 0 <= k < n
      ensures Select(Selected(b, offset, |value|, value), i, n)[k] == Select(b, i, n)[k]
    {
      BitAfterAssign(b, offset, value, i + k);
    }
  }
}
