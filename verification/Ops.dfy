/** Word-level circuit builders. Each appends gates to a machine and returns the
    values that carry the result. A contract says that the machine only grew, that
    it is still ordered, and what the returned word denotes in every settled
    assignment, for every width. */
module Ops {
  import opened Words
  import opened Fsm
  import opened Shifts

  datatype Comparison =
    Equals | NotEquals | LessThan | GreaterThan | LessThanOrEqual | GreaterThanOrEqual

  /** What a builder does to the drivers. */
  ghost predicate Extended(before: seq<Driver>, after: seq<Driver>) {
    Ordered(after) && Grows(before, after)
  }

  /** A word the machine can read. */
  ghost predicate Readable(fsm: FSM, values: seq<Value>)
    reads fsm`variables
  {
    AllKnown(values, |fsm.variables|)
  }

  function ConstantWord(b: Bits): (w: seq<Value>)
    ensures |w| == |b|
  {
    seq(|b|, i requires 0 <= i < |b| => Constant(b[i]))
  }

  lemma BitsOfConstantWord(s: Assignment, b: Bits)
    ensures BitsOf(s, ConstantWord(b)) == b
  {
  }

  lemma BitsOfSnoc(s: Assignment, values: seq<Value>, v: Value)
    ensures BitsOf(s, values + [v]) == BitsOf(s, values) + [Holds(s, v)]
  {
  }

  lemma WordSnoc(s: Assignment, values: seq<Value>, v: Value)
    ensures Word(s, values + [v]) == Word(s, values) + (if Holds(s, v) then Pow2(|values|) else 0)
  {
    BitsOfSnoc(s, values, v);
    ToNatSnoc(BitsOf(s, values), Holds(s, v));
  }

  // ----- single-bit builders -----

  method CreateXorGate(fsm: FSM, a: Value, b: Value) returns (r: Value)
    requires Ordered(fsm.variables) && Readable(fsm, [a, b])
    modifies fsm`variables
    ensures Extended(old(fsm.variables), fsm.variables) && r.Known(|fsm.variables|)
    ensures forall s :: Settled(fsm.variables, s) ==> Holds(s, r) == (Holds(s, a) != Holds(s, b))
  {
    assert [a, b][0] == a && [a, b][1] == b;
    if a.Constant? {
      return b.Xor(a.b);
    }
    if b.Constant? {
      return a.Xor(b.b);
    }
    if a == b {
      return Constant(false);
    }
    if a == b.Negate() {
      return Constant(true);
    }
    var aAndB := fsm.AddVariableGateBinary(And, a, b);
    var aOrB := fsm.AddVariableGateBinary(Or, a, b);
    r := fsm.AddVariableGateBinary(And, aOrB, aAndB.Negate());
  }

  method CreateFullAdder(fsm: FSM, a: Value, b: Value, carryIn: Value) returns (sum: Value, carryOut: Value)
    requires Ordered(fsm.variables) && Readable(fsm, [a, b, carryIn])
    modifies fsm`variables
    ensures Extended(old(fsm.variables), fsm.variables) && Readable(fsm, [sum, carryOut])
    ensures forall s :: Settled(fsm.variables, s) ==>
      2 * BitVal(Holds(s, carryOut)) + BitVal(Holds(s, sum)) ==
        BitVal(Holds(s, a)) + BitVal(Holds(s, b)) + BitVal(Holds(s, carryIn))
  {
    assert [a, b, carryIn][0] == a && [a, b, carryIn][1] == b && [a, b, carryIn][2] == carryIn;
    var aXorB := CreateXorGate(fsm, a, b);
    sum := CreateXorGate(fsm, aXorB, carryIn);
    var aAndB := fsm.AddVariableGateBinary(And, a, b);
    var aAndCarry := fsm.AddVariableGateBinary(And, a, carryIn);
    var bAndCarry := fsm.AddVariableGateBinary(And, b, carryIn);
    var carries := [aAndB, aAndCarry, bAndCarry];
    carryOut := fsm.AddVariableGate(Or, carries);
    forall s | Settled(fsm.variables, s)
      ensures Holds(s, carryOut) == (Holds(s, aAndB) || Holds(s, aAndCarry) || Holds(s, bAndCarry))
    {
      var bits := BitsOf(s, carries);
      assert bits[0] == Holds(s, aAndB) && bits[1] == Holds(s, aAndCarry) && bits[2] == Holds(s, bAndCarry);
    }
  }

  method CreateMuxGate(fsm: FSM, a: Value, b: Value, select: Value) returns (r: Value)
    requires Ordered(fsm.variables) && Readable(fsm, [a, b, select])
    modifies fsm`variables
    ensures Extended(old(fsm.variables), fsm.variables) && r.Known(|fsm.variables|)
    ensures forall s :: Settled(fsm.variables, s) ==>
      Holds(s, r) == if Holds(s, select) then Holds(s, b) else Holds(s, a)
  {
    assert [a, b, select][0] == a && [a, b, select][1] == b && [a, b, select][2] == select;
    if select.Constant? {
      return if select.b then b else a;
    }
    if a == b {
      return a;
    }
    if a == Constant(false) && b == Constant(true) {
      return select;
    }
    if a == Constant(true) && b == Constant(false) {
      return select.Negate();
    }
    if a == select {
      r := fsm.AddVariableGateBinary(And, b, select);
      return;
    }
    if b == select.Negate() {
      r := fsm.AddVariableGateBinary(And, a, select.Negate());
      return;
    }
    var selectA := fsm.AddVariableGateBinary(And, a, select.Negate());
    var selectB := fsm.AddVariableGateBinary(And, b, select);
    r := fsm.AddVariableGateBinary(Or, selectA, selectB);
  }

  // ----- addition and subtraction -----

  method CreateAddition(fsm: FSM, a: seq<Value>, b: seq<Value>) returns (sum: seq<Value>)
    requires |a| == |b| && Ordered(fsm.variables) && Readable(fsm, a) && Readable(fsm, b)
    modifies fsm`variables
    ensures Extended(old(fsm.variables), fsm.variables) && Readable(fsm, sum) && |sum| == |a|
    ensures forall s :: Settled(fsm.variables, s) ==>
      BitsOf(s, sum) == FromInt(Word(s, a) + Word(s, b), |a|)
  {
    hide FromInt;
    hide ToNat;
    ghost var start := fsm.variables;
    var carry := Constant(false);
    sum := [];
    for i := 0 to |a|
      invariant Extended(start, fsm.variables) && Readable(fsm, sum) && |sum| == i
      invariant carry.Known(|fsm.variables|)
      invariant forall s :: Settled(fsm.variables, s) ==>
        Word(s, sum) + (if Holds(s, carry) then Pow2(i) else 0) == ToNat(BitsOf(s, a)[..i]) + ToNat(BitsOf(s, b)[..i])
    {
      ghost var before, carryBefore := sum, carry;
      var bit, carryOut := CreateFullAdder(fsm, a[i], b[i], carry);
      assert [bit, carryOut][0] == bit && [bit, carryOut][1] == carryOut;
      sum := sum + [bit];
      carry := carryOut;
      forall s | Settled(fsm.variables, s)
        ensures Word(s, sum) + (if Holds(s, carry) then Pow2(i + 1) else 0)
          == ToNat(BitsOf(s, a)[..i + 1]) + ToNat(BitsOf(s, b)[..i + 1])
      {
        WordSnoc(s, before, bit);
        ToNatPrefix(BitsOf(s, a), i);
        ToNatPrefix(BitsOf(s, b), i);
        AdderStep(Pow2(i), Holds(s, a[i]), Holds(s, b[i]), Holds(s, carryBefore), Holds(s, bit), Holds(s, carry));
      }
    }
    forall s | Settled(fsm.variables, s)
      ensures BitsOf(s, sum) == FromInt(Word(s, a) + Word(s, b), |a|)
    {
      assert BitsOf(s, a)[..|a|] == BitsOf(s, a) && BitsOf(s, b)[..|a|] == BitsOf(s, b);
      DropCarry(BitsOf(s, sum), Word(s, a) + Word(s, b));
    }
  }

  lemma AdderStep(p: nat, a: bool, b: bool, c: bool, sum: bool, carry: bool)
    requires 2 * BitVal(carry) + BitVal(sum) == BitVal(a) + BitVal(b) + BitVal(c)
    ensures (if sum then p else 0) + (if carry then 2 * p else 0) ==
      (if a then p else 0) + (if b then p else 0) + (if c then p else 0)
  {
  }

  /** A carry out of the top (or a borrow) does not affect the low bits. */
  lemma DropCarry(b: Bits, total: int)
    requires total == ToNat(b) || total == ToNat(b) + Pow2(|b|) || total == ToNat(b) - Pow2(|b|)
    ensures b == FromInt(total, |b|)
  {
    FromIntToNat(b);
    FromIntAddPow2(ToNat(b), |b|);
    FromIntAddPow2(ToNat(b) - Pow2(|b|), |b|);
  }

  method CreateSubtraction(fsm: FSM, a: seq<Value>, b: seq<Value>) returns (difference: seq<Value>)
    requires |a| == |b| && Ordered(fsm.variables) && Readable(fsm, a) && Readable(fsm, b)
    modifies fsm`variables
    ensures Extended(old(fsm.variables), fsm.variables) && Readable(fsm, difference) && |difference| == |a|
    ensures forall s :: Settled(fsm.variables, s) ==>
      BitsOf(s, difference) == FromInt(Word(s, a) - Word(s, b), |a|)
  {
    hide FromInt;
    hide ToNat;
    ghost var start := fsm.variables;
    var carry := Constant(true);
    difference := [];
    for i := 0 to |a|
      invariant Extended(start, fsm.variables) && Readable(fsm, difference) && |difference| == i
      invariant carry.Known(|fsm.variables|)
      invariant forall s :: Settled(fsm.variables, s) ==>
        Word(s, difference) + (if Holds(s, carry) then Pow2(i) else 0) ==
          ToNat(BitsOf(s, a)[..i]) + Pow2(i) - ToNat(BitsOf(s, b)[..i])
    {
      ghost var before, carryBefore := difference, carry;
      var bit, carryOut := CreateFullAdder(fsm, a[i], b[i].Negate(), carry);
      assert [bit, carryOut][0] == bit && [bit, carryOut][1] == carryOut;
      difference := difference + [bit];
      carry := carryOut;
      forall s | Settled(fsm.variables, s)
        ensures Word(s, difference) + (if Holds(s, carry) then Pow2(i + 1) else 0) ==
          ToNat(BitsOf(s, a)[..i + 1]) + Pow2(i + 1) - ToNat(BitsOf(s, b)[..i + 1])
      {
        WordSnoc(s, before, bit);
        ToNatPrefix(BitsOf(s, a), i);
        ToNatPrefix(BitsOf(s, b), i);
        NegateHolds(s, b[i]);
        AdderStep(Pow2(i), Holds(s, a[i]), !Holds(s, b[i]), Holds(s, carryBefore), Holds(s, bit), Holds(s, carry));
      }
    }
    forall s | Settled(fsm.variables, s)
      ensures BitsOf(s, difference) == FromInt(Word(s, a) - Word(s, b), |a|)
    {
      assert BitsOf(s, a)[..|a|] == BitsOf(s, a) && BitsOf(s, b)[..|a|] == BitsOf(s, b);
      DropCarry(BitsOf(s, difference), Word(s, a) - Word(s, b));
    }
  }

  // ----- words -----

  method CreateMux(fsm: FSM, a: seq<Value>, b: seq<Value>, select: Value) returns (r: seq<Value>)
    requires |a| == |b| && Ordered(fsm.variables) && Readable(fsm, a) && Readable(fsm, b)
    requires select.Known(|fsm.variables|)
    modifies fsm`variables
    ensures Extended(old(fsm.variables), fsm.variables) && Readable(fsm, r) && |r| == |a|
    ensures forall s :: Settled(fsm.variables, s) ==>
      BitsOf(s, r) == if Holds(s, select) then BitsOf(s, b) else BitsOf(s, a)
  {
    ghost var start := fsm.variables;
    r := [];
    for i := 0 to |a|
      invariant Extended(start, fsm.variables) && Readable(fsm, r) && |r| == i
      invariant forall s, j :: Settled(fsm.variables, s) && 0 <= j < i ==>
        Holds(s, r[j]) == if Holds(s, select) then Holds(s, b[j]) else Holds(s, a[j])
    {
      assert [a[i], b[i], select][0] == a[i] && [a[i], b[i], select][1] == b[i];
      var bit := CreateMuxGate(fsm, a[i], b[i], select);
      r := r + [bit];
    }
  }

  method CreateEquals(fsm: FSM, a: seq<Value>, b: seq<Value>) returns (equals: Value)
    requires |a| == |b| && Ordered(fsm.variables) && Readable(fsm, a) && Readable(fsm, b)
    modifies fsm`variables
    ensures Extended(old(fsm.variables), fsm.variables) && equals.Known(|fsm.variables|)
    ensures forall s :: Settled(fsm.variables, s) ==> Holds(s, equals) == (BitsOf(s, a) == BitsOf(s, b))
  {
    ghost var start := fsm.variables;
    equals := Constant(true);
    for i := 0 to |a|
      invariant Extended(start, fsm.variables) && equals.Known(|fsm.variables|)
      invariant forall s :: Settled(fsm.variables, s) ==>
        Holds(s, equals) == forall j :: 0 <= j < i ==> Holds(s, a[j]) == Holds(s, b[j])
    {
      var bitsDiffer := CreateXorGate(fsm, a[i], b[i]);
      equals := fsm.AddVariableGateBinary(And, equals, bitsDiffer.Negate());
    }
    forall s | Settled(fsm.variables, s)
      ensures Holds(s, equals) == (BitsOf(s, a) == BitsOf(s, b))
    {
      BitsEqual(s, a, b);
    }
  }

  lemma BitsEqual(s: Assignment, a: seq<Value>, b: seq<Value>)
    requires |a| == |b|
    ensures BitsOf(s, a) == BitsOf(s, b) <==> forall j :: 0 <= j < |a| ==> Holds(s, a[j]) == Holds(s, b[j])
  {
    if BitsOf(s, a) == BitsOf(s, b) {
      forall j | 0 <= j < |a|
        ensures Holds(s, a[j]) == Holds(s, b[j])
      {
        assert BitsOf(s, a)[j] == BitsOf(s, b)[j];
      }
    }
  }

  method CreateLessThan(fsm: FSM, a: seq<Value>, b: seq<Value>) returns (lessThan: Value)
    requires |a| == |b| && Ordered(fsm.variables) && Readable(fsm, a) && Readable(fsm, b)
    modifies fsm`variables
    ensures Extended(old(fsm.variables), fsm.variables) && lessThan.Known(|fsm.variables|)
    ensures forall s :: Settled(fsm.variables, s) ==> Holds(s, lessThan) == (Word(s, a) < Word(s, b))
  {
    hide ToNat;
    hide Pow2;
    ghost var start := fsm.variables;
    lessThan := Constant(false);
    for i := 0 to |a|
      invariant Extended(start, fsm.variables) && lessThan.Known(|fsm.variables|)
      invariant forall s :: Settled(fsm.variables, s) ==>
        Holds(s, lessThan) == (ToNat(BitsOf(s, a)[..i]) < ToNat(BitsOf(s, b)[..i]))
    {
      var bitsDiffer := CreateXorGate(fsm, a[i], b[i]);
      var lowerBitsLess := fsm.AddVariableGateBinary(And, bitsDiffer.Negate(), lessThan);
      var currentBitLess := fsm.AddVariableGateBinary(And, a[i].Negate(), b[i]);
      lessThan := fsm.AddVariableGateBinary(Or, lowerBitsLess, currentBitLess);
      forall s | Settled(fsm.variables, s)
        ensures Holds(s, lessThan) == (ToNat(BitsOf(s, a)[..i + 1]) < ToNat(BitsOf(s, b)[..i + 1]))
      {
        LessPrefix(BitsOf(s, a), BitsOf(s, b), i);
      }
    }
    forall s | Settled(fsm.variables, s)
      ensures Holds(s, lessThan) == (Word(s, a) < Word(s, b))
    {
      assert BitsOf(s, a)[..|a|] == BitsOf(s, a) && BitsOf(s, b)[..|a|] == BitsOf(s, b);
    }
  }

  lemma LessPrefix(a: Bits, b: Bits, i: nat)
    requires i < |a| && i < |b|
    ensures ToNat(a[..i + 1]) < ToNat(b[..i + 1]) <==>
      (a[i] == b[i] && ToNat(a[..i]) < ToNat(b[..i])) || (!a[i] && b[i])
  {
    ToNatPrefix(a, i);
    ToNatPrefix(b, i);
  }

  function Compare(comparison: Comparison, a: int, b: int): bool {
    match comparison
    case Equals => a == b
    case NotEquals => a != b
    case LessThan => a < b
    case GreaterThan => a > b
    case LessThanOrEqual => a <= b
    case GreaterThanOrEqual => a >= b
  }

  method CreateComparison(fsm: FSM, a: seq<Value>, b: seq<Value>, comparison: Comparison) returns (r: Value)
    requires |a| == |b| && Ordered(fsm.variables) && Readable(fsm, a) && Readable(fsm, b)
    modifies fsm`variables
    ensures Extended(old(fsm.variables), fsm.variables) && r.Known(|fsm.variables|)
    ensures forall s :: Settled(fsm.variables, s) ==>
      Holds(s, r) == Compare(comparison, Word(s, a), Word(s, b))
  {
    match comparison
    case Equals =>
      r := CreateEquals(fsm, a, b);
      WordsEqual(a, b);
    case NotEquals =>
      r := CreateEquals(fsm, a, b);
      r := r.Negate();
      WordsEqual(a, b);
    case LessThan =>
      r := CreateLessThan(fsm, a, b);
    case GreaterThan =>
      r := CreateLessThan(fsm, b, a);
    case LessThanOrEqual =>
      r := CreateLessThan(fsm, b, a);
      r := r.Negate();
    case GreaterThanOrEqual =>
      r := CreateLessThan(fsm, a, b);
      r := r.Negate();
  }

  lemma WordsEqual(a: seq<Value>, b: seq<Value>)
    requires |a| == |b|
    ensures forall s :: (Word(s, a) == Word(s, b)) == (BitsOf(s, a) == BitsOf(s, b))
  {
    forall s: Assignment | Word(s, a) == Word(s, b)
      ensures BitsOf(s, a) == BitsOf(s, b)
    {
      ToNatInjective(BitsOf(s, a), BitsOf(s, b));
    }
  }

  // ----- multiplication -----

  /** Row `shift` of the schoolbook product. */
  method PartialProduct(fsm: FSM, a: seq<Value>, b: Value, shift: nat) returns (row: seq<Value>)
    requires Ordered(fsm.variables) && Readable(fsm, a) && b.Known(|fsm.variables|)
    modifies fsm`variables
    ensures Extended(old(fsm.variables), fsm.variables) && Readable(fsm, row) && |row| == |a|
    ensures forall s :: Settled(fsm.variables, s) ==>
      BitsOf(s, row) == if Holds(s, b) then ShiftUp(BitsOf(s, a), shift, false) else Zeros(|a|)
  {
    ghost var start := fsm.variables;
    row := [];
    for i := 0 to |a|
      invariant Extended(start, fsm.variables) && Readable(fsm, row) && |row| == i
      invariant forall s, j :: Settled(fsm.variables, s) && 0 <= j < i ==>
        Holds(s, row[j]) == (j >= shift && Holds(s, a[j - shift]) && Holds(s, b))
    {
      var bit := Constant(false);
      if i >= shift {
        bit := fsm.AddVariableGateBinary(And, a[i - shift], b);
      }
      row := row + [bit];
    }
  }

  method CreateMultiplication(fsm: FSM, a: seq<Value>, b: seq<Value>) returns (product: seq<Value>)
    requires |a| == |b| && Ordered(fsm.variables) && Readable(fsm, a) && Readable(fsm, b)
    modifies fsm`variables
    ensures Extended(old(fsm.variables), fsm.variables) && Readable(fsm, product) && |product| == |a|
    ensures forall s :: Settled(fsm.variables, s) ==>
      BitsOf(s, product) == FromInt(Word(s, a) * Word(s, b), |a|)
  {
    hide FromInt;
    hide ToNat;
    hide ShiftUp;
    ghost var start := fsm.variables;
    product := ConstantWord(Zeros(|a|));
    NoProduct(a, b);
    for shift := 0 to |b|
      invariant Extended(start, fsm.variables) && Readable(fsm, product) && |product| == |a|
      invariant forall s :: Settled(fsm.variables, s) ==>
        BitsOf(s, product) == FromInt(Word(s, a) * ToNat(BitsOf(s, b)[..shift]), |a|)
    {
      ghost var before := product;
      var row := PartialProduct(fsm, a, b[shift], shift);
      product := CreateAddition(fsm, product, row);
      forall s | Settled(fsm.variables, s)
        ensures BitsOf(s, product) == FromInt(Word(s, a) * ToNat(BitsOf(s, b)[..shift + 1]), |a|)
      {
        RowIsProduct(BitsOf(s, a), Holds(s, b[shift]), shift, BitsOf(s, row));
        ProductPrefix(Word(s, a), BitsOf(s, b), shift);
        AddLowBits(Word(s, a) * ToNat(BitsOf(s, b)[..shift]),
          Word(s, a) * (if Holds(s, b[shift]) then Pow2(shift) else 0), |a|);
      }
    }
    forall s | Settled(fsm.variables, s)
      ensures BitsOf(s, product) == FromInt(Word(s, a) * Word(s, b), |a|)
    {
      assert BitsOf(s, b)[..|b|] == BitsOf(s, b);
    }
  }

  lemma NoProduct(a: seq<Value>, b: seq<Value>)
    ensures forall s ::
      BitsOf(s, ConstantWord(Zeros(|a|))) == FromInt(Word(s, a) * ToNat(BitsOf(s, b)[..0]), |a|)
  {
    hide FromInt;
    hide ToNat;
    forall s: Assignment
      ensures BitsOf(s, ConstantWord(Zeros(|a|))) == FromInt(Word(s, a) * ToNat(BitsOf(s, b)[..0]), |a|)
    {
      BitsOfConstantWord(s, Zeros(|a|));
      EmptyProduct(BitsOf(s, a), BitsOf(s, b)[..0]);
    }
  }

  lemma EmptyProduct(a: Bits, b: Bits)
    requires b == []
    ensures Zeros(|a|) == FromInt(ToNat(a) * ToNat(b), |a|)
  {
    hide FromInt;
    assert ToNat(b) == 0;
    RowIsProduct(a, false, 0, Zeros(|a|));
  }

  lemma ProductPrefix(a: nat, b: Bits, shift: nat)
    requires shift < |b|
    ensures a * ToNat(b[..shift + 1]) == a * ToNat(b[..shift]) + a * (if b[shift] then Pow2(shift) else 0)
  {
    hide *;
    ToNatPrefix(b, shift);
    Distribute(a, ToNat(b[..shift]), if b[shift] then Pow2(shift) else 0);
  }

  lemma RowIsProduct(a: Bits, bit: bool, shift: nat, row: Bits)
    requires row == if bit then ShiftUp(a, shift, false) else Zeros(|a|)
    ensures row == FromInt(ToNat(a) * (if bit then Pow2(shift) else 0), |a|)
  {
    hide FromInt;
    hide ToNat;
    if bit {
      ShiftUpIsMultiplication(a, shift);
    } else {
      ToNatZeros(|a|);
      FromIntToNat(row);
      Distribute(ToNat(a), 0, 0);
    }
  }

  // ----- division -----

  /** One round of restoring division: shift in a dividend bit, and subtract the
      divisor if it fits. */
  method DivisionStep(fsm: FSM, shifted: seq<Value>, divisor: seq<Value>)
    returns (subtract: Value, remainder: seq<Value>)
    requires |shifted| == |divisor| && Ordered(fsm.variables) && Readable(fsm, shifted) && Readable(fsm, divisor)
    modifies fsm`variables
    ensures Extended(old(fsm.variables), fsm.variables)
    ensures subtract.Known(|fsm.variables|) && Readable(fsm, remainder) && |remainder| == |shifted|
    ensures forall s :: Settled(fsm.variables, s) ==>
      && Holds(s, subtract) == (Word(s, shifted) >= Word(s, divisor))
      && Word(s, remainder) == Word(s, shifted) - if Holds(s, subtract) then Word(s, divisor) else 0
  {
    subtract := CreateComparison(fsm, shifted, divisor, GreaterThanOrEqual);
    var difference := CreateSubtraction(fsm, shifted, divisor);
    remainder := CreateMux(fsm, shifted, difference, subtract);
    forall s | Settled(fsm.variables, s) && Holds(s, subtract)
      ensures Word(s, remainder) == Word(s, shifted) - Word(s, divisor)
    {
      ToNatFromSmall(Word(s, shifted) - Word(s, divisor), |shifted|);
    }
  }

  /** After the dividend bits from some index upwards have been consumed: `n` is
      the number they denote, `q` the quotient bits so far, `r` the remainder. */
  ghost predicate Dividing(n: nat, d: nat, q: Bits, r: nat) {
    if d > 0 then n == ToNat(q) * d + r && r < d
    else q == Fill(|q|, true)
  }

  method CreateUnsignedDivision(fsm: FSM, dividend: seq<Value>, divisor: seq<Value>)
    returns (quotient: seq<Value>)
    requires |dividend| == |divisor| && Ordered(fsm.variables)
    requires Readable(fsm, dividend) && Readable(fsm, divisor)
    modifies fsm`variables
    ensures Extended(old(fsm.variables), fsm.variables) && Readable(fsm, quotient) && |quotient| == |dividend|
    ensures forall s :: Settled(fsm.variables, s) ==>
      BitsOf(s, quotient) == Quotient(BitsOf(s, dividend), BitsOf(s, divisor))
  {
    hide Dividing;
    hide FromInt;
    hide Quotient;
    ghost var start := fsm.variables;
    var width := |dividend|;
    quotient := ConstantWord(Zeros(width));
    var remainder := ConstantWord(Zeros(width + 1));
    var extendedDivisor := divisor + [Constant(false)];
    DivisionStart(dividend, divisor, quotient, remainder);
    for index := width downto 0
      invariant Extended(start, fsm.variables)
      invariant Readable(fsm, quotient) && |quotient| == width
      invariant Readable(fsm, remainder) && |remainder| == width + 1
      invariant forall s :: Settled(fsm.variables, s) ==>
        Dividing(ToNat(BitsOf(s, dividend)[index..]), Word(s, divisor), BitsOf(s, quotient)[index..], Word(s, remainder))
    {
      ghost var quotientBefore, remainderBefore := quotient, remainder;
      var shifted := [dividend[index]] + remainder[..width];
      var subtract, rest := DivisionStep(fsm, shifted, extendedDivisor);
      remainder := rest;
      quotient := quotient[index := subtract];
      forall s | Settled(fsm.variables, s)
        ensures Dividing(ToNat(BitsOf(s, dividend)[index..]), Word(s, divisor), BitsOf(s, quotient)[index..], Word(s, remainder))
      {
        WordSnoc(s, divisor, Constant(false));
        ShiftIn(s, dividend[index], remainderBefore);
        assert BitsOf(s, quotient) == BitsOf(s, quotientBefore)[index := Holds(s, subtract)];
        DividingStep(BitsOf(s, dividend), Word(s, divisor), BitsOf(s, quotientBefore), index, Word(s, remainderBefore),
          Holds(s, subtract), Word(s, shifted), Word(s, remainder));
      }
    }
    forall s | Settled(fsm.variables, s)
      ensures BitsOf(s, quotient) == Quotient(BitsOf(s, dividend), BitsOf(s, divisor))
    {
      assert BitsOf(s, dividend)[0..] == BitsOf(s, dividend) && BitsOf(s, quotient)[0..] == BitsOf(s, quotient);
      DividingEnd(BitsOf(s, dividend), BitsOf(s, divisor), BitsOf(s, quotient), Word(s, remainder));
    }
  }

  /** Unsigned division of equal-width vectors; dividing by zero gives all ones. */
  function Quotient(a: Bits, b: Bits): (q: Bits)
    ensures |q| == |a|
  {
    hide ToNat;
    hide Pow2;
    if ToNat(b) == 0 then Fill(|a|, true) else FromInt(ToNat(a) / ToNat(b), |a|)
  }

  lemma DivisionStart(dividend: seq<Value>, divisor: seq<Value>, quotient: seq<Value>, remainder: seq<Value>)
    requires |quotient| == |dividend| && remainder == ConstantWord(Zeros(|dividend| + 1))
    ensures forall s ::
      Dividing(ToNat(BitsOf(s, dividend)[|dividend|..]), Word(s, divisor), BitsOf(s, quotient)[|dividend|..], Word(s, remainder))
  {
    forall s: Assignment
      ensures Dividing(ToNat(BitsOf(s, dividend)[|dividend|..]), Word(s, divisor), BitsOf(s, quotient)[|dividend|..], Word(s, remainder))
    {
      BitsOfConstantWord(s, Zeros(|dividend| + 1));
      ToNatZeros(|dividend| + 1);
      assert BitsOf(s, dividend)[|dividend|..] == [] && BitsOf(s, quotient)[|dividend|..] == [];
    }
  }

  /** Dropping a zero top bit and shifting a bit in at the bottom. */
  lemma ShiftIn(s: Assignment, bit: Value, remainder: seq<Value>)
    requires remainder != []
    ensures Word(s, remainder) < Pow2(|remainder| - 1) ==>
      Word(s, [bit] + remainder[..|remainder| - 1]) == BitVal(Holds(s, bit)) + 2 * Word(s, remainder)
  {
    var b := BitsOf(s, remainder);
    BitsOfShiftIn(s, bit, remainder);
    ToNatCons(Holds(s, bit), b[..|b| - 1]);
    DropZeroTop(b);
  }

  lemma BitsOfShiftIn(s: Assignment, bit: Value, remainder: seq<Value>)
    requires remainder != []
    ensures BitsOf(s, [bit] + remainder[..|remainder| - 1]) ==
      [Holds(s, bit)] + BitsOf(s, remainder)[..|remainder| - 1]
  {
  }

  lemma DropZeroTop(b: Bits)
    requires b != []
    ensures ToNat(b) < Pow2(|b| - 1) ==> ToNat(b[..|b| - 1]) == ToNat(b)
  {
  }

  lemma DividingStep(n: Bits, d: nat, q: Bits, index: nat, r: nat, subtract: bool, shifted: nat, rest: nat)
    requires index < |n| == |q| && d < Pow2(|n|)
    requires Dividing(ToNat(n[index + 1..]), d, q[index + 1..], r)
    requires r < Pow2(|n|) ==> shifted == BitVal(n[index]) + 2 * r
    requires subtract == (shifted >= d) && rest == shifted - if subtract then d else 0
    ensures Dividing(ToNat(n[index..]), d, q[index := subtract][index..], rest)
  {
    var high, low := n[index + 1..], q[index + 1..];
    assert n[index..] == [n[index]] + high;
    assert q[index := subtract][index..] == [subtract] + low;
    if d > 0 {
      ToNatCons(n[index], high);
      ToNatCons(subtract, low);
      QuotientStep(ToNat(high), d, ToNat(low), r, n[index], subtract);
    } else {
      assert [subtract] + low == Fill(|low| + 1, true);
    }
  }

  lemma QuotientStep(n: nat, d: nat, q: nat, r: nat, bit: bool, subtract: bool)
    requires n == q * d + r
    ensures BitVal(bit) + 2 * n ==
      (BitVal(subtract) + 2 * q) * d + (BitVal(bit) + 2 * r - if subtract then d else 0)
  {
    assert (2 * q) * d == 2 * (q * d);
    Distribute(d, BitVal(subtract), 2 * q);
    assert d * BitVal(subtract) == if subtract then d else 0;
  }

  lemma DividingEnd(a: Bits, b: Bits, q: Bits, r: nat)
    requires |q| == |a| && Dividing(ToNat(a), ToNat(b), q, r)
    ensures q == Quotient(a, b)
  {
    if ToNat(b) > 0 {
      ModuloUnique(ToNat(a), ToNat(b), ToNat(q), r);
      FromIntToNat(q);
    }
  }

  // ----- signed division and remainders -----

  method CreateConditionalNegation(fsm: FSM, value: seq<Value>, negate: Value) returns (r: seq<Value>)
    requires Ordered(fsm.variables) && Readable(fsm, value) && negate.Known(|fsm.variables|)
    modifies fsm`variables
    ensures Extended(old(fsm.variables), fsm.variables) && Readable(fsm, r) && |r| == |value|
    ensures forall s :: Settled(fsm.variables, s) ==>
      BitsOf(s, r) == if Holds(s, negate) then Negated(BitsOf(s, value)) else BitsOf(s, value)
  {
    hide FromInt;
    hide ToNat;
    hide Negated;
    var zero := ConstantWord(Zeros(|value|));
    var negated := CreateSubtraction(fsm, zero, value);
    r := CreateMux(fsm, value, negated, negate);
    forall s | Settled(fsm.variables, s)
      ensures BitsOf(s, negated) == Negated(BitsOf(s, value))
    {
      BitsOfConstantWord(s, Zeros(|value|));
      SubtractFromZero(BitsOf(s, zero), BitsOf(s, value), BitsOf(s, negated));
    }
  }

  lemma SubtractFromZero(zero: Bits, b: Bits, r: Bits)
    requires zero == Zeros(|b|)
    requires r == FromInt(ToNat(zero) - ToNat(b), |b|)
    ensures r == Negated(b)
  {
    ToNatZeros(|b|);
  }

  /** Signed division rounding toward zero, at a fixed width. Dividing by zero
      gives minus one for a dividend that is not negative, and one otherwise. */
  function SignedQuotient(a: Bits, b: Bits): (q: Bits)
    ensures |q| == |a|
  {
    FromInt(SignedQuotientInt(ToInt(a), ToInt(b)), |a|)
  }

  function SignedQuotientInt(a: int, b: int): int {
    if b != 0 then TruncDiv(a, b) else if a < 0 then 1 else -1
  }

  /** Dividing magnitudes and negating when the signs differ. */
  lemma SignAndMagnitudeDivision(a: Bits, b: Bits)
    requires |a| == |b| && a != []
    ensures SignedQuotient(a, b) ==
      var q := Quotient(Magnitude(a), Magnitude(b));
      if SignBit(a) != SignBit(b) then Negated(q) else q
  {
    hide FromInt;
    hide ToNat;
    var q := Quotient(Magnitude(a), Magnitude(b));
    MagnitudeIsAbsolute(a);
    MagnitudeIsAbsolute(b);
    FromIntToNat(q);
    if ToInt(b) == 0 {
      ToNatOnes(|a|);
      FromIntAddPow2(-1, |a|);
      FromIntAddPow2(0 - ToNat(q), |a|);
    } else {
      MagnitudeQuotient(a, b);
    }
  }

  lemma MagnitudeQuotient(a: Bits, b: Bits)
    requires |a| == |b| && ToInt(b) != 0
    ensures ToNat(Magnitude(b)) > 0
    ensures ToNat(Quotient(Magnitude(a), Magnitude(b))) == ToNat(Magnitude(a)) / ToNat(Magnitude(b))
    ensures TruncDiv(ToInt(a), ToInt(b)) ==
      var q := ToNat(Magnitude(a)) / ToNat(Magnitude(b));
      if SignBit(a) != SignBit(b) then -q else q
  {
    MagnitudeIsAbsolute(a);
    MagnitudeIsAbsolute(b);
    QuotientFits(Magnitude(a), Magnitude(b));
  }

  lemma QuotientFits(a: Bits, b: Bits)
    requires ToNat(b) > 0
    ensures ToNat(Quotient(a, b)) == ToNat(a) / ToNat(b)
  {
    QuotientBound(ToNat(a), ToNat(b));
    ToNatFromSmall(ToNat(a) / ToNat(b), |a|);
  }

  lemma QuotientBound(m: nat, n: nat)
    requires n > 0
    ensures 0 <= m / n <= m
  {
    AtLeast(m / n, n);
    assert m == (m / n) * n + m % n;
  }

  lemma AtLeast(q: nat, n: nat)
    requires n > 0
    ensures q * n >= q
  {
  }

  lemma EmptyQuotient()
    ensures forall s: Assignment :: BitsOf(s, []) == SignedQuotient([], [])
  {
  }

  method CreateSignedDivision(fsm: FSM, dividend: seq<Value>, divisor: seq<Value>) returns (quotient: seq<Value>)
    requires |dividend| == |divisor| && Ordered(fsm.variables)
    requires Readable(fsm, dividend) && Readable(fsm, divisor)
    modifies fsm`variables
    ensures Extended(old(fsm.variables), fsm.variables) && Readable(fsm, quotient) && |quotient| == |dividend|
    ensures forall s :: Settled(fsm.variables, s) ==>
      BitsOf(s, quotient) == SignedQuotient(BitsOf(s, dividend), BitsOf(s, divisor))
  {
    hide FromInt;
    hide ToNat;
    hide Quotient;
    hide SignedQuotient;
    if dividend == [] {
      EmptyQuotient();
      return [];
    }
    var dividendSign := dividend[|dividend| - 1];
    var divisorSign := divisor[|divisor| - 1];
    var dividendMagnitude := CreateConditionalNegation(fsm, dividend, dividendSign);
    var divisorMagnitude := CreateConditionalNegation(fsm, divisor, divisorSign);
    var magnitude := CreateUnsignedDivision(fsm, dividendMagnitude, divisorMagnitude);
    assert [dividendSign, divisorSign][0] == dividendSign;
    var quotientSign := CreateXorGate(fsm, dividendSign, divisorSign);
    quotient := CreateConditionalNegation(fsm, magnitude, quotientSign);
    forall s | Settled(fsm.variables, s)
      ensures BitsOf(s, quotient) == SignedQuotient(BitsOf(s, dividend), BitsOf(s, divisor))
    {
      SignAndMagnitudeDivision(BitsOf(s, dividend), BitsOf(s, divisor));
    }
  }

  /** The remainder of unsigned division; the dividend if the divisor is zero. */
  function Remainder(a: Bits, b: Bits): (r: Bits)
    ensures |r| == |a|
  {
    if ToNat(b) == 0 then a else FromInt(ToNat(a) % ToNat(b), |a|)
  }

  method CreateUnsignedRemainder(fsm: FSM, dividend: seq<Value>, divisor: seq<Value>) returns (r: seq<Value>)
    requires |dividend| == |divisor| && Ordered(fsm.variables)
    requires Readable(fsm, dividend) && Readable(fsm, divisor)
    modifies fsm`variables
    ensures Extended(old(fsm.variables), fsm.variables) && Readable(fsm, r) && |r| == |dividend|
    ensures forall s :: Settled(fsm.variables, s) ==>
      BitsOf(s, r) == Remainder(BitsOf(s, dividend), BitsOf(s, divisor))
  {
    hide FromInt;
    hide ToNat;
    hide Quotient;
    hide Remainder;
    var quotient := CreateUnsignedDivision(fsm, dividend, divisor);
    var product := CreateMultiplication(fsm, quotient, divisor);
    r := CreateSubtraction(fsm, dividend, product);
    forall s | Settled(fsm.variables, s)
      ensures BitsOf(s, r) == Remainder(BitsOf(s, dividend), BitsOf(s, divisor))
    {
      RemainderByMultiplying(BitsOf(s, dividend), BitsOf(s, divisor));
    }
  }

  /** Dividend minus quotient times divisor, all at the given width. */
  lemma RemainderByMultiplying(a: Bits, b: Bits)
    requires |a| == |b|
    ensures Remainder(a, b) ==
      FromInt(ToNat(a) - ToNat(FromInt(ToNat(Quotient(a, b)) * ToNat(b), |a|)), |a|)
  {
    hide FromInt;
    hide ToNat;
    hide Quotient;
    var q := Quotient(a, b);
    FromIntToNat(a);
    SubtractLowBits(ToNat(a), ToNat(q) * ToNat(b), |a|);
    if ToNat(b) == 0 {
      Distribute(ToNat(q), 0, 0);
    } else {
      QuotientFits(a, b);
      DivisionIdentity(ToNat(a), ToNat(b));
    }
  }

  lemma DivisionIdentity(m: nat, n: nat)
    requires n > 0
    ensures m - (m / n) * n == m % n
  {
  }

  /** The remainder of signed division; the dividend if the divisor is zero. */
  function SignedRemainder(a: Bits, b: Bits): (r: Bits)
    ensures |r| == |a|
  {
    if ToInt(b) == 0 then a else FromInt(TruncRem(ToInt(a), ToInt(b)), |a|)
  }

  method CreateSignedRemainder(fsm: FSM, dividend: seq<Value>, divisor: seq<Value>) returns (r: seq<Value>)
    requires |dividend| == |divisor| && Ordered(fsm.variables)
    requires Readable(fsm, dividend) && Readable(fsm, divisor)
    modifies fsm`variables
    ensures Extended(old(fsm.variables), fsm.variables) && Readable(fsm, r) && |r| == |dividend|
    ensures forall s :: Settled(fsm.variables, s) ==>
      BitsOf(s, r) == SignedRemainder(BitsOf(s, dividend), BitsOf(s, divisor))
  {
    hide FromInt;
    hide ToNat;
    hide SignedQuotient;
    hide SignedRemainder;
    var quotient := CreateSignedDivision(fsm, dividend, divisor);
    var product := CreateMultiplication(fsm, quotient, divisor);
    r := CreateSubtraction(fsm, dividend, product);
    forall s | Settled(fsm.variables, s)
      ensures BitsOf(s, r) == SignedRemainder(BitsOf(s, dividend), BitsOf(s, divisor))
    {
      SignedRemainderByMultiplying(BitsOf(s, dividend), BitsOf(s, divisor));
    }
  }

  lemma SignedRemainderByMultiplying(a: Bits, b: Bits)
    requires |a| == |b|
    ensures SignedRemainder(a, b) ==
      FromInt(ToNat(a) - ToNat(FromInt(ToNat(SignedQuotient(a, b)) * ToNat(b), |a|)), |a|)
  {
    hide FromInt;
    hide ToNat;
    hide ToInt;
    var q := SignedQuotientInt(ToInt(a), ToInt(b));
    FromIntToInt(a);
    FromIntToInt(b);
    MultiplyLowBits(q, ToInt(b), |a|);
    SubtractLowBits(ToInt(a), q * ToInt(b), |a|);
    Distribute(q, 0, 0);
  }

  // ----- selection and shifting -----

  /** One level of a selection tree: a multiplexer for each adjacent pair. */
  method SelectLevel(fsm: FSM, level: seq<Value>, select: Value) returns (next: seq<Value>)
    requires |level| % 2 == 0 && Ordered(fsm.variables) && Readable(fsm, level)
    requires select.Known(|fsm.variables|)
    modifies fsm`variables
    ensures Extended(old(fsm.variables), fsm.variables) && Readable(fsm, next) && |next| == |level| / 2
    ensures forall s, j :: Settled(fsm.variables, s) && 0 <= j < |next| ==>
      Holds(s, next[j]) == Holds(s, level[2 * j + BitVal(Holds(s, select))])
  {
    ghost var start := fsm.variables;
    next := [];
    for i := 0 to |level| / 2
      invariant Extended(start, fsm.variables) && Readable(fsm, next) && |next| == i
      invariant forall s, j :: Settled(fsm.variables, s) && 0 <= j < i ==>
        Holds(s, next[j]) == Holds(s, level[2 * j + BitVal(Holds(s, select))])
    {
      var bit := CreateMuxGate(fsm, level[2 * i], level[2 * i + 1], select);
      next := next + [bit];
    }
  }

  /** Element `index` of a list whose length is a power of two. */
  method CreateSelect(fsm: FSM, value: seq<Value>, index: seq<Value>) returns (r: Value)
    requires |value| == Pow2(|index|) && Ordered(fsm.variables)
    requires Readable(fsm, value) && Readable(fsm, index)
    modifies fsm`variables
    ensures Extended(old(fsm.variables), fsm.variables) && r.Known(|fsm.variables|)
    ensures forall s :: Settled(fsm.variables, s) ==> Holds(s, r) == Holds(s, value[Word(s, index)])
  {
    hide ToNat;
    ghost var start := fsm.variables;
    var level := value;
    SelectStart(value, index);
    for i := 0 to |index|
      invariant Extended(start, fsm.variables) && Readable(fsm, level)
      invariant |level| == Pow2(|index| - i)
      invariant forall s, j :: Settled(fsm.variables, s) && 0 <= j < |level| ==>
        Selected(s, value, index, i, level, j)
    {
      ghost var before := level;
      level := SelectLevel(fsm, level, index[i]);
      ghost var depth := i + 1;
      forall s, j | Settled(fsm.variables, s) && 0 <= j < |level|
        ensures Selected(s, value, index, depth, level, j)
      {
        SelectStep(s, value, index, i, before, level, j);
      }
    }
    r := level[0];
    forall s | Settled(fsm.variables, s)
      ensures Holds(s, r) == Holds(s, value[Word(s, index)])
    {
      assert Selected(s, value, index, |index|, level, 0);
      assert BitsOf(s, index)[..|index|] == BitsOf(s, index);
    }
  }

  /** Entry `j` of a level is the entry of `value` with high index bits `j` and low
      index bits as the selectors so far say. */
  ghost predicate Selected(s: Assignment, value: seq<Value>, index: seq<Value>, i: nat, level: seq<Value>, j: nat) {
    && i <= |index| && j < |level|
    && var source := Pow2(i) * j + ToNat(BitsOf(s, index)[..i]);
       source < |value| && Holds(s, level[j]) == Holds(s, value[source])
  }

  lemma SelectStart(value: seq<Value>, index: seq<Value>)
    ensures forall s, j :: 0 <= j < |value| ==> Selected(s, value, index, 0, value, j)
  {
    forall s: Assignment, j | 0 <= j < |value|
      ensures Selected(s, value, index, 0, value, j)
    {
      assert BitsOf(s, index)[..0] == [];
    }
  }

  lemma SelectStep(s: Assignment, value: seq<Value>, index: seq<Value>, i: nat, level: seq<Value>, next: seq<Value>, j: nat)
    requires i < |index| && j < |next| && |level| == 2 * |next|
    requires forall k :: 0 <= k < |level| ==> Selected(s, value, index, i, level, k)
    requires Holds(s, next[j]) == Holds(s, level[2 * j + BitVal(Holds(s, index[i]))])
    ensures Selected(s, value, index, i + 1, next, j)
  {
    hide ToNat;
    var bit := Holds(s, index[i]);
    var k := 2 * j + BitVal(bit);
    assert Selected(s, value, index, i, level, k);
    ToNatPrefix(BitsOf(s, index), i);
    Distribute(Pow2(i), 2 * j, BitVal(bit));
    assert Pow2(i + 1) * j == Pow2(i) * (2 * j);
    assert Pow2(i) * BitVal(bit) == if bit then Pow2(i) else 0;
  }

  datatype ShiftOperation = ShiftLeft | ShiftRight | ShiftRightArithmetic | RotateLeft | RotateRight

  /** What a shift or rotation by `amount` does to a vector. */
  function ShiftWord(operation: ShiftOperation, b: Bits, amount: nat): (r: Bits)
    ensures |r| == |b|
  {
    match operation
    case ShiftLeft => ShiftUp(b, amount, false)
    case ShiftRight => ShiftDown(b, amount, false)
    case ShiftRightArithmetic => ShiftDown(b, amount, SignBit(b))
    case RotateLeft => RotateBy(b, 0 - amount)
    case RotateRight => RotateBy(b, amount)
  }

  const WORD_BITS: nat := 64

  /** The wiring of one stage: every bit moved by a fixed distance. */
  function MoveBits(operation: ShiftOperation, output: seq<Value>, distance: nat): (r: seq<Value>)
    requires (operation == RotateLeft || operation == RotateRight) && output != [] ==> distance < |output|
    ensures |r| == |output|
  {
    var width := |output|;
    match operation
    case ShiftLeft => ShiftUp(output, distance, Constant(false))
    case ShiftRight => ShiftDown(output, distance, Constant(false))
    case ShiftRightArithmetic => ShiftDown(output, distance, if width == 0 then Constant(false) else output[width - 1])
    case RotateLeft => seq(width, i requires 0 <= i < width => output[(i + width - distance) % width])
    case RotateRight => seq(width, i requires 0 <= i < width => output[(i + distance) % width])
  }

  method CreateShifter(fsm: FSM, value: seq<Value>, shift: seq<Value>, operation: ShiftOperation)
    returns (output: seq<Value>)
    requires |value| < Pow2(WORD_BITS) // a vector's length fits a machine word
    requires Ordered(fsm.variables) && Readable(fsm, value) && Readable(fsm, shift)
    modifies fsm`variables
    ensures Extended(old(fsm.variables), fsm.variables) && Readable(fsm, output) && |output| == |value|
    ensures forall s :: Settled(fsm.variables, s) ==>
      BitsOf(s, output) == ShiftWord(operation, BitsOf(s, value), Word(s, shift))
  {
    hide ToNat;
    hide Pow2;
    hide ShiftWord;
    hide MoveBits;
    ghost var start := fsm.variables;
    var width := |value|;
    output := value;
    var rotateDistance: nat := if width == 0 then 0 else 1 % width;
    RotateDistanceStart(width);
    ShiftStart(operation, value, shift);
    for stage := 0 to |shift|
      invariant Extended(start, fsm.variables) && Readable(fsm, output) && |output| == width
      invariant width != 0 ==> rotateDistance == Pow2(stage) % width
      invariant forall s :: Settled(fsm.variables, s) ==>
        BitsOf(s, output) == ShiftWord(operation, BitsOf(s, value), ToNat(BitsOf(s, shift)[..stage]))
    {
      var shiftDistance := if stage >= WORD_BITS then width else Pow2(stage);
      var distance := if operation == RotateLeft || operation == RotateRight then rotateDistance else shiftDistance;
      ghost var before := output;
      RotateDistanceInRange(rotateDistance, Pow2(stage), width);
      var shifted := MoveBits(operation, output, distance);
      MoveBitsReadable(operation, output, distance, |fsm.variables|);
      output := CreateMux(fsm, output, shifted, shift[stage]);
      forall s | Settled(fsm.variables, s)
        ensures BitsOf(s, output) == ShiftWord(operation, BitsOf(s, value), ToNat(BitsOf(s, shift)[..stage + 1]))
      {
        ShiftStage(s, operation, before, distance, stage);
        ShiftRound(operation, BitsOf(s, value), BitsOf(s, shift), stage);
      }
      if width != 0 {
        DoubleModulo(Pow2(stage), width, rotateDistance);
        Pow2Double(stage);
        rotateDistance := if rotateDistance >= width - rotateDistance
          then rotateDistance - (width - rotateDistance)
          else rotateDistance + rotateDistance;
      }
    }
    forall s | Settled(fsm.variables, s)
      ensures BitsOf(s, output) == ShiftWord(operation, BitsOf(s, value), Word(s, shift))
    {
      assert BitsOf(s, shift)[..|shift|] == BitsOf(s, shift);
    }
  }

  lemma Pow2Double(n: nat)
    ensures Pow2(n + 1) == 2 * Pow2(n) && Pow2(0) == 1
  {
  }

  lemma RotateDistanceInRange(d: int, n: nat, width: nat)
    requires width != 0 ==> d == n % width
    ensures width != 0 ==> 0 <= d < width
  {
  }

  lemma RotateDistanceStart(width: nat)
    ensures width != 0 ==> 1 % width == Pow2(0) % width
  {
  }

  /** Doubling a distance that is kept below the width. */
  lemma DoubleModulo(n: nat, width: nat, d: nat)
    requires width > 0 && d == n % width
    ensures (2 * n) % width == if d >= width - d then d - (width - d) else d + d
  {
    var q := n / width;
    assert n == q * width + d;
    assert 2 * (q * width) == (2 * q) * width;
    if d >= width - d {
      Distribute(width, 2 * q, -1);
      ModuloUnique(2 * n, width, 2 * q + 1, d - (width - d));
    } else {
      ModuloUnique(2 * n, width, 2 * q, d + d);
    }
  }

  lemma ShiftStart(operation: ShiftOperation, value: seq<Value>, shift: seq<Value>)
    ensures forall s ::
      BitsOf(s, value) == ShiftWord(operation, BitsOf(s, value), ToNat(BitsOf(s, shift)[..0]))
  {
    forall s: Assignment
      ensures BitsOf(s, value) == ShiftWord(operation, BitsOf(s, value), ToNat(BitsOf(s, shift)[..0]))
    {
      assert BitsOf(s, shift)[..0] == [];
      assert ToNat([]) == 0;
      ShiftByZero(operation, BitsOf(s, value));
    }
  }

  lemma ShiftByZero(operation: ShiftOperation, b: Bits)
    ensures ShiftWord(operation, b, 0) == b
  {
    RotateByZero(b);
  }

  lemma MoveBitsReadable(operation: ShiftOperation, output: seq<Value>, distance: nat, limit: nat)
    requires (operation == RotateLeft || operation == RotateRight) && output != [] ==> distance < |output|
    requires AllKnown(output, limit)
    ensures AllKnown(MoveBits(operation, output, distance), limit)
  {
  }

  /** The wiring of a stage shifts by `2^stage`. */
  lemma ShiftStage(s: Assignment, operation: ShiftOperation, output: seq<Value>, distance: nat, stage: nat)
    requires |output| < Pow2(WORD_BITS)
    requires if operation == RotateLeft || operation == RotateRight
      then output != [] ==> distance == Pow2(stage) % |output|
      else distance == if stage >= WORD_BITS then |output| else Pow2(stage)
    ensures BitsOf(s, MoveBits(operation, output, distance)) == ShiftWord(operation, BitsOf(s, output), Pow2(stage))
  {
    hide Pow2;
    hide MoveBits;
    hide ShiftWord;
    hide BitsOf;
    if operation == RotateLeft || operation == RotateRight {
      RotateStage(s, operation, output, distance, Pow2(stage));
    } else {
      if stage >= WORD_BITS {
        Pow2Monotone(WORD_BITS, stage);
      }
      WireStage(s, operation, output, distance, Pow2(stage));
    }
  }

  /** Wiring by the whole width is as good as any longer shift. */
  lemma WireStage(s: Assignment, operation: ShiftOperation, output: seq<Value>, distance: nat, amount: nat)
    requires operation != RotateLeft && operation != RotateRight
    requires distance == amount || (distance == |output| && amount >= |output|)
    ensures BitsOf(s, MoveBits(operation, output, distance)) == ShiftWord(operation, BitsOf(s, output), amount)
  {
    var wired, shifted := BitsOf(s, MoveBits(operation, output, distance)), ShiftWord(operation, BitsOf(s, output), amount);
    forall i | 0 <= i < |output|
      ensures wired[i] == shifted[i]
    {
    }
  }

  lemma RotateStage(s: Assignment, operation: ShiftOperation, output: seq<Value>, distance: nat, amount: nat)
    requires operation == RotateLeft || operation == RotateRight
    requires output != [] ==> distance == amount % |output|
    ensures BitsOf(s, MoveBits(operation, output, distance)) == ShiftWord(operation, BitsOf(s, output), amount)
  {
    var b := BitsOf(s, output);
    if output == [] {
      return;
    }
    ModuloTwice(amount, |b|);
    if operation == RotateLeft {
      NegateModulo(distance, amount, |b|);
      RotateModulo(b, 0 - distance, 0 - amount);
      WiredRotation(s, output, distance);
    } else {
      RotateModulo(b, distance, amount);
      assert BitsOf(s, MoveBits(operation, output, distance)) == RotateBy(b, distance);
    }
  }

  lemma WiredRotation(s: Assignment, output: seq<Value>, distance: nat)
    requires distance < |output|
    ensures BitsOf(s, MoveBits(RotateLeft, output, distance)) == RotateBy(BitsOf(s, output), 0 - distance)
  {
    forall i | 0 <= i < |output|
      ensures BitsOf(s, MoveBits(RotateLeft, output, distance))[i] == RotateBy(BitsOf(s, output), 0 - distance)[i]
    {
      SameSource(i, |output|, distance);
    }
  }

  lemma SameSource(i: nat, width: nat, distance: nat)
    requires distance < width
    ensures (i + width - distance) % width == (i + (0 - distance)) % width
  {
    ModuloAddMultiple(i - distance, width, 1);
  }

  /** Adding one more bit of the amount. */
  lemma ShiftRound(operation: ShiftOperation, b: Bits, amount: Bits, stage: nat)
    requires stage < |amount|
    ensures ShiftWord(operation, b, ToNat(amount[..stage + 1])) ==
      var moved := ShiftWord(operation, b, ToNat(amount[..stage]));
      if amount[stage] then ShiftWord(operation, moved, Pow2(stage)) else moved
  {
    hide ToNat;
    hide Pow2;
    hide ShiftWord;
    ToNatPrefix(amount, stage);
    ShiftTwice(operation, b, ToNat(amount[..stage]), Pow2(stage));
  }

  lemma ShiftTwice(operation: ShiftOperation, b: Bits, m: nat, n: nat)
    ensures ShiftWord(operation, ShiftWord(operation, b, m), n) == ShiftWord(operation, b, m + n)
  {
    hide RotateBy;
    hide ShiftUp;
    hide ShiftDown;
    match operation
    case ShiftLeft => ShiftUpTwice(b, m, n, false);
    case ShiftRight => ShiftDownTwice(b, m, n, false);
    case ShiftRightArithmetic =>
      SignBitStays(b, m);
      ShiftDownTwice(b, m, n, SignBit(b));
    case RotateLeft =>
      RotateTwice(b, 0 - m, 0 - n);
      assert (0 - m) + (0 - n) == 0 - (m + n);
    case RotateRight => RotateTwice(b, m, n);
  }

  lemma SignBitStays(b: Bits, m: nat)
    ensures SignBit(ShiftDown(b, m, SignBit(b))) == SignBit(b)
  {
  }

  // ----- signed order -----

  /** Inverting both sign bits makes the signed order the unsigned one. */
  function FlipTop(word: seq<Value>): (r: seq<Value>)
    ensures |r| == |word|
  {
    if word == [] then word else word[|word| - 1 := word[|word| - 1].Negate()]
  }

  lemma FlippedWord(s: Assignment, word: seq<Value>)
    requires word != []
    ensures Word(s, FlipTop(word)) == ToInt(BitsOf(s, word)) + Pow2(|word| - 1)
  {
    hide ToNat;
    hide Pow2;
    var last := |word| - 1;
    TopFlipped(s, word);
    TopOf(BitsOf(s, word));
    TopOf(BitsOf(s, FlipTop(word)));
    Pow2Double(last);
  }

  lemma TopFlipped(s: Assignment, word: seq<Value>)
    requires word != []
    ensures SignBit(BitsOf(s, FlipTop(word))) == !SignBit(BitsOf(s, word))
    ensures BitsOf(s, FlipTop(word))[..|word| - 1] == BitsOf(s, word)[..|word| - 1]
  {
  }

  lemma TopOf(b: Bits)
    requires b != []
    ensures ToNat(b) == ToNat(b[..|b| - 1]) + if SignBit(b) then Pow2(|b| - 1) else 0
  {
  }
}
