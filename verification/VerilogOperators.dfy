/** The gate networks of Verilog operators. Each contract says that the network
    computes what the generated simulator computes. */
module VerilogOperators {
  import opened Words
  import opened Shifts
  import opened Fsm
  import opened Ops
  import opened VerilogAst
  import opened VerilogSimulator
  import Runtime = VerilogRuntime

  // ----- words -----

  /** Truncates, or extends by the sign or by `fill`. */
  function ResizeValues(value: seq<Value>, width: nat, signed: bool, fill: Value): (r: seq<Value>)
    ensures |r| == width
  {
    var extension := if signed && value != [] then value[|value| - 1] else fill;
    seq(width, i requires 0 <= i < width => if i < |value| then value[i] else extension)
  }

  const LOW := Constant(false)

  lemma ResizedValues(value: seq<Value>, width: nat, signed: bool, limit: nat)
    requires AllKnown(value, limit)
    ensures AllKnown(ResizeValues(value, width, signed, LOW), limit)
    ensures forall s ::
      BitsOf(s, ResizeValues(value, width, signed, LOW)) == Runtime.Resized(BitsOf(s, value), width, signed)
  {
    forall s
      ensures BitsOf(s, ResizeValues(value, width, signed, LOW)) == Runtime.Resized(BitsOf(s, value), width, signed)
    {
      var extended, expected := BitsOf(s, ResizeValues(value, width, signed, LOW)), Runtime.Resized(BitsOf(s, value), width, signed);
      assert SignBit(BitsOf(s, value)) == (value != [] && Holds(s, value[|value| - 1]));
      assert forall i :: 0 <= i < width ==> extended[i] == expected[i];
    }
  }

  /** A word extended by a given bit. */
  function Padded(b: Bits, width: nat, fill: bool): Bits {
    seq(width, i requires 0 <= i < width => if i < |b| then b[i] else fill)
  }

  lemma FilledValues(value: seq<Value>, width: nat, fill: Value, limit: nat)
    requires AllKnown(value, limit) && fill.Known(limit)
    ensures AllKnown(ResizeValues(value, width, false, fill), limit)
    ensures forall s ::
      BitsOf(s, ResizeValues(value, width, false, fill)) == Padded(BitsOf(s, value), width, Holds(s, fill))
  {
    forall s
      ensures BitsOf(s, ResizeValues(value, width, false, fill)) == Padded(BitsOf(s, value), width, Holds(s, fill))
    {
      assert BitsOf(s, ResizeValues(value, width, false, fill)) == Padded(BitsOf(s, value), width, Holds(s, fill));
    }
  }

  /** Any bit; the empty word has no disjunction. */
  method TruthyValue(fsm: FSM, value: seq<Value>) returns (r: Option<Value>)
    requires Ordered(fsm.variables) && Readable(fsm, value)
    modifies fsm`variables
    ensures Extended(old(fsm.variables), fsm.variables)
    ensures r.Some? <==> value != []
    ensures r.Some? ==> r.value.Known(|fsm.variables|)
    ensures r.Some? ==> forall s :: Settled(fsm.variables, s) ==>
      Holds(s, r.value) == Runtime.Truthy(BitsOf(s, value))
  {
    if value == [] {
      return None;
    }
    if |value| == 1 {
      r := Some(value[0]);
      forall s
        ensures Holds(s, value[0]) == Runtime.Truthy(BitsOf(s, value))
      {
        assert BitsOf(s, value)[0] == Holds(s, value[0]);
      }
    } else {
      var any := fsm.AddVariableGate(Or, value);
      r := Some(any);
    }
  }

  /** All bits equal those of a constant, by one conjunction. */
  method EqualsConstant(fsm: FSM, value: seq<Value>, constant: Bits) returns (r: Option<Value>)
    requires |value| == |constant| && Ordered(fsm.variables) && Readable(fsm, value)
    modifies fsm`variables
    ensures Extended(old(fsm.variables), fsm.variables)
    ensures r.Some? <==> value != []
    ensures r.Some? ==> r.value.Known(|fsm.variables|)
    ensures r.Some? ==> forall s :: Settled(fsm.variables, s) ==> Holds(s, r.value) == (BitsOf(s, value) == constant)
  {
    if value == [] {
      return None;
    }
    var equalBits := seq(|value|, i requires 0 <= i < |value| => if constant[i] then value[i] else value[i].Negate());
    var all := fsm.AddVariableGate(And, equalBits);
    forall s | Settled(fsm.variables, s)
      ensures Holds(s, all) == (BitsOf(s, value) == constant)
    {
      EqualBitsHold(s, value, constant, equalBits);
    }
    return Some(all);
  }

  lemma EqualBitsHold(s: Assignment, value: seq<Value>, constant: Bits, equalBits: seq<Value>)
    requires |value| == |constant|
    requires equalBits ==
      seq(|value|, i requires 0 <= i < |value| => if constant[i] then value[i] else value[i].Negate())
    ensures Combined(And, BitsOf(s, equalBits)) == (BitsOf(s, value) == constant)
  {
    assert forall i :: 0 <= i < |value| ==> (BitsOf(s, equalBits)[i] <==> BitsOf(s, value)[i] == constant[i]);
    if BitsOf(s, value) != constant {
      var i :| 0 <= i < |value| && BitsOf(s, value)[i] != constant[i];
      assert !BitsOf(s, equalBits)[i];
    }
  }

  /** A multiplexer of And gates only. */
  method MuxValueWithoutOr(fsm: FSM, a: Value, b: Value, select: Value) returns (r: Value)
    requires Ordered(fsm.variables) && Readable(fsm, [a, b, select])
    modifies fsm`variables
    ensures Extended(old(fsm.variables), fsm.variables) && r.Known(|fsm.variables|)
    ensures forall s :: Settled(fsm.variables, s) ==>
      Holds(s, r) == if Holds(s, select) then Holds(s, b) else Holds(s, a)
  {
    assert [a, b, select][0] == a && [a, b, select][1] == b && [a, b, select][2] == select;
    var selectA := fsm.AddVariableGateBinary(And, a, select.Negate());
    var selectB := fsm.AddVariableGateBinary(And, b, select);
    var neither := fsm.AddVariableGateBinary(And, selectA.Negate(), selectB.Negate());
    r := neither.Negate();
  }

  method MuxWithoutOr(fsm: FSM, a: seq<Value>, b: seq<Value>, select: Value) returns (r: seq<Value>)
    requires |a| == |b| && Ordered(fsm.variables) && Readable(fsm, a) && Readable(fsm, b)
    requires select.Known(|fsm.variables|)
    modifies fsm`variables
    ensures Extended(old(fsm.variables), fsm.variables) && Readable(fsm, r) && |r| == |a|
    ensures forall s :: Settled(fsm.variables, s) ==>
      BitsOf(s, r) == if Holds(s, select) then BitsOf(s, b) else BitsOf(s, a)
  {
    ghost var start := fsm.variables;
    r := [];
    for i := 0 to |a|
      invariant Extended(start, fsm.variables) && Readable(fsm, r) && |r| == i
      invariant forall s, j :: Settled(fsm.variables, s) && 0 <= j < i ==>
        Holds(s, r[j]) == if Holds(s, select) then Holds(s, b[j]) else Holds(s, a[j])
    {
      var inputs := [a[i], b[i], select];
      assert inputs[0] == a[i] && inputs[1] == b[i];
      var bit := MuxValueWithoutOr(fsm, a[i], b[i], select);
      r := r + [bit];
    }
  }

  // ----- unary operators -----

  /** Reductions need a bit to reduce. */
  predicate UnaryAccepted(operator: UnaryOperator, operandWidth: nat) {
    operator == ReduceAnd || operator == ReduceOr || operator == LogicalNot ==> operandWidth > 0
  }

  function UnaryWidth(operator: UnaryOperator, operandWidth: nat, width: nat): nat {
    match operator
    case BitwiseNot => operandWidth
    case Negation => operandWidth
    case ZeroExtend => width
    case SignExtend => width
    case _ => 1
  }

  method UnaryExpression(fsm: FSM, operator: UnaryOperator, value: seq<Value>, width: nat)
    returns (r: Option<seq<Value>>)
    requires Ordered(fsm.variables) && Readable(fsm, value)
    modifies fsm`variables
    ensures Extended(old(fsm.variables), fsm.variables)
    ensures r.Some? <==> UnaryAccepted(operator, |value|)
    ensures r.Some? ==> Readable(fsm, r.value) && |r.value| == UnaryWidth(operator, |value|, width)
    ensures r.Some? ==> forall s :: Settled(fsm.variables, s) ==>
      BitsOf(s, r.value) == ApplyUnary(operator, BitsOf(s, value), width)
  {
    ghost var start := fsm.variables;
    match operator {
      case BitwiseNot =>
        var inverted := seq(|value|, i requires 0 <= i < |value| => value[i].Negate());
        assert forall s :: BitsOf(s, inverted) == Not(BitsOf(s, value));
        r := Some(inverted);
      case Negation =>
        var negated := NegateWord(fsm, value);
        r := Some(negated);
      case ReduceAnd =>
        if value == [] {
          return None;
        }
        var all := fsm.AddVariableGate(And, value);
        assert forall s :: BitsOf(s, [all]) == [Holds(s, all)];
        r := Some([all]);
      case ReduceOr =>
        if value == [] {
          return None;
        }
        var any := fsm.AddVariableGate(Or, value);
        assert forall s :: BitsOf(s, [any]) == [Holds(s, any)];
        r := Some([any]);
      case ReduceXor =>
        var parity := ParityValue(fsm, value);
        assert forall s :: BitsOf(s, [parity]) == [Holds(s, parity)];
        r := Some([parity]);
      case LogicalNot =>
        var any := TruthyValue(fsm, value);
        if any == None {
          return None;
        }
        assert forall s :: BitsOf(s, [any.value.Negate()]) == [!Holds(s, any.value)];
        r := Some([any.value.Negate()]);
      case ZeroExtend =>
        ResizedValues(value, width, false, |fsm.variables|);
        r := Some(ResizeValues(value, width, false, LOW));
      case SignExtend =>
        ResizedValues(value, width, true, |fsm.variables|);
        r := Some(ResizeValues(value, width, true, LOW));
    }
  }

  method NegateWord(fsm: FSM, value: seq<Value>) returns (r: seq<Value>)
    requires Ordered(fsm.variables) && Readable(fsm, value)
    modifies fsm`variables
    ensures Extended(old(fsm.variables), fsm.variables) && Readable(fsm, r) && |r| == |value|
    ensures forall s :: Settled(fsm.variables, s) ==> BitsOf(s, r) == Runtime.Negate(BitsOf(s, value))
  {
    hide Runtime.Negate;
    var zero := ConstantWord(Zeros(|value|));
    r := CreateSubtraction(fsm, zero, value);
    forall s | Settled(fsm.variables, s)
      ensures BitsOf(s, r) == Runtime.Negate(BitsOf(s, value))
    {
      BitsOfConstantWord(s, Zeros(|value|));
      SubtractFromZero(BitsOf(s, zero), BitsOf(s, value), BitsOf(s, r));
      Runtime.NegateIsNegated(BitsOf(s, value));
    }
  }

  method ParityValue(fsm: FSM, value: seq<Value>) returns (r: Value)
    requires Ordered(fsm.variables) && Readable(fsm, value)
    modifies fsm`variables
    ensures Extended(old(fsm.variables), fsm.variables) && r.Known(|fsm.variables|)
    ensures forall s :: Settled(fsm.variables, s) ==> Holds(s, r) == Parity(BitsOf(s, value))
  {
    ghost var start := fsm.variables;
    r := LOW;
    for i := 0 to |value|
      invariant Extended(start, fsm.variables) && r.Known(|fsm.variables|)
      invariant forall s :: Settled(fsm.variables, s) ==> Holds(s, r) == Parity(BitsOf(s, value)[..i])
    {
      ghost var before := r;
      var inputs := [r, value[i]];
      assert inputs[0] == r && inputs[1] == value[i];
      r := CreateXorGate(fsm, r, value[i]);
      forall s | Settled(fsm.variables, s)
        ensures Holds(s, r) == Parity(BitsOf(s, value)[..i + 1])
      {
        assert BitsOf(s, value)[..i + 1][..i] == BitsOf(s, value)[..i];
      }
    }
    assert forall s :: BitsOf(s, value)[..|value|] == BitsOf(s, value);
  }

  // ----- arithmetic -----

  lemma ArithmeticIsRuntime(a: Bits, b: Bits)
    requires |a| == |b|
    ensures FromInt(ToNat(a) + ToNat(b), |a|) == Runtime.Computed(Runtime.AddOp, a, b)
    ensures FromInt(ToNat(a) - ToNat(b), |a|) == Runtime.Computed(Runtime.SubOp, a, b)
    ensures FromInt(ToNat(a) * ToNat(b), |a|) == Runtime.Computed(Runtime.MulOp, a, b)
    ensures Quotient(a, b) == Runtime.Computed(Runtime.DivOp, a, b)
  {
    hide FromInt;
    hide ToNat;
    hide Pow2;
    hide Runtime.StorageArithmetic;
    Runtime.StorageIsExact(Runtime.AddOp, ToNat(a), ToNat(b), |a|);
    Runtime.StorageIsExact(Runtime.SubOp, ToNat(a), ToNat(b), |a|);
    Runtime.StorageIsExact(Runtime.MulOp, ToNat(a), ToNat(b), |a|);
    Runtime.StorageIsExact(Runtime.DivOp, ToNat(a), ToNat(b), |a|);
  }

  /** Sign and magnitude in both backends. */
  lemma SignedDivisionIsRuntime(a: Bits, b: Bits)
    requires |a| == |b|
    ensures SignedQuotient(a, b) == Runtime.DivSigned(a, b)
  {
    hide FromInt;
    hide ToNat;
    hide Runtime.Computed;
    hide Runtime.Negate;
    hide Negated;
    hide Quotient;
    if a != [] {
      hide SignedQuotient;
      SignAndMagnitudeDivision(a, b);
      Runtime.NegateIsNegated(a);
      Runtime.NegateIsNegated(b);
      ArithmeticIsRuntime(Magnitude(a), Magnitude(b));
      Runtime.NegateIsNegated(Quotient(Magnitude(a), Magnitude(b)));
    } else {
      assert SignedQuotient(a, b) == [];
    }
  }

  predicate IsArithmetic(operator: BinaryOperator) {
    match operator
    case Add => true
    case Subtract => true
    case MultiplyUnsigned => true
    case MultiplySigned => true
    case DivideUnsigned => true
    case DivideSigned => true
    case _ => false
  }

  /** Whether the operands are extended by their signs. */
  predicate ExtendsSign(operator: BinaryOperator, signed: bool) {
    match operator
    case Add => signed
    case Subtract => signed
    case MultiplySigned => true
    case DivideSigned => true
    case _ => false
  }

  method ArithmeticExpression(fsm: FSM, operator: BinaryOperator, lhs: seq<Value>, rhs: seq<Value>, width: nat,
    signed: bool)
    returns (r: seq<Value>)
    requires IsArithmetic(operator) && Ordered(fsm.variables) && Readable(fsm, lhs) && Readable(fsm, rhs)
    modifies fsm`variables
    ensures Extended(old(fsm.variables), fsm.variables) && Readable(fsm, r) && |r| == width
    ensures forall s :: Settled(fsm.variables, s) ==>
      Some(BitsOf(s, r)) == ApplyBinary(operator, BitsOf(s, lhs), BitsOf(s, rhs), width, signed)
  {
    hide FromInt;
    hide ToNat;
    hide Pow2;
    hide Runtime.Computed;
    hide Runtime.DivSigned;
    hide Runtime.Resized;
    hide Quotient;
    hide SignedQuotient;
    hide ResizeValues;
    ghost var start := fsm.variables;
    var extend := ExtendsSign(operator, signed);
    var a, b := ResizeValues(lhs, width, extend, LOW), ResizeValues(rhs, width, extend, LOW);
    ResizedValues(lhs, width, extend, |fsm.variables|);
    ResizedValues(rhs, width, extend, |fsm.variables|);
    match operator {
      case Add => r := CreateAddition(fsm, a, b);
      case Subtract => r := CreateSubtraction(fsm, a, b);
      case MultiplyUnsigned => r := CreateMultiplication(fsm, a, b);
      case MultiplySigned => r := CreateMultiplication(fsm, a, b);
      case DivideUnsigned => r := CreateUnsignedDivision(fsm, a, b);
      case DivideSigned => r := CreateSignedDivision(fsm, a, b);
    }
    forall s | Settled(fsm.variables, s)
      ensures Some(BitsOf(s, r)) == ApplyBinary(operator, BitsOf(s, lhs), BitsOf(s, rhs), width, signed)
    {
      ArithmeticIsRuntime(BitsOf(s, a), BitsOf(s, b));
      SignedDivisionIsRuntime(BitsOf(s, a), BitsOf(s, b));
    }
  }

  // ----- bitwise operators -----

  method BitwiseExpression(fsm: FSM, operator: BinaryOperator, lhs: seq<Value>, rhs: seq<Value>, width: nat)
    returns (r: seq<Value>)
    requires operator == BitwiseAnd || operator == BitwiseOr || operator == BitwiseXor
    requires Ordered(fsm.variables) && Readable(fsm, lhs) && Readable(fsm, rhs)
    modifies fsm`variables
    ensures Extended(old(fsm.variables), fsm.variables) && Readable(fsm, r) && |r| == width
    ensures forall s :: Settled(fsm.variables, s) ==>
      Some(BitsOf(s, r)) == ApplyBinary(operator, BitsOf(s, lhs), BitsOf(s, rhs), width, false)
  {
    ghost var start := fsm.variables;
    var a, b := ResizeValues(lhs, width, false, LOW), ResizeValues(rhs, width, false, LOW);
    ResizedValues(lhs, width, false, |fsm.variables|);
    ResizedValues(rhs, width, false, |fsm.variables|);
    r := [];
    for i := 0 to width
      invariant Extended(start, fsm.variables) && Readable(fsm, r) && |r| == i
      invariant forall s, j :: Settled(fsm.variables, s) && 0 <= j < i ==>
        Holds(s, r[j]) == BitwiseBit(operator, Holds(s, a[j]), Holds(s, b[j]))
    {
      var inputs := [a[i], b[i]];
      assert inputs[0] == a[i] && inputs[1] == b[i];
      var bit;
      match operator {
        case BitwiseAnd => bit := fsm.AddVariableGateBinary(And, a[i], b[i]);
        case BitwiseOr => bit := fsm.AddVariableGateBinary(Or, a[i], b[i]);
        case BitwiseXor => bit := CreateXorGate(fsm, a[i], b[i]);
      }
      r := r + [bit];
    }
    forall s | Settled(fsm.variables, s)
      ensures Some(BitsOf(s, r)) == ApplyBinary(operator, BitsOf(s, lhs), BitsOf(s, rhs), width, false)
    {
      BitwiseIsRuntime(s, operator, lhs, rhs, width, r);
    }
  }

  predicate BitwiseBit(operator: BinaryOperator, a: bool, b: bool) {
    match operator
    case BitwiseAnd => a && b
    case BitwiseOr => a || b
    case _ => a != b
  }

  lemma BitwiseIsRuntime(s: Assignment, operator: BinaryOperator, lhs: seq<Value>, rhs: seq<Value>, width: nat,
    r: seq<Value>)
    requires operator == BitwiseAnd || operator == BitwiseOr || operator == BitwiseXor
    requires |r| == width
    requires forall j :: 0 <= j < width ==>
      Holds(s, r[j]) == BitwiseBit(operator, Holds(s, ResizeValues(lhs, width, false, LOW)[j]),
        Holds(s, ResizeValues(rhs, width, false, LOW)[j]))
    ensures Some(BitsOf(s, r)) == ApplyBinary(operator, BitsOf(s, lhs), BitsOf(s, rhs), width, false)
  {
    var expected := ApplyBinary(operator, BitsOf(s, lhs), BitsOf(s, rhs), width, false).value;
    forall j | 0 <= j < width
      ensures BitsOf(s, r)[j] == expected[j]
    {
    }
    assert BitsOf(s, r) == expected;
  }

  // ----- comparisons -----

  predicate IsComparison(operator: BinaryOperator) {
    match operator
    case Equal => true
    case NotEqual => true
    case LessThanUnsigned => true
    case LessThanOrEqualUnsigned => true
    case GreaterThanUnsigned => true
    case GreaterThanOrEqualUnsigned => true
    case _ => ComparesSigned(operator)
  }

  predicate ComparesSigned(operator: BinaryOperator) {
    match operator
    case LessThanSigned => true
    case LessThanOrEqualSigned => true
    case GreaterThanSigned => true
    case GreaterThanOrEqualSigned => true
    case _ => false
  }

  function ComparisonOf(operator: BinaryOperator): Comparison {
    match operator
    case Equal => Equals
    case NotEqual => NotEquals
    case LessThanUnsigned => LessThan
    case LessThanSigned => LessThan
    case LessThanOrEqualUnsigned => LessThanOrEqual
    case LessThanOrEqualSigned => LessThanOrEqual
    case GreaterThanUnsigned => GreaterThan
    case GreaterThanSigned => GreaterThan
    case _ => GreaterThanOrEqual
  }

  method ComparisonExpression(fsm: FSM, operator: BinaryOperator, lhs: seq<Value>, rhs: seq<Value>)
    returns (r: Value)
    requires IsComparison(operator) && Ordered(fsm.variables) && Readable(fsm, lhs) && Readable(fsm, rhs)
    modifies fsm`variables
    ensures Extended(old(fsm.variables), fsm.variables) && r.Known(|fsm.variables|)
    ensures forall s, width, signed :: Settled(fsm.variables, s) ==>
      Some([Holds(s, r)]) == ApplyBinary(operator, BitsOf(s, lhs), BitsOf(s, rhs), width, signed)
  {
    hide ToNat;
    hide Pow2;
    hide Runtime.Resized;
    hide ResizeValues;
    hide ToInt;
    hide FlipTop;
    var width := Maximum(|lhs|, |rhs|);
    var signed := ComparesSigned(operator);
    var a, b := ResizeValues(lhs, width, signed, LOW), ResizeValues(rhs, width, signed, LOW);
    ResizedValues(lhs, width, signed, |fsm.variables|);
    ResizedValues(rhs, width, signed, |fsm.variables|);
    if signed {
      FlipReadable(a, |fsm.variables|);
      FlipReadable(b, |fsm.variables|);
      r := CreateComparison(fsm, FlipTop(a), FlipTop(b), ComparisonOf(operator));
    } else {
      r := CreateComparison(fsm, a, b, ComparisonOf(operator));
    }
    forall s, w, g | Settled(fsm.variables, s)
      ensures Some([Holds(s, r)]) == ApplyBinary(operator, BitsOf(s, lhs), BitsOf(s, rhs), w, g)
    {
      if signed {
        SignedOrder(s, a, b);
        Runtime.SignExtended(BitsOf(s, lhs), width);
        Runtime.SignExtended(BitsOf(s, rhs), width);
      } else {
        Runtime.ZeroExtended(BitsOf(s, lhs), width);
        Runtime.ZeroExtended(BitsOf(s, rhs), width);
        if Word(s, a) == Word(s, b) {
          ToNatInjective(BitsOf(s, a), BitsOf(s, b));
        }
      }
    }
  }

  lemma FlipReadable(value: seq<Value>, limit: nat)
    requires AllKnown(value, limit)
    ensures AllKnown(FlipTop(value), limit)
  {
  }

  lemma SignedOrder(s: Assignment, a: seq<Value>, b: seq<Value>)
    requires |a| == |b|
    ensures Word(s, FlipTop(a)) - Word(s, FlipTop(b)) == ToInt(BitsOf(s, a)) - ToInt(BitsOf(s, b))
  {
    if a == [] {
      assert BitsOf(s, a) == [] == BitsOf(s, b) && FlipTop(a) == [] == FlipTop(b);
    } else {
      FlippedWord(s, a);
      FlippedWord(s, b);
    }
  }
}
