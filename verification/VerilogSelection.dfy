/** The gate networks of shifts, dynamic selections and dynamic writes. */
module VerilogSelection {
  import opened Words
  import opened Shifts
  import opened Fsm
  import opened Ops
  import opened Ranges
  import opened VerilogAst
  import opened VerilogSimulator
  import opened VerilogOperators
  import Runtime = VerilogRuntime

  // ----- powers of two -----

  /** The exponent of the next power of two. */
  function Exponent(n: nat): (k: nat)
    ensures n <= Pow2(k) && (k > 0 ==> Pow2(k - 1) < n)
    decreases n
  {
    if n <= 1 then 0
    else
      var k := Exponent((n + 1) / 2);
      k + 1
  }

  /** The largest word whose next power of two is representable. */
  const LONGEST: nat := 63

  // ----- shifts -----

  function OperationOf(operator: BinaryOperator): ShiftOperation {
    match operator
    case LeftShift => ShiftLeft
    case RightShift => ShiftRight
    case _ => ShiftRightArithmetic
  }

  predicate IsShift(operator: BinaryOperator) {
    operator == LeftShift || operator == RightShift || operator == RightShiftArithmetic
  }

  /** What the shift network computes; vectors of one bit pass unshifted. */
  function ShiftNetwork(operator: BinaryOperator, b: Bits, amount: Bits, width: nat): Bits {
    var value := Runtime.Resized(b, width, false);
    if width < 2 then value else ShiftWord(OperationOf(operator), value, ToNat(amount))
  }

  /** Shifts by the low bits of the amount, and saturates if any other is set. */
  method ShiftExpression(fsm: FSM, operator: BinaryOperator, value: seq<Value>, shift: seq<Value>, width: nat)
    returns (r: Option<seq<Value>>)
    requires IsShift(operator) && Ordered(fsm.variables) && Readable(fsm, value) && Readable(fsm, shift)
    modifies fsm`variables
    ensures Extended(old(fsm.variables), fsm.variables)
    ensures r.Some? <==> width <= Pow2(LONGEST)
    ensures r.Some? ==> Readable(fsm, r.value) && |r.value| == width
    ensures r.Some? ==> forall s :: Settled(fsm.variables, s) ==>
      BitsOf(s, r.value) == ShiftNetwork(operator, BitsOf(s, value), BitsOf(s, shift), width)
  {
    hide ToNat;
    hide Pow2;
    hide Runtime.Resized;
    hide ResizeValues;
    hide ShiftWord;
    hide Padded;
    if width > Pow2(LONGEST) {
      return None;
    }
    var resized := ResizeValues(value, width, false, LOW);
    ResizedValues(value, width, false, |fsm.variables|);
    var k := Exponent(width);
    SmallExponent(width);
    if k == 0 {
      return Some(resized);
    }
    var low := ResizeValues(shift, k, false, LOW);
    ResizedValues(shift, k, false, |fsm.variables|);
    var operation := OperationOf(operator);
    var fill := if operation == ShiftRightArithmetic then resized[width - 1] else LOW;
    var padded := ResizeValues(resized, Pow2(k), false, fill);
    FilledValues(resized, Pow2(k), fill, |fsm.variables|);
    var shifted := CreateShifter(fsm, padded, low, operation);
    var result := shifted[..width];
    if |shift| > k {
      var oversized := TruthyValue(fsm, shift[k..]);
      var saturated := seq(width, _ => fill);
      result := CreateMux(fsm, result, saturated, oversized.value);
      forall s | Settled(fsm.variables, s)
        ensures BitsOf(s, result) == ShiftNetwork(operator, BitsOf(s, value), BitsOf(s, shift), width)
      {
        BitsOfFill(s, fill, width);
        NetworkResult(s, operator, value, shift, width, resized, k, fill, shifted);
      }
    } else {
      forall s | Settled(fsm.variables, s)
        ensures BitsOf(s, result) == ShiftNetwork(operator, BitsOf(s, value), BitsOf(s, shift), width)
      {
        NetworkResult(s, operator, value, shift, width, resized, k, fill, shifted);
      }
    }
    return Some(result);
  }

  /** The shifted low bits are the result unless a high bit of the amount is set. */
  lemma NetworkResult(s: Assignment, operator: BinaryOperator, value: seq<Value>, shift: seq<Value>, width: nat,
    resized: seq<Value>, k: nat, fill: Value, shifted: seq<Value>)
    requires IsShift(operator) && 2 <= width == |resized| <= |shifted| && width <= Pow2(k)
    requires BitsOf(s, resized) == Runtime.Resized(BitsOf(s, value), width, false)
    requires Holds(s, fill) == (OperationOf(operator) == ShiftRightArithmetic && Holds(s, resized[width - 1]))
    requires BitsOf(s, shifted) == ShiftWord(OperationOf(operator), Padded(BitsOf(s, resized), Pow2(k), Holds(s, fill)),
      ToNat(Runtime.Resized(BitsOf(s, shift), k, false)))
    ensures ShiftNetwork(operator, BitsOf(s, value), BitsOf(s, shift), width) ==
      if |shift| > k && Runtime.Truthy(BitsOf(s, shift[k..])) then Fill(width, Holds(s, fill))
      else BitsOf(s, shifted[..width])
  {
    hide ToNat;
    hide Pow2;
    hide Runtime.Resized;
    hide ShiftWord;
    hide Padded;
    ShiftSlices(s, shift, if |shift| > k then k else 0, shifted, width, resized);
    NetworkShifts(OperationOf(operator), BitsOf(s, resized), BitsOf(s, shift), k, Holds(s, fill));
  }

  lemma BitsOfFill(s: Assignment, fill: Value, width: nat)
    ensures BitsOf(s, seq(width, _ => fill)) == Fill(width, Holds(s, fill))
  {
  }

  lemma ShiftSlices(s: Assignment, shift: seq<Value>, k: nat, shifted: seq<Value>, width: nat, resized: seq<Value>)
    requires k <= |shift| && 0 < width <= |shifted| && |resized| == width
    ensures BitsOf(s, shift[k..]) == BitsOf(s, shift)[k..]
    ensures BitsOf(s, shifted[..width]) == BitsOf(s, shifted)[..width]
    ensures SignBit(BitsOf(s, resized)) == Holds(s, resized[width - 1])
  {
  }

  lemma SmallExponent(width: nat)
    ensures Exponent(width) == 0 <==> width < 2
    ensures width <= Pow2(LONGEST) ==> Pow2(Exponent(width)) < Pow2(WORD_BITS)
  {
    hide ToNat;
    Pow2Double(LONGEST);
    if Exponent(width) > LONGEST {
      Pow2Monotone(LONGEST, Exponent(width) - 1);
    } else {
      Pow2Monotone(Exponent(width), LONGEST);
    }
  }

  /** The low bits of the amount shift the padded value; the rest saturate. */
  lemma NetworkShifts(operation: ShiftOperation, b: Bits, amount: Bits, k: nat, fill: bool)
    requires operation == ShiftLeft || operation == ShiftRight || operation == ShiftRightArithmetic
    requires fill == (operation == ShiftRightArithmetic && SignBit(b)) && b != [] && |b| <= Pow2(k)
    ensures ShiftWord(operation, b, ToNat(amount)) ==
      if |amount| > k && Runtime.Truthy(amount[k..]) then Fill(|b|, fill)
      else ShiftWord(operation, Padded(b, Pow2(k), fill), ToNat(Runtime.Resized(amount, k, false)))[..|b|]
  {
    hide ToNat;
    hide Pow2;
    if |amount| > k {
      ToNatSplit(amount, k);
      ToNatZeroIff(amount[k..]);
      assert Runtime.Resized(amount, k, false) == amount[..k];
      if Runtime.Truthy(amount[k..]) {
        MultipleBound(Pow2(k), ToNat(amount[k..]));
        SaturatedShift(operation, b, ToNat(amount));
      } else {
        assert Pow2(k) * 0 == 0;
        PaddedShift(operation, b, Pow2(k), ToNat(amount));
      }
    } else {
      Runtime.ZeroExtended(amount, k);
      PaddedShift(operation, b, Pow2(k), ToNat(amount));
    }
  }

  lemma SaturatedShift(operation: ShiftOperation, b: Bits, n: nat)
    requires operation == ShiftLeft || operation == ShiftRight || operation == ShiftRightArithmetic
    requires n >= |b|
    ensures ShiftWord(operation, b, n) == Fill(|b|, operation == ShiftRightArithmetic && SignBit(b))
  {
  }

  lemma PaddedShift(operation: ShiftOperation, b: Bits, width: nat, n: nat)
    requires operation == ShiftLeft || operation == ShiftRight || operation == ShiftRightArithmetic
    requires b != [] && |b| <= width
    ensures ShiftWord(operation, Padded(b, width, operation == ShiftRightArithmetic && SignBit(b)), n)[..|b|] ==
      ShiftWord(operation, b, n)
  {
    var padded := Padded(b, width, operation == ShiftRightArithmetic && SignBit(b));
    assert operation == ShiftRightArithmetic ==> SignBit(padded) == SignBit(b);
    var long, short := ShiftWord(operation, padded, n), ShiftWord(operation, b, n);
    assert forall i :: 0 <= i < |b| ==> long[i] == short[i];
  }

  /** The runtime shift is the mathematical one. */
  lemma RuntimeShifts(operator: BinaryOperator, b: Bits, amount: Bits, width: nat)
    requires IsShift(operator)
    requires ApplyBinary(operator, b, amount, width, false).Some?
    ensures ApplyBinary(operator, b, amount, width, false) ==
      Some(ShiftWord(OperationOf(operator), Runtime.Resized(b, width, false), ToNat(amount)))
  {
    hide *;
    ShiftOfOperator(operator, b, amount, width);
    Runtime.ToUsizeIsValue(amount);
    UsizeOfShift(b, amount, width, operator != LeftShift, operator == RightShiftArithmetic);
    var value := Runtime.Resized(b, width, false);
    MovesOfOperator(operator, value, ToNat(amount));
    if ToNat(amount) >= width {
      RuntimeSaturates(b, amount, width, operator != LeftShift, operator == RightShiftArithmetic);
    } else {
      RuntimeMoves(b, amount, width, operator != LeftShift, operator == RightShiftArithmetic);
    }
  }

  lemma UsizeOfShift(b: Bits, amount: Bits, width: nat, right: bool, arithmetic: bool)
    ensures Runtime.Shift(b, amount, width, right, arithmetic).Some? ==> Runtime.ToUsize(amount).Some?
  {
  }

  lemma MovesOfOperator(operator: BinaryOperator, value: Bits, n: nat)
    requires IsShift(operator)
    ensures ShiftWord(OperationOf(operator), value, n) ==
      if operator != LeftShift then ShiftDown(value, n, operator == RightShiftArithmetic && SignBit(value))
      else ShiftUp(value, n, false)
    ensures n >= |value| ==>
      ShiftWord(OperationOf(operator), value, n) == Fill(|value|, operator == RightShiftArithmetic && SignBit(value))
  {
    if n >= |value| {
      SaturatedShift(OperationOf(operator), value, n);
    }
  }

  lemma ShiftOfOperator(operator: BinaryOperator, b: Bits, amount: Bits, width: nat)
    requires IsShift(operator)
    ensures ApplyBinary(operator, b, amount, width, false) ==
      Runtime.Shift(b, amount, width, operator != LeftShift, operator == RightShiftArithmetic)
  {
  }

  lemma RuntimeSaturates(b: Bits, amount: Bits, width: nat, right: bool, arithmetic: bool)
    requires Runtime.ToUsize(amount) == Some(ToNat(amount)) && ToNat(amount) >= width
    ensures Runtime.Shift(b, amount, width, right, arithmetic) ==
      Some(Fill(width, arithmetic && SignBit(Runtime.Resized(b, width, false))))
  {
    hide ToNat;
    hide Runtime.ToUsize;
    if width == 0 {
      assert Fill(0, true) == Fill(0, false);
    } else {
      assert SignBit(Runtime.Resized(b, width, false)) == Runtime.BitAt(b, width - 1);
    }
  }

  lemma RuntimeMoves(b: Bits, amount: Bits, width: nat, right: bool, arithmetic: bool)
    requires Runtime.ToUsize(amount) == Some(ToNat(amount)) && ToNat(amount) < width
    ensures Runtime.Shift(b, amount, width, right, arithmetic) ==
      var value := Runtime.Resized(b, width, false);
      Some(if right then ShiftDown(value, ToNat(amount), arithmetic && SignBit(value))
        else ShiftUp(value, ToNat(amount), false))
  {
    hide ToNat;
    hide Runtime.ToUsize;
    var value := Runtime.Resized(b, width, false);
    assert SignBit(value) == Runtime.BitAt(b, width - 1);
    var actual := Runtime.Shift(b, amount, width, right, arithmetic).value;
    if right {
      assert actual == ShiftDown(value, ToNat(amount), arithmetic && SignBit(value));
    } else {
      assert actual == ShiftUp(value, ToNat(amount), false);
    }
  }

  /** Where the shift network agrees with the runtime. */
  predicate ShiftsAgree(operator: BinaryOperator, valueWidth: nat, amountWidth: nat, width: nat) {
    width != 1 || operator == RightShiftArithmetic || amountWidth == 0 || valueWidth == 0
  }

  ghost predicate ShiftsAlwaysAgree(operator: BinaryOperator, valueWidth: nat, amountWidth: nat, width: nat) {
    forall b: Bits, amount: Bits :: |b| == valueWidth && |amount| == amountWidth ==>
      ShiftAgrees(operator, b, amount, width)
  }

  predicate ShiftAgrees(operator: BinaryOperator, b: Bits, amount: Bits, width: nat) {
    var result := ApplyBinary(operator, b, amount, width, false);
    result == None || result == Some(ShiftNetwork(operator, b, amount, width))
  }

  /** A logical shift of one bit is the only shift that goes wrong. */
  lemma ShiftsAgreeExactly(operator: BinaryOperator, valueWidth: nat, amountWidth: nat, width: nat)
    requires IsShift(operator)
    ensures ShiftsAlwaysAgree(operator, valueWidth, amountWidth, width) <==>
      ShiftsAgree(operator, valueWidth, amountWidth, width)
  {
    hide ShiftWord;
    hide ApplyBinary;
    hide Runtime.Resized;
    hide ToNat;
    forall b: Bits, amount: Bits |
      |b| == valueWidth && |amount| == amountWidth && ShiftsAgree(operator, valueWidth, amountWidth, width)
      ensures ShiftAgrees(operator, b, amount, width)
    {
      if ApplyBinary(operator, b, amount, width, false).Some? {
        RuntimeShifts(operator, b, amount, width);
        if width < 2 {
          NarrowShift(operator, b, amount, width);
        }
      }
    }
    if !ShiftsAgree(operator, valueWidth, amountWidth, width) {
      var b, amount := Fill(valueWidth, true), [true] + Zeros(amountWidth - 1);
      OneBitShift(operator, b, amount);
      assert !ShiftAgrees(operator, b, amount, width);
    }
  }

  lemma NarrowOperands(b: Bits, amount: Bits, width: nat)
    ensures amount == [] ==> ToNat(amount) == 0
    ensures b == [] && width == 1 ==> Runtime.Resized(b, width, false) == [false]
  {
    hide Pow2;
  }

  lemma NarrowShift(operator: BinaryOperator, b: Bits, amount: Bits, width: nat)
    requires IsShift(operator) && width < 2 && ShiftsAgree(operator, |b|, |amount|, width)
    ensures ShiftWord(OperationOf(operator), Runtime.Resized(b, width, false), ToNat(amount)) ==
      Runtime.Resized(b, width, false)
  {
    hide ToNat;
    hide Pow2;
    hide Runtime.Resized;
    var value := Runtime.Resized(b, width, false);
    NarrowOperands(b, amount, width);
    MovesOfOperator(operator, value, ToNat(amount));
    hide ShiftWord;
    var shifted := ShiftWord(OperationOf(operator), value, ToNat(amount));
    assert forall i :: 0 <= i < width ==> shifted[i] == value[i];
  }

  /** Shifting a set bit by one should clear it, but the network keeps it. */
  lemma OneBitShift(operator: BinaryOperator, b: Bits, amount: Bits)
    requires operator == LeftShift || operator == RightShift
    requires b != [] && b[0] && amount != [] && amount == [true] + Zeros(|amount| - 1)
    ensures ApplyBinary(operator, b, amount, 1, false) == Some([false])
    ensures ShiftNetwork(operator, b, amount, 1) == [true]
  {
    hide ToNat;
    hide Pow2;
    ToNatCons(true, Zeros(|amount| - 1));
    ToNatZeros(|amount| - 1);
    assert Runtime.ToUsize(amount).Some?;
    Runtime.ToUsizeIsValue(amount);
    hide Runtime.ToUsize;
    ShiftOfOperator(operator, b, amount, 1);
    hide ApplyBinary;
    assert Fill(1, false) == [false];
    assert Runtime.Resized(b, 1, false) == [true];
  }

  // ----- dynamic selection -----

  method SelectLevelWithoutOr(fsm: FSM, level: seq<Value>, select: Value) returns (next: seq<Value>)
    requires |level| % 2 == 0 && Ordered(fsm.variables) && Readable(fsm, level)
    requires select.Known(|fsm.variables|)
    modifies fsm`variables
    ensures Extended(old(fsm.variables), fsm.variables) && Readable(fsm, next) && |next| == |level| / 2
    ensures forall s, j :: Settled(fsm.variables, s) && 0 <= j < |next| ==>
      Holds(s, next[j]) == Holds(s, level[2 * j + BitVal(Holds(s, select))])
  {
    ghost var start := fsm.variables;
    next := [];
    for i := 0 to |level| / 2
      invariant Extended(start, fsm.variables) && Readable(fsm, next) && |next| == i
      invariant forall s, j :: Settled(fsm.variables, s) && 0 <= j < i ==>
        Holds(s, next[j]) == Holds(s, level[2 * j + BitVal(Holds(s, select))])
    {
      var bit := MuxValueWithoutOr(fsm, level[2 * i], level[2 * i + 1], select);
      next := next + [bit];
    }
  }

  /** Element `index` of a list whose length is a power of two. */
  method SelectWithoutOr(fsm: FSM, value: seq<Value>, index: seq<Value>) returns (r: Value)
    requires |value| == Pow2(|index|) && Ordered(fsm.variables)
    requires Readable(fsm, value) && Readable(fsm, index)
    modifies fsm`variables
    ensures Extended(old(fsm.variables), fsm.variables) && r.Known(|fsm.variables|)
    ensures forall s :: Settled(fsm.variables, s) ==> Holds(s, r) == Holds(s, value[Word(s, index)])
  {
    hide ToNat;
    ghost var start := fsm.variables;
    var level := value;
    SelectStart(value, index);
    for i := 0 to |index|
      invariant Extended(start, fsm.variables) && Readable(fsm, level)
      invariant |level| == Pow2(|index| - i)
      invariant forall s, j :: Settled(fsm.variables, s) && 0 <= j < |level| ==>
        Selected(s, value, index, i, level, j)
    {
      ghost var before := level;
      level := SelectLevelWithoutOr(fsm, level, index[i]);
      ghost var depth := i + 1;
      forall s, j | Settled(fsm.variables, s) && 0 <= j < |level|
        ensures Selected(s, value, index, depth, level, j)
      {
        SelectStep(s, value, index, i, before, level, j);
      }
    }
    r := level[0];
    forall s | Settled(fsm.variables, s)
      ensures Holds(s, r) == Holds(s, value[Word(s, index)])
    {
      assert Selected(s, value, index, |index|, level, 0);
      assert BitsOf(s, index)[..|index|] == BitsOf(s, index);
    }
  }

  /** The candidates for one selected bit, one for each offset. */
  function Choices(value: seq<Value>, bit: nat, count: nat): (r: seq<Value>)
    ensures |r| == count
  {
    seq(count, c requires 0 <= c < count => if c + bit < |value| then value[c + bit] else LOW)
  }

  /** The bits of `value` from a dynamic offset upwards. Offsets past the end read low. */
  method SelectDynamic(fsm: FSM, value: seq<Value>, offset: seq<Value>, width: nat) returns (r: Option<seq<Value>>)
    requires Ordered(fsm.variables) && Readable(fsm, value) && Readable(fsm, offset)
    modifies fsm`variables
    ensures Extended(old(fsm.variables), fsm.variables)
    ensures r.Some? <==> |value| <= Pow2(LONGEST)
    ensures r.Some? ==> Readable(fsm, r.value) && |r.value| == width
    ensures r.Some? ==> forall s :: Settled(fsm.variables, s) ==>
      BitsOf(s, r.value) == Runtime.Select(BitsOf(s, value), Word(s, offset), width)
  {
    hide ToNat;
    hide Pow2;
    hide ResizeValues;
    hide Runtime.Resized;
    if |value| > Pow2(LONGEST) {
      return None;
    }
    ghost var start := fsm.variables;
    var k := Exponent(|value|);
    var low := ResizeValues(offset, k, false, LOW);
    ResizedValues(offset, k, false, |fsm.variables|);
    var result := [];
    for bit := 0 to width
      invariant Extended(start, fsm.variables) && Readable(fsm, result) && |result| == bit
      invariant Readable(fsm, value) && Readable(fsm, low)
      invariant forall s, j: nat :: Settled(fsm.variables, s) && j < bit ==>
        Holds(s, result[j]) == Holds(s, Choices(value, j, Pow2(k))[Word(s, low)])
    {
      var chosen := SelectWithoutOr(fsm, Choices(value, bit, Pow2(k)), low);
      result := result + [chosen];
    }
    forall s | Settled(fsm.variables, s)
      ensures BitsOf(s, result) == Runtime.Select(BitsOf(s, value), Word(s, low), width)
    {
      ChosenBits(s, value, low, k, result);
    }
    if |offset| > k {
      var oversized := TruthyValue(fsm, offset[k..]);
      var zero := ConstantWord(Zeros(width));
      result := CreateMux(fsm, result, zero, oversized.value);
      forall s | Settled(fsm.variables, s)
        ensures BitsOf(s, result) == Runtime.Select(BitsOf(s, value), Word(s, offset), width)
      {
        BitsOfConstantWord(s, Zeros(width));
        assert BitsOf(s, offset[k..]) == BitsOf(s, offset)[k..];
        SelectionOverflows(BitsOf(s, value), BitsOf(s, offset), k, width);
      }
    } else {
      forall s | Settled(fsm.variables, s)
        ensures BitsOf(s, result) == Runtime.Select(BitsOf(s, value), Word(s, offset), width)
      {
        Runtime.ZeroExtended(BitsOf(s, offset), k);
      }
    }
    return Some(result);
  }

  lemma ChosenBits(s: Assignment, value: seq<Value>, low: seq<Value>, k: nat, result: seq<Value>)
    requires |low| == k
    requires forall j: nat :: j < |result| ==> Holds(s, result[j]) == Holds(s, Choices(value, j, Pow2(k))[Word(s, low)])
    ensures BitsOf(s, result) == Runtime.Select(BitsOf(s, value), Word(s, low), |result|)
  {
    hide ToNat;
    hide Pow2;
  }

  lemma Truncated(b: Bits, k: nat)
    requires k <= |b|
    ensures Runtime.Resized(b, k, false) == b[..k]
  {
  }

  lemma SelectionOverflows(b: Bits, offset: Bits, k: nat, width: nat)
    requires |b| <= Pow2(k) && k < |offset|
    ensures Runtime.Select(b, ToNat(offset), width) ==
      if Runtime.Truthy(offset[k..]) then Zeros(width)
      else Runtime.Select(b, ToNat(Runtime.Resized(offset, k, false)), width)
  {
    hide ToNat;
    hide Pow2;
    hide Runtime.Resized;
    hide Runtime.Select;
    Truncated(offset, k);
    ToNatSplit(offset, k);
    ToNatZeroIff(offset[k..]);
    if Runtime.Truthy(offset[k..]) {
      MultipleBound(Pow2(k), ToNat(offset[k..]));
      SelectPastEnd(b, ToNat(offset), width);
    } else {
      Distribute(Pow2(k), 0, 0);
    }
  }

  lemma SelectPastEnd(b: Bits, offset: nat, width: nat)
    requires offset >= |b|
    ensures Runtime.Select(b, offset, width) == Zeros(width)
  {
    var selected := Runtime.Select(b, offset, width);
    forall i | 0 <= i < width
      ensures selected[i] == Zeros(width)[i]
    {
      assert selected[i] == Runtime.BitAt(b, offset + i);
    }
  }

  // ----- candidates -----

  /** The last candidate that an index word of the given width can mean. */
  function LastMatch(candidates: seq<nat>, width: nat, index: nat): (r: Option<nat>)
    ensures r.Some? ==> r.value < |candidates|
  {
    if candidates == [] then None
    else if candidates[|candidates| - 1] % Pow2(width) == index then Some(|candidates| - 1)
    else LastMatch(candidates[..|candidates| - 1], width, index)
  }

  lemma {:induction false} LastMatchIs(candidates: seq<nat>, width: nat, index: nat, k: nat)
    requires k < |candidates| && candidates[k] % Pow2(width) == index
    requires forall j :: k < j < |candidates| ==> candidates[j] % Pow2(width) != index
    ensures LastMatch(candidates, width, index) == Some(k)
  {
    hide Pow2;
    if k < |candidates| - 1 {
      assert candidates[|candidates| - 1] % Pow2(width) != index;
      LastMatchIs(candidates[..|candidates| - 1], width, index, k);
    }
  }

  lemma {:induction false} LastMatchNone(candidates: seq<nat>, width: nat, index: nat)
    requires forall j :: 0 <= j < |candidates| ==> candidates[j] % Pow2(width) != index
    ensures LastMatch(candidates, width, index) == None
  {
    hide Pow2;
    if candidates != [] {
      assert candidates[|candidates| - 1] % Pow2(width) != index;
      LastMatchNone(candidates[..|candidates| - 1], width, index);
    }
  }

  ghost function Chosen(s: Assignment, candidates: seq<nat>, index: seq<Value>, current: seq<Value>, updated: seq<seq<Value>>): Bits
    requires |updated| == |candidates|
  {
    match LastMatch(candidates, |index|, Word(s, index))
    case None => BitsOf(s, current)
    case Some(k) => BitsOf(s, updated[k])
  }

  /** A chain of multiplexers: each candidate in turn replaces the result if the index
      equals it. Candidates are cut to the width of the index. */
  method ChooseCandidate(fsm: FSM, candidates: seq<nat>, index: seq<Value>, current: seq<Value>,
    updated: seq<seq<Value>>)
    returns (r: Option<seq<Value>>)
    requires |updated| == |candidates| && Ordered(fsm.variables) && Readable(fsm, index) && Readable(fsm, current)
    requires forall k :: 0 <= k < |updated| ==> |updated[k]| == |current| && Readable(fsm, updated[k])
    modifies fsm`variables
    ensures Extended(old(fsm.variables), fsm.variables)
    ensures r.Some? <==> candidates == [] || index != []
    ensures r.Some? ==> Readable(fsm, r.value) && |r.value| == |current|
    ensures r.Some? ==> forall s :: Settled(fsm.variables, s) ==>
      BitsOf(s, r.value) == Chosen(s, candidates, index, current, updated)
  {
    hide ToNat;
    hide Pow2;
    hide FromInt;
    hide Chosen;
    hide Settled;
    ghost var start := fsm.variables;
    var result := current;
    NothingChosen(candidates, index, current, updated);
    for k := 0 to |candidates|
      invariant Extended(start, fsm.variables) && Readable(fsm, result) && |result| == |current|
      invariant k > 0 ==> index != []
      invariant forall s :: Settled(fsm.variables, s) ==>
        BitsOf(s, result) == Chosen(s, candidates[..k], index, current, updated[..k])
    {
      var selected := EqualsConstant(fsm, index, FromInt(candidates[k], |index|));
      if selected == None {
        return None;
      }
      ghost var before := result;
      ghost var next := k + 1;
      result := MuxWithoutOr(fsm, result, updated[k], selected.value);
      forall s | Settled(fsm.variables, s)
        ensures BitsOf(s, result) == Chosen(s, candidates[..next], index, current, updated[..next])
      {
        ChosenNext(s, candidates, index, current, updated, k);
      }
    }
    assert candidates[..|candidates|] == candidates && updated[..|updated|] == updated;
    return Some(result);
  }

  lemma NothingChosen(candidates: seq<nat>, index: seq<Value>, current: seq<Value>, updated: seq<seq<Value>>)
    requires |updated| == |candidates|
    ensures forall s :: Chosen(s, candidates[..0], index, current, updated[..0]) == BitsOf(s, current)
  {
  }

  lemma ChosenNext(s: Assignment, candidates: seq<nat>, index: seq<Value>, current: seq<Value>,
    updated: seq<seq<Value>>, k: nat)
    requires |updated| == |candidates| && k < |candidates|
    ensures Chosen(s, candidates[..k + 1], index, current, updated[..k + 1]) ==
      if BitsOf(s, index) == FromInt(candidates[k], |index|) then BitsOf(s, updated[k])
      else Chosen(s, candidates[..k], index, current, updated[..k])
  {
    hide FromInt;
    hide ToNat;
    hide Pow2;
    IndexMatches(BitsOf(s, index), candidates[k]);
    LastMatchNext(candidates, |index|, Word(s, index), k);
    hide LastMatch;
  }

  lemma LastMatchNext(candidates: seq<nat>, width: nat, index: nat, k: nat)
    requires k < |candidates|
    ensures LastMatch(candidates[..k + 1], width, index) ==
      if candidates[k] % Pow2(width) == index then Some(k) else LastMatch(candidates[..k], width, index)
  {
    hide Pow2;
    var longer := candidates[..k + 1];
    assert longer[..|longer| - 1] == candidates[..k] && longer[|longer| - 1] == candidates[k];
  }

  lemma IndexMatches(index: Bits, candidate: nat)
    ensures index == FromInt(candidate, |index|) <==> ToNat(index) == candidate % Pow2(|index|)
  {
    hide FromInt;
    hide ToNat;
    hide Pow2;
    ToNatFromInt(candidate, |index|);
    if ToNat(index) == candidate % Pow2(|index|) {
      ToNatInjective(index, FromInt(candidate, |index|));
    }
  }

  // ----- when candidates are unambiguous -----

  function Offsets(count: nat): (r: seq<nat>)
    ensures |r| == count
  {
    seq(count, k requires 0 <= k < count => k)
  }

  /** An offset in range is found among the candidates, and one out of range is not. */
  ghost predicate FindsOffsets(count: nat, width: nat) {
    forall index: nat :: index < Pow2(width) ==>
      LastMatch(Offsets(count), width, index) == if index < count then Some(index) else None
  }

  /** ... exactly when no candidate is cut. */
  lemma OffsetsFoundExactly(count: nat, width: nat)
    ensures FindsOffsets(count, width) <==> count <= Pow2(width)
  {
    hide Pow2;
    if count <= Pow2(width) {
      forall index: nat | index < Pow2(width)
        ensures LastMatch(Offsets(count), width, index) == if index < count then Some(index) else None
      {
        OffsetFound(count, width, index);
      }
    } else {
      var first := Pow2(width);
      ModuloUnique(first, first, 1, 0);
      WrongOffset(count, width);
    }
  }

  lemma OffsetFound(count: nat, width: nat, index: nat)
    requires count <= Pow2(width) && index < Pow2(width)
    ensures LastMatch(Offsets(count), width, index) == if index < count then Some(index) else None
  {
    hide Pow2;
    hide LastMatch;
    forall j | 0 <= j < count
      ensures Offsets(count)[j] % Pow2(width) == j
    {
      SmallModulo(j, Pow2(width));
    }
    if index < count {
      LastMatchIs(Offsets(count), width, index, index);
    } else {
      LastMatchNone(Offsets(count), width, index);
    }
  }

  /** With a candidate too many, offset zero finds a later one. */
  lemma {:induction false} WrongOffset(count: nat, width: nat)
    requires count > Pow2(width)
    ensures LastMatch(Offsets(count), width, 0).Some? && LastMatch(Offsets(count), width, 0).value >= Pow2(width)
  {
    hide Pow2;
    if count == Pow2(width) + 1 {
      ModuloUnique(Pow2(width), Pow2(width), 1, 0);
      assert Offsets(count)[count - 1] == Pow2(width);
    } else {
      assert Offsets(count)[..count - 1] == Offsets(count - 1);
      WrongOffset(count - 1, width);
    }
  }

  /** Declared indices as candidates; negative ones cannot be compared. */
  function IndexCandidates(range: Range): (r: Option<seq<nat>>)
    ensures r.Some? <==> range.left >= 0 && range.right >= 0
    ensures r.Some? ==> |r.value| == range.Length()
    ensures r.Some? ==> forall k :: 0 <= k < |r.value| ==> r.value[k] == range.Indices()[k]
  {
    if range.left < 0 || range.right < 0 then None
    else Some(seq(range.Length(), k requires 0 <= k < range.Length() => range.IndexOf(k)))
  }

  /** Every declared index that fits the index word finds its own element. */
  ghost predicate FindsIndices(range: Range, width: nat)
    requires range.left >= 0 && range.right >= 0
  {
    forall index: nat :: index < Pow2(width) && Position(index, range).Some? ==>
      LastMatch(IndexCandidates(range).value, width, index) == Position(index, range)
  }

  /** Descending ranges always work; ascending ones fail when an index and a later one
      differ by a power of two that the index word drops. */
  predicate Distinguishable(range: Range, width: nat) {
    range.left > range.right || range.left >= Pow2(width) || range.right < range.left + Pow2(width)
  }

  lemma IndicesFoundExactly(range: Range, width: nat)
    requires range.left >= 0 && range.right >= 0
    ensures FindsIndices(range, width) <==> Distinguishable(range, width)
  {
    hide Pow2;
    hide LastMatch;
    if Distinguishable(range, width) {
      forall index: nat | index < Pow2(width) && Position(index, range).Some?
        ensures LastMatch(IndexCandidates(range).value, width, index) == Position(index, range)
      {
        IndexFound(range, width, index);
      }
    } else {
      var index: nat := range.left;
      IndexMissed(range, width);
    }
  }

  lemma IndexFound(range: Range, width: nat, index: nat)
    requires range.left >= 0 && range.right >= 0 && Distinguishable(range, width)
    requires index < Pow2(width) && Position(index, range).Some?
    ensures LastMatch(IndexCandidates(range).value, width, index) == Position(index, range)
  {
    hide Pow2;
    hide LastMatch;
    var candidates := IndexCandidates(range).value;
    var k := Position(index, range).value;
    assert candidates[k] == range.IndexOf(k) == index;
    SmallModulo(index, Pow2(width));
    forall j | k < j < |candidates|
      ensures candidates[j] % Pow2(width) != index
    {
      assert candidates[j] == range.IndexOf(j);
      if range.left > range.right {
        SmallModulo(candidates[j], Pow2(width));
      } else {
        CloseNumbers(index, candidates[j], Pow2(width));
      }
    }
    LastMatchIs(candidates, width, index, k);
  }

  lemma CloseNumbers(a: nat, b: nat, m: nat)
    requires m > 0 && a < m && a < b < a + m
    ensures b % m != a
  {
    if b < m {
      SmallModulo(b, m);
    } else {
      ModuloUnique(b, m, 1, b - m);
    }
  }

  lemma {:induction false} IndexMissed(range: Range, width: nat)
    requires 0 <= range.left < Pow2(width) && range.right >= range.left + Pow2(width)
    ensures Position(range.left, range) == Some(0)
    ensures LastMatch(IndexCandidates(range).value, width, range.left) != Some(0)
    ensures !FindsIndices(range, width)
  {
    hide Pow2;
    var candidates := IndexCandidates(range).value;
    var k := Pow2(width);
    assert candidates[k] == range.IndexOf(k) == range.left + k;
    ModuloUnique(candidates[k], k, 1, range.left);
    LaterMatch(candidates, width, range.left, k);
  }

  lemma {:induction false} LaterMatch(candidates: seq<nat>, width: nat, index: nat, k: nat)
    requires k < |candidates| && candidates[k] % Pow2(width) == index
    ensures LastMatch(candidates, width, index).Some? && LastMatch(candidates, width, index).value >= k
  {
    hide Pow2;
    if candidates[|candidates| - 1] % Pow2(width) != index {
      LaterMatch(candidates[..|candidates| - 1], width, index, k);
    }
  }
}
