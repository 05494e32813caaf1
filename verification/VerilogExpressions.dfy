/** Symbolic evaluation of expressions: gates that compute what the generated
    simulator evaluates. */
module VerilogExpressions {
  import opened Words
  import opened Shifts
  import opened Fsm
  import opened Ops
  import opened Ranges
  import opened Slices
  import opened VerilogAst
  import opened VerilogSimulator
  import opened VerilogOperators
  import opened VerilogSelection
  import Runtime = VerilogRuntime

  /** The values of the variables that have one. */
  type Environment = map<nat, seq<Value>>

  ghost predicate EnvironmentKnown(environment: Environment, limit: nat) {
    forall id :: id in environment ==> AllKnown(environment[id], limit)
  }

  /** The environment denotes the store on `ids`. */
  ghost predicate Agrees(s: Assignment, environment: Environment, store: Store, ids: set<nat>) {
    forall id :: id in ids ==> id in environment && id < |store| && BitsOf(s, environment[id]) == store[id]
  }

  /** Widths fit together, and no shift or index is one on which the backends differ. */
  predicate Sound(e: Expression) {
    match e
    case Literal(value, width) => value < Pow2(width)
    case Read(_, _) => true
    case Unary(_, operand, _) => Sound(operand)
    case Binary(operator, lhs, rhs, width, _) =>
      && Sound(lhs) && Sound(rhs)
      && (IsShift(operator) ==> ShiftsAgree(operator, lhs.width, rhs.width, width))
      && (operator == Concatenate ==> width == lhs.width + rhs.width)
    case Conditional(condition, thenValue, elseValue, _) => Sound(condition) && Sound(thenValue) && Sound(elseValue)
    case Replicated(source, count, width) => Sound(source) && width == source.width * count
    case Part(whole, offset, _) => Sound(whole) && (offset.Literal? || Sound(offset))
    case Indexed(whole, index, layout, _) =>
      Sound(whole) && Sound(index) && Distinguishable(layout.indices, index.width)
  }

  /** In every settled assignment, `values` holds the value of `e` in every store that
      the environment denotes there. */
  ghost predicate Computes(variables: seq<Driver>, e: Expression, environment: Environment, values: seq<Value>) {
    forall s, store :: Settled(variables, s) && Agrees(s, environment, store, ExpressionReads(e)) ==>
      Matches(ValueOf(e, store), BitsOf(s, values))
  }

  /** The result, if there is one. */
  predicate Matches(result: Option<Bits>, b: Bits) {
    result.Some? ==> result.value == b
  }

  // ----- which expressions convert -----

  /** The widths of the variables that have a value. */
  function WidthsOf(environment: Environment): map<nat, nat> {
    map id | id in environment :: |environment[id]|
  }

  function BinaryWidth(operator: BinaryOperator, lhs: nat, rhs: nat, width: nat): nat {
    if operator == Concatenate then lhs + rhs
    else if IsComparison(operator) || operator == LogicalAnd || operator == LogicalOr then 1
    else width
  }

  predicate BinaryAccepted(operator: BinaryOperator, lhs: nat, rhs: nat, width: nat) {
    && (IsShift(operator) ==> width <= Pow2(LONGEST))
    && (operator == LogicalAnd || operator == LogicalOr ==> lhs > 0 && rhs > 0)
  }

  /** The width of the word that an expression converts to. */
  function WordWidth(e: Expression, widths: map<nat, nat>): nat {
    match e
    case Literal(_, width) => width
    case Read(id, _) => if id in widths then widths[id] else 0
    case Unary(operator, operand, width) => UnaryWidth(operator, WordWidth(operand, widths), width)
    case Binary(operator, lhs, rhs, width, _) =>
      BinaryWidth(operator, WordWidth(lhs, widths), WordWidth(rhs, widths), width)
    case Conditional(_, _, _, width) => width
    case Replicated(source, count, _) => WordWidth(source, widths) * count
    case Part(_, _, width) => width
    case Indexed(_, _, layout, _) => layout.elementWidth
  }

  /** The backend converts the expression: variables have values, constant parts are in
      range, arrays fit, and nothing is reduced, tested or indexed without a bit. */
  predicate Accepts(e: Expression, widths: map<nat, nat>)
    decreases e, 0
  {
    match e
    case Literal(_, _) => true
    case Read(id, _) => id in widths
    case Unary(operator, operand, _) =>
      Accepts(operand, widths) && UnaryAccepted(operator, WordWidth(operand, widths))
    case Binary(operator, lhs, rhs, width, _) =>
      && Accepts(lhs, widths) && Accepts(rhs, widths)
      && BinaryAccepted(operator, WordWidth(lhs, widths), WordWidth(rhs, widths), width)
    case Conditional(condition, thenValue, elseValue, _) =>
      && Accepts(condition, widths) && WordWidth(condition, widths) > 0
      && Accepts(thenValue, widths) && Accepts(elseValue, widths)
    case Replicated(source, _, _) => Accepts(source, widths)
    case Part(whole, offset, width) =>
      Accepts(whole, widths) && SelectAccepted(offset, WordWidth(whole, widths), width, widths)
    case Indexed(whole, index, layout, _) =>
      Accepts(whole, widths) && IndexAccepted(index, layout, WordWidth(whole, widths), widths)
  }

  predicate SelectAccepted(offset: Expression, available: nat, width: nat, widths: map<nat, nat>)
    decreases offset, 1
  {
    if offset.Literal? then offset.value < Pow2(Runtime.USIZE_BITS) && offset.value + width <= available
    else Accepts(offset, widths) && available <= Pow2(LONGEST)
  }

  predicate IndexAccepted(index: Expression, layout: Layout, available: nat, widths: map<nat, nat>)
    decreases index, 1
  {
    && Accepts(index, widths) && WordWidth(index, widths) > 0
    && layout.indices.left >= 0 && layout.indices.right >= 0
    && layout.indices.Length() * layout.elementWidth <= available
  }

  // ----- growth -----

  lemma ComputesGrows(before: seq<Driver>, after: seq<Driver>, e: Expression, environment: Environment,
    values: seq<Value>)
    requires Grows(before, after) && Computes(before, e, environment, values)
    ensures Computes(after, e, environment, values)
  {
    hide ValueOf;
    hide Settled;
    hide Agrees;
  }

  lemma AgreesOnSome(s: Assignment, environment: Environment, store: Store, ids: set<nat>, some: set<nat>)
    requires Agrees(s, environment, store, ids) && some <= ids
    ensures Agrees(s, environment, store, some)
  {
  }

  lemma KnownLater(environment: Environment, before: nat, after: nat)
    requires EnvironmentKnown(environment, before) && before <= after
    ensures EnvironmentKnown(environment, after)
  {
  }

  // ----- binary operators -----

  /** The operator's result, where the backends agree on it. */
  predicate OperatorAgrees(operator: BinaryOperator, a: Bits, b: Bits, width: nat, signed: bool, r: Bits) {
    && (IsShift(operator) ==> ShiftsAgree(operator, |a|, |b|, width))
    && (operator == Concatenate ==> width == |a| + |b|)
    ==> Matches(ApplyBinary(operator, a, b, width, signed), r)
  }

  method BinaryExpression(fsm: FSM, operator: BinaryOperator, lhs: seq<Value>, rhs: seq<Value>, width: nat,
    signed: bool)
    returns (r: Option<seq<Value>>)
    requires Ordered(fsm.variables) && Readable(fsm, lhs) && Readable(fsm, rhs)
    modifies fsm`variables
    ensures Extended(old(fsm.variables), fsm.variables)
    ensures r.Some? <==> BinaryAccepted(operator, |lhs|, |rhs|, width)
    ensures r.Some? ==> Readable(fsm, r.value) && |r.value| == BinaryWidth(operator, |lhs|, |rhs|, width)
    ensures r.Some? ==> forall s :: Settled(fsm.variables, s) ==>
      OperatorAgrees(operator, BitsOf(s, lhs), BitsOf(s, rhs), width, signed, BitsOf(s, r.value))
  {
    hide Pow2;
    hide ApplyBinary;
    hide ShiftNetwork;
    hide ShiftsAgree;
    hide Settled;
    if IsArithmetic(operator) {
      var result := ArithmeticExpression(fsm, operator, lhs, rhs, width, signed);
      ArithmeticIsNoShift(operator);
      r := Some(result);
    } else if IsComparison(operator) {
      var result := ComparisonExpression(fsm, operator, lhs, rhs);
      r := Some([result]);
      SingleKnown(result, |fsm.variables|);
    } else if IsShift(operator) {
      r := ShiftExpression(fsm, operator, lhs, rhs, width);
      if r.Some? {
        forall s | Settled(fsm.variables, s)
          ensures OperatorAgrees(operator, BitsOf(s, lhs), BitsOf(s, rhs), width, signed, BitsOf(s, r.value))
        {
          ShiftAgreesHere(operator, BitsOf(s, lhs), BitsOf(s, rhs), width, signed);
        }
      }
    } else if operator == Concatenate {
      r := Some(rhs + lhs);
      forall s
        ensures OperatorAgrees(operator, BitsOf(s, lhs), BitsOf(s, rhs), width, signed, BitsOf(s, rhs + lhs))
      {
        ConcatenationAgrees(s, lhs, rhs, width, signed);
      }
    } else if operator == LogicalAnd || operator == LogicalOr {
      r := LogicalExpression(fsm, operator, lhs, rhs, width, signed);
    } else {
      var result := BitwiseExpression(fsm, operator, lhs, rhs, width);
      BitwiseIgnoresSign(operator, width, signed);
      r := Some(result);
    }
  }

  lemma ArithmeticIsNoShift(operator: BinaryOperator)
    requires IsArithmetic(operator)
    ensures !IsShift(operator) && operator != Concatenate
  {
  }

  lemma SingleKnown(value: Value, limit: nat)
    requires value.Known(limit)
    ensures AllKnown([value], limit)
    ensures forall s :: BitsOf(s, [value]) == [Holds(s, value)]
  {
  }

  lemma BitwiseIgnoresSign(operator: BinaryOperator, width: nat, signed: bool)
    requires operator == BitwiseAnd || operator == BitwiseOr || operator == BitwiseXor
    ensures forall a: Bits, b: Bits :: ApplyBinary(operator, a, b, width, signed) == ApplyBinary(operator, a, b, width, false)
  {
  }

  lemma ShiftAgreesHere(operator: BinaryOperator, a: Bits, b: Bits, width: nat, signed: bool)
    requires IsShift(operator)
    ensures ShiftsAgree(operator, |a|, |b|, width) ==>
      Matches(ApplyBinary(operator, a, b, width, signed), ShiftNetwork(operator, a, b, width))
  {
    assert ApplyBinary(operator, a, b, width, signed) == ApplyBinary(operator, a, b, width, false);
    hide ApplyBinary;
    hide ShiftNetwork;
    ShiftsAgreeExactly(operator, |a|, |b|, width);
    if ShiftsAgree(operator, |a|, |b|, width) {
      assert ShiftAgrees(operator, a, b, width);
    }
  }

  lemma ConcatenationAgrees(s: Assignment, lhs: seq<Value>, rhs: seq<Value>, width: nat, signed: bool)
    ensures OperatorAgrees(Concatenate, BitsOf(s, lhs), BitsOf(s, rhs), width, signed, BitsOf(s, rhs + lhs))
  {
    var both := BitsOf(s, rhs) + BitsOf(s, lhs);
    assert BitsOf(s, rhs + lhs) == both;
    if width == |both| {
      assert Runtime.Resized(both, width, false) == both;
    }
  }

  method LogicalExpression(fsm: FSM, operator: BinaryOperator, lhs: seq<Value>, rhs: seq<Value>, width: nat,
    signed: bool)
    returns (r: Option<seq<Value>>)
    requires operator == LogicalAnd || operator == LogicalOr
    requires Ordered(fsm.variables) && Readable(fsm, lhs) && Readable(fsm, rhs)
    modifies fsm`variables
    ensures Extended(old(fsm.variables), fsm.variables)
    ensures r.Some? <==> lhs != [] && rhs != []
    ensures r.Some? ==> Readable(fsm, r.value) && |r.value| == 1
    ensures r.Some? ==> forall s :: Settled(fsm.variables, s) ==>
      OperatorAgrees(operator, BitsOf(s, lhs), BitsOf(s, rhs), width, signed, BitsOf(s, r.value))
  {
    hide Settled;
    hide Runtime.Truthy;
    var a := TruthyValue(fsm, lhs);
    if a == None {
      return None;
    }
    var b := TruthyValue(fsm, rhs);
    if b == None {
      return None;
    }
    var both := fsm.AddVariableGateBinary(if operator == LogicalAnd then And else Or, a.value, b.value);
    SingleKnown(both, |fsm.variables|);
    return Some([both]);
  }

  // ----- selections -----

  /** An index as a machine word is the number its bits denote. */
  lemma UsizeIsWord(e: Expression, store: Store)
    requires Sound(e) && UsizeOf(e, store).Some?
    ensures ValueOf(e, store).Some? && ToNat(ValueOf(e, store).value) == UsizeOf(e, store).value
  {
    hide ToNat;
    hide Pow2;
    hide FromInt;
    if e.Literal? {
      ToNatFromSmall(e.value, e.width);
    } else {
      Runtime.ToUsizeIsValue(ValueOf(e, store).value);
    }
  }

  /** `values` holds the bits of `value` from the offset upwards. */
  ghost predicate Selects(variables: seq<Driver>, value: seq<Value>, offset: Expression, width: nat,
    environment: Environment, values: seq<Value>) {
    forall s, store :: Settled(variables, s) && Agrees(s, environment, store, ExpressionReads(offset)) ==>
      SelectedBits(BitsOf(s, value), UsizeOf(offset, store), width, BitsOf(s, values))
  }

  predicate SelectedBits(b: Bits, offset: Option<nat>, width: nat, r: Bits) {
    offset.Some? ==> r == Runtime.Select(b, offset.value, width)
  }

  method SelectValue(fsm: FSM, value: seq<Value>, offset: Expression, width: nat, environment: Environment)
    returns (r: Option<seq<Value>>)
    requires Ordered(fsm.variables) && EnvironmentKnown(environment, |fsm.variables|) && Readable(fsm, value)
    modifies fsm`variables
    ensures Extended(old(fsm.variables), fsm.variables)
    ensures r.Some? <==> SelectAccepted(offset, |value|, width, WidthsOf(environment))
    ensures r.Some? ==> Readable(fsm, r.value) && |r.value| == width
    ensures r.Some? && (offset.Literal? || Sound(offset)) ==>
      Selects(fsm.variables, value, offset, width, environment, r.value)
    decreases offset, 2
  {
    hide Computes;
    hide ValueOf;
    hide EnvironmentKnown;
    hide Settled;
    hide Sound;
    hide Pow2;
    hide Accepts;
    hide WidthsOf;
    hide Runtime.Select;
    if offset.Literal? {
      if offset.value >= Pow2(Runtime.USIZE_BITS) || offset.value + width > |value| {
        return None;
      }
      r := Some(value[offset.value..offset.value + width]);
      forall s, store
        ensures SelectedBits(BitsOf(s, value), UsizeOf(offset, store), width, BitsOf(s, r.value))
      {
        SliceIsSelect(s, value, offset.value, width);
      }
    } else {
      var word := ConvertExpression(fsm, offset, environment);
      if word == None {
        return None;
      }
      ghost var middle := fsm.variables;
      r := SelectDynamic(fsm, value, word.value, width);
      if r.Some? && Sound(offset) {
        ComputesGrows(middle, fsm.variables, offset, environment, word.value);
        forall s, store | Settled(fsm.variables, s) && Agrees(s, environment, store, ExpressionReads(offset))
          ensures SelectedBits(BitsOf(s, value), UsizeOf(offset, store), width, BitsOf(s, r.value))
        {
          WordOf(fsm.variables, offset, environment, word.value, s, store);
        }
      }
    }
  }

  /** The converted index denotes the machine word. */
  lemma WordOf(variables: seq<Driver>, e: Expression, environment: Environment, values: seq<Value>, s: Assignment,
    store: Store)
    requires Computes(variables, e, environment, values) && Sound(e) && Settled(variables, s)
    requires Agrees(s, environment, store, ExpressionReads(e))
    ensures UsizeOf(e, store).Some? ==>
      UsizeOf(e, store).value == Word(s, values) && |values| == e.width
  {
    hide ValueOf;
    hide UsizeOf;
    hide Settled;
    hide Agrees;
    hide Sound;
    if UsizeOf(e, store).Some? {
      UsizeIsWord(e, store);
      assert Matches(ValueOf(e, store), BitsOf(s, values));
    }
  }

  // ----- arrays -----

  /** Element `k` of an array that is stored as one word. */
  function ElementAt(value: seq<Value>, k: nat, count: nat, elementWidth: nat): (r: seq<Value>)
    requires k < count && count * elementWidth <= |value|
    ensures |r| == elementWidth
  {
    ElementFits(k, count, elementWidth);
    var start := k * elementWidth;
    value[start..start + elementWidth]
  }

  function Elements(value: seq<Value>, count: nat, elementWidth: nat): (r: seq<seq<Value>>)
    requires count * elementWidth <= |value|
    ensures |r| == count
    ensures forall k :: 0 <= k < count ==> |r[k]| == elementWidth
  {
    seq(count, k requires 0 <= k < count => ElementAt(value, k, count, elementWidth))
  }

  /** The element that the index names, unless the index is out of range. */
  predicate IndexedBits(b: Bits, index: Option<nat>, layout: Layout, r: Bits) {
    index.Some? && ArrayOffset(index.value, layout.indices, layout.elementWidth).Some? ==>
      r == Runtime.Select(b, ArrayOffset(index.value, layout.indices, layout.elementWidth).value, layout.elementWidth)
  }

  ghost predicate Indexes(variables: seq<Driver>, value: seq<Value>, index: Expression, layout: Layout,
    environment: Environment, values: seq<Value>) {
    forall s, store :: Settled(variables, s) && Agrees(s, environment, store, ExpressionReads(index)) ==>
      IndexedBits(BitsOf(s, value), UsizeOf(index, store), layout, BitsOf(s, values))
  }

  method ArraySelectValue(fsm: FSM, value: seq<Value>, index: Expression, layout: Layout, environment: Environment)
    returns (r: Option<seq<Value>>)
    requires Ordered(fsm.variables) && EnvironmentKnown(environment, |fsm.variables|) && Readable(fsm, value)
    modifies fsm`variables
    ensures Extended(old(fsm.variables), fsm.variables)
    ensures r.Some? <==> IndexAccepted(index, layout, |value|, WidthsOf(environment))
    ensures r.Some? ==> Readable(fsm, r.value) && |r.value| == layout.elementWidth
    ensures r.Some? && Sound(index) && Distinguishable(layout.indices, index.width) ==>
      Indexes(fsm.variables, value, index, layout, environment, r.value)
    decreases index, 2
  {
    hide Computes;
    hide ValueOf;
    hide EnvironmentKnown;
    hide Settled;
    hide Sound;
    hide LastMatch;
    hide Distinguishable;
    var word := ConvertExpression(fsm, index, environment);
    if word == None {
      return None;
    }
    ghost var middle := fsm.variables;
    var candidates := IndexCandidates(layout.indices);
    if candidates == None || layout.indices.Length() * layout.elementWidth > |value| {
      return None;
    }
    var elements := Elements(value, layout.indices.Length(), layout.elementWidth);
    ElementsReadable(value, layout.indices.Length(), layout.elementWidth, |fsm.variables|);
    var low := ConstantWord(Zeros(layout.elementWidth));
    r := ChooseCandidate(fsm, candidates.value, word.value, low, elements);
    if r.Some? && Sound(index) && Distinguishable(layout.indices, index.width) {
      ComputesGrows(middle, fsm.variables, index, environment, word.value);
      forall s, store | Settled(fsm.variables, s) && Agrees(s, environment, store, ExpressionReads(index))
        ensures IndexedBits(BitsOf(s, value), UsizeOf(index, store), layout, BitsOf(s, r.value))
      {
        WordOf(fsm.variables, index, environment, word.value, s, store);
        if UsizeOf(index, store).Some? {
          ChosenElement(s, value, layout, word.value, low);
        }
      }
    }
  }

  lemma ElementsReadable(value: seq<Value>, count: nat, elementWidth: nat, limit: nat)
    requires count * elementWidth <= |value| && AllKnown(value, limit)
    ensures forall k :: 0 <= k < count ==> AllKnown(Elements(value, count, elementWidth)[k], limit)
  {
    forall k | 0 <= k < count
      ensures AllKnown(Elements(value, count, elementWidth)[k], limit)
    {
      ElementFits(k, count, elementWidth);
    }
  }

  lemma ChosenElement(s: Assignment, value: seq<Value>, layout: Layout, word: seq<Value>, low: seq<Value>)
    requires IndexCandidates(layout.indices).Some? && Distinguishable(layout.indices, |word|)
    requires layout.indices.Length() * layout.elementWidth <= |value|
    ensures IndexedBits(BitsOf(s, value), Some(Word(s, word)), layout,
      Chosen(s, IndexCandidates(layout.indices).value, word, low,
        Elements(value, layout.indices.Length(), layout.elementWidth)))
  {
    hide LastMatch;
    hide ToNat;
    hide Pow2;
    var position := Position(Word(s, word), layout.indices);
    if position.Some? {
      IndexFound(layout.indices, |word|, Word(s, word));
      ElementFits(position.value, layout.indices.Length(), layout.elementWidth);
      SliceIsSelect(s, value, position.value * layout.elementWidth, layout.elementWidth);
    }
  }

  // ----- replication -----

  function RepeatValues(value: seq<Value>, count: nat): (r: seq<Value>)
    ensures |r| == |value| * count
  {
    if count == 0 then [] else RepeatValues(value, count - 1) + value
  }

  lemma {:induction false} RepeatKnown(value: seq<Value>, count: nat, limit: nat)
    requires AllKnown(value, limit)
    ensures AllKnown(RepeatValues(value, count), limit)
  {
    if count > 0 {
      RepeatKnown(value, count - 1, limit);
    }
  }

  lemma {:induction false} RepeatedBits(s: Assignment, value: seq<Value>, count: nat)
    ensures BitsOf(s, RepeatValues(value, count)) == Runtime.Replicate(BitsOf(s, value), count)
  {
    if count > 0 {
      RepeatedBits(s, value, count - 1);
      AppendBits(s, RepeatValues(value, count - 1), value);
    }
  }

  // ----- expressions -----

  method ConvertExpression(fsm: FSM, e: Expression, environment: Environment) returns (r: Option<seq<Value>>)
    requires Ordered(fsm.variables) && EnvironmentKnown(environment, |fsm.variables|)
    modifies fsm`variables
    ensures Extended(old(fsm.variables), fsm.variables)
    ensures r.Some? <==> Accepts(e, WidthsOf(environment))
    ensures r.Some? ==> Readable(fsm, r.value) && |r.value| == WordWidth(e, WidthsOf(environment))
    ensures r.Some? && Sound(e) ==> Computes(fsm.variables, e, environment, r.value)
    decreases e, 1
  {
    hide Computes;
    hide ValueOf;
    hide Settled;
    match e {
      case Literal(value, width) =>
        r := Some(ConstantWord(FromInt(value, width)));
        LiteralComputes(fsm.variables, e, environment);
      case Read(id, _) =>
        if id !in environment {
          return None;
        }
        r := Some(environment[id]);
        ReadComputes(fsm.variables, e, environment);
      case Unary(operator, operand, width) =>
        r := ConvertUnary(fsm, e, environment);
      case Binary(operator, lhs, rhs, width, signed) =>
        r := ConvertBinary(fsm, e, environment);
      case Conditional(_, _, _, _) =>
        r := ConvertConditional(fsm, e, environment);
      case Replicated(source, count, _) =>
        var a := ConvertExpression(fsm, source, environment);
        if a == None {
          return None;
        }
        r := Some(RepeatValues(a.value, count));
        RepeatKnown(a.value, count, |fsm.variables|);
        if Sound(e) {
          ReplicateComputes(fsm.variables, e, environment, a.value);
        }
      case Part(whole, offset, width) =>
        var a := ConvertExpression(fsm, whole, environment);
        if a == None {
          return None;
        }
        ghost var middle := fsm.variables;
        r := SelectValue(fsm, a.value, offset, width, environment);
        if r.Some? && Sound(e) {
          ComputesGrows(middle, fsm.variables, whole, environment, a.value);
          PartComputes(fsm.variables, e, environment, a.value, r.value);
        }
      case Indexed(whole, index, layout, width) =>
        var a := ConvertExpression(fsm, whole, environment);
        if a == None {
          return None;
        }
        ghost var middle := fsm.variables;
        r := ArraySelectValue(fsm, a.value, index, layout, environment);
        if r.Some? && Sound(e) {
          ComputesGrows(middle, fsm.variables, whole, environment, a.value);
          IndexedComputes(fsm.variables, e, environment, a.value, r.value);
        }
    }
  }

  method ConvertUnary(fsm: FSM, e: Expression, environment: Environment) returns (r: Option<seq<Value>>)
    requires e.Unary? && Ordered(fsm.variables) && EnvironmentKnown(environment, |fsm.variables|)
    modifies fsm`variables
    ensures Extended(old(fsm.variables), fsm.variables)
    ensures r.Some? <==> Accepts(e, WidthsOf(environment))
    ensures r.Some? ==> Readable(fsm, r.value) && |r.value| == WordWidth(e, WidthsOf(environment))
    ensures r.Some? && Sound(e) ==> Computes(fsm.variables, e, environment, r.value)
    decreases e, 0
  {
    hide Computes;
    hide ValueOf;
    hide Settled;
    hide ApplyUnary;
    var a := ConvertExpression(fsm, e.operand, environment);
    if a == None {
      return None;
    }
    ghost var middle := fsm.variables;
    r := UnaryExpression(fsm, e.unary, a.value, e.width);
    if r.Some? && Sound(e) {
      ComputesGrows(middle, fsm.variables, e.operand, environment, a.value);
      UnaryComputes(fsm.variables, e, environment, a.value, r.value);
    }
  }

  method ConvertBinary(fsm: FSM, e: Expression, environment: Environment) returns (r: Option<seq<Value>>)
    requires e.Binary? && Ordered(fsm.variables) && EnvironmentKnown(environment, |fsm.variables|)
    modifies fsm`variables
    ensures Extended(old(fsm.variables), fsm.variables)
    ensures r.Some? <==> Accepts(e, WidthsOf(environment))
    ensures r.Some? ==> Readable(fsm, r.value) && |r.value| == WordWidth(e, WidthsOf(environment))
    ensures r.Some? && Sound(e) ==> Computes(fsm.variables, e, environment, r.value)
    decreases e, 0
  {
    hide Computes;
    hide ValueOf;
    hide Settled;
    hide OperatorAgrees;
    var a := ConvertExpression(fsm, e.lhs, environment);
    if a == None {
      return None;
    }
    ghost var first := fsm.variables;
    var b := ConvertExpression(fsm, e.rhs, environment);
    if b == None {
      return None;
    }
    ghost var second := fsm.variables;
    r := BinaryExpression(fsm, e.binary, a.value, b.value, e.width, e.signed);
    if r.Some? && Sound(e) {
      ComputesGrows(first, fsm.variables, e.lhs, environment, a.value);
      ComputesGrows(second, fsm.variables, e.rhs, environment, b.value);
      BinaryComputes(fsm.variables, e, environment, a.value, b.value, r.value);
    }
  }

  method ConvertConditional(fsm: FSM, e: Expression, environment: Environment) returns (r: Option<seq<Value>>)
    requires e.Conditional? && Ordered(fsm.variables) && EnvironmentKnown(environment, |fsm.variables|)
    modifies fsm`variables
    ensures Extended(old(fsm.variables), fsm.variables)
    ensures r.Some? <==> Accepts(e, WidthsOf(environment))
    ensures r.Some? ==> Readable(fsm, r.value) && |r.value| == WordWidth(e, WidthsOf(environment))
    ensures r.Some? && Sound(e) ==> Computes(fsm.variables, e, environment, r.value)
    decreases e, 0
  {
    hide Computes;
    hide ValueOf;
    hide Settled;
    hide ResizeValues;
    hide Runtime.Resized;
    hide Runtime.Truthy;
    var c := ConvertExpression(fsm, e.condition, environment);
    if c == None {
      return None;
    }
    ghost var first := fsm.variables;
    var select := TruthyValue(fsm, c.value);
    if select == None {
      return None;
    }
    ghost var second := fsm.variables;
    var a := ConvertExpression(fsm, e.thenValue, environment);
    if a == None {
      return None;
    }
    ghost var third := fsm.variables;
    var b := ConvertExpression(fsm, e.elseValue, environment);
    if b == None {
      return None;
    }
    ghost var fourth := fsm.variables;
    var thenValue, elseValue := ResizeValues(a.value, e.width, false, LOW), ResizeValues(b.value, e.width, false, LOW);
    ResizedValues(a.value, e.width, false, |fsm.variables|);
    ResizedValues(b.value, e.width, false, |fsm.variables|);
    var result := CreateMux(fsm, elseValue, thenValue, select.value);
    r := Some(result);
    if Sound(e) {
      ComputesGrows(first, fsm.variables, e.condition, environment, c.value);
      ComputesGrows(third, fsm.variables, e.thenValue, environment, a.value);
      ComputesGrows(fourth, fsm.variables, e.elseValue, environment, b.value);
      ConditionalComputes(fsm.variables, e, environment, c.value, a.value, b.value, result);
    }
  }

  // ----- why each form computes its value -----

  lemma LiteralComputes(variables: seq<Driver>, e: Expression, environment: Environment)
    requires e.Literal?
    ensures Computes(variables, e, environment, ConstantWord(FromInt(e.value, e.width)))
  {
    hide FromInt;
    hide ConstantWord;
    forall s, store | Settled(variables, s) && Agrees(s, environment, store, ExpressionReads(e))
      ensures Matches(ValueOf(e, store), BitsOf(s, ConstantWord(FromInt(e.value, e.width))))
    {
      BitsOfConstantWord(s, FromInt(e.value, e.width));
    }
  }

  lemma ReadComputes(variables: seq<Driver>, e: Expression, environment: Environment)
    requires e.Read? && e.id in environment
    ensures Computes(variables, e, environment, environment[e.id])
  {
    forall s, store | Settled(variables, s) && Agrees(s, environment, store, ExpressionReads(e))
      ensures Matches(ValueOf(e, store), BitsOf(s, environment[e.id]))
    {
      assert e.id in ExpressionReads(e);
    }
  }

  lemma UnaryComputes(variables: seq<Driver>, e: Expression, environment: Environment, a: seq<Value>, r: seq<Value>)
    requires e.Unary? && Computes(variables, e.operand, environment, a)
    requires forall s :: Settled(variables, s) ==> BitsOf(s, r) == ApplyUnary(e.unary, BitsOf(s, a), e.width)
    ensures Computes(variables, e, environment, r)
  {
    hide ApplyUnary;
    hide Settled;
    hide Agrees;
    forall s, store | Settled(variables, s) && Agrees(s, environment, store, ExpressionReads(e))
      ensures Matches(ValueOf(e, store), BitsOf(s, r))
    {
      assert Matches(ValueOf(e.operand, store), BitsOf(s, a));
    }
  }

  lemma BinaryComputes(variables: seq<Driver>, e: Expression, environment: Environment, a: seq<Value>, b: seq<Value>,
    r: seq<Value>)
    requires e.Binary? && Sound(e)
    requires Computes(variables, e.lhs, environment, a) && Computes(variables, e.rhs, environment, b)
    requires forall s :: Settled(variables, s) ==>
      OperatorAgrees(e.binary, BitsOf(s, a), BitsOf(s, b), e.width, e.signed, BitsOf(s, r))
    ensures Computes(variables, e, environment, r)
  {
    hide ApplyBinary;
    hide Settled;
    hide ShiftsAgree;
    forall s, store | Settled(variables, s) && Agrees(s, environment, store, ExpressionReads(e))
      ensures Matches(ValueOf(e, store), BitsOf(s, r))
    {
      AgreesOnSome(s, environment, store, ExpressionReads(e), ExpressionReads(e.lhs));
      AgreesOnSome(s, environment, store, ExpressionReads(e), ExpressionReads(e.rhs));
      assert Matches(ValueOf(e.lhs, store), BitsOf(s, a)) && Matches(ValueOf(e.rhs, store), BitsOf(s, b));
    }
  }

  lemma ConditionalComputes(variables: seq<Driver>, e: Expression, environment: Environment, c: seq<Value>,
    a: seq<Value>, b: seq<Value>, r: seq<Value>)
    requires e.Conditional? && Computes(variables, e.condition, environment, c)
    requires Computes(variables, e.thenValue, environment, a) && Computes(variables, e.elseValue, environment, b)
    requires forall s :: Settled(variables, s) ==>
      BitsOf(s, r) ==
        Runtime.Resized(if Runtime.Truthy(BitsOf(s, c)) then BitsOf(s, a) else BitsOf(s, b), e.width, false)
    ensures Computes(variables, e, environment, r)
  {
    hide Settled;
    hide Runtime.Resized;
    hide Runtime.Truthy;
    forall s, store | Settled(variables, s) && Agrees(s, environment, store, ExpressionReads(e))
      ensures Matches(ValueOf(e, store), BitsOf(s, r))
    {
      AgreesOnSome(s, environment, store, ExpressionReads(e), ExpressionReads(e.condition));
      AgreesOnSome(s, environment, store, ExpressionReads(e), ExpressionReads(e.thenValue));
      AgreesOnSome(s, environment, store, ExpressionReads(e), ExpressionReads(e.elseValue));
      assert Matches(ValueOf(e.condition, store), BitsOf(s, c));
      assert Matches(ValueOf(e.thenValue, store), BitsOf(s, a));
      assert Matches(ValueOf(e.elseValue, store), BitsOf(s, b));
    }
  }

  lemma ReplicateComputes(variables: seq<Driver>, e: Expression, environment: Environment, a: seq<Value>)
    requires e.Replicated? && Sound(e) && Computes(variables, e.source, environment, a)
    ensures Computes(variables, e, environment, RepeatValues(a, e.count))
  {
    hide Settled;
    hide Runtime.Replicate;
    forall s, store | Settled(variables, s) && Agrees(s, environment, store, ExpressionReads(e))
      ensures Matches(ValueOf(e, store), BitsOf(s, RepeatValues(a, e.count)))
    {
      assert Matches(ValueOf(e.source, store), BitsOf(s, a));
      RepeatedBits(s, a, e.count);
      if ValueOf(e.source, store).Some? {
        var all := Runtime.Replicate(BitsOf(s, a), e.count);
        assert Runtime.Resized(all, e.width, false) == all;
      }
    }
  }

  lemma PartComputes(variables: seq<Driver>, e: Expression, environment: Environment, a: seq<Value>, r: seq<Value>)
    requires e.Part? && Computes(variables, e.whole, environment, a)
    requires Selects(variables, a, e.offset, e.width, environment, r)
    ensures Computes(variables, e, environment, r)
  {
    hide Settled;
    hide UsizeOf;
    hide Runtime.Select;
    forall s, store | Settled(variables, s) && Agrees(s, environment, store, ExpressionReads(e))
      ensures Matches(ValueOf(e, store), BitsOf(s, r))
    {
      AgreesOnSome(s, environment, store, ExpressionReads(e), ExpressionReads(e.whole));
      AgreesOnSome(s, environment, store, ExpressionReads(e), ExpressionReads(e.offset));
      assert Matches(ValueOf(e.whole, store), BitsOf(s, a));
      assert SelectedBits(BitsOf(s, a), UsizeOf(e.offset, store), e.width, BitsOf(s, r));
    }
  }

  lemma IndexedComputes(variables: seq<Driver>, e: Expression, environment: Environment, a: seq<Value>, r: seq<Value>)
    requires e.Indexed? && Computes(variables, e.whole, environment, a)
    requires Indexes(variables, a, e.index, e.layout, environment, r)
    ensures Computes(variables, e, environment, r)
  {
    hide Settled;
    hide UsizeOf;
    hide Runtime.Select;
    hide ArrayOffset;
    forall s, store | Settled(variables, s) && Agrees(s, environment, store, ExpressionReads(e))
      ensures Matches(ValueOf(e, store), BitsOf(s, r))
    {
      AgreesOnSome(s, environment, store, ExpressionReads(e), ExpressionReads(e.whole));
      AgreesOnSome(s, environment, store, ExpressionReads(e), ExpressionReads(e.index));
      assert Matches(ValueOf(e.whole, store), BitsOf(s, a));
      assert IndexedBits(BitsOf(s, a), UsizeOf(e.index, store), e.layout, BitsOf(s, r));
    }
  }
}
