/** Lowering of circuit nodes to gates, node by node and once each. */
module CircuitLowering {
  import opened Words
  import opened Shifts
  import opened Fsm
  import opened Ops
  import opened Slices
  import opened CircuitLiterals
  import opened CircuitGraph
  import opened CircuitMeaning
  import Runtime = VerilogRuntime

  ghost predicate AllReadable(variables: seq<Driver>, words: seq<seq<Value>>) {
    forall k :: 0 <= k < |words| ==> AllKnown(words[k], |variables|)
  }

  function AllBits(s: Assignment, words: seq<seq<Value>>): (r: seq<Bits>)
    ensures |r| == |words|
  {
    seq(|words|, k requires 0 <= k < |words| => BitsOf(s, words[k]))
  }

  function WordWidths(words: seq<seq<Value>>): (r: seq<nat>)
    ensures |r| == |words|
  {
    seq(|words|, k requires 0 <= k < |words| => |words[k]|)
  }

  lemma WidthsOfBits(s: Assignment, words: seq<seq<Value>>)
    ensures Widths(AllBits(s, words)) == WordWidths(words)
  {
  }

  // ----- combinational operators -----

  method LowerBinary(fsm: FSM, operator: CombOperator, a: seq<Value>, b: seq<Value>) returns (r: seq<Value>)
    requires |a| == |b| < Pow2(WORD_BITS) && Ordered(fsm.variables) && Readable(fsm, a) && Readable(fsm, b)
    modifies fsm`variables
    ensures Extended(old(fsm.variables), fsm.variables) && Readable(fsm, r) && |r| == |a|
    ensures forall s :: Settled(fsm.variables, s) ==> BitsOf(s, r) == BinaryMeaning(operator, BitsOf(s, a), BitsOf(s, b))
  {
    hide FromInt;
    hide ToNat;
    hide Pow2;
    hide Quotient;
    hide SignedQuotient;
    hide Remainder;
    hide SignedRemainder;
    hide ShiftWord;
    hide Settled;
    match operator {
      case CombAdd => r := CreateAddition(fsm, a, b);
      case CombSub => r := CreateSubtraction(fsm, a, b);
      case CombMul => r := CreateMultiplication(fsm, a, b);
      case DivUnsigned => r := CreateUnsignedDivision(fsm, a, b);
      case DivSigned => r := CreateSignedDivision(fsm, a, b);
      case ModUnsigned => r := CreateUnsignedRemainder(fsm, a, b);
      case ModSigned => r := CreateSignedRemainder(fsm, a, b);
      case ShiftLeft => r := CreateShifter(fsm, a, b, ShiftOf(operator));
      case ShiftRightSigned => r := CreateShifter(fsm, a, b, ShiftOf(operator));
      case ShiftRightUnsigned => r := CreateShifter(fsm, a, b, ShiftOf(operator));
      case CombAnd => r := LowerBitwise(fsm, operator, a, b);
      case CombOr => r := LowerBitwise(fsm, operator, a, b);
      case CombXor => r := LowerBitwise(fsm, operator, a, b);
    }
  }

  method LowerBitwise(fsm: FSM, operator: CombOperator, a: seq<Value>, b: seq<Value>) returns (r: seq<Value>)
    requires operator == CombAnd || operator == CombOr || operator == CombXor
    requires |a| == |b| && Ordered(fsm.variables) && Readable(fsm, a) && Readable(fsm, b)
    modifies fsm`variables
    ensures Extended(old(fsm.variables), fsm.variables) && Readable(fsm, r) && |r| == |a|
    ensures forall s :: Settled(fsm.variables, s) ==> BitsOf(s, r) == BinaryMeaning(operator, BitsOf(s, a), BitsOf(s, b))
  {
    ghost var start := fsm.variables;
    r := [];
    for i := 0 to |a|
      invariant Extended(start, fsm.variables) && Readable(fsm, r) && |r| == i
      invariant forall s, j :: Settled(fsm.variables, s) && 0 <= j < i ==>
        Holds(s, r[j]) == Bitwise(operator, Holds(s, a[j]), Holds(s, b[j]))
    {
      var inputs := [a[i], b[i]];
      assert inputs[0] == a[i] && inputs[1] == b[i];
      var bit;
      if operator == CombXor {
        bit := CreateXorGate(fsm, a[i], b[i]);
      } else {
        bit := fsm.AddVariableGateBinary(if operator == CombAnd then And else Or, a[i], b[i]);
      }
      r := r + [bit];
    }
    forall s | Settled(fsm.variables, s)
      ensures BitsOf(s, r) == BinaryMeaning(operator, BitsOf(s, a), BitsOf(s, b))
    {
      BitwiseMeaning(s, operator, a, b, r);
    }
  }

  lemma BitwiseMeaning(s: Assignment, operator: CombOperator, a: seq<Value>, b: seq<Value>, r: seq<Value>)
    requires operator == CombAnd || operator == CombOr || operator == CombXor
    requires |r| == |a| == |b|
    requires forall j :: 0 <= j < |r| ==> Holds(s, r[j]) == Bitwise(operator, Holds(s, a[j]), Holds(s, b[j]))
    ensures BitsOf(s, r) == BinaryMeaning(operator, BitsOf(s, a), BitsOf(s, b))
  {
    var meaning := BinaryMeaning(operator, BitsOf(s, a), BitsOf(s, b));
    assert forall j :: 0 <= j < |r| ==> BitsOf(s, r)[j] == meaning[j];
  }

  /** Combines the operands from the left. */
  method LowerFold(fsm: FSM, operator: CombOperator, words: seq<seq<Value>>, width: nat) returns (r: seq<Value>)
    requires words != [] && width < Pow2(WORD_BITS) && forall k :: 0 <= k < |words| ==> |words[k]| == width
    requires Ordered(fsm.variables) && AllReadable(fsm.variables, words)
    modifies fsm`variables
    ensures Extended(old(fsm.variables), fsm.variables) && Readable(fsm, r) && |r| == width
    ensures forall s :: Settled(fsm.variables, s) ==> BitsOf(s, r) == FoldMeaning(operator, AllBits(s, words), width)
  {
    hide BinaryMeaning;
    hide Settled;
    hide Pow2;
    ghost var start := fsm.variables;
    r := words[0];
    FoldStart(operator, words, width);
    for i := 1 to |words|
      invariant Extended(start, fsm.variables) && Readable(fsm, r) && |r| == width
      invariant forall s :: Settled(fsm.variables, s) ==>
        BitsOf(s, r) == FoldMeaning(operator, AllBits(s, words[..i]), width)
    {
      ghost var before := r;
      r := LowerBinary(fsm, operator, r, words[i]);
      ghost var next := i + 1;
      forall s | Settled(fsm.variables, s)
        ensures BitsOf(s, r) == FoldMeaning(operator, AllBits(s, words[..next]), width)
      {
        FoldNext(s, operator, words, i, width);
      }
    }
    assert words[..|words|] == words;
  }

  lemma FoldStart(operator: CombOperator, words: seq<seq<Value>>, width: nat)
    requires words != [] && forall k :: 0 <= k < |words| ==> |words[k]| == width
    ensures forall s :: BitsOf(s, words[0]) == FoldMeaning(operator, AllBits(s, words[..1]), width)
  {
  }

  lemma FoldNext(s: Assignment, operator: CombOperator, words: seq<seq<Value>>, i: nat, width: nat)
    requires 0 < i < |words| && forall k :: 0 <= k < |words| ==> |words[k]| == width
    ensures FoldMeaning(operator, AllBits(s, words[..i + 1]), width) ==
      BinaryMeaning(operator, FoldMeaning(operator, AllBits(s, words[..i]), width), BitsOf(s, words[i]))
  {
    hide BinaryMeaning;
    var longer := AllBits(s, words[..i + 1]);
    assert longer[..i] == AllBits(s, words[..i]);
  }

  /** Division by zero gives the undefined word. */
  method LowerComb(fsm: FSM, operator: CombOperator, words: seq<seq<Value>>, width: nat, undefined: seq<Value>)
    returns (r: seq<Value>)
    requires words != [] && 0 < width < Pow2(WORD_BITS) && (Divides(operator) ==> |words| == 2)
    requires forall k :: 0 <= k < |words| ==> |words[k]| == width
    requires Ordered(fsm.variables) && AllReadable(fsm.variables, words) && Readable(fsm, undefined)
    requires Divides(operator) ==> |undefined| == width
    modifies fsm`variables
    ensures Extended(old(fsm.variables), fsm.variables) && Readable(fsm, r) && |r| == width
    ensures forall s :: Settled(fsm.variables, s) ==>
      BitsOf(s, r) == CombMeaning(operator, AllBits(s, words), width, BitsOf(s, undefined))
  {
    hide FoldMeaning;
    hide Settled;
    hide ToNat;
    hide Pow2;
    r := LowerFold(fsm, operator, words, width);
    if Divides(operator) {
      var inverted := seq(width, i requires 0 <= i < width => words[1][i].Negate());
      var zero := fsm.AddVariableGate(And, inverted);
      ghost var quotient := r;
      r := CreateMux(fsm, r, undefined, zero);
      forall s | Settled(fsm.variables, s)
        ensures BitsOf(s, r) == CombMeaning(operator, AllBits(s, words), width, BitsOf(s, undefined))
      {
        AllZero(s, words[1], inverted);
      }
    }
  }

  function CombMeaning(operator: CombOperator, args: seq<Bits>, width: nat, undefined: Bits): Bits
    requires args != [] && SameWidths(args, width) && (Divides(operator) ==> |args| == 2)
  {
    if Divides(operator) && ToNat(args[1]) == 0 then undefined else FoldMeaning(operator, args, width)
  }

  lemma AllZero(s: Assignment, word: seq<Value>, inverted: seq<Value>)
    requires inverted == seq(|word|, i requires 0 <= i < |word| => word[i].Negate())
    ensures Combined(And, BitsOf(s, inverted)) <==> Word(s, word) == 0
  {
    ToNatZeroIff(BitsOf(s, word));
    assert forall i :: 0 <= i < |word| ==> BitsOf(s, inverted)[i] == !BitsOf(s, word)[i];
    if Combined(And, BitsOf(s, inverted)) {
      assert forall i :: 0 <= i < |word| ==> BitsOf(s, inverted)[i];
    }
  }

  // ----- comparisons -----

  method LowerCompare(fsm: FSM, comparison: Comparison, signed: bool, a: seq<Value>, b: seq<Value>) returns (r: Value)
    requires |a| == |b| > 0 && Ordered(fsm.variables) && Readable(fsm, a) && Readable(fsm, b)
    modifies fsm`variables
    ensures Extended(old(fsm.variables), fsm.variables) && r.Known(|fsm.variables|)
    ensures forall s :: Settled(fsm.variables, s) ==>
      Holds(s, r) == if signed then Compare(comparison, ToInt(BitsOf(s, a)), ToInt(BitsOf(s, b)))
        else Compare(comparison, Word(s, a), Word(s, b))
  {
    hide ToNat;
    hide ToInt;
    hide Settled;
    if signed {
      r := CreateComparison(fsm, FlipTop(a), FlipTop(b), comparison);
      forall s | Settled(fsm.variables, s)
        ensures Holds(s, r) == Compare(comparison, ToInt(BitsOf(s, a)), ToInt(BitsOf(s, b)))
      {
        FlippedWord(s, a);
        FlippedWord(s, b);
      }
    } else {
      r := CreateComparison(fsm, a, b, comparison);
    }
  }

  // ----- joining -----

  method LowerJoin(words: seq<seq<Value>>, ghost limit: nat) returns (r: seq<Value>)
    requires forall k :: 0 <= k < |words| ==> AllKnown(words[k], limit)
    ensures AllKnown(r, limit) && |r| == SumOf(WordWidths(words))
    ensures forall s :: BitsOf(s, r) == JoinBits(AllBits(s, words))
  {
    r := [];
    NothingJoined(words);
    for i := |words| downto 0
      invariant AllKnown(r, limit) && |r| == SumOf(WordWidths(words[i..]))
      invariant forall s :: BitsOf(s, r) == JoinBits(AllBits(s, words[i..]))
    {
      ghost var before := r;
      r := r + words[i];
      assert WordWidths(words[i..])[1..] == WordWidths(words[i + 1..]);
      forall s
        ensures BitsOf(s, r) == JoinBits(AllBits(s, words[i..]))
      {
        AppendBits(s, before, words[i]);
        assert AllBits(s, words[i..])[1..] == AllBits(s, words[i + 1..]);
      }
    }
    assert words[0..] == words;
  }

  lemma NothingJoined(words: seq<seq<Value>>)
    ensures SumOf(WordWidths(words[|words|..])) == 0
    ensures forall s :: BitsOf(s, []) == JoinBits(AllBits(s, words[|words|..]))
  {
  }

  method LowerReplicate(word: seq<Value>, count: nat, ghost limit: nat) returns (r: seq<Value>)
    requires AllKnown(word, limit)
    ensures AllKnown(r, limit) && |r| == |word| * count
    ensures forall s :: BitsOf(s, r) == Runtime.Replicate(BitsOf(s, word), count)
  {
    r := [];
    for i := 0 to count
      invariant AllKnown(r, limit) && |r| == |word| * i
      invariant forall s :: BitsOf(s, r) == Runtime.Replicate(BitsOf(s, word), i)
    {
      ghost var before := r;
      ghost var next := i + 1;
      r := r + word;
      forall s
        ensures BitsOf(s, r) == Runtime.Replicate(BitsOf(s, word), next)
      {
        AppendBits(s, before, word);
      }
    }
  }

  // ----- arrays -----

  /** Every index below the size fits, and the index width has no others exactly when the
      size is a power of two other than one. */
  lemma IndexWidthFits(size: nat)
    ensures size <= Pow2(IndexWidth(size))
    ensures size == Pow2(IndexWidth(size)) <==> PowerOfTwo(size) && size != 1
    decreases size
  {
    if size <= 2 {
      assert Pow2(1) == 2 && PowerOfTwo(2);
    } else {
      var half := (size + 1) / 2;
      IndexWidthFits(half);
      Pow2Double(IndexWidth(half));
      assert IndexWidth(size) == IndexWidth(half) + 1;
      hide Pow2;
      if PowerOfTwo(size) {
        assert half == size / 2 && PowerOfTwo(half);
      }
      if size == Pow2(IndexWidth(size)) {
        assert half == size / 2 == Pow2(IndexWidth(half)) && PowerOfTwo(half);
      }
    }
  }

  /** Whether the index word equals a constant below the number of its values. */
  method IndexIs(fsm: FSM, index: seq<Value>, k: nat) returns (r: Value)
    requires k < Pow2(|index|) && Ordered(fsm.variables) && Readable(fsm, index)
    modifies fsm`variables
    ensures Extended(old(fsm.variables), fsm.variables) && r.Known(|fsm.variables|)
    ensures forall s :: Settled(fsm.variables, s) ==> Holds(s, r) == (Word(s, index) == k)
  {
    hide FromInt;
    hide ToNat;
    hide Pow2;
    hide Settled;
    var constant := ConstantWord(FromInt(k, |index|));
    r := CreateComparison(fsm, index, constant, Equals);
    forall s | Settled(fsm.variables, s)
      ensures Holds(s, r) == (Word(s, index) == k)
    {
      BitsOfConstantWord(s, FromInt(k, |index|));
      ToNatFromSmall(k, |index|);
    }
  }

  /** Replaces an array result by the undefined word when the index is out of range. */
  method GuardIndex(fsm: FSM, result: seq<Value>, index: seq<Value>, size: nat, undefined: seq<Value>)
    returns (r: seq<Value>)
    requires 0 < size <= Pow2(|index|) && |undefined| == |result| && Ordered(fsm.variables)
    requires Readable(fsm, result) && Readable(fsm, index) && Readable(fsm, undefined)
    modifies fsm`variables
    ensures Extended(old(fsm.variables), fsm.variables) && Readable(fsm, r) && |r| == |result|
    ensures forall s :: Settled(fsm.variables, s) ==>
      BitsOf(s, r) == if Word(s, index) < size then BitsOf(s, result) else BitsOf(s, undefined)
  {
    hide FromInt;
    hide ToNat;
    hide Pow2;
    hide Settled;
    var limit := ConstantWord(FromInt(size - 1, |index|));
    var valid := CreateComparison(fsm, index, limit, LessThanOrEqual);
    r := CreateMux(fsm, undefined, result, valid);
    forall s | Settled(fsm.variables, s)
      ensures BitsOf(s, r) == if Word(s, index) < size then BitsOf(s, result) else BitsOf(s, undefined)
    {
      BitsOfConstantWord(s, FromInt(size - 1, |index|));
      ToNatFromSmall(size - 1, |index|);
    }
  }

  /** The element the index names, or zeros. */
  method LowerGet(fsm: FSM, value: seq<Value>, index: seq<Value>, size: nat, width: nat) returns (r: seq<Value>)
    requires size * width == |value| && size <= Pow2(|index|) && Ordered(fsm.variables)
    requires Readable(fsm, value) && Readable(fsm, index)
    modifies fsm`variables
    ensures Extended(old(fsm.variables), fsm.variables) && Readable(fsm, r) && |r| == width
    ensures forall s :: Settled(fsm.variables, s) && Word(s, index) < size ==>
      BitsOf(s, r) == Runtime.Select(BitsOf(s, value), Word(s, index) * width, width)
  {
    hide FromInt;
    hide ToNat;
    hide Pow2;
    hide Settled;
    ghost var start := fsm.variables;
    r := ConstantWord(Zeros(width));
    for k := 0 to size
      invariant Extended(start, fsm.variables) && Readable(fsm, r) && |r| == width
      invariant forall s :: Settled(fsm.variables, s) && Word(s, index) < k ==>
        BitsOf(s, r) == Runtime.Select(BitsOf(s, value), Word(s, index) * width, width)
    {
      ElementFits(k, size, width);
      var select := IndexIs(fsm, index, k);
      var element := value[k * width..k * width + width];
      forall s
        ensures BitsOf(s, element) == Runtime.Select(BitsOf(s, value), k * width, width)
      {
        SliceIsSelect(s, value, k * width, width);
      }
      r := CreateMux(fsm, r, element, select);
    }
  }

  /** The array with the element that the index names replaced. */
  method LowerInject(fsm: FSM, value: seq<Value>, index: seq<Value>, size: nat, element: seq<Value>)
    returns (r: seq<Value>)
    requires size * |element| == |value| && size <= Pow2(|index|) && Ordered(fsm.variables)
    requires Readable(fsm, value) && Readable(fsm, index) && Readable(fsm, element)
    modifies fsm`variables
    ensures Extended(old(fsm.variables), fsm.variables) && Readable(fsm, r) && |r| == |value|
    ensures forall s :: Settled(fsm.variables, s) && Word(s, index) < size ==>
      BitsOf(s, r) == Runtime.Selected(BitsOf(s, value), Word(s, index) * |element|, |element|, BitsOf(s, element))
  {
    hide FromInt;
    hide ToNat;
    hide Pow2;
    hide Settled;
    hide Runtime.Selected;
    ghost var start := fsm.variables;
    var width := |element|;
    r := value;
    for k := 0 to size
      invariant Extended(start, fsm.variables) && Readable(fsm, r) && |r| == |value|
      invariant forall s :: Settled(fsm.variables, s) ==>
        BitsOf(s, r) == Injected(BitsOf(s, value), Word(s, index), k, BitsOf(s, element))
    {
      ElementFits(k, size, width);
      var select := IndexIs(fsm, index, k);
      ghost var before := r;
      var updated := CreateMux(fsm, r[k * width..k * width + width], element, select);
      r := ReplaceValues(r, k * width, updated);
      ReplacedKnown(before, k * width, updated, |fsm.variables|);
      ghost var next := k + 1;
      forall s | Settled(fsm.variables, s)
        ensures BitsOf(s, r) == Injected(BitsOf(s, value), Word(s, index), next, BitsOf(s, element))
      {
        SliceIsSelect(s, before, k * width, width);
        ReplacedBits(s, before, k * width, updated);
        InjectStep(BitsOf(s, value), Word(s, index), k, BitsOf(s, element), BitsOf(s, before), BitsOf(s, updated), size);
      }
    }
  }

  /** The array once the first `k` indices have been compared. */
  function Injected(b: Bits, index: nat, k: nat, element: Bits): Bits {
    if index < k then Runtime.Selected(b, index * |element|, |element|, element) else b
  }

  lemma InjectStep(b: Bits, index: nat, k: nat, element: Bits, before: Bits, updated: Bits, size: nat)
    requires k < size && size * |element| == |b| && before == Injected(b, index, k, element)
    requires updated == if index == k then element else Runtime.Select(before, k * |element|, |element|)
    ensures Runtime.Selected(before, k * |element|, |element|, updated) == Injected(b, index, k + 1, element)
  {
    hide Runtime.Selected;
    hide Runtime.Select;
    ElementFits(k, size, |element|);
    if index != k {
      Runtime.SelectAfterAssign(before, k * |element|, updated);
    }
  }

  // ----- operations -----

  /** Operations with a network: constants must parse, and clocks and registers have none. */
  predicate HasNetwork(operation: Operation) {
    match operation
    case ConstantOp(spelling) => LiteralValue(spelling).Some?
    case ToClockOp => false
    case RegisterOp(_) => false
    case _ => true
  }

  method LowerOperation(fsm: FSM, operation: Operation, words: seq<seq<Value>>, width: nat, undefined: seq<Value>)
    returns (r: Option<seq<Value>>)
    requires ValidOperation(operation, WordWidths(words), width)
    requires Ordered(fsm.variables) && AllReadable(fsm.variables, words) && Readable(fsm, undefined)
    requires NeedsUndefined(operation) ==> |undefined| == width
    modifies fsm`variables
    ensures Extended(old(fsm.variables), fsm.variables)
    ensures r.Some? <==> HasNetwork(operation)
    ensures r.Some? ==> Readable(fsm, r.value) && |r.value| == width
    ensures r.Some? ==> forall s :: Settled(fsm.variables, s) ==>
      Means(operation, AllBits(s, words), width, BitsOf(s, undefined), BitsOf(s, r.value))
  {
    hide Settled;
    hide FromInt;
    hide ToNat;
    hide ToInt;
    hide Pow2;
    hide LiteralValue;
    hide CombMeaning;
    hide JoinBits;
    hide Runtime.Select;
    hide Runtime.Selected;
    hide Runtime.Replicate;
    hide ValidOperation;
    hide Means;
    OperandWidths(operation, words, width);
    match operation {
      case ConstantOp(spelling) =>
        var bits := ParseConstant(spelling, width);
        if bits == None {
          return None;
        }
        r := Some(ConstantWord(bits.value));
        ConstantMeans(fsm.variables, operation, words, width, undefined, bits.value);
      case CombOp(operator) =>
        var result := LowerComb(fsm, operator, words, width, undefined);
        r := Some(result);
        CombMeans(fsm.variables, operation, words, width, undefined, result);
      case CompareOp(comparison, signed) =>
        var bit := LowerCompare(fsm, comparison, signed, words[0], words[1]);
        r := Some([bit]);
        CompareMeans(fsm.variables, operation, words, width, undefined, bit);
      case MuxOp =>
        var result := CreateMux(fsm, words[2], words[1], words[0][0]);
        r := Some(result);
        MuxMeans(fsm.variables, operation, words, width, undefined, result);
      case UnionExtractOp(offset) =>
        r := Some(words[0][offset..offset + width]);
        SliceMeans(fsm.variables, operation, words, width, undefined, offset);
      case BitcastOp =>
        r := Some(words[0]);
        BitcastMeans(fsm.variables, operation, words, width, undefined);
      case JoinOp =>
        var result := LowerJoin(words, |fsm.variables|);
        r := Some(result);
        JoinMeans(fsm.variables, operation, words, width, undefined, result);
      case ReplicateOp =>
        var result := LowerReplicate(words[0], width / |words[0]|, |fsm.variables|);
        r := Some(result);
        ReplicateMeans(fsm.variables, operation, words, width, undefined, result);
      case ExtractOp(offset) =>
        r := Some(words[0][offset..offset + width]);
        SliceMeans(fsm.variables, operation, words, width, undefined, offset);
      case ArrayGetOp(size, elementWidth) =>
        IndexWidthFits(size);
        var result := LowerGet(fsm, words[0], words[1], size, elementWidth);
        if NeedsUndefined(operation) {
          result := GuardIndex(fsm, result, words[1], size, undefined);
        }
        r := Some(result);
        GetMeans(fsm.variables, operation, words, width, undefined, result);
      case ArrayInjectOp(size, elementWidth) =>
        IndexWidthFits(size);
        var result := LowerInject(fsm, words[0], words[1], size, words[2]);
        if NeedsUndefined(operation) {
          result := GuardIndex(fsm, result, words[1], size, undefined);
        }
        r := Some(result);
        InjectMeans(fsm.variables, operation, words, width, undefined, result);
      case _ =>
        return None;
    }
  }

  ghost predicate Means(operation: Operation, args: seq<Bits>, width: nat, undefined: Bits, b: Bits) {
    Operable(operation, args, width) && b == OperationMeaning(operation, args, width, undefined)
  }

  lemma OperandWidths(operation: Operation, words: seq<seq<Value>>, width: nat)
    requires ValidOperation(operation, WordWidths(words), width)
    ensures forall s :: Operable(operation, AllBits(s, words), width)
    ensures forall k :: 0 <= k < |words| ==> WordWidths(words)[k] == |words[k]|
    ensures width > 0
    ensures match operation
      case ConstantOp(_) => words == []
      case CombOp(operator) =>
        && words != [] && (forall k :: 0 <= k < |words| ==> |words[k]| == width) && (Divides(operator) ==> |words| == 2)
        && width < Pow2(WORD_BITS)
      case CompareOp(_, _) => |words| == 2 && |words[0]| == |words[1]| > 0 && width == 1
      case MuxOp => |words| == 3 && |words[0]| == 1 && |words[1]| == |words[2]| == width
      case UnionExtractOp(offset) => |words| == 1 && offset + width <= |words[0]|
      case BitcastOp => |words| == 1 && |words[0]| == width
      case JoinOp => width == SumOf(WordWidths(words))
      case ReplicateOp => |words| == 1 && |words[0]| > 0 && |words[0]| * (width / |words[0]|) == width
      case ExtractOp(offset) => |words| == 1 && offset + width <= |words[0]|
      case ArrayGetOp(size, elementWidth) =>
        |words| == 2 && size > 0 && |words[0]| == size * elementWidth && |words[1]| == IndexWidth(size) && width == elementWidth
      case ArrayInjectOp(size, elementWidth) =>
        && |words| == 3 && size > 0 && |words[0]| == size * elementWidth == width && |words[1]| == IndexWidth(size)
        && |words[2]| == elementWidth
      case _ => true
  {
    hide IndexWidth;
    hide Pow2;
    forall s
      ensures Operable(operation, AllBits(s, words), width)
    {
      WidthsOfBits(s, words);
    }
  }

  lemma ConstantMeans(variables: seq<Driver>, operation: Operation, words: seq<seq<Value>>, width: nat,
    undefined: seq<Value>, bits: Bits)
    requires operation.ConstantOp? && forall s :: Operable(operation, AllBits(s, words), width)
    requires LiteralValue(operation.spelling).Some? && bits == FromInt(LiteralValue(operation.spelling).value, width)
    ensures forall s ::
      Means(operation, AllBits(s, words), width, BitsOf(s, undefined), BitsOf(s, ConstantWord(bits)))
  {
    hide FromInt;
    hide LiteralValue;
    forall s
      ensures Means(operation, AllBits(s, words), width, BitsOf(s, undefined), BitsOf(s, ConstantWord(bits)))
    {
      BitsOfConstantWord(s, bits);
    }
  }

  lemma CombMeans(variables: seq<Driver>, operation: Operation, words: seq<seq<Value>>, width: nat,
    undefined: seq<Value>, r: seq<Value>)
    requires operation.CombOp? && forall s :: Operable(operation, AllBits(s, words), width)
    requires words != [] && (Divides(operation.operator) ==> |words| == 2)
    requires forall k :: 0 <= k < |words| ==> |words[k]| == width
    requires forall s :: Settled(variables, s) ==>
      BitsOf(s, r) == CombMeaning(operation.operator, AllBits(s, words), width, BitsOf(s, undefined))
    ensures forall s :: Settled(variables, s) ==>
      Means(operation, AllBits(s, words), width, BitsOf(s, undefined), BitsOf(s, r))
  {
    hide Settled;
    hide FoldMeaning;
    hide ToNat;
  }

  lemma CompareMeans(variables: seq<Driver>, operation: Operation, words: seq<seq<Value>>, width: nat,
    undefined: seq<Value>, bit: Value)
    requires operation.CompareOp? && |words| == 2 && forall s :: Operable(operation, AllBits(s, words), width)
    requires forall s :: Settled(variables, s) ==>
      Holds(s, bit) == if operation.signed
        then Compare(operation.comparison, ToInt(BitsOf(s, words[0])), ToInt(BitsOf(s, words[1])))
        else Compare(operation.comparison, Word(s, words[0]), Word(s, words[1]))
    ensures forall s :: Settled(variables, s) ==>
      Means(operation, AllBits(s, words), width, BitsOf(s, undefined), BitsOf(s, [bit]))
  {
    hide Settled;
    hide ToNat;
    hide ToInt;
    forall s | Settled(variables, s)
      ensures Means(operation, AllBits(s, words), width, BitsOf(s, undefined), BitsOf(s, [bit]))
    {
      assert BitsOf(s, [bit]) == [Holds(s, bit)];
    }
  }

  lemma MuxMeans(variables: seq<Driver>, operation: Operation, words: seq<seq<Value>>, width: nat,
    undefined: seq<Value>, r: seq<Value>)
    requires operation.MuxOp? && |words| == 3 && |words[0]| == 1
    requires forall s :: Operable(operation, AllBits(s, words), width)
    requires forall s :: Settled(variables, s) ==>
      BitsOf(s, r) == if Holds(s, words[0][0]) then BitsOf(s, words[1]) else BitsOf(s, words[2])
    ensures forall s :: Settled(variables, s) ==>
      Means(operation, AllBits(s, words), width, BitsOf(s, undefined), BitsOf(s, r))
  {
    hide Settled;
    forall s | Settled(variables, s)
      ensures Means(operation, AllBits(s, words), width, BitsOf(s, undefined), BitsOf(s, r))
    {
      assert AllBits(s, words)[0][0] == Holds(s, words[0][0]);
    }
  }

  lemma SliceMeans(variables: seq<Driver>, operation: Operation, words: seq<seq<Value>>, width: nat,
    undefined: seq<Value>, offset: nat)
    requires operation == ExtractOp(offset) || operation == UnionExtractOp(offset)
    requires |words| == 1 && offset + width <= |words[0]|
    requires forall s :: Operable(operation, AllBits(s, words), width)
    ensures forall s ::
      Means(operation, AllBits(s, words), width, BitsOf(s, undefined), BitsOf(s, words[0][offset..offset + width]))
  {
    forall s
      ensures
        Means(operation, AllBits(s, words), width, BitsOf(s, undefined), BitsOf(s, words[0][offset..offset + width]))
    {
      SliceIsSelect(s, words[0], offset, width);
    }
  }

  lemma BitcastMeans(variables: seq<Driver>, operation: Operation, words: seq<seq<Value>>, width: nat,
    undefined: seq<Value>)
    requires operation.BitcastOp? && |words| == 1 && forall s :: Operable(operation, AllBits(s, words), width)
    ensures forall s :: Means(operation, AllBits(s, words), width, BitsOf(s, undefined), BitsOf(s, words[0]))
  {
  }

  lemma JoinMeans(variables: seq<Driver>, operation: Operation, words: seq<seq<Value>>, width: nat,
    undefined: seq<Value>, r: seq<Value>)
    requires operation.JoinOp? && forall s :: Operable(operation, AllBits(s, words), width)
    requires forall s :: BitsOf(s, r) == JoinBits(AllBits(s, words))
    ensures forall s :: Means(operation, AllBits(s, words), width, BitsOf(s, undefined), BitsOf(s, r))
  {
    hide JoinBits;
  }

  lemma ReplicateMeans(variables: seq<Driver>, operation: Operation, words: seq<seq<Value>>, width: nat,
    undefined: seq<Value>, r: seq<Value>)
    requires operation.ReplicateOp? && |words| == 1 && |words[0]| > 0
    requires forall s :: Operable(operation, AllBits(s, words), width)
    requires forall s :: BitsOf(s, r) == Runtime.Replicate(BitsOf(s, words[0]), width / |words[0]|)
    ensures forall s :: Means(operation, AllBits(s, words), width, BitsOf(s, undefined), BitsOf(s, r))
  {
    hide Runtime.Replicate;
    forall s
      ensures Means(operation, AllBits(s, words), width, BitsOf(s, undefined), BitsOf(s, r))
    {
      assert AllBits(s, words)[0] == BitsOf(s, words[0]);
    }
  }

  lemma GetMeans(variables: seq<Driver>, operation: Operation, words: seq<seq<Value>>, width: nat,
    undefined: seq<Value>, r: seq<Value>)
    requires operation.ArrayGetOp? && |words| == 2 && |words[1]| == IndexWidth(operation.size)
    requires operation.size > 0 && width == operation.elementWidth
    requires forall s :: Operable(operation, AllBits(s, words), width)
    requires forall s :: Settled(variables, s) && Word(s, words[1]) < operation.size ==>
      BitsOf(s, r) == Runtime.Select(BitsOf(s, words[0]), Word(s, words[1]) * width, width)
    requires NeedsUndefined(operation) ==>
      forall s :: Settled(variables, s) && Word(s, words[1]) >= operation.size ==> BitsOf(s, r) == BitsOf(s, undefined)
    ensures forall s :: Settled(variables, s) ==>
      Means(operation, AllBits(s, words), width, BitsOf(s, undefined), BitsOf(s, r))
  {
    hide Settled;
    hide ToNat;
    hide Pow2;
    hide Runtime.Select;
    hide IndexWidth;
    hide PowerOfTwo;
    IndexWidthFits(operation.size);
    forall s | Settled(variables, s)
      ensures Means(operation, AllBits(s, words), width, BitsOf(s, undefined), BitsOf(s, r))
    {
      assert AllBits(s, words)[0] == BitsOf(s, words[0]) && AllBits(s, words)[1] == BitsOf(s, words[1]);
    }
  }

  lemma InjectMeans(variables: seq<Driver>, operation: Operation, words: seq<seq<Value>>, width: nat,
    undefined: seq<Value>, r: seq<Value>)
    requires operation.ArrayInjectOp? && |words| == 3 && |words[1]| == IndexWidth(operation.size)
    requires operation.size > 0 && |words[2]| == operation.elementWidth
    requires forall s :: Operable(operation, AllBits(s, words), width)
    requires forall s :: Settled(variables, s) && Word(s, words[1]) < operation.size ==>
      BitsOf(s, r) == Runtime.Selected(BitsOf(s, words[0]), Word(s, words[1]) * |words[2]|, |words[2]|, BitsOf(s, words[2]))
    requires NeedsUndefined(operation) ==>
      forall s :: Settled(variables, s) && Word(s, words[1]) >= operation.size ==> BitsOf(s, r) == BitsOf(s, undefined)
    ensures forall s :: Settled(variables, s) ==>
      Means(operation, AllBits(s, words), width, BitsOf(s, undefined), BitsOf(s, r))
  {
    hide Settled;
    hide ToNat;
    hide Pow2;
    hide Runtime.Selected;
    hide IndexWidth;
    hide PowerOfTwo;
    IndexWidthFits(operation.size);
    forall s | Settled(variables, s)
      ensures Means(operation, AllBits(s, words), width, BitsOf(s, undefined), BitsOf(s, r))
    {
      assert AllBits(s, words)[0] == BitsOf(s, words[0]) && AllBits(s, words)[1] == BitsOf(s, words[1]);
      assert AllBits(s, words)[2] == BitsOf(s, words[2]);
    }
  }

  // ----- nodes -----

  /** The words of leaves and undefined results in an assignment. */
  function ValuationAt(s: Assignment, leaves: map<nat, seq<Value>>, undefined: map<nat, seq<Value>>): Valuation {
    Valuation(map id | id in leaves :: BitsOf(s, leaves[id]), map id | id in undefined :: BitsOf(s, undefined[id]))
  }

  /** Each lowered word denotes the meaning of its node. */
  ghost predicate Faithful(variables: seq<Driver>, graph: Graph, order: seq<nat>, leaves: map<nat, seq<Value>>,
    undefined: map<nat, seq<Value>>, values: map<nat, seq<Value>>) {
    forall s, id :: Settled(variables, s) && id in values ==>
      BitsOf(s, values[id]) == Meaning(graph, order, ValuationAt(s, leaves, undefined), id)
  }

  lemma FaithfulLater(before: seq<Driver>, after: seq<Driver>, graph: Graph, order: seq<nat>,
    leaves: map<nat, seq<Value>>, undefined: map<nat, seq<Value>>, values: map<nat, seq<Value>>)
    requires Grows(before, after) && Faithful(before, graph, order, leaves, undefined, values)
    ensures Faithful(after, graph, order, leaves, undefined, values)
  {
    hide Settled;
    hide Meaning;
  }

  lemma LeavesFaithful(variables: seq<Driver>, graph: Graph, order: seq<nat>, leaves: map<nat, seq<Value>>,
    undefined: map<nat, seq<Value>>)
    ensures Faithful(variables, graph, order, leaves, undefined, leaves)
  {
    hide Settled;
  }

  /** What lowering relies on. */
  ghost predicate LoweringContext(graph: Graph, order: seq<nat>, leaves: map<nat, seq<Value>>,
    undefined: map<nat, seq<Value>>, limit: nat) {
    && ValidGraph(graph) && Topological(graph, order)
    && (forall id :: 0 <= id < |graph| && graph[id].Register() ==> id in leaves)
    && (forall id :: id in leaves ==> id < |graph| && |leaves[id]| == graph[id].width && AllKnown(leaves[id], limit))
    && (forall id :: id in undefined ==> AllKnown(undefined[id], limit))
    && (forall id :: 0 <= id < |graph| && graph[id].driver.Computed? && NeedsUndefined(graph[id].driver.operation) ==>
          id in undefined && |undefined[id]| == graph[id].width)
    && (forall id :: 0 <= id < |graph| && !graph[id].Register() ==> id in order)
  }

  /** The memo holds leaves and lowered nodes, each with the node's width. */
  ghost predicate MemoValid(graph: Graph, leaves: map<nat, seq<Value>>, values: map<nat, seq<Value>>, limit: nat) {
    && (forall id :: id in leaves ==> id in values && values[id] == leaves[id])
    && (forall id :: id in values ==> id < |graph| && |values[id]| == graph[id].width && AllKnown(values[id], limit))
  }

  ghost predicate MemoGrows(before: map<nat, seq<Value>>, after: map<nat, seq<Value>>) {
    forall id :: id in before ==> id in after && after[id] == before[id]
  }

  ghost function Position(order: seq<nat>, id: nat): nat {
    if id in order then IndexIn(order, id) + 1 else 0
  }

  // ----- which nodes lower -----

  /** A node listed before position `limit` lowers: it is a leaf, or it and what it is
      computed from carry data. */
  ghost predicate LowersBelow(graph: Graph, order: seq<nat>, leaves: set<nat>, clockWiring: set<nat>, id: nat,
    limit: nat)
    decreases limit
  {
    id in leaves ||
    (id < |graph| && id in order && IndexIn(order, id) < limit &&
     match graph[id].driver
     case Alias(other) => LowersBelow(graph, order, leaves, clockWiring, other, IndexIn(order, id))
     case Computed(operation, args) =>
       && id !in clockWiring && HasNetwork(operation)
       && forall k :: 0 <= k < |args| ==>
            LowersBelow(graph, order, leaves, clockWiring, args[k], IndexIn(order, id))
     case _ => false)
  }

  ghost predicate Lowers(graph: Graph, order: seq<nat>, leaves: set<nat>, clockWiring: set<nat>, id: nat) {
    LowersBelow(graph, order, leaves, clockWiring, id, |order|)
  }

  lemma LowersStable(graph: Graph, order: seq<nat>, leaves: set<nat>, clockWiring: set<nat>, id: nat, limit: nat)
    requires id in leaves || (id in order && IndexIn(order, id) < limit <= |order|)
    ensures LowersBelow(graph, order, leaves, clockWiring, id, limit) == Lowers(graph, order, leaves, clockWiring, id)
  {
  }

  /** A node that is no leaf lowers exactly when it carries data and its sources lower. */
  lemma LowersExactly(graph: Graph, order: seq<nat>, leaves: map<nat, seq<Value>>, undefined: map<nat, seq<Value>>,
    limit: nat, clockWiring: set<nat>, id: nat)
    requires LoweringContext(graph, order, leaves, undefined, limit) && id < |graph| && id !in leaves
    ensures graph[id].driver.Alias? ==>
      (Lowers(graph, order, leaves.Keys, clockWiring, id) <==>
       Lowers(graph, order, leaves.Keys, clockWiring, graph[id].driver.other))
    ensures graph[id].driver.Computed? ==>
      (Lowers(graph, order, leaves.Keys, clockWiring, id) <==>
       && id !in clockWiring && HasNetwork(graph[id].driver.operation)
       && forall k :: 0 <= k < |graph[id].driver.args| ==>
            Lowers(graph, order, leaves.Keys, clockWiring, graph[id].driver.args[k]))
    ensures !graph[id].driver.Alias? && !graph[id].driver.Computed? ==>
      !Lowers(graph, order, leaves.Keys, clockWiring, id)
  {
    hide HasNetwork;
    assert !graph[id].Register() && id in order;
    var p := IndexIn(order, id);
    forall k | 0 <= k < |Sources(graph[id])|
      ensures LowersBelow(graph, order, leaves.Keys, clockWiring, Sources(graph[id])[k], p) ==
        Lowers(graph, order, leaves.Keys, clockWiring, Sources(graph[id])[k])
    {
      hide LowersBelow;
      hide Lowers;
      var source := Sources(graph[id])[k];
      SourcesNeeded(graph, order, leaves, undefined, limit, id);
      if source !in leaves {
        NeededEarlier(graph, order, id, source);
      }
      LowersStable(graph, order, leaves.Keys, clockWiring, source, p);
    }
    if graph[id].driver.Computed? {
      assert Sources(graph[id]) == graph[id].driver.args;
    } else if graph[id].driver.Alias? {
      assert Sources(graph[id])[0] == graph[id].driver.other;
    }
  }

  /** Only nodes that lower are in the memo. */
  ghost predicate MemoLowers(graph: Graph, order: seq<nat>, leaves: set<nat>, clockWiring: set<nat>,
    values: map<nat, seq<Value>>)
  {
    forall id :: id in values ==> Lowers(graph, order, leaves, clockWiring, id)
  }

  class Lowering {
    const graph: Graph
    const fsm: FSM
    const undefined: map<nat, seq<Value>>
    const clockWiring: set<nat>
    ghost const leaves: map<nat, seq<Value>>
    ghost const order: seq<nat>
    var values: map<nat, seq<Value>>

    /** Starts with the words of inputs and registers. */
    constructor (graph: Graph, fsm: FSM, ghost order: seq<nat>, leaves: map<nat, seq<Value>>,
      undefined: map<nat, seq<Value>>, clockWiring: set<nat>)
      requires LoweringContext(graph, order, leaves, undefined, |fsm.variables|)
      ensures this.graph == graph && this.fsm == fsm && this.order == order && this.leaves == leaves
      ensures this.undefined == undefined && this.clockWiring == clockWiring && values == leaves
      ensures Sane() && Faithful(fsm.variables, graph, order, leaves, undefined, values)
    {
      this.graph, this.fsm, this.order, this.leaves := graph, fsm, order, leaves;
      this.undefined, this.clockWiring, values := undefined, clockWiring, leaves;
      new;
      hide HasNetwork;
      LeavesFaithful(fsm.variables, graph, order, leaves, undefined);
    }

    ghost predicate Sane()
      reads this, fsm`variables
    {
      && LoweringContext(graph, order, leaves, undefined, |fsm.variables|)
      && MemoValid(graph, leaves, values, |fsm.variables|)
      && MemoLowers(graph, order, leaves.Keys, clockWiring, values)
    }

    /** The node lowers. */
    ghost predicate CarriesData(id: nat)
      reads this
    {
      Lowers(graph, order, leaves.Keys, clockWiring, id)
    }

    /** The gates of a node, built once. Its word denotes the node's meaning in every
        settled assignment, whatever inputs, registers and undefined words hold. */
    method Lower(id: nat) returns (r: Option<seq<Value>>)
      requires id < |graph| && Sane() && Ordered(fsm.variables)
      requires Faithful(fsm.variables, graph, order, leaves, undefined, values)
      modifies this`values, fsm`variables
      ensures Sane() && Extended(old(fsm.variables), fsm.variables) && MemoGrows(old(values), values)
      ensures Faithful(fsm.variables, graph, order, leaves, undefined, values)
      ensures r.Some? <==> CarriesData(id)
      ensures r.Some? ==> id in values && r.value == values[id]
      decreases Position(order, id), 1
    {
      hide Faithful;
      hide Settled;
      hide LoweringContext;
      hide MemoValid;
      if id in values {
        return Some(values[id]);
      }
      ContextAt(graph, order, leaves, undefined, |fsm.variables|, values, id);
      LowersExactly(graph, order, leaves, undefined, |fsm.variables|, clockWiring, id);
      hide Lowers;
      match graph[id].driver {
        case Alias(other) =>
          SourceEarlier(graph, order, leaves, undefined, |fsm.variables|, id, other);
          r := Lower(other);
          if r.Some? {
            AliasLowered(fsm.variables, graph, order, leaves, undefined, values, id);
            values := values[id := r.value];
          }
        case Computed(operation, args) =>
          if id in clockWiring {
            return None;
          }
          r := LowerComputed(id);
        case _ =>
          return None;
      }
    }

    method LowerComputed(id: nat) returns (r: Option<seq<Value>>)
      requires id < |graph| && graph[id].driver.Computed? && id !in values && id !in clockWiring
      requires Sane() && Ordered(fsm.variables)
      requires Faithful(fsm.variables, graph, order, leaves, undefined, values)
      modifies this`values, fsm`variables
      ensures Sane() && Extended(old(fsm.variables), fsm.variables) && MemoGrows(old(values), values)
      ensures Faithful(fsm.variables, graph, order, leaves, undefined, values)
      ensures r.Some? <==> CarriesData(id)
      ensures r.Some? ==> id in values && r.value == values[id]
      decreases Position(order, id), 0
    {
      hide Faithful;
      hide Settled;
      hide LoweringContext;
      hide MemoValid;
      hide Means;
      hide Lowers;
      hide HasNetwork;
      ghost var start, values0 := fsm.variables, values;
      ContextAt(graph, order, leaves, undefined, |fsm.variables|, values, id);
      LowersExactly(graph, order, leaves, undefined, |fsm.variables|, clockWiring, id);
      var args := graph[id].driver.args;
      var words := [];
      for k := 0 to |args|
        invariant Sane() && Extended(start, fsm.variables) && MemoGrows(values0, values)
        invariant Faithful(fsm.variables, graph, order, leaves, undefined, values)
        invariant |words| == k && forall j :: 0 <= j < k ==> args[j] in values && words[j] == values[args[j]]
        invariant forall j :: 0 <= j < k ==> CarriesData(args[j])
      {
        ghost var before := fsm.variables;
        SourceEarlier(graph, order, leaves, undefined, |fsm.variables|, id, args[k]);
        var word := Lower(args[k]);
        GrowsTwice(start, before, fsm.variables);
        if word == None {
          return None;
        }
        words := words + [word.value];
      }
      ghost var before := fsm.variables;
      var unknown := if id in undefined then undefined[id] else [];
      OperandsReady(graph, order, leaves, undefined, values, |fsm.variables|, id, words, unknown);
      r := LowerOperation(fsm, graph[id].driver.operation, words, graph[id].width, unknown);
      GrowsTwice(start, before, fsm.variables);
      FaithfulLater(before, fsm.variables, graph, order, leaves, undefined, values);
      StillSane(graph, order, leaves, undefined, values, |before|, |fsm.variables|);
      if r.Some? {
        if id in values {
          return Some(values[id]);
        }
        NodeLowered(fsm.variables, graph, order, leaves, undefined, values, |fsm.variables|, id, words, unknown, r.value);
        values := values[id := r.value];
      }
    }

    /** The next value of a register: its data, or its reset value while reset is high. */
    method RegisterNext(id: nat) returns (r: Option<seq<Value>>)
      requires id < |graph| && graph[id].Register() && Sane() && Ordered(fsm.variables)
      requires Faithful(fsm.variables, graph, order, leaves, undefined, values)
      modifies this`values, fsm`variables
      ensures Sane() && Extended(old(fsm.variables), fsm.variables) && MemoGrows(old(values), values)
      ensures Faithful(fsm.variables, graph, order, leaves, undefined, values)
      ensures r.Some? <==> NextLowers(graph, order, leaves.Keys, clockWiring, id)
      ensures r.Some? ==> AllKnown(r.value, |fsm.variables|) && |r.value| == graph[id].width
      ensures r.Some? ==> forall s :: Settled(fsm.variables, s) ==>
        BitsOf(s, r.value) == NextMeaning(graph, order, ValuationAt(s, leaves, undefined), id)
    {
      hide Faithful;
      hide Settled;
      hide LoweringContext;
      hide MemoValid;
      hide Lowers;
      ghost var v0 := fsm.variables;
      RegisterOperands(graph, order, leaves, undefined, |fsm.variables|, id);
      var args := graph[id].driver.args;
      var data := Lower(args[0]);
      if data == None {
        return None;
      }
      ghost var v1 := fsm.variables;
      if |args| == 4 {
        var reset := Lower(args[2]);
        ghost var v2 := fsm.variables;
        GrowsTwice(v0, v1, v2);
        if reset == None {
          return None;
        }
        var value := Lower(args[3]);
        ghost var v3 := fsm.variables;
        GrowsTwice(v0, v2, v3);
        if value == None {
          return None;
        }
        MemoWord(graph, leaves, values, |v3|, args[0]);
        MemoWord(graph, leaves, values, |v3|, args[2]);
        MemoWord(graph, leaves, values, |v3|, args[3]);
        var next := CreateMux(fsm, data.value, value.value, reset.value[0]);
        GrowsTwice(v0, v3, fsm.variables);
        FaithfulLater(v3, fsm.variables, graph, order, leaves, undefined, values);
        StillSane(graph, order, leaves, undefined, values, |v3|, |fsm.variables|);
        r := Some(next);
        forall s | Settled(fsm.variables, s)
          ensures BitsOf(s, next) == NextMeaning(graph, order, ValuationAt(s, leaves, undefined), id)
        {
          MemoMeaning(fsm.variables, graph, order, leaves, undefined, values, s, args[0]);
          MemoMeaning(fsm.variables, graph, order, leaves, undefined, values, s, args[2]);
          MemoMeaning(fsm.variables, graph, order, leaves, undefined, values, s, args[3]);
          assert BitsOf(s, reset.value)[0] == Holds(s, reset.value[0]);
        }
      } else {
        MemoWord(graph, leaves, values, |v1|, args[0]);
        r := data;
        forall s | Settled(fsm.variables, s)
          ensures BitsOf(s, data.value) == NextMeaning(graph, order, ValuationAt(s, leaves, undefined), id)
        {
          MemoMeaning(fsm.variables, graph, order, leaves, undefined, values, s, args[0]);
        }
      }
    }
  }

  /** Data, and reset value and condition where there are any, lower. */
  ghost predicate NextLowers(graph: Graph, order: seq<nat>, leaves: set<nat>, clockWiring: set<nat>, id: nat)
    requires id < |graph| && graph[id].Register()
  {
    var args := graph[id].driver.args;
    && (|args| > 0 ==> Lowers(graph, order, leaves, clockWiring, args[0]))
    && (|args| == 4 ==>
          Lowers(graph, order, leaves, clockWiring, args[2]) && Lowers(graph, order, leaves, clockWiring, args[3]))
  }

  ghost function NextMeaning(graph: Graph, order: seq<nat>, v: Valuation, id: nat): Bits
    requires id < |graph| && graph[id].Register()
  {
    var args := graph[id].driver.args;
    if |args| == 4 && Runtime.BitAt(Meaning(graph, order, v, args[2]), 0) then Meaning(graph, order, v, args[3])
    else if |args| > 0 then Meaning(graph, order, v, args[0])
    else []
  }

  lemma ContextAt(graph: Graph, order: seq<nat>, leaves: map<nat, seq<Value>>, undefined: map<nat, seq<Value>>,
    limit: nat, values: map<nat, seq<Value>>, id: nat)
    requires LoweringContext(graph, order, leaves, undefined, limit) && MemoValid(graph, leaves, values, limit)
    requires id < |graph| && id !in values
    ensures !graph[id].Register() && id !in leaves && id in order && EdgesInRange(graph)
  {
  }

  /** Sources come earlier in the order, or are registers, which are not in it. */
  lemma SourceEarlier(graph: Graph, order: seq<nat>, leaves: map<nat, seq<Value>>, undefined: map<nat, seq<Value>>,
    limit: nat, id: nat, source: nat)
    requires LoweringContext(graph, order, leaves, undefined, limit)
    requires id < |graph| && source in Sources(graph[id])
    ensures source < |graph|
    ensures !graph[id].Register() ==> Position(order, source) < Position(order, id)
  {
    var k :| 0 <= k < |Sources(graph[id])| && Sources(graph[id])[k] == source;
    if !graph[id].Register() {
      if graph[source].Register() {
        NotListed(graph, order, source);
      } else {
        NeededEarlier(graph, order, id, source);
      }
    }
  }

  lemma NotListed(graph: Graph, order: seq<nat>, id: nat)
    requires Topological(graph, order) && id < |graph| && graph[id].Register()
    ensures id !in order
  {
  }

  lemma SourcesNeeded(graph: Graph, order: seq<nat>, leaves: map<nat, seq<Value>>, undefined: map<nat, seq<Value>>,
    limit: nat, id: nat)
    requires LoweringContext(graph, order, leaves, undefined, limit) && id < |graph| && !graph[id].Register()
    ensures forall k :: 0 <= k < |Sources(graph[id])| ==>
      Sources(graph[id])[k] in leaves || (Sources(graph[id])[k] < |graph| && Needs(graph, id, Sources(graph[id])[k]))
  {
  }

  lemma AliasLowered(variables: seq<Driver>, graph: Graph, order: seq<nat>, leaves: map<nat, seq<Value>>,
    undefined: map<nat, seq<Value>>, values: map<nat, seq<Value>>, id: nat)
    requires LoweringContext(graph, order, leaves, undefined, |variables|)
    requires MemoValid(graph, leaves, values, |variables|)
    requires Faithful(variables, graph, order, leaves, undefined, values)
    requires id < |graph| && graph[id].driver.Alias? && graph[id].driver.other in values && id !in leaves
    ensures Faithful(variables, graph, order, leaves, undefined, values[id := values[graph[id].driver.other]])
    ensures MemoValid(graph, leaves, values[id := values[graph[id].driver.other]], |variables|)
    ensures id !in values ==> MemoGrows(values, values[id := values[graph[id].driver.other]])
  {
    hide Settled;
    hide Meaning;
    hide Topological;
    SourcesNeeded(graph, order, leaves, undefined, |variables|, id);
    forall s | Settled(variables, s)
      ensures Meaning(graph, order, ValuationAt(s, leaves, undefined), id) ==
        Meaning(graph, order, ValuationAt(s, leaves, undefined), graph[id].driver.other)
    {
      MeaningIsSolution(graph, order, ValuationAt(s, leaves, undefined), id);
    }
  }

  lemma OperandsReady(graph: Graph, order: seq<nat>, leaves: map<nat, seq<Value>>, undefined: map<nat, seq<Value>>,
    values: map<nat, seq<Value>>, limit: nat, id: nat, words: seq<seq<Value>>, unknown: seq<Value>)
    requires LoweringContext(graph, order, leaves, undefined, limit) && MemoValid(graph, leaves, values, limit)
    requires id < |graph| && graph[id].driver.Computed? && |words| == |graph[id].driver.args|
    requires forall j :: 0 <= j < |words| ==>
      graph[id].driver.args[j] in values && words[j] == values[graph[id].driver.args[j]]
    requires unknown == if id in undefined then undefined[id] else []
    ensures ValidOperation(graph[id].driver.operation, WordWidths(words), graph[id].width)
    ensures forall k :: 0 <= k < |words| ==> AllKnown(words[k], limit)
    ensures AllKnown(unknown, limit)
    ensures NeedsUndefined(graph[id].driver.operation) ==> |unknown| == graph[id].width
  {
    hide ValidOperation;
    hide Topological;
    var args := graph[id].driver.args;
    assert graph[id] in graph;
    assert ValidNode(graph, graph[id]);
    assert WordWidths(words) == seq(|args|, k requires 0 <= k < |args| => graph[args[k]].width);
  }

  /** A lowered operation denotes the meaning of its node. */
  lemma NodeLowered(variables: seq<Driver>, graph: Graph, order: seq<nat>, leaves: map<nat, seq<Value>>,
    undefined: map<nat, seq<Value>>, values: map<nat, seq<Value>>, limit: nat, id: nat, words: seq<seq<Value>>,
    unknown: seq<Value>, r: seq<Value>)
    requires LoweringContext(graph, order, leaves, undefined, limit) && MemoValid(graph, leaves, values, limit)
    requires Faithful(variables, graph, order, leaves, undefined, values)
    requires id < |graph| && graph[id].driver.Computed? && |words| == |graph[id].driver.args|
    requires forall j :: 0 <= j < |words| ==>
      graph[id].driver.args[j] in values && words[j] == values[graph[id].driver.args[j]]
    requires unknown == if id in undefined then undefined[id] else []
    requires id !in values && |r| == graph[id].width && AllKnown(r, limit)
    requires forall s :: Settled(variables, s) ==>
      Means(graph[id].driver.operation, AllBits(s, words), graph[id].width, BitsOf(s, unknown), BitsOf(s, r))
    ensures Faithful(variables, graph, order, leaves, undefined, values[id := r])
    ensures MemoValid(graph, leaves, values[id := r], limit) && MemoGrows(values, values[id := r])
  {
    hide Settled;
    hide Meaning;
    hide Topological;
    hide OperationMeaning;
    hide Operable;
    hide ValidGraph;
    ContextAt(graph, order, leaves, undefined, limit, values, id);
    SourcesNeeded(graph, order, leaves, undefined, limit, id);
    forall s | Settled(variables, s)
      ensures BitsOf(s, r) == Meaning(graph, order, ValuationAt(s, leaves, undefined), id)
    {
      var v := ValuationAt(s, leaves, undefined);
      MeaningIsSolution(graph, order, v, id);
      assert Operands(graph, order, v, graph[id].driver.args) == AllBits(s, words);
      UndefinedBits(s, leaves, undefined, id, unknown);
    }
  }

  lemma UndefinedBits(s: Assignment, leaves: map<nat, seq<Value>>, undefined: map<nat, seq<Value>>, id: nat,
    unknown: seq<Value>)
    requires unknown == if id in undefined then undefined[id] else []
    ensures UndefinedOf(ValuationAt(s, leaves, undefined), id) == BitsOf(s, unknown)
  {
  }

  lemma StillSane(graph: Graph, order: seq<nat>, leaves: map<nat, seq<Value>>, undefined: map<nat, seq<Value>>,
    values: map<nat, seq<Value>>, before: nat, after: nat)
    requires LoweringContext(graph, order, leaves, undefined, before) && MemoValid(graph, leaves, values, before)
    requires before <= after
    ensures LoweringContext(graph, order, leaves, undefined, after) && MemoValid(graph, leaves, values, after)
  {
    hide ValidGraph;
    hide Topological;
  }

  lemma RegisterOperands(graph: Graph, order: seq<nat>, leaves: map<nat, seq<Value>>, undefined: map<nat, seq<Value>>,
    limit: nat, id: nat)
    requires LoweringContext(graph, order, leaves, undefined, limit) && id < |graph| && graph[id].Register()
    ensures
      var args := graph[id].driver.args;
      && (|args| == 2 || |args| == 4) && (forall k :: 0 <= k < |args| ==> args[k] < |graph|)
      && graph[args[0]].width == graph[id].width
      && (|args| == 4 ==> graph[args[2]].width == 1 && graph[args[3]].width == graph[id].width)
  {
    var args := graph[id].driver.args;
    assert graph[id] in graph;
    assert ValidNode(graph, graph[id]);
    var widths := seq(|args|, k requires 0 <= k < |args| => graph[args[k]].width);
    assert ValidOperation(graph[id].driver.operation, widths, graph[id].width);
    assert widths[0] == graph[args[0]].width;
  }

  lemma MemoWord(graph: Graph, leaves: map<nat, seq<Value>>, values: map<nat, seq<Value>>, limit: nat, id: nat)
    requires MemoValid(graph, leaves, values, limit) && id in values
    ensures id < |graph| && |values[id]| == graph[id].width && AllKnown(values[id], limit)
  {
  }

  lemma MemoMeaning(variables: seq<Driver>, graph: Graph, order: seq<nat>, leaves: map<nat, seq<Value>>,
    undefined: map<nat, seq<Value>>, values: map<nat, seq<Value>>, s: Assignment, id: nat)
    requires Faithful(variables, graph, order, leaves, undefined, values) && Settled(variables, s) && id in values
    ensures BitsOf(s, values[id]) == Meaning(graph, order, ValuationAt(s, leaves, undefined), id)
  {
    hide Settled;
    hide Meaning;
  }
}
