/** The word-level meaning of circuit nodes. */
module CircuitMeaning {
  import opened Words
  import opened Shifts
  import opened Fsm
  import opened Ops
  import opened CircuitLiterals
  import opened CircuitGraph
  import Runtime = VerilogRuntime

  function ShiftOf(operator: CombOperator): ShiftOperation {
    match operator
    case ShiftLeft => ShiftOperation.ShiftLeft
    case ShiftRightSigned => ShiftOperation.ShiftRightArithmetic
    case _ => ShiftOperation.ShiftRight
  }

  function Bitwise(operator: CombOperator, a: bool, b: bool): bool {
    match operator
    case CombAnd => a && b
    case CombXor => a != b
    case _ => a || b
  }

  function BinaryMeaning(operator: CombOperator, a: Bits, b: Bits): (r: Bits)
    requires |a| == |b|
    ensures |r| == |a|
  {
    match operator
    case CombAdd => FromInt(ToNat(a) + ToNat(b), |a|)
    case CombSub => FromInt(ToNat(a) - ToNat(b), |a|)
    case CombMul => FromInt(ToNat(a) * ToNat(b), |a|)
    case DivUnsigned => Quotient(a, b)
    case DivSigned => SignedQuotient(a, b)
    case ModUnsigned => Remainder(a, b)
    case ModSigned => SignedRemainder(a, b)
    case ShiftLeft => ShiftWord(ShiftOf(operator), a, ToNat(b))
    case ShiftRightSigned => ShiftWord(ShiftOf(operator), a, ToNat(b))
    case ShiftRightUnsigned => ShiftWord(ShiftOf(operator), a, ToNat(b))
    case _ => seq(|a|, i requires 0 <= i < |a| => Bitwise(operator, a[i], b[i]))
  }

  predicate SameWidths(args: seq<Bits>, width: nat) {
    forall k :: 0 <= k < |args| ==> |args[k]| == width
  }

  /** Operands are combined from the left. */
  function FoldMeaning(operator: CombOperator, args: seq<Bits>, width: nat): (r: Bits)
    requires args != [] && SameWidths(args, width)
    ensures |r| == width
  {
    if |args| == 1 then args[0]
    else BinaryMeaning(operator, FoldMeaning(operator, args[..|args| - 1], width), args[|args| - 1])
  }

  predicate Divides(operator: CombOperator) {
    operator == DivUnsigned || operator == DivSigned || operator == ModUnsigned || operator == ModSigned
  }

  /** The first operand is the most significant. */
  function JoinBits(args: seq<Bits>): Bits {
    if args == [] then [] else JoinBits(args[1..]) + args[0]
  }

  function SumOf(widths: seq<nat>): nat {
    if widths == [] then 0 else SumOf(widths[1..]) + widths[0]
  }

  function PowerOfTwo(n: nat): bool
    decreases n
  {
    n == 1 || (n > 1 && n % 2 == 0 && PowerOfTwo(n / 2))
  }

  /** Nodes whose result is arbitrary for some operands. */
  predicate NeedsUndefined(operation: Operation) {
    match operation
    case CombOp(operator) => Divides(operator)
    case ArrayGetOp(size, _) => size == 1 || !PowerOfTwo(size)
    case ArrayInjectOp(size, _) => size == 1 || !PowerOfTwo(size)
    case _ => false
  }

  /** Bits that hold the numbers below `size`; one bit for a single element. */
  function IndexWidth(size: nat): nat
    decreases size
  {
    if size <= 2 then 1 else 1 + IndexWidth((size + 1) / 2)
  }

  /** The operand widths that validation accepts. */
  predicate ValidOperation(operation: Operation, widths: seq<nat>, width: nat) {
    && width > 0
    && match operation
       case ConstantOp(_) => widths == []
       case CombOp(operator) =>
         && widths != [] && (forall k :: 0 <= k < |widths| ==> widths[k] == width)
         && (operator == CombAdd || operator == CombMul || operator == CombAnd || operator == CombOr ||
             operator == CombXor || |widths| == 2)
         && width < Pow2(WORD_BITS)
       case CompareOp(_, _) => |widths| == 2 && widths[0] == widths[1] > 0 && width == 1
       case MuxOp => |widths| == 3 && widths[0] == 1 && widths[1] == width && widths[2] == width
       case UnionExtractOp(offset) => |widths| == 1 && offset + width <= widths[0]
       case BitcastOp => |widths| == 1 && widths[0] == width
       case JoinOp => widths != [] && width == SumOf(widths)
       case ReplicateOp => |widths| == 1 && widths[0] > 0 && width % widths[0] == 0
       case ExtractOp(offset) => |widths| == 1 && offset + width <= widths[0]
       case ArrayGetOp(size, elementWidth) =>
         |widths| == 2 && size > 0 && widths[0] == size * elementWidth && widths[1] == IndexWidth(size) && width == elementWidth
       case ArrayInjectOp(size, elementWidth) =>
         && |widths| == 3 && size > 0 && widths[0] == size * elementWidth && widths[1] == IndexWidth(size)
         && widths[2] == elementWidth && width == size * elementWidth
       case ToClockOp => |widths| == 1
       case RegisterOp(_) =>
         && (|widths| == 2 || |widths| == 4) && widths[0] == width
         && (|widths| == 4 ==> widths[2] == 1 && widths[3] == width)
  }

  function Widths(args: seq<Bits>): (r: seq<nat>)
    ensures |r| == |args|
  {
    seq(|args|, k requires 0 <= k < |args| => |args[k]|)
  }

  /** The value of an operation. Where it is arbitrary, it is the undefined word. */
  function OperationMeaning(operation: Operation, args: seq<Bits>, width: nat, undefined: Bits): Bits
    requires ValidOperation(operation, Widths(args), width)
  {
    match operation
    case ConstantOp(spelling) =>
      (match LiteralValue(spelling)
       case None => []
       case Some(n) => FromInt(n, width))
    case CombOp(operator) =>
      assert SameWidths(args, width) by {
        assert forall k :: 0 <= k < |args| ==> |args[k]| == Widths(args)[k];
      }
      if Divides(operator) && ToNat(args[1]) == 0 then undefined else FoldMeaning(operator, args, width)
    case CompareOp(comparison, signed) =>
      if signed then [Compare(comparison, ToInt(args[0]), ToInt(args[1]))]
      else [Compare(comparison, ToNat(args[0]), ToNat(args[1]))]
    case MuxOp =>
      assert |args[0]| == Widths(args)[0];
      if args[0][0] then args[1] else args[2]
    case UnionExtractOp(offset) => Runtime.Select(args[0], offset, width)
    case BitcastOp => args[0]
    case JoinOp => JoinBits(args)
    case ReplicateOp =>
      assert |args[0]| == Widths(args)[0];
      Runtime.Replicate(args[0], width / |args[0]|)
    case ExtractOp(offset) => Runtime.Select(args[0], offset, width)
    case ArrayGetOp(size, elementWidth) =>
      if ToNat(args[1]) < size then Runtime.Select(args[0], ToNat(args[1]) * elementWidth, elementWidth) else undefined
    case ArrayInjectOp(size, elementWidth) =>
      if ToNat(args[1]) < size then Runtime.Selected(args[0], ToNat(args[1]) * elementWidth, elementWidth, args[2])
      else undefined
    case _ => []
  }

  // ----- nodes -----

  predicate ValidNode(graph: Graph, node: Node)
    requires EdgesInRange(graph) && node in graph
  {
    match node.driver
    case Alias(other) => other < |graph| && graph[other].width == node.width
    case Computed(operation, args) =>
      && (forall k :: 0 <= k < |args| ==> args[k] < |graph|)
      && ValidOperation(operation, seq(|args|, k requires 0 <= k < |args| => graph[args[k]].width), node.width)
    case _ => true
  }

  predicate ValidGraph(graph: Graph) {
    EdgesInRange(graph) && forall id :: 0 <= id < |graph| ==> ValidNode(graph, graph[id])
  }

  /** A circuit with values for its inputs, registers and undefined words. */
  datatype Valuation = Valuation(leaves: map<nat, Bits>, undefined: map<nat, Bits>)

  function UndefinedOf(v: Valuation, id: nat): Bits {
    if id in v.undefined then v.undefined[id] else []
  }

  ghost predicate Operable(operation: Operation, args: seq<Bits>, width: nat) {
    ValidOperation(operation, Widths(args), width)
  }

  /** The meaning of a node listed before position `limit` of a topological order. */
  ghost function MeaningBelow(graph: Graph, order: seq<nat>, v: Valuation, id: nat, limit: nat): Bits
    decreases limit
  {
    if id in v.leaves then v.leaves[id]
    else if id >= |graph| || id !in order || IndexIn(order, id) >= limit then []
    else
      var p := IndexIn(order, id);
      match graph[id].driver
      case Alias(other) => MeaningBelow(graph, order, v, other, p)
      case Computed(operation, args) =>
        var operands := seq(|args|, k requires 0 <= k < |args| => MeaningBelow(graph, order, v, args[k], p));
        if Operable(operation, operands, graph[id].width)
        then OperationMeaning(operation, operands, graph[id].width, UndefinedOf(v, id))
        else []
      case _ => []
  }

  ghost function Meaning(graph: Graph, order: seq<nat>, v: Valuation, id: nat): Bits {
    MeaningBelow(graph, order, v, id, |order|)
  }

  lemma MeaningStable(graph: Graph, order: seq<nat>, v: Valuation, id: nat, limit: nat)
    requires id in v.leaves || (id in order && IndexIn(order, id) < limit)
    ensures MeaningBelow(graph, order, v, id, limit) == Meaning(graph, order, v, id)
  {
  }

  /** In a topological order every node means its operation applied to what its operands
      mean. */
  lemma MeaningIsSolution(graph: Graph, order: seq<nat>, v: Valuation, id: nat)
    requires Topological(graph, order) && id in order && id !in v.leaves
    requires forall k :: 0 <= k < |Sources(graph[id])| ==>
      Sources(graph[id])[k] in v.leaves || (Sources(graph[id])[k] < |graph| && Needs(graph, id, Sources(graph[id])[k]))
    ensures graph[id].driver.Alias? ==>
      Meaning(graph, order, v, id) == Meaning(graph, order, v, graph[id].driver.other)
    ensures graph[id].driver.Computed? ==>
      Meaning(graph, order, v, id) ==
        var operands := Operands(graph, order, v, graph[id].driver.args);
        if Operable(graph[id].driver.operation, operands, graph[id].width)
        then OperationMeaning(graph[id].driver.operation, operands, graph[id].width, UndefinedOf(v, id))
        else []
  {
    hide OperationMeaning;
    hide Operable;
    var p := IndexIn(order, id);
    forall k | 0 <= k < |Sources(graph[id])|
      ensures MeaningBelow(graph, order, v, Sources(graph[id])[k], p) == Meaning(graph, order, v, Sources(graph[id])[k])
    {
      var source := Sources(graph[id])[k];
      if source !in v.leaves {
        NeededEarlier(graph, order, id, source);
      }
      MeaningStable(graph, order, v, source, p);
    }
    if graph[id].driver.Computed? {
      var args := graph[id].driver.args;
      assert seq(|args|, k requires 0 <= k < |args| => MeaningBelow(graph, order, v, args[k], p)) ==
        Operands(graph, order, v, args);
    } else if graph[id].driver.Alias? {
      assert Sources(graph[id])[0] == graph[id].driver.other;
    }
  }

  ghost function Operands(graph: Graph, order: seq<nat>, v: Valuation, args: seq<nat>): (r: seq<Bits>)
    ensures |r| == |args|
  {
    seq(|args|, k requires 0 <= k < |args| => Meaning(graph, order, v, args[k]))
  }

  // ----- the circuit's equations -----

  /** Bits for every node. */
  type NodeWords = nat -> Bits

  function OperandWords(words: NodeWords, args: seq<nat>): (r: seq<Bits>)
    ensures |r| == |args|
  {
    seq(|args|, k requires 0 <= k < |args| => words(args[k]))
  }

  /** A leaf has its value, any other node what its operation gives for its operands. */
  ghost predicate EquationHolds(graph: Graph, v: Valuation, words: NodeWords, id: nat)
    requires id < |graph|
  {
    if id in v.leaves then words(id) == v.leaves[id]
    else
      match graph[id].driver
      case Alias(other) => words(id) == words(other)
      case Computed(operation, args) =>
        var operands := OperandWords(words, args);
        words(id) == if Operable(operation, operands, graph[id].width)
          then OperationMeaning(operation, operands, graph[id].width, UndefinedOf(v, id))
          else []
      case _ => words(id) == []
  }

  ghost predicate Solves(graph: Graph, v: Valuation, words: NodeWords) {
    forall id: nat :: id < |graph| ==> EquationHolds(graph, v, words, id)
  }

  /** Registers have values, and everything else is listed. */
  ghost predicate Covered(graph: Graph, order: seq<nat>, v: Valuation) {
    && EdgesInRange(graph) && Topological(graph, order)
    && forall id: nat :: id < |graph| ==> if graph[id].Register() then id in v.leaves else id in order
  }

  /** The meaning satisfies the equations. */
  lemma MeaningSolves(graph: Graph, order: seq<nat>, v: Valuation)
    requires Covered(graph, order, v)
    ensures Solves(graph, v, (id: nat) => Meaning(graph, order, v, id))
  {
    var words := (id: nat) => Meaning(graph, order, v, id);
    forall id: nat | id < |graph|
      ensures EquationHolds(graph, v, words, id)
    {
      if id !in v.leaves {
        forall k | 0 <= k < |Sources(graph[id])|
          ensures var source := Sources(graph[id])[k]; source in v.leaves || Needs(graph, id, source)
        {
        }
        MeaningIsSolution(graph, order, v, id);
        if graph[id].driver.Computed? {
          assert OperandWords(words, graph[id].driver.args) == Operands(graph, order, v, graph[id].driver.args);
        }
      }
    }
  }

  /** ... and nothing else does. */
  lemma {:induction false} SolutionIsMeaning(graph: Graph, order: seq<nat>, v: Valuation, words: NodeWords, id: nat)
    requires Covered(graph, order, v) && Solves(graph, v, words) && id < |graph|
    ensures words(id) == Meaning(graph, order, v, id)
    decreases if id in v.leaves then 0 else IndexIn(order, id) + 1
  {
    hide OperationMeaning;
    hide Operable;
    assert EquationHolds(graph, v, words, id);
    if id !in v.leaves {
      forall k | 0 <= k < |Sources(graph[id])|
        ensures var source := Sources(graph[id])[k];
          && (source in v.leaves || Needs(graph, id, source))
          && words(source) == Meaning(graph, order, v, source)
      {
        var source := Sources(graph[id])[k];
        if source !in v.leaves {
          NeededEarlier(graph, order, id, source);
        }
        SolutionIsMeaning(graph, order, v, words, source);
      }
      MeaningIsSolution(graph, order, v, id);
      if graph[id].driver.Computed? {
        var args := graph[id].driver.args;
        assert OperandWords(words, args) == Operands(graph, order, v, args);
      } else if graph[id].driver.Alias? {
        assert Sources(graph[id])[0] == graph[id].driver.other;
      }
    }
  }

  /** The order that nodes are visited in does not matter. */
  lemma OrderIsIrrelevant(graph: Graph, order: seq<nat>, order': seq<nat>, v: Valuation, id: nat)
    requires Covered(graph, order, v) && Covered(graph, order', v) && id < |graph|
    ensures Meaning(graph, order, v, id) == Meaning(graph, order', v, id)
  {
    MeaningSolves(graph, order', v);
    SolutionIsMeaning(graph, order, v, (id: nat) => Meaning(graph, order', v, id), id);
  }
}
