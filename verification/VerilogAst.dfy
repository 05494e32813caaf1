/** Typed expressions and statements of an elaborated design. Every expression
    carries the width of its data type; `Indexed` and `ElementOf` carry the layout
    of the array they index. */
module VerilogAst {
  import opened Ranges

  datatype UnaryOperator =
    BitwiseNot | Negation | ReduceAnd | ReduceOr | ReduceXor | LogicalNot | ZeroExtend | SignExtend

  datatype BinaryOperator =
    | BitwiseAnd | BitwiseOr | BitwiseXor
    | Add | Subtract | MultiplyUnsigned | MultiplySigned | DivideUnsigned | DivideSigned
    | Equal | NotEqual
    | LessThanUnsigned | LessThanOrEqualUnsigned | GreaterThanUnsigned | GreaterThanOrEqualUnsigned
    | LessThanSigned | LessThanOrEqualSigned | GreaterThanSigned | GreaterThanOrEqualSigned
    | LogicalAnd | LogicalOr
    | LeftShift | RightShift | RightShiftArithmetic
    | Concatenate

  datatype Layout = Layout(indices: Range, elementWidth: nat)

  datatype Expression =
    | Literal(value: nat, width: nat)
    | Read(id: nat, width: nat)
    | Unary(unary: UnaryOperator, operand: Expression, width: nat)
    | Binary(binary: BinaryOperator, lhs: Expression, rhs: Expression, width: nat, signed: bool)
    | Conditional(condition: Expression, thenValue: Expression, elseValue: Expression, width: nat)
    | Replicated(source: Expression, count: nat, width: nat)
    | Part(whole: Expression, offset: Expression, width: nat)
    | Indexed(whole: Expression, index: Expression, layout: Layout, width: nat)

  datatype Target =
    | Whole(id: nat)
    | PartOf(base: Target, offset: Expression, width: nat)
    | ElementOf(base: Target, index: Expression, layout: Layout)

  datatype AssignmentKind = Blocking | Nonblocking | Continuous

  datatype Statement =
    | Block(statements: seq<Statement>)
    | Assign(kind: AssignmentKind, target: Target, value: Expression)
    | If(condition: Expression, thenStatements: seq<Statement>, elseStatements: seq<Statement>)

  // ----- accesses -----

  function ExpressionReads(e: Expression): set<nat> {
    match e
    case Literal(_, _) => {}
    case Read(id, _) => {id}
    case Unary(_, operand, _) => ExpressionReads(operand)
    case Binary(_, lhs, rhs, _, _) => ExpressionReads(lhs) + ExpressionReads(rhs)
    case Conditional(condition, thenValue, elseValue, _) =>
      ExpressionReads(condition) + ExpressionReads(thenValue) + ExpressionReads(elseValue)
    case Replicated(source, _, _) => ExpressionReads(source)
    case Part(whole, offset, _) => ExpressionReads(whole) + ExpressionReads(offset)
    case Indexed(whole, index, _, _) => ExpressionReads(whole) + ExpressionReads(index)
  }

  function Root(target: Target): nat {
    match target
    case Whole(id) => id
    case PartOf(base, _, _) => Root(base)
    case ElementOf(base, _, _) => Root(base)
  }

  /** Assigning a part of a variable reads the variable. */
  function TargetReads(target: Target): set<nat> {
    match target
    case Whole(_) => {}
    case PartOf(base, offset, _) => TargetReads(base) + {Root(base)} + ExpressionReads(offset)
    case ElementOf(base, index, _) => TargetReads(base) + {Root(base)} + ExpressionReads(index)
  }

  function Reads(statement: Statement): set<nat>
    decreases statement
  {
    match statement
    case Block(statements) => ReadsAll(statements)
    case Assign(_, target, value) => TargetReads(target) + ExpressionReads(value)
    case If(condition, thenStatements, elseStatements) =>
      ExpressionReads(condition) + ReadsAll(thenStatements) + ReadsAll(elseStatements)
  }

  function ReadsAll(statements: seq<Statement>): set<nat>
    decreases statements
  {
    if statements == [] then {}
    else ReadsAll(statements[..|statements| - 1]) + Reads(statements[|statements| - 1])
  }

  function Writes(statement: Statement): set<nat>
    decreases statement
  {
    match statement
    case Block(statements) => WritesAll(statements)
    case Assign(_, target, _) => {Root(target)}
    case If(_, thenStatements, elseStatements) => WritesAll(thenStatements) + WritesAll(elseStatements)
  }

  function WritesAll(statements: seq<Statement>): set<nat>
    decreases statements
  {
    if statements == [] then {}
    else WritesAll(statements[..|statements| - 1]) + Writes(statements[|statements| - 1])
  }
}
