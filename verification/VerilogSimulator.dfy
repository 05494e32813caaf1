/** What the generated Rust simulator does with expressions and statements.

    A store holds the bits of every variable. A result is missing when the
    simulator panics, or when the generated source would not compile because
    declared widths do not fit together. */
module VerilogSimulator {
  import opened Words
  import opened Fsm
  import opened Ranges
  import opened VerilogAst
  import Runtime = VerilogRuntime

  type Store = seq<Bits>

  // ----- expressions -----

  predicate Parity(b: Bits) {
    b != [] && (b[|b| - 1] != Parity(b[..|b| - 1]))
  }

  function ApplyUnary(operator: UnaryOperator, a: Bits, width: nat): Bits {
    match operator
    case BitwiseNot => Not(a)
    case Negation => Runtime.Negate(a)
    case ReduceAnd => [forall i :: 0 <= i < |a| ==> a[i]]
    case ReduceOr => [Runtime.Truthy(a)]
    case ReduceXor => [Parity(a)]
    case LogicalNot => [!Runtime.Truthy(a)]
    case ZeroExtend => Runtime.Resized(a, width, false)
    case SignExtend => Runtime.Resized(a, width, true)
  }

  function ApplyBinary(operator: BinaryOperator, a: Bits, b: Bits, width: nat, signed: bool): Option<Bits> {
    match operator
    case BitwiseAnd => Some(seq(width, i requires 0 <= i < width => Runtime.BitAt(a, i) && Runtime.BitAt(b, i)))
    case BitwiseOr => Some(seq(width, i requires 0 <= i < width => Runtime.BitAt(a, i) || Runtime.BitAt(b, i)))
    case BitwiseXor => Some(seq(width, i requires 0 <= i < width => Runtime.BitAt(a, i) != Runtime.BitAt(b, i)))
    case Add => Some(Runtime.Computed(Runtime.AddOp, Runtime.Resized(a, width, signed), Runtime.Resized(b, width, signed)))
    case Subtract =>
      Some(Runtime.Computed(Runtime.SubOp, Runtime.Resized(a, width, signed), Runtime.Resized(b, width, signed)))
    case MultiplyUnsigned =>
      Some(Runtime.Computed(Runtime.MulOp, Runtime.Resized(a, width, false), Runtime.Resized(b, width, false)))
    case MultiplySigned =>
      Some(Runtime.Computed(Runtime.MulOp, Runtime.Resized(a, width, true), Runtime.Resized(b, width, true)))
    case DivideUnsigned =>
      Some(Runtime.Computed(Runtime.DivOp, Runtime.Resized(a, width, false), Runtime.Resized(b, width, false)))
    case DivideSigned => Some(Runtime.DivSigned(Runtime.Resized(a, width, true), Runtime.Resized(b, width, true)))
    case Equal => Some([EqualAtMaximum(a, b)])
    case NotEqual => Some([!EqualAtMaximum(a, b)])
    case LessThanUnsigned => Some([Unsigned(a, b) == Runtime.Less])
    case LessThanOrEqualUnsigned => Some([Unsigned(a, b) != Runtime.Greater])
    case GreaterThanUnsigned => Some([Unsigned(a, b) == Runtime.Greater])
    case GreaterThanOrEqualUnsigned => Some([Unsigned(a, b) != Runtime.Less])
    case LessThanSigned => Some([Signed(a, b) == Runtime.Less])
    case LessThanOrEqualSigned => Some([Signed(a, b) != Runtime.Greater])
    case GreaterThanSigned => Some([Signed(a, b) == Runtime.Greater])
    case GreaterThanOrEqualSigned => Some([Signed(a, b) != Runtime.Less])
    case LogicalAnd => Some([Runtime.Truthy(a) && Runtime.Truthy(b)])
    case LogicalOr => Some([Runtime.Truthy(a) || Runtime.Truthy(b)])
    case LeftShift => Runtime.Shift(a, b, width, false, false)
    case RightShift => Runtime.Shift(a, b, width, true, false)
    case RightShiftArithmetic => Runtime.Shift(a, b, width, true, true)
    case Concatenate => Some(Runtime.Resized(Runtime.Concat(a, b), width, false))
  }

  function EqualAtMaximum(a: Bits, b: Bits): bool {
    Runtime.Resized(a, Maximum(|a|, |b|), false) == Runtime.Resized(b, Maximum(|a|, |b|), false)
  }

  /** The result of the runtime's unsigned comparison. */
  function Unsigned(a: Bits, b: Bits): Runtime.Order {
    Runtime.OrderOf(ToNat(a), ToNat(b))
  }

  /** The result of the runtime's signed comparison, for operands of any widths. */
  function Signed(a: Bits, b: Bits): Runtime.Order {
    Runtime.OrderOf(ToInt(a), ToInt(b))
  }

  /** The declared width is the width of the generated type. */
  function Typed(b: Option<Bits>, width: nat): (r: Option<Bits>)
    ensures r.Some? ==> r == b && |r.value| == width
  {
    if b.Some? && |b.value| != width then None else b
  }

  function ValueOf(e: Expression, env: Store): (r: Option<Bits>)
    ensures r.Some? ==> |r.value| == e.width
    decreases e, 1
  {
    Typed(ValueOfKind(e, env), e.width)
  }

  function ValueOfKind(e: Expression, env: Store): Option<Bits>
    decreases e, 0
  {
    match e
    case Literal(value, width) => Some(FromInt(value, width))
    case Read(id, _) => if id < |env| then Some(env[id]) else None
    case Unary(operator, operand, width) =>
      (match ValueOf(operand, env)
       case None => None
       case Some(a) => Some(ApplyUnary(operator, a, width)))
    case Binary(operator, lhs, rhs, width, signed) =>
      (match (ValueOf(lhs, env), ValueOf(rhs, env))
       case (Some(a), Some(b)) => ApplyBinary(operator, a, b, width, signed)
       case _ => None)
    case Conditional(condition, thenValue, elseValue, width) =>
      (match ValueOf(condition, env)
       case None => None
       case Some(c) =>
         match if Runtime.Truthy(c) then ValueOf(thenValue, env) else ValueOf(elseValue, env)
         case None => None
         case Some(v) => Some(Runtime.Resized(v, width, false)))
    case Replicated(source, count, width) =>
      (match ValueOf(source, env)
       case None => None
       case Some(a) => Some(Runtime.Resized(Runtime.Replicate(a, count), width, false)))
    case Part(whole, offset, width) =>
      (match (ValueOf(whole, env), UsizeOf(offset, env))
       case (Some(a), Some(o)) => Some(Runtime.Select(a, o, width))
       case _ => None)
    case Indexed(whole, index, layout, width) =>
      (match (ValueOf(whole, env), UsizeOf(index, env))
       case (Some(a), Some(i)) =>
         (match ArrayOffset(i, layout.indices, layout.elementWidth)
          case None => None
          case Some(o) => Some(Runtime.Select(a, o, layout.elementWidth)))
       case _ => None)
  }

  /** Literals become plain numbers, whatever their width. */
  function UsizeOf(e: Expression, env: Store): Option<nat>
    decreases e, 2
  {
    if e.Literal? then (if e.value < Pow2(Runtime.USIZE_BITS) then Some(e.value) else None)
    else
      match ValueOf(e, env)
      case None => None
      case Some(b) => Runtime.ToUsize(b)
  }

  // ----- targets -----

  /** The bits of the root variable that an assignment writes. */
  datatype Place = Place(root: nat, offset: nat, width: nat)

  function Locate(target: Target, env: Store): Option<Place> {
    match target
    case Whole(id) => if id < |env| then Some(Place(id, 0, |env[id]|)) else None
    case PartOf(base, offset, width) =>
      (match (Locate(base, env), UsizeOf(offset, env))
       case (Some(place), Some(o)) => Moved(place, o, width)
       case _ => None)
    case ElementOf(base, index, layout) =>
      (match (Locate(base, env), UsizeOf(index, env))
       case (Some(place), Some(i)) =>
         (match ArrayOffset(i, layout.indices, layout.elementWidth)
          case None => None
          case Some(o) => Moved(place, o, layout.elementWidth))
       case _ => None)
  }

  /** Offsets are machine words. */
  function Moved(place: Place, offset: nat, width: nat): Option<Place> {
    if place.offset + offset < Pow2(Runtime.USIZE_BITS) then Some(Place(place.root, place.offset + offset, width)) else None
  }

  lemma {:induction false} LocateRoot(target: Target, env: Store)
    ensures Locate(target, env).Some? ==>
      Locate(target, env).value.root == Root(target) < |env|
  {
    hide ValueOf;
    hide UsizeOf;
    if !target.Whole? {
      LocateRoot(target.base, env);
    }
  }

  /** The variable's new bits. Whole variables take the resized value. */
  function Written(current: Bits, target: Target, place: Place, value: Bits): (r: Bits)
    ensures |r| == |current|
  {
    if target.Whole? then Runtime.Resized(value, |current|, false)
    else Runtime.Selected(current, place.offset, place.width, value)
  }

  // ----- statements -----

  /** Nonblocking assignments write `pending`, everything else `env`. */
  datatype State = State(env: Store, pending: Store)

  function Execute(statement: Statement, state: State): Option<State>
    decreases statement
  {
    match statement
    case Block(statements) => ExecuteAll(statements, state)
    case Assign(kind, target, value) =>
      (match (ValueOf(value, state.env), Locate(target, state.env))
       case (Some(v), Some(place)) => StoreValue(kind, target, place, v, state)
       case _ => None)
    case If(condition, thenStatements, elseStatements) =>
      match ValueOf(condition, state.env)
      case None => None
      case Some(c) => ExecuteAll(if Runtime.Truthy(c) then thenStatements else elseStatements, state)
  }

  function ExecuteAll(statements: seq<Statement>, state: State): Option<State>
    decreases statements
  {
    if statements == [] then Some(state)
    else
      match ExecuteAll(statements[..|statements| - 1], state)
      case None => None
      case Some(before) => Execute(statements[|statements| - 1], before)
  }

  function StoreValue(kind: AssignmentKind, target: Target, place: Place, value: Bits, state: State): Option<State> {
    if place.root >= |state.env| || place.root >= |state.pending| then None
    else if kind == Nonblocking then
      Some(state.(pending := state.pending[place.root := Written(state.pending[place.root], target, place, value)]))
    else
      Some(state.(env := state.env[place.root := Written(state.env[place.root], target, place, value)]))
  }

  /** Two stores describe the same variables. */
  predicate SameShape(a: Store, b: Store) {
    |a| == |b| && forall i :: 0 <= i < |a| ==> |a[i]| == |b[i]|
  }

  /** Assignments never change the width of a variable. */
  lemma {:induction false} ExecuteKeepsShape(statement: Statement, state: State)
    ensures Execute(statement, state).Some? ==>
      SameShape(Execute(statement, state).value.env, state.env) &&
      SameShape(Execute(statement, state).value.pending, state.pending)
    decreases statement
  {
    hide ValueOf;
    hide Locate;
    match statement {
      case Block(statements) => ExecuteAllKeepsShape(statements, state);
      case Assign(_, _, _) =>
      case If(condition, thenStatements, elseStatements) =>
        ExecuteAllKeepsShape(thenStatements, state);
        ExecuteAllKeepsShape(elseStatements, state);
    }
  }

  lemma {:induction false} ExecuteAllKeepsShape(statements: seq<Statement>, state: State)
    ensures ExecuteAll(statements, state).Some? ==>
      SameShape(ExecuteAll(statements, state).value.env, state.env) &&
      SameShape(ExecuteAll(statements, state).value.pending, state.pending)
    decreases statements
  {
    if statements != [] {
      ExecuteAllKeepsShape(statements[..|statements| - 1], state);
      if ExecuteAll(statements[..|statements| - 1], state).Some? {
        ExecuteKeepsShape(statements[|statements| - 1], ExecuteAll(statements[..|statements| - 1], state).value);
      }
    }
  }

  /** The deferred values of the nonblocking variables take effect. */
  function Commit(state: State, nonblocking: set<nat>): Store
    requires |state.env| == |state.pending|
  {
    seq(|state.env|, i requires 0 <= i < |state.env| => if i in nonblocking then state.pending[i] else state.env[i])
  }

  /** One clock edge. */
  function RunSequential(statements: seq<Statement>, nonblocking: set<nat>, env: Store): Option<Store> {
    match ExecuteAll(statements, State(env, env))
    case None => None
    case Some(after) =>
      if |after.env| == |after.pending| then Some(Commit(after, nonblocking)) else None
  }
}
