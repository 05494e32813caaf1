/** The And/Or-graph state machine that hardware is compiled into, and what it
    means.

    A machine is a sequence of variable drivers. Its meaning is relational: an
    assignment gives every variable a truth value, it is settled when every gate
    agrees with its inputs, and a run is an infinite trace of settled assignments
    whose latches move as their inputs say. Inputs and undriven variables are
    free. When gates only read lower indices, each choice of the free variables
    and latches has exactly one settled assignment (SettleIsUnique). */
module Fsm {
  import opened Words

  datatype Option<+T> = None | Some(value: T)

  /** A signed reference to a variable. */
  datatype Var = Var(sign: bool, index: nat) {
    function Negate(): Var {
      Var(!sign, index)
    }

    /** Invert if true, buffer if false. */
    function Xor(invert: bool): Var {
      if invert then Negate() else this
    }

    /** Lower index first, then negative before positive. */
    predicate LessOrEqual(other: Var) {
      if index != other.index then index < other.index else sign ==> other.sign
    }
  }

  datatype Value = Variable(v: Var) | Constant(b: bool) {
    function Negate(): Value {
      match this
      case Variable(v) => Variable(v.Negate())
      case Constant(b) => Constant(!b)
    }

    function Xor(invert: bool): Value {
      match this
      case Variable(v) => Variable(v.Xor(invert))
      case Constant(b) => Constant(b != invert)
    }

    /** Constants come before variables. */
    predicate LessOrEqual(other: Value) {
      match (this, other)
      case (Constant(a), Constant(b)) => a ==> b
      case (Variable(a), Variable(b)) => a.LessOrEqual(b)
      case (Constant(_), Variable(_)) => true
      case (Variable(_), Constant(_)) => false
    }

    /** The value refers to a variable below `limit`, if to any. */
    predicate Known(limit: nat) {
      Variable? ==> v.index < limit
    }
  }

  datatype GateType = Or | And

  /** The gate output, taken with the given sign, is the function of the inputs. */
  datatype Gate = Gate(sign: bool, gateType: GateType, a: Value, b: Value) {
    predicate InputsSorted() {
      a.LessOrEqual(b)
    }

    function SortInputs(): Gate {
      if InputsSorted() then this else this.(a := b, b := a)
    }
  }

  datatype Latch = Latch(sign: bool, input: Value, reset: Option<bool>)

  datatype Driver = InputDriver | LatchDriver(latch: Latch) | GateDriver(gate: Gate) | Undriven

  datatype Machine = Machine(
    variables: seq<Driver>,
    outputs: seq<Value>,
    asserts: seq<Value>,
    assumes: seq<Value>,
    covers: seq<Value>)

  // ----- meaning -----

  type Assignment = nat -> bool

  type Trace = nat -> Assignment

  function Holds(s: Assignment, value: Value): bool {
    match value
    case Variable(v) => s(v.index) == v.sign
    case Constant(b) => b
  }

  function ApplyGate(gateType: GateType, a: bool, b: bool): bool {
    match gateType
    case And => a && b
    case Or => a || b
  }

  predicate GateSettled(s: Assignment, index: nat, gate: Gate) {
    (s(index) == gate.sign) == ApplyGate(gate.gateType, Holds(s, gate.a), Holds(s, gate.b))
  }

  /** Every gate agrees with its inputs. */
  ghost predicate Settled(variables: seq<Driver>, s: Assignment) {
    forall i :: 0 <= i < |variables| && variables[i].GateDriver? ==> GateSettled(s, i, variables[i].gate)
  }

  /** Latches in `next` hold what their inputs were in `s`. */
  ghost predicate Steps(variables: seq<Driver>, s: Assignment, next: Assignment) {
    forall i :: 0 <= i < |variables| && variables[i].LatchDriver? ==>
      (next(i) == variables[i].latch.sign) == Holds(s, variables[i].latch.input)
  }

  /** Latches with a reset value hold it. */
  ghost predicate Initial(variables: seq<Driver>, s: Assignment) {
    forall i :: 0 <= i < |variables| && variables[i].LatchDriver? && variables[i].latch.reset.Some? ==>
      (s(i) == variables[i].latch.sign) == variables[i].latch.reset.value
  }

  /** Cycle `t` of a trace is settled and leads to cycle `t + 1`. */
  ghost predicate Cycle(variables: seq<Driver>, trace: Trace, t: nat) {
    Settled(variables, trace(t)) && Steps(variables, trace(t), trace(t + 1))
  }

  ghost predicate Run(m: Machine, trace: Trace) {
    && Initial(m.variables, trace(0))
    && forall t: nat :: Cycle(m.variables, trace, t)
  }

  /** What a model checker sees of one cycle. */
  datatype Observation = Observation(outputs: Bits, asserts: Bits, assumes: Bits, covers: Bits)

  function BitsOf(s: Assignment, values: seq<Value>): (b: Bits)
    ensures |b| == |values|
  {
    seq(|values|, i requires 0 <= i < |values| => Holds(s, values[i]))
  }

  function Observe(m: Machine, s: Assignment): Observation {
    Observation(BitsOf(s, m.outputs), BitsOf(s, m.asserts), BitsOf(s, m.assumes), BitsOf(s, m.covers))
  }

  /** The number that a little-endian word of values denotes. */
  function Word(s: Assignment, values: seq<Value>): (n: nat)
    ensures n < Pow2(|values|)
  {
    ToNat(BitsOf(s, values))
  }

  // ----- well-formedness -----

  ghost predicate AllKnown(values: seq<Value>, limit: nat) {
    forall i :: 0 <= i < |values| ==> values[i].Known(limit)
  }

  predicate Driven(variables: seq<Driver>, value: Value) {
    value.Variable? ==> value.v.index < |variables| && !variables[value.v.index].Undriven?
  }

  /** Gates read lower indices only, and keep their inputs sorted. */
  ghost predicate Ordered(variables: seq<Driver>) {
    forall i :: 0 <= i < |variables| && variables[i].GateDriver? ==>
      && variables[i].gate.a.Known(i)
      && variables[i].gate.b.Known(i)
      && variables[i].gate.InputsSorted()
  }

  /** What `verify` asserts, apart from the ordering of gates. */
  ghost predicate WellDriven(m: Machine) {
    && (forall i :: 0 <= i < |m.variables| && m.variables[i].GateDriver? ==>
          && Driven(m.variables, m.variables[i].gate.a)
          && Driven(m.variables, m.variables[i].gate.b)
          && m.variables[i].gate.InputsSorted())
    && (forall i :: 0 <= i < |m.variables| && m.variables[i].LatchDriver? ==>
          Driven(m.variables, m.variables[i].latch.input))
    && (forall v :: v in m.outputs ==> Driven(m.variables, v))
    && (forall v :: v in m.asserts ==> Driven(m.variables, v))
    && (forall v :: v in m.assumes ==> Driven(m.variables, v))
    && (forall v :: v in m.covers ==> Driven(m.variables, v))
  }

  /** The value is an input variable. */
  predicate IsInputBit(m: Machine, value: Value) {
    value.Variable? && value.v.sign && value.v.index < |m.variables| && m.variables[value.v.index].InputDriver?
  }

  /** What `verify` asserts when it also checks the ordering. */
  ghost predicate Verified(m: Machine) {
    WellDriven(m) && Ordered(m.variables)
  }

  lemma VerifiedIsOrdered(m: Machine)
    requires Verified(m)
    ensures Ordered(m.variables) && WellDriven(m)
  {
  }

  // ----- the unique settled assignment of an ordered machine -----

  /** Evaluate the gates in index order over given values of everything else. */
  function Evaluate(variables: seq<Driver>, free: Assignment, index: nat): bool
    decreases index
  {
    if index < |variables| && variables[index].GateDriver? then
      var g := variables[index].gate;
      ApplyGate(g.gateType, EvaluateBelow(variables, free, index, g.a), EvaluateBelow(variables, free, index, g.b))
        == g.sign
    else
      free(index)
  }

  function EvaluateBelow(variables: seq<Driver>, free: Assignment, limit: nat, value: Value): bool
    decreases limit, 0
  {
    match value
    case Constant(b) => b
    case Variable(v) => v.index < limit && Evaluate(variables, free, v.index) == v.sign
  }

  function Settle(variables: seq<Driver>, free: Assignment): Assignment {
    (i: nat) => Evaluate(variables, free, i)
  }

  /** Free variables and latches of an ordered machine can take any values. */
  lemma SettleIsSettled(variables: seq<Driver>, free: Assignment)
    requires Ordered(variables)
    ensures Settled(variables, Settle(variables, free))
    ensures forall i: nat :: (i < |variables| ==> !variables[i].GateDriver?) ==> Settle(variables, free)(i) == free(i)
  {
    var s := Settle(variables, free);
    forall i | 0 <= i < |variables| && variables[i].GateDriver?
      ensures GateSettled(s, i, variables[i].gate)
    {
      var g := variables[i].gate;
      assert EvaluateBelow(variables, free, i, g.a) == Holds(s, g.a);
      assert EvaluateBelow(variables, free, i, g.b) == Holds(s, g.b);
    }
  }

  /** ... and they determine every gate. */
  lemma {:induction false} SettleIsUnique(variables: seq<Driver>, s: Assignment, t: Assignment, i: nat)
    requires Ordered(variables) && Settled(variables, s) && Settled(variables, t)
    requires forall j :: 0 <= j < |variables| && !variables[j].GateDriver? ==> s(j) == t(j)
    requires i < |variables|
    ensures s(i) == t(i)
    decreases i
  {
    if variables[i].GateDriver? {
      var g := variables[i].gate;
      if g.a.Variable? { SettleIsUnique(variables, s, t, g.a.v.index); }
      if g.b.Variable? { SettleIsUnique(variables, s, t, g.b.v.index); }
      assert GateSettled(s, i, g) && GateSettled(t, i, g);
    }
  }

  // ----- runs of an ordered machine -----

  predicate Latching(variables: seq<Driver>, i: nat) {
    i < |variables| && variables[i].LatchDriver?
  }

  /** Latches start at their reset values, everything else as driven. */
  function StartingAt(variables: seq<Driver>, driven: Assignment): Assignment {
    (i: nat) =>
      if Latching(variables, i) && variables[i].latch.reset.Some?
      then variables[i].latch.reset.value == variables[i].latch.sign
      else driven(i)
  }

  /** Latches hold what their inputs were in `s`, everything else is as driven. */
  function SteppingFrom(variables: seq<Driver>, s: Assignment, driven: Assignment): Assignment {
    (i: nat) =>
      if Latching(variables, i) then Holds(s, variables[i].latch.input) == variables[i].latch.sign else driven(i)
  }

  /** The state in cycle `t` when inputs and initial latches are driven from outside. */
  function Trajectory(variables: seq<Driver>, drive: Trace, t: nat): Assignment {
    if t == 0 then Settle(variables, StartingAt(variables, drive(0)))
    else Settle(variables, SteppingFrom(variables, Trajectory(variables, drive, t - 1), drive(t)))
  }

  function TrajectoryTrace(variables: seq<Driver>, drive: Trace): Trace {
    (t: nat) => Trajectory(variables, drive, t)
  }

  lemma TrajectorySettled(variables: seq<Driver>, drive: Trace, t: nat)
    requires Ordered(variables)
    ensures Settled(variables, Trajectory(variables, drive, t))
  {
    if t == 0 {
      SettleIsSettled(variables, StartingAt(variables, drive(0)));
    } else {
      SettleIsSettled(variables, SteppingFrom(variables, Trajectory(variables, drive, t - 1), drive(t)));
    }
  }

  /** Variables other than gates: inputs are as driven, latches start and step. */
  lemma TrajectoryDriven(variables: seq<Driver>, drive: Trace, t: nat, i: nat)
    requires Ordered(variables) && i < |variables| && !variables[i].GateDriver?
    ensures !Latching(variables, i) ==> Trajectory(variables, drive, t)(i) == drive(t)(i)
    ensures t == 0 ==> Trajectory(variables, drive, t)(i) == StartingAt(variables, drive(0))(i)
    ensures t > 0 && Latching(variables, i) ==>
      Holds(Trajectory(variables, drive, t - 1), variables[i].latch.input) ==
      (Trajectory(variables, drive, t)(i) == variables[i].latch.sign)
  {
    if t == 0 {
      SettleIsSettled(variables, StartingAt(variables, drive(0)));
    } else {
      SettleIsSettled(variables, SteppingFrom(variables, Trajectory(variables, drive, t - 1), drive(t)));
    }
  }

  /** Every input sequence and every initial state that respects the reset values has a
      run. */
  lemma EveryDriveHasRun(m: Machine, drive: Trace)
    requires Ordered(m.variables)
    ensures Run(m, TrajectoryTrace(m.variables, drive))
    ensures forall t: nat, i :: 0 <= i < |m.variables| && !m.variables[i].GateDriver? && !Latching(m.variables, i) ==>
      TrajectoryTrace(m.variables, drive)(t)(i) == drive(t)(i)
    ensures forall i :: 0 <= i < |m.variables| && Latching(m.variables, i) && m.variables[i].latch.reset == None ==>
      TrajectoryTrace(m.variables, drive)(0)(i) == drive(0)(i)
  {
    hide Trajectory;
    var variables := m.variables;
    var trace := TrajectoryTrace(variables, drive);
    forall i | 0 <= i < |variables| && Latching(variables, i)
      ensures trace(0)(i) == StartingAt(variables, drive(0))(i)
    {
      TrajectoryDriven(variables, drive, 0, i);
    }
    forall t: nat
      ensures Cycle(variables, trace, t)
    {
      TrajectorySettled(variables, drive, t);
      forall i | 0 <= i < |variables| && variables[i].LatchDriver?
        ensures (trace(t + 1)(i) == variables[i].latch.sign) == Holds(trace(t), variables[i].latch.input)
      {
        TrajectoryDriven(variables, drive, t + 1, i);
      }
    }
    forall t: nat, i | 0 <= i < |variables| && !variables[i].GateDriver? && !Latching(variables, i)
      ensures trace(t)(i) == drive(t)(i)
    {
      TrajectoryDriven(variables, drive, t, i);
    }
  }

  // ----- growing a machine -----

  /** `after` has everything `before` has, and gates beyond that; assignments settled in
      `after` are settled in `before`. */
  ghost predicate Grows(before: seq<Driver>, after: seq<Driver>) {
    && |before| <= |after|
    && (forall i :: 0 <= i < |before| ==> after[i] == before[i])
    && (forall i :: |before| <= i < |after| ==> after[i].GateDriver?)
    && (forall s :: Settled(after, s) ==> Settled(before, s))
  }

  lemma GrowsTwice(a: seq<Driver>, b: seq<Driver>, c: seq<Driver>)
    requires Grows(a, b) && Grows(b, c)
    ensures Grows(a, c)
  {
    hide Settled;
  }

  /** The state machine as the source keeps it: lists that methods push to and
      overwrite. */
  class FSM {
    var variables: seq<Driver>
    var outputs: seq<Value>
    var asserts: seq<Value>
    var assumes: seq<Value>
    var covers: seq<Value>

    function Contents(): Machine
      reads this
    {
      Machine(variables, outputs, asserts, assumes, covers)
    }

    constructor ()
      ensures Contents() == Machine([], [], [], [], [])
    {
      variables, outputs, asserts, assumes, covers := [], [], [], [], [];
    }

    method AddVariable() returns (v: Var)
      modifies this`variables
      ensures v == Var(true, |old(variables)|)
      ensures variables == old(variables) + [Undriven]
    {
      v := Var(true, |variables|);
      variables := variables + [Undriven];
    }

    method AddGate(gateType: GateType, output: Var, a: Value, b: Value)
      requires output.index < |variables| && variables[output.index].Undriven?
      modifies this`variables
      ensures variables == old(variables)[output.index := GateDriver(Gate(output.sign, gateType, a, b).SortInputs())]
    {
      var gate := Gate(output.sign, gateType, a, b);
      variables := variables[output.index := GateDriver(gate.SortInputs())];
    }

    /** A new variable driven by a gate. */
    method AddVariableGateBinary(gateType: GateType, a: Value, b: Value) returns (r: Value)
      requires Ordered(variables) && a.Known(|variables|) && b.Known(|variables|)
      modifies this`variables
      ensures Ordered(variables) && Grows(old(variables), variables) && r.Known(|variables|)
      ensures forall s :: Settled(variables, s) ==> Holds(s, r) == ApplyGate(gateType, Holds(s, a), Holds(s, b))
    {
      var v := AddVariable();
      AddGate(gateType, v, a, b);
      SortKeepsOrder(a, b);
      r := Variable(v);
      assert forall s :: Settled(variables, s) ==> GateSettled(s, v.index, variables[v.index].gate);
    }

    /** Combines any number of inputs, taking two from the end at a time. */
    method AddVariableGate(gateType: GateType, inputs: seq<Value>) returns (r: Value)
      requires inputs != [] && Ordered(variables) && AllKnown(inputs, |variables|)
      modifies this`variables
      ensures Ordered(variables) && Grows(old(variables), variables) && r.Known(|variables|)
      ensures forall s :: Settled(variables, s) ==> Holds(s, r) == Combined(gateType, BitsOf(s, inputs))
    {
      var rest := inputs;
      while |rest| > 1
        invariant rest != [] && Ordered(variables) && AllKnown(rest, |variables|)
        invariant Grows(old(variables), variables)
        invariant forall s :: Settled(variables, s) ==>
          Combined(gateType, BitsOf(s, rest)) == Combined(gateType, BitsOf(s, inputs))
        decreases |rest|
      {
        var a, b := rest[|rest| - 1], rest[|rest| - 2];
        var previous := rest;
        var intermediate := AddVariableGateBinary(gateType, a, b);
        rest := rest[..|rest| - 2] + [intermediate];
        forall s | Settled(variables, s)
          ensures Combined(gateType, BitsOf(s, rest)) == Combined(gateType, BitsOf(s, previous))
        {
          CombineLastTwo(s, gateType, previous, intermediate);
        }
      }
      r := rest[0];
      forall s | Settled(variables, s)
        ensures Holds(s, r) == Combined(gateType, BitsOf(s, inputs))
      {
        var single := BitsOf(s, rest);
        assert |single| == 1 && single[0] == Holds(s, r);
      }
    }

    /** Drives an undriven variable by a latch, growing the machine if needed. */
    method AddLatch(input: Value, output: Var, reset: Option<bool>)
      requires output.index < |variables| ==> variables[output.index].Undriven?
      modifies this`variables
      ensures |variables| == (if output.index < |old(variables)| then |old(variables)| else output.index + 1)
      ensures variables[output.index] == LatchDriver(Latch(output.sign, input, reset))
      ensures forall i :: 0 <= i < |variables| && i != output.index ==>
        variables[i] == if i < |old(variables)| then old(variables)[i] else Undriven
    {
      while output.index >= |variables|
        invariant |old(variables)| <= |variables|
        invariant |variables| <= |old(variables)| || |variables| <= output.index + 1
        invariant forall i :: 0 <= i < |variables| ==>
          variables[i] == if i < |old(variables)| then old(variables)[i] else Undriven
        decreases output.index - |variables|
      {
        variables := variables + [Undriven];
      }
      variables := variables[output.index := LatchDriver(Latch(output.sign, input, reset))];
    }

    method AddVariableInput() returns (v: Var)
      modifies this`variables
      ensures v == Var(true, |old(variables)|)
      ensures variables == old(variables) + [InputDriver]
    {
      v := AddVariable();
      variables := variables[v.index := InputDriver];
    }

    method AddOutput(value: Value)
      modifies this`outputs
      ensures outputs == old(outputs) + [value]
    {
      outputs := outputs + [value];
    }

    method AddAssert(value: Value)
      modifies this`asserts
      ensures asserts == old(asserts) + [value]
    {
      asserts := asserts + [value];
    }

    method AddAssume(value: Value)
      modifies this`assumes
      ensures assumes == old(assumes) + [value]
    {
      assumes := assumes + [value];
    }

    method AddCover(value: Value)
      modifies this`covers
      ensures covers == old(covers) + [value]
    {
      covers := covers + [value];
    }

    /** The assertions a machine must pass, with or without those on gate order. */
    method Verify(ordering: bool) returns (ok: bool)
      ensures ok <==> if ordering then Verified(Contents()) else WellDriven(Contents())
    {
      for i := 0 to |variables|
        invariant forall j :: 0 <= j < i && variables[j].GateDriver? ==>
          && Driven(variables, variables[j].gate.a)
          && Driven(variables, variables[j].gate.b)
          && variables[j].gate.InputsSorted()
          && (ordering ==> variables[j].gate.a.Known(j) && variables[j].gate.b.Known(j))
        invariant forall j :: 0 <= j < i && variables[j].LatchDriver? ==> Driven(variables, variables[j].latch.input)
      {
        match variables[i]
        case GateDriver(g) =>
          if !Driven(variables, g.a) || !Driven(variables, g.b) || !g.InputsSorted() {
            return false;
          }
          if ordering && !(g.a.Known(i) && g.b.Known(i)) {
            return false;
          }
        case LatchDriver(latch) =>
          if !Driven(variables, latch.input) {
            return false;
          }
        case _ =>
      }
      return AllDriven(outputs) && AllDriven(asserts) && AllDriven(assumes) && AllDriven(covers);
    }

    predicate AllDriven(values: seq<Value>)
      reads this
    {
      forall v :: v in values ==> Driven(variables, v)
    }
  }

  lemma SortKeepsOrder(a: Value, b: Value)
    ensures a.LessOrEqual(b) || b.LessOrEqual(a)
  {
  }

  lemma NegateHolds(s: Assignment, value: Value)
    ensures Holds(s, value.Negate()) == !Holds(s, value)
  {
  }

  /** All inputs for And, any input for Or. */
  predicate Combined(gateType: GateType, bits: Bits) {
    match gateType
    case And => forall i :: 0 <= i < |bits| ==> bits[i]
    case Or => exists i :: 0 <= i < |bits| && bits[i]
  }

  lemma CombineLastTwo(s: Assignment, gateType: GateType, values: seq<Value>, last: Value)
    requires |values| >= 2
    requires Holds(s, last) ==
      ApplyGate(gateType, Holds(s, values[|values| - 1]), Holds(s, values[|values| - 2]))
    ensures Combined(gateType, BitsOf(s, values[..|values| - 2] + [last])) == Combined(gateType, BitsOf(s, values))
  {
    var n := |values|;
    var long := BitsOf(s, values);
    var short := BitsOf(s, values[..n - 2] + [last]);
    assert forall i :: 0 <= i < n - 2 ==> short[i] == long[i];
    assert short[n - 2] == ApplyGate(gateType, long[n - 1], long[n - 2]);
  }
}
