/** The three-valued simulator, and reset inference with it. */
module Simulator {
  import opened Words
  import opened Fsm
  import opened Translation
  import opened TieInput

  type Known = seq<Option<bool>>

  // ----- three-valued gates -----

  function ControllingInput(gateType: GateType): bool {
    gateType == Or
  }

  /** The output that the known inputs force: the controlling value if some input has
      it, unknown if some input is unknown, otherwise the opposite. */
  function KnownGate(gateType: GateType, values: seq<Option<bool>>): Option<bool> {
    if Some(ControllingInput(gateType)) in values then Some(ControllingInput(gateType))
    else if None in values then None
    else Some(!ControllingInput(gateType))
  }

  method EvalGate(gateType: GateType, values: seq<Option<bool>>) returns (r: Option<bool>)
    ensures r == KnownGate(gateType, values)
  {
    var unknown := false;
    for i := 0 to |values|
      invariant unknown == (None in values[..i])
      invariant Some(ControllingInput(gateType)) !in values[..i]
    {
      assert values[..i + 1] == values[..i] + [values[i]];
      match values[i]
      case Some(value) =>
        if value == ControllingInput(gateType) {
          return Some(ControllingInput(gateType));
        }
      case None => unknown := true;
    }
    assert values[..|values|] == values;
    r := if unknown then None else Some(!ControllingInput(gateType));
    assert !unknown ==> None !in values;
  }

  /** `bits` fills in the unknowns of `values`. */
  ghost predicate Fills(values: seq<Option<bool>>, bits: Bits) {
    && |bits| == |values|
    && forall i :: 0 <= i < |values| && values[i].Some? ==> bits[i] == values[i].value
  }

  /** The three-valued gate is exact: it reports a value if and only if every way to
      fill in the unknowns gives that value. */
  lemma GateIsExact(gateType: GateType, values: seq<Option<bool>>, value: bool)
    ensures KnownGate(gateType, values) == Some(value) <==>
      forall bits :: Fills(values, bits) ==> Combined(gateType, bits) == value
  {
    var c := ControllingInput(gateType);
    var low := seq(|values|, i requires 0 <= i < |values| => if values[i].Some? then values[i].value else !c);
    var high := seq(|values|, i requires 0 <= i < |values| => if values[i].Some? then values[i].value else c);
    assert Fills(values, low) && Fills(values, high);
    if Some(c) in values {
      var k :| 0 <= k < |values| && values[k] == Some(c);
      forall bits | Fills(values, bits)
        ensures Combined(gateType, bits) == c
      {
        assert bits[k] == c;
      }
    } else {
      assert forall i :: 0 <= i < |low| ==> low[i] == !c;
      assert Combined(gateType, low) == !c;
      if None in values {
        var k :| 0 <= k < |values| && values[k] == None;
        assert high[k] == c;
        assert Combined(gateType, high) == c;
      } else {
        forall bits | Fills(values, bits)
          ensures Combined(gateType, bits) == !c
        {
          assert forall i :: 0 <= i < |bits| ==> values[i].Some? && bits[i] == !c;
        }
      }
    }
  }

  // ----- what the simulator knows -----

  function Signed(value: Option<bool>, sign: bool): Option<bool> {
    match value
    case None => None
    case Some(b) => Some(b == sign)
  }

  function KnownValue(known: Known, value: Value): Option<bool>
    requires value.Known(|known|)
  {
    match value
    case Variable(v) => Signed(known[v.index], v.sign)
    case Constant(b) => Some(b)
  }

  /** Gate values computed in index order from what is known of the rest. */
  function KnownAt(variables: seq<Driver>, known: Known, i: nat): Option<bool>
    requires |known| == |variables| && i < |variables| && Ordered(variables)
    decreases i
  {
    if variables[i].GateDriver? then
      var g := variables[i].gate;
      Signed(KnownGate(g.gateType, [KnownInput(variables, known, i, g.a), KnownInput(variables, known, i, g.b)]), g.sign)
    else
      known[i]
  }

  function KnownInput(variables: seq<Driver>, known: Known, limit: nat, value: Value): Option<bool>
    requires |known| == |variables| && limit <= |variables| && Ordered(variables) && value.Known(limit)
    decreases limit, 0
  {
    match value
    case Variable(v) => Signed(KnownAt(variables, known, v.index), v.sign)
    case Constant(b) => Some(b)
  }

  function Evaluated(variables: seq<Driver>, known: Known): (r: Known)
    requires |known| == |variables| && Ordered(variables)
    ensures |r| == |known|
  {
    seq(|known|, i requires 0 <= i < |known| => KnownAt(variables, known, i))
  }

  /** Latches take the known values of their inputs; nothing else changes. */
  function Clocked(variables: seq<Driver>, known: Known): (r: Known)
    requires |known| == |variables|
    requires forall i :: 0 <= i < |variables| && variables[i].LatchDriver? ==> variables[i].latch.input.Known(|variables|)
    ensures |r| == |known|
  {
    seq(|known|, i requires 0 <= i < |known| =>
      if variables[i].LatchDriver? then Signed(KnownValue(known, variables[i].latch.input), variables[i].latch.sign)
      else known[i])
  }

  function ResetLatches(variables: seq<Driver>, known: Known): (r: Known)
    requires |known| == |variables|
    ensures |r| == |known|
  {
    seq(|known|, i requires 0 <= i < |known| =>
      if variables[i].LatchDriver? then Signed(variables[i].latch.reset, variables[i].latch.sign) else known[i])
  }

  class Simulation {
    const fsm: Machine
    var variables: Known

    ghost predicate Valid()
      reads this
    {
      Verified(fsm) && InRange(fsm) && |variables| == |fsm.variables|
    }

    constructor (fsm: Machine)
      requires Verified(fsm)
      ensures Valid() && this.fsm == fsm
      ensures variables == ResetLatches(fsm.variables, seq(|fsm.variables|, _ => None))
    {
      WellDrivenInRange(fsm);
      this.fsm := fsm;
      this.variables := seq(|fsm.variables|, _ => None);
      new;
      ResetState();
    }

    method SetInput(i: nat, value: Option<bool>)
      requires Valid() && i < |fsm.variables| && fsm.variables[i].InputDriver?
      modifies this`variables
      ensures Valid() && variables == old(variables)[i := value]
    {
      variables := variables[i := value];
    }

    method EvalVariable(i: nat)
      requires Valid() && i < |fsm.variables|
      modifies this`variables
      ensures Valid()
      ensures variables == old(variables)[i :=
        if fsm.variables[i].GateDriver? then
          var g := fsm.variables[i].gate;
          Signed(KnownGate(g.gateType, [KnownValue(old(variables), g.a), KnownValue(old(variables), g.b)]), g.sign)
        else old(variables)[i]]
    {
      if fsm.variables[i].GateDriver? {
        var gate := fsm.variables[i].gate;
        var value := EvalGate(gate.gateType, [KnownValue(variables, gate.a), KnownValue(variables, gate.b)]);
        variables := variables[i := Signed(value, gate.sign)];
      }
    }

    /** Evaluates the gates from the current inputs and state. */
    method Eval()
      requires Valid()
      modifies this`variables
      ensures Valid() && variables == Evaluated(fsm.variables, old(variables))
    {
      ghost var before := variables;
      for i := 0 to |fsm.variables|
        invariant Valid() && |before| == |variables|
        invariant forall k :: 0 <= k < i ==> variables[k] == KnownAt(fsm.variables, before, k)
        invariant forall k :: i <= k < |variables| ==> variables[k] == before[k]
      {
        EvalVariable(i);
      }
    }

    /** Transfers latch inputs to latch outputs, reading only the old values. */
    method Step()
      requires Valid()
      modifies this`variables
      ensures Valid() && variables == Clocked(fsm.variables, old(variables))
    {
      var next := variables;
      for i := 0 to |fsm.variables|
        invariant |next| == |variables| && variables == old(variables)
        invariant forall k :: 0 <= k < i ==> next[k] == Clocked(fsm.variables, variables)[k]
        invariant forall k :: i <= k < |next| ==> next[k] == variables[k]
      {
        if fsm.variables[i].LatchDriver? {
          var latch := fsm.variables[i].latch;
          next := next[i := Signed(KnownValue(variables, latch.input), latch.sign)];
        }
      }
      variables := next;
    }

    method ResetState()
      requires Valid()
      modifies this`variables
      ensures Valid() && variables == ResetLatches(fsm.variables, old(variables))
    {
      for i := 0 to |fsm.variables|
        invariant Valid() && |variables| == |old(variables)|
        invariant forall k :: 0 <= k < i ==> variables[k] == ResetLatches(fsm.variables, old(variables))[k]
        invariant forall k :: i <= k < |variables| ==> variables[k] == old(variables)[k]
      {
        if fsm.variables[i].LatchDriver? {
          variables := variables[i := Signed(fsm.variables[i].latch.reset, fsm.variables[i].latch.sign)];
        }
      }
    }
  }

  // ----- soundness -----

  /** Everything known is so. */
  ghost predicate Sound(known: Known, s: Assignment) {
    forall i :: 0 <= i < |known| && known[i].Some? ==> known[i].value == s(i)
  }

  lemma {:induction false} KnownAtSound(variables: seq<Driver>, known: Known, s: Assignment, i: nat)
    requires |known| == |variables| && i < |variables| && Ordered(variables) && Settled(variables, s)
    requires forall k :: 0 <= k < |known| && !variables[k].GateDriver? && known[k].Some? ==> known[k].value == s(k)
    ensures KnownAt(variables, known, i).Some? ==> KnownAt(variables, known, i).value == s(i)
    decreases i
  {
    if variables[i].GateDriver? {
      var g := variables[i].gate;
      if g.a.Variable? { KnownAtSound(variables, known, s, g.a.v.index); }
      if g.b.Variable? { KnownAtSound(variables, known, s, g.b.v.index); }
      assert GateSettled(s, i, g);
    }
  }

  /** What is known of the inputs and latches makes only true things known of the gates;
      stale gate values do not matter. */
  lemma EvaluatedSound(variables: seq<Driver>, known: Known, s: Assignment)
    requires |known| == |variables| && Ordered(variables) && Settled(variables, s)
    requires forall k :: 0 <= k < |known| && !variables[k].GateDriver? && known[k].Some? ==> known[k].value == s(k)
    ensures Sound(Evaluated(variables, known), s)
  {
    forall i | 0 <= i < |known| && Evaluated(variables, known)[i].Some?
      ensures Evaluated(variables, known)[i].value == s(i)
    {
      KnownAtSound(variables, known, s, i);
    }
  }

  // ----- simulating a run -----

  /** Set every input; the rest stays as it was. */
  function WithInputs(variables: seq<Driver>, known: Known, inputs: Known): (r: Known)
    requires |known| == |variables| == |inputs|
    ensures |r| == |known|
  {
    seq(|known|, i requires 0 <= i < |known| => if variables[i].InputDriver? then inputs[i] else known[i])
  }

  /** The simulator's knowledge in cycle `t`, after setting inputs and evaluating. */
  function Simulated(m: Machine, stimulus: nat -> Known, t: nat): (r: Known)
    requires Verified(m) && InRange(m) && forall t :: |stimulus(t)| == |m.variables|
    ensures |r| == |m.variables|
  {
    var start :=
      if t == 0 then ResetLatches(m.variables, seq(|m.variables|, _ => None))
      else Clocked(m.variables, Simulated(m, stimulus, t - 1));
    Evaluated(m.variables, WithInputs(m.variables, start, stimulus(t)))
  }

  /** Whatever the simulator reports as known holds in every run that the reported
      inputs allow, in every cycle. */
  lemma {:induction false} SimulationSound(m: Machine, stimulus: nat -> Known, trace: Trace, t: nat)
    requires Verified(m) && InRange(m) && forall t :: |stimulus(t)| == |m.variables|
    requires Run(m, trace)
    requires forall t: nat, i :: 0 <= i < |m.variables| && m.variables[i].InputDriver? && stimulus(t)[i].Some? ==>
      trace(t)(i) == stimulus(t)[i].value
    ensures Sound(Simulated(m, stimulus, t), trace(t))
  {
    assert Cycle(m.variables, trace, t);
    if t == 0 {
      var start := ResetLatches(m.variables, seq(|m.variables|, _ => None));
      EvaluatedSound(m.variables, WithInputs(m.variables, start, stimulus(0)), trace(0));
    } else {
      SimulationSound(m, stimulus, trace, t - 1);
      assert Cycle(m.variables, trace, t - 1);
      var before := Simulated(m, stimulus, t - 1);
      ClockedSound(m, before, trace(t - 1), trace(t));
      var start := WithInputs(m.variables, Clocked(m.variables, before), stimulus(t));
      OnlyDrivenKnown(m, stimulus, t - 1);
      EvaluatedSound(m.variables, start, trace(t));
    }
  }

  lemma ClockedSound(m: Machine, known: Known, s: Assignment, next: Assignment)
    requires InRange(m) && |known| == |m.variables| && Sound(known, s) && Steps(m.variables, s, next)
    ensures forall i :: 0 <= i < |known| && m.variables[i].LatchDriver? && Clocked(m.variables, known)[i].Some? ==>
      Clocked(m.variables, known)[i].value == next(i)
  {
  }

  /** Nothing is ever known of undriven variables. */
  lemma {:induction false} OnlyDrivenKnown(m: Machine, stimulus: nat -> Known, t: nat)
    requires Verified(m) && InRange(m) && forall t :: |stimulus(t)| == |m.variables|
    ensures forall i :: 0 <= i < |m.variables| && m.variables[i].Undriven? ==> Simulated(m, stimulus, t)[i] == None
  {
    if t > 0 {
      OnlyDrivenKnown(m, stimulus, t - 1);
    }
  }

  // ----- reset inference -----

  /** Recorded reset values: what one simulated reset cycle makes known, otherwise what
      was declared. */
  function InferredReset(latch: Latch, known: Option<bool>): Latch {
    latch.(reset := if known.Some? then Signed(known, latch.sign) else latch.reset)
  }

  /** One cycle with only the reset input known, then a clock edge. */
  function AfterReset(m: Machine, reset: nat, asserted: bool): (r: Known)
    requires Verified(m) && InRange(m) && reset < |m.variables|
    ensures |r| == |m.variables|
  {
    var start := ResetLatches(m.variables, seq(|m.variables|, _ => None));
    Clocked(m.variables, Evaluated(m.variables, start[reset := Some(asserted)]))
  }

  function WithInferredResets(m: Machine, known: Known): Machine
    requires |known| == |m.variables|
  {
    m.(variables := seq(|m.variables|, i requires 0 <= i < |m.variables| =>
      if m.variables[i].LatchDriver? then LatchDriver(InferredReset(m.variables[i].latch, known[i])) else m.variables[i]))
  }

  lemma InferredVerified(m: Machine, known: Known)
    requires Verified(m) && |known| == |m.variables|
    ensures Verified(WithInferredResets(m, known))
  {
    var n := WithInferredResets(m, known);
    assert forall v: Value :: Driven(m.variables, v) ==> Driven(n.variables, v);
  }

  /** `n` is the machine with inferred reset values and its reset input tied inactive. */
  ghost predicate AppliesReset(m: Machine, reset: nat, asserted: bool, n: Machine, mapping: seq<Value>, origin: seq<Var>)
    requires Verified(m) && InRange(m) && reset < |m.variables|
  {
    TiedMachine(WithInferredResets(m, AfterReset(m, reset, asserted)), n, reset, !asserted, mapping, origin)
  }

  /** Infers reset values by simulation, then ties the reset input inactive. */
  method ApplyReset(fsm: FSM, reset: nat, asserted: bool)
    returns (rebuilt: FSM, mapping: seq<Value>, ghost origin: seq<Var>)
    requires Verified(fsm.Contents()) && InRange(fsm.Contents())
    requires reset < |fsm.variables| && fsm.variables[reset].InputDriver?
    modifies fsm
    ensures fresh(rebuilt) && Verified(rebuilt.Contents())
    ensures fsm.Contents() ==
      WithInferredResets(old(fsm.Contents()), AfterReset(old(fsm.Contents()), reset, asserted))
    ensures AppliesReset(old(fsm.Contents()), reset, asserted, rebuilt.Contents(), mapping, origin)
  {
    ghost var before := fsm.Contents();
    var simulator := new Simulation(fsm.Contents());
    simulator.SetInput(reset, Some(asserted));
    simulator.Eval();
    simulator.Step();
    ghost var known := AfterReset(before, reset, asserted);
    for i := 0 to |fsm.variables|
      invariant |fsm.variables| == |before.variables| && simulator.variables == known
      invariant fsm.Contents() == before.(variables := fsm.variables)
      invariant forall k :: 0 <= k < i ==> fsm.variables[k] == WithInferredResets(before, known).variables[k]
      invariant forall k :: i <= k < |fsm.variables| ==> fsm.variables[k] == before.variables[k]
    {
      if fsm.variables[i].LatchDriver? {
        var latch := fsm.variables[i].latch;
        fsm.variables := fsm.variables[i := LatchDriver(InferredReset(latch, simulator.variables[i]))];
      }
    }
    assert fsm.Contents() == WithInferredResets(before, known);
    InferredVerified(before, known);
    rebuilt, mapping, origin := RebuildWithTiedInput(fsm.Contents(), reset, !asserted);
  }

  /** Reset is asserted in the first cycle and inactive ever after. */
  ghost predicate ResetRun(trace: Trace, reset: nat, asserted: bool) {
    trace(0)(reset) == asserted && forall t: nat :: t > 0 ==> trace(t)(reset) == !asserted
  }

  function Later(trace: Trace): Trace {
    (t: nat) => trace(t + 1)
  }

  /** No latch keeps a declared reset value because simulation left it unknown. */
  predicate NoFallback(m: Machine, known: Known)
    requires |known| == |m.variables|
  {
    forall i :: 0 <= i < |m.variables| && m.variables[i].LatchDriver? && known[i] == None ==>
      m.variables[i].latch.reset == None
  }

  /** Every inferred value is the value that latch has after the reset cycle. */
  lemma AfterResetSound(m: Machine, reset: nat, asserted: bool, trace: Trace)
    requires Verified(m) && InRange(m) && reset < |m.variables| && m.variables[reset].InputDriver?
    requires Run(m, trace) && trace(0)(reset) == asserted
    ensures forall i :: 0 <= i < |m.variables| && m.variables[i].LatchDriver? && AfterReset(m, reset, asserted)[i].Some? ==>
      AfterReset(m, reset, asserted)[i].value == trace(1)(i)
  {
    var start := ResetLatches(m.variables, seq(|m.variables|, _ => None));
    assert Cycle(m.variables, trace, 0);
    EvaluatedSound(m.variables, start[reset := Some(asserted)], trace(0));
    ClockedSound(m, Evaluated(m.variables, start[reset := Some(asserted)]), trace(0), trace(1));
  }

  /** A cycle after reset is a cycle of the machine with the inferred reset values. */
  lemma InferredCycle(m: Machine, known: seq<Option<bool>>, trace: Trace, t: nat)
    requires |known| == |m.variables| && Cycle(m.variables, trace, t + 1)
    ensures Cycle(WithInferredResets(m, known).variables, Later(trace), t)
  {
    var inferred := WithInferredResets(m, known).variables;
    forall i | 0 <= i < |inferred| && inferred[i].GateDriver?
      ensures GateSettled(Later(trace)(t), i, inferred[i].gate)
    {
      assert m.variables[i].GateDriver?;
    }
    forall i | 0 <= i < |inferred| && inferred[i].LatchDriver?
      ensures (Later(trace)(t + 1)(i) == inferred[i].latch.sign) == Holds(Later(trace)(t), inferred[i].latch.input)
    {
      assert m.variables[i].LatchDriver?;
    }
  }

  /** What follows the reset cycle of any run is a run of the machine that reset
      application produces, observation by observation: what holds of all its runs
      holds of the original after reset. */
  lemma ResetIsSound(m: Machine, reset: nat, asserted: bool, n: Machine, mapping: seq<Value>, origin: seq<Var>, trace: Trace)
    requires Verified(m) && InRange(m) && reset < |m.variables| && m.variables[reset].InputDriver?
    requires NoFallback(m, AfterReset(m, reset, asserted))
    requires AppliesReset(m, reset, asserted, n, mapping, origin)
    requires Run(m, trace) && ResetRun(trace, reset, asserted)
    ensures Run(n, PushTrace(origin, Later(trace)))
    ensures SameObservations(m, Later(trace), n, PushTrace(origin, Later(trace)))
  {
    var known := AfterReset(m, reset, asserted);
    var inferred := WithInferredResets(m, known);
    var later := Later(trace);
    AfterResetSound(m, reset, asserted, trace);
    InferredVerified(m, known);
    assert Initial(inferred.variables, later(0));
    forall t: nat
      ensures Cycle(inferred.variables, later, t)
    {
      assert Cycle(m.variables, trace, t + 1);
      InferredCycle(m, known, trace, t);
    }
    hide Settled;
    hide Steps;
    assert Run(inferred, later);
    assert HeldAt(later, reset, !asserted);
    TyingKeepsRuns(inferred, n, reset, !asserted, mapping, origin);
    assert forall t: nat :: Observe(inferred, later(t)) == Observe(m, later(t));
  }

  // ----- when every latch was inferred -----

  /** Simulation of the reset cycle left no latch unknown. */
  predicate AllInferred(m: Machine, known: Known)
    requires |known| == |m.variables|
  {
    forall i :: 0 <= i < |m.variables| && m.variables[i].LatchDriver? ==> known[i].Some?
  }

  /** The reset cycle before a run: reset asserted, everything else driven alike. */
  function ResetCycle(m: Machine, reset: nat, asserted: bool, driven: Assignment): Assignment {
    Settle(m.variables, StartingAt(m.variables, (i: nat) => if i == reset then asserted else driven(i)))
  }

  function Preceded(first: Assignment, trace: Trace): Trace {
    (t: nat) => if t == 0 then first else trace(t - 1)
  }

  lemma ResetCycleSteps(m: Machine, reset: nat, asserted: bool, next: Assignment)
    requires Verified(m) && InRange(m) && reset < |m.variables| && m.variables[reset].InputDriver?
    requires AllInferred(m, AfterReset(m, reset, asserted))
    requires Initial(WithInferredResets(m, AfterReset(m, reset, asserted)).variables, next)
    ensures var first := ResetCycle(m, reset, asserted, next);
      && first(reset) == asserted && Initial(m.variables, first)
      && Settled(m.variables, first) && Steps(m.variables, first, next)
  {
    var first := ResetCycle(m, reset, asserted, next);
    ResetCycleStarts(m, reset, asserted, next);
    hide ResetCycle;
    var start := ResetLatches(m.variables, seq(|m.variables|, _ => None));
    EvaluatedSound(m.variables, start[reset := Some(asserted)], first);
    var evaluated := Evaluated(m.variables, start[reset := Some(asserted)]);
    ClockedIsNext(m, evaluated, first, next);
  }

  lemma ResetCycleStarts(m: Machine, reset: nat, asserted: bool, driven: Assignment)
    requires Ordered(m.variables) && reset < |m.variables| && m.variables[reset].InputDriver?
    ensures var first := ResetCycle(m, reset, asserted, driven);
      first(reset) == asserted && Initial(m.variables, first) && Settled(m.variables, first)
  {
    var start := StartingAt(m.variables, (i: nat) => if i == reset then asserted else driven(i));
    var first := ResetCycle(m, reset, asserted, driven);
    assert first == Settle(m.variables, start);
    SettleIsSettled(m.variables, start);
    hide Settle;
    forall i | 0 <= i < |m.variables| && m.variables[i].LatchDriver? && m.variables[i].latch.reset.Some?
      ensures (first(i) == m.variables[i].latch.sign) == m.variables[i].latch.reset.value
    {
      assert Latching(m.variables, i);
      assert first(i) == start(i);
    }
    assert !Latching(m.variables, reset) && first(reset) == start(reset) == asserted;
  }

  lemma ClockedIsNext(m: Machine, known: Known, first: Assignment, next: Assignment)
    requires InRange(m) && |known| == |m.variables| && Sound(known, first)
    requires AllInferred(m, Clocked(m.variables, known))
    requires Initial(WithInferredResets(m, Clocked(m.variables, known)).variables, next)
    ensures Steps(m.variables, first, next)
  {
    var clocked := Clocked(m.variables, known);
    var inferred := WithInferredResets(m, clocked).variables;
    forall i | 0 <= i < |m.variables| && m.variables[i].LatchDriver?
      ensures (next(i) == m.variables[i].latch.sign) == Holds(first, m.variables[i].latch.input)
    {
      assert inferred[i].LatchDriver? && inferred[i].latch.reset == Signed(clocked[i], m.variables[i].latch.sign);
      assert clocked[i] == Signed(KnownValue(known, m.variables[i].latch.input), m.variables[i].latch.sign);
    }
  }

  /** Then nothing is added either: every run of the machine that reset application
      produces is what follows the reset cycle of some run of the original. */
  lemma ResetIsExact(m: Machine, reset: nat, asserted: bool, n: Machine, mapping: seq<Value>, origin: seq<Var>, trace: Trace)
    requires Verified(m) && InRange(m) && reset < |m.variables| && m.variables[reset].InputDriver?
    requires AllInferred(m, AfterReset(m, reset, asserted))
    requires AppliesReset(m, reset, asserted, n, mapping, origin)
    requires Run(n, trace)
    ensures exists original :: FollowsReset(m, original, reset, asserted, n, trace)
  {
    var known := AfterReset(m, reset, asserted);
    var inferred := WithInferredResets(m, known);
    var later := PullTrace(mapping, trace);
    InferredVerified(m, known);
    TyingKeepsRuns(inferred, n, reset, !asserted, mapping, origin);
    hide *;
    assert Run(inferred, later) && HeldAt(later, reset, !asserted);
    assert SameObservations(n, trace, inferred, later);
    var first := ResetCycle(m, reset, asserted, later(0));
    InitialOf(inferred, later);
    ResetCycleSteps(m, reset, asserted, later(0));
    var original := Preceded(first, later);
    PrecededRun(m, known, first, later);
    PrecededReset(first, later, reset, asserted);
    SameLater(m, known, first, later, n, trace);
    assert FollowsReset(m, original, reset, asserted, n, trace) by {
      FollowsByParts(m, original, reset, asserted, n, trace);
    }
  }

  lemma InitialOf(m: Machine, trace: Trace)
    requires Run(m, trace)
    ensures Initial(m.variables, trace(0))
  {
  }

  lemma PrecededReset(first: Assignment, later: Trace, reset: nat, asserted: bool)
    requires first(reset) == asserted && HeldAt(later, reset, !asserted)
    ensures ResetRun(Preceded(first, later), reset, asserted)
  {
  }

  lemma FollowsByParts(m: Machine, original: Trace, reset: nat, asserted: bool, n: Machine, trace: Trace)
    requires Run(m, original) && ResetRun(original, reset, asserted) && SameObservations(m, Later(original), n, trace)
    ensures FollowsReset(m, original, reset, asserted, n, trace)
  {
    hide Run, ResetRun, SameObservations;
  }

  /** `original` is a run with a reset cycle, after which it is observed like `trace`. */
  ghost predicate FollowsReset(m: Machine, original: Trace, reset: nat, asserted: bool, n: Machine, trace: Trace) {
    Run(m, original) && ResetRun(original, reset, asserted) && SameObservations(m, Later(original), n, trace)
  }

  lemma SameLater(m: Machine, known: Known, first: Assignment, later: Trace, n: Machine, trace: Trace)
    requires |known| == |m.variables|
    requires SameObservations(n, trace, WithInferredResets(m, known), later)
    ensures SameObservations(m, Later(Preceded(first, later)), n, trace)
  {
    forall t: nat
      ensures Observe(m, Later(Preceded(first, later))(t)) == Observe(n, trace(t))
    {
      assert Later(Preceded(first, later))(t) == later(t);
    }
  }

  lemma PrecededRun(m: Machine, known: Known, first: Assignment, later: Trace)
    requires |known| == |m.variables| && Initial(m.variables, first)
    requires Settled(m.variables, first) && Steps(m.variables, first, later(0))
    requires Run(WithInferredResets(m, known), later)
    ensures Run(m, Preceded(first, later))
  {
    var trace := Preceded(first, later);
    var inferred := WithInferredResets(m, known).variables;
    forall t: nat
      ensures Cycle(m.variables, trace, t)
    {
      if t > 0 {
        assert Cycle(inferred, later, t - 1);
        SameCycle(m, known, later, t - 1);
        assert trace(t) == later(t - 1) && trace(t + 1) == later(t);
      }
    }
  }

  lemma SameCycle(m: Machine, known: Known, trace: Trace, t: nat)
    requires |known| == |m.variables| && Cycle(WithInferredResets(m, known).variables, trace, t)
    ensures Cycle(m.variables, trace, t)
  {
    var inferred := WithInferredResets(m, known).variables;
    forall i | 0 <= i < |m.variables| && m.variables[i].GateDriver?
      ensures GateSettled(trace(t), i, m.variables[i].gate)
    {
      assert inferred[i].GateDriver?;
    }
    forall i | 0 <= i < |m.variables| && m.variables[i].LatchDriver?
      ensures (trace(t + 1)(i) == m.variables[i].latch.sign) == Holds(trace(t), m.variables[i].latch.input)
    {
      assert inferred[i].LatchDriver?;
    }
  }
}
