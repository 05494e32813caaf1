/** Two designs: a counter with an enable input, which meets every condition of the
    conversion, and a latch, on whose output the two backends differ. */
module VerilogExample {
  import opened Words
  import opened Fsm
  import opened VerilogAst
  import opened VerilogAnalysis
  import opened VerilogSimulator
  import opened VerilogExpressions
  import opened VerilogConvert
  import opened VerilogSelection
  import opened VerilogTargets
  import opened VerilogFootprints
  import opened VerilogSequential
  import opened VerilogScheduling
  import opened VerilogCycle
  import opened VerilogModel
  import opened VerilogGenerated
  import Runtime = VerilogRuntime

  const CLOCK: nat := 0
  const ENABLE: nat := 1
  const COUNT: nat := 2

  function Increment(): Statement {
    Assign(Nonblocking, Whole(COUNT), Binary(Add, Read(COUNT, 4), Literal(1, 4), 4, false))
  }

  function Process(): Statement {
    If(Read(ENABLE, 1), [Increment()], [])
  }

  function Counter(): Design {
    Design([1, 1, 4], CLOCK, {CLOCK, ENABLE}, {COUNT}, {}, {}, {}, [], [], [], [Process()])
  }

  lemma ProcessSets()
    ensures Reads(Process()) == {ENABLE, COUNT} && Writes(Process()) == {COUNT}
    ensures WritesOf(Process(), false) == {} && WritesOf(Process(), true) == {COUNT}
  {
    assert [Increment()][..0] == [];
    assert ReadsAll([Increment()]) == Reads(Increment()) == {COUNT};
    assert WritesAll([Increment()]) == Writes(Increment()) == {COUNT};
    assert WritesOfAll([Increment()], false) == WritesOf(Increment(), false) == {};
    assert WritesOfAll([Increment()], true) == WritesOf(Increment(), true) == {COUNT};
  }

  lemma DesignSets()
    ensures ReadsAll([Process()]) == {ENABLE, COUNT} && WritesAll([Process()]) == {COUNT}
    ensures WritesOfAll([Process()], false) == {} && WritesOfAll([Process()], true) == {COUNT}
  {
    ProcessSets();
    assert [Process()][..0] == [];
  }

  lemma CounterAccepted()
    ensures Accepted(Counter())
  {
    DesignSets();
    ProcessSets();
    hide Reads;
    hide Writes;
    hide WritesOf;
  }

  lemma NothingSampled(design: Design)
    requires design.sampled == []
    ensures AllReads(design) == ReadsAll(design.combinational) + ReadsAll(design.sequential)
  {
    var readIds := ReadsAll(design.combinational) + ReadsAll(design.sequential);
    assert ReadSampledReads([], readIds) == {};
    assert readIds + {} == readIds;
    assert ReadPasses([], readIds, 1) == ReadPasses([], readIds + {}, 0) == readIds;
  }

  lemma CounterIds()
    ensures RegisterIds(Counter()) == {COUNT} && InputIds(Counter()) == {ENABLE}
    ensures RegistersInRange(Counter()) == {COUNT} && StartIds(Counter()) == StartKeys(Counter()) == {ENABLE, COUNT}
    ensures Registers(Counter()) == {COUNT}
  {
    var design := Counter();
    DesignSets();
    ProcessSets();
    assert ReadsAll([]) == {} && WritesAll([]) == {} && SampledIds([]) == {} && SampledReads([]) == {};
    NothingSampled(design);
    assert AllReads(design) == {ENABLE, COUNT} && AllWrites(design) == {COUNT};
    hide Reads;
    hide Writes;
    hide WritesOf;
    hide LiveIn;
    assert [Process()][..0] == [];
    assert Remembered([Process()]) <= {COUNT} by {
      assert Remembered([Process()]) == Remembered([]) + LiveIn(Process(), {}) * Writes(Process());
    }
    assert Registers(design) == {COUNT};
    assert RegisterIds(design) == {COUNT};
    assert InputIds(design) == {ENABLE};
    assert RegistersInRange(design) == {COUNT};
  }

  lemma CounterPhases()
    ensures OrderOfDesign(Counter()) == [] && GreedyOrder(Counter().combinational, StartKeys(Counter())) == ([], [])
    ensures KnownIds(Counter()) == CapturedKeys(Counter()) == SettledKeys(Counter()) == {ENABLE, COUNT}
  {
    CounterIds();
    assert GreedyOrder([], StartKeys(Counter())) == ([], []);
    assert WritesOfAll([], false) == {} && AssignedByAll([], {ENABLE, COUNT}) == {ENABLE, COUNT};
  }

  lemma CounterSound()
    ensures SoundStatement(Process(), [1, 1, 4])
    ensures AcceptsAll([Process()], {ENABLE, COUNT}, {COUNT}, [1, 1, 4]) && AcceptsAll([], {ENABLE, COUNT}, {}, [1, 1, 4])
  {
    var keys, pending, widths := {ENABLE, COUNT}, {COUNT}, [1, 1, 4];
    assert Pow2(4) == 16;
    assert Sound(Literal(1, 4)) && Sound(Increment().value);
    assert KeyWidths(keys, widths) == map[ENABLE := 1, COUNT := 4];
    assert AcceptsStatement(Increment(), keys, pending, widths);
    assert [Increment()][..0] == [] && [Process()][..0] == [];
    assert WritesOfAll([], false) == {} && WritesOfAll([], true) == {};
    assert keys + {} == keys && pending + {} == pending;
    assert AcceptsAll([Increment()], keys, pending, widths);
    assert AcceptsAll([], keys, pending, widths);
    assert AcceptsStatement(Process(), keys, pending, widths);
  }

  /** The conditions under which conversion succeeds and refines the simulator can be met
      together. */
  lemma CounterConverts()
    ensures Accepted(Counter()) && Compiles(Counter()) && Convertible(Counter())
  {
    var design := Counter();
    CounterAccepted();
    CounterIds();
    CounterPhases();
    CounterSound();
    DesignSets();
    hide Accepted;
    hide InputIds;
    hide RegisterIds;
    hide RegistersInRange;
    hide StartIds;
    hide StartKeys;
    hide KnownIds;
    hide GreedyOrder;
    hide AcceptsStatement;
    hide AcceptsAll;
    hide SoundStatement;
    hide Reads;
    hide Writes;
    hide AssignedByAll;
    hide WritesOfAll;
    hide ReadsAll;
    assert LiveInAll([], StartIds(design)) == {} && SampledIds([]) == {} && SampledReads([]) == {};
    assert WritesOf(Process(), false) == {} by { ProcessSets(); }
    assert PositiveWidths(design);
  }

  // ----- a latch: the condition sets the output, nothing clears it -----

  const CONDITION: nat := 1
  const LATCHED: nat := 2

  function SetLatched(): Statement {
    Assign(Blocking, Whole(LATCHED), Literal(1, 1))
  }

  function LatchLogic(): Statement {
    If(Read(CONDITION, 1), [SetLatched()], [])
  }

  function LatchDesign(): Design {
    Design([1, 1, 1], CLOCK, {CLOCK, CONDITION}, {LATCHED}, {}, {}, {}, [], [], [LatchLogic()], [])
  }

  lemma LatchSets()
    ensures Reads(LatchLogic()) == {CONDITION} && Writes(LatchLogic()) == {LATCHED}
    ensures WritesOf(LatchLogic(), false) == {LATCHED} && WritesOf(LatchLogic(), true) == {}
    ensures AssignedBy(LatchLogic(), {CONDITION}) == {CONDITION} && LiveIn(LatchLogic(), {CONDITION}) == {}
  {
    assert [SetLatched()][..0] == [];
    assert ReadsAll([SetLatched()]) == Reads(SetLatched()) == {};
    assert WritesAll([SetLatched()]) == Writes(SetLatched()) == {LATCHED};
    assert WritesOfAll([SetLatched()], false) == WritesOf(SetLatched(), false) == {LATCHED};
    assert WritesOfAll([SetLatched()], true) == WritesOf(SetLatched(), true) == {};
    assert AssignedByAll([], {CONDITION}) == {CONDITION};
    assert AssignedByAll([SetLatched()], {CONDITION}) == {CONDITION, LATCHED};
    assert LiveInAll([], {CONDITION}) == {} && LiveInAll([SetLatched()], {CONDITION}) == {};
  }

  lemma LatchDesignSets()
    ensures ReadsAll([LatchLogic()]) == {CONDITION} && WritesAll([LatchLogic()]) == {LATCHED}
    ensures WritesOfAll([LatchLogic()], false) == {LATCHED} && WritesOfAll([LatchLogic()], true) == {}
    ensures AssignedByAll([LatchLogic()], {CONDITION}) == {CONDITION} && LiveInAll([LatchLogic()], {CONDITION}) == {}
  {
    LatchSets();
    hide Reads;
    hide Writes;
    hide WritesOf;
    hide AssignedBy;
    hide LiveIn;
    assert [LatchLogic()][..0] == [];
  }

  lemma LatchAccepted()
    ensures Accepted(LatchDesign())
  {
    LatchDesignSets();
    hide Reads;
    hide Writes;
    hide WritesOf;
  }

  lemma LatchIds()
    ensures Registers(LatchDesign()) == RegisterIds(LatchDesign()) == RegistersInRange(LatchDesign()) == {}
    ensures InputIds(LatchDesign()) == StartIds(LatchDesign()) == StartKeys(LatchDesign()) == {CONDITION}
  {
    var design := LatchDesign();
    LatchDesignSets();
    hide Reads;
    hide Writes;
    hide WritesOf;
    assert ReadsAll([]) == {} && WritesAll([]) == {} && SampledIds([]) == {} && SampledReads([]) == {};
    assert WritesOfAll([], true) == {} && WritesOfAll([], false) == {} && Remembered([]) == {};
    NothingSampled(design);
    assert AllReads(design) == {CONDITION} && AllWrites(design) == {LATCHED};
    assert RegisterIds(design) == {};
    assert InputIds(design) == {CONDITION};
  }

  lemma LatchOrder()
    ensures OrderOfDesign(LatchDesign()) == [LatchLogic()]
    ensures GreedyOrder(LatchDesign().combinational, StartKeys(LatchDesign())) == ([LatchLogic()], [])
  {
    LatchIds();
    LatchSets();
    hide InputIds;
    hide RegisterIds;
    hide Reads;
    hide Writes;
    var pending := [LatchLogic()];
    assert FirstReady(pending, {CONDITION}) == Some(0);
    assert Without(pending, 0) == [];
    assert GreedyOrder([], {CONDITION} + {LATCHED}) == ([], []);
  }

  lemma LatchPhases()
    ensures KnownIds(LatchDesign()) == {CONDITION}
    ensures SettledKeys(LatchDesign()) == CapturedKeys(LatchDesign()) == {CONDITION, LATCHED}
    ensures LATCHED in ExposedIds(LatchDesign())
  {
    LatchIds();
    LatchOrder();
    LatchDesignSets();
    hide InputIds;
    hide RegisterIds;
    hide RegistersInRange;
    hide StartIds;
    hide StartKeys;
    hide GreedyOrder;
    hide OrderOfDesign;
    hide Reads;
    hide Writes;
    hide WritesOf;
    hide AssignedBy;
    hide WritesOfAll;
    hide AssignedByAll;
    assert SampledIds([]) == {} && WritesAll([]) == {};
  }

  lemma LatchSound()
    ensures SoundStatement(LatchLogic(), [1, 1, 1]) && AcceptsAll([LatchLogic()], {CONDITION}, {}, [1, 1, 1])
  {
    var keys, widths := {CONDITION}, [1, 1, 1];
    assert Pow2(1) == 2;
    assert Sound(Literal(1, 1));
    assert KeyWidths(keys, widths) == map[CONDITION := 1];
    assert AcceptsStatement(SetLatched(), keys, {}, widths);
    assert [SetLatched()][..0] == [] && [LatchLogic()][..0] == [];
    assert WritesOfAll([], false) == {} && WritesOfAll([], true) == {};
    assert keys + {} == keys;
    assert AcceptsAll([SetLatched()], keys, {}, widths) && AcceptsAll([], keys, {}, widths);
    assert AcceptsStatement(LatchLogic(), keys, {}, widths);
  }

  /** The latch converts, and reads nothing that a path leaves unassigned. */
  lemma LatchConverts()
    ensures Accepted(LatchDesign()) && Compiles(LatchDesign()) && Convertible(LatchDesign())
  {
    var design := LatchDesign();
    LatchAccepted();
    LatchIds();
    LatchOrder();
    LatchPhases();
    LatchSound();
    LatchDesignSets();
    hide Accepted;
    hide InputIds;
    hide RegisterIds;
    hide RegistersInRange;
    hide StartIds;
    hide StartKeys;
    hide KnownIds;
    hide GreedyOrder;
    hide OrderOfDesign;
    hide SettledKeys;
    hide CapturedKeys;
    hide AcceptsStatement;
    hide SoundStatement;
    hide Reads;
    hide Writes;
    hide AssignedByAll;
    hide LiveInAll;
    assert WritesOfAll([], true) == {} && WritesOfAll([], false) == {} && ReadsAll([]) == {};
    assert SampledIds([]) == {} && SampledReads([]) == {};
    assert AcceptsAll([], CapturedKeys(design), {}, design.widths);
  }

  /** What setting the latch does to a state. */
  lemma SetLatchedRuns(env: Store)
    requires Shaped(env, LatchDesign().widths)
    ensures Execute(SetLatched(), State(env, env)) == Some(State(env[LATCHED := [true]], env))
  {
    assert FromInt(1, 1) == [true];
    assert ValueOf(Literal(1, 1), env) == Some([true]);
    assert Locate(Whole(LATCHED), env).Some? && Locate(Whole(LATCHED), env).value.root == LATCHED;
    assert Runtime.Resized([true], 1, false) == [true];
  }

  /** The simulator's `eval` of the latch: a set condition gives one, a clear one keeps. */
  lemma LatchEvaluates(values: Store, given: Store)
    requires Shaped(values, LatchDesign().widths) && Shaped(given, LatchDesign().widths)
    ensures
      var env := values[CONDITION := given[CONDITION]];
      Evaluated(LatchDesign(), OrderOfDesign(LatchDesign()), values, given) ==
        Some(if given[CONDITION] == [true] then env[LATCHED := [true]] else env)
  {
    var design := LatchDesign();
    LatchIds();
    LatchOrder();
    hide InputIds;
    hide OrderOfDesign;
    var env := Applied(values, given, InputIds(design));
    assert env == values[CONDITION := given[CONDITION]];
    var state := State(env, env);
    SetLatchedRuns(env);
    hide Execute;
    ExecuteOne(SetLatched(), state);
    ExecuteOne(LatchLogic(), state);
    LatchLogicRuns(state, given[CONDITION]);
    assert Captured([], env) == Some(env) && Captured([], env[LATCHED := [true]]) == Some(env[LATCHED := [true]]);
  }

  lemma ExecuteOne(statement: Statement, state: State)
    ensures ExecuteAll([statement], state) == Execute(statement, state)
  {
    assert [statement][..0] == [];
    assert ExecuteAll([], state) == Some(state);
  }

  lemma LatchLogicRuns(state: State, condition: Bits)
    requires |state.env| == 3 && |condition| == 1 && state.env[CONDITION] == condition
    ensures Execute(LatchLogic(), state) ==
      if condition == [true] then ExecuteAll([SetLatched()], state) else Some(state)
  {
    assert ValueOf(Read(CONDITION, 1), state.env) == Some(condition);
    assert Runtime.Truthy(condition) <==> condition[0];
    assert condition == [condition[0]];
    assert ExecuteAll([], state) == Some(state);
  }

  /** The condition is high in the first cycle and low in the second. */
  ghost predicate Pulse(inputs: nat -> Store) {
    && (forall t: nat :: Shaped(inputs(t), LatchDesign().widths))
    && inputs(0)[CONDITION] == [true] && inputs(1)[CONDITION] == [false]
  }

  /** A tick of the latch keeps what `eval` saw. */
  lemma LatchTicks(values: Store, given: Store)
    requires Shaped(values, LatchDesign().widths) && Shaped(given, LatchDesign().widths)
    ensures Tick(LatchDesign(), OrderOfDesign(LatchDesign()), values, given) ==
      Evaluated(LatchDesign(), OrderOfDesign(LatchDesign()), values, given)
  {
    LatchEvaluates(values, given);
    hide OrderOfDesign;
    var env := Evaluated(LatchDesign(), OrderOfDesign(LatchDesign()), values, given).value;
    hide Evaluated;
    assert WritesOfAll([], true) == {};
    assert ExecuteAll([], State(env, env)) == Some(State(env, env));
    assert Commit(State(env, env), {}) == env;
  }

  lemma PulseKept(states: nat -> Store, inputs: nat -> Store)
    requires Simulation(LatchDesign(), states, inputs) && Pulse(inputs)
    ensures Shaped(states(1), LatchDesign().widths) && states(1)[LATCHED] == [true]
    ensures SimulationStep(LatchDesign(), states(1), inputs(1), states(2))
  {
    assert SimulationStep(LatchDesign(), states(0), inputs(0), states(1));
    assert SimulationStep(LatchDesign(), states(1), inputs(1), states(2));
    hide OrderOfDesign;
    hide Tick;
    hide Evaluated;
    hide TickInRange;
    LatchTicks(states(0), inputs(0));
    LatchEvaluates(states(0), inputs(0));
  }

  lemma LatchSchedules()
    ensures SchedulesAlike(LatchDesign()) && DesignInside(LatchDesign())
  {
    LatchIds();
    LatchOrder();
    LatchDesignSets();
    hide InputIds;
    hide RegisterIds;
    hide GreedyOrder;
    hide OrderOfDesign;
    hide WritesAll;
    hide StartIds;
    hide StartKeys;
    assert AlwaysInside(Whole(LATCHED), LatchDesign().widths);
    ScheduledAlike(LatchDesign());
  }

  /** In the second cycle of a pulse the generated simulator still shows the one that it
      kept, and the state machine shows zero. */
  lemma LatchDiffers(machine: Machine, model: Model, trace: Trace, states: nat -> Store, inputs: nat -> Store)
    requires CycleClears(LatchDesign(), machine.variables, model) && Run(machine, trace)
    requires GeneratedRun(LatchDesign(), states, inputs) && Pulse(inputs)
    requires Agrees(trace(1), model.inputs, inputs(1), InputIds(LatchDesign()))
    ensures LATCHED in model.observed && BitsOf(trace(1), model.observed[LATCHED]) == [false]
    ensures
      var shown := Evaluated(LatchDesign(), SimulatorOrder(LatchDesign()), states(1), inputs(1));
      shown.Some? && |shown.value| == 3 && shown.value[LATCHED] == [true]
  {
    var design := LatchDesign();
    LatchConverts();
    LatchPhases();
    LatchSchedules();
    assert SimulatorOrder(design) == OrderOfDesign(design);
    hide *;
    GeneratedIsSimulation(design, states, inputs);
    PulseKept(states, inputs);
    SecondCycle(machine, model, trace, states, inputs);
    LatchShows(states(1), inputs(1));
    ClearingIsInvisible(design, states(1), inputs(1));
    ClearedShows(design, machine.variables, model, trace(1), trace(2), states(1), inputs(1));
    ShownAgrees(trace(1), model.observed,
      Evaluated(design, OrderOfDesign(design), Cleared(design, states(1)), inputs(1)).value, ExposedIds(design), LATCHED);
  }

  lemma SecondCycle(machine: Machine, model: Model, trace: Trace, states: nat -> Store, inputs: nat -> Store)
    requires Run(machine, trace) && Pulse(inputs)
    requires SimulationStep(LatchDesign(), states(1), inputs(1), states(2))
    requires Agrees(trace(1), model.inputs, inputs(1), InputIds(LatchDesign()))
    ensures Settled(machine.variables, trace(1)) && Steps(machine.variables, trace(1), trace(2))
    ensures CycleStart(LatchDesign(), model, trace(1), states(1), inputs(1)) && inputs(1)[CONDITION] == [false]
    ensures |inputs(1)| == |states(1)| && Shaped(inputs(1), LatchDesign().widths)
    ensures TickInRange(LatchDesign(), OrderOfDesign(LatchDesign()), states(1), inputs(1))
    ensures Tick(LatchDesign(), OrderOfDesign(LatchDesign()), states(1), inputs(1)).Some?
  {
    LatchIds();
    assert Cycle(machine.variables, trace, 1);
    hide Settled;
    hide Steps;
    hide OrderOfDesign;
    hide TickInRange;
    hide Tick;
    hide InputIds;
    hide RegisterIds;
  }

  lemma ShownAgrees(s: Assignment, observed: Environment, store: Store, ids: set<nat>, id: nat)
    requires Agrees(s, observed, store, ids) && id in ids
    ensures id in observed && id < |store| && BitsOf(s, observed[id]) == store[id]
  {
  }

  /** With a one kept and a low condition, the simulator shows the one and a cleared cycle
      shows zero. */
  lemma LatchShows(values: Store, given: Store)
    requires Shaped(values, LatchDesign().widths) && Shaped(given, LatchDesign().widths)
    requires values[LATCHED] == [true] && given[CONDITION] == [false]
    ensures
      var ordered := OrderOfDesign(LatchDesign());
      var kept := Evaluated(LatchDesign(), ordered, values, given);
      var cleared := Evaluated(LatchDesign(), ordered, Cleared(LatchDesign(), values), given);
      && kept.Some? && |kept.value| == 3 && kept.value[LATCHED] == [true]
      && cleared.Some? && |cleared.value| == 3 && cleared.value[LATCHED] == [false]
  {
    LatchClears(values);
    hide Evaluated;
    hide OrderOfDesign;
    hide Cleared;
    LatchEvaluates(values, given);
    LatchEvaluates(Cleared(LatchDesign(), values), given);
  }

  lemma LatchClears(values: Store)
    requires Shaped(values, LatchDesign().widths)
    ensures Shaped(Cleared(LatchDesign(), values), LatchDesign().widths)
    ensures Cleared(LatchDesign(), values)[LATCHED] == [false]
  {
    LatchIds();
    hide RegisterIds;
    assert Zeros(1) == [false];
  }
}
