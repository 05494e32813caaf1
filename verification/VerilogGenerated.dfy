/** Whole designs against the generated simulator itself: in the order in which it schedules
    combinational logic, and for designs whose parts cannot leave what they are taken from,
    without any condition on the run. */
module VerilogGenerated {
  import opened Words
  import opened Fsm
  import opened WordStorage
  import opened VerilogAst
  import opened VerilogSimulator
  import opened VerilogExpressions
  import opened VerilogConvert
  import opened VerilogFootprints
  import opened VerilogSequential
  import opened VerilogScheduling
  import opened VerilogCycle
  import opened VerilogModel
  import opened VerilogAssembly
  import Simulator

  // ----- the simulator's schedule -----

  /** The combinational statements in the order in which the simulator runs them: it starts
      from what none of them drives. */
  function SimulatorOrder(design: Design): seq<Statement> {
    GreedyOrder(design.combinational, VerilogScheduling.Undriven(design.combinational, |design.widths|)).0
  }

  /** The simulator finds no loop, and schedules as the conversion does. */
  predicate SchedulesAlike(design: Design) {
    GreedyOrder(design.combinational, VerilogScheduling.Undriven(design.combinational, |design.widths|)) ==
      (OrderOfDesign(design), [])
  }

  /** No combinational statement drives an input or a register. */
  predicate StartsUndriven(design: Design) {
    StartIds(design) <= VerilogScheduling.Undriven(design.combinational, |design.widths|)
  }

  lemma ScheduledAlike(design: Design)
    requires StartsUndriven(design) && GreedyOrder(design.combinational, StartIds(design)).1 == []
    ensures SchedulesAlike(design)
  {
    SameSchedule(design);
  }

  // ----- the simulator's runs -----

  ghost predicate GeneratedStep(design: Design, values: Store, given: Store, next: Store) {
    && Shaped(values, design.widths) && Shaped(given, design.widths)
    && Tick(design, SimulatorOrder(design), values, given) == Some(next)
  }

  /** Each cycle applies its inputs and ticks without panicking. */
  ghost predicate GeneratedRun(design: Design, states: nat -> Store, inputs: nat -> Store) {
    forall t: nat :: GeneratedStep(design, states(t), inputs(t), states(t + 1))
  }

  /** The same from inputs and registers alone, in the conversion's order. */
  ghost predicate ForgetfulStep(design: Design, values: Store, given: Store, next: Store) {
    && Shaped(values, design.widths) && Shaped(given, design.widths)
    && Tick(design, OrderOfDesign(design), Cleared(design, values), given) == Some(next)
  }

  ghost predicate ForgetfulRun(design: Design, states: nat -> Store, inputs: nat -> Store) {
    forall t: nat :: ForgetfulStep(design, states(t), inputs(t), states(t + 1))
  }

  /** No part of the design can leave what it is taken from, other than out of its variable. */
  predicate DesignInside(design: Design) {
    && (forall i :: 0 <= i < |design.combinational| ==> StatementInside(design.combinational[i], design.widths))
    && forall i :: 0 <= i < |design.sequential| ==> StatementInside(design.sequential[i], design.widths)
  }

  lemma OrderInside(design: Design, available: set<nat>)
    requires DesignInside(design)
    ensures forall i :: 0 <= i < |GreedyOrder(design.combinational, available).0| ==>
      StatementInside(GreedyOrder(design.combinational, available).0[i], design.widths)
  {
    hide GreedyOrder;
    hide StatementInside;
    GreedyOrderIsPermutation(design.combinational, available);
    var (ordered, stuck) := GreedyOrder(design.combinational, available);
    forall i | 0 <= i < |ordered|
      ensures StatementInside(ordered[i], design.widths)
    {
      assert ordered[i] in multiset(ordered);
      assert ordered[i] in multiset(design.combinational);
    }
  }

  /** A design whose parts stay inside stays in range in every cycle, whatever its state. */
  lemma InsideTicks(design: Design, values: Store, given: Store)
    requires DesignInside(design) && |given| == |values|
    ensures TickInRange(design, OrderOfDesign(design), values, given)
  {
    OrderInside(design, StartIds(design));
    hide StatementInside;
    hide StartIds;
    hide GreedyOrder;
    hide AllStayInRange;
    hide Evaluated;
    var env := Applied(values, given, InputIds(design));
    InsideStaysInRangeAll(OrderOfDesign(design), State(env, env), design.widths);
    if Evaluated(design, OrderOfDesign(design), values, given).Some? {
      var before := Evaluated(design, OrderOfDesign(design), values, given).value;
      InsideStaysInRangeAll(design.sequential, State(before, before), design.widths);
    }
  }

  /** Every run of the generated simulator is then one that the conversion is compared with. */
  lemma GeneratedIsSimulation(design: Design, states: nat -> Store, inputs: nat -> Store)
    requires SchedulesAlike(design) && DesignInside(design) && GeneratedRun(design, states, inputs)
    ensures Simulation(design, states, inputs)
  {
    forall t: nat
      ensures SimulationStep(design, states(t), inputs(t), states(t + 1))
    {
      assert GeneratedStep(design, states(t), inputs(t), states(t + 1));
      hide DesignInside;
      hide Tick;
      hide TickInRange;
      hide OrderOfDesign;
      InsideTicks(design, states(t), inputs(t));
    }
  }

  lemma ForgetfulIsSimulation(design: Design, states: nat -> Store, inputs: nat -> Store)
    requires DesignInside(design) && ForgetfulRun(design, states, inputs)
    ensures ClearedSimulation(design, states, inputs)
  {
    forall t: nat
      ensures |states(t)| == |inputs(t)| && ClearedStep(design, states(t), inputs(t), states(t + 1))
    {
      assert ForgetfulStep(design, states(t), inputs(t), states(t + 1));
      hide DesignInside;
      hide Tick;
      hide TickInRange;
      hide OrderOfDesign;
      InsideTicks(design, Cleared(design, states(t)), inputs(t));
    }
  }

  // ----- what the conversion promises of it -----

  /** Registers hold what the generated simulator stores, in every cycle, and an exposed
      variable shows what it shows exactly when the path taken assigns it or it keeps a
      zero. */
  lemma GeneratedRunShows(design: Design, machine: Machine, model: Model, trace: Trace, states: nat -> Store,
    inputs: nat -> Store, t: nat, id: nat)
    requires Convertible(design) && Accepted(design) && CycleClears(design, machine.variables, model)
    requires SchedulesAlike(design) && DesignInside(design)
    requires Run(machine, trace) && GeneratedRun(design, states, inputs)
    requires forall u: nat :: Agrees(trace(u), model.inputs, inputs(u), InputIds(design))
    requires Agrees(trace(0), model.registers, states(0), RegisterIds(design))
    ensures Agrees(trace(t), model.registers, states(t), RegisterIds(design))
    ensures |states(t)| == |inputs(t)| && Evaluated(design, SimulatorOrder(design), states(t), inputs(t)).Some?
    ensures id in ExposedIds(design) ==>
      var eval := Evaluated(design, SimulatorOrder(design), states(t), inputs(t)).value;
      && id in model.observed && id < |states(t)| && id < |eval|
      && (BitsOf(trace(t), model.observed[id]) == eval[id] <==>
            (Skipped(design, states(t), inputs(t), id) ==> states(t)[id] == Zeros(|states(t)[id]|)))
  {
    GeneratedIsSimulation(design, states, inputs);
    assert SimulatorOrder(design) == OrderOfDesign(design);
    hide *;
    ClearsRefines(design, machine.variables, model);
    RunRefines(design, machine, model, trace, states, inputs, t);
    StepsEvaluate(design, states(t), inputs(t), states(t + 1));
    if id in ExposedIds(design) {
      RunShows(design, machine, model, trace, states, inputs, t, id);
    }
  }

  /** What one cycle of the generated simulator shows. */
  ghost predicate GeneratedShows(design: Design, properties: seq<Property>, m: Machine, trace: Trace,
    states: nat -> Store, inputs: nat -> Store) {
    forall t: nat :: GeneratedShown(design, properties, states(t), inputs(t), Observe(m, trace(t)))
  }

  ghost predicate GeneratedShown(design: Design, properties: seq<Property>, values: Store, given: Store, o: Observation) {
    && |values| == |given| && Evaluated(design, SimulatorOrder(design), values, given).Some?
    && o == DesignObservation(design, properties, Evaluated(design, SimulatorOrder(design), values, given).value)
  }

  ghost predicate ShowsAsGenerated(design: Design, properties: seq<Property>, a: Assembly, m: Machine, trace: Trace,
    states: nat -> Store, inputs: nat -> Store)
    requires WordsKnown(a)
  {
    && Run(m, trace) && FollowsInputs(design, a, trace, states, inputs)
    && GeneratedShows(design, properties, m, trace, states, inputs)
  }

  lemma ShownAsGenerated(design: Design, properties: seq<Property>, a: Assembly, m: Machine, trace: Trace,
    states: nat -> Store, inputs: nat -> Store)
    requires SchedulesAlike(design) && WordsKnown(a)
    requires ShowsAsSimulated(design, properties, a, m, trace, states, inputs)
    ensures ShowsAsGenerated(design, properties, a, m, trace, states, inputs)
  {
    hide Run;
    hide FollowsInputs;
    hide Evaluated;
    hide Observe;
    hide DesignObservation;
    hide OrderOfDesign;
    forall t: nat
      ensures GeneratedShown(design, properties, states(t), inputs(t), Observe(m, trace(t)))
    {
      assert Shown(design, properties, states(t), inputs(t), Observe(m, trace(t)));
    }
  }

  /** Every run of the generated simulator has a run of the assembled machine with the same
      inputs, outputs and properties in every cycle. All conditions are on the design. */
  lemma GeneratedHasRun(design: Design, properties: seq<Property>, a: Assembly, m: Machine, states: nat -> Store,
    inputs: nat -> Store)
    requires Assembled(design, properties, a, m) && Convertible(design)
    requires SchedulesAlike(design) && DesignInside(design) && ShownIds(design, properties) <= ObservedIds(design)
    requires GeneratedRun(design, states, inputs)
    requires StartsReset(RegisterIds(design), design.widths, HistoryResets(design), states(0))
    ensures WordsKnown(a)
    ensures exists trace :: ShowsAsGenerated(design, properties, a, m, trace, states, inputs)
  {
    hide *;
    GeneratedIsSimulation(design, states, inputs);
    SimulationHasRun(design, properties, a, m, states, inputs);
    var trace :| ShowsAsSimulated(design, properties, a, m, trace, states, inputs);
    ShownAsGenerated(design, properties, a, m, trace, states, inputs);
  }

  /** The same for runs that forget everything but registers: no condition on what is read. */
  lemma ForgetfulHasRun(design: Design, properties: seq<Property>, a: Assembly, m: Machine, states: nat -> Store,
    inputs: nat -> Store)
    requires Assembled(design, properties, a, m) && SoundDesign(design)
    requires DesignInside(design) && ShownIds(design, properties) <= ExposedIds(design)
    requires ForgetfulRun(design, states, inputs)
    requires StartsReset(RegisterIds(design), design.widths, HistoryResets(design), states(0))
    ensures WordsKnown(a)
    ensures exists trace :: ShowsAsCleared(design, properties, a, m, trace, states, inputs)
  {
    hide *;
    ForgetfulIsSimulation(design, states, inputs);
    ClearedSimulationHasRun(design, properties, a, m, states, inputs);
  }

  /** ... and with reset applied: a run of the generated simulator that begins with a reset
      cycle is shown from the cycle after it on. */
  ghost predicate GeneratedShowsLater(design: Design, properties: seq<Property>, n: Machine, trace: Trace,
    states: nat -> Store, inputs: nat -> Store) {
    Run(n, trace) &&
    forall t: nat :: GeneratedShown(design, properties, states(t + 1), inputs(t + 1), Observe(n, trace(t)))
  }

  lemma GeneratedResetHasRun(design: Design, properties: seq<Property>, reset: nat, asserted: bool, b: ResetAssembly,
    n: Machine, states: nat -> Store, inputs: nat -> Store)
    requires ResetAssembled(design, properties, reset, asserted, b, n) && Convertible(design)
    requires Simulator.NoFallback(b.m, Simulator.AfterReset(b.m, b.tied, asserted))
    requires SchedulesAlike(design) && DesignInside(design) && ShownIds(design, properties) <= ObservedIds(design)
    requires GeneratedRun(design, states, inputs) && ResetInputs(reset, asserted, inputs) && reset in InputIds(design)
    requires StartsReset(RegisterIds(design), design.widths, HistoryResets(design), states(0))
    ensures exists trace :: GeneratedShowsLater(design, properties, n, trace, states, inputs)
  {
    hide *;
    GeneratedIsSimulation(design, states, inputs);
    ResetSimulationHasRun(design, properties, reset, asserted, b, n, states, inputs);
    var trace :| ShowsLater(design, properties, n, trace, states, inputs);
    LaterAsGenerated(design, properties, n, trace, states, inputs);
  }

  lemma LaterAsGenerated(design: Design, properties: seq<Property>, n: Machine, trace: Trace, states: nat -> Store,
    inputs: nat -> Store)
    requires SchedulesAlike(design) && ShowsLater(design, properties, n, trace, states, inputs)
    ensures GeneratedShowsLater(design, properties, n, trace, states, inputs)
  {
    hide Run;
    hide Evaluated;
    hide Observe;
    hide DesignObservation;
    hide OrderOfDesign;
    forall t: nat
      ensures GeneratedShown(design, properties, states(t + 1), inputs(t + 1), Observe(n, trace(t)))
    {
      assert Shown(design, properties, states(t + 1), inputs(t + 1), Observe(n, trace(t)));
    }
  }
}
