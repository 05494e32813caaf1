/** The whole conversion of a design to a state machine, cycle by cycle and over whole
    runs, against the generated simulator. */
module VerilogModel {
  import opened Words
  import opened Fsm
  import opened Ops
  import opened WordStorage
  import opened VerilogAst
  import opened VerilogAnalysis
  import opened VerilogSimulator
  import opened VerilogExpressions
  import opened VerilogConvert
  import opened VerilogInterference
  import opened VerilogSequential
  import opened VerilogScheduling
  import opened VerilogCycle

  // ----- words of fresh variables -----

  lemma PlacedValid(variables: seq<Driver>, environment: Environment, starts: map<nat, nat>, widths: seq<nat>,
    driver: Driver)
    requires Placed(variables, environment, starts, widths, driver)
    ensures Valid(environment, widths, |variables|)
  {
  }

  /** History registers start low, the others anywhere. */
  function HistoryResets(design: Design): map<nat, seq<Option<bool>>> {
    map id | id in design.history && id < |design.widths| :: seq(design.widths[id], _ => Some(false))
  }

  // ----- combinational logic -----

  /** Runs each statement once all its reads have values. */
  method ExecuteCombinational(converter: Converter, statements: seq<Statement>, environment: Environment)
    returns (r: Option<Environment>)
    requires Ordered(converter.fsm.variables) && WritesOfAll(statements, true) == {}
    requires Valid(environment, converter.widths, |converter.fsm.variables|)
    requires Valid(converter.pending, converter.widths, |converter.fsm.variables|)
    modifies converter`pending, converter.fsm`variables
    ensures Extended(old(converter.fsm.variables), converter.fsm.variables)
    ensures r.Some? ==> Valid(r.value, converter.widths, |converter.fsm.variables|)
    ensures r.Some? ==> Valid(converter.pending, converter.widths, |converter.fsm.variables|)
    ensures r.Some? ==> converter.pending.Keys == old(converter.pending.Keys)
    ensures r.Some? <==>
      && GreedyOrder(statements, environment.Keys).1 == []
      && AcceptsAll(GreedyOrder(statements, environment.Keys).0, environment.Keys, old(converter.pending).Keys,
           converter.widths)
    ensures r.Some? ==>
      r.value.Keys == environment.Keys + WritesOfAll(GreedyOrder(statements, environment.Keys).0, false)
    ensures r.Some? && Claimable(Block(GreedyOrder(statements, environment.Keys).0), {}, converter.widths) ==>
      Refines(converter.fsm.variables, Block(GreedyOrder(statements, environment.Keys).0), environment,
        old(converter.pending), {}, converter.widths, r.value, converter.pending)
  {
    hide Refines;
    hide Settled;
    hide Claimable;
    hide Valid;
    hide Reads;
    hide Writes;
    hide WritesOf;
    hide WritesOfAll;
    hide GreedyOrder;
    hide FirstReady;
    hide Without;
    hide AcceptsAll;
    hide AcceptsStatement;
    ghost var ordered := GreedyOrder(statements, environment.Keys).0;
    ghost var stuck := GreedyOrder(statements, environment.Keys).1;
    ghost var start, pending0 := converter.fsm.variables, converter.pending;
    ghost var done := 0;
    var left := statements;
    var current := environment;
    EmptyRefines(converter.fsm.variables, environment, converter.pending, {}, converter.widths);
    NothingExecuted(environment.Keys, converter.pending.Keys, converter.widths);
    assert ordered[..0] == [];
    while left != []
      invariant done <= |ordered|
      invariant ordered[done..] == GreedyOrder(left, current.Keys).0 && stuck == GreedyOrder(left, current.Keys).1
      invariant WritesOfAll(left, true) == {}
      invariant Extended(start, converter.fsm.variables)
      invariant Valid(current, converter.widths, |converter.fsm.variables|)
      invariant Valid(converter.pending, converter.widths, |converter.fsm.variables|)
      invariant converter.pending.Keys == pending0.Keys && WritesOfAll(ordered[..done], true) == {}
      invariant current.Keys == environment.Keys + WritesOfAll(ordered[..done], false)
      invariant AcceptsAll(ordered[..done], environment.Keys, pending0.Keys, converter.widths)
      invariant Claimable(Block(ordered), {}, converter.widths) ==>
        Refines(converter.fsm.variables, Block(ordered[..done]), environment, pending0, {}, converter.widths, current,
          converter.pending)
      decreases |left|
    {
      var index := FirstReady(left, current.Keys);
      if index == None {
        StuckOrder(left, current.Keys);
        return None;
      }
      var statement := left[index.value];
      ghost var before, current0, pending1 := converter.fsm.variables, current, converter.pending;
      GreedyStep(left, current.Keys, index.value);
      NextOfRest(ordered, done, statement, GreedyOrder(Without(left, index.value), current.Keys + Writes(statement)).0);
      DeferredSplit(left, index.value);
      AcceptsMore(ordered, done, environment.Keys, pending0.Keys, converter.widths);
      WritesMore(ordered, done);
      assert pending0.Keys + {} == pending0.Keys;
      var next := converter.ExecuteStatement(statement, current, {});
      if next == None {
        return None;
      }
      GrowsTwice(start, before, converter.fsm.variables);
      if Claimable(Block(ordered), {}, converter.widths) {
        ClaimableAt(ordered, done, {}, converter.widths);
        RefinesGrows(before, converter.fsm.variables, Block(ordered[..done]), environment, pending0, {},
          converter.widths, current0, pending1);
        SequenceRefines(converter.fsm.variables, ordered, done, environment, pending0, {}, converter.widths, current0,
          pending1, next.value, converter.pending);
      }
      OnlyBlocking(statement);
      current := next.value;
      left := Without(left, index.value);
      done := done + 1;
    }
    NothingLeft(current.Keys);
    assert ordered[..done] == ordered;
    return Some(current);
  }

  lemma GreedyStep(left: seq<Statement>, available: set<nat>, i: nat)
    requires FirstReady(left, available) == Some(i)
    ensures GreedyOrder(left, available) ==
      ([left[i]] + GreedyOrder(Without(left, i), available + Writes(left[i])).0,
       GreedyOrder(Without(left, i), available + Writes(left[i])).1)
    ensures |Without(left, i)| < |left|
  {
    hide Reads;
    hide Writes;
  }

  lemma NothingLeft(available: set<nat>)
    ensures GreedyOrder([], available) == ([], [])
  {
  }

  lemma NextOfRest<T>(list: seq<T>, done: nat, item: T, rest: seq<T>)
    requires done <= |list| && list[done..] == [item] + rest
    ensures done < |list| && list[done] == item && list[done + 1..] == rest
  {
    assert list[done..][0] == item;
    assert list[done..][1..] == rest;
  }

  lemma OnlyBlocking(statement: Statement)
    requires WritesOf(statement, true) == {}
    ensures Writes(statement) == WritesOf(statement, false)
  {
    WritesSplit(statement);
  }

  lemma {:induction false} DeferredAppend(a: seq<Statement>, b: seq<Statement>)
    ensures WritesOfAll(a + b, true) == WritesOfAll(a, true) + WritesOfAll(b, true)
  {
    hide WritesOf;
    if b == [] {
      assert a + b == a;
    } else {
      assert (a + b)[..|a + b| - 1] == a + b[..|b| - 1];
      DeferredAppend(a, b[..|b| - 1]);
    }
  }

  lemma DeferredSplit(list: seq<Statement>, i: nat)
    requires i < |list| && WritesOfAll(list, true) == {}
    ensures WritesOf(list[i], true) == {} && WritesOfAll(Without(list, i), true) == {}
  {
    hide WritesOf;
    hide WritesOfAll;
    var head, tail := list[..i], list[i + 1..];
    assert list == (head + [list[i]]) + tail;
    DeferredAppend(head + [list[i]], tail);
    DeferredAppend(head, tail);
    DeferredSnoc(head, list[i]);
  }

  lemma DeferredSnoc(head: seq<Statement>, last: Statement)
    ensures WritesOfAll(head + [last], true) == WritesOfAll(head, true) + WritesOf(last, true)
  {
    hide WritesOf;
    assert (head + [last])[..|head|] == head;
  }

  // ----- sampling -----

  /** The converted captures denote the simulator's. */
  ghost predicate CapturesRefine(variables: seq<Driver>, sampled: seq<Sampled>, environment: Environment,
    widths: seq<nat>, captured: Environment) {
    forall s, store :: Settled(variables, s) && Denotes(s, environment, store, widths) && Shaped(store, widths) ==>
      CaptureOutcome(s, sampled, store, captured, widths)
  }

  ghost predicate CaptureOutcome(s: Assignment, sampled: seq<Sampled>, store: Store, captured: Environment,
    widths: seq<nat>) {
    Captured(sampled, store).Some? ==>
      && Denotes(s, captured, Captured(sampled, store).value, widths)
      && Shaped(Captured(sampled, store).value, widths)
  }

  /** A sampled expression converts to a word of its variable's width. */
  predicate CaptureAccepted(sampled: Sampled, evaluated: map<nat, nat>, widths: seq<nat>) {
    && Accepts(sampled.value, evaluated) && sampled.id < |widths|
    && WordWidth(sampled.value, evaluated) == widths[sampled.id]
  }

  /** All sampled expressions are converted in the environment before the edge. */
  method CaptureSampled(fsm: FSM, sampled: seq<Sampled>, environment: Environment, widths: seq<nat>)
    returns (r: Option<Environment>)
    requires Ordered(fsm.variables) && Valid(environment, widths, |fsm.variables|)
    modifies fsm`variables
    ensures Extended(old(fsm.variables), fsm.variables)
    ensures r.Some? ==> Valid(r.value, widths, |fsm.variables|)
    ensures r.Some? <==> forall i :: 0 <= i < |sampled| ==> CaptureAccepted(sampled[i], WidthsOf(environment), widths)
    ensures r.Some? ==> r.value.Keys == environment.Keys + SampledIds(sampled)
    ensures r.Some? && SamplesSound(sampled) ==> CapturesRefine(fsm.variables, sampled, environment, widths, r.value)
  {
    hide Settled;
    hide Computes;
    hide Sound;
    hide CapturesRefine;
    hide Accepts;
    hide WordWidth;
    hide WidthsOf;
    ghost var start := fsm.variables;
    var current := environment;
    NothingCaptured(fsm.variables, environment, widths);
    for i := 0 to |sampled|
      invariant Extended(start, fsm.variables) && Valid(current, widths, |fsm.variables|)
      invariant current.Keys == environment.Keys + SampledIds(sampled[..i])
      invariant forall k :: 0 <= k < i ==> CaptureAccepted(sampled[k], WidthsOf(environment), widths)
      invariant SamplesSound(sampled) ==> CapturesRefine(fsm.variables, sampled[..i], environment, widths, current)
    {
      ghost var before := fsm.variables;
      KnownLater(environment, |start|, |fsm.variables|);
      var value := ConvertExpression(fsm, sampled[i].value, environment);
      var id := sampled[i].id;
      // The expression has the type of its variable.
      if value == None || id >= |widths| || |value.value| != widths[id] {
        return None;
      }
      GrowsTwice(start, before, fsm.variables);
      KnownLater(current, |before|, |fsm.variables|);
      assert sampled[..i + 1][..i] == sampled[..i];
      if SamplesSound(sampled) {
        WidthsAreDeclared(environment, widths, |start|);
        AcceptedReads(sampled[i].value, WidthsOf(environment));
        ConditionPresent(sampled[i].value, environment, widths, |start|);
        CaptureOneMore(before, fsm.variables, sampled, i, environment, widths, current, value.value);
      }
      current := current[id := value.value];
    }
    assert sampled[..|sampled|] == sampled;
    return Some(current);
  }

  lemma NothingCaptured(variables: seq<Driver>, environment: Environment, widths: seq<nat>)
    ensures CapturesRefine(variables, [], environment, widths, environment)
  {
    hide Settled;
  }

  lemma CaptureNext(s: Assignment, sampled: seq<Sampled>, i: nat, store: Store, widths: seq<nat>,
    captured: Environment, value: seq<Value>)
    requires i < |sampled| && SamplesSound(sampled)
    requires CaptureOutcome(s, sampled[..i], store, captured, widths)
    requires ValueOf(sampled[i].value, store).Some? ==> ValueOf(sampled[i].value, store).value == BitsOf(s, value)
    ensures CaptureOutcome(s, sampled[..i + 1], store, captured[sampled[i].id := value], widths)
  {
    hide Sound;
    hide ValueOf;
    hide ExpressionReads;
    hide SampledReads;
    var longer := sampled[..i + 1];
    assert longer[..i] == sampled[..i];
    if Captured(longer, store).Some? {
      var earlier := Captured(sampled[..i], store).value;
      SampledPrefix(sampled, i);
      forall id | id in ExpressionReads(sampled[i].value) && id < |store|
        ensures earlier[id] == store[id]
      {
        CaptureFrame(sampled[..i], store, id);
      }
      ValueAgrees(sampled[i].value, earlier, store);
    }
  }

  lemma CaptureOneMore(before: seq<Driver>, variables: seq<Driver>, sampled: seq<Sampled>, i: nat,
    environment: Environment, widths: seq<nat>, captured: Environment, value: seq<Value>)
    requires i < |sampled| && SamplesSound(sampled) && Grows(before, variables)
    requires Present(ExpressionReads(sampled[i].value), environment, widths)
    requires CapturesRefine(before, sampled[..i], environment, widths, captured)
    requires Computes(variables, sampled[i].value, environment, value)
    ensures CapturesRefine(variables, sampled[..i + 1], environment, widths, captured[sampled[i].id := value])
  {
    hide Settled;
    hide Computes;
    hide Sound;
    hide ValueOf;
    hide CaptureOutcome;
    hide Shaped;
    hide Agrees;
    hide Denotes;
    hide Present;
    forall s, store | Settled(variables, s) && Denotes(s, environment, store, widths) && Shaped(store, widths)
      ensures CaptureOutcome(s, sampled[..i + 1], store, captured[sampled[i].id := value], widths)
    {
      assert CaptureOutcome(s, sampled[..i], store, captured, widths);
      PresentAgree(s, environment, store, widths, ExpressionReads(sampled[i].value));
      ComputedValue(variables, sampled[i].value, environment, value, s, store);
      CaptureNext(s, sampled, i, store, widths, captured, value);
    }
  }

  lemma ComputedValue(variables: seq<Driver>, e: Expression, environment: Environment, values: seq<Value>,
    s: Assignment, store: Store)
    requires Computes(variables, e, environment, values) && Settled(variables, s)
    requires Agrees(s, environment, store, ExpressionReads(e))
    ensures ValueOf(e, store).Some? ==> ValueOf(e, store).value == BitsOf(s, values)
  {
    hide ValueOf;
    assert Matches(ValueOf(e, store), BitsOf(s, values));
  }

  // ----- the conversion -----

  /** The values of inputs, registers and everything else in one cycle. */
  datatype Model = Model(inputs: Environment, registers: Environment, observed: Environment)

  /** The machine's cycle is the simulator's, started from inputs and registers with
      everything else zero: registers in the next cycle hold what it stores, and every
      exposed variable what its `eval` sees. */
  ghost predicate CycleClears(design: Design, variables: seq<Driver>, model: Model) {
    forall s, s', values, given ::
      Settled(variables, s) && Steps(variables, s, s') && CycleStart(design, model, s, values, given) ==>
        CycleOutcome(design, model, s, s', Cleared(design, values), given, ExposedIds(design))
  }

  /** Registers in the next cycle hold what the simulator stores, and every variable that
      is known and written by no clocked process holds what `eval` sees. */
  ghost predicate CycleRefines(design: Design, variables: seq<Driver>, model: Model) {
    forall s, s', values, given ::
      Settled(variables, s) && Steps(variables, s, s') && CycleStart(design, model, s, values, given) ==>
        CycleOutcome(design, model, s, s', values, given, ObservedIds(design))
  }

  ghost predicate CycleStart(design: Design, model: Model, s: Assignment, values: Store, given: Store) {
    && Shaped(values, design.widths) && Shaped(given, design.widths)
    && Agrees(s, model.registers, values, RegisterIds(design))
    && Agrees(s, model.inputs, given, InputIds(design))
  }

  ghost predicate CycleOutcome(design: Design, model: Model, s: Assignment, s': Assignment, values: Store, given: Store,
    shown: set<nat>)
    requires |given| == |values|
  {
    var ordered := OrderOfDesign(design);
    TickInRange(design, ordered, values, given) && Tick(design, ordered, values, given).Some? ==>
      && Shaped(Tick(design, ordered, values, given).value, design.widths)
      && Agrees(s', model.registers, Tick(design, ordered, values, given).value, RegisterIds(design))
      && Agrees(s, model.observed, Evaluated(design, ordered, values, given).value, shown)
  }

  /** A block of whole assignments of zero to variables that start at zero. */
  predicate StaticInitializer(statement: Statement, history: set<nat>) {
    statement.Block? && forall i :: 0 <= i < |statement.statements| ==>
      && statement.statements[i].Assign? && statement.statements[i].target.Whole?
      && statement.statements[i].value.Literal? && statement.statements[i].value.value == 0
      && statement.statements[i].target.id in history
  }

  /** What the conversion leaves behind before latches are added. */
  ghost predicate PhasesRefine(design: Design, variables: seq<Driver>, start: Environment, pending0: Environment,
    settled: Environment, pending1: Environment, captured: Environment, final: Environment, pending: Environment) {
    && Refines(variables, Block(OrderOfDesign(design)), start, pending0, {}, design.widths, settled, pending1)
    && CapturesRefine(variables, design.sampled, settled, design.widths, captured)
    && Refines(variables, Block(design.sequential), captured, DeferredStart(design, captured),
         WritesOfAll(design.sequential, true), design.widths, final, pending)
  }

  /** Nonblocking variables start each edge with their current values. */
  function DeferredStart(design: Design, captured: Environment): Environment {
    map id | id in WritesOfAll(design.sequential, true) && id in captured :: captured[id]
  }

  /** The next value of a register. */
  function NextValue(final: Environment, pending: Environment, id: nat): seq<Value> {
    if id in pending then pending[id] else if id in final then final[id] else []
  }

  /** Inputs and registers denote the cleared start of the cycle. */
  lemma StartDenotes(design: Design, model: Model, start: Environment, s: Assignment, values: Store, given: Store)
    requires CycleStart(design, model, s, values, given) && InputIds(design) !! RegisterIds(design)
    requires start == model.inputs + model.registers
    requires model.inputs.Keys == InputIds(design) && model.registers.Keys == RegisterIds(design)
    ensures |given| == |values|
    ensures Denotes(s, start, StartState(design, Cleared(design, values), given).env, design.widths)
    ensures Shaped(StartState(design, Cleared(design, values), given).env, design.widths)
  {
    hide InputIds;
    hide RegisterIds;
    var env := StartState(design, Cleared(design, values), given).env;
    forall id | 0 <= id < |design.widths|
      ensures |env[id]| == design.widths[id] && env[id] == BitsOf(s, WordIn(start, id, design.widths[id]))
    {
      if id in InputIds(design) {
        assert id in model.inputs;
      } else if id in RegisterIds(design) {
        assert id in model.registers;
      } else {
        ZeroWord(s, design.widths[id]);
      }
    }
  }

  lemma ZeroWord(s: Assignment, width: nat)
    ensures BitsOf(s, ConstantWord(Zeros(width))) == Zeros(width)
  {
  }

  lemma CombinationalPhase(design: Design, variables: seq<Driver>, start: Environment, pending0: Environment,
    settled: Environment, pending1: Environment, model: Model, s: Assignment, values: Store, given: Store)
    requires Settled(variables, s) && CycleStart(design, model, s, values, given)
    requires start == model.inputs + model.registers && InputIds(design) !! RegisterIds(design)
    requires model.inputs.Keys == InputIds(design) && model.registers.Keys == RegisterIds(design)
    requires Refines(variables, Block(OrderOfDesign(design)), start, pending0, {}, design.widths, settled, pending1)
    requires |given| == |values| && TickInRange(design, OrderOfDesign(design), Cleared(design, values), given)
    ensures
      var after := ExecuteAll(OrderOfDesign(design), StartState(design, Cleared(design, values), given));
      after.Some? ==> Shaped(after.value.env, design.widths) && Denotes(s, settled, after.value.env, design.widths)
  {
    StartDenotes(design, model, start, s, values, given);
    hide Settled;
    hide ExecuteAll;
    hide AllStayInRange;
    hide OrderOfDesign;
    hide RegisterIds;
    hide InputIds;
    hide Evaluated;
    hide Denotes;
    hide Cleared;
    var state := StartState(design, Cleared(design, values), given);
    assert Simulates(s, start, pending0, state, {}, design.widths);
    assert OutcomeSimulated(s, Block(OrderOfDesign(design)), state, settled, pending1, {}, design.widths);
  }

  lemma SequentialPhase(design: Design, variables: seq<Driver>, captured: Environment, final: Environment,
    pending: Environment, s: Assignment, env: Store)
    requires Settled(variables, s) && Shaped(env, design.widths) && Denotes(s, captured, env, design.widths)
    requires Present(WritesOfAll(design.sequential, true), captured, design.widths)
    requires Refines(variables, Block(design.sequential), captured, DeferredStart(design, captured),
      WritesOfAll(design.sequential, true), design.widths, final, pending)
    requires AllStayInRange(design.sequential, State(env, env), design.widths)
    ensures
      var after := ExecuteAll(design.sequential, State(env, env));
      after.Some? ==>
        && Shaped(after.value.env, design.widths) && Shaped(after.value.pending, design.widths)
        && Denotes(s, final, after.value.env, design.widths)
        && Agrees(s, pending, after.value.pending, WritesOfAll(design.sequential, true))
  {
    hide Settled;
    hide ExecuteAll;
    hide AllStayInRange;
    hide WritesOfAll;
    hide Denotes;
    var state := State(env, env);
    var deferred := WritesOfAll(design.sequential, true);
    PresentAgree(s, captured, env, design.widths, deferred);
    assert Agrees(s, DeferredStart(design, captured), env, deferred);
    assert Simulates(s, captured, DeferredStart(design, captured), state, deferred, design.widths);
    assert OutcomeSimulated(s, Block(design.sequential), state, final, pending, deferred, design.widths);
  }

  /** The registers step to what the simulator commits. */
  lemma RegistersCommit(design: Design, model: Model, before: seq<Driver>, after: seq<Driver>, starts: map<nat, nat>,
    next: Environment, final: Environment, pending: Environment, s: Assignment, s': Assignment, state: State)
    requires Placed(before, model.registers, starts, design.widths, Undriven)
    requires Latched(before, after, model.registers, starts, design.widths, next, HistoryResets(design), |design.widths|)
    requires Steps(after, s, s') && model.registers.Keys == RegisterIds(design)
    requires forall id :: id in model.registers ==> id in next && next[id] == NextValue(final, pending, id)
    requires pending.Keys == WritesOfAll(design.sequential, true)
    requires RegisterIds(design) <= WritesOfAll(design.sequential, true) + final.Keys
    requires Shaped(state.env, design.widths) && Shaped(state.pending, design.widths)
    requires forall id :: id in RegisterIds(design) ==> id < |design.widths|
    requires Denotes(s, final, state.env, design.widths)
    requires Agrees(s, pending, state.pending, WritesOfAll(design.sequential, true))
    ensures Shaped(Commit(state, WritesOfAll(design.sequential, true)), design.widths)
    ensures Agrees(s', model.registers, Commit(state, WritesOfAll(design.sequential, true)), RegisterIds(design))
  {
    hide Placed;
    hide Latched;
    hide Steps;
    hide RegisterIds;
    hide WritesOfAll;
    forall id | id in RegisterIds(design)
      ensures id < |state.env| && BitsOf(s', model.registers[id]) == Commit(state, WritesOfAll(design.sequential, true))[id]
    {
      LatchesStep(before, after, model.registers, starts, design.widths, next, HistoryResets(design), s, s', id);
    }
  }

  /** One cycle: everything the conversion established, put together. */
  lemma CycleHolds(design: Design, model: Model, before: seq<Driver>, after: seq<Driver>, starts: map<nat, nat>,
    next: Environment, start: Environment, pending0: Environment, settled: Environment, pending1: Environment,
    captured: Environment, final: Environment, pending: Environment, s: Assignment, s': Assignment, values: Store,
    given: Store)
    requires Accepted(design) && SoundDesign(design)
    requires Settled(before, s) && Steps(after, s, s') && CycleStart(design, model, s, values, given)
    requires model.inputs.Keys == InputIds(design) && model.registers.Keys == RegisterIds(design)
    requires start == model.inputs + model.registers
    requires PhasesRefine(design, before, start, pending0, settled, pending1, captured, final, pending)
    requires Placed(before, model.registers, starts, design.widths, Undriven)
    requires Latched(before, after, model.registers, starts, design.widths, next, HistoryResets(design), |design.widths|)
    requires forall id :: id in model.registers ==> id in next && next[id] == NextValue(final, pending, id)
    requires pending.Keys == WritesOfAll(design.sequential, true)
    requires RegisterIds(design) <= WritesOfAll(design.sequential, true) + final.Keys
    requires Present(WritesOfAll(design.sequential, true), captured, design.widths)
    requires Present(ExposedIds(design), final, design.widths) && ExposedInfo(design, model, final)
    ensures |given| == |values|
    ensures CycleOutcome(design, model, s, s', Cleared(design, values), given, ExposedIds(design))
  {
    hide Accepted;
    hide SoundDesign;
    hide Settled;
    hide ExecuteAll;
    hide AllStayInRange;
    hide OrderOfDesign;
    hide RegisterIds;
    hide InputIds;
    hide Registers;
    hide Captured;
    hide Refines;
    hide CapturesRefine;
    hide Placed;
    hide Latched;
    hide Steps;
    hide WritesOfAll;
    hide Agrees;
    hide Shaped;
    hide Denotes;
    hide Cleared;
    hide Present;
    hide ExposedIds;
    var ordered := OrderOfDesign(design);
    ShapesEqual(values, given, design.widths);
    var cleared := Cleared(design, values);
    if TickInRange(design, ordered, cleared, given) && Tick(design, ordered, cleared, given).Some? {
      RegistersAreSound(design);
      CombinationalPhase(design, before, start, pending0, settled, pending1, model, s, values, given);
      var combinational := ExecuteAll(ordered, StartState(design, cleared, given)).value;
      CapturePhase(design, before, settled, captured, s, combinational.env);
      var evaluated := Evaluated(design, ordered, cleared, given).value;
      SequentialPhase(design, before, captured, final, pending, s, evaluated);
      var state := ExecuteAll(design.sequential, State(evaluated, evaluated)).value;
      RegistersCommit(design, model, before, after, starts, next, final, pending, s, s', state);
      ExposedAgrees(design, model, final, s, values, given, evaluated, state);
    }
  }

  /** Exposed are the final values, and registers from the start of the cycle. */
  ghost predicate ExposedInfo(design: Design, model: Model, final: Environment) {
    model.observed == final + map id | id in Registers(design) && id in model.registers :: model.registers[id]
  }

  lemma RegistersAreSound(design: Design)
    requires SoundDesign(design)
    ensures InputIds(design) !! RegisterIds(design)
    ensures forall id :: id in RegisterIds(design) ==> id < |design.widths|
  {
  }

  lemma ShapesEqual(values: Store, given: Store, widths: seq<nat>)
    requires Shaped(values, widths) && Shaped(given, widths)
    ensures |given| == |values| == |widths|
  {
  }

  lemma CapturePhase(design: Design, variables: seq<Driver>, settled: Environment, captured: Environment,
    s: Assignment, store: Store)
    requires Settled(variables, s) && Shaped(store, design.widths) && Denotes(s, settled, store, design.widths)
    requires CapturesRefine(variables, design.sampled, settled, design.widths, captured)
    ensures Captured(design.sampled, store).Some? ==>
      && Shaped(Captured(design.sampled, store).value, design.widths)
      && Denotes(s, captured, Captured(design.sampled, store).value, design.widths)
  {
    hide Settled;
    hide Captured;
    hide Denotes;
    assert CaptureOutcome(s, design.sampled, store, captured, design.widths);
  }

  lemma ExposedAgrees(design: Design, model: Model, final: Environment, s: Assignment, values: Store, given: Store,
    evaluated: Store, state: State)
    requires Accepted(design) && SoundDesign(design) && model.registers.Keys == RegisterIds(design)
    requires CycleStart(design, model, s, values, given) && |given| == |values|
    requires Evaluated(design, OrderOfDesign(design), Cleared(design, values), given) == Some(evaluated)
    requires Shaped(evaluated, design.widths)
    requires ExecuteAll(design.sequential, State(evaluated, evaluated)) == Some(state)
    requires Denotes(s, final, state.env, design.widths)
    requires Present(ExposedIds(design), final, design.widths) && ExposedInfo(design, model, final)
    ensures Agrees(s, model.observed, evaluated, ExposedIds(design))
  {
    hide Accepted;
    hide SoundDesign;
    hide ExecuteAll;
    hide OrderOfDesign;
    hide RegisterIds;
    hide InputIds;
    hide Registers;
    hide WritesAll;
    hide Evaluated;
    hide CapturedKeys;
    RegistersAreWritten(design);
    ExecuteAllKeepsShape(design.sequential, State(evaluated, evaluated));
    RegistersAreSound(design);
    forall id | id in ExposedIds(design)
      ensures id in model.observed && id < |evaluated| && BitsOf(s, model.observed[id]) == evaluated[id]
    {
      if id in Registers(design) {
        assert id in RegisterIds(design) by { RegistersAreStored(design); }
        RegistersInEval(design, Cleared(design, values), given, id);
        assert Cleared(design, values)[id] == values[id];
      } else {
        WritesFrameAll(design.sequential, State(evaluated, evaluated), id);
        assert state.env[id] == evaluated[id];
      }
    }
  }

  lemma RegistersAreStored(design: Design)
    ensures Registers(design) <= RegisterIds(design)
  {
  }

  lemma StartValid(inputs: Environment, registers: Environment, widths: seq<nat>, before: nat, after: nat)
    requires Valid(inputs, widths, before) && Valid(registers, widths, after) && before <= after
    ensures Valid(inputs + registers, widths, after) && Valid(map[], widths, after)
  {
  }

  lemma DeferredValid(design: Design, captured: Environment, limit: nat)
    requires Valid(captured, design.widths, limit)
    requires WritesOfAll(design.sequential, true) <= captured.Keys
    ensures Valid(DeferredStart(design, captured), design.widths, limit)
    ensures DeferredStart(design, captured).Keys == WritesOfAll(design.sequential, true)
  {
    hide WritesOfAll;
  }

  lemma {:induction false} GreedyOrderDeferred(pending: seq<Statement>, available: set<nat>)
    requires WritesOfAll(pending, true) == {}
    ensures WritesOfAll(GreedyOrder(pending, available).0, true) == {}
    decreases |pending|
  {
    hide Reads;
    hide Writes;
    hide WritesOf;
    match FirstReady(pending, available) {
      case None =>
      case Some(i) =>
        DeferredSplit(pending, i);
        var rest := GreedyOrder(Without(pending, i), available + Writes(pending[i])).0;
        GreedyOrderDeferred(Without(pending, i), available + Writes(pending[i]));
        DeferredAppend([pending[i]], rest);
        DeferredSnoc([], pending[i]);
        assert [] + [pending[i]] == [pending[i]];
    }
  }

  /** A sound design can be claimed phase by phase. */
  lemma DesignClaimable(design: Design)
    requires Accepted(design) && SoundDesign(design)
    ensures Claimable(Block(OrderOfDesign(design)), {}, design.widths)
    ensures Claimable(Block(design.sequential), WritesOfAll(design.sequential, true), design.widths)
    ensures SamplesSound(design.sampled)
  {
    hide WritesOfAll;
    hide StartIds;
    hide SamplesSound;
    hide Sound;
    hide SoundStatement;
    GreedyOrderDeferred(design.combinational, StartIds(design));
    SoundBlock(OrderOfDesign(design), design.widths);
    SoundBlock(design.sequential, design.widths);
  }

  lemma SoundBlock(statements: seq<Statement>, widths: seq<nat>)
    requires forall i :: 0 <= i < |statements| ==> SoundStatement(statements[i], widths)
    ensures SoundStatement(Block(statements), widths)
  {
  }

  lemma PhasesGrow(design: Design, v3: seq<Driver>, v4: seq<Driver>, v5: seq<Driver>, start: Environment,
    pending0: Environment, settled: Environment, pending1: Environment, captured: Environment, final: Environment,
    pending: Environment)
    requires Grows(v3, v4) && Grows(v4, v5)
    requires Refines(v3, Block(OrderOfDesign(design)), start, pending0, {}, design.widths, settled, pending1)
    requires CapturesRefine(v4, design.sampled, settled, design.widths, captured)
    requires Refines(v5, Block(design.sequential), captured, DeferredStart(design, captured),
      WritesOfAll(design.sequential, true), design.widths, final, pending)
    ensures PhasesRefine(design, v5, start, pending0, settled, pending1, captured, final, pending)
  {
    hide Settled;
    hide Refines;
    hide CaptureOutcome;
    hide Denotes;
    hide OrderOfDesign;
    GrowsTwice(v3, v4, v5);
    RefinesGrows(v3, v5, Block(OrderOfDesign(design)), start, pending0, {}, design.widths, settled, pending1);
  }

  lemma AllCyclesHold(design: Design, model: Model, before: seq<Driver>, after: seq<Driver>, starts: map<nat, nat>,
    next: Environment, start: Environment, pending0: Environment, settled: Environment, pending1: Environment,
    captured: Environment, final: Environment, pending: Environment)
    requires Accepted(design) && SoundDesign(design)
    requires model.inputs.Keys == InputIds(design) && model.registers.Keys == RegisterIds(design)
    requires start == model.inputs + model.registers
    requires PhasesRefine(design, before, start, pending0, settled, pending1, captured, final, pending)
    requires Placed(before, model.registers, starts, design.widths, Undriven)
    requires Latched(before, after, model.registers, starts, design.widths, next, HistoryResets(design), |design.widths|)
    requires forall id :: id in model.registers ==> id in next && next[id] == NextValue(final, pending, id)
    requires pending.Keys == WritesOfAll(design.sequential, true)
    requires RegisterIds(design) <= WritesOfAll(design.sequential, true) + final.Keys
    requires Present(WritesOfAll(design.sequential, true), captured, design.widths)
    requires Present(ExposedIds(design), final, design.widths) && ExposedInfo(design, model, final)
    ensures CycleClears(design, after, model)
  {
    hide Accepted;
    hide SoundDesign;
    hide Settled;
    hide Steps;
    hide Agrees;
    hide Shaped;
    hide CycleOutcome;
    hide PhasesRefine;
    hide Placed;
    hide Latched;
    hide InputIds;
    hide RegisterIds;
    hide Registers;
    hide WritesOfAll;
    hide ExposedIds;
    hide ExposedInfo;
    hide Cleared;
    hide Present;
    forall s, s', values, given |
      Settled(after, s) && Steps(after, s, s') && CycleStart(design, model, s, values, given)
      ensures |given| == |values|
        && CycleOutcome(design, model, s, s', Cleared(design, values), given, ExposedIds(design))
    {
      SettledBefore(before, after, model, starts, design, next, s);
      CycleHolds(design, model, before, after, starts, next, start, pending0, settled, pending1, captured, final,
        pending, s, s', values, given);
    }
  }

  lemma SettledBefore(before: seq<Driver>, after: seq<Driver>, model: Model, starts: map<nat, nat>, design: Design,
    next: Environment, s: Assignment)
    requires Placed(before, model.registers, starts, design.widths, Undriven)
    requires Latched(before, after, model.registers, starts, design.widths, next, HistoryResets(design), |design.widths|)
    requires Settled(after, s)
    ensures Settled(before, s)
  {
    hide Settled;
    LatchedSettled(before, after, model.registers, starts, design.widths, next, HistoryResets(design), |design.widths|);
  }

  // ----- which designs convert -----

  /** What the conversion demands of a design, phase by phase. */
  ghost predicate Compiles(design: Design) {
    var (ordered, stuck) := GreedyOrder(design.combinational, StartKeys(design));
    var deferred := WritesOfAll(design.sequential, true);
    && Accepted(design)
    && (forall i :: 0 <= i < |design.initial| ==> StaticInitializer(design.initial[i], design.history))
    && stuck == [] && AcceptsAll(ordered, StartKeys(design), {}, design.widths)
    && (forall i :: 0 <= i < |design.sampled| ==>
          CaptureAccepted(design.sampled[i], KeyWidths(SettledKeys(design), design.widths), design.widths))
    && deferred <= CapturedKeys(design)
    && AcceptsAll(design.sequential, CapturedKeys(design), deferred, design.widths)
    && RegistersInRange(design) <= deferred + CapturedKeys(design) + WritesOfAll(design.sequential, false)
  }

  /** Where a converted design keeps its inputs and registers: each in variables of its own,
      gates after them, and nothing undriven. */
  ghost predicate LaidOut(design: Design, variables: seq<Driver>, model: Model, inputStarts: map<nat, nat>,
    starts: map<nat, nat>) {
    && model.inputs.Keys == InputIds(design) && model.registers.Keys == RegistersInRange(design)
    && Placed(variables, model.inputs, inputStarts, design.widths, InputDriver)
    && RegistersAt(variables, model.registers, starts, design.widths, HistoryResets(design))
    && Complete(variables) && GatesTogether(variables) && Stored(variables, inputStarts, starts, design.widths)
    && Valid(model.observed, design.widths, |variables|)
  }

  /** Words for inputs and registers. */
  method CreateStart(fsm: FSM, design: Design)
    returns (inputs: Environment, registers: Environment, ghost inputStarts: map<nat, nat>, ghost starts: map<nat, nat>)
    requires fsm.variables == []
    modifies fsm`variables
    ensures Ordered(fsm.variables) && GateFree(fsm.variables) && Storing(fsm.variables, starts, design.widths)
    ensures Stored(fsm.variables, inputStarts, starts, design.widths)
    ensures inputs.Keys == InputIds(design) && registers.Keys == RegistersInRange(design)
    ensures Placed(fsm.variables, inputs, inputStarts, design.widths, InputDriver)
    ensures Placed(fsm.variables, registers, starts, design.widths, Undriven)
    ensures Valid(inputs + registers, design.widths, |fsm.variables|)
    ensures Valid(map[], design.widths, |fsm.variables|)
  {
    hide Settled;
    hide Placed;
    hide Valid;
    hide InputIds;
    hide RegistersInRange;
    hide Fills;
    hide Storing;
    hide Stored;
    hide GateFree;
    ResourceIds(design);
    inputs, inputStarts := CreateWords(fsm, InputIds(design), design.widths, true);
    ghost var v1 := fsm.variables;
    registers, starts := CreateWords(fsm, RegistersInRange(design), design.widths, false);
    PlacedValid(v1, inputs, inputStarts, design.widths, InputDriver);
    PlacedValid(fsm.variables, registers, starts, design.widths, Undriven);
    StartValid(inputs, registers, design.widths, |v1|, |fsm.variables|);
    PlacedLater(v1, fsm.variables, inputs, inputStarts, design.widths, InputDriver);
    MoreInputs([], v1, inputs, inputStarts, design.widths);
    RegistersStore(v1, fsm.variables, registers, starts, design.widths);
    StoringHasNoGates(v1, fsm.variables, registers, starts, design.widths);
    StartStored(v1, fsm.variables, inputStarts, starts, design.widths);
  }

  /** What the clocked processes leave: blocking and deferred values. */
  datatype Phases = Phases(final: Environment, pending: Environment)

  /** Combinational logic, samples, and clocked processes. */
  method ConvertPhases(fsm: FSM, design: Design, start: Environment)
    returns (r: Option<Phases>, ghost settled: Environment, ghost captured: Environment)
    requires Ordered(fsm.variables) && start.Keys == StartKeys(design) && Accepted(design)
    requires Valid(start, design.widths, |fsm.variables|) && Valid(map[], design.widths, |fsm.variables|)
    modifies fsm`variables
    ensures Extended(old(fsm.variables), fsm.variables)
    ensures r.Some? <==>
      && GreedyOrder(design.combinational, StartKeys(design)).1 == []
      && AcceptsAll(GreedyOrder(design.combinational, StartKeys(design)).0, StartKeys(design), {}, design.widths)
      && (forall i :: 0 <= i < |design.sampled| ==>
            CaptureAccepted(design.sampled[i], KeyWidths(SettledKeys(design), design.widths), design.widths))
      && WritesOfAll(design.sequential, true) <= CapturedKeys(design)
      && AcceptsAll(design.sequential, CapturedKeys(design), WritesOfAll(design.sequential, true), design.widths)
    ensures r.Some? ==>
      && Valid(r.value.final, design.widths, |fsm.variables|) && Valid(r.value.pending, design.widths, |fsm.variables|)
      && Valid(captured, design.widths, |fsm.variables|) && captured.Keys == CapturedKeys(design)
      && r.value.final.Keys == captured.Keys + WritesOfAll(design.sequential, false)
      && r.value.pending.Keys == WritesOfAll(design.sequential, true) <= captured.Keys
    ensures r.Some? && SoundDesign(design) && StartKeys(design) == StartIds(design) ==>
      PhasesRefine(design, fsm.variables, start, map[], settled, map[], captured, r.value.final, r.value.pending)
  {
    hide SoundDesign;
    hide Settled;
    hide Refines;
    hide CapturesRefine;
    hide PhasesRefine;
    hide Valid;
    hide WritesOfAll;
    hide GreedyOrder;
    hide Claimable;
    hide SampledIds;
    hide SamplesSound;
    hide DeferredStart;
    hide CaptureAccepted;
    hide KeyWidths;
    hide WidthsOf;
    hide AcceptsAll;
    hide Accepted;
    hide StartKeys;
    hide StartIds;
    hide SettledKeys;
    hide CapturedKeys;
    hide Ordered;
    ghost var v2 := fsm.variables;
    r, settled, captured := None, map[], map[];
    PhaseKeys(design);
    var converter := new Converter(fsm, design.widths);
    NoStrayDeferred(design);
    assert converter.pending.Keys == {};
    var executed := ExecuteCombinational(converter, design.combinational, start);
    if executed == None {
      return;
    }
    ghost var v3 := fsm.variables;
    settled := executed.value;
    assert converter.pending == map[];
    WidthsAreDeclared(settled, design.widths, |v3|);
    var sampled := CaptureSampled(fsm, design.sampled, executed.value, design.widths);
    if sampled == None || !(WritesOfAll(design.sequential, true) <= sampled.value.Keys) {
      return;
    }
    ghost var v4 := fsm.variables;
    captured := sampled.value;
    DeferredValid(design, captured, |v4|);
    DeferredKeys(design, captured);
    converter.pending := converter.pending + DeferredStart(design, sampled.value);
    assert converter.pending == DeferredStart(design, captured);
    var final := converter.ExecuteStatements(design.sequential, sampled.value, WritesOfAll(design.sequential, true));
    if final == None {
      return;
    }
    ghost var v5 := fsm.variables;
    GrowsTwice(v2, v3, v4);
    GrowsTwice(v2, v4, v5);
    StillValid(captured, captured, design.widths, |v4|, |v5|);
    if SoundDesign(design) && StartKeys(design) == StartIds(design) {
      DesignClaimable(design);
      PhasesGrow(design, v3, v4, v5, start, map[], settled, map[], captured, final.value, converter.pending);
    }
    r := Some(Phases(final.value, converter.pending));
  }

  /** Every register becomes a latch of its next value, and shows what it holds. */
  method StoreRegisters(fsm: FSM, design: Design, inputs: Environment, registers: Environment, final: Environment,
    pending: Environment, ghost inputStarts: map<nat, nat>, ghost starts: map<nat, nat>, ghost before: seq<Driver>)
    returns (model: Model, ghost next: Environment)
    requires Ordered(fsm.variables) && GateFree(before) && Grows(before, fsm.variables)
    requires Storing(fsm.variables, starts, design.widths) && Stored(before, inputStarts, starts, design.widths)
    requires inputs.Keys == InputIds(design) && registers.Keys == RegistersInRange(design)
    requires Placed(fsm.variables, inputs, inputStarts, design.widths, InputDriver)
    requires Placed(fsm.variables, registers, starts, design.widths, Undriven)
    requires Valid(final, design.widths, |fsm.variables|) && Valid(pending, design.widths, |fsm.variables|)
    requires registers.Keys <= pending.Keys + final.Keys
    modifies fsm`variables
    ensures Ordered(fsm.variables) && LaidOut(design, fsm.variables, model, inputStarts, starts)
    ensures registers.Keys == starts.Keys && forall id :: id in registers ==> id < |design.widths|
    ensures Latched(old(fsm.variables), fsm.variables, registers, starts, design.widths, next, HistoryResets(design),
      |design.widths|)
    ensures forall id :: id in registers ==> id in next && next[id] == NextValue(final, pending, id)
    ensures model == Model(inputs, registers, final + map id | id in Registers(design) && id in registers :: registers[id])
  {
    hide Settled;
    hide Placed;
    hide Latched;
    hide Valid;
    hide Registers;
    hide NextValue;
    hide InputIds;
    hide RegistersInRange;
    hide Ordered;
    hide Storing;
    hide Stored;
    hide GateFree;
    hide GatesTogether;
    hide Complete;
    hide LaidOut;
    hide RegistersAt;
    ghost var v5 := fsm.variables;
    var following: Environment := map id | id in registers :: NextValue(final, pending, id);
    next := following;
    NextWidths(final, pending, registers, design.widths, |v5|);
    var ok := AddLatches(fsm, registers, starts, design.widths, following, HistoryResets(design));
    assert ok;
    RegistersPlaced(v5, registers, starts, design.widths);
    LatchedSettled(v5, fsm.variables, registers, starts, design.widths, next, HistoryResets(design), |design.widths|);
    model := Model(inputs, registers, final + map id | id in Registers(design) && id in registers :: registers[id]);
    NextKnown(final, pending, registers, design.widths, |v5|);
    LatchesComplete(v5, fsm.variables, registers, starts, design.widths, next, HistoryResets(design));
    GatesStayTogether(before, v5, fsm.variables, registers, starts, design.widths, next, HistoryResets(design));
    LatchedRegisters(v5, fsm.variables, registers, starts, design.widths, next, HistoryResets(design));
    PlacedThroughLatches(v5, fsm.variables, registers, starts, design.widths, next, HistoryResets(design), inputs,
      inputStarts);
    StoredThroughLatches(before, v5, fsm.variables, registers, starts, design.widths, next, HistoryResets(design),
      inputStarts);
    ObservedValid(design, final, registers, starts, v5);
    SameLength(v5, fsm.variables, registers, starts, design.widths, next, HistoryResets(design));
    LaidOutFrom(design, fsm.variables, model, inputStarts, starts);
  }

  /** Creates inputs and registers, converts combinational logic, captures samples, runs
      the clocked processes and turns their outcome into latches. */
  method ConvertDesign(design: Design)
    returns (fsm: FSM, r: Option<Model>, ghost inputStarts: map<nat, nat>, ghost starts: map<nat, nat>)
    ensures fresh(fsm) && NothingShown(fsm.Contents())
    ensures r.Some? <==> Compiles(design)
    ensures r.Some? ==> Accepted(design) && Ordered(fsm.variables)
    ensures r.Some? ==> LaidOut(design, fsm.variables, r.value, inputStarts, starts)
    ensures r.Some? ==> r.value.observed.Keys == CapturedKeys(design) + WritesOfAll(design.sequential, false)
    ensures r.Some? && SoundDesign(design) ==> GreedyOrder(design.combinational, StartIds(design)).1 == []
    ensures r.Some? && SoundDesign(design) ==> CycleClears(design, fsm.variables, r.value)
    ensures r.Some? && Convertible(design) ==> CycleRefines(design, fsm.variables, r.value)
  {
    hide Convertible;
    hide SoundDesign;
    hide CycleClears;
    hide ExposedIds;
    hide Present;
    hide Settled;
    hide Refines;
    hide CapturesRefine;
    hide CycleRefines;
    hide PhasesRefine;
    hide Placed;
    hide Latched;
    hide Valid;
    hide Registers;
    hide RegisterIds;
    hide AllReads;
    hide AllWrites;
    hide WritesOfAll;
    hide GreedyOrder;
    hide Claimable;
    hide SampledIds;
    hide SamplesSound;
    hide StaticInitializer;
    hide DeferredStart;
    hide NextValue;
    hide InputIds;
    hide RegistersInRange;
    hide CaptureAccepted;
    hide KeyWidths;
    hide WidthsOf;
    hide AcceptsAll;
    hide Accepted;
    hide Compiles;
    hide StartKeys;
    hide SettledKeys;
    hide CapturedKeys;
    hide Ordered;
    hide Storing;
    hide Stored;
    hide GateFree;
    hide GatesTogether;
    hide Complete;
    hide LaidOut;
    hide RegistersAt;
    fsm := new FSM();
    r, inputStarts, starts := None, map[], map[];
    PhaseKeys(design);
    CompilesExactly(design);
    var info := Analyze(design);
    if info == None || exists i :: 0 <= i < |design.initial| && !StaticInitializer(design.initial[i], design.history) {
      return;
    }
    var inputs, registers;
    inputs, registers, inputStarts, starts := CreateStart(fsm, design);
    ghost var v2 := fsm.variables;
    var start: Environment := inputs + registers;
    var phases;
    ghost var settled, captured;
    phases, settled, captured := ConvertPhases(fsm, design, start);
    if phases == None || !(registers.Keys <= phases.value.pending.Keys + phases.value.final.Keys) {
      return;
    }
    ghost var v5 := fsm.variables;
    var final, pending := phases.value.final, phases.value.pending;
    GrowsIsPrefix(v2, v5);
    PlacedLater(v2, v5, inputs, inputStarts, design.widths, InputDriver);
    PlacedLater(v2, v5, registers, starts, design.widths, Undriven);
    StoringGrows(v2, v5, starts, design.widths);
    ghost var next;
    var model;
    model, next := StoreRegisters(fsm, design, inputs, registers, final, pending, inputStarts, starts, v2);
    if SoundDesign(design) {
      AllRegistersInRange(design);
      ExposedPresent(design, captured, final, |v5|);
      AllCyclesHold(design, model, v5, fsm.variables, starts, next, start, map[], settled, map[], captured, final,
        pending);
    }
    if Convertible(design) {
      ConvertibleIsSound(design);
      ClearsRefines(design, fsm.variables, model);
    }
    r := Some(model);
  }

  lemma PhaseKeys(design: Design)
    ensures StartKeys(design) == InputIds(design) + RegistersInRange(design)
    ensures StartIds(design) == InputIds(design) + RegisterIds(design)
    ensures SettledKeys(design) ==
      StartKeys(design) + WritesOfAll(GreedyOrder(design.combinational, StartKeys(design)).0, false)
    ensures CapturedKeys(design) == SettledKeys(design) + SampledIds(design.sampled)
  {
  }

  lemma CompilesExactly(design: Design)
    ensures Compiles(design) <==>
      && Accepted(design)
      && (forall i :: 0 <= i < |design.initial| ==> StaticInitializer(design.initial[i], design.history))
      && GreedyOrder(design.combinational, StartKeys(design)).1 == []
      && AcceptsAll(GreedyOrder(design.combinational, StartKeys(design)).0, StartKeys(design), {}, design.widths)
      && (forall i :: 0 <= i < |design.sampled| ==>
            CaptureAccepted(design.sampled[i], KeyWidths(SettledKeys(design), design.widths), design.widths))
      && WritesOfAll(design.sequential, true) <= CapturedKeys(design)
      && AcceptsAll(design.sequential, CapturedKeys(design), WritesOfAll(design.sequential, true), design.widths)
      && RegistersInRange(design) <=
         WritesOfAll(design.sequential, true) + CapturedKeys(design) + WritesOfAll(design.sequential, false)
  {
    hide Accepted;
    hide GreedyOrder;
    hide AcceptsAll;
    hide CaptureAccepted;
  }

  ghost predicate NothingShown(m: Machine) {
    m.outputs == [] && m.asserts == [] && m.assumes == [] && m.covers == []
  }

  lemma LaidOutFrom(design: Design, variables: seq<Driver>, model: Model, inputStarts: map<nat, nat>,
    starts: map<nat, nat>)
    requires model.inputs.Keys == InputIds(design) && model.registers.Keys == RegistersInRange(design)
    requires Placed(variables, model.inputs, inputStarts, design.widths, InputDriver)
    requires RegistersAt(variables, model.registers, starts, design.widths, HistoryResets(design))
    requires Complete(variables) && GatesTogether(variables) && Stored(variables, inputStarts, starts, design.widths)
    requires Valid(model.observed, design.widths, |variables|)
    ensures LaidOut(design, variables, model, inputStarts, starts)
  {
  }

  lemma SameLength(before: seq<Driver>, after: seq<Driver>, registers: Environment, starts: map<nat, nat>,
    widths: seq<nat>, next: Environment, resets: map<nat, seq<Option<bool>>>)
    requires registers.Keys == starts.Keys && forall id :: id in registers ==> id < |widths|
    requires Latched(before, after, registers, starts, widths, next, resets, |widths|)
    ensures |before| == |after|
  {
  }

  lemma NextKnown(final: Environment, pending: Environment, registers: Environment, widths: seq<nat>, limit: nat)
    requires Valid(final, widths, limit) && Valid(pending, widths, limit)
    ensures forall id :: id in registers ==> AllKnown(NextValue(final, pending, id), limit)
  {
  }

  lemma ObservedValid(design: Design, final: Environment, registers: Environment, starts: map<nat, nat>,
    variables: seq<Driver>)
    requires Valid(final, design.widths, |variables|)
    requires Placed(variables, registers, starts, design.widths, Undriven)
    ensures Valid(final + map id | id in Registers(design) && id in registers :: registers[id], design.widths, |variables|)
  {
    hide Registers;
    PlacedValid(variables, registers, starts, design.widths, Undriven);
  }

  lemma ResourceIds(design: Design)
    ensures forall id :: id in InputIds(design) || id in RegistersInRange(design) ==> id < |design.widths|
  {
  }

  lemma DeferredKeys(design: Design, captured: Environment)
    requires WritesOfAll(design.sequential, true) <= captured.Keys
    ensures DeferredStart(design, captured).Keys == WritesOfAll(design.sequential, true)
  {
  }

  lemma NextWidths(final: Environment, pending: Environment, registers: Environment, widths: seq<nat>, limit: nat)
    requires Valid(final, widths, limit) && Valid(pending, widths, limit)
    requires registers.Keys <= pending.Keys + final.Keys
    ensures forall id :: id in registers ==> id < |widths| && |NextValue(final, pending, id)| == widths[id]
  {
  }

  lemma NothingExecuted(keys: set<nat>, pending: set<nat>, widths: seq<nat>)
    ensures WritesOfAll([], false) == {} && WritesOfAll([], true) == {} && AcceptsAll([], keys, pending, widths)
  {
  }

  /** Nothing ready means everything left is stuck. */
  lemma StuckOrder(left: seq<Statement>, available: set<nat>)
    requires left != [] && FirstReady(left, available) == None
    ensures GreedyOrder(left, available).1 != []
  {
  }

  lemma WritesMore(statements: seq<Statement>, i: nat)
    requires i < |statements|
    ensures WritesOfAll(statements[..i + 1], false) == WritesOfAll(statements[..i], false) + WritesOf(statements[i], false)
    ensures WritesOfAll(statements[..i + 1], true) == WritesOfAll(statements[..i], true) + WritesOf(statements[i], true)
  {
    var longer := statements[..i + 1];
    assert longer[..i] == statements[..i] && longer[i] == statements[i];
  }

  lemma NoStrayDeferred(design: Design)
    requires Accepted(design)
    ensures WritesOfAll(design.combinational, true) == {}
  {
  }

  lemma RegistersPlaced(variables: seq<Driver>, registers: Environment, starts: map<nat, nat>, widths: seq<nat>)
    requires Placed(variables, registers, starts, widths, Undriven)
    ensures registers.Keys == starts.Keys && forall id :: id in registers ==> id < |widths|
  {
  }

  lemma ConvertibleIsSound(design: Design)
    requires Convertible(design)
    ensures SoundDesign(design)
  {
  }

  /** Everything exposed has a word. */
  lemma ExposedPresent(design: Design, captured: Environment, final: Environment, limit: nat)
    requires Valid(captured, design.widths, limit) && Valid(final, design.widths, limit)
    requires captured.Keys == CapturedKeys(design)
    requires final.Keys == captured.Keys + WritesOfAll(design.sequential, false)
    requires WritesOfAll(design.sequential, true) <= captured.Keys
    requires RegisterIds(design) <= WritesOfAll(design.sequential, true) + final.Keys
    ensures Present(WritesOfAll(design.sequential, true), captured, design.widths)
    ensures Present(ExposedIds(design), final, design.widths)
  {
    hide WritesOfAll;
    hide CapturedKeys;
    hide RegisterIds;
    RegistersAreStored(design);
  }

  /** Where no value is read that a path leaves unassigned, starting from registers only
      makes no difference to registers and known variables. */
  lemma ClearsRefines(design: Design, variables: seq<Driver>, model: Model)
    requires Accepted(design) && Convertible(design) && CycleClears(design, variables, model)
    ensures CycleRefines(design, variables, model)
  {
    hide Settled;
    hide Steps;
    hide CycleClears;
    hide CycleStart;
    hide CycleOutcome;
    hide Accepted;
    hide Convertible;
    forall s, s', values, given |
      Settled(variables, s) && Steps(variables, s, s') && CycleStart(design, model, s, values, given)
      ensures |given| == |values| && CycleOutcome(design, model, s, s', values, given, ObservedIds(design))
    {
      CycleKept(design, variables, model, s, s', values, given);
    }
  }

  lemma ClearedCycle(design: Design, variables: seq<Driver>, model: Model, s: Assignment, s': Assignment,
    values: Store, given: Store)
    requires CycleClears(design, variables, model)
    requires Settled(variables, s) && Steps(variables, s, s') && CycleStart(design, model, s, values, given)
    ensures |given| == |values| == |design.widths|
    ensures CycleOutcome(design, model, s, s', Cleared(design, values), given, ExposedIds(design))
  {
    hide Settled;
    hide Steps;
    hide CycleOutcome;
    hide Cleared;
    hide ExposedIds;
    hide RegisterIds;
    hide InputIds;
    hide Agrees;
  }

  lemma CycleKept(design: Design, variables: seq<Driver>, model: Model, s: Assignment, s': Assignment, values: Store,
    given: Store)
    requires Accepted(design) && Convertible(design) && CycleClears(design, variables, model)
    requires Settled(variables, s) && Steps(variables, s, s') && CycleStart(design, model, s, values, given)
    ensures |given| == |values| && CycleOutcome(design, model, s, s', values, given, ObservedIds(design))
  {
    ClearedCycle(design, variables, model, s, s', values, given);
    hide Settled;
    hide Steps;
    hide CycleClears;
    hide CycleStart;
    hide Accepted;
    hide Convertible;
    hide OrderOfDesign;
    hide TickInRange;
    hide Tick;
    hide Evaluated;
    hide Cleared;
    hide RegisterIds;
    hide ExposedIds;
    hide ObservedIds;
    hide KnownIds;
    hide Agrees;
    hide Shaped;
    hide AgreeOn;
    var ordered, cleared := OrderOfDesign(design), Cleared(design, values);
    ClearingIsInvisible(design, values, given);
    ConvertibleIsSound(design);
    ObservedIsExposed(design);
    if TickInRange(design, ordered, values, given) && Tick(design, ordered, values, given).Some? {
      TicksEvaluate(design, values, given);
      TicksEvaluate(design, cleared, given);
      RegistersAgreeToo(s', model.registers, Tick(design, ordered, values, given).value,
        Tick(design, ordered, cleared, given).value, RegisterIds(design), design.widths);
      ShownAgreeToo(s, model.observed, Evaluated(design, ordered, values, given).value,
        Evaluated(design, ordered, cleared, given).value, KnownIds(design), ExposedIds(design), ObservedIds(design));
    }
  }

  lemma TicksEvaluate(design: Design, values: Store, given: Store)
    requires |given| == |values| && Tick(design, OrderOfDesign(design), values, given).Some?
    ensures Evaluated(design, OrderOfDesign(design), values, given).Some?
  {
    hide OrderOfDesign;
    hide Evaluated;
    hide RunSequential;
  }

  lemma RegistersAgreeToo(s: Assignment, environment: Environment, a: Store, b: Store, ids: set<nat>, widths: seq<nat>)
    requires AgreeOn(a, b, ids) && Agrees(s, environment, b, ids) && Shaped(b, widths)
    ensures Agrees(s, environment, a, ids) && Shaped(a, widths)
  {
  }

  lemma ShownAgreeToo(s: Assignment, environment: Environment, a: Store, b: Store, known: set<nat>, ids: set<nat>,
    some: set<nat>)
    requires AgreeOn(a, b, known) && Agrees(s, environment, b, ids) && some <= ids && some <= known
    ensures Agrees(s, environment, a, some)
  {
  }

  lemma AllRegistersInRange(design: Design)
    requires SoundDesign(design)
    ensures RegistersInRange(design) == RegisterIds(design)
  {
  }

  /** The simulator schedules combinational statements as the conversion does, and finds
      no loop, when no combinational statement drives an input or a register. */
  lemma SameSchedule(design: Design)
    requires GreedyOrder(design.combinational, StartIds(design)).1 == []
    requires StartIds(design) <= VerilogScheduling.Undriven(design.combinational, |design.widths|)
    ensures GreedyOrder(design.combinational, VerilogScheduling.Undriven(design.combinational, |design.widths|)) ==
      (OrderOfDesign(design), [])
  {
    hide GreedyOrder;
    hide StartIds;
    OrdersAgree(design.combinational, StartIds(design), VerilogScheduling.Undriven(design.combinational, |design.widths|));
  }

  // ----- whole runs -----

  /** The simulator's states: each cycle applies its inputs and ticks without panicking and
      without leaving an array element. */
  ghost predicate Simulation(design: Design, states: nat -> Store, inputs: nat -> Store) {
    forall t: nat :: SimulationStep(design, states(t), inputs(t), states(t + 1))
  }

  ghost predicate SimulationStep(design: Design, values: Store, given: Store, next: Store) {
    && Shaped(values, design.widths) && Shaped(given, design.widths)
    && TickInRange(design, OrderOfDesign(design), values, given)
    && Tick(design, OrderOfDesign(design), values, given) == Some(next)
  }

  /** Over any run of the machine whose inputs are those of the simulation and whose
      registers start with the same values, the registers hold the simulator's values in
      every cycle, and every observed variable holds what `eval` sees. */
  lemma {:induction false} RunRefines(design: Design, machine: Machine, model: Model, trace: Trace,
    states: nat -> Store, inputs: nat -> Store, t: nat)
    requires CycleRefines(design, machine.variables, model) && Run(machine, trace)
    requires Simulation(design, states, inputs)
    requires forall u: nat :: Agrees(trace(u), model.inputs, inputs(u), InputIds(design))
    requires Agrees(trace(0), model.registers, states(0), RegisterIds(design))
    ensures Agrees(trace(t), model.registers, states(t), RegisterIds(design))
    ensures SimulationStep(design, states(t), inputs(t), states(t + 1))
    ensures Agrees(trace(t), model.observed,
      Evaluated(design, OrderOfDesign(design), states(t), inputs(t)).value, ObservedIds(design))
    decreases t
  {
    hide Settled;
    hide Steps;
    hide Tick;
    hide TickInRange;
    hide Evaluated;
    hide Agrees;
    hide Initial;
    hide OrderOfDesign;
    hide RegisterIds;
    hide InputIds;
    if t > 0 {
      RunRefines(design, machine, model, trace, states, inputs, t - 1);
      ghost var u := t - 1;
      CycleAt(design, machine, model, trace, states(u), inputs(u), states(u + 1), u);
    }
    CycleAt(design, machine, model, trace, states(t), inputs(t), states(t + 1), t);
  }

  lemma CycleAt(design: Design, machine: Machine, model: Model, trace: Trace, values: Store, given: Store, next: Store,
    t: nat)
    requires CycleRefines(design, machine.variables, model) && Run(machine, trace)
    requires SimulationStep(design, values, given, next)
    requires Agrees(trace(t), model.inputs, given, InputIds(design))
    requires Agrees(trace(t), model.registers, values, RegisterIds(design))
    ensures |given| == |values| && Evaluated(design, OrderOfDesign(design), values, given).Some?
    ensures Agrees(trace(t + 1), model.registers, next, RegisterIds(design))
    ensures Agrees(trace(t), model.observed, Evaluated(design, OrderOfDesign(design), values, given).value,
      ObservedIds(design))
  {
    hide Settled;
    hide Steps;
    hide TickInRange;
    hide Evaluated;
    hide Agrees;
    hide Initial;
    hide OrderOfDesign;
    hide RegisterIds;
    hide InputIds;
    hide RunSequential;
    assert Cycle(machine.variables, trace, t);
    assert CycleOutcome(design, model, trace(t), trace(t + 1), values, given, ObservedIds(design));
  }

  // ----- runs of designs that read what a path leaves unassigned -----

  /** A simulation that forgets everything but registers between cycles. */
  ghost predicate ClearedSimulation(design: Design, states: nat -> Store, inputs: nat -> Store) {
    forall t: nat :: |states(t)| == |inputs(t)| && ClearedStep(design, states(t), inputs(t), states(t + 1))
  }

  ghost predicate ClearedStep(design: Design, values: Store, given: Store, next: Store)
    requires |values| == |given|
  {
    && Shaped(values, design.widths) && Shaped(given, design.widths)
    && TickInRange(design, OrderOfDesign(design), Cleared(design, values), given)
    && Tick(design, OrderOfDesign(design), Cleared(design, values), given) == Some(next)
  }

  /** For any sound design, the runs of the machine are those of the simulator that starts
      each cycle from inputs and registers alone: the registers hold its values, and every
      exposed variable what its `eval` sees. */
  lemma {:induction false} RunClears(design: Design, machine: Machine, model: Model, trace: Trace,
    states: nat -> Store, inputs: nat -> Store, t: nat)
    requires CycleClears(design, machine.variables, model) && Run(machine, trace)
    requires ClearedSimulation(design, states, inputs)
    requires forall u: nat :: Agrees(trace(u), model.inputs, inputs(u), InputIds(design))
    requires Agrees(trace(0), model.registers, states(0), RegisterIds(design))
    ensures Agrees(trace(t), model.registers, states(t), RegisterIds(design))
    ensures |states(t)| == |inputs(t)| && ClearedStep(design, states(t), inputs(t), states(t + 1))
    ensures Evaluated(design, OrderOfDesign(design), Cleared(design, states(t)), inputs(t)).Some?
    ensures Agrees(trace(t), model.observed,
      Evaluated(design, OrderOfDesign(design), Cleared(design, states(t)), inputs(t)).value, ExposedIds(design))
    decreases t
  {
    hide Settled;
    hide Steps;
    hide CycleClears;
    hide Tick;
    hide TickInRange;
    hide Evaluated;
    hide Cleared;
    hide Agrees;
    hide Initial;
    hide OrderOfDesign;
    hide RegisterIds;
    hide InputIds;
    hide ExposedIds;
    if t > 0 {
      RunClears(design, machine, model, trace, states, inputs, t - 1);
      ghost var u := t - 1;
      ClearedCycleAt(design, machine, model, trace, states(u), inputs(u), states(u + 1), u);
    }
    ClearedCycleAt(design, machine, model, trace, states(t), inputs(t), states(t + 1), t);
  }

  lemma ClearedCycleAt(design: Design, machine: Machine, model: Model, trace: Trace, values: Store, given: Store,
    next: Store, t: nat)
    requires CycleClears(design, machine.variables, model) && Run(machine, trace)
    requires |values| == |given| && ClearedStep(design, values, given, next)
    requires Agrees(trace(t), model.inputs, given, InputIds(design))
    requires Agrees(trace(t), model.registers, values, RegisterIds(design))
    ensures Agrees(trace(t + 1), model.registers, next, RegisterIds(design))
    ensures Evaluated(design, OrderOfDesign(design), Cleared(design, values), given).Some?
    ensures Agrees(trace(t), model.observed,
      Evaluated(design, OrderOfDesign(design), Cleared(design, values), given).value, ExposedIds(design))
  {
    hide Settled;
    hide Steps;
    hide TickInRange;
    hide Tick;
    hide Evaluated;
    hide Cleared;
    hide Agrees;
    hide Initial;
    hide OrderOfDesign;
    hide RegisterIds;
    hide InputIds;
    hide ExposedIds;
    hide CycleClears;
    assert Cycle(machine.variables, trace, t);
    ClearedCycle(design, machine.variables, model, trace(t), trace(t + 1), values, given);
    TicksEvaluate(design, Cleared(design, values), given);
  }

  // ----- when an exposed variable shows the simulator's value -----

  lemma EvaluatedShape(design: Design, values: Store, given: Store)
    requires |given| == |values| && Evaluated(design, OrderOfDesign(design), values, given).Some?
    ensures |Evaluated(design, OrderOfDesign(design), values, given).value| == |values|
  {
    hide ExecuteAll;
    hide OrderOfDesign;
    ExecuteAllKeepsShape(OrderOfDesign(design), StartState(design, values, given));
  }

  /** What a cycle that succeeds from its cleared start shows. */
  lemma ClearedShows(design: Design, variables: seq<Driver>, model: Model, s: Assignment, s': Assignment,
    values: Store, given: Store)
    requires CycleClears(design, variables, model)
    requires Settled(variables, s) && Steps(variables, s, s') && CycleStart(design, model, s, values, given)
    requires |given| == |values| && TickInRange(design, OrderOfDesign(design), Cleared(design, values), given)
    requires Tick(design, OrderOfDesign(design), Cleared(design, values), given).Some?
    ensures Evaluated(design, OrderOfDesign(design), Cleared(design, values), given).Some?
    ensures Agrees(s, model.observed, Evaluated(design, OrderOfDesign(design), Cleared(design, values), given).value,
      ExposedIds(design))
  {
    ClearedCycle(design, variables, model, s, s', values, given);
    hide Settled;
    hide Steps;
    hide CycleClears;
    hide CycleStart;
    hide OrderOfDesign;
    hide TickInRange;
    hide Tick;
    hide Evaluated;
    hide ExposedIds;
    hide Agrees;
    TicksEvaluate(design, Cleared(design, values), given);
  }

  /** In a convertible design an exposed variable has the simulator's value in a cycle
      exactly when the path taken assigns it, or what it would keep is zero. */
  lemma ShownExactly(design: Design, variables: seq<Driver>, model: Model, s: Assignment, s': Assignment,
    values: Store, given: Store, id: nat)
    requires Convertible(design) && Accepted(design) && CycleClears(design, variables, model)
    requires Settled(variables, s) && Steps(variables, s, s') && CycleStart(design, model, s, values, given)
    requires |given| == |values| && TickInRange(design, OrderOfDesign(design), values, given)
    requires Tick(design, OrderOfDesign(design), values, given).Some? && id in ExposedIds(design)
    ensures id in model.observed && id < |values| && Evaluated(design, OrderOfDesign(design), values, given).Some?
    ensures |Evaluated(design, OrderOfDesign(design), values, given).value| == |values|
    ensures BitsOf(s, model.observed[id]) == Evaluated(design, OrderOfDesign(design), values, given).value[id] <==>
      (Skipped(design, values, given, id) ==> values[id] == Zeros(|values[id]|))
  {
    ClearedCycle(design, variables, model, s, s', values, given);
    hide Settled;
    hide Steps;
    hide CycleClears;
    hide CycleStart;
    hide Accepted;
    hide Convertible;
    hide OrderOfDesign;
    hide TickInRange;
    hide Tick;
    hide Evaluated;
    hide RegisterIds;
    hide ExposedIds;
    hide Shaped;
    hide AgreeOn;
    hide Skipped;
    ClearingIsInvisible(design, values, given);
    TicksEvaluate(design, values, given);
    TicksEvaluate(design, Cleared(design, values), given);
    EvaluatedShape(design, values, given);
    EvaluatedShape(design, Cleared(design, values), given);
    assert Agrees(s, model.observed,
      Evaluated(design, OrderOfDesign(design), Cleared(design, values), given).value, ExposedIds(design));
    KeptExactly(design, values, given, id);
  }

  /** ... in every cycle of a run. */
  lemma RunShows(design: Design, machine: Machine, model: Model, trace: Trace, states: nat -> Store,
    inputs: nat -> Store, t: nat, id: nat)
    requires Convertible(design) && Accepted(design) && CycleClears(design, machine.variables, model)
    requires Run(machine, trace) && Simulation(design, states, inputs)
    requires forall u: nat :: Agrees(trace(u), model.inputs, inputs(u), InputIds(design))
    requires Agrees(trace(0), model.registers, states(0), RegisterIds(design))
    requires id in ExposedIds(design)
    ensures |states(t)| == |inputs(t)| && Evaluated(design, OrderOfDesign(design), states(t), inputs(t)).Some?
    ensures id in model.observed && id < |states(t)|
    ensures id < |Evaluated(design, OrderOfDesign(design), states(t), inputs(t)).value|
    ensures
      var shown := Evaluated(design, OrderOfDesign(design), states(t), inputs(t)).value[id];
      BitsOf(trace(t), model.observed[id]) == shown <==>
        (Skipped(design, states(t), inputs(t), id) ==> states(t)[id] == Zeros(|states(t)[id]|))
  {
    ClearsRefines(design, machine.variables, model);
    RunRefines(design, machine, model, trace, states, inputs, t);
    hide Settled;
    hide Steps;
    hide CycleClears;
    hide CycleRefines;
    hide Accepted;
    hide Convertible;
    hide OrderOfDesign;
    hide TickInRange;
    hide Tick;
    hide Evaluated;
    hide RegisterIds;
    hide InputIds;
    hide ExposedIds;
    hide Agrees;
    hide Skipped;
    hide Initial;
    assert Cycle(machine.variables, trace, t);
    ShownExactly(design, machine.variables, model, trace(t), trace(t + 1), states(t), inputs(t), id);
  }
}
