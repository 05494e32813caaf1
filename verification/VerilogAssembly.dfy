/** The state machine that a design ends up as: the converted design with its outputs and
    properties, gates reordered, and reset applied. Every simulation has a run of it that
    shows the same. */
module VerilogAssembly {
  import opened Words
  import opened Fsm
  import opened Translation
  import opened Reorder
  import opened Normalize
  import opened TieInput
  import Simulator
  import Slices
  import opened WordStorage
  import opened VerilogAst
  import opened VerilogAnalysis
  import opened VerilogSimulator
  import opened VerilogExpressions
  import opened VerilogConvert
  import opened VerilogInterference
  import opened VerilogSequential
  import opened VerilogScheduling
  import opened VerilogCycle
  import opened VerilogModel

  datatype PropertyKind = AssertionProperty | AssumptionProperty | CoverProperty

  datatype Property = Property(kind: PropertyKind, id: nat)

  // ----- what a state of the simulator shows -----

  /** The outputs below `limit`, in the order of the variables. */
  function OutputIds(design: Design, limit: nat): (r: seq<nat>)
    ensures forall id :: id in r <==> id in design.outputs && id < limit
  {
    if limit == 0 then []
    else OutputIds(design, limit - 1) + if limit - 1 in design.outputs then [limit - 1] else []
  }

  function StoredBits(store: Store, ids: seq<nat>): Bits {
    if ids == [] then []
    else
      var last := ids[|ids| - 1];
      StoredBits(store, ids[..|ids| - 1]) + if last < |store| then store[last] else []
  }

  /** Assertions show their violation. */
  function PropertyBit(store: Store, p: Property): bool {
    p.id < |store| && |store[p.id]| == 1 && store[p.id][0] != p.kind.AssertionProperty?
  }

  function PropertyBits(store: Store, properties: seq<Property>, kind: PropertyKind): Bits {
    if properties == [] then []
    else
      var last := properties[|properties| - 1];
      PropertyBits(store, properties[..|properties| - 1], kind) + if last.kind == kind then [PropertyBit(store, last)] else []
  }

  function DesignObservation(design: Design, properties: seq<Property>, store: Store): Observation {
    Observation(StoredBits(store, OutputIds(design, |design.widths|)), PropertyBits(store, properties, AssertionProperty),
      PropertyBits(store, properties, AssumptionProperty), PropertyBits(store, properties, CoverProperty))
  }

  // ----- what the machine shows -----

  function WordsShown(observed: Environment, ids: seq<nat>): seq<Value> {
    if ids == [] then []
    else
      var last := ids[|ids| - 1];
      WordsShown(observed, ids[..|ids| - 1]) + if last in observed then observed[last] else []
  }

  /** A property wire has one bit. */
  predicate IsWire(observed: Environment, id: nat) {
    id in observed && |observed[id]| == 1
  }

  function PropertyValue(observed: Environment, p: Property): Value
    requires IsWire(observed, p.id)
  {
    if p.kind == AssertionProperty then observed[p.id][0].Negate() else observed[p.id][0]
  }

  function PropertyValues(observed: Environment, properties: seq<Property>, kind: PropertyKind): seq<Value>
    requires forall k :: 0 <= k < |properties| ==> IsWire(observed, properties[k].id)
  {
    if properties == [] then []
    else
      var last := properties[|properties| - 1];
      PropertyValues(observed, properties[..|properties| - 1], kind) +
      if last.kind == kind then [PropertyValue(observed, last)] else []
  }

  /** The machine shows the outputs and properties of the design. */
  predicate ShowsDesign(design: Design, properties: seq<Property>, observed: Environment, m: Machine) {
    && (forall k :: 0 <= k < |properties| ==> IsWire(observed, properties[k].id))
    && m.outputs == WordsShown(observed, OutputIds(design, |design.widths|))
    && m.asserts == PropertyValues(observed, properties, AssertionProperty)
    && m.assumes == PropertyValues(observed, properties, AssumptionProperty)
    && m.covers == PropertyValues(observed, properties, CoverProperty)
  }

  method AddOutputs(fsm: FSM, design: Design, observed: Environment) returns (ok: bool)
    requires fsm.outputs == []
    modifies fsm`outputs
    ensures ok <==> forall id :: id in design.outputs && id < |design.widths| ==> id in observed
    ensures ok ==> fsm.outputs == WordsShown(observed, OutputIds(design, |design.widths|))
  {
    hide OutputIds;
    hide WordsShown;
    NothingShownYet(design, observed);
    for id := 0 to |design.widths|
      invariant fsm.outputs == WordsShown(observed, OutputIds(design, id))
      invariant forall k :: k in design.outputs && k < id ==> k in observed
    {
      if id in design.outputs {
        if id !in observed {
          return false;
        }
        OneMoreOutput(design, observed, id);
        AddWordOutputs(fsm, observed[id]);
      } else {
        SameOutputs(design, id);
      }
    }
    ok := true;
  }

  lemma NothingShownYet(design: Design, observed: Environment)
    ensures WordsShown(observed, OutputIds(design, 0)) == []
  {
  }

  lemma SameOutputs(design: Design, id: nat)
    requires id !in design.outputs
    ensures OutputIds(design, id + 1) == OutputIds(design, id)
  {
  }

  lemma OneMoreOutput(design: Design, observed: Environment, id: nat)
    requires id in design.outputs && id in observed
    ensures WordsShown(observed, OutputIds(design, id + 1)) == WordsShown(observed, OutputIds(design, id)) + observed[id]
  {
    var before := OutputIds(design, id);
    assert OutputIds(design, id + 1) == before + [id] && (before + [id])[..|before|] == before;
  }

  method AddProperties(fsm: FSM, properties: seq<Property>, observed: Environment) returns (ok: bool)
    requires fsm.asserts == [] && fsm.assumes == [] && fsm.covers == []
    modifies fsm`asserts, fsm`assumes, fsm`covers
    ensures ok <==> forall k :: 0 <= k < |properties| ==> IsWire(observed, properties[k].id)
    ensures ok ==>
      && fsm.asserts == PropertyValues(observed, properties, AssertionProperty)
      && fsm.assumes == PropertyValues(observed, properties, AssumptionProperty)
      && fsm.covers == PropertyValues(observed, properties, CoverProperty)
  {
    for k := 0 to |properties|
      invariant forall j :: 0 <= j < k ==> IsWire(observed, properties[j].id)
      invariant fsm.asserts == PropertyValues(observed, properties[..k], AssertionProperty)
      invariant fsm.assumes == PropertyValues(observed, properties[..k], AssumptionProperty)
      invariant fsm.covers == PropertyValues(observed, properties[..k], CoverProperty)
    {
      var p := properties[k];
      if !IsWire(observed, p.id) {
        return false;
      }
      assert properties[..k + 1][..k] == properties[..k];
      match p.kind {
        case AssertionProperty => fsm.AddAssert(observed[p.id][0].Negate());
        case AssumptionProperty => fsm.AddAssume(observed[p.id][0]);
        case CoverProperty => fsm.AddCover(observed[p.id][0]);
      }
    }
    assert properties[..|properties|] == properties;
    ok := true;
  }

  /** The variables that are outputs or properties. */
  function ShownIds(design: Design, properties: seq<Property>): set<nat> {
    (set id | id in design.outputs && id < |design.widths|) + set k | 0 <= k < |properties| :: properties[k].id
  }

  lemma {:induction false} WordsDenote(s: Assignment, observed: Environment, store: Store, ids: seq<nat>)
    requires forall id :: id in ids ==> id in observed && id < |store| && BitsOf(s, observed[id]) == store[id]
    ensures BitsOf(s, WordsShown(observed, ids)) == StoredBits(store, ids)
  {
    if ids != [] {
      var last := ids[|ids| - 1];
      WordsDenote(s, observed, store, ids[..|ids| - 1]);
      assert last in ids;
      Slices.AppendBits(s, WordsShown(observed, ids[..|ids| - 1]), observed[last]);
    }
  }

  lemma {:induction false} PropertiesDenote(s: Assignment, observed: Environment, store: Store,
    properties: seq<Property>, kind: PropertyKind)
    requires forall k :: 0 <= k < |properties| ==> IsWire(observed, properties[k].id)
    requires forall k :: 0 <= k < |properties| ==>
      properties[k].id in observed && properties[k].id < |store|
      && BitsOf(s, observed[properties[k].id]) == store[properties[k].id]
    ensures BitsOf(s, PropertyValues(observed, properties, kind)) == PropertyBits(store, properties, kind)
  {
    if properties != [] {
      var shorter, last := properties[..|properties| - 1], properties[|properties| - 1];
      PropertiesDenote(s, observed, store, shorter, kind);
      assert store[last.id] == BitsOf(s, observed[last.id]) && store[last.id][0] == Holds(s, observed[last.id][0]);
      assert Holds(s, PropertyValue(observed, last)) == PropertyBit(store, last);
      Slices.AppendBits(s, PropertyValues(observed, shorter, kind), [PropertyValue(observed, last)]);
      assert BitsOf(s, [PropertyValue(observed, last)]) == [PropertyBit(store, last)];
      assert PropertyValues(observed, shorter, kind) + [] == PropertyValues(observed, shorter, kind);
      assert PropertyBits(store, shorter, kind) + [] == PropertyBits(store, shorter, kind);
    }
  }

  /** Observing the machine is observing the simulator's state that its words denote. */
  lemma ObservationDenotes(design: Design, properties: seq<Property>, observed: Environment, m: Machine, s: Assignment,
    store: Store)
    requires ShowsDesign(design, properties, observed, m)
    requires Agrees(s, observed, store, ShownIds(design, properties))
    ensures Observe(m, s) == DesignObservation(design, properties, store)
  {
    hide BitsOf;
    var ids := OutputIds(design, |design.widths|);
    forall id | id in ids
      ensures id in observed && id < |store| && BitsOf(s, observed[id]) == store[id]
    {
      assert id in ShownIds(design, properties);
    }
    WordsDenote(s, observed, store, ids);
    forall k | 0 <= k < |properties|
      ensures properties[k].id < |store| && BitsOf(s, observed[properties[k].id]) == store[properties[k].id]
    {
      assert properties[k].id in ShownIds(design, properties);
    }
    PropertiesDenote(s, observed, store, properties, AssertionProperty);
    PropertiesDenote(s, observed, store, properties, AssumptionProperty);
    PropertiesDenote(s, observed, store, properties, CoverProperty);
  }

  // ----- the assembled machine -----

  /** How a machine came about: the converted machine and its words, and the reordering. */
  datatype Assembly = Assembly(
    before: Machine,
    model: Model,
    inputStarts: map<nat, nat>,
    starts: map<nat, nat>,
    mapping: seq<Value>,
    origin: seq<Var>)

  /** Before reordering, the machine is the design converted and shown. */
  ghost predicate ConvertedTo(design: Design, properties: seq<Property>, a: Assembly) {
    && Accepted(design) && Verified(a.before) && InRange(a.before)
    && LaidOut(design, a.before.variables, a.model, a.inputStarts, a.starts)
    && (SoundDesign(design) ==> CycleClears(design, a.before.variables, a.model))
    && ShowsDesign(design, properties, a.model.observed, a.before)
  }

  ghost predicate Assembled(design: Design, properties: seq<Property>, a: Assembly, m: Machine) {
    && ConvertedTo(design, properties, a)
    && Renamed(a.before, m, a.mapping, a.origin) && StayingNonGates(a.before.variables, m.variables, a.mapping)
    && Verified(m)
  }

  /** Every output and property has a value, and properties have one bit. */
  ghost predicate Showable(design: Design, properties: seq<Property>) {
    var shown := CapturedKeys(design) + WritesOfAll(design.sequential, false);
    && (forall id :: id in design.outputs && id < |design.widths| ==> id in shown)
    && (forall k :: 0 <= k < |properties| ==>
          var id := properties[k].id;
          id in shown && id < |design.widths| && design.widths[id] == 1)
  }

  /** Some input or register has a bit. */
  ghost predicate HasStorage(design: Design) {
    exists id :: id in StartKeys(design) && id < |design.widths| && design.widths[id] > 0
  }

  /** The words of the model once the variables have moved. */
  function Remapped(mapping: seq<Value>, environment: Environment): Environment
    requires EnvironmentKnown(environment, |mapping|)
  {
    map id | id in environment :: SubstituteAll(mapping, environment[id])
  }

  /** Converts a design, adds what it shows, puts the gates in order and verifies. */
  method AssembleModel(design: Design, properties: seq<Property>)
    returns (fsm: FSM, r: Option<Model>, ghost a: Assembly)
    ensures fresh(fsm)
    ensures r.Some? <==>
      && Compiles(design) && Showable(design, properties)
      && (HasStorage(design) || GateFree(a.before.variables))
    ensures Compiles(design) && Showable(design, properties) ==> ConvertedTo(design, properties, a)
    ensures r.Some? ==> Assembled(design, properties, a, fsm.Contents())
    ensures r.Some? ==>
      && EnvironmentKnown(a.model.inputs, |a.mapping|) && EnvironmentKnown(a.model.registers, |a.mapping|)
      && EnvironmentKnown(a.model.observed, |a.mapping|)
      && r.value == Model(Remapped(a.mapping, a.model.inputs), Remapped(a.mapping, a.model.registers),
           Remapped(a.mapping, a.model.observed))
  {
    hide Compiles;
    hide SoundDesign;
    hide CycleClears;
    hide CycleRefines;
    hide LaidOut;
    hide Accepted;
    hide CapturedKeys;
    hide WritesOfAll;
    hide Showable;
    hide HasStorage;
    hide Verified;
    hide Ordered;
    hide InRange;
    hide Renamed;
    hide Assembled;
    hide ConvertedTo;
    hide ShowsDesign;
    hide StayingNonGates;
    hide Cyclic;
    hide EnvironmentKnown;
    hide IsFirstGate;
    hide LeadingNonGates;
    var converted;
    ghost var inputStarts, starts;
    fsm, converted, inputStarts, starts := ConvertDesign(design);
    r, a := None, Assembly(fsm.Contents(), Model(map[], map[], map[]), map[], map[], [], []);
    if converted == None {
      return;
    }
    var model := converted.value;
    ShowableWords(design, properties, fsm.variables, model, inputStarts, starts);
    var ok := AddOutputs(fsm, design, model.observed);
    if !ok {
      return;
    }
    ok := AddProperties(fsm, properties, model.observed);
    if !ok {
      return;
    }
    ghost var before := fsm.Contents();
    BeforeVerified(design, properties, before, model, inputStarts, starts);
    VerifiedIsOrdered(before);
    var outcome, mapping;
    ghost var origin;
    outcome, mapping, origin := ReorderGates(fsm);
    VerifiedAcyclic(before.variables);
    StorageLeads(design, before.variables, model, inputStarts, starts);
    a := Assembly(before, model, inputStarts, starts, [], []);
    ConvertedFrom(design, properties, a);
    if outcome != Reordered {
      return;
    }
    a := Assembly(before, model, inputStarts, starts, mapping, origin);
    ConvertedFrom(design, properties, a);
    MovedFrom(design, properties, a, fsm.Contents());
    var verified := fsm.Verify(true);
    assert verified;
    r := Some(Model(Remapped(mapping, model.inputs), Remapped(mapping, model.registers), Remapped(mapping, model.observed)));
  }

  lemma ShowableWords(design: Design, properties: seq<Property>, variables: seq<Driver>, model: Model,
    inputStarts: map<nat, nat>, starts: map<nat, nat>)
    requires LaidOut(design, variables, model, inputStarts, starts)
    requires model.observed.Keys == CapturedKeys(design) + WritesOfAll(design.sequential, false)
    ensures Showable(design, properties) <==>
      && (forall id :: id in design.outputs && id < |design.widths| ==> id in model.observed)
      && (forall k :: 0 <= k < |properties| ==> IsWire(model.observed, properties[k].id))
  {
    hide CapturedKeys;
    hide WritesOfAll;
    hide Placed;
    hide RegistersAt;
    hide Complete;
    hide GatesTogether;
  }

  /** Before reordering the machine already passes the assertions. */
  lemma BeforeVerified(design: Design, properties: seq<Property>, m: Machine, model: Model, inputStarts: map<nat, nat>,
    starts: map<nat, nat>)
    requires LaidOut(design, m.variables, model, inputStarts, starts) && Ordered(m.variables)
    requires forall k :: 0 <= k < |properties| ==> IsWire(model.observed, properties[k].id)
    requires m.outputs == WordsShown(model.observed, OutputIds(design, |design.widths|))
    requires m.asserts == PropertyValues(model.observed, properties, AssertionProperty)
    requires m.assumes == PropertyValues(model.observed, properties, AssumptionProperty)
    requires m.covers == PropertyValues(model.observed, properties, CoverProperty)
    ensures Verified(m) && InRange(m)
    ensures EnvironmentKnown(model.inputs, |m.variables|) && EnvironmentKnown(model.registers, |m.variables|)
    ensures EnvironmentKnown(model.observed, |m.variables|)
  {
    var limit := |m.variables|;
    ObservedKnown(design, m.variables, model, inputStarts, starts);
    hide LaidOut;
    WordsShownKnown(model.observed, OutputIds(design, |design.widths|), limit);
    PropertiesShownKnown(model.observed, properties, AssertionProperty, limit);
    PropertiesShownKnown(model.observed, properties, AssumptionProperty, limit);
    PropertiesShownKnown(model.observed, properties, CoverProperty, limit);
    CompleteIsVerified(m);
    WellDrivenInRange(m);
  }

  lemma ObservedKnown(design: Design, variables: seq<Driver>, model: Model, inputStarts: map<nat, nat>,
    starts: map<nat, nat>)
    requires LaidOut(design, variables, model, inputStarts, starts)
    ensures EnvironmentKnown(model.inputs, |variables|) && EnvironmentKnown(model.registers, |variables|)
    ensures EnvironmentKnown(model.observed, |variables|) && Complete(variables)
  {
    hide Complete;
    hide GatesTogether;
  }

  lemma {:induction false} WordsShownKnown(observed: Environment, ids: seq<nat>, limit: nat)
    requires EnvironmentKnown(observed, limit)
    ensures AllKnown(WordsShown(observed, ids), limit)
  {
    if ids != [] {
      WordsShownKnown(observed, ids[..|ids| - 1], limit);
    }
  }

  lemma {:induction false} PropertiesShownKnown(observed: Environment, properties: seq<Property>, kind: PropertyKind,
    limit: nat)
    requires EnvironmentKnown(observed, limit)
    requires forall k :: 0 <= k < |properties| ==> IsWire(observed, properties[k].id)
    ensures AllKnown(PropertyValues(observed, properties, kind), limit)
  {
    if properties != [] {
      PropertiesShownKnown(observed, properties[..|properties| - 1], kind, limit);
    }
  }

  /** The first gate is the first variable exactly when there are gates, and no bit of an
      input or a register. */
  lemma StorageLeads(design: Design, variables: seq<Driver>, model: Model, inputStarts: map<nat, nat>,
    starts: map<nat, nat>)
    requires LaidOut(design, variables, model, inputStarts, starts)
    ensures HasStorage(design) || GateFree(variables) <==>
      !exists first: nat :: IsFirstGate(variables, first) && !LeadingNonGates(variables, first)
  {
    if HasStorage(design) {
      StorageFirst(design, variables, model, inputStarts, starts);
    } else if !GateFree(variables) {
      GatesOnlyWithout(design, variables, model, inputStarts, starts);
      hide LaidOut;
      hide HasStorage;
      assert IsFirstGate(variables, 0) && !LeadingNonGates(variables, 0);
    }
  }

  lemma GatesOnlyWithout(design: Design, variables: seq<Driver>, model: Model, inputStarts: map<nat, nat>,
    starts: map<nat, nat>)
    requires LaidOut(design, variables, model, inputStarts, starts) && !HasStorage(design)
    ensures forall i :: 0 <= i < |variables| ==> variables[i].GateDriver?
  {
    hide LaidOut;
    hide HasStorage;
    forall i | 0 <= i < |variables|
      ensures variables[i].GateDriver?
    {
      if !variables[i].GateDriver? {
        NonGateIsStored(design, variables, model, inputStarts, starts, i);
      }
    }
  }

  lemma NonGateIsStored(design: Design, variables: seq<Driver>, model: Model, inputStarts: map<nat, nat>,
    starts: map<nat, nat>, i: nat)
    requires LaidOut(design, variables, model, inputStarts, starts)
    requires i < |variables| && !variables[i].GateDriver?
    ensures HasStorage(design)
  {
    hide Complete;
    hide GatesTogether;
    hide Valid;
    var id := if InSomeWord(inputStarts, design.widths, i) then WordHolding(inputStarts, design.widths, i)
      else WordHolding(starts, design.widths, i);
    assert id in StartKeys(design) && design.widths[id] > 0;
  }

  lemma StoredIsNoGate(design: Design, variables: seq<Driver>, model: Model, inputStarts: map<nat, nat>,
    starts: map<nat, nat>)
    requires LaidOut(design, variables, model, inputStarts, starts) && HasStorage(design)
    ensures exists i :: 0 <= i < |variables| && !variables[i].GateDriver?
  {
    hide Complete;
    hide GatesTogether;
    hide Valid;
    var id :| id in StartKeys(design) && id < |design.widths| && design.widths[id] > 0;
    var i := if id in model.inputs then inputStarts[id] else starts[id];
    assert i < |variables| && !variables[i].GateDriver? by {
      if id in model.inputs {
        assert variables[i] == InputDriver;
      } else {
        assert id in model.registers;
        assert RegisterBit(variables[starts[id] + 0], BitReset(ResetWord(HistoryResets(design), id), 0));
      }
    }
  }

  lemma StorageFirst(design: Design, variables: seq<Driver>, model: Model, inputStarts: map<nat, nat>,
    starts: map<nat, nat>)
    requires LaidOut(design, variables, model, inputStarts, starts) && HasStorage(design)
    ensures !exists first: nat :: IsFirstGate(variables, first) && !LeadingNonGates(variables, first)
  {
    StoredIsNoGate(design, variables, model, inputStarts, starts);
    assert GatesTogether(variables);
    hide LaidOut;
    hide HasStorage;
    forall first: nat | IsFirstGate(variables, first)
      ensures LeadingNonGates(variables, first)
    {
      assert first != 0;
    }
  }

  lemma ConvertedFrom(design: Design, properties: seq<Property>, a: Assembly)
    requires Accepted(design) && Verified(a.before) && InRange(a.before)
    requires LaidOut(design, a.before.variables, a.model, a.inputStarts, a.starts)
    requires SoundDesign(design) ==> CycleClears(design, a.before.variables, a.model)
    requires forall k :: 0 <= k < |properties| ==> IsWire(a.model.observed, properties[k].id)
    requires a.before.outputs == WordsShown(a.model.observed, OutputIds(design, |design.widths|))
    requires a.before.asserts == PropertyValues(a.model.observed, properties, AssertionProperty)
    requires a.before.assumes == PropertyValues(a.model.observed, properties, AssumptionProperty)
    requires a.before.covers == PropertyValues(a.model.observed, properties, CoverProperty)
    ensures ConvertedTo(design, properties, a)
  {
    hide Accepted;
    hide Verified;
    hide LaidOut;
    hide SoundDesign;
    hide CycleClears;
  }

  lemma MovedFrom(design: Design, properties: seq<Property>, a: Assembly, m: Machine)
    requires ConvertedTo(design, properties, a) && Renamed(a.before, m, a.mapping, a.origin)
    requires StayingNonGates(a.before.variables, m.variables, a.mapping)
    requires Verified(a.before) ==> Verified(m)
    ensures Assembled(design, properties, a, m) && |a.mapping| == |a.before.variables|
  {
    hide Accepted;
    hide Verified;
    hide LaidOut;
    hide SoundDesign;
    hide CycleClears;
  }

  // ----- every simulation is a run -----

  ghost predicate WordsKnown(a: Assembly) {
    EnvironmentKnown(a.model.inputs, |a.mapping|) && EnvironmentKnown(a.model.registers, |a.mapping|)
  }

  /** The run follows the simulation's inputs, in the words that reordering has moved, and
      starts from its registers. */
  ghost predicate FollowsInputs(design: Design, a: Assembly, trace: Trace, states: nat -> Store, inputs: nat -> Store)
    requires WordsKnown(a)
  {
    && (forall t: nat :: Agrees(trace(t), Remapped(a.mapping, a.model.inputs), inputs(t), InputIds(design)))
    && Agrees(trace(0), Remapped(a.mapping, a.model.registers), states(0), RegisterIds(design))
  }

  /** The machine's run whose inputs are the simulation's and whose registers start alike. */
  ghost function RunOf(design: Design, a: Assembly, states: nat -> Store, inputs: nat -> Store): Trace {
    TrajectoryTrace(a.before.variables, DrivenBy(a.inputStarts, a.starts, design.widths, states(0), inputs))
  }

  lemma RunOfAgrees(design: Design, a: Assembly, states: nat -> Store, inputs: nat -> Store)
    requires LaidOut(design, a.before.variables, a.model, a.inputStarts, a.starts) && Ordered(a.before.variables)
    requires Shaped(states(0), design.widths) && forall t: nat :: Shaped(inputs(t), design.widths)
    requires StartsReset(RegistersInRange(design), design.widths, HistoryResets(design), states(0))
    ensures Run(a.before, RunOf(design, a, states, inputs))
    ensures forall t: nat :: Agrees(RunOf(design, a, states, inputs)(t), a.model.inputs, inputs(t), InputIds(design))
    ensures Agrees(RunOf(design, a, states, inputs)(0), a.model.registers, states(0), RegistersInRange(design))
  {
    var variables, widths := a.before.variables, design.widths;
    var drive := DrivenBy(a.inputStarts, a.starts, widths, states(0), inputs);
    EveryDriveHasRun(a.before, drive);
    hide TrajectoryTrace;
    hide DrivenBy;
    hide InputIds;
    hide RegistersInRange;
    hide Run;
    hide StartsReset;
    hide Ordered;
    hide Complete;
    hide GatesTogether;
    InputsInRange(design, variables, a.model, a.inputStarts, a.starts);
    forall t: nat
      ensures Agrees(RunOf(design, a, states, inputs)(t), a.model.inputs, inputs(t), InputIds(design))
    {
      forall id | id in InputIds(design)
        ensures BitsOf(RunOf(design, a, states, inputs)(t), a.model.inputs[id]) == inputs(t)[id]
      {
        InputsDriven(variables, a.model.inputs, a.inputStarts, a.starts, widths, states(0), inputs, t, id);
      }
    }
    forall id | id in RegistersInRange(design)
      ensures BitsOf(RunOf(design, a, states, inputs)(0), a.model.registers[id]) == states(0)[id]
    {
      RegistersStart(variables, a.model.inputs, a.inputStarts, a.model.registers, a.starts, widths, HistoryResets(design),
        states(0), inputs, id);
    }
  }

  lemma InputsInRange(design: Design, variables: seq<Driver>, model: Model, inputStarts: map<nat, nat>,
    starts: map<nat, nat>)
    requires LaidOut(design, variables, model, inputStarts, starts)
    ensures forall id :: id in InputIds(design) || id in RegistersInRange(design) ==> id < |design.widths|
    ensures model.inputs.Keys == InputIds(design) && model.registers.Keys == RegistersInRange(design)
  {
    hide Complete;
    hide GatesTogether;
    hide InputIds;
  }

  /** What one cycle of a cleared simulation shows. */
  ghost predicate ShownCleared(design: Design, properties: seq<Property>, values: Store, given: Store, o: Observation) {
    && |values| == |given| && Evaluated(design, OrderOfDesign(design), Cleared(design, values), given).Some?
    && o == DesignObservation(design, properties,
         Evaluated(design, OrderOfDesign(design), Cleared(design, values), given).value)
  }

  ghost predicate ShowsCleared(design: Design, properties: seq<Property>, m: Machine, trace: Trace, states: nat -> Store,
    inputs: nat -> Store) {
    forall t: nat :: ShownCleared(design, properties, states(t), inputs(t), Observe(m, trace(t)))
  }

  /** What one cycle of a simulation shows. */
  ghost predicate Shown(design: Design, properties: seq<Property>, values: Store, given: Store, o: Observation) {
    && |values| == |given| && Evaluated(design, OrderOfDesign(design), values, given).Some?
    && o == DesignObservation(design, properties, Evaluated(design, OrderOfDesign(design), values, given).value)
  }

  ghost predicate Shows(design: Design, properties: seq<Property>, m: Machine, trace: Trace, states: nat -> Store,
    inputs: nat -> Store) {
    forall t: nat :: Shown(design, properties, states(t), inputs(t), Observe(m, trace(t)))
  }

  /** The run follows the inputs and shows what the simulation shows. */
  ghost predicate ShowsAsCleared(design: Design, properties: seq<Property>, a: Assembly, m: Machine, trace: Trace,
    states: nat -> Store, inputs: nat -> Store)
    requires WordsKnown(a)
  {
    && Run(m, trace) && FollowsInputs(design, a, trace, states, inputs)
    && ShowsCleared(design, properties, m, trace, states, inputs)
  }

  ghost predicate ShowsAsSimulated(design: Design, properties: seq<Property>, a: Assembly, m: Machine, trace: Trace,
    states: nat -> Store, inputs: nat -> Store)
    requires WordsKnown(a)
  {
    && Run(m, trace) && FollowsInputs(design, a, trace, states, inputs)
    && Shows(design, properties, m, trace, states, inputs)
  }

  lemma ShowsBoth(design: Design, properties: seq<Property>, a: Assembly, m: Machine, trace: Trace,
    states: nat -> Store, inputs: nat -> Store)
    requires WordsKnown(a) && Run(m, trace) && FollowsInputs(design, a, trace, states, inputs)
    ensures ShowsCleared(design, properties, m, trace, states, inputs) ==>
      ShowsAsCleared(design, properties, a, m, trace, states, inputs)
    ensures Shows(design, properties, m, trace, states, inputs) ==>
      ShowsAsSimulated(design, properties, a, m, trace, states, inputs)
  {
    hide Run;
    hide FollowsInputs;
    hide Shows;
    hide ShowsCleared;
  }

  lemma ClearedShapes(design: Design, states: nat -> Store, inputs: nat -> Store)
    requires ClearedSimulation(design, states, inputs)
    ensures Shaped(states(0), design.widths) && forall t: nat :: Shaped(inputs(t), design.widths)
  {
    hide Tick;
    hide TickInRange;
    hide Cleared;
    assert ClearedStep(design, states(0), inputs(0), states(1));
    forall t: nat
      ensures Shaped(inputs(t), design.widths)
    {
      assert ClearedStep(design, states(t), inputs(t), states(t + 1));
    }
  }

  lemma SimulationShapes(design: Design, states: nat -> Store, inputs: nat -> Store)
    requires Simulation(design, states, inputs)
    ensures Shaped(states(0), design.widths) && forall t: nat :: Shaped(inputs(t), design.widths)
  {
    hide Tick;
    hide TickInRange;
    assert SimulationStep(design, states(0), inputs(0), states(1));
    forall t: nat
      ensures Shaped(inputs(t), design.widths)
    {
      assert SimulationStep(design, states(t), inputs(t), states(t + 1));
    }
  }

  /** For every sound design: each simulation that starts its cycles from inputs and
      registers has a run of the assembled machine that shows the same in every cycle. */
  lemma ClearedSimulationHasRun(design: Design, properties: seq<Property>, a: Assembly, m: Machine,
    states: nat -> Store, inputs: nat -> Store)
    requires Assembled(design, properties, a, m) && SoundDesign(design)
    requires ClearedSimulation(design, states, inputs)
    requires StartsReset(RegisterIds(design), design.widths, HistoryResets(design), states(0))
    requires ShownIds(design, properties) <= ExposedIds(design)
    ensures WordsKnown(a)
    ensures exists trace :: ShowsAsCleared(design, properties, a, m, trace, states, inputs)
  {
    ClearedShapes(design, states, inputs);
    AllRegistersInRange(design);
    AssembledParts(design, properties, a, m);
    hide *;
    RunOfAgrees(design, a, states, inputs);
    var trace := RunOf(design, a, states, inputs);
    forall t: nat
      ensures ShownCleared(design, properties, states(t), inputs(t), Observe(a.before, trace(t)))
    {
      RunClears(design, a.before, a.model, trace, states, inputs, t);
      ClearedObserved(design, properties, a, trace(t), states(t), inputs(t));
    }
    PushedRun(a, m, trace);
    PushedInputs(design, properties, a, m, trace, states, inputs);
    PushedShows(design, properties, a, m, trace, states, inputs);
    assert ShowsAsCleared(design, properties, a, m, PushTrace(a.origin, trace), states, inputs) by {
      ShowsBoth(design, properties, a, m, PushTrace(a.origin, trace), states, inputs);
    }
  }

  lemma AssembledKnown(design: Design, properties: seq<Property>, a: Assembly, m: Machine)
    requires Assembled(design, properties, a, m)
    ensures WordsKnown(a) && Complete(a.before.variables) && |a.mapping| == |a.before.variables|
    ensures Translates(a.before, m, a.mapping) && Originates(a.before, m, a.mapping, a.origin)
    ensures forall s :: Tied(a.before, a.mapping, s)
  {
    ObservedKnown(design, a.before.variables, a.model, a.inputStarts, a.starts);
    hide LaidOut;
    hide Verified;
    hide InRange;
    hide ShowsDesign;
    hide CycleClears;
    hide SoundDesign;
    hide Accepted;
  }

  lemma PushedWords(m: Machine, n: Machine, mapping: seq<Value>, origin: seq<Var>, environment: Environment, s: Assignment,
    store: Store, ids: set<nat>)
    requires Translates(m, n, mapping) && Originates(m, n, mapping, origin) && Tied(m, mapping, s)
    requires Complete(m.variables) && EnvironmentKnown(environment, |mapping|)
    requires Agrees(s, environment, store, ids)
    ensures Agrees(Push(origin, s), Remapped(mapping, environment), store, ids)
  {
    PushThenPull(m, n, mapping, origin, s);
    var pushed := Push(origin, s);
    hide Translates;
    hide Originates;
    hide Push;
    forall id | id in ids
      ensures id in Remapped(mapping, environment) && BitsOf(pushed, Remapped(mapping, environment)[id]) == store[id]
    {
      BitsOfSubstituted(mapping, environment[id], pushed);
      SameWord(m, environment[id], Pull(mapping, pushed), s);
    }
  }

  lemma SameWord(m: Machine, values: seq<Value>, s: Assignment, t: Assignment)
    requires SameDriven(m, s, t) && Complete(m.variables) && AllKnown(values, |m.variables|)
    ensures BitsOf(s, values) == BitsOf(t, values)
  {
    forall i | 0 <= i < |values|
      ensures Holds(s, values[i]) == Holds(t, values[i])
    {
      assert values[i].Variable? ==> !m.variables[values[i].v.index].Undriven?;
    }
  }

  lemma PushedInputs(design: Design, properties: seq<Property>, a: Assembly, m: Machine, trace: Trace,
    states: nat -> Store, inputs: nat -> Store)
    requires Assembled(design, properties, a, m)
    requires forall t: nat :: Agrees(trace(t), a.model.inputs, inputs(t), InputIds(design))
    requires Agrees(trace(0), a.model.registers, states(0), RegisterIds(design))
    ensures WordsKnown(a) && FollowsInputs(design, a, PushTrace(a.origin, trace), states, inputs)
  {
    AssembledKnown(design, properties, a, m);
    hide Assembled;
    hide Translates;
    hide Originates;
    hide InputIds;
    hide RegisterIds;
    hide Tied;
    hide Complete;
    hide Agrees;
    hide Push;
    forall t: nat
      ensures Agrees(PushTrace(a.origin, trace)(t), Remapped(a.mapping, a.model.inputs), inputs(t), InputIds(design))
    {
      PushedWords(a.before, m, a.mapping, a.origin, a.model.inputs, trace(t), inputs(t), InputIds(design));
    }
    PushedWords(a.before, m, a.mapping, a.origin, a.model.registers, trace(0), states(0), RegisterIds(design));
  }

  lemma AssembledParts(design: Design, properties: seq<Property>, a: Assembly, m: Machine)
    requires Assembled(design, properties, a, m)
    ensures Accepted(design) && WellDriven(a.before) && Ordered(a.before.variables)
    ensures LaidOut(design, a.before.variables, a.model, a.inputStarts, a.starts)
    ensures SoundDesign(design) ==> CycleClears(design, a.before.variables, a.model)
    ensures ShowsDesign(design, properties, a.model.observed, a.before)
    ensures Renamed(a.before, m, a.mapping, a.origin)
  {
  }

  lemma ClearedObserved(design: Design, properties: seq<Property>, a: Assembly, s: Assignment, values: Store, given: Store)
    requires ShowsDesign(design, properties, a.model.observed, a.before)
    requires ShownIds(design, properties) <= ExposedIds(design)
    requires |values| == |given| && Evaluated(design, OrderOfDesign(design), Cleared(design, values), given).Some?
    requires Agrees(s, a.model.observed, Evaluated(design, OrderOfDesign(design), Cleared(design, values), given).value,
      ExposedIds(design))
    ensures ShownCleared(design, properties, values, given, Observe(a.before, s))
  {
    hide ShowsDesign;
    hide ExposedIds;
    hide ShownIds;
    hide Evaluated;
    hide OrderOfDesign;
    hide Cleared;
    hide DesignObservation;
    hide Observe;
    var store := Evaluated(design, OrderOfDesign(design), Cleared(design, values), given).value;
    AgreesOnSome(s, a.model.observed, store, ExposedIds(design), ShownIds(design, properties));
    ObservationDenotes(design, properties, a.model.observed, a.before, s, store);
  }

  lemma PushedRun(a: Assembly, m: Machine, trace: Trace)
    requires Renamed(a.before, m, a.mapping, a.origin) && WellDriven(a.before) && Run(a.before, trace)
    ensures Run(m, PushTrace(a.origin, trace))
    ensures SameObservations(a.before, trace, m, PushTrace(a.origin, trace))
  {
    RenamingKeepsRuns(a.before, m, a.mapping, a.origin);
  }

  lemma PushedShows(design: Design, properties: seq<Property>, a: Assembly, m: Machine, trace: Trace,
    states: nat -> Store, inputs: nat -> Store)
    requires SameObservations(a.before, trace, m, PushTrace(a.origin, trace))
    requires forall t: nat :: ShownCleared(design, properties, states(t), inputs(t), Observe(a.before, trace(t)))
    ensures ShowsCleared(design, properties, m, PushTrace(a.origin, trace), states, inputs)
  {
    hide ShownCleared;
    hide Observe;
    hide PushTrace;
  }

  /** For every convertible design: each simulation has a run of the assembled machine that
      shows the same in every cycle, when what is shown is assigned on every path. */
  lemma SimulationHasRun(design: Design, properties: seq<Property>, a: Assembly, m: Machine, states: nat -> Store,
    inputs: nat -> Store)
    requires Assembled(design, properties, a, m) && Convertible(design)
    requires Simulation(design, states, inputs)
    requires StartsReset(RegisterIds(design), design.widths, HistoryResets(design), states(0))
    requires ShownIds(design, properties) <= ObservedIds(design)
    ensures WordsKnown(a)
    ensures exists trace :: ShowsAsSimulated(design, properties, a, m, trace, states, inputs)
  {
    SimulationShapes(design, states, inputs);
    ConvertibleIsSound(design);
    AllRegistersInRange(design);
    AssembledParts(design, properties, a, m);
    hide *;
    RunOfAgrees(design, a, states, inputs);
    var trace := RunOf(design, a, states, inputs);
    ClearsRefines(design, a.before.variables, a.model);
    forall t: nat
      ensures Shown(design, properties, states(t), inputs(t), Observe(a.before, trace(t)))
    {
      RunRefines(design, a.before, a.model, trace, states, inputs, t);
      StepsEvaluate(design, states(t), inputs(t), states(t + 1));
      Observed(design, properties, a, trace(t), states(t), inputs(t));
    }
    PushedRun(a, m, trace);
    PushedInputs(design, properties, a, m, trace, states, inputs);
    PushedShown(design, properties, a, m, trace, states, inputs);
    assert ShowsAsSimulated(design, properties, a, m, PushTrace(a.origin, trace), states, inputs) by {
      ShowsBoth(design, properties, a, m, PushTrace(a.origin, trace), states, inputs);
    }
  }

  lemma StepsEvaluate(design: Design, values: Store, given: Store, next: Store)
    requires SimulationStep(design, values, given, next)
    ensures |values| == |given| && Evaluated(design, OrderOfDesign(design), values, given).Some?
  {
    hide Evaluated;
    hide OrderOfDesign;
    hide RunSequential;
    hide TickInRange;
  }

  lemma Observed(design: Design, properties: seq<Property>, a: Assembly, s: Assignment, values: Store, given: Store)
    requires ShowsDesign(design, properties, a.model.observed, a.before)
    requires ShownIds(design, properties) <= ObservedIds(design)
    requires |values| == |given| && Evaluated(design, OrderOfDesign(design), values, given).Some?
    requires Agrees(s, a.model.observed, Evaluated(design, OrderOfDesign(design), values, given).value,
      ObservedIds(design))
    ensures Shown(design, properties, values, given, Observe(a.before, s))
  {
    hide ShowsDesign;
    hide ObservedIds;
    hide ShownIds;
    hide Evaluated;
    hide OrderOfDesign;
    hide DesignObservation;
    hide Observe;
    var store := Evaluated(design, OrderOfDesign(design), values, given).value;
    AgreesOnSome(s, a.model.observed, store, ObservedIds(design), ShownIds(design, properties));
    ObservationDenotes(design, properties, a.model.observed, a.before, s, store);
  }

  lemma PushedShown(design: Design, properties: seq<Property>, a: Assembly, m: Machine, trace: Trace,
    states: nat -> Store, inputs: nat -> Store)
    requires SameObservations(a.before, trace, m, PushTrace(a.origin, trace))
    requires forall t: nat :: Shown(design, properties, states(t), inputs(t), Observe(a.before, trace(t)))
    ensures Shows(design, properties, m, PushTrace(a.origin, trace), states, inputs)
  {
    hide Shown;
    hide Observe;
    hide PushTrace;
  }

  // ----- and every run is a simulation -----

  lemma PulledAgrees(mapping: seq<Value>, environment: Environment, s: Assignment, store: Store, ids: set<nat>)
    requires EnvironmentKnown(environment, |mapping|) && Agrees(s, Remapped(mapping, environment), store, ids)
    ensures Agrees(Pull(mapping, s), environment, store, ids)
  {
    forall id | id in ids
      ensures id in environment && BitsOf(Pull(mapping, s), environment[id]) == store[id]
    {
      assert id in Remapped(mapping, environment);
      BitsOfSubstituted(mapping, environment[id], s);
    }
  }

  lemma PulledInputs(design: Design, a: Assembly, trace: Trace, states: nat -> Store, inputs: nat -> Store)
    requires WordsKnown(a) && FollowsInputs(design, a, trace, states, inputs)
    ensures forall t: nat :: Agrees(PullTrace(a.mapping, trace)(t), a.model.inputs, inputs(t), InputIds(design))
    ensures Agrees(PullTrace(a.mapping, trace)(0), a.model.registers, states(0), RegisterIds(design))
  {
    hide Agrees;
    hide Remapped;
    hide InputIds;
    hide RegisterIds;
    forall t: nat
      ensures Agrees(PullTrace(a.mapping, trace)(t), a.model.inputs, inputs(t), InputIds(design))
    {
      PulledAgrees(a.mapping, a.model.inputs, trace(t), inputs(t), InputIds(design));
    }
    PulledAgrees(a.mapping, a.model.registers, trace(0), states(0), RegisterIds(design));
  }

  /** A run of the assembled machine shows, cycle by cycle, what the simulation of its
      inputs shows. */
  lemma RunIsSimulation(design: Design, properties: seq<Property>, a: Assembly, m: Machine, trace: Trace,
    states: nat -> Store, inputs: nat -> Store)
    requires Assembled(design, properties, a, m) && SoundDesign(design) && Run(m, trace)
    requires WordsKnown(a)
    requires ClearedSimulation(design, states, inputs) && FollowsInputs(design, a, trace, states, inputs)
    requires ShownIds(design, properties) <= ExposedIds(design)
    ensures ShowsCleared(design, properties, m, trace, states, inputs)
  {
    AssembledParts(design, properties, a, m);
    hide *;
    var pulled := PullTrace(a.mapping, trace);
    PulledInputs(design, a, trace, states, inputs);
    RenamingKeepsRuns(a.before, m, a.mapping, a.origin);
    assert Run(a.before, pulled) && SameObservations(m, trace, a.before, pulled);
    forall t: nat
      ensures ShownCleared(design, properties, states(t), inputs(t), Observe(m, trace(t)))
    {
      RunClears(design, a.before, a.model, pulled, states, inputs, t);
      ClearedObserved(design, properties, a, pulled(t), states(t), inputs(t));
      SameAt(m, trace, a.before, pulled, t);
    }
    ShowsAll(design, properties, m, trace, states, inputs);
  }

  lemma SameAt(m: Machine, trace: Trace, n: Machine, other: Trace, t: nat)
    requires SameObservations(m, trace, n, other)
    ensures Observe(m, trace(t)) == Observe(n, other(t))
  {
  }

  lemma ShowsAll(design: Design, properties: seq<Property>, m: Machine, trace: Trace, states: nat -> Store,
    inputs: nat -> Store)
    requires forall t: nat :: ShownCleared(design, properties, states(t), inputs(t), Observe(m, trace(t)))
    ensures ShowsCleared(design, properties, m, trace, states, inputs)
  {
    hide ShownCleared;
    hide Observe;
  }

  // ----- reset -----

  /** The model with the reset input applied: how the machine before it came about, and
      which variable was tied. */
  datatype ResetAssembly = ResetAssembly(
    a: Assembly,
    m: Machine,
    tied: nat,
    mapping: seq<Value>,
    origin: seq<Var>)

  ghost predicate ResetAssembled(design: Design, properties: seq<Property>, reset: nat, asserted: bool, b: ResetAssembly,
    n: Machine) {
    && Verified(b.m) && InRange(b.m) && Verified(n) && WordsKnown(b.a)
    && Assembled(design, properties, b.a, b.m)
    && b.tied < |b.m.variables| && b.m.variables[b.tied].InputDriver?
    && IsResetWord(b.a, reset, b.tied) && Simulator.AppliesReset(b.m, b.tied, asserted, n, b.mapping, b.origin)
  }

  ghost predicate IsResetWord(a: Assembly, reset: nat, tied: nat)
    requires WordsKnown(a)
  {
    reset in a.model.inputs && Remapped(a.mapping, a.model.inputs)[reset] == [Variable(Var(true, tied))]
  }

  /** Assembles the model and applies a reset input of one bit. */
  method AssembleWithReset(design: Design, properties: seq<Property>, reset: nat, asserted: bool)
    returns (fsm: FSM, ok: bool, ghost b: ResetAssembly)
    ensures fresh(fsm)
    ensures ok <==> Compiles(design) && Showable(design, properties) && IsBitInput(design, reset)
    ensures ok ==> ResetAssembled(design, properties, reset, asserted, b, fsm.Contents())
  {
    hide Compiles;
    hide Showable;
    hide Assembled;
    hide ConvertedTo;
    hide LaidOut;
    hide GateFree;
    hide HasStorage;
    hide InputIds;
    hide Verified;
    hide InRange;
    hide Simulator.AppliesReset;
    hide EnvironmentKnown;
    var model;
    ghost var a;
    fsm, model, a := AssembleModel(design, properties);
    ok, b := false, ResetAssembly(a, fsm.Contents(), 0, [], []);
    StoredReset(design, reset);
    if model == None {
      return;
    }
    AssembledVerified(design, properties, a, fsm.Contents());
    InputWord(design, properties, a, fsm.Contents(), reset);
    if reset !in model.value.inputs || |model.value.inputs[reset]| != 1 {
      return;
    }
    var tied := model.value.inputs[reset][0].v.index;
    ghost var m := fsm.Contents();
    var rebuilt, mapping;
    ghost var origin;
    rebuilt, mapping, origin := Simulator.ApplyReset(fsm, tied, asserted);
    b := ResetAssembly(a, m, tied, mapping, origin);
    fsm := rebuilt;
    ok := true;
  }

  predicate IsBitInput(design: Design, id: nat) {
    id in InputIds(design) && id < |design.widths| && design.widths[id] == 1
  }

  lemma StoredReset(design: Design, reset: nat)
    ensures IsBitInput(design, reset) ==> HasStorage(design)
  {
    if IsBitInput(design, reset) {
      assert reset in StartKeys(design);
    }
  }

  lemma AssembledVerified(design: Design, properties: seq<Property>, a: Assembly, m: Machine)
    requires Assembled(design, properties, a, m)
    ensures Verified(m) && InRange(m) && WordsKnown(a)
    ensures a.model.inputs.Keys == InputIds(design)
  {
    AssembledKnown(design, properties, a, m);
    WellDrivenInRange(m);
    InputsInRange(design, a.before.variables, a.model, a.inputStarts, a.starts);
  }

  /** Inputs stay inputs. */
  lemma InputWord(design: Design, properties: seq<Property>, a: Assembly, m: Machine, id: nat)
    requires Assembled(design, properties, a, m) && WordsKnown(a)
    ensures id in a.model.inputs ==>
      && id < |design.widths| && |Remapped(a.mapping, a.model.inputs)[id]| == design.widths[id]
      && forall k :: 0 <= k < design.widths[id] ==> IsInputBit(m, Remapped(a.mapping, a.model.inputs)[id][k])
  {
    hide Verified;
    hide InRange;
    hide SoundDesign;
    hide CycleClears;
    hide ShowsDesign;
    hide Accepted;
    if id in a.model.inputs {
      assert id < |design.widths| && a.model.inputs[id] == WordAt(a.inputStarts[id], design.widths[id]);
      forall k | 0 <= k < design.widths[id]
        ensures IsInputBit(m, Remapped(a.mapping, a.model.inputs)[id][k])
      {
        var i := a.inputStarts[id] + k;
        assert a.before.variables[i] == InputDriver && a.model.inputs[id][k] == Variable(Var(true, i));
        assert Translation.Moved(a.before.variables, m.variables, a.mapping, i);
        assert a.mapping[i] == Variable(Var(true, i));
      }
    }
  }

  /** Reset is asserted in the first cycle and inactive ever after. */
  ghost predicate ResetInputs(reset: nat, asserted: bool, inputs: nat -> Store) {
    && reset < |inputs(0)| && inputs(0)[reset] == [asserted]
    && forall t: nat :: t > 0 ==> reset < |inputs(t)| && inputs(t)[reset] == [!asserted]
  }

  /** The run after its first cycle shows the simulation after its first cycle. */
  ghost predicate ShowsLater(design: Design, properties: seq<Property>, n: Machine, trace: Trace, states: nat -> Store,
    inputs: nat -> Store) {
    Run(n, trace) && forall t: nat :: Shown(design, properties, states(t + 1), inputs(t + 1), Observe(n, trace(t)))
  }

  /** For every convertible design in which the reset cycle leaves no history register
      unknown: each simulation that begins with a reset cycle has a run of the machine with
      reset applied that shows, from its first cycle on, what the simulation shows after
      reset. */
  lemma ResetSimulationHasRun(design: Design, properties: seq<Property>, reset: nat, asserted: bool, b: ResetAssembly,
    n: Machine, states: nat -> Store, inputs: nat -> Store)
    requires ResetAssembled(design, properties, reset, asserted, b, n) && Convertible(design)
    requires Simulator.NoFallback(b.m, Simulator.AfterReset(b.m, b.tied, asserted))
    requires Simulation(design, states, inputs) && ResetInputs(reset, asserted, inputs)
    requires StartsReset(RegisterIds(design), design.widths, HistoryResets(design), states(0))
    requires ShownIds(design, properties) <= ObservedIds(design) && reset in InputIds(design)
    ensures exists trace :: ShowsLater(design, properties, n, trace, states, inputs)
  {
    ResetParts(design, properties, reset, asserted, b, n);
    hide *;
    SimulationHasRun(design, properties, b.a, b.m, states, inputs);
    var trace :| ShowsAsSimulated(design, properties, b.a, b.m, trace, states, inputs);
    ResetFollowed(design, properties, reset, asserted, b, trace, states, inputs);
    Simulator.ResetIsSound(b.m, b.tied, asserted, n, b.mapping, b.origin, trace);
    var later := PushTrace(b.origin, Simulator.Later(trace));
    LaterShown(design, properties, b.m, trace, n, later, states, inputs);
  }

  lemma ResetParts(design: Design, properties: seq<Property>, reset: nat, asserted: bool, b: ResetAssembly, n: Machine)
    requires ResetAssembled(design, properties, reset, asserted, b, n)
    ensures Verified(b.m) && InRange(b.m)
    ensures Assembled(design, properties, b.a, b.m) && WordsKnown(b.a)
    ensures b.tied < |b.m.variables| && b.m.variables[b.tied].InputDriver? && reset in b.a.model.inputs
    ensures Remapped(b.a.mapping, b.a.model.inputs)[reset] == [Variable(Var(true, b.tied))]
    ensures Simulator.AppliesReset(b.m, b.tied, asserted, n, b.mapping, b.origin)
  {
    hide Assembled;
    hide Simulator.AppliesReset;
    hide Verified;
    hide InRange;
  }

  lemma ResetFollowed(design: Design, properties: seq<Property>, reset: nat, asserted: bool, b: ResetAssembly,
    trace: Trace, states: nat -> Store, inputs: nat -> Store)
    requires WordsKnown(b.a) && ShowsAsSimulated(design, properties, b.a, b.m, trace, states, inputs)
    requires reset in b.a.model.inputs && reset in InputIds(design) && ResetInputs(reset, asserted, inputs)
    requires Remapped(b.a.mapping, b.a.model.inputs)[reset] == [Variable(Var(true, b.tied))]
    ensures Run(b.m, trace) && Shows(design, properties, b.m, trace, states, inputs)
    ensures Simulator.ResetRun(trace, b.tied, asserted)
  {
    hide Run;
    hide Shows;
    hide InputIds;
    hide Remapped;
    var word := Remapped(b.a.mapping, b.a.model.inputs)[reset];
    forall t: nat
      ensures [trace(t)(b.tied)] == inputs(t)[reset]
    {
      assert Agrees(trace(t), Remapped(b.a.mapping, b.a.model.inputs), inputs(t), InputIds(design));
      assert BitsOf(trace(t), word) == inputs(t)[reset];
      assert BitsOf(trace(t), word) == [Holds(trace(t), word[0])];
    }
    assert [trace(0)(b.tied)] == [asserted];
    forall t: nat | t > 0
      ensures trace(t)(b.tied) == !asserted
    {
      assert [trace(t)(b.tied)] == inputs(t)[reset] == [!asserted];
    }
  }

  lemma LaterShown(design: Design, properties: seq<Property>, m: Machine, trace: Trace, n: Machine, later: Trace,
    states: nat -> Store, inputs: nat -> Store)
    requires Run(n, later) && SameObservations(m, Simulator.Later(trace), n, later)
    requires Shows(design, properties, m, trace, states, inputs)
    ensures ShowsLater(design, properties, n, later, states, inputs)
  {
    hide Run;
    hide Shown;
    hide Observe;
    forall t: nat
      ensures Shown(design, properties, states(t + 1), inputs(t + 1), Observe(n, later(t)))
    {
      assert Observe(m, Simulator.Later(trace)(t)) == Observe(n, later(t));
      assert Simulator.Later(trace)(t) == trace(t + 1);
    }
  }
}
