/** A whole circuit as a state machine, cycle by cycle and over whole runs.

    The runs of the machine are exactly the runs of the circuit: nodes take their
    word-level meaning in every cycle and registers move from one cycle to the next. */
module CircuitModel {
  import opened Words
  import opened Fsm
  import opened Ops
  import opened Slices
  import opened WordStorage
  import opened CircuitLiterals
  import opened CircuitGraph
  import opened CircuitMeaning
  import opened CircuitLowering
  import Runtime = VerilogRuntime

  datatype PropertyKind = AssertProperty | AssumeProperty | CoverProperty

  datatype Property = Property(kind: PropertyKind, value: nat, enable: Option<nat>)

  /** A flattened circuit. `clockWiring` are the nodes that only carry the clock. */
  datatype Circuit = Circuit(
    graph: Graph, clock: nat, clockWiring: set<nat>, outputs: seq<nat>, properties: seq<Property>)

  predicate IsBit(graph: Graph, id: nat) {
    id < |graph| && graph[id].width == 1
  }

  predicate ValidCircuit(c: Circuit) {
    && ValidGraph(c.graph)
    && (forall k :: 0 <= k < |c.outputs| ==> c.outputs[k] < |c.graph|)
    && forall k :: 0 <= k < |c.properties| ==>
         && IsBit(c.graph, c.properties[k].value)
         && (c.properties[k].enable.Some? ==> IsBit(c.graph, c.properties[k].enable.value))
  }

  // ----- which nodes are what -----

  function InputNodes(c: Circuit): set<nat> {
    set id: nat | 0 <= id < |c.graph| && c.graph[id].driver.External? && id != c.clock
  }

  function UndefinedNodes(c: Circuit): set<nat> {
    set id: nat | 0 <= id < |c.graph| && c.graph[id].driver.Computed? && NeedsUndefined(c.graph[id].driver.operation)
  }

  function RegisterNodes(c: Circuit): set<nat> {
    set id: nat | 0 <= id < |c.graph| && c.graph[id].Register()
  }

  function NodeWidths(graph: Graph): (r: seq<nat>)
    ensures |r| == |graph|
  {
    seq(|graph|, id requires 0 <= id < |graph| => graph[id].width)
  }

  // ----- runs of a circuit -----

  type CircuitTrace = nat -> Valuation

  /** Words of the right width for inputs, registers and undefined results. */
  ghost predicate Proper(c: Circuit, v: Valuation) {
    && v.leaves.Keys == InputNodes(c) + RegisterNodes(c) && v.undefined.Keys == UndefinedNodes(c)
    && (forall id :: id in v.leaves ==> |v.leaves[id]| == c.graph[id].width)
    && (forall id :: id in v.undefined ==> |v.undefined[id]| == c.graph[id].width)
  }

  /** The initial value of a register, if it has one. */
  function PresetOf(node: Node): Option<Bits>
    requires node.Register()
  {
    match node.driver.operation.preset
    case None => None
    case Some(text) =>
      match LiteralValue(text)
      case None => None
      case Some(n) => Some(FromInt(n, node.width))
  }

  ghost predicate StartsPreset(c: Circuit, v: Valuation) {
    forall id :: id in RegisterNodes(c) && id in v.leaves && PresetOf(c.graph[id]).Some? ==>
      v.leaves[id] == PresetOf(c.graph[id]).value
  }

  ghost predicate CircuitSteps(c: Circuit, order: seq<nat>, v: Valuation, v': Valuation) {
    forall id :: id in RegisterNodes(c) && id in v'.leaves ==> v'.leaves[id] == NextMeaning(c.graph, order, v, id)
  }

  ghost predicate CircuitCycle(c: Circuit, order: seq<nat>, run: CircuitTrace, t: nat) {
    Proper(c, run(t)) && CircuitSteps(c, order, run(t), run(t + 1))
  }

  /** Inputs and undefined results are free; registers start at their presets and step. */
  ghost predicate CircuitRun(c: Circuit, order: seq<nat>, run: CircuitTrace) {
    StartsPreset(c, run(0)) && forall t: nat :: CircuitCycle(c, order, run, t)
  }

  // ----- what a circuit shows -----

  ghost function OutputBits(c: Circuit, order: seq<nat>, v: Valuation, outputs: seq<nat>): Bits {
    if outputs == [] then []
    else OutputBits(c, order, v, outputs[..|outputs| - 1]) + Meaning(c.graph, order, v, outputs[|outputs| - 1])
  }

  /** Asserts and assumes hold where they are not enabled; covers need to be enabled. */
  ghost function PropertyBit(c: Circuit, order: seq<nat>, v: Valuation, p: Property): bool {
    var value := Runtime.BitAt(Meaning(c.graph, order, v, p.value), 0);
    var enabled := p.enable.Some? ==> Runtime.BitAt(Meaning(c.graph, order, v, p.enable.value), 0);
    if p.kind == CoverProperty then enabled && value else enabled ==> value
  }

  ghost function PropertyBits(c: Circuit, order: seq<nat>, v: Valuation, properties: seq<Property>, kind: PropertyKind):
    Bits
  {
    if properties == [] then []
    else
      var last := properties[|properties| - 1];
      PropertyBits(c, order, v, properties[..|properties| - 1], kind) +
      if last.kind == kind then [PropertyBit(c, order, v, last)] else []
  }

  ghost function CircuitObservation(c: Circuit, order: seq<nat>, v: Valuation): Observation {
    Observation(OutputBits(c, order, v, c.outputs), PropertyBits(c, order, v, c.properties, AssertProperty),
      PropertyBits(c, order, v, c.properties, AssumeProperty), PropertyBits(c, order, v, c.properties, CoverProperty))
  }

  // ----- what the machine represents -----

  /** The words of inputs and registers, and of undefined results. */
  datatype Signals = Signals(leaves: WordMap, undefined: WordMap)

  function Values(signals: Signals, s: Assignment): Valuation {
    ValuationAt(s, signals.leaves, signals.undefined)
  }

  function ValuesTrace(signals: Signals, trace: Trace): CircuitTrace {
    (t: nat) => Values(signals, trace(t))
  }

  ghost predicate ShowsCircuit(c: Circuit, order: seq<nat>, m: Machine, signals: Signals, trace: Trace) {
    forall t: nat :: Observe(m, trace(t)) == CircuitObservation(c, order, Values(signals, trace(t)))
  }

  ghost predicate Tracks(signals: Signals, trace: Trace, run: CircuitTrace) {
    forall t: nat :: Values(signals, trace(t)) == run(t)
  }

  /** The machine has exactly the runs of the circuit. */
  ghost predicate Represents(c: Circuit, order: seq<nat>, m: Machine, signals: Signals) {
    && (forall trace :: Run(m, trace) ==>
          CircuitRun(c, order, ValuesTrace(signals, trace)) && ShowsCircuit(c, order, m, signals, trace))
    && (forall run :: CircuitRun(c, order, run) ==> exists trace :: Run(m, trace) && Tracks(signals, trace, run))
  }

  /** The words of inputs consist of input variables. */
  ghost predicate InputWords(c: Circuit, m: Machine, signals: Signals) {
    && signals.leaves.Keys == InputNodes(c) + RegisterNodes(c)
    && forall id :: id in InputNodes(c) ==>
         && |signals.leaves[id]| == c.graph[id].width
         && forall k :: 0 <= k < c.graph[id].width ==> IsInputBit(m, signals.leaves[id][k])
  }

  // ----- how the machine is put together -----

  function PresetResets(node: Node): seq<Option<bool>>
    requires node.Register()
  {
    match PresetOf(node)
    case None => []
    case Some(bits) => seq(|bits|, k requires 0 <= k < |bits| => Some(bits[k]))
  }

  /** Words of distinct variables, inputs except for registers. */
  ghost predicate Scattered(c: Circuit, variables: seq<Driver>, words: WordMap, starts: map<nat, nat>) {
    && words.Keys == starts.Keys
    && (forall id :: id in words ==>
          && id < |c.graph| && words[id] == WordAt(starts[id], c.graph[id].width)
          && starts[id] + c.graph[id].width <= |variables|)
    && (forall a, b :: a in words && b in words && a != b ==>
          starts[a] + c.graph[a].width <= starts[b] || starts[b] + c.graph[b].width <= starts[a])
    && (forall id, k :: id in words && id !in RegisterNodes(c) && starts[id] <= k < starts[id] + c.graph[id].width ==>
          variables[k].InputDriver?)
  }

  ghost predicate RegistersLatched(c: Circuit, variables: seq<Driver>, starts: map<nat, nat>, next: WordMap) {
    forall id :: id in RegisterNodes(c) ==>
      && id in starts && id in next && |next[id]| == c.graph[id].width
      && LatchesAt(variables, starts[id], next[id], PresetResets(c.graph[id]))
  }

  ghost predicate NextDenoted(c: Circuit, order: seq<nat>, variables: seq<Driver>, signals: Signals, next: WordMap) {
    forall s, id :: Settled(variables, s) && id in next && id in RegisterNodes(c) ==>
      BitsOf(s, next[id]) == NextMeaning(c.graph, order, Values(signals, s), id)
  }

  ghost predicate Assembled(c: Circuit, order: seq<nat>, m: Machine, signals: Signals, starts: map<nat, nat>,
    next: WordMap)
  {
    && Ordered(m.variables)
    && signals.leaves.Keys == InputNodes(c) + RegisterNodes(c) && signals.undefined.Keys == UndefinedNodes(c)
    && Scattered(c, m.variables, signals.leaves + signals.undefined, starts)
    && RegistersLatched(c, m.variables, starts, next)
    && NextDenoted(c, order, m.variables, signals, next)
    && forall s :: Settled(m.variables, s) ==> Observe(m, s) == CircuitObservation(c, order, Values(signals, s))
  }

  lemma KindsApart(c: Circuit)
    ensures (InputNodes(c) + RegisterNodes(c)) !! UndefinedNodes(c)
  {
  }

  lemma WordPlaced(c: Circuit, variables: seq<Driver>, signals: Signals, starts: map<nat, nat>, id: nat)
    requires Scattered(c, variables, signals.leaves + signals.undefined, starts)
    requires signals.leaves.Keys == InputNodes(c) + RegisterNodes(c) && signals.undefined.Keys == UndefinedNodes(c)
    requires id in signals.leaves || id in signals.undefined
    ensures id in starts && id < |c.graph| && starts[id] + c.graph[id].width <= |variables|
    ensures id in signals.leaves ==> signals.leaves[id] == WordAt(starts[id], c.graph[id].width)
    ensures id in signals.undefined ==> signals.undefined[id] == WordAt(starts[id], c.graph[id].width)
  {
    KindsApart(c);
    var words := signals.leaves + signals.undefined;
    assert id in words;
  }

  // ----- every run of the machine is a run of the circuit -----

  /** Each bit of a register is a latch of the bit of its next word. */
  lemma RegisterBit(c: Circuit, order: seq<nat>, m: Machine, signals: Signals, starts: map<nat, nat>, next: WordMap,
    id: nat, k: nat)
    requires Assembled(c, order, m, signals, starts, next) && id in RegisterNodes(c) && k < c.graph[id].width
    ensures id in starts && starts[id] + k < |m.variables| && m.variables[starts[id] + k].LatchDriver?
    ensures id in next && |next[id]| == c.graph[id].width
    ensures
      var latch := m.variables[starts[id] + k].latch;
      && latch.sign && latch.input == next[id][k]
      && latch.reset == match PresetOf(c.graph[id]) case None => None case Some(bits) => Some(bits[k])
  {
    hide Settled;
    hide Observe;
    hide FromInt;
    hide NextDenoted;
    WordPlaced(c, m.variables, signals, starts, id);
    assert m.variables[starts[id] + k] == LatchDriver(Latch(true, next[id][k], BitReset(PresetResets(c.graph[id]), k)));
  }

  lemma RegisterWord(c: Circuit, order: seq<nat>, m: Machine, signals: Signals, starts: map<nat, nat>, next: WordMap,
    id: nat)
    requires Assembled(c, order, m, signals, starts, next) && id in RegisterNodes(c)
    ensures id in starts && id in signals.leaves && signals.leaves[id] == WordAt(starts[id], c.graph[id].width)
    ensures id in next && |next[id]| == c.graph[id].width
  {
    hide Settled;
    hide Observe;
    hide NextDenoted;
    hide PresetResets;
    WordPlaced(c, m.variables, signals, starts, id);
  }

  lemma NextHolds(c: Circuit, order: seq<nat>, m: Machine, signals: Signals, starts: map<nat, nat>, next: WordMap,
    s: Assignment, id: nat)
    requires Assembled(c, order, m, signals, starts, next) && id in RegisterNodes(c) && id in next
    requires Settled(m.variables, s)
    ensures BitsOf(s, next[id]) == NextMeaning(c.graph, order, Values(signals, s), id)
  {
    hide Settled;
    hide Observe;
    hide NextMeaning;
    hide Scattered;
    hide RegistersLatched;
    hide Values;
  }

  lemma RegisterBitSteps(c: Circuit, order: seq<nat>, m: Machine, signals: Signals, starts: map<nat, nat>,
    next: WordMap, s: Assignment, s': Assignment, id: nat, k: nat)
    requires Assembled(c, order, m, signals, starts, next) && id in RegisterNodes(c) && k < c.graph[id].width
    requires Steps(m.variables, s, s')
    ensures id in starts && id in next && |next[id]| == c.graph[id].width
    ensures s'(starts[id] + k) == Holds(s, next[id][k])
  {
    hide Assembled;
    hide PresetOf;
    RegisterBit(c, order, m, signals, starts, next, id, k);
  }

  lemma RegisterSteps(c: Circuit, order: seq<nat>, m: Machine, signals: Signals, starts: map<nat, nat>, next: WordMap,
    s: Assignment, s': Assignment, id: nat)
    requires Assembled(c, order, m, signals, starts, next) && id in RegisterNodes(c)
    requires Settled(m.variables, s) && Steps(m.variables, s, s')
    ensures id in signals.leaves
    ensures BitsOf(s', signals.leaves[id]) == NextMeaning(c.graph, order, Values(signals, s), id)
  {
    hide Assembled;
    hide Settled;
    hide Steps;
    hide NextMeaning;
    hide Values;
    RegisterWord(c, order, m, signals, starts, next, id);
    NextHolds(c, order, m, signals, starts, next, s, id);
    forall k | 0 <= k < c.graph[id].width
      ensures Holds(s', signals.leaves[id][k]) == Holds(s, next[id][k])
    {
      RegisterBitSteps(c, order, m, signals, starts, next, s, s', id, k);
    }
  }

  lemma RegisterStarts(c: Circuit, order: seq<nat>, m: Machine, signals: Signals, starts: map<nat, nat>, next: WordMap,
    s: Assignment, id: nat)
    requires Assembled(c, order, m, signals, starts, next) && id in RegisterNodes(c)
    requires Initial(m.variables, s)
    ensures id in signals.leaves
    ensures PresetOf(c.graph[id]).Some? ==> BitsOf(s, signals.leaves[id]) == PresetOf(c.graph[id]).value
  {
    RegisterWord(c, order, m, signals, starts, next, id);
    hide Assembled;
    hide FromInt;
    if PresetOf(c.graph[id]).Some? {
      var bits := PresetOf(c.graph[id]).value;
      forall k | 0 <= k < c.graph[id].width
        ensures Holds(s, signals.leaves[id][k]) == bits[k]
      {
        RegisterBit(c, order, m, signals, starts, next, id, k);
      }
    }
  }

  lemma ValuesProper(c: Circuit, order: seq<nat>, m: Machine, signals: Signals, starts: map<nat, nat>, next: WordMap,
    s: Assignment)
    requires Assembled(c, order, m, signals, starts, next)
    ensures Proper(c, Values(signals, s))
  {
    hide Settled;
    hide Observe;
    forall id | id in signals.leaves || id in signals.undefined
      ensures id in signals.leaves ==> |signals.leaves[id]| == c.graph[id].width
      ensures id in signals.undefined ==> |signals.undefined[id]| == c.graph[id].width
    {
      WordPlaced(c, m.variables, signals, starts, id);
    }
  }

  lemma MachineRunsAreCircuitRuns(c: Circuit, order: seq<nat>, m: Machine, signals: Signals, starts: map<nat, nat>,
    next: WordMap, trace: Trace)
    requires Assembled(c, order, m, signals, starts, next) && Run(m, trace)
    ensures CircuitRun(c, order, ValuesTrace(signals, trace))
    ensures ShowsCircuit(c, order, m, signals, trace)
  {
    hide Settled;
    hide Steps;
    hide NextMeaning;
    hide Proper;
    hide CircuitObservation;
    hide Observe;
    var run := ValuesTrace(signals, trace);
    forall id | id in RegisterNodes(c)
      ensures id in signals.leaves
      ensures PresetOf(c.graph[id]).Some? ==> run(0).leaves[id] == PresetOf(c.graph[id]).value
    {
      RegisterStarts(c, order, m, signals, starts, next, trace(0), id);
    }
    forall t: nat
      ensures CircuitCycle(c, order, run, t)
      ensures Observe(m, trace(t)) == CircuitObservation(c, order, Values(signals, trace(t)))
    {
      assert Cycle(m.variables, trace, t);
      ValuesProper(c, order, m, signals, starts, next, trace(t));
      forall id | id in RegisterNodes(c)
        ensures id in signals.leaves && run(t + 1).leaves[id] == NextMeaning(c.graph, order, run(t), id)
      {
        RegisterSteps(c, order, m, signals, starts, next, trace(t), trace(t + 1), id);
      }
    }
  }

  // ----- every run of the circuit is a run of the machine -----

  /** The word of a node, whatever kind it is. */
  function WordOf(v: Valuation, id: nat): Bits {
    if id in v.leaves then v.leaves[id] else if id in v.undefined then v.undefined[id] else []
  }

  ghost predicate BitHere(starts: map<nat, nat>, v: Valuation, i: nat, id: nat) {
    id in starts && starts[id] <= i < starts[id] + |WordOf(v, id)|
  }

  /** The circuit's word that variable `i` is a bit of gives its value. */
  ghost function DriveBit(starts: map<nat, nat>, v: Valuation, i: nat): bool {
    if id: nat :| BitHere(starts, v, i, id) then WordOf(v, id)[i - starts[id]] else false
  }

  ghost function DriveTrace(starts: map<nat, nat>, run: CircuitTrace): Trace {
    (t: nat) => (i: nat) => DriveBit(starts, run(t), i)
  }

  lemma WordSized(c: Circuit, order: seq<nat>, m: Machine, signals: Signals, starts: map<nat, nat>, next: WordMap,
    v: Valuation, id: nat)
    requires Assembled(c, order, m, signals, starts, next) && Proper(c, v)
    requires id in starts || id in signals.leaves || id in signals.undefined
    ensures id in starts && id < |c.graph| && |WordOf(v, id)| == c.graph[id].width
  {
    hide Settled;
    hide Observe;
    hide RegistersLatched;
    hide NextDenoted;
    KindsApart(c);
    assert id in signals.leaves + signals.undefined;
    WordPlaced(c, m.variables, signals, starts, id);
  }

  /** No two words share a variable. */
  lemma WordsApart(c: Circuit, order: seq<nat>, m: Machine, signals: Signals, starts: map<nat, nat>, next: WordMap,
    a: nat, b: nat)
    requires Assembled(c, order, m, signals, starts, next) && a in starts && b in starts && a != b
    ensures a < |c.graph| && b < |c.graph|
    ensures starts[a] + c.graph[a].width <= starts[b] || starts[b] + c.graph[b].width <= starts[a]
  {
    hide Settled;
    hide Observe;
    hide RegistersLatched;
    hide NextDenoted;
    assert a in signals.leaves + signals.undefined && b in signals.leaves + signals.undefined;
  }

  lemma DrivenBit(c: Circuit, order: seq<nat>, m: Machine, signals: Signals, starts: map<nat, nat>, next: WordMap,
    v: Valuation, id: nat, k: nat)
    requires Assembled(c, order, m, signals, starts, next) && Proper(c, v)
    requires (id in signals.leaves || id in signals.undefined) && id < |c.graph| && k < c.graph[id].width
    ensures |WordOf(v, id)| == c.graph[id].width && id in starts
    ensures DriveBit(starts, v, starts[id] + k) == WordOf(v, id)[k]
  {
    hide Assembled;
    hide Proper;
    hide WordOf;
    WordSized(c, order, m, signals, starts, next, v, id);
    var i := starts[id] + k;
    assert BitHere(starts, v, i, id);
    forall other: nat | BitHere(starts, v, i, other)
      ensures other == id
    {
      WordSized(c, order, m, signals, starts, next, v, other);
      if other != id {
        WordsApart(c, order, m, signals, starts, next, id, other);
      }
    }
  }

  lemma InputBit(c: Circuit, order: seq<nat>, m: Machine, signals: Signals, starts: map<nat, nat>, next: WordMap,
    id: nat, k: nat)
    requires Assembled(c, order, m, signals, starts, next) && id !in RegisterNodes(c)
    requires (id in signals.leaves || id in signals.undefined) && k < c.graph[id].width
    ensures id in starts && starts[id] + k < |m.variables| && m.variables[starts[id] + k].InputDriver?
  {
    hide Settled;
    hide Observe;
    WordPlaced(c, m.variables, signals, starts, id);
    assert id in signals.leaves + signals.undefined;
  }

  lemma PresetHolds(c: Circuit, v: Valuation, id: nat)
    requires StartsPreset(c, v) && Proper(c, v) && id in RegisterNodes(c) && PresetOf(c.graph[id]).Some?
    ensures WordOf(v, id) == PresetOf(c.graph[id]).value
  {
  }

  /** One bit of the trajectory that a circuit run drives. */
  lemma BitTracked(c: Circuit, order: seq<nat>, m: Machine, signals: Signals, starts: map<nat, nat>, next: WordMap,
    run: CircuitTrace, t: nat, id: nat, k: nat)
    requires Assembled(c, order, m, signals, starts, next) && StartsPreset(c, run(0)) && Proper(c, run(t))
    requires (id in signals.leaves || id in signals.undefined) && id < |c.graph| && k < c.graph[id].width
    requires id in RegisterNodes(c) ==> t == 0
    ensures |WordOf(run(t), id)| == c.graph[id].width && id in starts
    ensures Trajectory(m.variables, DriveTrace(starts, run), t)(starts[id] + k) == WordOf(run(t), id)[k]
  {
    hide Assembled;
    hide Proper;
    hide StartsPreset;
    hide PresetOf;
    hide WordOf;
    hide DriveBit;
    hide Trajectory;
    AssembledOrdered(c, order, m, signals, starts, next);
    DrivenBit(c, order, m, signals, starts, next, run(t), id, k);
    hide Ordered;
    if id in RegisterNodes(c) {
      RegisterBit(c, order, m, signals, starts, next, id, k);
      if PresetOf(c.graph[id]).Some? {
        PresetHolds(c, run(0), id);
      }
    } else {
      InputBit(c, order, m, signals, starts, next, id, k);
    }
    TrajectoryDriven(m.variables, DriveTrace(starts, run), t, starts[id] + k);
  }

  lemma WordTracked(c: Circuit, order: seq<nat>, m: Machine, signals: Signals, starts: map<nat, nat>, next: WordMap,
    run: CircuitTrace, t: nat, id: nat)
    requires Assembled(c, order, m, signals, starts, next) && CircuitRun(c, order, run)
    requires id in signals.leaves || id in signals.undefined
    requires id in RegisterNodes(c) ==> t == 0
    ensures id in starts && id < |c.graph|
    ensures BitsOf(Trajectory(m.variables, DriveTrace(starts, run), t), WordAt(starts[id], c.graph[id].width)) ==
      WordOf(run(t), id)
  {
    hide Settled;
    hide NextMeaning;
    hide Observe;
    hide Trajectory;
    hide DriveTrace;
    hide Assembled;
    hide Proper;
    hide WordOf;
    assert CircuitCycle(c, order, run, t);
    WordSized(c, order, m, signals, starts, next, run(t), id);
    var word := BitsOf(Trajectory(m.variables, DriveTrace(starts, run), t), WordAt(starts[id], c.graph[id].width));
    forall k | 0 <= k < c.graph[id].width
      ensures word[k] == WordOf(run(t), id)[k]
    {
      BitTracked(c, order, m, signals, starts, next, run, t, id, k);
    }
  }

  /** The trajectory that a circuit run drives gives back the run. */
  lemma {:induction false} TrajectoryTracks(c: Circuit, order: seq<nat>, m: Machine, signals: Signals, starts: map<nat, nat>,
    next: WordMap, run: CircuitTrace, t: nat)
    requires Assembled(c, order, m, signals, starts, next) && CircuitRun(c, order, run)
    ensures Values(signals, Trajectory(m.variables, DriveTrace(starts, run), t)) == run(t)
  {
    hide Settled;
    hide Steps;
    hide NextMeaning;
    hide Observe;
    hide Trajectory;
    hide DriveTrace;
    hide Assembled;
    hide Values;
    hide WordAt;
    hide RegisterNodes;
    hide InputNodes;
    hide UndefinedNodes;
    hide CircuitSteps;
    hide Proper;
    hide WordOf;
    var drive := DriveTrace(starts, run);
    var s := Trajectory(m.variables, drive, t);
    assert CircuitCycle(c, order, run, t);
    AssembledOrdered(c, order, m, signals, starts, next);
    if t > 0 {
      assert CircuitCycle(c, order, run, t - 1);
      TrajectoryTracks(c, order, m, signals, starts, next, run, t - 1);
      EveryDriveHasRun(m, drive);
      assert Cycle(m.variables, TrajectoryTrace(m.variables, drive), t - 1);
    }
    forall id | id in signals.leaves || id in signals.undefined
      ensures BitsOf(s, SignalWord(signals, id)) == WordOf(run(t), id)
    {
      SignalPlaced(c, order, m, signals, starts, next, id);
      if id in RegisterNodes(c) && t > 0 {
        RegisterSteps(c, order, m, signals, starts, next, Trajectory(m.variables, drive, t - 1), s, id);
        RegisterMoves(c, order, run(t - 1), run(t), id);
      } else {
        WordTracked(c, order, m, signals, starts, next, run, t, id);
      }
    }
    SameValues(c, order, m, signals, starts, next, s, run(t));
  }

  function SignalWord(signals: Signals, id: nat): seq<Value> {
    if id in signals.leaves then signals.leaves[id]
    else if id in signals.undefined then signals.undefined[id] else []
  }

  lemma SignalPlaced(c: Circuit, order: seq<nat>, m: Machine, signals: Signals, starts: map<nat, nat>, next: WordMap,
    id: nat)
    requires Assembled(c, order, m, signals, starts, next) && (id in signals.leaves || id in signals.undefined)
    ensures id in starts && id < |c.graph| && SignalWord(signals, id) == WordAt(starts[id], c.graph[id].width)
  {
    hide Settled;
    hide Observe;
    WordPlaced(c, m.variables, signals, starts, id);
  }

  lemma RegisterMoves(c: Circuit, order: seq<nat>, v: Valuation, v': Valuation, id: nat)
    requires CircuitSteps(c, order, v, v') && Proper(c, v') && id in RegisterNodes(c)
    ensures WordOf(v', id) == NextMeaning(c.graph, order, v, id)
  {
    hide NextMeaning;
  }

  lemma SignalKeys(c: Circuit, order: seq<nat>, m: Machine, signals: Signals, starts: map<nat, nat>, next: WordMap,
    v: Valuation)
    requires Assembled(c, order, m, signals, starts, next) && Proper(c, v)
    ensures signals.leaves.Keys == v.leaves.Keys && signals.undefined.Keys == v.undefined.Keys
    ensures signals.leaves.Keys !! signals.undefined.Keys
  {
    hide Scattered;
    hide RegistersLatched;
    hide NextDenoted;
    hide Settled;
    hide Observe;
    KindsApart(c);
  }

  lemma SameValues(c: Circuit, order: seq<nat>, m: Machine, signals: Signals, starts: map<nat, nat>, next: WordMap,
    s: Assignment, v: Valuation)
    requires Assembled(c, order, m, signals, starts, next) && Proper(c, v)
    requires forall id :: id in signals.leaves || id in signals.undefined ==>
      BitsOf(s, SignalWord(signals, id)) == WordOf(v, id)
    ensures Values(signals, s) == v
  {
    SignalKeys(c, order, m, signals, starts, next, v);
    hide Assembled;
    hide Proper;
    hide BitsOf;
    forall id | id in signals.leaves
      ensures BitsOf(s, signals.leaves[id]) == v.leaves[id]
    {
      assert BitsOf(s, SignalWord(signals, id)) == WordOf(v, id);
    }
    forall id | id in signals.undefined
      ensures BitsOf(s, signals.undefined[id]) == v.undefined[id]
    {
      assert BitsOf(s, SignalWord(signals, id)) == WordOf(v, id);
    }
    SameMaps(signals, s, v);
  }

  lemma SameMaps(signals: Signals, s: Assignment, v: Valuation)
    requires signals.leaves.Keys == v.leaves.Keys && signals.undefined.Keys == v.undefined.Keys
    requires forall id :: id in signals.leaves ==> BitsOf(s, signals.leaves[id]) == v.leaves[id]
    requires forall id :: id in signals.undefined ==> BitsOf(s, signals.undefined[id]) == v.undefined[id]
    ensures Values(signals, s) == v
  {
    hide BitsOf;
    assert Values(signals, s).leaves == v.leaves;
    assert Values(signals, s).undefined == v.undefined;
  }

  /** An assembled machine has exactly the runs of its circuit. */
  lemma AssembledRepresents(c: Circuit, order: seq<nat>, m: Machine, signals: Signals, starts: map<nat, nat>,
    next: WordMap)
    requires Assembled(c, order, m, signals, starts, next)
    ensures Represents(c, order, m, signals)
  {
    hide Assembled;
    hide CircuitRun;
    hide ShowsCircuit;
    hide Run;
    forall trace | Run(m, trace)
      ensures CircuitRun(c, order, ValuesTrace(signals, trace)) && ShowsCircuit(c, order, m, signals, trace)
    {
      MachineRunsAreCircuitRuns(c, order, m, signals, starts, next, trace);
    }
    forall run | CircuitRun(c, order, run)
      ensures exists trace :: Run(m, trace) && Tracks(signals, trace, run)
    {
      CircuitRunDriven(c, order, m, signals, starts, next, run);
    }
  }

  lemma CircuitRunDriven(c: Circuit, order: seq<nat>, m: Machine, signals: Signals, starts: map<nat, nat>,
    next: WordMap, run: CircuitTrace)
    requires Assembled(c, order, m, signals, starts, next) && CircuitRun(c, order, run)
    ensures Run(m, TrajectoryTrace(m.variables, DriveTrace(starts, run)))
    ensures Tracks(signals, TrajectoryTrace(m.variables, DriveTrace(starts, run)), run)
  {
    hide Assembled;
    hide CircuitRun;
    hide Run;
    hide Trajectory;
    hide DriveTrace;
    hide Values;
    var trace := TrajectoryTrace(m.variables, DriveTrace(starts, run));
    AssembledOrdered(c, order, m, signals, starts, next);
    EveryDriveHasRun(m, DriveTrace(starts, run));
    forall t: nat
      ensures Values(signals, trace(t)) == run(t)
    {
      TrajectoryTracks(c, order, m, signals, starts, next, run, t);
    }
  }

  lemma AssembledOrdered(c: Circuit, order: seq<nat>, m: Machine, signals: Signals, starts: map<nat, nat>,
    next: WordMap)
    requires Assembled(c, order, m, signals, starts, next)
    ensures Ordered(m.variables)
  {
    hide Ordered;
    hide Observe;
  }

  lemma AssembledInputs(c: Circuit, order: seq<nat>, m: Machine, signals: Signals, starts: map<nat, nat>, next: WordMap)
    requires Assembled(c, order, m, signals, starts, next)
    ensures InputWords(c, m, signals)
  {
    hide Settled;
    hide Observe;
    hide RegistersLatched;
    hide NextDenoted;
    hide Ordered;
    forall id | id in InputNodes(c)
      ensures id in signals.leaves && |signals.leaves[id]| == c.graph[id].width
      ensures forall k :: 0 <= k < c.graph[id].width ==> IsInputBit(m, signals.leaves[id][k])
    {
      WordPlaced(c, m.variables, signals, starts, id);
      assert id in signals.leaves + signals.undefined && id !in RegisterNodes(c);
    }
  }

  // ----- assembling the machine -----

  /** A lowering that is ready for more. */
  ghost predicate Ready(l: Lowering)
    reads l, l.fsm`variables
  {
    l.Sane() && Ordered(l.fsm.variables) && Faithful(l.fsm.variables, l.graph, l.order, l.leaves, l.undefined, l.values)
  }

  ghost predicate For(l: Lowering, c: Circuit, order: seq<nat>, signals: Signals)
    reads l
  {
    && l.graph == c.graph && l.order == order && l.leaves == signals.leaves && l.undefined == signals.undefined
    && l.clockWiring == c.clockWiring && l.leaves.Keys == InputNodes(c) + RegisterNodes(c)
  }

  // ----- which circuits convert -----

  ghost predicate NodeLowers(c: Circuit, order: seq<nat>, id: nat) {
    Lowers(c.graph, order, InputNodes(c) + RegisterNodes(c), c.clockWiring, id)
  }

  /** A register's operands lower and its preset parses. */
  ghost predicate RegisterConverts(c: Circuit, order: seq<nat>, id: nat)
    requires id < |c.graph| && c.graph[id].Register()
  {
    && NextLowers(c.graph, order, InputNodes(c) + RegisterNodes(c), c.clockWiring, id)
    && (c.graph[id].driver.operation.preset.Some? ==> LiteralValue(c.graph[id].driver.operation.preset.value).Some?)
  }

  ghost predicate PropertyConverts(c: Circuit, order: seq<nat>, p: Property) {
    NodeLowers(c, order, p.value) && (p.enable.Some? ==> NodeLowers(c, order, p.enable.value))
  }

  /** No node, register, output or property needs a value that the clock or an unparsable
      constant would have to give. */
  ghost predicate CircuitConverts(c: Circuit, order: seq<nat>) {
    && (forall id :: 0 <= id < |c.graph| && id !in c.clockWiring ==> NodeLowers(c, order, id))
    && (forall id :: 0 <= id < |c.graph| && c.graph[id].Register() ==> RegisterConverts(c, order, id))
    && (forall k :: 0 <= k < |c.outputs| ==> NodeLowers(c, order, c.outputs[k]))
    && (forall k :: 0 <= k < |c.properties| ==> PropertyConverts(c, order, c.properties[k]))
  }

  /** The word of a node, lowered if it is not yet. */
  method LowerNode(l: Lowering, c: Circuit, ghost order: seq<nat>, ghost signals: Signals, id: nat)
    returns (r: Option<seq<Value>>)
    requires Ready(l) && For(l, c, order, signals) && id < |c.graph|
    modifies l`values, l.fsm`variables
    ensures Ready(l) && For(l, c, order, signals) && Extended(old(l.fsm.variables), l.fsm.variables)
    ensures r.Some? <==> NodeLowers(c, order, id)
    ensures r.Some? ==> |r.value| == c.graph[id].width && AllKnown(r.value, |l.fsm.variables|)
    ensures r.Some? ==> forall s :: Settled(l.fsm.variables, s) ==>
      BitsOf(s, r.value) == Meaning(c.graph, order, Values(signals, s), id)
  {
    hide Faithful;
    hide Settled;
    hide LoweringContext;
    hide MemoValid;
    hide Lowers;
    r := l.Lower(id);
    if r.Some? {
      MemoWord(l.graph, l.leaves, l.values, |l.fsm.variables|, id);
      forall s | Settled(l.fsm.variables, s)
        ensures BitsOf(s, r.value) == Meaning(c.graph, order, Values(signals, s), id)
      {
        MemoMeaning(l.fsm.variables, l.graph, l.order, l.leaves, l.undefined, l.values, s, id);
      }
    }
  }

  /** Lowers every node that carries data. */
  method LowerAll(l: Lowering, c: Circuit, ghost order: seq<nat>, ghost signals: Signals) returns (ok: bool)
    requires Ready(l) && For(l, c, order, signals)
    modifies l`values, l.fsm`variables
    ensures Ready(l) && For(l, c, order, signals) && Extended(old(l.fsm.variables), l.fsm.variables)
    ensures ok <==> forall id :: 0 <= id < |c.graph| && id !in c.clockWiring ==> NodeLowers(c, order, id)
  {
    hide Faithful;
    hide Settled;
    hide LoweringContext;
    hide MemoValid;
    hide NodeLowers;
    for id := 0 to |c.graph|
      invariant Ready(l) && For(l, c, order, signals) && Extended(old(l.fsm.variables), l.fsm.variables)
      invariant forall k :: 0 <= k < id && k !in c.clockWiring ==> NodeLowers(c, order, k)
    {
      ghost var before := l.fsm.variables;
      if id !in c.clockWiring {
        var word := LowerNode(l, c, order, signals, id);
        if word == None {
          return false;
        }
        GrowsTwice(old(l.fsm.variables), before, l.fsm.variables);
      }
    }
    ok := true;
  }

  ghost predicate NextReady(c: Circuit, order: seq<nat>, variables: seq<Driver>, signals: Signals, next: WordMap,
    resets: map<nat, seq<Option<bool>>>, limit: nat)
  {
    && (forall id :: id in RegisterNodes(c) && id < limit ==>
          && id in next && |next[id]| == c.graph[id].width && AllKnown(next[id], |variables|)
          && ResetWord(resets, id) == PresetResets(c.graph[id]))
    && NextDenoted(c, order, variables, signals, next)
  }

  lemma NextReadyGrows(c: Circuit, order: seq<nat>, before: seq<Driver>, after: seq<Driver>, signals: Signals,
    next: WordMap, resets: map<nat, seq<Option<bool>>>, limit: nat)
    requires NextReady(c, order, before, signals, next, resets, limit) && |before| <= |after|
    requires forall s :: Settled(after, s) ==> Settled(before, s)
    ensures NextReady(c, order, after, signals, next, resets, limit)
  {
    hide Settled;
    hide NextMeaning;
    hide PresetResets;
  }

  lemma NextReadyMore(c: Circuit, order: seq<nat>, variables: seq<Driver>, signals: Signals, next: WordMap,
    resets: map<nat, seq<Option<bool>>>, id: nat, word: seq<Value>, reset: seq<Option<bool>>)
    requires NextReady(c, order, variables, signals, next, resets, id)
    requires id in RegisterNodes(c) && |word| == c.graph[id].width && AllKnown(word, |variables|)
    requires reset == PresetResets(c.graph[id])
    requires forall s :: Settled(variables, s) ==> BitsOf(s, word) == NextMeaning(c.graph, order, Values(signals, s), id)
    ensures NextReady(c, order, variables, signals, next[id := word], resets[id := reset], id + 1)
  {
    hide Settled;
    hide NextMeaning;
    hide PresetResets;
    hide Values;
  }

  /** The reset values of a register; none when its preset does not parse. */
  method PresetBits(node: Node) returns (r: Option<seq<Option<bool>>>)
    requires node.Register()
    ensures r.Some? ==> r.value == PresetResets(node)
    ensures r == None <==> node.driver.operation.preset.Some? && LiteralValue(node.driver.operation.preset.value) == None
  {
    hide FromInt;
    hide LiteralValue;
    match node.driver.operation.preset {
      case None => r := Some([]);
      case Some(text) =>
        var bits := ParseConstant(text, node.width);
        if bits == None {
          return None;
        }
        var word := bits.value;
        r := Some(seq(|word|, k requires 0 <= k < |word| => Some(word[k])));
    }
  }

  /** Next words and reset values of all registers. */
  method NextWords(l: Lowering, c: Circuit, ghost order: seq<nat>, ghost signals: Signals)
    returns (r: Option<(WordMap, map<nat, seq<Option<bool>>>)>)
    requires Ready(l) && For(l, c, order, signals)
    modifies l`values, l.fsm`variables
    ensures Ready(l) && For(l, c, order, signals) && Extended(old(l.fsm.variables), l.fsm.variables)
    ensures r.Some? <==>
      forall id :: 0 <= id < |c.graph| && c.graph[id].Register() ==> RegisterConverts(c, order, id)
    ensures r.Some? ==> NextReady(c, order, l.fsm.variables, signals, r.value.0, r.value.1, |c.graph|)
  {
    hide Faithful;
    hide Settled;
    hide LoweringContext;
    hide MemoValid;
    hide NextReady;
    hide PresetResets;
    hide NextMeaning;
    hide NextLowers;
    hide LiteralValue;
    var next: WordMap, resets: map<nat, seq<Option<bool>>> := map[], map[];
    NothingNext(c, order, l.fsm.variables, signals);
    for id := 0 to |c.graph|
      invariant Ready(l) && For(l, c, order, signals) && Extended(old(l.fsm.variables), l.fsm.variables)
      invariant NextReady(c, order, l.fsm.variables, signals, next, resets, id)
      invariant forall k :: 0 <= k < id && c.graph[k].Register() ==> RegisterConverts(c, order, k)
    {
      ghost var before := l.fsm.variables;
      if c.graph[id].Register() {
        var word := l.RegisterNext(id);
        var reset := PresetBits(c.graph[id]);
        GrowsTwice(old(l.fsm.variables), before, l.fsm.variables);
        if word == None || reset == None {
          return None;
        }
        NextReadyGrows(c, order, before, l.fsm.variables, signals, next, resets, id);
        NextReadyMore(c, order, l.fsm.variables, signals, next, resets, id, word.value, reset.value);
        next := next[id := word.value];
        resets := resets[id := reset.value];
      } else {
        NextReadySkip(c, order, l.fsm.variables, signals, next, resets, id);
      }
    }
    r := Some((next, resets));
  }

  lemma NothingNext(c: Circuit, order: seq<nat>, variables: seq<Driver>, signals: Signals)
    ensures NextReady(c, order, variables, signals, map[], map[], 0)
  {
  }

  lemma NextReadySkip(c: Circuit, order: seq<nat>, variables: seq<Driver>, signals: Signals, next: WordMap,
    resets: map<nat, seq<Option<bool>>>, id: nat)
    requires NextReady(c, order, variables, signals, next, resets, id) && id !in RegisterNodes(c)
    ensures NextReady(c, order, variables, signals, next, resets, id + 1)
  {
    hide NextDenoted;
  }

  // ----- outputs and properties -----

  ghost predicate OutputsDenoted(c: Circuit, order: seq<nat>, variables: seq<Driver>, signals: Signals,
    values: seq<Value>, outputs: seq<nat>)
  {
    forall s :: Settled(variables, s) ==> BitsOf(s, values) == OutputBits(c, order, Values(signals, s), outputs)
  }

  lemma OneMoreOutput(c: Circuit, order: seq<nat>, before: seq<Driver>, after: seq<Driver>, signals: Signals,
    values: seq<Value>, k: nat, word: seq<Value>)
    requires k < |c.outputs| && OutputsDenoted(c, order, before, signals, values, c.outputs[..k]) && Grows(before, after)
    requires forall s :: Settled(after, s) ==>
      BitsOf(s, word) == Meaning(c.graph, order, Values(signals, s), c.outputs[k])
    ensures OutputsDenoted(c, order, after, signals, values + word, c.outputs[..k + 1])
  {
    hide Settled;
    hide Meaning;
    hide Values;
    assert c.outputs[..k + 1][..k] == c.outputs[..k];
    forall s | Settled(after, s)
      ensures BitsOf(s, values + word) == OutputBits(c, order, Values(signals, s), c.outputs[..k + 1])
    {
      AppendBits(s, values, word);
    }
  }

  method AddOutputs(l: Lowering, c: Circuit, ghost order: seq<nat>, ghost signals: Signals) returns (ok: bool)
    requires Ready(l) && For(l, c, order, signals) && ValidCircuit(c) && l.fsm.outputs == []
    modifies l`values, l.fsm`variables, l.fsm`outputs
    ensures Ready(l) && For(l, c, order, signals) && Extended(old(l.fsm.variables), l.fsm.variables)
    ensures ok <==> forall k :: 0 <= k < |c.outputs| ==> NodeLowers(c, order, c.outputs[k])
    ensures ok ==> OutputsDenoted(c, order, l.fsm.variables, signals, l.fsm.outputs, c.outputs)
    ensures ok ==> AllKnown(l.fsm.outputs, |l.fsm.variables|)
  {
    hide Faithful;
    hide Settled;
    hide LoweringContext;
    hide MemoValid;
    hide Meaning;
    hide ValidGraph;
    hide Values;
    hide OutputsDenoted;
    hide NodeLowers;
    NoOutputs(c, order, l.fsm.variables, signals);
    for k := 0 to |c.outputs|
      invariant Ready(l) && For(l, c, order, signals) && Extended(old(l.fsm.variables), l.fsm.variables)
      invariant OutputsDenoted(c, order, l.fsm.variables, signals, l.fsm.outputs, c.outputs[..k])
      invariant AllKnown(l.fsm.outputs, |l.fsm.variables|)
      invariant forall j :: 0 <= j < k ==> NodeLowers(c, order, c.outputs[j])
    {
      ghost var before, values := l.fsm.variables, l.fsm.outputs;
      var word := LowerNode(l, c, order, signals, c.outputs[k]);
      GrowsTwice(old(l.fsm.variables), before, l.fsm.variables);
      if word == None {
        return false;
      }
      AddWordOutputs(l.fsm, word.value);
      OneMoreOutput(c, order, before, l.fsm.variables, signals, values, k, word.value);
    }
    assert c.outputs[..|c.outputs|] == c.outputs;
    ok := true;
  }

  lemma NoOutputs(c: Circuit, order: seq<nat>, variables: seq<Driver>, signals: Signals)
    ensures OutputsDenoted(c, order, variables, signals, [], c.outputs[..0])
  {
    assert forall s :: BitsOf(s, []) == [];
  }

  /** The gate of a property: its value where it is enabled. */
  method LowerProperty(l: Lowering, c: Circuit, ghost order: seq<nat>, ghost signals: Signals, p: Property)
    returns (r: Option<Value>)
    requires Ready(l) && For(l, c, order, signals)
    requires IsBit(c.graph, p.value) && (p.enable.Some? ==> IsBit(c.graph, p.enable.value))
    modifies l`values, l.fsm`variables
    ensures Ready(l) && For(l, c, order, signals) && Extended(old(l.fsm.variables), l.fsm.variables)
    ensures r.Some? <==> PropertyConverts(c, order, p)
    ensures r.Some? ==> r.value.Known(|l.fsm.variables|)
    ensures r.Some? ==> forall s :: Settled(l.fsm.variables, s) ==>
      Holds(s, r.value) == PropertyBit(c, order, Values(signals, s), p)
  {
    hide Faithful;
    hide Settled;
    hide LoweringContext;
    hide MemoValid;
    hide Meaning;
    hide Values;
    hide NodeLowers;
    ghost var v0 := l.fsm.variables;
    var word := LowerNode(l, c, order, signals, p.value);
    ghost var v1 := l.fsm.variables;
    if word == None {
      return None;
    }
    var value := word.value[0];
    var enable := Constant(true);
    if p.enable.Some? {
      var given := LowerNode(l, c, order, signals, p.enable.value);
      GrowsTwice(v0, v1, l.fsm.variables);
      if given == None {
        return None;
      }
      enable := given.value[0];
      BitsDenoted(l.fsm.variables, c, order, signals, given.value, p.enable.value);
    }
    ghost var v2 := l.fsm.variables;
    BitsDenoted(v2, c, order, signals, word.value, p.value);
    var inputs := if p.kind == CoverProperty then [enable, value] else [enable.Negate(), value];
    var gate := l.fsm.AddVariableGate(if p.kind == CoverProperty then And else Or, inputs);
    GrowsTwice(v0, v2, l.fsm.variables);
    FaithfulLater(v2, l.fsm.variables, l.graph, l.order, l.leaves, l.undefined, l.values);
    StillSane(l.graph, l.order, l.leaves, l.undefined, l.values, |v2|, |l.fsm.variables|);
    forall s | Settled(l.fsm.variables, s)
      ensures Holds(s, gate) == PropertyBit(c, order, Values(signals, s), p)
    {
      assert Settled(v2, s);
      PropertyGate(s, inputs, enable, value, p.kind);
    }
    r := Some(gate);
  }

  lemma BitsDenoted(variables: seq<Driver>, c: Circuit, order: seq<nat>, signals: Signals, word: seq<Value>, id: nat)
    requires |word| == 1
    requires forall s :: Settled(variables, s) ==> BitsOf(s, word) == Meaning(c.graph, order, Values(signals, s), id)
    ensures forall s :: Settled(variables, s) ==>
      Holds(s, word[0]) == Runtime.BitAt(Meaning(c.graph, order, Values(signals, s), id), 0)
  {
    hide Settled;
    hide Meaning;
    hide Values;
    forall s | Settled(variables, s)
      ensures Holds(s, word[0]) == Runtime.BitAt(Meaning(c.graph, order, Values(signals, s), id), 0)
    {
      assert BitsOf(s, word)[0] == Holds(s, word[0]);
    }
  }

  lemma PropertyGate(s: Assignment, inputs: seq<Value>, enable: Value, value: Value, kind: PropertyKind)
    requires inputs == if kind == CoverProperty then [enable, value] else [enable.Negate(), value]
    ensures Combined(if kind == CoverProperty then And else Or, BitsOf(s, inputs)) ==
      if kind == CoverProperty then Holds(s, enable) && Holds(s, value) else Holds(s, enable) ==> Holds(s, value)
  {
    NegateHolds(s, enable);
    var bits := BitsOf(s, inputs);
    assert |bits| == 2 && bits[0] == Holds(s, inputs[0]) && bits[1] == Holds(s, inputs[1]);
  }

  ghost predicate PropertiesDenoted(c: Circuit, order: seq<nat>, variables: seq<Driver>, signals: Signals,
    values: seq<Value>, properties: seq<Property>, kind: PropertyKind)
  {
    forall s :: Settled(variables, s) ==>
      BitsOf(s, values) == PropertyBits(c, order, Values(signals, s), properties, kind)
  }

  lemma OneMoreProperty(c: Circuit, order: seq<nat>, before: seq<Driver>, after: seq<Driver>, signals: Signals,
    values: seq<Value>, k: nat, value: Value, kind: PropertyKind)
    requires k < |c.properties| && Grows(before, after)
    requires PropertiesDenoted(c, order, before, signals, values, c.properties[..k], kind)
    requires forall s :: Settled(after, s) ==>
      Holds(s, value) == PropertyBit(c, order, Values(signals, s), c.properties[k])
    ensures PropertiesDenoted(c, order, after, signals, if c.properties[k].kind == kind then values + [value] else values,
      c.properties[..k + 1], kind)
  {
    hide Settled;
    hide PropertyBit;
    hide Values;
    assert c.properties[..k + 1][..k] == c.properties[..k];
    forall s | Settled(after, s)
      ensures BitsOf(s, if c.properties[k].kind == kind then values + [value] else values) ==
        PropertyBits(c, order, Values(signals, s), c.properties[..k + 1], kind)
    {
      AppendBits(s, values, [value]);
      assert BitsOf(s, [value]) == [Holds(s, value)];
      NothingMore(PropertyBits(c, order, Values(signals, s), c.properties[..k], kind));
    }
  }

  lemma NothingMore(b: Bits)
    ensures b + [] == b
  {
  }

  lemma NoProperties(c: Circuit, order: seq<nat>, variables: seq<Driver>, signals: Signals, kind: PropertyKind)
    ensures PropertiesDenoted(c, order, variables, signals, [], c.properties[..0], kind)
  {
    assert forall s :: BitsOf(s, []) == [];
  }

  lemma OutputsLater(c: Circuit, order: seq<nat>, before: seq<Driver>, after: seq<Driver>, signals: Signals,
    values: seq<Value>)
    requires OutputsDenoted(c, order, before, signals, values, c.outputs) && Grows(before, after)
    ensures OutputsDenoted(c, order, after, signals, values, c.outputs)
  {
    hide Settled;
    hide OutputBits;
    hide Values;
  }

  ghost predicate PropertiesKnown(asserts: seq<Value>, assumes: seq<Value>, covers: seq<Value>, limit: nat) {
    AllKnown(asserts, limit) && AllKnown(assumes, limit) && AllKnown(covers, limit)
  }

  method AddProperties(l: Lowering, c: Circuit, ghost order: seq<nat>, ghost signals: Signals) returns (ok: bool)
    requires Ready(l) && For(l, c, order, signals) && ValidCircuit(c)
    requires l.fsm.asserts == [] && l.fsm.assumes == [] && l.fsm.covers == []
    modifies l`values, l.fsm`variables, l.fsm`asserts, l.fsm`assumes, l.fsm`covers
    ensures Ready(l) && For(l, c, order, signals) && Extended(old(l.fsm.variables), l.fsm.variables)
    ensures ok <==> forall k :: 0 <= k < |c.properties| ==> PropertyConverts(c, order, c.properties[k])
    ensures ok ==>
      && PropertiesDenoted(c, order, l.fsm.variables, signals, l.fsm.asserts, c.properties, AssertProperty)
      && PropertiesDenoted(c, order, l.fsm.variables, signals, l.fsm.assumes, c.properties, AssumeProperty)
      && PropertiesDenoted(c, order, l.fsm.variables, signals, l.fsm.covers, c.properties, CoverProperty)
    ensures ok ==> PropertiesKnown(l.fsm.asserts, l.fsm.assumes, l.fsm.covers, |l.fsm.variables|)
  {
    hide Faithful;
    hide Settled;
    hide LoweringContext;
    hide MemoValid;
    hide Meaning;
    hide ValidGraph;
    hide Values;
    hide PropertyBit;
    hide PropertiesDenoted;
    hide PropertyConverts;
    NoProperties(c, order, l.fsm.variables, signals, AssertProperty);
    NoProperties(c, order, l.fsm.variables, signals, AssumeProperty);
    NoProperties(c, order, l.fsm.variables, signals, CoverProperty);
    for k := 0 to |c.properties|
      invariant Ready(l) && For(l, c, order, signals) && Extended(old(l.fsm.variables), l.fsm.variables)
      invariant PropertiesDenoted(c, order, l.fsm.variables, signals, l.fsm.asserts, c.properties[..k], AssertProperty)
      invariant PropertiesDenoted(c, order, l.fsm.variables, signals, l.fsm.assumes, c.properties[..k], AssumeProperty)
      invariant PropertiesDenoted(c, order, l.fsm.variables, signals, l.fsm.covers, c.properties[..k], CoverProperty)
      invariant forall j :: 0 <= j < k ==> PropertyConverts(c, order, c.properties[j])
      invariant PropertiesKnown(l.fsm.asserts, l.fsm.assumes, l.fsm.covers, |l.fsm.variables|)
    {
      ghost var before, asserts, assumes, covers := l.fsm.variables, l.fsm.asserts, l.fsm.assumes, l.fsm.covers;
      var value := LowerProperty(l, c, order, signals, c.properties[k]);
      GrowsTwice(old(l.fsm.variables), before, l.fsm.variables);
      if value == None {
        return false;
      }
      OneMoreProperty(c, order, before, l.fsm.variables, signals, asserts, k, value.value, AssertProperty);
      OneMoreProperty(c, order, before, l.fsm.variables, signals, assumes, k, value.value, AssumeProperty);
      OneMoreProperty(c, order, before, l.fsm.variables, signals, covers, k, value.value, CoverProperty);
      match c.properties[k].kind {
        case AssertProperty => l.fsm.AddAssert(value.value);
        case AssumeProperty => l.fsm.AddAssume(value.value);
        case CoverProperty => l.fsm.AddCover(value.value);
      }
    }
    assert c.properties[..|c.properties|] == c.properties;
    ok := true;
  }

  // ----- the whole conversion -----

  /** The words created for a circuit and where their variables are. */
  ghost predicate WordsPlaced(c: Circuit, variables: seq<Driver>, inputs: WordMap, inputStarts: map<nat, nat>,
    undefined: WordMap, undefinedStarts: map<nat, nat>, registers: WordMap, registerStarts: map<nat, nat>,
    driver: Driver, first: nat, second: nat)
  {
    && Placed(variables, inputs, inputStarts, NodeWidths(c.graph), InputDriver)
    && Placed(variables, undefined, undefinedStarts, NodeWidths(c.graph), InputDriver)
    && (driver.Undriven? ==> Placed(variables, registers, registerStarts, NodeWidths(c.graph), Undriven))
    && inputs.Keys == InputNodes(c) && undefined.Keys == UndefinedNodes(c) && registers.Keys == RegisterNodes(c)
    && registers.Keys == registerStarts.Keys && first <= second
    && (forall id :: id in inputs ==> inputStarts[id] + c.graph[id].width <= first)
    && (forall id :: id in undefined ==> first <= undefinedStarts[id] && undefinedStarts[id] + c.graph[id].width <= second)
    && (forall id :: id in registers ==>
          && second <= registerStarts[id] && registerStarts[id] + c.graph[id].width <= |variables|
          && registers[id] == WordAt(registerStarts[id], c.graph[id].width))
    && (forall a, b :: a in registers && b in registers && a < b ==>
          registerStarts[a] + c.graph[a].width <= registerStarts[b])
  }

  lemma WordsCreated(c: Circuit, v1: seq<Driver>, v2: seq<Driver>, v3: seq<Driver>, inputs: WordMap,
    inputStarts: map<nat, nat>, undefined: WordMap, undefinedStarts: map<nat, nat>, registers: WordMap,
    registerStarts: map<nat, nat>)
    requires Placed(v1, inputs, inputStarts, NodeWidths(c.graph), InputDriver) && inputs.Keys == InputNodes(c)
    requires Placed(v2, undefined, undefinedStarts, NodeWidths(c.graph), InputDriver)
    requires Placed(v3, registers, registerStarts, NodeWidths(c.graph), Undriven) && registers.Keys == RegisterNodes(c)
    requires undefined.Keys == UndefinedNodes(c) && v1 <= v2 && v2 <= v3
    requires forall id :: id in undefined ==> |v1| <= undefinedStarts[id]
    requires forall id :: id in registers ==> |v2| <= registerStarts[id]
    ensures WordsPlaced(c, v3, inputs, inputStarts, undefined, undefinedStarts, registers, registerStarts, Undriven,
              |v1|, |v2|)
  {
    PlacedLater(v1, v3, inputs, inputStarts, NodeWidths(c.graph), InputDriver);
    PlacedLater(v2, v3, undefined, undefinedStarts, NodeWidths(c.graph), InputDriver);
  }

  lemma WordsPlacedLater(c: Circuit, before: seq<Driver>, after: seq<Driver>, inputs: WordMap,
    inputStarts: map<nat, nat>, undefined: WordMap, undefinedStarts: map<nat, nat>, registers: WordMap,
    registerStarts: map<nat, nat>, driver: Driver, first: nat, second: nat)
    requires WordsPlaced(c, before, inputs, inputStarts, undefined, undefinedStarts, registers, registerStarts, driver,
               first, second)
    requires Grows(before, after)
    ensures WordsPlaced(c, after, inputs, inputStarts, undefined, undefinedStarts, registers, registerStarts, driver,
              first, second)
  {
    hide Settled;
    GrowsIsPrefix(before, after);
    PlacedLater(before, after, inputs, inputStarts, NodeWidths(c.graph), InputDriver);
    PlacedLater(before, after, undefined, undefinedStarts, NodeWidths(c.graph), InputDriver);
    if driver.Undriven? {
      PlacedLater(before, after, registers, registerStarts, NodeWidths(c.graph), Undriven);
    }
  }

  /** Latches replace undriven variables only. */
  lemma WordsPlacedLatched(c: Circuit, before: seq<Driver>, after: seq<Driver>, inputs: WordMap,
    inputStarts: map<nat, nat>, undefined: WordMap, undefinedStarts: map<nat, nat>, registers: WordMap,
    registerStarts: map<nat, nat>, first: nat, second: nat)
    requires WordsPlaced(c, before, inputs, inputStarts, undefined, undefinedStarts, registers, registerStarts, Undriven,
               first, second)
    requires |after| == |before| && forall i :: 0 <= i < |before| && !before[i].Undriven? ==> after[i] == before[i]
    ensures WordsPlaced(c, after, inputs, inputStarts, undefined, undefinedStarts, registers, registerStarts, InputDriver,
              first, second)
  {
  }

  function AllStarts(inputs: map<nat, nat>, undefined: map<nat, nat>, registers: map<nat, nat>): map<nat, nat> {
    inputs + registers + undefined
  }

  lemma NodeKinds(c: Circuit)
    ensures InputNodes(c) !! RegisterNodes(c) !! UndefinedNodes(c)
  {
  }

  lemma PlacedWord(variables: seq<Driver>, words: WordMap, starts: map<nat, nat>, widths: seq<nat>, driver: Driver,
    id: nat)
    requires Placed(variables, words, starts, widths, driver) && id in words
    ensures id in starts && id < |widths| && words[id] == WordAt(starts[id], widths[id])
    ensures starts[id] + widths[id] <= |variables|
    ensures forall k :: starts[id] <= k < starts[id] + widths[id] ==> variables[k] == driver
  {
  }

  /** Where one word is: inputs, then undefined words, then registers. */
  lemma WordWhere(c: Circuit, variables: seq<Driver>, inputs: WordMap, inputStarts: map<nat, nat>,
    undefined: WordMap, undefinedStarts: map<nat, nat>, registers: WordMap, registerStarts: map<nat, nat>,
    driver: Driver, first: nat, second: nat,
    id: nat)
    requires WordsPlaced(c, variables, inputs, inputStarts, undefined, undefinedStarts, registers, registerStarts,
               driver, first, second)
    requires id in inputs || id in undefined || id in registers
    ensures id < |c.graph|
    ensures id in inputs ==>
      && id in inputStarts && inputStarts[id] + c.graph[id].width <= first
      && inputStarts[id] + c.graph[id].width <= |variables| && inputs[id] == WordAt(inputStarts[id], c.graph[id].width)
      && forall k :: inputStarts[id] <= k < inputStarts[id] + c.graph[id].width ==> variables[k].InputDriver?
    ensures id in undefined ==>
      && id in undefinedStarts && first <= undefinedStarts[id]
      && undefinedStarts[id] + c.graph[id].width <= second && undefinedStarts[id] + c.graph[id].width <= |variables|
      && undefined[id] == WordAt(undefinedStarts[id], c.graph[id].width)
      && forall k :: undefinedStarts[id] <= k < undefinedStarts[id] + c.graph[id].width ==> variables[k].InputDriver?
    ensures id in registers ==>
      && id in registerStarts && second <= registerStarts[id]
      && registerStarts[id] + c.graph[id].width <= |variables|
      && registers[id] == WordAt(registerStarts[id], c.graph[id].width)
  {
    NodesInRange(c);
    hide Placed;
    hide WordAt;
    if id in inputs {
      PlacedWord(variables, inputs, inputStarts, NodeWidths(c.graph), InputDriver, id);
    }
    if id in undefined {
      PlacedWord(variables, undefined, undefinedStarts, NodeWidths(c.graph), InputDriver, id);
    }
  }

  lemma KindsOfWords(c: Circuit, variables: seq<Driver>, inputs: WordMap, inputStarts: map<nat, nat>,
    undefined: WordMap, undefinedStarts: map<nat, nat>, registers: WordMap, registerStarts: map<nat, nat>,
    driver: Driver, first: nat, second: nat)
    requires WordsPlaced(c, variables, inputs, inputStarts, undefined, undefinedStarts, registers, registerStarts,
               driver, first, second)
    ensures inputs.Keys == inputStarts.Keys == InputNodes(c) && undefined.Keys == undefinedStarts.Keys == UndefinedNodes(c)
    ensures registers.Keys == registerStarts.Keys == RegisterNodes(c)
    ensures inputs.Keys !! registers.Keys !! undefined.Keys
  {
    hide WordAt;
    NodeKinds(c);
  }

  /** Words of one kind do not overlap either. */
  lemma SameKindApart(c: Circuit, variables: seq<Driver>, inputs: WordMap, inputStarts: map<nat, nat>,
    undefined: WordMap, undefinedStarts: map<nat, nat>, registers: WordMap, registerStarts: map<nat, nat>,
    driver: Driver, first: nat, second: nat,
    a: nat, b: nat)
    requires WordsPlaced(c, variables, inputs, inputStarts, undefined, undefinedStarts, registers, registerStarts,
               driver, first, second)
    ensures a in inputs && b in inputs && a < b ==> inputStarts[a] + c.graph[a].width <= inputStarts[b]
    ensures a in undefined && b in undefined && a < b ==>
      undefinedStarts[a] + c.graph[a].width <= undefinedStarts[b]
    ensures a in registers && b in registers && a < b ==> registerStarts[a] + c.graph[a].width <= registerStarts[b]
  {
    hide WordAt;
    NodesInRange(c);
  }

  lemma Merged<T>(inputs: map<nat, T>, undefined: map<nat, T>, registers: map<nat, T>, id: nat)
    requires inputs.Keys !! registers.Keys !! undefined.Keys
    ensures id in inputs + registers + undefined <==> id in inputs || id in undefined || id in registers
    ensures id in inputs ==> (inputs + registers + undefined)[id] == inputs[id]
    ensures id in undefined ==> (inputs + registers + undefined)[id] == undefined[id]
    ensures id in registers ==> (inputs + registers + undefined)[id] == registers[id]
  {
  }

  lemma MergedWhere(c: Circuit, variables: seq<Driver>, inputs: WordMap, inputStarts: map<nat, nat>,
    undefined: WordMap, undefinedStarts: map<nat, nat>, registers: WordMap, registerStarts: map<nat, nat>,
    driver: Driver, first: nat, second: nat,
    id: nat)
    requires WordsPlaced(c, variables, inputs, inputStarts, undefined, undefinedStarts, registers, registerStarts,
               driver, first, second)
    ensures
      var words, starts := inputs + registers + undefined, AllStarts(inputStarts, undefinedStarts, registerStarts);
      && (id in words <==> id in starts)
      && (id in words ==>
            && id < |c.graph| && words[id] == WordAt(starts[id], c.graph[id].width)
            && starts[id] + c.graph[id].width <= |variables|
            && (id !in RegisterNodes(c) ==>
                  forall k :: starts[id] <= k < starts[id] + c.graph[id].width ==> variables[k].InputDriver?))
  {
    KindsOfWords(c, variables, inputs, inputStarts, undefined, undefinedStarts, registers, registerStarts, driver, first,
      second);
    Merged(inputs, undefined, registers, id);
    Merged(inputStarts, undefinedStarts, registerStarts, id);
    if id in inputs || id in undefined || id in registers {
      WordWhere(c, variables, inputs, inputStarts, undefined, undefinedStarts, registers, registerStarts, driver, first,
        second, id);
    }
    hide WordsPlaced;
    hide InputNodes;
    hide UndefinedNodes;
    hide RegisterNodes;
    hide WordAt;
  }

  function StartIn(inputs: map<nat, nat>, undefined: map<nat, nat>, registers: map<nat, nat>, id: nat): nat {
    if id in inputs then inputs[id] else if id in undefined then undefined[id]
    else if id in registers then registers[id] else 0
  }

  lemma StartsMerged(c: Circuit, variables: seq<Driver>, inputs: WordMap, inputStarts: map<nat, nat>,
    undefined: WordMap, undefinedStarts: map<nat, nat>, registers: WordMap, registerStarts: map<nat, nat>,
    driver: Driver, first: nat, second: nat,
    id: nat)
    requires WordsPlaced(c, variables, inputs, inputStarts, undefined, undefinedStarts, registers, registerStarts,
               driver, first, second)
    requires id in inputs + registers + undefined
    ensures id in AllStarts(inputStarts, undefinedStarts, registerStarts) && id < |c.graph|
    ensures id in inputs || id in undefined || id in registers
    ensures AllStarts(inputStarts, undefinedStarts, registerStarts)[id] ==
      StartIn(inputStarts, undefinedStarts, registerStarts, id)
  {
    KindsOfWords(c, variables, inputs, inputStarts, undefined, undefinedStarts, registers, registerStarts, driver, first,
      second);
    Merged(inputs, undefined, registers, id);
    Merged(inputStarts, undefinedStarts, registerStarts, id);
    NodesInRange(c);
    hide WordsPlaced;
    hide InputNodes;
    hide UndefinedNodes;
    hide RegisterNodes;
  }

  lemma WordZone(c: Circuit, variables: seq<Driver>, inputs: WordMap, inputStarts: map<nat, nat>,
    undefined: WordMap, undefinedStarts: map<nat, nat>, registers: WordMap, registerStarts: map<nat, nat>,
    driver: Driver, first: nat, second: nat,
    id: nat)
    requires WordsPlaced(c, variables, inputs, inputStarts, undefined, undefinedStarts, registers, registerStarts,
               driver, first, second)
    requires id in inputs || id in undefined || id in registers
    ensures id < |c.graph|
    ensures id in inputs ==>
      id in inputStarts && StartIn(inputStarts, undefinedStarts, registerStarts, id) == inputStarts[id] && inputStarts[id] + c.graph[id].width <= first
    ensures id in undefined ==>
      && id in undefinedStarts && StartIn(inputStarts, undefinedStarts, registerStarts, id) == undefinedStarts[id]
      && first <= undefinedStarts[id] && undefinedStarts[id] + c.graph[id].width <= second
    ensures id in registers ==>
      id in registerStarts && StartIn(inputStarts, undefinedStarts, registerStarts, id) == registerStarts[id] && second <= registerStarts[id]
  {
    hide WordAt;
    KindsOfWords(c, variables, inputs, inputStarts, undefined, undefinedStarts, registers, registerStarts, driver, first,
      second);
    WordWhere(c, variables, inputs, inputStarts, undefined, undefinedStarts, registers, registerStarts, driver, first,
      second, id);
    hide WordsPlaced;
    hide InputNodes;
    hide UndefinedNodes;
    hide RegisterNodes;
  }

  lemma StartsApart(c: Circuit, variables: seq<Driver>, inputs: WordMap, inputStarts: map<nat, nat>,
    undefined: WordMap, undefinedStarts: map<nat, nat>, registers: WordMap, registerStarts: map<nat, nat>,
    driver: Driver, first: nat, second: nat,
    a: nat, b: nat)
    requires WordsPlaced(c, variables, inputs, inputStarts, undefined, undefinedStarts, registers, registerStarts,
               driver, first, second)
    requires a < b && (a in inputs || a in undefined || a in registers)
    requires b in inputs || b in undefined || b in registers
    ensures a < |c.graph| && b < |c.graph|
    ensures
      var x := StartIn(inputStarts, undefinedStarts, registerStarts, a);
      var y := StartIn(inputStarts, undefinedStarts, registerStarts, b);
      x + c.graph[a].width <= y || y + c.graph[b].width <= x
  {
    assert first <= second;
    hide WordsPlaced;
    hide StartIn;
    WordZone(c, variables, inputs, inputStarts, undefined, undefinedStarts, registers, registerStarts, driver, first,
      second, a);
    WordZone(c, variables, inputs, inputStarts, undefined, undefinedStarts, registers, registerStarts, driver, first,
      second, b);
    SameKindApart(c, variables, inputs, inputStarts, undefined, undefinedStarts, registers, registerStarts, driver, first,
      second, a, b);
  }

  lemma MergedApart(c: Circuit, variables: seq<Driver>, inputs: WordMap, inputStarts: map<nat, nat>,
    undefined: WordMap, undefinedStarts: map<nat, nat>, registers: WordMap, registerStarts: map<nat, nat>,
    driver: Driver, first: nat, second: nat,
    a: nat, b: nat)
    requires WordsPlaced(c, variables, inputs, inputStarts, undefined, undefinedStarts, registers, registerStarts,
               driver, first, second)
    requires a != b && a in inputs + registers + undefined && b in inputs + registers + undefined
    ensures
      var starts := AllStarts(inputStarts, undefinedStarts, registerStarts);
      && a < |c.graph| && b < |c.graph| && a in starts && b in starts
      && (starts[a] + c.graph[a].width <= starts[b] || starts[b] + c.graph[b].width <= starts[a])
  {
    hide *;
    StartsMerged(c, variables, inputs, inputStarts, undefined, undefinedStarts, registers, registerStarts, driver, first,
      second, a);
    StartsMerged(c, variables, inputs, inputStarts, undefined, undefinedStarts, registers, registerStarts, driver, first,
      second, b);
    if a < b {
      StartsApart(c, variables, inputs, inputStarts, undefined, undefinedStarts, registers, registerStarts, driver, first,
        second, a, b);
    } else {
      StartsApart(c, variables, inputs, inputStarts, undefined, undefinedStarts, registers, registerStarts, driver, first,
        second, b, a);
    }
  }

  lemma WordsScattered(c: Circuit, variables: seq<Driver>, inputs: WordMap, inputStarts: map<nat, nat>,
    undefined: WordMap, undefinedStarts: map<nat, nat>, registers: WordMap, registerStarts: map<nat, nat>,
    driver: Driver, first: nat, second: nat)
    requires WordsPlaced(c, variables, inputs, inputStarts, undefined, undefinedStarts, registers, registerStarts,
               driver, first, second)
    ensures Scattered(c, variables, inputs + registers + undefined,
              AllStarts(inputStarts, undefinedStarts, registerStarts))
  {
    hide WordsPlaced;
    hide AllStarts;
    hide InputNodes;
    hide UndefinedNodes;
    hide RegisterNodes;
    hide WordAt;
    var words, starts := inputs + registers + undefined, AllStarts(inputStarts, undefinedStarts, registerStarts);
    forall id: nat
      ensures WordGood(c, variables, words, starts, id)
    {
      MergedWhere(c, variables, inputs, inputStarts, undefined, undefinedStarts, registers, registerStarts, driver, first,
        second, id);
    }
    forall a: nat, b: nat
      ensures Apart(c, words, starts, a, b)
    {
      if a != b && a in words && b in words {
        MergedApart(c, variables, inputs, inputStarts, undefined, undefinedStarts, registers, registerStarts, driver, first,
          second, a, b);
      }
    }
    ScatteredFrom(c, variables, words, starts);
  }

  ghost predicate WordGood(c: Circuit, variables: seq<Driver>, words: WordMap, starts: map<nat, nat>, id: nat) {
    && (id in words <==> id in starts)
    && (id in words ==>
          && id < |c.graph| && words[id] == WordAt(starts[id], c.graph[id].width)
          && starts[id] + c.graph[id].width <= |variables|
          && (id !in RegisterNodes(c) ==>
                forall k :: starts[id] <= k < starts[id] + c.graph[id].width ==> variables[k].InputDriver?))
  }

  ghost predicate Apart(c: Circuit, words: WordMap, starts: map<nat, nat>, a: nat, b: nat) {
    a != b && a in words && b in words ==>
      && a < |c.graph| && b < |c.graph| && a in starts && b in starts
      && (starts[a] + c.graph[a].width <= starts[b] || starts[b] + c.graph[b].width <= starts[a])
  }

  lemma ScatteredFrom(c: Circuit, variables: seq<Driver>, words: WordMap, starts: map<nat, nat>)
    requires forall id: nat :: WordGood(c, variables, words, starts, id)
    requires forall a: nat, b: nat :: Apart(c, words, starts, a, b)
    ensures Scattered(c, variables, words, starts)
  {
    hide RegisterNodes;
    hide WordAt;
    assert words.Keys == starts.Keys by {
      assert forall id: nat :: WordGood(c, variables, words, starts, id) ==> (id in words <==> id in starts);
    }
    forall id | id in words
      ensures id < |c.graph| && words[id] == WordAt(starts[id], c.graph[id].width)
      ensures starts[id] + c.graph[id].width <= |variables|
      ensures id !in RegisterNodes(c) ==>
        forall k :: starts[id] <= k < starts[id] + c.graph[id].width ==> variables[k].InputDriver?
    {
      assert WordGood(c, variables, words, starts, id);
    }
    forall a, b | a in words && b in words && a != b
      ensures starts[a] + c.graph[a].width <= starts[b] || starts[b] + c.graph[b].width <= starts[a]
    {
      assert Apart(c, words, starts, a, b);
    }
  }

  lemma ContextStart(c: Circuit, order: seq<nat>, variables: seq<Driver>, inputs: WordMap, inputStarts: map<nat, nat>,
    undefined: WordMap, undefinedStarts: map<nat, nat>, registers: WordMap, registerStarts: map<nat, nat>, first: nat,
    second: nat)
    requires ValidCircuit(c) && Topological(c.graph, order)
    requires forall id :: 0 <= id < |c.graph| && !c.graph[id].Register() ==> id in order
    requires WordsPlaced(c, variables, inputs, inputStarts, undefined, undefinedStarts, registers, registerStarts,
               Undriven, first, second)
    ensures LoweringContext(c.graph, order, inputs + registers, undefined, |variables|)
  {
    KindsOfWords(c, variables, inputs, inputStarts, undefined, undefinedStarts, registers, registerStarts, Undriven,
      first, second);
    hide Topological;
    hide ValidGraph;
    hide WordsPlaced;
    hide AllKnown;
    forall id | id in inputs || id in undefined || id in registers
      ensures id < |c.graph|
      ensures id in inputs ==> |inputs[id]| == c.graph[id].width && AllKnown(inputs[id], |variables|)
      ensures id in undefined ==> |undefined[id]| == c.graph[id].width && AllKnown(undefined[id], |variables|)
      ensures id in registers ==> |registers[id]| == c.graph[id].width && AllKnown(registers[id], |variables|)
    {
      WordWhere(c, variables, inputs, inputStarts, undefined, undefinedStarts, registers, registerStarts, Undriven, first,
        second, id);
      WordsKnown(|variables|);
    }
    LeavesKnown(c, inputs, registers, |variables|);
    ContextFrom(c, order, inputs + registers, undefined, |variables|);
  }

  lemma WordsKnown(limit: nat)
    ensures forall start: nat, width: nat :: start + width <= limit ==> AllKnown(WordAt(start, width), limit)
  {
  }

  lemma ContextFrom(c: Circuit, order: seq<nat>, leaves: WordMap, undefined: WordMap, limit: nat)
    requires ValidGraph(c.graph) && Topological(c.graph, order)
    requires forall id :: 0 <= id < |c.graph| && !c.graph[id].Register() ==> id in order
    requires RegisterNodes(c) <= leaves.Keys && undefined.Keys == UndefinedNodes(c)
    requires forall id :: id in leaves ==> id < |c.graph| && |leaves[id]| == c.graph[id].width && AllKnown(leaves[id], limit)
    requires forall id :: id in undefined ==>
      id < |c.graph| && |undefined[id]| == c.graph[id].width && AllKnown(undefined[id], limit)
    ensures LoweringContext(c.graph, order, leaves, undefined, limit)
  {
    hide Topological;
    hide ValidGraph;
    hide AllKnown;
    hide NeedsUndefined;
  }

  lemma LeavesKnown(c: Circuit, inputs: WordMap, registers: WordMap, limit: nat)
    requires forall id :: id in inputs ==>
      id < |c.graph| && |inputs[id]| == c.graph[id].width && AllKnown(inputs[id], limit)
    requires forall id :: id in registers ==>
      id < |c.graph| && |registers[id]| == c.graph[id].width && AllKnown(registers[id], limit)
    ensures forall id :: id in inputs + registers ==>
      id < |c.graph| && |(inputs + registers)[id]| == c.graph[id].width && AllKnown((inputs + registers)[id], limit)
  {
    hide AllKnown;
  }

  lemma FaithfulStill(before: seq<Driver>, after: seq<Driver>, graph: Graph, order: seq<nat>,
    leaves: WordMap, undefined: WordMap, values: WordMap)
    requires Faithful(before, graph, order, leaves, undefined, values)
    requires forall s :: Settled(after, s) ==> Settled(before, s)
    ensures Faithful(after, graph, order, leaves, undefined, values)
  {
    hide Settled;
    hide Meaning;
  }

  lemma LatchesLater(c: Circuit, before: seq<Driver>, latched: seq<Driver>, after: seq<Driver>, registers: WordMap,
    registerStarts: map<nat, nat>, starts: map<nat, nat>, next: WordMap, resets: map<nat, seq<Option<bool>>>)
    requires registers.Keys == RegisterNodes(c) == registerStarts.Keys
    requires Latched(before, latched, registers, registerStarts, NodeWidths(c.graph), next, resets, |c.graph|)
    requires forall id :: id in RegisterNodes(c) ==>
      ResetWord(resets, id) == PresetResets(c.graph[id]) && id in starts && starts[id] == registerStarts[id]
    requires Grows(latched, after)
    ensures RegistersLatched(c, after, starts, next)
  {
    hide Settled;
    hide PresetResets;
    forall id | id in RegisterNodes(c)
      ensures id in next && |next[id]| == c.graph[id].width
      ensures LatchesAt(after, starts[id], next[id], PresetResets(c.graph[id]))
    {
      assert LatchesAt(latched, registerStarts[id], next[id], ResetWord(resets, id));
    }
  }

  lemma Observed(c: Circuit, order: seq<nat>, m: Machine, signals: Signals)
    requires OutputsDenoted(c, order, m.variables, signals, m.outputs, c.outputs)
    requires PropertiesDenoted(c, order, m.variables, signals, m.asserts, c.properties, AssertProperty)
    requires PropertiesDenoted(c, order, m.variables, signals, m.assumes, c.properties, AssumeProperty)
    requires PropertiesDenoted(c, order, m.variables, signals, m.covers, c.properties, CoverProperty)
    ensures forall s :: Settled(m.variables, s) ==> Observe(m, s) == CircuitObservation(c, order, Values(signals, s))
  {
    hide Settled;
    hide OutputBits;
    hide PropertyBits;
    hide Values;
  }

  /** Checks for cycles, creates inputs, undefined words and registers, lowers all nodes,
      turns registers into latches of their next words, and adds outputs and properties.
      The machine has exactly the runs of the circuit. */
  method ConvertCircuit(c: Circuit) returns (fsm: FSM, r: Option<Signals>, ghost order: seq<nat>)
    requires ValidCircuit(c)
    ensures fresh(fsm)
    ensures r.Some? <==> !CycleExists(c.graph) && !Unresolved(c.graph) && CircuitConverts(c, order)
    ensures !CycleExists(c.graph) && !Unresolved(c.graph) ==> Topological(c.graph, order)
    ensures r.Some? ==> Verified(fsm.Contents())
    ensures r.Some? ==> Represents(c, order, fsm.Contents(), r.value) && InputWords(c, fsm.Contents(), r.value)
  {
    hide Settled;
    hide Topological;
    hide ValidGraph;
    hide CycleExists;
    hide Unresolved;
    hide LoweringContext;
    hide MemoValid;
    hide Faithful;
    hide Placed;
    hide Latched;
    hide WordsPlaced;
    hide NextReady;
    hide NextDenoted;
    hide Scattered;
    hide RegistersLatched;
    hide OutputsDenoted;
    hide PropertiesDenoted;
    hide Represents;
    hide InputWords;
    hide Verified;
    hide InputNodes;
    hide UndefinedNodes;
    hide RegisterNodes;
    hide PresetResets;
    hide CircuitObservation;
    hide Values;
    hide Observe;
    hide NodeLowers;
    hide RegisterConverts;
    hide PropertyConverts;
    hide CircuitConverts;
    hide Storing;
    hide Fills;
    hide Complete;
    hide OnlyInputs;
    hide AllKnown;
    fsm := new FSM();
    r := None;
    NoVariables();
    GraphEdges(c);
    var ok;
    ok, order := CheckCycles(c.graph);
    if !ok {
      return;
    }
    ConvertsExactly(c, order);
    var widths := NodeWidths(c.graph);
    NodesInRange(c);
    var inputs, inputStarts := CreateWords(fsm, InputNodes(c), widths, true);
    ghost var v1 := fsm.variables;
    var undefined, undefinedStarts := CreateWords(fsm, UndefinedNodes(c), widths, true);
    ghost var v2 := fsm.variables;
    var registers, registerStarts := CreateWords(fsm, RegisterNodes(c), widths, false);
    ghost var v3 := fsm.variables;
    MoreInputs([], v1, inputs, inputStarts, widths);
    MoreInputs(v1, v2, undefined, undefinedStarts, widths);
    RegistersStore(v2, v3, registers, registerStarts, widths);
    WordsCreated(c, v1, v2, v3, inputs, inputStarts, undefined, undefinedStarts, registers, registerStarts);
    ContextStart(c, order, v3, inputs, inputStarts, undefined, undefinedStarts, registers, registerStarts, |v1|, |v2|);
    var signals := Signals(inputs + registers, undefined);
    assert signals.leaves.Keys == InputNodes(c) + RegisterNodes(c);
    var l := new Lowering(c.graph, fsm, order, signals.leaves, undefined, c.clockWiring);
    ok := LowerAll(l, c, order, signals);
    if !ok {
      return;
    }
    ghost var v4 := fsm.variables;
    var words := NextWords(l, c, order, signals);
    if words == None {
      return;
    }
    ghost var v5 := fsm.variables;
    GrowsTwice(v3, v4, v5);
    WordsPlacedLater(c, v3, v5, inputs, inputStarts, undefined, undefinedStarts, registers, registerStarts, Undriven,
      |v1|, |v2|);
    var (next, resets) := words.value;
    RegistersUndriven(c, v5, inputs, inputStarts, undefined, undefinedStarts, registers, registerStarts, |v1|, |v2|);
    NextSized(c, order, v5, signals, next, resets, registers, widths);
    ok := AddLatches(fsm, registers, registerStarts, widths, next, resets);
    assert ok;
    ghost var v6 := fsm.variables;
    LatchedSettled(v5, v6, registers, registerStarts, widths, next, resets, |widths|);
    StoringGrows(v3, v5, registerStarts, widths);
    NextKnown(c, order, v5, signals, next, resets, registers);
    LatchesComplete(v5, v6, registers, registerStarts, widths, next, resets);
    LatchedKeeps(v5, v6, registers, registerStarts, widths, next, resets);
    WordsPlacedLatched(c, v5, v6, inputs, inputStarts, undefined, undefinedStarts, registers, registerStarts, |v1|, |v2|);
    NextReadyGrows(c, order, v5, v6, signals, next, resets, |c.graph|);
    FaithfulStill(v5, v6, c.graph, order, signals.leaves, undefined, l.values);
    ok := AddOutputs(l, c, order, signals);
    if !ok {
      return;
    }
    ghost var v7 := fsm.variables;
    ok := AddProperties(l, c, order, signals);
    if !ok {
      return;
    }
    ghost var v8 := fsm.variables;
    GrowsTwice(v6, v7, v8);
    OutputsLater(c, order, v7, v8, signals, fsm.outputs);
    CompleteGrows(v6, v8);
    OutputsKnown(fsm.outputs, |v7|, |v8|);
    PropertiesAreKnown(fsm.asserts, fsm.assumes, fsm.covers, |v8|);
    CompleteIsVerified(fsm.Contents());
    var verified := fsm.Verify(true);
    assert verified;
    WordsPlacedLater(c, v6, v8, inputs, inputStarts, undefined, undefinedStarts, registers, registerStarts, InputDriver,
      |v1|, |v2|);
    Assembling(c, order, fsm.Contents(), inputs, inputStarts, undefined, undefinedStarts, registers, registerStarts, next,
      resets, v5, v6, |v1|, |v2|);
    r := Some(signals);
  }

  lemma NoVariables()
    ensures OnlyInputs([])
  {
  }

  lemma OutputsKnown(outputs: seq<Value>, before: nat, after: nat)
    requires AllKnown(outputs, before) && before <= after
    ensures AllKnown(outputs, after)
  {
  }

  lemma PropertiesAreKnown(asserts: seq<Value>, assumes: seq<Value>, covers: seq<Value>, limit: nat)
    requires PropertiesKnown(asserts, assumes, covers, limit)
    ensures AllKnown(asserts, limit) && AllKnown(assumes, limit) && AllKnown(covers, limit)
  {
  }

  lemma NextKnown(c: Circuit, order: seq<nat>, variables: seq<Driver>, signals: Signals, next: WordMap,
    resets: map<nat, seq<Option<bool>>>, registers: WordMap)
    requires NextReady(c, order, variables, signals, next, resets, |c.graph|) && registers.Keys == RegisterNodes(c)
    ensures forall id :: id in registers && id in next ==> AllKnown(next[id], |variables|)
  {
    hide NextDenoted;
    hide PresetResets;
    NodesInRange(c);
  }

  lemma NextSized(c: Circuit, order: seq<nat>, variables: seq<Driver>, signals: Signals, next: WordMap,
    resets: map<nat, seq<Option<bool>>>, registers: WordMap, widths: seq<nat>)
    requires NextReady(c, order, variables, signals, next, resets, |c.graph|)
    requires registers.Keys == RegisterNodes(c) && widths == NodeWidths(c.graph)
    ensures forall id :: id in registers ==> id in next && id < |widths| && |next[id]| == widths[id]
  {
    hide NextDenoted;
    hide PresetResets;
  }

  lemma ConvertsExactly(c: Circuit, order: seq<nat>)
    ensures CircuitConverts(c, order) <==>
      && (forall id :: 0 <= id < |c.graph| && id !in c.clockWiring ==> NodeLowers(c, order, id))
      && (forall id :: 0 <= id < |c.graph| && c.graph[id].Register() ==> RegisterConverts(c, order, id))
      && (forall k :: 0 <= k < |c.outputs| ==> NodeLowers(c, order, c.outputs[k]))
      && (forall k :: 0 <= k < |c.properties| ==> PropertyConverts(c, order, c.properties[k]))
  {
    hide NodeLowers;
    hide RegisterConverts;
    hide PropertyConverts;
  }

  lemma GraphEdges(c: Circuit)
    requires ValidCircuit(c)
    ensures EdgesInRange(c.graph)
  {
  }

  lemma NodesInRange(c: Circuit)
    ensures forall id :: id in InputNodes(c) || id in UndefinedNodes(c) || id in RegisterNodes(c) ==> id < |c.graph|
  {
  }

  lemma RegistersUndriven(c: Circuit, variables: seq<Driver>, inputs: WordMap, inputStarts: map<nat, nat>,
    undefined: WordMap, undefinedStarts: map<nat, nat>, registers: WordMap, registerStarts: map<nat, nat>, first: nat,
    second: nat)
    requires WordsPlaced(c, variables, inputs, inputStarts, undefined, undefinedStarts, registers, registerStarts,
               Undriven, first, second)
    ensures Placed(variables, registers, registerStarts, NodeWidths(c.graph), Undriven)
  {
  }

  lemma LatchedKeeps(before: seq<Driver>, after: seq<Driver>, registers: WordMap, starts: map<nat, nat>,
    widths: seq<nat>, next: WordMap, resets: map<nat, seq<Option<bool>>>)
    requires registers.Keys == starts.Keys && forall id :: id in registers ==> id < |widths|
    requires Latched(before, after, registers, starts, widths, next, resets, |widths|)
    ensures |after| == |before| && forall i :: 0 <= i < |before| && !before[i].Undriven? ==> after[i] == before[i]
  {
  }

  lemma Assembling(c: Circuit, order: seq<nat>, m: Machine, inputs: WordMap, inputStarts: map<nat, nat>,
    undefined: WordMap, undefinedStarts: map<nat, nat>, registers: WordMap, registerStarts: map<nat, nat>, next: WordMap,
    resets: map<nat, seq<Option<bool>>>, before: seq<Driver>, latched: seq<Driver>, first: nat, second: nat)
    requires Ordered(m.variables) && Grows(latched, m.variables)
    requires WordsPlaced(c, m.variables, inputs, inputStarts, undefined, undefinedStarts, registers, registerStarts,
               InputDriver, first, second)
    requires registers.Keys == registerStarts.Keys && forall id :: id in registers ==> id < |c.graph|
    requires Latched(before, latched, registers, registerStarts, NodeWidths(c.graph), next, resets, |c.graph|)
    requires NextReady(c, order, latched, Signals(inputs + registers, undefined), next, resets, |c.graph|)
    requires OutputsDenoted(c, order, m.variables, Signals(inputs + registers, undefined), m.outputs, c.outputs)
    requires PropertiesDenoted(c, order, m.variables, Signals(inputs + registers, undefined), m.asserts, c.properties,
               AssertProperty)
    requires PropertiesDenoted(c, order, m.variables, Signals(inputs + registers, undefined), m.assumes, c.properties,
               AssumeProperty)
    requires PropertiesDenoted(c, order, m.variables, Signals(inputs + registers, undefined), m.covers, c.properties,
               CoverProperty)
    ensures Represents(c, order, m, Signals(inputs + registers, undefined))
    ensures InputWords(c, m, Signals(inputs + registers, undefined))
  {
    hide Settled;
    hide PresetResets;
    hide OutputsDenoted;
    hide PropertiesDenoted;
    hide Latched;
    hide Represents;
    hide InputWords;
    hide Values;
    hide Observe;
    hide CircuitObservation;
    hide NextMeaning;
    var signals := Signals(inputs + registers, undefined);
    var starts := AllStarts(inputStarts, undefinedStarts, registerStarts);
    WordsScattered(c, m.variables, inputs, inputStarts, undefined, undefinedStarts, registers, registerStarts,
      InputDriver, first, second);
    Observed(c, order, m, signals);
    NextReadyGrows(c, order, latched, m.variables, signals, next, resets, |c.graph|);
    RegisterStartsKept(c, m.variables, inputs, inputStarts, undefined, undefinedStarts, registers, registerStarts,
      first, second);
    hide WordsPlaced;
    hide Scattered;
    LatchesLater(c, before, latched, m.variables, registers, registerStarts, starts, next, resets);
    AssembledRepresents(c, order, m, signals, starts, next);
    AssembledInputs(c, order, m, signals, starts, next);
  }

  lemma RegisterStartsKept(c: Circuit, variables: seq<Driver>, inputs: WordMap, inputStarts: map<nat, nat>,
    undefined: WordMap, undefinedStarts: map<nat, nat>, registers: WordMap, registerStarts: map<nat, nat>, first: nat,
    second: nat)
    requires WordsPlaced(c, variables, inputs, inputStarts, undefined, undefinedStarts, registers, registerStarts,
               InputDriver, first, second)
    ensures registers.Keys == RegisterNodes(c) == registerStarts.Keys && inputs.Keys == InputNodes(c)
    ensures undefined.Keys == UndefinedNodes(c)
    ensures forall id :: id in RegisterNodes(c) ==>
      id in AllStarts(inputStarts, undefinedStarts, registerStarts)
      && AllStarts(inputStarts, undefinedStarts, registerStarts)[id] == registerStarts[id]
  {
    NodeKinds(c);
  }
}
