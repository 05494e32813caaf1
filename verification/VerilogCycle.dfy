/** One cycle of a design: the simulator's, and the symbolic backend's. The two differ in
    where a cycle starts from. The simulator keeps every variable from the cycle before,
    the symbolic backend keeps registers only and takes any other variable to be zero until
    something assigns it. This module says what follows from that, and for which variables
    it can be seen. */
module VerilogCycle {
  import opened Words
  import opened Fsm
  import opened VerilogAst
  import opened VerilogAnalysis
  import opened VerilogSimulator
  import opened VerilogExpressions
  import opened VerilogTargets
  import opened VerilogConvert
  import opened VerilogInterference
  import opened VerilogSequential
  import opened VerilogScheduling
  import Runtime = VerilogRuntime

  // ----- which variables are what -----

  function SampledIds(sampled: seq<Sampled>): set<nat> {
    if sampled == [] then {}
    else SampledIds(sampled[..|sampled| - 1]) + {sampled[|sampled| - 1].id}
  }

  /** The reads of the sampled expressions that are themselves read. */
  function ReadSampledReads(sampled: seq<Sampled>, readIds: set<nat>): set<nat> {
    if sampled == [] then {}
    else
      var last := sampled[|sampled| - 1];
      ReadSampledReads(sampled[..|sampled| - 1], readIds) + if last.id in readIds then ExpressionReads(last.value) else {}
  }

  /** Passes over the sampled variables, each adding the reads of those that are read. */
  function ReadPasses(sampled: seq<Sampled>, readIds: set<nat>, passes: nat): set<nat>
    decreases passes
  {
    if passes == 0 then readIds
    else ReadPasses(sampled, readIds + ReadSampledReads(sampled, readIds), passes - 1)
  }

  function AllReads(design: Design): set<nat> {
    ReadPasses(design.sampled, ReadsAll(design.combinational) + ReadsAll(design.sequential), |design.sampled| + 1)
  }

  /** Another pass finds nothing more. */
  ghost predicate ReadsClosed(sampled: seq<Sampled>, readIds: set<nat>) {
    ReadSampledReads(sampled, readIds) <= readIds
  }

  /** The sampled variables that are not read, one by one. */
  function Unread(sampled: seq<Sampled>, readIds: set<nat>): nat {
    if sampled == [] then 0
    else
      Unread(sampled[..|sampled| - 1], readIds) + if sampled[|sampled| - 1].id in readIds then 0 else 1
  }

  lemma {:induction false} FewerUnread(sampled: seq<Sampled>, fewer: set<nat>, more: set<nat>)
    requires fewer <= more
    ensures Unread(sampled, more) <= Unread(sampled, fewer) <= |sampled|
    ensures ReadSampledReads(sampled, fewer) <= ReadSampledReads(sampled, more)
    ensures Unread(sampled, more) == Unread(sampled, fewer) ==>
      ReadSampledReads(sampled, more) == ReadSampledReads(sampled, fewer)
  {
    hide ExpressionReads;
    if sampled != [] {
      FewerUnread(sampled[..|sampled| - 1], fewer, more);
    }
  }

  /** As many passes as there are sampled variables, and one, are as good as repeating them
      until nothing changes. */
  lemma {:induction false} PassesClose(sampled: seq<Sampled>, readIds: set<nat>, passes: nat)
    requires ReadsClosed(sampled, readIds) || Unread(sampled, readIds) < passes
    ensures ReadsClosed(sampled, ReadPasses(sampled, readIds, passes)) && readIds <= ReadPasses(sampled, readIds, passes)
    decreases passes
  {
    if passes > 0 {
      var more := readIds + ReadSampledReads(sampled, readIds);
      FewerUnread(sampled, readIds, more);
      assert ReadsClosed(sampled, readIds) ==> more == readIds;
      PassesClose(sampled, more, passes - 1);
    }
  }

  lemma ReadsAreClosed(design: Design)
    ensures ReadsClosed(design.sampled, AllReads(design))
  {
    var readIds := ReadsAll(design.combinational) + ReadsAll(design.sequential);
    FewerUnread(design.sampled, readIds, readIds);
    PassesClose(design.sampled, readIds, |design.sampled| + 1);
  }

  function AllWrites(design: Design): set<nat> {
    WritesAll(design.combinational) + WritesAll(design.sequential)
  }

  /** Registers of the analysis, and arrays that are both read and written. */
  function RegisterIds(design: Design): set<nat> {
    Registers(design) + design.unpacked * AllReads(design) * AllWrites(design)
  }

  /** Primary inputs, and variables that are read but never driven. */
  function InputIds(design: Design): set<nat> {
    set id: nat | 0 <= id < |design.widths| && id != design.clock
      && (id in design.inputs || (id in AllReads(design) && id !in AllWrites(design) && id !in RegisterIds(design)
            && id !in SampledIds(design.sampled) && id !in design.internal))
  }

  // ----- the simulator's cycle -----

  function Applied(values: Store, given: Store, ids: set<nat>): (r: Store)
    requires |given| == |values|
    ensures |r| == |values|
  {
    seq(|values|, i requires 0 <= i < |values| => if i in ids then given[i] else values[i])
  }

  /** Sampled variables take the values of their expressions, one after the other. */
  function Captured(sampled: seq<Sampled>, env: Store): (r: Option<Store>)
    ensures r.Some? ==> SameShape(r.value, env)
  {
    if sampled == [] then Some(env)
    else
      match Captured(sampled[..|sampled| - 1], env)
      case None => None
      case Some(before) =>
        var last := sampled[|sampled| - 1];
        match ValueOf(last.value, before)
        case None => None
        case Some(v) =>
          if last.id < |before| && |v| == |before[last.id]| then Some(before[last.id := v]) else None
  }

  /** Inputs, combinational logic and sampling: the state that `eval` looks at. */
  function Evaluated(design: Design, ordered: seq<Statement>, values: Store, given: Store): Option<Store>
    requires |given| == |values|
  {
    var env := Applied(values, given, InputIds(design));
    match ExecuteAll(ordered, State(env, env))
    case None => None
    case Some(after) => Captured(design.sampled, after.env)
  }

  /** One clock edge of the model. */
  function Tick(design: Design, ordered: seq<Statement>, values: Store, given: Store): Option<Store>
    requires |given| == |values|
  {
    match Evaluated(design, ordered, values, given)
    case None => None
    case Some(env) => RunSequential(design.sequential, WritesOfAll(design.sequential, true), env)
  }

  /** Parts of array elements stay inside their elements throughout the cycle. */
  predicate TickInRange(design: Design, ordered: seq<Statement>, values: Store, given: Store)
    requires |given| == |values|
  {
    var env := Applied(values, given, InputIds(design));
    && AllStayInRange(ordered, State(env, env), design.widths)
    && (Evaluated(design, ordered, values, given).Some? ==>
          var before := Evaluated(design, ordered, values, given).value;
          AllStayInRange(design.sequential, State(before, before), design.widths))
  }

  // ----- designs that can be compared -----

  /** Sampled expressions are sound, and read no sampled variable. */
  predicate SamplesSound(sampled: seq<Sampled>) {
    && (forall i :: 0 <= i < |sampled| ==> Sound(sampled[i].value))
    && SampledReads(sampled) !! SampledIds(sampled)
  }

  function StartIds(design: Design): set<nat> {
    InputIds(design) + RegisterIds(design)
  }

  /** The combinational statements in the order the conversion runs them. */
  function OrderOfDesign(design: Design): seq<Statement> {
    GreedyOrder(design.combinational, StartIds(design)).0
  }

  /** The variables with a value when the clocked processes start. */
  function KnownIds(design: Design): set<nat> {
    AssignedByAll(OrderOfDesign(design), StartIds(design)) + SampledIds(design.sampled)
  }

  /** Widths and sampled expressions are sound, and registers exist and are neither inputs nor
      sampled. */
  predicate SoundDesign(design: Design) {
    && (forall i :: 0 <= i < |OrderOfDesign(design)| ==> SoundStatement(OrderOfDesign(design)[i], design.widths))
    && (forall i :: 0 <= i < |design.sequential| ==> SoundStatement(design.sequential[i], design.widths))
    && SamplesSound(design.sampled)
    && SampledIds(design.sampled) !! RegisterIds(design) && InputIds(design) !! RegisterIds(design)
    && (forall id :: id in RegisterIds(design) ==> id < |design.widths|)
  }

  /** A sound design in which no value is read that was not assigned on every path:
      combinational logic and samples read what is driven, assigned or stored, clocked
      processes also their temporaries. */
  predicate Convertible(design: Design) {
    && SoundDesign(design)
    && LiveInAll(OrderOfDesign(design), StartIds(design)) == {}
    && SampledReads(design.sampled) <= AssignedByAll(OrderOfDesign(design), StartIds(design))
    && PositiveWidths(design)
    && (forall id :: id in ReadsAll(design.sequential) && id !in KnownIds(design) ==> id in Temporaries(design))
  }

  /** Those of the variables that the conversion exposes whose value it shares with the
      simulator in every cycle. */
  function ObservedIds(design: Design): set<nat> {
    (KnownIds(design) - WritesAll(design.sequential)) + Registers(design)
  }

  function RegistersInRange(design: Design): set<nat> {
    set id | id in RegisterIds(design) && id < |design.widths|
  }

  /** The variables with values when the conversion starts, after combinational logic,
      and after sampling. */
  function StartKeys(design: Design): set<nat> {
    InputIds(design) + RegistersInRange(design)
  }

  function SettledKeys(design: Design): set<nat> {
    StartKeys(design) + WritesOfAll(GreedyOrder(design.combinational, StartKeys(design)).0, false)
  }

  function CapturedKeys(design: Design): set<nat> {
    SettledKeys(design) + SampledIds(design.sampled)
  }

  /** Variables whose value in the cycle the conversion exposes. */
  function ExposedIds(design: Design): set<nat> {
    (CapturedKeys(design) - WritesAll(design.sequential)) + Registers(design)
  }

  // ----- registers and samples -----

  lemma {:induction false} SampledPrefix(sampled: seq<Sampled>, i: nat)
    requires i < |sampled|
    ensures SampledIds(sampled[..i]) <= SampledIds(sampled)
    ensures ExpressionReads(sampled[i].value) <= SampledReads(sampled)
    decreases |sampled|
  {
    var last := |sampled| - 1;
    if i < last {
      SampledPrefix(sampled[..last], i);
      assert sampled[..last][..i] == sampled[..i];
    }
  }

  /** Capturing changes sampled variables only. */
  lemma {:induction false} CaptureFrame(sampled: seq<Sampled>, store: Store, id: nat)
    requires Captured(sampled, store).Some? && id < |store|
    ensures id !in SampledIds(sampled) ==> Captured(sampled, store).value[id] == store[id]
  {
    hide ValueOf;
    if sampled != [] {
      CaptureFrame(sampled[..|sampled| - 1], store, id);
    }
  }

  /** Registers hold in `eval` what they held before it. */
  lemma RegistersInEval(design: Design, values: Store, given: Store, id: nat)
    requires Accepted(design) && SoundDesign(design) && id in Registers(design)
    requires |given| == |values| == |design.widths|
    requires Evaluated(design, OrderOfDesign(design), values, given).Some?
    ensures id < |values| && SameShape(Evaluated(design, OrderOfDesign(design), values, given).value,
      Evaluated(design, OrderOfDesign(design), values, given).value)
    ensures |Evaluated(design, OrderOfDesign(design), values, given).value| == |values|
    ensures Evaluated(design, OrderOfDesign(design), values, given).value[id] == values[id]
  {
    hide ExecuteAll;
    hide InputIds;
    hide Writes;
    hide WritesAll;
    hide Captured;
    hide GreedyOrder;
    hide WritesOfAll;
    var env := Applied(values, given, InputIds(design));
    var state := State(env, env);
    var after := ExecuteAll(OrderOfDesign(design), state).value;
    RegistersAreWritten(design);
    GreedyOrderWrites(design.combinational, StartIds(design));
    assert id in RegisterIds(design);
    WritesFrameAll(OrderOfDesign(design), state, id);
    CaptureFrame(design.sampled, after.env, id);
  }

  lemma RegistersAreWritten(design: Design)
    ensures Registers(design) <= WritesAll(design.sequential)
  {
    hide WritesAll;
    hide WritesOfAll;
    WritesAllSplit(design.sequential);
    RememberedWritten(design.sequential);
  }

  lemma {:induction false} RememberedWritten(processes: seq<Statement>)
    ensures Remembered(processes) <= WritesAll(processes)
  {
    hide Writes;
    hide LiveIn;
    if processes != [] {
      RememberedWritten(processes[..|processes| - 1]);
    }
  }

  lemma KnownContainsRegisters(design: Design)
    ensures RegisterIds(design) <= KnownIds(design)
    ensures WritesOfAll(design.sequential, true) <= RegisterIds(design)
    ensures Registers(design) <= RegisterIds(design)
  {
    hide AssignedByAll;
    hide WritesOfAll;
    hide InputIds;
    hide AllReads;
    hide AllWrites;
    hide Remembered;
    AssignedAllGrows(OrderOfDesign(design), StartIds(design));
  }

  lemma ObservedIsExposed(design: Design)
    requires SoundDesign(design)
    ensures ObservedIds(design) <= ExposedIds(design) && ObservedIds(design) <= KnownIds(design)
    ensures StartKeys(design) == StartIds(design)
  {
    hide GreedyOrder;
    hide InputIds;
    hide AssignedByAll;
    hide WritesOfAll;
    hide SampledIds;
    hide WritesAll;
    KnownContainsRegisters(design);
    StartKeysAreIds(design);
    AssignedAreWritten(OrderOfDesign(design), StartIds(design));
  }

  lemma StartKeysAreIds(design: Design)
    requires SoundDesign(design)
    ensures StartKeys(design) == StartIds(design)
  {
    assert RegistersInRange(design) == RegisterIds(design);
  }

  // ----- starting a cycle from registers only -----

  /** What the symbolic backend takes the variables to be when a cycle starts. */
  function Cleared(design: Design, values: Store): (r: Store)
    ensures |r| == |values|
  {
    seq(|values|, i requires 0 <= i < |values| => if i in RegisterIds(design) then values[i] else Zeros(|values[i]|))
  }

  function StartState(design: Design, values: Store, given: Store): State
    requires |given| == |values|
  {
    var env := Applied(values, given, InputIds(design));
    State(env, env)
  }

  lemma ClearedStart(design: Design, values: Store, given: Store)
    requires |given| == |values|
    ensures Alike(StartState(design, values, given), StartState(design, Cleared(design, values), given), StartIds(design))
  {
    hide InputIds;
    hide RegisterIds;
  }

  /** Combinational logic of a convertible design does the same from either start. */
  lemma CombinationalCleared(design: Design, values: Store, given: Store)
    requires Convertible(design) && |given| == |values|
    ensures SameOutcome(Block(OrderOfDesign(design)), StartState(design, values, given),
      StartState(design, Cleared(design, values), given), StartIds(design), design.widths)
  {
    ClearedStart(design, values, given);
    hide OrderOfDesign;
    hide StartState;
    hide Cleared;
    hide StartIds;
    hide SoundDesign;
    NonInterference(Block(OrderOfDesign(design)), StartState(design, values, given),
      StartState(design, Cleared(design, values), given), StartIds(design), design.widths);
  }

  /** Samples of variables on which two stores agree agree. */
  lemma {:induction false} CapturedAgree(sampled: seq<Sampled>, a: Store, b: Store, known: set<nat>)
    requires AgreeOn(a, b, known) && SampledReads(sampled) <= known
    ensures Captured(sampled, a).Some? <==> Captured(sampled, b).Some?
    ensures Captured(sampled, a).Some? ==>
      AgreeOn(Captured(sampled, a).value, Captured(sampled, b).value, known + SampledIds(sampled))
  {
    hide ValueOf;
    hide ExpressionReads;
    if sampled != [] {
      var shorter, last := sampled[..|sampled| - 1], sampled[|sampled| - 1];
      CapturedAgree(shorter, a, b, known);
      if Captured(shorter, a).Some? {
        var a', b' := Captured(shorter, a).value, Captured(shorter, b).value;
        AgreeOnSome(a', b', known + SampledIds(shorter), ExpressionReads(last.value));
        ValueAgrees(last.value, a', b');
      }
    }
  }

  /** What `eval` sees of the known variables is the same from either start. */
  lemma EvaluatedCleared(design: Design, values: Store, given: Store)
    requires Convertible(design) && |given| == |values|
    ensures
      var ordered := OrderOfDesign(design);
      var a, b := Evaluated(design, ordered, values, given), Evaluated(design, ordered, Cleared(design, values), given);
      && (a.Some? <==> b.Some?)
      && (a.Some? ==> AgreeOn(a.value, b.value, KnownIds(design)))
  {
    CombinationalCleared(design, values, given);
    hide OrderOfDesign;
    hide Cleared;
    hide StartIds;
    hide SoundDesign;
    hide ExecuteAll;
    hide AllStayInRange;
    hide Captured;
    hide AssignedByAll;
    var ordered := OrderOfDesign(design);
    var s, t := StartState(design, values, given), StartState(design, Cleared(design, values), given);
    if ExecuteAll(ordered, s).Some? {
      var known := AssignedByAll(ordered, StartIds(design));
      OutcomesAreAlike(s, t, ExecuteAll(ordered, s).value, ExecuteAll(ordered, t).value, known);
      CapturedAgree(design.sampled, ExecuteAll(ordered, s).value.env, ExecuteAll(ordered, t).value.env, known);
    }
  }

  /** Clocked processes of a convertible design do the same to stores that agree on the
      known variables. */
  lemma ClockedCleared(design: Design, a: Store, b: Store)
    requires Accepted(design) && Convertible(design) && AgreeOn(a, b, KnownIds(design))
    ensures AllStayInRange(design.sequential, State(a, a), design.widths) <==>
      AllStayInRange(design.sequential, State(b, b), design.widths)
    ensures
      var nonblocking := WritesOfAll(design.sequential, true);
      var a', b' := RunSequential(design.sequential, nonblocking, a), RunSequential(design.sequential, nonblocking, b);
      && (a'.Some? <==> b'.Some?)
      && (a'.Some? ==> AgreeOn(a'.value, b'.value, RegisterIds(design)))
  {
    hide WritesOfAll;
    hide Accepted;
    hide KnownIds;
    hide Temporaries;
    hide ExecuteAll;
    hide AllStayInRange;
    hide RegisterIds;
    hide SoundDesign;
    hide PositiveWidths;
    hide AssignedByAll;
    hide LiveInAll;
    hide OrderOfDesign;
    hide StartIds;
    var known := KnownIds(design);
    AcceptedLiveIn(design, known, |design.sequential|);
    assert design.sequential[..|design.sequential|] == design.sequential;
    NonInterference(Block(design.sequential), State(a, a), State(b, b), known, design.widths);
    if ExecuteAll(design.sequential, State(a, a)).Some? {
      KnownContainsRegisters(design);
      AssignedAllGrows(design.sequential, known);
      CommitsAgree(design, a, b, ExecuteAll(design.sequential, State(a, a)).value,
        ExecuteAll(design.sequential, State(b, b)).value, AssignedByAll(design.sequential, known));
    }
  }

  lemma CommitsAgree(design: Design, a: Store, b: Store, s: State, t: State, known: set<nat>)
    requires OutcomesAgree(State(a, a), State(b, b), s, t, known) && RegisterIds(design) <= KnownIds(design) <= known
    requires AgreeOn(a, b, KnownIds(design))
    ensures |s.env| == |s.pending| == |t.env| == |t.pending|
    ensures AgreeOn(Commit(s, WritesOfAll(design.sequential, true)), Commit(t, WritesOfAll(design.sequential, true)),
      RegisterIds(design))
  {
    hide WritesOfAll;
    hide RegisterIds;
    hide KnownIds;
    forall id | id in RegisterIds(design) && id < |s.env|
      ensures s.env[id] == t.env[id] && s.pending[id] == t.pending[id]
    {
      assert a[id] == b[id];
      assert forall k :: 0 <= k < |a[id]| ==> s.pending[id][k] == t.pending[id][k];
    }
  }

  /** A whole cycle: clearing what is neither input nor register changes neither whether it
      succeeds, nor any register, nor any variable that is known. */
  lemma ClearingIsInvisible(design: Design, values: Store, given: Store)
    requires Accepted(design) && Convertible(design) && |given| == |values|
    ensures
      var ordered, cleared := OrderOfDesign(design), Cleared(design, values);
      && (TickInRange(design, ordered, values, given) <==> TickInRange(design, ordered, cleared, given))
      && (Tick(design, ordered, values, given).Some? <==> Tick(design, ordered, cleared, given).Some?)
      && (Tick(design, ordered, values, given).Some? ==>
            && AgreeOn(Tick(design, ordered, values, given).value, Tick(design, ordered, cleared, given).value,
                 RegisterIds(design))
            && AgreeOn(Evaluated(design, ordered, values, given).value, Evaluated(design, ordered, cleared, given).value,
                 KnownIds(design)))
  {
    CombinationalCleared(design, values, given);
    EvaluatedCleared(design, values, given);
    var ordered, cleared := OrderOfDesign(design), Cleared(design, values);
    var a, b := Evaluated(design, ordered, values, given), Evaluated(design, ordered, cleared, given);
    hide OrderOfDesign;
    hide Cleared;
    hide StartIds;
    hide Convertible;
    hide Evaluated;
    hide RunSequential;
    hide Accepted;
    hide KnownIds;
    hide RegisterIds;
    hide WritesOfAll;
    if a.Some? {
      ClockedCleared(design, a.value, b.value);
    }
  }

  // ----- what can be seen of it -----

  /** The variables assigned as a whole on the path taken. */
  function AssignedOn(statement: Statement, state: State): set<nat>
    decreases statement
  {
    match statement
    case Block(statements) => AssignedOnAll(statements, state)
    case Assign(kind, target, _) => if kind != Nonblocking && target.Whole? then {target.id} else {}
    case If(condition, thenStatements, elseStatements) =>
      match ValueOf(condition, state.env)
      case None => {}
      case Some(c) => AssignedOnAll(if Runtime.Truthy(c) then thenStatements else elseStatements, state)
  }

  function AssignedOnAll(statements: seq<Statement>, state: State): set<nat>
    decreases statements
  {
    if statements == [] then {}
    else
      var before := statements[..|statements| - 1];
      AssignedOnAll(before, state) +
      match ExecuteAll(before, state)
      case None => {}
      case Some(middle) => AssignedOn(statements[|statements| - 1], middle)
  }

  /** Two states that agree on `known` take one path. It gives what it assigns the same
      value in both, and leaves everything else as it was. */
  ghost predicate OnePath(statement: Statement, s: State, t: State, known: set<nat>)
    requires Execute(statement, s).Some?
  {
    && SameShape(s.env, t.env) && Execute(statement, t).Some? && AssignedOn(statement, s) == AssignedOn(statement, t)
    && SameShape(Execute(statement, s).value.env, s.env)
    && Alike(Execute(statement, s).value, Execute(statement, t).value, known + AssignedOn(statement, s))
    && AssignedBy(statement, known) <= known + AssignedOn(statement, s)
    && (forall id :: 0 <= id < |s.env| && id !in known + AssignedOn(statement, s) ==>
          Execute(statement, s).value.env[id] == s.env[id] && Execute(statement, t).value.env[id] == t.env[id])
  }

  lemma {:induction false} PathsAgree(statement: Statement, s: State, t: State, known: set<nat>)
    requires Alike(s, t, known) && LiveIn(statement, known) == {} && Execute(statement, s).Some?
    ensures Execute(statement, t).Some? && OnePath(statement, s, t, known)
    decreases statement
  {
    hide ValueOf;
    hide Locate;
    hide OnePath;
    hide Alike;
    match statement {
      case Block(statements) => PathsAgreeAll(statements, s, t, known);
      case Assign(_, _, _) => AssignmentPath(statement, s, t, known);
      case If(condition, thenStatements, elseStatements) =>
        assert ExpressionReads(condition) <= known by {
          assert forall id :: id in ExpressionReads(condition) && id !in known ==> id in LiveIn(statement, known);
        }
        assert LiveInAll(thenStatements, known) == {} && LiveInAll(elseStatements, known) == {} by {
          assert LiveIn(statement, known) ==
            (ExpressionReads(condition) - known) + LiveInAll(thenStatements, known) + LiveInAll(elseStatements, known);
        }
        ConditionsAgree(condition, s, t, known);
        var taken := if Runtime.Truthy(ValueOf(condition, s.env).value) then thenStatements else elseStatements;
        assert Execute(statement, s) == ExecuteAll(taken, s) == Execute(Block(taken), s);
        PathsAgreeAll(taken, s, t, known);
        TakenPath(statement, taken, s, t, known);
    }
  }

  lemma ConditionsAgree(condition: Expression, s: State, t: State, known: set<nat>)
    requires Alike(s, t, known) && ExpressionReads(condition) <= known
    ensures ValueOf(condition, s.env) == ValueOf(condition, t.env)
  {
    ValueAgrees(condition, s.env, t.env);
  }

  lemma TakenPath(statement: Statement, taken: seq<Statement>, s: State, t: State, known: set<nat>)
    requires statement.If? && Execute(statement, s).Some?
    requires ValueOf(statement.condition, s.env) == ValueOf(statement.condition, t.env)
    requires taken == if Runtime.Truthy(ValueOf(statement.condition, s.env).value)
      then statement.thenStatements else statement.elseStatements
    requires Execute(Block(taken), s).Some? && OnePath(Block(taken), s, t, known)
    ensures Execute(statement, t).Some? && OnePath(statement, s, t, known)
  {
    hide ValueOf;
    hide ExecuteAll;
    hide AssignedOnAll;
    hide AssignedByAll;
    hide Alike;
  }

  lemma PartialRootKnown(statement: Statement, known: set<nat>)
    requires statement.Assign? && LiveIn(statement, known) == {}
    ensures !statement.target.Whole? ==> Root(statement.target) in known
  {
    PartialRootIsRead(statement.target);
    assert forall id :: id in TargetReads(statement.target) && id !in known ==> id in LiveIn(statement, known);
  }

  lemma AssignmentPath(statement: Statement, s: State, t: State, known: set<nat>)
    requires statement.Assign? && Alike(s, t, known) && LiveIn(statement, known) == {} && Execute(statement, s).Some?
    ensures Execute(statement, t).Some? && OnePath(statement, s, t, known)
  {
    hide ValueOf;
    hide Locate;
    hide OutcomesAgree;
    hide StaysInside;
    hide AgreementKept;
    NonInterference(statement, s, t, known, []);
    ExecuteKeepsShape(statement, s);
    OutcomesAreAlike(s, t, Execute(statement, s).value, Execute(statement, t).value, AssignedBy(statement, known));
    LocateRoot(statement.target, s.env);
    LocateRoot(statement.target, t.env);
    PartialRootKnown(statement, known);
  }

  lemma {:induction false} PathsAgreeAll(statements: seq<Statement>, s: State, t: State, known: set<nat>)
    requires Alike(s, t, known) && LiveInAll(statements, known) == {} && ExecuteAll(statements, s).Some?
    ensures Execute(Block(statements), t).Some? && OnePath(Block(statements), s, t, known)
    decreases statements
  {
    hide Alike;
    if statements == [] {
      EmptyPath(s, t, known);
    } else {
      hide OnePath;
      var before, last := statements[..|statements| - 1], statements[|statements| - 1];
      assert LiveInAll(before, known) == {} && LiveIn(last, AssignedByAll(before, known)) == {} by {
        assert LiveInAll(statements, known) == LiveInAll(before, known) + LiveIn(last, AssignedByAll(before, known));
      }
      PathsAgreeAll(before, s, t, known);
      var s', t' := ExecuteAll(before, s).value, ExecuteAll(before, t).value;
      var known' := known + AssignedOnAll(before, s);
      PathMiddle(before, s, t, known);
      MoreAssigned(last, AssignedByAll(before, known), known');
      assert LiveIn(last, known') == {};
      PathsAgree(last, s', t', known');
      PathsChain(statements, s, t, known);
    }
  }

  lemma EmptyPath(s: State, t: State, known: set<nat>)
    requires Alike(s, t, known)
    ensures Execute(Block([]), t).Some? && OnePath(Block([]), s, t, known)
  {
    assert known + {} == known;
  }

  lemma PathMiddle(before: seq<Statement>, s: State, t: State, known: set<nat>)
    requires ExecuteAll(before, s).Some? && ExecuteAll(before, t).Some? && OnePath(Block(before), s, t, known)
    ensures Alike(ExecuteAll(before, s).value, ExecuteAll(before, t).value, known + AssignedOnAll(before, s))
    ensures AssignedByAll(before, known) <= known + AssignedOnAll(before, s)
  {
    hide Alike;
  }

  lemma PathsChain(statements: seq<Statement>, s: State, t: State, known: set<nat>)
    requires statements != [] && ExecuteAll(statements, s).Some?
    requires var before := statements[..|statements| - 1];
      && ExecuteAll(before, t).Some? && OnePath(Block(before), s, t, known)
      && OnePath(statements[|statements| - 1], ExecuteAll(before, s).value, ExecuteAll(before, t).value,
           known + AssignedOnAll(before, s))
    ensures Execute(Block(statements), t).Some? && OnePath(Block(statements), s, t, known)
  {
    var before, last := statements[..|statements| - 1], statements[|statements| - 1];
    var s', t' := ExecuteAll(before, s).value, ExecuteAll(before, t).value;
    var known' := known + AssignedOnAll(before, s);
    assert AssignedOnAll(statements, s) == AssignedOnAll(before, s) + AssignedOn(last, s');
    assert AssignedOnAll(statements, t) == AssignedOnAll(before, t) + AssignedOn(last, t');
    assert known' + AssignedOn(last, s') == known + AssignedOnAll(statements, s);
    MoreAssigned(last, AssignedByAll(before, known), known');
    assert AssignedByAll(statements, known) == AssignedBy(last, AssignedByAll(before, known));
    hide AssignedOn;
    hide AssignedOnAll;
    hide AssignedByAll;
    hide Alike;
  }

  // ----- exactly when the two backends show the same value -----

  /** Nothing gives the variable a value in this cycle: it is neither stored nor an input
      nor sampled, and the path taken does not assign it. */
  predicate Skipped(design: Design, values: Store, given: Store, id: nat)
    requires |given| == |values|
  {
    && id !in StartIds(design) && id !in SampledIds(design.sampled)
    && id !in AssignedOnAll(OrderOfDesign(design), StartState(design, values, given))
  }

  lemma CombinationalPath(design: Design, values: Store, values': Store, given: Store)
    requires Convertible(design) && |given| == |values| == |values'|
    requires Alike(StartState(design, values, given), StartState(design, values', given), StartIds(design))
    requires ExecuteAll(OrderOfDesign(design), StartState(design, values, given)).Some?
    ensures ExecuteAll(OrderOfDesign(design), StartState(design, values', given)).Some?
    ensures OnePath(Block(OrderOfDesign(design)), StartState(design, values, given), StartState(design, values', given),
      StartIds(design))
  {
    hide OrderOfDesign;
    hide StartState;
    hide StartIds;
    hide SoundDesign;
    hide OnePath;
    PathsAgree(Block(OrderOfDesign(design)), StartState(design, values, given), StartState(design, values', given),
      StartIds(design));
  }

  /** One variable after combinational logic: skipped and kept, or the same from alike
      starts. */
  lemma SkippedIsKept(design: Design, values: Store, values': Store, given: Store, id: nat)
    requires Convertible(design) && |given| == |values| == |values'| && id < |values|
    requires Alike(StartState(design, values, given), StartState(design, values', given), StartIds(design))
    requires Evaluated(design, OrderOfDesign(design), values, given).Some?
    ensures
      var a, b := Evaluated(design, OrderOfDesign(design), values, given), Evaluated(design, OrderOfDesign(design), values', given);
      && b.Some? && |a.value| == |b.value| == |values|
      && (Skipped(design, values, given, id) <==> Skipped(design, values', given, id))
      && if Skipped(design, values, given, id) then a.value[id] == values[id] && b.value[id] == values'[id]
         else a.value[id] == b.value[id]
  {
    CombinationalPath(design, values, values', given);
    var ordered := OrderOfDesign(design);
    var s, t := StartState(design, values, given), StartState(design, values', given);
    assert id !in StartIds(design) ==> s.env[id] == values[id] && t.env[id] == values'[id];
    hide OrderOfDesign;
    hide StartIds;
    hide SoundDesign;
    hide ExecuteAll;
    hide Captured;
    hide AssignedOnAll;
    hide AssignedByAll;
    hide Applied;
    var a, b := ExecuteAll(ordered, s).value.env, ExecuteAll(ordered, t).value.env;
    CapturedAgree(design.sampled, a, b, StartIds(design) + AssignedOnAll(ordered, s));
    CaptureFrame(design.sampled, a, id);
    CaptureFrame(design.sampled, b, id);
  }

  /** A variable has the same value in both backends exactly when the path taken assigns
      it, or the value kept from the cycle before is zero. */
  lemma KeptExactly(design: Design, values: Store, given: Store, id: nat)
    requires Convertible(design) && |given| == |values| && id < |values|
    requires Evaluated(design, OrderOfDesign(design), values, given).Some?
    ensures
      var ordered, cleared := OrderOfDesign(design), Cleared(design, values);
      var a, b := Evaluated(design, ordered, values, given), Evaluated(design, ordered, cleared, given);
      && b.Some? && |a.value| == |b.value| == |values|
      && (a.value[id] == b.value[id] <==> (Skipped(design, values, given, id) ==> values[id] == Zeros(|values[id]|)))
  {
    ClearedStart(design, values, given);
    SkippedIsKept(design, values, Cleared(design, values), given, id);
  }

  /** Variables assigned on every path are never skipped. */
  lemma AssignedIsNotSkipped(design: Design, values: Store, given: Store, id: nat)
    requires Convertible(design) && |given| == |values| && id < |values| && id in KnownIds(design)
    requires Evaluated(design, OrderOfDesign(design), values, given).Some?
    ensures !Skipped(design, values, given, id)
  {
    ClearedStart(design, values, given);
    CombinationalPath(design, values, Cleared(design, values), given);
    hide OrderOfDesign;
    hide StartIds;
    hide ExecuteAll;
    hide AssignedOnAll;
    hide AssignedByAll;
  }

  /** The two backends show the same value of a variable in some cycle. */
  predicate ShownAlike(design: Design, values: Store, given: Store, id: nat)
    requires |given| == |values|
  {
    var ordered, cleared := OrderOfDesign(design), Cleared(design, values);
    var a, b := Evaluated(design, ordered, values, given), Evaluated(design, ordered, cleared, given);
    a.Some? ==> b.Some? && id < |a.value| && id < |b.value| && a.value[id] == b.value[id]
  }

  /** A cycle that `eval` gets through. */
  predicate Evaluates(design: Design, values: Store, given: Store) {
    && Shaped(values, design.widths) && Shaped(given, design.widths)
    && Evaluated(design, OrderOfDesign(design), values, given).Some?
  }

  /** For all values and inputs the two backends show the same exactly when no values and
      inputs take a path that skips the variable. */
  lemma ShownAlikeExactly(design: Design, id: nat)
    requires Convertible(design) && id < |design.widths| && design.widths[id] > 0
    ensures (forall values, given :: Evaluates(design, values, given) ==> ShownAlike(design, values, given, id)) <==>
      (forall values, given :: Evaluates(design, values, given) ==> !Skipped(design, values, given, id))
  {
    hide Convertible;
    hide OrderOfDesign;
    hide Evaluated;
    hide Skipped;
    forall values, given | Evaluates(design, values, given)
      ensures ShownAlike(design, values, given, id) || Skipped(design, values, given, id)
    {
      KeptExactly(design, values, given, id);
    }
    if values, given :| Evaluates(design, values, given) && Skipped(design, values, given, id) {
      SkippedShows(design, values, given, id);
    }
  }

  /** Whatever is skipped can be seen: keeping a one is not taking a zero. */
  lemma SkippedShows(design: Design, values: Store, given: Store, id: nat)
    requires Convertible(design) && id < |design.widths| && design.widths[id] > 0
    requires Evaluates(design, values, given) && Skipped(design, values, given, id)
    ensures
      var other := values[id := seq(design.widths[id], _ => true)];
      Evaluates(design, other, given) && !ShownAlike(design, other, given, id)
  {
    var other := values[id := seq(design.widths[id], _ => true)];
    assert Alike(StartState(design, values, given), StartState(design, other, given), StartIds(design));
    hide Convertible;
    hide OrderOfDesign;
    hide Evaluated;
    SkippedIsKept(design, values, other, given, id);
    KeptExactly(design, other, given, id);
    assert other[id][0] && !Zeros(design.widths[id])[0];
  }
}
