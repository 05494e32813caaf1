/** The simulator under any sequence of operations. Setting an input, stepping and
    resetting leave gate values behind that belong to an earlier state, and only `eval`
    brings them up to date. This module says for every sequence which recorded values can
    be relied on, and that the others cannot. */
module SimulatorOperations {
  import opened Fsm
  import opened Translation
  import opened Simulator

  datatype Operation = SetInput(index: nat, value: Option<bool>) | Eval | Step | ResetState

  type Operations = seq<Operation>

  /** The simulator's knowledge after creating it and performing `ops`. */
  function After(m: Machine, ops: Operations): (known: Known)
    requires InRange(m) && Ordered(m.variables) && Drives(m, ops)
    ensures |known| == |m.variables|
  {
    if ops == [] then ResetLatches(m.variables, seq(|m.variables|, _ => None))
    else
      var last := |ops| - 1;
      Performed(m, ops[last], After(m, ops[..last]))
  }

  /** One operation: the methods of `Simulation`. */
  function Performed(m: Machine, op: Operation, known: Known): (r: Known)
    requires InRange(m) && Ordered(m.variables) && |known| == |m.variables|
    requires op.SetInput? ==> op.index < |m.variables|
    ensures |r| == |known|
  {
    match op
    case SetInput(i, value) => known[i := value]
    case Eval => Evaluated(m.variables, known)
    case Step => Clocked(m.variables, known)
    case ResetState => ResetLatches(m.variables, known)
  }

  /** Only inputs are set. */
  predicate Drives(m: Machine, ops: Operations) {
    forall k :: 0 <= k < |ops| && ops[k].SetInput? ==>
      ops[k].index < |m.variables| && m.variables[ops[k].index].InputDriver?
  }

  // ----- what the operations do to the hardware -----

  /** The hardware is always settled. Setting an input changes that input, to any value
      if it is set to unknown; a step moves the latches; a reset puts those with a reset
      value there and the others anywhere. */
  ghost predicate Moves(variables: seq<Driver>, op: Operation, s: Assignment, next: Assignment) {
    && (forall i :: 0 <= i < |variables| && variables[i].InputDriver? && !(op.SetInput? && op.index == i) ==>
          next(i) == s(i))
    && (op.SetInput? && op.value.Some? ==> next(op.index) == op.value.value)
    && (op.SetInput? || op.Eval? ==>
          forall i :: 0 <= i < |variables| && variables[i].LatchDriver? ==> next(i) == s(i))
    && (op.Step? ==> Steps(variables, s, next))
    && (op.ResetState? ==> Initial(variables, next))
  }

  /** The hardware can be in state `s` after `ops`. */
  ghost predicate Reaches(m: Machine, ops: Operations, s: Assignment) {
    && Settled(m.variables, s)
    && if ops == [] then Initial(m.variables, s)
       else
         var last := |ops| - 1;
         exists before :: Reaches(m, ops[..last], before) && Moves(m.variables, ops[last], before, s)
  }

  // ----- the discipline -----

  /** What a caller has to remember of the operations: the inputs known now, those known at
      the last `eval`, and whether the latches are, and then were, as reset left them. */
  datatype Tracker = Tracker(
    inputs: map<nat, bool>,
    reset: bool,
    evaluated: bool,
    inputsThen: map<nat, bool>,
    resetThen: bool,
    moved: bool)
  {
    predicate StaleInput(i: nat) {
      i in inputsThen && !(i in inputs && inputs[i] == inputsThen[i])
    }

    /** Latches have moved since the last `eval`, other than from reset back to reset. */
    predicate StaleLatches() {
      evaluated && moved && !(reset && resetThen)
    }

    /** Some gate may report a value that it no longer has. */
    predicate Stale() {
      StaleLatches() || exists i :: i in inputsThen && StaleInput(i)
    }
  }

  function Track(ops: Operations): Tracker {
    if ops == [] then Tracker(map[], true, false, map[], true, false)
    else Noted(Track(ops[..|ops| - 1]), ops[|ops| - 1])
  }

  function Noted(t: Tracker, op: Operation): Tracker {
    match op
    case SetInput(i, Some(b)) => t.(inputs := t.inputs[i := b])
    case SetInput(i, None) => t.(inputs := t.inputs - {i})
    case Eval => t.(evaluated := true, inputsThen := t.inputs, resetThen := t.reset, moved := false)
    case Step => t.(reset := false, moved := true)
    case ResetState => t.(reset := true, moved := true)
  }

  /** No step while gate values are stale. */
  predicate Disciplined(ops: Operations) {
    forall k :: 0 <= k < |ops| && ops[k].Step? ==> !Track(ops[..k]).Stale()
  }

  /** Right after evaluating nothing is stale. */
  lemma FreshAfterEval(ops: Operations)
    requires ops != [] && ops[|ops| - 1].Eval?
    ensures !Track(ops).Stale()
  {
  }

  /** Evaluating right before every step is enough. */
  lemma EvalBeforeStep(ops: Operations)
    requires forall k :: 0 <= k < |ops| && ops[k].Step? ==> k > 0 && ops[k - 1].Eval?
    ensures Disciplined(ops)
  {
    forall k | 0 <= k < |ops| && ops[k].Step?
      ensures !Track(ops[..k]).Stale()
    {
      FreshAfterEval(ops[..k]);
    }
  }

  lemma Prefixes(m: Machine, ops: Operations)
    requires ops != [] && Drives(m, ops)
    ensures Drives(m, ops[..|ops| - 1])
    ensures ops[|ops| - 1].SetInput? ==>
      ops[|ops| - 1].index < |m.variables| && m.variables[ops[|ops| - 1].index].InputDriver?
  {
  }

  lemma DisciplinedPrefix(ops: Operations)
    requires ops != [] && Disciplined(ops)
    ensures Disciplined(ops[..|ops| - 1])
    ensures ops[|ops| - 1].Step? ==> !Track(ops[..|ops| - 1]).Stale()
  {
    var shorter := ops[..|ops| - 1];
    forall k | 0 <= k < |shorter| && shorter[k].Step?
      ensures !Track(shorter[..k]).Stale()
    {
      assert shorter[..k] == ops[..k];
    }
  }

  // ----- every disciplined sequence is sound -----

  /** The knowledge that the recorded gate values were computed from. */
  function Basis(m: Machine, ops: Operations): (known: Known)
    requires InRange(m) && Ordered(m.variables) && Drives(m, ops)
    ensures |known| == |m.variables|
  {
    if ops == [] then seq(|m.variables|, _ => None)
    else
      var shorter := ops[..|ops| - 1];
      if ops[|ops| - 1].Eval? then After(m, shorter) else Basis(m, shorter)
  }

  function Recorded(inputs: map<nat, bool>, i: nat): Option<bool> {
    if i in inputs then Some(inputs[i]) else None
  }

  /** Inputs are as the tracker says, latches too when just reset, nothing else is known. */
  ghost predicate TrackedBy(variables: seq<Driver>, known: Known, inputs: map<nat, bool>, reset: bool) {
    && |known| == |variables|
    && (forall i :: 0 <= i < |known| && variables[i].InputDriver? ==> known[i] == Recorded(inputs, i))
    && (forall i :: 0 <= i < |known| && variables[i].Undriven? ==> known[i] == None)
    && (reset ==> forall i :: 0 <= i < |known| && variables[i].LatchDriver? ==>
          known[i] == Signed(variables[i].latch.reset, variables[i].latch.sign))
  }

  /** `k` and `l` know the same of the latches. */
  ghost predicate SameLatches(variables: seq<Driver>, k: Known, l: Known) {
    |k| == |l| == |variables| && forall i :: 0 <= i < |k| && variables[i].LatchDriver? ==> k[i] == l[i]
  }

  /** Gates report what the knowledge `basis` makes known of them, or nothing before the
      first evaluation. */
  ghost predicate GatesFrom(variables: seq<Driver>, known: Known, basis: Known, evaluated: bool) {
    && |known| == |basis| == |variables| && Ordered(variables)
    && forall i :: 0 <= i < |known| && variables[i].GateDriver? ==>
      known[i] == if evaluated then KnownAt(variables, basis, i) else None
  }

  lemma {:induction false} NowTracked(m: Machine, ops: Operations)
    requires InRange(m) && Ordered(m.variables) && Drives(m, ops)
    ensures TrackedBy(m.variables, After(m, ops), Track(ops).inputs, Track(ops).reset)
  {
    if ops != [] {
      Prefixes(m, ops);
      NowTracked(m, ops[..|ops| - 1]);
      PerformedTracked(m, ops[|ops| - 1], After(m, ops[..|ops| - 1]), Track(ops[..|ops| - 1]));
    }
  }

  lemma PerformedTracked(m: Machine, op: Operation, known: Known, t: Tracker)
    requires InRange(m) && Ordered(m.variables) && TrackedBy(m.variables, known, t.inputs, t.reset)
    requires op.SetInput? ==> op.index < |m.variables| && m.variables[op.index].InputDriver?
    ensures TrackedBy(m.variables, Performed(m, op, known), Noted(t, op).inputs, Noted(t, op).reset)
  {
    match op
    case SetInput(_, _) => hide Signed;
    case Eval => hide Signed;
    case Step => hide Signed, KnownValue;
    case ResetState => hide Signed;
  }

  lemma {:induction false} BasisTracked(m: Machine, ops: Operations)
    requires InRange(m) && Ordered(m.variables) && Drives(m, ops)
    ensures Track(ops).evaluated ==>
      TrackedBy(m.variables, Basis(m, ops), Track(ops).inputsThen, Track(ops).resetThen)
    ensures Track(ops).evaluated && !Track(ops).moved ==>
      SameLatches(m.variables, After(m, ops), Basis(m, ops))
  {
    if ops != [] {
      Prefixes(m, ops);
      BasisTracked(m, ops[..|ops| - 1]);
      NowTracked(m, ops[..|ops| - 1]);
    }
  }

  lemma {:induction false} GatesTracked(m: Machine, ops: Operations)
    requires InRange(m) && Ordered(m.variables) && Drives(m, ops)
    ensures GatesFrom(m.variables, After(m, ops), Basis(m, ops), Track(ops).evaluated)
  {
    if ops != [] {
      Prefixes(m, ops);
      GatesTracked(m, ops[..|ops| - 1]);
    }
  }

  /** Everything known of inputs and latches is so. */
  ghost predicate StateSound(variables: seq<Driver>, known: Known, s: Assignment) {
    forall i :: 0 <= i < |known| && i < |variables| && !variables[i].GateDriver? && known[i].Some? ==>
      known[i].value == s(i)
  }

  /** When nothing is stale, what the gates were computed from still holds. */
  lemma BasisSound(m: Machine, ops: Operations, s: Assignment)
    requires InRange(m) && Ordered(m.variables) && Drives(m, ops)
    requires StateSound(m.variables, After(m, ops), s)
    requires !Track(ops).Stale() && Track(ops).evaluated
    ensures StateSound(m.variables, Basis(m, ops), s)
  {
    NowTracked(m, ops);
    BasisTracked(m, ops);
    var t, known, basis := Track(ops), After(m, ops), Basis(m, ops);
    forall i | 0 <= i < |basis| && !m.variables[i].GateDriver? && basis[i].Some?
      ensures basis[i].value == s(i)
    {
      if m.variables[i].InputDriver? {
        assert i in t.inputsThen && !t.StaleInput(i);
      }
      assert known[i] == basis[i];
    }
  }

  /** ... and so do the values reported for gates. */
  lemma FreshSound(m: Machine, ops: Operations, s: Assignment)
    requires InRange(m) && Ordered(m.variables) && Drives(m, ops)
    requires Settled(m.variables, s) && StateSound(m.variables, After(m, ops), s)
    requires !Track(ops).Stale()
    ensures Sound(After(m, ops), s)
  {
    GatesTracked(m, ops);
    if Track(ops).evaluated {
      BasisSound(m, ops, s);
      EvaluatedSound(m.variables, Basis(m, ops), s);
      var evaluated := Evaluated(m.variables, Basis(m, ops));
      forall i | 0 <= i < |After(m, ops)| && After(m, ops)[i].Some?
        ensures After(m, ops)[i].value == s(i)
      {
        if m.variables[i].GateDriver? {
          assert evaluated[i] == After(m, ops)[i];
        }
      }
    }
  }

  /** Soundness of any disciplined sequence: what it makes known of inputs and latches is
      so, and what it makes known of gates is so unless stale. */
  lemma {:induction false} OperationsSound(m: Machine, ops: Operations, s: Assignment)
    requires Verified(m) && InRange(m) && Drives(m, ops)
    requires Disciplined(ops) && Reaches(m, ops, s)
    ensures StateSound(m.variables, After(m, ops), s)
    ensures !Track(ops).Stale() ==> Sound(After(m, ops), s)
  {
    if ops != [] {
      var last := |ops| - 1;
      var shorter, op := ops[..last], ops[last];
      Prefixes(m, ops);
      DisciplinedPrefix(ops);
      var before :| Reaches(m, shorter, before) && Moves(m.variables, op, before, s);
      OperationsSound(m, shorter, before);
      NowTracked(m, shorter);
      OperationSound(m, op, After(m, shorter), before, s);
    }
    if !Track(ops).Stale() {
      FreshSound(m, ops, s);
    }
  }

  lemma OperationSound(m: Machine, op: Operation, known: Known, s: Assignment, next: Assignment)
    requires InRange(m) && Ordered(m.variables) && |known| == |m.variables|
    requires op.SetInput? ==> op.index < |m.variables| && m.variables[op.index].InputDriver?
    requires StateSound(m.variables, known, s) && Moves(m.variables, op, s, next)
    requires forall i :: 0 <= i < |known| && m.variables[i].Undriven? ==> known[i] == None
    requires op.Step? ==> Sound(known, s)
    ensures StateSound(m.variables, Performed(m, op, known), next)
  {
    if op.Step? {
      ClockedSound(m, known, s, next);
    }
  }

  // ----- and no other -----

  /** The values that the hardware ends with, on every machine, are those reported. */
  ghost predicate AlwaysSound(ops: Operations) {
    forall m, s :: Verified(m) && InRange(m) && Drives(m, ops) && Reaches(m, ops, s) ==> Sound(After(m, ops), s)
  }

  /** ... as far as inputs and latches are concerned. */
  ghost predicate AlwaysStateSound(ops: Operations) {
    forall m, s :: Verified(m) && InRange(m) && Drives(m, ops) && Reaches(m, ops, s) ==>
      StateSound(m.variables, After(m, ops), s)
  }

  /** One more than every input set. */
  function Above(ops: Operations): nat {
    if ops == [] then 0
    else
      var n := Above(ops[..|ops| - 1]);
      match ops[|ops| - 1]
      case SetInput(i, _) => if i < n then n else i + 1
      case _ => n
  }

  lemma {:induction false} AboveAll(ops: Operations, k: nat)
    requires k < |ops| && ops[k].SetInput?
    ensures ops[k].index < Above(ops)
  {
    if k < |ops| - 1 {
      AboveAll(ops[..|ops| - 1], k);
    }
  }

  /** `n` inputs; a latch that toggles from zero; a latch that is one after any step and
      has no reset value; a buffer of the variable `watched`; a latch reading that. */
  function Watch(n: nat, watched: nat): Machine {
    Machine(
      seq(n, _ => InputDriver) + [
        LatchDriver(Latch(true, Variable(Var(false, n)), Some(false))),
        LatchDriver(Latch(true, Constant(true), None)),
        GateDriver(Gate(true, And, Constant(true), Variable(Var(true, watched)))),
        LatchDriver(Latch(true, Variable(Var(true, n + 2)), None))],
      [Variable(Var(true, n + 2))], [], [], [])
  }

  lemma WatchDrivers(n: nat, watched: nat)
    ensures |Watch(n, watched).variables| == n + 4
    ensures forall i :: 0 <= i < n ==> Watch(n, watched).variables[i] == InputDriver
    ensures Watch(n, watched).variables[n] == LatchDriver(Latch(true, Variable(Var(false, n)), Some(false)))
    ensures Watch(n, watched).variables[n + 1] == LatchDriver(Latch(true, Constant(true), None))
    ensures Watch(n, watched).variables[n + 2] ==
      GateDriver(Gate(true, And, Constant(true), Variable(Var(true, watched))))
    ensures Watch(n, watched).variables[n + 3] == LatchDriver(Latch(true, Variable(Var(true, n + 2)), None))
  {
  }

  lemma WatchVerified(n: nat, watched: nat)
    requires watched < n + 2
    ensures Verified(Watch(n, watched)) && InRange(Watch(n, watched))
  {
    var m := Watch(n, watched);
    assert m.outputs == [Variable(Var(true, n + 2))] && m.asserts == m.assumes == m.covers == [];
    WatchDrivers(n, watched);
    hide Watch;
    assert forall i :: 0 <= i < n + 4 && m.variables[i].GateDriver? ==> i == n + 2;
    assert WellDriven(m) by {
      assert forall i :: 0 <= i < n + 4 && m.variables[i].LatchDriver? ==> Driven(m.variables, m.variables[i].latch.input);
    }
    WellDrivenInRange(m);
  }

  lemma WatchDriven(n: nat, watched: nat, ops: Operations)
    requires Above(ops) <= n
    ensures Drives(Watch(n, watched), ops)
  {
    forall k | 0 <= k < |ops| && ops[k].SetInput?
      ensures ops[k].index < n
    {
      AboveAll(ops, k);
    }
  }

  /** Hardware inputs chosen against the simulator: an input set to unknown takes the value
      that the last evaluation did not see. */
  function InputAt(ops: Operations, i: nat): bool {
    if ops == [] then false
    else
      var shorter := ops[..|ops| - 1];
      match ops[|ops| - 1]
      case SetInput(j, Some(b)) => if i == j then b else InputAt(shorter, i)
      case SetInput(j, None) =>
        if i == j && i in Track(shorter).inputsThen then !Track(shorter).inputsThen[i] else InputAt(shorter, i)
      case _ => InputAt(shorter, i)
  }

  function ToggleAt(ops: Operations): bool {
    if ops == [] then false
    else
      match ops[|ops| - 1]
      case Step => !ToggleAt(ops[..|ops| - 1])
      case ResetState => false
      case _ => ToggleAt(ops[..|ops| - 1])
  }

  function ToggleThen(ops: Operations): bool {
    if ops == [] then false
    else if ops[|ops| - 1].Eval? then ToggleAt(ops[..|ops| - 1])
    else ToggleThen(ops[..|ops| - 1])
  }

  function WatchedAt(ops: Operations, n: nat, watched: nat): bool {
    if watched == n then ToggleAt(ops)
    else if watched == n + 1 then !Track(ops).reset
    else InputAt(ops, watched)
  }

  function CopyAt(ops: Operations, n: nat, watched: nat): bool {
    if ops == [] then false
    else
      match ops[|ops| - 1]
      case Step => WatchedAt(ops[..|ops| - 1], n, watched)
      case ResetState => false
      case _ => CopyAt(ops[..|ops| - 1], n, watched)
  }

  /** The state that the hardware of `Watch` is in after `ops`. */
  function Witness(ops: Operations, n: nat, watched: nat): Assignment {
    (i: nat) =>
      if i < n then InputAt(ops, i)
      else if i == n then ToggleAt(ops)
      else if i == n + 1 then !Track(ops).reset
      else if i == n + 2 then WatchedAt(ops, n, watched)
      else CopyAt(ops, n, watched)
  }

  lemma {:induction false} WitnessReached(ops: Operations, n: nat, watched: nat)
    requires Above(ops) <= n && watched < n + 2
    ensures Reaches(Watch(n, watched), ops, Witness(ops, n, watched))
  {
    var m, s := Watch(n, watched), Witness(ops, n, watched);
    WitnessSettled(ops, n, watched);
    if ops == [] {
      WatchDrivers(n, watched);
      hide Watch;
      assert s(n) == ToggleAt(ops) == false;
    } else {
      var last := |ops| - 1;
      WitnessReached(ops[..last], n, watched);
      WitnessMoves(ops, n, watched);
    }
  }

  lemma WitnessSettled(ops: Operations, n: nat, watched: nat)
    requires watched < n + 2
    ensures Settled(Watch(n, watched).variables, Witness(ops, n, watched))
  {
    WatchDrivers(n, watched);
    hide Watch;
    hide InputAt;
    hide CopyAt;
    assert Witness(ops, n, watched)(watched) == WatchedAt(ops, n, watched);
    assert Witness(ops, n, watched)(n + 2) == WatchedAt(ops, n, watched);
  }

  lemma WitnessSteps(ops: Operations, n: nat, watched: nat)
    requires ops != [] && ops[|ops| - 1].Step? && watched < n + 2
    ensures Steps(Watch(n, watched).variables, Witness(ops[..|ops| - 1], n, watched), Witness(ops, n, watched))
  {
    var shorter := ops[..|ops| - 1];
    var s, next := Witness(shorter, n, watched), Witness(ops, n, watched);
    assert s(n) == ToggleAt(shorter) && next(n) == ToggleAt(ops);
    assert next(n + 1) == !Track(ops).reset;
    assert s(n + 2) == WatchedAt(shorter, n, watched) && next(n + 3) == CopyAt(ops, n, watched);
    WatchDrivers(n, watched);
    hide Watch, WatchedAt, InputAt;
  }

  lemma WitnessSet(ops: Operations, n: nat, watched: nat)
    requires ops != [] && ops[|ops| - 1].SetInput? && Above(ops) <= n
    ensures var op := ops[|ops| - 1];
      op.value.Some? ==> Witness(ops, n, watched)(op.index) == op.value.value
  {
    AboveAll(ops, |ops| - 1);
  }

  lemma WitnessResets(ops: Operations, n: nat, watched: nat)
    requires ops != [] && ops[|ops| - 1].ResetState?
    ensures Initial(Watch(n, watched).variables, Witness(ops, n, watched))
  {
    WatchDrivers(n, watched);
    hide Watch, Track, CopyAt, WatchedAt, InputAt;
    assert Witness(ops, n, watched)(n) == ToggleAt(ops) == false;
  }

  lemma WitnessKept(ops: Operations, n: nat, watched: nat, i: nat)
    requires ops != [] && i < n + 4 && i != n + 2
    requires var op := ops[|ops| - 1]; if i < n then !op.SetInput? || op.index != i else op.SetInput? || op.Eval?
    ensures Witness(ops, n, watched)(i) == Witness(ops[..|ops| - 1], n, watched)(i)
  {
    var shorter := ops[..|ops| - 1];
    if i < n {
      assert InputAt(ops, i) == InputAt(shorter, i);
    } else if i == n {
      assert ToggleAt(ops) == ToggleAt(shorter);
    } else if i == n + 1 {
      assert Track(ops).reset == Track(shorter).reset;
    } else {
      assert CopyAt(ops, n, watched) == CopyAt(shorter, n, watched);
    }
  }

  lemma WitnessMoves(ops: Operations, n: nat, watched: nat)
    requires ops != [] && Above(ops) <= n && watched < n + 2
    ensures Moves(Watch(n, watched).variables, ops[|ops| - 1],
              Witness(ops[..|ops| - 1], n, watched), Witness(ops, n, watched))
  {
    var shorter, op := ops[..|ops| - 1], ops[|ops| - 1];
    var variables := Watch(n, watched).variables;
    var s, next := Witness(shorter, n, watched), Witness(ops, n, watched);
    if op.SetInput? {
      WitnessSet(ops, n, watched);
    }
    if op.ResetState? {
      WitnessResets(ops, n, watched);
    }
    if op.Step? {
      WitnessSteps(ops, n, watched);
    }
    WatchDrivers(n, watched);
    hide Watch, Witness, Steps, Initial, Above, InputAt, ToggleAt, CopyAt, Track;
    forall i | 0 <= i < |variables| && variables[i].InputDriver? && !(op.SetInput? && op.index == i)
      ensures next(i) == s(i)
    {
      WitnessKept(ops, n, watched, i);
    }
    forall i | 0 <= i < |variables| && variables[i].LatchDriver? && (op.SetInput? || op.Eval?)
      ensures next(i) == s(i)
    {
      WitnessKept(ops, n, watched, i);
    }
  }

  /** What the simulator knows of the watching machine: both latches, and the watched
      variable as it was at the last evaluation. */
  function WatchedThen(ops: Operations, n: nat, watched: nat): Option<bool> {
    var t := Track(ops);
    if !t.evaluated then None
    else if watched == n then Some(ToggleThen(ops))
    else if watched == n + 1 then if t.resetThen then None else Some(true)
    else Recorded(t.inputsThen, watched)
  }

  /** What the simulator knows of the watching machine after `ops`. */
  ghost predicate KnowsWatched(known: Known, ops: Operations, n: nat, watched: nat) {
    && |known| == n + 4 && known[n] == Some(ToggleAt(ops))
    && known[n + 1] == (if Track(ops).reset then None else Some(true))
    && known[n + 2] == WatchedThen(ops, n, watched)
  }

  lemma {:induction false} WatchKnown(ops: Operations, n: nat, watched: nat)
    requires Above(ops) <= n && watched < n + 2
    requires Drives(Watch(n, watched), ops) && InRange(Watch(n, watched)) && Ordered(Watch(n, watched).variables)
    ensures KnowsWatched(After(Watch(n, watched), ops), ops, n, watched)
  {
    var m := Watch(n, watched);
    WatchDrivers(n, watched);
    hide Watch;
    if ops != [] {
      var shorter, op := ops[..|ops| - 1], ops[|ops| - 1];
      Prefixes(m, ops);
      WatchKnown(shorter, n, watched);
      NowTracked(m, shorter);
      if op.SetInput? {
        AboveAll(ops, |ops| - 1);
      }
      hide Above, InRange, Drives, Performed;
      WatchPerformed(m, n, watched, op, After(m, shorter));
      if op.Eval? && watched < n {
        assert m.variables[watched].InputDriver?;
      }
    }
  }

  /** What one operation does to the latches and the buffer of the watching machine. */
  lemma WatchPerformed(m: Machine, n: nat, watched: nat, op: Operation, known: Known)
    requires m == Watch(n, watched) && watched < n + 2 && InRange(m) && Ordered(m.variables)
    requires |known| == n + 4 == |m.variables| && (op.SetInput? ==> op.index < n)
    ensures var next := Performed(m, op, known);
      && next[n] == (if op.Step? then Signed(known[n], false) else if op.ResetState? then Some(false) else known[n])
      && next[n + 1] == (if op.Step? then Some(true) else if op.ResetState? then None else known[n + 1])
      && next[n + 2] == if op.Eval? then known[watched] else known[n + 2]
  {
    WatchDrivers(n, watched);
    hide Watch;
    hide InRange;
    hide Ordered;
    if op.Eval? {
      WatchEvaluated(m, n, watched, known);
    }
    hide KnownAt;
  }

  /** The buffer evaluates to what it watches. */
  lemma WatchEvaluated(m: Machine, n: nat, watched: nat, known: Known)
    requires m == Watch(n, watched) && watched < n + 2 && InRange(m) && Ordered(m.variables)
    requires |known| == |m.variables|
    ensures n + 2 < |m.variables| && KnownAt(m.variables, known, n + 2) == known[watched]
  {
    WatchDrivers(n, watched);
    hide Watch;
    var g := m.variables[n + 2].gate;
    assert KnownAt(m.variables, known, watched) == known[watched];
    assert KnownInput(m.variables, known, n + 2, g.b) == known[watched];
    BufferKnown(known[watched]);
    hide KnownGate;
    assert KnownAt(m.variables, known, n + 2) == KnownGate(And, [Some(true), known[watched]]);
  }

  lemma BufferKnown(value: Option<bool>)
    ensures KnownGate(And, [Some(true), value]) == value
  {
    var values: Known := [Some(true), value];
    match value
    case None => assert values[1] == None;
    case Some(b) => assert values[1] == Some(b) && values[0] == Some(true);
  }

  /** The toggling latch: after a step since the evaluation it is not what it was. */
  lemma {:induction false} ToggleStale(ops: Operations)
    requires Disciplined(ops) && Track(ops).evaluated
    ensures !Track(ops).moved ==> ToggleAt(ops) == ToggleThen(ops)
    ensures Track(ops).reset ==> !ToggleAt(ops)
    ensures Track(ops).resetThen ==> !ToggleThen(ops)
    ensures Track(ops).moved && !Track(ops).reset ==> ToggleAt(ops) != ToggleThen(ops)
  {
    var shorter := ops[..|ops| - 1];
    DisciplinedPrefix(ops);
    ResetToggle(shorter);
    if Track(shorter).evaluated {
      ToggleStale(shorter);
    }
  }

  lemma {:induction false} ResetToggle(ops: Operations)
    ensures Track(ops).reset ==> !ToggleAt(ops)
  {
    if ops != [] {
      ResetToggle(ops[..|ops| - 1]);
    }
  }

  lemma {:induction false} InputStale(ops: Operations, i: nat)
    requires Track(ops).StaleInput(i)
    ensures InputAt(ops, i) != Track(ops).inputsThen[i]
  {
    InputRecorded(ops, i);
  }

  lemma {:induction false} InputRecorded(ops: Operations, i: nat)
    ensures i in Track(ops).inputs ==> InputAt(ops, i) == Track(ops).inputs[i]
    ensures i in Track(ops).inputsThen && i !in Track(ops).inputs ==> InputAt(ops, i) != Track(ops).inputsThen[i]
  {
    if ops != [] {
      InputRecorded(ops[..|ops| - 1], i);
    }
  }

  lemma EvaluatedInputs(ops: Operations)
    ensures !Track(ops).evaluated ==> Track(ops).inputsThen == map[]
  {
    if ops != [] {
      EvaluatedInputs(ops[..|ops| - 1]);
    }
  }

  /** Something to watch that the simulator gets wrong. */
  lemma StaleWatched(ops: Operations) returns (n: nat, watched: nat)
    requires Disciplined(ops) && Track(ops).Stale()
    ensures Above(ops) <= n && watched < n + 2
    ensures WatchedThen(ops, n, watched) == Some(!WatchedAt(ops, n, watched))
  {
    n := Above(ops);
    EvaluatedInputs(ops);
    if Track(ops).StaleLatches() {
      ToggleStale(ops);
      watched := if Track(ops).reset then n + 1 else n;
    } else {
      watched :| watched in Track(ops).inputsThen && Track(ops).StaleInput(watched);
      InputStale(ops, watched);
      if n <= watched {
        n := watched + 1;
      }
    }
  }

  /** After a stale sequence some machine's gate is reported wrong, and after one more
      step some latch. */
  lemma StaleUnsound(ops: Operations)
    requires Disciplined(ops) && Track(ops).Stale()
    ensures !AlwaysSound(ops) && !AlwaysStateSound(ops + [Step])
  {
    var n, watched := StaleWatched(ops);
    StaleGate(ops, n, watched);
    StaleLatch(ops, n, watched);
  }

  lemma StaleGate(ops: Operations, n: nat, watched: nat)
    requires Above(ops) <= n && watched < n + 2
    requires WatchedThen(ops, n, watched) == Some(!WatchedAt(ops, n, watched))
    ensures !AlwaysSound(ops)
  {
    var m, s := Watch(n, watched), Witness(ops, n, watched);
    WatchVerified(n, watched);
    WatchDriven(n, watched, ops);
    WatchKnown(ops, n, watched);
    WitnessReached(ops, n, watched);
    KnownBuffer(After(m, ops), ops, n, watched);
    hide WatchedThen, WatchedAt, Reaches, Verified, InRange, After, Watch, KnowsWatched;
    assert After(m, ops)[n + 2] == Some(!WatchedAt(ops, n, watched));
    assert s(n + 2) == WatchedAt(ops, n, watched);
    assert !Sound(After(m, ops), s);
  }

  lemma StaleLatch(ops: Operations, n: nat, watched: nat)
    requires Above(ops) <= n && watched < n + 2
    requires WatchedThen(ops, n, watched) == Some(!WatchedAt(ops, n, watched))
    ensures !AlwaysStateSound(ops + [Step])
  {
    var stepped := ops + [Step];
    assert stepped[..|stepped| - 1] == ops;
    assert Above(stepped) == Above(ops);
    var m, s := Watch(n, watched), Witness(stepped, n, watched);
    WatchVerified(n, watched);
    WatchDriven(n, watched, stepped);
    WatchDrivers(n, watched);
    WitnessReached(stepped, n, watched);
    assert s(n + 3) == CopyAt(stepped, n, watched) == WatchedAt(ops, n, watched);
    hide *;
    CopiedKnown(ops, n, watched);
    assert !StateSound(m.variables, After(m, stepped), s) by {
      WrongState(m.variables, After(m, stepped), s, n + 3);
    }
    NotAlwaysSound(stepped, m, s);
  }

  lemma WrongState(variables: seq<Driver>, known: Known, s: Assignment, i: nat)
    requires i < |known| && i < |variables| && !variables[i].GateDriver? && known[i] == Some(!s(i))
    ensures !StateSound(variables, known, s)
  {
  }

  lemma NotAlwaysSound(ops: Operations, m: Machine, s: Assignment)
    requires Verified(m) && InRange(m) && Drives(m, ops) && Reaches(m, ops, s)
    requires !StateSound(m.variables, After(m, ops), s)
    ensures !AlwaysStateSound(ops)
  {
    hide Verified, InRange, Drives, Reaches, StateSound, After;
  }

  /** A step copies the recorded gate value into the last latch. */
  lemma CopiedKnown(ops: Operations, n: nat, watched: nat)
    requires Above(ops) <= n && watched < n + 2
    ensures Drives(Watch(n, watched), ops + [Step])
    ensures InRange(Watch(n, watched)) && Ordered(Watch(n, watched).variables)
    ensures After(Watch(n, watched), ops + [Step])[n + 3] == WatchedThen(ops, n, watched)
  {
    var m, stepped := Watch(n, watched), ops + [Step];
    assert stepped[..|stepped| - 1] == ops;
    assert Above(stepped) == Above(ops);
    WatchVerified(n, watched);
    WatchDriven(n, watched, ops);
    WatchDriven(n, watched, stepped);
    WatchKnown(ops, n, watched);
    assert After(m, stepped) == Clocked(m.variables, After(m, ops));
    hide *;
    BufferCopied(m, n, watched, After(m, ops));
    KnownBuffer(After(m, ops), ops, n, watched);
  }

  lemma KnownBuffer(known: Known, ops: Operations, n: nat, watched: nat)
    requires KnowsWatched(known, ops, n, watched)
    ensures |known| == n + 4 && known[n + 2] == WatchedThen(ops, n, watched)
  {
    hide WatchedThen;
    hide Track;
  }

  lemma BufferCopied(m: Machine, n: nat, watched: nat, known: Known)
    requires m == Watch(n, watched) && InRange(m) && |known| == n + 4 == |m.variables|
    ensures Clocked(m.variables, known)[n + 3] == known[n + 2]
  {
    WatchDrivers(n, watched);
    hide Watch;
    hide InRange;
  }

  /** Gates can be read exactly when nothing is stale. */
  lemma ReadsSoundExactly(ops: Operations)
    requires Disciplined(ops)
    ensures AlwaysSound(ops) <==> !Track(ops).Stale()
  {
    if Track(ops).Stale() {
      StaleUnsound(ops);
    } else {
      forall m, s | Verified(m) && InRange(m) && Drives(m, ops) && Reaches(m, ops, s)
        ensures Sound(After(m, ops), s)
      {
        OperationsSound(m, ops, s);
      }
    }
  }

  /** Inputs and latches are right throughout exactly when no step is taken while stale. */
  lemma StepsSoundExactly(ops: Operations)
    ensures Disciplined(ops) <==> forall k :: 0 <= k <= |ops| ==> AlwaysStateSound(ops[..k])
  {
    if Disciplined(ops) {
      forall k | 0 <= k <= |ops|
        ensures AlwaysStateSound(ops[..k])
      {
        DisciplinedTake(ops, k);
        forall m, s | Verified(m) && InRange(m) && Drives(m, ops[..k]) && Reaches(m, ops[..k], s)
          ensures StateSound(m.variables, After(m, ops[..k]), s)
        {
          OperationsSound(m, ops[..k], s);
        }
      }
    } else {
      var k := FirstStaleStep(ops);
      StaleUnsound(ops[..k]);
      assert ops[..k] + [Step] == ops[..k + 1];
      assert !AlwaysStateSound(ops[..k + 1]);
    }
  }

  lemma DisciplinedTake(ops: Operations, k: nat)
    requires Disciplined(ops) && k <= |ops|
    ensures Disciplined(ops[..k])
  {
    forall j | 0 <= j < k && ops[..k][j].Step?
      ensures !Track(ops[..k][..j]).Stale()
    {
      assert ops[..k][..j] == ops[..j];
    }
  }

  lemma {:induction false} FirstStaleStep(ops: Operations) returns (k: nat)
    requires !Disciplined(ops)
    ensures k < |ops| && ops[k].Step? && Disciplined(ops[..k]) && Track(ops[..k]).Stale()
  {
    k :| 0 <= k < |ops| && ops[k].Step? && Track(ops[..k]).Stale();
    if !Disciplined(ops[..k]) {
      var j := FirstStaleStep(ops[..k]);
      assert ops[..k][..j] == ops[..j];
      k := j;
    }
  }

  lemma TrackAppend(ops: Operations, op: Operation)
    ensures Track(ops + [op]) == Noted(Track(ops), op)
  {
    assert (ops + [op])[..|ops + [op]| - 1] == ops;
  }

  /** The shortest failures: a second step without evaluating ... */
  lemma SecondStep()
    ensures !Disciplined([Eval, Step, Step])
  {
    TrackAppend([], Eval);
    TrackAppend([] + [Eval], Step);
    hide Track;
    var ops := [Eval, Step, Step];
    assert [] + [Eval] + [Step] == ops[..2];
    assert Track(ops[..2]).StaleLatches();
    assert ops[2].Step?;
  }

  /** ... and a gate read after its input was changed. */
  lemma ChangedInput(i: nat)
    ensures Disciplined([SetInput(i, Some(true)), Eval, SetInput(i, Some(false))])
    ensures Track([SetInput(i, Some(true)), Eval, SetInput(i, Some(false))]).Stale()
  {
    var set1, set2 := SetInput(i, Some(true)), SetInput(i, Some(false));
    TrackAppend([], set1);
    TrackAppend([] + [set1], Eval);
    TrackAppend([] + [set1] + [Eval], set2);
    hide Track;
    assert [] + [set1] + [Eval] + [set2] == [set1, Eval, set2];
    assert Track([set1, Eval, set2]).StaleInput(i);
  }
}
