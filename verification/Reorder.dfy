/** Reordering gates so that each only reads earlier variables. */
module Reorder {
  import opened Words
  import opened Fsm
  import opened Translation

  predicate RefersTo(value: Value, j: nat) {
    value.Variable? && value.v.index == j
  }

  /** Gate `i` reads gate `j`. */
  predicate ReadsGate(variables: seq<Driver>, i: nat, j: nat) {
    && i < |variables| && variables[i].GateDriver? && j < |variables| && variables[j].GateDriver?
    && (RefersTo(variables[i].gate.a, j) || RefersTo(variables[i].gate.b, j))
  }

  lemma ReadsGateBounds(variables: seq<Driver>, i: nat, j: nat)
    requires ReadsGate(variables, i, j)
    ensures i < |variables| && variables[i].GateDriver? && j < |variables| && variables[j].GateDriver?
  {
  }

  // ----- cyclic dependencies -----

  /** A set of gates each of which reads another gate of the set. */
  ghost predicate Stuck(variables: seq<Driver>, gates: set<nat>) {
    && gates != {}
    && forall i :: i in gates ==> exists j :: j in gates && ReadsGate(variables, i, j)
  }

  ghost predicate Cyclic(variables: seq<Driver>) {
    exists gates :: Stuck(variables, gates)
  }

  /** Every gate ranks above the gates it reads. */
  ghost predicate Ranks(variables: seq<Driver>, rank: nat -> nat) {
    forall i: nat, j: nat :: ReadsGate(variables, i, j) ==> rank(j) < rank(i)
  }

  /** No ranking exists if there is a cycle. */
  lemma {:induction false} CyclicHasNoRank(variables: seq<Driver>, gates: set<nat>, rank: nat -> nat, i: nat)
    requires Stuck(variables, gates) && Ranks(variables, rank) && i in gates
    ensures false
    decreases rank(i)
  {
    hide ReadsGate;
    var j :| j in gates && ReadsGate(variables, i, j);
    CyclicHasNoRank(variables, gates, rank, j);
  }

  // ----- the position of the gates -----

  datatype GatesLast = NoGates | FirstGate(index: nat) | NotLast

  /** Inputs and latches come before index `first`, which must not be zero. */
  ghost predicate LeadingNonGates(variables: seq<Driver>, first: nat) {
    && 0 < first
    && forall i :: first <= i < |variables| ==> variables[i].GateDriver? || variables[i].Undriven?
  }

  ghost predicate IsFirstGate(variables: seq<Driver>, first: nat) {
    && first < |variables| && variables[first].GateDriver?
    && forall i :: 0 <= i < first ==> !variables[i].GateDriver?
  }

  method VerifyGatesLast(variables: seq<Driver>) returns (r: GatesLast)
    ensures r == NoGates <==> forall i :: 0 <= i < |variables| ==> !variables[i].GateDriver?
    ensures r.FirstGate? ==> IsFirstGate(variables, r.index) && LeadingNonGates(variables, r.index)
    ensures r == NotLast <==> exists first: nat :: IsFirstGate(variables, first) && !LeadingNonGates(variables, first)
  {
    var firstGate: Option<nat> := None;
    var lastLatch, lastInput := 0, 0;
    for i := 0 to |variables|
      invariant firstGate == None ==> forall k :: 0 <= k < i ==> !variables[k].GateDriver?
      invariant firstGate.Some? ==> firstGate.value < i && IsFirstGate(variables, firstGate.value)
      invariant forall k :: 0 <= k < i && variables[k].LatchDriver? ==> k <= lastLatch
      invariant forall k :: 0 <= k < i && variables[k].InputDriver? ==> k <= lastInput
      invariant lastLatch == 0 || (lastLatch < i && variables[lastLatch].LatchDriver?)
      invariant lastInput == 0 || (lastInput < i && variables[lastInput].InputDriver?)
    {
      match variables[i]
      case GateDriver(_) =>
        firstGate := match firstGate
          case None => Some(i)
          case Some(existing) => Some(if existing <= i then existing else i);
      case LatchDriver(_) =>
        lastLatch := if lastLatch >= i then lastLatch else i;
      case InputDriver =>
        lastInput := if lastInput >= i then lastInput else i;
      case Undriven =>
    }
    if firstGate == None {
      return NoGates;
    }
    var first := firstGate.value;
    if first > lastInput && first > lastLatch {
      assert LeadingNonGates(variables, first);
      return FirstGate(first);
    }
    assert first == 0 || !(variables[lastInput].GateDriver? || variables[lastInput].Undriven?)
      || !(variables[lastLatch].GateDriver? || variables[lastLatch].Undriven?);
    return NotLast;
  }

  // ----- assigning new indices -----

  /** A gate input that does not hold up the gate. */
  predicate InputReady(variables: seq<Driver>, done: seq<bool>, input: Value)
    requires |done| == |variables| && input.Known(|variables|)
  {
    match input
    case Constant(_) => true
    case Variable(v) => !variables[v.index].GateDriver? || done[v.index]
  }

  predicate GateReady(variables: seq<Driver>, done: seq<bool>, i: nat)
    requires |done| == |variables| && GatesInRange(variables) && i < |variables| && variables[i].GateDriver?
  {
    InputReady(variables, done, variables[i].gate.a) && InputReady(variables, done, variables[i].gate.b)
  }

  /** A gate that is waiting for another unassigned gate. */
  ghost predicate Waiting(variables: seq<Driver>, done: seq<bool>, i: nat) {
    && |done| == |variables| && i < |variables| && variables[i].GateDriver? && !done[i]
    && exists j: nat :: ReadsGate(variables, i, j) && j < |done| && !done[j]
  }

  ghost predicate GatesInRange(variables: seq<Driver>) {
    forall i :: 0 <= i < |variables| && variables[i].GateDriver? ==>
      variables[i].gate.a.Known(|variables|) && variables[i].gate.b.Known(|variables|)
  }

  lemma ReadyOrWaiting(variables: seq<Driver>, done: seq<bool>, i: nat)
    requires |done| == |variables| && i < |variables| && variables[i].GateDriver? && !done[i]
    requires GatesInRange(variables)
    ensures GateReady(variables, done, i) <==> !Waiting(variables, done, i)
  {
    var g := variables[i].gate;
    if !InputReady(variables, done, g.a) {
      assert ReadsGate(variables, i, g.a.v.index);
    }
    if !InputReady(variables, done, g.b) {
      assert ReadsGate(variables, i, g.b.v.index);
    }
  }

  /** The gates assigned so far have distinct new indices from `first` up to
      `next`, each after the gates it reads; nothing else has moved. */
  ghost predicate Assigning(variables: seq<Driver>, first: nat, done: seq<bool>, mapping: seq<nat>, next: nat) {
    && |done| == |mapping| == |variables|
    && (forall i :: 0 <= i < |variables| && done[i] ==>
          variables[i].GateDriver? && first <= i && first <= mapping[i] < next)
    && (forall i :: 0 <= i < |variables| && !done[i] ==> mapping[i] == i)
    && (forall i, j :: 0 <= i < |variables| && 0 <= j < |variables| && done[i] && done[j] && i != j ==>
          mapping[i] != mapping[j])
    && (forall i: nat, j: nat :: ReadsGate(variables, i, j) && done[i] ==> done[j] && mapping[j] < mapping[i])
    && next == first + |AssignedSet(done)|
  }

  ghost function AssignedSet(done: seq<bool>): set<nat> {
    set i: nat | i < |done| && done[i]
  }

  ghost function Between(low: nat, high: nat): (r: set<nat>)
    requires low <= high
    ensures |r| == high - low
    ensures forall i :: i in r <==> low <= i < high
  {
    if low == high then {} else Between(low, high - 1) + {high - 1}
  }

  lemma SubsetSize(a: set<nat>, b: set<nat>)
    requires a <= b
    ensures |a| <= |b|
  {
    var c := b - a;
    assert a + c == b;
  }

  /** A ready gate takes the next index, which exists. */
  lemma AssignOne(variables: seq<Driver>, first: nat, done: seq<bool>, mapping: seq<nat>, next: nat, i: nat)
    requires Assigning(variables, first, done, mapping, next) && GatesInRange(variables)
    requires IsFirstGate(variables, first) && i < |variables| && variables[i].GateDriver? && !done[i]
    requires !Waiting(variables, done, i)
    ensures Assigning(variables, first, done[i := true], mapping[i := next], next + 1)
    ensures next < |variables|
  {
    OneMoreAssigned(first, done, i);
    var after, moved := done[i := true], mapping[i := next];
    forall k: nat, j: nat | ReadsGate(variables, k, j) && after[k]
      ensures after[j] && moved[j] < moved[k]
    {
      ReadsGateBounds(variables, k, j);
      if k == i {
        assert done[j];
      }
    }
  }

  lemma OneMoreAssigned(first: nat, done: seq<bool>, i: nat)
    requires first <= i < |done| && !done[i]
    requires forall k :: 0 <= k < |done| && done[k] ==> first <= k
    ensures |AssignedSet(done[i := true])| == |AssignedSet(done)| + 1
    ensures first + |AssignedSet(done)| < |done|
  {
    var after := done[i := true];
    assert AssignedSet(after) == AssignedSet(done) + {i};
    assert AssignedSet(after) <= Between(first, |done|);
    SubsetSize(AssignedSet(after), Between(first, |done|));
  }

  /** Gates of a stuck set are never assigned. */
  ghost predicate StuckUnassigned(variables: seq<Driver>, done: seq<bool>) {
    forall gates, i :: Stuck(variables, gates) && i in gates ==> i < |done| && !done[i]
  }

  lemma StuckStaysUnassigned(variables: seq<Driver>, done: seq<bool>, i: nat)
    requires |done| == |variables| && StuckUnassigned(variables, done)
    requires i < |variables| && variables[i].GateDriver? && !done[i] && !Waiting(variables, done, i)
    ensures StuckUnassigned(variables, done[i := true])
  {
    forall gates, k | Stuck(variables, gates) && k in gates
      ensures k < |done| && !done[i := true][k]
    {
      if k == i {
        StuckIsWaiting(variables, done, gates, i);
      }
    }
  }

  lemma StuckIsWaiting(variables: seq<Driver>, done: seq<bool>, gates: set<nat>, i: nat)
    requires |done| == |variables| && StuckUnassigned(variables, done) && Stuck(variables, gates) && i in gates
    ensures Waiting(variables, done, i)
  {
    hide ReadsGate;
    var j :| j in gates && ReadsGate(variables, i, j);
    ReadsGateBounds(variables, i, j);
    assert !done[i] && !done[j];
  }

  // ----- the work queue -----

  /** Every unassigned gate is queued, and the last `blocked` entries are waiting. */
  ghost predicate Queued(variables: seq<Driver>, done: seq<bool>, queue: seq<nat>, blocked: nat) {
    && |done| == |variables|
    && (forall k :: 0 <= k < |queue| ==> queue[k] < |variables|)
    && (forall i :: 0 <= i < |variables| && variables[i].GateDriver? && !done[i] ==> i in queue)
    && blocked <= |queue|
    && (forall k :: |queue| - blocked <= k < |queue| ==> Waiting(variables, done, queue[k]))
  }

  lemma SkipFront(variables: seq<Driver>, first: nat, done: seq<bool>, mapping: seq<nat>, next: nat,
                  queue: seq<nat>, blocked: nat)
    requires Progress(variables, first, done, mapping, next, queue, blocked) && queue != []
    requires queue[0] < |variables| == |done| && (done[queue[0]] || !variables[queue[0]].GateDriver?)
    ensures Progress(variables, first, done, mapping, next, queue[1..], blocked)
    ensures blocked <= |queue| - 1 && (|queue| > 1 ==> queue[1] < |variables|)
  {
    assert forall i :: i in queue ==> i == queue[0] || i in queue[1..];
  }

  /** A waiting gate goes to the back; if everything waits, there is a cycle. */
  lemma RequeueFront(variables: seq<Driver>, first: nat, done: seq<bool>, mapping: seq<nat>, next: nat,
                     queue: seq<nat>, blocked: nat)
    requires Progress(variables, first, done, mapping, next, queue, blocked) && queue != []
    requires GatesInRange(variables) && |done| == |variables|
    requires queue[0] < |variables| && variables[queue[0]].GateDriver? && !done[queue[0]]
    requires !GateReady(variables, done, queue[0])
    ensures blocked + 1 < |queue| ==>
      Progress(variables, first, done, mapping, next, queue[1..] + [queue[0]], blocked + 1)
    ensures blocked + 1 < |queue| && |queue| > 1 ==> queue[1] < |variables|
    ensures blocked + 1 >= |queue| ==> Cyclic(variables)
  {
    hide Waiting;
    hide ReadsGate;
    hide Assigning;
    hide StuckUnassigned;
    ReadyOrWaiting(variables, done, queue[0]);
    RequeueWaiting(variables, done, queue, blocked);
    if blocked + 1 >= |queue| {
      AllWaitingIsStuck(variables, done, queue);
    }
  }

  lemma RequeueWaiting(variables: seq<Driver>, done: seq<bool>, queue: seq<nat>, blocked: nat)
    requires Queued(variables, done, queue, blocked) && queue != [] && Waiting(variables, done, queue[0])
    ensures blocked + 1 < |queue| ==> Queued(variables, done, queue[1..] + [queue[0]], blocked + 1)
    ensures blocked + 1 >= |queue| ==> Queued(variables, done, queue, |queue|)
  {
    hide Waiting;
    var after := queue[1..] + [queue[0]];
    assert forall i :: i in queue ==> i in after;
    forall k | |after| - blocked - 1 <= k < |after| && 0 <= k
      ensures Waiting(variables, done, after[k])
    {
      if k < |after| - 1 {
        assert after[k] == queue[k + 1];
      }
    }
  }

  lemma AssignFront(variables: seq<Driver>, done: seq<bool>, queue: seq<nat>, blocked: nat)
    requires Queued(variables, done, queue, blocked) && queue != []
    ensures Queued(variables, done[queue[0] := true], queue[1..], 0)
  {
    assert forall i :: i in queue ==> i == queue[0] || i in queue[1..];
  }

  /** If every gate still in the queue is waiting, they wait for each other. */
  lemma AllWaitingIsStuck(variables: seq<Driver>, done: seq<bool>, queue: seq<nat>)
    requires queue != [] && Queued(variables, done, queue, |queue|)
    ensures Cyclic(variables)
  {
    hide *;
    var gates := set i | i in queue;
    forall i | i in gates
      ensures exists j :: j in gates && ReadsGate(variables, i, j)
    {
      var k :| 0 <= k < |queue| && queue[k] == i;
      var j := WaitsForQueued(variables, done, queue, k);
    }
    assert queue[0] in gates;
    MakeStuck(variables, gates);
  }

  lemma WaitsForQueued(variables: seq<Driver>, done: seq<bool>, queue: seq<nat>, k: nat) returns (j: nat)
    requires k < |queue| && Queued(variables, done, queue, |queue|)
    ensures j in queue && ReadsGate(variables, queue[k], j)
  {
    hide ReadsGate;
    assert Waiting(variables, done, queue[k]);
    j :| ReadsGate(variables, queue[k], j) && j < |done| && !done[j];
    ReadsGateBounds(variables, queue[k], j);
  }

  lemma MakeStuck(variables: seq<Driver>, gates: set<nat>)
    requires gates != {} && forall i :: i in gates ==> exists j :: j in gates && ReadsGate(variables, i, j)
    ensures Cyclic(variables)
  {
    hide ReadsGate;
    assert Stuck(variables, gates);
  }

  /** What the loop keeps. */
  ghost predicate Progress(variables: seq<Driver>, first: nat, done: seq<bool>, mapping: seq<nat>, next: nat,
                           queue: seq<nat>, blocked: nat) {
    && Assigning(variables, first, done, mapping, next) && next <= |variables|
    && Queued(variables, done, queue, blocked)
    && StuckUnassigned(variables, done)
  }

  lemma Exhausted(variables: seq<Driver>, first: nat, done: seq<bool>, mapping: seq<nat>, next: nat, blocked: nat)
    requires Progress(variables, first, done, mapping, next, [], blocked)
    ensures Assigning(variables, first, GateFlags(variables), mapping, next) && next <= |variables|
    ensures !Cyclic(variables)
  {
    hide ReadsGate;
    assert done == GateFlags(variables);
    forall gates | Stuck(variables, gates)
      ensures false
    {
      var i :| i in gates;
      StuckIsWaiting(variables, done, gates, i);
    }
  }

  lemma ProgressByAssigning(variables: seq<Driver>, first: nat, done: seq<bool>, mapping: seq<nat>, next: nat,
                            queue: seq<nat>, blocked: nat)
    requires Progress(variables, first, done, mapping, next, queue, blocked) && queue != []
    requires GatesInRange(variables) && IsFirstGate(variables, first)
    requires queue[0] < |variables| && variables[queue[0]].GateDriver? && |done| == |variables| && !done[queue[0]]
    requires |mapping| == |variables| && GateReady(variables, done, queue[0])
    ensures Progress(variables, first, done[queue[0] := true], mapping[queue[0] := next], next + 1, queue[1..], 0)
    ensures |queue| > 1 ==> queue[1] < |variables|
  {
    hide ReadsGate;
    hide Waiting;
    hide Assigning;
    hide StuckUnassigned;
    var i := queue[0];
    ReadyOrWaiting(variables, done, i);
    AssignOne(variables, first, done, mapping, next, i);
    StuckStaysUnassigned(variables, done, i);
    AssignFront(variables, done, queue, blocked);
  }

  /** Walks the gates with a work queue, giving each the next index once every gate
      it reads has one. Fails exactly when gate dependencies are cyclic. */
  method AssignIndices(variables: seq<Driver>, first: nat) returns (r: Option<seq<nat>>)
    requires GatesInRange(variables) && IsFirstGate(variables, first)
    ensures r == None <==> Cyclic(variables)
    ensures r.Some? ==> exists next: nat ::
      next <= |variables| && Assigning(variables, first, GateFlags(variables), r.value, next)
  {
    hide *;
    var n := |variables|;
    var mapping: seq<nat> := seq(n, (i: nat) => i);
    var done := seq(n, _ => false);
    var next: nat := first;
    var queue: seq<nat> := seq(n, (i: nat) => i);
    var blocked: nat := 0;
    StartQueue(variables, first, done, mapping, queue);
    while queue != []
      invariant |mapping| == |done| == n
      invariant Progress(variables, first, done, mapping, next, queue, blocked)
      invariant blocked <= |queue| && (queue != [] ==> queue[0] < n)
      decreases |queue|, |queue| - blocked
    {
      var i := queue[0];
      if done[i] || !variables[i].GateDriver? {
        SkipFront(variables, first, done, mapping, next, queue, blocked);
        queue := queue[1..];
        continue;
      }
      if !GateReady(variables, done, i) {
        RequeueFront(variables, first, done, mapping, next, queue, blocked);
        if !(blocked + 1 < |queue|) {
          return None;
        }
        queue := queue[1..] + [i];
        blocked := blocked + 1;
        continue;
      }
      ProgressByAssigning(variables, first, done, mapping, next, queue, blocked);
      mapping := mapping[i := next];
      next := next + 1;
      done := done[i := true];
      queue := queue[1..];
      blocked := 0;
    }
    Exhausted(variables, first, done, mapping, next, blocked);
    return Some(mapping);
  }

  lemma StartQueue(variables: seq<Driver>, first: nat, done: seq<bool>, mapping: seq<nat>, queue: seq<nat>)
    requires IsFirstGate(variables, first)
    requires |done| == |mapping| == |queue| == |variables|
    requires forall i :: 0 <= i < |done| ==> !done[i] && mapping[i] == i && queue[i] == i
    ensures Progress(variables, first, done, mapping, first, queue, 0)
  {
    hide ReadsGate;
    assert AssignedSet(done) == {};
    forall i: nat, j: nat | ReadsGate(variables, i, j)
      ensures i < |variables| && j < |variables|
    {
      ReadsGateBounds(variables, i, j);
    }
    forall i | 0 <= i < |variables|
      ensures i in queue
    {
      assert queue[i] == i;
    }
    StuckInRange(variables);
    assert StuckUnassigned(variables, done);
    assert Assigning(variables, first, done, mapping, first);
    assert Queued(variables, done, queue, 0);
  }

  lemma StuckInRange(variables: seq<Driver>)
    ensures forall gates: set<nat>, i :: Stuck(variables, gates) && i in gates ==> i < |variables|
  {
    hide ReadsGate;
    forall gates: set<nat>, i | Stuck(variables, gates) && i in gates
      ensures i < |variables|
    {
      var j :| j in gates && ReadsGate(variables, i, j);
      ReadsGateBounds(variables, i, j);
    }
  }

  function GateFlags(variables: seq<Driver>): (flags: seq<bool>)
    ensures |flags| == |variables|
  {
    seq(|variables|, i requires 0 <= i < |variables| => variables[i].GateDriver?)
  }

  // ----- rebuilding the machine -----

  function AsValues(mapping: seq<nat>): (r: seq<Value>)
    ensures |r| == |mapping|
  {
    seq(|mapping|, i requires 0 <= i < |mapping| => Variable(Var(true, mapping[i])))
  }

  /** Driven variables keep distinct places. */
  ghost predicate Placement(variables: seq<Driver>, mapping: seq<nat>) {
    && |mapping| == |variables|
    && (forall i :: 0 <= i < |variables| && !variables[i].Undriven? ==> mapping[i] < |variables|)
    && (forall i, j ::
          (0 <= i < |variables| && 0 <= j < |variables| && i != j && !variables[i].Undriven? && !variables[j].Undriven?)
          ==> mapping[i] != mapping[j])
  }

  lemma AssigningIsPlacement(variables: seq<Driver>, first: nat, mapping: seq<nat>, next: nat)
    requires IsFirstGate(variables, first) && LeadingNonGates(variables, first) && next <= |variables|
    requires Assigning(variables, first, GateFlags(variables), mapping, next)
    ensures Placement(variables, mapping)
  {
  }

  function TranslatedDriver(mapping: seq<Value>, driver: Driver): Driver
    requires driver.GateDriver? ==> driver.gate.a.Known(|mapping|) && driver.gate.b.Known(|mapping|)
    requires driver.LatchDriver? ==> driver.latch.input.Known(|mapping|)
  {
    match driver
    case GateDriver(gate) => GateDriver(
      gate.(a := Substitute(mapping, gate.a), b := Substitute(mapping, gate.b)).SortInputs())
    case LatchDriver(latch) => LatchDriver(latch.(input := Substitute(mapping, latch.input)))
    case InputDriver => InputDriver
    case Undriven => Undriven
  }

  ghost predicate DriversInRange(variables: seq<Driver>) {
    && GatesInRange(variables)
    && forall i :: 0 <= i < |variables| && variables[i].LatchDriver? ==> variables[i].latch.input.Known(|variables|)
  }

  /** Puts every driver, with its references renamed, at its new place. */
  method Place(variables: seq<Driver>, mapping: seq<nat>) returns (moved: seq<Driver>, ghost origin: seq<Var>)
    requires Placement(variables, mapping) && DriversInRange(variables)
    ensures |moved| == |origin| == |variables|
    ensures forall i :: 0 <= i < |variables| && !variables[i].Undriven? ==>
      && moved[mapping[i]] == TranslatedDriver(AsValues(mapping), variables[i])
      && origin[mapping[i]] == Var(true, i)
    ensures forall j :: 0 <= j < |moved| && !moved[j].Undriven? ==>
      && origin[j].sign && origin[j].index < |variables|
      && !variables[origin[j].index].Undriven? && mapping[origin[j].index] == j
  {
    var n := |variables|;
    var values := AsValues(mapping);
    moved := seq(n, _ => Undriven);
    origin := seq(n, _ => Var(true, 0));
    for i := 0 to n
      invariant |moved| == |origin| == n
      invariant forall k :: 0 <= k < i && !variables[k].Undriven? ==>
        && moved[mapping[k]] == TranslatedDriver(values, variables[k])
        && origin[mapping[k]] == Var(true, k)
      invariant forall j :: 0 <= j < n && !moved[j].Undriven? ==>
        && origin[j].sign && origin[j].index < i
        && !variables[origin[j].index].Undriven? && mapping[origin[j].index] == j
    {
      if !variables[i].Undriven? {
        moved := moved[mapping[i] := TranslatedDriver(values, variables[i])];
        origin := origin[mapping[i] := Var(true, i)];
      }
    }
  }

  /** A machine whose drivers have been placed is the old one, renamed. */
  lemma PlacedTranslates(m: Machine, n: Machine, mapping: seq<nat>, origin: seq<Var>)
    requires InRange(m) && Placement(m.variables, mapping) && |n.variables| == |origin| == |m.variables|
    requires forall i :: 0 <= i < |m.variables| && !m.variables[i].Undriven? ==>
      n.variables[mapping[i]] == TranslatedDriver(AsValues(mapping), m.variables[i]) && origin[mapping[i]] == Var(true, i)
    requires forall j :: 0 <= j < |n.variables| && !n.variables[j].Undriven? ==>
      && origin[j].sign && origin[j].index < |m.variables|
      && !m.variables[origin[j].index].Undriven? && mapping[origin[j].index] == j
    requires n.outputs == SubstituteAll(AsValues(mapping), m.outputs)
    requires n.asserts == SubstituteAll(AsValues(mapping), m.asserts)
    requires n.assumes == SubstituteAll(AsValues(mapping), m.assumes)
    requires n.covers == SubstituteAll(AsValues(mapping), m.covers)
    ensures Translates(m, n, AsValues(mapping)) && Originates(m, n, AsValues(mapping), origin)
  {
  }

  /** Gates moved after everything they read. */
  lemma PlacedIsOrdered(m: Machine, n: Machine, first: nat, mapping: seq<nat>, origin: seq<Var>, next: nat)
    requires WellDriven(m) && Translates(m, n, AsValues(mapping)) && Originates(m, n, AsValues(mapping), origin)
    requires IsFirstGate(m.variables, first) && LeadingNonGates(m.variables, first)
    requires Assigning(m.variables, first, GateFlags(m.variables), mapping, next)
    ensures Ordered(n.variables)
  {
    var values := AsValues(mapping);
    forall j | 0 <= j < |n.variables| && n.variables[j].GateDriver?
      ensures n.variables[j].gate.a.Known(j) && n.variables[j].gate.b.Known(j) && n.variables[j].gate.InputsSorted()
    {
      var i := origin[j].index;
      assert Moved(m.variables, n.variables, values, i);
      var g := m.variables[i].gate;
      ReadBefore(m, first, mapping, next, i, g.a);
      ReadBefore(m, first, mapping, next, i, g.b);
      SortKeepsOrder(Substitute(values, g.a), Substitute(values, g.b));
    }
  }

  lemma ReadBefore(m: Machine, first: nat, mapping: seq<nat>, next: nat, i: nat, input: Value)
    requires LeadingNonGates(m.variables, first) && Driven(m.variables, input)
    requires Assigning(m.variables, first, GateFlags(m.variables), mapping, next)
    requires i < |m.variables| && m.variables[i].GateDriver?
    requires input == m.variables[i].gate.a || input == m.variables[i].gate.b
    ensures Substitute(AsValues(mapping), input).Known(mapping[i])
  {
    if input.Variable? && m.variables[input.v.index].GateDriver? {
      assert ReadsGate(m.variables, i, input.v.index);
    }
  }

  lemma DrivenStays(m: Machine, n: Machine, mapping: seq<Value>, origin: seq<Var>, value: Value)
    requires Translates(m, n, mapping) && Originates(m, n, mapping, origin) && Driven(m.variables, value)
    requires AllVariables(mapping)
    ensures Driven(n.variables, Substitute(mapping, value))
  {
    if value.Variable? {
      assert Moved(m.variables, n.variables, mapping, value.v.index);
    }
  }

  lemma AllDrivenStay(m: Machine, n: Machine, mapping: seq<Value>, origin: seq<Var>, values: seq<Value>)
    requires Translates(m, n, mapping) && Originates(m, n, mapping, origin) && AllKnown(values, |mapping|)
    requires AllVariables(mapping)
    requires forall v :: v in values ==> Driven(m.variables, v)
    ensures forall v :: v in SubstituteAll(mapping, values) ==> Driven(n.variables, v)
  {
    forall v | v in SubstituteAll(mapping, values)
      ensures Driven(n.variables, v)
    {
      var k :| 0 <= k < |values| && v == Substitute(mapping, values[k]);
      DrivenStays(m, n, mapping, origin, values[k]);
    }
  }

  /** Renaming keeps a machine well driven. */
  lemma TranslatedWellDriven(m: Machine, n: Machine, mapping: seq<Value>, origin: seq<Var>)
    requires WellDriven(m) && Translates(m, n, mapping) && Originates(m, n, mapping, origin)
    requires AllVariables(mapping)
    ensures WellDriven(n)
  {
    forall j | 0 <= j < |n.variables| && n.variables[j].GateDriver?
      ensures Driven(n.variables, n.variables[j].gate.a) && Driven(n.variables, n.variables[j].gate.b)
        && n.variables[j].gate.InputsSorted()
    {
      var i := origin[j].index;
      assert Moved(m.variables, n.variables, mapping, i);
      var g := m.variables[i].gate;
      DrivenStays(m, n, mapping, origin, g.a);
      DrivenStays(m, n, mapping, origin, g.b);
      SortKeepsOrder(Substitute(mapping, g.a), Substitute(mapping, g.b));
    }
    forall j | 0 <= j < |n.variables| && n.variables[j].LatchDriver?
      ensures Driven(n.variables, n.variables[j].latch.input)
    {
      var i := origin[j].index;
      assert Moved(m.variables, n.variables, mapping, i);
      DrivenStays(m, n, mapping, origin, m.variables[i].latch.input);
    }
    AllDrivenStay(m, n, mapping, origin, m.outputs);
    AllDrivenStay(m, n, mapping, origin, m.asserts);
    AllDrivenStay(m, n, mapping, origin, m.assumes);
    AllDrivenStay(m, n, mapping, origin, m.covers);
  }

  /** Only gates move, and no place stays empty that need not be. */
  ghost predicate StayingNonGates(before: seq<Driver>, after: seq<Driver>, mapping: seq<Value>) {
    && |mapping| == |before| == |after|
    && (forall i :: 0 <= i < |before| && !before[i].GateDriver? ==> mapping[i] == Variable(Var(true, i)))
    && ((forall i :: 0 <= i < |before| ==> !before[i].Undriven?) ==> forall j :: 0 <= j < |after| ==> !after[j].Undriven?)
  }

  /** Distinct numbers below `n`, `n` of them, are all the numbers below `n`. */
  lemma InjectiveIsOnto(mapping: seq<nat>)
    requires forall i :: 0 <= i < |mapping| ==> mapping[i] < |mapping|
    requires forall i, j :: 0 <= i < j < |mapping| ==> mapping[i] != mapping[j]
    ensures forall j :: 0 <= j < |mapping| ==> j in mapping
  {
    forall j: nat | j < |mapping|
      ensures j in mapping
    {
      if j !in mapping {
        MissesNone(mapping, j);
      }
    }
  }

  lemma MissesNone(mapping: seq<nat>, j: nat)
    requires j < |mapping| && forall i :: 0 <= i < |mapping| ==> mapping[i] < |mapping|
    requires forall i, k :: 0 <= i < k < |mapping| ==> mapping[i] != mapping[k]
    ensures j in mapping
  {
    var all := Between(0, |mapping|);
    DistinctSize(mapping);
    if j !in mapping {
      assert Elements(mapping) + {j} <= all;
      SubsetSize(Elements(mapping) + {j}, all);
    }
  }

  ghost function Elements(mapping: seq<nat>): set<nat> {
    set i | i in mapping
  }

  lemma {:induction false} DistinctSize(mapping: seq<nat>)
    requires forall i, j :: 0 <= i < j < |mapping| ==> mapping[i] != mapping[j]
    ensures |Elements(mapping)| == |mapping|
  {
    if mapping == [] {
      assert Elements(mapping) == {};
    } else {
      var last := |mapping| - 1;
      DistinctSize(mapping[..last]);
      assert mapping == mapping[..last] + [mapping[last]];
      assert mapping[last] !in mapping[..last];
      assert Elements(mapping) == Elements(mapping[..last]) + {mapping[last]};
    }
  }

  lemma PlacedStaying(variables: seq<Driver>, moved: seq<Driver>, first: nat, mapping: seq<nat>, next: nat)
    requires Assigning(variables, first, GateFlags(variables), mapping, next) && Placement(variables, mapping)
    requires |moved| == |variables|
    requires forall i :: 0 <= i < |variables| && !variables[i].Undriven? ==> !moved[mapping[i]].Undriven?
    ensures StayingNonGates(variables, moved, AsValues(mapping))
  {
    if forall i :: 0 <= i < |variables| ==> !variables[i].Undriven? {
      InjectiveIsOnto(mapping);
      forall j | 0 <= j < |moved|
        ensures !moved[j].Undriven?
      {
        assert j in mapping;
        var i :| 0 <= i < |mapping| && mapping[i] == j;
        assert !variables[i].Undriven?;
      }
    }
  }

  datatype Outcome = Reordered | GatesNotLast | CyclicGates

  method SubstituteIn(values: seq<Value>, mapping: seq<Value>) returns (r: seq<Value>)
    requires AllKnown(values, |mapping|)
    ensures r == SubstituteAll(mapping, values)
  {
    r := values;
    for i := 0 to |values|
      invariant |r| == |values|
      invariant forall k :: 0 <= k < i ==> r[k] == Substitute(mapping, values[k])
      invariant forall k :: i <= k < |values| ==> r[k] == values[k]
    {
      r := r[i := Substitute(mapping, values[i])];
    }
  }

  /** Moves gates so that all gate inputs are driven by earlier variables. `mapping`
      tells where every variable went. */
  method ReorderGates(fsm: FSM) returns (outcome: Outcome, mapping: seq<Value>, ghost origin: seq<Var>)
    requires InRange(fsm.Contents())
    modifies fsm
    ensures outcome == CyclicGates ==> Cyclic(old(fsm.variables))
    ensures outcome == GatesNotLast <==>
      exists first: nat :: IsFirstGate(old(fsm.variables), first) && !LeadingNonGates(old(fsm.variables), first)
    ensures outcome != Reordered ==> fsm.Contents() == old(fsm.Contents())
    ensures outcome == Reordered ==>
      && !Cyclic(old(fsm.variables))
      && Renamed(old(fsm.Contents()), fsm.Contents(), mapping, origin)
      && StayingNonGates(old(fsm.variables), fsm.variables, mapping)
      && (WellDriven(old(fsm.Contents())) ==> Verified(fsm.Contents()))
  {
    hide Cyclic;
    hide Assigning;
    hide Translates;
    hide Originates;
    hide WellDriven;
    hide Ordered;
    hide Placement;
    hide StayingNonGates;
    ghost var before := fsm.Contents();
    var position := VerifyGatesLast(fsm.variables);
    mapping, origin := [], [];
    match position
    case NotLast =>
      outcome := GatesNotLast;
    case NoGates =>
      mapping, origin := StayInPlace(fsm.Contents());
      outcome := Reordered;
    case FirstGate(first) =>
      var indices := AssignIndices(fsm.variables, first);
      if indices == None {
        outcome := CyclicGates;
        return;
      }
      ghost var next: nat :| next <= |fsm.variables|
        && Assigning(fsm.variables, first, GateFlags(fsm.variables), indices.value, next);
      AssigningIsPlacement(fsm.variables, first, indices.value, next);
      mapping, origin := MoveVariables(fsm, indices.value);
      outcome := Reordered;
      MovedDriven(before, fsm.Contents(), indices.value);
      PlacedStaying(before.variables, fsm.variables, first, indices.value, next);
      if WellDriven(before) {
        PlacedIsOrdered(before, fsm.Contents(), first, indices.value, origin, next);
        TranslatedWellDriven(before, fsm.Contents(), mapping, origin);
      }
  }

  lemma MovedDriven(m: Machine, n: Machine, indices: seq<nat>)
    requires |indices| == |m.variables| && Translates(m, n, AsValues(indices))
    ensures forall i :: 0 <= i < |m.variables| && !m.variables[i].Undriven? ==>
      indices[i] < |n.variables| && !n.variables[indices[i]].Undriven?
  {
    forall i | 0 <= i < |m.variables| && !m.variables[i].Undriven?
      ensures indices[i] < |n.variables| && !n.variables[indices[i]].Undriven?
    {
      assert Moved(m.variables, n.variables, AsValues(indices), i);
    }
  }

  method MoveVariables(fsm: FSM, indices: seq<nat>) returns (mapping: seq<Value>, ghost origin: seq<Var>)
    requires InRange(fsm.Contents()) && Placement(fsm.variables, indices)
    modifies fsm
    ensures mapping == AsValues(indices)
    ensures Translates(old(fsm.Contents()), fsm.Contents(), mapping)
    ensures Originates(old(fsm.Contents()), fsm.Contents(), mapping, origin)
    ensures |fsm.variables| == |old(fsm.variables)|
  {
    mapping := AsValues(indices);
    ghost var before := fsm.Contents();
    var variables;
    variables, origin := Place(fsm.variables, indices);
    fsm.variables := variables;
    fsm.outputs := SubstituteIn(fsm.outputs, mapping);
    fsm.asserts := SubstituteIn(fsm.asserts, mapping);
    fsm.assumes := SubstituteIn(fsm.assumes, mapping);
    fsm.covers := SubstituteIn(fsm.covers, mapping);
    PlacedTranslates(before, fsm.Contents(), indices, origin);
  }

  /** Without gates there is nothing to move. */
  method StayInPlace(m: Machine) returns (mapping: seq<Value>, ghost origin: seq<Var>)
    requires InRange(m) && forall i :: 0 <= i < |m.variables| ==> !m.variables[i].GateDriver?
    ensures Renamed(m, m, mapping, origin) && !Cyclic(m.variables)
    ensures StayingNonGates(m.variables, m.variables, mapping)
    ensures WellDriven(m) ==> Verified(m)
  {
    mapping := seq(|m.variables|, i requires 0 <= i < |m.variables| => Variable(Var(true, i)));
    origin := seq(|m.variables|, i requires 0 <= i < |m.variables| => Var(true, i));
    assert forall v: Value :: v.Known(|mapping|) ==> Substitute(mapping, v) == v;
    assert SubstituteAll(mapping, m.outputs) == m.outputs;
    assert SubstituteAll(mapping, m.asserts) == m.asserts;
    assert SubstituteAll(mapping, m.assumes) == m.assumes;
    assert SubstituteAll(mapping, m.covers) == m.covers;
    forall gates | Stuck(m.variables, gates)
      ensures false
    {
      NoGatesNotStuck(m.variables, gates);
    }
  }

  lemma NoGatesNotStuck(variables: seq<Driver>, gates: set<nat>)
    requires forall i :: 0 <= i < |variables| ==> !variables[i].GateDriver?
    ensures !Stuck(variables, gates)
  {
    if i :| i in gates {
      assert forall j :: !ReadsGate(variables, i, j);
    }
  }
}
