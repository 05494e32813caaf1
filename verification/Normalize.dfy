/** Bringing a machine into the shape binary AIGER needs. */
module Normalize {
  import opened Words
  import opened Fsm
  import opened Translation
  import opened Reorder

  // ----- output signs -----

  /** And outputs positive, Or outputs negative, latches positive. */
  ghost predicate NormalSigns(variables: seq<Driver>) {
    forall i :: 0 <= i < |variables| ==>
      match variables[i]
      case GateDriver(gate) => gate.sign == (gate.gateType == And)
      case LatchDriver(latch) => latch.sign
      case InputDriver => true
      case Undriven => true
  }

  predicate NeedsFlip(driver: Driver) {
    match driver
    case GateDriver(gate) => gate.sign != (gate.gateType == And)
    case LatchDriver(latch) => !latch.sign
    case InputDriver => false
    case Undriven => false
  }

  function FlipSign(driver: Driver): Driver {
    match driver
    case GateDriver(gate) => GateDriver(gate.(sign := !gate.sign))
    case LatchDriver(latch) => LatchDriver(latch.(sign := !latch.sign))
    case InputDriver => driver
    case Undriven => driver
  }

  /** A reference to a flipped variable changes sign. */
  function FlipReference(flipped: seq<bool>, value: Value): Value
    requires value.Known(|flipped|)
  {
    match value
    case Variable(v) => Variable(v.Xor(flipped[v.index]))
    case Constant(_) => value
  }

  function FlipInputs(flipped: seq<bool>, driver: Driver): Driver
    requires driver.GateDriver? ==> driver.gate.a.Known(|flipped|) && driver.gate.b.Known(|flipped|)
    requires driver.LatchDriver? ==> driver.latch.input.Known(|flipped|)
  {
    match driver
    case GateDriver(gate) => GateDriver(
      gate.(a := FlipReference(flipped, gate.a), b := FlipReference(flipped, gate.b)).SortInputs())
    case LatchDriver(latch) => LatchDriver(latch.(input := FlipReference(flipped, latch.input)))
    case InputDriver => driver
    case Undriven => driver
  }

  method FlipReferences(values: seq<Value>, flipped: seq<bool>) returns (r: seq<Value>)
    requires AllKnown(values, |flipped|)
    ensures |r| == |values| && forall k :: 0 <= k < |values| ==> r[k] == FlipReference(flipped, values[k])
  {
    r := values;
    for i := 0 to |values|
      invariant |r| == |values|
      invariant forall k :: 0 <= k < i ==> r[k] == FlipReference(flipped, values[k])
      invariant forall k :: i <= k < |values| ==> r[k] == values[k]
    {
      r := r[i := FlipReference(flipped, values[i])];
    }
  }

  function FlipMapping(flipped: seq<bool>): (r: seq<Value>)
    ensures |r| == |flipped|
  {
    seq(|flipped|, i requires 0 <= i < |flipped| => Variable(Var(!flipped[i], i)))
  }

  function FlipOrigin(flipped: seq<bool>): (r: seq<Var>)
    ensures |r| == |flipped|
  {
    seq(|flipped|, i requires 0 <= i < |flipped| => Var(!flipped[i], i))
  }

  lemma FlipIsSubstitution(flipped: seq<bool>, value: Value)
    requires value.Known(|flipped|)
    ensures FlipReference(flipped, value) == Substitute(FlipMapping(flipped), value)
  {
  }

  lemma FlipsAreSubstitutions(flipped: seq<bool>, values: seq<Value>, r: seq<Value>)
    requires AllKnown(values, |flipped|)
    requires |r| == |values| && forall k :: 0 <= k < |values| ==> r[k] == FlipReference(flipped, values[k])
    ensures r == SubstituteAll(FlipMapping(flipped), values)
  {
    forall k | 0 <= k < |values|
      ensures r[k] == Substitute(FlipMapping(flipped), values[k])
    {
      FlipIsSubstitution(flipped, values[k]);
    }
  }

  /** Marks and flips the outputs with the wrong sign, then updates every reference
      to them. */
  method NormalizeOutputs(fsm: FSM) returns (ghost flipped: seq<bool>)
    requires InRange(fsm.Contents())
    modifies fsm
    ensures |flipped| == |old(fsm.variables)| == |fsm.variables|
    ensures forall i :: 0 <= i < |flipped| ==> flipped[i] == NeedsFlip(old(fsm.variables)[i])
    ensures NormalSigns(fsm.variables)
    ensures Renamed(old(fsm.Contents()), fsm.Contents(), FlipMapping(flipped), FlipOrigin(flipped))
    ensures WellDriven(old(fsm.Contents())) ==> WellDriven(fsm.Contents())
    ensures Verified(old(fsm.Contents())) ==> Verified(fsm.Contents())
  {
    ghost var before := fsm.Contents();
    var flips := seq(|fsm.variables|, _ => false);
    for i := 0 to |fsm.variables|
      invariant |flips| == |fsm.variables| == |before.variables|
      invariant fsm.outputs == before.outputs && fsm.asserts == before.asserts
      invariant fsm.assumes == before.assumes && fsm.covers == before.covers
      invariant forall k :: 0 <= k < i ==> flips[k] == NeedsFlip(before.variables[k])
      invariant forall k :: i <= k < |flips| ==> !flips[k]
      invariant forall k :: 0 <= k < |flips| ==>
        fsm.variables[k] == if flips[k] then FlipSign(before.variables[k]) else before.variables[k]
    {
      if NeedsFlip(fsm.variables[i]) {
        fsm.variables := fsm.variables[i := FlipSign(fsm.variables[i])];
        flips := flips[i := true];
      }
    }
    ghost var signed := fsm.variables;
    assert forall k :: 0 <= k < |flips| ==> flips[k] == NeedsFlip(before.variables[k]);
    assert DriversInRange(signed) by { FlippedInRange(before.variables, signed, flips); }
    for i := 0 to |fsm.variables|
      invariant |fsm.variables| == |signed|
      invariant fsm.outputs == before.outputs && fsm.asserts == before.asserts
      invariant fsm.assumes == before.assumes && fsm.covers == before.covers
      invariant forall k :: 0 <= k < i ==> fsm.variables[k] == FlipInputs(flips, signed[k])
      invariant forall k :: i <= k < |signed| ==> fsm.variables[k] == signed[k]
    {
      fsm.variables := fsm.variables[i := FlipInputs(flips, fsm.variables[i])];
    }
    fsm.outputs := FlipReferences(fsm.outputs, flips);
    fsm.asserts := FlipReferences(fsm.asserts, flips);
    fsm.assumes := FlipReferences(fsm.assumes, flips);
    fsm.covers := FlipReferences(fsm.covers, flips);
    flipped := flips;
    FlipsAreSubstitutions(flips, before.outputs, fsm.outputs);
    FlipsAreSubstitutions(flips, before.asserts, fsm.asserts);
    FlipsAreSubstitutions(flips, before.assumes, fsm.assumes);
    FlipsAreSubstitutions(flips, before.covers, fsm.covers);
    FlippedIsRenamed(before, fsm.Contents(), flips);
  }

  lemma FlippedInRange(before: seq<Driver>, after: seq<Driver>, flips: seq<bool>)
    requires DriversInRange(before) && |before| == |after| == |flips|
    requires forall k :: 0 <= k < |flips| ==> after[k] == if flips[k] then FlipSign(before[k]) else before[k]
    ensures DriversInRange(after)
  {
    forall k | 0 <= k < |after|
      ensures after[k].GateDriver? ==> before[k].GateDriver? && after[k].gate.a == before[k].gate.a && after[k].gate.b == before[k].gate.b
      ensures after[k].LatchDriver? ==> before[k].LatchDriver? && after[k].latch.input == before[k].latch.input
    {
    }
  }

  ghost predicate Flipped(before: Machine, after: Machine, flips: seq<bool>) {
    && InRange(before) && |before.variables| == |after.variables| == |flips|
    && forall k :: 0 <= k < |flips| ==>
      && flips[k] == NeedsFlip(before.variables[k])
      && FlippedDriver(before.variables[k], after.variables[k], flips, flips[k])
  }

  ghost predicate FlippedDriver(before: Driver, after: Driver, flips: seq<bool>, flip: bool) {
    var signed := if flip then FlipSign(before) else before;
    && (signed.GateDriver? ==> signed.gate.a.Known(|flips|) && signed.gate.b.Known(|flips|))
    && (signed.LatchDriver? ==> signed.latch.input.Known(|flips|))
    && after == FlipInputs(flips, signed)
  }

  lemma FlippedMoved(before: Machine, after: Machine, flips: seq<bool>, k: nat)
    requires Flipped(before, after, flips) && k < |flips|
    ensures Moved(before.variables, after.variables, FlipMapping(flips), k)
    ensures before.variables[k].Undriven? == after.variables[k].Undriven?
  {
    assert FlippedDriver(before.variables[k], after.variables[k], flips, flips[k]);
    match before.variables[k]
    case GateDriver(gate) =>
      FlipIsSubstitution(flips, gate.a);
      FlipIsSubstitution(flips, gate.b);
    case LatchDriver(latch) =>
      FlipIsSubstitution(flips, latch.input);
    case InputDriver =>
    case Undriven =>
  }

  lemma FlippedSigns(before: Machine, after: Machine, flips: seq<bool>)
    requires Flipped(before, after, flips)
    ensures NormalSigns(after.variables)
  {
    forall k | 0 <= k < |flips|
      ensures !NeedsFlip(after.variables[k])
    {
      assert FlippedDriver(before.variables[k], after.variables[k], flips, flips[k]);
    }
  }

  lemma FlippedOrdered(before: Machine, after: Machine, flips: seq<bool>)
    requires Flipped(before, after, flips) && Ordered(before.variables)
    ensures Ordered(after.variables)
  {
    forall k | 0 <= k < |flips| && after.variables[k].GateDriver?
      ensures after.variables[k].gate.a.Known(k) && after.variables[k].gate.b.Known(k)
        && after.variables[k].gate.InputsSorted()
    {
      assert FlippedDriver(before.variables[k], after.variables[k], flips, flips[k]);
      var g := before.variables[k].gate;
      SortKeepsOrder(FlipReference(flips, g.a), FlipReference(flips, g.b));
    }
  }

  lemma FlippedIsRenamed(before: Machine, after: Machine, flips: seq<bool>)
    requires Flipped(before, after, flips)
    requires after.outputs == SubstituteAll(FlipMapping(flips), before.outputs)
    requires after.asserts == SubstituteAll(FlipMapping(flips), before.asserts)
    requires after.assumes == SubstituteAll(FlipMapping(flips), before.assumes)
    requires after.covers == SubstituteAll(FlipMapping(flips), before.covers)
    ensures NormalSigns(after.variables)
    ensures Renamed(before, after, FlipMapping(flips), FlipOrigin(flips))
    ensures WellDriven(before) ==> WellDriven(after)
    ensures Verified(before) ==> Verified(after)
  {
    forall k | 0 <= k < |flips|
      ensures Moved(before.variables, after.variables, FlipMapping(flips), k)
      ensures before.variables[k].Undriven? == after.variables[k].Undriven?
    {
      FlippedMoved(before, after, flips, k);
    }
    FlippedSigns(before, after, flips);
    if WellDriven(before) {
      TranslatedWellDriven(before, after, FlipMapping(flips), FlipOrigin(flips));
    }
    if Ordered(before.variables) {
      FlippedOrdered(before, after, flips);
    }
  }

  // ----- order -----

  /** Inputs, then latches, then gates, with nothing between. */
  ghost predicate Layout(variables: seq<Driver>, inputs: nat, latches: nat) {
    && inputs + latches <= |variables|
    && (forall i :: 0 <= i < inputs ==> variables[i].InputDriver?)
    && (forall i :: inputs <= i < inputs + latches ==> variables[i].LatchDriver?)
    && (forall i :: inputs + latches <= i < |variables| ==> variables[i].GateDriver?)
  }

  datatype Kind = InputKind | LatchKind | GateKind

  predicate HasKind(driver: Driver, kind: Kind) {
    match kind
    case InputKind => driver.InputDriver?
    case LatchKind => driver.LatchDriver?
    case GateKind => driver.GateDriver?
  }

  /** Variables placed so far: distinct places below `next`, each filled. */
  ghost predicate Numbering(variables: seq<Driver>, places: seq<Option<nat>>, next: nat, filled: seq<nat>) {
    && |places| == |variables| && |filled| == next
    && (forall i :: 0 <= i < |places| && places[i].Some? ==> places[i].value < next && filled[places[i].value] == i)
    && (forall p :: 0 <= p < next ==> filled[p] < |places| && places[filled[p]] == Some(p))
  }

  /** Gives the variables of one kind the next places, in their order. */
  method NumberKind(variables: seq<Driver>, kind: Kind, places: seq<Option<nat>>, ghost filled: seq<nat>, next: nat)
    returns (places': seq<Option<nat>>, ghost filled': seq<nat>, next': nat)
    requires Numbering(variables, places, next, filled)
    requires forall i :: 0 <= i < |variables| && HasKind(variables[i], kind) ==> places[i] == None
    ensures Numbering(variables, places', next', filled') && next <= next' && filled <= filled'
    ensures forall i :: 0 <= i < |variables| ==>
      places'[i].Some? == (places[i].Some? || HasKind(variables[i], kind))
    ensures forall i :: 0 <= i < |variables| && !HasKind(variables[i], kind) ==> places'[i] == places[i]
    ensures forall p :: next <= p < next' ==> HasKind(variables[filled'[p]], kind)
  {
    places', filled', next' := places, filled, next;
    for i := 0 to |variables|
      invariant Numbering(variables, places', next', filled') && next <= next' && filled <= filled'
      invariant forall k :: 0 <= k < i ==> places'[k].Some? == (places[k].Some? || HasKind(variables[k], kind))
      invariant forall k :: 0 <= k < |variables| && (i <= k || !HasKind(variables[k], kind)) ==> places'[k] == places[k]
      invariant forall p :: next <= p < next' ==> HasKind(variables[filled'[p]], kind)
    {
      if HasKind(variables[i], kind) {
        places' := places'[i := Some(next')];
        filled' := filled' + [i];
        next' := next' + 1;
      }
    }
  }

  function PlaceMapping(places: seq<Option<nat>>): (r: seq<Value>)
    ensures |r| == |places|
  {
    seq(|places|, i requires 0 <= i < |places| =>
      Variable(Var(true, match places[i] case Some(p) => p case None => 0)))
  }

  function PlaceOrigin(filled: seq<nat>): (r: seq<Var>)
    ensures |r| == |filled|
  {
    seq(|filled|, p requires 0 <= p < |filled| => Var(true, filled[p]))
  }

  /** Every driven variable has a place, and nothing else does. */
  ghost predicate FullNumbering(variables: seq<Driver>, places: seq<Option<nat>>, next: nat, filled: seq<nat>) {
    && Numbering(variables, places, next, filled)
    && forall i :: 0 <= i < |variables| ==> places[i].Some? == !variables[i].Undriven?
  }

  method Compact(variables: seq<Driver>, places: seq<Option<nat>>, next: nat, ghost filled: seq<nat>)
    returns (compacted: seq<Driver>)
    requires FullNumbering(variables, places, next, filled) && DriversInRange(variables)
    ensures |compacted| == next
    ensures forall p :: 0 <= p < next ==>
      compacted[p] == TranslatedDriver(PlaceMapping(places), variables[filled[p]])
  {
    compacted := seq(next, _ => Undriven);
    for i := 0 to |variables|
      invariant |compacted| == next
      invariant forall p :: 0 <= p < next && filled[p] < i ==>
        compacted[p] == TranslatedDriver(PlaceMapping(places), variables[filled[p]])
    {
      if places[i].Some? {
        compacted := compacted[places[i].value := TranslatedDriver(PlaceMapping(places), variables[i])];
      }
    }
  }

  lemma CompactedIsRenamed(m: Machine, n: Machine, places: seq<Option<nat>>, next: nat, filled: seq<nat>)
    requires InRange(m) && FullNumbering(m.variables, places, next, filled) && |n.variables| == next
    requires forall p :: 0 <= p < next ==>
      n.variables[p] == TranslatedDriver(PlaceMapping(places), m.variables[filled[p]])
    requires n.outputs == SubstituteAll(PlaceMapping(places), m.outputs)
    requires n.asserts == SubstituteAll(PlaceMapping(places), m.asserts)
    requires n.assumes == SubstituteAll(PlaceMapping(places), m.assumes)
    requires n.covers == SubstituteAll(PlaceMapping(places), m.covers)
    ensures Renamed(m, n, PlaceMapping(places), PlaceOrigin(filled))
    ensures forall p :: 0 <= p < next ==> !n.variables[p].Undriven?
    ensures WellDriven(m) ==> WellDriven(n)
  {
    var mapping := PlaceMapping(places);
    forall i | 0 <= i < |mapping|
      ensures Moved(m.variables, n.variables, mapping, i)
    {
      if places[i].Some? {
        assert filled[places[i].value] == i;
      }
    }
    if WellDriven(m) {
      TranslatedWellDriven(m, n, mapping, PlaceOrigin(filled));
    }
  }

  // ----- renaming and cycles -----

  /** Where a variable went. */
  function PlaceOf(mapping: seq<Value>, i: nat): nat {
    if i < |mapping| && mapping[i].Variable? then mapping[i].v.index else 0
  }

  /** Gates read the same gates under their new names. */
  lemma ReadsRenamed(m: Machine, n: Machine, mapping: seq<Value>, origin: seq<Var>, i: nat, j: nat)
    requires Renamed(m, n, mapping, origin) && WellDriven(m) && i < |m.variables| && j < |m.variables|
    requires m.variables[i].GateDriver? && m.variables[j].GateDriver?
    ensures ReadsGate(n.variables, PlaceOf(mapping, i), PlaceOf(mapping, j)) <==> ReadsGate(m.variables, i, j)
  {
    assert Moved(m.variables, n.variables, mapping, i) && Moved(m.variables, n.variables, mapping, j);
    var gate := m.variables[i].gate;
    ReferenceRenamed(m, n, mapping, origin, gate.a, j);
    ReferenceRenamed(m, n, mapping, origin, gate.b, j);
  }

  lemma ReferenceRenamed(m: Machine, n: Machine, mapping: seq<Value>, origin: seq<Var>, value: Value, j: nat)
    requires Renamed(m, n, mapping, origin) && Driven(m.variables, value) && j < |m.variables|
    requires !m.variables[j].Undriven?
    ensures RefersTo(Substitute(mapping, value), PlaceOf(mapping, j)) <==> RefersTo(value, j)
  {
    if value.Variable? {
      var i := value.v.index;
      assert Moved(m.variables, n.variables, mapping, i) && Moved(m.variables, n.variables, mapping, j);
      assert origin[mapping[i].v.index].index == i && origin[mapping[j].v.index].index == j;
    }
  }

  /** A renamed machine has a dependency cycle exactly when the original has one. */
  lemma CyclesRenamed(m: Machine, n: Machine, mapping: seq<Value>, origin: seq<Var>)
    requires Renamed(m, n, mapping, origin) && WellDriven(m)
    ensures Cyclic(n.variables) <==> Cyclic(m.variables)
  {
    if Cyclic(m.variables) {
      var gates :| Stuck(m.variables, gates);
      StuckRenamed(m, n, mapping, origin, gates);
    }
    if Cyclic(n.variables) {
      var gates :| Stuck(n.variables, gates);
      StuckOriginates(m, n, mapping, origin, gates);
    }
  }

  /** A member of a stuck set and one that it reads. */
  lemma StuckReads(variables: seq<Driver>, gates: set<nat>, i: nat) returns (j: nat)
    requires Stuck(variables, gates) && i in gates
    ensures j in gates && ReadsGate(variables, i, j)
    ensures i < |variables| && j < |variables| && variables[i].GateDriver? && variables[j].GateDriver?
  {
    hide ReadsGate;
    j :| j in gates && ReadsGate(variables, i, j);
    ReadsGateBounds(variables, i, j);
  }

  ghost predicate ReadsAmong(variables: seq<Driver>, gates: set<nat>, i: nat) {
    exists j :: j in gates && ReadsGate(variables, i, j)
  }

  lemma StuckIsCyclic(variables: seq<Driver>, gates: set<nat>)
    requires gates != {} && forall i :: i in gates ==> ReadsAmong(variables, gates, i)
    ensures Cyclic(variables)
  {
    hide ReadsGate;
    assert Stuck(variables, gates);
  }

  lemma StuckRenamed(m: Machine, n: Machine, mapping: seq<Value>, origin: seq<Var>, gates: set<nat>)
    requires Renamed(m, n, mapping, origin) && WellDriven(m) && Stuck(m.variables, gates)
    ensures Cyclic(n.variables)
  {
    hide *;
    var images := set i | i in gates :: PlaceOf(mapping, i);
    forall p | p in images
      ensures ReadsAmong(n.variables, images, p)
    {
      var i :| i in gates && PlaceOf(mapping, i) == p;
      var j := StuckReads(m.variables, gates, i);
      ReadsRenamed(m, n, mapping, origin, i, j);
      MemberReads(n.variables, images, p, PlaceOf(mapping, j));
    }
    StuckNotEmpty(m.variables, gates);
    var first :| first in gates;
    assert PlaceOf(mapping, first) in images;
    StuckIsCyclic(n.variables, images);
  }

  lemma MemberReads(variables: seq<Driver>, gates: set<nat>, i: nat, j: nat)
    requires j in gates && ReadsGate(variables, i, j)
    ensures ReadsAmong(variables, gates, i)
  {
    hide ReadsGate;
  }

  lemma StuckNotEmpty(variables: seq<Driver>, gates: set<nat>)
    requires Stuck(variables, gates)
    ensures gates != {}
  {
    hide ReadsGate;
  }

  lemma StuckOriginates(m: Machine, n: Machine, mapping: seq<Value>, origin: seq<Var>, gates: set<nat>)
    requires Renamed(m, n, mapping, origin) && WellDriven(m) && Stuck(n.variables, gates)
    ensures Cyclic(m.variables)
  {
    hide *;
    var sources := set p | p in gates :: SourceOf(origin, p);
    forall i | i in sources
      ensures ReadsAmong(m.variables, sources, i)
    {
      var p :| p in gates && SourceOf(origin, p) == i;
      var q := StuckReads(n.variables, gates, p);
      GateOriginates(m, n, mapping, origin, p);
      GateOriginates(m, n, mapping, origin, q);
      ReadsRenamed(m, n, mapping, origin, i, SourceOf(origin, q));
      MemberReads(m.variables, sources, i, SourceOf(origin, q));
    }
    StuckNotEmpty(n.variables, gates);
    var first :| first in gates;
    assert SourceOf(origin, first) in sources;
    StuckIsCyclic(m.variables, sources);
  }

  /** Where a new variable came from. */
  function SourceOf(origin: seq<Var>, p: nat): nat {
    if p < |origin| then origin[p].index else 0
  }

  lemma GateOriginates(m: Machine, n: Machine, mapping: seq<Value>, origin: seq<Var>, p: nat)
    requires Renamed(m, n, mapping, origin) && p < |n.variables| && n.variables[p].GateDriver?
    ensures SourceOf(origin, p) < |m.variables| && m.variables[SourceOf(origin, p)].GateDriver?
    ensures PlaceOf(mapping, SourceOf(origin, p)) == p
  {
    assert Moved(m.variables, n.variables, mapping, origin[p].index);
  }

  /** In a verified machine the index ranks the gates. */
  lemma VerifiedAcyclic(variables: seq<Driver>)
    requires Ordered(variables)
    ensures !Cyclic(variables)
  {
    var rank := (k: nat) => k;
    assert Ranks(variables, rank);
    hide Ranks;
    hide ReadsGate;
    if Cyclic(variables) {
      var gates :| Stuck(variables, gates);
      hide Stuck;
      var i :| i in gates;
      CyclicHasNoRank(variables, gates, rank, i);
    }
  }

  lemma NumberedLayout(m: Machine, n: Machine, places: seq<Option<nat>>, filled: seq<nat>,
                       inputs: nat, latchesEnd: nat, next: nat)
    requires InRange(m) && FullNumbering(m.variables, places, next, filled) && |n.variables| == next
    requires inputs <= latchesEnd <= next
    requires forall p :: 0 <= p < next ==>
      n.variables[p] == TranslatedDriver(PlaceMapping(places), m.variables[filled[p]])
    requires forall p :: 0 <= p < inputs ==> m.variables[filled[p]].InputDriver?
    requires forall p :: inputs <= p < latchesEnd ==> m.variables[filled[p]].LatchDriver?
    requires forall p :: latchesEnd <= p < next ==> m.variables[filled[p]].GateDriver?
    ensures Layout(n.variables, inputs, latchesEnd - inputs)
  {
  }

  /** Groups the variables into inputs, latches and gates. */
  method GroupVariables(fsm: FSM) returns (inputs: nat, latches: nat, ghost mapping: seq<Value>, ghost origin: seq<Var>)
    requires WellDriven(fsm.Contents())
    modifies fsm
    ensures Layout(fsm.variables, inputs, latches) && WellDriven(fsm.Contents())
    ensures Renamed(old(fsm.Contents()), fsm.Contents(), mapping, origin)
    ensures Cyclic(fsm.variables) <==> Cyclic(old(fsm.variables))
  {
    ghost var before := fsm.Contents();
    WellDrivenInRange(before);
    var places: seq<Option<nat>> := seq(|fsm.variables|, _ => None);
    ghost var filled: seq<nat> := [];
    var latchesEnd, next;
    places, filled, inputs := NumberKind(fsm.variables, InputKind, places, filled, 0);
    ghost var inputsFilled := filled;
    places, filled, latchesEnd := NumberKind(fsm.variables, LatchKind, places, filled, inputs);
    ghost var latchesFilled := filled;
    places, filled, next := NumberKind(fsm.variables, GateKind, places, filled, latchesEnd);
    latches := latchesEnd - inputs;
    assert forall p :: 0 <= p < inputs ==> filled[p] == inputsFilled[p];
    assert forall p :: 0 <= p < latchesEnd ==> filled[p] == latchesFilled[p];
    mapping, origin := PlaceMapping(places), PlaceOrigin(filled);
    var compacted := Compact(fsm.variables, places, next, filled);
    fsm.variables := compacted;
    fsm.outputs := SubstituteIn(fsm.outputs, PlaceMapping(places));
    fsm.asserts := SubstituteIn(fsm.asserts, PlaceMapping(places));
    fsm.assumes := SubstituteIn(fsm.assumes, PlaceMapping(places));
    fsm.covers := SubstituteIn(fsm.covers, PlaceMapping(places));
    CompactedIsRenamed(before, fsm.Contents(), places, next, filled);
    CyclesRenamed(before, fsm.Contents(), mapping, origin);
    NumberedLayout(before, fsm.Contents(), places, filled, inputs, latchesEnd, next);
  }

  /** A machine of gates over constants only, which reordering refuses. */
  predicate GatesOnly(variables: seq<Driver>) {
    && (exists i :: 0 <= i < |variables| && variables[i].GateDriver?)
    && forall i :: 0 <= i < |variables| ==> !variables[i].InputDriver? && !variables[i].LatchDriver?
  }

  /** Reorders and compacts into the order binary AIGER requires. */
  method NormalizeOrdering(fsm: FSM)
    returns (outcome: Outcome, inputs: nat, latches: nat, ghost mapping: seq<Value>, ghost origin: seq<Var>)
    requires WellDriven(fsm.Contents())
    modifies fsm
    ensures outcome == Reordered ==>
      && Layout(fsm.variables, inputs, latches) && Verified(fsm.Contents())
      && Renamed(old(fsm.Contents()), fsm.Contents(), mapping, origin)
    ensures outcome == GatesNotLast <==> GatesOnly(old(fsm.variables))
    ensures outcome == CyclicGates <==> !GatesOnly(old(fsm.variables)) && Cyclic(old(fsm.variables))
  {
    hide Layout;
    hide Renamed;
    hide WellDriven;
    hide InRange;
    hide Cyclic;
    hide GatesOnly;
    hide Ordered;
    ghost var before := fsm.Contents();
    ghost var grouping, groupOrigin;
    inputs, latches, grouping, groupOrigin := GroupVariables(fsm);
    ghost var grouped := fsm.Contents();
    WellDrivenInRange(grouped);
    GroupedGatesOnly(before, grouped, grouping, groupOrigin, inputs, latches);
    var moves;
    ghost var moveOrigin;
    outcome, moves, moveOrigin := ReorderGates(fsm);
    mapping, origin := Compose(grouping, moves), ComposeOrigin(groupOrigin, moveOrigin);
    if outcome == Reordered {
      RenamedTwice(before, grouped, fsm.Contents(), grouping, moves, groupOrigin, moveOrigin);
      LayoutStays(grouped, fsm.Contents(), moves, moveOrigin, inputs, latches);
    }
  }

  lemma GroupedGatesOnly(m: Machine, n: Machine, mapping: seq<Value>, origin: seq<Var>, inputs: nat, latches: nat)
    requires Renamed(m, n, mapping, origin) && Layout(n.variables, inputs, latches)
    ensures GatesOnly(m.variables) <==> inputs + latches == 0 && |n.variables| > 0
    ensures GatesOnly(m.variables) <==> exists first: nat :: IsFirstGate(n.variables, first) && !LeadingNonGates(n.variables, first)
    ensures forall first: nat :: IsFirstGate(n.variables, first) ==> LeadingNonGates(n.variables, first) == (inputs + latches > 0)
  {
    if inputs + latches < |n.variables| {
      assert n.variables[inputs + latches].GateDriver?;
    }
    forall first: nat | IsFirstGate(n.variables, first)
      ensures LeadingNonGates(n.variables, first) == (inputs + latches > 0)
    {
    }
    if GatesOnly(m.variables) {
      var i :| 0 <= i < |m.variables| && m.variables[i].GateDriver?;
      KindMoved(m, n, mapping, i);
      if inputs + latches > 0 {
        assert n.variables[0].InputDriver? || n.variables[0].LatchDriver?;
        KindOfOrigin(m, n, mapping, origin, 0);
      } else {
        assert n.variables[0].GateDriver?;
      }
    }
    if inputs + latches == 0 && |n.variables| > 0 {
      KindOfOrigin(m, n, mapping, origin, 0);
      assert n.variables[0].GateDriver? && m.variables[origin[0].index].GateDriver?;
      assert IsFirstGate(n.variables, 0) && !LeadingNonGates(n.variables, 0);
      forall i | 0 <= i < |m.variables|
        ensures !m.variables[i].InputDriver? && !m.variables[i].LatchDriver?
      {
        KindMoved(m, n, mapping, i);
      }
    }
  }

  lemma KindMoved(m: Machine, n: Machine, mapping: seq<Value>, i: nat)
    requires AllVariables(mapping) && Translates(m, n, mapping) && i < |m.variables|
    ensures !m.variables[i].Undriven? ==>
      && mapping[i].v.index < |n.variables|
      && n.variables[mapping[i].v.index].InputDriver? == m.variables[i].InputDriver?
      && n.variables[mapping[i].v.index].LatchDriver? == m.variables[i].LatchDriver?
      && n.variables[mapping[i].v.index].GateDriver? == m.variables[i].GateDriver?
  {
    assert Moved(m.variables, n.variables, mapping, i);
  }

  lemma KindOfOrigin(m: Machine, n: Machine, mapping: seq<Value>, origin: seq<Var>, j: nat)
    requires Renamed(m, n, mapping, origin) && j < |n.variables| && !n.variables[j].Undriven?
    ensures origin[j].index < |m.variables|
    ensures n.variables[j].InputDriver? == m.variables[origin[j].index].InputDriver?
    ensures n.variables[j].LatchDriver? == m.variables[origin[j].index].LatchDriver?
    ensures n.variables[j].GateDriver? == m.variables[origin[j].index].GateDriver?
  {
    KindMoved(m, n, mapping, origin[j].index);
  }

  lemma LayoutStays(m: Machine, n: Machine, mapping: seq<Value>, origin: seq<Var>, inputs: nat, latches: nat)
    requires Renamed(m, n, mapping, origin) && StayingNonGates(m.variables, n.variables, mapping)
    requires Layout(m.variables, inputs, latches)
    ensures Layout(n.variables, inputs, latches)
  {
    forall j | 0 <= j < |n.variables|
      ensures j < inputs ==> n.variables[j].InputDriver?
      ensures inputs <= j < inputs + latches ==> n.variables[j].LatchDriver?
      ensures inputs + latches <= j ==> n.variables[j].GateDriver?
    {
      if j < inputs + latches {
        assert Moved(m.variables, n.variables, mapping, j);
      } else {
        assert !n.variables[j].Undriven?;
        var i := origin[j].index;
        assert Moved(m.variables, n.variables, mapping, i);
      }
    }
  }
}
