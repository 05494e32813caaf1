/** Rebuilding a machine with one input tied to a constant. */
module TieInput {
  import opened Words
  import opened Fsm
  import opened Translation

  /** Variables rebuilt so far, in both directions. */
  ghost predicate Rebuilding(m: Machine, variables: seq<Driver>, mapping: seq<Value>, origin: seq<Var>) {
    && |mapping| == |m.variables| && |origin| == |variables|
    && (forall i :: 0 <= i < |mapping| && mapping[i].Variable? ==>
          && mapping[i].v.sign && mapping[i].v.index < |variables|
          && origin[mapping[i].v.index] == Var(true, i)
          && !m.variables[i].Undriven?)
    && (forall j :: 0 <= j < |variables| ==>
          && origin[j].sign && origin[j].index < |mapping|
          && mapping[origin[j].index] == Variable(Var(true, j)))
  }

  /** The driver that the place of `i` holds until latches are connected. */
  ghost predicate Provisional(m: Machine, variables: seq<Driver>, mapping: seq<Value>, i: nat)
    requires i < |m.variables| == |mapping|
  {
    mapping[i].Variable? ==>
      && mapping[i].v.index < |variables|
      && var place := variables[mapping[i].v.index];
      match m.variables[i]
      case InputDriver => place == InputDriver
      case LatchDriver(_) => place == Undriven
      case GateDriver(gate) =>
        && gate.a.Known(|mapping|) && gate.b.Known(|mapping|)
        && place == GateDriver(TranslatedGate(mapping, mapping[i].v, gate))
      case Undriven => false
  }

  lemma AppendKeepsRebuilding(m: Machine, variables: seq<Driver>, mapping: seq<Value>, origin: seq<Var>, i: nat, d: Driver)
    requires Rebuilding(m, variables, mapping, origin) && i < |mapping|
    requires mapping[i].Constant? && !m.variables[i].Undriven?
    ensures Rebuilding(m, variables + [d], mapping[i := Variable(Var(true, |variables|))], origin + [Var(true, i)])
  {
  }

  /** Giving another variable its place does not disturb gates that do not read it. */
  lemma SubstituteElsewhere(mapping: seq<Value>, i: nat, value: Value, w: Value)
    requires i < |mapping| && value.Known(|mapping|) && (value.Variable? ==> value.v.index != i)
    ensures Substitute(mapping[i := w], value) == Substitute(mapping, value)
  {
  }

  lemma AppendKeepsProvisional(m: Machine, variables: seq<Driver>, mapping: seq<Value>, i: nat, d: Driver, k: nat)
    requires |mapping| == |m.variables| && i < |mapping| && k < |mapping| && i != k
    requires Provisional(m, variables, mapping, k)
    requires m.variables[k].GateDriver? ==> k < i && Ordered(m.variables)
    ensures Provisional(m, variables + [d], mapping[i := Variable(Var(true, |variables|))], k)
  {
    var after := mapping[i := Variable(Var(true, |variables|))];
    if mapping[k].Variable? && m.variables[k].GateDriver? {
      var gate := m.variables[k].gate;
      SubstituteElsewhere(mapping, i, gate.a, after[i]);
      SubstituteElsewhere(mapping, i, gate.b, after[i]);
    }
  }

  predicate IsKind(driver: Driver, latch: bool) {
    if latch then driver.LatchDriver? else driver.InputDriver?
  }

  /** Adds a place for every input except the tied one, or for every latch. */
  method RebuildLeaves(m: Machine, tied: nat, latch: bool, variables: seq<Driver>, mapping: seq<Value>, ghost origin: seq<Var>)
    returns (variables': seq<Driver>, mapping': seq<Value>, ghost origin': seq<Var>)
    requires tied < |m.variables| && m.variables[tied].InputDriver?
    requires Rebuilding(m, variables, mapping, origin) && mapping[tied].Constant?
    requires forall k :: 0 <= k < |variables| ==> !variables[k].GateDriver?
    requires forall k :: 0 <= k < |mapping| ==> Provisional(m, variables, mapping, k)
    requires forall k :: 0 <= k < |mapping| && (IsKind(m.variables[k], latch) || m.variables[k].GateDriver?) ==> mapping[k].Constant?
    ensures Rebuilding(m, variables', mapping', origin') && mapping'[tied] == mapping[tied]
    ensures forall k :: 0 <= k < |variables'| ==> !variables'[k].GateDriver?
    ensures forall k :: 0 <= k < |mapping'| ==> Provisional(m, variables', mapping', k)
    ensures forall k :: 0 <= k < |mapping'| && IsKind(m.variables[k], latch) && k != tied ==> mapping'[k].Variable?
    ensures forall k :: 0 <= k < |mapping'| && !IsKind(m.variables[k], latch) ==> mapping'[k] == mapping[k]
  {
    variables', mapping', origin' := variables, mapping, origin;
    for i := 0 to |m.variables|
      invariant Rebuilding(m, variables', mapping', origin') && mapping'[tied] == mapping[tied]
      invariant forall k :: 0 <= k < |variables'| ==> !variables'[k].GateDriver?
      invariant forall k :: 0 <= k < |mapping'| ==> Provisional(m, variables', mapping', k)
      invariant forall k :: 0 <= k < i && IsKind(m.variables[k], latch) && k != tied ==> mapping'[k].Variable?
      invariant forall k :: 0 <= k < |mapping'| && (i <= k || !IsKind(m.variables[k], latch)) ==> mapping'[k] == mapping[k]
    {
      if IsKind(m.variables[i], latch) && i != tied {
        var d := if latch then Undriven else InputDriver;
        AppendKeepsRebuilding(m, variables', mapping', origin', i, d);
        ghost var longer, moved := variables' + [d], mapping'[i := Variable(Var(true, |variables'|))];
        forall k | 0 <= k < |mapping'| && k != i
          ensures Provisional(m, longer, moved, k)
        {
          if m.variables[k].GateDriver? {
            assert mapping'[k].Constant?;
          } else {
            AppendKeepsProvisional(m, variables', mapping', i, d, k);
          }
        }
        mapping' := mapping'[i := Variable(Var(true, |variables'|))];
        origin' := origin' + [Var(true, i)];
        variables' := variables' + [d];
      }
    }
  }

  ghost predicate AllRebuilt(m: Machine, mapping: seq<Value>, tied: nat, limit: nat)
    requires |mapping| == |m.variables|
  {
    forall k :: 0 <= k < |mapping| && !m.variables[k].Undriven? && k != tied && (m.variables[k].GateDriver? ==> k < limit)
      ==> mapping[k].Variable?
  }

  /** Adds the gates in their order, reading the places given so far. */
  method RebuildGates(m: Machine, tied: nat, variables: seq<Driver>, mapping: seq<Value>, ghost origin: seq<Var>)
    returns (variables': seq<Driver>, mapping': seq<Value>, ghost origin': seq<Var>)
    requires Verified(m) && tied < |m.variables| && m.variables[tied].InputDriver?
    requires Rebuilding(m, variables, mapping, origin) && mapping[tied].Constant?
    requires forall k :: 0 <= k < |variables| ==> !variables[k].GateDriver?
    requires forall k :: 0 <= k < |mapping| ==> Provisional(m, variables, mapping, k)
    requires AllRebuilt(m, mapping, tied, 0)
    requires forall k :: 0 <= k < |mapping| && m.variables[k].GateDriver? ==> mapping[k].Constant?
    ensures Rebuilding(m, variables', mapping', origin') && mapping'[tied] == mapping[tied]
    ensures forall k :: 0 <= k < |mapping'| ==> Provisional(m, variables', mapping', k)
    ensures AllRebuilt(m, mapping', tied, |m.variables|) && Ordered(variables')
  {
    variables', mapping', origin' := variables, mapping, origin;
    for i := 0 to |m.variables|
      invariant Rebuilding(m, variables', mapping', origin') && mapping'[tied] == mapping[tied]
      invariant forall k :: 0 <= k < |mapping'| ==> Provisional(m, variables', mapping', k)
      invariant AllRebuilt(m, mapping', tied, i) && Ordered(variables')
      invariant forall k :: i <= k < |mapping'| && m.variables[k].GateDriver? ==> mapping'[k].Constant?
    {
      if m.variables[i].GateDriver? {
        var gate := m.variables[i].gate;
        var d := GateDriver(TranslatedGate(mapping', Var(true, |variables'|), gate));
        assert Driven(m.variables, gate.a) && Driven(m.variables, gate.b);
        GateAppended(m, variables', mapping', origin', gate, d.gate, tied, i);
        AppendKeepsRebuilding(m, variables', mapping', origin', i, d);
        ghost var before := mapping';
        ghost var longer, moved := variables' + [d], mapping'[i := Variable(Var(true, |variables'|))];
        forall k | 0 <= k < |mapping'|
          ensures Provisional(m, longer, moved, k)
        {
          if k == i {
            SubstituteElsewhere(before, i, gate.a, Variable(Var(true, |variables'|)));
            SubstituteElsewhere(before, i, gate.b, Variable(Var(true, |variables'|)));
          } else if m.variables[k].GateDriver? && k > i {
            assert mapping'[k].Constant?;
          } else {
            AppendKeepsProvisional(m, variables', mapping', i, d, k);
          }
        }
        mapping' := mapping'[i := Variable(Var(true, |variables'|))];
        origin' := origin' + [Var(true, i)];
        variables' := variables' + [d];
      }
    }
  }

  lemma GateAppended(m: Machine, variables: seq<Driver>, mapping: seq<Value>, origin: seq<Var>, gate: Gate,
                     translated: Gate, tied: nat, i: nat)
    requires Rebuilding(m, variables, mapping, origin) && Ordered(variables)
    requires gate.a.Known(i) && gate.b.Known(i) && i <= |mapping|
    requires translated == TranslatedGate(mapping, Var(true, |variables|), gate)
    ensures Ordered(variables + [GateDriver(translated)])
  {
    SortKeepsOrder(Substitute(mapping, gate.a), Substitute(mapping, gate.b));
  }

  /** Drives the latch places, now that everything they read has a place. */
  method ConnectLatches(m: Machine, tied: nat, variables: seq<Driver>, mapping: seq<Value>, ghost origin: seq<Var>)
    returns (variables': seq<Driver>)
    requires Verified(m) && tied < |m.variables| && m.variables[tied].InputDriver?
    requires Rebuilding(m, variables, mapping, origin) && mapping[tied].Constant?
    requires forall k :: 0 <= k < |mapping| ==> Provisional(m, variables, mapping, k)
    requires AllRebuilt(m, mapping, tied, |m.variables|) && Ordered(variables)
    ensures |variables'| == |variables| && Ordered(variables')
    ensures forall k :: 0 <= k < |mapping| ==> Moved(m.variables, variables', mapping, k)
  {
    variables' := variables;
    for i := 0 to |m.variables|
      invariant |variables'| == |variables| && Ordered(variables')
      invariant forall k :: i <= k < |mapping| ==> Provisional(m, variables', mapping, k)
      invariant forall k :: 0 <= k < i ==> Moved(m.variables, variables', mapping, k)
    {
      assert Provisional(m, variables', mapping, i);
      if m.variables[i].LatchDriver? {
        var latch := m.variables[i].latch;
        var place := mapping[i].v;
        assert Driven(m.variables, latch.input);
        ghost var before := variables';
        variables' := variables'[place.index := LatchDriver(Latch(latch.sign, Substitute(mapping, latch.input), latch.reset))];
        forall k | 0 <= k < |mapping| && k != i
          ensures k < i ==> Moved(m.variables, variables', mapping, k)
          ensures i < k ==> Provisional(m, variables', mapping, k)
        {
          OtherPlace(m, before, variables', mapping, origin, i, k);
          if k < i {
            assert Moved(m.variables, before, mapping, k);
          } else {
            assert Provisional(m, before, mapping, k);
          }
        }
      }
    }
  }

  lemma OtherPlace(m: Machine, before: seq<Driver>, after: seq<Driver>, mapping: seq<Value>, origin: seq<Var>, i: nat, k: nat)
    requires Rebuilding(m, before, mapping, origin) && |after| == |before|
    requires i < |mapping| && k < |mapping| && i != k && mapping[i].Variable?
    requires after == before[mapping[i].v.index := after[mapping[i].v.index]]
    ensures mapping[k].Variable? ==> mapping[k].v.index < |before| && after[mapping[k].v.index] == before[mapping[k].v.index]
  {
  }

  method RemapAll(values: seq<Value>, mapping: seq<Value>) returns (r: seq<Value>)
    requires AllKnown(values, |mapping|)
    ensures r == SubstituteAll(mapping, values)
  {
    r := [];
    for i := 0 to |values|
      invariant |r| == i && forall k :: 0 <= k < i ==> r[k] == Substitute(mapping, values[k])
    {
      r := r + [Substitute(mapping, values[i])];
    }
  }

  /** `n` is `m` with input `tied` replaced by a constant. */
  ghost predicate TiedMachine(m: Machine, n: Machine, tied: nat, value: bool, mapping: seq<Value>, origin: seq<Var>) {
    && Translates(m, n, mapping) && Originates(m, n, mapping, origin)
    && tied < |mapping| && mapping[tied] == Constant(value)
    && forall i :: 0 <= i < |mapping| && !m.variables[i].Undriven? && i != tied ==> mapping[i].Variable?
  }

  method RebuildWithTiedInput(m: Machine, tied: nat, value: bool)
    returns (rebuilt: FSM, mapping: seq<Value>, ghost origin: seq<Var>)
    requires Verified(m) && tied < |m.variables| && m.variables[tied].InputDriver?
    ensures fresh(rebuilt)
    ensures TiedMachine(m, rebuilt.Contents(), tied, value, mapping, origin)
    ensures Verified(rebuilt.Contents())
  {
    WellDrivenInRange(m);
    var n := |m.variables|;
    mapping := seq(n, _ => Constant(false));
    mapping := mapping[tied := Constant(value)];
    var variables: seq<Driver> := [];
    origin := [];
    variables, mapping, origin := RebuildLeaves(m, tied, false, variables, mapping, origin);
    variables, mapping, origin := RebuildLeaves(m, tied, true, variables, mapping, origin);
    variables, mapping, origin := RebuildGates(m, tied, variables, mapping, origin);
    variables := ConnectLatches(m, tied, variables, mapping, origin);
    rebuilt := new FSM();
    rebuilt.variables := variables;
    rebuilt.outputs := RemapAll(m.outputs, mapping);
    rebuilt.asserts := RemapAll(m.asserts, mapping);
    rebuilt.assumes := RemapAll(m.assumes, mapping);
    rebuilt.covers := RemapAll(m.covers, mapping);
    TiedWellDriven(m, rebuilt.Contents(), tied, value, mapping, origin);
  }

  lemma DrivenOrTied(m: Machine, n: Machine, tied: nat, value: bool, mapping: seq<Value>, origin: seq<Var>, v: Value)
    requires TiedMachine(m, n, tied, value, mapping, origin) && Driven(m.variables, v)
    ensures Driven(n.variables, Substitute(mapping, v))
  {
    if v.Variable? {
      assert Moved(m.variables, n.variables, mapping, v.v.index);
    }
  }

  lemma AllDrivenOrTied(m: Machine, n: Machine, tied: nat, value: bool, mapping: seq<Value>, origin: seq<Var>, values: seq<Value>)
    requires TiedMachine(m, n, tied, value, mapping, origin) && AllKnown(values, |mapping|)
    requires forall v :: v in values ==> Driven(m.variables, v)
    ensures forall v :: v in SubstituteAll(mapping, values) ==> Driven(n.variables, v)
  {
    forall v | v in SubstituteAll(mapping, values)
      ensures Driven(n.variables, v)
    {
      var k :| 0 <= k < |values| && v == Substitute(mapping, values[k]);
      DrivenOrTied(m, n, tied, value, mapping, origin, values[k]);
    }
  }

  lemma TiedWellDriven(m: Machine, n: Machine, tied: nat, value: bool, mapping: seq<Value>, origin: seq<Var>)
    requires TiedMachine(m, n, tied, value, mapping, origin) && WellDriven(m)
    ensures WellDriven(n)
  {
    forall j | 0 <= j < |n.variables| && n.variables[j].GateDriver?
      ensures Driven(n.variables, n.variables[j].gate.a) && Driven(n.variables, n.variables[j].gate.b)
      ensures n.variables[j].gate.InputsSorted()
    {
      var i := origin[j].index;
      assert Moved(m.variables, n.variables, mapping, i);
      var g := m.variables[i].gate;
      DrivenOrTied(m, n, tied, value, mapping, origin, g.a);
      DrivenOrTied(m, n, tied, value, mapping, origin, g.b);
      SortKeepsOrder(Substitute(mapping, g.a), Substitute(mapping, g.b));
    }
    forall j | 0 <= j < |n.variables| && n.variables[j].LatchDriver?
      ensures Driven(n.variables, n.variables[j].latch.input)
    {
      var i := origin[j].index;
      assert Moved(m.variables, n.variables, mapping, i);
      DrivenOrTied(m, n, tied, value, mapping, origin, m.variables[i].latch.input);
    }
    AllDrivenOrTied(m, n, tied, value, mapping, origin, m.outputs);
    AllDrivenOrTied(m, n, tied, value, mapping, origin, m.asserts);
    AllDrivenOrTied(m, n, tied, value, mapping, origin, m.assumes);
    AllDrivenOrTied(m, n, tied, value, mapping, origin, m.covers);
  }

  /** The input is held at a value in every cycle. */
  ghost predicate HeldAt(trace: Trace, tied: nat, value: bool) {
    forall t: nat :: trace(t)(tied) == value
  }

  /** The runs of the rebuilt machine are the runs of the original one that hold the
      tied input at the constant, observation by observation. */
  lemma TyingKeepsRuns(m: Machine, n: Machine, tied: nat, value: bool, mapping: seq<Value>, origin: seq<Var>)
    requires TiedMachine(m, n, tied, value, mapping, origin) && WellDriven(m)
    ensures forall trace :: Run(n, trace) ==>
      && Run(m, PullTrace(mapping, trace)) && HeldAt(PullTrace(mapping, trace), tied, value)
      && SameObservations(n, trace, m, PullTrace(mapping, trace))
    ensures forall trace :: Run(m, trace) && HeldAt(trace, tied, value) ==>
      Run(n, PushTrace(origin, trace)) && SameObservations(m, trace, n, PushTrace(origin, trace))
  {
    forall trace | Run(n, trace)
      ensures Run(m, PullTrace(mapping, trace)) && HeldAt(PullTrace(mapping, trace), tied, value)
      ensures SameObservations(n, trace, m, PullTrace(mapping, trace))
    {
      RunPulled(m, n, mapping, trace);
    }
    forall trace | Run(m, trace) && HeldAt(trace, tied, value)
      ensures Run(n, PushTrace(origin, trace)) && SameObservations(m, trace, n, PushTrace(origin, trace))
    {
      RunPushed(m, n, mapping, origin, trace);
    }
  }
}
