/** When one machine is another with its variables renamed, negated or tied to a
    constant, and why the two then have the same runs. Reordering, normalisation
    and tying an input are all instances. */
module Translation {
  import opened Words
  import opened Fsm

  /** Replace the variable a value refers to, keeping the sign of the reference. */
  function Substitute(mapping: seq<Value>, value: Value): (r: Value)
    requires value.Known(|mapping|)
    ensures forall s :: Holds(s, r) == Holds(Pull(mapping, s), value)
  {
    match value
    case Variable(v) => mapping[v.index].Xor(!v.sign)
    case Constant(b) => value
  }

  function SubstituteAll(mapping: seq<Value>, values: seq<Value>): (r: seq<Value>)
    requires AllKnown(values, |mapping|)
    ensures |r| == |values|
  {
    seq(|values|, i requires 0 <= i < |values| => Substitute(mapping, values[i]))
  }

  /** The assignment to the old variables that an assignment to the new ones gives. */
  function Pull(mapping: seq<Value>, s: Assignment): Assignment {
    (i: nat) => i < |mapping| && Holds(s, mapping[i])
  }

  /** The assignment to the new variables: variable `j` is old variable
      `origin[j].index`, negated if the sign is false. */
  function Push(origin: seq<Var>, s: Assignment): Assignment {
    (j: nat) => j < |origin| && s(origin[j].index) == origin[j].sign
  }

  // ----- the relation between the two machines -----

  /** The gate that computes variable `w` from translated inputs. */
  function TranslatedGate(mapping: seq<Value>, w: Var, gate: Gate): Gate
    requires gate.a.Known(|mapping|) && gate.b.Known(|mapping|)
  {
    Gate(w.sign == gate.sign, gate.gateType, Substitute(mapping, gate.a), Substitute(mapping, gate.b)).SortInputs()
  }

  function TranslatedLatch(mapping: seq<Value>, w: Var, latch: Latch): Latch
    requires latch.input.Known(|mapping|)
  {
    Latch(w.sign == latch.sign, Substitute(mapping, latch.input), latch.reset)
  }

  /** Where variable `i` went, its driver went along. Only inputs may be tied. */
  ghost predicate Moved(before: seq<Driver>, after: seq<Driver>, mapping: seq<Value>, i: nat)
    requires i < |before| == |mapping|
  {
    match before[i]
    case Undriven => true
    case InputDriver =>
      mapping[i].Variable? ==> mapping[i].v.index < |after| && after[mapping[i].v.index].InputDriver?
    case LatchDriver(latch) =>
      && latch.input.Known(|mapping|)
      && mapping[i].Variable? && mapping[i].v.index < |after|
      && after[mapping[i].v.index] == LatchDriver(TranslatedLatch(mapping, mapping[i].v, latch))
    case GateDriver(gate) =>
      && gate.a.Known(|mapping|) && gate.b.Known(|mapping|)
      && mapping[i].Variable? && mapping[i].v.index < |after|
      && after[mapping[i].v.index] == GateDriver(TranslatedGate(mapping, mapping[i].v, gate))
  }

  /** All references point into the machine. */
  ghost predicate InRange(m: Machine) {
    && (forall i :: 0 <= i < |m.variables| && m.variables[i].GateDriver? ==>
          m.variables[i].gate.a.Known(|m.variables|) && m.variables[i].gate.b.Known(|m.variables|))
    && (forall i :: 0 <= i < |m.variables| && m.variables[i].LatchDriver? ==>
          m.variables[i].latch.input.Known(|m.variables|))
    && AllKnown(m.outputs, |m.variables|) && AllKnown(m.asserts, |m.variables|)
    && AllKnown(m.assumes, |m.variables|) && AllKnown(m.covers, |m.variables|)
  }

  lemma WellDrivenInRange(m: Machine)
    requires WellDriven(m)
    ensures InRange(m)
  {
    forall i | 0 <= i < |m.variables| && m.variables[i].GateDriver?
      ensures m.variables[i].gate.a.Known(|m.variables|) && m.variables[i].gate.b.Known(|m.variables|)
    {
      assert Driven(m.variables, m.variables[i].gate.a) && Driven(m.variables, m.variables[i].gate.b);
    }
    forall values: seq<Value> | forall v :: v in values ==> Driven(m.variables, v)
      ensures AllKnown(values, |m.variables|)
    {
      forall i | 0 <= i < |values|
        ensures values[i].Known(|m.variables|)
      {
        assert Driven(m.variables, values[i]);
      }
    }
  }

  ghost predicate Translates(m: Machine, n: Machine, mapping: seq<Value>) {
    && InRange(m) && |mapping| == |m.variables|
    && (forall i :: 0 <= i < |mapping| ==> Moved(m.variables, n.variables, mapping, i))
    && n.outputs == SubstituteAll(mapping, m.outputs)
    && n.asserts == SubstituteAll(mapping, m.asserts)
    && n.assumes == SubstituteAll(mapping, m.assumes)
    && n.covers == SubstituteAll(mapping, m.covers)
  }

  /** Every driven new variable came from a driven old one. */
  ghost predicate Originates(m: Machine, n: Machine, mapping: seq<Value>, origin: seq<Var>) {
    && |mapping| == |m.variables| && |origin| == |n.variables|
    && (forall j :: 0 <= j < |origin| && !n.variables[j].Undriven? ==>
          && origin[j].index < |mapping|
          && !m.variables[origin[j].index].Undriven?
          && mapping[origin[j].index] == Variable(Var(origin[j].sign, j)))
    && (forall i :: 0 <= i < |mapping| && !m.variables[i].Undriven? && mapping[i].Variable? ==>
          && mapping[i].v.index < |origin|
          && origin[mapping[i].v.index] == Var(mapping[i].v.sign, i))
  }

  /** Inputs that were tied hold their constants. */
  ghost predicate Tied(m: Machine, mapping: seq<Value>, s: Assignment)
    requires |mapping| == |m.variables|
  {
    forall i :: 0 <= i < |mapping| && !m.variables[i].Undriven? && mapping[i].Constant? ==> s(i) == mapping[i].b
  }

  // ----- one cycle -----

  lemma SortedGateSettled(s: Assignment, index: nat, gate: Gate)
    ensures GateSettled(s, index, gate.SortInputs()) == GateSettled(s, index, gate)
  {
  }

  lemma MovedGateSettled(before: seq<Driver>, after: seq<Driver>, mapping: seq<Value>, i: nat, s: Assignment)
    requires i < |before| == |mapping| && before[i].GateDriver? && Moved(before, after, mapping, i)
    ensures GateSettled(s, mapping[i].v.index, after[mapping[i].v.index].gate) <==>
      GateSettled(Pull(mapping, s), i, before[i].gate)
  {
    var g, w := before[i].gate, mapping[i].v;
    SortedGateSettled(s, w.index,
      Gate(w.sign == g.sign, g.gateType, Substitute(mapping, g.a), Substitute(mapping, g.b)));
  }

  lemma BitsOfSubstituted(mapping: seq<Value>, values: seq<Value>, s: Assignment)
    requires AllKnown(values, |mapping|)
    ensures BitsOf(s, SubstituteAll(mapping, values)) == BitsOf(Pull(mapping, s), values)
  {
  }

  lemma ObservationPulled(m: Machine, n: Machine, mapping: seq<Value>, s: Assignment)
    requires Translates(m, n, mapping)
    ensures Observe(n, s) == Observe(m, Pull(mapping, s))
  {
    BitsOfSubstituted(mapping, m.outputs, s);
    BitsOfSubstituted(mapping, m.asserts, s);
    BitsOfSubstituted(mapping, m.assumes, s);
    BitsOfSubstituted(mapping, m.covers, s);
  }

  lemma SettledPulled(m: Machine, n: Machine, mapping: seq<Value>, s: Assignment)
    requires Translates(m, n, mapping) && Settled(n.variables, s)
    ensures Settled(m.variables, Pull(mapping, s))
  {
    forall i | 0 <= i < |m.variables| && m.variables[i].GateDriver?
      ensures GateSettled(Pull(mapping, s), i, m.variables[i].gate)
    {
      assert Moved(m.variables, n.variables, mapping, i);
      MovedGateSettled(m.variables, n.variables, mapping, i, s);
    }
  }

  lemma StepsPulled(m: Machine, n: Machine, mapping: seq<Value>, s: Assignment, next: Assignment)
    requires Translates(m, n, mapping) && Steps(n.variables, s, next)
    ensures Steps(m.variables, Pull(mapping, s), Pull(mapping, next))
  {
    forall i | 0 <= i < |m.variables| && m.variables[i].LatchDriver?
      ensures (Pull(mapping, next)(i) == m.variables[i].latch.sign) == Holds(Pull(mapping, s), m.variables[i].latch.input)
    {
      assert Moved(m.variables, n.variables, mapping, i);
    }
  }

  lemma InitialPulled(m: Machine, n: Machine, mapping: seq<Value>, s: Assignment)
    requires Translates(m, n, mapping) && Initial(n.variables, s)
    ensures Initial(m.variables, Pull(mapping, s))
  {
    forall i | 0 <= i < |m.variables| && m.variables[i].LatchDriver? && m.variables[i].latch.reset.Some?
      ensures (Pull(mapping, s)(i) == m.variables[i].latch.sign) == m.variables[i].latch.reset.value
    {
      assert Moved(m.variables, n.variables, mapping, i);
    }
  }

  /** Two assignments that agree on the driven variables of a machine. */
  ghost predicate SameDriven(m: Machine, s: Assignment, t: Assignment) {
    forall i :: 0 <= i < |m.variables| && !m.variables[i].Undriven? ==> s(i) == t(i)
  }

  lemma PushThenPull(m: Machine, n: Machine, mapping: seq<Value>, origin: seq<Var>, s: Assignment)
    requires Translates(m, n, mapping) && Originates(m, n, mapping, origin) && Tied(m, mapping, s)
    ensures SameDriven(m, Pull(mapping, Push(origin, s)), s)
  {
  }

  /** Verification of a machine makes undriven variables irrelevant to it. */
  lemma DrivenHolds(m: Machine, value: Value, s: Assignment, t: Assignment)
    requires SameDriven(m, s, t) && Driven(m.variables, value)
    ensures Holds(s, value) == Holds(t, value)
  {
  }

  lemma SettledPushed(m: Machine, n: Machine, mapping: seq<Value>, origin: seq<Var>, s: Assignment)
    requires Translates(m, n, mapping) && Originates(m, n, mapping, origin) && WellDriven(m)
    requires Tied(m, mapping, s) && Settled(m.variables, s)
    ensures Settled(n.variables, Push(origin, s))
  {
    var t := Push(origin, s);
    PushThenPull(m, n, mapping, origin, s);
    forall j | 0 <= j < |n.variables| && n.variables[j].GateDriver?
      ensures GateSettled(t, j, n.variables[j].gate)
    {
      var i := origin[j].index;
      assert Moved(m.variables, n.variables, mapping, i);
      var g := m.variables[i].gate;
      MovedGateSettled(m.variables, n.variables, mapping, i, t);
      DrivenHolds(m, g.a, Pull(mapping, t), s);
      DrivenHolds(m, g.b, Pull(mapping, t), s);
      assert GateSettled(s, i, g);
    }
  }

  lemma StepsPushed(m: Machine, n: Machine, mapping: seq<Value>, origin: seq<Var>, s: Assignment, next: Assignment)
    requires Translates(m, n, mapping) && Originates(m, n, mapping, origin) && WellDriven(m)
    requires Tied(m, mapping, s) && Tied(m, mapping, next) && Steps(m.variables, s, next)
    ensures Steps(n.variables, Push(origin, s), Push(origin, next))
  {
    PushThenPull(m, n, mapping, origin, s);
    PushThenPull(m, n, mapping, origin, next);
    forall j | 0 <= j < |n.variables| && n.variables[j].LatchDriver?
      ensures (Push(origin, next)(j) == n.variables[j].latch.sign) == Holds(Push(origin, s), n.variables[j].latch.input)
    {
      var i := origin[j].index;
      assert Moved(m.variables, n.variables, mapping, i);
      DrivenHolds(m, m.variables[i].latch.input, Pull(mapping, Push(origin, s)), s);
    }
  }

  lemma InitialPushed(m: Machine, n: Machine, mapping: seq<Value>, origin: seq<Var>, s: Assignment)
    requires Translates(m, n, mapping) && Originates(m, n, mapping, origin)
    requires Tied(m, mapping, s) && Initial(m.variables, s)
    ensures Initial(n.variables, Push(origin, s))
  {
    PushThenPull(m, n, mapping, origin, s);
    forall j | 0 <= j < |n.variables| && n.variables[j].LatchDriver? && n.variables[j].latch.reset.Some?
      ensures (Push(origin, s)(j) == n.variables[j].latch.sign) == n.variables[j].latch.reset.value
    {
      assert Moved(m.variables, n.variables, mapping, origin[j].index);
    }
  }

  lemma SameBits(m: Machine, values: seq<Value>, s: Assignment, t: Assignment)
    requires SameDriven(m, s, t) && forall v :: v in values ==> Driven(m.variables, v)
    ensures BitsOf(s, values) == BitsOf(t, values)
  {
    forall i | 0 <= i < |values|
      ensures Holds(s, values[i]) == Holds(t, values[i])
    {
      DrivenHolds(m, values[i], s, t);
    }
  }

  lemma ObservationPushed(m: Machine, n: Machine, mapping: seq<Value>, origin: seq<Var>, s: Assignment)
    requires Translates(m, n, mapping) && Originates(m, n, mapping, origin) && WellDriven(m) && Tied(m, mapping, s)
    ensures Observe(n, Push(origin, s)) == Observe(m, s)
  {
    var t := Pull(mapping, Push(origin, s));
    PushThenPull(m, n, mapping, origin, s);
    ObservationPulled(m, n, mapping, Push(origin, s));
    SameBits(m, m.outputs, t, s);
    SameBits(m, m.asserts, t, s);
    SameBits(m, m.assumes, t, s);
    SameBits(m, m.covers, t, s);
  }

  // ----- whole runs -----

  function PullTrace(mapping: seq<Value>, trace: Trace): Trace {
    (t: nat) => Pull(mapping, trace(t))
  }

  function PushTrace(origin: seq<Var>, trace: Trace): Trace {
    (t: nat) => Push(origin, trace(t))
  }

  /** Every run of the new machine is a run of the old one, with the same
      observations in every cycle. */
  lemma RunPulled(m: Machine, n: Machine, mapping: seq<Value>, trace: Trace)
    requires Translates(m, n, mapping) && Run(n, trace)
    ensures Run(m, PullTrace(mapping, trace))
    ensures forall t: nat :: Observe(m, PullTrace(mapping, trace)(t)) == Observe(n, trace(t))
  {
    var pulled := PullTrace(mapping, trace);
    InitialPulled(m, n, mapping, trace(0));
    forall t: nat
      ensures Cycle(m.variables, pulled, t)
      ensures Observe(m, pulled(t)) == Observe(n, trace(t))
    {
      assert Cycle(n.variables, trace, t);
      SettledPulled(m, n, mapping, trace(t));
      StepsPulled(m, n, mapping, trace(t), trace(t + 1));
      ObservationPulled(m, n, mapping, trace(t));
    }
  }

  /** Every run of the old machine that holds the tied inputs constant is a run
      of the new one, with the same observations in every cycle. */
  lemma RunPushed(m: Machine, n: Machine, mapping: seq<Value>, origin: seq<Var>, trace: Trace)
    requires Translates(m, n, mapping) && Originates(m, n, mapping, origin) && WellDriven(m)
    requires Run(m, trace) && forall t: nat :: Tied(m, mapping, trace(t))
    ensures Run(n, PushTrace(origin, trace))
    ensures forall t: nat ::
      && Observe(n, PushTrace(origin, trace)(t)) == Observe(m, trace(t))
      && SameDriven(m, PullTrace(mapping, PushTrace(origin, trace))(t), trace(t))
  {
    var pushed := PushTrace(origin, trace);
    InitialPushed(m, n, mapping, origin, trace(0));
    forall t: nat
      ensures Cycle(n.variables, pushed, t)
      ensures Observe(n, pushed(t)) == Observe(m, trace(t))
      ensures SameDriven(m, PullTrace(mapping, pushed)(t), trace(t))
    {
      assert Cycle(m.variables, trace, t);
      SettledPushed(m, n, mapping, origin, trace(t));
      StepsPushed(m, n, mapping, origin, trace(t), trace(t + 1));
      ObservationPushed(m, n, mapping, origin, trace(t));
      PushThenPull(m, n, mapping, origin, trace(t));
    }
  }

  // ----- renaming without tying -----

  ghost predicate AllVariables(mapping: seq<Value>) {
    forall i :: 0 <= i < |mapping| ==> mapping[i].Variable?
  }

  /** `n` is `m` with its variables renamed or negated, one to one. */
  ghost predicate Renamed(m: Machine, n: Machine, mapping: seq<Value>, origin: seq<Var>) {
    AllVariables(mapping) && Translates(m, n, mapping) && Originates(m, n, mapping, origin)
  }

  /** Renaming is a bisimulation: runs correspond in both directions, with the same
      outputs, asserts, assumes and covers in every cycle. */
  lemma RenamingKeepsRuns(m: Machine, n: Machine, mapping: seq<Value>, origin: seq<Var>)
    requires Renamed(m, n, mapping, origin) && WellDriven(m)
    ensures forall trace :: Run(n, trace) ==>
      Run(m, PullTrace(mapping, trace)) && SameObservations(n, trace, m, PullTrace(mapping, trace))
    ensures forall trace :: Run(m, trace) ==>
      Run(n, PushTrace(origin, trace)) && SameObservations(m, trace, n, PushTrace(origin, trace))
  {
    forall trace | Run(n, trace)
      ensures Run(m, PullTrace(mapping, trace)) && SameObservations(n, trace, m, PullTrace(mapping, trace))
    {
      RunPulled(m, n, mapping, trace);
    }
    forall trace | Run(m, trace)
      ensures Run(n, PushTrace(origin, trace)) && SameObservations(m, trace, n, PushTrace(origin, trace))
    {
      RunPushed(m, n, mapping, origin, trace);
    }
  }

  ghost predicate SameObservations(m: Machine, trace: Trace, n: Machine, trace': Trace) {
    forall t: nat :: Observe(m, trace(t)) == Observe(n, trace'(t))
  }

  // ----- one renaming after another -----

  function Compose(f: seq<Value>, g: seq<Value>): (r: seq<Value>)
    ensures |r| == |f|
  {
    seq(|f|, i requires 0 <= i < |f| => if f[i].Known(|g|) then Substitute(g, f[i]) else f[i])
  }

  function ComposeOrigin(f: seq<Var>, g: seq<Var>): (r: seq<Var>)
    ensures |r| == |g|
  {
    seq(|g|, j requires 0 <= j < |g| =>
      if g[j].index < |f| then Var(g[j].sign == f[g[j].index].sign, f[g[j].index].index) else g[j])
  }

  lemma SubstituteTwice(f: seq<Value>, g: seq<Value>, value: Value)
    requires value.Known(|f|) && Substitute(f, value).Known(|g|)
    ensures Substitute(Compose(f, g), value) == Substitute(g, Substitute(f, value))
  {
  }

  lemma SortingForgetsOrder(gate: Gate)
    ensures gate.(a := gate.b, b := gate.a).SortInputs() == gate.SortInputs()
  {
    SortKeepsOrder(gate.a, gate.b);
  }

  lemma MovedTwice(m: seq<Driver>, n: seq<Driver>, p: seq<Driver>, f: seq<Value>, g: seq<Value>, i: nat)
    requires i < |m| == |f| && |n| == |g| && Moved(m, n, f, i) && !m[i].Undriven?
    requires f[i].Variable? && f[i].v.index < |n| && Moved(n, p, g, f[i].v.index)
    requires g[f[i].v.index].Variable?
    ensures Moved(m, p, Compose(f, g), i)
  {
    var w := f[i].v;
    match m[i]
    case LatchDriver(latch) =>
      SubstituteTwice(f, g, latch.input);
    case GateDriver(gate) =>
      SubstituteTwice(f, g, gate.a);
      SubstituteTwice(f, g, gate.b);
      var x, y := Substitute(f, gate.a), Substitute(f, gate.b);
      SortingForgetsOrder(Gate(g[w.index].v.sign == (w.sign == gate.sign), gate.gateType,
        Substitute(g, x), Substitute(g, y)));
    case InputDriver =>
    case Undriven =>
  }

  lemma SubstituteAllTwice(f: seq<Value>, g: seq<Value>, values: seq<Value>)
    requires AllKnown(values, |f|) && AllKnown(SubstituteAll(f, values), |g|)
    ensures SubstituteAll(Compose(f, g), values) == SubstituteAll(g, SubstituteAll(f, values))
  {
    forall i | 0 <= i < |values|
      ensures Substitute(f, values[i]).Known(|g|)
      ensures Substitute(Compose(f, g), values[i]) == Substitute(g, Substitute(f, values[i]))
    {
      assert SubstituteAll(f, values)[i] == Substitute(f, values[i]);
      SubstituteTwice(f, g, values[i]);
    }
  }

  lemma RenamedTwice(m: Machine, n: Machine, p: Machine, f: seq<Value>, g: seq<Value>, f': seq<Var>, g': seq<Var>)
    requires Renamed(m, n, f, f') && Renamed(n, p, g, g')
    ensures Renamed(m, p, Compose(f, g), ComposeOrigin(f', g'))
  {
    forall i | 0 <= i < |f|
      ensures Moved(m.variables, p.variables, Compose(f, g), i)
    {
      assert Moved(m.variables, n.variables, f, i);
      if !m.variables[i].Undriven? {
        assert Moved(n.variables, p.variables, g, f[i].v.index);
        MovedTwice(m.variables, n.variables, p.variables, f, g, i);
      }
    }
    SubstituteAllTwice(f, g, m.outputs);
    SubstituteAllTwice(f, g, m.asserts);
    SubstituteAllTwice(f, g, m.assumes);
    SubstituteAllTwice(f, g, m.covers);
    OriginatesTwice(m, n, p, f, g, f', g');
  }

  lemma OriginatesTwice(m: Machine, n: Machine, p: Machine, f: seq<Value>, g: seq<Value>, f': seq<Var>, g': seq<Var>)
    requires Renamed(m, n, f, f') && Renamed(n, p, g, g')
    ensures Originates(m, p, Compose(f, g), ComposeOrigin(f', g'))
  {
    forall i | 0 <= i < |f| && !m.variables[i].Undriven?
      ensures !n.variables[f[i].v.index].Undriven?
    {
      assert Moved(m.variables, n.variables, f, i);
    }
  }
}
