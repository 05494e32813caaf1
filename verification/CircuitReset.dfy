/** Applying a reset input to a converted circuit.

    The runs of the resulting machine are what circuit runs show after a reset cycle:
    every run that begins with one is covered, and when the reset cycle determines all
    registers nothing else is. */
module CircuitReset {
  import opened Words
  import opened Fsm
  import opened Translation
  import opened TieInput
  import opened CircuitGraph
  import opened CircuitModel
  import Simulator

  /** How a machine with reset applied came about: the machine of the circuit and its
      words, and which variable was tied. */
  datatype ResetConversion = ResetConversion(
    order: seq<nat>,
    m: Machine,
    signals: Signals,
    tied: nat,
    mapping: seq<Value>,
    origin: seq<Var>)

  ghost predicate ResetConverted(c: Circuit, reset: nat, asserted: bool, b: ResetConversion, n: Machine) {
    && Topological(c.graph, b.order) && Represents(c, b.order, b.m, b.signals)
    && Verified(b.m) && InRange(b.m) && Verified(n)
    && b.tied < |b.m.variables| && b.m.variables[b.tied].InputDriver?
    && reset in b.signals.leaves && b.signals.leaves[reset] == [Variable(Var(true, b.tied))]
    && Simulator.AppliesReset(b.m, b.tied, asserted, n, b.mapping, b.origin)
  }

  predicate IsBitInput(c: Circuit, id: nat) {
    id in InputNodes(c) && IsBit(c.graph, id)
  }

  /** Converts a circuit and applies a reset input of one bit. */
  method ConvertWithReset(c: Circuit, reset: nat, asserted: bool)
    returns (fsm: FSM, ok: bool, ghost b: ResetConversion)
    requires ValidCircuit(c)
    ensures fresh(fsm)
    ensures !CycleExists(c.graph) && !Unresolved(c.graph) ==> Topological(c.graph, b.order)
    ensures ok <==>
      !CycleExists(c.graph) && !Unresolved(c.graph) && CircuitConverts(c, b.order) && IsBitInput(c, reset)
    ensures ok ==> ResetConverted(c, reset, asserted, b, fsm.Contents())
  {
    hide CycleExists;
    hide Unresolved;
    hide CircuitConverts;
    hide Topological;
    hide Represents;
    hide ValidCircuit;
    hide Verified;
    hide InRange;
    hide Simulator.AppliesReset;
    var signals;
    ghost var order;
    fsm, signals, order := ConvertCircuit(c);
    ok, b := false, ResetConversion(order, fsm.Contents(), Signals(map[], map[]), 0, [], []);
    if signals == None || reset !in InputNodes(c) || |signals.value.leaves[reset]| != 1 {
      return;
    }
    var word := signals.value.leaves[reset];
    assert IsInputBit(fsm.Contents(), word[0]);
    var tied := word[0].v.index;
    ghost var m := fsm.Contents();
    InRangeVerified(m);
    var rebuilt, mapping;
    ghost var origin;
    rebuilt, mapping, origin := Simulator.ApplyReset(fsm, tied, asserted);
    b := ResetConversion(order, m, signals.value, tied, mapping, origin);
    fsm := rebuilt;
    ok := true;
  }

  lemma InRangeVerified(m: Machine)
    requires Verified(m)
    ensures InRange(m)
  {
    WellDrivenInRange(m);
  }

  // ----- runs that begin with a reset cycle -----

  /** Reset is asserted in the first cycle and inactive ever after. */
  ghost predicate BeginsWithReset(run: CircuitTrace, reset: nat, asserted: bool) {
    && reset in run(0).leaves && run(0).leaves[reset] == [asserted]
    && forall t: nat :: t > 0 ==> reset in run(t).leaves && run(t).leaves[reset] == [!asserted]
  }

  /** The trace shows, from its first cycle on, what the circuit shows after reset. */
  ghost predicate ShowsAfterReset(c: Circuit, order: seq<nat>, run: CircuitTrace, n: Machine, trace: Trace) {
    forall t: nat :: Observe(n, trace(t)) == CircuitObservation(c, order, run(t + 1))
  }

  lemma ResetParts(c: Circuit, reset: nat, asserted: bool, b: ResetConversion, n: Machine)
    requires ResetConverted(c, reset, asserted, b, n)
    ensures Represents(c, b.order, b.m, b.signals) && Verified(b.m) && InRange(b.m)
    ensures b.tied < |b.m.variables| && b.m.variables[b.tied].InputDriver?
    ensures reset in b.signals.leaves && b.signals.leaves[reset] == [Variable(Var(true, b.tied))]
    ensures Simulator.AppliesReset(b.m, b.tied, asserted, n, b.mapping, b.origin)
  {
    hide Represents;
    hide Verified;
    hide InRange;
    hide Simulator.AppliesReset;
  }

  lemma RunTracking(c: Circuit, order: seq<nat>, m: Machine, signals: Signals, run: CircuitTrace) returns (trace: Trace)
    requires Represents(c, order, m, signals) && CircuitRun(c, order, run)
    ensures Run(m, trace) && Tracks(signals, trace, run) && ShowsCircuit(c, order, m, signals, trace)
  {
    hide Run;
    hide CircuitRun;
    hide ShowsCircuit;
    trace :| Run(m, trace) && Tracks(signals, trace, run);
  }

  lemma RunsTracked(c: Circuit, order: seq<nat>, m: Machine, signals: Signals, trace: Trace)
    requires Represents(c, order, m, signals) && Run(m, trace)
    ensures CircuitRun(c, order, ValuesTrace(signals, trace))
    ensures Tracks(signals, trace, ValuesTrace(signals, trace)) && ShowsCircuit(c, order, m, signals, trace)
  {
    hide Run;
    hide CircuitRun;
    hide ShowsCircuit;
  }

  /** The bit that a tracked run gives the reset input is its variable. */
  lemma ResetBit(signals: Signals, trace: Trace, run: CircuitTrace, reset: nat, tied: nat, t: nat)
    requires Tracks(signals, trace, run)
    requires reset in signals.leaves && signals.leaves[reset] == [Variable(Var(true, tied))]
    ensures reset in run(t).leaves && run(t).leaves[reset] == [trace(t)(tied)]
  {
    assert Values(signals, trace(t)) == run(t);
    assert BitsOf(trace(t), signals.leaves[reset]) == [trace(t)(tied)];
  }

  lemma ResetTracked(signals: Signals, trace: Trace, run: CircuitTrace, reset: nat, asserted: bool, tied: nat)
    requires Tracks(signals, trace, run)
    requires reset in signals.leaves && signals.leaves[reset] == [Variable(Var(true, tied))]
    ensures BeginsWithReset(run, reset, asserted) <==> Simulator.ResetRun(trace, tied, asserted)
  {
    hide Tracks;
    forall t: nat
      ensures reset in run(t).leaves && run(t).leaves[reset] == [trace(t)(tied)]
    {
      ResetBit(signals, trace, run, reset, tied, t);
    }
  }

  lemma ShownLater(c: Circuit, order: seq<nat>, m: Machine, signals: Signals, trace: Trace, run: CircuitTrace,
    n: Machine, later: Trace)
    requires ShowsCircuit(c, order, m, signals, trace) && Tracks(signals, trace, run)
    requires SameObservations(m, Simulator.Later(trace), n, later)
    ensures ShowsAfterReset(c, order, run, n, later)
  {
    hide Observe;
    hide CircuitObservation;
    hide Values;
    forall t: nat
      ensures Observe(n, later(t)) == CircuitObservation(c, order, run(t + 1))
    {
      assert Observe(m, Simulator.Later(trace)(t)) == Observe(n, later(t));
      assert Simulator.Later(trace)(t) == trace(t + 1);
      assert Values(signals, trace(t + 1)) == run(t + 1);
    }
  }

  /** When simulating the reset cycle leaves no register with a declared value unknown,
      every circuit run that begins with a reset cycle has a run of the machine that shows
      what follows. */
  lemma CircuitRunAfterReset(c: Circuit, reset: nat, asserted: bool, b: ResetConversion, n: Machine, run: CircuitTrace)
    requires ResetConverted(c, reset, asserted, b, n)
    requires Simulator.NoFallback(b.m, Simulator.AfterReset(b.m, b.tied, asserted))
    requires CircuitRun(c, b.order, run) && BeginsWithReset(run, reset, asserted)
    ensures exists trace :: Run(n, trace) && ShowsAfterReset(c, b.order, run, n, trace)
  {
    hide *;
    ResetParts(c, reset, asserted, b, n);
    var trace := RunTracking(c, b.order, b.m, b.signals, run);
    ResetTracked(b.signals, trace, run, reset, asserted, b.tied);
    Simulator.ResetIsSound(b.m, b.tied, asserted, n, b.mapping, b.origin, trace);
    var later := PushTrace(b.origin, Simulator.Later(trace));
    ShownLater(c, b.order, b.m, b.signals, trace, run, n, later);
  }

  lemma FollowsParts(m: Machine, original: Trace, reset: nat, asserted: bool, n: Machine, trace: Trace)
    requires Simulator.FollowsReset(m, original, reset, asserted, n, trace)
    ensures Run(m, original) && Simulator.ResetRun(original, reset, asserted)
    ensures SameObservations(m, Simulator.Later(original), n, trace)
  {
  }

  /** When simulating the reset cycle leaves no register unknown, every run of the machine
      shows what follows the reset cycle of some circuit run. */
  lemma RunFollowsReset(c: Circuit, reset: nat, asserted: bool, b: ResetConversion, n: Machine, trace: Trace)
    requires ResetConverted(c, reset, asserted, b, n)
    requires Simulator.AllInferred(b.m, Simulator.AfterReset(b.m, b.tied, asserted))
    requires Run(n, trace)
    ensures exists run ::
      && CircuitRun(c, b.order, run) && BeginsWithReset(run, reset, asserted)
      && ShowsAfterReset(c, b.order, run, n, trace)
  {
    hide *;
    ResetParts(c, reset, asserted, b, n);
    Simulator.ResetIsExact(b.m, b.tied, asserted, n, b.mapping, b.origin, trace);
    var original :| Simulator.FollowsReset(b.m, original, b.tied, asserted, n, trace);
    var run := ValuesTrace(b.signals, original);
    FollowsParts(b.m, original, b.tied, asserted, n, trace);
    RunsTracked(c, b.order, b.m, b.signals, original);
    ResetTracked(b.signals, original, run, reset, asserted, b.tied);
    ShownLater(c, b.order, b.m, b.signals, original, run, n, trace);
  }
}
