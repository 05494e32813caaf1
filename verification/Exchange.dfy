/** From any well-driven machine to an AIGER file and back: normalise order and
    signs, write, and read. */
module Exchange {
  import opened Words
  import opened Fsm
  import opened Translation
  import opened Reorder
  import opened Normalize
  import opened AigerText
  import opened AigerSymbols
  import opened AigerBinary

  // ----- what renaming keeps -----

  lemma ClashSubstituted(m: Machine, n: Machine, mapping: seq<Value>, origin: seq<Var>, a: Value, b: Value)
    requires Renamed(m, n, mapping, origin) && Driven(m.variables, a) && Driven(m.variables, b)
    ensures Substitute(mapping, a) == Substitute(mapping, b).Negate() <==> a == b.Negate()
    ensures Substitute(mapping, a).Variable? == a.Variable?
  {
    if a.Variable? && b.Variable? {
      var i, j := a.v.index, b.v.index;
      assert Moved(m.variables, n.variables, mapping, i) && Moved(m.variables, n.variables, mapping, j);
      assert origin[mapping[i].v.index].index == i && origin[mapping[j].v.index].index == j;
    }
  }

  lemma GateClashRenamed(m: Machine, n: Machine, mapping: seq<Value>, origin: seq<Var>, i: nat)
    requires Renamed(m, n, mapping, origin) && WellDriven(m)
    requires i < |m.variables| && m.variables[i].GateDriver?
    ensures PlaceOf(mapping, i) < |n.variables| && n.variables[PlaceOf(mapping, i)].GateDriver?
    ensures Clashes(n.variables[PlaceOf(mapping, i)].gate) <==> Clashes(m.variables[i].gate)
  {
    assert Moved(m.variables, n.variables, mapping, i);
    var gate := m.variables[i].gate;
    ClashSubstituted(m, n, mapping, origin, gate.a, gate.b);
    ClashSubstituted(m, n, mapping, origin, gate.b, gate.a);
  }

  /** Clashing gates stay clashing gates. */
  lemma NoClashRenamed(m: Machine, n: Machine, mapping: seq<Value>, origin: seq<Var>)
    requires Renamed(m, n, mapping, origin) && WellDriven(m)
    ensures NoClash(n.variables) <==> NoClash(m.variables)
  {
    hide Clashes;
    forall i | 0 <= i < |m.variables| && m.variables[i].GateDriver?
      ensures PlaceOf(mapping, i) < |n.variables| && n.variables[PlaceOf(mapping, i)].GateDriver?
      ensures Clashes(n.variables[PlaceOf(mapping, i)].gate) <==> Clashes(m.variables[i].gate)
    {
      GateClashRenamed(m, n, mapping, origin, i);
    }
    forall p | 0 <= p < |n.variables| && n.variables[p].GateDriver?
      ensures SourceOf(origin, p) < |m.variables| && m.variables[SourceOf(origin, p)].GateDriver?
      ensures PlaceOf(mapping, SourceOf(origin, p)) == p
    {
      GateOriginates(m, n, mapping, origin, p);
    }
  }

  /** Properties and reset values do not change either. */
  lemma VersionRenamed(m: Machine, n: Machine, mapping: seq<Value>, origin: seq<Var>, version: Version)
    requires Renamed(m, n, mapping, origin)
    ensures VersionAllows(n, version) <==> VersionAllows(m, version)
  {
    forall i | 0 <= i < |m.variables| && m.variables[i].LatchDriver?
      ensures PlaceOf(mapping, i) < |n.variables| && n.variables[PlaceOf(mapping, i)].LatchDriver?
      ensures n.variables[PlaceOf(mapping, i)].latch.reset == m.variables[i].latch.reset
    {
      assert Moved(m.variables, n.variables, mapping, i);
    }
    forall p | 0 <= p < |n.variables| && n.variables[p].LatchDriver?
      ensures SourceOf(origin, p) < |m.variables| && m.variables[SourceOf(origin, p)].LatchDriver?
      ensures PlaceOf(mapping, SourceOf(origin, p)) == p
    {
      assert Moved(m.variables, n.variables, mapping, origin[p].index);
    }
  }

  /** Flipping signs moves nothing. */
  lemma LayoutFlipped(m: Machine, n: Machine, flipped: seq<bool>, inputs: nat, latches: nat)
    requires Renamed(m, n, FlipMapping(flipped), FlipOrigin(flipped)) && Layout(m.variables, inputs, latches)
    ensures Layout(n.variables, inputs, latches)
  {
    forall i | 0 <= i < |n.variables|
      ensures n.variables[i].InputDriver? == m.variables[i].InputDriver?
      ensures n.variables[i].LatchDriver? == m.variables[i].LatchDriver?
      ensures n.variables[i].GateDriver? == m.variables[i].GateDriver?
    {
      assert Moved(m.variables, n.variables, FlipMapping(flipped), i);
    }
  }

  // ----- there and back -----

  /** A lone output of a machine without asserts and assumes comes back as an
      inverted assertion too. */
  function Implied(m: Machine, o: Observation): Observation {
    if m.asserts == [] && m.assumes == [] && |o.outputs| == 1 then o.(asserts := [!o.outputs[0]]) else o
  }

  ghost predicate ReadsAs(m: Machine, trace: Trace, n: Machine, trace': Trace) {
    forall t: nat :: Observe(n, trace'(t)) == Implied(m, Observe(m, trace(t)))
  }

  function VersionRead(m: Machine): Version {
    if m.asserts == [] && m.assumes == [] then V1_0 else V1_9
  }

  function ReadBack(m: Machine): Machine {
    WithOutputAssertion(AndForm(m), VersionRead(m))
  }

  lemma ReadBackRuns(m: Machine, trace: Trace)
    requires NormalSigns(m.variables)
    ensures Run(ReadBack(m), trace) <==> Run(m, trace)
    ensures ReadsAs(m, trace, ReadBack(m), trace)
  {
    var form, back := AndForm(m), ReadBack(m);
    AndFormKeepsRuns(m, trace);
    assert Run(back, trace) <==> Run(form, trace) by {
      assert back.variables == form.variables;
      if Run(back, trace) {
        assert forall t: nat :: Cycle(back.variables, trace, t);
      }
      if Run(form, trace) {
        assert forall t: nat :: Cycle(form.variables, trace, t);
      }
    }
    forall t: nat
      ensures Observe(back, trace(t)) == Implied(m, Observe(m, trace(t)))
    {
      hide AndForm;
      assert Observe(form, trace(t)) == Observe(m, trace(t));
      ImpliedObservation(form, trace(t), VersionRead(m));
      assert form.asserts == m.asserts && form.assumes == m.assumes by {
        AndFormProperties(m);
      }
    }
  }

  lemma AndFormProperties(m: Machine)
    ensures AndForm(m).asserts == m.asserts && AndForm(m).assumes == m.assumes
  {
  }

  lemma ImpliedObservation(m: Machine, s: Assignment, version: Version)
    requires version == VersionRead(m)
    ensures Observe(WithOutputAssertion(m, version), s) == Implied(m, Observe(m, s))
  {
    if version == V1_0 && |m.outputs| == 1 {
      NegateHolds(s, m.outputs[0]);
      assert BitsOf(s, [m.outputs[0].Negate()]) == [!Holds(s, m.outputs[0])];
    }
  }

  /** Runs correspond in both directions, with the same observations in every cycle
      up to the implied assertion. */
  ghost predicate SameRuns(m: Machine, n: Machine, mapping: seq<Value>, origin: seq<Var>) {
    && (forall trace :: Run(m, trace) ==>
          Run(n, PushTrace(origin, trace)) && ReadsAs(m, trace, n, PushTrace(origin, trace)))
    && (forall trace :: Run(n, trace) ==>
          Run(m, PullTrace(mapping, trace)) && ReadsAs(m, PullTrace(mapping, trace), n, trace))
  }

  lemma RenamedLists(m: Machine, n: Machine, mapping: seq<Value>, origin: seq<Var>)
    requires Renamed(m, n, mapping, origin)
    ensures |m.asserts| == |n.asserts| && |m.assumes| == |n.assumes|
  {
  }

  lemma ReadsAsThrough(m: Machine, trace: Trace, n: Machine, trace': Trace, back: Machine)
    requires |m.asserts| == |n.asserts| && |m.assumes| == |n.assumes|
    requires SameObservations(m, trace, n, trace') && ReadsAs(n, trace', back, trace')
    ensures ReadsAs(m, trace, back, trace')
  {
    hide Observe;
    forall t: nat
      ensures Observe(back, trace'(t)) == Implied(m, Observe(m, trace(t)))
    {
      assert Observe(m, trace(t)) == Observe(n, trace'(t));
    }
  }

  lemma Mirrored(m: Machine, trace: Trace, n: Machine, trace': Trace)
    requires SameObservations(m, trace, n, trace')
    ensures SameObservations(n, trace', m, trace)
  {
    hide Observe;
  }

  /** The machine read back behaves as the machine before normalisation. */
  lemma ExchangeKeepsRuns(m: Machine, n: Machine, mapping: seq<Value>, origin: seq<Var>)
    requires Renamed(m, n, mapping, origin) && WellDriven(m) && NormalSigns(n.variables)
    ensures SameRuns(m, ReadBack(n), mapping, origin)
  {
    RenamingKeepsRuns(m, n, mapping, origin);
    RenamedLists(m, n, mapping, origin);
    hide ReadsAs;
    hide SameObservations;
    hide Renamed;
    hide WellDriven;
    hide NormalSigns;
    hide ReadBack;
    hide Run;
    hide PushTrace;
    hide PullTrace;
    forall trace | Run(m, trace)
      ensures Run(ReadBack(n), PushTrace(origin, trace)) && ReadsAs(m, trace, ReadBack(n), PushTrace(origin, trace))
    {
      ReadBackRuns(n, PushTrace(origin, trace));
      ReadsAsThrough(m, trace, n, PushTrace(origin, trace), ReadBack(n));
    }
    forall trace | Run(ReadBack(n), trace)
      ensures Run(m, PullTrace(mapping, trace)) && ReadsAs(m, PullTrace(mapping, trace), ReadBack(n), trace)
    {
      ReadBackRuns(n, trace);
      Mirrored(n, trace, m, PullTrace(mapping, trace));
      ReadsAsThrough(m, PullTrace(mapping, trace), n, trace, ReadBack(n));
    }
  }

  /** Normalises a machine in place, writes it and reads the file. The exchange
      fails exactly when the machine has nothing but gates, its gates are cyclic, the
      version does not allow its properties or reset values, or a gate clashes;
      otherwise the machine read back has the runs of the original. */
  method NormalizeWriteRead(fsm: FSM, version: Version)
    returns (r: Option<FSM>, ghost mapping: seq<Value>, ghost origin: seq<Var>)
    requires WellDriven(fsm.Contents())
    modifies fsm
    ensures r.Some? <==>
      && !GatesOnly(old(fsm.variables)) && !Cyclic(old(fsm.variables))
      && VersionAllows(old(fsm.Contents()), version) && NoClash(old(fsm.variables))
    ensures r.Some? ==>
      && fresh(r.value) && Verified(r.value.Contents())
      && SameRuns(old(fsm.Contents()), r.value.Contents(), mapping, origin)
  {
    hide Layout;
    hide Renamed;
    hide WellDriven;
    hide InRange;
    hide Verified;
    hide Ordered;
    hide NormalSigns;
    hide NoClash;
    hide VersionAllows;
    hide GatesOnly;
    hide Cyclic;
    hide SameRuns;
    hide Exchangeable;
    hide Writable;
    hide FileBytes;
    hide ReadFile;
    hide ReadBack;
    hide AllEncodable;
    hide GatesIn;
    hide FirstGateIndex;
    hide FlipMapping;
    hide FlipOrigin;
    hide Compose;
    hide ComposeOrigin;
    hide NeedsFlip;
    ghost var before := fsm.Contents();
    var outcome, inputs, latches;
    r := None;
    outcome, inputs, latches, mapping, origin := NormalizeOrdering(fsm);
    if outcome != Reordered {
      return;
    }
    ghost var ordered := fsm.Contents();
    NoClashRenamed(before, ordered, mapping, origin);
    VersionRenamed(before, ordered, mapping, origin, version);
    VerifiedIsWellDriven(ordered);
    ghost var flipped := NormalizeOutputs(fsm);
    ghost var normal := fsm.Contents();
    NoClashRenamed(ordered, normal, FlipMapping(flipped), FlipOrigin(flipped));
    VersionRenamed(ordered, normal, FlipMapping(flipped), FlipOrigin(flipped), version);
    LayoutFlipped(ordered, normal, flipped, inputs, latches);
    RenamedTwice(before, ordered, normal, mapping, FlipMapping(flipped), origin, FlipOrigin(flipped));
    mapping, origin := Compose(mapping, FlipMapping(flipped)), ComposeOrigin(origin, FlipOrigin(flipped));
    ExchangeKeepsRuns(before, normal, mapping, origin);
    VerifiedIsOrdered(normal);
    NormalisedIsWritable(normal, inputs, latches, version);
    var names := Names(Unnamed(inputs), Unnamed(latches), Unnamed(|fsm.outputs|), Unnamed(|fsm.asserts|),
      Unnamed(|fsm.assumes|));
    var bytes := WriteAigerBinary(fsm.Contents(), names, version);
    if bytes == None {
      return;
    }
    NormalisedIsExchangeable(normal, inputs, latches, version);
    UnnamedFit(normal, names, inputs, latches);
    FileReadsBack(normal, names, inputs, latches, version);
    var read := ReadAigerBinary(bytes.value);
    r := Some(read.value.0);
    ReadBackVerified(normal);
  }

  lemma ReadBackVerified(m: Machine)
    requires Verified(m)
    ensures Verified(ReadBack(m))
  {
    AndFormVerified(m, VersionRead(m));
  }

  lemma VerifiedIsWellDriven(m: Machine)
    requires Verified(m)
    ensures WellDriven(m) && InRange(m)
  {
    WellDrivenInRange(m);
  }

  lemma NormalisedIsExchangeable(m: Machine, inputs: nat, latches: nat, version: Version)
    requires Layout(m.variables, inputs, latches) && NormalSigns(m.variables) && Verified(m) && NoClash(m.variables)
    requires VersionAllows(m, version)
    ensures Exchangeable(m, inputs, latches, version)
  {
    hide Layout;
    hide Verified;
    hide VersionAllows;
  }

  lemma UnnamedFit(m: Machine, names: Names, inputs: nat, latches: nat)
    requires Layout(m.variables, inputs, latches)
    requires names == Names(Unnamed(inputs), Unnamed(latches), Unnamed(|m.outputs|), Unnamed(|m.asserts|),
               Unnamed(|m.assumes|))
    ensures NamesFit(names, m) && AllReadable(names)
  {
    LayoutFacts(m, inputs, latches);
  }

  lemma FileReadsBack(m: Machine, names: Names, inputs: nat, latches: nat, version: Version)
    requires Exchangeable(m, inputs, latches, version) && NamesFit(names, m) && AllReadable(names)
    ensures AllEncodable(GatesIn(m.variables), FirstGateIndex(m.variables))
    ensures ReadFile(FileBytes(m, names)) ==
      Some((ReadBack(m), WithOutputName(names, m, VersionRead(m)), VersionRead(m)))
  {
    hide NamesFit;
    hide AllReadable;
    hide WithOutputName;
    hide ReadFile;
    hide FileBytes;
    hide AndForm;
    hide WithOutputAssertion;
    hide Exchangeable;
    hide Writable;
    hide AllEncodable;
    hide GatesIn;
    hide FirstGateIndex;
    FileRoundTrip(m, names, inputs, latches, version);
  }
}
