/** Writing and reading machines in binary AIGER. */
module AigerBinary {
  import opened Words
  import opened Fsm
  import opened Normalize
  import opened AigerSymbols
  import opened AigerText

  // ----- literals -----

  /** Twice the number of the variable, plus one if negated; 0 and 1 are constants. */
  function FromValue(value: Value): nat {
    match value
    case Constant(false) => 0
    case Constant(true) => 1
    case Variable(v) => 2 * (v.index + 1) + if v.sign then 0 else 1
  }

  function IntoValue(literal: nat): Value {
    if literal == 0 then Constant(false)
    else if literal == 1 then Constant(true)
    else Variable(Var(literal % 2 == 0, literal / 2 - 1))
  }

  lemma LiteralsRoundTrip(value: Value, literal: nat)
    ensures IntoValue(FromValue(value)) == value
    ensures FromValue(IntoValue(literal)) == literal
  {
  }

  // ----- the file -----

  datatype Version = V1_0 | V1_9

  datatype Header = Header(
    version: Version, variables: nat, inputs: nat, latches: nat, outputs: nat, ands: nat, asserts: nat, assumes: nat)

  const AIG: seq<Byte> := [97, 105, 103]

  function HeaderWords(h: Header): seq<seq<Byte>> {
    [AIG, Decimal(h.variables), Decimal(h.inputs), Decimal(h.latches), Decimal(h.outputs), Decimal(h.ands)] +
    (if h.asserts == 0 && h.assumes == 0 then []
     else if h.assumes == 0 then [Decimal(h.asserts)]
     else [Decimal(h.asserts), Decimal(h.assumes)])
  }

  /** Number `i` of the line; lines may end early after the sixth word. */
  function HeaderNumber(words: seq<seq<Byte>>, i: nat): Option<nat> {
    if i < |words| then ParseNumber(words[i]) else if i < 6 then None else Some(0)
  }

  /** Justice and fairness counts must be zero. */
  function ReadHeader(words: seq<seq<Byte>>): Option<Header> {
    if |words| < 6 || words[0] != AIG then None
    else
      match (HeaderNumber(words, 1), HeaderNumber(words, 2), HeaderNumber(words, 3), HeaderNumber(words, 4),
             HeaderNumber(words, 5), HeaderNumber(words, 6), HeaderNumber(words, 7))
      case (Some(m), Some(i), Some(l), Some(o), Some(a), Some(b), Some(c)) =>
        if HeaderNumber(words, 8) == Some(0) && HeaderNumber(words, 9) == Some(0) && m == i + l + a
        then Some(Header(if |words| > 6 then V1_9 else V1_0, m, i, l, o, a, b, c))
        else None
      case _ => None
  }

  // ----- latches -----

  function LatchWords(latch: Latch, index: nat): seq<seq<Byte>> {
    [Decimal(FromValue(latch.input))] +
    (match latch.reset
     case Some(false) => []
     case Some(true) => [Decimal(1)]
     case None => [Decimal(FromValue(Variable(Var(true, index))))])
  }

  function ReadReset(literal: nat, index: nat): Option<Option<bool>> {
    if literal == 0 then Some(Some(false))
    else if literal == 1 then Some(Some(true))
    else if IntoValue(literal) == Variable(Var(true, index)) then Some(None)
    else None
  }

  function ReadLatch(words: seq<seq<Byte>>, index: nat): Option<Latch> {
    if |words| != 1 && |words| != 2 then None
    else
      match ParseNumber(words[0])
      case None => None
      case Some(input) =>
        if |words| == 1 then Some(Latch(true, IntoValue(input), Some(false)))
        else
          match ParseNumber(words[1])
          case None => None
          case Some(literal) =>
            match ReadReset(literal, index)
            case None => None
            case Some(reset) => Some(Latch(true, IntoValue(input), reset))
  }

  lemma LatchRoundTrip(latch: Latch, index: nat)
    requires latch.sign
    ensures ReadLatch(LatchWords(latch, index), index) == Some(latch)
  {
    LiteralsRoundTrip(latch.input, 0);
    ParseDecimal(FromValue(latch.input));
    ParseDecimal(1);
    var output := Variable(Var(true, index));
    LiteralsRoundTrip(output, 0);
    ParseDecimal(FromValue(output));
  }

  // ----- gates -----

  /** The larger written literal, and the smaller. Or gates are written as the And
      gates of De Morgan's law. */
  function FirstLiteral(gate: Gate): nat {
    FromValue(gate.b.Xor(!gate.sign))
  }

  function SecondLiteral(gate: Gate): nat {
    FromValue(gate.a.Xor(!gate.sign))
  }

  /** The differences the writer stores are not negative. */
  predicate Encodable(gate: Gate, index: nat) {
    2 * (index + 1) >= FirstLiteral(gate) >= SecondLiteral(gate)
  }

  /** An And of a variable and its negation, or an Or of both constants. */
  predicate Clashes(gate: Gate) {
    gate.a == gate.b.Negate() && gate.a.Variable? == (gate.gateType == And)
  }

  /** Of the gates that `verify` accepts with normal signs, exactly the clashing ones
      cannot be written: their second literal exceeds the first. */
  lemma EncodableExactly(gate: Gate, index: nat)
    requires gate.sign == (gate.gateType == And) && gate.InputsSorted()
    requires gate.a.Known(index) && gate.b.Known(index)
    ensures Encodable(gate, index) <==> !Clashes(gate)
  {
  }

  function GateBytes(gate: Gate, index: nat): seq<Byte>
    requires Encodable(gate, index)
  {
    Compressed(2 * (index + 1) - FirstLiteral(gate)) + Compressed(FirstLiteral(gate) - SecondLiteral(gate))
  }

  /** The And gate a reader makes of two literals. */
  function AndGate(first: nat, second: nat): Gate {
    Gate(true, And, IntoValue(first), IntoValue(second)).SortInputs()
  }

  function ReadGate(bytes: seq<Byte>, index: nat): Option<(Gate, seq<Byte>)> {
    match ReadCompressed(bytes)
    case None => None
    case Some((delta0, rest)) =>
      if delta0 > 2 * (index + 1) then None
      else
        match ReadCompressed(rest)
        case None => None
        case Some((delta1, rest')) =>
          var first := 2 * (index + 1) - delta0;
          if delta1 > first then None else Some((AndGate(first, first - delta1), rest'))
  }

  /** The gate as it is read back. */
  function AsAnd(gate: Gate): Gate {
    Gate(true, And, gate.b.Xor(!gate.sign), gate.a.Xor(!gate.sign)).SortInputs()
  }

  lemma GateRoundTrip(gate: Gate, index: nat, rest: seq<Byte>)
    requires Encodable(gate, index)
    ensures ReadGate(GateBytes(gate, index) + rest, index) == Some((AsAnd(gate), rest))
  {
    var d0, d1 := 2 * (index + 1) - FirstLiteral(gate), FirstLiteral(gate) - SecondLiteral(gate);
    assert GateBytes(gate, index) + rest == Compressed(d0) + (Compressed(d1) + rest);
    ReadWrittenCompressed(d0, Compressed(d1) + rest);
    ReadWrittenCompressed(d1, rest);
    LiteralsRoundTrip(gate.b.Xor(!gate.sign), 0);
    LiteralsRoundTrip(gate.a.Xor(!gate.sign), 0);
  }

  lemma AsAndSettled(s: Assignment, index: nat, gate: Gate)
    requires gate.sign == (gate.gateType == And)
    ensures GateSettled(s, index, AsAnd(gate)) == GateSettled(s, index, gate)
  {
  }

  // ----- the sections -----

  function ValueLines(values: seq<Value>): seq<Byte> {
    if values == [] then [] else WriteWords([Decimal(FromValue(values[0]))]) + ValueLines(values[1..])
  }

  function ReadValue(words: seq<seq<Byte>>): Option<Value> {
    if |words| != 1 then None
    else
      match ParseNumber(words[0])
      case None => None
      case Some(literal) => Some(IntoValue(literal))
  }

  function ReadValues(bytes: seq<Byte>, count: nat): Option<(seq<Value>, seq<Byte>)>
    decreases count
  {
    if count == 0 then Some(([], bytes))
    else
      var (line, rest) := ReadLine(bytes);
      match ReadValue(SplitLine(line))
      case None => None
      case Some(value) =>
        match ReadValues(rest, count - 1)
        case None => None
        case Some((values, rest')) => Some(([value] + values, rest'))
  }

  lemma {:induction false} ValuesRoundTrip(values: seq<Value>, rest: seq<Byte>)
    ensures ReadValues(ValueLines(values) + rest, |values|) == Some((values, rest))
  {
    if values == [] {
      assert ValueLines(values) + rest == rest;
    } else {
      var word := Decimal(FromValue(values[0]));
      var tail := ValueLines(values[1..]) + rest;
      assert ValueLines(values) + rest == WriteWords([word]) + tail;
      DecimalIsWord(FromValue(values[0]));
      ReadWrittenWords([word], tail);
      ParseDecimal(FromValue(values[0]));
      LiteralsRoundTrip(values[0], 0);
      ValuesRoundTrip(values[1..], rest);
      assert [values[0]] + values[1..] == values;
    }
  }

  /** Latch lines from variable `index` upwards. */
  function LatchLines(latches: seq<Latch>, index: nat): seq<Byte> {
    if latches == [] then [] else WriteWords(LatchWords(latches[0], index)) + LatchLines(latches[1..], index + 1)
  }

  function ReadLatches(bytes: seq<Byte>, index: nat, count: nat): Option<(seq<Latch>, seq<Byte>)>
    decreases count
  {
    if count == 0 then Some(([], bytes))
    else
      var (line, rest) := ReadLine(bytes);
      match ReadLatch(SplitLine(line), index)
      case None => None
      case Some(latch) =>
        match ReadLatches(rest, index + 1, count - 1)
        case None => None
        case Some((latches, rest')) => Some(([latch] + latches, rest'))
  }

  lemma {:induction false} LatchesRoundTrip(latches: seq<Latch>, index: nat, rest: seq<Byte>)
    requires forall i :: 0 <= i < |latches| ==> latches[i].sign
    ensures ReadLatches(LatchLines(latches, index) + rest, index, |latches|) == Some((latches, rest))
  {
    if latches == [] {
      assert LatchLines(latches, index) + rest == rest;
    } else {
      var words := LatchWords(latches[0], index);
      var tail := LatchLines(latches[1..], index + 1) + rest;
      assert LatchLines(latches, index) + rest == WriteWords(words) + tail;
      LatchWordsAreWords(latches[0], index);
      ReadWrittenWords(words, tail);
      LatchRoundTrip(latches[0], index);
      LatchesRoundTrip(latches[1..], index + 1, rest);
      assert [latches[0]] + latches[1..] == latches;
    }
  }

  lemma LatchWordsAreWords(latch: Latch, index: nat)
    ensures forall i :: 0 <= i < |LatchWords(latch, index)| ==>
      IsWord(LatchWords(latch, index)[i]) && IsLine(LatchWords(latch, index)[i])
  {
    DecimalIsWord(FromValue(latch.input));
    DecimalIsWord(1);
    DecimalIsWord(FromValue(Variable(Var(true, index))));
  }

  ghost predicate AllEncodable(gates: seq<Gate>, index: nat) {
    forall i :: 0 <= i < |gates| ==> Encodable(gates[i], index + i)
  }

  function GateLines(gates: seq<Gate>, index: nat): seq<Byte>
    requires AllEncodable(gates, index)
  {
    if gates == [] then []
    else
      assert forall i :: 0 <= i < |gates[1..]| ==> gates[1..][i] == gates[i + 1];
      GateBytes(gates[0], index) + GateLines(gates[1..], index + 1)
  }

  function ReadGates(bytes: seq<Byte>, index: nat, count: nat): Option<(seq<Gate>, seq<Byte>)>
    decreases count
  {
    if count == 0 then Some(([], bytes))
    else
      match ReadGate(bytes, index)
      case None => None
      case Some((gate, rest)) =>
        match ReadGates(rest, index + 1, count - 1)
        case None => None
        case Some((gates, rest')) => Some(([gate] + gates, rest'))
  }

  function AllAsAnd(gates: seq<Gate>): (r: seq<Gate>)
    ensures |r| == |gates|
  {
    seq(|gates|, i requires 0 <= i < |gates| => AsAnd(gates[i]))
  }

  lemma {:induction false} GatesRoundTrip(gates: seq<Gate>, index: nat, rest: seq<Byte>)
    requires AllEncodable(gates, index)
    ensures ReadGates(GateLines(gates, index) + rest, index, |gates|) == Some((AllAsAnd(gates), rest))
  {
    hide GateBytes;
    hide ReadGate;
    hide AsAnd;
    hide Encodable;
    if gates == [] {
      assert GateLines(gates, index) + rest == rest;
    } else {
      var tail := GateLines(gates[1..], index + 1) + rest;
      assert GateLines(gates, index) + rest == GateBytes(gates[0], index) + tail;
      assert Encodable(gates[0], index + 0);
      GateRoundTrip(gates[0], index, tail);
      GatesRoundTrip(gates[1..], index + 1, rest);
      assert [AsAnd(gates[0])] + AllAsAnd(gates[1..]) == AllAsAnd(gates);
    }
  }

  // ----- which machines can be written -----

  function CountKind(variables: seq<Driver>, kind: Kind): (n: nat)
    ensures n <= |variables|
  {
    if variables == [] then 0
    else CountKind(variables[..|variables| - 1], kind) + if HasKind(variables[|variables| - 1], kind) then 1 else 0
  }

  /** Variable `i` is where the writer expects it, with the sign it expects. */
  predicate InPlace(variables: seq<Driver>, i: nat)
    requires i < |variables|
  {
    var inputs, latches := CountKind(variables, InputKind), CountKind(variables, LatchKind);
    match variables[i]
    case InputDriver => i == CountKind(variables[..i], InputKind)
    case LatchDriver(latch) => latch.sign && i == inputs + CountKind(variables[..i], LatchKind)
    case GateDriver(gate) =>
      && gate.sign == (gate.gateType == And)
      && i == inputs + latches + CountKind(variables[..i], GateKind)
      && gate.InputsSorted() && Encodable(gate, i)
    case Undriven => true
  }

  ghost predicate VersionAllows(m: Machine, version: Version) {
    && m.covers == []
    && (version == V1_0 ==>
          && m.asserts == [] && m.assumes == []
          && forall i :: 0 <= i < |m.variables| && m.variables[i].LatchDriver? ==>
               m.variables[i].latch.reset == Some(false))
  }

  /** Everything the writer asserts. */
  ghost predicate Writable(m: Machine, version: Version) {
    VersionAllows(m, version) && forall i :: 0 <= i < |m.variables| ==> InPlace(m.variables, i)
  }

  lemma {:induction false} CountPrefix(variables: seq<Driver>, kind: Kind, i: nat)
    requires i < |variables|
    ensures CountKind(variables[..i + 1], kind) ==
      CountKind(variables[..i], kind) + if HasKind(variables[i], kind) then 1 else 0
  {
    assert variables[..i + 1][..i] == variables[..i];
  }

  lemma {:induction false} CountLayout(variables: seq<Driver>, inputs: nat, latches: nat, i: nat)
    requires Layout(variables, inputs, latches) && i <= |variables|
    ensures CountKind(variables[..i], InputKind) == if i <= inputs then i else inputs
    ensures CountKind(variables[..i], LatchKind) ==
      if i <= inputs then 0 else if i <= inputs + latches then i - inputs else latches
    ensures CountKind(variables[..i], GateKind) == if i <= inputs + latches then 0 else i - inputs - latches
    decreases i
  {
    if i > 0 {
      CountLayout(variables, inputs, latches, i - 1);
      CountPrefix(variables, InputKind, i - 1);
      CountPrefix(variables, LatchKind, i - 1);
      CountPrefix(variables, GateKind, i - 1);
    }
  }

  /** A normalised machine without clashing gates passes every check. */
  lemma NormalisedIsWritable(m: Machine, inputs: nat, latches: nat, version: Version)
    requires Layout(m.variables, inputs, latches) && NormalSigns(m.variables) && Ordered(m.variables)
    ensures Writable(m, version) <==> VersionAllows(m, version) && NoClash(m.variables)
  {
    forall i | 0 <= i < |m.variables|
      ensures InPlace(m.variables, i) <==> !(m.variables[i].GateDriver? && Clashes(m.variables[i].gate))
    {
      CountLayout(m.variables, inputs, latches, i);
      CountLayout(m.variables, inputs, latches, |m.variables|);
      assert m.variables[..|m.variables|] == m.variables;
      if m.variables[i].GateDriver? {
        EncodableExactly(m.variables[i].gate, i);
      }
    }
  }

  ghost predicate NoClash(variables: seq<Driver>) {
    forall i :: 0 <= i < |variables| && variables[i].GateDriver? ==> !Clashes(variables[i].gate)
  }

  // ----- the whole file -----

  function LatchesFrom(variables: seq<Driver>, start: nat, count: nat): (r: seq<Latch>)
    requires start + count <= |variables|
    requires forall i :: start <= i < start + count ==> variables[i].LatchDriver?
    ensures |r| == count
  {
    seq(count, k requires 0 <= k < count => variables[start + k].latch)
  }

  function GatesFrom(variables: seq<Driver>, start: nat, count: nat): (r: seq<Gate>)
    requires start + count <= |variables|
    requires forall i :: start <= i < start + count ==> variables[i].GateDriver?
    ensures |r| == count
  {
    seq(count, k requires 0 <= k < count => variables[start + k].gate)
  }

  function LatchesIn(variables: seq<Driver>): (r: seq<Latch>)
    ensures |r| == CountKind(variables, LatchKind)
  {
    if variables == [] then []
    else
      var last := variables[|variables| - 1];
      LatchesIn(variables[..|variables| - 1]) + if last.LatchDriver? then [last.latch] else []
  }

  function GatesIn(variables: seq<Driver>): (r: seq<Gate>)
    ensures |r| == CountKind(variables, GateKind)
  {
    if variables == [] then []
    else
      var last := variables[|variables| - 1];
      GatesIn(variables[..|variables| - 1]) + if last.GateDriver? then [last.gate] else []
  }

  lemma LatchesFromSnoc(variables: seq<Driver>, start: nat, count: nat)
    requires start + count < |variables|
    requires forall i :: start <= i <= start + count ==> variables[i].LatchDriver?
    ensures LatchesFrom(variables, start, count + 1) ==
      LatchesFrom(variables, start, count) + [variables[start + count].latch]
  {
  }

  lemma GatesFromSnoc(variables: seq<Driver>, start: nat, count: nat)
    requires start + count < |variables|
    requires forall i :: start <= i <= start + count ==> variables[i].GateDriver?
    ensures GatesFrom(variables, start, count + 1) ==
      GatesFrom(variables, start, count) + [variables[start + count].gate]
  {
  }

  lemma {:induction false} LatchesOfLayout(variables: seq<Driver>, inputs: nat, latches: nat, i: nat)
    requires Layout(variables, inputs, latches) && i <= |variables|
    ensures LatchesIn(variables[..i]) ==
      if i <= inputs then []
      else LatchesFrom(variables, inputs, if i <= inputs + latches then i - inputs else latches)
    decreases i
  {
    hide LatchesFrom;
    hide LatchesIn;
    hide CountKind;
    if i == 0 {
      EmptyLists(variables, 0, 0);
    } else {
      LatchesOfLayout(variables, inputs, latches, i - 1);
      PreviousLists(variables, inputs, latches, i);
      if inputs < i <= inputs + latches {
        LatchesFromSnoc(variables, inputs, i - 1 - inputs);
      }
    }
  }

  lemma {:induction false} GatesOfLayout(variables: seq<Driver>, inputs: nat, latches: nat, i: nat)
    requires Layout(variables, inputs, latches) && i <= |variables|
    ensures GatesIn(variables[..i]) ==
      if i <= inputs + latches then [] else GatesFrom(variables, inputs + latches, i - inputs - latches)
    decreases i
  {
    hide GatesFrom;
    hide GatesIn;
    hide CountKind;
    if i == 0 {
      EmptyLists(variables, 0, 0);
    } else {
      GatesOfLayout(variables, inputs, latches, i - 1);
      PreviousLists(variables, inputs, latches, i);
      if inputs + latches < i {
        GatesFromSnoc(variables, inputs + latches, i - 1 - inputs - latches);
      }
    }
  }

  lemma PreviousLists(variables: seq<Driver>, inputs: nat, latches: nat, i: nat)
    requires Layout(variables, inputs, latches) && 0 < i <= |variables|
    ensures LatchesIn(variables[..i]) == LatchesIn(variables[..i - 1]) +
      if inputs < i <= inputs + latches then [variables[i - 1].latch] else []
    ensures GatesIn(variables[..i]) == GatesIn(variables[..i - 1]) +
      if inputs + latches < i then [variables[i - 1].gate] else []
  {
    hide CountKind;
    KindsOfLayout(variables, inputs, latches, i - 1);
    assert variables[..i][..i - 1] == variables[..i - 1];
  }

  lemma KindsOfLayout(variables: seq<Driver>, inputs: nat, latches: nat, i: nat)
    requires Layout(variables, inputs, latches) && i < |variables|
    ensures variables[i].LatchDriver? <==> inputs <= i < inputs + latches
    ensures variables[i].GateDriver? <==> inputs + latches <= i
  {
  }

  function NegateAll(values: seq<Value>): (r: seq<Value>)
    ensures |r| == |values|
  {
    seq(|values|, i requires 0 <= i < |values| => values[i].Negate())
  }

  /** The shape of a machine that can be written and read back. */
  ghost predicate Exchangeable(m: Machine, inputs: nat, latches: nat, version: Version) {
    && Layout(m.variables, inputs, latches) && NormalSigns(m.variables) && Verified(m) && NoClash(m.variables)
    && VersionAllows(m, version)
  }

  function FileHeader(m: Machine): Header {
    Header(if m.asserts == [] && m.assumes == [] then V1_0 else V1_9, |m.variables|,
      CountKind(m.variables, InputKind), CountKind(m.variables, LatchKind), |m.outputs|,
      CountKind(m.variables, GateKind), |m.asserts|, |m.assumes|)
  }

  function FirstGateIndex(variables: seq<Driver>): nat {
    CountKind(variables, InputKind) + CountKind(variables, LatchKind)
  }

  ghost function FileBytes(m: Machine, names: Names): seq<Byte>
    requires AllEncodable(GatesIn(m.variables), FirstGateIndex(m.variables))
  {
    WriteWords(HeaderWords(FileHeader(m))) + FileSections(m, names)
  }

  ghost function FileSections(m: Machine, names: Names): seq<Byte>
    requires AllEncodable(GatesIn(m.variables), FirstGateIndex(m.variables))
  {
    LatchLines(LatchesIn(m.variables), CountKind(m.variables, InputKind)) +
    (ValueLines(m.outputs) + (ValueLines(NegateAll(m.asserts)) + (ValueLines(m.assumes) +
    (GateLines(GatesIn(m.variables), FirstGateIndex(m.variables)) + SymbolBytes(names)))))
  }

  /** One name, or none, for everything that can have one. */
  ghost predicate NamesFit(names: Names, m: Machine) {
    && |names.inputs| == CountKind(m.variables, InputKind) && |names.latches| == CountKind(m.variables, LatchKind)
    && |names.outputs| == |m.outputs| && |names.asserts| == |m.asserts| && |names.assumes| == |m.assumes|
  }

  lemma {:induction false} WritableGates(variables: seq<Driver>, i: nat)
    requires i <= |variables| && forall k :: 0 <= k < i ==> InPlace(variables, k)
    ensures AllEncodable(GatesIn(variables[..i]), FirstGateIndex(variables))
    decreases i
  {
    if i > 0 {
      WritableGates(variables, i - 1);
      assert variables[..i][..i - 1] == variables[..i - 1];
      assert InPlace(variables, i - 1);
    }
  }

  lemma WritableEncodable(m: Machine, version: Version)
    requires Writable(m, version)
    ensures AllEncodable(GatesIn(m.variables), FirstGateIndex(m.variables))
  {
    WritableGates(m.variables, |m.variables|);
    assert m.variables[..|m.variables|] == m.variables;
  }

  function Drivers(inputs: nat, latches: seq<Latch>, gates: seq<Gate>): (r: seq<Driver>)
    ensures |r| == inputs + |latches| + |gates|
  {
    seq(inputs, _ => InputDriver) +
    seq(|latches|, k requires 0 <= k < |latches| => LatchDriver(latches[k])) +
    seq(|gates|, k requires 0 <= k < |gates| => GateDriver(gates[k]))
  }

  /** A lone output of a version 1.0 file without asserts is an inverted assertion. */
  function WithOutputAssertion(m: Machine, version: Version): Machine {
    if version == V1_0 && |m.outputs| == 1 && m.asserts == [] then m.(asserts := [m.outputs[0].Negate()]) else m
  }

  /** ... named like the output. */
  function WithOutputName(names: Names, m: Machine, version: Version): Names {
    if version == V1_0 && |m.outputs| == 1 && m.asserts == [] then names.(asserts := names.outputs) else names
  }

  /** The sections that follow the header. */
  datatype Sections = Sections(
    latches: seq<Latch>, outputs: seq<Value>, bad: seq<Value>, assumes: seq<Value>, gates: seq<Gate>, names: Names)

  function BlankNames(h: Header): Names {
    Names(Unnamed(h.inputs), Unnamed(h.latches), Unnamed(h.outputs), Unnamed(h.asserts), Unnamed(h.assumes))
  }

  function ReadSections(bytes: seq<Byte>, h: Header): Option<Sections> {
    match ReadLatches(bytes, h.inputs, h.latches)
    case None => None
    case Some((latches, rest1)) =>
      match ReadValues(rest1, h.outputs)
      case None => None
      case Some((outputs, rest2)) =>
        match ReadValues(rest2, h.asserts)
        case None => None
        case Some((bad, rest3)) =>
          match ReadValues(rest3, h.assumes)
          case None => None
          case Some((assumes, rest4)) =>
            match ReadGates(rest4, h.inputs + h.latches, h.ands)
            case None => None
            case Some((gates, rest5)) =>
              match ReadSymbols(rest5, BlankNames(h))
              case None => None
              case Some(names) => Some(Sections(latches, outputs, bad, assumes, gates, names))
  }

  /** The machine as the file stores it. */
  function Stored(h: Header, sections: Sections): Machine {
    Machine(Drivers(h.inputs, sections.latches, sections.gates), sections.outputs, NegateAll(sections.bad),
      sections.assumes, [])
  }

  function Assemble(h: Header, sections: Sections): (Machine, Names) {
    var m := Stored(h, sections);
    (WithOutputAssertion(m, h.version), WithOutputName(sections.names, m, h.version))
  }

  ghost function ReadFile(bytes: seq<Byte>): Option<(Machine, Names, Version)> {
    var (line, rest) := ReadLine(bytes);
    match ReadHeader(SplitLine(line))
    case None => None
    case Some(h) =>
      match ReadSections(rest, h)
      case None => None
      case Some(sections) =>
        var (m, names) := Assemble(h, sections);
        if Verified(m) then Some((m, names, h.version)) else None
  }

  // ----- the round trip -----

  lemma HeaderRoundTrip(h: Header)
    requires h.variables == h.inputs + h.latches + h.ands
    requires h.version == if h.asserts == 0 && h.assumes == 0 then V1_0 else V1_9
    ensures ReadHeader(HeaderWords(h)) == Some(h)
    ensures forall i :: 0 <= i < |HeaderWords(h)| ==> IsWord(HeaderWords(h)[i]) && IsLine(HeaderWords(h)[i])
  {
    ParseDecimal(h.variables);
    ParseDecimal(h.inputs);
    ParseDecimal(h.latches);
    ParseDecimal(h.outputs);
    ParseDecimal(h.ands);
    ParseDecimal(h.asserts);
    ParseDecimal(h.assumes);
    HeaderWordsAreWords(h);
  }

  lemma HeaderWordsAreWords(h: Header)
    ensures forall i :: 0 <= i < |HeaderWords(h)| ==> IsWord(HeaderWords(h)[i]) && IsLine(HeaderWords(h)[i])
  {
    DecimalIsWord(h.variables);
    DecimalIsWord(h.inputs);
    DecimalIsWord(h.latches);
    DecimalIsWord(h.outputs);
    DecimalIsWord(h.ands);
    DecimalIsWord(h.asserts);
    DecimalIsWord(h.assumes);
  }

  /** The machine with every gate as the And gate the file stores. */
  function AndForm(m: Machine): Machine {
    m.(variables := seq(|m.variables|, i requires 0 <= i < |m.variables| =>
      if m.variables[i].GateDriver? then GateDriver(AsAnd(m.variables[i].gate)) else m.variables[i]))
  }

  lemma LayoutFacts(m: Machine, inputs: nat, latches: nat)
    requires Layout(m.variables, inputs, latches)
    ensures LatchesIn(m.variables) == LatchesFrom(m.variables, inputs, latches)
    ensures GatesIn(m.variables) == GatesFrom(m.variables, inputs + latches, |m.variables| - inputs - latches)
    ensures CountKind(m.variables, InputKind) == inputs && CountKind(m.variables, LatchKind) == latches
    ensures CountKind(m.variables, GateKind) == |m.variables| - inputs - latches
  {
    CountLayout(m.variables, inputs, latches, |m.variables|);
    LatchesOfLayout(m.variables, inputs, latches, |m.variables|);
    GatesOfLayout(m.variables, inputs, latches, |m.variables|);
    assert m.variables[..|m.variables|] == m.variables;
  }

  /** The sections of a machine read back, with what the symbol section reads as. */
  lemma SectionsRoundTrip(m: Machine, names: Names, inputs: nat, latches: nat, version: Version)
    requires Exchangeable(m, inputs, latches, version) && NamesFit(names, m)
    requires AllEncodable(GatesIn(m.variables), FirstGateIndex(m.variables))
    ensures ReadSections(FileSections(m, names), FileHeader(m)) ==
      match ReadSymbols(SymbolBytes(names), Blank(names))
      case None => None
      case Some(read) => Some(SectionsOf(m, read))
  {
    hide ReadLatches;
    hide ReadValues;
    hide ReadGates;
    hide ReadSymbols;
    hide LatchLines;
    hide ValueLines;
    hide GateLines;
    hide SymbolBytes;
    hide CountKind;
    hide LatchesIn;
    hide GatesIn;
    LayoutFacts(m, inputs, latches);
    var start := FirstGateIndex(m.variables);
    var gates, ls := GatesIn(m.variables), LatchesIn(m.variables);
    forall k | 0 <= k < |ls|
      ensures ls[k].sign
    {
      assert m.variables[inputs + k].LatchDriver?;
    }
    var tail5 := SymbolBytes(names);
    var tail4 := GateLines(gates, start) + tail5;
    var tail3 := ValueLines(m.assumes) + tail4;
    var tail2 := ValueLines(NegateAll(m.asserts)) + tail3;
    var tail1 := ValueLines(m.outputs) + tail2;
    GatesRoundTrip(gates, start, tail5);
    ValuesRoundTrip(m.assumes, tail4);
    ValuesRoundTrip(NegateAll(m.asserts), tail3);
    ValuesRoundTrip(m.outputs, tail2);
    LatchesRoundTrip(ls, CountKind(m.variables, InputKind), tail1);
  }

  function SectionsOf(m: Machine, names: Names): Sections {
    Sections(LatchesIn(m.variables), m.outputs, NegateAll(m.asserts), m.assumes, AllAsAnd(GatesIn(m.variables)), names)
  }

  lemma AssembledIsAndForm(m: Machine, names: Names, inputs: nat, latches: nat, version: Version)
    requires Exchangeable(m, inputs, latches, version)
    ensures var version := FileHeader(m).version;
      Assemble(FileHeader(m), SectionsOf(m, names)) ==
        (WithOutputAssertion(AndForm(m), version), WithOutputName(names, m, version))
  {
    hide CountKind;
    hide LatchesIn;
    hide GatesIn;
    hide AsAnd;
    hide Verified;
    hide NoClash;
    hide NormalSigns;
    hide WithOutputAssertion;
    LayoutFacts(m, inputs, latches);
    assert NegateAll(NegateAll(m.asserts)) == m.asserts;
    DriversOfLayout(m, inputs, latches);
    assert AndForm(m) == m.(variables := AndForm(m).variables);
  }

  lemma DriversOfLayout(m: Machine, inputs: nat, latches: nat)
    requires Layout(m.variables, inputs, latches)
    ensures Drivers(inputs, LatchesFrom(m.variables, inputs, latches),
      AllAsAnd(GatesFrom(m.variables, inputs + latches, |m.variables| - inputs - latches))) == AndForm(m).variables
  {
    hide AsAnd;
    var drivers := Drivers(inputs, LatchesFrom(m.variables, inputs, latches),
      AllAsAnd(GatesFrom(m.variables, inputs + latches, |m.variables| - inputs - latches)));
    forall i | 0 <= i < |m.variables|
      ensures drivers[i] == AndForm(m).variables[i]
    {
      KindsOfLayout(m.variables, inputs, latches, i);
    }
  }

  lemma AsAndVerified(variables: seq<Driver>, gate: Gate, i: nat)
    requires Driven(variables, gate.a) && Driven(variables, gate.b) && gate.a.Known(i) && gate.b.Known(i)
    ensures var g := AsAnd(gate);
      Driven(variables, g.a) && Driven(variables, g.b) && g.a.Known(i) && g.b.Known(i) && g.InputsSorted()
  {
    SortKeepsOrder(gate.b.Xor(!gate.sign), gate.a.Xor(!gate.sign));
  }

  lemma AndFormVerified(m: Machine, version: Version)
    requires Verified(m)
    ensures Verified(WithOutputAssertion(AndForm(m), version))
  {
    hide AsAnd;
    var n := AndForm(m);
    assert forall v: Value :: Driven(m.variables, v) ==> Driven(n.variables, v) && Driven(n.variables, v.Negate());
    forall i | 0 <= i < |n.variables| && n.variables[i].GateDriver?
      ensures
        && Driven(n.variables, n.variables[i].gate.a) && Driven(n.variables, n.variables[i].gate.b)
        && n.variables[i].gate.a.Known(i) && n.variables[i].gate.b.Known(i) && n.variables[i].gate.InputsSorted()
    {
      AsAndVerified(m.variables, m.variables[i].gate, i);
    }
    assert m.outputs != [] ==> m.outputs[0] in m.outputs;
  }

  /** Reading what was written gives the machine back with Or gates as Ands, plus the
      assertion that a version 1.0 file implies, and its names, exactly when no name is empty
      or has a newline. The version survives unless the machine has neither asserts nor
      assumes: such a file reads as version 1.0. */
  lemma FileRoundTrip(m: Machine, names: Names, inputs: nat, latches: nat, version: Version)
    requires Exchangeable(m, inputs, latches, version) && NamesFit(names, m)
    ensures Writable(m, version) && AllEncodable(GatesIn(m.variables), FirstGateIndex(m.variables))
    ensures var version := if m.asserts == [] && m.assumes == [] then V1_0 else V1_9;
      ReadFile(FileBytes(m, names)) ==
        Some((WithOutputAssertion(AndForm(m), version), WithOutputName(names, m, version), version)) <==>
      AllReadable(names)
  {
    hide ReadSections;
    hide FileSections;
    hide HeaderWords;
    hide ReadHeader;
    hide Assemble;
    hide AndForm;
    hide WithOutputAssertion;
    hide AllAsAnd;
    hide ReadLine;
    hide SplitLine;
    hide WriteWords;
    hide CountKind;
    hide LatchesIn;
    hide GatesIn;
    hide InPlace;
    hide AllReadable;
    hide ReadSymbols;
    hide SymbolBytes;
    hide Blank;
    hide WithOutputName;
    NormalisedIsWritable(m, inputs, latches, version);
    WritableEncodable(m, version);
    LayoutFacts(m, inputs, latches);
    var h := FileHeader(m);
    HeaderRoundTrip(h);
    ReadWrittenWords(HeaderWords(h), FileSections(m, names));
    SectionsRoundTrip(m, names, inputs, latches, version);
    SymbolsRoundTrip(names);
    AndFormVerified(m, h.version);
    var read := ReadSymbols(SymbolBytes(names), Blank(names));
    if read.Some? {
      AssembledIsAndForm(m, read.value, inputs, latches, version);
      NamesTold(read.value, names, m, h.version);
    }
  }

  /** Naming the implied assertion hides no difference between names. */
  lemma NamesTold(read: Names, names: Names, m: Machine, version: Version)
    requires NamesFit(names, m) && ReadSymbols(SymbolBytes(names), Blank(names)) == Some(read)
    ensures WithOutputName(read, m, version) == WithOutputName(names, m, version) <==> read == names
  {
    hide ReadSymbols;
    hide SymbolBytes;
    hide CountKind;
    ReadKeepsSizes(SymbolBytes(names), Blank(names));
    assert |Blank(names).Of(AssertSymbol)| == |read.Of(AssertSymbol)|;
  }

  /** The machine read back has exactly the runs of the one written, over the same
      variables. */
  lemma AndFormKeepsRuns(m: Machine, trace: Trace)
    requires NormalSigns(m.variables)
    ensures Run(AndForm(m), trace) <==> Run(m, trace)
    ensures forall t: nat :: Observe(AndForm(m), trace(t)) == Observe(m, trace(t))
  {
    forall t: nat
      ensures Cycle(AndForm(m).variables, trace, t) <==> Cycle(m.variables, trace, t)
    {
      AndFormSettled(m, trace(t));
    }
    if Run(AndForm(m), trace) {
      assert forall t: nat :: Cycle(AndForm(m).variables, trace, t);
    }
  }

  lemma AndFormSettled(m: Machine, s: Assignment)
    requires NormalSigns(m.variables)
    ensures Settled(AndForm(m).variables, s) <==> Settled(m.variables, s)
  {
    var n := AndForm(m).variables;
    forall i | 0 <= i < |n| && n[i].GateDriver?
      ensures GateSettled(s, i, n[i].gate) == GateSettled(s, i, m.variables[i].gate)
    {
      AsAndSettled(s, i, m.variables[i].gate);
    }
    if Settled(n, s) {
      forall i | 0 <= i < |m.variables| && m.variables[i].GateDriver?
        ensures GateSettled(s, i, m.variables[i].gate)
      {
        assert n[i].GateDriver?;
      }
    }
  }

  // ----- writing -----

  lemma {:induction false} LatchLinesSnoc(latches: seq<Latch>, index: nat, latch: Latch)
    ensures LatchLines(latches + [latch], index) ==
      LatchLines(latches, index) + WriteWords(LatchWords(latch, index + |latches|))
  {
    if latches == [] {
      assert (latches + [latch])[1..] == [];
    } else {
      assert (latches + [latch])[1..] == latches[1..] + [latch];
      LatchLinesSnoc(latches[1..], index + 1, latch);
    }
  }

  lemma {:induction false} ValueLinesSnoc(values: seq<Value>, value: Value)
    ensures ValueLines(values + [value]) == ValueLines(values) + WriteWords([Decimal(FromValue(value))])
  {
    if values == [] {
      assert (values + [value])[1..] == [];
    } else {
      assert (values + [value])[1..] == values[1..] + [value];
      ValueLinesSnoc(values[1..], value);
    }
  }

  lemma {:induction false} GateLinesSnoc(gates: seq<Gate>, index: nat, gate: Gate)
    requires AllEncodable(gates, index) && Encodable(gate, index + |gates|)
    ensures AllEncodable(gates + [gate], index)
    ensures GateLines(gates + [gate], index) == GateLines(gates, index) + GateBytes(gate, index + |gates|)
  {
    hide GateBytes;
    hide Encodable;
    if gates == [] {
      assert (gates + [gate])[1..] == [];
      assert Encodable(gate, index + 0);
    } else {
      var more := gates + [gate];
      forall i | 0 <= i < |more|
        ensures Encodable(more[i], index + i)
      {
        assert i < |gates| ==> more[i] == gates[i];
      }
      forall i | 0 <= i < |gates[1..]|
        ensures Encodable(gates[1..][i], index + 1 + i)
      {
        var j := i + 1;
        assert Encodable(gates[j], index + j);
      }
      assert more[1..] == gates[1..] + [gate];
      GateLinesSnoc(gates[1..], index + 1, gate);
    }
  }

  lemma ListsPrefix(variables: seq<Driver>, i: nat)
    requires i < |variables|
    ensures LatchesIn(variables[..i + 1]) ==
      if variables[i].LatchDriver? then LatchesIn(variables[..i]) + [variables[i].latch] else LatchesIn(variables[..i])
    ensures GatesIn(variables[..i + 1]) ==
      if variables[i].GateDriver? then GatesIn(variables[..i]) + [variables[i].gate] else GatesIn(variables[..i])
  {
    assert variables[..i + 1][..i] == variables[..i];
    assert LatchesIn(variables[..i]) + [] == LatchesIn(variables[..i]);
    assert GatesIn(variables[..i]) + [] == GatesIn(variables[..i]);
  }

  lemma WriteOneMore(bytes: seq<Byte>, before: seq<Byte>, line: seq<Byte>)
    ensures bytes + before + line == bytes + (before + line)
  {
  }

  lemma EmptyLists(variables: seq<Driver>, inputs: nat, start: nat)
    ensures LatchesIn(variables[..0]) == [] && GatesIn(variables[..0]) == []
    ensures LatchLines([], inputs) == [] && GateLines([], start) == []
    ensures CountKind(variables[..0], LatchKind) == 0 == CountKind(variables[..0], GateKind)
  {
  }

  method CountOf(variables: seq<Driver>, kind: Kind) returns (n: nat)
    ensures n == CountKind(variables, kind)
  {
    n := 0;
    for i := 0 to |variables|
      invariant n == CountKind(variables[..i], kind)
    {
      CountPrefix(variables, kind, i);
      if HasKind(variables[i], kind) {
        n := n + 1;
      }
    }
    assert variables[..|variables|] == variables;
  }

  /** Writes the latch lines, checking that each latch has its expected variable. */
  method WriteLatches(variables: seq<Driver>, inputs: nat, bytes: seq<Byte>) returns (r: Option<seq<Byte>>)
    requires inputs == CountKind(variables, InputKind)
    ensures r.Some? <==> forall i :: 0 <= i < |variables| && variables[i].LatchDriver? ==> InPlace(variables, i)
    ensures r.Some? ==> r.value == bytes + LatchLines(LatchesIn(variables), inputs)
  {
    hide LatchLines;
    hide LatchesIn;
    hide LatchWords;
    hide WriteWords;
    hide CountKind;
    var out := bytes;
    var index := inputs;
    EmptyLists(variables, inputs, 0);
    assert bytes + [] == bytes;
    for i := 0 to |variables|
      invariant index == inputs + CountKind(variables[..i], LatchKind)
      invariant out == bytes + LatchLines(LatchesIn(variables[..i]), inputs)
      invariant forall k :: 0 <= k < i && variables[k].LatchDriver? ==> InPlace(variables, k)
    {
      CountPrefix(variables, LatchKind, i);
      ListsPrefix(variables, i);
      if variables[i].LatchDriver? {
        var latch := variables[i].latch;
        if !latch.sign || i != index {
          assert !InPlace(variables, i);
          return None;
        }
        LatchLinesSnoc(LatchesIn(variables[..i]), inputs, latch);
        WriteOneMore(bytes, LatchLines(LatchesIn(variables[..i]), inputs), WriteWords(LatchWords(latch, index)));
        out := out + WriteWords(LatchWords(latch, index));
        index := index + 1;
      }
    }
    assert variables[..|variables|] == variables;
    return Some(out);
  }

  method WriteValues(values: seq<Value>, bytes: seq<Byte>) returns (out: seq<Byte>)
    ensures out == bytes + ValueLines(values)
  {
    out := bytes;
    for i := 0 to |values|
      invariant out == bytes + ValueLines(values[..i])
    {
      assert values[..i + 1] == values[..i] + [values[i]];
      ValueLinesSnoc(values[..i], values[i]);
      out := out + WriteWords([Decimal(FromValue(values[i]))]);
    }
    assert values[..|values|] == values;
  }

  /** Writes the gates as compressed literal differences. */
  method WriteGates(variables: seq<Driver>, start: nat, bytes: seq<Byte>) returns (r: Option<seq<Byte>>)
    requires start == FirstGateIndex(variables)
    ensures r.Some? <==> forall i :: 0 <= i < |variables| && variables[i].GateDriver? ==> InPlace(variables, i)
    ensures r.Some? ==>
      AllEncodable(GatesIn(variables), start) && r.value == bytes + GateLines(GatesIn(variables), start)
  {
    hide GateLines;
    hide GatesIn;
    hide CountKind;
    hide Compressed;
    var out := bytes;
    var index := start;
    EmptyLists(variables, 0, start);
    assert bytes + [] == bytes;
    for i := 0 to |variables|
      invariant index == start + CountKind(variables[..i], GateKind)
      invariant AllEncodable(GatesIn(variables[..i]), start)
      invariant out == bytes + GateLines(GatesIn(variables[..i]), start)
      invariant forall k :: 0 <= k < i && variables[k].GateDriver? ==> InPlace(variables, k)
    {
      CountPrefix(variables, GateKind, i);
      ListsPrefix(variables, i);
      if variables[i].GateDriver? {
        var gate := variables[i].gate;
        if gate.sign != (gate.gateType == And) || i != index || !gate.InputsSorted() || !Encodable(gate, i) {
          assert !InPlace(variables, i);
          return None;
        }
        GateLinesSnoc(GatesIn(variables[..i]), start, gate);
        var delta0, delta1 := 2 * (index + 1) - FirstLiteral(gate), FirstLiteral(gate) - SecondLiteral(gate);
        WriteOneMore(out, Compressed(delta0), Compressed(delta1));
        WriteOneMore(bytes, GateLines(GatesIn(variables[..i]), start), GateBytes(gate, index));
        out := WriteCompressedUint(out, delta0);
        out := WriteCompressedUint(out, delta1);
        index := index + 1;
      }
    }
    assert variables[..|variables|] == variables;
    return Some(out);
  }

  method CheckInputs(variables: seq<Driver>) returns (ok: bool)
    ensures ok <==> forall i :: 0 <= i < |variables| && variables[i].InputDriver? ==> InPlace(variables, i)
  {
    var index := 0;
    for i := 0 to |variables|
      invariant index == CountKind(variables[..i], InputKind)
      invariant forall k :: 0 <= k < i && variables[k].InputDriver? ==> InPlace(variables, k)
    {
      CountPrefix(variables, InputKind, i);
      if variables[i].InputDriver? {
        if i != index {
          assert !InPlace(variables, i);
          return false;
        }
        index := index + 1;
      }
    }
    return true;
  }

  method CheckVersion(m: Machine, version: Version) returns (ok: bool)
    ensures ok <==> VersionAllows(m, version)
  {
    if m.covers != [] {
      return false;
    }
    if version == V1_0 {
      if m.asserts != [] || m.assumes != [] {
        return false;
      }
      for i := 0 to |m.variables|
        invariant forall k :: 0 <= k < i && m.variables[k].LatchDriver? ==> m.variables[k].latch.reset == Some(false)
      {
        if m.variables[i].LatchDriver? && m.variables[i].latch.reset != Some(false) {
          return false;
        }
      }
    }
    return true;
  }

  lemma UndrivenInPlace(variables: seq<Driver>, i: nat)
    requires i < |variables|
    ensures variables[i].Undriven? ==> InPlace(variables, i)
  {
  }

  /** Writes the file, or nothing if one of the writer's assertions fails. */
  method WriteAigerBinary(m: Machine, names: Names, version: Version) returns (r: Option<seq<Byte>>)
    ensures r.Some? <==> Writable(m, version)
    ensures r.Some? ==>
      AllEncodable(GatesIn(m.variables), FirstGateIndex(m.variables)) && r.value == FileBytes(m, names)
  {
    hide SymbolBytes;
    hide CountKind;
    hide InPlace;
    hide VersionAllows;
    hide HeaderWords;
    hide WriteWords;
    hide FileHeader;
    hide LatchLines;
    hide ValueLines;
    hide GateLines;
    hide LatchesIn;
    hide GatesIn;
    hide NegateAll;
    hide AllEncodable;
    var ok := CheckVersion(m, version);
    if !ok {
      return None;
    }
    var numInputs := CountOf(m.variables, InputKind);
    var numLatches := CountOf(m.variables, LatchKind);
    var header := WriteWords(HeaderWords(FileHeader(m)));
    ok := CheckInputs(m.variables);
    if !ok {
      return None;
    }
    var latches := WriteLatches(m.variables, numInputs, header);
    if latches == None {
      return None;
    }
    var bytes := WriteValues(m.outputs, latches.value);
    bytes := WriteValues(NegateAll(m.asserts), bytes);
    bytes := WriteValues(m.assumes, bytes);
    r := WriteGates(m.variables, numInputs + numLatches, bytes);
    if r.Some? {
      var all := WriteAllSymbols(names, r.value);
      assert all == FileBytes(m, names);
      r := Some(all);
      forall i | 0 <= i < |m.variables|
        ensures InPlace(m.variables, i)
      {
        UndrivenInPlace(m.variables, i);
      }
    }
  }

  // ----- reading -----

  /** `all` reads as `done` followed by whatever `left` reads as. */
  ghost predicate ReadSoFar<T>(all: Option<(seq<T>, seq<Byte>)>, done: seq<T>, left: Option<(seq<T>, seq<Byte>)>) {
    all == match left
      case None => None
      case Some((more, rest)) => Some((done + more, rest))
  }

  lemma ReadStart<T>(all: Option<(seq<T>, seq<Byte>)>)
    ensures ReadSoFar(all, [], all)
  {
    if all.Some? {
      assert [] + all.value.0 == all.value.0;
    }
  }

  lemma ReadStep<T>(all: Option<(seq<T>, seq<Byte>)>, done: seq<T>, item: T, left: Option<(seq<T>, seq<Byte>)>,
    next: Option<(seq<T>, seq<Byte>)>)
    requires ReadSoFar(all, done, left) && ReadSoFar(left, [item], next)
    ensures ReadSoFar(all, done + [item], next)
  {
    if next.Some? {
      assert done + ([item] + next.value.0) == done + [item] + next.value.0;
    }
  }

  method ReadValueLines(queue: ByteQueue, count: nat) returns (r: Option<seq<Value>>)
    modifies queue
    ensures r == None <==> ReadValues(old(queue.contents), count) == None
    ensures r.Some? ==> ReadValues(old(queue.contents), count) == Some((r.value, queue.contents))
  {
    hide ReadLine;
    hide SplitLine;
    var values := [];
    ghost var all := ReadValues(queue.contents, count);
    ReadStart(all);
    for i := 0 to count
      invariant ReadSoFar(all, values, ReadValues(queue.contents, count - i))
    {
      ghost var left := ReadValues(queue.contents, count - i);
      var line := queue.ReadBinaryLine();
      var value := ReadValue(SplitLine(line));
      if value == None {
        return None;
      }
      ReadStep(all, values, value.value, left, ReadValues(queue.contents, count - i - 1));
      values := values + [value.value];
    }
    assert values + [] == values;
    return Some(values);
  }

  method ReadLatchLines(queue: ByteQueue, fsm: FSM, start: nat, count: nat) returns (ok: bool, ghost latches: seq<Latch>)
    requires start + count <= |fsm.variables|
    requires forall k :: start <= k < start + count ==> fsm.variables[k] == Undriven
    modifies queue, fsm`variables
    ensures !ok <==> ReadLatches(old(queue.contents), start, count) == None
    ensures ok ==> ReadLatches(old(queue.contents), start, count) == Some((latches, queue.contents))
    ensures ok ==> |latches| == count && |fsm.variables| == |old(fsm.variables)|
    ensures ok ==> forall k :: 0 <= k < |fsm.variables| ==>
      fsm.variables[k] == if start <= k < start + count then LatchDriver(latches[k - start]) else old(fsm.variables)[k]
  {
    hide ReadLine;
    hide SplitLine;
    hide ReadLatch;
    latches := [];
    ghost var all := ReadLatches(queue.contents, start, count);
    ReadStart(all);
    for i := 0 to count
      invariant |latches| == i && |fsm.variables| == |old(fsm.variables)|
      invariant ReadSoFar(all, latches, ReadLatches(queue.contents, start + i, count - i))
      invariant forall k :: 0 <= k < |fsm.variables| ==>
        fsm.variables[k] == if start <= k < start + i then LatchDriver(latches[k - start]) else old(fsm.variables)[k]
    {
      ghost var left := ReadLatches(queue.contents, start + i, count - i);
      var line := queue.ReadBinaryLine();
      var latch := ReadLatch(SplitLine(line), start + i);
      if latch == None {
        return false, latches;
      }
      LatchReadsPositive(SplitLine(line), start + i);
      fsm.AddLatch(latch.value.input, Var(true, start + i), latch.value.reset);
      ReadStep(all, latches, latch.value, left, ReadLatches(queue.contents, start + i + 1, count - i - 1));
      latches := latches + [latch.value];
    }
    assert latches + [] == latches;
    ok := true;
  }

  lemma LatchReadsPositive(words: seq<seq<Byte>>, index: nat)
    ensures ReadLatch(words, index).Some? ==> ReadLatch(words, index).value.sign
  {
  }

  /** The literals of one gate, as differences. */
  method ReadGateLiterals(queue: ByteQueue, index: nat) returns (r: Option<(nat, nat)>)
    modifies queue
    ensures r == None <==> ReadGate(old(queue.contents), index) == None
    ensures r.Some? ==>
      ReadGate(old(queue.contents), index) == Some((AndGate(r.value.0, r.value.1), queue.contents))
  {
    hide ReadCompressed;
    hide AndGate;
    var delta0 := queue.ReadCompressedUint();
    if delta0 == None || delta0.value > 2 * (index + 1) {
      return None;
    }
    var first := 2 * (index + 1) - delta0.value;
    var delta1 := queue.ReadCompressedUint();
    if delta1 == None || delta1.value > first {
      return None;
    }
    return Some((first, first - delta1.value));
  }

  method ReadGateLines(queue: ByteQueue, fsm: FSM, start: nat, count: nat) returns (ok: bool, ghost gates: seq<Gate>)
    requires start + count <= |fsm.variables|
    requires forall k :: start <= k < start + count ==> fsm.variables[k] == Undriven
    modifies queue, fsm`variables
    ensures !ok <==> ReadGates(old(queue.contents), start, count) == None
    ensures ok ==> ReadGates(old(queue.contents), start, count) == Some((gates, queue.contents))
    ensures ok ==> |gates| == count && |fsm.variables| == |old(fsm.variables)|
    ensures ok ==> forall k :: 0 <= k < |fsm.variables| ==>
      fsm.variables[k] == if start <= k < start + count then GateDriver(gates[k - start]) else old(fsm.variables)[k]
  {
    hide ReadGate;
    gates := [];
    ghost var all := ReadGates(queue.contents, start, count);
    ReadStart(all);
    for i := 0 to count
      invariant |gates| == i && |fsm.variables| == |old(fsm.variables)|
      invariant ReadSoFar(all, gates, ReadGates(queue.contents, start + i, count - i))
      invariant forall k :: 0 <= k < |fsm.variables| ==>
        fsm.variables[k] == if start <= k < start + i then GateDriver(gates[k - start]) else old(fsm.variables)[k]
    {
      ghost var left := ReadGates(queue.contents, start + i, count - i);
      var literals := ReadGateLiterals(queue, start + i);
      if literals == None {
        return false, gates;
      }
      var (first, second) := literals.value;
      fsm.AddGate(And, Var(true, start + i), IntoValue(first), IntoValue(second));
      ghost var gate := AndGate(first, second);
      ReadStep(all, gates, gate, left, ReadGates(queue.contents, start + i + 1, count - i - 1));
      gates := gates + [gate];
    }
    assert gates + [] == gates;
    ok := true;
  }

  /** Variables of a machine with only inputs, and room for the rest. */
  method NewMachine(h: Header) returns (fsm: FSM)
    requires h.inputs <= h.variables
    ensures fresh(fsm)
    ensures fsm.Contents() ==
      Machine(seq(h.inputs, _ => InputDriver) + seq(h.variables - h.inputs, _ => Undriven), [], [], [], [])
  {
    fsm := new FSM();
    fsm.variables := seq(h.variables, _ => Undriven);
    for i := 0 to h.inputs
      invariant fsm.Contents() == Machine(fsm.variables, [], [], [], [])
      invariant fsm.variables == seq(i, _ => InputDriver) + seq(h.variables - i, _ => Undriven)
    {
      fsm.variables := fsm.variables[i := InputDriver];
    }
  }

  /** Reads what follows the header. */
  method ReadSectionsInto(queue: ByteQueue, h: Header) returns (r: Option<(FSM, Names)>)
    requires h.variables == h.inputs + h.latches + h.ands
    modifies queue
    ensures r == None <==> ReadSections(old(queue.contents), h) == None
    ensures r.Some? ==> fresh(r.value.0) && ReadSections(old(queue.contents), h).Some?
    ensures r.Some? ==> (r.value.0.Contents(), r.value.1) == Assemble(h, ReadSections(old(queue.contents), h).value)
  {
    hide ReadSymbols;
    hide ReadLatches;
    hide ReadValues;
    hide ReadGates;
    var fsm := NewMachine(h);
    var ok, latches := ReadLatchLines(queue, fsm, h.inputs, h.latches);
    if !ok {
      return None;
    }
    var outputs := ReadValueLines(queue, h.outputs);
    if outputs == None {
      return None;
    }
    fsm.outputs := outputs.value;
    var bad := ReadValueLines(queue, h.asserts);
    if bad == None {
      return None;
    }
    fsm.asserts := NegateAll(bad.value);
    var assumes := ReadValueLines(queue, h.assumes);
    if assumes == None {
      return None;
    }
    fsm.assumes := assumes.value;
    ghost var gates;
    ok, gates := ReadGateLines(queue, fsm, h.inputs + h.latches, h.ands);
    if !ok {
      return None;
    }
    assert fsm.variables == Drivers(h.inputs, latches, gates);
    var symbols := ReadSymbolLines(queue, BlankNames(h));
    if symbols == None {
      return None;
    }
    var names := symbols.value;
    ghost var sections := Sections(latches, outputs.value, bad.value, assumes.value, gates, names);
    assert fsm.Contents() == Stored(h, sections);
    assert ReadSections(old(queue.contents), h) == Some(sections);
    hide ReadSections;
    ghost var stored := fsm.Contents();
    if h.version == V1_0 && |fsm.outputs| == 1 && fsm.asserts == [] {
      fsm.AddAssert(fsm.outputs[0].Negate());
      names := names.(asserts := names.outputs);
    }
    assert fsm.Contents() == WithOutputAssertion(stored, h.version);
    assert names == WithOutputName(sections.names, stored, h.version);
    return Some((fsm, names));
  }

  /** Reads the file, or nothing if it is malformed or fails verification. */
  method ReadAigerBinary(bytes: seq<Byte>) returns (r: Option<(FSM, Names, Version)>)
    ensures r == None <==> ReadFile(bytes) == None
    ensures r.Some? ==>
      fresh(r.value.0) && ReadFile(bytes) == Some((r.value.0.Contents(), r.value.1, r.value.2))
  {
    hide ReadLine;
    hide SplitLine;
    hide ReadHeader;
    hide ReadSections;
    hide Assemble;
    hide Verified;
    var queue := new ByteQueue(bytes);
    var line := queue.ReadBinaryLine();
    var header := ReadHeader(SplitLine(line));
    if header == None {
      return None;
    }
    HeaderSizes(SplitLine(line));
    var read := ReadSectionsInto(queue, header.value);
    if read == None {
      return None;
    }
    var (fsm, names) := read.value;
    var ok := fsm.Verify(true);
    return if ok then Some((fsm, names, header.value.version)) else None;
  }

  lemma HeaderSizes(words: seq<seq<Byte>>)
    ensures ReadHeader(words).Some? ==>
      ReadHeader(words).value.variables ==
        ReadHeader(words).value.inputs + ReadHeader(words).value.latches + ReadHeader(words).value.ands
  {
  }
}
