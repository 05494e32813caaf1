/** The analysis that accepts clocked processes, and what acceptance buys: processes
    cannot race, and temporaries need no register. */
module VerilogSequential {
  import opened Words
  import opened Fsm
  import opened VerilogAst
  import opened VerilogAnalysis
  import opened VerilogSimulator
  import opened VerilogConvert
  import opened VerilogFootprints
  import opened VerilogInterference

  /** A variable that captures the value of an expression before each clock edge. */
  datatype Sampled = Sampled(id: nat, value: Expression)

  /** Variables are numbers with widths. `history` holds those that start at zero. */
  datatype Design = Design(
    widths: seq<nat>,
    clock: nat,
    inputs: set<nat>,
    outputs: set<nat>,
    internal: set<nat>,
    unpacked: set<nat>,
    history: set<nat>,
    sampled: seq<Sampled>,
    initial: seq<Statement>,
    combinational: seq<Statement>,
    sequential: seq<Statement>)

  datatype SequentialInfo = SequentialInfo(registers: set<nat>, nonblocking: set<nat>)

  // ----- acceptance -----

  function ProcessBits(process: Statement, widths: seq<nat>): set<Bit> {
    FootprintOf(process, false, widths) + FootprintOf(process, true, widths)
  }

  function SampledReads(sampled: seq<Sampled>): set<nat> {
    if sampled == [] then {}
    else SampledReads(sampled[..|sampled| - 1]) + ExpressionReads(sampled[|sampled| - 1].value)
  }

  /** What is read outside clocked processes. */
  function OutsideReads(design: Design): set<nat> {
    ReadsAll(design.combinational) + SampledReads(design.sampled)
  }

  /** Every process owns its bits. */
  ghost predicate OwnersDistinct(processes: seq<Statement>, widths: seq<nat>) {
    forall i, j :: 0 <= i < j < |processes| ==> ProcessBits(processes[i], widths) !! ProcessBits(processes[j], widths)
  }

  /** A variable with blocking writes is read by no process but the owner of its bits. */
  ghost predicate ReadsOwn(processes: seq<Statement>, widths: seq<nat>) {
    forall i, j, bit ::
      0 <= i < |processes| && 0 <= j < |processes| && i != j && bit in ProcessBits(processes[j], widths)
      && bit.id in WritesOfAll(processes, false)
      ==> bit.id !in Reads(processes[i])
  }

  ghost predicate Accepted(design: Design) {
    && OwnersDistinct(design.sequential, design.widths)
    && WritesOfAll(design.sequential, false) !! WritesOfAll(design.sequential, true)
    && WritesAll(design.sequential) !! WritesAll(design.combinational)
    && ReadsOwn(design.sequential, design.widths)
    && WritesOfAll(design.initial, true) == {} && WritesOfAll(design.combinational, true) == {}
  }

  /** Variables a process reads before it assigns them, and writes. */
  function Remembered(processes: seq<Statement>): set<nat> {
    if processes == [] then {}
    else
      var last := processes[|processes| - 1];
      Remembered(processes[..|processes| - 1]) + LiveIn(last, {}) * Writes(last)
  }

  function Registers(design: Design): set<nat> {
    Remembered(design.sequential) +
    WritesOfAll(design.sequential, false) * (OutsideReads(design) + design.outputs) +
    WritesOfAll(design.sequential, true)
  }

  // ----- the analysis -----

  lemma EmptyIntersection<T>(a: set<T>, b: set<T>)
    requires a * b == {}
    ensures a !! b
  {
    assert forall x :: x in a && x in b ==> x in a * b;
  }

  method CollectOwners(processes: seq<Statement>, widths: seq<nat>) returns (owners: Option<map<Bit, nat>>)
    ensures owners.Some? <==> OwnersDistinct(processes, widths)
    ensures owners.Some? ==> Owns(processes, widths, owners.value)
  {
    hide FootprintOf;
    hide ProcessBits;
    var all: map<Bit, nat> := map[];
    for index := 0 to |processes|
      invariant forall i, j :: 0 <= i < j < index ==> ProcessBits(processes[i], widths) !! ProcessBits(processes[j], widths)
      invariant Owns(processes[..index], widths, all)
    {
      var bits := ProcessBits(processes[index], widths);
      if bits * all.Keys != {} {
        ghost var bit :| bit in bits * all.Keys;
        assert bit in ProcessBits(processes[..index][all[bit]], widths);
        return None;
      }
      ghost var before := all;
      EmptyIntersection(bits, before.Keys);
      all := all + map bit | bit in bits :: index;
      OwnsOneMore(processes, widths, index, before, all);
    }
    assert processes[..|processes|] == processes;
    return Some(all);
  }

  /** The map gives each bit of each process its owner. */
  ghost predicate Owns(processes: seq<Statement>, widths: seq<nat>, owners: map<Bit, nat>) {
    && (forall bit :: bit in owners ==>
          owners[bit] < |processes| && bit in ProcessBits(processes[owners[bit]], widths))
    && (forall i, bit :: 0 <= i < |processes| && bit in ProcessBits(processes[i], widths) ==>
          bit in owners && owners[bit] == i)
  }

  lemma OwnsOneMore(processes: seq<Statement>, widths: seq<nat>, index: nat, before: map<Bit, nat>, after: map<Bit, nat>)
    requires index < |processes| && Owns(processes[..index], widths, before)
    requires ProcessBits(processes[index], widths) !! before.Keys
    requires after.Keys == before.Keys + ProcessBits(processes[index], widths)
    requires forall bit :: bit in before ==> after[bit] == before[bit]
    requires forall bit :: bit in ProcessBits(processes[index], widths) ==> after[bit] == index
    ensures Owns(processes[..index + 1], widths, after)
    ensures forall i :: 0 <= i < index ==>
      ProcessBits(processes[i], widths) !! ProcessBits(processes[index], widths)
  {
    hide FootprintOf;
    var shorter, longer := processes[..index], processes[..index + 1];
    assert forall i :: 0 <= i < index ==> shorter[i] == longer[i] == processes[i];
    assert longer[index] == processes[index];
    forall i, bit | 0 <= i < |longer| && bit in ProcessBits(longer[i], widths)
      ensures bit in after && after[bit] == i
    {
      if i < index {
        assert bit in ProcessBits(shorter[i], widths);
      }
    }
    forall i | 0 <= i < index
      ensures ProcessBits(processes[i], widths) !! ProcessBits(processes[index], widths)
    {
      assert forall bit :: bit in ProcessBits(shorter[i], widths) ==> bit in before;
    }
  }

  /** Rejects a process that reads a blocking-written variable some bit of which another
      process owns. */
  method CheckReads(processes: seq<Statement>, ghost widths: seq<nat>, owners: map<Bit, nat>, blocking: set<nat>)
    returns (ok: bool)
    requires Owns(processes, widths, owners) && blocking == WritesOfAll(processes, false)
    ensures ok <==> ReadsOwn(processes, widths)
  {
    hide FootprintOf;
    hide Reads;
    hide WritesOfAll;
    for i := 0 to |processes|
      invariant forall k, j, bit ::
        0 <= k < i && 0 <= j < |processes| && k != j && bit in ProcessBits(processes[j], widths) && bit.id in blocking ==>
          bit.id !in Reads(processes[k])
    {
      var foreign := set bit | bit in owners && owners[bit] != i && bit.id in blocking && bit.id in Reads(processes[i]);
      if foreign != {} {
        ghost var bit :| bit in foreign;
        assert bit in ProcessBits(processes[owners[bit]], widths);
        return false;
      }
      forall j, bit |
        0 <= j < |processes| && i != j && bit in ProcessBits(processes[j], widths) && bit.id in blocking
        ensures bit.id !in Reads(processes[i])
      {
        assert bit in owners && owners[bit] == j;
        assert bit !in foreign;
      }
    }
    return true;
  }

  /** Registers and deferred variables of an accepted design; nothing for a design with
      races, mixed assignment kinds or stray nonblocking assignments. */
  method Analyze(design: Design) returns (r: Option<SequentialInfo>)
    ensures r.Some? <==> Accepted(design)
    ensures r.Some? ==> r.value == SequentialInfo(Registers(design), WritesOfAll(design.sequential, true))
  {
    hide FootprintOf;
    hide OwnersDistinct;
    hide ReadsOwn;
    var owners := CollectOwners(design.sequential, design.widths);
    if owners == None {
      return None;
    }
    var blocking: set<nat>, nonblocking: set<nat>, registers: set<nat> := {}, {}, {};
    for i := 0 to |design.sequential|
      invariant blocking == WritesOfAll(design.sequential[..i], false)
      invariant nonblocking == WritesOfAll(design.sequential[..i], true)
      invariant registers == Remembered(design.sequential[..i])
    {
      assert design.sequential[..i + 1][..i] == design.sequential[..i];
      var info := new StatementInfo();
      var assignedHere := info.AnalyzeStatement(design.sequential[i], {});
      blocking, nonblocking := blocking + info.blocking, nonblocking + info.nonblocking;
      registers := registers + info.liveIn * Writes(design.sequential[i]);
    }
    assert design.sequential[..|design.sequential|] == design.sequential;
    if blocking * nonblocking != {} {
      return None;
    }
    WritesAllSplit(design.sequential);
    if WritesAll(design.sequential) * WritesAll(design.combinational) != {} {
      return None;
    }
    var ok := CheckReads(design.sequential, design.widths, owners.value, blocking);
    if !ok {
      return None;
    }
    registers := registers + blocking * (OutsideReads(design) + design.outputs) + nonblocking;
    var info := new StatementInfo();
    var ignored := info.AnalyzeAll(design.initial, {});
    ignored := info.AnalyzeAll(design.combinational, {});
    if info.nonblocking != {} {
      assert WritesOfAll(design.initial, true) + WritesOfAll(design.combinational, true) != {};
      return None;
    }
    assert WritesOfAll(design.initial, true) <= info.nonblocking;
    assert WritesOfAll(design.combinational, true) <= info.nonblocking;
    EmptyIntersection(blocking, nonblocking);
    EmptyIntersection(WritesAll(design.sequential), WritesAll(design.combinational));
    return Some(SequentialInfo(registers, nonblocking));
  }

  // ----- race freedom -----

  /** Neither process writes a bit of the other, or one of a variable the other reads. */
  ghost predicate Independent(p: Statement, q: Statement, widths: seq<nat>) {
    && (forall deferred :: FootprintOf(p, deferred, widths) !! FootprintOf(q, deferred, widths))
    && (forall bit :: bit in FootprintOf(p, false, widths) ==> bit.id !in Reads(q))
    && (forall bit :: bit in FootprintOf(q, false, widths) ==> bit.id !in Reads(p))
  }

  lemma {:induction false} FootprintIds(statement: Statement, deferred: bool, widths: seq<nat>, bit: Bit)
    requires bit in FootprintOf(statement, deferred, widths)
    ensures bit.id in WritesOf(statement, deferred)
    decreases statement
  {
    match statement {
      case Block(statements) => FootprintIdsAll(statements, deferred, widths, bit);
      case Assign(_, _, _) =>
      case If(_, thenStatements, elseStatements) =>
        if bit in FootprintOfAll(thenStatements, deferred, widths) {
          FootprintIdsAll(thenStatements, deferred, widths, bit);
        } else {
          FootprintIdsAll(elseStatements, deferred, widths, bit);
        }
    }
  }

  lemma {:induction false} FootprintIdsAll(statements: seq<Statement>, deferred: bool, widths: seq<nat>, bit: Bit)
    requires bit in FootprintOfAll(statements, deferred, widths)
    ensures bit.id in WritesOfAll(statements, deferred)
    decreases statements
  {
    var before, last := statements[..|statements| - 1], statements[|statements| - 1];
    if bit in FootprintOfAll(before, deferred, widths) {
      FootprintIdsAll(before, deferred, widths, bit);
    } else {
      FootprintIds(last, deferred, widths, bit);
    }
  }

  lemma {:induction false} WritesMember(processes: seq<Statement>, i: nat, deferred: bool)
    requires i < |processes|
    ensures WritesOf(processes[i], deferred) <= WritesOfAll(processes, deferred)
    ensures LiveIn(processes[i], {}) * Writes(processes[i]) <= Remembered(processes)
  {
    hide LiveIn;
    hide Writes;
    hide WritesOf;
    if i < |processes| - 1 {
      WritesMember(processes[..|processes| - 1], i, deferred);
    }
  }

  lemma AcceptedIndependent(design: Design, i: nat, j: nat)
    requires Accepted(design) && i < |design.sequential| && j < |design.sequential| && i != j
    ensures Independent(design.sequential[i], design.sequential[j], design.widths)
  {
    hide FootprintOf;
    hide Reads;
    hide WritesOf;
    hide WritesOfAll;
    BlockingOwned(design, i, j);
    BlockingOwned(design, j, i);
    var p, q := ProcessBits(design.sequential[i], design.widths), ProcessBits(design.sequential[j], design.widths);
    assert p !! q by {
      if i < j {
      } else {
        assert q !! p;
      }
    }
  }

  lemma BlockingOwned(design: Design, i: nat, j: nat)
    requires Accepted(design) && i < |design.sequential| && j < |design.sequential| && i != j
    ensures forall bit :: bit in FootprintOf(design.sequential[i], false, design.widths) ==>
      bit.id !in Reads(design.sequential[j])
  {
    hide FootprintOf;
    hide Reads;
    hide WritesOf;
    hide WritesOfAll;
    forall bit | bit in FootprintOf(design.sequential[i], false, design.widths)
      ensures bit.id !in Reads(design.sequential[j])
    {
      FootprintIds(design.sequential[i], false, design.widths, bit);
      WritesMember(design.sequential, i, false);
      assert bit in ProcessBits(design.sequential[i], design.widths);
    }
  }

  /** The numbers below `n`. */
  function Counting(n: nat): (r: seq<nat>)
    ensures |r| == n
    ensures forall i :: 0 <= i < n ==> r[i] == i
  {
    if n == 0 then [] else Counting(n - 1) + [n - 1]
  }

  lemma CountingMembers(n: nat)
    ensures forall i: nat :: i in Counting(n) <==> i < n
  {
    forall i: nat | i < n
      ensures i in Counting(n)
    {
      assert Counting(n)[i] == i;
    }
    forall i | i in Counting(n)
      ensures i < n
    {
      var k :| 0 <= k < n && Counting(n)[k] == i;
    }
  }

  // ----- temporaries -----

  /** Blocking-written variables that get no register. */
  function Temporaries(design: Design): set<nat> {
    WritesOfAll(design.sequential, false) - Registers(design)
  }

  /** Variables that processes assign exist and have bits. */
  predicate PositiveWidths(design: Design) {
    forall id :: id in WritesOfAll(design.sequential, false) ==> id < |design.widths| && design.widths[id] > 0
  }

  /** A definite assignment has a footprint. */
  lemma {:induction false} AssignedHasBit(statement: Statement, known: set<nat>, widths: seq<nat>, id: nat)
    requires id in AssignedBy(statement, known) && id !in known && id < |widths| && widths[id] > 0
    ensures Bit(id, 0) in FootprintOf(statement, false, widths)
    decreases statement
  {
    match statement {
      case Block(statements) => AssignedHasBitAll(statements, known, widths, id);
      case Assign(_, _, _) => WholeHasBit(statement, widths, id);
      case If(_, thenStatements, _) => AssignedHasBitAll(thenStatements, known, widths, id);
    }
  }

  lemma {:induction false} AssignedHasBitAll(statements: seq<Statement>, known: set<nat>, widths: seq<nat>, id: nat)
    requires id in AssignedByAll(statements, known) && id !in known && id < |widths| && widths[id] > 0
    ensures Bit(id, 0) in FootprintOfAll(statements, false, widths)
    decreases statements
  {
    var before, last := statements[..|statements| - 1], statements[|statements| - 1];
    if id in AssignedByAll(before, known) {
      AssignedHasBitAll(before, known, widths, id);
    } else {
      AssignedHasBit(last, AssignedByAll(before, known), widths, id);
    }
  }

  lemma WholeHasBit(statement: Statement, widths: seq<nat>, id: nat)
    requires statement.Assign? && statement.kind != Nonblocking && statement.target == Whole(id)
    requires id < |widths| && widths[id] > 0
    ensures Bit(id, 0) in FootprintOf(statement, false, widths)
  {
    RegionBit(statement.target, widths, Region(0, widths[id]), 0);
  }

  lemma RegionBit(target: Target, widths: seq<nat>, r: Region, b: nat)
    requires r in TargetRegions(target, widths) && r.start <= b < r.start + r.width
    ensures Bit(Root(target), b) in TargetBits(target, widths)
  {
    hide TargetRegions;
  }

  /** A partial write reads its variable, so a variable that is written but not live is
      assigned as a whole somewhere, and has a footprint. */
  lemma {:induction false} WrittenHasBit(statement: Statement, known: set<nat>, widths: seq<nat>, id: nat)
    requires id in WritesOf(statement, false) && id !in known && id !in LiveIn(statement, known)
    requires id < |widths| && widths[id] > 0
    ensures Bit(id, 0) in FootprintOf(statement, false, widths)
    decreases statement
  {
    match statement {
      case Block(statements) => WrittenHasBitAll(statements, known, widths, id);
      case Assign(_, target, _) =>
        PartialRootIsRead(target);
        WholeHasBit(statement, widths, id);
      case If(_, thenStatements, elseStatements) =>
        if id in WritesOfAll(thenStatements, false) {
          WrittenHasBitAll(thenStatements, known, widths, id);
        } else {
          WrittenHasBitAll(elseStatements, known, widths, id);
        }
    }
  }

  lemma {:induction false} WrittenHasBitAll(statements: seq<Statement>, known: set<nat>, widths: seq<nat>, id: nat)
    requires id in WritesOfAll(statements, false) && id !in known && id !in LiveInAll(statements, known)
    requires id < |widths| && widths[id] > 0
    ensures Bit(id, 0) in FootprintOfAll(statements, false, widths)
    decreases statements
  {
    var before, last := statements[..|statements| - 1], statements[|statements| - 1];
    if id in WritesOfAll(before, false) {
      WrittenHasBitAll(before, known, widths, id);
    } else if id in AssignedByAll(before, known) {
      AssignedHasBitAll(before, known, widths, id);
    } else {
      WrittenHasBit(last, AssignedByAll(before, known), widths, id);
    }
  }

  lemma {:induction false} ReadsMember(processes: seq<Statement>, i: nat)
    requires i < |processes|
    ensures Reads(processes[i]) <= ReadsAll(processes)
  {
    hide Reads;
    if i < |processes| - 1 {
      ReadsMember(processes[..|processes| - 1], i);
    }
  }

  lemma {:induction false} WriterExists(processes: seq<Statement>, id: nat) returns (j: nat)
    requires id in WritesOfAll(processes, false)
    ensures j < |processes| && id in WritesOf(processes[j], false)
  {
    hide WritesOf;
    var last := |processes| - 1;
    if id in WritesOf(processes[last], false) {
      j := last;
    } else {
      j := WriterExists(processes[..last], id);
    }
  }

  lemma OwnNotLive(design: Design, i: nat, id: nat)
    requires i < |design.sequential| && id in WritesOf(design.sequential[i], false) && id !in Registers(design)
    ensures id !in LiveIn(design.sequential[i], {})
  {
    hide LiveIn;
    hide Writes;
    hide WritesOf;
    hide WritesOfAll;
    hide Remembered;
    WritesSplit(design.sequential[i]);
    WritesMember(design.sequential, i, false);
  }

  lemma ForeignNotRead(design: Design, i: nat, j: nat, id: nat)
    requires Accepted(design) && PositiveWidths(design)
    requires i < |design.sequential| && j < |design.sequential| && i != j
    requires id in WritesOf(design.sequential[j], false) && id !in Registers(design)
    ensures id !in Reads(design.sequential[i])
  {
    hide Reads;
    hide WritesOf;
    hide FootprintOf;
    hide WritesOfAll;
    hide Registers;
    hide LiveIn;
    WritesMember(design.sequential, j, false);
    OwnNotLive(design, j, id);
    WrittenHasBit(design.sequential[j], {}, design.widths, id);
    var bit := Bit(id, 0);
    assert bit in ProcessBits(design.sequential[j], design.widths);
  }

  /** A process reads no temporary before it assigns it. */
  lemma LiveIsKnown(design: Design, known: set<nat>, i: nat, before: set<nat>)
    requires Accepted(design) && PositiveWidths(design) && i < |design.sequential|
    requires forall id :: id in ReadsAll(design.sequential) && id !in known ==> id in Temporaries(design)
    requires known <= before
    ensures LiveIn(design.sequential[i], before) == {}
  {
    hide LiveIn;
    hide Reads;
    hide WritesOf;
    hide WritesOfAll;
    hide ReadsAll;
    hide Registers;
    hide Accepted;
    hide PositiveWidths;
    var p := design.sequential[i];
    forall id | id in Temporaries(design)
      ensures id !in LiveIn(p, {})
    {
      var j := WriterExists(design.sequential, id);
      LiveInIsRead(p, {});
      if j == i {
        OwnNotLive(design, i, id);
      } else {
        ForeignNotRead(design, i, j, id);
      }
    }
    MoreAssigned(p, {}, before);
    LiveInIsRead(p, {});
    ReadsMember(design.sequential, i);
    assert forall id :: id !in LiveIn(p, before);
  }

  lemma {:induction false} AcceptedLiveIn(design: Design, known: set<nat>, n: nat)
    requires Accepted(design) && PositiveWidths(design) && n <= |design.sequential|
    requires forall id :: id in ReadsAll(design.sequential) && id !in known ==> id in Temporaries(design)
    ensures LiveInAll(design.sequential[..n], known) == {}
    decreases n
  {
    hide LiveIn;
    hide Accepted;
    hide PositiveWidths;
    hide Temporaries;
    if n > 0 {
      AcceptedLiveIn(design, known, n - 1);
      assert design.sequential[..n][..n - 1] == design.sequential[..n - 1];
      AssignedAllGrows(design.sequential[..n - 1], known);
      LiveIsKnown(design, known, n - 1, AssignedByAll(design.sequential[..n - 1], known));
    }
  }

  /** Two stores that differ only on temporaries before a clock edge differ at most on
      temporaries after it, and neither run panics alone. */
  lemma TemporariesNeedNoRegister(design: Design, a: Store, b: Store)
    requires Accepted(design) && PositiveWidths(design)
    requires SameShape(a, b) && forall id :: 0 <= id < |a| && id !in Temporaries(design) ==> a[id] == b[id]
    ensures
      var nonblocking := WritesOfAll(design.sequential, true);
      var a', b' := RunSequential(design.sequential, nonblocking, a), RunSequential(design.sequential, nonblocking, b);
      && (a'.Some? <==> b'.Some?)
      && (a'.Some? ==>
            && SameShape(a'.value, b'.value) && |a'.value| == |a|
            && forall id :: 0 <= id < |a| && id !in Temporaries(design) ==> a'.value[id] == b'.value[id])
  {
    hide Accepted;
    hide PositiveWidths;
    hide Temporaries;
    hide ExecuteAll;
    hide LiveInAll;
    hide AssignedByAll;
    hide AllStayInRange;
    var known := ReadsAll(design.sequential) + (set id: nat | id in Counting(|a|)) - Temporaries(design);
    CountingMembers(|a|);
    AcceptedLiveIn(design, known, |design.sequential|);
    assert design.sequential[..|design.sequential|] == design.sequential;
    var s, t := State(a, a), State(b, b);
    assert Alike(s, t, known);
    NonInterferenceAll(design.sequential, s, t, known, design.widths);
    if ExecuteAll(design.sequential, s).Some? {
      var s', t' := ExecuteAll(design.sequential, s).value, ExecuteAll(design.sequential, t).value;
      assert Execute(Block(design.sequential), s) == Some(s') && Execute(Block(design.sequential), t) == Some(t');
      forall id | 0 <= id < |a| && id !in Temporaries(design)
        ensures s'.env[id] == t'.env[id] && s'.pending[id] == t'.pending[id]
      {
        EqualVariable(a, b, s'.env, t'.env, id);
        EqualVariable(a, b, s'.pending, t'.pending, id);
      }
    }
  }

  lemma EqualVariable(a: Store, b: Store, a': Store, b': Store, id: nat)
    requires AgreementKept(a, b, a', b') && id < |a| && a[id] == b[id]
    ensures a'[id] == b'[id]
  {
  }
}
