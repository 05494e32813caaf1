/** When the order of clocked processes does not matter.

    Each process is run alone from the state before the edge. The orders agree exactly
    when no two processes write different values to one bit; acceptance by the analysis
    rules that out as long as parts of array elements stay inside their elements. */
module VerilogRaces {
  import opened Words
  import opened Fsm
  import opened Ranges
  import opened VerilogAst
  import opened VerilogAnalysis
  import opened VerilogSimulator
  import opened VerilogTargets
  import opened VerilogConvert
  import opened VerilogFootprints
  import opened VerilogInterference
  import opened VerilogSequential
  import Runtime = VerilogRuntime

  // ----- the same process from alike states -----

  ghost predicate BitIs(store: Store, id: nat, b: nat, other: Store) {
    id < |store| && id < |other| && b < |store[id]| && b < |other[id]| && store[id][b] == other[id][b]
  }

  /** From alike states a process writes the same bits, and the same values to them. */
  ghost predicate SameTouch(statement: Statement, s: State, t: State, deferred: bool, id: nat, b: nat) {
    && (Touches(statement, s, deferred, id, b) <==> Touches(statement, t, deferred, id, b))
    && (Touches(statement, s, deferred, id, b) && Execute(statement, s).Some? && Execute(statement, t).Some?
        && id < |StoreOf(s, deferred)| && b < |StoreOf(s, deferred)[id]| ==>
          BitIs(StoreOf(Execute(statement, s).value, deferred), id, b, StoreOf(Execute(statement, t).value, deferred)))
  }

  ghost predicate TouchesAlike(statement: Statement, s: State, t: State) {
    forall deferred, id, b :: SameTouch(statement, s, t, deferred, id, b)
  }

  lemma {:induction false} TouchedAlike(statement: Statement, s: State, t: State, known: set<nat>, widths: seq<nat>,
    deferred: bool, id: nat, b: nat)
    requires Alike(s, t, known) && LiveIn(statement, known) == {}
    ensures SameTouch(statement, s, t, deferred, id, b)
    decreases statement
  {
    hide SameTouch;
    match statement {
      case Block(statements) => TouchedAlikeAll(statements, s, t, known, widths, deferred, id, b);
      case Assign(_, _, _) => AssignmentAlike(statement, s, t, known, widths, deferred, id, b);
      case If(condition, thenStatements, elseStatements) =>
        BranchesLive(statement, known);
        AgreeOnSome(s.env, t.env, known, ExpressionReads(condition));
        ValueAgrees(condition, s.env, t.env);
        TouchedAlikeAll(thenStatements, s, t, known, widths, deferred, id, b);
        TouchedAlikeAll(elseStatements, s, t, known, widths, deferred, id, b);
        IfAlike(statement, s, t, deferred, id, b);
    }
  }

  lemma BranchesLive(statement: Statement, known: set<nat>)
    requires statement.If? && LiveIn(statement, known) == {}
    ensures ExpressionReads(statement.condition) <= known
    ensures LiveInAll(statement.thenStatements, known) == {} && LiveInAll(statement.elseStatements, known) == {}
  {
    assert LiveIn(statement, known) == (ExpressionReads(statement.condition) - known) +
      LiveInAll(statement.thenStatements, known) + LiveInAll(statement.elseStatements, known);
    assert forall k :: k in ExpressionReads(statement.condition) && k !in known ==> k in LiveIn(statement, known);
  }

  lemma IfAlike(statement: Statement, s: State, t: State, deferred: bool, id: nat, b: nat)
    requires statement.If? && ValueOf(statement.condition, s.env) == ValueOf(statement.condition, t.env)
    requires SameTouch(Block(statement.thenStatements), s, t, deferred, id, b)
    requires SameTouch(Block(statement.elseStatements), s, t, deferred, id, b)
    ensures SameTouch(statement, s, t, deferred, id, b)
  {
    hide ValueOf;
    hide TouchesAll;
    hide ExecuteAll;
  }

  lemma AssignmentAlike(statement: Statement, s: State, t: State, known: set<nat>, widths: seq<nat>, deferred: bool,
    id: nat, b: nat)
    requires statement.Assign? && Alike(s, t, known) && LiveIn(statement, known) == {}
    ensures SameTouch(statement, s, t, deferred, id, b)
  {
    hide ValueOf;
    hide Locate;
    var target, value := statement.target, statement.value;
    assert TargetReads(target) <= known && ExpressionReads(value) <= known by {
      assert forall k :: k in TargetReads(target) + ExpressionReads(value) && k !in known ==> k in LiveIn(statement, known);
    }
    AgreeOnSome(s.env, t.env, known, ExpressionReads(value));
    AgreeOnSome(s.env, t.env, known, IndexReads(target));
    ValueAgrees(value, s.env, t.env);
    LocateAgrees(target, s.env, t.env, widths);
    LocateRoot(target, s.env);
  }

  lemma {:induction false} TouchedAlikeAll(statements: seq<Statement>, s: State, t: State, known: set<nat>,
    widths: seq<nat>, deferred: bool, id: nat, b: nat)
    requires Alike(s, t, known) && LiveInAll(statements, known) == {}
    ensures SameTouch(Block(statements), s, t, deferred, id, b)
    decreases statements
  {
    if statements == [] {
      BlockIsAll(statements, s, deferred, id, b);
      BlockIsAll(statements, t, deferred, id, b);
      assert !TouchesAll(statements, s, deferred, id, b) && !TouchesAll(statements, t, deferred, id, b);
    } else {
      hide Execute;
      hide Touches;
      hide OutcomesAgree;
      hide StaysInRange;
      var before, last := statements[..|statements| - 1], statements[|statements| - 1];
      assert LiveInAll(before, known) == {} && LiveIn(last, AssignedByAll(before, known)) == {} by {
        assert LiveInAll(statements, known) == LiveInAll(before, known) + LiveIn(last, AssignedByAll(before, known));
      }
      TouchedAlikeAll(before, s, t, known, widths, deferred, id, b);
      NonInterferenceAll(before, s, t, known, widths);
      BlockIsAll(before, s, deferred, id, b);
      BlockIsAll(before, t, deferred, id, b);
      BlockIsAll(statements, s, deferred, id, b);
      BlockIsAll(statements, t, deferred, id, b);
      if ExecuteAll(before, s).Some? && ExecuteAll(before, t).Some? {
        var s', t' := ExecuteAll(before, s).value, ExecuteAll(before, t).value;
        OutcomesAreAlike(s, t, s', t', AssignedByAll(before, known));
        ExecuteAllKeepsShape(before, s);
        ExecuteAllKeepsShape(before, t);
        TouchedAlike(last, s', t', AssignedByAll(before, known), widths, deferred, id, b);
        NonInterference(last, s', t', AssignedByAll(before, known), widths);
        if Execute(last, s').Some? && Execute(last, t').Some? {
          OutcomesKeepBits(s', t', Execute(last, s').value, Execute(last, t').value, AssignedBy(last, AssignedByAll(before, known)),
            deferred, id, b);
        }
      }
    }
  }

  lemma BlockIsAll(statements: seq<Statement>, s: State, deferred: bool, id: nat, b: nat)
    ensures Execute(Block(statements), s) == ExecuteAll(statements, s)
    ensures Touches(Block(statements), s, deferred, id, b) == TouchesAll(statements, s, deferred, id, b)
  {
  }

  lemma OutcomesKeepBits(s: State, t: State, s': State, t': State, known: set<nat>, deferred: bool, id: nat, b: nat)
    requires OutcomesAgree(s, t, s', t', known)
    ensures BitIs(StoreOf(s, deferred), id, b, StoreOf(t, deferred)) ==>
      BitIs(StoreOf(s', deferred), id, b, StoreOf(t', deferred))
  {
  }

  // ----- orders -----

  /** The processes in a given order. */
  function Pick(processes: seq<Statement>, order: seq<nat>): (r: seq<Statement>)
    requires forall k :: 0 <= k < |order| ==> order[k] < |processes|
    ensures |r| == |order|
  {
    seq(|order|, k requires 0 <= k < |order| => processes[order[k]])
  }

  ghost predicate Distinct(order: seq<nat>) {
    forall i, j :: 0 <= i < j < |order| ==> order[i] != order[j]
  }

  ghost predicate OrderOf(order: seq<nat>, count: nat) {
    (forall k :: 0 <= k < |order| ==> order[k] < count) && Distinct(order)
  }

  /** Every process once. */
  ghost predicate CompleteOrder(order: seq<nat>, count: nat) {
    OrderOf(order, count) && forall i: nat :: i < count ==> i in order
  }

  ghost predicate AllRunAlone(processes: seq<Statement>, order: seq<nat>, s: State)
    requires forall k :: 0 <= k < |order| ==> order[k] < |processes|
  {
    forall k :: 0 <= k < |order| ==> Execute(processes[order[k]], s).Some?
  }

  ghost predicate Ready(s: State, widths: seq<nat>) {
    Shaped(s.env, widths) && Shaped(s.pending, widths)
  }

  /** No process, run alone from `s`, writes at once a variable that another one reads. */
  ghost predicate NoCrossReads(processes: seq<Statement>, s: State) {
    forall i, j, id, b :: 0 <= i < |processes| && 0 <= j < |processes| && i != j && id in Reads(processes[i]) ==>
      !Touches(processes[j], s, false, id, b)
  }

  /** No two processes, each run alone from `s`, write different values to the bit. */
  ghost predicate AgreesOnBit(processes: seq<Statement>, s: State, deferred: bool, id: nat, b: nat) {
    forall i, j ::
      0 <= i < |processes| && 0 <= j < |processes| && Touches(processes[i], s, deferred, id, b)
      && Touches(processes[j], s, deferred, id, b)
      && Execute(processes[i], s).Some? && Execute(processes[j], s).Some? ==>
        BitIs(StoreOf(Execute(processes[i], s).value, deferred), id, b,
          StoreOf(Execute(processes[j], s).value, deferred))
  }

  ghost predicate NoConflict(processes: seq<Statement>, s: State, widths: seq<nat>) {
    forall deferred, id, b :: 0 <= id < |widths| && 0 <= b < widths[id] ==> AgreesOnBit(processes, s, deferred, id, b)
  }

  // ----- running processes one after another -----

  /** Bits that no process writes stay. */
  ghost predicate Unwritten(processes: seq<Statement>, order: seq<nat>, s: State, deferred: bool, id: nat, b: nat)
    requires forall k :: 0 <= k < |order| ==> order[k] < |processes|
  {
    forall k :: 0 <= k < |order| ==> !Touches(processes[order[k]], s, deferred, id, b)
  }

  ghost predicate RestStays(processes: seq<Statement>, order: seq<nat>, s: State, m: State, widths: seq<nat>)
    requires forall k :: 0 <= k < |order| ==> order[k] < |processes|
  {
    && Ready(m, widths)
    && forall deferred, id, b ::
         0 <= id < |widths| && 0 <= b < widths[id] && Unwritten(processes, order, s, deferred, id, b) ==>
           BitIs(StoreOf(m, deferred), id, b, StoreOf(s, deferred))
  }

  lemma ReadsStay(processes: seq<Statement>, order: seq<nat>, s: State, m: State, widths: seq<nat>, i: nat)
    requires Ready(s, widths) && NoCrossReads(processes, s) && OrderOf(order, |processes|)
    requires i < |processes| && i !in order && RestStays(processes, order, s, m, widths)
    ensures Alike(s, m, Reads(processes[i]))
  {
    hide Touches;
    hide Reads;
    forall id | id in Reads(processes[i]) && id < |widths|
      ensures s.env[id] == m.env[id]
    {
      forall b | 0 <= b < widths[id]
        ensures s.env[id][b] == m.env[id][b]
      {
        assert Unwritten(processes, order, s, false, id, b);
        assert BitIs(StoreOf(m, false), id, b, StoreOf(s, false));
      }
    }
  }

  /** The last process does what it does alone, on top of what was there. */
  lemma LastAsAlone(processes: seq<Statement>, order: seq<nat>, s: State, m: State, widths: seq<nat>)
    requires Ready(s, widths) && NoCrossReads(processes, s) && OrderOf(order, |processes|) && order != []
    requires RestStays(processes, order[..|order| - 1], s, m, widths)
    ensures
      var last := processes[order[|order| - 1]];
      && (Execute(last, m).Some? <==> Execute(last, s).Some?)
      && TouchesAlike(last, s, m)
      && (Execute(last, m).Some? ==> Ready(Execute(last, m).value, widths))
  {
    hide Execute;
    hide Touches;
    hide Reads;
    hide SameTouch;
    hide NoCrossReads;
    hide RestStays;
    var p := processes[order[|order| - 1]];
    assert Ready(m, widths) by { RestIsReady(processes, order[..|order| - 1], s, m, widths); }
    ReadsStay(processes, order[..|order| - 1], s, m, widths, order[|order| - 1]);
    assert LiveIn(p, Reads(p)) == {} by {
      LiveInIsRead(p, Reads(p));
      MoreAssigned(p, {}, Reads(p));
    }
    NonInterference(p, s, m, Reads(p), widths);
    forall deferred, id, b
      ensures SameTouch(p, s, m, deferred, id, b)
    {
      TouchedAlike(p, s, m, Reads(p), widths, deferred, id, b);
    }
    if Execute(p, m).Some? {
      ExecuteKeepsShape(p, m);
    }
  }

  lemma RestIsReady(processes: seq<Statement>, order: seq<nat>, s: State, m: State, widths: seq<nat>)
    requires (forall k :: 0 <= k < |order| ==> order[k] < |processes|) && RestStays(processes, order, s, m, widths)
    ensures Ready(m, widths)
  {
  }

  /** Any order runs through exactly when each process runs alone, and leaves unwritten
      bits alone. */
  lemma {:induction false} AnyOrderRuns(processes: seq<Statement>, order: seq<nat>, s: State, widths: seq<nat>)
    requires Ready(s, widths) && NoCrossReads(processes, s) && OrderOf(order, |processes|)
    ensures ExecuteAll(Pick(processes, order), s).Some? <==> AllRunAlone(processes, order, s)
    ensures AllRunAlone(processes, order, s) ==>
      RestStays(processes, order, s, ExecuteAll(Pick(processes, order), s).value, widths)
    decreases |order|
  {
    hide Execute;
    hide Touches;
    hide NoCrossReads;
    if order != [] {
      var shorter, last := order[..|order| - 1], processes[order[|order| - 1]];
      assert Pick(processes, order)[..|order| - 1] == Pick(processes, shorter);
      AnyOrderRuns(processes, shorter, s, widths);
      if AllRunAlone(processes, shorter, s) {
        var m := ExecuteAll(Pick(processes, shorter), s).value;
        LastAsAlone(processes, order, s, m, widths);
        assert AllRunAlone(processes, order, s) <==> Execute(last, s).Some?;
        if Execute(last, m).Some? {
          OneMoreStays(processes, order, s, m, Execute(last, m).value, widths);
        }
      } else {
        assert !AllRunAlone(processes, order, s);
      }
    }
  }

  lemma OneMoreStays(processes: seq<Statement>, order: seq<nat>, s: State, m: State, after: State, widths: seq<nat>)
    requires OrderOf(order, |processes|) && order != [] && Ready(s, widths)
    requires RestStays(processes, order[..|order| - 1], s, m, widths)
    requires Execute(processes[order[|order| - 1]], m) == Some(after) && Ready(after, widths)
    requires TouchesAlike(processes[order[|order| - 1]], s, m)
    ensures RestStays(processes, order, s, after, widths)
  {
    hide Execute;
    hide Touches;
    var shorter, last := order[..|order| - 1], processes[order[|order| - 1]];
    forall deferred, id, b |
      0 <= id < |widths| && 0 <= b < widths[id] && Unwritten(processes, order, s, deferred, id, b)
      ensures BitIs(StoreOf(after, deferred), id, b, StoreOf(s, deferred))
    {
      forall k | 0 <= k < |shorter|
        ensures !Touches(processes[shorter[k]], s, deferred, id, b)
      {
        assert shorter[k] == order[k];
      }
      assert Unwritten(processes, shorter, s, deferred, id, b);
      assert BitIs(StoreOf(m, deferred), id, b, StoreOf(s, deferred));
      assert SameTouch(last, s, m, deferred, id, b);
      UntouchedStays(last, m, deferred, id, b);
    }
  }

  lemma RunAlonePrefix(processes: seq<Statement>, order: seq<nat>, s: State)
    requires OrderOf(order, |processes|) && order != [] && AllRunAlone(processes, order, s)
    ensures AllRunAlone(processes, order[..|order| - 1], s)
  {
    hide Execute;
    var shorter := order[..|order| - 1];
    forall k | 0 <= k < |shorter|
      ensures Execute(processes[shorter[k]], s).Some?
    {
      assert shorter[k] == order[k];
    }
  }

  /** A bit that the last process writes ends as that process leaves it when run alone. */
  lemma LastWins(processes: seq<Statement>, order: seq<nat>, s: State, widths: seq<nat>, deferred: bool, id: nat, b: nat)
    requires Ready(s, widths) && NoCrossReads(processes, s) && OrderOf(order, |processes|) && order != []
    requires AllRunAlone(processes, order, s) && id < |widths| && b < widths[id]
    requires ExecuteAll(Pick(processes, order), s).Some?
    ensures AllRunAlone(processes, order[..|order| - 1], s)
    ensures ExecuteAll(Pick(processes, order[..|order| - 1]), s).Some?
    ensures
      var last := processes[order[|order| - 1]];
      var m := ExecuteAll(Pick(processes, order[..|order| - 1]), s).value;
      var after := ExecuteAll(Pick(processes, order), s).value;
      && (Touches(last, s, deferred, id, b) ==>
            BitIs(StoreOf(after, deferred), id, b, StoreOf(Execute(last, s).value, deferred)))
      && (!Touches(last, s, deferred, id, b) ==> BitIs(StoreOf(after, deferred), id, b, StoreOf(m, deferred)))
  {
    hide Execute;
    hide Touches;
    hide NoCrossReads;
    hide RestStays;
    var shorter, last := order[..|order| - 1], processes[order[|order| - 1]];
    RunAlonePrefix(processes, order, s);
    assert Pick(processes, order)[..|order| - 1] == Pick(processes, shorter);
    AnyOrderRuns(processes, shorter, s, widths);
    var m := ExecuteAll(Pick(processes, shorter), s).value;
    RestIsReady(processes, shorter, s, m, widths);
    LastAsAlone(processes, order, s, m, widths);
    assert SameTouch(last, s, m, deferred, id, b);
    if !Touches(last, m, deferred, id, b) {
      UntouchedStays(last, m, deferred, id, b);
    }
  }

  // ----- two orders -----

  /** Every bit is what any process that writes it makes of it when run alone; the others
      keep their value. */
  ghost predicate BitIsolated(processes: seq<Statement>, order: seq<nat>, deferred: bool, s: State, m: State, id: nat,
    b: nat)
    requires forall k :: 0 <= k < |order| ==> order[k] < |processes| && Execute(processes[order[k]], s).Some?
  {
    && (forall k :: 0 <= k < |order| && Touches(processes[order[k]], s, deferred, id, b) ==>
          BitIs(StoreOf(m, deferred), id, b, StoreOf(Execute(processes[order[k]], s).value, deferred)))
    && (Unwritten(processes, order, s, deferred, id, b) ==> BitIs(StoreOf(m, deferred), id, b, StoreOf(s, deferred)))
  }

  lemma {:induction false} AnyOrderIsolates(processes: seq<Statement>, order: seq<nat>, s: State, widths: seq<nat>,
    deferred: bool, id: nat, b: nat)
    requires Ready(s, widths) && NoCrossReads(processes, s) && NoConflict(processes, s, widths)
    requires OrderOf(order, |processes|) && AllRunAlone(processes, order, s) && id < |widths| && b < widths[id]
    ensures ExecuteAll(Pick(processes, order), s).Some?
    ensures BitIsolated(processes, order, deferred, s, ExecuteAll(Pick(processes, order), s).value, id, b)
    decreases |order|
  {
    hide Execute;
    hide Touches;
    hide NoCrossReads;
    AnyOrderRuns(processes, order, s, widths);
    if order != [] {
      var shorter := order[..|order| - 1];
      LastWins(processes, order, s, widths, deferred, id, b);
      AnyOrderIsolates(processes, shorter, s, widths, deferred, id, b);
      hide RestStays;
      var m, after := ExecuteAll(Pick(processes, shorter), s).value, ExecuteAll(Pick(processes, order), s).value;
      hide ExecuteAll;
      OneMoreIsolated(processes, order, deferred, s, m, after, widths, id, b);
    }
  }

  lemma OneMoreIsolated(processes: seq<Statement>, order: seq<nat>, deferred: bool, s: State, m: State, after: State,
    widths: seq<nat>, id: nat, b: nat)
    requires NoConflict(processes, s, widths) && OrderOf(order, |processes|) && order != []
    requires AllRunAlone(processes, order, s) && AllRunAlone(processes, order[..|order| - 1], s)
    requires id < |widths| && b < widths[id]
    requires BitIsolated(processes, order[..|order| - 1], deferred, s, m, id, b)
    requires
      var last := processes[order[|order| - 1]];
      && (Touches(last, s, deferred, id, b) ==>
            BitIs(StoreOf(after, deferred), id, b, StoreOf(Execute(last, s).value, deferred)))
      && (!Touches(last, s, deferred, id, b) ==> BitIs(StoreOf(after, deferred), id, b, StoreOf(m, deferred)))
    ensures BitIsolated(processes, order, deferred, s, after, id, b)
  {
    hide Execute;
    hide Touches;
    var shorter, last := order[..|order| - 1], processes[order[|order| - 1]];
    assert AgreesOnBit(processes, s, deferred, id, b);
    forall k | 0 <= k < |order| && Touches(processes[order[k]], s, deferred, id, b)
      ensures BitIs(StoreOf(after, deferred), id, b, StoreOf(Execute(processes[order[k]], s).value, deferred))
    {
      if !Touches(last, s, deferred, id, b) {
        assert k < |shorter| && shorter[k] == order[k];
      }
    }
    if Unwritten(processes, order, s, deferred, id, b) {
      forall k | 0 <= k < |shorter|
        ensures !Touches(processes[shorter[k]], s, deferred, id, b)
      {
        assert shorter[k] == order[k];
      }
      assert Unwritten(processes, shorter, s, deferred, id, b);
    }
  }

  ghost predicate SameMembers(a: seq<nat>, b: seq<nat>) {
    forall i: nat :: i in a <==> i in b
  }

  lemma SameBit(processes: seq<Statement>, a: seq<nat>, b: seq<nat>, deferred: bool, s: State, m: State, n: State, id: nat,
    k: nat)
    requires OrderOf(a, |processes|) && OrderOf(b, |processes|) && SameMembers(a, b)
    requires AllRunAlone(processes, a, s) && AllRunAlone(processes, b, s)
    requires BitIsolated(processes, a, deferred, s, m, id, k) && BitIsolated(processes, b, deferred, s, n, id, k)
    ensures BitIs(StoreOf(m, deferred), id, k, StoreOf(n, deferred))
  {
    hide Execute;
    hide Touches;
    if !Unwritten(processes, a, s, deferred, id, k) {
      var i :| 0 <= i < |a| && Touches(processes[a[i]], s, deferred, id, k);
      assert a[i] in b;
      var j :| 0 <= j < |b| && b[j] == a[i];
      assert Touches(processes[b[j]], s, deferred, id, k);
    } else {
      forall j | 0 <= j < |b|
        ensures !Touches(processes[b[j]], s, deferred, id, k)
      {
        assert b[j] in a;
        var i :| 0 <= i < |a| && a[i] == b[j];
        assert !Touches(processes[a[i]], s, deferred, id, k);
      }
      assert Unwritten(processes, b, s, deferred, id, k);
    }
  }

  lemma RunAlonePermuted(processes: seq<Statement>, a: seq<nat>, b: seq<nat>, s: State)
    requires OrderOf(a, |processes|) && OrderOf(b, |processes|) && SameMembers(a, b)
    ensures AllRunAlone(processes, a, s) ==> AllRunAlone(processes, b, s)
  {
    hide Execute;
    if AllRunAlone(processes, a, s) {
      forall k | 0 <= k < |b|
        ensures Execute(processes[b[k]], s).Some?
      {
        assert b[k] in a;
      }
    }
  }

  /** Without conflicts any two orders of the same processes have the same outcome. */
  lemma OrderDoesNotMatter(processes: seq<Statement>, a: seq<nat>, b: seq<nat>, s: State, widths: seq<nat>)
    requires Ready(s, widths) && NoCrossReads(processes, s) && OrderOf(a, |processes|) && OrderOf(b, |processes|)
    requires SameMembers(a, b) && (AllRunAlone(processes, a, s) ==> NoConflict(processes, s, widths))
    ensures ExecuteAll(Pick(processes, a), s) == ExecuteAll(Pick(processes, b), s)
  {
    hide Execute;
    hide ExecuteAll;
    hide Touches;
    hide NoCrossReads;
    hide NoConflict;
    hide BitIsolated;
    AnyOrderRuns(processes, a, s, widths);
    AnyOrderRuns(processes, b, s, widths);
    RunAlonePermuted(processes, a, b, s);
    RunAlonePermuted(processes, b, a, s);
    if AllRunAlone(processes, a, s) {
      var m, n := ExecuteAll(Pick(processes, a), s).value, ExecuteAll(Pick(processes, b), s).value;
      RestIsReady(processes, a, s, m, widths);
      RestIsReady(processes, b, s, n, widths);
      hide RestStays;
      forall deferred, id, k | 0 <= id < |widths| && 0 <= k < widths[id]
        ensures BitIs(StoreOf(m, deferred), id, k, StoreOf(n, deferred))
      {
        AnyOrderIsolates(processes, a, s, widths, deferred, id, k);
        AnyOrderIsolates(processes, b, s, widths, deferred, id, k);
        SameBit(processes, a, b, deferred, s, m, n, id, k);
      }
      SameStores(m, n, widths);
    }
  }

  lemma SameStores(m: State, n: State, widths: seq<nat>)
    requires Ready(m, widths) && Ready(n, widths)
    requires forall deferred, id, k :: 0 <= id < |widths| && 0 <= k < widths[id] ==>
      BitIs(StoreOf(m, deferred), id, k, StoreOf(n, deferred))
    ensures m == n
  {
    forall id, k | 0 <= id < |widths| && 0 <= k < widths[id]
      ensures BitIs(m.env, id, k, n.env) && BitIs(m.pending, id, k, n.pending)
    {
      assert BitIs(StoreOf(m, false), id, k, StoreOf(n, false)) && BitIs(StoreOf(m, true), id, k, StoreOf(n, true));
    }
    SameStore(m.env, n.env, widths);
    SameStore(m.pending, n.pending, widths);
  }

  lemma SameStore(a: Store, b: Store, widths: seq<nat>)
    requires Shaped(a, widths) && Shaped(b, widths)
    requires forall id, k :: 0 <= id < |widths| && 0 <= k < widths[id] ==> BitIs(a, id, k, b)
    ensures a == b
  {
    forall id | 0 <= id < |widths|
      ensures a[id] == b[id]
    {
      forall k | 0 <= k < widths[id]
        ensures a[id][k] == b[id][k]
      {
        assert BitIs(a, id, k, b);
      }
    }
  }

  // ----- exactly when orders agree -----

  /** Every process, process `i` last. */
  function WithLast(n: nat, i: nat): (r: seq<nat>)
    requires i < n
    ensures |r| == n && r[n - 1] == i
  {
    seq(n, k requires 0 <= k < n => if k == n - 1 then i else if k < i then k else k + 1)
  }

  lemma WithLastComplete(n: nat, i: nat)
    requires i < n
    ensures CompleteOrder(WithLast(n, i), n)
  {
    var order := WithLast(n, i);
    forall k: nat | k < n
      ensures k in order
    {
      if k == i {
        assert order[n - 1] == k;
      } else if k < i {
        assert order[k] == k;
      } else {
        assert order[k - 1] == k;
      }
    }
  }

  lemma CountingComplete(n: nat)
    ensures CompleteOrder(Counting(n), n)
  {
    CountingMembers(n);
  }

  lemma CompleteMembers(a: seq<nat>, b: seq<nat>, n: nat)
    requires CompleteOrder(a, n) && CompleteOrder(b, n)
    ensures SameMembers(a, b)
  {
    forall i: nat
      ensures i in a <==> i in b
    {
      MemberBelow(a, n, i);
      MemberBelow(b, n, i);
    }
  }

  lemma MemberBelow(a: seq<nat>, n: nat, i: nat)
    requires CompleteOrder(a, n)
    ensures i in a <==> i < n
  {
  }

  lemma PickAll(processes: seq<Statement>)
    ensures Pick(processes, Counting(|processes|)) == processes
  {
  }

  ghost predicate OrdersAgree(processes: seq<Statement>, s: State) {
    forall order :: CompleteOrder(order, |processes|) ==> ExecuteAll(Pick(processes, order), s) == ExecuteAll(processes, s)
  }

  ghost predicate EachRunsAlone(processes: seq<Statement>, s: State) {
    forall i :: 0 <= i < |processes| ==> Execute(processes[i], s).Some?
  }

  lemma EachIsAll(processes: seq<Statement>, order: seq<nat>, s: State)
    requires CompleteOrder(order, |processes|)
    ensures AllRunAlone(processes, order, s) <==> EachRunsAlone(processes, s)
  {
    hide Execute;
    if AllRunAlone(processes, order, s) {
      forall i | 0 <= i < |processes|
        ensures Execute(processes[i], s).Some?
      {
        assert i in order;
      }
    }
  }

  /** If two processes write different values to a bit, whichever comes last decides. */
  lemma ConflictMatters(processes: seq<Statement>, s: State, widths: seq<nat>, deferred: bool, id: nat, b: nat)
    requires Ready(s, widths) && NoCrossReads(processes, s) && EachRunsAlone(processes, s)
    requires id < |widths| && b < widths[id] && !AgreesOnBit(processes, s, deferred, id, b)
    ensures !OrdersAgree(processes, s)
  {
    hide Execute;
    hide ExecuteAll;
    hide Touches;
    hide NoCrossReads;
    hide CompleteOrder;
    hide RestStays;
    var n := |processes|;
    var i, j :|
      0 <= i < n && 0 <= j < n && Touches(processes[i], s, deferred, id, b) && Touches(processes[j], s, deferred, id, b)
      && !BitIs(StoreOf(Execute(processes[i], s).value, deferred), id, b,
        StoreOf(Execute(processes[j], s).value, deferred));
    LastDecides(processes, s, widths, deferred, id, b, i);
    LastDecides(processes, s, widths, deferred, id, b, j);
    var x := ExecuteAll(Pick(processes, WithLast(n, i)), s);
    var y := ExecuteAll(Pick(processes, WithLast(n, j)), s);
    assert x != y;
  }

  lemma LastDecides(processes: seq<Statement>, s: State, widths: seq<nat>, deferred: bool, id: nat, b: nat, i: nat)
    requires Ready(s, widths) && NoCrossReads(processes, s) && EachRunsAlone(processes, s)
    requires id < |widths| && b < widths[id] && i < |processes| && Touches(processes[i], s, deferred, id, b)
    ensures CompleteOrder(WithLast(|processes|, i), |processes|)
    ensures
      var after := ExecuteAll(Pick(processes, WithLast(|processes|, i)), s);
      after.Some? && BitIs(StoreOf(after.value, deferred), id, b, StoreOf(Execute(processes[i], s).value, deferred))
  {
    hide Execute;
    hide ExecuteAll;
    hide Touches;
    hide NoCrossReads;
    var order := WithLast(|processes|, i);
    WithLastComplete(|processes|, i);
    EachIsAll(processes, order, s);
    AnyOrderRuns(processes, order, s, widths);
    LastWins(processes, order, s, widths, deferred, id, b);
  }

  /** All orders have the same outcome exactly when some process fails alone, or no two
      write different values to one bit. */
  lemma OrdersAgreeExactly(processes: seq<Statement>, s: State, widths: seq<nat>)
    requires Ready(s, widths) && NoCrossReads(processes, s)
    ensures OrdersAgree(processes, s) <==> (EachRunsAlone(processes, s) ==> NoConflict(processes, s, widths))
  {
    hide Execute;
    hide ExecuteAll;
    hide Touches;
    hide NoCrossReads;
    hide AgreesOnBit;
    var written := Counting(|processes|);
    CountingComplete(|processes|);
    PickAll(processes);
    if EachRunsAlone(processes, s) && !NoConflict(processes, s, widths) {
      var deferred, id, b :| 0 <= id < |widths| && 0 <= b < widths[id] && !AgreesOnBit(processes, s, deferred, id, b);
      ConflictMatters(processes, s, widths, deferred, id, b);
    } else {
      forall order | CompleteOrder(order, |processes|)
        ensures ExecuteAll(Pick(processes, order), s) == ExecuteAll(processes, s)
      {
        EachIsAll(processes, order, s);
        CompleteMembers(order, written, |processes|);
        OrderDoesNotMatter(processes, order, written, s, widths);
      }
    }
  }

  // ----- accepted designs -----

  /** Footprints that cover the writes of an accepted design rule out every conflict. */
  lemma CoveredHasNoConflict(design: Design, s: State)
    requires Accepted(design) && Ready(s, design.widths)
    requires forall i :: 0 <= i < |design.sequential| ==>
      StatementFits(design.sequential[i], design.widths) && StaysInRange(design.sequential[i], s, design.widths)
    ensures NoCrossReads(design.sequential, s) && NoConflict(design.sequential, s, design.widths)
  {
    hide Execute;
    hide Touches;
    hide Reads;
    hide FootprintOf;
    hide StaysInRange;
    hide StatementFits;
    hide Accepted;
    hide Independent;
    var processes, widths := design.sequential, design.widths;
    forall i, j, id, b |
      0 <= i < |processes| && 0 <= j < |processes| && i != j && id in Reads(processes[i])
      ensures !Touches(processes[j], s, false, id, b)
    {
      if Touches(processes[j], s, false, id, b) {
        AcceptedIndependent(design, j, i);
        TouchedExists(processes[j], s, false, id, b);
        TouchedInFootprint(processes[j], s, widths, false, id, b);
        IndependentReads(processes[j], processes[i], widths, id);
      }
    }
    forall deferred, id, b | 0 <= id < |widths| && 0 <= b < widths[id]
      ensures AgreesOnBit(processes, s, deferred, id, b)
    {
      forall i, j |
        0 <= i < |processes| && 0 <= j < |processes| && Touches(processes[i], s, deferred, id, b)
        && Touches(processes[j], s, deferred, id, b) && Execute(processes[i], s).Some? && Execute(processes[j], s).Some?
        ensures i == j
        ensures BitIs(StoreOf(Execute(processes[i], s).value, deferred), id, b,
          StoreOf(Execute(processes[j], s).value, deferred))
      {
        if i != j {
          AcceptedIndependent(design, i, j);
          TouchedInFootprint(processes[i], s, widths, deferred, id, b);
          TouchedInFootprint(processes[j], s, widths, deferred, id, b);
          IndependentBits(processes[i], processes[j], widths, deferred, Bit(id, b));
        }
        ExecuteKeepsShape(processes[i], s);
      }
    }
  }

  lemma IndependentReads(p: Statement, q: Statement, widths: seq<nat>, id: nat)
    requires Independent(p, q, widths) && id in Reads(q)
    ensures forall b :: Bit(id, b) !in FootprintOf(p, false, widths)
  {
    hide FootprintOf;
    hide Reads;
    forall b
      ensures Bit(id, b) !in FootprintOf(p, false, widths)
    {
      var bit := Bit(id, b);
      assert bit in FootprintOf(p, false, widths) ==> bit.id !in Reads(q);
    }
  }

  lemma IndependentBits(p: Statement, q: Statement, widths: seq<nat>, deferred: bool, bit: Bit)
    requires Independent(p, q, widths)
    ensures !(bit in FootprintOf(p, deferred, widths) && bit in FootprintOf(q, deferred, widths))
  {
    hide FootprintOf;
    hide Reads;
  }

  /** Race freedom: an accepted design runs its clocked processes in any order with the
      same environment and pending values from every state in which parts stay inside
      what contains them. */
  lemma AcceptedRaceFree(design: Design, s: State)
    requires Accepted(design) && Ready(s, design.widths)
    requires forall i :: 0 <= i < |design.sequential| ==>
      StatementFits(design.sequential[i], design.widths) && StaysInRange(design.sequential[i], s, design.widths)
    ensures OrdersAgree(design.sequential, s)
  {
    hide Accepted;
    hide OrdersAgree;
    hide NoConflict;
    hide NoCrossReads;
    hide StaysInRange;
    CoveredHasNoConflict(design, s);
    OrdersAgreeExactly(design.sequential, s, design.widths);
  }

  /** What a designer can check beforehand: no offset can leave what contains it. Then
      no state whatever has a race. */
  lemma InsideIsRaceFree(design: Design, s: State)
    requires Accepted(design) && Ready(s, design.widths)
    requires forall i :: 0 <= i < |design.sequential| ==>
      StatementFits(design.sequential[i], design.widths) && StatementInside(design.sequential[i], design.widths)
    ensures OrdersAgree(design.sequential, s)
  {
    hide Accepted;
    hide OrdersAgree;
    hide StatementInside;
    hide StaysInRange;
    forall i | 0 <= i < |design.sequential|
      ensures StaysInRange(design.sequential[i], s, design.widths)
    {
      InsideStaysInRange(design.sequential[i], s, design.widths);
    }
    AcceptedRaceFree(design, s);
  }

  /** The processes are statements that the parser builds: it refuses parts of parts, parts
      wider than what they are taken from, and constant parts out of range. */
  predicate ParsedDesign(design: Design) {
    forall i :: 0 <= i < |design.sequential| ==> ParsedStatement(design.sequential[i], design.widths)
  }

  lemma ParsedReads(design: Design, s: State)
    requires Accepted(design) && ParsedDesign(design) && Ready(s, design.widths)
    ensures NoCrossReads(design.sequential, s)
  {
    hide Accepted;
    hide Touches;
    hide Reads;
    hide ParsedStatement;
    var processes := design.sequential;
    forall i, j, id, b |
      0 <= i < |processes| && 0 <= j < |processes| && i != j && id in Reads(processes[i])
      ensures !Touches(processes[j], s, false, id, b)
    {
      if Touches(processes[j], s, false, id, b) {
        ForeignBlocking(design, s, i, j, id, b);
      }
    }
  }

  /** No other process reads what a process writes at once. */
  lemma ForeignBlocking(design: Design, s: State, i: nat, j: nat, id: nat, b: nat)
    requires Accepted(design) && ParsedDesign(design) && Ready(s, design.widths)
    requires i < |design.sequential| && j < |design.sequential| && i != j
    requires Touches(design.sequential[j], s, false, id, b)
    ensures id !in Reads(design.sequential[i])
  {
    hide Touches;
    hide Reads;
    hide WritesOf;
    hide WritesOfAll;
    hide FootprintOf;
    hide ParsedStatement;
    TouchedIsWritten(design.sequential[j], s, false, id, b);
    WritesMember(design.sequential, j, false);
    var bit := TouchedHasFootprint(design.sequential[j], s, design.widths, false, id, b);
    assert bit in ProcessBits(design.sequential[j], design.widths);
  }

  /** For every accepted design that the parser can build, and every state: the orders
      disagree exactly when each process runs alone and two of them write different values
      to one bit. */
  lemma AcceptedRacesExactly(design: Design, s: State)
    requires Accepted(design) && ParsedDesign(design) && Ready(s, design.widths)
    ensures !OrdersAgree(design.sequential, s) <==>
      EachRunsAlone(design.sequential, s) && !NoConflict(design.sequential, s, design.widths)
  {
    hide Accepted;
    hide ParsedStatement;
    hide OrdersAgree;
    hide NoConflict;
    hide NoCrossReads;
    ParsedReads(design, s);
    OrdersAgreeExactly(design.sequential, s, design.widths);
  }

  /** ... and then a write of one of them has left what contains it. */
  lemma ConflictIsStray(design: Design, s: State)
    requires Accepted(design) && Ready(s, design.widths)
    requires forall i :: 0 <= i < |design.sequential| ==> StatementFits(design.sequential[i], design.widths)
    requires !NoConflict(design.sequential, s, design.widths)
    ensures exists i :: 0 <= i < |design.sequential| && !StaysInRange(design.sequential[i], s, design.widths)
  {
    hide Accepted;
    hide NoConflict;
    hide NoCrossReads;
    hide StaysInRange;
    if forall i :: 0 <= i < |design.sequential| ==> StaysInRange(design.sequential[i], s, design.widths) {
      CoveredHasNoConflict(design, s);
    }
  }

  // ----- a race that the analysis accepts -----

  const ELEMENTS := Layout(Range(0, 1), 2)

  /** Writes one bit of the first element at a dynamic offset. */
  function StrayWriter(): Statement {
    Assign(Nonblocking, PartOf(ElementOf(Whole(0), Literal(0, 1), ELEMENTS), Read(1, 2), 1), Literal(1, 1))
  }

  /** Clears the second element. */
  function ElementWriter(): Statement {
    Assign(Nonblocking, ElementOf(Whole(0), Literal(1, 1), ELEMENTS), Literal(0, 2))
  }

  function StrayDesign(): Design {
    Design([4, 2], 2, {}, {}, {}, {}, {}, [], [], [], [StrayWriter(), ElementWriter()])
  }

  /** The offset is two, one past the first element. */
  function StrayState(): State {
    State([Zeros(4), [false, true]], [Zeros(4), [false, true]])
  }

  lemma StrayRegions()
    ensures TargetRegions(StrayWriter().target, [4, 2]) == {Region(0, 1), Region(1, 1)}
    ensures TargetRegions(ElementWriter().target, [4, 2]) == {Region(2, 2)}
  {
    hide Pow2;
    var widths := [4, 2];
    assert TargetRegions(Whole(0), widths) == {Region(0, 4)};
    assert ELEMENTS.indices.Length() == 2 && ELEMENTS.indices.IndexOf(0) == 0 && ELEMENTS.indices.IndexOf(1) == 1;
    var first := ElementOf(Whole(0), Literal(0, 1), ELEMENTS);
    assert TargetRegions(first, widths) == {Region(0, 2)} by {
      assert Region(0, 4).Element(0, 2) == Region(0, 2);
    }
    assert Region(0, 2).Sub(0, 1) == Region(0, 1) && Region(0, 2).Sub(1, 1) == Region(1, 1);
    assert Region(0, 4).Element(1, 2) == Region(2, 2);
  }

  lemma StraySets()
    ensures Reads(StrayWriter()) == {0, 1} && Reads(ElementWriter()) == {0}
    ensures WritesAll(StrayDesign().sequential) == {0} && WritesOfAll(StrayDesign().sequential, false) == {}
    ensures WritesOf(StrayWriter(), false) == {} && WritesOf(ElementWriter(), false) == {}
  {
    var processes := StrayDesign().sequential;
    assert processes[..1] == [StrayWriter()] && processes[..1][..0] == [];
    assert WritesAll(processes[..1]) == {0} && WritesOfAll(processes[..1], false) == {};
  }

  lemma StrayAccepted()
    ensures Accepted(StrayDesign())
  {
    var design := StrayDesign();
    StraySets();
    StrayRegions();
    hide Reads;
    hide Writes;
    hide TargetRegions;
    var a, b := ProcessBits(StrayWriter(), design.widths), ProcessBits(ElementWriter(), design.widths);
    assert forall bit :: bit in a ==> bit.index < 2;
    assert forall bit :: bit in b ==> bit.index >= 2;
    assert WritesAll([]) == {} && WritesOfAll([], true) == {};
    hide ProcessBits;
    hide WritesOf;
    hide WritesAll;
    hide WritesOfAll;
    assert OwnersDistinct(design.sequential, design.widths);
  }

  lemma StrayParsed()
    ensures ParsedDesign(StrayDesign())
  {
    hide Pow2;
    assert ParsedStatement(StrayWriter(), [4, 2]) && ParsedStatement(ElementWriter(), [4, 2]);
  }

  lemma StrayPlaces()
    ensures Locate(StrayWriter().target, StrayState().env) == Some(Place(0, 2, 1))
    ensures Locate(ElementWriter().target, StrayState().env) == Some(Place(0, 2, 2))
  {
    var env := StrayState().env;
    OffsetTwo(env);
    SmallWords(env);
    ElementPlaces(ELEMENTS);
    StrayStart();
    hide *;
    WholePlaceHere(env);
    LocateElement(Whole(0), Literal(0, 1), env, Place(0, 0, 4), 0, 0);
    LocateElement(Whole(0), Literal(1, 1), env, Place(0, 0, 4), 1, 2);
    LocatePart(ElementOf(Whole(0), Literal(0, 1), ELEMENTS), Read(1, 2), 1, env, Place(0, 0, 2), 2);
    StrayTargets();
  }

  lemma StrayTargets()
    ensures StrayWriter() ==
      Assign(Nonblocking, PartOf(ElementOf(Whole(0), Literal(0, 1), ELEMENTS), Read(1, 2), 1), Literal(1, 1))
    ensures ElementWriter() == Assign(Nonblocking, ElementOf(Whole(0), Literal(1, 1), ELEMENTS), Literal(0, 2))
  {
  }

  lemma ElementPlaces(elements: Layout)
    requires elements.indices.left == 0 && elements.indices.right == 1 && elements.elementWidth == 2
    ensures ArrayOffset(0, elements.indices, 2) == Some(0) && ArrayOffset(1, elements.indices, 2) == Some(2)
  {
    hide *;
    OffsetUpwards(0, elements.indices, 2);
    OffsetUpwards(1, elements.indices, 2);
  }

  lemma StrayStart()
    ensures StrayState().env == StrayState().pending == [Zeros(4), [false, true]]
    ensures |StrayState().env| == 2 && |StrayState().env[0]| == 4
  {
  }

  lemma OffsetUpwards(index: nat, indices: Range, width: nat)
    requires indices.left <= index <= indices.right
    ensures ArrayOffset(index, indices, width) == Some((index - indices.left) * width)
  {
  }

  lemma WholePlaceHere(env: Store)
    requires |env| == 2 && |env[0]| == 4
    ensures Locate(Whole(0), env) == Some(Place(0, 0, 4))
  {
  }

  lemma LocateElement(base: Target, index: Expression, env: Store, place: Place, i: nat, o: nat)
    requires Locate(base, env) == Some(place) && UsizeOf(index, env) == Some(i)
    requires ArrayOffset(i, ELEMENTS.indices, 2) == Some(o) && place.offset + o < Pow2(Runtime.USIZE_BITS)
    ensures Locate(ElementOf(base, index, ELEMENTS), env) == Some(Place(place.root, place.offset + o, 2))
  {
    hide UsizeOf;
    hide ArrayOffset;
    hide Pow2;
  }

  lemma LocatePart(base: Target, offset: Expression, width: nat, env: Store, place: Place, o: nat)
    requires Locate(base, env) == Some(place) && UsizeOf(offset, env) == Some(o)
    requires place.offset + o < Pow2(Runtime.USIZE_BITS)
    ensures Locate(PartOf(base, offset, width), env) == Some(Place(place.root, place.offset + o, width))
  {
    hide UsizeOf;
    hide Pow2;
  }

  lemma SmallWords(env: Store)
    ensures Pow2(Runtime.USIZE_BITS) > 4
    ensures UsizeOf(Literal(0, 1), env) == Some(0) && UsizeOf(Literal(1, 1), env) == Some(1)
  {
    Pow2Monotone(3, Runtime.USIZE_BITS);
    assert Pow2(3) == 8;
    hide Pow2;
    hide ValueOf;
  }

  lemma StrayValues()
    ensures ValueOf(Literal(1, 1), StrayState().env) == Some([true])
    ensures ValueOf(Literal(0, 2), StrayState().env) == Some([false, false])
  {
    assert FromInt(1, 1) == [true] && FromInt(0, 2) == [false, false];
  }

  lemma StrayBits()
    ensures Written(Zeros(4), StrayWriter().target, Place(0, 2, 1), [true]) == [false, false, true, false]
    ensures Written(Zeros(4), ElementWriter().target, Place(0, 2, 2), [false, false]) == Zeros(4)
  {
  }

  lemma DeferredRuns(target: Target, value: Expression, s: State, place: Place, v: Bits)
    requires Locate(target, s.env) == Some(place) && ValueOf(value, s.env) == Some(v)
    requires place.root < |s.env| == |s.pending|
    ensures Execute(Assign(Nonblocking, target, value), s) ==
      Some(s.(pending := s.pending[place.root := Written(s.pending[place.root], target, place, v)]))
  {
    hide Locate;
    hide ValueOf;
    hide Written;
  }

  /** The process runs, and leaves these deferred bits of the first variable. */
  predicate Defers(process: Statement, s: State, bits: Bits) {
    && Execute(process, s).Some? && |Execute(process, s).value.pending| > 0
    && Execute(process, s).value.pending[0] == bits
  }

  lemma StrayRuns()
    ensures Defers(StrayWriter(), StrayState(), [false, false, true, false])
    ensures Defers(ElementWriter(), StrayState(), Zeros(4))
  {
    StrayPlaces();
    StrayValues();
    StrayBits();
    StrayTargets();
    StrayStart();
    hide *;
    DeferredBits(StrayWriter(), StrayState(), Place(0, 2, 1), [true], [false, false, true, false]);
    DeferredBits(ElementWriter(), StrayState(), Place(0, 2, 2), [false, false], Zeros(4));
  }

  lemma DeferredBits(process: Statement, s: State, place: Place, v: Bits, bits: Bits)
    requires process.Assign? && process.kind == Nonblocking && place.root == 0
    requires Locate(process.target, s.env) == Some(place) && ValueOf(process.value, s.env) == Some(v)
    requires 0 < |s.env| == |s.pending| && Written(s.pending[0], process.target, place, v) == bits
    ensures Defers(process, s, bits)
  {
    DeferredRuns(process.target, process.value, s, place, v);
    hide Locate;
    hide ValueOf;
    hide Written;
    hide Execute;
  }

  lemma StrayTouches()
    ensures Touches(StrayWriter(), StrayState(), true, 0, 2) && Touches(ElementWriter(), StrayState(), true, 0, 2)
  {
    StrayPlaces();
    StrayTargets();
    StrayStart();
    hide StrayWriter;
    hide ElementWriter;
    hide StrayState;
    hide Locate;
    hide Zeros;
  }

  lemma Conflicts(processes: seq<Statement>, s: State, widths: seq<nat>, id: nat, b: nat, one: Bits, other: Bits)
    requires |processes| == 2 && id == 0 < |widths| && b < widths[0]
    requires Touches(processes[0], s, true, id, b) && Touches(processes[1], s, true, id, b)
    requires Defers(processes[0], s, one) && Defers(processes[1], s, other)
    requires b < |one| && b < |other| && one[b] != other[b]
    ensures !NoConflict(processes, s, widths)
  {
    hide Touches;
    hide Execute;
    assert !AgreesOnBit(processes, s, true, id, b);
  }

  /** Both processes run alone. */
  lemma StrayRunsAlone(processes: seq<Statement>, s: State, one: Bits, other: Bits)
    requires |processes| == 2 && Defers(processes[0], s, one) && Defers(processes[1], s, other)
    ensures EachRunsAlone(processes, s)
  {
    hide Execute;
  }

  /** The analysis accepts a design whose outcome depends on the order of its processes. */
  lemma StrayRace()
    ensures Accepted(StrayDesign()) && ParsedDesign(StrayDesign()) && Ready(StrayState(), [4, 2])
    ensures !OrdersAgree(StrayDesign().sequential, StrayState())
  {
    var processes, s := StrayDesign().sequential, StrayState();
    assert processes == [StrayWriter(), ElementWriter()] && StrayDesign().widths == [4, 2];
    StrayReady();
    StrayAccepted();
    StrayParsed();
    StrayRuns();
    StrayTouches();
    var one, other := [false, false, true, false], Zeros(4);
    assert one[2] != other[2];
    hide *;
    Conflicts(processes, s, [4, 2], 0, 2, one, other);
    StrayRunsAlone(processes, s, one, other);
    AcceptedRacesExactly(StrayDesign(), s);
  }

  lemma StrayReady()
    ensures Ready(StrayState(), [4, 2])
  {
  }
}
