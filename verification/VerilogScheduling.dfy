/** The order in which combinational statements run, and why one pass settles them. */
module VerilogScheduling {
  import opened Words
  import opened Fsm
  import opened VerilogAst
  import opened VerilogAnalysis
  import opened VerilogSimulator
  import opened VerilogTargets
  import opened VerilogInterference
  import Runtime = VerilogRuntime

  // ----- the order -----

  /** The first statement whose reads are all available. */
  function FirstReady(pending: seq<Statement>, available: set<nat>): (r: Option<nat>)
    ensures r.Some? ==> r.value < |pending| && Reads(pending[r.value]) <= available
    ensures r.Some? ==> forall k :: 0 <= k < r.value ==> !(Reads(pending[k]) <= available)
    ensures r == None ==> forall k :: 0 <= k < |pending| ==> !(Reads(pending[k]) <= available)
  {
    if pending == [] then None
    else if Reads(pending[0]) <= available then Some(0)
    else
      match FirstReady(pending[1..], available)
      case None => None
      case Some(k) => Some(k + 1)
  }

  function Without<T>(list: seq<T>, i: nat): seq<T>
    requires i < |list|
  {
    list[..i] + list[i + 1..]
  }

  /** The statements in the order they become ready, and those that never do. */
  function GreedyOrder(pending: seq<Statement>, available: set<nat>): (seq<Statement>, seq<Statement>)
    decreases |pending|
  {
    match FirstReady(pending, available)
    case None => ([], pending)
    case Some(i) =>
      var (ordered, stuck) := GreedyOrder(Without(pending, i), available + Writes(pending[i]));
      ([pending[i]] + ordered, stuck)
  }

  /** Variables that no combinational statement writes. */
  function Undriven(combinational: seq<Statement>, variables: nat): set<nat> {
    set id: nat | 0 <= id < variables && id !in WritesAll(combinational)
  }

  /** Moves ready statements to the order one at a time. Statements that never become
      ready follow at the end, and are iterated to a fixed point. */
  method OrderCombinational(combinational: seq<Statement>, variables: nat)
    returns (ordered: seq<Statement>, iterate: bool)
    ensures
      var (ready, stuck) := GreedyOrder(combinational, Undriven(combinational, variables));
      ordered == ready + stuck && iterate == (stuck != [])
  {
    hide Reads;
    hide Writes;
    hide WritesAll;
    var available := Undriven(combinational, variables);
    var pending := combinational;
    ordered := [];
    ghost var (ready, stuck) := GreedyOrder(combinational, available);
    assert [] + ready == ready;
    while pending != []
      invariant ordered + GreedyOrder(pending, available).0 == ready
      invariant GreedyOrder(pending, available).1 == stuck
      decreases |pending|
    {
      var index := FirstReady(pending, available);
      if index == None {
        assert ordered + [] == ordered;
        return ordered + pending, true;
      }
      var statement := pending[index.value];
      ghost var rest := GreedyOrder(Without(pending, index.value), available + Writes(statement)).0;
      assert ordered + ([statement] + rest) == ordered + [statement] + rest;
      pending := Without(pending, index.value);
      available := available + Writes(statement);
      ordered := ordered + [statement];
    }
    assert ordered + [] == ordered;
    iterate := false;
  }

  /** Every read is available before the statement or written by an earlier one. */
  ghost predicate ReadsReady(ordered: seq<Statement>, available: set<nat>) {
    forall k :: 0 <= k < |ordered| ==> Reads(ordered[k]) <= available + WritesAll(ordered[..k])
  }

  lemma {:induction false} GreedyOrderIsPermutation(pending: seq<Statement>, available: set<nat>)
    ensures var (ordered, stuck) := GreedyOrder(pending, available);
      multiset(ordered) + multiset(stuck) == multiset(pending)
    decreases |pending|
  {
    hide Reads;
    hide Writes;
    match FirstReady(pending, available) {
      case None =>
      case Some(i) =>
        GreedyOrderIsPermutation(Without(pending, i), available + Writes(pending[i]));
        assert pending == pending[..i] + [pending[i]] + pending[i + 1..];
        assert multiset(pending) == multiset(Without(pending, i)) + multiset{pending[i]};
    }
  }

  lemma {:induction false} WritesAllCons(first: Statement, rest: seq<Statement>)
    ensures WritesAll([first] + rest) == Writes(first) + WritesAll(rest)
  {
    hide Writes;
    if rest == [] {
      assert [first] + rest == [first] && [first][..0] == [];
    } else {
      var list := [first] + rest;
      assert list[..|list| - 1] == [first] + rest[..|rest| - 1];
      WritesAllCons(first, rest[..|rest| - 1]);
    }
  }

  lemma {:induction false} GreedyOrderReads(pending: seq<Statement>, available: set<nat>)
    ensures ReadsReady(GreedyOrder(pending, available).0, available)
    decreases |pending|
  {
    hide Reads;
    hide Writes;
    match FirstReady(pending, available) {
      case None =>
      case Some(i) =>
        var rest := GreedyOrder(Without(pending, i), available + Writes(pending[i])).0;
        GreedyOrderReads(Without(pending, i), available + Writes(pending[i]));
        var ordered := [pending[i]] + rest;
        forall k | 0 <= k < |ordered|
          ensures Reads(ordered[k]) <= available + WritesAll(ordered[..k])
        {
          if k > 0 {
            assert ordered[..k] == [pending[i]] + rest[..k - 1];
            WritesAllCons(pending[i], rest[..k - 1]);
            ghost var j := k - 1;
            assert Reads(rest[j]) <= available + Writes(pending[i]) + WritesAll(rest[..j]);
          }
        }
    }
  }

  /** Two schedulers that start with the same available variables, as far as the
      statements read them, choose the same order. */
  lemma {:induction false} OrdersAgree(pending: seq<Statement>, a: set<nat>, b: set<nat>)
    requires a <= b
    requires GreedyOrder(pending, a).1 == []
    requires forall id :: id in b && id !in a ==> id !in WritesAll(pending)
    ensures GreedyOrder(pending, b) == GreedyOrder(pending, a)
    decreases |pending|
  {
    hide Reads;
    hide Writes;
    if pending != [] {
      SameReady(pending, a, b);
      var i := FirstReady(pending, a).value;
      assert pending == pending[..i] + [pending[i]] + pending[i + 1..];
      WritesWithout(pending, i);
      OrdersAgree(Without(pending, i), a + Writes(pending[i]), b + Writes(pending[i]));
    }
  }

  lemma {:induction false} WritesAllAppend(a: seq<Statement>, b: seq<Statement>)
    ensures WritesAll(a + b) == WritesAll(a) + WritesAll(b)
  {
    hide Writes;
    if b == [] {
      assert a + b == a;
    } else {
      assert (a + b)[..|a + b| - 1] == a + b[..|b| - 1];
      WritesAllAppend(a, b[..|b| - 1]);
    }
  }

  lemma WritesWithout(pending: seq<Statement>, i: nat)
    requires i < |pending|
    ensures WritesAll(pending) == WritesAll(Without(pending, i)) + Writes(pending[i])
  {
    hide Writes;
    hide WritesAll;
    var head, tail := pending[..i], pending[i + 1..];
    assert pending == head + ([pending[i]] + tail);
    WritesAllAppend(head, [pending[i]] + tail);
    WritesAllCons(pending[i], tail);
    WritesAllAppend(head, tail);
  }

  /** Reads of a schedulable list are available or written by the list. */
  lemma {:induction false} ReadsResolved(pending: seq<Statement>, available: set<nat>, k: nat)
    requires GreedyOrder(pending, available).1 == [] && k < |pending|
    ensures Reads(pending[k]) <= available + WritesAll(pending)
    decreases |pending|
  {
    hide Reads;
    hide Writes;
    var i := FirstReady(pending, available).value;
    if k != i {
      var rest := Without(pending, i);
      var j := if k < i then k else k - 1;
      assert rest[j] == pending[k];
      ReadsResolved(rest, available + Writes(pending[i]), j);
      WritesWithout(pending, i);
    }
  }

  lemma SameReady(pending: seq<Statement>, a: set<nat>, b: set<nat>)
    requires a <= b && pending != [] && GreedyOrder(pending, a).1 == []
    requires forall id :: id in b && id !in a ==> id !in WritesAll(pending)
    ensures FirstReady(pending, a).Some? && FirstReady(pending, b) == FirstReady(pending, a)
  {
    hide Reads;
    hide Writes;
    forall k | 0 <= k < |pending|
      ensures Reads(pending[k]) <= b ==> Reads(pending[k]) <= a
    {
      ReadsResolved(pending, a, k);
    }
  }

  // ----- frames -----

  /** A statement leaves every variable it does not write alone. */
  lemma {:induction false} WritesFrame(statement: Statement, state: State, id: nat)
    requires Execute(statement, state).Some? && id < |state.env|
    ensures |Execute(statement, state).value.env| == |state.env|
    ensures id !in Writes(statement) ==> Execute(statement, state).value.env[id] == state.env[id]
    decreases statement
  {
    hide ValueOf;
    hide Locate;
    match statement {
      case Block(statements) => WritesFrameAll(statements, state, id);
      case Assign(_, target, _) => LocateRoot(target, state.env);
      case If(condition, thenStatements, elseStatements) =>
        if Runtime.Truthy(ValueOf(condition, state.env).value) {
          WritesFrameAll(thenStatements, state, id);
        } else {
          WritesFrameAll(elseStatements, state, id);
        }
    }
  }

  lemma {:induction false} WritesFrameAll(statements: seq<Statement>, state: State, id: nat)
    requires ExecuteAll(statements, state).Some? && id < |state.env|
    ensures |ExecuteAll(statements, state).value.env| == |state.env|
    ensures id !in WritesAll(statements) ==> ExecuteAll(statements, state).value.env[id] == state.env[id]
    decreases statements
  {
    if statements != [] {
      var before := statements[..|statements| - 1];
      WritesFrameAll(before, state, id);
      WritesFrame(statements[|statements| - 1], ExecuteAll(before, state).value, id);
    }
  }

  // ----- running a statement again -----

  /** In two runs each variable ends equal, or neither run touches it. */
  ghost predicate EqualOrUntouched(s: Store, t: Store, s': Store, t': Store) {
    && SameShape(s, t) && SameShape(s, s') && SameShape(t, t')
    && forall id :: 0 <= id < |s| ==> s'[id] == t'[id] || (s'[id] == s[id] && t'[id] == t[id])
  }

  ghost predicate SameEffect(statement: Statement, s: State, t: State) {
    && (Execute(statement, s).Some? <==> Execute(statement, t).Some?)
    && (Execute(statement, s).Some? ==>
          && EqualOrUntouched(s.env, t.env, Execute(statement, s).value.env, Execute(statement, t).value.env)
          && |s.pending| == |Execute(statement, s).value.pending| && |t.pending| == |Execute(statement, t).value.pending|)
  }

  lemma {:induction false} EffectsAgree(statement: Statement, s: State, t: State, known: set<nat>)
    requires AgreeOn(s.env, t.env, known) && |s.pending| == |t.pending| && Reads(statement) <= known
    ensures SameEffect(statement, s, t)
    ensures Execute(statement, s).Some? ==>
      AgreeOn(Execute(statement, s).value.env, Execute(statement, t).value.env, known)
    decreases statement
  {
    hide ValueOf;
    hide Locate;
    match statement {
      case Block(statements) => EffectsAgreeAll(statements, s, t, known);
      case Assign(_, _, _) => AssignmentEffect(statement, s, t, known);
      case If(condition, thenStatements, elseStatements) =>
        AgreeOnSome(s.env, t.env, known, ExpressionReads(condition));
        ValueAgrees(condition, s.env, t.env);
        EffectsAgreeAll(thenStatements, s, t, known);
        EffectsAgreeAll(elseStatements, s, t, known);
    }
  }

  lemma AssignmentEffect(statement: Statement, s: State, t: State, known: set<nat>)
    requires statement.Assign?
    requires AgreeOn(s.env, t.env, known) && |s.pending| == |t.pending| && Reads(statement) <= known
    ensures SameEffect(statement, s, t)
    ensures Execute(statement, s).Some? ==>
      AgreeOn(Execute(statement, s).value.env, Execute(statement, t).value.env, known)
  {
    hide ValueOf;
    hide Locate;
    hide StaysInside;
    hide Written;
    var target, value := statement.target, statement.value;
    assert ExpressionReads(value) <= known && TargetReads(target) <= known;
    AgreeOnSome(s.env, t.env, known, ExpressionReads(value));
    AgreeOnSome(s.env, t.env, known, IndexReads(target));
    ValueAgrees(value, s.env, t.env);
    LocateAgrees(target, s.env, t.env, []);
    LocateRoot(target, s.env);
    PartialRootIsRead(target);
    if Execute(statement, s).Some? && statement.kind != Nonblocking {
      var v, place := ValueOf(value, s.env).value, Locate(target, s.env).value;
      SameWrite(s.env, t.env, target, place, v);
      OneVariableWritten(s.env, t.env, place.root, Written(s.env[place.root], target, place, v), known);
    }
  }

  lemma SameWrite(a: Store, b: Store, target: Target, place: Place, value: Bits)
    requires SameShape(a, b) && place.root < |a|
    requires target.Whole? || a[place.root] == b[place.root]
    ensures Written(a[place.root], target, place, value) == Written(b[place.root], target, place, value)
  {
  }

  lemma OneVariableWritten(a: Store, b: Store, root: nat, v: Bits, known: set<nat>)
    requires AgreeOn(a, b, known) && root < |a| && |v| == |a[root]|
    ensures EqualOrUntouched(a, b, a[root := v], b[root := v])
    ensures AgreeOn(a[root := v], b[root := v], known)
  {
  }

  lemma {:induction false} EffectsAgreeAll(statements: seq<Statement>, s: State, t: State, known: set<nat>)
    requires AgreeOn(s.env, t.env, known) && |s.pending| == |t.pending| && ReadsAll(statements) <= known
    ensures SameEffect(Block(statements), s, t)
    ensures ExecuteAll(statements, s).Some? ==>
      AgreeOn(ExecuteAll(statements, s).value.env, ExecuteAll(statements, t).value.env, known)
    decreases statements
  {
    hide Reads;
    if statements == [] {
      assert ExecuteAll(statements, s) == Some(s) && ExecuteAll(statements, t) == Some(t);
    } else {
      var before, last := statements[..|statements| - 1], statements[|statements| - 1];
      assert ExecuteAll(statements, s) == match ExecuteAll(before, s) case None => None case Some(m) => Execute(last, m);
      assert ExecuteAll(statements, t) == match ExecuteAll(before, t) case None => None case Some(m) => Execute(last, m);
      EffectsAgreeAll(before, s, t, known);
      assert Execute(Block(before), s) == ExecuteAll(before, s) && Execute(Block(before), t) == ExecuteAll(before, t);
      if ExecuteAll(before, s).Some? {
        EffectsAgree(last, ExecuteAll(before, s).value, ExecuteAll(before, t).value, known);
      }
    }
  }

  // ----- one pass settles -----

  /** No variable has two writers. */
  ghost predicate SingleWriter(ordered: seq<Statement>) {
    forall j, k :: 0 <= j < k < |ordered| ==> Writes(ordered[j]) !! Writes(ordered[k])
  }

  /** Prefix `k` of a second pass over the final values changes nothing. */
  lemma {:induction false} SecondPass(ordered: seq<Statement>, available: set<nat>, s: State, settled: State, k: nat)
    requires ReadsReady(ordered, available) && SingleWriter(ordered) && available !! WritesAll(ordered)
    requires ExecuteAll(ordered, s) == Some(settled) && k <= |ordered|
    requires WritesOfAll(ordered, true) == {}
    ensures ExecuteAll(ordered[..k], settled) == Some(settled)
    decreases k
  {
    hide Reads;
    hide Writes;
    hide Execute;
    hide WritesOf;
    if k > 0 {
      ghost var j := k - 1;
      SecondPass(ordered, available, s, settled, j);
      assert ordered[..k][..j] == ordered[..j] && ordered[..k][j] == ordered[j];
      FirstRunPrefix(ordered, s, settled, j);
      StatementAgain(ordered, available, s, settled, j);
    }
  }

  /** The first pass up to statement `j`. */
  lemma {:induction false} FirstRunPrefix(ordered: seq<Statement>, s: State, settled: State, j: nat)
    requires ExecuteAll(ordered, s) == Some(settled) && j < |ordered|
    ensures ExecuteAll(ordered[..j], s).Some? && ExecuteAll(ordered[..j + 1], s).Some?
    ensures ExecuteAll(ordered[..j + 1], s) == Execute(ordered[j], ExecuteAll(ordered[..j], s).value)
    decreases |ordered|
  {
    hide Execute;
    var last := |ordered| - 1;
    if j < last {
      FirstRunPrefix(ordered[..last], s, ExecuteAll(ordered[..last], s).value, j);
      assert ordered[..last][..j] == ordered[..j] && ordered[..last][..j + 1] == ordered[..j + 1];
    } else {
      assert ordered[..j + 1] == ordered;
    }
  }

  /** Later statements keep what no later statement writes. */
  lemma {:induction false} KeptUntilEnd(ordered: seq<Statement>, s: State, settled: State, j: nat, id: nat)
    requires ExecuteAll(ordered, s) == Some(settled) && j <= |ordered| && id < |s.env|
    requires forall k :: j <= k < |ordered| ==> id !in Writes(ordered[k])
    requires ExecuteAll(ordered[..j], s).Some?
    ensures |ExecuteAll(ordered[..j], s).value.env| == |s.env| == |settled.env|
    ensures ExecuteAll(ordered[..j], s).value.env[id] == settled.env[id]
    decreases |ordered| - j
  {
    hide Execute;
    hide Writes;
    WritesFrameAll(ordered, s, id);
    WritesFrameAll(ordered[..j], s, id);
    if j == |ordered| {
      assert ordered[..j] == ordered;
    } else {
      FirstRunPrefix(ordered, s, settled, j);
      WritesFrame(ordered[j], ExecuteAll(ordered[..j], s).value, id);
      KeptUntilEnd(ordered, s, settled, j + 1, id);
    }
  }

  lemma {:induction false} WritesOfPrefix(ordered: seq<Statement>, j: nat, k: nat)
    requires j <= k < |ordered|
    ensures SingleWriter(ordered) && j <= k ==> Writes(ordered[k]) !! WritesAll(ordered[..j])
    ensures Writes(ordered[k]) <= WritesAll(ordered)
  {
    hide Writes;
    WritesWithout(ordered, k);
    if j > 0 {
      WritesOfPrefix(ordered, j - 1, k);
      assert ordered[..j][..j - 1] == ordered[..j - 1];
    }
  }

  /** Statement `j` run on the final values recomputes what it computed the first time. */
  lemma StatementAgain(ordered: seq<Statement>, available: set<nat>, s: State, settled: State, j: nat)
    requires ReadsReady(ordered, available) && SingleWriter(ordered) && available !! WritesAll(ordered)
    requires ExecuteAll(ordered, s) == Some(settled) && j < |ordered| && WritesOfAll(ordered, true) == {}
    requires ExecuteAll(ordered[..j], s).Some? && ExecuteAll(ordered[..j + 1], s).Some?
    requires ExecuteAll(ordered[..j + 1], s) == Execute(ordered[j], ExecuteAll(ordered[..j], s).value)
    ensures Execute(ordered[j], settled) == Some(settled)
  {
    hide Reads;
    hide Writes;
    hide Execute;
    hide WritesOf;
    hide ReadsReady;
    var before, after := ExecuteAll(ordered[..j], s).value, ExecuteAll(ordered[..j + 1], s).value;
    ShapeKept(ordered, s, settled, j);
    forall id | id in Reads(ordered[j]) && id < |s.env|
      ensures before.env[id] == settled.env[id]
    {
      ReadsNotWrittenLater(ordered, available, j, id);
      KeptUntilEnd(ordered, s, settled, j, id);
    }
    EffectsAgree(ordered[j], before, settled, Reads(ordered[j]));
    var again := Execute(ordered[j], settled).value;
    forall id | 0 <= id < |s.env|
      ensures again.env[id] == settled.env[id]
    {
      WritesFrame(ordered[j], settled, id);
      if id in Writes(ordered[j]) {
        KeptUntilEnd(ordered, s, settled, j + 1, id);
      }
    }
    NoDeferred(ordered, j, settled);
    assert again.env == settled.env;
  }

  lemma ShapeKept(ordered: seq<Statement>, s: State, settled: State, j: nat)
    requires ExecuteAll(ordered, s) == Some(settled) && j < |ordered| && ExecuteAll(ordered[..j], s).Some?
    ensures SameShape(ExecuteAll(ordered[..j], s).value.env, settled.env)
    ensures |ExecuteAll(ordered[..j], s).value.pending| == |settled.pending|
    ensures |settled.env| == |s.env|
  {
    hide Execute;
    ExecuteAllKeepsShape(ordered, s);
    ExecuteAllKeepsShape(ordered[..j], s);
  }

  lemma ReadsNotWrittenLater(ordered: seq<Statement>, available: set<nat>, j: nat, id: nat)
    requires ReadsReady(ordered, available) && SingleWriter(ordered) && available !! WritesAll(ordered)
    requires j < |ordered| && id in Reads(ordered[j])
    ensures forall k :: j <= k < |ordered| ==> id !in Writes(ordered[k])
  {
    hide Reads;
    hide Writes;
    forall k | j <= k < |ordered|
      ensures id !in Writes(ordered[k])
    {
      WritesOfPrefix(ordered, j, k);
    }
  }

  /** Without nonblocking assignments nothing is deferred. */
  lemma {:induction false} PendingKept(statement: Statement, state: State)
    requires WritesOf(statement, true) == {} && Execute(statement, state).Some?
    ensures Execute(statement, state).value.pending == state.pending
    decreases statement
  {
    hide ValueOf;
    hide Locate;
    match statement {
      case Block(statements) => PendingKeptAll(statements, state);
      case Assign(_, _, _) =>
      case If(condition, thenStatements, elseStatements) =>
        assert WritesOfAll(thenStatements, true) + WritesOfAll(elseStatements, true) == {};
        if Runtime.Truthy(ValueOf(condition, state.env).value) {
          PendingKeptAll(thenStatements, state);
        } else {
          PendingKeptAll(elseStatements, state);
        }
    }
  }

  lemma {:induction false} PendingKeptAll(statements: seq<Statement>, state: State)
    requires WritesOfAll(statements, true) == {} && ExecuteAll(statements, state).Some?
    ensures ExecuteAll(statements, state).value.pending == state.pending
    decreases statements
  {
    if statements != [] {
      var before, last := statements[..|statements| - 1], statements[|statements| - 1];
      assert WritesOfAll(before, true) + WritesOf(last, true) == {};
      PendingKeptAll(before, state);
      PendingKept(last, ExecuteAll(before, state).value);
    }
  }

  lemma NoDeferred(ordered: seq<Statement>, j: nat, state: State)
    requires j < |ordered| && WritesOfAll(ordered, true) == {} && Execute(ordered[j], state).Some?
    ensures Execute(ordered[j], state).value.pending == state.pending
  {
    hide Execute;
    PrefixWrites(ordered, j);
    PendingKept(ordered[j], state);
  }

  /** When the scheduler finds no loop, its order is a permutation of the statements in
      which every read is undriven or already written, and if every variable has one
      writer, a second pass over the final values changes nothing. */
  lemma OnePassSettles(combinational: seq<Statement>, variables: nat, s: State)
    requires GreedyOrder(combinational, Undriven(combinational, variables)).1 == []
    ensures
      var ordered := GreedyOrder(combinational, Undriven(combinational, variables)).0;
      && multiset(ordered) == multiset(combinational)
      && ReadsReady(ordered, Undriven(combinational, variables))
      && (SingleWriter(ordered) && WritesOfAll(ordered, true) == {} && ExecuteAll(ordered, s).Some? ==>
            ExecuteAll(ordered, ExecuteAll(ordered, s).value) == ExecuteAll(ordered, s))
  {
    hide Reads;
    hide Writes;
    hide Execute;
    hide WritesOf;
    var available := Undriven(combinational, variables);
    var ordered := GreedyOrder(combinational, available).0;
    GreedyOrderIsPermutation(combinational, available);
    GreedyOrderReads(combinational, available);
    GreedyOrderWrites(combinational, available);
    if SingleWriter(ordered) && WritesOfAll(ordered, true) == {} && ExecuteAll(ordered, s).Some? {
      SecondPass(ordered, available, s, ExecuteAll(ordered, s).value, |ordered|);
      assert ordered[..|ordered|] == ordered;
    }
  }

  lemma {:induction false} GreedyOrderWrites(pending: seq<Statement>, available: set<nat>)
    ensures WritesAll(GreedyOrder(pending, available).0) <= WritesAll(pending)
    decreases |pending|
  {
    hide Reads;
    hide Writes;
    match FirstReady(pending, available) {
      case None =>
      case Some(i) =>
        GreedyOrderWrites(Without(pending, i), available + Writes(pending[i]));
        WritesAllCons(pending[i], GreedyOrder(Without(pending, i), available + Writes(pending[i])).0);
        WritesWithout(pending, i);
    }
  }
}
