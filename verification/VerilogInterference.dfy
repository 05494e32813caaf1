/** Two runs of a statement from states that agree on what it may read. */
module VerilogInterference {
  import opened Words
  import opened Fsm
  import opened Ranges
  import opened VerilogAst
  import opened VerilogAnalysis
  import opened VerilogSimulator
  import opened VerilogTargets
  import opened VerilogConvert
  import Runtime = VerilogRuntime

  ghost predicate AgreeOn(a: Store, b: Store, ids: set<nat>) {
    SameShape(a, b) && forall id :: id in ids && id < |a| ==> a[id] == b[id]
  }

  /** Every bit on which `a` and `b` agree is one on which `a'` and `b'` agree. */
  ghost predicate AgreementKept(a: Store, b: Store, a': Store, b': Store) {
    && SameShape(a, b) && SameShape(a, a') && SameShape(b, b')
    && forall id, k :: 0 <= id < |a| && 0 <= k < |a[id]| && a[id][k] == b[id][k] ==> a'[id][k] == b'[id][k]
  }

  lemma AgreeOnSome(a: Store, b: Store, ids: set<nat>, some: set<nat>)
    requires AgreeOn(a, b, ids) && some <= ids
    ensures AgreeOn(a, b, some)
  {
  }

  /** Expressions depend on nothing but the variables they read. */
  lemma {:induction false} ValueAgrees(e: Expression, a: Store, b: Store)
    requires AgreeOn(a, b, ExpressionReads(e))
    ensures ValueOf(e, a) == ValueOf(e, b) && UsizeOf(e, a) == UsizeOf(e, b)
  {
    hide ApplyUnary;
    hide ApplyBinary;
    hide Runtime.ToUsize;
    hide Pow2;
    match e {
      case Literal(_, _) =>
      case Read(id, _) => assert id in ExpressionReads(e);
      case Unary(_, operand, _) => ValueAgrees(operand, a, b);
      case Binary(_, lhs, rhs, _, _) =>
        ValueAgrees(lhs, a, b);
        ValueAgrees(rhs, a, b);
      case Conditional(condition, thenValue, elseValue, _) =>
        ValueAgrees(condition, a, b);
        ValueAgrees(thenValue, a, b);
        ValueAgrees(elseValue, a, b);
      case Replicated(source, _, _) => ValueAgrees(source, a, b);
      case Part(whole, offset, _) =>
        ValueAgrees(whole, a, b);
        ValueAgrees(offset, a, b);
      case Indexed(whole, index, _, _) =>
        ValueAgrees(whole, a, b);
        ValueAgrees(index, a, b);
    }
  }

  lemma {:induction false} LocateAgrees(target: Target, a: Store, b: Store, widths: seq<nat>)
    requires AgreeOn(a, b, IndexReads(target))
    ensures Locate(target, a) == Locate(target, b)
    ensures StrictlyInside(target, a, widths) == StrictlyInside(target, b, widths)
    ensures StaysInside(target, a, widths) == StaysInside(target, b, widths)
  {
    hide ValueOf;
    hide UsizeOf;
    match target {
      case Whole(_) =>
      case PartOf(base, offset, _) =>
        LocateAgrees(base, a, b, widths);
        ValueAgrees(offset, a, b);
      case ElementOf(base, index, _) =>
        LocateAgrees(base, a, b, widths);
        ValueAgrees(index, a, b);
    }
  }

  /** Equal shapes, and agreement on the known variables. */
  ghost predicate Alike(s: State, t: State, known: set<nat>) {
    && AgreeOn(s.env, t.env, known) && SameShape(s.pending, t.pending)
    && SameShape(s.env, s.pending)
  }

  /** What two runs from alike states have in common. */
  ghost predicate SameOutcome(statement: Statement, s: State, t: State, known: set<nat>, widths: seq<nat>) {
    && (Execute(statement, s).Some? <==> Execute(statement, t).Some?)
    && (StaysInRange(statement, s, widths) <==> StaysInRange(statement, t, widths))
    && (Execute(statement, s).Some? ==>
          OutcomesAgree(s, t, Execute(statement, s).value, Execute(statement, t).value, AssignedBy(statement, known)))
  }

  ghost predicate OutcomesAgree(s: State, t: State, s': State, t': State, known': set<nat>) {
    && Alike(s', t', known')
    && AgreementKept(s.env, t.env, s'.env, t'.env)
    && AgreementKept(s.pending, t.pending, s'.pending, t'.pending)
  }

  /** A statement whose reads are all known, or assigned before they are read, does the
      same to both states: neither panics alone, every definitely assigned variable gets
      the same value, and agreement of any other bit, deferred or not, is preserved. */
  lemma {:induction false} NonInterference(statement: Statement, s: State, t: State, known: set<nat>, widths: seq<nat>)
    requires Alike(s, t, known) && LiveIn(statement, known) == {}
    ensures SameOutcome(statement, s, t, known, widths)
    decreases statement
  {
    hide ValueOf;
    hide Locate;
    hide OutcomesAgree;
    match statement {
      case Block(statements) =>
        NonInterferenceAll(statements, s, t, known, widths);
      case Assign(_, _, _) =>
        AssignmentInterference(statement, s, t, known, widths);
      case If(condition, thenStatements, elseStatements) =>
        assert ExpressionReads(condition) <= known by {
          assert forall id :: id in ExpressionReads(condition) && id !in known ==> id in LiveIn(statement, known);
        }
        assert LiveInAll(thenStatements, known) == {} && LiveInAll(elseStatements, known) == {} by {
          assert LiveIn(statement, known) ==
            (ExpressionReads(condition) - known) + LiveInAll(thenStatements, known) + LiveInAll(elseStatements, known);
        }
        AgreeOnSome(s.env, t.env, known, ExpressionReads(condition));
        ValueAgrees(condition, s.env, t.env);
        NonInterferenceAll(thenStatements, s, t, known, widths);
        NonInterferenceAll(elseStatements, s, t, known, widths);
        if Execute(statement, s).Some? {
          var taken := if Runtime.Truthy(ValueOf(condition, s.env).value) then thenStatements else elseStatements;
          FewerKnown(s, t, Execute(statement, s).value, Execute(statement, t).value, AssignedByAll(taken, known),
            AssignedBy(statement, known));
        }
    }
  }

  lemma FewerKnown(s: State, t: State, s': State, t': State, known: set<nat>, fewer: set<nat>)
    requires OutcomesAgree(s, t, s', t', known) && fewer <= known
    ensures OutcomesAgree(s, t, s', t', fewer)
  {
  }

  lemma {:induction false} NonInterferenceAll(statements: seq<Statement>, s: State, t: State, known: set<nat>,
    widths: seq<nat>)
    requires Alike(s, t, known) && LiveInAll(statements, known) == {}
    ensures SameOutcome(Block(statements), s, t, known, widths)
    decreases statements
  {
    if statements == [] {
      assert ExecuteAll(statements, s) == Some(s) && ExecuteAll(statements, t) == Some(t);
      assert AllStayInRange(statements, s, widths) && AllStayInRange(statements, t, widths);
      assert AssignedByAll(statements, known) == known;
    } else {
      hide OutcomesAgree;
      var before, last := statements[..|statements| - 1], statements[|statements| - 1];
      assert LiveInAll(before, known) == {} && LiveIn(last, AssignedByAll(before, known)) == {} by {
        assert LiveInAll(statements, known) == LiveInAll(before, known) + LiveIn(last, AssignedByAll(before, known));
      }
      NonInterferenceAll(before, s, t, known, widths);
      OneMoreStatement(statements, |statements| - 1, s, widths);
      OneMoreStatement(statements, |statements| - 1, t, widths);
      assert statements[..|statements| - 1 + 1] == statements;
      if ExecuteAll(before, s).Some? {
        var s', t' := ExecuteAll(before, s).value, ExecuteAll(before, t).value;
        OutcomesAreAlike(s, t, s', t', AssignedByAll(before, known));
        NonInterference(last, s', t', AssignedByAll(before, known), widths);
        if Execute(last, s').Some? {
          OutcomesChain(s, t, s', t', Execute(last, s').value, Execute(last, t').value, AssignedByAll(before, known),
            AssignedByAll(statements, known));
        }
      }
    }
  }

  lemma OutcomesAreAlike(s: State, t: State, s': State, t': State, known: set<nat>)
    requires OutcomesAgree(s, t, s', t', known)
    ensures Alike(s', t', known)
  {
  }

  lemma OutcomesChain(s: State, t: State, s': State, t': State, s'': State, t'': State, known: set<nat>,
    known': set<nat>)
    requires OutcomesAgree(s, t, s', t', known) && OutcomesAgree(s', t', s'', t'', known')
    ensures OutcomesAgree(s, t, s'', t'', known')
  {
  }

  lemma PartialRootIsRead(target: Target)
    ensures !target.Whole? ==> Root(target) in TargetReads(target)
  {
  }

  lemma AssignmentInterference(statement: Statement, s: State, t: State, known: set<nat>, widths: seq<nat>)
    requires statement.Assign? && Alike(s, t, known) && LiveIn(statement, known) == {}
    ensures SameOutcome(statement, s, t, known, widths)
  {
    hide ValueOf;
    hide Locate;
    hide StaysInside;
    hide Runtime.Resized;
    hide Runtime.Selected;
    hide OutcomesAgree;
    hide Written;
    var target, value := statement.target, statement.value;
    assert TargetReads(target) <= known && ExpressionReads(value) <= known by {
      assert forall id :: id in TargetReads(target) + ExpressionReads(value) && id !in known ==>
        id in LiveIn(statement, known);
    }
    AgreeOnSome(s.env, t.env, known, ExpressionReads(value));
    AgreeOnSome(s.env, t.env, known, IndexReads(target));
    ValueAgrees(value, s.env, t.env);
    LocateAgrees(target, s.env, t.env, widths);
    if Execute(statement, s).Some? {
      var v, place := ValueOf(value, s.env).value, Locate(target, s.env).value;
      LocateRoot(target, s.env);
      PartialRootIsRead(target);
      if statement.kind == Nonblocking {
        WriteKeepsAgreement(s.pending, t.pending, target, place, v);
        PendingWritten(s, t, place.root, Written(s.pending[place.root], target, place, v),
          Written(t.pending[place.root], target, place, v), known);
      } else {
        WriteKeepsAgreement(s.env, t.env, target, place, v);
        EnvWritten(s, t, place.root, Written(s.env[place.root], target, place, v),
          Written(t.env[place.root], target, place, v), known, AssignedBy(statement, known));
      }
    }
  }

  lemma PendingWritten(s: State, t: State, root: nat, a: Bits, b: Bits, known: set<nat>)
    requires Alike(s, t, known) && root < |s.pending|
    requires AgreementKept(s.pending, t.pending, s.pending[root := a], t.pending[root := b])
    ensures OutcomesAgree(s, t, s.(pending := s.pending[root := a]), t.(pending := t.pending[root := b]), known)
  {
  }

  lemma EnvWritten(s: State, t: State, root: nat, a: Bits, b: Bits, known: set<nat>, known': set<nat>)
    requires Alike(s, t, known) && root < |s.env| && known' <= known + {root}
    requires AgreementKept(s.env, t.env, s.env[root := a], t.env[root := b])
    requires root in known' ==> a == b
    ensures OutcomesAgree(s, t, s.(env := s.env[root := a]), t.(env := t.env[root := b]), known')
  {
  }

  /** The same write to both stores keeps their agreement, and a write to a whole
      variable, or to one on which they agree, makes them equal there. */
  lemma WriteKeepsAgreement(a: Store, b: Store, target: Target, place: Place, value: Bits)
    requires SameShape(a, b) && place.root < |a|
    ensures
      AgreementKept(a, b, a[place.root := Written(a[place.root], target, place, value)],
        b[place.root := Written(b[place.root], target, place, value)])
    ensures target.Whole? || a[place.root] == b[place.root] ==>
      Written(a[place.root], target, place, value) == Written(b[place.root], target, place, value)
  {
  }
}
