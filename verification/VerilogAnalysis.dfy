/** What the analysis of clocked processes collects about one statement. */
module VerilogAnalysis {
  import opened VerilogAst

  // ----- definite assignment -----

  /** The variables assigned on every path, starting from `known`. Only whole blocking
      assignments count. */
  function AssignedBy(statement: Statement, known: set<nat>): (r: set<nat>)
    decreases statement
  {
    match statement
    case Block(statements) => AssignedByAll(statements, known)
    case Assign(kind, target, _) => if kind != Nonblocking && target.Whole? then known + {target.id} else known
    case If(_, thenStatements, elseStatements) =>
      AssignedByAll(thenStatements, known) * AssignedByAll(elseStatements, known)
  }

  function AssignedByAll(statements: seq<Statement>, known: set<nat>): set<nat>
    decreases statements
  {
    if statements == [] then known
    else AssignedBy(statements[|statements| - 1], AssignedByAll(statements[..|statements| - 1], known))
  }

  /** The variables that may be read before they are assigned. */
  function LiveIn(statement: Statement, known: set<nat>): set<nat>
    decreases statement
  {
    match statement
    case Block(statements) => LiveInAll(statements, known)
    case Assign(_, target, value) => TargetReads(target) + ExpressionReads(value) - known
    case If(condition, thenStatements, elseStatements) =>
      (ExpressionReads(condition) - known) + LiveInAll(thenStatements, known) + LiveInAll(elseStatements, known)
  }

  function LiveInAll(statements: seq<Statement>, known: set<nat>): set<nat>
    decreases statements
  {
    if statements == [] then {}
    else
      var before := statements[..|statements| - 1];
      LiveInAll(before, known) + LiveIn(statements[|statements| - 1], AssignedByAll(before, known))
  }

  /** Roots of blocking or of nonblocking assignments. */
  function WritesOf(statement: Statement, deferred: bool): set<nat>
    decreases statement
  {
    match statement
    case Block(statements) => WritesOfAll(statements, deferred)
    case Assign(kind, target, _) => if (kind == Nonblocking) == deferred then {Root(target)} else {}
    case If(_, thenStatements, elseStatements) =>
      WritesOfAll(thenStatements, deferred) + WritesOfAll(elseStatements, deferred)
  }

  function WritesOfAll(statements: seq<Statement>, deferred: bool): set<nat>
    decreases statements
  {
    if statements == [] then {}
    else WritesOfAll(statements[..|statements| - 1], deferred) + WritesOf(statements[|statements| - 1], deferred)
  }

  lemma {:induction false} PrefixWrites(statements: seq<Statement>, i: nat)
    requires i < |statements|
    ensures WritesOf(statements[i], true) <= WritesOfAll(statements, true)
  {
    var last := |statements| - 1;
    if i < last {
      PrefixWrites(statements[..last], i);
    }
  }

  // ----- properties -----

  lemma {:induction false} AssignedGrows(statement: Statement, known: set<nat>)
    ensures known <= AssignedBy(statement, known)
    decreases statement
  {
    match statement {
      case Block(statements) => AssignedAllGrows(statements, known);
      case Assign(_, _, _) =>
      case If(_, thenStatements, elseStatements) =>
        AssignedAllGrows(thenStatements, known);
        AssignedAllGrows(elseStatements, known);
    }
  }

  lemma {:induction false} AssignedAllGrows(statements: seq<Statement>, known: set<nat>)
    ensures known <= AssignedByAll(statements, known)
    decreases statements
  {
    if statements != [] {
      AssignedAllGrows(statements[..|statements| - 1], known);
      AssignedGrows(statements[|statements| - 1], AssignedByAll(statements[..|statements| - 1], known));
    }
  }

  lemma {:induction false} AssignedIsWritten(statement: Statement, known: set<nat>)
    ensures AssignedBy(statement, known) <= known + WritesOf(statement, false)
    decreases statement
  {
    match statement {
      case Block(statements) => AssignedAreWritten(statements, known);
      case Assign(_, _, _) =>
      case If(_, thenStatements, elseStatements) =>
        AssignedAreWritten(thenStatements, known);
        AssignedAreWritten(elseStatements, known);
    }
  }

  lemma {:induction false} AssignedAreWritten(statements: seq<Statement>, known: set<nat>)
    ensures AssignedByAll(statements, known) <= known + WritesOfAll(statements, false)
    decreases statements
  {
    if statements != [] {
      AssignedAreWritten(statements[..|statements| - 1], known);
      AssignedIsWritten(statements[|statements| - 1], AssignedByAll(statements[..|statements| - 1], known));
    }
  }

  /** Starting with more known variables leaves more assigned and less live. */
  lemma {:induction false} MoreAssigned(statement: Statement, fewer: set<nat>, more: set<nat>)
    requires fewer <= more
    ensures AssignedBy(statement, fewer) <= AssignedBy(statement, more)
    ensures AssignedBy(statement, more) <= AssignedBy(statement, fewer) + more
    ensures LiveIn(statement, more) <= LiveIn(statement, fewer)
    ensures LiveIn(statement, more) !! more
    decreases statement
  {
    match statement {
      case Block(statements) => MoreAssignedAll(statements, fewer, more);
      case Assign(_, _, _) =>
      case If(_, thenStatements, elseStatements) =>
        MoreAssignedAll(thenStatements, fewer, more);
        MoreAssignedAll(elseStatements, fewer, more);
    }
  }

  lemma {:induction false} MoreAssignedAll(statements: seq<Statement>, fewer: set<nat>, more: set<nat>)
    requires fewer <= more
    ensures AssignedByAll(statements, fewer) <= AssignedByAll(statements, more)
    ensures AssignedByAll(statements, more) <= AssignedByAll(statements, fewer) + more
    ensures LiveInAll(statements, more) <= LiveInAll(statements, fewer)
    ensures LiveInAll(statements, more) !! more
    decreases statements
  {
    if statements != [] {
      var before, last := statements[..|statements| - 1], statements[|statements| - 1];
      MoreAssignedAll(before, fewer, more);
      var fewer', more' := AssignedByAll(before, fewer), AssignedByAll(before, more);
      MoreAssigned(last, fewer', more');
      AssignedAllGrows(before, more);
      AssignedGrows(last, fewer');
    }
  }

  /** Every read is live or assigned. */
  lemma {:induction false} LiveInIsRead(statement: Statement, known: set<nat>)
    ensures LiveIn(statement, known) <= Reads(statement)
    decreases statement
  {
    match statement {
      case Block(statements) => LiveInAllIsRead(statements, known);
      case Assign(_, _, _) =>
      case If(_, thenStatements, elseStatements) =>
        LiveInAllIsRead(thenStatements, known);
        LiveInAllIsRead(elseStatements, known);
    }
  }

  lemma {:induction false} LiveInAllIsRead(statements: seq<Statement>, known: set<nat>)
    ensures LiveInAll(statements, known) <= ReadsAll(statements)
    decreases statements
  {
    if statements != [] {
      var before := statements[..|statements| - 1];
      LiveInAllIsRead(before, known);
      LiveInIsRead(statements[|statements| - 1], AssignedByAll(before, known));
    }
  }

  lemma {:induction false} WritesSplit(statement: Statement)
    ensures Writes(statement) == WritesOf(statement, false) + WritesOf(statement, true)
    decreases statement
  {
    match statement {
      case Block(statements) => WritesAllSplit(statements);
      case Assign(_, _, _) =>
      case If(_, thenStatements, elseStatements) =>
        WritesAllSplit(thenStatements);
        WritesAllSplit(elseStatements);
    }
  }

  lemma {:induction false} WritesAllSplit(statements: seq<Statement>)
    ensures WritesAll(statements) == WritesOfAll(statements, false) + WritesOfAll(statements, true)
    decreases statements
  {
    if statements != [] {
      WritesAllSplit(statements[..|statements| - 1]);
      WritesSplit(statements[|statements| - 1]);
    }
  }

  // ----- the analysis as the source runs it -----

  /** Sets that the walk over a process inserts into. */
  class StatementInfo {
    var liveIn: set<nat>
    var blocking: set<nat>
    var nonblocking: set<nat>

    constructor ()
      ensures liveIn == {} && blocking == {} && nonblocking == {}
    {
      liveIn, blocking, nonblocking := {}, {}, {};
    }

    method AnalyzeStatement(statement: Statement, known: set<nat>) returns (after: set<nat>)
      modifies this
      ensures after == AssignedBy(statement, known)
      ensures liveIn == old(liveIn) + LiveIn(statement, known)
      ensures blocking == old(blocking) + WritesOf(statement, false)
      ensures nonblocking == old(nonblocking) + WritesOf(statement, true)
      decreases statement
    {
      match statement {
        case Block(statements) =>
          after := AnalyzeAll(statements, known);
        case Assign(kind, target, value) =>
          liveIn := liveIn + (TargetReads(target) + ExpressionReads(value) - known);
          after := known;
          if kind == Nonblocking {
            nonblocking := nonblocking + {Root(target)};
          } else {
            blocking := blocking + {Root(target)};
            if target.Whole? {
              after := after + {target.id};
            }
          }
        case If(condition, thenStatements, elseStatements) =>
          liveIn := liveIn + (ExpressionReads(condition) - known);
          var thenAssigned := AnalyzeAll(thenStatements, known);
          var elseAssigned := AnalyzeAll(elseStatements, known);
          after := thenAssigned * elseAssigned;
      }
    }

    method AnalyzeAll(statements: seq<Statement>, known: set<nat>) returns (after: set<nat>)
      modifies this
      ensures after == AssignedByAll(statements, known)
      ensures liveIn == old(liveIn) + LiveInAll(statements, known)
      ensures blocking == old(blocking) + WritesOfAll(statements, false)
      ensures nonblocking == old(nonblocking) + WritesOfAll(statements, true)
      decreases statements
    {
      after := known;
      for i := 0 to |statements|
        invariant after == AssignedByAll(statements[..i], known)
        invariant liveIn == old(liveIn) + LiveInAll(statements[..i], known)
        invariant blocking == old(blocking) + WritesOfAll(statements[..i], false)
        invariant nonblocking == old(nonblocking) + WritesOfAll(statements[..i], true)
      {
        assert statements[..i + 1][..i] == statements[..i];
        after := AnalyzeStatement(statements[i], after);
      }
      assert statements[..|statements|] == statements;
    }
  }
}
