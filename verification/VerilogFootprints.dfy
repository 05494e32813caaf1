/** What a statement can change and what it can depend on: footprints that cover every
    write, and non-interference of variables that are not live. */
module VerilogFootprints {
  import opened Words
  import opened Fsm
  import opened Ranges
  import opened VerilogAst
  import opened VerilogAnalysis
  import opened VerilogSimulator
  import opened VerilogTargets
  import opened VerilogConvert
  import Runtime = VerilogRuntime

  // ----- footprints -----

  datatype Region = Region(start: nat, width: nat) {
    function Sub(offset: nat, width: nat): Region {
      Region(start + offset, width)
    }

    function Element(k: nat, width: nat): Region {
      Region(start + k * width, width)
    }
  }

  /** The slices of the root variable that an assignment to the target may write.
      Constant offsets and indices are exact. */
  function TargetRegions(target: Target, widths: seq<nat>): set<Region> {
    match target
    case Whole(_) => {Region(0, TargetWidth(target, widths))}
    case PartOf(base, offset, width) =>
      var parents := TargetRegions(base, widths);
      if offset.Literal? then
        if offset.value < Pow2(Runtime.USIZE_BITS) then
          set r | r in parents && offset.value + width <= r.width :: r.Sub(offset.value, width)
        else {}
      else
        set r, o: nat | r in parents && o <= r.width && o + width <= r.width :: r.Sub(o, width)
    case ElementOf(base, index, layout) =>
      var parents := TargetRegions(base, widths);
      set r, k: nat |
        r in parents && k < layout.indices.Length() && (index.Literal? ==> layout.indices.IndexOf(k) == index.value) ::
        r.Element(k, layout.elementWidth)
  }

  /** A bit of a variable. */
  datatype Bit = Bit(id: nat, index: nat)

  function TargetBits(target: Target, widths: seq<nat>): set<Bit> {
    set r, b: nat | r in TargetRegions(target, widths) && r.start <= b < r.start + r.width :: Bit(Root(target), b)
  }

  /** The bits that blocking, or that nonblocking assignments may write. */
  function FootprintOf(statement: Statement, deferred: bool, widths: seq<nat>): set<Bit>
    decreases statement
  {
    match statement
    case Block(statements) => FootprintOfAll(statements, deferred, widths)
    case Assign(kind, target, _) => if (kind == Nonblocking) == deferred then TargetBits(target, widths) else {}
    case If(_, thenStatements, elseStatements) =>
      FootprintOfAll(thenStatements, deferred, widths) + FootprintOfAll(elseStatements, deferred, widths)
  }

  function FootprintOfAll(statements: seq<Statement>, deferred: bool, widths: seq<nat>): set<Bit>
    decreases statements
  {
    if statements == [] then {}
    else
      FootprintOfAll(statements[..|statements| - 1], deferred, widths) +
      FootprintOf(statements[|statements| - 1], deferred, widths)
  }

  predicate StatementFits(statement: Statement, widths: seq<nat>)
    decreases statement
  {
    match statement
    case Block(statements) => forall i :: 0 <= i < |statements| ==> StatementFits(statements[i], widths)
    case Assign(_, target, _) => ArraysFit(target, widths)
    case If(_, thenStatements, elseStatements) =>
      && (forall i :: 0 <= i < |thenStatements| ==> StatementFits(thenStatements[i], widths))
      && (forall i :: 0 <= i < |elseStatements| ==> StatementFits(elseStatements[i], widths))
  }

  // ----- footprints cover every write -----

  /** A write inside its root goes to one of the regions. */
  lemma {:induction false} LocatedInRegions(target: Target, env: Store, widths: seq<nat>)
    requires ArraysFit(target, widths) && StrictlyInside(target, env, widths) && Shaped(env, widths)
    requires Locate(target, env).Some?
    ensures Region(Locate(target, env).value.offset, Locate(target, env).value.width) in TargetRegions(target, widths)
  {
    hide ValueOf;
    hide Pow2;
    hide Shaped;
    match target {
      case Whole(id) => ShapedAt(env, widths, id);
      case PartOf(base, offset, width) =>
        LocatedInRegions(base, env, widths);
        RootSlice(base, env, widths);
        var place := Locate(base, env).value;
        var r := Region(place.offset, place.width);
        var moved := Locate(target, env).value;
        assert Region(moved.offset, moved.width) == r.Sub(UsizeOf(offset, env).value, width);
      case ElementOf(base, index, layout) =>
        LocatedInRegions(base, env, widths);
        var place := Locate(base, env).value;
        ElementIndex(index, layout, env);
        var k := Position(UsizeOf(index, env).value, layout.indices).value;
        var r := Region(place.offset, place.width);
        var moved := Locate(target, env).value;
        assert Region(moved.offset, moved.width) == r.Element(k, layout.elementWidth);
    }
  }

  lemma ShapedAt(env: Store, widths: seq<nat>, id: nat)
    requires Shaped(env, widths) && id < |env|
    ensures id < |widths| && |env[id]| == widths[id]
  {
  }

  lemma RootSlice(target: Target, env: Store, widths: seq<nat>)
    requires ArraysFit(target, widths) && StrictlyInside(target, env, widths) && Shaped(env, widths)
    requires Locate(target, env).Some?
    ensures Locate(target, env).value.width == TargetWidth(target, widths)
  {
    LocateRoot(target, env);
    TargetIsSlice(target, env[Root(target)], env, widths);
  }

  lemma ElementIndex(index: Expression, layout: Layout, env: Store)
    requires ElementOffset(index, layout, env).Some?
    ensures
      var i := UsizeOf(index, env).value;
      && Position(i, layout.indices).Some?
      && Position(i, layout.indices).value < layout.indices.Length()
      && layout.indices.IndexOf(Position(i, layout.indices).value) == i
      && ElementOffset(index, layout, env).value == Position(i, layout.indices).value * layout.elementWidth
      && (index.Literal? ==> i == index.value)
  {
    hide ValueOf;
    hide Pow2;
  }

  // ----- targets that the parser builds -----

  /** Parts are taken from variables and array elements, not from parts; they are no wider
      than those, and at a constant offset they are in range. */
  predicate ParsedTarget(target: Target, widths: seq<nat>) {
    match target
    case Whole(_) => true
    case PartOf(base, offset, width) =>
      && !base.PartOf? && ParsedTarget(base, widths) && width <= TargetWidth(base, widths)
      && (offset.Literal? ==>
            offset.value < Pow2(Runtime.USIZE_BITS) && offset.value + width <= TargetWidth(base, widths))
    case ElementOf(base, _, _) => !base.PartOf? && ParsedTarget(base, widths)
  }

  predicate ParsedStatement(statement: Statement, widths: seq<nat>)
    decreases statement
  {
    match statement
    case Block(statements) => forall i :: 0 <= i < |statements| ==> ParsedStatement(statements[i], widths)
    case Assign(_, target, _) => ParsedTarget(target, widths)
    case If(_, thenStatements, elseStatements) =>
      && (forall i :: 0 <= i < |thenStatements| ==> ParsedStatement(thenStatements[i], widths))
      && (forall i :: 0 <= i < |elseStatements| ==> ParsedStatement(elseStatements[i], widths))
  }

  /** A write that happens has a region of its width, though not always its own. */
  lemma {:induction false} LocatedHasRegion(target: Target, env: Store, widths: seq<nat>) returns (region: Region)
    requires ParsedTarget(target, widths) && Locate(target, env).Some?
    ensures region in TargetRegions(target, widths) && region.width == TargetWidth(target, widths)
  {
    hide ValueOf;
    hide Pow2;
    match target {
      case Whole(_) => region := Region(0, TargetWidth(target, widths));
      case PartOf(base, offset, width) =>
        var r := LocatedHasRegion(base, env, widths);
        var o := if offset.Literal? then offset.value else 0;
        region := r.Sub(o, width);
      case ElementOf(base, index, layout) =>
        var r := LocatedHasRegion(base, env, widths);
        ElementIndex(index, layout, env);
        var k := Position(UsizeOf(index, env).value, layout.indices).value;
        region := r.Element(k, layout.elementWidth);
    }
  }

  // ----- the bits that a run writes -----

  function StoreOf(state: State, deferred: bool): Store {
    if deferred then state.pending else state.env
  }

  /** A write that does not fit the variable is dropped. */
  predicate PlaceHolds(target: Target, place: Place, size: nat, b: nat) {
    && b < size
    && (target.Whole? || (place.offset + place.width <= size && place.offset <= b < place.offset + place.width))
  }

  /** Running the statement from `state` writes the bit, on the path it takes. */
  predicate Touches(statement: Statement, state: State, deferred: bool, id: nat, b: nat)
    decreases statement
  {
    match statement
    case Block(statements) => TouchesAll(statements, state, deferred, id, b)
    case Assign(kind, target, _) =>
      (match Locate(target, state.env)
       case None => false
       case Some(place) =>
         && (kind == Nonblocking) == deferred && place.root == id && id < |StoreOf(state, deferred)|
         && PlaceHolds(target, place, |StoreOf(state, deferred)[id]|, b))
    case If(condition, thenStatements, elseStatements) =>
      match ValueOf(condition, state.env)
      case None => false
      case Some(c) => TouchesAll(if Runtime.Truthy(c) then thenStatements else elseStatements, state, deferred, id, b)
  }

  predicate TouchesAll(statements: seq<Statement>, state: State, deferred: bool, id: nat, b: nat)
    decreases statements
  {
    if statements == [] then false
    else
      var before := statements[..|statements| - 1];
      TouchesAll(before, state, deferred, id, b) ||
      (ExecuteAll(before, state).Some? &&
       Touches(statements[|statements| - 1], ExecuteAll(before, state).value, deferred, id, b))
  }

  /** Written bits exist. */
  lemma {:induction false} TouchedExists(statement: Statement, state: State, deferred: bool, id: nat, b: nat)
    requires Touches(statement, state, deferred, id, b)
    ensures id < |StoreOf(state, deferred)| && b < |StoreOf(state, deferred)[id]|
    decreases statement
  {
    hide ValueOf;
    hide Locate;
    match statement {
      case Block(statements) => TouchedExistsAll(statements, state, deferred, id, b);
      case Assign(_, _, _) =>
      case If(condition, thenStatements, elseStatements) =>
        TouchedExistsAll(if Runtime.Truthy(ValueOf(condition, state.env).value) then thenStatements else elseStatements,
          state, deferred, id, b);
    }
  }

  lemma {:induction false} TouchedExistsAll(statements: seq<Statement>, state: State, deferred: bool, id: nat, b: nat)
    requires TouchesAll(statements, state, deferred, id, b)
    ensures id < |StoreOf(state, deferred)| && b < |StoreOf(state, deferred)[id]|
    decreases statements
  {
    var before := statements[..|statements| - 1];
    if TouchesAll(before, state, deferred, id, b) {
      TouchedExistsAll(before, state, deferred, id, b);
    } else {
      ExecuteAllKeepsShape(before, state);
      TouchedExists(statements[|statements| - 1], ExecuteAll(before, state).value, deferred, id, b);
    }
  }

  /** Only roots of assignments of that kind are written. */
  lemma {:induction false} TouchedIsWritten(statement: Statement, state: State, deferred: bool, id: nat, b: nat)
    requires Touches(statement, state, deferred, id, b)
    ensures id in WritesOf(statement, deferred)
    decreases statement
  {
    hide ValueOf;
    hide Locate;
    match statement {
      case Block(statements) => TouchedIsWrittenAll(statements, state, deferred, id, b);
      case Assign(_, target, _) => LocateRoot(target, state.env);
      case If(condition, thenStatements, elseStatements) =>
        TouchedIsWrittenAll(if Runtime.Truthy(ValueOf(condition, state.env).value) then thenStatements else elseStatements,
          state, deferred, id, b);
    }
  }

  lemma {:induction false} TouchedIsWrittenAll(statements: seq<Statement>, state: State, deferred: bool, id: nat, b: nat)
    requires TouchesAll(statements, state, deferred, id, b)
    ensures id in WritesOfAll(statements, deferred)
    decreases statements
  {
    var before := statements[..|statements| - 1];
    if TouchesAll(before, state, deferred, id, b) {
      TouchedIsWrittenAll(before, state, deferred, id, b);
    } else {
      TouchedIsWritten(statements[|statements| - 1], ExecuteAll(before, state).value, deferred, id, b);
    }
  }

  /** Every other bit keeps its value. */
  lemma {:induction false} UntouchedStays(statement: Statement, state: State, deferred: bool, id: nat, b: nat)
    requires Execute(statement, state).Some? && !Touches(statement, state, deferred, id, b)
    requires id < |StoreOf(state, deferred)| && b < |StoreOf(state, deferred)[id]|
    ensures var after := StoreOf(Execute(statement, state).value, deferred);
      id < |after| && b < |after[id]| && after[id][b] == StoreOf(state, deferred)[id][b]
    decreases statement
  {
    hide ValueOf;
    hide Locate;
    ExecuteKeepsShape(statement, state);
    match statement {
      case Block(statements) => UntouchedStaysAll(statements, state, deferred, id, b);
      case Assign(_, target, _) => LocateRoot(target, state.env);
      case If(condition, thenStatements, elseStatements) =>
        UntouchedStaysAll(if Runtime.Truthy(ValueOf(condition, state.env).value) then thenStatements else elseStatements,
          state, deferred, id, b);
    }
  }

  lemma {:induction false} UntouchedStaysAll(statements: seq<Statement>, state: State, deferred: bool, id: nat, b: nat)
    requires ExecuteAll(statements, state).Some? && !TouchesAll(statements, state, deferred, id, b)
    requires id < |StoreOf(state, deferred)| && b < |StoreOf(state, deferred)[id]|
    ensures var after := StoreOf(ExecuteAll(statements, state).value, deferred);
      id < |after| && b < |after[id]| && after[id][b] == StoreOf(state, deferred)[id][b]
    decreases statements
  {
    if statements != [] {
      var before := statements[..|statements| - 1];
      UntouchedStaysAll(before, state, deferred, id, b);
      UntouchedStays(statements[|statements| - 1], ExecuteAll(before, state).value, deferred, id, b);
    }
  }

  /** Where parts stay inside what contains them, only the footprint is written. */
  lemma {:induction false} TouchedInFootprint(statement: Statement, state: State, widths: seq<nat>, deferred: bool,
    id: nat, b: nat)
    requires StatementFits(statement, widths) && StaysInRange(statement, state, widths)
    requires Shaped(state.env, widths) && Shaped(state.pending, widths)
    requires id < |widths| && b < widths[id] && Touches(statement, state, deferred, id, b)
    ensures Bit(id, b) in FootprintOf(statement, deferred, widths)
    decreases statement
  {
    hide ValueOf;
    hide TargetBits;
    hide Locate;
    hide StaysInside;
    hide ArraysFit;
    match statement {
      case Block(statements) => TouchedInFootprintAll(statements, state, widths, deferred, id, b);
      case Assign(_, _, _) => AssignmentInFootprint(statement, state, widths, deferred, id, b);
      case If(condition, thenStatements, elseStatements) =>
        TouchedInFootprintAll(if Runtime.Truthy(ValueOf(condition, state.env).value) then thenStatements else elseStatements,
          state, widths, deferred, id, b);
    }
  }

  lemma {:induction false} TouchedInFootprintAll(statements: seq<Statement>, state: State, widths: seq<nat>,
    deferred: bool, id: nat, b: nat)
    requires (forall i :: 0 <= i < |statements| ==> StatementFits(statements[i], widths))
    requires AllStayInRange(statements, state, widths)
    requires Shaped(state.env, widths) && Shaped(state.pending, widths)
    requires id < |widths| && b < widths[id] && TouchesAll(statements, state, deferred, id, b)
    ensures Bit(id, b) in FootprintOfAll(statements, deferred, widths)
    decreases statements
  {
    var before := statements[..|statements| - 1];
    if TouchesAll(before, state, deferred, id, b) {
      TouchedInFootprintAll(before, state, widths, deferred, id, b);
    } else {
      ExecuteAllKeepsShape(before, state);
      TouchedInFootprint(statements[|statements| - 1], ExecuteAll(before, state).value, widths, deferred, id, b);
    }
  }

  lemma AssignmentInFootprint(statement: Statement, state: State, widths: seq<nat>, deferred: bool, id: nat, b: nat)
    requires statement.Assign? && StatementFits(statement, widths) && StaysInRange(statement, state, widths)
    requires Shaped(state.env, widths) && Shaped(state.pending, widths)
    requires id < |widths| && b < widths[id] && Touches(statement, state, deferred, id, b)
    ensures Bit(id, b) in FootprintOf(statement, deferred, widths)
  {
    hide ValueOf;
    hide UsizeOf;
    hide TargetRegions;
    hide Pow2;
    var target := statement.target;
    var place := Locate(target, state.env).value;
    LocateRoot(target, state.env);
    WholePlace(target, state.env);
    hide Locate;
    if target.Whole? || StrictlyInside(target, state.env, widths) {
      LocatedInRegions(target, state.env, widths);
      assert Region(place.offset, place.width) in TargetRegions(target, widths);
      assert Bit(id, b) in TargetBits(target, widths);
    } else {
      OutOfRangePlace(target, state.env, widths);
    }
  }

  lemma WholePlace(target: Target, env: Store)
    requires Locate(target, env).Some?
    ensures target.Whole? ==> target.id < |env| && Locate(target, env).value == Place(target.id, 0, |env[target.id]|)
  {
  }

  lemma OutOfRangePlace(target: Target, env: Store, widths: seq<nat>)
    requires StaysInside(target, env, widths) && !StrictlyInside(target, env, widths)
    requires Locate(target, env).Some? && Shaped(env, widths)
    ensures Root(target) < |env| && Locate(target, env).value.offset + Locate(target, env).value.width > |env[Root(target)]|
  {
    NotInside(target, env, widths);
    LocateRoot(target, env);
    hide Locate;
    hide StaysInside;
    hide StrictlyInside;
  }

  /** Whatever a parsed statement writes, its footprint has some bit of that variable. */
  lemma {:induction false} TouchedHasFootprint(statement: Statement, state: State, widths: seq<nat>, deferred: bool,
    id: nat, b: nat) returns (bit: Bit)
    requires ParsedStatement(statement, widths) && Shaped(state.env, widths) && Shaped(state.pending, widths)
    requires Touches(statement, state, deferred, id, b)
    ensures bit in FootprintOf(statement, deferred, widths) && bit.id == id
    decreases statement
  {
    hide ValueOf;
    hide TargetBits;
    hide Locate;
    hide ParsedTarget;
    match statement {
      case Block(statements) => bit := TouchedHasFootprintAll(statements, state, widths, deferred, id, b);
      case Assign(_, _, _) => bit := AssignmentHasFootprint(statement, state, widths, deferred, id, b);
      case If(condition, thenStatements, elseStatements) =>
        bit := TouchedHasFootprintAll(
          if Runtime.Truthy(ValueOf(condition, state.env).value) then thenStatements else elseStatements, state, widths,
          deferred, id, b);
    }
  }

  lemma {:induction false} TouchedHasFootprintAll(statements: seq<Statement>, state: State, widths: seq<nat>,
    deferred: bool, id: nat, b: nat) returns (bit: Bit)
    requires (forall i :: 0 <= i < |statements| ==> ParsedStatement(statements[i], widths))
    requires Shaped(state.env, widths) && Shaped(state.pending, widths)
    requires TouchesAll(statements, state, deferred, id, b)
    ensures bit in FootprintOfAll(statements, deferred, widths) && bit.id == id
    decreases statements
  {
    var before := statements[..|statements| - 1];
    if TouchesAll(before, state, deferred, id, b) {
      bit := TouchedHasFootprintAll(before, state, widths, deferred, id, b);
    } else {
      ExecuteAllKeepsShape(before, state);
      bit := TouchedHasFootprint(statements[|statements| - 1], ExecuteAll(before, state).value, widths, deferred, id, b);
    }
  }

  lemma AssignmentHasFootprint(statement: Statement, state: State, widths: seq<nat>, deferred: bool, id: nat, b: nat)
    returns (bit: Bit)
    requires statement.Assign? && ParsedStatement(statement, widths)
    requires Shaped(state.env, widths) && Shaped(state.pending, widths)
    requires Touches(statement, state, deferred, id, b)
    ensures bit in FootprintOf(statement, deferred, widths) && bit.id == id
  {
    hide ValueOf;
    hide UsizeOf;
    hide TargetRegions;
    hide Pow2;
    var target := statement.target;
    LocateRoot(target, state.env);
    LocatedWidth(target, state.env, widths);
    hide Locate;
    var region := LocatedHasRegion(target, state.env, widths);
    bit := Bit(Root(target), region.start);
    assert bit in TargetBits(target, widths);
  }

  lemma LocatedWidth(target: Target, env: Store, widths: seq<nat>)
    requires Locate(target, env).Some? && Shaped(env, widths)
    ensures Locate(target, env).value.width == TargetWidth(target, widths)
  {
  }

  /** Where parts stay inside what contains them, a statement changes no bit outside its
      footprint. */
  lemma Footprint(statement: Statement, state: State, widths: seq<nat>, id: nat, b: nat)
    requires StatementFits(statement, widths) && StaysInRange(statement, state, widths)
    requires Execute(statement, state).Some? && Shaped(state.env, widths) && Shaped(state.pending, widths)
    requires id < |widths| && b < widths[id]
    ensures var after := Execute(statement, state).value;
      Shaped(after.env, widths) && Shaped(after.pending, widths)
    ensures forall deferred :: Bit(id, b) !in FootprintOf(statement, deferred, widths) ==>
      StoreOf(Execute(statement, state).value, deferred)[id][b] == StoreOf(state, deferred)[id][b]
  {
    hide Execute;
    hide Touches;
    hide FootprintOf;
    hide StaysInRange;
    hide StatementFits;
    ExecuteKeepsShape(statement, state);
    forall deferred | Bit(id, b) !in FootprintOf(statement, deferred, widths)
      ensures StoreOf(Execute(statement, state).value, deferred)[id][b] == StoreOf(state, deferred)[id][b]
    {
      if Touches(statement, state, deferred, id, b) {
        TouchedInFootprint(statement, state, widths, deferred, id, b);
      }
      UntouchedStays(statement, state, deferred, id, b);
    }
  }

  // ----- parts that stay inside in every state -----

  /** No value of the offset takes the part out of what contains it. */
  predicate OffsetInside(offset: Expression, width: nat, available: nat) {
    if offset.Literal? then offset.value + width <= available else Pow2(offset.width) - 1 + width <= available
  }

  predicate AlwaysStrict(target: Target, widths: seq<nat>) {
    match target
    case Whole(_) => true
    case PartOf(base, offset, width) =>
      AlwaysStrict(base, widths) && OffsetInside(offset, width, TargetWidth(base, widths))
    case ElementOf(base, _, _) => AlwaysStrict(base, widths)
  }

  /** Parts of whole variables may leave them, since such writes are dropped. */
  predicate AlwaysInside(target: Target, widths: seq<nat>) {
    (target.PartOf? && target.base.Whole?) || AlwaysStrict(target, widths)
  }

  predicate StatementInside(statement: Statement, widths: seq<nat>)
    decreases statement
  {
    match statement
    case Block(statements) => forall i :: 0 <= i < |statements| ==> StatementInside(statements[i], widths)
    case Assign(_, target, _) => AlwaysInside(target, widths)
    case If(_, thenStatements, elseStatements) =>
      && (forall i :: 0 <= i < |thenStatements| ==> StatementInside(thenStatements[i], widths))
      && (forall i :: 0 <= i < |elseStatements| ==> StatementInside(elseStatements[i], widths))
  }

  lemma OffsetStaysInside(offset: Expression, width: nat, available: nat, env: Store)
    requires OffsetInside(offset, width, available)
    ensures UsizeOf(offset, env).Some? ==> UsizeOf(offset, env).value + width <= available
  {
    hide Pow2;
    if !offset.Literal? && UsizeOf(offset, env).Some? {
      var b := ValueOf(offset, env).value;
      assert |b| == offset.width;
      hide ValueOf;
      Runtime.ToUsizeIsValue(b);
    }
  }

  lemma {:induction false} AlwaysStrictStays(target: Target, widths: seq<nat>, env: Store)
    requires AlwaysStrict(target, widths)
    ensures StrictlyInside(target, env, widths)
  {
    hide OffsetInside;
    hide UsizeOf;
    match target {
      case Whole(_) =>
      case PartOf(base, offset, width) =>
        AlwaysStrictStays(base, widths, env);
        OffsetStaysInside(offset, width, TargetWidth(base, widths), env);
      case ElementOf(base, _, _) => AlwaysStrictStays(base, widths, env);
    }
  }

  /** A condition on the statement alone that keeps it in range in every state. */
  lemma {:induction false} InsideStaysInRange(statement: Statement, state: State, widths: seq<nat>)
    requires StatementInside(statement, widths)
    ensures StaysInRange(statement, state, widths)
    decreases statement
  {
    hide ValueOf;
    hide AlwaysStrict;
    hide StrictlyInside;
    hide LeavesVariable;
    match statement {
      case Block(statements) => InsideStaysInRangeAll(statements, state, widths);
      case Assign(_, target, _) =>
        if AlwaysStrict(target, widths) {
          AlwaysStrictStays(target, widths, state.env);
        } else {
          WholePartStays(target, state.env, widths);
        }
      case If(_, thenStatements, elseStatements) =>
        InsideStaysInRangeAll(thenStatements, state, widths);
        InsideStaysInRangeAll(elseStatements, state, widths);
    }
  }

  lemma {:induction false} InsideStaysInRangeAll(statements: seq<Statement>, state: State, widths: seq<nat>)
    requires forall i :: 0 <= i < |statements| ==> StatementInside(statements[i], widths)
    ensures AllStayInRange(statements, state, widths)
    decreases statements
  {
    if statements != [] {
      var before := statements[..|statements| - 1];
      InsideStaysInRangeAll(before, state, widths);
      if ExecuteAll(before, state).Some? {
        InsideStaysInRange(statements[|statements| - 1], ExecuteAll(before, state).value, widths);
      }
    }
  }
}
