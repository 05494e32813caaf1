/** Assignments through nested targets, as the symbolic backend rebuilds them and as
    the generated simulator performs them. */
module VerilogTargets {
  import opened Words
  import opened Fsm
  import opened Ops
  import opened Ranges
  import opened Slices
  import opened VerilogAst
  import opened VerilogSimulator
  import opened VerilogOperators
  import opened VerilogSelection
  import opened VerilogExpressions
  import Runtime = VerilogRuntime

  // ----- meaning -----

  /** The reads of the offsets and indices of a target. */
  function IndexReads(target: Target): (r: set<nat>)
    ensures r <= TargetReads(target)
  {
    match target
    case Whole(_) => {}
    case PartOf(base, offset, _) => IndexReads(base) + ExpressionReads(offset)
    case ElementOf(base, index, _) => IndexReads(base) + ExpressionReads(index)
  }

  /** The declared width of what a target names. */
  function TargetWidth(target: Target, widths: seq<nat>): nat {
    match target
    case Whole(id) => if id < |widths| then widths[id] else 0
    case PartOf(_, _, width) => width
    case ElementOf(_, _, layout) => layout.elementWidth
  }

  /** The bits a target names when its root holds `current`. */
  function ReadThrough(target: Target, current: Bits, env: Store): Option<Bits> {
    match target
    case Whole(_) => Some(current)
    case PartOf(base, offset, width) =>
      (match (ReadThrough(base, current, env), UsizeOf(offset, env))
       case (Some(b), Some(o)) => Some(Runtime.Select(b, o, width))
       case _ => None)
    case ElementOf(base, index, layout) =>
      (match (ReadThrough(base, current, env), ElementOffset(index, layout, env))
       case (Some(b), Some(o)) => Some(Runtime.Select(b, o, layout.elementWidth))
       case _ => None)
  }

  function ElementOffset(index: Expression, layout: Layout, env: Store): Option<nat> {
    match UsizeOf(index, env)
    case None => None
    case Some(i) => ArrayOffset(i, layout.indices, layout.elementWidth)
  }

  /** The root's bits after each level is replaced inside the level around it. */
  function WriteThrough(target: Target, current: Bits, env: Store, value: Bits, widths: seq<nat>): Option<Bits> {
    match target
    case Whole(_) => Some(Runtime.Resized(value, TargetWidth(target, widths), false))
    case PartOf(base, offset, width) =>
      (match (ReadThrough(base, current, env), UsizeOf(offset, env))
       case (Some(b), Some(o)) => WriteThrough(base, current, env, Runtime.Selected(b, o, width, value), widths)
       case _ => None)
    case ElementOf(base, index, layout) =>
      (match (ReadThrough(base, current, env), ElementOffset(index, layout, env))
       case (Some(b), Some(o)) =>
         WriteThrough(base, current, env, Runtime.Selected(b, o, layout.elementWidth, value), widths)
       case _ => None)
  }

  /** Arrays fit in what holds them. */
  predicate ArraysFit(target: Target, widths: seq<nat>) {
    match target
    case Whole(_) => true
    case PartOf(base, _, _) => ArraysFit(base, widths)
    case ElementOf(base, _, layout) =>
      ArraysFit(base, widths) && layout.indices.Length() * layout.elementWidth <= TargetWidth(base, widths)
  }

  /** ... and offset and index words are wide enough. */
  predicate SoundTarget(target: Target, widths: seq<nat>) {
    match target
    case Whole(_) => true
    case PartOf(base, offset, width) =>
      && SoundTarget(base, widths)
      && (offset.Literal? ||
          (Sound(offset) && TargetWidth(base, widths) < width + Pow2(offset.width)))
    case ElementOf(base, index, layout) =>
      && SoundTarget(base, widths) && Sound(index) && Distinguishable(layout.indices, index.width)
      && layout.indices.Length() * layout.elementWidth <= TargetWidth(base, widths)
  }

  lemma {:induction false} SoundTargetFits(target: Target, widths: seq<nat>)
    requires SoundTarget(target, widths)
    ensures ArraysFit(target, widths)
  {
    if !target.Whole? {
      SoundTargetFits(target.base, widths);
    }
  }

  /** A part stays inside what it is taken from, or it leaves the variable altogether: both
      backends then leave the variable alone. */
  predicate StaysInside(target: Target, env: Store, widths: seq<nat>) {
    StrictlyInside(target, env, widths) || LeavesVariable(target, env, widths)
  }

  predicate LeavesVariable(target: Target, env: Store, widths: seq<nat>) {
    && target.PartOf? && StrictlyInside(target.base, env, widths)
    && (Locate(target, env).Some? ==>
          Locate(target, env).value.offset + target.width > TargetWidth(Whole(Root(target)), widths))
  }

  /** Every part is in range. */
  predicate StrictlyInside(target: Target, env: Store, widths: seq<nat>) {
    match target
    case Whole(_) => true
    case PartOf(base, offset, width) =>
      StrictlyInside(base, env, widths) && PartFits(base, offset, width, env, widths)
    case ElementOf(base, _, _) => StrictlyInside(base, env, widths)
  }

  predicate PartFits(base: Target, offset: Expression, width: nat, env: Store, widths: seq<nat>) {
    UsizeOf(offset, env).Some? ==> UsizeOf(offset, env).value + width <= TargetWidth(base, widths)
  }

  // ----- nested writes are flat writes -----

  lemma SelectNested(b: Bits, start: nat, outer: nat, offset: nat, width: nat)
    requires start + outer <= |b| && offset + width <= outer
    ensures Runtime.Select(Runtime.Select(b, start, outer), offset, width) == Runtime.Select(b, start + offset, width)
  {
    var nested, flat := Runtime.Select(Runtime.Select(b, start, outer), offset, width), Runtime.Select(b, start + offset, width);
    forall i | 0 <= i < width
      ensures nested[i] == flat[i]
    {
      assert Runtime.Select(b, start, outer)[offset + i] == Runtime.BitAt(b, start + (offset + i));
      assert flat[i] == Runtime.BitAt(b, start + offset + i);
      assert nested[i] == Runtime.BitAt(Runtime.Select(b, start, outer), offset + i);
    }
  }

  lemma AssignNested(b: Bits, start: nat, outer: nat, offset: nat, width: nat, value: Bits)
    requires start + outer <= |b| && offset + width <= outer
    ensures Runtime.Selected(b, start, outer, Runtime.Selected(Runtime.Select(b, start, outer), offset, width, value)) ==
      Runtime.Selected(b, start + offset, width, value)
  {
    var part := Runtime.Select(b, start, outer);
    var changed := Runtime.Selected(part, offset, width, value);
    var nested, flat := Runtime.Selected(b, start, outer, changed), Runtime.Selected(b, start + offset, width, value);
    forall i | 0 <= i < |b|
      ensures nested[i] == flat[i]
    {
      if start <= i < start + outer {
        var j := i - start;
        assert part[j] == Runtime.BitAt(b, start + j);
        assert nested[i] == Runtime.BitAt(changed, j);
      }
    }
  }

  /** A target inside its root is a slice of the root. */
  lemma {:induction false} TargetIsSlice(target: Target, current: Bits, env: Store, widths: seq<nat>)
    requires ArraysFit(target, widths) && StrictlyInside(target, env, widths)
    requires Root(target) < |env| && Root(target) < |widths| && |current| == widths[Root(target)] == |env[Root(target)]|
    requires Locate(target, env).Some?
    ensures Locate(target, env).value.width == TargetWidth(target, widths)
    ensures Locate(target, env).value.offset + TargetWidth(target, widths) <= |current|
    ensures ReadThrough(target, current, env) ==
      Some(Runtime.Select(current, Locate(target, env).value.offset, TargetWidth(target, widths)))
  {
    hide UsizeOf;
    hide Sound;
    hide Pow2;
    hide Distinguishable;
    match target {
      case Whole(id) =>
        assert Runtime.Select(current, 0, |current|) == current;
      case PartOf(base, offset, width) =>
        TargetIsSlice(base, current, env, widths);
        var place := Locate(base, env).value;
        SelectNested(current, place.offset, place.width, UsizeOf(offset, env).value, width);
      case ElementOf(base, index, layout) =>
        TargetIsSlice(base, current, env, widths);
        var place := Locate(base, env).value;
        ElementInside(index, layout, env);
        SelectNested(current, place.offset, place.width, ElementOffset(index, layout, env).value, layout.elementWidth);
    }
  }

  lemma ElementInside(index: Expression, layout: Layout, env: Store)
    requires ElementOffset(index, layout, env).Some?
    ensures ElementOffset(index, layout, env).value + layout.elementWidth <=
      layout.indices.Length() * layout.elementWidth
  {
    hide UsizeOf;
    var i := UsizeOf(index, env).value;
    ElementFits(Position(i, layout.indices).value, layout.indices.Length(), layout.elementWidth);
  }

  lemma WholeIsSlice(current: Bits, value: Bits)
    requires |value| == |current|
    ensures Runtime.Resized(value, |current|, false) == Runtime.Selected(current, 0, |current|, value)
  {
  }

  /** Writing level by level writes the located slice. */
  lemma {:induction false} WriteIsSlice(target: Target, current: Bits, env: Store, value: Bits, widths: seq<nat>)
    requires ArraysFit(target, widths) && StrictlyInside(target, env, widths)
    requires Root(target) < |env| && Root(target) < |widths| && |current| == widths[Root(target)] == |env[Root(target)]|
    requires Locate(target, env).Some? && |value| == TargetWidth(target, widths)
    ensures WriteThrough(target, current, env, value, widths) ==
      Some(Runtime.Selected(current, Locate(target, env).value.offset, TargetWidth(target, widths), value))
  {
    hide UsizeOf;
    hide Sound;
    hide Pow2;
    hide Distinguishable;
    hide Runtime.Select;
    hide Runtime.Selected;
    hide Runtime.Resized;
    match target {
      case Whole(id) => WholeIsSlice(current, value);
      case PartOf(base, offset, width) =>
        TargetIsSlice(base, current, env, widths);
        var place := Locate(base, env).value;
        var o := UsizeOf(offset, env).value;
        var part := Runtime.Select(current, place.offset, place.width);
        WriteIsSlice(base, current, env, Runtime.Selected(part, o, width, value), widths);
        AssignNested(current, place.offset, place.width, o, width, value);
      case ElementOf(base, index, layout) =>
        TargetIsSlice(base, current, env, widths);
        var place := Locate(base, env).value;
        var o := ElementOffset(index, layout, env).value;
        ElementInside(index, layout, env);
        var part := Runtime.Select(current, place.offset, place.width);
        WriteIsSlice(base, current, env, Runtime.Selected(part, o, layout.elementWidth, value), widths);
        AssignNested(current, place.offset, place.width, o, layout.elementWidth, value);
    }
  }

  /** The symbolic backend's nested assignment is the simulator's flat one. */
  lemma WriteIsWritten(target: Target, current: Bits, env: Store, value: Bits, widths: seq<nat>)
    requires SoundTarget(target, widths) && StaysInside(target, env, widths)
    requires Root(target) < |env| && Root(target) < |widths| && |current| == widths[Root(target)] == |env[Root(target)]|
    requires Locate(target, env).Some? && (target.Whole? || |value| == TargetWidth(target, widths))
    ensures WriteThrough(target, current, env, value, widths) ==
      Some(Written(current, target, Locate(target, env).value, value))
  {
    hide UsizeOf;
    hide SoundTarget;
    hide Locate;
    hide ReadThrough;
    hide PartFits;
    hide Runtime.Select;
    hide Runtime.Selected;
    hide Runtime.Resized;
    SoundTargetFits(target, widths);
    if !target.Whole? {
      hide WriteThrough;
      hide ArraysFit;
      if StrictlyInside(target, env, widths) {
        WriteIsSlice(target, current, env, value, widths);
        TargetIsSlice(target, current, env, widths);
      } else {
        NotInside(target, env, widths);
        StrayWrite(target, current, env, value, widths);
      }
    }
  }

  lemma NotInside(target: Target, env: Store, widths: seq<nat>)
    requires StaysInside(target, env, widths) && !StrictlyInside(target, env, widths) && Locate(target, env).Some?
    ensures target.PartOf? && StrictlyInside(target.base, env, widths)
    ensures !PartFits(target.base, target.offset, target.width, env, widths)
    ensures Locate(target, env).value.width == target.width
    ensures Locate(target, env).value.offset + target.width > TargetWidth(Whole(Root(target)), widths)
  {
    hide UsizeOf;
  }

  /** A part of a whole variable is in range or leaves the variable. */
  lemma WholePartStays(target: Target, env: Store, widths: seq<nat>)
    requires target.PartOf? && target.base.Whole?
    ensures StaysInside(target, env, widths)
  {
    hide UsizeOf;
    hide Pow2;
    assert target.base == Whole(Root(target)) && StrictlyInside(target.base, env, widths);
    if Locate(target, env).Some? {
      assert Locate(target.base, env).value.offset == 0;
      assert Locate(target, env).value.offset == UsizeOf(target.offset, env).value;
    }
  }

  // ----- where the backends part -----

  /** A part that leaves its array element: the symbolic backend drops the write, the
      simulator writes whatever bits of the root lie there. */
  lemma StrayWrite(target: Target, current: Bits, env: Store, value: Bits, widths: seq<nat>)
    requires target.PartOf? && SoundTarget(target, widths) && StrictlyInside(target.base, env, widths)
    requires !PartFits(target.base, target.offset, target.width, env, widths)
    requires Root(target) < |env| && Root(target) < |widths| && |current| == widths[Root(target)] == |env[Root(target)]|
    requires Locate(target, env).Some? && |value| == target.width
    ensures WriteThrough(target, current, env, value, widths) == Some(current)
    ensures var place := Locate(target, env).value;
      Written(current, target, place, value) == current <==>
        place.offset + place.width > |current| || Runtime.Select(current, place.offset, place.width) == value
  {
    hide UsizeOf;
    hide Sound;
    hide Pow2;
    var base := target.base;
    SoundTargetFits(base, widths);
    TargetIsSlice(base, current, env, widths);
    var inner, place := Locate(base, env).value, Locate(target, env).value;
    var part := Runtime.Select(current, inner.offset, inner.width);
    WriteIsSlice(base, current, env, part, widths);
    hide Locate;
    hide ReadThrough;
    hide Runtime.Select;
    hide Runtime.Selected;
    Runtime.SelectAfterAssign(current, inner.offset, part);
    DroppedWrite(part, UsizeOf(target.offset, env).value, target.width, value);
    if place.offset + place.width <= |current| {
      Runtime.SelectAfterAssign(current, place.offset, value);
    } else {
      DroppedWrite(current, place.offset, place.width, value);
    }
  }

  lemma DroppedWrite(b: Bits, offset: nat, width: nat, value: Bits)
    requires offset + width > |b|
    ensures Runtime.Selected(b, offset, width, value) == b
  {
  }

  /** Bit 2 of element 0, where elements have two bits, is bit 0 of element 1. */
  lemma StrayWriteExample()
    ensures
      var target := PartOf(ElementOf(Whole(0), Literal(0, 1), Layout(Range(0, 1), 2)), Read(1, 2), 1);
      var env: Store := [[false, false, false, false], [false, true]];
      && WriteThrough(target, env[0], env, [true], [4, 2]) == Some(env[0])
      && Locate(target, env) == Some(Place(0, 2, 1))
      && Written(env[0], target, Place(0, 2, 1), [true]) == [false, false, true, false]
  {
    var target := PartOf(ElementOf(Whole(0), Literal(0, 1), Layout(Range(0, 1), 2)), Read(1, 2), 1);
    var env: Store := [[false, false, false, false], [false, true]];
    assert Pow2(64) > 2 by {
      Pow2Monotone(2, 64);
    }
    assert UsizeOf(Literal(0, 1), env) == Some(0);
    OffsetTwo(env);
    assert ElementOffset(Literal(0, 1), Layout(Range(0, 1), 2), env) == Some(0);
    assert Locate(target.base, env) == Some(Place(0, 0, 2));
    assert Locate(target, env) == Some(Place(0, 2, 1));
    StrayWrite(target, env[0], env, [true], [4, 2]);
  }

  lemma OffsetTwo(env: Store)
    requires |env| == 2 && env[1] == [false, true]
    ensures UsizeOf(Read(1, 2), env) == Some(2)
  {
    var b := env[1];
    assert b[..1] == [false] && [false][..0] == [];
    assert ToNat([]) == 0 && ToNat(b[..1]) == 0;
    assert ToNat(b) == 2;
    assert ValueOf(Read(1, 2), env) == Some(b);
  }
}
