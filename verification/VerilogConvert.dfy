/** Symbolic execution of processes: the gates it builds denote what the generated
    simulator computes along the branches it takes. */
module VerilogConvert {
  import opened Words
  import opened Fsm
  import opened Ops
  import opened Ranges
  import opened Slices
  import opened VerilogAst
  import opened VerilogAnalysis
  import opened VerilogSimulator
  import opened VerilogOperators
  import opened VerilogSelection
  import opened VerilogExpressions
  import opened VerilogTargets
  import Runtime = VerilogRuntime

  // ----- targets -----

  /** Every value has the width of its variable. */
  ghost predicate Sized(environment: Environment, widths: seq<nat>) {
    forall id :: id in environment ==> id < |widths| && |environment[id]| == widths[id]
  }

  ghost predicate Valid(environment: Environment, widths: seq<nat>, limit: nat) {
    Sized(environment, widths) && EnvironmentKnown(environment, limit)
  }

  /** The bits of the root before the assignment, if it has any. */
  function CurrentBits(s: Assignment, environment: Environment, id: nat): Bits {
    if id in environment then BitsOf(s, environment[id]) else []
  }

  ghost predicate ReadsTarget(variables: seq<Driver>, target: Target, environment: Environment,
    evaluation: Environment, values: seq<Value>) {
    forall s, env :: Settled(variables, s) && Agrees(s, evaluation, env, IndexReads(target)) ==>
      Matches(ReadThrough(target, CurrentBits(s, environment, Root(target)), env), BitsOf(s, values))
  }

  ghost predicate WritesTarget(variables: seq<Driver>, target: Target, value: seq<Value>, environment: Environment,
    evaluation: Environment, widths: seq<nat>, result: seq<Value>) {
    forall s, env :: Settled(variables, s) && Agrees(s, evaluation, env, IndexReads(target)) ==>
      Matches(WriteThrough(target, CurrentBits(s, environment, Root(target)), env, BitsOf(s, value), widths),
        BitsOf(s, result))
  }

  /** The backend can read what a target names: its root has a value. */
  predicate ReadAccepted(target: Target, keys: set<nat>, evaluated: map<nat, nat>, widths: seq<nat>) {
    match target
    case Whole(id) => id in keys
    case PartOf(base, offset, width) =>
      && ReadAccepted(base, keys, evaluated, widths)
      && SelectAccepted(offset, TargetWidth(base, widths), width, evaluated)
    case ElementOf(base, index, layout) =>
      && ReadAccepted(base, keys, evaluated, widths)
      && IndexAccepted(index, layout, TargetWidth(base, widths), evaluated)
  }

  /** A part of `width` bits can be replaced. */
  predicate ReplaceAccepted(offset: Expression, available: nat, width: nat, evaluated: map<nat, nat>) {
    && width <= available
    && if offset.Literal? then offset.value < Pow2(Runtime.USIZE_BITS) && offset.value + width <= available
       else Accepts(offset, evaluated) && WordWidth(offset, evaluated) > 0
  }

  /** The backend can assign a value to a target. Whole variables take any width, parts
      and elements exactly their own. */
  predicate AssignAccepted(target: Target, valueWidth: nat, keys: set<nat>, evaluated: map<nat, nat>,
    widths: seq<nat>)
  {
    match target
    case Whole(id) => id < |widths|
    case PartOf(base, offset, width) =>
      && ReadAccepted(base, keys, evaluated, widths) && valueWidth == width
      && ReplaceAccepted(offset, TargetWidth(base, widths), width, evaluated)
      && AssignAccepted(base, TargetWidth(base, widths), keys, evaluated, widths)
    case ElementOf(base, index, layout) =>
      && ReadAccepted(base, keys, evaluated, widths) && valueWidth == layout.elementWidth
      && IndexAccepted(index, layout, TargetWidth(base, widths), evaluated)
      && AssignAccepted(base, TargetWidth(base, widths), keys, evaluated, widths)
  }

  method ReadTarget(fsm: FSM, target: Target, environment: Environment, evaluation: Environment,
    ghost widths: seq<nat>)
    returns (r: Option<seq<Value>>)
    requires Ordered(fsm.variables) && Valid(environment, widths, |fsm.variables|)
    requires EnvironmentKnown(evaluation, |fsm.variables|)
    modifies fsm`variables
    ensures Extended(old(fsm.variables), fsm.variables)
    ensures r.Some? <==> ReadAccepted(target, environment.Keys, WidthsOf(evaluation), widths)
    ensures r.Some? ==> Readable(fsm, r.value) && |r.value| == TargetWidth(target, widths) && Root(target) in environment
    ensures r.Some? && SoundTarget(target, widths) ==>
      ReadsTarget(fsm.variables, target, environment, evaluation, r.value)
    decreases target
  {
    hide ReadsTarget;
    hide Settled;
    hide UsizeOf;
    hide Sound;
    match target {
      case Whole(id) =>
        if id !in environment {
          return None;
        }
        r := Some(environment[id]);
        WholeReads(fsm.variables, target, environment, evaluation);
      case PartOf(base, offset, width) =>
        var source := ReadTarget(fsm, base, environment, evaluation, widths);
        if source == None {
          return None;
        }
        ghost var middle := fsm.variables;
        r := SelectValue(fsm, source.value, offset, width, evaluation);
        if r.Some? && SoundTarget(target, widths) {
          PartReads(middle, fsm.variables, target, environment, evaluation, source.value, r.value);
        }
      case ElementOf(base, index, layout) =>
        var source := ReadTarget(fsm, base, environment, evaluation, widths);
        if source == None {
          return None;
        }
        ghost var middle := fsm.variables;
        r := ArraySelectValue(fsm, source.value, index, layout, evaluation);
        if r.Some? && SoundTarget(target, widths) {
          ElementReads(middle, fsm.variables, target, environment, evaluation, source.value, r.value);
        }
    }
  }

  lemma WholeReads(variables: seq<Driver>, target: Target, environment: Environment, evaluation: Environment)
    requires target.Whole? && target.id in environment
    ensures ReadsTarget(variables, target, environment, evaluation, environment[target.id])
  {
  }

  lemma PartReads(before: seq<Driver>, variables: seq<Driver>, target: Target, environment: Environment,
    evaluation: Environment, source: seq<Value>, r: seq<Value>)
    requires target.PartOf? && Grows(before, variables)
    requires ReadsTarget(before, target.base, environment, evaluation, source)
    requires Selects(variables, source, target.offset, target.width, evaluation, r)
    ensures ReadsTarget(variables, target, environment, evaluation, r)
  {
    hide UsizeOf;
    hide Runtime.Select;
    hide Settled;
    forall s, env | Settled(variables, s) && Agrees(s, evaluation, env, IndexReads(target))
      ensures Matches(ReadThrough(target, CurrentBits(s, environment, Root(target)), env), BitsOf(s, r))
    {
      AgreesOnSome(s, evaluation, env, IndexReads(target), IndexReads(target.base));
      AgreesOnSome(s, evaluation, env, IndexReads(target), ExpressionReads(target.offset));
      assert Matches(ReadThrough(target.base, CurrentBits(s, environment, Root(target)), env), BitsOf(s, source));
      assert SelectedBits(BitsOf(s, source), UsizeOf(target.offset, env), target.width, BitsOf(s, r));
    }
  }

  lemma ElementReads(before: seq<Driver>, variables: seq<Driver>, target: Target, environment: Environment,
    evaluation: Environment, source: seq<Value>, r: seq<Value>)
    requires target.ElementOf? && Grows(before, variables)
    requires ReadsTarget(before, target.base, environment, evaluation, source)
    requires Indexes(variables, source, target.index, target.layout, evaluation, r)
    ensures ReadsTarget(variables, target, environment, evaluation, r)
  {
    hide UsizeOf;
    hide Runtime.Select;
    hide Settled;
    hide ArrayOffset;
    forall s, env | Settled(variables, s) && Agrees(s, evaluation, env, IndexReads(target))
      ensures Matches(ReadThrough(target, CurrentBits(s, environment, Root(target)), env), BitsOf(s, r))
    {
      AgreesOnSome(s, evaluation, env, IndexReads(target), IndexReads(target.base));
      AgreesOnSome(s, evaluation, env, IndexReads(target), ExpressionReads(target.index));
      assert Matches(ReadThrough(target.base, CurrentBits(s, environment, Root(target)), env), BitsOf(s, source));
      assert IndexedBits(BitsOf(s, source), UsizeOf(target.index, env), target.layout, BitsOf(s, r));
    }
  }

  // ----- one level of a write -----

  /** `result` is `current` with a part replaced. */
  ghost predicate ReplacesPart(variables: seq<Driver>, current: seq<Value>, offset: Expression, value: seq<Value>,
    evaluation: Environment, result: seq<Value>) {
    forall s, env :: Settled(variables, s) && Agrees(s, evaluation, env, ExpressionReads(offset)) ==>
      ReplacedPart(BitsOf(s, current), UsizeOf(offset, env), |value|, BitsOf(s, value), BitsOf(s, result))
  }

  predicate ReplacedPart(b: Bits, offset: Option<nat>, width: nat, value: Bits, r: Bits) {
    offset.Some? ==> r == Runtime.Selected(b, offset.value, width, value)
  }

  /** All results of writing `value` at each offset. */
  function Replacements(current: seq<Value>, value: seq<Value>): (r: seq<seq<Value>>)
    requires |value| <= |current|
    ensures |r| == |current| - |value| + 1
    ensures forall k :: 0 <= k < |r| ==> |r[k]| == |current|
  {
    seq(|current| - |value| + 1, k requires 0 <= k < |current| - |value| + 1 => ReplaceValues(current, k, value))
  }

  method ReplacePart(fsm: FSM, current: seq<Value>, offset: Expression, value: seq<Value>, evaluation: Environment)
    returns (r: Option<seq<Value>>)
    requires |value| <= |current| && Ordered(fsm.variables) && EnvironmentKnown(evaluation, |fsm.variables|)
    requires Readable(fsm, current) && Readable(fsm, value)
    modifies fsm`variables
    ensures Extended(old(fsm.variables), fsm.variables)
    ensures r.Some? <==> ReplaceAccepted(offset, |current|, |value|, WidthsOf(evaluation))
    ensures r.Some? ==> Readable(fsm, r.value) && |r.value| == |current|
    ensures r.Some? && (offset.Literal? || (Sound(offset) && |current| < |value| + Pow2(offset.width))) ==>
      ReplacesPart(fsm.variables, current, offset, value, evaluation, r.value)
  {
    hide Settled;
    hide Computes;
    hide Sound;
    hide LastMatch;
    hide ToNat;
    hide Pow2;
    if offset.Literal? {
      if offset.value >= Pow2(Runtime.USIZE_BITS) || offset.value + |value| > |current| {
        return None;
      }
      r := Some(ReplaceValues(current, offset.value, value));
      ReplacedKnown(current, offset.value, value, |fsm.variables|);
      forall s, env
        ensures ReplacedPart(BitsOf(s, current), UsizeOf(offset, env), |value|, BitsOf(s, value), BitsOf(s, r.value))
      {
        ReplacedBits(s, current, offset.value, value);
      }
    } else {
      hide UsizeOf;
      var word := ConvertExpression(fsm, offset, evaluation);
      if word == None {
        return None;
      }
      ghost var middle := fsm.variables;
      var replacements := Replacements(current, value);
      ReplacementsKnown(current, value, |fsm.variables|);
      r := ChooseCandidate(fsm, Offsets(|current| - |value| + 1), word.value, current, replacements);
      if r.Some? && Sound(offset) && |current| < |value| + Pow2(offset.width) {
        ComputesGrows(middle, fsm.variables, offset, evaluation, word.value);
        forall s, env | Settled(fsm.variables, s) && Agrees(s, evaluation, env, ExpressionReads(offset))
          ensures ReplacedPart(BitsOf(s, current), UsizeOf(offset, env), |value|, BitsOf(s, value), BitsOf(s, r.value))
        {
          WordOf(fsm.variables, offset, evaluation, word.value, s, env);
          if UsizeOf(offset, env).Some? {
            ChosenReplacement(s, current, value, word.value);
          }
        }
      }
    }
  }

  lemma ReplacementsKnown(current: seq<Value>, value: seq<Value>, limit: nat)
    requires |value| <= |current| && AllKnown(current, limit) && AllKnown(value, limit)
    ensures forall k :: 0 <= k < |Replacements(current, value)| ==> AllKnown(Replacements(current, value)[k], limit)
  {
    forall k | 0 <= k < |Replacements(current, value)|
      ensures AllKnown(Replacements(current, value)[k], limit)
    {
      ReplacedKnown(current, k, value, limit);
    }
  }

  lemma ChosenReplacement(s: Assignment, current: seq<Value>, value: seq<Value>, word: seq<Value>)
    requires |value| <= |current| && |current| < |value| + Pow2(|word|)
    ensures Chosen(s, Offsets(|current| - |value| + 1), word, current, Replacements(current, value)) ==
      Runtime.Selected(BitsOf(s, current), Word(s, word), |value|, BitsOf(s, value))
  {
    hide LastMatch;
    hide ToNat;
    hide Pow2;
    hide Runtime.Selected;
    hide ReplaceValues;
    var count := |current| - |value| + 1;
    var offset := Word(s, word);
    OffsetFound(count, |word|, offset);
    if offset < count {
      ReplacedBits(s, current, offset, value);
    } else {
      DroppedWrite(BitsOf(s, current), offset, |value|, BitsOf(s, value));
    }
  }

  ghost predicate ReplacesElement(variables: seq<Driver>, current: seq<Value>, index: Expression, layout: Layout,
    value: seq<Value>, evaluation: Environment, result: seq<Value>) {
    forall s, env :: Settled(variables, s) && Agrees(s, evaluation, env, ExpressionReads(index)) ==>
      ReplacedPart(BitsOf(s, current), ElementOffset(index, layout, env), layout.elementWidth, BitsOf(s, value),
        BitsOf(s, result))
  }

  function ElementReplacement(current: seq<Value>, k: nat, count: nat, value: seq<Value>): (r: seq<Value>)
    requires k < count && count * |value| <= |current|
    ensures |r| == |current|
  {
    ElementFits(k, count, |value|);
    ReplaceValues(current, k * |value|, value)
  }

  function ElementReplacements(current: seq<Value>, count: nat, value: seq<Value>): (r: seq<seq<Value>>)
    requires count * |value| <= |current|
    ensures |r| == count
    ensures forall k :: 0 <= k < count ==> |r[k]| == |current|
  {
    seq(count, k requires 0 <= k < count => ElementReplacement(current, k, count, value))
  }

  method ReplaceElement(fsm: FSM, current: seq<Value>, index: seq<Value>, layout: Layout, value: seq<Value>)
    returns (r: Option<seq<Value>>)
    requires |value| == layout.elementWidth && Ordered(fsm.variables)
    requires Readable(fsm, current) && Readable(fsm, value) && Readable(fsm, index)
    modifies fsm`variables
    ensures Extended(old(fsm.variables), fsm.variables)
    ensures r.Some? <==>
      && layout.indices.left >= 0 && layout.indices.right >= 0 && index != []
      && layout.indices.Length() * layout.elementWidth <= |current|
    ensures r.Some? ==> Readable(fsm, r.value) && |r.value| == |current|
    ensures r.Some? && Distinguishable(layout.indices, |index|) ==>
      forall s :: Settled(fsm.variables, s) ==>
        ReplacedPart(BitsOf(s, current), ArrayOffset(Word(s, index), layout.indices, layout.elementWidth),
          layout.elementWidth, BitsOf(s, value), BitsOf(s, r.value))
  {
    hide Settled;
    hide LastMatch;
    hide ToNat;
    hide Distinguishable;
    hide ArrayOffset;
    var candidates := IndexCandidates(layout.indices);
    var count := layout.indices.Length();
    if candidates == None || count * layout.elementWidth > |current| {
      return None;
    }
    ElementReplacementsKnown(current, count, value, |fsm.variables|);
    r := ChooseCandidate(fsm, candidates.value, index, current, ElementReplacements(current, count, value));
    if r.Some? && Distinguishable(layout.indices, |index|) {
      forall s | Settled(fsm.variables, s)
        ensures ReplacedPart(BitsOf(s, current), ArrayOffset(Word(s, index), layout.indices, layout.elementWidth),
          layout.elementWidth, BitsOf(s, value), BitsOf(s, r.value))
      {
        ChosenElementReplacement(s, current, layout, value, index);
      }
    }
  }

  lemma ElementReplacementsKnown(current: seq<Value>, count: nat, value: seq<Value>, limit: nat)
    requires count * |value| <= |current| && AllKnown(current, limit) && AllKnown(value, limit)
    ensures forall k :: 0 <= k < count ==> AllKnown(ElementReplacements(current, count, value)[k], limit)
  {
    forall k | 0 <= k < count
      ensures AllKnown(ElementReplacements(current, count, value)[k], limit)
    {
      ElementFits(k, count, |value|);
      ReplacedKnown(current, k * |value|, value, limit);
    }
  }

  lemma ChosenElementReplacement(s: Assignment, current: seq<Value>, layout: Layout, value: seq<Value>, word: seq<Value>)
    requires |value| == layout.elementWidth
    requires IndexCandidates(layout.indices).Some? && Distinguishable(layout.indices, |word|)
    requires layout.indices.Length() * |value| <= |current|
    ensures ReplacedPart(BitsOf(s, current), ArrayOffset(Word(s, word), layout.indices, |value|), |value|,
      BitsOf(s, value),
      Chosen(s, IndexCandidates(layout.indices).value, word, current,
        ElementReplacements(current, layout.indices.Length(), value)))
  {
    hide LastMatch;
    hide ToNat;
    hide Pow2;
    hide Runtime.Selected;
    var position := Position(Word(s, word), layout.indices);
    if position.Some? {
      IndexFound(layout.indices, |word|, Word(s, word));
      ElementFits(position.value, layout.indices.Length(), |value|);
      ReplacedBits(s, current, position.value * |value|, value);
    }
  }

  // ----- assignments -----

  /** Rebuilds the root variable from the innermost level outwards. */
  method AssignTarget(fsm: FSM, target: Target, value: seq<Value>, environment: Environment, evaluation: Environment,
    widths: seq<nat>)
    returns (r: Option<seq<Value>>)
    requires Ordered(fsm.variables) && Valid(environment, widths, |fsm.variables|)
    requires EnvironmentKnown(evaluation, |fsm.variables|) && Readable(fsm, value)
    modifies fsm`variables
    ensures Extended(old(fsm.variables), fsm.variables)
    ensures r.Some? <==> AssignAccepted(target, |value|, environment.Keys, WidthsOf(evaluation), widths)
    ensures r.Some? ==> Readable(fsm, r.value) && Root(target) < |widths| && |r.value| == widths[Root(target)]
    ensures r.Some? ==> target.Whole? || (Root(target) in environment && |value| == TargetWidth(target, widths))
    ensures r.Some? && SoundTarget(target, widths) ==>
      WritesTarget(fsm.variables, target, value, environment, evaluation, widths, r.value)
    decreases target
  {
    hide WritesTarget;
    hide ReadsTarget;
    hide ReplacesPart;
    hide Settled;
    hide Sound;
    hide Computes;
    hide Distinguishable;
    match target {
      case Whole(id) =>
        if id >= |widths| {
          return None;
        }
        r := Some(ResizeValues(value, widths[id], false, LOW));
        ResizedValues(value, widths[id], false, |fsm.variables|);
        WholeWrites(fsm.variables, target, value, environment, evaluation, widths);
      case PartOf(base, offset, width) =>
        var current := ReadTarget(fsm, base, environment, evaluation, widths);
        if current == None || |value| != width || width > |current.value| {
          return None;
        }
        ghost var read := fsm.variables;
        var replaced := ReplacePart(fsm, current.value, offset, value, evaluation);
        if replaced == None {
          return None;
        }
        ghost var middle := fsm.variables;
        r := AssignTarget(fsm, base, replaced.value, environment, evaluation, widths);
        if r.Some? && SoundTarget(target, widths) {
          GrowsTwice(read, middle, fsm.variables);
          PartWrites(read, middle, fsm.variables, target, value, environment, evaluation, widths, current.value,
            replaced.value, r.value);
        }
      case ElementOf(base, index, layout) =>
        if |value| != layout.elementWidth {
          return None;
        }
        var word := ConvertExpression(fsm, index, evaluation);
        if word == None {
          return None;
        }
        ghost var converted := fsm.variables;
        var current := ReadTarget(fsm, base, environment, evaluation, widths);
        if current == None {
          return None;
        }
        ghost var read := fsm.variables;
        var replaced := ReplaceElement(fsm, current.value, word.value, layout, value);
        if replaced == None {
          return None;
        }
        ghost var middle := fsm.variables;
        r := AssignTarget(fsm, base, replaced.value, environment, evaluation, widths);
        if r.Some? && SoundTarget(target, widths) {
          GrowsTwice(converted, read, middle);
          GrowsTwice(converted, middle, fsm.variables);
          GrowsTwice(read, middle, fsm.variables);
          ComputesGrows(converted, middle, index, evaluation, word.value);
          ElementReplaced(middle, current.value, index, layout, word.value, value, evaluation, replaced.value);
          ElementWrites(read, middle, fsm.variables, target, value, environment, evaluation, widths, current.value,
            replaced.value, r.value);
        }
    }
  }

  lemma WholeWrites(variables: seq<Driver>, target: Target, value: seq<Value>, environment: Environment,
    evaluation: Environment, widths: seq<nat>)
    requires target.Whole? && target.id < |widths|
    ensures WritesTarget(variables, target, value, environment, evaluation, widths,
      ResizeValues(value, widths[target.id], false, LOW))
  {
    hide ResizeValues;
    hide Runtime.Resized;
    forall s
      ensures BitsOf(s, ResizeValues(value, widths[target.id], false, LOW)) ==
        Runtime.Resized(BitsOf(s, value), widths[target.id], false)
    {
      ResizedBits(s, value, widths[target.id]);
    }
  }

  lemma ResizedBits(s: Assignment, value: seq<Value>, width: nat)
    ensures BitsOf(s, ResizeValues(value, width, false, LOW)) == Runtime.Resized(BitsOf(s, value), width, false)
  {
  }

  lemma PartWrites(read: seq<Driver>, middle: seq<Driver>, variables: seq<Driver>, target: Target, value: seq<Value>,
    environment: Environment, evaluation: Environment, widths: seq<nat>, current: seq<Value>, replaced: seq<Value>,
    r: seq<Value>)
    requires target.PartOf? && |value| == target.width && Grows(read, variables) && Grows(middle, variables)
    requires ReadsTarget(read, target.base, environment, evaluation, current)
    requires ReplacesPart(middle, current, target.offset, value, evaluation, replaced)
    requires WritesTarget(variables, target.base, replaced, environment, evaluation, widths, r)
    ensures WritesTarget(variables, target, value, environment, evaluation, widths, r)
  {
    hide UsizeOf;
    hide Runtime.Selected;
    hide Settled;
    forall s, env | Settled(variables, s) && Agrees(s, evaluation, env, IndexReads(target))
      ensures Matches(WriteThrough(target, CurrentBits(s, environment, Root(target)), env, BitsOf(s, value), widths),
        BitsOf(s, r))
    {
      AgreesOnSome(s, evaluation, env, IndexReads(target), IndexReads(target.base));
      AgreesOnSome(s, evaluation, env, IndexReads(target), ExpressionReads(target.offset));
      var b := CurrentBits(s, environment, Root(target));
      assert Matches(ReadThrough(target.base, b, env), BitsOf(s, current));
      assert ReplacedPart(BitsOf(s, current), UsizeOf(target.offset, env), |value|, BitsOf(s, value), BitsOf(s, replaced));
      assert Matches(WriteThrough(target.base, b, env, BitsOf(s, replaced), widths), BitsOf(s, r));
    }
  }

  lemma ElementReplaced(variables: seq<Driver>, current: seq<Value>, index: Expression, layout: Layout,
    word: seq<Value>, value: seq<Value>, evaluation: Environment, replaced: seq<Value>)
    requires Computes(variables, index, evaluation, word) && Sound(index)
    requires Distinguishable(layout.indices, index.width)
    requires Distinguishable(layout.indices, |word|) ==>
      forall s :: Settled(variables, s) ==>
        ReplacedPart(BitsOf(s, current), ArrayOffset(Word(s, word), layout.indices, layout.elementWidth),
          layout.elementWidth, BitsOf(s, value), BitsOf(s, replaced))
    ensures ReplacesElement(variables, current, index, layout, value, evaluation, replaced)
  {
    hide Settled;
    hide Sound;
    hide Computes;
    hide ArrayOffset;
    hide UsizeOf;
    hide Distinguishable;
    hide Runtime.Selected;
    hide ToNat;
    forall s, env | Settled(variables, s) && Agrees(s, evaluation, env, ExpressionReads(index))
      ensures ReplacedPart(BitsOf(s, current), ElementOffset(index, layout, env), layout.elementWidth, BitsOf(s, value),
        BitsOf(s, replaced))
    {
      WordOf(variables, index, evaluation, word, s, env);
    }
  }

  lemma ElementWrites(read: seq<Driver>, middle: seq<Driver>, variables: seq<Driver>, target: Target,
    value: seq<Value>, environment: Environment, evaluation: Environment, widths: seq<nat>, current: seq<Value>,
    replaced: seq<Value>, r: seq<Value>)
    requires target.ElementOf? && Grows(read, variables) && Grows(middle, variables)
    requires ReadsTarget(read, target.base, environment, evaluation, current)
    requires ReplacesElement(middle, current, target.index, target.layout, value, evaluation, replaced)
    requires WritesTarget(variables, target.base, replaced, environment, evaluation, widths, r)
    ensures WritesTarget(variables, target, value, environment, evaluation, widths, r)
  {
    hide ElementOffset;
    hide Runtime.Selected;
    hide Settled;
    forall s, env | Settled(variables, s) && Agrees(s, evaluation, env, IndexReads(target))
      ensures Matches(WriteThrough(target, CurrentBits(s, environment, Root(target)), env, BitsOf(s, value), widths),
        BitsOf(s, r))
    {
      AgreesOnSome(s, evaluation, env, IndexReads(target), IndexReads(target.base));
      AgreesOnSome(s, evaluation, env, IndexReads(target), ExpressionReads(target.index));
      var b := CurrentBits(s, environment, Root(target));
      assert Matches(ReadThrough(target.base, b, env), BitsOf(s, current));
      assert ReplacedPart(BitsOf(s, current), ElementOffset(target.index, target.layout, env), target.layout.elementWidth,
        BitsOf(s, value), BitsOf(s, replaced));
      assert Matches(WriteThrough(target.base, b, env, BitsOf(s, replaced), widths), BitsOf(s, r));
    }
  }

  // ----- statements -----

  predicate SoundStatement(statement: Statement, widths: seq<nat>)
    decreases statement
  {
    match statement
    case Block(statements) => forall i :: 0 <= i < |statements| ==> SoundStatement(statements[i], widths)
    case Assign(_, target, value) => Sound(value) && SoundTarget(target, widths)
    case If(condition, thenStatements, elseStatements) =>
      && Sound(condition)
      && (forall i :: 0 <= i < |thenStatements| ==> SoundStatement(thenStatements[i], widths))
      && (forall i :: 0 <= i < |elseStatements| ==> SoundStatement(elseStatements[i], widths))
  }

  /** On the path taken, parts of array elements stay inside their elements. */
  predicate StaysInRange(statement: Statement, state: State, widths: seq<nat>)
    decreases statement
  {
    match statement
    case Block(statements) => AllStayInRange(statements, state, widths)
    case Assign(_, target, _) => StaysInside(target, state.env, widths)
    case If(condition, thenStatements, elseStatements) =>
      match ValueOf(condition, state.env)
      case None => true
      case Some(c) => AllStayInRange(if Runtime.Truthy(c) then thenStatements else elseStatements, state, widths)
  }

  predicate AllStayInRange(statements: seq<Statement>, state: State, widths: seq<nat>)
    decreases statements
  {
    if statements == [] then true
    else
      var before := statements[..|statements| - 1];
      && AllStayInRange(before, state, widths)
      && (ExecuteAll(before, state).Some? ==>
            StaysInRange(statements[|statements| - 1], ExecuteAll(before, state).value, widths))
  }

  predicate Shaped(store: Store, widths: seq<nat>) {
    |store| == |widths| && forall i :: 0 <= i < |widths| ==> |store[i]| == widths[i]
  }

  /** The word that the symbolic map gives a variable: zero as long as nothing has assigned
      it. */
  function WordIn(environment: Environment, id: nat, width: nat): seq<Value> {
    if id in environment then environment[id] else ConstantWord(Zeros(width))
  }

  /** The store holds what the symbolic map denotes, and zero where it has nothing. */
  ghost predicate Denotes(s: Assignment, environment: Environment, store: Store, widths: seq<nat>) {
    |store| == |widths| && forall id :: 0 <= id < |widths| ==> store[id] == BitsOf(s, WordIn(environment, id, widths[id]))
  }

  /** The symbolic maps denote the simulator's state: all of its variables, and the deferred
      values of the `deferred` ones. */
  ghost predicate Simulates(s: Assignment, environment: Environment, pending: Environment, state: State,
    deferred: set<nat>, widths: seq<nat>) {
    && Denotes(s, environment, state.env, widths) && Agrees(s, pending, state.pending, deferred)
    && Shaped(state.env, widths) && Shaped(state.pending, widths)
  }

  /** The variables have values. */
  predicate Present(ids: set<nat>, environment: Environment, widths: seq<nat>) {
    forall id :: id in ids ==> id in environment && id < |widths|
  }

  lemma PresentAgree(s: Assignment, environment: Environment, store: Store, widths: seq<nat>, ids: set<nat>)
    requires Denotes(s, environment, store, widths) && Present(ids, environment, widths)
    ensures Agrees(s, environment, store, ids)
  {
  }

  lemma SimulatesPresent(s: Assignment, environment: Environment, pending: Environment, state: State,
    deferred: set<nat>, widths: seq<nat>, ids: set<nat>)
    requires Simulates(s, environment, pending, state, deferred, widths) && Present(ids, environment, widths)
    ensures Agrees(s, environment, state.env, ids)
  {
    PresentAgree(s, environment, state.env, widths, ids);
  }

  /** What makes a statement convertible without loss: its deferred writes are tracked, and
      its widths are sound. */
  predicate Claimable(statement: Statement, deferred: set<nat>, widths: seq<nat>) {
    SoundStatement(statement, widths) && WritesOf(statement, true) <= deferred
  }

  /** Whatever concrete run the symbolic maps denote before the statement, they denote
      its outcome afterwards. */
  ghost predicate Refines(variables: seq<Driver>, statement: Statement, environment: Environment,
    pending: Environment, deferred: set<nat>, widths: seq<nat>, environment': Environment,
    pending': Environment) {
    forall s, state ::
      Settled(variables, s) && Simulates(s, environment, pending, state, deferred, widths) ==>
        OutcomeSimulated(s, statement, state, environment', pending', deferred, widths)
  }

  ghost predicate OutcomeSimulated(s: Assignment, statement: Statement, state: State, environment': Environment,
    pending': Environment, deferred: set<nat>, widths: seq<nat>) {
    Execute(statement, state).Some? && StaysInRange(statement, state, widths) ==>
      Simulates(s, environment', pending', Execute(statement, state).value, deferred, widths)
  }

  lemma RefinesGrows(before: seq<Driver>, after: seq<Driver>, statement: Statement, environment: Environment,
    pending: Environment, deferred: set<nat>, widths: seq<nat>, environment': Environment,
    pending': Environment)
    requires Grows(before, after)
    requires Refines(before, statement, environment, pending, deferred, widths, environment', pending')
    ensures Refines(after, statement, environment, pending, deferred, widths, environment', pending')
  {
    hide Settled;
    hide Simulates;
    hide OutcomeSimulated;
  }

  // ----- merging -----

  /** The value a variable has after a branch. */
  function Fallback(environment: Environment, before: Environment, id: nat, width: nat): seq<Value> {
    if id in environment then environment[id] else WordIn(before, id, width)
  }

  ghost predicate Merges(variables: seq<Driver>, condition: Value, thenEnvironment: Environment,
    elseEnvironment: Environment, before: Environment, widths: seq<nat>, merged: Environment) {
    && merged.Keys == thenEnvironment.Keys + elseEnvironment.Keys
    && forall s, id :: Settled(variables, s) && id in merged && id < |widths| ==>
         BitsOf(s, merged[id]) ==
           BranchBits(s, condition, thenEnvironment, elseEnvironment, before, id, widths[id])
  }

  method MergeEnvironments(fsm: FSM, condition: Value, thenEnvironment: Environment, elseEnvironment: Environment,
    before: Environment, widths: seq<nat>)
    returns (r: Option<Environment>)
    requires Ordered(fsm.variables) && condition.Known(|fsm.variables|)
    requires Valid(thenEnvironment, widths, |fsm.variables|) && Valid(elseEnvironment, widths, |fsm.variables|)
    requires Valid(before, widths, |fsm.variables|)
    modifies fsm`variables
    ensures Extended(old(fsm.variables), fsm.variables)
    ensures r.Some? && Valid(r.value, widths, |fsm.variables|)
    ensures r.Some? ==> r.value.Keys == thenEnvironment.Keys + elseEnvironment.Keys
    ensures r.Some? ==>
      Merges(fsm.variables, condition, thenEnvironment, elseEnvironment, before, widths, r.value)
  {
    hide Settled;
    hide Fallback;
    hide Ordered;
    hide AllKnown;
    ghost var start := fsm.variables;
    var merged: Environment := map[];
    for id := 0 to |widths|
      invariant Extended(start, fsm.variables) && Valid(merged, widths, |fsm.variables|)
      invariant merged.Keys == set k: nat | k in thenEnvironment.Keys + elseEnvironment.Keys && k < id
      invariant forall s, k :: Settled(fsm.variables, s) && k in merged ==>
        BitsOf(s, merged[k]) ==
          BranchBits(s, condition, thenEnvironment, elseEnvironment, before, k, widths[k])
    {
      if id in thenEnvironment || id in elseEnvironment {
        KnownLater(thenEnvironment, |start|, |fsm.variables|);
        KnownLater(elseEnvironment, |start|, |fsm.variables|);
        KnownLater(before, |start|, |fsm.variables|);
        FallbackValid(thenEnvironment, before, id, widths, |fsm.variables|);
        FallbackValid(elseEnvironment, before, id, widths, |fsm.variables|);
        ghost var earlier := |fsm.variables|;
        var value := MergeValue(fsm, condition, Fallback(thenEnvironment, before, id, widths[id]),
          Fallback(elseEnvironment, before, id, widths[id]));
        KnownLater(merged, earlier, |fsm.variables|);
        merged := merged[id := value];
      }
    }
    return Some(merged);
  }

  /** The bits of a variable after the branch that the condition selects. */
  function BranchBits(s: Assignment, condition: Value, thenEnvironment: Environment, elseEnvironment: Environment,
    before: Environment, id: nat, width: nat): Bits {
    if Holds(s, condition) then BitsOf(s, Fallback(thenEnvironment, before, id, width))
    else BitsOf(s, Fallback(elseEnvironment, before, id, width))
  }

  /** Equal values need no multiplexer. */
  method MergeValue(fsm: FSM, condition: Value, thenValue: seq<Value>, elseValue: seq<Value>) returns (r: seq<Value>)
    requires |thenValue| == |elseValue| && Ordered(fsm.variables) && condition.Known(|fsm.variables|)
    requires Readable(fsm, thenValue) && Readable(fsm, elseValue)
    modifies fsm`variables
    ensures Extended(old(fsm.variables), fsm.variables) && Readable(fsm, r) && |r| == |thenValue|
    ensures forall s :: Settled(fsm.variables, s) ==>
      BitsOf(s, r) == if Holds(s, condition) then BitsOf(s, thenValue) else BitsOf(s, elseValue)
  {
    if thenValue == elseValue {
      r := thenValue;
    } else {
      r := CreateMux(fsm, elseValue, thenValue, condition);
    }
  }

  lemma FallbackValid(environment: Environment, before: Environment, id: nat, widths: seq<nat>, limit: nat)
    requires Valid(environment, widths, limit) && Valid(before, widths, limit) && id < |widths|
    ensures AllKnown(Fallback(environment, before, id, widths[id]), limit)
    ensures |Fallback(environment, before, id, widths[id])| == widths[id]
  {
  }

  // ----- why each form refines -----

  lemma AssignmentRefines(variables: seq<Driver>, statement: Statement, environment: Environment,
    pending: Environment, deferred: set<nat>, widths: seq<nat>, value: seq<Value>, result: seq<Value>)
    requires statement.Assign? && Claimable(statement, deferred, widths)
    requires OperandsPresent(statement, environment, widths)
    requires Computes(variables, statement.value, environment, value)
    requires WritesTarget(variables, statement.target, value,
      if statement.kind == Nonblocking then pending else environment, environment, widths, result)
    requires statement.target.Whole? || |value| == TargetWidth(statement.target, widths)
    requires Root(statement.target) < |widths| && |result| == widths[Root(statement.target)]
    ensures
      var root := Root(statement.target);
      Refines(variables, statement, environment, pending, deferred, widths,
        if statement.kind == Nonblocking then environment else environment[root := result],
        if statement.kind == Nonblocking then pending[root := result] else pending)
  {
    hide Settled;
    hide Computes;
    hide WritesTarget;
    hide SoundTarget;
    hide Sound;
    hide ValueOf;
    hide Simulates;
    hide StaysInside;
    var root := Root(statement.target);
    var environment' := if statement.kind == Nonblocking then environment else environment[root := result];
    var pending' := if statement.kind == Nonblocking then pending[root := result] else pending;
    forall s, state | Settled(variables, s) && Simulates(s, environment, pending, state, deferred, widths)
      ensures OutcomeSimulated(s, statement, state, environment', pending', deferred, widths)
    {
      if Execute(statement, state).Some? && StaysInRange(statement, state, widths) {
        AssignmentOutcome(s, variables, statement, environment, pending, deferred, widths, value, result, state);
      }
    }
  }

  lemma AssignmentOutcome(s: Assignment, variables: seq<Driver>, statement: Statement, environment: Environment,
    pending: Environment, deferred: set<nat>, widths: seq<nat>, value: seq<Value>,
    result: seq<Value>, state: State)
    requires statement.Assign? && Claimable(statement, deferred, widths)
    requires Settled(variables, s) && Simulates(s, environment, pending, state, deferred, widths)
    requires Execute(statement, state).Some? && StaysInRange(statement, state, widths)
    requires OperandsPresent(statement, environment, widths)
    requires Computes(variables, statement.value, environment, value)
    requires WritesTarget(variables, statement.target, value,
      if statement.kind == Nonblocking then pending else environment, environment, widths, result)
    requires statement.target.Whole? || |value| == TargetWidth(statement.target, widths)
    requires Root(statement.target) < |widths| && |result| == widths[Root(statement.target)]
    ensures
      var root := Root(statement.target);
      Simulates(s, if statement.kind == Nonblocking then environment else environment[root := result],
        if statement.kind == Nonblocking then pending[root := result] else pending,
        Execute(statement, state).value, deferred, widths)
  {
    hide Settled;
    hide SoundTarget;
    hide Sound;
    hide ValueOf;
    hide StaysInside;
    hide Locate;
    hide WriteThrough;
    hide Written;
    hide Runtime.Resized;
    var target := statement.target;
    var root := Root(target);
    var v, place := ValueOf(statement.value, state.env).value, Locate(target, state.env).value;
    LocateRoot(target, state.env);
    PresentAgree(s, environment, state.env, widths, ExpressionReads(statement.value));
    PresentAgree(s, environment, state.env, widths, IndexReads(target));
    assert Matches(ValueOf(statement.value, state.env), BitsOf(s, value));
    var destination := if statement.kind == Nonblocking then pending else environment;
    var current := if statement.kind == Nonblocking then state.pending[root] else state.env[root];
    if target.Whole? {
      WholeWriteIgnoresCurrent(target, CurrentBits(s, destination, root), current, state.env, v, widths);
    } else {
      assert CurrentBits(s, destination, root) == current;
    }
    WriteIsWritten(target, current, state.env, v, widths);
    assert Matches(WriteThrough(target, CurrentBits(s, destination, root), state.env, BitsOf(s, value), widths),
      BitsOf(s, result));
    assert BitsOf(s, result) == Written(current, target, place, v);
  }

  /** Everything that an assignment reads has a value. */
  predicate OperandsPresent(statement: Statement, environment: Environment, widths: seq<nat>)
    requires statement.Assign?
  {
    && Present(ExpressionReads(statement.value), environment, widths)
    && Present(IndexReads(statement.target), environment, widths)
    && (!statement.target.Whole? && statement.kind != Nonblocking ==> Root(statement.target) in environment)
  }

  lemma WholeWriteIgnoresCurrent(target: Target, a: Bits, b: Bits, env: Store, value: Bits, widths: seq<nat>)
    requires target.Whole?
    ensures WriteThrough(target, a, env, value, widths) == WriteThrough(target, b, env, value, widths)
  {
  }

  lemma EmptyRefines(variables: seq<Driver>, environment: Environment, pending: Environment, deferred: set<nat>, widths: seq<nat>)
    ensures Refines(variables, Block([]), environment, pending, deferred, widths, environment, pending)
  {
    hide Settled;
    hide Simulates;
  }

  lemma OneMoreStatement(statements: seq<Statement>, i: nat, state: State, widths: seq<nat>)
    requires i < |statements|
    ensures ExecuteAll(statements[..i + 1], state) ==
      match ExecuteAll(statements[..i], state)
      case None => None
      case Some(middle) => Execute(statements[i], middle)
    ensures AllStayInRange(statements[..i + 1], state, widths) <==>
      && AllStayInRange(statements[..i], state, widths)
      && (ExecuteAll(statements[..i], state).Some? ==>
            StaysInRange(statements[i], ExecuteAll(statements[..i], state).value, widths))
  {
    var longer := statements[..i + 1];
    assert longer[..|longer| - 1] == statements[..i] && longer[|longer| - 1] == statements[i];
  }

  /** One more statement of a list. */
  lemma SequenceRefines(variables: seq<Driver>, statements: seq<Statement>, i: nat, environment: Environment,
    pending: Environment, deferred: set<nat>, widths: seq<nat>, environment': Environment,
    pending': Environment, environment'': Environment, pending'': Environment)
    requires i < |statements|
    requires Refines(variables, Block(statements[..i]), environment, pending, deferred, widths, environment',
      pending')
    requires Refines(variables, statements[i], environment', pending', deferred,
      widths, environment'', pending'')
    ensures Refines(variables, Block(statements[..i + 1]), environment, pending, deferred, widths,
      environment'', pending'')
  {
    hide Settled;
    hide Simulates;
    var longer := statements[..i + 1];
    forall s, state | Settled(variables, s) && Simulates(s, environment, pending, state, deferred, widths)
      ensures OutcomeSimulated(s, Block(longer), state, environment'', pending'', deferred, widths)
    {
      OneMoreStatement(statements, i, state, widths);
      if Execute(Block(longer), state).Some? && StaysInRange(Block(longer), state, widths) {
        assert OutcomeSimulated(s, Block(statements[..i]), state, environment', pending', deferred,
          widths);
        var middle := ExecuteAll(statements[..i], state).value;
        assert OutcomeSimulated(s, statements[i], middle, environment'', pending'', deferred,
          widths);
      }
    }
  }

  /** The merged maps denote the outcome of whichever branch is taken. */
  lemma IfRefines(variables: seq<Driver>, statement: Statement, environment: Environment, pending: Environment,
    deferred: set<nat>, widths: seq<nat>, conditionValue: seq<Value>, condition: Value,
    thenEnvironment: Environment, thenPending: Environment, elseEnvironment: Environment, elsePending: Environment,
    environment': Environment, pending': Environment)
    requires statement.If? && Present(ExpressionReads(statement.condition), environment, widths)
    requires environment.Keys <= thenEnvironment.Keys && environment.Keys <= elseEnvironment.Keys
    requires Computes(variables, statement.condition, environment, conditionValue)
    requires forall s :: Settled(variables, s) ==> Holds(s, condition) == Runtime.Truthy(BitsOf(s, conditionValue))
    requires Refines(variables, Block(statement.thenStatements), environment, pending, deferred, widths,
      thenEnvironment, thenPending)
    requires Refines(variables, Block(statement.elseStatements), environment, pending, deferred, widths,
      elseEnvironment, elsePending)
    requires Merges(variables, condition, thenEnvironment, elseEnvironment, environment, widths, environment')
    requires Merges(variables, condition, thenPending, elsePending, map[], widths, pending')
    ensures Refines(variables, statement, environment, pending, deferred, widths, environment', pending')
  {
    hide Settled;
    hide Simulates;
    hide ValueOf;
    hide Merges;
    hide Runtime.Truthy;
    forall s, state | Settled(variables, s) && Simulates(s, environment, pending, state, deferred, widths)
      ensures OutcomeSimulated(s, statement, state, environment', pending', deferred, widths)
    {
      if Execute(statement, state).Some? && StaysInRange(statement, state, widths) {
        SimulatesPresent(s, environment, pending, state, deferred, widths, ExpressionReads(statement.condition));
        assert Matches(ValueOf(statement.condition, state.env), BitsOf(s, conditionValue));
        var taken := if Holds(s, condition) then statement.thenStatements else statement.elseStatements;
        assert OutcomeSimulated(s, Block(statement.thenStatements), state, thenEnvironment, thenPending, deferred,
          widths);
        assert OutcomeSimulated(s, Block(statement.elseStatements), state, elseEnvironment, elsePending, deferred,
          widths);
        assert Execute(statement, state) == ExecuteAll(taken, state);
        MergedSimulates(s, variables, condition, thenEnvironment, thenPending, elseEnvironment, elsePending, environment,
          environment', pending', ExecuteAll(taken, state).value, deferred, widths);
      }
    }
  }

  /** The converted condition and branches of an `if`. */
  datatype Branches = Branches(
    conditionValue: seq<Value>,
    condition: Value,
    thenEnvironment: Environment,
    thenPending: Environment,
    elseEnvironment: Environment,
    elsePending: Environment)

  ghost predicate BranchesRefine(variables: seq<Driver>, statement: Statement, environment: Environment,
    pending: Environment, deferred: set<nat>, widths: seq<nat>, b: Branches)
    requires statement.If?
  {
    && Present(ExpressionReads(statement.condition), environment, widths)
    && environment.Keys <= b.thenEnvironment.Keys && environment.Keys <= b.elseEnvironment.Keys
    && Computes(variables, statement.condition, environment, b.conditionValue)
    && (forall s :: Settled(variables, s) ==> Holds(s, b.condition) == Runtime.Truthy(BitsOf(s, b.conditionValue)))
    && Refines(variables, Block(statement.thenStatements), environment, pending, deferred, widths,
         b.thenEnvironment, b.thenPending)
    && Refines(variables, Block(statement.elseStatements), environment, pending, deferred, widths,
         b.elseEnvironment, b.elsePending)
  }

  lemma BranchesRefineGrown(v1: seq<Driver>, v2: seq<Driver>, v3: seq<Driver>, v4: seq<Driver>, statement: Statement,
    environment: Environment, pending: Environment, deferred: set<nat>, widths: seq<nat>, b: Branches)
    requires Grows(v1, v2) && Grows(v2, v3) && Grows(v3, v4)
    requires statement.If? && Present(ExpressionReads(statement.condition), environment, widths)
    requires environment.Keys <= b.thenEnvironment.Keys && environment.Keys <= b.elseEnvironment.Keys
    requires Computes(v1, statement.condition, environment, b.conditionValue)
    requires forall s :: Settled(v2, s) ==> Holds(s, b.condition) == Runtime.Truthy(BitsOf(s, b.conditionValue))
    requires Refines(v3, Block(statement.thenStatements), environment, pending, deferred, widths,
      b.thenEnvironment, b.thenPending)
    requires Refines(v4, Block(statement.elseStatements), environment, pending, deferred, widths,
      b.elseEnvironment, b.elsePending)
    ensures BranchesRefine(v4, statement, environment, pending, deferred, widths, b)
  {
    hide Settled;
    hide Computes;
    hide Refines;
    hide Runtime.Truthy;
    GrowsTwice(v2, v3, v4);
    GrowsTwice(v1, v2, v4);
    ComputesGrows(v1, v4, statement.condition, environment, b.conditionValue);
    RefinesGrows(v3, v4, Block(statement.thenStatements), environment, pending, deferred, widths,
      b.thenEnvironment, b.thenPending);
  }

  lemma IfRefinesGrown(v1: seq<Driver>, v2: seq<Driver>, variables: seq<Driver>, statement: Statement,
    environment: Environment, pending: Environment, deferred: set<nat>, widths: seq<nat>, b: Branches,
    environment': Environment, pending': Environment)
    requires Grows(v1, v2) && Grows(v2, variables) && statement.If?
    requires BranchesRefine(v1, statement, environment, pending, deferred, widths, b)
    requires Merges(v2, b.condition, b.thenPending, b.elsePending, map[], widths, pending')
    requires Merges(variables, b.condition, b.thenEnvironment, b.elseEnvironment, environment, widths, environment')
    ensures Refines(variables, statement, environment, pending, deferred, widths, environment', pending')
  {
    hide Settled;
    hide Computes;
    hide Refines;
    hide Merges;
    hide Runtime.Truthy;
    GrowsTwice(v1, v2, variables);
    ComputesGrows(v1, variables, statement.condition, environment, b.conditionValue);
    RefinesGrows(v1, variables, Block(statement.thenStatements), environment, pending, deferred, widths,
      b.thenEnvironment, b.thenPending);
    RefinesGrows(v1, variables, Block(statement.elseStatements), environment, pending, deferred, widths,
      b.elseEnvironment, b.elsePending);
    MergesGrow(v2, variables, b.condition, b.thenPending, b.elsePending, map[], widths, pending');
    IfRefines(variables, statement, environment, pending, deferred, widths, b.conditionValue, b.condition,
      b.thenEnvironment, b.thenPending, b.elseEnvironment, b.elsePending, environment', pending');
  }

  lemma MergedSimulates(s: Assignment, variables: seq<Driver>, condition: Value, thenEnvironment: Environment,
    thenPending: Environment, elseEnvironment: Environment, elsePending: Environment, before: Environment,
    environment': Environment, pending': Environment, state: State, deferred: set<nat>, widths: seq<nat>)
    requires Settled(variables, s)
    requires before.Keys <= thenEnvironment.Keys && before.Keys <= elseEnvironment.Keys
    requires Merges(variables, condition, thenEnvironment, elseEnvironment, before, widths, environment')
    requires Merges(variables, condition, thenPending, elsePending, map[], widths, pending')
    requires
      if Holds(s, condition) then Simulates(s, thenEnvironment, thenPending, state, deferred, widths)
      else Simulates(s, elseEnvironment, elsePending, state, deferred, widths)
    ensures Simulates(s, environment', pending', state, deferred, widths)
  {
    hide Settled;
    hide ConstantWord;
    forall id | 0 <= id < |widths|
      ensures state.env[id] == BitsOf(s, WordIn(environment', id, widths[id]))
    {
      if id in environment' {
        assert BitsOf(s, environment'[id]) ==
          BranchBits(s, condition, thenEnvironment, elseEnvironment, before, id, widths[id]);
      }
    }
  }

  // ----- which statements convert -----

  /** The widths of the variables that have a value. */
  function KeyWidths(keys: set<nat>, widths: seq<nat>): map<nat, nat> {
    map id | id in keys && id < |widths| :: widths[id]
  }

  lemma WidthsAreDeclared(environment: Environment, widths: seq<nat>, limit: nat)
    requires Valid(environment, widths, limit)
    ensures WidthsOf(environment) == KeyWidths(environment.Keys, widths)
  {
  }

  /** The backend converts the statement when the variables `keys` have values and
      `pending` have deferred ones. */
  predicate AcceptsStatement(statement: Statement, keys: set<nat>, pending: set<nat>, widths: seq<nat>)
    decreases statement
  {
    match statement
    case Block(statements) => AcceptsAll(statements, keys, pending, widths)
    case Assign(kind, target, value) =>
      var evaluated := KeyWidths(keys, widths);
      && Accepts(value, evaluated)
      && AssignAccepted(target, WordWidth(value, evaluated), if kind == Nonblocking then pending else keys, evaluated,
           widths)
    case If(condition, thenStatements, elseStatements) =>
      var evaluated := KeyWidths(keys, widths);
      && Accepts(condition, evaluated) && WordWidth(condition, evaluated) > 0
      && AcceptsAll(thenStatements, keys, pending, widths) && AcceptsAll(elseStatements, keys, pending, widths)
  }

  predicate AcceptsAll(statements: seq<Statement>, keys: set<nat>, pending: set<nat>, widths: seq<nat>)
    decreases statements
  {
    if statements == [] then true
    else
      var before := statements[..|statements| - 1];
      && AcceptsAll(before, keys, pending, widths)
      && AcceptsStatement(statements[|statements| - 1], keys + WritesOfAll(before, false),
           pending + WritesOfAll(before, true), widths)
  }

  /** What is accepted reads variables that have values. */
  lemma AcceptedReads(e: Expression, evaluated: map<nat, nat>)
    requires Accepts(e, evaluated)
    ensures ExpressionReads(e) <= evaluated.Keys
  {
    hide WordWidth;
  }

  lemma AcceptedIndices(target: Target, valueWidth: nat, keys: set<nat>, evaluated: map<nat, nat>, widths: seq<nat>)
    requires AssignAccepted(target, valueWidth, keys, evaluated, widths)
    ensures IndexReads(target) <= evaluated.Keys
    ensures !target.Whole? ==> Root(target) in keys
  {
    hide Accepts;
    hide WordWidth;
    match target
    case Whole(_) =>
    case PartOf(base, offset, _) =>
      if !offset.Literal? {
        AcceptedReads(offset, evaluated);
      }
      AcceptedIndices(base, TargetWidth(base, widths), keys, evaluated, widths);
    case ElementOf(base, index, _) =>
      AcceptedReads(index, evaluated);
      AcceptedIndices(base, TargetWidth(base, widths), keys, evaluated, widths);
  }

  lemma AcceptedPresent(statement: Statement, environment: Environment, pending: Environment, widths: seq<nat>,
    limit: nat)
    requires statement.Assign? && Valid(environment, widths, limit)
    requires AcceptsStatement(statement, environment.Keys, pending.Keys, widths)
    ensures OperandsPresent(statement, environment, widths)
  {
    hide Accepts;
    hide AssignAccepted;
    hide WordWidth;
    var evaluated := KeyWidths(environment.Keys, widths);
    AcceptedReads(statement.value, evaluated);
    AcceptedIndices(statement.target, WordWidth(statement.value, evaluated),
      if statement.kind == Nonblocking then pending.Keys else environment.Keys, evaluated, widths);
  }

  lemma ConditionPresent(e: Expression, environment: Environment, widths: seq<nat>, limit: nat)
    requires Valid(environment, widths, limit) && ExpressionReads(e) <= KeyWidths(environment.Keys, widths).Keys
    ensures Present(ExpressionReads(e), environment, widths)
  {
  }

  lemma {:induction false} AcceptsPrefix(statements: seq<Statement>, i: nat, keys: set<nat>, pending: set<nat>,
    widths: seq<nat>)
    requires i <= |statements| && AcceptsAll(statements, keys, pending, widths)
    ensures AcceptsAll(statements[..i], keys, pending, widths)
    decreases |statements|
  {
    if i < |statements| {
      AcceptsPrefix(statements[..|statements| - 1], i, keys, pending, widths);
      assert statements[..|statements| - 1][..i] == statements[..i];
    } else {
      assert statements[..i] == statements;
    }
  }

  lemma AcceptsMore(statements: seq<Statement>, i: nat, keys: set<nat>, pending: set<nat>, widths: seq<nat>)
    requires i < |statements|
    ensures AcceptsAll(statements[..i + 1], keys, pending, widths) <==>
      && AcceptsAll(statements[..i], keys, pending, widths)
      && AcceptsStatement(statements[i], keys + WritesOfAll(statements[..i], false),
           pending + WritesOfAll(statements[..i], true), widths)
    ensures AcceptsAll(statements, keys, pending, widths) ==> AcceptsAll(statements[..i + 1], keys, pending, widths)
  {
    var longer := statements[..i + 1];
    assert longer[..i] == statements[..i] && longer[i] == statements[i];
    if AcceptsAll(statements, keys, pending, widths) {
      AcceptsPrefix(statements, i + 1, keys, pending, widths);
    }
  }

  // ----- the converter -----

  class Converter {
    const fsm: FSM
    const widths: seq<nat>
    var pending: Environment

    constructor (fsm: FSM, widths: seq<nat>)
      ensures this.fsm == fsm && this.widths == widths && pending == map[]
    {
      this.fsm := fsm;
      this.widths := widths;
      pending := map[];
    }

    method ExecuteStatement(statement: Statement, environment: Environment, ghost deferred: set<nat>)
      returns (r: Option<Environment>)
      requires Ordered(fsm.variables) && Valid(environment, widths, |fsm.variables|)
      requires Valid(pending, widths, |fsm.variables|)
      modifies this`pending, fsm`variables
      ensures Extended(old(fsm.variables), fsm.variables)
      ensures r.Some? ==> Valid(r.value, widths, |fsm.variables|) && Valid(pending, widths, |fsm.variables|)
      ensures r.Some? <==> AcceptsStatement(statement, environment.Keys, old(pending).Keys, widths)
      ensures r.Some? ==> r.value.Keys == environment.Keys + WritesOf(statement, false)
      ensures r.Some? ==> pending.Keys == old(pending.Keys) + WritesOf(statement, true)
      ensures r.Some? && Claimable(statement, deferred, widths) ==>
        Refines(fsm.variables, statement, environment, old(pending), deferred, widths, r.value, pending)
      decreases statement, 2
    {
      hide Refines;
      hide Settled;
      match statement {
        case Block(statements) =>
          r := ExecuteStatements(statements, environment, deferred);
        case Assign(_, _, _) =>
          r := ExecuteAssignment(statement, environment, deferred);
        case If(_, _, _) =>
          r := ExecuteIf(statement, environment, deferred);
      }
    }

    method ExecuteStatements(statements: seq<Statement>, environment: Environment, ghost deferred: set<nat>)
      returns (r: Option<Environment>)
      requires Ordered(fsm.variables) && Valid(environment, widths, |fsm.variables|)
      requires Valid(pending, widths, |fsm.variables|)
      modifies this`pending, fsm`variables
      ensures Extended(old(fsm.variables), fsm.variables)
      ensures r.Some? ==> Valid(r.value, widths, |fsm.variables|) && Valid(pending, widths, |fsm.variables|)
      ensures r.Some? <==> AcceptsAll(statements, environment.Keys, old(pending).Keys, widths)
      ensures r.Some? ==> r.value.Keys == environment.Keys + WritesOfAll(statements, false)
      ensures r.Some? ==> pending.Keys == old(pending.Keys) + WritesOfAll(statements, true)
      ensures r.Some? && Claimable(Block(statements), deferred, widths) ==>
        Refines(fsm.variables, Block(statements), environment, old(pending), deferred, widths, r.value, pending)
      decreases statements, 0
    {
      hide Refines;
      hide Settled;
      hide Claimable;
      hide Valid;
      hide AcceptsStatement;
      ghost var start, deferredBefore := fsm.variables, pending;
      var current := environment;
      EmptyRefines(fsm.variables, environment, pending, deferred, widths);
      for i := 0 to |statements|
        invariant Extended(start, fsm.variables)
        invariant Valid(current, widths, |fsm.variables|) && Valid(pending, widths, |fsm.variables|)
        invariant current.Keys == environment.Keys + WritesOfAll(statements[..i], false)
        invariant pending.Keys == deferredBefore.Keys + WritesOfAll(statements[..i], true)
        invariant AcceptsAll(statements[..i], environment.Keys, deferredBefore.Keys, widths)
        invariant Claimable(Block(statements), deferred, widths) ==>
          Refines(fsm.variables, Block(statements[..i]), environment, deferredBefore, deferred, widths, current,
            pending)
      {
        assert statements[..i + 1][..i] == statements[..i];
        ghost var earlier, current0, pending0 := fsm.variables, current, pending;
        var next := ExecuteStatement(statements[i], current, deferred);
        AcceptsMore(statements, i, environment.Keys, deferredBefore.Keys, widths);
        if next == None {
          return None;
        }
        if Claimable(Block(statements), deferred, widths) {
          ClaimableAt(statements, i, deferred, widths);
          RefinesGrows(earlier, fsm.variables, Block(statements[..i]), environment, deferredBefore, deferred,
            widths, current0, pending0);
          SequenceRefines(fsm.variables, statements, i, environment, deferredBefore, deferred, widths, current0,
            pending0, next.value, pending);
        }
        GrowsTwice(start, earlier, fsm.variables);
        current := next.value;
      }
      assert statements[..|statements|] == statements;
      return Some(current);
    }

    method ExecuteAssignment(statement: Statement, environment: Environment, ghost deferred: set<nat>)
      returns (r: Option<Environment>)
      requires statement.Assign? && Ordered(fsm.variables) && Valid(environment, widths, |fsm.variables|)
      requires Valid(pending, widths, |fsm.variables|)
      modifies this`pending, fsm`variables
      ensures Extended(old(fsm.variables), fsm.variables)
      ensures r.Some? ==> Valid(r.value, widths, |fsm.variables|) && Valid(pending, widths, |fsm.variables|)
      ensures r.Some? <==> AcceptsStatement(statement, environment.Keys, old(pending).Keys, widths)
      ensures r.Some? ==> r.value.Keys == environment.Keys + WritesOf(statement, false)
      ensures r.Some? ==> pending.Keys == old(pending.Keys) + WritesOf(statement, true)
      ensures r.Some? && Claimable(statement, deferred, widths) ==>
        Refines(fsm.variables, statement, environment, old(pending), deferred, widths, r.value, pending)
      decreases statement, 0
    {
      hide Refines;
      hide Settled;
      hide Computes;
      hide WritesTarget;
      hide Sound;
      hide SoundTarget;
      hide Accepts;
      hide AssignAccepted;
      hide WordWidth;
      hide KeyWidths;
      hide WidthsOf;
      WidthsAreDeclared(environment, widths, |fsm.variables|);
      var value := ConvertExpression(fsm, statement.value, environment);
      if value == None {
        return None;
      }
      ghost var converted := fsm.variables;
      KnownLater(environment, |old(fsm.variables)|, |fsm.variables|);
      KnownLater(pending, |old(fsm.variables)|, |fsm.variables|);
      var root := Root(statement.target);
      var destination := if statement.kind == Nonblocking then pending else environment;
      var result := AssignTarget(fsm, statement.target, value.value, destination, environment, widths);
      if result == None {
        return None;
      }
      GrowsTwice(old(fsm.variables), converted, fsm.variables);
      KnownLater(environment, |converted|, |fsm.variables|);
      KnownLater(pending, |converted|, |fsm.variables|);
      if Claimable(statement, deferred, widths) {
        AcceptedPresent(statement, environment, pending, widths, |old(fsm.variables)|);
        ComputesGrows(converted, fsm.variables, statement.value, environment, value.value);
        AssignmentRefines(fsm.variables, statement, environment, pending, deferred, widths, value.value,
          result.value);
      }
      if statement.kind == Nonblocking {
        pending := pending[root := result.value];
        return Some(environment);
      }
      return Some(environment[root := result.value]);
    }

    method ExecuteIf(statement: Statement, environment: Environment, ghost deferred: set<nat>)
      returns (r: Option<Environment>)
      requires statement.If? && Ordered(fsm.variables) && Valid(environment, widths, |fsm.variables|)
      requires Valid(pending, widths, |fsm.variables|)
      modifies this`pending, fsm`variables
      ensures Extended(old(fsm.variables), fsm.variables)
      ensures r.Some? ==> Valid(r.value, widths, |fsm.variables|) && Valid(pending, widths, |fsm.variables|)
      ensures r.Some? <==> AcceptsStatement(statement, environment.Keys, old(pending).Keys, widths)
      ensures r.Some? ==> r.value.Keys == environment.Keys + WritesOf(statement, false)
      ensures r.Some? ==> pending.Keys == old(pending.Keys) + WritesOf(statement, true)
      ensures r.Some? && Claimable(statement, deferred, widths) ==>
        Refines(fsm.variables, statement, environment, old(pending), deferred, widths, r.value, pending)
      decreases statement, 1
    {
      hide BranchesRefine;
      hide Refines;
      hide Settled;
      hide Claimable;
      hide Merges;
      hide Valid;
      hide Ordered;
      hide WritesOfAll;
      hide AcceptsStatement;
      ghost var v0, pendingBefore := fsm.variables, pending;
      var executed := ExecuteBranches(statement, environment, deferred);
      if executed == None {
        return None;
      }
      var b := executed.value;
      ghost var v1 := fsm.variables;
      EnvironmentsKnown(environment, widths, |v0|, |v1|);
      var mergedPending := MergeEnvironments(fsm, b.condition, b.thenPending, b.elsePending, map[], widths);
      if mergedPending == None {
        return None;
      }
      ghost var v2 := fsm.variables;
      pending := mergedPending.value;
      StillValid(b.thenEnvironment, b.elseEnvironment, widths, |v1|, |v2|);
      StillValid(environment, environment, widths, |v0|, |v2|);
      r := MergeEnvironments(fsm, b.condition, b.thenEnvironment, b.elseEnvironment, environment, widths);
      GrowsTwice(v0, v1, v2);
      GrowsTwice(v0, v2, fsm.variables);
      StillValid(pending, pending, widths, |v2|, |fsm.variables|);
      if r.Some? && Claimable(statement, deferred, widths) {
        IfRefinesGrown(v1, v2, fsm.variables, statement, environment, pendingBefore, deferred, widths, b, r.value,
          pending);
      }
    }

    /** Converts the condition and both branches, each from the maps before the statement. */
    method ExecuteBranches(statement: Statement, environment: Environment, ghost deferred: set<nat>)
      returns (r: Option<Branches>)
      requires statement.If? && Ordered(fsm.variables) && Valid(environment, widths, |fsm.variables|)
      requires Valid(pending, widths, |fsm.variables|)
      modifies this`pending, fsm`variables
      ensures Extended(old(fsm.variables), fsm.variables)
      ensures r.Some? <==> AcceptsStatement(statement, environment.Keys, old(pending).Keys, widths)
      ensures r.Some? ==>
        && r.value.condition.Known(|fsm.variables|)
        && Valid(r.value.thenEnvironment, widths, |fsm.variables|) && Valid(r.value.thenPending, widths, |fsm.variables|)
        && Valid(r.value.elseEnvironment, widths, |fsm.variables|) && Valid(r.value.elsePending, widths, |fsm.variables|)
        && r.value.thenEnvironment.Keys == environment.Keys + WritesOfAll(statement.thenStatements, false)
        && r.value.elseEnvironment.Keys == environment.Keys + WritesOfAll(statement.elseStatements, false)
        && r.value.thenPending.Keys == old(pending.Keys) + WritesOfAll(statement.thenStatements, true)
        && r.value.elsePending.Keys == old(pending.Keys) + WritesOfAll(statement.elseStatements, true)
      ensures r.Some? && Claimable(statement, deferred, widths) ==>
        BranchesRefine(fsm.variables, statement, environment, old(pending), deferred, widths, r.value)
      decreases statement, 0
    {
      hide Refines;
      hide Settled;
      hide Computes;
      hide Claimable;
      hide Valid;
      hide Ordered;
      hide WritesOfAll;
      hide AcceptsAll;
      hide Accepts;
      hide WordWidth;
      hide KeyWidths;
      hide WidthsOf;
      hide Runtime.Truthy;
      ghost var v0 := fsm.variables;
      WidthsAreDeclared(environment, widths, |fsm.variables|);
      EnvironmentsKnown(environment, widths, |v0|, |v0|);
      var conditionValue := ConvertExpression(fsm, statement.condition, environment);
      if conditionValue == None {
        return None;
      }
      ghost var v1 := fsm.variables;
      var condition := TruthyValue(fsm, conditionValue.value);
      if condition == None {
        return None;
      }
      ghost var v2 := fsm.variables;
      GrowsTwice(v0, v1, v2);
      var pendingBefore := pending;
      StillValid(environment, pending, widths, |v0|, |v2|);
      var thenEnvironment := ExecuteStatements(statement.thenStatements, environment, deferred);
      if thenEnvironment == None {
        return None;
      }
      ghost var v3 := fsm.variables;
      var thenPending := pending;
      pending := pendingBefore;
      StillValid(environment, pending, widths, |v2|, |v3|);
      GrowsTwice(v0, v2, v3);
      var elseEnvironment := ExecuteStatements(statement.elseStatements, environment, deferred);
      if elseEnvironment == None {
        return None;
      }
      ghost var v4 := fsm.variables;
      StillValid(thenEnvironment.value, thenPending, widths, |v3|, |v4|);
      GrowsTwice(v0, v3, v4);
      var branches := Branches(conditionValue.value, condition.value, thenEnvironment.value, thenPending,
        elseEnvironment.value, pending);
      if Claimable(statement, deferred, widths) {
        AcceptedReads(statement.condition, KeyWidths(environment.Keys, widths));
        ConditionPresent(statement.condition, environment, widths, |v0|);
        BranchesClaimable(statement, deferred, widths);
        BranchesRefineGrown(v1, v2, v3, v4, statement, environment, pendingBefore, deferred, widths, branches);
      }
      return Some(branches);
    }
  }

  lemma BranchesClaimable(statement: Statement, deferred: set<nat>, widths: seq<nat>)
    requires statement.If? && Claimable(statement, deferred, widths)
    ensures Claimable(Block(statement.thenStatements), deferred, widths)
    ensures Claimable(Block(statement.elseStatements), deferred, widths)
    ensures Sound(statement.condition)
  {
  }

  lemma MergesGrow(before: seq<Driver>, after: seq<Driver>, condition: Value, thenEnvironment: Environment,
    elseEnvironment: Environment, earlier: Environment, widths: seq<nat>, merged: Environment)
    requires Grows(before, after)
    requires Merges(before, condition, thenEnvironment, elseEnvironment, earlier, widths, merged)
    ensures Merges(after, condition, thenEnvironment, elseEnvironment, earlier, widths, merged)
  {
    hide Settled;
    hide BranchBits;
  }

  lemma EnvironmentsKnown(environment: Environment, widths: seq<nat>, before: nat, after: nat)
    requires Valid(environment, widths, before) && before <= after
    ensures EnvironmentKnown(environment, before) && EnvironmentKnown(environment, after)
    ensures Valid(map[], widths, after)
  {
  }

  lemma StillValid(environment: Environment, pending: Environment, widths: seq<nat>, before: nat, after: nat)
    requires Valid(environment, widths, before) && Valid(pending, widths, before) && before <= after
    ensures Valid(environment, widths, after) && Valid(pending, widths, after)
  {
  }

  lemma ClaimableAt(statements: seq<Statement>, i: nat, deferred: set<nat>, widths: seq<nat>)
    requires Claimable(Block(statements), deferred, widths) && i < |statements|
    ensures Claimable(statements[i], deferred, widths)
  {
    PrefixWrites(statements, i);
  }
}
