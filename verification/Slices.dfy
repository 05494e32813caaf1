/** Slices of words, as values and as the bits they denote. */
module Slices {
  import opened Words
  import opened Fsm
  import Runtime = VerilogRuntime

  lemma SliceIsSelect(s: Assignment, value: seq<Value>, offset: nat, width: nat)
    requires offset + width <= |value|
    ensures BitsOf(s, value[offset..offset + width]) == Runtime.Select(BitsOf(s, value), offset, width)
  {
    var slice, selected := BitsOf(s, value[offset..offset + width]), Runtime.Select(BitsOf(s, value), offset, width);
    forall i | 0 <= i < width
      ensures slice[i] == selected[i]
    {
      assert selected[i] == Runtime.BitAt(BitsOf(s, value), offset + i);
    }
  }

  lemma ElementFits(k: nat, count: nat, elementWidth: nat)
    requires k < count
    ensures k * elementWidth + elementWidth <= count * elementWidth
  {
    Distribute(elementWidth, count - k - 1, k + 1);
    assert elementWidth * (count - k - 1) >= 0;
  }

  lemma AppendBits(s: Assignment, a: seq<Value>, b: seq<Value>)
    ensures BitsOf(s, a + b) == BitsOf(s, a) + BitsOf(s, b)
  {
  }

  /** The word with a slice replaced. */
  function ReplaceValues(current: seq<Value>, start: nat, value: seq<Value>): (r: seq<Value>)
    requires start + |value| <= |current|
    ensures |r| == |current|
  {
    current[..start] + value + current[start + |value|..]
  }

  lemma ReplacedBits(s: Assignment, current: seq<Value>, start: nat, value: seq<Value>)
    requires start + |value| <= |current|
    ensures BitsOf(s, ReplaceValues(current, start, value)) ==
      Runtime.Selected(BitsOf(s, current), start, |value|, BitsOf(s, value))
  {
    var replaced := BitsOf(s, ReplaceValues(current, start, value));
    var expected := Runtime.Selected(BitsOf(s, current), start, |value|, BitsOf(s, value));
    forall i | 0 <= i < |current|
      ensures replaced[i] == expected[i]
    {
      ReplacedValue(current, start, value, i);
      assert expected[i] ==
        if start <= i < start + |value| then Runtime.BitAt(BitsOf(s, value), i - start) else BitsOf(s, current)[i];
      if start <= i < start + |value| {
        assert Runtime.BitAt(BitsOf(s, value), i - start) == Holds(s, value[i - start]);
      }
    }
  }

  lemma ReplacedValue(current: seq<Value>, start: nat, value: seq<Value>, i: nat)
    requires start + |value| <= |current| && i < |current|
    ensures ReplaceValues(current, start, value)[i] ==
      if start <= i < start + |value| then value[i - start] else current[i]
  {
  }

  lemma ReplacedKnown(current: seq<Value>, start: nat, value: seq<Value>, limit: nat)
    requires start + |value| <= |current| && AllKnown(current, limit) && AllKnown(value, limit)
    ensures AllKnown(ReplaceValues(current, start, value), limit)
  {
  }
}
