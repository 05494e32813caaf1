/** Declared index ranges of arrays, in either direction. */
module Ranges {
  import opened Fsm

  const ISIZE_MAX: int := 0x7FFF_FFFF_FFFF_FFFF
  const ISIZE_MIN: int := -0x8000_0000_0000_0000

  /** Both ends are included; the left one may be the larger. */
  datatype Range = Range(left: int, right: int) {
    function Length(): (n: nat)
      ensures n > 0
    {
      if left <= right then right - left + 1 else left - right + 1
    }

    /** The declared index of element `k`. */
    function IndexOf(k: nat): int {
      if left <= right then left + k else left - k
    }

    function Indices(): (r: seq<int>)
      ensures |r| == Length()
    {
      seq(Length(), k requires 0 <= k < Length() => IndexOf(k))
    }
  }

  /** Yields the declared indices in order. */
  class RangeIterator {
    var upcoming: int
    var step: int
    var remaining: nat

    ghost predicate Valid()
      reads this
    {
      && -1 <= step <= 1 && ISIZE_MIN <= upcoming <= ISIZE_MAX
      && (remaining > 0 ==> ISIZE_MIN <= upcoming + step * (remaining - 1) <= ISIZE_MAX)
    }

    /** The indices still to come. */
    ghost function Left(): seq<int>
      reads this
    {
      Stepping(upcoming, step, remaining)
    }

    constructor (range: Range)
      requires ISIZE_MIN <= range.left <= ISIZE_MAX && ISIZE_MIN <= range.right <= ISIZE_MAX
      ensures Valid() && Left() == range.Indices()
    {
      upcoming := range.left;
      step := if range.left <= range.right then 1 else -1;
      remaining := range.Length();
      new;
      SteppingIsIndices(range);
    }

    /** The step saturates, but only past the last index. */
    method Next() returns (r: Option<int>)
      requires Valid()
      modifies this
      ensures Valid()
      ensures old(Left()) == [] ==> r == None && Left() == []
      ensures old(Left()) != [] ==> r == Some(old(Left())[0]) && Left() == old(Left())[1..]
    {
      if remaining == 0 {
        return None;
      }
      ghost var before := Left();
      ghost var at, stride := upcoming, step;
      r := Some(upcoming);
      upcoming := if upcoming + step > ISIZE_MAX then ISIZE_MAX
        else if upcoming + step < ISIZE_MIN then ISIZE_MIN
        else upcoming + step;
      remaining := remaining - 1;
      SteppingTail(at, stride, remaining);
      if remaining > 0 {
        StepInside(at, stride, remaining);
        NextStep(at, stride, remaining - 1);
      }
    }
  }

  ghost function Stepping(at: int, stride: int, n: nat): seq<int> {
    seq(n, k requires 0 <= k < n => at + stride * k)
  }

  lemma SteppingTail(at: int, stride: int, n: nat)
    ensures Stepping(at, stride, n + 1)[0] == at
    ensures Stepping(at, stride, n + 1)[1..] == Stepping(at + stride, stride, n)
  {
    var tail, next := Stepping(at, stride, n + 1)[1..], Stepping(at + stride, stride, n);
    forall k | 0 <= k < n
      ensures tail[k] == next[k]
    {
      NextStep(at, stride, k);
    }
  }

  lemma SteppingIsIndices(range: Range)
    ensures Stepping(range.left, if range.left <= range.right then 1 else -1, range.Length()) == range.Indices()
    ensures range.left <= range.right ==> range.left + 1 * (range.Length() - 1) == range.right
    ensures range.left > range.right ==> range.left + -1 * (range.Length() - 1) == range.right
  {
  }

  lemma NextStep(at: int, stride: int, k: int)
    ensures at + stride + stride * k == at + stride * (k + 1)
  {
  }

  lemma StepInside(at: int, stride: int, remaining: nat)
    requires -1 <= stride <= 1 && ISIZE_MIN <= at <= ISIZE_MAX && remaining > 0
    requires ISIZE_MIN <= at + stride * remaining <= ISIZE_MAX
    ensures ISIZE_MIN <= at + stride <= ISIZE_MAX
  {
    if stride == 0 {
    } else if stride == 1 {
      assert stride * remaining == remaining;
    } else {
      var n: int := remaining;
      assert stride * n == -n;
    }
  }

  /** Where an element starts; none when the index is not declared. */
  function ArrayOffset(index: nat, range: Range, elementWidth: nat): Option<nat> {
    match Position(index, range)
    case None => None
    case Some(position) => Some(position * elementWidth)
  }

  function Position(index: nat, range: Range): Option<nat> {
    if range.left <= range.right then
      if range.left <= index <= range.right then Some(index - range.left) else None
    else
      if range.right <= index <= range.left then Some(range.left - index) else None
  }

  /** A declared index has an offset: its position in the iteration order times the
      element width. */
  lemma ArrayOffsetIsPosition(index: nat, range: Range, elementWidth: nat)
    ensures ArrayOffset(index, range, elementWidth).Some? <==> index as int in range.Indices()
    ensures forall k :: 0 <= k < range.Length() && range.Indices()[k] == index ==>
      ArrayOffset(index, range, elementWidth) == Some(k * elementWidth)
  {
    var indices := range.Indices();
    var at: int := index;
    if range.left <= range.right && range.left <= at <= range.right {
      assert indices[at - range.left] == at;
    } else if range.right <= at <= range.left {
      assert indices[range.left - at] == at;
    }
  }
}
