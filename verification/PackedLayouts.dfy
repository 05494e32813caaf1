/** Packed data types: where members and elements are, and how values become bits.

    Structs are serialised member by member. Arrays and unions keep their bits and give
    access to elements and members by offset. */
module PackedLayouts {
  import opened Words
  import opened Fsm
  import opened Ranges
  import Runtime = VerilogRuntime

  datatype DataType =
    | Vector(width: nat)
    | Struct(members: seq<DataType>)
    | ArrayOf(element: DataType, declared: Range)
    | Union(members: seq<DataType>)

  /** Where a member lies in its struct. */
  datatype Slot = Slot(lsb: nat, width: nat) {
    predicate Holds(b: nat) {
      lsb <= b < lsb + width
    }
  }

  function Sum(widths: seq<nat>): nat {
    if widths == [] then 0 else widths[0] + Sum(widths[1..])
  }

  // ----- widths and offsets -----

  function Width(t: DataType): nat
    decreases t
  {
    match t
    case Vector(width) => width
    case Struct(members) => Sum(Widths(members))
    case ArrayOf(element, declared) => Width(element) * declared.Length()
    case Union(members) => if members == [] then 0 else Width(members[0])
  }

  function Widths(members: seq<DataType>): (r: seq<nat>)
    ensures |r| == |members|
    ensures forall i :: 0 <= i < |members| ==> r[i] == Width(members[i])
    decreases members
  {
    if members == [] then [] else [Width(members[0])] + Widths(members[1..])
  }

  /** The first member is the most significant. */
  function SlotOf(widths: seq<nat>, i: nat): Slot
    requires i < |widths|
  {
    Slot(Sum(widths[i + 1..]), widths[i])
  }

  /** Members of a union have one width. */
  predicate ValidType(t: DataType)
    decreases t
  {
    match t
    case Vector(_) => true
    case Struct(members) => forall i :: 0 <= i < |members| ==> ValidType(members[i])
    case ArrayOf(element, _) => ValidType(element)
    case Union(members) =>
      members != [] && forall i :: 0 <= i < |members| ==> ValidType(members[i]) && Width(members[i]) == Width(members[0])
  }

  // ----- resolving a struct -----

  const USIZE_LIMIT: nat := 0x1_0000_0000_0000_0000

  lemma {:induction false} SumSplit(widths: seq<nat>, k: nat)
    requires k <= |widths|
    ensures Sum(widths) == Sum(widths[..k]) + Sum(widths[k..])
  {
    if k > 0 {
      SumSplit(widths[1..], k - 1);
      assert widths[..k][1..] == widths[1..][..k - 1] && widths[k..] == widths[1..][k - 1..];
    } else {
      assert widths[..0] == [] && widths[0..] == widths;
    }
  }

  lemma SumSnoc(widths: seq<nat>, k: nat)
    requires k < |widths|
    ensures Sum(widths[..k + 1]) == Sum(widths[..k]) + widths[k]
  {
    SumSplit(widths[..k + 1], k);
    assert widths[..k + 1][..k] == widths[..k] && widths[..k + 1][k..] == [widths[k]];
    assert Sum([widths[k]]) == widths[k] + Sum([]);
  }

  lemma SumRest(widths: seq<nat>, k: nat)
    requires k < |widths|
    ensures Sum(widths[k..]) == widths[k] + Sum(widths[k + 1..])
  {
    assert widths[k..][1..] == widths[k + 1..];
  }

  /** Adds up the member widths, then places the members from the last one upwards. */
  method ResolveStruct(widths: seq<nat>) returns (r: Option<(seq<Slot>, nat)>)
    ensures r.Some? <==> Sum(widths) < USIZE_LIMIT
    ensures r.Some? ==> r.value.1 == Sum(widths) && |r.value.0| == |widths|
    ensures r.Some? ==> forall i :: 0 <= i < |widths| ==> r.value.0[i] == SlotOf(widths, i)
  {
    var width := 0;
    for i := 0 to |widths|
      invariant width == Sum(widths[..i]) < USIZE_LIMIT
    {
      SumSnoc(widths, i);
      if width + widths[i] >= USIZE_LIMIT {
        SumSplit(widths, i + 1);
        return None;
      }
      width := width + widths[i];
    }
    assert widths[..|widths|] == widths;
    var lsb := 0;
    var members: seq<Slot> := [];
    for i := |widths| downto 0
      invariant lsb == Sum(widths[i..]) && |members| == |widths| - i
      invariant forall k :: 0 <= k < |members| ==> members[k] == SlotOf(widths, |widths| - 1 - k)
    {
      SumRest(widths, i);
      SumSplit(widths, i);
      members := members + [Slot(lsb, widths[i])];
      assert lsb + widths[i] < USIZE_LIMIT;
      lsb := lsb + widths[i];
    }
    var n := |widths|;
    r := Some((seq(n, i requires 0 <= i < n => members[n - 1 - i]), width));
  }

  /** Slots lie inside the struct, above the slots of later members. */
  lemma SlotsOrdered(widths: seq<nat>, i: nat, j: nat)
    requires i < j < |widths|
    ensures SlotOf(widths, j).lsb + widths[j] <= SlotOf(widths, i).lsb
    ensures SlotOf(widths, i).lsb + widths[i] <= Sum(widths)
  {
    SumRest(widths, i);
    SumSplit(widths, i);
    SumSplit(widths[i + 1..], j - i - 1);
    assert widths[i + 1..][j - i - 1..] == widths[j..];
    SumRest(widths, j);
  }

  lemma SlotInside(widths: seq<nat>, i: nat)
    requires i < |widths|
    ensures SlotOf(widths, i).lsb + widths[i] <= Sum(widths)
  {
    SumRest(widths, i);
    SumSplit(widths, i);
  }

  /** The member that holds bit `b`. */
  function OwnerOf(widths: seq<nat>, b: nat): (i: nat)
    requires b < Sum(widths)
    ensures i < |widths| && SlotOf(widths, i).Holds(b)
  {
    assert widths == [widths[0]] + widths[1..];
    if b >= Sum(widths[1..]) then 0
    else
      var i := OwnerOf(widths[1..], b);
      assert widths[1..][i + 1..] == widths[i + 2..];
      i + 1
  }

  /** Members tile the struct: every bit below the width is in exactly one slot, and no
      slot reaches past the width. */
  lemma SlotsTile(widths: seq<nat>, b: nat)
    ensures b < Sum(widths) <==> exists i :: 0 <= i < |widths| && SlotOf(widths, i).Holds(b)
    ensures forall i, j ::
      0 <= i < |widths| && 0 <= j < |widths| && SlotOf(widths, i).Holds(b) && SlotOf(widths, j).Holds(b) ==> i == j
  {
    if b < Sum(widths) {
      var i := OwnerOf(widths, b);
    }
    forall i | 0 <= i < |widths| && SlotOf(widths, i).Holds(b)
      ensures b < Sum(widths)
    {
      SlotInside(widths, i);
    }
    forall i, j | 0 <= i < j < |widths| && SlotOf(widths, i).Holds(b)
      ensures !SlotOf(widths, j).Holds(b)
    {
      SlotsOrdered(widths, i, j);
    }
  }

  // ----- values -----

  /** A struct value has a value for each member; every other value is its bits. */
  datatype Value = Raw(bits: Bits) | Fields(values: seq<Value>)

  predicate HasType(v: Value, t: DataType)
    decreases t
  {
    if t.Struct? then
      v.Fields? && |v.values| == |t.members| && forall i :: 0 <= i < |t.members| ==> HasType(v.values[i], t.members[i])
    else
      v.Raw? && |v.bits| == Width(t)
  }

  /** The bits of a value: members are assigned one after another. */
  function Serialize(v: Value, t: DataType): (r: Bits)
    requires HasType(v, t)
    ensures |r| == Width(t)
    decreases t, 2
  {
    if t.Struct? then SerializeFields(v.values, t, |t.members|) else v.bits
  }

  /** After the first `k` members. */
  function SerializeFields(values: seq<Value>, t: DataType, k: nat): (r: Bits)
    requires t.Struct? && HasType(Fields(values), t) && k <= |t.members|
    ensures |r| == Width(t)
    decreases t, 1, k
  {
    if k == 0 then Zeros(Width(t))
    else
      var slot := SlotOf(Widths(t.members), k - 1);
      Runtime.Selected(SerializeFields(values, t, k - 1), slot.lsb, slot.width,
        Serialize(values[k - 1], t.members[k - 1]))
  }

  function Deserialize(bits: Bits, t: DataType): Value
    decreases t
  {
    if t.Struct? then
      Fields(seq(|t.members|, i requires 0 <= i < |t.members| =>
        Deserialize(Member(bits, t, i), t.members[i])))
    else Raw(bits)
  }

  /** The bits of member `i`. */
  function Member(bits: Bits, t: DataType, i: nat): (r: Bits)
    requires t.Struct? && i < |t.members|
    ensures |r| == Width(t.members[i])
  {
    Runtime.Select(bits, SlotOf(Widths(t.members), i).lsb, Width(t.members[i]))
  }

  // ----- values to bits and back -----

  /** Each member reads back as it was serialised, whatever is assigned after it. */
  lemma {:induction false} MemberStays(values: seq<Value>, t: DataType, k: nat, i: nat)
    requires t.Struct? && HasType(Fields(values), t) && i < k <= |t.members|
    ensures Member(SerializeFields(values, t, k), t, i) == Serialize(values[i], t.members[i])
    decreases k
  {
    var widths := Widths(t.members);
    var before := SerializeFields(values, t, k - 1);
    var last := Serialize(values[k - 1], t.members[k - 1]);
    SlotInside(widths, k - 1);
    if i == k - 1 {
      Runtime.SelectAfterAssign(before, SlotOf(widths, i).lsb, last);
    } else {
      SlotsOrdered(widths, i, k - 1);
      Runtime.SelectElsewhere(before, SlotOf(widths, k - 1).lsb, last, SlotOf(widths, i).lsb, widths[i]);
      MemberStays(values, t, k - 1, i);
    }
  }

  /** Deserialising what was serialised gives the value back, at any depth. */
  lemma {:induction false} ValueRoundTrip(v: Value, t: DataType)
    requires HasType(v, t)
    ensures Deserialize(Serialize(v, t), t) == v
    decreases t
  {
    if t.Struct? {
      var n := |t.members|;
      var bits := Serialize(v, t);
      forall i | 0 <= i < n
        ensures Deserialize(Member(bits, t, i), t.members[i]) == v.values[i]
      {
        MemberStays(v.values, t, n, i);
        ValueRoundTrip(v.values[i], t.members[i]);
      }
      assert Deserialize(bits, t).values == v.values;
    }
  }

  lemma {:induction false} DeserializedType(bits: Bits, t: DataType)
    requires |bits| == Width(t)
    ensures HasType(Deserialize(bits, t), t)
    decreases t
  {
    if t.Struct? {
      forall i | 0 <= i < |t.members|
        ensures HasType(Deserialize(Member(bits, t, i), t.members[i]), t.members[i])
      {
        DeserializedType(Member(bits, t, i), t.members[i]);
      }
    }
  }

  /** The values serialise to the members of `bits`. */
  ghost predicate FieldsMatch(bits: Bits, values: seq<Value>, t: DataType) {
    && t.Struct? && |bits| == Width(t) && HasType(Fields(values), t)
    && forall i :: 0 <= i < |t.members| ==> Serialize(values[i], t.members[i]) == Member(bits, t, i)
  }

  /** Assigning the first `k` members of `bits` gives the bits of their slots. */
  lemma {:induction false} FieldsOfBits(bits: Bits, values: seq<Value>, t: DataType, k: nat, b: nat)
    requires FieldsMatch(bits, values, t) && k <= |t.members|
    requires b < Width(t) && OwnerOf(Widths(t.members), b) < k
    ensures SerializeFields(values, t, k)[b] == bits[b]
    decreases k
  {
    LastField(bits, values, t, k, b);
    if OwnerOf(Widths(t.members), b) != k - 1 {
      hide FieldsMatch;
      hide SerializeFields;
      hide OwnerOf;
      FieldsOfBits(bits, values, t, k - 1, b);
    }
  }

  /** The last of `k` members gives its bits and leaves the others. */
  lemma LastField(bits: Bits, values: seq<Value>, t: DataType, k: nat, b: nat)
    requires FieldsMatch(bits, values, t) && 0 < k <= |t.members| && b < Width(t)
    ensures b < Sum(Widths(t.members))
    ensures SerializeFields(values, t, k)[b] ==
      if OwnerOf(Widths(t.members), b) == k - 1 then bits[b] else SerializeFields(values, t, k - 1)[b]
  {
    StructSlots(t, k - 1, b);
    hide Serialize;
    hide OwnerOf;
    hide Sum;
    var slot := SlotOf(Widths(t.members), k - 1);
    hide SlotOf;
    SelectedBit(SerializeFields(values, t, k - 1), bits, slot, b);
  }

  lemma SelectedBit(before: Bits, bits: Bits, slot: Slot, b: nat)
    requires |before| == |bits| && b < |bits| && slot.lsb + slot.width <= |bits|
    ensures Runtime.Selected(before, slot.lsb, slot.width, Runtime.Select(bits, slot.lsb, slot.width))[b] ==
      if slot.Holds(b) then bits[b] else before[b]
  {
    var part := Runtime.Select(bits, slot.lsb, slot.width);
    Runtime.BitAfterAssign(before, slot.lsb, part, b);
    if slot.Holds(b) {
      assert part[b - slot.lsb] == Runtime.BitAt(bits, b);
    }
  }

  lemma StructSlots(t: DataType, i: nat, b: nat)
    requires t.Struct? && i < |t.members| && b < Width(t)
    ensures b < Sum(Widths(t.members))
    ensures SlotOf(Widths(t.members), i).width == Width(t.members[i])
    ensures SlotOf(Widths(t.members), i).lsb + Width(t.members[i]) <= Width(t)
    ensures SlotOf(Widths(t.members), i).Holds(b) <==> OwnerOf(Widths(t.members), b) == i
  {
    SlotInside(Widths(t.members), i);
    SlotsTile(Widths(t.members), b);
  }

  /** Serialising what was deserialised gives the bits back, at any depth: members cover
      every bit. */
  lemma {:induction false} BitsRoundTrip(bits: Bits, t: DataType)
    requires |bits| == Width(t)
    ensures HasType(Deserialize(bits, t), t) && Serialize(Deserialize(bits, t), t) == bits
    decreases t
  {
    DeserializedType(bits, t);
    if t.Struct? {
      var again := Serialize(Deserialize(bits, t), t);
      forall i | 0 <= i < |t.members|
        ensures Serialize(Deserialize(bits, t).values[i], t.members[i]) == Member(bits, t, i)
      {
        BitsRoundTrip(Member(bits, t, i), t.members[i]);
      }
      forall b | 0 <= b < |bits|
        ensures again[b] == bits[b]
      {
        FieldsOfBits(bits, Deserialize(bits, t).values, t, |t.members|, b);
      }
    }
  }

  /** The generated serialiser: assigns each member into a zero vector. */
  method PackFields(values: seq<Value>, t: DataType) returns (bits: Bits)
    requires t.Struct? && HasType(Fields(values), t)
    ensures bits == Serialize(Fields(values), t)
  {
    hide Serialize;
    var vector := new Runtime.BitVector(Zeros(Width(t)));
    StartFields(values, t);
    for k := 0 to |t.members|
      invariant vector.bits == SerializeFields(values, t, k)
    {
      var slot := SlotOf(Widths(t.members), k);
      vector.AssignSelect(slot.lsb, slot.width, Serialize(values[k], t.members[k]));
    }
    bits := vector.bits;
    AllFields(values, t);
  }

  lemma StartFields(values: seq<Value>, t: DataType)
    requires t.Struct? && HasType(Fields(values), t)
    ensures SerializeFields(values, t, 0) == Zeros(Width(t))
  {
  }

  lemma AllFields(values: seq<Value>, t: DataType)
    requires t.Struct? && HasType(Fields(values), t)
    ensures Serialize(Fields(values), t) == SerializeFields(values, t, |t.members|)
  {
  }

  // ----- elements and union members -----

  /** The element accessor; no result where the index is not declared. */
  function GetElement(bits: Bits, t: DataType, index: nat): Option<Value>
    requires t.ArrayOf?
  {
    match ArrayOffset(index, t.declared, Width(t.element))
    case None => None
    case Some(offset) => Some(Deserialize(Runtime.Select(bits, offset, Width(t.element)), t.element))
  }

  function SetElement(bits: Bits, t: DataType, index: nat, v: Value): Option<Bits>
    requires t.ArrayOf? && HasType(v, t.element)
  {
    match ArrayOffset(index, t.declared, Width(t.element))
    case None => None
    case Some(offset) => Some(Runtime.Selected(bits, offset, Width(t.element), Serialize(v, t.element)))
  }

  /** A declared element lies inside the array, apart from every other one. */
  lemma ElementPlace(t: DataType, index: nat)
    requires t.ArrayOf? && Position(index, t.declared).Some?
    ensures
      var k := Position(index, t.declared).value;
      && k < t.declared.Length()
      && ArrayOffset(index, t.declared, Width(t.element)) == Some(k * Width(t.element))
      && k * Width(t.element) + Width(t.element) <= Width(t)
  {
    var k, n, w := Position(index, t.declared).value, t.declared.Length(), Width(t.element);
    Products(k, n, w);
  }

  lemma Products(k: nat, n: nat, w: nat)
    requires k < n
    ensures k * w + w == (k + 1) * w <= w * n
  {
    Distribute(w, n - (k + 1), k + 1);
    assert w * (n - (k + 1)) >= 0;
  }

  /** Setting an element: it reads back as the value, all others stay, and setting an
      element to what it holds changes nothing. */
  lemma ElementRoundTrip(bits: Bits, t: DataType, index: nat, other: nat, v: Value)
    requires t.ArrayOf? && |bits| == Width(t) && HasType(v, t.element)
    ensures SetElement(bits, t, index, v).Some? <==> index as int in t.declared.Indices()
    ensures SetElement(bits, t, index, v).Some? ==>
      var set' := SetElement(bits, t, index, v).value;
      && |set'| == |bits| && GetElement(set', t, index) == Some(v)
      && (other != index ==> GetElement(set', t, other) == GetElement(bits, t, other))
    ensures GetElement(bits, t, index).Some? ==>
      HasType(GetElement(bits, t, index).value, t.element) &&
      SetElement(bits, t, index, GetElement(bits, t, index).value) == Some(bits)
  {
    var w := Width(t.element);
    ArrayOffsetIsPosition(index, t.declared, w);
    if Position(index, t.declared).Some? {
      ElementPlace(t, index);
      var offset := ArrayOffset(index, t.declared, w).value;
      Runtime.SelectAfterAssign(bits, offset, Serialize(v, t.element));
      ValueRoundTrip(v, t.element);
      var part := Runtime.Select(bits, offset, w);
      BitsRoundTrip(part, t.element);
      Runtime.SelectAfterAssign(bits, offset, part);
      if other != index && Position(other, t.declared).Some? {
        ElementPlace(t, other);
        ElementsApart(t, index, other);
        Runtime.SelectElsewhere(bits, offset, Serialize(v, t.element), ArrayOffset(other, t.declared, w).value, w);
      }
    }
  }

  lemma ElementsApart(t: DataType, a: nat, b: nat)
    requires t.ArrayOf? && a != b && Position(a, t.declared).Some? && Position(b, t.declared).Some?
    ensures
      var w := Width(t.element);
      var x, y := Position(a, t.declared).value * w, Position(b, t.declared).value * w;
      x + w <= y || y + w <= x
  {
    var w, j, k := Width(t.element), Position(a, t.declared).value, Position(b, t.declared).value;
    if j < k {
      Products(j, k, w);
    } else {
      Products(k, j, w);
    }
  }

  /** Every bit of an array belongs to the element at the quotient of its position, and
      to no other. */
  lemma ElementsTile(t: DataType, b: nat, k: nat)
    requires t.ArrayOf? && Width(t.element) > 0 && k < t.declared.Length()
    ensures Slot(k * Width(t.element), Width(t.element)).Holds(b) <==> k == b / Width(t.element)
    ensures b < Width(t) <==> b / Width(t.element) < t.declared.Length()
  {
    var w, n := Width(t.element), t.declared.Length();
    QuotientHolds(b, k, w);
    QuotientBelow(b, n, w);
  }

  lemma QuotientHolds(b: nat, k: nat, w: nat)
    requires w > 0
    ensures k * w <= b < k * w + w <==> k == b / w
  {
    var q := b / w;
    assert b == q * w + b % w && 0 <= b % w < w;
    if k < q {
      Products(k, q, w);
    } else if q < k {
      Products(q, k, w);
    }
  }

  lemma QuotientBelow(b: nat, n: nat, w: nat)
    requires w > 0
    ensures b < w * n <==> b / w < n
  {
    var q := b / w;
    assert b == q * w + b % w && 0 <= b % w < w;
    if q < n {
      Products(q, n, w);
    } else if n < q {
      Products(n, q, w);
    }
  }

  /** All members of a union start at bit zero and have its width, so setting one member
      fixes what every other one reads. */
  lemma UnionRoundTrip(bits: Bits, t: DataType, i: nat, j: nat, v: Value)
    requires t.Union? && ValidType(t) && i < |t.members| && j < |t.members|
    requires |bits| == Width(t) && HasType(v, t.members[i])
    ensures
      var stored := Runtime.Selected(bits, 0, Width(t.members[i]), Serialize(v, t.members[i]));
      && stored == Serialize(v, t.members[i])
      && Deserialize(Runtime.Select(stored, 0, Width(t.members[i])), t.members[i]) == v
      && Deserialize(Runtime.Select(stored, 0, Width(t.members[j])), t.members[j]) ==
         Deserialize(Serialize(v, t.members[i]), t.members[j])
  {
    var s := Serialize(v, t.members[i]);
    var stored := Runtime.Selected(bits, 0, |s|, s);
    assert stored == s;
    assert Runtime.Select(stored, 0, |s|) == s;
    ValueRoundTrip(v, t.members[i]);
  }
}
