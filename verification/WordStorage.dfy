/** Words of fresh variables: the inputs and registers of a compiled design. */
module WordStorage {
  import opened Words
  import opened Fsm
  import opened Ops

  type WordMap = map<nat, seq<Value>>

  // ----- words of fresh variables -----

  function WordAt(start: nat, width: nat): (r: seq<Value>)
    ensures |r| == width
  {
    seq(width, k requires 0 <= k < width => Variable(Var(true, start + k)))
  }

  /** Each word occupies its own run of variables with the given driver. */
  ghost predicate Placed(variables: seq<Driver>, words: WordMap, starts: map<nat, nat>, widths: seq<nat>,
    driver: Driver) {
    && words.Keys == starts.Keys
    && (forall id :: id in words ==>
          && id < |widths| && words[id] == WordAt(starts[id], widths[id])
          && starts[id] + widths[id] <= |variables|
          && forall k :: starts[id] <= k < starts[id] + widths[id] ==> variables[k] == driver)
    && (forall a, b :: a in words && b in words && a < b ==> starts[a] + widths[a] <= starts[b])
  }

  method CreateWord(fsm: FSM, width: nat, input: bool) returns (r: seq<Value>)
    requires Ordered(fsm.variables)
    modifies fsm`variables
    ensures Ordered(fsm.variables) && old(fsm.variables) <= fsm.variables
    ensures r == WordAt(|old(fsm.variables)|, width)
    ensures |fsm.variables| == |old(fsm.variables)| + width
    ensures forall k :: |old(fsm.variables)| <= k < |fsm.variables| ==>
      fsm.variables[k] == if input then InputDriver else Undriven
  {
    ghost var start := fsm.variables;
    r := [];
    for i := 0 to width
      invariant |fsm.variables| == |start| + i && Ordered(fsm.variables) && start <= fsm.variables
      invariant r == WordAt(|start|, i)
      invariant forall k :: |start| <= k < |fsm.variables| ==> fsm.variables[k] == if input then InputDriver else Undriven
    {
      var v;
      if input {
        v := fsm.AddVariableInput();
      } else {
        v := fsm.AddVariable();
      }
      r := r + [Variable(v)];
    }
  }

  lemma GrowsIsPrefix(before: seq<Driver>, after: seq<Driver>)
    requires Grows(before, after)
    ensures before <= after
  {
    hide Settled;
    assert after[..|before|] == before;
  }

  lemma PlacedLater(before: seq<Driver>, after: seq<Driver>, words: WordMap, starts: map<nat, nat>,
    widths: seq<nat>, driver: Driver)
    requires Placed(before, words, starts, widths, driver) && before <= after
    ensures Placed(after, words, starts, widths, driver)
  {
  }

  lemma PlacedOneMore(before: seq<Driver>, after: seq<Driver>, words: WordMap, starts: map<nat, nat>,
    widths: seq<nat>, driver: Driver, id: nat)
    requires Placed(before, words, starts, widths, driver) && before <= after
    requires id < |widths| && forall k :: k in words ==> k < id && starts[k] + widths[k] <= |before|
    requires |after| == |before| + widths[id] && forall k :: |before| <= k < |after| ==> after[k] == driver
    ensures Placed(after, words[id := WordAt(|before|, widths[id])], starts[id := |before|], widths, driver)
  {
    PlacedLater(before, after, words, starts, widths, driver);
  }

  /** The variables from `start` on are those of the words. */
  ghost predicate Fills(variables: seq<Driver>, starts: map<nat, nat>, widths: seq<nat>, start: nat) {
    forall k :: start <= k < |variables| ==> InSomeWord(starts, widths, k)
  }

  ghost predicate InSomeWord(starts: map<nat, nat>, widths: seq<nat>, k: nat) {
    exists id :: id in starts && id < |widths| && starts[id] <= k < starts[id] + widths[id]
  }

  ghost function WordHolding(starts: map<nat, nat>, widths: seq<nat>, k: nat): (id: nat)
    requires InSomeWord(starts, widths, k)
    ensures id in starts && id < |widths| && starts[id] <= k < starts[id] + widths[id]
  {
    var id :| id in starts && id < |widths| && starts[id] <= k < starts[id] + widths[id];
    id
  }

  lemma FillsOneMore(before: seq<Driver>, after: seq<Driver>, starts: map<nat, nat>, widths: seq<nat>, start: nat, id: nat)
    requires Fills(before, starts, widths, start) && id < |widths| && id !in starts
    requires |after| == |before| + widths[id]
    ensures Fills(after, starts[id := |before|], widths, start)
  {
    var more := starts[id := |before|];
    forall k | start <= k < |after|
      ensures InSomeWord(more, widths, k)
    {
      if k < |before| {
        assert InSomeWord(starts, widths, k);
        var other :| other in starts && other < |widths| && starts[other] <= k < starts[other] + widths[other];
        assert other in more && more[other] == starts[other];
      } else {
        assert id in more && more[id] <= k < more[id] + widths[id];
      }
    }
  }

  /** New words for the variables in `ids`, in the order of the variables. */
  method CreateWords(fsm: FSM, ids: set<nat>, widths: seq<nat>, input: bool)
    returns (words: WordMap, ghost starts: map<nat, nat>)
    requires Ordered(fsm.variables) && forall id :: id in ids ==> id < |widths|
    modifies fsm`variables
    ensures Ordered(fsm.variables) && old(fsm.variables) <= fsm.variables
    ensures words.Keys == ids && Fills(fsm.variables, starts, widths, |old(fsm.variables)|)
    ensures Placed(fsm.variables, words, starts, widths, if input then InputDriver else Undriven)
    ensures forall id :: id in words ==> id in starts && |old(fsm.variables)| <= starts[id]
  {
    hide Placed;
    hide Fills;
    hide WordAt;
    NothingFills(fsm.variables, widths);
    ghost var start := fsm.variables;
    ghost var driver := if input then InputDriver else Undriven;
    words, starts := map[], map[];
    NothingPlaced(start, widths, driver);
    for id := 0 to |widths|
      invariant Ordered(fsm.variables) && start <= fsm.variables && Fills(fsm.variables, starts, widths, |start|)
      invariant words.Keys == starts.Keys == set k | k in ids && k < id
      invariant Placed(fsm.variables, words, starts, widths, driver)
      invariant forall k :: k in words ==> |start| <= starts[k] && starts[k] + widths[k] <= |fsm.variables|
    {
      if id in ids {
        ghost var before := fsm.variables;
        var word := CreateWord(fsm, widths[id], input);
        FillsOneMore(before, fsm.variables, starts, widths, |start|, id);
        PlacedOneMore(before, fsm.variables, words, starts, widths, driver, id);
        starts := starts[id := |before|];
        words := words[id := word];
      }
    }
  }

  lemma NothingFills(variables: seq<Driver>, widths: seq<nat>)
    ensures Fills(variables, map[], widths, |variables|)
  {
  }

  lemma NothingPlaced(variables: seq<Driver>, widths: seq<nat>, driver: Driver)
    ensures Placed(variables, map[], map[], widths, driver)
  {
  }

  // ----- latches -----

  /** Reset values of the bits of a word; bits without one start anywhere. */
  function BitReset(resets: seq<Option<bool>>, k: nat): Option<bool> {
    if k < |resets| then resets[k] else None
  }

  function ResetWord(resets: map<nat, seq<Option<bool>>>, id: nat): seq<Option<bool>> {
    if id in resets then resets[id] else []
  }

  ghost predicate LatchesAt(variables: seq<Driver>, start: nat, next: seq<Value>, resets: seq<Option<bool>>) {
    start + |next| <= |variables| &&
    forall i :: start <= i < start + |next| ==> variables[i] == LatchDriver(Latch(true, next[i - start], BitReset(resets, i - start)))
  }

  /** The drivers once every register bit is a latch of its next value. */
  ghost predicate Latched(before: seq<Driver>, after: seq<Driver>, registers: WordMap, starts: map<nat, nat>,
    widths: seq<nat>, next: WordMap, resets: map<nat, seq<Option<bool>>>, limit: nat)
    requires registers.Keys == starts.Keys && forall id :: id in registers ==> id < |widths|
  {
    && |after| == |before|
    && (forall id :: id in registers && id < limit ==>
          && id in next && |next[id]| == widths[id] && starts[id] + widths[id] <= |after|
          && LatchesAt(after, starts[id], next[id], ResetWord(resets, id)))
    && (forall i :: 0 <= i < |before| && !before[i].Undriven? ==> after[i] == before[i])
    && (forall i :: 0 <= i < |before| && before[i].Undriven? ==> after[i].Undriven? || after[i].LatchDriver?)
    && (forall id, i :: id in registers && id >= limit && starts[id] <= i < starts[id] + widths[id] && i < |after| ==>
          after[i].Undriven?)
  }

  lemma LatchedSettled(before: seq<Driver>, after: seq<Driver>, registers: WordMap, starts: map<nat, nat>,
    widths: seq<nat>, next: WordMap, resets: map<nat, seq<Option<bool>>>, limit: nat)
    requires registers.Keys == starts.Keys && forall id :: id in registers ==> id < |widths|
    requires Latched(before, after, registers, starts, widths, next, resets, limit)
    ensures forall s :: Settled(after, s) ==> Settled(before, s)
    ensures Ordered(before) ==> Ordered(after)
  {
    forall s | Settled(after, s)
      ensures Settled(before, s)
    {
      forall i | 0 <= i < |before| && before[i].GateDriver?
        ensures GateSettled(s, i, before[i].gate)
      {
        assert after[i] == before[i];
      }
    }
  }

  /** Registers step to their next values. */
  lemma LatchesStep(before: seq<Driver>, after: seq<Driver>, registers: WordMap, starts: map<nat, nat>,
    widths: seq<nat>, next: WordMap, resets: map<nat, seq<Option<bool>>>, s: Assignment, s': Assignment, id: nat)
    requires Placed(before, registers, starts, widths, Undriven)
    requires Latched(before, after, registers, starts, widths, next, resets, |widths|)
    requires Steps(after, s, s') && id in registers
    ensures id in next && |next[id]| == |registers[id]| && BitsOf(s', registers[id]) == BitsOf(s, next[id])
  {
    forall k | 0 <= k < widths[id]
      ensures Holds(s', registers[id][k]) == Holds(s, next[id][k])
    {
      var i := starts[id] + k;
      assert after[i] == LatchDriver(Latch(true, next[id][k], BitReset(ResetWord(resets, id), k)));
    }
  }

  method AddWordLatches(fsm: FSM, word: seq<Value>, ghost start: nat, next: seq<Value>, resets: seq<Option<bool>>)
    requires |next| == |word| && word == WordAt(start, |word|) && start + |word| <= |fsm.variables|
    requires forall k :: start <= k < start + |word| ==> fsm.variables[k].Undriven?
    modifies fsm`variables
    ensures |fsm.variables| == |old(fsm.variables)|
    ensures LatchesAt(fsm.variables, start, next, resets)
    ensures forall i :: 0 <= i < |fsm.variables| && !(start <= i < start + |word|) ==>
      fsm.variables[i] == old(fsm.variables)[i]
  {
    for k := 0 to |word|
      invariant |fsm.variables| == |old(fsm.variables)|
      invariant forall i :: start <= i < start + k ==> fsm.variables[i] == LatchDriver(Latch(true, next[i - start], BitReset(resets, i - start)))
      invariant forall i :: 0 <= i < |fsm.variables| && !(start <= i < start + k) ==>
        fsm.variables[i] == old(fsm.variables)[i]
    {
      fsm.AddLatch(next[k], word[k].v, BitReset(resets, k));
    }
  }

  /** A latch for every register bit; nothing if a register has no next value. */
  method AddLatches(fsm: FSM, registers: WordMap, ghost starts: map<nat, nat>, widths: seq<nat>,
    next: WordMap, resets: map<nat, seq<Option<bool>>>)
    returns (ok: bool)
    requires Placed(fsm.variables, registers, starts, widths, Undriven)
    modifies fsm`variables
    ensures ok <==> forall id :: id in registers ==> id in next && id < |widths| && |next[id]| == widths[id]
    ensures ok ==> Latched(old(fsm.variables), fsm.variables, registers, starts, widths, next, resets, |widths|)
  {
    ghost var before := fsm.variables;
    for id := 0 to |widths|
      invariant Latched(before, fsm.variables, registers, starts, widths, next, resets, id)
      invariant forall k :: k in registers && k < id ==> k in next && |next[k]| == widths[k]
    {
      if id in registers {
        if id !in next || |next[id]| != widths[id] {
          return false;
        }
        ghost var middle := fsm.variables;
        AddWordLatches(fsm, registers[id], starts[id], next[id], ResetWord(resets, id));
        LatchedOneMore(before, middle, fsm.variables, registers, starts, widths, next, resets, id);
      }
    }
    ok := true;
  }

  lemma LatchedOneMore(before: seq<Driver>, middle: seq<Driver>, after: seq<Driver>, registers: WordMap,
    starts: map<nat, nat>, widths: seq<nat>, next: WordMap, resets: map<nat, seq<Option<bool>>>, id: nat)
    requires Placed(before, registers, starts, widths, Undriven) && id in registers
    requires Latched(before, middle, registers, starts, widths, next, resets, id)
    requires id in next && |next[id]| == widths[id] && |after| == |middle|
    requires LatchesAt(after, starts[id], next[id], ResetWord(resets, id))
    requires forall i :: 0 <= i < |after| && !(starts[id] <= i < starts[id] + widths[id]) ==> after[i] == middle[i]
    ensures Latched(before, after, registers, starts, widths, next, resets, id + 1)
  {
    forall k | k in registers && k < id
      ensures LatchesAt(after, starts[k], next[k], ResetWord(resets, k))
    {
      assert LatchesAt(middle, starts[k], next[k], ResetWord(resets, k));
      assert starts[k] + widths[k] <= starts[id];
    }
    forall i | 0 <= i < |before| && !before[i].Undriven?
      ensures after[i] == before[i]
    {
      assert !(starts[id] <= i < starts[id] + widths[id]);
    }
    forall i | 0 <= i < |before| && before[i].Undriven?
      ensures after[i].Undriven? || after[i].LatchDriver?
    {
      if starts[id] <= i < starts[id] + widths[id] {
        assert after[i] == LatchDriver(Latch(true, next[id][i - starts[id]], BitReset(ResetWord(resets, id), i - starts[id])));
      }
    }
    forall k, i | k in registers && k >= id + 1 && starts[k] <= i < starts[k] + widths[k] && i < |after|
      ensures after[i].Undriven?
    {
      assert starts[id] + widths[id] <= starts[k];
    }
  }

  // ----- nothing is left undriven -----

  predicate OnlyInputs(variables: seq<Driver>) {
    forall i :: 0 <= i < |variables| ==> variables[i].InputDriver?
  }

  /** No latches yet, and only the bits of registers are undriven. */
  ghost predicate Storing(variables: seq<Driver>, starts: map<nat, nat>, widths: seq<nat>) {
    forall i :: 0 <= i < |variables| ==>
      !variables[i].LatchDriver? && (variables[i].Undriven? ==> InSomeWord(starts, widths, i))
  }

  /** Everything is driven, and latches read what there is. */
  predicate Complete(variables: seq<Driver>) {
    forall i :: 0 <= i < |variables| ==>
      !variables[i].Undriven? && (variables[i].LatchDriver? ==> variables[i].latch.input.Known(|variables|))
  }

  lemma WordDriver(variables: seq<Driver>, words: WordMap, starts: map<nat, nat>, widths: seq<nat>, driver: Driver,
    i: nat)
    requires Placed(variables, words, starts, widths, driver) && InSomeWord(starts, widths, i) && i < |variables|
    ensures variables[i] == driver
  {
    var id :| id in starts && id < |widths| && starts[id] <= i < starts[id] + widths[id];
    assert id in words;
  }

  lemma MoreInputs(before: seq<Driver>, after: seq<Driver>, words: WordMap, starts: map<nat, nat>, widths: seq<nat>)
    requires OnlyInputs(before) && before <= after
    requires Placed(after, words, starts, widths, InputDriver) && Fills(after, starts, widths, |before|)
    ensures OnlyInputs(after)
  {
    hide Placed;
    hide InSomeWord;
    forall i | 0 <= i < |after|
      ensures after[i].InputDriver?
    {
      if i >= |before| {
        WordDriver(after, words, starts, widths, InputDriver, i);
      }
    }
  }

  lemma RegistersStore(before: seq<Driver>, after: seq<Driver>, words: WordMap, starts: map<nat, nat>, widths: seq<nat>)
    requires OnlyInputs(before) && before <= after
    requires Placed(after, words, starts, widths, Undriven) && Fills(after, starts, widths, |before|)
    ensures Storing(after, starts, widths)
  {
    hide Placed;
    hide InSomeWord;
    forall i | 0 <= i < |after|
      ensures !after[i].LatchDriver? && (after[i].Undriven? ==> InSomeWord(starts, widths, i))
    {
      if i >= |before| {
        WordDriver(after, words, starts, widths, Undriven, i);
      }
    }
  }

  lemma StoringGrows(before: seq<Driver>, after: seq<Driver>, starts: map<nat, nat>, widths: seq<nat>)
    requires Storing(before, starts, widths) && Grows(before, after)
    ensures Storing(after, starts, widths)
  {
    hide Settled;
    hide InSomeWord;
  }

  lemma CompleteGrows(before: seq<Driver>, after: seq<Driver>)
    requires Complete(before) && Grows(before, after)
    ensures Complete(after)
  {
    hide Settled;
  }

  /** Latches complete the machine. */
  lemma LatchesComplete(before: seq<Driver>, after: seq<Driver>, registers: WordMap, starts: map<nat, nat>,
    widths: seq<nat>, next: WordMap, resets: map<nat, seq<Option<bool>>>)
    requires registers.Keys == starts.Keys && forall id :: id in registers ==> id < |widths|
    requires Latched(before, after, registers, starts, widths, next, resets, |widths|)
    requires Storing(before, starts, widths)
    requires forall id :: id in registers && id in next ==> AllKnown(next[id], |before|)
    ensures Complete(after)
  {
    forall i | 0 <= i < |after|
      ensures !after[i].Undriven? && (after[i].LatchDriver? ==> after[i].latch.input.Known(|after|))
    {
      if before[i].Undriven? {
        assert InSomeWord(starts, widths, i);
        var id :| id in starts && id < |widths| && starts[id] <= i < starts[id] + widths[id];
        assert id in registers && LatchesAt(after, starts[id], next[id], ResetWord(resets, id));
        assert after[i] == LatchDriver(Latch(true, next[id][i - starts[id]], BitReset(ResetWord(resets, id), i - starts[id])));
      } else {
        assert after[i] == before[i];
      }
    }
  }

  /** The assertions hold of a complete machine. */
  lemma CompleteIsVerified(m: Machine)
    requires Complete(m.variables) && Ordered(m.variables)
    requires AllKnown(m.outputs, |m.variables|) && AllKnown(m.asserts, |m.variables|)
    requires AllKnown(m.assumes, |m.variables|) && AllKnown(m.covers, |m.variables|)
    ensures Verified(m)
  {
  }

  // ----- where everything is -----

  /** All gates come after everything else. */
  predicate GatesTogether(variables: seq<Driver>) {
    forall i, j :: 0 <= i < j < |variables| && variables[i].GateDriver? ==> variables[j].GateDriver?
  }

  predicate GateFree(variables: seq<Driver>) {
    forall i :: 0 <= i < |variables| ==> !variables[i].GateDriver?
  }

  lemma StoringHasNoGates(before: seq<Driver>, after: seq<Driver>, words: WordMap, starts: map<nat, nat>,
    widths: seq<nat>)
    requires OnlyInputs(before) && before <= after
    requires Placed(after, words, starts, widths, Undriven) && Fills(after, starts, widths, |before|)
    ensures GateFree(after)
  {
    hide Placed;
    hide InSomeWord;
    forall i | 0 <= i < |after|
      ensures !after[i].GateDriver?
    {
      if i >= |before| {
        WordDriver(after, words, starts, widths, Undriven, i);
      }
    }
  }

  lemma GatesStayTogether(before: seq<Driver>, middle: seq<Driver>, after: seq<Driver>, registers: WordMap,
    starts: map<nat, nat>, widths: seq<nat>, next: WordMap, resets: map<nat, seq<Option<bool>>>)
    requires GateFree(before) && Grows(before, middle)
    requires registers.Keys == starts.Keys && forall id :: id in registers ==> id < |widths|
    requires Latched(middle, after, registers, starts, widths, next, resets, |widths|)
    ensures GatesTogether(after)
  {
    hide Settled;
  }

  predicate RegisterBit(driver: Driver, reset: Option<bool>) {
    driver.LatchDriver? && driver.latch.sign && driver.latch.reset == reset
  }

  /** Each register occupies its own run of latches. */
  ghost predicate RegistersAt(variables: seq<Driver>, registers: WordMap, starts: map<nat, nat>, widths: seq<nat>,
    resets: map<nat, seq<Option<bool>>>) {
    && registers.Keys == starts.Keys
    && (forall id :: id in registers ==>
          && id < |widths| && registers[id] == WordAt(starts[id], widths[id])
          && starts[id] + widths[id] <= |variables|
          && forall k :: 0 <= k < widths[id] ==> RegisterBit(variables[starts[id] + k], BitReset(ResetWord(resets, id), k)))
    && (forall a, b :: a in registers && b in registers && a < b ==> starts[a] + widths[a] <= starts[b])
  }

  lemma LatchedRegisters(before: seq<Driver>, after: seq<Driver>, registers: WordMap, starts: map<nat, nat>,
    widths: seq<nat>, next: WordMap, resets: map<nat, seq<Option<bool>>>)
    requires Placed(before, registers, starts, widths, Undriven)
    requires Latched(before, after, registers, starts, widths, next, resets, |widths|)
    ensures RegistersAt(after, registers, starts, widths, resets)
  {
    forall id, k | id in registers && 0 <= k < widths[id]
      ensures RegisterBit(after[starts[id] + k], BitReset(ResetWord(resets, id), k))
    {
      assert LatchesAt(after, starts[id], next[id], ResetWord(resets, id));
      assert after[starts[id] + k] == LatchDriver(Latch(true, next[id][k], BitReset(ResetWord(resets, id), k)));
    }
  }

  lemma PlacedThroughLatches(before: seq<Driver>, after: seq<Driver>, registers: WordMap, starts: map<nat, nat>,
    widths: seq<nat>, next: WordMap, resets: map<nat, seq<Option<bool>>>, inputs: WordMap, inputStarts: map<nat, nat>)
    requires registers.Keys == starts.Keys && forall id :: id in registers ==> id < |widths|
    requires Latched(before, after, registers, starts, widths, next, resets, |widths|)
    requires Placed(before, inputs, inputStarts, widths, InputDriver)
    ensures Placed(after, inputs, inputStarts, widths, InputDriver)
  {
  }

  /** Everything but gates is a bit of an input or a register. */
  ghost predicate Stored(variables: seq<Driver>, inputStarts: map<nat, nat>, starts: map<nat, nat>, widths: seq<nat>) {
    forall i :: 0 <= i < |variables| && !variables[i].GateDriver? ==>
      InSomeWord(inputStarts, widths, i) || InSomeWord(starts, widths, i)
  }

  lemma StartStored(before: seq<Driver>, after: seq<Driver>, inputStarts: map<nat, nat>, starts: map<nat, nat>,
    widths: seq<nat>)
    requires Fills(before, inputStarts, widths, 0) && before <= after && Fills(after, starts, widths, |before|)
    ensures Stored(after, inputStarts, starts, widths)
  {
    hide InSomeWord;
  }

  lemma StoredThroughLatches(start: seq<Driver>, before: seq<Driver>, after: seq<Driver>, registers: WordMap,
    starts: map<nat, nat>, widths: seq<nat>, next: WordMap, resets: map<nat, seq<Option<bool>>>,
    inputStarts: map<nat, nat>)
    requires Stored(start, inputStarts, starts, widths) && Grows(start, before)
    requires registers.Keys == starts.Keys && forall id :: id in registers ==> id < |widths|
    requires Latched(before, after, registers, starts, widths, next, resets, |widths|)
    ensures Stored(after, inputStarts, starts, widths)
  {
    hide Settled;
    hide InSomeWord;
  }

  // ----- every choice of inputs and initial registers has a run -----

  /** The value that the words give a variable. */
  ghost function Carried(starts: map<nat, nat>, widths: seq<nat>, values: seq<Bits>, i: nat): bool {
    if InSomeWord(starts, widths, i) then
      var id :| id in starts && id < |widths| && starts[id] <= i < starts[id] + widths[id];
      id < |values| && i - starts[id] < |values[id]| && values[id][i - starts[id]]
    else false
  }

  lemma CarriedWord(starts: map<nat, nat>, widths: seq<nat>, values: seq<Bits>, id: nat, k: nat)
    requires forall a, b :: a in starts && b in starts && a < b && a < |widths| && b < |widths| ==>
      starts[a] + widths[a] <= starts[b]
    requires id in starts && id < |widths| && id < |values| && k < widths[id] == |values[id]|
    ensures Carried(starts, widths, values, starts[id] + k) == values[id][k]
  {
    assert InSomeWord(starts, widths, starts[id] + k);
  }

  ghost function DrivenBy(inputStarts: map<nat, nat>, starts: map<nat, nat>, widths: seq<nat>, first: seq<Bits>,
    inputs: nat -> seq<Bits>): Trace {
    (t: nat) => (i: nat) =>
      if InSomeWord(inputStarts, widths, i) then Carried(inputStarts, widths, inputs(t), i)
      else Carried(starts, widths, first, i)
  }

  /** Registers with reset values are given those. */
  predicate StartsReset(registers: set<nat>, widths: seq<nat>, resets: map<nat, seq<Option<bool>>>, first: seq<Bits>) {
    forall id, k :: id in registers && id < |widths| && id < |first| && 0 <= k < widths[id] && k < |first[id]| ==>
      FitsReset(first[id][k], BitReset(ResetWord(resets, id), k))
  }

  predicate FitsReset(value: bool, reset: Option<bool>) {
    reset.Some? ==> value == reset.value
  }

  lemma WordHolds(s: Assignment, start: nat, width: nat, bits: Bits)
    requires |bits| == width && forall k :: 0 <= k < width ==> s(start + k) == bits[k]
    ensures BitsOf(s, WordAt(start, width)) == bits
  {
  }

  lemma InputAt(variables: seq<Driver>, drive: Trace, t: nat, i: nat)
    requires Ordered(variables) && i < |variables| && variables[i].InputDriver?
    ensures TrajectoryTrace(variables, drive)(t)(i) == drive(t)(i)
  {
    hide Trajectory;
    TrajectoryDriven(variables, drive, t, i);
  }

  lemma LatchAt(variables: seq<Driver>, drive: Trace, i: nat, reset: Option<bool>, value: bool)
    requires Ordered(variables) && i < |variables| && RegisterBit(variables[i], reset) && FitsReset(value, reset)
    requires drive(0)(i) == value
    ensures TrajectoryTrace(variables, drive)(0)(i) == value
  {
    hide Trajectory;
    TrajectoryDriven(variables, drive, 0, i);
  }

  lemma InputsDriven(variables: seq<Driver>, inputs: WordMap, inputStarts: map<nat, nat>, starts: map<nat, nat>,
    widths: seq<nat>, first: seq<Bits>, given: nat -> seq<Bits>, t: nat, id: nat)
    requires Ordered(variables) && Placed(variables, inputs, inputStarts, widths, InputDriver)
    requires id in inputs && id < |given(t)| && |given(t)[id]| == widths[id]
    ensures
      BitsOf(TrajectoryTrace(variables, DrivenBy(inputStarts, starts, widths, first, given))(t), inputs[id]) == given(t)[id]
  {
    var drive := DrivenBy(inputStarts, starts, widths, first, given);
    var trace := TrajectoryTrace(variables, drive);
    hide TrajectoryTrace;
    hide Carried;
    hide Ordered;
    hide WordAt;
    forall k | 0 <= k < widths[id]
      ensures trace(t)(inputStarts[id] + k) == given(t)[id][k]
    {
      var i := inputStarts[id] + k;
      CarriedWord(inputStarts, widths, given(t), id, k);
      assert InSomeWord(inputStarts, widths, i);
      assert drive(t)(i) == given(t)[id][k];
      InputAt(variables, drive, t, i);
    }
    WordHolds(trace(t), inputStarts[id], widths[id], given(t)[id]);
  }

  lemma RegistersStart(variables: seq<Driver>, inputs: WordMap, inputStarts: map<nat, nat>, registers: WordMap,
    starts: map<nat, nat>, widths: seq<nat>, resets: map<nat, seq<Option<bool>>>, first: seq<Bits>,
    given: nat -> seq<Bits>, id: nat)
    requires Ordered(variables) && Placed(variables, inputs, inputStarts, widths, InputDriver)
    requires RegistersAt(variables, registers, starts, widths, resets)
    requires StartsReset(registers.Keys, widths, resets, first)
    requires id in registers && id < |first| && |first[id]| == widths[id]
    ensures
      BitsOf(TrajectoryTrace(variables, DrivenBy(inputStarts, starts, widths, first, given))(0), registers[id]) == first[id]
  {
    var drive := DrivenBy(inputStarts, starts, widths, first, given);
    var trace := TrajectoryTrace(variables, drive);
    hide TrajectoryTrace;
    hide Carried;
    hide Ordered;
    hide WordAt;
    hide Placed;
    hide InSomeWord;
    hide FitsReset;
    forall k | 0 <= k < widths[id]
      ensures trace(0)(starts[id] + k) == first[id][k]
    {
      var i := starts[id] + k;
      assert RegisterBit(variables[i], BitReset(ResetWord(resets, id), k));
      NoInputThere(variables, inputs, inputStarts, widths, i);
      CarriedWord(starts, widths, first, id, k);
      assert drive(0)(i) == first[id][k];
      LatchAt(variables, drive, i, BitReset(ResetWord(resets, id), k), first[id][k]);
    }
    WordHolds(trace(0), starts[id], widths[id], first[id]);
  }

  lemma NoInputThere(variables: seq<Driver>, inputs: WordMap, inputStarts: map<nat, nat>, widths: seq<nat>, i: nat)
    requires Placed(variables, inputs, inputStarts, widths, InputDriver) && i < |variables|
    requires !variables[i].InputDriver?
    ensures !InSomeWord(inputStarts, widths, i)
  {
    if InSomeWord(inputStarts, widths, i) {
      WordDriver(variables, inputs, inputStarts, widths, InputDriver, i);
    }
  }

  // ----- outputs -----

  method AddWordOutputs(fsm: FSM, word: seq<Value>)
    modifies fsm`outputs
    ensures fsm.outputs == old(fsm.outputs) + word
  {
    for k := 0 to |word|
      invariant fsm.outputs == old(fsm.outputs) + word[..k]
    {
      fsm.AddOutput(word[k]);
    }
    assert word[..|word|] == word;
  }
}
