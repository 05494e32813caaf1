# Verification of the state machine compiler

The repository compiles hardware designs into an And/Or-graph state machine,
transforms and simulates that machine, and exchanges it as AIGER. This project
models those layers in Dafny and proves what each promises.

- `Words`, `Shifts`, `Slices`: bit vectors and the numbers they denote.
- `Fsm`: the machine, its relational meaning and its runs, and the class that
  builders push to.
- `Ops`: word-level circuit builders, proved to compute integer arithmetic
  modulo two to the width for every width.
- `Translation`, `Reorder`, `Normalize`, `TieInput`: renamings of a machine are
  bisimulations, and reordering, sign normalisation, compaction and tying an
  input are such renamings.
- `Simulator`, `SimulatorOperations`: the three-valued simulator, exactly when any
  sequence of its operations can be relied on, and reset inference from it.
- `AigerText`, `AigerSymbols`, `AigerBinary`, `Exchange`: the binary AIGER codec with its
  symbol section, their round trips, and the whole way from normalising through writing
  to reading back.
- `VerilogRuntime`, `VerilogSimulator`, `PackedLayouts`: what a generated Rust
  simulator computes for expressions, statements, clock edges and packed values.
- `VerilogOperators`, `VerilogSelection`, `VerilogExpressions`, `VerilogTargets`,
  `VerilogConvert`: the symbolic backend, proved to compute what that simulator does,
  expression by expression and statement by statement, and to succeed exactly on what
  it accepts.
- `VerilogAnalysis`, `VerilogFootprints`, `VerilogInterference`,
  `VerilogSequential`, `VerilogRaces`, `VerilogScheduling`: the analysis of clocked
  processes (exactly when their order matters, temporaries without registers) and the
  order of combinational logic.
- `WordStorage`: inputs and registers as runs of variables, shared by both backends.
- `VerilogCycle`, `VerilogModel`, `VerilogAssembly`: whole cycles and runs of a design
  against the simulator, and the machine with outputs, properties, reordering and reset.
- `VerilogGenerated`, `VerilogExample`: the same for the generated simulator in its own
  order under conditions on the design alone, and two example designs.
- `CircuitLiterals`, `CircuitGraph`, `CircuitMeaning`, `CircuitLowering`,
  `CircuitModel`: the CIRCT backend, from literals and the cycle check over lowering
  to machines whose runs are exactly the runs of the circuit; `CircuitReset` applies a
  reset to them.
- `CircuitTypes`: hardware types as text, printed, lexed and parsed back.

The Verilog semantics follow sections 4.9.4, 11.4.3 and 11.4.10 of IEEE 1800-2017
as far as the code does. Panics and error returns of the code are results
(`None`), so every operation is total. Where a design is compared across
backends, results are compared whenever neither backend fails.

Where the code and what one would expect of it differ, the code is kept and the
difference is stated exactly:

- A logical shift to a single bit is not shifted by the symbolic backend
  (`VerilogSelection.ShiftsAgreeExactly`).
- Candidates of dynamic writes and array indices are cut to the width of the
  index (`VerilogSelection.OffsetsFoundExactly`, `IndicesFoundExactly`).
- A part select that leaves its array element writes the neighbouring element in
  the simulator and nothing in the symbolic backend (`VerilogTargets.StrayWrite`).
- The footprints of the analysis are cut to that element, so the outcome of two
  accepted processes can depend on their order (`VerilogRaces.StrayRace`).
  `VerilogRaces.InsideIsRaceFree` gives a condition on the design that rules this out,
  and `AcceptedRacesExactly` says when it happens.
- A variable that combinational logic assigns on some paths only is zero in the
  symbolic backend and keeps its last value in the simulator
  (`VerilogExample.LatchDiffers`). `VerilogModel.ShownExactly` says when the two show
  the same, `VerilogModel.RunClears` what the symbolic backend computes in any case.
- The three-valued simulator does not notice that gates are out of date
  (`SimulatorOperations.ReadsSoundExactly`, `StepsSoundExactly`).
- An And of a variable and its negation cannot be written to binary AIGER
  (`AigerBinary.EncodableExactly`).
- A version 1.9 file without asserts and assumes reads as version 1.0, and a lone
  output then becomes an assertion (`AigerBinary.FileRoundTrip`).
- Order normalisation refuses a machine of nothing but gates
  (`Normalize.NormalizeOrdering`).
- Types in which an array of size zero has array elements print as text that their
  parser refuses (`CircuitTypes.TypeParsesExactly`).
- Empty names and names with a newline do not survive the symbol section of an AIGER
  file (`AigerSymbols.SymbolsRoundTrip`).

`dafny verify dfyconfig.toml` checks the project.

## Model

| member | source | states |
|---|---|---|
| `Ops.CreateXorGate` | formal-utils/src/ops.rs:51-67 | Whatever shortcut is taken, the value is the exclusive or in every settled assignment of the grown machine |
| `Ops.CreateFullAdder` | formal-utils/src/ops.rs:69-80 | Twice the carry plus the sum is the number of true inputs |
| `Ops.CreateAddition` | formal-utils/src/ops.rs:82-93 | For every width, the bits denote the sum modulo two to the width; old variables keep their meaning and the machine stays ordered |
| `Ops.CreateSubtraction` | formal-utils/src/ops.rs:95-106 | The bits denote the difference modulo two to the width |
| `Ops.CreateMultiplication` | formal-utils/src/ops.rs:108-130 | The partial-product loop denotes the product modulo two to the width |
| `Ops.CreateUnsignedDivision` | formal-utils/src/ops.rs:132-159 | Restoring division gives the integer quotient, and all ones for divisor zero |
| `Ops.CreateSignedDivision` | formal-utils/src/ops.rs:161-179 | Sign and magnitude division truncates toward zero modulo two to the width, minimum by minus one and divisor zero included |
| `Ops.SignAndMagnitudeDivision` | formal-utils/src/ops.rs:161-179 | Truncating signed division is unsigned division of magnitudes, negated when the signs differ, for all operands |
| `Ops.CreateUnsignedRemainder` | formal-utils/src/ops.rs:181-185 | The word is the dividend modulo the divisor, and the dividend for divisor zero |
| `Ops.RemainderByMultiplying` | formal-utils/src/ops.rs:181-185 | The remainder is dividend minus quotient times divisor, also for divisor zero |
| `Ops.CreateSignedRemainder` | formal-utils/src/ops.rs:187-191 | The word is the truncating remainder, whose sign is the dividend's |
| `Ops.SignedRemainderByMultiplying` | formal-utils/src/ops.rs:187-191 | The signed remainder is dividend minus signed quotient times divisor modulo two to the width |
| `Words.TruncRemBounds` | formal-utils/src/ops.rs:187-191 | The truncating remainder is smaller than the divisor in magnitude and never has the opposite sign of the dividend |
| `Ops.CreateComparison` | formal-utils/src/ops.rs:193-204 | The value is the unsigned comparison of the two words |
| `Ops.CreateMuxGate` | formal-utils/src/ops.rs:206-228 | Every simplification of a one-bit multiplexer computes the selected input |
| `Ops.CreateMux` | formal-utils/src/ops.rs:230-237 | The word is the second input when the selector holds and the first otherwise |
| `Ops.CreateSelect` | formal-utils/src/ops.rs:239-255 | The halving tree selects the entry numbered by the index word |
| `Ops.CreateShifter` | formal-utils/src/ops.rs:257-321 | For every value and amount width, shifts saturate with the right fill and rotations rotate by the amount modulo the width |
| `Ops.RotateStage` | formal-utils/src/ops.rs:257-321 | Wiring by a distance kept modulo the width rotates by the undivided amount |
| `Ops.DoubleModulo` | formal-utils/src/ops.rs:257-321 | The comparison and subtraction that keep the rotate distance in range double it modulo the width |
| `Ops.CreateEquals` | formal-utils/src/ops.rs:324-331 | The value holds exactly when the words are equal |
| `Ops.CreateLessThan` | formal-utils/src/ops.rs:333-348 | The value holds exactly when the first word denotes the smaller number |
| `Ops.CreateConditionalNegation` | formal-utils/src/ops.rs:350-354 | The word is negated modulo two to the width exactly when the flag holds |
| `Shifts.ShiftUpIsMultiplication` | formal-utils/src/ops.rs:257-321 | A left shift by any distance multiplies by that power of two modulo two to the width |
| `Shifts.ShiftDownIsDivision` | formal-utils/src/ops.rs:257-321 | A right shift by any distance divides by that power of two |
| `Shifts.ArithmeticShiftIsFloorDivision` | formal-utils/src/ops.rs:257-321 | An arithmetic right shift divides the signed number rounding down |
| `Shifts.RotateBack` | formal-utils/src/ops.rs:257-321 | Rotating left undoes rotating right |
| `Fsm.SettleIsSettled` | formal-utils/src/fsm/verify.rs:15-57 | In an ordered machine every choice of inputs and latches extends to a settled assignment |
| `Fsm.SettleIsUnique` | formal-utils/src/fsm/verify.rs:15-57 | ... and to only one: inputs and latches determine every gate |
| `Fsm.FSM.Verify` | formal-utils/src/fsm/verify.rs:15-57 | The assertions hold exactly for well-driven machines, and with ordering exactly for those whose gates read lower indices |
| `Normalize.VerifiedAcyclic` | formal-utils/src/fsm/verify.rs:15-57 | A machine that passes verification has no cyclic gates |
| `Fsm.EveryDriveHasRun` | formal-utils/src/sim.rs:95-142 | Every sequence of inputs and every choice of initial latches that respects the reset values has a run |
| `Fsm.FSM.AddGate` | formal-utils/src/fsm.rs:120-132 | An undriven variable becomes the gate with its inputs sorted; nothing else changes |
| `Fsm.FSM.AddVariableGateBinary` | formal-utils/src/fsm.rs:133-141 | The new value is the conjunction or disjunction of the inputs in every settled assignment of the grown machine |
| `Fsm.FSM.AddVariableGate` | formal-utils/src/fsm.rs:142-153 | Pairwise combination from the end of the list computes the conjunction or disjunction of all inputs |
| `Fsm.FSM.AddLatch` | formal-utils/src/fsm.rs:163-176 | The machine grows as far as needed and exactly the output variable becomes the latch |
| `Translation.RenamingKeepsRuns` | formal-utils/src/fsm/reorder.rs:55-155 | A machine moved along a signed renaming has, in both directions, the same runs and the same outputs, asserts, assumes and covers in every cycle |
| `Translation.RenamedTwice` | formal-utils/src/fsm/normalize.rs:11-75 | Renamings compose |
| `Reorder.VerifyGatesLast` | formal-utils/src/fsm/reorder.rs:19-45 | Gates follow all other variables exactly when the check succeeds, and then the first gate is reported; index zero is refused |
| `Reorder.CyclicHasNoRank` | formal-utils/src/fsm/reorder.rs:55-104 | A set of gates that each wait for another of the set rules out any dependency order |
| `Reorder.AssignIndices` | formal-utils/src/fsm/reorder.rs:55-104 | The work queue with its blocked counter terminates, fails exactly when gate dependencies are cyclic, and otherwise numbers every gate once, after the gates it reads |
| `Reorder.ReorderGates` | formal-utils/src/fsm/reorder.rs:55-155 | The machine is refused exactly for a misplaced first gate or a cycle; otherwise the result passes the ordering check and is a renaming that keeps every other variable in place |
| `Normalize.NormalizeOutputs` | formal-utils/src/fsm/normalize.rs:81-133 | And outputs end positive, Or outputs negative and latches positive, and the result is a sign-flipping renaming of the original |
| `Normalize.NormalizeOrdering` | formal-utils/src/fsm/normalize.rs:11-75 | Inputs come first, then latches, then gates in dependency order; the result is a renaming, and exactly machines of nothing but gates and cyclic ones are refused |
| `Normalize.CyclesRenamed` | formal-utils/src/fsm/normalize.rs:11-75 | A renaming neither makes nor breaks a cycle of gates |
| `Normalize.FlippedIsRenamed` | formal-utils/src/fsm/normalize.rs:81-133 | Negating drivers and the references to them is a renaming with signs, hence keeps all runs |
| `Normalize.CompactedIsRenamed` | formal-utils/src/fsm/normalize.rs:11-75 | Grouping by kind and dropping undriven variables is a renaming |
| `TieInput.RebuildWithTiedInput` | verilator-formal/src/convert.rs:1256-1315 | The rebuilt machine has no trace of the tied input, passes verification and is the original with the constant substituted along the returned mapping |
| `TieInput.TyingKeepsRuns` | verilator-formal/src/convert.rs:1256-1315 | Runs of the rebuilt machine are exactly the runs of the original that hold the input at the constant, with the same observations cycle by cycle |
| `Simulator.EvalGate` | formal-utils/src/gate.rs:54-71 | The loop with its unknown flag returns the controlling value, no value, or the identity value |
| `Simulator.GateIsExact` | formal-utils/src/gate.rs:54-71 | A three-valued gate is known exactly when every completion of its inputs gives that value |
| `Simulator.Simulation.EvalVariable` | formal-utils/src/sim.rs:95-108 | One variable takes the three-valued value of its gate; the others stay |
| `Simulator.Simulation.Eval` | formal-utils/src/sim.rs:111-116 | Evaluation in index order computes the three-valued value of every gate from inputs and latches |
| `Simulator.Simulation.Step` | formal-utils/src/sim.rs:119-132 | All latches move at once to what their inputs were |
| `Simulator.Simulation.ResetState` | formal-utils/src/sim.rs:135-142 | Latches return to their reset values or become unknown |
| `Simulator.KnownAtSound` | formal-utils/src/sim.rs:95-116 | A value the evaluation reports as known holds in every settled assignment that refines the known inputs and latches |
| `Simulator.SimulationSound` | formal-utils/src/sim.rs:95-142 | When each cycle sets all inputs, evaluates once and steps once, known values hold in every concrete run that refines the unknowns |
| `SimulatorOperations.OperationsSound` | formal-utils/src/sim.rs:95-142 | After any sequence of set, eval, step and reset in which no step is taken while gates are stale, what is known of inputs and latches holds on every machine and in every behaviour of the hardware, and so does what is known of gates unless they are stale |
| `SimulatorOperations.ReadsSoundExactly` | formal-utils/src/sim.rs:95-142 | For such a sequence the reported values are right on every machine exactly when nothing is stale: no input known at the last eval has changed since, and latches have not moved except from reset back to reset |
| `SimulatorOperations.StepsSoundExactly` | formal-utils/src/sim.rs:119-142 | A sequence keeps inputs and latches right on every machine at every point exactly when it takes no step while gates are stale |
| `SimulatorOperations.StaleUnsound` | formal-utils/src/sim.rs:119-132 | After any sequence that leaves gates stale some machine reports a wrong gate, and after one more step a wrong latch |
| `SimulatorOperations.SecondStep` | formal-utils/src/sim.rs:119-132 | Stepping twice after one eval is such a sequence |
| `SimulatorOperations.ChangedInput` | formal-utils/src/sim.rs:43-47 | Changing an input after eval leaves gates stale |
| `SimulatorOperations.EvalBeforeStep` | formal-utils/src/sim.rs:95-142 | Evaluating right before every step is enough for every sequence to be sound |
| `Simulator.ApplyReset` | circt-formal/src/convert.rs:715-737 | The reset values are those known after simulating one cycle with the reset asserted |
| `Simulator.ResetIsSound` | circt-formal/src/convert.rs:715-737 | Without the preset fallback, what follows the reset cycle of any run of the original is a run of the machine with inferred resets, with the same observations |
| `Simulator.ResetIsExact` | circt-formal/src/convert.rs:715-737 | If simulation leaves no latch unknown, every run of the machine with inferred resets is what follows the reset cycle of some run of the original |
| `AigerText.ParseDecimal` | formal-utils/src/formats/aiger.rs:164-204 | Parsing the decimal spelling of a number gives the number |
| `AigerText.ReadWrittenWords` | formal-utils/src/formats/aiger.rs:19-40 | Splitting a written line gives back its words and leaves the rest of the file |
| `AigerText.ReadWrittenCompressed` | formal-utils/src/formats/aiger/binary.rs:13-39 | Decoding a compressed number gives the number and leaves what follows |
| `AigerText.ByteQueue.ReadCompressedUint` | formal-utils/src/formats/aiger/binary.rs:13-25 | Popping seven-bit digits computes what the recursive decoder computes, and fails only at the end of the file |
| `AigerText.WriteCompressedUint` | formal-utils/src/formats/aiger/binary.rs:27-39 | The loop appends the compressed form |
| `AigerText.ByteQueue.ReadBinaryLine` | formal-utils/src/formats/aiger.rs:28-40 | The queue gives the bytes up to the newline and keeps the rest |
| `AigerSymbols.SymbolsRoundTrip` | formal-utils/src/formats/aiger.rs:41-102 | A written symbol section reads back exactly when no name is empty or has a newline |
| `AigerSymbols.ReadIsReadable` | formal-utils/src/formats/aiger.rs:41-72 | No text whatever gives an empty name or one with a newline |
| `AigerSymbols.ReadSymbolLines` | formal-utils/src/formats/aiger.rs:41-72 | The loop names what the lines up to a comment number, and fails exactly on an unknown kind and a number that does not parse or names nothing |
| `AigerBinary.LiteralsRoundTrip` | formal-utils/src/formats/aiger.rs:105-143 | Values and literals correspond one to one |
| `AigerBinary.LatchRoundTrip` | formal-utils/src/formats/aiger.rs:248-319 | A latch line with any of the three resets reads back as the latch |
| `AigerBinary.EncodableExactly` | formal-utils/src/formats/aiger/binary.rs:131-148 | Of the gates that verification accepts, the writer's subtractions underflow exactly for the And of a variable and its negation and the Or of both constants |
| `AigerBinary.GateRoundTrip` | formal-utils/src/formats/aiger/binary.rs:81-94 | The two differences of a gate read back as the And gate with the same meaning |
| `AigerBinary.NormalisedIsWritable` | formal-utils/src/formats/aiger/binary.rs:107-153 | A normalised ordered machine passes every assertion of the writer exactly when the version allows it and no gate clashes |
| `AigerBinary.WriteAigerBinary` | formal-utils/src/formats/aiger/binary.rs:107-153 | The file is written exactly for machines that meet all assertions, and then has the specified bytes, names last |
| `AigerBinary.ReadAigerBinary` | formal-utils/src/formats/aiger/binary.rs:42-104 | Reading succeeds exactly on well-formed files and builds the machine and the names that the file denotes |
| `AigerBinary.FileRoundTrip` | formal-utils/src/formats/aiger/binary.rs:42-153 | Reading the written bytes gives the machine with Or gates as Ands, plus the assertion that a file read as version 1.0 implies, and its names, exactly when no name is empty or has a newline; the version survives unless there are no asserts and assumes |
| `AigerBinary.AndFormKeepsRuns` | formal-utils/src/formats/aiger/binary.rs:131-148 | The machine read back has exactly the runs and observations of the one written |
| `Exchange.NormalizeWriteRead` | formal-utils/tests/aiger.rs:87-115 | Normalising, writing and reading back succeeds exactly for machines that are not all gates, have no cycle, fit the version and hold no clashing gate; the machine read back is verified and has, in both directions, the runs of the original |
| `Exchange.ExchangeKeepsRuns` | formal-utils/src/fsm/normalize.rs:81-133 | Renaming a machine, then writing and reading it, keeps runs and observations, up to the assertion that version 1.0 implies |
| `VerilogRuntime.StorageIsExact` | simulator-rust/simulator-rust-runtime/src/storage.rs:28-128 | Wrapping at the storage width and masking is arithmetic modulo the declared width; a zero divisor gives all ones and high bits stay clear |
| `VerilogRuntime.ToUsizeIsValue` | simulator-rust/simulator-rust-runtime/src/lib.rs:144-150 | The conversion fails exactly when the number does not fit a machine word |
| `VerilogRuntime.CmpUnsigned` | simulator-rust/simulator-rust-runtime/src/lib.rs:223-231 | Comparing from the top bit orders the numbers, for operands of any two widths |
| `VerilogRuntime.CmpSigned` | simulator-rust/simulator-rust-runtime/src/lib.rs:233-253 | Comparing extended signs and bits orders the signed numbers, for operands of any two widths |
| `VerilogRuntime.BitVector.AssignSelect` | simulator-rust/simulator-rust-runtime/src/lib.rs:335-350 | A slice in range is replaced, one out of range changes nothing |
| `VerilogRuntime.SelectAfterAssign` | simulator-rust/simulator-rust-runtime/src/lib.rs:329-350 | Selecting an assigned slice gives the assigned value, and assigning the selected value changes nothing |
| `VerilogRuntime.SelectElsewhere` | simulator-rust/simulator-rust-runtime/src/lib.rs:329-350 | Slices that do not overlap keep their bits |
| `Ranges.RangeIterator.Next` | verilator-parser/src/ast/range.rs:42-52 | The iterator yields the declared indices in order; saturation never reaches them |
| `Ranges.ArrayOffsetIsPosition` | simulator-rust/simulator-rust-runtime/src/lib.rs:375-393 | The offset exists exactly for declared indices and is the position in iteration order times the element width, in both directions |
| `PackedLayouts.ResolveStruct` | verilator-parser/src/parser/dtype.rs:252-294 | The accumulating loop gives every member the slot after those declared later, and refuses exactly structures whose width overflows a machine word |
| `PackedLayouts.SlotsTile` | verilator-parser/src/parser/dtype.rs:252-294 | Every bit of a structure belongs to exactly one member, and members reach no further |
| `PackedLayouts.SlotsOrdered` | verilator-parser/src/parser/dtype.rs:252-294 | Members declared first lie above those declared later |
| `PackedLayouts.ValueRoundTrip` | simulator-rust/src/lib.rs:1335-1365 | For layouts of structures, arrays and unions nested to any depth, deserialising a serialised value gives the value |
| `PackedLayouts.BitsRoundTrip` | simulator-rust/src/lib.rs:1335-1365 | ... and serialising a deserialised vector gives the vector: the packed layout is a bijection |
| `PackedLayouts.PackFields` | simulator-rust/src/lib.rs:1335-1365 | Assigning the members one after the other into a zeroed vector gives the serialised structure |
| `PackedLayouts.ElementRoundTrip` | simulator-rust/src/lib.rs:1278-1334 | Setting an array element succeeds exactly for declared indices, reads back, and leaves every other element alone |
| `PackedLayouts.ElementsTile` | simulator-rust/src/lib.rs:1278-1334 | Every bit of an array belongs to exactly one element |
| `PackedLayouts.UnionRoundTrip` | simulator-rust/src/lib.rs:1372-1396 | A union member reads back as stored, and reading another member reinterprets its bits |
| `VerilogOperators.ArithmeticExpression` | verilator-formal/src/convert.rs:835-862 | The network of each arithmetic operator computes the runtime operation on operands resized the same way |
| `VerilogOperators.SignedDivisionIsRuntime` | simulator-rust/simulator-rust-runtime/src/lib.rs:261-275 | The runtime's sign and magnitude division is truncating division modulo two to the width |
| `VerilogOperators.BitwiseExpression` | verilator-formal/src/convert.rs:815-834 | The network computes the runtime bitwise operation at the declared width |
| `VerilogOperators.ComparisonExpression` | verilator-formal/src/convert.rs:863-906 | Flipping sign bits and comparing unsigned is the runtime comparison, mixed widths included |
| `VerilogOperators.UnaryExpression` | verilator-formal/src/convert.rs:773-801 | Every unary network computes the runtime operation |
| `VerilogOperators.MuxValueWithoutOr` | verilator-formal/src/convert.rs:1060-1074 | Three And gates select between two values |
| `VerilogSelection.ShiftExpression` | verilator-formal/src/convert.rs:928-972 | The network shifts by the whole amount and saturates, except that it passes vectors of one bit unshifted |
| `VerilogSelection.RuntimeShifts` | simulator-rust/simulator-rust-runtime/src/lib.rs:285-308 | The runtime shift is the mathematical saturating shift of the resized value |
| `VerilogSelection.ShiftsAgreeExactly` | verilator-formal/src/convert.rs:937-944 | The backends agree on a shift for all operands exactly unless it is a logical shift to one bit with nonempty operands |
| `VerilogSelection.OneBitShift` | verilator-formal/src/convert.rs:937-944 | Shifting a set bit by one gives zero in the simulator and one in the network |
| `VerilogSelection.SelectDynamic` | verilator-formal/src/convert.rs:974-1015 | A dynamic selection gives the bits from the offset upwards, low past the end, for any offset width |
| `VerilogSelection.ChooseCandidate` | verilator-formal/src/convert.rs:1017-1035 | The chain of multiplexers gives the last candidate that the index equals modulo the width of the index |
| `VerilogSelection.OffsetsFoundExactly` | verilator-formal/src/convert.rs:612-624 | Dynamic part writes find every offset exactly when the candidates fit the offset width |
| `VerilogSelection.IndicesFoundExactly` | verilator-formal/src/convert.rs:640-651 | Array indices find their own element exactly for descending ranges and for ascending ones that the index width can tell apart |
| `VerilogExpressions.ConvertExpression` | verilator-formal/src/convert.rs:688-771 | For sound expressions the gates compute what the simulator evaluates, in every settled assignment and every store the environment denotes |
| `VerilogTargets.WriteIsWritten` | simulator-rust/src/lib.rs:842-886 | Rebuilding the root level by level, as the symbolic backend does, is the simulator's flat write at the accumulated offset, for parts that stay inside what they are taken from and for those that leave the variable, which both drop |
| `VerilogTargets.StrayWrite` | simulator-rust/src/lib.rs:842-886 | A part that leaves its array element is dropped symbolically, and the backends agree exactly when it leaves the variable too or the neighbouring bits already have the value |
| `VerilogTargets.StrayWriteExample` | simulator-rust/src/lib.rs:842-886 | A concrete two-element array on which the backends disagree |
| `VerilogConvert.AssignTarget` | verilator-formal/src/convert.rs:577-653 | The new root word denotes the nested write, for every target, offset and index |
| `VerilogConvert.ReadTarget` | verilator-formal/src/convert.rs:655-686 | The word denotes the bits the target names |
| `VerilogConvert.MergeEnvironments` | verilator-formal/src/convert.rs:533-575 | Each merged variable denotes its value after the branch that the condition selects |
| `VerilogConvert.Converter.ExecuteStatement` | verilator-formal/src/convert.rs:476-531 | Conversion succeeds exactly for accepted statements, and while parts of array elements stay inside them, symbolic execution is concrete execution: whatever simulator state the maps denote before a statement, with zero for every variable they lack, they denote the state after it along the branches taken |
| `VerilogConvert.SequenceRefines` | verilator-formal/src/convert.rs:465-474 | Refinement composes along statement lists |
| `VerilogConvert.IfRefines` | verilator-formal/src/convert.rs:502-529 | Merging two refined branches refines the conditional |
| `VerilogSimulator.ExecuteKeepsShape` | simulator-rust/src/lib.rs:762-840 | No statement changes the width of a variable |
| `VerilogAnalysis.StatementInfo.AnalyzeStatement` | verilator-parser/src/ast/sequential.rs:106-172 | The walk collects definite assignments, live-in reads and written variables |
| `VerilogAnalysis.MoreAssigned` | verilator-parser/src/ast/sequential.rs:106-172 | Starting with more assigned variables leaves more assigned and less live |
| `VerilogFootprints.LocatedInRegions` | verilator-parser/src/ast/sequential.rs:206-270 | Under every dynamic index, and while parts of array elements stay inside them, a write goes to one of the regions of its target |
| `VerilogFootprints.Footprint` | verilator-parser/src/ast/sequential.rs:176-204 | While parts of array elements stay inside them, a statement changes no bit outside its footprint |
| `VerilogFootprints.TouchedHasFootprint` | verilator-parser/src/parser.rs:399-464 | A variable that a parsed statement touches has a bit in the statement's footprint: no constant part of a parsed target is out of range |
| `VerilogInterference.ValueAgrees` | verilator-parser/src/ast/collect.rs:94-130 | Expressions depend on nothing but the variables collected as reads |
| `VerilogInterference.NonInterference` | verilator-parser/src/ast/sequential.rs:106-172 | From states that agree on what is live, neither run panics alone, definitely assigned variables end equal, and agreement of any other bit, deferred or not, is kept |
| `VerilogSequential.Analyze` | verilator-parser/src/ast/sequential.rs:17-104 | The analysis accepts exactly designs without races, mixed kinds, cross-process reads or stray nonblocking writes, and returns their registers |
| `VerilogSequential.AcceptedIndependent` | verilator-parser/src/ast/sequential.rs:17-104 | Two accepted processes write disjoint bits and neither reads what the other writes at once |
| `VerilogRaces.AnyOrderIsolates` | verilator-parser/src/ast/sequential.rs:17-104 | In any order of processes without conflict, every bit ends as the process that writes it leaves it when run alone from the state before the edge |
| `VerilogRaces.LastWins` | verilator-parser/src/ast/sequential.rs:17-104 | A bit that the last process writes ends as that process leaves it when run alone; other bits end as the others leave them |
| `VerilogRaces.OrderDoesNotMatter` | verilator-parser/src/ast/sequential.rs:17-104 | Any two orders of processes without conflict have the same outcome, panics included |
| `VerilogRaces.OrdersAgreeExactly` | verilator-parser/src/ast/sequential.rs:17-104 | Processes that read none of each other's immediate writes have one outcome in all orders exactly when some process fails alone or no two write different values to one bit |
| `VerilogRaces.AcceptedRaceFree` | verilator-parser/src/ast/sequential.rs:17-104 | An accepted design has one outcome in every process order, from every state in which parts of array elements stay inside them |
| `VerilogRaces.InsideIsRaceFree` | verilator-parser/src/ast/sequential.rs:17-104 | If no offset of an accepted design is wide enough to leave its array element, the design has one outcome in every order from every state |
| `VerilogRaces.AcceptedRacesExactly` | verilator-parser/src/ast/sequential.rs:17-104 | An accepted design that the parser can build has different outcomes in different orders exactly when every process runs alone and two of them write different values to one bit |
| `VerilogRaces.ConflictIsStray` | verilator-parser/src/ast/sequential.rs:206-270 | Such a conflict needs a part that leaves its array element |
| `VerilogRaces.StrayRace` | verilator-parser/src/ast/sequential.rs:206-270 | Two accepted processes, as the parser builds them, on neighbouring array elements whose outcome depends on their order |
| `VerilogSequential.AcceptedLiveIn` | verilator-parser/src/ast/sequential.rs:44-85 | No process of an accepted design reads a temporary before assigning it |
| `VerilogSequential.TemporariesNeedNoRegister` | verilator-parser/src/ast/sequential.rs:40-85 | Stores that differ only on temporaries before an edge differ at most on temporaries after it |
| `VerilogScheduling.OrderCombinational` | simulator-rust/src/lib.rs:1446-1479 | The scheduler appends ready statements greedily and asks for iteration exactly when some never become ready |
| `VerilogScheduling.OnePassSettles` | simulator-rust/src/lib.rs:1446-1479 | Without a loop the order is a permutation in which every read is undriven or already written, and with single writers a second pass changes nothing |
| `VerilogScheduling.OrdersAgree` | verilator-formal/src/convert.rs:438-463 | The conversion and the simulator choose the same combinational order |
| `VerilogModel.ExecuteCombinational` | verilator-formal/src/convert.rs:438-463 | Running statements as their reads become available refines running the scheduled order |
| `VerilogModel.CaptureSampled` | verilator-formal/src/convert.rs:342-348 | Sampled words denote the values captured before the edge |
| `VerilogCycle.ReadsAreClosed` | verilator-formal/src/convert.rs:271-284 | Following the reads of sampled variables once more finds nothing new |
| `VerilogModel.ConvertDesign` | verilator-formal/src/convert.rs:251-377 | Conversion succeeds exactly for designs that meet its demands; then every variable is driven and gates come last, and for sound designs each cycle of the machine in which parts of array elements stay inside them is the simulator's cycle, in the conversion's order, started from inputs and registers with everything else zero |
| `VerilogModel.RunClears` | verilator-formal/src/convert.rs:251-377 | Over whole runs of any sound design, while parts of array elements stay inside them, registers and exposed variables hold the values of the simulator that forgets everything but registers between cycles |
| `VerilogCycle.ClearingIsInvisible` | simulator-rust/src/lib.rs:468-494 | Where nothing is read that some path leaves unassigned, forgetting changes neither whether a cycle succeeds nor any register nor any variable assigned on every path |
| `VerilogCycle.KeptExactly` | verilator-formal/src/convert.rs:533-575 | In a cycle the two backends give a variable the same value exactly when the path taken assigns it or the value it would keep is zero |
| `VerilogCycle.AssignedIsNotSkipped` | verilator-parser/src/ast/sequential.rs:106-172 | A variable assigned on every path is assigned on the path taken |
| `VerilogCycle.ShownAlikeExactly` | verilator-formal/src/convert.rs:533-575 | The two backends agree on a variable for all values and inputs exactly when none of them takes a path that skips it |
| `VerilogModel.ShownExactly` | verilator-formal/src/convert.rs:533-575 | In a cycle in which parts of array elements stay inside them, the machine's word for an exposed variable holds the simulator's value exactly when the path taken assigns it or the value it would keep is zero |
| `VerilogModel.RunShows` | verilator-formal/src/convert.rs:533-575 | ... in every cycle of every such run |
| `VerilogExample.LatchDiffers` | verilator-formal/src/convert.rs:533-575 | An output set on one path only: in the second cycle the generated simulator shows one and the machine zero |
| `VerilogExample.CounterConverts` | verilator-formal/src/convert.rs:251-377 | A counter with an enable input meets every condition |
| `VerilogModel.SameSchedule` | simulator-rust/src/lib.rs:1446-1479 | If the conversion schedules a design whose combinational logic drives no input or register, the simulator finds no loop and uses the same order |
| `VerilogModel.RunRefines` | simulator-rust/src/lib.rs:468-494 | Over whole runs with the same inputs, while parts of array elements stay inside them, registers hold in every cycle the values of the simulator run in the conversion's order, and known variables what its evaluation sees |
| `VerilogAssembly.AssembleModel` | verilator-formal/src/convert.rs:373-416 | Assembly succeeds exactly for designs that convert, have a value to show for every output and property, and have an input or register bit or no gate in the converted machine; the result passes verification |
| `VerilogAssembly.ObservationDenotes` | verilator-formal/src/convert.rs:1095-1143 | Outputs are the bits of the output variables in order; assertions show violations, assumptions and covers the value of their wire |
| `VerilogAssembly.ClearedSimulationHasRun` | verilator-formal/src/convert.rs:251-416 | Every simulation in range that starts its history registers at zero and forgets everything but registers has a run of the assembled machine with the same inputs and the same outputs and properties in every cycle |
| `VerilogAssembly.SimulationHasRun` | verilator-formal/src/convert.rs:251-416 | For a convertible design whose outputs and properties are assigned on every path, every simulation in range and in the conversion's order that starts its history registers at zero has a run of the assembled machine with the same inputs, outputs and properties in every cycle |
| `VerilogAssembly.RunIsSimulation` | verilator-formal/src/convert.rs:251-416 | A run of the assembled machine shows in every cycle what the simulation with its inputs shows, as long as that stays in range |
| `VerilogAssembly.AssembleWithReset` | verilator-formal/src/convert.rs:1210-1254 | Applying a reset succeeds exactly for designs that convert and have a value to show for every output and property, and inputs of one bit; the result passes verification |
| `VerilogAssembly.ResetSimulationHasRun` | verilator-formal/src/convert.rs:1210-1254 | Under the same conditions, and if the reset cycle leaves no history register unknown, every simulation that begins with a reset cycle has a run of the machine with reset applied that shows what the simulation shows after reset |
| `VerilogGenerated.InsideTicks` | simulator-rust/src/lib.rs:842-886 | A design none of whose offsets is wide enough to leave an array element stays in range in every cycle, from every state |
| `VerilogGenerated.ScheduledAlike` | simulator-rust/src/lib.rs:1446-1479 | If the conversion schedules a design whose combinational logic drives no input or register, the simulator runs it in the same order |
| `VerilogGenerated.GeneratedIsSimulation` | simulator-rust/src/lib.rs:468-494 | Every run of the generated simulator, in its own order, of such a design is a simulation in range in the conversion's order |
| `VerilogGenerated.GeneratedRunShows` | verilator-formal/src/convert.rs:251-377 | For convertible designs of that kind registers hold what the generated simulator stores in every cycle, and an exposed variable shows what it shows exactly when the path taken assigns it or it keeps a zero |
| `VerilogGenerated.GeneratedHasRun` | verilator-formal/src/convert.rs:251-416 | With conditions on the design alone: every run of the generated simulator has a run of the assembled machine with the same inputs, outputs and properties in every cycle |
| `VerilogGenerated.ForgetfulHasRun` | verilator-formal/src/convert.rs:251-416 | The same for every sound design and runs that forget everything but registers |
| `VerilogGenerated.GeneratedResetHasRun` | verilator-formal/src/convert.rs:1210-1254 | Every run of the generated simulator that begins with a reset cycle has a run of the machine with reset applied that shows what follows, if the reset cycle leaves no history register unknown |
| `CircuitLiterals.ParseConstant` | circt-formal/src/convert.rs:671-709 | The digit-by-digit carry loop and negation give the signed decimal or hexadecimal number modulo two to the width, for every string and width |
| `CircuitLiterals.AccumulateDigit` | circt-formal/src/convert.rs:690-700 | One pass multiplies by the radix and adds the digit modulo two to the width |
| `CircuitLiterals.NegateBits` | circt-formal/src/convert.rs:701-708 | Inverting and adding one negates modulo two to the width |
| `CircuitGraph.Visit` | circt-formal/src/graph.rs:865-885 | The search terminates; success lists the node after everything it needs, failure exhibits a cycle or an unresolved node |
| `CircuitGraph.CheckCycles` | circt-formal/src/graph.rs:769-779 | All searches succeed exactly when no combinational cycle and no unresolved node exist, and then give a topological order |
| `CircuitGraph.TopologicalHasNoCycle` | circt-formal/src/graph.rs:865-885 | A listing of all nodes after their needs rules out cycles |
| `CircuitMeaning.MeaningIsSolution` | circt-formal/src/convert.rs:438-645 | In an acyclic graph the word-level meaning satisfies every node's equation |
| `CircuitMeaning.SolutionIsMeaning` | circt-formal/src/convert.rs:438-645 | ... and nothing else satisfies them all |
| `CircuitMeaning.OrderIsIrrelevant` | circt-formal/src/graph.rs:865-885 | The meaning does not depend on the order in which nodes are visited |
| `CircuitLowering.LowerOperation` | circt-formal/src/convert.rs:452-638 | Each operation's network computes its word-level meaning; division by zero and indices out of range give exactly the undefined word |
| `CircuitLowering.LowerGet` | circt-formal/src/convert.rs:590-627 | The comparison chain gives the element the index names |
| `CircuitLowering.LowerInject` | circt-formal/src/convert.rs:590-627 | The comparison chain replaces exactly the element the index names |
| `CircuitLowering.IndexWidthFits` | circt-formal/src/convert.rs:212-220 | Every index below the size fits the index width, and no other index exists exactly for powers of two above one |
| `CircuitLowering.Lowering.Lower` | circt-formal/src/convert.rs:438-645 | Memoised lowering terminates and its word denotes the node's meaning whatever inputs, registers and undefined words hold |
| `CircuitLowering.Lowering.RegisterNext` | circt-formal/src/convert.rs:286-305 | A register's next word is its data, or its reset value while reset is high |
| `CircuitLowering.LowersExactly` | circt-formal/src/convert.rs:438-645 | A node lowers exactly when it is no clock wire, its operation has a network, its constant parses, and everything it reads lowers |
| `CircuitModel.ConvertCircuit` | circt-formal/src/convert.rs:175-436 | Conversion succeeds exactly for circuits without cycle, unresolved node, clock used as data or unparsable constant; the machine passes verification, its runs are the runs of the circuit and its inputs are input variables |
| `CircuitModel.AssembledRepresents` | circt-formal/src/convert.rs:175-436 | Machine runs and circuit runs correspond in both directions, with the same outputs and properties in every cycle |
| `CircuitModel.MachineRunsAreCircuitRuns` | circt-formal/src/convert.rs:175-436 | Every run of the machine is a run of the circuit: words take their meaning, registers start at their presets and step |
| `CircuitReset.ConvertWithReset` | circt-formal/src/convert.rs:715-811 | Conversion with a reset succeeds exactly for circuits that convert and inputs of one bit other than the clock; the result passes verification and is the converted machine with the reset applied |
| `CircuitReset.CircuitRunAfterReset` | circt-formal/src/convert.rs:715-811 | If the reset cycle leaves no preset register unknown, every circuit run that begins with a reset cycle has a run of the machine that shows what follows |
| `CircuitReset.RunFollowsReset` | circt-formal/src/convert.rs:715-811 | If it leaves no register unknown, every run of the machine shows what follows the reset cycle of some circuit run |
| `CircuitTypes.LexPrinted` | circt-parser/src/lexer/token.rs:15-68 | Longest-match lexing of a printed type gives its tokens, whatever non-joining text follows |
| `CircuitTypes.ParsePrinted` | circt-parser/src/parser.rs:303-388 | Parsing the tokens of a printed type gives the type and leaves what follows |
| `CircuitTypes.TypeRoundTrip` | circt-parser/src/writer.rs:346-397 | Printing, lexing and parsing any valid hardware type gives the type back |
| `CircuitTypes.TypeParsesExactly` | circt-parser/src/writer.rs:346-397 | A printed type parses back exactly when no array of size zero anywhere inside it has array elements; otherwise its text is refused |
| `CircuitTypes.TypeParser.TypeOf` | circt-parser/src/parser.rs:303-388 | The recursive-descent parser computes the parsing function and stops after the type |

## Left out

- Labels of the state machine other than those an AIGER file stores, source locations and diagnostics: they carry no behaviour.
- Names that are not UTF-8, whose bytes the reader replaces: names are bytes.
- NormalizeWriteRead: writes no names; what becomes of names in a file is `FileRoundTrip`.
- ASCII AIGER: the same content without delta coding; its decimal numbers are covered by the header and latch lines.
- The 32-bit packing of literals and machine-word limits other than those the code checks: numbers are unbounded naturals.
- The packed two-bits-per-entry store behind the simulator: values are a list of optional booleans.
- `remove_*`, `set_unit`, `invert_output`, buffers and the getters of the state machine: single updates or queries.
- The remapping closure of the reordering: it is the returned mapping.
- The contents of a machine after normalisation refuses it.
- The preset fallback after an unknown reset result: a heuristic, not an inference; `NoFallback` marks where it is not used.
- Rewriting of signal lists of the named models after tying an input: the same substitution as for the machine's own lists.
- Rust source text of the generator: statements are interpreted directly, and a width that would not compile is no result.
- Nested references of sampled expressions: expressions are given with the references replaced.
- Iteration of combinational loops to a fixed point in the simulator: only schedulable logic is compared.
- Initial values of the simulator: runs start from equal registers.
- Selection of clock and reset domains, JSON parsing, and enumerations.
- The CIRCT parser and printer other than for types, quoted field names, comments, hierarchy flattening, aggregate constants and clock tracing: node graphs are given flattened, with the set of clock wires.
- SimulationSound: one cadence of set, eval and step; `OperationsSound` covers every other sequence.
- LocatedInRegions: holds where parts of array elements stay inside them, because elsewhere it is false (`VerilogRaces.StrayRace`).
- Footprint: holds where parts of array elements stay inside them, for the same reason.
- AcceptedRaceFree: holds where parts of array elements stay inside them, for the same reason; `AcceptedRacesExactly` covers the rest.
- AssembleModel: which gates a design without any input or register bit creates is not stated in terms of the design.
- ResetSimulationHasRun: asks that the reset cycle leaves no history register unknown, because the preset fallback is a heuristic.
- CircuitRunAfterReset: asks the same of preset registers, for the same reason.
- The operation `reset` of the simulator, which forgets everything: a sequence of operations is followed from its last such call.
