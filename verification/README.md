# Weftik: compilers, register machine and ladder semantics

A Dafny model of the language core of the Weftik controller, and proofs about it. The pieces fit together:

- `HalValues`, `Machine`, `MachineArith`, `FunctionBlocks`, `Executor`: the value domain, the register machine with its function
  blocks as a step function, and the executor with its debugger as the objects that change in place. Every
  compiler below targets this machine. `MachineArith` says what single instructions compute in plain arithmetic.
- `StAst` to `StSafety`: the Structured Text code generator. `StLayout` says which code a program stands for,
  `StCodegen` is the generator with its scratch pool, open jumps and loop-exit stack, proved to emit that
  layout (`StPatch` holds the laws of backpatching). `StSemantics` is a big-step meaning of the source, and
  `StCorrectness` and `StSimulation` prove that compiled code follows it. `StSafety` covers every program that compiles.
- `StTypes`, `StLogic`, `StBlocks`, `StCalls`: what the type check accepts, Boolean values and conditions, calls of function
  blocks with what their outputs say over any scans, and calls of functions.
- `PlainMeanings`: what the source meanings of ST and IL say, in the numbers and truth values of mathematics.
- `StGrammar`, `StParser`, `StPrint`, `StRoundTrip`, `StProgramText`: the parser, its termination and progress, and
  printing as its inverse. `StPrecedence` and `StWording` fix what is read from tokens written out.
- `IlLang` to `IlLockstep`: the Instruction List compiler and its lockstep with an interpreter of the language.
  `IlOperands` says when the statements outside that lockstep are right, and which programs show that they are not.
- `IlText`, `IlWords`, `LadderIl`, `LadderWords`, `TextRoundTrip`: IL text and its words, ladder printed as such text and
  read again.
- `LadderGraph`, `LadderPass`, `LadderNetwork`, `LadderParallel`, `LadderCycle`, `LadderLatching`: contact networks, the Kahn pass,
  power flow, rungs, coils and scan cycles.
- `LadderAgreement`: the ladder evaluator and the compiled ladder program agree over any number of scans.
  `LadderExceptions` says exactly where they part.
- `Motion`, `MotionRun`, `MotionLoop`, `MotionAxes`, `MotionTriangle`: the trapezoidal and the triangular profile run on
  the machine, and where each axis ends.
- `Wire`, `WireBytes`, `Utf8`, `Snapshot`, `Stream`: the client's value codec, its bytes written out, and the in-process
  stream channel.

Integers wrap around, as in a release build. REAL and LREAL are real numbers. Panics are outcomes of a step.

Where code and documentation disagree the model follows the code:

- A return lands one past the address that a call pushed, because the pointer moves on once more (`CallSkipsNext`).
- FOR evaluates its limit before and its step after every iteration, and does not publish its variable.
- CTD has no load input that could give it a count to go down from.
- `set_left_rail` does not mark the stored order as stale (`StalePowerExactly` says when that does no harm).
- OR, ORN, XOR, arithmetic and comparisons of IL do not load their signal, and a comparison that fails skips one
  instruction (`IlOperands`).
- An ST assignment computes in its variable, which the rest of the expression may read (`ClobberedExactly`).
- Conditions with AND, OR and NOT share or swap their jumps, and in WHILE and REPEAT some of those stay at
  instruction 0 (`IfExactly`, `LoopExactly`, `ChainExactly`); a comparison used as a value is negated.
- A BOOL variable as a condition never jumps (`VariableNeverJumps`).
- A field of a counter is read from the timers (`CounterFieldReadsTimer`).
- A call of an ST function keeps the target 0 and starts the program over; the comment on `patch_function_calls` says
  that the function body is found (`CallStartsOver`, `CallingFirstNeverEnds`).
- A triangular move goes backwards: its loop compares the counter with a register that the axis steps overwrite, and
  slows down where the comment says that it speeds up (`TriangleGoesBackwards`).
- SET and RESET coils of a compiled ladder write a register and never their signal (`LatchExactly`).
- A network whose rail is entered only from what the rail reaches in order is never done sorting (`PassEndsExactly`).
- The standalone motion program has no halt.
- The parser does not accept TOF as a type name.

`dafny verify dfyconfig.toml` checks everything.

## Model

| member | source | states |
|---|---|---|
| HalValues.Wrap | crates/weftik-hal-core/src/value.rs:196-222 | integer results stay in the range of their type, and results already in range are not changed |
| HalValues.WrapCongruent | crates/weftik-hal-core/src/value.rs:196-222 | wrapping adds or removes whole ranges of the type |
| HalValues.ArithKeepsDint | crates/weftik-hal-core/src/value.rs:196-222 | DINT arithmetic gives a DINT; it panics exactly for the least DINT divided by -1, or its remainder |
| HalValues.AddZeroCopies | crates/weftik-hal-core/src/value.rs:256-269 | adding zero copies a DINT and subtracting from zero negates it, which is how the ST compiler copies and negates |
| Machine.RunSplit | crates/weftik-hal-ir/src/executor.rs:127-136 | a run of m + n steps is a run of m steps followed by one of n |
| Machine.RunDeterministic | crates/weftik-hal-ir/src/executor.rs:127-136 | a run has at most one final outcome |
| Machine.StepArith | crates/weftik-hal-ir/src/executor.rs:348-358 | an arithmetic instruction writes the operators' result and moves on, or panics |
| Machine.StepCompare | crates/weftik-hal-ir/src/executor.rs:373-384 | a comparison sets the flag to what `Compare` says of both registers, and nothing else; `ComparesIntegers`, `ComparesReals` and `ComparesOthers` say what that is |
| Machine.StepJumpIf | crates/weftik-hal-ir/src/executor.rs:403-412 | a conditional jump is taken exactly when the flag is set |
| Machine.StepStore | crates/weftik-hal-ir/src/executor.rs:428-439 | a store publishes a register under its signal's name |
| Machine.StepRetTop | crates/weftik-hal-ir/src/executor.rs:449-466 | a return with an empty call stack ends the run |
| Machine.CallReturns | crates/weftik-hal-ir/src/executor.rs:441-459 | from a call over any body that leaves the call stack as the call made it, the return goes on two behind the call |
| Machine.CallSkipsNext | crates/weftik-hal-ir/src/executor.rs:102-116 | so does every routine without calls and returns of its own: the instruction behind a call is never executed after its return |
| Machine.CallAndReturn | crates/weftik-hal-ir/src/executor.rs:441-459 | a call of a bare return, wherever it stands, ends two behind the call after two steps with everything else unchanged |
| Machine.RunKeepsSignal | crates/weftik-hal-ir/src/executor.rs:428-439 | over any run a signal keeps its value if no instruction stores to it |
| MachineArith.ComparesIntegers | crates/weftik-hal-core/src/value.rs:289-304 | for two integers of one type the flag is set exactly when the numbers are equal, different, greater, less, not less or not greater, by opcode |
| MachineArith.ComparesReals | crates/weftik-hal-core/src/value.rs:289-304 | the same for two floats of one type |
| MachineArith.ComparesOthers | crates/weftik-hal-core/src/value.rs:289-304 | values of two types, or no numbers, have no order: all four orderings are false, and equality is that of the values |
| MachineArith.Ranges | crates/weftik-hal-core/src/value.rs:34-52 | the numbers that each of the eight integer types holds |
| MachineArith.ComputesIntegers | crates/weftik-hal-core/src/value.rs:196-254 | an arithmetic instruction on DINTs: sums, differences and products wrap, quotient and remainder truncate toward zero, a zero divisor gives zero, and only the least DINT by -1 panics |
| MachineArith.OneDivision | crates/weftik-hal-core/src/value.rs:226-254 | a quotient and remainder that multiply back, the remainder smaller than the divisor and of the dividend's sign, are the only ones |
| MachineArith.ComputesReals | crates/weftik-hal-core/src/value.rs:196-254 | an arithmetic instruction on floats of one type; a zero divisor gives the DINT zero |
| MachineArith.ComputesBooleans | crates/weftik-hal-ir/src/executor.rs:239-242 | AND, OR, XOR and NOT of Booleans |
| MachineArith.IntegersBitByBit | crates/weftik-hal-ir/src/executor.rs:239-241 | AND, OR and XOR of integers of one type, on every bit of their two's complement words |
| MachineArith.NotFlipsBits | crates/weftik-hal-core/src/value.rs:271-287 | NOT of an integer flips every bit of its word and stays in range |
| MachineArith.Negates | crates/weftik-hal-core/src/value.rs:256-269 | a negation wraps; unsigned integers and what is no number give the DINT zero |
| MachineArith.UnpublishedIsFalse | crates/weftik-hal-ir/src/executor.rs:264-283 | a signal that nobody has published loads as FALSE |
| MachineArith.ReturnsValue | crates/weftik-hal-ir/src/executor.rs:449-466 | a return that names a register copies it to register 0 and goes on one behind the address on the stack |
| ExecutorModel.Vm.WriteRegister | crates/weftik-hal-ir/src/vm.rs:155-158 | a write changes one register, or reports the register that does not exist |
| ExecutorModel.Vm.ResetIp | crates/weftik-hal-ir/src/vm.rs:186-188 | only the instruction pointer goes back to 0 |
| ExecutorModel.Vm.Reset | crates/weftik-hal-ir/src/vm.rs:191-199 | registers, flag, pointer, signals and call stack are cleared, function blocks are kept |
| ExecutorModel.Vm.Execute | crates/weftik-hal-ir/src/executor.rs:201-262 | for every opcode the in-place handlers leave the machine in the state that the step function gives, panics included |
| ExecutorModel.Vm.TickTimer | crates/weftik-hal-ir/src/executor.rs:480-578 | the timer's branches compute one tick of the timer whose runs are described below |
| ExecutorModel.Vm.TickCounter | crates/weftik-hal-ir/src/executor.rs:608-690 | the counter's branches compute one tick of the counter whose runs are described below |
| ExecutorModel.Executor.Step | crates/weftik-hal-ir/src/executor.rs:92-119 | one step as a function of the session: bounds check, breakpoint before execution, trace entry when debugging, pointer moved on unless the instruction jumped; `BreaksExactly` says when it breaks |
| ExecutorModel.Executor.Resume | crates/weftik-hal-ir/src/executor.rs:191-197 | one step with debugging off, after which debugging is on |
| ExecutorModel.Executor.RunToHalt | crates/weftik-hal-ir/src/executor.rs:127-136 | steps until the first result other than `Continue`, and counts them, so that one step fewer goes on |
| ExecutorModel.Executor.Perform | crates/weftik-hal-ir/src/executor.rs:92-197 | any sequence of debugger commands, switches and breakpoint edits included, does to the executor what the session functions say |
| ExecutorModel.BreaksExactly | crates/weftik-hal-ir/src/executor.rs:92-119 | inside the program a step breaks if and only if debugging is on and the pointer is at a breakpoint, and then nothing has changed; otherwise it does what the machine does |
| ExecutorModel.ResumeNeverBreaks | crates/weftik-hal-ir/src/executor.rs:191-197 | `resume` never breaks, takes the step over the breakpoint and leaves debugging on |
| ExecutorModel.RunsOn | crates/weftik-hal-ir/src/executor.rs:127-136 | a session runs on for n steps if and only if the plain machine does, past no breakpoint while debugging, and then it is where the plain machine is |
| ExecutorModel.RunEnds | crates/weftik-hal-ir/src/executor.rs:127-136 | a run ends in a break at step n if and only if debugging is on, the plain machine is at a breakpoint inside the program after n - 1 steps, and every step before goes on; it stops if and only if the plain machine then halts |
| ExecutorModel.DebuggerTransparent | crates/weftik-hal-ir/src/executor.rs:92-197 | under any interleaving of step, resume, debug switches and breakpoint edits, the machine is where a plain executor is after as many steps as were executed, and the trace lists exactly, in order, what `step` executed with debugging on |
| FunctionBlocks.TonMeasuresHeldTime | crates/weftik-hal-ir/src/executor.rs:524-538 | TON over any run: elapsed time is the time IN has been held, capped at PT, and Q holds exactly when IN holds and that time has reached PT |
| FunctionBlocks.TofMirrorsTon | crates/weftik-hal-ir/src/executor.rs:539-554 | once IN has been true, TOF is the negation of TON fed the inverted input, with equal elapsed times |
| FunctionBlocks.TofBeforeFirstInput | crates/weftik-hal-ir/src/executor.rs:539-554 | before IN has ever been true TOF stays off with no elapsed time; until then the mirror holds if and only if the inverted input has been held for PT |
| FunctionBlocks.TpPulse | crates/weftik-hal-ir/src/executor.rs:555-576 | TP is on exactly while IN has been held since its rising edge and the time since then is below PT |
| FunctionBlocks.CtuCountsEdges | crates/weftik-hal-ir/src/executor.rs:661-667 | CTU counts rising edges, capped at PV, and Q holds exactly when they reach PV, for every PV below the u32 maximum |
| FunctionBlocks.CtuAtFullRange | crates/weftik-hal-ir/src/executor.rs:661-667 | with PV at the u32 maximum the count is the number of rising edges modulo 2^32 |
| FunctionBlocks.FullRangeCounterWraps | crates/weftik-hal-ir/src/executor.rs:661-667 | with PV at the u32 maximum one more edge on a full counter restarts it at 0; below it holds at PV |
| FunctionBlocks.CtdCountsDown | crates/weftik-hal-ir/src/executor.rs:668-674 | from any start value with quiet inputs, CTD loses one per rising edge of CD down to 0, and Q holds exactly when the edges have used it up |
| FunctionBlocks.CtudCountsUp | crates/weftik-hal-ir/src/executor.rs:675-687 | while CD is quiet CTUD counts rising edges of CU up from its start value, capped at PV, as CTU does |
| FunctionBlocks.CtudCountsDown | crates/weftik-hal-ir/src/executor.rs:675-687 | while CU is quiet CTUD loses one per rising edge of CD down to 0, as CTD does |
| FunctionBlocks.CtudWalks | crates/weftik-hal-ir/src/executor.rs:675-687 | from any start value and whatever both inputs do, CV is the walk in [0, PV] that goes up on rising edges of CU, then down on those of CD; QU says it is at PV and QD that it is at 0 |
| FunctionBlocks.CtudStaysInRange | crates/weftik-hal-ir/src/executor.rs:675-687 | CTUD stays within [0, PV], QU says it is at PV and QD that it is at 0 |
| FunctionBlocks.FlipFlopRemembersLatest | crates/weftik-hal-ir/src/executor.rs:721-779 | SR and RS: Q1 is what the latest cycle with an active input asked for under the dominance, Q2 its negation |
| FunctionBlocks.FlipFlopExclusive | crates/weftik-hal-ir/src/executor.rs:721-779 | Q1 and Q2 are never both true, and both are false before the first active input |
| FunctionBlocks.RTrigPulses | crates/weftik-hal-ir/src/executor.rs:809-842 | R_TRIG pulses once for each rising edge and never on two cycles in a row |
| FunctionBlocks.FTrigMirrorsRTrig | crates/weftik-hal-ir/src/executor.rs:809-842 | F_TRIG is R_TRIG on the complemented clock but for the first cycle |
| StLayout.EnvOfGood | crates/weftik-hal-binding-gen/src/codegen.rs:37-54 | variables get distinct registers below 13, in declaration order |
| StTypes.RegistersDivided | crates/weftik-hal-binding-gen/src/codegen.rs:14-17 | of the sixteen registers 0 to 12 hold variables and 13 to 15 are scratch |
| StTypes.LiteralsAssign | crates/weftik-hal-binding-gen/src/codegen.rs:762-803 | integer literals go to the fourteen integer types, real literals to REAL and LREAL, TRUE to BOOL |
| StTypes.VariablesAssign | crates/weftik-hal-binding-gen/src/codegen.rs:762-803 | `x := y` is accepted exactly for equal types, INT with an integer type, and REAL with LREAL; otherwise the error names both types |
| StTypes.OnlyIntBridges | crates/weftik-hal-binding-gen/src/codegen.rs:846-856 | compatibility is not transitive, and fails to be exactly through INT between two different other integer types |
| StTypes.AcceptedExactly | crates/weftik-hal-binding-gen/src/codegen.rs:669-760 | arithmetic, XOR, signs and NOT over variables and literals are accepted if and only if every operator joins compatible first operands and every sign and NOT stands before a type it allows |
| StTypes.TypeIsFirst | crates/weftik-hal-binding-gen/src/codegen.rs:669-760 | an accepted expression has the type of its first operand |
| StTypes.LogicTypes | crates/weftik-hal-binding-gen/src/codegen.rs:696-711 | a comparison is BOOL whatever it compares; AND, OR and conditions take only BOOL |
| StTypes.LoopVariables | crates/weftik-hal-binding-gen/src/codegen.rs:353-366 | only INT and DINT variables count in FOR; CASE takes any declared variable |
| StTypes.CopyKeepsType | crates/weftik-hal-binding-gen/src/codegen.rs:109-130 | which number held at run time a copy keeps, by the declared type |
| StPatch.CondBecomes | crates/weftik-hal-binding-gen/src/codegen.rs:609-667 | patching the collected jumps of a condition, AND, OR and NOT included, gives the condition laid out for those targets |
| StPatch.StmtBecomes | crates/weftik-hal-binding-gen/src/codegen.rs:280-607 | patching the EXIT jumps of a statement gives the statement laid out for that exit |
| StPatch.ArmsDone | crates/weftik-hal-binding-gen/src/codegen.rs:416-457 | patching the end jumps of all CASE arms gives the arms laid out for that end |
| StCodegen.Codegen.AllocScratch | crates/weftik-hal-binding-gen/src/codegen.rs:74-87 | takes the lowest free scratch register, or reports that none is free |
| StCodegen.Codegen.FreeScratch | crates/weftik-hal-binding-gen/src/codegen.rs:89-98 | gives the register back to the pool |
| StCodegen.Codegen.VarReg | crates/weftik-hal-binding-gen/src/codegen.rs:101-107 | the variable's register, or an undefined-variable error |
| StCodegen.Codegen.PatchJump | crates/weftik-hal-binding-gen/src/codegen.rs:164-168 | replaces one instruction's target and nothing else |
| StCodegen.Codegen.CompileExpr | crates/weftik-hal-binding-gen/src/codegen.rs:170-256 | appends exactly the expression's code for its destination and restores the scratch pool, or reports the first error; `ExprRuns` and `LogicalRuns` say what that code computes |
| StCodegen.Codegen.CompileComparison | crates/weftik-hal-binding-gen/src/codegen.rs:623-632 | right operand, left operand, comparison, with the pool restored |
| StCodegen.Codegen.CompileBoolCond | crates/weftik-hal-binding-gen/src/codegen.rs:616-667 | appends the condition's code with its jumps open and returns exactly their addresses |
| StCodegen.Codegen.CompileAssign | crates/weftik-hal-binding-gen/src/codegen.rs:282-289 | type check, code and store of an assignment |
| StCodegen.Codegen.CompileIf | crates/weftik-hal-binding-gen/src/codegen.rs:305-334 | the backpatched IF equals its layout |
| StCodegen.Codegen.CompileWhile | crates/weftik-hal-binding-gen/src/codegen.rs:335-352 | the backpatched WHILE equals its layout, EXITs included |
| StCodegen.Codegen.CompileFor | crates/weftik-hal-binding-gen/src/codegen.rs:353-390 | the backpatched FOR equals its layout, EXITs included |
| StCodegen.Codegen.CompileRepeat | crates/weftik-hal-binding-gen/src/codegen.rs:391-409 | the backpatched REPEAT equals its layout, EXITs included |
| StCodegen.Codegen.CompileCase | crates/weftik-hal-binding-gen/src/codegen.rs:416-457 | the backpatched CASE equals its layout |
| StCodegen.Codegen.CompileCall | crates/weftik-hal-binding-gen/src/codegen.rs:458-604 | the code of a function-block call or of a generic call |
| StCodegen.Codegen.CompileStmt | crates/weftik-hal-binding-gen/src/codegen.rs:280-607 | appends the statement's layout and records its EXITs on the innermost loop, or reports the first error |
| StCodegen.Codegen.PopLoop | crates/weftik-hal-binding-gen/src/codegen.rs:65-72 | patches the loop's EXIT jumps to the current address |
| StCodegen.Codegen.CompileProgram | crates/weftik-hal-binding-gen/src/codegen.rs:881-934 | body, halt, then each function with a return |
| StCodegen.CompileAst | crates/weftik-hal-binding-gen/src/codegen.rs:881-934 | the compiler's output is the program's layout, or the first error; more than 13 variables are refused |
| StSemantics.NoClobberIsEval | crates/weftik-hal-binding-gen/src/codegen.rs:190-219 | where the destination is not read after being overwritten, evaluating into it is evaluating |
| StSemantics.ClobberedExactly | crates/weftik-hal-binding-gen/src/codegen.rs:190-219 | x := l op r computed in place, r being read after x has the value of l: for + and - the result is right if and only if r has the same value then as before, for * if and only if l takes the difference to a multiple of the type's range |
| StSemantics.OwnOperandExactly | crates/weftik-hal-binding-gen/src/codegen.rs:190-219 | x := l + x and x := l - x are right if and only if l already has the value of x; x := l * x if and only if l takes the difference to a multiple of the range |
| StSemantics.OwnDivisorExactly | crates/weftik-hal-binding-gen/src/codegen.rs:190-219 | x := l / x is right if and only if l is zero, or x is not, has the sign of l, and goes into it exactly once |
| StSemantics.OwnModulusExactly | crates/weftik-hal-binding-gen/src/codegen.rs:190-219 | x := l MOD x is right if and only if x is zero or divides l without overflow |
| StSemantics.ClobberedRead | crates/weftik-hal-binding-gen/src/codegen.rs:190-219 | the shortest case: x := 1 + x computed in place gives 2 for x = 5 |
| StSemantics.ComparisonNeverStrays | crates/weftik-hal-binding-gen/src/codegen.rs:623-632 | the code of a single comparison always does what the comparison says |
| StSemantics.WhatIfReads | crates/weftik-hal-binding-gen/src/codegen.rs:305-334 | what IF reads: AND as OR, OR behind a comparison as implication, NOT as nothing |
| StSemantics.IfExactly | crates/weftik-hal-binding-gen/src/codegen.rs:305-334 | in IF, whatever the operands do alone: AND is right if and only if (some operand takes the THEN branch) equals (both hold); OR if and only if (the right one takes it whenever the code comes to it) equals (one holds); NOT if and only if its operand is wrong |
| StSemantics.LoopExactly | crates/weftik-hal-binding-gen/src/codegen.rs:335-352 | in WHILE and REPEAT the same, with the way to instruction 0 wrong besides |
| StSemantics.NestedConnectives | crates/weftik-hal-binding-gen/src/codegen.rs:633-654 | operands that do what they say in a loop, where no second target is patched, such as single comparisons: joined, the whole does so in IF for AND if and only if both have the same value and for OR if and only if the right one holds; in WHILE and REPEAT for AND the same and for OR if and only if both hold; a negation never does |
| StSemantics.ConnectivesExactly | crates/weftik-hal-binding-gen/src/codegen.rs:633-654 | the same conditions for two comparisons |
| StSemantics.ChainWay | crates/weftik-hal-binding-gen/src/codegen.rs:633-654 | a chain of ORs of any length goes the way of its last comparison if all before it hold and to the second target otherwise; a chain of ANDs jumps as soon as one holds |
| StSemantics.ChainExactly | crates/weftik-hal-binding-gen/src/codegen.rs:633-654 | a chain of two or more comparisons is right: AND, in IF and in loops, if and only if all hold or none does; OR in IF if and only if one holds and not precisely all but the last; OR in a loop if and only if all hold |
| StCorrectness.ExprRuns | crates/weftik-hal-binding-gen/src/codegen.rs:170-219 | DINT expressions that fit the scratch pool: after exactly the code's length the value, as computed into the destination, is there, other variables and scratch registers in use are kept; or the machine panics where evaluation does |
| StCorrectness.ComparisonRuns | crates/weftik-hal-binding-gen/src/codegen.rs:623-632 | a comparison's code jumps to its target exactly when the comparison holds, and keeps every variable |
| StCorrectness.CondRuns | crates/weftik-hal-binding-gen/src/codegen.rs:616-667 | the code of a condition joined by AND, OR and NOT goes to the first target, to the second, or through, as its comparisons lead it under the collected jumps, keeping every variable; it panics where an operand it comes to does |
| StCorrectness.ComparisonValueIsNegated | crates/weftik-hal-binding-gen/src/codegen.rs:257-278 | a comparison computed as a value always leaves its negation |
| StCorrectness.CopyExactly | crates/weftik-hal-binding-gen/src/codegen.rs:181-188 | a copied variable keeps its value if and only if its register holds a number of its declared type, or the DINT zero; a BOOL becomes that zero |
| StCorrectness.CompilesIfFits | crates/weftik-hal-binding-gen/src/codegen.rs:74-87 | a DINT expression compiles if and only if the three scratch registers suffice for its right nesting |
| StCorrectness.CompiledSeqFits | crates/weftik-hal-binding-gen/src/codegen.rs:280-607 | every list of DINT statements that compiles is in the domain of the simulation theorem |
| StSimulation.StmtRuns | crates/weftik-hal-binding-gen/src/codegen.rs:280-457 | every DINT statement that fits the scratch pool, its conditions joined and negated comparisons: when the big-step semantics ends, the machine reaches the statement's end, its loop's exit, or a halt, with variables and signals equal to the source's, unless the source comes to a condition or an assignment that its code gets wrong |
| StSimulation.NoStrayExit | crates/weftik-hal-binding-gen/src/codegen.rs:60-63 | a statement that compiles outside a loop never leaves by EXIT |
| StSimulation.ScanSimulates | crates/weftik-hal-binding-gen/src/codegen.rs:881-934 | the scan of every DINT program that compiles halts with the source's final store and signals, panics exactly in the source's arithmetic trap, and runs on as long as the source does |
| StSimulation.FinishedRun | crates/weftik-hal-binding-gen/src/codegen.rs:881-934 | where no condition and no assignment strays, every halted run of the machine is the image of a finished source run with the same values |
| StSimulation.HaltsExactlyWhenSourceFinishes | crates/weftik-hal-binding-gen/src/codegen.rs:881-934 | where none strays, the machine halts if and only if the source program finishes |
| StSimulation.SimpleProgramsNeverStray | crates/weftik-hal-binding-gen/src/codegen.rs:623-632 | where every condition is a single comparison and no assignment reads what it has overwritten, none ever strays |
| StSimulation.ManyScans | crates/weftik-hal-binding-gen/src/codegen.rs:881-934 | any number of scans from `reset_ip` follow that many executions of the source program |
| StSimulation.FreshMatches | crates/weftik-hal-ir/src/vm.rs:127-142 | a new machine represents the store of zeros |
| StSafety.ProgramValid | crates/weftik-hal-binding-gen/src/codegen.rs:881-934 | in everything that compiles each register exists and each jump or call target is an instruction of the program |
| StSafety.RunStaysInside | crates/weftik-hal-ir/src/executor.rs:92-119 | on a call-free program the pointer and register checks never fail on any run: arithmetic is the only panic left |
| StLogic.LogicalRuns | crates/weftik-hal-binding-gen/src/codegen.rs:170-256 | TRUE, FALSE, timer, flip-flop and edge outputs and the assigned variable itself under AND, OR, XOR and NOT: exactly the code's length later the destination holds the truth value in the sense of and, or, differs and not, and every other variable, signal and block is as before |
| StLogic.LogicalAssignment | crates/weftik-hal-binding-gen/src/codegen.rs:282-290 | such a value assigned to a BOOL variable is in its register and in its signal, and nothing else has changed |
| StLogic.LogicalCondition | crates/weftik-hal-binding-gen/src/codegen.rs:655-667 | such a value as a condition jumps if and only if it is true |
| StLogic.ValuesAsConditions | crates/weftik-hal-binding-gen/src/codegen.rs:616-667 | which conditions are single values: literals, outputs, variables and XOR |
| StLogic.VariableNeverJumps | crates/weftik-hal-binding-gen/src/codegen.rs:655-667 | a BOOL variable as a condition never jumps, whatever it holds, so IF takes ELSE and a WHILE body never runs: its copy is the number zero |
| StBlocks.TimerCallRuns | crates/weftik-hal-binding-gen/src/codegen.rs:458-491 | `t(IN, PT)` ticks the timer of the declared type once, with IN's truth, PT on 32 bits and the cycle time; other timers, blocks, variables and signals are as before |
| StBlocks.TimerFollowsItsScans | crates/weftik-hal-ir/src/executor.rs:480-578 | over any scans with such calls the timer is where the block's own run is, so `t.Q` of a TON holds exactly when IN has been held for PT, and of a TP exactly while it has been held for less |
| StBlocks.CounterCallRuns | crates/weftik-hal-binding-gen/src/codegen.rs:491-537 | `c(CU, PV, CD)` ticks the counter of the declared type once, CD being false when it is not given |
| StBlocks.FlipFlopCallRuns | crates/weftik-hal-binding-gen/src/codegen.rs:537-572 | `f(S, R)` ticks the SR or RS flip-flop once with both inputs in order |
| StBlocks.EdgeCallRuns | crates/weftik-hal-binding-gen/src/codegen.rs:573-594 | `e(CLK)` ticks the rising or falling edge detector once |
| StBlocks.CounterFieldReadsTimer | crates/weftik-hal-binding-gen/src/codegen.rs:232-252 | a field of a counter is the output of the timer of the same number, which no call of the counter changes |
| StBlocks.CounterReads | crates/weftik-hal-ir/src/executor.rs:692-719 | reading a counter gives its output and count, and those of a new one for a counter that never ran |
| StCalls.CallStartsOver | crates/weftik-hal-binding-gen/src/codegen.rs:595-604 | a call of a function goes to instruction 0 of the program with the address behind the call on the stack |
| StCalls.CallingFirstNeverEnds | crates/weftik-hal-binding-gen/src/codegen.rs:936-941 | a program that begins with such a call never ends: over any number of steps only the call stack grows, by one each step |
| PlainMeanings.ArithmeticSays | crates/weftik-hal-core/src/value.rs:196-254 | what ST arithmetic means on DINTs, in plain arithmetic |
| PlainMeanings.ComparisonSays | crates/weftik-hal-core/src/value.rs:289-304 | what ST comparisons mean on DINTs, in the relations of numbers |
| PlainMeanings.LiteralSays | crates/weftik-hal-binding-gen/src/codegen.rs:172-180 | a literal is the DINT it wraps to, and a minus is the wrapped difference from zero |
| PlainMeanings.IfSays | crates/weftik-hal-binding-gen/src/codegen.rs:305-334 | IF takes THEN exactly when the comparison of numbers holds |
| PlainMeanings.WhileCountsUp | crates/weftik-hal-binding-gen/src/codegen.rs:335-352 | `WHILE x < n DO x := x + 1` ends with the larger of x and n |
| PlainMeanings.RepeatCountsUp | crates/weftik-hal-binding-gen/src/codegen.rs:391-409 | `REPEAT x := x + 1 UNTIL x >= n` takes its body at least once |
| PlainMeanings.ForCounts | crates/weftik-hal-binding-gen/src/codegen.rs:353-390 | `FOR x := a TO b` takes its body once for every number from a to b in order, if the body ends and leaves x alone |
| PlainMeanings.CaseSays | crates/weftik-hal-binding-gen/src/codegen.rs:416-457 | CASE takes the first arm that lists the value, and ELSE without one |
| PlainMeanings.LeavingLoops | crates/weftik-hal-binding-gen/src/codegen.rs:335-352 | EXIT ends the innermost loop normally, RETURN ends the program, and what stands behind either is skipped |
| StGrammar.ExprAt | crates/weftik-hal-binding-gen/src/parser.rs:715-732 | a parsed expression consumes at least one token; with the measure (tokens left, grammar level) every recursion ends, on every token list |
| StGrammar.StatementsAt | crates/weftik-hal-binding-gen/src/parser.rs:442-448 | statement lists never move back or past the end; with the measure (tokens left, grammar level) every recursion ends, on every token list |
| StGrammar.StatementAt | crates/weftik-hal-binding-gen/src/parser.rs:450-461 | a parsed statement consumes at least one token; with the measure (tokens left, grammar level) every recursion ends, on every token list |
| StGrammar.ArmsAt | crates/weftik-hal-binding-gen/src/parser.rs:583-599 | CASE arms never move back or past the end; with the measure (tokens left, grammar level) every recursion ends, on every token list |
| StGrammar.TypeAt | crates/weftik-hal-binding-gen/src/parser.rs:376-439 | a parsed type consumes at least one token; with the measure (tokens left, grammar level) every recursion ends, on every token list |
| StGrammar.FunctionAt | crates/weftik-hal-binding-gen/src/parser.rs:329-374 | a parsed function consumes at least one token; with the measure (tokens left, grammar level) every recursion ends, on every token list |
| StGrammar.ProgramAt | crates/weftik-hal-binding-gen/src/parser.rs:244-280 | a parsed program consumes at least one token; with the measure (tokens left, grammar level) every recursion ends, on every token list |
| StParser.ParseTokens | crates/weftik-hal-binding-gen/src/parser.rs:217-784 | the parser as it runs, all its loops and mutual recursion, ends on every token list, truncated ones included, and gives the program or the error of the grammar; `EveryRowIsRead` and the lemmas of `StWording` say which program that is for tokens written out |
| StPrecedence.OperatorsAreSpelled | crates/weftik-hal-binding-gen/src/parser.rs:690-708 | the token of every operator, and that no other token is one |
| StPrecedence.TableIsTighter | crates/weftik-hal-binding-gen/src/parser.rs:680-688 | the precedences order the operators as multiplication, sums, comparisons, AND, and last OR and XOR |
| StPrecedence.EveryRowIsRead | crates/weftik-hal-binding-gen/src/parser.rs:715-732 | any row of operands and operators is read whole as the one tree in which every operand goes to the tighter of its neighbours, and to the left one of equals |
| StPrecedence.RowsAreGrouped | crates/weftik-hal-binding-gen/src/parser.rs:715-732 | so it is anywhere in the input before a token that cannot go on an expression |
| StPrecedence.ParenthesesGroup | crates/weftik-hal-binding-gen/src/parser.rs:750-785 | a row in parentheses is one operand, whatever stands around it |
| StPrecedence.GroupingIsUnique | crates/weftik-hal-binding-gen/src/parser.rs:715-732 | no two trees are grouped from one row |
| StPrecedence.ThreeOperands | crates/weftik-hal-binding-gen/src/parser.rs:715-732 | of `p o1 q o2 r` the second operator takes q if and only if it is tighter than the first |
| StPrint.ExprReads | crates/weftik-hal-binding-gen/src/parser.rs:680-784 | a minimally parenthesized expression, read at a level no tighter than it was printed at, is read back whole before any operator behind it |
| StPrint.ExpressionRoundTrip | crates/weftik-hal-binding-gen/src/parser.rs:710-784 | printed anywhere before a token that cannot extend it, every expression is read back as itself and exactly its tokens are consumed |
| StPrint.ChainsGroupLeft | crates/weftik-hal-binding-gen/src/parser.rs:715-732 | operators of one precedence in a row group to the left |
| StWording.SimpleStatements | crates/weftik-hal-binding-gen/src/parser.rs:463-498 | assignments, array assignments, RETURN and EXIT, word by word |
| StWording.BareCallSpelled | crates/weftik-hal-binding-gen/src/parser.rs:463-498 | a call without arguments |
| StWording.CallSpelled | crates/weftik-hal-binding-gen/src/parser.rs:463-498 | a call with two arguments, in order |
| StWording.IfSpelled | crates/weftik-hal-binding-gen/src/parser.rs:500-526 | IF with and without ELSE: the part behind THEN is the THEN part |
| StWording.LoopsSpelled | crates/weftik-hal-binding-gen/src/parser.rs:528-542 | WHILE, and REPEAT at lines 648-663, word by word |
| StWording.ForSpelled | crates/weftik-hal-binding-gen/src/parser.rs:544-570 | FOR: the first expression is the start, the second the limit |
| StWording.ForBySpelled | crates/weftik-hal-binding-gen/src/parser.rs:544-570 | the expression behind BY is the step |
| StWording.CaseSpelled | crates/weftik-hal-binding-gen/src/parser.rs:572-646 | CASE with two arms, one of them with two values, and ELSE |
| StRoundTrip.StmtReads | crates/weftik-hal-binding-gen/src/parser.rs:450-675 | every printed statement is read back as itself, whatever follows |
| StProgramText.FunctionReads | crates/weftik-hal-binding-gen/src/parser.rs:328-374 | a printed function with parameter blocks, local variables and body is read back with exactly its tokens consumed, and is refused when one of its types is TOF |
| StProgramText.ProgramRoundTrip | crates/weftik-hal-binding-gen/src/parser.rs:244-374 | a printed program with its declarations, body and functions is read back whole if and only if no declaration or return type is TOF, a type name the parser does not accept |
| IlCodegen.Codegen.GetVarReg | crates/weftik-il-compiler/src/codegen.rs:42-55 | registers in the order of first use; an eleventh variable panics |
| IlCodegen.Codegen.EmitPlain | crates/weftik-il-compiler/src/codegen.rs:147-316 | a statement's instructions, appended |
| IlCodegen.Codegen.EmitJump | crates/weftik-il-compiler/src/codegen.rs:133-141 | a jump to 0 and its place in the list of references |
| IlCodegen.RepairedBody | crates/weftik-il-compiler/src/codegen.rs:321-335 | patching from the label table gives the code laid out for the labels' addresses |
| IlCodegen.Codegen.Compile | crates/weftik-il-compiler/src/codegen.rs:143-338 | the patched program is its layout; it panics exactly for more than ten variables |
| IlLockstep.LabelAddress | crates/weftik-il-compiler/src/codegen.rs:149-151 | a label's address is that of its last definition |
| IlLockstep.StepMatches | crates/weftik-il-compiler/src/codegen.rs:143-338 | one statement of the interpreter is matched by exactly that statement's machine steps; behind a failed comparison JMPC takes one step instead of two |
| IlLockstep.Lockstep | crates/weftik-il-compiler/src/codegen.rs:143-338 | every run of the interpreter, however long, is matched: pointer at the statement's offset, r14 the accumulator, r15 TRUE, equal signals; undefined labels lead to the halt. OR, ORN, XOR, arithmetic, and comparisons directly before JMPC are included where their variable was loaded since the last label and neither stored to nor set nor reset since; S and R as they are compiled |
| IlLockstep.CostGrows | crates/weftik-il-compiler/src/codegen.rs:143-338 | only labels are free, so k statements take at least k divided by the program's length plus one machine steps |
| IlLockstep.HaltsTogether | crates/weftik-il-compiler/src/codegen.rs:143-338 | the machine halts if and only if the interpreter finishes, panics if and only if the interpreter faults, and only over a division |
| IlLockstep.CompareContinues | crates/weftik-il-compiler/src/codegen.rs:108-128 | a comparison compares CR with the register, which it does not load, and leaves that Boolean; it continues at the next statement if it holds and one instruction behind if not |
| IlOperands.CompareExactly | crates/weftik-il-compiler/src/codegen.rs:230-242 | a comparison leaves what it says if and only if CR compares with the register as with the signal |
| IlOperands.CompareNeedsSignal | crates/weftik-il-compiler/src/codegen.rs:230-242 | each of the six comparisons with a number is right for every CR of its type if and only if the register holds the signal, EQ and NE whatever the register holds |
| IlOperands.UnloadedCompareFails | crates/weftik-il-compiler/src/codegen.rs:230-242 | LD a, EQ b on a new machine with both signals 5: the comparison is false, and the run ends in the out-of-bounds panic |
| IlOperands.LastCompare | crates/weftik-il-compiler/src/codegen.rs:108-128 | a comparison as the last statement: the program halts if it holds, and panics behind the halt if not |
| IlOperands.CompareThenJumpIfNot | crates/weftik-il-compiler/src/codegen.rs:248-253 | JMPCN directly behind a comparison never jumps; the two are right if and only if the comparison holds, unless the label stands right there |
| IlOperands.CompareThenStore | crates/weftik-il-compiler/src/codegen.rs:170-176 | ST directly behind a comparison is right if and only if the comparison holds or the signal was false before |
| IlOperands.OrExactly | crates/weftik-il-compiler/src/codegen.rs:196-199 | for Booleans OR gives CR or signal if and only if the variable's register holds a Boolean that, unless CR is true, is the signal's |
| IlOperands.OrNotExactly | crates/weftik-il-compiler/src/codegen.rs:200-205 | ORN gives CR or not signal under the same condition, and only then |
| IlOperands.XorExactly | crates/weftik-il-compiler/src/codegen.rs:206-209 | XOR gives CR xor signal if and only if the register holds the signal |
| IlOperands.SumExactly | crates/weftik-il-compiler/src/codegen.rs:210-217 | ADD and SUB of numbers of one type are right if and only if the register holds the signal |
| IlOperands.ProductExactly | crates/weftik-il-compiler/src/codegen.rs:218-221 | MUL is right if and only if CR times the difference of register and signal is a multiple of the type's range |
| IlOperands.QuotientExactly | crates/weftik-il-compiler/src/codegen.rs:222-225 | DIV of DINTs is right for every CR if and only if the register holds the signal |
| IlOperands.RemainderExactly | crates/weftik-il-compiler/src/codegen.rs:226-229 | MOD of DINTs is right for every CR if and only if the register holds the signal, or its negative but for 1 and -1, or both are 0 or 1 |
| IlOperands.PrefixRuns | crates/weftik-il-compiler/src/codegen.rs:143-316 | straight-line code of loads, bit operations, stores, S and R, their variables current or not, runs register by register as listed: a step per instruction, with the register where the statement should take the signal |
| IlOperands.UnloadedOrStoresNumber | crates/weftik-il-compiler/src/codegen.rs:196-205 | OR or ORN of a variable that nothing has fetched, on a new machine: every ST behind it up to the next load stores a number, whatever came before |
| IlOperands.UnloadedOrFails | crates/weftik-il-compiler/src/codegen.rs:196-199 | the shortest failing program: LD a, OR b leaves the number zero on a new machine whatever the signals, and with LD b in front it is right |
| PlainMeanings.BooleansSay | crates/weftik-il-compiler/src/codegen.rs:152-209 | what the statements of the interpreter mean on Booleans, in and, or, differs and not |
| PlainMeanings.ComparisonsSay | crates/weftik-il-compiler/src/codegen.rs:230-242 | what the six comparisons mean on numbers |
| PlainMeanings.NumbersSay | crates/weftik-il-compiler/src/codegen.rs:210-229 | what ADD, SUB, MUL, DIV and MOD mean on DINTs, in plain arithmetic |
| PlainMeanings.ControlSays | crates/weftik-il-compiler/src/codegen.rs:244-262 | a store publishes CR, JMPC jumps on TRUE, JMPCN on anything else, both to the last label of that name or past the end, RET ends |
| PlainMeanings.TenVariables | crates/weftik-il-compiler/src/codegen.rs:42-55 | ten variables have registers; what is only stored, jumped to or called needs none |
| IlText.RemoveInlineComments | crates/weftik-il-compiler/src/lexer.rs:91-113 | the comment stripper's loop computes the text outside comments |
| IlText.Tokenize | crates/weftik-il-compiler/src/lexer.rs:158-198 | the lexer's loop computes the concatenated tokens of the lines |
| IlText.Parse | crates/weftik-il-compiler/src/parser.rs:50-248 | the parser's loop computes the statements of the tokens |
| IlWords.TextReadsBack | crates/weftik-il-compiler/src/parser.rs:50-248 | any list of statements of the language, labels included, one to a line, is lexed and parsed as itself, if every name is non-empty, free of white space and opens no comment |
| IlWords.WrittenReads | crates/weftik-il-compiler/src/lexer.rs:115-156 | so is every single statement, each under its own mnemonic |
| IlWords.CaseDoesNotMatter | crates/weftik-il-compiler/src/lexer.rs:158-198 | a mnemonic in capitals or not is the same mnemonic |
| IlWords.WhiteSpace | crates/weftik-il-compiler/src/lexer.rs:158-198 | blanks, tabs and carriage returns separate words, printable characters do not |
| IlWords.WordsOfLine | crates/weftik-il-compiler/src/lexer.rs:158-198 | the operand is the second word and a third is dropped, a label takes what is behind it as further tokens, and a line with neither label nor mnemonic says nothing |
| IlWords.MissingOperand | crates/weftik-il-compiler/src/parser.rs:250-258 | a mnemonic without operand gets the name ?, and a stray name is skipped |
| IlWords.CommentsVanish | crates/weftik-il-compiler/src/lexer.rs:91-113 | a comment leaves nothing behind, wherever it stands in a line |
| LadderWords.LadderSpelled | crates/weftik-ld-compiler/src/codegen.rs:29-88 | the element that each ladder word stands for, the four kinds behind a bar included |
| LadderWords.ElementsSpelled | crates/weftik-ld-compiler/src/codegen.rs:96-154 | the statements that each element adds to any network: a contact loads exactly when no contact but parallel ones is before it |
| LadderIl.ParseNetworks | crates/weftik-ld-compiler/src/codegen.rs:29-88 | the grouping loop computes the networks of the tokens |
| LadderIl.NetworksKeepElements | crates/weftik-ld-compiler/src/codegen.rs:29-88 | every element is kept, in order, and no network is empty |
| LadderIl.NetworkSeparates | crates/weftik-ld-compiler/src/codegen.rs:35-39 | what stands behind a NETWORK line is grouped as if it stood alone |
| LadderIl.OneNetwork | crates/weftik-ld-compiler/src/codegen.rs:29-88 | without NETWORK lines everything is one network |
| LadderIl.GenerateIl | crates/weftik-ld-compiler/src/codegen.rs:96-154 | the printer gives one line per intended statement, loading on the first contact of each network |
| TextRoundTrip.LineReadsBack | crates/weftik-il-compiler/src/lexer.rs:158-198 | a printed line is read as its mnemonic and name if and only if the name is non-empty, free of white space and opens no comment |
| TextRoundTrip.LadderTextReadsBack | crates/weftik-ld-compiler/src/codegen.rs:96-154 | for every list of networks with such names, lexing and parsing the printed text gives exactly the intended statements, one per line, in order |
| TextRoundTrip.ReadLadder | crates/weftik-ld-compiler/src/codegen.rs:96-154 | the pipeline of the three programs gives the intended statements |
| LadderGraph.SameVisits | crates/weftik-ld-semantics/src/lib.rs:198-223 | all Kahn orders of one graph visit the same nodes |
| LadderGraph.KahnVisitsAll | crates/weftik-ld-semantics/src/lib.rs:198-223 | the pass visits every node the rail reaches if and only if that part of the graph has no cycle besides the rail and is entered only from within |
| LadderGraph.PowerFlowIsPathExistence | crates/weftik-ld-semantics/src/lib.rs:341-375 | along the rail's own order power is the existence of a path of closed contacts for all inputs, if every node that ends a simple path to the output is visited; where no two edges share a variable, only if |
| LadderGraph.PowerIsPathExactly | crates/weftik-ld-semantics/src/lib.rs:341-375 | the same for a pass in any order whatever: if, and without shared variables only if, every simple path from the rail to the output runs along the order |
| LadderGraph.OrderTellsRail | crates/weftik-ld-semantics/src/lib.rs:166-168 | an order is one of another rail only if that is the same rail, so a new rail makes it out of date |
| LadderGraph.StalePowerExactly | crates/weftik-ld-semantics/src/lib.rs:166-168 | with a new rail on an old order power is the existence of a path for all inputs, if every node that ends a simple path to the output is in the order and no such path leaves the old rail; without shared variables, only if |
| LadderGraph.StaleOrderLosesPower | crates/weftik-ld-semantics/src/lib.rs:166-168 | edges 0 to 1 and 2 to 3, ordered for rail 0, evaluated for rail 2: a closed path carries no power |
| LadderGraph.PowerNeedsPath | crates/weftik-ld-semantics/src/lib.rs:341-375 | in every graph and along every order power needs a path of closed contacts |
| LadderGraph.OutsideEntryLosesPower | crates/weftik-ld-semantics/src/lib.rs:198-223 | an entry from a node the rail does not reach makes a closed path carry no power |
| LadderNetwork.ContactNetwork.AddNode | crates/weftik-ld-semantics/src/lib.rs:149-155 | a new node with no edges; the order is marked stale |
| LadderNetwork.ContactNetwork.AddEdge | crates/weftik-ld-semantics/src/lib.rs:158-163 | one edge more in the list and in its source's adjacency list; the order is marked stale |
| LadderPass.PassEndsExactly | crates/weftik-ld-semantics/src/lib.rs:198-223 | the pass from a rail ends if and only if nothing enters the rail or some edge into it starts at a node the pass does not visit; then its order is a Kahn order |
| LadderPass.ReturningPassNeverEnds | crates/weftik-ld-semantics/src/lib.rs:211-219 | where every node with an edge into the rail is visited, the stack is empty after no number of steps |
| LadderPass.RaillessPassEnds | crates/weftik-ld-semantics/src/lib.rs:206-210 | without a rail the pass always ends |
| LadderPass.RoundAndRound | crates/weftik-ld-semantics/src/lib.rs:198-223 | 0 to 1 to 0 never ends; an edge into 0 from a node never visited ends it |
| LadderNetwork.ContactNetwork.RebuildTopo | crates/weftik-ld-semantics/src/lib.rs:198-223 | the loop over stack and in-degrees computes the order of that pass: the seeds and every node all of whose entries it holds, each once and behind its entries |
| LadderNetwork.ContactNetwork.TopologicalOrder | crates/weftik-ld-semantics/src/lib.rs:191-196 | rebuilt only when stale |
| LadderNetwork.ContactNetwork.EvaluatePowerFlow | crates/weftik-ld-semantics/src/lib.rs:341-375 | true exactly when a path of closed contacts that runs along the order in use, be it of this rail or an earlier one, joins rail and output |
| LadderParallel.BuildParallelNetwork | crates/weftik-ld-semantics/src/lib.rs:756-778 | the builder's graph: every branch from the rail to the shared output |
| LadderParallel.ParallelPowered | crates/weftik-ld-semantics/src/lib.rs:752-778 | parallel branches are an OR of ANDs: a closed path exists exactly when some branch has contacts and all are closed |
| LadderParallel.ParallelFlow | crates/weftik-ld-semantics/src/lib.rs:752-778 | power flows in a rung of parallel branches exactly when some branch has contacts and all are closed |
| LadderParallel.EvaluateParallel | crates/weftik-ld-semantics/src/lib.rs:341-375 | building and evaluating gives that OR; a branch without contacts is no wire |
| LadderCycle.BuildSerialNetwork | crates/weftik-ld-semantics/src/lib.rs:738-750 | the builder's graph: a chain from rail to output |
| LadderCycle.SerialFlow | crates/weftik-ld-semantics/src/lib.rs:738-750 | power flows in a series rung exactly when every contact is closed |
| LadderCycle.VarStore.Apply | crates/weftik-ld-semantics/src/lib.rs:548-554 | writes every coil state of a result, in order |
| LadderCycle.EnergizeCoils | crates/weftik-ld-semantics/src/lib.rs:680-713 | coil states from power and the store before the rung's own writes; SET and RESET hold when unpowered |
| LadderCycle.EvaluateRung | crates/weftik-ld-semantics/src/lib.rs:455-512 | contact and coil states of a series rung evaluated alone |
| LadderCycle.EvaluateCycle | crates/weftik-ld-semantics/src/lib.rs:651-728 | each rung sees what the rungs above it wrote: the final store, every rung state and the list of energized coils |
| LadderLatching.ContactsRead | crates/weftik-ld-semantics/src/lib.rs:656-678 | what each kind of contact asks of the store |
| LadderLatching.KindsOfCoils | crates/weftik-ld-semantics/src/lib.rs:680-713 | OUT follows power, a negated coil its opposite, SET keeps or turns on, RESET keeps or turns off |
| LadderLatching.LastCoilDecides | crates/weftik-ld-semantics/src/lib.rs:680-713 | of several coils of a rung on a variable the last one decides it |
| LadderLatching.LastRungDecides | crates/weftik-ld-semantics/src/lib.rs:651-728 | in a cycle the last rung with a coil on a variable decides it, from its power and the store before it |
| LadderLatching.OtherCoils | crates/weftik-ld-semantics/src/lib.rs:680-713 | a rung changes no variable without a coil in it |
| LadderLatching.ReplayReproduces | crates/weftik-ld-semantics/src/lib.rs:547-554 | applying a cycle's result to the store before it gives the store after it |
| LadderLatching.ReplayCycle | crates/weftik-ld-semantics/src/lib.rs:547-554 | a second store brought up to date by `apply` equals the evaluated one |
| LadderLatching.RungAloneIsOneRungCycle | crates/weftik-ld-semantics/src/lib.rs:455-512 | a series rung evaluated alone has the state it has in a one-rung cycle |
| LadderLatching.CycleLatches | crates/weftik-ld-semantics/src/lib.rs:687-701 | after a cycle a variable written only by SET and RESET is what its last powered coil in rung order makes it, or what it was |
| LadderLatching.LatchRemembers | crates/weftik-ld-semantics/src/lib.rs:651-728 | over any number of cycles with any inputs such a variable remembers its last powered coil, and its first value while there was none |
| LadderAgreement.BuildRungs | crates/weftik-ld-semantics/src/lib.rs:738-750 | the evaluator's rungs for a ladder program |
| LadderAgreement.ScanAgrees | crates/weftik-ld-semantics/src/lib.rs:651-728 | one scan of the compiled program halts with the signals as one evaluated cycle leaves its store, but for variables with SET or RESET coils |
| LadderAgreement.LadderMeaningsAgree | crates/weftik-ld-semantics/src/lib.rs:651-728 | after any number of scans with any inputs between them, every variable without SET and RESET coils equals the rung evaluator's, and all scans halt: for rungs of series contacts, then contacts parallel to them, then OUT, SET and RESET coils, where no contact reads a variable that is set or reset and the IL loads each parallel contact's variable before |
| LadderAgreement.SeriesFits | crates/weftik-ld-compiler/src/codegen.rs:107-121 | without parallel contacts that asks only for at most ten variables |
| LadderExceptions.LatchCoilsNeverWrite | crates/weftik-il-compiler/src/codegen.rs:264-275 | a variable with SET and RESET coils but no OUT coil is never written: over any run of any compiled ladder its signal stays what it was |
| LadderExceptions.LatchExactly | crates/weftik-ld-semantics/src/lib.rs:687-701 | after a halted scan of any ladder such a variable agrees with the evaluator if and only if no coil on it was powered, or the last powered one asked for the value it had |
| LadderExceptions.LatchedEverExactly | crates/weftik-ld-semantics/src/lib.rs:651-728 | after any number of scans with any inputs to other variables it agrees if and only if the last coil powered in any cycle, if there was one, asked for its first value |
| LadderExceptions.SetCoilFails | crates/weftik-il-compiler/src/codegen.rs:264-269 | the shortest case: contact a, SET coil x, with a true and x absent. The scan halts with x false, where the evaluator has x true |
| LadderExceptions.UnloadedParallelStoresNumber | crates/weftik-il-compiler/src/codegen.rs:196-205 | a parallel contact whose variable no series contact and no SET or RESET coil before it puts into its register: the ladder does not fit, and the first scan of a new machine, whatever rungs come before, ends with a number in every OUT coil of the rung that no later rung drives, which the evaluator never gives |
| LadderAgreement.CompileLadder | crates/weftik-ld-compiler/src/codegen.rs:96-154 | networks through text and both compilers give the IL layout of the intended statements, or the panic on an eleventh variable |
| Motion.EmitProfilePhase | crates/weftik-cnc-motion/src/profile.rs:156-210 | a phase's code at its address, four instructions for each axis; nothing for no cycles |
| Motion.EmitTriangularMotion | crates/weftik-cnc-motion/src/profile.rs:227-285 | the loop of a short move, its two placeholders patched behind it, equals its layout |
| Motion.GenerateProgram | crates/weftik-cnc-motion/src/profile.rs:58-153 | no motion below the threshold; with a distance to cruise constants, start positions and three phases; otherwise the triangular program; `AxesExactly` says which axes are in it |
| MotionRun.RampsCombine | crates/weftik-cnc-motion/src/profile.rs:141-152 | acceleration and deceleration together cover exactly n·v·dt |
| MotionRun.SpeedsBounded | crates/weftik-cnc-motion/src/profile.rs:172-204 | every position update uses a speed between 0 and the target |
| MotionRun.TravelBound | crates/weftik-cnc-motion/src/profile.rs:104-152 | the total travel is (n+m)·v·dt, at least the distance and less than the distance plus 2·v·dt |
| MotionLoop.LoopRuns | crates/weftik-cnc-motion/src/profile.rs:183-209 | after k iterations of a loop the speed, the counter and every position are those of k updates |
| MotionLoop.PhaseRuns | crates/weftik-cnc-motion/src/profile.rs:156-210 | a phase takes exactly its number of iterations and moves every axis by its ratio times the phase's travel |
| MotionLoop.MoveRuns | crates/weftik-cnc-motion/src/profile.rs:97-153 | the whole move ends behind its last instruction after exactly its steps, with every emitted axis published at its start plus its ratio times the total travel |
| MotionLoop.NothingAfterTheMove | crates/weftik-cnc-motion/src/profile.rs:58-82 | the standalone program has no halt: the next step trips the executor's pointer check |
| MotionAxes.AxesExactly | crates/weftik-cnc-motion/src/profile.rs:120-140 | X always moves, Y and Z exactly when their displacement is beyond 1e-9 either way; each axis has its register, its signal, and its share of the distance |
| MotionAxes.FeedIsPerMinute | crates/weftik-cnc-motion/src/profile.rs:97-119 | the speed is the feed rate a minute, or 100 a minute without one |
| MotionAxes.RampsAccelerate | crates/weftik-cnc-motion/src/profile.rs:97-119 | on the ramps speed changes at the acceleration, and a ramp is the least number of steps that reaches the speed |
| MotionAxes.AxesArrive | crates/weftik-cnc-motion/src/profile.rs:97-153 | after the whole move each axis that moves has published its start plus its displacement, passed in its direction by less than its share of two cruise steps |
| MotionAxes.StillAxesKeep | crates/weftik-cnc-motion/src/profile.rs:186-196 | an axis that does not move keeps its signal over any run of the move |
| MotionTriangle.CycleRuns | crates/weftik-cnc-motion/src/profile.rs:247-284 | one cycle of the triangular loop: the speed falls if the counter is above the last axis's ratio, which has overwritten the half count, and rises otherwise |
| MotionTriangle.TriangleRuns | crates/weftik-cnc-motion/src/profile.rs:227-285 | the whole triangular move ends behind its last instruction, and every axis has moved by its ratio times the travel of a ramp that goes down from standstill |
| MotionTriangle.TravelIsBack | crates/weftik-cnc-motion/src/profile.rs:113-125 | that travel is minus the peak speed times one less than the number of cycles |
| MotionTriangle.BackBounds | crates/weftik-cnc-motion/src/profile.rs:113-125 | which is at least the distance of the move backwards, and twice that distance up to one cycle at the peak speed |
| MotionTriangle.TriangleGoesBackwards | crates/weftik-cnc-motion/src/profile.rs:266-285 | so every move too short to cruise, whose cycles fit 32 bits, ends on the wrong side: each axis that moves has published an end at least its whole displacement behind its start |
| Wire.PinsRoundTrip | crates/weftik-runtime-client/src/lib.rs:74-109 | type discriminants and types correspond both ways |
| Wire.TwosComplement | crates/weftik-runtime-client/src/lib.rs:127-134 | a number's word reads back as the number |
| WireBytes.NumberBytes | crates/weftik-runtime-client/src/lib.rs:114-134 | a number is the tag of its type and the bytes of its word, the low one first |
| WireBytes.OtherBytes | crates/weftik-runtime-client/src/lib.rs:114-151 | the tag of every other value, and the payload of Booleans and floats |
| WireBytes.ContainerBytes | crates/weftik-runtime-client/src/lib.rs:135-142 | strings and blobs have their length in four bytes before them |
| WireBytes.ArrayBytes | crates/weftik-runtime-client/src/lib.rs:143-150 | arrays have the element's tag between length and data |
| Utf8.Utf8Exactly | crates/weftik-runtime-client/src/lib.rs:187-194 | a byte string is accepted as text if and only if it is the UTF-8 of some sequence of Unicode scalar values (section 3 of RFC 3629) |
| Wire.EncodeHalValue | crates/weftik-runtime-client/src/lib.rs:114-151 | the encoder's pushes give the encoding |
| Wire.WireRoundTrip | crates/weftik-runtime-client/src/lib.rs:154-204 | decoding an encoding, whatever follows it, gives the value and exactly the encoding's length, if and only if the payload is shorter than 2^32 |
| Wire.ConsumesInput | crates/weftik-runtime-client/src/lib.rs:161-164 | the decoder stays within its input in every case but a Boolean cut off behind its tag |
| Wire.Reencodes | crates/weftik-runtime-client/src/lib.rs:154-204 | what decodes encodes to the same bytes again, if and only if they are not a Boolean cut off or with another byte than 0 and 1 |
| Snapshot.DecodeSnapshotResponse | crates/weftik-runtime-client/src/lib.rs:579-604 | no index leaves the data on any byte string; the loop computes the entries or the first error |
| Snapshot.SnapshotRoundTrip | crates/weftik-runtime-client/src/lib.rs:578-604 | a snapshot laid out as documented decodes to its entries, whatever follows |
| WireBytes.SnapshotBytes | crates/weftik-runtime-client/src/lib.rs:578-604 | a snapshot of two Booleans, byte by byte |
| Stream.RunsKeepHistory | crates/weftik-amw-inproc/src/stream.rs:36-69 | any run of writes and reads keeps the depth bound; the queue is the end of what was stored, reads are an order-preserving selection of what came before it, and without DropOldest reads followed by the queue are exactly what was stored |
| Stream.DropOldestStoresAll | crates/weftik-amw-inproc/src/stream.rs:41-43 | under DropOldest every write is stored: the queue is a suffix of all writes |
| Stream.NothingLostWithRoom | crates/weftik-amw-inproc/src/stream.rs:36-69 | while no more writes are pending than the depth, under any policy every write is stored, and the reads and the queue are all the writes in order |
| Stream.FullChannel | crates/weftik-amw-inproc/src/stream.rs:36-64 | on a full channel DropOldest drops the front, DropNewest and Backpressure leave everything as it was |
| Stream.Channel.Push | crates/weftik-amw-inproc/src/stream.rs:36-64 | a write does to the queue what the policy says, and fails exactly when backpressure finds it full: no retry can help while the lock is held |
| Stream.Channel.Pop | crates/weftik-amw-inproc/src/stream.rs:67-69 | a read takes the oldest value |

## Left out

- Array access and `LoadIndex`/`StoreIndex` in the code generator and the machine: they reinterpret IEEE bytes. The parser keeps them.
- Floating-point rounding, NaN and infinities: REAL arithmetic is exact, and the motion profile asks for a positive acceleration and cycle time, which the source does not check.
- Overflow panics of debug builds.
- ST programs over other types than DINT in the correctness theorem: `CopyExactly` says when a copy keeps its value, and DINT literals stored to other types make most copies lose it. Comparisons as values stay out of it, being negated. BOOL assignments, conditions and block calls are covered statement by statement in `StLogic` and `StBlocks`, not by the theorem over whole runs.
- StSimulation.StmtRuns: says nothing about a run behind a condition or an assignment that strays, but `CondRuns` and `ExprRuns` say what its code does.
- StSemantics.NoClobberIsEval: one way only. Nested clobbered reads compare two different expressions in the old values, with no condition simpler than their equality; for one such read `ClobberedExactly` gives the condition, and `OwnDivisorExactly` and `OwnModulusExactly` do for / and MOD with the bare variable on the right.
- StCorrectness.ExprRuns: covers expressions that fit the three scratch registers; deeper ones end in the status `Crashed`, where the source panics.
- ST function calls: a generic call targets instruction 0 in the source, so calls are in the safety theorem's code validity but not in its run theorem; `StCalls` says what they do, and `CallReturns` covers calls and returns of the machine.
- HAL signal bindings, the function table and program names of compiled programs.
- Token positions and error texts; the ST lexer, so round trips of ST are over tokens.
- StProgramText.ProgramRoundTrip: array declarations are parsed by the model but not printed, and functions are printed behind the body, so their mixing with statements is read but not rebuilt.
- CAL and the function blocks of IL are compiled in the model but stay out of the lockstep theorem, since their code does not do what the statement says; comparisons are in it only before JMPC (`CompareContinues` describes them anywhere), and S and R only as the register writes they are compiled to.
- IlLockstep.Lockstep: OR, ORN, XOR, arithmetic and comparisons need their variable loaded since the last label; a load on every way into a label does not count.
- IlText.Tokenize: upper-cases ASCII letters only.
- The ladder lexer: a line maps to one token.
- Edge contacts in power flow and coils: each query changes the edge tracker, which every cycle rebuilds.
- LadderNetwork.ContactNetwork.RebuildTopo: asks that the rail is a node and that the pass ends, by the condition of `PassEndsExactly`.
- LadderGraph.PowerFlowIsPathExistence: with a variable on several edges its condition is sufficient but not necessary.
- LadderAgreement.LadderMeaningsAgree: says nothing of variables with SET and RESET coils, for which `LatchExactly` and `LatchedEverExactly` do unless there is an OUT coil besides; covers no contacts that read such a variable, no edge contacts, and parallel contacts only where their variable was a series contact before with no coil on it since. Where it never was one, `UnloadedParallelStoresNumber` says what happens.
- Coil types in reports are the coil kinds; EN/ENO chains.
- Arcs and G-code embedding; square roots in the motion profile are given as parameters with their squares. Jump targets and cycle counts are unbounded but where the source converts a float to 32 bits.
- MotionTriangle.TriangleGoesBackwards: asks that the number of cycles fits 32 bits; beyond that the conversion or the doubling cuts it off.
- MotionRun.TravelBound: asks that the cycle counts fit 32 bits; beyond that the conversion cuts them off.
- Snapshot.SnapshotRoundTrip: the replacement of invalid UTF-8 in names is a parameter that leaves valid names alone.
- Stream subscribers and mutex poisoning; the wait between retries.
- Debugger reads that change nothing: `list_breakpoints`, `trace_buffer`, `clear_trace`.
- Sockets, FlatBuffers, Modbus and HART, the debug adapter, drawing and the shells.
