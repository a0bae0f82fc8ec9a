# A verified model of the ABC virtual machine

ABC is a bytecode machine with two operand stacks, A and B, and a frame stack, C. This project models
the parts of it that decide whether a program keeps its meaning, and proves them: the verifier that
accepts a module, the partial evaluator, the register stack-cache and the value-graph emitter that
transform it, the call-graph analysis and the argument facts that drive them, the counting runtime that
owns its objects, the interpreter's cell cache, integer-to-double conversion, and the expression
compiler of the browser simulator. `dafny verify dfyconfig.toml` checks everything.

## What is proved

- **Partial evaluation preserves meaning.** `ResidualRuns.MeaningPreserved` says that in a consistent
  residual program a function returns given values, or aborts for a given reason, exactly when its bytecode
  does, for all arguments its facts describe. `Residualize.ResidualizeEach` makes such a program as
  src/residual_builder.c:2701-2712 does when no facts are given (src/residual_c.c:1239 gives none), and
  `Residualize.EachKeepsMeaning` draws the conclusion for every argument list. Nothing is assumed of where
  blocks end, which loop headers are generalised or which tail calls are built in.
  `Specializer.Specialize` cannot fail, keeps to eight versions of each instruction and evaluates what it
  can: the entry version fixes the arguments that are known, no branch on constants is left and no operation on
  constants unless it traps, and forward edges lose no constant except at loop headers and at the limit
  (`Specializer.Builder.VersionFor` says which version every edge gets). With facts,
  `Residualize.ResidualizeAll` repeats specialization until the facts cover every call that is left, which
  always ends; that combination is the model's own (see "Left out").
- **Facts are exact.** What `Facts.Propagate` ends with is the join of the calls reported on the way, no
  more (`Facts.ReportedJoin`), and for a monotone residualizer the least fixpoint (`Facts.PropagatesLeast`).
- **The verifier is sound and does not reject by mistake.** `Verifier.Verify` is the work-list over
  hash-consed stack shapes. Accepted modules are safe in every run through any calls
  (`Verifier.AcceptedRunsAreSafe`), and their maxima are the largest depths some instruction leaves; rejected
  ones have no typing at all. The third verdict, the complexity limit, is given only when the module's
  instructions and arguments together may ask for as many cells as the pool has nodes.
  `AcceptedCode.AcceptedChecked` hands accepted modules on: their shapes give the stack depths that partial
  evaluation relies on.
- **The register stack-cache refines the stacks** (`RegisterCache.CompileVersion`), for any number of
  registers from two and any description of the stacks at a block's entry. The description it ends with is
  the entry of the next block, and `RegisterCache.CompilePath` follows linked blocks along any path. Constants
  are tracked exactly as constant propagation finds them, and what they decide needs no code. Argument k is at
  home -1 - k of C, and nested frames keep their homes apart (`RegisterCache.CalleeHomes`).
- **The emitter re-projects a value graph correctly** (`DagEmit.EmitFunction`), shortcuts, rollback, parked
  nodes, fused conditions and back edges included, and refuses only what does not fit its frame or leaves. The
  code of a node never needs more operand cells than its Ershov number (`DagEmit.Emitter.EmitNode`).
- **The call-graph analysis is right** (`Recursion.Analyze`), and so is the slower search it must agree
  with (`Recursion.IsRecursive`).
- **The counting runtime frees everything once.** `Owners.Runtime.Call` performs any sequence of requests
  with any of them failing and unwinds. `OwnerHeap.SurvivesIff` says exactly which owners a drain leaves:
  what a root or a cycle reaches. That it leaves only what roots reach is false with cycles
  (`OwnerHeap.CycleLeaks`) and true without (`OwnerHeap.AcyclicSurvives`). `SharedCount.RunsSound` covers
  every interleaving of threads.
- **The simulator's compiler preserves meaning within the Ershov depth** (`LabCorrect.CompileCorrect`), and
  that meaning is arithmetic: `LabNumbers.EvalArith` gives every operator on whole numbers.
- **Every operation is what its name says of whole numbers** (`WordNumbers.ApplyIs`, `WordNumbers.UnaryIs`),
  for all cells: carries, wrap-around, truncation, rounding shifts and signs included.

## Where the code does not do what it promises

The simulator's compiler and its evaluator part in four ways. Each has an input (`LabExact.Parts...`) and an
exact condition. `LabLanguage.KindOf` and `LabCorrect.Fit` ask the first three conditions of every part of an
expression and leave the last family out; under them `LabCorrect.CompileCorrect` holds.

- The compiler keeps only the low half of a shift count it knows in advance (lab/core.js:1003-1008), while
  the evaluator uses all 64 bits (lab/core.js:1428). A shift by 2^32 shifts by nothing when compiled and shifts
  everything out when evaluated. They agree on every number if and only if the low half has the effect of the
  evaluator's count: the two are equal, or both are at least the count from which nothing is left (32, 64, or
  one less for signed right shifts) (`LabExact.CountsExact`).
- The same happens to literal arms of a count that is chosen at run time (`LabExact.ArmsExact`).
- Static evaluation stops at the first side of `and` or `or` that decides (lab/core.js:791-792), while the
  evaluator counts a condition as known only when both sides are (lab/core.js:1382-1391). Where a condition is
  decided but not known, the evaluator brings a literal arm to the type in which the arms meet
  (lab/core.js:1438-1443), and the compiler keeps the literal. That shows when the literal is the count of a
  shift that is folded (`LabExact.FoldsExact`).
- It also shows when the other arm is a truth value (`LabExact.TruthExact`, `LabExact.TruthCounts`).

## How it is organised

- `Numbers`, `Words`, `WordNumbers`, `Bytecode`: naturals and cells, operators, what they are in numbers, and
  straight-line instructions, used by everything.
- `RegisterCache`: src/residualize.c. `DagBuild`, `DagEmit`: src/optimize.c.
- `Lists`, `Digraph`, `CallGraph`, `Components`, `Numbering`, `Recursion`, `Facts`:
  src/residual_analysis.c and the driver loop of src/optimize.c.
- `Shapes`, `ShapePool`, `ShapeOps`, `TypedCode`, `TypedMachine`, `TypedRuns`, `ShapeTransfer`, `Inference`,
  `StaticChecks`, `Verifier`: src/verify.c. `TypedCode` says what a typing is, `TypedMachine` and `TypedRuns`
  what running is, and the last four compute the typing. `AcceptedCode` leads from there to `ControlCode`.
- `ControlCode`, `ResidualCode`, `Versions`, `SymbolicStep`, `Tracing`, `Exits`, `Specializer`,
  `ResidualRuns`, `Residualize`: src/residual_builder.c over src/symbolic.c.
- `OwnerHeap`, `Owners`, `SharedCount`: src/owner.c and src/lifetime.c.
- `BankedCache`: src/vm.c. `IntToDouble`: src/vm_internal.h.
- `LabLanguage`, `LabCompiler`, `LabBits`, `LabArithmetic`, `LabMeaning`, `LabCorrect`,
  `LabNumbers`, `LabExact`: lab/core.js.

The operators are those of lab/core.js:20-45. Calls in `ControlCode` and `ResidualCode` are answered by a
function from callee and arguments to an ending; `ResidualRuns` closes the circle by letting calls nest
ever deeper, a run that has not ended being silent. Argument zero is on top of the frame at entry: arguments
are reversed into it (src/residual_builder.c:2203-2208).

## Model

| member | source | states |
|---|---|---|
| Words.DivisionLaw | lab/core.js:24-27 | Quotient and remainder of cells read as naturals: the quotient times the divisor plus a remainder smaller than the divisor is the dividend. |
| Words.NarrowFusion | src/residualize.c:175-182 | For the six operations with a 32-bit form, computing on half words and zero-extending equals the 64-bit operation followed by ZX32. |
| Words.ShiftFusion | src/residualize.c:288-309 | A left shift by less than 32 on half words equals the 64-bit shift followed by ZX32. |
| Words.ShiftFusionLarge | src/residualize.c:288-309 | A left shift by 32 or more leaves nothing in the low half, so the fused form is the constant zero. |
| WordNumbers.ApplyIs | lab/core.js:20-40 | Every binary operation in whole numbers (`WordNumbers.Meant`): sum, difference and product modulo 2^64; quotients and remainders towards zero, unsigned and signed; bit operations one bit at a time; shifts by powers of two for any count, rounding down; comparisons of unsigned or signed numbers. |
| WordNumbers.UnaryIs | lab/core.js:41-48 | Every unary operation in whole numbers: negation modulo 2^64, complement, truth value, zero and sign extension. |
| WordNumbers.RelatedIs | lab/core.js:53-56 | A relation of cells is the relation of their numbers. |
| WordNumbers.TrapsIs | lab/core.js:24-27 | An operation traps exactly when it divides by the number zero. |
| WordNumbers.FailsIs | lab/core.js:49-52 | A range check rejects exactly the numbers outside its range. |
| WordNumbers.ValueNext | lab/core.js:10-12 | Adding one is counting, from 0 to 2^64 - 1 and round again, which fixes what number a cell stands for. |
| WordNumbers.TruncatedLaw | lab/core.js:24-27 | Quotient and remainder make up the dividend; the remainder is smaller than the divisor and has the dividend's sign. |
| WordNumbers.BitwiseIs | lab/core.js:28-30 | Each bit of a combination is the combination of the bits, and there are no others. |
| RegisterCache.CompileVersion | src/residualize.c:424-440 | For any register count of at least two, any description of the stacks at entry, any block and any machine that fits the description: the forms emitted leave exactly the stacks the bytecode leaves, as the description at exit says, or trap for exactly the bytecode's reason; compilation stops early only before an instruction that finds no operands or has no encoding. The exit description, without constants on a backward edge and with every slot at home when the target has nearly all its versions, is what the next block is entered with. On other edges the slots described by constants are exactly the cells constant propagation finds (`RegisterCache.FoldAll`), and a block in which every instruction is decided that way emits nothing. |
| RegisterCache.CompilePath | src/residualize.c:424-440 | Linked blocks along any path, each entered as the one before it was left: their code, run one after the other, leaves exactly the stacks of all the bytecode, as the last description says, or traps for its reason; the path ends early only in a block that cannot be compiled to its end. |
| RegisterCache.CompileBlock | src/residualize.c:776-803 | The same from a function's entry with n arguments: afterwards cell i of A or B is at home i, and cell i of C at home i - n, and memory there holds exactly the stacks the bytecode leaves. |
| RegisterCache.ArgumentHome | src/residualize.c:835-835 | Argument k of a function entered with n of them is described by home -1 - k of C, for every k below n. |
| RegisterCache.ArgumentCell | src/residualize.c:835-835 | The cell that is argument k is the one memory holds at home -1 - k of C. |
| RegisterCache.CalleeHomes | src/symbolic.c:470-477 | When a callee's frame starts on top of a caller's, its argument k is k + 1 cells below its frame, at the home into which the caller's frame continues, and no cell of the caller moves. |
| RegisterCache.HomesApart | src/residualize.c:161-170 | Two cells have one home exactly when they are one cell: on one stack or two, in a frame or in the one built on it. |
| RegisterCache.Cache.Compile | src/residualize.c:776-803 | After n instructions the code denotes the stacks of the first n bytecode instructions; what is known of the cells is what constant propagation finds, and if that decides every instruction there is no code. |
| RegisterCache.Cache.DoInstr | src/residualize.c:776-803 | One instruction, or one and the ZX32 it absorbs, is carried to the denoted stacks and to what is known of them, and emits nothing where that decides it. |
| RegisterCache.Cache.RegUses | src/residualize.c:114-116 | The count of slots held by a register tells unused from owned by one slot only. |
| RegisterCache.Cache.SpillReg | src/residualize.c:119-127 | Every slot the register holds is stored at its own home and described by it; nothing else changes and the register becomes unused. |
| RegisterCache.Cache.FreeReg | src/residualize.c:128-133 | With two registers there is always one to free other than a masked one; only that register may be spilled, and nothing is emitted if some register was free. |
| RegisterCache.Cache.Materialize | src/residualize.c:134-140 | The slot ends in a register holding its logical cell; a slot already in a register costs nothing. |
| RegisterCache.Cache.Writable | src/residualize.c:145-149 | The slot ends in a register that no other slot shares. |
| RegisterCache.Cache.Save | src/residualize.c:150-154 | The slot is stored at its own home and described by it; any other slot changes only by moving to its home. |
| RegisterCache.Cache.Flush | src/residualize.c:155-160 | Afterwards no slot is in a register, and the denoted stacks are unchanged. |
| RegisterCache.Cache.ConformGeneric | src/residualize.c:161-170 | Afterwards memory alone holds the logical stacks, each cell at its canonical home. |
| RegisterCache.Cache.Weaken | src/residualize.c:408-439 | Afterwards no slot is a constant, and the denoted stacks are unchanged. |
| RegisterCache.Cache.Capture | src/symbolic.c:112-127 | A value about to be transferred is read from a register or constant, never from a home that a later store may change; only a home costs a load. |
| RegisterCache.Cache.DoPush | src/symbolic.c:128-131 | Pushing a constant emits nothing and denotes the pushed stack. |
| RegisterCache.Cache.DoPop | src/symbolic.c:138-140 | Dropping a slot denotes the popped stack. |
| RegisterCache.Cache.DoTransfer | src/symbolic.c:132-167 | Copies and moves between the three stacks denote what the bytecode does. |
| RegisterCache.Cache.DoCSet | src/symbolic.c:172-179 | Writing a frame cell denotes what the bytecode does, whatever shares its register or home. |
| RegisterCache.Cache.DoUnary | src/residualize.c:216-230 | A unary operation denotes the bytecode result: folded, without code, exactly when its operand is known, and otherwise emitted on an owned register. |
| RegisterCache.Cache.DoImmediate | src/residualize.c:288-309 | An immediate operation, with or without the ZX32 it absorbs, denotes the bytecode result; folded without code exactly when its operand is known. |
| RegisterCache.Cache.DoCOperand | src/residualize.c:310-329 | An operation with a frame operand denotes the bytecode result, fused or not, and disturbs no other slot; folded without code exactly when both operands are known. |
| RegisterCache.Cache.DoBinary | src/residualize.c:189-214 | A two-operand operation denotes the bytecode result or trap, fused or not, and disturbs no other slot; folded without code exactly when both operands are known and it does not trap. |
| RegisterCache.Cache.DoCheck | src/residualize.c:272-280 | A range check denotes the bytecode check; one known to pass emits nothing and one known to fail ends the block. |
| RegisterCache.Cache.DoAbort | src/residualize.c:545-551 | An abort traps for its reason. |
| RegisterCache.Cache.DoBranch | src/residualize.c:492-544 | Both operands of a branch reach two registers unharmed: the comparison there decides as the bytecode does. |
| RegisterCache.PublishKeeps | src/residualize.c:119-127 | Storing a register-held slot at its own home changes no denotation. |
| RegisterCache.ScratchKeeps | src/residualize.c:134-140 | Writing a register no slot uses changes no denotation. |
| RegisterCache.DescribeKeeps | src/residualize.c:134-140 | Describing a slot by a register that holds its cell changes no denotation. |
| RegisterCache.ComputeKeeps | src/residualize.c:145-149 | Computing into a register owned by one slot changes that slot's cell only. |
| RegisterCache.SelectedMeaning | src/residualize.c:288-309 | The immediate form selected (large shift counts, fused zero-extension) has the operation's value. |
| DagBuild.NumbersAreExpressions | src/optimize.c:139-161 | Hash-consing is canonical: two nodes of a graph without duplicates have equal numbers exactly when they stand for equal expressions. |
| DagBuild.AppendKeeps | src/optimize.c:139-161 | Adding a node changes no earlier node's value, effect or expression. |
| DagBuild.Sink.Number | src/optimize.c:139-161 | A pure node already present gets its old number and anything else a new one; the graph stays free of duplicates. |
| DagEmit.EmitFunction | src/optimize.c:725-779 | It succeeds exactly when the arguments and the parked nodes fit in a frame of 255 cells and every leaf fits. Then, for every graph, parking choice, tree and argument list, the code emitted returns exactly the values of the graph on the tree's stack, stops for the first trapping effect's reason, or restarts with the new arguments; and through any number of back edges a run of the code is a run of the graph. |
| DagEmit.Emitter.EmitNode | src/optimize.c:554-599 | The code pushes exactly the node's value on the requested stack and leaves A, B and C otherwise unchanged; with nodes numbered as the source does, it never needs more than the node's Ershov number of cells on A and B. |
| DagEmit.Emitter.EmitOnOperand | src/optimize.c:588-589 | Unary and check nodes in place on their operand. |
| DagEmit.Emitter.EmitSame | src/optimize.c:591-592 | A binary node on one value twice computes it once and copies it across. |
| DagEmit.Emitter.EmitShortcut | src/optimize.c:536-545 | The C-operand and immediate shortcuts push the node's value; they succeed exactly when the right operand is parked or a small literal and the operation has the form; on failure what was appended only follows the old code and is rolled back by the caller. |
| DagEmit.Emitter.EmitBinary | src/optimize.c:593-599 | Rollback and either operand order give the node's value, and the order chosen keeps to the Ershov number. |
| DagEmit.Emitter.EmitValue | src/optimize.c:601-604 | A result or operand, constant or node, is pushed on the requested stack. |
| DagEmit.Emitter.Prologue | src/optimize.c:751-764 | Parks the chosen nodes on C in order, effects included, and fails exactly when they and the arguments do not fit in 255 cells; the schedule then says where each is, and A and B never hold more than the neediest node asks for. |
| DagEmit.Emitter.ParkNode | src/optimize.c:751-764 | Parking one more node appends its code, effect included, and gives it the next home. |
| DagEmit.Emitter.EmitCondition | src/optimize.c:655-669 | The operands and the fused or immediate form decide as the source condition does. |
| DagEmit.Emitter.EmitLeaf | src/optimize.c:682-692 | A leaf returns exactly its results and releases the whole frame; it fails exactly at the limits on results. |
| DagEmit.Emitter.EmitBack | src/optimize.c:671-681 | A back edge is simultaneous assignment: every new argument is computed before any old one is overwritten, and only changed ones are stored. |
| DagEmit.Emitter.EmitTree | src/optimize.c:670-703 | The whole decision tree, with jumps patched to the right places; it fails exactly when some leaf does. |
| DagEmit.PeakBounds | src/optimize.c:554-599 | Straight-line code never has A and B deeper than its static peak above where it started, whatever the cells. |
| DagEmit.FrugalPair | src/optimize.c:467-476 | With the operand that needs more first, two operands meet within the Ershov number of their node. |
| DagEmit.LeftFirst | src/optimize.c:596-598 | Left operand first and the right on the opposite stack computes the node. |
| DagEmit.RightFirst | src/optimize.c:596-597 | Right operand first leaves both operands where the operation expects them. |
| DagEmit.SameOperand | src/optimize.c:591-592 | Equal operands: one value copied across computes the node. |
| DagEmit.FromFrame | src/optimize.c:536-539 | A right operand parked on C can be read from there. |
| DagEmit.FromLiteral | src/optimize.c:540-543 | A small literal right operand can be an immediate. |
| DagEmit.FusedRelates | src/optimize.c:645-651 | A comparison tested for truth or falsehood is the fused relation, with the operands exchanged where the form requires it. |
| DagEmit.ForkRealizes | src/optimize.c:693-703 | Condition, jump, fallthrough and taken branch laid out in this order realise the fork. |
| DagEmit.RunsAgree | src/optimize.c:671-681 | Every run of the emitted body, through any number of iterations, is a run of the graph. |
| CallGraph.BuildForward | src/residual_analysis.c:41-74 | Exactly when every call names a function, the offsets and edges hold the call graph back to back in instruction order. |
| CallGraph.BuildReverse | src/residual_analysis.c:83-90 | The counting sort produces, compressed, the graph with exactly the edges turned round. |
| CallGraph.ReverseEdge | src/residual_analysis.c:83-90 | A function is in the reverse row of another exactly when it calls it. |
| CallGraph.PlaceEdge | src/residual_analysis.c:88-90 | Placing one edge fills the next cell of its target's row and touches no other row. |
| Components.SearchAll | src/residual_analysis.c:92-115 | The iterative search with explicit stack and cursors lists every function once, in an order in which whatever reaches out of a component finishes later; the stack never holds more than n. |
| Components.Visit | src/residual_analysis.c:92-115 | One root: everything reachable and unvisited is finished; marks only grow. |
| Components.FinishReaches | src/residual_analysis.c:92-115 | When a function finishes, everything it reaches is finished or lies with it in a component that is still open below it. |
| Numbering.NumberComponents | src/residual_analysis.c:117-137 | Two functions get one number exactly when each reaches the other, and the numbers used are 0, 1, ... without a gap. |
| Numbering.FloodDone | src/residual_analysis.c:117-137 | One flood over the reverse graph numbers exactly one component. |
| Numbering.FloodWhole | src/residual_analysis.c:117-137 | A finished flood holds the whole component of its start. |
| Numbering.FloodFrom | src/residual_analysis.c:117-137 | Numbering the callers of one function keeps the flood inside the component and the work stack within n. |
| Recursion.Analyze | src/residual_analysis.c:24-195 | The whole analysis succeeds exactly when every call resolves; recursive[f] holds exactly when f comes back to itself by at least one call, and nested_eligible[f] exactly when moreover no non-tail call stays inside its component. |
| Recursion.CyclicShape | src/residual_analysis.c:148-174 | Being on a cycle is sharing a component or calling oneself directly. |
| Recursion.SharedCount | src/residual_analysis.c:139-174 | A component has more than one member exactly when some other function is mutually reachable. |
| Recursion.MarkRecursive | src/residual_analysis.c:148-174 | The marks equal being on a cycle. |
| Recursion.MarkNontail | src/residual_analysis.c:158-171 | The marks equal having a non-tail call that stays in the component. |
| Recursion.MarkNested | src/residual_analysis.c:175-179 | Eligible is recursive and only tail calls inside the component. |
| Recursion.ReachesFunction | src/symbolic.c:553-564 | The recursive search finds the goal exactly when some call chain leads to it. |
| Recursion.IsRecursive | src/symbolic.c:553-564 | The search and the component analysis agree on which functions are recursive. |
| Facts.JoinLeast | src/residual_analysis.c:243-257 | The join is the least upper bound, and leaves the kind of a fact alone only when it changes nothing. |
| Facts.Activate | src/residual_analysis.c:215-233 | An entry becomes present, and fully unknown for a root; exactly the changed entries become dirty. |
| Facts.JoinInto | src/residual_analysis.c:243-258 | Joining a call's facts rises pointwise and marks the function dirty exactly when some fact changed. |
| Facts.JoinCall | src/residual_analysis.c:235-260 | Fails exactly on a wrong argument count, changing nothing; otherwise leaves at its target the least upper bound of what was recorded (unreached if nothing was) and the call's facts, and changes no other entry. |
| Facts.Refresh | src/optimize.c:869-873 | Residualizing a dirty function joins all its calls, in order and nothing else, and keeps every other clean function settled. |
| Facts.Propagate | src/optimize.c:857-873 | Propagation ends for every residualizer, monotone or not, in a post-fixpoint that is exactly the join of calls reported during the run, each by a function under the facts it had then; it fails only on a call with the wrong number of arguments. |
| Facts.ReportedJoin | src/residual_analysis.c:235-260 | A function that is no root is described exactly when some call to it was reported, and each of its facts is the least upper bound of the facts reported for that argument. |
| Facts.ConstantCarried | src/residual_analysis.c:235-260 | If every call reported passes the constant v at i, the final fact is that constant. |
| Facts.PropagatesLeast | src/optimize.c:857-873 | For a monotone residualizer the result lies below every fixpoint. |
| Facts.ActivationsDescribed | src/optimize.c:865-873 | Every activation in every chain of calls from a root has arguments described by the final facts. |
| Facts.ConstantsHold | src/optimize.c:865-873 | A function assumed to receive a constant receives that constant on every run. |
| Shapes.CellInside | src/verify.c:37-39 | A cell found at a depth lies within the stack. |
| Shapes.CellSetFrame | src/verify.c:40-47 | Changing the kind of one cell changes neither the depth nor any other cell. |
| Shapes.SpanLeast | src/verify.c:48-56 | A block takes the fewest whole cells that hold its bytes. |
| Shapes.CellAtEntry | src/verify.c:37-39 | The cell found at a depth is the entry whose cells reach from there, if it is a scalar. |
| Shapes.FrameBytesEntry | src/verify.c:48-56 | Bytes at an offset that falls in an entry are accessible exactly when the entry is a block and they end where it does or before. |
| Shapes.FrameBytesOutside | src/verify.c:48-56 | An offset that falls in no entry allows nothing. |
| Shapes.CellSetBytes | src/verify.c:48-56 | Nor does it change which bytes lie inside one live block. |
| ShapePool.Pool.Intern | src/verify.c:12-35 | The index returned stands for the stack asked for; two calls give one index exactly when they ask for the same stack; it gives up only at the depth or node limit, adds nothing then, and never before the entries asked for make up as many cells as there may be nodes. |
| ShapePool.Pool.Probe | src/verify.c:17-21 | Probing finds the node if it is there and otherwise proves it absent and stops at the free slot where it belongs. |
| ShapePool.Pool.Walk | src/verify.c:17-21 | Linear probing from the home slot always ends. |
| ShapePool.Gap | src/verify.c:17-21 | A table that is not full has a free slot on every probe path. |
| ShapePool.Pool.Rehash | src/verify.c:28-33 | The larger table holds exactly the same nodes. |
| ShapePool.Pool.Balance | src/verify.c:27-34 | Growth keeps the table at most three quarters full and loses nothing. |
| ShapeOps.FindCell | src/verify.c:37-39 | Finds the scalar cell at a depth, or none when it is outside or inside a byte block. |
| ShapeOps.SetCell | src/verify.c:40-47 | The result is the stack with only the addressed cell changed, the walk never needs more than 256 places of prefix, and at most one cell more than the depth is asked of the pool. |
| ShapeOps.FrameAccess | src/verify.c:48-56 | A byte access is allowed exactly when it lies inside one live block. |
| ShapeOps.Holds | src/verify.c:57-59 | Compares a stack with a list of declared kinds exactly. |
| TypedCode.PouredIs | src/verify.c:177-191 | Cells moved one at a time arrive in the opposite order, above what was there. |
| TypedCode.StartSound | src/verify.c:82-92 | An instruction start lies in its function and its end is the next start or the end of the function. |
| StaticChecks.CheckAll | src/verify.c:82-151 | The two static passes accept a module exactly when every instruction, target, call and tail contract is in order. |
| StaticChecks.MarkAll | src/verify.c:82-92 | Every instruction start and every function with a HALT is found, or the module does not pass. |
| StaticChecks.FindFunction | src/internal.h:72-75 | The binary search finds the function that starts at an address exactly when there is one. |
| StaticChecks.CheckTargets | src/verify.c:122-129 | Accepts exactly targets that are instruction starts of the function. |
| StaticChecks.CheckCall | src/verify.c:131-143 | Accepts exactly calls whose target is an entry without HALT, with matching argument count and, for tails, matching results. |
| StaticChecks.CheckFunction | src/verify.c:116-151 | Accepts exactly when every instruction start of the function passes. |
| TypedMachine.LocalSound | src/verify.c:170-272 | Every instruction that is not a call or exit: if it fits the shapes before it, executing it on any stacks of these shapes never goes wrong and leaves the predicted shapes at a predicted successor. |
| ShapeTransfer.ApplyOp | src/verify.c:166-276 | Applying an instruction to pool indices is applying the shape transfer: refused exactly when the transfer refuses, otherwise the indices stand for its result; and at most `ShapeTransfer.Room` cells are asked of the pool. |
| ShapeTransfer.ApplyMoving | src/verify.c:171-176 | The same for copies and moves between A and B. |
| ShapeTransfer.ApplyFraming | src/verify.c:177-191 | The same for the frame stack, multi-cell forms and byte blocks included. |
| ShapeTransfer.ApplyComputing | src/verify.c:192-223 | The same for scalar operations, with address equality allowed. |
| ShapeTransfer.ApplyBranching | src/verify.c:224-227 | The same for control inside the function. |
| ShapeTransfer.ApplyTouching | src/verify.c:228-250 | The same for memory accesses. |
| ShapeTransfer.ApplyLeaving | src/verify.c:251-270 | The same for calls, tail calls, return, halt and abort. |
| Inference.MustFlow | src/verify.c:157-286 | Any typing at all must agree with what the work-list has found. |
| Inference.NoFit | src/verify.c:157-286 | An instruction that does not fit leaves no typing. |
| Inference.NoEdge | src/verify.c:282-284 | An edge that leaves the function or meets another shape leaves no typing. |
| Inference.NewEdge | src/verify.c:285-285 | A new place is recorded with its shape and put on the list. |
| Inference.Leave | src/verify.c:157-286 | When all edges of an instruction have been followed it is done for good. |
| Verifier.Verify | src/verify.c:71-294 | Accepts only well typed modules, with the typing every other agrees with and, for every function, max_a, max_b and max_c equal to the largest depths any typed instruction leaves (C from the argument count), rejects only modules that are not well typed, and gives up only on modules whose arguments and instructions together may ask for as many cells as the pool has nodes (`Verifier.ModuleDemand`, a sum over instructions known before the call). |
| Verifier.AcceptedRunsAreSafe | src/verify.c:152-292 | Acceptance means that every run with arguments of the declared kinds, whatever calls and memory produce, stays on instruction starts of its functions, never underflows or meets a wrong kind, has exactly the recorded shapes, stays within max_a, max_b and max_c, and returns exactly the declared results. |
| Verifier.InferFunction | src/verify.c:153-291 | The work-list finds the function's one least typing and the largest depths its instructions leave, shows that it has none, or reaches the pool's limit; whatever the verdict, each instruction is applied at most once, so the cells asked of the pool are bounded by a sum over the function. |
| Verifier.Visit | src/verify.c:158-286 | One instruction from the list: apply it, raise the maxima to the largest depths left so far, follow its edges; it gives up only when the pool has reached its limit, and what it asks of the pool is charged to this instruction once. |
| Verifier.FollowEdge | src/verify.c:278-286 | An edge either meets an equal shape, is recorded and listed, or refutes every typing. |
| Verifier.Deepen | src/verify.c:274-276 | Each maximum becomes the larger of itself and the depth of the shape just left. |
| AcceptedCode.AcceptedChecked | src/residual_c.c:1225-1240 | What the verifier accepts, the specializer can take: in a module of scalar operations, control and direct calls the shapes found give stack depths at which every instruction finds its operands and on which all paths agree. |
| AcceptedCode.OpFlows | src/verify.c:166-286 | An instruction that fits its shape finds its operands, and where it may go the depths are those of the shape it leaves. |
| AcceptedCode.StillScalars | src/verify.c:166-286 | From single cells every instruction of this kind leaves single cells. |
| TypedRuns.WellTypedRunsAreSafe | src/verify.c:152-292 | No run of a well typed module, through any calls, goes wrong. |
| TypedRuns.RunsFollowShapes | src/verify.c:152-292 | At every point of every run the stacks have exactly the typing's shapes, within its bounds. |
| TypedRuns.StepGood | src/verify.c:152-292 | Every step from a good state, calls and returns included, leads to a good state. |
| ControlCode.EnteredIs | src/residual_builder.c:2203-2208 | A function is entered with argument k at depth k of the frame and nothing on the operand stacks. |
| Versions.KeyOfCovers | src/residual_builder.c:851-870 | The key that keeps constants relies on nothing the context does not hold. |
| Versions.ForgottenCovers | src/residual_builder.c:851-870 | Forgetting every constant only generalises. |
| Versions.MeetCovers | src/residual_builder.c:936-963 | Forgetting the constants on which two keys differ only generalises. |
| Versions.WidenedCovers | src/residual_builder.c:936-963 | The widened key still covers the incoming context. |
| Versions.WidenedAt | src/residual_builder.c:936-963 | A constant survives widening exactly when every version of the family fixes the cell to it. |
| Versions.ExactlyOne | src/residual_builder.c:851-870 | What is kept determines the key: two keys that cover a context and fix the same of its constants are equal. |
| Versions.KeepsPasses | src/residual_builder.c:1125-1197 | An edge to a key that keeps every constant passes none. |
| Versions.EntryDenotes | src/residual_builder.c:992-1077 | At block entry the named parameters denote the stacks the key stands for. |
| Versions.EdgeFills | src/residual_builder.c:1125-1197 | Passing a context's cells to a key that covers it rebuilds the context's stacks exactly. |
| Versions.AddLimited | src/residual_builder.c:1110-1122 | A family never has more than eight versions, and its eighth fixes nothing. |
| Versions.TotalBound | src/residual_builder.c:2446-2452 | A function has at most eight versions for each instruction. |
| SymbolicStep.TransferRealizes | src/symbolic.c:141-154 | Moving a symbolic value needs no node and denotes the concrete move. |
| SymbolicStep.CSetRealizes | src/symbolic.c:172-179 | Writing a frame cell symbolically denotes the concrete write. |
| SymbolicStep.BinaryFolds | src/symbolic.c:180-199 | Two constants that cannot trap fold to the operation's value. |
| SymbolicStep.BinaryRealizes | src/residual_builder.c:591-639 | Otherwise one node computes it, trapping exactly as the bytecode does. |
| SymbolicStep.InPlaceRealizes | src/residual_builder.c:662-777 | Unary, immediate and C-operand forms leave one node with the bytecode value. |
| SymbolicStep.CheckRealizes | src/residual_builder.c:798-829 | A check node traps exactly as the bytecode check does. |
| Tracing.TracksPlain | src/residual_builder.c:2283-2353 | One more instruction: the nodes so far still do what the instructions so far do, for every choice of parameters and all callees that agree on the recorded calls. |
| Tracing.TracksCall | src/residual_builder.c:1699-1758 | A call node asks the callee with the same arguments and binds its results as the bytecode pushes them. |
| Tracing.FactsDescribe | src/residual_builder.c:1629-1652 | The facts recorded for a call describe the arguments it passes. |
| Tracing.FactLeast | src/residual_builder.c:1629-1652 | They are the least that do: a fact holds of every value the argument can have exactly when it lies above the one recorded. |
| Exits.FollowLands | src/residual_builder.c:1125-1197 | An edge lands in the state of the bytecode it stands for. |
| Exits.KnownExits | src/residual_builder.c:1209-1231 | A branch on constants becomes one edge, the right one. |
| Exits.BranchExits | src/residual_builder.c:1278-1349 | A branch keeps its relation and operands and goes where the bytecode goes. |
| Exits.SwitchExits | src/residual_builder.c:1233-1276 | A switch goes to the selected arm or the fallback. |
| Exits.SwitchKnownExits | src/residual_builder.c:1209-1231 | A switch on a constant becomes one edge. |
| Exits.TailExits | src/residual_builder.c:1907-1942 | A tail call that leaves the function enters the callee with its arguments. |
| Exits.EmbeddedExits | src/residual_builder.c:1890-1906 | A tail call built into the function becomes an edge to the callee's entry. |
| Exits.ReturnExits | src/residual_builder.c:1944-2009 | A return passes exactly the result stack. |
| Exits.NothingLeft | src/residual_builder.c:616-639 | A reduced block that takes no parameter, calls nothing and is not aborted has no node: code over constants is gone. |
| Exits.CloseBlock | src/residual_builder.c:2283-2353 | A block closed by a matching terminator does what its instructions do. |
| Exits.FallThrough | src/residual_builder.c:2011-2034 | A block that runs into the next leader jumps there. |
| Specializer.Specialize | src/residual_builder.c:2427-2454 | Always succeeds and always ends, for any leaders, loop headers, embedding choices and facts: the result is faithful, each family has at most eight versions, and there are at most eight blocks per instruction. The entry version fixes exactly the arguments whose facts are constants; no node and no choice is left over constants, except calls and operations that trap; and every constant known at a forward edge is fixed by the version it leads to, unless a loop starts there or the family is crowded. |
| Specializer.Builder.VersionFor | src/residual_builder.c:1079-1123 | Which version an edge gets, mode by mode (`Specializer.Wanted`): one that fixes every constant of the context; or none, at a loop; or at a callee's entry all but the arguments whose facts do not allow the constant; or, going back, one that fixes them all if it exists and otherwise exactly those the whole family agrees on. With seven versions in the family and none as wanted, one that fixes nothing. A version is added only if there is none with that key. |
| Specializer.Builder.MakeEdge | src/residual_builder.c:1125-1197 | The shape and "constant version edge mismatch" errors are unreachable, the version is the one wanted, and the edge passes exactly the open cells. |
| Specializer.WantedOne | src/residual_builder.c:1079-1123 | What is wanted is one key. |
| Specializer.Builder.EntryKey | src/residual_builder.c:898-934 | Entering a callee: every constant is kept except arguments that the callee's facts do not allow. |
| Specializer.Builder.GoTo | src/residual_builder.c:1199-1207 | An edge inside a function: to a later instruction that starts no loop it loses no constant, to a loop ahead it keeps none, and going back it asks for the widened key. |
| Specializer.PickedSharp | src/residual_builder.c:1079-1123 | The version chosen for an edge ahead fixes every constant known there unless its family is crowded. |
| Specializer.KeepsStart | src/residual_builder.c:2177-2210 | A version that keeps every constant of the starting context fixes exactly the arguments whose facts are constants. |
| Specializer.Builder.CreateVersion | src/residual_builder.c:992-1077 | A new version is appended with freshly numbered parameters. |
| Specializer.FindVersion | src/residual_builder.c:979-990 | Finds a version with an equal key exactly when there is one. |
| Specializer.CountFamily | src/residual_builder.c:965-977 | Counts the versions of an instruction in the key's family. |
| Specializer.WidenKey | src/residual_builder.c:936-963 | Forgets every constant on which some version of the family differs. |
| Specializer.VirtualKey | src/residual_builder.c:898-934 | Entering a callee, constants stay fixed except arguments whose fact is unknown or another constant. |
| Specializer.PassStack | src/residual_builder.c:1145-1190 | The comparison with the target's constants succeeds exactly when the context holds them, and lists the other cells. |
| Specializer.Builder.OnBinary | src/residual_builder.c:616-639 | Folds, or leaves one node that cannot be folded; either realises the instruction. |
| Specializer.Builder.OnInPlace | src/residual_builder.c:662-777 | The same for unary, immediate and C-operand forms. |
| Specializer.Builder.OnCheck | src/residual_builder.c:798-829 | A check of a constant is decided now, of a value leaves a node. |
| Specializer.Builder.OnBranch | src/residual_builder.c:1209-1349 | Branches: one edge when known, two otherwise. |
| Specializer.Builder.OnSwitch | src/residual_builder.c:1233-1276 | Switches: one edge when known, otherwise the fallback and every arm. |
| Specializer.Builder.OnCall | src/residual_builder.c:1699-1758 | A call leaves one node, records exactly its own argument facts and pushes fresh results. |
| Specializer.Builder.OnTail | src/residual_builder.c:1864-1942 | A tail call is recorded, and built in exactly when its callee returns no bytes and is eligible or already built in; the first time it enters by its facts, later by the widened key. |
| Specializer.Builder.OnControl | src/residual_builder.c:2283-2353 | Every block-ending instruction gets a terminator that goes where it goes. |
| Specializer.Builder.BuildBody | src/residual_builder.c:2283-2353 | Building a version's body ends and adds one correct block, reduced and left by edges that lose no constant they can keep. |
| Specializer.Builder.InitialContext | src/residual_builder.c:2177-2210 | The arguments on the frame, constant where the facts say so. |
| Specializer.Builder.Build | src/residual_builder.c:2427-2454 | Every version made on the way gets its block, and the first keeps every constant the function is entered with. |
| ResidualRuns.MeaningPreserved | src/residual_builder.c:2427-2454 | Partial evaluation preserves meaning: for arguments the facts describe, a residual function ends with given results, or aborts for a given reason, exactly when the bytecode function does. |
| ResidualRuns.LevelsAlike | src/residual_builder.c:2427-2454 | At every depth of calls residual and bytecode functions give the same outcome, silence included. |
| ResidualRuns.EndsAlike | src/residual_builder.c:2427-2454 | A residual activation ends a given way exactly when the bytecode activation does: neither can run on where the other stops. |
| ResidualRuns.HopRelated | src/residual_builder.c:2427-2454 | One residual block is some positive number of bytecode instructions. |
| ResidualRuns.EnterDescribed | src/residual_builder.c:1864-1942 | A block leaves its function only by a recorded call whose facts describe the arguments. |
| ResidualRuns.OneMeaning | src/residual_builder.c:2427-2454 | A function has at most one meaning: more depth of calls never changes an answer. |
| Residualize.ResidualizeEach | src/residual_builder.c:2701-2712 | Residualizing every function once with nothing assumed of its arguments always succeeds and leaves a consistent program. |
| Residualize.EachKeepsMeaning | src/residual_builder.c:2701-2712 | Then every function means what its bytecode means, for every argument list of the right length. |
| Residualize.ResidualizeAll | src/optimize.c:857-873 | The driver always ends, and with a consistent program: every needed function is faithful under its final facts, every call left is covered by its target's facts, and the facts are exactly the join of the calls reported on the way. |
| Residualize.Renew | src/optimize.c:869-873 | One round: residualize a dirty function under its present facts and join its calls. |
| Residualize.RootsKeepMeaning | src/optimize.c:857-873 | Functions entered from outside mean what their bytecode means for every argument list of the right length. |
| OwnerHeap.SurvivesIff | src/owner.c:50-60 | A counted owner survives a complete drain exactly if a root reaches it or a cycle does. |
| OwnerHeap.AcyclicSurvives | src/owner.c:50-60 | On an acyclic heap exactly the owners reachable from roots survive. |
| OwnerHeap.CycleLeaks | src/owner.c:50-60 | Two owners that hold each other are never freed: reachability from roots alone is false with cycles. |
| OwnerHeap.AllFreedOnce | src/vm.c:262-267 | With no root, no cycle and nothing queued, every allocation has been freed, and once. |
| OwnerHeap.FreedNotKept | src/owner.c:50-60 | Nothing freed is reachable from a root or a cycle. |
| OwnerHeap.FreedCounted | src/owner.c:53-58 | Freeing a dead and emptied owner leaves nothing dangling and every count right. |
| OwnerHeap.Joined | src/owner.c:43-48 | An owner whose count reaches zero joins the intrusive queue at the tail, once. |
| OwnerHeap.Popped | src/owner.c:53-55 | Unlinking the head keeps the rest of the queue and its tail. |
| OwnerHeap.SlotWritten | src/owner.c:61-65 | Writing a slot keeps every count equal to the holdings and references in flight. |
| Owners.Runtime.Retain | src/owner.c:20-35 | Raises the count, or fails and changes nothing: on a missing or dead owner or at the count limit; immortal owners are left alone. |
| Owners.Runtime.Release | src/owner.c:36-49 | Gives up one reference; exactly the last one queues the owner, and nothing is freed. |
| Owners.Runtime.Drain | src/owner.c:50-60 | Ends, empties the queue, and frees owners one after the other so that whatever held a freed owner was freed before it. |
| Owners.Runtime.Replace | src/owner.c:61-65 | Retains before releasing, so that a failure leaves slot, counts and queue as they were. |
| Owners.Runtime.Allocate | src/lifetime.c:8-18 | On failure nothing changes; on success the new owner, with null holdings, replaces what the slot held, and what that leaves dead is freed. |
| Owners.Runtime.HoldSlot | src/lifetime.c:19-23 | Holds another owner and frees what that leaves dead, or fails and changes nothing. |
| Owners.Runtime.DropSlot | src/lifetime.c:24-27 | Nulls one holding and releases it, without freeing. |
| Owners.Runtime.ClearSlots | src/lifetime.c:28-32 | Nulls the listed holdings and frees what that leaves dead. |
| Owners.Runtime.EnterFrame | src/lifetime.c:33-36 | Links a new activation before the others. |
| Owners.Runtime.LeaveFrame | src/lifetime.c:37-41 | Fails without change unless the activation is the newest; otherwise unlinks it and drops its holdings. |
| Owners.Runtime.Unwind | src/lifetime.c:51-54 | Drops every activation's holdings, newest first, then drains. |
| Owners.Runtime.Perform | src/lifetime.c:8-41 | Each request fails exactly when it should, changing nothing, and otherwise has exactly its effect. |
| Owners.Runtime.PerformAll | src/lifetime.c:8-41 | Performs requests in order until one fails or is not allowed, recording every state in between. |
| Owners.Runtime.EndCall | src/vm.c:262-267 | Drops every activation and drains, after which counted owners are left exactly if an immortal owner or a cycle reaches them; with neither, everything ever allocated has been freed exactly once. |
| Owners.Runtime.Call | src/vm.c:262-267 | Requests are performed in order until one fails or is not allowed, and then everything is unwound: afterwards no activation and no queued owner is left, what survives is what immortal owners or cycles still reach, the first failure is reported (or a missing leave), and without roots and cycles every owner ever allocated has been freed exactly once. |
| SharedCount.StepSound | src/owner.c:20-49 | Every atomic step of every thread keeps the count equal to the holdings; a protected retain never finds zero, zero is never left again, and nothing touches a freed object. |
| SharedCount.RunsSound | src/owner.c:20-49 | In every interleaving the count is the number of holdings, at most one release has observed one, and the object is freed at most once. |
| SharedCount.QuietFreed | src/owner.c:36-60 | Once no thread holds the object and none is in the middle of anything, exactly one release observed one and the object was freed once. |
| SharedCount.UnprotectedRetain | src/owner.c:25-29 | At every moment of every run a retain begun without a holding finds zero exactly when the last release has come first, and a run where it has is given: the refusal is needed. |
| BankedCache.Cache.Read | src/vm.c:15-19 | Indexed read through the registers and the array is the logical stack's cell. |
| BankedCache.Cache.Depth | src/vm.c:10-14 | The depth reported is the logical depth. |
| BankedCache.Cache.Write | src/vm.c:15-19 | Indexed write changes that logical cell only. |
| BankedCache.Cache.SpillA | src/vm.c:20-34 | Spilling changes no logical stack, with A and B sharing registers from opposite ends. |
| BankedCache.Cache.SpillB | src/vm.c:20-34 | The same for B, whose registers are reversed. |
| BankedCache.Cache.SpillC | src/vm.c:20-34 | The same for C. |
| BankedCache.Cache.Push | src/vm.c:35-44 | Pushing, spilling the same stack or else the other first, is a logical push. |
| BankedCache.Cache.Pop | src/vm.c:45-49 | Popping is a logical pop and returns the logical top. |
| BankedCache.Cache.PublishAll | src/vm.c:50-50 | Afterwards the arrays alone hold the three stacks. |
| IntToDouble.UnsignedRounded | src/vm_internal.h:50-50 | For all 2^64 unsigned inputs the bits decode to the nearest double, ties to even (section 4.3.1 of IEEE 754-2019). |
| IntToDouble.SignedRounded | src/vm_internal.h:49-49 | For all 2^64 signed inputs the bits decode to the nearest double, ties to even. |
| IntToDouble.SmallIntegersExact | src/vm_internal.h:44-48 | Integers below 2^53 are exact. |
| IntToDouble.RoundIs | src/vm_internal.h:46-46 | The shifted significand fits in 53 bits, carry into the next exponent included, and is the chosen multiple. |
| IntToDouble.OnGrid | src/vm_internal.h:44-48 | Any finite double is on the binade's grid or below the binade. |
| LabLanguage.NeedNaive | lab/core.js:1503-1513 | The Ershov number is at most what left-to-right order needs. |
| LabLanguage.NeedLogarithm | lab/core.js:841-857 | The Ershov number is at most one more than the logarithm of the number of leaves. |
| LabMeaning.Evaluates | lab/core.js:768-796 | An accepted expression evaluates to a value in the range of the evaluator's type, and the constant static evaluation finds is that value, or a literal that the evaluator brings to the width. |
| LabMeaning.CountIs | lab/core.js:1003-1010 | The count the compiled shift uses has the same effect as the evaluator's, when counts fit. |
| LabMeaning.KnownStatic | lab/core.js:1382-1391 | Whatever the evaluator counts as known, static evaluation decides. |
| LabArithmetic.PlainStays | lab/core.js:1022-1024 | Operations after which the compiler emits no normalisation need none: 32-bit unsigned division and all 32-bit remainders included. |
| LabArithmetic.DivisionStays | lab/core.js:1022-1024 | A quotient or remainder of half words is a half word, and a signed remainder of sign-extended half words is sign-extended. |
| LabArithmetic.EffectSame | lab/core.js:1007-1008 | Two counts of the same effect, equal or both shifting everything out, shift every number of the width alike. |
| LabArithmetic.EffectDiffers | lab/core.js:1007-1008 | Otherwise some number of the width is shifted differently. |
| LabArithmetic.FailingIs | lab/core.js:1175-1186 | The relation jumped on holds exactly when the comparison fails. |
| LabCorrect.CompileCorrect | lab/core.js:952-1057 | compile(E, dst) leaves the reference evaluator's value as one new cell on dst with nothing else changed, or aborts as the evaluator does; its peak combined depth is at most the Ershov number. |
| LabCorrect.CompileSucceeds | lab/core.js:952-1057 | There is code exactly when static evaluation finds no zero divisor in any part that is compiled. |
| LabCorrect.Compiles | lab/core.js:952-1057 | The induction behind it, for any width a literal is wanted in. |
| LabCorrect.TestCompiles | lab/core.js:1164-1188 | A compiled condition leaves the stacks unchanged and jumps exactly when the evaluator finds it false. |
| LabNumbers.EvalArith | lab/core.js:697-703 | What the evaluator returns, in numbers: the sum, difference or product wrapped round to the width, signed or unsigned; quotient and remainder towards zero, or an abort when the divisor is zero; bits one by one; shifts by powers of two. |
| LabNumbers.EvalCompare | lab/core.js:697-703 | A comparison is one of the operands' signed or unsigned numbers. |
| LabNumbers.EvalUnary | lab/core.js:768-796 | Negation and complement, wrapped round to the width. |
| LabNumbers.EvalNot | lab/core.js:768-796 | Negation of a truth value. |
| LabNumbers.WrappedIs | lab/core.js:677-682 | Wrapping gives the one number in range that differs by a multiple of two to the width. |
| LabNumbers.NormReads | lab/core.js:677-682 | Normalising a cell wraps its number round to the width. |
| LabNumbers.ArithCompiled | lab/core.js:998-1025 | Code compiled for an operator, whatever its operands, leaves the cell that holds the number the operator makes of their numbers, or aborts where an operand does or the divisor is zero. |
| LabNumbers.SumCompiled | lab/core.js:998-1025 | The code for a sum of two bindings leaves the sum of the numbers bound, wrapped round to the width. |
| LabNumbers.LeafFits | lab/core.js:1005-1010 | An operand becomes part of an instruction exactly when it is a constant that fits in a signed byte, or a cell of the frame. |
| LabExact.CountsExact | lab/core.js:1003-1019 | A binding shifted by any count known in advance: compiled code and evaluator agree for every number shifted exactly when the low half of the constant has the effect of what the evaluator shifts by, which is the constant, or the constant brought to the width. |
| LabExact.CountMatters | lab/core.js:1003-1019 | The same for any count that is a constant to the compiler, whatever single value the evaluator finds for it. |
| LabExact.ArmsExact | lab/core.js:1003-1019 | A binding shifted by a choice on a binding between literals, constants and a binding: compiled code and evaluator agree on all frames exactly when the low half of each literal arm has the effect of the arm brought to the width. |
| LabExact.FoldsExact | lab/core.js:783-783 | A shift of a constant by a constant is folded to what the evaluator finds, for every number shifted, exactly when the count as written has the effect of what the evaluator makes of it. |
| LabExact.TruthExact | lab/core.js:1438-1443 | A literal chosen against a truth value by a condition that is decided in advance but not known: compiled code and evaluator agree exactly when the literal is zero or leaves one. |
| LabExact.TruthCounts | lab/core.js:1003-1019 | Such a choice as a count: they agree for every number shifted exactly when the low half of the literal has the effect of the evaluator's truth value. |
| LabExact.EffectExact | lab/core.js:31-33 | Two counts shift every number of the width alike exactly when they have the same effect. |
| LabExact.PartsKnown | lab/core.js:1003-1019 | A shift by 2^32 with 64-bit numbers is an input on which they part. |
| LabExact.PartsArm | lab/core.js:1003-1019 | So is the same literal as an arm of an open choice. |
| LabExact.PartsFolded | lab/core.js:783-783 | So is the literal folded into a shift of a 32-bit constant, chosen by a condition that is not known; a binding shifted by it is right. |
| LabExact.PartsTruth | lab/core.js:1438-1443 | So is three, chosen against a truth value. |

## Left out

- Generated opcode tables, encodings and byte decoding: instructions are values with a length, and the reader's guarantee that functions lie end to end is `TypedCode.Loaded`.
- Floating point apart from integer-to-double conversion, POW, foreign calls, raw pointer contents and image relocation.
- Allocation failure, except of owners, and the doubling of node and value arrays.
- RegisterCache: capacity guards, the table of versions and the jumps between them, memory and call forms, SWITCH and one-operand branches.
- CompileVersion: the machine it runs on is one ghost parameter, on which the code cannot depend, instead of a quantified variable; which version an edge joins is left to the caller.
- CompileBlock: function entries only, as a case of `RegisterCache.CompileVersion`; its machine is a ghost parameter too.
- DoBranch: ends with both operands in registers; the jump itself and its two edges are not emitted.
- RegisterCache: virtual returns with more results than registers.
- CompilePath: a block met twice on a path is compiled twice; which version an edge joins, and the jump there, are left out.
- DagBuild, DagEmit: the step from bytecode to value graph and decision tree (`simulate_tree`, src/optimize.c:361); the graph is taken as given.
- EmitShortcut: emitting a node cannot fail here, since buffers do not run full, so a shortcut that fails has appended nothing and there is nothing to roll back.
- EmitFunction: the depth of A and B in conditions, leaves and back edges; `DagEmit.Emitter.EmitNode` and `DagEmit.Emitter.Prologue` bound it in the code of nodes.
- DagEmit: byte displacements and their ranges, phi trees with a result suffix, nested loops, SWITCH, memory, foreign and call nodes, the choice of what to park (any choice is allowed).
- Verify: the condition for giving up is sufficient, not exact: equal stacks are shared, so a module may ask for more cells than there are nodes and still be decided.
- Verifier: indirect and foreign calls, image accesses (GLOAD, GSTORE, GADDR), XLOAD, INDEX and block copies, load-kind annotations, capability profiles, relocations, exports and lifecycle entries.
- TypedMachine: the bytes in frame blocks and the values that loads, floats and calls produce; they are arbitrary choices.
- CallGraph: src/optimize.c has its own copy with another rule for nested eligibility; the one of src/residual_analysis.c is modelled.
- Facts: the residual calls are an arbitrary function of the facts in `Facts.Propagate`; `Residualize.ResidualizeAll` uses the specializer itself.
- ResidualizeAll: the loop of src/optimize.c:857-873 around the specializer of src/residual_builder.c, a combination of the model's own; the loop calls the graph residualizer of src/optimize.c:725 and keeps a function's bytecode where that fails.
- Renew: one round of that loop, with the same substitution and no fallback.
- RootsKeepMeaning: about that combination when facts are propagated; `Residualize.EachKeepsMeaning` is the case without facts.
- EachKeepsMeaning: functions with unsupported operations, which the builder leaves to their bytecode, are outside the instructions modelled.
- Specializer: residual types on values, memory, indirect and foreign calls, HALT, CPUSHN and CGETR, the maxima kept as metadata; a constant is an operand instead of a node of its own, the entry block is an entry edge, and a component is any set of functions.
- ResidualRuns: functions that never end are silent at every depth and are compared only with each other.
- Owners: owner extents and alignment, and the layout of the structures that cleanup functions walk; compiled code names only existing slots and owners (`Owners.Runtime.Allowed`), and a call stops at a request that does not.
- SharedCount: memory orders; steps are atomic and interleaved.
- IntToDouble: shifts and masks are written as multiplication, division and remainder by powers of two.
- LabCompiler: labels are resolved to skip counts, code is built as a value instead of appended to a buffer; calls, records, `^`, literals that meet only literals, literals and numbers that meet truth values where the compiler sees it, truth values as shift counts, and mixed widths.
- CompileCorrect: expressions whose types the evaluator refuses when it runs, where the compiler does not look (an arm that a decided condition leaves out), are not accepted; nor are literals that such a condition chooses against truth values, of which `LabExact.TruthExact` says when the two agree.
- The SSA validator (src/residual_validate.c), the threaded and native linkers (src/threaded_emit.c, src/native_image.c) and the portable C emitter.
