# Cminusf: verification of the optimiser and the code generators

Cminusf compiles C-minus to an SSA intermediate representation, optimises it, and emits LoongArch assembly. This project
models its hard algorithms in Dafny and proves what they are for: that a transformation keeps the meaning of the
function on every path, that an analysis computes exactly what its name says, and that the loops involved terminate.
`dafny verify dfyconfig.toml` checks everything.

Objects that the compiler updates in place are classes with the same fields, and its loops are loops. Their contracts tie
the new state to a specification, and the lemmas say what the specification means. Iteration over hash sets, whose order
the compiler leaves open, picks an arbitrary element.

The parts, each starting from the one before it where they build on each other:

- **Dominators and SSA construction.** `Graphs`, `DomTrees`, `PostOrders` and `DominatorAnalysis` compute immediate
  dominators by the iterative algorithm, and prove that it terminates and that tree ancestors are exactly dominators; the
  frontiers are exact if and only if the entry block has no predecessor. `MemoryIr`, `ReachingDefs`, `PromotionProof`,
  `RenameState`, `PhiPlacement` and `Mem2RegPass` promote stack variables. A run is judged by its trace, the sequence of
  all other instructions with the values they read, under an oracle that answers them. On every path the promoted
  function has the same trace.
- **Liveness and register allocation.** `Lowered`, `LiveSets`, `LivePositions` and `Liverange` compute exactly which
  values are live where, and each value's interval, over the numbers that `Numbering` describes; `SharedCopies` says when
  tables that go by pairs of phi and source can do so at all. `Intervals` and `Regalloc` scan the intervals; the outcome
  is optimal. `RegisterRun` and `RegisterAssignment` prove that every instruction reads the same values from registers
  and slots as it would from unbounded temporaries. `CallingConvention` says when arguments are left where they arrive.
- **Stack code generator.** `LoongArch` and `Assembly` are a byte-addressed machine, `StackIr` the IR with concrete
  addresses. `Frames` and `FrameAllocation` lay out the frame, `Emission`, `Selection` and `PhiCopies` prove each piece
  of emitted code, `Simulation` and `FunctionCalls` prove that the program follows the IR and serves its callers, and
  `StackCodeGen` emits it.
- **Loops.** `Components` and `LoopAnalysis` contain Tarjan's algorithm and the peeling of loop headers, `LoopForest`
  what the recorded loops are, and `NaturalLoops` that on reducible graphs none is missed, and that a graph is reducible
  exactly if peeling records every component with a cycle that it meets. `TopologicalOrders` and `LoopInvHoist` move
  invariant instructions out of one loop, `LoopTrees` out of one loop after another.
- **Values and uses.** `ValueNumbering`, `LeaderTables`, `Survivors` and `GlobalValueNumberingPass` number values, soundly
  and completely; `SharedMeaning` ties their arithmetic to that of the code generator. `UseDef` is the heap of operands
  and use lists, on which `SimplifyPhis`, `TopologicalOrders` and `LoopInvHoist` work. `DeadCodeElimination` removes what
  nothing needs. `FuncInfos` finds the pure functions, and `PureCalls` says what purity means when functions run.
- **Runs of SSA code.** `SsaRun` runs code along a path of blocks and says which values are at hand where. With it,
  `NumberedRuns`, `PhiRuns`, `HoistRuns` and `HoistStrict` prove that value numbering, phi simplification and hoisting
  keep the trace of every path (all stores, impure calls, branches and returns, in order, with the operands they read)
  and, where passes go on, SSA form. `DuplicatePhis` and `PhiCongruence` do so for replacements that rest on phis.
  `MemoryRuns` adds a memory and calls that execute functions: what value numbering and dead code elimination take for
  granted about pure calls follows. `HeapCode`, `SimplifyRuns` and `HoistedHeap` read the use-def heap as such code.

What the passes rely on is stated as preconditions: all blocks are reachable and nothing jumps to the entry block (which
the front end and the removal of unreachable blocks give); for liveness, that each pair of a phi and a source is copied
in one block only, since the number of a copy is looked up by that pair (without this there is no numbering, and correct
tables exist only if the blocks that share a copy agree on what is live); for registers, that copies stand in blocks with
a single successor; for the removal of an operand, nothing: the lemma says exactly when it goes wrong; for pure
functions, that an address has one pointer to come from, since the analysis follows the first only: without it, exactly
the functions from which calls lead to no stray access behave purely.

Where code and comments disagree, the model follows the code. src/codegen/Regalloc.cpp:41-45 says that giving an argument
the register of its index matches the calling convention. The index counts all parameters, while
src/codegen/CodeGen.cpp:267-273 and 512-521 count integers and floats apart.
`CallingConvention` proves for which signatures the two agree.

## Model

| member | source | states |
|---|---|---|
| `DominatorAnalysis.Dominators.PostOrderVisit` | src/passes/Dominators.cpp:36-44 | keeps the walk invariant: every finished block has a larger number than those it reached first, and the numbers are read back by the list |
| `DominatorAnalysis.Dominators.CreateReversePostOrder` | src/passes/Dominators.cpp:28-34 | the order lists the reachable blocks by falling post-order number, and every block but the entry has a predecessor with a larger number |
| `DominatorAnalysis.Dominators.Climb` | src/passes/Dominators.cpp:91-98 | climbing keeps the set of common ancestors |
| `DominatorAnalysis.Dominators.Intersect` | src/passes/Dominators.cpp:88-101 | terminates with the block whose ancestors are exactly the common ancestors of both arguments |
| `DominatorAnalysis.Dominators.FirstProcessed` | src/passes/Dominators.cpp:62-70 | a predecessor that already has a parent |
| `DominatorAnalysis.Dominators.NewIdom` | src/passes/Dominators.cpp:62-79 | the meet of all processed predecessors |
| `DominatorAnalysis.Dominators.CreateIdom` | src/passes/Dominators.cpp:46-86 | terminates; then every block's parent is the meet of its predecessors and every strict dominator of a block dominates the parent |
| `DominatorAnalysis.Dominators.RunUp` | src/passes/Dominators.cpp:108-112 | adds the block to the frontier of exactly the blocks from the predecessor up to the parent of the block |
| `DominatorAnalysis.Dominators.AddFrontiersOf` | src/passes/Dominators.cpp:106-114 | adds the block to exactly the frontiers that some runner passes |
| `DominatorAnalysis.Dominators.CreateDominanceFrontier` | src/passes/Dominators.cpp:103-116 | the frontiers are exactly {b : x dominates a predecessor of b and not strictly b} if and only if the entry block has no predecessor |
| `DominatorAnalysis.Dominators.CreateDomTreeSucc` | src/passes/Dominators.cpp:118-127 | lists exactly the children of each block |
| `DominatorAnalysis.Dominators.Run` | src/passes/Dominators.cpp:6-26 | every parent is the immediate dominator; frontiers exact if and only if the entry has no predecessor; children exact |
| `DomTrees.AncestorsAreDominators` | src/passes/Dominators.cpp:55-85 | at the fixpoint, ancestors in the tree are exactly the dominators, in both directions |
| `DomTrees.MovesUp` | src/passes/Dominators.cpp:76-83 | in a later pass the new parent is an ancestor of the old one, so blocks only move up |
| `DomTrees.PassStep` | src/passes/Dominators.cpp:57-84 | one update keeps everything a pass relies on: processed blocks settled, ancestor order kept |
| `DomTrees.PairsShrink` | src/passes/Dominators.cpp:55-84 | a change takes an ancestor away from some block and gives none: the measure that ends the loop |
| `DomTrees.AncMove` | src/passes/Dominators.cpp:80-83 | re-hanging a block takes exactly the blocks in between away from the ancestors of those below it |
| `PostOrders.WalkIsPostOrder` | src/passes/Dominators.cpp:28-44 | a finished depth-first walk numbers exactly the reachable blocks, and every strict dominator of a block above it |
| `Mem2RegPass.Mem2Reg.HasInvalidUse` | src/passes/Mem2Reg.cpp:115-125 | true exactly if some use of the variable is not a load from it or a store to it |
| `Mem2RegPass.Mem2Reg.CollectPromotableAllocas` | src/passes/Mem2Reg.cpp:107-132 | exactly the variables that are only loaded and stored |
| `Mem2RegPass.Mem2Reg.CollectDefBlocks` | src/passes/Mem2Reg.cpp:155-169 | exactly the blocks that store to each variable |
| `Mem2RegPass.Mem2Reg.PlacePhis` | src/passes/Mem2Reg.cpp:173-197 | phis of one variable at exactly the least set closed under the frontiers from the storing blocks |
| `Mem2RegPass.Mem2Reg.GeneratePhi` | src/passes/Mem2Reg.cpp:154-199 | the same for all promotable variables; the rest of the body is unchanged |
| `Mem2RegPass.Mem2Reg.ScanBlock` | src/passes/Mem2Reg.cpp:205-231 | pushes exactly the definitions of the block; each promoted load is replaced by the definition that reaches it |
| `Mem2RegPass.Mem2Reg.FillSuccessors` | src/passes/Mem2Reg.cpp:233-241 | every phi of a successor gets the definition that reaches the end of the block, once per edge |
| `Mem2RegPass.Mem2Reg.PopPushed` | src/passes/Mem2Reg.cpp:249-252 | restores the stacks |
| `Mem2RegPass.Mem2Reg.Rename` | src/passes/Mem2Reg.cpp:201-253 | renames exactly the subtree and leaves the stacks as they were |
| `Mem2RegPass.Mem2Reg.DeletePromotedMemoryInstructions` | src/passes/Mem2Reg.cpp:134-152 | erases exactly the promoted accesses and then the variables without remaining uses |
| `Mem2RegPass.Mem2Reg.Run` | src/passes/Mem2Reg.cpp:79-97 | the promoted function has the trace of the original on every path; phis at the least closed sets, one operand per edge, every promotable variable gone |
| `Mem2RegPass.PromoteFunction` | src/passes/Mem2Reg.cpp:79-97 | dominator analysis and promotion together keep the trace of every path; of the allocations exactly those whose address escapes (some use is no load from it and no store to it) are left, and each other variable has a phi exactly in the iterated dominance frontier of its stores |
| `Mem2RegPass.WhatStays` | src/passes/Mem2Reg.cpp:108-152 | in any promoted function the escaping allocations stay, all others are gone, and phis stand in the iterated frontiers only |
| `Mem2RegPass.FinalResult` | src/passes/Mem2Reg.cpp:79-97 | the promoted program, run without cells, has the trace of the original with cells, on every walk |
| `PromotionProof.PromotionKeepsTrace` | src/passes/Mem2Reg.cpp:201-253 | any renaming by reaching definitions, with phi operands per edge, keeps the trace of every walk from the entry |
| `PromotionProof.LoadSeesLastStore` | src/passes/Mem2Reg.cpp:226-229 | what replaces a promoted load evaluates to what was last stored to the variable on the path, or undef |
| `PromotionProof.PathSim` | src/passes/Mem2Reg.cpp:201-253 | along every walk both programs agree on the trace, on all values and on what the cells hold |
| `PromotionProof.EdgeSim` | src/passes/Mem2Reg.cpp:233-241 | crossing an edge, a phi takes what its variable held |
| `ReachingDefs.PredsAgree` | src/passes/Mem2Reg.cpp:171-198 | a block without a phi sees the same reaching definition from every predecessor |
| `ReachingDefs.ReachAvailable` | src/passes/Mem2Reg.cpp:18-29 | the reaching definition is defined on every way to where it is used |
| `PhiPlacement.PlacementSound` | src/passes/Mem2Reg.cpp:171-198 | least closed phi sets meet what renaming needs |
| `PhiPlacement.InsertedStrict` | src/passes/Mem2Reg.cpp:184-189 | inserting phis keeps every operand defined before its use |
| `RenameState.ReplaceLoad` | src/passes/Mem2Reg.cpp:226-228 | the top of the stack is the reaching definition, so the replacement is right |
| `RenameState.StacksPush` | src/passes/Mem2Reg.cpp:207-220 | pushing a definition keeps the stacks in step with the reaching definitions |
| `RenameState.FillOne` | src/passes/Mem2Reg.cpp:235-240 | one phi of one successor gets its operand; all other operands stay right |
| `Lowered.LiveIsLeast` | src/codegen/Liverange.cpp:164-201 | "some path reads the value before redefining it" is contained in every solution of the dataflow equations |
| `Lowered.LiveStep` | src/codegen/Liverange.cpp:102-117 | live before an instruction: used by it, or live after and not defined by it |
| `Lowered.LiveEdge` | src/codegen/Liverange.cpp:31-61 | live at the end of a block: live at the start of some successor |
| `Liverange.LiveRangeAnalyzer.Traverse` | src/codegen/Liverange.cpp:89-97 | visits everything reachable over unvisited blocks, depth first: each block is the first unvisited successor of the last listed block that has one |
| `Liverange.LiveRangeAnalyzer.GetDfsOrder` | src/codegen/Liverange.cpp:86-101 | lists every block once, in depth-first order of the successor lists |
| `Liverange.LiveRangeAnalyzer.MakeId` | src/codegen/Liverange.cpp:63-84 | every instruction and copy has its own number, and the numbers follow execution without a gap from 1 on: block after block in depth-first order, in each the body, the copies in their order, and then the terminator |
| `Numbering.StepsInOrder` | src/codegen/Liverange.cpp:63-84 | earlier steps of a block, and steps of blocks listed earlier, have smaller numbers |
| `Numbering.CopyApartIff` | src/codegen/Liverange.cpp:212-239 | the interval of a source that lives in one block and is last used by its copies ends before that of a target begins if and only if there is only one copy |
| `Liverange.LiveRangeAnalyzer.JoinFor` | src/codegen/Liverange.cpp:31-61 | the union of the successors' live-in sets, also where a block starts with copies |
| `Liverange.LiveRangeAnalyzer.TransferFunction` | src/codegen/Liverange.cpp:103-117 | uses plus what is live after and not defined |
| `Liverange.LiveRangeAnalyzer.ProcessCopyStmts` | src/codegen/Liverange.cpp:119-150 | parallel copies: sources plus what is live after and no target, the same for every copy |
| `Liverange.LiveRangeAnalyzer.VisitOne` | src/codegen/Liverange.cpp:186-191 | an instruction gains what flows to it; change is reported exactly if it gained |
| `Liverange.LiveRangeAnalyzer.VisitBlock` | src/codegen/Liverange.cpp:166-199 | one backward visit of a block, relative to the join over the present table |
| `Liverange.LiveRangeAnalyzer.Solve` | src/codegen/Liverange.cpp:158-201 | terminates, and the tables hold exactly the live values, although changes of copy sets are not counted |
| `Liverange.LiveRangeAnalyzer.MakeInterval` | src/codegen/Liverange.cpp:212-244 | each value's interval is the hull of its table positions; the list is in the order of the scan |
| `Liverange.LiveRangeAnalyzer.TouchAll` | src/codegen/Liverange.cpp:216-231 | widens the interval of every value of a set to a position |
| `Liverange.LiveRangeAnalyzer.InsertInterval` | include/codegen/Liverange.hpp:41-55 | insertion keeps the list in order: arguments first, then by start |
| `Liverange.LiveRangeAnalyzer.Run` | src/codegen/Liverange.cpp:153-210 | live sets exact, intervals the hulls of the live positions, the list ready for the scan, numbers in execution order |
| `LiveSets.VisitSupported` | src/codegen/Liverange.cpp:171-198 | after every visit, recomputing any block can only enlarge its sets |
| `LiveSets.VisitSound` | src/codegen/Liverange.cpp:171-198 | a visit never makes a value live that is not |
| `LiveSets.VisitIdle` | src/codegen/Liverange.cpp:186-198 | a visit that reports no change changes nothing, once the copies agree with their terminators |
| `LiveSets.MissingLess` | src/codegen/Liverange.cpp:190 | a reported change shrinks the set of values still missing: the measure that ends the loop |
| `LiveSets.FixpointIsExact` | src/codegen/Liverange.cpp:158-201 | at a sound fixpoint the tables are exactly liveness |
| `Liverange.FirstPassDone` | src/codegen/Liverange.cpp:162-164 | a first pass without a change is already a fixpoint, since every block but the entry has an earlier predecessor |
| `LivePositions.HullIsExact` | src/codegen/Liverange.cpp:212-239 | the hulls over finished tables are the hulls of the live positions |
| `LivePositions.EntryIsLive` | src/codegen/Liverange.cpp:143-149 | the entry of every copy of a block is liveness at the copies |
| `Regalloc.RegAllocator.ReserveForArg` | src/codegen/Regalloc.cpp:40-72 | each argument of the class whose index among all parameters is below eight gets the register of that index |
| `Regalloc.RegAllocator.ExpireOldIntervals` | src/codegen/Regalloc.cpp:111-119 | drops exactly the intervals that end before the new start, and frees their registers |
| `Regalloc.RegAllocator.FindNextUnset` | src/codegen/Regalloc.cpp:100-103 | the first free register |
| `Regalloc.RegAllocator.SpillAtInterval` | src/codegen/Regalloc.cpp:121-150 | gives up the interval that ends last among the active instructions and the new one; arguments stay |
| `Regalloc.RegAllocator.FindVictim` | src/codegen/Regalloc.cpp:124-129 | the last active interval that is no argument |
| `Regalloc.RegAllocator.AllocateOrSpill` | src/codegen/Regalloc.cpp:94-107 | one candidate handled: the tables stay consistent, and as many values as before can still be kept |
| `Regalloc.RegAllocator.LinearScan` | src/codegen/Regalloc.cpp:75-109 | no register shared by overlapping intervals, arguments pinned, and no other assignment keeps more of the instructions that compete: those of the class with a use that are no alloca and no comparison used by one branch only. No other instruction gets a register, and all that compete do if pressure over them and the pinned arguments never exceeds the number of registers |
| `Regalloc.RegAllocator.FewestSpills` | src/codegen/Regalloc.cpp:75-150 | no assignment for the competing instructions that keeps the pinned arguments holds more values in registers |
| `Regalloc.RegAllocator.NoNeedlessSpill` | src/codegen/Regalloc.cpp:94-99 | no competing instruction is spilled if pressure never exceeds the number of registers |
| `Regalloc.RegAllocator.NoneLeftOut` | src/codegen/Regalloc.cpp:12-38 | of the instructions exactly those that are used, yield a value, are no alloca and no comparison for a branch alone compete for a register; all of them get one when there are enough |
| `Regalloc.RegAllocator.FurthestSpilled` | src/codegen/Regalloc.cpp:132-149 | spilling the interval that ends last loses nothing that could have been kept |
| `Intervals.SpillFurthest` | src/codegen/Regalloc.cpp:132-138 | the exchange argument: a largest set of intervals exists without the one that ends last |
| `Intervals.ColorsFit` | src/codegen/Regalloc.cpp:94-107 | registers that are not shared bound the pressure everywhere |
| `RegisterRun.RunsAgree` | src/codegen/Regalloc.cpp:75-109 | if no step overwrites the place of another live value, every path reads the same values as with unbounded temporaries |
| `RegisterRun.StepAgrees` | src/codegen/Liverange.cpp:119-150 | one instruction, or one group of parallel copies, keeps the live values the same in both stores |
| `RegisterAssignment.LiveAfterEveryDef` | src/codegen/Liverange.cpp:212-239 | a value that is live anywhere is live right after each of its definitions, phis included |
| `RegisterAssignment.CoversAfter` | src/codegen/Liverange.cpp:233-238 | what is live after a step has an interval over the position after it |
| `RegisterAssignment.AssignmentSeparates` | src/codegen/Regalloc.cpp:75-109 | intervals and scan together never give clashing places to a written value and a live one |
| `RegisterAssignment.AssignRegisters` | src/codegen/Regalloc.cpp:75-150 | liveness and both scans: every operand read on every path yields the same value as with unbounded temporaries; integer and float arguments whose index among all parameters is below eight are in the register of that index and the others in memory; and for each register bank, with its own number of registers, no assignment for the same exact intervals, numbered in execution order, spills fewer of the instructions that need a register, and with enough registers none is spilled |
| `CallingConvention.AsPassedIff` | src/codegen/Regalloc.cpp:40-72 | integers and floats are where the prologue and calls pass them, counting each bank apart, if and only if those passed in registers have only parameters of their own bank before them |
| `CallingConvention.OneAsPassed` | src/codegen/CodeGen.cpp:267-273 | the same for one argument |
| `CallingConvention.IntAfterFloat` | src/codegen/CodeGen.cpp:512-521 | an integer after a float is passed in the first integer register and looked for in the second |
| `CallingConvention.IntAfterEightFloats` | src/codegen/CodeGen.cpp:267-273 | an integer after eight floats is passed in the first integer register and looked for in memory |
| `RegisterAssignment.ScanSpillsLeast` | src/codegen/Regalloc.cpp:75-150 | the finished scan, read as an assignment, keeps the most values of any assignment that respects the pinned arguments and the overlaps |
| `Components.GroupIsScc` | src/passes/LoopInfo.cpp:133-144 | when nothing on top of a block has an edge below it, the blocks from it up are a strongly connected component |
| `Components.CloseRootSound` | src/passes/LoopInfo.cpp:134-144 | closing a component keeps everything the search relies on |
| `Components.CloseInnerSound` | src/passes/LoopInfo.cpp:133-134 | leaving a block that is no root keeps it too |
| `Components.ScanTree` | src/passes/LoopInfo.cpp:121-123 | the low link after visiting a child |
| `Components.ScanBack` | src/passes/LoopInfo.cpp:124-127 | the low link after an edge back into the stack |
| `LoopAnalysis.LoopInfo.Traverse` | src/passes/LoopInfo.cpp:111-142 | visits everything reachable, closes complete components only, and returns a low link that some block on the stack witnesses |
| `LoopAnalysis.LoopInfo.PopGroup` | src/passes/LoopInfo.cpp:135-142 | pops exactly the blocks from the root up |
| `LoopAnalysis.LoopInfo.FindScc` | src/passes/LoopInfo.cpp:100-151 | terminates with exactly the strongly connected components of the induced subgraph |
| `LoopAnalysis.LoopInfo.FindLoopHeader` | src/passes/LoopInfo.cpp:35-49 | the only block entered from outside the component or from the entry block, if there is exactly one |
| `LoopAnalysis.LoopInfo.RecordRound` | src/passes/LoopInfo.cpp:169-207 | records exactly the loops of the round with consistent tables, and leaves fewer blocks |
| `LoopAnalysis.LoopInfo.RecordLoop` | src/passes/LoopInfo.cpp:179-190 | links loop, base and blocks; the recorded innermost loops stay the smallest |
| `LoopAnalysis.LoopInfo.Run` | src/passes/LoopInfo.cpp:153-213 | terminates with exactly the loops that peeling defines, each under its base |
| `LoopAnalysis.LoopInfo.GetInnermost` | include/passes/LoopInfo.hpp:28-34 | the smallest recorded loop around the block, none exactly if there is none |
| `LoopAnalysis.FindLoops` | src/passes/LoopInfo.cpp:153-213 | exactly the loops that peeling defines, with their bases |
| `LoopForest.RecordedLoop` | src/passes/LoopInfo.cpp:169-190 | a recorded loop is strongly connected inside itself, has a cycle, and every edge into it targets its base |
| `LoopForest.NestedOrDisjoint` | src/passes/LoopInfo.cpp:163-207 | two recorded loops are equal, disjoint, or one lies in the other without the outer base |
| `LoopForest.BasesDiffer` | src/passes/LoopInfo.cpp:188-191 | different loops have different bases |
| `LoopForest.BaseDominates` | src/passes/LoopInfo.cpp:35-49 | the base dominates every block of its loop |
| `LoopForest.RestSmaller` | src/passes/LoopInfo.cpp:192-206 | every round removes a block |
| `NaturalLoops.NaturalLoopFound` | src/passes/LoopInfo.cpp:153-213 | on a reducible graph (every strongly connected set of blocks with a cycle has a block that dominates it), every edge back to a dominator gives a recorded loop with that base around its natural loop |
| `NaturalLoops.ReducibleIff` | src/passes/LoopInfo.cpp:168-207 | a graph is reducible if and only if peeling can record every component with a cycle that it meets |
| `NaturalLoops.HeadedHasOneEntry` | src/passes/LoopInfo.cpp:35-49 | a component that peeling meets and one of its blocks dominates is entered by that block only |
| `NaturalLoops.CycleStays` | src/passes/LoopInfo.cpp:192-206 | as long as peeling leaves the block that dominates a cycle, it leaves the whole cycle |
| `NaturalLoops.BranchingLoopReducible` | src/passes/LoopInfo.cpp:168-207 | a loop around two branches is reducible |
| `NaturalLoops.NaturalConnected` | src/passes/LoopInfo.cpp:163-207 | a natural loop is strongly connected |
| `FrameAllocation.AlignWordRounds` | include/codegen/CodeGenUtil.hpp:13-15 | adding and masking 32-bit words rounds up to the next multiple, for all four alignments, as long as the sum does not wrap around; the frame's slots are packed with it |
| `FrameAllocation.MaskClears` | include/codegen/CodeGenUtil.hpp:13-15 | masking with the complement of a power of two less one takes the remainder away |
| `FrameAllocation.PackSlot` | src/codegen/CodeGen.cpp:24-27 | a new slot is aligned and apart from everything placed |
| `FrameAllocation.PackTemp` | src/codegen/CodeGen.cpp:29-33 | so is a phi's second slot |
| `FrameAllocation.PackArea` | src/codegen/CodeGen.cpp:35-40 | so is the memory of an allocation |
| `StackCodeGen.CodeGen.Allocate` | src/codegen/CodeGen.cpp:8-45 | slots, temporaries and allocations are pairwise disjoint, slots aligned to their size, all between the two saved words and the end of the frame, whose size is a multiple of sixteen |
| `StackCodeGen.CodeGen.AllocateSlot` | src/codegen/CodeGen.cpp:15-27 | one value placed, everything else where it was |
| `StackCodeGen.CodeGen.AllocatePhi` | src/codegen/CodeGen.cpp:22-34 | two slots for a phi |
| `Emission.LargeInt32` | src/codegen/CodeGen.cpp:55-60 | lu12i.w and ori leave exactly the given 32-bit value, sign-extended (section 2.2.1 of the LoongArch Reference Manual, Volume 1) |
| `Emission.LargeInt64` | src/codegen/CodeGen.cpp:62-72 | the four-instruction sequence leaves exactly the given 64-bit value |
| `StackCodeGen.CodeGen.LoadInt32` | src/codegen/CodeGen.cpp:47-53 | the emitted code sets the register and nothing else; its immediates fit |
| `StackCodeGen.CodeGen.LoadLargeInt32` | src/codegen/CodeGen.cpp:55-60 | the same for any 32-bit value |
| `StackCodeGen.CodeGen.LoadLargeInt64` | src/codegen/CodeGen.cpp:62-72 | the same for any 64-bit value |
| `StackCodeGen.CodeGen.LoadFromStack` | src/codegen/CodeGen.cpp:111-136 | loads the slot, near or far, changing only the register and the scratch register |
| `StackCodeGen.CodeGen.StoreToStack` | src/codegen/CodeGen.cpp:158-183 | writes exactly the slot's bytes |
| `StackCodeGen.CodeGen.LoadToGreg` | src/codegen/CodeGen.cpp:74-87 | the register holds the operand's IR value |
| `StackCodeGen.CodeGen.StoreFromGreg` | src/codegen/CodeGen.cpp:150-152 | the slot then stands for the instruction's result, and everything else stands as before |
| `Frames.StoreSlot` | src/codegen/CodeGen.cpp:150-152 | writing a value's slot defines it and disturbs no other value, no program memory and neither of the two saved words |
| `Frames.StoreUser` | src/codegen/CodeGen.cpp:413-435 | a store of the program disturbs no slot and neither of the two saved words |
| `LoongArch.ReadWritten` | src/codegen/CodeGen.cpp:111-183 | what is written to a slot is what is read from it |
| `LoongArch.XorZero` | src/codegen/CodeGen.cpp:442-449 | exclusive or vanishes exactly on equal numbers |
| `Selection.CmpCodeDecides` | src/codegen/CodeGen.cpp:441-466 | the comparison code leaves one exactly if the predicate holds |
| `Selection.GepStep` | src/codegen/CodeGen.cpp:540-551 | each index adds its value times the size of what it steps over |
| `Selection.PartialIsOffset` | src/codegen/CodeGen.cpp:540-551 | index by index adds up to the IR's distance |
| `StackCodeGen.CodeGen.GenBinary` | src/codegen/CodeGen.cpp:327-350 | implements the 32-bit operation, division truncating toward zero |
| `StackCodeGen.CodeGen.GenIcmp` | src/codegen/CodeGen.cpp:437-469 | implements all six comparisons |
| `StackCodeGen.CodeGen.GenZext` | src/codegen/CodeGen.cpp:502-506 | implements the extension |
| `StackCodeGen.CodeGen.GenLoad` | src/codegen/CodeGen.cpp:391-411 | implements the load |
| `StackCodeGen.CodeGen.GenStore` | src/codegen/CodeGen.cpp:413-435 | implements the store |
| `StackCodeGen.CodeGen.GenAlloca` | src/codegen/CodeGen.cpp:376-389 | the result is the address of the allocation's own memory |
| `StackCodeGen.CodeGen.GenGep` | src/codegen/CodeGen.cpp:534-553 | implements the address computation with wrap-around |
| `StackCodeGen.CodeGen.CollectPhiCopies` | src/codegen/CodeGen.cpp:197-222 | one source per phi, the one for the predecessor |
| `StackCodeGen.CodeGen.EmitParallelPhiCopies` | src/codegen/CodeGen.cpp:224-251 | all phis change at once, swaps and cycles included, and no byte outside their slots and temporaries changes |
| `PhiCopies.AfterIsCross` | src/codegen/CodeGen.cpp:224-251 | assigning the phis one by one from saved values is assigning them at once |
| `PhiCopies.EdgeCopied` | src/codegen/CodeGen.cpp:224-251 | saving and writing all phis crosses the edge |
| `StackCodeGen.CodeGen.GenBr` | src/codegen/CodeGen.cpp:302-325 | a branch with copies on each edge, under a fresh edge label |
| `StackCodeGen.CodeGen.GenRet` | src/codegen/CodeGen.cpp:286-300 | the result goes to $a0, or zero if there is none |
| `StackCodeGen.CodeGen.GenBlock` | src/codegen/CodeGen.cpp:622-688 | label, instructions and terminator of a block |
| `StackCodeGen.CodeGen.Run` | src/codegen/CodeGen.cpp:604-692 | frame laid out; prologue, sound code for every block, and epilogue, under labels that never clash |
| `Simulation.ProgramFollows` | src/codegen/CodeGen.cpp:604-692 | on every path of the IR the program reaches the block's label with memory that stands for the IR state; the words at $fp-8 and $fp-16, the stack pointer and the registers that belong to the caller are as they were |
| `Simulation.ProgramReturns` | src/codegen/CodeGen.cpp:286-300 | when the IR returns, the program reaches its exit with the result in $a0, and the saved words as they were |
| `Simulation.BranchRuns` | src/codegen/CodeGen.cpp:302-325 | a branch reaches the block the IR goes to, its phis assigned |
| `FunctionCalls.CompiledFollows` | src/codegen/CodeGen.cpp:604-692 | compiled code follows the IR for every frame pointer, start and path, and leaves the saved words as they were |
| `StackCodeGen.CodeGen.GenPrologue` | src/codegen/CodeGen.cpp:253-275 | from a call with any arguments, the code saves $ra and $fp, sets up the frame, and stores each argument to its slot |
| `StackCodeGen.CodeGen.GenEpilogue` | src/codegen/CodeGen.cpp:278-284 | emits the label of the exit and the code that gives back $sp, $ra and $fp |
| `FunctionCalls.SavedNow` | src/codegen/CodeGen.cpp:255-256 | after the two stores both words are where the epilogue looks for them, and nothing that the program may touch has changed |
| `FunctionCalls.EntersMore` | src/codegen/CodeGen.cpp:267-274 | one more argument in its slot, the argument registers still as passed |
| `FunctionCalls.Left` | src/codegen/CodeGen.cpp:280-283 | whatever the body has done, the epilogue gives back every register that belongs to the caller, and $ra |
| `FunctionCalls.FramedServes` | src/codegen/CodeGen.cpp:604-692 | prologue, following code and epilogue together serve every call |
| `StackCodeGen.Compile` | src/codegen/CodeGen.cpp:604-692 | called with any arguments of the right types, the emitted program follows the IR on every path from its first instruction on; when the IR returns, it jumps back with the result in $a0, the memory as the IR leaves it, and $ra, $fp, $sp and the other registers of the caller restored |
| `ValueNumbering.FinalizeSound` | src/passes/GlobalValueNumbering.cpp:156-173 | sorting operands and turning a comparison around keeps the value |
| `ValueNumbering.FinalizeCanonical` | src/passes/GlobalValueNumbering.cpp:156-173 | both orders of a commutative operation, and a comparison and its mirror image, have one form |
| `ValueNumbering.ComputeSound` | src/passes/common/ConstFolder.cpp:30-67 | folding two constants gives the instruction's value |
| `ValueNumbering.ComputeOneSound` | src/passes/common/ConstFolder.cpp:134-140 | so does folding an extension |
| `ValueNumbering.EqualNumbersEqualValues` | src/passes/GlobalValueNumbering.cpp:271-395 | equal numbers mean equal values, whatever arguments, loads, impure calls and pure functions return |
| `ValueNumbering.CongruentShare` | src/passes/GlobalValueNumbering.cpp:219-231 | operations with the same canonical expression have the same number, unless folded |
| `ValueNumbering.ExprMeans` | src/passes/GlobalValueNumbering.cpp:397-409 | the value of an instruction is that of its expression over numbers |
| `ValueNumbering.AddExpr` | src/passes/GlobalValueNumbering.cpp:219-231 | a new expression keeps the tables sound |
| `ValueNumbering.KnownExpr` | src/passes/GlobalValueNumbering.cpp:219-231 | a known expression gives a number of equal value |
| `ValueNumbering.ValueTable.GetConstant` | src/passes/GlobalValueNumbering.cpp:233-249 | the constant known for a value |
| `ValueNumbering.ValueTable.TryFoldConst` | src/passes/GlobalValueNumbering.cpp:251-269 | an operation is folded exactly if all its operands are known integer constants on which it can be computed (no division by zero), and to a constant of its value |
| `ValueNumbering.ValueTable.CreateExpr` | src/passes/GlobalValueNumbering.cpp:397-409 | numbers all operands and gives the canonical expression |
| `ValueNumbering.ValueTable.AssignExpNewValueNum` | src/passes/GlobalValueNumbering.cpp:219-231 | the number of the expression, new if it is new; tables stay sound |
| `ValueNumbering.ValueTable.LookupOrAdd` | src/passes/GlobalValueNumbering.cpp:271-395 | given numbers stay and all three tables stay sound; an operation that could be folded has been |
| `GlobalValueNumberingPass.Gvn.ScanIns` | src/passes/GlobalValueNumbering.cpp:686-717 | an instruction that defines a value is replaced by the leader of its number, or else by its constant, or else leads its number, and nothing else changes; the invariants of the walk are kept |
| `GlobalValueNumberingPass.Gvn.AnalyzeGVN` | src/passes/GlobalValueNumbering.cpp:677-731 | after the subtree the leaders are as before; replacements have the value, come before, and are not replaced themselves; everything in the subtree is replaced, or is no known constant and apart from all that stands above it |
| `GlobalValueNumberingPass.Gvn.RunOnFunction` | src/passes/GlobalValueNumbering.cpp:605-615 | all replacements are sound, none is replaced itself, and every instruction of the function has been dealt with |
| `GlobalValueNumberingPass.ReplacementDominates` | src/passes/GlobalValueNumbering.cpp:694-698 | the replacement stands earlier in the block or in a strictly dominating block |
| `GlobalValueNumberingPass.NumberFunction` | src/passes/GlobalValueNumbering.cpp:587-621 | with the dominator analysis: every replacement has the same value and dominates what it replaces; of the values that stay, none is a known constant and no two, one before the other, share a number; rewriting all uses keeps the trace of every path of any code with these values; no operation that is kept could be folded once its operands are replaced, and none repeats a kept one that comes before it, also with operands swapped or a comparison mirrored |
| `Survivors.NothingRedundant` | src/passes/GlobalValueNumbering.cpp:677-720 | stated on instructions and their replaced operands alone: nothing that is kept is foldable, or computes the same as something kept that comes before it |
| `SharedMeaning.SameArithmetic` | src/passes/common/ConstFolder.cpp:41-55 | arithmetic means the same 32-bit numbers to value numbering as to the code generator |
| `SharedMeaning.SameComparison` | src/passes/common/ConstFolder.cpp:56-67 | and so do comparisons |
| `SharedMeaning.FoldedAsRun` | src/passes/common/ConstFolder.cpp:41-55 | folding gives the constant that running the operation would give |
| `SharedMeaning.ComparedAsRun` | src/passes/common/ConstFolder.cpp:56-67 | folding a comparison gives the one-bit constant that running it would give |
| `SharedMeaning.ExtendedAsRun` | src/passes/common/ConstFolder.cpp:134-140 | an extension means the same number to both |
| `Survivors.DealtHere` | src/passes/GlobalValueNumbering.cpp:694-717 | an instruction that leads its number is apart from everything above it |
| `Survivors.AllDistinct` | src/passes/GlobalValueNumbering.cpp:677-731 | when the walk is done, a value that stays shares its number with no value that stays and comes before it by dominance |
| `Survivors.NoneCongruent` | src/passes/GlobalValueNumbering.cpp:686-717 | of two operations that stay, one before the other, the canonical expressions differ |
| `NumberedRuns.ValuesMean` | src/passes/GlobalValueNumbering.cpp:271-395 | on every path, loops included, every value at hand is what its graph means under the present values of phis, loads and calls |
| `NumberedRuns.MeaningStays` | src/passes/GlobalValueNumbering.cpp:271-395 | what a graph means depends only on what is at hand where it is defined |
| `NumberedRuns.NumberingKeepsRuns` | src/passes/GlobalValueNumbering.cpp:613-615 | replacing all uses by values of the same meaning that come before keeps the trace of every path |
| `DuplicatePhis.EliminateDuplicatePhis` | src/passes/GlobalValueNumbering.cpp:650-675 | exactly the phis that come after another one with their operands are replaced, by the first of these; of two phis with the same operands at most one is kept |
| `DuplicatePhis.EliminateAllDuplicates` | src/passes/GlobalValueNumbering.cpp:650-675 | the same for all blocks of a function |
| `DuplicatePhis.DuplicatesEqual` | src/passes/GlobalValueNumbering.cpp:650-675 | on every path two phis of a block with the same operands are equal wherever they are at hand |
| `DuplicatePhis.DuplicatesKeepRuns` | src/passes/GlobalValueNumbering.cpp:613-615 | so replacing them keeps the trace of every path |
| `PhiCongruence.CongruentEqual` | src/passes/GlobalValueNumbering.cpp:444-554 | an operation that on every edge into its block gives what comes in there with a phi, or what an earlier value or a constant is, is equal to that on every path wherever it is at hand |
| `PhiCongruence.ResultNow` | src/passes/GlobalValueNumbering.cpp:422-442 | an operation over phis of its block is the operation on what comes in, at the end of the predecessor |
| `PhiCongruence.BeforeNow` | src/passes/GlobalValueNumbering.cpp:518-532 | a value that is the same on every edge keeps its value on the way through the block, even if it stands in the block |
| `PhiCongruence.AllReplacementsKeepRuns` | src/passes/GlobalValueNumbering.cpp:605-615 | equal numbers, duplicate phis and congruent operations: replacing everything that any of them finds keeps the trace of every path |
| `MemoryRuns.RunCorresponds` | src/passes/FuncInfo.cpp:4-63 | a run with a memory in which calls execute functions is, if calls that are not critical are calls of pure functions, a run whose results depend on operands and critical instructions only |
| `MemoryRuns.AnalysedCallees` | src/passes/FuncInfo.cpp:4-63 | for that it is enough that the analysis does not call the functions impure |
| `MemoryRuns.ImplementsCalls` | src/passes/GlobalValueNumbering.cpp:301-313 | equal operands of pure calls give equal results: derived, where value numbering assumes it |
| `MemoryRuns.NumberingKeepsEffects` | src/passes/GlobalValueNumbering.cpp:301-313 | value numbering with pure calls keeps every effect and the memory |
| `MemoryRuns.SweepKeepsEffects` | src/passes/DeadCode.cpp:96-133 | deleting dead code, pure calls included, keeps every effect and the memory |
| `SsaRun.RewrittenRun` | src/lightir/Value.cpp:24-31 | if on every path a value is equal to what replaces it wherever it is at hand, replacing all uses keeps every run |
| `UseDef.Value.AddUse` | src/lightir/Value.cpp:15-17 | appends the use |
| `UseDef.Value.RemoveUse` | src/lightir/Value.cpp:19-22 | removes every occurrence of the use |
| `UseDef.Value.SetOperand` | src/lightir/User.cpp:5-14 | keeps operands and use lists in step |
| `UseDef.Value.AddOperand` | src/lightir/User.cpp:16-20 | keeps them in step |
| `UseDef.Value.RemoveAllOperands` | src/lightir/User.cpp:22-28 | keeps them in step, leaving no operand |
| `UseDef.Value.RemoveOperand` | src/lightir/User.cpp:30-40 | keeps them in step if and only if the next operand is another value |
| `UseDef.RemoveOpKeeps` | src/lightir/User.cpp:30-40 | the same about the specification: exactly when neighbouring operands differ |
| `UseDef.RemovedWithNeighbour` | src/lightir/User.cpp:30-40 | a user that holds a value twice in a row: after removing the first, the value is still held and no longer listed |
| `UseDef.SetOpKeeps` | src/lightir/User.cpp:5-14 | setting a slot moves it from the old value's list to the new one's |
| `UseDef.Value.ReplaceAllUseWith` | src/lightir/Value.cpp:24-31 | terminates with no use left; exactly the former uses point at the new value |
| `UseDef.Value.ReplaceUseWithIf` | src/lightir/Value.cpp:33-43 | exactly the uses that satisfy the predicate change |
| `SimplifyPhis.FindReplacement` | src/passes/SimplifyPhi.cpp:96-111 | the only incoming value apart from the phi itself; null exactly if there is none or more than one |
| `SimplifyPhis.SimplifyFunction` | src/passes/SimplifyPhi.cpp:47-94 | terminates; no surviving phi has a single other incoming value, and nothing refers to an erased phi; read as code in SSA form, every path keeps its trace |
| `PhiRuns.SourceDominates` | src/passes/SimplifyPhi.cpp:96-111 | the only other incoming value is defined in a block that strictly dominates the phi's |
| `PhiRuns.PhiIsSource` | src/passes/SimplifyPhi.cpp:75-80 | on every path, the phi has that value wherever it is at hand |
| `PhiRuns.PhiReplaced` | src/passes/SimplifyPhi.cpp:75-80 | replacing the phi by it everywhere keeps the trace of every path |
| `PhiRuns.StaysWellFormed` | src/passes/SimplifyPhi.cpp:75-80 | and keeps the code in SSA form, so it can be done again |
| `HeapCode.BodyReplaced` | src/lightir/Value.cpp:24-31 | replacing all uses on the heap is replacing all uses in the code |
| `SimplifyRuns.RemovedSame` | src/passes/SimplifyPhi.cpp:83-93 | taking out the erased phis, which nothing uses, keeps every trace |
| `SimplifyPhis.ReplaceOne` | src/passes/SimplifyPhi.cpp:75-80 | replacing a phi settles it, and only its users have to be looked at again |
| `TopologicalOrders.ComputeTopologicalOrder` | src/passes/LoopInvHoist.cpp:91-141 | a permutation with every in-set operand first, or none exactly if the set has a cycle |
| `TopologicalOrders.NoOrderOfCyclic` | src/passes/LoopInvHoist.cpp:136-140 | a set with a cycle has no such order |
| `TopologicalOrders.ListedAsHeld` | src/passes/LoopInvHoist.cpp:124-133 | a value is listed for a user as often as the user holds it, so counting uses counts operands |
| `TopologicalOrders.ReleaseUse` | src/passes/LoopInvHoist.cpp:124-133 | releasing one use keeps the counts exact |
| `LoopInvHoist.LoopHoister.IsLoopInvariant` | src/passes/LoopInvHoist.cpp:28-63 | with its cache, exactly the values into which nothing assigned in the loop goes |
| `LoopInvHoist.LoopHoister.CollectLoopInvariantInstructions` | src/passes/LoopInvHoist.cpp:66-89 | exactly the invariant movable instructions outside handled inner loops |
| `LoopInvHoist.LoopHoister.HoistFromCurrentLoop` | src/passes/LoopInvHoist.cpp:143-188 | moves them, in order, before the terminator of the only preheader, and changes nothing if there is none; read as code in SSA form, every path keeps its trace; an instruction moves exactly if it may move, stands in the loop outside those handled before, and each operand is outside the loop or moves too |
| `LoopInvHoist.MovedExactly` | src/passes/LoopInvHoist.cpp:29-62 | the invariant instructions are the set that this equation describes |
| `LoopTrees.HasPreheaderIff` | src/passes/LoopInvHoist.cpp:149-163 | there is a preheader exactly if one edge enters the base from outside, from a block with no other successor |
| `LoopTrees.LoopHoistPass.HoistInvariants` | src/passes/LoopInvHoist.cpp:191-211 | a loop after the loops inside it: each is hoisted from exactly as one loop is, with the loops before it handled |
| `LoopTrees.LoopHoistPass.Run` | src/passes/LoopInvHoist.cpp:234-251 | all trees, each starting with nothing handled; if every loop is entered by its base only, the code is in SSA form again and every path keeps its trace, whatever the shape of the trees |
| `LoopTrees.StagesFaithful` | src/passes/LoopInvHoist.cpp:191-211 | any sequence of such steps keeps SSA form and the trace of every path |
| `LoopTrees.StepOk` | src/passes/LoopInvHoist.cpp:143-188 | one step leaves lists and parents as the next needs them |
| `HoistStrict.MovedStrict` | src/passes/LoopInvHoist.cpp:174-187 | the hoisted code is in SSA form |
| `HoistStrict.OutsideDominates` | src/passes/LoopInvHoist.cpp:149-163 | what dominates a block of the loop from outside dominates the preheader, so operands are at hand there |
| `LoopInvHoist.LoopHoister.MoveAll` | src/passes/LoopInvHoist.cpp:174-187 | the other blocks lose exactly what moved |
| `LoopInvHoist.OperandsMove` | src/passes/LoopInvHoist.cpp:51-58 | operands of a moved instruction lie outside the loop or move too |
| `LoopInvHoist.NoCircle` | src/passes/LoopInvHoist.cpp:166-170 | what moves is never cyclic, so an order exists |
| `HoistRuns.RunsTogether` | src/passes/LoopInvHoist.cpp:143-188 | on every path, wherever the original is, the hoisted code has the same trace and the same values at hand, and inside the loop the moved values are those of the present operands |
| `HoistRuns.HoistingKeepsRuns` | src/passes/LoopInvHoist.cpp:143-188 | so hoisting keeps the trace of every path |
| `HoistRuns.ComputeAll` | src/passes/LoopInvHoist.cpp:177-185 | run in order in the preheader, every moved instruction has the value that its operands give |
| `HoistRuns.PreheaderDominates` | src/passes/LoopInvHoist.cpp:149-163 | the only block outside that precedes the header strictly dominates the loop |
| `HoistedHeap.HeapHoisted` | src/passes/LoopInvHoist.cpp:143-188 | the block lists after hoisting, read as code, have the runs of those before |
| `FuncInfos.FuncInfo.TrivialMark` | src/passes/FuncInfo.cpp:25-49 | impure by itself: declared only, main, pointer parameter, or a non-local access |
| `FuncInfos.FuncInfo.Process` | src/passes/FuncInfo.cpp:51-63 | marks the callers of one impure function |
| `FuncInfos.FuncInfo.Run` | src/passes/FuncInfo.cpp:4-17 | impure exactly if a chain of calls leads to a function impure by itself |
| `PureCalls.PureIffContained` | src/passes/FuncInfo.cpp:65-109 | calls of a function leave shared memory alone and return the same for the same arguments if and only if no chain of calls leads to an access that may leave the allocations |
| `PureCalls.PureBehavesPurely` | src/passes/FuncInfo.cpp:4-63 | if addresses have one pointer to come from, a function that is not impure behaves so |
| `PureCalls.PureExactly` | src/passes/FuncInfo.cpp:31-40 | with one pointer per address, what the analysis calls pure is exactly what behaves purely and from which no chain of calls leads to main or to a function with a pointer parameter |
| `PureCalls.PureYetNot` | src/passes/FuncInfo.cpp:94-109 | a function that stores through one of two pointers, the first an allocation, counts as pure and is not |
| `PureCalls.OneChain` | src/passes/FuncInfo.cpp:94-109 | following the first pointer finds the allocation exactly when all pointers do, if there is only one |
| `FuncInfos.AllFound` | src/passes/FuncInfo.cpp:11-15 | when nothing waits, every impure function is marked |
| `DeadCodeElimination.DeadCode.Mark` | src/passes/DeadCode.cpp:61-80 | marks exactly the operand closure of the critical instructions |
| `DeadCodeElimination.DeadCode.MarkOperands` | src/passes/DeadCode.cpp:82-94 | marks the operands of one instruction |
| `DeadCodeElimination.DeadCode.Sweep` | src/passes/DeadCode.cpp:96-117 | deletes exactly the unmarked, and reports exactly whether that was anything |
| `DeadCodeElimination.DeadCode.Run` | src/passes/DeadCode.cpp:41-53 | terminates; what is left is the closure in the original |
| `DeadCodeElimination.SecondRound` | src/passes/DeadCode.cpp:44-51 | a second round would mark everything that is left |
| `DeadCodeElimination.SweepKeepsTrace` | src/passes/DeadCode.cpp:96-117 | stores, impure calls, branches and returns keep their order and operand values on every path |
| `DeadCodeElimination.Eliminate` | src/passes/DeadCode.cpp:41-53 | the pass leaves exactly what is needed and keeps every path's trace; an instruction is kept exactly if a chain of reads leads to it from one with an effect |
| `DeadCodeElimination.NeededExactly` | src/passes/DeadCode.cpp:61-94 | the closure are exactly the instructions at the end of a chain of reads from an instruction with an effect |
| `StackCodeGen.CodeGen.GenIns` | src/codegen/CodeGen.cpp:622-688 | implements whatever instruction it is |
| `StackCodeGen.CodeGen.AllocateIns` | src/codegen/CodeGen.cpp:24-40 | a slot for a result, and memory for an allocation |
| `Mem2RegPass.Mem2Reg.InsertPhi` | src/passes/Mem2Reg.cpp:184-189 | puts an empty phi in front of the block |
| `Mem2RegPass.Mem2Reg.ReplaceAllUsesWith` | src/passes/Mem2Reg.cpp:226-228 | every operand that names the load names the replacement instead |
| `Mem2RegPass.Mem2Reg.HasUse` | src/passes/Mem2Reg.cpp:143-146 | true exactly if an instruction or a phi uses the variable's address |
| `Regalloc.RegAllocator.Activate` | include/codegen/Regalloc.hpp:20-36 | insertion keeps the active intervals in order: arguments first, then by end |
| `SharedCopies.NumberedNeedsDistinct` | src/codegen/Liverange.cpp:63-84 | every copy can have a number of its own only if no pair of a phi and a source is copied in two places |
| `SharedCopies.SharedCopyBlurs` | src/codegen/Liverange.cpp:119-150 | two blocks that begin with the same copy share a table entry, so tables are exact only if the same values are live at both, before their copies and after |
| `SharedCopies.TablesExistIff` | src/codegen/Liverange.cpp:119-150 | tables keyed by pairs can be the liveness of a function if and only if blocks that begin with the same copy have the same values live before and after their copies |
| `SharedCopies.NoTablesForDiamond` | src/codegen/Liverange.cpp:119-150 | a diamond whose first phi gets one source from both arms: whatever the tables hold, they are not its liveness |
| `Liverange.LiveRangeAnalyzer.Touch` | src/codegen/Liverange.cpp:219-225 | widens one interval to a position |
| `DeadCodeElimination.DeadCode.FindDef` | src/passes/DeadCode.cpp:84-86 | the instruction an operand refers to, none exactly if it refers to none |

## Left out

- Floating point everywhere: arithmetic, comparisons, conversions, float slots and copies in the stack generator, float folding. It would need IEEE semantics and adds no structure. The two register classes of the allocator are modelled.
- Calls to other functions, addresses of global variables and the text of the assembly: what the assembler, the linker and callees do is not visible in the repository.
- `CodeGenRegister` and `src/passes/GVN.cpp`, which are unfinished; `ConstPropagation`, whose simplification of branches leaves stale phi operands behind; `LoopInfo::get_parent`, which looks at one outside predecessor only.
- ValueNumbering.ValueTable.LookupOrAdd: gives every phi a number of its own, where `createPhiExpr` lets phis with the same incoming numbers share one; the tables that `tryPhiCongruence` searches are not modelled. That what it finds may be replaced is `PhiCongruence.CongruentEqual`, for operations whose operands are not computed in the block itself.
- GlobalValueNumberingPass.Gvn.ScanIns: leaves out the search for a congruent phi.
- GlobalValueNumberingPass.Gvn.AnalyzeGVN: leaves out duplicate phis, which `DuplicatePhis` replaces in a pass of their own; `PhiCongruence.AllReplacementsKeepRuns` is about all replacements together.
- GlobalValueNumberingPass.NumberFunction: for the same reason says nothing about phis that have the same operands. Replacing the uses in the end is `UseDef.Value.ReplaceAllUseWith`.
- Lowering phis to copies, splitting critical edges, removing unreachable blocks, the front end, the pass manager, logging, dumps and the command line: used only to justify preconditions.
- More than one function at a time, except in `FuncInfos`, `PureCalls` and `MemoryRuns`. The other passes treat functions one by one.
- `unordered_map`, `DenseMap` and `list` are maps, sets and sequences. Addresses of objects that break ties are numbers.
- How the loop tree is built from `get_parent`: hoisting is proved for any trees of loops.
- HoistRuns.HoistingKeepsRuns: treats operations as total functions. A division that moves is executed even when the loop body would have skipped it; the machine's division does not trap, but its result for a zero divisor is arbitrary.
- PureCalls.PureIffContained: which instruction runs next and what it works on is left open, as any function of the arguments and of what has been loaded and returned; an access through an allocation stays inside it.
- MemoryRuns.SweepKeepsEffects: a call that does not come to an end within the given number of steps counts as returning zero, so deleting a pure call that never returns is not noticed.
- Mem2RegPass.Mem2Reg.Run: each promoted variable is one cell for the whole run, undefined at its start, so a variable allocated again in a loop keeps its content. Replacing uses rewrites operands in the body and in the phis. No store may store a pointer to where it points, which typing excludes.
- StackCodeGen.Compile: the frame must be smaller than 2 GiB, where the 32-bit offsets would wrap around, and there are at most eight parameters, which the generator asserts. An undefined operand counts as zero, which is what the generator loads. Runs that read undefined values, leave the program's memory, divide by zero or divide the least integer by -1 are not compared.
- ValueNumbering.ComputeSound: dividing the least integer by -1, undefined in the host language, is taken to wrap around, and so is overflow while folding.
- RegisterAssignment.AssignRegisters: starts from functions whose phis have been lowered; that lowering keeps the meaning is not part of this model.
