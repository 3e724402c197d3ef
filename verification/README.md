# Alive2's symbolic executor and refinement core, in Dafny

Alive2 executes two LLVM functions symbolically and checks that one refines the other.
This project models the part of it that does not depend on the solver, and proves what
that part promises:

- the graph analyses and the bounded loop unroller of `ir/function.cpp` (`Cfg`,
  `Dominators`, `SpanningTree`, `UnionFindForest`, `LoopNesting`, `Unroll`,
  `UnrollForest`, `LoopForest`, `CloneValues`);
- guarded expressions: their terms, the decomposition into guarded leaves and the
  factoring of conjunctions, `smt/exprs.cpp` (`Terms`, `Guarded`, `Decompose`, `Factor`);
- symbolic execution with state merging, `ir/state.cpp`, against the concrete runs of a
  small language with phis, undefined behaviour, memory, calls that do not return, and
  jumps back that lead to the sink (`Execution`, `SymExec`, `Joins`, `Exits`,
  `StopPoints`, `Results`, `SymState`, `ExitMemory`, `StaticSsa`, `CallCounts`);
- block memory, `ir/memory.cpp`: alias-split accesses, whole-block and single-byte
  shortcuts, lambdas, fills, copies, stored offsets and the byte encoding, against a flat
  byte memory (`Binary`, `MemTerms`, `Aliasing`, `BlockStore`, `BlockMemory`, `BlockLoad`,
  `StoredOffsets`, `MemoryState`, `PatternExample`, `MemoryRuns`, `ByteEncoding`,
  `ByteReads`, `TypedAccess`);
- aggregates and vectors packed into bit-vectors, `ir/type.cpp` (`Aggregates`, `Vectors`,
  `IntForm`);
- the bounded loop encoder and the table of variadic argument lists, `ir/instr.cpp`
  (`LoopEncoder`, `VarArgs`, `VarArgRuns`), and the e-graph of `ir/fast_math.cpp`
  (`FpTerms`, `EGraphRounds`, `FastMath`, `FloatRefined`).

Terms and conditions are datatypes with their value under a valuation; what the source
promises about expressions is stated for all valuations.  Objects that the source updates
in place are classes whose methods have the loops of the source.  `hide` statements keep
the proofs small; they assume nothing.

The main results are `Dominators.DomTree.IsDominator`, `LoopNesting.LoopAnalysis.Run`,
`LoopForest.UnrollFunction` with `UnrollForest.PathIsLift`, `Decompose.Decompose`,
`Factor.FactorDomains`, `SymState.State.Run` with `Results.ExactlyOneOutcome` and
`Results.ExitMemoryIff`, `CallCounts.Propagate`, `MemoryRuns.Execute` with
`MemoryRuns.PlanRefinement`, `TypedAccess.StoreAndLoad` with `ByteReads.IntegerRead` and
`ByteReads.PointerRead`, `Aggregates.InsertThenExtract` with `IntForm.FieldPlaces`,
`LoopEncoder.Encode`, `VarArgRuns.Execute`, and `FloatRefined.SameClass` with
`FastMath.EGraph.Saturate` and `EGraphRounds.StaleIffSplit`.

## Findings

Properties that the code does not have, each with the exact condition under which it does:

- The symbolic `AliasSet::mayAlias` excludes members behind a gap, because the second
  scan of `isFullUpToAlias` tests the index of the first (ir/memory.cpp:799-802):
  `Aliasing.MayAliasExactIff`, with a set for which it fails in
  `Aliasing.MayAliasMissesBehindGap`.
- `memset_pattern` beyond four bytes repeats the pattern by the offset in the block, not
  from the pointer on, and reverses it on big-endian machines (ir/memory.cpp:1355-1358,
  2563): `MemoryState.Memory.FilledWithPatternIff`, with a memory in which it fails in
  `PatternExample.FillRotated`.
- A store that initializes a block leaves the bytes beyond it poison, says the comment, but an
  initializer of one byte becomes the contents of the whole block
  (ir/memory.cpp:1302-1312): `BlockStore.RestIsPoisonIff`, with a block for which it happens
  in `BlockStore.InitializeOne`.
- The memory of a call that does not return is recorded under a path condition that goes
  on after the call.  What is recorded later, up to the return, can take its place, and an
  unconditional return drops it (ir/state.cpp:879, 936): `Results.ExitMemoryIff`, for the
  unconditional return `Results.UnconditionalReturnIff`, with a function for which it
  happens in `ExitMemory.WriteIsSeen`.
- A cloned phi that names itself reads one copy too far back from the third copy on
  (ir/function.cpp:502-505, 528-534): `CloneValues.SelfPhiReadsPreviousRoundIff`.
- A block that jumps to itself inside another loop gets no entry in the loop forest, because
  only outermost headers and blocks with children do (ir/function.cpp:1203-1211).  Its loop
  is not unrolled (ir/function.cpp:619), and its jump leads from each copy to the same copy:
  `LoopForest.UnrollFunction`, with a function for which a cycle is left in
  `LoopForest.UnrollInner`.
- `va_arg` tests an eight-bit counter after an increment that wraps around:
  `VarArgs.ArgumentCheckIff`; a list of 255 arguments never runs out:
  `VarArgRuns.UsesOkIff`.  Copies of a caller's list name their arguments after the
  pointer: `VarArgs.CopyGivesSameArgumentsIff`.
- A round of saturation that joins classes without changing the number of nodes is the
  last one, and can leave congruent nodes apart (ir/fast_math.cpp:198).  Over all orders of
  visits it leaves no operand stale if and only if the graph before it splits no operand:
  `FastMath.LastRoundIff`.  In one given order, children first is enough
  (`EGraphRounds.ChildrenFirstCloses`), and in the order of the source so are calm terms
  (`FastMath.EGraph.CalmCloses`).  The comparison of roots misses that `(x * y) - z` and
  `(y * x) - z` are equal: `FloatRefined.DifferencesApart`.

The comment above `buildDominators` relies on the order of the blocks; the proof needs
that nothing jumps to the entry and that each other block has a predecessor before it.
Termination of the iteration on cyclic graphs, which is not argued in the source, follows:
pointers only move towards the entry.

`AggregateType::fromInt` hands over as many values as there are fields, while
`aggregateVals` expects none for padding (ir/type.cpp:831, 1021-1025), and the integer form
keeps nothing of empty aggregates.  No caller gets there: the types they pass are scalars and
vectors of scalars, which have neither (ir/instr.cpp:1927-1932, ir/memory.cpp:663, 745,
ir/state.cpp:1188), and for these `IntForm.StoredRoundTrip` is the identity.

## Model

| member | source | states |
|---|---|---|
| Dominators.DomTree.constructor | ir/function.cpp:1017-1060 | A tree built for any ordered CFG is settled, with the predecessor lists of that CFG. |
| Dominators.DomTree.BuildPreds | ir/function.cpp:1026-1029 | The list of a block holds its predecessors in the order of the CFG edges, so an earlier block comes first. |
| Dominators.DomTree.Intersect | ir/function.cpp:1062-1070 | Both chains are walked up to the one block whose chain is exactly what the two chains have in common. |
| Dominators.DomTree.Meet | ir/function.cpp:1047-1052 | The common chain of all predecessors whose pointer is set, in the middle of a cyclic iteration as well. |
| Dominators.DomTree.Pass | ir/function.cpp:1041-1058 | One sweep keeps the chains over-approximations of dominance, each pointer witnessed by a climbing CFG path, and says whether anything changed. |
| Dominators.DomTree.BuildDominators | ir/function.cpp:1017-1060 | On every ordered CFG, cyclic or not, the iteration ends in a settled tree; on a forward CFG it ends after at most two sweeps. |
| Dominators.SettledIsDominance | ir/function.cpp:1041-1060 | In a settled pointer tree, a block is on the chain of another exactly when every path from the entry to that one passes through it. |
| Dominators.UpdateKeepsInv | ir/function.cpp:1054-1057 | Moving one pointer to the meet of its predecessors keeps the chains sound, witnessed and descending, also for blocks further down the chain. |
| Dominators.UpdateKeepsDescending | ir/function.cpp:1054-1057 | Pointer updates only move towards the entry, which bounds the iteration on cyclic CFGs. |
| Dominators.DomTree.IsDominator | ir/function.cpp:1078-1090 | The query answers true exactly if every CFG path from the entry to `b` contains `a`. |
| SpanningTree.BuildSpanningTree | ir/function.cpp:1107-1131 | Exactly the reachable blocks are numbered, in preorder of a tree of CFG edges; the interval up to `last` holds exactly the tree descendants, and with them all blocks that the block dominates. |
| SpanningTree.NumberedIffReachable | ir/function.cpp:1114-1130 | A block has a number if and only if some CFG path leads to it from the entry. |
| SpanningTree.DominatorIsAncestor | ir/function.cpp:1107-1131 | A dominator of a numbered block is its ancestor in the tree, so every edge to a dominator is classified as a back edge. |
| SpanningTree.AncestorReaches | ir/function.cpp:1122-1128 | A tree ancestor reaches its descendants by CFG edges. |
| LoopNesting.LoopAnalysis.AncestorTest | ir/function.cpp:1144-1146 | The interval test on numbers decides ancestry in the tree. |
| LoopNesting.LoopAnalysis.CollectPreds | ir/function.cpp:1152-1162 | Each edge between numbered blocks is filed under its target, as a back edge exactly if the target is an ancestor of the source. |
| UnionFindForest.UnionFind.Find | util/unionfind.cpp:22-28 | The representative of the class; shortening one path changes no class. |
| UnionFindForest.UnionFind.Merge | util/unionfind.cpp:30-35 | The two classes become one, represented by the root of the second argument. |
| LoopNesting.LoopAnalysis.FindMembers | ir/function.cpp:1167-1193 | The search from the latches finds classes inside the subtree of the header that get back to it without leaving the subtree, and leaves no listed source unexplored. |
| LoopNesting.LoopAnalysis.ProcessHeader | ir/function.cpp:1166-1198 | Each processed header keeps the invariant of the nesting: classes are sound, all edges are accounted for, and loops of earlier headers stay as they are. |
| LoopNesting.LoopAnalysis.Run | ir/function.cpp:1139-1213 | For every header: a block is in its loop if and only if some path from the block to the header stays in the subtree of the header; the classification is right in both directions; and the forest holds exactly the outermost headers and the blocks that are headers of others. |
| LoopNesting.LoopIsBack | ir/function.cpp:1166-1198 | Once a header is processed, its loop is made up of exactly the blocks that get back to it inside its subtree, through collapsed inner loops and irreducible entries as well. |
| LoopNesting.NaturalLoopInside | ir/function.cpp:1139-1199 | Every block on a path to a latch that avoids the dominating header is in the loop of that header. |
| LoopNesting.LoopAnalysis.BuildForest | ir/function.cpp:1201-1212 | The roots are the outermost headers; a node is in the forest if it is a root or has children, with its children in order. |
| LoopNesting.IrreducibleIffEntered | ir/function.cpp:1183-1187 | A loop is classified as irreducible if and only if some CFG edge enters it at another block than its header. |
| LoopNesting.LoopIsClass | ir/function.cpp:1195-1198 | For a representative, the loop described by header pointers is its union-find class. |
| Unroll.Unroller.CloneAll | ir/function.cpp:669-692 | `k` copies of each loop block and one more of the header of a loop with a body, each with the jumps of the original. |
| Unroll.Unroller.PatchBlock | ir/function.cpp:694-718 | After the patching of one copy, each jump leads to the next copy of the header, to the same copy of another loop block, or to the sink. |
| Unroll.Unroller.UnrollLoop | ir/function.cpp:649-718 | The function with one loop unrolled: all copies, and all jumps of all copies. |
| Unroll.PatchedPathErases | ir/function.cpp:666-718 | Erasing copy numbers maps every patched path that avoids the sink to a path of the original. |
| Unroll.FittingPathLifts | ir/function.cpp:666-718 | A path of the original that stays within `k` iterations, or meets the header of a loop with a body once more, lifts to a patched path that erases back to it. |
| Unroll.PatchedPathIsLift | ir/function.cpp:666-718 | A patched path from an original block is the only lift of the path it erases to. |
| Unroll.FollowsIff | ir/function.cpp:684-718 | The unrolled function can follow a path of the original if and only if the path stays within `k` iterations of the loop, except that the header of a loop with a body may be met once more, so that the last iteration can leave the loop there. |
| Unroll.GivesUpIffCopyMissing | ir/function.cpp:698-716 | A branch of a copy goes to the sink if and only if the original path needs a copy that does not exist. |
| Unroll.UnrolledIsAcyclic | ir/function.cpp:666-718 | If the loop body without the edges into its header has no cycle, the patched copies have none. |
| UnrollForest.GatherLoop | ir/function.cpp:628-641 | A loop is its header and, for each child in the forest, the child's own blocks and copies or the child itself. |
| UnrollForest.UnrollAll | ir/function.cpp:601-718 | Over the whole forest in post-order: when its turn comes, each loop consists of all copies of the blocks in its nest, and its header has none yet. |
| UnrollForest.PathIsLift | ir/function.cpp:601-718 | Every path of the finished function that starts at an original block and avoids the sink is the only lift, through all loops, of the path it erases to. |
| UnrollForest.PathLifts | ir/function.cpp:601-718 | A path that fits in every loop in turn lifts to a path of the finished function that erases back to it. |
| UnrollForest.FollowsIff | ir/function.cpp:601-718 | Over the whole forest: the finished function can follow a path if and only if, loop by loop, it stays within the iterations that the copies allow. |
| UnrollForest.UnrolledFunctionIsAcyclic | ir/function.cpp:601-718 | If every cycle of the function goes through the header of a loop it stays in, the finished function has no cycle, however the loops are nested. |
| UnrollForest.AllCyclesCut | ir/function.cpp:590-718 | If every cycle of the function stays in a loop of the forest and goes through its header, no cycle is left. |
| UnrollForest.SelfJumpStays | ir/function.cpp:694-718 | A jump from a block to itself is there in the finished function unless a loop with this header has been unrolled. |
| LoopForest.PostOrder | ir/function.cpp:602-626 | The worklist gets to the loops in the post-order of the forest, roots in their order, children that are headers from the last to the first. |
| LoopForest.OrderIs | ir/function.cpp:602-626 | The traversal of the analysed forest gets to exactly the outermost headers and the headers with other blocks in their loops, each once and inner loops first. |
| LoopForest.ForestHolds | ir/function.cpp:1201-1212 | The loops of the analysis, in this order, are nested or disjoint, made up of the loops of their children, and free of the sink: a forest that can be unrolled. |
| LoopForest.LoopIsHeaded | ir/function.cpp:1139-1199 | In a function without irreducible loops, a block is in the loop of another exactly if some cycle through both is dominated by that other one. |
| LoopForest.CyclesLeftIff | ir/function.cpp:590-718 | Whatever the analysis finds in a function without irreducible loops: unrolling by it leaves no cycle if and only if no block jumps to itself that is in another loop and heads no other block. |
| LoopForest.UnrollFunction | ir/function.cpp:590-718 | `unroll` from the analysis to the last patched jump: each finished path is a lift, and for functions without irreducible loops, no cycle is left exactly under that condition on the function. |
| LoopForest.InnerIsNested | ir/function.cpp:1203-1211 | A function of four blocks with such a jump. |
| LoopForest.UnrollInner | ir/function.cpp:590-718 | However often its loops are unrolled, a cycle is left in it. |
| CloneValues.Cloner.ResolveOp | ir/function.cpp:486-510 | The table of clones gives the copy that the operand stands for in this round: of the same round if it is defined earlier, or else of the round before. |
| CloneValues.Cloner.CloneBlock | ir/function.cpp:519-538 | One copy of a block, with the value map one block further. |
| CloneValues.Cloner.CloneLoop | ir/function.cpp:675-692 | All rounds and the extra copy of the header have the resolved operands. |
| CloneValues.OrdinaryReadsSameRound | ir/function.cpp:506-508 | An operand defined earlier in the loop is read from the same copy. |
| CloneValues.HeaderPhiReadsPreviousRound | ir/function.cpp:500-508 | A header phi reads its loop-carried operand from the copy before, whatever the order of the phis, unless it names itself. |
| CloneValues.SelfPhiReadsPreviousRoundIff | ir/function.cpp:500-536 | A phi that names itself reads the copy before if and only if the round is the second; later it lags one copy behind. |
| Terms.IfMeans | smt/expr.cpp:2171-2216 | The simplifying conditional means the plain one, through its recursive merging of equal branches. |
| Decompose.SimplifyMeans | smt/exprs.cpp:100-121 | The rewrite of an addition keeps the value under the condition it is given, whichever branch it picks. |
| Decompose.Decompose | smt/exprs.cpp:124-192 | For every term, depth limit and early stop, exactly one guard holds under each valuation and its entry has the value of the term. Without an early stop no value is a conditional, and from depth two on none concatenates or extracts from one; with enough memory there is no early stop for terms of fewer than 32 alternatives. |
| Guarded.AddMeans | smt/exprs.h:72-82 | Adding under a condition that excludes the other guards keeps them exclusive and adds exactly that entry. |
| Guarded.CollapsedMeans | smt/exprs.h:98-109 | The chain of conditionals built from exclusive entries means the entry that applies. |
| Factor.AndAddMeans | smt/exprs.cpp:14-25 | The set stays sorted and means the conjunction with the new condition, split or not. |
| Factor.AndAddSplits | smt/exprs.cpp:14-25 | Conjunctions nested no deeper than the limit are taken apart completely, and the constant is left out. |
| Factor.TakeCommon | smt/exprs.cpp:204-237 | The simultaneous walk over any number of sorted sets takes out exactly a common part and leaves no conjunct common to all. |
| Factor.FactorDomains | smt/exprs.cpp:195-245 | Where one domain holds, the factored conjunction is equivalent to that domain's conjunction; no conjunct remains common to all leftovers. |
| Joins.PhiMeans | ir/instr.cpp:3291-3309 | A phi has the value that came in over the edge by which the run arrived. |
| Joins.MergedIsHere | ir/state.cpp:794-832 | The merged path, conditions and memory match the configuration in which the run arrives; every live run is on the merged path. |
| Exits.JumpMeans | ir/state.cpp:835-864 | Recording one jump keeps all recorded edges exact. |
| Exits.BranchDecides | ir/state.cpp:870-875 | On the path, each of the two conditions holds exactly for the runs that take that branch. |
| Exits.SwitchDecides | ir/instr.cpp:3451-3464 | On the path, exactly the condition of the case that the run takes holds, or that of the default. |
| SymState.State.StartBB | ir/state.cpp:774-833 | On success the path condition together with the collected conditions holds exactly on the runs that arrive well-defined; on failure none does. |
| SymState.State.ExecPhi | ir/instr.cpp:3291-3309 | The state matches every run after the phi. |
| SymState.State.AddUB | ir/state.cpp:910-914 | The state matches every run after an operation that may be undefined. |
| SymState.State.AddNoReturn | ir/state.cpp:932-943 | The state, the recorded memories and the function domain match every run after a call that may not return, and the memory is filed under the place of the call. |
| SymState.State.AddJump | ir/state.cpp:835-864 | The edge is extended by exactly the runs that jump here; jumps to blocks seen before are recorded at the sink. |
| SymState.State.AddCondJump | ir/state.cpp:870-875 | Both edges of a branch are exact. |
| SymState.State.ExecSwitch | ir/instr.cpp:3451-3464 | All edges of a switch are exact, the default included. |
| SymState.State.AddReturn | ir/state.cpp:877-887 | Return value, memory and domains match every run that returns here, and the memory is filed under the place of the return. |
| SymState.State.Run | util/symexec.cpp:83-90 | After all blocks, for every valuation: return domain, function domain, return value and memory agree with the run, and each recorded memory is that of the run at one of the places it is filed under. |
| SymState.EdgesDisjoint | ir/state.cpp:835-864 | Conditions of different edges out of one block exclude each other. |
| SymState.EdgeExact | ir/state.cpp:857-858 | An edge condition holds only on runs that take the edge and, with its conditions against undefined behaviour, on exactly the well-defined ones. |
| SymState.State.GetJumpCond | ir/state.cpp:1468-1476 | The condition holds exactly on the well-defined runs that take the edge. |
| SymState.State.SinkDomain | ir/state.cpp:1437-1447 | With undefined behaviour included, the condition holds exactly on the well-defined runs that reach the sink; without, on no run that does not. |
| Results.ExactlyOneOutcome | ir/state.cpp:877-943 | A run without undefined behaviour is in exactly one of three domains: return, exit at a call, sink. |
| SymExec.RunningIsLive | ir/state.cpp:839-840 | A well-defined run takes only jumps that are recorded. |
| StopPoints.YieldsIff | smt/exprs.h:98-109 | What overlapping guards yield in every order of the entries: the entries that are literally unconditional if there are any, or else all that apply. |
| StopPoints.CertainPassed | ir/state.cpp:877-943 | If a guard is literally true, every run passes one of the places its memory is filed under, and all runs pass it if there is one only. |
| StopPoints.CertainYields | ir/state.cpp:877-943 | With such a guard, the recorded memories yield exactly the memory that the run has where it passes those places. |
| Results.ExitMemoryIff | ir/state.cpp:932-943 | For a run that exits at a call, the recorded memories yield the memory at the call if and only if the run has that memory wherever it could leave the function; or, if a guard is literally true, at the places under which such memories are filed, of which it passes one. |
| Results.UnconditionalReturnIff | ir/state.cpp:877-879 | If a return under a literally true path condition is the last to be recorded, the memories yield exactly the memory in which the run leaves its block. |
| ExitMemory.RunOf | ir/state.cpp:932-943 | A function, given in full, whose run exits before a write and has a second stop point after it. |
| ExitMemory.WriteIsSeen | ir/state.cpp:877-879 | Symbolic execution of that function records the memory after the write, under the place of the return alone. |
| StaticSsa.DominanceSuffices | ir/state.h:260 | If definitions dominate uses, every run defines a value before it uses it. |
| CallCounts.IncrementDescribes | ir/state.cpp:115-131 | Recording a call describes every call sequence extended by it. |
| CallCounts.IncrementExact | ir/state.cpp:115-131 | After a call, a count of its function is possible if and only if one less was possible before; the counts of other functions are as before. |
| CallCounts.IncrementFlags | ir/state.cpp:117-128 | A count is recorded with a write exactly if there was one before or the call may write, and without one exactly if neither. |
| CallCounts.IncrementAccess | ir/state.cpp:121-129 | The accesses of the call are added to those of its function, and nothing else changes. |
| CallCounts.IncrementWitnessed | ir/state.cpp:115-131 | If every count, every flag that excludes writes and every access comes from one of some call sequences, then after the call it comes from one of them extended by the call. |
| CallCounts.MetExact | ir/state.cpp:252-269 | A count with its write flag, and an access, is there after the merge exactly if it was on one of the sides, an unrecorded function counting as not called. |
| CallCounts.FnCallRanges.Inc | ir/state.cpp:115-131 | The in-place update records one call more: it describes every call sequence extended by the call, and everything it records comes from one. |
| CallCounts.FnCallRanges.MeetWith | ir/state.cpp:252-269 | Both in-place loops together compute the merge: it describes the call sequences of both sides, and everything it records comes from one of them. |
| CallCounts.FnCallRanges.IsLargerThanInclReads | ir/state.cpp:205-224 | True if and only if every possible count here is at least every possible count there; then so it is for every pair of call sequences. |
| CallCounts.Propagate | ir/state.cpp:801-816 | At every block, the recorded ranges describe the calls on every path to it, with a write flag at least as strong; and where there is a path, a count is possible if and only if it is that of a path, and flags that exclude writes and accesses come from paths as well. |
| Aliasing.IsFullUpToAlias | ir/memory.cpp:792-804 | The result of the two scans, the second one testing the index of the first. |
| Aliasing.MayAlias | ir/memory.cpp:806-817 | The condition built for a symbolic block number holds of exactly the blocks that the next two rows speak of. |
| Aliasing.MayAliasExactIff | ir/memory.cpp:792-817 | The symbolic condition is membership if and only if the set is empty, lacks block 0, or has no member behind its first gap. |
| Aliasing.MayAliasMissesBehindGap | ir/memory.cpp:799-802 | A set with a gap for which the condition excludes a member. |
| Aliasing.Access | ir/memory.cpp:1149-1195 | Every block of the set is visited once, and if the pointer's block is in the set, exactly its guard holds. |
| MemTerms.MkBlockIfMeans | ir/memory.cpp:113-129 | The merged block has the bytes of the side that applies, single-byte blocks and arrays mixed in any way. |
| MemTerms.RawLoadMeans | smt/expr.cpp:2143-2169 | A load at an offset up to the bound reads the byte that the block has there. |
| MemTerms.MkStoreMeans | smt/expr.cpp:2129-2141 | A store changes exactly the byte at its offset. |
| MemTerms.MkLambdaMeans | smt/expr.cpp:2247-2260 | A lambda has the value of its body at every offset, the shortcuts included. |
| MemTerms.LoadBeyondBoundMisses | smt/expr.cpp:2143-2169 | A load beyond the bound can miss a store. |
| BlockStore.StoreInto | ir/memory.cpp:1291-1337 | In every world in which the guard holds and the write is in bounds, exactly the addressed bytes change; the shortcuts for whole and single-byte blocks agree. After an initializer the bytes beyond it are poison, or, if it has one byte only, that byte. |
| BlockStore.RestIsPoisonIff | ir/memory.cpp:1302-1312 | A byte beyond an initializer is poison if and only if the initializer has more than one byte, or its byte is poison. |
| BlockStore.InitializeOne | ir/memory.cpp:1302-1312 | A block of four bytes with an initializer of one byte: the last byte is not poison, but the initializer. |
| BlockStore.LowestByteFirst | ir/memory.cpp:2413-2420 | In little endian the lowest byte of a value is stored at the lowest offset, in big endian at the highest. |
| BlockStore.StoreLambdaInto | ir/memory.cpp:1360-1386 | Every byte of the range becomes the value at its offset, and no other changes. |
| BlockLoad.LoadIsFlat | ir/memory.cpp:1213-1250 | The guarded loads select the byte that the pointer's block has at the offset. |
| MemoryState.Memory.Store | ir/memory.cpp:1277-1342 | In every world in which the access is in bounds, the flat memory changes exactly at the addressed bytes of the pointer's block, and these offsets are tracked; the records of exactly the blocks in the set are extended by exactly these offsets. |
| MemoryState.Memory.StoreLambda | ir/memory.cpp:1344-1399 | The same for a lambda over a range of symbolic length, after which everything is tracked in the blocks of the set, and in no others. |
| MemoryState.Memory.LoadBytes | ir/memory.cpp:1213-1250 | Each byte is the flat byte of the pointer's block, in the order asked for. |
| MemoryState.Memory.ReadsBackStored | ir/memory.cpp:2397-2422 | Bytes stored and read back in the same byte order come back in their places. |
| MemoryState.Memory.Memset | ir/memory.cpp:2517-2549 | The unrolled form for up to four bytes and the lambda form leave the same flat memory. |
| MemoryState.Memory.Memcpy | ir/memory.cpp:2588-2622 | All forms copy from the contents before the copy, even where the ranges overlap. |
| MemoryState.Memory.MemsetPattern | ir/memory.cpp:2551-2586 | Which byte of the pattern ends up at which offset, for the unrolled and the lambda form. |
| MemoryState.Memory.FilledWithPatternIff | ir/memory.cpp:1355-1358 | The destination holds the pattern over and over from the pointer on if and only if the pattern does not change under the rotation by the pointer's offset, as far as it is stored. |
| MemoryState.PatternRepeatsIff | ir/memory.cpp:1355-1358 | The same for any sequence of bytes, offset, length and byte order. |
| PatternExample.FillRotated | ir/memory.cpp:1355-1358 | A memory of two blocks in which filling eight bytes from offset 1 on with the pattern a, a, b, a leaves other bytes. |
| MemoryState.Memory.MergeWith | ir/memory.cpp:3000-3034 | The merged memory is that of the side that applies, at every byte of every block, and tracks all that this side tracks; the record of each block is the merge of its two records. |
| MemoryState.Memory.AfterInit | ir/memory.cpp:2835-2839 | At the end of initialization nothing is tracked, and nothing differs from the initial contents. |
| StoredOffsets.TracksMerge | ir/memory.cpp:3025-3034 | Merging two sets of offsets drops none that matters, also past the size limit. |
| StoredOffsets.PlanSuffices | ir/memory.cpp:2835-2863 | A reflexive relation that holds at the planned offsets of a block holds at all of its offsets. |
| StoredOffsets.RecordedExactly | ir/memory.cpp:2934-2943 | After any stores to a block, exactly their offsets are recorded, up to three of them, and everything from the fourth on. |
| StoredOffsets.MergedExactly | ir/memory.cpp:3025-3034 | Merging two records gives the record of the stores on both sides. |
| StoredOffsets.PlanExactly | ir/memory.cpp:2835-2863 | Nothing is checked in a block without stores, everything in a small block or after more than three offsets, and else exactly the offsets stored to on either side. |
| MemoryRuns.Execute | ir/memory.cpp:1277-1399 | Over every run of stores, lambda stores, copies and merges, the blocks are the flat memory of the run, and every byte that differs from its initial contents is tracked; a block that only stores may reach has exactly their offsets recorded. |
| MemoryRuns.PlanRefinement | ir/memory.cpp:2835-2863 | For all runs of source and target: if their bytes are related at the planned offsets, they are related at every offset in bounds; where both only store, the plan is exactly the offsets stored to, as long as there are three at most and the block is not small. |
| ByteEncoding.IntByteFields | ir/memory.cpp:267-300 | The fields of an integer byte are found again at their places, for all widths. |
| ByteEncoding.PtrByteFields | ir/memory.cpp:245-265 | The fields of a pointer byte are found again at their places. |
| ByteEncoding.ValueToBytes | ir/memory.cpp:663-683 | Byte `i` holds unit `i` of the padded value and of its poison bits. |
| ByteEncoding.BytesToValue | ir/memory.cpp:743-775 | The integer that the bytes hold at a width, which `ByteReads.IntegerRead` describes bit by bit. |
| ByteEncoding.IntegerRoundTrip | ir/memory.cpp:662-775 | An integer read at the width at which it was stored has its value and its poison, for every width, poison granularity and padding. |
| ByteEncoding.OtherWidthIsPoison | ir/memory.cpp:753-768 | Reading at a width with another tag than the width stored gives poison, when both tags fit. |
| ByteEncoding.PointerToBytes | ir/memory.cpp:650-661 | Byte `i` of a pointer has number `i`, the pointer and its poison. |
| ByteEncoding.BytesToPointer | ir/memory.cpp:701-741 | The pointer that the bytes hold, and whether it is well-defined, which `ByteReads.PointerRead` describes for any bytes. |
| ByteEncoding.PointerRoundTrip | ir/memory.cpp:650-741 | A pointer read back has its value and its poison, also where it takes one byte only. |
| ByteReads.IntegerRead | ir/memory.cpp:743-775 | What an integer read sees of any bytes of integers and pointers: it is well-defined if and only if every poison bit it covers is, each byte with the width and the number it is read at, and pointers at multiples of eight bits only; value bits come from the bytes in order, the first byte lowest. |
| ByteReads.PointerAsInteger | ir/memory.cpp:763-771 | The bytes of a pointer, read at an integer width, are poison exactly if the pointer is or the width is not a multiple of eight; the value is that of the bytes converted, the first one lowest. |
| ByteReads.StrayByteIsPoison | ir/memory.cpp:755-761 | A single byte that was stored with a width that does not agree, or with another byte number, makes the read poison. |
| ByteReads.WidthsAgreeIff | ir/memory.cpp:755-758 | Where tags are wide enough, a stored width agrees with a read if they are the same or both are multiples of eight, and only then. |
| ByteReads.PointerRead | ir/memory.cpp:701-741 | What a pointer read sees of any bytes: a pointer if all of them are of pointers, well-defined if and only if all bytes are and, then, belong to one pointer in order; otherwise the bytes are converted. |
| TypedAccess.StoreAndLoad | ir/memory.cpp:2397-2470 | Storing the bytes of an integer or a pointer and loading as many through the same pointer gives the value and its poison, through any alias set and in both byte orders. |
| Aggregates.AggregateVals | ir/type.cpp:830-856 | The packed bits of one value for each field, padding filled with dummy values. |
| Aggregates.PackedPlaces | ir/type.cpp:838-853 | In a packed aggregate, the fields before a field are above it, and their poison bits above its poison bits. |
| Aggregates.DummyIsPoison | ir/type.cpp:846-848 | Padding is zero and poison, however it is nested. |
| Aggregates.Extract | ir/type.cpp:858-887 | The slice taken has the width of the field; the fields before it are below it in the integer form in little endian, and above it otherwise. So are its poison bits, all of which a scalar needs. |
| Aggregates.UpdateRepack | ir/instr.cpp:2364-2387 | The recursion over the reversed indices computes the update along the path. |
| Aggregates.InsertThenExtract | ir/instr.cpp:2364-2396 | Extracting along the path of an insertion gives the inserted element with its poison. |
| Aggregates.InsertElsewhere | ir/instr.cpp:2364-2396 | Along every path that does not overlap, the element is as before the insertion. |
| Aggregates.PaddingIsReset | ir/instr.cpp:2364-2387 | An insertion makes the padding on its way zero and poison. |
| Vectors.VectorExtractAgrees | ir/type.cpp:1122-1139 | Extraction by shifting agrees with static extraction for every index in range, value and poison. |
| Vectors.VectorUpdateAgrees | ir/type.cpp:1141-1166 | Update by shift and mask agrees with static insertion for every index in range. |
| IntForm.StoredRoundTrip | ir/type.cpp:1004-1025 | Going to the integer form and back is the identity, value and poison, for scalars and for non-empty vectors of scalars, which is what the callers pass. |
| IntForm.IntRoundTripIff | ir/type.cpp:1004-1025 | For every nested type without padding, it gives the value if and only if its empty parts are as they are built. |
| IntForm.FromIntAcceptsIff | ir/type.cpp:1021-1025 | The number of values handed over is the one asked for if and only if no field is padding. |
| IntForm.FieldPlaces | ir/type.cpp:1004-1013 | In the integer form of an aggregate, the integer form of a field has the fields before it below it in little endian, and above it in big endian; so do its poison bits. |
| IntForm.FieldReadFrom | ir/type.cpp:1019-1024 | Read back from an integer, a field is what those bits say that have the fields before it below them in little endian, and above them in big endian. |
| IntForm.ScalarForm | ir/type.cpp:250-263 | A scalar keeps its bits, with poison bits that all agree, and is read back as well-defined if all of them are set; an aggregate without fields is a well-defined zero bit (ir/type.cpp:1005-1007). |
| IntForm.VectorAsInteger | ir/type.cpp:1004-1013 | Element `i` of a vector of `n`-bit elements has `i * n` bits of the integer below it in little endian, and above it in big endian. |
| IntForm.VectorFromInteger | ir/type.cpp:1019-1024 | Element `i` of the vector that an integer is read as, with its poison, is found at the same place. |
| LoopEncoder.Loop | ir/instr.cpp:63-86 | Wherever the added preconditions hold, the encoding from iteration `i` on is that of the unbounded loop; a precondition is added only after the loop has been given up, and holds if and only if the loop has ended by then. |
| LoopEncoder.Encode | ir/instr.cpp:57-60 | For every unroll count, value, poison flag and undefined behaviour are those of the unbounded loop wherever the precondition holds; it holds if and only if the loop stops, or has undefined behaviour, by the iteration at which it is given up, and so whenever it does within the unroll count. |
| LoopEncoder.ConstantsAreFollowed | ir/instr.cpp:69-72 | While conditions are constant, the loop is followed beyond the unroll count, and nothing is left out if it stops before the limit. |
| LoopEncoder.Strlen | ir/instr.cpp:4811-4831 | Well-defined exactly if all reads up to the first zero byte are, and the result is its index; no world is left out in which the reads end within the unroll count. |
| LoopEncoder.Memcmp | ir/instr.cpp:4710-4769 | Zero bytes compare equal; otherwise the first differing byte decides, or the last one; no world is left out in which the comparison is decided within the unroll count. |
| VarArgs.ArgLists.VaStart | ir/instr.cpp:4865-4895 | With aliasing pointers, the table goes on agreeing with the concrete lists, in which the list at this address has been started. |
| VarArgs.ArgLists.Ensure | ir/instr.cpp:4927-4948 | Afterwards the address of the pointer is known, the table agrees with the same concrete lists, and the added condition holds exactly if the address was known before or the pointer is not local. |
| VarArgs.ArgLists.VaEnd | ir/instr.cpp:4950-4964 | Well-defined exactly for a list that is alive, which is not alive afterwards. |
| VarArgs.ArgLists.VaCopy | ir/instr.cpp:4996-5028 | The destination becomes a live copy of the source, with one active entry left for its address. |
| VarArgs.ArgLists.VaArg | ir/instr.cpp:5060-5095 | The next argument of the list at this address, which moves on; well-defined exactly if the list is alive and its counter says that an argument is left. |
| VarArgs.ArgumentCheckIff | ir/instr.cpp:5060-5095 | The counter test is right if and only if the counter is not at its last value, where it wraps around. |
| VarArgRuns.Execute | ir/instr.cpp:4865-5095 | Over every sequence of operations from the start of the function: the table agrees with the lists, each result is the argument of its list, and the added conditions say that all operations are well-defined. |
| VarArgRuns.CounterIs | ir/instr.cpp:5060-5095 | A list that was started and asked for `n` arguments has the counter `n` modulo 256. |
| VarArgRuns.UsesOkIff | ir/instr.cpp:5060-5095 | Asking a started list for `n` arguments is well-defined if and only if it has as many, or has 255, when it never runs out. |
| VarArgRuns.AliveIff | ir/instr.cpp:4865-5028 | The last start, end or copy at an address says whether its list is alive; without one it is as on entry. |
| VarArgRuns.UseAfterEnd | ir/instr.cpp:4950-4964 | A list that was ended, and neither started nor copied to since, may not be ended, copied or read. |
| VarArgRuns.StartedArguments | ir/instr.cpp:5072-5087 | A list that was started gives the arguments of this function, in order. |
| VarArgRuns.CallerArguments | ir/instr.cpp:4927-5095 | A list of the caller gives the arguments of that list in order, and reading `n` of them is well-defined if and only if it is not local, alive, and has as many, or 255. |
| VarArgs.CopyGivesSameArgumentsIff | ir/instr.cpp:4996-5095 | A copy gives the same arguments in every world if and only if the list was started in this function or the addresses are equal. |
| FastMath.EGraph.GetNode | ir/fast_math.cpp:72-79 | The identifier of a node, a new one alone in its class if the node is new. |
| FastMath.EGraph.Get | ir/fast_math.cpp:109-150 | The identifier is of a term of the same shape, in the graph that the numbering of operands from the right yields, and the term is filed in its class. |
| FastMath.EGraph.DeclEquivalent | ir/fast_math.cpp:81-95 | A node whose term has the shape of an identifier's joins its class; no other classes are joined. |
| FastMath.EGraph.Round | ir/fast_math.cpp:154-196 | One pass in the order of the map visits each node of the copy once; without joins it leaves no stale operand, and without removals it adds swapped nodes only. |
| EGraphRounds.RoundDecreases | ir/fast_math.cpp:152-201 | An unfinished round has joined classes or come closer to saturation, so that saturation ends. |
| FastMath.EGraph.Saturate | ir/fast_math.cpp:152-201 | Saturation ends with every commuted form in the class of its node; congruence-closed if its last round joined nothing, or if operators are visited in the order of the source and no term has operands that are visited too late. |
| EGraphRounds.CanonicalIsClosed | ir/fast_math.cpp:152-201 | Without stale operands, nodes with equal operations and operands of equal classes, in either order, are in one class. |
| EGraphRounds.ChildrenFirstCloses | ir/fast_math.cpp:198-199 | A last round that visits every node after the sums and products in the classes of its operands leaves no operand stale, even if it joins classes. |
| EGraphRounds.LastRoundStarts | ir/fast_math.cpp:198-199 | Only a graph without stale operands, in which all commuted forms are there, can be in its last round. |
| EGraphRounds.StaleIffSplit | ir/fast_math.cpp:198-199 | For such a graph: every order of visits in which its round is the last leaves no operand stale if and only if no operand is the class of a node whose commuted form is in another class. |
| FastMath.LastRoundIff | ir/fast_math.cpp:198-199 | The same for every graph that terms are entered into: none of them goes in circles. |
| FastMath.EGraph.CalmCloses | ir/fast_math.cpp:198-199 | Terms in which no sum or difference is of products, no sum of sums and no product of products leave no operand stale, in the order of the source. |
| FloatRefined.SameClass | ir/fast_math.cpp:303-322 | Equal roots mean equal shapes, and equal values in every interpretation in which addition and multiplication commute; for terms of that kind, and whenever the final graph is closed, also the other way round. |
| FloatRefined.DifferencesBuilt | ir/fast_math.cpp:303-306 | The graph that `(x * y) - z` and `(y * x) - z` are entered into, and their identifiers. |
| FloatRefined.DifferencesApart | ir/fast_math.cpp:303-322 | In the order of the source, the two stay in different classes, although they are equal in every interpretation. |
| FloatRefined.CompareDifferences | ir/fast_math.cpp:303-322 | The comparison of the two, run. |

## Left out

- The solver, its context, timeouts and memory limits: `hit_half_memory_limit` may answer either way at any point of `Decompose`, unless memory is said to be ample.
- Translation from LLVM, known library functions, the command line, caching and printing.
- Floating-point arithmetic, NaN payloads, and the integer semantics of single opcodes: operators are uninterpreted functions of bits.
- `ir/x86_intrinsics.cpp`.
- Dominators: the order that `top_sort` yields is a precondition; it does not guarantee one by itself (blocks 0 to 2, 1 to 2, 2 to 1 can be listed so that block 1 has no earlier predecessor).  The sink, which has order 0 there, is not among the blocks.
- Loop nesting: the map of parents (ir/function.cpp:1209); that every cycle of an arbitrary graph has a back edge does not hold, because the tree marks blocks when they are pushed.
- Unrolling: the insertion of phis for values used outside a loop (ir/function.cpp:720-830), the renaming of the source blocks of copied phis (ir/function.cpp:540-556) and the removal of emptied phis, the names of copies, and the order of the children, for which the result holds whatever it is.  The order of the loops is computed before the first is unrolled; the source finds it on the way, from a forest that does not change.
- LoopForest.UnrollFunction: which cycles are left in functions with irreducible loops.
- CloneValues.Cloner.ResolveOp: the recursion into the elements of aggregate constants is not modelled.
- That a path of the unrolled function computes the same values as the original path: paths and the resolution of operands are proved apart.
- Symbolic execution: undef variables, guardable undefined behaviour, poison as undefined behaviour, copying of undefined behaviour to the target side, value analysis other than call counts, and the merge of argument lists at joins.
- Results.ExitMemoryIff: for runs that go on, after their exit, by a jump that no well-defined run takes, only the direction from the program to the memory is proved (`Results.Finished`), because such jumps may or may not be recorded.
- Memory: which blocks are in an alias set (`computeAliasing`), block liveness and dereferenceability as undefined behaviour, data types and undef sets of blocks, stores during initialization beyond their effect on bytes, and the havoc of calls (`setState`), which clears stored offsets.
- MemoryState.Memory.StoreLambda: the range is assumed to end before offsets wrap around.
- MemoryState.Memory.MemsetPattern: the whole pattern is assumed to be readable; the code loads it in full even where fewer bytes are stored.
- MemoryState.Memory.Memset: one memory byte is eight bits wide, as for copies and patterns.
- ByteEncoding.PointerRoundTrip: outside assembly mode; the conversion of pointer bytes to integers and back is a parameter.
- Aggregates.UpdateRepack: the fields are extracted before the recursion rather than during it.
- IntForm.IntRoundTripIff: types with padding, for which `fromInt` is not well-defined (`IntForm.FromIntAcceptsIff`).
- LoopEncoder.Memcmp: whether the two pointers may be dereferenced, and their poison.
- VarArgs.ArgLists.VaStart: whether the list object is alive and large enough.
- VarArgs.ArgLists.VaEnd: whether the block of the list object is alive.
- VarArgs.ArgLists.VaCopy: whether the two list objects are alive and of the same size.
- VarArgs.ArgLists.VaArg: poison of the argument lists and of the arguments, and whether the memory of the list object is alive.  Tables merged at joins are not covered: an entry from one side keeps its `active` flag unguarded there.
- FloatRefined.SameClass: the comparison of the terms rebuilt by `smtOf`, to which the source goes over if the roots differ, and `nodes_eqs`, from which they are rebuilt.
- EGraphRounds.StaleIffSplit: for one given order of visits, children first is only sufficient; whether the root or the joined class is an operand depends on the order of all joins before.
- The order in which the source iterates over its maps and sets, except for the nodes of the e-graph: every other result holds for every order.
