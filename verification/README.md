# dobc: verified model of the decompiler core

dobc lifts Thumb code to p-code, builds a control-flow graph, runs SSA, liveness and constant
passes over it to undo control-flow flattening, and emits Thumb code and an ELF file again.
This project models its graph algorithms, data-flow passes, SSA rewrites, code layout and file
layout, and proves what each of them promises.  `dafny verify dfyconfig.toml` checks everything.

| part | files |
|---|---|
| graphs, blocks and edges | Graphs, Block, Reachability, Restructure |
| depth-first walk, dominators | SpanningTree, DepthFirst, Dominators, Structure, DominatorTree |
| liveness | Dataflow, Liveness, LivePaths, PerOpLiveness, PerOpPass, PerOpResult |
| phi placement | PhiPlacement, PlacementFrontier, PhiSites |
| SSA rewrites | Pcode, ValueFlow, PhiFolding, ConstDefs, CompareChain |
| refinement of varnodes | Refinement, PieceOps, RefinedCode |
| Thumb code layout | ThumbBranch, CodeLayout, ThumbGen |
| wide arithmetic, address sets | WideArithmetic, RangeList |
| ELF output | SymbolHash, NameHash, SymbolSort, SectionLayout |
| shared | Bits, ByteStrings, Sequences |

Code that works in place is a class or a method on arrays and fields; its `ensures` ties the new
state to a specification function or predicate, and the lemmas are about that specification.
Machine words are natural numbers with the wrap-around written out (`Bits`).

## Findings

Places where the code does less than it seems to, each with an input or an exact condition.

- **Plain branches have no range check.** The range test in `encbranch2` is never true, so a jump
  over more than 16 MB is emitted as a branch to somewhere else. `ThumbBranch.JumpWordDecodes`: the
  word decodes to its target if and only if the offset is within 16 MB.
- **Phi placement does not always merge the whole iterated dominance frontier**, because `visit_dj`
  walks along control-flow edges only. `PlacementFrontier.WholeExactly` gives the exact condition:
  for each block w whose immediate dominator u is not one of its predecessors, every block that a
  single walk from w finds, and that is not deeper than u, must be joined from u. A walk uses
  dominator-tree edges that are also graph edges, and finds the targets of the other edges.
  `FrontierMissed` is a five-block loop where the condition fails. What is merged is always in the
  frontier (`MergedInFrontier`).
- **`on_MULTIEQUAL` can fold different constants together.** `valuetype::cmp` returns a 64-bit
  difference as an `int`, so constants that differ by a multiple of 2^32 compare equal, and the first
  loop compares values without their kinds. `PhiFolding.FoldsDifferentConstants` builds a phi that
  is folded to 0 and computes 2^32 on some path; `FoldIsRight` says exactly which folds are right.
- **`on_MULTIEQUAL` reads a null pointer when every input of the phi leads back to the phi.**
  `PhiFolding.ReadsNullConstant` builds such a phi, in a loop that the entry does not reach. In SSA
  form proper, where the entry reaches every block and definitions dominate their uses, it cannot
  happen (`InputFromOutside`, and the last clause of `OnMultiequal`).
- **`collect_all_const_defs` passes over varnodes without a definition.** When it reports nothing
  unknown, the constants cover the variable exactly when no varnode of the variable's web lacks a
  definition (`ConstDefs.CoverExactly`). `MissesUndefined` is a copy of an undefined varnode, for
  which it reports no constant and nothing unknown.
- **`cond_copy_expand` with a single constant and no unknown case** never creates the block it then
  links to (`NullBlock` in `CompareChain.FlowGraph.CondCopyExpand`).
- **`cond_copy_expand` may redirect another edge than the one asked for.** Its `remove_edge` takes
  the first in-edge of the target that comes from the block. The edge with the label asked for leads
  to the chain, and the other one stays, exactly when the edge asked for is that first one
  (`CompareChain.AskedEdgeRedirected`). `RedirectsOtherEdge` has two parallel edges and redirects the
  wrong one: control never gets to the chain.
- **`RangeList` does not merge neighbouring ranges**, although the class comment in `address.hh`
  says that adjacent ranges get merged (`RangeLists.NeighboursStayApart`).
- **`longestFit` over a whole 64-bit space** gives 0. The result is the length of the run, or a part
  of it that reaches maxsize, exactly when the run is not the whole space or maxsize is reached
  before its last range (`RangeLists.RangeList.LongestFit`). `WholeSpaceWraps` is the failing input.

- **`elf_hash` can leave the 28 bits of the standard's hash.** Where `unsigned long` has 64 bits, a
  character can carry into bit 32, which the mask does not clear. The low 32 bits are always the hash
  of chapter 5 of the System V gABI, and the whole is, exactly when none of the last eight characters
  carries (`NameHash.HashIsStandard`). `CarryHappens` is a seven-byte name with hash 2^32 + 2 in place
  of 2. With a power of two as the number of buckets, as in tables that grow by rebuilding, the bucket
  is right all the same (`BucketIsStandard`, `LoaderFinds`).

## Model

| member | source | states |
|---|---|---|
| Block.FlowBlock.SetOutEdgeFlag | src/dobc/block.cc:1328-1333 | sets the flags on both halves of the edge; every pairing of half-edges is kept |
| Block.FlowBlock.AddInEdge | src/dobc/block.cc:1211-1217 | appends one edge at both ends and changes no other; the twin arrays stay paired, self-loops and parallel edges included |
| Block.FlowBlock.HalfDeleteOutEdge | src/dobc/block.cc:1240-1252 | drops one half-edge and lowers the reverse index of exactly the twins of the later ones |
| Block.FlowBlock.HalfDeleteInEdge | src/dobc/block.cc:1254-1265 | the same for in-edges |
| Block.FlowBlock.RemoveOutEdge | src/dobc/block.cc:1231-1238 | exactly the named edge goes, at both ends; order and labels of the others are kept and the arrays stay paired |
| Block.FlowBlock.RemoveInEdge | src/dobc/block.cc:1219-1229 | the same for an in-edge, whose label is returned |
| Block.FlowBlock.ReplaceInEdge | src/dobc/dobc.cc:702-709 | exactly the named in-edge comes from the new block, as its last out-edge; pairing is kept |
| Block.BlockGraph.MoveOutEdge | src/dobc/block.cc:748-753 | exactly the named out-edge leaves the new block instead; pairing is kept |
| Block.BlockGraph.RemoveFromFlow | src/dobc/block.cc:1342-1353 | fails iff the block has in-edges; else exactly its out-edges disappear, at both ends |
| Block.BlockGraph.RemoveBlock | src/dobc/block.cc:670-687 | fails iff the block has in-edges; else it moves from the list of blocks to the dead ones |
| Block.BlockGraph.SpliceBlock | src/dobc/block.cc:725-746 | succeeds iff the block's only successor has no other in-edge; the successor's out-edges are then on the block, in order, and the successor is gone |
| Reachability.BranchRemove | src/dobc/funcdata.cc:1632-1656 | exactly one edge goes, at both ends: the first of the target's in-edges that comes from the block |
| Reachability.CollectReachable | src/dobc/block.cc:689-723 | the result is the set of blocks with a path from the start, each once, or the unreached blocks in list order; all marks are clear again |
| Reachability.BlockRemove | src/dobc/funcdata.cc:1658-1677 | the in-size check fires iff there are in-edges left; otherwise the block is off the list and exactly its out-edges are gone, at both ends |
| Reachability.RemoveUnreachableBlocks | src/dobc/funcdata.cc:1679-1703 | reports a change iff some block is unreached; then exactly the unreached ones are off the list, detached and marked dead, and no in-size check has fired |
| Reachability.PrunedIsReachable | src/dobc/funcdata.cc:1679-1703 | what is left is exactly the blocks that the entry reaches, with all their out-edges and only in-edges from reached blocks |
| Restructure.RemoveAndReset | src/dobc/funcdata.cc:1679-1703 | remove_unreachable_blocks to its end: exactly the reached blocks are left, in reverse postorder with right immed_dom fields; the closing structure_reset fails iff a reached block leads back to the entry |
| SpanningTree.WalkIsSpanningTree | src/dobc/block.cc:336-422 | when the stack is empty: dfnum is a bijection, reverse postorder has index i at i, non-back edges go to larger indices, an edge is back iff its target is an ancestor or the block itself, and descendants are exactly the numbers in [dfnum, dfnum+numdesc) |
| DepthFirst.FindSpanningTree | src/dobc/block.cc:336-422 | the explicit-stack walk on the block graph terminates and writes the numbers, labels and order of such a spanning tree; it fails iff the entry has an in-edge |
| Dominators.CalcForwardDominator | src/dobc/block.cc:463-534 | terminates, and every block's immed_dom strictly dominates it over all entry paths and is dominated by every other strict dominator; fails iff there are several roots or the entry has an in-edge |
| Structure.StructureReset | src/dobc/dobc.cc:3286-3296 | numbering and dominators one after the other: on the blocks in their new order every immed_dom is right |
| Dataflow.SolutionIsLive | src/dobc/block.cc:123-151 | a solution that the iteration has reached is exactly what is live along some path |
| Liveness.ComputeLocalLiveSet | src/dobc/block.cc:88-121 | a block's gen and kill sets are the summary of its operations |
| Liveness.ComputeLocalLiveSets | src/dobc/block.cc:88-121 | afterwards that holds of every block of the graph |
| Liveness.GenKillCompose | src/dobc/block.cc:88-121 | that summary is the composition of the single operations' transfers, for every set that is live after |
| Liveness.ComputeGlobalLiveSets | src/dobc/block.cc:123-151 | from empty sets the iteration terminates with exactly what is live by paths, into and out of every block |
| LivePaths.ComputeLiveSets | src/dobc/block.cc:88-151 | both passes from empty sets, in the program's terms: r is in live_in iff along some path of out-edges an operation reads r before any operation writes it (a call writes r0 to r3), or, with r below 16, the path ends in a block that returns |
| LivePaths.FieldsAreNeeded | src/dobc/block.cc:123-151 | the solution over gen and kill sets says the same as such paths, for live_in and live_out |
| Liveness.LiveFields | src/dobc/block.cc:123-151 | r is in a block's live-in field iff some path from it uses r, or leaves it to a returning exit, before r is written |
| PerOpLiveness.PerOpAgrees | src/dobc/block.cc:123-253 | the path solutions over operations and over blocks agree at both ends of every block |
| PerOpPass.ComputeLocalLiveSetsP | src/dobc/block.cc:174-206 | every operation's own gen and kill sets |
| PerOpPass.ComputeGlobalLiveSetsP | src/dobc/block.cc:208-253 | the iteration over operations, last one first, terminates with exactly what is live by paths |
| PerOpResult.LiveSetsP | src/dobc/block.cc:174-253 | both passes together, from fresh operations of a block graph |
| PerOpResult.FieldsAgree | src/dobc/block.cc:88-253 | the first operation's live_in and the last one's live_out are the block's |
| PerOpResult.LiveSetsAgree | src/dobc/block.cc:88-253 | running the per-operation passes beside finished blocks leaves agreeing sets at the ends of every block |
| DominatorTree.BuildDomDepth | src/dobc/dobc.cc:839-859 | every entry is the length of the block's dominator chain, and the result is the largest |
| DominatorTree.DepthCounts | src/dobc/dobc.cc:839-859 | that depth is the number of strict dominators over all paths |
| DominatorTree.FrontierDepth | src/dobc/funcdata.cc:903-936 | the depth test of visit_dj decides exactly whether the start of the walk strictly dominates the block it sees |
| PhiPlacement.PriorityQueue.Reset | src/dobc/dobc.cc:4263-4271 | an empty queue with one bucket for each depth |
| PhiPlacement.PriorityQueue.Insert | src/dobc/dobc.cc:4273-4278 | the block is last in its bucket, and curdepth is the deepest bucket that is not empty |
| PhiPlacement.PriorityQueue.Extract | src/dobc/dobc.cc:4280-4291 | takes the last block of the deepest bucket; the queue is otherwise unchanged and curdepth is right again |
| PhiPlacement.Placement.VisitDj | src/dobc/funcdata.cc:903-936 | the recursion terminates, closes the visited set, and merges and queues what it finds, each block once |
| PhiPlacement.Placement.CalcPhiPlacement3 | src/dobc/funcdata.cc:867-887 | merge holds each block once and exactly the blocks found from a writing block or from a merged one; flags and queue are clear again |
| PlacementFrontier.MergedInFrontier | src/dobc/funcdata.cc:867-887 | every merged block is in the iterated dominance frontier of the writing blocks, defined by dominance over all paths |
| PlacementFrontier.WholeExactly | src/dobc/funcdata.cc:867-936 | the whole iterated frontier is merged for every choice of writing blocks iff the gaps are covered |
| PlacementFrontier.FrontierMissed | src/dobc/funcdata.cc:903-936 | a concrete graph and writing block whose frontier is missed |
| PhiSites.FindPhiSites | src/dobc/dobc.cc:1365-1371 | structure_reset, build_dom_depth and calc_phi_placement3 together, from the edge arrays: merge holds exactly what is found, all of it in the iterated frontier, and the whole frontier when the gaps are covered |
| PhiFolding.SameConstants | src/dobc/dobc.cc:252-262 | which constants compare equal: same kind, values congruent modulo 2^32 |
| PhiFolding.SearchCopyChain | src/dobc/varnode.cc:154-182 | the end of the chain of copies behind a varnode, or none |
| PhiFolding.OnMultiequal | src/dobc/pcodeop.cc:179-280 | sets top iff an own input is neither constant nor a copy of a phi, or two own constants differ in value; folds exactly when the guard over the whole web of phis and copy chains holds, to the type the guard names; asks the conditions iff neither holds and another phi is met; reads the null constant iff every input leads back to the phi, and never in SSA form proper |
| PhiFolding.InputFromOutside | src/dobc/pcodeop.cc:179-280 | in SSA form proper, some input of every phi does not lead back to the phi |
| PhiFolding.ReadsNullConstant | src/dobc/pcodeop.cc:179-280 | a concrete phi, in code that the entry does not reach, whose null constant is read |
| PhiFolding.UniformFolds | src/dobc/pcodeop.cc:179-280 | a web with one single constant at its leaves passes the guard, and only with that constant |
| PhiFolding.YieldsConstant | src/dobc/pcodeop.cc:179-280 | if one plain constant is the only leaf, every phi of the web computes it on every path through the flow graph |
| PhiFolding.FoldIsRight | src/dobc/pcodeop.cc:179-280 | a fold to a constant is right on all paths iff every leaf is that constant |
| PhiFolding.WrongPath | src/dobc/pcodeop.cc:179-280 | for any other leaf, a path along control-flow edges on which the root computes something else |
| PhiFolding.SmallConstantsUniform | src/dobc/pcodeop.cc:179-280 | constants of 32 bits are enough for a fold that passes the guard to be right |
| PhiFolding.FoldsDifferentConstants | src/dobc/pcodeop.cc:179-280 | a concrete phi that is folded to 0 and computes another value on some path |
| ConstDefs.CollectAllConstDefs | src/dobc/funcdata.cc:2995-3062 | the search terminates and comes to exactly the operations that looking from one to the next leads to; dfnum counts the constants looked at, keepsame keeps them all, otherwise one of each value is kept and the numbers agree iff no value repeats; tdefs lists what cannot be followed, nothing iff the web has nothing unknown, and then the constants are exactly those of the web |
| ConstDefs.ConstantsCover | src/dobc/funcdata.cc:2995-3062 | nothing unknown and nothing missing: the variable holds one of the constants on every path |
| ConstDefs.ConstantsHappen | src/dobc/funcdata.cc:2995-3062 | every collected constant is the variable's value on some path through the flow graph |
| ConstDefs.CoverExactly | src/dobc/funcdata.cc:2995-3062 | with nothing reported as unknown, the constants cover all paths iff no varnode of the web lacks a definition |
| ConstDefs.MissesUndefined | src/dobc/funcdata.cc:2995-3062 | a concrete copy of an undefined varnode: no constant and nothing unknown is reported, and the copy holds any value |
| CompareChain.FlowGraph.AddCmpConst | src/dobc/pcodefunc.cc:13-44 | appends the comparison's operations to the block and takes one temporary |
| CompareChain.FlowGraph.AddCbranchEq | src/dobc/pcodefunc.cc:46-64 | appends the branch on equality and takes two temporaries |
| CompareChain.FlowGraph.AddCopyConst | src/dobc/pcodefunc.cc:76-85 | appends the copy of the constant |
| CompareChain.FlowGraph.CondCopyExpand | src/dobc/funcdata.cc:2903-2957 | builds the chain of compare and copy blocks and redirects the first edge to the target; edges stay known at both ends, once each; exact conditions for both failures |
| CompareChain.AskedEdgeRedirected | src/dobc/funcdata.cc:2903-2957 | on the expanded graph, the edge with the label asked for leads to the chain and the other stays iff it is the first in-edge of the target from the block |
| CompareChain.RedirectsOtherEdge | src/dobc/funcdata.cc:2903-2957 | a concrete graph with two parallel edges where the other one is redirected and the chain is never entered |
| CompareChain.OnlyEdgeRedirected | src/dobc/funcdata.cc:2903-2957 | a single edge to the target is the one redirected |
| CompareChain.ExpansionKeepsVariable | src/dobc/funcdata.cc:2903-2957 | control gets from the redirected edge to the old target, and all but ZR and temporaries is as before iff the value is among the constants or an unknown case is kept |
| CompareChain.CollectedKeepsVariable | src/dobc/funcdata.cc:2903-3062 | collecting and expanding together keep the variable on every path |
| Refinement.BuildRefinement | src/dobc/funcdata.cc:2146-2155 | marks exactly the beginnings and ends of the varnodes |
| Refinement.Pieces | src/dobc/funcdata.cc:1953-1972 | the vector holds the distances between the cuts, which tile the range; exact conditions for the error and for nothing to do |
| Refinement.SplitByRefinement | src/dobc/funcdata.cc:2126-2144 | the varnode is cut into contiguous pieces, each one cell, or lies on one cell already |
| Refinement.EqualOrDisjoint | src/dobc/funcdata.cc:1953-1999 | pieces of whatever varnodes are equal or do not overlap |
| PieceOps.ConcatPieces | src/dobc/funcdata.cc:2001-2045 | the PIECE operations that join the pieces, in both byte orders |
| PieceOps.SplitPieces | src/dobc/funcdata.cc:2085-2124 | the SUBPIECE operations that take the pieces out, in both byte orders |
| PieceOps.JoinRuns | src/dobc/funcdata.cc:2001-2045 | running the joins gathers the bytes of the pieces and disturbs neither memory nor older temporaries |
| PieceOps.SplitRuns | src/dobc/funcdata.cc:2085-2124 | running the splits writes to memory what writing the whole value does |
| PieceOps.SplitThenJoin | src/dobc/funcdata.cc:2001-2124 | splitting a value and joining the pieces gives it back, in both byte orders |
| PieceOps.PiecesAsNumbers | src/dobc/funcdata.cc:2001-2124 | PIECE and SUBPIECE in numbers: high part above low part, shift and truncate |
| PieceOps.ReadKeeps | src/dobc/funcdata.cc:2047-2063 | rewriting one read keeps what the code does to memory and older temporaries, from every state |
| PieceOps.WriteKeeps | src/dobc/funcdata.cc:2065-2078 | the same for one write |
| RefinedCode.Code.Refinement | src/dobc/funcdata.cc:1953-1999 | all reads and writes rewritten: the code means what it meant, and the sites and the inserted operations touch the range only in whole cells (for straight-line code) |
| ThumbBranch.FitsInBytes | src/dobc/thumb_gen.cc:1004-1014 | which targets encbranch accepts, in bytes |
| ThumbBranch.CondWordDecodes | src/dobc/thumb_gen.cc:1004-1014 | an accepted conditional branch decodes to its condition and target (encoding T3, section A8.8.18 of ARM DDI 0406) |
| ThumbBranch.JumpWordDecodes | src/dobc/thumb_gen.cc:222-248 | a plain branch (encoding T4) decodes to its target iff that is within 16 MB |
| ThumbBranch.PatchKeepsCondition | src/dobc/thumb_gen.cc:1069-1073 | patching keeps the condition field and sets the target |
| ThumbGen.Generator.WriteThumb2 | src/dobc/thumb_gen.cc:57-67 | the four bytes of the word at its place, and no other byte |
| ThumbGen.Generator.WriteCbranch | src/dobc/thumb_gen.cc:2131-2140 | the word for a placed target, or a placeholder with the condition and a pending item |
| ThumbGen.Generator.WriteJump | src/dobc/thumb_gen.cc:1998-2007 | the same for the jump at the end of a block |
| ThumbGen.Generator.RunBlock | src/dobc/thumb_gen.cc:1965-2012 | lays out one block behind the earlier ones, leaving out the jump when the next block follows; earlier blocks and the rest of memory are unchanged (bodies and pools are opaque bytes, loads from pools are not patched) |
| ThumbGen.Generator.FixJumps | src/dobc/thumb_gen.cc:1061-1078 | afterwards no jump is pending, and nothing but the pending words has changed; fails iff encbranch refuses a branch |
| ThumbGen.Generator.Run | src/dobc/thumb_gen.cc:1035-1081 | both passes: the memory holds the laid-out code and is unchanged outside it; succeeds whenever there is room and all branches fit |
| CodeLayout.BlockReachesSuccessor | src/dobc/thumb_gen.cc:1049-1076 | from a block's last instructions control leaves exactly to the start of the successor that the flags choose |
| CodeLayout.CodeSimulatesGraph | src/dobc/thumb_gen.cc:1049-1076 | for every sequence of flags, the emitted code visits exactly the blocks that the control-flow graph visits |
| WideArithmetic.Mult64To128 | src/sleigh/address.cc:812-832 | the exact 128-bit product |
| WideArithmetic.UnsignedSubtract128 | src/sleigh/address.cc:834-850 | the difference modulo 2^128 |
| WideArithmetic.Power2Divide | src/sleigh/address.cc:870-933 | status 2 iff the divisor is 0, 1 iff the quotient does not fit in 64 bits, else quotient and remainder of 2^n; the search terminates and never wraps |
| RangeLists.RangeList.InsertRange | src/sleigh/address.cc:317-349 | exactly the addresses of the range are added, and the ranges stay sorted and disjoint |
| RangeLists.RangeList.RemoveRange | src/sleigh/address.cc:351-383 | exactly the addresses of the range are taken away, and the ranges stay sorted and disjoint |
| RangeLists.RangeList.LongestFit | src/sleigh/address.cc:446-471 | the length of the contiguous run from the address, or a part of it that reaches maxsize, iff the run is not the whole space or is cut off before its last range; else 0; a part ends where the first range ends that makes it reach maxsize |
| RangeLists.WholeSpaceWraps | src/sleigh/address.cc:446-471 | the range over a whole space: its length is given as 0 |
| RangeLists.NeighboursStayApart | src/sleigh/address.cc:317-349 | a range next to the inserted one is still there, unmerged, afterwards |
| SymbolHash.SymbolTable.Find | src/dobc/dobcelf.c:816-841 | the latest non-local symbol with the name, or 0 iff there is none; the walk along the chain terminates |
| SymbolHash.LatestIs | src/dobc/dobcelf.c:816-841 | what "the latest" means: it has the name and no later one does |
| SymbolHash.SymbolTable.Put | src/dobc/dobcelf.c:880-927 | appends one symbol; earlier symbols and their names read back unchanged and the index is right again; the buckets double iff there are more than two hashed symbols for one |
| SymbolHash.SymbolTable.Rebuild | src/dobc/dobcelf.c:843-877 | the hash section indexes all symbols with the new number of buckets |
| NameHash.HashIsStandard | src/dobc/dobcelf.c:801-814 | elf_hash equals the gABI's hash, which has 28 bits, in the low 32 bits always, and altogether iff none of the last eight characters carries |
| NameHash.CarryHappens | src/dobc/dobcelf.c:801-814 | a concrete name whose hash is 2^32 + 2 where the gABI's is 2 |
| NameHash.BucketIsStandard | src/dobc/dobcelf.c:880-927 | the bucket is the gABI's when the number of buckets is a power of two or nothing carries |
| NameHash.LoaderFinds | src/dobc/dobcelf.c:843-877 | then a loader that hashes as the gABI says finds the latest symbol of the name by walking the chain |
| NameHash.XorBit | src/dobc/dobcelf.c:801-814 | the exclusive or of the model, bit by bit |
| SymbolHash.StringStays | src/dobc/dobcelf.c:345-357 | a string reads back unchanged after more are added |
| SymbolSort.SortSyms | src/dobc/dobcelf.c:137-192 | the symbols are sorted, sh_info counts the locals, and exactly the relocation sections that follow the table are rewritten |
| SymbolSort.Stable | src/dobc/dobcelf.c:137-192 | locals first, and symbols of a kind keep their order |
| SymbolSort.Permutation | src/dobc/dobcelf.c:137-192 | old_to_new_syms is a permutation |
| SymbolSort.RelocationKept | src/dobc/dobcelf.c:137-192 | a rewritten relocation names the same symbol with the same type |
| SectionLayout.FindDataSegment | src/dobc/dobcelf.c:615-628 | the first section of a loaded writable segment, or none |
| SectionLayout.LayoutSections | src/dobc/dobcelf.c:595-717 | every section gets the offset and address that Placed gives; sections with no address keep the old one |
| SectionLayout.PlacedNext | src/dobc/dobcelf.c:629-660 | every section is at the first aligned offset and address behind the one before; only the first section of the writable data segment is moved on, by one page of that segment, when its address is inside such a page |
| SectionLayout.DataApart | src/dobc/dobcelf.c:644-646 | no page of the writable data segment holds both an address of an earlier section and one of its first section or a later one |
| SectionLayout.PlacedAligned | src/dobc/dobcelf.c:595-717 | every address and offset is aligned |
| SectionLayout.PlacedInOrder | src/dobc/dobcelf.c:595-717 | sections are in order and disjoint, in the file and in memory |
| SectionLayout.PlacedBehindHeaders | src/dobc/dobcelf.c:595-717 | no section overlaps the headers |
| SectionLayout.PlacedCongruent | src/dobc/dobcelf.c:595-717 | address and offset are congruent modulo the page size up to the first NOBITS section |
| SectionLayout.OutputElf | src/dobc/dobcelf.c:194-269 | the file holds headers, every section's bytes at its sh_offset, and the section headers at the end; all bytes in between are zero |
| SectionLayout.OutputFile | src/dobc/dobcelf.c:194-269 | layout and writer together: no precondition about offsets is left |

## Left out

- PhiFolding.FoldIsRight: for plain constants, copy chains without SUBPIECE, and leaves that are not computed by copies; sp- and pc-relative constants have no value here.
- PhiFolding.OnMultiequal: without the part that decides by conditions on the way in (on_cond_MULTIEQUAL and on_cond_MULTIEQUAL2), which the outcome AskCondition stands for.
- ConstDefs.CollectAllConstDefs: for functions where a store whose output is known to be constant stores that constant, which evaluating the store brings about (src/dobc/pcodeop.cc:825-832).
- DepthFirst.FindSpanningTree: for graphs whose blocks the entry reaches, as after remove_unreachable_blocks; in others the source throws or numbers a part of the blocks.
- Structure.StructureReset: without find_irreducible between the two passes.
- Reachability.RemoveUnreachableBlocks: without the phi inputs of removed edges, which the source drops; the closing structure_reset is in Restructure.RemoveAndReset.
- CompareChain.FlowGraph.CondCopyExpand: says nothing about the graph after following the null block, which the source leaves undefined.
- CompareChain.AskedEdgeRedirected: for blocks whose out-edges have different labels, as a branch has.
- CodeLayout.CodeSimulatesGraph: requires that blocks ending the function have code, and code of less than 16 MB, as `encbranch2` does not check its range.
- ThumbGen.Generator.Run: a failure is reported, but the state it leaves is not described; the source aborts.
- ThumbGen.Generator.RunBlock: bodies are opaque bytes, as is the constant pool behind the jump; the relative loads in a body are not patched to their pool entries.
- RefinedCode.Code.Refinement: for straight-line code, without the input varnodes, on which the source only asserts, and without the two location maps that are updated afterwards.
- SymbolSort.SortSyms: relocation entries are a typed sequence and not bytes of the section.
- SectionLayout.LayoutSections: without the program headers that the source fills in afterwards.
- SectionLayout.OutputElf: the bytes of the section headers are given, and sort_syms is not called from here.
- SIMD blocks with relative branches (rel-header and rel-branch) and switches, which the generator does not lay out in order or rejects.
- ELF offsets are unbounded integers, without 32-bit overflow.
- The rest of new_symtab: a table is taken as it is after its creation.
- Blocks in PhiPlacement, CompareChain and PerOpPass stand for their positions in the list of blocks; aliasing of block objects is covered in Block, DepthFirst, Dominators, Liveness, Reachability, Restructure and PhiSites.
- The loop structure after find_spanning_tree, a second structure_reset on old labels, and the post-dominators.
- Destroying the operations of removed blocks.
- Every p-code pattern that recognises flattened code.
- Operation numbers, user offsets and addresses of the operations that cond_copy_expand inserts.
- File loading, dumps, the Sleigh translator and instruction decoding.
