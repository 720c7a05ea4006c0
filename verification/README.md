# Verified models of the compiler's middle and back end

This project models the parts of the system whose correctness is hard to see from
reading one function, and proves what they are for.

- The flat three-address code of the C compiler (`cc/ir.py`) with an interpreter that
  counts control transfers. A program diverges exactly when it uses up every amount of
  fuel. Every preservation theorem is stated over it, or over runs along the edges
  recorded between basic blocks; the two are proved to agree.
- The control-flow graph, dominators, dominance frontiers and SSA form
  (`cc/cfg.py`, `cc/ssa.py`).
- The register allocator (`cc/regalloc.py`): liveness, interference, conservative
  coalescing, colouring, and the theorem that code in registers does what code over
  names does.
- Lowering of expressions and structured statements (`cc/ir.py`), against the meaning
  given by sections 6.5.13, 6.5.14, 6.8.4, 6.8.5 and 6.8.6 of ISO/IEC 9899:1999.
- The optimizer: six control-flow passes, constant and copy propagation, dead code, and
  the fixed point over them (`cc/ir_optimize.py`); natural loops, preheaders and strength
  reduction (`cc/loops.py`).
- Three smaller systems that keep state: the interrupt-shared serial ring
  (`kernel/drivers/serial.c`), the bbfs image allocator (`add_file.py`), and the linker
  with archive pulling (`tools/ccld.py`, `cc/ccobj.py`).

Passes that loop and update are methods, proved against specification functions or
against the property itself; the builder, the serial driver and the disk are classes.
Sets and dictionaries that the original iterates in an order that cannot matter are taken
in any order, so the claims hold for every order; where it sorts, the model sorts. Call results, the arithmetic of the machine, the
ordering behind `<` and unknown operators are parameters of a `Machine`.

`dafny verify dfyconfig.toml` checks everything.

| file | what it models |
|---|---|
| `Common`, `NameOrder`, `IR` | shared definitions; dictionary order; flat code and its meaning |
| `Cfg`, `BlockRuns`, `FlatBlocks` | blocks and edges; runs over blocks; their agreement with flat code |
| `Liveness`, `Interference`, `Coalescing`, `Coloring`, `OneAllocation`, `RegisterAllocation` | the register allocator |
| `Dominance`, `Dominators`, `Frontiers` | reverse postorder, immediate dominators, frontiers |
| `EdgeSplitting`, `PhiPlacement`, `SsaNames`, `Renaming`, `SsaForm`, `SsaMeaning`, `SsaConversion`, `SsaDestruction`, `SsaSuffixes`, `SsaRoundTrip` | SSA form |
| `Lowering`, `LoweringLabels`, `LoweringTargets`, `LoweringMeaning`, `LoweringStatements`, `LoweringBuilder`, `LoweringOrderly`, `LoweringQuiet` | lowering |
| `ControlFlow`, `ScalarPipeline`, `FirstReads`, `ScalarMeaning`, `ScalarRounds`, `ForwardingLimits`, `WellFormedCode`, `NormalForm` | the scalar optimizer |
| `Compilation` | lowering and the scalar pipeline together |
| `NaturalLoops`, `Preheaders`, `StrengthReduction`, `LoopReduction`, `ReduceLoops` | loops |
| `SerialRing`, `Bbfs`, `Archives`, `Linker` | the smaller systems |

## Model

| member | source | states |
|---|---|---|
| Cfg.BuildCfg | cc/cfg.py:244-259 | the blocks are exactly the slices between leaders, an edge exists exactly where control can pass, the branch target is listed before the block that follows, and predecessor lists hold each edge as often as successor lists |
| Cfg.FlattenRoundTrip | cc/cfg.py:319-336 | flattening the blocks gives the body back if and only if no label uses the prefix reserved for synthetic names |
| FlatBlocks.BlocksRunFlat | cc/cfg.py:98-143 | whatever a body does with some number of jumps, its recorded blocks do along at least as many edges: same calls, same result |
| FlatBlocks.BlocksEndAlike | cc/cfg.py:218-241 | a body ends with a given result and calls if and only if its blocks do, so they also diverge alike |
| Liveness.Solve | cc/regalloc.py:334-347 | the iteration over block equations ends, and a name is in live-out of a block if and only if some path from its end reaches a read with no write before |
| Liveness.Summarize | cc/regalloc.py:319-333 | a block's use set holds exactly the names read before any write of them, its def set exactly the names written |
| Interference.BuildInterference | cc/regalloc.py:309-388 | two values are adjacent if and only if one is written somewhere while the other is live after; live-across sets, call counts and copy pairs are exact too, and each count is the number of calls lived through if and only if no call result of that name is live |
| Interference.CountedIffThrough | cc/regalloc.py:363-365 | the calls counted for a name include the calls it is live through; the numbers agree if and only if the name is not live behind a call whose result it takes |
| Interference.OwnResultCounted | cc/regalloc.py:363-365 | in `x = f(); return x` one call is counted for `x`, and `x` lives through none |
| Coalescing.ConservativeCoalesce | cc/regalloc.py:154-193 | merging ends; the pairs are visited once each in dictionary order, and each visit merges the second class into the first unless one of the four tests speaks against it; every class is joined by moves, the aliases map every value to its class, classes hold no two interfering values, and the graph that is left is the quotient |
| Coalescing.LeftApart | cc/regalloc.py:173-184 | a copy whose two sides are in different classes in the end was refused when it was visited: the sides interfered, one was pinned, they were allowed different registers, or at least K neighbours were crowded |
| Coalescing.MergeKeepsSparse | cc/regalloc.py:168-193 | if every nonempty set of values has a member with fewer than K neighbours inside the set, this still holds after a merge that passes the Briggs test |
| Coloring.Simplify | cc/regalloc.py:415-436 | the nodes go on the stack in waves: all those with fewer than K neighbours left, in the order of their names, and where there is none the one worth least for each neighbour left; on a sparse graph every node is pushed when it has fewer than K neighbours left |
| Coloring.Select | cc/regalloc.py:437-450 | each popped value, with the values behind it on the stack decided, gets the register that is legal, cheapest to save and first in the pool if the value is worth more than saving it, and is spilled otherwise; homes are proper and permitted, and on a stack from a sparse graph nothing is spilled |
| Coloring.Color | cc/regalloc.py:391-460 | fails if and only if interfering values are pinned to one register; otherwise homes and spills partition the values, homes are proper and permitted, every register is worth more than saving it costs and each cheaper one is held by a neighbour, each spill is justified, every choice of the run is the one its inputs call for, and nothing is spilled on an unconstrained sparse graph |
| OneAllocation.AllocationIsOne | cc/regalloc.py:391-460 | graph, moves, constraints and costs determine the allocation: two runs that meet what Color states have the same homes and the same spilled values |
| RegisterAllocation.Allocate | cc/regalloc.py:288-306 | the allocator end to end: the clash condition, the partition, permitted registers, registers and spills justified by costs and by taken registers, the run determined by the body, no spill on an unconstrained sparse graph; on every machine the code over the allocation's homes takes the same branches, makes the same calls and returns the same value |
| RegisterAllocation.WrittenFirstPreserves | cc/regalloc.py:288-306 | when no allocatable name is read before it is written, registers may hold anything at entry |
| Dominance.ReversePostorder | cc/cfg.py:185-208 | the explicit-stack search gives the reverse of the postorder that recursion gives, in which a block finishes behind all that is entered from it; it has exactly the reachable blocks, each behind its strict dominators and behind one of its predecessors |
| Dominators.IntersectDominators | cc/cfg.py:146-169 | the finger walk ends at the lowest common ancestor, which every common dominator of both blocks dominates |
| Dominators.ComputeDominators | cc/cfg.py:287-316 | always ends; the keys are exactly the reachable blocks, and each one's parent is a strict dominator that every other strict dominator dominates |
| Dominators.AboveIsDominates | cc/cfg.py:287-316 | lying above a block in the finished tree is the same as dominating it |
| Frontiers.ComputeDominanceFrontiers | cc/cfg.py:262-284 | F other than the entry is recorded for B if and only if F is reachable, B dominates a reachable predecessor of F and does not strictly dominate F; what is recorded of the entry is stated exactly too |
| Frontiers.EntryExactForAllIff | cc/cfg.py:271-284 | the frontiers of all blocks hold of the entry what the definition asks if and only if no reachable block leads back to it |
| Frontiers.EntryExactIff | cc/cfg.py:271-284 | the same for one block: for the entry itself if and only if nothing reachable leads back; for another block unless it dominates the only predecessor |
| Frontiers.BackToEntry | cc/cfg.py:271-284 | a graph of two blocks in which the entry belongs to its own frontier and is not recorded |
| EdgeSplitting.SplitCriticalEdges | cc/ssa.py:668-727 | afterwards no edge leads from a block with several successors to one with several predecessors; exactly the critical edges pass through a new block of their own, and the edge lists still match |
| BlockRuns.DetoursRun | cc/ssa.py:713-726 | a run over blocks whose edges pass through new empty blocks takes at least as many edges and does the same |
| BlockRuns.RunMatchedEndsAlike | cc/ssa.py:713-726 | blocks that match runs in this sense end alike, both ways, and so diverge alike |
| PhiPlacement.PlacePhiNodes | cc/ssa.py:493-522 | each variable's phi blocks are exactly the iterated dominance frontier of its definitions |
| SsaNames.DeversionUndoes | cc/ssa.py:144-149 | stripping a version suffix gives back every nonempty name, also one that itself contains the separator |
| SsaNames.DeversionIff | cc/ssa.py:144-149 | exactly the names made of a nonempty base, the separator and decimal digits are stripped, to the base; every other name stays |
| SsaNames.VersionComesBackIff | cc/ssa.py:144-149 | a version comes back as its base if and only if the base is not empty |
| SsaNames.VersionedInjective | cc/ssa.py:591-597 | versions of different names, or with different numbers, are different |
| Renaming.RenameVariables | cc/ssa.py:569-629 | the walk over the dominator tree leaves each reachable block renamed from the versions current at its dominator, the versions of each name numbered from 0 without a gap and each with one owner, and phi operands recorded for every edge |
| SsaForm.EdgeCoherent | cc/ssa.py:569-629 | on every edge between reachable blocks the version leaving the predecessor is the one the successor's phi records, or, without a phi, the one the successor starts with |
| SsaMeaning.RunsAgree | cc/ssa.py:603-629 | from any reachable block, the SSA form with its phis and the original blocks make the same calls and end alike |
| SsaConversion.ConvertToSsa | cc/ssa.py:766-810 | exactly the variables written and not excluded are renamed, phis stand exactly in iterated frontiers, no version has two definitions, and the SSA form runs as the original when no reachable block leads back to the entry and no name is a version of another |
| SsaConversion.EntryLoopDiffers | cc/ssa.py:766-810 | when the first block is a loop, the SSA form goes wrong: a loop that counts to 2 never ends |
| SsaDestruction.ConvertFromSsa | cc/ssa.py:747-763 | every block ends up with one copy for each operand recorded for its edges, in front of its terminator, and is otherwise unchanged |
| SsaDestruction.CopiesRunAtOnce | cc/ssa.py:747-763 | copies made one after another leave what all phis of the edge, reading before any writes, would |
| SsaDestruction.DestructionRuns | cc/ssa.py:747-763 | without critical edges the blocks with copies run as the SSA form does |
| SsaSuffixes.NameComesBackIff | cc/ssa.py:144-149 | a name survives the way in and out if and only if it has been renamed or does not look like a version |
| SsaSuffixes.BlockRestoredIff | cc/ssa.py:133-169 | without suffixes a block is the original one with copies of variables to themselves in front of its terminator, if and only if no name or phi operand left as it was looks like a version |
| SsaSuffixes.RestoredRuns | cc/ssa.py:152-192 | blocks that come back in this sense run as the original ones in every graph, also when control returns to the entry |
| SsaSuffixes.SuffixedParameter | cc/ssa.py:152-169 | the identifier `x_ssa0`, never written, comes back as `x`; and the first version of `x` takes its place |
| SsaRoundTrip.ThroughSsa | cc/ssa.py:668-763 | splitting, conversion, destruction and the dropping of suffixes together, for every graph and all names: every reachable block comes back with self-copies if and only if no name left as it was looks like a version, and then every run makes the same calls and ends alike; before the suffixes are dropped this holds when nothing leads back to the entry and no name is a version of a renamed one |
| SsaRoundTrip.BodyThroughSsa | cc/ssa.py:766-820 | the same for flat code, from building its blocks on |
| LoweringMeaning.ExprRuns | cc/ir.py:360-415 | the code of an expression leaves its value in the operand returned, with the source's calls in order and the source's variables untouched |
| LoweringMeaning.FalseRuns | cc/ir.py:265-299 | the code of a condition falls through when it is true and comes to the target when it is false, evaluating the right operand of `&&` and `||` only when the left one does not decide |
| LoweringMeaning.TrueRuns | cc/ir.py:301-335 | the mirror image: it comes to the target exactly when the condition is true |
| LoweringStatements.StatementRuns | cc/ir.py:637-891 | every statement's code, at any nesting, ends where the source statement ends: behind it, at the break or continue label, or with its result |
| LoweringLabels.LoweredUnique | cc/ir.py:992-995 | no label is defined twice in lowered code |
| LoweringTargets.LoweredWellFormed | cc/ir.py:893-903 | lowered code has distinct labels, none with the reserved prefix, and a label for every branch |
| LoweringBuilder.LoweringPreserves | cc/ir.py:584-610 | whatever a function body does within some number of loop iterations its code does: same variables, same calls in order, same result; while the body still loops the code has made the same calls |
| LoweringBuilder.LoweringReflects | cc/ir.py:584-610 | if the code ends, the source ends, alike; so one diverges exactly when the other does |
| LoweringBuilder.Builder.BuildFunction | cc/ir.py:584-610 | the builder's output is well formed and runs like the source on every sane machine |
| ControlFlow.FoldedSame | cc/ir_optimize.py:252-281 | folding constant branches changes no run, not even the transfers it takes |
| ControlFlow.RetargetedMeans | cc/ir_optimize.py:408-464 | forwarding branches through trampolines, chains and cycles included, keeps every result and every divergence |
| ControlFlow.InvertedMeans | cc/ir_optimize.py:283-334 | inverting a branch around a jump keeps the meaning |
| ControlFlow.CollapsedMeans | cc/ir_optimize.py:99-126 | dropping jumps to the next label keeps the meaning |
| ControlFlow.PrunedSame | cc/ir_optimize.py:226-250 | removing code behind an unconditional transfer changes no run |
| ControlFlow.UnlabelledSame | cc/ir_optimize.py:386-406 | removing labels that no branch names changes no run |
| ControlFlow.SimplifyControlFlow | cc/ir_optimize.py:616-631 | the six passes in the compiler's order, on code with distinct labels, keep every result, every call history and every divergence on every machine: one side ends with a given result if and only if the other does |
| FirstReads.ReadFirstIsLive | cc/ir_optimize.py:556-588 | reading a name before writing it on some way on, by recursion over the code, is liveness over paths |
| FirstReads.SimplifiedReadsNoMore | cc/ir_optimize.py:616-631 | the six passes let no further name be read before it is written |
| ScalarMeaning.PropagationKeeps | cc/ir_optimize.py:556-595 | on every machine that adds, subtracts and multiplies integers, where temporaries are written before they are read, and each copies a literal, a name never written, a name with one definition in front of every read, or any name at all if only the next instruction takes the copy, propagation and folding change no run at all, and such code stays such |
| ForwardingLimits.RightIffSourceKept | cc/ir_optimize.py:574-588 | for a copy, any straight-line code that leaves the copy alone, and a return of the copy, forwarding gives the same answer on every machine and store if and only if copies lead from the source at the return back to the source at the start |
| ForwardingLimits.OverwrittenSource | cc/ir_optimize.py:574-588 | a concrete body that propagation turns into one returning something else |
| ScalarRounds.WithoutDeadKeeps | cc/ir_optimize.py:358-384 | dead-code elimination keeps calls, results and all names but unread temporaries, in runs that end and runs that do not; there must be no tail call |
| ScalarPipeline.RetargetTwice | cc/ir_optimize.py:408-464 | forwarding labels a second time changes nothing, whatever cycles the trampolines form |
| ScalarPipeline.ForwardFromSettles | cc/ir_optimize.py:574-588 | after one pass of forwarding, no forwarded name is read behind its copy |
| ScalarPipeline.RoundShrinksOrSettles | cc/ir_optimize.py:597-614 | a round never lengthens the body, and if it removes nothing the next round changes nothing |
| NormalForm.SettledIsNormal | cc/ir_optimize.py:597-614 | a body that a round returns unchanged has no foldable operation on two literals, no read of a temporary behind its only copy, no jump to the next label, no branch around a jump, nothing but loop markers behind a transfer, no label without a branch, no temporary without a read, and no branch to a label that passes on, except around a ring of such labels |
| WellFormedCode.RoundWellFormed | cc/ir_optimize.py:597-631 | a round keeps labels distinct and every branch's label present |
| ScalarRounds.ScalarFixedPoint | cc/ir_optimize.py:597-614 | the pipeline ends at a fixed point in normal form, no longer than the input; on orderly code it behaves as the input on every machine that adds, subtracts and multiplies integers: same calls, same result, same names but temporaries, and it diverges alike |
| LoweringQuiet.LoweredOrderly | cc/ir.py:893-903 | in lowered code every temporary is written before it is read on every way through any nesting of loops and conditions, and copies a literal, a temporary written once, or a value that the next instruction takes; so the scalar pipeline may take it |
| Compilation.LowerAndOptimize | cc/ir_optimize.py:597-614 | lowering followed by the whole scalar pipeline: well-formed code in normal form that makes the source's calls in order, gives its result and its variables, and ends only if the source does |
| NaturalLoops.LoopBody | cc/loops.py:768-789 | the worklist finds exactly the blocks from which a latch can be reached without passing the header |
| NaturalLoops.FindNaturalLoops | cc/loops.py:1414-1435 | one loop for each header of a back edge, with all its latches, its exact body and its exits |
| NaturalLoops.HeaderDominatesBody | cc/loops.py:768-789 | the header dominates every reachable block of the body |
| NaturalLoops.EntersAtHeader | cc/loops.py:768-789 | every edge into the body from outside leads to the header |
| Preheaders.OnlyPreheaderEnters | cc/loops.py:1358-1411 | after all insertions a block other than a latch is a predecessor of the header if and only if it is its preheader |
| Preheaders.EntersFromPreheader | cc/loops.py:1358-1411 | after all insertions, nested loops included, control enters a loop only over the edge from its own preheader |
| LoopReduction.FindInductionVariables | cc/loops.py:343-375 | exactly the names that one instruction of the loop writes, and it is `x = x + c`, with step c, or `x = x - c`, with step -c |
| StrengthReduction.AccumulatorStep | cc/loops.py:1118-1169 | adding the step times the factor to a wrapped product gives the wrapped product of the stepped variable, for every word size |
| StrengthReduction.RunsAgree | cc/loops.py:1118-1169 | with the accumulator initialised in the preheader and updated behind each step, every run makes the same calls and ends alike on every wrapping machine |
| LoopReduction.ReduceProducts | cc/loops.py:1118-1169 | reduces every product of an induction variable in the loop, one by one, until none is left; every run is as before |
| ReduceLoops.ReduceLoopStrength | cc/loops.py:1505-1551 | the whole pass over the recorded blocks, whatever leads to the entry: the same calls and the same end on every machine whose words wrap, and no loop with a preheader still multiplies one of its original induction variables by a constant into a name written once |
| ReduceLoops.ReduceBody | cc/loops.py:1505-1551 | the same for flat code, from building its blocks on |
| SerialRing.FifoAlways | kernel/drivers/serial.c:72-88 | after every interleaving of interrupts with the reader's instructions the bytes handed out are a prefix of those accepted, the ring holds what lies between, and that is at most 127 bytes |
| SerialRing.DroppedOnlyWhenFull | kernel/drivers/serial.c:148-158 | an arriving byte is dropped if and only if 127 bytes are queued |
| SerialRing.LosslessIff | kernel/drivers/serial.c:148-158 | over a whole history nothing is lost if and only if no byte arrives at a full ring |
| SerialRing.CallTakesOldest | kernel/drivers/serial.c:72-88 | an uninterrupted call hands out the oldest byte, or answers that the ring is empty |
| SerialRing.SeenIffNonZero | kernel/drivers/serial.c:64-84 | a caller who goes by the zero flag sees every delivered byte if and only if none of them is zero |
| SerialRing.ZeroByteUnseen | kernel/drivers/serial.c:64-84 | one zero byte is handed out with the answer of an empty ring |
| SerialRing.Driver.Putc | kernel/drivers/serial.c:148-158 | the driver's fields change exactly as one received byte requires |
| SerialRing.Driver.Execute | kernel/drivers/serial.c:72-88 | one instruction of the reader changes the fields exactly as the step relation says |
| Bbfs.EntryRoundTrip | add_file.py:718-733 | a directory entry reads back as written and never looks free |
| Bbfs.FindFreeEntry | add_file.py:476-503 | in any table the search ends at the first slot that is free or has the name; full only when every slot is used under another name |
| Bbfs.NoticedIff | add_file.py:490-503 | a name that is there is noticed if and only if no slot in front of it is free |
| Bbfs.OverlookedName | add_file.py:490-503 | a table in which a free slot hides a used name |
| Bbfs.FoundInTable | add_file.py:476-503 | in a table without holes the name is reported as taken if and only if it is there, and the slot given is the one behind all entries |
| Bbfs.ComputeNextDataSector | add_file.py:249-276 | no table and no file lies at or behind the sector returned, and something ends exactly there |
| Bbfs.AddSound | add_file.py:188-220 | one more entry with its data keeps all areas disjoint, names unique in each directory and every table as recorded |
| Bbfs.FilesKept | add_file.py:188-220 | every file that was there keeps its entry and its bytes |
| Bbfs.AddOne | add_file.py:188-220 | succeeds if and only if the entry can be added: free slot, new name, in range, inside the image; the answer says which of these failed, in this order: name taken, directory full, number too large, past the end |
| Bbfs.EmptyIsSound | add_file.py:249-276 | an image whose root table is zero is sound and holds nothing |
| Bbfs.Disk.AddFiles | add_file.py:117-220 | succeeds if and only if names are proper and new, files are not empty unless allowed, the directory is there, and slots, sector numbers and the image have room for all, and otherwise answers with the first thing that fails; then the directory has one more entry for each file, in order, with its name, size and contents, executable as asked, each starting behind the sectors of the files before it from the first free sector on, and no other byte has changed; on failure the saved image is unchanged |
| Bbfs.Disk.MakeDirectory | add_file.py:605-656 | adds one empty directory to the root, at the first free sector, and changes nothing else if and only if its entry can be added; otherwise the saved image is unchanged and the answer says why |
| Bbfs.Disk.PerformAll | add_file.py:117-220 | over every sequence of calls each one is served exactly when it can be and takes the image as the one before left it; the image stays sound, and everything any successful call has stored is there at the end with its flag, size and contents |
| Bbfs.Disk.ReadBack | add_file.py:446-473 | looking up a stored file by directory and name gives exactly its bytes |
| Linker.ConcatenateSection | tools/ccld.py:99-119 | the section starts at the least multiple of the strictest alignment that is not below the end of the image so far, each object's bytes begin where those of the object before it end, and the image ends with the last of them; a section that no object has adds nothing, not even padding; what is not in a slot is zero |
| Linker.LayOutBss | tools/ccld.py:122-172 | uninitialised sections follow the image and its trailer, one object after the other |
| Linker.BssApart | tools/ccld.py:122-172 | they overlap neither the image nor each other and end where the reported size says |
| Linker.AssignSymbols | tools/ccld.py:122-172 | fails if and only if a global name is defined by two objects, and names one that the first such object defines again; otherwise every symbol has its slot's address plus its offset |
| Linker.ValidateRelocations | tools/ccld.py:396-420 | reports a problem if and only if some relocation has no symbol or is out of range, and names the first such relocation |
| Linker.ResolvesIff | tools/ccld.py:396-420 | a symbol resolves if and only if its own object defines it or some object exports it |
| Linker.ApplyAllIs | tools/ccld.py:57-96 | with sites apart, each field holds its own value and every other byte is as it was |
| Linker.RelativeFieldReaches | tools/ccld.py:57-96 | patch address plus four plus the signed field is the symbol's address plus the addend |
| Linker.AddendUnchecked | tools/ccld.py:86-96 | an object whose relative relocation passes validation although its value with the addend does not fit four bytes |
| Linker.AppliedPacks | tools/ccld.py:396-420 | a relocation that validation lets through packs if it is absolute or has no addend |
| Linker.AbsoluteFieldHolds | tools/ccld.py:57-96 | the field is the symbol's address plus the addend, modulo 2^32 |
| Linker.PlaceholderMoves | cc/ccobj.py:417-425 | with the addend recovered from the assembler's placeholder, the field ends up as the placeholder plus the slot address of the target's section, modulo 2^32 |
| Linker.OtherBytesKept | tools/ccld.py:57-96 | bytes outside patch sites equal the input's |
| Linker.SymbolsArePlaced | tools/ccld.py:122-172 | a symbol whose object has its section has a slot |
| Linker.LinkObjects | tools/ccld.py:122-172 | a link succeeds if and only if no global is defined twice, every relocation can be applied and every value with its addend packs; then it is laid out without a gap but alignment, ends with its last byte, is addressed and patched as above; otherwise the answer names the first global or relocation at fault |
| Archives.UnresolvedExterns | tools/ccld.py:277-282 | exactly the externs that no object defines |
| Archives.PullArchiveMembers | tools/ccld.py:212-241 | ends with no unresolved extern or no unpulled member providing one; the objects named first stay in front, and behind them stands one object for each pulled file, none twice, pass by pass, and within a pass in the order of the archive's first entries that provide a name unresolved when the pass began |
| Archives.PullsAreOne | tools/ccld.py:212-241 | members and objects determine what is pulled, in which pass and in what order |
| Archives.OrderDoesNotMatter | tools/ccld.py:226-241 | the set pulled does not depend on the order of the members or of the objects |

## Findings

- `serial_getc` documents the zero flag as clear on success (kernel/drivers/serial.c:64-68),
  but the last `test al, al` sets it from the byte. A zero byte leaves the ring and looks
  like an empty ring: `SerialRing.ZeroByteUnseen`, with the exact condition in
  `SerialRing.SeenIffNonZero`.
- Propagation substitutes the source of a copy without asking whether it is written again
  (cc/ir_optimize.py:574-588): `ForwardingLimits.OverwrittenSource`, with the exact
  condition for straight-line code in `ForwardingLimits.RightIffSourceKept`. For whole
  bodies `ScalarMeaning.Orderly` is a sufficient condition.
- `live_across_call` is documented as the number of calls a value is live across
  (cc/regalloc.py:100-102), but a call's own result is counted for that call when it is
  live afterwards (cc/regalloc.py:363-365): `Interference.OwnResultCounted`, with the
  exact condition in `Interference.CountedIffThrough`, which `BuildInterference` carries.
- An entry block with predecessors is not recorded in the frontiers its definition asks for
  (cc/cfg.py:271-284): `Frontiers.BackToEntry`, with the exact condition in
  `Frontiers.EntryExactForAllIff`. The SSA form of such code can go wrong:
  `SsaConversion.EntryLoopDiffers`. Dropping the suffixes repairs it:
  `SsaSuffixes.RestoredRuns`.
- `_deversion_ssa_form` strips suffixes from all names, also from identifiers of the
  program (cc/ssa.py:144-169): `SsaSuffixes.SuffixedParameter`, with the exact condition in
  `SsaRoundTrip.ThroughSsa`.
- `find_free_entry` promises to refuse a name that exists (add_file.py:483-493), but it
  stops at the first free slot: `Bbfs.OverlookedName`, with the exact condition in
  `Bbfs.NoticedIff`.
- Relocations are said to be fully validated before patching, which is then pure
  (tools/ccld.py:64-69), but the range check leaves the addend out (tools/ccld.py:414-419):
  `Linker.AddendUnchecked`. `Linker.LinkObjects` has the exact condition under which the
  values pack, and by `Linker.AppliedPacks` only a relative relocation with an addend can
  miss it.

## Left out

- Opaque instructions: `Block`, `Access`, `Index`, `InlineAsm`, `Switch`, `CarryBranch`; names whose address is taken; globals written by calls.
- LoweringBuilder.Builder.BuildFunction: no `goto`, `switch`, ternary, index, string, cast, carry-return or typed arithmetic; a `break` outside a loop, an assertion in the original, has no claim.
- Lowering.LowerAssign: `x = x op e` with a leaf `e`, an opaque `Block` in cc/ir.py:686-693, is lowered to the operation it denotes; other assignments handed to the code generator whole (compound right sides of that form, long constant chains) are excluded by `CleanAssign`.
- ScalarMeaning.PropagationKeeps: the condition is sufficient, not necessary; whether a substituted read can be reached at run time is not decidable. A copy of a variable that is written again is inside it only where the next instruction takes the copy.
- ScalarRounds.ScalarFixedPoint: constant folding is on unbounded integers, so meaning is claimed for machines that add, subtract and multiply such integers; the bitwise operators are a parameter.
- Compilation.LowerAndOptimize: source names must not start with the prefix of temporaries.
- Value numbering, copy propagation over SSA names, and trivial- and dead-phi removal (cc/ssa.py:197-343, 525-566), and `_drop_redundant_copies`.
- EdgeSplitting.SplitCriticalEdges: states the recorded edges; the order of blocks in the flat output, the jumps made explicit before splitting and the renaming of branch targets are not part of this model. Blocks are numbered, and new ones come last.
- SsaRoundTrip.ThroughSsa: the condition on names speaks of the names left un-versioned, which the conversion decides; `Presentable` is a sufficient one on the input.
- ReduceLoops.ReduceLoopStrength: no name of the function may be an accumulator's; increments hidden in opaque blocks are not seen.
- Preheaders.InsertPreheader: edges only; the jump that cc/loops.py:1393-1396 adds to a block that fell through is not part of this model.
- Loop-invariant hoisting, rep-string recognition, tail-call elimination.
- RegisterAllocation.Allocate: costs are integers, and the spill metric is compared as an exact quotient where the original divides floats.
- SerialRing.FifoAlways: one processor; the interrupt side runs to completion between any two instructions of the reader.
- Bbfs.Disk.AddFiles: ext2 images, directories with holes before used entries, and names with zero or non-ASCII bytes; start sectors of 65536 and more are refused. The first free sector is worked out before the names are checked, which cannot be observed.
- Linker.LinkObjects: relocations in uninitialised sections and patch sites fewer than four bytes apart are preconditions of the field theorems; the symbols of an object are in no order, so among names that clash in one object any may be named; JSON, base64 and file checks are left out.
- Lexer, preprocessor, parser, x86 emission, other drivers.
