# Verified core of the Dyn toolchain

Dafny models of the parts of the Dyn compiler, linkers and runtime whose correctness is least
visible from the code, and proofs of what these parts are for. `dafny verify dfyconfig.toml`
checks the whole project.

| modules | part of the system |
|---|---|
| `Nonlinear`, `Integers`, `Ranges`, `Options` | arithmetic facts; integer types, the language's checked operators and its ranges |
| `RangeIr`, `RangeProver`, `RangeSoundness`, `RangeCompleteness` | the IR pass that marks bounds and overflow checks as redundant |
| `WasmMachine`, `WasmArithmetic`, `WasmInteger`, `WasmRange` | WebAssembly lowering of integer operators, and the counting of range loops |
| `ControlFlow`, `WasmControl`, `WasmControlProof`, `WasmTokens`, `WasmCounters`, `WasmControlEmitter` | WebAssembly lowering of control flow, range loops and `defer` |
| `Floats`, `Fmod`, `WasmRemainder` | floating remainder: the runtime's `fmod`/`fmodf` and the loop the Wasm backend emits |
| `UnwindSlots`, `UnwindProgress` | the lock-free table of unwind slots |
| `Leb128`, `ExportTrie`, `ExportTrieRounds`, `ExportTrieLinker` | the Mach-O export trie, writer and reader |
| `EhFrame`, `GarbageCollection`, `Layout` | ELF linking: `.eh_frame` compaction, section garbage collection, address layout |
| `ElfClass` | conversion between ELF64 and ELF32 |
| `TypeTable`, `NameIndex`, `ScopeIndex` | interned types and substitution, the name index, the scope index |
| `InterfaceCache`, `SnapshotCache`, `BuildPlan` | analysis caches with reference counts, the parallel build |

Main results, each for all inputs, runs or reachable states:

* leaving out every check the range prover marks changes no run of any function, and in counted
  loops it marks exactly the checks that the arithmetic of the loop makes redundant;
* emitted integer code traps exactly when the operator is invalid and otherwise leaves the
  mathematical result in canonical form;
* the tokens emitted for a function, parsed and run on a stack machine, have the effects and the
  end of the source statements, range loops down to their counters in machine words included,
  with deferred blocks run on every exit, last registered first;
* both remainders return the exact truncated remainder for all finite operands, subnormals
  included, and agree on every pair of words;
* in every interleaving no unwind slot is shared and each list is its owner's; a call goes without
  a slot only if all are taken, and an undisturbed one does what it is for;
* reading a written export trie gives back names and addresses exactly if the reader's limits
  suffice, and numbering a trie settles after a bounded number of rounds;
* parsing a compacted `.eh_frame` gives the records that should stay, with their contents, and
  pointers and relocations adapted; none of them refers to what marking drops; marking computes the least closed set of sections; layout aligns
  everything, overlaps nothing and gives each segment its own pages, for data at an address of
  its own exactly if that address is out of the others' way;
* widening a narrowed ELF file restores a section exactly if no reader mistakes it; type numbers are equal exactly if the types are;
  indexes agree with linear search; caches keep their totals, limits and reference counts; a
  parallel build ends, with the serial result.

Conventions. Integers are unbounded; where the width matters, wrapping is written out. A `ghost`
argument or field is a proof aid that compiled code cannot see. Loops and in-place updates of the
source are methods and classes here, proved against the functions that the lemmas are about.
`hide` statements only keep definitions from the solver.

## Model

| member | source | states |
|---|---|---|
| `RangeProver.Prover.ProveArrayBounds` | src/ir.c:270-280 | raises exactly the flags that `BoundsMarks` lists, and no other |
| `RangeProver.Prover.Survey` | src/ir.c:296-303 | one pass clears the range of every local the loop body touches and counts the assignments to each |
| `RangeProver.Prover.ProveAccumulation` | src/ir.c:327-333 | marks an accumulation exactly if initial value plus step times iterations fits the type, without overflowing itself |
| `RangeProver.Prover.ProveBody` | src/ir.c:319-334 | the marks of a counted loop's body, statement by statement under the ranges known there |
| `RangeProver.Prover.ProveLoop` | src/ir.c:281-338 | analyses exactly the countable loops, including the refusal of an inclusive bound at the type's maximum; `RangeCompleteness` says which checks it marks |
| `RangeProver.Prover.ProveFunction` | src/ir.c:339-359 | the flags of a whole function are `FunctionMarks`, the set that the elision theorems bound from above and the completeness theorems from below |
| `RangeSoundness.RangeSound` | src/ir.c:212-246 | whatever a pure expression evaluates to lies in the range computed for it |
| `RangeSoundness.IndexElision` | src/ir.c:270-280 | an index whose check is marked is inside the array, so dropping the check changes no evaluation |
| `RangeSoundness.BoundsElision` | src/ir.c:247-280 | evaluating an expression without its marked bounds checks gives the same value, store or failed check |
| `RangeSoundness.ConditionCounts` | src/ir.c:304-309 | a true loop condition means fewer iterations than counted have run and the next increment is representable |
| `RangeSoundness.IncrementValue` | src/ir.c:310-317 | the last statement of a counted loop adds exactly one to the induction variable |
| `RangeSoundness.AccumulationStep` | src/ir.c:327-333 | after k iterations every marked accumulator is at most its initial value plus k steps |
| `RangeSoundness.BodyElision` | src/ir.c:319-334 | one iteration runs the same without the marked checks and re-establishes the loop's invariant |
| `RangeSoundness.LoopElision` | src/ir.c:281-338 | any number of iterations of a counted loop run the same without the marked checks |
| `RangeSoundness.ElisionPreservesMeaning` | src/ir.c:192-359 | a function run from any store with any opaque code ends in the same store, result or failed check with every marked check removed |
| `RangeSoundness.ElisionIsSafe` | src/ir.c:192-359 | no run of the optimised function reads outside an array |
| `RangeCompleteness.SumBest` | src/ir.c:237-240 | a sum's range is known unless it may exceed a word, and its maximum is reached by operands within their ranges |
| `RangeCompleteness.ProductBest` | src/ir.c:241-244 | the same for products, whose division test is exact |
| `RangeCompleteness.MeetBest` | src/ir.c:231-236 | a conjunction's range is always known; its maximum is reached exactly if the exact operands have all its bits |
| `RangeCompleteness.ConvertBest` | src/ir.c:218-226 | a conversion keeps a range that fits the type and otherwise has the type's maximum, which is reached |
| `RangeCompleteness.LeavesBest` | src/ir.c:212-227 | literals, names and array elements have their best ranges |
| `RangeCompleteness.FlowKnown` | src/ir.c:346-349 | between statements a written local has the range of its value until it is written again |
| `RangeCompleteness.InsideDeclared` | src/ir.c:322-325 | so does a local declared in a loop body |
| `RangeCompleteness.IndexMarked` | src/ir.c:270-280 | an array access in a counted loop is marked exactly if what is known at its place puts the index inside the array |
| `RangeCompleteness.InductionMarked` | src/ir.c:281-320 | an access with the loop's own local is marked exactly if every value that the local takes lies inside the array |
| `RangeCompleteness.EmptyLoopMarked` | src/ir.c:318-318 | the exact condition for a loop without iterations, where the source still looks at the bound's predecessor |
| `RangeCompleteness.AccumulationMarked` | src/ir.c:326-333 | an accumulation is marked exactly if its initial value and its largest step times the number of iterations fit the type |
| `RangeCompleteness.LoopInFunction` | src/ir.c:339-359 | a loop's marks in a function are those it gets from the ranges in front of it |
| `RangeCompleteness.LiteralLoop` | src/ir.c:192-359 | in `x = a; while x < b { ... x = x + 1 }` accesses with x are marked exactly if all of a..b lie inside the array |
| `WasmInteger.Emitter.Tmp` | src/codegen_wasm.c:353-365 | a temporary has the wanted type and lies above every live one |
| `WasmInteger.Emitter.Normalize` | src/codegen_wasm.c:566-583 | brings a wrapped value of a narrow type into sign- or zero-extended form |
| `WasmInteger.Emitter.Convert` | src/codegen_wasm.c:858-892 | converting between integer types leaves the value congruent modulo the target's width, canonical |
| `WasmInteger.Emitter.Relational` | src/codegen_wasm.c:690-700 | the opcode chosen by width and sign decides the mathematical comparison |
| `WasmInteger.Emitter.GuardSignedSum` | src/codegen_wasm.c:797-808 | the sign test on exclusive-ors traps exactly when a 64-bit signed sum or difference is not representable |
| `WasmInteger.Emitter.GuardProduct` | src/codegen_wasm.c:822-854 | dividing the wrapped product back traps exactly when a 64-bit product is not representable |
| `WasmInteger.Emitter.GuardDivision` | src/codegen_wasm.c:718-738 | traps exactly for a zero divisor and for the minimum divided by minus one |
| `WasmInteger.Emitter.ShiftCount` | src/codegen_wasm.c:739-749 | traps exactly for counts not below the width, negative ones included |
| `WasmInteger.Emitter.Binary` | src/codegen_wasm.c:684-857 | for every integer type and canonical operands: a trap exactly when the operator's check fails, otherwise its value canonical in a fresh local, all other locals kept |
| `WasmArithmetic.SignedProduct` | src/codegen_wasm.c:822-854 | the truncated quotient of a wrapped signed product equals the factor exactly if the product is representable |
| `WasmArithmetic.UnsignedProduct` | src/codegen_wasm.c:822-854 | the same for unsigned products |
| `WasmRange.RunRange` | src/codegen_wasm.c:1446-1511 | the counter's loop on machine words visits exactly the integers of its range, in order or reversed, and ends even at the type's last value; `WasmCounters.RangeLoop` says the same of the instructions |
| `WasmControlEmitter.Emitter.Branch` | src/codegen_wasm.c:482-490 | the label of the structured instruction opened at a depth, or an error for one that is not open |
| `WasmControlEmitter.Emitter.Guard` | src/codegen_wasm.c:471-481 | a check's failure arm, with cleanups unless cleanups for a failed check are being emitted |
| `WasmControlEmitter.Emitter.Defers` | src/codegen_wasm.c:1268-1276 | appends the code of the pending deferred blocks above a level, topmost first, and restores the stack |
| `WasmControlEmitter.Emitter.Statement` | src/codegen_wasm.c:1288-1581 | appends the flat form of `StmtCode`, keeping depth, loops, temporaries and pending blocks in step, never emitting an invalid branch |
| `WasmControlEmitter.Emitter.Iteration` | src/codegen_wasm.c:1446-1513 | the loop with a condition: block, loop and inner block with the depths that `break` and `continue` use |
| `WasmControlEmitter.Emitter.Ranged` | src/codegen_wasm.c:1409-1513 | a range loop: bounds, counter, test, element, body, last-value exit and step are the tokens of its expansion, on temporaries above those in use |
| `WasmControlEmitter.FlatAllIsTokens` | src/codegen_wasm.c:1409-1513 | what the emitter appends are the tokens of the instructions that `WasmCounters` is about |
| `WasmControlEmitter.Emitter.Cases` | src/codegen_wasm.c:1514-1574 | the arms of a case in one block, each leaving it at its end |
| `WasmControlEmitter.Emitter.Sequence` | src/codegen_wasm.c:1582-1588 | a block's statements, then the deferred blocks it registered |
| `WasmControlEmitter.EmitFunction` | src/codegen_wasm.c:1582-1588 | the emitted tokens, parsed and run on any machine with any outcome of tests, do what the function's statements mean |
| `WasmTokens.ParseTokens` | src/codegen_wasm.c:482-490 | parsing flat code with its matching ends gives back the structure that was written, for every structure |
| `WasmTokens.RunWritten` | src/codegen_wasm.c:1582-1588 | so running the flat code is running the structure |
| `WasmControlProof.DefersCorrect` | src/codegen_wasm.c:1268-1276 | inlined deferred blocks behave as cleanups of the source semantics on the way to the same exit |
| `WasmControlProof.FailCorrect` | src/codegen_wasm.c:471-481 | a failed check runs all pending cleanups and traps; during such a cleanup it traps at once |
| `WasmControlProof.ExitCorrect` | src/codegen_wasm.c:1378-1385 | `break`, `continue` and `return` run exactly the deferred blocks opened since their target, then reach it |
| `WasmControlProof.ExitsThroughLoop` | src/codegen_wasm.c:482-490 | crossing the three levels of a loop does not change where an exit to another target leads |
| `WasmControlProof.LoopCorrect` | src/codegen_wasm.c:1446-1513 | any number of iterations of the emitted loop do what the source loop does |
| `WasmControlProof.RangeCorrect` | src/codegen_wasm.c:1446-1513 | a range loop with any `break`, `continue`, `return`, panic or deferred block inside does what the source loop does, from any iteration on |
| `WasmCounters.RangeLoop` | src/codegen_wasm.c:1446-1513 | the emitted loop on the stack machine runs the body for exactly the integers of the range that are left, in order, at any integer type and up to its last value |
| `WasmCounters.AdvanceRuns` | src/codegen_wasm.c:1487-1509 | the opcodes of the step, as the machine decodes them, add or subtract one in the counter's width |
| `WasmCounters.ExpandAllCorrect` | src/codegen_wasm.c:1409-1513 | instructions over stack and locals simulate structured code, leave the stack as it was and the locals of enclosing code alone |
| `WasmControlProof.LoweringPreservesMeaning` | src/codegen_wasm.c:1288-1588 | for every well-formed function, any outcome of its tests: same effects in the same order, same kind of end |
| `WasmCounters.InstructionsPreserveMeaning` | src/codegen_wasm.c:1288-1588 | the same for the instructions on the stack machine, which are the ones the emitter writes |
| `WasmControlProof.DeferredFailure` | src/codegen_wasm.c:471-481 | for any deferred block on any exit: when it panics the remaining blocks still run; they do not exactly when a check fails in it while a failed check is being cleaned up, wherever in the block that is |
| `WasmControlProof.PanicGoesOn` | docs/guide/language.md:247-253 | an input on which the guide's rule fails: during a panic, a deferred block that panics, and the block registered before it still runs |
| `Fmod.Normalize` | runtime/reference_support.c:264-277 | significand with its leading bit at the hidden one and an exponent that together are the number exactly, subnormals included |
| `Fmod.Reduce` | runtime/reference_support.c:278-290 | shift and subtract leaves the remainder of the significands at the divisor's exponent |
| `Fmod.Pack` | runtime/reference_support.c:291-298 | puts the result back into the format; the shift to a subnormal loses no bit |
| `Fmod.ShiftExact` | runtime/reference_support.c:295-297 | the bits dropped by the final right shift are zero |
| `Fmod.Remainder` | runtime/reference_support.c:258-299 | NaN exactly without a remainder, the dividend for an infinite divisor, otherwise a finite word with the dividend's sign and magnitude abs(x) mod abs(y) |
| `Fmod.RemainderTruncates` | runtime/reference_support.c:258-342 | that word is x - trunc(x/y)*y, for `fmod` and `fmodf` |
| `Floats.Formats` | runtime/reference_support.c:258-342 | both theorems apply to `double` and `float`: 64-bit and 32-bit words with 11 and 8 exponent bits |
| `WasmRemainder.Sterbenz` | src/codegen_wasm.c:584-586 | the difference of numbers within a factor of two is representable |
| `WasmRemainder.ScaleUp` | src/codegen_wasm.c:638-652 | doubling the scale neither rounds nor overflows while the loop goes on |
| `WasmRemainder.ScaleEnough` | src/codegen_wasm.c:638-652 | when the first loop ends, twice the scale exceeds x although x * 0.5 may have been rounded |
| `WasmRemainder.TakeOff` | src/codegen_wasm.c:653-676 | each subtraction is exact and keeps the remainder |
| `WasmRemainder.Loops` | src/codegen_wasm.c:634-676 | both loops end with x mod y; an infinite divisor falls through |
| `WasmRemainder.EmittedRemainder` | src/codegen_wasm.c:603-683 | the emitted code meets the same statement as the runtime's remainder |
| `WasmRemainder.RemaindersAgree` | src/codegen_wasm.c:603-683 | native and emitted remainders are the same word for every pair of operands |
| `UnwindSlots.ClaimKeeps` | runtime/reference_support.c:55-58 | a successful compare-and-swap gives the thread its only slot |
| `UnwindSlots.UseKeeps` | runtime/reference_support.c:61-115 | link, unlink, begin and continue keep every list its owner's linked frames; unlinking a frame that is not the last one linked has no effect |
| `UnwindSlots.LinkedMeans` | runtime/reference_support.c:61-115 | the record of linked frames changes as the calls alone say, not as the table does: link appends, unlink drops the last frame if it is the named one, begin and continue drop the last one |
| `UnwindSlots.SlotsExclusive` | runtime/reference_support.c:38-115 | in every state of every interleaving: one slot per thread, free slots empty and not unwinding, lists exactly the linked frames, no frame in two lists |
| `UnwindSlots.SlotsNotShared` | runtime/reference_support.c:38-60 | two threads never use one slot |
| `UnwindProgress.EndsWithoutSlot` | runtime/reference_support.c:49-58 | a call goes without a slot only if in its last round it saw every slot taken by another thread, or, if it would not claim, none of its own |
| `UnwindProgress.SoloCall` | runtime/reference_support.c:38-115 | a call that no thread disturbs ends and does what it is for, except a link without a slot of its own and without a free one; and which calls take and give back a slot |
| `UnwindProgress.FlagMeansBegun` | runtime/reference_support.c:79-82 | in every run a slot is flagged exactly if its thread has begun to unwind with a frame to go to |
| `UnwindProgress.LinkedByCalls` | runtime/reference_support.c:61-115 | so the record of linked frames follows from the calls alone |
| `Leb128.PutUleb` | src/link_macho.c:169-177 | the writer's loop appends the encoding |
| `Leb128.MeasureUleb` | src/link_macho.c:188-192 | the size computed in advance is the encoding's length |
| `Leb128.UlebRoundTrip` | src/link_macho.c:169-177 | reading an encoding gives the number and the position behind it |
| `Leb128.UlebShortest` | src/link_macho.c:169-177 | no bytes that read as a number are fewer than its encoding |
| `Leb128.GetUleb` | src/link_macho.c:630-630 | the reader's loop over shifted groups reads what `ReadUleb` defines, also at the end of the data |
| `ExportTrieLinker.Build` | src/link_macho.c:996-1025 | the trie of sorted names holds exactly these names and addresses in order, with at most 255 children per node; below the root every node has a name or branches |
| `ExportTrieLinker.CommonPrefix` | src/link_macho.c:1005-1010 | the longest prefix all names of a group share: they share it and none that is longer |
| `ExportTrieLinker.Number` | src/link_macho.c:1032-1038 | one round of offsets; it reports a change exactly if there was one |
| `ExportTrie.SettledFixed` | src/link_macho.c:1032-1038 | a round changes nothing exactly if every node is where the bytes before it end |
| `ExportTrieRounds.RoundsGrow` | src/link_macho.c:1354-1357 | from round to round no offset goes down |
| `ExportTrieRounds.SettlesWithin` | src/link_macho.c:1354-1357 | where offsets take at most w bytes, numbering has settled after w - 1 rounds for each edge and one more |
| `ExportTrieRounds.Settles` | src/link_macho.c:1354-1357 | every trie's numbering settles, with an explicit bound on the rounds |
| `ExportTrieLinker.Settle` | src/link_macho.c:1354-1357 | the loop gives the numbering after 64 rounds, and reports it settled exactly if it was after 63 |
| `ExportTrieLinker.Write` | src/link_macho.c:1039-1050 | appends the bytes of a trie, of the length the sizes predict; `ExportTrie.EntriesFind` says what they are read as |
| `ExportTrieLinker.WalkTrie` | src/link_macho.c:624-648 | the reader's loops collect what `Walk` defines, for any bytes |
| `ExportTrie.WalkFinds` | src/link_macho.c:624-648 | on a settled trie's bytes the reader finds the names within its limits, in order |
| `ExportTrie.EntriesFind` | src/link_macho.c:1039-1050 | a reader of whole entries finds each name with flags zero and its own address |
| `ExportTrie.WalkNames` | src/link_macho.c:624-648 | on any bytes the linker's reader finds the names of the entries |
| `ExportTrie.VisibleLimits` | src/link_macho.c:626-644 | all names are within the limits exactly if the trie is not deeper than 128 and no name reaches 4096 bytes |
| `ExportTrieLinker.RoundTrip` | src/link_macho.c:624-648 | reading a settled trie gives exactly the exported names, and reading its entries exactly the exports with their addresses, if and only if these limits suffice |
| `ExportTrieLinker.ExportTable` | src/link_macho.c:1345-1365 | the padded bytes of the exports' trie after 64 rounds, settled or not; settled exactly if it was after 63, and then both round trips hold |
| `EhFrame.FrameRecords` | src/link_elf.c:1063-1081 | the scan finds the records that `Parse` defines, or reports malformed data |
| `EhFrame.Choose` | src/link_elf.c:1095-1104 | marks the FDEs of live code and the CIEs that these name |
| `EhFrame.Compact` | src/link_elf.c:1105-1132 | bytes and relocations of the kept records, or an error for a kept FDE without its CIE; `EhFrame.ContentsKept` says what they hold |
| `EhFrame.PointerFits` | src/link_elf.c:1118-1125 | a CIE precedes its FDE and comes no further away, so the new distance is a nonzero 32-bit word |
| `EhFrame.Reparses` | src/link_elf.c:1091-1142 | parsing the compacted section finds the kept records in order, each at its new place |
| `EhFrame.CieFollows` | src/link_elf.c:1118-1125 | every kept FDE points at the moved copy of its own CIE |
| `EhFrame.RelasKept` | src/link_elf.c:1126-1131 | a relocation of a kept record stays at the same offset within it |
| `EhFrame.RelasOrigin` | src/link_elf.c:1126-1131 | every relocation of the result comes from a kept record |
| `EhFrame.ContentsKept` | src/link_elf.c:1105-1132 | found again by parsing, every kept record has all its bytes but for an FDE's pointer, its relocations with symbol, type and addend at their place in it, and its own CIE; nothing else is there |
| `EhFrame.AddressNamesCode` | src/link_elf.c:1082-1090 | of an FDE as compilers write it, the relocation of the code's address decides whether it stays |
| `EhFrame.RewriteFrames` | src/link_elf.c:1091-1142 | the whole rewriting: which records stay, that the result parses back to them, and that each has its contents, relocations and CIE |
| `GarbageCollection.Collector.MarkRelocations` | src/link_elf.c:1046-1056 | marks every markable section a range of relocations refers to, and no other |
| `GarbageCollection.Collector.ScanTable` | src/link_elf.c:1186-1196 | a scan of an unwind table that marks nothing shows the table asks for nothing new |
| `GarbageCollection.Collector.Collect` | src/link_elf.c:1150-1201 | marking ends; the live set is closed under relocations and frame edges, and contained in every closed set that holds the roots |
| `GarbageCollection.NoDangling` | src/link_elf.c:1091-1201 | no relocation that compaction keeps names a section that marking dropped, but for those before the end of an FDE's address |
| `GarbageCollection.SameFrames` | src/link_elf.c:1082-1100 | compaction keeps an FDE exactly if marking takes it to describe live code |
| `Layout.PlaceOutput` | src/link_elf.c:1593-1607 | sections follow one another in the output, each at a multiple of its alignment and with less padding before it than that |
| `Layout.PlacedAligned` | src/link_elf.c:1593-1607 | with addresses congruent to offsets modulo the page, every section's address is aligned |
| `Layout.Linker.Start` | src/link_elf.c:1630-1645 | each segment starts on the first page behind the one before it, at an address congruent to its offset; data with its own address starts there |
| `Layout.Linker.LayData` | src/link_elf.c:1647-1666 | the data segment, its protected part ending on a page, zero-filled data last |
| `Layout.Linker.LayOut` | src/link_elf.c:1613-1673 | the whole layout: sections kept, aligned, in order and tightly packed in the segments their groups need, in the file as in memory and one segment behind the other there; no two sections overlap and segments ascend on pages of their own; with data at its own address the others still do, data has its own pages exactly if it starts behind them or ends before the base, and its load image lies behind them; the protected range is followed by all that stays writable |
| `Layout.NoOverlap` | src/link_elf.c:1613-1673 | sections overlap only if they are in two segments that do |
| `Layout.AwayExactly` | src/link_elf.c:1640-1644 | data at an address of its own shares no page with the stacked segments if and only if it is empty, ends at or before the base, or starts at or behind the end of each that is not empty |
| `Layout.DataOverCode` | src/link_elf.c:1640-1644 | for every page size and base: data sent to the base puts a data section on the bytes of a code section |
| `Layout.Linker.LayOutInRegions` | src/link_elf.c:2356-2363 | an image is accepted exactly if every segment stays in its memory region, and then no two sections overlap if data memory lies behind the image's |
| `ElfClass.SymbolRoundTrip` | src/elf_class.h:105-119 | a symbol whose values fit survives narrowing and widening byte for byte |
| `ElfClass.RelocationRoundTrip` | src/elf_class.h:120-139 | so does a relocation, with offset, symbol, type and signed addend |
| `ElfClass.SymbolExact` | src/elf_class.h:105-119 | a symbol survives if and only if its value and size fit |
| `ElfClass.RelocationExact` | src/elf_class.h:120-139 | a relocation survives if and only if place, symbol, type and addend fit |
| `ElfClass.TableExact` | src/elf_class.h:105-139 | a table survives if and only if all its entries do |
| `ElfClass.SymbolFields` | src/elf_class.h:105-119 | where an ELF32 symbol has its fields |
| `ElfClass.RelocationFields` | src/elf_class.h:120-139 | where an ELF32 relocation has place, symbol, type and signed addend |
| `ElfClass.HeaderExact` | src/elf_class.h:141-153 | the ten words of an ELF32 section header are read back as the header if and only if its values fit |
| `ElfClass.NarrowInto` | src/elf_class.h:105-139 | entries written one by one over a cleared table give the narrow table followed by zeros |
| `ElfClass.InPlace` | src/elf_class.h:98-153 | rewriting tables in place leaves every other section's bytes alone |
| `ElfClass.Narrow` | src/elf_class.h:43-157 | given a valid file header, accepts exactly the files whose sections are inside and whose values fit |
| `ElfClass.Widen` | src/elf_class.h:160-244 | given a valid file header, accepts exactly the files whose sections are inside, and lays sections out behind one another |
| `ElfClass.LaidContent` | src/elf_class.h:172-242 | each widened section has its header fields and its converted content at its new place |
| `ElfClass.LaidApart` | src/elf_class.h:172-186 | widened sections stand on their alignment, behind the file header, one behind the other |
| `ElfClass.RoundTrip` | src/elf_class.h:43-244 | widening a narrowed file always keeps names, types, flags, addresses, links and infos; it restores entry size, length, alignment and bytes, of tables all complete entries, if and only if no section has a table type with the other class's entry size |
| `ElfClass.MistakenTable` | src/elf_class.h:172-182 | an input on which it does not: twelve bytes under a table type become a longer entry |
| `TypeTable.Interner.InternPointer` | src/ast.c:450-466 | a number for the pointer type: the old one if there is one; earlier numbers keep their meaning; the error number only with a full table |
| `TypeTable.Interner.InternArray` | src/ast.c:467-482 | the same for arrays |
| `TypeTable.Interner.InternSlice` | src/ast.c:483-497 | the same for slices |
| `TypeTable.Interner.InternFn` | src/ast.c:498-526 | the same for function types, whose parameters lie in a shared table |
| `TypeTable.Injective` | src/ast.c:450-526 | numbers stand for the same type exactly if they are equal |
| `TypeTable.Interner.Substitute` | src/ast.c:900-934 | terminates and denotes substitution, while interning adds entries under it |
| `TypeTable.LimitedIsSubst` | src/ast.c:918-922 | the result is structural substitution exactly if no function type that is skipped is affected by the arguments |
| `TypeTable.SmallNotMissed` | src/ast.c:918-922 | types with at most 64 parameters and no variadic arguments miss nothing |
| `NameIndex.Index.Extend` | src/ast.c:88-93 | appended names go in front of their chains, so that each bucket reaches exactly its names |
| `NameIndex.Index.Search` | src/ast.c:94-102 | the chain walk ends and finds the lowest match |
| `NameIndex.Index.Find` | src/ast.c:68-111 | over any growth and rebuilding the answer is that of the linear scan, for both relations |
| `ScopeIndex.Index.Finish` | src/dyn_scope.h:106-112 | any sorted arrangement gets the largest end among same-named earlier bindings |
| `ScopeIndex.Index.LocalAt` | src/dyn_scope.h:121-132 | true exactly if a recorded interval of the name contains the byte |
| `InterfaceCache.Cache.Get` | src/analysis_cache.c:131-146 | a hit is the last accepted value of a byte-equal key and becomes the most recent entry |
| `InterfaceCache.Cache.Put` | src/analysis_cache.c:147-169 | accepted exactly if it fits the limit, in front of the longest initial part of the list that leaves room; count and bytes match the list and stay within limits |
| `InterfaceCache.TrimmedLongest` | src/analysis_cache.c:161-166 | what is kept is an initial part of the list, leaves room, and no longer part does |
| `SnapshotCache.RetainedAdd` | src/analysis_cache.c:42-44 | the exact sum, or the largest size if that overflows |
| `SnapshotCache.Cache.Release` | src/analysis_cache.c:359-366 | a snapshot is freed exactly when neither cache nor any holder needs it |
| `SnapshotCache.Cache.GetModule` | src/analysis_cache.c:193-203 | a hit exactly if an equal source is cached; it moves to the front and gains a holder |
| `SnapshotCache.Cache.PutModule` | src/analysis_cache.c:204-232 | stored in front of the longest part of the other paths' entries that leaves room, with two references; refused without a change if not checked to the end or too large |
| `SnapshotCache.TrimmedLongest` | src/analysis_cache.c:218-222 | what is kept is an initial part of the list, leaves room, and no longer part does |
| `SnapshotCache.Cache.GetProject` | src/analysis_cache.c:390-414 | the first entry of the root: if its inputs are unchanged it is stamped and held, otherwise dropped and released |
| `SnapshotCache.Cache.MakeRoom` | src/analysis_cache.c:481-496 | least recently used entries go one by one, exactly until there is room; each one left was used after each one gone |
| `SnapshotCache.EvictedRecent` | src/analysis_cache.c:481-496 | every entry left was used strictly after every entry evicted |
| `SnapshotCache.EvictedLeast` | src/analysis_cache.c:481-496 | and no more than necessary: with the last entry evicted there was no room |
| `SnapshotCache.Cache.PutProject` | src/analysis_cache.c:415-515 | refused without a change if not parsed or source or snapshot are too large, otherwise stored first with the newest stamp, in place of the root's old entry and before the most recently used others |
| `BuildPlan.SortOrder` | src/build.c:76-84 | the in-place sort gives a permutation of the jobs, largest first and equal ones in their order |
| `BuildPlan.EachJobOnce` | src/build.c:138-152 | in every interleaving, by counter or by stride, no job runs twice, and each has run once when all workers have exited |
| `BuildPlan.Serial` | src/build.c:97-110 | all jobs in order, and the first error |
| `BuildPlan.ParallelIsSerial` | src/build.c:111-184 | a finished parallel run leaves the values and the first error of the serial path |
| `BuildPlan.RunsEnd` | src/build.c:138-152 | every fair run ends: in any run the workers take at most a fixed number of steps, and none is left exactly when all have exited |
| `BuildPlan.RunBuild` | src/build.c:97-184 | result and values are those of the jobs in order, whether one worker ran them or several in any interleaving |

## Left out

- Source semantics use fuel: a run is cut after a given number of loop iterations. The theorems hold for every amount, so they speak about every finite prefix of every run.
- The range prover's IR is the part its functions look into; other expression kinds and statements are opaque steps that may do anything to the store. Programs that violate declared types run to an explicit stuck result.
- RangeSoundness.ElisionPreservesMeaning: assumes that expression nodes are not shared and that a loop's own locals are not assigned outside it, as lowering produces them; floating-point nodes and the recursion limit on expression depth are not modelled.
- WasmInteger.Emitter.Binary: models integer types; floating-point operators other than the remainder and the cleanups that a failing guard runs (these are in the control-flow model) are not part of it.
- WasmControlProof.LoweringPreservesMeaning: expressions count as effects and checks, and conditions, case tests and checks are answered by an arbitrary oracle; values, memory traffic and the register that restores the frame are not modelled. It assumes the checker's rules for deferred blocks and that nested loops have different numbers.
- WasmTokens.RunTokens: the bytes of an instruction are one token; effects, tests and operands of ranges are tokens whose effect the oracle gives.
- RangeCompleteness.MeetBest: a maximum that no operands reach is the source's own; ranges of operators other than sum, product and conjunction are unknown there and stay so.
- WasmControlEmitter.Emitter.Iteration: drops a finished loop's table entry, which the source leaves behind unused; loops over collections are not modelled.
- WasmControlEmitter.Emitter.Ranged: bounds are loaded behind the evaluation of both operands, and temporaries are numbered by nesting; the source also reuses free ones and saves the outcome of each comparison.
- The language guide (docs/guide/language.md:247-253) says that a panic raised by a defer aborts remaining cleanup. The Wasm backend does so only for a failed check during the cleanup of a failed check; the model follows the code, `WasmControlProof.DeferredFailure` states the exact condition for every deferred block and `WasmControlProof.PanicGoesOn` gives an input.
- Fmod.Remainder: the expressions that produce NaN and signed zero are taken as that NaN and that zero.
- WasmRemainder.EmittedRemainder: executes the loops that the emitted instructions form, without the instructions themselves; operands are magnitudes with separate signs.
- UnwindSlots.SlotsExclusive: a frame record is linked only while no thread uses it; memory orders weaker than the order of steps, message copying and the jump itself are not modelled. With interference a call may search for ever; `UnwindProgress.SoloCall` is about calls that are not disturbed.
- ExportTrieLinker.ExportTable: that 64 rounds suffice for every trie is not claimed, the bound in `ExportTrieRounds.Settles` is larger; offsets and addresses are unbounded, and nodes are values, not linked objects.
- EhFrame.RewriteFrames: which symbols lie in live sections is a parameter; records of the compacted bytes are appended rather than copied into a preallocated buffer.
- GarbageCollection.Collector.Collect: covers marking from given roots (which symbols and sections are roots is a parameter); `dyn_unwind` and debug sections, which later become live without being followed, are not part of it.
- Layout.Linker.LayOut: alignments are powers of two up to the page, as the linker's inputs have, and base and data address are multiples of the page; zero-filled thread storage shares addresses on purpose.
- ElfClass.Narrow: file and section headers are records; their bytes, the checks of the file header, program headers and the limit on the file's size are not modelled, neither here nor in `ElfClass.Widen`.
- ElfClass.RoundTrip: sections must lie apart from each other and behind the file header, which the source does not check; the alignment of a table becomes eight.
- TypeTable.Interner.Substitute: variadic entries and function types with more than 64 parameters are returned unchanged by the source; `TypeTable.LimitedIsSubst` says when that matters. Running out of numbers sets a flag, after which results are not specified.
- NameIndex.Index.Find: the hash is an arbitrary function of the text; source paths are always present.
- ScopeIndex.Index.Finish: the library sort is a parameter, any sorted permutation.
- SnapshotCache.Cache.GetProject: whether inputs are unchanged is a parameter; disk fingerprints, byte estimates of snapshots and allocation failure are not modelled, also in `SnapshotCache.Cache.PutProject`.
- BuildPlan.EachJobOnce: worker crashes and failed forks, and how sources are split into jobs, are not modelled.
- Parser, semantic analysis, native code generation, PE/COFF output, the Wasm object linker, code signing, the language server and all file and process handling: not part of this model.
