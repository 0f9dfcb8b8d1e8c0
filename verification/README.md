# Verified models of the hooking and utility cores

A Dafny model of four parts of the repository, with proofs of what they are for. `dafny verify dfyconfig.toml` checks
all of it.

**The inline hook** (`gothook/libhook`). `ArmMachine` and `ThumbMachine` say what the instructions do that the relocator
reads or writes, after sections A2.3 and A8.8 of ARM DDI 0406C; every other instruction is abstract. `ArmDomain` and
`ThumbDomain` name the encodings, of the architecture and not of the relocator, that the theorems are about. `ArmChunks`
and `ThumbChunks` are the relocator's classifiers, which `ArmSimulation.KindIs`, `ThumbSimulation.Kind16Is` and
`Kind32Is` compare with those encodings, and the code that it emits; `ArmRelocator` and `ThumbRelocator` are its loops
over the trampoline and boundary arrays, and `ArmMeaning` and `ThumbMeaning` prove that the trampoline means what the
original meant: it is a small compiler, and this is its correctness. For what the relocator gets wrong, `ArmDeviations`
and `ThumbDeviations` say what its code does instead, and exactly when that is right all the same: conditional ARM
branches, address constants, literal loads and moves; 16-bit Thumb branches, ADR in both sizes, loads and moves to
registers above R7, and BLX from an address that is no multiple of four. `ThumbTables` runs the table branches. What is
left is listed below. `ArmPage` and `ThumbPage` are for a page that holds a whole trampoline.

`HookTable` is the table of hooks with the memory that it patches, as values, with the invariant of every run;
`HookItems` adds what every run keeps of the code, the boundaries and the callers' pointers, `HookView` proves that the
table is a map of what was asked for, reply by reply, and `HookCode` is the code that works on all this in place.
`HookMigration` moves stopped threads by the boundary tables of one item, `HookThreads` by those of all. `PatchMeaning`
runs the patch. `HookMeaning` puts it together: after any run a hooked target runs its replacement; the code that the
run left in its item, entered at the start, through the pointer that the caller got, or by a thread that was moved, runs
the original. `HookLiterals` is about the words that this code was made with.

**AES, padding and base64** (`aescrypto`). `Gf256`, `MixColumn` and `Aes` are the cipher and the algebra that makes each
step of the inverse cipher undo one of the cipher; `AesSBox` proves its tables to be the affine map of the field's
inverse, and `AesReference` compares cipher and schedule, byte by byte, with FIPS 197. `AesCode` runs them in place on
the output buffer. `Base64` and `Base64Code` are the codec of section 4 of RFC 4648, `Base64Bits` states it as a stream
of bits, and `AesText` and `AesTextCode` are the text functions on top of both.

**Resource configurations** (`ResTable_config`). `Config` has `match`, `isMoreSpecificThan` and `isBetterThan`, test by
test. `ConfigOrder` and `BetterOrder` prove the last two to be lexicographic comparisons of vectors of ranks, `Lex` that
this is a strict weak order, and `DensityOrder` does the nonlinear rule for densities.

**Heap structures** (`List.h`, `RefBase.h`). `RingList` is the circular list with its nodes and iterators. `RefBase` is
the counting pointer as classes, one operation at a time; `RefCount` takes the operations apart into atomic steps that
interleave in any way.

Some things that the code promises do not hold of it. The model keeps the code as it is, and a lemma says exactly when
the promise is kept:

- Encrypting and decrypting a string returns it exactly if the number of its blocks is no multiple of three and none of
  its bytes is below 17 (`AesText.ComesBackIff`).
- Two configurations that match can each be better than the other exactly where densities 0 and 160 meet
  (`BetterOrder.BothBetterIff`).
- A relocated conditional ARM branch is right exactly when its condition holds or makes no difference, a relocated
  16-bit Thumb branch exactly when it is not taken, and a relocated BLX to an address exactly when it was at a multiple
  of four (`ArmDeviations.BranchRightIff`, `ThumbDeviations.ShortConditionalRightIffNotTaken`,
  `ThumbDeviations.BlxRightIff`).
- A thread that is moved to a trampoline and back is where it was, whatever its PC, exactly if each entry of either
  boundary table is the first with its value whenever the matching entry of the other one is
  (`HookMigration.RoundTripsIff`). Deletion leaves the entries of a slot in place, so the next target of the slot can
  break this: for two targets exactly if an instruction of the one begins where one of the other did and its chunk does
  not, or its chunk does and it does not (`HookMigration.ReusedSlotIff`; `HookMigration.ReusedSlotCanLoseThePc` is such
  a run).
- Hooking everything moves a thread by the item whose target it is in if all targets are of one kind
  (`HookThreads.EveryRunMovesOwn`). A boundary left over from a longer Thumb target can
  reach into the target after an ARM one and move its thread (`HookThreads.ThreadOfAnother`); an item has its way with a
  PC exactly under the condition of `HookThreads.MovedByItemIff`.
- A trampoline loads the literals that are first in memory exactly if its registration found them there
  (`HookLiterals.CodeIsFirstIff`); under the patch of another target it does not (`HookLiterals.LiteralUnderAPatch`).
- Being the better match is a strict weak order, among configurations that match and spell the default density one way,
  for exactly the requested densities up to 32770 and for 0xffff; for any other a product wraps round and three
  configurations beat one another in a ring (`BetterOrder.BetterIsAnOrderIff`).
- Decryption keeps to its buffers for exactly the texts of `AesText.DecryptableIff`.
- Inserting a range of a list into the list itself stops exactly if the range does not go behind its own first element
  and at most right behind its last (`RingList.OwnRangeStopsIff`).

## Model

| member | source | states |
|---|---|---|
| ArmMeaning.ArmRelocationKeepsMeaning | gothook/libhook/relocate.c:485-602 | From whichever word of the original both start, the trampoline comes to the same destination, instruction set, registers, flags, SP and memory as the original words, and every BL or BLX leaves LR at the relocated successor; for every stream of AL BL, B and BX PC, BLX, ADR without rotation, offset LDR of a literal, MOV Rd, PC, ADD Rd, PC, Rm clear of SP and PC, and words that do not read the PC, told by the architecture's encodings |
| ArmSimulation.KindIs | gothook/libhook/relocate.c:136-166 | For every word, the classifier names a kind if and only if the word is that instruction of ARM DDI 0406C: the encodings are stated without it |
| ArmMeaning.SequenceRuns | gothook/libhook/relocate.c:496-597 | The same for every suffix of the words, by induction over the loop, with the number of steps it takes |
| ArmMeaning.ChunkRuns | gothook/libhook/relocate.c:504-595 | One chunk, run where it was put, does what its word does where it was, and ends at the next chunk |
| ArmMeaning.ChunkAddressAdds | gothook/libhook/relocate.c:496-502 | Chunk addresses compose, so a link taken late in a run is still a boundary of the whole trampoline |
| ArmPage.PageRuns | gothook/libhook/relocate.c:485-602 | A page that holds the whole trampoline of the words all along, entered at the chunk of any word, runs what the words from there on would |
| ArmPage.OnlyLiteralsMatter | gothook/libhook/relocate.c:574-584 | Two trampolines of the same words are equal exactly if the relocation read the same words at the addresses of their literals |
| ArmDeviations.ConditionsAreDropped | gothook/libhook/relocate.c:506-595 | A trampoline of conditional branches, loads, moves and ADRs, entered at the chunk of any word, runs like their unconditional, flag-free forms, with every link at the chunk of its successor |
| ArmDeviations.MeantTrampoline | gothook/libhook/relocate.c:485-602 | A trampoline cannot tell a conditional word from its unconditional form |
| ArmDeviations.BranchRightIff | gothook/libhook/relocate.c:506-536 | The chunk of a conditional B or BX PC leads where the word does exactly when the condition holds, or when the destination is the next chunk anyway |
| ArmDeviations.LinkRightIff | gothook/libhook/relocate.c:512-536 | The chunk of a conditional BL does exactly when the condition holds, or when destination and LR are the next chunk anyway |
| ArmDeviations.AddressRightIff | gothook/libhook/relocate.c:563-573 | The chunk of an ADR is right exactly when its immediate is not rotated, and when its condition does not hold, exactly when the register has the value that the chunk loads |
| ArmDeviations.LoadRightIff | gothook/libhook/relocate.c:574-584 | The chunk of an LDR is right exactly when the literal is what the relocation read, and when its condition does not hold, exactly when the register holds that anyway |
| ArmDeviations.MoveRightIff | gothook/libhook/relocate.c:586-592 | The chunk of a MOV from the PC is right exactly when its condition holds, or when the register has the value anyway |
| ArmDeviations.FlagMoveRightIff | gothook/libhook/relocate.c:586-592 | The chunk of a MOVS is right exactly when the flags are what it sets anyway, and when its condition does not hold, exactly when the register has the value |
| ArmDeviations.PcLoadRightIff | gothook/libhook/relocate.c:558-590 | The chunk of any of these to the PC is right exactly when its condition holds and the literal is what the original writes, or the original has no defined destination; and when its condition does not hold, exactly when the literal is the next chunk |
| ArmDeviations.BranchChunkJumps | gothook/libhook/relocate.c:506-536 | Whatever its condition, the chunk of any B or BX PC goes to the destination of the branch |
| ArmDeviations.LinkChunkJumps | gothook/libhook/relocate.c:512-536 | The chunk of any BL sets LR and goes to its destination |
| ArmDeviations.LoadChunkSets | gothook/libhook/relocate.c:558-590 | The chunk of any ADR, LDR or MOV from the PC sets the register to the literal: the sum without the rotation, the word that the relocation read, or the PC |
| ArmDeviations.PcChunkJumps | gothook/libhook/relocate.c:558-590 | The chunk of any of these to the PC goes where the literal says |
| ArmDeviations.AddChunkBorrows | gothook/libhook/relocate.c:537-557 | The six words of the chunk of any ADD Rd, PC, Rm, with any registers, shift and condition: a push of a register from R10 to R12 that the ADD does not name, a load of the old PC into it, the ADD with nothing but its first operand replaced, the pop, and a jump over the old PC |
| ArmDeviations.CopiedAsIs | gothook/libhook/relocate.c:591-594 | Every word that is none of the rewritten instructions is copied as it is |
| ArmSimulation.BranchChunk | gothook/libhook/relocate.c:506-536 | B and BX PC: one load of PC from the literal after it goes where the branch went |
| ArmSimulation.LinkChunk | gothook/libhook/relocate.c:512-536 | BL and BLX: LR is set to the word after the literal, and the state bit of the destination is kept |
| ArmSimulation.AddRun | gothook/libhook/relocate.c:537-557 | ADD Rd, PC, Rm: push, load of the old PC, the ADD, pop, and a skip over the literal leave the sum, the flags and SP as the original does |
| ArmSimulation.LoadRun | gothook/libhook/relocate.c:558-590 | ADR, MOV and LDR from the PC: the literal goes where the value went and is stepped over, also when the register is PC |
| ArmSimulation.CopyChunk | gothook/libhook/relocate.c:591-594 | A copied word does the same at its new address, whatever the abstract instructions do |
| ArmRelocator.RelocateInstructionInArm | gothook/libhook/relocate.c:485-602 | The loop writes exactly the trampoline of the words, and appends both boundary tables from entry `count` on |
| ArmRelocator.EmitChunk | gothook/libhook/relocate.c:504-595 | One round writes exactly the chunk of its word and nothing else |
| ArmRelocator.PickRegister | gothook/libhook/relocate.c:545-549 | The search from R12 down finds the highest register that is neither Rd nor Rm |
| ArmRelocator.ChunkStartBounds | gothook/libhook/relocate.c:496-601 | Chunk starts grow strictly, and no word needs more than six words |
| ArmRelocator.TrampolineFits | gothook/libhook/relocate.c:485-602 | `w` words need at most `6w + 2` words of trampoline |
| ArmRelocator.ChunkStartAddress | gothook/libhook/relocate.c:500-502 | The recorded trampoline boundaries are the addresses of the chunks |
| ArmRelocator.TrampolineIsChunks | gothook/libhook/relocate.c:496-601 | The loop's output is the trampoline that was defined word by word |
| ThumbMeaning.ThumbRelocationKeepsMeaning | gothook/libhook/relocate.c:438-483 | The same theorem for Thumb streams, told by the encodings of 16-bit and 32-bit instructions: BL forwards and backwards, BLX at a multiple of four, B.W with and without a condition, CBZ and CBNZ, BX PC, ADD and MOV of the PC and literal loads for R0 to R7, SVC #0, instructions that do not read the PC, and a half instruction at the end |
| ThumbSimulation.Kind16Is | gothook/libhook/relocate.c:75-102 | For every halfword, the classifier names a kind if and only if it is that instruction of ARM DDI 0406C; traps alone are taken for conditional branches |
| ThumbSimulation.Kind32Is | gothook/libhook/relocate.c:104-134 | The same for every pair of halfwords, branches in both directions included |
| ThumbMeaning.SequenceRuns | gothook/libhook/relocate.c:448-482 | The same for every suffix of the stream, by induction over the loop |
| ThumbMeaning.ChunkRuns | gothook/libhook/relocate.c:168-436 | One chunk, run where it was put, does what its instruction does, and every skip lands on the next chunk |
| ThumbMeaning.ResumesPastThePatch | gothook/libhook/relocate.c:448-482 | For twelve saved bytes the trampoline goes back to target + 12, or to target + 10 exactly if an instruction straddles the end; never inside the bytes that are patched, always to the start of an instruction |
| ThumbMeaning.ConsumedIsABoundary | gothook/libhook/relocate.c:455-473 | Relocation stops at the end or before one half instruction |
| ThumbMeaning.TrampolineResumes | gothook/libhook/relocate.c:476-482 | The last four halfwords jump to the first halfword that was not relocated |
| ThumbMeaning.TrampolineFits | gothook/libhook/relocate.c:168-483 | `h` halfwords need at most `8h + 4` |
| ThumbMeaning.ChunkHasItsLength | gothook/libhook/relocate.c:168-436 | Each kind of chunk has its length, a multiple of four bytes |
| ThumbMeaning.ChunkAddressAdds | gothook/libhook/relocate.c:451-453 | Chunk addresses compose along the stream |
| ThumbPage.PageRuns | gothook/libhook/relocate.c:438-483 | A page that holds the whole trampoline of the halfwords all along, entered at the chunk of any instruction, runs what they would from there on |
| ThumbPage.OnlyLiteralsMatter | gothook/libhook/relocate.c:241-378 | Two trampolines of the same halfwords are equal exactly if the relocation read the same words at the addresses of their literals |
| ThumbChunkRuns.CompareChunk | gothook/libhook/relocate.c:252-267 | CBZ and CBNZ: taken and not taken, the short branch, the skip and the long jump lead where the original leads |
| ThumbChunkRuns.AddRun | gothook/libhook/relocate.c:206-228 | ADD Rdn, PC: a borrowed low register takes the old PC and is given back |
| ThumbChunkRuns.LoadChunk | gothook/libhook/relocate.c:229-251 | A 16-bit literal load gets the word that it would have loaded |
| ThumbChunkRuns.LinkChunk | gothook/libhook/relocate.c:288-337 | BL and BLX: destination, instruction set and LR, for a BLX at a multiple of four |
| ThumbChunkRuns.WideBranchChunk | gothook/libhook/relocate.c:324-337 | B.W goes where it went |
| ThumbChunkRuns.ConditionalChunk | gothook/libhook/relocate.c:308-337 | B.W with a condition: taken and not taken |
| ThumbChunkRuns.TrapChunk | gothook/libhook/relocate.c:182-188 | SVC #0 and UDF #0, which the classifier takes for conditional branches, do what they did, and one that returns skips the rest of its chunk |
| ThumbSimulation.OffsetAgrees | gothook/libhook/relocate.c:288-329 | The offset that the code puts together from the bit fields is the one of the architecture |
| ThumbDeviations.ShortConditionalRightIffNotTaken | gothook/libhook/relocate.c:182-195 | A relocated 16-bit conditional branch is right exactly when it is not taken, because its literal lacks the Thumb bit |
| ThumbDeviations.ShortBranchIsWrong | gothook/libhook/relocate.c:190-195 | A relocated 16-bit unconditional branch never is |
| ThumbDeviations.ShortConditionalRun | gothook/libhook/relocate.c:182-195 | What its chunk does: the successor if the branch is not taken, else the destination, but in the ARM set |
| ThumbDeviations.ShortBranchRun | gothook/libhook/relocate.c:190-195 | And the chunk of the unconditional one: the destination, but in the ARM set |
| ThumbDeviations.AdrRun | gothook/libhook/relocate.c:237-243 | What the chunk of a 16-bit ADR puts in the register: the PC and the immediate added and then multiplied by four, aligned |
| ThumbDeviations.WideAdrRun | gothook/libhook/relocate.c:343-360 | What the chunk of a 32-bit ADR does: the named register, three bits of the four, gets the aligned PC with the fields of the offset moved too far up, added where the ADR subtracts and the other way round |
| ThumbDeviations.AddChunkBorrows | gothook/libhook/relocate.c:206-228 | The halfwords of the chunk of any ADD Rdn, PC, SP and PC included: a push of R6 or R7, a load of the old PC, the ADD of that register instead, the pop, and a jump over the old PC |
| ThumbDeviations.CopiedAsIs | gothook/libhook/relocate.c:268-436 | Every instruction that is none of the rewritten ones is copied as it is, a 16-bit one with a NOP behind it |
| ThumbDeviations.TrapLosesItsNumber | gothook/libhook/relocate.c:182-188 | SVC and UDF stay what they are but for the number, which becomes 0, and one that returns skips the rest of its chunk |
| ThumbDeviations.HintBecomesTrap | gothook/libhook/relocate.c:320-337 | The hints and barriers that are taken for conditional branches become UDF #0 or SVC #0 |
| ThumbTables.TableBranchRuns | gothook/libhook/relocate.c:387-429 | The chunk of a TBB or TBH comes to the PC plus twice the table entry that the PC and the index tell, after nine steps, with the stack as it was and nothing clobbered but one low register, which it does not use as index, and the flags |
| ThumbDeviations.AdrRightIff | gothook/libhook/relocate.c:237-243 | The chunk of a 16-bit ADR, run, leads where the instruction does exactly when the aligned PC is 0, because the sum is shifted |
| ThumbDeviations.WideAdrRightIff | gothook/libhook/relocate.c:343-360 | The chunk of a 32-bit ADR is right exactly when its offset is 0, for R0 to R7; for the other registers, when the register has the address and the one eight below it the literal already; always for SP and PC, which the architecture leaves open |
| ThumbDeviations.WideLoadRightIff | gothook/libhook/relocate.c:362-383 | The chunk of a 32-bit literal load is right exactly when the literal is as it was, for R0 to R7; for the other registers, when the register has the loaded word and the one eight below it the literal already; for PC, when the loaded address is the next chunk and R7 has the literal, or is no address to branch to |
| ThumbDeviations.MoveRightIff | gothook/libhook/relocate.c:233-236 | The chunk of a MOV from the PC is right for R0 to R7; for the other registers exactly when the register and the one eight below it have the value already; for PC exactly when the next chunk is where the MOV leads and R7 has the value |
| ThumbDeviations.BlxRightIff | gothook/libhook/relocate.c:304-318 | The chunk of a BLX to an address is right exactly when the BLX is at a multiple of four, or has its last bit set and is not defined |
| ThumbDeviations.CopiedBlxLinksToPadding | gothook/libhook/relocate.c:268-275 | A copied BLX jumps where it should and links to the padding after it |
| ThumbDeviations.PaddingFallsThrough | gothook/libhook/relocate.c:268-275 | Returning there falls through to the successor |
| ThumbRelocator.RelocateInstructionInThumb | gothook/libhook/relocate.c:438-483 | The loop writes exactly the trampoline of the stream, and appends both boundary tables from entry `count` on |
| ThumbRelocator.RelocateInstructionInThumb16 | gothook/libhook/relocate.c:168-276 | Writes exactly the chunk of a 16-bit instruction |
| ThumbRelocator.RelocateInstructionInThumb32 | gothook/libhook/relocate.c:278-436 | Writes exactly the chunk of a 32-bit instruction, table branches included |
| ThumbRelocator.StartsMatch | gothook/libhook/relocate.c:451-453 | Both boundary tables get one entry a round |
| ThumbRelocator.OrigStartsIncrease | gothook/libhook/relocate.c:451-473 | The original boundaries grow strictly |
| ThumbRelocator.TrampStartsIncrease | gothook/libhook/relocate.c:451-473 | The trampoline boundaries grow strictly |
| ThumbRelocator.StartsAreBoundaries | gothook/libhook/relocate.c:451-473 | Every recorded pair is the start of an instruction and the address of its chunk |
| ThumbRelocator.EveryStartIsRecorded | gothook/libhook/relocate.c:451-473 | And every start of an instruction is recorded, and nothing else: a position is in the table if and only if the loop begins a round there |
| HookTable.EveryRun | gothook/libhook/inlineHook.c:234-425 | After every run from the empty table on pairwise disjoint targets, each registered target holds its saved original, and each hooked one the patch laid over it |
| HookTable.EveryRunLeavesTheRest | gothook/libhook/inlineHook.c:234-425 | And all other memory is as at the start, all of it if nothing is hooked or left |
| HookItems.EveryItemIsRelocated | gothook/libhook/inlineHook.c:253-290 | After every run the code of each live item is the trampoline of the bytes first at its target, made with the literals of a memory that was as at the start wherever no other target is, and its last boundaries are those of that trampoline |
| HookItems.EveryHookedItemHasItsCell | gothook/libhook/inlineHook.c:363-368 | After every run that gives no two targets one pointer cell, the cell of each hooked item holds the address of its trampoline, with bit 0 for Thumb |
| HookView.EveryRunShows | gothook/libhook/inlineHook.c:234-425 | After every run the live items are exactly the entries of a map that was changed as the operations ask: one for each target that a registration claimed and no unhooking took away, with the replacement, the pointer cell and the page of that registration, and whether it is hooked |
| HookView.RegisterShows | gothook/libhook/inlineHook.c:253-290 | One registration, its reply included, for a table and a map that agree: what it adds is what was asked for |
| HookView.HookShows | gothook/libhook/inlineHook.c:375-409 | So does hooking a target, with its three replies |
| HookView.UnhookShows | gothook/libhook/inlineHook.c:305-324 | So does unhooking one |
| HookView.HookFromShows | gothook/libhook/inlineHook.c:411-425 | So does inlineHookAll: every entry is hooked |
| HookView.UnhookFromShows | gothook/libhook/inlineHook.c:326-341 | So does inlineUnHookAll: exactly the entries that are not hooked are left |
| HookView.EveryCallerHasItsPointer | gothook/libhook/inlineHook.c:363-368 | After every run that gives no two targets one pointer cell, the cell that was asked for a hooked target holds the page given for it, with bit 0 for Thumb |
| HookView.EveryRunLeavesOtherCells | gothook/libhook/inlineHook.c:363-368 | A cell that no registration names is as at the start |
| HookTable.RunKeeps | gothook/libhook/inlineHook.c:234-425 | Every run of operations keeps the invariant |
| HookTable.TargetBytes | gothook/libhook/inlineHook.c:343-373 | What the invariant says of the bytes of a target |
| HookTable.UnhookAllRestores | gothook/libhook/inlineHook.c:326-341 | inlineUnHookAll ends, leaves no hooked item, keeps every registered one although the last item moves into each freed place, and restores all of memory |
| HookTable.UnhookKeepsRegistered | gothook/libhook/inlineHook.c:247-251 | Deleting by moving the last item loses no registered one |
| HookTable.HookAllHooks | gothook/libhook/inlineHook.c:411-425 | inlineHookAll leaves every item hooked and nothing else about it changed |
| HookMigration.MigrationIsABijection | gothook/libhook/inlineHook.c:93-121 | With strictly increasing tables, moving a PC with ENABLE and back with DISABLE, or the other way round, gives it back; a PC at no boundary stays |
| HookMigration.MovesIff | gothook/libhook/inlineHook.c:93-121 | With any tables of one length below 2 ^ 31, exactly the PCs at a boundary of the target, or of the page, are moved, to the boundary in the page, or in the target, of the first entry that lies there |
| HookMigration.RoundTripsIff | gothook/libhook/inlineHook.c:93-121 | With any tables of one length, every PC comes back both ways if and only if each entry is the first with its value in one table whenever it is in the other |
| HookMigration.LaterEntryIsLost | gothook/libhook/inlineHook.c:93-121 | Which PC does not come back, if one does not |
| HookMigration.MovedRightIff | gothook/libhook/inlineHook.c:93-108 | With any tables of one length, a PC at a boundary is moved to the trampoline boundary of the same entry if and only if the first entry with its value has that one too |
| HookMigration.WellBoundedLeadsRight | gothook/libhook/inlineHook.c:93-108 | Which it has for every entry of strictly increasing tables |
| HookMigration.NewBoundariesIff | gothook/libhook/inlineHook.c:93-121 | Behind the entries of earlier targets, a boundary is moved to its own chunk, or back from it, exactly when what those entries say of it, if anything, is that |
| HookMigration.FreshTablesAreWellBounded | gothook/libhook/inlineHook.c:253-290 | What a registration in a slot that counts nothing records is strictly increasing on both sides |
| HookMigration.RegisterHookUnhook | gothook/libhook/inlineHook.c:234-303 | Registering, hooking and unhooking a target restores memory and leaves its item in the slot |
| HookMigration.ReusedSlot | gothook/libhook/inlineHook.c:234-290 | The next target of that slot has the boundaries of both, those of the first one first |
| HookMigration.ReusedSlotIff | gothook/libhook/inlineHook.c:234-290 | For two targets of either kind, every PC of the second comes back exactly if each of its instructions begins where one of the first did whenever their chunks do |
| HookMigration.ReusedArmSlotIff | gothook/libhook/inlineHook.c:234-290 | For two ARM targets, every PC of the second comes back exactly if the first words of the two have chunks of one length |
| HookMigration.ReusedSlotCanLoseThePc | gothook/libhook/inlineHook.c:93-290 | A run after which a thread that is moved away from a chunk and back is at another one |
| HookMigration.NextRegistrationIff | gothook/libhook/inlineHook.c:247-290 | Whichever item is unhooked, the next registration puts its boundaries behind those of the last item, and each is moved to its own chunk, or back from it, exactly when what those say of it, if anything, is that |
| HookThreads.MovedByItemIff | gothook/libhook/inlineHook.c:123-143 | With live items that share no byte of target or page, hooking everything moves a PC as a given item alone would exactly if no item before it claims the PC, and no item at all if it does not |
| HookThreads.HookingMovesOwn | gothook/libhook/inlineHook.c:123-143 | If no item has a boundary outside its target, a PC in a target is moved by the item of that target, and any other PC stays |
| HookThreads.UnhookingMovesOwn | gothook/libhook/inlineHook.c:123-143 | Unhooking everything moves a PC in a page by the item of that page, and no other PC |
| HookThreads.MovedComesBack | gothook/libhook/inlineHook.c:123-143 | A thread that hooking everything moved is moved back by unhooking everything, if the item that moved it would move it back |
| HookThreads.EveryRunIsApart | gothook/libhook/inlineHook.c:234-425 | After every run in pages that do not overlap, live items share nothing, and if all targets are of one kind no item has a boundary outside its target |
| HookThreads.EveryRunMovesOwn | gothook/libhook/inlineHook.c:123-143 | So after every run on targets of one kind, in pages that do not overlap, hooking or unhooking everything moves a thread in a target or page by the item of that, and no other thread |
| HookThreads.StrayMovesAnother | gothook/libhook/inlineHook.c:123-143 | A boundary that an item has in the target of a later one moves a thread there somewhere else than the later item would |
| HookThreads.ThreadOfAnother | gothook/libhook/inlineHook.c:93-290 | A run that leaves such a boundary: a Thumb target, unhooked, and two ARM targets after it |
| HookTable.Find | gothook/libhook/inlineHook.c:221-232 | The first live slot of a target, or none |
| HookCode.Hooks.FindItem | gothook/libhook/inlineHook.c:221-232 | The loop finds what the table's definition says |
| HookCode.Hooks.RegisterInlineHook | gothook/libhook/inlineHook.c:253-290 | Each reply, and on success the new item with its saved bytes, trampoline and boundaries |
| HookCode.Hooks.DoInlineHook | gothook/libhook/inlineHook.c:343-373 | Writes the patch and the caller's pointer and marks the item, and nothing else |
| HookCode.Hooks.DoInlineUnHook | gothook/libhook/inlineHook.c:292-303 | Restores the saved bytes and deletes the item |
| HookCode.Hooks.InlineHook | gothook/libhook/inlineHook.c:375-409 | Each reply, and the new table |
| HookCode.Hooks.InlineUnHook | gothook/libhook/inlineHook.c:305-324 | Each reply, and the new table |
| HookCode.Hooks.InlineUnHookAll | gothook/libhook/inlineHook.c:326-341 | The loop that looks at a freed place again does what the recursive definition says |
| HookCode.Hooks.InlineHookAll | gothook/libhook/inlineHook.c:411-425 | The loop does what the recursive definition says |
| HookCode.Hooks.DoProcessThreadPC | gothook/libhook/inlineHook.c:93-121 | The search of either table and the new PC |
| HookCode.Hooks.ProcessThreadPC | gothook/libhook/inlineHook.c:123-143 | Without an item, the loop over all items up to the first that moves the PC |
| PatchMeaning.HookedArmTargetJumps | gothook/libhook/inlineHook.c:360-361 | Running the patch over an ARM target leads to the replacement in its instruction set, with nothing else changed |
| PatchMeaning.HookedThumbTargetJumps | gothook/libhook/inlineHook.c:347-358 | So does running the patch over a Thumb target, after the NOP if the target is no multiple of four |
| PatchMeaning.LittleEndian | gothook/libhook/inlineHook.c:347-361 | Words are read from bytes, and patched into them, with the lowest byte first |
| PatchMeaning.AddressIs | gothook/libhook/inlineHook.c:343-373 | The address of a byte is its number modulo 2 ^ 32, digit by digit as the patch has it |
| HookMeaning.ReachedItem | gothook/libhook/inlineHook.c:234-425 | Each live item of every table that can be reached has the bytes first at its target, its boundaries, and the trampoline of those bytes, made with literals of a memory that was as at the start wherever no other target is |
| HookMeaning.ReachedArmCode | gothook/libhook/inlineHook.c:253-290 | If no literal of an ARM target lies under another target, the code of its item is the trampoline of the words first at the target with the literals first in memory |
| HookMeaning.ReachedThumbCode | gothook/libhook/inlineHook.c:253-290 | The same for a Thumb target |
| HookLiterals.CodeIsFirstIff | gothook/libhook/inlineHook.c:253-290 | A registration makes that code exactly if it finds the first words where the target loads its literals |
| HookLiterals.LiteralUnderAPatch | gothook/libhook/inlineHook.c:253-373 | A run after which it is not: the literal is the first word of another target, which is hooked when this one is registered, and the code loads the first word of its patch |
| HookMeaning.HookedArmTargetRunsReplacement | gothook/libhook/inlineHook.c:343-373 | After any run, calling a hooked ARM target leads to the replacement that its registration asked for |
| HookMeaning.HookedThumbTargetRunsReplacement | gothook/libhook/inlineHook.c:343-373 | After any run, calling a hooked Thumb target does |
| HookMeaning.ArmTrampolineRunsOriginal | gothook/libhook/relocate.c:485-602 | After any run, a page that holds the code that the run left in a live ARM item runs the words first at the target |
| HookMeaning.ThumbTrampolineRunsOriginal | gothook/libhook/relocate.c:438-483 | So does the page of a live Thumb item |
| HookMeaning.ArmCallerRunsOriginal | gothook/libhook/inlineHook.c:343-373 | After any run that gives no two targets one pointer cell, a branch to what is in the cell that was asked for a hooked ARM target runs the words first at the target |
| HookMeaning.ThumbCallerRunsOriginal | gothook/libhook/inlineHook.c:343-373 | The same for a hooked Thumb target |
| HookMeaning.ReachedArmEntry | gothook/libhook/inlineHook.c:253-290 | The last two boundaries of every live ARM item are those of its words and of their chunks |
| HookMeaning.ReachedThumbEntry | gothook/libhook/inlineHook.c:253-290 | The last boundaries of every live Thumb item are those of its instructions and of their chunks |
| HookMeaning.ArmThreadGoesOn | gothook/libhook/inlineHook.c:93-121 | After any run, a thread at a word of a live ARM item is moved, if the entry of that word leads right, and comes to where the original words would have led it |
| HookMeaning.ThumbThreadGoesOn | gothook/libhook/inlineHook.c:93-121 | So does a thread at any instruction of a live Thumb item |
| AesTables.SubUndone | aescrypto/src/main/cpp/aes.c:80-119 | The inverse S-box undoes the S-box on every byte |
| AesTables.InvSubUndone | aescrypto/src/main/cpp/aes.c:80-119 | The S-box undoes the inverse S-box on every byte |
| AesSBox.SBoxIsAffineInverse | aescrypto/src/main/cpp/aes.c:80-97 | Every byte has an inverse in the field but 0, and the S-box of a byte is the affine map of section 5.1.1 of FIPS 197, by rotations, of that inverse, of 0 for 0 |
| AesSBox.ProductIsByHorner | aescrypto/src/main/cpp/aes.c:278-308 | The product of the field, defined by reducing the product of polynomials, is that by repeated doubling |
| AesSBox.RconIsPower | aescrypto/src/main/cpp/aes.c:118-137 | Every round constant is the power of x that section 5.2 gives for its round |
| Gf256.XTimeIsLinear | aescrypto/src/main/cpp/aes.c:278-281 | xtime distributes over exclusive or |
| Gf256.XTimeIsTimesX | aescrypto/src/main/cpp/aes.c:278-281 | xtime is multiplication by x in the field of section 4.2 of FIPS 197 |
| Gf256.MultiplyIsProduct | aescrypto/src/main/cpp/aes.c:301-308 | Multiply is the product of that field for every multiplier below 32 |
| Gf256.ProductIsLinear | aescrypto/src/main/cpp/aes.c:301-308 | Products distribute over sums |
| Gf256.ReduceIsLinear | aescrypto/src/main/cpp/aes.c:278-308 | So does the remainder modulo the polynomial of the field |
| MixColumn.MixedIsByXTime | aescrypto/src/main/cpp/aes.c:284-297 | The in-place formula with xtime and the sum of the column is the matrix product of section 5.1.3 |
| MixColumn.UnmixedIsByXTime | aescrypto/src/main/cpp/aes.c:322-338 | The inverse matrix product, with one, two and three doublings of parts of the column |
| MixColumn.UnmixUndoesMix | aescrypto/src/main/cpp/aes.c:284-338 | The inverse matrix undoes the matrix, on every column |
| MixColumn.MixUndoesUnmix | aescrypto/src/main/cpp/aes.c:284-338 | The matrix undoes the inverse matrix, on every column |
| Aes.MixColumnsUndone | aescrypto/src/main/cpp/aes.c:284-338 | InvMixColumns undoes MixColumns on every state |
| Aes.InvMixColumnsUndone | aescrypto/src/main/cpp/aes.c:284-338 | MixColumns undoes InvMixColumns on every state |
| Aes.ShiftRowsUndone | aescrypto/src/main/cpp/aes.c:250-381 | ShiftRows and InvShiftRows undo each other |
| Aes.SubBytesUndone | aescrypto/src/main/cpp/aes.c:235-353 | SubBytes and InvSubBytes undo each other |
| Aes.AddRoundKeyUndone | aescrypto/src/main/cpp/aes.c:221-231 | Adding a round key twice changes nothing |
| Aes.StagesCancel | aescrypto/src/main/cpp/aes.c:385-433 | Each stage of the inverse cipher meets the state that the matching stage of the cipher left, by induction over the rounds |
| Aes.DecryptUndoesEncrypt | aescrypto/src/main/cpp/aes.c:385-476 | Decrypting an encrypted block returns it, for every block and key |
| Aes.EncryptUndoesDecrypt | aescrypto/src/main/cpp/aes.c:385-476 | Encrypting a decrypted block returns it, for every block and key |
| Aes.ExpansionExample | aescrypto/src/main/cpp/aes.c:154-217 | The first four words that the schedule expands from the key of section A.1 of FIPS 197 are those given there |
| Aes.RoundKeyTellsKey | aescrypto/src/main/cpp/aes.c:154-217 | The expansion loses nothing: two keys that have one round key in common are the same key |
| AesReference.ScheduleIsKeyByte | aescrypto/src/main/cpp/aes.c:154-217 | Each byte of the schedule is that of a definition of section 5.2 byte by byte, with the round constants as powers of x |
| AesReference.CipherIsReference | aescrypto/src/main/cpp/aes.c:385-408 | Each byte of the cipher is that of a definition of section 5.1 byte by byte, with the products of the field |
| AesCode.Aes128.KeyExpansion | aescrypto/src/main/cpp/aes.c:154-217 | The loop fills the table with the key schedule of section 5.2 |
| AesCode.Aes128.AddRoundKey | aescrypto/src/main/cpp/aes.c:221-231 | In place, the sum with the round key; the rest of the buffer is unchanged |
| AesCode.Aes128.SubBytes | aescrypto/src/main/cpp/aes.c:235-245 | In place, the S-box on every byte |
| AesCode.Aes128.ShiftRows | aescrypto/src/main/cpp/aes.c:250-276 | The swaps with one temporary shift each row by its number |
| AesCode.Aes128.MixColumns | aescrypto/src/main/cpp/aes.c:284-297 | In place, the matrix product, although bytes are overwritten as the column is read |
| AesCode.Aes128.InvSubBytes | aescrypto/src/main/cpp/aes.c:343-353 | In place, the inverse S-box on every byte |
| AesCode.Aes128.InvShiftRows | aescrypto/src/main/cpp/aes.c:355-381 | The swaps shift each row back |
| AesCode.Aes128.InvMixColumns | aescrypto/src/main/cpp/aes.c:322-338 | In place, the inverse matrix product |
| AesCode.Aes128.Cipher | aescrypto/src/main/cpp/aes.c:385-408 | The rounds of section 5.1 |
| AesCode.Aes128.InvCipher | aescrypto/src/main/cpp/aes.c:410-433 | The rounds of section 5.3 |
| AesCode.Aes128.BlockCopy | aescrypto/src/main/cpp/aes.c:435-442 | Copies sixteen bytes, also within one buffer as long as they do not overlap forwards |
| AesCode.Aes128.EcbEncrypt | aescrypto/src/main/cpp/aes.c:452-463 | The output block is the cipher of the input block; the rest of the buffer is unchanged |
| AesCode.Aes128.EcbDecrypt | aescrypto/src/main/cpp/aes.c:465-476 | The output block is the inverse cipher of the input block; the rest of the buffer is unchanged |
| AesText.PaddedIs | aescrypto/src/main/cpp/aes.c:493-526 | The padded input is the input and then `p` times the byte `p`, with `p = 16 - n mod 16` |
| AesText.BlocksAreCounted | aescrypto/src/main/cpp/aes.c:563-571 | The count that decryption takes from the length of the base64 text is the number of encrypted blocks |
| AesText.BlocksComeBack | aescrypto/src/main/cpp/aes.c:527-577 | Decrypting encrypted blocks returns them |
| AesText.BlocksAreSeparate | aescrypto/src/main/cpp/aes.c:527-577 | Each block is encrypted by itself, and by itself decrypted |
| AesText.EncryptedTextIs | aescrypto/src/main/cpp/aes.c:481-542 | What an encrypted text decodes to is the blocks of the padded input, encrypted |
| AesText.BufferIs | aescrypto/src/main/cpp/aes.c:562-577 | For any text that decryption keeps to its buffers for, each block of the output is the decryption of that block of the decoding, with a zero behind it, and the rest is zero |
| AesText.DecryptedTextIs | aescrypto/src/main/cpp/aes.c:549-594 | And what is returned: the bytes before the first zero, up to the first of them from one to sixteen, or all of them if that is the first; or no string exactly if there is no zero |
| AesText.BufferComesBack | aescrypto/src/main/cpp/aes.c:549-577 | After decryption the buffer holds the padded input and then none, one or two zeros |
| AesText.DecryptionOfEncryption | aescrypto/src/main/cpp/aes.c:481-616 | What encrypting and decrypting makes of every string: nothing that ends if the number of blocks is a multiple of three, else the string up to its first byte of at most sixteen, or the padded string if that is its first byte |
| AesText.DecryptableIff | aescrypto/src/main/cpp/aes.c:562-577 | For any text, the block loop keeps to its buffers exactly if there are at least 24 characters and enough of them, before the first that is no symbol, for all bytes that it reads but one |
| AesText.ComesBackIff | aescrypto/src/main/cpp/aes.c:481-616 | A string comes back exactly if the number of its blocks is no multiple of three and all its bytes are above sixteen |
| AesText.PaddingBegins | aescrypto/src/main/cpp/aes.c:601-616 | What findPaddingIndex finds is the first byte of at most sixteen, or where the padding begins |
| AesTextCode.Pad | aescrypto/src/main/cpp/aes.c:493-526 | The two branches and loops that pad |
| AesTextCode.Encrypt | aescrypto/src/main/cpp/aes.c:481-542 | The loops compute the encrypted text |
| AesTextCode.FindPaddingIndex | aescrypto/src/main/cpp/aes.c:601-616 | The nested loops find the first byte that is in the padding table |
| AesTextCode.DecryptBuffer | aescrypto/src/main/cpp/aes.c:562-577 | Decoding and the loop over the blocks, with the rest of the buffer zero, or that a block is not all in the buffers |
| AesTextCode.Decrypt | aescrypto/src/main/cpp/aes.c:549-594 | For every text: the string that is returned, or that the search for its end leaves the buffer, or that the blocks do |
| Base64.SymbolsAreDistinct | aescrypto/src/main/cpp/base64.h:15-24 | Each value has its own symbol: letters, digits, plus and slash |
| Base64Bits.AlphabetIs | aescrypto/src/main/cpp/base64.h:15-24 | The symbol of each value is the letter of Table 1 of RFC 4648, and back |
| Base64.RoundTrip | aescrypto/src/main/cpp/base64.c:16-184 | Decoding the encoding of any bytes returns them |
| Base64Bits.EncodingIsBits | aescrypto/src/main/cpp/base64.c:16-86 | Bit by bit, most significant first, the values of the symbols of an encoding are the bits of the input, and zeros behind them |
| Base64Bits.DecodingIsBits | aescrypto/src/main/cpp/base64.c:95-184 | Bit by bit, the decoded bytes are the bits of the values of the symbols |
| Base64.EncodingComesBack | aescrypto/src/main/cpp/base64.c:16-86 | An encoding is symbols that decode to what was encoded, and then the padding of section 4 of RFC 4648 |
| Base64.DecodedSize | aescrypto/src/main/cpp/base64.c:95-184 | For any input the decoded size is three quarters of the longest prefix of symbols, rounded down |
| Base64.EncodingIsText | aescrypto/src/main/cpp/base64.c:16-86 | An encoding has four characters for every three bytes begun, none of them zero |
| Base64.BytesComeBack | aescrypto/src/main/cpp/base64.c:38-41 | The bit fields of four sextets put together again are the three bytes |
| Base64Code.EncodeBuffer | aescrypto/src/main/cpp/base64.c:16-86 | The loop with its remainder computes the encoding |
| Base64Code.DecodeBuffer | aescrypto/src/main/cpp/base64.c:95-184 | The loop, its break and its remainder compute the decoding, and the size that is reported is its length |
| Base64Code.Translate | aescrypto/src/main/cpp/base64.c:120-127 | The search of the table replaces a symbol by its value and leaves anything else |
| ConfigOrder.SpecificVerdictIsLexicographic | InjectHook/importdex/jni/utils/ResourceTypes.h:1069-1178 | isMoreSpecificThan is the lexicographic comparison of the vectors of which attributes are specified |
| ConfigOrder.GuardsDoNotMatter | InjectHook/importdex/jni/utils/ResourceTypes.h:1073-1176 | The tests of whole words that guard its groups never change the result |
| ConfigOrder.MoreSpecificIsAStrictWeakOrder | InjectHook/importdex/jni/utils/ResourceTypes.h:1069-1178 | It is a strict weak order on all configurations |
| ConfigOrder.MoreSpecificIff | InjectHook/importdex/jni/utils/ResourceTypes.h:1069-1178 | For every two configurations the more specific one is that with the greater vector of specified attributes |
| ConfigOrder.UnrequestedIff | InjectHook/importdex/jni/utils/ResourceTypes.h:1363 | So is the better one where nothing is requested |
| ConfigOrder.UnrequestedIsAStrictWeakOrder | InjectHook/importdex/jni/utils/ResourceTypes.h:1363 | Which is a strict weak order on all configurations |
| BetterOrder.BetterIsByRankIff | InjectHook/importdex/jni/utils/ResourceTypes.h:1190-1364 | For configurations that match and do not clash, isBetterThan is the lexicographic comparison of vectors of ranks if and only if a test before the density tells them apart or the products of the density rule compare right after they wrap |
| BetterOrder.BetterIff | InjectHook/importdex/jni/utils/ResourceTypes.h:1190-1364 | Where it is, the better of two is the one with the greater vector of ranks |
| BetterOrder.WantedIff | InjectHook/importdex/jni/utils/ResourceTypes.h:1194-1212 | Without the filter: of two values of a requested attribute that differ, the first is better exactly if it is set, and worse exactly if it is not |
| BetterOrder.WantedPartIff | InjectHook/importdex/jni/utils/ResourceTypes.h:1240-1260 | The same of an attribute that is some bits of a byte |
| BetterOrder.SizeIff | InjectHook/importdex/jni/utils/ResourceTypes.h:1214-1242 | Of two screen sizes that differ, when one is requested, the larger is better; one that is not set counts as normal if at least normal is requested, and loses to normal itself |
| BetterOrder.HiddenIff | InjectHook/importdex/jni/utils/ResourceTypes.h:1300-1330 | Of two keyboard states the first is better exactly if only it is set, or is the one requested; of two navigation states exactly if only it is set |
| BetterOrder.BetterFlips | InjectHook/importdex/jni/utils/ResourceTypes.h:1190-1364 | Of two that do not clash, swapping them turns the result round, whatever wraps |
| BetterOrder.BetterIsAStrictWeakOrder | InjectHook/importdex/jni/utils/ResourceTypes.h:1190-1364 | For a fixed request it is a strict weak order on the configurations that match, if no product of the density rule compares wrong and no two of them mean the same by 0 and 160 |
| BetterOrder.BetterIsAnOrderIff | InjectHook/importdex/jni/utils/ResourceTypes.h:1190-1364 | It is one on all that match and do not clash for exactly the requests up to density 32770, and for 0xffff |
| BetterOrder.BothBetterIff | InjectHook/importdex/jni/utils/ResourceTypes.h:1261-1293 | Two that match are each better than the other exactly if nothing before the density differs, one density is 0, the other 160, and at least 160 is requested |
| BetterOrder.NeitherBetterForLess | InjectHook/importdex/jni/utils/ResourceTypes.h:1261-1293 | If less is requested neither is better, whatever the later tests say |
| BetterOrder.FilterIsNeeded | InjectHook/importdex/jni/utils/ResourceTypes.h:1194-1202 | Without match two configurations can each be better than the other |
| BetterOrder.RequestIsBest | InjectHook/importdex/jni/utils/ResourceTypes.h:1190-1490 | The configuration requested matches, and none that matches is better |
| ConfigOrder.MatchIff | InjectHook/importdex/jni/utils/ResourceTypes.h:1372-1490 | match holds exactly if each attribute suits the request on its own; the guards never change the result |
| ConfigOrder.FieldsAre | InjectHook/importdex/jni/utils/ResourceTypes.h:871-963 | Where in their bytes the attributes are that share one |
| DensityOrder.RuleIsByWorthIff | InjectHook/importdex/jni/utils/ResourceTypes.h:1262-1293 | For any two densities and request of 16 bits, the rule is the comparison of what the densities are worth exactly when its two products compare right after they wrap |
| DensityOrder.SafeIsSound | InjectHook/importdex/jni/utils/ResourceTypes.h:1288 | They do for all densities if the request is at most 32770, and for 0xffff none is computed |
| DensityOrder.SmallIsSound | InjectHook/importdex/jni/utils/ResourceTypes.h:1288 | They do also for densities and a request that are all at most 46340 |
| DensityOrder.RuleIsATotalOrder | InjectHook/importdex/jni/utils/ResourceTypes.h:1262-1293 | Of two densities exactly one wins, and where the products compare right the rule is transitive |
| DensityOrder.RuleIsAnOrderIff | InjectHook/importdex/jni/utils/ResourceTypes.h:1262-1293 | For a request, no three densities beat one another in a ring if and only if it is at most 32770 or 0xffff |
| DensityOrder.WorthAcross | InjectHook/importdex/jni/utils/ResourceTypes.h:1288 | The comparison (2l - r)h > r*r is that of what a lower and a higher density are worth |
| DensityOrder.RuleCanWrap | InjectHook/importdex/jni/utils/ResourceTypes.h:1288 | Three values for which the product wraps round, and the worse density wins |
| Lex.CompareComposes | InjectHook/importdex/jni/utils/ResourceTypes.h:1069-1364 | Lexicographic comparison is transitive, and so are its ties |
| RingList.List.Insert | InjectHook/importdex/jni/utils/List.h:211-219 | The node comes before the position; the circle is kept, and the contents are those with the value put in |
| RingList.List.Erase | InjectHook/importdex/jni/utils/List.h:228-235 | The node is taken out and given back; the circle is kept, and the contents are those without it |
| RingList.List.PushFront | InjectHook/importdex/jni/utils/List.h:207 | The contents with the value before them |
| RingList.List.PushBack | InjectHook/importdex/jni/utils/List.h:208 | The contents with the value behind them |
| RingList.List.InsertRange | InjectHook/importdex/jni/utils/List.h:222-225 | The elements of a range of another list, in their order, come before the position; the source is unchanged |
| RingList.List.InsertOwnRange | InjectHook/importdex/jni/utils/List.h:222-225 | So do those of a range of the list itself, if the position is not behind its first element and at most right behind its last |
| RingList.OwnRangeStopsIff | InjectHook/importdex/jni/utils/List.h:222-225 | The loop stops exactly then |
| RingList.List.InsertOwn | InjectHook/importdex/jni/utils/List.h:211-225 | One round of it: what goes in, and where the position, the cursor and the end are then |
| RingList.List.EraseRange | InjectHook/importdex/jni/utils/List.h:238-242 | The contents without the range, and the later position, which is returned; no node is used after it is given back |
| RingList.List.Clear | InjectHook/importdex/jni/utils/List.h:245-256 | Every node but the middle one is given back, and the list is empty |
| RingList.List.Distance | InjectHook/importdex/jni/utils/List.h:273-282 | The number of steps from one position to a later one |
| RingList.List.Size | InjectHook/importdex/jni/utils/List.h:184-186 | The number of elements |
| RingList.List.Assign | InjectHook/importdex/jni/utils/List.h:313-328 | The list has the contents of the other one, which is unchanged, for lists of any two lengths and for itself |
| RingList.List.Copy | InjectHook/importdex/jni/utils/List.h:166-169 | A new list with the contents of another |
| RingList.Link | InjectHook/importdex/jni/utils/List.h:213-217 | The four assignments keep one circle |
| RingList.Unlink | InjectHook/importdex/jni/utils/List.h:229-233 | The two assignments keep one circle of the others |
| RingList.NextAndPrevAreInverse | InjectHook/importdex/jni/utils/List.h:60-64 | In every list next and prev are mutually inverse |
| RingList.OnlyAWholeRoundReturns | InjectHook/importdex/jni/utils/List.h:273-282 | A walk is back at the middle node after a whole round and not before, so that size ends with the true length |
| RingList.StepsGoRound | InjectHook/importdex/jni/utils/List.h:136-139 | Walking on meets the nodes in order |
| RefBase.LightRefBase.IncStrong | InjectHook/importdex/jni/utils/RefBase.h:167-169 | Counts one more |
| RefBase.LightRefBase.DecStrong | InjectHook/importdex/jni/utils/RefBase.h:170-174 | Counts one less, and deletes exactly if the count was one |
| RefBase.Sp.ToObject | InjectHook/importdex/jni/utils/RefBase.h:348-353 | A pointer to an object keeps all counts right |
| RefBase.Sp.Copy | InjectHook/importdex/jni/utils/RefBase.h:355-360 | So does a copy |
| RefBase.Sp.AssignPointer | InjectHook/importdex/jni/utils/RefBase.h:390-397 | So does an assignment, which deletes the old object exactly if this was the last pointer to it and it is not the new one |
| RefBase.Sp.Assign | InjectHook/importdex/jni/utils/RefBase.h:381-388 | The same from another pointer, or from itself |
| RefBase.Sp.Clear | InjectHook/importdex/jni/utils/RefBase.h:425-432 | So does clear |
| RefBase.Sp.Destroy | InjectHook/importdex/jni/utils/RefBase.h:375-379 | So does the destructor |
| RefBase.PointedAtIsAlive | InjectHook/importdex/jni/utils/RefBase.h:348-432 | What a pointer points at has not been deleted |
| RefBase.CountUpdates | InjectHook/importdex/jni/utils/RefBase.h:381-397 | What one changed pointer changes in every count |
| RefCount.EveryRunKeepsInv | InjectHook/importdex/jni/utils/RefBase.h:162-432 | Every interleaving of the steps of operations on pointers keeps the counts right |
| RefCount.CountsAreLivePointers | InjectHook/importdex/jni/utils/RefBase.h:348-432 | Whenever no operation is under way, each count is the number of live pointers at the object, and the objects deleted are those once referenced and no longer |
| RefCount.EveryRunIsPlain | InjectHook/importdex/jni/utils/RefBase.h:348-432 | However the steps of the operations interleave, a pointer with none under way is at what plain assignments, each done at once when it begins, would have it at |
| RefCount.NothingIsStuck | InjectHook/importdex/jni/utils/RefBase.h:348-432 | Whatever else goes on, an operation under way can take its next step |
| RefCount.EachCanBegin | InjectHook/importdex/jni/utils/RefBase.h:348-432 | And every operation can begin on a pointer that none is under way on and none copies from |
| RefCount.NothingDeletedIsTouched | InjectHook/importdex/jni/utils/RefBase.h:167-174 | No step counts an object that has been deleted |
| RefCount.DeletedWithTheLastReference | InjectHook/importdex/jni/utils/RefBase.h:170-174 | A step deletes an object exactly if it takes the last reference away, and a deleted object never changes again |
| RefCount.SelfAssignmentDeletesNothing | InjectHook/importdex/jni/utils/RefBase.h:381-388 | Assigning a pointer what it is at deletes nothing, whatever else goes on |
| RefCount.StepIsCounted | InjectHook/importdex/jni/utils/RefBase.h:348-432 | Each step adds and takes away just the references that it counts |

## Left out

- ArmMeaning.ArmRelocationKeepsMeaning: the instructions left abstract see only the words they read; a literal still holds what it held when it was copied, nothing writes over the trampoline, and the word below the stack pointer may be left changed by an ADD. Not claimed: conditional branches, literal loads, moves and address constants, MOVS and rotated address constants, for which ArmDeviations has the exact conditions; ADD to or from SP or PC, of which ArmDeviations.AddChunkBorrows says what each word of the chunk is; words with condition 15 that the classifier takes for one of its own, as Advanced SIMD words like 0xF28F0050 are taken for an ADR, since the model does not decode them; and copied words that read the PC, like SUB Rd, PC, Rm or LDRB from a literal, which `Isa.readsPc` tells for the abstract ones.
- ThumbMeaning.ThumbRelocationKeepsMeaning: the same of abstract instructions, literals, the trampoline and the stack. Not claimed, with exact conditions in ThumbDeviations: 16-bit branches, ADR in both sizes, LDR.W and MOV to registers above R7, BLX to an address from one that is 2 modulo 4; with what becomes of it, BLX by register, which links to its padding. Not claimed, with what the emitted code does in lemmas of the same module: SVC and UDF with a number other than 0, which are taken for conditional branches and lose the number; ADD of the PC to SP or to itself; B.W encodings with condition 14 or 15, which are really hints, barriers and system instructions and become traps; copied instructions that read the PC, like ADD of a register to it, or LDRB.W or LDRD from a literal, which CopiedAsIs is about. TBB and TBH clobber a register and the flags; ThumbTables has their run. Not claimed at all: IT blocks, whose extent the padding breaks.
- ArmDeviations.LoadRightIff: is about the offset form, the only one that the architecture defines, and like AddressRightIff, MoveRightIff and FlagMoveRightIff about a register other than PC; PcLoadRightIff is about the PC, in every form.
- ThumbTables.TableBranchRuns: LDRB, LDRH, ADDS and ADD.W of the chunk are abstract in ThumbMachine, so that they do as the architecture says is a hypothesis; the index register is not SP or PC, which the architecture leaves open, and the table entry is not the word below the stack pointer.
- HookTable.EveryRun: targets are pairwise disjoint and a slot is free for each registration; boundary storage is not bounded, while the code declares room for 4 original and 20 trampoline entries and a Thumb target can need 6.
- HookItems.EveryHookedItemHasItsCell: two targets that were given one pointer cell would overwrite each other's pointer.
- HookThreads.EveryRunIsApart: where `mmap` puts the pages is a hypothesis about the table that is reached.
- HookMeaning.ArmTrampolineRunsOriginal: page and target have addresses of 32 bits, the page is a multiple of four and holds the code of the item all along, the run meets what ArmRelocationKeepsMeaning asks of it, and no literal of the target lies under another target; HookLiterals.LiteralUnderAPatch is a run where one does. The same holds of ThumbTrampolineRunsOriginal, and of the two about callers and the two about threads; the registers of a stopped thread other than its PC are left as they are.
- HookCode.Hooks.RegisterInlineHook: whether an address is executable is a parameter, trampoline pages are given, and allocation does not fail.
- Lengths: 8 bytes of ARM code and 12 of Thumb code in the hook table; the loops themselves are modelled for every length, a multiple of four for ARM.
- AesText.ComesBackIff: is about strings of at least one character, since the padding table has no entry for an empty one.
- AesTextCode.Decrypt: what the code reads and writes once it has left its buffers is not modelled; that it leaves them is an outcome.
- AesCode.Aes128.EcbEncrypt: key, output and round keys are different buffers; the branch for keys of more than six words is dead for this key length and left out, as are the round constants beyond the tenth.
- RingList.List.InsertRange: the range is that of another list that shares no node; InsertOwnRange is for the list itself.
- RingList.List.Assign: the two lists are one, or share no node.
- RefCount.EveryRunKeepsInv: no thread changes a pointer while another one uses it, taking the last reference away and deleting the object are one step, and an object handed over as a raw pointer is alive until it is counted; the count is an integer without bound.
- `freeze`, `unFreeze`, `mprotect`, `mmap`, `cacheflush` and the search of the process map: effects of the operating system.
- Injection with ptrace, process and module lookup, SELinux, patching of ELF files and of the GOT: input and output around the logic.
- JNI code, signature checks, GLES wrappers, logging and dex loading.
- `ResTable_config::compare` and `diff`: a wrapping subtraction gives no order, and a set of flags only easy members.
- `RefBase` with weak references, `wp`, `force_set` and `promote`: their bodies are not part of this model.
- Unaligned memory accesses of the instructions, and self-modifying code.
