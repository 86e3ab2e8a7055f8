# FunctionPatcherModule: a Dafny model and its proofs

FunctionPatcherModule replaces functions of a running Wii U system. It overwrites the first word of
a function with an absolute branch (`ba`), either straight to the replacement or to a generated
trampoline that first looks at the process id, and it generates a second piece of code through which
the replaced function can still be called. Several patches may lie on one function; each saves the
word it finds and writes its own, so the patches on one address form a linked stack through memory.
Modules come and go, and the code of a patched function with them.

This project models that behaviour and proves what it is supposed to guarantee. It has three parts.

* **The emitted code.** An interpreter for the PowerPC words that the module emits (`Words`,
  `Machine`; the encodings are those of Power ISA v2.07, Book I, sections 2.4 and 3.3), the two code
  generators as word sequences (`CodeGen`), and what running them does, for a stack of patches of any
  height (`Dispatch`).
* **The patch list.** A state machine over one flat word memory, the list of patches and the jump
  heap (`PatchStack`), its invariant (`Chain`), and the theorems about single operations, about
  single-word writes and about whole runs (`Keeping`, `Removal`, `Rebuilding`, `Ownership`,
  `Scanning`, `Distinctness`, `Undoing`, `PatchOrder`, `StackPositions`, `Publication`, `Runs`,
  `Pointers`, `OrderlyRuns`, `Divergence`, `Instance`). `Outcomes` says what each operation does to any
  state, in terms of the request and the console, with all error cases.
* **The program.** Classes with the fields of the original (`Provider`, `PatchedFunctionData`,
  `FunctionPatcherModule`, and `Console` for the memory and heap under them), whose methods assign
  those fields, fill the buffers word by word and loop over the list as the C++ code does. Every
  method is proved to compute exactly the function of `PatchStack`, `CodeGen` or `Loading` that
  describes it, including the order of all single-word writes, so the theorems about those functions
  are theorems about the methods. The state machine resolves targets by fresh queries; that the
  provider's cache gives the same answers is `FunctionAddressProvider.EveryRunKeepsCacheFresh`, and
  the methods require the cache to be coherent (`PatchedFunctions.Ready`).

`dafny verify dfyconfig.toml` checks everything.

## The two forms of the removal

`source/export.cpp:111` tests `isPatched` of the removed patch a second time before it applies the
later patches again. A successful restore has just cleared that flag (`source/function_patcher.cpp:140`),
so the comment in the next line ("Apply the other patches again") describes something that does not
happen: the later patches stay off until the next sweep. Both forms are modelled by a parameter;
`guardFirst == false` (in the method, `guardBeforeRestore == false`) is the code as written, `true`
reads the flag before the restores.

* As intended: every run keeps the strong invariant `Inv` (`Runs.EveryRunKeepsTheChain`), and a
  removal is the same as applying the other patches to the original code (`Rebuilding.RemovalIsRebuilding`).
* As written: a removal keeps `Inv` if and only if no later patch on the same address is patched
  (`Rebuilding.RemovalAsWrittenKeepsInvIff`). It always keeps the weaker invariant `Pre`, in which
  listed patches may be waiting. Adding a patch while others are waiting, even on the same address,
  keeps `Pre` as well (`Ownership.AddKeepsPre`): the new patch is the last in the list and the topmost
  in memory. What can break a chain is a sweep: it keeps all chains in list order if and only if it
  finds no patched entry above a waiting one of its address (`PatchOrder.SweepChainsIff`). So a run
  keeps the chains throughout if and only if each of its sweeps finds the list in that order
  (`Runs.EveryRunAsWritten`). A list goes out of order only by an add onto a waiting patch
  (`Runs.DisorderComesFromAdding`).
* In order or not, no run is fatal, blocks are owned, buffers are usable, and pointer cells that are not shared are right
  (`Runs.EveryRunIsSafe`, `Runs.EveryRunHasBuffers`, `Pointers.EveryRunHoldsPointers`).
* After a sweep that is out of order the memory still holds the stack of each function, in the order
  in which the patches were applied, and calls are dispatched by that order, until a removal cannot
  take its patch off or a memory check turns off patches whose code is there
  (`OrderlyRuns.EveryGentleRunDispatches`). A removal takes its patch off if and only if the patch
  order from it upward is the list order (`StackPositions.RemovalTakesOffIff`); if not, and if the patch
  has a trampoline, it gives back one that is still branched to (`StackPositions.FreedBuffersAreReachedIff`). A memory check
  clears only what has vanished if and only if each topmost patch is the last of its address in the
  list (`OrderlyRuns.CheckIsGentleIff`); if not, it can happen that the next sweep links a patch to its
  own branch word, on which a process that the patch does not admit loops for ever
  (`Divergence.RemoveAddSweepLinksToItself`, `Divergence.SelfLinkedPatchLoops`).
* `Instance.StoryAsWritten` is a concrete run in which an add puts the list out of order, the chains
  survive it, and the next load breaks them.

## The invariant

For every code address, the patched entries on it, in list order, satisfy: the first has saved the
original word, each next one has saved the branch word of the one before, and the memory holds the
branch word of the last (`Chain.Chained`). Every patched entry is where its target resolves to; the
buffers of patched entries hold what the generators emit for them, and do not overlap. `Pre` says
this; `Inv` adds that whatever resolves is patched. `Ordered` says that no patched entry is above a
waiting one of its address. `Steady` and `Whole` are the parts that patching keeps in any order:
each code word is the original one, or is not zero and no relative branch over an original word that
is no relative branch, and so are saved words; they suffice for resolving, for undoing patches and,
with stacks in patch order (`PatchOrder.Carries`), for dispatch. The original memory is part of the
specification only (`World.pristine`).

## Assumptions about the console

They are predicates in the contracts, mainly `Chain.Assumed`, `Chain.SiteSound`, `Chain.LaidOut`,
`Ownership.RequestSound`, `Runs.ChangeSound` and the predicates built on it, `Machine.Displaceable`,
`Distinctness.ReplacementsApart`, `PatchOrder.SitesApart`, `Pointers.FreshCell` and
`FunctionAddressProvider.LoaderEventSound`. `Instance.LibraryStory` and `Instance.StoryAsWritten` are
runs that satisfy those about events.

* H1: a change of the surroundings replaces code of one region of physical memory; whether an entry
  resolves to a place outside the region is not affected, so entries of one address become resolvable
  and unresolvable together. After an unload no entry resolves into the region that went away.
* H2: the translation of effective to physical addresses is injective where it is defined (0 stands
  for an address that has no physical one), and fixed on the module's own data. Targets and the
  module's own data have physical addresses.
* H3: the first word of a target is not zero, and code that replaces a patched function is not the
  branch word of the patches there. A load puts new code only where no patch is.
* H4: the first instruction of a target is position independent, is no branch, does not read r11 or
  CR0, does not write r11, CTR or CR0, and is no relative branch word. It is an arbitrary transformer
  of the remaining machine state. It may read CTR: the 5-word form of `jumpToOriginal` has loaded CTR
  when it executes the displaced word, so calling through the saved pointer is the old call exactly
  when that makes no difference (an if-and-only-if in `Dispatch.SavedPointerIsOldCall`, with an
  instruction for which it does in `Dispatch.CtrReaderTellsTheDifference`).
* H5: code addresses are 4-aligned; heap blocks that serve as trampolines lie below 0x02000000, in
  memory that is not code; untrampolined patches of one address have different replacement addresses,
  and replacement addresses are not trampolines.
* For what is said about pointer cells only: no two listed patches were given the same cell.
* The first two words of `OSGetUPID` locate the process id as a lis/lwz pair; they are constants of
  the platform. The constants `FP_TARGET_PROCESS_WII_U_MENU` and `FP_TARGET_PROCESS_GAME` come from a
  header that is not part of this model; they are arbitrary values below 0x8000.
* Each operation is one step. `FPAddFunctionPatch` calls `PatchFunction` before it takes the lock
  (`source/export.cpp:46-56`), so this is an assumption for it. `Publication.PublishedAtTheLastWrite`
  looks inside `PatchFunction`, at every single-word write.
* The effective and the physical address that a caller passes for LIBRARY_OTHER belong together.
* Two objects that are listed at the same time have different handles (a handle is an object's address).
* `OSFatal` ends the run: `None` as a state, or `halted` on the console. That no run under the
  assumptions reaches it, in either form of the code, is part of `Runs.EveryRunIsSafe`.

## Model

| member | source | states |
|---|---|---|
| `Words.BaDecodes` | source/PatchedFunctionData.cpp:256 | the word `0x48000002 \| (a & 0x01FFFFFC)` is an absolute branch to the reachable part of `a`, and to `a` itself when `a` is aligned and below 0x02000000 |
| `Words.BaIsTheOnlyShortBranch` | source/PatchedFunctionData.cpp:312 | over all 32-bit words: a word is an absolute branch to `t` below 0x02000000 if and only if it is the emitted word for an aligned `t` |
| `Words.BaInjective` | source/PatchedFunctionData.cpp:312 | different reachable targets have different branch words |
| `Words.BaIsNotZeroNorRelative` | source/PatchedFunctionData.cpp:256 | a branch word written by a patch is never zero and never a relative branch |
| `Words.LisOriRebuilds` | source/PatchedFunctionData.cpp:237-238 | the immediates of the lis/ori pair combine to the address they were taken from, for all addresses |
| `Words.RelativeOffsetIsSignExtension` | source/FunctionAddressProvider.cpp:41-44 | for every word, the 0xFE000000 arithmetic yields the sign extension of the 26-bit displacement |
| `Words.RelativeOffsetIsTwosComplement` | source/FunctionAddressProvider.cpp:41-45 | and that is the only value with those low bits and the sign bit repeated above them |
| `Words.SignExtend16IsTwosComplement` | source/PatchedFunctionData.cpp:269-270 | a 16-bit displacement counts as the only word with the same low half and its sign bit in all bits above, for all words |
| `Words.LisFields` | source/PatchedFunctionData.cpp:237 | for any immediate, the emitted word has the opcode of addis, target r11 and no source register |
| `Words.OriFields` | source/PatchedFunctionData.cpp:238 | the emitted word has the opcode of ori, from r11 to r11, and the low half as immediate |
| `Words.LwzFields` | source/PatchedFunctionData.cpp:270 | the emitted word has the opcode of lwz, from r11 to r11, and the low half as displacement |
| `Words.TestFields` | source/PatchedFunctionData.cpp:272-278 | the tests compare r11 as a signed word with the process id, in CR0, and branch, without link, if CR0 says equal |
| `Words.BranchFields` | source/PatchedFunctionData.cpp:239-244 | for any target the short jump has opcode 18 with AA set and LK clear; the long one moves r11 to SPR 9 and goes there always, without link |
| `Words.BranchesDecoded` | source/FunctionAddressProvider.cpp:40 | over all words, the decoder takes a word for a relative or an absolute branch if and only if its opcode is 18, LK is clear and AA says so |
| `Loading.HopIsTheBranchTaken` | source/FunctionAddressProvider.cpp:38-46 | the resolver follows a word as a relative branch exactly to where the processor would go |
| `Loading.RelativeBranchIff` | source/FunctionAddressProvider.cpp:40 | and it follows no other word: its mask test holds exactly for opcode 18 with AA and LK clear |
| `Loading.ResolutionIsTheJump` | source/FunctionAddressProvider.cpp:26-48 | for any handle and export: null for a null handle or address; if the first word is a relative branch, forward or backward, where the processor is after executing it; else the export itself |
| `Loading.BaIsNotFollowed` | source/FunctionAddressProvider.cpp:40 | a word that a patch writes is not followed by the resolver |
| `CodeGen.TrampolineLayout` | source/PatchedFunctionData.cpp:264-304 | for every target process, original and replacement address: at most 15 words, `myfunc` starts where the layout says, and both ways out end in an unconditional branch |
| `CodeGen.BeqLandsOnMyFunc` | source/PatchedFunctionData.cpp:271-279 | every `beq` lands exactly on the first word of the replacement jump, wherever the buffer stands |
| `CodeGen.NeedsTrampolineIff` | source/PatchedFunctionData.cpp:259 | a patch does without a trampoline if and only if it is for all processes and a `ba` in the function reaches its aligned replacement |
| `CodeGen.UpidCellIs` | source/PatchedFunctionData.cpp:269-270 | the process id is read where the two words of OSGetUPID say: the first low half, shifted, plus the second, less 0x10000 if it is 0x8000 or more |
| `CodeGen.UpidCellExample` | source/PatchedFunctionData.cpp:269-270 | an OSGetUPID that starts with 0x3C601006, 0x8063F4A0 reads the id at 0x1005F4A0 |
| `CodeGen.TrampolineBoundIsAttained` | source/PatchedFunctionData.cpp:301-304 | for two-process patches, all 15 words are used if and only if both the way back and the replacement are out of reach of a `ba`; there is such a patch |
| `CodeGen.GuardRuns` | source/PatchedFunctionData.cpp:269-279 | running the guard takes a `beq` exactly for the processes the patch is meant for, and changes only r11 and CR0 |
| `CodeGen.TrampolineRuns` | source/PatchedFunctionData.cpp:264-299 | running a trampoline arrives in the replacement for admitted processes, within 10 instructions, and else at the displaced word within 6, with the caller's CTR |
| `Machine.JumpRuns` | source/PatchedFunctionData.cpp:292-299 | the emitted jump, in either form, arrives at its target with nothing but r11 and CTR changed |
| `Dispatch.PatchRuns` | source/PatchedFunctionData.cpp:254-316 | running a patch's branch word sends an admitted process to the replacement within 11 instructions and any other to the displaced word within 7 |
| `Dispatch.ChosenIsLast` | source/PatchedFunctionData.cpp:265-279 | the patch said to be chosen admits the process, and no later applied one does; none is chosen only if none admits it |
| `Dispatch.StackDispatch` | source/PatchedFunctionData.cpp:254-316 | for a stack of any height: a call reaches the replacement of the last applied patch that admits the process, or else executes the original first instruction and arrives behind it; only r11, CTR and CR0 change; at most 7 instructions per patch that does not admit the process |
| `Dispatch.SavedPointerRuns` | source/PatchedFunctionData.cpp:227-252 | jumping to patch k's `jumpToOriginal` reaches the last applied patch below k that admits the process, or goes through the original instruction |
| `Dispatch.SavedPointerIsOldCall` | source/PatchedFunctionData.cpp:227-252 | it arrives where a call arrived just before patch k was applied, in the last patch below k that admits the process or behind the original instruction; the visible state agrees too if and only if a patch was reached, the 2-word form was emitted, or the original instruction does not tell the CTR that the 5-word form loads |
| `Dispatch.CtrReaderTellsTheDifference` | source/PatchedFunctionData.cpp:235-241 | an instruction that copies CTR is displaceable and does behave differently in the 5-word form |
| `Dispatch.DisplacedWordsDescend` | source/PatchedFunctionData.cpp:281-288 | a path from displaced word to displaced word goes down one patch at a time and ends at the original word |
| `Chain.ResolutionIsStable` | source/FunctionAddressProvider.cpp:38-46 | whatever has been patched, in any order, resolving any listed target in the patched memory gives what it gives in the original memory |
| `Chain.PatchedMemory` | source/function_patcher.cpp:72-86 | patching changes no address outside the patch's own buffers and pointer cell but the target, which gets the branch word |
| `Keeping.PatchEntryCases` | source/function_patcher.cpp:52-92 | whatever has been patched, in any order, whether and where `PatchFunction` patches is decided by where the target resolves in the original memory, and it is never fatal |
| `Outcomes.PatchOfExecutable` | source/PatchedFunctionData.cpp:122-225 | for any unpatched executable target: it is patched, or the stop is fatal, if and only if the target is accepted and found, by name with a non-null address; then exactly there, with the word found saved and the branch word of the trampoline or the replacement in memory; fatal exactly without a physical address, a readable word or usable buffers; else nothing changes |
| `Outcomes.PatchOfGivenAddress` | source/PatchedFunctionData.cpp:198-201 | given addresses are used as they are, for any title, with the same outcome |
| `Outcomes.PatchOfLibraryFunction` | source/PatchedFunctionData.cpp:209-224 | a library function is patched, with the same outcome, if and only if the library has a row, is loaded and exports the name, exactly at the export or where a relative branch in its first word goes |
| `Outcomes.PatchOfPatched` | source/function_patcher.cpp:53-55 | a patched entry is left alone |
| `Outcomes.PointerAfterBuffer` | source/function_patcher.cpp:78-86 | cut off after any number of single-word writes: the pointer cell keeps its content until `jumpToOriginal` is complete, and from the next write on holds its address |
| `Keeping.PatchKeepsWhole` | source/function_patcher.cpp:52-92 | patching any entry keeps everything but the chains in list order; exactly that entry ceases to wait |
| `Keeping.PatchKeepsPre` | source/function_patcher.cpp:52-92 | patching an entry above which none is patched at its address keeps the chains, too |
| `Keeping.RestoreTopKeepsPre` | source/function_patcher.cpp:94-142 | restoring the top patch of an address passes all guards and keeps the invariant and the order; exactly that entry comes to wait |
| `Keeping.RestoreKeepsWhole` | source/function_patcher.cpp:94-142 | in whatever order patches lie, RestoreFunction puts the saved word back and turns the entry off if the code still has its branch word, and otherwise does nothing; either keeps layout, locations and buffers |
| `Outcomes.RestoreOutcome` | source/function_patcher.cpp:94-142 | in any state: success if and only if the entry was off or all four guards pass; in the latter case the saved word goes to the given physical address, or to the translation of the effective one, and to no other, and only the flag changes |
| `Keeping.PatchManyEstablishesInv` | source/main.cpp:137-139 | from an ordered list, patching in list order any entries that include all waiting ones establishes the strong invariant, without `OSFatal`, and alters no entry that did not wait |
| `Keeping.SweepEstablishesInv` | source/main.cpp:173-175 | so does the patch-all loop |
| `Removal.RestoreManyKeepsPre` | source/export.cpp:100-103 | restoring a top part of a stack, last first, keeps the invariant, turns off exactly those entries and touches no other address |
| `Removal.UnstackedFacts` | source/export.cpp:99-107 | after the restores of a removal the function starts with the word found when the removed patch was applied; that patch and the later ones of its address are off, and nothing else has changed |
| `Removal.IntendedRemovalKeepsInv` | source/export.cpp:99-116 | with the guard read first, removing any patch keeps the strong invariant, is never fatal, keeps all other patches in order and frees exactly the removed one's buffers |
| `Rebuilding.InvariantDeterminesState` | source/export.cpp:99-116 | original memory and list determine which entries are patched, all saved and written words, and all code |
| `Rebuilding.InvariantDeterminesBuffers` | source/PatchedFunctionData.cpp:227-316 | and every word of the buffers that can be executed |
| `Rebuilding.InvIsRebuilt` | source/main.cpp:173-175 | every state of the strong invariant is the one obtained by applying its list to the original code |
| `Rebuilding.RemovalIsRebuilding` | source/export.cpp:75-116 | as intended, removing patch k of n gives the code, flags and saved words that applying the other n-1 patches in list order to the original code gives |
| `Publication.RemovalBehavesAsRebuilt` | source/export.cpp:75-116 | and the same words in all executable buffers; and a call of any function arrives at the same place with the same visible state |
| `Rebuilding.RemovalLeavesOtherAddresses` | source/export.cpp:85-89 | and all other addresses keep their words and their patches |
| `Rebuilding.RemovalAsWritten` | source/export.cpp:99-116 | as written, the function gets the word it had before patch k was applied, later patches of the address are off, and all other entries and addresses are untouched |
| `Rebuilding.RemovalAsWrittenKeepsPre` | source/export.cpp:99-116 | as written, any removal keeps the weaker invariant and the order, and is never fatal |
| `Rebuilding.RemovalAsWrittenKeepsInvIff` | source/export.cpp:111-116 | as written, a removal keeps the strong invariant if and only if no later patch on the address is patched |
| `Outcomes.RemovalOfUnpatched` | source/export.cpp:79-82 | in any state and both forms, removing a patch that is off takes it from the list and gives back its blocks, and changes no memory and no other entry |
| `PatchOrder.SweepAfterRemovalIff` | source/main.cpp:137-139 | after a removal as written, also while patches are waiting from earlier ones, a sweep yields exactly the rebuilt stack if and only if the list it finds is ordered |
| `PatchOrder.RemovalIsOrderedIff` | source/export.cpp:99-116 | that list is ordered if and only if, before the removal, no entry waits below one of its address that stays patched |
| `Scanning.ScanMeans` | source/main.cpp:45-74 | the reverse scan with its two address sets, from any point on, refines the per-address rule |
| `Scanning.CheckedMeans` | source/main.cpp:45-74 | when reads succeed, all patched entries of an address stay patched if the last of them still matches memory, and otherwise all become unpatched; when reads fail nothing changes |
| `Scanning.ChainIsStillThere` | source/main.cpp:67-68 | an address whose chain is intact passes the check |
| `Scanning.CheckedLeavesTheLive` | source/main.cpp:45-74 | when chains are intact outside a vanished region, exactly the patches outside it stay on |
| `Outcomes.InvalidatedEntries` | source/main.cpp:143-149 | an unload clears the flag of each patch of the recognised library, and of no other |
| `Outcomes.UnloadedEntries` | source/main.cpp:140-152 | after an unload, in any state: the patches of the recognised library are off; each other one stays as it is if memory is unreadable or the last patch still on at its address has its word there, and else is off |
| `Outcomes.StartedElsewhere` | source/main.cpp:156-159 | an application start under another process id than 2 and 15 changes nothing |
| `Outcomes.StartedHere` | source/main.cpp:155-180 | under 2 and 15 it is the memory check, then the patching of all listed entries in order |
| `Ownership.RemovalOwns` | source/PatchedFunctionData.cpp:324-333 | a removal, in both forms and whatever the order of patches, is never fatal, and the live heap blocks are then exactly the buffers of the listed patches |
| `Ownership.AddCases` | source/PatchedFunctionData.cpp:99-120 | adding fails with the heap as it was unless both blocks are granted |
| `Outcomes.AddedEntry` | source/PatchedFunctionData.cpp:21-55 | after an add the list has one more entry, at its end, with the handle, target, process, replacement and pointer cell of the request, and for given addresses these; its blocks, two or one depending on the request, are the heap's only new ones; all other entries are as before |
| `Outcomes.AddThenCall` | source/export.cpp:41-57 | after any add that has patched, a call of the function by any process that the request names arrives at the requested replacement within 11 instructions, with the visible state of the call |
| `Ownership.AddOwns` | source/export.cpp:15-63 | whatever the order of patches, adding is never fatal and keeps the ownership of blocks |
| `Ownership.AddKeepsInv` | source/export.cpp:15-63 | adding keeps the strong invariant |
| `Ownership.AddKeepsPre` | source/export.cpp:15-63 | also while patches are waiting, on whatever address, adding is never fatal, keeps the chains, the ownership of blocks and all other entries, and appends the requested patch |
| `Ownership.AddIsOrderedIff` | source/export.cpp:46-57 | after an add the list is ordered if and only if it was and none was waiting where the new patch was applied |
| `PatchOrder.PreCarries` | source/function_patcher.cpp:72-86 | under the invariant the list order is the order in which each function's stack lies in memory |
| `PatchOrder.PatchCarries` | source/function_patcher.cpp:72-86 | patching any entry, wherever it is in the list, puts it on top of its own function's stack and leaves all other stacks |
| `PatchOrder.PatchManyCarries` | source/export.cpp:112-115 | patching any entries in any order is never fatal and grows the stacks by exactly those that were waiting, in that order |
| `PatchOrder.SweepCarries` | source/main.cpp:137-139 | a sweep of any list is never fatal, leaves nothing waiting, and puts what it patches on top of the stacks, in list order |
| `PatchOrder.DisorderBreaks` | source/main.cpp:137-139 | a patched entry above a waiting one of its address makes the sweep break that chain |
| `PatchOrder.SweepChainsIff` | source/main.cpp:137-139 | a sweep leaves every chain in list order if and only if it finds no patched entry above a waiting one of its address |
| `Publication.StackIsInMemory` | source/function_patcher.cpp:72-86 | memory holds at every function the whole stack that dispatch needs, in patch order |
| `Publication.CallInPatchOrder` | source/PatchedFunctionData.cpp:254-316 | so a call of any function is dispatched as `StackDispatch` says, by the patches on it in the order of application |
| `Publication.CallOfAnyFunction` | source/PatchedFunctionData.cpp:254-316 | under the invariant that is the order of the list, also while patches are waiting |
| `Publication.CallAfterSweep` | source/main.cpp:137-139 | after a sweep of any list, by the patches that were on it and, on top, those that the sweep has applied |
| `Runs.EveryRunIsSafe` | source/export.cpp:15-120 | no run from the initialisation, in either form of the code and in whatever order its sweeps find their lists, reaches `OSFatal`; in every state it reaches the live heap blocks are exactly the buffers of the listed patches, and layout, locations and buffer contents are right |
| `Runs.EveryRunResolves` | source/FunctionAddressProvider.cpp:38-46 | in every such state each listed target resolves as it would in the original memory |
| `Runs.EveryRunHasBuffers` | source/PatchedFunctionData.cpp:259-263 | in every such state each listed patch, waiting or not, has live heap blocks of its own for what the generators write, a trampoline in reach exactly if it needs one, so no generator is fatal |
| `Publication.OldStackStays` | source/PatchedFunctionData.cpp:227-316 | writes to an unpatched entry's own buffers leave every function's stack as it was |
| `Publication.PublishedAtTheLastWrite` | source/function_patcher.cpp:78-86 | after any number of the single-word writes of `PatchFunction` on any entry, every function carries its old stack; only the last write adds the patch, on top of its own function only |
| `Publication.CallDuringPublication` | source/function_patcher.cpp:78-86 | a caller between two of these writes arrives where it would have arrived before the first, in the last patch applied so far that admits the process or behind the original instruction, with the same visible state and within the same bound |
| `Publication.CallThroughBuffer` | source/PatchedFunctionData.cpp:227-252 | a call through the buffer of the k-th patch applied to a function is the call of the function just before, with the exact exception of the 5-word form |
| `Pointers.PointerFilled` | source/PatchedFunctionData.cpp:250 | patching leaves the address of `jumpToOriginal` in the pointer cell |
| `Pointers.EveryRunHoldsPointers` | source/PatchedFunctionData.cpp:250 | after every run, in either form and in whatever order its sweeps find their lists, in which no two patches share a cell, the cell of each patched entry holds the address of its `jumpToOriginal` |
| `Pointers.CallThroughSavedPointer` | source/PatchedFunctionData.cpp:250 | so a call through the cell is the old call, with the same exact exception |
| `Distinctness.BranchWordsDiffer` | source/PatchedFunctionData.cpp:256-312 | two patches on one address never have the same branch word |
| `Distinctness.OnlyTheTopCanBeRestored` | source/function_patcher.cpp:117-120 | `RestoreFunction` succeeds on a patched entry if and only if it is on top; otherwise it changes nothing |
| `Distinctness.NoDispatchCycle` | source/function_patcher.cpp:72-79 | under the invariant, following displaced branch words strictly descends the stack and ends at the original word |
| `Distinctness.FreedBuffersAreUnreachable` | source/export.cpp:109 | after a removal, in both forms, as written also while patches are waiting, no code word and no displaced word of a patched entry branches into the freed buffers |
| `StackPositions.PreStacked` | source/function_patcher.cpp:72-79 | under the invariant the patch order of every address is the list order |
| `StackPositions.RestoredIffOnTop` | source/function_patcher.cpp:117-120 | in whatever order patches lie, a patch can be restored if and only if it is the topmost in memory |
| `StackPositions.RemovalTakesOffIff` | source/export.cpp:99-107 | the restores of a removal take its patch off if and only if, from that patch upward, the patch order is the list order |
| `StackPositions.FreedBuffersAreReachedIff` | source/export.cpp:99-116 | after a removal as written some code word or displaced word branches into the freed buffers if and only if the removed patch was on, had a trampoline, and the patch order from it upward was not the list order |
| `StackPositions.StuckRemovalReapplies` | source/export.cpp:111-116 | after a removal as written that could not take its patch off, each later patch listed with its address is on if it resolves, whether the restores had taken it off or it had been waiting |
| `StackPositions.RemovalAfterDisorder` | source/export.cpp:109-116 | after a sweep out of order, removing the patch that was above a waiting one frees a trampoline that is still branched to |
| `Undoing.PatchThenRestore` | source/function_patcher.cpp:52-142 | restoring right after patching succeeds if and only if the word found and the effective address are not zero; it then gives back the target word and alters nothing else, and otherwise changes nothing |
| `Undoing.PatchesThenRestores` | source/function_patcher.cpp:52-142 | any unpatched entries, patched in any order and restored in the reverse one, whoever else is patched or waiting, give back the initial memory everywhere outside their own buffers and pointer cells |
| `Runs.LoadKeepsInv` | source/main.cpp:135-139 | a load, from an ordered list, establishes the strong invariant over the new original code |
| `Runs.CheckAfterVanish` | source/main.cpp:45-74 | after code has vanished, the memory check turns off exactly the patches in the vanished region, restores the invariant and keeps the order |
| `Runs.UnloadKeepsPre` | source/main.cpp:140-152 | the unload callback keeps the weaker invariant and the order, turns off exactly the patches of the region, and makes no entry wait |
| `Runs.UnloadKeepsInv` | source/main.cpp:140-152 | and it keeps the strong one |
| `Runs.StartKeepsInv` | source/main.cpp:155-180 | an application start, from an ordered list, establishes the strong invariant |
| `Runs.EventKeepsInv` | source/main.cpp:129-180 | every event, with removal as intended, keeps the strong invariant and block ownership, without `OSFatal` |
| `Runs.EventAsWritten` | source/export.cpp:111-116 | as written, no event is fatal, all keep block ownership, and each keeps the chains in list order, and with them the weaker invariant, if and only if it does not sweep a list that is out of order |
| `Runs.DisorderComesFromAdding` | source/export.cpp:46-57 | a list that is ordered goes out of order exactly by an add onto a waiting patch |
| `Runs.NeverAddingOntoWaitingSuffices` | source/export.cpp:46-57 | so in a run in which callers never do that, every sweep finds an ordered list |
| `Runs.RunAsWrittenIff` | source/export.cpp:15-120 | a run as written keeps the chains throughout if and only if every sweep finds an ordered list; the weaker invariant and block ownership then hold at its end |
| `Runs.EveryRunKeepsTheChain` | source/export.cpp:15-120 | as intended, every state that any run from the initialisation reaches satisfies the strong invariant, owns exactly its blocks, and was reached without `OSFatal` |
| `Runs.EveryRunAsWritten` | source/export.cpp:15-120 | every run as written from the initialisation keeps the chains throughout if and only if each of its sweeps finds an ordered list; in order or not, it is never fatal and its live blocks are those of the listed patches |
| `Runs.EveryRunDispatches` | source/PatchedFunctionData.cpp:254-316 | after every run as intended, and every run as written whose sweeps all found an ordered list, a call of any function is dispatched by the patches on it in list order; adds onto waiting patches are included |
| `Runs.EverySweepDispatches` | source/main.cpp:137-139 | and after one more sweep, ordered or not, by the patches that were on it before with those that the sweep has applied on top |
| `OrderlyRuns.CheckIsGentleIff` | source/main.cpp:45-74 | whatever the order of patches, the memory check turns off exactly the patches whose code has vanished if and only if, elsewhere, each topmost patch is the last of its address in the list |
| `OrderlyRuns.EventKeepsStacks` | source/export.cpp:69-120 | as written, adds and loads, removals that take their patch off, and memory checks that turn off only what has vanished keep every function's stack in patch order |
| `OrderlyRuns.EveryGentleRunDispatches` | source/PatchedFunctionData.cpp:254-316 | so after every run of such events, in whatever order its sweeps find their lists, a call of any function is dispatched by the patches on it in patch order |
| `Divergence.RemoveFirstOfTwo` | source/export.cpp:99-116 | as written, removing the lower of two patches leaves the upper one off, over the original word |
| `Divergence.RemoveAddSweepLinksToItself` | source/export.cpp:111-116 | removal as written, add, sweep, memory check and sweep: list order and patch order diverge, and a patch ends up having displaced its own branch word |
| `Divergence.SelfLinkedPatchLoops` | source/PatchedFunctionData.cpp:281-288 | such a patch keeps a process that it does not admit for any number of instructions |
| `Divergence.ExampleDiverges` | source/export.cpp:111-116 | the situation occurs for concrete patches |
| `Instance.StoryIsSound` | source/export.cpp:69-120 | a concrete run of adds and a removal satisfies all assumptions as intended |
| `Instance.StoryAsWritten` | source/export.cpp:69-120 | as written, the same run keeps the chains through an add onto a waiting patch, and the load that follows breaks them; all assumptions hold |
| `Instance.LibraryStory` | source/main.cpp:129-180 | a concrete run with a library's load, unload, second load and replacement before an application start satisfies all assumptions; both patches lie in the region that the unload takes away and in the one that the start replaces, and both are on in the end |
| `FunctionAddressProvider.Provider.GetEffectiveAddressOfFunction` | source/FunctionAddressProvider.cpp:6-49 | the address is the export of the cached or freshly queried handle, or where the relative branch decoded from its first word goes, and null without handle or export; the table changes only by caching that handle |
| `FunctionAddressProvider.AskedRows` | source/FunctionAddressProvider.cpp:11-24 | row by row: only a missing handle in the first row of the library is filled in, with what the loader says |
| `FunctionAddressProvider.HandleForRows` | source/FunctionAddressProvider.cpp:11-29 | a cached handle is used right or stale, a missing one is asked for, and without a row there is none |
| `FunctionAddressProvider.Provider.ResetHandles` | source/FunctionAddressProvider.cpp:51-59 | all handles become null, libraries stay |
| `FunctionAddressProvider.Provider.GetTypeForHandle` | source/FunctionAddressProvider.cpp:61-68 | the library of the first row with the handle, if there is one |
| `FunctionAddressProvider.Provider.ResetHandle` | source/FunctionAddressProvider.cpp:70-78 | clears the first row with the handle and says whether there was one |
| `FunctionAddressProvider.WithoutHandleRows` | source/FunctionAddressProvider.cpp:70-78 | row by row: exactly the first row with the handle loses it |
| `FunctionAddressProvider.TypeForHandleRows` | source/FunctionAddressProvider.cpp:61-68 | the answer is the library of the first row with the handle, and none if no row has it |
| `FunctionAddressProvider.CachedIsFresh` | source/FunctionAddressProvider.cpp:11-24 | with a coherent cache, cached resolution equals a fresh query |
| `FunctionAddressProvider.EventKeepsCoherent` | source/main.cpp:142-150 | loads, resolutions, reported unloads and application ends keep the cache coherent |
| `FunctionAddressProvider.EveryRunKeepsCacheFresh` | source/main.cpp:185-187 | over every run of these, cached resolution equals a fresh query |
| `FunctionAddressProvider.UnreportedUnload` | source/main.cpp:150 | an unload that is not reported leaves the cache coherent if and only if the handle was not cached |
| `FunctionAddressProvider.TypeOfUnloaded` | source/main.cpp:142 | the unload callback recognises a library if and only if its handle is cached, and never takes it for another |
| `PatchedFunctions.PatchedFunctionData.AllocateDataForJumps` | source/PatchedFunctionData.cpp:99-120 | which blocks are allocated, what remains after a failure, and that it does nothing when both buffers exist |
| `PatchedFunctions.PatchedFunctionData.Destroy` | source/PatchedFunctionData.cpp:324-333 | the destructor gives back exactly the object's blocks |
| `PatchedFunctions.PatchedFunctionData.GetAddressForExecutable` | source/PatchedFunctionData.cpp:122-184 | when an executable's function is found, by name or by offset |
| `PatchedFunctions.PatchedFunctionData.UpdateFunctionAddresses` | source/PatchedFunctionData.cpp:186-225 | given addresses stay as they are; an executable gets exactly the address found for it and its translation, by name only if that is not null; in general the site of the target; fatal exactly when it has no physical address; fields unchanged when it does not resolve |
| `PatchedFunctions.PatchedFunctionData.ShouldBePatched` | source/PatchedFunctionData.cpp:335-337 | true if and only if the target is no executable or is accepted for the running title |
| `PatchedFunctions.PatchedFunctionData.GenerateJumpToOriginal` | source/PatchedFunctionData.cpp:227-252 | writes, in order, the words of `jumpToOriginal` and then the pointer cell, and nothing else |
| `PatchedFunctions.PatchedFunctionData.GenerateReplacementJump` | source/PatchedFunctionData.cpp:254-322 | writes exactly the trampoline words, in order, and sets the branch word, to the trampoline if there has to be one and else to the replacement; fatal exactly when the trampoline is missing or out of reach, never for overflow |
| `Patcher.PatchFunction` | source/function_patcher.cpp:52-92 | the outcome, the new memory, the new fields and the sequence of writes are those of `PatchValue` |
| `Patcher.RestoreFunction` | source/function_patcher.cpp:94-142 | restores if and only if the four guards pass, and then writes the saved word to the one address; otherwise changes nothing |
| `Patcher.FunctionPatcherModule.PatchAll` | source/main.cpp:173-175 | the loop over the list is the sweep of the state machine |
| `Patcher.FunctionPatcherModule.CheckIfPatchedFunctionsAreStillInMemory` | source/main.cpp:45-74 | the reverse loop with two sets is the scan of the state machine |
| `Patcher.FunctionPatcherModule.InvalidateLibrary` | source/main.cpp:143-149 | clears the flag of each patch of the recognised library, and changes no other entry |
| `Patcher.FunctionPatcherModule.NotifyCallback` | source/main.cpp:129-153 | a load is the sweep and keeps the cache coherent; an unload is the transition for the library of the handle, and resets the first row with it |
| `Patcher.FunctionPatcherModule.ApplicationStarts` | source/main.cpp:155-180 | under process ids 2 and 15, memory check, then sweep; under any other nothing changes, neither state nor table, and nothing is written |
| `Patcher.FunctionPatcherModule.ApplicationEnds` | source/main.cpp:185-187 | all cached handles are dropped |
| `Patcher.FunctionPatcherModule.FPIsFunctionPatched` | source/export.cpp:134-146 | succeeds exactly for a listed handle, with that patch's flag |
| `Patcher.FunctionPatcherModule.FindToBeRemoved` | source/export.cpp:71-93 | finds the first position of the handle and, if that entry is patched, exactly the later entries of its physical address |
| `Patcher.FunctionPatcherModule.FPRemoveFunctionPatch` | source/export.cpp:69-120 | not found: nothing changes; else the new state is that of the removal transition in the form chosen |
| `Patcher.FunctionPatcherModule.MakeShared` | source/PatchedFunctionData.cpp:8-96 | the new object has the request's handle, target, process, replacement, pointer cell and given addresses; or the heap is as it was when memory is short |
| `Patcher.FunctionPatcherModule.FPAddFunctionPatch` | source/export.cpp:15-63 | argument and version errors and want of memory leave the list alone; else the list is the old one with one more object, which has the fields of the request, and the new state, the handle and the flag are those of the add transition |

## Left out

- PatchedFunctions.PatchedFunctionData.GetAddressForExecutable: does not model the enumeration of RPLs, the match of the name's end and the fatal calls for a failing enumeration, because they are questions to a foreign loader; which executables are found, and where, is part of the environment (`Env.executables`).
- PatchedFunctions.PatchedFunctionData.ShouldBePatched: does not model title ids, title versions and the MCP calls, because they are questions to the system; which executable targets are accepted is part of the environment (`Env.accepted`).
- Patcher.RestoreFunction: does not model the fatal stop when the saved word, a field of a heap object, has no physical address (source/function_patcher.cpp:127-134), because objects have no addresses here.
- Patcher.FunctionPatcherModule.MakeShared: does not model the two struct layouts nor the fields for title ids and versions, because they only feed the accepted titles; a request is one value, and the method stands for both factories.
- `KernelFindExport` and the ELF walk (source/utils/KernelFindExport.cpp): the address that an executable's function is found at is part of the environment (`Env.executables`).
- Cache flushes, instruction-cache invalidation, memory barriers and `CThread::runOnAllCores`: the write of the target word is one word write, which repeating on other cores does not change.
- `ReadFromPhysicalAddress` and the 0x30800000 shifts: reads and writes of physical memory; whether reads succeed is one flag, not one per address, and the invariant assumes that they do.
- Mutexes and true concurrency: each operation is one step, except in `Publication`, which cuts `PatchFunction` at its single-word writes.
- The self-patching of OSDynLoad, heap creation and logging in the initialisation: plumbing.
- The rows of the provider's table (source/FunctionAddressProvider.h): a parameter; the theorems hold for every table that lists no library twice.
- As-written runs after a removal that could not take its patch off, or a memory check that has cleared more than has vanished: safety is proved for them (`Runs.EveryRunIsSafe`), where calls go is not.
- The choice of block by the heap manager: the caller's proposal, granted when it is free; any choice strategy is covered.
- The buffers of a patch object as C++ arrays: they are words at addresses of the console's memory, because the processor executes them there.
- The moment between the disappearance of code and the callback: an event of `Runs` is the change of memory together with the module's reaction, so nothing is said of calls in between.
- Application starts under process ids other than 2 and 15 as events of a run: nothing changes then (`Outcomes.StartedElsewhere`, and the `ensures` of `ApplicationStarts`).
- The null output pointer of `FPIsFunctionPatched`, and the optional output pointers of `FPAddFunctionPatch`: results are returned as values.
- `OSGetUPID` itself as a patched function: its first two words are platform constants.
