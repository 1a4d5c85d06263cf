# Verified model of the Zygisk hooking core

The project models the parts of `libzygisk` that rewrite a running process and look symbols up in
it, and proves what they keep, what they restore and what they find. It is written for Dafny 4.11;
`dafny verify dfyconfig.toml` checks all of it.

## The hook manager (LSPlt)

`HookManager.Manager` is `lsplt.cc`: a queue of requests, a table of tracked regions, and three
operations. `CommitHook` scans the mappings, filters them, merges them with the live regions and
patches the slots of every request. The first patch of a region moves its pages aside and leaves a
copy; removing the last one moves the pages home. `InvalidateBackup` moves every backup home and
writes the hooks onto it. The address space is a table of mappings and a memory of words, each
with a dirty bit (`AddressSpace`); the system calls are the methods of `Kernel.Memory`, and any of
them may fail.

The proofs are layered. The methods are proved, call by call, against functions on states, for the
runs in which no system call fails. On those functions three views are kept apart:

- the invariant (`HookState.Invariant`): regions and backups pairwise disjoint, and every backup the
  image of its region with each recorded word put back;
- the overlay (`HookOverlay.Overlay`): what readers see, and which words are recorded. One patch is
  one step there, whatever remapping happens below;
- the pristine address space (`HookState.Pristine`): what the process would be with every backup
  moved home. Patches never touch it.

What all of this comes to is then said without any of it. `HookedSlots` describes one commit by the
mappings of the process and the relocations of its images alone: which request goes to which mapping,
which words read which callback afterwards, which words and which backup pointers stay. `HookPages`
says where the pages of a region are after its first hook and after its last one.

Hook-then-unhook is decided on the overlay and carried down through two commits: `HookReplan` shows
what the second commit plans once some symbols have no slot and some regions are no longer wanted,
`HookUnderneath` what happens below when the batch reaches into the library's own file, which is
patched in place, and `HookRoundTrip` puts them together, as an if-and-only-if on the words the slots
start with. `PltHooks` is the library's own client, `hook_plt` and `restore_plt_hook`, ending in the
same theorem. `HookExample` has one process for each outcome.

When system calls fail, `Manager.Valid` is kept: a region that is not the library's own and has no
backup has no records. A commit still tries every planned slot, whatever fails on the way, and a slot
whose calls fail touches its own region and pointer only. A refused `mprotect` in `InvalidateBackup` is
followed to the end (`HookInvalidate`).

## Symbol look-up, twice

`ElfTables` says what a well-formed GNU or System V hash table is, next to linear search and the two
hash functions; `ElfUtil` and `XdlLookup` are the two independent implementations, each proved to
return what linear search returns. Both hashes are stated by their arithmetic, and the slots of a name
by its relocations. The System V table is that of the System V ABI, chapter 5,
"Dynamic Linking", section "Hash Table"; the GNU table has no written standard. `ElfDynamic` is the
loop over the dynamic section: each field is that of the last entry for it, and the order of entries for
different fields does not matter.

## The rest

`XdlCache`: the address cache of xDL, transparent exactly when no opened ELF shadows another.
`LoadOnce`: double-checked loading, for any number of threads and any interleaving.
`JniHooks` and `JniZygote`: replacing native methods and putting them back. `JniOverloads` says what
`hook_zygote_jni` and `restore_zygote_hook` leave for every class, overloaded entry points and shared
pointers included, and exactly when that is all or nothing; `JniEntryPoints` says the same of the three
methods by name.
`LinkerCallers`: one pass over the loaded ELFs that may stop early. `LzmaBuffer`: the growing output
buffer. `FdSanitizer`: which descriptors survive a fork.

## What the code does, where that differs from what is written about it

- `InvalidateBackup` is documented to return false when a hook fails to invalidate
  (`src/libzygisk/lsplt/include/lsplt.hpp:121-122`). It returns true exactly when no `mremap` failed.
  When the pages cannot be made writable their hooks are gone and it still returns true. As long as no
  `mremap` fails, everything reads as before if and only if, in each region with a backup, the first
  `mprotect` succeeded or every recorded word is the current one already (`InvisibleExactly`);
  `HookThatIsLost` is a run that loses a hook, and `LoseHook` the call that returns true for it.
- A symbol with several slots has one backup pointer. Hooking and unhooking a batch restores every word
  exactly when the slots behind each pointer started with one word and none of them null
  (`UnhookRestoresExactly`). Slots can differ because an absolute relocation adds its addend to the
  symbol and is taken like the others (`src/libzygisk/lsplt/elf_util.cc:281-287`): then each slot gets the
  word of one of them (`SlotsThatDiffer`).
- A null slot hands back a null original, which `hook_plt` takes for a symbol that was not found: the
  hook is erased from `plt_backup` and stays (`SlotsThatAreNull`), while `restore_plt_hook` succeeds and
  leaves should_unmap set (`PltRoundTrip`).
- `hook_zygote_jni` hooks the list of an entry point once for every native method of that name, and each
  time after the first undoes or redoes the one before. `register_jni_methods` skips null pointers, so a
  method that was unbound before it was hooked stays hooked. Where the methods have pointers of their
  own, only this counts (`ParityDecides`): when no entry point is missing, all are hooked and every list
  returns the originals if and only if the class has an odd number of methods of each name that it has;
  when one is missing, the class is as it was if and only if each entry point visited before was visited
  an odd number of times and hooked only bound methods, and `restore_zygote_hook` restores it under the
  same condition. Otherwise the roll-back, or the restoring, installs the hooks (`RollBackHooks`,
  `RestoreHooks`).
- Originals are looked up by their pointers, front to back. When a list is hooked for an even time while a
  method further to the front holds the same pointer, the list keeps the original for good: restoring
  does no harm then, but the method is not hooked any more (`SharedPointer`). `AllOrNothing` and
  `RestoreUndoesHook` give the conditions for every class.
- A cached ELF whose segments overlap another's answers for it, so the cache is transparent exactly
  under the condition of `TransparentExactly` on the program headers; disjoint segments are enough.
  `ShadowedCall` is a call that is answered by the wrong ELF.

## Model

| member | source | states |
|---|---|---|
| `HookState.LowerBound` | `src/libzygisk/lsplt/lsplt.cc:118-124` | the region picked is the one with the greatest start not above the address, none when every start is above it |
| `HookState.OwnerIsContainer` | `src/libzygisk/lsplt/lsplt.cc:118-124` | with disjoint regions, a region is picked exactly when it contains the address |
| `HookState.RegionsAndBackupsDisjoint` | `src/libzygisk/lsplt/lsplt.cc:126-154` | under the invariant, tracked regions and backup images are pairwise disjoint |
| `HookState.PristineIsActual` | `src/libzygisk/lsplt/lsplt.cc:174-187` | with no backup left, the address space is the pristine one |
| `HookStep.TakeBackupSound` | `src/libzygisk/lsplt/lsplt.cc:126-154` | moving the pages aside and copying them makes the backup an image of the region and disturbs no other region or backup |
| `HookStep.MakeWritableSound` | `src/libzygisk/lsplt/lsplt.cc:155-161` | making the library's own region writable keeps every region and backup sound |
| `HookStep.WriteSound` | `src/libzygisk/lsplt/lsplt.cc:162-173` | the store together with its record keeps the backup the image of the region with each recorded word put back |
| `HookStep.DropSound` | `src/libzygisk/lsplt/lsplt.cc:174-187` | moving a backup home keeps every other region and backup sound |
| `HookStep.HookInvariant` | `src/libzygisk/lsplt/lsplt.cc:118-189` | a patched slot keeps the whole invariant, whichever of the parts ran; afterwards a region has a backup iff it has records |
| `HookPages.FirstHook` | `src/libzygisk/lsplt/lsplt.cc:126-173` | the first hook of a region: the file's mapping and every cell of it lie at the backup, unchanged; in its place is a private copy, readable and writable besides what it was, that differs in the one word; the old word is recorded, and is behind the caller's pointer unless it was the callback already |
| `HookPages.LastUnhook` | `src/libzygisk/lsplt/lsplt.cc:162-187` | putting back the last recorded word: the file's own mapping and every cell of it are home again, as they were at the backup, and no record is left |
| `HookPages.OwnHook` | `src/libzygisk/lsplt/lsplt.cc:155-168` | in the library's own file one word changes in place, no backup is made, and the mapping can be written from then on |
| `HookEffect.TakeBackupPristine` | `src/libzygisk/lsplt/lsplt.cc:126-154` | taking a backup changes nothing of the image underneath: mappings, words, dirty bits |
| `HookEffect.TakeBackupView` | `src/libzygisk/lsplt/lsplt.cc:126-154` | taking a backup is invisible to readers |
| `HookEffect.WriteView` | `src/libzygisk/lsplt/lsplt.cc:162-173` | the store changes exactly the word at the slot for readers, and its record: new with the old word, gone when the recorded word comes back, else kept |
| `HookEffect.WritePristine` | `src/libzygisk/lsplt/lsplt.cc:162-173` | a store into a region with a backup does not reach the image underneath |
| `HookEffect.DropView` | `src/libzygisk/lsplt/lsplt.cc:174-187` | with no record left, moving the backup home is invisible to readers |
| `HookEffect.DropPristine` | `src/libzygisk/lsplt/lsplt.cc:174-187` | moving a backup home restores its mapping and cells as they are underneath |
| `HookOverlay.HookRefines` | `src/libzygisk/lsplt/lsplt.cc:118-189` | frame: a successful DoHook changes exactly one readable word of all tracked regions, to the callback, on the first copy, on an existing one and on the last unhook; the image underneath is untouched unless the region is the library's own |
| `HookOverlay.HookThenUnhook` | `src/libzygisk/lsplt/include/lsplt.hpp:57-66` | patching fresh slots that start alike behind each pointer and not null, and patching each again with its saved word, restores every word and every record |
| `HookOverlay.HookThenUnhookExactly` | `src/libzygisk/lsplt/lsplt.cc:162-173` | for readers, patching fresh slots and then those again whose pointers got something restores the words if and only if the slots behind each pointer started with one word, none of them null |
| `HookCommit.RescanInvariant` | `src/libzygisk/lsplt/lsplt.cc:104-116` | after scan, filter and merge the invariant holds, so no backup image is ever tracked as a region |
| `HookCommit.RescanPristine` | `src/libzygisk/lsplt/lsplt.cc:104-116` | scan, filter and merge leave the image underneath as it was |
| `HookCommit.HookAllRefines` | `src/libzygisk/lsplt/lsplt.cc:191-214` | a run of patches is the same run on what readers see, and with no region of the library's own it never reaches the image underneath |
| `HookCommit.HookAllIdentities` | `src/libzygisk/lsplt/lsplt.cc:191-214` | patches change neither which regions are tracked nor what they are, nor the queue |
| `HookedSlots.CommitIsDone` | `src/libzygisk/lsplt/lsplt.cc:321-335` | after a commit without a failing call each tracked slot of a request, in the image at the lowest mapping of its file and offset, reads the callback, unless requests disagree on it; every other tracked word is as before; a pointer whose slots hold the callback already is left alone; queued remain just the requests that start at no mapping; and the result is true exactly when every slot asked for is tracked |
| `HookedSlots.RescanTracks` | `src/libzygisk/lsplt/lsplt.cc:50-116` | an address is tracked exactly when it lies in a mapping that has a backup, or in a private, readable mapping of a named file that some request covers |
| `HookedSlots.GoesToFirst` | `src/libzygisk/lsplt/lsplt.cc:194-200` | a request goes to the lowest such mapping with its device, inode and first offset |
| `HookedSlots.NewRegion` | `src/libzygisk/lsplt/lsplt.cc:54-77` | a mapping tracked for the first time has no record and no backup, and is the library's own exactly when it has the library's device and inode |
| `LoadedImages.SlotsAtExactly` | `src/libzygisk/lsplt/lsplt.cc:201-204` | the slots of a symbol in the image at an address: each slot that its relocations give the symbol of that name, and no other; none when the image is not valid |
| `HookPlan.FirstTakerIsLowest` | `src/libzygisk/lsplt/lsplt.cc:191-200` | a request goes to the lowest-address tracked region with the right file and the very offset it asks for |
| `HookPlan.LoopConsumes` | `src/libzygisk/lsplt/lsplt.cc:191-212` | the nested loop takes, region by region, exactly the requests that go to each region and keeps the others in order |
| `HookReplan.UndonePlan` | `src/libzygisk/src/hook.cpp:487-499` | registering each symbol again with its saved word plans the undoing of every patch, in the same order |
| `HookReplan.SamePlanOverFewer` | `src/libzygisk/lsplt/lsplt.cc:83-102` | dropping regions that take no request leaves every planned patch, in the same order |
| `HookReplan.LeftoverPlansNothing` | `src/libzygisk/lsplt/lsplt.cc:191-214` | requests that a commit left in the queue plan nothing in the next one over the same regions, whatever is queued behind them |
| `HookReplan.SecondPlanUndoes` | `src/libzygisk/src/hook.cpp:441-499` | with leftovers in front and the symbols without an original not registered again, over the regions still wanted: the second commit plans to undo exactly the patches whose pointers got an original |
| `HookReplan.SecondLeftover` | `src/libzygisk/lsplt/lsplt.cc:191-214` | and it leaves in the queue what the first one left, and then the undoing of those among them whose pointers held something already |
| `HookUnderneath.HookAllUnder` | `src/libzygisk/lsplt/lsplt.cc:118-189` | a run of patches that may reach into the library's own file: underneath, every other mapping and cell is the same, and its own regions stay mapped where and as they were, still readable |
| `HookRoundTrip.NoRecordsNoBackups` | `src/libzygisk/lsplt/lsplt.cc:174-187` | with no records there are no backups, and the address space is the pristine one |
| `HookRoundTrip.SecondRescan` | `src/libzygisk/lsplt/lsplt.cc:321-335` | after a batch on fresh slots, scanning again finds the same table of regions without those that no queued request wants any more |
| `HookRoundTrip.UndoingNeedsNoPlace` | `src/libzygisk/lsplt/lsplt.cc:126-187` | unhooking a batch never has to map a new backup: the second commit can run, wherever the kernel would put one, exactly when it patches back the slots of the first that got an original |
| `HookRoundTrip.UnhookRestoresExactly` | `src/libzygisk/lsplt/lsplt.cc:162-187` | commit a batch, register again each symbol that got an original, commit: every word reads as before if and only if the slots behind each pointer started with one word, none of them null |
| `HookRoundTrip.SameUnderBoth` | `src/libzygisk/lsplt/lsplt.cc:118-189` | whatever the words, after both commits the address space underneath is the same, off the library's own regions |
| `HookRoundTrip.UnhookRestores` | `src/libzygisk/lsplt/include/lsplt.hpp:57-66` | then every word is as before, regions that nobody wants any more included, no record is new, and each one from before is still there exactly while its region is tracked, which only a region of the library's own file can cease to be; and the image underneath is as before, off the library's own regions |
| `HookRoundTrip.QueueAfterBoth` | `src/libzygisk/lsplt/lsplt.cc:321-335` | both commits take every request that some region takes: in the queue is what the first one left, and the undoing of those among them whose pointers held something already |
| `HookRoundTrip.UnhookRestoresProcess` | `src/libzygisk/lsplt/include/lsplt.hpp:62-66` | starting without hooks, none is left and the address space comes back: mappings, words and dirty bits; of the library's own regions the words |
| `HookRoundTrip.ProcessRestoredExactly` | `src/libzygisk/lsplt/include/lsplt.hpp:57-66` | off the library's own file, the process is back if and only if the slots behind each pointer started with one word, none of them null |
| `HookExample.RoundTripHappens` | `src/libzygisk/lsplt/include/lsplt.hpp:57-66` | a concrete process, request and symbol with two slots that meet every premise: there is a second commit, and it restores the process iff the two words were one and not null |
| `HookExample.SlotsThatDiffer` | `src/libzygisk/lsplt/lsplt.cc:162-173` | two slots of one symbol that start with 40 and 41: after both commits the first reads 41 |
| `HookExample.SlotsThatAreNull` | `src/libzygisk/src/hook.cpp:467` | two slots that start out null: after both commits the hooks are still there |
| `HookExample.HookThatIsLost` | `src/libzygisk/lsplt/lsplt.cc:222-238` | the invalidation of a hooked library whose first mprotect is refused: a hooked slot reads the original |
| `HookExample.LoseHook` | `src/libzygisk/lsplt/lsplt.cc:216-243` | InvalidateBackup called on that library: it returns true when no mremap fails, and the hook is gone exactly if the first mprotect was refused |
| `HookInvalidate.InvalidateOneInvariant` | `src/libzygisk/lsplt/lsplt.cc:219-240` | one region invalidated keeps the invariant, whatever the kernel answers |
| `HookInvalidate.InvalidateOneCell` | `src/libzygisk/lsplt/lsplt.cc:219-240` | the backup goes home as it is, with only its recorded slots overwritten by the hooked words, and not even those when the first mprotect is refused |
| `HookInvalidate.InvisibleExactly` | `src/libzygisk/lsplt/lsplt.cc:216-243` | over every answer the kernel can give: everything reads as before if and only if, in each region with a backup, the first mprotect succeeded or every recorded word is the current one |
| `HookInvalidate.WordAfterAll` | `src/libzygisk/lsplt/lsplt.cc:216-243` | what every slot reads afterwards: what it read, or the recorded word where its region's first mprotect was refused |
| `HookInvalidate.InvalidateAllInfos` | `src/libzygisk/lsplt/lsplt.cc:216-243` | a region that had a backup loses it and its records even when its hooks were not written, another keeps its own |
| `HookInvalidate.GrantedIsInvisible` | `src/libzygisk/lsplt/lsplt.cc:216-243` | with no mprotect refused every word reads as before |
| `HookInvalidate.InvalidateAllDropsBackups` | `src/libzygisk/lsplt/lsplt.cc:216-243` | with every region visited no backup is left, and the address space is the one underneath |
| `HookInvalidate.InvalidateAllWritesHooks` | `src/libzygisk/lsplt/lsplt.cc:216-243` | the pages underneath get the hooked word at each recorded slot whose region could be written, and no other cell of theirs is written |
| `HookInvalidate.InvalidateAllMappings` | `src/libzygisk/lsplt/lsplt.cc:224-238` | in any order, the mapping of each region visited comes home from its backup, with the recorded protection if both mprotect calls were granted, only writable if the second was refused, and as the backup was if the first was |
| `HookInvalidate.OtherMapping` | `src/libzygisk/lsplt/lsplt.cc:216-243` | a mapping that is neither a region with a backup nor a backup stays as it was |
| `HookInvalidate.GrantedIsBroughtBack` | `src/libzygisk/lsplt/lsplt.cc:216-243` | with every call granted: no backup and no record of one is left, each file is mapped where it was with its recorded protection, and every word reads as before |
| `HookRuns.RunKeepsInvariant` | `src/libzygisk/lsplt/lsplt.cc:246-340` | over every run of requests, commits, invalidations (with any mprotect refused) and outside changes: a region not the library's own has a backup iff it has records, backups are images of their regions, and regions and backups are pairwise disjoint |
| `HookRuns.RunConserves` | `src/libzygisk/lsplt/lsplt.cc:290-335` | runs of requests and commits never change the address space underneath |
| `HookRuns.RunWithoutTraces` | `src/libzygisk/lsplt/lsplt.cc:290-335` | whenever such a run ends with no record, the process is exactly the one it began with |
| `HookTables.ScanHookInfo` | `src/libzygisk/lsplt/lsplt.cc:50-80` | the table holds the private, readable, file-backed mappings, each without records or backup, and nothing else |
| `HookTables.ScanOfListing` | `src/libzygisk/lsplt/lsplt.cc:50-80` | on a true listing it is the table of candidates of the process |
| `HookTables.Filter` | `src/libzygisk/lsplt/lsplt.cc:83-102` | exactly the regions that some request matches are kept |
| `HookTables.Merge` | `src/libzygisk/lsplt/lsplt.cc:104-116` | whatever order the old regions are visited in: the new regions that are no backup image and the old ones with a backup, old entries surviving; proved when no backup starts at an old key |
| `HookManager.CopyIsBackedUp` | `src/libzygisk/lsplt/lsplt.cc:126-154` | map, move, map over and copy page by page come to one closed form: old cells at the backup, dirty copies at the region |
| `HookManager.LeadsByCalls` | `src/libzygisk/lsplt/lsplt.cc:191-214` | slots patched one after another without a failing call are a run of the specification, and the result is true exactly when every slot is tracked |
| `HookManager.Manager.CopyImage` | `src/libzygisk/lsplt/lsplt.cc:148-152` | the page loop copies every word of the range and touches no other cell |
| `HookManager.Manager.MoveAside` | `src/libzygisk/lsplt/lsplt.cc:127-153` | the system calls that move the pages aside; with or without MREMAP_DONTUNMAP the outcome is the same |
| `HookManager.Manager.DoHook` | `src/libzygisk/lsplt/lsplt.cc:118-189` | without a failing call it is the specification step of its slot and returns true exactly when a region holds the address; when a call fails, only the entry of the slot's region and the caller's pointer are touched, and true is returned only for the library's own pages |
| `HookManager.Manager.DoHookList` | `src/libzygisk/lsplt/lsplt.cc:191-214` | whatever fails, it tries the planned slots in order, none skipped after a failure, returns the conjunction of their results, and leaves exactly the requests nobody took; each failed call belongs to one of the slots tried |
| `HookManager.Manager.HookRegion` | `src/libzygisk/lsplt/lsplt.cc:194-212` | whatever fails, one region takes its own requests from the queue, tries every slot of each once and leaves the others in order |
| `HookManager.Manager.RegisterHook` | `src/libzygisk/lsplt/lsplt.cc:290-304` | a request is queued last unless its file, symbol or callback is missing |
| `HookManager.Manager.RegisterHookInRange` | `src/libzygisk/lsplt/lsplt.cc:306-319` | the same with an offset range whose end wraps around |
| `HookManager.Manager.CommitHook` | `src/libzygisk/lsplt/lsplt.cc:321-335` | whatever fails: nothing to do with an empty queue, false with nothing to hook, else every planned slot is tried, the queue keeps what nobody takes and the result tells whether all slots succeeded; without a failing call and on a true listing it is a commit of the specification, and each slot that the images give a request reads its callback, as `CommitIsDone` says |
| `HookManager.Manager.InvalidateBackup` | `src/libzygisk/lsplt/lsplt.cc:216-243` | true exactly when no mremap failed, and then it is the invalidation of the specification over every region, with the answers that mprotect gave; when no call failed, every file is back where it was, hooks and protection included |
| `HookManager.Manager.BringHome` | `src/libzygisk/lsplt/lsplt.cc:220-238` | one backup moved home, and the recorded slots rewritten with their present words and the protection put back as far as mprotect allows; moved exactly when mremap did not fail |
| `PltHooks.HookContext.RegisterHook` | `src/libzygisk/src/hook.cpp:425-432` | an accepted request is queued and remembered, a refused one is neither |
| `PltHooks.HookContext.HookPlt` | `src/libzygisk/src/hook.cpp:441-468` | each symbol wanted in a library that is mapped from a file is queued, in order, with the device and inode of the last mapping of that name, and committed; exactly the hooks that got an original are kept |
| `PltHooks.FileOfExactly` | `src/libzygisk/src/hook.cpp:447-455` | the file of a library is that of the last mapping in the listing whose path ends with its name; 0 and 0 without one |
| `PltHooks.RequestsInOrder` | `src/libzygisk/src/hook.cpp:457-462` | the requests are those for the wanted symbols whose library has a device and an inode, each at any offset of that file, in order, and none is missing |
| `PltHooks.HookContext.RestorePltHook` | `src/libzygisk/src/hook.cpp:487-499` | each kept hook is registered with its original and committed; should_unmap survives exactly when all were accepted and the commit succeeded |
| `PltHooks.TookAnswered` | `src/libzygisk/src/hook.cpp:467` | the hooks left after the erase are those of the requests that got an original, in order |
| `PltHooks.TookExactly` | `src/libzygisk/src/hook.cpp:467` | a hook is kept exactly when its variable holds an original |
| `PltHooks.RestoringExactly` | `src/libzygisk/src/hook.cpp:487-494` | restore_plt_hook queues, for each kept hook with an original, the request to put that original back and save nothing |
| `PltHooks.RestoringIsUndoing` | `src/libzygisk/src/hook.cpp:487-499` | registering each kept hook with its original is undoing each request that got one, and none is refused |
| `PltHooks.RestoreSucceeds` | `src/libzygisk/src/hook.cpp:487-499` | after a batch on fresh slots the second commit returns true |
| `PltHooks.PltRoundTrip` | `src/libzygisk/src/hook.cpp:441-499` | hook_plt and then restore_plt_hook, erased hooks included: every original is accepted, the restore succeeds, and the words, and the whole of a process without hooks, are back if and only if the slots behind each pointer started with one word, none of them null |
| `PltHooks.PltSkipped` | `src/libzygisk/src/hook.cpp:441-499` | with nothing to register or nothing to scan both leave the process alone, and the restore succeeds iff there was nothing to register |
| `WordBits.SameHashEitherWay` | `src/libzygisk/libxdl/_xDL/xdl/src/main/cpp/xdl.c:660-662` | comparing hashes by exclusive or and shift (lsplt) and by forcing the last bit (xDL) is the same test |
| `WordBits.ClearByXor` | `src/libzygisk/lsplt/elf_util.cc:238-243` | clearing the top nibble by exclusive or is the folding step of the System V ABI |
| `ElfTables.GnuHashIsPolynomial` | `src/libzygisk/lsplt/elf_util.cc:202-210` | the GNU hash: 5381 for no byte, and for each further byte 33 times the hash before plus the byte, modulo 2 to the 32 |
| `WordBits.Times33IsProduct` | `src/libzygisk/lsplt/elf_util.cc:209` | the step used there is 33 times the hash plus the byte |
| `ElfTables.SysvHashIsFolded` | `src/libzygisk/lsplt/elf_util.cc:238-243` | the System V hash by numbers: 16 times the hash before plus the byte, the top four bits taken off and 16 times their number xor-ed in |
| `ElfTables.HashLands` | `src/libzygisk/lsplt/elf_util.cc:212-216` | bucket and filter word are the remainders of the hash and of its 64th part |
| `ElfTables.ChainWordByNumbers` | `src/libzygisk/lsplt/elf_util.cc:221-224` | a chain word agrees with a hash when their halves are equal, and ends its chain when it is odd |
| `ElfTables.SingleGnuIsIndex` | `src/libzygisk/lsplt/elf_util.cc:200-228` | for every name, a table with the one chain word that its hash gives is a correct index of it |
| `ElfTables.FindFrom` | `src/libzygisk/lsplt/elf_util.cc:255-264` | linear search: the first symbol of that name from an index on, none if there is none |
| `ElfTables.BloomHasNoFalseNegative` | `src/libzygisk/lsplt/elf_util.cc:212-215` | a name that the Bloom filter rejects occurs nowhere among the hashed symbols |
| `ElfUtil.HashSysv` | `src/libzygisk/lsplt/elf_util.cc:230-243` | the loop computes the hash of the System V ABI |
| `ElfUtil.GnuLookup` | `src/libzygisk/lsplt/elf_util.cc:200-228` | on every well-formed table it ends and returns the lowest hashed index bearing the name, 0 if there is none |
| `ElfUtil.WalkChain` | `src/libzygisk/lsplt/elf_util.cc:216-225` | the chain walk decides the whole hashed part from one bucket |
| `ElfUtil.ElfLookup` | `src/libzygisk/lsplt/elf_util.cc:230-253` | on every well-formed table it ends and returns the first symbol of that name on its bucket's chain |
| `ElfUtil.LinearLookup` | `src/libzygisk/lsplt/elf_util.cc:255-264` | it covers exactly the symbols below sym_offset |
| `ElfUtil.SymbolIndexFound` | `src/libzygisk/lsplt/elf_util.cc:266-272` | GNU, then System V, then linear: for a non-empty name an index is found iff the name occurs anywhere in the table, and it bears the name |
| `ElfUtil.SymbolIndexExactly` | `src/libzygisk/lsplt/elf_util.cc:266-272` | the index found is the first hashed symbol of the name, or else the first unhashed one; with a System V table alone, the first on its chain; 0 exactly when there is none of these |
| `ElfUtil.DataSlotsExact` | `src/libzygisk/lsplt/elf_util.cc:274-302` | the ABS and GLOB_DAT slots found are exactly those of the symbol above the base |
| `ElfUtil.FirstJumpSlot` | `src/libzygisk/lsplt/elf_util.cc:281-290` | the jump slot is that of the first jump-slot relocation of the symbol, given only if it lies above the base |
| `ElfUtil.NoJumpSlot` | `src/libzygisk/lsplt/elf_util.cc:281-290` | without such a relocation there is none |
| `ElfUtil.DataSlotsInOrder` | `src/libzygisk/lsplt/elf_util.cc:278-291` | the data slots follow the order of the relocations, one for each that gives one |
| `ElfUtil.PltSlotsInOrder` | `src/libzygisk/lsplt/elf_util.cc:266-305` | the result for a name: the slot of the first jump-slot relocation of its symbol in rel_plt, then one for each ABS or GLOB_DAT relocation in rel_dyn and one for each in rel_android, in their order, all above the base only |
| `ElfUtil.PltSlotsExactly` | `src/libzygisk/lsplt/elf_util.cc:266-305` | an address is in the result exactly when it is one of these |
| `ElfUtil.OneDataSlot` | `src/libzygisk/lsplt/elf_util.cc:293-302` | an image with one symbol and one GLOB_DAT relocation of offset 8: the result is bias plus 8 |
| `ElfUtil.FindPltAddr` | `src/libzygisk/lsplt/elf_util.cc:266-305` | on every image with correct tables it returns each slot of the symbol of that name and nothing else, in the order of `PltSlotsInOrder`; nothing when no symbol but the reserved first one bears the name |
| `ElfDynamic.ParseDynamic` | `src/libzygisk/lsplt/elf_util.cc:115-183` | given up exactly when a pointer read before DT_NULL does not lie above the base; else every field is what the last entry for it says, or null without one, and the hash fields are those of the last DT_GNU_HASH, or without one of the last DT_HASH, word by word |
| `ElfDynamic.ApplyCommutes` | `src/libzygisk/lsplt/elf_util.cc:117-182` | two entries that set different fields can change places |
| `ElfDynamic.OrderDoesNotMatter` | `src/libzygisk/lsplt/elf_util.cc:115-197` | for every permutation of entries that set each field at most once: the same fields, or given up alike |
| `ElfDynamic.GnuHashWins` | `src/libzygisk/lsplt/elf_util.cc:159-179` | with both hash tables present, in either order, the fields describe the GNU one |
| `ElfDynamic.NullEnds` | `src/libzygisk/lsplt/elf_util.cc:118-121` | nothing after DT_NULL is read |
| `XdlLookup.FindUseSysvHash` | `src/libzygisk/libxdl/_xDL/xdl/src/main/cpp/xdl.c:628-640` | on every well-formed table: the first symbol of that name on its bucket's chain |
| `XdlLookup.FindUseGnuHash` | `src/libzygisk/libxdl/_xDL/xdl/src/main/cpp/xdl.c:642-675` | on every well-formed table: the lowest hashed index bearing the name, none if there is none |
| `XdlLookup.Sym` | `src/libzygisk/libxdl/_xDL/xdl/src/main/cpp/xdl.c:760-783` | GNU hash first, then System V; an undefined symbol is not exported |
| `XdlLookup.LookupsAgree` | `src/libzygisk/libxdl/_xDL/xdl/src/main/cpp/xdl.c:642-675` | over one GNU table both libraries settle on the same symbol |
| `XdlLookup.DynamicSymbolFound` | `src/libzygisk/libxdl/_xDL/xdl/src/main/cpp/xdl.c:628-675` | with a System V table a name is found iff the table holds it |
| `XdlLookup.SymByAddr` | `src/libzygisk/libxdl/_xDL/xdl/src/main/cpp/xdl.c:929-956` | the first symbol that is defined, not thread-local and has the offset in its range: among the hashed symbols with a GNU table, among all with a System V one, none without either |
| `XdlLookup.WalkBuckets` | `src/libzygisk/libxdl/_xDL/xdl/src/main/cpp/xdl.c:938-947` | the walk over buckets and chains visits each hashed symbol once in increasing order: it returns what the linear scan returns |
| `XdlLookup.WalkCoversTable` | `src/libzygisk/libxdl/_xDL/xdl/src/main/cpp/xdl.c:929-956` | when the unhashed symbols are undefined, that is a scan of the whole table |
| `XdlCache.ElfIsMatch` | `src/libzygisk/libxdl/_xDL/xdl/src/main/cpp/xdl.c:853-866` | true exactly when some loaded segment holds the address |
| `XdlCache.OpenByAddr` | `src/libzygisk/libxdl/_xDL/xdl/src/main/cpp/xdl.c:868-906` | the first ELF with a bias and a name that holds the address |
| `XdlCache.AddressCache.Addr4` | `src/libzygisk/libxdl/_xDL/xdl/src/main/cpp/xdl.c:979-1027` | the answer comes from the cached ELF that holds the address, else from the first that does, which is put in front; no cached ELF is lost |
| `XdlCache.ChosenExactly` | `src/libzygisk/libxdl/_xDL/xdl/src/main/cpp/xdl.c:979-995` | the ELF chosen: the first cached one that loads the address, or else the first listed one with a bias and a name that does |
| `XdlCache.AddressCache.AddrClean` | `src/libzygisk/libxdl/_xDL/xdl/src/main/cpp/xdl.c:1029-1039` | every cached handle is closed once, front to back, and the cache is empty afterwards |
| `XdlCache.TransparentExactly` | `src/libzygisk/libxdl/_xDL/xdl/src/main/cpp/xdl.c:979-1027` | over every sequence of calls each answer is that of an empty cache iff no ELF that can be opened shares an address with an eligible one before it |
| `XdlCache.ShadowedCall` | `src/libzygisk/libxdl/_xDL/xdl/src/main/cpp/xdl.c:979-1027` | two overlapping ELFs and the call that the cache answers with the wrong one |
| `XdlCache.DisjointIsTransparent` | `src/libzygisk/libxdl/_xDL/xdl/src/main/cpp/xdl.c:979-1027` | disjoint loaded segments are enough |
| `XdlCache.CacheIsBounded` | `src/libzygisk/libxdl/_xDL/xdl/src/main/cpp/xdl.c:984-995` | over every sequence of calls no ELF is cached twice and the cache is no longer than the list of ELFs |
| `LoadOnce.LoadedOnce` | `src/libzygisk/libxdl/_xDL/xdl/src/main/cpp/xdl.c:738-758` | in every reachable state the loader has started at most once, at most one thread is inside the lock, and no thread has returned before the loading was complete |
| `LoadOnce.RunIsShort` | `src/libzygisk/libxdl/_xDL/xdl/src/main/cpp/xdl.c:738-758` | with n threads every run has at most 7n steps |
| `LoadOnce.SomeoneCanStep` | `src/libzygisk/libxdl/_xDL/xdl/src/main/cpp/xdl_linker.c:113-124` | until every thread has returned some thread can step |
| `JniHooks.RegisterJniMethods` | `src/libzygisk/src/hook.cpp:510-521` | the loop is RegisterNatives on each entry with a pointer, in order, nulling those the class lacks |
| `JniHooks.RegisterFirstEffect` | `src/libzygisk/src/hook.cpp:510-521` | after n entries: each method of the class has the pointer of the last entry that names it, each unmatched entry is null, nothing else changed |
| `JniHooks.HookJniMethods` | `src/libzygisk/src/hook.cpp:523-561` | the three nested loops: register, then find each original through the new table; the count is the number found |
| `JniHooks.HookLeaves` | `src/libzygisk/src/hook.cpp:523-561` | each hooked entry of the list holds its original pointer, each unmatched one null, and the class holds the hooks |
| `JniHooks.CountIsZero` | `src/libzygisk/src/hook.cpp:523-561` | the count is zero exactly when the class has none of the listed methods |
| `JniHooks.RestoredExactly` | `src/libzygisk/src/hook.cpp:510-521` | registering the list that came back restores the class iff every hooked method was bound |
| `JniHooks.SecondHookUndoes` | `src/libzygisk/src/hook.cpp:616-636` | hooking a returned list again, as a second overload does, takes the hooks off |
| `JniZygote.HookZygoteJni` | `src/libzygisk/src/hook.cpp:609-649` | the method loop and the roll-back, on the class and the three lists: the outcome that `EntryPointsHooked` and `AllOrNothing` are about |
| `JniEntryPoints.EntryPointsHooked` | `src/libzygisk/src/hook.cpp:113-649` | by name, for nativeForkAndSpecialize, nativeSpecializeAppProcess and nativeForkSystemServer: with nothing missing, each of them that the class has once holds the function listed for its signature, and the list holds the original, null for what the class lacks; a list for a name that the class lacks is kept; with something missing every list is nulled; methods of other names are never touched |
| `JniEntryPoints.OneBoundIsRestored` | `src/libzygisk/src/hook.cpp:609-656` | with at most one method of each name, bound where it is replaced: giving up leaves the class as it was, and restoring brings it back |
| `JniEntryPoints.SpecializeIsHooked` | `src/libzygisk/src/hook.cpp:623-628` | a class with one bound nativeSpecializeAppProcess: the class gets the hook and the list the original |
| `JniOverloads.OneVisit` | `src/libzygisk/src/hook.cpp:523-561` | one more visit of an entry point: what the class and its list hold then, and whether it counts as missing, from the visits before and from who else holds the pointers looked up |
| `JniOverloads.RegisterAdvances` | `src/libzygisk/src/hook.cpp:510-521` | registering a list again is, for the class, hooking it once more |
| `JniOverloads.ZygoteOutcome` | `src/libzygisk/src/hook.cpp:609-649` | the class and the three lists that hook_zygote_jni leaves, entry by entry, for any number of methods of each name, unbound ones and shared pointers included |
| `JniOverloads.CompleteExactly` | `src/libzygisk/src/hook.cpp:616-636` | the loop finds no entry point missing exactly when the class has a listed method for each one it has, and a bound one where it has several methods of the name |
| `JniOverloads.AllOrNothing` | `src/libzygisk/src/hook.cpp:609-649` | complete: all hooked and every list returns the originals iff each list was hooked once, or an odd number of times with its methods told apart by the search; incomplete: every list nulled, and the class as it was iff each entry point visited hooked only bound methods and its list holds the originals |
| `JniOverloads.ParityDecides` | `src/libzygisk/src/hook.cpp:609-656` | where the lists of overloaded entry points hook no shared pointers, both conditions come down to an odd number of visits and bound originals |
| `JniOverloads.OneMethodEach` | `src/libzygisk/src/hook.cpp:609-656` | one bound method for each entry point the class has is enough for both |
| `JniOverloads.RollBackHooks` | `src/libzygisk/src/hook.cpp:609-649` | two overloads and then a missing entry point: the roll-back leaves the hook in the class and the lists nulled |
| `JniZygote.RestoreZygoteHook` | `src/libzygisk/src/hook.cpp:651-656` | the three lists registered again |
| `JniOverloads.RestoreUndoesHook` | `src/libzygisk/src/hook.cpp:609-656` | whether hook_zygote_jni hooked everything or gave up, restore_zygote_hook leaves the class as it was before iff each entry point visited hooked only bound methods and its list holds the originals: it was visited an odd number of times, or the search never gave its hooks back |
| `JniOverloads.RestoreHooks` | `src/libzygisk/src/hook.cpp:609-656` | two overloads and nothing missing: the class is unhooked, and restoring it hooks it |
| `JniOverloads.SharedPointer` | `src/libzygisk/src/hook.cpp:536-556` | two overloads with one pointer, one of them listed: the search finds the other, the list keeps the original, and restoring does no harm although the entry point was visited twice |
| `LinkerCallers.ShowTo` | `src/libzygisk/libxdl/_xDL/xdl/src/main/cpp/xdl_linker.c:160-174` | the inner loop keeps the lowest applying rule below the cursor, which never rises |
| `LinkerCallers.GetCallerAddrCallback` | `src/libzygisk/libxdl/_xDL/xdl/src/main/cpp/xdl_linker.c:155-177` | every caller is offered the ELF; it returns 1 exactly when each has an address and a cursor of 0 |
| `LinkerCallers.InitCallerAddr` | `src/libzygisk/libxdl/_xDL/xdl/src/main/cpp/xdl_linker.c:155-181` | stopping when the callback returns 1 leaves what visiting every ELF would leave; a caller without an address gets that of its best match |
| `LinkerCallers.BestMatch` | `src/libzygisk/libxdl/_xDL/xdl/src/main/cpp/xdl_linker.c:136-177` | a caller ends with the address of the earliest ELF that attains its lowest matching rule, or with none when no rule matches any ELF |
| `LinkerCallers.BestStandsIn` | `src/libzygisk/libxdl/_xDL/xdl/src/main/cpp/xdl_linker.c:126-177` | that ELF has a bias, a name with the prefix or suffix of the rule, and the address is its bias plus that of its first loaded segment |
| `LzmaBuffer.RoomAndBound` | `src/libzygisk/libxdl/_xDL/xdl/src/main/cpp/xdl_lzma.c:147-175` | every call has at least twice the input size to write to, and the capacity is at most 7 times the input or what is written plus 4 times the input |
| `LzmaBuffer.Decompress` | `src/libzygisk/libxdl/_xDL/xdl/src/main/cpp/xdl_lzma.c:142-182` | all writes in bounds, and the output is the concatenation of the chunks across every reallocation |
| `FdSanitizer.Context.ForkPre` | `src/libzygisk/src/module.cpp:439-455` | the child allows exactly what was listed, but not the listing's own descriptor, and closes what is out of range |
| `FdSanitizer.Context.ExemptFd` | `src/libzygisk/src/module.cpp:415-420` | recorded only when it is not too late and there is an fds_to_ignore argument |
| `FdSanitizer.Context.SanitizeFds` | `src/libzygisk/src/module.cpp:376-413` | a descriptor stays open iff it is allowed; the ignore array becomes the old one followed by the exempted |
| `FdSanitizer.ExemptedExactly` | `src/libzygisk/src/module.cpp:415-424` | over every history, a descriptor is exempted iff some call exempted it in time |
| `FdSanitizer.SurvivesExactly` | `src/libzygisk/src/module.cpp:376-455` | over every history between fork and sanitising: a descriptor survives iff it was open at the fork, or is 0, or was exempted and the new array could be made, or is in the caller's list while there is some exemption |

## Left out

- Addresses count words and a slot is one word: alignment, byte order and writes that straddle a page are not modelled.
- Address arithmetic is unbounded, except for the end of an offset range, which wraps as in the code.
- Page protections are kept in the table of mappings, but a store is not refused for want of write permission; only the outcomes of `mprotect` are modelled.
- The kernel neither merges nor splits mappings, and a fixed mapping replaces one mapping; a listing of `/proc/self/maps` is a parameter of each commit, as is the identity of the library's own file.
- Replacing a file mapping at the same start between commits: `Merge` keeps the old entry there, so runs assume that tracked mappings and backups stay (`HookRuns.LeavesAlone`).
- HookManager.Manager.DoHook: under a failing system call nothing is stated about the address space, because a failure between the remappings leaves the region unmapped.
- HookManager.Manager.CommitHook: with a listing that is not the process's own, nothing is stated about which regions the merge tracks.
- HookManager.Manager.InvalidateBackup: once an `mremap` has failed only `Valid` and the result are stated, because the region it was for has lost its records and keeps its backup.
- HookRuns.RunConserves: runs with invalidations or outside changes are left to `RunKeepsInvariant`, since both are meant to change the address space underneath.
- HookRoundTrip.UnhookRestores: a batch hooks slots that are distinct, not hooked yet and different from their callbacks, each with a backup pointer; a slot in the library's own file must lie in a mapping that its request matches, because another mapping of that file may be scanned away between the commits.
- HookUnderneath.HookAllUnder: the dirty bits and the write permission of the library's own pages do not come back, since they are patched in place.
- HookTables.Merge: the closed form needs that no backup starts at the start of an old region, which the invariant gives.
- ELF header and program-header checks, the decoding of packed Android relocations (the loop reads what lies behind `rel_android_` as plain entries, and `relAndroid` holds those), and images that change between commits: an image is parsed once and stays what it is.
- 32-bit targets: Bloom filter words and addresses have 64 bits (`BloomMask`, `BloomIndex`, `GnuFields`).
- Bounds checks of `st_name`, and wrap-around of symbol indexes, which well-formed tables rule out.
- ElfUtil.ElfLookup: a System V chain may visit symbols out of order, so the first one on the chain is stated, not the lowest index.
- XdlLookup.DynamicSymbolFound: with a GNU table alone, a name below `symoffset` is not found by xDL, which has no linear part; so the statement needs a System V table.
- IFUNC resolution, `xdl_dsym` and its suffix matching, the loading of `.symtab` from the file, and the odd addresses of Thumb functions.
- XdlCache.AddressCache.Addr4: cached handles are a sequence rather than linked nodes, the ELFs are a fixed list, and the symbol tables behind them are a function; a failed allocation is not modelled.
- LoadOnce.LoadedOnce: steps are sequentially consistent; the acquire and release orders are what makes that a fair reading of the code.
- `GetEnv`, `FindClass` and `RegisterNatives` beyond finding a method; the signature that `getNativeMethods` prints is a field of the method.
- JniOverloads.AllOrNothing: the hook pointers are the library's own functions, each listed once and found nowhere in the class; no two native methods agree in name and signature.
- PltHooks.HookContext.HookPlt: the six fixed symbols and their replacements are a parameter; `hook_unloader`, which registers one more hook the same way, is not modelled.
- Regular-expression registration (`plt_hook_process_regex`), ART callbacks, stack unwinding and forced `dlopen` itself.
- LzmaBuffer.Decompress: the coder is a script of replies that keeps to the room it is given; allocation failures, size overflow and the codec are not modelled.
- FdSanitizer.Context.ForkPre: the descriptor of the listed directory lies inside the table; the code indexes with it unchecked (`src/libzygisk/src/module.cpp:454`).
- FdSanitizer.Context.SanitizeFds: the listing of descriptors is a parameter that holds the open ones, its own and the 0 of `.` and `..`; signal masks and the fork itself are left out.
- Socket, daemon, module loading and the generated JNI tables, which would only add easy members.
