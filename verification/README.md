# Muplar: a verified model of its linker, runtime tables and file readers

Muplar loads Android and Linux AArch64 binaries and emulates the Android native runtime behind them.
This project models, in Dafny, the parts of it whose correctness is a matter of logic rather than of
the host, and proves what they are meant to guarantee:

* **the dynamic linker** (`Sleb128`, `Relocation`, `PackedRela`, `ObjectRelocation`, `GnuHash`,
  `GnuHashBuild`, `ObjectTable`, `ObjectReach`, `RelocatedImages`, `StaticTls`): the three relocation
  encodings mean the same thing, the hash index agrees with a linear search, exactly the reachable objects
  are loaded, the words of each are relocated exactly once, and the thread-local blocks are disjoint exactly
  when they fit;
* **the Android runtime's tables** (`BinderModel`, `BinderRefs`, `BinderOwnership`, `BinderLifetime`,
  `BinderDeath`, `BinderMeaning`, `BinderReports`, `BinderRuntime`, `ParcelCodec`, `LooperModel`,
  `LooperMeaning`, `LooperRuntime`, `BumpHeap`, `HeapRuntime`):
  exact reference counts and where they part from ownership, conservation of death links, a mutually
  inverse parcel codec, FIFO pipes with timely looper reports, and disjoint heap blocks;
* **the direct `.so` loader** (`DirectImage`, `DirectEscapes`, `DirectLoader`, `DirectMeaning`,
  `DirectWindows`, `DirectTermination`, `JniNames`): the dependency worklist leaves every needed name satisfied, when it ends,
  when no byte is written for two libraries, and which names share a JNI symbol;
* **the class-file normaliser** (`ClassFile`, `ClassWriter`): it parses what a compiler writes, turns exactly
  the method references to interfaces into interface method references, and is idempotent;
* **the zip reader** (`Zip`, `ZipArchive`): what a writer lays out is what the reader returns.

`Words` holds 64-bit wrap-around, the bitwise operators on naturals, alignment and little-endian bytes.

Where the source changes things step by step, the model is a method (of a class, where the source has
an object or global tables) proved equal to a specification function, and the theorems are lemmas about
that function: `BinderRuntime.Binder` against `BinderModel`, `LooperRuntime.Looper` against
`LooperModel`, `HeapRuntime.Heap` against `BumpHeap`, `ObjectTable.Linker` against `ObjectTable.Open`,
and so on. The `...Meaning` modules and the lemmas named `...Means` and `...Exactly` say what those functions are in plain
terms. These classes carry the invariants of the run theorems: constructors establish them and every
handler keeps them (those of the heap exactly when nothing overflows). Theorems about runs quantify over every sequence of operations.

Run `dafny verify dfyconfig.toml` in this directory to check the project.

## What the proofs brought to light

* RELR patching is not idempotent: repeating it changes memory unless the base is zero or no slot is
  mapped (`Relocation.RelrTwice`), so relocating once per object is a real obligation.
* `lookup_gnu_hash` gives up after 10000 chain steps, and `gnu_hash_sym_count` after 65536. The contracts
  state the results exactly, including beyond those limits. On a table without hashed symbols the count
  is right only if nothing readable follows the table (`GnuHashBuild.CountSymbols`).
* A TLS segment whose `tls_vaddr` is 0 is never copied: its block stays zero (`StaticTls.ImagesSurvive`).
* `AServiceManager_getService` of a name published to a living binder returns the handle without counting
  a reference, although its caller takes the result for one to be dropped. A lookup keeps what the guest
  owns covered by the counts if and only if it does not find a living local binder
  (`BinderOwnership.LookupExactly`); after one that does, dropping one of two owned references destroys the
  binder (`BinderOwnership.OwnedIsDestroyed`). Counts and ownership differ by exactly the number of such
  lookups (`BinderOwnership.CountsBalance`), and without them nothing owned is lost
  (`BinderOwnership.OwnersKeep`).
* A binder whose daemon loses a transaction is dead at once, but its death links are told neither then nor when
  it is killed later (`BinderReports.LinkIsReported`).
* Dropping a reference to a local binder that was not counted breaks the counts, except on a cycle of
  extensions that nothing else keeps alive, which goes away whole (`BinderRefs.DropExactly`).
* `malloc` of a size within 15 of 2^64 is accepted and reserves nothing (`BumpHeap.HugeRequestAccepted`);
  `BumpHeap.SoundExactly` says that overflow is the only way to get an unsound block.
* `AndroidRuntime` declares its own `heap_base_` and `heap_bump_`, which hide those that `GpuBridge` sets,
  and nothing else assigns a base. With base 0 the first granted block is at address 0, which its caller
  takes for a failure (`BumpHeap.FirstGrantIsNull`, `BumpHeap.AnswerTells`).
* The direct loader accepts libraries of which part is written outside their window, where another library
  may lie: a segment that ends at 2^64 exactly does not count towards the load range
  (`DirectEscapes.WrappedSegmentEscapes`), two small segments far apart make the window wrap and the next base
  fall below it (`DirectEscapes.DistantSegmentEscapes`), and a segment's file size is copied without comparing
  it with the memory size (`DirectEscapes.LongFileEscapes`). `DirectImage.InsideExactly` says when a segment
  is written inside its window, `DirectWindows.NeverBackExactly` when the next base never moves back over a
  run. Under a condition on the files alone that rules out all three, no byte is written for two libraries
  (`DirectWindows.OrdinaryDisjoint`).
* A needed name with a slash is not recognised as loaded unless it equals the library's soname
  (`DirectLoader.LoadSatisfiesExactly`). The worklist ends if each name is recognised or leads to a library
  that takes room (`DirectTermination.RunEnds`); without slashes it ends with every needed name loaded or built
  in, or with an error (`DirectTermination.SlashFreeLoads`). A library that needs its own name is loaded without end if
  and only if neither holds (`DirectTermination.SelfNeedExactly`), and there is such a library
  (`DirectTermination.Endless`).
* A registered descriptor is polled in time unless something ahead of it is re-armed
  (`LooperModel.ReportedInTime`); that exemption cannot be dropped (`LooperModel.Starved`).
  `AInputQueue_attachLooper` lacks the check of `ALooper_addFd`, so a report can look like a timeout
  (`LooperModel.MisreadTimeout`); otherwise the answers of a poll are distinct (`LooperModel.AnswerTells`).
* JNI mangling maps `a/1` and `a_` to the same symbol (`JniNames.UnsafeNamesCollide`). A name shares its
  symbol with a really different one if and only if it holds an escaped byte, or a separator followed by what
  an escaped byte is written as (`JniNames.CollidesExactly`). Among names in which no separator is followed by
  a digit from 0 to 3 the symbol decides the name (`JniNames.SymbolsDistinct`).
* An archive comment holding an end-record signature 22 or more bytes before its end misleads the zip
  reader (`ZipArchive.CommentForges`).

## Model

| member | source | states |
|---|---|---|
| `Sleb128.RoundTrip` | linker64/src/linker.c:684-701 | decoding the SLEB128 encoding of any 64-bit word, followed by anything, gives that word back and leaves exactly what followed |
| `Sleb128.NumbersOfEncoded` | linker64/src/linker.c:684-701 | a concatenation of encoded words decodes to the same list of words |
| `Sleb128.Decoder.PopFront` | linker64/src/linker.c:684-701 | the shift-and-or loop pops exactly the first number of the remaining stream, or fails exactly when no complete number is left, and always moves forward inside the buffer |
| `Relocation.ApplyRela` | linker64/src/linker.c:520-635 | the loop over a RELA table has the effect of applying its entries one by one in order, for every relocation kind the code knows |
| `Relocation.RelaAllMeaning` | linker64/src/linker.c:520-635 | for every kind of entry, each mapped word ends up as what the last entry that reaches it stores, and unchanged if none does |
| `Relocation.EntryMeans` | linker64/src/linker.c:520-635 | each AArch64 kind by its number, with the symbol and TLS cases and the arithmetic modulo 2^64 written out: what an entry does to any mapped word |
| `Relocation.ApplyRelr` | linker64/src/linker.c:637-667 | the RELR loop adds the base once for each slot the table denotes, address entries and bitmaps alike, and touches nothing else |
| `Relocation.PatchBitmap` | linker64/src/linker.c:653-662 | the inner loop over one bitmap patches exactly the slots whose bits are set |
| `Relocation.GuestApplyRelr` | platform/android-aarch64/elf/guest_runner.cpp:1189-1238 | the guest-side RELR loop changes memory exactly as the linker's does, and returns the number of slots it could read |
| `Relocation.GuestPatchBitmap` | platform/android-aarch64/elf/guest_runner.cpp:1218-1233 | one bitmap of the guest-side loop patches and counts exactly the mapped slots it denotes |
| `Relocation.GuestAddBase` | platform/android-aarch64/elf/guest_runner.cpp:1210-1215 | one slot is raised by the base and counted if it can be read, and skipped otherwise |
| `Relocation.AddBaseAllMeaning` | linker64/src/linker.c:637-667 | patching a list of distinct slots raises each mapped one by the base modulo 2^64 and leaves every other word alone |
| `Relocation.RelrTwice` | linker64/src/linker.c:650-659 | applying the same slots twice equals applying them once if and only if the base is zero or no slot is mapped |
| `Relocation.RelativeTableMeaning` | linker64/src/linker.c:520-530 | a table of R_AARCH64_RELATIVE entries carrying the addends reaches the same memory, whatever the slots held before |
| `PackedRela.PackedRoundTrip` | linker64/src/linker.c:703-760 | for every relocation list and every legal grouping of it, decoding the packed stream yields exactly that list in order modulo 2^64 |
| `PackedRela.UngroupedIsLegal` | linker64/src/linker.c:703-760 | every relocation list has a legal grouping, so every list can be packed |
| `PackedRela.GroupMeans` | linker64/src/linker.c:722-752 | for every flags value, with the four bits written out, a group's numbers decode to the relocations they stand for, and leave the running values of the last one |
| `PackedRela.PackedMeans` | linker64/src/linker.c:703-757 | a whole table, whatever the flags of its groups, decodes to what its numbers mean one after the other, from the start offset, info 0 and addend 0 |
| `PackedRela.DifferencesMean` | linker64/src/linker.c:737-752 | every list that suits some flags is what its differences mean under them |
| `PackedRela.SharedInfoMeans` | linker64/src/linker.c:722-752 | the numbers n, 9, info, then a step and an addend each, decode to the n relocations with that info |
| `PackedRela.PopHeader` | linker64/src/linker.c:718-737 | the group header is read as its flags demand: size, flags, shared offset delta, shared info, shared addend |
| `PackedRela.PopEntry` | linker64/src/linker.c:739-750 | one entry of a group is read as the group's flags demand and updates the running offset, info and addend |
| `PackedRela.ApplyEntries` | linker64/src/linker.c:739-756 | the inner loop decodes `group_size` entries and applies each as it is decoded |
| `PackedRela.ApplyGroup` | linker64/src/linker.c:717-758 | one group is decoded and applied, or the stream is found too short |
| `PackedRela.ApplyGroups` | linker64/src/linker.c:717-759 | the group loop ends on every byte stream and applies the decoded groups until the announced number of relocations is reached |
| `PackedRela.ApplyAndroidRela` | linker64/src/linker.c:703-760 | the loader accepts a stream exactly when it decodes, and then memory is that of applying the decoded list with `apply_rela` |
| `ObjectRelocation.RelrRoundTrip` | linker64/src/linker.c:637-667 | the RELR table built from any ascending 8-aligned offsets denotes exactly those slots in order |
| `ObjectRelocation.EncodingsAgree` | linker64/src/linker.c:520-760 | for every set of distinct 8-aligned slots with addends, the RELR table (addends in place), any legal APS2 stream and the plain RELATIVE table give the same memory, with every other word unchanged |
| `ObjectRelocation.RelocateObject` | linker64/src/linker.c:762-769 | relocating an object applies RELR, packed, RELA and PLT tables in that order, or fails exactly when the packed table is malformed |
| `ObjectRelocation.PackagingIsTransparent` | linker64/src/linker.c:762-769 | splitting an object's relocations over RELR, APS2, RELA and PLT tables has the effect of one plain table that lists them all |
| `GnuHash.ComputeHash` | linker64/src/linker.c:297-303 | the shift-and-add loop computes the hash h * 33 + c from 5381 with 32-bit wrap-around |
| `GnuHash.HashMeans` | linker64/src/linker.c:297-303 | the hash is 5381 times 33 to the length plus the characters weighted by powers of 33, modulo 2^32 |
| `GnuHash.FormatMeans` | linker64/src/linker.c:305-322 | the bucket is the hash modulo the buckets, the Bloom word that of the hash by 64, and the mask holds exactly the two bits of the hash and the shifted hash |
| `GnuHash.SameString` | linker64/src/linker.c:326-327 | the string comparison decides whether the table holds exactly that name at that offset |
| `GnuHash.WalkChain` | linker64/src/linker.c:320-336 | the chain loop stops at the first symbol of the bucket that bears the name, at the end of the chain, or at the step limit, never losing a symbol to a hash or low-bit comparison |
| `GnuHash.WalkIsSearch` | linker64/src/linker.c:320-336 | where the chain walk stops decides a linear search of the whole symbol list |
| `GnuHash.LookupGnuHash` | linker64/src/linker.c:305-337 | on every well-formed table the lookup returns the lowest hashed symbol bearing the name, or nothing exactly when there is none or it lies 10000 or more entries into its chain |
| `GnuHashBuild.BuiltIsWellFormed` | linker64/src/linker.c:305-337 | every list of names sorted by bucket has a well-formed table: Bloom words, bucket heads and chain words can be built for it |
| `GnuHashBuild.BloomWordHolds` | linker64/src/linker.c:317-319 | the Bloom word of a symbol contains both of its bits |
| `GnuHashBuild.MaxBucket` | platform/android-aarch64/elf/guest_runner.cpp:900-908 | the loop finds the largest bucket value, at least the symbol offset |
| `GnuHashBuild.WalkToEnd` | platform/android-aarch64/elf/guest_runner.cpp:914-927 | walking from the head of the last chain ends after its last symbol, or after 65536 steps |
| `GnuHashBuild.InLastChain` | platform/android-aarch64/elf/guest_runner.cpp:914-927 | from the largest bucket value on, the only chain word with its low bit set belongs to the last symbol |
| `GnuHashBuild.CountSymbols` | platform/android-aarch64/elf/guest_runner.cpp:882-929 | the count is the number of dynamic symbols if and only if the last chain fits the 65536-step walk (or, with no hashed symbol, nothing follows the table) |
| `ObjectTable.LoadCloses` | linker64/src/linker.c:804-860 | loading a library keeps sonames unique, adds it, and leaves all new objects closed under their recorded DT_NEEDED names, cycles included |
| `ObjectTable.LoadAllCloses` | linker64/src/linker.c:856-859 | the same for a list of needed names, all of which end up in the table |
| `ObjectTable.Linker.LoadNeeded` | linker64/src/linker.c:803-861 | the recursion loads as specified or reports too many objects; what it adds is, for every soname, the file of the first of the nine directories that has it with its first 256 needs, or an entry without needs; nothing is added if the name is there |
| `ObjectTable.Linker.LoadEach` | linker64/src/linker.c:856-859 | the loop over DT_NEEDED names loads them in order into the growing table |
| `ObjectTable.Linker.RelocateFrom` | linker64/src/linker.c:371-373 | the loop relocates exactly the objects from the given index on, in order |
| `ObjectTable.Linker.StartUp` | linker64/src/linker.c:966-1072 | start-up loads the executable and its closure and relocates every object, which establishes the invariant that later calls rely on |
| `ObjectTable.Linker.Dlopen` | linker64/src/linker.c:353-381 | search, load, relocate and search again: only what is found for sonames is added, nothing if an entry answers already, and the handle is the first entry whose soname or path is the name, or whose soname is its last part |
| `ObjectTable.StartIsValid` | linker64/src/linker.c:966-1072 | after start-up sonames are unique, the table is closed and every object has been relocated once |
| `ObjectTable.FoundExactly` | linker64/src/linker.c:825-851 | an entry is what the linker makes of its soname if and only if: for the three system names and names no directory has it is empty, otherwise it is the file in the first directory that has it, with its first 256 needs |
| `ObjectTable.RunFinds` | linker64/src/linker.c:803-861 | in every reachable state the first entry is the executable with its first 256 needs and every other one is what is found for its soname |
| `ObjectTable.LoadOrder` | linker64/src/linker.c:857-859 | lists of needs are loaded one after the other |
| `ObjectTable.LoadMeans` | linker64/src/linker.c:803-861 | one name: nothing if present, fatal if 1024 entries are there, else its entry comes next and then its needs in order |
| `ObjectTable.GetBasename` | linker64/src/linker.c:342-351 | the loop returns the part behind the last slash, or all of the path |
| `ObjectTable.OpenAdds` | linker64/src/linker.c:353-381 | a dlopen in plain terms: what it adds, when it adds nothing, and which entry it returns |
| `ObjectTable.OpenKeepsValid` | linker64/src/linker.c:353-381 | dlopen keeps that invariant and only appends to the table |
| `ObjectTable.RunIsValid` | linker64/src/linker.c:353-381 | after start-up and any sequence of dlopen calls, sonames are unique, the table is closed under DT_NEEDED, and the relocation log is 0, 1, ..., n-1: each object exactly once |
| `ObjectTable.OpenHandle` | linker64/src/linker.c:353-381 | the handle returned is the first object that answers to the file name |
| `ObjectTable.RunGrows` | linker64/src/linker.c:353-381 | later calls never remove or move an object |
| `ObjectTable.ReopenIsStable` | linker64/src/linker.c:353-381 | a repeated dlopen, after any calls in between, returns the same handle and changes nothing |
| `ObjectTable.OpenMeans` | linker64/src/linker.c:353-381 | a successful dlopen returns a valid index of an object that answers to the file name, in a table that keeps the invariant |
| `ObjectReach.StartLoadsReachable` | linker64/src/linker.c:966-970 | the sonames loaded at start-up are exactly those reachable from the executable through recorded DT_NEEDED, and start-up fails if and only if they do not fit MAX_OBJECTS |
| `ObjectReach.NeedsMeans` | linker64/src/linker.c:857-859 | a name the table lacks needs what the file found for it records |
| `ObjectReach.LoadAddsReachable` | linker64/src/linker.c:804-860 | dlopen of a new name leaves exactly what is reachable from the old table and that name, and fails if and only if that does not fit |
| `RelocatedImages.RelocateLocal` | linker64/src/linker.c:762-769 | relocating an object whose relocations stay in its image is relocating that image alone, and leaves every other word |
| `RelocatedImages.LogOnce` | linker64/src/linker.c:371-373 | after a log of relocate_object calls on distinct, disjoint objects, each one in the log is its image relocated once and each other one is untouched |
| `RelocatedImages.RunRelocatesOnce` | linker64/src/linker.c:353-381 | after start-up and any dlopen calls, the words of every object are its initial image relocated exactly once, and relocation succeeds exactly when every packed table decodes |
| `StaticTls.AssignOffsets` | linker64/src/linker.c:989-998 | the loop assigns the offsets of the specified layout, starting after the 256-byte TCB |
| `StaticTls.LayoutExactly` | linker64/src/linker.c:989-998 | TLS blocks are 16-aligned, at or above the start, inside the block, pairwise disjoint and in object order if and only if the total fits the block |
| `StaticTls.CopyImage` | linker64/src/linker.c:1004-1009 | the byte loop copies one image and changes no other byte |
| `StaticTls.StoreSlots` | linker64/src/linker.c:1012-1015 | the two TCB slots hold their words little-endian and nothing else changes |
| `StaticTls.InitBlock` | linker64/src/linker.c:1000-1015 | after clearing, the copy loop and the slot stores, every byte of the block has its specified content, as long as no copy leaves the block |
| `StaticTls.ImagesSurvive` | linker64/src/linker.c:1000-1010 | after the whole copy loop each block holds its own image (if `tls_vaddr` is not zero) followed by zeros: no later copy overwrites it |
| `ParcelCodec.Encode` | platform/android-aarch64/android/android_runtime.cpp:3549-3582 | the encoder appends magic, code, flags, count and values of the parcel, or no values without a parcel |
| `ParcelCodec.AppendValue` | platform/android-aarch64/android/android_runtime.cpp:3560-3580 | one value is appended as its kind, its integer, and its arrays with their lengths |
| `ParcelCodec.Reader.ReadValue` | platform/android-aarch64/android/android_runtime.cpp:3602-3634 | one value is read and the offset advanced past it, or the input is rejected, as specified |
| `ParcelCodec.Decode` | platform/android-aarch64/android/android_runtime.cpp:3583-3637 | the decoder accepts and returns exactly what the specified decoding does |
| `ParcelCodec.DecodeValues` | platform/android-aarch64/android/android_runtime.cpp:3600-3636 | the loop reads the announced number of values in order |
| `ParcelCodec.DecodeExact` | platform/android-aarch64/android/android_runtime.cpp:3549-3637 | a byte string decodes to a list if and only if the list is within the limits and the bytes are its encoding under some code and flags |
| `ParcelCodec.DecodeSound` | platform/android-aarch64/android/android_runtime.cpp:3583-3637 | whatever is accepted is the encoding of what is returned, and within all limits |
| `ParcelCodec.DecodeComplete` | platform/android-aarch64/android/android_runtime.cpp:3549-3637 | every list within the limits survives encoding and decoding, for every code and flags |
| `BinderModel.ReleaseFrame` | platform/android-aarch64/android/android_runtime.cpp:889-935 | releasing ends for every extension graph and leaves handles, weak references and recipients alone |
| `BinderRefs.ReleaseExact` | platform/android-aarch64/android/android_runtime.cpp:889-935 | paying one owed reference restores exact counts through the whole chain of extensions and destroys nothing the guest holds |
| `BinderRefs.StepValid` | platform/android-aarch64/android/android_runtime.cpp:3480-3490 | every handler keeps the counts exact when the guest drops only what was counted for it |
| `BinderRefs.CountsExact` | platform/android-aarch64/android/android_runtime.cpp:889-935 | over every run in which the guest drops local binders only as often as they were counted for it, each local binder's count is those references plus the services whose extension it is, no binder with a counted reference is destroyed and no extension dangles |
| `BinderRefs.DropExactly` | platform/android-aarch64/android/android_runtime.cpp:3486-3490 | dropping a reference keeps the counts exact if and only if the binder is absent or remote, a reference was counted for the guest, or following extensions from the binder through local binders of count 1 leads back to it |
| `BinderRefs.ReleaseBroken` | platform/android-aarch64/android/android_runtime.cpp:889-935 | once a binder is erased under a service that names it, the cascade ends in a consistent table if and only if it reaches that service |
| `BinderOwnership.CountsBalance` | platform/android-aarch64/android/android_runtime.cpp:3366-3411 | over every run in which the guest drops only references it owns, for each local binder the count plus the registry hits is the owned references plus the extension edges |
| `BinderOwnership.LookupExactly` | platform/android-aarch64/android/android_runtime.cpp:3366-3411 | a service lookup keeps owned references covered by the counts if and only if the name is not published to a living local binder |
| `BinderOwnership.OwnedIsDestroyed` | platform/android-aarch64/android/android_runtime.cpp:3366-3411 | create, publish, look up, drop once: the binder is destroyed while the guest still owns a reference to it |
| `BinderOwnership.OwnersKeep` | platform/android-aarch64/android/android_runtime.cpp:889-935 | over every run in which the guest drops only references it owns and no lookup finds a living local binder, every owned binder exists, counts are exact and no extension dangles |
| `BinderLifetime.StepValid` | platform/android-aarch64/android/android_runtime.cpp:3366-3461 | every handler keeps the name registry, handle, weak-reference and destruction tables consistent |
| `BinderLifetime.TablesAlwaysValid` | platform/android-aarch64/android/android_runtime.cpp:921-931 | in every reachable state no name is both published and removed, published names refer to existing entries, and handles are below the counter, so never reused |
| `BinderLifetime.TraceIsGood` | platform/android-aarch64/android/android_runtime.cpp:3302-3347 | along every run, entries keep their identity and destroyed handles never come back |
| `BinderLifetime.WeakPromotesOnlyItsObject` | platform/android-aarch64/android/android_runtime.cpp:3950-3985 | a weak reference, or any clone of it, promotes only to the object it was made from, only while that is alive, and that object has existed all along |
| `BinderLifetime.RemoteStays` | platform/android-aarch64/android/android_runtime.cpp:895-900 | remote binders are never erased, however often they are released |
| `BinderDeath.StepValid` | platform/android-aarch64/android/android_runtime.cpp:3638-3669 | every handler keeps the death-link accounts and the shape of every link table |
| `BinderDeath.LinksConserved` | platform/android-aarch64/android/android_runtime.cpp:3747-3823 | over every run, linkToDeath attempts with valid binder and recipient are, as a multiset, the links ended plus the links still held; held links name registered recipients, (recipient, cookie) is unique per binder, and local binders hold none |
| `BinderReports.StepHolds` | platform/android-aarch64/android/android_runtime.cpp:3638-3826 | no call but an unlink, the recipient's deletion and the binder's death takes a link from a remote binder, and only a lost daemon transaction ends its life |
| `BinderReports.LinkIsReported` | platform/android-aarch64/android/android_runtime.cpp:3348-3364 | after a successful linkToDeath and any calls that do not withdraw the link, the binder's death is reported to it exactly once, if and only if no transaction to its daemon was lost in between |
| `BinderMeaning.ReleaseMeans` | platform/android-aarch64/android/android_runtime.cpp:889-935 | what dropping a reference changes: a count, or for the last one of a local binder its entry, its names, its links, and then a reference of its extension |
| `BinderMeaning.DecMeans` | platform/android-aarch64/android/android_runtime.cpp:3486-3490 | decStrong takes one reference from the guest and releases one |
| `BinderMeaning.NewMeans` | platform/android-aarch64/android/android_runtime.cpp:3909-3930 | the new binder's every field, its handle, and that nothing else changes |
| `BinderMeaning.IncMeans` | platform/android-aarch64/android/android_runtime.cpp:3480-3485 | exactly the binder's count rises, by one modulo 2^32 |
| `BinderMeaning.SetExtensionMeans` | platform/android-aarch64/android/android_runtime.cpp:3998-4021 | the condition of each status; on success the new extension gains a reference and the old one loses one |
| `BinderMeaning.GetExtensionMeans` | platform/android-aarch64/android/android_runtime.cpp:4022-4045 | the condition of each status; a living extension is handed out with one more reference |
| `BinderMeaning.GetServiceMeans` | platform/android-aarch64/android/android_runtime.cpp:3366-3400 | a name that leads to a living service gives it unchanged; any other is forgotten, and unless it was removed leads to a new remote binder |
| `BinderMeaning.AddServiceMeans` | platform/android-aarch64/android/android_runtime.cpp:3438-3461 | the condition of each status; on success exactly the name, its removal mark and the binder's own name change |
| `BinderMeaning.WeakMeans` | platform/android-aarch64/android/android_runtime.cpp:3950-3985 | new and cloned weak references have fresh handles and the right target, and a deleted one is gone |
| `BinderMeaning.PromoteMeans` | platform/android-aarch64/android/android_runtime.cpp:3966-3976 | a living target is returned with one more reference, otherwise null and no change |
| `BinderMeaning.RecipientMeans` | platform/android-aarch64/android/android_runtime.cpp:3730-3746 | new recipients and changed callbacks, and that no other recipient changes |
| `BinderMeaning.DeathDeleteMeans` | platform/android-aarch64/android/android_runtime.cpp:3747-3758 | the recipient goes, and from every binder exactly its links |
| `BinderMeaning.LinkMeans` | platform/android-aarch64/android/android_runtime.cpp:3759-3797 | the condition of each status of linkToDeath and what each changes |
| `BinderMeaning.UnlinkMeans` | platform/android-aarch64/android/android_runtime.cpp:3798-3814 | the condition of each status; on success exactly the first matching link goes and is ended |
| `BinderMeaning.RetireMeans` | platform/android-aarch64/android/android_runtime.cpp:3348-3364 | the condition of each status; a death clears the flag, the names and the links, each of which is told and ended |
| `BinderMeaning.DaemonLostMeans` | platform/android-aarch64/android/android_runtime.cpp:4165-4180 | only the flag of a living, remote, daemon-owned binder is cleared, and nobody is told |
| `BinderMeaning.ClassMeans` | platform/android-aarch64/android/android_runtime.cpp:3825-3841 | a defined class has a fresh handle and its fields; associating one changes only the class of the binder |
| `BinderRuntime.Binder.constructor` | platform/android-aarch64/android/android_runtime.cpp:3302-3347 | the tables start empty with the given counters, in a state that satisfies the invariant |
| `BinderRuntime.Binder.ReleaseStrong` | platform/android-aarch64/android/android_runtime.cpp:889-935 | the recursive handler is the specified release, and terminates because each recursion follows an erasure |
| `BinderRuntime.Binder.DestroyService` | platform/android-aarch64/android/android_runtime.cpp:907-931 | destroying a service issues its callbacks, unpublishes its names and erases it |
| `BinderRuntime.Binder.RemoveNames` | platform/android-aarch64/android/android_runtime.cpp:921-930 | the loop removes exactly the names of the handle and marks exactly those as removed |
| `BinderRuntime.Binder.NotifyUnlinked` | platform/android-aarch64/android/android_runtime.cpp:916-919 | the loop passes every link to the unlinked notifier once |
| `BinderRuntime.Binder.NotifyEnded` | platform/android-aarch64/android/android_runtime.cpp:3327-3330 | one link is ended, and its callback is issued exactly if it has one |
| `BinderRuntime.CallbacksConserved` | platform/android-aarch64/android/android_runtime.cpp:3327-3330 | between any two calls, every link with an unlinked callback has been called back once for every attempt not still held, and every link without one never |
| `BinderRuntime.Binder.AIBinderNew` | platform/android-aarch64/android/android_runtime.cpp:3909-3930 | keeps the invariant; a known class gives a living local binder under a handle that neither exists nor was ever destroyed, counted once for the guest, and no other entry appears |
| `BinderRuntime.Binder.IncStrong` | platform/android-aarch64/android/android_runtime.cpp:3480-3485 | keeps the invariant; while the count does not overflow, a decStrong right after restores the whole state |
| `BinderRuntime.Binder.DecStrong` | platform/android-aarch64/android/android_runtime.cpp:3486-3490 | keeps the invariant; exactly the services reported as destroyed by the cascade are gone |
| `BinderRuntime.Binder.SetExtension` | platform/android-aarch64/android/android_runtime.cpp:3998-4021 | keeps the invariant; on success the binder, if still there, has that extension, and exactly the services reported as destroyed are gone; otherwise nothing changed |
| `BinderRuntime.Binder.GetExtension` | platform/android-aarch64/android/android_runtime.cpp:4022-4045 | keeps the invariant; a non-null result is the living extension of a living entry, a null one changed nothing, and with an OK status means there is none |
| `BinderRuntime.Binder.ServiceHandle` | platform/android-aarch64/android/android_runtime.cpp:3366-3400 | keeps the invariant; a non-null result is alive and published under the name, new ones are remote and were never destroyed, and null is returned exactly for an empty name or one that was removed and is not published |
| `BinderRuntime.Binder.AddService` | platform/android-aarch64/android/android_runtime.cpp:3438-3461 | keeps the invariant; on success the name leads to the local binder and is no longer marked removed, on a conflict another living service has it, and any failure changes nothing |
| `BinderRuntime.AddServiceElsewhere` | platform/android-aarch64/android/android_runtime.cpp:3438-3461 | publishing a name changes the lookup of no other name |
| `BinderRuntime.Binder.WeakNew` | platform/android-aarch64/android/android_runtime.cpp:3950-3960 | keeps the invariant; a fresh weak handle is given exactly for an existing binder, and promotes to it while it is alive |
| `BinderRuntime.Binder.WeakDelete` | platform/android-aarch64/android/android_runtime.cpp:3961-3965 | keeps the invariant; the reference no longer promotes, and every other one promotes as before |
| `BinderRuntime.Binder.WeakPromote` | platform/android-aarch64/android/android_runtime.cpp:3966-3976 | keeps the invariant; a non-null result is the living target, which was never destroyed; null is returned exactly when the reference or its living target is missing, and then nothing changed |
| `BinderRuntime.Binder.WeakClone` | platform/android-aarch64/android/android_runtime.cpp:3977-3985 | keeps the invariant; a fresh handle is given exactly for an existing reference, and promotes as that one does |
| `BinderRuntime.Binder.DeathRecipientNew` | platform/android-aarch64/android/android_runtime.cpp:3730-3739 | keeps the invariant; a handle is given exactly for a callback, is fresh, and no link names it yet |
| `BinderRuntime.Binder.SetOnUnlinked` | platform/android-aarch64/android/android_runtime.cpp:3740-3746 | keeps the invariant; links made from now on carry the callback, links already made and other recipients keep theirs |
| `BinderRuntime.Binder.DeathRecipientDelete` | platform/android-aarch64/android/android_runtime.cpp:3747-3758 | keeps the invariant; all links to the recipient are removed and notified, after which neither it nor a link to it exists |
| `BinderRuntime.Binder.RemoveRecipientLinks` | platform/android-aarch64/android/android_runtime.cpp:3655-3669 | the loops over services and links remove exactly the links to the recipient, each notified once |
| `BinderRuntime.Binder.LinkToDeath` | platform/android-aarch64/android/android_runtime.cpp:3759-3797 | bad value exactly without binder or recipient, dead or local binders refused, a second link with the recipient and cookie refused, and otherwise success; then exactly this link is appended with the recipient's callbacks, and a refused valid attempt ends it at once |
| `BinderRuntime.Binder.UnlinkToDeath` | platform/android-aarch64/android/android_runtime.cpp:3798-3814 | the first matching link is removed and notified, or the name is not found |
| `BinderRuntime.Binder.RetireService` | platform/android-aarch64/android/android_runtime.cpp:3348-3364 | keeps the invariant; a living service is marked dead, unpublished, every link is told of the death and ended, and no weak reference to it promotes any more |
| `BinderRuntime.Binder.DaemonTransactFailed` | platform/android-aarch64/android/android_runtime.cpp:4165-4180 | keeps the invariant; the daemon-owned service is dead afterwards, and no other service is touched |
| `LooperModel.AlwaysValid` | platform/android-aarch64/android/android_runtime.cpp:2163-2646 | in every reachable state pipe descriptors are distinct, registrations have distinct descriptors, and bytes written are bytes read followed by the buffer; the input queue attached and detached included |
| `LooperModel.WriteArms` | platform/android-aarch64/android/android_runtime.cpp:2235-2265 | a successful write leaves the read end ready, and armed at its place if it is registered |
| `LooperModel.DeliveredMeansReported` | platform/android-aarch64/android/android_runtime.cpp:2389-2437 | an armed registration that an operation leaves registered stays armed unless the operation reports or queues it |
| `LooperModel.PollWorksOff` | platform/android-aarch64/android/android_runtime.cpp:2389-2437 | a poll that does not report an armed, ready descriptor uses up one registration ahead of it |
| `LooperModel.Waiting` | platform/android-aarch64/android/android_runtime.cpp:2389-2437 | over every stretch in which the descriptor stays registered, is ready at every poll and nothing ahead of it is re-armed, polls made plus undelivered registrations ahead never exceed those ahead at first; registrations may be added, removed and replaced, and those behind re-armed |
| `LooperModel.ReportedInTime` | platform/android-aarch64/android/android_runtime.cpp:2389-2486 | over every such stretch an armed descriptor is reported once there have been more polls than undelivered registrations ahead of it, which are fewer than the registrations |
| `LooperModel.WrittenIsReported` | platform/android-aarch64/android/android_runtime.cpp:2235-2486 | the same from the write on: bytes written to a pipe with a registered read end are reported within one poll more than there are registrations before it, hence within as many as there are registrations |
| `LooperModel.ReportedExactly` | platform/android-aarch64/android/android_runtime.cpp:2389-2437 | if nothing but polls happens, a due descriptor is reported by exactly one poll, the one after as many as there are due registrations ahead of it |
| `LooperModel.Starved` | platform/android-aarch64/android/android_runtime.cpp:2389-2486 | re-arming a ready registration ahead before each poll keeps an armed descriptor unreported for any number of polls |
| `LooperModel.AnswerTells` | platform/android-aarch64/android/android_runtime.cpp:2389-2437 | over every run in which the input queue is not so attached under a negative ident, the register value of a poll tells timeout, queued callback and ident apart |
| `LooperModel.MisreadTimeout` | platform/android-aarch64/android/android_runtime.cpp:2389-2437 | attaching the input queue without a callback under ident -3 makes a poll report it with the code for a timeout, after which it is not reported again |
| `LooperMeaning.AddedIsAnswered` | platform/android-aarch64/android/android_runtime.cpp:2235-2468 | a pipe's read end added without a callback and then written to is answered with its ident by exactly one poll, the one after as many as there are due registrations ahead |
| `LooperMeaning.ReadyExactly` | platform/android-aarch64/android/android_runtime.cpp:814-823 | a descriptor that is no pipe is ready, a read end with bytes or without a writer, a write end while open |
| `LooperMeaning.ReadMeans` | platform/android-aarch64/android/android_runtime.cpp:2187-2234 | every outcome of a read with its condition, and exactly what it changes |
| `LooperMeaning.WriteMeans` | platform/android-aarch64/android/android_runtime.cpp:2235-2265 | every outcome of a write with its condition, and exactly what it changes |
| `LooperMeaning.CloseMeans` | platform/android-aarch64/android/android_runtime.cpp:2266-2280 | which end is shut, and when the read end is re-armed |
| `LooperMeaning.AddMeans` | platform/android-aarch64/android/android_runtime.cpp:2441-2468 | when adding succeeds and where the registration then stands |
| `LooperMeaning.WithoutMeans` | platform/android-aarch64/android/android_runtime.cpp:2469-2480 | removal keeps exactly the registrations of other descriptors, in order |
| `LooperMeaning.QueueMeans` | platform/android-aarch64/android/android_runtime.cpp:2598-2646 | attaching, detaching and arriving events: what happens to the flag and the registrations |
| `LooperMeaning.PollMeans` | platform/android-aarch64/android/android_runtime.cpp:2389-2437 | a poll marks and reports the first reportable registration, queues its callback if it has one, and times out exactly without one |
| `LooperMeaning.QueueReadyMeans` | platform/android-aarch64/android/android_runtime.cpp:858-886 | exactly the reportable registrations with a callback are marked and queued, in order |
| `LooperRuntime.Looper.CreatePipe` | platform/android-aarch64/android/android_runtime.cpp:2163-2177 | keeps the invariant; both ends are descriptors that no pipe had and that lead to the new pipe, of which only the write end is ready, and no other pipe changes |
| `LooperRuntime.NewPipe` | platform/android-aarch64/android/android_runtime.cpp:2163-2177 | in every valid state the next two descriptors are unused, and a pipe made of them is found under both |
| `LooperRuntime.Looper.Read` | platform/android-aarch64/android/android_runtime.cpp:2187-2234 | the bytes read are the front of the buffer, which loses exactly those, with every error outcome |
| `LooperRuntime.Looper.Write` | platform/android-aarch64/android/android_runtime.cpp:2235-2265 | the bytes are appended to the buffer and the read end is re-armed, with every error outcome |
| `LooperRuntime.Looper.Close` | platform/android-aarch64/android/android_runtime.cpp:2266-2280 | one end is closed and the other re-armed as specified |
| `LooperRuntime.Looper.RearmFd` | platform/android-aarch64/android/android_runtime.cpp:788-794 | the loop clears the delivered mark of exactly that descriptor |
| `LooperRuntime.Looper.FindPipe` | platform/android-aarch64/android/android_runtime.cpp:796-803 | the loop finds the first pipe with that descriptor at either end |
| `LooperRuntime.Looper.FdReady` | platform/android-aarch64/android/android_runtime.cpp:814-823 | readiness of a read end, a write end and a descriptor that is no pipe |
| `LooperRuntime.Looper.AddFd` | platform/android-aarch64/android/android_runtime.cpp:2441-2468 | success exactly for a descriptor that is not negative with a callback or such an ident; the registration then stands at the old place of the descriptor or at the end, and no other moved; a refusal changes nothing |
| `LooperRuntime.Looper.RemoveFd` | platform/android-aarch64/android/android_runtime.cpp:2469-2480 | exactly the registrations of that descriptor go, and the result tells whether there were any |
| `LooperRuntime.Looper.AttachLooper` | platform/android-aarch64/android/android_runtime.cpp:2598-2630 | the input queue is attached and its registration stands at its old place or at the end, whatever ident and callback; no other moved |
| `LooperRuntime.Looper.DetachLooper` | platform/android-aarch64/android/android_runtime.cpp:2632-2646 | the input queue is detached and its registrations go |
| `LooperRuntime.Looper.CollectInput` | platform/android-aarch64/android/android_runtime.cpp:826-856 | new input events re-arm the input queue exactly while it is attached |
| `LooperRuntime.Looper.Wake` | platform/android-aarch64/android/android_runtime.cpp:2481-2486 | every registration is re-armed |
| `LooperRuntime.Looper.Poll` | platform/android-aarch64/android/android_runtime.cpp:2389-2437 | the first due registration is marked and returned, its callback queued if it has one; the register value as specified |
| `LooperRuntime.Looper.QueueReady` | platform/android-aarch64/android/android_runtime.cpp:858-886 | the loop queues and marks exactly the due callback registrations, in order |
| `BumpHeap.SoundExactly` | platform/android-aarch64/android/android_runtime.cpp:1010-1048 | an accepted request keeps the heap sound - block in the heap, large enough, disjoint from all others - if and only if its 64-bit arithmetic does not overflow |
| `BumpHeap.RunValid` | platform/android-aarch64/android/android_runtime.cpp:1010-1048 | soundness over every interleaving of allocator calls and guest stores without overflow |
| `BumpHeap.BlocksDisjoint` | platform/android-aarch64/android/android_runtime.cpp:1010-1323 | over every such run, blocks are pairwise disjoint, inside the heap and as large as was asked |
| `BumpHeap.EarlierBlocksKept` | platform/android-aarch64/android/android_runtime.cpp:1010-1323 | a call leaves every byte of every earlier block as it was, unless the caller aimed its own out-pointer or store at that byte |
| `BumpHeap.ReallocContents` | platform/android-aarch64/android/android_runtime.cpp:1034-1048 | the new block holds the bytes from the old pointer to the old end of the heap as far as they fit, then zeros |
| `BumpHeap.ReallocKeeps` | platform/android-aarch64/android/android_runtime.cpp:1034-1048 | realloc of any block handed out keeps its first min(old, new) bytes in a new block of sufficient size |
| `BumpHeap.FreshContents` | platform/android-aarch64/android/android_runtime.cpp:1010-1261 | malloc, calloc, mmap and pixel blocks are all zeros, strdup is a terminated copy, and so is vasprintf where its out-pointer does not point into it |
| `BumpHeap.AlignedAsAsked` | platform/android-aarch64/android/android_runtime.cpp:3670-3679 | a pointer rounded to a power of two is a multiple of it and skips less than that |
| `BumpHeap.MmapAligned` | platform/android-aarch64/android/android_runtime.cpp:1818-1830 | mmap results are page aligned |
| `BumpHeap.MemalignAligned` | platform/android-aarch64/android/android_runtime.cpp:1308-1323 | posix_memalign results are aligned to every power of two that is asked for, also below 16 |
| `BumpHeap.BlockExactly` | platform/android-aarch64/android/android_runtime.cpp:1010-1323 | without overflow a block starts at the next multiple of its alignment and is as long as asked, rounded up to the next multiple of its grain |
| `BumpHeap.AcceptsExactly` | platform/android-aarch64/android/android_runtime.cpp:1010-1323 | in a sound heap a request that does not overflow is granted if and only if its arguments are in order and the block ends within the heap |
| `BumpHeap.OutPointers` | platform/android-aarch64/android/android_runtime.cpp:1308-1323 | the out-pointers of posix_memalign and vasprintf hold the block's address, that of pthread_create the handle, little-endian |
| `BumpHeap.ClearedBlocks` | platform/android-aarch64/android/android_runtime.cpp:1308-1323 | posix_memalign blocks and thread stacks are zeros |
| `BumpHeap.StepMeans` | platform/android-aarch64/android/android_runtime.cpp:1010-1323 | a refused request changes nothing but the handle pthread_create uses up; a granted one moves the bump pointer to the end of its block |
| `BumpHeap.HugeRequestAccepted` | platform/android-aarch64/android/android_runtime.cpp:1010-1020 | in every sound state, malloc of 2^64 - 1 bytes is granted with nothing reserved |
| `BumpHeap.AnswerTells` | platform/android-aarch64/android/android_runtime.cpp:1010-1048 | a granted request is answered with 0, the failure code, if and only if the bump pointer is 0 |
| `BumpHeap.FirstGrantIsNull` | platform/android-aarch64/android/android_runtime.h:134-135 | with the base left at its initial 0, the first granted malloc, whatever its size, is answered with 0 |
| `HeapRuntime.Heap.constructor` | platform/android-aarch64/android/android_runtime.h:134-149 | an empty heap at the given base |
| `HeapRuntime.Heap.Malloc` | platform/android-aarch64/android/android_runtime.cpp:1010-1020 | the handler is the specified step (bump, zeroed block, register value), and keeps the heap sound if and only if it refuses or its arithmetic does not overflow |
| `HeapRuntime.Heap.Calloc` | platform/android-aarch64/android/android_runtime.cpp:1022-1032 | the same for a wrapped product of count and size |
| `HeapRuntime.Heap.Realloc` | platform/android-aarch64/android/android_runtime.cpp:1034-1048 | the same with the copied prefix as contents |
| `HeapRuntime.Heap.CopyOf` | platform/android-aarch64/android/android_runtime.cpp:1041-1045 | the buffer before it is written: bytes from the old pointer on, bounded by the wrapped distance, then zeros |
| `HeapRuntime.Heap.Strdup` | platform/android-aarch64/android/android_runtime.cpp:1175-1185 | the handler is the specified step for a terminated copy |
| `HeapRuntime.Heap.Vasprintf` | platform/android-aarch64/android/android_runtime.cpp:1248-1261 | the specified step for a terminated copy of the format, its address stored through the out-pointer after it, the length or minus one |
| `HeapRuntime.Heap.PosixMemalign` | platform/android-aarch64/android/android_runtime.cpp:1308-1323 | the specified step, the pointer stored through the out-pointer after the block is cleared, and the error codes |
| `HeapRuntime.Heap.MapAnonymous` | platform/android-aarch64/android/android_runtime.cpp:1818-1830 | the specified step with both bound checks, or minus one |
| `HeapRuntime.Heap.PthreadCreate` | platform/android-aarch64/android/android_runtime.cpp:2001-2023 | a zeroed stack and a handle that is used up even on failure; on success the thread table gains that stack and the thread is queued with its top |
| `HeapRuntime.Heap.AllocPixels` | platform/android-aarch64/android/android_runtime.cpp:3093-3102 | one zeroed pixel at a 16-byte boundary |
| `HeapRuntime.Heap.AllocGuest` | platform/android-aarch64/android/android_runtime.cpp:3670-3679 | the specified step; the memory is not written |
| `DirectLoader.AlreadyLoaded` | platform/android-aarch64/elf/guest_runner.cpp:782-790 | the loop decides whether some object has that soname or file name |
| `DirectLoader.FindDependency` | platform/android-aarch64/elf/guest_runner.cpp:792-804 | the loop returns the first search directory's file of that name, skipping empty directories |
| `DirectLoader.FirstFreeBase` | platform/android-aarch64/elf/guest_runner.cpp:1009-1013 | the loop computes the maximum of the fixed base and the aligned ends of the initial objects |
| `DirectImage.LoadRange` | platform/android-aarch64/elf/guest_runner.cpp:656-669 | the loop finds the lowest page start and the highest page end, and reports no range exactly without segments |
| `DirectLoader.MapObject` | platform/android-aarch64/elf/guest_runner.cpp:806-845 | the object is placed with its lowest page where asked if its window ends inside the guest and its segments can be written there and read, and refused otherwise |
| `DirectLoader.WriteSegments` | platform/android-aarch64/elf/guest_runner.cpp:833-845 | the loop decides whether what is written for every segment, its memory size cleared and its file size copied, ends inside the guest |
| `DirectLoader.LoadOne` | platform/android-aarch64/elf/guest_runner.cpp:1020-1043 | a missing name is skipped if built in and not on disk, loaded at the next boundary, or reported with a reason |
| `DirectLoader.LoadNeeded` | platform/android-aarch64/elf/guest_runner.cpp:1016-1051 | the inner loop is the run's visits to one object: it satisfies every needed name of it, or stops with a stuck one |
| `DirectLoader.LoadDependencies` | platform/android-aarch64/elf/guest_runner.cpp:1003-1054 | for every run that ends, the loops reach its outcome: only needed, missing libraries are added, each at the next boundary; on success every needed name is loaded, built in, or answered by a loaded library, on failure a concrete needed name is stuck |
| `DirectLoader.RunGrows` | platform/android-aarch64/elf/guest_runner.cpp:1003-1054 | after any number of visits, of ending runs and others, every added object is the library of a name that was needed and missing before it, at the next boundary of its time |
| `DirectLoader.RunCloses` | platform/android-aarch64/elf/guest_runner.cpp:1003-1054 | after any number of visits every name visited is satisfied; a run that completes leaves every needed name loaded, built in, or answered by a loaded library, and one that fails is stuck with a needed one |
| `DirectMeaning.VisitMeans` | platform/android-aarch64/elf/guest_runner.cpp:1017-1050 | one needed name in plain terms: skipped if an object bears it; else the first file on the search path is mapped at the next boundary, built in or not, or the loader gives up; only a name found nowhere is skipped for being built in |
| `DirectMeaning.FindMeans` | platform/android-aarch64/elf/guest_runner.cpp:792-804 | the search finds the file of the first non-empty directory that has one, or nothing if none has |
| `DirectMeaning.PresentExactly` | platform/android-aarch64/elf/guest_runner.cpp:782-790 | a name is present if and only if it is the soname or the last part of the path of some object |
| `DirectMeaning.FileNameExactly` | platform/android-aarch64/elf/guest_runner.cpp:782-790 | the file name is the part behind the last slash, or all of the path |
| `DirectMeaning.NonEmptyMeans` | platform/android-aarch64/elf/guest_runner.cpp:750-764 | exactly the non-empty needed names are looked at, in order |
| `DirectMeaning.LoadMinMeans` | platform/android-aarch64/elf/guest_runner.cpp:656-665 | the load range starts on the page of some segment and not above that of any |
| `DirectMeaning.LoadMaxMeans` | platform/android-aarch64/elf/guest_runner.cpp:656-665 | it ends with the pages of some segment and not below those of any |
| `DirectMeaning.PagesMean` | platform/android-aarch64/elf/guest_runner.cpp:656-665 | the page of an address and the page end above it, and 0 where that wraps |
| `DirectMeaning.FirstFreeMeans` | platform/android-aarch64/elf/guest_runner.cpp:1009-1013 | the first free base is 0x180000000 or the aligned end of some object, and not below any |
| `DirectTermination.RunEnds` | platform/android-aarch64/elf/guest_runner.cpp:1003-1054 | the worklist ends if every name that can come up is recognised once its library is loaded, or is not on the search path, or leads to a library that takes room and does not wrap below the ceiling |
| `DirectTermination.SlashFreeLoads` | platform/android-aarch64/elf/guest_runner.cpp:1003-1054 | if no name that can come up holds a slash, the worklist ends, either with every needed name loaded or built in, or stuck with one that is neither |
| `DirectTermination.SelfNeedExactly` | platform/android-aarch64/elf/guest_runner.cpp:1003-1054 | for a library that needs its own name and nothing else, in a window that does not wrap, the worklist ends if and only if the name is recognised or the library takes room; otherwise every number of loads is reached |
| `DirectLoader.RecognisedIsLoaded` | platform/android-aarch64/elf/guest_runner.cpp:782-790 | for a name without a slash, or equal to its library's soname, being satisfied means being recognised as loaded or built in |
| `DirectTermination.Endless` | platform/android-aarch64/elf/guest_runner.cpp:1003-1054 | for a library whose load range is empty, needed by an initial object and by itself under a name with a slash, the worklist never ends and loads it any number of times |
| `DirectLoader.LoadSatisfiesExactly` | platform/android-aarch64/elf/guest_runner.cpp:782-790 | loading a library for a name makes the name count as loaded if and only if it has no slash or is the library's soname |
| `DirectImage.WindowExactly` | platform/android-aarch64/elf/guest_runner.cpp:814-817 | for every load range, inverted ones included, `next_base` clears the window if and only if the rounded end does not wrap |
| `DirectImage.NextBaseExactly` | platform/android-aarch64/elf/guest_runner.cpp:814-825 | `next_base` does not fall below an aligned window start if and only if the start is 0, the rounded end does not wrap, or the range is inverted by less than 2 MiB |
| `DirectImage.InsideExactly` | platform/android-aarch64/elf/guest_runner.cpp:833-845 | what is written for a segment lies in the window if and only if the window does not wrap and the segment, its file size included, ends within the extent of the load range |
| `DirectImage.OrdinaryContained` | platform/android-aarch64/elf/guest_runner.cpp:656-665 | every segment whose end does not wrap and whose file size is at most its memory size ends within that extent |
| `DirectEscapes.WrappedSegmentEscapes` | platform/android-aarch64/elf/guest_runner.cpp:661-664 | a segment of n bytes that ends at 2^64 exactly is left out of the load range; the library is accepted and the n bytes below its window are written |
| `DirectEscapes.DistantSegmentEscapes` | platform/android-aarch64/elf/guest_runner.cpp:814-825 | a library of two small segments that do not wrap, far apart, is accepted; the next base falls below its start and the second segment is written below it |
| `DirectEscapes.LongFileEscapes` | platform/android-aarch64/elf/guest_runner.cpp:838-845 | a segment with more bytes in the file than in memory is accepted and written beyond the rounded end of its window |
| `DirectWindows.WindowPlaced` | platform/android-aarch64/elf/guest_runner.cpp:1038-1045 | if the next base never moves back, every window is 2 MiB aligned and lies between the old and the new `next_base`, inside the guest |
| `DirectWindows.NextBaseGrows` | platform/android-aarch64/elf/guest_runner.cpp:1038-1045 | `next_base` only grows over any stretch of a run whose loaded objects pass the check of `NextBaseExactly` |
| `DirectWindows.NeverBackExactly` | platform/android-aarch64/elf/guest_runner.cpp:1003-1054 | over a run `next_base` never moves back if and only if every loaded object starts at 0, has a rounded end that does not wrap, or has a range inverted by less than 2 MiB |
| `DirectWindows.WindowsDisjoint` | platform/android-aarch64/elf/guest_runner.cpp:1003-1054 | if the next base never moves back, the windows of all loaded libraries are aligned, at or above 0x180000000, inside the guest, pairwise disjoint and above every initial object |
| `DirectWindows.SegmentsDisjoint` | platform/android-aarch64/elf/guest_runner.cpp:833-845 | if the next base never moves back, no byte is written for two libraries by segments that end within their load ranges and windows |
| `DirectWindows.OrdinaryDisjoint` | platform/android-aarch64/elf/guest_runner.cpp:1003-1054 | no byte is written for two libraries by any of their segments, if every file's segments have a file size of at most their memory size and end by 2^64 less the ceiling |
| `JniNames.JniMangle` | platform/android-aarch64/elf/guest_runner.cpp:297-320 | the loop builds the escaped name, made of letters, digits and underscores only |
| `JniNames.MangleMeans` | platform/android-aarch64/elf/guest_runner.cpp:297-319 | the escape of every character, written out: letters and digits stand for themselves, both separators for an underscore, and the others for their escapes |
| `JniNames.RoundTripExactly` | platform/android-aarch64/elf/guest_runner.cpp:297-320 | unescaping gives the name back (up to `.` for `/`) if and only if no separator is followed by a digit from 0 to 3 |
| `JniNames.CollidesExactly` | platform/android-aarch64/elf/guest_runner.cpp:297-320 | some other name (beyond the choice of separator) has the same symbol if and only if the name holds an escaped byte, or a separator followed by what an escaped byte is written as: 1, 2, 3, or 0 and the four hexadecimal digits of one |
| `JniNames.Suffixes` | platform/android-aarch64/elf/guest_runner.cpp:303-318 | what follows the underscore of each escaped byte |
| `JniNames.SymbolsDistinct` | platform/android-aarch64/elf/guest_runner.cpp:297-320 | names in which no separator is followed by a digit from 0 to 3 share a symbol if and only if they agree up to the choice of separator |
| `JniNames.UnsafeNamesCollide` | platform/android-aarch64/elf/guest_runner.cpp:297-320 | the names `a/1` and `a_` share a symbol |
| `ClassFile.ConstantPool` | tools/normalize-dex2jar.py:8-38 | the index-and-offset loop fills the lists as the specified parse, including double-width constants, cut-off strings and every error |
| `ClassFile.NormalizeClass` | tools/normalize-dex2jar.py:56-68 | the in-place rewrite yields the specified bytes, version flag and count, or fails exactly when parsing or a class lookup does |
| `ClassWriter.WrittenParses` | tools/normalize-dex2jar.py:8-39 | every list of constants, written with the tags, widths and index counts of the class-file format and with anything around it, parses to exactly its entries at their offsets and the end of the pool |
| `ClassWriter.NormalizeWritten` | tools/normalize-dex2jar.py:56-72 | a written class is refused exactly if a method reference or its class points past the pool; otherwise the result is the same class written with exactly the method references to interfaces turned into interface method references and the major version raised to 52 |
| `ClassWriter.InterfaceWritten` | tools/normalize-dex2jar.py:50-53 | the interface a written class defines: none without the flag, else the text of its class |
| `ClassWriter.ClassNameIsText` | tools/normalize-dex2jar.py:42-47 | a class name is the text its constant names, empty for constants of other kinds, an error past the end of the pool |
| `ClassWriter.MissingIsRefused` | tools/normalize-dex2jar.py:16-38 | a pool with fewer constants than announced is refused if the file ends or an unknown tag follows |
| `ClassWriter.CutOffIsRefused` | tools/normalize-dex2jar.py:16-36 | a constant whose indices or text length are cut off is refused |
| `ClassFile.ScanPatched` | tools/normalize-dex2jar.py:8-38 | changing Methodref tags to 11 changes nothing else about how the rest of the pool parses |
| `ClassFile.RewrittenParses` | tools/normalize-dex2jar.py:56-68 | the rewritten file parses to the same offsets and end, and to the same entries but for the selected Methodrefs |
| `ClassFile.ClassNameKept` | tools/normalize-dex2jar.py:41-46 | class names read from the pool are unaffected by the rewrite |
| `ClassFile.NormalizeMeaning` | tools/normalize-dex2jar.py:56-68 | same length, major version raised to at least 52, exactly the Methodrefs whose class is in the set become InterfaceMethodrefs, every other byte is the old one |
| `ClassFile.NormalizeTwice` | tools/normalize-dex2jar.py:56-68 | normalising twice equals once: the second pass succeeds, changes nothing and reports nothing |
| `ClassFile.InterfaceNameKept` | tools/normalize-dex2jar.py:49-53 | normalising does not change which interface, if any, a file defines |
| `Zip.ReadU16` | platform/android-aarch64/apk/apk_envelope.cpp:29-34 | the shifted or of two bytes is their little-endian value; out of bounds is an error |
| `Zip.ReadU32` | platform/android-aarch64/apk/apk_envelope.cpp:36-44 | the same for four bytes |
| `Zip.FindEocd` | platform/android-aarch64/apk/apk_envelope.cpp:73-87 | the backward loop computes the specified search |
| `Zip.EocdIsLast` | platform/android-aarch64/apk/apk_envelope.cpp:76-87 | the search returns exactly the last signature in its window, and nothing exactly when the window holds none |
| `Zip.ReadEntry` | platform/android-aarch64/apk/apk_envelope.cpp:101-123 | one central directory record is read field by field, or rejected when the signature or a length is wrong |
| `Zip.WalkDirectory` | platform/android-aarch64/apk/apk_envelope.cpp:98-124 | the loop returns all records in order, or fails as soon as one does not fit |
| `Zip.ReadZipEntries` | platform/android-aarch64/apk/apk_envelope.cpp:66-126 | the whole reader is search, limits and walk, with every rejection |
| `Zip.EntriesExactly` | platform/android-aarch64/apk/apk_envelope.cpp:84-125 | which bytes are accepted: neither field all ones, the directory inside the file, and as many records in a row as the count says, whose entries are returned |
| `Zip.WalkMeans` | platform/android-aarch64/apk/apk_envelope.cpp:98-124 | the walk accepts exactly chains of records, each with its signature, lengths and fields at their bytes |
| `Zip.WindowMeans` | platform/android-aarch64/apk/apk_envelope.cpp:74-84 | the window ends 22 bytes before the end and reaches back 65535 more |
| `Zip.EntriesNeedEnd` | platform/android-aarch64/apk/apk_envelope.cpp:79-90 | without a signature in the window nothing is accepted; a signature is its four bytes |
| `Zip.ExtractExactly` | platform/android-aarch64/apk/apk_envelope.cpp:127-150 | extraction byte by byte: local signature, the two lengths, the compressed bytes, and the method |
| `Zip.ExtractEntryData` | platform/android-aarch64/apk/apk_envelope.cpp:128-154 | extraction returns the bytes behind the local header, through the inflater for method 8, and fails otherwise |
| `ZipArchive.CentralReads` | platform/android-aarch64/apk/apk_envelope.cpp:101-123 | a written record reads back as its entry and the reader steps to its end, whatever the skipped fields hold |
| `ZipArchive.WalkWritten` | platform/android-aarch64/apk/apk_envelope.cpp:98-124 | the walk over a written directory lists all members in order |
| `ZipArchive.ExtractWritten` | platform/android-aarch64/apk/apk_envelope.cpp:128-149 | extracting a listed member finds its own bytes |
| `ZipArchive.EndFoundExactly` | platform/android-aarch64/apk/apk_envelope.cpp:76-87 | the reader finds the end record that was written if and only if that record alone holds no second signature at an offset up to the comment length |
| `ZipArchive.ListsMembers` | platform/android-aarch64/apk/apk_envelope.cpp:66-126 | reading any written archive without a forged signature returns its members in order with names, flags, methods, sizes and offsets |
| `ZipArchive.ExtractsMembers` | platform/android-aarch64/apk/apk_envelope.cpp:128-149 | extracting any of them returns what its method says its bytes mean |
| `ZipArchive.StoredRoundTrip` | platform/android-aarch64/apk/apk_envelope.cpp:66-149 | every stored member comes back under its name, byte for byte |
| `ZipArchive.CommentForges` | platform/android-aarch64/apk/apk_envelope.cpp:76-87 | any comment with a signature 22 or more bytes before its end makes the reader miss the real end record |

## Left out

Simplifications in what is modelled:

- Guest memory of the linker is a map of 64-bit words: stores that fault or straddle two words are not modelled, and a store to an unmapped word has no effect.
- After a malformed packed relocation stream the source stops the process; the memory at that point is not specified.
- PackedRela.PackedRoundTrip: asks for fewer than 2^64 relocations, since the stream announces their number in one 64-bit word.
- Sleb128.Decoder.PopFront: shifts of 64 and more, undefined in C, drop the bits, and the shift counter does not wrap at 32 bits.
- IFUNC resolvers and symbol lookup during relocation are functions of their argument; resolvers do not call back into the linker.
- ObjectTable.Linker.LoadNeeded: the fixed-size name and path buffers, and the file I/O behind a library, are not modelled; a library is its path and its needed names.
- GnuHash.LookupGnuHash: table reads are within a well-formed table; the effect of a malformed table is not modelled.
- GnuHashBuild.CountSymbols: the file offset of a bucket is computed without the 32-bit product wrapping, so for fewer than 2^30 buckets.
- StaticTls.InitBlock: asks that no copy leaves the block and that each image is as long as its file size; what a copy beyond the block overwrites is not modelled.
- Guest callbacks of the Binder and looper handlers are logged and do not re-enter the runtime.
- Handle counters are unbounded; the 64-bit counters of the source do not come near wrapping.
- BinderRefs.CountsExact: the 32-bit count of a binder must stay below its maximum when it is raised, since the source wraps there.
- BinderOwnership.CountsBalance: the same bound on the counts.
- BinderRuntime.CallbacksConserved: what a callback does in the guest is not modelled.
- Relocation.ApplyRela: the symbol, TLS and IFUNC lookups behind an entry are parameters.
- The host buffer that an allocator clears before writing it to the guest is not modelled, so neither is the exception of a host that cannot provide it.
- DirectLoader.LoadDependencies: takes a bound within which the run ends, since the code need not end; RunEnds says when it does, SelfNeedExactly exactly when for a library that needs itself, and RunGrows speaks of runs without end too.
- DirectTermination.RunEnds: one direction only; whether a world with names that neither are recognised nor lead to libraries that take room ends depends on which of them come up.
- DirectWindows.NextBaseGrows: asks for the check of `NeverBackExactly`, which is exact; DistantSegmentEscapes fails it. The guest and the initial objects end at least 2 MiB below 2^64.
- DirectWindows.WindowPlaced: the same premises.
- DirectWindows.WindowsDisjoint: the same premises and, for the bound above an initial object, that its end does not wrap either.
- DirectWindows.SegmentsDisjoint: the same premises, and that both segments end inside their windows, which `InsideExactly` makes exact; OrdinaryDisjoint replaces them by a condition on the files.
- DirectLoader.MapObject: page tables, permissions and failing reads reduce to one flag. A segment that would be written beyond the end of the guest, which the source does not check, counts as refused.
- ClassFile.ConstantPool: the kinds of Python exceptions are one error, and text decoding is any total function.
- Zip.ExtractEntryData: inflating is a parameter.

Not modelled at all:

- Kernel and CPU work of the linker: mmap, mprotect, instruction cache, auxiliary vector, stack set-up, debugger hooks.
- dlsym, dl_iterate_phdr and the symbol search across objects, which are plain loops over the table.
- vCPU handling, page tables and the elfuse bootstrap: foreign code.
- EGL/GLES stubs, GpuBridge, host windows, fonts and the macOS shell.
- The muplard socket client; of the daemon-owned transaction only the step that clears `alive` is kept.
- Parcel cursors and status objects of the Binder NDK, input events, libc, pthread and libm stubs that return constants or approximate: easy members.
- zlib, Android manifest and resource heuristics, path safety checks.
- Object initialiser order in the direct loader, which is reverse discovery order and promises no more.
- Command line, prefixes, instances, Wine, ART bootstrap plan, DEX signature reader and the stub generator.
