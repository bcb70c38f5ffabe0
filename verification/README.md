# Verified model of The Heap: the FAT32 engine and the slab allocator

This project models the two cores of the repository and proves what they promise. It is checked with
`dafny verify dfyconfig.toml`.

**FAT32.** `Fat32Mut::write_file_by_path` and the readers of `Fat32`, on one flat byte buffer.
`Fat32View.Fat32Mut` and `Fat32View.Fat32` have the code's own form: methods with loops over an
`array<byte>`. Each method is proved equal to a total function of the bytes (`Engine`), for every buffer
and every input, error answers included. The theorems are about those functions, in layers:

- names and slots (`Names`, `NameRules`, `DirEntries`): the encoder of the write path and the decoder of the read
  path;
- chains (`Chains`): linked lists in the table;
- bytes to volume (`Geometry`, `Tables`, `Clusters`, `Refinement`): the buffer stands for a table of 28-bit
  values and a sequence of clusters, and every byte write is one update of them;
- directories (`Directories`, `DirUpdates`): slots before the end mark, listings, the map from names to entries, and
  what one slot write does to them;
- the tree (`Tree`, `Volume`, `Writes`, `Outcomes`, `Frame`): one write, whatever it answers;
- paths and whole runs (`Lookup`, `Theorems`, `Promises`, `Runs`, `Shell`);
- the on-disk format by its numbers, and what is answered on any image, usable or not (`Formats`, `Answers`), on the
  kernel's demo image for one (`Demo`);
- where writing is not what it seems (`Losses`, `OddNames`), and images that show it (`Witness`, `Nested`,
  `Counterexamples`).

`Volume.WellFormed(g, d, dirs)` is the hypothesis of the layers on trees, paths and runs, and losses: the image is laid
out properly, `dirs` are the first clusters of a tree of directories, every chain of an entry ends within 4096
clusters, no two owners share a cluster, a file's chain covers its size, names have no dot in their raw bytes, and
after an end mark no later cluster of that directory shows anything.
A write is `Ready` when in addition its parent path walks through directories only. The code checks none of this.
The hypotheses can be met: `Witness` gives a blank image that is well-formed (`BlankIsWellFormed`), on which a write
to `/A` is ready (`ReadyBlank`) and succeeds (`FirstSucceeds`); `Nested` gives one with a sub-directory, its `.` and
`..` entries included (`NestedIsWellFormed`). Every name that the encoder accepts is covered, also the two kinds that
the code accepts and does not handle: names that start with NUL, and names whose raw bytes a volume label has.

**Allocator.** `Slab` models `SlabAllocator` over an explicit memory: the `next` words of free blocks are
bytes at the blocks' addresses. `Slab.SlabAllocator` is the class with its fields, proved equal to functions
of the state. `SlabInvariant`, `SlabSteps`, `SlabRuns` and `SlabSpace` prove it against a `Book` that knows
stacks of blocks and no memory at all, for every run of calls and client writes; `SlabRuns.StartMatches`
shows that initialization establishes the invariant. `LockSteps` and `Lock` put
the allocator behind its spinlock: any number of threads, calls cut into steps, client writes of other
threads in between. `SlabRules` has the allocator's rules by their numbers, `SoloCalls` that calls come to their end.

Where the code and its documentation differ, the model follows the code:

- `cd /`, `cd` without argument and `cd ..` into the root are always refused, since `open_path("/")` answers
  `Ok(None)` (`Shell.CdRootRefused`, `Shell.NeverBackToRoot`).
- A write is not atomic. An overwrite that ends in `NoSpaceLeft` has freed the old file, and reading it then fails
  (`Losses.LostFile`, on an image `Witness.OverwriteCanLoseFile`); a create in a full directory leaves its new chain
  linked (`Frame.FullDirectory`, `Counterexamples.FullDirectoryLeaks`). `Frame.RefusalTouchesNothing` and
  `Theorems.RefusalUntouchedIff` say exactly which refusals leave the buffer alone, and `Frame.WellFormedIff` exactly
  which writes keep the volume well-formed.
- A file of more than 4096 clusters is written and reads back short (`Losses.LongFileReadsShort`,
  `Counterexamples.LongFileIsCut`).
- Names ending in a dot or with spaces before the dot or the end are accepted and never found again
  (`Losses.UnreadableIsGone`, `Witness.DottedNameIsGone`).
- Names that start with NUL are accepted, answered with Ok, and end the directory at the slot they take: if that was a
  deleted slot, every file and directory that only later slots show is gone (`OddNames.NulCutsListing`,
  `OddNames.NulHides`; on an image, `Nested.NulNameLosesEntries`). Only for such names does a write touch other names
  than its own (`Frame.Touched`).
- A volume label with the raw bytes of the name is taken for a free place: the file is written over it, and an entry of
  that name further on stays as a second one, with a chain that is never given back (`OddNames.LabelOverwritten`,
  `OddNames.LabelLeaksOld`).
- The top four bits of a table entry are overwritten; values are compared masked (`Tables.ReservedBitsCleared`).

`usize` is 64 bits wide. Indices and lengths are unbounded integers where the code cannot overflow; the
casts of `max_cluster_number` and of the file size are taken modulo 2^32, and `align_up` and `checked_add`
wrap or fail at 2^64.

## Model

| member | source | states |
|---|---|---|
| Names.EncodeShortName83 | fat32/src/lib.rs:1011-1045 | The two copy loops compute the padded, upper-cased 8 + 3 bytes, or refuse with InvalidName, for every string; which names those are is NameRules.EncodeIff |
| NameRules.EncodeIff | fat32/src/lib.rs:1011-1045 | A name is encoded as 11 given bytes if and only if it is a base of 1 to 8 and an extension of at most 3 ASCII characters without slash and dot, and the bytes are their capitals padded with 0x20; every other string is InvalidName |
| NameRules.EncodePieces | fat32/src/lib.rs:1011-1045 | For given pieces: accepted exactly when the lengths are right, and then spelled by these bytes |
| NameRules.EncodeOthers | fat32/src/lib.rs:1011-1045 | Only names in pieces are accepted, and every refusal is InvalidName |
| NameRules.UpperIs | fat32/src/lib.rs:976-982 | Upper-casing maps codes 97 to 122 to 65 to 90, character by character, and no other |
| NameRules.DecodeIs | fat32/src/dir_entry.rs:76-91 | A name reads back as base, dot and extension without the 0x20 padding, and without the dot when there is no extension |
| Names.DecodeAsciiTrim | fat32/src/dir_entry.rs:121-132 | The shrinking loop decodes the field without its trailing spaces, and nothing else |
| Names.NameRoundTrip | fat32/src/dir_entry.rs:64-107 | An accepted name decodes to its upper-cased self if and only if it has no trailing dot and no trailing space in base or extension |
| Names.EncodeInjective | fat32/src/lib.rs:1011-1045 | Two readable accepted names share their 11 bytes if and only if they are equal ignoring case |
| Names.DecodeInjective | fat32/src/dir_entry.rs:76-91 | Clean raw names that decode alike are equal byte for byte |
| Names.LookupsAgree | fat32/src/lib.rs:797-835 | For a clean raw name, the 11-byte comparison of the write path and the name comparison of open_path agree |
| DirEntries.ParseEntry | fat32/src/dir_entry.rs:64-107 | The parser on short, exact and long input, as a function of the 32 bytes; what the bytes mean is Formats.SlotFields |
| Formats.SlotFields | fat32/src/dir_entry.rs:64-107 | On every slot: nothing exactly for a first byte 0x00 or 0xE5 or a volume label; else the six flags are the bits of byte 11, and cluster, size and name come from their bytes, whatever the flags are |
| Formats.AttributeBits | fat32/src/dir_entry.rs:30-41 | The six flags are the bits of weight 1, 2, 4, 8, 16 and 32, each on its own |
| Formats.WrittenSlot | fat32/src/lib.rs:874-920 | The written slot byte by byte: name, 0x20, zeros, and cluster and size in their bytes |
| Formats.SlotMarks | fat32/src/lib.rs:797-872 | Slots are 32 bytes; free slots start with 0x00 or 0xE5, and raw names are compared on 11 bytes |
| Formats.RowStops | fat32/src/lib.rs:410-440 | A directory cluster is read up to the first slot that starts with 0x00 |
| Formats.ListingGrows | fat32/src/lib.rs:410-440 | The listing has one entry for every slot that shows one, in slot order |
| Formats.EnteredBytes | fat32/src/lib.rs:576-603 | Entering a slot writes its 32 bytes and at most one zero behind them, and no other byte |
| DirEntries.FileSlotRoundTrip | fat32/src/lib.rs:874-920 | Parsing a written slot gives back decoded name, the 32-bit cluster rebuilt from its halves, and the size; or nothing for the two marker bytes |
| DirEntries.EntryRoundTrip | fat32/src/lib.rs:874-920 | A slot written under an accepted name shows that name exactly when it is readable and does not start with NUL |
| Chains.FollowIsChain | fat32/src/lib.rs:385-408 | What a walk that ends collects is a chain: linked, in range, ended by the end mark |
| Chains.ChainIsFollowed | fat32/src/lib.rs:385-408 | The converse: a chain within the bound is what the walk collects |
| Formats.WalkIs | fat32/src/lib.rs:385-408 | On any image, over the four bytes of each entry: the walk collects the clusters that entries 2 to 0x0FFFFFF7 link, up to 4096; 0x0FFFFFF8 to 0x0FFFFFFF end it, 0 and 1 are InvalidCluster, an entry beyond the buffer OutOfBounds |
| Formats.WalkStep | fat32/src/lib.rs:703-724 | The same for one entry |
| Formats.AllocEntries | fat32/src/lib.rs:752-764 | After an allocation each entry names the next cluster, and the last one is 0x0FFFFFFF |
| Chains.ShareTail | fat32/src/lib.rs:385-408 | Two ended chains that share a cluster share everything after it |
| Chains.ChainDistinct | fat32/src/lib.rs:385-408 | An ended chain never repeats a cluster |
| Chains.ChainNotFree | fat32/src/lib.rs:737-766 | An ended chain holds no free cluster, so it meets no set of free clusters |
| Chains.LinkMakesChain | fat32/src/lib.rs:752-764 | Linking distinct clusters makes exactly that chain |
| Chains.FirstFitIsLowest | fat32/src/lib.rs:737-766 | The clusters taken are the n lowest free ones, in increasing order |
| Chains.FreeCountZero | fat32/src/lib.rs:726-735 | Freeing a chain raises the number of free clusters by its length |
| Chains.FreeCountLink | fat32/src/lib.rs:737-766 | Linking free clusters lowers it by their number |
| Geometry.ParseBpbFrame | fat32/src/lib.rs:942-972 | The header depends on the first 48 bytes only; what they mean is Formats.HeaderFields |
| Formats.HeaderFields | fat32/src/lib.rs:942-972 | For all field values: bytes 11-12, 13, 14-15, 16, 36-39 and 44-47 are the six fields; NotFat32 exactly when one of the four checked ones is 0 |
| Formats.HeaderTooSmall | fat32/src/lib.rs:942-946 | BufferTooSmall exactly below 512 bytes |
| Formats.UsualHeader | fat32/src/lib.rs:942-972 | A concrete header with six different fields, and the offsets it gives |
| Formats.SectorsAre | fat32/src/lib.rs:618-671 | Tables and clusters lie in the sectors that the header says, for every header |
| Geometry.GeoOfTables | fat32/src/lib.rs:618-632 | The data area starts where the last table copy ends |
| Geometry.MaxClusterIsTop | fat32/src/lib.rs:634-659 | On a usable image the casts of max_cluster_number lose nothing |
| Formats.TopIsHighest | fat32/src/lib.rs:634-659 | A cluster is usable if and only if its entry is in the table and all its bytes are in the buffer |
| Formats.MaxClusterRefuses | fat32/src/lib.rs:634-659 | OutOfBounds without a data area; NotFat32 without a whole cluster or without three entries |
| Formats.ClusterRead | fat32/src/lib.rs:410-440 | Reading a cluster gives exactly its bytes; InvalidCluster for 0 and 1; OutOfBounds when the buffer cuts it off |
| Geometry.CopyBounds | fat32/src/lib.rs:618-632 | Table copies end before the next one starts and before the data |
| Geometry.ClustersApart | fat32/src/lib.rs:661-671 | Distinct clusters occupy disjoint bytes |
| Tables.SetEntryEffect | fat32/src/lib.rs:684-701 | One entry write sets the four bytes of that entry in every copy, leaves all other table, data and header bytes, and keeps equal copies equal |
| Tables.ClearEntriesBytes | fat32/src/lib.rs:726-735 | Freeing a chain clears its entries in every copy, equal before or not, and touches no other byte |
| Tables.ReservedBitsCleared | fat32/src/lib.rs:684-701 | An entry write clears the four reserved bits of that entry in every copy and no others, so they survive exactly where they were zero |
| Clusters.SpliceClusterEffect | fat32/src/lib.rs:768-795 | Bytes laid inside a cluster change that cluster and no table, header or other cluster |
| Clusters.FillThenGather | fat32/src/lib.rs:292-326 | What write_chain_data lays along a chain is what read_file gathers from it, for every length |
| Formats.NameLookup | fat32/src/lib.rs:246-263 | The name loop compares capitals on both sides and takes the first entry that matches |
| Directories.ListingLookup | fat32/src/lib.rs:246-263 | The name loop over a listing finds the first slot of that name |
| Directories.PutAtEndLive | fat32/src/lib.rs:587-601 | Writing over the end mark appends one live slot; no stale slot becomes visible, also when the mark was the last slot of its cluster |
| Directories.PutAtEndKeepsEndRule | fat32/src/lib.rs:596-601 | The end-mark rule across clusters is kept by rewriting the mark inside one cluster only |
| Directories.FindGridSpec | fat32/src/lib.rs:797-835 | The raw search finds the first live slot with those bytes, and none exactly when there is none |
| Directories.FreeGridSpec | fat32/src/lib.rs:843-872 | The free-slot scan finds a free slot exactly when there is one, and no slot before the one found is free, deleted slots included |
| Directories.RawSearchIsLookup | fat32/src/lib.rs:797-835 | The raw search and the name lookup of the read path find the same slot and entry, or both none; unless the search stops at a volume label, which is then in front of every slot of that name |
| DirUpdates.DirectoryUpdate | fat32/src/lib.rs:576-603 | The slot write succeeds exactly when a live slot has the raw name or a slot is free; then it is one update of the name map, or, for a raw name that starts with NUL, cuts the live slots off before the first free one, and keeps the directory in order exactly when no later row shows anything |
| DirUpdates.UpdateKeepsUnique | fat32/src/lib.rs:576-603 | A slot write makes a second live slot of one name if and only if it overwrites a volume label in front of an entry of that name |
| DirUpdates.ListingAfterUpdate | fat32/src/lib.rs:576-603 | The listing changes by that one entry, at an explicit position: in place of the first slot with the raw name, or after the entries of all slots before the first free one; for a raw name that starts with NUL it ends before the first free slot |
| Paths.SplitParentComponents | fat32/src/lib.rs:984-998 | Splitting off the parent splits off the last non-empty component |
| Paths.SplitParentFails | fat32/src/lib.rs:984-998 | For absolute paths the split fails exactly when there is no component |
| Paths.SplitParentIs | fat32/src/lib.rs:984-998 | The parent is the text before the last slash, or / when there is none; trailing slashes do not count |
| Paths.ResolvePathLoop | fat32/src/main.rs:199-223 | The loops over a shared component vector compute the resolution function; what it does with each part is Paths.ResolvePart |
| Paths.ResolvePart | fat32/src/main.rs:225-235 | From any canonical directory: .. goes one level up and stays in the root, . and nothing stay, an ordinary name goes one level down |
| Paths.DownAndUp | fat32/src/main.rs:225-235 | Appending a name and .. to any path does not change where it leads |
| Paths.ResolveAbsolute | fat32/src/main.rs:199-213 | An absolute path does not look at the current directory |
| Paths.ResolveExamples | fat32/src/main.rs:405-421 | The three resolutions of the shell's own checks |
| Paths.ResolveIsCanonical | fat32/src/main.rs:199-235 | Every resolved path is / or slash-joined components without . and .., and resolving it again is the identity |
| Paths.ResolveCompose | fat32/src/main.rs:199-235 | Two resolutions in a row are one resolution of the joined path |
| Refinement.FollowChainView | fat32/src/lib.rs:385-408 | On a usable image the byte-level walk returns the abstract chain |
| Refinement.ListChainView | fat32/src/lib.rs:410-440 | Listing a chain of clusters lists the live slots of its rows |
| Refinement.AllocChainView | fat32/src/lib.rs:737-766 | Allocation fails with an untouched buffer exactly when fewer clusters are free than needed; else it links the lowest free ones, only the table changes, and following the chain from its first cluster gives them back, for up to 4096 |
| Tree.ChainSurvives | fat32/src/lib.rs:553-571 | Freeing one owner's chain and linking free clusters leaves every other chain as it was |
| Tree.WriteKeepsTree | fat32/src/lib.rs:553-605 | After one write all owners are still apart, all chains ended, all sizes covered |
| Volume.ReleaseEffect | fat32/src/lib.rs:557-567 | Freeing the old chain of a file clears its entries in every copy and touches no other byte |
| Volume.StoreEffect | fat32/src/lib.rs:569-575 | Allocation and data writing are all or nothing on table and clusters |
| Volume.EndWriteEffect | fat32/src/lib.rs:587-601 | Slot and end mark change one row of one directory |
| Writes.FindEntryView | fat32/src/lib.rs:797-841 | The byte-level search reports the place and the entry that the parent's map has under the name, or the place of a volume label and no entry |
| Writes.WriteToSubdir | fat32/src/lib.rs:557-560 | Overwriting a directory is refused with an untouched buffer |
| Writes.WriteSucceedsIff | fat32/src/lib.rs:557-586 | For every encoded name: the write succeeds if and only if free plus old clusters are enough and a slot has the raw name or is free; otherwise NoSpaceLeft |
| Outcomes.ReadFileView | fat32/src/lib.rs:292-326 | Reading a file of the tree returns its bytes |
| Outcomes.SuccessCatalog | fat32/src/lib.rs:532-606 | A successful write is one update of the map from directories and names to entries; under a name that starts with NUL it drops the names that only the slots behind the place taken show |
| Outcomes.SuccessKeepsWellFormed | fat32/src/lib.rs:532-606 | A successful write of at most 4096 clusters keeps the volume well-formed; under a name that starts with NUL, one of any length does if no later cluster of the directory shows anything |
| Outcomes.SuccessContent | fat32/src/lib.rs:568-605 | The written entry's chain holds exactly the content |
| Outcomes.SuccessPadding | fat32/src/lib.rs:768-795 | The new file's clusters hold the content and then zeros up to the end of the last one |
| Writes.NewEntryFields | fat32/src/lib.rs:568-605 | The entry's fields: the archive flag alone, the first cluster or 0, and the length modulo 2^32 |
| Frame.WriteFrame | fat32/src/lib.rs:532-606 | Whatever the answer, header and tables' mirroring, all other entries, chains and bytes stay; under a name that starts with NUL, all but the entries that only the slots behind the place taken show |
| Frame.WellFormedIff | fat32/src/lib.rs:553-605 | Exactly when a write keeps the volume well-formed: not when it frees and then finds too few clusters, nor when it links more than 4096, nor when, under a name that starts with NUL, it goes through in front of a cluster that shows something |
| Frame.RefusalTouchesNothing | fat32/src/lib.rs:553-586 | A refused write leaves the buffer byte for byte if and only if it is an overwrite of a directory, lacks clusters with none to give back, or is an empty create in a full directory |
| Frame.FullDirectory | fat32/src/lib.rs:571-586 | A create that finds no slot answers NoSpaceLeft and leaks: the new chain stays linked, no directory or file owns it, the entries are the old ones, and the free clusters fall by what the content needs |
| Frame.WriteKeepsUnique | fat32/src/lib.rs:576-603 | Whatever a write answers, names that were unique in every directory stay unique, unless it overwrites a volume label in front of an entry of that name, and exactly then not |
| Frame.Conservation | fat32/src/lib.rs:557-575 | Free clusters afterwards plus ceil(len / cluster size) equal free clusters before plus the old chain |
| Frame.NextFreed | fat32/src/lib.rs:557-575 | The next overwrite gives back exactly what this write took; names that start with NUL are never found and so never overwritten |
| Lookup.OpenPathView | fat32/src/lib.rs:235-266 | open_path resolves the path's components in the catalog |
| Lookup.PathsUnique | fat32/src/lib.rs:235-266 | A directory of the tree is reached by one path only, up to case |
| Theorems.WriteAnswers | fat32/src/lib.rs:532-606 | Every answer of write_file_by_path, exactly, in the order the code decides, for every name |
| Theorems.RefusalUntouchedIff | fat32/src/lib.rs:532-606 | For the whole call: a refused write leaves the buffer byte for byte exactly when it is refused before a target is known or spends nothing there |
| Theorems.ListDirPathView | fat32/src/lib.rs:161-172 | list_dir_path lists the live slots of the directory the path leads to, or answers PathNotFound or NotADirectory, exactly |
| Theorems.WriteKeepsNavigable | fat32/src/lib.rs:532-606 | After any answer every directory can still be listed, and every sub-directory entry is one that was there before and leads where it led |
| Promises.RoundTrip | fat32/src/lib.rs:532-606 | After Ok, reading the path returns the content if and only if the name is readable and does not start with NUL, and the content fits 4096 clusters and 32 bits; the header parses to the same parameters |
| Promises.OtherPathsKept | fat32/src/lib.rs:532-606 | After any answer, every path that does not go through a touched name opens and reads as before: the written name, or for a name that starts with NUL the ones it hides |
| Promises.ParentListing | fat32/src/lib.rs:576-603 | After Ok the parent lists the old listing with that entry replaced where it was or inserted at the first free slot, at that position; under a name that starts with NUL, what the slots before the first free one list; other directories list as before |
| Promises.UnreadableNotFound | fat32/src/lib.rs:1011-1045 | No directory with clean names ever shows an accepted name that is not readable |
| Promises.ReadFileLength | fat32/src/lib.rs:292-326 | No read returns more than the size, nor more than 4096 clusters |
| Answers.FileIs | fat32/src/lib.rs:292-326 | On any image whose walk ends in the buffer: which byte of the buffer each byte of the file is, and how long the file is |
| Answers.ReadRefuses | fat32/src/lib.rs:292-305 | NotAFile for a directory, nothing for size 0, InvalidCluster for a first cluster below 2 |
| Answers.RelativePathRefused | fat32/src/lib.rs:235-240 | Every call that takes a path answers Other to one that does not start with a slash, and writes nothing |
| Answers.RootAnswers | fat32/src/lib.rs:161-240 | The root opens to no entry, is listed from its cluster, and is not written |
| Answers.PathAnswers | fat32/src/lib.rs:161-216 | What each call answers to any other path, by what it opens to |
| Answers.ParentAnswers | fat32/src/lib.rs:532-551 | A write with a bad name is InvalidName, and with a bad parent answers as that does; nothing is written |
| Answers.BrokenChain | fat32/src/lib.rs:385-440 | A broken chain is answered with the walk's error by all who read it, and freeing it frees nothing |
| Answers.ChainOutside | fat32/src/lib.rs:768-872 | A chain into a cluster beyond the buffer is OutOfBounds to all who read or fill it |
| Answers.EntryWrites | fat32/src/lib.rs:684-701 | An entry write succeeds if and only if the entry lies in the buffer in every copy |
| Runs.ReadIsTreeFind | fat32/src/lib.rs:199-216 | Reading a path of the image is looking it up in the tree the image stands for |
| Runs.WriteIsPut | fat32/src/lib.rs:532-606 | A successful write whose content fits, under a name that does not start with NUL, is one map update of that tree |
| Runs.WriteIsCut | fat32/src/lib.rs:843-872 | A successful write under a name that starts with NUL stores nothing in that tree and drops the names it hides |
| Runs.RefusedKeepsTree | fat32/src/lib.rs:532-606 | A refused write that does not lose the old file leaves the tree as it was, also when it leaks a chain |
| Runs.RunRefinesTree | fat32/src/lib.rs:532-606 | A run is judged by its first image: when that is well-formed and admits each call (the parent path leads to a directory, no dots, no NUL, no volume label of that raw name, the content fits), and no overwrite on the way gives clusters back and then finds too few, the volume stays well-formed, unique names stay unique, and the image stands for the tree that the successful calls build |
| Runs.RunWithRoom | fat32/src/lib.rs:532-606 | When all contents together fit the free clusters of the first image, no overwrite on the way loses a file, and the same follows from the first image alone |
| Fat32View.Fat32.FollowChain | fat32/src/lib.rs:385-408 | The loop computes the walk for every image, errors and the 4096 bound included |
| Fat32View.Fat32.ListDirCluster | fat32/src/lib.rs:410-440 | The loops over clusters and slots compute the listing |
| Fat32View.Fat32.OpenPath | fat32/src/lib.rs:235-266 | The loop over components computes the lookup |
| Fat32View.Fat32.ReadFile | fat32/src/lib.rs:292-326 | The loop over the chain computes the bytes |
| Fat32View.Fat32.ListDirPath | fat32/src/lib.rs:161-172 | The call computes the specified listing, error answers included |
| Fat32View.Fat32.ReadFileByPath | fat32/src/lib.rs:199-210 | The call computes the specified bytes, error answers included |
| Fat32View.Fat32.FindDirEntryOffset | fat32/src/lib.rs:797-841 | The loops compute the raw search |
| Fat32View.Fat32.FindFreeDirEntrySlot | fat32/src/lib.rs:843-872 | The loops compute the free-slot scan |
| Fat32View.Fat32Mut.WriteFatEntryAll | fat32/src/lib.rs:684-701 | The in-place loop over the copies leaves the specified buffer |
| Fat32View.Fat32Mut.FreeChain | fat32/src/lib.rs:726-735 | The in-place loop zeroes the chain's entries |
| Fat32View.Fat32Mut.AllocChain | fat32/src/lib.rs:737-766 | Scan and in-place linking answer and leave what the specification says |
| Fat32View.Fat32Mut.WriteChainData | fat32/src/lib.rs:768-795 | The in-place loop fills the clusters and zeroes the last one's rest |
| Fat32View.Fat32Mut.WriteDirEntryAtOffset | fat32/src/lib.rs:874-920 | The field-by-field writes lay down the whole 32-byte slot |
| Fat32View.Fat32Mut.WriteFileByPath | fat32/src/lib.rs:532-606 | The whole call, in place: answer and buffer are those of the specification, for every image, path and content |
| Shell.RunShell | fat32/src/main.rs:263-398 | The command loop's current directory and image are those of the session function |
| Shell.CdRootRefused | fat32/src/main.rs:328-348 | cd to the root never changes the state |
| Shell.NeverBackToRoot | fat32/src/main.rs:328-348 | A session that has left the root never comes back to it |
| Shell.CdMovesIff | fat32/src/main.rs:328-348 | cd to another place goes there if and only if that is not the root and the path leads to a directory; paths that walk through a file are excluded |
| Shell.RelativeCommands | fat32/src/main.rs:263-398 | From every current directory put writes one level below it, cd goes one level down, and cd .. one level up |
| Shell.SessionStaysInDirectory | fat32/src/main.rs:263-398 | In every session whose puts the first image admits and lose no file, and whose cds walk through no file, the volume stays well-formed and the current directory is canonical and is / or opens to a directory |
| Shell.SessionFromRoot | fat32/src/main.rs:263-398 | The same for a session as the shell starts it, in the root of a well-formed volume |
| Witness.BlankIsWellFormed | fat32/src/lib.rs:942-972 | The hypotheses can be met: a blank image is well-formed |
| Witness.OverwriteCanLoseFile | fat32/src/lib.rs:561-571 | A concrete overwrite: the file reads before it, it answers NoSpaceLeft, and reading the file then answers InvalidCluster |
| Witness.DottedNameIsGone | fat32/src/lib.rs:1011-1045 | A concrete write to /A. answers Ok, and /A. opens to nothing |
| Nested.NestedIsWellFormed | fat32/src/dir_entry.rs:64-107 | The hypotheses can be met with a sub-directory that has its . and .. entries |
| Nested.NulNameLosesEntries | fat32/src/lib.rs:843-872 | A concrete empty write to a name of one NUL answers Ok, and a file and a directory that opened before open to nothing |
| Demo.DemoIsWellFormed | kernel/src/main.rs:96-154 | The kernel's demo image, with end marks 0x0FFFFFF8 and a sub-directory, is well-formed |
| Demo.DemoReads | kernel/src/main.rs:156-183 | Its root lists HELLO.TXT and DIR, and HELLO.TXT reads as HELLO |
| Demo.DemoWrites | kernel/src/main.rs:156-190 | Writing NEW.TXT on it answers Ok and reads back |
| Losses.UnreadableIsGone | fat32/src/lib.rs:1011-1045 | After every write that succeeds, its path opens to nothing if and only if the name is not readable or starts with NUL |
| Losses.LostFile | fat32/src/lib.rs:561-571 | Every overwrite that gives clusters back and then finds too few answers NoSpaceLeft, and reading the path answers InvalidCluster unless the file was empty |
| Losses.LongFileReadsShort | fat32/src/lib.rs:385-408 | Every successful write of more than 4096 clusters reads back as exactly its first 4096 clusters |
| OddNames.NulCutsListing | fat32/src/lib.rs:843-872 | Every write under a name that starts with NUL that finds clusters and a free slot answers Ok and cuts the parent's listing off before the first free slot; the listing is kept if and only if the slots from there on list nothing |
| OddNames.NulHides | fat32/src/lib.rs:843-872 | After such a write a path opens to nothing if it goes through a name that only those slots show, and opens and reads as before if it does not |
| OddNames.NulLeaks | fat32/src/lib.rs:569-575 | The chain such a write stores belongs to no directory and no file |
| OddNames.LabelOverwritten | fat32/src/lib.rs:826-829 | When the raw search stops at a volume label, the write succeeds if and only if there are clusters enough, whatever has the name further on; it gives nothing back, and unique names stay unique if and only if the parent did not show the name |
| OddNames.LabelLeaksOld | fat32/src/lib.rs:557-567 | The file that had the name behind the label keeps its chain, which then belongs to no directory and no file |
| Counterexamples.FullDirectoryLeaks | fat32/src/lib.rs:571-586 | A concrete create in a root filled with long-name slots answers NoSpaceLeft, and the last free cluster is gone |
| Counterexamples.LongFileIsCut | fat32/src/lib.rs:385-408 | A concrete write of 4097 clusters answers Ok and reads back as 4096 of them |
| Bits.AlignUpSpec | slaballoc/src/util.rs:15-17 | The mask form is the least multiple of a power of two that is not below x, when the addition does not overflow |
| Bits.PowerTest | slaballoc/src/util.rs:23-25 | The bit test holds exactly of the powers of two |
| Slab.SlabAllocator.constructor | slaballoc/src/allocator.rs:63-71 | A new allocator has no heap and empty lists |
| Slab.SlabAllocator.InitHeap | slaballoc/src/allocator.rs:88-93 | Initialization sets the region and the bump pointer |
| Slab.SlabAllocator.ClassIndexFor | slaballoc/src/allocator.rs:96-104 | The loop finds the first class that covers size and alignment |
| Slab.SlabAllocator.BumpAlloc | slaballoc/src/allocator.rs:109-125 | Alignment, overflow and end check, zero fill, in place |
| Slab.SlabAllocator.RefillCache | slaballoc/src/allocator.rs:130-159 | The carving loop pushes every block of the chunk, in place |
| Slab.SlabAllocator.AllocBlock | slaballoc/src/allocator.rs:175-200 | The whole call: answer, lists and memory |
| Slab.SlabAllocator.DeallocBlock | slaballoc/src/allocator.rs:218-232 | The whole call: list and memory |
| SlabInvariant.CarvedOrder | slaballoc/src/allocator.rs:145-156 | A refilled list hands its blocks out from the highest address down |
| SlabInvariant.CarveOwned | slaballoc/src/allocator.rs:145-156 | Carving an unowned aligned stretch makes free blocks of all of it, in a finite acyclic list, and disturbs no list and no block |
| SlabSteps.BumpStep | slaballoc/src/allocator.rs:109-125 | The stretch handed out is aligned, inside the heap and nobody's; it fails exactly when it does not fit |
| SlabSteps.AllocStep | slaballoc/src/allocator.rs:175-200 | alloc answers as the memory-less stacks do and keeps the ownership invariant and the block counts |
| SlabSteps.DeallocStep | slaballoc/src/allocator.rs:218-232 | dealloc of a live block pushes it on its stack and keeps the invariant |
| SlabSteps.PokeOwned | slaballoc/src/allocator.rs:206-207 | Whatever a client writes into a block in use, every free list stays as it is |
| SlabRuns.ClassLeast | slaballoc/src/allocator.rs:96-104 | The class is the least one that covers size and alignment; there is none exactly when either exceeds 4096 |
| SlabRules.ClassIs | slaballoc/src/allocator.rs:96-104 | The classes are 8, 16, up to 4096, and which of them serves a layout, by number |
| SlabRules.LargeAnswer | slaballoc/src/allocator.rs:109-125 | A large block starts at the first multiple of its alignment, takes exactly its size, is zero, and is refused exactly when it does not fit |
| SlabRules.NotInitialized | slaballoc/src/allocator.rs:175-221 | Before initialization alloc answers null and dealloc does nothing |
| SlabRules.NotRecycled | slaballoc/src/allocator.rs:218-232 | dealloc of null or of a large block does nothing |
| SlabRules.GivenBack | slaballoc/src/allocator.rs:218-232 | dealloc makes the block its list's head, with the old head in its first eight bytes, and changes no other byte |
| SlabRules.FirstBlock | slaballoc/src/allocator.rs:130-159 | The first small request is served by the last block of the first chunk |
| SlabRuns.PointerPromise | slaballoc/src/allocator.rs:161-200 | Every non-null pointer is a multiple of the alignment, with at least size usable bytes in one block in use |
| SlabRuns.FreshBlock | slaballoc/src/allocator.rs:175-200 | A block handed out overlaps nothing that was in use |
| SlabRuns.AllocBytes | slaballoc/src/allocator.rs:175-200 | alloc changes no byte of the used heap |
| SlabRuns.DeallocBytes | slaballoc/src/allocator.rs:218-232 | dealloc changes no byte of a block still in use |
| SlabRuns.LargeIsZero | slaballoc/src/allocator.rs:120-124 | Large blocks are handed out zeroed |
| SlabRuns.FreedIsNext | slaballoc/src/lib.rs:214-226 | dealloc then alloc of the same class returns the same block and restores the list heads |
| SlabRuns.RunMatches | slaballoc/src/allocator.rs:130-232 | Over every run of calls and client writes, the answers are those of the memory-less stacks |
| SlabRuns.EveryRunIsSafe | slaballoc/src/allocator.rs:130-232 | Every run ends with finite acyclic lists, all blocks, small and large, inside the heap and pairwise disjoint, free + live = chunks * (4096 / S), and chunks = ceil(peak / (4096 / S)) |
| SlabSpace.SmallAnswer | slaballoc/src/allocator.rs:180-193 | In every state, a small request gets null exactly when its list is empty and no chunk fits at the first multiple of 4096 from the bump pointer on |
| SlabSpace.SmallRunsSucceed | slaballoc/src/allocator.rs:180-193 | A run of small requests never gets null if and only if its chunks, counted from the calls alone, fit after the first multiple of 4096, or there are none |
| LockSteps.BodyKeeps | slaballoc/src/allocator.rs:130-232 | Each step of a call under the lock keeps memory and book together; at the end the answer is the book's |
| LockSteps.WriteKeeps | slaballoc/src/lib.rs:125-141 | A write of another thread into a block in use, at any moment of a call, disturbs nothing |
| Lock.NextKeeps | slaballoc/src/lib.rs:32-63 | Every event of every thread keeps the system invariant |
| SoloCalls.CallCompletes | slaballoc/src/lib.rs:125-141 | Whenever the lock is free, a legal call of any thread can run to its end, and leaves memory, lists, lock and blocks as the sequential operation does |
| SoloCalls.WhoMoves | slaballoc/src/lib.rs:32-63 | A waiting thread can get in exactly when the lock is free; the holder can always move |
| Lock.MutualExclusion | slaballoc/src/lib.rs:32-63 | In every interleaving at most one guard exists, and locked is true exactly when one does |
| Lock.Linearized | slaballoc/src/lib.rs:125-141 | In every interleaving the answers are those of one sequential run in acquisition order |
| Lock.GrantsApart | slaballoc/src/lib.rs:125-141 | In every interleaving blocks in the hands of different threads lie in the heap and never overlap |
| Lock.HeldBytesKept | slaballoc/src/lib.rs:125-141 | A byte of a held block changes only when its holder writes it, however far any call has come |

## Left out

- Fat32View.Fat32Mut.WriteFileByPath: the read half of the source is written twice, with the same text; the model reads through one copy of it.
- Promises.RoundTrip: paths that walk through a file are excluded by `Ready`, because the code then reads the file's clusters as a directory.
- Runs.RunRefinesTree: a name that starts with NUL is not part of a run, since what it hides depends on slots that the tree does not have (one such write is `Runs.WriteIsCut`); nor is a name that a volume label has. The `.` and `..` entries are not part of the tree; unique names are preserved but not demanded, and of two slots with one name the tree has the first, as the readers do.
- SlabRuns.EveryRunIsSafe: `heap_start > 0`, one initialization, no overflow in `align_up`, and `dealloc` only of live blocks are hypotheses, as the `unsafe` contracts say.
- Lock.Linearized: initialization comes before the threads start; the two stores of a push are one step; memory orderings and provenance are not modelled.
- Lock.NextKeeps: the lock is not fair, so there is no claim that a spinning thread ever gets in.
- The view structs keep the derived offsets rather than the raw header fields.
- The code leaves long names, timestamps, FSInfo, directory creation and directory growth out, and so does the model.
- The command line of `fat32`, file input and output, printing, and the listing and reading commands of the shell, which change no state.
- The kernel: boot entry, serial port, VGA text, panic handler, and of its demo everything but the image and what it reads and writes there.
- Strings are sequences of characters; UTF-8 encoding is not modelled.
