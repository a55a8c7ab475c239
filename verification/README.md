# HCFS

A Dafny model of the data structures under `src/HCFS`, with proofs about them. `dafny verify dfyconfig.toml`
verifies the whole project. Nothing here executes the original program.

What is modelled, one group of modules each:

- **The directory B-tree** (`DirNames`, `DirTree`, `DirInsert`, `DirDelete`, `DirPages`, `DirInsertPages`,
  `DirDeletePages`, `DirStale`, `DirListing`, `DirHistory`, `DirFile`, `DirRun`, `DirWitness`).
  Names with their two orders; trees of entries; insertion and deletion on trees; the pages of a meta file with
  the reclaim list and the tree-walk list; class `MetaFile`, whose methods read and write pages as the routines
  do; whole runs of it; and two concrete runs, from the creation of the directory, in which the routines go wrong.
- **The upload progress file** (`RadixIndex`, `RadixGrowth`, `ProgressFile`, `ProgressRecovery`). The five-level
  index, class `ProgressInfo` with a log of all the contents the file goes through, and recovery over any number of crashes.
- **Alias inodes** (`AvlTree`, `AvlOutlook`, `AvlWitness`, `AliasNodes`, `AliasName`, `AliasBook`, `AliasWorld`,
  `AliasGroup`, `AliasHistory`, `AliasWitness`). Height-balanced trees, their in-place form over linked entries, the bitmaps of
  letter case, the group operations, whole runs of them, and one that fails.
- **The notification queue** (`NotifyQueue`, `NotifyProtocol`): the ring and the overflow list, and the steps of
  many producers and one consumer between the semaphore operations.
- **Aggregates**: pinned space (`PinBook`, `PinTable`), directory statistics (`DirStats`), the file-handle table
  (`FileTable`), the API load window (`ApiWindow`), and Base64 (`Base64`). `Options` holds the one `Option`.

A source routine that works in place is a method of a class. Its contract ties the new state to a function of the
old one, and the lemmas are about those functions.

## Properties that fail

Each property below is false of the code as written. The code is modelled as it is; a concrete input shows the
failure, and an if-and-only-if says, from what is there before the call, when the property holds.

- *An insertion leaves a file that holds the new tree.* An internal page that splits copies its first child
  position only when entered at an index above 0 (`src/HCFS/dir_entry_btree.c:385`). Input:
  `DirWitness.StaleSplit`, 5198 short names entered in a new directory. Exactly when: `DirFile.MetaFile.AddEntry`, in terms of
  `Clean`, with `DirInsertPages.OverflowsWhen` and `BufferClean`.
- *A deletion keeps the tree-walk list.* A page whose entry is replaced by its predecessor is written back from a
  copy with old links (`src/HCFS/dir_entry_btree.c:573-577`). Input: `DirWitness.StaleDelete`,
  5199 short names entered in a new directory and 22 of them removed again. Exactly when:
  `DirFile.MetaFile.RemoveEntry`, in terms of `LinksLost`, with `DirStale.ExtractDrops` and `StaleForeseen`.
- *Deleting from a balanced alias tree leaves it balanced* (`src/HCFS/alias.c:810-821`). Input:
  `AvlTree.DeleteUnbalances`. Exactly when: `AvlTree.DeleteBalanced`, in terms of `Tips`.
- *Inserting into an alias tree always goes through.* On trees that deletions have left out of balance, a double
  rotation may turn around a child that is not there (`src/HCFS/alias.c:704-712`). Input, reached from the empty
  tree by insertions and three deletions: `AvlWitness.ReachesStuck`, and as requests to the alias group
  `AliasWitness.StuckRequest`. Exactly when:
  `AvlOutlook.InsertGoesThrough`, in terms of `Foresee`.
- *A failed pin request leaves the pin flags as they were.* The roll back unpins everything in the list
  (`src/HCFS/api_interface.c:537-599`). Input: `PinTable.LostPin`. Exactly when: `PinTable.Pins.PinRequest`,
  if nothing in the list was pinned.
- *A pin request leaves the pinned size equal to the sum over the pinned files.* The reservation comes unchecked
  from the client and may be negative (`src/HCFS/api_interface.c:1231-1286`). Input:
  `PinTable.NegativeReservation`. Exactly when: `PinTable.Pins.PinRequest`, in terms of `Settles`.
- *Directory statistics count the regular files below.* `mknod` and `link` count a fifo; `unlink` and `rename` do not
  (`src/HCFS/file_present.c:345-354`, `src/HCFS/file_present.c:698-708`, `src/HCFS/fuseop.c:2588-2614`). Input: `DirStats.FifoMiscounts`.
  Exactly when: `DirStats.ExactWhen`.
- *Decoding gives the length that was encoded* (`src/HCFS/b64encode.c:187`). Input: `Base64.ShortLength`, any three
  bytes. Exactly when: `Base64.RoundTrip`, if the length is not a multiple of three; the bytes themselves always
  come back.
- *The load window holds the jobs of the last minute.* A job that finishes more than a window before the latest
  one is counted in a wrong second. Input: `ApiWindow.LateJob`. Exactly when: `ApiWindow.Load.Record`.

## Model

| member | source | states |
|---|---|---|
| DirNames.OrderLaws | src/HCFS/dir_entry_btree.c:56-107 | both name orders, with and without regard to case, are total preorders whose equivalence is sameness of keys |
| DirNames.SameMeans | src/HCFS/dir_entry_btree.c:86-88 | two names are the same if and only if they have the same letters, in whatever case on an external mount |
| DirNames.OrderMeans | src/HCFS/dir_entry_btree.c:56-107 | a name comes before another if and only if it ends first or has the smaller byte where they first differ, in lower case on an external mount |
| DirNames.InsertIsUpdate | src/HCFS/dir_entry_btree.c:188-465 | putting an entry in its sorted place is an update of the finite map the entries stand for |
| DirNames.RemoveIsErase | src/HCFS/dir_entry_btree.c:486-620 | cutting an entry out is erasing its key from that map |
| DirInsert.InsertSound | src/HCFS/dir_entry_btree.c:188-465 | insertion at any level: a hit changes nothing, otherwise the in-order entries gain the new one in its place, in one tree or in two halves around a median, within the page limits and at one depth |
| DirInsert.InsertRootSound | src/HCFS/FS_manager.c:512-613 | with root growth the tree is well formed again and holds the old entries with the new one in sorted place; refused exactly when the name is there, or for lack of space |
| DirInsert.InsertRootAccounted | src/HCFS/FS_manager.c:512-613 | every page of the new tree was in the old one or was taken from the allocator, exactly once |
| DirInsert.FreshMeans | src/HCFS/dir_entry_btree.c:264-285 | new pages are the reclaimed ones in their order, then pages side by side at the end of the file |
| DirDelete.RebalanceSound | src/HCFS/dir_entry_btree.c:649-920 | a rebalancing step keeps the in-order entries and the depth, overfills no page, leaves the chosen kid able to lose an entry, and drops its node only if that had one entry |
| DirDelete.RebalanceUses | src/HCFS/dir_entry_btree.c:649-920 | it loses or doubles no page: those before are those after and those dropped |
| DirDelete.ExtractSound | src/HCFS/dir_entry_btree.c:945-1007 | the extraction takes exactly the last entry, through any number of rebalancings |
| DirDelete.DeleteSound | src/HCFS/dir_entry_btree.c:486-620 | deletion at any level with its restarts, which end: the entries lose exactly the name, the limits and the depth are kept |
| DirDelete.DeleteRootSound | src/HCFS/dir_entry_btree.c:486-620 | from the root: found exactly when present, the entries without it, a well-formed tree of at most the old height |
| DirDelete.DeleteUses | src/HCFS/dir_entry_btree.c:486-620 | the pages before are those after and those dropped, each once |
| DirHistory.HistoryIsMap | src/HCFS/dir_entry_btree.c:188-620 | after every sequence of insertions and deletions on trees, the tree is well formed and stands for the finite map the same sequence builds |
| DirInsertPages.OverflowsWhen | src/HCFS/dir_entry_btree.c:188-370 | a page overflows if and only if the name is absent, every page on the path below is full, and a page can be had |
| DirInsertPages.NoSpaceWhen | src/HCFS/dir_entry_btree.c:258-275 | an insertion is turned down for lack of space if and only if the name is absent, its leaf is full and no page can be had |
| DirInsertPages.BufferClean | src/HCFS/dir_entry_btree.c:373-461 | every split finds its own first child position in the shared buffer if and only if the tree and the slot are `Clean` before the call |
| DirInsertPages.InsertLeftmost | src/HCFS/dir_entry_btree.c:188-465 | an insertion leaves the leftmost leaf in its page |
| DirDeletePages.DeleteLeftmost | src/HCFS/dir_entry_btree.c:486-620 | so does a deletion, hence the page at the end of the walk list is never dropped |
| DirDeletePages.PatchedDrop | src/HCFS/dir_entry_btree.c:743-799 | dropping a page puts it in front of the reclaim list and takes it out of the walk list; links that were safe stay safe, whether or not they form a list |
| DirDeletePages.PushedMeans | src/HCFS/dir_entry_btree.c:743-799 | the dropped pages come in front of the reclaim list, the last one first |
| DirDeletePages.StaleWrite | src/HCFS/dir_entry_btree.c:558-578 | writing a page back with its old links keeps the walk list if and only if no neighbour was dropped |
| DirStale.ExtractDrops | src/HCFS/dir_entry_btree.c:945-1007 | the extraction drops exactly the last pages with no entry to spare next to a sibling small enough, told from the tree before |
| DirStale.StaleForeseen | src/HCFS/dir_entry_btree.c:486-620 | a deletion writes stale links if and only if `LinksLost` holds of the tree and the walk list before |
| DirFile.BinarySearch | src/HCFS/dir_entry_btree.c:56-107 | finds the name, or the place where it belongs, on every sorted page |
| DirFile.MetaFile.constructor | src/HCFS/FS_manager.c:62-160 | a new directory is sound and empty |
| DirFile.MetaFile.Search | src/HCFS/dir_entry_btree.c:124-158 | the recursive search finds a name exactly when it is below the page, and returns its entry |
| DirFile.MetaFile.SplitOff | src/HCFS/dir_entry_btree.c:258-316 | the new page comes from the reclaim list or the end of the file and goes in front of the walk list; both lists stay sound and no other page changes its body |
| DirFile.MetaFile.Insert | src/HCFS/dir_entry_btree.c:188-465 | page by page, the outcome of the tree insertion is in the file if and only if the buffer slots were right; pages outside the subtree keep their bodies |
| DirFile.MetaFile.GrowRoot | src/HCFS/FS_manager.c:512-600 | the new root is above the two halves, allocated and listed like any page |
| DirFile.MetaFile.AddEntry | src/HCFS/metaops.c:105-341 | -EEXIST exactly when an entry is spelled like the name, -ENOSPC exactly when the leaf is full and no page can be had; otherwise exactly the new entry is added; the pages hold the tree if and only if the buffer slot suits the splits to come; needs the pages to hold the tree, not a sound walk list, and keeps a sound one sound |
| DirFile.MetaFile.DropRight | src/HCFS/dir_entry_btree.c:743-799 | the merged-away page is reclaimed and unlinked, its neighbours patched in memory or in the file |
| DirFile.MetaFile.Rebalance | src/HCFS/dir_entry_btree.c:649-920 | page by page, the file holds the rebalanced tree; pages, reclaim list and walk list stay an exact partition |
| DirFile.MetaFile.ExtractLargest | src/HCFS/dir_entry_btree.c:945-1007 | page by page, the file holds the tree without its largest entry, which is returned |
| DirFile.MetaFile.Delete | src/HCFS/dir_entry_btree.c:486-620 | page by page, the file holds the tree without the name; a sound walk list survives if and only if no stale links are written |
| DirFile.MetaFile.RemoveEntry | src/HCFS/metaops.c:356-467 | 0 exactly when an entry is spelled like the name; exactly such an entry goes; the pages hold the new tree; a sound walk list stays sound if and only if not `LinksLost` |
| DirFile.MetaFile.Lookup | src/HCFS/FS_manager.c:812-865 | finds an entry exactly when one is spelled like the name, and returns it, walk list sound or not |
| DirFile.MetaFile.List | src/HCFS/FS_manager.c:873-936 | with room for them all returns each entry exactly once, otherwise none; the stored count is never found wrong |
| DirListing.WalkListsAll | src/HCFS/FS_manager.c:904-936 | the pages of the walk list hold exactly the entries of the tree |
| DirRun.Perform | src/HCFS/dir_entry_btree.c:124-620 | one insertion, deletion or lookup, answered as by a finite map, with the pages holding the tree before and after |
| DirRun.PutThenGet | src/HCFS/dir_entry_btree.c:124-465 | after an insertion every case variant of the new name finds the new entry on an external mount, only the name itself on an internal one; other names find what they found before |
| DirRun.PerformAll | src/HCFS/dir_entry_btree.c:124-620 | any sequence of them, each insertion with a suitable buffer slot and nothing else asked: all replies are those of a finite map, and the walk list survives if no deletion loses links |
| DirRun.History | src/HCFS/dir_entry_btree.c:124-620 | the same from the creation of the directory |
| DirWitness.Climb | src/HCFS/dir_entry_btree.c:188-465 | ascending insertions from the creation of the directory, whatever the buffer slot holds, make a root of 99 entries, the most it can have, over leaves of 50 and a full last one |
| DirWitness.StaleSplit | src/HCFS/dir_entry_btree.c:385-387 | with its first leaf filled up too, the insertion of a first name splits leaf and root, reports success, and the pages hold the new tree if and only if the unwritten slot happens to hold the right position |
| DirWitness.Ascend | src/HCFS/dir_entry_btree.c:188-620 | more insertions give a sound file of height 2 in which the leaf with the predecessor of the root's entry comes just before the root in the walk list |
| DirWitness.StaleDelete | src/HCFS/dir_entry_btree.c:573-577 | with that leaf and its sibling thinned out, deleting the root's entry succeeds, leaves the pages right, and breaks the walk list |
| RadixIndex.LongPow | src/HCFS/atomic_tocloud.c:125-147 | the loop computes the power, and 0 for a negative exponent |
| RadixIndex.PageLevelMeaning | src/HCFS/metaops.c:814-845 | the level of a page is the one whose range holds it, and there is none beyond the last |
| RadixIndex.SharedPage | src/HCFS/atomic_tocloud.c:155-211 | two blocks have the same status page if and only if they have the same page number |
| RadixIndex.LookupPlace | src/HCFS/atomic_tocloud.c:155-211 | a lookup ends at the page that belongs at that place of the index, or nowhere |
| RadixGrowth.DistinctPlaces | src/HCFS/atomic_tocloud.c:219-334 | different page numbers have different places in the index |
| ProgressFile.ProgressInfo.QueryStatusPage | src/HCFS/atomic_tocloud.c:155-211 | returns where the index leads, 0 if nothing was created |
| ProgressFile.ProgressInfo.CreateStatusPage | src/HCFS/atomic_tocloud.c:219-334 | afterwards the page is there, no earlier page has moved or changed, and every content of the file on the way is sound |
| ProgressFile.ProgressInfo.GetProgressInfo | src/HCFS/atomic_tocloud.c:350-384 | reads the plain map from blocks to statuses, -ENOENT exactly where it has none |
| ProgressFile.ProgressInfo.SetProgressInfo | src/HCFS/atomic_tocloud.c:461-524 | at the block each of the seven fields is what it is told to be, else what it was, else blank; with blanks on a new page, and no change elsewhere; a crash at any write leaves the old or the new status |
| ProgressFile.ProgressInfo.SetThenGet | src/HCFS/atomic_tocloud.c:350-524 | what is set is what is read back, field by field |
| ProgressFile.ProgressInfo.InitProgressInfo | src/HCFS/atomic_tocloud.c:596-719 | records exactly the blocks whose backend status is neither none nor to-delete, with their sequence numbers and identifiers and nothing to upload, skipping missing pages; the action byte changes last |
| ProgressFile.ProgressInfo.SetUpload | src/HCFS/file_present.c:1648-1661 | records the size and the number of blocks to upload, and changes no status |
| ProgressFile.BlocksHold | src/HCFS/metaops.h:33 | that number is the least number of blocks that hold the size |
| ProgressFile.ProgressInfo.ChangeAction | src/HCFS/atomic_tocloud.c:1309-1323 | changes the action byte and no status |
| ProgressRecovery.CompleteMeaning | src/HCFS/atomic_tocloud.c:596-719 | a file with a complete record has exactly those blocks as the backend's |
| ProgressRecovery.ChooseBlocks | src/HCFS/tocloud_tools.c:239-281 | the objects sent for deletion are exactly those the statuses ask for, each once, in block order |
| ProgressRecovery.DeleteBackendBlocks | src/HCFS/tocloud_tools.c:376-520 | the action is recorded first: at every deletion the file has it; and nothing else of the record is changed |
| ProgressRecovery.Upload | src/HCFS/atomic_tocloud.c:596-719 | whatever an upload does to the file, every content it goes through can be recovered from, the backend's blocks and the blocks to upload are recorded before uploading starts, and the file says what it was told |
| ProgressRecovery.ContinueSync | src/HCFS/atomic_tocloud.c:1235-1274 | recovery from any such content: resumes exactly when uploading with the meta file there; otherwise deletes exactly the new objects, never one of the backend's, or exactly the backend's objects that the new meta does not use; the action it writes is the one for that version, and all it writes |
| ProgressRecovery.Resume | src/HCFS/hcfs_tocloud.c:1240-1603 | an upload that goes on: the statuses change as told, and when it is given up or completed exactly the objects of the one or the other version go, after the action for it is written |
| ProgressRecovery.RunSessions | src/HCFS/atomic_tocloud.c:1146-1274 | any number of crashes, each after any write and any number of deletions, each recovery from what the last one left: which version is to stay is chosen once, and over the whole chain no object of it is deleted |
| ProgressRecovery.UploadThrough | src/HCFS/atomic_tocloud.c:1146-1274 | the same from the beginning of the upload |
| AvlTree.ExactIsDepth | src/HCFS/alias.c:515-530 | stored heights are depths |
| AvlTree.TurnedSame | src/HCFS/alias.c:614-670 | all four rotations keep the order of the entries and the heights |
| AvlTree.InsertSound | src/HCFS/alias.c:672-728 | an insertion that goes through adds exactly the entry, on any search tree |
| AvlTree.InsertBalanced | src/HCFS/alias.c:672-728 | into a balanced tree it always goes through and leaves it balanced, at most one level taller; for all other search trees see AvlOutlook.InsertGoesThrough |
| AvlTree.DeleteSound | src/HCFS/alias.c:730-828 | a deletion removes exactly the key, on any search tree, and never turns around a missing child |
| AvlTree.DeleteBalanced | src/HCFS/alias.c:730-828 | it leaves a balanced tree balanced if and only if the tree does not tip, told from the tree before |
| AvlTree.DeleteUnbalances | src/HCFS/alias.c:810-821 | a balanced tree that one deletion leaves unbalanced |
| AvlOutlook.InsertGoesThrough | src/HCFS/alias.c:672-728 | on every search tree with right heights: the insertion goes through if and only if the way down is clear, told from the heights beside it, and the height afterwards |
| AvlOutlook.InsertGrows | src/HCFS/alias.c:672-728 | it takes the tree one level up exactly when every node on the way is even |
| AvlWitness.BalancedReached | src/HCFS/alias.c:672-728 | every balanced tree is reached from the empty one by insertions |
| AvlWitness.ReachesStuck | src/HCFS/alias.c:704-712 | insertions and three deletions from the empty tree, then an insertion that turns around a missing child |
| AliasWitness.Populate | src/HCFS/alias.c:152-346 | requests make every balanced tree of real inodes come about in memory |
| AliasWitness.StuckGroup | src/HCFS/alias.c:152-346 | requests lead to a sound group in which one real inode can have no alias, whatever its spelling |
| AliasWitness.StuckRequest | src/HCFS/alias.c:704-712 | the request for an alias of it fails |
| AliasNodes.AliasMemory.Find | src/HCFS/alias.c:591-612 | the search over linked entries finds the entry with the key, or there is none |
| AliasNodes.AliasMemory.Balance | src/HCFS/alias.c:646-670 | the rotations over linked entries give the turned tree, and touch only its own links |
| AliasNodes.AliasMemory.InsertInto | src/HCFS/alias.c:672-728 | the in-place insertion stores the tree of the insertion, or fails exactly when that is stuck |
| AliasNodes.AliasMemory.DeleteFrom | src/HCFS/alias.c:730-828 | the in-place deletion stores the tree of the deletion and clears the links of the entry |
| AliasName.NameToBitmap | src/HCFS/alias.c:409-425 | the bitmap packs the letter case of the name |
| AliasName.CaseMeans | src/HCFS/alias.c:409-425 | a bit of the bitmap is set exactly where the name has an upper-case letter |
| AliasName.BitmapToName | src/HCFS/alias.c:430-461 | the name restored from it has upper case exactly where the bitmap says |
| AliasName.RoundTrip | src/HCFS/alias.c:409-461 | packing and restoring gives the name back |
| AliasName.VariantsDiffer | src/HCFS/alias.c:480-490 | two spellings of one name have the same bitmap if and only if they are the same |
| AliasName.MapKeyUnique | src/HCFS/alias.c:480-513 | the byte order the trees compare bitmaps by tells different bitmaps apart |
| AliasGroup.AdmitsWhen | src/HCFS/alias.c:672-728 | a tree of the group admits a new key exactly when the way there is clear beforehand |
| AliasGroup.BalancedAdmits | src/HCFS/alias.c:672-728 | a balanced one admits every new key |
| AliasGroup.AlikeInsert | src/HCFS/alias.c:672-728 | what an insertion does to the shape of a tree depends on the keys, not on the addresses of the entries |
| AliasGroup.AlikeDelete | src/HCFS/alias.c:730-828 | nor does a deletion |
| AliasGroup.Aliases.GetReal | src/HCFS/alias.c:117-138 | an alias number stands for its owner, any other number for itself |
| AliasGroup.Aliases.SeekAndAdd | src/HCFS/alias.c:152-218 | returns the alias of that spelling, a new one with a new number if there is none; fails exactly when one of its insertions would meet a missing child |
| AliasGroup.SoughtMeans | src/HCFS/alias.c:152-218 | in plain sets: the alias asked for is in use, it and its real inode are the only ones that may be new, and a new number is the next one |
| AliasGroup.Aliases.Update | src/HCFS/alias.c:230-272 | the real inode has the new spelling and no other, all other names are as before; the alias with that spelling is retired |
| AliasGroup.NewNameMeans | src/HCFS/alias.c:230-272 | the same in plain sets, with what becomes of every alias |
| AliasGroup.Aliases.Delete | src/HCFS/alias.c:282-346 | an alias is retired, or a real inode goes with all its aliases, active and retired |
| AliasGroup.DeletedMeans | src/HCFS/alias.c:282-346 | in plain sets: what becomes of every name and alias, with the return code |
| AliasGroup.Aliases.DeleteAll | src/HCFS/alias.c:830-857 | the whole family is taken out of the order tree and freed |
| AliasGroup.Aliases.FreeUnused | src/HCFS/alias.c:876-894 | all retired aliases of the family are freed, and no other |
| AliasGroup.Aliases.GetName | src/HCFS/alias.c:357-394 | the name in the spelling of the real inode, or, if an alias is wanted, in that of an alias in use, which goes out of use and whose number is returned |
| AliasGroup.NamedMeans | src/HCFS/alias.c:357-394 | in plain sets: only the alias that was given goes out of use |
| AliasHistory.RunSane | src/HCFS/alias.c:97-394 | in every state of every run: numbers and spellings are unique within their scope, every alias has its owner, the three trees agree |
| AliasHistory.NumbersNotReused | src/HCFS/alias.c:400-407 | over whole runs an alias number is never given out twice |
| AliasHistory.ResolvesInRun | src/HCFS/alias.c:117-138 | in every state of every run an alias number resolves to its owner and nothing else |
| AliasHistory.SeekAgain | src/HCFS/alias.c:152-218 | asking again for a spelling returns the same alias and changes nothing |
| AliasHistory.DeleteForgets | src/HCFS/alias.c:282-346 | after a real inode is deleted, none of its alias numbers leads to it |
| AliasHistory.Respell | src/HCFS/alias.c:230-394 | a real inode given a new spelling answers with that very name |
| AliasHistory.Introduce | src/HCFS/alias.c:152-394 | a new real inode answers with the name it came with |
| AliasHistory.Serve | src/HCFS/alias.c:117-394 | one request on the linked trees is the step of the run it asks for, for the inode it names, or fails exactly when an insertion meets a missing child |
| AliasHistory.ServeAll | src/HCFS/alias.c:97-394 | any requests from an empty group, up to the first that meets a missing child, make a run, so what is proved of runs holds of the trees in memory |
| NotifyQueue.Queue.RingEnqueue | src/HCFS/fuse_notify.c:138-147 | the ring gains the item at its end |
| NotifyQueue.Queue.RingDequeue | src/HCFS/fuse_notify.c:197-213 | the ring gives up its first item |
| NotifyQueue.Queue.ListEnqueue | src/HCFS/fuse_notify.c:111-136 | the linked list gains the item at its end, or nothing changes when memory fails |
| NotifyQueue.Queue.ListDequeue | src/HCFS/fuse_notify.c:182-195 | the linked list gives up its first item |
| NotifyQueue.Queue.Enqueue | src/HCFS/fuse_notify.c:149-180 | ring and list together are one queue: the item goes to its end; the wake-up is posted exactly when the queue was empty |
| NotifyQueue.Queue.Dequeue | src/HCFS/fuse_notify.c:215-251 | the first item comes out and one moves from list to ring; nothing is lost when memory fails |
| NotifyProtocol.RunSafe | src/HCFS/fuse_notify.c:149-251 | in every interleaving of producers and consumer the lock is exclusive and the wake-up accounting holds |
| NotifyProtocol.NoLostWakeUp | src/HCFS/fuse_notify.c:149-251 | a waiting consumer with a non-empty queue has its wake-up posted, or a producer is one step from posting it |
| NotifyProtocol.NothingLost | src/HCFS/fuse_notify.c:149-251 | what was sent is what was received followed by what is queued, in order |
| NotifyProtocol.Drive | src/HCFS/fuse_notify.c:149-251 | any schedule carried out on the queue itself: every move does what the protocol says of it, so it is such an interleaving |
| PinTable.Pins.Increase | src/HCFS/file_present.c:1261-1292 | a size is taken from the reservation, then from the limit, or refused with nothing changed |
| PinTable.Pins.Decrease | src/HCFS/file_present.c:1417-1437 | a size is given back to the reservation, then to the pinned size, not below zero |
| PinTable.Pins.PinInode | src/HCFS/file_present.c:1308-1411 | everything below the inode is pinned, or for lack of space a part of it; the books stay balanced with what is left of the reservation; hard links count once; 1 is returned for a file that was pinned already |
| PinBook.ReachMeans | src/HCFS/file_present.c:1358-1408 | what a pin reaches from an inode is the least set with it that has everything listed in its directories |
| PinBook.ReachAllMeans | src/HCFS/api_interface.c:547-580 | from a list it is what is reached from one of its inodes |
| PinTable.Pins.UnpinInode | src/HCFS/file_present.c:1459-1561 | everything below is unpinned and exactly its space is given back |
| PinTable.Pins.PinHandle | src/HCFS/api_interface.c:537-599 | all of the list or none is pinned; the exact condition, reservation below zero included, for balanced books |
| PinTable.Pins.PinRequest | src/HCFS/api_interface.c:1231-1286 | the PIN command with an unchecked reservation: all its outcomes and return codes by the limit of the pin type; a failed one leaves the flags as they were if and only if nothing it reached was pinned; balanced books if and only if the request is refused or settles |
| PinTable.Pins.UnpinRequest | src/HCFS/api_interface.c:601-625 | the UNPIN command: the list is unpinned, its space given back, balanced books stay balanced |
| PinTable.RollBackRestores | src/HCFS/api_interface.c:575-599 | unpinning a set of files, as the roll back does, leaves the flags as they were if and only if none of them was pinned |
| PinTable.LostPin | src/HCFS/api_interface.c:575-599 | a failed request that unpins a file pinned before |
| PinTable.NegativeReservation | src/HCFS/api_interface.c:1231-1286 | a request with a negative reservation after which the pinned size is below zero |
| DirStats.Statistics.UpdateParent | src/HCFS/dir_statistics.c:204-243 | the change is added to the directory and each of its ancestors, once |
| DirStats.UnderMeans | src/HCFS/dir_statistics.c:204-243 | a directory is below another if and only if the way up by parents leads there |
| DirStats.Statistics.UpdateFile | src/HCFS/dir_statistics.c:129-191 | it is added for every parent of the file |
| DirStats.Statistics.Create | src/HCFS/file_present.c:208-354 | a new file counts one local in its directory and all above, and keeps every directory's counts due |
| DirStats.Statistics.LinkFile | src/HCFS/file_present.c:1145-1235 | so does a hard link, by where the file is stored |
| DirStats.Statistics.LinkOther | src/HCFS/file_present.c:1224-1235 | a link to any other file is counted, and stays counted |
| DirStats.Statistics.Unlink | src/HCFS/file_present.c:583-708 | the removal of a link to a regular file takes its counts back, and keeps every directory's counts due |
| DirStats.Statistics.UnlinkOther | src/HCFS/file_present.c:698-708 | the removal of any other link counts nothing |
| DirStats.Statistics.Relocate | src/HCFS/dir_statistics.c:129-191 | so does a change of where a file's blocks are |
| DirStats.Statistics.Mkdir | src/HCFS/dir_statistics.c:88-116 | so does a new directory, which is directly in its parent and has no counts |
| DirStats.Statistics.Rmdir | src/HCFS/file_present.c:734-810 | so does the removal of an empty directory; no other directory's counts change |
| DirStats.Statistics.MoveDir | src/HCFS/fuseop.c:2542-2617 | so does the rename of a directory: the counts of its whole subtree go from one chain of ancestors to the other |
| DirStats.Statistics.MoveFile | src/HCFS/fuseop.c:2542-2617 | so does the rename of a regular file |
| DirStats.Statistics.MoveOther | src/HCFS/fuseop.c:2588-2614 | the rename of any other file moves no counts: they stay with the directory it was made in |
| DirStats.DueHandover | src/HCFS/fuseop.c:2588-2614 | after the move of a directory the ancestors of the new parent only are due its counts more, those of the old parent only its counts less, all others what they were |
| DirStats.ExactWhen | src/HCFS/dir_statistics.c:129-243 | the counts are those of the regular files below if and only if no other file was made or linked below |
| DirStats.FifoMiscounts | src/HCFS/file_present.c:345-354 | a fifo made and removed again: an empty directory that counts one file |
| FileTable.Table.Open | src/HCFS/filetables.c:94-139 | a free handle, refused exactly when all are in use; no other handle changes; a directory handle remembers the content at its opening |
| FileTable.Table.Close | src/HCFS/filetables.c:149-218 | the handle is free again, or was not open; no other handle changes |
| FileTable.Table.Snapshot | src/HCFS/filetables.c:230-320 | -EIO exactly when some open handle of the directory has no copy and the copy cannot be made or that handle cannot open it; otherwise every such handle has a copy of the content at the call, and nothing else changes |
| FileTable.Table.ChangeDir | src/HCFS/metaops.c:105-200 | fails exactly then, with nothing changed; over any changes every directory handle shows the content at its opening |
| ApiWindow.Load.Advance | src/HCFS/api_interface.c:1687-1707 | moving on clears exactly the seconds that have gone out of the window |
| ApiWindow.Load.Record | src/HCFS/api_interface.c:1622-1645 | a finished job is counted in its second; the window stays right if and only if the job is not older than it |
| ApiWindow.Load.Monitor | src/HCFS/api_interface.c:1687-1725 | the totals are the number of jobs of the last window and the time they took, as the plain history has them |
| ApiWindow.LateJob | src/HCFS/api_interface.c:1622-1645 | a job that finishes a window late makes the window wrong |
| ApiWindow.TotalIsRecent | src/HCFS/api_interface.c:1722-1725 | the sums over the slots are that number and that time |
| Base64.Encode | src/HCFS/b64encode.c:43-107 | the loop over three-byte groups computes the encoding, with its length |
| Base64.CodeIsAlphabet | src/HCFS/b64encode.c:30-31 | the codes are the 64 characters of section 4 of RFC 4648 |
| Base64.EncodedAt | src/HCFS/b64encode.c:43-107 | character by character: the letter of the next six bits, as many as it takes, then the padding |
| Base64.Decode | src/HCFS/b64encode.c:148-189 | the loop computes the unpacking of the values, with its two error returns |
| Base64.DecodeTableMeans | src/HCFS/b64encode.c:109-134 | a character has the value of its place in the alphabet, or is skipped, or is not allowed |
| Base64.RoundTrip | src/HCFS/b64encode.c:43-189 | decoding gives back the encoded bytes, through any skipped characters; the reported length is right if and only if it is not a multiple of three |
| Base64.ShortLength | src/HCFS/b64encode.c:187 | any three bytes come back from the decoding with length 2 |
| Base64.EncodedLength | src/HCFS/enc.c:39-46 | the encoding has exactly the length callers reserve |

## Left out

- Parent positions in B-tree pages: not maintained for moved grandchildren, and nothing modelled reads them.
- Failures of reads and writes, file locks, semaphores other than those of the notification queue, and logging.
- DirRun.PerformAll: asks for a suitable buffer slot at each insertion; what the file answers after an insertion that left it not holding its tree is not described.
- DirFile.MetaFile.List: asks for a sound walk list; what a walk over a broken one shows is not described.
- DirFile.MetaFile.AddEntry: the copy of the header to the file, the cut of names at 255 bytes, link counts and time stamps are not modelled, nor is the creation of a file system's root inode around the same steps (`src/HCFS/FS_manager.c:398-613`).
- DirFile.MetaFile.RemoveEntry: link counts and time stamps are not modelled, nor are the checks around the same steps that a file system to delete is not mounted and is empty (`src/HCFS/FS_manager.c:641-790`).
- RadixIndex.LongPow: does not model overflow of 64-bit integers.
- ProgressRecovery.Upload: the uploads themselves and their threads are a sequence of status changes that leave the recorded backend status alone; deduplication variants of the same routines are not modelled.
- ProgressRecovery.ContinueSync: paths and the presence of files are parameters.
- AliasGroup.Aliases.SeekAndAdd: memory exhaustion and calls from several threads are not modelled, and a freed entry's address is not given out again.
- PinTable.Pins.PinRequest: starts from balanced books; a request after one that left them unbalanced is not described, and the marks in the super block are not modelled.
- DirStats.Statistics.MoveDir: the removal of a rename's former target is a step of its own, `Unlink` or `Rmdir`.
- NotifyProtocol.Drive: the shutdown of the notification loop is not modelled.
- ApiWindow.Load.Record: counters are unbounded and elapsed times are real numbers.
- FileTable.Table.Open: the fields of an opened file other than its inode and kind are not modelled.
- Everything else under `src/HCFS` (caches, super block, download and upload managers, sockets, event notification, restoration), and the other programs of the repository.
