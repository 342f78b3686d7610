# Piux kernel: a verified model

Piux is a small 32-bit x86 kernel. This project models the parts of it that compute something hard to
see from one function, and proves what they are for:

- the **ext2 engine** (`kernel/ext2.c`): allocator, pointer tree, directory records, files, paths;
- the **integer calculator** (`bin/numix.c`);
- the **stream and digest code**: HTTP download (`kernel/http.c`) over the one-segment TCP receiver
  (`kernel/tcp.c`), the Internet checksum (`kernel/net.c`), SHA-256 and the account file
  (`kernel/auth.c`).

`dafny verify dfyconfig.toml` checks everything.

## How the engine is built up

The source works on bytes through one shared 4 KB buffer. The model has both levels.

1. *Volume.* `Volume.dfy`, `PointerTree.dfy`, `Files.dfy`, `Release.dfy`, `DirBlock.dfy`, `Directory.dfy`,
   `FileSystem.dfy`, `Paths.dfy` and `Runs.dfy` state what each function of the engine does as a function
   on values, with every branch and every way to fail. `Ownership.dfy` adds the map from blocks to
   (inode, role) that the code never writes down, and proves what happens to it; `FileSystem.dfy` then
   looks at a volume as a map from inodes to contents and at each operation as an update of that map;
   `Tree.dfy` says that the names form a tree with the root on top. The end results are in `Guarantees.dfy`
   (what a user sees), `Lookup.dfy` (where every path leads), `Entries.dfy` (exactly one entry for each file),
   `Kinds.dfy` and `Listing.dfy` (file types and listings), `Conservation.dfy`, `Books.dfy` and `Inodes.dfy`
   (what operations cost, and runs that leak no block and no inode).
2. *Bytes.* `DiskImage.dfy` says which volume an image stands for: superblock words, group descriptors,
   bitmaps bit by bit, 128-byte inode records, data blocks. `OnDisk.dfy` says the same a second time, of the
   disk as one array of bytes and of the C structures field after field. `Ext2.dfy` is a class with the disk,
   the two buffers, the cached superblock and the current directory, and a method for each function of the
   source, with its loops. Each method is proved to leave the disk standing for exactly the volume that the
   function of level 1 gives, and whatever none of these structures uses as it was at mounting
   (`Margins.dfy`); `Steps.dfy` holds the one-pass facts those loops need.

The other parts go the same way: a function for what the code computes, a method for the code. What the
functions themselves are is told once more in terms that do not mention them: `Operators.dfy`, `Spacing.dfy`
and `Refusals.dfy` by equations between texts and numbers, `Segments.dfy` by frames written out byte by byte,
`WordBits.dfy` and `Fips180.dfy` by bits, roots of primes and the published digest of "abc".

An inode in use whose number is below `first_ino`, other than the root, is reserved: its blocks count as
fixed metadata.

## Assumptions

- The geometry is one `ext2_mount` accepts, each bitmap fits one block (which mounting does not check),
  and numbers of blocks and inodes are below 2^31 (`Geometry.Sound`).
- Reading and writing a block in range succeeds. Allocation may fail at any time.
- File sizes are below 2^31.
- The initial image has no holes, no triple indirect blocks and no hard links to regular files, and free
  slots of the inode table are blank; its directories name regular files and directories only, no symbolic
  links or devices (`Sane`). Results about entries, leaks and file types start from an image that has none of
  those faults to begin with (`Tidy`, `Balanced`, `NoneWasted`, `DirsCounted`, `KindsRight`). `Formatted.Format`
  and `Kinds.FormattedKinds` show that such an image exists.
- C strings contain no NUL. The user identity that new inodes record is a parameter.
- The next hop is in the ARP cache, so handling a segment is one step; a peer's segment carries at most
  1460 bytes (of a longer one the receiver stores 1460 bytes and acknowledges all: `StoredAndCounted`) and its
  stream is shorter than 2^32. The frames that arrive are a finite sequence; where the
  source would go on polling a silent card, the model stops.

## Where the code differs from what one might expect

- `~` alone resolves to the root, but its parent and name are split as if it were a file in the current
  directory (`TildeIsRoot`). `PathAgreement` gives the exact condition.
- The text printed for INT_MIN does not evaluate back (`SmallestOverflows`).
- A FIN is obeyed wherever it stands in the stream, unlike section 3.10.7.4 of RFC 9293, so a download can
  stop short. `CloserCompletes`, `DeliveredExactly` and `WholeMeansRelayed` say exactly when it does not.
- A creation that finds no place for the name leaves an inode without an entry, for good. The condition is
  `FileLeftLoose` and `DirLeftLoose`; `RunKeepsTidy` says that nothing else does.
- A write that runs out of blocks half-way leaks the ones it took, for good. The condition is `Starved`;
  `RunKeepsBalanced` says that nothing else does. Even then no block gets two owners.
- Making a directory when no block is free takes an inode in vain, for good: its bit stays set and nothing is
  written to it. The condition is `InodeTakenInVain`; `RunWastes` counts such inodes, and says that there are
  no others.

## Model

| member | source | states |
|---|---|---|
| `Runs.RunKeepsSane` | kernel/ext2.c:525-739 | Over every run of create, mkdir, write, delete and cd by path, whether each step succeeds or fails at any point, the invariant holds: counts agree with bitmaps, every owned block has one owner and is marked used, every pointer tree and directory is well formed, every name leads to a live inode made for that entry, and each directory but the root is one name deeper than the directory its ".." leads to |
| `Runs.StepKeepsSane` | kernel/ext2.c:593-739 | The same for a single request, whatever its path and however it ends |
| `Runs.StepWith` | kernel/ext2.c:525-739 | One request, with the records that witness the invariant: what becomes of the entries and of the books, told by conditions on the state before it |
| `Guarantees.OneOwner` | kernel/ext2.c:225-248 | In every reachable state no block plays two parts (data block, pointer table, child table, of whatever files), and a block that plays a part is marked used and is not fixed metadata |
| `Guarantees.CountsAgree` | kernel/ext2.c:225-273 | In every reachable state the superblock counts equal the sums of the group counts and each group count equals the clear in-range bits of its bitmap |
| `Guarantees.NamesLeadSomewhere` | kernel/ext2.c:448-495 | In every reachable state each directory entry names a live inode marked used, and no inode has two entries other than "." and ".." |
| `Guarantees.LinksCountSubdirectories` | kernel/ext2.c:544-585 | In every reachable state a directory has 2 links plus one for each subdirectory (in 16 bits) |
| `Guarantees.DotsLead` | kernel/ext2.c:564-577 | In every reachable state looking up "." gives the directory itself and ".." the directory that names it, the root being its own parent |
| `Guarantees.UpLeadsToParent` | kernel/ext2.c:291-314 | In every reachable state, appending "/.." to a path that leads to a directory leads to the one that names it |
| `Entries.RunKeepsTidy` | kernel/ext2.c:525-585 | From a state in which every live inode but the root has exactly one entry, a run ends in such a state if and only if no request of it was a creation for which an inode was free and the name too, but neither a slot in the directory nor a block to grow it by (or a thirteenth would have been needed); a new directory's own block counts |
| `Entries.StepKeepsTidy` | kernel/ext2.c:525-585 | The same if-and-only-if for one request |
| `Entries.ExactlyOneEntry` | kernel/ext2.c:448-495 | In such a state every file and directory other than the root has one entry and no more |
| `Entries.TidyMeansNoneLoose` | kernel/ext2.c:525-585 | A reachable state is such a state exactly when no live inode is without an entry |
| `Entries.LooseForGood` | kernel/ext2.c:525-739 | An inode left without an entry stays so for the rest of any run |
| `Entries.ReachedFromRoot` | kernel/ext2.c:291-314 | In such a state every file and directory is reached from the root by following names downwards |
| `Trees.Reached` | kernel/ext2.c:291-314 | The names that lead there, going up by the depth of each directory, lead down to the inode |
| `Guarantees.WriteThenRead` | kernel/ext2.c:593-641 | After a successful write by path, reading that path gives exactly the first min(n, size) bytes written, in the direct, single and double indirect regions alike |
| `Guarantees.WriteLeavesOthers` | kernel/ext2.c:637-641 | A write, successful or not, leaves every other file readable as before under every path that led to it |
| `Guarantees.RefusedWriteKeeps` | kernel/ext2.c:637-641 | A refused write leaves the file at its path as it was; where there was none there is still none, or an empty one |
| `Guarantees.CreatedPathResolves` | kernel/ext2.c:605-635 | A path just created, as a file or a directory, resolves to the inode the creation returned if and only if it is not "~" |
| `Guarantees.DeleteForgets` | kernel/ext2.c:697-739 | After a successful delete the path resolves to nothing if and only if it is not "~"; a refused one changes nothing at all; and every file other than the one deleted reads as before under every path that led to it |
| `Guarantees.PathAgreement` | kernel/ext2.c:279-340 | For an accepted path, resolving it agrees with looking up the split name in the resolved parent if and only if the path is not "~" alone and, when the name is ".", the parent (if found) is a directory |
| `Guarantees.TildeIsRoot` | kernel/ext2.c:291-340 | The path "~" does break the agreement in every reachable state: it resolves to the root, while its split name is looked up in the current directory |
| `Paths.ResolvesThroughParent` | kernel/ext2.c:291-340 | Resolving an accepted path other than "~" is resolving the parent and then taking one component, "." being the parent itself, on any volume |
| `Lookup.LookupWalks` | kernel/ext2.c:279-314 | In a sane state, looking up any path follows its names, "." left out, down the tree: from the root if the path begins with a slash or is "~" or begins with "~/", from the current directory otherwise; it leads nowhere if a name is not bound on the way or is longer than 255 bytes |
| `Lookup.AbsoluteLookup` | kernel/ext2.c:291-314 | Names of 1 to 255 bytes without slash or NUL, none of them ".", spelled "/n1/../nk": the path leads where the names lead from the root |
| `Lookup.TildeLookup` | kernel/ext2.c:296-299 | So does "~/n1/../nk" |
| `Lookup.RelativeLookup` | kernel/ext2.c:291-314 | Spelled without the first slash it leads where the names lead from the current directory, unless n1 is "~" |
| `Lookup.RunKeepsSpelled` | kernel/ext2.c:525-739 | After any run every bound name can be spelled in a path, if it was so before and no path of the run has a NUL in it |
| `Lookup.AbsolutePath` | kernel/ext2.c:291-314 | With such names every file and directory of a tidy state has an absolute path that leads to it, from whatever current directory |
| `Lookup.SplitAccepts` | kernel/ext2.c:316-328 | A path is split if and only if it has 1 to 255 bytes and does not end in a slash |
| `Lookup.SplitIs` | kernel/ext2.c:325-338 | The name is what follows the last slash, the parent what comes before it, "/" if that is nothing |
| `Lookup.CdEnters` | bin/cd.c:9-34 | cd enters the directory that the path leads to, and does nothing if it leads to none |
| `Formatted.Format` | kernel/ext2.c:79-110 | The engine can be mounted on a small disk laid out byte by byte, and with a root directory made on it all the invariants that the results about runs start from hold |
| `Formatted.FreshUnused` | kernel/ext2.c:79-110 | The volume that image stands for, bit by bit: seven blocks of metadata, ten reserved inodes, and nothing else in use |
| `Formatted.RootMade` | kernel/ext2.c:544-585 | Making the root directory on an unused volume gives a sane, tidy and balanced state in which no inode is wasted and every directory counts its blocks |
| `Formatted.FromFormatted` | kernel/ext2.c:525-739 | From a formatted disk on, after any run: the invariant and the counts of directories hold; every file and directory has its entry, no block is in use for nothing, and no inode is, each if and only if no request of the run met the condition under which the source leaves an entry out, loses blocks, or loses an inode |
| `Kinds.RunKeepsKinds` | kernel/ext2.c:525-739 | Over every run, failures included, the file type byte of each directory entry is 2 if the entry leads to a directory and 1 if it leads to a file, so that a listing tells them apart |
| `Kinds.StepKeepsKinds` | kernel/ext2.c:525-739 | The same for one request |
| `Kinds.KindsMean` | kernel/ext2.c:463-489 | What that says of each entry of each directory of a reachable state |
| `Kinds.FormattedKinds` | kernel/ext2.c:564-577 | It holds from a formatted disk on |
| `Listing.ListingIs` | kernel/ext2.c:497-523 | In such a state listing a directory gives one line for each of its entries and no other, and tells directories from files as they are |
| `Listing.PrintDirContents` | kernel/ext2.c:497-523 | The loops of the listing, through the shared buffer, give those lines, or the error message if there is no such directory |
| `Kinds.EntryBytes` | kernel/ext2.h:101-107 | Inode number, record length, name length, file type and name stand in this order, in 4, 2, 1, 1 and name-length bytes |
| `Kinds.RequiredIs` | kernel/ext2.c:450 | A record takes the least multiple of 4 that its header of 8 bytes and its name fit in |
| `Kinds.AddInKinds` | kernel/ext2.c:455-479 | An added entry has the type it was added with, and the others of the block keep theirs |
| `Kinds.RemoveInKinds` | kernel/ext2.c:676-693 | Removing a name drops its type and no other |
| `Kinds.DotKinds` | kernel/ext2.c:564-577 | Both entries of a new directory are of the type of a directory |
| `Conservation.WriteAccounts` | kernel/ext2.c:422-446 | A write to a file with its tables in order succeeds if and only if the file is not longer than the buffer, the buffer not longer than the double indirect region reaches, and as many blocks are free as data and tables grow by; it then takes just those and leaves inode.blocks equal to the blocks the tree really holds; when only blocks are missing it uses up the free ones; refused otherwise, it changes nothing |
| `Conservation.WriteLedger` | kernel/ext2.c:422-446 | A write puts every block it takes on record, keeps the file accounted and without lost blocks unless it runs out half-way, and if it does the first block it took is lost behind the end of the file |
| `Conservation.DeleteLedger` | kernel/ext2.c:697-739 | A delete drops the records of the file and leaves none of its blocks in use that had not been lost before |
| `Conservation.DeleteAccounts` | kernel/ext2.c:716-736 | Giving back an accounted file returns exactly inode.blocks worth of free blocks |
| `Conservation.DeleteReleases` | kernel/ext2.c:697-739 | A delete clears exactly the bits of the blocks the file owns, each once, and no others |
| `Conservation.CreateWriteDeleteRestores` | kernel/ext2.c:525-542 | Create, write and delete of one name restore the view, both bitmaps and every free count, when the directory did not have to grow |
| `Conservation.SetInodeBlockCost` | kernel/ext2.c:387-420 | Setting the next logical block succeeds if and only if the tables the closed form grows by are free, and allocates exactly those |
| `Conservation.GrowFileCost` | kernel/ext2.c:433-436 | Growing a file from m to n blocks succeeds if and only if the closed-form difference in data plus metadata is free, costs just that, and otherwise uses up what is free |
| `Conservation.MetadataStep` | kernel/ext2.c:31-42 | The closed form grows by one table when the single or double indirect region is entered and by one for each new child table |
| `Conservation.TreeSizeIsCost` | kernel/ext2.c:716-731 | The blocks hanging from an exact pointer tree are as many as the closed form says |
| `Books.RunKeepsBalanced` | kernel/ext2.c:525-739 | After any run from a balanced state, whatever in it failed, the used blocks that are not metadata are exactly those that fill a place in the tree of a live inode if and only if no write of the run ran out of blocks half-way; and then every file is accounted |
| `Books.LostForGood` | kernel/ext2.c:643-661 | A block once lost stays in use without a place for the rest of any run |
| `Books.StepLeaks` | kernel/ext2.c:422-446 | A request on a balanced state leaks blocks if and only if it is a write for which fewer blocks are free than it needs, but some |
| `Books.RunKeepsFile` | kernel/ext2.c:422-446 | Whatever happens to other files: after any run in which no write to inode i ran out of blocks half-way, i is accounted and has lost nothing it was ever given, by a record that was continued honestly at every step; this covers files made during the run |
| `Inodes.RunWastes` | kernel/ext2.c:553 | From any sane state, a run leaves exactly one more inode marked used and holding nothing for each request of it that makes a directory when the name and an inode are free and no block is; what else fails or succeeds has no bearing on it, and no such inode ever comes back |
| `Inodes.RunKeepsInodes` | kernel/ext2.c:525-585 | Leak-freedom of inodes: from a state in which the inodes in use from first_ino on are the files and directories, a run ends in such a state if and only if it has no such request; a state without it never regains it |
| `Inodes.StepInodes` | kernel/ext2.c:525-585 | One request, whatever its path and its end, wastes an inode exactly under that condition, told by the state before it, and keeps the block count of every directory right |
| `Inodes.NoneWastedMeans` | kernel/ext2.c:250-280 | In a sane state the inode bits from first_ino on are set just where there is a file or a directory if and only if the set of wasted inodes is empty |
| `Inodes.RunKeepsDirsCounted` | kernel/ext2.c:492-493 | If blocks times 512 is the size of every live directory, it is so after any run, failures and lost blocks included |
| `Inodes.RunKeepsDirCounted` | kernel/ext2.c:492-493 | The same for one directory, whatever the counts of others; an inode that becomes a directory during the run is counted right |
| `Books.LeakFreeMeans` | kernel/ext2.c:225-248 | No block leaked exactly when every used block is on record and every record has its place |
| `Books.BalancedMeans` | kernel/ext2.c:31-42 | Balance means no leak and right counts for every file |
| `FileSystem.NewFileGood` | kernel/ext2.c:525-542 | A new file has no blocks on record and counts none |
| `FileSystem.UntouchedGood` | kernel/ext2.c:422-446 | A file stays accounted and without lost blocks while other inodes are worked on |
| `Volumes.AllocateBlockLowest` | kernel/ext2.c:225-248 | Allocation finds the lowest free block, in range, or fails exactly when none is free; it then marks that one block |
| `Volumes.AllocateInodeLowest` | kernel/ext2.c:250-273 | Allocation finds the lowest free inode not reserved, or fails exactly when none is free; it then marks that one inode |
| `Volumes.AllocationNeedsFree` | kernel/ext2.c:225-248 | A block is found if and only if the superblock counts one free, and otherwise nothing changes |
| `Volumes.TakeBlockAgreement` | kernel/ext2.c:236-243 | Taking a free block keeps bitmap, group count and superblock count in agreement |
| `Volumes.FreeBlockAgreement` | kernel/ext2.c:643-661 | Freeing a used block finds its group and bit again, clears that bit alone and keeps all counts in agreement |
| `Volumes.TakeInodeAgreement` | kernel/ext2.c:260-268 | Taking a free inode keeps bitmap, group count and superblock count in agreement |
| `Volumes.FreeInodeAgreement` | kernel/ext2.c:663-674 | Freeing a used inode clears its bit alone and keeps all counts in agreement |
| `Volumes.CountsFit` | kernel/ext2.c:236-243 | Agreeing counts fit their 16 and 32-bit fields, so no decrement or increment wraps |
| `Volumes.BitmapsDetermineCounts` | kernel/ext2.c:225-273 | Two agreeing volumes with the same bitmaps have the same counts |
| `Geometry.MountCovers` | kernel/ext2.c:79-110 | The geometries mounting accepts have groups that cover every block and every inode |
| `Geometry.GroupOfBlock` | kernel/ext2.c:643-651 | A block lies in exactly one group, the one the division names |
| `Geometry.GroupOfInode` | kernel/ext2.c:663-666 | An inode lies in exactly one group, the one the division names |
| `Geometry.InodeNeverStraddles` | kernel/ext2.c:96-97 | The divisibility mounting checks makes an inode record never cross a block boundary |
| `OnDisk.MountAccepts` | kernel/ext2.c:88-103 | Mounting accepts a superblock if and only if the magic number, block size, group sizes, first data block, features and inode size are in order |
| `OnDisk.MountReads` | kernel/ext2.c:94-104 | The block size is 1024 shifted by its logarithm, an inode size of 0 means 128, every other number is the field of that name, and the groups are the fewest that cover all blocks and all inodes |
| `OnDisk.SuperblockRoundTrip` | kernel/ext2.h:24-64 | Of the 1024 bytes of an ext2_superblock_t, its fields one after the other, mounting reads back each field it uses, whatever is in the others |
| `OnDisk.SuperblockAt` | kernel/ext2.c:72-77 | On the disk as one array of bytes the superblock is at address 1024, whatever the block size |
| `OnDisk.DescriptorAt` | kernel/ext2.c:46-57 | The descriptor of group k is at 32 * k behind the first block boundary after the superblock |
| `OnDisk.DescriptorRoundTrip` | kernel/ext2.h:66-75 | Of the 32 bytes of an ext2_group_descriptor_t, field after field, each one used reads back |
| `OnDisk.InodeAt` | kernel/ext2.c:132-159 | The record of an inode is entry j of the inode table its group descriptor points to |
| `OnDisk.BlockBitAt` | kernel/ext2.c:225-239 | Block j of a group is in use if and only if bit j % 8 of byte j / 8 of the bitmap its descriptor points to is set, or it comes before the first data block |
| `OnDisk.InodeBitAt` | kernel/ext2.c:250-264 | The same for inodes |
| `OnDisk.BitWeight` | kernel/ext2.c:234-239 | Bit k is the one of weight 2^k |
| `OnDisk.CountsAt` | kernel/ext2.c:46-57 | The free counts of a group are bytes 12 to 15 of its descriptor |
| `OnDisk.VolumeIs` | kernel/ext2.c:79-110 | The volume of an image is made of these, and of the contents of the blocks that are not fixed metadata |
| `OnDisk.TableEntryAt` | kernel/ext2.c:197-201 | Entry k of a pointer table is the four bytes at 4 * k of its block |
| `OnDisk.FileByteAt` | kernel/ext2.c:364-380 | Byte k of a file is byte k % block_size of the block that holds its logical block k / block_size |
| `Margins.GroupMargin` | kernel/ext2.c:59-70 | Writing a group descriptor changes no byte of any but its two free counts |
| `Margins.SuperblockMargin` | kernel/ext2.c:72-77 | Writing the superblock changes no byte but its two free counts |
| `Margins.BitmapMargin` | kernel/ext2.c:236-264 | Marking a block or an inode changes no bit of a bitmap that stands for none |
| `Margins.InodeMargin` | kernel/ext2.c:161-195 | Writing an inode changes nothing behind the first 128 bytes of a record |
| `Margins.SuperStarts` | kernel/ext2.c:79-87 | What mounting reads is the superblock of the image, so that all of this holds of the image as it was mounted |
| `PointerTree.MappedRules` | kernel/ext2.c:203-223 | What the pointer walk yields in each of the three regions |
| `PointerTree.TripleRules` | kernel/ext2.c:214-222 | What it yields in the triple indirect region, digit by digit, and that it yields nothing beyond |
| `Ownership.SetInodeBlockUpdates` | kernel/ext2.c:387-420 | A successful set at l makes l map to p and leaves every other logical index mapped as it was, with up to two tables allocated on the way; failed or not, no block gets two owners and other files are untouched; l beyond the double indirect region fails |
| `Ownership.SetIndirect` | kernel/ext2.c:397-402 | The same for the single indirect region, with or without a new table |
| `Ownership.SetDoubly` | kernel/ext2.c:404-418 | The same for the double indirect region, with none, one or two new tables |
| `Files.GrowFileGrows` | kernel/ext2.c:433-436 | The growing loop adds one owned data block for each new logical index and keeps the ones there were |
| `Files.FillFileFills` | kernel/ext2.c:437-442 | The filling loop puts each piece of the buffer, zero padded, into its own block and changes no other file and no mapping |
| `Files.WriteFileWrites` | kernel/ext2.c:422-446 | A successful write makes the content the buffer and changes the inode only in size, blocks and pointers; a refused one keeps the content; both change nothing outside this file |
| `Files.ReadFromContent` | kernel/ext2.c:364-380 | The reading loop yields the content between two offsets |
| `Release.FreeFileFrees` | kernel/ext2.c:716-731 | The freeing loops release exactly the blocks of the tree, each once |
| `Release.FreeDataFrees` | kernel/ext2.c:716-720 | The first loop releases exactly the mapped data blocks |
| `Release.FreeChildrenFrees` | kernel/ext2.c:724-729 | The last loop releases exactly the child tables listed in the doubly indirect block |
| `DirBlock.FindInNames` | kernel/ext2.c:342-362 | Scanning a block of records looks a name up in the map the block stands for |
| `DirBlock.AddInBinds` | kernel/ext2.c:455-479 | Adding to a block by reusing a free record or splitting one keeps the tiling and the uniqueness of names and binds just the new name |
| `DirBlock.AddInNeedsRoom` | kernel/ext2.c:455-479 | The loop finds a place for a name if and only if some record of the block leaves room for one of its length |
| `DirBlock.RemoveInUnbinds` | kernel/ext2.c:676-693 | Removing from a block succeeds exactly when the name is there, keeps the tiling and unbinds just that name |
| `DirBlock.SingleRecord` | kernel/ext2.c:484-491 | A cleared block with one record over its whole length is well formed and binds one name |
| `Directories.FindInDirLooksUp` | kernel/ext2.c:342-362 | Searching a directory looks the name up in the map its blocks stand for together |
| `Directories.AddFromBinds` | kernel/ext2.c:448-495 | Adding a fresh name over all blocks, and in a new block if need be, binds it and nothing else |
| `Directories.AddEntrySucceeds` | kernel/ext2.c:448-495 | Adding succeeds if and only if some block has room, or there are fewer than 12 blocks and one is free |
| `Directories.AddBlockBinds` | kernel/ext2.c:481-494 | Appending a block to a directory binds the new name and keeps the others |
| `Directories.RemoveFromUnbinds` | kernel/ext2.c:676-693 | Removing succeeds exactly when the name is bound and unbinds just it |
| `FileSystem.WriteStep` | kernel/ext2.c:422-446 | Seen as a map from inodes to contents, a write replaces one file or nothing |
| `FileSystem.WriteNeedsRoom` | kernel/ext2.c:427-428 | A write succeeds only on a regular file no longer than the buffer |
| `FileSystem.ReadSeesView` | kernel/ext2.c:364-380 | Reading a file yields the first bytes of its content in that map |
| `FileSystem.FindSeesView` | kernel/ext2.c:342-362 | Searching a directory yields its binding in that map |
| `FileSystem.CreateFileStep` | kernel/ext2.c:525-542 | Creating binds a fresh inode with an empty file and puts every block it takes on record; it succeeds if and only if the name is free, an inode is free and the directory can take the name, and leaves behind an inode without an entry if and only if just the last is missing |
| `FileSystem.CreateDirectoryStep` | kernel/ext2.c:544-585 | Creating binds a fresh directory holding "." and ".." and adds a link to its parent; success and leaving a directory without an entry have the same conditions, with a block for the new directory taken first |
| `Inodes.CreatedFileRecord` | kernel/ext2.c:525-542 | The record of a new file: mode 0x81A4, the user, one link, no block, zeros elsewhere; all other inodes but that of the directory stay as they were |
| `Inodes.CreatedDirectoryRecord` | kernel/ext2.c:544-585 | The record of a new directory: mode 0x41ED, the user, two links, one block of size, and zeros elsewhere |
| `FileSystem.DeleteFileStep` | kernel/ext2.c:697-739 | Deleting succeeds exactly on a bound regular file; it removes the binding and the inode and nothing else, and refused it changes nothing |
| `Trees.CreatedTree` | kernel/ext2.c:525-585 | Binding a fresh inode keeps right link counts, ".." leading to the directory above, depths from the root, and every inode bound where it was |
| `Trees.WrittenTree` | kernel/ext2.c:422-446 | Replacing the content of a file keeps all that |
| `Trees.DeletedTree` | kernel/ext2.c:697-739 | Unbinding a file keeps all that |
| `DiskImage.InodeRoundTrip` | kernel/ext2.c:132-195 | Decoding the 128 bytes of an encoded inode gives the inode back |
| `DiskImage.InodeRecordsApart` | kernel/ext2.c:132-195 | The records of two inodes occupy disjoint byte ranges |
| `DiskImage.WriteRecord` | kernel/ext2.c:161-195 | Splicing an encoded inode into its block changes that inode of the volume and nothing else |
| `DiskImage.WriteBlockBitmap` | kernel/ext2.c:236-239 | Changing one bit of a block bitmap changes one block of the volume and nothing else |
| `DiskImage.WriteInodeBitmap` | kernel/ext2.c:260-264 | Changing one bit of an inode bitmap changes one inode of the volume and nothing else |
| `DiskImage.WriteDescriptor` | kernel/ext2.c:59-70 | Splicing a group descriptor into its block changes the two counts of that group and nothing else |
| `DiskImage.WriteContents` | kernel/ext2.c:123-130 | Writing a block that is not fixed metadata changes its contents and nothing else |
| `Engine.Ext2.constructor` | kernel/ext2.c:79-110 | Mounting a laid out image stands for the volume of its bytes and starts in the root; from then on what the engine keeps nothing in stays as it was |
| `Engine.Remount` | kernel/ext2.c:79-110 | Mounting again what the engine left on the disk gives the same volume: the disk and the cached superblock never drift apart |
| `Engine.Ext2.ReadBlock` | kernel/ext2.c:114-121 | A read fills the shared buffer, or fails out of range and leaves it |
| `Engine.Ext2.WriteBlock` | kernel/ext2.c:123-130 | A write stores the shared buffer in one block, or fails out of range and changes nothing |
| `Engine.Ext2.ReadGroupDescriptor` | kernel/ext2.c:46-57 | The descriptor of a group, or failure beyond the last group |
| `Engine.Ext2.WriteGroupDescriptor` | kernel/ext2.c:59-70 | The two counts of one group change, all other bytes stay |
| `Engine.Ext2.WriteSuperblock` | kernel/ext2.c:72-77 | The superblock on the disk becomes the cached one and the volume stays |
| `Engine.Ext2.AllocateBlock` | kernel/ext2.c:225-248 | On bytes, through the shared buffer, the allocator of Volumes |
| `Engine.Ext2.FreeBlock` | kernel/ext2.c:643-661 | On bytes, the release of Volumes; it fails exactly outside the data blocks |
| `Engine.Ext2.AllocateInode` | kernel/ext2.c:250-273 | On bytes, the inode allocator of Volumes |
| `Engine.Ext2.FreeInode` | kernel/ext2.c:663-674 | On bytes, the inode release of Volumes |
| `Engine.Ext2.ReadInode` | kernel/ext2.c:132-159 | The inode on record, or failure for a number out of range |
| `Engine.Ext2.WriteInode` | kernel/ext2.c:161-195 | One inode on record changes, all else stays |
| `Engine.Ext2.ReadPointer` | kernel/ext2.c:197-201 | One entry of a pointer block |
| `Engine.Ext2.InodeBlock` | kernel/ext2.c:203-223 | The pointer walk, triple indirect region included |
| `Engine.Ext2.EnsureBlock` | kernel/ext2.c:398-405 | A table that is missing is allocated and cleared, one that is there is kept |
| `Engine.Ext2.EnsureChild` | kernel/ext2.c:408-414 | A child table that is missing is allocated and linked after the shared buffer was overwritten |
| `Engine.Ext2.SetInodeBlock` | kernel/ext2.c:387-420 | The update of PointerTree, proved of the code that allocates up to two tables through the one buffer |
| `Engine.Ext2.MetadataBlockCount` | kernel/ext2.c:31-42 | The closed form in the arithmetic of the code |
| `Engine.Ext2.ReadFile` | kernel/ext2.c:364-380 | The caller gets the bytes read and no byte behind them changes |
| `Engine.Ext2.GrowFile` | kernel/ext2.c:433-436 | The growing loop is GrowFile |
| `Engine.Ext2.WriteFile` | kernel/ext2.c:422-446 | The whole write is WriteFile, and the result is the size or -1 |
| `Engine.Ext2.NameEqual` | kernel/ext2.c:20-25 | Equality of names |
| `Engine.Ext2.SearchBuffer` | kernel/ext2.c:352-359 | The scan over one block is FindIn |
| `Engine.Ext2.FindInodeInDir` | kernel/ext2.c:342-362 | The search over all blocks is FindInDir |
| `Engine.Ext2.InsertInBuffer` | kernel/ext2.c:455-479 | The scan for a free record or a gap, edited in place, is AddIn |
| `Engine.Ext2.AddDirectoryEntry` | kernel/ext2.c:448-495 | The whole addition is AddEntry |
| `Engine.Ext2.RemoveDirectoryEntry` | kernel/ext2.c:676-693 | The whole removal is RemoveEntry |
| `Engine.Ext2.CreateFile` | kernel/ext2.c:525-542 | File creation is CreateFile |
| `Engine.Ext2.CreateDirectory` | kernel/ext2.c:544-585 | Directory creation is CreateDirectory |
| `Engine.Ext2.PathNextComponent` | kernel/ext2.c:279-289 | The next component of a path, the end, or an overlong one |
| `Engine.Ext2.FindInodeByPath` | kernel/ext2.c:291-314 | Path lookup is FindByPath, and stays among live inodes |
| `Engine.Ext2.SplitParentPath` | kernel/ext2.c:316-340 | Splitting is SplitParent |
| `Engine.Ext2.FreeFile` | kernel/ext2.c:716-731 | The three freeing loops are FreeFile |
| `Engine.Ext2.CreateFileByPath` | kernel/ext2.c:605-619 | Creation by path with the current directory put back, keeping the invariant |
| `Engine.Ext2.CreateDirectoryByPath` | kernel/ext2.c:621-635 | The same for directories |
| `Engine.Ext2.WriteFileByPath` | kernel/ext2.c:637-641 | Writing by path, creating the file if need be, keeping the invariant |
| `Engine.Ext2.ReadFileByPath` | kernel/ext2.c:593-596 | Reading by path into the caller's buffer |
| `Engine.Ext2.DeleteFileByPath` | kernel/ext2.c:697-739 | Deletion by path, keeping the invariant |
| `Engine.Ext2.ChangeDirectory` | bin/cd.c:9-34 | The current directory changes exactly when the path leads to a directory |
| `Evaluation.EvaluateCorrect` | bin/numix.c:32-149 | Evaluation answers v if and only if the text spells an expression tree, nested at most 64 deep, whose exact value is v and whose every subexpression fits an int |
| `Evaluation.PrintedReadsBack` | bin/numix.c:151-162 | The decimal text of an int evaluates back to it if and only if it is not INT_MIN, whose text overflows |
| `Evaluation.SmallestOverflows` | bin/numix.c:32-45 | The text of INT_MIN is an overflow, because the sign is applied to a number already out of range |
| `Evaluation.ProductComplete` | bin/numix.c:95-130 | Evaluating the text of a product tree gives its value and stops behind it |
| `Evaluation.SumComplete` | bin/numix.c:132-149 | Evaluating the text of a sum tree gives its value and stops behind it |
| `Evaluation.SumSound` | bin/numix.c:132-149 | What the sum evaluator accepts spells a sum tree with the value it returned |
| `Integers.IPow` | bin/numix.c:21-30 | The result is b^e when that fits an int and an overflow otherwise; squaring the base never raises a false alarm |
| `Integers.Operate` | bin/numix.c:95-149 | Each checked operation is the exact one, or overflow exactly when that does not fit, or division by zero |
| `Integers.TruncatedIs` | bin/numix.c:119-127 | The quotient truncates toward zero and the remainder has the sign of the dividend |
| `Integers.FlooredIs` | bin/numix.c:119-127 | Quotient and remainder of // and % are the floor pair |
| `Integers.FlooredUnique` | bin/numix.c:119-127 | There is only one such pair |
| `Operators.ExactMeets` | bin/numix.c:95-149 | The result of each operation is the one number that meets its equation: a sum and a difference undo each other, a product is a repeated sum, / leaves a rest smaller than the divisor with the sign of the dividend, // and % one with the sign of the divisor |
| `Operators.ApplyMeets` | bin/numix.c:95-149 | The calculator gives that number if it fits an int; it reports a division by zero exactly where the divisor of / // % is zero, and otherwise an overflow |
| `Operators.Symbols` | bin/numix.c:95-149 | Which signs stand for which operation |
| `Operators.DigitsAre` | bin/numix.c:151-162 | A number is written in decimal, the last digit last |
| `Operators.PairEvaluates` | bin/numix.c:95-149 | The text of two ints of either sign with an operator between them evaluates to that result |
| `Operators.DivisionTexts` | bin/numix.c:105-127 | Of the values of a//b and a%b: a is b times the one plus the other, which is between 0 and b |
| `Operators.TripleEvaluates` | bin/numix.c:95-149 | Three ints with any two operators: the first goes first unless the second alone is one of * / // % |
| `Operators.PowIs` | bin/numix.c:21-30 | A power is a repeated product, and 1 for the exponent 0 |
| `Operators.PowerEvaluates` | bin/numix.c:64-93 | The text of two ints with ^ or ** between them evaluates to the power, the sign in front of it taken last |
| `Operators.LiteralEvaluates` | bin/numix.c:32-45 | The digits of a number evaluate to it up to 2147483647, and overflow beyond |
| `Operators.NestedEvaluates` | bin/numix.c:47-62 | A number in n pairs of parentheses evaluates to itself for n up to 64, and is nested too deep from 65 on |
| `Spacing.BlanksBetweenTokens` | bin/numix.c:17-19 | Putting blanks or tabs in front of any token, or taking them away, leaves the outcome of every text as it was |
| `Refusals.NoNumber` | bin/numix.c:32-45 | A text without anything a number could begin with is an invalid operation |
| `Refusals.PointRefused` | bin/numix.c:42 | A point or a comma behind a number is refused, integers being all there is |
| `Refusals.UnclosedRefused` | bin/numix.c:58 | A parenthesis that is not closed is missed |
| `Refusals.TrailingRefused` | bin/numix.c:193 | What cannot go on with an expression makes it an invalid operation |
| `Refusals.NegativeExponentRefused` | bin/numix.c:23 | A negative exponent is refused, whatever the base |
| `Numix.Calculator.ReadNumber` | bin/numix.c:32-45 | Digits at the cursor, the overflow check included |
| `Numix.Calculator.ReadPrimary` | bin/numix.c:47-62 | A number or a parenthesis, with the depth bound, and the depth back where it was |
| `Numix.Calculator.ReadPower` | bin/numix.c:64-77 | Right-associative powers |
| `Numix.Calculator.ReadSigned` | bin/numix.c:79-93 | A sign looser than a power |
| `Numix.Calculator.ReadTerm` | bin/numix.c:95-130 | The loop over * / // % |
| `Numix.Calculator.ReadSum` | bin/numix.c:132-149 | The loop over + and -; all six terminate by the characters left and the rank of the nonterminal |
| `Numix.Calculator.Command` | bin/numix.c:170-203 | What is shown is the value, the error, the usage or the help |
| `Numix.ReplyAnswers` | bin/numix.c:170-203 | The command shows a number if and only if its argument, after blanks, denotes it |
| `Numix.WordsHaveNoValue` | bin/numix.c:164-186 | The texts answered with usage or help have no value anyway |
| `Numix.ValuesFit` | bin/numix.c:47-149 | Every intermediate value fits an int |
| `Numix.PutInt` | bin/numix.c:151-162 | The digits printed are the decimal text, INT_MIN included |
| `Checksum.NetChecksum` | kernel/net.c:21-32 | The complement of the folded sum of big-endian words, for even and odd lengths; the folding loop ends |
| `Checksum.OddByte` | kernel/net.c:29 | A message of odd length is summed as if a zero byte followed |
| `Checksum.FoldedIs` | kernel/net.c:30 | Folding gives the one 16-bit number that is congruent to the sum modulo 65535 and zero only for zero |
| `Checksum.Example` | kernel/net.c:21-32 | The example of section 3 of RFC 1071 |
| `Checksum.SealedVerifies` | kernel/net.c:21-32 | Storing the checksum in a zeroed field at an even offset makes the checksum of the whole zero, as RFC 1071 section 1 asks |
| `Checksum.Seal` | kernel/ip.c:62-65 | Storing the checksum in host order leaves a packet that verifies and changes only the field |
| `Checksum.HtonsStores` | kernel/net.c:10-12 | The swapped value stored little-endian is the value in network order, and swapping twice gives it back |
| `Checksum.PseudoSumSeeds` | kernel/tcp.c:65-68 | Seeding with the pseudo sum equals checksumming the 12-byte pseudo-header before the segment, as RFC 9293 section 3.1 asks |
| `Tcp.DeliveredExactly` | kernel/tcp.c:131-176 | Whatever is lost, duplicated or reordered, what a receiver gets continues the peer's stream without a gap, and is exactly as long as the pieces that start where it stands reach, up to and including the first closing frame |
| `Tcp.HandleTakesNext` | kernel/tcp.c:157-175 | One segment adds all of its payload, FIN or not, if it is the next piece and carries no RST, and nothing otherwise |
| `Tcp.CloserCompletes` | kernel/tcp.c:153-175 | After a FIN or RST the stream is whole if and only if it was before, or the FIN came with just the missing rest; nothing is taken after it |
| `Tcp.WholeMeansRelayed` | kernel/tcp.c:131-176 | From a peer that cuts its stream once, the stream is delivered whole if and only if its segments occur in order as a subsequence before anything closes the connection |
| `Tcp.CuttingAnewCanFail` | kernel/tcp.c:163-168 | For every stream of two bytes and every connection set to receive it: two frames, the first byte and then both with a FIN, are segments of an honest peer and yet deliver one byte; the second alone delivers both |
| `Tcp.HandleKeepsOrder` | kernel/tcp.c:157-175 | One segment keeps what was delivered and what is pending a prefix of the stream, with the next sequence number behind it |
| `Tcp.OpenedInOrder` | kernel/tcp.c:73-91 | A handshake sets the connection to receive the first byte of the announced stream |
| `Tcp.NothingAfterClose` | kernel/tcp.c:148-176 | A closed connection takes nothing more |
| `Tcp.OpenReplies` | kernel/tcp.c:163-176 | An open connection answers a segment with one ACK for a payload that comes next and one for a FIN |
| `Tcp.AskingAnswers` | kernel/tcp.c:147-155 | While the handshake is on, just the segment that opens the connection is answered |
| `Tcp.SilentAfterClose` | kernel/tcp.c:157 | A closed connection answers nothing |
| `Segments.FlagBits` | kernel/tcp.c:6-10 | FIN, SYN, RST and ACK are the bits of weight 1, 2, 4 and 16 of byte 13, for every byte |
| `Segments.BuiltIsPlain` | kernel/tcp.c:53-61 | The header is 20 bytes of ports, numbers, length, flags and window in network order |
| `Segments.PlainArrives` | kernel/tcp.c:137-145 | A packet of such bytes is for the connection if and only if it comes from its peer, port to port, and is read as what was put in |
| `Segments.AnswerOpens` | kernel/tcp.c:147-155 | A segment of the peer opens a connection that is being asked for if and only if it has both SYN and ACK; the bytes 0x12 do, 0x02 and 0x10 do not; the next byte expected is then the one behind the SYN |
| `Segments.CloserCloses` | kernel/tcp.c:157-176 | A segment of the peer closes an open connection if and only if it has FIN or RST |
| `Segments.StrangersIgnored` | kernel/tcp.c:139-140 | A packet from elsewhere changes nothing |
| `Segments.HandshakeSucceeds` | kernel/tcp.c:73-91 | The ordinary answer makes the connection, however many packets of others come before it, within the attempts |
| `Segments.OptionsPassedOver` | kernel/tcp.c:142-145 | Options between header and payload change nothing |
| `Segments.BadLengthRefused` | kernel/tcp.c:142-143 | A header shorter than 20 bytes or longer than the packet is none |
| `Segments.StoredAndCounted` | kernel/tcp.c:163-169 | Of a payload that comes next the first 1460 bytes are stored and all of it is acknowledged, so that what is longer is lost |
| `Segments.AcksAreDelivered` | kernel/tcp.c:163-176 | From a peer of one stream: everything sent back is an ACK without data, for a byte of the stream not beyond what has been handed over |
| `Tcp.Connection.SendSegment` | kernel/tcp.c:44-71 | The segment carries ports, numbers, flags and payload, verifies with its pseudo-header and goes to the peer; a payload of more than 1400 bytes is refused |
| `Tcp.Connection.Send` | kernel/tcp.c:93-99 | On an open connection the data goes out with PSH and ACK and the sequence number advances by its length; otherwise nothing happens |
| `Tcp.Connection.HandlePacket` | kernel/tcp.c:131-176 | Only segments of this connection count, they do what Handle says, and the replies are those of Answer |
| `Tcp.Connection.WaitActivity` | kernel/tcp.c:122-129 | Polling stops at the first stored payload or at the end, so nothing that is coming is lost |
| `Tcp.Connection.Receive` | kernel/tcp.c:101-108 | The stored payload goes to the buffer once |
| `Tcp.Connection.Connect` | kernel/tcp.c:73-91 | A SYN goes out; it succeeds exactly when an answer comes within 300000 attempts, is then set to receive, and has acknowledged the answer |
| `Tcp.Connection.Close` | kernel/tcp.c:114-120 | An established connection sends a FIN and starts closing, any other stays and sends nothing |
| `Http.StripHeader` | kernel/http.c:30-70 | For every way of cutting a stream into chunks, empty ones included, the bytes written are exactly those behind the first blank line of the whole, nothing if there is none, and the total is their number |
| `Http.EndsAtFirst` | kernel/http.c:44-50 | The header ends at the first of all places where CR LF CR LF stands |
| `Http.BodyOfPrefix` | kernel/http.c:41-67 | The body of a prefix is a prefix of the body |
| `Http.HttpGetToFd` | kernel/http.c:7-74 | It writes exactly the body of everything the receiver gets out of the frames and returns the count, or -1 if and only if the handshake fails; what it sends is a SYN, the ACK of the answer, the request, the ACKs, and a FIN unless the peer has closed; the connection ends closed, and so the loop of the source ends, if and only if some frame after the handshake closes it |
| `Http.DownloadIs` | kernel/http.c:27-73 | What it writes is the body of the first bytes of the peer's stream, as many as DeliveredExactly says, and is the whole body if and only if that is all of them or the stream has no body |
| `Http.DownloadIsWhole` | kernel/http.c:27-73 | From a peer that cuts its stream once, a stream with a body is downloaded whole if and only if its segments come in order as a subsequence before anything closes the connection |
| `Http.BodyIsWhole` | kernel/http.c:41-67 | A prefix has the body of the whole if and only if it is the whole, or there is no body to miss |
| `Http.BuildRequest` | kernel/http.c:16-25 | The request is the text, cut off where the buffer ends |
| `Http.RequestIs` | kernel/http.c:16-25 | The path stands between the first two blanks, the host behind "Host: " on the second line, and a blank line ends the request |
| `Http.FirstBytesFit` | kernel/http.c:21-25 | What is cut off is everything behind the first 255 bytes |
| `Http.Download.TookMeans` | kernel/http.c:41-67 | What the stripping loop keeps about the chunks so far comes to: their body is written and counted |
| `Sha256.Hash` | kernel/auth.c:68-91 | In-place full blocks and the one or two-block tail give the fold of the compression function over the padded message of FIPS 180-4 section 5.1.1, for every length |
| `Sha256.Transform` | kernel/auth.c:30-66 | The compression function of FIPS 180-4 section 6.2.2 |
| `Fips180.FirstPrimes` | kernel/auth.c:31-43 | The primes behind the table are the first 64: it begins with 2 and goes on with the next prime each time |
| `Fips180.RoundConstants` | kernel/auth.c:31-43 | Each round constant is the first 32 bits of the fraction of the cube root of its prime |
| `Fips180.InitialValues` | kernel/auth.c:70-73 | Each initial value is the first 32 bits of the fraction of the square root of its prime |
| `Fips180.CubeRootUnique` | kernel/auth.c:31-43 | There is one such constant for each prime |
| `Fips180.DigestOfAbc` | kernel/auth.c:30-91 | The digest of "abc" is the published one |
| `Fips180.TextOfAbc` | kernel/auth.c:68-101 | And so is its text |
| `WordBits.ChooseBits` | kernel/auth.c:57 | Bit by bit, the choice of the second or third word by the first |
| `WordBits.MajorityBits` | kernel/auth.c:58 | Bit by bit, what at least two of three words have |
| `WordBits.BigSigmaBits` | kernel/auth.c:55-56 | Each bit is the exclusive or of the three bits 2, 13 and 22 (or 6, 11 and 25) places to the left, around the end |
| `WordBits.SmallSigmaBits` | kernel/auth.c:48-49 | The same for 7 and 18 (or 17 and 19) places, and for 3 (or 10) places without going around |
| `Sha256.PaddedIs` | kernel/auth.c:82-91 | A padded message is the message, 0x80, zeros, and its length in bits in the last eight bytes, as short as whole blocks allow |
| `Sha256.Finish` | kernel/auth.c:82-91 | The tail blocks are the rest of the padded message |
| `Sha256.PaddedTail` | kernel/auth.c:82-91 | Padding the rest of a message is the rest of the padded message |
| `Sha256.Sha256` | kernel/auth.c:68-101 | The text is the 64 hexadecimal digits of the digest and a NUL |
| `Sha256.DigitsOfBytes` | kernel/auth.c:92-99 | Two digits a byte, high nibble first, are the eight digits of the word |
| `Accounts.SearchFindsFirst` | kernel/auth.c:178-194 | Scanning a file of accounts with storable names gives the flag of the first account with that name and digest |
| `Accounts.MatchExists` | kernel/auth.c:169-196 | There is such an account exactly when some record has both |
| `Accounts.RecordReads` | kernel/auth.c:133-146 | A written record reads back as the account, whatever follows it |
| `Accounts.WriteAuthRecord` | kernel/auth.c:115-131 | The disk is left as AfterRecord says, on success and on every failure |
| `Accounts.CreateUser` | kernel/auth.c:133-146 | The account file gains exactly the new account, or on failure keeps exactly the ones it had; a name of 188 bytes or more, and no other, makes a record that does not fit the buffer of the source, and nothing is written |
| `Accounts.BuildRecord` | kernel/auth.c:133-146 | The two loops, which stop short of the end of the buffer, and the four bytes behind them fit for exactly the names below 188 bytes, and then the record is name, digest and flag with their separators |
| `Accounts.RecordSpelled` | kernel/auth.c:138-144 | A line is the name, the digest and "1" or "0" for rights, colons between them |
| `Accounts.StorableIs` | kernel/auth.c:178-194 | What can be stored: up to 31 bytes of name and 64 of digest, without NUL, colon or line end |
| `Accounts.PasswdPath` | kernel/auth.c:116 | The file is "/.config/passwd" |
| `Accounts.AccountAdded` | kernel/auth.c:115-146 | A record that was written is one more account in the file as read back; one that was refused changes none |
| `Accounts.Authenticate` | kernel/auth.c:169-196 | The answer is the search of the file as read, for the name and the digest of the password |
| `Accounts.AuthenticatesAccounts` | kernel/auth.c:169-196 | On a file of accounts that search is the first match in the list |
| `Accounts.DigestsStorable` | kernel/auth.c:133-146 | A name of at most 31 characters without separators makes an account that can be stored, whatever the password |
| `Accounts.StringsEqual` | kernel/auth.c:109-113 | Equality up to the first NUL |

## Left out

- Triple indirect growth: the source does not have it; the read path is modelled.
- Timestamps, permission checks, `used_dirs_count`, the text of the current path: they steer none of the modelled operations.
- Recovery from I/O errors on blocks in range, and the engine before it is mounted.
- The wrappers that take a name in the current directory.
- `kernel/vfs.c`, `kernel/ramfs.c`, `kernel/tls.c`, name resolution, ARP, DHCP and device drivers; what is passed to `vfs_write` is collected in order, and `https_get_to_fd` strips its stream in the same way as `http_get_to_fd`.
- The login prompt and reading passwords from the keyboard.
- The wording of usage, help and error messages: they are constructors of a datatype.
- Accounts.CreateUser: stops with None for a name of 188 bytes or more, whose record would run past the 256 bytes it is put together in, so that the source has no defined outcome for it; logging in cannot enter such a name.
- Http.DownloadIsWhole: is about a peer that cuts its stream once; for other peers `DownloadIs` gives the condition in terms of the pieces that arrive.
- Conservation.CreateWriteDeleteRestores: is about a directory that did not have to grow, because a directory block is never given back.
