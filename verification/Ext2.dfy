/** The engine of kernel/ext2.c on an array of raw blocks, with its one shared block buffer. Every
    operation is proved to do to the volume on disk what its function of the same name says. */
module Engine {
  import opened Bytes
  import opened Geometry
  import opened Volumes
  import opened PointerTree
  import opened Ownership
  import opened Files
  import opened DirBlock
  import opened Directories
  import opened FileSystem
  import opened Release
  import opened Paths
  import opened Trees
  import opened Runs
  import opened Steps
  import opened DiskImage
  import opened Margins

  const EXT2_MAX_BLOCK_SIZE := 4096

  class Ext2 {
    const geo: Geometry
    ghost const layout: Layout
    ghost const origin: Image
    const disk: array<Block>
    const blockBuffer: array<Byte>
    const inodeBuffer: array<Byte>
    var superblock: seq<Byte>
    var currentDir: nat

    // ---- what the fields mean ----

    /** The image is laid out as `layout` says, the geometry is the one mounting derives, and what the engine keeps
        nothing in is as it was at mounting. */
    ghost predicate Ready()
      reads this`superblock, disk
    {
      && blockBuffer.Length == EXT2_MAX_BLOCK_SIZE == inodeBuffer.Length && blockBuffer != inodeBuffer
      && ImageOk(geo, layout, disk[..])
      && |superblock| == SUPERBLOCK_SIZE && Mount(Parse(superblock)) == Some(geo)
      && MarginsKept(geo, layout, origin, disk[..]) && SuperKept(geo, origin, superblock)
    }

    /** The volume on disk, with the free counts of the cached superblock. */
    ghost function Vol(): Volume
      requires Ready()
      reads this`superblock, disk
    {
      Abs(geo, layout, disk[..], Word(superblock, FREE_BLOCKS_WORD), Word(superblock, FREE_INODES_WORD))
    }

    /** Between operations the free counts agree and the superblock on disk equals the cached one. */
    ghost predicate Valid()
      reads this`superblock, disk
    {
      && Ready() && Shape(Vol()) && Agreement(Vol())
      && SuperBlockNumber(geo) < disk.Length && StoredSuper(geo, disk[..]) == superblock
    }

    /** The part of the block buffer that holds a block. */
    function Buffer(): (b: Block)
      requires geo.blockSize <= blockBuffer.Length
      reads blockBuffer
      ensures |b| == geo.blockSize
    {
      blockBuffer[..geo.blockSize]
    }

    lemma ReadySizes()
      requires Ready()
      ensures Sound(geo) && 1024 <= geo.blockSize <= 4096 && disk.Length == geo.blocksCount
      ensures Placed(geo, layout) && Sized(geo, disk[..])
      ensures forall b :: 0 <= b < disk.Length ==> |disk[b]| == geo.blockSize
    {
      hide GroupPlaced, RecordPlaced, Mount, Parse;
      forall b | 0 <= b < disk.Length
        ensures |disk[b]| == geo.blockSize
      {
        assert disk[b] == disk[..][b];
      }
    }

    /** ext2_mount: `sectors` are the third and fourth sector of the disk. */
    constructor (d: array<Block>, sectors: seq<Byte>, ghost l: Layout)
      requires |sectors| == SUPERBLOCK_SIZE && Mount(Parse(sectors)).Some?
      requires ImageOk(Mount(Parse(sectors)).value, l, d[..])
      requires SuperBlockNumber(Mount(Parse(sectors)).value) < d.Length
      requires StoredSuper(Mount(Parse(sectors)).value, d[..]) == sectors
      ensures disk == d && layout == l && origin == d[..] && superblock == sectors && Some(geo) == Mount(Parse(sectors))
      ensures fresh(blockBuffer) && fresh(inodeBuffer) && Ready() && OnDisk() == superblock && currentDir == ROOT
      ensures Vol() == Abs(geo, l, d[..], Word(sectors, FREE_BLOCKS_WORD), Word(sectors, FREE_INODES_WORD))
      ensures Shape(Vol()) && Agreement(Vol()) ==> Valid()
    {
      geo := Mount(Parse(sectors)).value;
      layout := l;
      origin := d[..];
      disk := d;
      blockBuffer := new Byte[EXT2_MAX_BLOCK_SIZE];
      inodeBuffer := new Byte[EXT2_MAX_BLOCK_SIZE];
      superblock := sectors;
      currentDir := ROOT;
      new;
      MarginsStart(geo, layout, origin);
      SuperStarts(geo, layout, origin);
      assert Ready() by {
        hide ImageOk, Mount, Parse, MarginsKept, SuperKept;
      }
    }

    // ---- the block buffer ----

    /** Store `part` at byte offset `o` of the block in the buffer. */
    method Put(o: nat, part: seq<Byte>)
      requires geo.blockSize <= blockBuffer.Length && o + |part| <= geo.blockSize
      modifies blockBuffer
      ensures Buffer() == Splice(old(Buffer()), o, part)
    {
      forall k | 0 <= k < |part| {
        blockBuffer[o + k] := part[k];
      }
    }

    /** `((uint32_t *)block_buffer)[index] = value`. */
    method PutBufferWord(index: nat, value: nat)
      requires geo.blockSize <= blockBuffer.Length && 4 * index + 4 <= geo.blockSize && value < 0x1_0000_0000
      modifies blockBuffer
      ensures Buffer() == PutWord(old(Buffer()), index, value)
    {
      Put(4 * index, Le32(value));
    }

    method PutBufferBit(bit: nat, on: bool)
      requires geo.blockSize <= blockBuffer.Length && bit < 8 * geo.blockSize
      modifies blockBuffer
      ensures Buffer() == PutBit(old(Buffer()), bit, on)
    {
      var x := PutBit(Buffer(), bit, on)[bit / 8];
      blockBuffer[bit / 8] := x;
    }

    /** memset of the whole block buffer. */
    method ClearBuffer()
      requires geo.blockSize <= blockBuffer.Length
      modifies blockBuffer
      ensures Buffer() == Zeros(geo.blockSize)
    {
      forall k | 0 <= k < geo.blockSize {
        blockBuffer[k] := 0;
      }
    }

    // ---- blocks ----

    /** ext2_read_block into the block buffer. */
    method ReadBlock(b: nat) returns (ok: bool)
      requires Ready()
      modifies blockBuffer
      ensures geo.blockSize <= blockBuffer.Length
      ensures ok == (b < disk.Length)
      ensures ok ==> Buffer() == disk[b]
      ensures !ok ==> Buffer() == old(Buffer())
    {
      ReadySizes();
      if b >= geo.blocksCount {
        return false;
      }
      forall k | 0 <= k < geo.blockSize {
        blockBuffer[k] := disk[b][k];
      }
      return true;
    }

    /** ext2_write_block from the block buffer. */
    method WriteBlock(b: nat) returns (ok: bool)
      requires Ready()
      modifies disk
      ensures ok == (b < disk.Length) && geo.blockSize <= blockBuffer.Length
      ensures disk[..] == if ok then old(disk[..])[b := Buffer()] else old(disk[..])
    {
      ReadySizes();
      if b >= geo.blocksCount {
        return false;
      }
      disk[b] := Buffer();
      return true;
    }

    // ---- group descriptors and the superblock ----

    /** The superblock as it is on disk. */
    ghost function OnDisk(): seq<Byte>
      requires Ready()
      reads this`superblock, disk
    {
      ReadySizes();
      SuperPlaced(geo, layout);
      StoredSuper(geo, disk[..])
    }

    method ReadGroupDescriptor(group: nat) returns (ok: bool, d: seq<Byte>)
      requires Ready()
      modifies blockBuffer
      ensures ok == (group < geo.groupCount)
      ensures ok ==> d == Descriptor(geo, layout, disk[..], group)
    {
      hide Mount, Parse;
      if group >= geo.groupCount {
        return false, [];
      }
      ReadySizes();
      DescriptorFits(geo, group);
      assert GroupPlaced(geo, layout, group);
      var block := DescriptorBlock(geo, group);
      var offset := DescriptorOffset(geo, group);
      var read := ReadBlock(block);
      return true, Buffer()[offset..offset + DESCRIPTOR_SIZE];
    }

    method WriteGroupDescriptor(group: nat, d: seq<Byte>) returns (ok: bool)
      requires Ready() && group < geo.groupCount && |d| == DESCRIPTOR_SIZE
      requires SamePlaces(Descriptor(geo, layout, disk[..], group), d)
      requires d[..12] == Descriptor(geo, layout, disk[..], group)[..12]
      requires d[16..] == Descriptor(geo, layout, disk[..], group)[16..]
      modifies disk, blockBuffer
      ensures ok && Ready() && OnDisk() == old(OnDisk())
      ensures Vol() == old(Vol()).(blockFree := old(Vol()).blockFree[group := DescFreeBlocks(d)],
                                   inodeFree := old(Vol()).inodeFree[group := DescFreeInodes(d)])
    {
      hide Mount, Parse, ImageOk, Abs, Placed, Descriptor, MarginsKept, SuperKept, SamePlaces, DescFreeBlocks,
        DescFreeInodes, DescriptorBlock, DescriptorOffset, Splice;
      ReadySizes();
      DescriptorFits(geo, group);
      WriteDescriptor(geo, layout, disk[..], Word(superblock, FREE_BLOCKS_WORD), Word(superblock, FREE_INODES_WORD),
                      group, d);
      GroupMargin(geo, layout, origin, disk[..], group, d);
      var block := DescriptorBlock(geo, group);
      var offset := DescriptorOffset(geo, group);
      SuperElsewhere(geo, layout, disk[..], block);
      ok := ReadBlock(block);
      Put(offset, d);
      ok := WriteBlock(block);
    }

    method WriteSuperblock() returns (ok: bool)
      requires Ready()
      modifies disk
      ensures ok && Ready() && Vol() == old(Vol()) && OnDisk() == superblock
    {
      hide Mount, Parse, ImageOk, Abs, Placed, Descriptor, MarginsKept, SuperKept;
      ReadySizes();
      SuperPlaced(geo, layout);
      SuperIsForeign(geo, layout);
      SuperblockMargin(geo, layout, origin, disk[..], superblock);
      var block := SuperBlockNumber(geo);
      var x := Splice(disk[block], SuperOffset(geo), superblock);
      WriteForeign(geo, layout, disk[..], Word(superblock, FREE_BLOCKS_WORD), Word(superblock, FREE_INODES_WORD),
                   block, x);
      ghost var was := disk[..];
      disk[block] := x;
      assert disk[..] == was[block := x];
      return true;
    }

    /** Add `delta` to a free count of a group and to the same count of the whole volume, and write both. */
    method AdjustCounts(group: nat, d: seq<Byte>, word: nat, delta: int) returns (ok: bool)
      requires Ready() && group < geo.groupCount && d == Descriptor(geo, layout, disk[..], group)
      requires word == FREE_BLOCKS_WORD || word == FREE_INODES_WORD
      requires 0 <= (if word == FREE_BLOCKS_WORD then DescFreeBlocks(d) else DescFreeInodes(d)) + delta < 0x1_0000
      requires 0 <= Word(superblock, word) + delta < 0x1_0000_0000
      modifies this`superblock, disk, blockBuffer
      ensures ok && Ready() && OnDisk() == superblock
      ensures var v := old(Vol());
        Vol() == if word == FREE_BLOCKS_WORD
                 then v.(blockFree := v.blockFree[group := DescFreeBlocks(d) + delta],
                         freeBlocks := v.freeBlocks + delta)
                 else v.(inodeFree := v.inodeFree[group := DescFreeInodes(d) + delta],
                         freeInodes := v.freeInodes + delta)
    {
      hide Mount, Parse, ImageOk, Placed, Descriptor, DescFreeBlocks, DescFreeInodes, PutWord, Word, Abs, MarginsKept,
        SuperKept;
      var blocks, inodes := DescFreeBlocks(d), DescFreeInodes(d);
      if word == FREE_BLOCKS_WORD {
        blocks := blocks + delta;
      } else {
        inodes := inodes + delta;
      }
      WithCountsFields(d, blocks, inodes);
      AbsCounts(geo, layout, disk[..], Word(superblock, FREE_BLOCKS_WORD), Word(superblock, FREE_INODES_WORD), group);
      CountWritten(superblock, word, Word(superblock, word) + delta);
      CountMargin(geo, origin, superblock, word, Word(superblock, word) + delta);
      var counted := PutWord(superblock, word, Word(superblock, word) + delta);
      CountsEnter(geo, layout, disk[..], Word(superblock, FREE_BLOCKS_WORD), Word(superblock, FREE_INODES_WORD),
        Word(counted, FREE_BLOCKS_WORD), Word(counted, FREE_INODES_WORD));
      superblock := counted;
      ok := WriteGroupDescriptor(group, WithCounts(d, blocks, inodes));
      ok := WriteSuperblock();
    }

    /** ext2_write_block to a block that is not fixed metadata. */
    method WriteContentsOf(b: nat) returns (ok: bool)
      requires Ready() && (b < disk.Length ==> Plain(Vol(), b))
      modifies disk
      ensures ok == (b < disk.Length) && Ready() && OnDisk() == old(OnDisk()) && geo.blockSize <= blockBuffer.Length
      ensures ok ==> Plain(old(Vol()), b) && Vol() == old(Vol()).(store := old(Vol()).store[b := Buffer()])
      ensures !ok ==> Vol() == old(Vol())
    {
      hide Mount, Parse, ImageOk, Abs, Placed, Descriptor, MarginsKept, SuperKept;
      ReadySizes();
      if b < disk.Length {
        ghost var fb, fi := Word(superblock, FREE_BLOCKS_WORD), Word(superblock, FREE_INODES_WORD);
        PlainIsContents(geo, layout, disk[..], fb, fi, b);
        SuperElsewhere(geo, layout, disk[..], b);
        ContentsMargin(geo, layout, origin, disk[..], b, Buffer());
        WriteContents(geo, layout, disk[..], fb, fi, b, Buffer());
      }
      ok := WriteBlock(b);
    }

    // ---- allocating and freeing blocks ----

    /** Set or clear the bit of block `n` in the bitmap that is in the buffer, and write the bitmap. */
    method MarkBlock(bitmap: nat, ghost group: nat, bit: nat, ghost n: nat, on: bool)
      requires Ready() && group < geo.groupCount && bit < geo.blocksPerGroup && geo.blockSize <= blockBuffer.Length
      requires n == GroupStart(geo, group) + bit && n < geo.blocksCount
      requires bitmap == layout.blockBitmap[group] && bitmap < disk.Length && Buffer() == disk[bitmap]
      modifies disk, blockBuffer
      ensures Ready() && OnDisk() == old(OnDisk())
      ensures Vol() == old(Vol()).(used := old(Vol()).used[n := on])
      ensures Descriptor(geo, layout, disk[..], group) == old(Descriptor(geo, layout, disk[..], group))
    {
      hide Mount, Parse, ImageOk, Abs, Placed, Descriptor, Bit, PutBit, MarginsKept, SuperKept;
      ReadySizes();
      BlockOfBit(geo, group, bit);
      BitmapPlaced(geo, layout, group);
      SuperElsewhere(geo, layout, disk[..], bitmap);
      BitmapMargin(geo, layout, origin, disk[..], group, bit, on);
      PutBitChanges(Buffer(), bit, on);
      DescriptorKept(geo, layout, disk[..], bitmap, PutBit(Buffer(), bit, on), group);
      WriteBlockBitmap(geo, layout, disk[..], Word(superblock, FREE_BLOCKS_WORD), Word(superblock, FREE_INODES_WORD),
        group, PutBit(Buffer(), bit, on), n, on);
      PutBufferBit(bit, on);
      var ok := WriteBlock(bitmap);
    }

    /** Facts about the volume that need no look at the image. */
    lemma VolFacts()
      requires Ready()
      ensures Vol().geo == geo && Sound(geo) && disk.Length == geo.blocksCount
      ensures |Vol().used| == geo.blocksCount == |Vol().store| && |Vol().iused| == geo.inodesCount == |Vol().inodes|
      ensures |Vol().blockFree| == geo.groupCount == |Vol().inodeFree|
      ensures Vol().freeBlocks == Word(superblock, FREE_BLOCKS_WORD)
      ensures Vol().freeInodes == Word(superblock, FREE_INODES_WORD)
      ensures forall k :: 0 <= k < geo.groupCount ==>
        && Vol().blockFree[k] == DescFreeBlocks(Descriptor(geo, layout, disk[..], k))
        && Vol().inodeFree[k] == DescFreeInodes(Descriptor(geo, layout, disk[..], k))
    {
      hide Mount, Parse, ImageOk, Descriptor, DescFreeBlocks, DescFreeInodes, Word, UsedBlock, UsedInode, InodeRecord,
        Decode, Contents;
      ReadySizes();
    }

    /** allocate_block: the first free block, marked used and cleared. */
    method AllocateBlock() returns (found: Option<nat>)
      requires Valid()
      modifies this`superblock, disk, blockBuffer
      ensures Valid()
      ensures Allocation(Vol(), found) == Volumes.AllocateBlock(old(Vol()))
    {
      hide Mount, Parse, ImageOk, Abs, Placed, Descriptor, Sound, Shape, Agreement, AllocateBlockFrom, FirstClear,
        TakeBlock, GroupOf, DescFreeBlocks, Ready, Vol, StoredSuper;
      ghost var v := Vol();
      VolFacts();
      var group := 0;
      while group < geo.groupCount
        invariant group <= geo.groupCount && Valid() && Vol() == v
        invariant Volumes.AllocateBlock(v) == AllocateBlockFrom(v, group)
      {
        VolFacts();
        AllocateBlockAt(v, group);
        var count := geo.blocksPerGroup;
        var first := geo.firstDataBlock + group * geo.blocksPerGroup;
        if first >= geo.blocksCount {
          group := group + 1;
          continue;
        }
        if first + count > geo.blocksCount {
          count := geo.blocksCount - first;
        }
        var ok, d := ReadGroupDescriptor(group);
        if !ok || DescFreeBlocks(d) == 0 {
          group := group + 1;
          continue;
        }
        found := TakeFrom(group, first, count, d);
        if found.Some? {
          return;
        }
        group := group + 1;
      }
      AllocateBlockEnd(v);
      return None;
    }

    /** The scan of one group: take its first free block. */
    method TakeFrom(group: nat, first: nat, count: nat, d: seq<Byte>) returns (found: Option<nat>)
      requires Valid() && group < geo.groupCount && d == Descriptor(geo, layout, disk[..], group)
      requires DescFreeBlocks(d) != 0
      requires first == GroupStart(geo, group) && first + count == GroupEnd(geo, group)
      modifies this`superblock, disk, blockBuffer
      ensures Valid() && found == FirstClear(old(Vol()).used, first, first + count)
      ensures found.None? ==> Vol() == old(Vol())
      ensures found.Some? ==> TookBlock(old(Vol()), Vol(), group, found.value)
    {
      hide Mount, Parse, ImageOk, Abs, Placed, Descriptor, Sound, Shape, Agreement, TakeBlock, Bit, UsedBlock,
        GroupOf, DescFreeBlocks, Ready, Vol, StoredSuper, DescBlockBitmap;
      ghost var v := Vol();
      VolFacts();
      GroupBitmap(group);
      var bitmap := DescBlockBitmap(d);
      var ok := ReadBlock(bitmap);
      var bit := 0;
      while bit < count
        invariant bit <= count && Valid() && Vol() == v && disk[..] == old(disk[..]) && Buffer() == disk[bitmap]
        invariant FirstClear(v.used, first, first + count) == FirstClear(v.used, first + bit, first + count)
      {
        BitTellsUsed(group, bit);
        if !Bit(Buffer(), bit) {
          TakeBit(group, first, bit, d);
          return Some(first + bit);
        }
        bit := bit + 1;
      }
      return None;
    }

    lemma GroupBitmap(group: nat)
      requires Ready() && group < geo.groupCount
      ensures var d := Descriptor(geo, layout, disk[..], group);
        && DescBlockBitmap(d) == layout.blockBitmap[group] < disk.Length
        && DescInodeBitmap(d) == layout.inodeBitmap[group] < disk.Length
        && DescInodeTable(d) == layout.inodeTable[group]
      ensures geo.blocksPerGroup <= 8 * geo.blockSize && geo.inodesPerGroup <= 8 * geo.blockSize
      ensures geo.blockSize <= blockBuffer.Length && geo.blockSize <= inodeBuffer.Length && blockBuffer != inodeBuffer
    {
      hide Mount, Parse, Descriptor, DescBlockBitmap, DescInodeBitmap, DescInodeTable;
      ReadySizes();
      BitmapPlaced(geo, layout, group);
    }

    lemma BitTellsUsed(group: nat, bit: nat)
      requires Ready() && group < geo.groupCount && bit < geo.blocksPerGroup
      requires GroupStart(geo, group) + bit < geo.blocksCount
      ensures layout.blockBitmap[group] < disk.Length && bit < 8 * |disk[layout.blockBitmap[group]]|
      ensures Bit(disk[layout.blockBitmap[group]], bit) == Vol().used[GroupStart(geo, group) + bit]
    {
      hide Mount, Parse, Descriptor, Bit, UsedBlock, ImageOk, Abs;
      ReadySizes();
      BitmapPlaced(geo, layout, group);
      BlockOfBit(geo, group, bit);
      BlockBitUsed(geo, layout, disk[..], group, bit);
      AbsAt(geo, layout, disk[..], Word(superblock, FREE_BLOCKS_WORD), Word(superblock, FREE_INODES_WORD));
    }

    /** Take the block of a clear bit of the bitmap in the buffer. */
    method TakeBit(group: nat, first: nat, bit: nat, d: seq<Byte>)
      requires Valid() && group < geo.groupCount && d == Descriptor(geo, layout, disk[..], group)
      requires DescFreeBlocks(d) != 0
      requires first == GroupStart(geo, group) && bit < geo.blocksPerGroup && first + bit < geo.blocksCount
      requires !Vol().used[first + bit]
      requires geo.blockSize <= blockBuffer.Length
      requires DescBlockBitmap(d) < disk.Length && Buffer() == disk[DescBlockBitmap(d)]
      modifies this`superblock, disk, blockBuffer
      ensures Valid() && TookBlock(old(Vol()), Vol(), group, first + bit)
    {
      hide Mount, Parse, ImageOk, Abs, Placed, Descriptor, Sound, Agreement, Bit, UsedBlock,
        GroupOf, DescFreeBlocks, Ready, Vol, StoredSuper, DescBlockBitmap;
      ghost var v := Vol();
      VolFacts();
      GroupBitmap(group);
      BlockOfBit(geo, group, bit);
      TakeBlockAgreement(v, first + bit);
      CountsFit(v);
      MarkBlock(DescBlockBitmap(d), group, bit, first + bit, true);
      var ok := AdjustCounts(group, d, FREE_BLOCKS_WORD, -1);
      ClearBuffer();
      ok := WriteContentsOf(first + bit);
    }

    /** free_block. */
    method FreeBlock(b: nat) returns (ok: bool)
      requires Valid() && (geo.firstDataBlock <= b < geo.blocksCount ==> Plain(Vol(), b) && Vol().used[b])
      modifies this`superblock, disk, blockBuffer
      ensures Valid() && Vol() == Volumes.FreeBlock(old(Vol()), b)
      ensures ok == (geo.firstDataBlock <= b < geo.blocksCount)
    {
      hide Mount, Parse, ImageOk, Abs, Placed, Descriptor, Shape, Agreement, Volumes.FreeBlock,
        GroupOf, GroupStart, Sound, Ready, Vol, StoredSuper, Plain;
      VolFacts();
      ghost var inRange := geo.firstDataBlock <= b < geo.blocksCount;
      ghost var home := HomeGroup(b);
      var group := 0;
      while group < geo.groupCount
        invariant group <= geo.groupCount && Valid() && Vol() == old(Vol())
        invariant inRange ==> group <= home
      {
        var first := GroupStart(geo, group);
        InSomeGroup(b, group, first);
        var count := Min(geo.blocksPerGroup, geo.blocksCount - first);
        if first <= b < first + count {
          ReleaseBit(group, b - first, b);
          return true;
        }
        group := group + 1;
      }
      return false;
    }

    lemma HomeGroup(b: nat) returns (home: nat)
      requires Ready() && Shape(Vol())
      ensures geo.firstDataBlock <= b < geo.blocksCount ==>
        geo.blocksPerGroup > 0 && home == GroupOf(geo, b) && home < geo.groupCount
      ensures !(geo.firstDataBlock <= b < geo.blocksCount) ==> Volumes.FreeBlock(Vol(), b) == Vol()
    {
      hide Mount, Parse, ImageOk, Abs, Placed, Descriptor;
      VolFacts();
      FreeBlockRange(Vol(), b);
      home := if geo.firstDataBlock <= b < geo.blocksCount then GroupOf(geo, b) else 0;
    }

    lemma InSomeGroup(b: nat, group: nat, first: nat)
      requires Sound(geo) && first == GroupStart(geo, group)
      ensures geo.firstDataBlock <= first
      ensures geo.firstDataBlock <= b < geo.blocksCount ==>
        (first <= b < first + geo.blocksPerGroup <==> group == GroupOf(geo, b))
    {
      if geo.firstDataBlock <= b < geo.blocksCount {
        GroupOfBlock(geo, b, group);
      }
    }

    /** Clear the bit of block `b` in the bitmap of its group, and count it as free. */
    method ReleaseBit(group: nat, bit: nat, b: nat)
      requires Valid() && group < geo.groupCount
      requires b == GroupStart(geo, group) + bit && bit < geo.blocksPerGroup && b < geo.blocksCount
      requires Plain(Vol(), b) && Vol().used[b]
      modifies this`superblock, disk, blockBuffer
      ensures Valid() && Vol() == Volumes.FreeBlock(old(Vol()), b)
    {
      hide Mount, Parse, ImageOk, Abs, Placed, Descriptor, Sound, Agreement, Bit, UsedBlock,
        GroupOf, DescFreeBlocks, Ready, Vol, StoredSuper, DescBlockBitmap;
      ghost var v := Vol();
      VolFacts();
      GroupBitmap(group);
      BlockOfBit(geo, group, bit);
      FreeBlockAgreement(v, b);
      CountsFit(v);
      CountsFit(Volumes.FreeBlock(v, b));
      var ok, d := ReadGroupDescriptor(group);
      ok := ReadBlock(DescBlockBitmap(d));
      MarkBlock(DescBlockBitmap(d), group, bit, b, false);
      ok := AdjustCounts(group, d, FREE_BLOCKS_WORD, 1);
    }

    // ---- allocating and freeing inodes ----

    /** Set or clear the bit of inode `z + 1` in the bitmap that is in the buffer, and write the bitmap. */
    method MarkInode(bitmap: nat, ghost group: nat, bit: nat, ghost z: nat, on: bool)
      requires Ready() && group < geo.groupCount && bit < geo.inodesPerGroup && geo.blockSize <= blockBuffer.Length
      requires z == InodeStart(geo, group) + bit && z < geo.inodesCount
      requires bitmap == layout.inodeBitmap[group] && bitmap < disk.Length && Buffer() == disk[bitmap]
      modifies disk, blockBuffer
      ensures Ready() && OnDisk() == old(OnDisk())
      ensures Vol() == old(Vol()).(iused := old(Vol()).iused[z := on])
      ensures Descriptor(geo, layout, disk[..], group) == old(Descriptor(geo, layout, disk[..], group))
    {
      hide Mount, Parse, ImageOk, Abs, Placed, Descriptor, Bit, PutBit, MarginsKept, SuperKept, Sound;
      ReadySizes();
      InodeBitUsed(geo, layout, disk[..], group, bit);
      BitmapPlaced(geo, layout, group);
      SuperElsewhere(geo, layout, disk[..], bitmap);
      BitmapMargin(geo, layout, origin, disk[..], group, bit, on);
      PutBitChanges(Buffer(), bit, on);
      DescriptorKept(geo, layout, disk[..], bitmap, PutBit(Buffer(), bit, on), group);
      WriteInodeBitmap(geo, layout, disk[..], Word(superblock, FREE_BLOCKS_WORD), Word(superblock, FREE_INODES_WORD),
        group, PutBit(Buffer(), bit, on), z, on);
      PutBufferBit(bit, on);
      var ok := WriteBlock(bitmap);
    }

    lemma BitTellsInodeUsed(group: nat, bit: nat)
      requires Ready() && group < geo.groupCount && bit < geo.inodesPerGroup
      requires InodeStart(geo, group) + bit < geo.inodesCount
      ensures layout.inodeBitmap[group] < disk.Length && bit < 8 * |disk[layout.inodeBitmap[group]]|
      ensures Bit(disk[layout.inodeBitmap[group]], bit) == Vol().iused[InodeStart(geo, group) + bit]
      ensures InodeGroupOf(geo, InodeStart(geo, group) + bit) == group
    {
      hide Mount, Parse, Descriptor, Bit, UsedInode, ImageOk, Abs;
      ReadySizes();
      BitmapPlaced(geo, layout, group);
      InodeBitUsed(geo, layout, disk[..], group, bit);
      AbsAt(geo, layout, disk[..], Word(superblock, FREE_BLOCKS_WORD), Word(superblock, FREE_INODES_WORD));
    }

    /** allocate_inode. */
    method AllocateInode() returns (found: Option<nat>)
      requires Valid()
      modifies this`superblock, disk, blockBuffer
      ensures Valid()
      ensures Allocation(Vol(), found) == Volumes.AllocateInode(old(Vol()))
    {
      hide Mount, Parse, ImageOk, Abs, Placed, Descriptor, Sound, Shape, Agreement, AllocateInodeFrom, FirstClear,
        TakeInode, InodeGroupOf, DescFreeInodes, Ready, Vol, StoredSuper;
      ghost var v := Vol();
      VolFacts();
      var group := 0;
      while group < geo.groupCount
        invariant group <= geo.groupCount && Valid() && Vol() == v
        invariant Volumes.AllocateInode(v) == AllocateInodeFrom(v, group)
      {
        VolFacts();
        AllocateInodeAt(v, group);
        var count := geo.inodesPerGroup;
        var first := group * geo.inodesPerGroup;
        var firstFree := if geo.firstIno > first then geo.firstIno - first - 1 else 0;
        if first >= geo.inodesCount {
          group := group + 1;
          continue;
        }
        if first + count > geo.inodesCount {
          count := geo.inodesCount - first;
        }
        var ok, d := ReadGroupDescriptor(group);
        if !ok || DescFreeInodes(d) == 0 {
          group := group + 1;
          continue;
        }
        found := TakeInodeFrom(group, first, firstFree, count, d);
        if found.Some? {
          return;
        }
        group := group + 1;
      }
      AllocateInodeEnd(v);
      return None;
    }

    /** The scan of one group: take its first free inode that is not reserved. */
    method TakeInodeFrom(group: nat, first: nat, firstFree: nat, count: nat, d: seq<Byte>) returns (found: Option<nat>)
      requires Valid() && group < geo.groupCount && d == Descriptor(geo, layout, disk[..], group)
      requires DescFreeInodes(d) != 0
      requires first == InodeStart(geo, group) && first + count == InodeEnd(geo, group)
      modifies this`superblock, disk, blockBuffer
      ensures Valid()
      ensures match FirstClear(old(Vol()).iused, first + firstFree, first + count)
        case None => found == None && Vol() == old(Vol())
        case Some(z) => found == Some(z + 1) && TookInode(old(Vol()), Vol(), group, z + 1)
    {
      hide Mount, Parse, ImageOk, Abs, Placed, Descriptor, Sound, Shape, Agreement, TakeInode, Bit, UsedInode,
        InodeGroupOf, DescFreeInodes, Ready, Vol, StoredSuper, DescInodeBitmap;
      ghost var v := Vol();
      VolFacts();
      GroupBitmap(group);
      var bitmap := DescInodeBitmap(d);
      var ok := ReadBlock(bitmap);
      var bit := firstFree;
      while bit < count
        invariant firstFree <= bit && Valid() && Vol() == v && disk[..] == old(disk[..]) && Buffer() == disk[bitmap]
        invariant FirstClear(v.iused, first + firstFree, first + count)
          == FirstClear(v.iused, first + bit, first + count)
      {
        BitTellsInodeUsed(group, bit);
        if !Bit(Buffer(), bit) {
          TakeInodeBit(group, first, bit, d);
          return Some(first + bit + 1);
        }
        bit := bit + 1;
      }
      return None;
    }

    method TakeInodeBit(group: nat, first: nat, bit: nat, d: seq<Byte>)
      requires Valid() && group < geo.groupCount && d == Descriptor(geo, layout, disk[..], group)
      requires DescFreeInodes(d) != 0
      requires first == InodeStart(geo, group) && bit < geo.inodesPerGroup && first + bit < geo.inodesCount
      requires !Vol().iused[first + bit]
      requires geo.blockSize <= blockBuffer.Length
      requires DescInodeBitmap(d) < disk.Length && Buffer() == disk[DescInodeBitmap(d)]
      modifies this`superblock, disk, blockBuffer
      ensures Valid() && TookInode(old(Vol()), Vol(), group, first + bit + 1)
    {
      hide Mount, Parse, ImageOk, Abs, Placed, Descriptor, Sound, Agreement, Bit, UsedInode,
        InodeGroupOf, DescFreeInodes, Ready, Vol, StoredSuper, DescInodeBitmap;
      ghost var v := Vol();
      VolFacts();
      GroupBitmap(group);
      BitTellsInodeUsed(group, bit);
      TakeInodeAgreement(v, first + bit + 1);
      CountsFit(v);
      MarkInode(DescInodeBitmap(d), group, bit, first + bit, true);
      var ok := AdjustCounts(group, d, FREE_INODES_WORD, -1);
    }

    /** free_inode. */
    method FreeInode(i: nat) returns (ok: bool)
      requires Valid() && ValidInode(Vol(), i) && Vol().iused[i - 1]
      modifies this`superblock, disk, blockBuffer
      ensures ok && Valid() && Vol() == Volumes.FreeInode(old(Vol()), i)
    {
      hide Mount, Parse, ImageOk, Abs, Placed, Descriptor, Agreement, Shape, Volumes.FreeInode, Ready, Vol, StoredSuper,
        InodeStart, Sound;
      VolFacts();
      var zeroBased := i - 1;
      PlaceOfInode(geo, zeroBased);
      var group := zeroBased / geo.inodesPerGroup;
      var index := zeroBased % geo.inodesPerGroup;
      ReleaseInode(group, index, i);
      return true;
    }

    method ReleaseInode(group: nat, bit: nat, i: nat)
      requires Valid() && group < geo.groupCount && ValidInode(Vol(), i) && Vol().iused[i - 1]
      requires i - 1 == InodeStart(geo, group) + bit && bit < geo.inodesPerGroup
      modifies this`superblock, disk, blockBuffer
      ensures Valid() && Vol() == Volumes.FreeInode(old(Vol()), i)
    {
      hide Mount, Parse, ImageOk, Abs, Placed, Descriptor, Sound, Agreement, Bit, UsedInode,
        InodeGroupOf, DescFreeInodes, Ready, Vol, StoredSuper, DescInodeBitmap;
      ghost var v := Vol();
      VolFacts();
      GroupBitmap(group);
      BitTellsInodeUsed(group, bit);
      FreeInodeAgreement(v, i);
      CountsFit(v);
      CountsFit(Volumes.FreeInode(v, i));
      var ok, d := ReadGroupDescriptor(group);
      ok := ReadBlock(DescInodeBitmap(d));
      MarkInode(DescInodeBitmap(d), group, bit, i - 1, false);
      ok := AdjustCounts(group, d, FREE_INODES_WORD, 1);
    }

    // ---- inodes ----

    lemma RecordInDisk(z: nat)
      requires Ready() && z < geo.inodesCount
      ensures geo.inodesPerGroup > 0 && geo.blockSize > 0
      ensures InodeGroupOf(geo, z) < geo.groupCount == |layout.inodeTable|
      ensures RecordBlock(geo, layout, z) in layout.role && layout.role[RecordBlock(geo, layout, z)].InodeTable?
      ensures RecordBlock(geo, layout, z) < disk.Length && RecordOffset(geo, z) + geo.inodeSize <= geo.blockSize
      ensures INODE_RECORD <= geo.inodeSize && |disk[RecordBlock(geo, layout, z)]| == geo.blockSize
      ensures Vol().inodes[z]
           == Decode(disk[RecordBlock(geo, layout, z)][RecordOffset(geo, z)..RecordOffset(geo, z) + INODE_RECORD])
    {
      hide Mount, Parse, Descriptor, Decode, ImageOk, Abs, Placed;
      ReadySizes();
      SoundSizes(geo);
      RecordFits(geo, layout, z);
      AbsAt(geo, layout, disk[..], Word(superblock, FREE_BLOCKS_WORD), Word(superblock, FREE_INODES_WORD));
    }

    /** memcpy from the block buffer into the inode buffer. */
    method CopyToInodeBuffer(offset: nat, n: nat)
      requires geo.blockSize <= blockBuffer.Length && offset + n <= geo.blockSize && n <= inodeBuffer.Length
      requires blockBuffer != inodeBuffer
      modifies inodeBuffer
      ensures inodeBuffer[..n] == Buffer()[offset..offset + n]
    {
      forall k | 0 <= k < n {
        inodeBuffer[k] := blockBuffer[offset + k];
      }
      assert inodeBuffer[..n] == blockBuffer[offset..offset + n];
    }

    /** ext2_read_inode. */
    method ReadInode(i: nat) returns (ok: bool, node: Inode)
      requires Ready()
      modifies blockBuffer, inodeBuffer
      ensures ok == ValidInode(Vol(), i) && node.Fits()
      ensures ok ==> |Vol().inodes| == Vol().geo.inodesCount && node == Vol().inodes[i - 1]
    {
      hide Mount, Parse, ImageOk, Abs, Placed, Descriptor, Ready, Vol, Decode, DescInodeTable, Sound;
      VolFacts();
      if i == 0 || i > geo.inodesCount {
        return false, ZeroInode();
      }
      var zeroBased := i - 1;
      RecordInDisk(zeroBased);
      var group := zeroBased / geo.inodesPerGroup;
      var index := zeroBased % geo.inodesPerGroup;
      GroupBitmap(group);
      var d;
      ok, d := ReadGroupDescriptor(group);
      var byteOffset := index * geo.inodeSize;
      var block := DescInodeTable(d) + byteOffset / geo.blockSize;
      var offset := byteOffset % geo.blockSize;
      ok := ReadBlock(block);
      var firstPart := Min(geo.inodeSize, geo.blockSize - offset);
      CopyToInodeBuffer(offset, firstPart);
      if firstPart < geo.inodeSize {
        assert false;
      }
      assert inodeBuffer[..INODE_RECORD] == inodeBuffer[..firstPart][..INODE_RECORD]
          == disk[block][offset..offset + INODE_RECORD];
      return true, Decode(inodeBuffer[..INODE_RECORD]);
    }

    /** Read the block at hand, lay `record` over the inode record at `offset` and put it back in the buffer. */
    method PatchRecord(block: nat, offset: nat, record: seq<Byte>) returns (ok: bool)
      requires Ready() && block < disk.Length && offset + geo.inodeSize <= geo.blockSize
      requires |record| == INODE_RECORD <= geo.inodeSize
      modifies blockBuffer, inodeBuffer
      ensures ok && geo.blockSize <= blockBuffer.Length && |disk[block]| == geo.blockSize
      ensures Buffer() == Splice(disk[block], offset, record)
    {
      hide Mount, Parse, ImageOk, Placed;
      ReadySizes();
      ok := ReadBlock(block);
      var firstPart := Min(geo.inodeSize, geo.blockSize - offset);
      CopyToInodeBuffer(offset, firstPart);
      if firstPart < geo.inodeSize {
        assert false;
      }
      ghost var was := inodeBuffer[..firstPart];
      forall k | 0 <= k < |record| {
        inodeBuffer[k] := record[k];
      }
      assert inodeBuffer[..firstPart] == record + was[INODE_RECORD..];
      ok := ReadBlock(block);
      Put(offset, inodeBuffer[..firstPart]);
      SpliceSame(disk[block], offset, record, inodeBuffer[..firstPart]);
    }

    /** ext2_write_inode. */
    method WriteInode(i: nat, node: Inode) returns (ok: bool)
      requires Ready() && node.Fits()
      modifies disk, blockBuffer, inodeBuffer
      ensures Ready() && OnDisk() == old(OnDisk()) && ok == ValidInode(Vol(), i)
      ensures ok ==> 0 < i <= |old(Vol()).inodes|
      ensures Vol() == if ok then old(Vol()).(inodes := old(Vol()).inodes[i - 1 := node]) else old(Vol())
    {
      hide Mount, Parse, ImageOk, Abs, Placed, Descriptor, Decode, Encode, DescInodeTable, Sound, Splice;
      VolFacts();
      if i == 0 || i > geo.inodesCount {
        return false;
      }
      var zeroBased := i - 1;
      RecordInDisk(zeroBased);
      var group := zeroBased / geo.inodesPerGroup;
      var index := zeroBased % geo.inodesPerGroup;
      GroupBitmap(group);
      var d;
      ok, d := ReadGroupDescriptor(group);
      var byteOffset := index * geo.inodeSize;
      var block := DescInodeTable(d) + byteOffset / geo.blockSize;
      var offset := byteOffset % geo.blockSize;
      assert block == RecordBlock(geo, layout, zeroBased) && offset == RecordOffset(geo, zeroBased);
      ok := PatchRecord(block, offset, Encode(node));
      ok := StoreRecord(block, offset, zeroBased, node);
    }

    method StoreRecord(block: nat, ghost offset: nat, ghost z: nat, ghost node: Inode) returns (ok: bool)
      requires Ready() && node.Fits() && z < geo.inodesCount && geo.inodesPerGroup > 0 && geo.blockSize > 0
      requires InodeGroupOf(geo, z) < |layout.inodeTable| && block == RecordBlock(geo, layout, z)
      requires offset == RecordOffset(geo, z)
      requires geo.blockSize <= blockBuffer.Length && block < disk.Length && offset + INODE_RECORD <= |disk[block]|
      requires Buffer() == Splice(disk[block], offset, Encode(node))
      modifies disk
      ensures ok && Ready() && OnDisk() == old(OnDisk())
      ensures z < |old(Vol()).inodes| && Vol() == old(Vol()).(inodes := old(Vol()).inodes[z := node])
    {
      hide Mount, Parse, ImageOk, Abs, Placed, Descriptor, Decode, Encode, Sound, Splice, RecordBlock, RecordOffset,
        MarginsKept, SuperKept;
      VolFacts();
      RecordInDisk(z);
      SuperElsewhere(geo, layout, disk[..], block);
      InodeMargin(geo, layout, origin, disk[..], z, Encode(node));
      WriteRecord(geo, layout, disk[..], Word(superblock, FREE_BLOCKS_WORD), Word(superblock, FREE_INODES_WORD), z,
                  node);
      ok := WriteBlock(block);
    }

    // ---- the pointer tree ----

    method ReadPointer(block: nat, index: nat) returns (ok: bool, value: nat)
      requires Ready() && Shape(Vol()) && Walkable(Vol(), block)
      modifies blockBuffer
      ensures var r := PointerTree.ReadPointer(Vol(), block, index);
        ok == r.Some? && (ok ==> value == r.value)
    {
      hide Mount, Parse, ImageOk, Abs, Placed, Shape, Word;
      VolFacts();
      if block == 0 || index >= geo.blockSize / 4 {
        return false, 0;
      }
      ok := ReadBlock(block);
      if !ok {
        return false, 0;
      }
      ContentsAt(block);
      return true, Word(Buffer(), index);
    }

    lemma ContentsAt(b: nat)
      requires Ready() && b < disk.Length && Plain(Vol(), b)
      ensures Vol().store[b] == disk[b]
    {
      hide Mount, Parse, ImageOk, Abs, Placed;
      ReadySizes();
      PlainIsContents(geo, layout, disk[..], Word(superblock, FREE_BLOCKS_WORD), Word(superblock, FREE_INODES_WORD), b);
    }

    /** inode_block. */
    method InodeBlock(node: Inode, logical: nat) returns (ok: bool, physical: nat)
      requires Ready() && Shape(Vol()) && node.Fits() && PathWalkable(Vol(), node, logical)
      modifies blockBuffer
      ensures var r := PointerTree.InodeBlock(Vol(), node, logical);
        ok == r.Some? && (ok ==> physical == r.value)
      ensures Mapped(Vol(), node, logical) == if ok then physical else 0
    {
      hide Mount, Parse, ImageOk, Abs, Placed, Shape, PointerTree.ReadPointer, Ready, Vol, PointerTree.InodeBlock,
        PathWalkable, Top, Low, TripleBlock, TripleWalkable;
      VolFacts();
      physical := 0;
      var pointers := geo.blockSize / 4;
      WalkRules(Vol(), node, logical);
      if logical < 12 {
        return true, node.direct[logical];
      }
      var rest := logical - 12;
      if rest < pointers {
        ok, physical := ReadPointer(node.indirect, rest);
        return;
      }
      rest := rest - pointers;
      if rest < pointers * pointers {
        var first;
        ok, first := ReadPointer(node.doubly, rest / pointers);
        if ok {
          ok, physical := ReadPointer(first, rest % pointers);
        }
        return;
      }
      ok, physical := TriplyIndirect(node, rest - pointers * pointers);
    }

    /** The last region of inode_block. */
    method TriplyIndirect(node: Inode, rest: nat) returns (ok: bool, physical: nat)
      requires Ready() && Shape(Vol()) && TripleWalkable(Vol(), node, rest)
      modifies blockBuffer
      ensures var r := TripleBlock(Vol(), node, rest);
        ok == r.Some? && (ok ==> physical == r.value)
    {
      hide Mount, Parse, ImageOk, Abs, Placed, Shape, PointerTree.ReadPointer, Ready, Vol;
      VolFacts();
      physical := 0;
      var pointers := geo.blockSize / 4;
      if rest >= pointers * pointers * pointers {
        return false, 0;
      }
      var first, second;
      ok, first := ReadPointer(node.triply, rest / (pointers * pointers));
      if !ok {
        return;
      }
      ok, second := ReadPointer(first, rest / pointers % pointers);
      if !ok {
        return;
      }
      ok, physical := ReadPointer(second, rest % pointers);
    }

    /** Read table `b`, set one pointer of it and write it back. */
    method StorePointer(b: nat, index: nat, p: nat) returns (ok: bool)
      requires Valid() && b != 0 && Walkable(Vol(), b) && index < Pointers(Vol()) && p < 0x1_0000_0000
      modifies disk, blockBuffer
      ensures Valid() && ok == Plain(old(Vol()), b)
      ensures Vol() == if ok then StoreBlock(old(Vol()), b, PutWord(old(Vol()).store[b], index, p)) else old(Vol())
    {
      hide Mount, Parse, ImageOk, Abs, Placed, Sound, Agreement, PutWord, Ready, Vol, StoredSuper;
      VolFacts();
      if b < disk.Length {
        ContentsAt(b);
        StoreAgreement(Vol(), b, PutWord(Vol().store[b], index, p));
      }
      ok := ReadBlock(b);
      if !ok {
        return;
      }
      PutBufferWord(index, p);
      ok := WriteContentsOf(b);
    }

    /** Keep a pointer, or allocate the block it should lead to. */
    method EnsureBlock(b: nat) returns (found: Option<nat>)
      requires Valid() && Walkable(Vol(), b) && b < 0x1_0000_0000
      modifies this`superblock, disk, blockBuffer
      ensures Valid() && Allocation(Vol(), found) == PointerTree.EnsureBlock(old(Vol()), b)
      ensures found.Some? ==> 0 < found.value < 0x1_0000_0000 && Walkable(Vol(), found.value)
      ensures found.Some? && b == 0 ==>
        Plain(Vol(), found.value) && Vol().store[found.value] == Zeros(Vol().geo.blockSize)
      ensures b != 0 ==> found == Some(b) && Vol() == old(Vol())
    {
      hide Mount, Parse, ImageOk, Abs, Placed, Sound, Agreement, Ready, Vol, StoredSuper, Volumes.AllocateBlock;
      if b != 0 {
        return Some(b);
      }
      AllocationFacts(Vol());
      found := AllocateBlock();
    }

    /** The table at `index` of table `table`, allocated and linked if absent. */
    method EnsureChild(table: nat, index: nat) returns (found: Option<nat>)
      requires Valid() && table != 0 && Walkable(Vol(), table) && index < Pointers(Vol())
      requires PointerWalkable(Vol(), PointerTree.ReadPointer(Vol(), table, index))
      modifies this`superblock, disk, blockBuffer
      ensures Valid() && Allocation(Vol(), found) == PointerTree.EnsureChild(old(Vol()), table, index)
      ensures found.Some? ==> found.value != 0 && Walkable(Vol(), found.value)
    {
      hide Mount, Parse, ImageOk, Abs, Placed, Sound, Agreement, PutWord, Ready, Vol, StoredSuper,
        Volumes.AllocateBlock;
      ghost var v := Vol();
      VolFacts();
      var ok, child := ReadPointer(table, index);
      if !ok {
        return None;
      }
      if child != 0 {
        return Some(child);
      }
      AllocationFacts(v);
      found := AllocateBlock();
      if found.None? {
        return None;
      }
      VolFacts();
      ok := StorePointer(table, index, found.value);
    }

    /** set_inode_block. */
    method SetInodeBlock(node: Inode, logical: nat, physical: nat) returns (ok: bool, node': Inode)
      requires Valid() && node.Fits() && physical < 0x1_0000_0000
      requires logical < MaxLogical(Vol()) ==> PathWalkable(Vol(), node, logical)
      modifies this`superblock, disk, blockBuffer
      ensures Valid() && Growth(Vol(), node', ok) == PointerTree.SetInodeBlock(old(Vol()), node, logical, physical)
    {
      hide Mount, Parse, ImageOk, Abs, Placed, Sound, Agreement, Ready, Vol, StoredSuper, PointerTree.SetInodeBlock,
        PathWalkable, PointerTree.EnsureBlock, PointerTree.EnsureChild, PointerTree.ReadPointer, PutWord, Shape;
      ghost var v := Vol();
      VolFacts();
      SetRules(v, node, logical, physical);
      node' := node;
      var pointers := geo.blockSize / 4;
      if logical < 12 {
        return true, node.(direct := node.direct[logical := physical]);
      }
      var rest := logical - 12;
      if rest < pointers {
        WalkRules(v, node, logical);
        var found := EnsureBlock(node.indirect);
        if found.None? {
          return false, node;
        }
        node' := node.(indirect := found.value);
        VolFacts();
        ok := StorePointer(node'.indirect, rest, physical);
        return;
      }
      rest := rest - pointers;
      if rest < pointers * pointers {
        WalkRules(v, node, logical);
        var found := EnsureBlock(node.doubly);
        if found.None? {
          return false, node;
        }
        node' := node.(doubly := found.value);
        VolFacts();
        if node.doubly == 0 {
          FreshTable(Vol(), found.value, rest / pointers);
        }
        var child := EnsureChild(node'.doubly, rest / pointers);
        if child.None? {
          return false, node';
        }
        VolFacts();
        ok := StorePointer(child.value, rest % pointers, physical);
        return;
      }
      return false, node;
    }

    /** inode_block, then ext2_read_block of what it found: how every loop over a file gets at its data. */
    method LoadLogical(node: Inode, logical: nat) returns (ok: bool, physical: nat)
      requires Ready() && Shape(Vol()) && node.Fits() && PathWalkable(Vol(), node, logical)
      requires Walkable(Vol(), Mapped(Vol(), node, logical))
      modifies blockBuffer
      ensures geo.blockSize <= blockBuffer.Length
      ensures var b := Mapped(Vol(), node, logical);
        ok == (b != 0 && Plain(Vol(), b)) && (ok ==> physical == b && Buffer() == Vol().store[b])
    {
      hide Mount, Parse, ImageOk, Abs, Placed, Ready, Vol, Shape, PathWalkable, PointerTree.InodeBlock, Mapped;
      VolFacts();
      BufferFits();
      ok, physical := InodeBlock(node, logical);
      if !ok || physical == 0 {
        return false, 0;
      }
      ok := ReadBlock(physical);
      if ok {
        ContentsAt(physical);
      }
    }

    // ---- whole files ----

    /** memcpy from the block buffer to a caller's buffer. */
    method CopyOut(buffer: array<Byte>, at: nat, offset: nat, amount: nat)
      requires geo.blockSize <= blockBuffer.Length && offset + amount <= geo.blockSize
      requires buffer != blockBuffer && at + amount <= buffer.Length
      modifies buffer
      ensures buffer[..at + amount] == old(buffer[..at]) + Buffer()[offset..offset + amount]
      ensures buffer[at + amount..] == old(buffer[at + amount..])
    {
      forall k | 0 <= k < amount {
        buffer[at + k] := blockBuffer[offset + k];
      }
      assert buffer[at..at + amount] == blockBuffer[offset..offset + amount];
      assert buffer[..at + amount] == buffer[..at] + buffer[at..at + amount];
    }

    /** One pass of the reading loop: the part of one block that was asked for. */
    method ReadPart(node: Inode, buffer: array<Byte>, done: nat, wanted: nat) returns (ok: bool, amount: nat)
      requires Ready() && Shape(Vol()) && node.Fits() && done < wanted <= buffer.Length
      requires buffer != blockBuffer && buffer != inodeBuffer && FileWalkable(Vol(), node, BlockCount(Vol(), wanted))
      modifies blockBuffer, buffer
      ensures !ok ==> ReadFrom(Vol(), node, done, wanted) == None
      ensures ok ==> 0 < amount && done + amount <= wanted && buffer[done + amount..] == old(buffer[done + amount..])
      ensures ok ==>
        Ahead(old(buffer[..done]), ReadFrom(Vol(), node, done, wanted))
        == Ahead(buffer[..done + amount], ReadFrom(Vol(), node, done + amount, wanted))
    {
      hide Mount, Parse, ImageOk, Abs, Placed, Sound, Ready, Vol, Shape, ReadFrom, Mapped,
        PathWalkable, BlockCount, Ahead, FileWalkable, Plain;
      ghost var v := Vol();
      VolFacts();
      BufferFits();
      BlockOfByte(v, wanted, done);
      ReadFromAt(v, node, done, wanted);
      var logical := done / geo.blockSize;
      var offset := done % geo.blockSize;
      amount := Min(wanted - done, geo.blockSize - offset);
      WalkableAt(v, node, BlockCount(v, wanted), logical);
      var physical;
      ok, physical := LoadLogical(node, logical);
      if ok {
        ghost var was := buffer[..done];
        CopyOut(buffer, done, offset, amount);
        RestMoves(v, node, done, amount, wanted, was, buffer[..done + amount], physical);
      }
    }

    /** ext2_read_file: how many bytes were read, or -1. */
    method ReadFile(i: nat, buffer: array<Byte>, size: nat) returns (r: int)
      requires Valid() && buffer != blockBuffer && buffer != inodeBuffer && size <= buffer.Length
      requires ValidInode(Vol(), i) ==>
        FileWalkable(Vol(), InodeOf(Vol(), i), BlockCount(Vol(), Min(size, InodeOf(Vol(), i).size)))
      modifies blockBuffer, inodeBuffer, buffer
      ensures match Files.ReadFile(Vol(), i, size)
        case None => r == -1
        case Some(bytes) => r == |bytes| <= buffer.Length && buffer[..r] == bytes && buffer[r..] == old(buffer[r..])
    {
      hide Mount, Parse, ImageOk, Abs, Placed, Sound, Agreement, Ready, Vol, StoredSuper, Shape, ReadFrom, Mapped,
        PathWalkable, BlockCount, Ahead, FileWalkable, Plain;
      ghost var v := Vol();
      VolFacts();
      BufferFits();
      var ok, node := ReadInode(i);
      if !ok {
        return -1;
      }
      var wanted := Min(size, node.size);
      var bytesRead := 0;
      NothingAhead(ReadFrom(v, node, 0, wanted), buffer[..0]);
      while bytesRead < wanted
        invariant bytesRead <= wanted && buffer[bytesRead..] == old(buffer[bytesRead..])
        invariant ReadFrom(v, node, 0, wanted) == Ahead(buffer[..bytesRead], ReadFrom(v, node, bytesRead, wanted))
      {
        var amount;
        AheadOfNone(buffer[..bytesRead]);
        ghost var behind := buffer[bytesRead..];
        ok, amount := ReadPart(node, buffer, bytesRead, wanted);
        if !ok {
          return -1;
        }
        assert buffer[bytesRead + amount..] == behind[amount..];
        bytesRead := bytesRead + amount;
      }
      ReadFromEnd(v, node, wanted, buffer[..bytesRead]);
      return bytesRead;
    }

    /** metadata_block_count. */
    method MetadataBlockCount(dataBlocks: nat) returns (metadata: nat)
      requires Ready() && Shape(Vol())
      ensures metadata == MetadataCount(Vol(), dataBlocks)
    {
      hide Mount, Parse, ImageOk, Abs, Placed, Ready, Vol, Shape;
      VolFacts();
      var pointers := geo.blockSize / 4;
      metadata := 0;
      if dataBlocks > 12 {
        metadata := metadata + 1;
        if dataBlocks > 12 + pointers {
          metadata := metadata + 1;
          metadata := metadata + (dataBlocks - 12 - pointers + pointers - 1) / pointers;
        }
      }
    }

    /** One pass of that loop. */
    method GrowOne(i: nat, node: Inode, logical: nat, ghost owner: Owners, ghost upto: nat)
      returns (ok: bool, node': Inode, ghost owner': Owners)
      requires Valid() && node.Fits() && logical < upto <= MaxLogical(Vol())
      requires Recorded(Vol(), owner) && FileTree(Vol(), owner, i, node, logical)
      modifies this`superblock, disk, blockBuffer
      ensures Valid() && Vol().geo == old(Vol()).geo && node'.Fits()
      ensures ok ==> Recorded(Vol(), owner') && FileTree(Vol(), owner', i, node', logical + 1)
      ensures ok ==> Files.GrowFile(old(Vol()), node, logical, upto) == Files.GrowFile(Vol(), node', logical + 1, upto)
      ensures !ok ==> Files.GrowFile(old(Vol()), node, logical, upto) == Growth(Vol(), node', false)
    {
      hide Mount, Parse, ImageOk, Abs, Placed, Sound, Agreement, Ready, Vol, StoredSuper, Shape, Mapped, Files.GrowFile,
        Recorded, MaxLogical, PointerTree.SetInodeBlock, Volumes.AllocateBlock, Kept, Tables, Tied, DataHeld, DataTied,
        PathWalkable;
      ghost var v := Vol();
      VolFacts();
      GrowFileAt(v, node, logical, upto);
      ghost var o1 := AllocateFor(v, owner, Data(i, logical));
      owner', node' := owner, node;
      var found := AllocateBlock();
      if found.None? {
        return false, node, owner;
      }
      NewDataUndisturbed(v, owner, i, node, logical, Vol(), o1, found.value);
      ghost var r, o2 := GrowStep(v, owner, i, node, logical, Vol(), o1, found.value);
      SameMaximum(v, Vol());
      TablesWalkable(Vol(), o1, i, node, logical);
      ok, node' := SetInodeBlock(node, logical, found.value);
      owner' := o2;
    }

    /** First loop of ext2_write_file: give the file the blocks it lacks. */
    method GrowFile(i: nat, node: Inode, from: nat, upto: nat, ghost owner: Owners)
      returns (ok: bool, node': Inode, ghost owner': Owners)
      requires Valid() && node.Fits() && from <= upto <= MaxLogical(Vol())
      requires Recorded(Vol(), owner) && FileTree(Vol(), owner, i, node, from)
      modifies this`superblock, disk, blockBuffer
      ensures Valid() && Growth(Vol(), node', ok) == Files.GrowFile(old(Vol()), node, from, upto)
      ensures node'.Fits() && (ok ==> FileTree(Vol(), owner', i, node', upto))
    {
      hide Mount, Parse, ImageOk, Abs, Placed, Sound, Agreement, Ready, Vol, StoredSuper, Shape, Mapped, Files.GrowFile,
        FileTree, Recorded, MaxLogical;
      node', owner' := node, owner;
      ok := true;
      var logical := from;
      ghost var v := Vol();
      while logical < upto
        invariant from <= logical <= upto && Valid() && node'.Fits() && Vol().geo == v.geo
        invariant Recorded(Vol(), owner') && FileTree(Vol(), owner', i, node', logical)
        invariant Files.GrowFile(old(Vol()), node, from, upto) == Files.GrowFile(Vol(), node', logical, upto)
      {
        SameMaximum(v, Vol());
        ok, node', owner' := GrowOne(i, node', logical, owner', upto);
        if !ok {
          return;
        }
        logical := logical + 1;
      }
      GrowFileAt(Vol(), node', upto, upto);
    }

    /** One pass of the second loop of ext2_write_file. */
    method FillOne(i: nat, node: Inode, buf: seq<Byte>, logical: nat, ghost owner: Owners) returns (ok: bool)
      requires Valid() && node.Fits() && FileTree(Vol(), owner, i, node, BlockCount(Vol(), |buf|))
      requires logical < BlockCount(Vol(), |buf|)
      modifies disk, blockBuffer
      ensures ok && Valid() && Vol().geo == old(Vol()).geo && FileTree(Vol(), owner, i, node, BlockCount(Vol(), |buf|))
      ensures Files.FillFile(old(Vol()), node, buf, logical) == Files.FillFile(Vol(), node, buf, logical + 1)
    {
      hide Mount, Parse, ImageOk, Abs, Placed, Sound, Agreement, Ready, Vol, StoredSuper, Shape, Mapped, MaxLogical,
        Tables, Tied, DataHeld, PathWalkable, OnlyDataOf, Chunk, BlockCount, FileWalkable, PointerTree.InodeBlock,
        Files.FillFile, Piece, Splice, Written;
      ghost var v := Vol();
      VolFacts();
      BufferFits();
      TreeWalkable(v, owner, i, node, BlockCount(v, |buf|));
      WalkableAt(v, node, BlockCount(v, |buf|), logical);
      FillStep(v, owner, i, node, buf, logical);
      StartOfBlock(v, |buf|, logical);
      FillFileAt(v, node, buf, logical);
      ChunkIsPiece(geo.blockSize, buf, logical);
      var physical;
      ok, physical := InodeBlock(node, logical);
      ClearBuffer();
      Put(0, Piece(geo.blockSize, buf, logical));
      StoreAgreement(v, physical, Buffer());
      ok := WriteContentsOf(physical);
      SameCounts(v, Vol(), node, |buf|);
    }

    /** The end of ext2_write_file: record the new size and block count. */
    method FinishWrite(i: nat, node: Inode, size: nat, blocks: nat) returns (r: int)
      requires Valid() && ValidInode(Vol(), i) && node.Fits() && size < 0x8000_0000 && blocks == BlockCount(Vol(), size)
      modifies disk, blockBuffer, inodeBuffer
      ensures Valid() && r == size
      ensures Vol() == WithInode(old(Vol()), i, Written(old(Vol()), node, size))
    {
      hide Mount, Parse, ImageOk, Abs, Placed, Sound, Agreement, Ready, Vol, StoredSuper, Shape, MetadataCount,
        BlockCount;
      VolFacts();
      var metadata := MetadataBlockCount(blocks);
      var node' := node.(size := size, blocks := (blocks + metadata) * (geo.blockSize / 512) % 0x1_0000_0000);
      InodeAgreement(Vol(), i, node');
      var ok := WriteInode(i, node');
      return if ok then size else -1;
    }

    /** ext2_write_file: the number of bytes written, or -1. */
    method WriteFile(i: nat, buf: seq<Byte>, ghost owner: Owners) returns (r: int)
      requires Valid() && |buf| < 0x8000_0000
      requires ValidInode(Vol(), i) ==> Recorded(Vol(), owner) && FileAt(Vol(), owner, i)
      modifies this`superblock, disk, blockBuffer, inodeBuffer
      ensures Valid() && (r == -1 || r == |buf|)
      ensures Outcome(Vol(), r == |buf|) == Files.WriteFile(old(Vol()), i, buf)
    {
      hide Mount, Parse, ImageOk, Abs, Placed, Sound, Agreement, Ready, Vol, StoredSuper, Shape, Mapped, Recorded,
        MaxLogical, FileTree, Files.GrowFile, Files.FillFile, CeilDiv, MetadataCount, Files.WriteFile, Written;
      ghost var v := Vol();
      VolFacts();
      WriteRules(v, i, buf);
      var ok, node := ReadInode(i);
      if !ok || !node.IsFile() {
        return -1;
      }
      if |buf| < node.size {
        return -1;
      }
      SetRules(v, node, 0, 0);
      BlockCountMono(v, node.size, |buf|);
      BlockCountSize(v);
      var oldBlocks := CeilDiv(node.size, geo.blockSize);
      var newBlocks := CeilDiv(|buf|, geo.blockSize);
      if newBlocks > 12 + geo.blockSize / 4 + geo.blockSize / 4 * (geo.blockSize / 4) {
        return -1;
      }
      var grown;
      ghost var o;
      ok, grown, o := GrowFile(i, node, oldBlocks, newBlocks, owner);
      if !ok {
        return -1;
      }
      ghost var g := Vol();
      var logical := 0;
      FillFileAt(g, grown, buf, 0);
      while logical < newBlocks
        invariant logical <= newBlocks && Valid() && Vol().geo == v.geo
        invariant FileTree(Vol(), o, i, grown, newBlocks)
        invariant Files.FillFile(g, grown, buf, 0) == Files.FillFile(Vol(), grown, buf, logical)
      {
        ok := FillOne(i, grown, buf, logical, o);
        logical := logical + 1;
      }
      FillFileAt(Vol(), grown, buf, newBlocks);
      FillKeeps(g, grown, buf);
      SameCounts(v, Vol(), grown, |buf|);
      r := FinishWrite(i, grown, |buf|, newBlocks);
    }

    lemma BufferFits()
      requires Ready()
      ensures 0 < geo.blockSize <= blockBuffer.Length && geo.blockSize <= inodeBuffer.Length
      ensures blockBuffer != inodeBuffer
    {
      hide Mount, Parse, Placed;
    }

    // ---- directories ----

    /** name_equal, on the name of a record. */
    method NameEqual(entry: seq<Byte>, length: nat, wanted: Name) returns (equal: bool)
      requires 8 + length <= |entry|
      ensures equal == (entry[8..8 + length] == wanted)
    {
      if |wanted| != length {
        return false;
      }
      for k := 0 to length
        invariant entry[8..8 + k] == wanted[..k]
      {
        if entry[8 + k] != wanted[k] {
          assert entry[8..8 + length][k] != wanted[k];
          return false;
        }
      }
      return true;
    }

    /** Is the record at the start of `entry` one the directory loops go on with? */
    method CheckRecord(entry: seq<Byte>) returns (valid: bool)
      requires |entry| >= 8
      ensures valid == ValidRec(entry)
    {
      if RecLen(entry) < 8 || RecLen(entry) > |entry| || NameLen(entry) > RecLen(entry) - 8 {
        return false;
      }
      return true;
    }

    /** The inner loop of ext2_find_inode_in_dir over the first `limit` bytes of the buffer. */
    method SearchBuffer(limit: nat, name: Name) returns (found: Option<nat>)
      requires limit <= geo.blockSize <= blockBuffer.Length
      ensures found == FindIn(Buffer()[..limit], name)
    {
      hide RecInode, RecLen, NameLen;
      ghost var s := Buffer()[..limit];
      var offset := 0;
      while offset + 8 <= limit
        invariant offset <= limit && FindIn(s, name) == FindIn(s[offset..], name)
        decreases limit - offset
      {
        var entry := blockBuffer[offset..limit];
        assert entry == s[offset..] by {
          assert Buffer()[..limit][offset..] == Buffer()[offset..limit] == blockBuffer[offset..limit];
        }
        var valid := CheckRecord(entry);
        if !valid {
          break;
        }
        if RecInode(entry) != 0 {
          var equal := NameEqual(entry, NameLen(entry), name);
          if equal {
            return Some(RecInode(entry));
          }
        }
        assert Rest(entry) == s[offset + RecLen(entry)..];
        offset := offset + RecLen(entry);
      }
      return None;
    }

    /** ext2_find_inode_in_dir. */
    method FindInodeInDir(dir: nat, name: Name) returns (found: Option<nat>)
      requires Valid()
      requires ValidInode(Vol(), dir) && InodeOf(Vol(), dir).IsDir() ==>
        FileWalkable(Vol(), InodeOf(Vol(), dir), BlockCount(Vol(), InodeOf(Vol(), dir).size))
      modifies blockBuffer, inodeBuffer
      ensures found == FindInDir(Vol(), dir, name)
    {
      hide Mount, Parse, ImageOk, Abs, Placed, Sound, Agreement, Ready, Vol, StoredSuper, Shape, Mapped,
        PathWalkable, CeilDiv, FileWalkable, Plain, FindIn, FindFrom;
      ghost var v := Vol();
      VolFacts();
      BufferFits();
      if |name| == 0 || |name| > EXT2_MAX_NAME_LEN {
        return None;
      }
      var ok, node := ReadInode(dir);
      if !ok || !node.IsDir() {
        return None;
      }
      BlockCountSize(v);
      var blocks := CeilDiv(node.size, geo.blockSize);
      var logical := 0;
      while logical < blocks
        invariant logical <= blocks && FindFrom(v, node, name, 0) == FindFrom(v, node, name, logical)
      {
        FindFromAt(v, node, name, logical);
        StartOfBlock(v, node.size, logical);
        WalkableAt(v, node, blocks, logical);
        var physical;
        ok, physical := LoadLogical(node, logical);
        if !ok {
          return None;
        }
        found := SearchBuffer(Min(geo.blockSize, node.size - logical * geo.blockSize), name);
        if found.Some? {
          return;
        }
        logical := logical + 1;
      }
      FindFromAt(v, node, name, blocks);
      return None;
    }

    // ---- adding a name ----

    /** Overwrite the unused record at `offset` by one for `name`, keeping its length. */
    method ReuseRecord(offset: nat, inode: nat, name: Name, kind: Byte)
      requires geo.blockSize <= blockBuffer.Length && offset <= geo.blockSize && Addable(inode, name)
      requires ValidRec(Buffer()[offset..]) && RecLen(Buffer()[offset..]) >= 8 + |name|
      modifies blockBuffer
      ensures Buffer() == old(Buffer())[..offset] + Reuse(old(Buffer())[offset..], inode, name, kind)
    {
      hide RecInode, RecLen, NameLen, Reuse, Record, Le32, Splice;
      ghost var s := Buffer();
      Put(offset, Le32(inode));
      Put(offset + 6, [|name|]);
      Put(offset + 7, [kind]);
      Put(offset + 8, name);
      ReuseFields(s, offset, inode, name, kind);
    }

    /** Cut the live record at `offset` down to `actual` bytes and put a record for `name` behind it. */
    method SplitRecord(offset: nat, actual: nat, inode: nat, name: Name, kind: Byte)
      requires geo.blockSize <= blockBuffer.Length && offset <= geo.blockSize && Addable(inode, name)
      requires ValidRec(Buffer()[offset..]) && 8 <= actual && RecLen(Buffer()[offset..]) >= actual + 8 + |name|
      modifies blockBuffer
      ensures Buffer() == old(Buffer())[..offset] + Split(old(Buffer())[offset..], actual, inode, name, kind)
    {
      hide RecInode, NameLen, Split, Record, Le16, Splice;
      ghost var s := Buffer();
      var oldLength := RecLen(Buffer()[offset..]);
      Put(offset + 4, Le16(actual));
      Put(offset + actual, Record(inode, oldLength - actual, name, kind));
      SplitFields(s, offset, actual, inode, name, kind);
    }

    /** The inner loop of add_directory_entry. */
    method InsertInBuffer(inode: nat, name: Name, kind: Byte) returns (inserted: bool)
      requires geo.blockSize <= blockBuffer.Length && Addable(inode, name)
      modifies blockBuffer
      ensures match AddIn(old(Buffer()), inode, name, kind)
        case None => !inserted && Buffer() == old(Buffer())
        case Some(x) => inserted && Buffer() == x
    {
      hide RecInode, RecLen, NameLen, AddIn, Reuse, Split, Required;
      ghost var s := Buffer();
      var required := Required(|name|);
      var offset := 0;
      NothingAhead(AddIn(s, inode, name, kind), s[..0]);
      assert s[0..] == s;
      while offset + 8 <= geo.blockSize
        invariant offset <= geo.blockSize && Buffer() == s
        invariant AddIn(s, inode, name, kind) == Ahead(s[..offset], AddIn(s[offset..], inode, name, kind))
        decreases geo.blockSize - offset
      {
        var entry := blockBuffer[offset..geo.blockSize];
        assert entry == s[offset..];
        AddInAt(s, offset, inode, name, kind);
        var valid := CheckRecord(entry);
        if !valid {
          break;
        }
        var actual := if RecInode(entry) == 0 then 8 else Required(NameLen(entry));
        if RecInode(entry) == 0 && RecLen(entry) >= required {
          ReuseRecord(offset, inode, name, kind);
          return true;
        }
        if RecInode(entry) != 0 && RecLen(entry) >= actual + required {
          SplitRecord(offset, actual, inode, name, kind);
          return true;
        }
        offset := offset + RecLen(entry);
      }
      AddInStops(s, offset, inode, name, kind);
      return false;
    }

    /** add_directory_entry: the directory inode is returned as the caller will write it back. */
    method AddDirectoryEntry(node: Inode, inode: nat, name: Name, kind: Byte) returns (ok: bool, node': Inode)
      requires Valid() && node.Fits() && Addable(inode, name)
      requires FileWalkable(Vol(), node, BlockCount(Vol(), node.size))
      modifies this`superblock, disk, blockBuffer
      ensures Valid() && Growth(Vol(), node', ok) == AddEntry(old(Vol()), node, inode, name, kind)
    {
      hide Mount, Parse, ImageOk, Abs, Placed, Sound, Agreement, Ready, Vol, StoredSuper, Shape, Mapped,
        PathWalkable, CeilDiv, FileWalkable, Plain, AddIn, AddFrom, AddBlock;
      ghost var v := Vol();
      VolFacts();
      BufferFits();
      BlockCountSize(v);
      var blocks := CeilDiv(node.size, geo.blockSize);
      var logical := 0;
      while logical < blocks
        invariant logical <= blocks && Valid() && Vol() == v
        invariant AddFrom(v, node, inode, name, kind, 0) == AddFrom(v, node, inode, name, kind, logical)
      {
        AddFromAt(v, node, inode, name, kind, logical);
        WalkableAt(v, node, blocks, logical);
        var physical;
        ok, physical := LoadLogical(node, logical);
        if !ok {
          return false, node;
        }
        var inserted := InsertInBuffer(inode, name, kind);
        if inserted {
          StoreAgreement(v, physical, Buffer());
          WithinDisk(physical);
          ok := WriteContentsOf(physical);
          return true, node;
        }
        logical := logical + 1;
      }
      AddFromAt(v, node, inode, name, kind, blocks);
      ok, node' := AppendBlock(node, blocks, inode, name, kind);
    }

    lemma WithinDisk(b: nat)
      requires Ready() && Plain(Vol(), b)
      ensures b < disk.Length
    {
      hide Mount, Parse, ImageOk, Abs, Placed, Sound;
      VolFacts();
    }

    /** The end of add_directory_entry: a new block holding one record. */
    method AppendBlock(node: Inode, blocks: nat, inode: nat, name: Name, kind: Byte) returns (ok: bool, node': Inode)
      requires Valid() && node.Fits() && Addable(inode, name) && blocks == BlockCount(Vol(), node.size)
      modifies this`superblock, disk, blockBuffer
      ensures Valid() && Growth(Vol(), node', ok) == AddBlock(old(Vol()), node, inode, name, kind)
    {
      hide Mount, Parse, ImageOk, Abs, Placed, Sound, Agreement, Ready, Vol, StoredSuper, Shape, BlockCount, AddBlock,
        Volumes.AllocateBlock, PointerTree.SetInodeBlock, Record, PathWalkable;
      ghost var v := Vol();
      VolFacts();
      BufferFits();
      AddBlockRules(v, node, inode, name, kind);
      if blocks >= 12 {
        return false, node;
      }
      SmallSize(v, node.size);
      AllocationFacts(v);
      var found := AllocateBlock();
      if found.None? {
        return false, node;
      }
      var physical := found.value;
      ghost var w := Vol();
      DirectWalkable(w, node, blocks);
      SetDirectBlock(w, node, blocks, physical);
      ok, node' := SetInodeBlock(node, blocks, physical);
      ClearBuffer();
      Put(0, Record(inode, geo.blockSize, name, kind));
      StoreAgreement(w, physical, Buffer());
      WithinDisk(physical);
      ok := WriteContentsOf(physical);
      node' := node'.(size := node'.size + geo.blockSize,
                      blocks := (node'.blocks + geo.blockSize / 512) % 0x1_0000_0000);
    }

    // ---- removing a name ----

    /** The inner loop of remove_directory_entry. */
    method ClearInBuffer(name: Name) returns (cleared: bool)
      requires geo.blockSize <= blockBuffer.Length
      modifies blockBuffer
      ensures match RemoveIn(old(Buffer()), name)
        case None => !cleared && Buffer() == old(Buffer())
        case Some(x) => cleared && Buffer() == x
    {
      hide RecInode, RecLen, NameLen, RemoveIn, Splice;
      ghost var s := Buffer();
      var offset := 0;
      NothingAhead(RemoveIn(s, name), s[..0]);
      assert s[0..] == s;
      while offset + 8 <= geo.blockSize
        invariant offset <= geo.blockSize && Buffer() == s
        invariant RemoveIn(s, name) == Ahead(s[..offset], RemoveIn(s[offset..], name))
        decreases geo.blockSize - offset
      {
        var entry := blockBuffer[offset..geo.blockSize];
        assert entry == s[offset..];
        RemoveInAt(s, offset, name);
        var valid := CheckRecord(entry);
        if !valid {
          break;
        }
        if RecInode(entry) != 0 {
          var equal := NameEqual(entry, NameLen(entry), name);
          if equal {
            Put(offset, Le32(0));
            SpliceBehind(s, offset, Le32(0));
            return true;
          }
        }
        offset := offset + RecLen(entry);
      }
      RemoveInStops(s, offset, name);
      return false;
    }

    /** remove_directory_entry. */
    method RemoveDirectoryEntry(node: Inode, name: Name) returns (ok: bool)
      requires Valid() && node.Fits() && FileWalkable(Vol(), node, BlockCount(Vol(), node.size))
      modifies disk, blockBuffer
      ensures Valid() && Outcome(Vol(), ok) == RemoveEntry(old(Vol()), node, name)
    {
      hide Mount, Parse, ImageOk, Abs, Placed, Sound, Agreement, Ready, Vol, StoredSuper, Shape, Mapped,
        PathWalkable, CeilDiv, FileWalkable, Plain, RemoveIn, RemoveFrom;
      ghost var v := Vol();
      VolFacts();
      BufferFits();
      BlockCountSize(v);
      var blocks := CeilDiv(node.size, geo.blockSize);
      var logical := 0;
      while logical < blocks
        invariant logical <= blocks && Valid() && Vol() == v
        invariant RemoveFrom(v, node, name, 0) == RemoveFrom(v, node, name, logical)
      {
        RemoveFromAt(v, node, name, logical);
        WalkableAt(v, node, blocks, logical);
        var physical;
        ok, physical := LoadLogical(node, logical);
        if !ok {
          return;
        }
        var cleared := ClearInBuffer(name);
        if cleared {
          StoreAgreement(v, physical, Buffer());
          WithinDisk(physical);
          ok := WriteContentsOf(physical);
          return;
        }
        logical := logical + 1;
      }
      RemoveFromAt(v, node, name, blocks);
      return false;
    }

    // ---- creating ----

    /** ext2_create_file in the current directory. */
    method CreateFile(name: Name, uid: nat, ghost owner: Owners) returns (created: Option<nat>)
      requires Valid() && StoreOk(Vol(), owner) && currentDir in View(Vol())
      modifies this`superblock, disk, blockBuffer, inodeBuffer
      ensures Valid() && Created(Vol(), created) == FileSystem.CreateFile(old(Vol()), currentDir, name, uid)
    {
      hide Mount, Parse, ImageOk, Abs, Placed, Sound, Agreement, Ready, Vol, StoredSuper, Shape, FileWalkable, View,
        StoreOk, FindInDir, AddEntry, Volumes.AllocateInode, NewFileInode, BlockCount;
      ghost var v := Vol();
      VolFacts();
      LiveWalkable(v, owner, currentDir);
      if |name| == 0 || |name| > EXT2_MAX_NAME_LEN {
        return None;
      }
      var found := FindInodeInDir(currentDir, name);
      if found.Some? {
        return None;
      }
      var ok, directory := ReadInode(currentDir);
      if !ok || !directory.IsDir() {
        return None;
      }
      InodeAllocationFacts(v);
      created := AllocateInode();
      if created.None? {
        return;
      }
      var node := NewFileInode(uid);
      InodeAgreement(Vol(), created.value, node);
      ok := WriteInode(created.value, node);
      WalkableSame(v, Vol(), directory);
      var directory';
      ok, directory' := AddDirectoryEntry(directory, created.value, name, EXT2_FT_REG_FILE);
      if !ok {
        return None;
      }
      InodeAgreement(Vol(), currentDir, directory');
      ok := WriteInode(currentDir, directory');
    }

    /** The first block of a new directory, in the buffer. */
    method PutDotEntries(self: nat, parent: nat)
      requires Ready() && 0 < self < 0x1_0000_0000 && 0 < parent < 0x1_0000_0000
      modifies blockBuffer
      ensures 1024 <= geo.blockSize <= blockBuffer.Length && geo.blockSize <= 4096
      ensures Buffer() == DotBlock(geo.blockSize, self, parent)
    {
      hide Mount, Parse, ImageOk, Placed, Record;
      ReadySizes();
      ClearBuffer();
      Put(0, Record(self, 12, DOT, EXT2_FT_DIR));
      Put(12, Record(parent, geo.blockSize - 12, DOTDOT, EXT2_FT_DIR));
    }

    /** ext2_create_directory in the current directory. */
    method CreateDirectory(name: Name, uid: nat, ghost owner: Owners) returns (created: Option<nat>)
      requires Valid() && StoreOk(Vol(), owner) && currentDir in View(Vol())
      modifies this`superblock, disk, blockBuffer, inodeBuffer
      ensures Valid() && Created(Vol(), created) == FileSystem.CreateDirectory(old(Vol()), currentDir, name, uid)
    {
      hide Mount, Parse, ImageOk, Abs, Placed, Sound, Agreement, Ready, Vol, StoredSuper, Shape, FileWalkable, View,
        StoreOk, FindInDir, AddEntry, Volumes.AllocateInode, Volumes.AllocateBlock, NewDirectory, BlockCount;
      ghost var v := Vol();
      VolFacts();
      LiveWalkable(v, owner, currentDir);
      if |name| == 0 || |name| > EXT2_MAX_NAME_LEN {
        return None;
      }
      var found := FindInodeInDir(currentDir, name);
      if found.Some? {
        return None;
      }
      var ok, parent := ReadInode(currentDir);
      if !ok || !parent.IsDir() {
        return None;
      }
      InodeAllocationFacts(v);
      created := AllocateInode();
      if created.None? {
        return;
      }
      ghost var a := Vol();
      var dataBlock := AllocateBlock();
      if dataBlock.None? {
        return None;
      }
      NewDirectoryWalkable(v, owner, a, currentDir, created.value, uid);
      MakeDirectory(created.value, dataBlock.value, uid, a);
      var parent';
      ok, parent' := AddDirectoryEntry(parent, created.value, name, EXT2_FT_DIR);
      if !ok {
        return None;
      }
      parent' := parent'.(links := (parent'.links + 1) % 0x1_0000);
      InodeAgreement(Vol(), currentDir, parent');
      ok := WriteInode(currentDir, parent');
    }

    /** The middle of ext2_create_directory: the first block and the inode. */
    method MakeDirectory(self: nat, block: nat, uid: nat, ghost a: Volume)
      requires Valid() && ValidInode(Vol(), self) && ValidInode(Vol(), currentDir) && Plain(Vol(), block)
      requires block < 0x1_0000_0000
      modifies disk, blockBuffer, inodeBuffer
      ensures Valid() && Vol() == NewDirectory(old(Vol()), self, currentDir, uid, block)
    {
      hide Mount, Parse, ImageOk, Abs, Placed, Sound, Agreement, Ready, Vol, StoredSuper, Shape, NewDirInode, DotBlock;
      VolFacts();
      InodeBounds(Vol(), self);
      InodeBounds(Vol(), currentDir);
      PutDotEntries(self, currentDir);
      StoreAgreement(Vol(), block, Buffer());
      WithinDisk(block);
      var ok := WriteContentsOf(block);
      var node := NewDirInode(geo.blockSize, uid, block);
      InodeAgreement(Vol(), self, node);
      ok := WriteInode(self, node);
    }

    // ---- paths ----

    /** path_next_component, with the path pointer as an index: 1 when there is a component, 0 at the
        end of the path, -1 when the component is too long. */
    static method PathNextComponent(path: Path, at: nat) returns (result: int, component: Name, at': nat)
      requires at <= |path|
      ensures at <= at' <= |path| && result in {-1, 0, 1}
      ensures NextComponent(path[at..])
           == if result == 0 then Done else if result < 0 then TooLong
             else Paths.Component.Component(component, path[at'..])
    {
      hide NameLength;
      at' := at;
      component := [];
      while at' < |path| && path[at'] == SLASH
        invariant at <= at' <= |path| && NextComponent(path[at..]) == NextComponent(path[at'..])
      {
        assert path[at'..][1..] == path[at' + 1..];
        at' := at' + 1;
      }
      if at' == |path| {
        return 0, [], at';
      }
      result, component, at' := TakeComponent(path, at');
    }

    /** The copying loop of path_next_component. */
    static method TakeComponent(path: Path, at: nat) returns (result: int, component: Name, at': nat)
      requires at < |path| && path[at] != SLASH
      ensures at <= at' <= |path| && result in {-1, 1}
      ensures NextComponent(path[at..])
           == if result < 0 then TooLong else Paths.Component.Component(component, path[at'..])
    {
      hide NextComponent, NameLength;
      at' := at;
      component := [];
      ghost var p := path[at..];
      ghost var n := 0;
      assert p[0..] == p;
      NextIsComponent(p);
      while at' < |path| && path[at'] != SLASH
        invariant at' == at + n <= |path| && component == p[..n] && n <= EXT2_MAX_NAME_LEN
        invariant NameLength(p) == n + NameLength(p[n..])
      {
        NameGoesOn(p, n);
        if |component| >= EXT2_MAX_NAME_LEN {
          return -1, [], at';
        }
        component := component + [path[at']];
        at', n := at' + 1, n + 1;
      }
      NameEnds(p[n..]);
      assert p[n..] == path[at'..];
      return 1, component, at';
    }

    /** ext2_find_inode_by_path. */
    method FindInodeByPath(path: Path, ghost owner: Owners, ghost home: Homes) returns (found: Option<nat>)
      requires Valid() && StoreOk(Vol(), owner) && TreeOk(View(Vol()), home) && currentDir in View(Vol())
      modifies blockBuffer, inodeBuffer
      ensures found == FindByPath(Vol(), currentDir, path)
      ensures found.Some? ==> found.value in View(Vol())
    {
      hide Mount, Parse, ImageOk, Abs, Placed, Sound, Agreement, Ready, Vol, StoredSuper, Shape, FileWalkable, View,
        StoreOk, TreeOk, FindInDir, BlockCount, NextComponent, Resolve;
      ghost var v := Vol();
      if path == [] {
        return None;
      }
      var inode := currentDir;
      var at := 0;
      if path[0] == SLASH || (path[0] == TILDE && (|path| == 1 || path[1] == SLASH)) {
        GoodRoot(View(v), home);
        inode := ROOT;
        if path[0] == TILDE {
          at := 1;
        }
      }
      ghost var first, rest := inode, path[at..];
      assert FindByPath(v, currentDir, path) == Resolve(v, first, rest) by {
        assert path[0..] == path;
      }
      var result, component;
      result, component, at := PathNextComponent(path, at);
      ghost var before := rest;
      while result > 0
        invariant at <= |path| && inode in View(v) && result in {-1, 0, 1}
        invariant Resolve(v, first, rest) == Resolve(v, inode, before)
        invariant NextComponent(before)
               == if result == 0 then Done else if result < 0 then TooLong
                 else Paths.Component.Component(component, path[at..])
        decreases |before|
      {
        ResolveAt(v, inode, before);
        NextShortens(before);
        if component != DOT {
          LiveWalkable(v, owner, inode);
          ghost var parent := inode;
          var child := FindInodeInDir(inode, component);
          if child.None? {
            return None;
          }
          inode := child.value;
          ChildInTree(v, owner, home, parent, component, inode);
        }
        before := path[at..];
        result, component, at := PathNextComponent(path, at);
      }
      ResolveAt(v, inode, before);
      if result < 0 {
        return None;
      }
      return Some(inode);
    }

    /** split_parent_path. */
    static method SplitParentPath(path: Path) returns (parts: Option<Parts>)
      ensures parts == SplitParent(path)
    {
      if path == [] {
        return None;
      }
      var length := 0;
      var lastSeparator := -1;
      while length < |path|
        invariant length <= |path| && -1 <= lastSeparator < length
        invariant NameStart(path[..length]) == lastSeparator + 1
      {
        assert path[..length + 1][..length] == path[..length];
        if path[length] == SLASH {
          lastSeparator := length;
        }
        length := length + 1;
      }
      assert path[..length] == path;
      if length > 255 {
        return None;
      }
      var nameStart := lastSeparator + 1;
      var nameLength := length - nameStart;
      if nameLength == 0 || nameLength > EXT2_MAX_NAME_LEN {
        return None;
      }
      var name := path[nameStart..];
      if lastSeparator < 0 {
        return Some(Parts([], name));
      } else if lastSeparator == 0 {
        return Some(Parts([SLASH], name));
      } else {
        return Some(Parts(path[..lastSeparator], name));
      }
    }

    /** The directory a split path works in: the current one when there was no slash. */
    method FindParent(parent: Path, ghost owner: Owners, ghost home: Homes) returns (found: Option<nat>)
      requires Valid() && StoreOk(Vol(), owner) && TreeOk(View(Vol()), home) && currentDir in View(Vol())
      modifies blockBuffer, inodeBuffer
      ensures found == ParentOf(Vol(), currentDir, parent)
      ensures found.Some? ==> found.value in View(Vol())
    {
      hide Mount, Parse, ImageOk, Abs, Placed, Sound, Agreement, Ready, Vol, StoredSuper, Shape, View, StoreOk, TreeOk,
        FindByPath;
      if parent == [] {
        return Some(currentDir);
      }
      found := FindInodeByPath(parent, owner, home);
    }

    // ---- deleting ----

    /** First loop of the freeing half of ext2_delete_file_by_path: the data blocks. */
    method FreeDataBlocks(i: nat, node: Inode, blocks: nat, ghost owner: Owners) returns (ghost owner': Owners)
      requires Valid() && node.Fits() && Recorded(Vol(), owner) && FileTree(Vol(), owner, i, node, blocks)
      modifies this`superblock, disk, blockBuffer
      ensures Valid() && Vol() == FreeData(old(Vol()), node, 0, blocks) && Recorded(Vol(), owner')
      ensures forall b :: b in owner && !owner[b].Data? ==> b in owner' && owner'[b] == owner[b]
    {
      hide Mount, Parse, ImageOk, Abs, Placed, Sound, Agreement, Ready, Vol, StoredSuper, Shape, Mapped, FileTree,
        Recorded, FreeData, Volumes.FreeBlock, FileWalkable, MaxLogical, DataFrom, PathWalkable, Freed;
      ghost var v := Vol();
      owner' := owner;
      HeldWalkable(v, owner, i, node, blocks);
      var logical := 0;
      while logical < blocks
        invariant logical <= blocks && Valid() && Recorded(Vol(), owner')
        invariant Vol().geo == v.geo && Vol().store == v.store
        invariant DataFrom(Vol(), owner', i, node, logical, blocks)
        invariant FreeData(v, node, 0, blocks) == FreeData(Vol(), node, logical, blocks)
        invariant forall b :: b in owner && !owner[b].Data? ==> b in owner' && owner'[b] == owner[b]
      {
        owner' := FreeOne(v, i, node, logical, blocks, owner');
        logical := logical + 1;
      }
      FreeDataAt(Vol(), node, blocks, blocks);
    }

    /** One pass of that loop; `v` is a volume with the same store, in which the file can be walked. */
    method FreeOne(ghost v: Volume, i: nat, node: Inode, logical: nat, ghost blocks: nat, ghost owner: Owners)
      returns (ghost owner': Owners)
      requires Valid() && node.Fits() && Recorded(Vol(), owner) && DataFrom(Vol(), owner, i, node, logical, blocks)
      requires Shape(v) && Vol().geo == v.geo && Vol().store == v.store && FileWalkable(v, node, blocks)
      requires logical < blocks <= MaxLogical(v)
      modifies this`superblock, disk, blockBuffer
      ensures Valid() && Recorded(Vol(), owner') && Vol().geo == v.geo && Vol().store == v.store
      ensures DataFrom(Vol(), owner', i, node, logical + 1, blocks)
      ensures FreeData(old(Vol()), node, logical, blocks) == FreeData(Vol(), node, logical + 1, blocks)
      ensures forall b :: b in owner && !owner[b].Data? ==> b in owner' && owner'[b] == owner[b]
    {
      hide Mount, Parse, ImageOk, Abs, Placed, Sound, Agreement, Ready, Vol, StoredSuper, Shape, Mapped, Recorded,
        FreeData, Volumes.FreeBlock, FileWalkable, MaxLogical, DataFrom, PathWalkable, Freed;
      ghost var w := Vol();
      WalkableAt(v, node, blocks, logical);
      PathSame(v, w, node, logical);
      SameMaximum(v, w);
      FreeDataStep(w, owner, i, node, logical, blocks);
      FreeDataAt(w, node, logical, blocks);
      ghost var b := Mapped(w, node, logical);
      OwnedUsed(w, owner, b);
      FreedFacts(w, owner, Volumes.FreeBlock(w, b), owner - {b});
      owner' := owner - {b};
      var ok, physical := InodeBlock(node, logical);
      if ok && physical != 0 {
        ok := FreeBlock(physical);
      }
    }

    /** Free a table, if there is one. */
    method FreeTableBlock(b: nat, ghost owner: Owners) returns (ghost owner': Owners)
      requires Valid() && Recorded(Vol(), owner) && (b != 0 ==> b in owner)
      modifies this`superblock, disk, blockBuffer
      ensures Valid() && Vol() == (if b != 0 then Volumes.FreeBlock(old(Vol()), b) else old(Vol()))
      ensures Vol().geo == old(Vol()).geo && Vol().store == old(Vol()).store
      ensures owner' == (if b != 0 then owner - {b} else owner) && Recorded(Vol(), owner')
    {
      hide Mount, Parse, ImageOk, Abs, Placed, Sound, Agreement, Ready, Vol, StoredSuper, Shape, Recorded,
        Volumes.FreeBlock, Freed;
      ghost var v := Vol();
      owner' := FreeTable(v, owner, b);
      FreedFacts(v, owner, if b != 0 then Volumes.FreeBlock(v, b) else v, owner');
      if b != 0 {
        OwnedUsed(v, owner, b);
        var ok := FreeBlock(b);
      }
    }

    /** The loop over a saved copy of the top table. */
    method FreeListed(i: nat, table: Block, ghost owner: Owners) returns (ghost owner': Owners)
      requires Valid() && Recorded(Vol(), owner) && |table| == Vol().geo.blockSize
      requires ChildrenFrom(Vol(), owner, i, table, 0)
      modifies this`superblock, disk, blockBuffer
      ensures Valid() && Vol() == FreeChildren(old(Vol()), table, 0) && Recorded(Vol(), owner')
      ensures forall b :: b in owner && !owner[b].Child? ==> b in owner' && owner'[b] == owner[b]
    {
      hide Mount, Parse, ImageOk, Abs, Placed, Sound, Agreement, Ready, Vol, StoredSuper, Shape, Recorded,
        Volumes.FreeBlock, Freed, FreeChildren, ChildrenFrom, Word;
      ghost var v := Vol();
      VolFacts();
      owner' := owner;
      SetRules(v, ZeroInode(), 0, 0);
      var pointers := geo.blockSize / 4;
      var index := 0;
      while index < pointers
        invariant index <= pointers && Valid() && Recorded(Vol(), owner') && Vol().geo == v.geo
        invariant ChildrenFrom(Vol(), owner', i, table, index)
        invariant FreeChildren(v, table, 0) == FreeChildren(Vol(), table, index)
        invariant forall b :: b in owner && !owner[b].Child? ==> b in owner' && owner'[b] == owner[b]
      {
        SameMaximum(v, Vol());
        FreeChildStep(Vol(), owner', i, table, index);
        FreeChildrenAt(Vol(), table, index);
        owner' := FreeTableBlock(Word(table, index), owner');
        index := index + 1;
      }
      SameMaximum(v, Vol());
      FreeChildrenAt(Vol(), table, pointers);
    }

    /** The freeing half of ext2_delete_file_by_path. */
    method FreeFile(i: nat, node: Inode, ghost owner: Owners)
      requires Valid() && node.Fits() && Recorded(Vol(), owner)
      requires FileTree(Vol(), owner, i, node, BlockCount(Vol(), node.size))
      modifies this`superblock, disk, blockBuffer
      ensures Valid() && Vol() == Release.FreeFile(old(Vol()), node)
    {
      hide Mount, Parse, ImageOk, Abs, Placed, Sound, Agreement, Ready, Vol, StoredSuper, Shape, Recorded,
        Volumes.FreeBlock, Freed, FreeChildren, FreeData, ChildrenFrom, Word, CeilDiv, Mapped;
      ghost var v := Vol();
      VolFacts();
      BlockCountSize(v);
      TablesOwned(v, owner, i, node);
      var blocks := CeilDiv(node.size, geo.blockSize);
      ghost var o := FreeDataBlocks(i, node, blocks, owner);
      ghost var v1 := Vol();
      o := FreeTableBlock(node.indirect, o);
      if node.doubly != 0 {
        ChildrenStill(v, owner, i, node, Vol(), o);
        WithinDisk(node.doubly);
        ContentsAt(node.doubly);
        var ok := ReadBlock(node.doubly);
        o := FreeListed(i, Buffer(), o);
        o := FreeTableBlock(node.doubly, o);
      }
    }

    /** ext2_delete_file_by_path after path resolution. */
    method DeleteIn(parent: nat, name: Name, ghost owner: Owners, ghost home: Homes) returns (ok: bool)
      requires Valid() && StoreOk(Vol(), owner) && TreeOk(View(Vol()), home) && parent in View(Vol())
      modifies this`superblock, disk, blockBuffer, inodeBuffer
      ensures Valid() && Outcome(Vol(), ok) == FileSystem.DeleteFile(old(Vol()), parent, name)
    {
      hide Mount, Parse, ImageOk, Abs, Placed, Sound, Agreement, Ready, Vol, StoredSuper, Shape, FileWalkable, View,
        StoreOk, TreeOk, FindInDir, RemoveEntry, Release.FreeFile, BlockCount, FileTree, Recorded, Volumes.FreeInode;
      ghost var v := Vol();
      VolFacts();
      LiveWalkable(v, owner, parent);
      var parentNode, node;
      ok, parentNode := ReadInode(parent);
      var file := FindInodeInDir(parent, name);
      if file.None? {
        return false;
      }
      ChildInTree(v, owner, home, parent, name, file.value);
      LiveWalkable(v, owner, file.value);
      ok, node := ReadInode(file.value);
      if !node.IsFile() {
        return false;
      }
      ok := RemoveDirectoryEntry(parentNode, name);
      if !ok {
        return;
      }
      StillOwned(v, owner, parent, name, file.value, Vol());
      FreeFile(file.value, node, owner);
      InodeAgreement(Vol(), file.value, ZeroInode());
      ok := WriteInode(file.value, ZeroInode());
      ok := FreeInode(file.value);
    }

    // ---- operations by path ----

    /** The invariant of the whole file system, between operations. */
    ghost predicate Consistent()
      reads this, disk
    {
      Valid() && Sane(State(Vol(), currentDir))
    }

    /** ext2_create_file_by_path. */
    method CreateFileByPath(path: Path, uid: nat) returns (created: Option<nat>)
      requires Consistent()
      modifies this`superblock, this`currentDir, disk, blockBuffer, inodeBuffer
      ensures Consistent() && currentDir == old(currentDir)
      ensures Created(Vol(), created) == Runs.CreateFileByPath(old(Vol()), currentDir, path, uid)
    {
      hide Mount, Parse, ImageOk, Abs, Placed, Sound, Agreement, Ready, Vol, StoredSuper, Shape, View, StoreOk,
        TreeOk, SplitParent, ParentOf, FileSystem.CreateFile;
      ghost var v := Vol();
      ghost var owner, home :| SaneWith(State(v, currentDir), owner, home);
      StepKeepsSane(State(v, currentDir), Create(path, uid));
      var parts := SplitParentPath(path);
      if parts.None? {
        return None;
      }
      var parent := FindParent(parts.value.parent, owner, home);
      if parent.None? {
        return None;
      }
      var savedDir := currentDir;
      currentDir := parent.value;
      created := CreateFile(parts.value.name, uid, owner);
      currentDir := savedDir;
    }

    /** ext2_create_directory_by_path. */
    method CreateDirectoryByPath(path: Path, uid: nat) returns (created: Option<nat>)
      requires Consistent()
      modifies this`superblock, this`currentDir, disk, blockBuffer, inodeBuffer
      ensures Consistent() && currentDir == old(currentDir)
      ensures Created(Vol(), created) == Runs.CreateDirectoryByPath(old(Vol()), currentDir, path, uid)
    {
      hide Mount, Parse, ImageOk, Abs, Placed, Sound, Agreement, Ready, Vol, StoredSuper, Shape, View, StoreOk,
        TreeOk, SplitParent, ParentOf, FileSystem.CreateDirectory;
      ghost var v := Vol();
      ghost var owner, home :| SaneWith(State(v, currentDir), owner, home);
      StepKeepsSane(State(v, currentDir), Op.MakeDirectory(path, uid));
      var parts := SplitParentPath(path);
      if parts.None? {
        return None;
      }
      var parent := FindParent(parts.value.parent, owner, home);
      if parent.None? {
        return None;
      }
      var savedDir := currentDir;
      currentDir := parent.value;
      created := CreateDirectory(parts.value.name, uid, owner);
      currentDir := savedDir;
    }

    /** ext2_write_file_by_path: the number of bytes written, or -1. */
    method WriteFileByPath(path: Path, buf: seq<Byte>, uid: nat) returns (r: int)
      requires Consistent() && |buf| < 0x8000_0000
      modifies this`superblock, this`currentDir, disk, blockBuffer, inodeBuffer
      ensures Consistent() && currentDir == old(currentDir) && (r == -1 || r == |buf|)
      ensures Outcome(Vol(), r == |buf|) == Runs.WriteFileByPath(old(Vol()), currentDir, path, buf, uid)
    {
      hide Mount, Parse, ImageOk, Abs, Placed, Sound, Agreement, Ready, Vol, StoredSuper, Shape, View, StoreOk,
        TreeOk, SplitParent, FindByPath, Runs.CreateFileByPath, Files.WriteFile;
      ghost var v := Vol();
      ghost var owner, home :| SaneWith(State(v, currentDir), owner, home);
      StepKeepsSane(State(v, currentDir), Write(path, buf, uid));
      var inode := FindInodeByPath(path, owner, home);
      if inode.None? {
        ghost var o, h := CreateByPathKeepsSane(State(v, currentDir), owner, home, path, uid);
        owner := o;
        inode := CreateFileByPath(path, uid);
        if inode.None? {
          return -1;
        }
      }
      LiveWalkable(Vol(), owner, inode.value);
      r := WriteFile(inode.value, buf, owner);
    }

    /** ext2_read_file_by_path. */
    method ReadFileByPath(path: Path, buffer: array<Byte>, size: nat) returns (r: int)
      requires Consistent() && buffer != blockBuffer && buffer != inodeBuffer && size <= buffer.Length
      modifies blockBuffer, inodeBuffer, buffer
      ensures Consistent()
      ensures match FindByPath(Vol(), currentDir, path)
        case None => r == -1
        case Some(i) =>
          match Files.ReadFile(Vol(), i, size)
          case None => r == -1
          case Some(bytes) => r == |bytes| <= buffer.Length && buffer[..r] == bytes && buffer[r..] == old(buffer[r..])
    {
      hide Mount, Parse, ImageOk, Abs, Placed, Sound, Agreement, Ready, Vol, StoredSuper, Shape, View, StoreOk,
        TreeOk, FindByPath, Files.ReadFile, FileWalkable, BlockCount;
      ghost var v := Vol();
      ghost var owner, home :| SaneWith(State(v, currentDir), owner, home);
      var inode := FindInodeByPath(path, owner, home);
      if inode.None? {
        return -1;
      }
      LiveWalkable(v, owner, inode.value);
      FewerWalkable(v, InodeOf(v, inode.value), size);
      r := ReadFile(inode.value, buffer, size);
    }

    /** ext2_delete_file_by_path. */
    method DeleteFileByPath(path: Path) returns (ok: bool)
      requires Consistent()
      modifies this`superblock, disk, blockBuffer, inodeBuffer
      ensures Consistent()
      ensures Outcome(Vol(), ok) == Runs.DeleteFileByPath(old(Vol()), currentDir, path)
    {
      hide Mount, Parse, ImageOk, Abs, Placed, Sound, Agreement, Ready, Vol, StoredSuper, Shape, View, StoreOk,
        TreeOk, SplitParent, ParentOf, FileSystem.DeleteFile;
      ghost var v := Vol();
      ghost var owner, home :| SaneWith(State(v, currentDir), owner, home);
      StepKeepsSane(State(v, currentDir), Delete(path));
      var parts := SplitParentPath(path);
      if parts.None? {
        return false;
      }
      var parent := FindParent(parts.value.parent, owner, home);
      if parent.None? {
        return false;
      }
      ok := DeleteIn(parent.value, parts.value.name, owner, home);
    }

    /** cmd_cd. */
    method ChangeDirectory(path: Path)
      requires Consistent()
      modifies this`currentDir, blockBuffer, inodeBuffer
      ensures Consistent() && Vol() == old(Vol())
      ensures currentDir == Runs.ChangeDirectory(Vol(), old(currentDir), path)
    {
      hide Mount, Parse, ImageOk, Abs, Placed, Sound, Agreement, Ready, Vol, StoredSuper, Shape, View, StoreOk,
        TreeOk, FindByPath;
      ghost var v := Vol();
      ghost var owner, home :| SaneWith(State(v, currentDir), owner, home);
      StepKeepsSane(State(v, currentDir), Cd(path));
      var inode := FindInodeByPath(path, owner, home);
      if inode.None? {
        return;
      }
      var ok, node := ReadInode(inode.value);
      if !ok || !node.IsDir() {
        return;
      }
      currentDir := inode.value;
    }
  }

  /** Everything an operation did is on disk: mounting the image again, at the root, finds the same volume. */
  method Remount(e: Ext2) returns (f: Ext2)
    requires e.Valid()
    ensures f.Valid() && fresh(f) && f.disk == e.disk && f.geo == e.geo && f.Vol() == e.Vol()
  {
    hide Mount, Parse, ImageOk, Abs, Placed, Agreement, Shape;
    e.ReadySizes();
    SuperPlaced(e.geo, e.layout);
    var block := e.disk[SuperBlockNumber(e.geo)];
    var sectors := block[SuperOffset(e.geo)..SuperOffset(e.geo) + SUPERBLOCK_SIZE];
    assert sectors == e.superblock;
    f := new Ext2(e.disk, sectors, e.layout);
  }
}
