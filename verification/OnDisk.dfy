/** The structures of an ext2 disk as a flat array of bytes: where each one is, and which bytes of it hold
    which field. */
module OnDisk {
  import opened Bytes
  import opened Geometry
  import opened Volumes
  import opened PointerTree
  import opened DiskImage
  import Files

  // ---- the superblock ----

  /** Fields of an ext2_superblock_t that the engine does not look at, in the order they come in. */
  datatype Skipped = Skipped(reservedBlocks: nat, logFragSize: nat, fragsPerGroup: nat, times: seq<Byte>,
                             state: seq<Byte>, groupAndCompat: seq<Byte>, rest: seq<Byte>)
  {
    predicate Fits() {
      && reservedBlocks < 0x1_0000_0000 && logFragSize < 0x1_0000_0000 && fragsPerGroup < 0x1_0000_0000
      && |times| == 12 && |state| == 26 && |groupAndCompat| == 6 && |rest| == 924
    }
  }

  predicate SuperFits(sb: Superblock) {
    && sb.inodesCount < 0x1_0000_0000 && sb.blocksCount < 0x1_0000_0000 && 0 <= sb.freeBlocksCount < 0x1_0000_0000
    && 0 <= sb.freeInodesCount < 0x1_0000_0000 && sb.firstDataBlock < 0x1_0000_0000 && sb.logBlockSize < 0x1_0000_0000
    && sb.blocksPerGroup < 0x1_0000_0000 && sb.inodesPerGroup < 0x1_0000_0000 && sb.magic < 0x1_0000
    && sb.firstIno < 0x1_0000_0000 && sb.inodeSize < 0x1_0000 && sb.featureIncompat < 0x1_0000_0000
  }

  /** The eleven words that a superblock begins with. */
  function SuperWords(sb: Superblock, x: Skipped): (ws: seq<nat>)
    requires SuperFits(sb) && x.Fits()
    ensures |ws| == 11 && forall k :: 0 <= k < 11 ==> ws[k] < 0x1_0000_0000
  {
    [sb.inodesCount, sb.blocksCount, x.reservedBlocks, sb.freeBlocksCount, sb.freeInodesCount, sb.firstDataBlock,
     sb.logBlockSize, x.logFragSize, sb.blocksPerGroup, x.fragsPerGroup, sb.inodesPerGroup]
  }

  /** The 1024 bytes of a superblock, field after field. */
  function SuperText(sb: Superblock, x: Skipped): (s: seq<Byte>)
    requires SuperFits(sb) && x.Fits()
    ensures |s| == SUPERBLOCK_SIZE
  {
    Words(SuperWords(sb, x)) + x.times + Le16(sb.magic) + x.state + Le32(sb.firstIno) + Le16(sb.inodeSize)
    + x.groupAndCompat + Le32(sb.featureIncompat) + x.rest
  }

  /** Mounting reads back each field of it, whatever the others are. */
  lemma SuperblockRoundTrip(sb: Superblock, x: Skipped)
    requires SuperFits(sb) && x.Fits()
    ensures Parse(SuperText(sb, x)) == sb
  {
    hide Words, Le16, Le32, U16, U32;
    var s := SuperText(sb, x);
    var ws := SuperWords(sb, x);
    SuperWordsRead(s, ws);
    ShortFields(s, sb, x);
    Le32RoundTrip(sb.firstIno);
    Le32RoundTrip(sb.featureIncompat);
    Le16RoundTrip(sb.magic);
    Le16RoundTrip(sb.inodeSize);
    FieldAt(s, 56, Le16(sb.magic));
    FieldAt(s, 84, Le32(sb.firstIno));
    FieldAt(s, 88, Le16(sb.inodeSize));
    FieldAt(s, 96, Le32(sb.featureIncompat));
  }

  lemma Le16RoundTrip(v: nat)
    requires v < 0x1_0000
    ensures U16(Le16(v), 0) == v
  {
  }

  lemma ShortFields(s: seq<Byte>, sb: Superblock, x: Skipped)
    requires SuperFits(sb) && x.Fits() && s == SuperText(sb, x)
    ensures s[..44] == Words(SuperWords(sb, x)) && s[56..58] == Le16(sb.magic) && s[84..88] == Le32(sb.firstIno)
    ensures s[88..90] == Le16(sb.inodeSize) && s[96..100] == Le32(sb.featureIncompat)
  {
    hide Words, Le16, Le32;
  }

  lemma SuperWordsRead(s: seq<Byte>, ws: seq<nat>)
    requires |s| == SUPERBLOCK_SIZE && |ws| == 11 && (forall k :: 0 <= k < 11 ==> ws[k] < 0x1_0000_0000)
    requires s[..44] == Words(ws)
    ensures U32(s, 0) == ws[0] && U32(s, 4) == ws[1] && U32(s, 12) == ws[3] && U32(s, 16) == ws[4]
    ensures U32(s, 20) == ws[5] && U32(s, 24) == ws[6] && U32(s, 32) == ws[8] && U32(s, 40) == ws[10]
  {
    hide Words, U32;
    forall k | 0 <= k < 11
      ensures U32(s, 4 * k) == ws[k]
    {
      WordsAt(ws, k);
      U32Slice(s, 4 * k, 0, 44);
    }
    assert U32(s, 4 * 0) == ws[0] && U32(s, 4 * 1) == ws[1] && U32(s, 4 * 3) == ws[3] && U32(s, 4 * 4) == ws[4];
    assert U32(s, 4 * 5) == ws[5] && U32(s, 4 * 6) == ws[6] && U32(s, 4 * 8) == ws[8] && U32(s, 4 * 10) == ws[10];
  }

  // ---- mounting ----

  /** Groups enough for all blocks and all inodes. */
  predicate Covers(sb: Superblock, groups: nat) {
    && sb.blocksCount <= sb.firstDataBlock + groups * sb.blocksPerGroup
    && sb.inodesCount <= groups * sb.inodesPerGroup
  }

  lemma LeastCover(a: nat, b: nat, n: nat)
    requires b > 0
    ensures CeilDiv(a, b) <= n <==> a <= n * b
  {
    DivMod(a + b - 1, b);
    var q := CeilDiv(a, b);
    if q <= n {
      MulMono(q, n, b);
    } else {
      MulMono(n + 1, q, b);
      assert (n + 1) * b == n * b + b;
    }
  }

  /** ext2_mount accepts a superblock exactly under these conditions. */
  lemma MountAccepts(sb: Superblock)
    ensures Mount(sb).Some?
      <==> && sb.magic == 0xEF53 && sb.logBlockSize <= 2 && sb.blocksPerGroup > 0 && sb.inodesPerGroup > 0
           && sb.firstDataBlock < sb.blocksCount && (sb.featureIncompat == 0 || sb.featureIncompat == 2)
           && (sb.inodeSize != 0 ==>
                 && 128 <= sb.inodeSize <= 1024 * Pow2(sb.logBlockSize)
                 && 1024 * Pow2(sb.logBlockSize) % sb.inodeSize == 0)
  {
    SmallPowers();
    if sb.blocksPerGroup > 0 && sb.firstDataBlock < sb.blocksCount {
      LeastCover(sb.blocksCount - sb.firstDataBlock, sb.blocksPerGroup, 0);
    }
  }

  lemma SmallPowers()
    ensures Pow2(0) == 1 && Pow2(1) == 2 && Pow2(2) == 4
  {
  }

  /** And each number of the geometry is the field of that name: the block size is 1024 shifted by its logarithm, an
      inode size of zero means 128, and the groups are the fewest that cover everything. */
  lemma MountReads(sb: Superblock)
    requires Mount(sb).Some?
    ensures var g := Mount(sb).value;
      && g.blockSize == 1024 * Pow2(sb.logBlockSize) && g.inodeSize == (if sb.inodeSize == 0 then 128 else sb.inodeSize)
      && g.blocksCount == sb.blocksCount && g.inodesCount == sb.inodesCount && g.firstDataBlock == sb.firstDataBlock
      && g.blocksPerGroup == sb.blocksPerGroup && g.inodesPerGroup == sb.inodesPerGroup && g.firstIno == sb.firstIno
      && forall groups: nat :: g.groupCount <= groups <==> Covers(sb, groups)
  {
    SmallPowers();
    var g := Mount(sb).value;
    forall groups: nat
      ensures g.groupCount <= groups <==> Covers(sb, groups)
    {
      LeastCover(sb.blocksCount - sb.firstDataBlock, sb.blocksPerGroup, groups);
      LeastCover(sb.inodesCount, sb.inodesPerGroup, groups);
    }
  }

  // ---- a flat array of bytes ----

  /** The byte at address `a`; 0 behind the end. */
  function ByteAt(g: Geometry, disk: Image, a: nat): Byte
    requires Sound(g)
  {
    if a / g.blockSize < |disk| && a % g.blockSize < |disk[a / g.blockSize]| then disk[a / g.blockSize][a % g.blockSize]
    else 0
  }

  /** The bytes from address `a` on. */
  function BytesAt(g: Geometry, disk: Image, a: nat, n: nat): (s: seq<Byte>)
    requires Sound(g)
    ensures |s| == n
  {
    seq<Byte>(n, k requires 0 <= k < n => ByteAt(g, disk, a + k))
  }

  lemma ByteInBlock(g: Geometry, disk: Image, b: nat, o: nat)
    requires Sound(g) && Sized(g, disk) && b < g.blocksCount && o < g.blockSize
    ensures ByteAt(g, disk, b * g.blockSize + o) == disk[b][o]
  {
    Digits2(b, g.blockSize, o);
  }

  lemma InOneBlock(g: Geometry, disk: Image, b: nat, o: nat, n: nat)
    requires Sound(g) && Sized(g, disk) && b < g.blocksCount && o + n <= g.blockSize
    ensures BytesAt(g, disk, b * g.blockSize + o, n) == disk[b][o..o + n]
  {
    hide Sound, ByteAt;
    var s := BytesAt(g, disk, b * g.blockSize + o, n);
    forall k | 0 <= k < n
      ensures s[k] == disk[b][o + k]
    {
      ByteInBlock(g, disk, b, o + k);
    }
  }

  /** The superblock is at address 1024, whatever the block size. */
  lemma SuperblockAt(g: Geometry, l: Layout, disk: Image)
    requires ImageOk(g, l, disk)
    ensures SuperBlockNumber(g) < |disk|
    ensures StoredSuper(g, disk) == BytesAt(g, disk, 1024, 1024)
  {
    hide GroupPlaced, RecordPlaced;
    SuperPlaced(g, l);
    InOneBlock(g, disk, SuperBlockNumber(g), SuperOffset(g), 1024);
    assert SuperBlockNumber(g) * g.blockSize + SuperOffset(g) == 1024;
  }

  /** Where the table of group descriptors begins: at the first block boundary behind the superblock. */
  function TableStart(blockSize: nat): nat {
    if blockSize == 1024 then 2048 else blockSize
  }

  lemma FirstBoundary(blockSize: nat, a: nat)
    requires blockSize in {1024, 2048, 4096}
    ensures TableStart(blockSize) % blockSize == 0 && TableStart(blockSize) >= 2048
    ensures a % blockSize == 0 && a >= 2048 ==> TableStart(blockSize) <= a
  {
  }

  lemma DescriptorAt(g: Geometry, l: Layout, disk: Image, k: nat)
    requires ImageOk(g, l, disk) && k < g.groupCount
    ensures Descriptor(g, l, disk, k) == BytesAt(g, disk, TableStart(g.blockSize) + 32 * k, 32)
  {
    hide RecordPlaced, Sound, BytesAt, DescriptorBlock, DescriptorOffset;
    assert GroupPlaced(g, l, k);
    DescriptorFits(g, k);
    InOneBlock(g, disk, DescriptorBlock(g, k), DescriptorOffset(g, k), 32);
    DescriptorAddress(g, k);
  }

  lemma DescriptorAddress(g: Geometry, k: nat)
    requires Sound(g)
    ensures DescriptorBlock(g, k) * g.blockSize + DescriptorOffset(g, k) == TableStart(g.blockSize) + 32 * k
  {
    DivMod(k * DESCRIPTOR_SIZE, g.blockSize);
    Spread(DescriptorStart(g), k * DESCRIPTOR_SIZE / g.blockSize, g.blockSize);
  }

  lemma Spread(a: nat, b: nat, d: nat)
    ensures (a + b) * d == a * d + b * d
  {
  }

  /** A group descriptor, field after field. */
  function DescriptorText(blockBitmap: nat, inodeBitmap: nat, inodeTable: nat, freeBlocks: nat, freeInodes: nat,
                          rest: seq<Byte>): (d: seq<Byte>)
    requires blockBitmap < 0x1_0000_0000 && inodeBitmap < 0x1_0000_0000 && inodeTable < 0x1_0000_0000
    requires freeBlocks < 0x1_0000 && freeInodes < 0x1_0000 && |rest| == 16
    ensures |d| == DESCRIPTOR_SIZE
  {
    Words([blockBitmap, inodeBitmap, inodeTable]) + Le16(freeBlocks) + Le16(freeInodes) + rest
  }

  lemma DescriptorRoundTrip(blockBitmap: nat, inodeBitmap: nat, inodeTable: nat, freeBlocks: nat, freeInodes: nat,
                            rest: seq<Byte>)
    requires blockBitmap < 0x1_0000_0000 && inodeBitmap < 0x1_0000_0000 && inodeTable < 0x1_0000_0000
    requires freeBlocks < 0x1_0000 && freeInodes < 0x1_0000 && |rest| == 16
    ensures var d := DescriptorText(blockBitmap, inodeBitmap, inodeTable, freeBlocks, freeInodes, rest);
      && DescBlockBitmap(d) == blockBitmap && DescInodeBitmap(d) == inodeBitmap && DescInodeTable(d) == inodeTable
      && DescFreeBlocks(d) == freeBlocks && DescFreeInodes(d) == freeInodes
  {
    hide Words, Le16, U16, U32;
    var ws := [blockBitmap, inodeBitmap, inodeTable];
    var d := DescriptorText(blockBitmap, inodeBitmap, inodeTable, freeBlocks, freeInodes, rest);
    assert d[0..12] == Words(ws) && d[12..14] == Le16(freeBlocks) && d[14..16] == Le16(freeInodes);
    WordsAt(ws, 0);
    WordsAt(ws, 1);
    WordsAt(ws, 2);
    U32Slice(d, 0, 0, 12);
    U32Slice(d, 4, 0, 12);
    U32Slice(d, 8, 0, 12);
    Le16RoundTrip(freeBlocks);
    Le16RoundTrip(freeInodes);
    FieldAt(d, 12, Le16(freeBlocks));
    FieldAt(d, 14, Le16(freeInodes));
  }

  /** The address of entry `j` of an inode table that begins with block `table`. */
  function EntryAt(g: Geometry, table: nat, j: nat): nat {
    table * g.blockSize + j * g.inodeSize
  }

  /** The record of the inode number `j` of group `k`, both counted from zero, is entry `j` of the inode table of the
      group, and reads as the fields of an ext2_inode_t. */
  lemma InodeAt(g: Geometry, l: Layout, disk: Image, k: nat, j: nat, z: nat)
    requires ImageOk(g, l, disk) && k < g.groupCount && j < g.inodesPerGroup
    requires z == k * g.inodesPerGroup + j && z < g.inodesCount
    ensures InodeRecord(g, l, disk, z)
         == BytesAt(g, disk, EntryAt(g, DescInodeTable(Descriptor(g, l, disk, k)), j), 128)
  {
    hide Descriptor, BytesAt;
    InGroup(g, k, j);
    RecordFits(g, l, z);
    InodeNeverStraddles(g, j);
    InOneBlock(g, disk, InodeBlockOf(g, l, k, j), InodeOffset(g, j), 128);
    DivMod(j * g.inodeSize, g.blockSize);
    Spread(l.inodeTable[k], j * g.inodeSize / g.blockSize, g.blockSize);
  }

  lemma InGroup(g: Geometry, k: nat, j: nat)
    requires Sound(g) && j < g.inodesPerGroup
    ensures InodeGroupOf(g, k * g.inodesPerGroup + j) == k && InodeIndex(g, k * g.inodesPerGroup + j) == j
  {
    Digits2(k, g.inodesPerGroup, j);
  }

  /** Bit `k` of a byte has the weight 2 to the power of `k`. */
  lemma {:induction false} BitWeight(x: nat, k: nat)
    ensures BitOf(x, k) <==> x / Pow2(k) % 2 == 1
    decreases k
  {
    if k > 0 {
      BitWeight(x / 2, k - 1);
      HalfFirst(x, Pow2(k - 1));
    }
  }

  lemma HalfFirst(x: nat, p: nat)
    requires p > 0
    ensures x / 2 / p == x / (2 * p)
  {
    var q := x / 2 / p;
    DivMod(x / 2, p);
    var r := x / 2 % p;
    assert x / 2 == q * p + r;
    assert q * (2 * p) == 2 * (q * p);
    DivUnique(x, 2 * p, q);
  }

  /** Bit `j` of a bitmap in block `b` of the disk. */
  predicate BitmapBit(g: Geometry, disk: Image, b: nat, j: nat)
    requires Sound(g)
  {
    ByteAt(g, disk, b * g.blockSize + j / 8) / Pow2(j % 8) % 2 == 1
  }

  lemma BitIsBitmapBit(g: Geometry, disk: Image, b: nat, j: nat)
    requires Sound(g) && Sized(g, disk) && b < g.blocksCount && j < 8 * g.blockSize
    ensures BitmapBit(g, disk, b, j) == Bit(disk[b], j)
  {
    hide Pow2, BitOf;
    ByteInBlock(g, disk, b, j / 8);
    BitWeight(disk[b][j / 8], j % 8);
  }

  /** Block `j` of group `k` is in use if bit `j` is set in the bitmap that the group descriptor points to; what comes
      before the first data block always is. */
  lemma BlockBitAt(g: Geometry, l: Layout, disk: Image, k: nat, j: nat, b: nat)
    requires ImageOk(g, l, disk) && b < g.blocksCount
    ensures k < g.groupCount && j < g.blocksPerGroup && b == g.firstDataBlock + k * g.blocksPerGroup + j ==>
      UsedBlock(g, l, disk, b) == BitmapBit(g, disk, DescBlockBitmap(Descriptor(g, l, disk, k)), j)
    ensures b < g.firstDataBlock ==> UsedBlock(g, l, disk, b)
  {
    if k < g.groupCount && j < g.blocksPerGroup && b == g.firstDataBlock + k * g.blocksPerGroup + j {
      GroupBitAt(g, l, disk, k, j, b);
    }
  }

  lemma GroupBitAt(g: Geometry, l: Layout, disk: Image, k: nat, j: nat, b: nat)
    requires ImageOk(g, l, disk) && k < g.groupCount && j < g.blocksPerGroup && b < g.blocksCount
    requires b == GroupStart(g, k) + j
    ensures UsedBlock(g, l, disk, b) == BitmapBit(g, disk, DescBlockBitmap(Descriptor(g, l, disk, k)), j)
  {
    hide Descriptor, Bit, BitmapBit, GroupPlaced, RecordPlaced;
    BlockOfBit(g, k, j);
    BitmapPlaced(g, l, k);
    BitIsBitmapBit(g, disk, l.blockBitmap[k], j);
  }

  /** The same for inodes. */
  lemma InodeBitAt(g: Geometry, l: Layout, disk: Image, k: nat, j: nat, z: nat)
    requires ImageOk(g, l, disk) && k < g.groupCount && j < g.inodesPerGroup
    requires z == k * g.inodesPerGroup + j && z < g.inodesCount
    ensures UsedInode(g, l, disk, z) == BitmapBit(g, disk, DescInodeBitmap(Descriptor(g, l, disk, k)), j)
  {
    hide Descriptor, Bit, BitmapBit, GroupPlaced, RecordPlaced;
    InGroup(g, k, j);
    BitmapPlaced(g, l, k);
    BitIsBitmapBit(g, disk, l.inodeBitmap[k], j);
  }

  /** The free counts of a group are those of its descriptor. */
  lemma CountsAt(g: Geometry, l: Layout, disk: Image, k: nat)
    requires ImageOk(g, l, disk) && k < g.groupCount
    ensures var d := BytesAt(g, disk, TableStart(g.blockSize) + 32 * k, 32);
      && Abs(g, l, disk, 0, 0).blockFree[k] == U16(d, 12) && Abs(g, l, disk, 0, 0).inodeFree[k] == U16(d, 14)
  {
    hide Descriptor, UsedBlock, UsedInode, InodeRecord, Decode;
    DescriptorAt(g, l, disk, k);
  }

  /** And the volume that an image stands for is made of these. */
  lemma VolumeIs(g: Geometry, l: Layout, disk: Image, freeBlocks: int, freeInodes: int)
    requires ImageOk(g, l, disk)
    ensures var v := Abs(g, l, disk, freeBlocks, freeInodes);
      && v.geo == g && v.freeBlocks == freeBlocks && v.freeInodes == freeInodes
      && |v.used| == |v.store| == g.blocksCount && |v.iused| == |v.inodes| == g.inodesCount
      && (forall b :: 0 <= b < g.blocksCount ==> v.used[b] == UsedBlock(g, l, disk, b))
      && (forall b :: 0 <= b < g.blocksCount && b !in l.role ==> v.store[b] == disk[b])
      && (forall z :: 0 <= z < g.inodesCount ==>
            v.iused[z] == UsedInode(g, l, disk, z) && v.inodes[z] == Decode(InodeRecord(g, l, disk, z)))
  {
    hide ImageOk, UsedBlock, UsedInode, InodeRecord, Decode, Descriptor;
    AbsAt(g, l, disk, freeBlocks, freeInodes);
  }

  // ---- tables and files ----

  /** Entry `k` of the table of pointers in block `b`. */
  lemma TableEntryAt(g: Geometry, l: Layout, disk: Image, freeBlocks: int, freeInodes: int, b: nat, k: nat)
    requires ImageOk(g, l, disk) && Shape(Abs(g, l, disk, freeBlocks, freeInodes))
    requires 0 < b < g.blocksCount && b !in l.role && 4 * k + 4 <= g.blockSize
    ensures Entry(Abs(g, l, disk, freeBlocks, freeInodes), b, k)
         == U32(BytesAt(g, disk, b * g.blockSize + 4 * k, 4), 0)
  {
    hide ImageOk, UsedBlock, UsedInode, InodeRecord, Decode, Descriptor, U32, BytesAt;
    ImageParts(g, l, disk);
    VolumeIs(g, l, disk, freeBlocks, freeInodes);
    InOneBlock(g, disk, b, 4 * k, 4);
    U32Slice(disk[b], 4 * k, 4 * k, 4 * k + 4);
  }

  /** Byte `k` of a file is byte k % block_size of the block that holds its logical block k / block_size. */
  lemma FileByteAt(g: Geometry, l: Layout, disk: Image, freeBlocks: int, freeInodes: int, node: Inode, k: nat)
    requires ImageOk(g, l, disk) && Shape(Abs(g, l, disk, freeBlocks, freeInodes)) && node.Fits() && k < node.size
    requires var b := Mapped(Abs(g, l, disk, freeBlocks, freeInodes), node, k / g.blockSize);
      b < g.blocksCount && b !in l.role
    ensures var v := Abs(g, l, disk, freeBlocks, freeInodes);
      Files.Content(v, node)[k] == ByteAt(g, disk, Mapped(v, node, k / g.blockSize) * g.blockSize + k % g.blockSize)
  {
    hide ImageOk, UsedBlock, UsedInode, InodeRecord, Decode, Descriptor, Mapped, ByteAt;
    ImageParts(g, l, disk);
    var v := Abs(g, l, disk, freeBlocks, freeInodes);
    VolumeIs(g, l, disk, freeBlocks, freeInodes);
    var b := Mapped(v, node, k / g.blockSize);
    DivMod(k, g.blockSize);
    ByteInBlock(g, disk, b, k % g.blockSize);
  }

  lemma ImageParts(g: Geometry, l: Layout, disk: Image)
    requires ImageOk(g, l, disk)
    ensures Sound(g) && Sized(g, disk)
    ensures forall b :: 0 <= b < g.blocksCount ==> b < |disk| && |disk[b]| == g.blockSize
  {
  }
}
