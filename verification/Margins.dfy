/** What the engine never writes: the bytes and bits of fixed metadata that none of its structures uses. */
module Margins {
  import opened Bytes
  import opened Geometry
  import opened Volumes
  import opened DiskImage

  /** Block `b` is as it was, apart from the free counts of the superblock and of the group descriptors, the bits of
      existing blocks and inodes, and the first 128 bytes of the inode records. */
  predicate MarginKept(g: Geometry, l: Layout, was: Image, disk: Image, b: nat)
    requires b in l.role && b < |was| && b < |disk|
  {
    && |disk[b]| == |was[b]|
    && match l.role[b]
       case Foreign =>
         forall o :: 0 <= o < |was[b]| && !(b == SuperBlockNumber(g) && CountByte(o - SuperOffset(g))) ==>
           disk[b][o] == was[b][o]
       case Descriptors(_) =>
         forall o :: 0 <= o < |was[b]| && !(12 <= o % 32 < 16) ==> disk[b][o] == was[b][o]
       case BlockBitmap(k) =>
         forall n :: 0 <= n < 8 * |was[b]| && !BlockBit(g, k, n) ==> Bit(disk[b], n) == Bit(was[b], n)
       case InodeBitmap(k) =>
         forall n :: 0 <= n < 8 * |was[b]| && !InodeBit(g, k, n) ==> Bit(disk[b], n) == Bit(was[b], n)
       case InodeTable(_, _) =>
         forall o :: 0 <= o < |was[b]| && g.inodeSize > 0 && o % g.inodeSize >= 128 ==> disk[b][o] == was[b][o]
  }

  /** Byte `o` of the superblock is one of the two free counts. */
  predicate CountByte(o: int) { 12 <= o < 20 }

  /** Bit `n` of the bitmap of group `k` stands for a block, or an inode. */
  predicate BlockBit(g: Geometry, k: nat, n: nat) {
    n < g.blocksPerGroup && GroupStart(g, k) + n < g.blocksCount
  }

  predicate InodeBit(g: Geometry, k: nat, n: nat) {
    n < g.inodesPerGroup && InodeStart(g, k) + n < g.inodesCount
  }

  predicate MarginsKept(g: Geometry, l: Layout, was: Image, disk: Image) {
    |was| == |disk|
    && forall b {:trigger MarginKept(g, l, was, disk, b)} :: b in l.role && 0 <= b < |disk| ==>
         MarginKept(g, l, was, disk, b)
  }

  /** The cached superblock differs from that of the image in its free counts only. */
  predicate SuperKept(g: Geometry, was: Image, s: seq<Byte>) {
    var b := SuperBlockNumber(g);
    && b < |was| && SuperOffset(g) + SUPERBLOCK_SIZE <= |was[b]| && |s| == SUPERBLOCK_SIZE
    && forall o :: 0 <= o < SUPERBLOCK_SIZE && !CountByte(o) ==> s[o] == was[b][SuperOffset(g) + o]
  }

  lemma MarginsStart(g: Geometry, l: Layout, disk: Image)
    ensures MarginsKept(g, l, disk, disk)
  {
  }

  /** A new count in the cached superblock. */
  lemma CountMargin(g: Geometry, was: Image, s: seq<Byte>, k: nat, x: nat)
    requires SuperKept(g, was, s) && k in {FREE_BLOCKS_WORD, FREE_INODES_WORD} && x < 0x1_0000_0000
    ensures SuperKept(g, was, PutWord(s, k, x))
  {
  }

  /** The superblock that mounting reads. */
  lemma SuperStarts(g: Geometry, l: Layout, disk: Image)
    requires ImageOk(g, l, disk) && SuperBlockNumber(g) < |disk|
    ensures SuperKept(g, disk, StoredSuper(g, disk))
  {
    hide GroupPlaced, RecordPlaced;
    SuperPlaced(g, l);
  }

  /** Writing one block. */
  lemma MarginWrite(g: Geometry, l: Layout, was: Image, disk: Image, b: nat, x: Block)
    requires MarginsKept(g, l, was, disk) && b < |disk| && (b in l.role ==> MarginKept(g, l, was, disk[b := x], b))
    ensures MarginsKept(g, l, was, disk[b := x])
  {
    forall c | c in l.role && 0 <= c < |disk|
      ensures MarginKept(g, l, was, disk[b := x], c)
    {
      if c != b {
        assert MarginKept(g, l, was, disk, c);
      }
    }
  }

  /** New free counts in a group descriptor. */
  lemma DescriptorMargin(g: Geometry, l: Layout, was: Image, disk: Image, b: nat, j: nat, d: seq<Byte>)
    requires MarginsKept(g, l, was, disk) && b in l.role && l.role[b].Descriptors? && b < |disk|
    requires 32 * j + 32 <= |disk[b]| && |d| == 32
    requires d[..12] == disk[b][32 * j..32 * j + 12] && d[16..] == disk[b][32 * j + 16..32 * j + 32]
    ensures MarginsKept(g, l, was, disk[b := Splice(disk[b], 32 * j, d)])
  {
    var x := Splice(disk[b], 32 * j, d);
    assert MarginKept(g, l, was, disk, b);
    forall o | 0 <= o < |was[b]| && !(12 <= o % 32 < 16)
      ensures x[o] == was[b][o]
    {
      if 32 * j <= o < 32 * j + 12 {
        assert d[o - 32 * j] == d[..12][o - 32 * j];
      } else if 32 * j + 16 <= o < 32 * j + 32 {
        assert d[o - 32 * j] == d[16..][o - 32 * j - 16];
      } else if 32 * j + 12 <= o < 32 * j + 16 {
        InDescriptor(j, o - 32 * j);
      }
    }
    MarginWrite(g, l, was, disk, b, x);
  }

  lemma InDescriptor(j: nat, r: nat)
    requires r < 32
    ensures (32 * j + r) % 32 == r
  {
  }

  /** The superblock with new free counts. */
  lemma SuperMargin(g: Geometry, l: Layout, was: Image, disk: Image, s: seq<Byte>)
    requires MarginsKept(g, l, was, disk) && SuperKept(g, was, s) && SuperBlockNumber(g) < |disk|
    requires SuperBlockNumber(g) in l.role && l.role[SuperBlockNumber(g)] == Foreign
    requires SuperOffset(g) + SUPERBLOCK_SIZE <= |disk[SuperBlockNumber(g)]|
    ensures var b := SuperBlockNumber(g);
      MarginsKept(g, l, was, disk[b := Splice(disk[b], SuperOffset(g), s)])
  {
    var b := SuperBlockNumber(g);
    var x := Splice(disk[b], SuperOffset(g), s);
    assert MarginKept(g, l, was, disk, b);
    MarginWrite(g, l, was, disk, b, x);
  }

  /** One bit of a bitmap. */
  lemma BitMargin(g: Geometry, l: Layout, was: Image, disk: Image, b: nat, n: nat, on: bool)
    requires MarginsKept(g, l, was, disk) && b in l.role && b < |disk| && n < 8 * |disk[b]|
    requires match l.role[b]
             case BlockBitmap(k) => BlockBit(g, k, n)
             case InodeBitmap(k) => InodeBit(g, k, n)
             case _ => false
    ensures MarginsKept(g, l, was, disk[b := PutBit(disk[b], n, on)])
  {
    hide Bit, PutBit, BlockBit, InodeBit;
    var x := PutBit(disk[b], n, on);
    assert MarginKept(g, l, was, disk, b);
    forall m | 0 <= m < 8 * |was[b]|
      ensures Bit(x, m) == if m == n then on else Bit(disk[b], m)
    {
      BitOfPut(disk[b], n, on, m);
    }
    MarginWrite(g, l, was, disk, b, x);
  }

  /** One inode record. */
  lemma RecordMargin(g: Geometry, l: Layout, was: Image, disk: Image, b: nat, j: nat, record: seq<Byte>)
    requires MarginsKept(g, l, was, disk) && b in l.role && l.role[b].InodeTable? && b < |disk|
    requires g.inodeSize >= 128 == |record| && j * g.inodeSize + 128 <= |disk[b]|
    ensures MarginsKept(g, l, was, disk[b := Splice(disk[b], j * g.inodeSize, record)])
  {
    var x := Splice(disk[b], j * g.inodeSize, record);
    assert MarginKept(g, l, was, disk, b);
    forall o | 0 <= o < |was[b]| && o % g.inodeSize >= 128
      ensures x[o] == was[b][o]
    {
      if j * g.inodeSize <= o < j * g.inodeSize + 128 {
        DivUnique(o, g.inodeSize, j);
      }
    }
    MarginWrite(g, l, was, disk, b, x);
  }

  // ---- the same at the places where the engine writes ----

  lemma GroupMargin(g: Geometry, l: Layout, was: Image, disk: Image, k: nat, d: seq<Byte>)
    requires ImageOk(g, l, disk) && MarginsKept(g, l, was, disk) && k < g.groupCount && |d| == DESCRIPTOR_SIZE
    requires d[..12] == Descriptor(g, l, disk, k)[..12] && d[16..] == Descriptor(g, l, disk, k)[16..]
    ensures DescriptorBlock(g, k) < |disk| && DescriptorOffset(g, k) + DESCRIPTOR_SIZE <= |disk[DescriptorBlock(g, k)]|
    ensures var b := DescriptorBlock(g, k);
      MarginsKept(g, l, was, disk[b := Splice(disk[b], DescriptorOffset(g, k), d)])
  {
    hide MarginsKept, Splice, RecordPlaced;
    assert GroupPlaced(g, l, k);
    DescriptorFits(g, k);
    var c := g.blockSize / DESCRIPTOR_SIZE;
    RecordsTile(k, DESCRIPTOR_SIZE, c, g.blockSize);
    var b, o := DescriptorBlock(g, k), DescriptorOffset(g, k);
    assert o == 32 * (k % c);
    assert Descriptor(g, l, disk, k) == disk[b][o..o + 32];
    DescriptorMargin(g, l, was, disk, b, k % c, d);
  }

  lemma SuperblockMargin(g: Geometry, l: Layout, was: Image, disk: Image, s: seq<Byte>)
    requires ImageOk(g, l, disk) && MarginsKept(g, l, was, disk) && SuperKept(g, was, s)
    ensures SuperBlockNumber(g) < |disk| && SuperOffset(g) + SUPERBLOCK_SIZE <= |disk[SuperBlockNumber(g)]|
    ensures |s| == SUPERBLOCK_SIZE
    ensures var b := SuperBlockNumber(g);
      MarginsKept(g, l, was, disk[b := Splice(disk[b], SuperOffset(g), s)])
  {
    hide MarginsKept, GroupPlaced, RecordPlaced, Splice;
    SuperPlaced(g, l);
    SuperIsForeign(g, l);
    SuperMargin(g, l, was, disk, s);
  }

  lemma BitmapMargin(g: Geometry, l: Layout, was: Image, disk: Image, k: nat, n: nat, on: bool)
    requires ImageOk(g, l, disk) && MarginsKept(g, l, was, disk) && k < g.groupCount && n < 8 * g.blockSize
    ensures l.blockBitmap[k] < |disk| && |disk[l.blockBitmap[k]]| == g.blockSize
    ensures l.inodeBitmap[k] < |disk| && |disk[l.inodeBitmap[k]]| == g.blockSize
    ensures BlockBit(g, k, n) ==>
      MarginsKept(g, l, was, disk[l.blockBitmap[k] := PutBit(disk[l.blockBitmap[k]], n, on)])
    ensures InodeBit(g, k, n) ==>
      MarginsKept(g, l, was, disk[l.inodeBitmap[k] := PutBit(disk[l.inodeBitmap[k]], n, on)])
  {
    hide MarginsKept, GroupPlaced, RecordPlaced, PutBit, BlockBit, InodeBit;
    BitmapPlaced(g, l, k);
    if BlockBit(g, k, n) {
      BitMargin(g, l, was, disk, l.blockBitmap[k], n, on);
    }
    if InodeBit(g, k, n) {
      BitMargin(g, l, was, disk, l.inodeBitmap[k], n, on);
    }
  }

  lemma InodeMargin(g: Geometry, l: Layout, was: Image, disk: Image, z: nat, record: seq<Byte>)
    requires ImageOk(g, l, disk) && MarginsKept(g, l, was, disk) && z < g.inodesCount && |record| == INODE_RECORD
    ensures g.inodesPerGroup > 0 && g.blockSize > 0 && InodeGroupOf(g, z) < |l.inodeTable|
    ensures RecordBlock(g, l, z) < |disk| && RecordOffset(g, z) + INODE_RECORD <= |disk[RecordBlock(g, l, z)]|
    ensures var b := RecordBlock(g, l, z);
      MarginsKept(g, l, was, disk[b := Splice(disk[b], RecordOffset(g, z), record)])
  {
    hide MarginsKept, GroupPlaced, RecordPlaced, Splice;
    RecordFits(g, l, z);
    var c := g.blockSize / g.inodeSize;
    DivMod(g.blockSize, g.inodeSize);
    RecordsTile(InodeIndex(g, z), g.inodeSize, c, g.blockSize);
    RecordMargin(g, l, was, disk, RecordBlock(g, l, z), InodeIndex(g, z) % c, record);
  }

  lemma ContentsMargin(g: Geometry, l: Layout, was: Image, disk: Image, b: nat, x: Block)
    requires MarginsKept(g, l, was, disk) && b < |disk| && b !in l.role
    ensures MarginsKept(g, l, was, disk[b := x])
  {
    hide MarginKept;
    MarginWrite(g, l, was, disk, b, x);
  }
}
