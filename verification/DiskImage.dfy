/** Where the bytes of an ext2 image are, and the volume they stand for. */
module DiskImage {
  import opened Bytes
  import opened Geometry
  import opened Volumes
  import opened PointerTree

  type Image = seq<Block>

  // ---- inode records ----

  const INODE_RECORD := 128

  /** The 128 bytes of an ext2_inode_t. */
  function Decode(s: seq<Byte>): (n: Inode)
    requires |s| == INODE_RECORD
    ensures n.Fits()
  {
    Inode(U16(s, 0), U16(s, 2), U32(s, 4), s[8..26], U16(s, 26), U32(s, 28), s[32..40],
          seq(12, k requires 0 <= k < 12 => U32(s, 40 + 4 * k)), U32(s, 88), U32(s, 92), U32(s, 96), s[100..128])
  }

  function Words(ws: seq<nat>): (r: seq<Byte>)
    requires forall k :: 0 <= k < |ws| ==> ws[k] < 0x1_0000_0000
    ensures |r| == 4 * |ws|
  {
    if ws == [] then [] else Le32(ws[0]) + Words(ws[1..])
  }

  function Head(n: Inode): (r: seq<Byte>)
    requires n.Fits()
    ensures |r| == 40
  {
    Le16(n.mode) + Le16(n.uid) + Le32(n.size) + n.times + Le16(n.links) + Le32(n.blocks) + n.flags
  }

  function Encode(n: Inode): (r: seq<Byte>)
    requires n.Fits()
    ensures |r| == INODE_RECORD
  {
    Head(n) + Words(n.direct) + (Le32(n.indirect) + Le32(n.doubly) + Le32(n.triply) + n.tail)
  }

  lemma {:induction false} WordsAt(ws: seq<nat>, k: nat)
    requires forall j :: 0 <= j < |ws| ==> ws[j] < 0x1_0000_0000
    requires k < |ws|
    ensures U32(Words(ws), 4 * k) == ws[k]
  {
    var r := Words(ws);
    if k == 0 {
      Le32RoundTrip(ws[0]);
      assert r[0..4] == Le32(ws[0]);
    } else {
      WordsAt(ws[1..], k - 1);
      assert r[4..] == Words(ws[1..]);
      U32Slice(r, 4 * k, 4, |r|);
    }
  }

  /** Reading back field `part` of a record that has it at offset `o`. */
  lemma FieldAt(s: seq<Byte>, o: nat, part: seq<Byte>)
    requires o + |part| <= |s| && s[o..o + |part|] == part
    ensures |part| == 2 ==> U16(s, o) == U16(part, 0)
    ensures |part| == 4 ==> U32(s, o) == U32(part, 0)
  {
    if |part| == 2 {
      U16Slice(s, o, o, o + 2);
    }
    if |part| == 4 {
      U32Slice(s, o, o, o + 4);
    }
  }

  lemma HeadFields(n: Inode)
    requires n.Fits()
    ensures var s := Head(n);
      && U16(s, 0) == n.mode && U16(s, 2) == n.uid && U32(s, 4) == n.size && s[8..26] == n.times
      && U16(s, 26) == n.links && U32(s, 28) == n.blocks && s[32..40] == n.flags
  {
    var s := Head(n);
    Le32RoundTrip(n.size);
    Le32RoundTrip(n.blocks);
    FieldAt(s, 0, Le16(n.mode));
    FieldAt(s, 2, Le16(n.uid));
    FieldAt(s, 4, Le32(n.size));
    FieldAt(s, 26, Le16(n.links));
    FieldAt(s, 28, Le32(n.blocks));
  }

  lemma TailFields(n: Inode)
    requires n.Fits()
    ensures var s := Le32(n.indirect) + Le32(n.doubly) + Le32(n.triply) + n.tail;
      U32(s, 0) == n.indirect && U32(s, 4) == n.doubly && U32(s, 8) == n.triply && s[12..40] == n.tail
  {
    var s := Le32(n.indirect) + Le32(n.doubly) + Le32(n.triply) + n.tail;
    Le32RoundTrip(n.indirect);
    Le32RoundTrip(n.doubly);
    Le32RoundTrip(n.triply);
    FieldAt(s, 0, Le32(n.indirect));
    FieldAt(s, 4, Le32(n.doubly));
    FieldAt(s, 8, Le32(n.triply));
  }

  /** An inode record decodes to the inode it was made from. */
  lemma InodeRoundTrip(n: Inode)
    requires n.Fits()
    ensures Decode(Encode(n)) == n
  {
    hide Le16, Le32, U16, U32, Head, Words;
    var s := Encode(n);
    var tail := Le32(n.indirect) + Le32(n.doubly) + Le32(n.triply) + n.tail;
    HeadFields(n);
    TailFields(n);
    assert s[0..40] == Head(n) && s[40..88] == Words(n.direct) && s[88..128] == tail;
    SliceFields(s, 0, 40);
    SliceFields(s, 88, 128);
    SubSlice(s, 0, 40, 8, 26);
    SubSlice(s, 0, 40, 32, 40);
    SubSlice(s, 88, 128, 12, 40);
    forall k | 0 <= k < 12
      ensures U32(s, 40 + 4 * k) == n.direct[k]
    {
      WordsAt(n.direct, k);
      U32Slice(s, 40 + 4 * k, 40, 88);
    }
  }

  /** Fields of a slice are fields of the whole. */
  lemma SliceFields(s: seq<Byte>, p: nat, q: nat)
    requires p <= q <= |s|
    ensures forall o: nat :: o + 2 <= q - p ==> U16(s[p..q], o) == U16(s, p + o)
    ensures forall o: nat :: o + 4 <= q - p ==> U32(s[p..q], o) == U32(s, p + o)
  {
  }

  lemma SubSlice(s: seq<Byte>, p: nat, q: nat, a: nat, b: nat)
    requires a <= b && p + b <= q <= |s|
    ensures s[p..q][a..b] == s[p + a..p + b]
  {
    var x, y := s[p..q][a..b], s[p + a..p + b];
    assert |x| == |y| && forall k :: 0 <= k < |x| ==> x[k] == y[k];
  }

  // ---- where things are ----

  const DESCRIPTOR_SIZE := 32

  /** What a block of fixed metadata is for. `Foreign` covers the boot block, the superblock and the
      blocks of reserved inodes. */
  datatype Role =
    | Descriptors(index: nat)
    | BlockBitmap(group: nat)
    | InodeBitmap(group: nat)
    | InodeTable(group: nat, index: nat)
    | Foreign

  /** The places named in the group descriptors, and the role of every reserved block. */
  datatype Layout = Layout(blockBitmap: seq<nat>, inodeBitmap: seq<nat>, inodeTable: seq<nat>, role: map<nat, Role>)

  const SUPERBLOCK_SIZE := 1024

  /** The superblock is the third and fourth 512-byte sector of the disk. */
  function SuperBlockNumber(g: Geometry): nat {
    if g.blockSize == 1024 then 1 else 0
  }

  function SuperOffset(g: Geometry): nat {
    if g.blockSize == 1024 then 0 else 1024
  }

  function DescriptorStart(g: Geometry): nat {
    if g.blockSize == 1024 then 2 else 1
  }

  function DescriptorBlock(g: Geometry, k: nat): nat
    requires g.blockSize > 0
  {
    DescriptorStart(g) + k * DESCRIPTOR_SIZE / g.blockSize
  }

  function DescriptorOffset(g: Geometry, k: nat): nat
    requires g.blockSize > 0
  {
    k * DESCRIPTOR_SIZE % g.blockSize
  }

  /** Block and byte offset of inode record `index` of group `k`. */
  function InodeBlockOf(g: Geometry, l: Layout, k: nat, index: nat): nat
    requires g.blockSize > 0 && k < |l.inodeTable|
  {
    l.inodeTable[k] + index * g.inodeSize / g.blockSize
  }

  function InodeOffset(g: Geometry, index: nat): nat
    requires g.blockSize > 0
  {
    index * g.inodeSize % g.blockSize
  }

  function InodeIndex(g: Geometry, zeroBased: nat): nat
    requires g.inodesPerGroup > 0
  {
    DivMod(zeroBased, g.inodesPerGroup);
    zeroBased % g.inodesPerGroup
  }

  predicate GroupPlaced(g: Geometry, l: Layout, k: nat)
    requires g.blockSize > 0 && |l.blockBitmap| == |l.inodeBitmap| == |l.inodeTable| == g.groupCount && k < g.groupCount
  {
    && DescriptorBlock(g, k) in l.role
    && l.role[DescriptorBlock(g, k)] == Descriptors(k * DESCRIPTOR_SIZE / g.blockSize)
    && l.blockBitmap[k] in l.role && l.role[l.blockBitmap[k]] == BlockBitmap(k)
    && l.inodeBitmap[k] in l.role && l.role[l.inodeBitmap[k]] == InodeBitmap(k)
  }

  predicate RecordPlaced(g: Geometry, l: Layout, k: nat, index: nat)
    requires g.blockSize > 0 && k < |l.inodeTable|
  {
    && InodeBlockOf(g, l, k, index) in l.role
    && l.role[InodeBlockOf(g, l, k, index)] == InodeTable(k, index * g.inodeSize / g.blockSize)
  }

  /** A block has one role, so structures of different groups and kinds never share a block. */
  predicate Placed(g: Geometry, l: Layout) {
    && g.blockSize > 0
    && |l.blockBitmap| == |l.inodeBitmap| == |l.inodeTable| == g.groupCount
    && (forall b :: b in l.role ==> b < g.blocksCount)
    && (forall b :: 0 <= b < g.firstDataBlock ==> b in l.role)
    && 0 in l.role
    && SuperBlockNumber(g) in l.role && l.role[SuperBlockNumber(g)] == Foreign
    && (forall k :: 0 <= k < g.groupCount ==> GroupPlaced(g, l, k))
    && (forall k, index :: 0 <= k < g.groupCount && 0 <= index < g.inodesPerGroup ==> RecordPlaced(g, l, k, index))
  }

  lemma DescriptorFits(g: Geometry, k: nat)
    requires Sound(g)
    ensures DescriptorOffset(g, k) + DESCRIPTOR_SIZE <= g.blockSize
  {
    RecordsTile(k, DESCRIPTOR_SIZE, g.blockSize / DESCRIPTOR_SIZE, g.blockSize);
  }

  predicate Sized(g: Geometry, disk: Image) {
    |disk| == g.blocksCount && forall b :: 0 <= b < |disk| ==> |disk[b]| == g.blockSize
  }

  /** The 32 bytes of group descriptor `k`. */
  function Descriptor(g: Geometry, l: Layout, disk: Image, k: nat): (d: seq<Byte>)
    requires Sound(g) && Placed(g, l) && Sized(g, disk) && k < g.groupCount
    ensures |d| == DESCRIPTOR_SIZE
  {
    DescriptorFits(g, k);
    assert GroupPlaced(g, l, k);
    disk[DescriptorBlock(g, k)][DescriptorOffset(g, k)..DescriptorOffset(g, k) + DESCRIPTOR_SIZE]
  }

  function DescBlockBitmap(d: seq<Byte>): nat requires |d| == DESCRIPTOR_SIZE { U32(d, 0) }
  function DescInodeBitmap(d: seq<Byte>): nat requires |d| == DESCRIPTOR_SIZE { U32(d, 4) }
  function DescInodeTable(d: seq<Byte>): nat requires |d| == DESCRIPTOR_SIZE { U32(d, 8) }
  function DescFreeBlocks(d: seq<Byte>): (n: nat) requires |d| == DESCRIPTOR_SIZE ensures n < 0x1_0000 { U16(d, 12) }
  function DescFreeInodes(d: seq<Byte>): (n: nat) requires |d| == DESCRIPTOR_SIZE ensures n < 0x1_0000 { U16(d, 14) }

  /** An image laid out as `l` says. */
  predicate ImageOk(g: Geometry, l: Layout, disk: Image) {
    && Sound(g) && Placed(g, l) && Sized(g, disk)
    && forall k :: 0 <= k < g.groupCount ==>
         var d := Descriptor(g, l, disk, k);
         && DescBlockBitmap(d) == l.blockBitmap[k]
         && DescInodeBitmap(d) == l.inodeBitmap[k]
         && DescInodeTable(d) == l.inodeTable[k]
  }

  // ---- the volume an image stands for ----

  function UsedBlock(g: Geometry, l: Layout, disk: Image, b: nat): bool
    requires ImageOk(g, l, disk) && b < g.blocksCount
  {
    if b < g.firstDataBlock then true
    else
      GroupOfBlock(g, b, GroupOf(g, b));
      assert GroupPlaced(g, l, GroupOf(g, b));
      Bit(disk[l.blockBitmap[GroupOf(g, b)]], b - GroupStart(g, GroupOf(g, b)))
  }

  function UsedInode(g: Geometry, l: Layout, disk: Image, z: nat): bool
    requires ImageOk(g, l, disk) && z < g.inodesCount
  {
    GroupOfInode(g, z, InodeGroupOf(g, z));
    DivMod(z, g.inodesPerGroup);
    assert GroupPlaced(g, l, InodeGroupOf(g, z));
    Bit(disk[l.inodeBitmap[InodeGroupOf(g, z)]], InodeIndex(g, z))
  }

  /** The record of the inode with zero-based number `z`. */
  function InodeRecord(g: Geometry, l: Layout, disk: Image, z: nat): (s: seq<Byte>)
    requires ImageOk(g, l, disk) && z < g.inodesCount
    ensures |s| == INODE_RECORD
  {
    GroupOfInode(g, z, InodeGroupOf(g, z));
    DivMod(z, g.inodesPerGroup);
    InodeNeverStraddles(g, InodeIndex(g, z));
    assert RecordPlaced(g, l, InodeGroupOf(g, z), InodeIndex(g, z));
    var o := InodeOffset(g, InodeIndex(g, z));
    disk[InodeBlockOf(g, l, InodeGroupOf(g, z), InodeIndex(g, z))][o..o + INODE_RECORD]
  }

  function Contents(l: Layout, disk: Image, b: nat): Block
    requires b < |disk|
  {
    if b in l.role then [] else disk[b]
  }

  /** The volume: bitmaps, counts, inodes, and the contents of every block that is not metadata. */
  function Abs(g: Geometry, l: Layout, disk: Image, freeBlocks: int, freeInodes: int): Volume
    requires ImageOk(g, l, disk)
  {
    Volume(g,
      seq(g.blocksCount, b requires 0 <= b < g.blocksCount => UsedBlock(g, l, disk, b)),
      seq(g.inodesCount, z requires 0 <= z < g.inodesCount => UsedInode(g, l, disk, z)),
      seq(g.groupCount, k requires 0 <= k < g.groupCount => DescFreeBlocks(Descriptor(g, l, disk, k))),
      seq(g.groupCount, k requires 0 <= k < g.groupCount => DescFreeInodes(Descriptor(g, l, disk, k))),
      freeBlocks, freeInodes,
      seq(g.inodesCount, z requires 0 <= z < g.inodesCount => Decode(InodeRecord(g, l, disk, z))),
      seq(g.blocksCount, b requires 0 <= b < g.blocksCount => Contents(l, disk, b)))
  }

  // ---- writing one block ----

  lemma SizedAt(g: Geometry, disk: Image, b: nat)
    requires Sized(g, disk) && b < g.blocksCount
    ensures b < |disk| && |disk[b]| == g.blockSize
  {
  }

  /** Blocks of the other roles keep what they mean when block `b` is overwritten. */
  lemma DescriptorKept(g: Geometry, l: Layout, disk: Image, b: nat, x: Block, k: nat)
    requires Sound(g) && Placed(g, l) && Sized(g, disk) && b < |disk| && |x| == g.blockSize && k < g.groupCount
    requires b in l.role ==> !l.role[b].Descriptors?
    ensures Descriptor(g, l, disk[b := x], k) == Descriptor(g, l, disk, k)
  {
    hide Sound;
    assert GroupPlaced(g, l, k);
  }

  lemma ImageKept(g: Geometry, l: Layout, disk: Image, b: nat, x: Block)
    requires ImageOk(g, l, disk) && b < |disk| && |x| == g.blockSize && (b in l.role ==> !l.role[b].Descriptors?)
    ensures ImageOk(g, l, disk[b := x])
  {
    hide Sound, Placed, Descriptor;
    forall k | 0 <= k < g.groupCount
      ensures Descriptor(g, l, disk[b := x], k) == Descriptor(g, l, disk, k)
    {
      DescriptorKept(g, l, disk, b, x, k);
    }
  }

  lemma UsedBlockKept(g: Geometry, l: Layout, disk: Image, b: nat, x: Block, c: nat)
    requires ImageOk(g, l, disk) && b < |disk| && |x| == g.blockSize && ImageOk(g, l, disk[b := x]) && c < g.blocksCount
    requires b in l.role ==> !l.role[b].BlockBitmap?
    ensures UsedBlock(g, l, disk[b := x], c) == UsedBlock(g, l, disk, c)
  {
    hide Bit;
    if g.firstDataBlock <= c {
      GroupOfBlock(g, c, GroupOf(g, c));
      assert GroupPlaced(g, l, GroupOf(g, c));
    }
  }

  lemma UsedInodeKept(g: Geometry, l: Layout, disk: Image, b: nat, x: Block, z: nat)
    requires ImageOk(g, l, disk) && b < |disk| && |x| == g.blockSize && ImageOk(g, l, disk[b := x]) && z < g.inodesCount
    requires b in l.role ==> !l.role[b].InodeBitmap?
    ensures UsedInode(g, l, disk[b := x], z) == UsedInode(g, l, disk, z)
  {
    hide Bit;
    GroupOfInode(g, z, InodeGroupOf(g, z));
    assert GroupPlaced(g, l, InodeGroupOf(g, z));
  }

  lemma InodeRecordKept(g: Geometry, l: Layout, disk: Image, b: nat, x: Block, z: nat)
    requires ImageOk(g, l, disk) && b < |disk| && |x| == g.blockSize && ImageOk(g, l, disk[b := x]) && z < g.inodesCount
    requires b in l.role ==> !l.role[b].InodeTable?
    ensures InodeRecord(g, l, disk[b := x], z) == InodeRecord(g, l, disk, z)
  {
    GroupOfInode(g, z, InodeGroupOf(g, z));
    DivMod(z, g.inodesPerGroup);
    assert RecordPlaced(g, l, InodeGroupOf(g, z), InodeIndex(g, z));
  }

  /** Overwriting a block that is not metadata changes the contents of that block and nothing else. */
  lemma WriteContents(g: Geometry, l: Layout, disk: Image, fb: int, fi: int, b: nat, x: Block)
    requires ImageOk(g, l, disk) && b < |disk| && |x| == g.blockSize && b !in l.role
    ensures ImageOk(g, l, disk[b := x])
    ensures var v := Abs(g, l, disk, fb, fi);
      Abs(g, l, disk[b := x], fb, fi) == v.(store := v.store[b := x])
  {
    hide Sound, Placed, Descriptor, UsedBlock, UsedInode, InodeRecord, Decode;
    var d' := disk[b := x];
    ImageKept(g, l, disk, b, x);
    var v, v' := Abs(g, l, disk, fb, fi), Abs(g, l, d', fb, fi);
    BitsKept(g, l, disk, fb, fi, b, x);
    InodesKept(g, l, disk, fb, fi, b, x);
    CountsKept(g, l, disk, fb, fi, b, x);
    assert v'.store == v.store[b := x];
  }

  lemma BitsKept(g: Geometry, l: Layout, disk: Image, fb: int, fi: int, b: nat, x: Block)
    requires ImageOk(g, l, disk) && b < |disk| && |x| == g.blockSize && ImageOk(g, l, disk[b := x])
    ensures var v, v' := Abs(g, l, disk, fb, fi), Abs(g, l, disk[b := x], fb, fi);
      && ((b in l.role ==> !l.role[b].BlockBitmap?) ==> v'.used == v.used)
      && ((b in l.role ==> !l.role[b].InodeBitmap?) ==> v'.iused == v.iused)
  {
    hide ImageOk, UsedBlock, UsedInode, InodeRecord, Decode, Descriptor;
    if b in l.role ==> !l.role[b].BlockBitmap? {
      forall c | 0 <= c < g.blocksCount
        ensures UsedBlock(g, l, disk[b := x], c) == UsedBlock(g, l, disk, c)
      {
        UsedBlockKept(g, l, disk, b, x, c);
      }
    }
    if b in l.role ==> !l.role[b].InodeBitmap? {
      forall z | 0 <= z < g.inodesCount
        ensures UsedInode(g, l, disk[b := x], z) == UsedInode(g, l, disk, z)
      {
        UsedInodeKept(g, l, disk, b, x, z);
      }
    }
  }

  lemma InodesKept(g: Geometry, l: Layout, disk: Image, fb: int, fi: int, b: nat, x: Block)
    requires ImageOk(g, l, disk) && b < |disk| && |x| == g.blockSize && ImageOk(g, l, disk[b := x])
    requires b in l.role ==> !l.role[b].InodeTable?
    ensures Abs(g, l, disk[b := x], fb, fi).inodes == Abs(g, l, disk, fb, fi).inodes
  {
    hide ImageOk, UsedBlock, UsedInode, InodeRecord, Decode, Descriptor;
    forall z | 0 <= z < g.inodesCount
      ensures InodeRecord(g, l, disk[b := x], z) == InodeRecord(g, l, disk, z)
    {
      InodeRecordKept(g, l, disk, b, x, z);
    }
  }

  lemma CountsKept(g: Geometry, l: Layout, disk: Image, fb: int, fi: int, b: nat, x: Block)
    requires ImageOk(g, l, disk) && b < |disk| && |x| == g.blockSize && ImageOk(g, l, disk[b := x])
    requires b in l.role ==> !l.role[b].Descriptors?
    ensures Abs(g, l, disk[b := x], fb, fi).blockFree == Abs(g, l, disk, fb, fi).blockFree
    ensures Abs(g, l, disk[b := x], fb, fi).inodeFree == Abs(g, l, disk, fb, fi).inodeFree
  {
    hide Sound, Placed, UsedBlock, UsedInode, InodeRecord, Decode, Descriptor;
    forall k | 0 <= k < g.groupCount
      ensures Descriptor(g, l, disk[b := x], k) == Descriptor(g, l, disk, k)
    {
      DescriptorKept(g, l, disk, b, x, k);
    }
  }

  lemma StoreKeptMeta(g: Geometry, l: Layout, disk: Image, fb: int, fi: int, b: nat, x: Block)
    requires ImageOk(g, l, disk) && b < |disk| && |x| == g.blockSize && ImageOk(g, l, disk[b := x]) && b in l.role
    ensures Abs(g, l, disk[b := x], fb, fi).store == Abs(g, l, disk, fb, fi).store
  {
    hide Sound, Placed, UsedBlock, UsedInode, InodeRecord, Decode, Descriptor;
    forall c | 0 <= c < g.blocksCount
      ensures Contents(l, disk[b := x], c) == Contents(l, disk, c)
    {
    }
  }

  /** `x` is bitmap `was` with bit `bit` set to `on`. */
  predicate BitChanged(was: Block, x: Block, bit: nat, on: bool) {
    |x| == |was| && forall j :: 0 <= j < 8 * |was| ==> Bit(x, j) == if j == bit then on else Bit(was, j)
  }

  lemma PutBitChanges(b: Block, bit: nat, on: bool)
    requires bit < 8 * |b|
    ensures BitChanged(b, PutBit(b, bit, on), bit, on)
  {
    hide Bit, PutBit;
    forall j | 0 <= j < 8 * |b|
      ensures Bit(PutBit(b, bit, on), j) == if j == bit then on else Bit(b, j)
    {
      BitOfPut(b, bit, on, j);
    }
  }

  lemma UsedBlockWritten(g: Geometry, l: Layout, disk: Image, k: nat, x: Block, n: nat, on: bool, c: nat)
    requires ImageOk(g, l, disk) && g.firstDataBlock <= n < g.blocksCount && k == GroupOf(g, n) && c < g.blocksCount
    requires k < g.groupCount && l.blockBitmap[k] < |disk| && ImageOk(g, l, disk[l.blockBitmap[k] := x])
    requires GroupStart(g, k) <= n && BitChanged(disk[l.blockBitmap[k]], x, n - GroupStart(g, k), on)
    ensures UsedBlock(g, l, disk[l.blockBitmap[k] := x], c) == if c == n then on else UsedBlock(g, l, disk, c)
  {
    hide Bit;
    assert GroupPlaced(g, l, k);
    if g.firstDataBlock <= c {
      GroupOfBlock(g, c, GroupOf(g, c));
      assert GroupPlaced(g, l, GroupOf(g, c));
    }
  }

  /** Setting or clearing the bit of block `n` in the bitmap of its group. */
  lemma WriteBlockBitmap(g: Geometry, l: Layout, disk: Image, fb: int, fi: int, k: nat, x: Block, n: nat, on: bool)
    requires ImageOk(g, l, disk) && g.firstDataBlock <= n < g.blocksCount && k == GroupOf(g, n)
    requires k < g.groupCount && l.blockBitmap[k] < |disk| && GroupStart(g, k) <= n
    requires BitChanged(disk[l.blockBitmap[k]], x, n - GroupStart(g, k), on)
    ensures ImageOk(g, l, disk[l.blockBitmap[k] := x])
    ensures var v := Abs(g, l, disk, fb, fi);
      Abs(g, l, disk[l.blockBitmap[k] := x], fb, fi) == v.(used := v.used[n := on])
  {
    hide UsedBlock, UsedInode, InodeRecord, Decode, Descriptor, Bit, GroupOf, GroupStart, Sound;
    assert GroupPlaced(g, l, k);
    var b := l.blockBitmap[k];
    ImageKept(g, l, disk, b, x);
    BitsKept(g, l, disk, fb, fi, b, x);
    InodesKept(g, l, disk, fb, fi, b, x);
    CountsKept(g, l, disk, fb, fi, b, x);
    StoreKeptMeta(g, l, disk, fb, fi, b, x);
    var v, v' := Abs(g, l, disk, fb, fi), Abs(g, l, disk[b := x], fb, fi);
    forall c | 0 <= c < g.blocksCount
      ensures v'.used[c] == v.used[n := on][c]
    {
      UsedBlockWritten(g, l, disk, k, x, n, on, c);
    }
  }

  lemma UsedInodeWritten(g: Geometry, l: Layout, disk: Image, k: nat, x: Block, n: nat, on: bool, z: nat)
    requires ImageOk(g, l, disk) && n < g.inodesCount && k == InodeGroupOf(g, n) && z < g.inodesCount
    requires k < g.groupCount && l.inodeBitmap[k] < |disk| && ImageOk(g, l, disk[l.inodeBitmap[k] := x])
    requires BitChanged(disk[l.inodeBitmap[k]], x, InodeIndex(g, n), on)
    ensures UsedInode(g, l, disk[l.inodeBitmap[k] := x], z) == if z == n then on else UsedInode(g, l, disk, z)
  {
    hide Bit;
    assert GroupPlaced(g, l, k);
    GroupOfInode(g, z, InodeGroupOf(g, z));
    assert GroupPlaced(g, l, InodeGroupOf(g, z));
    DivMod(z, g.inodesPerGroup);
    DivMod(n, g.inodesPerGroup);
  }

  lemma WriteInodeBitmap(g: Geometry, l: Layout, disk: Image, fb: int, fi: int, k: nat, x: Block, n: nat, on: bool)
    requires ImageOk(g, l, disk) && n < g.inodesCount && k == InodeGroupOf(g, n)
    requires k < g.groupCount && l.inodeBitmap[k] < |disk|
    requires BitChanged(disk[l.inodeBitmap[k]], x, InodeIndex(g, n), on)
    ensures ImageOk(g, l, disk[l.inodeBitmap[k] := x])
    ensures var v := Abs(g, l, disk, fb, fi);
      Abs(g, l, disk[l.inodeBitmap[k] := x], fb, fi) == v.(iused := v.iused[n := on])
  {
    hide UsedBlock, UsedInode, InodeRecord, Decode, Descriptor, Bit, InodeGroupOf, InodeIndex, Sound;
    assert GroupPlaced(g, l, k);
    var b := l.inodeBitmap[k];
    ImageKept(g, l, disk, b, x);
    BitsKept(g, l, disk, fb, fi, b, x);
    InodesKept(g, l, disk, fb, fi, b, x);
    CountsKept(g, l, disk, fb, fi, b, x);
    StoreKeptMeta(g, l, disk, fb, fi, b, x);
    var v, v' := Abs(g, l, disk, fb, fi), Abs(g, l, disk[b := x], fb, fi);
    forall z | 0 <= z < g.inodesCount
      ensures v'.iused[z] == v.iused[n := on][z]
    {
      UsedInodeWritten(g, l, disk, k, x, n, on, z);
    }
  }

  // ---- descriptors ----

  /** `d` with its two free counts set. */
  function WithCounts(d: seq<Byte>, freeBlocks: nat, freeInodes: nat): (r: seq<Byte>)
    requires |d| == DESCRIPTOR_SIZE && freeBlocks < 0x1_0000 && freeInodes < 0x1_0000
    ensures |r| == DESCRIPTOR_SIZE
  {
    Splice(Splice(d, 12, Le16(freeBlocks)), 14, Le16(freeInodes))
  }

  lemma WithCountsFields(d: seq<Byte>, freeBlocks: nat, freeInodes: nat)
    requires |d| == DESCRIPTOR_SIZE && freeBlocks < 0x1_0000 && freeInodes < 0x1_0000
    ensures var r := WithCounts(d, freeBlocks, freeInodes);
      && DescFreeBlocks(r) == freeBlocks && DescFreeInodes(r) == freeInodes
      && DescBlockBitmap(r) == DescBlockBitmap(d) && DescInodeBitmap(r) == DescInodeBitmap(d)
      && DescInodeTable(r) == DescInodeTable(d) && r[..12] == d[..12] && r[16..] == d[16..]
  {
    var m := Splice(d, 12, Le16(freeBlocks));
    var r := WithCounts(d, freeBlocks, freeInodes);
    assert r[16..] == m[16..] == m[14..][2..] == d[14..][2..] == d[16..];
    assert r[..14] == m[..14] && m[..12] == d[..12];
    assert forall j :: 0 <= j < 12 ==> r[j] == r[..14][j] == m[j] == m[..12][j] == d[j];
    assert m[12..14] == Le16(freeBlocks) && r[14..16] == Le16(freeInodes);
    assert r[12] == r[..14][12] == m[12] && r[13] == r[..14][13] == m[13];
  }

  /** Distinct groups have their descriptors at distinct places. */
  lemma DescriptorsApart(g: Geometry, j: nat, k: nat)
    requires Sound(g) && j != k
    ensures DescriptorBlock(g, j) != DescriptorBlock(g, k)
         || DescriptorOffset(g, j) + DESCRIPTOR_SIZE <= DescriptorOffset(g, k)
         || DescriptorOffset(g, k) + DESCRIPTOR_SIZE <= DescriptorOffset(g, j)
  {
    RecordsApart(j, k, DESCRIPTOR_SIZE, g.blockSize / DESCRIPTOR_SIZE, g.blockSize);
  }

  lemma RecordsApart(j: nat, k: nat, d: nat, c: nat, size: nat)
    requires d > 0 && c > 0 && size == c * d && size > 0 && j != k
    ensures j * d / size != k * d / size
         || j * d % size + d <= k * d % size || k * d % size + d <= j * d % size
  {
    RecordsTile(j, d, c, size);
    RecordsTile(k, d, c, size);
    if j * d / size == k * d / size {
      DivMod(j, c);
      DivMod(k, c);
      var a, b := j % c, k % c;
      MulOrder(a + 1, b, d);
      MulOrder(b + 1, a, d);
      assert (a + 1) * d == a * d + d && (b + 1) * d == b * d + d;
    }
  }

  lemma SpliceElsewhere(s: seq<Byte>, o: nat, part: seq<Byte>, a: nat, b: nat)
    requires o + |part| <= |s| && a <= b <= |s| && (b <= o || o + |part| <= a)
    ensures Splice(s, o, part)[a..b] == s[a..b]
  {
  }

  lemma DescriptorWritten(g: Geometry, l: Layout, disk: Image, k: nat, d: seq<Byte>, j: nat)
    requires ImageOk(g, l, disk) && k < g.groupCount && j < g.groupCount && |d| == DESCRIPTOR_SIZE
    requires DescriptorBlock(g, k) < |disk| && DescriptorOffset(g, k) + DESCRIPTOR_SIZE <= g.blockSize
    requires var x := Splice(disk[DescriptorBlock(g, k)], DescriptorOffset(g, k), d);
      Sized(g, disk[DescriptorBlock(g, k) := x])
    ensures var x := Splice(disk[DescriptorBlock(g, k)], DescriptorOffset(g, k), d);
      Descriptor(g, l, disk[DescriptorBlock(g, k) := x], j) == if j == k then d else Descriptor(g, l, disk, j)
  {
    hide DescriptorBlock, DescriptorOffset, Splice, Sound;
    if j != k {
      DescriptorsApart(g, j, k);
      DescriptorFits(g, j);
      assert GroupPlaced(g, l, j);
      if DescriptorBlock(g, j) == DescriptorBlock(g, k) {
        SpliceElsewhere(disk[DescriptorBlock(g, k)], DescriptorOffset(g, k), d,
                        DescriptorOffset(g, j), DescriptorOffset(g, j) + DESCRIPTOR_SIZE);
      }
    }
  }

  /** Descriptor `e` names the same bitmaps and table as `d`. */
  predicate SamePlaces(d: seq<Byte>, e: seq<Byte>)
    requires |d| == DESCRIPTOR_SIZE == |e|
  {
    && DescBlockBitmap(e) == DescBlockBitmap(d) && DescInodeBitmap(e) == DescInodeBitmap(d)
    && DescInodeTable(e) == DescInodeTable(d)
  }

  /** Writing back the descriptor of group `k` with new counts. */
  lemma WriteDescriptor(g: Geometry, l: Layout, disk: Image, fb: int, fi: int, k: nat, d: seq<Byte>)
    requires ImageOk(g, l, disk) && k < g.groupCount && |d| == DESCRIPTOR_SIZE
    requires SamePlaces(Descriptor(g, l, disk, k), d)
    ensures DescriptorBlock(g, k) in l.role && l.role[DescriptorBlock(g, k)].Descriptors?
    ensures DescriptorBlock(g, k) < |disk| && DescriptorOffset(g, k) + DESCRIPTOR_SIZE <= |disk[DescriptorBlock(g, k)]|
    ensures var x := Splice(disk[DescriptorBlock(g, k)], DescriptorOffset(g, k), d);
            var v := Abs(g, l, disk, fb, fi);
      && ImageOk(g, l, disk[DescriptorBlock(g, k) := x])
      && Abs(g, l, disk[DescriptorBlock(g, k) := x], fb, fi)
         == v.(blockFree := v.blockFree[k := DescFreeBlocks(d)], inodeFree := v.inodeFree[k := DescFreeInodes(d)])
  {
    hide UsedBlock, UsedInode, InodeRecord, Decode, Descriptor, DescriptorBlock, DescriptorOffset, Splice, Sound,
      DescBlockBitmap, DescInodeBitmap, DescInodeTable, DescFreeBlocks, DescFreeInodes;
    assert GroupPlaced(g, l, k);
    DescriptorFits(g, k);
    var b := DescriptorBlock(g, k);
    var x := Splice(disk[b], DescriptorOffset(g, k), d);
    assert Sized(g, disk[b := x]);
    forall j | 0 <= j < g.groupCount
      ensures Descriptor(g, l, disk[b := x], j) == if j == k then d else Descriptor(g, l, disk, j)
    {
      DescriptorWritten(g, l, disk, k, d, j);
    }
    BitsKept(g, l, disk, fb, fi, b, x);
    InodesKept(g, l, disk, fb, fi, b, x);
    StoreKeptMeta(g, l, disk, fb, fi, b, x);
    var v, v' := Abs(g, l, disk, fb, fi), Abs(g, l, disk[b := x], fb, fi);
    assert v'.blockFree == v.blockFree[k := DescFreeBlocks(d)];
    assert v'.inodeFree == v.inodeFree[k := DescFreeInodes(d)];
  }

  // ---- inode records ----

  /** Records of distinct inodes occupy disjoint bytes. */
  lemma InodeRecordsApart(g: Geometry, l: Layout, y: nat, z: nat)
    requires Sound(g) && Placed(g, l) && y < g.inodesCount && z < g.inodesCount && y != z
    ensures InodeGroupOf(g, y) < g.groupCount && InodeGroupOf(g, z) < g.groupCount
    ensures InodeBlockOf(g, l, InodeGroupOf(g, y), InodeIndex(g, y))
      != InodeBlockOf(g, l, InodeGroupOf(g, z), InodeIndex(g, z))
         || InodeOffset(g, InodeIndex(g, y)) + g.inodeSize <= InodeOffset(g, InodeIndex(g, z))
         || InodeOffset(g, InodeIndex(g, z)) + g.inodeSize <= InodeOffset(g, InodeIndex(g, y))
  {
    GroupOfInode(g, y, InodeGroupOf(g, y));
    GroupOfInode(g, z, InodeGroupOf(g, z));
    DivMod(y, g.inodesPerGroup);
    DivMod(z, g.inodesPerGroup);
    assert RecordPlaced(g, l, InodeGroupOf(g, y), InodeIndex(g, y));
    assert RecordPlaced(g, l, InodeGroupOf(g, z), InodeIndex(g, z));
    DivMod(g.blockSize, g.inodeSize);
    if InodeGroupOf(g, y) == InodeGroupOf(g, z) {
      RecordsApart(InodeIndex(g, y), InodeIndex(g, z), g.inodeSize, g.blockSize / g.inodeSize, g.blockSize);
    }
  }

  /** Where the record of the inode with zero-based number `z` is. */
  function RecordBlock(g: Geometry, l: Layout, z: nat): nat
    requires g.inodesPerGroup > 0 && g.blockSize > 0 && InodeGroupOf(g, z) < |l.inodeTable|
  {
    InodeBlockOf(g, l, InodeGroupOf(g, z), InodeIndex(g, z))
  }

  function RecordOffset(g: Geometry, z: nat): nat
    requires g.inodesPerGroup > 0 && g.blockSize > 0
  {
    InodeOffset(g, InodeIndex(g, z))
  }

  lemma RecordFits(g: Geometry, l: Layout, z: nat)
    requires Sound(g) && Placed(g, l) && z < g.inodesCount
    ensures InodeGroupOf(g, z) < g.groupCount == |l.inodeTable| && RecordBlock(g, l, z) in l.role
    ensures l.role[RecordBlock(g, l, z)].InodeTable?
    ensures RecordBlock(g, l, z) < g.blocksCount && RecordOffset(g, z) + g.inodeSize <= g.blockSize
  {
    GroupOfInode(g, z, InodeGroupOf(g, z));
    DivMod(z, g.inodesPerGroup);
    InodeNeverStraddles(g, InodeIndex(g, z));
    assert RecordPlaced(g, l, InodeGroupOf(g, z), InodeIndex(g, z));
  }

  lemma SoundSizes(g: Geometry)
    requires Sound(g)
    ensures g.inodesPerGroup > 0 && g.blocksPerGroup > 0 && 1024 <= g.blockSize <= 4096 && INODE_RECORD <= g.inodeSize
  {
  }

  lemma InodeRecordWritten(g: Geometry, l: Layout, disk: Image, z: nat, s: seq<Byte>, y: nat)
    requires ImageOk(g, l, disk) && z < g.inodesCount && y < g.inodesCount && |s| == INODE_RECORD
    requires InodeGroupOf(g, z) < g.groupCount && RecordBlock(g, l, z) < |disk|
    requires RecordOffset(g, z) + g.inodeSize <= g.blockSize
    requires ImageOk(g, l, disk[RecordBlock(g, l, z) := Splice(disk[RecordBlock(g, l, z)], RecordOffset(g, z), s)])
    ensures InodeRecord(g, l, disk[RecordBlock(g, l, z) := Splice(disk[RecordBlock(g, l, z)], RecordOffset(g, z), s)],
                        y)
         == if y == z then s else InodeRecord(g, l, disk, y)
  {
    hide Splice, InodeOffset, InodeIndex, Descriptor;
    if y != z {
      InodeRecordsApart(g, l, y, z);
      RecordFits(g, l, y);
      if RecordBlock(g, l, y) == RecordBlock(g, l, z) {
        SpliceElsewhere(disk[RecordBlock(g, l, z)], RecordOffset(g, z), s, RecordOffset(g, y),
                        RecordOffset(g, y) + INODE_RECORD);
      }
    }
  }

  /** Writing the record of one inode changes that inode and no other. */
  lemma WriteRecord(g: Geometry, l: Layout, disk: Image, fb: int, fi: int, z: nat, node: Inode)
    requires ImageOk(g, l, disk) && z < g.inodesCount && node.Fits()
    ensures InodeGroupOf(g, z) < g.groupCount && RecordBlock(g, l, z) < |disk|
    ensures RecordOffset(g, z) + INODE_RECORD <= |disk[RecordBlock(g, l, z)]|
    ensures var x := Splice(disk[RecordBlock(g, l, z)], RecordOffset(g, z), Encode(node));
            var v := Abs(g, l, disk, fb, fi);
      && ImageOk(g, l, disk[RecordBlock(g, l, z) := x])
      && Abs(g, l, disk[RecordBlock(g, l, z) := x], fb, fi) == v.(inodes := v.inodes[z := node])
  {
    hide UsedBlock, UsedInode, InodeRecord, Decode, Encode, Descriptor, Splice, RecordOffset, RecordBlock, Sound;
    RecordFits(g, l, z);
    SoundSizes(g);
    var b := RecordBlock(g, l, z);
    SizedAt(g, disk, b);
    var x := Splice(disk[b], RecordOffset(g, z), Encode(node));
    ImageKept(g, l, disk, b, x);
    BitsKept(g, l, disk, fb, fi, b, x);
    CountsKept(g, l, disk, fb, fi, b, x);
    StoreKeptMeta(g, l, disk, fb, fi, b, x);
    InodeRoundTrip(node);
    var v, v' := Abs(g, l, disk, fb, fi), Abs(g, l, disk[b := x], fb, fi);
    forall y | 0 <= y < g.inodesCount
      ensures v'.inodes[y] == v.inodes[z := node][y]
    {
      InodeRecordWritten(g, l, disk, z, Encode(node), y);
    }
  }

  // ---- the superblock ----

  /** The fields of an ext2_superblock_t. */
  function Parse(s: seq<Byte>): Superblock
    requires |s| == SUPERBLOCK_SIZE
  {
    Superblock(U32(s, 0), U32(s, 4), U32(s, 12), U32(s, 16), U32(s, 20), U32(s, 24), U32(s, 32), U32(s, 40),
               U16(s, 56), U32(s, 84), U16(s, 88), U32(s, 96))
  }

  const FREE_BLOCKS_WORD := 3
  const FREE_INODES_WORD := 4

  /** Changing a count changes no other field, and no field that mounting looks at. */
  lemma CountWritten(s: seq<Byte>, k: nat, x: nat)
    requires |s| == SUPERBLOCK_SIZE && k in {FREE_BLOCKS_WORD, FREE_INODES_WORD} && x < 0x1_0000_0000
    ensures var r := PutWord(s, k, x);
      && Parse(r)
           == (if k == FREE_BLOCKS_WORD then Parse(s).(freeBlocksCount := x) else Parse(s).(freeInodesCount := x))
      && Mount(Parse(r)) == Mount(Parse(s))
      && Word(r, k) == x && (forall j :: 0 <= j < 256 && j != k ==> Word(r, j) == Word(s, j))
  {
    hide PutWord, Word;
    var r := PutWord(s, k, x);
    forall j | 0 <= j < 256
      ensures Word(r, j) == if j == k then x else Word(s, j)
    {
      WordOfPut(s, k, x, j);
    }
    HalfWord(s, k, x, 56);
    HalfWord(s, k, x, 88);
    WordsAre(r);
    WordsAre(s);
  }

  lemma WordsAre(s: seq<Byte>)
    requires |s| == SUPERBLOCK_SIZE
    ensures U32(s, 0) == Word(s, 0) && U32(s, 4) == Word(s, 1) && U32(s, 12) == Word(s, 3) && U32(s, 16) == Word(s, 4)
    ensures U32(s, 20) == Word(s, 5) && U32(s, 24) == Word(s, 6) && U32(s, 32) == Word(s, 8)
    ensures U32(s, 40) == Word(s, 10)
    ensures U32(s, 84) == Word(s, 21) && U32(s, 96) == Word(s, 24)
  {
  }

  lemma HalfWord(s: seq<Byte>, k: nat, x: nat, o: nat)
    requires |s| == SUPERBLOCK_SIZE && k < 8 && 32 <= o <= 1022 && x < 0x1_0000_0000
    ensures U16(PutWord(s, k, x), o) == U16(s, o)
  {
    hide Splice;
    var r := PutWord(s, k, x);
    SpliceElsewhere(s, 4 * k, Le32(x), o, o + 2);
    U16Slice(r, o, o, o + 2);
    U16Slice(s, o, o, o + 2);
  }

  /** The superblock as it is on disk. */
  function StoredSuper(g: Geometry, disk: Image): (s: seq<Byte>)
    requires Sound(g) && Sized(g, disk) && SuperBlockNumber(g) < |disk|
    ensures |s| == SUPERBLOCK_SIZE
  {
    disk[SuperBlockNumber(g)][SuperOffset(g)..SuperOffset(g) + SUPERBLOCK_SIZE]
  }

  lemma SuperPlaced(g: Geometry, l: Layout)
    requires Placed(g, l)
    ensures SuperBlockNumber(g) < g.blocksCount
  {
    hide GroupPlaced, RecordPlaced;
  }

  lemma SuperIsForeign(g: Geometry, l: Layout)
    requires Placed(g, l)
    ensures SuperBlockNumber(g) in l.role && l.role[SuperBlockNumber(g)] == Foreign
  {
    hide GroupPlaced, RecordPlaced;
  }

  lemma BitmapPlaced(g: Geometry, l: Layout, k: nat)
    requires Placed(g, l) && k < g.groupCount
    ensures l.blockBitmap[k] in l.role && l.role[l.blockBitmap[k]] == BlockBitmap(k) && l.blockBitmap[k] < g.blocksCount
    ensures l.inodeBitmap[k] in l.role && l.role[l.inodeBitmap[k]] == InodeBitmap(k) && l.inodeBitmap[k] < g.blocksCount
  {
    assert GroupPlaced(g, l, k);
  }

  /** Only a write to its own block can change the superblock. */
  lemma SuperElsewhere(g: Geometry, l: Layout, disk: Image, b: nat)
    requires ImageOk(g, l, disk) && b < |disk| && (b in l.role ==> l.role[b] != Foreign)
    ensures SuperBlockNumber(g) < |disk| && b != SuperBlockNumber(g)
  {
    hide GroupPlaced, RecordPlaced;
  }

  /** The block of the superblock belongs to no bitmap, table or file. */
  lemma WriteForeign(g: Geometry, l: Layout, disk: Image, fb: int, fi: int, b: nat, x: Block)
    requires ImageOk(g, l, disk) && b < |disk| && |x| == g.blockSize && b in l.role && l.role[b] == Foreign
    ensures ImageOk(g, l, disk[b := x]) && Abs(g, l, disk[b := x], fb, fi) == Abs(g, l, disk, fb, fi)
  {
    hide Sound, Placed, Descriptor, UsedBlock, UsedInode, InodeRecord, Decode, ImageOk;
    ImageKept(g, l, disk, b, x);
    BitsKept(g, l, disk, fb, fi, b, x);
    InodesKept(g, l, disk, fb, fi, b, x);
    CountsKept(g, l, disk, fb, fi, b, x);
    StoreKeptMeta(g, l, disk, fb, fi, b, x);
  }

  /** The counts of the cached superblock enter the volume as they are. */
  lemma CountsEnter(g: Geometry, l: Layout, disk: Image, fb: int, fi: int, fb': int, fi': int)
    requires ImageOk(g, l, disk)
    ensures Abs(g, l, disk, fb', fi') == Abs(g, l, disk, fb, fi).(freeBlocks := fb', freeInodes := fi')
  {
    hide ImageOk, UsedBlock, UsedInode, InodeRecord, Decode, Descriptor, Contents;
    var v, w := Abs(g, l, disk, fb, fi), Abs(g, l, disk, fb', fi');
    assert v.used == w.used && v.iused == w.iused && v.blockFree == w.blockFree && v.inodeFree == w.inodeFree;
    assert v.inodes == w.inodes && v.store == w.store;
  }

  // ---- reading ----

  lemma AbsAt(g: Geometry, l: Layout, disk: Image, fb: int, fi: int)
    requires ImageOk(g, l, disk)
    ensures var v := Abs(g, l, disk, fb, fi);
      && v.geo == g && |v.used| == g.blocksCount == |v.store| && |v.iused| == g.inodesCount == |v.inodes|
      && |v.blockFree| == g.groupCount == |v.inodeFree|
      && (forall b :: 0 <= b < g.blocksCount ==>
            v.used[b] == UsedBlock(g, l, disk, b) && v.store[b] == Contents(l, disk, b))
      && (forall z :: 0 <= z < g.inodesCount ==>
            v.iused[z] == UsedInode(g, l, disk, z) && v.inodes[z] == Decode(InodeRecord(g, l, disk, z)))
      && (forall k :: 0 <= k < g.groupCount ==>
            && v.blockFree[k] == DescFreeBlocks(Descriptor(g, l, disk, k))
            && v.inodeFree[k] == DescFreeInodes(Descriptor(g, l, disk, k)))
  {
    hide ImageOk, UsedBlock, UsedInode, InodeRecord, Decode, Descriptor, Contents;
  }

  lemma BlockOfBit(g: Geometry, k: nat, bit: nat)
    requires Sound(g) && bit < g.blocksPerGroup && GroupStart(g, k) + bit < g.blocksCount
    ensures g.firstDataBlock <= GroupStart(g, k) + bit < g.blocksCount
    ensures GroupOf(g, GroupStart(g, k) + bit) == k
  {
    GroupOfBlock(g, GroupStart(g, k) + bit, k);
  }

  /** Bit `bit` of the bitmap of group `k` tells about block first + bit. */
  lemma BlockBitUsed(g: Geometry, l: Layout, disk: Image, k: nat, bit: nat)
    requires ImageOk(g, l, disk) && k < g.groupCount && bit < g.blocksPerGroup
    requires g.firstDataBlock <= GroupStart(g, k) + bit < g.blocksCount && GroupOf(g, GroupStart(g, k) + bit) == k
    ensures l.blockBitmap[k] < |disk| && bit < 8 * |disk[l.blockBitmap[k]]|
    ensures Bit(disk[l.blockBitmap[k]], bit) == UsedBlock(g, l, disk, GroupStart(g, k) + bit)
  {
    hide Bit, Descriptor, GroupOf, GroupStart;
    assert GroupPlaced(g, l, k);
  }

  lemma InodeBitUsed(g: Geometry, l: Layout, disk: Image, k: nat, bit: nat)
    requires ImageOk(g, l, disk) && k < g.groupCount && bit < g.inodesPerGroup && InodeStart(g, k) + bit < g.inodesCount
    ensures l.inodeBitmap[k] < |disk| && bit < 8 * |disk[l.inodeBitmap[k]]|
    ensures Bit(disk[l.inodeBitmap[k]], bit) == UsedInode(g, l, disk, InodeStart(g, k) + bit)
    ensures InodeGroupOf(g, InodeStart(g, k) + bit) == k && InodeIndex(g, InodeStart(g, k) + bit) == bit
  {
    hide Bit, Descriptor;
    assert GroupPlaced(g, l, k);
    DivUnique(InodeStart(g, k) + bit, g.inodesPerGroup, k);
  }

  lemma AbsCounts(g: Geometry, l: Layout, disk: Image, fb: int, fi: int, k: nat)
    requires ImageOk(g, l, disk) && k < g.groupCount
    ensures var v := Abs(g, l, disk, fb, fi);
      && |v.blockFree| == g.groupCount == |v.inodeFree| && v.freeBlocks == fb && v.freeInodes == fi && v.geo == g
      && v.blockFree[k] == DescFreeBlocks(Descriptor(g, l, disk, k))
      && v.inodeFree[k] == DescFreeInodes(Descriptor(g, l, disk, k))
  {
    hide ImageOk, UsedBlock, UsedInode, InodeRecord, Decode, Descriptor, Contents;
  }

  /** Exactly the blocks that are not metadata have contents in the volume. */
  lemma PlainIsContents(g: Geometry, l: Layout, disk: Image, fb: int, fi: int, b: nat)
    requires ImageOk(g, l, disk) && b < |disk|
    ensures Plain(Abs(g, l, disk, fb, fi), b) <==> b !in l.role
    ensures b !in l.role ==> Abs(g, l, disk, fb, fi).store[b] == disk[b]
  {
    hide UsedBlock, UsedInode, InodeRecord, Decode, Descriptor, Placed;
    AbsAt(g, l, disk, fb, fi);
  }
}
