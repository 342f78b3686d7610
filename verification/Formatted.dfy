/** A freshly formatted disk: an image of 20 blocks on which the engine can be mounted, and whose root
    directory, once made, satisfies every invariant that the guarantees about runs start from. */
module Formatted {
  import opened Bytes
  import opened Geometry
  import opened Volumes
  import opened PointerTree
  import opened Ownership
  import opened Files
  import opened DirBlock
  import opened Directories
  import opened FileSystem
  import opened Conservation
  import opened Trees
  import opened Runs
  import opened Entries
  import opened Books
  import opened Inodes
  import opened DiskImage
  import opened Engine

  // ---- the bytes ----

  /** One group of 19 blocks and 16 inodes, the first 10 of them reserved. */
  function Small(): Geometry {
    Geometry(1024, 128, 20, 16, 1, 8192, 16, 11, 1)
  }

  /** Superblock, descriptors, two bitmaps and two blocks of inodes; the blocks behind them are free. */
  function Places(): Layout {
    Layout([3], [4], [5], map[0 := Foreign, 1 := Foreign, 2 := Descriptors(0), 3 := BlockBitmap(0), 4 := InodeBitmap(0),
                              5 := InodeTable(0, 0), 6 := InodeTable(0, 1)])
  }

  function SuperByte(k: nat): Byte {
    if k == 0 || k == 40 then 16
    else if k == 4 then 20
    else if k == 12 then 13
    else if k == 16 then 6
    else if k == 20 then 1
    else if k == 33 then 0x20
    else if k == 56 then 0x53
    else if k == 57 then 0xEF
    else if k == 84 then 11
    else if k == 88 then 128
    else 0
  }

  function DescriptorByte(k: nat): Byte {
    if k == 0 then 3 else if k == 4 then 4 else if k == 8 then 5 else if k == 12 then 13 else if k == 14 then 6 else 0
  }

  function DiskByte(b: nat, k: nat): Byte {
    if b == 1 then SuperByte(k)
    else if b == 2 then DescriptorByte(k)
    else if b == 3 && k == 0 then 63
    else if b == 4 && k == 0 then 255
    else if b == 4 && k == 1 then 3
    else 0
  }

  function FreshBlock(b: nat): (x: Block)
    ensures |x| == 1024 && forall k :: 0 <= k < 1024 ==> x[k] == DiskByte(b, k)
  {
    seq(1024, k requires k >= 0 => DiskByte(b, k))
  }

  function Fresh(): (image: Image)
    ensures |image| == 20 && forall b :: 0 <= b < 20 ==> image[b] == FreshBlock(b)
  {
    seq(20, b requires b >= 0 => FreshBlock(b))
  }

  // ---- mounting it ----

  lemma SuperWord(o: nat)
    requires o + 4 <= 1024
    ensures U32(FreshBlock(1), o)
      == SuperByte(o) + 256 * SuperByte(o + 1) + 65536 * SuperByte(o + 2) + 16777216 * SuperByte(o + 3)
    ensures U16(FreshBlock(1), o) == SuperByte(o) + 256 * SuperByte(o + 1)
  {
    hide FreshBlock, SuperByte;
  }

  lemma FreshParses()
    ensures Parse(FreshBlock(1)) == Superblock(16, 20, 13, 6, 1, 0, 8192, 16, EXT2_MAGIC, 11, 128, 0)
    ensures Word(FreshBlock(1), FREE_BLOCKS_WORD) == 13 && Word(FreshBlock(1), FREE_INODES_WORD) == 6
  {
    hide FreshBlock, U32, U16;
    SuperWord(0);
    SuperWord(4);
    SuperWord(12);
    SuperWord(16);
    SuperWord(20);
    SuperWord(24);
    SuperWord(32);
    SuperWord(40);
    SuperWord(56);
    SuperWord(84);
    SuperWord(88);
    SuperWord(96);
  }

  lemma FreshMounts()
    ensures Mount(Parse(FreshBlock(1))) == Some(Small())
    ensures Word(FreshBlock(1), FREE_BLOCKS_WORD) == 13 && Word(FreshBlock(1), FREE_INODES_WORD) == 6
  {
    hide FreshBlock, Parse, Word;
    FreshParses();
    assert CeilDiv(19, 8192) == 1 && CeilDiv(16, 16) == 1;
  }

  lemma SmallPlaced()
    ensures Sound(Small()) && Placed(Small(), Places())
  {
    forall k, index | 0 <= k < 1 && 0 <= index < 16
      ensures RecordPlaced(Small(), Places(), k, index)
    {
      assert index * 128 / 1024 == index / 8;
    }
  }

  lemma FreshSized()
    ensures Sized(Small(), Fresh())
  {
    hide FreshBlock, Fresh;
  }

  lemma FreshDescriptor()
    ensures ImageOk(Small(), Places(), Fresh())
    ensures var d := Descriptor(Small(), Places(), Fresh(), 0);
      DescFreeBlocks(d) == 13 && DescFreeInodes(d) == 6
  {
    hide FreshBlock, Fresh, Sound, Placed, Sized;
    SmallPlaced();
    FreshSized();
    var d := Descriptor(Small(), Places(), Fresh(), 0);
    assert d == FreshBlock(2)[0..32];
    forall k | 0 <= k < 32
      ensures d[k] == DescriptorByte(k)
    {
    }
  }

  // ---- the volume it stands for ----

  /** One group, counted right, with its metadata in use and no inode holding a file or a directory. */
  predicate Unused(v: Volume) {
    && Shape(v) && v.geo == Small()
    && (forall b :: 0 <= b < 20 ==> v.used[b] == (b < 7) && (b < 7 ==> |v.store[b]| == 0))
    && (forall z :: 0 <= z < 16 ==> v.iused[z] == (z < 10) && v.inodes[z] == ZeroInode())
    && v.blockFree == [13] && v.inodeFree == [6] && v.freeBlocks == 13 && v.freeInodes == 6
  }

  function FreshVolume(): Volume
    requires ImageOk(Small(), Places(), Fresh())
  {
    Abs(Small(), Places(), Fresh(), 13, 6)
  }

  lemma SmallGroups(b: nat)
    requires 1 <= b < 20
    ensures GroupOf(Small(), b) == 0 && GroupStart(Small(), 0) == 1 && GroupEnd(Small(), 0) == 20
  {
    DivUnique(b - 1, 8192, 0);
  }

  lemma SmallInodes(z: nat)
    requires z < 16
    ensures InodeGroupOf(Small(), z) == 0 && InodeIndex(Small(), z) == z
    ensures InodeStart(Small(), 0) == 0 && InodeEnd(Small(), 0) == 16
  {
    DivUnique(z, 16, 0);
  }

  lemma BitmapBit(bit: nat)
    requires bit < 19
    ensures Bit(FreshBlock(3), bit) == (bit < 6)
  {
    hide FreshBlock, BitOf;
    LowBits(bit % 8);
    assert FreshBlock(3)[bit / 8] == DiskByte(3, bit / 8);
  }

  lemma SmallFields()
    ensures Small().firstDataBlock == 1 && Small().blocksCount == 20 && Small().groupCount == 1
    ensures Places().blockBitmap == [3] && Places().inodeBitmap == [4] && Places().inodeTable == [5]
  {
  }

  lemma FreshUsed(b: nat)
    requires ImageOk(Small(), Places(), Fresh()) && b < 20
    ensures UsedBlock(Small(), Places(), Fresh(), b) == (b < 7)
  {
    hide FreshBlock, Fresh, ImageOk, Bit, Small, Places, GroupOf, GroupStart, Sound;
    SmallFields();
    if b >= 1 {
      SmallGroups(b);
      BitmapBit(b - 1);
    }
  }

  /** 63 has the six lowest bits set, 3 the two lowest, 255 all of a byte, and 0 none. */
  lemma LowBits(k: nat)
    requires k < 8
    ensures BitOf(63, k) == (k < 6) && BitOf(3, k) == (k < 2) && BitOf(255, k) && !BitOf(0, k)
  {
    assert Pow2(0) == 1 && Pow2(1) == 2 && Pow2(2) == 4 && Pow2(3) == 8;
    assert Pow2(4) == 16 && Pow2(5) == 32 && Pow2(6) == 64 && Pow2(7) == 128;
  }

  lemma FreshInodeUsed(z: nat)
    requires ImageOk(Small(), Places(), Fresh()) && z < 16
    ensures UsedInode(Small(), Places(), Fresh(), z) == (z < 10)
  {
    hide FreshBlock, Fresh, ImageOk, BitOf;
    SmallInodes(z);
    LowBits(z % 8);
    assert Fresh()[4][z / 8] == DiskByte(4, z / 8);
  }

  lemma FreshInode(z: nat)
    requires ImageOk(Small(), Places(), Fresh()) && z < 16
    ensures Decode(InodeRecord(Small(), Places(), Fresh(), z)) == ZeroInode()
  {
    hide FreshBlock, Fresh, ImageOk;
    SmallInodes(z);
    var s := InodeRecord(Small(), Places(), Fresh(), z);
    assert z * 128 / 1024 == z / 8;
    forall k | 0 <= k < 128
      ensures s[k] == 0
    {
    }
    ZeroDecodes(s);
  }

  lemma ZeroDecodes(s: seq<Byte>)
    requires |s| == INODE_RECORD && forall k :: 0 <= k < INODE_RECORD ==> s[k] == 0
    ensures Decode(s) == ZeroInode()
  {
    var n, z := Decode(s), ZeroInode();
    assert n.times == z.times && n.flags == z.flags && n.tail == z.tail;
    assert n.direct == z.direct;
  }

  lemma FreshUnused()
    requires ImageOk(Small(), Places(), Fresh())
    ensures Unused(FreshVolume())
  {
    hide FreshBlock, Fresh, ImageOk, UsedBlock, UsedInode, InodeRecord, Decode;
    FreshDescriptor();
    SmallPlaced();
    var v := FreshVolume();
    forall b | 0 <= b < 20
      ensures v.used[b] == (b < 7) && |v.store[b]| == if b < 7 then 0 else 1024
    {
      FreshUsed(b);
    }
    forall z | 0 <= z < 16
      ensures v.iused[z] == (z < 10) && v.inodes[z] == ZeroInode()
    {
      FreshInodeUsed(z);
      FreshInode(z);
    }
  }

  lemma {:induction false} ClearRun(bits: seq<bool>, lo: nat, hi: nat)
    requires lo <= hi <= |bits| && forall k :: lo <= k < hi ==> !bits[k]
    ensures Clear(bits, lo, hi) == hi - lo
    decreases hi - lo
  {
    if lo < hi {
      ClearRun(bits, lo + 1, hi);
    }
  }

  lemma {:induction false} ClearSkips(bits: seq<bool>, lo: nat, mid: nat, hi: nat)
    requires lo <= mid <= hi <= |bits| && forall k :: lo <= k < mid ==> bits[k]
    ensures Clear(bits, lo, hi) == Clear(bits, mid, hi)
    decreases mid - lo
  {
    if lo < mid {
      ClearSkips(bits, lo + 1, mid, hi);
    }
  }

  lemma SumOne(x: int)
    ensures Sum([x]) == x
  {
    assert [x][1..] == [];
  }

  lemma UnusedBits(v: Volume)
    requires Unused(v)
    ensures |v.used| == 20 && |v.iused| == 16 && v.geo == Small() && v.geo.groupCount == 1
    ensures (forall b :: 0 <= b < 20 ==> v.used[b] == (b < 7)) && (forall z :: 0 <= z < 16 ==> v.iused[z] == (z < 10))
  {
  }

  lemma UnusedAgrees(v: Volume)
    requires Unused(v)
    ensures Agreement(v)
  {
    hide Clear, Sum, Shape, Small, GroupStart, GroupEnd, InodeStart, InodeEnd, Unused;
    UnusedBits(v);
    UnusedCounts(v);
    SumOne(13);
    SumOne(6);
    SmallGroups(1);
    SmallInodes(0);
  }

  lemma UnusedCounts(v: Volume)
    requires Unused(v)
    ensures Clear(v.used, 1, 20) == 13 && Clear(v.iused, 0, 16) == 6
    ensures v.blockFree == [13] && v.inodeFree == [6] && v.freeBlocks == 13 && v.freeInodes == 6
  {
    hide Clear, Shape, Small;
    UnusedBits(v);
    ClearSkips(v.used, 1, 7, 20);
    ClearRun(v.used, 7, 20);
    ClearSkips(v.iused, 0, 10, 16);
    ClearRun(v.iused, 10, 16);
  }

  lemma UnusedOk(v: Volume)
    requires Unused(v)
    ensures StoreOk(v, map[]) && View(v) == map[] && AllGood(v, map[]) && Complete(v, map[])
    ensures v.iused[ROOT - 1] && ValidInode(v, ROOT) && !Active(v, ROOT) && AllocateBlock(v).found.Some?
  {
    hide Agreement, Clear, Sum, AllocateBlock, Small, InodeOk, NothingLost, Accounted;
    UnusedAgrees(v);
    UnusedGeometry(v);
    AllocationNeedsFree(v);
    forall i | 0 < i <= v.geo.inodesCount
      ensures !Active(v, i)
    {
      assert v.inodes[i - 1] == ZeroInode();
    }
  }

  lemma UnusedGeometry(v: Volume)
    requires Unused(v)
    ensures v.geo.inodesCount == 16 == |v.inodes| && |v.used| == 20 == |v.store| && v.geo.blockSize == 1024
  {
  }

  /** The root directory made on such a volume, as the current one. */
  function Rooted(v: Volume): State
    requires Unused(v) && AllocateBlock(v).found.Some?
  {
    var b := AllocateBlock(v);
    State(NewDirectory(b.v, ROOT, ROOT, 0, b.found.value), ROOT)
  }

  /** Making the root directory on such a volume gives a state to start runs from. */
  lemma RootMade(v: Volume)
    requires Unused(v)
    ensures AllocateBlock(v).found.Some? && Sane(Rooted(v)) && Tidy(Rooted(v)) && Balanced(Rooted(v))
    ensures Shape(Rooted(v).v) && NoneWasted(Rooted(v).v) && DirsCounted(Rooted(v).v)
  {
    hide StoreOk, View, AllocateBlock, NewDirectory, AllGood, Complete, Ledger, Small, NoneWasted, DirsCounted;
    UnusedOk(v);
    StoreOkFacts(v, map[], ROOT);
    var owner := NewDirectoryStep(v, map[], ROOT, ROOT, 0);
    var s := Rooted(v);
    RootAlone(View(s.v));
    assert SaneWith(s, owner, map[]);
    assert TidyWith(s, owner, map[]);
    CompleteStays(v, map[], s.v, owner);
    GoodStays(v, map[], s.v, owner);
    assert BalancedWith(s, owner, map[]);
    RootInodes(v);
    RootOnly(s.v);
  }

  lemma RootInodes(v: Volume)
    requires Unused(v) && AllocateBlock(v).found.Some?
    ensures var w := Rooted(v).v;
      && Shape(w) && w.geo == Small() && w.iused == v.iused && |w.inodes| == 16
      && InodeOf(w, ROOT).IsDir() && Counted(InodeOf(w, ROOT))
  {
    hide NewDirectory, Agreement;
    var b := AllocateBlock(v);
    BlockKeepsInodes(v, 0);
    var node := NewDirectoryInode(b.v, ROOT, ROOT, 0, b.found.value);
  }

  lemma RootOnly(w: Volume)
    requires Shape(w) && w.geo == Small() && (forall z :: 0 <= z < 16 ==> w.iused[z] == (z < 10))
    requires View(w) == map[ROOT := NewDirNode(ROOT, ROOT)] && Counted(InodeOf(w, ROOT))
    ensures NoneWasted(w) && DirsCounted(w)
  {
    hide View;
  }

  /** From a formatted disk on: the invariant and the counts of directories hold after any run; and every
      file and directory has its entry, no block and no inode is in use for nothing, each exactly when no
      request of the run was one that leaves an entry out, runs out of blocks half-way, or takes an inode in
      vain. */
  lemma FromFormatted(v: Volume, ops: seq<Request>)
    requires Unused(v)
    ensures AllocateBlock(v).found.Some? && Shape(Rooted(v).v)
    ensures var s := Rooted(v);
            var r := Run(s, ops);
      && Sane(r) && DirsCounted(r.v)
      && (Tidy(r) <==> !RunLeavesLoose(s, ops))
      && (LeakFree(r.v) <==> !RunStarves(s, ops))
      && (NoneWasted(r.v) <==> Wastings(s, ops) == 0)
  {
    hide Unused, Rooted, Run, Sane, Tidy, Balanced, LeakFree, NoneWasted, DirsCounted, RunLeavesLoose, RunStarves,
      Wastings, AllocateBlock, AllAccounted;
    RootMade(v);
    var s := Rooted(v);
    RunKeepsSane(s, ops);
    RunKeepsTidy(s, ops);
    RunKeepsBalanced(s, ops);
    RunKeepsInodes(s, ops);
    RunKeepsDirsCounted(s, ops);
  }

  lemma RootAlone(t: Tree)
    requires t == map[ROOT := NewDirNode(ROOT, ROOT)]
    ensures TreeOk(t, map[]) && IsDirIn(t, ROOT) && NoneLoose(t, map[])
  {
    assert |DOT| != |DOTDOT|;
    assert Subdirs(t, ROOT) == {};
  }

  // ---- an engine on it ----

  /** The engine can be mounted on the fresh disk, and with a root directory on it every guarantee about
      runs applies: the invariants are not empty. */
  method Format() returns (e: Ext2)
    ensures fresh(e) && e.Consistent() && Tidy(State(e.Vol(), e.currentDir)) && Balanced(State(e.Vol(), e.currentDir))
    ensures NoneWasted(e.Vol()) && DirsCounted(e.Vol())
  {
    hide Fresh, FreshBlock, ImageOk, Mount, Parse, Abs, Shape, Agreement, Ext2.Ready, Unused, NewDirectory, Small,
      Sane, Tidy, Balanced, Volumes.AllocateBlock, NoneWasted, DirsCounted;
    FreshMounts();
    FreshSized();
    FreshDescriptor();
    FreshUnused();
    FreshSuper();
    var image := Fresh();
    var disk := new Block[20](b requires 0 <= b < 20 => image[b]);
    assert disk[..] == image;
    e := new Ext2(disk, FreshBlock(1), Places());
    UnusedAgrees(e.Vol());
    UnusedOk(e.Vol());
    RootMade(e.Vol());
    UnusedShape(e.Vol());
    ghost var v := e.Vol();
    var block := e.AllocateBlock();
    AllocatedFits(v);
    e.MakeDirectory(ROOT, block.value, 0, v);
  }

  lemma UnusedShape(v: Volume)
    requires Unused(v)
    ensures Shape(v)
  {
  }

  lemma AllocatedFits(v: Volume)
    requires Shape(v) && Agreement(v) && AllocateBlock(v).found.Some? && ValidInode(v, ROOT)
    ensures var a := AllocateBlock(v);
      a.found.value < 0x1_0000_0000 && Plain(a.v, a.found.value) && ValidInode(a.v, ROOT)
  {
    hide AllocateBlock, Agreement;
    AllocateBlockLowest(v);
  }

  lemma FreshSuper()
    requires Sized(Small(), Fresh())
    ensures SuperBlockNumber(Small()) == 1 && StoredSuper(Small(), Fresh()) == FreshBlock(1)
  {
    hide Fresh, FreshBlock;
  }
}
