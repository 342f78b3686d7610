/** The contents of an ext2 volume as a value, and the two-level bitmap allocator on it.
    Class Ext2 in Ext2.dfy carries out the same operations on an array of raw blocks. */
module Volumes {
  import opened Bytes
  import opened Geometry

  /** ext2_inode_t: the fields the engine uses by name, the others as raw bytes. */
  datatype Inode = Inode(
    mode: nat, uid: nat, size: nat, times: seq<Byte>, links: nat, blocks: nat, flags: seq<Byte>,
    direct: seq<nat>, indirect: nat, doubly: nat, triply: nat, tail: seq<Byte>)
  {
    predicate IsDir() { mode / 0x1000 == 4 }
    predicate IsFile() { mode / 0x1000 == 8 }

    predicate Fits() {
      && mode < 0x1_0000 && uid < 0x1_0000 && links < 0x1_0000
      && size < 0x1_0000_0000 && blocks < 0x1_0000_0000
      && |times| == 18 && |flags| == 8 && |tail| == 28
      && |direct| == 12 && (forall k :: 0 <= k < 12 ==> direct[k] < 0x1_0000_0000)
      && indirect < 0x1_0000_0000 && doubly < 0x1_0000_0000 && triply < 0x1_0000_0000
    }
  }

  /** An inode cleared by memset and then given these fields. */
  function BlankInode(mode: nat, uid: nat, size: nat, links: nat, blocks: nat, direct: seq<nat>): Inode {
    Inode(mode, uid, size, Zeros(18), links, blocks, Zeros(8), direct, 0, 0, 0, Zeros(28))
  }

  function ZeroInode(): (r: Inode)
    ensures r.Fits() && !r.IsDir() && !r.IsFile()
  {
    BlankInode(0, 0, 0, 0, 0, [0, 0, 0, 0, 0, 0, 0, 0, 0, 0, 0, 0])
  }

  /** `used` and `iused` are the bitmaps; `blockFree` and `inodeFree` the counts in the group
      descriptors, `freeBlocks` and `freeInodes` those in the superblock. `store` holds the contents
      of the blocks that files and directories may own; a block of fixed metadata is empty there. */
  datatype Volume = Volume(
    geo: Geometry, used: seq<bool>, iused: seq<bool>, blockFree: seq<int>, inodeFree: seq<int>,
    freeBlocks: int, freeInodes: int, inodes: seq<Inode>, store: seq<Block>)

  predicate Plain(v: Volume, b: nat) {
    b < |v.store| && |v.store[b]| == v.geo.blockSize
  }

  predicate Shape(v: Volume) {
    && Sound(v.geo)
    && |v.used| == |v.store| == v.geo.blocksCount
    && |v.iused| == |v.inodes| == v.geo.inodesCount
    && |v.blockFree| == |v.inodeFree| == v.geo.groupCount
    && (forall b :: 0 <= b < v.geo.firstDataBlock ==> v.used[b] && |v.store[b]| == 0)
    && |v.store[0]| == 0
    && (forall b :: 0 <= b < |v.store| ==> |v.store[b]| == 0 || |v.store[b]| == v.geo.blockSize)
    && (forall b :: 0 <= b < |v.store| ==> !v.used[b] ==> |v.store[b]| == v.geo.blockSize)
    && (forall n :: 0 <= n < |v.inodes| ==> v.inodes[n].Fits())
  }

  predicate ValidInode(v: Volume, i: nat) {
    0 < i <= v.geo.inodesCount
  }

  function InodeOf(v: Volume, i: nat): Inode
    requires Shape(v) && ValidInode(v, i)
  {
    v.inodes[i - 1]
  }

  function WithInode(v: Volume, i: nat, node: Inode): Volume
    requires Shape(v) && ValidInode(v, i)
  {
    v.(inodes := v.inodes[i - 1 := node])
  }

  // ---- counts ----

  /** How many of bits[lo..hi] are clear. */
  function Clear(bits: seq<bool>, lo: nat, hi: nat): nat
    requires hi <= |bits|
    decreases hi - lo
  {
    if lo >= hi then 0 else (if bits[lo] then 0 else 1) + Clear(bits, lo + 1, hi)
  }

  function Sum(s: seq<int>): int {
    if s == [] then 0 else s[0] + Sum(s[1..])
  }

  /** The three redundant records of free space say the same thing. */
  predicate Agreement(v: Volume)
    requires Shape(v)
  {
    && (forall k :: 0 <= k < v.geo.groupCount ==>
          v.blockFree[k] == Clear(v.used, GroupStart(v.geo, k), GroupEnd(v.geo, k)))
    && (forall k :: 0 <= k < v.geo.groupCount ==>
          v.inodeFree[k] == Clear(v.iused, InodeStart(v.geo, k), InodeEnd(v.geo, k)))
    && v.freeBlocks == Sum(v.blockFree)
    && v.freeInodes == Sum(v.inodeFree)
  }

  lemma {:induction false} ClearZero(bits: seq<bool>, lo: nat, hi: nat)
    requires hi <= |bits|
    ensures Clear(bits, lo, hi) == 0 <==> forall x :: lo <= x < hi ==> bits[x]
    decreases hi - lo
  {
    if lo < hi {
      ClearZero(bits, lo + 1, hi);
    }
  }

  lemma {:induction false} ClearUpdate(bits: seq<bool>, lo: nat, hi: nat, b: nat, on: bool)
    requires hi <= |bits| && b < |bits| && bits[b] != on
    ensures Clear(bits[b := on], lo, hi)
         == Clear(bits, lo, hi) + if lo <= b < hi then (if on then -1 else 1) else 0
    decreases hi - lo
  {
    if lo < hi {
      ClearUpdate(bits, lo + 1, hi, b, on);
    }
  }

  lemma {:induction false} SumUpdate(s: seq<int>, k: nat, x: int)
    requires k < |s|
    ensures Sum(s[k := x]) == Sum(s) + x - s[k]
  {
    if k == 0 {
      assert s[0 := x][1..] == s[1..];
    } else {
      assert s[k := x][1..] == s[1..][k - 1 := x];
      SumUpdate(s[1..], k - 1, x);
    }
  }

  lemma {:induction false} ClearBounded(bits: seq<bool>, lo: nat, hi: nat)
    requires hi <= |bits|
    ensures 0 <= Clear(bits, lo, hi) <= if lo <= hi then hi - lo else 0
    decreases hi - lo
  {
    if lo < hi {
      ClearBounded(bits, lo + 1, hi);
    }
  }

  lemma {:induction false} SumBounded(s: seq<int>, m: nat)
    requires forall k :: 0 <= k < |s| ==> 0 <= s[k] <= m
    ensures 0 <= Sum(s) <= |s| * m
    ensures forall k :: 0 <= k < |s| ==> s[k] <= Sum(s)
  {
    if s != [] {
      SumBounded(s[1..], m);
      assert |s| * m == (|s| - 1) * m + m;
      assert forall k :: 1 <= k < |s| ==> s[k] == s[1..][k - 1];
    }
  }

  /** Counts that agree fit the 16- and 32-bit fields they are kept in. */
  lemma CountsFit(v: Volume)
    requires Shape(v) && Agreement(v)
    ensures forall k :: 0 <= k < v.geo.groupCount ==> 0 <= v.blockFree[k] < 0x1_0000 && v.blockFree[k] <= v.freeBlocks
    ensures forall k :: 0 <= k < v.geo.groupCount ==> 0 <= v.inodeFree[k] < 0x1_0000 && v.inodeFree[k] <= v.freeInodes
    ensures 0 <= v.freeBlocks < 0x1_0000_0000 && 0 <= v.freeInodes < 0x1_0000_0000
  {
    hide Clear;
    forall k | 0 <= k < v.geo.groupCount
      ensures 0 <= v.blockFree[k] <= v.geo.blocksPerGroup && 0 <= v.inodeFree[k] <= v.geo.inodesPerGroup
    {
      ClearBounded(v.used, GroupStart(v.geo, k), GroupEnd(v.geo, k));
      ClearBounded(v.iused, InodeStart(v.geo, k), InodeEnd(v.geo, k));
    }
    SumBounded(v.blockFree, v.geo.blocksPerGroup);
    SumBounded(v.inodeFree, v.geo.inodesPerGroup);
  }

  // ---- blocks ----

  /** Mark block `b` used in its bitmap and in both counts. */
  function TakeBlock(v: Volume, b: nat): Volume
    requires Shape(v) && v.geo.firstDataBlock <= b < v.geo.blocksCount
    requires GroupOf(v.geo, b) < v.geo.groupCount
  {
    var k := GroupOf(v.geo, b);
    v.(used := v.used[b := true], blockFree := v.blockFree[k := v.blockFree[k] - 1],
       freeBlocks := v.freeBlocks - 1, store := v.store[b := Zeros(v.geo.blockSize)])
  }

  /** free_block, on a block that is not fixed metadata: those are never handed to it. */
  function FreeBlock(v: Volume, b: nat): (r: Volume)
    requires Shape(v)
    ensures Shape(r) && r == v.(used := r.used, blockFree := r.blockFree, freeBlocks := r.freeBlocks)
  {
    if b < v.geo.firstDataBlock || !Plain(v, b) then v
    else
      var k := GroupOf(v.geo, b);
      if k >= v.geo.groupCount then v
      else v.(used := v.used[b := false], blockFree := v.blockFree[k := v.blockFree[k] + 1],
              freeBlocks := v.freeBlocks + 1)
  }

  function FirstClear(bits: seq<bool>, lo: nat, hi: nat): (r: Option<nat>)
    requires hi <= |bits|
    ensures r.Some? ==> lo <= r.value < hi && !bits[r.value] && forall x :: lo <= x < r.value ==> bits[x]
    ensures r.None? ==> forall x :: lo <= x < hi ==> bits[x]
    decreases hi - lo
  {
    if lo >= hi then None else if !bits[lo] then Some(lo) else FirstClear(bits, lo + 1, hi)
  }

  datatype Allocation = Allocation(v: Volume, found: Option<nat>)

  function AllocateBlock(v: Volume): (a: Allocation)
    requires Shape(v)
    ensures Shape(a.v) && a.v.geo == v.geo
    ensures a.found.Some? ==> Plain(a.v, a.found.value)
  {
    AllocateBlockFrom(v, 0)
  }

  function AllocateBlockFrom(v: Volume, k: nat): (a: Allocation)
    requires Shape(v) && k <= v.geo.groupCount
    ensures Shape(a.v) && a.v.geo == v.geo
    ensures a.found.Some? ==> Plain(a.v, a.found.value)
    decreases v.geo.groupCount - k
  {
    if k == v.geo.groupCount then Allocation(v, None)
    else if GroupStart(v.geo, k) >= v.geo.blocksCount || v.blockFree[k] == 0 then AllocateBlockFrom(v, k + 1)
    else
      match FirstClear(v.used, GroupStart(v.geo, k), GroupEnd(v.geo, k))
      case None => AllocateBlockFrom(v, k + 1)
      case Some(b) =>
        GroupOfBlock(v.geo, b, k);
        Allocation(TakeBlock(v, b), Some(b))
  }

  lemma AllocateBlockEnd(v: Volume)
    requires Shape(v)
    ensures AllocateBlockFrom(v, v.geo.groupCount) == Allocation(v, None)
  {
  }

  /** One group of the scan. */
  lemma AllocateBlockAt(v: Volume, k: nat)
    requires Shape(v) && k < v.geo.groupCount
    ensures GroupStart(v.geo, k) >= v.geo.blocksCount || v.blockFree[k] == 0 ==>
      AllocateBlockFrom(v, k) == AllocateBlockFrom(v, k + 1)
    ensures GroupStart(v.geo, k) < v.geo.blocksCount && v.blockFree[k] != 0 ==>
      match FirstClear(v.used, GroupStart(v.geo, k), GroupEnd(v.geo, k))
      case None => AllocateBlockFrom(v, k) == AllocateBlockFrom(v, k + 1)
      case Some(b) =>
        && v.geo.firstDataBlock <= b && GroupOf(v.geo, b) == k
        && AllocateBlockFrom(v, k) == Allocation(TakeBlock(v, b), Some(b))
  {
    var f := FirstClear(v.used, GroupStart(v.geo, k), GroupEnd(v.geo, k));
    if f.Some? {
      GroupOfBlock(v.geo, f.value, k);
    }
  }

  /** What an allocation may do: nothing, or take the lowest free block. */
  predicate AllocatedBlock(v: Volume, a: Allocation)
    requires Shape(v)
  {
    match a.found
    case None => a.v == v && forall x :: 0 <= x < v.geo.blocksCount ==> v.used[x]
    case Some(b) =>
      && v.geo.firstDataBlock <= b < v.geo.blocksCount && !v.used[b] && GroupOf(v.geo, b) < v.geo.groupCount
      && (forall x :: 0 <= x < b ==> v.used[x])
      && a.v == TakeBlock(v, b)
  }

  lemma NextGroup(v: Volume, k: nat)
    requires Shape(v) && k < v.geo.groupCount && Agreement(v)
    requires forall x :: 0 <= x < GroupStart(v.geo, k) && x < v.geo.blocksCount ==> v.used[x]
    requires GroupStart(v.geo, k) >= v.geo.blocksCount || v.blockFree[k] == 0
          || FirstClear(v.used, GroupStart(v.geo, k), GroupEnd(v.geo, k)).None?
    ensures forall x :: 0 <= x < GroupStart(v.geo, k + 1) && x < v.geo.blocksCount ==> v.used[x]
  {
    assert GroupStart(v.geo, k + 1) == GroupStart(v.geo, k) + v.geo.blocksPerGroup by {
      assert (k + 1) * v.geo.blocksPerGroup == k * v.geo.blocksPerGroup + v.geo.blocksPerGroup;
    }
    ClearZero(v.used, GroupStart(v.geo, k), GroupEnd(v.geo, k));
  }

  lemma {:induction false} AllocateBlockFromLowest(v: Volume, k: nat)
    requires Shape(v) && Agreement(v) && k <= v.geo.groupCount
    requires forall x :: 0 <= x < GroupStart(v.geo, k) && x < v.geo.blocksCount ==> v.used[x]
    ensures AllocatedBlock(v, AllocateBlockFrom(v, k))
    decreases v.geo.groupCount - k
  {
    if k < v.geo.groupCount {
      var skip := GroupStart(v.geo, k) >= v.geo.blocksCount || v.blockFree[k] == 0
               || FirstClear(v.used, GroupStart(v.geo, k), GroupEnd(v.geo, k)).None?;
      if skip {
        NextGroup(v, k);
        AllocateBlockFromLowest(v, k + 1);
      } else {
        var b := FirstClear(v.used, GroupStart(v.geo, k), GroupEnd(v.geo, k)).value;
        GroupOfBlock(v.geo, b, k);
      }
    }
  }

  /** allocate_block takes the lowest free block of the volume, and fails only when none is free. */
  lemma AllocateBlockLowest(v: Volume)
    requires Shape(v) && Agreement(v)
    ensures AllocatedBlock(v, AllocateBlock(v))
  {
    assert GroupStart(v.geo, 0) == v.geo.firstDataBlock;
    AllocateBlockFromLowest(v, 0);
  }

  lemma CountsAfter(v: Volume, b: nat, on: bool)
    requires Shape(v) && Agreement(v) && v.geo.firstDataBlock <= b < v.geo.blocksCount && v.used[b] != on
    ensures GroupOf(v.geo, b) < v.geo.groupCount
    ensures var k := GroupOf(v.geo, b);
            var d := if on then -1 else 1;
      && (forall j :: 0 <= j < v.geo.groupCount ==>
            v.blockFree[k := v.blockFree[k] + d][j]
            == Clear(v.used[b := on], GroupStart(v.geo, j), GroupEnd(v.geo, j)))
      && Sum(v.blockFree[k := v.blockFree[k] + d]) == Sum(v.blockFree) + d
  {
    GroupOfBlock(v.geo, b, 0);
    var k := GroupOf(v.geo, b);
    var d := if on then -1 else 1;
    SumUpdate(v.blockFree, k, v.blockFree[k] + d);
    forall j | 0 <= j < v.geo.groupCount
      ensures v.blockFree[k := v.blockFree[k] + d][j]
           == Clear(v.used[b := on], GroupStart(v.geo, j), GroupEnd(v.geo, j))
    {
      ClearUpdate(v.used, GroupStart(v.geo, j), GroupEnd(v.geo, j), b, on);
      GroupOfBlock(v.geo, b, j);
    }
  }

  lemma TakeBlockAgreement(v: Volume, b: nat)
    requires Shape(v) && Agreement(v) && v.geo.firstDataBlock <= b < v.geo.blocksCount && !v.used[b]
    ensures GroupOf(v.geo, b) < v.geo.groupCount
    ensures Shape(TakeBlock(v, b)) && Agreement(TakeBlock(v, b))
  {
    CountsAfter(v, b, true);
  }

  /** A block is found exactly when the superblock counts one free. */
  lemma AllocationNeedsFree(v: Volume)
    requires Shape(v) && Agreement(v)
    ensures AllocateBlock(v).found.Some? <==> v.freeBlocks > 0
    ensures AllocateBlock(v).found.None? ==> AllocateBlock(v).v == v
  {
    hide AllocateBlock, Clear, Sum;
    AllocateBlockLowest(v);
    var a := AllocateBlock(v);
    CountsFit(v);
    if a.found.Some? {
      TakeBlockAgreement(v, a.found.value);
      CountsFit(a.v);
    } else {
      forall k | 0 <= k < v.geo.groupCount
        ensures v.blockFree[k] == 0
      {
        ClearZero(v.used, GroupStart(v.geo, k), GroupEnd(v.geo, k));
      }
      SumBounded(v.blockFree, 0);
    }
  }

  lemma FreeBlockAgreement(v: Volume, b: nat)
    requires Shape(v) && Agreement(v) && v.geo.firstDataBlock <= b < v.geo.blocksCount && v.used[b] && Plain(v, b)
    ensures Shape(FreeBlock(v, b)) && Agreement(FreeBlock(v, b))
    ensures FreeBlock(v, b).used == v.used[b := false]
    ensures FreeBlock(v, b).freeBlocks == v.freeBlocks + 1
  {
    CountsAfter(v, b, false);
  }

  // ---- inodes ----

  function TakeInode(v: Volume, i: nat): Volume
    requires Shape(v) && ValidInode(v, i) && InodeGroupOf(v.geo, i - 1) < v.geo.groupCount
  {
    var k := InodeGroupOf(v.geo, i - 1);
    v.(iused := v.iused[i - 1 := true], inodeFree := v.inodeFree[k := v.inodeFree[k] - 1],
       freeInodes := v.freeInodes - 1)
  }

  /** free_inode. */
  function FreeInode(v: Volume, i: nat): (r: Volume)
    requires Shape(v) && ValidInode(v, i)
    ensures Shape(r) && r.geo == v.geo
  {
    var k := InodeGroupOf(v.geo, i - 1);
    if k >= v.geo.groupCount then v
    else v.(iused := v.iused[i - 1 := false], inodeFree := v.inodeFree[k := v.inodeFree[k] + 1],
            freeInodes := v.freeInodes + 1)
  }

  /** Where the scan of group `k` begins: the reserved inodes are passed over. */
  function InodeScanStart(g: Geometry, k: nat): nat {
    InodeStart(g, k) + if g.firstIno > InodeStart(g, k) then g.firstIno - InodeStart(g, k) - 1 else 0
  }

  function AllocateInode(v: Volume): (a: Allocation)
    requires Shape(v)
    ensures Shape(a.v) && a.v.geo == v.geo
    ensures a.found.Some? ==> ValidInode(v, a.found.value)
  {
    AllocateInodeFrom(v, 0)
  }

  function AllocateInodeFrom(v: Volume, k: nat): (a: Allocation)
    requires Shape(v) && k <= v.geo.groupCount
    ensures Shape(a.v) && a.v.geo == v.geo
    ensures a.found.Some? ==> ValidInode(v, a.found.value)
    decreases v.geo.groupCount - k
  {
    if k == v.geo.groupCount then Allocation(v, None)
    else if InodeStart(v.geo, k) >= v.geo.inodesCount || v.inodeFree[k] == 0 then AllocateInodeFrom(v, k + 1)
    else
      match FirstClear(v.iused, InodeScanStart(v.geo, k), InodeEnd(v.geo, k))
      case None => AllocateInodeFrom(v, k + 1)
      case Some(z) =>
        GroupOfInode(v.geo, z, k);
        Allocation(TakeInode(v, z + 1), Some(z + 1))
  }

  lemma AllocateInodeEnd(v: Volume)
    requires Shape(v)
    ensures AllocateInodeFrom(v, v.geo.groupCount) == Allocation(v, None)
  {
  }

  lemma AllocateInodeAt(v: Volume, k: nat)
    requires Shape(v) && k < v.geo.groupCount
    ensures InodeStart(v.geo, k) >= v.geo.inodesCount || v.inodeFree[k] == 0 ==>
      AllocateInodeFrom(v, k) == AllocateInodeFrom(v, k + 1)
    ensures InodeStart(v.geo, k) < v.geo.inodesCount && v.inodeFree[k] != 0 ==>
      match FirstClear(v.iused, InodeScanStart(v.geo, k), InodeEnd(v.geo, k))
      case None => AllocateInodeFrom(v, k) == AllocateInodeFrom(v, k + 1)
      case Some(z) =>
        && InodeGroupOf(v.geo, z) == k
        && AllocateInodeFrom(v, k) == Allocation(TakeInode(v, z + 1), Some(z + 1))
  {
    var f := FirstClear(v.iused, InodeScanStart(v.geo, k), InodeEnd(v.geo, k));
    if f.Some? {
      GroupOfInode(v.geo, f.value, k);
    }
  }

  predicate AllocatedInode(v: Volume, a: Allocation)
    requires Shape(v)
  {
    match a.found
    case None => a.v == v && forall z :: 0 <= z < v.geo.inodesCount && v.geo.firstIno <= z + 1 ==> v.iused[z]
    case Some(i) =>
      && ValidInode(v, i) && v.geo.firstIno <= i && !v.iused[i - 1]
      && InodeGroupOf(v.geo, i - 1) < v.geo.groupCount
      && (forall z :: 0 <= z < i - 1 && v.geo.firstIno <= z + 1 ==> v.iused[z])
      && a.v == TakeInode(v, i)
  }

  lemma NextInodeGroup(v: Volume, k: nat)
    requires Shape(v) && k < v.geo.groupCount && Agreement(v)
    requires forall z :: 0 <= z < InodeStart(v.geo, k) && v.geo.firstIno <= z + 1 && z < v.geo.inodesCount ==>
      v.iused[z]
    requires InodeStart(v.geo, k) >= v.geo.inodesCount || v.inodeFree[k] == 0
          || FirstClear(v.iused, InodeScanStart(v.geo, k), InodeEnd(v.geo, k)).None?
    ensures forall z :: 0 <= z < InodeStart(v.geo, k + 1) && v.geo.firstIno <= z + 1 && z < v.geo.inodesCount ==>
      v.iused[z]
  {
    assert InodeStart(v.geo, k + 1) == InodeStart(v.geo, k) + v.geo.inodesPerGroup by {
      assert (k + 1) * v.geo.inodesPerGroup == k * v.geo.inodesPerGroup + v.geo.inodesPerGroup;
    }
    ClearZero(v.iused, InodeStart(v.geo, k), InodeEnd(v.geo, k));
  }

  lemma {:induction false} AllocateInodeFromLowest(v: Volume, k: nat)
    requires Shape(v) && Agreement(v) && k <= v.geo.groupCount
    requires forall z :: 0 <= z < InodeStart(v.geo, k) && v.geo.firstIno <= z + 1 && z < v.geo.inodesCount ==>
      v.iused[z]
    ensures AllocatedInode(v, AllocateInodeFrom(v, k))
    decreases v.geo.groupCount - k
  {
    if k < v.geo.groupCount {
      var skip := InodeStart(v.geo, k) >= v.geo.inodesCount || v.inodeFree[k] == 0
               || FirstClear(v.iused, InodeScanStart(v.geo, k), InodeEnd(v.geo, k)).None?;
      if skip {
        NextInodeGroup(v, k);
        AllocateInodeFromLowest(v, k + 1);
      } else {
        var z := FirstClear(v.iused, InodeScanStart(v.geo, k), InodeEnd(v.geo, k)).value;
        GroupOfInode(v.geo, z, k);
      }
    }
  }

  /** allocate_inode takes the lowest free inode from first_ino on, and fails only when there is none. */
  lemma AllocateInodeLowest(v: Volume)
    requires Shape(v) && Agreement(v)
    ensures AllocatedInode(v, AllocateInode(v))
  {
    AllocateInodeFromLowest(v, 0);
  }

  lemma InodeCountsAfter(v: Volume, z: nat, on: bool)
    requires Shape(v) && Agreement(v) && z < v.geo.inodesCount && v.iused[z] != on
    ensures InodeGroupOf(v.geo, z) < v.geo.groupCount
    ensures var k := InodeGroupOf(v.geo, z);
            var d := if on then -1 else 1;
      && (forall j :: 0 <= j < v.geo.groupCount ==>
            v.inodeFree[k := v.inodeFree[k] + d][j]
            == Clear(v.iused[z := on], InodeStart(v.geo, j), InodeEnd(v.geo, j)))
      && Sum(v.inodeFree[k := v.inodeFree[k] + d]) == Sum(v.inodeFree) + d
  {
    GroupOfInode(v.geo, z, 0);
    var k := InodeGroupOf(v.geo, z);
    var d := if on then -1 else 1;
    SumUpdate(v.inodeFree, k, v.inodeFree[k] + d);
    forall j | 0 <= j < v.geo.groupCount
      ensures v.inodeFree[k := v.inodeFree[k] + d][j]
           == Clear(v.iused[z := on], InodeStart(v.geo, j), InodeEnd(v.geo, j))
    {
      ClearUpdate(v.iused, InodeStart(v.geo, j), InodeEnd(v.geo, j), z, on);
      GroupOfInode(v.geo, z, j);
    }
  }

  lemma TakeInodeAgreement(v: Volume, i: nat)
    requires Shape(v) && Agreement(v) && ValidInode(v, i) && !v.iused[i - 1]
    ensures InodeGroupOf(v.geo, i - 1) < v.geo.groupCount
    ensures Shape(TakeInode(v, i)) && Agreement(TakeInode(v, i))
  {
    InodeCountsAfter(v, i - 1, true);
  }

  lemma FreeInodeAgreement(v: Volume, i: nat)
    requires Shape(v) && Agreement(v) && ValidInode(v, i) && v.iused[i - 1]
    ensures Shape(FreeInode(v, i)) && Agreement(FreeInode(v, i))
    ensures FreeInode(v, i).iused == v.iused[i - 1 := false]
  {
    InodeCountsAfter(v, i - 1, false);
  }

  /** With equal bitmaps the counts agree too: they are functions of the bitmaps. */
  lemma BitmapsDetermineCounts(v: Volume, w: Volume)
    requires Shape(v) && Agreement(v) && Shape(w) && Agreement(w) && v.geo == w.geo
    ensures v.used == w.used ==> v.blockFree == w.blockFree && v.freeBlocks == w.freeBlocks
    ensures v.iused == w.iused ==> v.inodeFree == w.inodeFree && v.freeInodes == w.freeInodes
  {
    if v.used == w.used {
      assert v.blockFree == w.blockFree;
    }
    if v.iused == w.iused {
      assert v.inodeFree == w.inodeFree;
    }
  }
}
