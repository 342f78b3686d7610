/** Counting blocks: what a file costs, what deleting it gives back. */
module Conservation {
  import opened Bytes
  import opened Geometry
  import opened Volumes
  import opened PointerTree
  import opened Ownership
  import opened Files
  import opened Release
  import opened DirBlock
  import opened Directories
  import opened FileSystem

  // ---- the closed form step by step ----

  lemma CeilDivStep(x: nat, p: nat)
    requires p > 0
    ensures CeilDiv(x + 1, p) == CeilDiv(x, p) + if x % p == 0 then 1 else 0
  {
    DivMod(x, p);
    var q, r := x / p, x % p;
    assert (q + 1) * p == q * p + p;
    if r == 0 {
      DivUnique(x + p - 1, p, q);
      DivUnique(x + p, p, q + 1);
    } else {
      DivUnique(x + p - 1, p, q + 1);
      DivUnique(x + p, p, q + 1);
    }
  }

  /** metadata_block_count grows exactly where the file enters a region or a new second-level table. */
  lemma MetadataStep(v: Volume, n: nat)
    requires Shape(v)
    ensures MetadataCount(v, n + 1) == MetadataCount(v, n)
      + (if n == 12 || n == 12 + Pointers(v) then 1 else 0)
      + (if 12 + Pointers(v) <= n && Low(v, n) == 0 then 1 else 0)
  {
    var p := Pointers(v);
    if 12 + p <= n {
      CeilDivStep(n - 12 - p, p);
      if n == 12 + p {
        DivUnique(p - 1, p, 0);
        DivUnique(0, p, 0);
      }
    }
  }

  // ---- what one set_inode_block costs ----

  lemma AllocationCost(v: Volume)
    requires Shape(v) && Agreement(v) && AllocateBlock(v).found.Some?
    ensures AllocateBlock(v).v.freeBlocks == v.freeBlocks - 1
    ensures AllocateBlock(v).v.store == v.store[AllocateBlock(v).found.value := Zeros(v.geo.blockSize)]
    ensures !v.used[AllocateBlock(v).found.value] && AllocateBlock(v).found.value != 0
  {
    AllocateBlockLowest(v);
  }

  predicate CostsExactly(v: Volume, n: nat, r: Growth)
    requires Shape(v) && Shape(r.v) && r.v.geo == v.geo
  {
    var more := MetadataCount(v, n + 1) - MetadataCount(v, n);
    && (r.ok <==> more <= v.freeBlocks)
    && (r.ok ==> ExactTables(r.v, r.node, n + 1) && v.freeBlocks - r.v.freeBlocks == more)
    && (!r.ok ==> r.v.freeBlocks == 0)
  }

  lemma IndirectCost(v: Volume, owner: Owners, i: nat, node: Inode, n: nat, p: nat)
    requires Shape(v) && Agreement(v) && Recorded(v, owner) && node.Fits() && Tables(v, owner, i, node)
    requires ExactTables(v, node, n) && 12 <= n < 12 + Pointers(v) && p < 0x1_0000_0000
    ensures CostsExactly(v, n, SetInodeBlock(v, node, n, p))
  {
    hide Word, PutWord, MetadataCount, Agreement, AllocateBlock, Sound;
    MetadataStep(v, n);
    AllocationNeedsFree(v);
    CountsFit(v);
    if node.indirect == 0 && AllocateBlock(v).found.Some? {
      AllocationCost(v);
    }
  }

  lemma DirectCost(v: Volume, node: Inode, n: nat, p: nat)
    requires Shape(v) && Agreement(v) && node.Fits() && ExactTables(v, node, n) && n < 12 && p < 0x1_0000_0000
    ensures CostsExactly(v, n, SetInodeBlock(v, node, n, p))
  {
    hide Word, Agreement;
    CountsFit(v);
    MetadataStep(v, n);
  }

  lemma EnsureBlockSucceeds(v: Volume, b: nat)
    requires Shape(v) && Agreement(v)
    ensures EnsureBlock(v, b).found.Some? <==> b != 0 || v.freeBlocks > 0
    ensures EnsureBlock(v, b).found.None? ==> EnsureBlock(v, b).v == v && v.freeBlocks == 0
  {
    hide Agreement, AllocateBlock;
    AllocationNeedsFree(v);
    CountsFit(v);
  }

  lemma EnsureChildSucceeds(v: Volume, owner: Owners, i: nat, node: Inode, t: nat)
    requires Shape(v) && Agreement(v) && Recorded(v, owner) && Tables(v, owner, i, node) && node.doubly != 0
    requires t < Pointers(v)
    requires Plain(v, node.doubly)
    ensures EnsureChild(v, node.doubly, t).found.Some? <==> Word(v.store[node.doubly], t) != 0 || v.freeBlocks > 0
    ensures EnsureChild(v, node.doubly, t).found.None? ==> EnsureChild(v, node.doubly, t).v == v && v.freeBlocks == 0
  {
    hide Agreement, AllocateBlock, Word, PutWord;
    AllocationNeedsFree(v);
    CountsFit(v);
    if AllocateBlock(v).found.Some? {
      AllocationCost(v);
    }
  }

  /** The words of the top table once it is there. */
  lemma TopTableCost(v: Volume, node: Inode, n: nat)
    requires Shape(v) && Agreement(v) && node.Fits() && ExactTables(v, node, n) && 12 + Pointers(v) <= n
    requires EnsureBlock(v, node.doubly).found.Some?
    ensures var a := EnsureBlock(v, node.doubly);
            var d := a.found.value;
      && Plain(a.v, d)
      && v.freeBlocks - a.v.freeBlocks == (if n == 12 + Pointers(v) then 1 else 0)
      && forall k :: 0 <= k < Pointers(v) ==>
           (Word(a.v.store[d], k) != 0 <==> 12 + Pointers(v) + k * Pointers(v) < n)
  {
    hide Word, Agreement, Sound, AllocateBlock;
    var a := EnsureBlock(v, node.doubly);
    if node.doubly == 0 {
      AllocationCost(v);
      forall k | 0 <= k < Pointers(v)
        ensures Word(a.v.store[a.found.value], k) == 0
        ensures !(12 + Pointers(v) + k * Pointers(v) < n)
      {
        WordOfZeros(v.geo.blockSize, k);
        MulMono(0, k, Pointers(v));
      }
    }
  }

  /** Once the second-level table at Top(n) is there, the top table is exact for n + 1 blocks. */
  lemma ChildTableCost(v: Volume, owner: Owners, i: nat, d: nat, n: nat)
    requires Shape(v) && Agreement(v) && Recorded(v, owner)
    requires 12 + Pointers(v) <= n < MaxLogical(v) && Plain(v, d) && d != 0 && d in owner
    requires forall k :: 0 <= k < Pointers(v) ==>
      (Word(v.store[d], k) != 0 <==> 12 + Pointers(v) + k * Pointers(v) < n)
    requires EnsureChild(v, d, Top(v, n)).found.Some?
    ensures var c := EnsureChild(v, d, Top(v, n));
      && Plain(c.v, d)
      && v.freeBlocks - c.v.freeBlocks == (if Low(v, n) == 0 then 1 else 0)
      && forall k :: 0 <= k < Pointers(v) ==>
           (Word(c.v.store[d], k) != 0 <==> 12 + Pointers(v) + k * Pointers(v) < n + 1)
  {
    hide Word, PutWord, Agreement, Sound, AllocateBlock, Top, Low;
    var t := Top(v, n);
    TopLow(v, n);
    var c := EnsureChild(v, d, t);
    if Word(v.store[d], t) == 0 {
      AllocationCost(v);
    }
    forall k | 0 <= k < Pointers(v)
      ensures Word(c.v.store[d], k) != 0 <==> 12 + Pointers(v) + k * Pointers(v) < n + 1
    {
      if Word(v.store[d], t) == 0 {
        WordOfPut(v.store[d], t, c.found.value, k);
      }
      TopOrder(n, Pointers(v), t, Low(v, n), k);
    }
  }

  lemma TopOrder(n: nat, p: nat, t: nat, low: nat, k: nat)
    requires low < p && n == 12 + p + t * p + low
    ensures k == t ==> (12 + p + k * p < n <==> low != 0) && 12 + p + k * p < n + 1
    ensures k != t ==> (12 + p + k * p < n + 1 <==> 12 + p + k * p < n)
  {
    if k < t {
      MulMono(k + 1, t, p);
      assert (k + 1) * p == k * p + p;
    } else if k > t {
      MulMono(t + 1, k, p);
      assert (t + 1) * p == t * p + p;
    }
  }

  lemma DoublyCost(v: Volume, owner: Owners, i: nat, node: Inode, n: nat, p: nat)
    requires Shape(v) && Agreement(v) && Recorded(v, owner) && node.Fits() && Tables(v, owner, i, node)
    requires ExactTables(v, node, n) && 12 + Pointers(v) <= n < MaxLogical(v) && p < 0x1_0000_0000
    ensures CostsExactly(v, n, SetInodeBlock(v, node, n, p))
  {
    hide Word, PutWord, MetadataCount, Agreement, AllocateBlock, Sound, EnsureBlock, EnsureChild, Top, Low,
      ExactTables, TreeKept, Tables, Recorded;
    MetadataStep(v, n);
    TopLow(v, n);
    CountsFit(v);
    EnsureBlockSucceeds(v, node.doubly);
    TopMissing(v, node, n);
    var o1 := EnsureDoubly(v, owner, i, node);
    var a := EnsureBlock(v, node.doubly);
    if a.found.Some? {
      TopTableCost(v, node, n);
      TreeKeptFacts(v, owner, i, node, a.v, o1, node.(doubly := a.found.value));
      ChildCost(v, node, n, p, a.v, o1, i, a.found.value);
    }
  }

  lemma TopMissing(v: Volume, node: Inode, n: nat)
    requires Shape(v) && ExactTables(v, node, n) && 12 + Pointers(v) <= n
    ensures node.doubly == 0 <==> n == 12 + Pointers(v)
  {
  }

  /** The rest of it, once the top table `d` is there. */
  lemma ChildCost(v: Volume, node: Inode, n: nat, p: nat, a: Volume, o1: Owners, i: nat, d: nat)
    requires Shape(v) && node.Fits() && ExactTables(v, node, n) && 12 + Pointers(v) <= n < MaxLogical(v)
    requires p < 0x1_0000_0000
    requires Shape(a) && a.geo == v.geo && Agreement(a) && Recorded(a, o1) && d != 0 && Plain(a, d)
    requires EnsureBlock(v, node.doubly) == Allocation(a, Some(d)) && d < 0x1_0000_0000
    requires Tables(a, o1, i, node.(doubly := d))
    requires v.freeBlocks - a.freeBlocks == (if n == 12 + Pointers(v) then 1 else 0)
    requires forall k :: 0 <= k < Pointers(v) ==> (Word(a.store[d], k) != 0 <==> 12 + Pointers(v) + k * Pointers(v) < n)
    ensures CostsExactly(v, n, SetInodeBlock(v, node, n, p))
  {
    hide Word, PutWord, MetadataCount, Agreement, AllocateBlock, Sound, EnsureBlock, EnsureChild, Top, Low,
      ExactTables, TreeKept, Tables, Recorded, SetInodeBlock;
    var r := SetInodeBlock(v, node, n, p);
    DoublyOutcome(v, node, n, p, a, d);
    var node1 := node.(doubly := d);
    MetadataStep(v, n);
    TopLow(v, n);
    TopSame(v, a, n);
    CountsFit(a);
    TableHeld(a, o1, i, node1);
    EnsureChildSucceeds(a, o1, i, node1, Top(v, n));
    TopOrder(n, Pointers(v), Top(v, n), Low(v, n), Top(v, n));
    var o2 := EnsureChildTable(a, o1, i, node1, Top(v, n));
    var c := EnsureChild(a, d, Top(v, n));
    if c.found.Some? {
      ChildTableCost(a, o1, i, d, n);
      TreeKeptFacts(a, o1, i, node1, c.v, o2, node1);
      ChildApart(c.v, o2, i, node1, Top(v, n));
      ExactAfter(v, node, node1, n, c.v, r);
    }
  }

  lemma DoublyOutcome(v: Volume, node: Inode, n: nat, p: nat, a: Volume, d: nat)
    requires Shape(v) && node.Fits() && 12 + Pointers(v) <= n < MaxLogical(v) && p < 0x1_0000_0000
    requires Shape(a) && a.geo == v.geo && d < 0x1_0000_0000 && EnsureBlock(v, node.doubly) == Allocation(a, Some(d))
    ensures var r := SetInodeBlock(v, node, n, p);
            var c := EnsureChild(a, d, Top(v, n));
      && r.v.freeBlocks == c.v.freeBlocks && r.node == node.(doubly := d)
      && (r.ok <==> c.found.Some? && Plain(c.v, c.found.value))
      && (c.found.Some? && d < |c.v.store| == |r.v.store| && c.found.value != d ==> r.v.store[d] == c.v.store[d])
  {
    hide Word, PutWord, AllocateBlock, EnsureBlock, EnsureChild, Sound, Top, Low;
    TopLow(v, n);
  }

  lemma TopSame(v: Volume, w: Volume, n: nat)
    requires Shape(v) && Shape(w) && v.geo == w.geo && 12 + Pointers(v) <= n
    ensures Top(v, n) == Top(w, n) && Low(v, n) == Low(w, n)
  {
  }

  lemma TableHeld(v: Volume, owner: Owners, i: nat, node: Inode)
    requires Shape(v) && Tables(v, owner, i, node) && node.doubly != 0
    ensures node.doubly in owner && Plain(v, node.doubly)
  {
  }

  lemma ChildApart(v: Volume, owner: Owners, i: nat, node: Inode, t: nat)
    requires Shape(v) && Tables(v, owner, i, node) && node.doubly != 0 && t < Pointers(v) && Plain(v, node.doubly)
    ensures Word(v.store[node.doubly], t) != node.doubly
    ensures Word(v.store[node.doubly], t) != 0 ==> Plain(v, Word(v.store[node.doubly], t))
  {
    assert ChildHeld(v, owner, i, node.doubly, t);
  }

  lemma ExactAfter(v: Volume, node: Inode, node1: Inode, n: nat, c: Volume, r: Growth)
    requires Shape(v) && Shape(c) && Shape(r.v) && v.geo == c.geo == r.v.geo && ExactTables(v, node, n)
    requires 12 + Pointers(v) <= n && node1 == node.(doubly := node1.doubly) && node1.doubly != 0
    requires Plain(c, node1.doubly)
    requires forall k :: 0 <= k < Pointers(v) ==>
      (Word(c.store[node1.doubly], k) != 0 <==> 12 + Pointers(v) + k * Pointers(v) < n + 1)
    requires r.ok ==> r.node == node1 && r.v.store[node1.doubly] == c.store[node1.doubly]
    ensures r.ok ==> ExactTables(r.v, r.node, n + 1)
  {
    hide Word, Sound;
  }

  /** A successful set_inode_block at the end of the file allocates exactly the tables by which
      metadata_block_count grows. */
  lemma SetInodeBlockCost(v: Volume, owner: Owners, i: nat, node: Inode, n: nat, p: nat)
    requires Shape(v) && Agreement(v) && Recorded(v, owner) && node.Fits() && Tables(v, owner, i, node)
    requires ExactTables(v, node, n) && n < MaxLogical(v) && p < 0x1_0000_0000
    ensures CostsExactly(v, n, SetInodeBlock(v, node, n, p))
  {
    hide ExactTables, MetadataCount, Agreement, Tables, Recorded, SetInodeBlock, CostsExactly;
    if n < 12 {
      DirectCost(v, node, n, p);
    } else if n < 12 + Pointers(v) {
      IndirectCost(v, owner, i, node, n, p);
    } else {
      DoublyCost(v, owner, i, node, n, p);
    }
  }

  lemma ExactKept(v: Volume, node: Inode, n: nat, w: Volume)
    requires Shape(v) && Shape(w) && w.geo == v.geo && ExactTables(v, node, n)
    requires node.doubly != 0 ==> Plain(w, node.doubly) && w.store[node.doubly] == v.store[node.doubly]
    ensures ExactTables(w, node, n)
  {
    hide Word;
  }

  /** One pass of the growing loop, with its allocation done, takes the block and the tables that the
      closed form grows by. */
  lemma GrowOneCost(v: Volume, owner: Owners, i: nat, node: Inode, n: nat) returns (r: Growth, owner': Owners)
    requires Shape(v) && Agreement(v) && Recorded(v, owner) && node.Fits() && FileTree(v, owner, i, node, n)
    requires n < MaxLogical(v) && ExactTables(v, node, n) && AllocateBlock(v).found.Some?
    ensures AllocateBlock(v).found.value < 0x1_0000_0000
    ensures r == SetInodeBlock(AllocateBlock(v).v, node, n, AllocateBlock(v).found.value)
    ensures r.ok <==> Cost(v, n + 1) - Cost(v, n) <= v.freeBlocks
    ensures !r.ok ==> r.v.freeBlocks == 0
    ensures r.ok ==>
      && Agreement(r.v) && Recorded(r.v, owner') && FileTree(r.v, owner', i, r.node, n + 1)
      && ExactTables(r.v, r.node, n + 1) && v.freeBlocks - r.v.freeBlocks == Cost(v, n + 1) - Cost(v, n)
  {
    hide Mapped, Tables, Agreement, ExactTables, SetInodeBlock, AllocateBlock, Recorded, Sound, DataHeld,
      MetadataCount, Kept, Tied, DataTied;
    AllocationNeedsFree(v);
    var o1 := AllocateFor(v, owner, Data(i, n));
    var a := AllocateBlock(v);
    AllocationCost(v);
    var b := a.found.value;
    FreshIsNotTop(v, owner, i, node, b);
    ExactKept(v, node, n, a.v);
    NewDataUndisturbed(v, owner, i, node, n, a.v, o1, b);
    SetInodeBlockCost(a.v, o1, i, node, n, b);
    r, owner' := GrowStep(v, owner, i, node, n, a.v, o1, b);
    MetadataSame(v, a.v, n);
  }

  /** Growing a file succeeds exactly when the volume has the blocks it takes, and takes just those;
      when it has not, growing uses up what there is. */
  lemma {:induction false} GrowFileCost(v: Volume, owner: Owners, i: nat, node: Inode, from: nat, upto: nat)
    requires Shape(v) && Agreement(v) && Recorded(v, owner) && node.Fits() && FileTree(v, owner, i, node, from)
    requires from <= upto <= MaxLogical(v) && ExactTables(v, node, from)
    ensures var r := GrowFile(v, node, from, upto);
      && (r.ok <==> Cost(v, upto) - Cost(v, from) <= v.freeBlocks)
      && (r.ok ==> ExactTables(r.v, r.node, upto) && v.freeBlocks - r.v.freeBlocks == Cost(v, upto) - Cost(v, from))
      && (!r.ok ==> r.v.freeBlocks == 0)
    decreases upto - from
  {
    hide Tables, Agreement, ExactTables, SetInodeBlock, AllocateBlock, Recorded, Sound, DataHeld, MetadataCount,
      FileTree;
    AllocationNeedsFree(v);
    CountsFit(v);
    if from < upto {
      CostGrows(v, from + 1, upto);
      CostGrows(v, from, from + 1);
      if AllocateBlock(v).found.Some? {
        var r, o2 := GrowOneCost(v, owner, i, node, from);
        if r.ok {
          MetadataSame(v, r.v, upto);
          MetadataSame(v, r.v, from + 1);
          GrowFileCost(r.v, o2, i, r.node, from + 1, upto);
        }
      }
    }
  }

  /** More blocks cost more. */
  lemma {:induction false} CostGrows(v: Volume, m: nat, n: nat)
    requires Shape(v) && m <= n
    ensures n - m <= Cost(v, n) - Cost(v, m)
    decreases n - m
  {
    hide MetadataCount;
    if m < n {
      MetadataStep(v, n - 1);
      CostGrows(v, m, n - 1);
    }
  }

  lemma MetadataSame(v: Volume, w: Volume, n: nat)
    requires Shape(v) && Shape(w) && w.geo == v.geo
    ensures MetadataCount(w, n) == MetadataCount(v, n) && MetadataCount(w, n + 1) == MetadataCount(v, n + 1)
  {
  }

  lemma FreshIsNotTop(v: Volume, owner: Owners, i: nat, node: Inode, b: nat)
    requires Shape(v) && Tables(v, owner, i, node) && b !in owner
    ensures node.doubly != 0 ==> node.doubly != b && Plain(v, node.doubly)
  {
  }

  // ---- files ----

  lemma CostBound(v: Volume, n: nat)
    requires Shape(v) && n <= MaxLogical(v)
    ensures Cost(v, n) * (v.geo.blockSize / 512) < 0x1_0000_0000
  {
    var p := Pointers(v);
    assert p * p <= 1024 * 1024 by {
      MulMono(p, 1024, p);
      MulMono(p, 1024, 1024);
    }
    if n > 12 + p {
      DivMod(n - 12 - p + p - 1, p);
      DivBelow(n - 12 - p + p - 1, p, p + 1);
    }
    MulMono(Cost(v, n), 1050700, v.geo.blockSize / 512);
    MulMono(v.geo.blockSize / 512, 8, 1050700);
  }

  /** What the file has to grow by for `buf`, in blocks. */
  function GrowthCost(v: Volume, i: nat, buf: seq<Byte>): int
    requires Shape(v) && ValidInode(v, i)
  {
    Cost(v, BlockCount(v, |buf|)) - Cost(v, BlockCount(v, InodeOf(v, i).size))
  }

  /** ext2_write_file would run out of blocks after taking some. */
  predicate Starved(v: Volume, i: nat, buf: seq<Byte>)
    requires Shape(v)
  {
    Growing(v, i, buf) && 0 < v.freeBlocks < GrowthCost(v, i, buf)
  }

  /** A write to a file with its tables in order succeeds exactly when the file is not longer than the
      buffer, the buffer not longer than two levels of tables reach, and the volume has the blocks the file
      has to grow by. It then takes just those from the free count and leaves the i_blocks field equal to
      the blocks the file really has; when only the blocks are missing, it uses up the ones there are. */
  lemma WriteAccounts(v: Volume, owner: Owners, i: nat, buf: seq<Byte>)
    requires StoreOk(v, owner) && Active(v, i) && InodeOf(v, i).IsFile() && |buf| < 0x8000_0000
    requires ExactTables(v, InodeOf(v, i), BlockCount(v, InodeOf(v, i).size))
    ensures var r := WriteFile(v, i, buf);
            var n := BlockCount(v, |buf|);
      && (r.ok <==> InodeOf(v, i).size <= |buf| && n <= MaxLogical(v) && GrowthCost(v, i, buf) <= v.freeBlocks)
      && (r.ok ==> Accounted(r.v, i) && v.freeBlocks - r.v.freeBlocks == GrowthCost(v, i, buf))
      && (Starved(v, i, buf) ==> !r.ok && r.v.freeBlocks == 0)
      && (!r.ok && !Starved(v, i, buf) ==> r.v == v)
  {
    hide Mapped, Tables, Agreement, ExactTables, AllocateBlock, Recorded, Sound, DataHeld, MetadataCount, Kept, Tied,
      DataTied, GrowFile, FillFile, CeilDiv, DirOk, MaxLogical, Cost, Accounted;
    var node := InodeOf(v, i);
    var n := BlockCount(v, |buf|);
    if |buf| >= node.size && n <= MaxLogical(v) {
      assert InodeOk(v, owner, i);
      BlockCountMono(v, node.size, |buf|);
      GrowFileCost(v, owner, i, node, BlockCount(v, node.size), n);
      CostGrows(v, BlockCount(v, node.size), n);
      NoBlockNoGrowth(v, node, BlockCount(v, node.size), n);
      var owner' := GrowFileGrows(v, owner, i, node, BlockCount(v, node.size), n);
      var g := GrowFile(v, node, BlockCount(v, node.size), n);
      if g.ok {
        FillFileFills(g.v, owner', i, g.node, buf, 0);
        FillKeepsExact(g.v, owner', i, g.node, buf, n);
        CostBound(v, n);
        WrittenAccounted(v, i, buf, g, FillFile(g.v, g.node, buf, 0).v);
      }
    }
  }

  lemma NoBlockNoGrowth(v: Volume, node: Inode, from: nat, upto: nat)
    requires Shape(v) && Agreement(v) && node.Fits()
    ensures from < upto && v.freeBlocks == 0 ==> GrowFile(v, node, from, upto) == Growth(v, node, false)
    ensures 0 <= v.freeBlocks
  {
    hide Agreement, AllocateBlock, SetInodeBlock;
    AllocationNeedsFree(v);
    CountsFit(v);
  }

  lemma FillKeepsExact(v: Volume, owner: Owners, i: nat, node: Inode, buf: seq<Byte>, n: nat)
    requires Shape(v) && node.Fits() && Tables(v, owner, i, node) && DataHeld(v, owner, i, node, BlockCount(v, |buf|))
    requires ExactTables(v, node, n)
    ensures var f := FillFile(v, node, buf, 0).v;
      ExactTables(f, node, n) && f.freeBlocks == v.freeBlocks
  {
    hide Mapped, FillFile, ExactTables, CeilDiv, DataHeld;
    FillFileFills(v, owner, i, node, buf, 0);
    ExactKept(v, node, n, FillFile(v, node, buf, 0).v);
  }

  lemma WrittenAccounted(v: Volume, i: nat, buf: seq<Byte>, g: Growth, f: Volume)
    requires Shape(v) && Shape(f) && g.node.Fits() && f.geo == v.geo && ValidInode(v, i) && |buf| < 0x8000_0000
    requires ExactTables(f, g.node, BlockCount(v, |buf|))
    requires Cost(v, BlockCount(v, |buf|)) * (v.geo.blockSize / 512) < 0x1_0000_0000
    ensures Accounted(WithInode(f, i, Written(v, g.node, |buf|)), i)
    ensures WithInode(f, i, Written(v, g.node, |buf|)).freeBlocks == f.freeBlocks
  {
    hide Word, CeilDiv, MetadataCount, Sound;
    var w := WithInode(f, i, Written(v, g.node, |buf|));
    MetadataSame(v, w, BlockCount(v, |buf|));
  }

  // ---- deleting ----

  lemma {:induction false} LinkedExact(v: Volume, table: Block, m: nat, k: nat)
    requires Shape(v) && |table| == v.geo.blockSize && k <= Pointers(v) && m <= Pointers(v)
    requires forall j :: 0 <= j < Pointers(v) ==> (Word(table, j) != 0 <==> j < m)
    ensures Linked(table, k, Pointers(v)) == if k < m then m - k else 0
    decreases Pointers(v) - k
  {
    hide Word;
    if k < Pointers(v) {
      LinkedExact(v, table, m, k + 1);
    }
  }

  lemma CeilDivBelow(x: nat, p: nat, k: nat)
    requires p > 0
    ensures k * p < x <==> k < CeilDiv(x, p)
  {
    DivMod(x + p - 1, p);
    var q := CeilDiv(x, p);
    if k < q {
      MulMono(k + 1, q, p);
      assert (k + 1) * p == k * p + p;
    } else {
      MulMono(q, k, p);
    }
  }

  /** An exact tree has as many blocks as metadata_block_count says. */
  lemma TreeSizeIsCost(v: Volume, node: Inode)
    requires Shape(v) && node.Fits() && ExactTables(v, node, BlockCount(v, node.size))
    requires BlockCount(v, node.size) <= MaxLogical(v)
    ensures TreeSize(v, node) == Cost(v, BlockCount(v, node.size))
  {
    hide Word, Sound;
    var n, p := BlockCount(v, node.size), Pointers(v);
    if node.doubly != 0 {
      var m := CeilDiv(n - 12 - p, p);
      DivMod(n - 12 - p + p - 1, p);
      DivBelow(n - 12 - p + p - 1, p, p + 1);
      forall j | 0 <= j < p
        ensures Word(v.store[node.doubly], j) != 0 <==> j < m
      {
        CeilDivBelow(n - 12 - p, p, j);
      }
      LinkedExact(v, v.store[node.doubly], m, 0);
    }
  }

  lemma TreeFits(v: Volume, owner: Owners, i: nat, node: Inode, n: nat)
    requires Shape(v) && node.Fits() && FileTree(v, owner, i, node, n)
    ensures n <= MaxLogical(v)
  {
    hide Tables, Mapped;
  }

  /** Deleting a file whose writes all succeeded gives back exactly the blocks its i_blocks field counts. */
  lemma DeleteAccounts(v: Volume, owner: Owners, i: nat)
    requires StoreOk(v, owner) && Active(v, i) && InodeOf(v, i).IsFile() && Accounted(v, i)
    ensures ClearInode(v, i).freeBlocks == v.freeBlocks + Cost(v, BlockCount(v, InodeOf(v, i).size))
    ensures (ClearInode(v, i).freeBlocks - v.freeBlocks) * (v.geo.blockSize / 512) == InodeOf(v, i).blocks
  {
    hide StoreOk, FileTree, Agreement, ExactTables, Recorded, Sound, FreeFile, CeilDiv, TreeSize, Cost, Clear, Sum;
    StoreOkFacts(v, owner, i);
    var node := InodeOf(v, i);
    TreeFits(v, owner, i, node, BlockCount(v, node.size));
    TreeSizeIsCost(v, node);
    var o := FreeFileFrees(v, owner, i, node);
    assert ClearInode(v, i).freeBlocks == FreeFile(v, node).freeBlocks;
    assert ClearInode(v, i).freeBlocks - v.freeBlocks == Cost(v, BlockCount(v, node.size));
  }

  // ---- the books over a write and over a delete ----

  /** A write keeps honest books, and keeps inode `i` good unless it is starved; if it is, the first block
      it took is on record and nowhere in the tree. */
  lemma WriteLedger(v: Volume, owner: Owners, i: nat, buf: seq<Byte>) returns (owner': Owners)
    requires StoreOk(v, owner) && Active(v, i) && |buf| < 0x8000_0000
    ensures var r := WriteFile(v, i, buf);
      && StoreOk(r.v, owner') && Extended(owner, owner')
      && View(r.v) == (if r.ok then View(v)[i := File(buf)] else View(v))
      && (r.ok ==> i in View(v) && View(v)[i].File?)
      && Ledger(v, owner, r.v, owner', i)
      && (!Starved(v, i, buf) ==> Ledger(v, owner, r.v, owner', 0))
      && (Starved(v, i, buf) && Good(v, owner, i) ==> !r.ok && FirstLost(v, i, r.v, owner'))
  {
    hide StoreOk, View, Good, Ledger, WriteFile, Confined, Growing, Extended, Accounted, NothingLost, FirstLost,
      ExactTables, Starved, NoReturn;
    StoreOkFacts(v, owner, i);
    owner' := owner;
    LedgerSame(v, owner);
    if InodeOf(v, i).IsFile() {
      owner' := WriteStepFile(v, owner, i, buf);
      var r := WriteFile(v, i, buf);
      WriteTouchesOne(v, i, buf, r.v);
      ConfinedLedger(v, owner, r.v, owner', i);
      StoreOkFacts(r.v, owner', i);
      if !Starved(v, i, buf) && Good(v, owner, i) {
        GoodAfterWrite(v, owner, i, buf, owner');
      }
      if Starved(v, i, buf) && Good(v, owner, i) {
        GoodIsExact(v, owner, i);
        WriteAccounts(v, owner, i, buf);
        StarvedLoses(v, owner, i, buf, r.v, owner');
      }
    } else {
      NotAFile(v, i, buf);
      LedgerWeaker(v, owner, v, owner, i);
    }
  }

  lemma GoodIsExact(v: Volume, owner: Owners, i: nat)
    requires Shape(v) && Good(v, owner, i) && Active(v, i) && InodeOf(v, i).IsFile()
    ensures ExactTables(v, InodeOf(v, i), BlockCount(v, InodeOf(v, i).size))
  {
    hide NothingLost;
  }

  predicate AllGood(v: Volume, owner: Owners)
    requires Shape(v)
  {
    forall i :: 0 < i <= v.geo.inodesCount ==> Good(v, owner, i)
  }

  /** Some block in use is on record for the place behind the end of a file. */
  predicate OneLost(w: Volume, owner: Owners)
    requires Shape(w)
  {
    exists b :: b in owner && b < |w.used| && w.used[b] && Plain(w, b) && BehindEnd(w, owner[b])
  }

  predicate BehindEnd(w: Volume, s: Slot)
    requires Shape(w)
  {
    ValidInode(w, s.inode) && s == Data(s.inode, BlockCount(w, InodeOf(w, s.inode).size))
  }

  /** What a step does to the books: they stay honest, and nothing gets lost unless it is `starved`, in
      which case it is inode `bad` that loses. */
  predicate BooksStep(v: Volume, owner: Owners, w: Volume, owner': Owners, bad: nat, starved: bool)
    requires Shape(v) && Shape(w)
  {
    && Ledger(v, owner, w, owner', if starved then bad else 0)
    && (starved && AllGood(v, owner) ==> OneLost(w, owner'))
  }

  lemma BooksSame(v: Volume, owner: Owners)
    requires Shape(v)
    ensures BooksStep(v, owner, v, owner, 0, false) && Extended(owner, owner)
  {
    hide Ledger;
    LedgerSame(v, owner);
  }

  lemma BooksThen(v: Volume, o: Owners, w: Volume, o1: Owners, x: Volume, o2: Owners, bad: nat, starved: bool)
    requires Shape(v) && Shape(w) && Shape(x) && BooksStep(v, o, w, o1, 0, false)
    requires BooksStep(w, o1, x, o2, bad, starved)
    requires Extended(o, o1) && Extended(o1, o2)
    ensures BooksStep(v, o, x, o2, bad, starved) && Extended(o, o2)
  {
    hide Ledger, OneLost, Good, Extended;
    LedgerThen(v, o, w, o1, x, o2, if starved then bad else 0);
    if AllGood(v, o) {
      GoodStays(v, o, w, o1);
    }
  }

  lemma GoodStays(v: Volume, owner: Owners, w: Volume, owner': Owners)
    requires Shape(v) && Shape(w) && Ledger(v, owner, w, owner', 0) && AllGood(v, owner)
    ensures AllGood(w, owner')
  {
    hide Good, RecordKept, LostBlock;
  }

  /** The same as WriteLedger, in these terms. */
  lemma WriteBooks(v: Volume, owner: Owners, i: nat, buf: seq<Byte>) returns (owner': Owners)
    requires StoreOk(v, owner) && Active(v, i) && |buf| < 0x8000_0000
    ensures var r := WriteFile(v, i, buf);
      && StoreOk(r.v, owner') && Extended(owner, owner')
      && View(r.v) == (if r.ok then View(v)[i := File(buf)] else View(v))
      && (r.ok ==> i in View(v) && View(v)[i].File?)
      && BooksStep(v, owner, r.v, owner', i, Starved(v, i, buf))
  {
    hide StoreOk, View, Ledger, WriteFile, Good, Starved, Extended;
    owner' := WriteLedger(v, owner, i, buf);
    StoreOkFacts(v, owner, i);
    if Starved(v, i, buf) && AllGood(v, owner) {
      assert Good(v, owner, i);
      LostIsBehind(v, i, WriteFile(v, i, buf).v, owner');
    }
  }

  lemma LostIsBehind(v: Volume, i: nat, w: Volume, owner: Owners)
    requires Shape(v) && Shape(w) && FirstLost(v, i, w, owner)
    ensures OneLost(w, owner)
  {
    var b :| b in owner && b < |w.used| && w.used[b] && Plain(w, b) && LostAs(v, w, i, owner[b]);
    assert BehindEnd(w, owner[b]);
  }

  lemma LedgerWeaker(v: Volume, owner: Owners, w: Volume, owner': Owners, i: nat)
    requires Shape(v) && Shape(w) && Ledger(v, owner, w, owner', 0)
    ensures Ledger(v, owner, w, owner', i)
  {
    hide Good, NotLive, NothingLostBy, LostBlock;
  }

  lemma NotAFile(v: Volume, i: nat, buf: seq<Byte>)
    requires Shape(v) && ValidInode(v, i) && !InodeOf(v, i).IsFile() && |buf| < 0x8000_0000
    ensures WriteFile(v, i, buf) == Outcome(v, false) && !Starved(v, i, buf)
  {
  }

  lemma WriteTouchesOne(v: Volume, i: nat, buf: seq<Byte>, w: Volume)
    requires Shape(v) && Shape(w) && ValidInode(v, i) && w.geo == v.geo
    requires forall j :: 0 < j <= v.geo.inodesCount && j != i ==> InodeOf(w, j) == InodeOf(v, j)
    ensures w.inodes == v.inodes[i - 1 := w.inodes[i - 1]]
  {
    forall k | 0 <= k < |v.inodes|
      ensures w.inodes[k] == v.inodes[i - 1 := w.inodes[i - 1]][k]
    {
      assert k + 1 != i ==> InodeOf(w, k + 1) == InodeOf(v, k + 1);
    }
  }

  lemma GoodAfterWrite(v: Volume, owner: Owners, i: nat, buf: seq<Byte>, owner': Owners)
    requires StoreOk(v, owner) && Active(v, i) && InodeOf(v, i).IsFile() && |buf| < 0x8000_0000
    requires Good(v, owner, i) && !Starved(v, i, buf)
    requires var r := WriteFile(v, i, buf);
      && StoreOk(r.v, owner') && Confined(v, owner, r.v, owner', i)
      && (r.ok && NothingLost(v, owner, i) ==> NothingLost(r.v, owner', i))
      && View(r.v) == (if r.ok then View(v)[i := File(buf)] else View(v))
    ensures Good(WriteFile(v, i, buf).v, owner', i)
  {
    hide StoreOk, View, WriteFile, ExactTables, NothingLost, Starved;
    StoreOkFacts(v, owner, i);
    WriteAccounts(v, owner, i, buf);
    var r := WriteFile(v, i, buf);
    StoreOkFacts(r.v, owner', i);
    if !r.ok {
      forall b
        ensures b in owner' ==> b in owner
      {
      }
      assert owner' == owner;
    }
  }

  /** The block a starved write took first: in use, on record for `i`, and behind the end of the file. */
  predicate FirstLost(v: Volume, i: nat, w: Volume, owner: Owners)
    requires Shape(v) && Shape(w)
  {
    exists b :: b in owner && b < |w.used| && w.used[b] && Plain(w, b) && LostAs(v, w, i, owner[b])
  }

  predicate LostAs(v: Volume, w: Volume, i: nat, s: Slot)
    requires Shape(v) && Shape(w)
  {
    ValidInode(v, i) && ValidInode(w, i) && InodeOf(w, i) == InodeOf(v, i)
      && s == Data(i, BlockCount(w, InodeOf(w, i).size))
  }

  lemma StarvedLoses(v: Volume, owner: Owners, i: nat, buf: seq<Byte>, w: Volume, owner': Owners)
    requires StoreOk(v, owner) && Active(v, i) && InodeOf(v, i).IsFile() && |buf| < 0x8000_0000 && Starved(v, i, buf)
    requires StoreOk(w, owner') && w == WriteFile(v, i, buf).v
    requires Growing(v, i, buf) && AllocateBlock(v).found.Some? ==> FirstTaken(v, i, owner')
    requires w.inodes == v.inodes
    ensures FirstLost(v, i, w, owner')
  {
    hide StoreOk, View, WriteFile, AllocateBlock;
    StoreOkFacts(v, owner, i);
    StoreOkFacts(w, owner', i);
    AllocationNeedsFree(v);
    var b := AllocateBlock(v).found.value;
    assert b in owner';
  }

  lemma ClearLedger(v: Volume, owner: Owners, i: nat)
    requires StoreOk(v, owner) && Active(v, i) && InodeOf(v, i).IsFile()
    ensures Ledger(v, owner, ClearInode(v, i), Without(owner, i), 0)
  {
    hide StoreOk, View, Good, InTree, NothingLost, ClearInode, Sound, Untouched, GaveBack;
    StoreOkFacts(v, owner, i);
    ClearInodeStep(v, owner, i);
    GroupOfInode(v.geo, i - 1, 0);
    ClearedFields(v, i);
    var w := ClearInode(v, i);
    ClearedUntouched(v, owner, i, w);
    forall j | 0 < j <= v.geo.inodesCount && Good(v, owner, j)
      ensures Good(w, Without(owner, i), j)
    {
      if j == i {
        InactiveGood(w, Without(owner, i), i);
      } else {
        UntouchedGood(v, owner, w, Without(owner, i), j);
      }
    }
    forall b | b in owner
      ensures RecordKept(v, owner, w, Without(owner, i), b)
    {
      if owner[b].inode == i && NothingLostBy(v, owner, i) {
        LostIsOutside(v, owner, i);
        GivenBack(v, owner, i, w, b);
      }
    }
    NothingTaken(v, owner, i, w);
    forall b | LostBlock(v, owner, b)
      ensures LostBlock(w, Without(owner, i), b)
    {
      LostCleared(v, owner, i, w, b);
    }
  }

  /** What was lost is not given back, and stays lost. */
  lemma LostCleared(v: Volume, owner: Owners, i: nat, w: Volume, b: nat)
    requires StoreOk(v, owner) && ValidInode(v, i) && Shape(w) && w.geo == v.geo && GaveBack(v, owner, i, w)
    requires w.store == v.store && forall j :: 0 < j <= v.geo.inodesCount && j != i ==>
      Untouched(v, owner, w, Without(owner, i), j)
    requires LostBlock(v, owner, b)
    ensures LostBlock(w, Without(owner, i), b)
  {
    hide Mapped, CeilDiv, Sound, StoreOk, Untouched, Agreement;
    StoreOkFacts(v, owner, i);
    if b in owner && owner[b].inode != i {
      LostElsewhere(v, owner, w, Without(owner, i), b);
    }
  }

  lemma NothingTaken(v: Volume, owner: Owners, i: nat, w: Volume)
    requires Shape(v) && ValidInode(v, i) && Shape(w) && w.geo == v.geo && GaveBack(v, owner, i, w)
    ensures forall b :: 0 <= b < |w.used| && w.used[b] ==> v.used[b]
  {
    hide InTree;
  }

  lemma GivenBack(v: Volume, owner: Owners, i: nat, w: Volume, b: nat)
    requires Shape(v) && ValidInode(v, i) && Shape(w) && w.geo == v.geo && GaveBack(v, owner, i, w)
    requires Recorded(v, owner)
    requires b in owner && owner[b].inode == i
    requires InTree(v, InodeOf(v, i), BlockCount(v, InodeOf(v, i).size), owner[b], b)
    ensures b < |w.used| && !w.used[b]
  {
    hide InTree;
  }

  lemma ClearedFields(v: Volume, i: nat)
    requires Shape(v) && ValidInode(v, i) && InodeGroupOf(v.geo, i - 1) < v.geo.groupCount
    ensures var w := ClearInode(v, i);
      && w.store == v.store && w.inodes == v.inodes[i - 1 := ZeroInode()] && w.iused == v.iused[i - 1 := false]
      && !Active(w, i)
  {
    hide FreeFile;
  }

  /** Deleting keeps honest books: it drops the records of the file, and leaves none of its blocks in use
      that had not been lost before. */
  lemma DeleteLedger(v: Volume, owner: Owners, parent: nat, name: Name)
    requires StoreOk(v, owner) && parent in View(v) && Deletable(View(v), parent, name)
    ensures Ledger(v, owner, DeleteFile(v, parent, name).v, Without(owner, View(v)[parent].entries[name]), 0)
  {
    hide Agreement, StoreOk, View, Content, DirMap, FindFrom, RemoveEntry, ClearInode, NothingLost, Confined, Good,
      Ledger, Deletable;
    var i := DeletedFile(v, owner, parent, name);
    StoreOkFacts(v, owner, i);
    RemoveStep(v, owner, parent, name);
    var r := RemoveEntry(v, InodeOf(v, parent), name).v;
    ConfinedUndisturbed(v, owner, r, owner, parent, i);
    if NothingLost(v, owner, i) {
      UndisturbedLost(v, owner, r, i);
    }
    ClearLedger(r, owner, i);
    ClearIsDelete(v, parent, name, i);
    LedgerCleared(v, owner, r, ClearInode(r, i), i);
  }

  /** Which file a deletion is about, in the terms of the volume. */
  lemma DeletedFile(v: Volume, owner: Owners, parent: nat, name: Name) returns (i: nat)
    requires StoreOk(v, owner) && parent in View(v) && Deletable(View(v), parent, name)
    ensures i == View(v)[parent].entries[name] && i in View(v) && i != parent
    ensures Active(v, parent) && Active(v, i) && InodeOf(v, i).IsFile() && View(v)[parent].Dir?
    ensures FindInDir(v, parent, name) == Some(i) && RemoveEntry(v, InodeOf(v, parent), name).ok
    ensures var r := RemoveEntry(v, InodeOf(v, parent), name).v;
      Active(r, i) && InodeOf(r, i) == InodeOf(v, i)
  {
    hide Agreement, StoreOk, View, Content, DirMap, FindInDir, RemoveEntry, Confined, Ledger, InodeOk, Recorded, Sound;
    StoreOkFacts(v, owner, parent);
    i := View(v)[parent].entries[name];
    StoreOkFacts(v, owner, i);
    ViewFacts(v, i);
    ViewFacts(v, parent);
    FindSeesView(v, owner, parent, name);
    RemoveStep(v, owner, parent, name);
  }

  lemma LedgerCleared(v: Volume, owner: Owners, r: Volume, w: Volume, i: nat)
    requires Shape(v) && Shape(r) && Shape(w) && ValidInode(v, i) && Ledger(v, owner, r, owner, 0)
    requires Ledger(r, owner, w, Without(owner, i), 0) && !Active(w, i)
    requires r.used == v.used && (NothingLost(v, owner, i) ==> NothingLost(r, owner, i))
    ensures Ledger(v, owner, w, Without(owner, i), 0)
  {
    hide Good, NothingLost, Active, LostBlock;
    forall b | b in owner
      ensures RecordKept(v, owner, w, Without(owner, i), b)
    {
      assert RecordKept(r, owner, w, Without(owner, i), b);
    }
  }

  // ---- create, write, delete ----

  lemma UndisturbedLost(v: Volume, owner: Owners, w: Volume, i: nat)
    requires Shape(v) && Shape(w) && ValidInode(v, i) && w.geo == v.geo && InodeOf(w, i) == InodeOf(v, i)
    requires Undisturbed(v, owner, w, owner, i) && FileAt(v, owner, i) && NothingLost(v, owner, i)
    ensures NothingLost(w, owner, i)
  {
    hide Mapped, Word, CeilDiv;
    var node := InodeOf(v, i);
    var n := BlockCount(v, node.size);
    UndisturbedFile(v, owner, w, owner, i, node, n);
  }

  /** With nothing lost, deleting a file gives back every block on record for it. */
  lemma DeleteReleases(v: Volume, owner: Owners, parent: nat, name: Name, i: nat)
    requires StoreOk(v, owner) && parent in View(v) && Deletable(View(v), parent, name)
    requires i == View(v)[parent].entries[name] && ValidInode(v, i) && NothingLost(v, owner, i)
    ensures var r := DeleteFile(v, parent, name);
      forall b :: 0 <= b < |v.used| ==> r.v.used[b] == (v.used[b] && !(b in owner && owner[b].inode == i))
  {
    hide Mapped, Agreement, StoreOk, View, Content, DirMap, FindFrom, RemoveEntry, ClearInode, InTree, NothingLost,
      Confined;
    StoreOkFacts(v, owner, i);
    ViewFacts(v, i);
    ViewFacts(v, parent);
    StoreOkFacts(v, owner, parent);
    FindSeesView(v, owner, parent, name);
    RemoveStep(v, owner, parent, name);
    var r := RemoveEntry(v, InodeOf(v, parent), name).v;
    ConfinedUndisturbed(v, owner, r, owner, parent, i);
    UndisturbedLost(v, owner, r, i);
    ClearInodeStep(r, owner, i);
    ClearIsDelete(v, parent, name, i);
    LostIsOutside(r, owner, i);
  }

  lemma LostIsOutside(v: Volume, owner: Owners, i: nat)
    requires Shape(v) && ValidInode(v, i) && NothingLost(v, owner, i)
    ensures forall b :: b in owner && owner[b].inode == i ==>
      InTree(v, InodeOf(v, i), BlockCount(v, InodeOf(v, i).size), owner[b], b)
  {
    hide Mapped, Word, CeilDiv;
  }

  lemma NewFileLostNothing(v: Volume, owner: Owners, i: nat)
    requires Shape(v) && ValidInode(v, i) && forall b :: b in owner ==> owner[b].inode != i
    ensures NothingLost(v, owner, i)
  {
  }

  lemma OwnersActive(v: Volume, owner: Owners, i: nat)
    requires StoreOk(v, owner) && i !in View(v)
    ensures forall b :: b in owner ==> owner[b].inode != i
  {
    hide NodeOf, Agreement;
  }

  /** Creating a file without a new directory block, writing it and deleting it restores both bitmaps
      and every count, and the tree of files and directories. */
  lemma CreateWriteDeleteRestores(v: Volume, owner: Owners, cur: nat, name: Name, uid: nat, buf: seq<Byte>)
    requires StoreOk(v, owner) && cur in View(v) && View(v)[cur].Dir? && |buf| < 0x8000_0000
    requires forall n :: n in View(v)[cur].entries ==> View(v)[cur].entries[n] in View(v)
    ensures ValidInode(v, cur)
    ensures var c := CreateFile(v, cur, name, uid);
      c.inode.Some? && InodeOf(c.v, cur).size == InodeOf(v, cur).size ==>
        var w := WriteFile(c.v, c.inode.value, buf);
        w.ok ==>
          var d := DeleteFile(w.v, cur, name);
          && d.ok && View(d.v) == View(v)
          && d.v.used == v.used && d.v.iused == v.iused
          && d.v.blockFree == v.blockFree && d.v.inodeFree == v.inodeFree
          && d.v.freeBlocks == v.freeBlocks && d.v.freeInodes == v.freeInodes
  {
    hide Mapped, Agreement, StoreOk, View, Content, CreateFile, WriteFile, DeleteFile, NothingLost, Confined, Recorded;
    StoreOkFacts(v, owner, cur);
    ViewFacts(v, cur);
    var c := CreateFile(v, cur, name, uid);
    if c.inode.Some? && InodeOf(c.v, cur).size == InodeOf(v, cur).size {
      var i := c.inode.value;
      var o1, left := CreateFileStep(v, owner, cur, name, uid);
      OwnersActive(v, owner, i);
      ViewFacts(c.v, i);
      StoreOkFacts(c.v, o1, i);
      NewFileLostNothing(c.v, owner, i);
      var w := WriteFile(c.v, i, buf);
      var o2 := WriteStepFile(c.v, owner, i, buf);
      if w.ok {
        AfterWrite(v, owner, cur, name, c, i, w.v, o2, buf);
      }
    }
  }

  lemma AfterWrite(v: Volume, owner: Owners, cur: nat, name: Name, c: Created, i: nat, w: Volume, o2: Owners,
                   buf: seq<Byte>)
    requires StoreOk(v, owner) && StoreOk(c.v, owner) && StoreOk(w, o2) && cur in View(v) && View(v)[cur].Dir?
    requires forall n :: n in View(v)[cur].entries ==> View(v)[cur].entries[n] in View(v)
    requires CreatedView(View(v), View(c.v), cur, name, File([]), 0, Some(i)) && View(w) == View(c.v)[i := File(buf)]
    requires ValidInode(v, i) && !v.iused[i - 1] && c.v.iused == v.iused[i - 1 := true] && c.v.used == v.used
    requires c.v.geo == v.geo
    requires Confined(c.v, owner, w, o2, i) && NothingLost(w, o2, i) && forall b :: b in owner ==> owner[b].inode != i
    ensures var d := DeleteFile(w, cur, name);
      && d.ok && View(d.v) == View(v)
      && d.v.used == v.used && d.v.iused == v.iused
      && d.v.blockFree == v.blockFree && d.v.inodeFree == v.inodeFree
      && d.v.freeBlocks == v.freeBlocks && d.v.freeInodes == v.freeInodes
  {
    hide Mapped, Agreement, StoreOk, View, Content, DeleteFile, NothingLost, Recorded, Confined, Sound, NodeOf, InodeOk,
      CreatedView;
    StoreOkFacts(v, owner, cur);
    StoreOkFacts(w, o2, cur);
    StoreOkFacts(c.v, owner, cur);
    ConfinedBits(c.v, owner, w, o2, i);
    ViewFacts(v, cur);
    LinksFit(v, cur);
    TreeRestored(View(v), View(c.v), View(w), cur, name, i, buf);
    hide Deletable;
    EntriesClosed(View(v), View(w), cur, name, i);
    var o3 := DeleteOne(w, o2, cur, name, i);
    var d := DeleteFile(w, cur, name);
    StoreOkFacts(d.v, o3, cur);
    UsedRestored(c.v, owner, w, o2, i, d.v);
    assert d.v.iused == v.iused;
    BitmapsDetermineCounts(v, d.v);
  }

  lemma EntriesClosed(t: Tree, t2: Tree, cur: nat, name: Name, i: nat)
    requires cur in t && t[cur].Dir? && cur in t2 && t2[cur].Dir? && name in t2[cur].entries
    requires t2[cur].entries[name] == i && i in t2
    requires forall n :: n in t[cur].entries ==> t[cur].entries[n] in t
    requires forall n :: n in t2[cur].entries && n != name ==>
      n in t[cur].entries && t2[cur].entries[n] == t[cur].entries[n]
    requires forall j :: j in t ==> j in t2
    ensures forall n :: n in t2[cur].entries ==> t2[cur].entries[n] in t2
  {
  }

  /** Deleting a file that lost nothing: what goes from the tree and what from the bitmaps. */
  lemma DeleteOne(w: Volume, owner: Owners, cur: nat, name: Name, i: nat) returns (o3: Owners)
    requires StoreOk(w, owner) && cur in View(w) && Deletable(View(w), cur, name) && i == View(w)[cur].entries[name]
    requires forall n :: n in View(w)[cur].entries ==> View(w)[cur].entries[n] in View(w)
    requires ValidInode(w, i) && NothingLost(w, owner, i)
    ensures var d := DeleteFile(w, cur, name);
      && d.ok && StoreOk(d.v, o3) && d.v.geo == w.geo && d.v.iused == w.iused[i - 1 := false]
      && View(d.v) == View(w)[cur := Dir(View(w)[cur].entries - {name}, View(w)[cur].links)] - {i}
      && (forall b :: 0 <= b < |w.used| ==> d.v.used[b] == (w.used[b] && !(b in owner && owner[b].inode == i)))
  {
    hide Agreement, StoreOk, View, DeleteFile, NothingLost, Sound;
    o3 := DeleteFileStep(w, owner, cur, name);
    DeleteReleases(w, owner, cur, name, i);
  }

  lemma ConfinedBits(v: Volume, owner: Owners, w: Volume, owner': Owners, i: nat)
    requires Shape(v) && Shape(w) && Confined(v, owner, w, owner', i)
    ensures w.iused == v.iused && w.geo == v.geo
  {
  }

  lemma TreeRestored(t: Tree, t1: Tree, t2: Tree, cur: nat, name: Name, i: nat, buf: seq<Byte>)
    requires CreatedView(t, t1, cur, name, File([]), 0, Some(i)) && t2 == t1[i := File(buf)]
    requires cur in t && t[cur].Dir? && t[cur].links < 0x1_0000
    ensures Deletable(t2, cur, name) && t2[cur].entries[name] == i
    ensures t2[cur := Dir(t2[cur].entries - {name}, t2[cur].links)] - {i} == t
    ensures forall n :: n in t2[cur].entries && n != name ==>
      n in t[cur].entries && t2[cur].entries[n] == t[cur].entries[n]
    ensures forall j :: j in t ==> j in t2
  {
    var t3 := t2[cur := Dir(t2[cur].entries - {name}, t2[cur].links)] - {i};
    assert t2[cur].entries - {name} == t[cur].entries;
    assert t3[cur] == t[cur];
  }

  lemma LinksFit(v: Volume, i: nat)
    requires Shape(v) && i in View(v) && View(v)[i].Dir?
    ensures View(v)[i].links < 0x1_0000
  {
    hide DirMap, Content;
  }

  lemma UsedRestored(v: Volume, owner: Owners, w: Volume, o2: Owners, i: nat, d: Volume)
    requires Shape(v) && Shape(w) && Shape(d) && d.geo == v.geo && Confined(v, owner, w, o2, i) && Recorded(v, owner)
    requires forall b :: b in owner ==> owner[b].inode != i
    requires forall b :: 0 <= b < |w.used| ==> d.used[b] == (w.used[b] && !(b in o2 && o2[b].inode == i))
    ensures d.used == v.used
  {
    forall b | 0 <= b < |v.used|
      ensures d.used[b] == v.used[b]
    {
    }
  }
}
