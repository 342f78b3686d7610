/** The numbers ext2_mount derives from the superblock, and the arithmetic that
    places blocks and inodes in their groups. */
module Geometry {
  import opened Bytes

  const EXT2_MAGIC := 0xEF53
  const EXT2_INODE_SIZE := 128
  const EXT2_FEATURE_INCOMPAT_FILETYPE := 2

  /** The superblock fields the engine looks at. */
  datatype Superblock = Superblock(
    inodesCount: nat, blocksCount: nat, freeBlocksCount: int, freeInodesCount: int,
    firstDataBlock: nat, logBlockSize: nat, blocksPerGroup: nat, inodesPerGroup: nat,
    magic: nat, firstIno: nat, inodeSize: nat, featureIncompat: nat)

  datatype Geometry = Geometry(
    blockSize: nat, inodeSize: nat, blocksCount: nat, inodesCount: nat, firstDataBlock: nat,
    blocksPerGroup: nat, inodesPerGroup: nat, firstIno: nat, groupCount: nat)

  function CeilDiv(a: nat, b: nat): nat
    requires b > 0
  {
    (a + b - 1) / b
  }

  /** ext2_mount's checks and derived values. */
  function Mount(sb: Superblock): Option<Geometry> {
    if sb.magic != EXT2_MAGIC then None
    else if sb.logBlockSize > 2 || sb.blocksPerGroup == 0 || sb.inodesPerGroup == 0
            || sb.blocksCount <= sb.firstDataBlock then None
    else if sb.featureIncompat != 0 && sb.featureIncompat != EXT2_FEATURE_INCOMPAT_FILETYPE then None
    else
      var blockSize := if sb.logBlockSize == 0 then 1024 else if sb.logBlockSize == 1 then 2048 else 4096;
      var inodeSize := if sb.inodeSize == 0 then EXT2_INODE_SIZE else sb.inodeSize;
      if inodeSize < EXT2_INODE_SIZE || inodeSize > blockSize || blockSize % inodeSize != 0 then None
      else
        var byBlocks := CeilDiv(sb.blocksCount - sb.firstDataBlock, sb.blocksPerGroup);
        var byInodes := CeilDiv(sb.inodesCount, sb.inodesPerGroup);
        var groupCount := if byBlocks > byInodes then byBlocks else byInodes;
        if groupCount == 0 then None
        else Some(Geometry(blockSize, inodeSize, sb.blocksCount, sb.inodesCount, sb.firstDataBlock,
                           sb.blocksPerGroup, sb.inodesPerGroup, sb.firstIno, groupCount))
  }

  /** A mounted geometry on a disk the driver can address: what ext2_mount guarantees, plus
      one-block bitmaps and numbers that fit the 32-bit expressions the engine computes. */
  predicate Sound(g: Geometry) {
    && g.blockSize in {1024, 2048, 4096}
    && EXT2_INODE_SIZE <= g.inodeSize <= g.blockSize && g.blockSize % g.inodeSize == 0
    && 0 < g.blocksPerGroup <= 8 * g.blockSize
    && 0 < g.inodesPerGroup <= 8 * g.blockSize
    && g.firstDataBlock < g.blocksCount < 0x8000_0000
    && 2 <= g.inodesCount < 0x8000_0000
    && g.blocksCount - g.firstDataBlock <= g.groupCount * g.blocksPerGroup < 0x8000_0000
    && g.inodesCount <= g.groupCount * g.inodesPerGroup < 0x1_0000_0000
  }

  lemma CeilDivCovers(a: nat, b: nat, c: nat)
    requires b > 0 && CeilDiv(a, b) <= c
    ensures a <= c * b
  {
    var q := CeilDiv(a, b);
    assert a + b - 1 == q * b + (a + b - 1) % b;
    assert q * b <= c * b;
  }

  /** ext2_mount accepts only geometries whose groups cover every block and every inode. */
  lemma MountCovers(sb: Superblock)
    requires Mount(sb).Some?
    ensures var g := Mount(sb).value;
      && g.blockSize in {1024, 2048, 4096}
      && EXT2_INODE_SIZE <= g.inodeSize <= g.blockSize && g.blockSize % g.inodeSize == 0
      && g.firstDataBlock < g.blocksCount && 0 < g.blocksPerGroup && 0 < g.inodesPerGroup
      && g.blocksCount - g.firstDataBlock <= g.groupCount * g.blocksPerGroup
      && g.inodesCount <= g.groupCount * g.inodesPerGroup
  {
    var g := Mount(sb).value;
    CeilDivCovers(sb.blocksCount - sb.firstDataBlock, sb.blocksPerGroup, g.groupCount);
    CeilDivCovers(sb.inodesCount, sb.inodesPerGroup, g.groupCount);
  }

  // ---- groups ----

  /** First block of group `k`. */
  function GroupStart(g: Geometry, k: nat): nat {
    g.firstDataBlock + k * g.blocksPerGroup
  }

  /** One past the last block of group `k`; the last group may be short. */
  function GroupEnd(g: Geometry, k: nat): nat {
    Min(GroupStart(g, k) + g.blocksPerGroup, g.blocksCount)
  }

  /** The group that block `b` belongs to. */
  function GroupOf(g: Geometry, b: nat): nat
    requires g.blocksPerGroup > 0 && g.firstDataBlock <= b
  {
    (b - g.firstDataBlock) / g.blocksPerGroup
  }

  /** Number of inodes before group `k`: the zero-based number of its first inode. */
  function InodeStart(g: Geometry, k: nat): nat {
    k * g.inodesPerGroup
  }

  function InodeEnd(g: Geometry, k: nat): nat {
    Min(InodeStart(g, k) + g.inodesPerGroup, g.inodesCount)
  }

  function InodeGroupOf(g: Geometry, zeroBased: nat): nat
    requires g.inodesPerGroup > 0
  {
    zeroBased / g.inodesPerGroup
  }

  lemma MulMono(a: nat, b: nat, d: nat)
    requires a <= b
    ensures a * d <= b * d
  {
  }

  lemma DivMod(x: nat, d: nat)
    requires d > 0
    ensures x == (x / d) * d + x % d && 0 <= x % d < d
  {
  }

  /** Division is the only way to write `x` as a multiple of `d` plus a smaller remainder. */
  lemma DivUnique(x: nat, d: nat, q: nat)
    requires d > 0 && q * d <= x < q * d + d
    ensures x / d == q && x % d == x - q * d
  {
    DivMod(x, d);
    if x / d < q {
      MulMono(x / d + 1, q, d);
      assert false;
    } else if x / d > q {
      MulMono(q + 1, x / d, d);
      assert false;
    }
  }

  lemma DivMono(a: nat, b: nat, d: nat)
    requires d > 0 && a <= b
    ensures a / d <= b / d
  {
    DivMod(a, d);
    DivMod(b, d);
    MulOrder(b / d + 1, a / d, d);
  }

  lemma MulOrder(a: nat, b: nat, d: nat)
    ensures a <= b ==> a * d <= b * d
  {
  }

  /** Every block from first_data_block on lies in exactly one group, and that group exists. */
  lemma GroupOfBlock(g: Geometry, b: nat, k: nat)
    requires Sound(g) && g.firstDataBlock <= b < g.blocksCount
    ensures GroupOf(g, b) < g.groupCount
    ensures GroupStart(g, k) <= b < GroupEnd(g, k) <==> k == GroupOf(g, b)
  {
    var x, d := b - g.firstDataBlock, g.blocksPerGroup;
    DivMod(x, d);
    if g.groupCount <= x / d {
      MulMono(g.groupCount, x / d, d);
    }
    if GroupStart(g, k) <= b < GroupEnd(g, k) {
      DivUnique(x, d, k);
    }
  }

  lemma GroupOfInode(g: Geometry, z: nat, k: nat)
    requires Sound(g) && z < g.inodesCount
    ensures InodeGroupOf(g, z) < g.groupCount
    ensures InodeStart(g, k) <= z < InodeEnd(g, k) <==> k == InodeGroupOf(g, z)
  {
    var d := g.inodesPerGroup;
    DivMod(z, d);
    if g.groupCount <= z / d {
      MulMono(g.groupCount, z / d, d);
    }
    if InodeStart(g, k) <= z < InodeEnd(g, k) {
      DivUnique(z, d, k);
    }
  }

  lemma MulRearrange(q: nat, c: nat, r: nat, d: nat)
    ensures (q * c + r) * d == q * (c * d) + r * d
  {
    assert (q * c + r) * d == q * c * d + r * d;
    assert q * c * d == q * (c * d);
  }

  /** Records of size `d` laid out from a multiple of `c * d` never cross a multiple of `c * d`. */
  lemma RecordsTile(index: nat, d: nat, c: nat, size: nat)
    requires d > 0 && c > 0 && size == c * d
    ensures size > 0
    ensures index * d / size == index / c && index * d % size == index % c * d
    ensures index * d % size + d <= size
  {
    DivMod(index, c);
    RecordAt(index / c, index % c, d, c, size);
  }

  lemma RecordAt(q: nat, r: nat, d: nat, c: nat, size: nat)
    requires d > 0 && r < c && size == c * d
    ensures size > 0
    ensures (q * c + r) * d / size == q && (q * c + r) * d % size == r * d
    ensures r * d + d <= size
  {
    MulRearrange(q, c, r, d);
    MulMono(r + 1, c, d);
    MulMono(1, c, d);
    assert (r + 1) * d == r * d + d;
    DivUnique(q * size + r * d, size, q);
  }

  /** mount's divisibility check: no inode record crosses a block boundary. */
  lemma InodeNeverStraddles(g: Geometry, index: nat)
    requires Sound(g)
    ensures index * g.inodeSize % g.blockSize + g.inodeSize <= g.blockSize
  {
    var c := g.blockSize / g.inodeSize;
    DivMod(g.blockSize, g.inodeSize);
    RecordsTile(index, g.inodeSize, c, g.blockSize);
  }
}
