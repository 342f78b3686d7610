/** Reading and writing whole files through the pointer tree. */
module Files {
  import opened Bytes
  import opened Geometry
  import opened Volumes
  import opened PointerTree
  import opened Ownership

  /** block_count_for_size. */
  function BlockCount(v: Volume, size: nat): nat
    requires Shape(v)
  {
    CeilDiv(size, v.geo.blockSize)
  }

  /** metadata_block_count: how many pointer tables a file of `n` blocks needs. */
  function MetadataCount(v: Volume, n: nat): nat
    requires Shape(v)
  {
    var p := Pointers(v);
    if n <= 12 then 0
    else if n <= 12 + p then 1
    else 2 + CeilDiv(n - 12 - p, p)
  }

  // ---- what a file contains ----

  /** Byte `k` of a file: byte k % block_size of the block that k / block_size leads to. */
  function ByteAt(v: Volume, node: Inode, k: nat): Byte
    requires Shape(v) && node.Fits()
  {
    var b := Mapped(v, node, k / v.geo.blockSize);
    if Plain(v, b) then v.store[b][k % v.geo.blockSize] else 0
  }

  function Content(v: Volume, node: Inode): (c: seq<Byte>)
    requires Shape(v) && node.Fits()
    ensures |c| == node.size
  {
    seq(node.size, k requires k >= 0 => ByteAt(v, node, k))
  }

  /** The first `n` logical blocks of inode `i` are all there and all its own. */
  predicate DataHeld(v: Volume, owner: Owners, i: nat, node: Inode, n: nat)
    requires Shape(v) && node.Fits()
  {
    n <= MaxLogical(v) && forall l :: 0 <= l < n ==> Holds(v, owner, Mapped(v, node, l), Data(i, l))
  }

  predicate FileTree(v: Volume, owner: Owners, i: nat, node: Inode, n: nat)
    requires Shape(v) && node.Fits()
  {
    Tables(v, owner, i, node) && DataHeld(v, owner, i, node, n)
  }

  /** Nothing that inode `j` owns changed hands or contents. */
  predicate Undisturbed(v: Volume, owner: Owners, w: Volume, owner': Owners, j: nat)
    requires Shape(v) && Shape(w)
  {
    && w.geo == v.geo
    && forall b :: b in owner && owner[b].inode == j && b < |v.store| ==>
         w.store[b] == v.store[b] && b in owner' && owner'[b] == owner[b]
  }

  lemma UndisturbedMapped(v: Volume, owner: Owners, w: Volume, owner': Owners, j: nat, node: Inode, x: nat)
    requires Shape(v) && Shape(w) && Undisturbed(v, owner, w, owner', j) && node.Fits()
    requires Tables(v, owner, j, node) && x < MaxLogical(v)
    ensures Mapped(w, node, x) == Mapped(v, node, x)
  {
    hide Word, Mapped, Top, Low, MaxLogical;
    SameRules(v, w, node, node, x);
    if 12 + Pointers(v) <= x && node.doubly != 0 {
      assert ChildHeld(v, owner, j, node.doubly, Top(v, x));
    }
  }

  lemma UndisturbedTables(v: Volume, owner: Owners, w: Volume, owner': Owners, j: nat, node: Inode)
    requires Shape(v) && Shape(w) && Undisturbed(v, owner, w, owner', j) && node.Fits()
    requires Tables(v, owner, j, node)
    ensures Tables(w, owner', j, node)
  {
    hide Word;
    if node.doubly != 0 {
      forall k | 0 <= k < Pointers(w)
        ensures ChildHeld(w, owner', j, node.doubly, k)
      {
        assert ChildHeld(v, owner, j, node.doubly, k);
      }
    }
  }

  lemma BlockOfByte(v: Volume, size: nat, k: nat)
    requires Shape(v) && k < size
    ensures k / v.geo.blockSize < BlockCount(v, size) && k % v.geo.blockSize < v.geo.blockSize
  {
    var bs := v.geo.blockSize;
    DivMod(k, bs);
    DivMod(size + bs - 1, bs);
    if BlockCount(v, size) <= k / bs {
      MulMono(BlockCount(v, size), k / bs, bs);
    }
  }

  /** A file whose blocks nobody touched still has the same tree and the same contents. */
  lemma UndisturbedFile(v: Volume, owner: Owners, w: Volume, owner': Owners, j: nat, node: Inode, n: nat)
    requires Shape(v) && Shape(w) && Undisturbed(v, owner, w, owner', j) && node.Fits()
    requires FileTree(v, owner, j, node, n)
    ensures FileTree(w, owner', j, node, n)
    ensures forall l :: 0 <= l < n ==> Mapped(w, node, l) == Mapped(v, node, l)
    ensures forall l :: 0 <= l < n ==> w.store[Mapped(w, node, l)] == v.store[Mapped(v, node, l)]
    ensures n == BlockCount(v, node.size) ==> Content(w, node) == Content(v, node)
  {
    hide Mapped, Tables;
    UndisturbedTables(v, owner, w, owner', j, node);
    forall l | 0 <= l < n
      ensures Mapped(w, node, l) == Mapped(v, node, l)
      ensures w.store[Mapped(w, node, l)] == v.store[Mapped(v, node, l)]
      ensures Holds(w, owner', Mapped(w, node, l), Data(j, l))
    {
      UndisturbedMapped(v, owner, w, owner', j, node, l);
      assert Holds(v, owner, Mapped(v, node, l), Data(j, l));
    }
    if n == BlockCount(v, node.size) {
      forall k | 0 <= k < node.size
        ensures ByteAt(w, node, k) == ByteAt(v, node, k)
      {
        BlockOfByte(v, node.size, k);
        assert Holds(v, owner, Mapped(v, node, k / v.geo.blockSize), Data(j, k / v.geo.blockSize));
      }
    }
  }

  // ---- reading ----

  /** The loop of ext2_read_file after `done` bytes. */
  function ReadFrom(v: Volume, node: Inode, done: nat, wanted: nat): Option<seq<Byte>>
    requires Shape(v) && node.Fits() && done <= wanted
    decreases wanted - done
  {
    if done == wanted then Some([])
    else
      var bs := v.geo.blockSize;
      DivMod(done, bs);
      var offset := done % bs;
      var amount := Min(wanted - done, bs - offset);
      var b := Mapped(v, node, done / bs);
      if b == 0 || !Plain(v, b) then None
      else
        match ReadFrom(v, node, done + amount, wanted)
        case None => None
        case Some(rest) => Some(v.store[b][offset..offset + amount] + rest)
  }

  /** ext2_read_file. */
  function ReadFile(v: Volume, i: nat, size: nat): Option<seq<Byte>>
    requires Shape(v)
  {
    if !ValidInode(v, i) then None
    else ReadFrom(v, InodeOf(v, i), 0, Min(size, InodeOf(v, i).size))
  }

  lemma ByteInBlock(v: Volume, done: nat, j: nat)
    requires Shape(v) && done % v.geo.blockSize + j < v.geo.blockSize
    ensures (done + j) / v.geo.blockSize == done / v.geo.blockSize
    ensures (done + j) % v.geo.blockSize == done % v.geo.blockSize + j
  {
    DivMod(done, v.geo.blockSize);
    DivUnique(done + j, v.geo.blockSize, done / v.geo.blockSize);
  }

  lemma ChunkOfContent(v: Volume, owner: Owners, i: nat, node: Inode, done: nat, amount: nat)
    requires Shape(v) && node.Fits() && DataHeld(v, owner, i, node, BlockCount(v, node.size))
    requires 0 < amount && done + amount <= node.size && done % v.geo.blockSize + amount <= v.geo.blockSize
    ensures var b := Mapped(v, node, done / v.geo.blockSize);
            var offset := done % v.geo.blockSize;
      Plain(v, b) && v.store[b][offset..offset + amount] == Content(v, node)[done..done + amount]
  {
    hide Mapped, ByteAt, BlockCount;
    var offset := done % v.geo.blockSize;
    BlockOfByte(v, node.size, done);
    var b := Mapped(v, node, done / v.geo.blockSize);
    assert Holds(v, owner, b, Data(i, done / v.geo.blockSize));
    var part, c := v.store[b][offset..offset + amount], Content(v, node)[done..done + amount];
    forall j | 0 <= j < amount
      ensures part[j] == c[j]
    {
      ByteOfBlock(v, node, done, j);
    }
  }

  lemma ByteOfBlock(v: Volume, node: Inode, done: nat, j: nat)
    requires Shape(v) && node.Fits() && done % v.geo.blockSize + j < v.geo.blockSize
    ensures var b := Mapped(v, node, done / v.geo.blockSize);
      Plain(v, b) ==> ByteAt(v, node, done + j) == v.store[b][done % v.geo.blockSize + j]
  {
    hide Mapped;
    ByteInBlock(v, done, j);
  }

  lemma {:induction false} ReadFromContent(v: Volume, owner: Owners, i: nat, node: Inode, done: nat, wanted: nat)
    requires Shape(v) && node.Fits() && DataHeld(v, owner, i, node, BlockCount(v, node.size))
    requires done <= wanted <= node.size
    ensures ReadFrom(v, node, done, wanted) == Some(Content(v, node)[done..wanted])
    decreases wanted - done
  {
    hide Mapped, Content, DataHeld;
    var c := Content(v, node);
    if done == wanted {
      assert c[done..wanted] == [];
    } else {
      DivMod(done, v.geo.blockSize);
      var amount := Min(wanted - done, v.geo.blockSize - done % v.geo.blockSize);
      ChunkOfContent(v, owner, i, node, done, amount);
      ReadFromContent(v, owner, i, node, done + amount, wanted);
      assert c[done..wanted] == c[done..done + amount] + c[done + amount..wanted];
    }
  }

  // ---- growing ----

  /** First loop of ext2_write_file: a fresh block for each logical block from `from` to `to`. */
  function GrowFile(v: Volume, node: Inode, from: nat, upto: nat): (r: Growth)
    requires Shape(v) && node.Fits()
    ensures Shape(r.v) && r.v.geo == v.geo && r.node.Fits()
    decreases if upto > from then upto - from else 0
  {
    if from >= upto then Growth(v, node, true)
    else
      var a := AllocateBlock(v);
      if a.found.None? then Growth(a.v, node, false)
      else
        var r := SetInodeBlock(a.v, node, from, a.found.value);
        if !r.ok then r else GrowFile(r.v, r.node, from + 1, upto)
  }

  /** `node'` is `node` with blocks from `n` on and tables added. */
  predicate Extends(node: Inode, node': Inode, n: nat)
    requires node.Fits() && node'.Fits()
  {
    && node' == node.(direct := node'.direct, indirect := node'.indirect, doubly := node'.doubly)
    && (forall k :: 0 <= k < 12 && k < n ==> node'.direct[k] == node.direct[k])
    && (node.indirect != 0 ==> node'.indirect == node.indirect)
    && (node.doubly != 0 ==> node'.doubly == node.doubly)
  }

  predicate DataTied(v: Volume, owner: Owners, i: nat, node: Inode, n: nat)
    requires Shape(v) && node.Fits()
  {
    forall b :: b in owner && owner[b].Data? && owner[b].inode == i ==>
      owner[b].logical < n && Mapped(v, node, owner[b].logical) == b
  }

  /** What growing the tree of inode `i` from `from` to `to` blocks does, whether or not it succeeds. */
  predicate GrownFile(v: Volume, owner: Owners, i: nat, node: Inode, from: nat, upto: nat, r: Growth, owner': Owners)
    requires Shape(v) && Shape(r.v) && node.Fits() && r.node.Fits() && r.v.geo == v.geo
  {
    && Agreement(r.v) && Recorded(r.v, owner') && Kept(v, owner, r.v, owner', i)
    && Tables(r.v, owner', i, r.node) && Extends(node, r.node, from)
    && (forall x :: 0 <= x < from ==> Mapped(r.v, r.node, x) == Mapped(v, node, x))
    && (r.ok ==> DataHeld(r.v, owner', i, r.node, upto))
    && (r.ok ==> forall x :: from <= x < upto ==> Mapped(r.v, r.node, x) !in owner)
    && (r.ok && Tied(v, owner, i, node) && DataTied(v, owner, i, node, from) ==>
          Tied(r.v, owner', i, r.node) && DataTied(r.v, owner', i, r.node, upto))
  }

  lemma {:induction false} GrowFileGrows(v: Volume, owner: Owners, i: nat, node: Inode, from: nat, upto: nat)
    returns (owner': Owners)
    requires Shape(v) && Agreement(v) && Recorded(v, owner) && node.Fits() && FileTree(v, owner, i, node, from)
    requires from <= upto <= MaxLogical(v)
    ensures GrownFile(v, owner, i, node, from, upto, GrowFile(v, node, from, upto), owner')
    ensures from < upto && AllocateBlock(v).found.Some? ==>
      AllocateBlock(v).found.value in owner' && owner'[AllocateBlock(v).found.value] == Data(i, from)
    decreases upto - from
  {
    hide Mapped, Tables, Agreement, Tied, DataTied, SetInodeBlock, AllocateBlock, Kept, Recorded, Sound, InodeBlock;
    if from == upto {
      owner' := owner;
      KeptSame(v, owner, i);
    } else {
      var o1 := AllocateFor(v, owner, Data(i, from));
      var a := AllocateBlock(v);
      if a.found.None? {
        owner' := owner;
        KeptSame(v, owner, i);
      } else {
        var r, o2 := GrowStep(v, owner, i, node, from, a.v, o1, a.found.value);
        owner' := o2;
        if r.ok {
          owner' := GrowFileGrows(r.v, o2, i, r.node, from + 1, upto);
          KeptOwners(r.v, o2, GrowFile(r.v, r.node, from + 1, upto).v, owner', i);
          GrownFileTransitive(v, owner, i, node, from, r, o2, upto, GrowFile(r.v, r.node, from + 1, upto), owner');
        } else {
          GrownFileFails(v, owner, i, node, from, r, o2, upto);
        }
      }
    }
  }

  lemma GrownFileFails(v: Volume, owner: Owners, i: nat, node: Inode, from: nat, r: Growth, o2: Owners, upto: nat)
    requires Shape(v) && Shape(r.v) && node.Fits() && r.node.Fits() && r.v.geo == v.geo && !r.ok
    requires GrownFile(v, owner, i, node, from, from + 1, r, o2)
    ensures GrownFile(v, owner, i, node, from, upto, r, o2)
  {
  }

  lemma GrownFileTransitive(v: Volume, owner: Owners, i: nat, node: Inode, from: nat, r: Growth, o2: Owners,
                            upto: nat, r3: Growth, o3: Owners)
    requires Shape(v) && Shape(r.v) && Shape(r3.v) && node.Fits() && r.node.Fits() && r3.node.Fits()
    requires r.v.geo == v.geo == r3.v.geo && r.ok && Recorded(v, owner)
    requires GrownFile(v, owner, i, node, from, from + 1, r, o2)
    requires GrownFile(r.v, o2, i, r.node, from + 1, upto, r3, o3)
    ensures GrownFile(v, owner, i, node, from, upto, r3, o3)
  {
    hide Mapped, Tables, Agreement, Tied, DataTied, Kept, Recorded, DataHeld;
    RecordedUsed(v, owner);
    KeptOwners(v, owner, r.v, o2, i);
    KeptTransitive(v, owner, r.v, o2, r3.v, o3, i);
    forall x | from <= x < upto && r3.ok
      ensures Mapped(r3.v, r3.node, x) !in owner
    {
      if x == from {
        assert Mapped(r3.v, r3.node, x) == Mapped(r.v, r.node, x);
      }
    }
  }

  lemma GrowStep(v: Volume, owner: Owners, i: nat, node: Inode, l: nat, w: Volume, o1: Owners, b: nat)
    returns (r: Growth, o2: Owners)
    requires Shape(v) && Recorded(v, owner) && node.Fits() && FileTree(v, owner, i, node, l) && l < MaxLogical(v)
    requires Shape(w) && Agreement(w) && Recorded(w, o1) && Kept(v, owner, w, o1, i)
    requires 0 < b < |v.store| && b !in owner && o1 == owner[b := Data(i, l)] && Plain(w, b)
    requires w.geo == v.geo && b < 0x1_0000_0000 && w.store == v.store[b := Zeros(v.geo.blockSize)]
    ensures r == SetInodeBlock(w, node, l, b)
    ensures GrownFile(v, owner, i, node, l, l + 1, r, o2) && b in o2 && o2[b] == Data(i, l)
  {
    hide Tables, Agreement, SetInodeBlock, InodeBlock, Kept, Recorded, Mapped, DataHeld, DataTied, Tied, Remapped,
      Sound;
    r := SetInodeBlock(w, node, l, b);
    NewDataUndisturbed(v, owner, i, node, l, w, o1, b);
    o2 := SetInodeBlockUpdates(w, o1, i, node, l, b);
    KeptOwners(w, o1, r.v, o2, i);
    RecordedUsed(v, owner);
    KeptTransitive(v, owner, w, o1, r.v, o2, i);
    GrowStepMaps(v, owner, i, node, l, w, o1, b, r, o2);
    GrowStepTied(v, owner, i, node, l, w, o1, b, r, o2);
  }

  lemma NewDataUndisturbed(v: Volume, owner: Owners, i: nat, node: Inode, l: nat, w: Volume, o1: Owners, b: nat)
    requires Shape(v) && Shape(w) && w.geo == v.geo && node.Fits() && FileTree(v, owner, i, node, l)
    requires b < |v.store| && b !in owner && o1 == owner[b := Data(i, l)]
    requires w.store == v.store[b := Zeros(v.geo.blockSize)]
    ensures FileTree(w, o1, i, node, l)
    ensures forall x :: 0 <= x < l ==> Mapped(w, node, x) == Mapped(v, node, x)
    ensures Tied(v, owner, i, node) ==> Tied(w, o1, i, node)
  {
    UndisturbedFile(v, owner, w, o1, i, node, l);
  }

  lemma GrowStepMaps(v: Volume, owner: Owners, i: nat, node: Inode, l: nat, w: Volume, o1: Owners, b: nat,
                     r: Growth, o2: Owners)
    requires Shape(v) && Shape(w) && w.geo == v.geo && node.Fits() && DataHeld(w, o1, i, node, l) && l < MaxLogical(v)
    requires forall x :: 0 <= x < l ==> Mapped(w, node, x) == Mapped(v, node, x)
    requires Shape(r.v) && Grown(w, o1, i, node, r, o2) && Remapped(w, node, r, l, b)
    requires Holds(w, o1, b, Data(i, l))
    ensures Extends(node, r.node, l)
    ensures forall x :: 0 <= x < l ==> Mapped(r.v, r.node, x) == Mapped(v, node, x)
    ensures r.ok ==> DataHeld(r.v, o2, i, r.node, l + 1) && Mapped(r.v, r.node, l) == b
  {
    hide Tables, Agreement, Mapped, Sound;
    forall k | 0 <= k < 12 && k < l
      ensures r.node.direct[k] == node.direct[k]
    {
      DirectMapped(w, node, k);
      DirectMapped(r.v, r.node, k);
    }
  }

  lemma DirectMapped(v: Volume, node: Inode, k: nat)
    requires Shape(v) && node.Fits() && k < 12
    ensures Mapped(v, node, k) == node.direct[k] && k < MaxLogical(v)
  {
    MappedDirect(v, node, k);
  }

  lemma GrowStepTied(v: Volume, owner: Owners, i: nat, node: Inode, l: nat, w: Volume, o1: Owners, b: nat,
                     r: Growth, o2: Owners)
    requires Shape(v) && Shape(w) && w.geo == v.geo && node.Fits() && l < MaxLogical(v)
    requires forall x :: 0 <= x < l ==> Mapped(w, node, x) == Mapped(v, node, x)
    requires Shape(r.v) && Grown(w, o1, i, node, r, o2) && Remapped(w, node, r, l, b) && OnlyTables(o1, o2)
    requires o1 == owner[b := Data(i, l)] && b !in owner
    ensures r.ok && DataTied(v, owner, i, node, l) ==> DataTied(r.v, o2, i, r.node, l + 1)
  {
    hide Tables, Agreement, Mapped, Tied, Sound;
  }

  // ---- filling ----

  /** The block-sized piece of `buf` for logical block `l`, padded with zeros. */
  function Chunk(blockSize: nat, buf: seq<Byte>, l: nat): (c: Block)
    requires l * blockSize <= |buf|
    ensures |c| == blockSize
  {
    var start := l * blockSize;
    var amount := Min(|buf| - start, blockSize);
    buf[start..start + amount] + Zeros(blockSize - amount)
  }

  datatype Outcome = Outcome(v: Volume, ok: bool)

  lemma StartOfBlock(v: Volume, size: nat, l: nat)
    requires Shape(v) && l < BlockCount(v, size)
    ensures l * v.geo.blockSize < size
  {
    var bs := v.geo.blockSize;
    DivMod(size + bs - 1, bs);
    MulMono(l + 1, BlockCount(v, size), bs);
    assert (l + 1) * bs == l * bs + bs;
  }

  /** Second loop of ext2_write_file: every block of the file receives its piece of the buffer. */
  function FillFile(v: Volume, node: Inode, buf: seq<Byte>, l: nat): (r: Outcome)
    requires Shape(v) && node.Fits()
    ensures Shape(r.v) && r.v == v.(store := r.v.store)
    decreases BlockCount(v, |buf|) - l
  {
    if l >= BlockCount(v, |buf|) then Outcome(v, true)
    else
      var b := Mapped(v, node, l);
      if b == 0 || !Plain(v, b) then Outcome(v, false)
      else
        StartOfBlock(v, |buf|, l);
        FillFile(StoreBlock(v, b, Chunk(v.geo.blockSize, buf, l)), node, buf, l + 1)
  }

  /** Only data blocks of inode `i` differ. */
  predicate OnlyDataOf(v: Volume, owner: Owners, w: Volume, i: nat)
    requires Shape(v)
  {
    && w == v.(store := w.store) && |w.store| == |v.store|
    && (forall b :: 0 <= b < |v.store| ==> |w.store[b]| == |v.store[b]|)
    && (forall b :: b in owner && !(owner[b].Data? && owner[b].inode == i) && b < |v.store| ==>
          w.store[b] == v.store[b])
  }

  lemma OnlyDataTables(v: Volume, owner: Owners, w: Volume, i: nat, node: Inode)
    requires Shape(v) && Shape(w) && OnlyDataOf(v, owner, w, i) && node.Fits() && Tables(v, owner, i, node)
    ensures Tables(w, owner, i, node)
    ensures Tied(v, owner, i, node) ==> Tied(w, owner, i, node)
    ensures forall x :: 0 <= x < MaxLogical(v) ==> Mapped(w, node, x) == Mapped(v, node, x)
  {
    hide Word, Sound;
    if node.doubly != 0 {
      forall k | 0 <= k < Pointers(w)
        ensures ChildHeld(w, owner, i, node.doubly, k)
      {
        assert ChildHeld(v, owner, i, node.doubly, k);
      }
    }
    forall x | 0 <= x < MaxLogical(v)
      ensures Mapped(w, node, x) == Mapped(v, node, x)
    {
      OnlyDataMapped(v, owner, w, i, node, x);
    }
  }

  lemma OnlyDataMapped(v: Volume, owner: Owners, w: Volume, i: nat, node: Inode, x: nat)
    requires Shape(v) && Shape(w) && OnlyDataOf(v, owner, w, i) && node.Fits() && Tables(v, owner, i, node)
    requires x < MaxLogical(v)
    ensures Mapped(w, node, x) == Mapped(v, node, x)
  {
    hide Word, Mapped, Top, Low, MaxLogical;
    SameRules(v, w, node, node, x);
    if 12 + Pointers(v) <= x && node.doubly != 0 {
      assert ChildHeld(v, owner, i, node.doubly, Top(v, x));
    }
  }

  /** Blocks `l`.. of the file hold their pieces of `buf`. */
  predicate Filled(v: Volume, node: Inode, buf: seq<Byte>, l: nat)
    requires Shape(v) && node.Fits()
  {
    forall x :: l <= x < BlockCount(v, |buf|) ==>
      && x * v.geo.blockSize <= |buf|
      && Plain(v, Mapped(v, node, x)) && v.store[Mapped(v, node, x)] == Chunk(v.geo.blockSize, buf, x)
  }

  /** One pass of the filling loop. */
  lemma FillStep(v: Volume, owner: Owners, i: nat, node: Inode, buf: seq<Byte>, l: nat)
    requires Shape(v) && node.Fits() && FileTree(v, owner, i, node, BlockCount(v, |buf|)) && l < BlockCount(v, |buf|)
    ensures l * v.geo.blockSize <= |buf| && Plain(v, Mapped(v, node, l)) && Mapped(v, node, l) != 0
    ensures var w := StoreBlock(v, Mapped(v, node, l), Chunk(v.geo.blockSize, buf, l));
      && OnlyDataOf(v, owner, w, i) && FileTree(w, owner, i, node, BlockCount(v, |buf|))
      && (forall x :: 0 <= x < MaxLogical(v) ==> Mapped(w, node, x) == Mapped(v, node, x))
      && (forall x :: 0 <= x < BlockCount(v, |buf|) && x != l ==>
            w.store[Mapped(w, node, x)] == v.store[Mapped(v, node, x)])
      && (Tied(v, owner, i, node) ==> Tied(w, owner, i, node))
  {
    hide Mapped, Tables, Tied, Chunk, CeilDiv, Sound;
    assert Holds(v, owner, Mapped(v, node, l), Data(i, l));
    StartOfBlock(v, |buf|, l);
    var w := StoreBlock(v, Mapped(v, node, l), Chunk(v.geo.blockSize, buf, l));
    OnlyDataTables(v, owner, w, i, node);
    OtherDataKept(v, owner, w, i, node, BlockCount(v, |buf|), l);
  }

  lemma OnlyDataTransitive(v: Volume, owner: Owners, w: Volume, x: Volume, i: nat)
    requires Shape(v) && Shape(w) && OnlyDataOf(v, owner, w, i) && OnlyDataOf(w, owner, x, i)
    ensures OnlyDataOf(v, owner, x, i)
  {
  }

  lemma {:induction false} FillFileFills(v: Volume, owner: Owners, i: nat, node: Inode, buf: seq<Byte>, l: nat)
    requires Shape(v) && node.Fits() && FileTree(v, owner, i, node, BlockCount(v, |buf|))
    ensures var r := FillFile(v, node, buf, l);
      && r.ok && OnlyDataOf(v, owner, r.v, i)
      && FileTree(r.v, owner, i, node, BlockCount(v, |buf|)) && Filled(r.v, node, buf, l)
      && (forall x :: 0 <= x < l && x < BlockCount(v, |buf|) ==>
            r.v.store[Mapped(r.v, node, x)] == v.store[Mapped(v, node, x)])
      && (Tied(v, owner, i, node) ==> Tied(r.v, owner, i, node))
      && (forall x :: 0 <= x < MaxLogical(v) ==> Mapped(r.v, node, x) == Mapped(v, node, x))
    decreases BlockCount(v, |buf|) - l
  {
    hide Mapped, Tables, Tied, Chunk, CeilDiv, Sound, OnlyDataOf;
    if l < BlockCount(v, |buf|) {
      FillStep(v, owner, i, node, buf, l);
      var w := StoreBlock(v, Mapped(v, node, l), Chunk(v.geo.blockSize, buf, l));
      FillFileFills(w, owner, i, node, buf, l + 1);
      OnlyDataTransitive(v, owner, w, FillFile(w, node, buf, l + 1).v, i);
    } else {
      OnlyDataSame(v, owner, i);
    }
  }

  lemma OnlyDataSame(v: Volume, owner: Owners, i: nat)
    requires Shape(v)
    ensures OnlyDataOf(v, owner, v, i)
  {
  }

  lemma OtherDataKept(v: Volume, owner: Owners, w: Volume, i: nat, node: Inode, n: nat, l: nat)
    requires Shape(v) && Shape(w) && w.geo == v.geo && node.Fits() && DataHeld(v, owner, i, node, n) && l < n
    requires forall x :: 0 <= x < MaxLogical(v) ==> Mapped(w, node, x) == Mapped(v, node, x)
    requires Plain(v, Mapped(v, node, l)) && Plain(w, Mapped(v, node, l))
    requires w.store == v.store[Mapped(v, node, l) := w.store[Mapped(v, node, l)]]
    ensures DataHeld(w, owner, i, node, n)
    ensures forall x :: 0 <= x < n && x != l ==> w.store[Mapped(w, node, x)] == v.store[Mapped(v, node, x)]
  {
    hide Mapped, Sound;
    forall x | 0 <= x < n
      ensures Holds(w, owner, Mapped(w, node, x), Data(i, x))
      ensures x != l ==> w.store[Mapped(w, node, x)] == v.store[Mapped(v, node, x)]
    {
      assert Holds(v, owner, Mapped(v, node, x), Data(i, x));
      assert Holds(v, owner, Mapped(v, node, l), Data(i, l));
    }
  }

  // ---- writing ----

  /** ext2_write_file. */
  function WriteFile(v: Volume, i: nat, buf: seq<Byte>): (r: Outcome)
    requires Shape(v) && |buf| < 0x8000_0000
    ensures Shape(r.v) && r.v.geo == v.geo
  {
    if !ValidInode(v, i) || !InodeOf(v, i).IsFile() || |buf| < InodeOf(v, i).size then Outcome(v, false)
    else
      var node := InodeOf(v, i);
      var blocks := BlockCount(v, |buf|);
      if blocks > MaxLogical(v) then Outcome(v, false)
      else
        var g := GrowFile(v, node, BlockCount(v, node.size), blocks);
        if !g.ok then Outcome(g.v, false)
        else
          var f := FillFile(g.v, g.node, buf, 0);
          if !f.ok then f
          else Outcome(WithInode(f.v, i, Written(v, g.node, |buf|)), true)
  }

  function Written(v: Volume, node: Inode, size: nat): (r: Inode)
    requires Shape(v) && node.Fits() && size < 0x8000_0000
    ensures r.Fits()
  {
    var blocks := BlockCount(v, size);
    node.(size := size, blocks := (blocks + MetadataCount(v, blocks)) * (v.geo.blockSize / 512) % 0x1_0000_0000)
  }

  /** All that changed from `v` to `w` is what inode `i` owns, and what it owns only grew. */
  predicate Confined(v: Volume, owner: Owners, w: Volume, owner': Owners, i: nat)
    requires Shape(v) && Shape(w)
  {
    && w.geo == v.geo && w.iused == v.iused && w.inodeFree == v.inodeFree && w.freeInodes == v.freeInodes
    && (forall b :: b in owner ==> b in owner' && owner'[b] == owner[b])
    && (forall b :: b in owner' && b !in owner ==> b < |v.used| && owner'[b].inode == i && !v.used[b])
    && (forall b :: b in owner && owner[b].inode != i && b < |v.store| ==> w.store[b] == v.store[b])
    && (forall b :: 0 <= b < |v.used| && v.used[b] ==> w.used[b])
    && (forall b :: 0 <= b < |v.used| && w.used[b] && !v.used[b] ==> b in owner')
    && (forall b :: 0 <= b < |v.store| ==> |w.store[b]| == |v.store[b]|)
    && v.freeBlocks - w.freeBlocks == |owner'| - |owner|
  }

  lemma ConfinedUndisturbed(v: Volume, owner: Owners, w: Volume, owner': Owners, i: nat, j: nat)
    requires Shape(v) && Shape(w) && Confined(v, owner, w, owner', i) && i != j
    ensures Undisturbed(v, owner, w, owner', j)
  {
  }

  /** The inode still on disk sees its old blocks even after its tables were extended for a longer
      version of it that never got written. */
  lemma OldInodeKeepsFile(v: Volume, owner: Owners, w: Volume, owner': Owners, i: nat, node: Inode, node': Inode,
                          n: nat)
    requires Shape(v) && Shape(w) && node.Fits() && node'.Fits() && Extends(node, node', n)
    requires FileTree(v, owner, i, node, n) && Tables(w, owner', i, node') && Kept(v, owner, w, owner', i)
    requires forall x :: 0 <= x < n ==> Mapped(w, node', x) == Mapped(v, node, x)
    ensures FileTree(w, owner', i, node, n)
    ensures n == BlockCount(v, node.size) ==> Content(w, node) == Content(v, node)
  {
    hide Mapped, Tables, Sound;
    OldTables(w, owner', i, node, node', n);
    forall x | 0 <= x < n
      ensures Mapped(w, node, x) == Mapped(v, node, x)
      ensures Holds(w, owner', Mapped(w, node, x), Data(i, x))
      ensures w.store[Mapped(w, node, x)] == v.store[Mapped(v, node, x)]
    {
      assert Holds(v, owner, Mapped(v, node, x), Data(i, x));
      OldMapped(v, w, node, node', n, x);
    }
    if n == BlockCount(v, node.size) {
      SameContent(v, owner, w, i, node, n);
    }
  }

  lemma OldInodeNoReturn(v: Volume, owner: Owners, w: Volume, owner': Owners, i: nat, node: Inode, node': Inode, n: nat)
    requires Shape(v) && Shape(w) && w.geo == v.geo && node.Fits() && node'.Fits() && Extends(node, node', n)
    requires FileTree(v, owner, i, node, n) && n == BlockCount(v, node.size)
    requires forall x :: 0 <= x < n ==> Mapped(w, node', x) == Mapped(v, node, x)
    ensures NoReturn(v, owner, i, node, w, node)
  {
    hide Mapped, Tables, Sound;
    forall x | 0 <= x < n
      ensures Mapped(w, node, x) == Mapped(v, node, x)
    {
      assert Holds(v, owner, Mapped(v, node, x), Data(i, x));
      OldMapped(v, w, node, node', n, x);
    }
  }

  lemma SameContent(v: Volume, owner: Owners, w: Volume, i: nat, node: Inode, n: nat)
    requires Shape(v) && Shape(w) && w.geo == v.geo && node.Fits() && n == BlockCount(v, node.size)
    requires DataHeld(v, owner, i, node, n)
    requires forall x :: 0 <= x < n ==> Mapped(w, node, x) == Mapped(v, node, x)
    requires forall x :: 0 <= x < n ==> w.store[Mapped(v, node, x)] == v.store[Mapped(v, node, x)]
    ensures Content(w, node) == Content(v, node)
  {
    hide Mapped, ByteAt, BlockCount;
    forall k | 0 <= k < node.size
      ensures ByteAt(w, node, k) == ByteAt(v, node, k)
    {
      BlockOfByte(v, node.size, k);
      var l := k / v.geo.blockSize;
      assert Holds(v, owner, Mapped(v, node, l), Data(i, l));
      SameByte(v, w, node, k);
    }
  }

  lemma SameByte(v: Volume, w: Volume, node: Inode, k: nat)
    requires Shape(v) && Shape(w) && w.geo == v.geo && node.Fits()
    requires var b := Mapped(v, node, k / v.geo.blockSize);
      Plain(v, b) && Mapped(w, node, k / v.geo.blockSize) == b && w.store[b] == v.store[b]
    ensures ByteAt(w, node, k) == ByteAt(v, node, k)
  {
    hide Mapped;
  }

  lemma OldTables(w: Volume, owner: Owners, i: nat, node: Inode, node': Inode, n: nat)
    requires Shape(w) && node.Fits() && node'.Fits() && Extends(node, node', n) && Tables(w, owner, i, node')
    ensures Tables(w, owner, i, node)
  {
  }

  lemma OldMapped(v: Volume, w: Volume, node: Inode, node': Inode, n: nat, x: nat)
    requires Shape(v) && Shape(w) && w.geo == v.geo && node.Fits() && node'.Fits() && Extends(node, node', n) && x < n
    requires n <= MaxLogical(v) && Mapped(v, node, x) != 0
    ensures Mapped(w, node, x) == Mapped(w, node', x)
  {
    hide Word, Mapped, Top, Low, MaxLogical;
    SameRules(v, w, node, node, x);
    SameRules(v, w, node, node', x);
  }

  /** The same pointers over the same blocks make the same tree. */
  lemma SameStoreMapped(v: Volume, node: Inode, w: Volume, node': Inode, x: nat)
    requires Shape(v) && Shape(w) && node.Fits() && node'.Fits() && w.geo == v.geo && w.store == v.store
    requires x < MaxLogical(v) && SamePointers(node, node')
    ensures Mapped(w, node', x) == Mapped(v, node, x)
  {
    hide Word, Mapped, Top, Low, MaxLogical;
    SameRules(v, w, node, node', x);
  }

  predicate SamePointers(node: Inode, node': Inode) {
    node'.direct == node.direct && node'.indirect == node.indirect && node'.doubly == node.doubly
  }

  lemma SameStoreTables(v: Volume, owner: Owners, i: nat, node: Inode, w: Volume, node': Inode)
    requires Shape(v) && Shape(w) && w.geo == v.geo && w.store == v.store && SamePointers(node, node')
    requires Tables(v, owner, i, node)
    ensures Tables(w, owner, i, node')
  {
    if node.doubly != 0 {
      forall k | 0 <= k < Pointers(w)
        ensures ChildHeld(w, owner, i, node'.doubly, k)
      {
        assert ChildHeld(v, owner, i, node.doubly, k);
      }
    }
  }

  lemma SameStoreTree(v: Volume, owner: Owners, i: nat, node: Inode, w: Volume, node': Inode, n: nat)
    requires Shape(v) && Shape(w) && node.Fits() && node'.Fits() && w.geo == v.geo && w.store == v.store
    requires SamePointers(node, node') && n <= MaxLogical(v)
    ensures FileTree(v, owner, i, node, n) ==> FileTree(w, owner, i, node', n)
    ensures Tied(v, owner, i, node) ==> Tied(w, owner, i, node')
    ensures DataTied(v, owner, i, node, n) ==> DataTied(w, owner, i, node', n)
    ensures forall x :: 0 <= x < MaxLogical(v) ==> Mapped(w, node', x) == Mapped(v, node, x)
  {
    hide Word, Sound, Mapped, Tables;
    if Tables(v, owner, i, node) {
      SameStoreTables(v, owner, i, node, w, node');
    }
    forall x | 0 <= x < MaxLogical(v)
      ensures Mapped(w, node', x) == Mapped(v, node, x)
    {
      SameStoreMapped(v, node, w, node', x);
    }
  }

  lemma FilledContent(v: Volume, node: Inode, buf: seq<Byte>)
    requires Shape(v) && node.Fits() && node.size == |buf| && Filled(v, node, buf, 0)
    ensures Content(v, node) == buf
  {
    hide Mapped, BlockCount, Chunk;
    forall k | 0 <= k < |buf|
      ensures ByteAt(v, node, k) == buf[k]
    {
      var bs := v.geo.blockSize;
      BlockOfByte(v, |buf|, k);
      DivMod(k, bs);
      ChunkByte(bs, buf, k / bs, k % bs);
      assert v.store[Mapped(v, node, k / bs)] == Chunk(bs, buf, k / bs);
    }
  }

  lemma ChunkByte(blockSize: nat, buf: seq<Byte>, l: nat, j: nat)
    requires j < blockSize && l * blockSize + j < |buf|
    ensures Chunk(blockSize, buf, l)[j] == buf[l * blockSize + j]
  {
  }

  lemma KeptConfined(v: Volume, owner: Owners, w: Volume, owner': Owners, i: nat)
    requires Shape(v) && Shape(w) && Kept(v, owner, w, owner', i)
    ensures Confined(v, owner, w, owner', i)
  {
  }

  lemma ConfinedThen(v: Volume, owner: Owners, w: Volume, owner': Owners, i: nat, x: Volume)
    requires Shape(v) && Shape(w) && Shape(x) && Confined(v, owner, w, owner', i)
    requires x == w.(store := x.store, inodes := x.inodes)
    requires forall b :: b in owner' && owner'[b].inode != i && b < |w.store| ==> x.store[b] == w.store[b]
    requires forall b :: b in owner ==> b < |v.store|
    requires forall b :: 0 <= b < |w.store| ==> |x.store[b]| == |w.store[b]|
    ensures Confined(v, owner, x, owner', i)
  {
  }

  /** What is known of inode `i` and its blocks when nothing about it is half-done. */
  predicate FileAt(v: Volume, owner: Owners, i: nat)
    requires Shape(v) && ValidInode(v, i)
  {
    FileTree(v, owner, i, InodeOf(v, i), BlockCount(v, InodeOf(v, i).size))
  }

  /** Every block on record for inode `i`, with contents `node`, has its place in the tree. */
  predicate AllPlaced(v: Volume, owner: Owners, i: nat, node: Inode)
    requires Shape(v) && node.Fits()
  {
    Tied(v, owner, i, node) && DataTied(v, owner, i, node, BlockCount(v, node.size))
  }

  /** Nothing that inode `i` was given got lost. */
  predicate NothingLost(v: Volume, owner: Owners, i: nat)
    requires Shape(v) && ValidInode(v, i)
  {
    AllPlaced(v, owner, i, InodeOf(v, i))
  }

  // ---- what a file costs ----

  /** The inode has just the tables that a file of `n` blocks needs. */
  predicate ExactTables(v: Volume, node: Inode, n: nat)
    requires Shape(v)
  {
    && (node.indirect != 0 <==> n > 12)
    && (node.doubly != 0 <==> n > 12 + Pointers(v))
    && (node.doubly != 0 ==>
          && Plain(v, node.doubly)
          && forall k :: 0 <= k < Pointers(v) ==>
               (Word(v.store[node.doubly], k) != 0 <==> 12 + Pointers(v) + k * Pointers(v) < n))
  }

  /** What a file of `n` blocks takes, data and tables. */
  function Cost(v: Volume, n: nat): nat
    requires Shape(v)
  {
    n + MetadataCount(v, n)
  }

  /** The state of a file whose writes all succeeded: just the tables it needs, and an i_blocks field
      that counts its blocks in sectors. */
  predicate Accounted(v: Volume, i: nat)
    requires Shape(v) && ValidInode(v, i)
  {
    var node := InodeOf(v, i);
    && ExactTables(v, node, BlockCount(v, node.size))
    && node.blocks == Cost(v, BlockCount(v, node.size)) * (v.geo.blockSize / 512)
  }

  /** The inode after a write: only its size, block count and pointers may differ. */
  predicate Rewritten(node: Inode, node': Inode) {
    node' == node.(size := node'.size, blocks := node'.blocks, direct := node'.direct,
                   indirect := node'.indirect, doubly := node'.doubly)
  }

  /** No block that was on record as data of `i`, but out of place, came back into the file. */
  predicate NoReturn(v: Volume, owner: Owners, i: nat, node: Inode, w: Volume, node': Inode)
    requires Shape(v) && Shape(w) && node.Fits() && node'.Fits()
  {
    forall b :: b in owner && owner[b].Data? && owner[b].inode == i ==>
      (owner[b].logical < BlockCount(w, node'.size) && Mapped(w, node', owner[b].logical) == b ==>
        owner[b].logical < BlockCount(v, node.size) && Mapped(v, node, owner[b].logical) == b)
  }

  predicate WriteDone(v: Volume, owner: Owners, i: nat, buf: seq<Byte>, w: Volume, owner': Owners)
    requires Shape(v) && ValidInode(v, i) && Shape(w) && w.geo == v.geo
  {
    && w.inodes == v.inodes[i - 1 := InodeOf(w, i)]
    && Rewritten(InodeOf(v, i), InodeOf(w, i))
    && InodeOf(w, i).size == |buf|
    && Content(w, InodeOf(w, i)) == buf
    && (NothingLost(v, owner, i) ==> NothingLost(w, owner', i))
  }

  predicate WriteRefused(v: Volume, i: nat, w: Volume)
    requires Shape(v) && ValidInode(v, i) && Shape(w) && w.geo == v.geo
  {
    w.inodes == v.inodes && Content(w, InodeOf(w, i)) == Content(v, InodeOf(v, i))
  }

  /** ext2_write_file gets as far as asking for a block. */
  predicate Growing(v: Volume, i: nat, buf: seq<Byte>)
    requires Shape(v)
  {
    && ValidInode(v, i) && InodeOf(v, i).IsFile() && |buf| >= InodeOf(v, i).size
    && BlockCount(v, InodeOf(v, i).size) < BlockCount(v, |buf|) <= MaxLogical(v)
  }

  /** The first block that a growing file asks for is on record behind its last one. */
  predicate FirstTaken(v: Volume, i: nat, owner: Owners)
    requires Shape(v) && ValidInode(v, i) && AllocateBlock(v).found.Some?
  {
    var b := AllocateBlock(v).found.value;
    b in owner && owner[b] == Data(i, BlockCount(v, InodeOf(v, i).size))
  }

  /** A write that succeeds makes the file read back as the buffer; one that fails leaves it as it was;
      neither touches a block of any other inode. */
  lemma WriteFileWrites(v: Volume, owner: Owners, i: nat, buf: seq<Byte>) returns (owner': Owners)
    requires Shape(v) && Agreement(v) && Recorded(v, owner) && |buf| < 0x8000_0000
    requires ValidInode(v, i) && FileAt(v, owner, i)
    ensures var r := WriteFile(v, i, buf);
      && Agreement(r.v) && Recorded(r.v, owner') && Confined(v, owner, r.v, owner', i)
      && FileAt(r.v, owner', i)
      && (if r.ok then WriteDone(v, owner, i, buf, r.v, owner') else WriteRefused(v, i, r.v))
      && (Growing(v, i, buf) && AllocateBlock(v).found.Some? ==> FirstTaken(v, i, owner'))
      && NoReturn(v, owner, i, InodeOf(v, i), r.v, InodeOf(r.v, i))
  {
    hide Mapped, Tables, Tied, DataTied, Kept, Agreement, Sound, Content, Recorded, MaxLogical, GrowFile, FillFile,
      CeilDiv, DataHeld, NoReturn;
    var node := InodeOf(v, i);
    owner' := owner;
    KeptSame(v, owner, i);
    KeptConfined(v, owner, v, owner, i);
    NoReturnSame(v, owner, i, node);
    var n := BlockCount(v, |buf|);
    if node.IsFile() && |buf| >= node.size && n <= MaxLogical(v) {
      BlockCountMono(v, node.size, |buf|);
      owner' := GrowFileGrows(v, owner, i, node, BlockCount(v, node.size), n);
      var g := GrowFile(v, node, BlockCount(v, node.size), n);
      KeptConfined(v, owner, g.v, owner', i);
      KeptInodes(v, owner, g.v, owner', i);
      if !g.ok {
        OldInodeKeepsFile(v, owner, g.v, owner', i, node, g.node, BlockCount(v, node.size));
        OldInodeNoReturn(v, owner, g.v, owner', i, node, g.node, BlockCount(v, node.size));
      } else {
        FillFileFills(g.v, owner', i, g.node, buf, 0);
        FillAndFinish(v, owner, i, buf, g, owner', WriteFile(v, i, buf).v);
      }
    }
  }

  lemma NoReturnSame(v: Volume, owner: Owners, i: nat, node: Inode)
    requires Shape(v) && node.Fits()
    ensures NoReturn(v, owner, i, node, v, node)
  {
  }

  lemma NoReturnMapped(v: Volume, owner: Owners, i: nat, node: Inode, w: Volume, node': Inode, x: Volume, node'': Inode)
    requires Shape(v) && Shape(w) && Shape(x) && w.geo == x.geo && node.Fits() && node'.Fits() && node''.Fits()
    requires NoReturn(v, owner, i, node, w, node') && node''.size == node'.size
    requires BlockCount(w, node'.size) <= MaxLogical(w)
    requires forall l :: 0 <= l < MaxLogical(w) ==> Mapped(x, node'', l) == Mapped(w, node', l)
    ensures NoReturn(v, owner, i, node, x, node'')
  {
    hide Mapped, MaxLogical, CeilDiv;
  }

  lemma BlockCountMono(v: Volume, a: nat, b: nat)
    requires Shape(v) && a <= b
    ensures BlockCount(v, a) <= BlockCount(v, b)
  {
    DivMono(a + v.geo.blockSize - 1, b + v.geo.blockSize - 1, v.geo.blockSize);
  }

  lemma KeptInodes(v: Volume, owner: Owners, w: Volume, owner': Owners, i: nat)
    requires Shape(v) && Shape(w) && Kept(v, owner, w, owner', i)
    ensures w.inodes == v.inodes
  {
  }

  lemma FillAndFinish(v: Volume, owner: Owners, i: nat, buf: seq<Byte>, g: Growth, owner': Owners, w: Volume)
    requires Shape(v) && Shape(g.v) && g.v.geo == v.geo && Recorded(v, owner) && |buf| < 0x8000_0000
    requires ValidInode(v, i) && InodeOf(v, i).IsFile() && |buf| >= InodeOf(v, i).size && g.node.Fits()
    requires GrownFile(v, owner, i, InodeOf(v, i), BlockCount(v, InodeOf(v, i).size), BlockCount(v, |buf|), g, owner')
    requires g.ok && g.v.inodes == v.inodes && Confined(v, owner, g.v, owner', i)
    requires Shape(w) && w == WithInode(FillFile(g.v, g.node, buf, 0).v, i, Written(v, g.node, |buf|))
    ensures w.geo == v.geo && Agreement(w) && Recorded(w, owner') && Confined(v, owner, w, owner', i)
    ensures FileAt(w, owner', i) && WriteDone(v, owner, i, buf, w, owner')
    ensures NoReturn(v, owner, i, InodeOf(v, i), w, InodeOf(w, i))
  {
    hide Mapped, Tables, Tied, DataTied, Kept, Agreement, Content, GrowFile, FillFile, CeilDiv, DataHeld, Filled,
      Confined, Recorded, OnlyDataOf, NoReturn, NothingLost, FileAt;
    var n := BlockCount(v, |buf|);
    var f := FillFile(g.v, g.node, buf, 0).v;
    var node' := Written(v, g.node, |buf|);
    FilledAt(g, owner', i, buf, node', w);
    OnlyDataFacts(g.v, owner', f, w, i);
    RecordedUsed(v, owner);
    ConfinedThen(v, owner, g.v, owner', i, w);
    GrownNoReturn(v, owner, i, InodeOf(v, i), g, owner', w, node', n);
    GrownPlaced(v, owner, i, g, owner', n);
  }

  lemma GrownPlaced(v: Volume, owner: Owners, i: nat, g: Growth, owner': Owners, n: nat)
    requires Shape(v) && Shape(g.v) && g.v.geo == v.geo && ValidInode(v, i) && g.node.Fits() && g.ok
    requires GrownFile(v, owner, i, InodeOf(v, i), BlockCount(v, InodeOf(v, i).size), n, g, owner')
    ensures NothingLost(v, owner, i) ==> Tied(g.v, owner', i, g.node) && DataTied(g.v, owner', i, g.node, n)
    ensures Rewritten(InodeOf(v, i), g.node)
  {
    hide Mapped, Tables, Tied, DataTied, Kept, Agreement, Recorded, CeilDiv, DataHeld;
  }

  /** Filling a file that has its blocks, and writing its inode back with the size of the buffer. */
  lemma FilledAt(g: Growth, owner: Owners, i: nat, buf: seq<Byte>, node: Inode, w: Volume)
    requires Shape(g.v) && Shape(w) && g.node.Fits() && node.Fits() && ValidInode(g.v, i)
    requires FileTree(g.v, owner, i, g.node, BlockCount(g.v, |buf|)) && SamePointers(g.node, node) && node.size == |buf|
    requires w == WithInode(FillFile(g.v, g.node, buf, 0).v, i, node)
    ensures var n := BlockCount(g.v, |buf|);
      && n <= MaxLogical(g.v) && FillFile(g.v, g.node, buf, 0).ok
      && OnlyDataOf(g.v, owner, FillFile(g.v, g.node, buf, 0).v, i)
      && FileAt(w, owner, i) && Content(w, InodeOf(w, i)) == buf
      && (forall x :: 0 <= x < MaxLogical(g.v) ==> Mapped(w, node, x) == Mapped(g.v, g.node, x))
      && (Tied(g.v, owner, i, g.node) && DataTied(g.v, owner, i, g.node, n) ==> NothingLost(w, owner, i))
  {
    hide Mapped, Tables, Tied, DataTied, Content, FillFile, CeilDiv, Filled, OnlyDataOf, Sound;
    var n := BlockCount(g.v, |buf|);
    var f := FillFile(g.v, g.node, buf, 0).v;
    FillFileFills(g.v, owner, i, g.node, buf, 0);
    HeldFits(g.v, owner, i, g.node, n);
    SameStoreTree(f, owner, i, g.node, w, node, n);
    FilledSame(f, g.node, buf, w, node);
    FilledContent(w, node, buf);
    if DataTied(g.v, owner, i, g.node, n) {
      TiedSame(g.v, owner, i, g.node, f, n);
    }
  }

  lemma GrownNoReturn(v: Volume, owner: Owners, i: nat, node: Inode, g: Growth, owner': Owners, w: Volume,
                      node': Inode, n: nat)
    requires Shape(v) && Shape(g.v) && Shape(w) && g.v.geo == v.geo == w.geo && node.Fits() && g.node.Fits()
    requires node'.Fits()
    requires GrownFile(v, owner, i, node, BlockCount(v, node.size), n, g, owner') && g.ok
    requires BlockCount(w, node'.size) == n
    requires n <= MaxLogical(v) && forall x :: 0 <= x < MaxLogical(v) ==> Mapped(w, node', x) == Mapped(g.v, g.node, x)
    ensures NoReturn(v, owner, i, node, w, node')
  {
    hide Mapped, Tables, Tied, DataTied, Kept, Agreement, Recorded, CeilDiv, DataHeld, MaxLogical;
  }

  lemma HeldFits(v: Volume, owner: Owners, i: nat, node: Inode, n: nat)
    requires Shape(v) && node.Fits() && DataHeld(v, owner, i, node, n)
    ensures n <= MaxLogical(v)
  {
  }

  lemma TiedSame(v: Volume, owner: Owners, i: nat, node: Inode, w: Volume, n: nat)
    requires Shape(v) && Shape(w) && node.Fits() && w.geo == v.geo && DataTied(v, owner, i, node, n)
    requires n <= MaxLogical(v)
    requires forall x :: 0 <= x < MaxLogical(v) ==> Mapped(w, node, x) == Mapped(v, node, x)
    ensures DataTied(w, owner, i, node, n)
  {
    hide Mapped;
  }

  lemma FilledSame(v: Volume, node: Inode, buf: seq<Byte>, w: Volume, node': Inode)
    requires Shape(v) && Shape(w) && w.geo == v.geo && w.store == v.store && node.Fits() && node'.Fits()
    requires Filled(v, node, buf, 0) && BlockCount(v, |buf|) <= MaxLogical(v)
    requires forall x :: 0 <= x < MaxLogical(v) ==> Mapped(w, node', x) == Mapped(v, node, x)
    ensures Filled(w, node', buf, 0)
  {
    hide Mapped, CeilDiv;
  }

  lemma OnlyDataFacts(v: Volume, owner: Owners, f: Volume, w: Volume, i: nat)
    requires Shape(v) && Shape(f) && Shape(w) && OnlyDataOf(v, owner, f, i) && w == f.(inodes := w.inodes)
    requires Agreement(v) && Recorded(v, owner)
    ensures w == v.(store := w.store, inodes := w.inodes) && f.inodes == v.inodes
    ensures Agreement(w) && Recorded(w, owner)
    ensures forall b :: b in owner && owner[b].inode != i && b < |v.store| ==> w.store[b] == v.store[b]
    ensures forall b :: b in owner ==> b < |v.store|
    ensures forall b :: 0 <= b < |v.store| ==> |w.store[b]| == |v.store[b]|
  {
  }
}
