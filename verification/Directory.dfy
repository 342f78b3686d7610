/** A directory as the sequence of its blocks: lookup, adding and removing a name. */
module Directories {
  import opened Bytes
  import opened Geometry
  import opened Volumes
  import opened PointerTree
  import opened Ownership
  import opened Files
  import opened DirBlock

  // ---- the meaning of a sequence of directory blocks ----

  /** The first block that binds a name decides. */
  function NamesOf(blocks: seq<Block>): map<Name, nat> {
    if blocks == [] then map[] else NamesOf(blocks[1..]) + Names(blocks[0])
  }

  /** Every block is a tiling by valid records and no name occurs twice. */
  predicate WellFormed(blocks: seq<Block>) {
    blocks == [] || (
      && Tiled(blocks[0]) && Unique(blocks[0])
      && Names(blocks[0]).Keys !! NamesOf(blocks[1..]).Keys
      && WellFormed(blocks[1..]))
  }

  lemma {:induction false} WellFormedAt(blocks: seq<Block>, k: nat)
    requires WellFormed(blocks) && k < |blocks|
    ensures Tiled(blocks[k]) && Unique(blocks[k])
    ensures forall n :: n in Names(blocks[k]) ==> n in NamesOf(blocks) && NamesOf(blocks)[n] == Names(blocks[k])[n]
  {
    hide Names, Tiled, Unique;
    if k > 0 {
      WellFormedAt(blocks[1..], k - 1);
    }
  }

  lemma BindInSum(m: map<Name, nat>, n: map<Name, nat>, name: Name, inode: nat)
    ensures m + n[name := inode] == (m + n)[name := inode]
    ensures name !in n ==> m[name := inode] + n == (m + n)[name := inode]
  {
  }

  lemma UnbindInSum(m: map<Name, nat>, n: map<Name, nat>, name: Name)
    requires m.Keys !! n.Keys
    ensures name in n ==> m + (n - {name}) == (m + n) - {name}
    ensures name in m ==> (m - {name}) + n == (m + n) - {name}
  {
  }

  lemma {:induction false} BindIn(blocks: seq<Block>, k: nat, b: Block, name: Name, inode: nat)
    requires WellFormed(blocks) && k < |blocks| && name !in NamesOf(blocks)
    requires Tiled(b) && Unique(b) && Names(b) == Names(blocks[k])[name := inode]
    ensures WellFormed(blocks[k := b]) && NamesOf(blocks[k := b]) == NamesOf(blocks)[name := inode]
  {
    hide Names, Tiled, Unique;
    BindInSum(NamesOf(blocks[1..]), Names(blocks[0]), name, inode);
    if k == 0 {
      assert blocks[0 := b][1..] == blocks[1..];
    } else {
      assert blocks[k := b][1..] == blocks[1..][k - 1 := b];
      BindIn(blocks[1..], k - 1, b, name, inode);
    }
  }

  lemma {:induction false} BindAtEnd(blocks: seq<Block>, b: Block, name: Name, inode: nat)
    requires WellFormed(blocks) && name !in NamesOf(blocks)
    requires Tiled(b) && Unique(b) && Names(b) == map[name := inode]
    ensures WellFormed(blocks + [b]) && NamesOf(blocks + [b]) == NamesOf(blocks)[name := inode]
  {
    hide Names, Tiled, Unique;
    if blocks == [] {
      assert (blocks + [b])[1..] == [];
    } else {
      assert (blocks + [b])[1..] == blocks[1..] + [b];
      BindInSum(NamesOf(blocks[1..]), Names(blocks[0]), name, inode);
      BindAtEnd(blocks[1..], b, name, inode);
    }
  }

  lemma {:induction false} UnbindIn(blocks: seq<Block>, k: nat, b: Block, name: Name)
    requires WellFormed(blocks) && k < |blocks| && name in Names(blocks[k])
    requires Tiled(b) && Unique(b) && Names(b) == Names(blocks[k]) - {name}
    ensures WellFormed(blocks[k := b]) && NamesOf(blocks[k := b]) == NamesOf(blocks) - {name}
  {
    hide Names, Tiled, Unique;
    UnbindInSum(NamesOf(blocks[1..]), Names(blocks[0]), name);
    if k == 0 {
      assert blocks[0 := b][1..] == blocks[1..];
    } else {
      assert blocks[k := b][1..] == blocks[1..][k - 1 := b];
      WellFormedAt(blocks[1..], k - 1);
      UnbindIn(blocks[1..], k - 1, b, name);
    }
  }

  // ---- the blocks of a directory inode ----

  function BlockOf(v: Volume, node: Inode, l: nat): Block
    requires Shape(v) && node.Fits()
  {
    var b := Mapped(v, node, l);
    if Plain(v, b) then v.store[b] else []
  }

  function DirBlocks(v: Volume, node: Inode): (r: seq<Block>)
    requires Shape(v) && node.Fits()
    ensures |r| == BlockCount(v, node.size)
  {
    seq(BlockCount(v, node.size), l requires l >= 0 => BlockOf(v, node, l))
  }

  /** A directory whose blocks are all there, whole, and well formed. */
  predicate DirOk(v: Volume, node: Inode)
    requires Shape(v) && node.Fits()
  {
    node.size == BlockCount(v, node.size) * v.geo.blockSize && WellFormed(DirBlocks(v, node))
  }

  /** What the directory means. */
  function DirMap(v: Volume, node: Inode): map<Name, nat>
    requires Shape(v) && node.Fits()
  {
    NamesOf(DirBlocks(v, node))
  }

  // ---- lookup ----

  function FindFrom(v: Volume, node: Inode, name: Name, l: nat): Option<nat>
    requires Shape(v) && node.Fits()
    decreases BlockCount(v, node.size) - l
  {
    if l >= BlockCount(v, node.size) then None
    else
      var b := Mapped(v, node, l);
      if b == 0 || !Plain(v, b) then None
      else
        StartOfBlock(v, node.size, l);
        var limit := Min(v.geo.blockSize, node.size - l * v.geo.blockSize);
        var r := FindIn(v.store[b][..limit], name);
        if r.Some? then r else FindFrom(v, node, name, l + 1)
  }

  /** ext2_find_inode_in_dir. */
  function FindInDir(v: Volume, dir: nat, name: Name): Option<nat>
    requires Shape(v)
  {
    if |name| == 0 || |name| > EXT2_MAX_NAME_LEN || !ValidInode(v, dir) || !InodeOf(v, dir).IsDir() then None
    else FindFrom(v, InodeOf(v, dir), name, 0)
  }

  lemma WholeBlock(v: Volume, size: nat, l: nat)
    requires Shape(v) && l < BlockCount(v, size) && size == BlockCount(v, size) * v.geo.blockSize
    ensures Min(v.geo.blockSize, size - l * v.geo.blockSize) == v.geo.blockSize
  {
    MulMono(l + 1, BlockCount(v, size), v.geo.blockSize);
    assert (l + 1) * v.geo.blockSize == l * v.geo.blockSize + v.geo.blockSize;
  }

  lemma {:induction false} FindFromNames(v: Volume, owner: Owners, dir: nat, node: Inode, name: Name, l: nat)
    requires Shape(v) && node.Fits() && DataHeld(v, owner, dir, node, BlockCount(v, node.size))
    requires node.size == BlockCount(v, node.size) * v.geo.blockSize && l <= BlockCount(v, node.size)
    ensures var m := NamesOf(DirBlocks(v, node)[l..]);
      FindFrom(v, node, name, l) == if name in m then Some(m[name]) else None
    decreases BlockCount(v, node.size) - l
  {
    hide Mapped, Names, FindIn, CeilDiv;
    if l < BlockCount(v, node.size) {
      var blocks := DirBlocks(v, node);
      var b := Mapped(v, node, l);
      assert Holds(v, owner, b, Data(dir, l));
      WholeBlock(v, node.size, l);
      assert v.store[b][..v.geo.blockSize] == v.store[b];
      FindInNames(v.store[b], name);
      FindFromNames(v, owner, dir, node, name, l + 1);
      assert blocks[l..][0] == v.store[b] && blocks[l..][1..] == blocks[l + 1..];
    }
  }

  /** Lookup computes the meaning of the directory. */
  lemma FindInDirLooksUp(v: Volume, owner: Owners, dir: nat, name: Name)
    requires Shape(v) && ValidInode(v, dir) && InodeOf(v, dir).IsDir() && FileAt(v, owner, dir)
    requires DirOk(v, InodeOf(v, dir)) && 0 < |name| <= EXT2_MAX_NAME_LEN
    ensures var m := DirMap(v, InodeOf(v, dir));
      FindInDir(v, dir, name) == if name in m then Some(m[name]) else None
  {
    hide Mapped, CeilDiv;
    var node := InodeOf(v, dir);
    FindFromNames(v, owner, dir, node, name, 0);
    assert DirBlocks(v, node)[0..] == DirBlocks(v, node);
  }

  // ---- adding ----

  /** The loop of add_directory_entry over the blocks a directory has. */
  function AddFrom(v: Volume, node: Inode, inode: nat, name: Name, kind: Byte, l: nat): (r: Growth)
    requires Shape(v) && node.Fits() && Addable(inode, name)
    ensures Shape(r.v) && r.v.geo == v.geo && r.node.Fits()
    decreases if l < BlockCount(v, node.size) then BlockCount(v, node.size) - l else 0
  {
    if l >= BlockCount(v, node.size) then AddBlock(v, node, inode, name, kind)
    else
      var b := Mapped(v, node, l);
      if b == 0 || !Plain(v, b) then Growth(v, node, false)
      else
        match AddIn(v.store[b], inode, name, kind)
        case None => AddFrom(v, node, inode, name, kind, l + 1)
        case Some(x) =>
          AddInLength(v.store[b], inode, name, kind);
          Growth(StoreBlock(v, b, x), node, true)
  }

  /** add_directory_entry. */
  function AddEntry(v: Volume, node: Inode, inode: nat, name: Name, kind: Byte): (r: Growth)
    requires Shape(v) && node.Fits() && Addable(inode, name)
    ensures Shape(r.v) && r.v.geo == v.geo && r.node.Fits()
  {
    AddFrom(v, node, inode, name, kind, 0)
  }

  /** No slot in the existing blocks: append a block with one record that fills it. */
  function AddBlock(v: Volume, node: Inode, inode: nat, name: Name, kind: Byte): (r: Growth)
    requires Shape(v) && node.Fits() && Addable(inode, name)
    ensures Shape(r.v) && r.v.geo == v.geo && r.node.Fits()
  {
    var n := BlockCount(v, node.size);
    if n >= 12 then Growth(v, node, false)
    else
      var a := AllocateBlock(v);
      if a.found.None? then Growth(a.v, node, false)
      else
        var r := SetInodeBlock(a.v, node, n, a.found.value);
        if !r.ok || !Plain(r.v, a.found.value) then Growth(r.v, r.node, false)
        else
          SmallSize(v, node.size);
          var x := Splice(Zeros(v.geo.blockSize), 0, Record(inode, v.geo.blockSize, name, kind));
          Growth(StoreBlock(r.v, a.found.value, x),
                 r.node.(size := node.size + v.geo.blockSize,
                         blocks := (node.blocks + v.geo.blockSize / 512) % 0x1_0000_0000),
                 true)
  }

  lemma SmallSize(v: Volume, size: nat)
    requires Shape(v) && BlockCount(v, size) < 12
    ensures size <= 12 * v.geo.blockSize
  {
    DivMod(size + v.geo.blockSize - 1, v.geo.blockSize);
    MulMono(BlockCount(v, size), 12, v.geo.blockSize);
  }

  lemma {:induction false} AddInLength(s: seq<Byte>, inode: nat, name: Name, kind: Byte)
    requires Addable(inode, name) && AddIn(s, inode, name, kind).Some?
    ensures |AddIn(s, inode, name, kind).value| == |s|
    decreases |s|
  {
    if !Live(s) && RecLen(s) >= Required(|name|) {
    } else if Live(s) && RecLen(s) >= Required(NameLen(s)) + Required(|name|) {
    } else {
      AddInLength(Rest(s), inode, name, kind);
    }
  }

  /** Overwriting logical block `l` of a directory replaces that block of its sequence and nothing else. */
  lemma PatchBlock(v: Volume, owner: Owners, dir: nat, node: Inode, l: nat, x: Block)
    requires Shape(v) && Agreement(v) && Recorded(v, owner) && node.Fits() && |x| == v.geo.blockSize
    requires FileTree(v, owner, dir, node, BlockCount(v, node.size)) && l < BlockCount(v, node.size)
    ensures Plain(v, Mapped(v, node, l)) && Mapped(v, node, l) != 0
    ensures var w := StoreBlock(v, Mapped(v, node, l), x);
      && OnlyDataOf(v, owner, w, dir) && FileTree(w, owner, dir, node, BlockCount(v, node.size))
      && DirBlocks(w, node) == DirBlocks(v, node)[l := x]
      && Agreement(w) && Recorded(w, owner) && Confined(v, owner, w, owner, dir)
      && (Tied(v, owner, dir, node) ==> Tied(w, owner, dir, node))
      && (DataTied(v, owner, dir, node, BlockCount(v, node.size)) ==>
            DataTied(w, owner, dir, node, BlockCount(v, node.size)))
      && NoReturn(v, owner, dir, node, w, node)
  {
    hide Mapped, Tables, CeilDiv, Sound, Tied, NoReturn;
    var n := BlockCount(v, node.size);
    var b := Mapped(v, node, l);
    assert Holds(v, owner, b, Data(dir, l));
    var w := StoreBlock(v, b, x);
    OnlyDataTables(v, owner, w, dir, node);
    OtherDataKept(v, owner, w, dir, node, n, l);
    NoReturnSame(v, owner, dir, node);
    NoReturnMapped(v, owner, dir, node, v, node, w, node);
    forall k | 0 <= k < n
      ensures BlockOf(w, node, k) == if k == l then x else BlockOf(v, node, k)
    {
      assert Holds(v, owner, Mapped(v, node, k), Data(dir, k));
    }
  }

  /** What add_directory_entry may do to the volume and to the directory inode. */
  predicate EntryAdded(v: Volume, owner: Owners, dir: nat, node: Inode, inode: nat, name: Name, r: Growth,
                       owner': Owners)
    requires Shape(v) && Shape(r.v) && r.v.geo == v.geo && node.Fits() && r.node.Fits()
  {
    && Agreement(r.v) && Recorded(r.v, owner') && Confined(v, owner, r.v, owner', dir) && r.v.inodes == v.inodes
    && (!r.ok ==> r.v == v && owner' == owner)
    && (r.ok ==>
          && FileTree(r.v, owner', dir, r.node, BlockCount(r.v, r.node.size))
          && DirOk(r.v, r.node) && DirMap(r.v, r.node) == DirMap(v, node)[name := inode]
          && Rewritten(node, r.node)
          && (AllPlaced(v, owner, dir, node) ==> AllPlaced(r.v, owner', dir, r.node))
          && NoReturn(v, owner, dir, node, r.v, r.node)
          && (r.node.size <= node.size || r.node.size <= 13 * v.geo.blockSize)
          && (r.node.size == node.size ==> r.node == node && owner' == owner && r.v == v.(store := r.v.store)))
  }

  /** The blocks of a directory after an entry was added: one of them took it, or there is one more. */
  predicate BlocksGained(blocks: seq<Block>, blocks': seq<Block>, inode: nat, name: Name, kind: Byte, size: nat) {
    && Addable(inode, name) && 8 + |name| <= size < 0x1_0000
    && ((exists l :: 0 <= l < |blocks| && PatchedAt(blocks, blocks', l, AddIn(blocks[l], inode, name, kind)))
        || blocks' == blocks + [Splice(Zeros(size), 0, Record(inode, size, name, kind))])
  }

  predicate PatchedAt(blocks: seq<Block>, blocks': seq<Block>, l: nat, x: Option<Block>)
    requires l < |blocks|
  {
    x.Some? && blocks' == blocks[l := x.value]
  }

  // ---- when there is room ----

  /** The directory has a place for a name of length `n`, or can get a block for it. */
  predicate CanAdd(v: Volume, node: Inode, n: nat)
    requires Shape(v) && node.Fits()
  {
    RoomInside(DirBlocks(v, node), n) || (BlockCount(v, node.size) < 12 && v.freeBlocks > 0)
  }

  predicate RoomInside(blocks: seq<Block>, n: nat) {
    exists l :: 0 <= l < |blocks| && HasRoom(blocks[l], n)
  }

  lemma {:induction false} AddFromSucceeds(v: Volume, owner: Owners, dir: nat, node: Inode, inode: nat, name: Name,
                                           kind: Byte, l: nat)
    requires Shape(v) && Agreement(v) && node.Fits() && DataHeld(v, owner, dir, node, BlockCount(v, node.size))
    requires Addable(inode, name) && l <= BlockCount(v, node.size) && Recorded(v, owner)
    ensures AddFrom(v, node, inode, name, kind, l).ok
      <==> RoomInside(DirBlocks(v, node)[l..], |name|) || (BlockCount(v, node.size) < 12 && v.freeBlocks > 0)
    decreases BlockCount(v, node.size) - l
  {
    hide Mapped, AddIn, HasRoom, CeilDiv, Agreement, AllocateBlock, Record, Splice;
    var blocks := DirBlocks(v, node);
    if l >= BlockCount(v, node.size) {
      AddBlockSucceeds(v, node, inode, name, kind);
    } else {
      var b := Mapped(v, node, l);
      NullNotRecorded(v, owner);
      assert Holds(v, owner, b, Data(dir, l));
      assert blocks[l] == v.store[b];
      AddInNeedsRoom(v.store[b], inode, name, kind);
      AddFromSucceeds(v, owner, dir, node, inode, name, kind, l + 1);
      RoomFrom(blocks, l, |name|);
    }
  }

  lemma NullNotRecorded(v: Volume, owner: Owners)
    requires Shape(v) && Recorded(v, owner)
    ensures 0 !in owner
  {
  }

  lemma RoomFrom(blocks: seq<Block>, l: nat, n: nat)
    requires l < |blocks|
    ensures RoomInside(blocks[l..], n) <==> HasRoom(blocks[l], n) || RoomInside(blocks[l + 1..], n)
  {
    hide HasRoom;
    if HasRoom(blocks[l], n) {
      assert blocks[l..][0] == blocks[l];
    }
    if RoomInside(blocks[l + 1..], n) {
      var k :| 0 <= k < |blocks[l + 1..]| && HasRoom(blocks[l + 1..][k], n);
      assert blocks[l..][k + 1] == blocks[l + 1..][k];
    }
    if RoomInside(blocks[l..], n) && !HasRoom(blocks[l], n) {
      var k :| 0 <= k < |blocks[l..]| && HasRoom(blocks[l..][k], n);
      assert k > 0 && blocks[l + 1..][k - 1] == blocks[l..][k];
    }
  }

  lemma AddBlockSucceeds(v: Volume, node: Inode, inode: nat, name: Name, kind: Byte)
    requires Shape(v) && Agreement(v) && node.Fits() && Addable(inode, name)
    ensures AddBlock(v, node, inode, name, kind).ok <==> BlockCount(v, node.size) < 12 && v.freeBlocks > 0
  {
    hide AllocateBlock, CeilDiv, Agreement, Record, Splice;
    AllocationNeedsFree(v);
    var a := AllocateBlock(v);
    if BlockCount(v, node.size) < 12 && a.found.Some? {
      AllocateBlockLowest(v);
      SetDirectBlock(a.v, node, BlockCount(v, node.size), a.found.value);
    }
  }

  /** add_directory_entry succeeds exactly when the directory can take the name. */
  lemma AddEntrySucceeds(v: Volume, owner: Owners, dir: nat, node: Inode, inode: nat, name: Name, kind: Byte)
    requires Shape(v) && Agreement(v) && Recorded(v, owner) && node.Fits() && Addable(inode, name)
    requires DataHeld(v, owner, dir, node, BlockCount(v, node.size))
    ensures AddEntry(v, node, inode, name, kind).ok <==> CanAdd(v, node, |name|)
  {
    hide AddFrom, DirBlocks, HasRoom, DataHeld, CeilDiv;
    AddFromSucceeds(v, owner, dir, node, inode, name, kind, 0);
    assert DirBlocks(v, node)[0..] == DirBlocks(v, node);
  }

  lemma {:induction false} AddFromBinds(v: Volume, owner: Owners, dir: nat, node: Inode, inode: nat, name: Name,
                                        kind: Byte, l: nat) returns (owner': Owners)
    requires Shape(v) && Agreement(v) && Recorded(v, owner) && node.Fits()
    requires FileTree(v, owner, dir, node, BlockCount(v, node.size)) && DirOk(v, node)
    requires Addable(inode, name) && 0 < |name| && name !in DirMap(v, node)
    ensures EntryAdded(v, owner, dir, node, inode, name, AddFrom(v, node, inode, name, kind, l), owner')
    ensures var r := AddFrom(v, node, inode, name, kind, l);
      r.ok ==> BlocksGained(DirBlocks(v, node), DirBlocks(r.v, r.node), inode, name, kind, v.geo.blockSize)
    decreases if l < BlockCount(v, node.size) then BlockCount(v, node.size) - l else 0
  {
    hide Mapped, Names, Tiled, Unique, AddIn, CeilDiv, Tables, Confined, Agreement, Recorded, NamesOf, WellFormed, Tied,
      DataTied, OnlyDataOf;
    if l >= BlockCount(v, node.size) {
      owner' := AddBlockBinds(v, owner, dir, node, inode, name, kind);
    } else {
      var blocks := DirBlocks(v, node);
      var b := Mapped(v, node, l);
      assert Holds(v, owner, b, Data(dir, l));
      assert blocks[l] == v.store[b];
      WellFormedAt(blocks, l);
      match AddIn(v.store[b], inode, name, kind) {
        case None =>
          owner' := AddFromBinds(v, owner, dir, node, inode, name, kind, l + 1);
        case Some(x) =>
          owner' := owner;
          AddInBinds(v.store[b], inode, name, kind);
          PatchBlock(v, owner, dir, node, l, x);
          BindIn(blocks, l, x, name, inode);
      }
    }
  }

  lemma AddBlockBinds(v: Volume, owner: Owners, dir: nat, node: Inode, inode: nat, name: Name, kind: Byte)
    returns (owner': Owners)
    requires Shape(v) && Agreement(v) && Recorded(v, owner) && node.Fits()
    requires FileTree(v, owner, dir, node, BlockCount(v, node.size)) && DirOk(v, node)
    requires Addable(inode, name) && 0 < |name| && name !in DirMap(v, node)
    ensures EntryAdded(v, owner, dir, node, inode, name, AddBlock(v, node, inode, name, kind), owner')
    ensures var r := AddBlock(v, node, inode, name, kind);
      r.ok ==> BlocksGained(DirBlocks(v, node), DirBlocks(r.v, r.node), inode, name, kind, v.geo.blockSize)
  {
    hide Mapped, Names, CeilDiv, Tables, Confined, Agreement, Recorded, Kept, AllocateBlock, SetInodeBlock, NamesOf,
      WellFormed, DirBlocks, DataHeld;
    var n := BlockCount(v, node.size);
    owner' := owner;
    KeptSame(v, owner, dir);
    KeptConfined(v, owner, v, owner, dir);
    if n < 12 {
      var o1 := AllocateFor(v, owner, Data(dir, n));
      var a := AllocateBlock(v);
      if a.found.Some? {
        owner' := AppendBinds(v, owner, dir, node, inode, name, kind, a.v, o1, a.found.value);
      }
    }
  }

  /** The rest of it, once block `b` was allocated. */
  lemma AppendBinds(v: Volume, owner: Owners, dir: nat, node: Inode, inode: nat, name: Name, kind: Byte,
                    w: Volume, o1: Owners, b: nat) returns (owner': Owners)
    requires Shape(v) && Agreement(v) && Recorded(v, owner) && node.Fits()
    requires FileTree(v, owner, dir, node, BlockCount(v, node.size)) && DirOk(v, node)
    requires Addable(inode, name) && 0 < |name| && name !in DirMap(v, node) && BlockCount(v, node.size) < 12
    requires Shape(w) && Agreement(w) && Recorded(w, o1) && Kept(v, owner, w, o1, dir)
    requires 0 < b < |v.store| && b !in owner && o1 == owner[b := Data(dir, BlockCount(v, node.size))] && Plain(w, b)
    requires w.geo == v.geo && b < 0x1_0000_0000 && w.store == v.store[b := Zeros(v.geo.blockSize)]
    requires AllocateBlock(v) == Allocation(w, Some(b))
    ensures EntryAdded(v, owner, dir, node, inode, name, AddBlock(v, node, inode, name, kind), owner')
    ensures var r := AddBlock(v, node, inode, name, kind);
      r.ok ==> BlocksGained(DirBlocks(v, node), DirBlocks(r.v, r.node), inode, name, kind, v.geo.blockSize)
  {
    hide Mapped, Names, Tiled, Unique, CeilDiv, Tables, Confined, Agreement, Recorded, Tied, DataTied, Kept,
      AllocateBlock, SetInodeBlock, NamesOf, WellFormed, DirBlocks, GrownFile, DataHeld, EntryAdded, DirOk, FileTree;
    var n := BlockCount(v, node.size);
    SetDirectBlock(w, node, n, b);
    SmallLogical(v);
    var r, o2 := GrowStep(v, owner, dir, node, n, w, o1, b);
    owner' := o2;
    SingleRecord(v.geo.blockSize, inode, name, kind);
    SmallSize(v, node.size);
    FinishAppend(v, owner, dir, node, inode, name, b, r, o2,
      Splice(Zeros(v.geo.blockSize), 0, Record(inode, v.geo.blockSize, name, kind)),
      r.node.(size := node.size + v.geo.blockSize,
              blocks := (node.blocks + v.geo.blockSize / 512) % 0x1_0000_0000));
  }

  lemma SmallLogical(v: Volume)
    requires Shape(v)
    ensures 12 <= MaxLogical(v)
  {
    MulMono(0, Pointers(v), Pointers(v));
  }

  lemma FinishAppend(v: Volume, owner: Owners, dir: nat, node: Inode, inode: nat, name: Name, b: nat, r: Growth,
                     owner': Owners, x: Block, node': Inode)
    requires Shape(v) && node.Fits() && DirOk(v, node) && Appended(v, owner, dir, node, b, r, owner', x, node')
    requires name !in DirMap(v, node) && Tiled(x) && Unique(x) && Names(x) == map[name := inode]
    ensures Plain(r.v, b)
    ensures EntryAdded(v, owner, dir, node, inode, name, Growth(StoreBlock(r.v, b, x), node', true), owner')
    ensures DirBlocks(StoreBlock(r.v, b, x), node') == DirBlocks(v, node) + [x]
  {
    hide Mapped, Names, Tiled, Unique, CeilDiv, Tables, Confined, Agreement, Recorded, Tied, DataTied, Kept,
      NamesOf, WellFormed, GrownFile, FileTree, DirBlocks;
    SmallSize(v, node.size);
    AppendedConfined(v, owner, dir, node, b, r, owner', x, node');
    AppendedTree(v, owner, dir, node, b, r, owner', x, node');
    AppendedBlocks(v, owner, dir, node, b, r, owner', x, node');
    AppendedPlaced(v, owner, dir, node, b, r, owner', x, node');
    BindAtEnd(DirBlocks(v, node), x, name, inode);
  }

  /** A directory that got block `b` for its next logical block `n`, which was then filled with `x`. */
  predicate Appended(v: Volume, owner: Owners, dir: nat, node: Inode, b: nat, r: Growth, owner': Owners, x: Block,
                     node': Inode)
    requires Shape(v) && node.Fits()
  {
    && BlockCount(v, node.size) < 12
    && FileTree(v, owner, dir, node, BlockCount(v, node.size)) && Recorded(v, owner)
    && Shape(r.v) && r.v.geo == v.geo && r.node.Fits() && r.ok
    && b < 0x1_0000_0000 && r.node == node.(direct := node.direct[BlockCount(v, node.size) := b])
    && GrownFile(v, owner, dir, node, BlockCount(v, node.size), BlockCount(v, node.size) + 1, r, owner')
    && |x| == v.geo.blockSize
    && node' == r.node.(size := node.size + v.geo.blockSize, blocks := node'.blocks) && node'.Fits()
  }

  lemma AppendedHolds(v: Volume, owner: Owners, dir: nat, node: Inode, b: nat, r: Growth, owner': Owners, x: Block,
                      node': Inode)
    requires Shape(v) && node.Fits() && Appended(v, owner, dir, node, b, r, owner', x, node')
    ensures Mapped(r.v, r.node, BlockCount(v, node.size)) == b
    ensures Holds(r.v, owner', b, Data(dir, BlockCount(v, node.size)))
    ensures OnlyDataOf(r.v, owner', StoreBlock(r.v, b, x), dir)
  {
    hide Mapped, Tables, Tied, DataTied, Kept, CeilDiv, MaxLogical, Agreement;
    MappedDirect(r.v, r.node, BlockCount(v, node.size));
    DataBlockWritten(r.v, owner', dir, b, x);
  }

  lemma AppendedConfined(v: Volume, owner: Owners, dir: nat, node: Inode, b: nat, r: Growth, owner': Owners, x: Block,
                         node': Inode)
    requires Shape(v) && node.Fits() && Appended(v, owner, dir, node, b, r, owner', x, node')
    ensures Plain(r.v, b)
    ensures var w := StoreBlock(r.v, b, x);
      Agreement(w) && Recorded(w, owner') && Confined(v, owner, w, owner', dir) && w.inodes == v.inodes
  {
    hide Mapped, CeilDiv, Tables, Confined, Agreement, Recorded, Tied, DataTied, Kept, OnlyDataOf, DataHeld, MaxLogical;
    AppendedHolds(v, owner, dir, node, b, r, owner', x, node');
    DataBlockWritten(r.v, owner', dir, b, x);
    KeptConfined(v, owner, r.v, owner', dir);
    KeptInodes(v, owner, r.v, owner', dir);
    RecordedUsed(v, owner);
    ConfinedThen(v, owner, r.v, owner', dir, StoreBlock(r.v, b, x));
  }

  lemma AppendedTree(v: Volume, owner: Owners, dir: nat, node: Inode, b: nat, r: Growth, owner': Owners, x: Block,
                     node': Inode)
    requires Shape(v) && node.Fits() && Appended(v, owner, dir, node, b, r, owner', x, node')
    requires node.size == BlockCount(v, node.size) * v.geo.blockSize
    ensures Plain(r.v, b)
    ensures var w := StoreBlock(r.v, b, x);
      && BlockCount(w, node'.size) == BlockCount(v, node.size) + 1
      && node'.size == BlockCount(w, node'.size) * w.geo.blockSize
      && FileTree(w, owner', dir, node', BlockCount(w, node'.size))
      && (forall l :: 0 <= l < MaxLogical(v) ==> Mapped(w, node', l) == Mapped(r.v, r.node, l))
      && (forall l :: 0 <= l < BlockCount(v, node.size) ==>
            w.store[Mapped(r.v, r.node, l)] == r.v.store[Mapped(r.v, r.node, l)])
  {
    hide Mapped, CeilDiv, Tables, Agreement, Recorded, Tied, DataTied, Kept, OnlyDataOf, Sound;
    var n := BlockCount(v, node.size);
    AppendedHolds(v, owner, dir, node, b, r, owner', x, node');
    OneMoreBlock(v, node.size);
    var w := StoreBlock(r.v, b, x);
    OnlyDataTables(r.v, owner', w, dir, r.node);
    OtherDataKept(r.v, owner', w, dir, r.node, n + 1, n);
    SameStoreTree(w, owner', dir, r.node, w, node', n + 1);
  }

  lemma AppendedBlocks(v: Volume, owner: Owners, dir: nat, node: Inode, b: nat, r: Growth, owner': Owners, x: Block,
                       node': Inode)
    requires Shape(v) && node.Fits() && Appended(v, owner, dir, node, b, r, owner', x, node')
    requires node.size == BlockCount(v, node.size) * v.geo.blockSize && Plain(r.v, b)
    ensures DirBlocks(StoreBlock(r.v, b, x), node') == DirBlocks(v, node) + [x]
  {
    hide Mapped, CeilDiv, Tables, Confined, Agreement, Recorded, Tied, DataTied, Kept, OnlyDataOf, Sound;
    var n := BlockCount(v, node.size);
    AppendedHolds(v, owner, dir, node, b, r, owner', x, node');
    AppendedTree(v, owner, dir, node, b, r, owner', x, node');
    var w := StoreBlock(r.v, b, x);
    forall l | 0 <= l < n + 1
      ensures BlockOf(w, node', l) == if l == n then x else BlockOf(v, node, l)
    {
      if l < n {
        assert Holds(v, owner, Mapped(v, node, l), Data(dir, l));
        assert Holds(w, owner', Mapped(w, node', l), Data(dir, l));
        KeptData(v, owner, r.v, owner', dir, Mapped(v, node, l));
      }
    }
  }

  /** The appended block has its place, and no other lost it. */
  lemma AppendedPlaced(v: Volume, owner: Owners, dir: nat, node: Inode, b: nat, r: Growth, owner': Owners, x: Block,
                       node': Inode)
    requires Shape(v) && node.Fits() && Appended(v, owner, dir, node, b, r, owner', x, node')
    requires node.size == BlockCount(v, node.size) * v.geo.blockSize && Plain(r.v, b)
    ensures AllPlaced(v, owner, dir, node) ==> AllPlaced(StoreBlock(r.v, b, x), owner', dir, node')
    ensures NoReturn(v, owner, dir, node, StoreBlock(r.v, b, x), node')
  {
    hide Mapped, CeilDiv, Tables, Agreement, Recorded, Tied, Kept, OnlyDataOf, Sound, MaxLogical, NoReturn;
    var n := BlockCount(v, node.size);
    AppendedHolds(v, owner, dir, node, b, r, owner', x, node');
    AppendedTree(v, owner, dir, node, b, r, owner', x, node');
    var w := StoreBlock(r.v, b, x);
    SmallLogical(v);
    GrownNoReturn(v, owner, dir, node, r, owner', w, node', n + 1);
    if AllPlaced(v, owner, dir, node) {
      OnlyDataTables(r.v, owner', w, dir, r.node);
      SameStoreTree(w, owner', dir, r.node, w, node', n + 1);
    }
  }

  lemma KeptData(v: Volume, owner: Owners, w: Volume, owner': Owners, i: nat, b: nat)
    requires Shape(v) && Shape(w) && Kept(v, owner, w, owner', i) && b in owner && owner[b].Data? && b < |v.store|
    ensures w.store[b] == v.store[b]
  {
  }

  lemma SetDirectBlock(v: Volume, node: Inode, l: nat, b: nat)
    requires Shape(v) && node.Fits() && l < 12 && b < 0x1_0000_0000
    ensures SetInodeBlock(v, node, l, b) == Growth(v, node.(direct := node.direct[l := b]), true)
  {
  }

  lemma DataBlockWritten(v: Volume, owner: Owners, dir: nat, b: nat, x: Block)
    requires Shape(v) && Agreement(v) && Recorded(v, owner) && |x| == v.geo.blockSize
    requires b in owner && owner[b].Data? && owner[b].inode == dir && Plain(v, b)
    ensures var w := StoreBlock(v, b, x);
      && OnlyDataOf(v, owner, w, dir) && Agreement(w) && Recorded(w, owner)
      && (forall c :: c in owner && owner[c].inode != dir && c < |v.store| ==> w.store[c] == v.store[c])
  {
  }

  lemma OneMoreBlock(v: Volume, size: nat)
    requires Shape(v) && size == BlockCount(v, size) * v.geo.blockSize
    ensures BlockCount(v, size + v.geo.blockSize) == BlockCount(v, size) + 1
    ensures size + v.geo.blockSize == (BlockCount(v, size) + 1) * v.geo.blockSize
  {
    var bs, n := v.geo.blockSize, BlockCount(v, size);
    assert (n + 1) * bs == n * bs + bs;
    DivUnique(size + bs + bs - 1, bs, n + 1);
  }

  // ---- removing ----

  /** remove_directory_entry, from block `l` on. */
  function RemoveFrom(v: Volume, node: Inode, name: Name, l: nat): (r: Outcome)
    requires Shape(v) && node.Fits()
    ensures Shape(r.v) && r.v == v.(store := r.v.store)
    decreases BlockCount(v, node.size) - l
  {
    if l >= BlockCount(v, node.size) then Outcome(v, false)
    else
      var b := Mapped(v, node, l);
      if b == 0 || !Plain(v, b) then Outcome(v, false)
      else
        match RemoveIn(v.store[b], name)
        case None => RemoveFrom(v, node, name, l + 1)
        case Some(x) =>
          RemoveInLength(v.store[b], name);
          Outcome(StoreBlock(v, b, x), true)
  }

  function RemoveEntry(v: Volume, node: Inode, name: Name): (r: Outcome)
    requires Shape(v) && node.Fits()
    ensures Shape(r.v) && r.v == v.(store := r.v.store)
  {
    RemoveFrom(v, node, name, 0)
  }

  lemma {:induction false} RemoveInLength(s: seq<Byte>, name: Name)
    requires RemoveIn(s, name).Some?
    ensures |RemoveIn(s, name).value| == |s|
    decreases |s|
  {
    if !(Live(s) && RecName(s) == name) {
      RemoveInLength(Rest(s), name);
    }
  }

  predicate EntryRemoved(v: Volume, owner: Owners, dir: nat, node: Inode, name: Name, w: Volume)
    requires Shape(v) && Shape(w) && w.geo == v.geo && node.Fits()
  {
    && Agreement(w) && Recorded(w, owner) && Confined(v, owner, w, owner, dir)
    && w == v.(store := w.store)
    && FileTree(w, owner, dir, node, BlockCount(w, node.size))
    && DirOk(w, node) && DirMap(w, node) == DirMap(v, node) - {name}
    && (AllPlaced(v, owner, dir, node) ==> AllPlaced(w, owner, dir, node))
    && NoReturn(v, owner, dir, node, w, node)
  }

  /** The blocks of a directory after an entry was removed: one of them lost it. */
  predicate BlocksLost(blocks: seq<Block>, blocks': seq<Block>, name: Name) {
    exists l :: 0 <= l < |blocks| && PatchedAt(blocks, blocks', l, RemoveIn(blocks[l], name))
  }

  /** remove_directory_entry succeeds exactly when the directory binds the name, and unbinds just that name. */
  lemma {:induction false} RemoveFromUnbinds(v: Volume, owner: Owners, dir: nat, node: Inode, name: Name, l: nat)
    requires Shape(v) && Agreement(v) && Recorded(v, owner) && node.Fits() && l <= BlockCount(v, node.size)
    requires FileTree(v, owner, dir, node, BlockCount(v, node.size)) && DirOk(v, node)
    ensures var r := RemoveFrom(v, node, name, l);
      && (r.ok <==> name in NamesOf(DirBlocks(v, node)[l..]))
      && (if r.ok then
            EntryRemoved(v, owner, dir, node, name, r.v) && BlocksLost(DirBlocks(v, node), DirBlocks(r.v, node), name)
          else r.v == v)
    decreases BlockCount(v, node.size) - l
  {
    hide Mapped, Names, Tiled, Unique, RemoveIn, CeilDiv, Tables, Confined, Agreement, Recorded, Tied,
      DataTied, OnlyDataOf, WellFormed;
    var blocks := DirBlocks(v, node);
    if l < BlockCount(v, node.size) {
      var b := Mapped(v, node, l);
      assert Holds(v, owner, b, Data(dir, l));
      assert blocks[l..][0] == v.store[b] && blocks[l..][1..] == blocks[l + 1..];
      WellFormedAt(blocks, l);
      RemoveInUnbinds(v.store[b], name);
      match RemoveIn(v.store[b], name) {
        case None =>
          RemoveFromUnbinds(v, owner, dir, node, name, l + 1);
        case Some(x) =>
          PatchBlock(v, owner, dir, node, l, x);
          UnbindIn(blocks, l, x, name);
      }
    }
  }
}
