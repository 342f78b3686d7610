/** Giving back every block of a deleted file. */
module Release {
  import opened Bytes
  import opened Geometry
  import opened Volumes
  import opened PointerTree
  import opened Ownership
  import opened Files

  /** Data blocks of `node` from logical block `l` on. */
  function FreeData(v: Volume, node: Inode, l: nat, n: nat): (r: Volume)
    requires Shape(v) && node.Fits()
    ensures Shape(r) && r == v.(used := r.used, blockFree := r.blockFree, freeBlocks := r.freeBlocks)
    decreases if n > l then n - l else 0
  {
    if l >= n then v
    else
      var b := Mapped(v, node, l);
      FreeData(if b != 0 then FreeBlock(v, b) else v, node, l + 1, n)
  }

  /** The second-level tables listed in `table` from index `k` on. */
  function FreeChildren(v: Volume, table: Block, k: nat): (r: Volume)
    requires Shape(v) && |table| == v.geo.blockSize && k <= Pointers(v)
    ensures Shape(r) && r == v.(used := r.used, blockFree := r.blockFree, freeBlocks := r.freeBlocks)
    decreases Pointers(v) - k
  {
    if k == Pointers(v) then v
    else
      var c := Word(table, k);
      FreeChildren(if c != 0 then FreeBlock(v, c) else v, table, k + 1)
  }

  /** How many of the pointers from index `k` to `n` are set. */
  function Linked(table: Block, k: nat, n: nat): nat
    requires 4 * n <= |table|
    decreases n - k
  {
    if k >= n then 0 else (if Word(table, k) != 0 then 1 else 0) + Linked(table, k + 1, n)
  }

  /** The freeing half of ext2_delete_file_by_path. */
  function FreeFile(v: Volume, node: Inode): (r: Volume)
    requires Shape(v) && node.Fits()
    ensures Shape(r) && r == v.(used := r.used, blockFree := r.blockFree, freeBlocks := r.freeBlocks)
  {
    var v1 := FreeData(v, node, 0, BlockCount(v, node.size));
    var v2 := if node.indirect != 0 then FreeBlock(v1, node.indirect) else v1;
    if node.doubly == 0 then v2
    else
      var v3 := if Plain(v2, node.doubly) then FreeChildren(v2, v2.store[node.doubly], 0) else v2;
      FreeBlock(v3, node.doubly)
  }

  /** From `v` to `w` exactly the blocks that left the record were freed, once each. */
  predicate Freed(v: Volume, owner: Owners, w: Volume, owner': Owners)
    requires Shape(v) && Shape(w)
  {
    && w == v.(used := w.used, blockFree := w.blockFree, freeBlocks := w.freeBlocks)
    && Agreement(w) && Recorded(w, owner')
    && (forall b :: b in owner' ==> b in owner && owner'[b] == owner[b])
    && (forall b :: 0 <= b < |v.used| ==> w.used[b] == (v.used[b] && !(b in owner && b !in owner')))
    && w.freeBlocks - v.freeBlocks == |owner| - |owner'|
  }

  lemma FreedTransitive(v: Volume, o1: Owners, w: Volume, o2: Owners, x: Volume, o3: Owners)
    requires Shape(v) && Shape(w) && Shape(x) && Freed(v, o1, w, o2) && Freed(w, o2, x, o3)
    ensures Freed(v, o1, x, o3)
  {
    hide Agreement;
  }

  lemma FreedNone(v: Volume, owner: Owners)
    requires Shape(v) && Agreement(v) && Recorded(v, owner)
    ensures Freed(v, owner, v, owner)
  {
  }

  lemma FreeOwned(v: Volume, owner: Owners, b: nat)
    requires Shape(v) && Agreement(v) && Recorded(v, owner) && b in owner
    ensures Freed(v, owner, FreeBlock(v, b), owner - {b})
  {
    hide Agreement;
    FreeBlockAgreement(v, b);
    assert owner == (owner - {b})[b := owner[b]];
  }

  predicate DataFrom(v: Volume, owner: Owners, i: nat, node: Inode, l: nat, n: nat)
    requires Shape(v) && node.Fits()
  {
    forall x :: l <= x < n ==> Holds(v, owner, Mapped(v, node, x), Data(i, x))
  }

  lemma FreeDataStep(v: Volume, owner: Owners, i: nat, node: Inode, l: nat, n: nat)
    requires Shape(v) && Agreement(v) && Recorded(v, owner) && node.Fits() && l < n <= MaxLogical(v)
    requires DataFrom(v, owner, i, node, l, n)
    ensures var b := Mapped(v, node, l);
            var w := FreeBlock(v, b);
      && b != 0 && b in owner && owner[b] == Data(i, l)
      && Freed(v, owner, w, owner - {b}) && DataFrom(w, owner - {b}, i, node, l + 1, n)
      && w.freeBlocks == v.freeBlocks + 1
      && (forall x :: 0 <= x < n ==> Mapped(w, node, x) == Mapped(v, node, x))
  {
    hide Mapped, Agreement, Recorded, Freed, Sound;
    var b := Mapped(v, node, l);
    assert Holds(v, owner, b, Data(i, l));
    FreeOwned(v, owner, b);
    var w := FreeBlock(v, b);
    FreedFacts(v, owner, w, owner - {b});
    OneLess(owner, b);
    forall x | 0 <= x < n
      ensures Mapped(w, node, x) == Mapped(v, node, x)
      ensures l < x ==> Holds(w, owner - {b}, Mapped(w, node, x), Data(i, x))
    {
      SameStoreMapped(v, node, w, node, x);
      assert l < x ==> Holds(v, owner, Mapped(v, node, x), Data(i, x));
    }
  }

  lemma {:induction false} FreeDataFrees(v: Volume, owner: Owners, i: nat, node: Inode, l: nat, n: nat)
    returns (owner': Owners)
    requires Shape(v) && Agreement(v) && Recorded(v, owner) && node.Fits() && n <= MaxLogical(v)
    requires DataFrom(v, owner, i, node, l, n)
    ensures Freed(v, owner, FreeData(v, node, l, n), owner')
    ensures FreeData(v, node, l, n).freeBlocks == v.freeBlocks + if l < n then n - l else 0
    ensures forall b :: b in owner ==>
      (b !in owner' <==> owner[b].Data? && owner[b].inode == i && l <= owner[b].logical < n
                         && Mapped(v, node, owner[b].logical) == b)
    decreases if n > l then n - l else 0
  {
    hide Mapped, Agreement, Recorded, Freed, Sound, DataFrom, FreeBlock;
    if l >= n {
      owner' := owner;
      FreedNone(v, owner);
    } else {
      var b := Mapped(v, node, l);
      FreeDataStep(v, owner, i, node, l, n);
      var w := FreeBlock(v, b);
      FreedFacts(v, owner, w, owner - {b});
      owner' := FreeDataFrees(w, owner - {b}, i, node, l + 1, n);
      FreedFacts(w, owner - {b}, FreeData(w, node, l + 1, n), owner');
      FreedTransitive(v, owner, w, owner - {b}, FreeData(w, node, l + 1, n), owner');
    }
  }

  lemma FreedFacts(v: Volume, owner: Owners, w: Volume, owner': Owners)
    requires Shape(v) && Shape(w) && Freed(v, owner, w, owner')
    ensures w == v.(used := w.used, blockFree := w.blockFree, freeBlocks := w.freeBlocks)
    ensures Agreement(w) && Recorded(w, owner')
    ensures forall b :: b in owner' ==> b in owner && owner'[b] == owner[b]
    ensures w.freeBlocks - v.freeBlocks == |owner| - |owner'|
  {
  }

  lemma OneLess(owner: Owners, b: nat)
    requires b in owner
    ensures |owner - {b}| == |owner| - 1
  {
    assert owner == (owner - {b})[b := owner[b]];
  }

  predicate ChildrenFrom(v: Volume, owner: Owners, i: nat, table: Block, k: nat)
    requires Shape(v) && |table| == v.geo.blockSize
  {
    forall j :: k <= j < Pointers(v) && Word(table, j) != 0 ==> Holds(v, owner, Word(table, j), Child(i, j))
  }

  lemma FreeChildStep(v: Volume, owner: Owners, i: nat, table: Block, k: nat)
    requires Shape(v) && Agreement(v) && Recorded(v, owner) && |table| == v.geo.blockSize && k < Pointers(v)
    requires ChildrenFrom(v, owner, i, table, k)
    ensures var c := Word(table, k);
            var w := if c != 0 then FreeBlock(v, c) else v;
            var o := if c != 0 then owner - {c} else owner;
      && (c != 0 ==> c in owner && owner[c] == Child(i, k))
      && Freed(v, owner, w, o) && ChildrenFrom(w, o, i, table, k + 1)
      && w.freeBlocks == v.freeBlocks + if c != 0 then 1 else 0
  {
    hide Word, Agreement, Recorded, Freed, Sound;
    var c := Word(table, k);
    assert c != 0 ==> Holds(v, owner, c, Child(i, k));
    if c != 0 {
      FreeOwned(v, owner, c);
      FreedFacts(v, owner, FreeBlock(v, c), owner - {c});
      OneLess(owner, c);
    } else {
      FreedNone(v, owner);
    }
  }

  lemma {:induction false} FreeChildrenFrees(v: Volume, owner: Owners, i: nat, table: Block, k: nat)
    returns (owner': Owners)
    requires Shape(v) && Agreement(v) && Recorded(v, owner) && |table| == v.geo.blockSize && k <= Pointers(v)
    requires ChildrenFrom(v, owner, i, table, k)
    ensures Freed(v, owner, FreeChildren(v, table, k), owner')
    ensures FreeChildren(v, table, k).freeBlocks == v.freeBlocks + Linked(table, k, Pointers(v))
    ensures forall b :: b in owner ==>
      (b !in owner' <==> b != 0 && owner[b].Child? && owner[b].inode == i && k <= owner[b].index < Pointers(v)
                         && Word(table, owner[b].index) == b)
    decreases Pointers(v) - k
  {
    hide Word, Agreement, Recorded, Freed, Sound, ChildrenFrom, FreeBlock;
    if k == Pointers(v) {
      owner' := owner;
      FreedNone(v, owner);
    } else {
      var c := Word(table, k);
      FreeChildStep(v, owner, i, table, k);
      var w := if c != 0 then FreeBlock(v, c) else v;
      var o2 := if c != 0 then owner - {c} else owner;
      FreedFacts(v, owner, w, o2);
      owner' := FreeChildrenFrees(w, o2, i, table, k + 1);
      FreedFacts(w, o2, FreeChildren(w, table, k + 1), owner');
      FreedTransitive(v, owner, w, o2, FreeChildren(w, table, k + 1), owner');
    }
  }

  lemma NullUnowned(v: Volume, owner: Owners)
    requires Shape(v) && Recorded(v, owner)
    ensures 0 !in owner
  {
  }

  /** The slots of inode `i` that its tree fills. */
  predicate InTree(v: Volume, node: Inode, n: nat, s: Slot, b: nat)
    requires Shape(v) && node.Fits()
  {
    match s
    case Data(_, l) => l < n && Mapped(v, node, l) == b
    case Indirect(_) => node.indirect == b
    case Doubly(_) => node.doubly == b
    case Child(_, k) => Plain(v, node.doubly) && k < Pointers(v) && Word(v.store[node.doubly], k) == b
  }

  /** Number of blocks of a tree, data and tables. */
  function TreeSize(v: Volume, node: Inode): nat
    requires Shape(v) && node.Fits()
  {
    BlockCount(v, node.size) + (if node.indirect != 0 then 1 else 0)
    + (if node.doubly != 0 && Plain(v, node.doubly) then 1 + Linked(v.store[node.doubly], 0, Pointers(v)) else 0)
  }

  /** FreeFile frees exactly the blocks of the tree of inode `i`, each of them once. */
  lemma FreeFileFrees(v: Volume, owner: Owners, i: nat, node: Inode) returns (owner': Owners)
    requires Shape(v) && Agreement(v) && Recorded(v, owner) && node.Fits()
    requires FileTree(v, owner, i, node, BlockCount(v, node.size))
    ensures Freed(v, owner, FreeFile(v, node), owner')
    ensures FreeFile(v, node).freeBlocks == v.freeBlocks + TreeSize(v, node)
    ensures forall b :: b in owner ==>
      (b !in owner' <==> owner[b].inode == i && InTree(v, node, BlockCount(v, node.size), owner[b], b))
  {
    hide Mapped, Word, Agreement, Recorded, Freed, Sound, FreeData, FreeChildren, CeilDiv, FreeBlock, Linked, InTree,
      Tables, DataHeld, TreeSize;
    var o1, o2 := FreeLower(v, owner, i, node);
    HeldIsFrom(v, owner, i, node, BlockCount(v, node.size));
    owner' := o2;
    if node.doubly != 0 {
      var v2 := Lower(v, node);
      FreedFacts(v, owner, v2, o2);
      ChildrenHeld(v, owner, i, node, v2, o2);
      owner' := FreeTop(v2, o2, i, node);
      FreedFacts(v2, o2, FreeFile(v, node), owner');
      FreedTransitive(v, owner, v2, o2, FreeFile(v, node), owner');
    }
    WhatLeft(v, owner, i, node, o1, o2, owner');
    SizeOfTree(v, node);
  }

  /** What is left after the data blocks and the single table were given back. */
  function Lower(v: Volume, node: Inode): Volume
    requires Shape(v) && node.Fits()
  {
    var v1 := FreeData(v, node, 0, BlockCount(v, node.size));
    if node.indirect != 0 then FreeBlock(v1, node.indirect) else v1
  }

  lemma SizeOfTree(v: Volume, node: Inode)
    requires Shape(v) && node.Fits() && (node.doubly != 0 ==> Plain(v, node.doubly))
    ensures TreeSize(v, node) == BlockCount(v, node.size) + (if node.indirect != 0 then 1 else 0)
      + (if node.doubly != 0 then 1 + Linked(v.store[node.doubly], 0, Pointers(v)) else 0)
  {
  }

  lemma HeldIsFrom(v: Volume, owner: Owners, i: nat, node: Inode, n: nat)
    requires Shape(v) && node.Fits() && FileTree(v, owner, i, node, n)
    ensures n <= MaxLogical(v) && DataFrom(v, owner, i, node, 0, n)
    ensures node.indirect != 0 ==>
      node.indirect in owner && !owner[node.indirect].Data? && owner[node.indirect].Indirect?
    ensures node.doubly != 0 ==> Plain(v, node.doubly)
  {
    hide Mapped, Word;
  }

  lemma FreeLower(v: Volume, owner: Owners, i: nat, node: Inode) returns (o1: Owners, o2: Owners)
    requires Shape(v) && Agreement(v) && Recorded(v, owner) && node.Fits()
    requires FileTree(v, owner, i, node, BlockCount(v, node.size))
    ensures var v2 := Lower(v, node);
      && Freed(v, owner, v2, o2) && v2.store == v.store && v2.geo == v.geo
      && v2.freeBlocks == v.freeBlocks + BlockCount(v, node.size) + if node.indirect != 0 then 1 else 0
    ensures forall b :: b in o1 ==> b in owner && o1[b] == owner[b]
    ensures forall b :: b in o2 ==> b in o1
    ensures forall b :: b in owner && (owner[b].Child? || owner[b].Doubly?) ==> b in o2 && o2[b] == owner[b]
    ensures forall b :: b in owner ==>
      (b !in o1 <==> owner[b].Data? && owner[b].inode == i && owner[b].logical < BlockCount(v, node.size)
                     && Mapped(v, node, owner[b].logical) == b)
    ensures o2 == if node.indirect != 0 then o1 - {node.indirect} else o1
  {
    hide Mapped, Agreement, Recorded, Freed, Sound, FreeData, FreeBlock, Tables, BlockCount, DataHeld;
    var n := BlockCount(v, node.size);
    HeldIsFrom(v, owner, i, node, n);
    o1 := FreeDataFrees(v, owner, i, node, 0, n);
    var v1 := FreeData(v, node, 0, n);
    FreedFacts(v, owner, v1, o1);
    o2 := FreeTable(v1, o1, node.indirect);
    FreedFacts(v1, o1, Lower(v, node), o2);
    FreedTransitive(v, owner, v1, o1, Lower(v, node), o2);
  }

  /** The three removals together are the removal of the tree. */
  lemma WhatLeft(v: Volume, owner: Owners, i: nat, node: Inode, o1: Owners, o2: Owners, o3: Owners)
    requires Shape(v) && Recorded(v, owner) && node.Fits() && Tables(v, owner, i, node)
    requires forall b :: b in o1 ==> b in owner && o1[b] == owner[b]
    requires forall b :: b in owner ==>
      (b !in o1 <==> owner[b].Data? && owner[b].inode == i && owner[b].logical < BlockCount(v, node.size)
                     && Mapped(v, node, owner[b].logical) == b)
    requires o2 == if node.indirect != 0 then o1 - {node.indirect} else o1
    requires node.doubly == 0 ==> o3 == o2
    requires node.doubly != 0 ==> forall b :: b in o2 ==>
      (b !in o3 <==>
        || b == node.doubly
        || (o2[b].Child? && o2[b].inode == i && o2[b].index < Pointers(v)
            && Word(v.store[node.doubly], o2[b].index) == b))
    requires forall b :: b in o3 ==> b in o2
    ensures forall b :: b in owner ==>
      (b !in o3 <==> owner[b].inode == i && InTree(v, node, BlockCount(v, node.size), owner[b], b))
  {
    hide Mapped, Word, CeilDiv, Sound;
    NullUnowned(v, owner);
    forall b | b in owner
      ensures b !in o3 <==> owner[b].inode == i && InTree(v, node, BlockCount(v, node.size), owner[b], b)
    {
    }
  }

  lemma ChildrenHeld(v: Volume, owner: Owners, i: nat, node: Inode, w: Volume, owner': Owners)
    requires Shape(v) && Shape(w) && w.store == v.store && w.geo == v.geo && Tables(v, owner, i, node)
    requires node.doubly != 0
    requires forall b :: b in owner && (owner[b].Child? || owner[b].Doubly?) ==> b in owner' && owner'[b] == owner[b]
    ensures Holds(w, owner', node.doubly, Doubly(i))
    ensures forall k :: 0 <= k < Pointers(w) && Word(w.store[node.doubly], k) != 0 ==>
      Holds(w, owner', Word(w.store[node.doubly], k), Child(i, k))
  {
    hide Word;
    forall k | 0 <= k < Pointers(w) && Word(w.store[node.doubly], k) != 0
      ensures Holds(w, owner', Word(w.store[node.doubly], k), Child(i, k))
    {
      assert ChildHeld(v, owner, i, node.doubly, k);
    }
  }

  /** The top table and everything it lists. */
  lemma FreeTop(v: Volume, owner: Owners, i: nat, node: Inode) returns (owner': Owners)
    requires Shape(v) && Agreement(v) && Recorded(v, owner) && node.doubly != 0
    requires Holds(v, owner, node.doubly, Doubly(i))
    requires forall k :: 0 <= k < Pointers(v) && Word(v.store[node.doubly], k) != 0 ==>
      Holds(v, owner, Word(v.store[node.doubly], k), Child(i, k))
    ensures var w := FreeBlock(FreeChildren(v, v.store[node.doubly], 0), node.doubly);
      && Freed(v, owner, w, owner')
      && w.freeBlocks == v.freeBlocks + 1 + Linked(v.store[node.doubly], 0, Pointers(v))
    ensures forall b :: b in owner ==>
      (b !in owner' <==>
        || b == node.doubly
        || (owner[b].Child? && owner[b].inode == i && owner[b].index < Pointers(v)
            && Word(v.store[node.doubly], owner[b].index) == b))
  {
    hide Word, Agreement, Recorded, Freed, Sound, FreeChildren, FreeBlock, Linked;
    NullUnowned(v, owner);
    var o3 := FreeChildrenFrees(v, owner, i, v.store[node.doubly], 0);
    var v3 := FreeChildren(v, v.store[node.doubly], 0);
    FreedFacts(v, owner, v3, o3);
    owner' := FreeTable(v3, o3, node.doubly);
    FreedTransitive(v, owner, v3, o3, FreeBlock(v3, node.doubly), owner');
  }

  lemma FreeTable(v: Volume, owner: Owners, b: nat) returns (owner': Owners)
    requires Shape(v) && Agreement(v) && Recorded(v, owner) && (b != 0 ==> b in owner)
    ensures owner' == if b != 0 then owner - {b} else owner
    ensures Freed(v, owner, if b != 0 then FreeBlock(v, b) else v, owner')
    ensures (if b != 0 then FreeBlock(v, b) else v).freeBlocks == v.freeBlocks + if b != 0 then 1 else 0
  {
    if b != 0 {
      OneLess(owner, b);
      FreeOwned(v, owner, b);
      owner' := owner - {b};
    } else {
      FreedNone(v, owner);
      owner' := owner;
    }
  }
}
