/** Which inode each block belongs to, and in which role; what growing one file does to it. */
module Ownership {
  import opened Bytes
  import opened Geometry
  import opened Volumes
  import opened PointerTree

  /** The place a block occupies in the tree of an inode. */
  datatype Slot =
    | Data(inode: nat, logical: nat)
    | Indirect(inode: nat)
    | Doubly(inode: nat)
    | Child(inode: nat, index: nat)

  /** A block has one slot here, so whatever holds a slot through this map shares no block. */
  type Owners = map<nat, Slot>

  predicate Recorded(v: Volume, owner: Owners)
    requires Shape(v)
  {
    forall b :: b in owner ==> Plain(v, b) && v.used[b]
  }

  predicate Holds(v: Volume, owner: Owners, b: nat, s: Slot) {
    Plain(v, b) && b in owner && owner[b] == s
  }

  predicate ChildHeld(v: Volume, owner: Owners, i: nat, table: nat, k: nat)
    requires Shape(v) && Plain(v, table) && k < Pointers(v)
  {
    var c := Word(v.store[table], k);
    c != 0 ==> Holds(v, owner, c, Child(i, k))
  }

  /** Inode `i`, with contents `node`, owns every table its pointers lead to. */
  predicate Tables(v: Volume, owner: Owners, i: nat, node: Inode)
    requires Shape(v)
  {
    && (node.indirect != 0 ==> Holds(v, owner, node.indirect, Indirect(i)))
    && (node.doubly != 0 ==>
          && Holds(v, owner, node.doubly, Doubly(i))
          && forall k :: 0 <= k < Pointers(v) ==> ChildHeld(v, owner, i, node.doubly, k))
  }

  /** The converse of Tables: what is on record as a table of `i` is one. */
  predicate Tied(v: Volume, owner: Owners, i: nat, node: Inode)
    requires Shape(v)
  {
    forall b :: b in owner && TableOf(owner[b], i) ==>
      match owner[b]
      case Data(_, _) => true
      case Indirect(_) => node.indirect == b
      case Doubly(_) => node.doubly == b
      case Child(_, k) =>
        Plain(v, node.doubly) && node.doubly != 0 && k < Pointers(v) && Word(v.store[node.doubly], k) == b
  }

  predicate TableOf(s: Slot, i: nat) {
    s.inode == i && !s.Data?
  }

  /** From `v` to `w` the tree of inode `i` may have grown: free blocks became blocks of `i`, its
      tables may have changed, and nothing else did. */
  predicate Kept(v: Volume, owner: Owners, w: Volume, owner': Owners, i: nat)
    requires Shape(v) && Shape(w)
  {
    && w.geo == v.geo && w.inodes == v.inodes && w.iused == v.iused
    && w.inodeFree == v.inodeFree && w.freeInodes == v.freeInodes
    && (forall b :: b in owner ==> b in owner' && owner'[b] == owner[b])
    && (forall b :: b in owner' && b !in owner ==> b < |v.used| && owner'[b].inode == i && !v.used[b])
    && (forall b :: b in owner && !TableOf(owner[b], i) && b < |v.store| ==> w.store[b] == v.store[b])
    && (forall b :: 0 <= b < |v.used| && v.used[b] ==> w.used[b])
    && (forall b :: 0 <= b < |v.used| && w.used[b] && !v.used[b] ==> b in owner')
    && (forall b :: 0 <= b < |v.store| ==> |w.store[b]| == |v.store[b]|)
    && v.freeBlocks - w.freeBlocks == |owner'| - |owner|
  }

  lemma KeptTransitive(v: Volume, o1: Owners, w: Volume, o2: Owners, x: Volume, o3: Owners, i: nat)
    requires Shape(v) && Shape(w) && Shape(x)
    requires Kept(v, o1, w, o2, i) && Kept(w, o2, x, o3, i)
    requires forall b :: b in o1 ==> b < |v.used| && v.used[b]
    ensures Kept(v, o1, x, o3, i)
  {
    forall b | b in o3 && b !in o1
      ensures b < |v.used| && o3[b].inode == i && !v.used[b]
    {
      if b in o2 {
      } else {
        assert !w.used[b];
      }
    }
  }

  /** A block allocated for slot `s`. */
  lemma AllocateFor(v: Volume, owner: Owners, s: Slot) returns (owner': Owners)
    requires Shape(v) && Agreement(v) && Recorded(v, owner)
    ensures var a := AllocateBlock(v);
      && Agreement(a.v) && Recorded(a.v, owner') && Kept(v, owner, a.v, owner', s.inode)
      && (a.found.None? ==> a.v == v && owner' == owner)
      && (a.found.Some? ==>
            var b := a.found.value;
            && 0 < b < v.geo.blocksCount && b < 0x1_0000_0000 && !v.used[b] && b !in owner && owner' == owner[b := s]
            && a.v.store == v.store[b := Zeros(v.geo.blockSize)]
            && a.v.used == v.used[b := true] && Plain(a.v, b))
  {
    AllocateBlockLowest(v);
    var a := AllocateBlock(v);
    owner' := owner;
    if a.found.Some? {
      TakeBlockAgreement(v, a.found.value);
      owner' := owner[a.found.value := s];
    }
  }

  /** Writing inside a table of inode `i` keeps what everything else relies on. */
  lemma StoreKept(v: Volume, owner: Owners, i: nat, b: nat, x: Block)
    requires Shape(v) && Agreement(v) && Recorded(v, owner)
    requires Plain(v, b) && |x| == v.geo.blockSize && b in owner && TableOf(owner[b], i)
    ensures var w := StoreBlock(v, b, x);
      Agreement(w) && Recorded(w, owner) && Kept(v, owner, w, owner, i)
  {
  }

  /** What one set_inode_block may do to the tree of inode `i`. */
  predicate Grown(v: Volume, owner: Owners, i: nat, node: Inode, r: Growth, owner': Owners)
    requires Shape(v) && Shape(r.v)
  {
    && Agreement(r.v) && Recorded(r.v, owner') && Kept(v, owner, r.v, owner', i)
    && Tables(r.v, owner', i, r.node)
    && r.node == node.(direct := r.node.direct, indirect := r.node.indirect, doubly := r.node.doubly)
    && (node.indirect != 0 ==> r.node.indirect == node.indirect)
    && (node.doubly != 0 ==> r.node.doubly == node.doubly)
    && r.node.Fits()
    && (Tied(v, owner, i, node) ==> Tied(r.v, owner', i, r.node))
  }

  predicate OnlyTables(owner: Owners, owner': Owners) {
    forall b :: b in owner' && b !in owner ==> !owner'[b].Data?
  }

  lemma OnlyTablesTransitive(o1: Owners, o2: Owners, o3: Owners)
    requires OnlyTables(o1, o2) && OnlyTables(o2, o3)
    requires forall b :: b in o2 ==> b in o3 && o3[b] == o2[b]
    ensures OnlyTables(o1, o3)
  {
  }

  lemma KeptOwners(v: Volume, owner: Owners, w: Volume, owner': Owners, i: nat)
    requires Shape(v) && Shape(w) && Kept(v, owner, w, owner', i)
    ensures forall b :: b in owner ==> b in owner' && owner'[b] == owner[b]
  {
  }

  /** After the call logical block `l` leads to `p` and every other one where it led before. */
  predicate Remapped(v: Volume, node: Inode, r: Growth, l: nat, p: nat)
    requires Shape(v) && Shape(r.v) && node.Fits() && r.node.Fits() && r.v.geo == v.geo
  {
    forall x :: 0 <= x < MaxLogical(v) ==>
      Mapped(r.v, r.node, x) == if r.ok && x == l then p else Mapped(v, node, x)
  }

  lemma TablesNewIndirect(v: Volume, owner: Owners, i: nat, node: Inode, w: Volume, owner': Owners, b: nat)
    requires Shape(v) && Shape(w) && Recorded(v, owner) && Kept(v, owner, w, owner', i)
    requires Tables(v, owner, i, node) && node.indirect == 0
    requires b < |v.store| && b !in owner && w.store == v.store[b := Zeros(v.geo.blockSize)]
    requires Holds(w, owner', b, Indirect(i)) && owner' == owner[b := Indirect(i)]
    ensures Tables(w, owner', i, node.(indirect := b))
    ensures Tied(v, owner, i, node) ==> Tied(w, owner', i, node.(indirect := b))
  {
    if node.doubly != 0 {
      forall k | 0 <= k < Pointers(w)
        ensures ChildHeld(w, owner', i, node.doubly, k)
      {
        assert ChildHeld(v, owner, i, node.doubly, k);
      }
    }
  }

  lemma TablesIndirectWritten(v: Volume, owner: Owners, i: nat, node: Inode, k: nat, p: nat)
    requires Shape(v) && Tables(v, owner, i, node) && node.indirect != 0
    requires k < Pointers(v) && p < 0x1_0000_0000
    ensures Tables(StoreBlock(v, node.indirect, PutWord(v.store[node.indirect], k, p)), owner, i, node)
    ensures Tied(v, owner, i, node) ==>
      Tied(StoreBlock(v, node.indirect, PutWord(v.store[node.indirect], k, p)), owner, i, node)
  {
    var w := StoreBlock(v, node.indirect, PutWord(v.store[node.indirect], k, p));
    if node.doubly != 0 {
      forall j | 0 <= j < Pointers(w)
        ensures ChildHeld(w, owner, i, node.doubly, j)
      {
        assert ChildHeld(v, owner, i, node.doubly, j);
      }
    }
  }

  /** Writing a pointer into the single-indirect table `b` of a node that already points to it. */
  lemma WriteIndirect(v: Volume, owner: Owners, i: nat, node: Inode, w: Volume, owner': Owners, b: nat, k: nat, p: nat)
    requires Shape(v) && Shape(w) && Recorded(v, owner) && Kept(v, owner, w, owner', i)
    requires Agreement(w) && Recorded(w, owner') && node.Fits()
    requires k < Pointers(v) && p < 0x1_0000_0000 && b < 0x1_0000_0000
    requires Holds(w, owner', b, Indirect(i)) && Tables(w, owner', i, node.(indirect := b)) && b != 0
    requires if node.indirect == 0 then b < |v.store| && w.store == v.store[b := Zeros(v.geo.blockSize)]
             else node.indirect == b && w == v
    requires Tied(v, owner, i, node) ==> Tied(w, owner', i, node.(indirect := b))
    ensures var r := WritePointer(w, node.(indirect := b), b, k, p);
      r.ok && Shape(r.v) && Grown(v, owner, i, node, r, owner') && Remapped(v, node, r, 12 + k, p)
  {
    hide Word, PutWord, InodeBlock, Mapped, Agreement, Tied, Tables, Kept, Recorded, MaxLogical, Sound;
    var r := WritePointer(w, node.(indirect := b), b, k, p);
    StoreKept(w, owner', i, b, PutWord(w.store[b], k, p));
    RecordedUsed(v, owner);
    KeptTransitive(v, owner, w, owner', r.v, owner', i);
    TablesIndirectWritten(w, owner', i, node.(indirect := b), k, p);
    KeptGeometry(v, owner, w, owner', i);
    TablesWithout(w, owner', i, node, b);
    forall x | 0 <= x < MaxLogical(v)
      ensures Mapped(r.v, r.node, x) == if x == 12 + k then p else Mapped(v, node, x)
    {
      IndirectAt(v, w, owner', i, node, b, k, p, x);
    }
  }

  lemma TablesWithout(v: Volume, owner: Owners, i: nat, node: Inode, b: nat)
    requires Shape(v) && Tables(v, owner, i, node.(indirect := b)) && (node.indirect == 0 || node.indirect == b)
    ensures Tables(v, owner, i, node)
  {
  }

  lemma KeptGeometry(v: Volume, owner: Owners, w: Volume, owner': Owners, i: nat)
    requires Shape(v) && Shape(w) && Kept(v, owner, w, owner', i)
    ensures w.geo == v.geo
  {
  }

  lemma SetIndirect(v: Volume, owner: Owners, i: nat, node: Inode, l: nat, p: nat) returns (owner': Owners)
    requires Shape(v) && Agreement(v) && Recorded(v, owner) && node.Fits() && Tables(v, owner, i, node)
    requires 12 <= l < 12 + Pointers(v) && p < 0x1_0000_0000
    ensures Grown(v, owner, i, node, SetInodeBlock(v, node, l, p), owner')
    ensures OnlyTables(owner, owner')
    ensures Remapped(v, node, SetInodeBlock(v, node, l, p), l, p)
  {
    hide Word, PutWord, InodeBlock, Mapped, Agreement, Grown, Remapped, AllocateBlock, Tied, Kept, MaxLogical, Sound;
    if node.indirect == 0 {
      owner' := AllocateFor(v, owner, Indirect(i));
      var a := AllocateBlock(v);
      if a.found.Some? {
        TablesNewIndirect(v, owner, i, node, a.v, owner', a.found.value);
        WriteIndirect(v, owner, i, node, a.v, owner', a.found.value, l - 12, p);
      } else {
        NothingGrown(v, owner, i, node, l, p);
      }
    } else {
      owner' := owner;
      assert node == node.(indirect := node.indirect);
      KeptSame(v, owner, i);
      WriteIndirect(v, owner, i, node, v, owner, node.indirect, l - 12, p);
    }
  }

  lemma KeptSame(v: Volume, owner: Owners, i: nat)
    requires Shape(v) && Recorded(v, owner)
    ensures Kept(v, owner, v, owner, i)
  {
  }

  lemma NothingGrown(v: Volume, owner: Owners, i: nat, node: Inode, l: nat, p: nat)
    requires Shape(v) && Agreement(v) && Recorded(v, owner) && node.Fits() && Tables(v, owner, i, node)
    ensures Grown(v, owner, i, node, Growth(v, node, false), owner)
    ensures Remapped(v, node, Growth(v, node, false), l, p)
  {
    KeptSame(v, owner, i);
  }

  lemma IndirectAt(v: Volume, w: Volume, owner: Owners, i: nat, node: Inode, b: nat, k: nat, p: nat, x: nat)
    requires Shape(v) && Shape(w) && v.geo == w.geo && node.Fits() && Tables(w, owner, i, node)
    requires k < Pointers(v) && p < 0x1_0000_0000 && x < MaxLogical(v)
    requires 0 < b < 0x1_0000_0000 && Holds(w, owner, b, Indirect(i))
    requires if node.indirect == 0 then b < |v.store| && w.store == v.store[b := Zeros(v.geo.blockSize)]
             else node.indirect == b && w == v
    ensures var u := StoreBlock(w, b, PutWord(w.store[b], k, p));
      Mapped(u, node.(indirect := b), x) == if x == 12 + k then p else Mapped(v, node, x)
  {
    hide Word, PutWord, Mapped, Top, Low, MaxLogical;
    var u := StoreBlock(w, b, PutWord(w.store[b], k, p));
    SameRules(v, u, node, node.(indirect := b), x);
    if 12 <= x < 12 + Pointers(v) {
      EntryWritten(w, b, k, p, b, x - 12);
      WordOfZeros(v.geo.blockSize, x - 12);
    } else if 12 <= x && node.doubly != 0 {
      assert ChildHeld(w, owner, i, node.doubly, Top(v, x));
    }
  }

  /** The rules of MappedRules for two volumes of the same geometry. */
  lemma SameRules(v: Volume, w: Volume, node: Inode, node': Inode, x: nat)
    requires Shape(v) && Shape(w) && v.geo == w.geo && node.Fits() && node'.Fits() && x < MaxLogical(v)
    ensures x < 12 ==> Mapped(v, node, x) == node.direct[x] && Mapped(w, node', x) == node'.direct[x]
    ensures 12 <= x < 12 + Pointers(v) ==>
      && Mapped(v, node, x) == Entry(v, node.indirect, x - 12)
      && Mapped(w, node', x) == Entry(w, node'.indirect, x - 12)
    ensures 12 + Pointers(v) <= x ==>
      && Top(v, x) < Pointers(v) && Low(v, x) < Pointers(v)
      && Mapped(v, node, x) == Entry(v, Entry(v, node.doubly, Top(v, x)), Low(v, x))
      && Mapped(w, node', x) == Entry(w, Entry(w, node'.doubly, Top(v, x)), Low(v, x))
  {
    hide Word, Mapped, Entry;
    MappedRules(v, node, x);
    MappedRules(w, node', x);
  }

  // ---- the double-indirect region ----

  predicate SameMap(v: Volume, node: Inode, w: Volume, node': Inode)
    requires Shape(v) && Shape(w) && v.geo == w.geo && node.Fits() && node'.Fits()
  {
    forall x :: 0 <= x < MaxLogical(v) ==> Mapped(w, node', x) == Mapped(v, node, x)
  }

  /** The tree of inode `i` has at most gained tables with nothing in them. */
  predicate TreeKept(v: Volume, owner: Owners, i: nat, node: Inode, w: Volume, owner': Owners, node': Inode)
    requires Shape(v) && Shape(w) && w.geo == v.geo && node.Fits() && node'.Fits()
  {
    && Agreement(w) && Recorded(w, owner') && Kept(v, owner, w, owner', i) && OnlyTables(owner, owner')
    && Tables(w, owner', i, node') && SameMap(v, node, w, node')
    && (Tied(v, owner, i, node) ==> Tied(w, owner', i, node'))
    && node' == node.(doubly := node'.doubly) && (node.doubly != 0 ==> node'.doubly == node.doubly)
  }

  lemma TreeKeptSame(v: Volume, owner: Owners, i: nat, node: Inode)
    requires Shape(v) && Agreement(v) && Recorded(v, owner) && node.Fits() && Tables(v, owner, i, node)
    ensures TreeKept(v, owner, i, node, v, owner, node)
  {
    hide Agreement, Tables, Tied, Mapped;
    KeptSame(v, owner, i);
  }

  lemma TreeKeptTransitive(v: Volume, o1: Owners, i: nat, node: Inode, w: Volume, o2: Owners, node2: Inode,
                           x: Volume, o3: Owners, node3: Inode)
    requires Shape(v) && Shape(w) && Shape(x) && v.geo == w.geo == x.geo
    requires node.Fits() && node2.Fits() && node3.Fits() && Recorded(v, o1)
    requires TreeKept(v, o1, i, node, w, o2, node2) && TreeKept(w, o2, i, node2, x, o3, node3)
    ensures TreeKept(v, o1, i, node, x, o3, node3)
  {
    hide Agreement, Tables, Tied, Mapped, Kept, Recorded, OnlyTables;
    RecordedUsed(v, o1);
    KeptTransitive(v, o1, w, o2, x, o3, i);
    KeptOwners(w, o2, x, o3, i);
    OnlyTablesTransitive(o1, o2, o3);
  }

  /** Allocating the top table of the region, or finding it there, changes no mapping. */
  lemma EnsureDoubly(v: Volume, owner: Owners, i: nat, node: Inode) returns (owner': Owners)
    requires Shape(v) && Agreement(v) && Recorded(v, owner) && node.Fits() && Tables(v, owner, i, node)
    ensures var a := EnsureBlock(v, node.doubly);
      && (a.found.None? ==> a.v == v && owner' == owner)
      && (a.found.Some? ==>
            && 0 < a.found.value < 0x1_0000_0000
            && TreeKept(v, owner, i, node, a.v, owner', node.(doubly := a.found.value)))
  {
    hide Word, InodeBlock, Mapped, Agreement, AllocateBlock, SameMap, Tied, Tables, Recorded, Kept;
    if node.doubly == 0 {
      owner' := AllocateFor(v, owner, Doubly(i));
      var a := AllocateBlock(v);
      if a.found.Some? {
        NewDoubly(v, owner, i, node, a.v, owner', a.found.value);
        NewDoublyMap(v, owner, i, node, a.v, a.found.value);
      }
    } else {
      owner' := owner;
      TreeKeptSame(v, owner, i, node);
      assert node == node.(doubly := node.doubly);
    }
  }

  lemma NewDoubly(v: Volume, owner: Owners, i: nat, node: Inode, w: Volume, owner': Owners, d: nat)
    requires Shape(v) && Shape(w) && Recorded(v, owner) && Kept(v, owner, w, owner', i) && node.Fits()
    requires Tables(v, owner, i, node) && node.doubly == 0
    requires d < |v.store| && d !in owner && w.store == v.store[d := Zeros(v.geo.blockSize)]
    requires Holds(w, owner', d, Doubly(i)) && d < 0x1_0000_0000 && owner' == owner[d := Doubly(i)]
    ensures Tied(v, owner, i, node) ==> Tied(w, owner', i, node.(doubly := d))
    ensures Tables(w, owner', i, node.(doubly := d))
  {
    forall k | 0 <= k < Pointers(w)
      ensures Word(w.store[d], k) == 0
    {
      WordOfZeros(v.geo.blockSize, k);
    }
  }

  lemma NewDoublyMap(v: Volume, owner: Owners, i: nat, node: Inode, w: Volume, d: nat)
    requires Shape(v) && Shape(w) && v.geo == w.geo && node.Fits()
    requires Tables(v, owner, i, node) && node.doubly == 0 && d < 0x1_0000_0000
    requires 0 < d < |v.store| && d !in owner && w.store == v.store[d := Zeros(v.geo.blockSize)]
    ensures SameMap(v, node, w, node.(doubly := d))
  {
    hide Word, Mapped, Top, Low;
    var node' := node.(doubly := d);
    forall x | 0 <= x < MaxLogical(v)
      ensures Mapped(w, node', x) == Mapped(v, node, x)
    {
      SameRules(v, w, node, node', x);
      if x >= 12 + Pointers(v) {
        WordOfZeros(v.geo.blockSize, Top(v, x));
      }
    }
  }

  /** Linking a new zeroed table `c` at index `t` of the top table changes no mapping. */
  lemma NewChild(v: Volume, owner: Owners, i: nat, node: Inode, w: Volume, owner': Owners, t: nat, c: nat)
    requires Shape(v) && Shape(w) && Recorded(v, owner) && Kept(v, owner, w, owner', i) && node.Fits()
    requires Tables(v, owner, i, node) && node.doubly != 0 && t < Pointers(v) && Word(v.store[node.doubly], t) == 0
    requires 0 < c < |v.store| && c !in owner && w.store == v.store[c := Zeros(v.geo.blockSize)]
    requires Holds(w, owner', c, Child(i, t)) && c < 0x1_0000_0000 && owner' == owner[c := Child(i, t)]
    ensures Plain(w, node.doubly)
    ensures var u := StoreBlock(w, node.doubly, PutWord(w.store[node.doubly], t, c));
      && (Tied(v, owner, i, node) ==> Tied(u, owner', i, node))
      && Tables(u, owner', i, node) && SameMap(v, node, u, node) && Word(u.store[node.doubly], t) == c
  {
    hide Word, PutWord, Mapped, MaxLogical, Recorded, Sound;
    var d := node.doubly;
    var u := StoreBlock(w, d, PutWord(w.store[d], t, c));
    forall k | 0 <= k < Pointers(u)
      ensures Word(u.store[d], k) == if k == t then c else Word(v.store[d], k)
    {
      WordOfPut(w.store[d], t, c, k);
    }
    NewChildTables(v, owner, i, node, u, owner', t, c);
    forall x | 0 <= x < MaxLogical(v)
      ensures Mapped(u, node, x) == Mapped(v, node, x)
    {
      NewChildAt(v, owner, i, node, u, t, c, x);
    }
  }

  lemma NewChildTables(v: Volume, owner: Owners, i: nat, node: Inode, u: Volume, owner': Owners, t: nat, c: nat)
    requires Shape(v) && Shape(u) && u.geo == v.geo && Recorded(v, owner) && Tables(v, owner, i, node)
    requires node.doubly != 0
    requires t < Pointers(v) && Word(v.store[node.doubly], t) == 0
    requires 0 < c < |v.store| && c !in owner && owner' == owner[c := Child(i, t)] && Plain(u, c)
    requires Plain(u, node.doubly)
    requires |u.store| == |v.store| && forall b :: 0 <= b < |v.store| ==> |u.store[b]| == |v.store[b]|
    requires forall k :: 0 <= k < Pointers(v) ==>
      Word(u.store[node.doubly], k) == if k == t then c else Word(v.store[node.doubly], k)
    ensures Tables(u, owner', i, node)
    ensures Tied(v, owner, i, node) ==> Tied(u, owner', i, node)
  {
    hide Word, Sound;
    forall k | 0 <= k < Pointers(u)
      ensures ChildHeld(u, owner', i, node.doubly, k)
    {
      assert ChildHeld(v, owner, i, node.doubly, k);
    }
  }

  lemma NewChildAt(v: Volume, owner: Owners, i: nat, node: Inode, u: Volume, t: nat, c: nat, x: nat)
    requires Shape(v) && Shape(u) && u.geo == v.geo && node.Fits() && x < MaxLogical(v)
    requires Tables(v, owner, i, node) && node.doubly != 0 && t < Pointers(v) && Word(v.store[node.doubly], t) == 0
    requires 0 < c < |v.store| && c !in owner
    requires forall b :: 0 <= b < |v.store| && b != node.doubly && b != c ==> u.store[b] == v.store[b]
    requires u.store[c] == Zeros(v.geo.blockSize) && Plain(u, node.doubly)
    requires forall k :: 0 <= k < Pointers(v) ==>
      Word(u.store[node.doubly], k) == if k == t then c else Word(v.store[node.doubly], k)
    ensures Mapped(u, node, x) == Mapped(v, node, x)
  {
    hide Word, Mapped, Top, Low, MaxLogical;
    SameRules(v, u, node, node, x);
    if 12 + Pointers(v) <= x {
      assert ChildHeld(v, owner, i, node.doubly, Top(v, x));
      WordOfZeros(v.geo.blockSize, Low(v, x));
    }
  }

  lemma EnsureChildTable(v: Volume, owner: Owners, i: nat, node: Inode, t: nat) returns (owner': Owners)
    requires Shape(v) && Agreement(v) && Recorded(v, owner) && node.Fits() && Tables(v, owner, i, node)
    requires node.doubly != 0 && t < Pointers(v)
    ensures var c := EnsureChild(v, node.doubly, t);
      && TreeKept(v, owner, i, node, c.v, owner', node)
      && (c.found.Some? ==>
            && 0 < c.found.value && Plain(c.v, node.doubly)
            && Word(c.v.store[node.doubly], t) == c.found.value)
  {
    hide Word, InodeBlock, Mapped, Agreement, AllocateBlock, SameMap, PutWord, Tied, Kept, Recorded, TreeKept;
    assert ChildHeld(v, owner, i, node.doubly, t);
    if Word(v.store[node.doubly], t) == 0 {
      owner' := AllocateFor(v, owner, Child(i, t));
      var a := AllocateBlock(v);
      if a.found.Some? {
        LinkChild(v, owner, i, node, a.v, owner', t, a.found.value);
      } else {
        TreeKeptSame(v, owner, i, node);
      }
    } else {
      owner' := owner;
      TreeKeptSame(v, owner, i, node);
    }
  }

  lemma LinkChild(v: Volume, owner: Owners, i: nat, node: Inode, w: Volume, owner': Owners, t: nat, c: nat)
    requires Shape(v) && Shape(w) && w.geo == v.geo && Recorded(v, owner) && Kept(v, owner, w, owner', i) && node.Fits()
    requires Agreement(w) && Recorded(w, owner')
    requires Tables(v, owner, i, node) && node.doubly != 0 && t < Pointers(v) && Word(v.store[node.doubly], t) == 0
    requires 0 < c < |v.store| && c !in owner && w.store == v.store[c := Zeros(v.geo.blockSize)]
    requires Plain(w, c) && c < 0x1_0000_0000 && owner' == owner[c := Child(i, t)]
    ensures Plain(w, node.doubly)
    ensures var u := StoreBlock(w, node.doubly, PutWord(w.store[node.doubly], t, c));
      TreeKept(v, owner, i, node, u, owner', node) && Plain(u, node.doubly) && Word(u.store[node.doubly], t) == c
  {
    hide Word, Mapped, Agreement, SameMap, PutWord, Tied, Kept, Recorded;
    NewChild(v, owner, i, node, w, owner', t, c);
    StoreKept(w, owner', i, node.doubly, PutWord(w.store[node.doubly], t, c));
    RecordedUsed(v, owner);
    KeptTransitive(v, owner, w, owner', StoreBlock(w, node.doubly, PutWord(w.store[node.doubly], t, c)), owner', i);
  }

  lemma TablesChildWritten(v: Volume, owner: Owners, i: nat, node: Inode, t: nat, c: nat, k: nat, p: nat)
    requires Shape(v) && Tables(v, owner, i, node) && node.doubly != 0
    requires t < Pointers(v) && c != 0 && Word(v.store[node.doubly], t) == c
    requires k < Pointers(v) && p < 0x1_0000_0000
    ensures Holds(v, owner, c, Child(i, t))
    ensures Tables(StoreBlock(v, c, PutWord(v.store[c], k, p)), owner, i, node)
    ensures Tied(v, owner, i, node) ==> Tied(StoreBlock(v, c, PutWord(v.store[c], k, p)), owner, i, node)
  {
    hide Word, PutWord;
    assert ChildHeld(v, owner, i, node.doubly, t);
    var w := StoreBlock(v, c, PutWord(v.store[c], k, p));
    forall j | 0 <= j < Pointers(w)
      ensures ChildHeld(w, owner, i, node.doubly, j)
    {
      assert ChildHeld(v, owner, i, node.doubly, j);
    }
  }

  lemma ChildAt(v: Volume, owner: Owners, i: nat, node: Inode, t: nat, c: nat, k: nat, p: nat, x: nat)
    requires Shape(v) && Tables(v, owner, i, node) && node.doubly != 0 && node.Fits()
    requires t < Pointers(v) && c != 0 && Word(v.store[node.doubly], t) == c && Holds(v, owner, c, Child(i, t))
    requires k < Pointers(v) && p < 0x1_0000_0000 && x < MaxLogical(v)
    ensures var u := StoreBlock(v, c, PutWord(v.store[c], k, p));
      Mapped(u, node, x) == if x == 12 + Pointers(v) + t * Pointers(v) + k then p else Mapped(v, node, x)
  {
    hide Word, PutWord, Mapped, Top, Low, MaxLogical, Entry;
    var u := StoreBlock(v, c, PutWord(v.store[c], k, p));
    SameRules(v, u, node, node, x);
    TopLowUnique(v, 12 + Pointers(v) + t * Pointers(v) + k, t, k);
    if 12 <= x < 12 + Pointers(v) {
      EntryWritten(v, c, k, p, node.indirect, x - 12);
    } else if 12 <= x {
      TopLow(v, x);
      assert ChildHeld(v, owner, i, node.doubly, Top(v, x));
      EntryWritten(v, c, k, p, node.doubly, Top(v, x));
      EntryWritten(v, c, k, p, Entry(v, node.doubly, Top(v, x)), Low(v, x));
      EntryOfTable(v, node.doubly, Top(v, x));
    }
  }

  lemma EntryOfTable(v: Volume, d: nat, t: nat)
    requires Shape(v) && Plain(v, d) && t < Pointers(v)
    ensures Entry(v, d, t) == Word(v.store[d], t)
  {
  }

  lemma SetDoubly(v: Volume, owner: Owners, i: nat, node: Inode, l: nat, p: nat) returns (owner': Owners)
    requires Shape(v) && Agreement(v) && Recorded(v, owner) && node.Fits() && Tables(v, owner, i, node)
    requires 12 + Pointers(v) <= l < MaxLogical(v) && p < 0x1_0000_0000
    ensures Grown(v, owner, i, node, SetInodeBlock(v, node, l, p), owner')
    ensures OnlyTables(owner, owner')
    ensures Remapped(v, node, SetInodeBlock(v, node, l, p), l, p)
  {
    hide Word, PutWord, InodeBlock, Mapped, Agreement, AllocateBlock, Tables, SameMap, EnsureBlock, EnsureChild, Tied,
      Kept, Recorded, Remapped, OnlyTables, Top, Low, TreeKept, Grown;
    TopLow(v, l);
    var r := SetInodeBlock(v, node, l, p);
    owner' := EnsureDoubly(v, owner, i, node);
    var a := EnsureBlock(v, node.doubly);
    if a.found.None? {
      NothingGrown(v, owner, i, node, l, p);
      NoNewTables(owner);
    } else {
      var owner1, node1 := owner', node.(doubly := a.found.value);
      TreeKeptFacts(v, owner, i, node, a.v, owner1, node1);
      owner' := EnsureChildTable(a.v, owner1, i, node1, Top(v, l));
      var c := EnsureChild(a.v, node1.doubly, Top(v, l));
      TreeKeptTransitive(v, owner, i, node, a.v, owner1, node1, c.v, owner', node1);
      TreeKeptFacts(v, owner, i, node, c.v, owner', node1);
      if c.found.None? {
        GrownNothing(v, owner, i, node, r, owner', l, p);
      } else {
        WriteChild(v, owner, i, node, node1, c.v, owner', Top(v, l), c.found.value, Low(v, l), p);
        WriteChildMaps(v, owner', i, node, node1, c.v, Top(v, l), c.found.value, Low(v, l), p);
      }
    }
  }

  lemma NoNewTables(owner: Owners)
    ensures OnlyTables(owner, owner)
  {
  }

  lemma TreeKeptFacts(v: Volume, owner: Owners, i: nat, node: Inode, w: Volume, owner': Owners, node': Inode)
    requires Shape(v) && Shape(w) && w.geo == v.geo && node.Fits() && node'.Fits()
    requires TreeKept(v, owner, i, node, w, owner', node')
    ensures Agreement(w) && Recorded(w, owner') && Tables(w, owner', i, node') && OnlyTables(owner, owner')
    ensures SameMap(v, node, w, node')
  {
  }

  lemma GrownNothing(v: Volume, owner: Owners, i: nat, node: Inode, r: Growth, owner': Owners, l: nat, p: nat)
    requires Shape(v) && Shape(r.v) && node.Fits() && r.node.Fits() && r.v.geo == v.geo && !r.ok
    requires TreeKept(v, owner, i, node, r.v, owner', r.node)
    ensures Grown(v, owner, i, node, r, owner') && Remapped(v, node, r, l, p)
  {
    hide Mapped, Agreement, Tables, Tied, Kept, Recorded, Sound;
  }

  lemma WriteChild(v: Volume, owner: Owners, i: nat, node: Inode, node': Inode, w: Volume,
                   owner': Owners, t: nat, c: nat, k: nat, p: nat)
    requires Shape(v) && Shape(w) && w.geo == v.geo && Recorded(v, owner) && node.Fits() && node'.Fits()
    requires TreeKept(v, owner, i, node, w, owner', node') && node'.doubly != 0 && Plain(w, node'.doubly)
    requires t < Pointers(v) && c != 0 && Word(w.store[node'.doubly], t) == c
    requires k < Pointers(v) && p < 0x1_0000_0000
    ensures Holds(w, owner', c, Child(i, t))
    ensures var r := WritePointer(w, node', c, k, p);
      r.ok && Shape(r.v) && Grown(v, owner, i, node, r, owner')
  {
    hide Word, PutWord, Mapped, Agreement, Tables, Kept, Recorded, SameMap, Tied;
    var r := WritePointer(w, node', c, k, p);
    TablesChildWritten(w, owner', i, node', t, c, k, p);
    StoreKept(w, owner', i, c, PutWord(w.store[c], k, p));
    RecordedUsed(v, owner);
    KeptTransitive(v, owner, w, owner', r.v, owner', i);
  }

  lemma RecordedUsed(v: Volume, owner: Owners)
    requires Shape(v) && Recorded(v, owner)
    ensures forall b :: b in owner ==> b < |v.used| && v.used[b]
  {
  }

  lemma WriteChildMaps(v: Volume, owner: Owners, i: nat, node: Inode, node': Inode, w: Volume,
                       t: nat, c: nat, k: nat, p: nat)
    requires Shape(v) && Shape(w) && w.geo == v.geo
    requires node.Fits() && node'.Fits() && node'.doubly != 0 && Tables(w, owner, i, node')
    requires SameMap(v, node, w, node')
    requires t < Pointers(v) && c != 0 && Word(w.store[node'.doubly], t) == c && Holds(w, owner, c, Child(i, t))
    requires k < Pointers(v) && p < 0x1_0000_0000
    ensures Remapped(v, node, WritePointer(w, node', c, k, p), 12 + Pointers(v) + t * Pointers(v) + k, p)
  {
    hide Word, PutWord, InodeBlock, Mapped, Agreement, Sound;
    var r := WritePointer(w, node', c, k, p);
    var l := 12 + Pointers(v) + t * Pointers(v) + k;
    forall x | 0 <= x < MaxLogical(v)
      ensures Mapped(r.v, r.node, x) == if x == l then p else Mapped(v, node, x)
    {
      ChildAt(w, owner, i, node', t, c, k, p, x);
    }
  }

  /** set_inode_block is a point update of the mapping from logical to physical blocks, also when
      it had to allocate one or two tables on the way; when it fails it maps nothing new. */
  lemma SetInodeBlockUpdates(v: Volume, owner: Owners, i: nat, node: Inode, l: nat, p: nat) returns (owner': Owners)
    requires Shape(v) && Agreement(v) && Recorded(v, owner) && node.Fits() && Tables(v, owner, i, node)
    requires p < 0x1_0000_0000
    ensures Grown(v, owner, i, node, SetInodeBlock(v, node, l, p), owner')
    ensures OnlyTables(owner, owner')
    ensures Remapped(v, node, SetInodeBlock(v, node, l, p), l, p)
    ensures l >= MaxLogical(v) ==> !SetInodeBlock(v, node, l, p).ok
  {
    hide Word, PutWord, Agreement, Tables, EnsureBlock, EnsureChild, WritePointer, Tied, Grown, Remapped;
    if l < 12 {
      owner' := owner;
      SetDirect(v, owner, i, node, l, p);
    } else if l < 12 + Pointers(v) {
      owner' := SetIndirect(v, owner, i, node, l, p);
    } else if l < MaxLogical(v) {
      owner' := SetDoubly(v, owner, i, node, l, p);
    } else {
      owner' := owner;
      NothingGrown(v, owner, i, node, l, p);
    }
  }

  lemma SetDirect(v: Volume, owner: Owners, i: nat, node: Inode, l: nat, p: nat)
    requires Shape(v) && Agreement(v) && Recorded(v, owner) && node.Fits() && Tables(v, owner, i, node)
    requires l < 12 && p < 0x1_0000_0000
    ensures Grown(v, owner, i, node, SetInodeBlock(v, node, l, p), owner)
    ensures Remapped(v, node, SetInodeBlock(v, node, l, p), l, p)
  {
    hide Word, PutWord, Agreement, Tables, EnsureBlock, EnsureChild, WritePointer, Tied;
    KeptSame(v, owner, i);
    DirectIrrelevant(v, owner, i, node, node.direct[l := p]);
  }

  lemma DirectIrrelevant(v: Volume, owner: Owners, i: nat, node: Inode, direct: seq<nat>)
    requires Shape(v) && Tables(v, owner, i, node)
    ensures Tables(v, owner, i, node.(direct := direct))
    ensures Tied(v, owner, i, node) ==> Tied(v, owner, i, node.(direct := direct))
  {
  }
}
