/** The operations of the engine, the invariant they keep, and the tree of files and directories
    that the volume stands for. */
module FileSystem {
  import opened Bytes
  import opened Geometry
  import opened Volumes
  import opened PointerTree
  import opened Ownership
  import opened Files
  import opened Release
  import opened DirBlock
  import opened Directories

  // ---- what the volume stands for ----

  datatype Node = File(content: seq<Byte>) | Dir(entries: map<Name, nat>, links: nat)

  const ROOT := 2

  /** Inode numbers a directory entry may name: the root and what allocate_inode hands out. */
  predicate Ordinary(g: Geometry, i: nat) {
    i == ROOT || g.firstIno <= i
  }

  predicate Active(v: Volume, i: nat)
    requires Shape(v)
  {
    ValidInode(v, i) && Ordinary(v.geo, i) && (InodeOf(v, i).IsDir() || InodeOf(v, i).IsFile())
  }

  function NodeOf(v: Volume, i: nat): Node
    requires Shape(v) && ValidInode(v, i)
  {
    var node := InodeOf(v, i);
    if node.IsDir() then Dir(DirMap(v, node), node.links) else File(Content(v, node))
  }

  type Tree = map<nat, Node>

  /** All files and directories of the volume, by inode number. */
  function View(v: Volume): Tree
    requires Shape(v)
  {
    map i: nat | 0 < i <= v.geo.inodesCount && Active(v, i) :: NodeOf(v, i)
  }

  // ---- the invariant of the volume ----

  predicate InodeOk(v: Volume, owner: Owners, i: nat)
    requires Shape(v) && ValidInode(v, i)
  {
    var node := InodeOf(v, i);
    v.iused[i - 1] && node.size < 0x8000_0000 && FileAt(v, owner, i) && (node.IsDir() ==> DirOk(v, node))
  }

  /** The counts agree, every block on record is in use by a live inode, and every live inode is marked
      used, owns every block of its tree, and is well formed if it is a directory. */
  predicate StoreOk(v: Volume, owner: Owners) {
    && Shape(v) && Agreement(v) && Recorded(v, owner)
    && (forall b :: b in owner ==> Active(v, owner[b].inode))
    && (forall i :: 0 < i <= v.geo.inodesCount && Active(v, i) ==> InodeOk(v, owner, i))
  }

  /** From `v` to `w` inode `j` and everything it owns stayed as it was. */
  predicate Untouched(v: Volume, owner: Owners, w: Volume, owner': Owners, j: nat)
    requires Shape(v) && Shape(w) && ValidInode(v, j) && w.geo == v.geo
  {
    && InodeOf(w, j) == InodeOf(v, j) && (v.iused[j - 1] ==> w.iused[j - 1])
    && Undisturbed(v, owner, w, owner', j)
  }

  lemma UntouchedInode(v: Volume, owner: Owners, w: Volume, owner': Owners, j: nat)
    requires Shape(v) && Shape(w) && ValidInode(v, j) && w.geo == v.geo && Untouched(v, owner, w, owner', j)
    requires Active(v, j) && InodeOk(v, owner, j)
    ensures InodeOk(w, owner', j) && NodeOf(w, j) == NodeOf(v, j)
  {
    hide Mapped, Tables, CeilDiv, NamesOf, WellFormed, Content, DirBlocks;
    var node := InodeOf(v, j);
    UndisturbedFile(v, owner, w, owner', j, node, BlockCount(v, node.size));
    if node.IsDir() {
      UntouchedBlocks(v, owner, w, owner', j);
    }
  }

  /** A directory nobody touched has the blocks it had. */
  lemma UntouchedBlocks(v: Volume, owner: Owners, w: Volume, owner': Owners, j: nat)
    requires Shape(v) && Shape(w) && ValidInode(v, j) && w.geo == v.geo && Undisturbed(v, owner, w, owner', j)
    requires FileAt(v, owner, j)
    ensures DirBlocks(w, InodeOf(v, j)) == DirBlocks(v, InodeOf(v, j))
  {
    hide Mapped, Tables, CeilDiv;
    var node := InodeOf(v, j);
    UndisturbedFile(v, owner, w, owner', j, node, BlockCount(v, node.size));
    forall l | 0 <= l < BlockCount(v, node.size)
      ensures BlockOf(w, node, l) == BlockOf(v, node, l)
    {
      assert Holds(v, owner, Mapped(v, node, l), Data(j, l));
    }
  }

  /** A step that changes at most inode `i` changes the view at most there. */
  lemma StepAt(v: Volume, owner: Owners, w: Volume, owner': Owners, i: nat)
    requires StoreOk(v, owner) && Shape(w) && w.geo == v.geo && ValidInode(v, i)
    requires Agreement(w) && Recorded(w, owner')
    requires forall j :: 0 < j <= v.geo.inodesCount && j != i ==> Untouched(v, owner, w, owner', j)
    requires forall b :: b in owner' ==> owner'[b].inode == i || (b in owner && owner'[b] == owner[b])
    requires Active(w, i) ==> InodeOk(w, owner', i)
    requires (exists b :: b in owner' && owner'[b].inode == i) ==> Active(w, i)
    ensures StoreOk(w, owner')
    ensures View(w) == if Active(w, i) then View(v)[i := NodeOf(w, i)] else View(v) - {i}
  {
    hide NodeOf, InodeOk, Agreement, Recorded, Undisturbed, View;
    forall j | 0 < j <= v.geo.inodesCount && j != i && Active(v, j)
      ensures Active(w, j) && InodeOk(w, owner', j) && NodeOf(w, j) == NodeOf(v, j)
    {
      assert Untouched(v, owner, w, owner', j);
      UntouchedInode(v, owner, w, owner', j);
    }
    forall j | 0 < j <= v.geo.inodesCount && j != i && Active(w, j)
      ensures Active(v, j)
    {
      assert Untouched(v, owner, w, owner', j);
    }
    ViewElsewhere(v, w, i);
  }

  lemma ViewElsewhere(v: Volume, w: Volume, i: nat)
    requires Shape(v) && Shape(w) && w.geo == v.geo && ValidInode(v, i)
    requires forall j :: 0 < j <= v.geo.inodesCount && j != i ==> (Active(w, j) <==> Active(v, j))
    requires forall j :: 0 < j <= v.geo.inodesCount && j != i && Active(v, j) ==> NodeOf(w, j) == NodeOf(v, j)
    ensures View(w) == if Active(w, i) then View(v)[i := NodeOf(w, i)] else View(v) - {i}
  {
    hide NodeOf;
  }

  lemma ConfinedStep(v: Volume, owner: Owners, w: Volume, owner': Owners, i: nat)
    requires StoreOk(v, owner) && Shape(w) && ValidInode(v, i) && Confined(v, owner, w, owner', i)
    requires Agreement(w) && Recorded(w, owner') && w.inodes == v.inodes[i - 1 := w.inodes[i - 1]]
    requires Active(w, i) && InodeOk(w, owner', i)
    ensures StoreOk(w, owner') && View(w) == View(v)[i := NodeOf(w, i)]
  {
    hide NodeOf, InodeOk, Agreement, Recorded, Undisturbed, View, Sound;
    forall j | 0 < j <= v.geo.inodesCount && j != i
      ensures Untouched(v, owner, w, owner', j)
    {
      ConfinedUndisturbed(v, owner, w, owner', i, j);
    }
    StepAt(v, owner, w, owner', i);
  }

  lemma SameView(v: Volume, i: nat)
    requires Shape(v) && Active(v, i)
    ensures i in View(v) && View(v)[i] == NodeOf(v, i) && View(v)[i := NodeOf(v, i)] == View(v)
  {
    hide NodeOf;
  }

  // ---- keeping track of blocks ----

  /** Inode `i` is no live one, or nothing it was given got lost and, for a file, its counts are right. */
  predicate Good(v: Volume, owner: Owners, i: nat)
    requires Shape(v)
  {
    Active(v, i) ==> NothingLost(v, owner, i) && (InodeOf(v, i).IsFile() ==> Accounted(v, i))
  }

  /** `owner'` is an honest continuation of the record `owner`: what was taken is on it; what was on it
      still is, unless the inode is gone; and inodes stay good, `bad` excepted. A block is dropped from it
      while in use only if its inode had lost something. */
  predicate Ledger(v: Volume, owner: Owners, w: Volume, owner': Owners, bad: nat)
    requires Shape(v) && Shape(w)
  {
    && w.geo == v.geo
    && (forall b :: 0 <= b < |v.store| ==> |w.store[b]| == |v.store[b]|)
    && (forall b :: 0 <= b < |w.used| && w.used[b] && !v.used[b] ==> b in owner')
    && (forall b :: b in owner ==> RecordKept(v, owner, w, owner', b))
    && (forall b :: 0 <= b < |v.used| && LostBlock(v, owner, b) ==> LostBlock(w, owner', b))
    && (forall j :: 0 < j <= v.geo.inodesCount && j != bad && Good(v, owner, j) ==> Good(w, owner', j))
  }

  /** Data block `b` of the record `s` is where the record says. */
  predicate DataPlaced(v: Volume, s: Slot, b: nat)
    requires Shape(v) && ValidInode(v, s.inode) && s.Data?
  {
    s.logical < BlockCount(v, InodeOf(v, s.inode).size) && Mapped(v, InodeOf(v, s.inode), s.logical) == b
  }

  /** A block in use that is on no record, or on record as data that is not there. */
  predicate LostBlock(v: Volume, owner: Owners, b: nat)
    requires Shape(v)
  {
    && b < |v.used| && v.used[b] && Plain(v, b)
    && (b in owner ==> owner[b].Data? && ValidInode(v, owner[b].inode) && !DataPlaced(v, owner[b], b))
  }

  predicate RecordKept(v: Volume, owner: Owners, w: Volume, owner': Owners, b: nat)
    requires Shape(v) && Shape(w) && b in owner
  {
    || (b in owner' && owner'[b] == owner[b])
    || (NotLive(w, owner[b].inode) && (NothingLostBy(v, owner, owner[b].inode) ==> b < |w.used| && !w.used[b]))
  }

  predicate NotLive(w: Volume, i: nat)
    requires Shape(w)
  {
    !Active(w, i)
  }

  predicate NothingLostBy(v: Volume, owner: Owners, i: nat)
    requires Shape(v)
  {
    ValidInode(v, i) && NothingLost(v, owner, i)
  }

  /** Records are only added. */
  predicate Extended(owner: Owners, owner': Owners) {
    forall b :: b in owner ==> b in owner' && owner'[b] == owner[b]
  }

  lemma LedgerSame(v: Volume, owner: Owners)
    requires Shape(v)
    ensures Ledger(v, owner, v, owner, 0) && Extended(owner, owner)
  {
    hide Good, LostBlock;
  }

  lemma LedgerThen(v: Volume, o: Owners, w: Volume, o1: Owners, x: Volume, o2: Owners, bad: nat)
    requires Shape(v) && Shape(w) && Shape(x) && Ledger(v, o, w, o1, 0) && Ledger(w, o1, x, o2, bad)
    requires Extended(o, o1) && Extended(o1, o2)
    ensures Ledger(v, o, x, o2, bad) && Extended(o, o2)
  {
    hide Good, NotLive, NothingLostBy, LostBlock;
  }

  /** An inode that nothing was taken from or added to stays good. */
  lemma UntouchedGood(v: Volume, owner: Owners, w: Volume, owner': Owners, j: nat)
    requires StoreOk(v, owner) && Shape(w) && ValidInode(v, j) && w.geo == v.geo && Untouched(v, owner, w, owner', j)
    requires forall b :: b in owner' && owner'[b].inode == j ==> b in owner && owner[b] == owner'[b]
    ensures Good(v, owner, j) ==> Good(w, owner', j)
  {
    hide StoreOk, Untouched, NothingLost, Accounted, FileAt, DirOk, Agreement, Sound, Recorded;
    StoreOkFacts(v, owner, j);
    SameInode(v, owner, w, owner', j);
    if Good(v, owner, j) && Active(v, j) {
      UntouchedPlaced(v, owner, w, owner', j);
      UntouchedAccounted(v, owner, w, owner', j);
    }
  }

  lemma SameInode(v: Volume, owner: Owners, w: Volume, owner': Owners, j: nat)
    requires Shape(v) && Shape(w) && ValidInode(v, j) && w.geo == v.geo && Untouched(v, owner, w, owner', j)
    ensures InodeOf(w, j) == InodeOf(v, j) && (Active(w, j) <==> Active(v, j))
  {
    hide Sound, Undisturbed;
  }

  lemma UntouchedPlaced(v: Volume, owner: Owners, w: Volume, owner': Owners, j: nat)
    requires Shape(v) && Shape(w) && ValidInode(v, j) && w.geo == v.geo && Untouched(v, owner, w, owner', j)
    requires forall b :: b in owner' && owner'[b].inode == j ==> b in owner && owner[b] == owner'[b]
    requires FileAt(v, owner, j) && NothingLost(v, owner, j)
    ensures NothingLost(w, owner', j)
  {
    hide Mapped, Word, CeilDiv, Sound;
    UndisturbedFile(v, owner, w, owner', j, InodeOf(v, j), BlockCount(v, InodeOf(v, j).size));
  }

  lemma UntouchedAccounted(v: Volume, owner: Owners, w: Volume, owner': Owners, j: nat)
    requires Shape(v) && Shape(w) && ValidInode(v, j) && w.geo == v.geo && Untouched(v, owner, w, owner', j)
    requires FileAt(v, owner, j)
    ensures InodeOf(w, j) == InodeOf(v, j) && (Accounted(v, j) ==> Accounted(w, j))
  {
    hide Mapped, Word, CeilDiv, Sound, DataHeld;
  }

  /** A lost block of an inode nobody touched stays lost. */
  lemma LostElsewhere(v: Volume, owner: Owners, w: Volume, owner': Owners, b: nat)
    requires StoreOk(v, owner) && Shape(w) && w.geo == v.geo && LostBlock(v, owner, b) && b in owner
    requires b < |w.used| && w.used[b] && Plain(w, b) && b in owner' && owner'[b] == owner[b]
    requires ValidInode(v, owner[b].inode) ==> Untouched(v, owner, w, owner', owner[b].inode)
    ensures LostBlock(w, owner', b)
  {
    hide Mapped, CeilDiv, Sound, StoreOk, DirOk, Tables, DataHeld;
    RecordIsLive(v, owner, b);
    var j := owner[b].inode;
    StoreOkFacts(v, owner, j);
    UndisturbedFile(v, owner, w, owner', j, InodeOf(v, j), BlockCount(v, InodeOf(v, j).size));
  }

  lemma RecordIsLive(v: Volume, owner: Owners, b: nat)
    requires StoreOk(v, owner) && b in owner
    ensures Shape(v) && Active(v, owner[b].inode)
  {
    hide Agreement, InodeOk;
  }

  lemma LostConfined(v: Volume, owner: Owners, w: Volume, owner': Owners, i: nat, b: nat)
    requires StoreOk(v, owner) && Shape(w) && ValidInode(v, i) && Confined(v, owner, w, owner', i)
    requires w.inodes == v.inodes[i - 1 := w.inodes[i - 1]] && NoReturn(v, owner, i, InodeOf(v, i), w, InodeOf(w, i))
    requires LostBlock(v, owner, b)
    ensures LostBlock(w, owner', b)
  {
    hide Mapped, CeilDiv, Sound, StoreOk;
    StoreOkFacts(v, owner, i);
    if b in owner && owner[b].inode != i {
      RecordIsLive(v, owner, b);
      ConfinedUndisturbed(v, owner, w, owner', i, owner[b].inode);
      LostElsewhere(v, owner, w, owner', b);
    }
  }

  /** A step confined to inode `i` is honest, and all other inodes stay good. */
  lemma ConfinedLedger(v: Volume, owner: Owners, w: Volume, owner': Owners, i: nat)
    requires StoreOk(v, owner) && Shape(w) && ValidInode(v, i) && Confined(v, owner, w, owner', i)
    requires w.inodes == v.inodes[i - 1 := w.inodes[i - 1]] && NoReturn(v, owner, i, InodeOf(v, i), w, InodeOf(w, i))
    ensures Ledger(v, owner, w, owner', i)
    ensures Extended(owner, owner')
    ensures (Good(v, owner, i) ==> Good(w, owner', i)) ==> Ledger(v, owner, w, owner', 0)
  {
    hide StoreOk, Good, Undisturbed, Sound, Active, Agreement, Recorded, NotLive, NothingLostBy, LostBlock, NoReturn;
    StoreOkFacts(v, owner, i);
    forall j | 0 < j <= v.geo.inodesCount && j != i
      ensures Good(v, owner, j) ==> Good(w, owner', j)
    {
      ConfinedUndisturbed(v, owner, w, owner', i, j);
      UntouchedGood(v, owner, w, owner', j);
    }
    forall b | LostBlock(v, owner, b)
      ensures LostBlock(w, owner', b)
    {
      LostConfined(v, owner, w, owner', i, b);
    }
  }

  lemma NoRecordOfInactive(v: Volume, owner: Owners, i: nat)
    requires StoreOk(v, owner) && !Active(v, i)
    ensures forall b :: b in owner ==> owner[b].inode != i
  {
    hide Agreement, InodeOk;
  }

  /** Making inode `i`, which was no live one, good. */
  lemma FreshLedger(v: Volume, owner: Owners, w: Volume, owner': Owners, i: nat)
    requires StoreOk(v, owner) && Shape(w) && ValidInode(v, i) && !Active(v, i) && w.geo == v.geo
    requires forall j :: 0 < j <= v.geo.inodesCount && j != i ==> Untouched(v, owner, w, owner', j)
    requires Extended(owner, owner')
    requires forall b :: b in owner' && b !in owner ==> owner'[b].inode == i
    requires forall b :: 0 <= b < |w.used| && w.used[b] && !v.used[b] ==> b in owner'
    requires forall b :: 0 <= b < |v.store| ==> |w.store[b]| == |v.store[b]|
    requires forall b :: 0 <= b < |v.used| && v.used[b] ==> w.used[b]
    requires forall b :: b in owner' && b !in owner ==> b < |v.used| && !v.used[b]
    requires Good(w, owner', i)
    ensures Ledger(v, owner, w, owner', 0)
  {
    hide StoreOk, Good, Untouched, Sound, Agreement, NotLive, NothingLostBy, LostBlock;
    StoreOkFacts(v, owner, i);
    forall j | 0 < j <= v.geo.inodesCount && j != i
      ensures Good(v, owner, j) ==> Good(w, owner', j)
    {
      UntouchedGood(v, owner, w, owner', j);
    }
    forall b | LostBlock(v, owner, b)
      ensures LostBlock(w, owner', b)
    {
      LostBefore(v, owner, w, owner', i, b);
    }
  }

  lemma LostBefore(v: Volume, owner: Owners, w: Volume, owner': Owners, i: nat, b: nat)
    requires StoreOk(v, owner) && Shape(w) && w.geo == v.geo && !Active(v, i) && LostBlock(v, owner, b)
    requires forall j :: 0 < j <= v.geo.inodesCount && j != i ==> Untouched(v, owner, w, owner', j)
    requires Extended(owner, owner') && forall c :: c in owner' && c !in owner ==> c < |v.used| && !v.used[c]
    requires forall c :: 0 <= c < |v.store| ==> |w.store[c]| == |v.store[c]|
    requires forall c :: 0 <= c < |v.used| && v.used[c] ==> w.used[c]
    ensures LostBlock(w, owner', b)
  {
    hide Mapped, CeilDiv, Sound, StoreOk, Untouched, Active, Agreement;
    StoreOkFacts(v, owner, i);
    if b in owner {
      RecordIsLive(v, owner, b);
      LostElsewhere(v, owner, w, owner', b);
    }
  }

  // ---- writing a file ----

  /** ext2_write_file either replaces the contents of that one file by the buffer, or changes nothing
      that can be seen. */
  lemma WriteStep(v: Volume, owner: Owners, i: nat, buf: seq<Byte>) returns (owner': Owners)
    requires StoreOk(v, owner) && Active(v, i) && |buf| < 0x8000_0000
    ensures var r := WriteFile(v, i, buf);
      && StoreOk(r.v, owner')
      && View(r.v) == (if r.ok then View(v)[i := File(buf)] else View(v))
      && (r.ok ==> i in View(v) && View(v)[i].File? && |View(v)[i].content| <= |buf|)
  {
    if InodeOf(v, i).IsFile() {
      owner' := WriteStepFile(v, owner, i, buf);
    } else {
      owner' := owner;
    }
  }

  lemma WriteStepFile(v: Volume, owner: Owners, i: nat, buf: seq<Byte>) returns (owner': Owners)
    requires StoreOk(v, owner) && Active(v, i) && InodeOf(v, i).IsFile() && |buf| < 0x8000_0000
    ensures var r := WriteFile(v, i, buf);
      && StoreOk(r.v, owner')
      && View(r.v) == (if r.ok then View(v)[i := File(buf)] else View(v))
      && (r.ok ==> i in View(v) && View(v)[i].File? && |View(v)[i].content| <= |buf|)
      && Confined(v, owner, r.v, owner', i) && Recorded(v, owner)
      && (r.ok && NothingLost(v, owner, i) ==> NothingLost(r.v, owner', i))
      && (Growing(v, i, buf) && AllocateBlock(v).found.Some? ==> FirstTaken(v, i, owner'))
      && (forall j :: 0 < j <= v.geo.inodesCount && j != i ==> InodeOf(r.v, j) == InodeOf(v, j))
      && (!r.ok ==> r.v.inodes == v.inodes) && NoReturn(v, owner, i, InodeOf(v, i), r.v, InodeOf(r.v, i))
  {
    hide Content, View, Agreement, Recorded, FileAt, Sound, NothingLost, WriteFile, StoreOk, Confined, Growing,
      FirstTaken, AllocateBlock, NoReturn;
    StoreOkFacts(v, owner, i);
    owner' := WriteFileWrites(v, owner, i, buf);
    var r := WriteFile(v, i, buf);
    SameView(v, i);
    ConfinedInodeOk(v, owner, r.v, owner', i);
    ConfinedStep(v, owner, r.v, owner', i);
    if r.ok {
      WriteNeedsRoom(v, i, buf);
    }
  }

  lemma StoreOkFacts(v: Volume, owner: Owners, i: nat)
    requires StoreOk(v, owner)
    ensures Shape(v) && Agreement(v) && Recorded(v, owner)
    ensures Active(v, i) ==> InodeOk(v, owner, i)
  {
  }

  lemma ConfinedInodeOk(v: Volume, owner: Owners, w: Volume, owner': Owners, i: nat)
    requires Shape(v) && Shape(w) && ValidInode(v, i) && Confined(v, owner, w, owner', i) && v.iused[i - 1]
    requires InodeOf(w, i).size < 0x8000_0000 && FileAt(w, owner', i)
    requires InodeOf(w, i).IsDir() ==> DirOk(w, InodeOf(w, i))
    ensures InodeOk(w, owner', i)
  {
  }

  lemma WriteNeedsRoom(v: Volume, i: nat, buf: seq<Byte>)
    requires Shape(v) && ValidInode(v, i) && |buf| < 0x8000_0000 && WriteFile(v, i, buf).ok
    ensures InodeOf(v, i).IsFile() && |Content(v, InodeOf(v, i))| <= |buf|
  {
  }

  // ---- what readers see ----

  /** The first `size` bytes, or all of them if there are fewer. */
  function Prefix(buf: seq<Byte>, size: nat): seq<Byte> {
    buf[..Min(size, |buf|)]
  }

  /** ext2_read_file returns the first `size` bytes of what the view holds. */
  lemma ReadSeesView(v: Volume, owner: Owners, i: nat, size: nat)
    requires StoreOk(v, owner) && i in View(v) && View(v)[i].File?
    ensures ReadFile(v, i, size) == Some(Prefix(View(v)[i].content, size))
  {
    hide Content, Mapped, Agreement;
    var node := InodeOf(v, i);
    ReadFromContent(v, owner, i, node, 0, Min(size, node.size));
  }

  /** ext2_find_inode_in_dir is lookup in the view. */
  lemma FindSeesView(v: Volume, owner: Owners, dir: nat, name: Name)
    requires StoreOk(v, owner) && dir in View(v)
    ensures FindInDir(v, dir, name)
         == if View(v)[dir].Dir? && 0 < |name| <= EXT2_MAX_NAME_LEN && name in View(v)[dir].entries
            then Some(View(v)[dir].entries[name]) else None
  {
    hide Content, Mapped, Agreement, DirMap, FindFrom;
    if View(v)[dir].Dir? && 0 < |name| <= EXT2_MAX_NAME_LEN {
      FindInDirLooksUp(v, owner, dir, name);
    }
  }

  // ---- creating ----

  const EXT2_FT_REG_FILE: Byte := 1
  const EXT2_FT_DIR: Byte := 2
  const DOT: Name := [46]
  const DOTDOT: Name := [46, 46]

  datatype Created = Created(v: Volume, inode: Option<nat>)

  /** A regular file with mode 0644 and nothing in it. */
  function NewFileInode(uid: nat): (r: Inode)
    ensures r.Fits() && r.IsFile()
  {
    BlankInode(0x81A4, uid % 0x1_0000, 0, 1, 0, [0, 0, 0, 0, 0, 0, 0, 0, 0, 0, 0, 0])
  }

  /** A directory with mode 0755 and one block. */
  function NewDirInode(blockSize: nat, uid: nat, block: nat): (r: Inode)
    requires blockSize <= 4096 && block < 0x1_0000_0000
    ensures r.Fits() && r.IsDir()
  {
    BlankInode(0x41ED, uid % 0x1_0000, blockSize, 2, blockSize / 512, [block, 0, 0, 0, 0, 0, 0, 0, 0, 0, 0, 0])
  }

  /** The entry checks shared by ext2_create_file and ext2_create_directory. */
  predicate MayCreate(v: Volume, cur: nat, name: Name)
    requires Shape(v)
  {
    && 0 < |name| <= EXT2_MAX_NAME_LEN && FindInDir(v, cur, name).None?
    && ValidInode(v, cur) && InodeOf(v, cur).IsDir()
  }

  /** Some inode that may be handed out is free. */
  predicate InodeFree(v: Volume)
    requires Shape(v)
  {
    exists z :: 0 <= z < v.geo.inodesCount && v.geo.firstIno <= z + 1 && !v.iused[z]
  }

  /** ext2_create_file would write the inode and then find no place for the name. */
  predicate FileLeftLoose(v: Volume, cur: nat, name: Name)
    requires Shape(v)
  {
    && MayCreate(v, cur, name) && InodeFree(v) && !RoomInside(DirBlocks(v, InodeOf(v, cur)), |name|)
    && (BlockCount(v, InodeOf(v, cur).size) >= 12 || v.freeBlocks == 0)
  }

  /** The same of ext2_create_directory, which takes a block of its own before it adds the name. */
  predicate DirLeftLoose(v: Volume, cur: nat, name: Name)
    requires Shape(v)
  {
    && MayCreate(v, cur, name) && InodeFree(v) && v.freeBlocks > 0
    && !RoomInside(DirBlocks(v, InodeOf(v, cur)), |name|)
    && (BlockCount(v, InodeOf(v, cur).size) >= 12 || v.freeBlocks == 1)
  }

  /** ext2_create_file in directory `cur`. */
  function CreateFile(v: Volume, cur: nat, name: Name, uid: nat): (r: Created)
    requires Shape(v)
    ensures Shape(r.v) && r.v.geo == v.geo
  {
    if !MayCreate(v, cur, name) then Created(v, None)
    else
      var a := AllocateInode(v);
      if a.found.None? then Created(a.v, None)
      else
        var w := WithInode(a.v, a.found.value, NewFileInode(uid));
        var r := AddEntry(w, InodeOf(v, cur), a.found.value, name, EXT2_FT_REG_FILE);
        if !r.ok then Created(r.v, None)
        else Created(WithInode(r.v, cur, r.node), a.found)
  }

  /** The first block of a new directory: "." and "..", the latter filling the block. */
  function DotBlock(blockSize: nat, self: nat, parent: nat): (r: Block)
    requires 1024 <= blockSize <= 4096 && self < 0x1_0000_0000 && parent < 0x1_0000_0000
    ensures |r| == blockSize
  {
    Splice(Splice(Zeros(blockSize), 0, Record(self, 12, DOT, EXT2_FT_DIR)),
           12, Record(parent, blockSize - 12, DOTDOT, EXT2_FT_DIR))
  }

  /** ext2_create_directory in directory `cur`. */
  function CreateDirectory(v: Volume, cur: nat, name: Name, uid: nat): (r: Created)
    requires Shape(v)
    ensures Shape(r.v) && r.v.geo == v.geo
  {
    if !MayCreate(v, cur, name) then Created(v, None)
    else
      var a := AllocateInode(v);
      if a.found.None? then Created(a.v, None)
      else
        var b := AllocateBlock(a.v);
        if b.found.None? then Created(b.v, None)
        else
          var w := NewDirectory(b.v, a.found.value, cur, uid, b.found.value);
          var r := AddEntry(w, InodeOf(v, cur), a.found.value, name, EXT2_FT_DIR);
          if !r.ok then Created(r.v, None)
          else Created(WithInode(r.v, cur, r.node.(links := (r.node.links + 1) % 0x1_0000)), a.found)
  }

  /** Write the first block and the inode of a new directory. */
  function NewDirectory(v: Volume, self: nat, parent: nat, uid: nat, block: nat): (r: Volume)
    requires Shape(v) && ValidInode(v, self) && ValidInode(v, parent) && Plain(v, block)
    ensures Shape(r) && r.geo == v.geo
  {
    WithInode(StoreBlock(v, block, DotBlock(v.geo.blockSize, self, parent)), self,
              NewDirInode(v.geo.blockSize, uid, block))
  }

  // ---- what creating does to the view ----

  lemma TakeInodeStep(v: Volume, owner: Owners, i: nat)
    requires StoreOk(v, owner) && ValidInode(v, i) && !v.iused[i - 1]
    ensures InodeGroupOf(v.geo, i - 1) < v.geo.groupCount
    ensures StoreOk(TakeInode(v, i), owner) && View(TakeInode(v, i)) == View(v) && i !in View(v)
    ensures TakeInode(v, i).iused[i - 1] && !Active(v, i) && Ledger(v, owner, TakeInode(v, i), owner, 0)
  {
    hide Agreement, NodeOf, Ledger, Good;
    TakeInodeAgreement(v, i);
    assert Active(v, i) ==> InodeOk(v, owner, i);
    var w := TakeInode(v, i);
    assert Shape(w) && Agreement(w);
    StepAt(v, owner, w, owner, i);
    assert Good(w, owner, i) by {
      InactiveGood(w, owner, i);
    }
    FreshLedger(v, owner, w, owner, i);
  }

  lemma InactiveGood(v: Volume, owner: Owners, i: nat)
    requires Shape(v) && !Active(v, i)
    ensures Good(v, owner, i)
  {
  }

  /** An inode that had been free becomes an empty regular file. */
  lemma NewFileStep(v: Volume, owner: Owners, i: nat, uid: nat)
    requires StoreOk(v, owner) && ValidInode(v, i) && !Active(v, i) && v.iused[i - 1] && v.geo.firstIno <= i
    ensures var w := WithInode(v, i, NewFileInode(uid));
      StoreOk(w, owner) && Active(w, i) && View(w) == View(v)[i := File([])] && Ledger(v, owner, w, owner, 0)
  {
    hide Agreement, Mapped, StoreOk, Ledger, Good;
    StoreOkFacts(v, owner, i);
    var w := WithInode(v, i, NewFileInode(uid));
    WithInodeFacts(v, owner, i, NewFileInode(uid));
    assert BlockCount(w, 0) == 0;
    assert Content(w, NewFileInode(uid)) == [];
    NewInodeStep(v, owner, w, owner, i);
    NoRecordOfInactive(v, owner, i);
    NewFileGood(w, owner, i, uid);
    FreshLedger(v, owner, w, owner, i);
  }

  /** A new file has no blocks and counts none. */
  lemma NewFileGood(w: Volume, owner: Owners, i: nat, uid: nat)
    requires Shape(w) && ValidInode(w, i) && InodeOf(w, i) == NewFileInode(uid)
    requires forall b :: b in owner ==> owner[b].inode != i
    ensures Good(w, owner, i) && Accounted(w, i)
  {
    DivUnique(w.geo.blockSize - 1, w.geo.blockSize, 0);
  }

  lemma WithInodeFacts(v: Volume, owner: Owners, i: nat, node: Inode)
    requires Shape(v) && Agreement(v) && Recorded(v, owner) && ValidInode(v, i) && node.Fits()
    ensures var w := WithInode(v, i, node);
      Shape(w) && Agreement(w) && Recorded(w, owner) && InodeOf(w, i) == node
  {
  }

  /** Turning the inactive inode `i` into an active one that owns only blocks that were free. */
  lemma NewInodeStep(v: Volume, owner: Owners, w: Volume, owner': Owners, i: nat)
    requires StoreOk(v, owner) && Shape(w) && Agreement(w) && Recorded(w, owner') && w.geo == v.geo
    requires ValidInode(v, i) && !Active(v, i) && Active(w, i) && InodeOk(w, owner', i)
    requires w.inodes == v.inodes[i - 1 := InodeOf(w, i)] && w.iused == v.iused
    requires forall b :: b in owner ==> b in owner' && owner'[b] == owner[b]
    requires forall b :: b in owner' && b !in owner ==> owner'[b].inode == i
    requires forall b :: b in owner && b < |v.store| ==> w.store[b] == v.store[b]
    ensures StoreOk(w, owner') && View(w) == View(v)[i := NodeOf(w, i)]
  {
    hide NodeOf, InodeOk, Agreement, Recorded, View, Sound;
    forall j | 0 < j <= v.geo.inodesCount && j != i
      ensures Untouched(v, owner, w, owner', j)
    {
    }
    StepAt(v, owner, w, owner', i);
  }

  /** Binding a fresh name in directory `cur`, with link count `links` written along with it. */
  lemma AddStep(v: Volume, owner: Owners, cur: nat, inode: nat, name: Name, kind: Byte, links: nat)
    returns (owner': Owners)
    requires StoreOk(v, owner) && Active(v, cur) && InodeOf(v, cur).IsDir() && links < 0x1_0000
    requires Addable(inode, name) && 0 < |name| && name !in DirMap(v, InodeOf(v, cur))
    ensures var r := AddEntry(v, InodeOf(v, cur), inode, name, kind);
      && (r.ok <==> CanAdd(v, InodeOf(v, cur), |name|))
      && if !r.ok then r.v == v && owner' == owner
      else
        var w := WithInode(r.v, cur, r.node.(links := links));
        && StoreOk(w, owner')
        && View(w) == View(v)[cur := Dir(DirMap(v, InodeOf(v, cur))[name := inode], links)]
        && r.node.links == InodeOf(v, cur).links
        && (r.node.size == InodeOf(v, cur).size ==> owner' == owner && w.used == v.used)
        && w.iused == v.iused
        && Ledger(v, owner, w, owner', 0) && Extended(owner, owner')
  {
    hide Agreement, Mapped, StoreOk, AddFrom, DirMap, Content, View, Confined, Recorded, DirOk, FileTree, CeilDiv,
      Sound, CanAdd, AllPlaced, Ledger, NoReturn;
    StoreOkFacts(v, owner, cur);
    var node := InodeOf(v, cur);
    owner' := AddFromBinds(v, owner, cur, node, inode, name, kind, 0);
    var r := AddEntry(v, node, inode, name, kind);
    EntryNeedsRoom(v, owner, cur, inode, name, kind);
    if r.ok {
      var w := WithInode(r.v, cur, r.node.(links := links));
      LinksIrrelevant(r.v, owner', cur, r.node, links);
      WithInodeFacts(r.v, owner', cur, r.node.(links := links));
      ConfinedWithInode(v, owner, r.v, owner', cur, r.node.(links := links));
      BlockSizeBound(v);
      ConfinedInodeOk(v, owner, w, owner', cur);
      ConfinedStep(v, owner, w, owner', cur);
      LinksNoReturn(v, owner, cur, r, owner', w, links);
      ConfinedLedger(v, owner, w, owner', cur);
    }
  }

  lemma LinksNoReturn(v: Volume, owner: Owners, i: nat, r: Growth, owner': Owners, w: Volume, links: nat)
    requires Shape(v) && Shape(r.v) && Shape(w) && ValidInode(v, i) && r.v.geo == v.geo && r.node.Fits()
    requires links < 0x1_0000
    requires w == WithInode(r.v, i, r.node.(links := links)) && NoReturn(v, owner, i, InodeOf(v, i), r.v, r.node)
    requires FileTree(r.v, owner', i, r.node, BlockCount(r.v, r.node.size))
    ensures NoReturn(v, owner, i, InodeOf(v, i), w, InodeOf(w, i))
  {
    hide Mapped, MaxLogical, CeilDiv, NoReturn, Tables;
    forall l | 0 <= l < MaxLogical(r.v)
      ensures Mapped(w, InodeOf(w, i), l) == Mapped(r.v, r.node, l)
    {
      SameStoreMapped(r.v, r.node, w, InodeOf(w, i), l);
    }
    NoReturnMapped(v, owner, i, InodeOf(v, i), r.v, r.node, w, InodeOf(w, i));
  }

  lemma EntryNeedsRoom(v: Volume, owner: Owners, cur: nat, inode: nat, name: Name, kind: Byte)
    requires StoreOk(v, owner) && Active(v, cur) && Addable(inode, name)
    ensures AddEntry(v, InodeOf(v, cur), inode, name, kind).ok <==> CanAdd(v, InodeOf(v, cur), |name|)
  {
    hide Agreement, Mapped, StoreOk, AddFrom, CanAdd, CeilDiv, Recorded;
    StoreOkFacts(v, owner, cur);
    AddEntrySucceeds(v, owner, cur, InodeOf(v, cur), inode, name, kind);
  }

  lemma BlockSizeBound(v: Volume)
    requires Shape(v)
    ensures 13 * v.geo.blockSize < 0x8000_0000
  {
  }

  lemma ConfinedWithInode(v: Volume, owner: Owners, w: Volume, owner': Owners, i: nat, node: Inode)
    requires Shape(v) && Shape(w) && Confined(v, owner, w, owner', i) && ValidInode(v, i) && node.Fits()
    requires w.inodes == v.inodes
    ensures Confined(v, owner, WithInode(w, i, node), owner', i)
    ensures WithInode(w, i, node).inodes == v.inodes[i - 1 := node]
  {
  }

  lemma LinksIrrelevant(v: Volume, owner: Owners, i: nat, node: Inode, links: nat)
    requires Shape(v) && node.Fits() && links < 0x1_0000 && ValidInode(v, i)
    requires FileTree(v, owner, i, node, BlockCount(v, node.size)) && DirOk(v, node)
    ensures var node' := node.(links := links);
            var w := WithInode(v, i, node');
      && FileTree(w, owner, i, node', BlockCount(w, node'.size))
      && DirOk(w, node') && DirMap(w, node') == DirMap(v, node)
      && (AllPlaced(v, owner, i, node) ==> AllPlaced(w, owner, i, node'))
  {
    hide Mapped, CeilDiv, NamesOf, WellFormed, Tables;
    var node' := node.(links := links);
    var w := WithInode(v, i, node');
    SameStoreTree(v, owner, i, node, w, node', BlockCount(v, node.size));
    forall l | 0 <= l < BlockCount(v, node.size)
      ensures BlockOf(w, node', l) == BlockOf(v, node, l)
    {
    }
    assert DirBlocks(w, node') == DirBlocks(v, node);
  }

  /** What a creation may do to the view: bind a fresh inode holding `node` in directory `cur`; or,
      failing, leave behind at most that inode, bound nowhere. */
  predicate CreatedView(t: Tree, t': Tree, cur: nat, name: Name, node: Node, links: nat, inode: Option<nat>) {
    match inode
    case Some(i) =>
      && i !in t && 0 < |name| <= EXT2_MAX_NAME_LEN
      && cur in t && t[cur].Dir? && name !in t[cur].entries
      && t' == t[i := node][cur := Dir(t[cur].entries[name := i], (t[cur].links + links) % 0x1_0000)]
    case None => t' == t
  }

  lemma NothingCreated(t: Tree, cur: nat, name: Name, node: Node, links: nat)
    ensures CreatedView(t, t, cur, name, node, links, None)
  {
  }

  lemma CreatedAt(t: Tree, t': Tree, cur: nat, name: Name, node: Node, links: nat, i: nat)
    requires i !in t && 0 < |name| <= EXT2_MAX_NAME_LEN && cur in t && t[cur].Dir? && name !in t[cur].entries
    requires t' == t[i := node][cur := Dir(t[cur].entries[name := i], (t[cur].links + links) % 0x1_0000)]
    ensures CreatedView(t, t', cur, name, node, links, Some(i))
  {
  }

  /** Binding the just created inode `i` in directory `cur`. */
  lemma LinkStep(v: Volume, owner: Owners, w: Volume, o1: Owners, cur: nat, name: Name, i: nat, node: Node,
                 kind: Byte, extra: nat) returns (owner': Owners)
    requires StoreOk(v, owner) && cur in View(v) && MayCreate(v, cur, name)
    requires StoreOk(w, o1) && View(w) == View(v)[i := node] && i !in View(v) && w.geo == v.geo
    requires InodeOf(w, cur) == InodeOf(v, cur) && 0 < i < 0x1_0000_0000
    ensures AddEntry(w, InodeOf(v, cur), i, name, kind).ok <==> CanAdd(w, InodeOf(v, cur), |name|)
    ensures var r := AddEntry(w, InodeOf(v, cur), i, name, kind);
      if r.ok then
        var x := WithInode(r.v, cur, r.node.(links := (r.node.links + extra) % 0x1_0000));
        && StoreOk(x, owner') && CreatedView(View(v), View(x), cur, name, node, extra, Some(i))
        && (InodeOf(x, cur).size == InodeOf(v, cur).size ==> owner' == o1 && x.used == w.used)
        && x.iused == w.iused
        && Ledger(w, o1, x, owner', 0) && Extended(o1, owner')
      else StoreOk(r.v, owner') && View(r.v) == View(w) && r.v == w && owner' == o1
  {
    hide Agreement, Mapped, StoreOk, View, DirMap, Content, AddEntry, FindInDir, CreatedView, Sound, CanAdd, Ledger;
    StoreOkFacts(v, owner, cur);
    StoreOkFacts(w, o1, cur);
    ViewFacts(v, cur);
    ViewFacts(w, cur);
    FindSeesView(v, owner, cur, name);
    owner' := AddStep(w, o1, cur, i, name, kind, (InodeOf(v, cur).links + extra) % 0x1_0000);
    var r := AddEntry(w, InodeOf(v, cur), i, name, kind);
    if r.ok {
      var x := WithInode(r.v, cur, r.node.(links := (r.node.links + extra) % 0x1_0000));
      CreatedAt(View(v), View(x), cur, name, node, extra, i);
    }
  }

  function NewDirNode(self: nat, parent: nat): Node {
    Dir(map[DOT := self, DOTDOT := parent], 2)
  }

  /** ext2_create_file makes an empty file under a name that was free, in that directory only. */
  lemma CreateFileStep(v: Volume, owner: Owners, cur: nat, name: Name, uid: nat)
    returns (owner': Owners, left: Option<nat>)
    requires StoreOk(v, owner) && cur in View(v)
    ensures var r := CreateFile(v, cur, name, uid);
      StoreOk(r.v, owner') && (r.inode.Some? ==> v.geo.firstIno <= r.inode.value)
    ensures var r := CreateFile(v, cur, name, uid);
      match left
      case None => CreatedView(View(v), View(r.v), cur, name, File([]), 0, r.inode)
      case Some(i) => r.inode.None? && i !in View(v) && View(v)[cur].Dir? && View(r.v) == View(v)[i := File([])]
    ensures left.Some? <==> FileLeftLoose(v, cur, name)
    ensures Ledger(v, owner, CreateFile(v, cur, name, uid).v, owner', 0) && Extended(owner, owner')
    ensures CreateFile(v, cur, name, uid).inode.Some? <==> MayCreate(v, cur, name) && InodeFree(v) && left.None?
    ensures var r := CreateFile(v, cur, name, uid);
      r.inode.Some? ==>
        && ValidInode(v, r.inode.value) && !v.iused[r.inode.value - 1]
        && r.v.iused == v.iused[r.inode.value - 1 := true]
        && (ValidInode(v, cur) && InodeOf(r.v, cur).size == InodeOf(v, cur).size ==>
              owner' == owner && r.v.used == v.used)
  {
    hide Agreement, Mapped, StoreOk, View, DirMap, Content, AddEntry, FindInDir, AllocateInode, NewFileInode,
      CreatedView, FileLeftLoose, InodeFree, CanAdd, Sound, Ledger, Extended, WithInode;
    owner', left := owner, None;
    StoreOkFacts(v, owner, cur);
    LedgerSame(v, owner);
    ViewFacts(v, cur);
    NothingCreated(View(v), cur, name, File([]), 0);
    NotEvenTried(v, cur, name);
    if MayCreate(v, cur, name) {
      AllocateInodeLowest(v);
      InodeFound(v);
      var a := AllocateInode(v);
      if a.found.Some? {
        owner' := NewFileLinked(v, owner, cur, name, uid, a.found.value);
        if CreateFile(v, cur, name, uid).inode.None? {
          left := a.found;
        }
      }
    }
  }

  /** The part of it that follows the allocation. */
  lemma NewFileLinked(v: Volume, owner: Owners, cur: nat, name: Name, uid: nat, i: nat) returns (owner': Owners)
    requires StoreOk(v, owner) && cur in View(v) && MayCreate(v, cur, name) && AllocateInode(v).found == Some(i)
    ensures v.geo.firstIno <= i && ValidInode(v, i) && !v.iused[i - 1] && i !in View(v) && View(v)[cur].Dir?
    ensures var r := CreateFile(v, cur, name, uid);
      && StoreOk(r.v, owner') && Ledger(v, owner, r.v, owner', 0) && Extended(owner, owner')
      && (r.inode.None? <==> FileLeftLoose(v, cur, name))
      && (if r.inode.Some? then
            && r.inode == Some(i) && CreatedView(View(v), View(r.v), cur, name, File([]), 0, Some(i))
            && r.v.iused == v.iused[i - 1 := true]
            && (InodeOf(r.v, cur).size == InodeOf(v, cur).size ==> owner' == owner && r.v.used == v.used)
          else View(r.v) == View(v)[i := File([])])
  {
    hide Agreement, Mapped, StoreOk, View, DirMap, Content, AddEntry, FindInDir, AllocateInode, NewFileInode,
      CreatedView, FileLeftLoose, InodeFree, CanAdd, Sound, Ledger, Extended;
    StoreOkFacts(v, owner, cur);
    ViewFacts(v, cur);
    FindSeesView(v, owner, cur, name);
    AllocateInodeLowest(v);
    InodeFound(v);
    var a := AllocateInode(v);
    TakeInodeStep(v, owner, i);
    InodesAfterTake(v, i);
    NewFileStep(a.v, owner, i, uid);
    var w := WithInode(a.v, i, NewFileInode(uid));
    LedgerSame(v, owner);
    LedgerThen(v, owner, a.v, owner, w, owner, 0);
    InodeBounds(v, i);
    SameRoom(v, owner, w, owner, cur);
    owner' := LinkStep(v, owner, w, owner, cur, name, i, File([]), EXT2_FT_REG_FILE, 0);
    var r := AddEntry(w, InodeOf(v, cur), i, name, EXT2_FT_REG_FILE);
    NoPlaceLeft(v, w, cur, name);
    if r.ok {
      assert r.node == r.node.(links := (r.node.links + 0) % 0x1_0000);
      LedgerThen(v, owner, w, owner, CreateFile(v, cur, name, uid).v, owner', 0);
    }
  }

  lemma NotEvenTried(v: Volume, cur: nat, name: Name)
    requires Shape(v)
    ensures FileLeftLoose(v, cur, name) ==> MayCreate(v, cur, name) && InodeFree(v)
  {
    hide MayCreate, InodeFree;
  }

  lemma InodeFound(v: Volume)
    requires Shape(v) && Agreement(v)
    ensures AllocateInode(v).found.Some? <==> InodeFree(v)
  {
    hide AllocateInode, Agreement;
    AllocateInodeLowest(v);
  }

  lemma NoPlaceLeft(v: Volume, w: Volume, cur: nat, name: Name)
    requires Shape(v) && Shape(w) && w.geo == v.geo && MayCreate(v, cur, name) && InodeFree(v)
    requires DirBlocks(w, InodeOf(v, cur)) == DirBlocks(v, InodeOf(v, cur)) && w.freeBlocks == v.freeBlocks
    requires Agreement(v)
    ensures FileLeftLoose(v, cur, name) <==> !CanAdd(w, InodeOf(v, cur), |name|)
  {
    hide MayCreate, InodeFree, RoomInside, DirBlocks, Agreement;
    CountsFit(v);
  }

  /** Nothing happened to the blocks of directory `cur`. */
  lemma SameRoom(v: Volume, owner: Owners, w: Volume, owner': Owners, cur: nat)
    requires StoreOk(v, owner) && Active(v, cur) && Shape(w) && w.geo == v.geo
    requires forall b :: b in owner ==> b in owner' && owner'[b] == owner[b]
    requires forall b :: b in owner && b < |v.store| ==> w.store[b] == v.store[b]
    ensures DirBlocks(w, InodeOf(v, cur)) == DirBlocks(v, InodeOf(v, cur))
  {
    hide Agreement, Mapped, StoreOk, DirBlocks, Recorded, FileTree;
    StoreOkFacts(v, owner, cur);
    UntouchedBlocks(v, owner, w, owner', cur);
  }

  lemma InodesAfterTake(v: Volume, i: nat)
    requires Shape(v) && ValidInode(v, i) && InodeGroupOf(v.geo, i - 1) < v.geo.groupCount
    ensures Shape(TakeInode(v, i)) && TakeInode(v, i).inodes == v.inodes
  {
  }

  lemma InodeBounds(v: Volume, i: nat)
    requires Shape(v) && ValidInode(v, i)
    ensures 0 < i < 0x1_0000_0000
  {
  }

  lemma ViewFacts(v: Volume, i: nat)
    requires Shape(v)
    ensures i in View(v) <==> Active(v, i)
    ensures i in View(v) ==> View(v)[i] == NodeOf(v, i)
  {
    hide NodeOf;
  }

  lemma DotBlockNames(size: nat, self: nat, parent: nat)
    requires 1024 <= size <= 4096 && 0 < self < 0x1_0000_0000 && 0 < parent < 0x1_0000_0000
    ensures var b := DotBlock(size, self, parent);
      Tiled(b) && Unique(b) && Names(b) == map[DOT := self, DOTDOT := parent]
  {
    var r1, r2 := Record(self, 12, DOT, EXT2_FT_DIR), Record(parent, size - 12, DOTDOT, EXT2_FT_DIR);
    var z := Splice(Zeros(size), 0, r1);
    var b := DotBlock(size, self, parent);
    assert b[..9] == b[..12][..9] == z[..12][..9] == z[0..9];
    RecordHeader(b, self, 12, DOT, EXT2_FT_DIR);
    var t := Rest(b);
    assert t[..10] == b[12..22] == r2;
    RecordHeader(t, parent, size - 12, DOTDOT, EXT2_FT_DIR);
    assert |Rest(t)| == 0;
    assert |DOT| != |DOTDOT|;
    assert Names(t) == map[DOTDOT := parent];
  }

  lemma BlockSizes(v: Volume)
    requires Shape(v)
    ensures 1024 <= v.geo.blockSize <= 4096
  {
  }

  /** A new directory in inode `self`, whose first block `b` was just allocated. */
  lemma NewDirectoryStep(v: Volume, owner: Owners, self: nat, parent: nat, uid: nat)
    returns (owner': Owners)
    requires StoreOk(v, owner) && ValidInode(v, self) && !Active(v, self) && v.iused[self - 1]
    requires Ordinary(v.geo, self) && ValidInode(v, parent)
    requires AllocateBlock(v).found.Some?
    ensures var b := AllocateBlock(v);
            var w := NewDirectory(b.v, self, parent, uid, b.found.value);
      && StoreOk(w, owner') && Active(w, self) && w.inodes == v.inodes[self - 1 := InodeOf(w, self)]
      && View(w) == View(v)[self := NewDirNode(self, parent)]
      && Extended(owner, owner') && (forall b :: b in owner && b < |v.store| ==> w.store[b] == v.store[b])
      && w.freeBlocks == v.freeBlocks - 1 && Ledger(v, owner, w, owner', 0)
  {
    hide Agreement, Mapped, StoreOk, View, AllocateBlock, Names, Tiled, Unique, DotBlock, Kept, CeilDiv, Ledger, Good,
      NodeOf, InodeOk, Sound;
    StoreOkFacts(v, owner, self);
    owner' := AllocateFor(v, owner, Data(self, 0));
    var a := AllocateBlock(v);
    var b := a.found.value;
    var w := NewDirectory(a.v, self, parent, uid, b);
    InodeBounds(v, self);
    InodeBounds(v, parent);
    BlockSizes(v);
    DotBlockNames(v.geo.blockSize, self, parent);
    NewDirectoryFacts(v, owner, self, parent, uid, a.v, b, owner');
    NewDirectoryTree(w, owner', self, InodeOf(w, self), b, map[DOT := self, DOTDOT := parent]);
    NewInodeStep(v, owner, w, owner', self);
    NewDirectoryLedger(v, owner, self, w, owner', b);
  }

  lemma NewDirectoryLedger(v: Volume, owner: Owners, self: nat, w: Volume, owner': Owners, b: nat)
    requires StoreOk(v, owner) && ValidInode(v, self) && !Active(v, self) && Shape(w) && w.geo == v.geo
    requires owner' == owner[b := Data(self, 0)] && b !in owner && InodeOf(w, self).IsDir()
    requires InodeOf(w, self).size == w.geo.blockSize && InodeOf(w, self).direct[0] == b
    requires w.inodes == v.inodes[self - 1 := InodeOf(w, self)] && w.iused == v.iused
    requires forall c :: c in owner && c < |v.store| ==> w.store[c] == v.store[c]
    requires forall c :: 0 <= c < |v.store| ==> |w.store[c]| == |v.store[c]|
    requires forall c :: 0 <= c < |w.used| && w.used[c] && !v.used[c] ==> c in owner'
    requires b < |v.used| && !v.used[b] && forall c :: 0 <= c < |v.used| && v.used[c] ==> w.used[c]
    ensures Ledger(v, owner, w, owner', 0)
  {
    hide StoreOk, Agreement, Good, Ledger, Sound;
    StoreOkFacts(v, owner, self);
    NoRecordOfInactive(v, owner, self);
    NewDirectoryGood(w, owner', self, b);
    FreshLedger(v, owner, w, owner', self);
  }

  /** A new directory has the one block it was given. */
  lemma NewDirectoryGood(w: Volume, owner: Owners, i: nat, b: nat)
    requires Shape(w) && ValidInode(w, i) && InodeOf(w, i).size == w.geo.blockSize && InodeOf(w, i).direct[0] == b
    requires InodeOf(w, i).IsDir() && forall c :: c in owner && owner[c].inode == i ==> c == b && owner[c] == Data(i, 0)
    ensures Good(w, owner, i)
  {
    OneBlock(w);
    MappedDirect(w, InodeOf(w, i), 0);
  }

  lemma NewDirectoryFacts(v: Volume, owner: Owners, self: nat, parent: nat, uid: nat, a: Volume, b: nat, owner': Owners)
    requires Shape(v) && Shape(a) && Agreement(a) && Recorded(a, owner') && Kept(v, owner, a, owner', self)
    requires ValidInode(v, self) && ValidInode(v, parent) && Recorded(v, owner) && b !in owner
    requires owner' == owner[b := Data(self, 0)] && Plain(a, b) && b < 0x1_0000_0000
    requires a.store == v.store[b := Zeros(v.geo.blockSize)] && b < |v.store|
    ensures var w := NewDirectory(a, self, parent, uid, b);
      && Agreement(w) && Recorded(w, owner') && Holds(w, owner', b, Data(self, 0))
      && w.geo == v.geo && w.inodes == v.inodes[self - 1 := NewDirInode(v.geo.blockSize, uid, b)] && w.iused == v.iused
      && InodeOf(w, self) == NewDirInode(v.geo.blockSize, uid, b)
      && w.store[b] == DotBlock(v.geo.blockSize, self, parent)
      && (forall c :: c in owner && c < |v.store| ==> w.store[c] == v.store[c])
  {
    hide DotBlock, Sound, NewDirInode;
  }

  /** A directory inode with one block. */
  lemma NewDirectoryTree(w: Volume, owner: Owners, i: nat, node: Inode, b: nat, m: map<Name, nat>)
    requires Shape(w) && ValidInode(w, i) && node == InodeOf(w, i) && node.IsDir() && w.iused[i - 1]
    requires node.size == w.geo.blockSize && node.direct[0] == b && node.indirect == 0 && node.doubly == 0
    requires Holds(w, owner, b, Data(i, 0)) && Tiled(w.store[b]) && Unique(w.store[b]) && Names(w.store[b]) == m
    ensures InodeOk(w, owner, i) && NodeOf(w, i) == Dir(m, node.links)
  {
    hide Mapped, Names, Tiled, Unique;
    MappedDirect(w, node, 0);
    OneBlock(w);
    var blocks := DirBlocks(w, node);
    assert blocks[0] == w.store[b];
    assert |blocks[1..]| == 0;
    assert NamesOf(blocks) == m;
    assert WellFormed(blocks);
    assert DataHeld(w, owner, i, node, 1);
    assert FileAt(w, owner, i);
  }

  lemma OneBlock(v: Volume)
    requires Shape(v)
    ensures BlockCount(v, v.geo.blockSize) == 1 && v.geo.blockSize < 0x8000_0000 && 1 <= MaxLogical(v)
  {
    DivUnique(v.geo.blockSize + v.geo.blockSize - 1, v.geo.blockSize, 1);
    MulMono(0, Pointers(v), Pointers(v));
  }

  /** ext2_create_directory makes a directory with "." and ".." under a name that was free. */
  lemma CreateDirectoryStep(v: Volume, owner: Owners, cur: nat, name: Name, uid: nat)
    returns (owner': Owners, left: Option<nat>)
    requires StoreOk(v, owner) && cur in View(v)
    ensures var r := CreateDirectory(v, cur, name, uid);
      StoreOk(r.v, owner') && (r.inode.Some? ==> v.geo.firstIno <= r.inode.value)
    ensures var r := CreateDirectory(v, cur, name, uid);
      match left
      case None => CreatedView(View(v), View(r.v), cur, name, NewDirNode(r.inode.GetOr(0), cur), 1, r.inode)
      case Some(i) =>
        r.inode.None? && i !in View(v) && View(v)[cur].Dir? && View(r.v) == View(v)[i := NewDirNode(i, cur)]
    ensures left.Some? <==> DirLeftLoose(v, cur, name)
    ensures Ledger(v, owner, CreateDirectory(v, cur, name, uid).v, owner', 0) && Extended(owner, owner')
    ensures CreateDirectory(v, cur, name, uid).inode.Some?
      <==> MayCreate(v, cur, name) && InodeFree(v) && v.freeBlocks > 0 && left.None?
  {
    hide Agreement, Mapped, StoreOk, View, DirMap, Content, AddEntry, FindInDir, AllocateInode, AllocateBlock,
      NewDirectory, CreatedView, Sound, NewDirNode, DirBlocks, RoomInside, Ledger;
    owner', left := owner, None;
    StoreOkFacts(v, owner, cur);
    LedgerSame(v, owner);
    ViewFacts(v, cur);
    NothingCreated(View(v), cur, name, NewDirNode(0, cur), 1);
    if MayCreate(v, cur, name) {
      FindSeesView(v, owner, cur, name);
      AllocateInodeLowest(v);
      var a := AllocateInode(v);
      if a.found.Some? {
        var i := a.found.value;
        TakeInodeStep(v, owner, i);
        InodesAfterTake(v, i);
        StoreOkFacts(a.v, owner, cur);
        AllocationNeedsFree(a.v);
        if AllocateBlock(a.v).found.Some? {
          owner' := NewDirectoryLinked(v, owner, cur, name, uid, i);
          if CreateDirectory(v, cur, name, uid).inode.None? {
            left := Some(i);
          }
        }
      }
    }
  }

  /** The part of it that follows both allocations. */
  lemma NewDirectoryLinked(v: Volume, owner: Owners, cur: nat, name: Name, uid: nat, i: nat) returns (owner': Owners)
    requires StoreOk(v, owner) && cur in View(v) && MayCreate(v, cur, name)
    requires AllocateInode(v).found == Some(i) && AllocateBlock(AllocateInode(v).v).found.Some?
    ensures var r := CreateDirectory(v, cur, name, uid);
      && StoreOk(r.v, owner') && v.geo.firstIno <= i && i !in View(v) && View(v)[cur].Dir?
      && Ledger(v, owner, r.v, owner', 0) && Extended(owner, owner')
      && (r.inode.None? <==> DirLeftLoose(v, cur, name))
      && (if r.inode.Some? then
            r.inode == Some(i) && CreatedView(View(v), View(r.v), cur, name, NewDirNode(i, cur), 1, Some(i))
          else View(r.v) == View(v)[i := NewDirNode(i, cur)])
  {
    hide Agreement, Mapped, StoreOk, View, DirMap, Content, AddEntry, FindInDir, AllocateInode, AllocateBlock,
      NewDirectory, CreatedView, Sound, NewDirNode, DirBlocks, RoomInside, Ledger, DirLeftLoose, InodeFree, CanAdd;
    StoreOkFacts(v, owner, cur);
    ViewFacts(v, cur);
    FindSeesView(v, owner, cur, name);
    AllocateInodeLowest(v);
    InodeFound(v);
    var a := AllocateInode(v);
    TakeInodeStep(v, owner, i);
    InodesAfterTake(v, i);
    StoreOkFacts(a.v, owner, cur);
    var b := AllocateBlock(a.v);
    var o1 := NewDirectoryStep(a.v, owner, i, cur, uid);
    var w := NewDirectory(b.v, i, cur, uid, b.found.value);
    InodeBounds(v, i);
    SameRoom(v, owner, w, o1, cur);
    LedgerThen(v, owner, a.v, owner, w, o1, 0);
    owner' := LinkStep(v, owner, w, o1, cur, name, i, NewDirNode(i, cur), EXT2_FT_DIR, 1);
    AllocationNeedsFree(a.v);
    NoPlaceForDirectory(v, w, cur, name);
    if AddEntry(w, InodeOf(v, cur), i, name, EXT2_FT_DIR).ok {
      LedgerThen(v, owner, w, o1, CreateDirectory(v, cur, name, uid).v, owner', 0);
    }
  }

  lemma NoPlaceForDirectory(v: Volume, w: Volume, cur: nat, name: Name)
    requires Shape(v) && Shape(w) && w.geo == v.geo && MayCreate(v, cur, name) && InodeFree(v)
    requires DirBlocks(w, InodeOf(v, cur)) == DirBlocks(v, InodeOf(v, cur)) && w.freeBlocks == v.freeBlocks - 1 >= 0
    ensures DirLeftLoose(v, cur, name) <==> !CanAdd(w, InodeOf(v, cur), |name|)
  {
    hide MayCreate, InodeFree, RoomInside, DirBlocks;
  }

  // ---- deleting ----

  /** The part of ext2_delete_file_by_path that follows path resolution. */
  function DeleteFile(v: Volume, parent: nat, name: Name): (r: Outcome)
    requires Shape(v)
    ensures Shape(r.v) && r.v.geo == v.geo
  {
    if !ValidInode(v, parent) then Outcome(v, false)
    else
      match FindInDir(v, parent, name)
      case None => Outcome(v, false)
      case Some(file) =>
        if !ValidInode(v, file) || !InodeOf(v, file).IsFile() then Outcome(v, false)
        else
          var r := RemoveEntry(v, InodeOf(v, parent), name);
          if !r.ok then r
          else Outcome(FreeInode(WithInode(FreeFile(r.v, InodeOf(v, file)), file, ZeroInode()), file), true)
  }

  // ---- what deleting does to the view ----

  /** Clearing inode `i` after its blocks were given back. */
  function ClearInode(v: Volume, i: nat): (r: Volume)
    requires Shape(v) && ValidInode(v, i)
    ensures Shape(r) && r.geo == v.geo
  {
    FreeInode(WithInode(FreeFile(v, InodeOf(v, i)), i, ZeroInode()), i)
  }

  function Without(owner: Owners, i: nat): Owners {
    map b | b in owner && owner[b].inode != i :: owner[b]
  }

  /** The blocks given back are those of the tree of `i`; what it had lost before stays lost. */
  predicate GaveBack(v: Volume, owner: Owners, i: nat, w: Volume)
    requires Shape(v) && ValidInode(v, i) && Shape(w) && w.geo == v.geo
  {
    var node := InodeOf(v, i);
    forall b :: 0 <= b < |v.used| ==>
      w.used[b]
        == (v.used[b] && !(b in owner && owner[b].inode == i && InTree(v, node, BlockCount(v, node.size), owner[b], b)))
  }

  lemma ClearInodeStep(v: Volume, owner: Owners, i: nat)
    requires StoreOk(v, owner) && Active(v, i) && InodeOf(v, i).IsFile()
    ensures var w := ClearInode(v, i);
      && StoreOk(w, Without(owner, i)) && View(w) == View(v) - {i}
      && GaveBack(v, owner, i, w) && w.iused == v.iused[i - 1 := false]
  {
    hide Agreement, Mapped, StoreOk, FreeFile, InTree, View, Freed, Recorded;
    StoreOkFacts(v, owner, i);
    var node := InodeOf(v, i);
    var o1 := FreeFileFrees(v, owner, i, node);
    var w1 := FreeFile(v, node);
    FreedFacts(v, owner, w1, o1);
    var w2 := WithInode(w1, i, ZeroInode());
    WithInodeFacts(w1, o1, i, ZeroInode());
    FreeInodeAgreement(w2, i);
    var w := ClearInode(v, i);
    ClearedRecord(v, owner, i, w1, o1, w);
    ClearedUntouched(v, owner, i, w);
    StepAt(v, owner, w, Without(owner, i), i);
  }

  lemma ClearedRecord(v: Volume, owner: Owners, i: nat, w1: Volume, o1: Owners, w: Volume)
    requires Shape(v) && Shape(w1) && Shape(w) && ValidInode(v, i) && w1.geo == v.geo == w.geo
    requires Freed(v, owner, w1, o1) && Recorded(v, owner)
    requires var node := InodeOf(v, i);
      forall b :: b in owner ==>
        (b !in o1 <==> owner[b].inode == i && InTree(v, node, BlockCount(v, node.size), owner[b], b))
    requires w.used == w1.used && w.store == w1.store
    ensures Recorded(w, Without(owner, i)) && GaveBack(v, owner, i, w)
  {
    hide Agreement, InTree;
  }

  lemma ClearedUntouched(v: Volume, owner: Owners, i: nat, w: Volume)
    requires Shape(v) && Shape(w) && ValidInode(v, i) && w.geo == v.geo
    requires w.store == v.store && w.inodes == v.inodes[i - 1 := ZeroInode()] && w.iused == v.iused[i - 1 := false]
    ensures forall j :: 0 < j <= v.geo.inodesCount && j != i ==> Untouched(v, owner, w, Without(owner, i), j)
  {
    hide Agreement;
  }

  /** Unbinding `name` in directory `dir`. */
  lemma RemoveStep(v: Volume, owner: Owners, dir: nat, name: Name)
    requires StoreOk(v, owner) && dir in View(v) && View(v)[dir].Dir?
    ensures var r := RemoveEntry(v, InodeOf(v, dir), name);
      && (r.ok <==> name in View(v)[dir].entries)
      && (if r.ok then
            && StoreOk(r.v, owner) && r.v == v.(store := r.v.store)
            && View(r.v) == View(v)[dir := Dir(View(v)[dir].entries - {name}, View(v)[dir].links)]
            && Confined(v, owner, r.v, owner, dir) && Ledger(v, owner, r.v, owner, 0)
          else r.v == v)
  {
    hide Agreement, Mapped, StoreOk, RemoveFrom, Content, View, Confined, Recorded, CeilDiv, Sound, NamesOf, WellFormed,
      AllPlaced, Ledger, NoReturn;
    StoreOkFacts(v, owner, dir);
    ViewFacts(v, dir);
    var node := InodeOf(v, dir);
    RemoveFromUnbinds(v, owner, dir, node, name, 0);
    assert DirBlocks(v, node)[0..] == DirBlocks(v, node);
    var r := RemoveEntry(v, node, name);
    if r.ok {
      ConfinedInodeOk(v, owner, r.v, owner, dir);
      ConfinedStep(v, owner, r.v, owner, dir);
      ConfinedLedger(v, owner, r.v, owner, dir);
    }
  }

  predicate Deletable(t: Tree, parent: nat, name: Name) {
    && parent in t && t[parent].Dir? && 0 < |name| <= EXT2_MAX_NAME_LEN && name in t[parent].entries
    && t[parent].entries[name] in t && t[t[parent].entries[name]].File?
  }

  /** ext2_delete_file_by_path succeeds exactly on a name bound to a regular file; it removes the name
      and the file, and nothing else. */
  lemma DeleteFileStep(v: Volume, owner: Owners, parent: nat, name: Name) returns (owner': Owners)
    requires StoreOk(v, owner) && parent in View(v)
    requires View(v)[parent].Dir? ==> forall n :: n in View(v)[parent].entries ==> View(v)[parent].entries[n] in View(v)
    ensures var r := DeleteFile(v, parent, name);
            var t := View(v);
      && StoreOk(r.v, owner')
      && (r.ok <==> Deletable(t, parent, name))
      && (if r.ok then
            var i := t[parent].entries[name];
            && View(r.v) == t[parent := Dir(t[parent].entries - {name}, t[parent].links)] - {i}
            && owner' == Without(owner, i) && r.v.iused == v.iused[i - 1 := false]
          else r.v == v && owner' == owner)
  {
    hide Agreement, Mapped, StoreOk, RemoveEntry, FindInDir, View, Content, DirMap, ClearInode, Confined;
    StoreOkFacts(v, owner, parent);
    ViewFacts(v, parent);
    owner' := owner;
    FindSeesView(v, owner, parent, name);
    if Deletable(View(v), parent, name) {
      var i := View(v)[parent].entries[name];
      ViewFacts(v, i);
      RemoveStep(v, owner, parent, name);
      var r := RemoveEntry(v, InodeOf(v, parent), name).v;
      ClearInodeStep(r, owner, i);
      owner' := Without(owner, i);
      assert DeleteFile(v, parent, name) == Outcome(ClearInode(r, i), true) by {
        ClearIsDelete(v, parent, name, i);
      }
    } else {
      forall i | i in View(v)
        ensures ValidInode(v, i) && (View(v)[i].File? <==> InodeOf(v, i).IsFile())
      {
        ViewFacts(v, i);
      }
    }
  }

  lemma ClearIsDelete(v: Volume, parent: nat, name: Name, i: nat)
    requires Shape(v) && ValidInode(v, parent) && FindInDir(v, parent, name) == Some(i)
    requires ValidInode(v, i) && InodeOf(v, i).IsFile() && RemoveEntry(v, InodeOf(v, parent), name).ok
    ensures DeleteFile(v, parent, name) == Outcome(ClearInode(RemoveEntry(v, InodeOf(v, parent), name).v, i), true)
  {
  }
}
