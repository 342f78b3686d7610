/** Inodes over runs: which requests waste one, and what the inode of a directory counts. */
module Inodes {
  import opened Bytes
  import opened Geometry
  import opened Volumes
  import opened PointerTree
  import opened Ownership
  import opened Files
  import opened Release
  import opened DirBlock
  import opened Directories
  import opened FileSystem
  import opened Paths
  import opened Trees
  import opened Runs

  /** Inode `i` is one that allocate_inode hands out, is marked used, and holds neither file nor directory. */
  predicate Wasted(v: Volume, i: nat)
    requires Shape(v)
  {
    ValidInode(v, i) && v.geo.firstIno <= i && v.iused[i - 1] && !Active(v, i)
  }

  function WastedInodes(v: Volume): set<nat>
    requires Shape(v)
  {
    set i: nat | 0 < i <= v.geo.inodesCount && Wasted(v, i)
  }

  /** `inode.blocks` of a directory counts its data in units of 512 bytes; tables it never has. */
  predicate Counted(node: Inode) {
    node.blocks * 512 == node.size
  }

  predicate DirCounted(v: Volume, i: nat)
    requires Shape(v)
  {
    Active(v, i) && InodeOf(v, i).IsDir() ==> Counted(InodeOf(v, i))
  }

  /** From `v` to `w` what was wasted stays so, one more inode is exactly if `wastes`, and no directory loses
      count of its blocks. */
  predicate InodesStep(v: Volume, w: Volume, wastes: bool)
    requires Shape(v) && Shape(w)
  {
    && w.geo == v.geo
    && (forall i :: 0 < i <= v.geo.inodesCount && DirCounted(v, i) ==> DirCounted(w, i))
    && if wastes then exists i :: 0 < i <= v.geo.inodesCount && OneMore(v, w, i)
       else forall j :: 0 < j <= v.geo.inodesCount ==> (Wasted(w, j) <==> Wasted(v, j))
  }

  predicate OneMore(v: Volume, w: Volume, i: nat)
    requires Shape(v) && Shape(w)
  {
    !Wasted(v, i) && forall j :: 0 < j <= v.geo.inodesCount ==> (Wasted(w, j) <==> Wasted(v, j) || j == i)
  }

  lemma InodesSame(v: Volume)
    requires Shape(v)
    ensures InodesStep(v, v, false)
  {
    hide Wasted, DirCounted;
  }

  lemma InodesThen(v: Volume, w: Volume, x: Volume)
    requires Shape(v) && Shape(w) && Shape(x) && InodesStep(v, w, false) && InodesStep(w, x, false)
    ensures InodesStep(v, x, false)
  {
    hide Wasted, DirCounted;
  }

  lemma StepCounts(v: Volume, w: Volume, wastes: bool)
    requires Shape(v) && Shape(w) && InodesStep(v, w, wastes)
    ensures |WastedInodes(w)| == |WastedInodes(v)| + if wastes then 1 else 0
    ensures WastedInodes(v) <= WastedInodes(w)
  {
    hide Wasted, DirCounted;
    if wastes {
      var i :| 0 < i <= v.geo.inodesCount && OneMore(v, w, i);
      assert WastedInodes(w) == WastedInodes(v) + {i};
    } else {
      assert WastedInodes(w) == WastedInodes(v);
    }
  }

  // ---- what the operations do to the inodes ----

  lemma {:induction false} BlockKeepsInodes(v: Volume, k: nat)
    requires Shape(v) && k <= v.geo.groupCount
    ensures AllocateBlockFrom(v, k).v.inodes == v.inodes && AllocateBlockFrom(v, k).v.iused == v.iused
    decreases v.geo.groupCount - k
  {
    if k < v.geo.groupCount {
      BlockKeepsInodes(v, k + 1);
    }
  }

  /** Adding an entry writes no inode; the one it hands back for the directory counts the block it took. */
  lemma {:induction false} EntryKeepsInodes(v: Volume, node: Inode, inode: nat, name: Name, kind: Byte, l: nat)
    requires Shape(v) && node.Fits() && Addable(inode, name)
    ensures var r := AddFrom(v, node, inode, name, kind, l);
      && r.v.inodes == v.inodes && r.v.iused == v.iused && r.node.mode == node.mode
      && (r.ok && Counted(node) ==> Counted(r.node))
    decreases if l < BlockCount(v, node.size) then BlockCount(v, node.size) - l else 0
  {
    hide Mapped, AddIn, CeilDiv;
    if l >= BlockCount(v, node.size) {
      BlockKeepsInodes(v, 0);
      BlockCounted(v, node, inode, name, kind);
    } else {
      EntryKeepsInodes(v, node, inode, name, kind, l + 1);
    }
  }

  lemma BlockCounted(v: Volume, node: Inode, inode: nat, name: Name, kind: Byte)
    requires Shape(v) && node.Fits() && Addable(inode, name)
    requires AllocateBlock(v).v.inodes == v.inodes && AllocateBlock(v).v.iused == v.iused
    ensures var r := AddBlock(v, node, inode, name, kind);
      && r.v.inodes == v.inodes && r.v.iused == v.iused && r.node.mode == node.mode
      && (r.ok && Counted(node) ==> Counted(r.node))
  {
    hide AllocateBlock, Record, CeilDiv, Splice, Zeros;
    var n, a := BlockCount(v, node.size), AllocateBlock(v);
    if n < 12 && a.found.Some? {
      SmallSize(v, node.size);
      OneBlockMore(v, node);
    }
  }

  lemma OneBlockMore(v: Volume, node: Inode)
    requires Shape(v) && node.size <= 12 * v.geo.blockSize
    ensures Counted(node) ==>
      (node.blocks + v.geo.blockSize / 512) % 0x1_0000_0000 * 512 == node.size + v.geo.blockSize
  {
  }

  /** Inode `i`, which was free, now holds `node`, and directory `cur` was written back as `parent`. */
  lemma CreatedInodes(v: Volume, w: Volume, i: nat, cur: nat, node: Inode, parent: Inode)
    requires Shape(v) && Shape(w) && w.geo == v.geo && ValidInode(v, i) && Active(v, cur) && !Active(v, i)
    requires v.geo.firstIno <= i && !v.iused[i - 1] && (node.IsFile() || (node.IsDir() && Counted(node)))
    requires InodeOf(v, cur).IsDir() && parent.mode == InodeOf(v, cur).mode
    requires Counted(InodeOf(v, cur)) ==> Counted(parent)
    requires w.iused == v.iused[i - 1 := true] && w.inodes == v.inodes[i - 1 := node][cur - 1 := parent]
    ensures InodesStep(v, w, false)
  {
  }

  lemma CreateFileInodes(v: Volume, owner: Owners, cur: nat, name: Name, uid: nat)
    requires StoreOk(v, owner) && cur in View(v)
    ensures InodesStep(v, CreateFile(v, cur, name, uid).v, false)
  {
    hide Agreement, StoreOk, View, AllocateInode, InodesStep, AddFrom, FindInDir, Sound;
    StoreOkFacts(v, owner, cur);
    ViewFacts(v, cur);
    InodesSame(v);
    AllocateInodeLowest(v);
    var a := AllocateInode(v);
    if MayCreate(v, cur, name) && a.found.Some? {
      var i := a.found.value;
      InodeBounds(v, i);
      UnusedInactive(v, owner, i);
      var w := WithInode(a.v, i, NewFileInode(uid));
      EntryKeepsInodes(w, InodeOf(v, cur), i, name, EXT2_FT_REG_FILE, 0);
      var r := AddEntry(w, InodeOf(v, cur), i, name, EXT2_FT_REG_FILE);
      CreatedInodes(v, CreateFile(v, cur, name, uid).v, i, cur, NewFileInode(uid),
                    if r.ok then r.node else InodeOf(v, cur));
    }
  }

  lemma UnusedInactive(v: Volume, owner: Owners, i: nat)
    requires StoreOk(v, owner) && ValidInode(v, i) && !v.iused[i - 1]
    ensures !Active(v, i)
  {
    StoreOkFacts(v, owner, i);
  }

  /** ext2_create_directory would take an inode and then find no block for the directory. */
  predicate InodeTakenInVain(v: Volume, cur: nat, name: Name)
    requires Shape(v)
  {
    MayCreate(v, cur, name) && InodeFree(v) && v.freeBlocks == 0
  }

  lemma CreateDirectoryInodes(v: Volume, owner: Owners, cur: nat, name: Name, uid: nat)
    requires StoreOk(v, owner) && cur in View(v)
    ensures InodesStep(v, CreateDirectory(v, cur, name, uid).v, InodeTakenInVain(v, cur, name))
  {
    hide Agreement, StoreOk, View, AllocateInode, AllocateBlock, InodesStep, InodeFree, FindInDir, Sound, NewDirectory,
      AddEntry;
    StoreOkFacts(v, owner, cur);
    ViewFacts(v, cur);
    InodesSame(v);
    InodeFound(v);
    AllocateInodeLowest(v);
    var a := AllocateInode(v);
    if MayCreate(v, cur, name) && a.found.Some? {
      var i := a.found.value;
      UnusedInactive(v, owner, i);
      TakeInodeAgreement(v, i);
      InodesAfterTake(v, i);
      AllocationNeedsFree(a.v);
      CountsFit(v);
      if AllocateBlock(a.v).found.Some? {
        DirectoryInodes(v, cur, name, uid, i);
      } else {
        TakenInVain(v, a.v, i);
      }
    }
  }

  lemma TakenInVain(v: Volume, w: Volume, i: nat)
    requires Shape(v) && Shape(w) && w.geo == v.geo && w.inodes == v.inodes && ValidInode(v, i)
    requires v.geo.firstIno <= i && !v.iused[i - 1] && !Active(v, i) && w.iused == v.iused[i - 1 := true]
    ensures InodesStep(v, w, true)
  {
    assert OneMore(v, w, i);
  }

  lemma NewDirectoryInode(v: Volume, self: nat, parent: nat, uid: nat, block: nat) returns (node: Inode)
    requires Shape(v) && ValidInode(v, self) && ValidInode(v, parent) && Plain(v, block)
    ensures var w := NewDirectory(v, self, parent, uid, block);
      w.inodes == v.inodes[self - 1 := node] && w.iused == v.iused && node.IsDir() && Counted(node)
  {
    hide DotBlock;
    node := NewDirInode(v.geo.blockSize, uid, block);
  }

  lemma DirectoryInodes(v: Volume, cur: nat, name: Name, uid: nat, i: nat)
    requires Shape(v) && Active(v, cur) && MayCreate(v, cur, name) && AllocateInode(v).found == Some(i) && !Active(v, i)
    requires v.geo.firstIno <= i && !v.iused[i - 1] && InodeGroupOf(v.geo, i - 1) < v.geo.groupCount
    requires AllocateInode(v).v == TakeInode(v, i) && AllocateBlock(AllocateInode(v).v).found.Some?
    ensures InodesStep(v, CreateDirectory(v, cur, name, uid).v, false)
  {
    hide Agreement, AllocateInode, InodesStep, FindInDir, Sound, AddFrom, NewDirectory, AllocateBlockFrom, Counted;
    var a := AllocateInode(v);
    var b := AllocateBlock(a.v);
    BlockKeepsInodes(a.v, 0);
    InodeBounds(v, i);
    var node := NewDirectoryInode(b.v, i, cur, uid, b.found.value);
    var w := NewDirectory(b.v, i, cur, uid, b.found.value);
    EntryKeepsInodes(w, InodeOf(v, cur), i, name, EXT2_FT_DIR, 0);
    var r := AddEntry(w, InodeOf(v, cur), i, name, EXT2_FT_DIR);
    var parent := if r.ok then r.node.(links := (r.node.links + 1) % 0x1_0000) else InodeOf(v, cur);
    LinksCountNothing(r.node, (r.node.links + 1) % 0x1_0000);
    CreatedInodes(v, CreateDirectory(v, cur, name, uid).v, i, cur, node, parent);
  }

  lemma LinksCountNothing(node: Inode, links: nat)
    ensures Counted(node.(links := links)) <==> Counted(node)
  {
  }

  lemma WriteInodes(v: Volume, owner: Owners, i: nat, buf: seq<Byte>)
    requires StoreOk(v, owner) && i in View(v) && |buf| < 0x8000_0000
    ensures InodesStep(v, WriteFile(v, i, buf).v, false)
  {
    hide Agreement, StoreOk, View, WriteFile, InodesStep, Growing, FirstTaken, AllocateBlock, NoReturn, Recorded,
      NothingLost, Content;
    StoreOkFacts(v, owner, i);
    ViewFacts(v, i);
    InodesSame(v);
    if InodeOf(v, i).IsFile() {
      var o := WriteStepFile(v, owner, i, buf);
      ViewFacts(WriteFile(v, i, buf).v, i);
      FileRewritten(v, WriteFile(v, i, buf).v, i);
    } else {
      NoFileNoWrite(v, i, buf);
    }
  }

  lemma NoFileNoWrite(v: Volume, i: nat, buf: seq<Byte>)
    requires Shape(v) && ValidInode(v, i) && !InodeOf(v, i).IsFile() && |buf| < 0x8000_0000
    ensures WriteFile(v, i, buf).v == v
  {
  }

  lemma FileRewritten(v: Volume, w: Volume, i: nat)
    requires Shape(v) && Shape(w) && w.geo == v.geo && w.iused == v.iused && Active(v, i) && Active(w, i)
    requires !InodeOf(w, i).IsDir()
    requires forall j :: 0 < j <= v.geo.inodesCount && j != i ==> InodeOf(w, j) == InodeOf(v, j)
    ensures InodesStep(v, w, false)
  {
  }

  lemma DeleteInodes(v: Volume, owner: Owners, home: Homes, dir: nat, name: Name)
    requires StoreOk(v, owner) && TreeOk(View(v), home) && dir in View(v)
    ensures InodesStep(v, DeleteFile(v, dir, name).v, false)
  {
    hide StoreOk, TreeOk, View, InodesStep, FindInDir, RemoveEntry, FreeFile, Agreement, Recorded;
    StoreOkFacts(v, owner, dir);
    ViewFacts(v, dir);
    InodesSame(v);
    FindSeesView(v, owner, dir, name);
    if DeleteFile(v, dir, name).ok {
      var i := FindInDir(v, dir, name).value;
      EntryInTree(View(v), home, dir, name);
      ViewFacts(v, i);
      StoreOkFacts(v, owner, i);
      var w := RemoveEntry(v, InodeOf(v, dir), name).v;
      FileCleared(v, FreeFile(w, InodeOf(v, i)), i);
    } else {
      RefusedDelete(v, dir, name);
    }
  }

  lemma RefusedDelete(v: Volume, dir: nat, name: Name)
    requires Shape(v) && !DeleteFile(v, dir, name).ok
    ensures InodesStep(v, DeleteFile(v, dir, name).v, false)
  {
    hide FindInDir, RemoveFrom, FreeFile;
    InodesUntouched(v, DeleteFile(v, dir, name).v);
  }

  lemma InodesUntouched(v: Volume, w: Volume)
    requires Shape(v) && Shape(w) && w.geo == v.geo && w.inodes == v.inodes && w.iused == v.iused
    ensures InodesStep(v, w, false)
  {
  }

  lemma FileCleared(v: Volume, w: Volume, i: nat)
    requires Shape(v) && Shape(w) && w.geo == v.geo && w.inodes == v.inodes && w.iused == v.iused && Active(v, i)
    ensures InodesStep(v, FreeInode(WithInode(w, i, ZeroInode()), i), false)
  {
    GroupOfInode(v.geo, i - 1, 0);
  }

  // ---- what a new inode holds ----

  /** No byte of the record is set but those of the fields named. */
  predicate OnlyThese(n: Inode) {
    && (forall k :: 0 <= k < 18 && k < |n.times| ==> n.times[k] == 0)
    && (forall k :: 0 <= k < |n.flags| ==> n.flags[k] == 0)
    && (forall k :: 1 <= k < |n.direct| ==> n.direct[k] == 0) && n.indirect == 0 && n.doubly == 0 && n.triply == 0
    && (forall k :: 0 <= k < |n.tail| ==> n.tail[k] == 0)
  }

  /** A created file is a regular one that its owner may write and everyone read (octal 100644), empty, with one link
      and the creator's user number; no inode changes but its own and that of the directory. */
  lemma CreatedFileRecord(v: Volume, owner: Owners, cur: nat, name: Name, uid: nat)
    requires StoreOk(v, owner) && cur in View(v)
    ensures var r := CreateFile(v, cur, name, uid);
      r.inode.Some? && ValidInode(r.v, r.inode.value) ==>
        var n := InodeOf(r.v, r.inode.value);
        && n.mode == 0x81A4 && n.uid == uid % 0x1_0000 && n.size == 0 && n.links == 1 && n.blocks == 0
        && OnlyThese(n) && n.direct[0] == 0
        && forall j :: 0 < j <= v.geo.inodesCount && j != cur && j != r.inode.value ==> InodeOf(r.v, j) == InodeOf(v, j)
  {
    hide Agreement, StoreOk, View, AllocateInode, AddFrom, FindInDir, Sound;
    StoreOkFacts(v, owner, cur);
    ViewFacts(v, cur);
    AllocateInodeLowest(v);
    var a := AllocateInode(v);
    if MayCreate(v, cur, name) && a.found.Some? {
      var i := a.found.value;
      InodeBounds(v, i);
      UnusedInactive(v, owner, i);
      var w := WithInode(a.v, i, NewFileInode(uid));
      EntryKeepsInodes(w, InodeOf(v, cur), i, name, EXT2_FT_REG_FILE, 0);
    }
  }

  /** A created directory is one that its owner may write and everyone enter (octal 40755), of one block, with two
      links. */
  lemma CreatedDirectoryRecord(v: Volume, owner: Owners, cur: nat, name: Name, uid: nat)
    requires StoreOk(v, owner) && cur in View(v)
    ensures var r := CreateDirectory(v, cur, name, uid);
      r.inode.Some? && ValidInode(r.v, r.inode.value) ==>
        var n := InodeOf(r.v, r.inode.value);
        && n.mode == 0x41ED && n.uid == uid % 0x1_0000 && n.size == v.geo.blockSize && n.links == 2
        && n.blocks == v.geo.blockSize / 512 && OnlyThese(n)
  {
    hide Agreement, StoreOk, View, AllocateInode, AllocateBlock, FindInDir, Sound, NewDirectory, AddEntry;
    StoreOkFacts(v, owner, cur);
    ViewFacts(v, cur);
    AllocateInodeLowest(v);
    var a := AllocateInode(v);
    if MayCreate(v, cur, name) && a.found.Some? && AllocateBlock(a.v).found.Some? {
      UnusedInactive(v, owner, a.found.value);
      DirectoryRecord(v, cur, name, uid, a.found.value);
    }
  }

  lemma DirectoryRecord(v: Volume, cur: nat, name: Name, uid: nat, i: nat)
    requires Shape(v) && Active(v, cur) && MayCreate(v, cur, name) && AllocateInode(v).found == Some(i) && !Active(v, i)
    requires ValidInode(v, i) && AllocateBlock(AllocateInode(v).v).found.Some?
    ensures var r := CreateDirectory(v, cur, name, uid);
      r.inode.Some? ==>
        var n := InodeOf(r.v, i);
        && r.inode == Some(i) && n.mode == 0x41ED && n.uid == uid % 0x1_0000 && n.size == v.geo.blockSize
        && n.links == 2 && n.blocks == v.geo.blockSize / 512 && OnlyThese(n)
  {
    hide Agreement, AllocateInode, FindInDir, Sound, AddFrom, NewDirectory, AllocateBlockFrom, OnlyThese;
    var b := AllocateBlock(AllocateInode(v).v);
    InodeBounds(v, i);
    var w := NewDirectory(b.v, i, cur, uid, b.found.value);
    NewDirectoryRecord(b.v, i, cur, uid, b.found.value);
    EntryKeepsInodes(w, InodeOf(v, cur), i, name, EXT2_FT_DIR, 0);
  }

  lemma NewDirectoryRecord(v: Volume, self: nat, parent: nat, uid: nat, block: nat)
    requires Shape(v) && ValidInode(v, self) && ValidInode(v, parent) && Plain(v, block)
    ensures var n := InodeOf(NewDirectory(v, self, parent, uid, block), self);
      && n.mode == 0x41ED && n.uid == uid % 0x1_0000 && n.size == v.geo.blockSize && n.links == 2
      && n.blocks == v.geo.blockSize / 512 && OnlyThese(n)
  {
    hide DotBlock;
  }

  // ---- requests and runs ----

  predicate CreateDirectoryInVain(v: Volume, cur: nat, path: Path)
    requires Shape(v)
  {
    match SplitParent(path)
    case None => false
    case Some(parts) =>
      match ParentOf(v, cur, parts.parent)
      case None => false
      case Some(d) => InodeTakenInVain(v, d, parts.name)
  }

  /** The requests that waste an inode: those that make a directory when an inode is free and no block. */
  predicate Wastes(s: State, op: Request)
    requires Shape(s.v)
  {
    op.MakeDirectory? && CreateDirectoryInVain(s.v, s.cur, op.path)
  }

  lemma CreateByPathInodes(s: State, owner: Owners, home: Homes, path: Path, uid: nat)
    requires SaneWith(s, owner, home)
    ensures Shape(s.v) && InodesStep(s.v, CreateFileByPath(s.v, s.cur, path, uid).v, false)
  {
    hide StoreOk, TreeOk, View, SplitParent, CreateFile, ParentOf, InodesStep;
    StoreOkFacts(s.v, owner, s.cur);
    InodesSame(s.v);
    if SplitParent(path).Some? {
      var parts := SplitParent(path).value;
      FindInTree(s.v, owner, home, s.cur, parts.parent);
      var d := ParentOf(s.v, s.cur, parts.parent);
      if d.Some? {
        CreateFileInodes(s.v, owner, d.value, parts.name, uid);
      }
    }
  }

  lemma WriteByPathInodes(s: State, owner: Owners, home: Homes, path: Path, buf: seq<Byte>, uid: nat)
    requires SaneWith(s, owner, home) && |buf| < 0x8000_0000
    ensures Shape(s.v) && InodesStep(s.v, WriteFileByPath(s.v, s.cur, path, buf, uid).v, false)
  {
    hide StoreOk, TreeOk, View, FindByPath, CreateFileByPath, WriteFile, InodesStep, EntriesStep, CreateLeavesLoose;
    StoreOkFacts(s.v, owner, s.cur);
    FindInTree(s.v, owner, home, s.cur, path);
    match FindByPath(s.v, s.cur, path)
    case Some(i) =>
      WriteInodes(s.v, owner, i, buf);
    case None =>
      var o, h := CreateByPathKeepsSane(s, owner, home, path, uid);
      CreateByPathInodes(s, owner, home, path, uid);
      var c := CreateFileByPath(s.v, s.cur, path, uid);
      if c.inode.Some? {
        WriteInodes(c.v, o, c.inode.value, buf);
        InodesThen(s.v, c.v, WriteFile(c.v, c.inode.value, buf).v);
      }
  }

  lemma StepInodes(s: State, owner: Owners, home: Homes, op: Request)
    requires SaneWith(s, owner, home)
    ensures Shape(s.v) && InodesStep(s.v, Step(s, op).v, Wastes(s, op))
  {
    hide StoreOk, TreeOk, View, SplitParent, CreateDirectory, DeleteFile, ParentOf, InodesStep, CreateFileByPath,
      WriteFileByPath, ChangeDirectory, InodeTakenInVain;
    StoreOkFacts(s.v, owner, s.cur);
    InodesSame(s.v);
    var path := op.path;
    match op {
      case Create(_, uid) => CreateByPathInodes(s, owner, home, path, uid);
      case Write(_, buf, uid) => WriteByPathInodes(s, owner, home, path, buf, uid);
      case Cd(_) =>
      case MakeDirectory(_, uid) =>
        if SplitParent(path).Some? {
          var parts := SplitParent(path).value;
          FindInTree(s.v, owner, home, s.cur, parts.parent);
          var d := ParentOf(s.v, s.cur, parts.parent);
          if d.Some? {
            CreateDirectoryInodes(s.v, owner, d.value, parts.name, uid);
          }
        }
      case Delete(_) =>
        if SplitParent(path).Some? {
          var parts := SplitParent(path).value;
          FindInTree(s.v, owner, home, s.cur, parts.parent);
          var d := ParentOf(s.v, s.cur, parts.parent);
          if d.Some? {
            DeleteInodes(s.v, owner, home, d.value, parts.name);
          }
        }
    }
  }

  lemma SaneStepInodes(s: State, op: Request)
    requires Sane(s)
    ensures Shape(s.v) && InodesStep(s.v, Step(s, op).v, Wastes(s, op))
  {
    hide SaneWith, InodesStep, Step, Wastes;
    SaneShape(s);
    var owner, home :| SaneWith(s, owner, home);
    StepInodes(s, owner, home, op);
  }

  /** How many requests of the run waste an inode. */
  function Wastings(s: State, ops: seq<Request>): nat
    requires Shape(s.v)
    decreases |ops|
  {
    if ops == [] then 0 else (if Wastes(s, ops[0]) then 1 else 0) + Wastings(Step(s, ops[0]), ops[1..])
  }

  /** A run wastes one inode for each request that makes a directory when no block is free, and no other:
      whatever else fails or succeeds, and none ever comes back. */
  lemma {:induction false} RunWastes(s: State, ops: seq<Request>)
    requires Sane(s)
    ensures Shape(s.v) && |WastedInodes(Run(s, ops).v)| == |WastedInodes(s.v)| + Wastings(s, ops)
    ensures WastedInodes(s.v) <= WastedInodes(Run(s, ops).v)
    decreases |ops|
  {
    hide Sane, Step, Wastes, InodesStep, WastedInodes;
    SaneShape(s);
    if ops != [] {
      SaneStepInodes(s, ops[0]);
      StepCounts(s.v, Step(s, ops[0]).v, Wastes(s, ops[0]));
      StepKeepsSane(s, ops[0]);
      RunWastes(Step(s, ops[0]), ops[1..]);
    }
  }

  /** The inodes in use, of those that are handed out, are the files and directories. */
  predicate NoneWasted(v: Volume)
    requires Shape(v)
  {
    forall i :: v.geo.firstIno <= i <= v.geo.inodesCount && 0 < i ==> (v.iused[i - 1] <==> i in View(v))
  }

  lemma NoneWastedMeans(s: State)
    requires Sane(s)
    ensures Shape(s.v) && (NoneWasted(s.v) <==> WastedInodes(s.v) == {})
  {
    hide View, SaneWith;
    SaneShape(s);
    var owner: Owners, home: Homes :| SaneWith(s, owner, home);
    var v := s.v;
    forall i: nat | 0 < i <= v.geo.inodesCount && v.geo.firstIno <= i
      ensures i in WastedInodes(v) <==> !(v.iused[i - 1] <==> i in View(v))
    {
      ViewFacts(v, i);
      LiveIsUsed(s, owner, home, i);
    }
    if WastedInodes(v) == {} {
      forall i | v.geo.firstIno <= i <= v.geo.inodesCount && 0 < i
        ensures v.iused[i - 1] <==> i in View(v)
      {
        assert i !in WastedInodes(v);
      }
    }
    if NoneWasted(v) {
      forall i
        ensures i !in WastedInodes(v)
      {
      }
    }
  }

  lemma LiveIsUsed(s: State, owner: Owners, home: Homes, i: nat)
    requires SaneWith(s, owner, home)
    ensures Shape(s.v) && (Active(s.v, i) ==> s.v.iused[i - 1])
  {
    hide StoreOk, TreeOk, View;
    StoreOkFacts(s.v, owner, i);
  }

  /** Leak-freedom of inodes: they are in use after a run just where there is a file or a directory, if and
      only if no request of it made a directory when no block was free. */
  lemma RunKeepsInodes(s: State, ops: seq<Request>)
    requires Sane(s)
    ensures Shape(s.v)
    ensures NoneWasted(s.v) ==> (NoneWasted(Run(s, ops).v) <==> Wastings(s, ops) == 0)
    ensures !NoneWasted(s.v) ==> !NoneWasted(Run(s, ops).v)
  {
    hide NoneWasted, WastedInodes, Wastings, SaneWith;
    RunWastes(s, ops);
    RunKeepsSane(s, ops);
    NoneWastedMeans(s);
    NoneWastedMeans(Run(s, ops));
  }

  /** `inode.blocks` times 512 is `inode.size` in every live directory. */
  predicate DirsCounted(v: Volume)
    requires Shape(v)
  {
    forall i :: i in View(v) && View(v)[i].Dir? ==> InodeOf(v, i).blocks * 512 == InodeOf(v, i).size
  }

  /** A directory whose inode counts its blocks does so after any run, and so does an inode that becomes a
      directory in it. */
  lemma {:induction false} RunKeepsDirCounted(s: State, ops: seq<Request>, i: nat)
    requires Sane(s)
    ensures Shape(s.v) && (DirCounted(s.v, i) ==> DirCounted(Run(s, ops).v, i))
    decreases |ops|
  {
    hide Sane, Step, Wastes, DirCounted, InodesStep;
    SaneShape(s);
    if ops != [] {
      SaneStepInodes(s, ops[0]);
      DirStaysCounted(s.v, Step(s, ops[0]).v, Wastes(s, ops[0]), i);
      StepKeepsSane(s, ops[0]);
      RunKeepsDirCounted(Step(s, ops[0]), ops[1..], i);
    }
  }

  lemma DirStaysCounted(v: Volume, w: Volume, wastes: bool, i: nat)
    requires Shape(v) && Shape(w) && InodesStep(v, w, wastes)
    ensures DirCounted(v, i) ==> DirCounted(w, i)
  {
    hide DirCounted;
    OutOfRange(v, i);
    OutOfRange(w, i);
  }

  lemma OutOfRange(v: Volume, i: nat)
    requires Shape(v)
    ensures !(0 < i <= v.geo.inodesCount) ==> DirCounted(v, i)
  {
  }

  lemma DirsCountedMeans(v: Volume)
    requires Shape(v)
    ensures DirsCounted(v) <==> forall i :: DirCounted(v, i)
  {
    hide View;
    forall i
      ensures i in View(v) <==> Active(v, i)
      ensures i in View(v) ==> (View(v)[i].Dir? <==> InodeOf(v, i).IsDir())
    {
      ViewFacts(v, i);
    }
    if DirsCounted(v) {
      forall i
        ensures DirCounted(v, i)
      {
        assert Active(v, i) ==> i in View(v);
      }
    }
    if forall i :: DirCounted(v, i) {
      forall i | i in View(v) && View(v)[i].Dir?
        ensures InodeOf(v, i).blocks * 512 == InodeOf(v, i).size
      {
        assert DirCounted(v, i);
      }
    }
  }

  /** The counts of directories, after any run, write failures included. */
  lemma RunKeepsDirsCounted(s: State, ops: seq<Request>)
    requires Sane(s)
    ensures Shape(s.v) && (DirsCounted(s.v) ==> DirsCounted(Run(s, ops).v))
  {
    hide Sane, Run, DirsCounted, DirCounted;
    SaneShape(s);
    DirsCountedMeans(s.v);
    DirsCountedMeans(Run(s, ops).v);
    forall i
      ensures DirCounted(s.v, i) ==> DirCounted(Run(s, ops).v, i)
    {
      RunKeepsDirCounted(s, ops, i);
    }
  }
}
