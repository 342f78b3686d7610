/** Whole runs of the engine: operations named by paths, from any sane volume, in any order,
    succeeding or failing. */
module Runs {
  import opened Bytes
  import opened Volumes
  import opened PointerTree
  import opened Ownership
  import opened Files
  import opened Release
  import opened DirBlock
  import opened Directories
  import opened FileSystem
  import opened Conservation
  import opened Paths
  import opened Trees

  /** The volume and the current directory. */
  datatype State = State(v: Volume, cur: nat)

  // ---- the operations as callers name them ----

  /** ext2_create_file_by_path. */
  function CreateFileByPath(v: Volume, cur: nat, path: Path, uid: nat): (r: Created)
    requires Shape(v)
    ensures Shape(r.v) && r.v.geo == v.geo
  {
    match SplitParent(path)
    case None => Created(v, None)
    case Some(parts) =>
      match ParentOf(v, cur, parts.parent)
      case None => Created(v, None)
      case Some(d) => CreateFile(v, d, parts.name, uid)
  }

  /** ext2_create_directory_by_path. */
  function CreateDirectoryByPath(v: Volume, cur: nat, path: Path, uid: nat): (r: Created)
    requires Shape(v)
    ensures Shape(r.v) && r.v.geo == v.geo
  {
    match SplitParent(path)
    case None => Created(v, None)
    case Some(parts) =>
      match ParentOf(v, cur, parts.parent)
      case None => Created(v, None)
      case Some(d) => CreateDirectory(v, d, parts.name, uid)
  }

  /** ext2_write_file_by_path: the file is created when the path leads nowhere. */
  function WriteFileByPath(v: Volume, cur: nat, path: Path, buf: seq<Byte>, uid: nat): (r: Outcome)
    requires Shape(v) && |buf| < 0x8000_0000
    ensures Shape(r.v) && r.v.geo == v.geo
  {
    match FindByPath(v, cur, path)
    case Some(i) => WriteFile(v, i, buf)
    case None =>
      var c := CreateFileByPath(v, cur, path, uid);
      match c.inode
      case None => Outcome(c.v, false)
      case Some(i) => WriteFile(c.v, i, buf)
  }

  /** ext2_delete_file_by_path. */
  function DeleteFileByPath(v: Volume, cur: nat, path: Path): (r: Outcome)
    requires Shape(v)
    ensures Shape(r.v) && r.v.geo == v.geo
  {
    match SplitParent(path)
    case None => Outcome(v, false)
    case Some(parts) =>
      match ParentOf(v, cur, parts.parent)
      case None => Outcome(v, false)
      case Some(d) => DeleteFile(v, d, parts.name)
  }

  /** cmd_cd: the current directory after it. */
  function ChangeDirectory(v: Volume, cur: nat, path: Path): nat
    requires Shape(v)
  {
    match FindByPath(v, cur, path)
    case None => cur
    case Some(i) => if ValidInode(v, i) && InodeOf(v, i).IsDir() then i else cur
  }

  datatype Op =
    | Create(path: Path, uid: nat)
    | MakeDirectory(path: Path, uid: nat)
    | Write(path: Path, buf: seq<Byte>, uid: nat)
    | Delete(path: Path)
    | Cd(path: Path)

  /** Requests the engine's interface can carry: the size of a write is returned as an int. */
  type Request = op: Op | op.Write? ==> |op.buf| < 0x8000_0000 witness Cd([])

  function Step(s: State, op: Request): (r: State)
    requires Shape(s.v)
    ensures Shape(r.v)
  {
    match op
    case Create(path, uid) => s.(v := CreateFileByPath(s.v, s.cur, path, uid).v)
    case MakeDirectory(path, uid) => s.(v := CreateDirectoryByPath(s.v, s.cur, path, uid).v)
    case Write(path, buf, uid) => s.(v := WriteFileByPath(s.v, s.cur, path, buf, uid).v)
    case Delete(path) => s.(v := DeleteFileByPath(s.v, s.cur, path).v)
    case Cd(path) => s.(cur := ChangeDirectory(s.v, s.cur, path))
  }

  function Run(s: State, ops: seq<Request>): (r: State)
    requires Shape(s.v)
    ensures Shape(r.v)
    decreases |ops|
  {
    if ops == [] then s else Run(Step(s, ops[0]), ops[1..])
  }

  // ---- the invariant of runs ----

  /** A sound volume together with the records that witness it. */
  ghost predicate SaneWith(s: State, owner: Owners, home: Homes) {
    StoreOk(s.v, owner) && TreeOk(View(s.v), home) && IsDirIn(View(s.v), s.cur)
  }

  ghost predicate Sane(s: State) {
    exists owner, home :: SaneWith(s, owner, home)
  }

  /** Path lookup never leaves the tree. */
  lemma {:induction false} ResolveInTree(v: Volume, owner: Owners, home: Homes, i: nat, path: Path)
    requires StoreOk(v, owner) && TreeOk(View(v), home) && i in View(v)
    ensures Resolve(v, i, path).Some? ==> Resolve(v, i, path).value in View(v)
    decreases |path|
  {
    hide StoreOk, TreeOk, View, FindInDir;
    StoreOkFacts(v, owner, i);
    match NextComponent(path)
    case Done =>
    case TooLong =>
    case Component(name, rest) =>
      if name == DOT {
        ResolveInTree(v, owner, home, i, rest);
      } else {
        FindSeesView(v, owner, i, name);
        if FindInDir(v, i, name).Some? {
          EntryInTree(View(v), home, i, name);
          ResolveInTree(v, owner, home, FindInDir(v, i, name).value, rest);
        }
      }
  }

  lemma FindInTree(v: Volume, owner: Owners, home: Homes, cur: nat, path: Path)
    requires StoreOk(v, owner) && TreeOk(View(v), home) && cur in View(v)
    ensures FindByPath(v, cur, path).Some? ==> FindByPath(v, cur, path).value in View(v)
    ensures ParentOf(v, cur, path).Some? ==> ParentOf(v, cur, path).value in View(v)
  {
    hide StoreOk, TreeOk, View, Resolve;
    StoreOkFacts(v, owner, cur);
    GoodRoot(View(v), home);
    if path != [] {
      var p := if FromRoot(path) && path[0] == TILDE then path[1..] else path;
      ResolveInTree(v, owner, home, if FromRoot(path) then ROOT else cur, p);
    }
  }

  /** An inode that is bound where `View` has it stays what it is while others come and go. */
  lemma StillDirectory(t: Tree, t': Tree, cur: nat, other: nat, name: Name, node: Node, links: nat, inode: Option<nat>)
    requires CreatedView(t, t', other, name, node, links, inode) && IsDirIn(t, cur)
    ensures IsDirIn(t', cur)
  {
  }

  // ---- what a step does to the entries ----

  /** ext2_create_file_by_path would leave behind an inode that no directory names. */
  predicate CreateLeavesLoose(v: Volume, cur: nat, path: Path)
    requires Shape(v)
  {
    match SplitParent(path)
    case None => false
    case Some(parts) =>
      match ParentOf(v, cur, parts.parent)
      case None => false
      case Some(d) => FileLeftLoose(v, d, parts.name)
  }

  predicate CreateDirectoryLeavesLoose(v: Volume, cur: nat, path: Path)
    requires Shape(v)
  {
    match SplitParent(path)
    case None => false
    case Some(parts) =>
      match ParentOf(v, cur, parts.parent)
      case None => false
      case Some(d) => DirLeftLoose(v, d, parts.name)
  }

  /** The requests that leave a live inode without an entry, told by the state before them. */
  predicate LeavesLoose(s: State, op: Request)
    requires Shape(s.v)
  {
    match op
    case Create(path, _) => CreateLeavesLoose(s.v, s.cur, path)
    case MakeDirectory(path, _) => CreateDirectoryLeavesLoose(s.v, s.cur, path)
    case Write(path, _, _) => FindByPath(s.v, s.cur, path).None? && CreateLeavesLoose(s.v, s.cur, path)
    case Delete(_) => false
    case Cd(_) => false
  }

  /** The inode a write by path goes to, made for it if need be; 0 if there is none. */
  function Target(s: State, op: Request): nat
    requires Shape(s.v)
  {
    match op
    case Write(path, _, uid) =>
      FindByPath(s.v, s.cur, path).GetOr(CreateFileByPath(s.v, s.cur, path, uid).inode.GetOr(0))
    case _ => 0
  }

  /** The request is a write that runs out of blocks after taking some, told by the state in which it
      starts writing. */
  predicate Starves(s: State, op: Request)
    requires Shape(s.v)
  {
    match op
    case Write(path, buf, uid) =>
      Starved(if FindByPath(s.v, s.cur, path).Some? then s.v else CreateFileByPath(s.v, s.cur, path, uid).v,
              Target(s, op), buf)
    case _ => false
  }

  /** From `t` to `t'` inodes bound nowhere stay so, and there is one more of them exactly if `leaves`. */
  ghost predicate EntriesStep(t: Tree, home: Homes, t': Tree, home': Homes, leaves: bool) {
    && (NoneLoose(t, home) && !leaves ==> NoneLoose(t', home'))
    && (forall j :: Loose(t, j) ==> Loose(t', j))
    && (leaves ==> exists i :: Loose(t', i))
  }

  lemma EntriesSame(t: Tree, home: Homes)
    ensures EntriesStep(t, home, t, home, false)
  {
  }

  lemma EntriesThen(t: Tree, home: Homes, t1: Tree, h1: Homes, t2: Tree, h2: Homes, leaves: bool)
    requires EntriesStep(t, home, t1, h1, leaves) && EntriesStep(t1, h1, t2, h2, false)
    ensures EntriesStep(t, home, t2, h2, leaves)
  {
    hide NoneLoose, Loose;
  }

  /** A creation that succeeded, failed cleanly, or left an unbound inode behind. */
  lemma CreatedSane(t: Tree, home: Homes, t': Tree, dir: nat, name: Name, node: Node, links: nat, inode: Option<nat>,
                    left: Option<nat>, cur: nat, loose: Node) returns (home': Homes)
    requires TreeOk(t, home) && IsDirIn(t, cur) && dir in t
    requires left == None ==> CreatedView(t, t', dir, name, node, links, inode)
    requires left.Some? ==> left.value !in t && IsDirIn(t, dir) && t' == t[left.value := loose]
    requires (node == File([]) && links == 0) || (node == NewDirNode(inode.GetOr(0), dir) && links == 1)
    requires loose == File([]) || loose == NewDirNode(left.GetOr(0), dir)
    ensures TreeOk(t', home') && IsDirIn(t', cur) && EntriesStep(t, home, t', home', left.Some?)
  {
    hide TreeOk, NoneLoose, Loose;
    home' := home;
    match left
    case Some(i) =>
      home' := Homed(home, i, dir, name);
      LooseInode(t, home, i, loose, dir, name);
      LeftLoose(t, home, i, loose, dir);
      forall j | Loose(t, j)
        ensures Loose(t', j)
      {
        LooseStays(t, j, dir, name, loose, links, i);
      }
    case None =>
      StillDirectory(t, t', cur, dir, name, node, links, inode);
      if inode.Some? {
        CreatedTree(t, home, t', dir, name, node, links, inode.value);
        home' := Homed(home, inode.value, dir, name);
        forall j | Loose(t, j)
          ensures Loose(t', j)
        {
          LooseStays(t, j, dir, name, node, links, inode.value);
        }
      }
  }

  lemma CreateKeepsSane(s: State, owner: Owners, home: Homes, dir: nat, name: Name, uid: nat)
    returns (owner': Owners, home': Homes)
    requires SaneWith(s, owner, home) && dir in View(s.v)
    ensures var w := CreateFile(s.v, dir, name, uid).v;
      && SaneWith(s.(v := w), owner', home')
      && EntriesStep(View(s.v), home, View(w), home', FileLeftLoose(s.v, dir, name))
      && BooksStep(s.v, owner, w, owner', 0, false) && Extended(owner, owner')
  {
    hide StoreOk, TreeOk, View, CreateFile, CreatedView, EntriesStep, FileLeftLoose, Ledger, Extended;
    StoreOkFacts(s.v, owner, dir);
    var r := CreateFile(s.v, dir, name, uid);
    var left;
    owner', left := CreateFileStep(s.v, owner, dir, name, uid);
    home' := CreatedSane(View(s.v), home, View(r.v), dir, name, File([]), 0, r.inode, left, s.cur, File([]));
  }

  lemma CreateDirectoryKeepsSane(s: State, owner: Owners, home: Homes, dir: nat, name: Name, uid: nat)
    returns (owner': Owners, home': Homes)
    requires SaneWith(s, owner, home) && dir in View(s.v)
    ensures var w := CreateDirectory(s.v, dir, name, uid).v;
      && SaneWith(s.(v := w), owner', home')
      && EntriesStep(View(s.v), home, View(w), home', DirLeftLoose(s.v, dir, name))
      && BooksStep(s.v, owner, w, owner', 0, false) && Extended(owner, owner')
  {
    hide StoreOk, TreeOk, View, CreateDirectory, CreatedView, NewDirNode, EntriesStep, DirLeftLoose, Ledger, Extended;
    StoreOkFacts(s.v, owner, dir);
    var r := CreateDirectory(s.v, dir, name, uid);
    var left;
    owner', left := CreateDirectoryStep(s.v, owner, dir, name, uid);
    home' := CreatedSane(View(s.v), home, View(r.v), dir, name, NewDirNode(r.inode.GetOr(0), dir), 1, r.inode, left,
                         s.cur, NewDirNode(left.GetOr(0), dir));
  }

  lemma WriteKeepsSane(s: State, owner: Owners, home: Homes, i: nat, buf: seq<Byte>)
    returns (owner': Owners)
    requires SaneWith(s, owner, home) && i in View(s.v) && |buf| < 0x8000_0000
    ensures var w := WriteFile(s.v, i, buf).v;
      && SaneWith(s.(v := w), owner', home) && EntriesStep(View(s.v), home, View(w), home, false)
      && BooksStep(s.v, owner, w, owner', i, Starved(s.v, i, buf)) && Extended(owner, owner')
  {
    hide StoreOk, TreeOk, View, WriteFile, NoneLoose, Loose, BooksStep, Extended, Starved;
    StoreOkFacts(s.v, owner, i);
    ViewFacts(s.v, i);
    owner' := WriteBooks(s.v, owner, i, buf);
    if WriteFile(s.v, i, buf).ok {
      WrittenTree(View(s.v), home, i, buf);
      forall j | Loose(View(s.v), j)
        ensures Loose(View(s.v)[i := File(buf)], j)
      {
        LooseStays(View(s.v), j, i, [], File([]), 0, i);
      }
    }
  }

  lemma DeleteKeepsSane(s: State, owner: Owners, home: Homes, dir: nat, name: Name)
    returns (owner': Owners)
    requires SaneWith(s, owner, home) && dir in View(s.v)
    ensures var w := DeleteFile(s.v, dir, name).v;
      && SaneWith(s.(v := w), owner', home) && EntriesStep(View(s.v), home, View(w), home, false)
      && BooksStep(s.v, owner, w, owner', 0, false)
  {
    hide StoreOk, TreeOk, View, DeleteFile, NoneLoose, Loose, Ledger;
    StoreOkFacts(s.v, owner, dir);
    var t := View(s.v);
    if t[dir].Dir? {
      forall n | n in t[dir].entries
        ensures t[dir].entries[n] in t
      {
        EntryInTree(t, home, dir, n);
      }
    }
    owner' := DeleteFileStep(s.v, owner, dir, name);
    LedgerSame(s.v, owner);
    if DeleteFile(s.v, dir, name).ok {
      DeleteLedger(s.v, owner, dir, name);
      DeletedTree(t, home, dir, name);
      NotDotted(t, home, dir, name);
      forall j | Loose(t, j)
        ensures Loose(View(DeleteFile(s.v, dir, name).v), j)
      {
        LooseStays(t, j, dir, name, File([]), 0, j);
      }
    }
  }

  /** Every operation, whatever its path and however it ends, leaves a sane volume sane. */
  lemma StepKeepsSane(s: State, op: Request)
    requires Sane(s)
    ensures Shape(s.v) && Sane(Step(s, op))
  {
    hide SaneWith;
    var owner, home :| SaneWith(s, owner, home);
    SaneShape(s);
    var o, h := StepWith(s, owner, home, op);
  }

  /** The same with the records that witness it, and what becomes of the entries. */
  lemma StepWith(s: State, owner: Owners, home: Homes, op: Request) returns (owner': Owners, home': Homes)
    requires SaneWith(s, owner, home)
    ensures Shape(s.v)
    ensures SaneWith(Step(s, op), owner', home')
    ensures EntriesStep(View(s.v), home, View(Step(s, op).v), home', LeavesLoose(s, op))
    ensures BooksStep(s.v, owner, Step(s, op).v, owner', Target(s, op), Starves(s, op))
  {
    hide StoreOk, TreeOk, View, SplitParent, FindByPath, CreateFile, CreateDirectory, DeleteFile, WriteFile, ParentOf,
      EntriesStep, FileLeftLoose, DirLeftLoose, CreateFileByPath, CreateLeavesLoose, BooksStep, Starved;
    StoreOkFacts(s.v, owner, s.cur);
    var path := op.path;
    FindInTree(s.v, owner, home, s.cur, path);
    EntriesSame(View(s.v), home);
    BooksSame(s.v, owner);
    owner', home' := owner, home;
    match op {
      case Create(_, uid) =>
        owner', home' := CreateByPathKeepsSane(s, owner, home, path, uid);
      case MakeDirectory(_, uid) =>
        if SplitParent(path).Some? {
          var parts := SplitParent(path).value;
          FindInTree(s.v, owner, home, s.cur, parts.parent);
          var d := ParentOf(s.v, s.cur, parts.parent);
          if d.Some? {
            owner', home' := CreateDirectoryKeepsSane(s, owner, home, d.value, parts.name, uid);
          }
        }
      case Write(_, buf, uid) =>
        owner', home' := WriteByPathKeepsSane(s, owner, home, path, buf, uid);
      case Delete(_) =>
        if SplitParent(path).Some? {
          var parts := SplitParent(path).value;
          FindInTree(s.v, owner, home, s.cur, parts.parent);
          var d := ParentOf(s.v, s.cur, parts.parent);
          if d.Some? {
            owner' := DeleteKeepsSane(s, owner, home, d.value, parts.name);
          }
        }
      case Cd(_) =>
        var i := ChangeDirectory(s.v, s.cur, path);
        ViewFacts(s.v, i);
        assert SaneWith(s.(cur := i), owner, home);
    }
  }

  lemma CreateByPathKeepsSane(s: State, owner: Owners, home: Homes, path: Path, uid: nat)
    returns (owner': Owners, home': Homes)
    requires SaneWith(s, owner, home)
    ensures Shape(s.v)
    ensures SaneWith(s.(v := CreateFileByPath(s.v, s.cur, path, uid).v), owner', home')
    ensures EntriesStep(View(s.v), home, View(CreateFileByPath(s.v, s.cur, path, uid).v), home',
                        CreateLeavesLoose(s.v, s.cur, path))
    ensures BooksStep(s.v, owner, CreateFileByPath(s.v, s.cur, path, uid).v, owner', 0, false)
    ensures Extended(owner, owner')
    ensures CreateFileByPath(s.v, s.cur, path, uid).inode.Some? ==>
      CreateFileByPath(s.v, s.cur, path, uid).inode.value in View(CreateFileByPath(s.v, s.cur, path, uid).v)
  {
    hide StoreOk, TreeOk, View, SplitParent, FindByPath, CreateFile, ParentOf, EntriesStep, FileLeftLoose, BooksStep,
      Extended;
    StoreOkFacts(s.v, owner, s.cur);
    EntriesSame(View(s.v), home);
    BooksSame(s.v, owner);
    owner', home' := owner, home;
    if SplitParent(path).Some? {
      var parts := SplitParent(path).value;
      FindInTree(s.v, owner, home, s.cur, parts.parent);
      var d := ParentOf(s.v, s.cur, parts.parent);
      if d.Some? {
        owner', home' := CreateKeepsSane(s, owner, home, d.value, parts.name, uid);
        var o, left := CreateFileStep(s.v, owner, d.value, parts.name, uid);
      }
    }
  }

  lemma WriteByPathKeepsSane(s: State, owner: Owners, home: Homes, path: Path, buf: seq<Byte>, uid: nat)
    returns (owner': Owners, home': Homes)
    requires SaneWith(s, owner, home) && |buf| < 0x8000_0000
    ensures Shape(s.v)
    ensures var w := WriteFileByPath(s.v, s.cur, path, buf, uid).v;
      && SaneWith(s.(v := w), owner', home')
      && EntriesStep(View(s.v), home, View(w), home',
                     FindByPath(s.v, s.cur, path).None? && CreateLeavesLoose(s.v, s.cur, path))
      && BooksStep(s.v, owner, w, owner', Target(s, Write(path, buf, uid)), Starves(s, Write(path, buf, uid)))
  {
    hide StoreOk, TreeOk, View, SplitParent, FindByPath, CreateFileByPath, WriteFile, CreateLeavesLoose, EntriesStep,
      BooksStep, Extended, Starved;
    StoreOkFacts(s.v, owner, s.cur);
    FindInTree(s.v, owner, home, s.cur, path);
    match FindByPath(s.v, s.cur, path)
    case Some(i) =>
      home' := home;
      owner' := WriteKeepsSane(s, owner, home, i, buf);
    case None =>
      var o, h := CreateByPathKeepsSane(s, owner, home, path, uid);
      owner', home' := o, h;
      var c := CreateFileByPath(s.v, s.cur, path, uid);
      match c.inode
      case None =>
        NotStarved(c.v, buf);
      case Some(i) =>
        owner' := WriteKeepsSane(s.(v := c.v), o, h, i, buf);
        BooksThen(s.v, owner, c.v, o, WriteFile(c.v, i, buf).v, owner', i, Starved(c.v, i, buf));
        EntriesThen(View(s.v), home, View(c.v), h, View(WriteFile(c.v, i, buf).v), h,
                    CreateLeavesLoose(s.v, s.cur, path));
  }

  lemma NotStarved(v: Volume, buf: seq<Byte>)
    requires Shape(v)
    ensures !Starved(v, 0, buf)
  {
  }

  /** The invariant holds after any run. */
  lemma {:induction false} RunKeepsSane(s: State, ops: seq<Request>)
    requires Sane(s)
    ensures Shape(s.v) && Sane(Run(s, ops))
    decreases |ops|
  {
    hide StoreOk, TreeOk, View, SaneWith;
    SaneShape(s);
    if ops != [] {
      StepKeepsSane(s, ops[0]);
      RunKeepsSane(Step(s, ops[0]), ops[1..]);
    }
  }

  lemma SaneShape(s: State)
    requires Sane(s)
    ensures Shape(s.v)
  {
    hide TreeOk, View;
  }
}
