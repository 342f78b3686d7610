/** What a user of the engine may rely on at any point of any run. */
module Guarantees {
  import opened Bytes
  import opened Geometry
  import opened Volumes
  import opened PointerTree
  import opened Ownership
  import opened Files
  import opened Release
  import opened DirBlock
  import opened Directories
  import opened FileSystem
  import opened Paths
  import opened Trees
  import opened Runs

  // ---- blocks ----

  lemma InTreeHeld(v: Volume, owner: Owners, i: nat, n: nat, s: Slot, b: nat)
    requires Shape(v) && ValidInode(v, i) && FileTree(v, owner, i, InodeOf(v, i), n)
    requires s.inode == i && InTree(v, InodeOf(v, i), n, s, b) && b != 0
    requires s.Child? ==> InodeOf(v, i).doubly != 0
    ensures Holds(v, owner, b, s)
  {
    hide Mapped, Word;
    if s.Child? {
      assert ChildHeld(v, owner, i, InodeOf(v, i).doubly, s.index);
    }
  }

  /** Block `b` fills slot `s` of the tree of the live inode `s.inode`. */
  predicate Occupies(v: Volume, s: Slot, b: nat)
    requires Shape(v)
  {
    && b != 0 && Active(v, s.inode)
    && (s.Child? ==> InodeOf(v, s.inode).doubly != 0)
    && InTree(v, InodeOf(v, s.inode), BlockCount(v, InodeOf(v, s.inode).size), s, b)
  }

  /** At every point of every run a block has one owner and one role, is not fixed metadata, and is
      marked used. */
  lemma OneOwner(s: State, a: Slot, b: Slot, block: nat)
    requires Sane(s)
    ensures Shape(s.v)
    ensures Occupies(s.v, a, block) ==> Plain(s.v, block) && s.v.used[block]
    ensures Occupies(s.v, a, block) && Occupies(s.v, b, block) ==> a == b
  {
    hide TreeOk, View, InTree;
    var owner, home :| SaneWith(s, owner, home);
    if Occupies(s.v, a, block) {
      InTreeHeld(s.v, owner, a.inode, BlockCount(s.v, InodeOf(s.v, a.inode).size), a, block);
      if Occupies(s.v, b, block) {
        InTreeHeld(s.v, owner, b.inode, BlockCount(s.v, InodeOf(s.v, b.inode).size), b, block);
      }
    }
  }

  /** At every point of every run the three records of free space agree. */
  lemma CountsAgree(s: State)
    requires Sane(s)
    ensures Shape(s.v) && Agreement(s.v)
  {
    hide TreeOk, View;
  }

  // ---- names ----

  /** Directory `d` has an entry `n` other than "." and "..". */
  predicate Binds(t: Tree, d: nat, n: Name) {
    IsDirIn(t, d) && n in t[d].entries && !Dotted(n)
  }

  /** Every name in a directory leads to a live inode marked used, and no two names other than "."
      and ".." lead to the same one. */
  lemma NamesLeadSomewhere(s: State, d: nat, n: Name, e: nat, m: Name)
    requires Sane(s)
    ensures Shape(s.v)
    ensures IsDirIn(View(s.v), d) && n in View(s.v)[d].entries ==>
      View(s.v)[d].entries[n] in View(s.v) && s.v.iused[View(s.v)[d].entries[n] - 1]
    ensures Binds(View(s.v), d, n) && Binds(View(s.v), e, m) && View(s.v)[d].entries[n] == View(s.v)[e].entries[m] ==>
      d == e && n == m
  {
    hide TreeOk, StoreOk, View;
    var owner, home :| SaneWith(s, owner, home);
    StoreOkFacts(s.v, owner, d);
    var t := View(s.v);
    if IsDirIn(t, d) && n in t[d].entries {
      var i := t[d].entries[n];
      EntryInTree(t, home, d, n);
      ViewFacts(s.v, i);
      StoreOkFacts(s.v, owner, i);
      if Binds(t, d, n) && Binds(t, e, m) && t[e].entries[m] == i {
        BoundOnce(t, home, d, n, e, m);
      }
    }
  }

  /** links_count of every directory is 2 plus its subdirectories. */
  lemma LinksCountSubdirectories(s: State, d: nat)
    requires Sane(s)
    ensures Shape(s.v)
    ensures IsDirIn(View(s.v), d) ==> View(s.v)[d].links == (2 + |Subdirs(View(s.v), d)|) % 0x1_0000
  {
    hide TreeOk, StoreOk, View;
    var owner, home :| SaneWith(s, owner, home);
    StoreOkFacts(s.v, owner, d);
    if IsDirIn(View(s.v), d) {
      GoodDir(View(s.v), home, d);
    }
  }

  /** "." of a directory is itself, and ".." of one that `e` names is `e`; the root is its own parent. */
  lemma DotsLead(s: State, d: nat, e: nat, n: Name)
    requires Sane(s)
    ensures Shape(s.v)
    ensures IsDirIn(View(s.v), d) ==> FindInDir(s.v, d, DOT) == Some(d)
    ensures IsDirIn(View(s.v), d) && Binds(View(s.v), e, n) && View(s.v)[e].entries[n] == d ==>
      FindInDir(s.v, d, DOTDOT) == Some(e)
    ensures FindInDir(s.v, ROOT, DOTDOT) == Some(ROOT)
  {
    hide TreeOk, StoreOk, View, FindInDir;
    var owner, home :| SaneWith(s, owner, home);
    StoreOkFacts(s.v, owner, d);
    GoodRoot(View(s.v), home);
    GoodDir(View(s.v), home, ROOT);
    FindSeesView(s.v, owner, ROOT, DOTDOT);
    if IsDirIn(View(s.v), d) {
      GoodDir(View(s.v), home, d);
      FindSeesView(s.v, owner, d, DOT);
      FindSeesView(s.v, owner, d, DOTDOT);
      if Binds(View(s.v), e, n) && View(s.v)[e].entries[n] == d {
        GoodDir(View(s.v), home, e);
      }
    }
  }

  const UP: Path := ['/' as int, '.' as int, '.' as int]

  /** Appending "/.." to a path that leads to a directory leads to the one that names it. */
  lemma UpLeadsToParent(s: State, path: Path, d: nat, e: nat, n: Name)
    requires Sane(s)
    ensures Shape(s.v)
    ensures FindByPath(s.v, s.cur, path) == Some(d) && IsDirIn(View(s.v), d) ==>
      && (Binds(View(s.v), e, n) && View(s.v)[e].entries[n] == d ==> FindByPath(s.v, s.cur, path + UP) == Some(e))
      && (d == ROOT ==> FindByPath(s.v, s.cur, path + UP) == Some(ROOT))
  {
    hide TreeOk, StoreOk, View, FindInDir, Resolve;
    DotsLead(s, d, e, n);
    if FindByPath(s.v, s.cur, path) == Some(d) {
      var k := Skipped(path);
      assert (path + UP)[k..] == path[k..] + UP;
      assert Resolve(s.v, Start(s.cur, path), path[k..]) == Some(d);
      ResolveAppend(s.v, Start(s.cur, path), path[k..], DOTDOT, UP);
      assert FromRoot(path + UP) == FromRoot(path);
      assert |DOTDOT| != |DOT|;
    }
  }

  // ---- paths ----

  /** Whether resolving a whole path agrees with looking up its last name in its parent. */
  ghost predicate PathAgrees(s: State, path: Path)
    requires Shape(s.v) && SplitParent(path).Some?
  {
    var parts := SplitParent(path).value;
    FindByPath(s.v, s.cur, path)
    == match ParentOf(s.v, s.cur, parts.parent) { case None => None case Some(d) => FindInDir(s.v, d, parts.name) }
  }

  /** It does exactly when the path is not "~" alone and does not end in "." below a regular file. */
  lemma PathAgreement(s: State, path: Path)
    requires Sane(s) && SplitParent(path).Some?
    ensures Shape(s.v)
    ensures var parts := SplitParent(path).value;
      PathAgrees(s, path) <==>
      && path != [TILDE]
      && (parts.name == DOT ==>
            var d := ParentOf(s.v, s.cur, parts.parent);
            d.Some? ==> IsDirIn(View(s.v), d.value))
  {
    hide TreeOk, StoreOk, View, FindInDir, Resolve;
    var owner, home :| SaneWith(s, owner, home);
    StoreOkFacts(s.v, owner, s.cur);
    var parts := SplitParent(path).value;
    if path == [TILDE] {
      TildeIsRoot(s, owner, home);
    } else {
      ResolvesThroughParent(s.v, s.cur, path);
      FindInTree(s.v, owner, home, s.cur, parts.parent);
      var d := ParentOf(s.v, s.cur, parts.parent);
      if parts.name == DOT && d.Some? {
        FindSeesView(s.v, owner, d.value, DOT);
        if IsDirIn(View(s.v), d.value) {
          GoodDir(View(s.v), home, d.value);
        }
      }
    }
  }

  /** "~" alone resolves to the root, but no directory has an entry that leads there under that name. */
  lemma TildeIsRoot(s: State, owner: Owners, home: Homes)
    requires SaneWith(s, owner, home)
    ensures Shape(s.v) && SplitParent([TILDE]) == Some(Parts([], [TILDE]))
    ensures FindByPath(s.v, s.cur, [TILDE]) == Some(ROOT) && FindInDir(s.v, s.cur, [TILDE]) != Some(ROOT)
  {
    hide TreeOk, StoreOk, View, FindInDir;
    StoreOkFacts(s.v, owner, s.cur);
    FindSeesView(s.v, owner, s.cur, [TILDE]);
    assert NextComponent([TILDE][1..]) == Done;
    if FindInDir(s.v, s.cur, [TILDE]).Some? {
      assert [TILDE][0] != DOT[0] && DOTDOT[0] == DOT[0];
      EntryInTree(View(s.v), home, s.cur, [TILDE]);
    }
    assert NameStart([TILDE]) == 0;
  }

  /** Every name that was bound still is, to the same inode. */
  predicate NamesKept(t: Tree, t': Tree) {
    && (forall i :: i in t ==> i in t')
    && (forall d :: d in t && t[d].Dir? ==>
          t'[d].Dir? && forall n :: n in t[d].entries ==> n in t'[d].entries && t'[d].entries[n] == t[d].entries[n])
  }

  lemma {:induction false} ResolveKept(v: Volume, o1: Owners, home: Homes, w: Volume, o2: Owners, i: nat, path: Path)
    requires StoreOk(v, o1) && StoreOk(w, o2) && TreeOk(View(v), home) && NamesKept(View(v), View(w)) && i in View(v)
    ensures Resolve(v, i, path).Some? ==> Resolve(w, i, path) == Resolve(v, i, path)
    decreases |path|
  {
    hide TreeOk, StoreOk, View, FindInDir;
    StoreOkFacts(v, o1, i);
    StoreOkFacts(w, o2, i);
    match NextComponent(path)
    case Done =>
    case TooLong =>
    case Component(name, rest) =>
      if name == DOT {
        ResolveKept(v, o1, home, w, o2, i, rest);
      } else {
        FindSeesView(v, o1, i, name);
        FindSeesView(w, o2, i, name);
        if FindInDir(v, i, name).Some? {
          EntryInTree(View(v), home, i, name);
          ResolveKept(v, o1, home, w, o2, FindInDir(v, i, name).value, rest);
        }
      }
  }

  lemma FindKept(v: Volume, o1: Owners, home: Homes, w: Volume, o2: Owners, cur: nat, path: Path)
    requires StoreOk(v, o1) && StoreOk(w, o2) && TreeOk(View(v), home) && NamesKept(View(v), View(w)) && cur in View(v)
    ensures FindByPath(v, cur, path).Some? ==> FindByPath(w, cur, path) == FindByPath(v, cur, path)
    ensures ParentOf(v, cur, path).Some? ==> ParentOf(w, cur, path) == ParentOf(v, cur, path)
  {
    hide TreeOk, StoreOk, View, Resolve, NamesKept;
    StoreOkFacts(v, o1, cur);
    StoreOkFacts(w, o2, cur);
    GoodRoot(View(v), home);
    if path != [] {
      var p := if FromRoot(path) && path[0] == TILDE then path[1..] else path;
      ResolveKept(v, o1, home, w, o2, if FromRoot(path) then ROOT else cur, p);
    }
  }

  // ---- creating, writing and reading by path ----

  /** ext2_read_file_by_path. */
  function ReadFileByPath(v: Volume, cur: nat, path: Path, size: nat): Option<seq<Byte>>
    requires Shape(v)
  {
    match FindByPath(v, cur, path)
    case None => None
    case Some(i) => ReadFile(v, i, size)
  }

  lemma CreatedNamesKept(t: Tree, t': Tree, d: nat, name: Name, node: Node, links: nat, i: nat)
    requires CreatedView(t, t', d, name, node, links, Some(i))
    ensures NamesKept(t, t') && i in t' && d in t' && t'[d].Dir? && name in t'[d].entries && t'[d].entries[name] == i
    ensures i != d ==> t'[i] == node
    ensures forall j :: j in t && j != d ==> t'[j] == t[j]
  {
  }

  /** What was created under a path is found under that path. */
  lemma CreatedFound(v: Volume, o1: Owners, home: Homes, w: Volume, o2: Owners, cur: nat, path: Path,
                     d: nat, node: Node, links: nat, i: nat)
    requires StoreOk(v, o1) && StoreOk(w, o2) && TreeOk(View(v), home) && cur in View(v)
    requires SplitParent(path).Some? && path != [TILDE] && ParentOf(v, cur, SplitParent(path).value.parent) == Some(d)
    requires CreatedView(View(v), View(w), d, SplitParent(path).value.name, node, links, Some(i))
    ensures FindByPath(w, cur, path) == Some(i)
  {
    hide TreeOk, StoreOk, View, FindInDir, FindByPath, NamesKept, CreatedView, ParentOf;
    StoreOkFacts(v, o1, cur);
    StoreOkFacts(w, o2, cur);
    var parts := SplitParent(path).value;
    CreatedNamesKept(View(v), View(w), d, parts.name, node, links, i);
    FindKept(v, o1, home, w, o2, cur, parts.parent);
    ResolvesThroughParent(w, cur, path);
    FindSeesView(w, o2, d, parts.name);
    CreatedInDir(View(v), View(w), d, parts.name, node, links, i);
    GoodDir(View(v), home, d);
  }

  lemma CreatedInDir(t: Tree, t': Tree, d: nat, name: Name, node: Node, links: nat, i: nat)
    requires CreatedView(t, t', d, name, node, links, Some(i))
    ensures IsDirIn(t, d) && name !in t[d].entries && 0 < |name| <= EXT2_MAX_NAME_LEN
  {
  }

  /** A path just created resolves to the inode that the creation returned. */
  lemma CreatedPathResolves(s: State, path: Path, uid: nat)
    requires Sane(s)
    ensures Shape(s.v)
    ensures var c := CreateFileByPath(s.v, s.cur, path, uid);
      c.inode.Some? ==> (FindByPath(c.v, s.cur, path) == c.inode <==> path != [TILDE])
    ensures var c := CreateDirectoryByPath(s.v, s.cur, path, uid);
      c.inode.Some? ==> (FindByPath(c.v, s.cur, path) == c.inode <==> path != [TILDE])
  {
    hide SaneWith, CreateFileByPath, CreateDirectoryByPath, FindByPath;
    SaneShape(s);
    if path != [TILDE] {
      CreatedPathFound(s, path, uid);
    } else {
      CreatedTilde(s, uid);
    }
  }

  /** "~" alone still resolves to the root, which was there before. */
  lemma CreatedTilde(s: State, uid: nat)
    requires Sane(s)
    ensures Shape(s.v)
    ensures var c := CreateFileByPath(s.v, s.cur, [TILDE], uid);
      FindByPath(c.v, s.cur, [TILDE]) == Some(ROOT) && c.inode != Some(ROOT)
    ensures var c := CreateDirectoryByPath(s.v, s.cur, [TILDE], uid);
      FindByPath(c.v, s.cur, [TILDE]) == Some(ROOT) && c.inode != Some(ROOT)
  {
    hide TreeOk, StoreOk, View, FindInDir, FindByPath, CreateFile, CreateDirectory, CreatedView, NewDirNode;
    var owner, home :| SaneWith(s, owner, home);
    StoreOkFacts(s.v, owner, s.cur);
    TildeIsRoot(s, owner, home);
    GoodRoot(View(s.v), home);
    var o1, l1 := CreateFileStep(s.v, owner, s.cur, [TILDE], uid);
    var o2, h2 := CreateKeepsSane(s, owner, home, s.cur, [TILDE], uid);
    TildeIsRoot(s.(v := CreateFile(s.v, s.cur, [TILDE], uid).v), o2, h2);
    FreshIsNotRoot(View(s.v), View(CreateFile(s.v, s.cur, [TILDE], uid).v), s.cur, [TILDE], File([]), 0,
                   CreateFile(s.v, s.cur, [TILDE], uid).inode);
    var o3, l3 := CreateDirectoryStep(s.v, owner, s.cur, [TILDE], uid);
    var o4, h4 := CreateDirectoryKeepsSane(s, owner, home, s.cur, [TILDE], uid);
    var e := CreateDirectory(s.v, s.cur, [TILDE], uid);
    TildeIsRoot(s.(v := e.v), o4, h4);
    FreshIsNotRoot(View(s.v), View(e.v), s.cur, [TILDE], NewDirNode(e.inode.GetOr(0), s.cur), 1, e.inode);
  }

  lemma FreshIsNotRoot(t: Tree, t': Tree, cur: nat, name: Name, node: Node, links: nat, inode: Option<nat>)
    requires ROOT in t
    ensures CreatedView(t, t', cur, name, node, links, inode) ==> inode != Some(ROOT)
  {
  }

  lemma CreatedPathFound(s: State, path: Path, uid: nat)
    requires Sane(s) && path != [TILDE]
    ensures Shape(s.v)
    ensures var c := CreateFileByPath(s.v, s.cur, path, uid);
      c.inode.Some? ==> FindByPath(c.v, s.cur, path) == c.inode
    ensures var c := CreateDirectoryByPath(s.v, s.cur, path, uid);
      c.inode.Some? ==> FindByPath(c.v, s.cur, path) == c.inode
  {
    hide TreeOk, StoreOk, View, FindInDir, FindByPath, CreateFile, CreateDirectory, ParentOf, SplitParent, CreatedView,
      NewDirNode;
    var owner, home :| SaneWith(s, owner, home);
    StoreOkFacts(s.v, owner, s.cur);
    if SplitParent(path).Some? {
      var parts := SplitParent(path).value;
      FindInTree(s.v, owner, home, s.cur, parts.parent);
      var d := ParentOf(s.v, s.cur, parts.parent);
      if d.Some? {
        var o2, l2 := CreateFileStep(s.v, owner, d.value, parts.name, uid);
        var c := CreateFile(s.v, d.value, parts.name, uid);
        if c.inode.Some? {
          CreatedFound(s.v, owner, home, c.v, o2, s.cur, path, d.value, File([]), 0, c.inode.value);
        }
        var o3, l3 := CreateDirectoryStep(s.v, owner, d.value, parts.name, uid);
        var e := CreateDirectory(s.v, d.value, parts.name, uid);
        if e.inode.Some? {
          CreatedFound(s.v, owner, home, e.v, o3, s.cur, path, d.value, NewDirNode(e.inode.value, d.value), 1,
                       e.inode.value);
        }
      }
    }
  }

  lemma NamesKeptTransitive(t: Tree, t1: Tree, t2: Tree)
    requires NamesKept(t, t1) && NamesKept(t1, t2)
    ensures NamesKept(t, t2)
  {
  }

  /** A write through inode `i`, seen from the tree. */
  lemma WriteThrough(v: Volume, owner: Owners, home: Homes, i: nat, buf: seq<Byte>) returns (owner': Owners)
    requires StoreOk(v, owner) && TreeOk(View(v), home) && i in View(v) && |buf| < 0x8000_0000
    ensures var r := WriteFile(v, i, buf);
      && StoreOk(r.v, owner') && TreeOk(View(r.v), home)
      && NamesKept(View(v), View(r.v))
      && (forall j :: j in View(v) && j != i ==> View(r.v)[j] == View(v)[j])
      && (r.ok ==> View(r.v)[i] == File(buf))
  {
    hide TreeOk, StoreOk, View, WriteFile;
    StoreOkFacts(v, owner, i);
    ViewFacts(v, i);
    owner' := WriteStep(v, owner, i, buf);
    if WriteFile(v, i, buf).ok {
      WrittenTree(View(v), home, i, buf);
    }
  }

  /** A creation by path, seen from the tree, whether it succeeds or not. */
  lemma CreateThrough(v: Volume, owner: Owners, home: Homes, cur: nat, path: Path, uid: nat)
    returns (owner': Owners, home': Homes)
    requires StoreOk(v, owner) && TreeOk(View(v), home) && IsDirIn(View(v), cur) && FindByPath(v, cur, path).None?
    ensures var c := CreateFileByPath(v, cur, path, uid);
      && StoreOk(c.v, owner') && TreeOk(View(c.v), home') && NamesKept(View(v), View(c.v))
      && (forall j :: j in View(v) && View(v)[j].File? ==> View(c.v)[j] == View(v)[j])
      && (c.inode.Some? ==>
            && c.inode.value !in View(v) && c.inode.value in View(c.v)
            && FindByPath(c.v, cur, path) == c.inode)
  {
    hide TreeOk, StoreOk, View, FindInDir, FindByPath, CreateFile, CreatedView;
    StoreOkFacts(v, owner, cur);
    TildeFound(v, owner, home, cur);
    owner', home' := owner, home;
    if SplitParent(path).Some? {
      var parts := SplitParent(path).value;
      FindInTree(v, owner, home, cur, parts.parent);
      var d := ParentOf(v, cur, parts.parent);
      if d.Some? {
        owner', home' := CreateIn(v, owner, home, cur, d.value, parts.name, uid);
        var c := CreateFile(v, d.value, parts.name, uid);
        if c.inode.Some? {
          CreatedFound(v, owner, home, c.v, owner', cur, path, d.value, File([]), 0, c.inode.value);
        }
      }
    }
  }

  lemma TildeFound(v: Volume, owner: Owners, home: Homes, cur: nat)
    requires StoreOk(v, owner) && TreeOk(View(v), home) && IsDirIn(View(v), cur)
    ensures Shape(v) && FindByPath(v, cur, [TILDE]).Some?
  {
    TildeIsRoot(State(v, cur), owner, home);
  }

  lemma CreateIn(v: Volume, owner: Owners, home: Homes, cur: nat, d: nat, name: Name, uid: nat)
    returns (owner': Owners, home': Homes)
    requires StoreOk(v, owner) && TreeOk(View(v), home) && IsDirIn(View(v), cur) && d in View(v)
    ensures var c := CreateFile(v, d, name, uid);
      && StoreOk(c.v, owner') && TreeOk(View(c.v), home') && NamesKept(View(v), View(c.v))
      && (forall j :: j in View(v) && View(v)[j].File? ==> View(c.v)[j] == View(v)[j])
      && (c.inode.Some? ==>
            && c.inode.value !in View(v) && c.inode.value in View(c.v)
            && CreatedView(View(v), View(c.v), d, name, File([]), 0, c.inode))
  {
    hide TreeOk, StoreOk, View, CreateFile, EntriesStep, FileLeftLoose, Ledger, Extended, Loose, NoneLoose;
    StoreOkFacts(v, owner, d);
    var left;
    owner', left := CreateFileStep(v, owner, d, name, uid);
    var c := CreateFile(v, d, name, uid);
    home' := CreatedSane(View(v), home, View(c.v), d, name, File([]), 0, c.inode, left, cur, File([]));
  }

  /** How a write by path is seen afterwards. */
  lemma WriteByPathView(s: State, owner: Owners, home: Homes, path: Path, buf: seq<Byte>, uid: nat)
    returns (owner': Owners, home': Homes)
    requires SaneWith(s, owner, home) && |buf| < 0x8000_0000
    ensures Shape(s.v)
    ensures var r := WriteFileByPath(s.v, s.cur, path, buf, uid);
      && StoreOk(r.v, owner') && TreeOk(View(r.v), home') && NamesKept(View(s.v), View(r.v))
      && (forall j :: j in View(s.v) && View(s.v)[j].File? && FindByPath(s.v, s.cur, path) != Some(j) ==>
            View(r.v)[j] == View(s.v)[j])
      && (r.ok ==>
            var i := FindByPath(r.v, s.cur, path);
            i.Some? && i.value in View(r.v) && View(r.v)[i.value] == File(buf))
  {
    hide TreeOk, StoreOk, View, FindByPath, CreateFileByPath, WriteFile, NamesKept;
    StoreOkFacts(s.v, owner, s.cur);
    FindInTree(s.v, owner, home, s.cur, path);
    match FindByPath(s.v, s.cur, path)
    case Some(i) =>
      home' := home;
      owner' := WriteThrough(s.v, owner, home, i, buf);
      FindKept(s.v, owner, home, WriteFile(s.v, i, buf).v, owner', s.cur, path);
      KeptMember(View(s.v), View(WriteFile(s.v, i, buf).v), i);
    case None =>
      var o1;
      o1, home' := CreateThrough(s.v, owner, home, s.cur, path, uid);
      owner' := o1;
      var c := CreateFileByPath(s.v, s.cur, path, uid);
      match c.inode
      case None =>
      case Some(i) =>
        owner' := WriteThrough(c.v, o1, home', i, buf);
        var w := WriteFile(c.v, i, buf).v;
        KeptMember(View(s.v), View(c.v), s.cur);
        FindKept(c.v, o1, home', w, owner', s.cur, path);
        NamesKeptTransitive(View(s.v), View(c.v), View(w));
        KeptMember(View(c.v), View(w), i);
        KeptMembers(View(s.v), View(c.v));
  }

  lemma KeptMember(t: Tree, t': Tree, i: nat)
    requires NamesKept(t, t') && i in t
    ensures i in t'
  {
  }

  lemma KeptMembers(t: Tree, t': Tree)
    requires NamesKept(t, t')
    ensures forall i :: i in t ==> i in t'
  {
  }

  /** After a successful write by path, reading that path returns the first bytes of the buffer. */
  lemma WriteThenRead(s: State, path: Path, buf: seq<Byte>, uid: nat, size: nat)
    requires Sane(s) && |buf| < 0x8000_0000
    ensures Shape(s.v)
    ensures var r := WriteFileByPath(s.v, s.cur, path, buf, uid);
      r.ok ==> ReadFileByPath(r.v, s.cur, path, size) == Some(Prefix(buf, size))
  {
    hide TreeOk, StoreOk, View, FindByPath, WriteFileByPath, ReadFile;
    var owner, home :| SaneWith(s, owner, home);
    var o, h := WriteByPathView(s, owner, home, path, buf, uid);
    var r := WriteFileByPath(s.v, s.cur, path, buf, uid);
    if r.ok {
      ReadSeesView(r.v, o, FindByPath(r.v, s.cur, path).value, size);
    }
  }

  /** Whether it succeeds or fails, a write leaves every other file readable as before, under every
      path that led to it. */
  lemma WriteLeavesOthers(s: State, path: Path, buf: seq<Byte>, uid: nat, other: Path, size: nat)
    requires Sane(s) && |buf| < 0x8000_0000
    ensures Shape(s.v)
    ensures var i := FindByPath(s.v, s.cur, other);
      i.Some? && i.value in View(s.v) && View(s.v)[i.value].File? && FindByPath(s.v, s.cur, path) != i ==>
        ReadFileByPath(WriteFileByPath(s.v, s.cur, path, buf, uid).v, s.cur, other, size)
        == ReadFileByPath(s.v, s.cur, other, size)
  {
    hide TreeOk, StoreOk, View, FindByPath, WriteFileByPath, ReadFile, NamesKept;
    var owner, home :| SaneWith(s, owner, home);
    var o, h := WriteByPathView(s, owner, home, path, buf, uid);
    var w := WriteFileByPath(s.v, s.cur, path, buf, uid).v;
    var i := FindByPath(s.v, s.cur, other);
    if i.Some? && i.value in View(s.v) && View(s.v)[i.value].File? && FindByPath(s.v, s.cur, path) != i {
      FindKept(s.v, owner, home, w, o, s.cur, other);
      KeptMembers(View(s.v), View(w));
      ReadSeesView(s.v, owner, i.value, size);
      ReadSeesView(w, o, i.value, size);
    }
  }

  // ---- operations that are refused ----

  /** Whatever was in `t` is in `t'`, unaltered. */
  predicate Includes(t: Tree, t': Tree) {
    forall j :: j in t ==> j in t' && t'[j] == t[j]
  }

  lemma {:induction false} ResolveSame(v: Volume, o1: Owners, home: Homes, w: Volume, o2: Owners, i: nat, path: Path)
    requires StoreOk(v, o1) && StoreOk(w, o2) && TreeOk(View(v), home) && Includes(View(v), View(w)) && i in View(v)
    ensures Resolve(w, i, path) == Resolve(v, i, path)
    decreases |path|
  {
    hide TreeOk, StoreOk, View, FindInDir;
    StoreOkFacts(v, o1, i);
    StoreOkFacts(w, o2, i);
    match NextComponent(path)
    case Done =>
    case TooLong =>
    case Component(name, rest) =>
      if name == DOT {
        ResolveSame(v, o1, home, w, o2, i, rest);
      } else {
        FindSeesView(v, o1, i, name);
        FindSeesView(w, o2, i, name);
        if FindInDir(v, i, name).Some? {
          EntryInTree(View(v), home, i, name);
          ResolveSame(v, o1, home, w, o2, FindInDir(v, i, name).value, rest);
        }
      }
  }

  /** An inode that is bound nowhere changes no lookup. */
  lemma FindSame(v: Volume, o1: Owners, home: Homes, w: Volume, o2: Owners, cur: nat, path: Path)
    requires StoreOk(v, o1) && StoreOk(w, o2) && TreeOk(View(v), home) && Includes(View(v), View(w)) && cur in View(v)
    ensures FindByPath(w, cur, path) == FindByPath(v, cur, path)
  {
    hide TreeOk, StoreOk, View, Resolve, Includes;
    StoreOkFacts(v, o1, cur);
    StoreOkFacts(w, o2, cur);
    GoodRoot(View(v), home);
    if path != [] {
      var p := if FromRoot(path) && path[0] == TILDE then path[1..] else path;
      ResolveSame(v, o1, home, w, o2, if FromRoot(path) then ROOT else cur, p);
    }
  }

  lemma CreateOutcome(s: State, owner: Owners, home: Homes, path: Path, uid: nat) returns (o2: Owners, h2: Homes)
    requires SaneWith(s, owner, home) && Shape(s.v) && FindByPath(s.v, s.cur, path).None?
    ensures var c := CreateFileByPath(s.v, s.cur, path, uid);
      && SaneWith(State(c.v, s.cur), o2, h2)
      && (c.inode.None? ==> Includes(View(s.v), View(c.v)))
      && (c.inode.Some? ==> c.inode.value in View(c.v) && View(c.v)[c.inode.value] == File([]))
  {
    hide TreeOk, StoreOk, View, FindInDir, FindByPath, CreateFile;
    o2, h2 := CreateByPathKeepsSane(s, owner, home, path, uid);
    TildeFound(s.v, owner, home, s.cur);
    if SplitParent(path).Some? {
      var parts := SplitParent(path).value;
      FindInTree(s.v, owner, home, s.cur, parts.parent);
      var d := ParentOf(s.v, s.cur, parts.parent);
      if d.Some? {
        var o, left := CreateFileStep(s.v, owner, d.value, parts.name, uid);
      }
    }
  }

  lemma WriteOutcome(v: Volume, owner: Owners, i: nat, buf: seq<Byte>, size: nat) returns (o2: Owners)
    requires StoreOk(v, owner) && i in View(v) && |buf| < 0x8000_0000
    ensures var r := WriteFile(v, i, buf);
      StoreOk(r.v, o2) && (!r.ok ==> View(r.v) == View(v) && ReadFile(r.v, i, size) == ReadFile(v, i, size))
  {
    hide StoreOk, View, ReadFile;
    StoreOkFacts(v, owner, i);
    ViewFacts(v, i);
    o2 := WriteStep(v, owner, i, buf);
    var r := WriteFile(v, i, buf);
    if !r.ok && InodeOf(v, i).IsFile() {
      ReadSeesView(v, owner, i, size);
      ReadSeesView(r.v, o2, i, size);
    }
  }

  /** A refused write by path leaves what the path names as it was; if it named nothing, it still names
      nothing or an empty file. */
  lemma RefusedWriteKeeps(s: State, path: Path, buf: seq<Byte>, uid: nat, size: nat)
    requires Sane(s) && |buf| < 0x8000_0000
    ensures Shape(s.v)
    ensures var r := WriteFileByPath(s.v, s.cur, path, buf, uid);
      !r.ok ==>
        || (FindByPath(r.v, s.cur, path) == FindByPath(s.v, s.cur, path)
            && ReadFileByPath(r.v, s.cur, path, size) == ReadFileByPath(s.v, s.cur, path, size))
        || (FindByPath(s.v, s.cur, path) == None && ReadFileByPath(r.v, s.cur, path, size) == Some([]))
  {
    hide TreeOk, StoreOk, View, FindByPath, CreateFileByPath, WriteFile, ReadFile;
    var owner, home :| SaneWith(s, owner, home);
    StoreOkFacts(s.v, owner, s.cur);
    FindInTree(s.v, owner, home, s.cur, path);
    var r := WriteFileByPath(s.v, s.cur, path, buf, uid);
    match FindByPath(s.v, s.cur, path)
    case Some(i) =>
      var o2 := WriteOutcome(s.v, owner, i, buf, size);
      if !r.ok {
        FindSame(s.v, owner, home, r.v, o2, s.cur, path);
      }
    case None =>
      var o1, h1 := CreateOutcome(s, owner, home, path, uid);
      var c := CreateFileByPath(s.v, s.cur, path, uid);
      if c.inode.None? {
        FindSame(s.v, owner, home, c.v, o1, s.cur, path);
      } else if !r.ok {
        var o2 := WriteOutcome(c.v, o1, c.inode.value, buf, size);
        TildeFound(s.v, owner, home, s.cur);
        CreatedPathResolves(s, path, uid);
        FindSame(c.v, o1, h1, r.v, o2, s.cur, path);
        ReadSeesView(c.v, o1, c.inode.value, size);
      }
  }

  // ---- deleting by path ----

  lemma {:induction false} FileLeadsNowhere(v: Volume, owner: Owners, i: nat, path: Path)
    requires StoreOk(v, owner) && i in View(v) && View(v)[i].File?
    ensures Resolve(v, i, path).Some? ==> Resolve(v, i, path) == Some(i)
    decreases |path|
  {
    hide StoreOk, View, FindInDir;
    StoreOkFacts(v, owner, i);
    match NextComponent(path)
    case Done =>
    case TooLong =>
    case Component(name, rest) =>
      FindSeesView(v, owner, i, name);
      if name == DOT {
        FileLeadsNowhere(v, owner, i, rest);
      }
  }

  /** `t'` is `t` after file `i`, bound as `name` in `parent`, was deleted. */
  predicate DeletedView(t: Tree, t': Tree, parent: nat, name: Name, i: nat) {
    && Deletable(t, parent, name) && t[parent].entries[name] == i
    && t' == t[parent := Dir(t[parent].entries - {name}, t[parent].links)] - {i}
  }

  lemma {:induction false} ResolveAfterDelete(v: Volume, o1: Owners, home: Homes, w: Volume, o2: Owners, a: nat,
                                              path: Path, parent: nat, name: Name, i: nat)
    requires StoreOk(v, o1) && StoreOk(w, o2) && TreeOk(View(v), home) && a in View(v) && a != i
    requires DeletedView(View(v), View(w), parent, name, i)
    ensures Resolve(v, a, path).Some? && Resolve(v, a, path) != Some(i) ==> Resolve(w, a, path) == Resolve(v, a, path)
    decreases |path|
  {
    hide TreeOk, StoreOk, View, FindInDir;
    StoreOkFacts(v, o1, a);
    StoreOkFacts(w, o2, a);
    match NextComponent(path)
    case Done =>
    case TooLong =>
    case Component(n, rest) =>
      if n == DOT {
        ResolveAfterDelete(v, o1, home, w, o2, a, rest, parent, name, i);
      } else {
        FindSeesView(v, o1, a, n);
        FindSeesView(w, o2, a, n);
        if FindInDir(v, a, n).Some? {
          EntryInTree(View(v), home, a, n);
          var c := FindInDir(v, a, n).value;
          if c == i {
            FileLeadsNowhere(v, o1, i, rest);
          } else {
            ResolveAfterDelete(v, o1, home, w, o2, c, rest, parent, name, i);
          }
        }
      }
  }

  lemma FindAfterDelete(v: Volume, o1: Owners, home: Homes, w: Volume, o2: Owners, cur: nat, path: Path,
                        parent: nat, name: Name, i: nat)
    requires StoreOk(v, o1) && StoreOk(w, o2) && TreeOk(View(v), home) && IsDirIn(View(v), cur)
    requires DeletedView(View(v), View(w), parent, name, i)
    ensures FindByPath(v, cur, path).Some? && FindByPath(v, cur, path) != Some(i) ==>
      FindByPath(w, cur, path) == FindByPath(v, cur, path)
  {
    hide TreeOk, StoreOk, View, Resolve;
    StoreOkFacts(v, o1, cur);
    StoreOkFacts(w, o2, cur);
    GoodRoot(View(v), home);
    if path != [] {
      var p := if FromRoot(path) && path[0] == TILDE then path[1..] else path;
      ResolveAfterDelete(v, o1, home, w, o2, if FromRoot(path) then ROOT else cur, p, parent, name, i);
    }
  }

  /** The parent of the last name is a directory, so deleting a file does not change how it is found. */
  lemma ParentAfterDelete(v: Volume, o1: Owners, home: Homes, w: Volume, o2: Owners, cur: nat, path: Path,
                          parent: nat, name: Name, i: nat)
    requires StoreOk(v, o1) && StoreOk(w, o2) && TreeOk(View(v), home) && IsDirIn(View(v), cur)
    requires DeletedView(View(v), View(w), parent, name, i) && ParentOf(v, cur, path) == Some(parent)
    ensures ParentOf(w, cur, path) == Some(parent)
  {
    hide TreeOk, StoreOk, View, Resolve, FindByPath;
    StoreOkFacts(v, o1, cur);
    StoreOkFacts(w, o2, cur);
    FindAfterDelete(v, o1, home, w, o2, cur, path, parent, name, i);
  }

  /** A deleted path no longer resolves; a delete that fails changes nothing; and either way every other
      file reads as before, under every path that led to it. */
  lemma DeleteForgets(s: State, path: Path, other: Path, size: nat)
    requires Sane(s)
    ensures Shape(s.v)
    ensures var r := DeleteFileByPath(s.v, s.cur, path);
      if r.ok then FindByPath(r.v, s.cur, path) == None <==> path != [TILDE] else r.v == s.v
    ensures var i := FindInParent(s.v, s.cur, path);
            var j := FindByPath(s.v, s.cur, other);
      j.Some? && j.value in View(s.v) && View(s.v)[j.value].File? && j != i ==>
        ReadFileByPath(DeleteFileByPath(s.v, s.cur, path).v, s.cur, other, size)
        == ReadFileByPath(s.v, s.cur, other, size)
    ensures path != [TILDE] && DeleteFileByPath(s.v, s.cur, path).ok ==>
      FindInParent(s.v, s.cur, path) == FindByPath(s.v, s.cur, path)
  {
    hide TreeOk, StoreOk, View, FindByPath, DeleteFile, ReadFileByPath, SplitParent, ParentOf, FindInDir, Deletable,
      DeletedView;
    var owner, home :| SaneWith(s, owner, home);
    StoreOkFacts(s.v, owner, s.cur);
    if SplitParent(path).Some? {
      var parts := SplitParent(path).value;
      FindInTree(s.v, owner, home, s.cur, parts.parent);
      var d := ParentOf(s.v, s.cur, parts.parent);
      if d.Some? {
        if DeleteFile(s.v, d.value, parts.name).ok {
          var w, o2, i := DeleteFrom(s, owner, home, d.value, parts.name);
          if path != [TILDE] {
            NameGone(s, owner, home, path, d.value, w, o2, i);
          } else {
            TildeStays(s, owner, home, w, o2, d.value, parts.name, i);
          }
          OthersAfterDelete(s, owner, home, w, o2, other, size, d.value, parts.name, i);
        } else {
          DeleteRefused(s, owner, home, d.value, parts.name);
        }
      }
    }
  }

  /** The inode that deleting `path` is about: its last name looked up in its parent. */
  function FindInParent(v: Volume, cur: nat, path: Path): Option<nat>
    requires Shape(v)
  {
    match SplitParent(path)
    case None => None
    case Some(parts) =>
      match ParentOf(v, cur, parts.parent)
      case None => None
      case Some(d) => FindInDir(v, d, parts.name)
  }

  lemma TildeStays(s: State, owner: Owners, home: Homes, w: Volume, o2: Owners, d: nat, name: Name, i: nat)
    requires SaneWith(s, owner, home) && Shape(s.v) && StoreOk(w, o2) && DeletedView(View(s.v), View(w), d, name, i)
    ensures Shape(w) && FindByPath(w, s.cur, [TILDE]) == Some(ROOT)
  {
    hide TreeOk, StoreOk, View, FindByPath;
    StoreOkFacts(w, o2, d);
    TildeIsRoot(s, owner, home);
    GoodRoot(View(s.v), home);
    FindAfterDelete(s.v, owner, home, w, o2, s.cur, [TILDE], d, name, i);
  }

  lemma DeleteRefused(s: State, owner: Owners, home: Homes, d: nat, name: Name)
    requires SaneWith(s, owner, home) && d in View(s.v) && Shape(s.v) && !DeleteFile(s.v, d, name).ok
    ensures DeleteFile(s.v, d, name).v == s.v
  {
    hide TreeOk, StoreOk, View, DeleteFile;
    var t := View(s.v);
    if t[d].Dir? {
      forall n | n in t[d].entries
        ensures t[d].entries[n] in t
      {
        EntryInTree(t, home, d, n);
      }
    }
    var o2 := DeleteFileStep(s.v, owner, d, name);
  }

  lemma DeleteFrom(s: State, owner: Owners, home: Homes, d: nat, name: Name) returns (w: Volume, o2: Owners, i: nat)
    requires SaneWith(s, owner, home) && d in View(s.v)
    requires Shape(s.v) && DeleteFile(s.v, d, name).ok
    ensures w == DeleteFile(s.v, d, name).v && StoreOk(w, o2) && DeletedView(View(s.v), View(w), d, name, i)
    ensures FindInDir(s.v, d, name) == Some(i)
  {
    hide TreeOk, StoreOk, View, DeleteFile, FindInDir;
    FindSeesView(s.v, owner, d, name);
    var t := View(s.v);
    if t[d].Dir? {
      forall n | n in t[d].entries
        ensures t[d].entries[n] in t
      {
        EntryInTree(t, home, d, n);
      }
    }
    o2 := DeleteFileStep(s.v, owner, d, name);
    w := DeleteFile(s.v, d, name).v;
    i := t[d].entries[name];
  }

  lemma NameGone(s: State, owner: Owners, home: Homes, path: Path, d: nat, w: Volume, o2: Owners, i: nat)
    requires SaneWith(s, owner, home) && Shape(s.v) && SplitParent(path).Some? && path != [TILDE]
    requires ParentOf(s.v, s.cur, SplitParent(path).value.parent) == Some(d) && StoreOk(w, o2)
    requires DeletedView(View(s.v), View(w), d, SplitParent(path).value.name, i)
    ensures FindByPath(w, s.cur, path) == None && FindByPath(s.v, s.cur, path) == Some(i)
  {
    hide TreeOk, StoreOk, View, FindByPath, SplitParent, ParentOf, FindInDir;
    var name := SplitParent(path).value.name;
    ParentAfterDelete(s.v, owner, home, w, o2, s.cur, SplitParent(path).value.parent, d, name, i);
    StoreOkFacts(w, o2, d);
    ResolvesThroughParent(s.v, s.cur, path);
    ResolvesThroughParent(w, s.cur, path);
    FindSeesView(s.v, owner, d, name);
    FindSeesView(w, o2, d, name);
    GoodDir(View(s.v), home, d);
  }

  lemma OthersAfterDelete(s: State, owner: Owners, home: Homes, w: Volume, o2: Owners, other: Path, size: nat,
                          d: nat, name: Name, i: nat)
    requires SaneWith(s, owner, home) && Shape(s.v) && StoreOk(w, o2) && DeletedView(View(s.v), View(w), d, name, i)
    ensures Shape(w)
    ensures var j := FindByPath(s.v, s.cur, other);
      j.Some? && j.value in View(s.v) && View(s.v)[j.value].File? && j != Some(i) ==>
        ReadFileByPath(w, s.cur, other, size) == ReadFileByPath(s.v, s.cur, other, size)
  {
    hide TreeOk, StoreOk, View, FindByPath, ReadFile;
    StoreOkFacts(w, o2, d);
    var j := FindByPath(s.v, s.cur, other);
    if j.Some? && j.value in View(s.v) && View(s.v)[j.value].File? && j != Some(i) {
      FindAfterDelete(s.v, owner, home, w, o2, s.cur, other, d, name, i);
      ReadSeesView(s.v, owner, j.value, size);
      ReadSeesView(w, o2, j.value, size);
    }
  }
}
