/** Path lookup, told without the code: a path is the names between its slashes, and looking it up is following
    those names through the tree, from the root or from the current directory. */
module Lookup {
  import opened Bytes
  import opened Volumes
  import opened Ownership
  import opened Files
  import opened DirBlock
  import opened Directories
  import opened FileSystem
  import opened Paths
  import opened Trees
  import opened Runs
  import opened Guarantees
  import opened Entries

  // ---- spelled paths ----

  /** A name a path can spell: 1 to 255 bytes, no slash, no NUL, not ".". */
  predicate Spellable(name: Name) {
    0 < |name| <= 255 && '/' as int !in name && 0 !in name && name != ['.' as int]
  }

  predicate AllSpellable(names: seq<Name>) {
    forall k :: 0 <= k < |names| ==> Spellable(names[k])
  }

  /** "/" before each name. */
  function Slashed(names: seq<Name>): Path {
    if names == [] then [] else ['/' as int] + names[0] + Slashed(names[1..])
  }

  /** The absolute path of these names; "/" if there are none. */
  function Absolute(names: seq<Name>): (p: Path)
    ensures p != []
  {
    if names == [] then ['/' as int] else Slashed(names)
  }

  /** The path that begins with "~". */
  function FromTilde(names: seq<Name>): (p: Path)
    ensures p != [] && p[0] == '~' as int && p[1..] == Slashed(names)
  {
    ['~' as int] + Slashed(names)
  }

  /** The path without the first slash. */
  function Relative(names: seq<Name>): Path
  {
    if names == [] then [] else names[0] + Slashed(names[1..])
  }

  /** The names of a path: what stands between its slashes, "." left out. */
  function Pieces(path: Path): seq<Name>
    decreases |path|
  {
    if path == [] then []
    else if path[0] == '/' as int then Pieces(path[1..])
    else
      var n := NameLength(path);
      (if path[..n] == ['.' as int] then [] else [path[..n]]) + Pieces(path[n..])
  }

  lemma {:induction false} NameEnds(name: Name, tail: Path)
    requires 47 !in name && (tail == [] || tail[0] == 47)
    ensures NameLength(name + tail) == |name|
    decreases |name|
  {
    if name == [] {
      assert name + tail == tail;
    } else {
      assert (name + tail)[1..] == name[1..] + tail;
      NameEnds(name[1..], tail);
    }
  }

  lemma {:induction false} PiecesOfSlashed(names: seq<Name>)
    requires AllSpellable(names)
    ensures Pieces(Slashed(names)) == names
    ensures names != [] ==> Slashed(names)[0] == 47 && Pieces(Slashed(names)[1..]) == names
    decreases |names|
  {
    if names != [] {
      var tail := Slashed(names[1..]);
      PiecesOfSlashed(names[1..]);
      var path := Slashed(names);
      assert path[1..] == names[0] + tail;
      NameEnds(names[0], tail);
      var rest := names[0] + tail;
      assert rest[..|names[0]|] == names[0] && rest[|names[0]|..] == tail;
      assert rest[0] == names[0][0] != 47;
      assert [names[0]] + names[1..] == names;
    }
  }

  // ---- any path ----

  /** The entries of a directory in the view are found by their names, and nothing else is. */
  lemma FindIsEntry(v: Volume, owner: Owners, i: nat, name: Name)
    requires StoreOk(v, owner) && i in View(v) && name != []
    ensures Shape(v)
    ensures FindInDir(v, i, name)
         == if IsDirIn(View(v), i) && name in View(v)[i].entries then Some(View(v)[i].entries[name]) else None
  {
    hide StoreOk, View, FindInDir;
    StoreOkFacts(v, owner, i);
    FindSeesView(v, owner, i, name);
    if IsDirIn(View(v), i) && name in View(v)[i].entries {
      NameShort(v, i, name);
    }
  }

  lemma NameShort(v: Volume, i: nat, name: Name)
    requires Shape(v) && i in View(v) && View(v)[i].Dir? && name in View(v)[i].entries
    ensures |name| <= EXT2_MAX_NAME_LEN
  {
    ViewFacts(v, i);
    NamesShort(DirBlocks(v, InodeOf(v, i)), name);
  }

  lemma {:induction false} NamesShort(blocks: seq<Block>, name: Name)
    requires name in NamesOf(blocks)
    ensures |name| <= EXT2_MAX_NAME_LEN
    decreases |blocks|
  {
    if blocks != [] {
      NamesNotZero(blocks[0]);
      if name in NamesOf(blocks[1..]) {
        NamesShort(blocks[1..], name);
      }
    }
  }

  /** The component loop follows the names of the path. */
  lemma {:induction false} ResolveWalks(v: Volume, owner: Owners, home: Homes, i: nat, path: Path)
    requires StoreOk(v, owner) && TreeOk(View(v), home) && i in View(v)
    ensures Shape(v) && Resolve(v, i, path) == Walk(View(v), i, Pieces(path))
    decreases |path|
  {
    hide StoreOk, TreeOk, View, FindInDir;
    StoreOkFacts(v, owner, i);
    if path != [] && path[0] == 47 {
      ResolveSkips(v, i, path);
      ResolveWalks(v, owner, home, i, path[1..]);
    } else if path != [] {
      var n := NameLength(path);
      var name := path[..n];
      if name == [46] {
        ResolveWalks(v, owner, home, i, path[n..]);
        assert [] + Pieces(path[n..]) == Pieces(path[n..]);
      } else {
        FindIsEntry(v, owner, i, name);
        var names := [name] + Pieces(path[n..]);
        assert names[1..] == Pieces(path[n..]) && Pieces(path) == names;
        if IsDirIn(View(v), i) && name in View(v)[i].entries {
          NameShort(v, i, name);
          EntryInTree(View(v), home, i, name);
          ResolveWalks(v, owner, home, View(v)[i].entries[name], path[n..]);
        }
      }
    }
  }

  /** Looking up any path: its names are followed from the root if it begins with a slash, or is "~" or begins with
      "~/", which then is no name; and from the current directory otherwise. The empty path leads nowhere. */
  lemma LookupWalks(s: State, path: Path)
    requires Sane(s)
    ensures Shape(s.v)
    ensures FindByPath(s.v, s.cur, path)
         == if path == [] then None
            else if path[0] == '/' as int then Walk(View(s.v), 2, Pieces(path))
            else if path[0] == '~' as int && (|path| == 1 || path[1] == '/' as int) then
              Walk(View(s.v), 2, Pieces(path[1..]))
            else Walk(View(s.v), s.cur, Pieces(path))
  {
    hide Sane, View, Resolve, Walk, Pieces;
    SaneShape(s);
    FromBothEnds(s, path);
    if path != [] {
      FromBothEnds(s, path[1..]);
    }
  }

  lemma FromBothEnds(s: State, path: Path)
    requires Sane(s)
    ensures Shape(s.v)
    ensures Resolve(s.v, 2, path) == Walk(View(s.v), 2, Pieces(path))
    ensures Resolve(s.v, s.cur, path) == Walk(View(s.v), s.cur, Pieces(path))
  {
    hide StoreOk, TreeOk, View, Resolve, Walk, Pieces;
    SaneShape(s);
    var owner, home :| SaneWith(s, owner, home);
    GoodRoot(View(s.v), home);
    ResolveWalks(s.v, owner, home, ROOT, path);
    ResolveWalks(s.v, owner, home, s.cur, path);
  }

  /** The same for spelled paths: "/n1/../nk" leads from the root. */
  lemma AbsoluteLookup(s: State, names: seq<Name>)
    requires Sane(s) && AllSpellable(names)
    ensures Shape(s.v) && FindByPath(s.v, s.cur, Absolute(names)) == Walk(View(s.v), 2, names)
  {
    hide View, Walk, Sane, FindByPath, AllSpellable;
    LookupWalks(s, Absolute(names));
    PiecesOfSlashed(names);
    assert Pieces(['/' as int]) == Pieces([]) == [];
  }

  /** So does "~/n1/../nk". */
  lemma TildeLookup(s: State, names: seq<Name>)
    requires Sane(s) && AllSpellable(names)
    ensures Shape(s.v) && FindByPath(s.v, s.cur, FromTilde(names)) == Walk(View(s.v), 2, names)
  {
    hide View, Walk, Sane, FindByPath, AllSpellable, Pieces, FromTilde;
    LookupWalks(s, FromTilde(names));
    PiecesOfSlashed(names);
    SecondByte(names);
  }

  lemma SecondByte(names: seq<Name>)
    ensures |FromTilde(names)| == 1 || FromTilde(names)[1] == '/' as int
  {
  }

  /** And "n1/../nk" leads from the current directory, unless the first name is "~". */
  lemma RelativeLookup(s: State, names: seq<Name>)
    requires Sane(s) && AllSpellable(names) && names != [] && names[0] != ['~' as int]
    ensures Shape(s.v) && FindByPath(s.v, s.cur, Relative(names)) == Walk(View(s.v), s.cur, names)
  {
    hide View, Walk, Sane, FindByPath, AllSpellable, Pieces, Relative;
    LookupWalks(s, Relative(names));
    PiecesOfSlashed(names);
    StartOfRelative(names);
  }

  /** A relative path does not begin with a slash, and with "~" or "~/" only if its first name is "~". */
  lemma StartOfRelative(names: seq<Name>)
    requires AllSpellable(names) && names != []
    ensures var relative := Relative(names);
      && relative != [] && relative[0] != '/' as int && relative == Slashed(names)[1..]
      && (relative[0] == '~' as int && (|relative| == 1 || relative[1] == '/' as int) ==> names[0] == ['~' as int])
  {
    var relative := Relative(names);
    assert Spellable(names[0]) && relative[0] == names[0][0];
    if |names[0]| > 1 {
      assert relative[1] == names[0][1];
    }
  }

  // ---- every file has an absolute path ----

  /** Every entry but "." and ".." has a name a path can spell. */
  ghost predicate NamesSpelled(t: Tree) {
    forall d, n :: Binds(t, d, n) ==> Spellable(n)
  }

  /** From `t` to `t'` no name was added but `name`. */
  ghost predicate NamesStep(t: Tree, t': Tree, name: Name) {
    forall d, n :: Binds(t', d, n) ==> (n == name && 0 < |n| <= 255) || Binds(t, d, n)
  }

  lemma CreatedNames(t: Tree, t': Tree, cur: nat, name: Name, node: Node, links: nat, inode: Option<nat>)
    requires CreatedView(t, t', cur, name, node, links, inode)
    requires node.Dir? ==> forall n :: n in node.entries ==> Dotted(n)
    ensures NamesStep(t, t', name)
  {
  }

  lemma LooseNames(t: Tree, t': Tree, i: nat, node: Node, name: Name)
    requires i !in t && t' == t[i := node] && (node.Dir? ==> forall n :: n in node.entries ==> Dotted(n))
    ensures NamesStep(t, t', name)
  {
  }

  lemma CreateFileNames(v: Volume, owner: Owners, cur: nat, name: Name, uid: nat)
    requires StoreOk(v, owner) && cur in View(v)
    ensures Shape(v) && NamesStep(View(v), View(CreateFile(v, cur, name, uid).v), name)
  {
    hide StoreOk, View, CreateFile, CreatedView, NamesStep, FileLeftLoose, Ledger, Extended;
    StoreOkFacts(v, owner, cur);
    var o, left := CreateFileStep(v, owner, cur, name, uid);
    var r := CreateFile(v, cur, name, uid);
    if left.Some? {
      LooseNames(View(v), View(r.v), left.value, File([]), name);
    } else {
      CreatedNames(View(v), View(r.v), cur, name, File([]), 0, r.inode);
    }
  }

  lemma CreateDirectoryNames(v: Volume, owner: Owners, cur: nat, name: Name, uid: nat)
    requires StoreOk(v, owner) && cur in View(v)
    ensures Shape(v) && NamesStep(View(v), View(CreateDirectory(v, cur, name, uid).v), name)
  {
    hide StoreOk, View, CreateDirectory, CreatedView, NamesStep, DirLeftLoose, Ledger, Extended;
    StoreOkFacts(v, owner, cur);
    var o, left := CreateDirectoryStep(v, owner, cur, name, uid);
    var r := CreateDirectory(v, cur, name, uid);
    if left.Some? {
      LooseNames(View(v), View(r.v), left.value, NewDirNode(left.value, cur), name);
    } else {
      CreatedNames(View(v), View(r.v), cur, name, NewDirNode(r.inode.GetOr(0), cur), 1, r.inode);
    }
  }

  lemma WriteNames(v: Volume, owner: Owners, i: nat, buf: seq<Byte>, name: Name)
    requires StoreOk(v, owner) && i in View(v) && |buf| < 0x8000_0000
    ensures Shape(v) && NamesStep(View(v), View(WriteFile(v, i, buf).v), name)
  {
    hide StoreOk, View, WriteFile;
    StoreOkFacts(v, owner, i);
    ViewFacts(v, i);
    var o := WriteStep(v, owner, i, buf);
  }

  lemma DeleteNames(v: Volume, owner: Owners, home: Homes, dir: nat, gone: Name, name: Name)
    requires StoreOk(v, owner) && TreeOk(View(v), home) && dir in View(v)
    ensures Shape(v) && NamesStep(View(v), View(DeleteFile(v, dir, gone).v), name)
  {
    hide StoreOk, TreeOk, View, DeleteFile;
    StoreOkFacts(v, owner, dir);
    var t := View(v);
    if t[dir].Dir? {
      forall n | n in t[dir].entries
        ensures t[dir].entries[n] in t
      {
        EntryInTree(t, home, dir, n);
      }
    }
    var o := DeleteFileStep(v, owner, dir, gone);
  }

  /** The last name of a path, which an operation may add. */
  function LastName(path: Path): Name {
    match SplitParent(path)
    case None => []
    case Some(parts) => parts.name
  }

  lemma CreateByPathNames(s: State, owner: Owners, home: Homes, path: Path, uid: nat)
    requires SaneWith(s, owner, home)
    ensures Shape(s.v) && NamesStep(View(s.v), View(CreateFileByPath(s.v, s.cur, path, uid).v), LastName(path))
  {
    hide StoreOk, TreeOk, View, SplitParent, CreateFile, ParentOf;
    StoreOkFacts(s.v, owner, s.cur);
    if SplitParent(path).Some? {
      var parts := SplitParent(path).value;
      FindInTree(s.v, owner, home, s.cur, parts.parent);
      var d := ParentOf(s.v, s.cur, parts.parent);
      if d.Some? {
        CreateFileNames(s.v, owner, d.value, parts.name, uid);
      }
    }
  }

  lemma WriteByPathNames(s: State, owner: Owners, home: Homes, path: Path, buf: seq<Byte>, uid: nat)
    requires SaneWith(s, owner, home) && |buf| < 0x8000_0000
    ensures Shape(s.v) && NamesStep(View(s.v), View(WriteFileByPath(s.v, s.cur, path, buf, uid).v), LastName(path))
  {
    hide StoreOk, TreeOk, View, FindByPath, CreateFileByPath, WriteFile, EntriesStep, CreateLeavesLoose, LastName;
    StoreOkFacts(s.v, owner, s.cur);
    FindInTree(s.v, owner, home, s.cur, path);
    match FindByPath(s.v, s.cur, path)
    case Some(i) =>
      WriteNames(s.v, owner, i, buf, LastName(path));
    case None =>
      var o, h := CreateByPathKeepsSane(s, owner, home, path, uid);
      CreateByPathNames(s, owner, home, path, uid);
      var c := CreateFileByPath(s.v, s.cur, path, uid);
      if c.inode.Some? {
        WriteNames(c.v, o, c.inode.value, buf, LastName(path));
      }
  }

  lemma StepNames(s: State, owner: Owners, home: Homes, op: Request)
    requires SaneWith(s, owner, home)
    ensures Shape(s.v) && NamesStep(View(s.v), View(Step(s, op).v), LastName(op.path))
  {
    hide StoreOk, TreeOk, View, SplitParent, CreateDirectory, DeleteFile, ParentOf, NamesStep, CreateFileByPath,
      WriteFileByPath, ChangeDirectory;
    StoreOkFacts(s.v, owner, s.cur);
    var path := op.path;
    NamesSame(View(s.v), LastName(path));
    match op {
      case Create(_, uid) => CreateByPathNames(s, owner, home, path, uid);
      case Write(_, buf, uid) => WriteByPathNames(s, owner, home, path, buf, uid);
      case Cd(_) =>
      case MakeDirectory(_, uid) =>
        if SplitParent(path).Some? {
          var parts := SplitParent(path).value;
          FindInTree(s.v, owner, home, s.cur, parts.parent);
          var d := ParentOf(s.v, s.cur, parts.parent);
          if d.Some? {
            CreateDirectoryNames(s.v, owner, d.value, parts.name, uid);
          }
        }
      case Delete(_) =>
        if SplitParent(path).Some? {
          var parts := SplitParent(path).value;
          FindInTree(s.v, owner, home, s.cur, parts.parent);
          var d := ParentOf(s.v, s.cur, parts.parent);
          if d.Some? {
            DeleteNames(s.v, owner, home, d.value, parts.name, parts.name);
          }
        }
    }
  }

  lemma NamesSame(t: Tree, name: Name)
    ensures NamesStep(t, t, name)
  {
  }

  lemma LastNameSpelled(path: Path)
    requires 0 !in path && 0 < |LastName(path)| <= 255
    ensures 47 !in LastName(path) && 0 !in LastName(path)
  {
    var n := NameStart(path);
    assert LastName(path) == path[n..];
    forall k | n <= k < |path|
      ensures path[k] != 47 && path[k] != 0
    {
    }
  }

  lemma SpelledStays(t: Tree, t': Tree, name: Name)
    requires NamesSpelled(t) && NamesStep(t, t', name) && (0 < |name| <= 255 ==> 47 !in name && 0 !in name)
    ensures NamesSpelled(t')
  {
    forall d, n | Binds(t', d, n)
      ensures Spellable(n)
    {
      if !Binds(t, d, n) {
        assert n != [46];
      }
    }
  }

  lemma StepKeepsSpelled(s: State, op: Request)
    requires Sane(s) && 0 !in op.path
    ensures Shape(s.v) && (NamesSpelled(View(s.v)) ==> NamesSpelled(View(Step(s, op).v)))
  {
    hide SaneWith, View, NamesSpelled, NamesStep, Step, LastName;
    SaneShape(s);
    var owner, home :| SaneWith(s, owner, home);
    StepNames(s, owner, home, op);
    if 0 < |LastName(op.path)| <= 255 {
      LastNameSpelled(op.path);
    }
    if NamesSpelled(View(s.v)) {
      SpelledStays(View(s.v), View(Step(s, op).v), LastName(op.path));
    }
  }

  /** After any run of requests whose paths are C strings, every name is one that a path can spell, if it was so
      before. */
  lemma {:induction false} RunKeepsSpelled(s: State, ops: seq<Request>)
    requires Sane(s) && forall k :: 0 <= k < |ops| ==> 0 !in ops[k].path
    ensures Shape(s.v) && (NamesSpelled(View(s.v)) ==> NamesSpelled(View(Run(s, ops).v)))
    decreases |ops|
  {
    hide Sane, View, NamesSpelled, Step;
    SaneShape(s);
    if ops != [] {
      StepKeepsSpelled(s, ops[0]);
      StepKeepsSane(s, ops[0]);
      RunKeepsSpelled(Step(s, ops[0]), ops[1..]);
    }
  }

  lemma {:induction false} NamesOfWalk(t: Tree, d: nat, names: seq<Name>)
    requires NamesSpelled(t) && Walk(t, d, names).Some? && forall k :: 0 <= k < |names| ==> !Dotted(names[k])
    ensures AllSpellable(names)
    decreases |names|
  {
    hide Spellable;
    if names != [] {
      assert Binds(t, d, names[0]);
      NamesOfWalk(t, t[d].entries[names[0]], names[1..]);
      assert names == [names[0]] + names[1..];
    }
  }

  /** In a tidy state with such names every file and every directory has an absolute path that leads to it, whatever
      the current directory is. */
  lemma AbsolutePath(s: State, i: nat) returns (path: Path)
    requires Tidy(s)
    ensures Shape(s.v)
    ensures NamesSpelled(View(s.v)) && i in View(s.v) ==>
      && path != [] && path[0] == 47
      && forall cur :: IsDirIn(View(s.v), cur) ==> FindByPath(s.v, cur, path) == Some(i)
  {
    hide Tidy, Sane, View, NamesSpelled, Walk, FindByPath, IsDirIn, Spellable;
    TidyIsSane(s);
    var names := ReachedFromRoot(s, i);
    path := Absolute(names);
    if NamesSpelled(View(s.v)) && i in View(s.v) {
      NamesOfWalk(View(s.v), ROOT, names);
      forall cur | IsDirIn(View(s.v), cur)
        ensures FindByPath(s.v, cur, path) == Some(i)
      {
        SaneElsewhere(s, cur);
        AbsoluteLookup(s.(cur := cur), names);
      }
    }
  }

  lemma SaneElsewhere(s: State, cur: nat)
    requires Sane(s)
    ensures Shape(s.v) && (IsDirIn(View(s.v), cur) ==> Sane(s.(cur := cur)))
  {
    hide StoreOk, TreeOk, View;
    SaneShape(s);
    var owner, home :| SaneWith(s, owner, home);
    if IsDirIn(View(s.v), cur) {
      assert SaneWith(s.(cur := cur), owner, home);
    }
  }

  // ---- the current directory ----

  /** cmd_cd: the directory that the path leads to becomes the current one; if it leads to none, nothing happens. */
  lemma CdEnters(s: State, path: Path)
    requires Sane(s)
    ensures Shape(s.v)
    ensures var i := FindByPath(s.v, s.cur, path);
      Step(s, Cd(path)) == if i.Some? && IsDirIn(View(s.v), i.value) then s.(cur := i.value) else s
  {
    hide StoreOk, TreeOk, View, FindByPath;
    SaneShape(s);
    var owner, home :| SaneWith(s, owner, home);
    FindInTree(s.v, owner, home, s.cur, path);
    var i := FindByPath(s.v, s.cur, path);
    if i.Some? {
      ViewFacts(s.v, i.value);
    }
  }

  // ---- parent and name ----

  /** A path is split exactly if it has 1 to 255 bytes and does not end in a slash. */
  lemma SplitAccepts(path: Path)
    ensures SplitParent(path).Some? <==> 1 <= |path| <= 255 && path[|path| - 1] != '/' as int
  {
  }

  /** And then the name is what follows the last slash, and the parent what comes before it. */
  lemma SplitIs(path: Path)
    requires SplitParent(path).Some?
    ensures var p := SplitParent(path).value;
      && p.name != [] && '/' as int !in p.name
      && if |path| == |p.name| then p.parent == [] && path == p.name
         else if |path| == |p.name| + 1 then p.parent == ['/' as int] && path == p.parent + p.name
         else p.parent != [] && path == p.parent + ['/' as int] + p.name
  {
    var n := NameStart(path);
    assert path == path[..n] + path[n..];
    if n > 1 {
      assert path[..n] == path[..n - 1] + [path[n - 1]];
    }
  }
}
