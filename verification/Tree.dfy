/** Directory structure: what links names, directories and files together, stated on the view alone. */
module Trees {
  import opened Bytes
  import opened DirBlock
  import opened FileSystem

  /** The entry an inode was made for, and how many names that entry is away from the root. */
  datatype Place = Place(dir: nat, name: Name, depth: nat)

  type Homes = map<nat, Place>

  predicate Dotted(name: Name) {
    name == DOT || name == DOTDOT
  }

  predicate IsDirIn(t: Tree, i: nat) {
    i in t && t[i].Dir?
  }

  /** The directory above `d`; the root is above itself. */
  function Above(home: Homes, d: nat): nat {
    if d == ROOT || d !in home then ROOT else home[d].dir
  }

  function Depth(home: Homes, d: nat): nat {
    if d == ROOT || d !in home then 0 else home[d].depth
  }

  /** A directory other than the root is one name deeper than a directory above it, so going up ends. */
  predicate Rooted(t: Tree, home: Homes, d: nat) {
    d != ROOT ==> d in home && IsDirIn(t, home[d].dir) && home[d].depth == Depth(home, home[d].dir) + 1
  }

  /** "." names the directory itself and ".." the one above. */
  predicate DotsOk(t: Tree, home: Homes, d: nat)
    requires IsDirIn(t, d)
  {
    && DOT in t[d].entries && t[d].entries[DOT] == d
    && DOTDOT in t[d].entries && t[d].entries[DOTDOT] == Above(home, d)
  }

  /** Every other name leads to a live inode that was made for this entry. */
  predicate EntriesOk(t: Tree, home: Homes, d: nat)
    requires IsDirIn(t, d)
  {
    forall n :: n in t[d].entries && !Dotted(n) ==>
      var i := t[d].entries[n];
      i in t && i != ROOT && i in home && home[i].dir == d && home[i].name == n
  }

  /** Names of the subdirectories of `d`. */
  function Subdirs(t: Tree, d: nat): set<Name>
    requires IsDirIn(t, d)
  {
    set n | n in t[d].entries && !Dotted(n) && IsDirIn(t, t[d].entries[n])
  }

  /** links_count, a 16-bit field, is 2 plus the number of subdirectories. */
  predicate LinksOk(t: Tree, d: nat)
    requires IsDirIn(t, d)
  {
    t[d].links == (2 + |Subdirs(t, d)|) % 0x1_0000
  }

  predicate DirGood(t: Tree, home: Homes, d: nat) {
    IsDirIn(t, d) && Rooted(t, home, d) && DotsOk(t, home, d) && EntriesOk(t, home, d) && LinksOk(t, d)
  }

  ghost predicate TreeOk(t: Tree, home: Homes) {
    && IsDirIn(t, ROOT)
    && forall d :: IsDirIn(t, d) ==> DirGood(t, home, d)
  }

  /** The entry that inode `i` was made for is there and leads to it. */
  predicate BoundAtHome(t: Tree, home: Homes, i: nat) {
    && i in home && IsDirIn(t, home[i].dir) && !Dotted(home[i].name)
    && home[i].name in t[home[i].dir].entries && t[home[i].dir].entries[home[i].name] == i
  }

  /** Every live inode but the root is bound: with TreeOk, at exactly one place. */
  predicate NoneLoose(t: Tree, home: Homes) {
    forall i :: i in t && i != ROOT ==> BoundAtHome(t, home, i)
  }

  lemma GoodDir(t: Tree, home: Homes, d: nat)
    requires TreeOk(t, home) && IsDirIn(t, d)
    ensures DirGood(t, home, d) && IsDirIn(t, ROOT)
  {
    hide DirGood;
  }

  lemma GoodTree(t: Tree, home: Homes)
    requires IsDirIn(t, ROOT) && forall d :: IsDirIn(t, d) ==> DirGood(t, home, d)
    ensures TreeOk(t, home)
  {
    hide DirGood;
  }

  lemma GoodRoot(t: Tree, home: Homes)
    requires TreeOk(t, home)
    ensures IsDirIn(t, ROOT)
  {
    hide DirGood;
  }

  /** No inode is bound twice: no hard links, and no directory has two parents. */
  lemma BoundOnce(t: Tree, home: Homes, d: nat, n: Name, e: nat, m: Name)
    requires TreeOk(t, home) && IsDirIn(t, d) && IsDirIn(t, e)
    requires n in t[d].entries && m in t[e].entries && !Dotted(n) && !Dotted(m)
    requires t[d].entries[n] == t[e].entries[m]
    ensures d == e && n == m
  {
    hide TreeOk;
    GoodDir(t, home, d);
    GoodDir(t, home, e);
  }

  lemma EntryInTree(t: Tree, home: Homes, d: nat, n: Name)
    requires TreeOk(t, home) && IsDirIn(t, d) && n in t[d].entries
    ensures t[d].entries[n] in t
    ensures !Dotted(n) ==> t[d].entries[n] != ROOT
  {
    hide TreeOk;
    GoodDir(t, home, d);
  }

  // ---- from the root to every inode ----

  /** Following names downwards. */
  function Walk(t: Tree, d: nat, names: seq<Name>): Option<nat>
    decreases |names|
  {
    if names == [] then Some(d)
    else if !IsDirIn(t, d) || names[0] !in t[d].entries then None
    else Walk(t, t[d].entries[names[0]], names[1..])
  }

  lemma {:induction false} WalkOn(t: Tree, d: nat, names: seq<Name>, last: Name)
    ensures Walk(t, d, names + [last])
         == match Walk(t, d, names)
            case None => None
            case Some(e) => if IsDirIn(t, e) && last in t[e].entries then Some(t[e].entries[last]) else None
    decreases |names|
  {
    if names == [] {
      assert ([] + [last])[1..] == [];
    } else if IsDirIn(t, d) && names[0] in t[d].entries {
      assert (names + [last])[1..] == names[1..] + [last];
      WalkOn(t, t[d].entries[names[0]], names[1..], last);
    }
  }

  /** The names that lead from the root to `i`. */
  ghost function Route(t: Tree, home: Homes, i: nat): (names: seq<Name>)
    requires TreeOk(t, home) && NoneLoose(t, home) && i in t
    ensures forall k :: 0 <= k < |names| ==> !Dotted(names[k])
    decreases if IsDirIn(t, i) then Depth(home, i) else if i in home then Depth(home, home[i].dir) + 1 else 0
  {
    if i == ROOT then []
    else
      assert BoundAtHome(t, home, i);
      assert DirGood(t, home, home[i].dir);
      assert IsDirIn(t, i) ==> DirGood(t, home, i);
      Route(t, home, home[i].dir) + [home[i].name]
  }

  /** Every live file and directory is reached from the root by names other than "." and "..". */
  lemma {:induction false} Reached(t: Tree, home: Homes, i: nat)
    requires TreeOk(t, home) && NoneLoose(t, home) && i in t
    ensures Walk(t, ROOT, Route(t, home, i)) == Some(i)
    decreases if IsDirIn(t, i) then Depth(home, i) else if i in home then Depth(home, home[i].dir) + 1 else 0
  {
    hide LinksOk, EntriesOk, DotsOk;
    if i != ROOT {
      assert BoundAtHome(t, home, i);
      assert DirGood(t, home, home[i].dir);
      assert IsDirIn(t, i) ==> DirGood(t, home, i);
      Reached(t, home, home[i].dir);
      WalkOn(t, ROOT, Route(t, home, home[i].dir), home[i].name);
    }
  }

  // ---- steps ----

  /** Directories stay directories, at the depth they had. */
  ghost predicate DepthsKept(t: Tree, home: Homes, t': Tree, home': Homes) {
    forall e :: IsDirIn(t, e) ==>
      IsDirIn(t', e) && Depth(home', e) == Depth(home, e) && (e in home ==> e in home' && home'[e] == home[e])
  }

  /** A directory stays good when all it names stays what it was. */
  lemma DirKept(t: Tree, home: Homes, t': Tree, home': Homes, d: nat)
    requires DirGood(t, home, d) && IsDirIn(t, ROOT) && DepthsKept(t, home, t', home') && t'[d] == t[d]
    requires forall n :: n in t[d].entries ==>
      var j := t[d].entries[n];
      && (j in t ==> j in t' && t'[j].Dir? == t[j].Dir?) && (j !in t ==> !IsDirIn(t', j))
      && (!Dotted(n) && j in home ==> j in home' && home'[j] == home[j])
    ensures DirGood(t', home', d)
  {
    assert Subdirs(t', d) == Subdirs(t, d);
  }

  lemma NewDirGood(t: Tree, home: Homes, i: nat, cur: nat)
    requires IsDirIn(t, cur) && i in t && t[i] == NewDirNode(i, cur) && i != ROOT
    requires i in home && home[i].dir == cur && home[i].depth == Depth(home, cur) + 1
    ensures DirGood(t, home, i)
  {
    assert |DOT| != |DOTDOT|;
    assert Subdirs(t, i) == {};
  }

  function Homed(home: Homes, i: nat, cur: nat, name: Name): Homes {
    home[i := Place(cur, name, Depth(home, cur) + 1)]
  }

  /** An inode bound nowhere, as a failed creation leaves behind, does no harm. */
  lemma LooseInode(t: Tree, home: Homes, i: nat, node: Node, cur: nat, name: Name)
    requires TreeOk(t, home) && i !in t && IsDirIn(t, cur)
    requires node == File([]) || node == NewDirNode(i, cur)
    ensures TreeOk(t[i := node], Homed(home, i, cur, name))
  {
    hide DirGood, NewDirNode, TreeOk;
    GoodRoot(t, home);
    var t' := t[i := node];
    var home' := Homed(home, i, cur, name);
    forall d | IsDirIn(t', d)
      ensures DirGood(t', home', d)
    {
      if d != i {
        GoodDir(t, home, d);
        forall n | n in t[d].entries
          ensures t[d].entries[n] in t
        {
          EntryInTree(t, home, d, n);
        }
        DirKept(t, home, t', home', d);
      } else {
        NewDirGood(t', home', i, cur);
      }
    }
    GoodTree(t', home');
  }

  lemma BoundHere(t: Tree, home: Homes, cur: nat, name: Name, i: nat, links: nat, t': Tree)
    requires DirGood(t, home, cur) && name !in t[cur].entries && i in t && i != ROOT && i != cur
    requires i in home && home[i].dir == cur && home[i].name == name
    requires links == if t[i].Dir? then 1 else 0
    requires t' == t[cur := Dir(t[cur].entries[name := i], (t[cur].links + links) % 0x1_0000)]
    ensures DirGood(t', home, cur)
  {
    hide LinksOk;
    assert !Dotted(name);
    OneMoreSubdir(t, cur, name, i, t');
    LinkCount(t, home, cur, links, t', |Subdirs(t', cur)| - |Subdirs(t, cur)|);
  }

  lemma OneMoreSubdir(t: Tree, cur: nat, name: Name, i: nat, t': Tree)
    requires IsDirIn(t, cur) && IsDirIn(t', cur) && name !in t[cur].entries && i in t && !Dotted(name) && i != cur
    requires t' == t[cur := Dir(t[cur].entries[name := i], t'[cur].links)]
    ensures |Subdirs(t', cur)| == |Subdirs(t, cur)| + if t[i].Dir? then 1 else 0
  {
    assert Subdirs(t', cur) == if t[i].Dir? then Subdirs(t, cur) + {name} else Subdirs(t, cur);
  }

  lemma LinkCount(t: Tree, home: Homes, cur: nat, links: nat, t': Tree, more: int)
    requires IsDirIn(t, cur) && LinksOk(t, cur) && IsDirIn(t', cur) && more == links
    requires |Subdirs(t', cur)| == |Subdirs(t, cur)| + more
    requires t'[cur].links == (t[cur].links + links) % 0x1_0000
    ensures LinksOk(t', cur)
  {
  }

  /** Binding an inode that was bound nowhere, at the place it was made for. */
  lemma BindInode(t: Tree, home: Homes, cur: nat, name: Name, i: nat, links: nat)
    requires TreeOk(t, home) && IsDirIn(t, cur) && name !in t[cur].entries && i in t && i != ROOT && i != cur
    requires i in home && home[i].dir == cur && home[i].name == name
    requires links == if t[i].Dir? then 1 else 0
    ensures TreeOk(t[cur := Dir(t[cur].entries[name := i], (t[cur].links + links) % 0x1_0000)], home)
  {
    hide DirGood, TreeOk;
    GoodRoot(t, home);
    var t' := t[cur := Dir(t[cur].entries[name := i], (t[cur].links + links) % 0x1_0000)];
    forall d | IsDirIn(t', d)
      ensures DirGood(t', home, d)
    {
      GoodDir(t, home, d);
      if d != cur {
        DirKept(t, home, t', home, d);
      } else {
        BoundHere(t, home, cur, name, i, links, t');
      }
    }
    GoodTree(t', home);
  }

  /** A creation keeps the tree well formed. */
  lemma CreatedTree(t: Tree, home: Homes, t': Tree, cur: nat, name: Name, node: Node, links: nat, i: nat)
    requires TreeOk(t, home) && CreatedView(t, t', cur, name, node, links, Some(i))
    requires (node == File([]) && links == 0) || (node == NewDirNode(i, cur) && links == 1)
    ensures TreeOk(t', Homed(home, i, cur, name))
    ensures NoneLoose(t, home) ==> NoneLoose(t', Homed(home, i, cur, name))
  {
    hide TreeOk, NoneLoose;
    GoodRoot(t, home);
    LooseInode(t, home, i, node, cur, name);
    BindInode(t[i := node], Homed(home, i, cur, name), cur, name, i, links);
    GoodDir(t, home, cur);
    if NoneLoose(t, home) {
      CreatedBound(t, home, t', cur, name, node, links, i);
    }
  }

  lemma CreatedBound(t: Tree, home: Homes, t': Tree, cur: nat, name: Name, node: Node, links: nat, i: nat)
    requires NoneLoose(t, home) && CreatedView(t, t', cur, name, node, links, Some(i)) && !Dotted(name)
    ensures NoneLoose(t', Homed(home, i, cur, name))
  {
    forall j | j in t' && j != ROOT
      ensures BoundAtHome(t', Homed(home, i, cur, name), j)
    {
      assert j != i ==> BoundAtHome(t, home, j);
    }
  }

  /** Changing the contents of a file keeps the tree well formed. */
  lemma WrittenTree(t: Tree, home: Homes, i: nat, content: seq<Byte>)
    requires TreeOk(t, home) && i in t && t[i].File?
    ensures TreeOk(t[i := File(content)], home)
    ensures NoneLoose(t, home) ==> NoneLoose(t[i := File(content)], home)
  {
    hide DirGood, TreeOk;
    GoodRoot(t, home);
    var t' := t[i := File(content)];
    forall d | IsDirIn(t', d)
      ensures DirGood(t', home, d)
    {
      GoodDir(t, home, d);
      DirKept(t, home, t', home, d);
    }
    GoodTree(t', home);
  }

  lemma UnboundHere(t: Tree, home: Homes, parent: nat, name: Name, t': Tree)
    requires DirGood(t, home, parent) && Deletable(t, parent, name) && IsDirIn(t, ROOT)
    requires t' == t[parent := Dir(t[parent].entries - {name}, t[parent].links)] - {t[parent].entries[name]}
    ensures DirGood(t', home, parent)
  {
    var i := t[parent].entries[name];
    assert Subdirs(t', parent) == Subdirs(t, parent);
    assert !Dotted(name);
  }

  /** "." and ".." lead to directories, so they are not deleted. */
  lemma NotDotted(t: Tree, home: Homes, parent: nat, name: Name)
    requires TreeOk(t, home) && Deletable(t, parent, name)
    ensures !Dotted(name)
  {
    hide TreeOk;
    GoodDir(t, home, parent);
  }

  /** Deleting a file keeps the tree well formed: the name removed was the only one that led to it. */
  lemma DeletedTree(t: Tree, home: Homes, parent: nat, name: Name)
    requires TreeOk(t, home) && Deletable(t, parent, name)
    ensures var t' := t[parent := Dir(t[parent].entries - {name}, t[parent].links)] - {t[parent].entries[name]};
      TreeOk(t', home) && (NoneLoose(t, home) ==> NoneLoose(t', home))
  {
    hide TreeOk, DirGood, NoneLoose;
    GoodRoot(t, home);
    var i := t[parent].entries[name];
    var t' := t[parent := Dir(t[parent].entries - {name}, t[parent].links)] - {i};
    if NoneLoose(t, home) {
      DeletedBound(t, home, parent, name);
    }
    forall d | IsDirIn(t', d)
      ensures DirGood(t', home, d)
    {
      GoodDir(t, home, d);
      if d == parent {
        UnboundHere(t, home, parent, name, t');
      } else {
        ElsewhereUnbound(t, home, parent, name, d);
        DirKept(t, home, t', home, d);
      }
    }
    GoodTree(t', home);
  }

  lemma DeletedBound(t: Tree, home: Homes, parent: nat, name: Name)
    requires Deletable(t, parent, name) && NoneLoose(t, home)
    ensures NoneLoose(t[parent := Dir(t[parent].entries - {name}, t[parent].links)] - {t[parent].entries[name]}, home)
  {
    var t' := t[parent := Dir(t[parent].entries - {name}, t[parent].links)] - {t[parent].entries[name]};
    forall i | i in t' && i != ROOT
      ensures BoundAtHome(t', home, i)
    {
      assert BoundAtHome(t, home, i);
    }
  }

  lemma ElsewhereUnbound(t: Tree, home: Homes, parent: nat, name: Name, d: nat)
    requires TreeOk(t, home) && Deletable(t, parent, name) && IsDirIn(t, d) && d != parent
    ensures forall n :: n in t[d].entries ==> t[d].entries[n] != t[parent].entries[name]
  {
    hide TreeOk;
    GoodDir(t, home, d);
    GoodDir(t, home, parent);
    NotDotted(t, home, parent, name);
    forall n | n in t[d].entries
      ensures t[d].entries[n] != t[parent].entries[name]
    {
      if !Dotted(n) && t[d].entries[n] == t[parent].entries[name] {
        BoundOnce(t, home, d, n, parent, name);
      }
    }
  }

  // ---- inodes bound nowhere ----

  /** A live inode that no directory names. */
  ghost predicate Loose(t: Tree, i: nat) {
    i in t && i != ROOT && forall d, n :: IsDirIn(t, d) && n in t[d].entries && !Dotted(n) ==> t[d].entries[n] != i
  }

  lemma LooseIsNotBound(t: Tree, home: Homes, i: nat)
    requires Loose(t, i)
    ensures !NoneLoose(t, home)
  {
    assert !BoundAtHome(t, home, i);
  }

  /** What is not bound at its home is bound nowhere. */
  lemma NotHomeIsLoose(t: Tree, home: Homes) returns (i: nat)
    requires TreeOk(t, home) && !NoneLoose(t, home)
    ensures Loose(t, i)
  {
    hide TreeOk;
    i :| i in t && i != ROOT && !BoundAtHome(t, home, i);
    forall d, n | IsDirIn(t, d) && n in t[d].entries && !Dotted(n)
      ensures t[d].entries[n] != i
    {
      GoodDir(t, home, d);
    }
  }

  lemma LeftLoose(t: Tree, home: Homes, i: nat, node: Node, cur: nat)
    requires TreeOk(t, home) && i !in t && (node == File([]) || node == NewDirNode(i, cur))
    ensures Loose(t[i := node], i)
  {
    hide TreeOk;
    GoodRoot(t, home);
    var t' := t[i := node];
    forall d, n | IsDirIn(t', d) && n in t'[d].entries && !Dotted(n)
      ensures t'[d].entries[n] != i
    {
      if d != i {
        EntryInTree(t, home, d, n);
      }
    }
  }

  /** An inode that is bound nowhere stays so: nothing ever names it, and deleting needs a name. */
  lemma LooseStays(t: Tree, i: nat, cur: nat, name: Name, node: Node, links: nat, j: nat)
    requires Loose(t, i) && (node == File([]) || node == NewDirNode(j, cur))
    ensures forall t' :: CreatedView(t, t', cur, name, node, links, Some(j)) ==> Loose(t', i)
    ensures j !in t ==> Loose(t[j := node], i)
    ensures j in t && t[j].File? && node == File([]) ==> forall c :: Loose(t[j := File(c)], i)
    ensures Deletable(t, cur, name) && !Dotted(name) ==>
      Loose(t[cur := Dir(t[cur].entries - {name}, t[cur].links)] - {t[cur].entries[name]}, i)
  {
  }
}
