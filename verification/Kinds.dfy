/** The bytes of a directory record, and the file_type byte, by which a listing tells files from directories: in every
    run it says of each entry what the entry leads to. */
module Kinds {
  import opened Bytes
  import opened Geometry
  import opened Volumes
  import opened PointerTree
  import opened Ownership
  import opened Files
  import opened Release
  import opened DirBlock
  import opened Directories
  import opened FileSystem
  import opened Paths
  import opened Trees
  import opened Runs
  import Books
  import Conservation
  import Entries
  import Formatted
  import Inodes

  // ---- records ----

  function KindOf(s: seq<Byte>): Byte
    requires |s| >= 8
  {
    s[7]
  }

  /** An ext2_directory_entry_t, field after field: the inode number, the length of the record, the length of the
      name, the file type, the name; and whatever else there is up to the next record. */
  lemma EntryBytes(inode: nat, recLen: nat, name: Name, kind: Byte, rest: seq<Byte>)
    requires inode < 0x1_0000_0000 && |name| <= 255 && 8 + |name| <= recLen < 0x1_0000 && recLen <= 8 + |name| + |rest|
    ensures var s := Le32(inode) + Le16(recLen) + [|name| as Byte, kind] + name + rest;
      && s[..8 + |name|] == Record(inode, recLen, name, kind)
      && ValidRec(s) && RecInode(s) == inode && RecLen(s) == recLen && RecName(s) == name && KindOf(s) == kind
      && Rest(s) == s[recLen..]
  {
    var s := Le32(inode) + Le16(recLen) + [|name| as Byte, kind] + name + rest;
    assert s[..8 + |name|] == Record(inode, recLen, name, kind);
    RecordHeader(s, inode, recLen, name, kind);
  }

  /** What a record takes: the header of 8 bytes and the name, rounded up to a multiple of 4. */
  lemma RequiredIs(n: nat, m: nat)
    ensures Required(n) % 4 == 0 && Required(n) >= 8 + n
    ensures m % 4 == 0 && m >= 8 + n ==> Required(n) <= m
  {
  }

  // ---- one block ----

  /** The file types a block gives to the names it binds. */
  function KindsIn(s: seq<Byte>): map<Name, Byte>
    decreases |s|
  {
    if !ValidRec(s) then map[]
    else if Live(s) then KindsIn(Rest(s))[RecName(s) := KindOf(s)]
    else KindsIn(Rest(s))
  }

  lemma {:induction false} SameNames(s: seq<Byte>)
    ensures KindsIn(s).Keys == Names(s).Keys
    decreases |s|
  {
    if ValidRec(s) {
      SameNames(Rest(s));
    }
  }

  lemma ReuseKind(s: seq<Byte>, inode: nat, name: Name, kind: Byte)
    requires ValidRec(s) && Addable(inode, name) && RecLen(s) >= 8 + |name|
    ensures KindOf(Reuse(s, inode, name, kind)) == kind
  {
    var rec := Record(inode, RecLen(s), name, kind);
    assert Reuse(s, inode, name, kind)[0..0 + |rec|][7] == rec[7];
  }

  lemma SplitKinds(s: seq<Byte>, actual: nat, inode: nat, name: Name, kind: Byte)
    requires ValidRec(s) && Addable(inode, name) && Live(s)
    requires 8 + NameLen(s) <= actual && RecLen(s) >= actual + 8 + |name|
    ensures var r := Split(s, actual, inode, name, kind);
      && ValidRec(r) && |Rest(r)| >= 8 && KindOf(r) == KindOf(s) && KindOf(Rest(r)) == kind
  {
    var r := Split(s, actual, inode, name, kind);
    SplitNames(s, actual, inode, name, kind);
    var cut := Splice(s, 4, Le16(actual));
    var rec := Record(inode, RecLen(s) - actual, name, kind);
    assert r[..actual][7] == cut[..actual][7] == cut[4 + 2..][1] == s[4 + 2..][1];
    assert r == Splice(cut, actual, rec);
    assert RecLen(r) == actual by {
      assert r[..actual][4..6] == cut[..actual][4..6] == cut[4..6];
      assert r[4] == r[..actual][4..6][0] && r[5] == r[..actual][4..6][1];
    }
    assert r[actual..actual + |rec|] == rec;
    assert Rest(r)[7] == r[actual..actual + |rec|][7];
  }

  lemma PrefixKind(s: seq<Byte>, rest: seq<Byte>)
    requires ValidRec(s) && |rest| == |Rest(s)|
    ensures var r := s[..RecLen(s)] + rest;
      |r| >= 8 && KindOf(r) == KindOf(s)
  {
  }

  lemma KindSwap(m: map<Name, Byte>, a: Name, x: Byte, b: Name, y: Byte)
    requires a != b
    ensures var ab: map<Name, Byte> := m[a := x];
            var ba: map<Name, Byte> := m[b := y];
      ab[b := y] == ba[a := x]
  {
  }

  /** An added entry has the type it was added with, and all others keep theirs. */
  lemma {:induction false} AddInKinds(s: seq<Byte>, inode: nat, name: Name, kind: Byte)
    requires Addable(inode, name) && Tiled(s) && Unique(s) && name !in Names(s) && AddIn(s, inode, name, kind).Some?
    ensures KindsIn(AddIn(s, inode, name, kind).value) == KindsIn(s)[name := kind]
    decreases |s|
  {
    hide RecInode, RecLen, NameLen, RecName, KindOf, Reuse, Split, Required;
    var r := AddIn(s, inode, name, kind).value;
    RequiredCovers(s, name);
    if !Live(s) && RecLen(s) >= Required(|name|) {
      ReuseNames(s, inode, name, kind);
      ReuseKind(s, inode, name, kind);
    } else if Live(s) && RecLen(s) >= Required(NameLen(s)) + Required(|name|) {
      SplitNames(s, Required(NameLen(s)), inode, name, kind);
      SplitKinds(s, Required(NameLen(s)), inode, name, kind);
      KindSwap(KindsIn(Rest(s)), name, kind, RecName(s), KindOf(s));
    } else {
      AddInKinds(Rest(s), inode, name, kind);
      var rest := AddIn(Rest(s), inode, name, kind).value;
      AddInLength(Rest(s), inode, name, kind);
      PrefixRec(s, rest);
      PrefixKind(s, rest);
      if Live(s) {
        KindSwap(KindsIn(Rest(s)), name, kind, RecName(s), KindOf(s));
      }
    }
  }

  lemma RequiredCovers(s: seq<Byte>, name: Name)
    requires ValidRec(s)
    ensures Required(NameLen(s)) >= 8 + NameLen(s) && Required(|name|) >= 8 + |name|
  {
  }

  lemma KindDrop(m: map<Name, Byte>, a: Name, b: Name, y: Byte)
    ensures a != b ==> (m - {a})[b := y] == m[b := y] - {a}
    ensures a !in m ==> m[a := y] - {a} == m
  {
  }

  lemma {:induction false} RemoveInKinds(s: seq<Byte>, name: Name)
    requires Tiled(s) && Unique(s) && RemoveIn(s, name).Some?
    ensures KindsIn(RemoveIn(s, name).value) == KindsIn(s) - {name}
    decreases |s|
  {
    hide RecInode, RecLen, NameLen, RecName, KindOf, Splice, Le32;
    SameNames(Rest(s));
    KindDrop(KindsIn(Rest(s)), name, RecName(s), KindOf(s));
    if Live(s) && RecName(s) == name {
      KillRec(s);
    } else {
      RemoveInKinds(Rest(s), name);
      RemoveInLength(Rest(s), name);
      PrefixRec(s, RemoveIn(Rest(s), name).value);
      PrefixKind(s, RemoveIn(Rest(s), name).value);
    }
  }

  lemma SingleKind(size: nat, inode: nat, name: Name, kind: Byte)
    requires Addable(inode, name) && 8 + |name| <= size < 0x1_0000
    ensures KindsIn(Splice(Zeros(size), 0, Record(inode, size, name, kind))) == map[name := kind]
  {
    var rec := Record(inode, size, name, kind);
    var r := Splice(Zeros(size), 0, rec);
    assert r[..8 + |name|] == r[0..0 + |rec|];
    RecordHeader(r, inode, size, name, kind);
    assert r[7] == r[0..0 + |rec|][7] == kind;
    assert |Rest(r)| == 0;
  }

  /** "." and ".." of a new directory are directories. */
  lemma DotKinds(size: nat, self: nat, parent: nat)
    requires 1024 <= size <= 4096 && 0 < self < 0x1_0000_0000 && 0 < parent < 0x1_0000_0000
    ensures KindsIn(DotBlock(size, self, parent)) == map[DOT := 2, DOTDOT := 2]
  {
    var r1, r2 := Record(self, 12, DOT, EXT2_FT_DIR), Record(parent, size - 12, DOTDOT, EXT2_FT_DIR);
    var z := Splice(Zeros(size), 0, r1);
    var b := DotBlock(size, self, parent);
    assert b[..9] == b[..12][..9] == z[..12][..9] == z[0..9] == r1;
    assert b[7] == b[..9][7] == 2;
    RecordHeader(b, self, 12, DOT, EXT2_FT_DIR);
    var t := Rest(b);
    assert t[..10] == b[12..22] == r2;
    assert t[7] == t[..10][7] == 2;
    RecordHeader(t, parent, size - 12, DOTDOT, EXT2_FT_DIR);
    assert |Rest(t)| == 0;
    assert |DOT| != |DOTDOT|;
    assert KindsIn(t) == map[DOTDOT := 2];
  }

  // ---- a whole directory ----

  function KindsOf(blocks: seq<Block>): map<Name, Byte> {
    if blocks == [] then map[] else KindsOf(blocks[1..]) + KindsIn(blocks[0])
  }

  lemma {:induction false} SameKeys(blocks: seq<Block>)
    ensures KindsOf(blocks).Keys == NamesOf(blocks).Keys
  {
    hide KindsIn, Names;
    if blocks != [] {
      SameKeys(blocks[1..]);
      SameNames(blocks[0]);
    }
  }

  lemma KindInSum(m: map<Name, Byte>, n: map<Name, Byte>, name: Name, kind: Byte)
    ensures m + n[name := kind] == (m + n)[name := kind]
    ensures name !in n ==> m[name := kind] + n == (m + n)[name := kind]
    ensures m.Keys !! n.Keys && name in n ==> m + (n - {name}) == (m + n) - {name}
    ensures m.Keys !! n.Keys && name in m ==> (m - {name}) + n == (m + n) - {name}
  {
  }

  lemma {:induction false} KindIn(blocks: seq<Block>, k: nat, b: Block, name: Name, kind: Byte)
    requires k < |blocks| && name !in NamesOf(blocks) && KindsIn(b) == KindsIn(blocks[k])[name := kind]
    ensures KindsOf(blocks[k := b]) == KindsOf(blocks)[name := kind]
  {
    hide KindsIn, Names;
    KindInSum(KindsOf(blocks[1..]), KindsIn(blocks[0]), name, kind);
    SameNames(blocks[0]);
    if k == 0 {
      assert blocks[0 := b][1..] == blocks[1..];
    } else {
      assert blocks[k := b][1..] == blocks[1..][k - 1 := b];
      KindIn(blocks[1..], k - 1, b, name, kind);
    }
  }

  lemma {:induction false} KindAtEnd(blocks: seq<Block>, b: Block, name: Name, kind: Byte)
    requires name !in NamesOf(blocks) && KindsIn(b) == map[name := kind]
    ensures KindsOf(blocks + [b]) == KindsOf(blocks)[name := kind]
  {
    hide KindsIn, Names;
    if blocks == [] {
      assert (blocks + [b])[1..] == [];
    } else {
      assert (blocks + [b])[1..] == blocks[1..] + [b];
      SameNames(blocks[0]);
      KindInSum(KindsOf(blocks[1..]), KindsIn(blocks[0]), name, kind);
      KindAtEnd(blocks[1..], b, name, kind);
    }
  }

  lemma {:induction false} KindOut(blocks: seq<Block>, k: nat, b: Block, name: Name)
    requires WellFormed(blocks) && k < |blocks| && name in Names(blocks[k])
    requires KindsIn(b) == KindsIn(blocks[k]) - {name}
    ensures KindsOf(blocks[k := b]) == KindsOf(blocks) - {name}
  {
    hide KindsIn, Names, Tiled, Unique;
    SameNames(blocks[0]);
    SameKeys(blocks[1..]);
    KindInSum(KindsOf(blocks[1..]), KindsIn(blocks[0]), name, 0);
    if k == 0 {
      assert blocks[0 := b][1..] == blocks[1..];
    } else {
      assert blocks[k := b][1..] == blocks[1..][k - 1 := b];
      WellFormedAt(blocks[1..], k - 1);
      KindOut(blocks[1..], k - 1, b, name);
    }
  }

  lemma GainedKinds(blocks: seq<Block>, blocks': seq<Block>, inode: nat, name: Name, kind: Byte, size: nat)
    requires WellFormed(blocks) && name !in NamesOf(blocks) && BlocksGained(blocks, blocks', inode, name, kind, size)
    ensures KindsOf(blocks') == KindsOf(blocks)[name := kind]
  {
    hide KindsIn, Names, Tiled, Unique, NamesOf, KindsOf, WellFormed, AddIn, Record, Splice;
    if blocks' == blocks + [Splice(Zeros(size), 0, Record(inode, size, name, kind))] {
      SingleKind(size, inode, name, kind);
      KindAtEnd(blocks, Splice(Zeros(size), 0, Record(inode, size, name, kind)), name, kind);
    } else {
      var l :| 0 <= l < |blocks| && PatchedAt(blocks, blocks', l, AddIn(blocks[l], inode, name, kind));
      WellFormedAt(blocks, l);
      AddInKinds(blocks[l], inode, name, kind);
      KindIn(blocks, l, AddIn(blocks[l], inode, name, kind).value, name, kind);
    }
  }

  lemma LostKinds(blocks: seq<Block>, blocks': seq<Block>, name: Name)
    requires WellFormed(blocks) && BlocksLost(blocks, blocks', name)
    ensures KindsOf(blocks') == KindsOf(blocks) - {name}
  {
    hide KindsIn, Names, Tiled, Unique, NamesOf, KindsOf, WellFormed, RemoveIn;
    var l :| 0 <= l < |blocks| && PatchedAt(blocks, blocks', l, RemoveIn(blocks[l], name));
    WellFormedAt(blocks, l);
    RemoveInUnbinds(blocks[l], name);
    RemoveInKinds(blocks[l], name);
    KindOut(blocks, l, RemoveIn(blocks[l], name).value, name);
  }

  /** The file types in directory `d`. */
  function Kinds(v: Volume, d: nat): map<Name, Byte>
    requires Shape(v) && ValidInode(v, d)
  {
    KindsOf(DirBlocks(v, InodeOf(v, d)))
  }

  // ---- what the operations do to them ----

  /** From `v` to `w` every directory kept the types of its entries, except perhaps `but`. */
  predicate KindsKept(v: Volume, w: Volume, but: nat)
    requires Shape(v) && Shape(w)
  {
    w.geo == v.geo
    && forall d :: 0 < d <= v.geo.inodesCount && d != but && Active(v, d) && InodeOf(v, d).IsDir() ==>
         Kinds(w, d) == Kinds(v, d)
  }

  lemma KeptBy(v: Volume, owner: Owners, w: Volume, owner': Owners, but: nat)
    requires StoreOk(v, owner) && Shape(w) && w.geo == v.geo
    requires forall d :: 0 < d <= v.geo.inodesCount && d != but && Active(v, d) && InodeOf(v, d).IsDir() ==>
      Untouched(v, owner, w, owner', d)
    ensures KindsKept(v, w, but)
  {
    hide StoreOk, KindsOf, DirBlocks, Untouched, FileAt;
    StoreOkFacts(v, owner, but);
    forall d | 0 < d <= v.geo.inodesCount && d != but && Active(v, d) && InodeOf(v, d).IsDir()
      ensures Kinds(w, d) == Kinds(v, d)
    {
      StoreOkFacts(v, owner, d);
      UntouchedKinds(v, owner, w, owner', d);
    }
  }

  lemma UntouchedKinds(v: Volume, owner: Owners, w: Volume, owner': Owners, d: nat)
    requires Shape(v) && Shape(w) && w.geo == v.geo && ValidInode(v, d) && Untouched(v, owner, w, owner', d)
    requires FileAt(v, owner, d)
    ensures Kinds(w, d) == Kinds(v, d)
  {
    hide KindsOf, DirBlocks, FileAt, Undisturbed;
    UntouchedBlocks(v, owner, w, owner', d);
  }

  /** A step confined to inode `i`. */
  lemma ConfinedKinds(v: Volume, owner: Owners, w: Volume, owner': Owners, i: nat)
    requires StoreOk(v, owner) && Shape(w) && Confined(v, owner, w, owner', i)
    requires forall j :: 0 < j <= v.geo.inodesCount && j != i ==> InodeOf(w, j) == InodeOf(v, j)
    ensures KindsKept(v, w, i)
  {
    hide StoreOk, KindsKept, Undisturbed, Sound;
    StoreOkFacts(v, owner, i);
    forall d | 0 < d <= v.geo.inodesCount && d != i
      ensures Untouched(v, owner, w, owner', d)
    {
      ConfinedUndisturbed(v, owner, w, owner', i, d);
    }
    KeptBy(v, owner, w, owner', i);
  }

  /** A step that only made the fresh inode `i`. */
  lemma FreshKinds(v: Volume, owner: Owners, w: Volume, owner': Owners, i: nat)
    requires StoreOk(v, owner) && Shape(w) && w.geo == v.geo && ValidInode(v, i) && !Active(v, i)
    requires w.inodes == v.inodes[i - 1 := InodeOf(w, i)]
    requires forall j :: 0 <= j < v.geo.inodesCount && v.iused[j] ==> w.iused[j]
    requires Extended(owner, owner') && forall b :: b in owner && b < |v.store| ==> w.store[b] == v.store[b]
    ensures KindsKept(v, w, 0)
  {
    hide StoreOk, KindsKept, Sound;
    StoreOkFacts(v, owner, i);
    KeptBy(v, owner, w, owner', 0);
  }

  lemma SameStoreKinds(v: Volume, node: Inode, links: nat, d: nat)
    requires Shape(v) && ValidInode(v, d) && node.Fits() && links < 0x1_0000
    requires BlockCount(v, node.size) <= MaxLogical(v)
    ensures var w := WithInode(v, d, node.(links := links));
      Shape(w) && Kinds(w, d) == KindsOf(DirBlocks(v, node))
  {
    hide KindsOf, Mapped, CeilDiv;
    var node' := node.(links := links);
    var w := WithInode(v, d, node');
    forall l | 0 <= l < BlockCount(v, node.size)
      ensures BlockOf(w, node', l) == BlockOf(v, node, l)
    {
      SameStoreMapped(v, node, w, node', l);
    }
    assert DirBlocks(w, node') == DirBlocks(v, node);
  }

  /** Linking a fresh name gives it the type that it was added with. */
  lemma LinkKinds(v: Volume, owner: Owners, cur: nat, inode: nat, name: Name, kind: Byte, links: nat)
    requires StoreOk(v, owner) && Active(v, cur) && InodeOf(v, cur).IsDir() && links < 0x1_0000
    requires Addable(inode, name) && 0 < |name| && name !in DirMap(v, InodeOf(v, cur))
    ensures var r := AddEntry(v, InodeOf(v, cur), inode, name, kind);
      r.ok ==>
        var w := WithInode(r.v, cur, r.node.(links := links));
        Shape(w) && KindsKept(v, w, cur) && Kinds(w, cur) == Kinds(v, cur)[name := kind]
  {
    hide Agreement, Mapped, StoreOk, AddFrom, Confined, Recorded, CeilDiv, Sound, AllPlaced, NoReturn, WellFormed,
      KindsOf, NamesOf, DirBlocks, KindsKept, BlocksGained, Tables, Rewritten;
    StoreOkFacts(v, owner, cur);
    var node := InodeOf(v, cur);
    var owner' := AddFromBinds(v, owner, cur, node, inode, name, kind, 0);
    var r := AddEntry(v, node, inode, name, kind);
    if r.ok {
      var w := WithInode(r.v, cur, r.node.(links := links));
      GainedKinds(DirBlocks(v, node), DirBlocks(r.v, r.node), inode, name, kind, v.geo.blockSize);
      SameStoreKinds(r.v, r.node, links, cur);
      ConfinedWithInode(v, owner, r.v, owner', cur, r.node.(links := links));
      ConfinedKinds(v, owner, w, owner', cur);
    }
  }

  /** The same from before the inode was made. */
  lemma LinkedKinds(v: Volume, owner: Owners, w: Volume, o1: Owners, cur: nat, name: Name, i: nat, node: Node,
                    kind: Byte, links: nat)
    requires StoreOk(v, owner) && cur in View(v) && MayCreate(v, cur, name) && links < 0x1_0000
    requires StoreOk(w, o1) && View(w) == View(v)[i := node] && i !in View(v) && w.geo == v.geo
    requires InodeOf(w, cur) == InodeOf(v, cur) && 0 < i < 0x1_0000_0000 && KindsKept(v, w, 0)
    ensures var r := AddEntry(w, InodeOf(v, cur), i, name, kind);
      r.ok ==>
        var x := WithInode(r.v, cur, r.node.(links := links));
        && Shape(x) && x.geo == w.geo && KindsKept(w, x, cur) && Kinds(x, cur) == Kinds(v, cur)[name := kind]
  {
    hide Agreement, Mapped, StoreOk, View, DirMap, Content, AddEntry, FindInDir, KindsOf, DirBlocks;
    StoreOkFacts(v, owner, cur);
    StoreOkFacts(w, o1, cur);
    ViewFacts(v, cur);
    ViewFacts(w, cur);
    FindSeesView(v, owner, cur, name);
    LinkKinds(w, o1, cur, i, name, kind, links);
  }

  // ---- on the view ----

  type KindTable = map<nat, map<Name, Byte>>

  /** The file types in all directories. */
  function KindTableOf(v: Volume): KindTable
    requires Shape(v)
  {
    map d: nat | 0 < d <= v.geo.inodesCount && Active(v, d) && InodeOf(v, d).IsDir() :: Kinds(v, d)
  }

  /** EXT2_FT_DIR for a directory, EXT2_FT_REG_FILE for a file. */
  function KindFor(t: Tree, i: nat): Byte {
    if IsDirIn(t, i) then 2 else 1
  }

  /** Each entry has the type of what it leads to. */
  ghost predicate RightKinds(t: Tree, ks: KindTable) {
    forall d :: IsDirIn(t, d) ==> d in ks && RightIn(t, d, ks[d])
  }

  ghost predicate RightIn(t: Tree, d: nat, k: map<Name, Byte>)
    requires IsDirIn(t, d)
  {
    k.Keys == t[d].entries.Keys && forall n :: n in t[d].entries ==> k[n] == KindFor(t, t[d].entries[n])
  }

  lemma CreatedRight(t: Tree, home: Homes, t': Tree, ks: KindTable, ks': KindTable, cur: nat, name: Name, node: Node,
                     links: nat, i: nat)
    requires TreeOk(t, home) && RightKinds(t, ks) && CreatedView(t, t', cur, name, node, links, Some(i))
    requires node.File? || node == NewDirNode(i, cur)
    requires forall d :: IsDirIn(t, d) && d != cur ==> d in ks' && ks'[d] == ks[d]
    requires cur in ks && cur in ks' && ks'[cur] == ks[cur][name := if node.Dir? then 2 else 1]
    requires node.Dir? ==> i in ks' && ks'[i] == map[DOT := 2, DOTDOT := 2]
    ensures RightKinds(t', ks')
  {
    hide TreeOk;
    forall d | IsDirIn(t', d)
      ensures d in ks' && RightIn(t', d, ks'[d])
    {
      if d != i {
        assert IsDirIn(t, d) && RightIn(t, d, ks[d]);
        forall n | n in t[d].entries
          ensures KindFor(t', t[d].entries[n]) == KindFor(t, t[d].entries[n])
        {
          EntryInTree(t, home, d, n);
        }
      }
    }
  }

  /** Directories keep their entries, and inodes what they are. */
  lemma KeptRight(t: Tree, home: Homes, t': Tree, ks: KindTable, ks': KindTable)
    requires TreeOk(t, home) && RightKinds(t, ks)
    requires forall d :: d in t ==> d in t' && (t'[d].Dir? <==> t[d].Dir?)
    requires forall d :: IsDirIn(t, d) ==> t'[d].entries == t[d].entries && d in ks' && ks'[d] == ks[d]
    requires forall d :: IsDirIn(t', d) && d !in t ==> d in ks' && RightIn(t', d, ks'[d])
    ensures RightKinds(t', ks')
  {
    hide TreeOk;
    forall d | IsDirIn(t', d)
      ensures d in ks' && RightIn(t', d, ks'[d])
    {
      if d in t {
        assert RightIn(t, d, ks[d]);
        forall n | n in t[d].entries
          ensures KindFor(t', t[d].entries[n]) == KindFor(t, t[d].entries[n])
        {
          EntryInTree(t, home, d, n);
        }
      }
    }
  }

  lemma DeletedRight(t: Tree, home: Homes, t': Tree, ks: KindTable, ks': KindTable, dir: nat, name: Name)
    requires TreeOk(t, home) && RightKinds(t, ks) && Deletable(t, dir, name)
    requires t' == t[dir := Dir(t[dir].entries - {name}, t[dir].links)] - {t[dir].entries[name]}
    requires forall d :: IsDirIn(t, d) && d != dir ==> d in ks' && ks'[d] == ks[d]
    requires dir in ks && dir in ks' && ks'[dir] == ks[dir] - {name}
    ensures RightKinds(t', ks')
  {
    hide TreeOk;
    forall d | IsDirIn(t', d)
      ensures d in ks' && RightIn(t', d, ks'[d])
    {
      assert IsDirIn(t, d) && RightIn(t, d, ks[d]);
      forall n | n in t'[d].entries
        ensures KindFor(t', t'[d].entries[n]) == KindFor(t, t[d].entries[n]) && t'[d].entries[n] == t[d].entries[n]
      {
        EntryInTree(t, home, d, n);
      }
    }
  }

  // ---- in every run ----

  ghost predicate KindsRight(v: Volume)
    requires Shape(v)
  {
    RightKinds(View(v), KindTableOf(v))
  }

  lemma KindTableAt(v: Volume, d: nat)
    requires Shape(v)
    ensures d in KindTableOf(v) <==> IsDirIn(View(v), d)
    ensures IsDirIn(View(v), d) ==> Active(v, d) && InodeOf(v, d).IsDir() && KindTableOf(v)[d] == Kinds(v, d)
  {
    hide Kinds, DirMap, Content;
  }

  /** What `KindsKept` says about the tables. */
  lemma TablesKept(v: Volume, w: Volume, but: nat)
    requires Shape(v) && Shape(w) && KindsKept(v, w, but)
    ensures forall d :: d != but && IsDirIn(View(v), d) && IsDirIn(View(w), d) ==>
      d in KindTableOf(v) && d in KindTableOf(w) && KindTableOf(w)[d] == KindTableOf(v)[d]
  {
    hide Kinds, View, KindTableOf;
    forall d | d != but && IsDirIn(View(v), d) && IsDirIn(View(w), d)
      ensures d in KindTableOf(v) && d in KindTableOf(w) && KindTableOf(w)[d] == KindTableOf(v)[d]
    {
      KindTableAt(v, d);
      KindTableAt(w, d);
    }
  }

  /** Making inode `i` in volume `w` and then, if there is a place for its name, linking it gives `x`. */
  lemma CreationRight(v: Volume, owner: Owners, home: Homes, w: Volume, o1: Owners, x: Volume, cur: nat, name: Name,
                      i: nat, node: Node, extra: nat, links: nat)
    requires StoreOk(v, owner) && TreeOk(View(v), home) && cur in View(v) && MayCreate(v, cur, name) && KindsRight(v)
    requires StoreOk(w, o1) && View(w) == View(v)[i := node] && i !in View(v) && w.geo == v.geo && links < 0x1_0000
    requires InodeOf(w, cur) == InodeOf(v, cur) && 0 < i < 0x1_0000_0000 && KindsKept(v, w, 0)
    requires node.File? || (node == NewDirNode(i, cur) && ValidInode(w, i) && Kinds(w, i) == map[DOT := 2, DOTDOT := 2])
    requires Shape(x)
    requires var r := AddEntry(w, InodeOf(v, cur), i, name, if node.Dir? then 2 else 1);
      if r.ok then
        && x == WithInode(r.v, cur, r.node.(links := links))
        && CreatedView(View(v), View(x), cur, name, node, extra, Some(i))
      else x == w
    ensures KindsRight(x)
  {
    hide StoreOk, TreeOk, View, AddEntry, Kinds, KindTableOf, KindsKept, RightKinds, FindInDir, NewDirNode,
      Agreement, Recorded, InodeOk, CreatedView, Sound, KindsRight;
    StoreOkFacts(v, owner, cur);
    StoreOkFacts(w, o1, cur);
    ViewFacts(v, cur);
    var r := AddEntry(w, InodeOf(v, cur), i, name, if node.Dir? then 2 else 1);
    if r.ok {
      LinkedKinds(v, owner, w, o1, cur, name, i, node, if node.Dir? then 2 else 1, links);
      LinkedRight(v, home, w, x, cur, name, i, node, extra);
    } else {
      MayCreateThere(v, cur, name);
      NewNodeRight(v, home, w, cur, i, node);
    }
  }

  lemma MayCreateThere(v: Volume, cur: nat, name: Name)
    requires Shape(v) && cur in View(v) && MayCreate(v, cur, name)
    ensures IsDirIn(View(v), cur)
  {
    ViewFacts(v, cur);
  }

  lemma NewNodeRight(v: Volume, home: Homes, w: Volume, cur: nat, i: nat, node: Node)
    requires Shape(v) && Shape(w) && TreeOk(View(v), home) && KindsRight(v) && IsDirIn(View(v), cur)
    requires View(w) == View(v)[i := node] && i !in View(v) && KindsKept(v, w, 0)
    requires node.File? || (node == NewDirNode(i, cur) && ValidInode(w, i) && Kinds(w, i) == map[DOT := 2, DOTDOT := 2])
    ensures KindsRight(w)
  {
    hide TreeOk, View, Kinds, KindTableOf, KindsKept, RightKinds;
    TablesKept(v, w, 0);
    KindTableAt(w, i);
    forall d | IsDirIn(View(v), d)
      ensures 0 < d && IsDirIn(View(w), d)
    {
      KindTableAt(v, d);
    }
    KeptRight(View(v), home, View(w), KindTableOf(v), KindTableOf(w));
  }

  lemma LinkedRight(v: Volume, home: Homes, w: Volume, x: Volume, cur: nat, name: Name, i: nat, node: Node, extra: nat)
    requires Shape(v) && Shape(w) && Shape(x) && TreeOk(View(v), home) && KindsRight(v) && ValidInode(v, cur)
    requires View(w) == View(v)[i := node] && KindsKept(v, w, 0) && KindsKept(w, x, cur)
    requires CreatedView(View(v), View(x), cur, name, node, extra, Some(i)) && ValidInode(x, cur)
    requires node.File? || (node == NewDirNode(i, cur) && ValidInode(w, i) && Kinds(w, i) == map[DOT := 2, DOTDOT := 2])
    requires Kinds(x, cur) == Kinds(v, cur)[name := if node.Dir? then 2 else 1]
    ensures KindsRight(x)
  {
    hide TreeOk, View, Kinds, KindTableOf, KindsKept, RightKinds, NewDirNode;
    TablesKept(v, w, 0);
    TablesKept(w, x, cur);
    KindTableAt(w, i);
    KindTableAt(v, cur);
    KindTableAt(x, cur);
    forall d | IsDirIn(View(v), d)
      ensures 0 < d
    {
      KindTableAt(v, d);
    }
    CreatedRight(View(v), home, View(x), KindTableOf(v), KindTableOf(x), cur, name, node, extra, i);
  }

  lemma CreateFileRight(v: Volume, owner: Owners, home: Homes, cur: nat, name: Name, uid: nat)
    requires StoreOk(v, owner) && TreeOk(View(v), home) && cur in View(v) && KindsRight(v)
    ensures KindsRight(CreateFile(v, cur, name, uid).v)
  {
    hide Agreement, Mapped, StoreOk, TreeOk, View, DirMap, Content, AddEntry, FindInDir, AllocateInode, NewFileInode,
      CreatedView, FileLeftLoose, InodeFree, Sound, Ledger, Extended, KindsRight, KindsKept;
    StoreOkFacts(v, owner, cur);
    ViewFacts(v, cur);
    AllocateInodeLowest(v);
    var a := AllocateInode(v);
    var o2, left := CreateFileStep(v, owner, cur, name, uid);
    if MayCreate(v, cur, name) && a.found.Some? {
      var i := a.found.value;
      TakeInodeStep(v, owner, i);
      InodesAfterTake(v, i);
      NewFileStep(a.v, owner, i, uid);
      InodeBounds(v, i);
      var w := WithInode(a.v, i, NewFileInode(uid));
      FreshFile(v, owner, a.v, i, uid);
      var r := AddEntry(w, InodeOf(v, cur), i, name, EXT2_FT_REG_FILE);
      var o3 := LinkStep(v, owner, w, owner, cur, name, i, File([]), EXT2_FT_REG_FILE, 0);
      CreationRight(v, owner, home, w, owner, CreateFile(v, cur, name, uid).v, cur, name, i, File([]), 0, r.node.links);
    }
  }

  lemma FreshFile(v: Volume, owner: Owners, w: Volume, i: nat, uid: nat)
    requires StoreOk(v, owner) && ValidInode(v, i) && !Active(v, i) && InodeGroupOf(v.geo, i - 1) < v.geo.groupCount
    requires w == TakeInode(v, i) && Shape(w)
    ensures KindsKept(v, WithInode(w, i, NewFileInode(uid)), 0)
  {
    hide StoreOk, KindsKept, Sound, NewFileInode;
    StoreOkFacts(v, owner, i);
    FreshKinds(v, owner, WithInode(w, i, NewFileInode(uid)), owner, i);
  }

  lemma CreateDirectoryRight(v: Volume, owner: Owners, home: Homes, cur: nat, name: Name, uid: nat)
    requires StoreOk(v, owner) && TreeOk(View(v), home) && cur in View(v) && KindsRight(v)
    ensures KindsRight(CreateDirectory(v, cur, name, uid).v)
  {
    hide Agreement, Mapped, StoreOk, TreeOk, View, DirMap, Content, AddEntry, FindInDir, AllocateInode, AllocateBlock,
      NewDirectory, CreatedView, Sound, Ledger, Extended, KindsRight, KindsKept, InodeFree, NewDirNode, InodeOk,
      Recorded, NodeOf;
    StoreOkFacts(v, owner, cur);
    ViewFacts(v, cur);
    AllocateInodeLowest(v);
    var a := AllocateInode(v);
    if MayCreate(v, cur, name) && a.found.Some? {
      TakeInodeStep(v, owner, a.found.value);
      StoreOkFacts(a.v, owner, cur);
      AllocationNeedsFree(a.v);
      if AllocateBlock(a.v).found.Some? {
        NewDirectoryRight(v, owner, home, cur, name, uid, a.found.value);
      } else {
        TakenKinds(v, owner, a.found.value);
        KindTableAt(v, 0);
        KeptTreeRight(v, home, a.v, 0);
      }
    }
  }

  /** The part of it that follows both allocations. */
  lemma NewDirectoryRight(v: Volume, owner: Owners, home: Homes, cur: nat, name: Name, uid: nat, i: nat)
    requires StoreOk(v, owner) && TreeOk(View(v), home) && cur in View(v) && KindsRight(v) && MayCreate(v, cur, name)
    requires AllocateInode(v).found == Some(i) && AllocateBlock(AllocateInode(v).v).found.Some?
    ensures KindsRight(CreateDirectory(v, cur, name, uid).v)
  {
    hide Agreement, Mapped, StoreOk, TreeOk, View, DirMap, Content, AddEntry, FindInDir, AllocateInode, AllocateBlock,
      NewDirectory, CreatedView, Sound, Ledger, Extended, KindsRight, KindsKept, InodeFree, NewDirNode, Kinds, InodeOk,
      Recorded, CanAdd, NodeOf;
    StoreOkFacts(v, owner, cur);
    ViewFacts(v, cur);
    AllocateInodeLowest(v);
    var a := AllocateInode(v);
    TakeInodeStep(v, owner, i);
    InodesAfterTake(v, i);
    InodeBounds(v, i);
    StoreOkFacts(a.v, owner, cur);
    var b := AllocateBlock(a.v);
    var o1 := NewDirectoryStep(a.v, owner, i, cur, uid);
    var w := NewDirectory(b.v, i, cur, uid, b.found.value);
    FreshDirectory(v, owner, a.v, i, cur, uid, o1);
    DirectoryOnVolume(b.v, i, cur, uid, b.found.value);
    var r := AddEntry(w, InodeOf(v, cur), i, name, EXT2_FT_DIR);
    DirNodeIs(i, cur);
    var o3 := LinkStep(v, owner, w, o1, cur, name, i, NewDirNode(i, cur), EXT2_FT_DIR, 1);
    CreationRight(v, owner, home, w, o1, CreateDirectory(v, cur, name, uid).v, cur, name, i, NewDirNode(i, cur), 1,
                  (r.node.links + 1) % 0x1_0000);
  }

  lemma DirNodeIs(i: nat, cur: nat)
    ensures NewDirNode(i, cur).Dir?
  {
  }

  lemma TakenKinds(v: Volume, owner: Owners, i: nat)
    requires StoreOk(v, owner) && ValidInode(v, i) && !Active(v, i) && InodeGroupOf(v.geo, i - 1) < v.geo.groupCount
    requires Shape(TakeInode(v, i))
    ensures KindsKept(v, TakeInode(v, i), 0)
  {
    hide StoreOk, KindsKept, Sound;
    StoreOkFacts(v, owner, i);
    FreshKinds(v, owner, TakeInode(v, i), owner, i);
  }

  lemma FreshDirectory(v: Volume, owner: Owners, w: Volume, i: nat, cur: nat, uid: nat, o1: Owners)
    requires StoreOk(v, owner) && ValidInode(v, i) && !Active(v, i) && InodeGroupOf(v.geo, i - 1) < v.geo.groupCount
    requires w == TakeInode(v, i) && Shape(w) && AllocateBlock(w).found.Some? && ValidInode(v, cur) && Agreement(w)
    requires Extended(owner, o1)
    requires var x := NewDirectory(AllocateBlock(w).v, i, cur, uid, AllocateBlock(w).found.value);
      && x.inodes == w.inodes[i - 1 := InodeOf(x, i)]
      && forall b :: b in owner && b < |w.store| ==> x.store[b] == w.store[b]
    ensures KindsKept(v, NewDirectory(AllocateBlock(w).v, i, cur, uid, AllocateBlock(w).found.value), 0)
  {
    hide StoreOk, KindsKept, Sound, AllocateBlock, DotBlock, NewDirInode, Agreement;
    StoreOkFacts(v, owner, i);
    AllocateBlockLowest(w);
    FreshKinds(v, owner, NewDirectory(AllocateBlock(w).v, i, cur, uid, AllocateBlock(w).found.value), o1, i);
  }

  /** The types in a new directory. */
  lemma DirectoryOnVolume(v: Volume, self: nat, parent: nat, uid: nat, b: nat)
    requires Shape(v) && ValidInode(v, self) && ValidInode(v, parent) && Plain(v, b)
    ensures Kinds(NewDirectory(v, self, parent, uid, b), self) == map[DOT := 2, DOTDOT := 2]
  {
    hide Mapped, DotBlock, KindsIn, Sound;
    var w := NewDirectory(v, self, parent, uid, b);
    InodeBounds(v, self);
    InodeBounds(v, parent);
    BlockSizes(v);
    DotKinds(v.geo.blockSize, self, parent);
    OneBlockKinds(w, self, b);
  }

  lemma OneBlockKinds(w: Volume, d: nat, b: nat)
    requires Shape(w) && ValidInode(w, d) && InodeOf(w, d).size == w.geo.blockSize && InodeOf(w, d).direct[0] == b
    requires Plain(w, b)
    ensures Kinds(w, d) == KindsIn(w.store[b])
  {
    hide Mapped, KindsIn, Sound;
    OneBlock(w);
    MappedDirect(w, InodeOf(w, d), 0);
    var blocks := DirBlocks(w, InodeOf(w, d));
    assert blocks[0] == w.store[b] && |blocks[1..]| == 0;
    assert KindsOf(blocks[1..]) == map[];
  }

  /** A step that left every directory what it was. */
  lemma KeptTreeRight(v: Volume, home: Homes, w: Volume, but: nat)
    requires Shape(v) && Shape(w) && TreeOk(View(v), home) && KindsRight(v) && KindsKept(v, w, but)
    requires !IsDirIn(View(v), but)
    requires forall d :: d in View(w) <==> d in View(v)
    requires forall d :: d in View(v) ==> if View(v)[d].Dir? then View(w)[d] == View(v)[d] else View(w)[d].File?
    ensures KindsRight(w)
  {
    hide TreeOk, View, Kinds, KindTableOf, KindsKept, RightKinds;
    TablesKept(v, w, but);
    KeptRight(View(v), home, View(w), KindTableOf(v), KindTableOf(w));
  }

  lemma WriteRight(v: Volume, owner: Owners, home: Homes, i: nat, buf: seq<Byte>)
    requires StoreOk(v, owner) && TreeOk(View(v), home) && i in View(v) && KindsRight(v) && |buf| < 0x8000_0000
    ensures KindsRight(WriteFile(v, i, buf).v)
  {
    hide StoreOk, TreeOk, View, WriteFile, KindsRight, KindsKept, Confined, NothingLost, NoReturn, Growing, Recorded;
    StoreOkFacts(v, owner, i);
    ViewFacts(v, i);
    if InodeOf(v, i).IsFile() {
      var o := WriteStepFile(v, owner, i, buf);
      ConfinedKinds(v, owner, WriteFile(v, i, buf).v, o, i);
      KeptTreeRight(v, home, WriteFile(v, i, buf).v, i);
    } else {
      NotWritten(v, i, buf);
    }
  }

  lemma NotWritten(v: Volume, i: nat, buf: seq<Byte>)
    requires Shape(v) && ValidInode(v, i) && !InodeOf(v, i).IsFile() && |buf| < 0x8000_0000
    ensures WriteFile(v, i, buf).v == v
  {
  }

  lemma DeleteRight(v: Volume, owner: Owners, home: Homes, dir: nat, name: Name)
    requires StoreOk(v, owner) && TreeOk(View(v), home) && dir in View(v) && KindsRight(v)
    ensures KindsRight(DeleteFile(v, dir, name).v)
  {
    hide StoreOk, TreeOk, View, DeleteFile, KindsRight, KindsKept, Confined, Kinds, RemoveEntry, ClearInode, FindInDir,
      Agreement, Recorded, Ledger;
    StoreOkFacts(v, owner, dir);
    var t := View(v);
    if t[dir].Dir? {
      forall n | n in t[dir].entries
        ensures t[dir].entries[n] in t
      {
        EntryInTree(t, home, dir, n);
      }
    }
    var o := DeleteFileStep(v, owner, dir, name);
    if DeleteFile(v, dir, name).ok {
      var i := t[dir].entries[name];
      ViewFacts(v, dir);
      ViewFacts(v, i);
      FindSeesView(v, owner, dir, name);
      RemoveStep(v, owner, dir, name);
      ClearIsDelete(v, dir, name, i);
      DeletedKinds(v, owner, dir, name, i);
      UnlinkedRight(v, home, DeleteFile(v, dir, name).v, dir, name);
    }
  }

  lemma DeletedKinds(v: Volume, owner: Owners, dir: nat, name: Name, i: nat)
    requires StoreOk(v, owner) && IsDirIn(View(v), dir) && name in View(v)[dir].entries
    requires i in View(v) && View(v)[i].File?
    requires RemoveEntry(v, InodeOf(v, dir), name).ok && ValidInode(v, i)
    ensures var w := ClearInode(RemoveEntry(v, InodeOf(v, dir), name).v, i);
      && ValidInode(w, dir) && KindsKept(v, w, dir) && Kinds(w, dir) == Kinds(v, dir) - {name}
  {
    hide StoreOk, View, RemoveFrom, Confined, Agreement, Recorded, Mapped, CeilDiv, Sound, NamesOf, WellFormed,
      KindsOf, DirBlocks, AllPlaced, NoReturn, Tables, ClearInode, Ledger, BlocksLost, KindsKept;
    StoreOkFacts(v, owner, dir);
    ViewFacts(v, dir);
    ViewFacts(v, i);
    var node := InodeOf(v, dir);
    RemoveFromUnbinds(v, owner, dir, node, name, 0);
    RemoveStep(v, owner, dir, name);
    var w := RemoveEntry(v, node, name).v;
    LostKinds(DirBlocks(v, node), DirBlocks(w, node), name);
    ConfinedKinds(v, owner, w, owner, dir);
    ClearedKinds(w, owner, i);
    KindsThen(v, w, ClearInode(w, i), dir, i);
  }

  lemma KindsThen(v: Volume, w: Volume, x: Volume, dir: nat, i: nat)
    requires Shape(v) && Shape(w) && Shape(x) && w.inodes == v.inodes && KindsKept(v, w, dir) && KindsKept(w, x, i)
    requires ValidInode(v, i) && InodeOf(v, i).IsFile() && Active(v, dir) && InodeOf(v, dir).IsDir()
    ensures KindsKept(v, x, dir) && ValidInode(x, dir) && Kinds(x, dir) == Kinds(w, dir)
  {
    hide Kinds, Sound;
  }

  lemma ClearedKinds(v: Volume, owner: Owners, i: nat)
    requires StoreOk(v, owner) && Active(v, i) && InodeOf(v, i).IsFile()
    ensures KindsKept(v, ClearInode(v, i), i)
  {
    hide StoreOk, KindsKept, Freed, Agreement, Recorded, Mapped, FreeFile, InTree, Untouched, Sound;
    StoreOkFacts(v, owner, i);
    var node := InodeOf(v, i);
    var o1 := FreeFileFrees(v, owner, i, node);
    FreedFacts(v, owner, FreeFile(v, node), o1);
    ClearInodeStep(v, owner, i);
    ClearedUntouched(v, owner, i, ClearInode(v, i));
    KeptBy(v, owner, ClearInode(v, i), Without(owner, i), i);
  }

  lemma UnlinkedRight(v: Volume, home: Homes, w: Volume, dir: nat, name: Name)
    requires Shape(v) && Shape(w) && TreeOk(View(v), home) && KindsRight(v) && Deletable(View(v), dir, name)
    requires var t := View(v);
      View(w) == t[dir := Dir(t[dir].entries - {name}, t[dir].links)] - {t[dir].entries[name]}
    requires ValidInode(v, dir) && ValidInode(w, dir) && KindsKept(v, w, dir) && Kinds(w, dir) == Kinds(v, dir) - {name}
    ensures KindsRight(w)
  {
    hide TreeOk, View, Kinds, KindTableOf, KindsKept, RightKinds;
    TablesKept(v, w, dir);
    KindTableAt(v, dir);
    KindTableAt(w, dir);
    DeletedRight(View(v), home, View(w), KindTableOf(v), KindTableOf(w), dir, name);
  }

  /** Every request leaves the file types right. */
  lemma StepKeepsKinds(s: State, op: Request)
    requires Sane(s) && Shape(s.v) && KindsRight(s.v)
    ensures KindsRight(Step(s, op).v)
  {
    hide StoreOk, TreeOk, View, SplitParent, FindByPath, CreateFile, CreateDirectory, DeleteFile, WriteFile, ParentOf,
      KindsRight, CreateFileByPath;
    var owner: Owners, home: Homes :| SaneWith(s, owner, home);
    var path := op.path;
    FindInTree(s.v, owner, home, s.cur, path);
    match op {
      case Create(_, uid) =>
        CreateByPathRight(s, owner, home, path, uid);
      case MakeDirectory(_, uid) =>
        if SplitParent(path).Some? {
          var parts := SplitParent(path).value;
          FindInTree(s.v, owner, home, s.cur, parts.parent);
          var d := ParentOf(s.v, s.cur, parts.parent);
          if d.Some? {
            CreateDirectoryRight(s.v, owner, home, d.value, parts.name, uid);
          }
        }
      case Write(_, buf, uid) =>
        WriteByPathRight(s, owner, home, path, buf, uid);
      case Delete(_) =>
        if SplitParent(path).Some? {
          var parts := SplitParent(path).value;
          FindInTree(s.v, owner, home, s.cur, parts.parent);
          var d := ParentOf(s.v, s.cur, parts.parent);
          if d.Some? {
            DeleteRight(s.v, owner, home, d.value, parts.name);
          }
        }
      case Cd(_) =>
    }
  }

  lemma CreateByPathRight(s: State, owner: Owners, home: Homes, path: Path, uid: nat)
    requires SaneWith(s, owner, home) && Shape(s.v) && KindsRight(s.v)
    ensures KindsRight(CreateFileByPath(s.v, s.cur, path, uid).v)
  {
    hide StoreOk, TreeOk, View, SplitParent, FindByPath, CreateFile, ParentOf, KindsRight;
    if SplitParent(path).Some? {
      var parts := SplitParent(path).value;
      FindInTree(s.v, owner, home, s.cur, parts.parent);
      var d := ParentOf(s.v, s.cur, parts.parent);
      if d.Some? {
        CreateFileRight(s.v, owner, home, d.value, parts.name, uid);
      }
    }
  }

  lemma WriteByPathRight(s: State, owner: Owners, home: Homes, path: Path, buf: seq<Byte>, uid: nat)
    requires SaneWith(s, owner, home) && Shape(s.v) && KindsRight(s.v) && |buf| < 0x8000_0000
    ensures KindsRight(WriteFileByPath(s.v, s.cur, path, buf, uid).v)
  {
    hide StoreOk, TreeOk, View, SplitParent, FindByPath, CreateFileByPath, WriteFile, KindsRight, CreateLeavesLoose,
      EntriesStep, Conservation.BooksStep, Extended;
    FindInTree(s.v, owner, home, s.cur, path);
    match FindByPath(s.v, s.cur, path)
    case Some(i) =>
      WriteRight(s.v, owner, home, i, buf);
    case None =>
      CreateByPathRight(s, owner, home, path, uid);
      var o, h := CreateByPathKeepsSane(s, owner, home, path, uid);
      var c := CreateFileByPath(s.v, s.cur, path, uid);
      if c.inode.Some? {
        WriteRight(c.v, o, h, c.inode.value, buf);
      }
  }

  /** And so does every run, whatever becomes of its requests. */
  lemma {:induction false} RunKeepsKinds(s: State, ops: seq<Request>)
    requires Sane(s) && Shape(s.v) && KindsRight(s.v)
    ensures KindsRight(Run(s, ops).v)
    decreases |ops|
  {
    hide Sane, KindsRight, Step;
    if ops != [] {
      StepKeepsSane(s, ops[0]);
      StepKeepsKinds(s, ops[0]);
      RunKeepsKinds(Step(s, ops[0]), ops[1..]);
    }
  }

  lemma RootKinds(v: Volume)
    requires Formatted.Unused(v) && AllocateBlock(v).found.Some? && Shape(Formatted.Rooted(v).v)
    ensures KindsRight(Formatted.Rooted(v).v)
  {
    hide StoreOk, View, AllocateBlock, NewDirectory, Conservation.AllGood, Ledger, Formatted.Small, Kinds, KindTableOf;
    Formatted.UnusedOk(v);
    StoreOkFacts(v, map[], ROOT);
    var owner := NewDirectoryStep(v, map[], ROOT, ROOT, 0);
    var b := AllocateBlock(v);
    var w := Formatted.Rooted(v).v;
    DirectoryOnVolume(b.v, ROOT, ROOT, 0, b.found.value);
    KindTableAt(w, ROOT);
    assert |DOT| != |DOTDOT|;
  }

  /** They are right on a formatted disk. */
  lemma FormattedKinds(v: Volume, ops: seq<Request>)
    requires Formatted.Unused(v)
    ensures AllocateBlock(v).found.Some? && Shape(Formatted.Rooted(v).v)
    ensures KindsRight(Run(Formatted.Rooted(v), ops).v)
  {
    hide Formatted.Unused, Formatted.Rooted, Sane, Entries.Tidy, Books.Balanced, KindsRight, AllocateBlock, Run,
      Inodes.NoneWasted, Inodes.DirsCounted;
    Formatted.RootMade(v);
    RootKinds(v);
    RunKeepsKinds(Formatted.Rooted(v), ops);
  }

  /** What that means: a record of a directory says 2 where its name leads to a directory, 1 where to a file. */
  lemma KindsMean(s: State, d: nat, n: Name)
    requires Sane(s) && Shape(s.v) && KindsRight(s.v) && IsDirIn(View(s.v), d) && n in View(s.v)[d].entries
    ensures ValidInode(s.v, d) && n in Kinds(s.v, d) && View(s.v)[d].entries[n] in View(s.v)
    ensures Kinds(s.v, d)[n] == if View(s.v)[View(s.v)[d].entries[n]].Dir? then 2 else 1
  {
    hide StoreOk, TreeOk, View, Kinds;
    var owner: Owners, home: Homes :| SaneWith(s, owner, home);
    EntryInTree(View(s.v), home, d, n);
    KindTableAt(s.v, d);
    assert RightIn(View(s.v), d, KindTableOf(s.v)[d]);
  }
}
