/** Listing a directory: each entry once, told to be a directory or a file. */
module Listing {
  import opened Bytes
  import opened Volumes
  import opened PointerTree
  import opened Ownership
  import opened Files
  import opened DirBlock
  import opened Directories
  import opened FileSystem
  import opened Trees
  import opened Runs
  import opened Steps
  import Geometry
  import opened Kinds
  import opened Engine

  /** A line says "[DIR]" or "[FILE]" and the name. */
  datatype Line = Line(directory: bool, name: Name)

  /** The lines for one block. */
  function ListIn(s: seq<Byte>): seq<Line>
    decreases |s|
  {
    if !ValidRec(s) then []
    else (if Live(s) then [Line(KindOf(s) == EXT2_FT_DIR, RecName(s))] else []) + ListIn(Rest(s))
  }

  /** The lines from logical block `l` on. */
  function ListFrom(v: Volume, node: Inode, l: nat): seq<Line>
    requires Shape(v) && node.Fits()
    decreases BlockCount(v, node.size) - l
  {
    if l >= BlockCount(v, node.size) then []
    else
      var b := Mapped(v, node, l);
      if b == 0 || !Plain(v, b) then [] else ListIn(v.store[b]) + ListFrom(v, node, l + 1)
  }

  /** ext2_print_dir_contents. */
  function ListDirectory(v: Volume, dir: nat): Option<seq<Line>>
    requires Shape(v)
  {
    if !ValidInode(v, dir) || !InodeOf(v, dir).IsDir() then None else Some(ListFrom(v, InodeOf(v, dir), 0))
  }

  // ---- what the lines say ----

  /** One line for each name of `ks`, and no other. */
  ghost predicate Lists(lines: seq<Line>, ks: map<Name, Byte>) {
    && (forall j, k :: 0 <= j < k < |lines| ==> lines[j].name != lines[k].name)
    && (forall x :: x in lines ==> x.name in ks && x.directory == (ks[x.name] == 2))
    && (forall n :: n in ks ==> Line(ks[n] == 2, n) in lines)
  }

  lemma ListsJoin(a: seq<Line>, m: map<Name, Byte>, b: seq<Line>, n: map<Name, Byte>)
    requires Lists(a, m) && Lists(b, n) && m.Keys !! n.Keys
    ensures Lists(a + b, n + m)
  {
    var c, k := a + b, n + m;
    assert forall x :: x in c <==> x in a || x in b;
    forall i, j | 0 <= i < j < |c|
      ensures c[i].name != c[j].name
    {
      if i < |a| <= j {
        assert c[i] in a && c[j] in b;
      }
    }
  }

  lemma {:induction false} ListInIs(s: seq<Byte>)
    requires Tiled(s) && Unique(s)
    ensures Lists(ListIn(s), KindsIn(s))
    decreases |s|
  {
    hide RecInode, RecLen, NameLen, RecName, KindOf, Lists;
    if s == [] {
      NothingListed();
    } else {
      ListInIs(Rest(s));
      SameNames(Rest(s));
      if Live(s) {
        var n, k := RecName(s), KindOf(s);
        OneListed(n, k);
        ListsJoin([Line(k == 2, n)], map[n := k], ListIn(Rest(s)), KindsIn(Rest(s)));
        assert KindsIn(Rest(s)) + map[n := k] == KindsIn(s);
      } else {
        assert [] + ListIn(Rest(s)) == ListIn(Rest(s));
      }
    }
  }

  lemma NothingListed()
    ensures Lists([], map[])
  {
  }

  lemma OneListed(n: Name, k: Byte)
    ensures Lists([Line(k == 2, n)], map[n := k])
  {
  }

  lemma {:induction false} ListFromIs(v: Volume, owner: Owners, dir: nat, node: Inode, l: nat)
    requires Shape(v) && node.Fits() && DataHeld(v, owner, dir, node, BlockCount(v, node.size))
    requires l <= BlockCount(v, node.size) && WellFormed(DirBlocks(v, node)[l..])
    ensures Lists(ListFrom(v, node, l), KindsOf(DirBlocks(v, node)[l..]))
    decreases BlockCount(v, node.size) - l
  {
    hide Mapped, Names, KindsIn, ListIn, Geometry.CeilDiv, Lists, Tiled, Unique;
    var blocks := DirBlocks(v, node);
    if l == BlockCount(v, node.size) {
      NothingListed();
    } else {
      var b := Mapped(v, node, l);
      assert Holds(v, owner, b, Data(dir, l));
      assert blocks[l..][0] == v.store[b] && blocks[l..][1..] == blocks[l + 1..];
      ListInIs(v.store[b]);
      ListFromIs(v, owner, dir, node, l + 1);
      SameNames(v.store[b]);
      SameKeys(blocks[l + 1..]);
      ListsJoin(ListIn(v.store[b]), KindsIn(v.store[b]), ListFrom(v, node, l + 1), KindsOf(blocks[l + 1..]));
    }
  }

  /** In a sane state with right file types a directory is listed as it is: one line for each entry, with what the
      entry leads to. */
  lemma ListingIs(s: State, d: nat)
    requires Sane(s) && Shape(s.v) && KindsRight(s.v) && IsDirIn(View(s.v), d)
    ensures ListDirectory(s.v, d).Some?
    ensures var lines := ListDirectory(s.v, d).value;
            var t := View(s.v);
      && (forall j, k :: 0 <= j < k < |lines| ==> lines[j].name != lines[k].name)
      && (forall b, n :: Line(b, n) in lines <==>
            n in t[d].entries && t[d].entries[n] in t && b == t[t[d].entries[n]].Dir?)
  {
    hide StoreOk, TreeOk, View, Kinds.Kinds, ListFrom, KindsRight, Agreement, Recorded;
    var owner: Owners, home: Homes :| SaneWith(s, owner, home);
    StoreOkFacts(s.v, owner, d);
    ViewFacts(s.v, d);
    ListingKinds(s.v, owner, d);
    var lines := ListDirectory(s.v, d).value;
    forall b, n
      ensures Line(b, n) in lines <==>
        && n in View(s.v)[d].entries && View(s.v)[d].entries[n] in View(s.v)
        && b == View(s.v)[View(s.v)[d].entries[n]].Dir?
    {
      if n in View(s.v)[d].entries {
        KindsMean(s, d, n);
      }
    }
  }

  lemma ListingKinds(v: Volume, owner: Owners, d: nat)
    requires StoreOk(v, owner) && Active(v, d) && InodeOf(v, d).IsDir()
    ensures ListDirectory(v, d).Some? && Lists(ListDirectory(v, d).value, Kinds.Kinds(v, d))
    ensures d in View(v) && View(v)[d].Dir? && View(v)[d].entries.Keys == Kinds.Kinds(v, d).Keys
  {
    hide StoreOk, View, ListFrom, Lists, DirBlocks, KindsOf, NamesOf, WellFormed, Agreement, Recorded;
    StoreOkFacts(v, owner, d);
    ViewFacts(v, d);
    var node := InodeOf(v, d);
    assert DirBlocks(v, node)[0..] == DirBlocks(v, node);
    ListFromIs(v, owner, d, node, 0);
    SameKeys(DirBlocks(v, node));
  }

  // ---- the code ----

  /** The inner loop of ext2_print_dir_contents over the block in the buffer. */
  method ListBuffer(e: Ext2) returns (lines: seq<Line>)
    requires e.geo.blockSize <= e.blockBuffer.Length
    ensures lines == ListIn(e.Buffer())
  {
    hide RecInode, RecLen, NameLen, KindOf, RecName;
    ghost var s := e.Buffer();
    var size := e.geo.blockSize;
    var offset := 0;
    lines := [];
    assert s[0..] == s;
    while offset + 8 <= size
      invariant offset <= size && ListIn(s) == lines + ListIn(s[offset..])
      decreases size - offset
    {
      var entry := e.blockBuffer[offset..size];
      assert entry == s[offset..];
      var valid := e.CheckRecord(entry);
      if !valid {
        break;
      }
      if RecInode(entry) != 0 {
        lines := lines + [Line(KindOf(entry) == EXT2_FT_DIR, RecName(entry))];
      }
      assert Rest(entry) == s[offset + RecLen(entry)..];
      offset := offset + RecLen(entry);
    }
  }

  lemma NothingMore(lines: seq<Line>)
    ensures lines + [] == lines
  {
  }

  /** One pass of the outer loop. */
  lemma ListFromAt(v: Volume, node: Inode, l: nat)
    requires Shape(v) && node.Fits()
    ensures l >= BlockCount(v, node.size) ==> ListFrom(v, node, l) == []
    ensures l < BlockCount(v, node.size) ==>
      var b := Mapped(v, node, l);
      ListFrom(v, node, l) == if b == 0 || !Plain(v, b) then [] else ListIn(v.store[b]) + ListFrom(v, node, l + 1)
  {
    hide Mapped, BlockCount, ListIn;
  }

  /** ext2_print_dir_contents: the lines it prints, or None for the error message. */
  method PrintDirContents(e: Ext2, dir: nat) returns (lines: Option<seq<Line>>)
    requires e.Valid()
    requires ValidInode(e.Vol(), dir) && InodeOf(e.Vol(), dir).IsDir() ==>
      FileWalkable(e.Vol(), InodeOf(e.Vol(), dir), BlockCount(e.Vol(), InodeOf(e.Vol(), dir).size))
    modifies e.blockBuffer, e.inodeBuffer
    ensures lines == ListDirectory(e.Vol(), dir)
  {
    hide Agreement, Ext2.Ready, Ext2.Vol, Shape, Mapped, PathWalkable, FileWalkable, Plain, ListIn, ListFrom;
    ghost var v := e.Vol();
    e.VolFacts();
    e.BufferFits();
    var ok, node := e.ReadInode(dir);
    if !ok || !node.IsDir() {
      return None;
    }
    BlockCountSize(v);
    var blocks := Geometry.CeilDiv(node.size, e.geo.blockSize);
    var logical, shown := 0, [];
    while logical < blocks
      invariant logical <= blocks && ListFrom(v, node, 0) == shown + ListFrom(v, node, logical)
    {
      WalkableAt(v, node, blocks, logical);
      var physical;
      ok, physical := e.LoadLogical(node, logical);
      if !ok {
        ListFromAt(v, node, logical);
        NothingMore(shown);
        return Some(shown);
      }
      var more := ListBuffer(e);
      ListFromAt(v, node, logical);
      shown, logical := shown + more, logical + 1;
    }
    ListFromAt(v, node, blocks);
    NothingMore(shown);
    return Some(shown);
  }
}
