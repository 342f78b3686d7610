/** Single steps of the loops of kernel/ext2.c, as equations about the functions that specify the loops,
    and the condition under which following a pointer never reads fixed metadata. */
module Steps {
  import opened Bytes
  import opened Geometry
  import opened Volumes
  import opened PointerTree
  import opened Ownership
  import opened Files
  import opened DirBlock
  import opened Directories
  import opened FileSystem
  import opened Release
  import opened Paths
  import opened Trees
  import opened Runs

  // ---- pointers that stay out of fixed metadata ----

  /** Following this pointer reads a block of some file, or fails. */
  predicate Walkable(v: Volume, b: nat) {
    b == 0 || b >= |v.store| || Plain(v, b)
  }

  /** None of the tables on the way to a logical block is fixed metadata. */
  predicate PathWalkable(v: Volume, node: Inode, logical: nat)
    requires Shape(v) && node.Fits()
  {
    var p := Pointers(v);
    if logical < 12 then true
    else if logical - 12 < p then Walkable(v, node.indirect)
    else if logical - 12 - p < p * p then
      Walkable(v, node.doubly) && PointerWalkable(v, PointerTree.ReadPointer(v, node.doubly, Top(v, logical)))
    else TripleWalkable(v, node, logical - 12 - p - p * p)
  }

  predicate TripleWalkable(v: Volume, node: Inode, m: nat)
    requires Shape(v)
  {
    var p := Pointers(v);
    var first := PointerTree.ReadPointer(v, node.triply, m / (p * p));
    && Walkable(v, node.triply) && PointerWalkable(v, first)
    && (first.Some? ==> PointerWalkable(v, PointerTree.ReadPointer(v, first.value, m / p % p)))
  }

  predicate PointerWalkable(v: Volume, p: Option<nat>) {
    p.Some? ==> Walkable(v, p.value)
  }

  /** Neither the tables nor the first `n` blocks of a file are fixed metadata. */
  predicate FileWalkable(v: Volume, node: Inode, n: nat)
    requires Shape(v) && node.Fits()
  {
    forall l :: 0 <= l < n ==> PathWalkable(v, node, l) && Walkable(v, Mapped(v, node, l))
  }

  lemma WalkableAt(v: Volume, node: Inode, n: nat, l: nat)
    requires Shape(v) && node.Fits() && FileWalkable(v, node, n) && l < n
    ensures PathWalkable(v, node, l) && Walkable(v, Mapped(v, node, l))
  {
    hide PathWalkable, Mapped;
  }

  lemma TreeWalkable(v: Volume, owner: Owners, i: nat, node: Inode, n: nat)
    requires Shape(v) && node.Fits() && FileTree(v, owner, i, node, n)
    ensures FileWalkable(v, node, n)
  {
    hide Mapped, Word;
    forall l | 0 <= l < n
      ensures PathWalkable(v, node, l) && Walkable(v, Mapped(v, node, l))
    {
      assert Holds(v, owner, Mapped(v, node, l), Data(i, l));
      TablesWalkable(v, owner, i, node, l);
    }
  }

  lemma TablesWalkable(v: Volume, owner: Owners, i: nat, node: Inode, l: nat)
    requires Shape(v) && node.Fits() && Tables(v, owner, i, node) && l < MaxLogical(v)
    ensures PathWalkable(v, node, l)
  {
    hide Word;
    if 12 + Pointers(v) <= l && node.doubly != 0 {
      TopLow(v, l);
      assert ChildHeld(v, owner, i, node.doubly, Top(v, l));
    }
  }

  // ---- allocation ----

  predicate TookBlock(v: Volume, w: Volume, group: nat, b: nat)
    requires Shape(v)
  {
    v.geo.firstDataBlock <= b < v.geo.blocksCount && GroupOf(v.geo, b) == group < v.geo.groupCount
      && w == TakeBlock(v, b)
  }

  predicate TookInode(v: Volume, w: Volume, group: nat, i: nat)
    requires Shape(v)
  {
    ValidInode(v, i) && InodeGroupOf(v.geo, i - 1) == group < v.geo.groupCount && w == TakeInode(v, i)
  }

  lemma FreeBlockRange(v: Volume, b: nat)
    requires Shape(v)
    ensures v.geo.firstDataBlock <= b < v.geo.blocksCount ==> GroupOf(v.geo, b) < v.geo.groupCount
    ensures !(v.geo.firstDataBlock <= b < v.geo.blocksCount) ==> FreeBlock(v, b) == v
  {
    if v.geo.firstDataBlock <= b < v.geo.blocksCount {
      GroupOfBlock(v.geo, b, 0);
    }
  }

  /** Putting a patched piece back is patching the whole. */
  lemma SpliceSame(s: seq<Byte>, o: nat, record: seq<Byte>, part: seq<Byte>)
    requires o + |part| <= |s| && |record| <= |part| && part == record + s[o..o + |part|][|record|..]
    ensures Splice(s, o, part) == Splice(s, o, record)
  {
  }

  lemma StoreAgreement(v: Volume, b: nat, x: Block)
    requires Shape(v) && Agreement(v) && Plain(v, b) && |x| == v.geo.blockSize
    ensures Shape(StoreBlock(v, b, x)) && Agreement(StoreBlock(v, b, x))
  {
  }

  /** What an allocation leaves as it was. */
  lemma AllocationFacts(v: Volume)
    requires Shape(v) && Agreement(v)
    ensures var a := Volumes.AllocateBlock(v);
      && |a.v.store| == |v.store| && a.v.geo == v.geo
      && (forall b :: 0 <= b < |v.store| ==> |a.v.store[b]| == |v.store[b]|)
      && (a.found.Some? ==>
            0 < a.found.value < v.geo.blocksCount < 0x8000_0000 && Plain(a.v, a.found.value)
            && a.v.store == v.store[a.found.value := Zeros(v.geo.blockSize)])
      && (a.found.None? ==> a.v == v)
  {
    AllocateBlockLowest(v);
  }

  /** The four regions of inode_block. */
  lemma WalkRules(v: Volume, node: Inode, logical: nat)
    requires Shape(v) && node.Fits() && PathWalkable(v, node, logical)
    ensures Pointers(v) == v.geo.blockSize / 4 > 0
    ensures logical < 12 ==> PointerTree.InodeBlock(v, node, logical) == Some(node.direct[logical])
    ensures 12 <= logical < 12 + Pointers(v) ==>
      && Walkable(v, node.indirect)
      && PointerTree.InodeBlock(v, node, logical) == PointerTree.ReadPointer(v, node.indirect, logical - 12)
    ensures 12 + Pointers(v) <= logical < 12 + Pointers(v) + Pointers(v) * Pointers(v) ==>
      var rest := logical - 12 - Pointers(v);
      var first := PointerTree.ReadPointer(v, node.doubly, rest / Pointers(v));
      && Walkable(v, node.doubly) && PointerWalkable(v, first) && rest % Pointers(v) >= 0
      && PointerTree.InodeBlock(v, node, logical)
         == (match first case None => None case Some(f) => PointerTree.ReadPointer(v, f, rest % Pointers(v)))
    ensures 12 + Pointers(v) + Pointers(v) * Pointers(v) <= logical ==>
      var rest := logical - 12 - Pointers(v) - Pointers(v) * Pointers(v);
      && TripleWalkable(v, node, rest) && PointerTree.InodeBlock(v, node, logical) == TripleBlock(v, node, rest)
  {
    hide PointerTree.ReadPointer, TripleBlock, TripleWalkable;
  }

  lemma FreshTable(v: Volume, b: nat, index: nat)
    requires Shape(v) && Plain(v, b) && v.store[b] == Zeros(v.geo.blockSize) && index < Pointers(v)
    ensures PointerWalkable(v, PointerTree.ReadPointer(v, b, index))
  {
    WordOfZeros(v.geo.blockSize, index);
  }

  /** The regions of set_inode_block. */
  lemma SetRules(v: Volume, node: Inode, logical: nat, physical: nat)
    requires Shape(v) && node.Fits() && physical < 0x1_0000_0000
    ensures var p := Pointers(v);
      && p == v.geo.blockSize / 4 > 0 && MaxLogical(v) == 12 + p + p * p
    ensures logical < 12 ==>
      PointerTree.SetInodeBlock(v, node, logical, physical)
        == Growth(v, node.(direct := node.direct[logical := physical]), true)
    ensures 12 <= logical < 12 + Pointers(v) ==>
      var a := PointerTree.EnsureBlock(v, node.indirect);
      PointerTree.SetInodeBlock(v, node, logical, physical)
      == if a.found.None? then Growth(a.v, node, false)
         else WritePointer(a.v, node.(indirect := a.found.value), a.found.value, logical - 12, physical)
    ensures 12 + Pointers(v) <= logical < MaxLogical(v) ==>
      var rest := logical - 12 - Pointers(v);
      var a := PointerTree.EnsureBlock(v, node.doubly);
      && rest / Pointers(v) < Pointers(v) && rest % Pointers(v) < Pointers(v)
      && PointerTree.SetInodeBlock(v, node, logical, physical)
      == if a.found.None? then Growth(a.v, node, false)
         else
           var c := PointerTree.EnsureChild(a.v, a.found.value, rest / Pointers(v));
           if c.found.None? then Growth(c.v, node.(doubly := a.found.value), false)
           else WritePointer(c.v, node.(doubly := a.found.value), c.found.value, rest % Pointers(v), physical)
    ensures MaxLogical(v) <= logical ==>
      PointerTree.SetInodeBlock(v, node, logical, physical) == Growth(v, node, false)
  {
    hide PointerTree.EnsureBlock, PointerTree.EnsureChild, WritePointer;
    if 12 + Pointers(v) <= logical < MaxLogical(v) {
      TopLow(v, logical);
    }
  }

  /** One pass of the reading loop. */
  lemma ReadFromAt(v: Volume, node: Inode, done: nat, wanted: nat)
    requires Shape(v) && node.Fits() && done < wanted
    ensures v.geo.blockSize > 0 && 0 < Min(wanted - done, v.geo.blockSize - done % v.geo.blockSize)
    ensures var b := Mapped(v, node, done / v.geo.blockSize);
            var offset := done % v.geo.blockSize;
            var amount := Min(wanted - done, v.geo.blockSize - offset);
      ReadFrom(v, node, done, wanted)
      == if b == 0 || !Plain(v, b) then None
         else match ReadFrom(v, node, done + amount, wanted) {
           case None => None
           case Some(rest) => Some(v.store[b][offset..offset + amount] + rest)
         }
  {
    hide Mapped;
    DivMod(done, v.geo.blockSize);
  }

  lemma ReadFromEnd(v: Volume, node: Inode, wanted: nat, was: seq<Byte>)
    requires Shape(v) && node.Fits()
    ensures Ahead(was, ReadFrom(v, node, wanted, wanted)) == Some(was)
  {
    assert was + [] == was;
  }

  /** What has been read, followed by the rest. */
  function Ahead(was: seq<Byte>, rest: Option<seq<Byte>>): Option<seq<Byte>> {
    match rest
    case None => None
    case Some(r) => Some(was + r)
  }

  lemma AheadOfNone(was: seq<Byte>)
    ensures Ahead(was, None) == None
  {
  }

  lemma NothingAhead(rest: Option<seq<Byte>>, was: seq<Byte>)
    requires was == []
    ensures Ahead(was, rest) == rest
  {
    assert rest.Some? ==> was + rest.value == rest.value;
  }

  /** What was read moves from the rest to the front. */
  lemma RestMoves(v: Volume, node: Inode, done: nat, amount: nat, wanted: nat, was: seq<Byte>, now: seq<Byte>, b: nat)
    requires Shape(v) && node.Fits() && done < wanted && Plain(v, b) && b != 0
    requires b == Mapped(v, node, done / v.geo.blockSize)
    requires v.geo.blockSize > 0 && amount == Min(wanted - done, v.geo.blockSize - done % v.geo.blockSize) && 0 < amount
    requires now == was + v.store[b][done % v.geo.blockSize..done % v.geo.blockSize + amount]
    ensures Ahead(was, ReadFrom(v, node, done, wanted)) == Ahead(now, ReadFrom(v, node, done + amount, wanted))
  {
    hide Mapped, ReadFrom;
    ReadFromAt(v, node, done, wanted);
    var next := ReadFrom(v, node, done + amount, wanted);
    if next.Some? {
      var part := v.store[b][done % v.geo.blockSize..done % v.geo.blockSize + amount];
      assert was + (part + next.value) == (was + part) + next.value;
    }
  }

  /** One pass of the growing loop. */
  lemma GrowFileAt(v: Volume, node: Inode, from: nat, upto: nat)
    requires Shape(v) && node.Fits()
    ensures from >= upto ==> Files.GrowFile(v, node, from, upto) == Growth(v, node, true)
    ensures from < upto ==>
      var a := Volumes.AllocateBlock(v);
      Files.GrowFile(v, node, from, upto)
      == if a.found.None? then Growth(a.v, node, false)
         else
           var r := PointerTree.SetInodeBlock(a.v, node, from, a.found.value);
           if !r.ok then r else Files.GrowFile(r.v, r.node, from + 1, upto)
  {
    hide Volumes.AllocateBlock, PointerTree.SetInodeBlock;
  }

  lemma SameMaximum(v: Volume, w: Volume)
    requires Shape(v) && Shape(w) && v.geo == w.geo
    ensures MaxLogical(v) == MaxLogical(w) && Pointers(v) == Pointers(w)
  {
  }

  /** One pass of the filling loop. */
  lemma FillFileAt(v: Volume, node: Inode, buf: seq<Byte>, l: nat)
    requires Shape(v) && node.Fits()
    ensures l >= BlockCount(v, |buf|) ==> Files.FillFile(v, node, buf, l) == Outcome(v, true)
    ensures l < BlockCount(v, |buf|) ==>
      var b := Mapped(v, node, l);
      && l * v.geo.blockSize <= |buf|
      && Files.FillFile(v, node, buf, l)
         == if b == 0 || !Plain(v, b) then Outcome(v, false)
            else Files.FillFile(StoreBlock(v, b, Chunk(v.geo.blockSize, buf, l)), node, buf, l + 1)
  {
    hide Mapped, BlockCount;
    if l < BlockCount(v, |buf|) {
      StartOfBlock(v, |buf|, l);
    }
  }

  /** The part of the caller's buffer that goes into logical block `l`. */
  function Piece(blockSize: nat, buf: seq<Byte>, l: nat): seq<Byte>
    requires l * blockSize <= |buf|
  {
    var start := l * blockSize;
    buf[start..start + Min(|buf| - start, blockSize)]
  }

  lemma ChunkIsPiece(blockSize: nat, buf: seq<Byte>, l: nat)
    requires l * blockSize <= |buf|
    ensures |Piece(blockSize, buf, l)| <= blockSize
    ensures Splice(Zeros(blockSize), 0, Piece(blockSize, buf, l)) == Chunk(blockSize, buf, l)
  {
  }

  lemma BlockCountSize(v: Volume)
    requires Shape(v)
    ensures v.geo.blockSize > 0 && forall size: nat :: BlockCount(v, size) == CeilDiv(size, v.geo.blockSize)
  {
    hide CeilDiv;
  }

  lemma InodeAgreement(v: Volume, i: nat, node: Inode)
    requires Shape(v) && Agreement(v) && ValidInode(v, i) && node.Fits()
    ensures Shape(WithInode(v, i, node)) && Agreement(WithInode(v, i, node))
    ensures WithInode(v, i, node) == v.(inodes := v.inodes[i - 1 := node])
  {
  }

  lemma SameCounts(v: Volume, w: Volume, node: Inode, size: nat)
    requires Shape(v) && Shape(w) && v.geo == w.geo && node.Fits()
    ensures BlockCount(v, size) == BlockCount(w, size)
    ensures size < 0x8000_0000 ==> Written(v, node, size) == Written(w, node, size)
  {
  }

  lemma FillKeeps(v: Volume, node: Inode, buf: seq<Byte>)
    requires Shape(v) && node.Fits()
    ensures Files.FillFile(v, node, buf, 0).v.geo == v.geo
  {
  }

  /** The outcomes of ext2_write_file. */
  lemma WriteRules(v: Volume, i: nat, buf: seq<Byte>)
    requires Shape(v) && |buf| < 0x8000_0000
    ensures !ValidInode(v, i) || !InodeOf(v, i).IsFile() ==> Files.WriteFile(v, i, buf) == Outcome(v, false)
    ensures ValidInode(v, i) && (|buf| < InodeOf(v, i).size || BlockCount(v, |buf|) > MaxLogical(v)) ==>
      Files.WriteFile(v, i, buf) == Outcome(v, false)
    ensures ValidInode(v, i) && InodeOf(v, i).IsFile() ==>
      InodeOf(v, i).size <= |buf| && BlockCount(v, |buf|) <= MaxLogical(v) ==>
      var g := Files.GrowFile(v, InodeOf(v, i), BlockCount(v, InodeOf(v, i).size), BlockCount(v, |buf|));
      var f := Files.FillFile(g.v, g.node, buf, 0);
      Files.WriteFile(v, i, buf)
      == if !g.ok then Outcome(g.v, false)
         else if !f.ok then f
         else Outcome(WithInode(f.v, i, Written(v, g.node, |buf|)), true)
  {
    hide Files.GrowFile, Files.FillFile, BlockCount, MaxLogical, Written;
  }

  // ---- directory loops ----

  /** One pass of the lookup loop. */
  lemma FindFromAt(v: Volume, node: Inode, name: Name, l: nat)
    requires Shape(v) && node.Fits()
    ensures l >= BlockCount(v, node.size) ==> FindFrom(v, node, name, l) == None
    ensures l < BlockCount(v, node.size) ==>
      var b := Mapped(v, node, l);
      && l * v.geo.blockSize <= node.size
      && FindFrom(v, node, name, l)
         == if b == 0 || !Plain(v, b) then None
            else
              var r := FindIn(v.store[b][..Min(v.geo.blockSize, node.size - l * v.geo.blockSize)], name);
              if r.Some? then r else FindFrom(v, node, name, l + 1)
  {
    hide Mapped, BlockCount, FindIn;
    if l < BlockCount(v, node.size) {
      StartOfBlock(v, node.size, l);
    }
  }

  /** The stores that reuse a record. */
  lemma ReuseFields(s: seq<Byte>, offset: nat, inode: nat, name: Name, kind: Byte)
    requires offset <= |s| && Addable(inode, name) && ValidRec(s[offset..]) && RecLen(s[offset..]) >= 8 + |name|
    ensures Splice(Splice(Splice(Splice(s, offset, Le32(inode)), offset + 6, [|name|]), offset + 7, [kind]),
                   offset + 8, name)
         == s[..offset] + Reuse(s[offset..], inode, name, kind)
  {
    hide Le32, Le16, Splice, Record;
    var t := s[offset..];
    var length: seq<Byte> := [|name|];
    SpliceJoins(Splice(s, offset, Le32(inode)), offset + 6, length, [kind]);
    SpliceJoins(Splice(s, offset, Le32(inode)), offset + 6, length + [kind], name);
    SpliceAround(s, offset, Le32(inode), 2, length + [kind] + name);
    RecordParts(s, offset, inode, name, kind);
    SpliceBehind(s, offset, Record(inode, RecLen(t), name, kind));
  }

  lemma RecordParts(s: seq<Byte>, offset: nat, inode: nat, name: Name, kind: Byte)
    requires offset <= |s| && Addable(inode, name) && |s[offset..]| >= 8
    ensures var length: seq<Byte> := [|name|];
      Record(inode, RecLen(s[offset..]), name, kind)
        == Le32(inode) + s[offset + 4..offset + 6] + (length + [kind] + name)
  {
    hide Le32;
    var t := s[offset..];
    assert Le16(RecLen(t)) == [t[4], t[5]] == s[offset + 4..offset + 6];
  }

  /** Two stores side by side are one. */
  lemma SpliceJoins(s: seq<Byte>, o: nat, a: seq<Byte>, b: seq<Byte>)
    requires o + |a| + |b| <= |s|
    ensures Splice(Splice(s, o, a), o + |a|, b) == Splice(s, o, a + b)
  {
  }

  /** Two stores with `gap` bytes between them, which stay. */
  lemma SpliceAround(s: seq<Byte>, o: nat, a: seq<Byte>, gap: nat, b: seq<Byte>)
    requires o + |a| + gap + |b| <= |s|
    ensures Splice(Splice(s, o, a), o + |a| + gap, b) == Splice(s, o, a + s[o + |a|..o + |a| + gap] + b)
  {
  }

  /** The stores that split a record. */
  lemma SplitFields(s: seq<Byte>, offset: nat, actual: nat, inode: nat, name: Name, kind: Byte)
    requires offset <= |s| && Addable(inode, name) && ValidRec(s[offset..])
    requires 8 <= actual && RecLen(s[offset..]) >= actual + 8 + |name|
    ensures Splice(Splice(s, offset + 4, Le16(actual)), offset + actual,
                   Record(inode, RecLen(s[offset..]) - actual, name, kind))
         == s[..offset] + Split(s[offset..], actual, inode, name, kind)
  {
    hide Record, Le16;
  }

  /** One pass of the loop that looks for room. */
  lemma AddInAt(s: seq<Byte>, offset: nat, inode: nat, name: Name, kind: Byte)
    requires offset <= |s| && Addable(inode, name)
    ensures var t := s[offset..];
      && (ValidRec(t) ==> NameLen(t) <= EXT2_MAX_NAME_LEN && offset + RecLen(t) <= |s| && RecLen(t) > 0)
      && (ValidRec(t) && !Live(t) && RecLen(t) >= Required(|name|) ==>
            RecLen(t) >= 8 + |name| && AddIn(t, inode, name, kind) == Some(Reuse(t, inode, name, kind)))
      && (ValidRec(t) && Live(t) && RecLen(t) >= Required(NameLen(t)) + Required(|name|) ==>
            && 8 <= Required(NameLen(t)) && RecLen(t) >= Required(NameLen(t)) + 8 + |name|
            && AddIn(t, inode, name, kind) == Some(Split(t, Required(NameLen(t)), inode, name, kind)))
      && (ValidRec(t) && !(!Live(t) && RecLen(t) >= Required(|name|))
          && !(Live(t) && RecLen(t) >= Required(NameLen(t)) + Required(|name|)) ==>
            Ahead(s[..offset], AddIn(t, inode, name, kind))
            == Ahead(s[..offset + RecLen(t)], AddIn(s[offset + RecLen(t)..], inode, name, kind)))
  {
    hide RecInode, RecLen, Reuse, Split;
    var t := s[offset..];
    if ValidRec(t) {
      assert Rest(t) == s[offset + RecLen(t)..];
      var rest := AddIn(Rest(t), inode, name, kind);
      assert rest.Some? ==> s[..offset] + (t[..RecLen(t)] + rest.value) == s[..offset + RecLen(t)] + rest.value;
    }
  }

  lemma AddInStops(s: seq<Byte>, offset: nat, inode: nat, name: Name, kind: Byte)
    requires offset <= |s| && Addable(inode, name) && !ValidRec(s[offset..])
    ensures Ahead(s[..offset], AddIn(s[offset..], inode, name, kind)) == None
  {
  }

  /** One pass of the loop of add_directory_entry. */
  lemma AddFromAt(v: Volume, node: Inode, inode: nat, name: Name, kind: Byte, l: nat)
    requires Shape(v) && node.Fits() && Addable(inode, name)
    ensures l >= BlockCount(v, node.size) ==>
      AddFrom(v, node, inode, name, kind, l) == AddBlock(v, node, inode, name, kind)
    ensures l < BlockCount(v, node.size) ==>
      var b := Mapped(v, node, l);
      && (b == 0 || !Plain(v, b) ==> AddFrom(v, node, inode, name, kind, l) == Growth(v, node, false))
      && (b != 0 && Plain(v, b) ==>
            match AddIn(v.store[b], inode, name, kind)
            case None => AddFrom(v, node, inode, name, kind, l) == AddFrom(v, node, inode, name, kind, l + 1)
            case Some(x) =>
              && |x| == v.geo.blockSize
              && AddFrom(v, node, inode, name, kind, l) == Growth(StoreBlock(v, b, x), node, true))
  {
    hide Mapped, BlockCount, AddIn, AddBlock;
    if l < BlockCount(v, node.size) {
      var b := Mapped(v, node, l);
      if b != 0 && Plain(v, b) && AddIn(v.store[b], inode, name, kind).Some? {
        AddInLength(v.store[b], inode, name, kind);
      }
    }
  }

  lemma DirectWalkable(v: Volume, node: Inode, l: nat)
    requires Shape(v) && node.Fits() && l < 12
    ensures PathWalkable(v, node, l)
  {
  }

  /** The outcomes of appending a block to a directory. */
  lemma AddBlockRules(v: Volume, node: Inode, inode: nat, name: Name, kind: Byte)
    requires Shape(v) && node.Fits() && Addable(inode, name)
    ensures BlockCount(v, node.size) >= 12 ==> AddBlock(v, node, inode, name, kind) == Growth(v, node, false)
    ensures BlockCount(v, node.size) < 12 ==>
      var a := Volumes.AllocateBlock(v);
      && (a.found.None? ==> AddBlock(v, node, inode, name, kind) == Growth(a.v, node, false))
      && (a.found.Some? ==>
            var r := PointerTree.SetInodeBlock(a.v, node, BlockCount(v, node.size), a.found.value);
            r.ok && Plain(r.v, a.found.value) ==>
              && 8 + |name| <= v.geo.blockSize < 0x1_0000 && node.size + v.geo.blockSize < 0x1_0000_0000
              && AddBlock(v, node, inode, name, kind)
                 == Growth(StoreBlock(r.v, a.found.value,
                                      Splice(Zeros(v.geo.blockSize), 0, Record(inode, v.geo.blockSize, name, kind))),
                           r.node.(size := node.size + v.geo.blockSize,
                                   blocks := (node.blocks + v.geo.blockSize / 512) % 0x1_0000_0000),
                           true))
  {
    hide BlockCount, Volumes.AllocateBlock, PointerTree.SetInodeBlock, Record;
    if BlockCount(v, node.size) < 12 {
      SmallSize(v, node.size);
    }
  }

  /** One pass of the loop that looks for the record of a name. */
  lemma RemoveInAt(s: seq<Byte>, offset: nat, name: Name)
    requires offset <= |s|
    ensures var t := s[offset..];
      ValidRec(t) ==>
        && offset + RecLen(t) <= |s| && RecLen(t) > 0
        && (if Live(t) && RecName(t) == name then RemoveIn(t, name) == Some(Splice(t, 0, Le32(0)))
            else Ahead(s[..offset], RemoveIn(t, name))
                 == Ahead(s[..offset + RecLen(t)], RemoveIn(s[offset + RecLen(t)..], name)))
  {
    hide RecInode, RecLen, Splice;
    var t := s[offset..];
    if ValidRec(t) {
      assert Rest(t) == s[offset + RecLen(t)..];
      var rest := RemoveIn(Rest(t), name);
      assert rest.Some? ==> s[..offset] + (t[..RecLen(t)] + rest.value) == s[..offset + RecLen(t)] + rest.value;
    }
  }

  lemma RemoveInStops(s: seq<Byte>, offset: nat, name: Name)
    requires offset <= |s| && !ValidRec(s[offset..])
    ensures Ahead(s[..offset], RemoveIn(s[offset..], name)) == None
  {
  }

  lemma SpliceBehind(s: seq<Byte>, offset: nat, part: seq<Byte>)
    requires offset + |part| <= |s|
    ensures Splice(s, offset, part) == s[..offset] + Splice(s[offset..], 0, part)
  {
  }

  /** One pass of the loop of remove_directory_entry. */
  lemma RemoveFromAt(v: Volume, node: Inode, name: Name, l: nat)
    requires Shape(v) && node.Fits()
    ensures l >= BlockCount(v, node.size) ==> RemoveFrom(v, node, name, l) == Outcome(v, false)
    ensures l < BlockCount(v, node.size) ==>
      var b := Mapped(v, node, l);
      && (b == 0 || !Plain(v, b) ==> RemoveFrom(v, node, name, l) == Outcome(v, false))
      && (b != 0 && Plain(v, b) ==>
            match RemoveIn(v.store[b], name)
            case None => RemoveFrom(v, node, name, l) == RemoveFrom(v, node, name, l + 1)
            case Some(x) =>
              && |x| == v.geo.blockSize
              && RemoveFrom(v, node, name, l) == Outcome(StoreBlock(v, b, x), true))
  {
    hide Mapped, BlockCount, RemoveIn;
    if l < BlockCount(v, node.size) {
      var b := Mapped(v, node, l);
      if b != 0 && Plain(v, b) && RemoveIn(v.store[b], name).Some? {
        RemoveInLength(v.store[b], name);
      }
    }
  }

  // ---- creating ----

  lemma LiveWalkable(v: Volume, owner: Owners, i: nat)
    requires StoreOk(v, owner) && i in View(v)
    ensures Shape(v) && Agreement(v) && ValidInode(v, i) && Active(v, i)
    ensures Recorded(v, owner) && FileAt(v, owner, i) && InodeOf(v, i).Fits()
    ensures FileWalkable(v, InodeOf(v, i), BlockCount(v, InodeOf(v, i).size))
  {
    hide View, Sound, Agreement, FileTree, FileWalkable, DirOk;
    StoreOkFacts(v, owner, i);
    ViewFacts(v, i);
    TreeWalkable(v, owner, i, InodeOf(v, i), BlockCount(v, InodeOf(v, i).size));
  }

  lemma InodeAllocationFacts(v: Volume)
    requires Shape(v) && Agreement(v)
    ensures var a := Volumes.AllocateInode(v);
      && a.v.geo == v.geo && a.v.store == v.store && a.v.inodes == v.inodes && (a.found.None? ==> a.v == v)
      && (a.found.Some? ==> 0 < a.found.value < 0x1_0000_0000 && ValidInode(v, a.found.value))
  {
    AllocateInodeLowest(v);
  }

  /** The same store is walkable in the same way. */
  lemma WalkableSame(v: Volume, w: Volume, node: Inode)
    requires Shape(v) && Shape(w) && w.geo == v.geo && w.store == v.store && node.Fits()
    requires FileWalkable(v, node, BlockCount(v, node.size))
    ensures FileWalkable(w, node, BlockCount(w, node.size))
  {
    hide PathWalkable, Mapped, Walkable;
    forall l | 0 <= l < BlockCount(w, node.size)
      ensures PathWalkable(w, node, l) && Walkable(w, Mapped(w, node, l))
    {
      WalkableAt(v, node, BlockCount(v, node.size), l);
      PathSame(v, w, node, l);
    }
  }

  lemma PathSame(v: Volume, w: Volume, node: Inode, l: nat)
    requires Shape(v) && Shape(w) && w.geo == v.geo && w.store == v.store && node.Fits()
    ensures PathWalkable(w, node, l) == PathWalkable(v, node, l) && Mapped(w, node, l) == Mapped(v, node, l)
    ensures Walkable(w, Mapped(w, node, l)) == Walkable(v, Mapped(v, node, l))
  {
    hide Word;
    forall b: nat, k: nat
      ensures PointerTree.ReadPointer(w, b, k) == PointerTree.ReadPointer(v, b, k)
    {
    }
  }

  /** The parent can still be walked once the new directory is written. */
  lemma NewDirectoryWalkable(v: Volume, owner: Owners, a: Volume, cur: nat, self: nat, uid: nat)
    requires StoreOk(v, owner) && cur in View(v) && Agreement(v) && Shape(v)
    requires Volumes.AllocateInode(v) == Allocation(a, Some(self)) && Shape(a)
    requires Volumes.AllocateBlock(a).found.Some?
    ensures var b := Volumes.AllocateBlock(a);
            var w := NewDirectory(b.v, self, cur, uid, b.found.value);
      && ValidInode(b.v, self) && ValidInode(b.v, cur) && ValidInode(v, cur) && Plain(b.v, b.found.value)
      && b.found.value < 0x1_0000_0000 && 0 < self < 0x1_0000_0000
      && FileWalkable(w, InodeOf(v, cur), BlockCount(w, InodeOf(v, cur).size))
  {
    hide Agreement, Mapped, StoreOk, View, Volumes.AllocateInode, Volumes.AllocateBlock, NewDirectory, Sound,
      NewDirNode, FileWalkable, Shape;
    LiveWalkable(v, owner, cur);
    AllocateInodeLowest(v);
    TakeInodeStep(v, owner, self);
    InodesAfterTake(v, self);
    StoreOkFacts(a, owner, cur);
    AllocationFacts(a);
    var owner' := NewDirectoryStep(a, owner, self, cur, uid);
    var b := Volumes.AllocateBlock(a);
    var w := NewDirectory(b.v, self, cur, uid, b.found.value);
    InodeBounds(v, self);
    StoreOkFacts(w, owner', cur);
    ViewFacts(v, cur);
    ViewFacts(a, cur);
    ViewFacts(w, cur);
    LiveWalkable(w, owner', cur);
  }

  // ---- paths ----

  /** One pass of the component loop. */
  lemma ResolveAt(v: Volume, i: nat, path: Path)
    requires Shape(v)
    ensures var c := NextComponent(path);
      Resolve(v, i, path)
      == if c.Done? then Some(i)
         else if c.TooLong? then None
         else if c.name == DOT then Resolve(v, i, c.rest)
         else
           var child := FindInDir(v, i, c.name);
           if child.None? then None else Resolve(v, child.value, c.rest)
  {
    hide FindInDir, NextComponent;
  }

  lemma NextIsComponent(path: Path)
    requires path != [] && path[0] != SLASH
    ensures var n := NameLength(path);
      NextComponent(path)
      == if n > EXT2_MAX_NAME_LEN then TooLong else Paths.Component.Component(path[..n], path[n..])
  {
  }

  lemma NameGoesOn(p: Path, n: nat)
    requires n < |p| && p[n] != SLASH
    ensures NameLength(p[n..]) == 1 + NameLength(p[n + 1..]) && p[..n + 1] == p[..n] + [p[n]]
  {
    assert p[n..][1..] == p[n + 1..];
  }

  lemma NameEnds(p: Path)
    requires p == [] || p[0] == SLASH
    ensures NameLength(p) == 0
  {
  }

  lemma NextShortens(path: Path)
    ensures NextComponent(path).Component? ==> |NextComponent(path).rest| < |path|
  {
  }

  lemma ChildInTree(v: Volume, owner: Owners, home: Homes, i: nat, name: Name, child: nat)
    requires StoreOk(v, owner) && TreeOk(View(v), home) && i in View(v)
    requires Shape(v) && FindInDir(v, i, name) == Some(child)
    ensures child in View(v) && ValidInode(v, i) && InodeOf(v, i).IsDir()
  {
    hide StoreOk, TreeOk, View;
    assert ValidInode(v, i) && InodeOf(v, i).IsDir();
    FindSeesView(v, owner, i, name);
    EntryInTree(View(v), home, i, name);
  }

  // ---- deleting ----

  lemma HeldWalkable(v: Volume, owner: Owners, i: nat, node: Inode, n: nat)
    requires Shape(v) && node.Fits() && FileTree(v, owner, i, node, n)
    ensures FileWalkable(v, node, n) && DataFrom(v, owner, i, node, 0, n) && n <= MaxLogical(v)
  {
    hide Mapped, Tables;
    TreeWalkable(v, owner, i, node, n);
  }

  lemma OwnedUsed(v: Volume, owner: Owners, b: nat)
    requires Shape(v) && Recorded(v, owner) && b in owner
    ensures Plain(v, b) && v.used[b] && b != 0
  {
  }

  /** One pass of the loop over the data blocks. */
  lemma FreeDataAt(v: Volume, node: Inode, l: nat, n: nat)
    requires Shape(v) && node.Fits()
    ensures l >= n ==> FreeData(v, node, l, n) == v
    ensures l < n ==>
      var b := Mapped(v, node, l);
      FreeData(v, node, l, n) == FreeData(if b != 0 then Volumes.FreeBlock(v, b) else v, node, l + 1, n)
  {
    hide Mapped, Volumes.FreeBlock;
  }

  /** One pass of the loop over the listed tables. */
  lemma FreeChildrenAt(v: Volume, table: Block, k: nat)
    requires Shape(v) && |table| == v.geo.blockSize && k <= Pointers(v)
    ensures k == Pointers(v) ==> FreeChildren(v, table, k) == v
    ensures k < Pointers(v) ==>
      var c := Word(table, k);
      FreeChildren(v, table, k) == FreeChildren(if c != 0 then Volumes.FreeBlock(v, c) else v, table, k + 1)
  {
    hide Word, Volumes.FreeBlock;
  }

  lemma TablesOwned(v: Volume, owner: Owners, i: nat, node: Inode)
    requires Shape(v) && Tables(v, owner, i, node)
    ensures node.indirect != 0 ==> node.indirect in owner && owner[node.indirect] == Indirect(i)
    ensures node.doubly != 0 ==> node.doubly in owner && owner[node.doubly] == Doubly(i)
  {
  }

  /** What is left once the data blocks and the indirect table are gone. */
  lemma ChildrenStill(v: Volume, owner: Owners, i: nat, node: Inode, w: Volume, owner': Owners)
    requires Shape(v) && Shape(w) && w.store == v.store && w.geo == v.geo && Tables(v, owner, i, node)
    requires node.doubly != 0
    requires Recorded(v, owner)
    requires forall b :: b in owner && !owner[b].Data? && b != node.indirect ==> b in owner' && owner'[b] == owner[b]
    ensures Plain(w, node.doubly) && node.doubly in owner' && owner'[node.doubly] == Doubly(i)
    ensures ChildrenFrom(w, owner', i, w.store[node.doubly], 0)
  {
    hide Word;
    TablesOwned(v, owner, i, node);
    forall b | b in owner && (owner[b].Child? || owner[b].Doubly?)
      ensures b in owner' && owner'[b] == owner[b]
    {
      if node.indirect == b {
        NullUnowned(v, owner);
      }
    }
    ChildrenHeld(v, owner, i, node, w, owner');
  }

  /** The blocks of the first bytes of a file are among its blocks. */
  lemma FewerWalkable(v: Volume, node: Inode, size: nat)
    requires Shape(v) && node.Fits() && FileWalkable(v, node, BlockCount(v, node.size))
    ensures FileWalkable(v, node, BlockCount(v, Min(size, node.size)))
  {
    hide PathWalkable, Mapped;
    BlockCountMono(v, Min(size, node.size), node.size);
  }

  /** With its name gone the file still owns its blocks. */
  lemma StillOwned(v: Volume, owner: Owners, parent: nat, name: Name, file: nat, w: Volume)
    requires StoreOk(v, owner) && parent in View(v) && file in View(v) && Shape(v)
    requires ValidInode(v, parent) && InodeOf(v, parent).IsDir() && ValidInode(v, file) && InodeOf(v, file).IsFile()
    requires RemoveEntry(v, InodeOf(v, parent), name) == Outcome(w, true)
    ensures Shape(w) && Recorded(w, owner) && FileAt(w, owner, file) && InodeOf(w, file) == InodeOf(v, file)
    ensures w.geo == v.geo && w.iused == v.iused && v.iused[file - 1]
    ensures Release.FreeFile(w, InodeOf(w, file)).iused == w.iused && Release.FreeFile(w, InodeOf(w, file)).geo == w.geo
  {
    hide Agreement, StoreOk, RemoveEntry, View, Release.FreeFile, Sound;
    ViewFacts(v, parent);
    ViewFacts(v, file);
    StoreOkFacts(v, owner, file);
    RemoveStep(v, owner, parent, name);
    ViewFacts(w, file);
    StoreOkFacts(w, owner, file);
  }

  lemma PlaceOfInode(g: Geometry, z: nat)
    requires Sound(g) && z < g.inodesCount
    ensures g.inodesPerGroup > 0 && 0 <= z / g.inodesPerGroup < g.groupCount
    ensures 0 <= z % g.inodesPerGroup < g.inodesPerGroup
    ensures z == InodeStart(g, z / g.inodesPerGroup) + z % g.inodesPerGroup
  {
    DivMod(z, g.inodesPerGroup);
    GroupOfInode(g, z, 0);
  }
}
