/** The variable-length records of one directory block. A record is looked at through the part `s` of
    the block that starts with it; the next record starts rec_len bytes further on. */
module DirBlock {
  import opened Bytes

  type Name = seq<Byte>

  const EXT2_MAX_NAME_LEN := 255

  function RecInode(s: seq<Byte>): nat requires |s| >= 8 { U32(s, 0) }
  function RecLen(s: seq<Byte>): nat requires |s| >= 8 { U16(s, 4) }
  function NameLen(s: seq<Byte>): nat requires |s| >= 8 { s[6] }

  /** The checks every directory loop makes before it trusts a record. */
  predicate ValidRec(s: seq<Byte>) {
    |s| >= 8 && 8 <= RecLen(s) <= |s| && NameLen(s) <= RecLen(s) - 8
  }

  function RecName(s: seq<Byte>): Name
    requires ValidRec(s)
  {
    s[8..8 + NameLen(s)]
  }

  predicate Live(s: seq<Byte>)
    requires ValidRec(s)
  {
    RecInode(s) != 0
  }

  function Rest(s: seq<Byte>): (r: seq<Byte>)
    requires ValidRec(s)
    ensures |r| < |s|
  {
    s[RecLen(s)..]
  }

  /** The records follow one another without gap and end exactly at the end of the block. */
  predicate Tiled(s: seq<Byte>)
    decreases |s|
  {
    s == [] || (ValidRec(s) && Tiled(Rest(s)))
  }

  /** What a directory block means: the first live record with a name binds it. */
  function Names(s: seq<Byte>): map<Name, nat>
    decreases |s|
  {
    if !ValidRec(s) then map[]
    else if Live(s) then Names(Rest(s))[RecName(s) := RecInode(s)]
    else Names(Rest(s))
  }

  /** No two live records carry the same name. */
  predicate Unique(s: seq<Byte>)
    decreases |s|
  {
    ValidRec(s) ==> (Live(s) ==> RecName(s) !in Names(Rest(s))) && Unique(Rest(s))
  }

  /** The inner loop of ext2_find_inode_in_dir. */
  function FindIn(s: seq<Byte>, name: Name): Option<nat>
    decreases |s|
  {
    if !ValidRec(s) then None
    else if Live(s) && RecName(s) == name then Some(RecInode(s))
    else FindIn(Rest(s), name)
  }

  lemma {:induction false} FindInNames(s: seq<Byte>, name: Name)
    ensures FindIn(s, name) == if name in Names(s) then Some(Names(s)[name]) else None
    decreases |s|
  {
    if ValidRec(s) {
      FindInNames(Rest(s), name);
    }
  }

  lemma {:induction false} NamesNotZero(s: seq<Byte>)
    ensures forall n :: n in Names(s) ==> Names(s)[n] != 0 && |n| <= EXT2_MAX_NAME_LEN
    decreases |s|
  {
    if ValidRec(s) {
      NamesNotZero(Rest(s));
    }
  }

  // ---- adding ----

  function RoundUp4(n: nat): nat { (n + 3) / 4 * 4 }

  /** Bytes a record for a name of length `n` takes. */
  function Required(n: nat): nat { RoundUp4(n + 8) }

  /** The bytes of a record up to the end of its name. */
  function Record(inode: nat, recLen: nat, name: Name, kind: Byte): (r: seq<Byte>)
    requires inode < 0x1_0000_0000 && recLen < 0x1_0000 && |name| <= EXT2_MAX_NAME_LEN
    ensures |r| == 8 + |name|
  {
    Le32(inode) + Le16(recLen) + [|name|, kind] + name
  }

  predicate Addable(inode: nat, name: Name) {
    0 < inode < 0x1_0000_0000 && |name| <= EXT2_MAX_NAME_LEN
  }

  /** Put a record at the start of an unused one, keeping its length. */
  function Reuse(s: seq<Byte>, inode: nat, name: Name, kind: Byte): seq<Byte>
    requires ValidRec(s) && Addable(inode, name) && RecLen(s) >= 8 + |name|
  {
    Splice(s, 0, Record(inode, RecLen(s), name, kind))
  }

  /** Cut a live record down to `actual` bytes and put the new record behind it. */
  function Split(s: seq<Byte>, actual: nat, inode: nat, name: Name, kind: Byte): seq<Byte>
    requires ValidRec(s) && Addable(inode, name) && 8 <= actual && RecLen(s) >= actual + 8 + |name|
  {
    Splice(Splice(s, 4, Le16(actual)), actual, Record(inode, RecLen(s) - actual, name, kind))
  }

  /** The inner loop of add_directory_entry. */
  function AddIn(s: seq<Byte>, inode: nat, name: Name, kind: Byte): Option<seq<Byte>>
    requires Addable(inode, name)
    decreases |s|
  {
    if !ValidRec(s) then None
    else if !Live(s) && RecLen(s) >= Required(|name|) then Some(Reuse(s, inode, name, kind))
    else if Live(s) && RecLen(s) >= Required(NameLen(s)) + Required(|name|) then
      Some(Split(s, Required(NameLen(s)), inode, name, kind))
    else
      match AddIn(Rest(s), inode, name, kind)
      case None => None
      case Some(rest) => Some(s[..RecLen(s)] + rest)
  }

  /** Some record leaves room for a name of length `n`: an unused one that is long enough, or a live one
      with a long enough gap behind it. */
  predicate HasRoom(s: seq<Byte>, n: nat)
    decreases |s|
  {
    ValidRec(s) &&
    ((if Live(s) then RecLen(s) >= Required(NameLen(s)) + Required(n) else RecLen(s) >= Required(n))
     || HasRoom(Rest(s), n))
  }

  /** The loop finds a place exactly when there is one. */
  lemma {:induction false} AddInNeedsRoom(s: seq<Byte>, inode: nat, name: Name, kind: Byte)
    requires Addable(inode, name)
    ensures AddIn(s, inode, name, kind).Some? <==> HasRoom(s, |name|)
    decreases |s|
  {
    if ValidRec(s) {
      AddInNeedsRoom(Rest(s), inode, name, kind);
    }
  }

  lemma RecordHeader(s: seq<Byte>, inode: nat, recLen: nat, name: Name, kind: Byte)
    requires inode < 0x1_0000_0000 && 8 + |name| <= recLen < 0x1_0000 && |name| <= EXT2_MAX_NAME_LEN
    requires recLen <= |s| && s[..8 + |name|] == Record(inode, recLen, name, kind)
    ensures ValidRec(s) && RecInode(s) == inode && RecLen(s) == recLen && RecName(s) == name
  {
    var r := Record(inode, recLen, name, kind);
    Le32RoundTrip(inode);
    U32Slice(s, 0, 0, 8 + |name|);
    U32Slice(r, 0, 0, 4);
    assert r[0..4] == Le32(inode);
    assert r[4..6] == Le16(recLen);
    assert s[4] == r[4] && s[5] == r[5] && s[6] == r[6];
    assert r[8..] == name;
    assert s[8..8 + |name|] == s[..8 + |name|][8..];
  }

  lemma ReuseNames(s: seq<Byte>, inode: nat, name: Name, kind: Byte)
    requires ValidRec(s) && Addable(inode, name) && RecLen(s) >= 8 + |name| && !Live(s)
    ensures var r := Reuse(s, inode, name, kind);
      && |r| == |s| && ValidRec(r) && Live(r) && RecName(r) == name && RecInode(r) == inode && Rest(r) == Rest(s)
  {
    var r := Reuse(s, inode, name, kind);
    var rec := Record(inode, RecLen(s), name, kind);
    assert r[0..0 + |rec|] == rec;
    assert r[..8 + |name|] == rec;
    RecordHeader(r, inode, RecLen(s), name, kind);
    assert r[RecLen(s)..] == r[0 + |rec|..][RecLen(s) - |rec|..];
    assert s[RecLen(s)..] == s[0 + |rec|..][RecLen(s) - |rec|..];
  }

  lemma SplitNames(s: seq<Byte>, actual: nat, inode: nat, name: Name, kind: Byte)
    requires ValidRec(s) && Addable(inode, name) && Live(s)
    requires 8 + NameLen(s) <= actual && RecLen(s) >= actual + 8 + |name|
    ensures var r := Split(s, actual, inode, name, kind);
      && |r| == |s| && ValidRec(r) && Live(r) && RecName(r) == RecName(s) && RecInode(r) == RecInode(s)
      && ValidRec(Rest(r)) && Live(Rest(r)) && RecName(Rest(r)) == name && RecInode(Rest(r)) == inode
      && Rest(Rest(r)) == Rest(s)
  {
    var r := Split(s, actual, inode, name, kind);
    var cut := Splice(s, 4, Le16(actual));
    var rec := Record(inode, RecLen(s) - actual, name, kind);
    assert r[..actual] == cut[..actual];
    assert forall k :: 0 <= k < actual ==> r[k] == r[..actual][k] == cut[k];
    assert cut[4] == Le16(actual)[0] && cut[5] == Le16(actual)[1];
    assert forall k :: 0 <= k < |s| && k != 4 && k != 5 ==> cut[k] == s[k];
    assert RecLen(r) == actual && NameLen(r) == NameLen(s) && RecInode(r) == RecInode(s);
    assert RecName(r) == RecName(s);
    var t := Rest(r);
    assert t == r[actual..];
    assert t[..8 + |name|] == r[actual..actual + |rec|] == rec;
    RecordHeader(t, inode, RecLen(s) - actual, name, kind);
    assert Rest(t) == r[RecLen(s)..];
    assert r[RecLen(s)..] == r[actual + |rec|..][RecLen(s) - actual - |rec|..];
    assert cut[RecLen(s)..] == cut[actual + |rec|..][RecLen(s) - actual - |rec|..];
    assert cut[RecLen(s)..] == s[RecLen(s)..];
  }

  lemma PrefixRec(s: seq<Byte>, rest: seq<Byte>)
    requires ValidRec(s) && |rest| == |Rest(s)|
    ensures var r := s[..RecLen(s)] + rest;
      && |r| == |s| && ValidRec(r) && RecInode(r) == RecInode(s) && RecName(r) == RecName(s) && Rest(r) == rest
  {
    var r := s[..RecLen(s)] + rest;
    assert forall k :: 0 <= k < RecLen(s) ==> r[k] == s[k];
  }

  lemma MapSwap(m: map<Name, nat>, a: Name, x: nat, b: Name, y: nat)
    requires a != b
    ensures var ab: map<Name, nat> := m[a := x];
            var ba: map<Name, nat> := m[b := y];
      ab[b := y] == ba[a := x]
  {
  }

  /** Adding a fresh name to a block binds it there and leaves every other name of the block alone. */
  lemma {:induction false} AddInBinds(s: seq<Byte>, inode: nat, name: Name, kind: Byte)
    requires Addable(inode, name) && Tiled(s) && Unique(s) && name !in Names(s) && AddIn(s, inode, name, kind).Some?
    ensures var r := AddIn(s, inode, name, kind).value;
      |r| == |s| && Tiled(r) && Unique(r) && Names(r) == Names(s)[name := inode]
    decreases |s|
  {
    var r := AddIn(s, inode, name, kind).value;
    if !Live(s) && RecLen(s) >= Required(|name|) {
      ReuseNames(s, inode, name, kind);
    } else if Live(s) && RecLen(s) >= Required(NameLen(s)) + Required(|name|) {
      SplitNames(s, Required(NameLen(s)), inode, name, kind);
      MapSwap(Names(Rest(s)), name, inode, RecName(s), RecInode(s));
    } else {
      AddInBinds(Rest(s), inode, name, kind);
      PrefixRec(s, AddIn(Rest(s), inode, name, kind).value);
      if Live(s) {
        MapSwap(Names(Rest(s)), name, inode, RecName(s), RecInode(s));
      }
    }
  }

  // ---- removing ----

  /** The inner loop of remove_directory_entry. */
  function RemoveIn(s: seq<Byte>, name: Name): Option<seq<Byte>>
    decreases |s|
  {
    if !ValidRec(s) then None
    else if Live(s) && RecName(s) == name then Some(Splice(s, 0, Le32(0)))
    else
      match RemoveIn(Rest(s), name)
      case None => None
      case Some(rest) => Some(s[..RecLen(s)] + rest)
  }

  lemma KillRec(s: seq<Byte>)
    requires ValidRec(s)
    ensures var r := Splice(s, 0, Le32(0));
      |r| == |s| && ValidRec(r) && !Live(r) && Rest(r) == Rest(s)
  {
    var r := Splice(s, 0, Le32(0));
    assert forall k :: 4 <= k < |s| ==> r[k] == s[k];
    assert r[0..4] == Le32(0);
    U32Slice(r, 0, 0, 4);
  }

  lemma MapDrop(m: map<Name, nat>, a: Name, b: Name, y: nat)
    ensures a != b ==> (m - {a})[b := y] == m[b := y] - {a}
    ensures a !in m ==> m[a := y] - {a} == m
  {
  }

  /** Removing a name unbinds it and nothing else; it succeeds exactly when the block binds the name. */
  lemma {:induction false} RemoveInUnbinds(s: seq<Byte>, name: Name)
    requires Tiled(s) && Unique(s)
    ensures RemoveIn(s, name).Some? <==> name in Names(s)
    ensures RemoveIn(s, name).Some? ==>
      var r := RemoveIn(s, name).value;
      |r| == |s| && Tiled(r) && Unique(r) && Names(r) == Names(s) - {name}
    decreases |s|
  {
    hide RecInode, RecLen, NameLen, RecName, Splice, Le32;
    if s != [] {
      MapDrop(Names(Rest(s)), name, RecName(s), RecInode(s));
      if Live(s) && RecName(s) == name {
        KillRec(s);
      } else {
        RemoveInUnbinds(Rest(s), name);
        if RemoveIn(Rest(s), name).Some? {
          PrefixRec(s, RemoveIn(Rest(s), name).value);
        }
      }
    }
  }

  /** A block holding a single record that fills it. */
  lemma SingleRecord(size: nat, inode: nat, name: Name, kind: Byte)
    requires Addable(inode, name) && 8 + |name| <= size < 0x1_0000
    ensures var r := Splice(Zeros(size), 0, Record(inode, size, name, kind));
      Tiled(r) && Unique(r) && Names(r) == map[name := inode]
  {
    var rec := Record(inode, size, name, kind);
    var r := Splice(Zeros(size), 0, rec);
    assert r[..8 + |name|] == r[0..0 + |rec|];
    RecordHeader(r, inode, size, name, kind);
    assert |Rest(r)| == 0;
  }
}
