/** The account file of kernel/auth.c: appending a record, and looking a user up in it. */
module Accounts {
  import opened Bytes
  import opened Volumes
  import opened Ownership
  import opened Files
  import opened FileSystem
  import opened Paths
  import opened Trees
  import opened Runs
  import opened Guarantees
  import opened Steps
  import opened Sha256
  import opened Engine

  const AUTH_RECORD_SIZE := 256
  const AUTH_USERNAME_SIZE := 32
  const RECORDS_SIZE := 512
  const COLON: Byte := 58
  const NEWLINE: Byte := 10
  const ZERO: Byte := 48
  const ONE: Byte := 49

  // ---- records ----

  datatype Account = Account(name: seq<Byte>, hash: seq<Byte>, sudoer: bool)

  function Flag(sudoer: bool): Byte { if sudoer then ONE else ZERO }

  /** One line of the file. */
  function RecordText(a: Account): seq<Byte> {
    a.name + [COLON] + a.hash + [COLON] + [Flag(a.sudoer), NEWLINE]
  }

  /** A line is "name:digest:1" for a user with rights and "name:digest:0" for one without. */
  lemma RecordSpelled(a: Account)
    ensures RecordText(a)
         == a.name + [':' as int] + a.hash + [':' as int, if a.sudoer then '1' as int else '0' as int, '\n' as int]
    ensures a.sudoer ==> RecordText(a) == a.name + Text(":") + a.hash + Text(":1\n")
    ensures !a.sudoer ==> RecordText(a) == a.name + Text(":") + a.hash + Text(":0\n")
  {
    LineEndTexts();
  }

  lemma LineEndTexts()
    ensures Text(":") == [58] && Text(":1\n") == [58, 49, 10] && Text(":0\n") == [58, 48, 10]
  {
  }

  /** What can be stored: up to 31 bytes of name and the 64 digits of a digest, without NUL, colon or line end. */
  lemma StorableIs(a: Account)
    ensures Storable(a) <==>
      && |a.name| <= 31 && |a.hash| == 64
      && forall c :: c in a.name || c in a.hash ==> c != 0 && c != ':' as int && c != '\n' as int
  {
  }

  function FileOf(accounts: seq<Account>): seq<Byte> {
    if accounts == [] then [] else RecordText(accounts[0]) + FileOf(accounts[1..])
  }

  predicate Unseparated(s: seq<Byte>) {
    0 !in s && COLON !in s && NEWLINE !in s
  }

  /** A user name of the length the login accepts, without separators, and a digest. */
  predicate Storable(a: Account) {
    |a.name| < AUTH_USERNAME_SIZE && Unseparated(a.name) && |a.hash| == 64 && Unseparated(a.hash)
  }

  /** The flag of the first account with this name and digest. */
  function FirstMatch(accounts: seq<Account>, name: seq<Byte>, hash: seq<Byte>): Option<bool> {
    if accounts == [] then None
    else if accounts[0].name == name && accounts[0].hash == hash then Some(accounts[0].sudoer)
    else FirstMatch(accounts[1..], name, hash)
  }

  // ---- what authenticate makes of a file ----

  /** Length of the run of bytes up to `stop`, at most `max`. */
  function Span(s: seq<Byte>, stop: Byte, max: nat): (n: nat)
    ensures n <= |s| && n <= max
    ensures forall k :: 0 <= k < n ==> s[k] != stop
  {
    if s == [] || s[0] == stop || max == 0 then 0 else 1 + Span(s[1..], stop, max - 1)
  }

  datatype Parsed = Parsed(name: seq<Byte>, hash: seq<Byte>, sudoer: bool, rest: seq<Byte>)

  /** The record at the start of `s`; none when a separator is missing. */
  function ReadRecord(s: seq<Byte>): (p: Option<Parsed>)
    ensures p.Some? ==> |p.value.rest| < |s|
  {
    var n := Span(s, COLON, AUTH_USERNAME_SIZE - 1);
    if n >= |s| || s[n] != COLON then None else ReadHash(s[..n], s[n + 1..])
  }

  /** The record from its second field on. */
  function ReadHash(name: seq<Byte>, t: seq<Byte>): (p: Option<Parsed>)
    ensures p.Some? ==> |p.value.rest| <= |t|
  {
    var m := Span(t, COLON, 64);
    if m >= |t| || t[m] != COLON then None
    else
      var u := t[m + 1..];
      Some(Parsed(name, t[..m], u != [] && u[0] == ONE, AfterLine(if u == [] then [] else u[1..])))
  }

  /** What follows the line that `s` begins in. */
  function AfterLine(s: seq<Byte>): (r: seq<Byte>)
    ensures |r| <= |s|
  {
    if s == [] then [] else if s[0] == NEWLINE then s[1..] else AfterLine(s[1..])
  }

  /** A C string ends at its first NUL. */
  function Terminated(s: seq<Byte>): seq<Byte> {
    if s == [] || s[0] == 0 then [] else [s[0]] + Terminated(s[1..])
  }

  /** The scan of authenticate. */
  function SearchRecords(s: seq<Byte>, name: seq<Byte>, hash: seq<Byte>): Option<bool>
    decreases |s|
  {
    if s == [] then None
    else
      match ReadRecord(s)
      case None => None
      case Some(p) =>
        if Terminated(name) == Terminated(p.name) && Terminated(hash) == Terminated(p.hash) then Some(p.sudoer)
        else SearchRecords(p.rest, name, hash)
  }

  lemma {:induction false} SpanStops(a: seq<Byte>, stop: Byte, rest: seq<Byte>, max: nat)
    requires stop !in a && |a| <= max && (rest == [] || rest[0] == stop)
    ensures Span(a + rest, stop, max) == |a|
    decreases |a|
  {
    if a == [] {
      assert a + rest == rest;
    } else {
      assert (a + rest)[1..] == a[1..] + rest;
      SpanStops(a[1..], stop, rest, max - 1);
    }
  }

  lemma {:induction false} TerminatedWhole(s: seq<Byte>)
    requires 0 !in s
    ensures Terminated(s) == s
  {
    if s != [] {
      TerminatedWhole(s[1..]);
    }
  }

  /** A record is read back as it was written. */
  lemma RecordReads(a: Account, rest: seq<Byte>)
    requires Storable(a)
    ensures ReadRecord(RecordText(a) + rest) == Some(Parsed(a.name, a.hash, a.sudoer, rest))
  {
    hide Span, AfterLine, RecordText;
    var u := [Flag(a.sudoer)] + ([NEWLINE] + rest);
    var t := a.hash + ([COLON] + u);
    var s := a.name + ([COLON] + t);
    RecordSplits(a, rest);
    FieldReads(s, a.name, t, AUTH_USERNAME_SIZE - 1);
    FieldReads(t, a.hash, u, 64);
    LineEnds(rest);
    assert u[1..] == [NEWLINE] + rest;
  }

  lemma RecordSplits(a: Account, rest: seq<Byte>)
    ensures RecordText(a) + rest == a.name + ([COLON] + (a.hash + ([COLON] + ([Flag(a.sudoer)] + ([NEWLINE] + rest)))))
  {
  }

  /** A field that fits is read whole, up to its colon. */
  lemma FieldReads(s: seq<Byte>, field: seq<Byte>, rest: seq<Byte>, max: nat)
    requires s == field + ([COLON] + rest) && COLON !in field && |field| <= max
    ensures Span(s, COLON, max) == |field| < |s| && s[|field|] == COLON
    ensures s[..|field|] == field && s[|field| + 1..] == rest
  {
    hide Span;
    SpanStops(field, COLON, [COLON] + rest, max);
  }

  lemma LineEnds(rest: seq<Byte>)
    ensures AfterLine([NEWLINE] + rest) == rest
  {
    assert ([NEWLINE] + rest)[1..] == rest;
  }

  /** On a file of records the scan finds exactly the first account with the name and the digest. */
  lemma {:induction false} SearchFindsFirst(accounts: seq<Account>, name: seq<Byte>, hash: seq<Byte>)
    requires forall k :: 0 <= k < |accounts| ==> Storable(accounts[k])
    requires 0 !in name && 0 !in hash
    ensures SearchRecords(FileOf(accounts), name, hash) == FirstMatch(accounts, name, hash)
    decreases |accounts|
  {
    TerminatedWhole(name);
    TerminatedWhole(hash);
    if accounts != [] {
      var a := accounts[0];
      RecordReads(a, FileOf(accounts[1..]));
      TerminatedWhole(a.name);
      TerminatedWhole(a.hash);
      SearchFindsFirst(accounts[1..], name, hash);
    }
  }

  /** A user gets in exactly when some account has the name and the digest. */
  lemma {:induction false} MatchExists(accounts: seq<Account>, name: seq<Byte>, hash: seq<Byte>)
    ensures FirstMatch(accounts, name, hash).Some? <==>
      exists k :: 0 <= k < |accounts| && accounts[k].name == name && accounts[k].hash == hash
    decreases |accounts|
  {
    if accounts != [] {
      MatchExists(accounts[1..], name, hash);
      assert forall k :: 1 <= k < |accounts| ==> accounts[k] == accounts[1..][k - 1];
      if accounts[0].name == name && accounts[0].hash == hash {
      } else if exists k :: 0 <= k < |accounts| && accounts[k].name == name && accounts[k].hash == hash {
        var k :| 0 <= k < |accounts| && accounts[k].name == name && accounts[k].hash == hash;
        assert accounts[1..][k - 1] == accounts[k];
      }
    }
  }

  lemma {:induction false} FileGrows(accounts: seq<Account>, a: Account)
    ensures FileOf(accounts + [a]) == FileOf(accounts) + RecordText(a)
    decreases |accounts|
  {
    if accounts == [] {
      assert (accounts + [a])[1..] == [];
    } else {
      assert (accounts + [a])[1..] == accounts[1..] + [a];
      FileGrows(accounts[1..], a);
    }
  }

  // ---- the scan ----

  /** strings_equal. */
  method StringsEqual(left: seq<Byte>, right: seq<Byte>) returns (equal: bool)
    ensures equal == (Terminated(left) == Terminated(right))
  {
    var index := 0;
    assert left[0..] == left && right[0..] == right;
    while CharAt(left, index) != 0 && CharAt(right, index) != 0 && CharAt(left, index) == CharAt(right, index)
      invariant index <= |left| && index <= |right|
      invariant (Terminated(left) == Terminated(right)) <==> (Terminated(left[index..]) == Terminated(right[index..]))
      decreases |left| - index
    {
      assert left[index..][1..] == left[index + 1..] && right[index..][1..] == right[index + 1..];
      TerminatedStep(left[index..], right[index..]);
      index := index + 1;
    }
    TerminatedEnds(left[index..], right[index..]);
    return CharAt(left, index) == CharAt(right, index);
  }

  function CharAt(s: seq<Byte>, k: nat): Byte {
    if k < |s| then s[k] else 0
  }

  lemma TerminatedStep(a: seq<Byte>, b: seq<Byte>)
    requires a != [] && b != [] && a[0] == b[0] && a[0] != 0
    ensures (Terminated(a) == Terminated(b)) <==> (Terminated(a[1..]) == Terminated(b[1..]))
  {
    assert Terminated(a)[1..] == Terminated(a[1..]) && Terminated(b)[1..] == Terminated(b[1..]);
  }

  lemma TerminatedEnds(a: seq<Byte>, b: seq<Byte>)
    requires CharAt(a, 0) == 0 || CharAt(b, 0) == 0 || CharAt(a, 0) != CharAt(b, 0)
    ensures (Terminated(a) == Terminated(b)) <==> CharAt(a, 0) == CharAt(b, 0)
  {
    HeadOf(a);
    HeadOf(b);
  }

  lemma HeadOf(a: seq<Byte>)
    ensures Terminated(a) == [] <==> CharAt(a, 0) == 0
    ensures Terminated(a) != [] ==> Terminated(a)[0] == CharAt(a, 0)
  {
  }

  /** One of the copying loops of authenticate: bytes up to `stop`, at most `max`. */
  method CopyField(records: seq<Byte>, start: nat, stop: Byte, max: nat) returns (field: seq<Byte>, offset: nat)
    requires start <= |records|
    ensures offset == start + Span(records[start..], stop, max) <= |records| && field == records[start..offset]
  {
    offset, field := start, [];
    ghost var s := records[start..];
    while offset < |records| && records[offset] != stop && |field| < max
      invariant start <= offset <= |records| && |field| == offset - start <= max && field == records[start..offset]
      invariant Span(s, stop, max) == |field| + Span(records[offset..], stop, max - |field|)
    {
      assert records[offset..][1..] == records[offset + 1..];
      field, offset := field + [records[offset]], offset + 1;
    }
  }

  /** The loop of authenticate over the records it read. */
  method Scan(records: seq<Byte>, username: seq<Byte>, passwordHash: seq<Byte>) returns (sudoer: Option<bool>)
    ensures sudoer == SearchRecords(records, username, passwordHash)
  {
    hide Span, AfterLine, Terminated, ReadRecord;
    var offset, bytes := 0, |records|;
    assert records[0..] == records;
    while offset < bytes
      invariant offset <= bytes
      invariant SearchRecords(records, username, passwordHash)
        == SearchRecords(records[offset..], username, passwordHash)
      decreases bytes - offset
    {
      var parsed := ScanRecord(records, offset);
      if parsed.None? {
        return None;
      }
      var sameName := StringsEqual(username, parsed.value.name);
      var sameHash := StringsEqual(passwordHash, parsed.value.hash);
      if sameName && sameHash {
        return Some(parsed.value.sudoer);
      }
      offset := bytes - |parsed.value.rest|;
    }
    return None;
  }

  /** One pass of that loop up to the comparison. */
  method ScanRecord(records: seq<Byte>, start: nat) returns (parsed: Option<Parsed>)
    requires start < |records|
    ensures parsed == ReadRecord(records[start..])
    ensures parsed.Some? ==> |parsed.value.rest| < |records| - start
    ensures parsed.Some? ==> parsed.value.rest == records[|records| - |parsed.value.rest|..]
  {
    hide Span, AfterLine, ReadHash;
    var name, offset := CopyField(records, start, COLON, AUTH_USERNAME_SIZE - 1);
    assert records[start..][..offset - start] == name;
    if offset >= |records| || records[offset] != COLON {
      return None;
    }
    assert records[start..][offset - start + 1..] == records[offset + 1..];
    parsed := ScanHash(records, offset + 1, name);
  }

  method ScanHash(records: seq<Byte>, start: nat, name: seq<Byte>) returns (parsed: Option<Parsed>)
    requires start <= |records|
    ensures parsed == ReadHash(name, records[start..])
    ensures parsed.Some? ==> parsed.value.rest == records[|records| - |parsed.value.rest|..]
  {
    hide Span, AfterLine;
    var bytes := |records|;
    var hash, offset := CopyField(records, start, COLON, 64);
    assert records[start..][..offset - start] == hash;
    if offset >= bytes || records[offset] != COLON {
      return None;
    }
    offset := offset + 1;
    assert records[start..][offset - start..] == records[offset..];
    var sudoer := offset < bytes && records[offset] == ONE;
    if offset < bytes {
      assert records[offset..][1..] == records[offset + 1..];
      offset := offset + 1;
    }
    offset := SkipLine(records, offset);
    return Some(Parsed(name, hash, sudoer, records[offset..]));
  }

  /** The loop of authenticate to the end of a line. */
  method SkipLine(records: seq<Byte>, start: nat) returns (offset: nat)
    requires start <= |records|
    ensures start <= offset <= |records| && records[offset..] == AfterLine(records[start..])
  {
    offset := start;
    while offset < |records| && records[offset] != NEWLINE
      invariant start <= offset <= |records| && AfterLine(records[start..]) == AfterLine(records[offset..])
    {
      assert records[offset..][1..] == records[offset + 1..];
      offset := offset + 1;
    }
    if offset < |records| {
      assert records[offset..][1..] == records[offset + 1..];
      offset := offset + 1;
    }
  }

  // ---- the account file on disk ----

  /** "/.config/passwd". */
  const PASSWD: Path := [47, 46, 99, 111, 110, 102, 105, 103, 47, 112, 97, 115, 115, 119, 100]

  lemma PasswdPath()
    ensures PASSWD == Text("/.config/passwd")
  {
  }

  /** The account file as its readers see it; empty when the path leads nowhere. */
  function Stored(v: Volume, cur: nat, size: nat): seq<Byte>
    requires Shape(v)
  {
    match FindByPath(v, cur, PASSWD)
    case None => []
    case Some(i) => Files.ReadFile(v, i, size).GetOr([])
  }

  /** What write_auth_record leaves on the disk: the file as it was, then the record; a file that is
      not there is made first, and a text that would not fit below AUTH_RECORD_SIZE is not written. */
  function AfterRecord(v: Volume, cur: nat, record: seq<Byte>, uid: nat): (r: Outcome)
    requires Shape(v)
    ensures Shape(r.v)
  {
    var found := FindByPath(v, cur, PASSWD);
    var text := Stored(v, cur, AUTH_RECORD_SIZE - 1) + record;
    if found.Some? && Files.ReadFile(v, found.value, AUTH_RECORD_SIZE - 1).None? then Outcome(v, false)
    else if |text| < AUTH_RECORD_SIZE then Runs.WriteFileByPath(v, cur, PASSWD, text, uid)
    else if found.Some? then Outcome(v, false)
    else Outcome(Runs.CreateFileByPath(v, cur, PASSWD, uid).v, false)
  }

  /** write_auth_record. */
  method WriteAuthRecord(e: Ext2, record: seq<Byte>, uid: nat) returns (r: int)
    requires e.Consistent()
    modifies e`superblock, e`currentDir, e.disk, e.blockBuffer, e.inodeBuffer
    ensures e.Consistent() && e.currentDir == old(e.currentDir) && (r == 0 || r == -1)
    ensures Outcome(e.Vol(), r == 0) == AfterRecord(old(e.Vol()), e.currentDir, record, uid)
  {
    hide Agreement, Shape, View, StoreOk, TreeOk, SplitParent, FindByPath, Runs.CreateFileByPath, Files.WriteFile,
      Files.ReadFile, FileWalkable, BlockCount, Ext2.Ready, Ext2.Vol;
    ghost var v := e.Vol();
    ghost var owner, home :| SaneWith(State(v, e.currentDir), owner, home);
    var existing := new Byte[AUTH_RECORD_SIZE];
    var length := 0;
    var inode := e.FindInodeByPath(PASSWD, owner, home);
    if inode.Some? {
      LiveWalkable(v, owner, inode.value);
      FewerWalkable(v, InodeOf(v, inode.value), AUTH_RECORD_SIZE - 1);
      length := e.ReadFile(inode.value, existing, AUTH_RECORD_SIZE - 1);
      if length < 0 {
        return -1;
      }
    } else {
      var created := e.CreateFileByPath(PASSWD, uid);
      if created.None? {
        return -1;
      }
      CreatedPathResolves(State(v, e.currentDir), PASSWD, uid);
      owner, home := Witnesses(State(e.Vol(), e.currentDir));
      inode := e.FindInodeByPath(PASSWD, owner, home);
    }
    r := AppendRecord(e, inode.value, existing, length, record, e.Vol(), existing[..length], owner, home);
  }

  /** The end of write_auth_record: the record goes behind what was read, and all of it to the file. */
  method AppendRecord(e: Ext2, inode: nat, existing: array<Byte>, length: nat, record: seq<Byte>,
                      ghost v: Volume, ghost text: seq<Byte>, ghost owner: Owners, ghost home: Homes) returns (r: int)
    requires e.Valid() && v == e.Vol() && SaneWith(State(v, e.currentDir), owner, home) && inode in View(v)
    requires existing.Length == AUTH_RECORD_SIZE && length <= AUTH_RECORD_SIZE && text == existing[..length]
    requires existing != e.blockBuffer && existing != e.inodeBuffer
    modifies e`superblock, e.disk, e.blockBuffer, e.inodeBuffer, existing
    ensures e.Consistent() && (r == 0 || r == -1)
    ensures Outcome(e.Vol(), r == 0)
         == if |text + record| < AUTH_RECORD_SIZE then Files.WriteFile(v, inode, text + record) else Outcome(v, false)
  {
    hide Agreement, Shape, View, StoreOk, TreeOk, Files.WriteFile, FileWalkable, Ext2.Ready, Ext2.Vol, FileAt, Recorded;
    if length + |record| >= existing.Length {
      return -1;
    }
    forall i | 0 <= i < |record| {
      existing[length + i] := record[i];
    }
    assert existing[..length + |record|] == text + record;
    LiveWalkable(e.Vol(), owner, inode);
    ghost var o := WriteKeepsSane(State(e.Vol(), e.currentDir), owner, home, inode, text + record);
    var written := e.WriteFile(inode, existing[..length + |record|], owner);
    return if written < 0 then -1 else 0;
  }

  lemma Witnesses(s: State) returns (owner: Owners, home: Homes)
    requires Sane(s)
    ensures SaneWith(s, owner, home)
  {
    owner, home :| SaneWith(s, owner, home);
  }

  /** The file on disk holds just these accounts; there may be no file yet when there are none. */
  predicate AccountFile(v: Volume, cur: nat, accounts: seq<Account>)
    requires Shape(v)
  {
    && |FileOf(accounts)| < AUTH_RECORD_SIZE
    && match FindByPath(v, cur, PASSWD)
       case None => accounts == []
       case Some(i) =>
         && Files.ReadFile(v, i, AUTH_RECORD_SIZE - 1) == Some(FileOf(accounts))
         && Files.ReadFile(v, i, RECORDS_SIZE - 1) == Some(FileOf(accounts))
  }

  /** A record that is written is one more account in the file; one that is refused changes no account. */
  lemma AccountAdded(s: State, accounts: seq<Account>, a: Account, uid: nat)
    requires Sane(s) && Shape(s.v) && AccountFile(s.v, s.cur, accounts) && |RecordText(a)| < AUTH_RECORD_SIZE
    ensures var r := AfterRecord(s.v, s.cur, RecordText(a), uid);
      AccountFile(r.v, s.cur, if r.ok then accounts + [a] else accounts)
  {
    hide FindByPath, Files.ReadFile, Runs.WriteFileByPath, Runs.CreateFileByPath, FileOf, RecordText, Sane, Shape;
    StoredIs(s.v, s.cur, accounts);
    var text := FileOf(accounts) + RecordText(a);
    FileGrows(accounts, a);
    var r := AfterRecord(s.v, s.cur, RecordText(a), uid);
    if |text| < AUTH_RECORD_SIZE {
      if r.ok {
        WriteThenRead(s, PASSWD, text, uid, AUTH_RECORD_SIZE - 1);
        WriteThenRead(s, PASSWD, text, uid, RECORDS_SIZE - 1);
        assert Prefix(text, AUTH_RECORD_SIZE - 1) == text == Prefix(text, RECORDS_SIZE - 1);
      } else {
        RefusedWriteKeeps(s, PASSWD, text, uid, AUTH_RECORD_SIZE - 1);
        RefusedWriteKeeps(s, PASSWD, text, uid, RECORDS_SIZE - 1);
        NoAccounts();
      }
    } else {
      NoAccounts();
    }
  }

  lemma NoAccounts()
    ensures FileOf([]) == []
  {
  }

  /** auth_create_user. The source checks the room in its buffer while it copies the name and the digest, but
      not for the four bytes behind them; where those would run past the end, nothing is defined about what
      the source does, and the model stops with None. */
  method CreateUser(e: Ext2, username: seq<Byte>, password: seq<Byte>, sudoer: bool, uid: nat,
                    ghost accounts: seq<Account>)
    returns (r: Option<int>)
    requires e.Consistent() && AccountFile(e.Vol(), e.currentDir, accounts) && 0 !in username
    modifies e`superblock, e`currentDir, e.disk, e.blockBuffer, e.inodeBuffer
    ensures e.Consistent() && e.currentDir == old(e.currentDir)
    ensures r.None? <==> |username| >= 188
    ensures r.None? ==> e.Vol() == old(e.Vol())
    ensures r.Some? ==>
      var a := Account(username, Sha256Text(password), sudoer);
      && (r.value == 0 || r.value == -1)
      && Outcome(e.Vol(), r.value == 0) == AfterRecord(old(e.Vol()), e.currentDir, RecordText(a), uid)
      && AccountFile(e.Vol(), e.currentDir, if r.value == 0 then accounts + [a] else accounts)
  {
    hide FindByPath, Files.ReadFile, Runs.WriteFileByPath, Ext2.Ready, Ext2.Vol, Shape, Agreement, Sane, Sha256Text;
    ghost var s := State(e.Vol(), e.currentDir);
    var passwordHash := new Byte[65];
    Sha256.Sha256(password, passwordHash);
    var record := BuildRecord(username, passwordHash, sudoer);
    if record.None? {
      return None;
    }
    var code := WriteAuthRecord(e, record.value, uid);
    r := Some(code);
    AccountAdded(s, accounts, Account(username, passwordHash[..64], sudoer), uid);
  }

  lemma StoredIs(v: Volume, cur: nat, accounts: seq<Account>)
    requires Shape(v) && AccountFile(v, cur, accounts)
    ensures Stored(v, cur, AUTH_RECORD_SIZE - 1) == FileOf(accounts)
  {
  }

  /** One of the copying loops of auth_create_user, which stop one byte before the end of the buffer. */
  method Append(record: array<Byte>, offset: nat, text: seq<Byte>) returns (end: nat)
    requires offset <= record.Length == AUTH_RECORD_SIZE && 0 !in text
    modifies record
    ensures end == if offset < AUTH_RECORD_SIZE - 1 then Min(offset + |text|, AUTH_RECORD_SIZE - 1) else offset
    ensures record[..end] == old(record[..offset]) + text[..end - offset]
  {
    end := offset;
    var i := 0;
    while CharAt(text, i) != 0 && end < AUTH_RECORD_SIZE - 1
      invariant i <= |text| && end == offset + i && (i > 0 ==> end <= AUTH_RECORD_SIZE - 1)
      invariant record[..end] == old(record[..offset]) + text[..i]
      decreases |text| - i
    {
      record[end] := text[i];
      end, i := end + 1, i + 1;
    }
  }

  /** The record auth_create_user puts together, if the buffer has room for it. */
  method BuildRecord(username: seq<Byte>, passwordHash: array<Byte>, sudoer: bool) returns (text: Option<seq<Byte>>)
    requires 0 !in username
    requires passwordHash.Length == 65 && passwordHash[64] == 0 && 0 !in passwordHash[..64]
    ensures text.Some? <==> |username| < 188
    ensures text.Some? ==> text.value == RecordText(Account(username, passwordHash[..64], sudoer))
  {
    var record := new Byte[AUTH_RECORD_SIZE];
    var offset := Append(record, 0, username);
    record[offset] := COLON;
    offset := Append(record, offset + 1, passwordHash[..64]);
    if offset + 3 >= AUTH_RECORD_SIZE {
      return None;
    }
    assert record[..offset] == username + [COLON] + passwordHash[..64];
    record[offset], record[offset + 1], record[offset + 2] := COLON, Flag(sudoer), NEWLINE;
    offset := offset + 3;
    record[offset] := 0;
    assert record[..offset] == username + [COLON] + passwordHash[..64] + [COLON, Flag(sudoer), NEWLINE];
    text := Some(record[..offset]);
  }

  /** authenticate: the flag of the user, if there is one. */
  method Authenticate(e: Ext2, username: seq<Byte>, password: seq<Byte>) returns (sudoer: Option<bool>)
    requires e.Consistent()
    modifies e.blockBuffer, e.inodeBuffer
    ensures e.Consistent()
    ensures sudoer == match Guarantees.ReadFileByPath(e.Vol(), e.currentDir, PASSWD, 511) {
      case None => None
      case Some(records) => SearchRecords(records, username, Sha256Text(password))
    }
  {
    hide FindByPath, Files.ReadFile, Ext2.Ready, Ext2.Vol, Shape, Agreement, Sane, Sha256Text, SearchRecords;
    var records := new Byte[RECORDS_SIZE];
    var bytes := e.ReadFileByPath(PASSWD, records, RECORDS_SIZE - 1);
    if bytes < 0 {
      return None;
    }
    var passwordHash := new Byte[65];
    Sha256.Sha256(password, passwordHash);
    sudoer := Scan(records[..bytes], username, passwordHash[..64]);
  }

  /** Logging in succeeds exactly for the accounts that were created, with the flag of the first of them
      that has the name and the password digest. */
  lemma AuthenticatesAccounts(v: Volume, cur: nat, accounts: seq<Account>, name: seq<Byte>, hash: seq<Byte>)
    requires Shape(v) && AccountFile(v, cur, accounts) && forall k :: 0 <= k < |accounts| ==> Storable(accounts[k])
    requires 0 !in name && 0 !in hash
    ensures (match Guarantees.ReadFileByPath(v, cur, PASSWD, RECORDS_SIZE - 1)
             case None => None
             case Some(records) => SearchRecords(records, name, hash))
         == FirstMatch(accounts, name, hash)
  {
    hide FindByPath, Files.ReadFile, SearchRecords;
    SearchFindsFirst(accounts, name, hash);
  }

  /** Every account whose name the login form can produce, without separators, can be stored. */
  lemma DigestsStorable(name: seq<Byte>, password: seq<Byte>, sudoer: bool)
    requires |name| < AUTH_USERNAME_SIZE && Unseparated(name)
    ensures Storable(Account(name, Sha256Text(password), sudoer))
  {
  }
}
