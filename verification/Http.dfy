/** The receive loop of kernel/http.c: the header is stripped from a stream that arrives in arbitrary
    pieces, and the rest is passed on. https_get_to_fd strips its stream in the same way. */
module Http {
  import opened Bytes
  import opened Checksum
  import opened Tcp

  const CR: Byte := 13
  const LF: Byte := 10
  const CHUNK_SIZE := 1464

  // ---- the whole-stream view ----

  /** A blank line begins at index `k`. */
  predicate MatchAt(s: seq<Byte>, k: nat) {
    k + 4 <= |s| && s[k] == CR && s[k + 1] == LF && s[k + 2] == CR && s[k + 3] == LF
  }

  function MatchFrom(s: seq<Byte>, k: nat): (r: Option<nat>)
    ensures r.Some? ==> k <= r.value && MatchAt(s, r.value) && forall j :: k <= j < r.value ==> !MatchAt(s, j)
    ensures r.None? ==> forall j :: k <= j ==> !MatchAt(s, j)
    decreases if k <= |s| then |s| - k else 0
  {
    if k + 4 > |s| then None else if MatchAt(s, k) then Some(k) else MatchFrom(s, k + 1)
  }

  /** Where the header ends: behind the first blank line. */
  function HeaderEnd(s: seq<Byte>): (r: Option<nat>)
    ensures r.Some? ==> 4 <= r.value <= |s|
  {
    match MatchFrom(s, 0)
    case None => None
    case Some(k) => Some(k + 4)
  }

  /** What follows the header; nothing as long as it has not ended. */
  function Body(s: seq<Byte>): seq<Byte> {
    match HeaderEnd(s)
    case None => []
    case Some(e) => s[e..]
  }

  lemma EndsAtFirst(s: seq<Byte>, k: nat)
    requires MatchAt(s, k) && forall j :: 0 <= j < k ==> !MatchAt(s, j)
    ensures HeaderEnd(s) == Some(k + 4)
  {
  }

  lemma NoMatch(s: seq<Byte>)
    ensures HeaderEnd(s) == None <==> forall j: nat :: !MatchAt(s, j)
  {
  }

  /** More input only adds to the body. */
  lemma BodyGrows(s: seq<Byte>, more: seq<Byte>)
    ensures Body(s) <= Body(s + more)
    ensures HeaderEnd(s).Some? ==> HeaderEnd(s + more) == HeaderEnd(s) && Body(s + more) == Body(s) + more
  {
    hide MatchAt;
    if HeaderEnd(s).Some? {
      var k := MatchFrom(s, 0).value;
      forall j | 0 <= j <= k
        ensures MatchAt(s + more, j) == MatchAt(s, j)
      {
        MatchInFront(s, more, j, k);
      }
      EndsAtFirst(s + more, k);
    }
  }

  lemma MatchInFront(s: seq<Byte>, more: seq<Byte>, j: nat, k: nat)
    requires j <= k && MatchAt(s, k)
    ensures MatchAt(s + more, j) == MatchAt(s, j)
  {
  }

  /** Cutting a stream at any point: the part before it gives the beginning of the body. */
  lemma BodyOfPrefix(s: seq<Byte>, whole: seq<Byte>)
    requires s <= whole
    ensures Body(s) <= Body(whole)
  {
    assert whole == s + whole[|s|..];
    BodyGrows(s, whole[|s|..]);
  }

  /** How much of the end of the stream is kept while the header goes on. */
  function Carried(s: seq<Byte>): nat {
    Min(3, |s|)
  }

  /** A blank line that was not in the old part of the stream shows in its last three bytes and the new ones. */
  lemma MatchInTail(stream: seq<Byte>, arrived: seq<Byte>, chunk: seq<Byte>, k: nat)
    requires HeaderEnd(stream) == None && chunk == stream[|stream| - Carried(stream)..] + arrived
    ensures MatchAt(chunk, k) <==> MatchAt(stream + arrived, |stream| - Carried(stream) + k)
    ensures k < |stream| - Carried(stream) ==> !MatchAt(stream + arrived, k)
  {
    NoMatch(stream);
    var whole := stream + arrived;
    var o := |stream| - Carried(stream);
    assert forall j :: 0 <= j < |chunk| ==> chunk[j] == whole[o + j];
    if k < o {
      assert !MatchAt(stream, k);
    }
  }

  // ---- the loop ----

  lemma NothingYet()
    ensures HeaderEnd([]) == None && Body([]) == []
  {
  }

  class Download {
    const carry: array<Byte>
    const chunk: array<Byte>
    var carryLength: nat
    var headerDone: bool
    var totalBytes: nat
    var written: seq<Byte>

    /** The state after the bytes of `stream` came in: what was written is the body so far, and until the
        header ends its last three bytes are carried over. */
    ghost predicate Took(stream: seq<Byte>)
      reads this, carry
    {
      && carry.Length == 4 && chunk.Length == CHUNK_SIZE && carry != chunk
      && written == Body(stream) && totalBytes == |written| % SEQUENCES
      && (headerDone <==> HeaderEnd(stream).Some?)
      && (headerDone ==> carryLength == 0)
      && (!headerDone ==>
            carryLength == Carried(stream) && carry[..carryLength] == stream[|stream| - Carried(stream)..])
    }

    constructor ()
      ensures Took([]) && fresh(carry) && fresh(chunk)
    {
      carry := new Byte[4];
      chunk := new Byte[CHUNK_SIZE];
      carryLength, headerDone, totalBytes, written := 0, false, 0, [];
      new;
      hide Body, HeaderEnd;
      NothingYet();
    }

    lemma TookMeans(stream: seq<Byte>)
      requires Took(stream)
      ensures written == Body(stream) && totalBytes == |written| % SEQUENCES
    {
      hide Body, HeaderEnd;
    }

    /** The carried bytes go to the front of the next chunk. */
    method Begin(ghost stream: seq<Byte>)
      requires Took(stream)
      modifies chunk
      ensures Took(stream) && carryLength <= 3 && carry.Length == 4 && chunk.Length == CHUNK_SIZE && carry != chunk
      ensures chunk[..carryLength] == carry[..carryLength]
    {
      forall k | 0 <= k < carryLength {
        chunk[k] := carry[k];
      }
    }

    /** The search for the blank line. */
    method FindHeaderEnd(chunkLength: nat) returns (headerEnd: int)
      requires chunkLength <= chunk.Length
      ensures headerEnd < 0 ==> HeaderEnd(chunk[..chunkLength]) == None
      ensures headerEnd >= 0 ==> HeaderEnd(chunk[..chunkLength]) == Some(headerEnd)
    {
      var index := 0;
      ghost var s := chunk[..chunkLength];
      while index + 3 < chunkLength
        invariant forall j :: 0 <= j < index ==> !MatchAt(s, j)
      {
        if chunk[index] == CR && chunk[index + 1] == LF && chunk[index + 2] == CR && chunk[index + 3] == LF {
          EndsAtFirst(s, index);
          return index + 4;
        }
        index := index + 1;
      }
      NoMatch(s);
      return -1;
    }

    /** vfs_write of a part of the chunk. */
    method WriteOut(start: nat, end: nat)
      requires start <= end <= chunk.Length
      modifies this`written, this`totalBytes
      ensures written == old(written) + chunk[start..end]
      ensures totalBytes == (old(totalBytes) + (end - start)) % SEQUENCES
    {
      written := written + chunk[start..end];
      totalBytes := (totalBytes + (end - start)) % SEQUENCES;
    }

    /** Carry the end of the chunk over to the next one. */
    method KeepTail(chunkLength: nat)
      requires chunkLength <= chunk.Length && carry.Length == 4 && carry != chunk
      modifies this`carryLength, carry
      ensures carryLength == Min(3, chunkLength)
      ensures carry[..carryLength] == chunk[chunkLength - carryLength..chunkLength]
    {
      var keep := if chunkLength < 3 then chunkLength else 3;
      forall k | 0 <= k < keep {
        carry[k] := chunk[chunkLength - keep + k];
      }
      carryLength := keep;
    }

    /** The body of the receive loop, once `received` bytes have been put behind the carried ones. */
    method Feed(received: nat, ghost stream: seq<Byte>, ghost arrived: seq<Byte>)
      requires Took(stream) && carryLength + received <= CHUNK_SIZE && |arrived| == received
      requires chunk[..carryLength + received] == carry[..carryLength] + arrived
      modifies this`carryLength, this`headerDone, this`totalBytes, this`written, carry
      ensures Took(stream + arrived)
    {
      hide HeaderEnd, Body;
      var chunkLength := carryLength + received;
      ghost var whole := chunk[..chunkLength];
      if chunkLength == 0 {
        assert stream + arrived == stream;
      } else if headerDone {
        BodyContinues(stream, arrived);
        assert chunk[0..chunkLength] == arrived;
        WriteOut(0, chunkLength);
      } else {
        assert whole == stream[|stream| - Carried(stream)..] + arrived;
        SearchHeader(chunkLength, stream, arrived);
      }
    }

    /** The part of the loop that still looks for the blank line. */
    method SearchHeader(chunkLength: nat, ghost stream: seq<Byte>, ghost arrived: seq<Byte>)
      requires Took(stream) && !headerDone && chunkLength <= CHUNK_SIZE
      requires chunk[..chunkLength] == stream[|stream| - Carried(stream)..] + arrived
      modifies this`carryLength, this`headerDone, this`totalBytes, this`written, carry
      ensures Took(stream + arrived)
    {
      hide HeaderEnd, Body;
      ghost var whole := chunk[..chunkLength];
      carryLength := 0;
      var headerEnd := FindHeaderEnd(chunkLength);
      if headerEnd < 0 {
        StillNone(stream, arrived, whole);
        KeepTail(chunkLength);
        assert chunk[chunkLength - carryLength..chunkLength] == whole[|whole| - carryLength..];
      } else {
        NowFound(stream, arrived, whole, headerEnd);
        headerDone := true;
        assert whole[headerEnd..] == chunk[headerEnd..chunkLength];
        if chunkLength - headerEnd > 0 {
          WriteOut(headerEnd, chunkLength);
        }
      }
    }

    /** One received piece. */
    method Take(piece: seq<Byte>, ghost stream: seq<Byte>)
      requires Took(stream) && |piece| <= CHUNK_SIZE - 3
      modifies this`carryLength, this`headerDone, this`totalBytes, this`written, carry, chunk
      ensures Took(stream + piece)
    {
      hide HeaderEnd, Body;
      Begin(stream);
      PutPiece(piece);
      Feed(|piece|, stream, piece);
    }

    /** What arrived goes behind the carried bytes. */
    method PutPiece(piece: seq<Byte>)
      requires carryLength + |piece| <= chunk.Length
      modifies chunk
      ensures chunk[..carryLength + |piece|] == old(chunk[..carryLength]) + piece
    {
      forall k | 0 <= k < |piece| {
        chunk[carryLength + k] := piece[k];
      }
      assert chunk[carryLength..carryLength + |piece|] == piece;
      assert chunk[..carryLength + |piece|] == chunk[..carryLength] + chunk[carryLength..carryLength + |piece|];
    }
  }

  /** No blank line yet: the last three bytes are those of the chunk. */
  lemma StillNone(stream: seq<Byte>, arrived: seq<Byte>, chunk: seq<Byte>)
    requires HeaderEnd(stream) == None && chunk == stream[|stream| - Carried(stream)..] + arrived
    requires HeaderEnd(chunk) == None
    ensures HeaderEnd(stream + arrived) == None && Body(stream + arrived) == Body(stream) == []
    ensures var keep := if |chunk| < 3 then |chunk| else 3;
      keep == Carried(stream + arrived) && chunk[|chunk| - keep..] == (stream + arrived)[|stream + arrived| - keep..]
  {
    var o := |stream| - Carried(stream);
    NoMatch(chunk);
    forall k: nat
      ensures !MatchAt(stream + arrived, k)
    {
      if k < o {
        MatchInTail(stream, arrived, chunk, k);
      } else {
        MatchInTail(stream, arrived, chunk, k - o);
      }
    }
    NoMatch(stream + arrived);
  }

  /** The blank line is found where the whole stream first has one. */
  lemma NowFound(stream: seq<Byte>, arrived: seq<Byte>, chunk: seq<Byte>, end: nat)
    requires HeaderEnd(stream) == None && chunk == stream[|stream| - Carried(stream)..] + arrived
    requires HeaderEnd(chunk) == Some(end)
    ensures HeaderEnd(stream + arrived).Some? && Body(stream) == [] && end <= |chunk|
    ensures Body(stream + arrived) == chunk[end..]
  {
    var o := |stream| - Carried(stream);
    var k := MatchFrom(chunk, 0).value;
    MatchInTail(stream, arrived, chunk, k);
    forall j | 0 <= j < o + k
      ensures !MatchAt(stream + arrived, j)
    {
      if j < o {
        MatchInTail(stream, arrived, chunk, j);
      } else {
        MatchInTail(stream, arrived, chunk, j - o);
      }
    }
    EndsAtFirst(stream + arrived, o + k);
    assert (stream + arrived)[o + k + 4..] == chunk[k + 4..];
  }

  lemma BodyContinues(stream: seq<Byte>, arrived: seq<Byte>)
    requires HeaderEnd(stream).Some?
    ensures HeaderEnd(stream + arrived).Some? && Body(stream + arrived) == Body(stream) + arrived
  {
    BodyGrows(stream, arrived);
  }

  /** The received pieces joined together. */
  function Joined(chunks: seq<seq<Byte>>): seq<Byte> {
    if chunks == [] then [] else Joined(chunks[..|chunks| - 1]) + chunks[|chunks| - 1]
  }

  /** However a response is cut into pieces, empty and one-byte pieces included, the bytes written are what
      follows the first blank line of the whole. */
  method StripHeader(chunks: seq<seq<Byte>>) returns (written: seq<Byte>, total: nat)
    requires forall k :: 0 <= k < |chunks| ==> |chunks[k]| <= CHUNK_SIZE - 3
    ensures written == Body(Joined(chunks))
    ensures total == |written| % SEQUENCES
  {
    hide Body, Download.Took;
    var d := new Download();
    for n := 0 to |chunks|
      invariant d.Took(Joined(chunks[..n])) && fresh(d.carry) && fresh(d.chunk) && fresh(d)
    {
      ghost var stream := Joined(chunks[..n]);
      assert chunks[..n + 1][..n] == chunks[..n];
      d.Take(chunks[n], stream);
    }
    assert chunks[..|chunks|] == chunks;
    d.TookMeans(Joined(chunks));
    return d.written, d.totalBytes;
  }

  // ---- the download ----

  const REQUEST_SIZE := 256

  function RequestText(path: seq<Byte>, host: seq<Byte>): seq<Byte> {
    Text("GET ") + path + Text(" HTTP/1.0\r\nHost: ") + host + Text("\r\nConnection: close\r\n\r\n")
  }

  /** Where the parts of it stand: the path between the first two blanks, the host behind the "Host: " that begins
      the second line, and one blank line, which ends it. */
  lemma RequestIs(path: seq<Byte>, host: seq<Byte>)
    requires ' ' as int !in path && '\r' as int !in path && '\r' as int !in host
    ensures var s := RequestText(path, host);
            var n, m := 4 + |path|, 21 + |path|;
      && |s| == m + |host| + 23 && s[..3] == Text("GET")
      && s[3] == ' ' as int == s[n] && s[4..n] == path && (forall k :: 0 <= k < n && k != 3 ==> s[k] != ' ' as int)
      && s[n + 1..n + 9] == Text("HTTP/1.0") && s[n + 9..n + 11] == [13, 10] && s[n + 11..m] == Text("Host: ")
      && s[m..m + |host|] == host && s[m + |host|..m + |host| + 2] == [13, 10]
      && s[m + |host| + 2..m + |host| + 19] == Text("Connection: close") && HeaderEnd(s) == Some(|s|)
  {
    hide HeaderEnd, Text, RequestText;
    RequestFront(path, host);
    RequestBack(path, host);
    RequestEnds(path, host, RequestText(path, host));
  }

  lemma RequestFront(path: seq<Byte>, host: seq<Byte>)
    requires ' ' as int !in path
    ensures var s := RequestText(path, host);
            var n, m := 4 + |path|, 21 + |path|;
      && |s| == m + |host| + 23 && s[..3] == Text("GET")
      && s[3] == ' ' as int == s[n] && s[4..n] == path && (forall k :: 0 <= k < n && k != 3 ==> s[k] != ' ' as int)
      && s[n + 1..n + 9] == Text("HTTP/1.0") && s[n + 9..n + 11] == [13, 10] && s[n + 11..m] == Text("Host: ")
  {
    hide Text;
    GetText();
    HostText();
    CloseText();
    var front := Text("GET ") + path;
    assert RequestText(path, host)
        == front + (Text(" HTTP/1.0\r\nHost: ") + host + Text("\r\nConnection: close\r\n\r\n"));
  }

  lemma RequestBack(path: seq<Byte>, host: seq<Byte>)
    ensures var s := RequestText(path, host);
            var m := 21 + |path|;
      && |s| == m + |host| + 23 && s[m..m + |host|] == host && s[m + |host|..m + |host| + 2] == [13, 10]
      && s[m + |host| + 2..m + |host| + 19] == Text("Connection: close")
  {
    hide Text;
    GetText();
    HostText();
    CloseText();
    var middle := Text("GET ") + path + Text(" HTTP/1.0\r\nHost: ");
    assert RequestText(path, host) == middle + (host + Text("\r\nConnection: close\r\n\r\n"));
  }

  lemma GetText()
    ensures Text("GET ") == Text("GET") + [32] && 32 !in Text("GET") && 13 !in Text("GET")
  {
  }

  lemma HostText()
    ensures Text(" HTTP/1.0\r\nHost: ") == [32] + Text("HTTP/1.0") + [13, 10] + Text("Host: ")
  {
  }

  lemma CloseText()
    ensures Text("\r\nConnection: close\r\n\r\n") == [13, 10] + Text("Connection: close") + [13, 10, 13, 10]
  {
  }

  lemma NoReturns()
    ensures 13 !in Text("HTTP/1.0") && 13 !in Text("Host: ") && 13 !in Text("Connection: close")
  {
  }

  lemma RequestEnds(path: seq<Byte>, host: seq<Byte>, s: seq<Byte>)
    requires 13 !in path && 13 !in host && s == RequestText(path, host)
    ensures HeaderEnd(s) == Some(|s|)
  {
    hide HeaderEnd, Text;
    GetText();
    HostText();
    CloseText();
    NoReturns();
    var first := Text("GET") + [32] + path + [32] + Text("HTTP/1.0");
    var second := Text("Host: ") + host;
    var third := Text("Connection: close");
    assert 13 !in first && 13 !in second;
    assert s == first + [13, 10] + second + [13, 10] + third + [13, 10, 13, 10];
    forall k | 0 <= k < |s| - 4
      ensures !MatchAt(s, k)
    {
      var a, b := |first|, |first| + 2 + |second|;
      assert s[a] == 13 && s[b] == 13;
      assert k < a ==> s[k] == first[k];
      assert a + 2 <= k < b ==> s[k] == second[k - a - 2];
      assert b + 2 <= k < |s| - 4 ==> s[k] == third[k - b - 2];
      assert k == a ==> s[k + 2] != 13;
      assert k == b ==> s[k + 2] == third[0];
    }
    EndsAtFirst(s, |s| - 4);
  }

  /** The request, cut off at the size of its buffer. */
  method BuildRequest(path: seq<Byte>, host: seq<Byte>) returns (request: seq<Byte>)
    ensures request == Fitting(RequestText(path, host))
  {
    var parts := [Text("GET "), path, Text(" HTTP/1.0\r\nHost: "), host, Text("\r\nConnection: close\r\n\r\n")];
    request := [];
    for part := 0 to 5
      invariant request == Fitting(Flat(parts[..part]))
    {
      ghost var before := Flat(parts[..part]);
      FlatMore(parts, part);
      request := AppendPart(request, parts[part], before);
    }
    FlatFive(parts);
  }

  /** The beginning of `s` that fits the request buffer. */
  function Fitting(s: seq<Byte>): seq<Byte> {
    s[..Min(|s|, REQUEST_SIZE - 1)]
  }

  lemma FirstBytesFit(s: seq<Byte>)
    ensures Fitting(s) == if |s| <= 255 then s else s[..255]
  {
  }

  /** The copying loop for one part of the request. */
  method AppendPart(start: seq<Byte>, part: seq<Byte>, ghost before: seq<Byte>) returns (request: seq<Byte>)
    requires start == Fitting(before)
    ensures request == Fitting(before + part)
  {
    request := start;
    var index := 0;
    assert before + part[..0] == before;
    while index < |part| && |request| < REQUEST_SIZE - 1
      invariant index <= |part| && request == Fitting(before + part[..index])
    {
      assert before + part[..index + 1] == (before + part[..index]) + [part[index]];
      request := request + [part[index]];
      index := index + 1;
    }
    if index < |part| {
      assert Fitting(before + part) == Fitting(before + part[..index]);
    } else {
      assert part[..index] == part;
    }
  }

  function Flat(parts: seq<seq<Byte>>): seq<Byte> {
    if parts == [] then [] else Flat(parts[..|parts| - 1]) + parts[|parts| - 1]
  }

  lemma FlatMore(p: seq<seq<Byte>>, n: nat)
    requires n < |p|
    ensures Flat(p[..n + 1]) == Flat(p[..n]) + p[n]
  {
    assert p[..n + 1][..n] == p[..n];
  }

  lemma FlatFive(p: seq<seq<Byte>>)
    requires |p| == 5
    ensures Flat(p[..5]) == p[0] + p[1] + p[2] + p[3] + p[4]
  {
    FlatMore(p, 0);
    FlatMore(p, 1);
    FlatMore(p, 2);
    FlatMore(p, 3);
    FlatMore(p, 4);
    assert Flat(p[..0]) == [];
  }

  /** The cast of the byte count to the return type. */
  function AsInt(n: nat): int
    requires n < SEQUENCES
  {
    if n < 0x8000_0000 then n else n - SEQUENCES
  }

  /** What a download is going to have done at its end: the bytes handed over, the segments sent, the state of
      the connection, and whether the peer ever closes. */
  datatype Plan = Plan(bytes: seq<Byte>, sent: seq<Outgoing>, last: Conn, ends: bool)

  ghost function PlanOf(c: Connection, w: Wire): Plan
    requires c.Valid() && w.at <= |w.frames|
    reads c, c.recvBuffer, w
  {
    Plan(c.Coming(w), c.sent + c.Replying(w), c.Final(w), c.Finishing(w))
  }

  /** Between two passes of the receive loop: nothing is pending, `before` was fed, and what is still to come leads
      to the plan. */
  ghost predicate InStep(c: Connection, w: Wire, d: Download, before: seq<Byte>, plan: Plan)
    reads c, c.recvBuffer, w, d, d.carry
  {
    && c.Valid() && w.at <= |w.frames| && c.recvLength == 0 && d.Took(before)
    && PlanOf(c, w).(bytes := before + c.Coming(w)) == plan
    && c.phase != SynSent && d.carry != c.recvBuffer && d.chunk != c.recvBuffer
  }

  /** One pass: wait, receive, feed. */
  method ReceiveOnce(c: Connection, w: Wire, d: Download, ghost before: seq<Byte>, ghost plan: Plan)
    returns (received: nat, ghost fed: seq<Byte>)
    requires InStep(c, w, d, before, plan)
    modifies c`phase, c`sendNext, c`recvNext, c`peerClosed, c`recvLength, c`sent, c.recvBuffer, w, d, d.carry, d.chunk
    ensures InStep(c, w, d, fed, plan) && c.SamePeer(old(c.remoteIp), old(c.remotePort), old(c.localPort))
    ensures old(w.at) < |w.frames| ==> old(w.at) < w.at
    ensures received == 0 ==> fed == before
    ensures old(w.at) == |w.frames| ==> received == 0 && w.at == |w.frames|
  {
    hide Delivered, Body, HeaderEnd, Ends, Download.Took, Answered, After;
    var active := c.WaitActivity(w, 300000);
    ghost var pending := c.State().pending;
    d.Begin(before);
    received := c.Receive(d.chunk, d.carryLength, CHUNK_SIZE - d.carryLength);
    assert pending[..received] == pending;
    d.Feed(received, before, pending);
    fed := before + pending;
    assert c.Coming(w) == [] + Delivered(c.State(), w.frames[w.at..], c.remoteIp, c.remotePort, c.localPort);
  }

  /** The receive loop, until the connection is closed and drained, or the card has nothing more. */
  method ReceiveAll(c: Connection, w: Wire, d: Download, ghost plan: Plan)
    requires InStep(c, w, d, [], plan)
    modifies c`phase, c`sendNext, c`recvNext, c`peerClosed, c`recvLength, c`sent, c.recvBuffer, w, d, d.carry, d.chunk
    ensures c.Valid() && d.written == Body(plan.bytes) && d.totalBytes == |d.written| % SEQUENCES
    ensures c.sent == plan.sent && c.State() == plan.last && (c.phase == Closed <==> plan.ends)
  {
    hide Body, HeaderEnd, Delivered, Ends, Answered, After;
    ghost var fed := [];
    var going := true;
    while going
      invariant InStep(c, w, d, fed, plan)
      invariant !going ==>
        c.Coming(w) == [] && c.Replying(w) == [] && c.Final(w) == c.State() && (c.phase == Closed || w.at == |w.frames|)
      decreases if going then 1 else 0, |w.frames| - w.at
    {
      var received;
      received, fed := ReceiveOnce(c, w, d, fed, plan);
      var closed := c.IsClosedNow();
      going := !(closed && received == 0) && !(received == 0 && w.at == |w.frames|);
      if !going {
        NothingComes(c.State(), w.frames[w.at..], c.remoteIp, c.remotePort, c.localPort);
      }
    }
    assert fed + [] == fed && c.sent + [] == c.sent;
    if w.at == |w.frames| {
      SilenceEndsNothing(w.frames[w.at..], c.remoteIp, c.remotePort, c.localPort);
    }
  }

  lemma SilenceEndsNothing(frames: seq<Frame>, ip: nat, remote: nat, local: nat)
    requires frames == []
    ensures !Ends(frames, ip, remote, local)
  {
  }

  lemma NothingComes(c: Conn, frames: seq<Frame>, ip: nat, remote: nat, local: nat)
    requires c.pending == [] && (c.phase == Closed || frames == [])
    ensures Delivered(c, frames, ip, remote, local) == [] && Answered(c, frames, ip, remote, local) == []
    ensures After(c, frames, ip, remote, local) == c
  {
    if c.phase == Closed {
      NothingAfterClose(c, frames, ip, remote, local);
      SilentAfterClose(c, frames, ip, remote, local);
    }
  }

  /** What a download sends over the connection `e` that has just opened: the request, the ACKs of what came, and a
      FIN at the end unless the peer closed before. */
  function Exchange(e: Conn, rest: seq<Frame>, request: seq<Byte>, ip: nat, port: nat, local: nat): seq<Outgoing> {
    var asked := e.(sendNext := (e.sendNext + |request|) % SEQUENCES);
    var last := After(asked, rest, ip, port, local);
    [Outgoing(ip, local, port, e.sendNext, e.recvNext, 0x18, request)] + Answered(asked, rest, ip, port, local)
    + if last.phase == Established then [Outgoing(ip, local, port, last.sendNext, last.recvNext, 0x11, [])] else []
  }

  /** http_get_to_fd from the request on. */
  method Fetch(c: Connection, w: Wire, request: seq<Byte>) returns (d: Download)
    requires c.Valid() && w.at <= |w.frames| && |request| <= 1400
    requires c.phase == Established && c.State().pending == []
    modifies c, c.recvBuffer, w
    ensures d.totalBytes == |d.written| % SEQUENCES
    ensures var e, rest, ip, port, local := old(c.State()), old(w.frames[w.at..]), old(c.remoteIp), old(c.remotePort),
                                            old(c.localPort);
      && d.written == Body(Delivered(e, rest, ip, port, local)) && (c.phase == Closed <==> Ends(rest, ip, port, local))
      && c.sent == old(c.sent) + Exchange(e, rest, request, ip, port, local)
  {
    hide Body, HeaderEnd, Delivered, Ends, Answered, After, Download.Took;
    ghost var e, rest, ip, port, local := c.State(), w.frames[w.at..], c.remoteIp, c.remotePort, c.localPort;
    var ok := c.Send(request);
    ghost var asked := e.(sendNext := (e.sendNext + |request|) % SEQUENCES);
    assert c.State() == asked == asked.(pending := []);
    AnySendNext(e, c.sendNext, rest, ip, port, local);
    d := new Download();
    ghost var plan := PlanOf(c, w);
    ghost var all := Delivered(e, rest, ip, port, local);
    assert [] + all == all && plan.bytes == [] + all;
    assert InStep(c, w, d, [], plan);
    assert plan.last == After(asked, rest, ip, port, local) && (plan.ends <==> Ends(rest, ip, port, local));
    ReceiveAll(c, w, d, plan);
    c.Close();
  }

  /** http_get_to_fd; `written` is what was passed to vfs_write: the body of everything a receiver gets out
      of the frames, which the result counts. The connection ends up closed exactly when some frame closes
      it; if none does, the source goes on polling a silent card, and `written` is what it has passed on. */
  method HttpGetToFd(c: Connection, w: Wire, ip: nat, port: nat, path: seq<Byte>, host: seq<Byte>)
    returns (result: int, written: seq<Byte>)
    requires c.Valid() && w.at <= |w.frames| && ip < SEQUENCES && port < WORD
    modifies c, c.recvBuffer, w
    ensures match Open(ASKED, old(w.frames[w.at..]), TCP_CONNECT_ATTEMPTS, ip, port, (old(c.localPort) + 1) % WORD)
      case NotOpened =>
        && result == -1 && written == []
        && c.sent == old(c.sent) + [Outgoing(ip, (old(c.localPort) + 1) % WORD, port, 0x1000, 0, 0x02, [])]
      case Opened(e, rest) =>
        && c.sent == old(c.sent)
           + [Outgoing(ip, (old(c.localPort) + 1) % WORD, port, 0x1000, 0, 0x02, []),
              Reply(e, ip, port, (old(c.localPort) + 1) % WORD)]
           + Exchange(e, rest, Fitting(RequestText(path, host)), ip, port, (old(c.localPort) + 1) % WORD)
        && written == Body(Delivered(e, rest, ip, port, (old(c.localPort) + 1) % WORD))
        && result == AsInt(|written| % SEQUENCES)
        && (c.phase == Closed <==> Ends(rest, ip, port, (old(c.localPort) + 1) % WORD))
  {
    hide Body, HeaderEnd, Delivered, Open, RequestText, Ends, Exchange, Reply;
    var request := BuildRequest(path, host);
    FirstBytesFit(RequestText(path, host));
    var connected := c.Connect(w, ip, port);
    if !connected {
      return -1, [];
    }
    OpenedClean(ASKED, old(w.frames[w.at..]), TCP_CONNECT_ATTEMPTS, ip, port, c.localPort);
    var d := Fetch(c, w, request);
    return AsInt(d.totalBytes), d.written;
  }

  /** A connection that has just opened has nothing pending. */
  lemma {:induction false} OpenedClean(c: Conn, frames: seq<Frame>, attempts: nat, ip: nat, remote: nat, local: nat)
    requires c.phase == SynSent && c.pending == []
    ensures var o := Open(c, frames, attempts, ip, remote, local);
      o.Opened? ==> o.conn.phase == Established && o.conn.pending == []
    decreases attempts
  {
    if attempts > 0 && frames != [] {
      StillAsking(c, frames[0], ip, remote, local);
      var d := Next(c, frames[0], ip, remote, local);
      if d.phase != Established {
        OpenedClean(d, frames[1..], attempts - 1, ip, remote, local);
      }
    }
  }

  /** Which prefix of a stream has the body of the whole: all of it, unless there is no body to miss. */
  lemma BodyIsWhole(stream: seq<Byte>, n: nat)
    requires n <= |stream|
    ensures Body(stream[..n]) == Body(stream)
      <==> n == |stream| || HeaderEnd(stream) == None || HeaderEnd(stream) == Some(|stream|)
  {
    hide MatchFrom;
    var s := stream[..n];
    assert s + stream[n..] == stream;
    BodyOfPrefix(s, stream);
    if HeaderEnd(stream).Some? {
      var h := HeaderEnd(stream).value;
      HeaderWithin(stream, n);
      if n >= h {
        assert Body(s) == stream[h..n];
      }
    } else {
      HeaderWithin(stream, n);
    }
  }

  /** Where the header of a prefix ends. */
  lemma HeaderWithin(stream: seq<Byte>, n: nat)
    requires n <= |stream|
    ensures HeaderEnd(stream).Some? ==> HeaderEnd(stream).value <= |stream|
    ensures HeaderEnd(stream[..n])
         == if HeaderEnd(stream).Some? && HeaderEnd(stream).value <= n then HeaderEnd(stream) else None
  {
    var s := stream[..n];
    NoMatch(s);
    NoMatch(stream);
    forall j: nat
      ensures MatchAt(s, j) <==> MatchAt(stream, j) && j + 4 <= n
    {
    }
  }

  /** Whatever is lost, repeated or reordered on the way, http_get_to_fd passes on the body of the first
      bytes of the peer's stream, as many as its pieces in order up to the first closing frame reach; and it
      passes on the whole body if and only if they reach the end, or the stream has no body. */
  lemma DownloadIs(frames: seq<Frame>, ip: nat, remote: nat, local: nat, stream: seq<Byte>, base: nat)
    requires |stream| < SEQUENCES
    requires PeerSends(frames, ip, remote, local, stream, base) && AnswersFrom(frames, ip, remote, local, base)
    ensures var o := Open(ASKED, frames, TCP_CONNECT_ATTEMPTS, ip, remote, local);
      o.Opened? ==>
        var n := Reach(0, Events(o.rest, ip, remote, local, base));
        var written := Body(Delivered(o.conn, o.rest, ip, remote, local));
        && n <= |stream| && written == Body(stream[..n]) && written <= Body(stream)
        && (written == Body(stream)
            <==> n == |stream| || HeaderEnd(stream) == None || HeaderEnd(stream) == Some(|stream|))
  {
    hide Body, HeaderEnd, Delivered, Open, Reach, Events;
    OpenedInOrder(ASKED, frames, TCP_CONNECT_ATTEMPTS, ip, remote, local, stream, base);
    match Open(ASKED, frames, TCP_CONNECT_ATTEMPTS, ip, remote, local)
    case NotOpened =>
    case Opened(c, rest) =>
      var all := Delivered(c, rest, ip, remote, local);
      var n := Reach(0, Events(rest, ip, remote, local, base));
      DeliveredExactly(c, rest, ip, remote, local, stream, base, []);
      assert [] + all == all;
      BodyOfPrefix(all, stream);
      BodyIsWhole(stream, n);
  }

  /** From a peer that cuts its stream once and for all, a stream with a body is downloaded whole if and
      only if its segments come as a subsequence, in order, before anything closes the connection. */
  lemma DownloadIsWhole(frames: seq<Frame>, ip: nat, remote: nat, local: nat, stream: seq<Byte>, base: nat,
                        cuts: seq<nat>)
    requires |stream| < SEQUENCES && CutUp(cuts, |stream|)
    requires PeerSends(frames, ip, remote, local, stream, base) && AnswersFrom(frames, ip, remote, local, base)
    requires HeaderEnd(stream).Some? && HeaderEnd(stream).value < |stream|
    ensures var o := Open(ASKED, frames, TCP_CONNECT_ATTEMPTS, ip, remote, local);
      o.Opened? && Segmented(Events(o.rest, ip, remote, local, base), cuts) ==>
        (Body(Delivered(o.conn, o.rest, ip, remote, local)) == Body(stream)
         <==> Relayed(Events(o.rest, ip, remote, local, base), cuts, 0))
  {
    hide Body, HeaderEnd, Delivered, Open, Reach, Events, Segmented, Relayed;
    DownloadIs(frames, ip, remote, local, stream, base);
    match Open(ASKED, frames, TCP_CONNECT_ATTEMPTS, ip, remote, local)
    case NotOpened =>
    case Opened(c, rest) =>
      var events := Events(rest, ip, remote, local, base);
      if Segmented(events, cuts) {
        WholeMeansRelayed(events, cuts, |stream|, 0);
      }
  }
}
