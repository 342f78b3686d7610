/** The one-segment TCP client of kernel/tcp.c: the segments it sends, the state machine that takes
    arriving segments, and in-order delivery over any sequence of arrivals. */
module Tcp {
  import opened Bytes
  import opened Checksum

  const HEADER_SIZE := 20
  const TCP_RECV_BUFFER_SIZE := 1460
  const TCP_MAX_SEGMENT := 1400
  const TCP_CONNECT_ATTEMPTS := 300000
  const IP_PROTO_TCP: Byte := 6
  const SEQUENCES := 0x1_0000_0000

  const FIN_BIT := 0
  const SYN_BIT := 1
  const RST_BIT := 2
  const ACK_BIT := 4

  // ---- segments ----

  datatype Segment = Segment(sequence: nat, fin: bool, syn: bool, rst: bool, ack: bool, payload: seq<Byte>)

  /** What the header of a segment says, if it is long enough to be one. */
  function ParseSegment(s: seq<Byte>): (g: Option<Segment>)
    ensures g.Some? ==> g.value.sequence < SEQUENCES && |g.value.payload| <= |s| - HEADER_SIZE
  {
    if |s| < HEADER_SIZE then None
    else
      var headerLength := s[12] / 16 * 4;
      if headerLength < HEADER_SIZE || headerLength > |s| then None
      else Some(Segment(ReadBe32(s, 4), BitOf(s[13], FIN_BIT), BitOf(s[13], SYN_BIT), BitOf(s[13], RST_BIT),
                        BitOf(s[13], ACK_BIT), s[headerLength..]))
  }

  /** The segment tcp_send_segment builds, before its checksum is filled in. */
  function Built(localPort: nat, remotePort: nat, sendNext: nat, recvNext: nat, flags: Byte,
                 payload: seq<Byte>): (s: seq<Byte>)
    requires localPort < WORD && remotePort < WORD && sendNext < SEQUENCES && recvNext < SEQUENCES
    ensures |s| == HEADER_SIZE + |payload|
  {
    Be16(localPort) + Be16(remotePort) + Be32(sendNext) + Be32(recvNext) + [HEADER_SIZE / 4 * 16, flags]
    + Be16(4096) + Be16(0) + Be16(0) + payload
  }

  lemma ReadBack16(v: nat, s: seq<Byte>, o: nat)
    requires v < WORD && o + 2 <= |s| && s[o..o + 2] == Be16(v)
    ensures ReadBe16(s, o) == v
  {
    assert s[o] == s[o..o + 2][0] && s[o + 1] == s[o..o + 2][1];
  }

  lemma ReadBack32(v: nat, s: seq<Byte>, o: nat)
    requires v < SEQUENCES && o + 4 <= |s| && s[o..o + 4] == Be32(v)
    ensures ReadBe32(s, o) == v
  {
    assert s[o..o + 2] == s[o..o + 4][..2] == Be16(v / WORD);
    assert s[o + 2..o + 4] == s[o..o + 4][2..] == Be16(v % WORD);
    ReadBack16(v / WORD, s, o);
    ReadBack16(v % WORD, s, o + 2);
  }

  /** The other side reads from a segment just what was put in. */
  predicate Carries(s: seq<Byte>, localPort: nat, remotePort: nat, sendNext: nat, recvNext: nat, flags: Byte,
                    payload: seq<Byte>) {
    && |s| == HEADER_SIZE + |payload| && s[12] == 0x50 && s[13] == flags
    && ReadBe16(s, 0) == localPort && ReadBe16(s, 2) == remotePort && ReadBe32(s, 8) == recvNext
    && ReadBe16(s, 14) == 4096 && ReadBe16(s, 18) == 0
    && ParseSegment(s) == Some(Segment(sendNext, BitOf(flags, FIN_BIT), BitOf(flags, SYN_BIT), BitOf(flags, RST_BIT),
                                BitOf(flags, ACK_BIT), payload))
  }

  lemma BuiltCarries(localPort: nat, remotePort: nat, sendNext: nat, recvNext: nat, flags: Byte, payload: seq<Byte>,
                     t: seq<Byte>)
    requires localPort < WORD && remotePort < WORD && sendNext < SEQUENCES && recvNext < SEQUENCES
    requires var s := Built(localPort, remotePort, sendNext, recvNext, flags, payload);
      |t| == |s| && t[..16] == s[..16] && t[18..] == s[18..]
    ensures Carries(t, localPort, remotePort, sendNext, recvNext, flags, payload)
  {
    hide BitOf, Be16, Be32, ReadBe16, ReadBe32;
    var s := Built(localPort, remotePort, sendNext, recvNext, flags, payload);
    assert t[0..2] == t[..16][0..2] == s[..16][0..2] == s[0..2] == Be16(localPort);
    assert t[2..4] == t[..16][2..4] == s[..16][2..4] == s[2..4] == Be16(remotePort);
    assert t[4..8] == t[..16][4..8] == s[..16][4..8] == s[4..8] == Be32(sendNext);
    ReadBack16(localPort, t, 0);
    ReadBack16(remotePort, t, 2);
    assert t[8..12] == t[..16][8..12] == s[..16][8..12] == s[8..12] == Be32(recvNext);
    assert t[14..16] == t[..16][14..16] == s[..16][14..16] == s[14..16] == Be16(4096);
    ReadBack32(sendNext, t, 4);
    ReadBack32(recvNext, t, 8);
    ReadBack16(4096, t, 14);
    assert t[12] == t[..16][12] == s[..16][12] == 80;
    assert t[13] == t[..16][13] == s[..16][13] == flags;
    assert t[18..20] == t[18..][..2] == s[18..][..2] == s[18..20] == Be16(0);
    ReadBack16(0, t, 18);
    assert t[20..] == t[18..][2..] == s[18..][2..] == s[20..] == payload;
  }

  // ---- the state machine ----

  datatype Phase = Closed | SynSent | Established | Closing

  /** The connection as the packet handler sees it; `pending` is the stored payload. */
  datatype Conn = Conn(phase: Phase, sendNext: nat, recvNext: nat, peerClosed: bool, pending: seq<Byte>)

  /** tcp_handle_packet on a segment that is for this connection. */
  function Handle(c: Conn, g: Segment): Conn {
    match c.phase
    case Closed => c
    case SynSent =>
      if g.syn && g.ack then
        c.(phase := Established, recvNext := (g.sequence + 1) % SEQUENCES, sendNext := (c.sendNext + 1) % SEQUENCES)
      else c
    case _ =>
      if g.rst then c.(phase := Closed, peerClosed := true)
      else
        var d := if g.payload != [] && g.sequence == c.recvNext then Accept(c, g.payload) else c;
        if g.fin then d.(phase := Closed, peerClosed := true, recvNext := (d.recvNext + 1) % SEQUENCES) else d
  }

  function Accept(c: Conn, payload: seq<Byte>): Conn {
    c.(pending := payload[..Min(|payload|, TCP_RECV_BUFFER_SIZE)], recvNext := (c.recvNext + |payload|) % SEQUENCES)
  }

  /** tcp_is_closed. */
  predicate IsClosed(c: Conn) {
    c.peerClosed || c.phase == Closed
  }

  // ---- in-order delivery ----

  /** The segment carries a piece of the peer's stream, whose first byte has sequence number `base`. It may
      be a duplicate, out of order, or follow others that got lost. */
  ghost predicate Honest(g: Segment, stream: seq<Byte>, base: nat) {
    g.payload != [] ==> |g.payload| <= TCP_RECV_BUFFER_SIZE && exists o :: PieceAt(g, stream, base, o)
  }

  predicate PieceAt(g: Segment, stream: seq<Byte>, base: nat, o: nat) {
    o + |g.payload| <= |stream| && g.payload == stream[o..o + |g.payload|] && g.sequence == (base + o) % SEQUENCES
  }

  /** What was handed over and what is pending make up a prefix of the stream, and the next sequence
      number expected is the one behind it. */
  predicate InOrder(c: Conn, stream: seq<Byte>, base: nat, delivered: seq<Byte>) {
    && delivered + c.pending <= stream && |stream| < SEQUENCES
    && |c.pending| <= TCP_RECV_BUFFER_SIZE
    && (c.phase == Established || c.phase == Closing ==> c.recvNext == (base + |delivered| + |c.pending|) % SEQUENCES)
  }

  lemma SameOffset(base: nat, m: nat, n: nat)
    requires m < SEQUENCES && n < SEQUENCES && (base + m) % SEQUENCES == (base + n) % SEQUENCES
    ensures m == n
  {
    var a, b := (base + m) / SEQUENCES, (base + n) / SEQUENCES;
    assert base + m == a * SEQUENCES + (base + m) % SEQUENCES;
    assert base + n == b * SEQUENCES + (base + n) % SEQUENCES;
    assert m - n == (a - b) * SEQUENCES;
  }

  lemma SequenceAdds(base: nat, m: nat, n: nat)
    ensures ((base + m) % SEQUENCES + n) % SEQUENCES == (base + m + n) % SEQUENCES
  {
    ModOnce(base + m, n, (base + m) / SEQUENCES);
  }

  lemma ModOnce(x: nat, n: nat, q: nat)
    requires q == x / SEQUENCES
    ensures (x % SEQUENCES + n) % SEQUENCES == (x + n) % SEQUENCES
  {
    assert x + n == x % SEQUENCES + n + q * SEQUENCES;
  }

  /** An arriving segment extends the prefix or changes nothing in it; nothing is overwritten or cut off, as
      long as nothing is pending when it arrives. */
  lemma HandleKeepsOrder(c: Conn, g: Segment, stream: seq<Byte>, base: nat, delivered: seq<Byte>)
    requires InOrder(c, stream, base, delivered) && Honest(g, stream, base) && c.pending == [] && c.phase != SynSent
    ensures InOrder(Handle(c, g), stream, base, delivered) && Handle(c, g).phase != SynSent
  {
    var n := |delivered|;
    if g.payload != [] && g.sequence == c.recvNext && (c.phase == Established || c.phase == Closing) {
      var o :| PieceAt(g, stream, base, o);
      SameOffset(base, o, n);
      SequenceAdds(base, n, |g.payload|);
      assert g.payload[..Min(|g.payload|, TCP_RECV_BUFFER_SIZE)] == g.payload;
      assert delivered + g.payload == stream[..n + |g.payload|];
    }
  }

  /** What one segment of the peer adds: all of its payload if that is the next piece of the stream and no
      RST comes with it, FIN or not, and otherwise nothing. A FIN or an RST closes the connection, wherever
      in the stream it stands. */
  lemma HandleTakesNext(c: Conn, g: Segment, stream: seq<Byte>, base: nat, delivered: seq<Byte>, o: nat)
    requires InOrder(c, stream, base, delivered) && c.pending == [] && c.phase in {Established, Closing}
    requires PieceAt(g, stream, base, o) && |g.payload| <= TCP_RECV_BUFFER_SIZE
    ensures var d := Handle(c, g);
      && delivered + d.pending == (if !g.rst && o == |delivered| then stream[..o + |g.payload|] else delivered)
      && (d.phase == Closed <==> g.rst || g.fin) && d.phase != SynSent
  {
    var n := |delivered|;
    assert delivered + [] == delivered == stream[..n];
    if g.payload != [] && g.sequence == c.recvNext {
      SameOffset(base, o, n);
    }
    assert g.payload[..Min(|g.payload|, TCP_RECV_BUFFER_SIZE)] == g.payload;
    assert o == n ==> delivered + g.payload == stream[..o + |g.payload|];
  }

  /** When a closing segment completes the delivery: section 3.10.7.4 of RFC 9293 has a FIN wait for the data
      before it; here it closes at once, so that the stream is whole only if it was before, or if the FIN
      comes with just the piece that was missing. */
  lemma CloserCompletes(c: Conn, g: Segment, stream: seq<Byte>, base: nat, delivered: seq<Byte>, o: nat)
    requires InOrder(c, stream, base, delivered) && c.pending == [] && c.phase in {Established, Closing}
    requires PieceAt(g, stream, base, o) && |g.payload| <= TCP_RECV_BUFFER_SIZE && (g.fin || g.rst)
    ensures delivered + Handle(c, g).pending == stream
      <==> |delivered| == |stream| || (!g.rst && o == |delivered| && o + |g.payload| == |stream|)
    ensures forall h :: Handle(Handle(c, g), h) == Handle(c, g)
  {
    hide InOrder;
    HandleTakesNext(c, g, stream, base, delivered, o);
    InOrderPrefix(c, stream, base, delivered);
    assert |stream| == o + |g.payload| ==> stream[..o + |g.payload|] == stream;
  }

  /** A frame that net_poll takes off the card: a TCP packet with its source, or something else. */
  datatype Frame = Nothing | Packet(data: seq<Byte>, source: nat)

  class Wire {
    const frames: seq<Frame>
    var at: nat

    constructor (f: seq<Frame>)
      ensures frames == f && at == 0
    {
      frames := f;
      at := 0;
    }
  }

  /** The segment a frame brings to a connection, if any. */
  function Arrives(f: Frame, remoteIp: nat, remotePort: nat, localPort: nat): Option<Segment> {
    match f
    case Nothing => None
    case Packet(data, source) =>
      if |data| < HEADER_SIZE || source != remoteIp || ReadBe16(data, 0) != remotePort || ReadBe16(data, 2) != localPort
      then None
      else ParseSegment(data)
  }

  /** What polling frame `f` makes of a connection. */
  function Next(c: Conn, f: Frame, ip: nat, remote: nat, local: nat): Conn {
    match Arrives(f, ip, remote, local)
    case None => c
    case Some(g) => Handle(c, g)
  }

  /** The bytes a receiver gets out of `frames` when it collects each payload before polling on. */
  function Delivered(c: Conn, frames: seq<Frame>, ip: nat, remote: nat, local: nat): seq<Byte>
    decreases |frames|
  {
    if frames == [] then []
    else
      var d := Next(c, frames[0], ip, remote, local);
      d.pending + Delivered(d.(pending := []), frames[1..], ip, remote, local)
  }

  /** What is passed to tcp_send_segment: whom it is for, and what goes into the header and behind it. */
  datatype Outgoing = Outgoing(ip: nat, localPort: nat, remotePort: nat, sequence: nat, ack: nat, flags: Byte,
                               payload: seq<Byte>)

  /** The states in which tcp_handle_packet acknowledges a segment: the answer to a SYN, a payload it stored, a FIN. */
  function Acks(c: Conn, g: Segment): seq<Conn> {
    match c.phase
    case Closed => []
    case SynSent => if g.syn && g.ack then [Handle(c, g)] else []
    case _ =>
      if g.rst then []
      else
        var taken := g.payload != [] && g.sequence == c.recvNext;
        var d := if taken then Accept(c, g.payload) else c;
        (if taken then [d] else []) + (if g.fin then [d.(recvNext := (d.recvNext + 1) % SEQUENCES)] else [])
  }

  /** An ACK without data. */
  function Reply(c: Conn, ip: nat, remote: nat, local: nat): Outgoing {
    Outgoing(ip, local, remote, c.sendNext, c.recvNext, 0x10, [])
  }

  function Replies(cs: seq<Conn>, ip: nat, remote: nat, local: nat): (r: seq<Outgoing>)
    ensures |r| == |cs|
  {
    seq(|cs|, k requires 0 <= k < |cs| => Reply(cs[k], ip, remote, local))
  }

  /** What polling frame `f` makes a connection send. */
  function Answer(c: Conn, f: Frame, ip: nat, remote: nat, local: nat): seq<Outgoing> {
    match Arrives(f, ip, remote, local)
    case None => []
    case Some(g) => Replies(Acks(c, g), ip, remote, local)
  }

  /** What a receiver sends in answer to `frames`. */
  function Answered(c: Conn, frames: seq<Frame>, ip: nat, remote: nat, local: nat): seq<Outgoing>
    decreases |frames|
  {
    if frames == [] then []
    else
      Answer(c, frames[0], ip, remote, local)
      + Answered(Next(c, frames[0], ip, remote, local).(pending := []), frames[1..], ip, remote, local)
  }

  /** The state of a receiver that has collected everything `frames` bring. */
  function After(c: Conn, frames: seq<Frame>, ip: nat, remote: nat, local: nat): Conn
    decreases |frames|
  {
    if frames == [] then c
    else After(Next(c, frames[0], ip, remote, local).(pending := []), frames[1..], ip, remote, local)
  }

  datatype Opening = NotOpened | Opened(conn: Conn, rest: seq<Frame>)

  /** How a handshake ends that polls at most `attempts` times: the connection and the frames still to come. */
  function Open(c: Conn, frames: seq<Frame>, attempts: nat, ip: nat, remote: nat, local: nat): Opening
    decreases attempts
  {
    if attempts == 0 || frames == [] then NotOpened
    else
      var d := Next(c, frames[0], ip, remote, local);
      if d.phase == Established then Opened(d, frames[1..]) else Open(d, frames[1..], attempts - 1, ip, remote, local)
  }

  /** A connection whose SYN has just been sent. */
  const ASKED := Conn(SynSent, 0x1000, 0, false, [])

  lemma {:induction false} NothingAfterClose(c: Conn, frames: seq<Frame>, ip: nat, remote: nat, local: nat)
    requires c.phase == Closed && c.pending == []
    ensures Delivered(c, frames, ip, remote, local) == []
    decreases |frames|
  {
    if frames != [] {
      NothingAfterClose(c, frames[1..], ip, remote, local);
    }
  }

  lemma {:induction false} SilentAfterClose(c: Conn, frames: seq<Frame>, ip: nat, remote: nat, local: nat)
    requires c.phase == Closed && c.pending == []
    ensures Answered(c, frames, ip, remote, local) == [] && After(c, frames, ip, remote, local) == c
    decreases |frames|
  {
    if frames != [] {
      SilentAfterClose(c, frames[1..], ip, remote, local);
    }
  }

  /** What the receiver itself sends has no bearing on what it gets. */
  lemma {:induction false} AnySendNext(c: Conn, n: nat, frames: seq<Frame>, ip: nat, remote: nat, local: nat)
    requires c.phase != SynSent
    ensures Delivered(c.(sendNext := n), frames, ip, remote, local) == Delivered(c, frames, ip, remote, local)
    decreases |frames|
  {
    if frames != [] {
      var d := Next(c, frames[0], ip, remote, local);
      assert Next(c.(sendNext := n), frames[0], ip, remote, local) == d.(sendNext := n);
      AnySendNext(d.(pending := []), n, frames[1..], ip, remote, local);
    }
  }

  /** The frame brings a segment that closes an open connection. */
  predicate ClosingFrame(f: Frame, ip: nat, remote: nat, local: nat) {
    match Arrives(f, ip, remote, local)
    case None => false
    case Some(g) => g.fin || g.rst
  }

  predicate Ends(frames: seq<Frame>, ip: nat, remote: nat, local: nat) {
    exists k :: 0 <= k < |frames| && ClosingFrame(frames[k], ip, remote, local)
  }

  lemma EndsStep(frames: seq<Frame>, ip: nat, remote: nat, local: nat)
    requires frames != []
    ensures Ends(frames, ip, remote, local)
      <==> ClosingFrame(frames[0], ip, remote, local) || Ends(frames[1..], ip, remote, local)
  {
    hide ClosingFrame;
    if Ends(frames[1..], ip, remote, local) {
      var k :| 0 <= k < |frames[1..]| && ClosingFrame(frames[1..][k], ip, remote, local);
      assert frames[k + 1] == frames[1..][k];
    }
    if Ends(frames, ip, remote, local) && !ClosingFrame(frames[0], ip, remote, local) {
      var k :| 0 <= k < |frames| && ClosingFrame(frames[k], ip, remote, local);
      assert frames[1..][k - 1] == frames[k];
    }
  }

  lemma NextCloses(c: Conn, f: Frame, ip: nat, remote: nat, local: nat)
    requires c.phase != SynSent
    ensures var d := Next(c, f, ip, remote, local);
      d.phase != SynSent && (d.phase == Closed <==> c.phase == Closed || ClosingFrame(f, ip, remote, local))
  {
  }

  lemma InOrderPrefix(c: Conn, stream: seq<Byte>, base: nat, before: seq<Byte>)
    requires InOrder(c, stream, base, before) && c.pending == []
    ensures before <= stream && before == stream[..|before|]
  {
    assert before + [] == before;
  }

  /** A payload that was collected counts as delivered. */
  lemma Collected(c: Conn, stream: seq<Byte>, base: nat, before: seq<Byte>)
    requires InOrder(c, stream, base, before)
    ensures InOrder(c.(pending := []), stream, base, before + c.pending)
  {
    assert before + c.pending + [] == before + c.pending;
  }

  // ---- delivery, without sequence numbers ----

  /** What a frame means to a receiver that counts bytes from the start of the stream. */
  datatype Event = Idle | Piece(at: nat, length: nat, last: bool) | Reset

  function EventOf(f: Frame, ip: nat, remote: nat, local: nat, base: nat): Event {
    match Arrives(f, ip, remote, local)
    case None => Idle
    case Some(g) =>
      if g.rst then Reset
      else if g.payload == [] && !g.fin then Idle
      else Piece((g.sequence - base) % SEQUENCES, |g.payload|, g.fin)
  }

  function Events(frames: seq<Frame>, ip: nat, remote: nat, local: nat, base: nat): (events: seq<Event>)
    ensures |events| == |frames|
    ensures forall k :: 0 <= k < |frames| ==> events[k] == EventOf(frames[k], ip, remote, local, base)
    decreases |frames|
  {
    if frames == [] then []
    else [EventOf(frames[0], ip, remote, local, base)] + Events(frames[1..], ip, remote, local, base)
  }

  predicate Closes(e: Event) {
    e.Reset? || (e.Piece? && e.last)
  }

  /** How many bytes of the stream a receiver has in the end that has `n` now and takes a piece exactly when
      it starts where it stands. */
  function Reach(n: nat, events: seq<Event>): nat
    decreases |events|
  {
    if events == [] then n
    else
      match events[0]
      case Idle => Reach(n, events[1..])
      case Reset => n
      case Piece(at, length, last) =>
        var m := if at == n then n + length else n;
        if last then m else Reach(m, events[1..])
  }

  lemma PieceOffset(g: Segment, stream: seq<Byte>, base: nat, o: nat)
    requires PieceAt(g, stream, base, o) && |stream| < SEQUENCES
    ensures o == (g.sequence - base) % SEQUENCES
  {
    var q := (base + o) / SEQUENCES;
    assert base + o == q * SEQUENCES + g.sequence;
    var r := (g.sequence - base) % SEQUENCES;
    var p := (g.sequence - base) / SEQUENCES;
    assert g.sequence - base == p * SEQUENCES + r;
    assert o - r == (q + p) * SEQUENCES;
  }

  /** One frame. */
  lemma NextReaches(c: Conn, f: Frame, ip: nat, remote: nat, local: nat, stream: seq<Byte>, base: nat,
                    before: seq<Byte>)
    requires InOrder(c, stream, base, before) && c.pending == [] && c.phase in {Established, Closing}
    requires match Arrives(f, ip, remote, local) { case None => true case Some(g) => Honest(g, stream, base) }
    ensures var d := Next(c, f, ip, remote, local);
            var e := EventOf(f, ip, remote, local, base);
      && InOrder(d, stream, base, before) && d.phase in {Established, Closing, Closed}
      && (d.phase == Closed <==> Closes(e))
      && |before + d.pending| == if e.Piece? && e.at == |before| then |before| + e.length else |before|
  {
    hide PieceAt;
    match Arrives(f, ip, remote, local)
    case None =>
    case Some(g) =>
      HandleKeepsOrder(c, g, stream, base, before);
      InOrderPrefix(c, stream, base, before);
      if g.payload != [] {
        var o :| PieceAt(g, stream, base, o);
        PieceFits(g, stream, base, o);
        PieceOffset(g, stream, base, o);
        HandleTakesNext(c, g, stream, base, before, o);
      }
  }

  lemma PieceFits(g: Segment, stream: seq<Byte>, base: nat, o: nat)
    requires PieceAt(g, stream, base, o)
    ensures o + |g.payload| <= |stream|
  {
  }

  /** In-order delivery: whatever is lost, repeated or reordered on the way, the bytes a receiver gets are
      the next ones of the peer's stream, and just as many as the pieces in order up to the first closing
      frame reach. */
  lemma {:induction false} DeliveredExactly(c: Conn, frames: seq<Frame>, ip: nat, remote: nat, local: nat,
                                            stream: seq<Byte>, base: nat, before: seq<Byte>)
    requires InOrder(c, stream, base, before) && c.pending == [] && c.phase in {Established, Closing}
    requires PeerSends(frames, ip, remote, local, stream, base)
    ensures var n := Reach(|before|, Events(frames, ip, remote, local, base));
      n <= |stream| && before + Delivered(c, frames, ip, remote, local) == stream[..n]
    decreases |frames|
  {
    hide Next, InOrder, EventOf, Closes;
    InOrderPrefix(c, stream, base, before);
    if frames == [] {
      assert before + [] == before;
    } else {
      NextReaches(c, frames[0], ip, remote, local, stream, base, before);
      var d := Next(c, frames[0], ip, remote, local);
      Collected(d, stream, base, before);
      InOrderPrefix(d.(pending := []), stream, base, before + d.pending);
      var later := Delivered(d.(pending := []), frames[1..], ip, remote, local);
      assert before + (d.pending + later) == before + d.pending + later;
      ReachStep(|before|, Events(frames, ip, remote, local, base), |before + d.pending|);
      assert Events(frames, ip, remote, local, base)[1..] == Events(frames[1..], ip, remote, local, base);
      if d.phase == Closed {
        NothingAfterClose(d.(pending := []), frames[1..], ip, remote, local);
        assert before + d.pending + [] == before + d.pending;
      } else {
        DeliveredExactly(d.(pending := []), frames[1..], ip, remote, local, stream, base, before + d.pending);
      }
    }
  }

  lemma ReachStep(n: nat, events: seq<Event>, m: nat)
    requires events != [] && m == if events[0].Piece? && events[0].at == n then n + events[0].length else n
    ensures Reach(n, events) == if Closes(events[0]) then m else Reach(m, events[1..])
  {
  }

  // ---- a peer that cuts its stream once and for all ----

  /** Where a peer cuts a stream of `end` bytes. */
  predicate CutUp(cuts: seq<nat>, end: nat) {
    && cuts != [] && cuts[0] == 0 && cuts[|cuts| - 1] == end
    && forall j, k :: 0 <= j < k < |cuts| ==> cuts[j] < cuts[k]
  }

  predicate IsSegment(e: Event, cuts: seq<nat>, j: nat) {
    j + 1 < |cuts| && e.Piece? && e.at == cuts[j] && cuts[j] + e.length == cuts[j + 1]
  }

  /** Every piece with data in it is one of the segments. */
  ghost predicate Segmented(events: seq<Event>, cuts: seq<nat>) {
    forall k :: 0 <= k < |events| && events[k].Piece? && events[k].length > 0 ==>
      exists j :: IsSegment(events[k], cuts, j)
  }

  /** The segments from `j` on come at these places, in this order, and none of them after a closing frame. */
  predicate Relay(events: seq<Event>, cuts: seq<nat>, j: nat, places: seq<nat>) {
    && j + |places| + 1 == |cuts|
    && (forall k :: 0 <= k < |places| ==> places[k] < |events| && IsSegment(events[places[k]], cuts, j + k))
    && (forall k, l :: 0 <= k < l < |places| ==> places[k] < places[l])
    && (forall k, e :: 0 <= k < |places| && 0 <= e < places[k] && e < |events| ==> !Closes(events[e]))
  }

  ghost predicate Relayed(events: seq<Event>, cuts: seq<nat>, j: nat) {
    exists places :: Relay(events, cuts, j, places)
  }

  lemma AtTheEnd(events: seq<Event>, cuts: seq<nat>)
    requires cuts != []
    ensures Relayed(events, cuts, |cuts| - 1)
  {
    assert Relay(events, cuts, |cuts| - 1, []);
  }

  /** A first event that is not the next segment: it stays for the others to bring, unless it closes. */
  lemma PassedOver(events: seq<Event>, cuts: seq<nat>, j: nat)
    requires events != [] && j + 1 < |cuts| && !IsSegment(events[0], cuts, j)
    ensures Relayed(events, cuts, j) <==> !Closes(events[0]) && Relayed(events[1..], cuts, j)
  {
    hide IsSegment, Closes;
    if Relayed(events, cuts, j) {
      var places :| Relay(events, cuts, j, places);
      assert places[0] != 0;
      var down := seq(|places|, k requires 0 <= k < |places| => if places[k] > 0 then places[k] - 1 else 0);
      Shifted(events, cuts, j, places, down);
    }
    if !Closes(events[0]) && Relayed(events[1..], cuts, j) {
      var places :| Relay(events[1..], cuts, j, places);
      var up := seq(|places|, k requires 0 <= k < |places| => places[k] + 1);
      assert Relay(events, cuts, j, up);
    }
  }

  lemma Shifted(events: seq<Event>, cuts: seq<nat>, j: nat, places: seq<nat>, down: seq<nat>)
    requires events != [] && Relay(events, cuts, j, places) && |down| == |places|
    requires forall k :: 0 <= k < |places| ==> places[k] == down[k] + 1
    ensures Relay(events[1..], cuts, j, down)
  {
    hide IsSegment, Closes;
    forall k, e | 0 <= k < |down| && 0 <= e < down[k] && e < |events[1..]|
      ensures !Closes(events[1..][e])
    {
      assert events[1..][e] == events[e + 1];
    }
  }

  /** A first event that is the next segment is as good as any later copy of it. */
  lemma TakenAtOnce(events: seq<Event>, cuts: seq<nat>, j: nat)
    requires events != [] && j + 1 < |cuts| && IsSegment(events[0], cuts, j)
    ensures Relayed(events, cuts, j)
      <==> j + 2 == |cuts| || (!Closes(events[0]) && Relayed(events[1..], cuts, j + 1))
  {
    hide IsSegment, Closes;
    if Relayed(events, cuts, j) && j + 2 < |cuts| {
      var places :| Relay(events, cuts, j, places);
      var rest := places[1..];
      assert Relay(events, cuts, j + 1, rest);
      var down := seq(|rest|, k requires 0 <= k < |rest| => if rest[k] > 0 then rest[k] - 1 else 0);
      assert forall k :: 0 <= k < |rest| ==> places[0] < rest[k];
      Shifted(events, cuts, j + 1, rest, down);
      assert rest[0] > 0;
    }
    if j + 2 == |cuts| {
      assert Relay(events, cuts, j, [0]);
    }
    if !Closes(events[0]) && Relayed(events[1..], cuts, j + 1) {
      var places :| Relay(events[1..], cuts, j + 1, places);
      var up := [0] + seq(|places|, k requires 0 <= k < |places| => places[k] + 1);
      assert Relay(events, cuts, j, up);
    }
  }

  /** For such a peer the stream is delivered whole exactly when its segments come as a subsequence, in
      order, before anything closes the connection. */
  lemma {:induction false} WholeMeansRelayed(events: seq<Event>, cuts: seq<nat>, end: nat, j: nat)
    requires CutUp(cuts, end) && Segmented(events, cuts) && j < |cuts|
    ensures Reach(cuts[j], events) == end <==> Relayed(events, cuts, j)
    decreases |events|
  {
    hide Relay, Closes;
    if j + 1 == |cuts| {
      AtTheEnd(events, cuts);
      StaysAtEnd(events, cuts, end);
    } else if events == [] {
      NoEvents(cuts, j);
    } else {
      assert Segmented(events[1..], cuts);
      if IsSegment(events[0], cuts, j) {
        TakenAtOnce(events, cuts, j);
        ReachStep(cuts[j], events, cuts[j + 1]);
        WholeMeansRelayed(events[1..], cuts, end, j + 1);
        AtTheEnd(events[1..], cuts);
      } else {
        PassedOver(events, cuts, j);
        NotTaken(events, cuts, end, j);
        ReachStep(cuts[j], events, cuts[j]);
        WholeMeansRelayed(events[1..], cuts, end, j);
      }
    }
  }

  lemma NoEvents(cuts: seq<nat>, j: nat)
    requires j + 1 < |cuts|
    ensures !Relayed([], cuts, j)
  {
    forall places
      ensures !Relay([], cuts, j, places)
    {
      assert j + |places| + 1 == |cuts| ==> places[0] >= 0;
    }
  }

  lemma NotTaken(events: seq<Event>, cuts: seq<nat>, end: nat, j: nat)
    requires CutUp(cuts, end) && Segmented(events, cuts) && j < |cuts| && events != [] && !IsSegment(events[0], cuts, j)
    ensures events[0].Piece? && events[0].at == cuts[j] ==> events[0].length == 0
  {
    forall k
      ensures IsSegment(events[0], cuts, k) && events[0].at == cuts[j] ==> k == j
    {
    }
  }

  lemma {:induction false} StaysAtEnd(events: seq<Event>, cuts: seq<nat>, end: nat)
    requires CutUp(cuts, end) && Segmented(events, cuts)
    ensures Reach(end, events) == end
    decreases |events|
  {
    if events != [] {
      assert Segmented(events[1..], cuts);
      StaysAtEnd(events[1..], cuts, end);
      if events[0].Piece? && events[0].length > 0 {
        var k :| IsSegment(events[0], cuts, k);
      }
    }
  }

  /** A peer sends the first byte of a stream of two, and then, the acknowledgement being lost, both of them
      in one segment with a FIN. */
  function SentAnew(stream: seq<Byte>, base: nat, ip: nat, remote: nat, local: nat): seq<Frame>
    requires |stream| == 2 && base < SEQUENCES && remote < WORD && local < WORD
  {
    [Packet(Built(remote, local, base, 0, 0x10, stream[..1]), ip),
     Packet(Built(remote, local, base, 0, 0x11, stream), ip)]
  }

  lemma SentArrives(ip: nat, remote: nat, local: nat, base: nat, flags: Byte, payload: seq<Byte>)
    requires base < SEQUENCES && remote < WORD && local < WORD && (flags == 0x10 || flags == 0x11)
    ensures Arrives(Packet(Built(remote, local, base, 0, flags, payload), ip), ip, remote, local)
         == Some(Segment(base, flags == 0x11, false, false, true, payload))
  {
    hide Built, ReadBe16, ReadBe32, ParseSegment;
    var s := Built(remote, local, base, 0, flags, payload);
    BuiltCarries(remote, local, base, 0, flags, payload, s);
  }

  /** A peer that cuts its stream anew can bring all of it and still not have it delivered: the second frame
      holds the whole stream, but no longer starts where the receiver stands; and it closes the connection.
      Without the first frame the same receiver gets everything. */
  lemma CuttingAnewCanFail(c: Conn, stream: seq<Byte>, base: nat, ip: nat, remote: nat, local: nat)
    requires |stream| == 2 && base < SEQUENCES && remote < WORD && local < WORD
    requires c.phase == Established && c.recvNext == base && c.pending == []
    ensures var frames := SentAnew(stream, base, ip, remote, local);
      && PeerSends(frames, ip, remote, local, stream, base) && InOrder(c, stream, base, [])
      && Delivered(c, frames, ip, remote, local) == stream[..1]
      && Delivered(c, frames[1..], ip, remote, local) == stream
  {
    hide Arrives, Built;
    var frames := SentAnew(stream, base, ip, remote, local);
    SentArrives(ip, remote, local, base, 0x10, stream[..1]);
    SentArrives(ip, remote, local, base, 0x11, stream);
    assert PieceAt(Segment(base, false, false, false, true, stream[..1]), stream, base, 0);
    assert PieceAt(Segment(base, true, false, false, true, stream), stream, base, 0) by {
      assert stream[0..2] == stream;
    }
    var d := Next(c, frames[0], ip, remote, local);
    assert d.pending == stream[..1];
    assert Next(d.(pending := []), frames[1], ip, remote, local).pending == [];
    assert stream[..2] == stream;
    assert Next(c, frames[1], ip, remote, local).pending == stream;
    assert frames[1..] == [frames[1]];
    DeliveredAlone(c, frames[1], ip, remote, local);
    DeliveredAlone(d.(pending := []), frames[1], ip, remote, local);
  }

  lemma DeliveredAlone(c: Conn, f: Frame, ip: nat, remote: nat, local: nat)
    ensures Delivered(c, [f], ip, remote, local) == Next(c, f, ip, remote, local).pending
  {
    hide Next;
    var d := Next(c, f, ip, remote, local);
    assert d.pending + [] == d.pending;
    assert Delivered(d.(pending := []), [], ip, remote, local) == [];
  }

  /** A handshake with the peer whose stream starts at `base` sets the connection to receive its first byte. */
  lemma {:induction false} OpenedInOrder(c: Conn, frames: seq<Frame>, attempts: nat, ip: nat, remote: nat, local: nat,
                                         stream: seq<Byte>, base: nat)
    requires c.phase == SynSent && c.pending == [] && !c.peerClosed && |stream| < SEQUENCES
    requires AnswersFrom(frames, ip, remote, local, base)
    ensures var o := Open(c, frames, attempts, ip, remote, local);
      o.Opened? ==>
        && InOrder(o.conn, stream, base, []) && o.conn.phase == Established && o.conn.pending == []
        && !o.conn.peerClosed
        && |o.rest| < |frames| && o.rest == frames[|frames| - |o.rest|..]
    decreases attempts
  {
    hide Handle;
    if attempts > 0 && frames != [] {
      AnswerFacts(c, frames[0], ip, remote, local, base);
      var d := Next(c, frames[0], ip, remote, local);
      if d.phase != Established {
        OpenedInOrder(d, frames[1..], attempts - 1, ip, remote, local, stream, base);
      } else {
        assert [] + d.pending == [];
      }
    }
  }

  class Connection {
    var phase: Phase
    var remoteIp: nat
    var remotePort: nat
    var localPort: nat
    var localIp: nat
    var sendNext: nat
    var recvNext: nat
    var peerClosed: bool
    const recvBuffer: array<Byte>
    var recvLength: nat
    var sent: seq<Outgoing>

    ghost predicate Valid()
      reads this
    {
      && recvBuffer.Length == TCP_RECV_BUFFER_SIZE && recvLength <= TCP_RECV_BUFFER_SIZE
      && remoteIp < SEQUENCES && localIp < SEQUENCES && remotePort < WORD && localPort < WORD
      && sendNext < SEQUENCES && recvNext < SEQUENCES && (peerClosed ==> phase == Closed)
    }

    /** What is still to be received from the wire. */
    ghost function Coming(w: Wire): seq<Byte>
      requires Valid() && w.at <= |w.frames|
      reads this, recvBuffer, w
    {
      State().pending + Delivered(State().(pending := []), w.frames[w.at..], remoteIp, remotePort, localPort)
    }

    /** What is still to be sent in answer to the wire. */
    ghost function Replying(w: Wire): seq<Outgoing>
      requires Valid() && w.at <= |w.frames|
      reads this, recvBuffer, w
    {
      Answered(State().(pending := []), w.frames[w.at..], remoteIp, remotePort, localPort)
    }

    /** The state once everything on the wire is collected. */
    ghost function Final(w: Wire): Conn
      requires Valid() && w.at <= |w.frames|
      reads this, recvBuffer, w
    {
      After(State().(pending := []), w.frames[w.at..], remoteIp, remotePort, localPort)
    }

    /** The state of the connection as a value. */
    ghost function State(): Conn
      requires Valid()
      reads this, recvBuffer
    {
      Conn(phase, sendNext, recvNext, peerClosed, recvBuffer[..recvLength])
    }

    /** Whom the connection is with. */
    ghost predicate SamePeer(ip: nat, remote: nat, local: nat)
      reads this
    {
      remoteIp == ip && remotePort == remote && localPort == local
    }

    /** The connection is closed, or a frame still to come will close it. */
    predicate Finishing(w: Wire)
      requires w.at <= |w.frames|
      reads this, w
    {
      phase == Closed || Ends(w.frames[w.at..], remoteIp, remotePort, localPort)
    }

    constructor (ip: nat)
      requires ip < SEQUENCES
      ensures Valid() && fresh(recvBuffer) && phase == Closed && recvLength == 0 && localPort == 49152 && sent == []
    {
      phase, remoteIp, remotePort, localPort, localIp := Closed, 0, 0, 49152, ip;
      sendNext, recvNext, peerClosed, recvLength, sent := 0, 0, false, 0, [];
      recvBuffer := new Byte[TCP_RECV_BUFFER_SIZE];
    }

    /** tcp_send_segment, up to handing the packet to ip_send. */
    method SendSegment(flags: Byte, data: seq<Byte>) returns (segment: Option<seq<Byte>>)
      requires Valid()
      modifies this`sent
      ensures segment.None? <==> |data| > 1400
      ensures segment.None? ==> sent == old(sent)
      ensures segment.Some? ==>
        && Carries(segment.value, localPort, remotePort, sendNext, recvNext, flags, data)
        && Sum16(PseudoHeader(localIp, remoteIp, 6, |segment.value|) + segment.value, 0) == 0
        && sent == old(sent) + [Outgoing(remoteIp, localPort, remotePort, sendNext, recvNext, flags, data)]
    {
      if |data| > TCP_MAX_SEGMENT {
        return None;
      }
      var built := Built(localPort, remotePort, sendNext, recvNext, flags, data);
      var packet := new Byte[|built|](i requires 0 <= i < |built| => built[i]);
      var pseudo := PseudoSum(localIp, remoteIp, IP_PROTO_TCP, |built|);
      assert packet[..] == built;
      Seal(packet, |built|, 16, pseudo);
      var sealed := packet[..|built|];
      assert sealed[..16] == packet[..16] && sealed[18..] == packet[18..];
      BuiltCarries(localPort, remotePort, sendNext, recvNext, flags, data, sealed);
      PseudoSumSeeds(localIp, remoteIp, IP_PROTO_TCP, sealed);
      sent := sent + [Outgoing(remoteIp, localPort, remotePort, sendNext, recvNext, flags, data)];
      return Some(sealed);
    }

    /** tcp_send. */
    method Send(data: seq<Byte>) returns (ok: bool)
      requires Valid()
      modifies this`sendNext, this`sent
      ensures Valid() && ok == (phase == Established && |data| <= 1400)
      ensures sendNext == if ok then (old(sendNext) + |data|) % SEQUENCES else old(sendNext)
      ensures sent == old(sent)
        + if ok then [Outgoing(remoteIp, localPort, remotePort, old(sendNext), recvNext, 0x18, data)] else []
    {
      if phase != Established {
        return false;
      }
      var segment := SendSegment(0x18, data);
      if segment.None? {
        return false;
      }
      sendNext := (sendNext + |data|) % SEQUENCES;
      return true;
    }

    /** tcp_handle_packet. */
    method HandlePacket(data: seq<Byte>, source: nat)
      requires Valid()
      modifies this`phase, this`sendNext, this`recvNext, this`peerClosed, this`recvLength, this`sent, recvBuffer
      ensures Valid()
      ensures State() == match Arrives(Packet(data, source), remoteIp, remotePort, localPort) {
        case None => old(State())
        case Some(g) => Handle(old(State()), g)
      }
      ensures sent == old(sent) + Answer(old(State()), Packet(data, source), remoteIp, remotePort, localPort)
    {
      hide BitOf, ReadBe16, ReadBe32;
      if |data| < HEADER_SIZE {
        return;
      }
      if source != remoteIp || ReadBe16(data, 0) != remotePort || ReadBe16(data, 2) != localPort {
        return;
      }
      var headerLength := data[12] / 16 * 4;
      if headerLength < HEADER_SIZE || headerLength > |data| {
        return;
      }
      TakeSegment(ReadBe32(data, 4), data[13], data[headerLength..]);
    }

    /** tcp_send_segment with the ACK flag and no data. */
    method Acknowledge()
      requires Valid()
      modifies this`sent
      ensures Valid() && State() == old(State())
      ensures sent == old(sent) + [Reply(State(), remoteIp, remotePort, localPort)]
    {
      var segment := SendSegment(0x10, []);
    }

    /** The payload that comes next is stored, and the end of it dropped if it does not fit. */
    method Store(payload: seq<Byte>)
      requires Valid()
      modifies this`recvNext, this`recvLength, recvBuffer
      ensures Valid() && State() == Accept(old(State()), payload)
    {
      var copyLength := if |payload| > recvBuffer.Length then recvBuffer.Length else |payload|;
      forall k | 0 <= k < copyLength {
        recvBuffer[k] := payload[k];
      }
      assert recvBuffer[..copyLength] == payload[..copyLength];
      recvLength := copyLength;
      recvNext := (recvNext + |payload|) % SEQUENCES;
    }

    /** The rest of tcp_handle_packet, on a segment of this connection. */
    method TakeSegment(sequence: nat, flags: Byte, payload: seq<Byte>)
      requires Valid() && sequence < SEQUENCES
      modifies this`phase, this`sendNext, this`recvNext, this`peerClosed, this`recvLength, this`sent, recvBuffer
      ensures Valid()
      ensures var g := Segment(sequence, BitOf(flags, FIN_BIT), BitOf(flags, SYN_BIT), BitOf(flags, RST_BIT),
                               BitOf(flags, ACK_BIT), payload);
        && State() == Handle(old(State()), g)
        && sent == old(sent) + Replies(Acks(old(State()), g), remoteIp, remotePort, localPort)
    {
      hide BitOf, Replies, Handle, Acks;
      if phase == SynSent {
        TakeAnswer(sequence, BitOf(flags, SYN_BIT), BitOf(flags, ACK_BIT), BitOf(flags, FIN_BIT), BitOf(flags, RST_BIT),
                   payload);
      } else if phase == Established || phase == Closing {
        TakeOpen(sequence, BitOf(flags, SYN_BIT), BitOf(flags, ACK_BIT), BitOf(flags, FIN_BIT), BitOf(flags, RST_BIT),
                 payload);
      } else {
        ClosedIgnores(State(), Segment(sequence, BitOf(flags, FIN_BIT), BitOf(flags, SYN_BIT), BitOf(flags, RST_BIT),
                                       BitOf(flags, ACK_BIT), payload));
      }
    }

    /** While a SYN is out. */
    method TakeAnswer(sequence: nat, syn: bool, ack: bool, ghost fin: bool, ghost rst: bool, ghost payload: seq<Byte>)
      requires Valid() && sequence < SEQUENCES && phase == SynSent
      modifies this`phase, this`sendNext, this`recvNext, this`sent
      ensures Valid() && State() == Handle(old(State()), Segment(sequence, fin, syn, rst, ack, payload))
      ensures sent == old(sent) + Replies(Acks(old(State()), Segment(sequence, fin, syn, rst, ack, payload)),
                                          remoteIp, remotePort, localPort)
    {
      if syn && ack {
        recvNext := (sequence + 1) % SEQUENCES;
        sendNext := (sendNext + 1) % SEQUENCES;
        phase := Established;
        Acknowledge();
      }
    }

    /** Once the connection is open. */
    method TakeOpen(sequence: nat, ghost syn: bool, ghost ack: bool, fin: bool, rst: bool, payload: seq<Byte>)
      requires Valid() && sequence < SEQUENCES && phase in {Established, Closing}
      modifies this`phase, this`recvNext, this`peerClosed, this`recvLength, this`sent, recvBuffer
      ensures Valid() && State() == Handle(old(State()), Segment(sequence, fin, syn, rst, ack, payload))
      ensures sent == old(sent) + Replies(Acks(old(State()), Segment(sequence, fin, syn, rst, ack, payload)),
                                          remoteIp, remotePort, localPort)
    {
      if rst {
        phase := Closed;
        peerClosed := true;
        return;
      }
      ghost var c := State();
      var taken := |payload| > 0 && sequence == recvNext;
      if taken {
        Store(payload);
        Acknowledge();
      }
      ghost var d := State();
      if fin {
        TakeFin();
      }
      OpenReplies(c, d, Segment(sequence, fin, syn, rst, ack, payload), remoteIp, remotePort, localPort);
    }

    method TakeFin()
      requires Valid()
      modifies this`phase, this`recvNext, this`peerClosed, this`sent
      ensures Valid()
      ensures State() == old(State()).(phase := Closed, peerClosed := true, recvNext := (old(recvNext) + 1) % SEQUENCES)
      ensures sent == old(sent)
        + [Reply(old(State()).(recvNext := (old(recvNext) + 1) % SEQUENCES), remoteIp, remotePort, localPort)]
    {
      recvNext := (recvNext + 1) % SEQUENCES;
      Acknowledge();
      peerClosed := true;
      phase := Closed;
    }

    /** net_poll: at most one frame is taken from the card. */
    method Poll(w: Wire)
      requires Valid() && w.at <= |w.frames|
      modifies this`phase, this`sendNext, this`recvNext, this`peerClosed, this`recvLength, this`sent, recvBuffer, w
      ensures Valid()
      ensures w.at == (if old(w.at) < |w.frames| then old(w.at) + 1 else old(w.at))
      ensures State() == if old(w.at) == |w.frames| then old(State())
                         else Next(old(State()), w.frames[old(w.at)], remoteIp, remotePort, localPort)
      ensures sent == old(sent) + if old(w.at) == |w.frames| then []
                                  else Answer(old(State()), w.frames[old(w.at)], remoteIp, remotePort, localPort)
    {
      hide Handle, Acks;
      if w.at < |w.frames| {
        var frame := w.frames[w.at];
        w.at := w.at + 1;
        match frame {
          case Nothing =>
          case Packet(data, source) => HandlePacket(data, source);
        }
      }
    }

    /** tcp_is_closed. */
    method IsClosedNow() returns (closed: bool)
      requires Valid()
      ensures closed == IsClosed(State())
    {
      return peerClosed || phase == Closed;
    }

    /** One attempt of tcp_wait_activity, with nothing pending: nothing that is coming gets lost. */
    method PollOnce(w: Wire)
      requires Valid() && w.at <= |w.frames| && recvLength == 0
      modifies this`phase, this`sendNext, this`recvNext, this`peerClosed, this`recvLength, this`sent, recvBuffer, w
      ensures Valid() && w.at == (if old(w.at) < |w.frames| then old(w.at) + 1 else old(w.at))
      ensures Coming(w) == old(Coming(w)) && sent + Replying(w) == old(sent + Replying(w)) && Final(w) == old(Final(w))
      ensures old(phase) != SynSent ==> phase != SynSent && Finishing(w) == old(Finishing(w))
      ensures old(w.at) == |w.frames| ==> State() == old(State()) && sent == old(sent)
      ensures old(w.at) < |w.frames| ==>
        && State() == Next(old(State()), w.frames[old(w.at)], remoteIp, remotePort, localPort)
        && sent == old(sent) + Answer(old(State()), w.frames[old(w.at)], remoteIp, remotePort, localPort)
    {
      hide Next, IsClosed, Ends, ClosingFrame, Answer;
      ghost var c, n := State(), w.at;
      Poll(w);
      if n < |w.frames| {
        assert w.frames[n..][1..] == w.frames[w.at..];
        assert c.(pending := []) == c;
        if c.phase != SynSent {
          NextCloses(c, w.frames[n], remoteIp, remotePort, localPort);
          EndsStep(w.frames[n..], remoteIp, remotePort, localPort);
        }
      }
    }

    /** tcp_wait_activity, entered with nothing pending: it stops at the first stored payload, so that no
        later one can overwrite it and nothing that is coming gets lost. */
    method WaitActivity(w: Wire, maxAttempts: nat) returns (active: bool)
      requires Valid() && w.at <= |w.frames| && recvLength == 0
      modifies this`phase, this`sendNext, this`recvNext, this`peerClosed, this`recvLength, this`sent, recvBuffer, w
      ensures Valid() && old(w.at) <= w.at <= |w.frames|
      ensures Coming(w) == old(Coming(w))
      ensures sent + Replying(w) == old(sent + Replying(w)) && Final(w) == old(Final(w))
      ensures old(phase) != SynSent ==> phase != SynSent && Finishing(w) == old(Finishing(w))
      ensures maxAttempts > 0 ==> active == (State().pending != [] || IsClosed(State()))
      ensures maxAttempts > 0 && old(w.at) < |w.frames| ==> old(w.at) < w.at
      ensures old(w.at) == |w.frames| ==> State() == old(State())
      ensures maxAttempts == 1 && old(w.at) < |w.frames| ==>
        && w.at == old(w.at) + 1 && State() == Next(old(State()), w.frames[old(w.at)], remoteIp, remotePort, localPort)
        && sent == old(sent) + Answer(old(State()), w.frames[old(w.at)], remoteIp, remotePort, localPort)
      ensures old(w.at) == |w.frames| ==> sent == old(sent)
    {
      hide Next, IsClosed, Ends, ClosingFrame, Answer, Delivered, Answered, After;
      for attempt := 0 to maxAttempts
        invariant Valid() && old(w.at) <= w.at <= |w.frames| && recvLength == 0
        invariant Coming(w) == old(Coming(w))
        invariant sent + Replying(w) == old(sent + Replying(w)) && Final(w) == old(Final(w))
        invariant old(phase) != SynSent ==> phase != SynSent && Finishing(w) == old(Finishing(w))
        invariant attempt == 0 ==> w.at == old(w.at) && State() == old(State()) && sent == old(sent)
        invariant attempt > 0 ==> !IsClosed(State())
        invariant attempt > 0 && old(w.at) < |w.frames| ==> old(w.at) < w.at
        invariant old(w.at) == |w.frames| ==> State() == old(State()) && sent == old(sent)
        invariant attempt == 1 && old(w.at) < |w.frames| ==>
          && w.at == old(w.at) + 1
          && State() == Next(old(State()), w.frames[old(w.at)], remoteIp, remotePort, localPort)
          && sent == old(sent) + Answer(old(State()), w.frames[old(w.at)], remoteIp, remotePort, localPort)
      {
        PollOnce(w);
        var closed := IsClosedNow();
        if recvLength > 0 || closed {
          return true;
        }
      }
      return false;
    }

    /** tcp_receive: the stored payload goes to `buffer` from index `at` on. */
    method Receive(buffer: array<Byte>, at: nat, maxLength: nat) returns (received: nat)
      requires Valid() && buffer != recvBuffer && at + maxLength <= buffer.Length
      modifies this`recvLength, buffer
      ensures Valid() && State() == old(State()).(pending := [])
      ensures received == Min(|old(State()).pending|, maxLength)
      ensures buffer[..at + received] == old(buffer[..at]) + old(State()).pending[..received]
      ensures buffer[at + received..] == old(buffer[at + received..])
    {
      if recvLength == 0 {
        return 0;
      }
      ghost var front, pending := buffer[..at], recvBuffer[..recvLength];
      var copyLength := if recvLength > maxLength then maxLength else recvLength;
      forall k | 0 <= k < copyLength {
        buffer[at + k] := recvBuffer[k];
      }
      assert forall k :: at <= k < at + copyLength ==> buffer[k] == pending[..copyLength][k - at];
      assert buffer[at..at + copyLength] == pending[..copyLength];
      assert buffer[..at] == front;
      assert buffer[..at + copyLength] == buffer[..at] + buffer[at..at + copyLength];
      recvLength := 0;
      assert recvBuffer[..0] == [];
      return copyLength;
    }

    /** The state tcp_connect starts from, once its SYN is out. */
    method Ask(ip: nat, port: nat)
      requires Valid() && ip < SEQUENCES && port < WORD
      modifies this`phase, this`sendNext, this`recvNext, this`peerClosed, this`recvLength, this`remoteIp,
        this`remotePort, this`localPort, this`sent
      ensures sent == old(sent) + [Outgoing(ip, localPort, port, 0x1000, 0, 0x02, [])]
      ensures Valid() && State() == ASKED && recvLength == 0 && SamePeer(ip, port, (old(localPort) + 1) % WORD)
    {
      remoteIp, remotePort := ip, port;
      localPort := (localPort + 1) % WORD;
      sendNext, recvNext, peerClosed, recvLength := 0x1000, 0, false, 0;
      phase := SynSent;
      var segment := SendSegment(0x02, []);
    }

    /** tcp_connect: wait for the answer to a SYN. */
    method Connect(w: Wire, ip: nat, port: nat) returns (ok: bool)
      requires Valid() && w.at <= |w.frames| && ip < SEQUENCES && port < WORD
      modifies this`phase, this`sendNext, this`recvNext, this`peerClosed, this`recvLength, this`remoteIp,
        this`remotePort, this`localPort, this`sent, recvBuffer, w
      ensures Valid() && old(w.at) <= w.at <= |w.frames| && SamePeer(ip, port, (old(localPort) + 1) % WORD)
      ensures var syn := Outgoing(ip, localPort, port, 0x1000, 0, 0x02, []);
        sent == old(sent) + [syn] + if ok then [Reply(State(), ip, port, localPort)] else []
      ensures match Open(ASKED, old(w.frames[w.at..]), 300000, ip, port, localPort)
        case NotOpened => !ok && phase == Closed
        case Opened(c, rest) => ok && State() == c && w.frames[w.at..] == rest
    {
      hide Delivered, IsClosed, Connection.Coming, Next, Handle, Reply;
      Ask(ip, port);
      ghost var asked := sent;
      ghost var outcome := Open(ASKED, w.frames[w.at..], TCP_CONNECT_ATTEMPTS, ip, port, localPort);
      hide Open;
      for attempt := 0 to TCP_CONNECT_ATTEMPTS
        invariant Valid() && old(w.at) <= w.at <= |w.frames| && recvLength == 0 && phase == SynSent
        invariant SamePeer(ip, port, (old(localPort) + 1) % WORD) && sent == asked
        invariant outcome == Open(State(), w.frames[w.at..], TCP_CONNECT_ATTEMPTS - attempt, ip, port, localPort)
      {
        AwaitAnswer(w, TCP_CONNECT_ATTEMPTS - attempt);
        if phase == Established {
          return true;
        }
      }
      NoAttemptsLeft(State(), w.frames[w.at..], ip, port, localPort);
      phase := Closed;
      return false;
    }

    /** One pass of that loop, with `attempts` left. */
    method AwaitAnswer(w: Wire, ghost attempts: nat)
      requires Valid() && w.at <= |w.frames| && recvLength == 0 && phase == SynSent && attempts > 0
      modifies this`phase, this`sendNext, this`recvNext, this`peerClosed, this`recvLength, this`sent, recvBuffer, w
      ensures Valid() && old(w.at) <= w.at <= |w.frames| && recvLength == 0 && phase in {SynSent, Established}
      ensures Open(old(State()), old(w.frames[w.at..]), attempts, remoteIp, remotePort, localPort)
           == if phase == Established then Opened(State(), w.frames[w.at..])
              else Open(State(), w.frames[w.at..], attempts - 1, remoteIp, remotePort, localPort)
      ensures sent == old(sent) + if phase == Established then [Reply(State(), remoteIp, remotePort, localPort)] else []
    {
      hide Next, Delivered, IsClosed, Connection.Coming;
      ghost var c, n := State(), w.at;
      var active := WaitActivity(w, 1);
      if n < |w.frames| {
        assert w.frames[n..][1..] == w.frames[w.at..];
        StillAsking(c, w.frames[n], remoteIp, remotePort, localPort);
        AskingAnswers(c, w.frames[n], remoteIp, remotePort, localPort);
      }
    }

    /** tcp_close. */
    method Close()
      requires Valid()
      modifies this`sendNext, this`phase, this`sent
      ensures Valid() && phase == (if old(phase) == Established then Closing else old(phase))
      ensures sendNext == if old(phase) == Established then (old(sendNext) + 1) % SEQUENCES else old(sendNext)
      ensures sent == old(sent)
        + if old(phase) != Established then []
          else [Outgoing(remoteIp, localPort, remotePort, old(sendNext), recvNext, 0x11, [])]
    {
      if phase == Established {
        var segment := SendSegment(0x11, []);
        sendNext := (sendNext + 1) % SEQUENCES;
        phase := Closing;
      }
    }
  }

  /** Whatever arrives for this connection with data in it is a piece of the stream. */
  ghost predicate PeerSends(frames: seq<Frame>, ip: nat, remote: nat, local: nat, stream: seq<Byte>, base: nat) {
    forall k :: 0 <= k < |frames| ==>
      match Arrives(frames[k], ip, remote, local)
      case None => true
      case Some(g) => Honest(g, stream, base)
  }

  /** Every SYN with an ACK that arrives announces the stream that starts at `base`. */
  ghost predicate AnswersFrom(frames: seq<Frame>, ip: nat, remote: nat, local: nat, base: nat) {
    forall k :: 0 <= k < |frames| ==>
      match Arrives(frames[k], ip, remote, local)
      case None => true
      case Some(g) => g.syn && g.ack ==> (g.sequence + 1) % SEQUENCES == base % SEQUENCES
  }

  lemma NoAttemptsLeft(c: Conn, frames: seq<Frame>, ip: nat, remote: nat, local: nat)
    ensures Open(c, frames, 0, ip, remote, local) == NotOpened
  {
  }

  lemma StillAsking(c: Conn, f: Frame, ip: nat, remote: nat, local: nat)
    requires c.phase == SynSent
    ensures var d := Next(c, f, ip, remote, local);
      d.pending == c.pending && (d.phase == SynSent || d.phase == Established)
  {
  }

  lemma ClosedIgnores(c: Conn, g: Segment)
    requires c.phase == Closed
    ensures Handle(c, g) == c && Acks(c, g) == []
  {
  }

  /** The replies to a segment without RST: one for a payload that was stored, one for a FIN. */
  lemma OpenReplies(c: Conn, d: Conn, g: Segment, ip: nat, remote: nat, local: nat)
    requires c.phase in {Established, Closing} && !g.rst
    requires d == if g.payload != [] && g.sequence == c.recvNext then Accept(c, g.payload) else c
    ensures Replies(Acks(c, g), ip, remote, local)
         == (if g.payload != [] && g.sequence == c.recvNext then [Reply(d, ip, remote, local)] else [])
            + (if g.fin then [Reply(d.(recvNext := (d.recvNext + 1) % SEQUENCES), ip, remote, local)] else [])
  {
  }

  /** While a handshake is on, the one segment that is answered is the one that opens the connection. */
  lemma AskingAnswers(c: Conn, f: Frame, ip: nat, remote: nat, local: nat)
    requires c.phase == SynSent
    ensures var d := Next(c, f, ip, remote, local);
      Answer(c, f, ip, remote, local) == if d.phase == Established then [Reply(d, ip, remote, local)] else []
  {
  }

  lemma AnswerFacts(c: Conn, f: Frame, ip: nat, remote: nat, local: nat, base: nat)
    requires c.phase == SynSent
    requires match Arrives(f, ip, remote, local)
      case None => true
      case Some(g) => g.syn && g.ack ==> (g.sequence + 1) % SEQUENCES == base % SEQUENCES
    ensures match Arrives(f, ip, remote, local)
      case None => true
      case Some(g) =>
        var d := Handle(c, g);
        && d.pending == c.pending && d.peerClosed == c.peerClosed && (d.phase == SynSent || d.phase == Established)
        && (d.phase == Established ==> d.recvNext == base % SEQUENCES)
  {
  }
}
