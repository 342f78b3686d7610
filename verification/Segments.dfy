/** TCP segments byte by byte, after section 3.1 of RFC 9293: what the flags, ports, numbers and options of an
    arriving packet are taken to be, and what they do to a connection. */
module Segments {
  import opened Bytes
  import opened Checksum
  import opened Tcp

  lemma BitsOfByte(f: Byte)
    ensures BitOf(f, 0) <==> f % 2 == 1
    ensures BitOf(f, 1) <==> f / 2 % 2 == 1
    ensures BitOf(f, 2) <==> f / 4 % 2 == 1
    ensures BitOf(f, 4) <==> f / 16 % 2 == 1
  {
    assert f / 4 == f / 2 / 2 && f / 8 == f / 4 / 2 && f / 16 == f / 8 / 2;
    assert BitOf(f, 2) == BitOf(f / 2, 1) == BitOf(f / 4, 0);
    assert BitOf(f, 4) == BitOf(f / 2, 3) == BitOf(f / 4, 2) == BitOf(f / 8, 1) == BitOf(f / 16, 0);
  }

  /** FIN, SYN, RST and ACK are the bits of weight 1, 2, 4 and 16 of byte 13. */
  lemma FlagBits(s: seq<Byte>)
    ensures var g := ParseSegment(s);
      g.Some? ==>
        && |s| >= 20 && (g.value.fin <==> s[13] % 2 == 1) && (g.value.syn <==> s[13] / 2 % 2 == 1)
        && (g.value.rst <==> s[13] / 4 % 2 == 1) && (g.value.ack <==> s[13] / 16 % 2 == 1)
  {
    hide BitOf;
    if |s| >= 20 {
      BitsOfByte(s[13]);
    }
  }

  /** A segment without options from port `source` to port `target`. */
  function Plain(source: nat, target: nat, sequence: nat, ack: nat, flags: Byte, payload: seq<Byte>): seq<Byte>
    requires source < WORD && target < WORD && sequence < SEQUENCES && ack < SEQUENCES
  {
    [source / 256, source % 256, target / 256, target % 256,
     sequence / 0x100_0000, sequence / 0x1_0000 % 256, sequence / 256 % 256, sequence % 256,
     ack / 0x100_0000, ack / 0x1_0000 % 256, ack / 256 % 256, ack % 256, 80, flags, 16, 0, 0, 0, 0, 0] + payload
  }

  /** That is the header tcp_send_segment builds. */
  lemma BuiltIsPlain(source: nat, target: nat, sequence: nat, ack: nat, flags: Byte, payload: seq<Byte>)
    requires source < WORD && target < WORD && sequence < SEQUENCES && ack < SEQUENCES
    ensures Built(source, target, sequence, ack, flags, payload) == Plain(source, target, sequence, ack, flags, payload)
  {
    hide Be16;
    NetworkOrder(sequence);
    NetworkOrder(ack);
    NetworkOrder16(source);
    NetworkOrder16(target);
    NetworkOrder16(4096);
    NetworkOrder16(0);
  }

  lemma NetworkOrder16(v: nat)
    requires v < WORD
    ensures Be16(v) == [v / 256, v % 256]
  {
  }

  lemma NetworkOrder(v: nat)
    requires v < SEQUENCES
    ensures Be32(v) == [v / 0x100_0000, v / 0x1_0000 % 256, v / 256 % 256, v % 256]
  {
    HighBytes(v);
    LowBytes(v);
  }

  lemma HighBytes(v: nat)
    ensures v / WORD / 256 == v / 0x100_0000 && v / WORD % 256 == v / 0x1_0000 % 256
  {
  }

  lemma LowBytes(v: nat)
    ensures v % WORD / 256 == v / 256 % 256 && v % WORD % 256 == v % 256
  {
    var h := v / WORD;
    assert v == WORD * h + v % WORD;
    assert v / 256 == 256 * h + v % WORD / 256;
  }

  /** Such a packet is for a connection exactly if it comes from its peer, and its fields are what was put in. */
  lemma PlainArrives(source: nat, target: nat, sequence: nat, ack: nat, flags: Byte, payload: seq<Byte>, from: nat,
                     ip: nat, remote: nat, local: nat)
    requires source < WORD && target < WORD && sequence < SEQUENCES && ack < SEQUENCES
    ensures Arrives(Packet(Plain(source, target, sequence, ack, flags, payload), from), ip, remote, local)
         == if from == ip && source == remote && target == local
            then Some(Segment(sequence, flags % 2 == 1, flags / 2 % 2 == 1, flags / 4 % 2 == 1, flags / 16 % 2 == 1,
                              payload))
            else None
  {
    hide BitOf, Be16, Be32, ReadBe16, ReadBe32, Plain, Built, ParseSegment;
    var s := Built(source, target, sequence, ack, flags, payload);
    BuiltIsPlain(source, target, sequence, ack, flags, payload);
    BuiltCarries(source, target, sequence, ack, flags, payload, s);
    BitsOfByte(flags);
  }

  /** The answer to a SYN: a segment of the peer opens the connection if and only if it has both SYN and ACK, and
      then the first byte expected is the one behind the SYN. */
  lemma AnswerOpens(c: Conn, sequence: nat, ack: nat, flags: Byte, payload: seq<Byte>, ip: nat, remote: nat, local: nat)
    requires remote < WORD && local < WORD && sequence < SEQUENCES && ack < SEQUENCES && c.phase == SynSent
    ensures var d := Next(c, Packet(Plain(remote, local, sequence, ack, flags, payload), ip), ip, remote, local);
      && (d.phase == Established <==> flags / 2 % 2 == 1 && flags / 16 % 2 == 1)
      && (d.phase == Established ==> d.recvNext == (sequence + 1) % SEQUENCES)
      && (d.phase != Established ==> d == c)
      && (flags == 0x12 ==> d.phase == Established) && (flags in {0x02, 0x10, 0x11, 0x14} ==> d == c)
  {
    hide Plain, Arrives;
    PlainArrives(remote, local, sequence, ack, flags, payload, ip, ip, remote, local);
  }

  /** Once it is open, a segment of the peer closes it if and only if it has FIN or RST. */
  lemma CloserCloses(c: Conn, sequence: nat, ack: nat, flags: Byte, payload: seq<Byte>, ip: nat, remote: nat,
                     local: nat)
    requires remote < WORD && local < WORD && sequence < SEQUENCES && ack < SEQUENCES
    requires c.phase in {Established, Closing}
    ensures var d := Next(c, Packet(Plain(remote, local, sequence, ack, flags, payload), ip), ip, remote, local);
      && (d.phase == Closed <==> flags % 2 == 1 || flags / 4 % 2 == 1)
      && (flags in {0x01, 0x04, 0x11, 0x14} ==> d.phase == Closed)
      && (flags in {0x10, 0x18, 0x12} ==> d.phase == c.phase)
  {
    hide Plain, Arrives;
    PlainArrives(remote, local, sequence, ack, flags, payload, ip, ip, remote, local);
  }

  /** A packet from elsewhere changes nothing. */
  lemma StrangersIgnored(c: Conn, source: nat, target: nat, sequence: nat, ack: nat, flags: Byte, payload: seq<Byte>,
                         from: nat, ip: nat, remote: nat, local: nat)
    requires source < WORD && target < WORD && sequence < SEQUENCES && ack < SEQUENCES
    requires from != ip || source != remote || target != local
    ensures Next(c, Packet(Plain(source, target, sequence, ack, flags, payload), from), ip, remote, local) == c
  {
    hide Plain, Arrives, Handle;
    PlainArrives(source, target, sequence, ack, flags, payload, from, ip, remote, local);
  }

  /** tcp_connect succeeds with the ordinary answer, however many packets of others come before it. */
  lemma {:induction false} HandshakeSucceeds(before: seq<Frame>, sequence: nat, ack: nat, rest: seq<Frame>,
                                             attempts: nat, ip: nat, remote: nat, local: nat)
    requires remote < WORD && local < WORD && sequence < SEQUENCES && ack < SEQUENCES && |before| < attempts
    requires forall k :: 0 <= k < |before| ==> Arrives(before[k], ip, remote, local) == None
    ensures var answer := Packet(Plain(remote, local, sequence, ack, 0x12, []), ip);
            var o := Open(ASKED, before + [answer] + rest, attempts, ip, remote, local);
      o.Opened? && o.rest == rest && o.conn.phase == Established && o.conn.recvNext == (sequence + 1) % SEQUENCES
    decreases |before|
  {
    hide Plain, Arrives;
    var answer := Packet(Plain(remote, local, sequence, ack, 0x12, []), ip);
    var frames := before + [answer] + rest;
    if before == [] {
      PlainArrives(remote, local, sequence, ack, 0x12, [], ip, ip, remote, local);
      assert frames[0] == answer && frames[1..] == rest;
    } else {
      assert frames[0] == before[0] && frames[1..] == before[1..] + [answer] + rest;
      HandshakeSucceeds(before[1..], sequence, ack, rest, attempts - 1, ip, remote, local);
    }
  }

  // ---- options ----

  /** The same segment with options, a multiple of four bytes, between the header and the payload. */
  function WithOptions(header: seq<Byte>, options: seq<Byte>, payload: seq<Byte>): seq<Byte>
    requires |header| == HEADER_SIZE && |options| % 4 == 0 && |options| <= 40
  {
    header[..12] + [(20 + |options|) / 4 * 16] + header[13..] + options + payload
  }

  /** Options are passed over: the payload is what follows them, and everything else is read as without them. */
  lemma OptionsPassedOver(header: seq<Byte>, options: seq<Byte>, payload: seq<Byte>)
    requires |header| == HEADER_SIZE && |options| % 4 == 0 && |options| <= 40
    ensures var s := ParseSegment(WithOptions(header, options, payload));
            var t := ParseSegment(WithOptions(header, [], payload));
      s.Some? && s == t && s.value.payload == payload
  {
    hide BitOf;
    var s, t := WithOptions(header, options, payload), WithOptions(header, [], payload);
    var front := header[..12] + [(20 + |options|) / 4 * 16] + header[13..] + options;
    assert s == front + payload && |front| == 20 + |options|;
    assert t[20..] == payload && s[20 + |options|..] == payload;
    assert s[4..8] == t[4..8];
    assert s[12] / 16 * 4 == 20 + |options|;
    assert s[13] == header[13] == t[13];
  }

  /** A header that claims to be shorter than 20 bytes, or longer than the packet, is none. */
  lemma BadLengthRefused(s: seq<Byte>)
    ensures ParseSegment(s).None? <==> |s| < 20 || s[12] / 16 < 5 || s[12] / 16 * 4 > |s|
  {
    hide BitOf;
  }

  // ---- how much is stored ----

  /** Of a payload that comes next the first 1460 bytes are stored, but all of it is acknowledged: the rest, if there
      is one, is lost. */
  lemma StoredAndCounted(c: Conn, g: Segment)
    requires c.phase in {Established, Closing} && !g.rst && !g.fin && g.payload != [] && g.sequence == c.recvNext
    ensures var d := Handle(c, g);
      && d.pending == (if |g.payload| <= 1460 then g.payload else g.payload[..1460])
      && d.recvNext == (c.recvNext + |g.payload|) % SEQUENCES && d.phase == c.phase
  {
    assert g.payload[..|g.payload|] == g.payload;
  }

  // ---- what is acknowledged ----

  /** The number acknowledged is that of byte `n` of the stream, or one more, for the FIN. */
  predicate AcksByte(o: Outgoing, base: nat, n: nat) {
    o.ack == (base + n) % SEQUENCES || o.ack == (base + n + 1) % SEQUENCES
  }

  /** The ACKs to one frame: no data, the sender's own number, and up to just what has been handed over or is
      pending. */
  lemma FrameAcks(c: Conn, f: Frame, ip: nat, remote: nat, local: nat, stream: seq<Byte>, base: nat, before: seq<Byte>)
    requires InOrder(c, stream, base, before) && c.pending == [] && c.phase in {Established, Closing}
    requires match Arrives(f, ip, remote, local) { case None => true case Some(g) => Honest(g, stream, base) }
    ensures var d := Next(c, f, ip, remote, local);
            var answer := Answer(c, f, ip, remote, local);
      && d.sendNext == c.sendNext
      && forall k :: 0 <= k < |answer| ==>
           && answer[k].flags == 0x10 && answer[k].payload == [] && answer[k].sequence == c.sendNext
           && AcksByte(answer[k], base, |before| + |d.pending|)
  {
    match Arrives(f, ip, remote, local)
    case None =>
    case Some(g) =>
      HandleKeepsOrder(c, g, stream, base, before);
      if g.payload != [] && g.sequence == c.recvNext && !g.rst {
        assert g.payload[..Min(|g.payload|, TCP_RECV_BUFFER_SIZE)] == g.payload;
        SequenceAdds(base, |before|, |g.payload|);
      }
      SequenceAdds(base, |before| + |Handle(c, g).pending|, 1);
  }

  /** A receiver acknowledges no byte that it does not hand over, and nothing it sends while receiving carries data. */
  lemma {:induction false} AcksAreDelivered(c: Conn, frames: seq<Frame>, ip: nat, remote: nat, local: nat,
                                            stream: seq<Byte>, base: nat, before: seq<Byte>)
    requires InOrder(c, stream, base, before) && c.pending == [] && c.phase in {Established, Closing}
    requires PeerSends(frames, ip, remote, local, stream, base)
    ensures forall o :: o in Answered(c, frames, ip, remote, local) ==>
      && o.flags == 0x10 && o.payload == [] && o.sequence == c.sendNext
      && exists n :: |before| <= n <= |before| + |Delivered(c, frames, ip, remote, local)| && AcksByte(o, base, n)
    decreases |frames|
  {
    hide Next, InOrder, Answer, AcksByte;
    if frames != [] {
      NextReaches(c, frames[0], ip, remote, local, stream, base, before);
      FrameAcks(c, frames[0], ip, remote, local, stream, base, before);
      var d := Next(c, frames[0], ip, remote, local);
      Collected(d, stream, base, before);
      if d.phase == Closed {
        SilentAfterClose(d.(pending := []), frames[1..], ip, remote, local);
      } else {
        AcksAreDelivered(d.(pending := []), frames[1..], ip, remote, local, stream, base, before + d.pending);
      }
      AcksJoin(c, frames, ip, remote, local, base, |before|);
    }
  }

  /** From the first frame and the rest to all of them. */
  lemma AcksJoin(c: Conn, frames: seq<Frame>, ip: nat, remote: nat, local: nat, base: nat, m: nat)
    requires frames != []
    requires var d := Next(c, frames[0], ip, remote, local);
             var answer := Answer(c, frames[0], ip, remote, local);
      && (forall k :: 0 <= k < |answer| ==>
            && answer[k].flags == 0x10 && answer[k].payload == [] && answer[k].sequence == c.sendNext
            && AcksByte(answer[k], base, m + |d.pending|))
      && forall o :: o in Answered(d.(pending := []), frames[1..], ip, remote, local) ==>
           && o.flags == 0x10 && o.payload == [] && o.sequence == c.sendNext
           && exists n :: m + |d.pending| <= n
                          <= m + |d.pending| + |Delivered(d.(pending := []), frames[1..], ip, remote, local)|
                          && AcksByte(o, base, n)
    ensures forall o :: o in Answered(c, frames, ip, remote, local) ==>
      && o.flags == 0x10 && o.payload == [] && o.sequence == c.sendNext
      && exists n :: m <= n <= m + |Delivered(c, frames, ip, remote, local)| && AcksByte(o, base, n)
  {
    hide Next, Answer, AcksByte;
    var d := Next(c, frames[0], ip, remote, local);
    var answer := Answer(c, frames[0], ip, remote, local);
    var later := Answered(d.(pending := []), frames[1..], ip, remote, local);
    forall o | o in Answered(c, frames, ip, remote, local)
      ensures o.flags == 0x10 && o.payload == [] && o.sequence == c.sendNext
      ensures exists n :: m <= n <= m + |Delivered(c, frames, ip, remote, local)| && AcksByte(o, base, n)
    {
      if o in answer {
        assert AcksByte(o, base, m + |d.pending|);
      } else {
        assert o in later;
      }
    }
  }
}
