/**
 * A run in which the sender overruns the advertised window: the peer has not read 1000 bytes, so 1000 more fill its
 * window, but the SYN+ACK arrives again, and its window of 2000 lets the sender go on.
 */
module WindowRuns {
  import opened Integers
  import opened WrappingIntegers
  import opened ByteStreams
  import opened Reassembly
  import opened ReassemblyLaws
  import opened TcpSegments
  import opened Senders
  import opened Receivers
  import opened Connections
  import opened Networks
  import opened ConnectionLaws
  import opened PrematureRuns
  import opened WindowLaws

  function Chunk(p: u32, data: seq<byte>): Segment {
    Numbered(p, false, false, data)
  }

  /** The acknowledgement of the first 1000 bytes, which are still unread. */
  function HalfAck(): Segment {
    var seg := Chunk(1, []);
    seg.(header := seg.header.(ack := true, ackno := 1001, win := 1000))
  }

  /** What an endpoint has written, sent and heard, its own receiver having seen the SYN alone. */
  ghost predicate SentUpTo(c: Connection, data: seq<byte>, nread: nat, unacked: seq<Segment>, acked: nat, window: nat) {
    && SenderAt(c.snd, data, nread, false, unacked, 1 + nread, acked, window, false)
    && ReceiverAt(c.rcv, true, map[], false) && c.out == []
  }

  // What the endpoints do.

  lemma SendsPiece(s: Sender, data: seq<byte>, nread: u32, unacked: seq<Segment>, acked: nat, window: u16)
    requires SenderAt(s, data, nread, false, unacked, 1 + nread, acked, window, false)
    requires nread + 1000 <= |data| && nread < 0x1000_0000 && acked <= 1 + nread && 1 + nread - acked + 1000 <= window
    requires 1 + nread - acked + 1000 == window || nread + 1000 == |data|
    ensures var t, seg := FillWindow(s), Chunk(1 + nread, data[nread..nread + 1000]);
            && t.out == [seg]
            && SenderAt(t.(out := []), data, nread + 1000, false, unacked + [seg], 1001 + nread, acked, window, false)
  {
    assert PayloadLen(s) == 1000;
    assert NextPayload(s) == data[nread..nread + 1000];
    assert Wrap(1 + nread, 0) == 1 + nread;
    FillsOnce(s, SendOne(s));
  }

  lemma PutsOut(c: Connection, data: seq<byte>, nread: u32, unacked: seq<Segment>, acked: nat, window: u16)
    requires SentUpTo(c, data, nread, unacked, acked, window)
    requires nread + 1000 <= |data| && nread < 0x1000_0000 && acked <= 1 + nread && 1 + nread - acked + 1000 <= window
    requires 1 + nread - acked + 1000 == window || nread + 1000 == |data|
    ensures var d, seg := Connect(c), Chunk(1 + nread, data[nread..nread + 1000]);
            && SentUpTo(d.(out := []), data, nread + 1000, unacked + [seg], acked, window) && d.out == [Acking(seg, 1)]
  {
    var seg := Chunk(1 + nread, data[nread..nread + 1000]);
    SendsPiece(c.snd, data, nread, unacked, acked, window);
    Sends(c, seg);
    Stamps(c.rcv, seg, map[], false);
  }

  lemma WritesFirst(c: Connection, first: seq<byte>)
    requires Established(c) && |first| == 1000
    ensures var d := Connections.Write(c, first);
            SentUpTo(d.(out := []), first, 1000, [Chunk(1, first)], 1, CAPACITY) && d.out == [Acking(Chunk(1, first), 1)]
  {
    var d := c.(snd := WithStream(c.snd, Append(c.snd.stream, first)));
    assert d.snd.stream.written == first && first[0..1000] == first && [] + [Chunk(1, first)] == [Chunk(1, first)];
    PutsOut(d, first, 0, [], 1, CAPACITY);
  }

  /** The first bytes are delivered but not read. */
  ghost predicate HalfFull(r: Receiver) {
    && r.isnSet && !r.finSet && r.isn == 0 && r.reasm.store == map[]
    && r.First() == 1000 && r.reasm.out.nread == 0 && r.reasm.capacity == r.reasm.out.capacity == CAPACITY
  }

  lemma TakesPiece(r: Receiver, seg: Segment)
    requires ReceiverAt(r, true, map[], false) && |seg.payload| == 1000
    requires seg.header.seqno == 1 && !seg.header.syn && !seg.header.fin
    ensures HalfFull(SegmentReceived(r, seg).0)
  {
    assert Unwrap(1, 0, 0) == 1;
    assert r.reasm == FreshReassembler(CAPACITY);
    FirstPush(CAPACITY, seg.payload, false);
    PushKeeps(r.reasm, seg.payload, 0, false);
  }

  lemma StampsHalf(r: Receiver)
    requires HalfFull(r)
    ensures Stamp(r, Chunk(1, [])) == HalfAck()
  {
  }

  lemma Answered(c: Connection, seg: Segment)
    requires Opening(c, [], false, true) && seg == Acking(Chunk(1, seg.payload), 1) && |seg.payload| == 1000
    ensures var d := Receive(c, seg); HalfFull(d.rcv) && d.out == [HalfAck()] && d.snd.stream.written == []
  {
    hide Receive, HalfFull, HalfAck;
    AcksSyn(c.snd, [], false);
    HasNothing(NewAck(c.snd.(window := CAPACITY), 1));
    var q := SegmentReceived(c.rcv, seg).0;
    TakesPiece(c.rcv, seg);
    StampsHalf(q);
    Answers(c, seg, q, Chunk(1, []));
    KeepsWritten(c, seg);
  }

  lemma PopsPiece(s: Sender, first: seq<byte>)
    requires SenderAt(s, first, 1000, false, [Chunk(1, first)], 1001, 1, CAPACITY, false) && |first| == 1000
    ensures var (t, ok) := AckReceived(s, 1001, 1000);
            ok && SenderAt(t, first, 1000, false, [], 1001, 1001, 1000, false)
  {
    assert Unwrap(1001, 0, 1) == 1001;
    PopsOne(s.unacked[0], 1001);
    assert s.unacked == [s.unacked[0]];
    assert Blocked(NewAck(s.(window := 1000), 1001));
  }

  lemma PopsOne(seg: Segment, ack: nat)
    requires seg.header.seqno == 1 && 1 + SeqLen(seg) == ack == 1001
    ensures PopAcked([seg], 0, ack) == []
  {
    assert Unwrap(1, 0, ack) == 1;
    assert [seg][1..] == [];
  }

  lemma HearsHalf(c: Connection, first: seq<byte>, ack: Segment)
    requires SentUpTo(c, first, 1000, [Chunk(1, first)], 1, CAPACITY) && |first| == 1000 && ack == HalfAck()
    ensures SentUpTo(Receive(c, ack).(out := []), first, 1000, [], 1001, 1000)
  {
    PopsPiece(c.snd, first);
    SeesAck(c.rcv, ack);
    Absorbs(c, ack);
  }

  lemma WritesRest(c: Connection, first: seq<byte>, rest: seq<byte>)
    requires SentUpTo(c, first, 1000, [], 1001, 1000) && |first| == 1000 && |rest| == 2000
    ensures SentUpTo(Connections.Write(c, rest).(out := []), first + rest, 2000, [Chunk(1001, rest[..1000])], 1001, 1000)
  {
    var d := c.(snd := WithStream(c.snd, Append(c.snd.stream, rest)));
    assert d.snd.stream.written == first + rest && (first + rest)[1000..2000] == rest[..1000];
    assert [] + [Chunk(1001, rest[..1000])] == [Chunk(1001, rest[..1000])];
    PutsOut(d, first + rest, 1000, [], 1001, 1000);
  }

  lemma HearsStale(c: Connection, data: seq<byte>, unacked: seq<Segment>, stale: Segment)
    requires SentUpTo(c, data, 2000, unacked, 1001, 1000) && stale == Acking(Syn(), 1)
    ensures SentUpTo(Receive(c, stale).(out := []), data, 2000, unacked, 1001, CAPACITY)
  {
    assert Unwrap(1, 0, 1001) == 1 && Unwrap(0, 0, 0) == 0;
    assert SegmentReceived(c.rcv, stale).0 == c.rcv;
    Answers(c, stale, c.rcv, Chunk(2001, []));
  }

  // The stages of the run.

  lemma FirstHalf(z: System, es: seq<Event>, k: nat, s: System, first: seq<byte>) returns (n: System)
    requires Reaches(z, es, k, s) && k < |es| && es[k] == Event(true, DoWrite(first))
    requires Established(s.a) && |first| == 1000
    ensures Reaches(z, es, k + 1, n)
    ensures SentUpTo(n.a, first, 1000, [Chunk(1, first)], 1, CAPACITY) && n.b == s.b && n.ba == s.ba
    ensures Acking(Chunk(1, first), 1) in n.ab
  {
    hide Reaches, Receive, Connect, Opening, Established, SentUpTo;
    n := Next(s, es[k]);
    ReachesNext(z, es, k, s, n);
    OnA(s, DoWrite(first), n);
    WritesFirst(s.a, first);
  }

  lemma HalfArrives(z: System, es: seq<Event>, k: nat, s: System, seg: Segment) returns (n: System)
    requires Reaches(z, es, k, s) && k < |es| && es[k] == Event(false, DoReceive(seg))
    requires Opening(s.b, [], false, true) && seg == Acking(Chunk(1, seg.payload), 1) && |seg.payload| == 1000 && seg in s.ab
    ensures Reaches(z, es, k + 1, n)
    ensures n.a == s.a && HalfFull(n.b.rcv) && n.b.snd.stream.written == [] && s.ba <= n.ba && HalfAck() in n.ba
  {
    hide Reaches, Receive, HalfFull, HalfAck, Opening;
    n := Next(s, es[k]);
    ReachesNext(z, es, k, s, n);
    OnB(s, DoReceive(seg), n);
    Answered(s.b, seg);
  }

  lemma HalfAcked(z: System, es: seq<Event>, k: nat, s: System, first: seq<byte>, ack: Segment) returns (n: System)
    requires Reaches(z, es, k, s) && k < |es| && es[k] == Event(true, DoReceive(ack))
    requires SentUpTo(s.a, first, 1000, [Chunk(1, first)], 1, CAPACITY) && |first| == 1000 && ack == HalfAck() && ack in s.ba
    ensures Reaches(z, es, k + 1, n)
    ensures SentUpTo(n.a, first, 1000, [], 1001, 1000) && n.b == s.b && n.ba == s.ba
  {
    hide Reaches, Receive, Connect, Opening, Established, SentUpTo;
    n := Next(s, es[k]);
    ReachesNext(z, es, k, s, n);
    OnA(s, DoReceive(ack), n);
    HearsHalf(s.a, first, ack);
  }

  lemma WindowFull(z: System, es: seq<Event>, k: nat, s: System, first: seq<byte>, rest: seq<byte>) returns (n: System)
    requires Reaches(z, es, k, s) && k < |es| && es[k] == Event(true, DoWrite(rest))
    requires SentUpTo(s.a, first, 1000, [], 1001, 1000) && |first| == 1000 && |rest| == 2000
    ensures Reaches(z, es, k + 1, n)
    ensures SentUpTo(n.a, first + rest, 2000, [Chunk(1001, rest[..1000])], 1001, 1000) && n.b == s.b && n.ba == s.ba
  {
    hide Reaches, Receive, Connect, Opening, Established, SentUpTo;
    n := Next(s, es[k]);
    ReachesNext(z, es, k, s, n);
    OnA(s, DoWrite(rest), n);
    WritesRest(s.a, first, rest);
  }

  lemma StaleArrives(z: System, es: seq<Event>, k: nat, s: System, data: seq<byte>, unacked: seq<Segment>, stale: Segment) returns (n: System)
    requires Reaches(z, es, k, s) && k < |es| && es[k] == Event(true, DoReceive(stale))
    requires SentUpTo(s.a, data, 2000, unacked, 1001, 1000) && stale == Acking(Syn(), 1) && stale in s.ba
    ensures Reaches(z, es, k + 1, n)
    ensures SentUpTo(n.a, data, 2000, unacked, 1001, CAPACITY) && n.b == s.b
  {
    hide Reaches, Receive, Connect, Opening, Established, SentUpTo;
    n := Next(s, es[k]);
    ReachesNext(z, es, k, s, n);
    OnA(s, DoReceive(stale), n);
    HearsStale(s.a, data, unacked, stale);
  }

  lemma Overruns(z: System, es: seq<Event>, k: nat, s: System, data: seq<byte>, unacked: seq<Segment>) returns (n: System)
    requires Reaches(z, es, k, s) && k < |es| && es[k] == Event(true, DoConnect)
    requires SentUpTo(s.a, data, 2000, unacked, 1001, CAPACITY) && |data| == 3000
    ensures Reaches(z, es, k + 1, n)
    ensures n.a.snd.sent == 3001 && n.a.snd.acked == 1001 && n.a.snd.stream.written == data && n.b == s.b
  {
    hide Reaches, Connect;
    n := Next(s, es[k]);
    ReachesNext(z, es, k, s, n);
    OnA(s, DoConnect, n);
    PutsOut(s.a, data, 2000, unacked, 1001, CAPACITY);
  }

  function OverrunRun(first: seq<byte>, rest: seq<byte>): seq<Event> {
    [Event(true, DoConnect), Event(false, DoReceive(Syn())), Event(true, DoReceive(Acking(Syn(), 1))),
     Event(true, DoWrite(first)), Event(false, DoReceive(Acking(Chunk(1, first), 1))),
     Event(true, DoReceive(HalfAck())), Event(true, DoWrite(rest)),
     Event(true, DoReceive(Acking(Syn(), 1))), Event(true, DoConnect)]
  }

  /** A thousand bytes past the edge. */
  ghost predicate Overrun(f: System) {
    && f.a.snd.sent == 3001 && Edge(f.b.rcv) == 2001
    && |f.a.snd.stream.written| == 3000 && |f.b.snd.stream.written| == 0
  }

  lemma Overrunning(s: System, es: seq<Event>, first: seq<byte>, rest: seq<byte>) returns (f: System)
    requires BothClosed(s) && |first| == 1000 && |rest| == 2000 && es == OverrunRun(first, rest)
    ensures Reaches(s, es, 9, f) && Overrun(f)
  {
    hide Reaches, Closed, Opening, Established, SentUpTo, Syn, Acking, HalfAck, Chunk;
    ReachesStart(s, es);
    f := ThenFirstSyn(s, es, 0, s);
    f := ThenSynAnswered(s, es, 1, f, es[1].op.seg);
    f := ThenHandshakeDone(s, es, 2, f, es[2].op.seg);
    f := FirstHalf(s, es, 3, f, first);
    ChunkHolds(first);
    f := HalfArrives(s, es, 4, f, es[4].op.seg);
    f := HalfAcked(s, es, 5, f, first, es[5].op.seg);
    f := WindowFull(s, es, 6, f, first, rest);
    f := StaleArrives(s, es, 7, f, first + rest, [Chunk(1001, rest[..1000])], es[7].op.seg);
    f := Overruns(s, es, 8, f, first + rest, [Chunk(1001, rest[..1000])]);
  }

  lemma ChunkHolds(first: seq<byte>)
    ensures Acking(Chunk(1, first), 1).payload == first
  {
  }

  /** In this run the sender goes a thousand positions past what its peer can take. */
  lemma StaleWindowOverrun(s: System, es: seq<Event>, first: seq<byte>, rest: seq<byte>)
    requires Start(s) && |first| == 1000 && |rest| == 2000 && es == OverrunRun(first, rest)
    ensures Initial(s) && Possible(s, es) && Overrun(After(s, es)) && !Modest(s, es)
  {
    StartsClosed(s);
    var f := Overrunning(s, es, first, rest);
    assert es[..9] == es;
    OverrunIsImmodest(s, es);
  }

  lemma OverrunIsImmodest(s: System, es: seq<Event>)
    requires Initial(s) && Possible(s, es) && Overrun(After(s, es))
    ensures !Modest(s, es)
  {
    if Modest(s, es) {
      AdvertisedWindow(s, es);
    }
  }
}
