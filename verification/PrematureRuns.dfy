/**
 * A run from fresh endpoints in which an empty FIN overtakes a byte: it is acknowledged too early, and the sender no
 * longer keeps the byte, so that only the copy already in transit could still bring it.
 */
module PrematureRuns {
  import opened Integers
  import opened WrappingIntegers
  import opened ByteStreams
  import opened Reassembly
  import opened TcpSegments
  import opened Senders
  import opened Receivers
  import opened Connections
  import opened Networks
  import opened AcknowledgementLaws

  const CAPACITY := 2000

  /** A segment from position `p` of a stream numbered from 0. */
  function Numbered(p: u32, syn: bool, fin: bool, payload: seq<byte>): Segment {
    Segment(DEFAULT_HEADER.(seqno := p, syn := syn, fin := fin), payload)
  }

  function Acking(seg: Segment, ackno: u32): Segment {
    seg.(header := seg.header.(ack := true, ackno := ackno, win := CAPACITY))
  }

  function Syn(): Segment {
    Numbered(0, true, false, [])
  }

  ghost predicate SenderAt(s: Sender, data: seq<byte>, nread: nat, ended: bool,
                           unacked: seq<Segment>, sent: nat, acked: nat, window: nat, eof: bool) {
    && s.isn == 0 && s.out == []
    && s.stream.capacity == CAPACITY && s.stream.written == data && s.stream.nread == nread && s.stream.ended == ended
    && (s.unacked, s.sent, s.acked, s.window, s.eof) == (unacked, sent, acked, window, eof)
  }

  ghost predicate ReceiverAt(r: Receiver, seen: bool, store: Store, eof: bool) {
    && r.isn == 0 && r.isnSet == seen && r.finSet == eof
    && r.reasm.capacity == r.reasm.out.capacity == CAPACITY
    && r.reasm.store == store && r.reasm.eof == eof
    && r.reasm.out.written == [] && !r.reasm.out.ended && !r.reasm.out.error
  }

  // Senders.

  lemma FillsOnce(s: Sender, t: Sender)
    requires !Blocked(s) && SendOne(s) == t && Blocked(t)
    ensures FillWindow(s) == t
  {
  }

  lemma OpensWith(s: Sender, syn: Segment)
    requires SenderAt(s, [], 0, false, [], 0, 0, 1, false) && syn == Syn()
    ensures var t := FillWindow(s);
            t.out == [syn] && SenderAt(t.(out := []), [], 0, false, [syn], 1, 0, 1, false)
  {
    assert PayloadLen(s) == 0;
    assert NextPayload(s) == [];
    FillsOnce(s, SendOne(s));
  }

  lemma StaysShut(s: Sender, data: seq<byte>, ended: bool)
    requires SenderAt(s, data, 0, ended, [Syn()], 1, 0, 1, false)
    ensures FillWindow(s) == s
  {
  }

  /** The acknowledgement of the SYN, before the window is filled. */
  lemma PopsSyn(s: Sender, data: seq<byte>, ended: bool)
    requires SenderAt(s, data, 0, ended, [Syn()], 1, 0, CAPACITY, false)
    ensures SenderAt(NewAck(s, 1), data, 0, ended, [], 1, 1, CAPACITY, false)
  {
    assert Unwrap(0, 0, 1) == 0;
    assert s.unacked[1..] == [];
  }

  lemma AcksSyn(s: Sender, data: seq<byte>, ended: bool)
    requires SenderAt(s, data, 0, ended, [Syn()], 1, 0, 1, false)
    ensures var t := NewAck(s.(window := CAPACITY), 1);
            && SenderAt(t, data, 0, ended, [], 1, 1, CAPACITY, false)
            && AckReceived(s, 1, CAPACITY) == (FillWindow(t), true)
  {
    assert Unwrap(1, 0, 0) == 1;
    PopsSyn(s.(window := CAPACITY), data, ended);
  }

  lemma HasNothing(t: Sender)
    requires SenderAt(t, [], 0, false, [], 1, 1, CAPACITY, false)
    ensures FillWindow(t) == t
  {
  }

  lemma SendsByte(s: Sender, x: byte)
    requires SenderAt(s, [x], 0, false, [], 1, 1, CAPACITY, false)
    ensures var t, data := FillWindow(s), Numbered(1, false, false, [x]);
            t.out == [data] && SenderAt(t.(out := []), [x], 1, false, [data], 2, 1, CAPACITY, false)
  {
    assert PayloadLen(s) == 1;
    assert NextPayload(s) == [x];
    FillsOnce(s, SendOne(s));
  }

  lemma SendsFin(s: Sender, x: byte)
    requires SenderAt(s, [x], 1, true, [Numbered(1, false, false, [x])], 2, 1, CAPACITY, false)
    ensures var t, data, fin := FillWindow(s), Numbered(1, false, false, [x]), Numbered(2, false, true, []);
            t.out == [fin] && SenderAt(t.(out := []), [x], 1, true, [data, fin], 3, 1, CAPACITY, true)
  {
    assert PayloadLen(s) == 0;
    assert NextPayload(s) == [];
    assert s.unacked + [Numbered(2, false, true, [])] == [Numbered(1, false, false, [x]), Numbered(2, false, true, [])];
    FillsOnce(s, SendOne(s));
  }

  /** Acknowledging position 2 drops the byte. */
  lemma DropsByte(s: Sender, x: byte)
    requires SenderAt(s, [x], 1, true, [Numbered(1, false, false, [x]), Numbered(2, false, true, [])], 3, 1, CAPACITY, true)
    ensures var (t, ok) := AckReceived(s, 2, CAPACITY);
            ok && SenderAt(t, [x], 1, true, [Numbered(2, false, true, [])], 3, 2, CAPACITY, true)
  {
    var fin := Numbered(2, false, true, []);
    assert Unwrap(2, 0, 1) == 2 && Unwrap(1, 0, 2) == 1 && Unwrap(2, 0, 2) == 2;
    assert s.unacked[1..] == [fin];
    assert PopAcked([fin], 0, 2) == [fin];
  }

  // Receivers.

  lemma SeesSyn(r: Receiver, seg: Segment)
    requires ReceiverAt(r, false, map[], false)
    requires seg.header.syn && !seg.header.fin && seg.header.seqno == 0 && seg.payload == []
    ensures ReceiverAt(SegmentReceived(r, seg).0, true, map[], false)
  {
  }

  lemma SeesAck(r: Receiver, seg: Segment)
    requires ReceiverAt(r, true, map[], false)
    requires SeqLen(seg) == 0 && seg.header.seqno == 1
    ensures SegmentReceived(r, seg) == (r, true)
  {
    assert Unwrap(1, 0, 0) == 1;
  }

  lemma SeesFin(r: Receiver, seg: Segment)
    requires ReceiverAt(r, true, map[], false)
    requires seg.header.fin && !seg.header.syn && seg.header.seqno == 2 && seg.payload == []
    ensures ReceiverAt(SegmentReceived(r, seg).0, true, map[], true)
  {
    assert Unwrap(2, 0, 0) == 2;
  }

  lemma Stamps(r: Receiver, seg: Segment, store: Store, eof: bool)
    requires ReceiverAt(r, true, store, eof)
    ensures Stamp(r, seg) == Acking(seg, if eof && store == map[] then 2 else 1)
  {
  }

  // Endpoints.

  lemma StampsOne(r: Receiver, seg: Segment)
    ensures StampAll(r, [seg]) == [Stamp(r, seg)]
  {
    assert [seg][1..] == [];
  }

  lemma Sends(c: Connection, seg: Segment)
    requires FillWindow(c.snd).out == [seg] && c.out == []
    ensures var d := Connect(c);
            d.snd == FillWindow(c.snd).(out := []) && d.rcv == c.rcv && d.out == [Stamp(c.rcv, seg)]
  {
    StampsOne(c.rcv, seg);
  }

  /** A segment that occupies sequence numbers is answered with what is queued, or with an empty segment. */
  lemma Answers(c: Connection, seg: Segment, q: Receiver, answer: Segment)
    requires !seg.header.rst && SeqLen(seg) > 0 && c.out == [] && q == SegmentReceived(c.rcv, seg).0 && q.isnSet
    requires var t := HandleAck(c.snd, seg.header).0;
             t.out == [answer] || (t.out == [] && answer == Numbered(Wrap(t.sent, t.isn), false, false, []))
    ensures var d := Receive(c, seg);
            && d.snd == HandleAck(c.snd, seg.header).0.(out := []) && d.rcv == q
            && d.out == [Stamp(q, answer)]
  {
    StampsOne(q, answer);
    var t := HandleAck(c.snd, seg.header).0;
    assert t.out == [] ==> SendEmpty(t).out == [answer];
  }

  /** An empty segment that lies in the window is not. */
  lemma Absorbs(c: Connection, seg: Segment)
    requires !seg.header.rst && SeqLen(seg) == 0 && c.rcv.isnSet
    requires HandleAck(c.snd, seg.header).1 && SegmentReceived(c.rcv, seg).1
    ensures var d := Receive(c, seg);
            && d.snd == HandleAck(c.snd, seg.header).0 && d.rcv == SegmentReceived(c.rcv, seg).0 && d.out == c.out
  {
  }

  // Runs.

  /** A possible event and the state it leads to. */
  ghost predicate Leads(s: System, e: Event, n: System) {
    Enabled(s, e) && n == Next(s, e)
  }

  /** The first `k` events of `es` are possible and lead from `s` to `f`. */
  ghost predicate Reaches(s: System, es: seq<Event>, k: nat, f: System) {
    k <= |es| && Possible(s, es[..k]) && After(s, es[..k]) == f
  }

  lemma ReachesStart(s: System, es: seq<Event>)
    ensures Reaches(s, es, 0, s)
  {
  }

  lemma ReachesNext(s: System, es: seq<Event>, k: nat, f: System, n: System)
    requires k < |es| && Reaches(s, es, k, f) && Leads(f, es[k], n)
    ensures Reaches(s, es, k + 1, n)
  {
    assert es[..k + 1][..k] == es[..k];
  }

  /** One event on `a`: the other endpoint and what it sent stay as they were. */
  lemma OnA(s: System, op: Op, n: System)
    requires n == Next(s, Event(true, op))
    ensures n.a == Apply(s.a, op).(out := []) && n.b == s.b && n.ba == s.ba && s.ab <= n.ab
    ensures |Apply(s.a, op).out| == 1 ==> Apply(s.a, op).out[0] in n.ab
  {
  }

  lemma OnB(s: System, op: Op, n: System)
    requires n == Next(s, Event(false, op))
    ensures n.b == Apply(s.b, op).(out := []) && n.a == s.a && n.ab == s.ab && s.ba <= n.ba
    ensures |Apply(s.b, op).out| == 1 ==> Apply(s.b, op).out[0] in n.ba
  {
  }

  ghost predicate Closed(c: Connection) {
    SenderAt(c.snd, [], 0, false, [], 0, 0, 1, false) && ReceiverAt(c.rcv, false, map[], false) && c.out == []
  }

  /** The SYN is out, and the peer's has been seen or not. */
  ghost predicate Opening(c: Connection, data: seq<byte>, ended: bool, seen: bool) {
    && SenderAt(c.snd, data, 0, ended, [Syn()], 1, 0, 1, false)
    && ReceiverAt(c.rcv, seen, map[], false) && c.out == []
  }

  ghost predicate Established(c: Connection) {
    SenderAt(c.snd, [], 0, false, [], 1, 1, CAPACITY, false) && ReceiverAt(c.rcv, true, map[], false) && c.out == []
  }

  lemma Opens(c: Connection)
    requires Closed(c)
    ensures var d := Connect(c); Opening(d.(out := []), [], false, false) && d.out == [Syn()]
  {
    OpensWith(c.snd, Syn());
    Sends(c, Syn());
  }

  lemma Accepts(c: Connection, syn: Segment)
    requires Closed(c) && syn == Syn()
    ensures var d := Receive(c, syn); Opening(d.(out := []), [], false, true) && d.out == [Acking(syn, 1)]
  {
    OpensWith(c.snd, syn);
    SeesSyn(c.rcv, syn);
    var q := SegmentReceived(c.rcv, syn).0;
    Answers(c, syn, q, syn);
    Stamps(q, syn, map[], false);
  }

  lemma Establishes(c: Connection, seg: Segment)
    requires Opening(c, [], false, false) && seg == Acking(Syn(), 1)
    ensures Established(Receive(c, seg).(out := []))
  {
    AcksSyn(c.snd, [], false);
    HasNothing(NewAck(c.snd.(window := CAPACITY), 1));
    SeesSyn(c.rcv, seg);
    Answers(c, seg, SegmentReceived(c.rcv, seg).0, Numbered(1, false, false, []));
  }

  ghost predicate ByteSent(c: Connection, x: byte) {
    && SenderAt(c.snd, [x], 1, false, [Numbered(1, false, false, [x])], 2, 1, CAPACITY, false)
    && ReceiverAt(c.rcv, true, map[], false) && c.out == []
  }

  lemma WritesByte(c: Connection, x: byte)
    requires Established(c)
    ensures ByteSent(Connections.Write(c, [x]).(out := []), x)
  {
    var d := c.(snd := WithStream(c.snd, Append(c.snd.stream, [x])));
    assert d.snd.stream.written == [x];
    SendsByte(d.snd, x);
    Sends(d, Numbered(1, false, false, [x]));
  }

  ghost predicate FinSent(c: Connection, x: byte) {
    && SenderAt(c.snd, [x], 1, true, [Numbered(1, false, false, [x]), Numbered(2, false, true, [])], 3, 1, CAPACITY, true)
    && ReceiverAt(c.rcv, true, map[], false) && c.out == []
  }

  lemma Ends(c: Connection, x: byte)
    requires ByteSent(c, x)
    ensures var d := EndInputStream(c);
            FinSent(d.(out := []), x) && d.out == [Acking(Numbered(2, false, true, []), 1)]
  {
    var d := c.(snd := WithStream(c.snd, c.snd.stream.(ended := true)));
    SendsFin(d.snd, x);
    Sends(d, Numbered(2, false, true, []));
    Stamps(c.rcv, Numbered(2, false, true, []), map[], false);
  }

  /** The FIN is acknowledged although nothing was delivered. */
  lemma Overtaken(c: Connection, seg: Segment)
    requires Opening(c, [], false, true) && seg == Acking(Numbered(2, false, true, []), 1)
    ensures var d := Receive(c, seg);
            ReceiverAt(d.rcv, true, map[], true) && d.out == [Acking(Numbered(1, false, false, []), 2)]
            && |d.snd.stream.written| == 0
  {
    AcksSyn(c.snd, [], false);
    HasNothing(NewAck(c.snd.(window := CAPACITY), 1));
    SeesFin(c.rcv, seg);
    var q := SegmentReceived(c.rcv, seg).0;
    Answers(c, seg, q, Numbered(1, false, false, []));
    Stamps(q, Numbered(1, false, false, []), map[], true);
  }

  lemma Loses(c: Connection, x: byte, seg: Segment)
    requires FinSent(c, x) && seg == Acking(Numbered(1, false, false, []), 2)
    ensures SenderAt(Receive(c, seg).snd, [x], 1, true, [Numbered(2, false, true, [])], 3, 2, CAPACITY, true)
  {
    DropsByte(c.snd, x);
    SeesAck(c.rcv, seg);
    Absorbs(c, seg);
  }

  ghost predicate BothClosed(s: System) {
    Closed(s.a) && Closed(s.b)
  }

  // Each stage: what one event does, and that it takes a run that reaches `s` one event further.

  lemma ThenFirstSyn(z: System, es: seq<Event>, k: nat, s: System) returns (n: System)
    requires Reaches(z, es, k, s) && k < |es| && es[k] == Event(true, DoConnect)
    requires BothClosed(s)
    ensures Reaches(z, es, k + 1, n)
    ensures Opening(n.a, [], false, false) && n.b == s.b && Syn() in n.ab
  {
    hide Reaches, Receive, Connect, Opening, Established, ByteSent, FinSent;
    n := Next(s, es[k]);
    ReachesNext(z, es, k, s, n);
    OnA(s, DoConnect, n);
    Opens(s.a);
  }

  lemma ThenSynAnswered(z: System, es: seq<Event>, k: nat, s: System, syn: Segment) returns (n: System)
    requires Reaches(z, es, k, s) && k < |es| && es[k] == Event(false, DoReceive(syn))
    requires Closed(s.b) && syn == Syn() && syn in s.ab
    ensures Reaches(z, es, k + 1, n)
    ensures n.a == s.a && n.ab == s.ab && Opening(n.b, [], false, true) && Acking(syn, 1) in n.ba
  {
    hide Reaches, Receive, Connect, Opening, Established, ByteSent, FinSent;
    n := Next(s, es[k]);
    ReachesNext(z, es, k, s, n);
    OnB(s, DoReceive(syn), n);
    Accepts(s.b, syn);
  }

  lemma ThenHandshakeDone(z: System, es: seq<Event>, k: nat, s: System, answer: Segment) returns (n: System)
    requires Reaches(z, es, k, s) && k < |es| && es[k] == Event(true, DoReceive(answer))
    requires Opening(s.a, [], false, false) && answer == Acking(Syn(), 1) && answer in s.ba
    ensures Reaches(z, es, k + 1, n)
    ensures Established(n.a) && n.b == s.b && n.ba == s.ba
  {
    hide Reaches, Receive, Connect, Opening, Established, ByteSent, FinSent;
    n := Next(s, es[k]);
    ReachesNext(z, es, k, s, n);
    OnA(s, DoReceive(answer), n);
    Establishes(s.a, answer);
  }

  lemma ThenByteWritten(z: System, es: seq<Event>, k: nat, s: System, x: byte) returns (n: System)
    requires Reaches(z, es, k, s) && k < |es| && es[k] == Event(true, DoWrite([x]))
    requires Established(s.a)
    ensures Reaches(z, es, k + 1, n)
    ensures ByteSent(n.a, x) && n.b == s.b
  {
    hide Reaches, Receive, Connect, Opening, Established, ByteSent, FinSent;
    n := Next(s, es[k]);
    ReachesNext(z, es, k, s, n);
    OnA(s, DoWrite([x]), n);
    WritesByte(s.a, x);
  }

  lemma ThenInputEnded(z: System, es: seq<Event>, k: nat, s: System, x: byte) returns (n: System)
    requires Reaches(z, es, k, s) && k < |es| && es[k] == Event(true, DoEndInput)
    requires ByteSent(s.a, x)
    ensures Reaches(z, es, k + 1, n)
    ensures FinSent(n.a, x) && n.b == s.b && Acking(Numbered(2, false, true, []), 1) in n.ab
  {
    hide Reaches, Receive, Connect, Opening, Established, ByteSent, FinSent;
    n := Next(s, es[k]);
    ReachesNext(z, es, k, s, n);
    OnA(s, DoEndInput, n);
    Ends(s.a, x);
  }

  lemma ThenFinOvertakes(z: System, es: seq<Event>, k: nat, s: System, fin: Segment) returns (n: System)
    requires Reaches(z, es, k, s) && k < |es| && es[k] == Event(false, DoReceive(fin))
    requires fin == Acking(Numbered(2, false, true, []), 1) && Opening(s.b, [], false, true) && fin in s.ab
    ensures Reaches(z, es, k + 1, n)
    ensures n.a == s.a && ReceiverAt(n.b.rcv, true, map[], true) && Acking(Numbered(1, false, false, []), 2) in n.ba
    ensures |n.b.snd.stream.written| == 0
  {
    hide Reaches, Receive, Connect, Opening, Established, ByteSent, FinSent;
    n := Next(s, es[k]);
    ReachesNext(z, es, k, s, n);
    OnB(s, DoReceive(fin), n);
    Overtaken(s.b, fin);
  }

  lemma ThenByteDropped(z: System, es: seq<Event>, k: nat, s: System, x: byte, ack: Segment) returns (n: System)
    requires Reaches(z, es, k, s) && k < |es| && es[k] == Event(true, DoReceive(ack))
    requires ack == Acking(Numbered(1, false, false, []), 2) && FinSent(s.a, x) && ack in s.ba
    ensures Reaches(z, es, k + 1, n)
    ensures n.b == s.b && SenderAt(n.a.snd, [x], 1, true, [Numbered(2, false, true, [])], 3, 2, CAPACITY, true)
  {
    hide Reaches, Receive, Connect, Opening, Established, ByteSent, FinSent;
    n := Next(s, es[k]);
    ReachesNext(z, es, k, s, n);
    OnA(s, DoReceive(ack), n);
    Loses(s.a, x, ack);
  }

  /** Connect, SYN, SYN+ACK, a byte, the end of input; the FIN arrives before the byte, and its acknowledgement returns. */
  function OvertakingRun(x: byte): seq<Event> {
    [Event(true, DoConnect), Event(false, DoReceive(Syn())), Event(true, DoReceive(Acking(Syn(), 1))),
     Event(true, DoWrite([x])), Event(true, DoEndInput),
     Event(false, DoReceive(Acking(Numbered(2, false, true, []), 1))),
     Event(true, DoReceive(Acking(Numbered(1, false, false, []), 2)))]
  }

  /** Two fresh endpoints, both numbered from 0. */
  ghost predicate Start(s: System) {
    && s.ab == {} && s.ba == {}
    && s.a == s.b == FreshConnection(0, 1000, CAPACITY, CAPACITY)
  }

  lemma StartsClosed(s: System)
    requires Start(s)
    ensures Initial(s) && BothClosed(s)
  {
  }

  ghost predicate ByteLost(f: System, x: byte) {
    && f.a.snd.stream.written == [x] && f.a.snd.stream.nread == 1 && |f.b.snd.stream.written| == 0
    && f.b.rcv.reasm.out.written == [] && f.b.rcv.reasm.store == map[]
    && f.a.snd.acked == 2 && f.a.snd.unacked == [Numbered(2, false, true, [])]
  }

  lemma Overtaking(s: System, es: seq<Event>, x: byte) returns (f: System)
    requires BothClosed(s) && es == OvertakingRun(x)
    ensures Reaches(s, es, 7, f) && ByteLost(f, x)
  {
    hide Reaches, Closed, Opening, Established, ByteSent, FinSent, Syn, Acking;
    ReachesStart(s, es);
    f := ThenFirstSyn(s, es, 0, s);
    f := ThenSynAnswered(s, es, 1, f, es[1].op.seg);
    f := ThenHandshakeDone(s, es, 2, f, es[2].op.seg);
    f := ThenByteWritten(s, es, 3, f, x);
    f := ThenInputEnded(s, es, 4, f, x);
    f := ThenFinOvertakes(s, es, 5, f, es[5].op.seg);
    f := ThenByteDropped(s, es, 6, f, x, es[6].op.seg);
  }

  /**
   * The condition is needed: in this run the receiver acknowledges position 2 though nothing was delivered, and the
   * sender then drops the byte from its queue and will not send it again.
   */
  lemma OvertakingFinLosesData(s: System, es: seq<Event>, x: byte)
    requires Start(s) && es == OvertakingRun(x)
    ensures Initial(s) && Possible(s, es) && ByteLost(After(s, es), x) && !Patient(s, es)
  {
    StartsClosed(s);
    var f := Overtaking(s, es, x);
    assert es[..7] == es;
    LossIsImpatient(s, es, x);
  }

  lemma LossIsImpatient(s: System, es: seq<Event>, x: byte)
    requires Initial(s) && Possible(s, es) && ByteLost(After(s, es), x)
    ensures !Patient(s, es)
  {
    if Patient(s, es) {
      AcknowledgedIsDelivered(s, es);
    }
  }
}
