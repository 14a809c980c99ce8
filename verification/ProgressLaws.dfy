/**
 * Progress is always possible: whatever happened before, four events that ask nothing of the network but to deliver
 * two segments get something more acknowledged.
 */
module ProgressLaws {
  import opened WrappingIntegers
  import opened ByteStreams
  import opened ReassemblyLaws
  import opened TcpSegments
  import opened Senders
  import opened SenderLaws
  import opened Receivers
  import opened Connections
  import opened Directions
  import opened Networks
  import opened ConnectionLaws
  import opened NetworkLaws
  import opened AcknowledgementLaws

  // The peer reads.

  lemma ReadsAll(c: Connection)
    requires c.rcv.reasm.Wf()
    ensures var d := Connections.Read(c, Size(c.rcv.reasm.out));
            && Room(d.rcv.reasm.out) == c.rcv.reasm.capacity && d.rcv.isnSet == c.rcv.isnSet
  {
  }

  // The sender times out.

  lemma {:induction false} StampAllHas(r: Receiver, q: seq<Segment>, seg: Segment)
    requires seg in q
    ensures Stamp(r, seg) in StampAll(r, q)
  {
    if q[0] != seg {
      assert q == [q[0]] + q[1..];
      StampAllHas(r, q[1..], seg);
    }
  }

  /** One timeout later the first unacknowledged segment goes out again, and nothing else has changed. */
  lemma TimesOut(c: Connection)
    requires Inv(c.snd) && c.snd.unacked != [] && c.snd.retx < MAX_RETX_ATTEMPTS
    ensures var d := Connections.Tick(c, c.snd.timer.rto);
            && Stamp(c.rcv, c.snd.unacked[0]) in d.out && d.rcv == c.rcv
            && (d.snd.unacked, d.snd.acked) == (c.snd.unacked, c.snd.acked)
  {
    var t := Senders.Tick(c.snd, c.snd.timer.rto);
    StampAllHas(c.rcv, t.out, c.snd.unacked[0]);
  }

  // The peer receives the segment.

  /** The first unacknowledged position lies in the first queued segment. */
  lemma FrontHolds(s: Sender) returns (k: nat)
    requires Inv(s) && s.unacked != []
    ensures k < |s.log| && s.log[k] == s.unacked[0]
    ensures Position(s.log, k) <= s.acked < Position(s.log, k) + SeqLen(s.log[k])
  {
    k := |s.log| - |s.unacked|;
  }

  /** The peer lacks the byte at the acknowledged position: with room in its output, the segment delivers it. */
  lemma DeliversByte(s: Sender, r: Receiver, seg: Segment, k: nat)
    requires Inv(s) && ReceiverInv(s, r) && Short(s) && r.isnSet && Room(r.reasm.out) == r.reasm.capacity
    requires k < |s.log| && Core(seg) == s.log[k]
    requires DataStart(Position(s.log, k)) <= r.First() < DataStart(Position(s.log, k)) + |seg.payload|
    ensures r.First() < Accept(r, seg).First()
  {
    Located(s, r, seg, k);
    var index := PayloadIndex(r, seg);
    PushKeeps(r.reasm, seg.payload, index, seg.header.fin);
    PushKnows(r.reasm, seg.payload, index, seg.header.fin, r.First());
    PushGreedy(r.reasm, seg.payload, index, seg.header.fin);
  }

  /** The peer has every byte but not the FIN: the segment brings it. */
  lemma DeliversFin(s: Sender, r: Receiver, seg: Segment, k: nat)
    requires Inv(s) && ReceiverInv(s, r) && Short(s) && r.isnSet && r.First() == s.stream.nread
    requires k < |s.log| && Core(seg) == s.log[k] && seg.header.fin
    ensures AckPosition(Accept(r, seg)) == 2 + r.First()
  {
    AcceptLogged(s, r, seg, k);
    LimitFirst(s, Accept(r, seg));
    AllDelivered(s, Accept(r, seg));
  }

  /** Either the peer is ahead of what was acknowledged already, or the segment takes it there. */
  lemma Advances(s: Sender, r: Receiver, acks: set<Segment>, seg: Segment)
    requires Inv(s) && ReceiverInv(s, r) && Short(s) && Honest(s, r, acks)
    requires r.isnSet && Room(r.reasm.out) == r.reasm.capacity
    requires s.unacked != [] && Core(seg) == s.unacked[0]
    ensures s.acked < AckPosition(Accept(r, seg))
  {
    var k := FrontHolds(s);
    AcceptLogged(s, r, seg, k);
    QueueEmptyIffIdle(s);
    LoggedBelowSent(s, k);
    assert PlacedAt(s, k);
    assert s.log[k].header.fin <==> s.eof && k == |s.log| - 1;
    if s.acked == 1 + r.First() {
      if r.First() < DataStart(Position(s.log, k)) + |seg.payload| {
        DeliversByte(s, r, seg, k);
      } else {
        DeliversFin(s, r, seg, k);
      }
    }
  }

  // The reply and what it acknowledges.

  /** A segment that occupies sequence numbers is answered with the receiver's new position. */
  lemma Replies(c: Connection, seg: Segment) returns (reply: Segment)
    requires Inv(c.snd) && c.out == [] && c.rcv.isnSet && !seg.header.rst && SeqLen(seg) > 0
    ensures Receive(c, seg).rcv == Accept(c.rcv, seg)
    ensures reply in Receive(c, seg).out && reply.header.ack && !reply.header.rst
    ensures reply.header.ackno == Wrap(AckPosition(Accept(c.rcv, seg)), c.rcv.isn)
  {
    var q, h := Accept(c.rcv, seg), HandleAck(c.snd, seg.header).0;
    HandleAckInv(c.snd, seg.header);
    SendEmptyInv(h);
    var t := if h.out == [] then SendEmpty(h) else h;
    assert t.out[0] in t.out;
    LoggedIsPlain(t, t.out[0]);
    StampAllHas(q, t.out, t.out[0]);
    reply := Stamp(q, t.out[0]);
  }

  lemma AcceptsReply(s: Sender, header: TcpHeader, ack: nat)
    requires s.acked < ack <= s.sent < 0x8000_0000 && header.ack && header.ackno == Wrap(ack, s.isn)
    ensures HandleAck(s, header).0.acked == ack
  {
    RoundTrip(ack, s.isn, s.acked);
    FillWindowFrame(NewAck(s.(window := header.win), ack));
  }

  lemma SenderHears(c: Connection, seg: Segment)
    requires c.rcv.isnSet && !seg.header.rst
    ensures Receive(c, seg).snd.acked == HandleAck(c.snd, seg.header).0.acked
  {
  }

  lemma Raises(c: Connection, reply: Segment, ack: nat)
    requires c.rcv.isnSet && c.snd.acked < ack <= c.snd.sent < 0x8000_0000
    requires !reply.header.rst && reply.header.ack && reply.header.ackno == Wrap(ack, c.snd.isn)
    ensures Receive(c, reply).snd.acked == ack
  {
    AcceptsReply(c.snd, reply.header, ack);
    SenderHears(c, reply);
  }

  // The run.

  lemma RunOn(s: System, es: seq<Event>, e: Event)
    requires Possible(s, es) && Enabled(After(s, es), e)
    ensures Possible(s, es + [e]) && After(s, es + [e]) == Next(After(s, es), e)
    ensures Patient(s, es) && (e.onA || !e.op.DoReceive?) ==> Patient(s, es + [e])
  {
    assert (es + [e])[..|es|] == es;
  }

  lemma ShortStays(s: System, e: Event)
    requires BothShort(s) && !e.op.DoWrite?
    ensures BothShort(Next(s, e))
  {
    if e.onA { WrittenStays(s.a, e.op); } else { WrittenStays(s.b, e.op); }
  }

  /** Something is in flight, both sides are open, and the sender has not used up its retransmissions. */
  ghost predicate Waiting(f: System) {
    f.a.snd.unacked != [] && f.a.rcv.isnSet && f.b.rcv.isnSet && f.a.snd.retx < MAX_RETX_ATTEMPTS
  }

  /** The peer has read everything. */
  ghost predicate Drained(f: System) {
    Room(f.b.rcv.reasm.out) == f.b.rcv.reasm.capacity
  }

  /** A run that can be extended and reasoned about. */
  ghost predicate Good(s: System, es: seq<Event>) {
    Initial(s) && Possible(s, es) && BothShort(After(s, es))
  }

  lemma AfterRead(s: System, es: seq<Event>) returns (e: Event)
    requires Good(s, es) && Patient(s, es) && Waiting(After(s, es))
    ensures Good(s, es + [e]) && Patient(s, es + [e]) && Waiting(After(s, es + [e])) && Drained(After(s, es + [e]))
    ensures After(s, es + [e]).a == After(s, es).a
  {
    var f := After(s, es);
    RunSafe(s, es);
    e := Event(false, DoRead(Size(f.b.rcv.reasm.out)));
    RunOn(s, es, e);
    ShortStays(f, e);
    ReadsAll(f.b);
  }

  lemma AfterTimeout(s: System, es: seq<Event>) returns (e: Event, seg: Segment)
    requires Good(s, es) && Patient(s, es) && Waiting(After(s, es)) && Drained(After(s, es))
    ensures var f, g := After(s, es), After(s, es + [e]);
            && Good(s, es + [e]) && Patient(s, es + [e]) && Drained(g)
            && g.b == f.b && g.a.rcv == f.a.rcv
            && g.a.snd.acked == f.a.snd.acked && g.a.snd.unacked == f.a.snd.unacked
            && seg in g.ab && seg == Stamp(f.a.rcv, f.a.snd.unacked[0])
  {
    var f := After(s, es);
    RunSafe(s, es);
    e := Event(true, DoTick(f.a.snd.timer.rto));
    seg := Stamp(f.a.rcv, f.a.snd.unacked[0]);
    RunOn(s, es, e);
    ShortStays(f, e);
    TimesOut(f.a);
  }

  lemma PlainFront(s: Sender, r: Receiver)
    requires Inv(s) && s.unacked != []
    ensures var seg := Stamp(r, s.unacked[0]);
            Core(seg) == s.unacked[0] && !seg.header.rst && SeqLen(seg) > 0
  {
    var k := FrontHolds(s);
    assert PlacedAt(s, k);
  }

  /** The reply carries a position beyond what was acknowledged. */
  ghost predicate Brings(reply: Segment, f: System) {
    && f.b.rcv.isnSet && reply in f.ba && reply.header.ack && !reply.header.rst
    && f.a.snd.acked < AckPosition(f.b.rcv) && reply.header.ackno == Wrap(AckPosition(f.b.rcv), f.b.rcv.isn)
  }

  lemma Delivery(f: System, seg: Segment, g: System) returns (reply: Segment)
    requires Safe(f) && BothShort(f) && Honest(f.a.snd, f.b.rcv, f.ba) && Drained(f)
    requires f.a.snd.unacked != [] && f.b.rcv.isnSet && seg == Stamp(f.a.rcv, f.a.snd.unacked[0])
    requires g == Next(f, Event(false, DoReceive(seg)))
    ensures g.a == f.a && Brings(reply, g)
  {
    hide Receive;
    PlainFront(f.a.snd, f.a.rcv);
    reply := Replies(f.b, seg);
    assert g.b.rcv == Accept(f.b.rcv, seg);
    Advances(f.a.snd, f.b.rcv, f.ba, seg);
  }

  lemma Acknowledgement(f: System, reply: Segment, g: System)
    requires Safe(f) && BothShort(f) && f.a.rcv.isnSet && Brings(reply, f)
    requires g == Next(f, Event(true, DoReceive(reply)))
    ensures f.a.snd.acked < g.a.snd.acked
  {
    hide Receive;
    LimitSent(f.a.snd, f.b.rcv);
    Raises(f.a, reply, AckPosition(f.b.rcv));
  }

  lemma AfterDelivery(s: System, es: seq<Event>, seg: Segment) returns (reply: Segment)
    requires Good(s, es) && Patient(s, es) && Drained(After(s, es))
    requires var f := After(s, es);
             f.a.snd.unacked != [] && f.b.rcv.isnSet && seg in f.ab && seg == Stamp(f.a.rcv, f.a.snd.unacked[0])
    ensures var es1 := es + [Event(false, DoReceive(seg))];
            Good(s, es1) && After(s, es1).a == After(s, es).a && Brings(reply, After(s, es1))
  {
    var e := Event(false, DoReceive(seg));
    RunSafe(s, es);
    RunHonest(s, es);
    RunOn(s, es, e);
    ShortStays(After(s, es), e);
    reply := Delivery(After(s, es), seg, After(s, es + [e]));
  }

  lemma AfterReply(s: System, es: seq<Event>, reply: Segment)
    requires Good(s, es) && After(s, es).a.rcv.isnSet && Brings(reply, After(s, es))
    ensures var es1 := es + [Event(true, DoReceive(reply))];
            Possible(s, es1) && After(s, es).a.snd.acked < After(s, es1).a.snd.acked
  {
    RunSafe(s, es);
    var e := Event(true, DoReceive(reply));
    RunOn(s, es, e);
    Acknowledgement(After(s, es), reply, After(s, es + [e]));
  }

  /**
   * From every state of a run without a premature segment in which something is in flight, both sides are open and
   * fewer than eight retransmissions were made, some continuation gets more acknowledged: the peer reads, one timeout
   * passes, the resent segment arrives, and so does its answer.
   */
  lemma ProgressIsPossible(s: System, es: seq<Event>) returns (more: seq<Event>)
    requires Good(s, es) && Patient(s, es) && Waiting(After(s, es))
    ensures |more| == 4 && Possible(s, es + more)
    ensures After(s, es).a.snd.acked < After(s, es + more).a.snd.acked
  {
    var e1 := AfterRead(s, es);
    var es1 := es + [e1];
    var e2, seg := AfterTimeout(s, es1);
    var es2 := es1 + [e2];
    var reply := AfterDelivery(s, es2, seg);
    var e3, e4 := Event(false, DoReceive(seg)), Event(true, DoReceive(reply));
    AfterReply(s, es2 + [e3], reply);
    more := [e1, e2, e3, e4];
    assert es2 + [e3] + [e4] == es + more;
  }
}
