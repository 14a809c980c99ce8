/**
 * When a sender stays within the window its peer advertises. What the peer can still take is its capacity beyond what
 * its application has read; a stale acknowledgement can make the sender think it is more.
 */
module WindowLaws {
  import opened Integers
  import opened WrappingIntegers
  import opened ByteStreams
  import opened ReassemblyLaws
  import opened TcpSegments
  import opened Senders
  import opened SenderLaws
  import opened Receivers
  import opened Connections
  import opened Directions
  import opened Networks
  import opened ConnectionLaws
  import opened NetworkLaws

  /** The end of the largest window the receiver has advertised: the SYN, the bytes read, and the capacity. */
  function Edge(r: Receiver): nat {
    1 + r.reasm.out.nread + r.reasm.capacity
  }

  /** An acknowledgement in transit offers no more than that; one that counts the FIN reaches one further. */
  ghost predicate Offered(seg: Segment, isn: u32, r: Receiver) {
    seg.header.ack ==> Named(seg.header.ackno, isn) + seg.header.win <= Edge(r) + (if r.finSet then 1 else 0)
  }

  /** Nothing was sent past the edge, except one position to probe a window that was closed. */
  ghost predicate Within(s: Sender, r: Receiver) {
    && (s.eof || s.acked + s.window <= Edge(r))
    && s.sent <= Edge(r) + 1 && (s.sent == Edge(r) + 1 ==> s.acked >= Edge(r))
  }

  ghost predicate Respected(s: Sender, r: Receiver, acks: set<Segment>) {
    Within(s, r) && forall seg <- acks :: Offered(seg, s.isn, r)
  }

  // The sender.

  lemma FillWithin(s: Sender, r: Receiver)
    requires Within(s, r)
    ensures Within(FillWindow(s), r)
  {
    FillWindowFrame(s);
  }

  /** A stale acknowledgement whose window, counted from where the sender now is, reaches past the edge. */
  predicate Stale(s: Sender, header: TcpHeader, edge: nat) {
    header.ack && Named(header.ackno, s.isn) < s.acked && !s.eof && s.acked + header.win > edge
  }

  lemma HandleAckWithin(s: Sender, seg: Segment, r: Receiver)
    requires Within(s, r) && (r.finSet ==> s.eof) && Offered(seg, s.isn, r)
    requires seg.header.ack ==> Named(seg.header.ackno, s.isn) == Unwrap(seg.header.ackno, s.isn, s.acked) <= s.sent
    ensures Within(HandleAck(s, seg.header).0, r) <==> !Stale(s, seg.header, Edge(r))
  {
    FillWithin(s, r);
    if seg.header.ack {
      var ack, t := Named(seg.header.ackno, s.isn), s.(window := seg.header.win);
      if ack == s.acked {
        FillWithin(t, r);
      } else if ack > s.acked {
        FillWithin(NewAck(t, ack), r);
      }
    }
  }

  lemma AckIsNamed(s: Sender, r: Receiver, segs: set<Segment>, acks: set<Segment>, seg: Segment)
    requires Direction(s, r, segs, acks) && Short(s) && seg in acks && seg.header.ack
    ensures Named(seg.header.ackno, s.isn) == Unwrap(seg.header.ackno, s.isn, s.acked) <= s.sent
  {
    var ack := Named(seg.header.ackno, s.isn);
    assert Truthful(seg, r, s.isn);
    LimitSent(s, r);
    WrapOfName(seg.header.ackno, s.isn);
    RoundTrip(ack, s.isn, s.acked);
  }

  /** The call takes in a stale acknowledgement. */
  ghost predicate Overwidens(c: Connection, r: Receiver, op: Op) {
    && op.DoReceive? && !op.seg.header.rst && (c.rcv.isnSet || SeqLen(op.seg) > 0)
    && Stale(c.snd, op.seg.header, Edge(r))
  }

  /** The fields the window depends on. */
  ghost predicate SameWindow(s: Sender, t: Sender) {
    (s.isn, s.eof, s.acked, s.sent, s.window) == (t.isn, t.eof, t.acked, t.sent, t.window)
  }

  lemma RepliedWindow(c: Connection)
    ensures SameWindow(Reply(c).snd, c.snd)
  {
  }

  lemma ReceivedWindow(c: Connection, seg: Segment)
    ensures SameWindow(Receive(c, seg).snd,
                       if seg.header.rst || (!c.rcv.isnSet && SeqLen(seg) == 0) then c.snd
                       else HandleAck(c.snd, seg.header).0)
  {
    hide Reply;
    RepliedWindow(Connections.Deliver(c.(lastSegment := c.time), seg));
  }

  lemma TickedWindow(c: Connection, ms: nat)
    ensures SameWindow(Connections.Tick(c, ms).snd, c.snd)
  {
    TickedSender(c, ms);
  }

  lemma ReceiveWithin(c: Connection, seg: Segment, r: Receiver, segs: set<Segment>, acks: set<Segment>)
    requires Direction(c.snd, r, segs, acks) && Short(c.snd) && Respected(c.snd, r, acks) && seg in acks
    ensures Within(Receive(c, seg).snd, r) <==> !Overwidens(c, r, DoReceive(seg))
  {
    if seg.header.ack { AckIsNamed(c.snd, r, segs, acks, seg); }
    HandleAckWithin(c.snd, seg, r);
    ReceivedWindow(c, seg);
  }

  lemma SenderWithin(c: Connection, op: Op, r: Receiver, segs: set<Segment>, acks: set<Segment>)
    requires Direction(c.snd, r, segs, acks) && Short(c.snd) && Respected(c.snd, r, acks)
    requires op.DoReceive? ==> op.seg in acks
    ensures Within(Apply(c, op).snd, r) <==> !Overwidens(c, r, op)
  {
    match op
    case DoConnect => FillWithin(c.snd, r);
    case DoWrite(data) => FillWithin(WithStream(c.snd, Append(c.snd.stream, data)), r);
    case DoEndInput => FillWithin(WithStream(c.snd, c.snd.stream.(ended := true)), r);
    case DoTick(ms) => TickedWindow(c, ms);
    case DoRead(len) =>
    case DoReceive(seg) => ReceiveWithin(c, seg, r, segs, acks);
  }

  // The receiver.

  lemma EdgeGrows(c: Connection, op: Op)
    requires c.rcv.reasm.Wf() && (c.rcv.finSet ==> c.rcv.isnSet)
    ensures var q := Apply(c, op).rcv; Edge(c.rcv) <= Edge(q) && (c.rcv.finSet ==> q.finSet)
  {
    if op.DoReceive? {
      var r, seg := c.rcv, op.seg;
      ReceivedReceiver(c, seg);
      PushKeeps(r.reasm, seg.payload, PayloadIndex(r, seg), seg.header.fin);
    }
  }

  lemma OfferIsTrue(s: Sender, r: Receiver, log: seq<Segment>, seg: Segment)
    requires Inv(s) && ReceiverInv(s, r) && Short(s) && Emitted(seg, log, r)
    ensures Offered(seg, s.isn, r)
  {
    if seg.header.ack {
      LimitSent(s, r);
      NameOfWrap(AckPosition(r), s.isn);
      assert AckPosition(r) + WindowSize(r) <= Edge(r) + (if r.finSet then 1 else 0);
      assert seg.header.win <= WindowSize(r);
    }
  }

  lemma ReceiverWithin(c: Connection, op: Op, s: Sender, segs: set<Segment>, acks: set<Segment>)
    requires Direction(s, c.rcv, segs, acks) && Short(s) && Respected(s, c.rcv, acks) && Inv(c.snd) && c.out == []
    requires op.DoReceive? ==> op.seg in segs
    ensures var d := Apply(c, op); Respected(s, d.rcv, acks + (set seg | seg in d.out))
  {
    var d := Apply(c, op);
    EdgeGrows(c, op);
    ReceiverSide(c, op, s, segs, acks);
    Emissions(c, op);
    forall seg | seg in acks + (set seg | seg in d.out) ensures Offered(seg, s.isn, d.rcv) {
      if seg in acks {
        assert Offered(seg, s.isn, c.rcv);
      } else {
        OfferIsTrue(s, d.rcv, d.snd.log, seg);
      }
    }
  }

  // Runs.

  /** One event keeps `a` within the advertised edge exactly when it is not a stale acknowledgement offering more. */
  lemma NextWithin(s: System, e: Event)
    requires Safe(s) && BothShort(s) && Enabled(s, e) && Respected(s.a.snd, s.b.rcv, s.ba)
    ensures Respected(Next(s, e).a.snd, Next(s, e).b.rcv, Next(s, e).ba)
            <==> !(e.onA && Overwidens(s.a, s.b.rcv, e.op))
  {
    if e.onA {
      SenderWithin(s.a, e.op, s.b.rcv, s.ab, s.ba);
      ApplyStep(s.a, e.op);
    } else {
      ReceiverWithin(s.b, e.op, s.a.snd, s.ab, s.ba);
    }
  }

  /** No stale acknowledgement offers `a` more than the edge in this run. */
  ghost predicate Modest(s: System, es: seq<Event>)
    decreases |es|
  {
    es == [] ||
    (var before, e := After(s, es[..|es| - 1]), es[|es| - 1];
     Modest(s, es[..|es| - 1]) && !(e.onA && Overwidens(before.a, before.b.rcv, e.op)))
  }

  /** In every such run nothing is sent past the advertised edge, but for one position that probes a closed window. */
  lemma {:induction false} AdvertisedWindow(s: System, es: seq<Event>)
    requires Initial(s) && Possible(s, es) && BothShort(After(s, es)) && Modest(s, es)
    ensures Respected(After(s, es).a.snd, After(s, es).b.rcv, After(s, es).ba)
  {
    if es != [] {
      var before, e := After(s, es[..|es| - 1]), es[|es| - 1];
      StillShort(before, e);
      RunSafe(s, es[..|es| - 1]);
      AdvertisedWindow(s, es[..|es| - 1]);
      NextWithin(before, e);
    }
  }
}
