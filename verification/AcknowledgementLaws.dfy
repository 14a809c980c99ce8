/**
 * When an acknowledgement can be believed. An empty segment can announce the end too early;
 * as long as none does, every acknowledged byte has been delivered and the end is the real end.
 */
module AcknowledgementLaws {
  import opened Integers
  import opened WrappingIntegers
  import opened ByteStreams
  import opened Reassembly
  import opened ReassemblyLaws
  import opened TcpSegments
  import opened Senders
  import opened SenderLaws
  import opened Receivers
  import opened Connections
  import opened Directions
  import opened Networks
  import opened ConnectionLaws
  import opened NetworkLaws

  /** The furthest position that may be acknowledged: the FIN counts only once all bytes are delivered. */
  function HonestLimit(s: Sender, r: Receiver): nat {
    if !r.isnSet then 0 else 1 + r.First() + (if s.eof && r.First() == s.stream.nread then 1 else 0)
  }

  ghost predicate HonestAck(seg: Segment, s: Sender, r: Receiver) {
    seg.header.ack ==> Named(seg.header.ackno, s.isn) <= HonestLimit(s, r)
  }

  ghost predicate Honest(s: Sender, r: Receiver, acks: set<Segment>) {
    && r.finSet == r.reasm.eof
    && EndIsHonest(r.reasm, SentBytes(s))
    && (r.reasm.out.ended ==> s.eof)
    && s.acked <= HonestLimit(s, r)
    && forall seg <- acks :: HonestAck(seg, s, r)
  }

  /** The segment would announce the end of the stream, or reach it, before the bytes are there. */
  ghost predicate PrematureSegment(s: Sender, r: Receiver, seg: Segment) {
    && (r.isnSet || seg.header.syn)
    && Premature(r.reasm, seg.payload, PayloadIndex(r, seg), seg.header.fin, SentBytes(s))
  }

  /** 1 for the SYN, the bytes delivered, and 1 for the FIN exactly when it was seen and all bytes are delivered. */
  function ExactAck(s: Sender, r: Receiver): nat {
    1 + r.First() + (if r.finSet && r.First() == s.stream.nread then 1 else 0)
  }

  lemma AllDelivered(s: Sender, r: Receiver)
    requires ReceiverInv(s, r) && r.First() == s.stream.nread
    ensures r.reasm.store == map[]
  {
  }

  /** The code's acknowledgement is exact unless nothing is stored and the FIN was seen before the last byte. */
  lemma AckIsExact(s: Sender, r: Receiver)
    requires ReceiverInv(s, r) && r.finSet == r.reasm.eof && r.isnSet
    ensures AckPosition(r) == ExactAck(s, r)
            <==> !(r.finSet && r.reasm.store == map[] && !LastKnown(r.reasm, SentBytes(s)))
    ensures EndIsHonest(r.reasm, SentBytes(s)) ==> AckPosition(r) == ExactAck(s, r) <= HonestLimit(s, r)
  {
    LimitFirst(s, r);
    if r.First() == s.stream.nread {
      AllDelivered(s, r);
    }
  }

  lemma LimitFirst(s: Sender, r: Receiver)
    requires ReceiverInv(s, r)
    ensures r.First() <= s.stream.nread
  {
  }

  lemma LoggedHonest(s: Sender, r: Receiver, seg: Segment, i: nat)
    requires Inv(s) && ReceiverInv(s, r) && FlowInv(s, r) && Short(s) && EndIsHonest(r.reasm, SentBytes(s))
    requires i < |s.log| && Core(seg) == s.log[i] && (r.isnSet || seg.header.syn)
    ensures EndIsHonest(Accept(r, seg).reasm, SentBytes(s)) <==> !PrematureSegment(s, r, seg)
  {
    Located(s, r, seg, i);
    LoggedBelowSent(s, i);
    LimitSent(s, r);
    if seg.payload == [] {
      EmptyHonest(r.reasm, PayloadIndex(r, seg), seg.header.fin, SentBytes(s));
    } else {
      EndExactness(r.reasm, seg.payload, PayloadIndex(r, seg), seg.header.fin, SentBytes(s));
    }
  }

  lemma EmptyHonest(r: Reassembler, index: nat, eof: bool, s: seq<byte>)
    requires EndIsHonest(r, s) && (eof ==> index == |s|) && r.First() <= |s|
    ensures EndIsHonest(Push(r, [], index, eof), s) <==> !Premature(r, [], index, eof, s)
  {
  }

  lemma AcceptHonest(s: Sender, r: Receiver, segs: set<Segment>, acks: set<Segment>, seg: Segment)
    requires Direction(s, r, segs, acks) && Honest(s, r, acks) && Short(s) && seg in segs
    requires r.isnSet || seg.header.syn
    ensures EndIsHonest(Accept(r, seg).reasm, SentBytes(s)) <==> !PrematureSegment(s, r, seg)
  {
    assert Authentic(seg, s.log);
    LimitSent(s, r);
    if Core(seg) in s.log {
      var i :| 0 <= i < |s.log| && s.log[i] == Core(seg);
      LoggedHonest(s, r, seg, i);
    } else {
      EmptyHonest(r.reasm, PayloadIndex(r, seg), false, SentBytes(s));
    }
  }

  /** The receiver's gains never take back what may be acknowledged. */
  lemma HonestReceiverMoves(s: Sender, r: Receiver, q: Receiver, acks: set<Segment>)
    requires Honest(s, r, acks) && EndIsHonest(q.reasm, SentBytes(s)) && q.finSet == q.reasm.eof
    requires (q.reasm.out.ended ==> s.eof) && r.First() <= q.First() <= s.stream.nread && (r.isnSet ==> q.isnSet)
    ensures Honest(s, q, acks)
  {
  }

  /** A segment leaves the end and all acknowledgements honest exactly when it is not premature. */
  lemma SegmentHonest(s: Sender, r: Receiver, segs: set<Segment>, acks: set<Segment>, seg: Segment)
    requires Direction(s, r, segs, acks) && Honest(s, r, acks) && Short(s) && seg in segs
    ensures Honest(s, SegmentReceived(r, seg).0, acks) <==> !PrematureSegment(s, r, seg)
    ensures r.isnSet && !PrematureSegment(s, r, seg) ==> AckPosition(r) <= AckPosition(SegmentReceived(r, seg).0)
  {
    if r.isnSet || seg.header.syn {
      var q := Accept(r, seg);
      AcceptHonest(s, r, segs, acks, seg);
      if !PrematureSegment(s, r, seg) {
        SegmentKeeps(s, r, segs, acks, seg);
        LimitSent(s, q);
        PushKeeps(r.reasm, seg.payload, PayloadIndex(r, seg), seg.header.fin);
        HonestReceiverMoves(s, r, q, acks);
        AckIsExact(s, q);
      }
    }
  }

  lemma OutputHonest(s: Sender, r: Receiver, out: Stream, acks: set<Segment>)
    requires Honest(s, r, acks) && out.written == r.reasm.out.written && out.ended == r.reasm.out.ended
    ensures Honest(s, r.(reasm := r.reasm.(out := out)), acks)
  {
  }

  /** The call delivers a premature segment; one with RST is never delivered. */
  ghost predicate Misleads(s: Sender, r: Receiver, op: Op) {
    op.DoReceive? && !op.seg.header.rst && PrematureSegment(s, r, op.seg)
  }

  lemma ReceivedExactly(c: Connection, seg: Segment)
    requires !seg.header.rst && (c.rcv.isnSet || seg.header.syn)
    ensures Receive(c, seg).rcv == SegmentReceived(c.rcv, seg).0
  {
  }

  lemma ReceiveHonest(c: Connection, seg: Segment, s: Sender, segs: set<Segment>, acks: set<Segment>)
    requires Direction(s, c.rcv, segs, acks) && Honest(s, c.rcv, acks) && Short(s) && seg in segs
    ensures Honest(s, Receive(c, seg).rcv, acks) <==> seg.header.rst || !PrematureSegment(s, c.rcv, seg)
  {
    SegmentHonest(s, c.rcv, segs, acks, seg);
    if seg.header.rst {
      OutputHonest(s, c.rcv, c.rcv.reasm.out.(error := true), acks);
    } else if c.rcv.isnSet || seg.header.syn {
      ReceivedExactly(c, seg);
    } else {
      ReceivedReceiver(c, seg);
      OutputHonest(s, c.rcv, c.rcv.reasm.out.(error := true), acks);
    }
  }

  lemma ReceiverHonest(c: Connection, op: Op, s: Sender, segs: set<Segment>, acks: set<Segment>)
    requires Direction(s, c.rcv, segs, acks) && Honest(s, c.rcv, acks) && Short(s)
    requires op.DoReceive? ==> op.seg in segs
    ensures Honest(s, Apply(c, op).rcv, acks) <==> !Misleads(s, c.rcv, op)
  {
    if op.DoReceive? {
      ReceiveHonest(c, op.seg, s, segs, acks);
    } else if op.DoRead? {
      OutputHonest(s, c.rcv, Consume(c.rcv.reasm.out, op.len), acks);
    } else {
      OutputHonest(s, c.rcv, c.rcv.reasm.out.(error := true), acks);
      assert Apply(c, op).rcv == c.rcv || Apply(c, op).rcv == WithOutput(c.rcv, c.rcv.reasm.out.(error := true));
    }
  }

  lemma NewAcksHonest(s: Sender, r: Receiver, acks: set<Segment>, log: seq<Segment>, more: set<Segment>)
    requires Inv(s) && ReceiverInv(s, r) && Short(s) && Honest(s, r, acks)
    requires forall seg <- more :: Emitted(seg, log, r)
    ensures Honest(s, r, acks + more)
  {
    forall seg | seg in more ensures HonestAck(seg, s, r) {
      if seg.header.ack {
        LimitSent(s, r);
        NameOfWrap(AckPosition(r), s.isn);
        AckIsExact(s, r);
      }
    }
  }

  /** A sender that has sent its FIN sends no more bytes, so what may be acknowledged only grows. */
  lemma HonestSenderMoves(s: Sender, t: Sender, r: Receiver, acks: set<Segment>)
    requires Honest(s, r, acks) && ReceiverInv(s, r) && t.isn == s.isn && t.acked <= HonestLimit(t, r)
    requires s.stream.written <= t.stream.written && s.stream.nread <= t.stream.nread
    requires s.eof ==> t.eof && t.stream.nread == s.stream.nread
    ensures Honest(t, r, acks)
  {
  }

  lemma SenderHonest(c: Connection, op: Op, r: Receiver, segs: set<Segment>, acks: set<Segment>)
    requires Direction(c.snd, r, segs, acks) && Honest(c.snd, r, acks) && Short(c.snd)
    requires op.DoReceive? ==> op.seg in acks
    ensures Honest(Apply(c, op).snd, r, acks)
  {
    var s, t := c.snd, Apply(c, op).snd;
    ApplyStep(c, op);
    if op.DoReceive? && op.seg.header.ack {
      var ack := Named(op.seg.header.ackno, s.isn);
      assert Truthful(op.seg, r, s.isn) && HonestAck(op.seg, s, r);
      LimitSent(s, r);
      WrapOfName(op.seg.header.ackno, s.isn);
      RoundTrip(ack, s.isn, s.acked);
    }
    LimitSent(s, r);
    HonestSenderMoves(s, t, r, acks);
  }

  /** Nothing premature reaches `b` in this run. */
  ghost predicate Patient(s: System, es: seq<Event>)
    decreases |es|
  {
    es == [] ||
    (var before, e := After(s, es[..|es| - 1]), es[|es| - 1];
     && Patient(s, es[..|es| - 1])
     && (!e.onA ==> !Misleads(before.a.snd, before.b.rcv, e.op)))
  }

  /** One event keeps everything honest exactly when it does not mislead `b`. */
  lemma NextHonest(s: System, e: Event)
    requires Safe(s) && BothShort(s) && Enabled(s, e) && Honest(s.a.snd, s.b.rcv, s.ba)
    ensures Honest(Next(s, e).a.snd, Next(s, e).b.rcv, Next(s, e).ba)
            <==> (!e.onA ==> !Misleads(s.a.snd, s.b.rcv, e.op))
  {
    if e.onA {
      SenderHonest(s.a, e.op, s.b.rcv, s.ab, s.ba);
    } else {
      var c := Apply(s.b, e.op);
      ReceiverHonest(s.b, e.op, s.a.snd, s.ab, s.ba);
      ReceiverSide(s.b, e.op, s.a.snd, s.ab, s.ba);
      Emissions(s.b, e.op);
      if Honest(s.a.snd, c.rcv, s.ba) {
        NewAcksHonest(s.a.snd, c.rcv, s.ba, c.snd.log, set seg | seg in c.out);
      } else {
        FewerAcks(s.a.snd, c.rcv, s.ba, set seg | seg in c.out);
      }
    }
  }

  lemma FewerAcks(s: Sender, r: Receiver, acks: set<Segment>, more: set<Segment>)
    ensures Honest(s, r, acks + more) ==> Honest(s, r, acks)
  {
  }

  lemma {:induction false} RunHonest(s: System, es: seq<Event>)
    requires Initial(s) && Possible(s, es) && BothShort(After(s, es)) && Patient(s, es)
    ensures Honest(After(s, es).a.snd, After(s, es).b.rcv, After(s, es).ba)
  {
    if es != [] {
      var before, e := After(s, es[..|es| - 1]), es[|es| - 1];
      StillShort(before, e);
      RunSafe(s, es[..|es| - 1]);
      RunHonest(s, es[..|es| - 1]);
      NextHonest(before, e);
    }
  }

  /**
   * In every run without a premature segment, acknowledged bytes are delivered bytes, an ended stream is complete,
   * and the acknowledgement is exact.
   */
  lemma AcknowledgedIsDelivered(s: System, es: seq<Event>)
    requires Initial(s) && Possible(s, es) && BothShort(After(s, es)) && Patient(s, es)
    ensures var f := After(s, es);
            && f.a.snd.acked <= 2 + f.b.rcv.First()
            && (f.a.snd.acked == 2 + f.b.rcv.First() ==>
                  f.a.snd.eof && f.b.rcv.reasm.out.written == SentBytes(f.a.snd))
            && (f.b.rcv.reasm.out.ended ==>
                  f.a.snd.eof && f.b.rcv.reasm.out.written == SentBytes(f.a.snd))
            && (f.b.rcv.isnSet ==> AckPosition(f.b.rcv) == ExactAck(f.a.snd, f.b.rcv))
  {
    RunSafe(s, es);
    RunHonest(s, es);
    var f := After(s, es);
    LimitSent(f.a.snd, f.b.rcv);
    if f.b.rcv.isnSet { AckIsExact(f.a.snd, f.b.rcv); }
  }
}
