/** Safety of every run: whatever the network does, each side receives a prefix of what the other wrote. */
module NetworkLaws {
  import opened ByteStreams
  import opened TcpSegments
  import opened Senders
  import opened SenderLaws
  import opened Receivers
  import opened Connections
  import opened Directions
  import opened Networks
  import opened ConnectionLaws

  lemma DrainKeeps(s: Sender, out: seq<Segment>, r: Receiver, segs: set<Segment>, acks: set<Segment>)
    requires Direction(s, r, segs, acks) && (out == [] || (s.out != [] && out == s.out[1..]))
    ensures Direction(s.(out := out), r, segs, acks)
  {
    OutsideKeeps(s, s.stream, out, r, segs, acks);
  }

  lemma StreamKeeps(s: Sender, stream: Stream, r: Receiver, segs: set<Segment>, acks: set<Segment>)
    requires Direction(s, r, segs, acks)
    requires s.stream.written <= stream.written && stream.nread == s.stream.nread && (s.stream.ended ==> stream.ended)
    ensures Direction(WithStream(s, stream), r, segs, acks)
  {
    OutsideKeeps(s, stream, s.out, r, segs, acks);
  }

  lemma ConnectSender(c: Connection, r: Receiver, segs: set<Segment>, acks: set<Segment>)
    requires Direction(c.snd, r, segs, acks)
    ensures Direction(Connect(c).snd, r, segs, acks)
  {
    FillKeeps(c.snd, r, segs, acks);
    DrainKeeps(FillWindow(c.snd), [], r, segs, acks);
  }

  lemma ResetSender(c: Connection, r: Receiver, segs: set<Segment>, acks: set<Segment>)
    requires Direction(c.snd, r, segs, acks)
    ensures Direction(RstSegment(Fail(c)).snd, r, segs, acks)
  {
    var failed := Fail(c).snd;
    StreamKeeps(c.snd, c.snd.stream.(error := true), r, segs, acks);
    SendEmptyKeeps(failed, r, segs, acks);
    var ready := if failed.out == [] then SendEmpty(failed) else failed;
    DrainKeeps(ready, ready.out[1..], r, segs, acks);
  }

  lemma TickSenderSide(c: Connection, ms: nat, r: Receiver, segs: set<Segment>, acks: set<Segment>)
    requires Direction(c.snd, r, segs, acks)
    ensures Direction(Connections.Tick(c, ms).snd, r, segs, acks)
  {
    var ticked := TickSender(c, ms);
    TickKeeps(c.snd, ms, r, segs, acks);
    ResetSender(ticked, r, segs, acks);
    var ready := if ticked.snd.retx > MAX_RETX_ATTEMPTS then RstSegment(Fail(ticked)) else ticked;
    DrainKeeps(ready.snd, [], r, segs, acks);
  }

  lemma ReceiveSender(c: Connection, seg: Segment, r: Receiver, segs: set<Segment>, acks: set<Segment>)
    requires Direction(c.snd, r, segs, acks) && Short(c.snd) && seg in acks
    ensures Direction(Receive(c, seg).snd, r, segs, acks)
  {
    var h := HandleAck(c.snd, seg.header).0;
    assert Direction(h, r, segs, acks) by {
      if seg.header.ack {
        AckKeeps(c.snd, seg, r, segs, acks);
      } else {
        FillKeeps(c.snd, r, segs, acks);
      }
    }
    StreamKeeps(c.snd, c.snd.stream.(error := true), r, segs, acks);
    DrainKeeps(h, [], r, segs, acks);
    ReceivedSender(c, seg);
  }

  lemma SenderSide(c: Connection, op: Op, r: Receiver, segs: set<Segment>, acks: set<Segment>)
    requires Direction(c.snd, r, segs, acks) && Short(c.snd)
    requires op.DoReceive? ==> op.seg in acks
    ensures Direction(Apply(c, op).snd, r, segs, acks)
  {
    hide Receive, Connect, Connections.Tick, Direction;
    match op
    case DoConnect => ConnectSender(c, r, segs, acks);
    case DoWrite(data) =>
      StreamKeeps(c.snd, Append(c.snd.stream, data), r, segs, acks);
      ConnectSender(c.(snd := WithStream(c.snd, Append(c.snd.stream, data))), r, segs, acks);
    case DoEndInput =>
      StreamKeeps(c.snd, c.snd.stream.(ended := true), r, segs, acks);
      ConnectSender(c.(snd := WithStream(c.snd, c.snd.stream.(ended := true))), r, segs, acks);
    case DoTick(ms) => TickSenderSide(c, ms, r, segs, acks);
    case DoRead(len) =>
    case DoReceive(seg) => ReceiveSender(c, seg, r, segs, acks);
  }

  lemma ReceiverSide(c: Connection, op: Op, s: Sender, segs: set<Segment>, acks: set<Segment>)
    requires Direction(s, c.rcv, segs, acks) && Short(s)
    requires op.DoReceive? ==> op.seg in segs
    ensures Direction(s, Apply(c, op).rcv, segs, acks)
  {
    OutputKeeps(s, c.rcv, c.rcv.reasm.out.(error := true), segs, acks);
    if op.DoRead? {
      OutputKeeps(s, c.rcv, Consume(c.rcv.reasm.out, op.len), segs, acks);
    } else if op.DoReceive? {
      SegmentKeeps(s, c.rcv, segs, acks, op.seg);
      ReceivedReceiver(c, op.seg);
    } else {
      assert Apply(c, op).rcv == c.rcv || Apply(c, op).rcv == WithOutput(c.rcv, c.rcv.reasm.out.(error := true));
    }
  }

  lemma LoggedIsPlain(s: Sender, seg: Segment)
    requires LogInv(s) && (seg in s.log || Bare(seg))
    ensures Core(seg) == seg && Authentic(seg, s.log)
  {
    if seg in s.log {
      var i :| 0 <= i < |s.log| && s.log[i] == seg;
      assert PlacedAt(s, i);
    }
  }

  lemma StampEmits(s: Sender, r: Receiver, seg: Segment)
    requires LogInv(s) && (seg in s.log || Bare(seg))
    ensures Emitted(Stamp(r, seg), s.log, r)
    ensures Emitted(Stamp(r, seg).(header := Stamp(r, seg).header.(rst := true)), s.log, r)
  {
    LoggedIsPlain(s, seg);
  }

  lemma {:induction false} StampAllEmits(s: Sender, r: Receiver, q: seq<Segment>)
    requires LogInv(s) && forall seg <- q :: seg in s.log || Bare(seg)
    ensures forall seg <- StampAll(r, q) :: Emitted(seg, s.log, r)
  {
    if q != [] {
      assert q[0] in q;
      StampEmits(s, r, q[0]);
      assert forall seg <- q[1..] :: seg in q;
      StampAllEmits(s, r, q[1..]);
    }
  }

  ghost predicate AllEmitted(c: Connection) {
    forall seg <- c.out :: Emitted(seg, c.snd.log, c.rcv)
  }

  lemma SegmentOutEmits(c: Connection)
    requires Inv(c.snd) && AllEmitted(c)
    ensures AllEmitted(SegmentOut(c))
  {
    StampAllEmits(c.snd, c.rcv, c.snd.out);
  }

  lemma ResetEmits(c: Connection)
    requires Inv(c.snd) && c.out == []
    ensures AllEmitted(RstSegment(Fail(c))) && Inv(RstSegment(Fail(c)).snd)
  {
    var f := Fail(c);
    OutsideInv(c.snd, c.snd.stream.(error := true), c.snd.out);
    SendEmptyInv(f.snd);
    var ready := if f.snd.out == [] then SendEmpty(f.snd) else f.snd;
    assert ready.out[0] in ready.out;
    StampEmits(ready, f.rcv, ready.out[0]);
    OutsideInv(ready, ready.stream, ready.out[1..]);
  }

  lemma ConnectEmits(c: Connection, stream: Stream)
    requires Inv(c.snd) && c.out == []
    requires c.snd.stream.written <= stream.written && stream.nread == c.snd.stream.nread
    requires c.snd.stream.ended ==> stream.ended
    ensures AllEmitted(Connect(c.(snd := WithStream(c.snd, stream))))
  {
    var s := WithStream(c.snd, stream);
    OutsideInv(c.snd, stream, c.snd.out);
    FillWindowInv(s);
    SegmentOutEmits(c.(snd := FillWindow(s)));
  }

  lemma TickEmits(c: Connection, ms: nat)
    requires Inv(c.snd) && c.out == []
    ensures AllEmitted(Connections.Tick(c, ms))
  {
    var ticked := TickSender(c, ms);
    TickInv(c.snd, ms);
    ResetEmits(ticked);
    SegmentOutEmits(if ticked.snd.retx > MAX_RETX_ATTEMPTS then RstSegment(Fail(ticked)) else ticked);
  }

  /** Everything a call emits is authentic and acknowledges what the receiver has at that moment. */
  lemma Emissions(c: Connection, op: Op)
    requires Inv(c.snd) && c.out == []
    ensures AllEmitted(Apply(c, op))
  {
    match op
    case DoConnect => ConnectEmits(c, c.snd.stream);
    case DoWrite(data) => ConnectEmits(c, Append(c.snd.stream, data));
    case DoEndInput => ConnectEmits(c, c.snd.stream.(ended := true));
    case DoTick(ms) => TickEmits(c, ms);
    case DoRead(len) =>
    case DoReceive(seg) => ReceiveEmits(c, seg);
  }

  lemma ReceiveEmits(c: Connection, seg: Segment)
    requires Inv(c.snd) && c.out == []
    ensures AllEmitted(Receive(c, seg))
  {
    HandleAckInv(c.snd, seg.header);
    var d := Connections.Deliver(c.(lastSegment := c.time), seg);
    SendEmptyInv(d.snd);
    SegmentOutEmits(if d.snd.out == [] && d.rcv.isnSet then d.(snd := SendEmpty(d.snd)) else d);
  }

  /** Both directions hold, and both streams are short enough to be named by 32 bits. */
  ghost predicate Safe(s: System) {
    && Direction(s.a.snd, s.b.rcv, s.ab, s.ba)
    && Direction(s.b.snd, s.a.rcv, s.ba, s.ab)
    && s.a.out == [] && s.b.out == []
  }

  ghost predicate BothShort(s: System) {
    Short(s.a.snd) && Short(s.b.snd)
  }

  lemma StepASafe(s: System, op: Op)
    requires Safe(s) && BothShort(s)
    requires op.DoReceive? ==> op.seg in s.ba
    ensures Safe(StepA(s, op))
  {
    var c := Apply(s.a, op);
    var more := set seg | seg in c.out;
    SenderSide(s.a, op, s.b.rcv, s.ab, s.ba);
    ReceiverSide(s.a, op, s.b.snd, s.ba, s.ab);
    Emissions(s.a, op);
    MoreSegments(c.snd, s.b.rcv, s.ab, s.ba, more);
    MoreAcks(s.b.snd, c.rcv, s.ba, s.ab, c.snd.log, more);
  }

  lemma NextSafe(s: System, e: Event)
    requires Safe(s) && BothShort(s) && Enabled(s, e)
    ensures Safe(Next(s, e))
  {
    if e.onA { StepASafe(s, e.op); } else { StepASafe(s.Flip(), e.op); }
  }

  lemma InitialSafe(s: System)
    requires Initial(s)
    ensures Safe(s)
  {
    FreshDirection(s.a, s.b);
    FreshDirection(s.b, s.a);
  }

  lemma FreshDirection(a: Connection, b: Connection)
    requires FreshEndpoint(a) && FreshEndpoint(b)
    ensures Direction(a.snd, b.rcv, {}, {})
  {
    FreshInv(a.snd.isn, a.snd.initialRto, a.snd.stream.capacity);
  }

  /** Streams only grow, so a run that ends short was short throughout. */
  lemma StillShort(s: System, e: Event)
    requires BothShort(Next(s, e))
    ensures BothShort(s)
  {
    ApplyStep(s.a, e.op);
    ApplyStep(s.b, e.op);
  }

  /** Every state of every run is safe. */
  lemma {:induction false} RunSafe(s: System, es: seq<Event>)
    requires Initial(s) && Possible(s, es) && BothShort(After(s, es))
    ensures Safe(After(s, es))
  {
    if es == [] {
      InitialSafe(s);
    } else {
      var before, e := After(s, es[..|es| - 1]), es[|es| - 1];
      StillShort(before, e);
      RunSafe(s, es[..|es| - 1]);
      NextSafe(before, e);
    }
  }

  /** End-to-end safety: each side's inbound stream is a prefix of what the other side's application wrote. */
  lemma PrefixSafety(s: System, es: seq<Event>)
    requires Initial(s) && Possible(s, es) && BothShort(After(s, es))
    ensures var f := After(s, es);
            && f.b.rcv.reasm.out.written <= f.a.snd.stream.written
            && f.a.rcv.reasm.out.written <= f.b.snd.stream.written
  {
    RunSafe(s, es);
  }

  /** Flow control: whatever either side ever sent still fits, whole, in the window of the other side's store. */
  lemma FlowControl(s: System, es: seq<Event>, seg: Segment)
    requires Initial(s) && Possible(s, es) && BothShort(After(s, es))
    ensures var f := After(s, es);
            && (seg in f.ab ==> Fits(f.b.rcv, seg))
            && (seg in f.ba ==> Fits(f.a.rcv, seg))
  {
    RunSafe(s, es);
    var f := After(s, es);
    if seg in f.ab { InTransitFits(f.a.snd, f.b.rcv, f.ab, f.ba, seg); }
    if seg in f.ba { InTransitFits(f.b.snd, f.a.rcv, f.ba, f.ab, seg); }
  }

  /** The receiver may be handed the segment, and will drop none of its bytes for lack of space. */
  ghost predicate Fits(r: Receiver, seg: Segment) {
    && Acceptable(r, seg)
    && ((r.isnSet || seg.header.syn) && seg.payload != [] ==>
          PayloadIndex(r, seg) + |seg.payload| <= r.First() + r.reasm.capacity)
  }
}
