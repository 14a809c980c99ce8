/** What any call does to one endpoint, whatever segments it is fed. */
module ConnectionLaws {
  import opened WrappingIntegers
  import opened ByteStreams
  import opened TcpSegments
  import opened Senders
  import opened SenderLaws
  import opened Receivers
  import opened Connections
  import opened Networks

  /** What receiving a segment leaves of the sender: failed, untouched, or past the acknowledgement. */
  lemma ReceivedSender(c: Connection, seg: Segment)
    ensures var h := HandleAck(c.snd, seg.header).0;
            || Receive(c, seg).snd == WithStream(c.snd, c.snd.stream.(error := true))
            || Receive(c, seg).snd == c.snd
            || Receive(c, seg).snd == h
            || Receive(c, seg).snd == h.(out := [])
  {
  }

  lemma ReceivedReceiver(c: Connection, seg: Segment)
    ensures || Receive(c, seg).rcv == WithOutput(c.rcv, c.rcv.reasm.out.(error := true))
            || Receive(c, seg).rcv == c.rcv
            || Receive(c, seg).rcv == SegmentReceived(c.rcv, seg).0
  {
  }

  lemma HandleAckInv(s: Sender, header: TcpHeader)
    requires Inv(s)
    ensures Inv(HandleAck(s, header).0)
  {
    if header.ack { AckReceivedInv(s, header.ackno, header.win); } else { FillWindowInv(s); }
  }

  /** What every call leaves unchanged in the sender, and how far it may move the acknowledged position. */
  ghost predicate SenderStep(s: Sender, t: Sender, ack: nat) {
    && t.isn == s.isn && s.log <= t.log
    && s.stream.written <= t.stream.written && s.stream.nread <= t.stream.nread
    && (s.eof ==> t.eof && t.sent == s.sent && t.stream.nread == s.stream.nread)
    && (t.acked == s.acked || s.acked < t.acked == ack)
  }

  lemma FillStep(s: Sender, t: Sender, ack: nat)
    requires SenderStep(s, t, ack)
    ensures SenderStep(s, FillWindow(t), ack)
  {
    FillWindowFrame(t);
  }

  function AckOf(s: Sender, header: TcpHeader): nat {
    if header.ack then Unwrap(header.ackno, s.isn, s.acked) else s.acked
  }

  lemma HandleAckStep(s: Sender, header: TcpHeader)
    ensures SenderStep(s, HandleAck(s, header).0, AckOf(s, header))
  {
    var ack, t := AckOf(s, header), s.(window := header.win);
    FillStep(s, s, ack);
    FillStep(s, t, ack);
    if t.acked < ack <= t.sent { FillStep(s, NewAck(t, ack), ack); }
  }

  lemma TickedSender(c: Connection, ms: nat)
    ensures var t, u := Senders.Tick(c.snd, ms), Connections.Tick(c, ms).snd;
            u == t.(out := []) || u == WithStream(t, t.stream.(error := true)).(out := [])
  {
  }

  lemma ConnectStep(s: Sender, c: Connection)
    requires SenderStep(s, c.snd, s.acked)
    ensures SenderStep(s, Connect(c).snd, s.acked)
  {
    FillStep(s, c.snd, s.acked);
  }

  lemma TickStep(c: Connection, ms: nat)
    ensures SenderStep(c.snd, Connections.Tick(c, ms).snd, c.snd.acked)
  {
    TickedSender(c, ms);
  }

  lemma ApplyStep(c: Connection, op: Op)
    ensures SenderStep(c.snd, Apply(c, op).snd, if op.DoReceive? then AckOf(c.snd, op.seg.header) else c.snd.acked)
  {
    hide Receive, Connect, Connections.Tick;
    var s := c.snd;
    match op
    case DoConnect => ConnectStep(s, c);
    case DoWrite(data) => ConnectStep(s, c.(snd := WithStream(s, Append(s.stream, data))));
    case DoEndInput => ConnectStep(s, c.(snd := WithStream(s, s.stream.(ended := true))));
    case DoTick(ms) => TickStep(c, ms);
    case DoRead(len) =>
    case DoReceive(seg) => ReceiveStep(c, seg);
  }

  lemma ReceiveStep(c: Connection, seg: Segment)
    ensures SenderStep(c.snd, Receive(c, seg).snd, AckOf(c.snd, seg.header))
  {
    HandleAckStep(c.snd, seg.header);
    ReceivedSender(c, seg);
  }

  lemma StreamInv(s: Sender, stream: Stream)
    requires Inv(s) && s.stream.written <= stream.written && stream.nread == s.stream.nread
    requires s.stream.ended ==> stream.ended
    ensures Inv(WithStream(s, stream)) && Inv(WithStream(s, stream).(out := []))
  {
    OutsideInv(s, stream, s.out);
    OutsideInv(s, stream, []);
  }

  lemma FilledInv(s: Sender, stream: Stream)
    requires Inv(s) && s.stream.written <= stream.written && stream.nread == s.stream.nread
    requires s.stream.ended ==> stream.ended
    ensures Inv(FillWindow(WithStream(s, stream)).(out := []))
  {
    StreamInv(s, stream);
    FillWindowInv(WithStream(s, stream));
    StreamInv(FillWindow(WithStream(s, stream)), FillWindow(WithStream(s, stream)).stream);
  }

  /** The sender's invariants hold after every call, with any segment from anyone. */
  lemma ApplyInv(c: Connection, op: Op)
    requires Inv(c.snd)
    ensures Inv(Apply(c, op).snd)
  {
    var s := c.snd;
    match op
    case DoConnect => FilledInv(s, s.stream);
    case DoWrite(data) => FilledInv(s, Append(s.stream, data));
    case DoEndInput => FilledInv(s, s.stream.(ended := true));
    case DoTick(ms) => TickedInv(c, ms);
    case DoRead(len) =>
    case DoReceive(seg) => ReceivedInv(c, seg);
  }

  lemma TickedInv(c: Connection, ms: nat)
    requires Inv(c.snd)
    ensures Inv(Connections.Tick(c, ms).snd)
  {
    var t := Senders.Tick(c.snd, ms);
    TickInv(c.snd, ms);
    StreamInv(t, t.stream);
    StreamInv(t, t.stream.(error := true));
    TickedSender(c, ms);
  }

  lemma ReceivedInv(c: Connection, seg: Segment)
    requires Inv(c.snd)
    ensures Inv(Receive(c, seg).snd)
  {
    var h := HandleAck(c.snd, seg.header).0;
    HandleAckInv(c.snd, seg.header);
    StreamInv(h, h.stream);
    StreamInv(c.snd, c.snd.stream.(error := true));
    ReceivedSender(c, seg);
  }

  lemma KeepsWritten(c: Connection, seg: Segment)
    ensures Receive(c, seg).snd.stream.written == c.snd.stream.written
  {
    ReceivedSender(c, seg);
    var ack, t := AckOf(c.snd, seg.header), c.snd.(window := seg.header.win);
    FillWindowFrame(c.snd);
    FillWindowFrame(t);
    if t.acked < ack <= t.sent { FillWindowFrame(NewAck(t, ack)); }
  }

  /** Only a write adds to what the application has written. */
  lemma WrittenStays(c: Connection, op: Op)
    requires !op.DoWrite?
    ensures Apply(c, op).snd.stream.written == c.snd.stream.written
  {
    match op
    case DoConnect => FillWindowFrame(c.snd);
    case DoEndInput => FillWindowFrame(WithStream(c.snd, c.snd.stream.(ended := true)));
    case DoTick(ms) => TickedSender(c, ms);
    case DoRead(len) =>
    case DoReceive(seg) => KeepsWritten(c, seg);
  }
}
