/** What one call does to an endpoint, said of its fields alone. */
module CallLaws {
  import opened Integers
  import opened WrappingIntegers
  import opened ByteStreams
  import opened Reassembly
  import opened ReassemblyLaws
  import opened TcpSegments
  import opened Senders
  import opened SenderLaws
  import opened Receivers
  import opened Connections
  import opened Networks
  import opened ConnectionLaws
  import opened NetworkLaws
  import opened TimeoutLaws

  // The window is used.

  /** The segment gets past the reset and the wait for a SYN. */
  predicate Taken(c: Connection, seg: Segment) {
    !seg.header.rst && (c.rcv.isnSet || SeqLen(seg) > 0)
  }

  /** All of the sender but its queue of outgoing segments. */
  ghost predicate SameSender(s: Sender, t: Sender) {
    s.(out := []) == t.(out := [])
  }

  lemma ReplySender(c: Connection)
    ensures SameSender(Reply(c).snd, c.snd)
  {
  }

  lemma TakenSender(c: Connection, seg: Segment)
    requires Taken(c, seg)
    ensures SameSender(Receive(c, seg).snd, HandleAck(c.snd, seg.header).0)
  {
    hide Reply;
    ReplySender(Connections.Deliver(c.(lastSegment := c.time), seg));
  }

  lemma SameFilled(s: Sender, t: Sender)
    requires SameSender(s, t)
    ensures Filled(s) <==> Filled(t)
    ensures (s.acked, s.window, s.unacked, s.timer, s.time, s.retx) == (t.acked, t.window, t.unacked, t.timer, t.time, t.retx)
  {
    assert s.(out := []).acked == s.acked && t.(out := []).acked == t.acked;
  }

  /** A segment that acknowledges nothing new but repeats the position, or more, has its window used at once. */
  lemma SegmentUsesWindow(c: Connection, seg: Segment)
    requires Taken(c, seg)
    ensures var t := Apply(c, DoReceive(seg)).snd;
            var ack := Unwrap(seg.header.ackno, c.snd.isn, c.snd.acked);
            && (!seg.header.ack ==> Filled(t))
            && (seg.header.ack ==> t.window == seg.header.win)
            && (seg.header.ack && c.snd.acked <= ack <= c.snd.sent ==> t.acked == ack && Filled(t))
  {
    hide Receive;
    TakenSender(c, seg);
    SameFilled(Receive(c, seg).snd, HandleAck(c.snd, seg.header).0);
    AckUsesWindow(c.snd, seg.header.ackno, seg.header.win);
    FillsUp(c.snd);
  }

  /** After connecting, writing or ending the input, nothing that could be sent is left. */
  lemma LocalCallFills(c: Connection, op: Op)
    requires op.DoConnect? || op.DoWrite? || op.DoEndInput?
    ensures Filled(Apply(c, op).snd)
  {
    match op
    case DoConnect => FillsUp(c.snd);
    case DoWrite(data) => FillsUp(WithStream(c.snd, Append(c.snd.stream, data)));
    case DoEndInput => FillsUp(WithStream(c.snd, c.snd.stream.(ended := true)));
  }

  /** A write accepts as much as there is room for, in order, and nothing else adds to the stream. */
  lemma WriteAccepts(c: Connection, op: Op)
    ensures var was, now := c.snd.stream, Apply(c, op).snd.stream;
            var room := was.capacity - (|was.written| - was.nread);
            now.written == was.written + (if op.DoWrite? then op.data[..Min(|op.data|, room)] else [])
  {
    if op.DoWrite? {
      FillWindowFrame(WithStream(c.snd, Append(c.snd.stream, op.data)));
    } else {
      WrittenStays(c, op);
    }
  }

  // The timer follows acknowledgements.

  lemma FilledRestarts(n: Sender)
    requires Inv(n) && n.retx == 0 && (n.timer.active ==> n.timer.start == n.time)
    ensures var t := FillWindow(n); t.retx == 0 && (t.unacked != [] ==> t.timer.start == n.time)
  {
    hide LogInv, QueueInv, OutInv;
    FillWindowInv(n);
    FillWindowFrame(n);
    if !n.timer.active { FillStartsTimer(n); }
  }

  lemma AckRestarts(s: Sender, ackno: u32, win: u16)
    requires Inv(s)
    ensures var t := AckReceived(s, ackno, win).0;
            t.acked > s.acked ==> t.retx == 0 && (t.unacked != [] ==> t.timer.start == s.time)
  {
    hide LogInv, QueueInv, OutInv, TimerInv;
    var ack, w := Unwrap(ackno, s.isn, s.acked), s.(window := win);
    FillWindowFrame(w);
    if w.acked < ack <= w.sent {
      WindowInv(s, win);
      NewAckInv(w, ack);
      NewAckRestarts(w, ack);
      FilledRestarts(NewAck(w, ack));
    }
  }

  lemma WindowInv(s: Sender, win: u16)
    requires Inv(s)
    ensures Inv(s.(window := win))
  {
    KeepLog(s, s.(window := win));
  }

  /** Whatever raises the acknowledged position ends the backoff and starts the timer afresh. */
  lemma NewAckTimerRestarts(c: Connection, seg: Segment)
    requires Inv(c.snd)
    ensures var t := Receive(c, seg).snd;
            t.acked > c.snd.acked ==>
              t.retx == 0 && t.timer.rto == t.initialRto && (t.unacked != [] ==> t.timer.start == c.snd.time)
  {
    hide Receive, LogInv, QueueInv, OutInv, TimerInv, FillWindow;
    AckRestarts(c.snd, seg.header.ackno, seg.header.win);
    FillWindowFrame(c.snd);
    ReceivedInv(c, seg);
    if Receive(c, seg).snd.retx == 0 { NewRto(Receive(c, seg).snd); }
    if Taken(c, seg) {
      TakenSender(c, seg);
      SameFilled(Receive(c, seg).snd, HandleAck(c.snd, seg.header).0);
    } else {
      UntakenAcked(c, seg);
    }
  }

  lemma UntakenAcked(c: Connection, seg: Segment)
    requires !Taken(c, seg)
    ensures Receive(c, seg).snd.acked == c.snd.acked
  {
  }

  lemma NewRto(s: Sender)
    requires TimerInv(s) && s.retx == 0
    ensures s.timer.rto == s.initialRto
  {
    ExactRto(s);
    assert Pow2(0) == 1;
  }

  // Resets.

  /** Both streams are in error exactly when the connection was reset. */
  ghost predicate ErrorsAgree(c: Connection) {
    (c.rst <==> c.snd.stream.error) && (c.rst <==> c.rcv.reasm.out.error)
  }

  lemma HandleAckError(s: Sender, header: TcpHeader)
    ensures HandleAck(s, header).0.stream.error == s.stream.error
  {
    var ack, t := AckOf(s, header), s.(window := header.win);
    FillWindowFrame(s);
    FillWindowFrame(t);
    if t.acked < ack <= t.sent { FillWindowFrame(NewAck(t, ack)); }
  }

  lemma DeliveredErrors(c: Connection, seg: Segment)
    requires c.rcv.reasm.Wf()
    ensures SegmentReceived(c.rcv, seg).0.reasm.out.error == c.rcv.reasm.out.error
  {
    PushKeeps(c.rcv.reasm, seg.payload, PayloadIndex(c.rcv, seg), seg.header.fin);
  }

  lemma DeliverErrors(c: Connection, seg: Segment)
    requires ErrorsAgree(c) && c.rcv.reasm.Wf()
    ensures var d := Connections.Deliver(c, seg); ErrorsAgree(d) && d.rcv.reasm.Wf()
  {
    hide HandleAck;
    HandleAckError(c.snd, seg.header);
    DeliveredErrors(c, seg);
    PushKeeps(c.rcv.reasm, seg.payload, PayloadIndex(c.rcv, seg), seg.header.fin);
  }

  lemma ReplyErrors(c: Connection)
    requires ErrorsAgree(c)
    ensures ErrorsAgree(Reply(c)) && Reply(c).rcv == c.rcv
  {
  }

  lemma FailErrors(c: Connection)
    requires c.rcv.reasm.Wf()
    ensures ErrorsAgree(Fail(c)) && Fail(c).rcv.reasm.Wf()
  {
  }

  lemma ReceivedErrors(c: Connection, seg: Segment)
    requires ErrorsAgree(c) && c.rcv.reasm.Wf()
    ensures ErrorsAgree(Receive(c, seg)) && Receive(c, seg).rcv.reasm.Wf()
  {
    hide Fail, Connections.Deliver, Reply;
    var heard := c.(lastSegment := c.time);
    FailErrors(heard);
    DeliverErrors(heard, seg);
    ReplyErrors(Connections.Deliver(heard, seg));
  }

  lemma ConnectErrors(c: Connection)
    requires ErrorsAgree(c) && c.rcv.reasm.Wf()
    ensures ErrorsAgree(Connect(c)) && Connect(c).rcv.reasm.Wf()
  {
    hide FillWindow, StampAll;
    FillWindowFrame(c.snd);
  }

  lemma TickErrors(c: Connection, ms: nat)
    requires ErrorsAgree(c) && c.rcv.reasm.Wf()
    ensures ErrorsAgree(Connections.Tick(c, ms)) && Connections.Tick(c, ms).rcv.reasm.Wf()
  {
    hide StampAll;
  }

  lemma ApplyErrors(c: Connection, op: Op)
    requires ErrorsAgree(c) && c.rcv.reasm.Wf()
    ensures ErrorsAgree(Apply(c, op)) && Apply(c, op).rcv.reasm.Wf()
  {
    hide Receive, Connect, Connections.Tick;
    match op
    case DoConnect => ConnectErrors(c);
    case DoWrite(data) => ConnectErrors(c.(snd := WithStream(c.snd, Append(c.snd.stream, data))));
    case DoEndInput => ConnectErrors(c.(snd := WithStream(c.snd, c.snd.stream.(ended := true))));
    case DoTick(ms) => TickErrors(c, ms);
    case DoRead(len) =>
    case DoReceive(seg) => ReceivedErrors(c, seg);
  }

  /** In every run, with any segments from anyone, both streams are in error exactly when the connection was reset. */
  lemma {:induction false} ResetMeansError(cs: seq<Connection>, ops: seq<Op>, n: nat)
    requires Trace(cs, ops) && FreshEndpoint(cs[0]) && n <= |ops|
    ensures (cs[n].rst <==> cs[n].snd.stream.error) && (cs[n].rst <==> cs[n].rcv.reasm.out.error)
    ensures cs[n].rcv.reasm.Wf()
  {
    if n > 0 {
      ResetMeansError(cs, ops, n - 1);
      ApplyErrors(cs[n - 1], ops[n - 1]);
    }
  }

  /** The connection is reset by a segment with RST and by the tick that makes the ninth retransmission, and by nothing else. */
  lemma ResetExactly(c: Connection, op: Op)
    ensures Apply(c, op).rst <==>
              c.rst || (op.DoReceive? && op.seg.header.rst) || (op.DoTick? && Apply(c, op).snd.retx > 8)
  {
    ApplyClock(c, op);
  }

  // What goes out with RST.

  /** No segment of `q` carries RST. */
  predicate Plain(q: seq<Segment>) {
    forall i :: 0 <= i < |q| ==> !q[i].header.rst
  }

  lemma QueueIsPlain(s: Sender)
    requires Inv(s)
    ensures Plain(s.out)
  {
    forall i | 0 <= i < |s.out| ensures !s.out[i].header.rst {
      assert s.out[i] in s.out;
      LoggedIsPlain(s, s.out[i]);
    }
  }

  lemma {:induction false} StampedIsPlain(r: Receiver, q: seq<Segment>)
    requires Plain(q)
    ensures Plain(StampAll(r, q)) && |StampAll(r, q)| == |q|
  {
    if q != [] {
      StampedIsPlain(r, q[1..]);
    }
  }

  lemma SentOutPlain(c: Connection)
    requires Inv(c.snd) && c.out == []
    ensures Plain(SegmentOut(c).out) && |SegmentOut(c).out| == |c.snd.out|
  {
    QueueIsPlain(c.snd);
    StampedIsPlain(c.rcv, c.snd.out);
  }

  lemma ConnectPlain(c: Connection, stream: Stream)
    requires Inv(c.snd) && c.out == []
    requires c.snd.stream.written <= stream.written && stream.nread == c.snd.stream.nread
    requires c.snd.stream.ended ==> stream.ended
    ensures Plain(Connect(c.(snd := WithStream(c.snd, stream))).out)
  {
    var s := WithStream(c.snd, stream);
    OutsideInv(c.snd, stream, c.snd.out);
    FillWindowInv(s);
    SentOutPlain(c.(snd := FillWindow(s)));
  }

  lemma ReplyPlain(c: Connection)
    requires Inv(c.snd) && c.out == []
    ensures Plain(Reply(c).out)
  {
    SendEmptyInv(c.snd);
    SentOutPlain(if c.snd.out == [] && c.rcv.isnSet then c.(snd := SendEmpty(c.snd)) else c);
  }

  lemma ReceivePlain(c: Connection, seg: Segment)
    requires Inv(c.snd) && c.out == []
    ensures Plain(Receive(c, seg).out)
  {
    hide Reply, Inv;
    HandleAckInv(c.snd, seg.header);
    ReplyPlain(Connections.Deliver(c.(lastSegment := c.time), seg));
  }

  /** The first segment carries RST and no other does. */
  predicate ResetFirst(q: seq<Segment>) {
    q != [] && q[0].header.rst && Plain(q[1..])
  }

  lemma GivesUp(c: Connection)
    requires Inv(c.snd) && c.out == []
    ensures ResetFirst(SegmentOut(RstSegment(Fail(c))).out)
  {
    var f := Fail(c);
    OutsideInv(c.snd, c.snd.stream.(error := true), c.snd.out);
    SendEmptyInv(f.snd);
    var ready := if f.snd.out == [] then SendEmpty(f.snd) else f.snd;
    QueueIsPlain(ready);
    StampedIsPlain(f.rcv, ready.out[1..]);
  }

  lemma TickResets(c: Connection, ms: nat)
    requires Inv(c.snd) && c.out == []
    ensures var d := Connections.Tick(c, ms);
            && (d.snd.retx > 8 ==> ResetFirst(d.out))
            && (d.snd.retx <= 8 ==> Plain(d.out))
  {
    var ticked := TickSender(c, ms);
    TickInv(c.snd, ms);
    GivesUp(ticked);
    SentOutPlain(ticked);
    GivenUpRetx(ticked);
  }

  lemma GivenUpRetx(c: Connection)
    ensures SegmentOut(RstSegment(Fail(c))).snd.retx == c.snd.retx
  {
  }

  /** A tick past the eighth retransmission puts out exactly one segment with RST, first; no other call puts one out. */
  lemma ResetIsSent(c: Connection, op: Op)
    requires Inv(c.snd) && c.out == []
    ensures var d := Apply(c, op);
            && (op.DoTick? && d.snd.retx > 8 ==> ResetFirst(d.out))
            && (!(op.DoTick? && d.snd.retx > 8) ==> Plain(d.out))
  {
    match op
    case DoConnect => ConnectPlain(c, c.snd.stream);
    case DoWrite(data) => ConnectPlain(c, Append(c.snd.stream, data));
    case DoEndInput => ConnectPlain(c, c.snd.stream.(ended := true));
    case DoTick(ms) => TickResets(c, ms);
    case DoRead(len) =>
    case DoReceive(seg) => ReceivePlain(c, seg);
  }
}
