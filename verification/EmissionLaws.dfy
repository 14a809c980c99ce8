/** What a call puts out: everything that was waiting and everything new, each once, in order. */
module EmissionLaws {
  import opened ByteStreams
  import opened TcpSegments
  import opened WrappingIntegers
  import opened Senders
  import opened Receivers
  import opened Connections
  import opened Networks

  /** The same segment, but for its acknowledgement, window and RST. */
  predicate Copy(a: Segment, b: Segment) {
    && a.payload == b.payload
    && a.header == b.header.(ack := a.header.ack, ackno := a.header.ackno, win := a.header.win, rst := a.header.rst)
  }

  predicate Copies(q: seq<Segment>, w: seq<Segment>) {
    |q| == |w| && forall i :: 0 <= i < |q| ==> Copy(q[i], w[i])
  }

  /** What was queued in `s`, and the segments made since. */
  function Waiting(s: Sender, t: Sender): seq<Segment>
    requires s.log <= t.log
  {
    s.out + t.log[|s.log|..]
  }

  lemma {:induction false} StampedCopies(r: Receiver, q: seq<Segment>)
    ensures Copies(StampAll(r, q), q)
  {
    if q != [] {
      StampedCopies(r, q[1..]);
    }
  }

  lemma {:induction false} FillAppends(s: Sender)
    ensures s.log <= FillWindow(s).log && FillWindow(s).out == Waiting(s, FillWindow(s))
    decreases EffectiveWindow(s) - InFlight(s)
  {
    if !Blocked(s) {
      var n, t := SendOne(s), FillWindow(s);
      FillAppends(n);
      assert t.log[|s.log|..] == [t.log[|s.log|]] + t.log[|n.log|..];
    }
  }

  lemma SentOutCopies(c: Connection)
    requires c.out == []
    ensures Copies(SegmentOut(c).out, c.snd.out) && SegmentOut(c).snd == c.snd.(out := [])
  {
    hide StampAll;
    StampedCopies(c.rcv, c.snd.out);
    assert c.out + StampAll(c.rcv, c.snd.out) == StampAll(c.rcv, c.snd.out);
  }

  /** All that waited and all that is new went out, and nothing is left waiting. */
  ghost predicate SentAll(c: Connection, d: Connection) {
    c.snd.log <= d.snd.log && Copies(d.out, Waiting(c.snd, d.snd)) && d.snd.out == []
  }

  lemma ConnectSends(c: Connection, stream: Stream)
    requires c.out == []
    ensures SentAll(c, Connect(c.(snd := WithStream(c.snd, stream))))
  {
    hide FillWindow, SegmentOut;
    var s := WithStream(c.snd, stream);
    FillAppends(s);
    SentOutCopies(c.(snd := FillWindow(s)));
  }

  lemma HandledAppends(s: Sender, header: TcpHeader)
    ensures var t := HandleAck(s, header).0; s.log <= t.log && t.out == Waiting(s, t)
  {
    hide FillWindow;
    var w, ack := s.(window := header.win), Unwrap(header.ackno, s.isn, s.acked);
    FillAppends(s);
    FillAppends(w);
    if s.acked < ack <= s.sent { FillAppends(NewAck(w, ack)); }
  }

  /** Everything waits, or everything went out, or nothing was waiting and one empty segment went out. */
  ghost predicate SentOrKept(c: Connection, d: Connection) {
    && c.snd.log <= d.snd.log
    && var w := Waiting(c.snd, d.snd);
    || (d.out == [] && d.snd.out == w)
    || (w != [] && SentAll(c, d))
    || (w == [] && |d.out| == 1 && SeqLen(d.out[0]) == 0 && d.snd.out == [])
  }

  lemma ReplySends(c: Connection)
    requires c.out == []
    ensures var d := Reply(c);
            || (c.snd.out != [] && Copies(d.out, c.snd.out))
            || (c.snd.out == [] && d.out == [])
            || (c.snd.out == [] && |d.out| == 1 && SeqLen(d.out[0]) == 0)
    ensures Reply(c).snd == c.snd.(out := [])
  {
    hide SegmentOut;
    var ready := if c.snd.out == [] && c.rcv.isnSet then c.(snd := SendEmpty(c.snd)) else c;
    SentOutCopies(ready);
    if c.snd.out == [] && c.rcv.isnSet { assert Copy(Reply(c).out[0], ready.snd.out[0]); }
  }

  lemma ReceiveSends(c: Connection, seg: Segment)
    requires c.out == []
    ensures SentOrKept(c, Receive(c, seg))
  {
    hide Reply, HandleAck;
    HandledAppends(c.snd, seg.header);
    ReplySends(Connections.Deliver(c.(lastSegment := c.time), seg));
  }

  /** What was queued, and the segment sent again if the timer ran out. */
  function Repeating(s: Sender, t: Sender): seq<Segment> {
    s.out + (if t.retx > s.retx && s.unacked != [] then [s.unacked[0]] else [])
  }

  lemma FailSends(c: Connection)
    requires c.out == []
    ensures var d := SegmentOut(RstSegment(Fail(c)));
            && (c.snd.out != [] ==> Copies(d.out, c.snd.out))
            && (c.snd.out == [] ==> |d.out| == 1 && SeqLen(d.out[0]) == 0)
            && d.snd.out == [] && d.snd.log == c.snd.log && d.snd.retx == c.snd.retx
  {
    hide StampAll;
    if c.snd.out != [] {
      StampedCopies(Fail(c).rcv, c.snd.out[1..]);
      assert c.snd.out == [c.snd.out[0]] + c.snd.out[1..];
    } else {
      assert SendEmpty(Fail(c).snd).out[1..] == [];
      StampedCopies(Fail(c).rcv, []);
    }
  }

  lemma TickSends(c: Connection, ms: nat)
    requires c.out == []
    ensures var d := Connections.Tick(c, ms);
            var w := Repeating(c.snd, d.snd);
            && (w != [] || d.snd.retx <= 8 ==> Copies(d.out, w))
            && (w == [] && d.snd.retx > 8 ==> |d.out| == 1 && SeqLen(d.out[0]) == 0)
            && d.snd.out == [] && d.snd.log == c.snd.log
  {
    hide SegmentOut, RstSegment, Fail;
    FailSends(TickSender(c, ms));
    SentOutCopies(TickSender(c, ms));
  }

  /**
   * Whatever call is made, nothing waiting or new is dropped, repeated or reordered. Only an expired timer sends a
   * segment again, and an empty segment goes out only when nothing else does.
   */
  lemma SendsExactly(c: Connection, op: Op)
    requires c.out == []
    ensures var d := Apply(c, op);
            && (op.DoConnect? || op.DoWrite? || op.DoEndInput? ==> SentAll(c, d))
            && (op.DoReceive? ==> SentOrKept(c, d))
            && (op.DoRead? ==> d.out == [] && d.snd == c.snd)
            && (op.DoTick? ==>
                  var w := Repeating(c.snd, d.snd);
                  && d.snd.out == [] && d.snd.log == c.snd.log
                  && (if w == [] && d.snd.retx > 8 then |d.out| == 1 && SeqLen(d.out[0]) == 0 else Copies(d.out, w)))
  {
    hide Connect, Receive, Connections.Tick, SentAll, SentOrKept;
    match op
    case DoConnect => ConnectSends(c, c.snd.stream);
    case DoWrite(data) => ConnectSends(c, Append(c.snd.stream, data));
    case DoEndInput => ConnectSends(c, c.snd.stream.(ended := true));
    case DoTick(ms) => TickSends(c, ms);
    case DoRead(len) =>
    case DoReceive(seg) => ReceiveSends(c, seg);
  }
}
