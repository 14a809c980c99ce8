/** What an endpoint's segments tell its peer, and when it answers at all. */
module ReplyLaws {
  import opened Integers
  import opened WrappingIntegers
  import opened ByteStreams
  import opened Reassembly
  import opened TcpSegments
  import opened Senders
  import opened SenderLaws
  import opened Receivers
  import opened Connections
  import opened Networks
  import opened ConnectionLaws
  import opened NetworkLaws

  // What is told.

  /** The first position not yet had: SYN, bytes delivered, and the FIN once it was seen and nothing is stored. */
  function Expected(r: Receiver): nat {
    1 + |r.reasm.out.written| + (if r.finSet && r.reasm.store == map[] then 1 else 0)
  }

  /** The space left in the inbound stream. */
  function Free(r: Receiver): nat {
    r.reasm.out.capacity - (|r.reasm.out.written| - r.reasm.out.nread)
  }

  /** Once the SYN was seen, a segment acknowledges what is expected next and offers the free space, cut to 16 bits. */
  predicate Tells(seg: Segment, r: Receiver) {
    && (seg.header.ack <==> r.isnSet)
    && (r.isnSet ==> seg.header.ackno == (r.isn + Expected(r)) % 0x1_0000_0000 && seg.header.win == Free(r) % 0x1_0000)
  }

  ghost predicate AllTell(q: seq<Segment>, r: Receiver) {
    forall i :: 0 <= i < |q| ==> Tells(q[i], r)
  }

  /** No segment of `q` carries an acknowledgement yet. */
  predicate Unstamped(q: seq<Segment>) {
    forall i :: 0 <= i < |q| ==> !q[i].header.ack
  }

  lemma QueueIsUnstamped(s: Sender)
    requires Inv(s)
    ensures Unstamped(s.out)
  {
    forall i | 0 <= i < |s.out| ensures !s.out[i].header.ack {
      assert s.out[i] in s.out;
      LoggedIsPlain(s, s.out[i]);
    }
  }

  lemma StampTells(r: Receiver, seg: Segment)
    requires !seg.header.ack
    ensures Tells(Stamp(r, seg), r)
  {
  }

  lemma {:induction false} StampedTell(r: Receiver, q: seq<Segment>)
    requires Unstamped(q)
    ensures AllTell(StampAll(r, q), r)
  {
    if q != [] {
      StampTells(r, q[0]);
      StampedTell(r, q[1..]);
    }
  }

  lemma SentOutTells(c: Connection)
    requires Inv(c.snd) && c.out == []
    ensures AllTell(SegmentOut(c).out, c.rcv)
  {
    QueueIsUnstamped(c.snd);
    StampedTell(c.rcv, c.snd.out);
  }

  lemma ConnectTells(c: Connection, stream: Stream)
    requires Inv(c.snd) && c.out == []
    requires c.snd.stream.written <= stream.written && stream.nread == c.snd.stream.nread
    requires c.snd.stream.ended ==> stream.ended
    ensures AllTell(Connect(c.(snd := WithStream(c.snd, stream))).out, c.rcv)
  {
    var s := WithStream(c.snd, stream);
    OutsideInv(c.snd, stream, c.snd.out);
    FillWindowInv(s);
    SentOutTells(c.(snd := FillWindow(s)));
  }

  lemma ReplyTells(c: Connection)
    requires Inv(c.snd) && c.out == []
    ensures AllTell(Reply(c).out, c.rcv) && Reply(c).rcv == c.rcv
  {
    SendEmptyInv(c.snd);
    SentOutTells(if c.snd.out == [] && c.rcv.isnSet then c.(snd := SendEmpty(c.snd)) else c);
  }

  lemma ReceiveTells(c: Connection, seg: Segment)
    requires Inv(c.snd) && c.out == []
    ensures AllTell(Receive(c, seg).out, Receive(c, seg).rcv)
  {
    hide Reply, Inv, HandleAck;
    HandleAckInv(c.snd, seg.header);
    ReplyTells(Connections.Deliver(c.(lastSegment := c.time), seg));
  }

  lemma ReadyTells(s: Sender, r: Receiver)
    requires Inv(s) && s.out != []
    ensures var first := Stamp(r, s.out[0]);
            Tells(first.(header := first.header.(rst := true)), r) && AllTell(StampAll(r, s.out[1..]), r)
  {
    QueueIsUnstamped(s);
    StampTells(r, s.out[0]);
    StampedTell(r, s.out[1..]);
  }

  lemma FailedReady(c: Connection) returns (ready: Sender)
    requires Inv(c.snd)
    ensures ready == (if c.snd.out == [] then SendEmpty(Fail(c).snd) else Fail(c).snd) && Inv(ready) && ready.out != []
  {
    OutsideInv(c.snd, c.snd.stream.(error := true), c.snd.out);
    SendEmptyInv(Fail(c).snd);
    ready := if c.snd.out == [] then SendEmpty(Fail(c).snd) else Fail(c).snd;
  }

  lemma FailedTells(c: Connection)
    requires Inv(c.snd) && c.out == []
    ensures var d := SegmentOut(RstSegment(Fail(c))); AllTell(d.out, d.rcv)
  {
    hide Inv, Tells, Stamp, StampAll;
    var ready := FailedReady(c);
    ReadyTells(ready, Fail(c).rcv);
  }

  lemma TickTells(c: Connection, ms: nat)
    requires Inv(c.snd) && c.out == []
    ensures var d := Connections.Tick(c, ms); AllTell(d.out, d.rcv)
  {
    var ticked := TickSender(c, ms);
    TickInv(c.snd, ms);
    FailedTells(ticked);
    SentOutTells(ticked);
  }

  /** Everything any call puts out tells what the receiver has after the call. */
  lemma EverythingTells(c: Connection, op: Op)
    requires Inv(c.snd) && c.out == []
    ensures AllTell(Apply(c, op).out, Apply(c, op).rcv)
  {
    match op
    case DoConnect => ConnectTells(c, c.snd.stream);
    case DoWrite(data) => ConnectTells(c, Append(c.snd.stream, data));
    case DoEndInput => ConnectTells(c, c.snd.stream.(ended := true));
    case DoTick(ms) => TickTells(c, ms);
    case DoRead(len) =>
    case DoReceive(seg) => ReceiveTells(c, seg);
  }

  // When there is an answer.

  /** The segment, counted as one number at least, overlaps the free space after what is expected, also at least one. */
  predicate Overlaps(r: Receiver, seg: Segment) {
    var p := Unwrap(seg.header.seqno, r.isn, |r.reasm.out.written|);
    var length, free := if seg.payload == [] then 1 else |seg.payload|, if Free(r) == 0 then 1 else Free(r);
    Expected(r) < p + length && p < Expected(r) + free
  }

  lemma InsideMeans(r: Receiver, seg: Segment)
    requires r.isnSet
    ensures Inside(r, seg) <==> Overlaps(r, seg)
  {
    RoundTrip(AckPosition(r), r.isn, r.First());
  }

  /** The receiver's verdict: before the SYN, whether the segment has a SYN or FIN; afterwards, whether it overlaps. */
  lemma VerdictMeans(r: Receiver, seg: Segment)
    ensures SegmentReceived(r, seg).1 <==> if r.isnSet then Overlaps(r, seg) else seg.header.syn || seg.header.fin
  {
    hide Accept, Inside, Overlaps;
    if r.isnSet { InsideMeans(r, seg); }
  }

  /** The acknowledgement, if there is one, claims nothing that was not sent. */
  predicate Plausible(s: Sender, header: TcpHeader) {
    header.ack ==> Unwrap(header.ackno, s.isn, s.acked) <= s.sent
  }

  lemma HandlesPlausible(s: Sender, header: TcpHeader)
    ensures HandleAck(s, header).1 <==> Plausible(s, header)
  {
  }

  lemma AnswersSomething(c: Connection)
    requires c.rcv.isnSet && c.out == []
    ensures Reply(c).out != []
  {
  }

  /**
   * Once open, an endpoint is silent exactly on an empty segment inside the window with a plausible acknowledgement;
   * a reset aside, everything else is answered.
   */
  lemma AnswersExactly(c: Connection, seg: Segment)
    requires c.out == [] && c.rcv.isnSet && !seg.header.rst
    ensures Receive(c, seg).out == [] <==> SeqLen(seg) == 0 && Overlaps(c.rcv, seg) && Plausible(c.snd, seg.header)
  {
    hide Reply, HandleAck, Inside, Overlaps;
    InsideMeans(c.rcv, seg);
    HandlesPlausible(c.snd, seg.header);
    AnswersSomething(Connections.Deliver(c.(lastSegment := c.time), seg));
  }

  /** Before the SYN, a segment that occupies no sequence number leaves no trace but the time it came. */
  lemma SilentBeforeSyn(c: Connection, seg: Segment)
    requires !c.rcv.isnSet && SeqLen(seg) == 0 && !seg.header.rst
    ensures Receive(c, seg) == c.(lastSegment := c.time)
  {
  }

  // How empty segments are numbered.

  /** Segments of `q` that occupy no sequence number carry the number `next`. */
  predicate Numbered(q: seq<Segment>, next: u32) {
    forall i :: 0 <= i < |q| ==> SeqLen(q[i]) == 0 ==> q[i].header.seqno == next
  }

  /** Every segment of `q` occupies a sequence number. */
  predicate Occupies(q: seq<Segment>) {
    forall i :: 0 <= i < |q| ==> SeqLen(q[i]) > 0
  }

  function Next(s: Sender): u32 {
    (s.isn + s.sent) % 0x1_0000_0000
  }

  lemma {:induction false} StampedNumbered(r: Receiver, q: seq<Segment>, next: u32)
    requires Numbered(q, next)
    ensures Numbered(StampAll(r, q), next)
  {
    if q != [] {
      assert forall i :: 0 <= i < |q| - 1 ==> q[1..][i] == q[i + 1];
      StampedNumbered(r, q[1..], next);
    }
  }

  lemma {:induction false} FilledOccupies(s: Sender)
    requires Occupies(s.out)
    ensures Occupies(FillWindow(s).out) && FillWindow(s).isn == s.isn
    decreases EffectiveWindow(s) - InFlight(s)
  {
    if !Blocked(s) {
      FilledOccupies(SendOne(s));
    }
  }

  lemma SentOutNumbered(c: Connection)
    requires Numbered(c.snd.out, Next(c.snd)) && Numbered(c.out, Next(c.snd))
    ensures var d := SegmentOut(c); Numbered(d.out, Next(d.snd)) && d.snd.out == []
  {
    hide StampAll;
    StampedNumbered(c.rcv, c.snd.out, Next(c.snd));
  }

  lemma ConnectNumbered(c: Connection)
    requires Occupies(c.snd.out) && c.out == []
    ensures Numbered(Connect(c).out, Next(Connect(c).snd)) && Connect(c).snd.out == []
  {
    hide FillWindow, SegmentOut;
    FilledOccupies(c.snd);
    SentOutNumbered(c.(snd := FillWindow(c.snd)));
  }

  lemma HandledOccupies(s: Sender, header: TcpHeader)
    requires Occupies(s.out)
    ensures Occupies(HandleAck(s, header).0.out)
  {
    hide FillWindow, Occupies;
    FilledOccupies(s);
    var w := s.(window := header.win);
    FilledOccupies(w);
    var ack := Unwrap(header.ackno, s.isn, s.acked);
    if s.acked < ack <= s.sent { FilledOccupies(NewAck(w, ack)); }
  }

  lemma ReplyNumbered(c: Connection)
    requires Occupies(c.snd.out) && c.out == []
    ensures Numbered(Reply(c).out, Next(Reply(c).snd)) && Reply(c).snd.out == []
  {
    hide SegmentOut;
    SentOutNumbered(if c.snd.out == [] && c.rcv.isnSet then c.(snd := SendEmpty(c.snd)) else c);
  }

  lemma ReceiveNumbered(c: Connection, seg: Segment)
    requires Occupies(c.snd.out) && c.out == []
    ensures var d := Receive(c, seg); Numbered(d.out, Next(d.snd)) && Occupies(d.snd.out)
  {
    hide Reply, HandleAck;
    HandledOccupies(c.snd, seg.header);
    ReplyNumbered(Connections.Deliver(c.(lastSegment := c.time), seg));
  }

  lemma RstNumbered(c: Connection)
    requires Occupies(c.snd.out) && c.out == []
    ensures var d := RstSegment(c); Numbered(d.out, Next(d.snd)) && Numbered(d.snd.out, Next(d.snd))
  {
  }

  lemma FailedNumbered(c: Connection)
    requires Occupies(c.snd.out) && c.out == []
    ensures var d := SegmentOut(RstSegment(Fail(c))); Numbered(d.out, Next(d.snd)) && d.snd.out == []
  {
    hide RstSegment, SegmentOut;
    RstNumbered(Fail(c));
    SentOutNumbered(RstSegment(Fail(c)));
  }

  lemma TickNumbered(c: Connection, ms: nat)
    requires Inv(c.snd) && Occupies(c.snd.out) && c.out == []
    ensures var d := Connections.Tick(c, ms); Numbered(d.out, Next(d.snd)) && d.snd.out == []
  {
    hide SegmentOut, RstSegment, Fail, Inv;
    TickOccupies(c.snd, ms);
    FailedNumbered(TickSender(c, ms));
    SentOutNumbered(TickSender(c, ms));
  }

  lemma TickOccupies(s: Sender, ms: nat)
    requires Inv(s) && Occupies(s.out)
    ensures Occupies(Senders.Tick(s, ms).out)
  {
    if s.timer.active { assert s.unacked[0] in s.log; }
  }

  /** Whatever call is made, a segment it puts out that occupies no number carries the number of the next to be sent. */
  lemma EmptyNumbers(c: Connection, op: Op)
    requires Inv(c.snd) && Occupies(c.snd.out) && c.out == []
    ensures var d := Apply(c, op); Numbered(d.out, Next(d.snd)) && Occupies(d.snd.out)
  {
    hide Connect, Receive, Connections.Tick, Inv;
    match op
    case DoConnect => ConnectNumbered(c);
    case DoWrite(data) => ConnectNumbered(c.(snd := WithStream(c.snd, Append(c.snd.stream, data))));
    case DoEndInput => ConnectNumbered(c.(snd := WithStream(c.snd, c.snd.stream.(ended := true))));
    case DoTick(ms) => TickNumbered(c, ms);
    case DoRead(len) =>
    case DoReceive(seg) => ReceiveNumbered(c, seg);
  }
}
