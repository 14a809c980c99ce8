/** How states progress, and what it means that a connection is over. */
module ClosingLaws {
  import opened Integers
  import opened ByteStreams
  import opened Reassembly
  import opened ReassemblyLaws
  import opened TcpSegments
  import opened Senders
  import opened SenderLaws
  import opened Receivers
  import opened Connections
  import opened Networks
  import opened ConnectionLaws
  import opened TimeoutLaws
  import opened TcpStates

  /** Nothing was written to the stream after its FIN was sent. */
  predicate Undisturbed(s: Sender) {
    s.eof ==> s.stream.nread == |s.stream.written|
  }

  /** The state that the flags, rather than the counters, say the sender is in. */
  function FlagState(s: Sender): SenderSummary {
    if s.log == [] then Closed
    else if s.acked == 0 then SynSent
    else if !s.eof then SynAcked
    else if s.unacked != [] then FinSent
    else SenderSummary.FinAcked
  }

  function Rank(x: SenderSummary): nat {
    match x
    case Closed => 0
    case SynSent => 1
    case SynAcked => 2
    case FinSent => 3
    case FinAcked => 4
    case SenderError => 5
  }

  /** The counters and the flags tell the same state exactly when nothing was written after the FIN. */
  lemma SummaryMatchesFlags(s: Sender)
    requires Inv(s) && !s.stream.error && s.acked > 0
    ensures SummarizeSender(s) == FlagState(s) <==> Undisturbed(s)
  {
    QueueEmptyIffIdle(s);
    LogPositive(s);
  }

  lemma SummaryBeforeAck(s: Sender)
    requires Inv(s) && !s.stream.error && s.acked == 0
    ensures SummarizeSender(s) == FlagState(s)
  {
    LogPositive(s);
  }

  /** Writing after the FIN was sent upsets the summary exactly when a byte is accepted. */
  lemma LateWrite(c: Connection, data: seq<byte>)
    requires Inv(c.snd) && c.snd.eof && Undisturbed(c.snd)
    ensures Undisturbed(Connections.Write(c, data).snd) <==> data == [] || Room(c.snd.stream) == 0
  {
    FillWindowFrame(WithStream(c.snd, Append(c.snd.stream, data)));
  }

  lemma {:induction false} FillUndisturbed(s: Sender)
    requires Undisturbed(s)
    ensures Undisturbed(FillWindow(s)) && (FillWindow(s).eof && !s.eof ==> s.stream.ended)
    decreases EffectiveWindow(s) - InFlight(s)
  {
    if !Blocked(s) {
      NextFacts(s);
      FillUndisturbed(SendOne(s));
    }
  }

  /** The application does not write once it has ended its input. */
  predicate Orderly(c: Connection, op: Op) {
    op.DoWrite? ==> !c.snd.stream.ended
  }

  lemma HandleAckUndisturbed(s: Sender, header: TcpHeader)
    requires Undisturbed(s)
    ensures Undisturbed(HandleAck(s, header).0)
  {
    var ack, t := AckOf(s, header), s.(window := header.win);
    FillUndisturbed(s);
    FillUndisturbed(t);
    if header.ack && t.acked < ack <= t.sent { FillUndisturbed(NewAck(t, ack)); }
  }

  lemma TickUndisturbed(c: Connection, ms: nat)
    requires Undisturbed(c.snd)
    ensures Undisturbed(Connections.Tick(c, ms).snd)
  {
    TickedSender(c, ms);
  }

  lemma ReceiveUndisturbed(c: Connection, seg: Segment)
    requires Undisturbed(c.snd)
    ensures Undisturbed(Receive(c, seg).snd)
  {
    HandleAckUndisturbed(c.snd, seg.header);
    ReceivedSender(c, seg);
  }

  lemma ApplyUndisturbed(c: Connection, op: Op)
    requires Inv(c.snd) && Undisturbed(c.snd) && Orderly(c, op)
    ensures Undisturbed(Apply(c, op).snd)
  {
    var s := c.snd;
    match op
    case DoConnect => FillUndisturbed(s);
    case DoWrite(data) => FillUndisturbed(WithStream(s, Append(s.stream, data)));
    case DoEndInput => FillUndisturbed(WithStream(s, s.stream.(ended := true)));
    case DoTick(ms) => TickUndisturbed(c, ms);
    case DoRead(len) =>
    case DoReceive(seg) => ReceiveUndisturbed(c, seg);
  }

  lemma FlagStateAdvances(s: Sender, t: Sender, ack: nat)
    requires Inv(s) && Inv(t) && SenderStep(s, t, ack)
    ensures Rank(FlagState(s)) <= Rank(FlagState(t))
  {
    QueueEmptyIffIdle(s);
    QueueEmptyIffIdle(t);
  }

  /** No orderly call moves the sender's state backward. */
  lemma StateProgress(c: Connection, op: Op)
    requires Inv(c.snd) && Undisturbed(c.snd) && Orderly(c, op)
    requires !c.snd.stream.error && !Apply(c, op).snd.stream.error
    ensures Rank(SummarizeSender(c.snd)) <= Rank(SummarizeSender(Apply(c, op).snd))
  {
    var s, t := c.snd, Apply(c, op).snd;
    ApplyInv(c, op);
    ApplyUndisturbed(c, op);
    ApplyStep(c, op);
    FlagStateAdvances(s, t, if op.DoReceive? then AckOf(s, op.seg.header) else s.acked);
    SummaryIsFlagState(s);
    SummaryIsFlagState(t);
  }

  lemma SummaryIsFlagState(s: Sender)
    requires Inv(s) && !s.stream.error && Undisturbed(s)
    ensures SummarizeSender(s) == FlagState(s)
  {
    if s.acked > 0 { SummaryMatchesFlags(s); } else { SummaryBeforeAck(s); }
  }

  /** A connection that is over without a reset has had everything acknowledged, FIN included, and has heard the peer's end. */
  lemma CleanClose(c: Connection)
    requires Inv(c.snd) && Undisturbed(c.snd) && !Active(c) && !c.rst
    ensures c.snd.acked == c.snd.sent == |c.snd.stream.written| + 2
    ensures c.rcv.reasm.out.ended
  {
    QueueEmptyIffIdle(c.snd);
  }

  lemma FinishedIsQuiet(s: Sender)
    requires Inv(s) && Connections.FinAcked(s)
    ensures FillWindow(s) == s && s.acked == s.sent && !s.timer.active
  {
    QueueEmptyIffIdle(s);
  }

  /** Once over, only a segment from the peer can revive it. */
  lemma OverStaysOver(c: Connection, op: Op)
    requires EndpointInv(c) && !Active(c) && !op.DoReceive?
    ensures !Active(Apply(c, op))
  {
    ApplyClock(c, op);
    if !c.rst {
      FinishedIsQuiet(c.snd);
      match op
      case DoWrite(data) => FinishedWrites(c, data);
      case _ =>
    }
  }

  lemma FinishedWrites(c: Connection, data: seq<byte>)
    requires Connections.FinAcked(c.snd)
    ensures Connections.FinAcked(Connections.Write(c, data).snd)
  {
  }

  lemma ReceivedShape(c: Connection, seg: Segment)
    requires c.rcv.isnSet && !seg.header.rst
    ensures var d, h := Receive(c, seg), HandleAck(c.snd, seg.header).0;
            && d.rst == c.rst && d.time == d.lastSegment == c.time
            && d.linger == (c.linger && !(c.rcv.reasm.out.ended && !c.snd.eof))
            && d.rcv == SegmentReceived(c.rcv, seg).0
            && d.snd.unacked == h.unacked && d.snd.eof == h.eof && d.snd.initialRto == h.initialRto
  {
  }

  /** An ended inbound stream stays ended. */
  lemma EndedStays(r: Receiver, seg: Segment)
    requires r.reasm.out.ended
    ensures SegmentReceived(r, seg).0.reasm.out.ended
  {
  }

  function ReceiverRank(x: ReceiverSummary): nat {
    match x
    case Listen => 0
    case SynRecv => 1
    case FinRecv => 2
    case ReceiverError => 3
  }

  /** No call, with any segment from anyone, moves the receiver's state backward. */
  lemma ReceiverProgress(c: Connection, op: Op)
    ensures ReceiverRank(SummarizeReceiver(c.rcv)) <= ReceiverRank(SummarizeReceiver(Apply(c, op).rcv))
  {
    match op
    case DoReceive(seg) =>
      ReceivedReceiver(c, seg);
      SegmentReceiverProgress(c.rcv, seg);
    case _ =>
  }

  lemma SegmentReceiverProgress(r: Receiver, seg: Segment)
    ensures ReceiverRank(SummarizeReceiver(r)) <= ReceiverRank(SummarizeReceiver(SegmentReceived(r, seg).0))
  {
    hide Accept;
    AcceptKeeps(r, seg);
    if r.reasm.out.ended { EndedStays(r, seg); }
  }

  lemma AcceptKeeps(r: Receiver, seg: Segment)
    ensures Accept(r, seg).isnSet && Accept(r, seg).reasm.out.error == r.reasm.out.error
  {
    hide Push;
    PushKeepsError(r.reasm, seg.payload, PayloadIndex(r, seg), seg.header.fin);
  }

  /** A segment revives a finished connection exactly when the endpoint is still the one to linger. */
  lemma SegmentRevives(c: Connection, seg: Segment)
    requires Inv(c.snd) && !Active(c) && !c.rst && c.rcv.isnSet
    ensures Active(Receive(c, seg)) <==> c.linger && !seg.header.rst && c.snd.initialRto > 0
  {
    if !seg.header.rst {
      FinishedHandlesAck(c.snd, seg.header);
      EndedStays(c.rcv, seg);
      ReceivedShape(c, seg);
    }
  }

  lemma FinishedHandlesAck(s: Sender, header: TcpHeader)
    requires Inv(s) && Connections.FinAcked(s)
    ensures Connections.FinAcked(HandleAck(s, header).0) && HandleAck(s, header).0.initialRto == s.initialRto
  {
  }

  /** Ticks, writes, reads and the like never bring a finished connection back, however many follow. */
  lemma {:induction false} OverForGood(cs: seq<Connection>, ops: seq<Op>, n: nat, m: nat)
    requires Trace(cs, ops) && EndpointInv(cs[0]) && n <= m <= |ops| && !Active(cs[n])
    requires forall i :: n <= i < m ==> !ops[i].DoReceive?
    ensures !Active(cs[m])
    decreases m - n
  {
    if n < m {
      TraceEndpoint(cs, ops, n);
      OverStaysOver(cs[n], ops[n]);
      OverForGood(cs, ops, n + 1, m);
    }
  }

  /** A run from a fresh endpoint in which the application never writes after ending its input. */
  ghost predicate OrderlyTrace(cs: seq<Connection>, ops: seq<Op>) {
    && Trace(cs, ops) && FreshEndpoint(cs[0])
    && forall i :: 0 <= i < |ops| ==> Orderly(cs[i], ops[i])
  }

  lemma {:induction false} OrderlyUndisturbed(cs: seq<Connection>, ops: seq<Op>, n: nat)
    requires OrderlyTrace(cs, ops) && n <= |ops|
    ensures EndpointInv(cs[n]) && Undisturbed(cs[n].snd)
  {
    FreshEndpointInv(cs[0]);
    TraceEndpoint(cs, ops, n);
    if n > 0 {
      OrderlyUndisturbed(cs, ops, n - 1);
      ApplyUndisturbed(cs[n - 1], ops[n - 1]);
    }
  }

  /** In every orderly run the summary tells the flags' state, and being over without a reset is a clean close. */
  lemma OrderlyRun(cs: seq<Connection>, ops: seq<Op>, n: nat)
    requires OrderlyTrace(cs, ops) && n <= |ops|
    ensures var c := cs[n];
            && (!c.snd.stream.error ==> SummarizeSender(c.snd) == FlagState(c.snd))
            && (!Active(c) && !c.rst ==>
                  c.snd.acked == c.snd.sent == |c.snd.stream.written| + 2 && c.rcv.reasm.out.ended)
  {
    OrderlyUndisturbed(cs, ops, n);
    if !cs[n].snd.stream.error { SummaryIsFlagState(cs[n].snd); }
    if !Active(cs[n]) && !cs[n].rst { CleanClose(cs[n]); }
  }

  /** In every orderly run the sender's state only moves forward, as long as the stream has no error. */
  lemma {:induction false} RunProgress(cs: seq<Connection>, ops: seq<Op>, n: nat, m: nat)
    requires OrderlyTrace(cs, ops) && n <= m <= |ops|
    requires forall k :: n <= k <= m ==> !cs[k].snd.stream.error
    ensures Rank(SummarizeSender(cs[n].snd)) <= Rank(SummarizeSender(cs[m].snd))
    decreases m - n
  {
    if n < m {
      OrderlyUndisturbed(cs, ops, n);
      assert !cs[n].snd.stream.error && !cs[n + 1].snd.stream.error;
      StateProgress(cs[n], ops[n]);
      RunProgress(cs, ops, n + 1, m);
    }
  }

  // Lingering.

  /** Both streams are finished: the FIN was sent and acknowledged, and the inbound stream has ended. */
  predicate Finished(c: Connection) {
    !c.rst && c.snd.eof && c.snd.unacked == [] && c.rcv.reasm.out.ended
  }

  /** A finished connection is over at once unless it lingers, and then exactly when ten timeouts have passed since the last segment. */
  lemma LingersTenTimeouts(c: Connection)
    requires Finished(c)
    ensures Active(c) <==> c.linger && c.time < c.lastSegment + 10 * c.snd.initialRto
  {
  }

  lemma {:induction false} LastSegmentTime(cs: seq<Connection>, ops: seq<Op>, n: nat, m: nat)
    requires Trace(cs, ops) && n < m <= |ops| && ops[n].DoReceive?
    requires forall i :: n < i < m ==> !ops[i].DoReceive?
    ensures cs[m].lastSegment == cs[n].time
    decreases m - n
  {
    if m == n + 1 {
      ApplyClock(cs[n], ops[n]);
    } else {
      LastSegmentTime(cs, ops, n, m - 1);
      ApplyClock(cs[m - 1], ops[m - 1]);
    }
  }

  /** In every run: finished and lingering, it stays active for ten timeouts after its last segment and no longer. */
  lemma LingerTime(cs: seq<Connection>, ops: seq<Op>, n: nat, m: nat)
    requires Trace(cs, ops) && n < m <= |ops| && ops[n].DoReceive?
    requires forall i :: n < i < m ==> !ops[i].DoReceive?
    requires Finished(cs[m]) && cs[m].linger
    ensures Active(cs[m]) <==> cs[m].time < cs[n].time + 10 * cs[m].snd.initialRto
  {
    LastSegmentTime(cs, ops, n, m);
    LingersTenTimeouts(cs[m]);
  }

  /** The call finds the inbound stream ended while the outbound one is still open. */
  ghost predicate EndsFirst(c: Connection, op: Op) {
    && op.DoReceive? && !op.seg.header.rst && (c.rcv.isnSet || SeqLen(op.seg) > 0)
    && c.rcv.reasm.out.ended && !c.snd.eof
  }

  lemma LingerStep(c: Connection, op: Op)
    ensures Apply(c, op).linger <==> c.linger && !EndsFirst(c, op)
  {
    hide HandleAck, FillWindow, SegmentReceived;
  }

  /** In every run, the endpoint lingers unless some segment reached it after its peer had ended and before it had. */
  lemma {:induction false} LingersUnlessFirst(cs: seq<Connection>, ops: seq<Op>, n: nat)
    requires Trace(cs, ops) && FreshEndpoint(cs[0]) && n <= |ops|
    ensures cs[n].linger <==> forall i :: 0 <= i < n ==> !EndsFirst(cs[i], ops[i])
  {
    if n > 0 {
      LingersUnlessFirst(cs, ops, n - 1);
      LingerStep(cs[n - 1], ops[n - 1]);
    }
  }

  // What the receiver's state names mean.

  /** Each name, by what the receiver has seen and handed on. */
  lemma ReceiverNames(r: Receiver)
    ensures var x := SummarizeReceiver(r);
            && (x.ReceiverError? <==> r.reasm.out.error)
            && (x.Listen? <==> !r.reasm.out.error && !r.isnSet)
            && (x.SynRecv? <==> !r.reasm.out.error && r.isnSet && !r.reasm.out.ended)
            && (x.FinRecv? <==> !r.reasm.out.error && r.isnSet && r.reasm.out.ended)
  {
  }

  lemma SynReceived(c: Connection, seg: Segment)
    ensures Receive(c, seg).rcv.isnSet <==> c.rcv.isnSet || (seg.header.syn && !seg.header.rst)
  {
    hide HandleAck, FillWindow, SendEmpty, StampAll;
  }

  lemma SynStep(c: Connection, op: Op)
    ensures Apply(c, op).rcv.isnSet <==> c.rcv.isnSet || (op.DoReceive? && op.seg.header.syn && !op.seg.header.rst)
  {
    hide Receive, FillWindow, SendEmpty;
    if op.DoReceive? { SynReceived(c, op.seg); }
  }

  /** In every run of an endpoint, its receiver listens until the first SYN that does not also reset. */
  lemma {:induction false} ListensUntilSyn(cs: seq<Connection>, ops: seq<Op>, n: nat)
    requires Trace(cs, ops) && FreshEndpoint(cs[0]) && n <= |ops|
    ensures cs[n].rcv.isnSet <==> exists i :: 0 <= i < n && ops[i].DoReceive? && ops[i].seg.header.syn && !ops[i].seg.header.rst
  {
    if n > 0 {
      ListensUntilSyn(cs, ops, n - 1);
      SynStep(cs[n - 1], ops[n - 1]);
    }
  }
}
