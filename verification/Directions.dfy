/** One direction of a connection: a sender, the peer's receiver, and what is in transit between them. */
module Directions {
  import opened Integers
  import opened WrappingIntegers
  import opened ByteStreams
  import opened Reassembly
  import opened ReassemblyLaws
  import opened TcpSegments
  import opened Senders
  import opened SenderLaws
  import opened Receivers

  /** A segment without what the other direction's receiver stamped on it. */
  function Core(seg: Segment): Segment {
    seg.(header := seg.header.(ack := false, ackno := 0, win := 0, rst := false))
  }

  /** In transit are logged segments and empty ones, stamped or not. */
  ghost predicate Authentic(seg: Segment, log: seq<Segment>) {
    Core(seg) in log || SeqLen(seg) == 0
  }

  /** The position a 32-bit acknowledgement number stands for, counted from the initial sequence number. */
  function Named(n: u32, isn: u32): nat {
    (n - isn) % 0x1_0000_0000
  }

  /** The furthest position the receiver can have acknowledged so far. */
  function AckLimit(r: Receiver): nat {
    if r.isnSet then 1 + r.First() + (if r.finSet then 1 else 0) else 0
  }

  /** An acknowledgement in transit claims no more than the receiver has, and a window no larger than its buffer. */
  ghost predicate Truthful(seg: Segment, r: Receiver, isn: u32) {
    seg.header.ack ==> r.isnSet && Named(seg.header.ackno, isn) <= AckLimit(r) && seg.header.win <= r.reasm.capacity
  }

  /** The bytes the sender has put into segments. */
  function SentBytes(s: Sender): seq<byte> {
    s.stream.written[..s.stream.nread]
  }

  ghost predicate ReceiverInv(s: Sender, r: Receiver) {
    && r.reasm.Wf() && r.reasm.capacity > 0
    && Agrees(r.reasm, SentBytes(s))
    && (if r.isnSet then r.isn == s.isn && s.log != []
        else r.First() == 0 && r.reasm.store == map[] && !r.finSet && !r.reasm.eof)
    && (r.finSet ==> s.eof)
  }

  /** Flow control: nothing is sent beyond the window of the receiver's store, now or later. */
  ghost predicate FlowInv(s: Sender, r: Receiver) {
    && s.acked <= AckLimit(r)
    && s.sent <= 1 + r.First() + r.reasm.capacity
    && EffectiveWindow(s) <= r.reasm.capacity
  }

  ghost predicate Direction(s: Sender, r: Receiver, segs: set<Segment>, acks: set<Segment>) {
    && Inv(s) && ReceiverInv(s, r) && FlowInv(s, r)
    && (forall seg <- segs :: Authentic(seg, s.log))
    && (forall seg <- acks :: Truthful(seg, r, s.isn))
  }

  /** The stream is short enough that a 32-bit number names one position only. */
  predicate Short(s: Sender) {
    |s.stream.written| < 0x7fff_fffe
  }

  lemma NameOfWrap(p: nat, isn: u32)
    requires p < 0x1_0000_0000
    ensures Named(Wrap(p, isn), isn) == p
  {
  }

  lemma WrapOfName(n: u32, isn: u32)
    ensures Wrap(Named(n, isn), isn) == n
  {
  }

  /** A move of the sender that extends the log, and respects the window if it sends, keeps the direction. */
  lemma SenderMoves(s: Sender, t: Sender, r: Receiver, segs: set<Segment>, acks: set<Segment>)
    requires Direction(s, r, segs, acks) && Inv(t) && FlowInv(t, r)
    requires t.isn == s.isn && s.log <= t.log && (s.eof ==> t.eof)
    requires s.stream.written <= t.stream.written && s.stream.nread <= t.stream.nread
    ensures Direction(t, r, segs, acks)
  {
  }

  lemma FillKeeps(s: Sender, r: Receiver, segs: set<Segment>, acks: set<Segment>)
    requires Direction(s, r, segs, acks)
    ensures Direction(FillWindow(s), r, segs, acks)
  {
    FillWindowInv(s);
    FillWindowFrame(s);
    SenderMoves(s, FillWindow(s), r, segs, acks);
  }

  /** Nothing is acknowledged that was not sent. */
  lemma LimitSent(s: Sender, r: Receiver)
    requires Inv(s) && ReceiverInv(s, r)
    ensures AckLimit(r) <= s.sent
    ensures r.First() <= s.stream.nread
  {
  }

  lemma NewAckKeeps(s: Sender, ack: nat, r: Receiver, segs: set<Segment>, acks: set<Segment>)
    requires Direction(s, r, segs, acks) && s.acked < ack <= s.sent && ack <= AckLimit(r)
    ensures Direction(NewAck(s, ack), r, segs, acks)
  {
    NewAckInv(s, ack);
    SenderMoves(s, NewAck(s, ack), r, segs, acks);
  }

  lemma WindowKeeps(s: Sender, win: u16, r: Receiver, segs: set<Segment>, acks: set<Segment>)
    requires Direction(s, r, segs, acks) && win <= r.reasm.capacity
    ensures Direction(s.(window := win), r, segs, acks)
  {
    var t := s.(window := win);
    KeepLog(s, t);
    SenderMoves(s, t, r, segs, acks);
  }

  /** Any acknowledgement in transit, however stale, leaves the direction intact. */
  lemma AckKeeps(s: Sender, seg: Segment, r: Receiver, segs: set<Segment>, acks: set<Segment>)
    requires Direction(s, r, segs, acks) && Short(s) && seg in acks && seg.header.ack
    ensures Direction(AckReceived(s, seg.header.ackno, seg.header.win).0, r, segs, acks)
  {
    var ack, t := Named(seg.header.ackno, s.isn), s.(window := seg.header.win);
    assert Truthful(seg, r, s.isn);
    LimitSent(s, r);
    assert s.sent < 0x8000_0000;
    assert Unwrap(seg.header.ackno, s.isn, s.acked) == ack by {
      WrapOfName(seg.header.ackno, s.isn);
      RoundTrip(ack, s.isn, s.acked);
    }
    WindowKeeps(s, seg.header.win, r, segs, acks);
    if ack == s.acked {
      FillKeeps(t, r, segs, acks);
    } else if ack > s.acked {
      NewAckKeeps(t, ack, r, segs, acks);
      FillKeeps(NewAck(t, ack), r, segs, acks);
    }
  }

  lemma TickKeeps(s: Sender, ms: nat, r: Receiver, segs: set<Segment>, acks: set<Segment>)
    requires Direction(s, r, segs, acks)
    ensures Direction(Senders.Tick(s, ms), r, segs, acks)
  {
    TickInv(s, ms);
    SenderMoves(s, Senders.Tick(s, ms), r, segs, acks);
  }

  lemma SendEmptyKeeps(s: Sender, r: Receiver, segs: set<Segment>, acks: set<Segment>)
    requires Direction(s, r, segs, acks)
    ensures Direction(SendEmpty(s), r, segs, acks)
  {
    SendEmptyInv(s);
    SenderMoves(s, SendEmpty(s), r, segs, acks);
  }

  lemma OutsideKeeps(s: Sender, stream: Stream, out: seq<Segment>, r: Receiver, segs: set<Segment>, acks: set<Segment>)
    requires Direction(s, r, segs, acks)
    requires s.stream.written <= stream.written && stream.nread == s.stream.nread && (s.stream.ended ==> stream.ended)
    requires forall seg <- out :: seg in s.out
    ensures Direction(s.(stream := stream, out := out), r, segs, acks)
  {
    OutsideInv(s, stream, out);
    SenderMoves(s, s.(stream := stream, out := out), r, segs, acks);
  }

  /** A logged segment, seen by the receiver: its 32-bit name is read as the position it was sent at. */
  lemma Located(s: Sender, r: Receiver, seg: Segment, i: nat)
    requires Inv(s) && ReceiverInv(s, r) && Short(s)
    requires i < |s.log| && Core(seg) == s.log[i] && (r.isnSet || seg.header.syn)
    ensures PayloadIndex(r, seg) == DataStart(Position(s.log, i))
    ensures SliceOf(seg.payload, PayloadIndex(r, seg), SentBytes(s))
    ensures seg.header.fin ==> s.eof && PayloadIndex(r, seg) + |seg.payload| == s.stream.nread
    ensures seg.header.syn ==> seg.header.seqno == s.isn
  {
    var p := Position(s.log, i);
    assert PlacedAt(s, i);
    LoggedBelowSent(s, i);
    LimitSent(s, r);
    if r.isnSet {
      RoundTrip(p, s.isn, r.First());
    }
    assert s.stream.written[DataStart(p)..DataStart(p) + |seg.payload|]
        == SentBytes(s)[DataStart(p)..DataStart(p) + |seg.payload|];
  }

  /** The receiver only gains: a later state admits everything in transit that an earlier one did. */
  lemma ReceiverMoves(s: Sender, r: Receiver, q: Receiver, segs: set<Segment>, acks: set<Segment>)
    requires Direction(s, r, segs, acks) && ReceiverInv(s, q)
    requires r.First() <= q.First() && q.reasm.capacity == r.reasm.capacity
    requires (r.isnSet ==> q.isnSet) && (r.finSet ==> q.finSet)
    ensures Direction(s, q, segs, acks)
  {
  }

  /** Every segment in transit starts in the receiver's window, where its bytes are stored whole. */
  lemma InTransitFits(s: Sender, r: Receiver, segs: set<Segment>, acks: set<Segment>, seg: Segment)
    requires Direction(s, r, segs, acks) && Short(s) && seg in segs
    ensures Acceptable(r, seg)
    ensures r.isnSet || seg.header.syn ==>
              seg.payload != [] ==> PayloadIndex(r, seg) + |seg.payload| <= r.First() + r.reasm.capacity
  {
    assert Authentic(seg, s.log);
    if Core(seg) in s.log && (r.isnSet || seg.header.syn) {
      var i :| 0 <= i < |s.log| && s.log[i] == Core(seg);
      Located(s, r, seg, i);
      LoggedBelowSent(s, i);
      assert PlacedAt(s, i);
    }
  }

  lemma AcceptLogged(s: Sender, r: Receiver, seg: Segment, i: nat)
    requires Inv(s) && ReceiverInv(s, r) && Short(s)
    requires i < |s.log| && Core(seg) == s.log[i] && (r.isnSet || seg.header.syn)
    ensures ReceiverInv(s, Accept(r, seg)) && r.First() <= Accept(r, seg).First()
    ensures Accept(r, seg).reasm.capacity == r.reasm.capacity
  {
    Located(s, r, seg, i);
    var index := PayloadIndex(r, seg);
    PushKeeps(r.reasm, seg.payload, index, seg.header.fin);
    PushAgrees(r.reasm, seg.payload, index, seg.header.fin, SentBytes(s));
  }

  lemma AcceptEmpty(s: Sender, r: Receiver, seg: Segment)
    requires ReceiverInv(s, r) && SeqLen(seg) == 0 && r.isnSet
    ensures ReceiverInv(s, Accept(r, seg)) && r.First() <= Accept(r, seg).First()
    ensures Accept(r, seg).reasm.capacity == r.reasm.capacity
  {
  }

  /** Receiving anything in transit, in any order and any number of times, keeps the direction. */
  lemma SegmentKeeps(s: Sender, r: Receiver, segs: set<Segment>, acks: set<Segment>, seg: Segment)
    requires Direction(s, r, segs, acks) && Short(s) && seg in segs
    ensures Direction(s, SegmentReceived(r, seg).0, segs, acks)
  {
    assert Authentic(seg, s.log);
    if r.isnSet || seg.header.syn {
      if Core(seg) in s.log {
        var i :| 0 <= i < |s.log| && s.log[i] == Core(seg);
        AcceptLogged(s, r, seg, i);
      } else {
        AcceptEmpty(s, r, seg);
      }
      ReceiverMoves(s, r, Accept(r, seg), segs, acks);
    }
  }

  /** Reading, ending and failing touch only what the direction does not speak of. */
  lemma OutputKeeps(s: Sender, r: Receiver, out: Stream, segs: set<Segment>, acks: set<Segment>)
    requires Direction(s, r, segs, acks)
    requires out.written == r.reasm.out.written && out.capacity == r.reasm.out.capacity
    ensures Direction(s, r.(reasm := r.reasm.(out := out)), segs, acks)
  {
  }

  /** What an endpoint emits: a logged or empty segment, carrying its receiver's current acknowledgement or none. */
  ghost predicate Emitted(seg: Segment, log: seq<Segment>, r: Receiver) {
    && Authentic(seg, log)
    && (seg.header.ack ==>
          r.isnSet && seg.header.ackno == Wrap(AckPosition(r), r.isn) && seg.header.win == WindowSize(r) % 0x1_0000)
  }

  lemma EmittedIsTruthful(s: Sender, r: Receiver, log: seq<Segment>, seg: Segment)
    requires Inv(s) && ReceiverInv(s, r) && Short(s) && Emitted(seg, log, r)
    ensures Truthful(seg, r, s.isn)
  {
    if seg.header.ack {
      LimitSent(s, r);
      NameOfWrap(AckPosition(r), s.isn);
    }
  }

  /** New segments join those in transit, as data for one direction and as acknowledgements for the other. */
  lemma MoreSegments(s: Sender, r: Receiver, segs: set<Segment>, acks: set<Segment>, more: set<Segment>)
    requires Direction(s, r, segs, acks) && forall seg <- more :: Authentic(seg, s.log)
    ensures Direction(s, r, segs + more, acks)
  {
  }

  lemma MoreAcks(s: Sender, r: Receiver, segs: set<Segment>, acks: set<Segment>, log: seq<Segment>, more: set<Segment>)
    requires Direction(s, r, segs, acks) && Short(s) && forall seg <- more :: Emitted(seg, log, r)
    ensures Direction(s, r, segs, acks + more)
  {
    forall seg | seg in more ensures Truthful(seg, r, s.isn) {
      EmittedIsTruthful(s, r, log, seg);
    }
  }
}
