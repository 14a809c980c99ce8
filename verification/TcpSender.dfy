/** The sender as it is written: queues, counters and a timer updated in place. */
module TcpSenders {
  import opened Integers
  import opened ByteStreams
  import opened TcpSegments
  import opened WrappingIntegers
  import opened Senders

  class RetransmissionTimer {
    var active: bool
    var startTime: nat
    var currentTime: nat
    var rto: u64

    ghost function Model(): Timer
      reads this
    {
      Timer(active, startTime, currentTime, rto)
    }

    constructor (rto: u64)
      ensures Model() == Timer(false, 0, 0, rto)
    {
      active, startTime, currentTime, this.rto := false, 0, 0, rto;
    }

    method UpdateTime(timestamp: nat)
      modifies this`currentTime
      ensures currentTime == timestamp
    {
      currentTime := timestamp;
    }

    predicate Timeout()
      reads this
      ensures Timeout() <==> Model().Expired()
    {
      active && currentTime - startTime >= rto
    }

    method RtoDouble()
      modifies this`rto
      ensures Model() == old(Model()).Doubled()
    {
      rto := (rto * 2) % 0x1_0000_0000_0000_0000;
    }

    method Start(timestamp: nat)
      modifies this
      ensures Model() == old(Model()).Started(timestamp)
    {
      startTime, currentTime := timestamp, timestamp;
      active := true;
    }

    method RtoReset(rto: u16)
      modifies this
      ensures Model() == old(Model()).Reset(rto)
    {
      this.rto := rto;
      active := false;
    }
  }

  class TcpSender {
    const isn: u32
    const initialRetransmissionTimeout: u16
    const stream: ByteStream
    const sendtimer: RetransmissionTimer
    var segmentsOut: seq<Segment>
    var unacked: seq<Segment>
    var consecutiveRetransmissions: nat
    var time: nat
    var windowSize: u16
    var byteSent: nat
    var byteReceived: nat
    var eof: bool
    /** Every segment made by filling the window. */
    ghost var log: seq<Segment>

    ghost predicate Valid()
      reads this, stream, sendtimer
    {
      stream.Valid() && byteReceived <= byteSent && (sendtimer.active ==> unacked != [])
    }

    ghost function Model(): Sender
      requires Valid()
      reads this, stream, sendtimer
    {
      Sender(isn, initialRetransmissionTimeout, stream.Model(), consecutiveRetransmissions,
             unacked, segmentsOut, sendtimer.Model(), time, windowSize, byteSent, byteReceived, eof, log)
    }

    constructor (capacity: nat, retxTimeout: u16, fixedIsn: u32)
      ensures Valid() && fresh(stream) && fresh(sendtimer)
      ensures Model() == FreshSender(fixedIsn, retxTimeout, capacity)
    {
      isn, initialRetransmissionTimeout := fixedIsn, retxTimeout;
      segmentsOut, unacked, log := [], [], [];
      consecutiveRetransmissions, time, windowSize, byteSent, byteReceived, eof := 0, 0, 1, 0, 0, false;
      stream := new ByteStream(capacity);
      sendtimer := new RetransmissionTimer(retxTimeout);
    }

    function BytesInFlight(): (n: nat)
      requires Valid()
      reads this, stream, sendtimer
      ensures n == InFlight(Model())
    {
      byteSent - byteReceived
    }

    function NextSeqno(): (n: u32)
      requires Valid()
      reads this, stream, sendtimer
      ensures n == Wrap(Model().sent, isn)
    {
      Wrap(byteSent, isn)
    }

    predicate FinSent()
      reads this
    {
      eof
    }

    predicate FinAcked()
      reads this
    {
      unacked == [] && FinSent()
    }

    /** Take the payload off the stream, and the FIN with it when the stream ends there and the window allows. */
    method MakeSegment(payload: nat, window: nat, syn: bool) returns (seg: Segment)
      requires Valid() && !Blocked(Model())
      requires payload == PayloadLen(Model()) && window == EffectiveWindow(Model()) && syn == (byteSent == 0)
      modifies this`eof, stream
      ensures Valid() && seg == NextSegment(old(Model()))
      ensures stream.Model() == Consume(old(stream.Model()), payload) && eof == seg.header.fin
    {
      var bytes := stream.Read(payload);
      seg := Segment(DEFAULT_HEADER.(seqno := NextSeqno(), syn := syn), bytes);
      if window > BytesInFlight() + SeqLen(seg) {
        seg := seg.(header := seg.header.(fin := stream.AtEof()));
        eof := stream.AtEof();
      }
    }

    /** Queue a segment for sending and for possible retransmission; start the timer if it is idle. */
    method Enqueue(seg: Segment)
      requires Valid()
      modifies this`segmentsOut, this`unacked, this`log, this`byteSent, sendtimer
      ensures Valid()
      ensures segmentsOut == old(segmentsOut) + [seg] && unacked == old(unacked) + [seg] && log == old(log) + [seg]
      ensures byteSent == old(byteSent) + SeqLen(seg)
      ensures sendtimer.Model() == if old(sendtimer.active) then old(sendtimer.Model())
                                   else old(sendtimer.Model()).Reset(initialRetransmissionTimeout).Started(time)
    {
      segmentsOut := segmentsOut + [seg];
      unacked := unacked + [seg];
      log := log + [seg];
      byteSent := byteSent + SeqLen(seg);
      if !sendtimer.active {
        sendtimer.RtoReset(initialRetransmissionTimeout);
        sendtimer.Start(time);
      }
    }

    /** The largest payload the window, the buffer and the segment size allow. */
    method ChoosePayload(window: nat, sequenceSize: nat) returns (payload: nat)
      requires Valid() && !Full(Model())
      requires window == EffectiveWindow(Model()) && sequenceSize == SynLen(Model())
      ensures payload == PayloadLen(Model())
    {
      payload := window - BytesInFlight() - sequenceSize;
      if payload > stream.BufferSize() {
        payload := stream.BufferSize();
      }
      if payload > MAX_PAYLOAD_SIZE {
        payload := MAX_PAYLOAD_SIZE;
      }
    }

    method Transmit(payload: nat, window: nat, syn: bool)
      requires Valid() && !Blocked(Model())
      requires payload == PayloadLen(Model()) && window == EffectiveWindow(Model()) && syn == (byteSent == 0)
      modifies this, stream, sendtimer
      ensures Valid() && Model() == SendOne(old(Model()))
    {
      var seg := MakeSegment(payload, window, syn);
      Enqueue(seg);
    }

    /** Send segments until the window is full or there is nothing left to say. */
    method FillWindow()
      requires Valid()
      modifies this, stream, sendtimer
      ensures Valid() && Model() == Senders.FillWindow(old(Model()))
      decreases EffectiveWindow(Model()) - InFlight(Model())
    {
      if eof {
        return;
      }
      var syn := byteSent == 0;
      var sequenceSize := if syn then 1 else 0;
      var window := if windowSize > 0 then windowSize else 1;
      if BytesInFlight() + sequenceSize > window || BytesInFlight() >= window {
        return;
      }
      var payload := ChoosePayload(window, sequenceSize);
      if !stream.AtEof() && sequenceSize + payload == 0 {
        return;
      }
      Transmit(payload, window, syn);
      FillWindow();
    }

    /** The pop loop: every segment that ends at or before `ack` leaves the queue. */
    method PopAcknowledged(ack: nat)
      modifies this`unacked
      ensures unacked == PopAcked(old(unacked), isn, ack)
    {
      while unacked != []
        invariant PopAcked(unacked, isn, ack) == PopAcked(old(unacked), isn, ack)
        decreases |unacked|
      {
        var seg := unacked[0];
        var absSeqno := Unwrap(seg.header.seqno, isn, ack);
        if absSeqno + SeqLen(seg) <= ack {
          unacked := unacked[1..];
        } else {
          break;
        }
      }
    }

    /** Everything before `ack` has arrived: restart the timer without backoff, or stop it if nothing is left. */
    method Acknowledge(ack: nat)
      requires Valid() && byteReceived < ack <= byteSent
      modifies this`consecutiveRetransmissions, this`byteReceived, this`unacked, sendtimer
      ensures Valid() && Model() == NewAck(old(Model()), ack)
    {
      sendtimer.RtoReset(initialRetransmissionTimeout);
      consecutiveRetransmissions := 0;
      byteReceived := ack;
      PopAcknowledged(ack);
      if unacked != [] {
        sendtimer.Start(time);
      }
    }

    /** Take in an acknowledgement and window; false if it acknowledges something never sent. */
    method AckReceived(ackno: u32, win: u16) returns (ok: bool)
      requires Valid()
      modifies this, stream, sendtimer
      ensures Valid() && (Model(), ok) == Senders.AckReceived(old(Model()), ackno, win)
    {
      var absAckno := Unwrap(ackno, isn, byteReceived);
      windowSize := win;
      if absAckno > byteSent {
        return false;
      }
      if absAckno < byteReceived {
        return true;
      }
      if absAckno == byteReceived {
        FillWindow();
        return true;
      }
      Acknowledge(absAckno);
      FillWindow();
      return true;
    }

    /** Let time pass; an expired timer resends the oldest segment and backs off. */
    method Tick(msSinceLastTick: nat)
      requires Valid()
      modifies this, sendtimer
      ensures Valid() && Model() == Senders.Tick(old(Model()), msSinceLastTick)
    {
      time := time + msSinceLastTick;
      if sendtimer.active {
        sendtimer.UpdateTime(time);
        if sendtimer.Timeout() {
          segmentsOut := segmentsOut + [unacked[0]];
          consecutiveRetransmissions := consecutiveRetransmissions + 1;
          sendtimer.RtoDouble();
          sendtimer.Start(time);
        }
      }
    }

    method SendEmptySegment()
      requires Valid()
      modifies this`segmentsOut
      ensures Valid() && Model() == SendEmpty(old(Model()))
    {
      var seqno := NextSeqno();
      segmentsOut := segmentsOut + [Segment(DEFAULT_HEADER.(seqno := seqno), [])];
    }
  }
}
