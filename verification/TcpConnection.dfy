/** The endpoint as it is written: a sender and a receiver owned by one object. */
module TcpConnections {
  import opened Integers
  import opened ByteStreams
  import opened TcpSegments
  import opened Senders
  import opened TcpSenders
  import opened Receivers
  import opened TcpReceivers
  import opened Connections

  class TcpConnection {
    const rtTimeout: u16
    const sender: TcpSender
    const receiver: TcpReceiver
    var segmentsOut: seq<Segment>
    var lingerAfterStreamsFinish: bool
    var rst: bool
    var time: nat
    var lastSegmentTime: nat

    ghost function SenderParts(): set<object> {
      {sender, sender.stream, sender.sendtimer}
    }

    ghost function ReceiverParts(): set<object> {
      {receiver, receiver.reassembler, receiver.reassembler.output}
    }

    ghost function Repr(): set<object> {
      {this} + SenderParts() + ReceiverParts()
    }

    ghost predicate Valid()
      reads Repr()
    {
      && sender.Valid() && receiver.Valid()
      && sender.stream != receiver.reassembler.output
      && sender.initialRetransmissionTimeout == rtTimeout
    }

    ghost function Model(): Connection
      requires Valid()
      reads Repr()
    {
      Connection(sender.Model(), receiver.Model(), rst, lingerAfterStreamsFinish, time, lastSegmentTime, segmentsOut)
    }

    constructor (fixedIsn: u32, rtTimeout: u16, sendCapacity: nat, recvCapacity: nat)
      ensures Valid() && fresh(Repr())
      ensures Model() == FreshConnection(fixedIsn, rtTimeout, sendCapacity, recvCapacity)
    {
      this.rtTimeout := rtTimeout;
      sender := new TcpSender(sendCapacity, rtTimeout, fixedIsn);
      receiver := new TcpReceiver(recvCapacity);
      segmentsOut, lingerAfterStreamsFinish, rst, time, lastSegmentTime := [], true, false, 0, 0;
    }

    method ReceiverInfo(seg: Segment) returns (stamped: Segment)
      requires Valid()
      ensures stamped == Stamp(receiver.Model(), seg)
    {
      stamped := seg;
      var ackno := receiver.Ackno();
      if ackno.Some? {
        stamped := seg.(header := seg.header.(ack := true, ackno := ackno.value, win := receiver.WindowSize() % 0x1_0000));
      }
    }

    /** The loop that moves the sender's queue to the network's. */
    method SegmentOut()
      requires Valid()
      modifies this`segmentsOut, sender`segmentsOut
      ensures Valid() && Model() == Connections.SegmentOut(old(Model()))
    {
      while sender.segmentsOut != []
        invariant Valid()
        invariant segmentsOut + StampAll(receiver.Model(), sender.segmentsOut)
               == old(segmentsOut) + StampAll(old(receiver.Model()), old(sender.segmentsOut))
        decreases |sender.segmentsOut|
      {
        var seg := ReceiverInfo(sender.segmentsOut[0]);
        segmentsOut := segmentsOut + [seg];
        sender.segmentsOut := sender.segmentsOut[1..];
      }
    }

    method SendReset()
      requires Valid()
      modifies this`segmentsOut, sender`segmentsOut
      ensures Valid() && Model() == RstSegment(old(Model()))
    {
      if sender.segmentsOut == [] {
        sender.SendEmptySegment();
      }
      var segment := ReceiverInfo(sender.segmentsOut[0]);
      segment := segment.(header := segment.header.(rst := true));
      segmentsOut := segmentsOut + [segment];
      sender.segmentsOut := sender.segmentsOut[1..];
    }

    method SetErrors()
      requires Valid()
      modifies this`rst, sender.stream, receiver.reassembler.output
      ensures Valid() && Model() == Fail(old(Model()))
    {
      rst := true;
      receiver.reassembler.output.SetError();
      sender.stream.SetError();
    }

    method Connect()
      requires Valid()
      modifies this, SenderParts()
      ensures Valid() && Model() == Connections.Connect(old(Model()))
    {
      sender.FillWindow();
      SegmentOut();
    }

    method Write(data: seq<byte>) returns (size: nat)
      requires Valid()
      modifies this, SenderParts()
      ensures Valid() && Model() == Connections.Write(old(Model()), data)
      ensures size == Min(|data|, Room(old(Model()).snd.stream))
    {
      size := sender.stream.Write(data);
      Connect();
    }

    method EndInputStream()
      requires Valid()
      modifies this, SenderParts()
      ensures Valid() && Model() == Connections.EndInputStream(old(Model()))
    {
      sender.stream.EndInput();
      Connect();
    }

    method Abort()
      requires Valid()
      modifies Repr()
      ensures Valid() && Model() == RstSegment(Fail(old(Model())))
    {
      SetErrors();
      SendReset();
    }

    method Advance(msSinceLastTick: nat)
      requires Valid()
      modifies this`time, sender, sender.sendtimer
      ensures Valid() && Model() == TickSender(old(Model()), msSinceLastTick)
    {
      sender.Tick(msSinceLastTick);
      time := time + msSinceLastTick;
    }

    /** Let time pass, and give up once the oldest segment has been resent too often. */
    method Tick(msSinceLastTick: nat)
      requires Valid()
      modifies Repr()
      ensures Valid() && Model() == Connections.Tick(old(Model()), msSinceLastTick)
    {
      Advance(msSinceLastTick);
      if sender.consecutiveRetransmissions > MAX_RETX_ATTEMPTS {
        Abort();
      }
      SegmentOut();
    }

    method Reply()
      requires Valid()
      modifies this, SenderParts()
      ensures Valid() && Model() == Connections.Reply(old(Model()))
    {
      if sender.segmentsOut == [] && receiver.isnSet {
        sender.SendEmptySegment();
      }
      SegmentOut();
    }

    method HandleAck(header: TcpHeader) returns (ok: bool)
      requires Valid()
      modifies SenderParts()
      ensures Valid() && receiver.Model() == old(receiver.Model())
      ensures (sender.Model(), ok) == Connections.HandleAck(old(sender.Model()), header)
    {
      ok := true;
      if header.ack {
        ok := sender.AckReceived(header.ackno, header.win);
      } else {
        sender.FillWindow();
      }
    }

    /** Both halves see the segment, the sender first. */
    method BothHalves(seg: Segment) returns (ackCheck: bool, payloadCheck: bool)
      requires Valid() && Acceptable(receiver.Model(), seg)
      modifies SenderParts(), ReceiverParts()
      ensures Valid()
      ensures (sender.Model(), ackCheck) == Connections.HandleAck(old(sender.Model()), seg.header)
      ensures (receiver.Model(), payloadCheck) == Receivers.SegmentReceived(old(receiver.Model()), seg)
    {
      ackCheck := HandleAck(seg.header);
      payloadCheck := receiver.SegmentReceived(seg);
    }

    method Deliver(seg: Segment) returns (quiet: bool)
      requires Valid() && Acceptable(receiver.Model(), seg)
      modifies Repr()
      ensures Valid() && Model() == Connections.Deliver(old(Model()), seg)
      ensures quiet <==> NeedsNoReply(old(Model()), seg)
    {
      if receiver.reassembler.output.end && !sender.FinSent() {
        lingerAfterStreamsFinish := false;
      }
      var ackCheck, payloadCheck := BothHalves(seg);
      quiet := SeqLen(seg) == 0 && payloadCheck && ackCheck;
    }

    method SegmentReceived(seg: Segment)
      requires Valid()
      requires !seg.header.rst ==> Acceptable(receiver.Model(), seg)
      modifies Repr()
      ensures Valid() && Model() == Connections.Receive(old(Model()), seg)
    {
      lastSegmentTime := time;
      if seg.header.rst {
        SetErrors();
        return;
      }
      if !receiver.isnSet && SeqLen(seg) == 0 {
        return;
      }
      var quiet := Deliver(seg);
      if !quiet {
        Reply();
      }
    }

    predicate IsActive()
      requires Valid()
      reads Repr()
      ensures IsActive() <==> Active(Model())
    {
      if rst then false
      else if !sender.FinSent() || !sender.FinAcked() || !receiver.reassembler.output.end then true
      else lingerAfterStreamsFinish && !(time - lastSegmentTime >= 10 * rtTimeout)
    }
  }
}
