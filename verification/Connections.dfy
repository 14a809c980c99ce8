/** One endpoint of a TCP connection as a value: a sender, a receiver and the glue between them. */
module Connections {
  import opened Integers
  import opened ByteStreams
  import opened Reassembly
  import opened TcpSegments
  import opened Senders
  import opened Receivers

  const MAX_RETX_ATTEMPTS := 8

  /** `out` holds the segments handed to the network, oldest first. */
  datatype Connection = Connection(
    snd: Sender, rcv: Receiver, rst: bool, linger: bool, time: nat, lastSegment: nat, out: seq<Segment>)

  function FreshConnection(isn: u32, rtTimeout: u16, sendCapacity: nat, recvCapacity: nat): Connection {
    Connection(FreshSender(isn, rtTimeout, sendCapacity), FreshReceiver(recvCapacity), false, true, 0, 0, [])
  }

  /** Add the receiver's acknowledgement and 16-bit window to an outgoing segment. */
  function Stamp(rcv: Receiver, seg: Segment): Segment {
    if rcv.isnSet
    then seg.(header := seg.header.(ack := true, ackno := Ackno(rcv).value, win := WindowSize(rcv) % 0x1_0000))
    else seg
  }

  function StampAll(rcv: Receiver, q: seq<Segment>): seq<Segment> {
    if q == [] then [] else [Stamp(rcv, q[0])] + StampAll(rcv, q[1..])
  }

  /** Hand everything the sender has queued to the network. */
  function SegmentOut(c: Connection): Connection {
    c.(snd := c.snd.(out := []), out := c.out + StampAll(c.rcv, c.snd.out))
  }

  function WithStream(s: Sender, stream: Stream): Sender {
    s.(stream := stream)
  }

  function WithOutput(r: Receiver, out: Stream): Receiver {
    r.(reasm := r.reasm.(out := out))
  }

  /** Both streams fail and the connection is dead. */
  function Fail(c: Connection): Connection {
    c.(rst := true,
       snd := WithStream(c.snd, c.snd.stream.(error := true)),
       rcv := WithOutput(c.rcv, c.rcv.reasm.out.(error := true)))
  }

  /** Send the segment at the head of the queue, or an empty one, as a reset. */
  function RstSegment(c: Connection): Connection {
    var snd := if c.snd.out == [] then SendEmpty(c.snd) else c.snd;
    var seg := Stamp(c.rcv, snd.out[0]);
    c.(snd := snd.(out := snd.out[1..]), out := c.out + [seg.(header := seg.header.(rst := true))])
  }

  function Connect(c: Connection): Connection {
    SegmentOut(c.(snd := FillWindow(c.snd)))
  }

  function Write(c: Connection, data: seq<byte>): Connection {
    Connect(c.(snd := WithStream(c.snd, Append(c.snd.stream, data))))
  }

  function EndInputStream(c: Connection): Connection {
    Connect(c.(snd := WithStream(c.snd, c.snd.stream.(ended := true))))
  }

  function TickSender(c: Connection, ms: nat): Connection {
    c.(snd := Senders.Tick(c.snd, ms), time := c.time + ms)
  }

  function Tick(c: Connection, ms: nat): Connection {
    var c := TickSender(c, ms);
    SegmentOut(if c.snd.retx > MAX_RETX_ATTEMPTS then RstSegment(Fail(c)) else c)
  }

  function Read(c: Connection, len: nat): Connection {
    c.(rcv := WithOutput(c.rcv, Consume(c.rcv.reasm.out, len)))
  }

  /** The sender's share of an incoming segment, and whether its acknowledgement was acceptable. */
  function HandleAck(s: Sender, header: TcpHeader): (Sender, bool) {
    if header.ack then AckReceived(s, header.ackno, header.win) else (FillWindow(s), true)
  }

  /** Reply when there is something to say: new data, or an empty acknowledgement. */
  function Reply(c: Connection): Connection {
    SegmentOut(if c.snd.out == [] && c.rcv.isnSet then c.(snd := SendEmpty(c.snd)) else c)
  }

  /** Both halves see the segment; a peer that ended its stream before we ended ours has nothing to wait for. */
  ghost function Deliver(c: Connection, seg: Segment): Connection {
    c.(linger := c.linger && !(c.rcv.reasm.out.ended && !c.snd.eof),
       snd := HandleAck(c.snd, seg.header).0,
       rcv := SegmentReceived(c.rcv, seg).0)
  }

  /** An empty segment that lies in the window and acknowledges nothing unsent needs no reply. */
  ghost predicate NeedsNoReply(c: Connection, seg: Segment) {
    SeqLen(seg) == 0 && SegmentReceived(c.rcv, seg).1 && HandleAck(c.snd, seg.header).1
  }

  ghost function Receive(c: Connection, seg: Segment): Connection {
    var c := c.(lastSegment := c.time);
    if seg.header.rst then Fail(c)
    else if !c.rcv.isnSet && SeqLen(seg) == 0 then c
    else if NeedsNoReply(c, seg) then Deliver(c, seg)
    else Reply(Deliver(c, seg))
  }

  predicate FinAcked(s: Sender) {
    s.unacked == [] && s.eof
  }

  predicate Active(c: Connection) {
    && !c.rst
    && (|| !c.snd.eof || !FinAcked(c.snd) || !c.rcv.reasm.out.ended
        || (c.linger && c.time - c.lastSegment < 10 * c.snd.initialRto))
  }
}
