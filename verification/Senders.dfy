/** The sending half of TCP as a value, and what each of its operations does to it. */
module Senders {
  import opened Integers
  import opened ByteStreams
  import opened TcpSegments
  import opened WrappingIntegers

  const MAX_PAYLOAD_SIZE := 1000

  /** The retransmission timer; `rto` doubles in 64-bit arithmetic. */
  datatype Timer = Timer(active: bool, start: nat, current: nat, rto: u64) {
    predicate Expired() {
      active && current - start >= rto
    }

    function Doubled(): Timer {
      this.(rto := (rto * 2) % 0x1_0000_0000_0000_0000)
    }

    function Started(now: nat): Timer {
      this.(start := now, current := now, active := true)
    }

    function Reset(initial: u16): Timer {
      this.(rto := initial, active := false)
    }
  }

  /** `log` records every segment made by filling the window, in order; the other fields are the sender's own. */
  datatype SenderRep = Sender(
    isn: u32, initialRto: u16, stream: Stream, retx: nat,
    unacked: seq<Segment>, out: seq<Segment>, timer: Timer, time: nat,
    window: u16, sent: nat, acked: nat, eof: bool, log: seq<Segment>)
  {
    predicate Wf() {
      acked <= sent && (timer.active ==> unacked != [])
    }
  }

  type Sender = s: SenderRep | s.Wf() witness FreshSender(0, 0, 0)

  function FreshSender(isn: u32, initialRto: u16, capacity: nat): SenderRep {
    Sender(isn, initialRto, Fresh(capacity), 0, [], [], Timer(false, 0, 0, initialRto), 0, 1, 0, 0, false, [])
  }

  function InFlight(s: Sender): nat {
    s.sent - s.acked
  }

  /** A zero window is treated as one, so that a single byte probes it. */
  function EffectiveWindow(s: Sender): nat {
    if s.window > 0 then s.window else 1
  }

  function SynLen(s: Sender): nat {
    if s.sent == 0 then 1 else 0
  }

  predicate Full(s: Sender) {
    InFlight(s) + SynLen(s) > EffectiveWindow(s) || InFlight(s) >= EffectiveWindow(s)
  }

  function PayloadLen(s: Sender): nat
    requires !Full(s)
  {
    Min(Min(EffectiveWindow(s) - InFlight(s) - SynLen(s), Size(s.stream)), MAX_PAYLOAD_SIZE)
  }

  /** Nothing more can be sent now. */
  predicate Blocked(s: Sender) {
    s.eof || Full(s) || (!Eof(s.stream) && SynLen(s) + PayloadLen(s) == 0)
  }

  function NextPayload(s: Sender): seq<byte>
    requires !Full(s)
  {
    Front(s.stream, PayloadLen(s))
  }

  /** The FIN rides on the segment that exhausts the ended stream, if the window has room for it. */
  predicate NextIsLast(s: Sender)
    requires !Full(s)
  {
    && EffectiveWindow(s) > InFlight(s) + SynLen(s) + |NextPayload(s)|
    && Eof(Consume(s.stream, PayloadLen(s)))
  }

  function NextSegment(s: Sender): (seg: Segment)
    requires !Blocked(s)
    ensures SeqLen(seg) >= 1
    ensures InFlight(s) + SeqLen(seg) <= EffectiveWindow(s)
  {
    Segment(DEFAULT_HEADER.(seqno := Wrap(s.sent, s.isn), syn := s.sent == 0, fin := NextIsLast(s)), NextPayload(s))
  }

  function SendOne(s: Sender): Sender
    requires !Blocked(s)
  {
    var seg := NextSegment(s);
    s.(stream := Consume(s.stream, PayloadLen(s)),
       eof := NextIsLast(s),
       out := s.out + [seg], unacked := s.unacked + [seg], log := s.log + [seg],
       sent := s.sent + SeqLen(seg),
       timer := if s.timer.active then s.timer else s.timer.Reset(s.initialRto).Started(s.time))
  }

  /** Fill the window, one segment at a time. */
  function FillWindow(s: Sender): Sender
    decreases EffectiveWindow(s) - InFlight(s)
  {
    if Blocked(s) then s else FillWindow(SendOne(s))
  }

  /** Drop acknowledged segments from the front, comparing by the 32-bit names near `ack`. */
  function PopAcked(q: seq<Segment>, isn: u32, ack: nat): seq<Segment> {
    if q == [] then []
    else if Unwrap(q[0].header.seqno, isn, ack) + SeqLen(q[0]) <= ack then PopAcked(q[1..], isn, ack)
    else q
  }

  /** A new acknowledgement, at position `ack`, past everything acknowledged before. */
  function NewAck(s: Sender, ack: nat): Sender
    requires s.acked < ack <= s.sent
  {
    var left := PopAcked(s.unacked, s.isn, ack);
    var idle := s.timer.Reset(s.initialRto);
    s.(retx := 0, acked := ack, unacked := left,
       timer := if left == [] then idle else idle.Started(s.time))
  }

  function AckReceived(s: Sender, ackno: u32, win: u16): (r: (Sender, bool)) {
    var ack := Unwrap(ackno, s.isn, s.acked);
    var s := s.(window := win);
    if ack > s.sent then (s, false)
    else if ack < s.acked then (s, true)
    else if ack == s.acked then (FillWindow(s), true)
    else (FillWindow(NewAck(s, ack)), true)
  }

  function Tick(s: Sender, ms: nat): Sender {
    var now := s.time + ms;
    if !s.timer.active then s.(time := now)
    else
      var timer := s.timer.(current := now);
      if timer.Expired() then
        s.(time := now, out := s.out + [s.unacked[0]], retx := s.retx + 1, timer := timer.Doubled().Started(now))
      else s.(time := now, timer := timer)
  }

  function SendEmpty(s: Sender): Sender {
    s.(out := s.out + [Segment(DEFAULT_HEADER.(seqno := Wrap(s.sent, s.isn)), [])])
  }
}
