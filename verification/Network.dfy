/**
 * Two endpoints joined by a network that may lose, repeat, delay and reorder:
 * everything ever sent stays available and may be received any number of times, or never.
 */
module Networks {
  import opened Integers
  import opened ByteStreams
  import opened TcpSegments
  import opened Connections

  datatype Op =
    | DoConnect
    | DoWrite(data: seq<byte>)
    | DoEndInput
    | DoTick(ms: nat)
    | DoRead(len: nat)
    | DoReceive(seg: Segment)

  /** One call into an endpoint, by its application, its clock or the network. */
  ghost function Apply(c: Connection, op: Op): Connection {
    match op
    case DoConnect => Connect(c)
    case DoWrite(data) => Write(c, data)
    case DoEndInput => EndInputStream(c)
    case DoTick(ms) => Connections.Tick(c, ms)
    case DoRead(len) => Read(c, len)
    case DoReceive(seg) => Receive(c, seg)
  }

  /** `ab` holds every segment `a` ever sent, `ba` every segment `b` ever sent. */
  datatype System = System(a: Connection, b: Connection, ab: set<Segment>, ba: set<Segment>) {
    function Flip(): System {
      System(b, a, ba, ab)
    }
  }

  datatype Event = Event(onA: bool, op: Op)

  ghost function StepA(s: System, op: Op): System {
    var c := Apply(s.a, op);
    System(c.(out := []), s.b, s.ab + (set seg | seg in c.out), s.ba)
  }

  ghost function Next(s: System, e: Event): System {
    if e.onA then StepA(s, e.op) else StepA(s.Flip(), e.op).Flip()
  }

  /** The network delivers only what the other side sent. */
  ghost predicate Enabled(s: System, e: Event) {
    e.op.DoReceive? ==> e.op.seg in (if e.onA then s.ba else s.ab)
  }

  ghost function After(s: System, es: seq<Event>): System {
    if es == [] then s else Next(After(s, es[..|es| - 1]), es[|es| - 1])
  }

  ghost predicate Possible(s: System, es: seq<Event>) {
    es == [] || (Possible(s, es[..|es| - 1]) && Enabled(After(s, es[..|es| - 1]), es[|es| - 1]))
  }

  /** Both endpoints fresh, with any sequence numbers and timeouts, and receive buffers that are not empty. */
  ghost predicate Initial(s: System) {
    && s.ab == {} && s.ba == {}
    && FreshEndpoint(s.a) && FreshEndpoint(s.b)
  }

  ghost predicate FreshEndpoint(c: Connection) {
    && c == FreshConnection(c.snd.isn, c.snd.initialRto, c.snd.stream.capacity, c.rcv.reasm.capacity)
    && c.rcv.reasm.capacity > 0
  }
}
