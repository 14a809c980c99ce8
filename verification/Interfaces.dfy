/** A network interface as a value: it resolves next hops with ARP and queues datagrams meanwhile. */
module Interfaces {
  import opened Integers
  import opened Parsers
  import opened Ipv4Wire
  import opened ArpWire

  const MAX_CACHE_TIME := 30000
  const MAX_RETRY_TIME := 5000
  const ETHERNET_BROADCAST: Mac := [0xff, 0xff, 0xff, 0xff, 0xff, 0xff]

  datatype Frame = Frame(dst: Mac, src: Mac, kind: u16, payload: seq<byte>)

  /** A datagram waiting for the Ethernet address of its next hop. */
  datatype Pending = Pending(dgram: Datagram, hop: u32)

  datatype Request = Request(ip: u32, time: nat)

  datatype Learned = Learned(mac: Mac, time: nat)

  datatype Interface = Interface(
    mac: Mac, ip: u32, unsent: seq<Pending>, requests: seq<Request>, cache: map<u32, Learned>, out: seq<Frame>, time: nat)

  function FreshInterface(mac: Mac, ip: u32): Interface {
    Interface(mac, ip, [], [], map[], [], 0)
  }

  /** A datagram that can be written out; writing any other is an error. */
  predicate Writable(d: Datagram) {
    SerializeDatagram(d).Some?
  }

  function Bytes(d: Datagram): seq<byte> {
    match SerializeDatagram(d)
    case None => []
    case Some(bytes) => bytes
  }

  function IpFrame(src: Mac, dst: Mac, d: Datagram): Frame {
    Frame(dst, src, TYPE_IPV4, Bytes(d))
  }

  function ArpFrame(src: Mac, dst: Mac, m: ArpMessage): Frame
    requires Supported(m.head)
  {
    Frame(dst, src, TYPE_ARP, SerializeArp(m).value)
  }

  /** The hop's address is known and was learned recently enough. */
  predicate Fresh(i: Interface, hop: u32) {
    hop in i.cache && i.time - i.cache[hop].time <= MAX_CACHE_TIME
  }

  /** When the first request on record for `ip` was made. */
  function Asked(requests: seq<Request>, ip: u32): Option<nat> {
    if requests == [] then None
    else if requests[0].ip == ip then Some(requests[0].time)
    else Asked(requests[1..], ip)
  }

  predicate AskedRecently(i: Interface, ip: u32) {
    var asked := Asked(i.requests, ip);
    asked.Some? && i.time - asked.value <= MAX_RETRY_TIME
  }

  function RequestFor(i: Interface, ip: u32): Frame {
    ArpFrame(i.mac, ETHERNET_BROADCAST, ArpMessage(Head(OPCODE_REQUEST), i.mac, i.ip, NO_MAC, ip))
  }

  function Enqueue(i: Interface, p: Pending): Interface {
    i.(unsent := i.unsent + [p])
  }

  function Ask(i: Interface, ip: u32): Interface {
    if AskedRecently(i, ip) then i
    else i.(requests := i.requests + [Request(ip, i.time)], out := i.out + [RequestFor(i, ip)])
  }

  function Send(i: Interface, d: Datagram, hop: u32): Interface {
    if Fresh(i, hop) then i.(out := i.out + [IpFrame(i.mac, i.cache[hop].mac, d)])
    else Ask(Enqueue(i, Pending(d, hop)), hop)
  }

  /** What is queued for a hop, and what is not, in queue order. */
  function ForHop(ps: seq<Pending>, hop: u32): seq<Pending> {
    if ps == [] then []
    else
      var front := ForHop(ps[..|ps| - 1], hop);
      var last := ps[|ps| - 1];
      if last.hop == hop then front + [last] else front
  }

  function NotForHop(ps: seq<Pending>, hop: u32): seq<Pending> {
    if ps == [] then []
    else
      var front := NotForHop(ps[..|ps| - 1], hop);
      var last := ps[|ps| - 1];
      if last.hop == hop then front else front + [last]
  }

  function FramesTo(src: Mac, dst: Mac, ps: seq<Pending>): seq<Frame> {
    if ps == [] then [] else FramesTo(src, dst, ps[..|ps| - 1]) + [IpFrame(src, dst, ps[|ps| - 1].dgram)]
  }

  function Unasked(rs: seq<Request>, ip: u32): seq<Request> {
    if rs == [] then []
    else
      var front := Unasked(rs[..|rs| - 1], ip);
      var last := rs[|rs| - 1];
      if last.ip == ip then front else front + [last]
  }

  function Learn(i: Interface, m: ArpMessage): Interface {
    i.(cache := i.cache[m.senderIp := Learned(m.senderMac, i.time)])
  }

  /** Answer a request for this interface's own address, to wherever the frame came from. */
  function Answer(i: Interface, m: ArpMessage, from: Mac): Interface {
    if m.head.opcode == OPCODE_REQUEST && m.targetIp == i.ip then
      var reply := ArpMessage(Head(OPCODE_REPLY), i.mac, i.ip, m.senderMac, m.senderIp);
      i.(out := i.out + [ArpFrame(i.mac, from, reply)])
    else i
  }

  /** A reply releases everything that waited for its sender. */
  function Release(i: Interface, m: ArpMessage): Interface {
    if m.head.opcode == OPCODE_REPLY then
      i.(out := i.out + FramesTo(i.mac, m.senderMac, ForHop(i.unsent, m.senderIp)),
         unsent := NotForHop(i.unsent, m.senderIp),
         requests := Unasked(i.requests, m.senderIp))
    else i
  }

  predicate Hears(mac: Mac, f: Frame) {
    f.dst == ETHERNET_BROADCAST || f.dst == mac
  }

  /** The ARP message an interface takes from a frame, if any. */
  function Heard(mac: Mac, f: Frame): Option<ArpMessage> {
    if Hears(mac, f) && f.kind == TYPE_ARP && ParseArp(f.payload).1 == NoError then Some(ParseArp(f.payload).0) else None
  }

  function RecvArp(i: Interface, m: ArpMessage, from: Mac): Interface {
    Release(Answer(Learn(i, m), m, from), m)
  }

  function Recv(i: Interface, f: Frame): (Interface, Option<Datagram>) {
    if Hears(i.mac, f) && f.kind == TYPE_IPV4 then
      var (d, result) := ParseDatagram(f.payload);
      (i, if result == NoError then Some(d) else None)
    else if Heard(i.mac, f).Some? then (RecvArp(i, Heard(i.mac, f).value, f.src), None)
    else (i, None)
  }

  function Tick(i: Interface, ms: nat): Interface {
    i.(time := i.time + ms)
  }
}
