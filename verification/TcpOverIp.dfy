/** TCP segments carried in IPv4 datagrams between two addresses. */
module TcpOverIp {
  import opened Integers
  import opened TcpSegments
  import opened Checksums
  import opened Parsers
  import opened TcpWire
  import opened Ipv4Wire

  datatype Address = Address(ip: u32, port: u16)

  datatype Adapter = Adapter(source: Address, destination: Address, listening: bool)

  /** The segment with this adapter's ports. */
  function WithPorts(a: Adapter, seg: Segment): Segment {
    seg.(header := seg.header.(sport := a.source.port, dport := a.destination.port))
  }

  /** The IPv4 header of an outgoing segment; its length field has 16 bits. */
  function OuterHeader(a: Adapter, seg: Segment): Ipv4Header {
    DEFAULT_IPV4_HEADER.(src := a.source.ip, dst := a.destination.ip,
                         len := (IPV4_HEADER_LENGTH + 4 * seg.header.doff + |seg.payload|) % 0x1_0000)
  }

  function Wrap(a: Adapter, seg: Segment): Option<Datagram> {
    var header := OuterHeader(a, seg);
    match SerializeSegment(WithPorts(a, seg), header.PseudoChecksum())
    case None => None
    case Some(bytes) => Some(Datagram(header, bytes))
  }

  /** The segment for this adapter in a datagram, if any; a listener takes its peer's address from the first SYN. */
  function Unwrap(a: Adapter, d: Datagram): (Adapter, Option<Segment>) {
    if !a.listening && (d.header.dst != a.source.ip || d.header.src != a.destination.ip) then (a, None)
    else if d.header.proto != PROTO_TCP then (a, None)
    else
      var (seg, result) := ParseSegment(d.payload, d.header.PseudoChecksum());
      if result != NoError || seg.header.dport != a.source.port then (a, None)
      else if a.listening then
        if seg.header.syn && !seg.header.rst then (Accepted(a, d, seg), Some(seg)) else (a, None)
      else if seg.header.sport != a.destination.port then (a, None)
      else (a, Some(seg))
  }

  function Accepted(a: Adapter, d: Datagram, seg: Segment): Adapter {
    Adapter(Address(d.header.dst, a.source.port), Address(d.header.src, seg.header.sport), false)
  }

  class TcpOverIpv4Adapter {
    var source: Address
    var destination: Address
    var listening: bool

    ghost function Model(): Adapter
      reads this
    {
      Adapter(source, destination, listening)
    }

    constructor (source: Address, destination: Address, listening: bool)
      ensures Model() == Adapter(source, destination, listening)
    {
      this.source, this.destination, this.listening := source, destination, listening;
    }

    /** The caller's segment keeps the ports it was given. */
    method WrapTcpInIp(seg: Segment) returns (d: Option<Datagram>, stamped: Segment)
      ensures d == Wrap(Model(), seg) && stamped == WithPorts(Model(), seg)
    {
      var header := seg.header.(sport := source.port, dport := destination.port);
      stamped := seg.(header := header);
      var out := DEFAULT_IPV4_HEADER.(src := source.ip, dst := destination.ip);
      out := out.(len := (4 * out.hlen + 4 * seg.header.doff + |seg.payload|) % 0x1_0000);
      var bytes := WriteSegment(stamped, out.PseudoChecksum());
      d := if bytes.None? then None else Some(Datagram(out, bytes.value));
    }

    method UnwrapTcpInIp(d: Datagram) returns (seg: Option<Segment>)
      modifies this
      ensures (Model(), seg) == Unwrap(old(Model()), d)
    {
      if !listening && d.header.dst != source.ip {
        return None;
      }
      if !listening && d.header.src != destination.ip {
        return None;
      }
      if d.header.proto != PROTO_TCP {
        return None;
      }
      var s, result := ReadSegment(d.payload, d.header.PseudoChecksum());
      if result != NoError {
        return None;
      }
      if s.header.dport != source.port {
        return None;
      }
      if listening {
        if s.header.syn && !s.header.rst {
          source := Address(d.header.dst, source.port);
          destination := Address(d.header.src, s.header.sport);
          listening := false;
        } else {
          return None;
        }
      }
      if s.header.sport != destination.port {
        return None;
      }
      seg := Some(s);
    }
  }

  /** The segments that fit one datagram. */
  predicate Sendable(seg: Segment) {
    5 <= seg.header.doff <= 15 && IPV4_HEADER_LENGTH + 4 * seg.header.doff + |seg.payload| <= 0xffff
  }

  /** The other end of the same connection. */
  predicate Mirrored(a: Adapter, b: Adapter) {
    b.source == a.destination && b.destination == a.source && !b.listening
  }

  /** What came back is the segment with its ports filled in, whatever checksum it carried. */
  predicate Delivered(a: Adapter, seg: Segment, back: Option<Segment>) {
    && back.Some?
    && back.value.payload == seg.payload
    && back.value.header == WithPorts(a, seg).header.(cksum := back.value.header.cksum)
  }

  /** The datagram `d` carries `seg` from the source of `a` to its destination. */
  predicate Carries(a: Adapter, seg: Segment, d: Datagram) {
    && d.header.src == a.source.ip && d.header.dst == a.destination.ip && d.header.proto == PROTO_TCP
    && Holds(a, seg, d.payload, d.header.PseudoChecksum())
  }

  predicate Holds(a: Adapter, seg: Segment, bytes: seq<byte>, sum: u32) {
    var (back, result) := ParseSegment(bytes, sum);
    result == NoError && Delivered(a, seg, Some(back))
  }

  lemma SegmentHolds(a: Adapter, seg: Segment, sum: u32) returns (bytes: seq<byte>)
    requires Sendable(seg)
    ensures SerializeSegment(WithPorts(a, seg), sum) == Some(bytes)
    ensures Holds(a, seg, bytes, sum) && |bytes| == 4 * seg.header.doff + |seg.payload|
  {
    SegmentRoundTrip(WithPorts(a, seg), sum);
    bytes := SerializeSegment(WithPorts(a, seg), sum).value;
  }

  lemma OuterFits(a: Adapter, seg: Segment) returns (h: Ipv4Header)
    requires Sendable(seg)
    ensures h == OuterHeader(a, seg) && Printable(h) && h.len == 4 * h.hlen + 4 * seg.header.doff + |seg.payload|
    ensures h.src == a.source.ip && h.dst == a.destination.ip && h.proto == PROTO_TCP
  {
    h := OuterHeader(a, seg);
  }

  lemma WrapCarries(a: Adapter, seg: Segment) returns (d: Datagram)
    requires Sendable(seg)
    ensures Wrap(a, seg) == Some(d)
    ensures Carries(a, seg, d) && Printable(d.header) && d.header.len == 4 * d.header.hlen + |d.payload|
  {
    var h := OuterFits(a, seg);
    var bytes := SegmentHolds(a, seg, h.PseudoChecksum());
    d := Datagram(h, bytes);
    assert Wrap(a, seg) == Some(d);
  }

  lemma SealedCarries(a: Adapter, seg: Segment, d: Datagram, cksum: u16)
    requires Carries(a, seg, d)
    ensures Carries(a, seg, Datagram(d.header.(cksum := cksum), d.payload))
  {
    PseudoIgnoresChecksum(d.header, cksum);
  }

  lemma PseudoIgnoresChecksum(h: Ipv4Header, cksum: u16)
    ensures h.(cksum := cksum).PseudoChecksum() == h.PseudoChecksum()
  {
  }

  lemma WireCarries(a: Adapter, seg: Segment, d: Datagram)
    requires Printable(d.header) && d.header.len == 4 * d.header.hlen + |d.payload| && Carries(a, seg, d)
    ensures SerializeDatagram(d).Some?
    ensures var (back, result) := ParseDatagram(SerializeDatagram(d).value);
            result == NoError && Carries(a, seg, back)
  {
    DatagramRoundTrip(d);
    SealedCarries(a, seg, d, Sealed(d.header).cksum);
  }

  lemma UnwrapDelivers(a: Adapter, b: Adapter, d: Datagram, seg: Segment)
    requires Carries(a, seg, d)
    ensures Mirrored(a, b) ==> Unwrap(b, d).0 == b && Delivered(a, seg, Unwrap(b, d).1)
    ensures b.listening && b.source.port == a.destination.port && seg.header.syn && !seg.header.rst
            ==> Mirrored(a, Unwrap(b, d).0) && Delivered(a, seg, Unwrap(b, d).1)
  {
  }

  /** Bytes on the wire: wrap, then serialize. */
  function Transmit(a: Adapter, seg: Segment): Option<seq<byte>> {
    match Wrap(a, seg)
    case None => None
    case Some(d) => SerializeDatagram(d)
  }

  /** Bytes off the wire: parse, then unwrap. */
  function Receive(b: Adapter, wire: seq<byte>): (Adapter, Option<Segment>) {
    var (d, result) := ParseDatagram(wire);
    if result != NoError then (b, None) else Unwrap(b, d)
  }

  lemma TransmitBytes(a: Adapter, seg: Segment)
    requires Sendable(seg)
    ensures Transmit(a, seg).Some?
    ensures var (d, result) := ParseDatagram(Transmit(a, seg).value);
            result == NoError && Carries(a, seg, d)
  {
    var d := WrapCarries(a, seg);
    WireCarries(a, seg, d);
    assert Transmit(a, seg) == SerializeDatagram(d);
  }

  lemma ReceiveDelivers(a: Adapter, b: Adapter, wire: seq<byte>, seg: Segment)
    requires var (d, result) := ParseDatagram(wire); result == NoError && Carries(a, seg, d)
    ensures Mirrored(a, b) ==>
              var (b', back) := Receive(b, wire);
              b' == b && Delivered(a, seg, back)
    ensures b.listening && b.source.port == a.destination.port && seg.header.syn && !seg.header.rst ==>
              var (b', back) := Receive(b, wire);
              Mirrored(a, b') && Delivered(a, seg, back)
  {
    UnwrapDelivers(a, b, ParseDatagram(wire).0, seg);
  }

  /** The whole stack: the peer gets the same segment, and a listener becomes the peer on a SYN. */
  lemma FullStackRoundTrip(a: Adapter, b: Adapter, seg: Segment)
    requires Sendable(seg)
    ensures Transmit(a, seg).Some?
    ensures Mirrored(a, b) ==>
              var (b', back) := Receive(b, Transmit(a, seg).value);
              b' == b && Delivered(a, seg, back)
    ensures b.listening && b.source.port == a.destination.port && seg.header.syn && !seg.header.rst ==>
              var (b', back) := Receive(b, Transmit(a, seg).value);
              Mirrored(a, b') && Delivered(a, seg, back)
  {
    TransmitBytes(a, seg);
    ReceiveDelivers(a, b, Transmit(a, seg).value, seg);
  }

  /**
   * What the TCP checksum covers (section 3.1 of RFC 793): both addresses, a zero, protocol 6, the length of
   * the segment in bytes, and the segment.
   */
  function Covered(src: u32, dst: u32, segment: seq<byte>): seq<byte> {
    ToBytes(src, 4) + ToBytes(dst, 4) + [0, 6] + ToBytes(|segment|, 2) + segment
  }

  lemma CoveredSum(src: u32, dst: u32, segment: seq<byte>)
    requires |segment| <= 0xffff
    ensures WordSum(Covered(src, dst, segment), false)
         == src / 0x1_0000 + src % 0x1_0000 + dst / 0x1_0000 + dst % 0x1_0000 + 6 + |segment| + WordSum(segment, false)
  {
    hide WordSum, ToBytes;
    var from, to, size := ToBytes(src, 4), ToBytes(dst, 4), ToBytes(|segment|, 2);
    FourByteSum(src);
    FourByteSum(dst);
    TwoByteSum(|segment|);
    ProtocolSum();
    EvenSplits(from, to);
    EvenSplits(from + to, [0, 6]);
    EvenSplits(from + to + [0, 6], size);
    EvenSplits(from + to + [0, 6] + size, segment);
  }

  lemma ProtocolSum()
    ensures WordSum([0, 6], false) == 6
  {
    TwoBytes(6);
    var f: seq<byte> := [6 / 256, 6 % 256];
    assert f == [0, 6];
  }

  /** Checking a TCP payload on top of the sum of the pseudo-header is checking all that is covered. */
  lemma CoveredChecksum(d: Datagram)
    requires d.header.proto == 6 && |d.payload| == (d.header.len - 4 * d.header.hlen) % 0x1_0000
    ensures Checksum(0, Covered(d.header.src, d.header.dst, d.payload)) == Checksum(d.header.PseudoChecksum(), d.payload)
  {
    CoveredSum(d.header.src, d.header.dst, d.payload);
  }

  /** An outgoing datagram is a fresh TCP one between the two addresses, of the right length, and its checksum is right. */
  lemma WrappedChecks(a: Adapter, seg: Segment, d: Datagram)
    requires Sendable(seg) && Wrap(a, seg) == Some(d)
    ensures d.header == Ipv4Header(4, 5, 0, 20 + |d.payload|, 0, true, false, 0, 128, 6, 0, a.source.ip, a.destination.ip)
    ensures |d.payload| == 4 * seg.header.doff + |seg.payload|
    ensures Checksum(0, ToBytes(d.header.src, 4) + ToBytes(d.header.dst, 4) + [0, 6] + ToBytes(|d.payload|, 2) + d.payload) == 0
  {
    hide SerializeSegment, ParseSegment, WordSum;
    var h := OuterFits(a, seg);
    var bytes := SegmentHolds(a, seg, h.PseudoChecksum());
    SegmentChecks(WithPorts(a, seg), h.PseudoChecksum());
    CoveredChecksum(d);
  }

  /** Whatever comes off the wire, a segment whose checksum does not cover these addresses and this length is dropped. */
  lemma CorruptDropped(b: Adapter, wire: seq<byte>)
    ensures var (d, result) := ParseDatagram(wire);
            && (Receive(b, wire).1.Some? ==>
                  && result == NoError && d.header.proto == 6
                  && Checksum(0, ToBytes(d.header.src, 4) + ToBytes(d.header.dst, 4) + [0, 6] + ToBytes(|d.payload|, 2) + d.payload) == 0)
            && (Receive(b, wire).1.None? ==> Receive(b, wire).0 == b)
  {
    hide ParseIpv4Header, WordSum;
    var (d, result) := ParseDatagram(wire);
    if result == NoError && d.header.proto == 6 {
      CoveredChecksum(d);
    }
  }

  /** A segment handed up, and the datagram it came in. */
  datatype Handed = Handed(seg: Segment, d: Datagram)

  /** Every datagram in turn: the adapter afterwards and what was handed up. */
  function UnwrapAll(a: Adapter, ds: seq<Datagram>): (Adapter, seq<Handed>) {
    if ds == [] then (a, [])
    else
      var (b, got) := UnwrapAll(a, ds[..|ds| - 1]);
      var (c, s) := Unwrap(b, ds[|ds| - 1]);
      (c, if s.Some? then got + [Handed(s.value, ds[|ds| - 1])] else got)
  }

  /** What `got` and the adapter `b` it left say about the arrivals seen since `a`. */
  predicate PeerInv(a: Adapter, b: Adapter, got: seq<Handed>) {
    && (!a.listening ==> b == a)
    && (b.listening ==> b == a && got == [])
    && (a.listening && !b.listening ==> got != [] && got[0].seg.header.syn && !got[0].seg.header.rst)
    && (forall i :: 0 <= i < |got| ==>
          && got[i].seg.header.sport == b.destination.port && got[i].seg.header.dport == b.source.port
          && got[i].d.header.src == b.destination.ip && got[i].d.header.dst == b.source.ip)
  }

  lemma UnwrapStep(a: Adapter, d: Datagram)
    ensures var (b, s) := Unwrap(a, d);
            && (s.None? ==> b == a)
            && (s.Some? ==> PeerInv(a, b, [Handed(s.value, d)]) && !b.listening)
  {
  }

  lemma PeerGrows(a: Adapter, b: Adapter, c: Adapter, got: seq<Handed>, s: Handed)
    requires PeerInv(a, b, got) && PeerInv(b, c, [s]) && !c.listening
    ensures PeerInv(a, c, got + [s])
  {
  }

  /**
   * Over any arrivals, a connected adapter's addresses never change, a listener hands up nothing until a SYN
   * connects it, and everything handed up came in a datagram between the adapter's two addresses and ports.
   */
  lemma {:induction false} OnePeer(a: Adapter, ds: seq<Datagram>)
    ensures PeerInv(a, UnwrapAll(a, ds).0, UnwrapAll(a, ds).1)
  {
    if ds != [] {
      var n := |ds| - 1;
      OnePeer(a, ds[..n]);
      var (b, got) := UnwrapAll(a, ds[..n]);
      UnwrapStep(b, ds[n]);
      var (c, s) := Unwrap(b, ds[n]);
      if s.Some? {
        PeerGrows(a, b, c, got, Handed(s.value, ds[n]));
      }
    }
  }
}
