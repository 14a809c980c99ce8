/** The exact bytes of the TCP and IPv4 headers that are written: sections 3.1 of RFC 793 and of RFC 791. */
module WireLayouts {
  import opened Integers
  import opened TcpSegments
  import opened Checksums
  import opened Parsers
  import opened TcpWire
  import opened Ipv4Wire

  function Bit(b: bool, weight: byte): byte {
    if b then weight else 0
  }

  /** A TCP segment, its header cut into 32-bit words. */
  function TcpBytes(h: TcpHeader, cksum: u16, payload: seq<byte>): seq<byte>
    requires 5 <= h.doff <= 15
  {
    ToBytes(h.sport, 2) + ToBytes(h.dport, 2)
    + ToBytes(h.seqno, 4)
    + ToBytes(h.ackno, 4)
    + [16 * h.doff, Bit(h.urg, 32) + Bit(h.ack, 16) + Bit(h.psh, 8) + Bit(h.rst, 4) + Bit(h.syn, 2) + Bit(h.fin, 1)]
    + ToBytes(h.win, 2)
    + ToBytes(cksum, 2) + ToBytes(h.uptr, 2)
    + Zeros(4 * h.doff - 20)
    + payload
  }

  lemma HeaderBytes(h: TcpHeader, payload: seq<byte>)
    requires 5 <= h.doff <= 15
    ensures SerializeTcpHeader(h) == Some(TcpBytes(h, h.cksum, []))
    ensures TcpBytes(h, h.cksum, []) + payload == TcpBytes(h, h.cksum, payload)
  {
    hide ToBytes;
    OneByte(OffsetByte(h));
    OneByte(Flags(h));
    assert SerializeTcpHeader(h).value == TcpBytes(h, h.cksum, []);
  }

  /** Every sendable segment, byte for byte; the checksum is taken with its own field zero. */
  lemma SegmentBytes(seg: Segment, pseudo: u32)
    requires 5 <= seg.header.doff <= 15
    ensures SerializeSegment(seg, pseudo)
         == Some(TcpBytes(seg.header, Checksum(pseudo, TcpBytes(seg.header, 0, seg.payload)), seg.payload))
  {
    hide SerializeTcpHeader, Checksum;
    HeaderBytes(seg.header.(cksum := 0), seg.payload);
    var cksum := Checksum(pseudo, TcpBytes(seg.header, 0, seg.payload));
    HeaderBytes(seg.header.(cksum := cksum), seg.payload);
    SameBytes(seg.header, 0, seg.payload);
    SameBytes(seg.header, cksum, seg.payload);
  }

  lemma SameBytes(h: TcpHeader, cksum: u16, payload: seq<byte>)
    requires 5 <= h.doff <= 15
    ensures TcpBytes(h.(cksum := cksum), cksum, payload) == TcpBytes(h, cksum, payload)
  {
  }

  /** An IPv4 header: don't-fragment and more-fragments are the second and third bit of their word. */
  function Ipv4Bytes(h: Ipv4Header, cksum: u16): seq<byte>
    requires 5 <= h.hlen <= 15 && h.offset < 0x2000
  {
    [0x40 + h.hlen, h.tos] + ToBytes(h.len, 2)
    + ToBytes(h.id, 2) + ToBytes((if h.df then 0x4000 else 0) + (if h.mf then 0x2000 else 0) + h.offset, 2)
    + [h.ttl, h.proto] + ToBytes(cksum, 2)
    + ToBytes(h.src, 4)
    + ToBytes(h.dst, 4)
    + Zeros(4 * h.hlen - 20)
  }

  lemma Ipv4HeaderBytes(h: Ipv4Header, cksum: u16)
    requires h.ver == 4 && 5 <= h.hlen <= 15 && h.offset < 0x2000
    ensures SerializeIpv4Header(h.(cksum := cksum)) == Some(Ipv4Bytes(h, cksum))
  {
    hide ToBytes;
    OneByte(0x40 + h.hlen);
    OneByte(h.tos);
    OneByte(h.ttl);
    OneByte(h.proto);
    assert SerializeIpv4Header(h.(cksum := cksum)).value == Ipv4Bytes(h, cksum);
  }

  /** Every proper datagram, byte for byte; the checksum covers the header alone, with its own field zero. */
  lemma DatagramOnWire(d: Datagram)
    requires d.header.ver == 4 && 5 <= d.header.hlen <= 15 && d.header.offset < 0x2000
    requires d.header.len == 4 * d.header.hlen + |d.payload|
    ensures SerializeDatagram(d) == Some(Ipv4Bytes(d.header, Checksum(0, Ipv4Bytes(d.header, 0))) + d.payload)
  {
    hide SerializeIpv4Header, Checksum, Ipv4Bytes;
    Ipv4HeaderBytes(d.header, 0);
    Ipv4HeaderBytes(d.header, Checksum(0, Ipv4Bytes(d.header, 0)));
  }
}
