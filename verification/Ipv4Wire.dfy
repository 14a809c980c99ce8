/** IPv4 headers and datagrams on the wire. */
module Ipv4Wire {
  import opened Integers
  import opened Checksums
  import opened Parsers

  const IPV4_HEADER_LENGTH := 20
  const DEFAULT_TTL: byte := 128
  const PROTO_TCP: byte := 6

  datatype Ipv4Header = Ipv4Header(
    ver: byte, hlen: byte, tos: byte, len: u16, id: u16, df: bool, mf: bool, offset: u16,
    ttl: byte, proto: byte, cksum: u16, src: u32, dst: u32) {

    /** 16-bit arithmetic: a total length shorter than the header wraps around. */
    function PayloadLength(): u16 {
      (len - 4 * hlen) % 0x1_0000
    }

    function PseudoChecksum(): (sum: u32)
      ensures sum <= 0xff_0000
    {
      src / 0x1_0000 + src % 0x1_0000 + dst / 0x1_0000 + dst % 0x1_0000 + proto + PayloadLength()
    }
  }

  datatype Datagram = Datagram(header: Ipv4Header, payload: seq<byte>)

  const DEFAULT_IPV4_HEADER := Ipv4Header(4, 5, 0, 0, 0, true, false, 0, DEFAULT_TTL, PROTO_TCP, 0, 0, 0)

  function FirstByte(h: Ipv4Header): byte {
    (h.ver * 16) % 256 + h.hlen % 16
  }

  function FragmentWord(h: Ipv4Header): u16 {
    FlagBit(h.df, 0x4000) + FlagBit(h.mf, 0x2000) + h.offset % 0x2000
  }

  /** Version to fragment offset, then `tail`. */
  function Upper(h: Ipv4Header, tail: seq<byte>): seq<byte> {
    ToBytes(FirstByte(h), 1) + (ToBytes(h.tos, 1) + (ToBytes(h.len, 2) + (ToBytes(h.id, 2) + (ToBytes(FragmentWord(h), 2) + tail))))
  }

  /** Time to live to destination address, then `tail`. */
  function Lower(h: Ipv4Header, tail: seq<byte>): seq<byte> {
    ToBytes(h.ttl, 1) + (ToBytes(h.proto, 1) + (ToBytes(h.cksum, 2) + (ToBytes(h.src, 4) + (ToBytes(h.dst, 4) + tail))))
  }

  function Ipv4Fields(h: Ipv4Header, tail: seq<byte>): seq<byte> {
    Upper(h, Lower(h, tail))
  }

  /** The header padded with zeros to its advertised size; another version or too small a size is refused. */
  function SerializeIpv4Header(h: Ipv4Header): Option<seq<byte>> {
    if h.ver != 4 || 4 * h.hlen < IPV4_HEADER_LENGTH then None
    else Some(Ipv4Fields(h, Zeros(4 * h.hlen - IPV4_HEADER_LENGTH)))
  }

  function ParseUpper(p0: Parser): (byte, byte, u16, u16, u16, Parser) {
    var p1 := p0.Dropped(1);
    var p2 := p1.Dropped(1);
    var p3 := p2.Dropped(2);
    var p4 := p3.Dropped(2);
    (NextU8(p0), NextU8(p1), NextU16(p2), NextU16(p3), NextU16(p4), p4.Dropped(2))
  }

  function ParseLower(p5: Parser): (byte, byte, u16, u32, u32, Parser) {
    var p6 := p5.Dropped(1);
    var p7 := p6.Dropped(1);
    var p8 := p7.Dropped(2);
    var p9 := p8.Dropped(4);
    (NextU8(p5), NextU8(p6), NextU16(p7), NextU32(p8), NextU32(p9), p9.Dropped(4))
  }

  function Unpack(first: byte, tos: byte, len: u16, id: u16, fo: u16,
                  ttl: byte, proto: byte, cksum: u16, src: u32, dst: u32): Ipv4Header {
    Ipv4Header(first / 16, first % 16, tos, len, id, HasBit(fo, 0x4000), HasBit(fo, 0x2000), fo % 0x2000,
               ttl, proto, cksum, src, dst)
  }

  /** The checks after the fixed fields, in the order they are made; `p` is what followed those fields. */
  function Judge(h: Ipv4Header, original: seq<byte>, p: Parser): (Parser, ParseResult) {
    if |original| < 4 * h.hlen then (p, PacketTooShort)
    else if h.ver != 4 then (p, WrongIPVersion)
    else if h.hlen < 5 then (p, HeaderTooShort)
    else if |original| != h.len then (p, TruncatedPacket)
    else
      var q := p.Dropped(4 * h.hlen - IPV4_HEADER_LENGTH);
      (q, if !q.Ok() then q.error else if Checksum(0, original[..4 * h.hlen]) != 0 then BadChecksum else NoError)
  }

  function ParseFields(p: Parser): (Ipv4Header, Parser) {
    var (first, tos, len, id, fo, p5) := ParseUpper(p);
    var (ttl, proto, cksum, src, dst, p10) := ParseLower(p5);
    (Unpack(first, tos, len, id, fo, ttl, proto, cksum, src, dst), p10)
  }

  /** Parse a header into what was `h`: the fields now, what is left, and the verdict. */
  function ParseIpv4Header(h: Ipv4Header, p: Parser): (Ipv4Header, Parser, ParseResult) {
    if |p.buffer| < IPV4_HEADER_LENGTH then (h, p, PacketTooShort)
    else
      var (read, p10) := ParseFields(p);
      var (q, result) := Judge(read, p.buffer, p10);
      (read, q, result)
  }

  method ReadFields(p: NetParser) returns (h: Ipv4Header)
    modifies p
    ensures (h, p.Model()) == ParseFields(old(p.Model()))
  {
    var first := p.U8();
    var tos := p.U8();
    var len := p.U16();
    var id := p.U16();
    var fo := p.U16();
    var ttl := p.U8();
    var proto := p.U8();
    var cksum := p.U16();
    var src := p.U32();
    var dst := p.U32();
    h := Ipv4Header(first / 16, first % 16, tos, len, id, HasBit(fo, 0x4000), HasBit(fo, 0x2000), fo % 0x2000,
                    ttl, proto, cksum, src, dst);
  }

  method ReadIpv4Header(was: Ipv4Header, p: NetParser) returns (h: Ipv4Header, result: ParseResult)
    modifies p
    ensures (h, p.Model(), result) == ParseIpv4Header(was, old(p.Model()))
  {
    var original := p.buffer;
    if |original| < IPV4_HEADER_LENGTH {
      return was, PacketTooShort;
    }
    h := ReadFields(p);
    if |original| < 4 * h.hlen {
      return h, PacketTooShort;
    }
    if h.ver != 4 {
      return h, WrongIPVersion;
    }
    if h.hlen < 5 {
      return h, HeaderTooShort;
    }
    if |original| != h.len {
      return h, TruncatedPacket;
    }
    p.RemovePrefix(4 * h.hlen - IPV4_HEADER_LENGTH);
    result := p.error;
    if result == NoError {
      var check := new InternetChecksum(0);
      check.Add(original[..4 * h.hlen]);
      var v := check.Value();
      if v != 0 {
        result := BadChecksum;
      }
    }
  }

  /** Everything before the checksum field. */
  function Ipv4Prefix(h: Ipv4Header): (s: seq<byte>)
    ensures |s| == 10
  {
    ToBytes(FirstByte(h), 1) + ToBytes(h.tos, 1) + ToBytes(h.len, 2) + ToBytes(h.id, 2) + ToBytes(FragmentWord(h), 2)
    + ToBytes(h.ttl, 1) + ToBytes(h.proto, 1)
  }

  /** Everything after the checksum field. */
  function Ipv4Suffix(h: Ipv4Header, tail: seq<byte>): (s: seq<byte>)
    ensures |s| == 8 + |tail|
  {
    ToBytes(h.src, 4) + (ToBytes(h.dst, 4) + tail)
  }

  lemma Ipv4Layout(h: Ipv4Header, tail: seq<byte>)
    ensures Ipv4Fields(h, tail) == Ipv4Prefix(h) + [h.cksum / 256, h.cksum % 256] + Ipv4Suffix(h, tail)
  {
    TwoByteField(h.cksum);
  }

  method WritePrefix(h: Ipv4Header) returns (ret: seq<byte>)
    ensures ret == Ipv4Prefix(h)
  {
    ret := [];
    ret := UnparseU8(ret, FirstByte(h));
    ret := UnparseU8(ret, h.tos);
    ret := UnparseU16(ret, h.len);
    ret := UnparseU16(ret, h.id);
    ret := UnparseU16(ret, FragmentWord(h));
    ret := UnparseU8(ret, h.ttl);
    ret := UnparseU8(ret, h.proto);
  }

  method WriteIpv4Header(h: Ipv4Header) returns (r: Option<seq<byte>>)
    ensures r == SerializeIpv4Header(h)
  {
    if h.ver != 4 || 4 * h.hlen < IPV4_HEADER_LENGTH {
      return None;
    }
    var ret := WritePrefix(h);
    TwoByteField(h.cksum);
    ret := UnparseU16(ret, h.cksum);
    ret := UnparseU32(ret, h.src);
    ret := UnparseU32(ret, h.dst);
    var pad := Zeros(4 * h.hlen - |ret|);
    Ipv4Layout(h, pad);
    assert ret + pad == Ipv4Prefix(h) + [h.cksum / 256, h.cksum % 256] + Ipv4Suffix(h, pad);
    r := Some(ret + pad);
  }

  lemma FieldsAppend(h: Ipv4Header, tail: seq<byte>, rest: seq<byte>)
    ensures Ipv4Fields(h, tail) + rest == Ipv4Fields(h, tail + rest)
  {
  }

  predicate Printable(h: Ipv4Header) {
    h.ver == 4 && 5 <= h.hlen <= 15 && h.offset < 0x2000
  }

  lemma UnpackBack(h: Ipv4Header)
    requires Printable(h)
    ensures Unpack(FirstByte(h), h.tos, h.len, h.id, FragmentWord(h), h.ttl, h.proto, h.cksum, h.src, h.dst) == h
  {
  }

  lemma UpperParse(h: Ipv4Header, tail: seq<byte>)
    ensures ParseUpper(Parser(Upper(h, tail), NoError))
         == (FirstByte(h), h.tos, h.len, h.id, FragmentWord(h), Parser(tail, NoError))
  {
    Widths();
    var t4 := ToBytes(FragmentWord(h), 2) + tail;
    var t3 := ToBytes(h.id, 2) + t4;
    var t2 := ToBytes(h.len, 2) + t3;
    ParseBack(FirstByte(h), 1, ToBytes(h.tos, 1) + t2);
    ParseBack(h.tos, 1, t2);
    ParseBack(h.len, 2, t3);
    ParseBack(h.id, 2, t4);
    ParseBack(FragmentWord(h), 2, tail);
  }

  lemma LowerParse(h: Ipv4Header, tail: seq<byte>)
    ensures ParseLower(Parser(Lower(h, tail), NoError))
         == (h.ttl, h.proto, h.cksum, h.src, h.dst, Parser(tail, NoError))
  {
    Widths();
    var t4 := ToBytes(h.dst, 4) + tail;
    var t3 := ToBytes(h.src, 4) + t4;
    var t2 := ToBytes(h.cksum, 2) + t3;
    ParseBack(h.ttl, 1, ToBytes(h.proto, 1) + t2);
    ParseBack(h.proto, 1, t2);
    ParseBack(h.cksum, 2, t3);
    ParseBack(h.src, 4, t4);
    ParseBack(h.dst, 4, tail);
  }

  lemma FieldsParse(h: Ipv4Header, tail: seq<byte>)
    requires Printable(h)
    ensures ParseFields(Parser(Ipv4Fields(h, tail), NoError)) == (h, Parser(tail, NoError))
  {
    UnpackBack(h);
    UpperParse(h, Lower(h, tail));
    LowerParse(h, tail);
  }

  /** The serialized header, its checksum computed over the header alone, followed by the payload. */
  function SerializeDatagram(d: Datagram): Option<seq<byte>> {
    if |d.payload| != d.header.PayloadLength() then None
    else
      var blank := SerializeIpv4Header(d.header.(cksum := 0));
      if blank.None? then None
      else Some(SerializeIpv4Header(d.header.(cksum := Checksum(0, blank.value))).value + d.payload)
  }

  /** The verdict on the header is not looked at: only the payload's size and the parser's own error are. */
  function ParseDatagram(buffer: seq<byte>): (Datagram, ParseResult) {
    var (h, p, _) := ParseIpv4Header(DEFAULT_IPV4_HEADER, Parser(buffer, NoError));
    Parcel(h, p)
  }

  function Parcel(h: Ipv4Header, p: Parser): (Datagram, ParseResult) {
    (Datagram(h, p.buffer), if |p.buffer| != h.PayloadLength() then PacketTooShort else p.error)
  }

  method ReadDatagram(buffer: seq<byte>) returns (d: Datagram, result: ParseResult)
    ensures (d, result) == ParseDatagram(buffer)
  {
    var p := new NetParser(buffer);
    var h, _ := ReadIpv4Header(DEFAULT_IPV4_HEADER, p);
    d := Datagram(h, p.buffer);
    if |d.payload| != h.PayloadLength() {
      return d, PacketTooShort;
    }
    result := p.error;
  }

  method WriteDatagram(d: Datagram) returns (r: Option<seq<byte>>)
    ensures r == SerializeDatagram(d)
  {
    if |d.payload| != d.header.PayloadLength() {
      return None;
    }
    var header := d.header.(cksum := 0);
    var blank := WriteIpv4Header(header);
    if blank.None? {
      return None;
    }
    var check := new InternetChecksum(0);
    check.Add(blank.value);
    var v := check.Value();
    var out := WriteIpv4Header(header.(cksum := v));
    r := Some(out.value + d.payload);
  }

  lemma HeaderLayout(h: Ipv4Header, cksum: u16)
    requires h.ver == 4 && 5 <= h.hlen
    ensures SerializeIpv4Header(h.(cksum := cksum)).value
         == Ipv4Prefix(h) + [cksum / 256, cksum % 256] + Ipv4Suffix(h, Zeros(4 * h.hlen - IPV4_HEADER_LENGTH))
  {
    Ipv4Layout(h.(cksum := cksum), Zeros(4 * h.hlen - IPV4_HEADER_LENGTH));
  }

  /** The filled-in checksum makes the header sum to zero. */
  lemma HeaderChecks(h: Ipv4Header)
    requires h.ver == 4 && 5 <= h.hlen
    ensures var cksum := Checksum(0, SerializeIpv4Header(h.(cksum := 0)).value);
            Checksum(0, SerializeIpv4Header(h.(cksum := cksum)).value) == 0
  {
    HeaderLayout(h, 0);
    HeaderLayout(h, Checksum(0, SerializeIpv4Header(h.(cksum := 0)).value));
    FilledFieldChecks(0, Ipv4Prefix(h), Ipv4Suffix(h, Zeros(4 * h.hlen - IPV4_HEADER_LENGTH)));
  }

  /** What parsing leaves of a serialized header and what follows it. */
  lemma FieldsBack(h: Ipv4Header, payload: seq<byte>)
    requires Printable(h)
    ensures var pad := Zeros(4 * h.hlen - IPV4_HEADER_LENGTH);
            && ParseFields(Parser(SerializeIpv4Header(h).value + payload, NoError)) == (h, Parser(pad + payload, NoError))
            && |SerializeIpv4Header(h).value| == 4 * h.hlen
            && Parser(pad + payload, NoError).Dropped(|pad|) == Parser(payload, NoError)
  {
    var pad := Zeros(4 * h.hlen - IPV4_HEADER_LENGTH);
    FieldsAppend(h, pad, payload);
    FieldsParse(h, pad + payload);
    Ipv4Layout(h, pad);
    assert (pad + payload)[|pad|..] == payload;
  }

  lemma JudgeBack(h: Ipv4Header, wire: seq<byte>, payload: seq<byte>, p: Parser)
    requires Printable(h) && h.len == 4 * h.hlen + |payload| && Checksum(0, wire) == 0 && |wire| == 4 * h.hlen
    requires p.Dropped(4 * h.hlen - IPV4_HEADER_LENGTH) == Parser(payload, NoError)
    ensures Judge(h, wire + payload, p) == (Parser(payload, NoError), NoError)
  {
  }

  /** A header on the wire whose checksum is right parses back to itself. */
  lemma Ipv4HeaderRoundTrip(was: Ipv4Header, h: Ipv4Header, payload: seq<byte>)
    requires Printable(h) && h.len == 4 * h.hlen + |payload| && Checksum(0, SerializeIpv4Header(h).value) == 0
    ensures ParseIpv4Header(was, Parser(SerializeIpv4Header(h).value + payload, NoError))
         == (h, Parser(payload, NoError), NoError)
  {
    FieldsBack(h, payload);
    JudgeBack(h, SerializeIpv4Header(h).value, payload, Parser(Zeros(4 * h.hlen - IPV4_HEADER_LENGTH) + payload, NoError));
  }

  lemma PayloadBack(wire: seq<byte>, h: Ipv4Header, payload: seq<byte>)
    requires ParseIpv4Header(DEFAULT_IPV4_HEADER, Parser(wire, NoError)) == (h, Parser(payload, NoError), NoError)
    requires |payload| == h.PayloadLength()
    ensures ParseDatagram(wire) == (Datagram(h, payload), NoError)
  {
  }

  function Sealed(h: Ipv4Header): Ipv4Header
    requires h.ver == 4 && 5 <= h.hlen
  {
    h.(cksum := Checksum(0, SerializeIpv4Header(h.(cksum := 0)).value))
  }

  lemma DatagramBytes(d: Datagram)
    requires Printable(d.header) && d.header.len == 4 * d.header.hlen + |d.payload|
    ensures SerializeDatagram(d) == Some(SerializeIpv4Header(Sealed(d.header)).value + d.payload)
  {
  }

  /** A serialized datagram parses back to itself with its checksum filled in, and its header is found in order. */
  lemma DatagramRoundTrip(d: Datagram)
    requires Printable(d.header) && d.header.len == 4 * d.header.hlen + |d.payload|
    ensures SerializeDatagram(d).Some?
    ensures var wire := SerializeDatagram(d).value;
            && |wire| == d.header.len
            && ParseIpv4Header(DEFAULT_IPV4_HEADER, Parser(wire, NoError)).2 == NoError
            && ParseDatagram(wire) == (Datagram(Sealed(d.header), d.payload), NoError)
  {
    var h := Sealed(d.header);
    var bytes := SerializeIpv4Header(h).value;
    DatagramBytes(d);
    HeaderChecks(d.header);
    HeaderLayout(d.header, h.cksum);
    Ipv4HeaderRoundTrip(DEFAULT_IPV4_HEADER, h, d.payload);
    PayloadBack(bytes + d.payload, h, d.payload);
  }

  lemma UpperLeaves(p: Parser)
    requires p.Ok() && |p.buffer| >= 20
    ensures ParseUpper(p).5 == p.Dropped(8)
  {
  }

  lemma LowerLeaves(p: Parser)
    requires p.Ok() && |p.buffer| >= 12
    ensures ParseLower(p).5 == p.Dropped(12)
  {
  }

  lemma UpperBytes(buffer: seq<byte>)
    requires |buffer| >= 20
    ensures var upper := ParseUpper(Parser(buffer, NoError));
            upper.0 == buffer[0] && upper.2 == Word(buffer[2], buffer[3])
  {
    var p := Parser(buffer, NoError);
    assert buffer[0..] == buffer;
    ByteAt(buffer, 0);
    DropTwice(p, 1, 1);
    WordAt(buffer, 2);
  }

  function WireVersion(buffer: seq<byte>): nat
    requires |buffer| >= 20
  {
    buffer[0] / 16
  }

  function WireHeaderSize(buffer: seq<byte>): nat
    requires |buffer| >= 20
  {
    4 * (buffer[0] % 16)
  }

  function WireLength(buffer: seq<byte>): nat
    requires |buffer| >= 20
  {
    Word(buffer[2], buffer[3])
  }

  lemma FieldsRead(buffer: seq<byte>)
    requires |buffer| >= 20
    ensures var (h, p) := ParseFields(Parser(buffer, NoError));
            && h.ver == WireVersion(buffer) && 4 * h.hlen == WireHeaderSize(buffer) && h.len == WireLength(buffer)
            && p == Parser(buffer[20..], NoError)
  {
    var p := Parser(buffer, NoError);
    UpperBytes(buffer);
    UpperLeaves(p);
    LowerLeaves(p.Dropped(8));
    DropTwice(p, 8, 12);
  }

  /** What every check but the checksum asks of the bytes. */
  predicate WellShaped(buffer: seq<byte>) {
    && |buffer| >= 20
    && WireVersion(buffer) == 4 && 20 <= WireHeaderSize(buffer) <= |buffer| == WireLength(buffer)
  }

  lemma JudgeShape(h: Ipv4Header, buffer: seq<byte>)
    requires |buffer| >= 20
    requires h.ver == WireVersion(buffer) && 4 * h.hlen == WireHeaderSize(buffer) && h.len == WireLength(buffer)
    ensures var (q, result) := Judge(h, buffer, Parser(buffer[20..], NoError));
            && (WellShaped(buffer) ==>
                  && q == Parser(buffer[WireHeaderSize(buffer)..], NoError)
                  && (result == NoError <==> Checksum(0, buffer[..WireHeaderSize(buffer)]) == 0))
            && (!WellShaped(buffer) ==> q == Parser(buffer[20..], NoError) && result != NoError)
  {
  }

  /** A header is found in order exactly when it is well shaped and its checksum is right. */
  lemma HeaderAcceptance(was: Ipv4Header, buffer: seq<byte>)
    ensures ParseIpv4Header(was, Parser(buffer, NoError)).2 == NoError
            <==> WellShaped(buffer) && Checksum(0, buffer[..WireHeaderSize(buffer)]) == 0
  {
    if |buffer| >= 20 {
      FieldsRead(buffer);
      JudgeShape(ParseFields(Parser(buffer, NoError)).0, buffer);
    }
  }

  lemma DatagramLeft(buffer: seq<byte>)
    requires |buffer| >= 20
    ensures var (h, p, _) := ParseIpv4Header(DEFAULT_IPV4_HEADER, Parser(buffer, NoError));
            && h.PayloadLength() == (WireLength(buffer) - WireHeaderSize(buffer)) % 0x1_0000
            && p == Parser(buffer[if WellShaped(buffer) then WireHeaderSize(buffer) else 20..], NoError)
  {
    FieldsRead(buffer);
    JudgeShape(ParseFields(Parser(buffer, NoError)).0, buffer);
  }

  lemma ParcelShape(h: Ipv4Header, p: Parser, buffer: seq<byte>)
    requires |buffer| >= 20
    requires h.PayloadLength() == (WireLength(buffer) - WireHeaderSize(buffer)) % 0x1_0000
    requires p == Parser(buffer[if WellShaped(buffer) then WireHeaderSize(buffer) else 20..], NoError)
    ensures Parcel(h, p).1 == NoError
            <==> WellShaped(buffer) || |buffer| - 20 == (WireLength(buffer) - WireHeaderSize(buffer)) % 0x1_0000
  {
  }

  /**
   * Exactly which buffers are taken for a datagram. The header's verdict is ignored, so a wrong checksum never
   * matters, and a misshapen header passes when what follows its first 20 bytes happens to have the right size.
   */
  lemma DatagramAcceptance(buffer: seq<byte>)
    ensures ParseDatagram(buffer).1 == NoError
            <==> (&& |buffer| >= 20
                  && (WellShaped(buffer) || |buffer| - 20 == (WireLength(buffer) - WireHeaderSize(buffer)) % 0x1_0000))
  {
    if |buffer| >= 20 {
      DatagramLeft(buffer);
      var (h, p, _) := ParseIpv4Header(DEFAULT_IPV4_HEADER, Parser(buffer, NoError));
      ParcelShape(h, p, buffer);
    }
  }

  /** A datagram of another IP version, with a wrong checksum, is accepted. */
  lemma WrongVersionAccepted()
    ensures var buffer: seq<byte> := [0x65, 0, 0, 20] + Zeros(16);
            && ParseIpv4Header(DEFAULT_IPV4_HEADER, Parser(buffer, NoError)).2 != NoError
            && ParseDatagram(buffer).1 == NoError
  {
    var buffer: seq<byte> := [0x65, 0, 0, 20] + Zeros(16);
    assert WireVersion(buffer) == 6 && WireLength(buffer) - WireHeaderSize(buffer) == 0;
    HeaderAcceptance(DEFAULT_IPV4_HEADER, buffer);
    DatagramAcceptance(buffer);
  }
}
