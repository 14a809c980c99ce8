/** TCP headers and segments on the wire. */
module TcpWire {
  import opened Integers
  import opened TcpSegments
  import opened Checksums
  import opened Parsers

  const TCP_HEADER_LENGTH := 20

  function Flags(h: TcpHeader): byte {
    FlagBit(h.urg, 32) + FlagBit(h.ack, 16) + FlagBit(h.psh, 8) + FlagBit(h.rst, 4) + FlagBit(h.syn, 2) + FlagBit(h.fin, 1)
  }

  /** The data offset in the high half of its byte. */
  function OffsetByte(h: TcpHeader): byte {
    (h.doff * 16) % 256
  }

  /** The fixed fields in order, followed by `tail`. */
  function TcpFields(h: TcpHeader, tail: seq<byte>): seq<byte> {
    ToBytes(h.sport, 2) + (ToBytes(h.dport, 2) + (ToBytes(h.seqno, 4) + (ToBytes(h.ackno, 4)
    + (ToBytes(OffsetByte(h), 1) + (ToBytes(Flags(h), 1) + (ToBytes(h.win, 2)
    + (ToBytes(h.cksum, 2) + (ToBytes(h.uptr, 2) + tail))))))))
  }

  /** The header padded with zeros to its advertised size; an advertised size below the minimum is refused. */
  function SerializeTcpHeader(h: TcpHeader): Option<seq<byte>> {
    if h.doff < 5 then None else Some(TcpFields(h, Zeros(4 * h.doff - TCP_HEADER_LENGTH)))
  }

  /** Ports and sequence numbers, and what is left. */
  function ParseNumbers(p0: Parser): (u16, u16, u32, u32, Parser) {
    var p1 := p0.Dropped(2);
    var p2 := p1.Dropped(2);
    var p3 := p2.Dropped(4);
    (NextU16(p0), NextU16(p1), NextU32(p2), NextU32(p3), p3.Dropped(4))
  }

  /** Data offset byte, flags, window, checksum and urgent pointer, and what is left. */
  function ParseControls(p4: Parser): (byte, byte, u16, u16, u16, Parser) {
    var p5 := p4.Dropped(1);
    var p6 := p5.Dropped(1);
    var p7 := p6.Dropped(2);
    var p8 := p7.Dropped(2);
    (NextU8(p4), NextU8(p5), NextU16(p6), NextU16(p7), NextU16(p8), p8.Dropped(2))
  }

  /** The data offset is the high half of its byte; each flag is one bit. */
  function Unpack(sport: u16, dport: u16, seqno: u32, ackno: u32, offset: byte, fl: byte, win: u16, cksum: u16, uptr: u16): TcpHeader {
    TcpHeader(sport, dport, seqno, ackno, offset / 16,
              HasBit(fl, 32), HasBit(fl, 16), HasBit(fl, 8), HasBit(fl, 4), HasBit(fl, 2), HasBit(fl, 1),
              win, cksum, uptr)
  }

  /** Parse a header: the fields read, what is left, and the verdict. */
  function ParseTcpHeader(p0: Parser): (TcpHeader, Parser, ParseResult) {
    var (sport, dport, seqno, ackno, p4) := ParseNumbers(p0);
    var (offset, fl, win, cksum, uptr, p9) := ParseControls(p4);
    var h := Unpack(sport, dport, seqno, ackno, offset, fl, win, cksum, uptr);
    if h.doff < 5 then (h, p9, HeaderTooShort)
    else
      var p := p9.Dropped(h.doff * 4 - TCP_HEADER_LENGTH);
      (h, p, p.error)
  }

  method ReadTcpHeader(p: NetParser) returns (h: TcpHeader, result: ParseResult)
    modifies p
    ensures (h, p.Model(), result) == ParseTcpHeader(old(p.Model()))
  {
    var sport := p.U16();
    var dport := p.U16();
    var seqno := p.U32();
    var ackno := p.U32();
    var dataOffset := p.U8();
    var doff := dataOffset / 16;
    var fl := p.U8();
    var win := p.U16();
    var cksum := p.U16();
    var uptr := p.U16();
    h := TcpHeader(sport, dport, seqno, ackno, doff,
                   HasBit(fl, 32), HasBit(fl, 16), HasBit(fl, 8), HasBit(fl, 4), HasBit(fl, 2), HasBit(fl, 1),
                   win, cksum, uptr);
    if doff < 5 {
      return h, HeaderTooShort;
    }
    p.RemovePrefix(doff * 4 - TCP_HEADER_LENGTH);
    result := p.error;
  }

  /** Everything before the checksum field. */
  function TcpPrefix(h: TcpHeader): (s: seq<byte>)
    ensures |s| == 16
  {
    ToBytes(h.sport, 2) + ToBytes(h.dport, 2) + ToBytes(h.seqno, 4) + ToBytes(h.ackno, 4)
    + ToBytes(OffsetByte(h), 1) + ToBytes(Flags(h), 1) + ToBytes(h.win, 2)
  }

  lemma TcpLayout(h: TcpHeader, tail: seq<byte>)
    ensures TcpFields(h, tail) == TcpPrefix(h) + [h.cksum / 256, h.cksum % 256] + (ToBytes(h.uptr, 2) + tail)
  {
    assert ToBytes(h.cksum, 2) == [h.cksum / 256, h.cksum % 256] by { TwoByteField(h.cksum); }
  }

  method WritePrefix(h: TcpHeader) returns (ret: seq<byte>)
    ensures ret == TcpPrefix(h)
  {
    ret := [];
    ret := UnparseU16(ret, h.sport);
    ret := UnparseU16(ret, h.dport);
    ret := UnparseU32(ret, h.seqno);
    ret := UnparseU32(ret, h.ackno);
    ret := UnparseU8(ret, OffsetByte(h));
    ret := UnparseU8(ret, Flags(h));
    ret := UnparseU16(ret, h.win);
  }

  method WriteTcpHeader(h: TcpHeader) returns (r: Option<seq<byte>>)
    ensures r == SerializeTcpHeader(h)
  {
    if h.doff < 5 {
      return None;
    }
    var ret := WritePrefix(h);
    TwoByteField(h.cksum);
    ret := UnparseU16(ret, h.cksum);
    ret := UnparseU16(ret, h.uptr);
    var pad := Zeros(4 * h.doff - |ret|);
    TcpLayout(h, pad);
    assert ret + pad == TcpPrefix(h) + [h.cksum / 256, h.cksum % 256] + (ToBytes(h.uptr, 2) + pad);
    r := Some(ret + pad);
  }

  /** Parsing a serialized header gives the header back and leaves exactly what followed it. */
  lemma TcpHeaderRoundTrip(h: TcpHeader, rest: seq<byte>)
    requires 5 <= h.doff <= 15
    ensures ParseTcpHeader(Parser(SerializeTcpHeader(h).value + rest, NoError)) == (h, Parser(rest, NoError), NoError)
  {
    var pad := Zeros(4 * h.doff - TCP_HEADER_LENGTH);
    FieldsAppend(h, pad, rest);
    FieldsParse(h, pad + rest);
    assert (pad + rest)[|pad|..] == rest;
  }

  lemma FieldsAppend(h: TcpHeader, tail: seq<byte>, rest: seq<byte>)
    ensures TcpFields(h, tail) + rest == TcpFields(h, tail + rest)
  {
  }

  lemma UnpackBack(h: TcpHeader)
    requires h.doff <= 15
    ensures Unpack(h.sport, h.dport, h.seqno, h.ackno, OffsetByte(h), Flags(h), h.win, h.cksum, h.uptr) == h
  {
  }

  function Numbers(h: TcpHeader, tail: seq<byte>): seq<byte> {
    ToBytes(h.sport, 2) + (ToBytes(h.dport, 2) + (ToBytes(h.seqno, 4) + (ToBytes(h.ackno, 4) + tail)))
  }

  function Controls(h: TcpHeader, tail: seq<byte>): seq<byte> {
    ToBytes(OffsetByte(h), 1) + (ToBytes(Flags(h), 1) + (ToBytes(h.win, 2) + (ToBytes(h.cksum, 2) + (ToBytes(h.uptr, 2) + tail))))
  }

  lemma NumbersParse(h: TcpHeader, tail: seq<byte>)
    ensures ParseNumbers(Parser(Numbers(h, tail), NoError)) == (h.sport, h.dport, h.seqno, h.ackno, Parser(tail, NoError))
  {
    Widths();
    var t3 := ToBytes(h.ackno, 4) + tail;
    var t2 := ToBytes(h.seqno, 4) + t3;
    ParseBack(h.sport, 2, ToBytes(h.dport, 2) + t2);
    ParseBack(h.dport, 2, t2);
    ParseBack(h.seqno, 4, t3);
    ParseBack(h.ackno, 4, tail);
  }

  lemma ControlsParse(h: TcpHeader, tail: seq<byte>)
    ensures ParseControls(Parser(Controls(h, tail), NoError))
         == (OffsetByte(h), Flags(h), h.win, h.cksum, h.uptr, Parser(tail, NoError))
  {
    Widths();
    var t4 := ToBytes(h.uptr, 2) + tail;
    var t3 := ToBytes(h.cksum, 2) + t4;
    var t2 := ToBytes(h.win, 2) + t3;
    ParseBack(OffsetByte(h), 1, ToBytes(Flags(h), 1) + t2);
    ParseBack(Flags(h), 1, t2);
    ParseBack(h.win, 2, t3);
    ParseBack(h.cksum, 2, t4);
    ParseBack(h.uptr, 2, tail);
  }

  lemma FieldsParse(h: TcpHeader, tail: seq<byte>)
    requires 5 <= h.doff <= 15
    ensures var p := Parser(tail, NoError).Dropped(h.doff * 4 - TCP_HEADER_LENGTH);
            ParseTcpHeader(Parser(TcpFields(h, tail), NoError)) == (h, p, p.error)
  {
    UnpackBack(h);
    assert TcpFields(h, tail) == Numbers(h, Controls(h, tail));
    NumbersParse(h, Controls(h, tail));
    ControlsParse(h, tail);
  }

  /** The segment with its checksum filled in, computed over the whole segment on top of the pseudo-header's sum. */
  function SerializeSegment(seg: Segment, pseudo: u32): Option<seq<byte>> {
    var blank := SerializeTcpHeader(seg.header.(cksum := 0));
    if blank.None? then None
    else
      var cksum := Checksum(pseudo, blank.value + seg.payload);
      Some(SerializeTcpHeader(seg.header.(cksum := cksum)).value + seg.payload)
  }

  /** The checksum is verified first; afterwards only running out of bytes is an error. */
  function ParseSegment(buffer: seq<byte>, pseudo: u32): (Segment, ParseResult) {
    if Checksum(pseudo, buffer) != 0 then (Segment(DEFAULT_HEADER, []), BadChecksum)
    else
      var (h, p, _) := ParseTcpHeader(Parser(buffer, NoError));
      (Segment(h, p.buffer), p.error)
  }

  method ReadSegment(buffer: seq<byte>, pseudo: u32) returns (seg: Segment, result: ParseResult)
    ensures (seg, result) == ParseSegment(buffer, pseudo)
  {
    var check := new InternetChecksum(pseudo);
    check.Add(buffer);
    var v := check.Value();
    if v != 0 {
      return Segment(DEFAULT_HEADER, []), BadChecksum;
    }
    var p := new NetParser(buffer);
    var h, _ := ReadTcpHeader(p);
    seg, result := Segment(h, p.buffer), p.error;
  }

  method WriteSegment(seg: Segment, pseudo: u32) returns (r: Option<seq<byte>>)
    ensures r == SerializeSegment(seg, pseudo)
  {
    var header := seg.header.(cksum := 0);
    var blank := WriteTcpHeader(header);
    if blank.None? {
      return None;
    }
    var check := new InternetChecksum(pseudo);
    check.Add(blank.value);
    check.Add(seg.payload);
    SplitInvariance(pseudo, false, blank.value, seg.payload);
    var cksum := check.Value();
    var out := WriteTcpHeader(header.(cksum := cksum));
    r := Some(out.value + seg.payload);
  }

  lemma SegmentLayout(h: TcpHeader, payload: seq<byte>)
    requires h.doff >= 5
    ensures SerializeTcpHeader(h).value + payload
         == TcpPrefix(h) + [h.cksum / 256, h.cksum % 256]
            + (ToBytes(h.uptr, 2) + (Zeros(4 * h.doff - TCP_HEADER_LENGTH) + payload))
  {
    FieldsAppend(h, Zeros(4 * h.doff - TCP_HEADER_LENGTH), payload);
    TcpLayout(h, Zeros(4 * h.doff - TCP_HEADER_LENGTH) + payload);
  }

  /** The filled-in checksum makes the whole segment sum to zero. */
  lemma SegmentChecks(seg: Segment, pseudo: u32)
    requires 5 <= seg.header.doff
    ensures Checksum(pseudo, SerializeSegment(seg, pseudo).value) == 0
  {
    var blank := seg.header.(cksum := 0);
    var cksum := Checksum(pseudo, SerializeTcpHeader(blank).value + seg.payload);
    var post := ToBytes(seg.header.uptr, 2) + (Zeros(4 * seg.header.doff - TCP_HEADER_LENGTH) + seg.payload);
    SegmentLayout(blank, seg.payload);
    SegmentLayout(seg.header.(cksum := cksum), seg.payload);
    assert TcpPrefix(seg.header.(cksum := cksum)) == TcpPrefix(blank);
    FilledFieldChecks(pseudo, TcpPrefix(blank), post);
  }

  /** A serialized segment passes its own checksum and parses back to itself. */
  lemma SegmentRoundTrip(seg: Segment, pseudo: u32)
    requires 5 <= seg.header.doff <= 15
    ensures var wire := SerializeSegment(seg, pseudo).value;
            && |wire| == 4 * seg.header.doff + |seg.payload|
            && var (back, result) := ParseSegment(wire, pseudo);
            && result == NoError && back.payload == seg.payload
            && back.header == seg.header.(cksum := back.header.cksum)
  {
    SegmentChecks(seg, pseudo);
    var cksum := Checksum(pseudo, SerializeTcpHeader(seg.header.(cksum := 0)).value + seg.payload);
    TcpHeaderRoundTrip(seg.header.(cksum := cksum), seg.payload);
  }

  lemma NumbersLeave(p: Parser)
    ensures ParseNumbers(p).4.Ok() <==> p.Dropped(12).Ok()
    ensures p.Dropped(12).Ok() ==> ParseNumbers(p).4 == p.Dropped(12)
  {
  }

  lemma ControlsLeave(p: Parser)
    ensures ParseControls(p).5.Ok() <==> p.Dropped(8).Ok()
    ensures p.Dropped(8).Ok() ==> ParseControls(p).5 == p.Dropped(8)
  {
  }

  lemma HeaderLeaves(buffer: seq<byte>)
    ensures var (h, p, r) := ParseTcpHeader(Parser(buffer, NoError));
            && (p.Ok() <==> |buffer| >= 20 && (buffer[12] / 16 >= 5 ==> |buffer| >= 4 * (buffer[12] / 16)))
            && (|buffer| >= 20 ==> h.doff == buffer[12] / 16)
  {
    var p := Parser(buffer, NoError);
    NumbersLeave(p);
    ControlsLeave(ParseNumbers(p).4);
    if |buffer| >= 20 {
      ByteAt(buffer, 12);
      assert ParseNumbers(p).4 == Parser(buffer[12..], NoError);
    } else {
      DropTwice(p, 12, 8);
    }
  }

  /**
   * Exactly which buffers are taken for a segment. A data offset below 5 is reported by the header parser but
   * ignored by its caller, so such a segment is accepted as well.
   */
  lemma SegmentAcceptance(buffer: seq<byte>, pseudo: u32)
    ensures ParseSegment(buffer, pseudo).1 == NoError
            <==> (&& Checksum(pseudo, buffer) == 0 && |buffer| >= 20
                  && (buffer[12] / 16 >= 5 ==> |buffer| >= 4 * (buffer[12] / 16)))
  {
    HeaderLeaves(buffer);
  }

  /** A segment whose data offset is 0 is accepted. */
  lemma ShortOffsetAccepted()
    ensures var buffer := [0xff, 0xff] + Zeros(18);
            buffer[12] / 16 == 0 && ParseSegment(buffer, 0).1 == NoError
  {
    var buffer: seq<byte> := [0xff, 0xff] + Zeros(18);
    TwoBytes(0xffff);
    ZeroSum(18, false);
    WordSumSplits([0xff, 0xff], Zeros(18), false);
    assert WordSum(buffer, false) == 0xffff;
    SegmentAcceptance(buffer, 0);
  }
}
