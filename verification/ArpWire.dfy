/** ARP messages on the wire. */
module ArpWire {
  import opened Integers
  import opened Parsers

  /** An Ethernet address. */
  type Mac = s: seq<byte> | |s| == 6 witness [0, 0, 0, 0, 0, 0]

  const ARP_LENGTH := 28
  const TYPE_ETHERNET: u16 := 1
  const TYPE_IPV4: u16 := 0x800
  const TYPE_ARP: u16 := 0x806
  const OPCODE_REQUEST: u16 := 1
  const OPCODE_REPLY: u16 := 2
  const NO_MAC: Mac := [0, 0, 0, 0, 0, 0]

  datatype ArpHead = ArpHead(
    hardwareType: u16, protocolType: u16, hardwareSize: byte, protocolSize: byte, opcode: u16)

  datatype ArpMessage = ArpMessage(
    head: ArpHead, senderMac: Mac, senderIp: u32, targetMac: Mac, targetIp: u32)

  /** The head every message of this stack carries. */
  function Head(opcode: u16): ArpHead {
    ArpHead(TYPE_ETHERNET, TYPE_IPV4, 6, 4, opcode)
  }

  predicate Supported(h: ArpHead) {
    h == Head(OPCODE_REQUEST) || h == Head(OPCODE_REPLY)
  }

  function HeadBytes(h: ArpHead, tail: seq<byte>): seq<byte> {
    ToBytes(h.hardwareType, 2) + (ToBytes(h.protocolType, 2) + (ToBytes(h.hardwareSize, 1)
    + (ToBytes(h.protocolSize, 1) + (ToBytes(h.opcode, 2) + tail))))
  }

  function PartyBytes(mac: Mac, ip: u32, tail: seq<byte>): seq<byte> {
    mac + (ToBytes(ip, 4) + tail)
  }

  /** Only messages of the supported kind are written. */
  function SerializeArp(m: ArpMessage): Option<seq<byte>> {
    if !Supported(m.head) then None
    else Some(HeadBytes(m.head, PartyBytes(m.senderMac, m.senderIp, PartyBytes(m.targetMac, m.targetIp, []))))
  }

  function ParseHead(p0: Parser): (ArpHead, Parser) {
    var p1 := p0.Dropped(2);
    var p2 := p1.Dropped(2);
    var p3 := p2.Dropped(1);
    var p4 := p3.Dropped(1);
    (ArpHead(NextU16(p0), NextU16(p1), NextU8(p2), NextU8(p3), NextU16(p4)), p4.Dropped(2))
  }

  /** The next `n` bytes read one at a time, and what is left. */
  function TakeBytes(p: Parser, n: nat): (r: (seq<byte>, Parser))
    ensures |r.0| == n
  {
    if n == 0 then ([], p)
    else
      var (front, q) := TakeBytes(p, n - 1);
      (front + [NextU8(q)], q.Dropped(1))
  }

  function ParseParty(p: Parser): (Mac, u32, Parser) {
    var (mac, q) := TakeBytes(p, 6);
    (mac, NextU32(q), q.Dropped(4))
  }

  function ParseArp(buffer: seq<byte>): (ArpMessage, ParseResult) {
    if |buffer| < ARP_LENGTH then (ArpMessage(Head(0), NO_MAC, 0, NO_MAC, 0), PacketTooShort)
    else
      var (head, p) := ParseHead(Parser(buffer, NoError));
      if !Supported(head) then (ArpMessage(head, NO_MAC, 0, NO_MAC, 0), ParseResult.Unsupported)
      else
        var (senderMac, senderIp, q) := ParseParty(p);
        var (targetMac, targetIp, r) := ParseParty(q);
        (ArpMessage(head, senderMac, senderIp, targetMac, targetIp), r.error)
  }

  method ReadMac(p: NetParser) returns (mac: Mac)
    modifies p
    ensures (mac, p.Model()) == TakeBytes(old(p.Model()), 6)
  {
    var bytes: seq<byte> := [];
    while |bytes| < 6
      invariant |bytes| <= 6
      invariant (bytes, p.Model()) == TakeBytes(old(p.Model()), |bytes|)
    {
      var b := p.U8();
      bytes := bytes + [b];
    }
    mac := bytes;
  }

  method ReadArp(buffer: seq<byte>) returns (m: ArpMessage, result: ParseResult)
    ensures (m, result) == ParseArp(buffer)
  {
    var p := new NetParser(buffer);
    m := ArpMessage(Head(0), NO_MAC, 0, NO_MAC, 0);
    if |buffer| < ARP_LENGTH {
      return m, PacketTooShort;
    }
    var hardwareType := p.U16();
    var protocolType := p.U16();
    var hardwareSize := p.U8();
    var protocolSize := p.U8();
    var opcode := p.U16();
    m := m.(head := ArpHead(hardwareType, protocolType, hardwareSize, protocolSize, opcode));
    if !Supported(m.head) {
      return m, ParseResult.Unsupported;
    }
    var senderMac := ReadMac(p);
    var senderIp := p.U32();
    var targetMac := ReadMac(p);
    var targetIp := p.U32();
    m := ArpMessage(m.head, senderMac, senderIp, targetMac, targetIp);
    result := p.error;
  }

  method WriteHead(h: ArpHead) returns (ret: seq<byte>)
    ensures ret == HeadBytes(h, [])
  {
    ret := [];
    ret := UnparseU16(ret, h.hardwareType);
    ret := UnparseU16(ret, h.protocolType);
    ret := UnparseU8(ret, h.hardwareSize);
    ret := UnparseU8(ret, h.protocolSize);
    ret := UnparseU16(ret, h.opcode);
  }

  method WriteParty(s: seq<byte>, mac: Mac, ip: u32) returns (ret: seq<byte>)
    ensures ret == s + PartyBytes(mac, ip, [])
  {
    ret := s;
    for i := 0 to 6
      invariant ret == s + mac[..i]
    {
      OneByte(mac[i]);
      ret := UnparseU8(ret, mac[i]);
      assert mac[..i + 1] == mac[..i] + [mac[i]];
    }
    assert mac[..6] == mac;
    ret := UnparseU32(ret, ip);
  }

  method WriteArp(m: ArpMessage) returns (r: Option<seq<byte>>)
    ensures r == SerializeArp(m)
  {
    if !Supported(m.head) {
      return None;
    }
    var ret := WriteHead(m.head);
    ret := WriteParty(ret, m.senderMac, m.senderIp);
    ret := WriteParty(ret, m.targetMac, m.targetIp);
    assert ret == SerializeArp(m).value by {
      assert PartyBytes(m.senderMac, m.senderIp, []) + PartyBytes(m.targetMac, m.targetIp, [])
          == PartyBytes(m.senderMac, m.senderIp, PartyBytes(m.targetMac, m.targetIp, []));
      HeadAppend(m.head, PartyBytes(m.senderMac, m.senderIp, PartyBytes(m.targetMac, m.targetIp, [])));
    }
    r := Some(ret);
  }

  lemma HeadAppend(h: ArpHead, tail: seq<byte>)
    ensures HeadBytes(h, []) + tail == HeadBytes(h, tail)
  {
  }

  lemma HeadBack(h: ArpHead, tail: seq<byte>)
    ensures ParseHead(Parser(HeadBytes(h, tail), NoError)) == (h, Parser(tail, NoError))
  {
    Widths();
    var t4 := ToBytes(h.opcode, 2) + tail;
    var t3 := ToBytes(h.protocolSize, 1) + t4;
    var t2 := ToBytes(h.hardwareSize, 1) + t3;
    ParseBack(h.hardwareType, 2, ToBytes(h.protocolType, 2) + t2);
    ParseBack(h.protocolType, 2, t2);
    ParseBack(h.hardwareSize, 1, t3);
    ParseBack(h.protocolSize, 1, t4);
    ParseBack(h.opcode, 2, tail);
  }

  lemma {:induction false} BytesBack(bytes: seq<byte>, n: nat)
    requires n <= |bytes|
    ensures TakeBytes(Parser(bytes, NoError), n) == (bytes[..n], Parser(bytes[n..], NoError))
  {
    if n > 0 {
      BytesBack(bytes, n - 1);
      ByteAt(bytes, n - 1);
      DropTwice(Parser(bytes, NoError), n - 1, 1);
      assert bytes[..n - 1] + [bytes[n - 1]] == bytes[..n];
    } else {
      assert bytes[0..] == bytes;
    }
  }

  lemma PartyBack(mac: Mac, ip: u32, tail: seq<byte>)
    ensures ParseParty(Parser(PartyBytes(mac, ip, tail), NoError)) == (mac, ip, Parser(tail, NoError))
  {
    Widths();
    BytesBack(PartyBytes(mac, ip, tail), 6);
    assert PartyBytes(mac, ip, tail)[..6] == mac;
    assert PartyBytes(mac, ip, tail)[6..] == ToBytes(ip, 4) + tail;
    ParseBack(ip, 4, tail);
  }

  /** A serialized message parses back to itself. */
  lemma ArpRoundTrip(m: ArpMessage)
    requires Supported(m.head)
    ensures ParseArp(SerializeArp(m).value) == (m, NoError)
  {
    var target := PartyBytes(m.targetMac, m.targetIp, []);
    HeadBack(m.head, PartyBytes(m.senderMac, m.senderIp, target));
    PartyBack(m.senderMac, m.senderIp, target);
    PartyBack(m.targetMac, m.targetIp, []);
  }

  // The bytes themselves.

  /** A message on the wire: hardware type 1, protocol type 0x800, sizes 6 and 4, the opcode, and the two parties. */
  function ArpBytes(opcode: byte, senderMac: Mac, senderIp: u32, targetMac: Mac, targetIp: u32): seq<byte> {
    [0, 1, 8, 0, 6, 4, 0, opcode] + senderMac + ToBytes(senderIp, 4) + targetMac + ToBytes(targetIp, 4)
  }

  lemma HeadLayout(opcode: byte, tail: seq<byte>)
    ensures HeadBytes(Head(opcode), tail) == [0, 1, 8, 0, 6, 4, 0, opcode] + tail
  {
    hide ToBytes;
    TwoByteField(1);
    TwoByteField(0x800);
    TwoByteField(opcode);
    OneByte(6);
    OneByte(4);
    assert ToBytes(1, 2) == [0, 1] && ToBytes(0x800, 2) == [8, 0] && ToBytes(opcode, 2) == [0, opcode];
  }

  /** What is written, byte for byte: requests have opcode 1, replies opcode 2, and nothing else is written. */
  lemma ArpLayout(m: ArpMessage)
    ensures SerializeArp(m).Some? <==> m.head == ArpHead(1, 0x800, 6, 4, 1) || m.head == ArpHead(1, 0x800, 6, 4, 2)
    ensures SerializeArp(m).Some? ==>
              SerializeArp(m).value == ArpBytes(m.head.opcode, m.senderMac, m.senderIp, m.targetMac, m.targetIp)
  {
    if Supported(m.head) {
      var target := PartyBytes(m.targetMac, m.targetIp, []);
      HeadLayout(m.head.opcode, PartyBytes(m.senderMac, m.senderIp, target));
    }
  }

  lemma HeadRead(buffer: seq<byte>)
    requires |buffer| >= 8
    ensures ParseHead(Parser(buffer, NoError))
         == (ArpHead(Word(buffer[0], buffer[1]), Word(buffer[2], buffer[3]), buffer[4], buffer[5], Word(buffer[6], buffer[7])),
             Parser(buffer[8..], NoError))
  {
    assert buffer[0..] == buffer;
    WordAt(buffer, 0);
    WordAt(buffer, 2);
    ByteAt(buffer, 4);
    ByteAt(buffer, 5);
    WordAt(buffer, 6);
    var p := Parser(buffer, NoError);
    assert p.Dropped(2).buffer == buffer[2..];
    DropTwice(p, 2, 2);
    DropTwice(p, 4, 1);
    DropTwice(p, 5, 1);
    DropTwice(p, 6, 2);
  }

  lemma PartyRead(buffer: seq<byte>)
    requires |buffer| >= 10
    ensures ParseParty(Parser(buffer, NoError)) == (buffer[..6], Quad(buffer, 6), Parser(buffer[10..], NoError))
  {
    BytesBack(buffer, 6);
    assert buffer[6..][..4] == buffer[6..10];
    assert buffer[6..][4..] == buffer[10..];
  }

  /** The 32-bit number at an offset. */
  function Quad(buffer: seq<byte>, at: nat): u32
    requires at + 4 <= |buffer|
  {
    BigEndianBound(buffer[at..at + 4]);
    Widths();
    BigEndian(buffer[at..at + 4])
  }

  /** The first eight bytes of a message that is read: a request or a reply, for IPv4 over Ethernet. */
  predicate ArpStart(buffer: seq<byte>) {
    |buffer| >= 28 && (buffer[..8] == [0, 1, 8, 0, 6, 4, 0, 1] || buffer[..8] == [0, 1, 8, 0, 6, 4, 0, 2])
  }

  lemma StartIsSupported(buffer: seq<byte>)
    requires |buffer| >= 28
    ensures ArpStart(buffer) <==> Supported(ParseHead(Parser(buffer, NoError)).0)
  {
    HeadRead(buffer);
    assert forall k :: 0 <= k < 8 ==> buffer[..8][k] == buffer[k];
    if Supported(ParseHead(Parser(buffer, NoError)).0) {
      assert buffer[..8] == [0, 1, 8, 0, 6, 4, 0, buffer[7]];
    }
  }

  /** What is read, byte for byte: exactly which buffers hold a message, and where each field is. */
  lemma ArpAcceptance(buffer: seq<byte>)
    ensures var (m, result) := ParseArp(buffer);
            && (result == NoError <==> ArpStart(buffer))
            && (result == NoError ==> m == ArpMessage(ArpHead(1, 0x800, 6, 4, buffer[7]),
                                                      buffer[8..14], Quad(buffer, 14), buffer[18..24], Quad(buffer, 24)))
  {
    if |buffer| >= 28 {
      StartIsSupported(buffer);
      HeadRead(buffer);
      if ArpStart(buffer) {
        PartyRead(buffer[8..]);
        PartyRead(buffer[18..]);
        assert buffer[8..][..6] == buffer[8..14] && buffer[8..][6..10] == buffer[14..18] && buffer[8..][10..] == buffer[18..];
        assert buffer[18..][..6] == buffer[18..24] && buffer[18..][6..10] == buffer[24..28];
        assert Word(buffer[6], buffer[7]) == buffer[7] by { assert buffer[..8][6] == 0; }
      }
    }
  }
}
