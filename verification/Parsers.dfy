/** Big-endian integers read from, and appended to, byte strings. */
module Parsers {
  import opened Integers

  datatype ParseResult =
    | NoError | BadChecksum | PacketTooShort | WrongIPVersion | HeaderTooShort | TruncatedPacket | Unsupported

  /** What is left to parse, and the first error met. */
  datatype Parser = Parser(buffer: seq<byte>, error: ParseResult) {
    predicate Ok() {
      error == NoError
    }

    /** Too short a buffer is an error, even on top of an earlier one. */
    function Checked(n: nat): Parser {
      if n > |buffer| then this.(error := PacketTooShort) else this
    }

    function Dropped(n: nat): Parser {
      var p := Checked(n);
      if p.Ok() then p.(buffer := buffer[n..]) else p
    }

    /** The integer in the next `n` bytes, or 0 after any error. */
    function Int(n: nat): nat {
      if Checked(n).Ok() then BigEndian(buffer[..n]) else 0
    }
  }

  function Pow256(n: nat): (r: nat)
    ensures r >= 1
  {
    if n == 0 then 1 else 256 * Pow256(n - 1)
  }

  function BigEndian(bytes: seq<byte>): nat {
    if bytes == [] then 0 else 256 * BigEndian(bytes[..|bytes| - 1]) + bytes[|bytes| - 1]
  }

  function Word(high: byte, low: byte): u16 {
    var h: nat := high;
    256 * h + low
  }

  function ToBytes(val: nat, n: nat): (s: seq<byte>)
    ensures |s| == n
  {
    if n == 0 then [] else ToBytes(val / 256, n - 1) + [val % 256]
  }

  function Zeros(n: nat): seq<byte> {
    seq(n, _ => 0)
  }

  function FlagBit(b: bool, weight: nat): nat {
    if b then weight else 0
  }

  predicate HasBit(b: nat, weight: nat)
    requires weight > 0
  {
    (b / weight) % 2 == 1
  }

  lemma {:induction false} BigEndianBound(bytes: seq<byte>)
    ensures BigEndian(bytes) < Pow256(|bytes|)
  {
    if bytes != [] { BigEndianBound(bytes[..|bytes| - 1]); }
  }

  lemma OneByte(b: byte)
    ensures ToBytes(b, 1) == [b]
  {
  }

  lemma TwoByteField(v: u16)
    ensures ToBytes(v, 2) == [v / 256, v % 256]
  {
  }

  lemma FourByteField(v: u32)
    ensures ToBytes(v, 4) == ToBytes(v / 0x1_0000, 2) + ToBytes(v % 0x1_0000, 2)
  {
    var high, low := v / 0x1_0000, v % 0x1_0000;
    assert v == 0x1_0000 * high + low;
    assert v / 256 == 256 * high + low / 256 && v % 256 == low % 256;
    assert ToBytes(v, 4) == ToBytes(v / 0x1_0000, 2) + [low / 256] + [low % 256];
    TwoByteField(low);
  }

  lemma Widths()
    ensures Pow256(1) == 0x100 && Pow256(2) == 0x1_0000 && Pow256(4) == 0x1_0000_0000
  {
  }

  function NextU8(p: Parser): byte {
    BigEndianBound(p.buffer[..Min(1, |p.buffer|)]);
    Widths();
    p.Int(1)
  }

  function NextU16(p: Parser): u16 {
    BigEndianBound(p.buffer[..Min(2, |p.buffer|)]);
    Widths();
    p.Int(2)
  }

  function NextU32(p: Parser): u32 {
    BigEndianBound(p.buffer[..Min(4, |p.buffer|)]);
    Widths();
    p.Int(4)
  }

  /** Reading back what was written. */
  lemma {:induction false} BytesRoundTrip(val: nat, n: nat)
    ensures BigEndian(ToBytes(val, n)) == val % Pow256(n)
  {
    if n > 0 {
      BytesRoundTrip(val / 256, n - 1);
      assert ToBytes(val, n)[..n - 1] == ToBytes(val / 256, n - 1);
      DigitSplit(val, Pow256(n - 1));
    } else {
      assert val % 1 == 0;
    }
  }

  lemma DigitSplit(val: nat, m: nat)
    requires m >= 1
    ensures 256 * ((val / 256) % m) + val % 256 == val % (256 * m)
  {
    var q, r := (val / 256) / m, (val / 256) % m;
    assert val / 256 == q * m + r;
    assert val == q * (256 * m) + (256 * r + val % 256) by {
      assert 256 * (q * m) == q * (256 * m);
    }
    assert 256 * r + val % 256 < 256 * m;
    ModUnique(val, 256 * m, q, 256 * r + val % 256);
  }

  lemma ModUnique(x: int, m: int, q: int, r: int)
    requires m > 0 && x == q * m + r && 0 <= r < m
    ensures x % m == r
  {
    var d := x / m - q;
    assert x / m * m + x % m == q * m + r;
    assert d * m == r - x % m by { assert d * m == x / m * m - q * m; }
    assert -m < r - x % m < m;
    assert d >= 1 ==> d * m >= m;
    assert d <= -1 ==> d * m <= -m;
  }

  /** Writing back what was read. */
  lemma {:induction false} IntRoundTrip(bytes: seq<byte>)
    ensures ToBytes(BigEndian(bytes), |bytes|) == bytes
  {
    if bytes != [] {
      var n := |bytes| - 1;
      IntRoundTrip(bytes[..n]);
      assert BigEndian(bytes) / 256 == BigEndian(bytes[..n]);
      assert bytes[..n] + [bytes[n]] == bytes;
    }
  }

  /** Parsing an integer off the front of what starts with its bytes. */
  lemma ParseBack(val: nat, n: nat, rest: seq<byte>)
    requires val < Pow256(n)
    ensures var p := Parser(ToBytes(val, n) + rest, NoError);
            p.Int(n) == val && p.Dropped(n) == Parser(rest, NoError)
  {
    BytesRoundTrip(val, n);
    assert (ToBytes(val, n) + rest)[..n] == ToBytes(val, n);
    assert (ToBytes(val, n) + rest)[n..] == rest;
    ModUnique(val, Pow256(n), 0, val);
  }

  /** Two reads in a row fail exactly when one read of both would, and leave the same bytes otherwise. */
  lemma DropTwice(p: Parser, n: nat, m: nat)
    ensures p.Dropped(n).Dropped(m).Ok() <==> p.Dropped(n + m).Ok()
    ensures p.Dropped(n + m).Ok() ==> p.Dropped(n).Dropped(m) == p.Dropped(n + m)
  {
  }

  lemma ByteAt(buffer: seq<byte>, i: nat)
    requires i < |buffer|
    ensures NextU8(Parser(buffer[i..], NoError)) == buffer[i]
  {
  }

  lemma WordAt(buffer: seq<byte>, i: nat)
    requires i + 1 < |buffer|
    ensures NextU16(Parser(buffer[i..], NoError)) == Word(buffer[i], buffer[i + 1])
  {
    var w := buffer[i..][..2];
    assert w[..1] == [buffer[i]];
    assert [buffer[i]][..0] == [];
    assert BigEndian([buffer[i]]) == buffer[i];
  }

  class NetParser {
    var buffer: seq<byte>
    var error: ParseResult

    ghost function Model(): Parser
      reads this
    {
      Parser(buffer, error)
    }

    constructor (buffer: seq<byte>)
      ensures Model() == Parser(buffer, NoError)
    {
      this.buffer, error := buffer, NoError;
    }

    method CheckSize(size: nat)
      modifies this`error
      ensures Model() == old(Model()).Checked(size)
    {
      if size > |buffer| {
        error := PacketTooShort;
      }
    }

    method ParseInt(len: nat) returns (ret: nat)
      modifies this
      ensures ret == old(Model()).Int(len) && Model() == old(Model()).Dropped(len)
    {
      CheckSize(len);
      if error != NoError {
        return 0;
      }
      ret := 0;
      var i := 0;
      while i < len
        invariant 0 <= i <= len
        invariant ret == BigEndian(buffer[..i])
      {
        assert buffer[..i + 1][..i] == buffer[..i];
        ret := ret * 256;
        ret := ret + buffer[i];
        i := i + 1;
      }
      buffer := buffer[len..];
    }

    method U8() returns (v: byte)
      modifies this
      ensures v == NextU8(old(Model())) && Model() == old(Model()).Dropped(1)
    {
      ghost var u := NextU8(Model());
      v := ParseInt(1);
    }

    method U16() returns (v: u16)
      modifies this
      ensures v == NextU16(old(Model())) && Model() == old(Model()).Dropped(2)
    {
      ghost var u := NextU16(Model());
      v := ParseInt(2);
    }

    method U32() returns (v: u32)
      modifies this
      ensures v == NextU32(old(Model())) && Model() == old(Model()).Dropped(4)
    {
      ghost var u := NextU32(Model());
      v := ParseInt(4);
    }

    method RemovePrefix(n: nat)
      modifies this
      ensures Model() == old(Model()).Dropped(n)
    {
      CheckSize(n);
      if error != NoError {
        return;
      }
      buffer := buffer[n..];
    }
  }

  /** `val` shifted right by `k` bytes. */
  function Shifted(val: nat, k: nat): nat {
    if k == 0 then val else Shifted(val, k - 1) / 256
  }

  /** Append the bytes of `val`, most significant first, each shifted down on its own. */
  method UnparseInt(s: seq<byte>, val: nat, len: nat) returns (r: seq<byte>)
    ensures r == s + ToBytes(val, len)
  {
    r := s;
    var i := 0;
    while i < len
      invariant 0 <= i <= len
      invariant r == s + ToBytes(Shifted(val, len - i), i)
    {
      var theByte := Shifted(val, len - i - 1) % 256;
      r := r + [theByte];
      i := i + 1;
    }
  }

  method UnparseU8(s: seq<byte>, val: byte) returns (r: seq<byte>)
    ensures r == s + ToBytes(val, 1)
  {
    r := UnparseInt(s, val, 1);
  }

  method UnparseU16(s: seq<byte>, val: u16) returns (r: seq<byte>)
    ensures r == s + ToBytes(val, 2)
  {
    r := UnparseInt(s, val, 2);
  }

  method UnparseU32(s: seq<byte>, val: u32) returns (r: seq<byte>)
    ensures r == s + ToBytes(val, 4)
  {
    r := UnparseInt(s, val, 4);
  }
}
