/** The Internet checksum: 16-bit ones' complement arithmetic over a 32-bit running sum. */
module Checksums {
  import opened Integers
  import opened Parsers

  /** Bytes at even offsets are the high half of their word. */
  function Weight(b: byte, odd: bool): nat {
    if odd then b else 256 * b
  }

  predicate Odd(n: nat) {
    n % 2 == 1
  }

  /** The sum of the 16-bit words of `data`, without any overflow; `odd` says the first byte is a low half. */
  function WordSum(data: seq<byte>, odd: bool): nat {
    if data == [] then 0
    else
      var n := |data| - 1;
      WordSum(data[..n], odd) + Weight(data[n], odd != Odd(n))
  }

  /** The ones' complement residue of a sum: what repeated folding of the carries leaves. */
  function Residue(x: nat): (r: u16) {
    if x == 0 then 0 else 1 + (x - 1) % 0xffff
  }

  function Finish(sum: u32): u16 {
    0xffff - Residue(sum)
  }

  function AddBytes(sum: u32, odd: bool, data: seq<byte>): u32 {
    (sum + WordSum(data, odd)) % 0x1_0000_0000
  }

  /** The checksum of `data` on top of an initial sum. */
  function Checksum(initial: u32, data: seq<byte>): u16 {
    Finish(AddBytes(initial, false, data))
  }

  class InternetChecksum {
    var sum: u32
    var parity: bool

    constructor (initialSum: u32)
      ensures sum == initialSum && !parity
    {
      sum, parity := initialSum, false;
    }

    method Add(data: seq<byte>)
      modifies this
      ensures sum == AddBytes(old(sum), old(parity), data)
      ensures parity == (old(parity) != Odd(|data|))
    {
      var i := 0;
      while i < |data|
        invariant 0 <= i <= |data|
        invariant sum == AddBytes(old(sum), old(parity), data[..i])
        invariant parity == (old(parity) != Odd(i))
      {
        var val: nat := data[i];
        if !parity {
          val := val * 256;
        }
        ghost var before := old(sum) + WordSum(data[..i], old(parity));
        assert data[..i + 1] == data[..i] + [data[i]];
        WordSumLast(data[..i], data[i], old(parity));
        OddAdds(i, 1);
        AddWraps(before, val);
        sum := (sum + val) % 0x1_0000_0000;
        parity := !parity;
        i := i + 1;
      }
      assert data[..i] == data;
    }

    /** Fold the carries back in until 16 bits are left, and complement. */
    method Value() returns (v: u16)
      ensures v == Finish(sum)
    {
      var ret: nat := sum;
      while ret > 0xffff
        invariant Residue(ret) == Residue(sum)
        decreases ret
      {
        FoldKeepsResidue(ret);
        ret := ret / 0x1_0000 + ret % 0x1_0000;
      }
      v := 0xffff - ret;
    }
  }

  lemma AddWraps(x: nat, y: nat)
    ensures (x % 0x1_0000_0000 + y) % 0x1_0000_0000 == (x + y) % 0x1_0000_0000
  {
  }

  lemma FoldKeepsResidue(x: nat)
    requires x > 0xffff
    ensures Residue(x / 0x1_0000 + x % 0x1_0000) == Residue(x)
    ensures x / 0x1_0000 + x % 0x1_0000 < x
  {
  }

  lemma OddAdds(m: nat, n: nat)
    ensures Odd(m + n) == (Odd(m) != Odd(n))
  {
  }

  lemma WordSumLast(data: seq<byte>, b: byte, odd: bool)
    ensures WordSum(data + [b], odd) == WordSum(data, odd) + Weight(b, odd != Odd(|data|))
  {
  }

  /** A running sum does not depend on where the data is split, even at an odd offset. */
  lemma {:induction false} WordSumSplits(a: seq<byte>, b: seq<byte>, odd: bool)
    ensures WordSum(a + b, odd) == WordSum(a, odd) + WordSum(b, odd != Odd(|a|))
  {
    if b == [] {
      assert a + b == a;
    } else {
      var n := |b| - 1;
      assert a + b == (a + b[..n]) + [b[n]];
      WordSumLast(a + b[..n], b[n], odd);
      WordSumSplits(a, b[..n], odd);
      OddAdds(|a|, n);
    }
  }

  lemma EvenSplits(a: seq<byte>, b: seq<byte>)
    requires |a| % 2 == 0
    ensures WordSum(a + b, false) == WordSum(a, false) + WordSum(b, false)
  {
    WordSumSplits(a, b, false);
  }

  lemma SplitInvariance(sum: u32, odd: bool, a: seq<byte>, b: seq<byte>)
    ensures AddBytes(AddBytes(sum, odd, a), odd != Odd(|a|), b) == AddBytes(sum, odd, a + b)
  {
    WordSumSplits(a, b, odd);
    AddWraps(sum + WordSum(a, odd), WordSum(b, odd != Odd(|a|)));
  }

  /** Adding a sum's complement makes it a multiple of 0xffff, and never overflows: 0xffff divides 2^32 - 1. */
  lemma ComplementCancels(s: u32)
    ensures var v := Finish(s);
            s + v < 0x1_0000_0000 && Finish(s + v) == 0
  {
  }

  /** Filling a zeroed, even-offset field with the checksum makes the check pass, however long the data. */
  lemma FilledFieldChecks(initial: u32, pre: seq<byte>, post: seq<byte>)
    requires !Odd(|pre|)
    ensures var v := Checksum(initial, pre + [0, 0] + post);
            Checksum(initial, pre + [v / 256, v % 256] + post) == 0
  {
    hide WordSum, Finish;
    var blank := initial + WordSum(pre + [0, 0] + post, false);
    var s := AddBytes(initial, false, pre + [0, 0] + post);
    var v := Finish(s);
    FieldAdds(pre, post, v);
    AddWraps(blank, v);
    ComplementCancels(s);
  }

  lemma TwoBytes(v: u16)
    ensures WordSum([v / 256, v % 256], false) == v
  {
    var f: seq<byte> := [v / 256, v % 256];
    assert f[..1][..0] == [];
    assert WordSum(f[..1], false) == 256 * (v / 256);
    assert WordSum(f, false) == WordSum(f[..1], false) + Weight(f[1], true);
  }

  lemma TwoByteSum(v: u16)
    ensures WordSum(ToBytes(v, 2), false) == v
  {
    TwoByteField(v);
    TwoBytes(v);
  }

  lemma FourByteSum(v: u32)
    ensures WordSum(ToBytes(v, 4), false) == v / 0x1_0000 + v % 0x1_0000
  {
    FourByteField(v);
    TwoByteSum(v / 0x1_0000);
    TwoByteSum(v % 0x1_0000);
    WordSumSplits(ToBytes(v / 0x1_0000, 2), ToBytes(v % 0x1_0000, 2), false);
  }

  lemma FieldAdds(pre: seq<byte>, post: seq<byte>, v: u16)
    requires !Odd(|pre|)
    ensures WordSum(pre + [v / 256, v % 256] + post, false) == WordSum(pre + [0, 0] + post, false) + v
  {
    var f: seq<byte>, z: seq<byte> := [v / 256, v % 256], [0, 0];
    WordSumSplits(pre + f, post, false);
    WordSumSplits(pre + z, post, false);
    WordSumSplits(pre, f, false);
    WordSumSplits(pre, z, false);
    TwoBytes(v);
    TwoBytes(0);
  }

  lemma {:induction false} WordSumBound(data: seq<byte>, odd: bool)
    ensures WordSum(data, odd) <= 65280 * |data|
  {
    if data != [] { WordSumBound(data[..|data| - 1], odd); }
  }

  /** The carry out of 32 bits is lost, so a wrapped sum is exact unless carries were lost or everything was. */
  lemma WrapKeepsResidue(x: nat)
    ensures var k := x / 0x1_0000_0000;
            Residue(x % 0x1_0000_0000) == Residue(x) <==> k == 0 || (k % 0xffff == 0 && x % 0x1_0000_0000 != 0)
  {
    var k, r := x / 0x1_0000_0000, x % 0x1_0000_0000;
    if k > 0 && r > 0 {
      var a, b := (r - 1) / 0xffff, (r - 1) % 0xffff;
      var c, d := k / 0xffff, k % 0xffff;
      assert x - 1 == (k * 0x10001 + c + a) * 0xffff + (b + d);
      SameRemainder(x - 1, k * 0x10001 + c + a, b, d);
    }
  }

  lemma SameRemainder(x: nat, q: nat, b: nat, d: nat)
    requires x == q * 0xffff + (b + d) && b < 0xffff && d < 0xffff
    ensures x % 0xffff == b <==> d == 0
  {
  }

  /** The checksum of any data, however long, is the exact ones' complement sum under that condition and no other. */
  lemma ChecksumExactly(initial: u32, data: seq<byte>)
    ensures var total := initial + WordSum(data, false);
            var lost := total / 0x1_0000_0000;
            Checksum(initial, data) == 0xffff - Residue(total)
            <==> lost == 0 || (lost % 0xffff == 0 && total % 0x1_0000_0000 != 0)
  {
    WrapKeepsResidue(initial + WordSum(data, false));
  }

  lemma {:induction false} ZeroSum(n: nat, odd: bool)
    ensures WordSum(seq(n, _ => 0), odd) == 0
  {
    if n > 0 {
      assert seq<byte>(n, _ => 0)[..n - 1] == seq<byte>(n - 1, _ => 0);
      ZeroSum(n - 1, odd);
    }
  }

  /** On anything that fits a datagram the checksum is the exact ones' complement sum. */
  lemma ShortDataExact(initial: u32, data: seq<byte>)
    requires |data| <= 0xffff && initial <= 0xff_0000
    ensures Checksum(initial, data) == 0xffff - Residue(initial + WordSum(data, false))
  {
    hide WordSum;
    var words := WordSum(data, false);
    assert words <= 65280 * 0xffff by { WordSumBound(data, false); }
    assert initial + words < 0x1_0000_0000;
  }
}
