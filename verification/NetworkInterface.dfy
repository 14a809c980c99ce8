/** The network interface object, proved against its value model. */
module NetworkInterfaces {
  import opened Integers
  import opened Parsers
  import opened Ipv4Wire
  import opened ArpWire
  import opened Interfaces

  lemma SplitAt(ps: seq<Pending>, k: nat, hop: u32)
    requires k < |ps|
    ensures ForHop(ps[..k + 1], hop) == (if ps[k].hop == hop then ForHop(ps[..k], hop) + [ps[k]] else ForHop(ps[..k], hop))
    ensures NotForHop(ps[..k + 1], hop) == (if ps[k].hop == hop then NotForHop(ps[..k], hop) else NotForHop(ps[..k], hop) + [ps[k]])
  {
    assert ps[..k + 1][..k] == ps[..k];
  }

  /** The walk at entry `k`: what is before it was kept, and from it on nothing has been looked at. */
  ghost predicate Walked(was: seq<Pending>, done: nat, ip: u32, now: seq<Pending>, k: nat) {
    && done <= |was| && k <= |now|
    && now[..k] == NotForHop(was[..done], ip) && now[k..] == was[done..]
  }

  lemma WalkOn(was: seq<Pending>, done: nat, ip: u32, now: seq<Pending>, k: nat)
    requires Walked(was, done, ip, now, k) && k < |now|
    ensures done < |was| && now[k] == was[done]
    ensures now[k].hop == ip ==> Walked(was, done + 1, ip, now[..k] + now[k + 1..], k)
    ensures now[k].hop != ip ==> Walked(was, done + 1, ip, now, k + 1)
  {
    assert now[k] == now[k..][0] == was[done];
    assert was[done + 1..] == now[k..][1..] == now[k + 1..];
    SplitAt(was, done, ip);
    if now[k].hop == ip {
      assert (now[..k] + now[k + 1..])[..k] == now[..k];
      assert (now[..k] + now[k + 1..])[k..] == now[k + 1..];
    } else {
      assert now[..k + 1] == now[..k] + [now[k]];
    }
  }

  /** The frames released by the first `done` entries. */
  ghost function Released(src: Mac, dst: Mac, was: seq<Pending>, done: nat, ip: u32): seq<Frame>
    requires done <= |was|
  {
    FramesTo(src, dst, ForHop(was[..done], ip))
  }

  lemma ReleasedOn(src: Mac, dst: Mac, was: seq<Pending>, done: nat, ip: u32)
    requires done < |was|
    ensures Released(src, dst, was, done + 1, ip)
         == Released(src, dst, was, done, ip) + (if was[done].hop == ip then [IpFrame(src, dst, was[done].dgram)] else [])
  {
    SplitAt(was, done, ip);
    var ps := ForHop(was[..done], ip);
    assert (ps + [was[done]])[..|ps|] == ps;
  }

  ghost predicate AllWritable(ps: seq<Pending>) {
    forall k :: 0 <= k < |ps| ==> Writable(ps[k].dgram)
  }

  lemma {:induction false} KeptWritable(ps: seq<Pending>, ip: u32)
    requires AllWritable(ps)
    ensures AllWritable(NotForHop(ps, ip))
  {
    if ps != [] { KeptWritable(ps[..|ps| - 1], ip); }
  }

  lemma RequestAt(rs: seq<Request>, k: nat, ip: u32)
    requires k < |rs|
    ensures Unasked(rs[..k + 1], ip) == (if rs[k].ip == ip then Unasked(rs[..k], ip) else Unasked(rs[..k], ip) + [rs[k]])
  {
    assert rs[..k + 1][..k] == rs[..k];
  }

  class NetworkInterface {
    const ethernetAddress: Mac
    const ipAddress: u32
    var unsent: seq<Pending>
    var arpReq: seq<Request>
    var ipEthernetMap: map<u32, Learned>
    var framesOut: seq<Frame>
    var time: nat

    ghost function Model(): Interface
      reads this
    {
      Interface(ethernetAddress, ipAddress, unsent, arpReq, ipEthernetMap, framesOut, time)
    }

    /** Whatever waits can be written out once it is released. */
    ghost predicate Valid()
      reads this
    {
      AllWritable(unsent)
    }

    constructor (ethernetAddress: Mac, ipAddress: u32)
      ensures Valid() && Model() == FreshInterface(ethernetAddress, ipAddress)
    {
      this.ethernetAddress, this.ipAddress := ethernetAddress, ipAddress;
      unsent, arpReq, ipEthernetMap, framesOut, time := [], [], map[], [], 0;
    }

    method FindRequest(ip: u32) returns (asked: Option<nat>)
      ensures asked == Asked(arpReq, ip)
    {
      var k := 0;
      while k < |arpReq| && arpReq[k].ip != ip
        invariant 0 <= k <= |arpReq|
        invariant Asked(arpReq, ip) == Asked(arpReq[k..], ip)
      {
        assert arpReq[k..][1..] == arpReq[k + 1..];
        k := k + 1;
      }
      asked := if k < |arpReq| then Some(arpReq[k].time) else None;
    }

    method SendRequest(ip: u32)
      requires Valid()
      modifies this
      ensures Valid() && Model() == Ask(old(Model()), ip)
    {
      var asked := FindRequest(ip);
      if asked.Some? && time - asked.value <= MAX_RETRY_TIME {
        return;
      }
      var msg := ArpMessage(Head(OPCODE_REQUEST), ethernetAddress, ipAddress, NO_MAC, ip);
      var bytes := WriteArp(msg);
      arpReq := arpReq + [Request(ip, time)];
      framesOut := framesOut + [Frame(ETHERNET_BROADCAST, ethernetAddress, TYPE_ARP, bytes.value)];
    }

    method Transmit(d: Datagram, mac: Mac)
      requires Writable(d)
      modifies this`framesOut
      ensures framesOut == old(framesOut) + [IpFrame(ethernetAddress, mac, d)]
    {
      var bytes := WriteDatagram(d);
      framesOut := framesOut + [Frame(mac, ethernetAddress, TYPE_IPV4, bytes.value)];
    }

    method SendDatagram(d: Datagram, nextHop: u32)
      requires Valid() && Writable(d)
      modifies this
      ensures Valid() && Model() == Send(old(Model()), d, nextHop)
    {
      if nextHop !in ipEthernetMap || time - ipEthernetMap[nextHop].time > MAX_CACHE_TIME {
        unsent := unsent + [Pending(d, nextHop)];
        SendRequest(nextHop);
      } else {
        Transmit(d, ipEthernetMap[nextHop].mac);
      }
    }

    /** Send entry `k` and erase it. */
    method ReleaseEntry(k: nat, mac: Mac)
      requires k < |unsent| && Writable(unsent[k].dgram)
      modifies this`unsent, this`framesOut
      ensures unsent == old(unsent[..k] + unsent[k + 1..])
      ensures framesOut == old(framesOut) + [IpFrame(ethernetAddress, mac, old(unsent[k].dgram))]
    {
      Transmit(unsent[k].dgram, mac);
      unsent := unsent[..k] + unsent[k + 1..];
    }

    /** Send what waited for `ip` and erase it, walking the queue once. */
    method ReleaseUnsent(ip: u32, mac: Mac)
      requires Valid()
      modifies this`unsent, this`framesOut
      ensures Valid()
      ensures unsent == NotForHop(old(unsent), ip)
      ensures framesOut == old(framesOut) + FramesTo(ethernetAddress, mac, ForHop(old(unsent), ip))
    {
      var k := 0;
      ghost var done := 0;
      ghost var was := unsent;
      while k < |unsent|
        invariant Walked(was, done, ip, unsent, k)
        invariant framesOut == old(framesOut) + Released(ethernetAddress, mac, was, done, ip)
        decreases |unsent| - k
      {
        WalkOn(was, done, ip, unsent, k);
        ReleasedOn(ethernetAddress, mac, was, done, ip);
        if unsent[k].hop == ip {
          ReleaseEntry(k, mac);
        } else {
          k := k + 1;
        }
        done := done + 1;
      }
      assert was[..done] == was && unsent[..k] == unsent;
      KeptWritable(was, ip);
    }

    method EraseRequests(ip: u32)
      modifies this`arpReq
      ensures arpReq == Unasked(old(arpReq), ip)
    {
      var k := 0;
      ghost var done := 0;
      ghost var was := arpReq;
      while k < |arpReq|
        invariant 0 <= k <= |arpReq| && 0 <= done <= |was|
        invariant arpReq[..k] == Unasked(was[..done], ip) && arpReq[k..] == was[done..]
        decreases |arpReq| - k
      {
        assert arpReq[k] == arpReq[k..][0] == was[done];
        assert was[done + 1..] == arpReq[k..][1..] == arpReq[k + 1..];
        RequestAt(was, done, ip);
        if arpReq[k].ip == ip {
          arpReq := arpReq[..k] + arpReq[k + 1..];
        } else {
          assert arpReq[..k + 1] == arpReq[..k] + [arpReq[k]];
          k := k + 1;
        }
        done := done + 1;
      }
      assert was[..done] == was && arpReq[..k] == arpReq;
    }

    method HandleArp(msg: ArpMessage, from: Mac)
      requires Valid()
      modifies this
      ensures Valid() && Model() == RecvArp(old(Model()), msg, from)
    {
      ipEthernetMap := ipEthernetMap[msg.senderIp := Learned(msg.senderMac, time)];
      if msg.head.opcode == OPCODE_REQUEST && msg.targetIp == ipAddress {
        var reply := ArpMessage(Head(OPCODE_REPLY), ethernetAddress, ipAddress, msg.senderMac, msg.senderIp);
        var bytes := WriteArp(reply);
        framesOut := framesOut + [Frame(from, ethernetAddress, TYPE_ARP, bytes.value)];
      }
      if msg.head.opcode == OPCODE_REPLY {
        ReleaseUnsent(msg.senderIp, msg.senderMac);
        EraseRequests(msg.senderIp);
      }
    }

    method RecvFrame(f: Frame) returns (r: Option<Datagram>)
      requires Valid()
      modifies this
      ensures Valid() && (Model(), r) == Recv(old(Model()), f)
    {
      if f.dst != ETHERNET_BROADCAST && f.dst != ethernetAddress {
        return None;
      }
      if f.kind == TYPE_IPV4 {
        var d, result := ReadDatagram(f.payload);
        return if result == NoError then Some(d) else None;
      }
      if f.kind == TYPE_ARP {
        var msg, result := ReadArp(f.payload);
        if result != NoError {
          return None;
        }
        HandleArp(msg, f.src);
      }
      r := None;
    }

    method Tick(ms: nat)
      requires Valid()
      modifies this`time
      ensures Valid() && Model() == Interfaces.Tick(old(Model()), ms)
    {
      time := time + ms;
    }
  }
}
