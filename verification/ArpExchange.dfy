/** Two interfaces on one link: how an address gets resolved, and how a request can upset the order. */
module ArpExchanges {
  import opened Integers
  import opened Ipv4Wire
  import opened ArpWire
  import opened Interfaces
  import opened InterfaceLaws

  lemma ArpHeard(mac: Mac, src: Mac, dst: Mac, m: ArpMessage)
    requires Supported(m.head) && (dst == mac || dst == ETHERNET_BROADCAST)
    ensures Heard(mac, ArpFrame(src, dst, m)) == Some(m)
  {
    ArpRoundTrip(m);
  }

  lemma RecvArpFrame(i: Interface, src: Mac, dst: Mac, m: ArpMessage)
    requires Supported(m.head) && (dst == i.mac || dst == ETHERNET_BROADCAST)
    ensures Recv(i, ArpFrame(src, dst, m)).0 == RecvArp(i, m, src)
  {
    ArpHeard(i.mac, src, dst, m);
  }

  function Asking(i: Interface, ip: u32): ArpMessage {
    ArpMessage(Head(OPCODE_REQUEST), i.mac, i.ip, NO_MAC, ip)
  }

  function Answering(i: Interface, m: ArpMessage): ArpMessage {
    ArpMessage(Head(OPCODE_REPLY), i.mac, i.ip, m.senderMac, m.senderIp)
  }

  /** The asked interface learns who asked and puts its answer out. */
  lemma Answered(a: Interface, b: Interface)
    ensures var b' := Recv(b, RequestFor(a, b.ip)).0;
            && b'.out == b.out + [ArpFrame(b.mac, a.mac, Answering(b, Asking(a, b.ip)))]
            && b'.mac == b.mac && Fresh(b', a.ip) && b'.cache[a.ip].mac == a.mac
  {
    RecvArpFrame(b, a.mac, ETHERNET_BROADCAST, Asking(a, b.ip));
  }

  /** The answer sends off everything that waited for its sender, in order, and leaves nothing waiting. */
  lemma Resolved(a: Interface, b: Interface)
    ensures var a' := Recv(a, ArpFrame(b.mac, a.mac, Answering(b, Asking(a, b.ip)))).0;
            && a'.out == a.out + FramesTo(a.mac, b.mac, ForHop(a.unsent, b.ip))
            && ForHop(a'.unsent, b.ip) == []
            && Fresh(a', b.ip) && a'.cache[b.ip].mac == b.mac
  {
    RecvArpFrame(a, b.mac, a.mac, Answering(b, Asking(a, b.ip)));
    NothingLeft(a.unsent, b.ip, b.ip);
  }

  /** A datagram that can be written and read back. */
  predicate Proper(d: Datagram) {
    Printable(d.header) && d.header.len == 4 * d.header.hlen + |d.payload|
  }

  /** A proper datagram's frame is handed up by the interface it is addressed to. */
  lemma FrameDelivers(b: Interface, src: Mac, d: Datagram)
    requires Proper(d)
    ensures Recv(b, IpFrame(src, b.mac, d)) == (b, Some(Datagram(Sealed(d.header), d.payload)))
  {
    DatagramRoundTrip(d);
  }

  /** What an interface hands up for each frame in turn. */
  function HandedUp(i: Interface, fs: seq<Frame>): seq<Option<Datagram>>
    decreases |fs|
  {
    if fs == [] then []
    else [Recv(i, fs[0]).1] + HandedUp(Recv(i, fs[0]).0, fs[1..])
  }

  /** The datagrams as they are read back, checksums filled in. */
  function ReadBack(ps: seq<Pending>): seq<Option<Datagram>>
    requires AllProper(ps)
  {
    if ps == [] then []
    else [Some(Datagram(Sealed(ps[0].dgram.header), ps[0].dgram.payload))] + ReadBack(ps[1..])
  }

  predicate AllProper(ps: seq<Pending>) {
    forall k :: 0 <= k < |ps| ==> Proper(ps[k].dgram)
  }

  lemma {:induction false} FirstFrame(src: Mac, dst: Mac, ps: seq<Pending>)
    requires ps != []
    ensures FramesTo(src, dst, ps) == [IpFrame(src, dst, ps[0].dgram)] + FramesTo(src, dst, ps[1..])
  {
    if |ps| > 1 {
      var n := |ps| - 1;
      FirstFrame(src, dst, ps[..n]);
      assert ps[..n][1..] == ps[1..][..n - 1];
    }
  }

  lemma {:induction false} AllHandedUp(b: Interface, src: Mac, ps: seq<Pending>)
    requires AllProper(ps)
    ensures HandedUp(b, FramesTo(src, b.mac, ps)) == ReadBack(ps)
  {
    if ps != [] {
      FirstFrame(src, b.mac, ps);
      FrameDelivers(b, src, ps[0].dgram);
      AllHandedUp(b, src, ps[1..]);
      assert FramesTo(src, b.mac, ps)[1..] == FramesTo(src, b.mac, ps[1..]);
    }
  }

  /** Sending to an unknown hop queues the datagram and asks for the hop. */
  lemma Queued(a: Interface, d: Datagram, hop: u32)
    requires !Fresh(a, hop) && !AskedRecently(a, hop)
    ensures var a1 := Send(a, d, hop);
            && a1.out == a.out + [RequestFor(a, hop)] && a1.unsent == a.unsent + [Pending(d, hop)]
            && a1.mac == a.mac && a1.ip == a.ip
  {
  }

  /**
   * Sending to an unknown hop resolves: once the request has reached the hop and its answer has come back, everything
   * that waited for the hop, the new datagram last, has been put out in order, and the hop hands each one up intact.
   */
  lemma Resolution(a: Interface, b: Interface, d: Datagram)
      returns (a1: Interface, request: Frame, b1: Interface, reply: Frame, a2: Interface, frames: seq<Frame>)
    requires !Fresh(a, b.ip) && !AskedRecently(a, b.ip)
    requires AllProper(ForHop(a.unsent, b.ip) + [Pending(d, b.ip)])
    ensures a1 == Send(a, d, b.ip) && a1.out == a.out + [request]
    ensures b1 == Recv(b, request).0 && b1.out == b.out + [reply]
    ensures a2 == Recv(a1, reply).0 && a2.out == a1.out + frames && ForHop(a2.unsent, b.ip) == []
    ensures HandedUp(b1, frames) == ReadBack(ForHop(a.unsent, b.ip) + [Pending(d, b.ip)])
  {
    a1, request := Send(a, d, b.ip), RequestFor(a, b.ip);
    Queued(a, d, b.ip);
    b1, reply := Recv(b, request).0, ArpFrame(b.mac, a.mac, Answering(b, Asking(a, b.ip)));
    Answered(a, b);
    a2 := Recv(a1, reply).0;
    Resolved(a1, b);
    OneWaits(a.unsent, Pending(d, b.ip), b.ip);
    frames := FramesTo(a.mac, b.mac, ForHop(a1.unsent, b.ip));
    AllHandedUp(b1, a.mac, ForHop(a1.unsent, b.ip));
  }

  /** Any request of the hop teaches its address but leaves what waits for it queued, so a later datagram overtakes. */
  lemma RequestOvertakes(mac: Mac, ip: u32, peer: Interface, target: u32, first: Datagram, second: Datagram)
    ensures var h := Run(mac, ip, [Give(first, peer.ip), Arrive(RequestFor(peer, target)), Give(second, peer.ip)]);
            && h.i.unsent == [Pending(first, peer.ip)]
            && h.log == [Emission(Pending(second, peer.ip), peer.mac, 2)]
  {
    var e0, e1, e2 := Give(first, peer.ip), Arrive(RequestFor(peer, target)), Give(second, peer.ip);
    var i0 := FreshInterface(mac, ip);
    var i1 := Send(i0, first, peer.ip);
    var i2 := Recv(i1, RequestFor(peer, target)).0;
    RecvArpFrame(i1, peer.mac, ETHERNET_BROADCAST, Asking(peer, target));
    assert i2 == Answer(Learn(i1, Asking(peer, target)), Asking(peer, target), peer.mac);
    ArpHeard(mac, peer.mac, ETHERNET_BROADCAST, Asking(peer, target));
    assert [e0][..0] == [];
    assert Run(mac, ip, [e0]) == History(i1, [], []);
    assert [e0, e1][..1] == [e0];
    assert Run(mac, ip, [e0, e1]) == History(i2, [], []);
    assert [e0, e1, e2][..2] == [e0, e1];
  }
}
