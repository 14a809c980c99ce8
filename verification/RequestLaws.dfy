/** How often an interface asks for the same address. */
module RequestLaws {
  import opened Integers
  import opened Ipv4Wire
  import opened ArpWire
  import opened Interfaces
  import opened InterfaceLaws

  /** A request for `hop` made at most 5 seconds before `now`. */
  predicate Recent(requests: seq<Request>, hop: u32, now: nat) {
    exists a <- requests :: a.ip == hop && now - a.time <= 5000
  }

  /** The request an event puts out, if any. */
  function AsksNow(i: Interface, e: Event): seq<Request> {
    if e.Give? && !Fresh(i, e.hop) && !AskedRecently(i, e.hop) then [Request(e.hop, i.time)] else []
  }

  /** Every request put out in a run. */
  function AllAsked(mac: Mac, ip: u32, events: seq<Event>): seq<Request> {
    if events == [] then []
    else
      var n := |events| - 1;
      AllAsked(mac, ip, events[..n]) + AsksNow(Run(mac, ip, events[..n]).i, events[n])
  }

  lemma AsksByFrame(i: Interface, d: Datagram, hop: u32)
    ensures Send(i, d, hop).out == i.out + [RequestFor(i, hop)] <==> AsksNow(i, Give(d, hop)) != []
  {
    if Fresh(i, hop) {
      var f := IpFrame(i.mac, i.cache[hop].mac, d);
      assert (i.out + [f])[|i.out|] == f != RequestFor(i, hop) == (i.out + [RequestFor(i, hop)])[|i.out|];
    } else if AskedRecently(i, hop) {
      assert |Send(i, d, hop).out| == |i.out|;
    }
  }

  /** A request made is still on record, or its address has been learned since. */
  predicate Accounted(i: Interface, a: Request) {
    a.time <= i.time && (a in i.requests || (a.ip in i.cache && i.cache[a.ip].time >= a.time))
  }

  predicate AskInv(i: Interface, asked: seq<Request>) {
    && (forall a <- asked :: Accounted(i, a))
    && (forall a <- i.requests :: a in asked)
  }

  lemma {:induction false} UnaskedHolds(rs: seq<Request>, ip: u32, a: Request)
    ensures a in Unasked(rs, ip) <==> a in rs && a.ip != ip
  {
    if rs != [] {
      var n := |rs| - 1;
      UnaskedHolds(rs[..n], ip, a);
      assert rs == rs[..n] + [rs[n]];
    }
  }

  lemma ArpAccounts(i: Interface, m: ArpMessage, from: Mac, a: Request)
    requires Accounted(i, a)
    ensures Accounted(RecvArp(i, m, from), a)
    ensures a in RecvArp(i, m, from).requests ==> a in i.requests
  {
    UnaskedHolds(i.requests, m.senderIp, a);
  }

  lemma ArpKeepsRecord(i: Interface, m: ArpMessage, from: Mac, a: Request)
    requires a in RecvArp(i, m, from).requests
    ensures a in i.requests
  {
    UnaskedHolds(i.requests, m.senderIp, a);
  }

  lemma ArriveAccounts(i: Interface, f: Frame, asked: seq<Request>)
    requires AskInv(i, asked)
    ensures AskInv(Recv(i, f).0, asked)
  {
    if Heard(i.mac, f).Some? {
      var m := Heard(i.mac, f).value;
      forall a | a in asked ensures Accounted(RecvArp(i, m, f.src), a) { ArpAccounts(i, m, f.src, a); }
      forall a | a in RecvArp(i, m, f.src).requests ensures a in asked { ArpKeepsRecord(i, m, f.src, a); }
    }
  }

  lemma GiveAccounts(i: Interface, d: Datagram, hop: u32, asked: seq<Request>)
    requires AskInv(i, asked)
    ensures AskInv(Send(i, d, hop), asked + AsksNow(i, Give(d, hop)))
  {
    var j, more := Send(i, d, hop), asked + AsksNow(i, Give(d, hop));
    forall a | a in more ensures Accounted(j, a) {
      if a in asked { assert Accounted(i, a); }
    }
  }

  lemma StepAccounts(i: Interface, e: Event, asked: seq<Request>)
    requires AskInv(i, asked)
    ensures AskInv(Act(i, e), asked + AsksNow(i, e))
  {
    assert asked + [] == asked;
    match e
    case Give(d, hop) => GiveAccounts(i, d, hop, asked);
    case Arrive(f) => ArriveAccounts(i, f, asked);
    case Wait(ms) =>
      forall a | a in asked ensures Accounted(Act(i, e), a) { assert Accounted(i, a); }
    case Take =>
      forall a | a in asked ensures Accounted(Act(i, e), a) { assert Accounted(i, a); }
  }

  /** A reply from the address asked for. */
  predicate Settles(i: Interface, e: Event, ip: u32) {
    && e.Arrive? && Told(i.mac, e.frame).Some?
    && Told(i.mac, e.frame).value.head.opcode == 2 && Told(i.mac, e.frame).value.senderIp == ip
  }

  /** A request comes on record when it is put out, and goes off it with a reply from its address, and not otherwise. */
  lemma RecordStep(i: Interface, e: Event, a: Request)
    ensures a in Act(i, e).requests <==> (a in i.requests && !Settles(i, e, a.ip)) || a in AsksNow(i, e)
  {
    if e.Arrive? {
      ToldIsHeard(i.mac, e.frame);
      if Told(i.mac, e.frame).Some? {
        UnaskedHolds(i.requests, Told(i.mac, e.frame).value.senderIp, a);
      }
    }
  }

  /** In every run, every request made is on record or answered, and nothing else is on record. */
  lemma {:induction false} RunAccounts(mac: Mac, ip: u32, events: seq<Event>)
    ensures AskInv(Run(mac, ip, events).i, AllAsked(mac, ip, events))
  {
    if events != [] {
      var n := |events| - 1;
      RunAccounts(mac, ip, events[..n]);
      StepAccounts(Run(mac, ip, events[..n]).i, events[n], AllAsked(mac, ip, events[..n]));
    }
  }

  /** While a hop is not known, its recent requests are all on record. */
  lemma RecentOnRecord(i: Interface, asked: seq<Request>, hop: u32)
    requires AskInv(i, asked) && !Fresh(i, hop)
    ensures Recent(asked, hop, i.time) <==> Recent(i.requests, hop, i.time)
  {
    if a :| a in asked && a.ip == hop && i.time - a.time <= 5000 {
      assert Accounted(i, a);
    }
  }

  /**
   * In every run, a datagram makes the interface ask for a hop it asked for at most 5 seconds ago if and only if the
   * hop is not known, the first request on record for it is older than that, and a later one is not.
   */
  lemma AsksTooSoon(mac: Mac, ip: u32, events: seq<Event>, d: Datagram, hop: u32)
    ensures var i := Run(mac, ip, events).i;
            && Recent(AllAsked(mac, ip, events), hop, i.time) && Send(i, d, hop).out == i.out + [RequestFor(i, hop)]
            <==> (&& !Fresh(i, hop) && Recent(i.requests, hop, i.time)
                  && Asked(i.requests, hop).Some? && i.time - Asked(i.requests, hop).value > 5000)
  {
    var i := Run(mac, ip, events).i;
    RunAccounts(mac, ip, events);
    AsksByFrame(i, d, hop);
    if !Fresh(i, hop) {
      RecentOnRecord(i, AllAsked(mac, ip, events), hop);
      NoneOnRecord(i.requests, hop, i.time);
    }
  }

  lemma {:induction false} NoneOnRecord(rs: seq<Request>, hop: u32, now: nat)
    ensures Asked(rs, hop).None? ==> !Recent(rs, hop, now)
  {
    if rs != [] && rs[0].ip != hop {
      NoneOnRecord(rs[1..], hop, now);
      assert rs == [rs[0]] + rs[1..];
    }
  }

  lemma AsksAgain(i: Interface, d: Datagram, hop: u32)
    requires hop !in i.cache
    requires i.requests == [] || (i.requests[0].ip == hop && i.time - i.requests[0].time > 5000)
    ensures var j := Send(i, d, hop);
            && j.requests == i.requests + [Request(hop, i.time)] && j.out == i.out + [RequestFor(i, hop)]
            && (j.mac, j.ip, j.cache, j.time) == (i.mac, i.ip, i.cache, i.time)
  {
  }

  lemma RunSteps(mac: Mac, ip: u32, events: seq<Event>, e: Event)
    ensures Run(mac, ip, events + [e]).i == Act(Run(mac, ip, events).i, e)
  {
    assert (events + [e])[..|events|] == events;
  }

  lemma FourSteps(mac: Mac, ip: u32, d: Datagram, hop: u32, ms: nat)
    ensures Run(mac, ip, [Give(d, hop), Wait(ms), Give(d, hop), Give(d, hop)]).i
         == Send(Send(Tick(Send(FreshInterface(mac, ip), d, hop), ms), d, hop), d, hop)
  {
    var g, w := Give(d, hop), Wait(ms);
    RunSteps(mac, ip, [], g);
    RunSteps(mac, ip, [g], w);
    RunSteps(mac, ip, [g, w], g);
    RunSteps(mac, ip, [g, w, g], g);
    assert [] + [g] == [g] && [g] + [w] == [g, w] && [g, w] + [g] == [g, w, g] && [g, w, g] + [g] == [g, w, g, g];
  }

  /** It happens: after 5 seconds without an answer, every datagram sends another request, at the same instant. */
  lemma RequestsRepeat(mac: Mac, ip: u32, hop: u32, d: Datagram)
    ensures var i := Run(mac, ip, [Give(d, hop), Wait(5001), Give(d, hop), Give(d, hop)]).i;
            && i.requests == [Request(hop, 0), Request(hop, 5001), Request(hop, 5001)]
            && i.out == [RequestFor(i, hop), RequestFor(i, hop), RequestFor(i, hop)]
  {
    FourSteps(mac, ip, d, hop, 5001);
    var i1 := Send(FreshInterface(mac, ip), d, hop);
    AsksAgain(FreshInterface(mac, ip), d, hop);
    AsksAgain(Tick(i1, 5001), d, hop);
    AsksAgain(Send(Tick(i1, 5001), d, hop), d, hop);
  }
}
