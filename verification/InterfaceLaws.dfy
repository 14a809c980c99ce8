/** What a network interface keeps over every run: no datagram is lost, duplicated or sent to a stale address. */
module InterfaceLaws {
  import opened Integers
  import opened Parsers
  import opened Ipv4Wire
  import opened ArpWire
  import opened Interfaces

  /** What happens to an interface; its owner takes the frames it has queued. */
  datatype Event = Give(dgram: Datagram, hop: u32) | Arrive(frame: Frame) | Wait(ms: nat) | Take

  /** A datagram leaving for `to` at event number `when`. */
  datatype Emission = Emission(p: Pending, to: Mac, when: nat)

  datatype History = History(i: Interface, taken: seq<Frame>, log: seq<Emission>)

  /** A mapping announced by an ARP message, and the time it was heard. */
  datatype Lesson = Lesson(ip: u32, mac: Mac, at: nat)

  // What the events alone say.

  /** The ARP message a frame brings an interface: addressed to it or to everyone, and a whole request or reply. */
  function Told(mac: Mac, f: Frame): Option<ArpMessage> {
    if (f.dst == mac || f.dst == [0xff, 0xff, 0xff, 0xff, 0xff, 0xff]) && f.kind == 0x806 && ArpStart(f.payload) then
      Some(ArpMessage(ArpHead(1, 0x800, 6, 4, f.payload[7]),
                      f.payload[8..14], Quad(f.payload, 14), f.payload[18..24], Quad(f.payload, 24)))
    else None
  }

  lemma ToldIsHeard(mac: Mac, f: Frame)
    ensures Told(mac, f) == Heard(mac, f)
  {
    ArpAcceptance(f.payload);
  }

  /** A frame for somebody else changes nothing and hands nothing up. */
  lemma OthersIgnored(i: Interface, f: Frame)
    requires f.dst != i.mac && f.dst != [0xff, 0xff, 0xff, 0xff, 0xff, 0xff]
    ensures Recv(i, f) == (i, None)
  {
  }

  /** A frame hands a datagram up exactly when it is for this interface or for everyone and holds that datagram. */
  lemma HandsUpExactly(i: Interface, f: Frame, d: Datagram)
    ensures Recv(i, f).1 == Some(d)
            <==> (&& (f.dst == i.mac || f.dst == [0xff, 0xff, 0xff, 0xff, 0xff, 0xff])
                  && f.kind == 0x800 && ParseDatagram(f.payload) == (d, NoError))
    ensures f.kind != 0x806 ==> Recv(i, f).0 == i
  {
    hide ParseDatagram;
  }

  function Given(events: seq<Event>): seq<Pending> {
    if events == [] then []
    else
      var n := |events| - 1;
      match events[n]
      case Give(d, hop) => Given(events[..n]) + [Pending(d, hop)]
      case _ => Given(events[..n])
  }

  function Clock(events: seq<Event>): nat {
    if events == [] then 0
    else
      var n := |events| - 1;
      match events[n]
      case Wait(ms) => Clock(events[..n]) + ms
      case _ => Clock(events[..n])
  }

  function Lessons(mac: Mac, events: seq<Event>): seq<Lesson> {
    if events == [] then []
    else
      var n := |events| - 1;
      Lessons(mac, events[..n]) + LessonOf(mac, events[n], Clock(events[..n]))
  }

  function LessonOf(mac: Mac, e: Event, now: nat): seq<Lesson> {
    if e.Arrive? && Told(mac, e.frame).Some? then
      var m := Told(mac, e.frame).value;
      [Lesson(m.senderIp, m.senderMac, now)]
    else []
  }

  function Latest(lessons: seq<Lesson>, ip: u32): Option<Lesson> {
    if lessons == [] then None
    else
      var n := |lessons| - 1;
      if lessons[n].ip == ip then Some(lessons[n]) else Latest(lessons[..n], ip)
  }

  // What the interface does.

  function Direct(i: Interface, p: Pending, when: nat): seq<Emission> {
    if Fresh(i, p.hop) then [Emission(p, i.cache[p.hop].mac, when)] else []
  }

  function Emissions(ps: seq<Pending>, to: Mac, when: nat): seq<Emission> {
    if ps == [] then [] else Emissions(ps[..|ps| - 1], to, when) + [Emission(ps[|ps| - 1], to, when)]
  }

  function Freed(i: Interface, f: Frame, when: nat): seq<Emission> {
    if Told(i.mac, f).Some? && Told(i.mac, f).value.head.opcode == OPCODE_REPLY then
      var m := Told(i.mac, f).value;
      Emissions(ForHop(i.unsent, m.senderIp), m.senderMac, when)
    else []
  }

  function NewLog(i: Interface, e: Event, when: nat): seq<Emission> {
    match e
    case Give(d, hop) => Direct(i, Pending(d, hop), when)
    case Arrive(f) => Freed(i, f, when)
    case _ => []
  }

  function Act(i: Interface, e: Event): Interface {
    match e
    case Give(d, hop) => Send(i, d, hop)
    case Arrive(f) => Recv(i, f).0
    case Wait(ms) => Tick(i, ms)
    case Take => i.(out := [])
  }

  function Run(mac: Mac, ip: u32, events: seq<Event>): History {
    if events == [] then History(FreshInterface(mac, ip), [], [])
    else
      var n := |events| - 1;
      var h := Run(mac, ip, events[..n]);
      History(Act(h.i, events[n]),
              if events[n].Take? then h.taken + h.i.out else h.taken,
              h.log + NewLog(h.i, events[n], n))
  }

  // Sequences.

  function IpFrames(fs: seq<Frame>): seq<Frame> {
    if fs == [] then []
    else
      var n := |fs| - 1;
      if fs[n].kind == 0x800 then IpFrames(fs[..n]) + [fs[n]] else IpFrames(fs[..n])
  }

  function Sent(mac: Mac, log: seq<Emission>): seq<Frame> {
    if log == [] then []
    else
      var n := |log| - 1;
      Sent(mac, log[..n]) + [Frame(log[n].to, mac, 0x800, Bytes(log[n].p.dgram))]
  }

  function Pairs(log: seq<Emission>): seq<Pending> {
    if log == [] then [] else Pairs(log[..|log| - 1]) + [log[|log| - 1].p]
  }

  lemma {:induction false} IpFramesJoin(a: seq<Frame>, b: seq<Frame>)
    ensures IpFrames(a + b) == IpFrames(a) + IpFrames(b)
  {
    if b == [] {
      assert a + b == a;
    } else {
      assert (a + b)[..|a + b| - 1] == a + b[..|b| - 1];
      IpFramesJoin(a, b[..|b| - 1]);
    }
  }

  lemma {:induction false} SentJoin(mac: Mac, a: seq<Emission>, b: seq<Emission>)
    ensures Sent(mac, a + b) == Sent(mac, a) + Sent(mac, b)
  {
    if b == [] {
      assert a + b == a;
    } else {
      assert (a + b)[..|a + b| - 1] == a + b[..|b| - 1];
      SentJoin(mac, a, b[..|b| - 1]);
    }
  }

  lemma {:induction false} PairsJoin(a: seq<Emission>, b: seq<Emission>)
    ensures Pairs(a + b) == Pairs(a) + Pairs(b)
  {
    if b == [] {
      assert a + b == a;
    } else {
      assert (a + b)[..|a + b| - 1] == a + b[..|b| - 1];
      PairsJoin(a, b[..|b| - 1]);
    }
  }

  lemma {:induction false} ForHopJoin(a: seq<Pending>, b: seq<Pending>, hop: u32)
    ensures ForHop(a + b, hop) == ForHop(a, hop) + ForHop(b, hop)
  {
    if b == [] {
      assert a + b == a;
    } else {
      assert (a + b)[..|a + b| - 1] == a + b[..|b| - 1];
      ForHopJoin(a, b[..|b| - 1], hop);
    }
  }

  lemma {:induction false} EmissionsAt(ps: seq<Pending>, to: Mac, when: nat)
    ensures |Emissions(ps, to, when)| == |ps|
    ensures forall k :: 0 <= k < |ps| ==> Emissions(ps, to, when)[k] == Emission(ps[k], to, when)
  {
    if ps != [] { EmissionsAt(ps[..|ps| - 1], to, when); }
  }

  lemma {:induction false} EmittedPairs(ps: seq<Pending>, to: Mac, when: nat)
    ensures Pairs(Emissions(ps, to, when)) == ps
  {
    if ps != [] {
      var front := Emissions(ps[..|ps| - 1], to, when);
      EmittedPairs(ps[..|ps| - 1], to, when);
      assert Emissions(ps, to, when)[..|front|] == front;
    }
  }

  /** Released datagrams leave as IPv4 frames, in queue order, and each is logged once. */
  lemma {:induction false} EmittedFrames(mac: Mac, ps: seq<Pending>, to: Mac, when: nat)
    ensures Sent(mac, Emissions(ps, to, when)) == FramesTo(mac, to, ps)
  {
    if ps != [] {
      var front := Emissions(ps[..|ps| - 1], to, when);
      EmittedFrames(mac, ps[..|ps| - 1], to, when);
      assert Emissions(ps, to, when)[..|front|] == front;
    }
  }

  lemma {:induction false} ReleasedAreIp(mac: Mac, ps: seq<Pending>, to: Mac)
    ensures IpFrames(FramesTo(mac, to, ps)) == FramesTo(mac, to, ps)
  {
    if ps != [] {
      var front := FramesTo(mac, to, ps[..|ps| - 1]);
      ReleasedAreIp(mac, ps[..|ps| - 1], to);
      assert FramesTo(mac, to, ps)[..|front|] == front;
    }
  }

  // Frames.

  lemma SendFrames(i: Interface, d: Datagram, hop: u32, when: nat)
    ensures IpFrames(Send(i, d, hop).out) == IpFrames(i.out) + Sent(i.mac, Direct(i, Pending(d, hop), when))
  {
  }

  lemma AnswerFrames(i: Interface, m: ArpMessage, from: Mac)
    ensures IpFrames(Answer(i, m, from).out) == IpFrames(i.out)
  {
  }

  lemma ReleaseFrames(i: Interface, m: ArpMessage, when: nat)
    ensures IpFrames(Release(i, m).out) == IpFrames(i.out) +
              (if m.head.opcode == OPCODE_REPLY
               then Sent(i.mac, Emissions(ForHop(i.unsent, m.senderIp), m.senderMac, when)) else [])
  {
    var ps := ForHop(i.unsent, m.senderIp);
    EmittedFrames(i.mac, ps, m.senderMac, when);
    ReleasedAreIp(i.mac, ps, m.senderMac);
    IpFramesJoin(i.out, FramesTo(i.mac, m.senderMac, ps));
  }

  lemma RecvFrames(i: Interface, f: Frame, when: nat)
    ensures IpFrames(Recv(i, f).0.out) == IpFrames(i.out) + Sent(i.mac, Freed(i, f, when))
  {
    ToldIsHeard(i.mac, f);
    if Told(i.mac, f).Some? {
      var m := Told(i.mac, f).value;
      AnswerFrames(Learn(i, m), m, f.src);
      ReleaseFrames(Answer(Learn(i, m), m, f.src), m, when);
    }
  }

  /** The IPv4 frames ever put out are exactly the logged ones, in order. */
  lemma {:induction false} FramesMatch(mac: Mac, ip: u32, events: seq<Event>)
    ensures var h := Run(mac, ip, events);
            h.i.mac == mac && IpFrames(h.taken + h.i.out) == Sent(mac, h.log)
  {
    if events != [] {
      var n := |events| - 1;
      FramesMatch(mac, ip, events[..n]);
      var h := Run(mac, ip, events[..n]);
      StepFrames(h, events[n], n);
      SentJoin(mac, h.log, NewLog(h.i, events[n], n));
    } else {
      assert Run(mac, ip, events).taken + [] == [];
    }
  }

  lemma ActFrames(i: Interface, e: Event, when: nat)
    ensures Act(i, e).mac == i.mac
    ensures !e.Take? ==> IpFrames(Act(i, e).out) == IpFrames(i.out) + Sent(i.mac, NewLog(i, e, when))
  {
    match e
    case Give(d, hop) => SendFrames(i, d, hop, when);
    case Arrive(f) => RecvFrames(i, f, when);
    case _ =>
  }

  lemma StepFrames(h: History, e: Event, when: nat)
    ensures Act(h.i, e).mac == h.i.mac
    ensures IpFrames((if e.Take? then h.taken + h.i.out else h.taken) + Act(h.i, e).out)
         == IpFrames(h.taken + h.i.out) + Sent(h.i.mac, NewLog(h.i, e, when))
  {
    ActFrames(h.i, e, when);
    if e.Take? {
      assert h.taken + h.i.out + [] == h.taken + h.i.out;
    } else {
      IpFramesJoin(h.taken, h.i.out);
      IpFramesJoin(h.taken, Act(h.i, e).out);
    }
  }

  // Conservation.

  lemma {:induction false} QueueParts(ps: seq<Pending>, hop: u32)
    ensures multiset(ps) == multiset(ForHop(ps, hop)) + multiset(NotForHop(ps, hop))
  {
    if ps != [] {
      var n := |ps| - 1;
      QueueParts(ps[..n], hop);
      assert ps == ps[..n] + [ps[n]];
    }
  }

  lemma GiveConserves(i: Interface, d: Datagram, hop: u32, when: nat)
    ensures multiset(Send(i, d, hop).unsent) + multiset(Pairs(Direct(i, Pending(d, hop), when)))
         == multiset(i.unsent) + multiset{Pending(d, hop)}
  {
  }

  /** A frame changes the queue only by taking out what a reply's sender was waited for. */
  lemma RecvQueue(i: Interface, f: Frame)
    ensures Recv(i, f).0.unsent
         == if Told(i.mac, f).Some? && Told(i.mac, f).value.head.opcode == OPCODE_REPLY
            then NotForHop(i.unsent, Told(i.mac, f).value.senderIp) else i.unsent
  {
    ToldIsHeard(i.mac, f);
  }

  lemma ReplyConserves(ps: seq<Pending>, ip: u32, to: Mac, when: nat)
    ensures multiset(NotForHop(ps, ip)) + multiset(Pairs(Emissions(ForHop(ps, ip), to, when))) == multiset(ps)
  {
    EmittedPairs(ForHop(ps, ip), to, when);
    QueueParts(ps, ip);
  }

  lemma ArriveConserves(i: Interface, f: Frame, when: nat)
    ensures multiset(Recv(i, f).0.unsent) + multiset(Pairs(Freed(i, f, when))) == multiset(i.unsent)
  {
    RecvQueue(i, f);
    if Told(i.mac, f).Some? {
      var m := Told(i.mac, f).value;
      ReplyConserves(i.unsent, m.senderIp, m.senderMac, when);
    }
  }

  lemma StepConserves(i: Interface, e: Event, when: nat)
    ensures multiset(Act(i, e).unsent) + multiset(Pairs(NewLog(i, e, when)))
         == multiset(i.unsent) + (if e.Give? then multiset{Pending(e.dgram, e.hop)} else multiset{})
  {
    match e
    case Give(d, hop) => GiveConserves(i, d, hop, when);
    case Arrive(f) => ArriveConserves(i, f, when);
    case _ =>
  }

  /** Every datagram given to the interface is exactly once either still queued or in the log of what was sent. */
  lemma {:induction false} Conserved(mac: Mac, ip: u32, events: seq<Event>)
    ensures var h := Run(mac, ip, events);
            multiset(Given(events)) == multiset(h.i.unsent) + multiset(Pairs(h.log))
  {
    hide Act, NewLog;
    if events != [] {
      var n := |events| - 1;
      Conserved(mac, ip, events[..n]);
      var h := Run(mac, ip, events[..n]);
      StepConserves(h.i, events[n], n);
      PairsJoin(h.log, NewLog(h.i, events[n], n));
    }
  }

  // Addresses.

  lemma ActClock(i: Interface, e: Event)
    ensures Act(i, e).time == i.time + (if e.Wait? then e.ms else 0)
  {
  }

  lemma ActCache(i: Interface, e: Event)
    ensures Act(i, e).cache
         == if e.Arrive? && Told(i.mac, e.frame).Some?
            then i.cache[Told(i.mac, e.frame).value.senderIp := Learned(Told(i.mac, e.frame).value.senderMac, i.time)]
            else i.cache
  {
    if e.Arrive? { ToldIsHeard(i.mac, e.frame); }
  }

  lemma LatestJoin(lessons: seq<Lesson>, l: Lesson, ip: u32)
    ensures Latest(lessons + [l], ip) == if l.ip == ip then Some(l) else Latest(lessons, ip)
  {
  }

  predicate Matches(i: Interface, lessons: seq<Lesson>, hop: u32) {
    var l := Latest(lessons, hop);
    && (hop in i.cache <==> l.Some?)
    && (l.Some? ==> i.cache[hop] == Learned(l.value.mac, l.value.at))
  }

  lemma CacheStep(i: Interface, e: Event, lessons: seq<Lesson>, hop: u32)
    requires Matches(i, lessons, hop)
    ensures Matches(Act(i, e), lessons + LessonOf(i.mac, e, i.time), hop)
  {
    ActCache(i, e);
    var heard := LessonOf(i.mac, e, i.time);
    if heard == [] {
      assert lessons + heard == lessons;
    } else {
      LatestJoin(lessons, heard[0], hop);
    }
  }

  /** The cache holds, for every address, the mapping most recently heard. */
  lemma {:induction false} CacheIsLatest(mac: Mac, ip: u32, events: seq<Event>, hop: u32)
    ensures var i := Run(mac, ip, events).i;
            i.mac == mac && i.time == Clock(events) && Matches(i, Lessons(mac, events), hop)
  {
    if events != [] {
      var n := |events| - 1;
      CacheIsLatest(mac, ip, events[..n], hop);
      var i := Run(mac, ip, events[..n]).i;
      ActFrames(i, events[n], n);
      ActClock(i, events[n]);
      CacheStep(i, events[n], Lessons(mac, events[..n]), hop);
    }
  }

  /** Sent at `now` to the address most recently learned for its hop, learned at most 30 seconds before. */
  predicate SentOnTime(lessons: seq<Lesson>, now: nat, e: Emission) {
    var l := Latest(lessons, e.p.hop);
    l.Some? && l.value.mac == e.to && now - l.value.at <= 30000
  }

  predicate Timely(mac: Mac, events: seq<Event>, e: Emission) {
    && e.when < |events|
    && SentOnTime(Lessons(mac, events[..e.when + 1]), Clock(events[..e.when]), e)
  }

  predicate AllTimely(mac: Mac, events: seq<Event>, log: seq<Emission>) {
    forall k :: 0 <= k < |log| ==> Timely(mac, events, log[k])
  }

  lemma {:induction false} ForHopOnly(ps: seq<Pending>, hop: u32)
    ensures forall k :: 0 <= k < |ForHop(ps, hop)| ==> ForHop(ps, hop)[k].hop == hop
  {
    if ps != [] { ForHopOnly(ps[..|ps| - 1], hop); }
  }

  lemma DirectTimely(i: Interface, lessons: seq<Lesson>, p: Pending, when: nat)
    requires Matches(i, lessons, p.hop) && Fresh(i, p.hop)
    ensures SentOnTime(lessons, i.time, Direct(i, p, when)[0])
  {
  }

  lemma FreedTimely(i: Interface, lessons: seq<Lesson>, f: Frame, when: nat, k: nat)
    requires k < |Freed(i, f, when)|
    ensures Freed(i, f, when)[k].when == when
    ensures SentOnTime(lessons + LessonOf(i.mac, Arrive(f), i.time), i.time, Freed(i, f, when)[k])
  {
    var m := Told(i.mac, f).value;
    EmissionsAt(ForHop(i.unsent, m.senderIp), m.senderMac, when);
    ForHopOnly(i.unsent, m.senderIp);
    LatestJoin(lessons, Lesson(m.senderIp, m.senderMac, i.time), m.senderIp);
  }

  lemma NewTimely(i: Interface, e: Event, lessons: seq<Lesson>, when: nat, k: nat)
    requires k < |NewLog(i, e, when)|
    requires e.Give? ==> Matches(i, lessons, e.hop)
    ensures NewLog(i, e, when)[k].when == when
    ensures SentOnTime(lessons + LessonOf(i.mac, e, i.time), i.time, NewLog(i, e, when)[k])
  {
    match e
    case Give(d, hop) =>
      DirectTimely(i, lessons, Pending(d, hop), when);
      assert lessons + [] == lessons;
    case Arrive(f) => FreedTimely(i, lessons, f, when, k);
  }

  /** What the last event put out. */
  function Newest(mac: Mac, ip: u32, events: seq<Event>): seq<Emission>
    requires events != []
  {
    var n := |events| - 1;
    NewLog(Run(mac, ip, events[..n]).i, events[n], n)
  }

  lemma TimelyNow(mac: Mac, events: seq<Event>, e: Emission)
    requires events != [] && e.when == |events| - 1
    requires var now := Clock(events[..e.when]);
             SentOnTime(Lessons(mac, events[..e.when]) + LessonOf(mac, events[e.when], now), now, e)
    ensures Timely(mac, events, e)
  {
    assert events[..e.when + 1] == events;
  }

  lemma LastTimely(mac: Mac, ip: u32, events: seq<Event>, k: nat)
    requires events != [] && k < |Newest(mac, ip, events)|
    ensures Timely(mac, events, Newest(mac, ip, events)[k])
  {
    var n := |events| - 1;
    var i := Run(mac, ip, events[..n]).i;
    CacheIsLatest(mac, ip, events[..n], if events[n].Give? then events[n].hop else 0);
    NewTimely(i, events[n], Lessons(mac, events[..n]), n, k);
    TimelyNow(mac, events, Newest(mac, ip, events)[k]);
  }

  lemma LogGrows(mac: Mac, ip: u32, events: seq<Event>)
    requires events != []
    ensures Run(mac, ip, events).log == Run(mac, ip, events[..|events| - 1]).log + Newest(mac, ip, events)
  {
  }

  lemma StillTimely(mac: Mac, events: seq<Event>, n: nat, e: Emission)
    requires n <= |events| && Timely(mac, events[..n], e)
    ensures Timely(mac, events, e)
  {
    assert events[..n][..e.when + 1] == events[..e.when + 1];
    assert events[..n][..e.when] == events[..e.when];
  }

  /** Every emission of every run is timely. */
  lemma {:induction false} AlwaysTimely(mac: Mac, ip: u32, events: seq<Event>)
    ensures AllTimely(mac, events, Run(mac, ip, events).log)
  {
    if events != [] {
      AlwaysTimely(mac, ip, events[..|events| - 1]);
      LogGrows(mac, ip, events);
      TimelyStep(mac, ip, events, Run(mac, ip, events[..|events| - 1]).log);
    }
  }

  lemma TimelyStep(mac: Mac, ip: u32, events: seq<Event>, log: seq<Emission>)
    requires events != [] && AllTimely(mac, events[..|events| - 1], log)
    ensures AllTimely(mac, events, log + Newest(mac, ip, events))
  {
    forall k | 0 <= k < |log| ensures Timely(mac, events, log[k]) {
      StillTimely(mac, events, |events| - 1, log[k]);
    }
    forall k | 0 <= k < |Newest(mac, ip, events)| ensures Timely(mac, events, Newest(mac, ip, events)[k]) {
      LastTimely(mac, ip, events, k);
    }
  }

  // Order.

  /** A hop whose address is known has nothing waiting for it. */
  predicate Calm(i: Interface, hop: u32) {
    Fresh(i, hop) ==> ForHop(i.unsent, hop) == []
  }

  /** A request from a hop that datagrams are waiting for: its address is learned, but they stay queued. */
  predicate Teases(i: Interface, e: Event, hop: u32) {
    && e.Arrive? && Told(i.mac, e.frame).Some? && ForHop(i.unsent, hop) != []
    && var m := Told(i.mac, e.frame).value;
    m.head.opcode == OPCODE_REQUEST && m.senderIp == hop
  }

  lemma {:induction false} NothingLeft(ps: seq<Pending>, hop: u32, other: u32)
    ensures ForHop(NotForHop(ps, hop), hop) == []
    ensures other != hop ==> ForHop(NotForHop(ps, hop), other) == ForHop(ps, other)
  {
    if ps != [] {
      var n := |ps| - 1;
      NothingLeft(ps[..n], hop, other);
      if ps[n].hop != hop {
        var front := NotForHop(ps[..n], hop);
        assert (front + [ps[n]])[..|front|] == front;
      }
    }
  }

  lemma OneWaits(ps: seq<Pending>, p: Pending, hop: u32)
    ensures ForHop(ps + [p], hop) == if p.hop == hop then ForHop(ps, hop) + [p] else ForHop(ps, hop)
  {
  }

  lemma ToldOpcode(mac: Mac, f: Frame)
    requires Told(mac, f).Some?
    ensures var op := Told(mac, f).value.head.opcode; op == OPCODE_REQUEST || op == OPCODE_REPLY
  {
  }

  lemma ArriveCalm(i: Interface, f: Frame, hop: u32)
    requires Calm(i, hop)
    ensures Calm(Recv(i, f).0, hop) <==> !Teases(i, Arrive(f), hop)
  {
    RecvQueue(i, f);
    ActCache(i, Arrive(f));
    ActClock(i, Arrive(f));
    if Told(i.mac, f).Some? {
      ToldOpcode(i.mac, f);
      NothingLeft(i.unsent, Told(i.mac, f).value.senderIp, hop);
    }
  }

  /** Exactly a request from a waited-for hop leaves datagrams waiting for a hop that is already known. */
  lemma CalmStep(i: Interface, e: Event, hop: u32)
    requires Calm(i, hop)
    ensures Calm(Act(i, e), hop) <==> !Teases(i, e, hop)
  {
    match e
    case Give(d, h) =>
      ActCache(i, e);
      ActClock(i, e);
      OneWaits(i.unsent, Pending(d, h), hop);
    case Arrive(f) => ArriveCalm(i, f, hop);
    case _ =>
  }

  predicate NeverTeased(mac: Mac, ip: u32, events: seq<Event>, hop: u32) {
    forall n :: 0 <= n < |events| ==> !Teases(Run(mac, ip, events[..n]).i, events[n], hop)
  }

  lemma GiveInOrder(i: Interface, d: Datagram, to: u32, when: nat, hop: u32)
    requires Calm(i, hop)
    ensures ForHop(Pairs(Direct(i, Pending(d, to), when)), hop) + ForHop(Send(i, d, to).unsent, hop)
         == ForHop(i.unsent, hop) + ForHop([Pending(d, to)], hop)
  {
  }

  lemma {:induction false} ForHopTwice(ps: seq<Pending>, hop: u32, other: u32)
    ensures ForHop(ForHop(ps, hop), other) == if other == hop then ForHop(ps, hop) else []
  {
    if ps != [] {
      ForHopTwice(ps[..|ps| - 1], hop, other);
      OneWaits(ForHop(ps[..|ps| - 1], hop), ps[|ps| - 1], other);
    }
  }

  lemma ArriveInOrder(i: Interface, f: Frame, when: nat, hop: u32)
    ensures ForHop(Pairs(Freed(i, f, when)), hop) + ForHop(Recv(i, f).0.unsent, hop) == ForHop(i.unsent, hop)
  {
    RecvQueue(i, f);
    if Told(i.mac, f).Some? {
      var m := Told(i.mac, f).value;
      NothingLeft(i.unsent, m.senderIp, hop);
      EmittedPairs(ForHop(i.unsent, m.senderIp), m.senderMac, when);
      ForHopTwice(i.unsent, m.senderIp, hop);
    }
  }

  lemma StepInOrder(i: Interface, e: Event, when: nat, hop: u32)
    requires Calm(i, hop)
    ensures ForHop(Pairs(NewLog(i, e, when)), hop) + ForHop(Act(i, e).unsent, hop)
         == ForHop(i.unsent, hop) + GivenLast(e, hop)
  {
    match e
    case Give(d, to) => GiveInOrder(i, d, to, when, hop);
    case Arrive(f) => ArriveInOrder(i, f, when, hop);
    case _ =>
  }

  /** Without such requests, the datagrams for a hop leave in the order they were given. */
  lemma {:induction false} FirstInFirstOut(mac: Mac, ip: u32, events: seq<Event>, hop: u32)
    requires NeverTeased(mac, ip, events, hop)
    ensures var h := Run(mac, ip, events);
            && Calm(h.i, hop)
            && ForHop(Given(events), hop) == ForHop(Pairs(h.log), hop) + ForHop(h.i.unsent, hop)
  {
    if events != [] {
      var n := |events| - 1;
      EarlierToo(mac, ip, events, hop);
      FirstInFirstOut(mac, ip, events[..n], hop);
      var h := Run(mac, ip, events[..n]);
      CalmStep(h.i, events[n], hop);
      StepInOrder(h.i, events[n], n, hop);
      PairsJoin(h.log, NewLog(h.i, events[n], n));
      ForHopJoin(Pairs(h.log), Pairs(NewLog(h.i, events[n], n)), hop);
      GivenStep(events, hop);
      Regroup(ForHop(Pairs(h.log), hop), ForHop(Pairs(NewLog(h.i, events[n], n)), hop),
              ForHop(h.i.unsent, hop), ForHop(Act(h.i, events[n]).unsent, hop), GivenLast(events[n], hop));
    }
  }

  function GivenLast(e: Event, hop: u32): seq<Pending> {
    if e.Give? then ForHop([Pending(e.dgram, e.hop)], hop) else []
  }

  lemma GivenStep(events: seq<Event>, hop: u32)
    requires events != []
    ensures ForHop(Given(events), hop) == ForHop(Given(events[..|events| - 1]), hop) + GivenLast(events[|events| - 1], hop)
  {
    var n := |events| - 1;
    if events[n].Give? {
      ForHopJoin(Given(events[..n]), [Pending(events[n].dgram, events[n].hop)], hop);
    }
  }

  lemma Regroup(sent: seq<Pending>, now: seq<Pending>, waiting: seq<Pending>, left: seq<Pending>, given: seq<Pending>)
    requires now + left == waiting + given
    ensures sent + waiting + given == sent + now + left
  {
    assert sent + waiting + given == sent + (waiting + given) == sent + (now + left);
  }

  lemma EarlierToo(mac: Mac, ip: u32, events: seq<Event>, hop: u32)
    requires events != [] && NeverTeased(mac, ip, events, hop)
    ensures NeverTeased(mac, ip, events[..|events| - 1], hop)
    ensures !Teases(Run(mac, ip, events[..|events| - 1]).i, events[|events| - 1], hop)
  {
    var before := events[..|events| - 1];
    forall n | 0 <= n < |before| ensures !Teases(Run(mac, ip, before[..n]).i, before[n], hop) {
      assert before[..n] == events[..n] && before[n] == events[n];
    }
  }
}
