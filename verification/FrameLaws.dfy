/** Every frame an interface ever puts out, down to the bytes. */
module FrameLaws {
  import opened Integers
  import opened Ipv4Wire
  import opened ArpWire
  import opened Interfaces
  import opened InterfaceLaws
  import opened RequestLaws

  // One event.

  /** The hop's address was learned at most 30 seconds ago. */
  predicate Known(i: Interface, hop: u32) {
    hop in i.cache && i.time - i.cache[hop].time <= 30000
  }

  /** A question for everyone on the link. */
  function Question(mac: Mac, ip: u32, wanted: u32): Frame {
    Frame([0xff, 0xff, 0xff, 0xff, 0xff, 0xff], mac, 0x806, ArpBytes(1, mac, ip, [0, 0, 0, 0, 0, 0], wanted))
  }

  /** The answer a frame calls for: it was a request for this interface's own address. */
  function Reply(mac: Mac, ip: u32, f: Frame): seq<Frame> {
    var told := Told(mac, f);
    if told.Some? && told.value.head.opcode == 1 && told.value.targetIp == ip then
      [Frame(f.src, mac, 0x806, ArpBytes(2, mac, ip, told.value.senderMac, told.value.senderIp))]
    else []
  }

  /** What a frame releases: a reply sends off all that waited for its sender. */
  function Released(i: Interface, f: Frame): seq<Frame> {
    var told := Told(i.mac, f);
    if told.Some? && told.value.head.opcode == 2 then
      FramesTo(i.mac, told.value.senderMac, ForHop(i.unsent, told.value.senderIp))
    else []
  }

  /** The frames an event puts out. */
  function Put(i: Interface, e: Event): seq<Frame> {
    match e
    case Give(d, hop) =>
      if Known(i, hop) then [Frame(i.cache[hop].mac, i.mac, 0x800, Bytes(d))]
      else if AsksNow(i, e) != [] then [Question(i.mac, i.ip, hop)]
      else []
    case Arrive(f) => Reply(i.mac, i.ip, f) + Released(i, f)
    case _ => []
  }

  lemma GivePuts(i: Interface, d: Datagram, hop: u32)
    ensures Send(i, d, hop).out == i.out + Put(i, Give(d, hop))
    ensures Known(i, hop) ==> Send(i, d, hop).unsent == i.unsent
    ensures !Known(i, hop) ==> Send(i, d, hop).unsent == i.unsent + [Pending(d, hop)]
  {
    ArpLayout(ArpMessage(Head(OPCODE_REQUEST), i.mac, i.ip, NO_MAC, hop));
  }

  lemma ToldPuts(i: Interface, f: Frame, m: ArpMessage)
    requires Told(i.mac, f) == Some(m)
    ensures RecvArp(i, m, f.src).out == i.out + (Reply(i.mac, i.ip, f) + Released(i, f))
  {
    hide ArpBytes, SerializeArp, Told;
    ArpLayout(ArpMessage(Head(OPCODE_REPLY), i.mac, i.ip, m.senderMac, m.senderIp));
  }

  lemma ArrivePuts(i: Interface, f: Frame)
    ensures Recv(i, f).0.out == i.out + Put(i, Arrive(f))
  {
    ToldIsHeard(i.mac, f);
    if Told(i.mac, f).Some? {
      ToldPuts(i, f, Told(i.mac, f).value);
    }
  }

  /** Each event adds exactly these frames. */
  lemma PutsOut(i: Interface, e: Event)
    ensures Act(i, e).ip == i.ip && Act(i, e).mac == i.mac
    ensures !e.Take? ==> Act(i, e).out == i.out + Put(i, e)
    ensures e.Take? ==> Act(i, e).out == [] && Put(i, e) == []
  {
    match e
    case Give(d, hop) => GivePuts(i, d, hop);
    case Arrive(f) => ArrivePuts(i, f);
    case _ =>
  }

  // Whole runs.

  predicate IsArp(f: Frame, opcode: byte) {
    f.kind == 0x806 && |f.payload| >= 28 && f.payload[7] == opcode
  }

  /** The ARP frames with this opcode, in order. */
  function ArpFrames(fs: seq<Frame>, opcode: byte): seq<Frame> {
    if fs == [] then []
    else
      var n := |fs| - 1;
      if IsArp(fs[n], opcode) then ArpFrames(fs[..n], opcode) + [fs[n]] else ArpFrames(fs[..n], opcode)
  }

  lemma {:induction false} ArpFramesJoin(a: seq<Frame>, b: seq<Frame>, opcode: byte)
    ensures ArpFrames(a + b, opcode) == ArpFrames(a, opcode) + ArpFrames(b, opcode)
  {
    if b == [] {
      assert a + b == a;
    } else {
      assert (a + b)[..|a + b| - 1] == a + b[..|b| - 1];
      ArpFramesJoin(a, b[..|b| - 1], opcode);
    }
  }

  lemma OneFrame(f: Frame, opcode: byte)
    ensures ArpFrames([f], opcode) == if IsArp(f, opcode) then [f] else []
  {
    assert [f][..0] == [];
  }

  lemma {:induction false} ReleasedNotArp(src: Mac, dst: Mac, ps: seq<Pending>, opcode: byte)
    ensures ArpFrames(FramesTo(src, dst, ps), opcode) == []
    ensures forall k :: 0 <= k < |FramesTo(src, dst, ps)| ==> Own(src, FramesTo(src, dst, ps)[k])
  {
    if ps != [] {
      var front := FramesTo(src, dst, ps[..|ps| - 1]);
      ReleasedNotArp(src, dst, ps[..|ps| - 1], opcode);
      assert FramesTo(src, dst, ps)[..|front|] == front;
    }
  }

  /** A frame of this interface: its own source address, and an IPv4 datagram, an ARP request or an ARP reply. */
  predicate Own(mac: Mac, f: Frame) {
    f.src == mac && (f.kind == 0x800 || IsArp(f, 1) || IsArp(f, 2))
  }

  lemma ArpBytesKind(src: Mac, dst: Mac, opcode: byte, m: Mac, ip: u32, target: Mac, wanted: u32)
    ensures IsArp(Frame(dst, src, 0x806, ArpBytes(opcode, m, ip, target, wanted)), opcode)
  {
  }

  /** The requests an event makes, as frames. */
  function Questions(mac: Mac, ip: u32, asked: seq<Request>): seq<Frame> {
    if asked == [] then []
    else Questions(mac, ip, asked[..|asked| - 1]) + [Question(mac, ip, asked[|asked| - 1].ip)]
  }

  lemma QuestionsLast(mac: Mac, ip: u32, asked: seq<Request>, more: seq<Request>)
    requires |more| <= 1
    ensures Questions(mac, ip, asked + more)
         == Questions(mac, ip, asked) + (if more == [] then [] else [Question(mac, ip, more[0].ip)])
  {
    if more == [] {
      assert asked + more == asked;
    } else {
      assert (asked + more)[..|asked|] == asked;
    }
  }

  function ReplyNow(mac: Mac, ip: u32, e: Event): seq<Frame> {
    if e.Arrive? then Reply(mac, ip, e.frame) else []
  }

  function QuestionNow(i: Interface, e: Event): seq<Frame> {
    if AsksNow(i, e) == [] then [] else [Question(i.mac, i.ip, AsksNow(i, e)[0].ip)]
  }

  lemma GiveKinds(i: Interface, d: Datagram, hop: u32)
    ensures ArpFrames(Put(i, Give(d, hop)), 1) == QuestionNow(i, Give(d, hop))
    ensures ArpFrames(Put(i, Give(d, hop)), 2) == []
    ensures forall f <- Put(i, Give(d, hop)) :: Own(i.mac, f)
  {
    hide ArpBytes, AskedRecently, ArpFrames;
    var q := Question(i.mac, i.ip, hop);
    ArpBytesKind(i.mac, q.dst, 1, i.mac, i.ip, [0, 0, 0, 0, 0, 0], hop);
    NoFrames(1);
    NoFrames(2);
    OneFrame(q, 1);
    OneFrame(q, 2);
    if Known(i, hop) {
      OneFrame(Frame(i.cache[hop].mac, i.mac, 0x800, Bytes(d)), 1);
      OneFrame(Frame(i.cache[hop].mac, i.mac, 0x800, Bytes(d)), 2);
    }
  }

  lemma NoFrames(opcode: byte)
    ensures ArpFrames([], opcode) == []
  {
  }

  lemma ArriveKinds(i: Interface, f: Frame)
    ensures ArpFrames(Put(i, Arrive(f)), 1) == []
    ensures ArpFrames(Put(i, Arrive(f)), 2) == Reply(i.mac, i.ip, f)
    ensures forall g <- Put(i, Arrive(f)) :: Own(i.mac, g)
  {
    ReplyKinds(i.mac, i.ip, f);
    ReleasedKinds(i, f);
    hide Reply, Released, ArpFrames;
    ArpFramesJoin(Reply(i.mac, i.ip, f), Released(i, f), 1);
    ArpFramesJoin(Reply(i.mac, i.ip, f), Released(i, f), 2);
  }

  lemma ReplyKinds(mac: Mac, ip: u32, f: Frame)
    ensures ArpFrames(Reply(mac, ip, f), 1) == [] && ArpFrames(Reply(mac, ip, f), 2) == Reply(mac, ip, f)
    ensures forall g <- Reply(mac, ip, f) :: Own(mac, g)
  {
    hide ArpBytes, Told, ArpFrames;
    NoFrames(1);
    NoFrames(2);
    var r := Reply(mac, ip, f);
    if r != [] {
      var m := Told(mac, f).value;
      ArpBytesKind(mac, f.src, 2, mac, ip, m.senderMac, m.senderIp);
      OneFrame(r[0], 1);
      OneFrame(r[0], 2);
    }
  }

  lemma ReleasedKinds(i: Interface, f: Frame)
    ensures ArpFrames(Released(i, f), 1) == [] && ArpFrames(Released(i, f), 2) == []
    ensures forall g <- Released(i, f) :: Own(i.mac, g)
  {
    hide Told, Own, ArpFrames;
    NoFrames(1);
    NoFrames(2);
    if Told(i.mac, f).Some? {
      var m := Told(i.mac, f).value;
      ReleasedNotArp(i.mac, m.senderMac, ForHop(i.unsent, m.senderIp), 1);
      ReleasedNotArp(i.mac, m.senderMac, ForHop(i.unsent, m.senderIp), 2);
    }
  }

  lemma PutKinds(i: Interface, e: Event)
    ensures ArpFrames(Put(i, e), 1) == QuestionNow(i, e) && ArpFrames(Put(i, e), 2) == ReplyNow(i.mac, i.ip, e)
    ensures forall f <- Put(i, e) :: Own(i.mac, f)
  {
    match e
    case Give(d, hop) => GiveKinds(i, d, hop);
    case Arrive(f) => ArriveKinds(i, f);
    case _ =>
  }

  function Everything(h: History): seq<Frame> {
    h.taken + h.i.out
  }

  lemma RunPuts(mac: Mac, ip: u32, events: seq<Event>)
    requires events != []
    ensures var n := |events| - 1;
            var h := Run(mac, ip, events[..n]);
            Everything(Run(mac, ip, events)) == Everything(h) + Put(h.i, events[n])
  {
    hide Act, Put, NewLog;
    var n := |events| - 1;
    var h := Run(mac, ip, events[..n]);
    PutsOut(h.i, events[n]);
    if !events[n].Take? {
      assert h.taken + (h.i.out + Put(h.i, events[n])) == h.taken + h.i.out + Put(h.i, events[n]);
    }
  }

  /** Every answer called for by what arrived, in order. */
  function Replies(mac: Mac, ip: u32, events: seq<Event>): seq<Frame> {
    if events == [] then []
    else Replies(mac, ip, events[..|events| - 1]) + ReplyNow(mac, ip, events[|events| - 1])
  }

  /**
   * Over every run, the ARP replies put out are exactly the answers to the requests heard for the interface's own
   * address, the ARP requests are exactly the questions asked, and every frame has the interface's source address.
   */
  lemma {:induction false} AllFrames(mac: Mac, ip: u32, events: seq<Event>)
    ensures var h := Run(mac, ip, events);
            && h.i.mac == mac && h.i.ip == ip
            && ArpFrames(Everything(h), 2) == Replies(mac, ip, events)
            && ArpFrames(Everything(h), 1) == Questions(mac, ip, AllAsked(mac, ip, events))
            && (forall f <- Everything(h) :: Own(mac, f))
  {
    if events != [] {
      var n := |events| - 1;
      AllFrames(mac, ip, events[..n]);
      FramesStep(mac, ip, events);
    } else {
      assert Everything(Run(mac, ip, [])) == [];
    }
  }

  lemma FramesStep(mac: Mac, ip: u32, events: seq<Event>)
    requires events != []
    ensures var n := |events| - 1;
            var h, g := Run(mac, ip, events[..n]), Run(mac, ip, events);
            && g.i.mac == h.i.mac && g.i.ip == h.i.ip
            && ArpFrames(Everything(g), 2) == ArpFrames(Everything(h), 2) + ReplyNow(h.i.mac, h.i.ip, events[n])
            && ArpFrames(Everything(g), 1) == ArpFrames(Everything(h), 1) + QuestionNow(h.i, events[n])
            && (forall f <- Everything(g) :: f in Everything(h) || Own(h.i.mac, f))
            && Questions(h.i.mac, h.i.ip, AllAsked(mac, ip, events))
               == Questions(h.i.mac, h.i.ip, AllAsked(mac, ip, events[..n])) + QuestionNow(h.i, events[n])
  {
    hide ArpFrames, Own, Put, Question, Act, AsksNow, ReplyNow;
    var n := |events| - 1;
    var h := Run(mac, ip, events[..n]);
    RunPuts(mac, ip, events);
    PutsOut(h.i, events[n]);
    PutKinds(h.i, events[n]);
    ArpFramesJoin(Everything(h), Put(h.i, events[n]), 1);
    ArpFramesJoin(Everything(h), Put(h.i, events[n]), 2);
    AsksOne(h.i, events[n]);
    QuestionsLast(h.i.mac, h.i.ip, AllAsked(mac, ip, events[..n]), AsksNow(h.i, events[n]));
  }

  lemma AsksOne(i: Interface, e: Event)
    ensures |AsksNow(i, e)| <= 1
  {
  }

  /**
   * In every run, a datagram leaves at once, to the address last announced for its hop, if and only if that was
   * announced at most 30 seconds ago; otherwise it joins the queue and no IPv4 frame leaves.
   */
  lemma PromptWhenKnown(mac: Mac, ip: u32, events: seq<Event>, d: Datagram, hop: u32)
    ensures var i := Run(mac, ip, events).i;
            var last := Latest(Lessons(mac, events), hop);
            var j := Send(i, d, hop);
            if last.Some? && Clock(events) - last.value.at <= 30000
            then j.out == i.out + [Frame(last.value.mac, mac, 0x800, Bytes(d))] && j.unsent == i.unsent
            else j.unsent == i.unsent + [Pending(d, hop)] && IpFrames(j.out) == IpFrames(i.out)
  {
    hide Lessons, Latest, Clock;
    var i := Run(mac, ip, events).i;
    CacheIsLatest(mac, ip, events, hop);
    GivePuts(i, d, hop);
    if !Known(i, hop) {
      SendFrames(i, d, hop, 0);
    }
  }
}
