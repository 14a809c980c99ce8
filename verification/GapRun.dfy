/**
 * A run in which a stale acknowledgement ends a stream of which nothing was delivered: both sides open at once, the
 * window opens on a long stream already ended, its last segment overtakes the first, and the bare acknowledgement
 * that answered the peer's SYN lands on the gap.
 */
module GapRuns {
  import opened Integers
  import opened WrappingIntegers
  import opened ByteStreams
  import opened Reassembly
  import opened TcpSegments
  import opened Senders
  import opened Receivers
  import opened Connections
  import opened Networks
  import opened ConnectionLaws
  import opened AcknowledgementLaws
  import opened PrematureRuns

  function FirstAck(): Segment {
    Acking(Numbered(1, false, false, []), 1)
  }

  function First(data: seq<byte>): Segment
    requires |data| == 1001
  {
    Numbered(1, false, false, data[..1000])
  }

  function Last(data: seq<byte>): Segment
    requires |data| == 1001
  {
    Numbered(1001, false, true, data[1000..])
  }

  // What the endpoints do.

  lemma AnswersSyn(c: Connection, syn: Segment)
    requires Opening(c, [], false, false) && syn == Syn()
    ensures var d := Receive(c, syn); Opening(d.(out := []), [], false, true) && d.out == [FirstAck()]
  {
    StaysShut(c.snd, [], false);
    SeesSyn(c.rcv, syn);
    var q := SegmentReceived(c.rcv, syn).0;
    Answers(c, syn, q, Numbered(1, false, false, []));
    Stamps(q, Numbered(1, false, false, []), map[], false);
  }

  lemma SendsNothing(c: Connection)
    requires FillWindow(c.snd) == c.snd && c.snd.out == [] && c.out == []
    ensures Connect(c) == c
  {
  }

  lemma BuffersData(c: Connection, data: seq<byte>)
    requires Opening(c, [], false, true) && |data| == 1001
    ensures Opening(Connections.Write(c, data).(out := []), data, false, true)
  {
    var d := c.(snd := WithStream(c.snd, Append(c.snd.stream, data)));
    assert d.snd.stream.written == data;
    StaysShut(d.snd, data, false);
    SendsNothing(d);
  }

  lemma BuffersEnd(c: Connection, data: seq<byte>)
    requires Opening(c, data, false, true)
    ensures Opening(EndInputStream(c).(out := []), data, true, true)
  {
    var d := c.(snd := WithStream(c.snd, c.snd.stream.(ended := true)));
    StaysShut(d.snd, data, true);
    SendsNothing(d);
  }

  lemma SendsFirst(s: Sender, data: seq<byte>)
    requires SenderAt(s, data, 0, true, [], 1, 1, CAPACITY, false) && |data| == 1001
    ensures !Blocked(s)
    ensures SendOne(s).out == [First(data)]
    ensures SenderAt(SendOne(s).(out := []), data, 1000, true, [First(data)], 1001, 1, CAPACITY, false)
  {
    assert PayloadLen(s) == 1000;
    assert NextPayload(s) == data[..1000];
    assert NextSegment(s) == First(data);
  }

  lemma SendsLast(s: Sender, data: seq<byte>)
    requires |data| == 1001 && s.out == [First(data)]
    requires SenderAt(s.(out := []), data, 1000, true, [First(data)], 1001, 1, CAPACITY, false)
    ensures !Blocked(s)
    ensures SendOne(s).out == [First(data), Last(data)]
    ensures SenderAt(SendOne(s).(out := []), data, 1001, true, [First(data), Last(data)], 1003, 1, CAPACITY, true)
  {
    assert PayloadLen(s) == 1;
    assert NextPayload(s) == data[1000..];
    assert NextSegment(s) == Last(data);
  }

  lemma FillsTwice(s: Sender, t: Sender, u: Sender)
    requires !Blocked(s) && SendOne(s) == t && !Blocked(t) && SendOne(t) == u && Blocked(u)
    ensures FillWindow(s) == u
  {
    FillsOnce(t, u);
  }

  lemma FillsBoth(s: Sender, data: seq<byte>)
    requires SenderAt(s, data, 0, true, [], 1, 1, CAPACITY, false) && |data| == 1001
    ensures FillWindow(s).out == [First(data), Last(data)]
    ensures SenderAt(FillWindow(s).(out := []), data, 1001, true, [First(data), Last(data)], 1003, 1, CAPACITY, true)
  {
    SendsFirst(s, data);
    SendsLast(SendOne(s), data);
    FillsTwice(s, SendOne(s), SendOne(SendOne(s)));
  }

  /** Both segments are queued, but the acknowledgement that opened the window got no answer, so neither is sent yet. */
  ghost predicate Loaded(c: Connection, data: seq<byte>) {
    && |data| == 1001 && c.snd.out == [First(data), Last(data)]
    && SenderAt(c.snd.(out := []), data, 1001, true, [First(data), Last(data)], 1003, 1, CAPACITY, true)
    && ReceiverAt(c.rcv, true, map[], false) && c.out == []
  }

  lemma Loads(c: Connection, data: seq<byte>, ack: Segment)
    requires Opening(c, data, true, true) && |data| == 1001 && ack == FirstAck()
    ensures Loaded(Receive(c, ack).(out := []), data)
  {
    AcksSyn(c.snd, data, true);
    FillsBoth(NewAck(c.snd.(window := CAPACITY), 1), data);
    SeesAck(c.rcv, ack);
    Absorbs(c, ack);
  }

  ghost predicate AllSent(s: Sender, data: seq<byte>) {
    s.stream.written == data && s.stream.nread == |data|
  }

  lemma Unloads(c: Connection, data: seq<byte>)
    requires Loaded(c, data)
    ensures var d := Connect(c);
            AllSent(d.snd, data) && d.out == [Acking(First(data), 1), Acking(Last(data), 1)]
  {
    var q := [First(data), Last(data)];
    assert q[1..] == [Last(data)];
    StampsOne(c.rcv, Last(data));
    Stamps(c.rcv, First(data), map[], false);
    Stamps(c.rcv, Last(data), map[], false);
  }

  lemma OneByteKnown(x: byte)
    ensures Known(map[], [x], 1000, 0, CAPACITY) == map[1000 := x]
  {
  }

  lemma StoresLast(r: Receiver, seg: Segment, x: byte)
    requires ReceiverAt(r, true, map[], false)
    requires seg.header.fin && !seg.header.syn && seg.header.seqno == 1001 && seg.payload == [x]
    ensures ReceiverAt(SegmentReceived(r, seg).0, true, map[1000 := x], true)
  {
    assert Unwrap(1001, 0, 0) == 1001;
    OneByteKnown(x);
  }

  lemma TakesLast(c: Connection, data: seq<byte>, last: Segment)
    requires Opening(c, [], false, true) && |data| == 1001 && last == Acking(Last(data), 1)
    ensures ReceiverAt(Receive(c, last).rcv, true, map[1000 := data[1000]], true)
    ensures |Receive(c, last).snd.stream.written| == 0
  {
    KeepsWritten(c, last);
    assert last.payload == [data[1000]];
    StoresLast(c.rcv, last, data[1000]);
    ReceivedExactly(c, last);
  }

  lemma EndsEarly(c: Connection, x: byte, ack: Segment)
    requires ReceiverAt(c.rcv, true, map[1000 := x], true) && ack == FirstAck()
    ensures var r := Receive(c, ack).rcv; r.reasm.out.ended && r.reasm.out.written == []
    ensures Receive(c, ack).snd.stream.written == c.snd.stream.written
  {
    KeepsWritten(c, ack);
    assert Unwrap(1, 0, 0) == 1;
    ReceivedExactly(c, ack);
  }

  lemma OnATwo(s: System, op: Op, n: System)
    requires n == Next(s, Event(true, op))
    ensures |Apply(s.a, op).out| == 2 ==> Apply(s.a, op).out[1] in n.ab
  {
  }

  // The stages of the run.

  lemma ThenSecondSyn(z: System, es: seq<Event>, k: nat, s: System) returns (n: System)
    requires Reaches(z, es, k, s) && k < |es| && es[k] == Event(false, DoConnect)
    requires Closed(s.b)
    ensures Reaches(z, es, k + 1, n)
    ensures n.a == s.a && n.ab == s.ab && Opening(n.b, [], false, false) && Syn() in n.ba
  {
    hide Reaches, Receive, Connect, Opening, Loaded;
    n := Next(s, es[k]);
    ReachesNext(z, es, k, s, n);
    OnB(s, DoConnect, n);
    Opens(s.b);
  }

  lemma ThenAAnswers(z: System, es: seq<Event>, k: nat, s: System, syn: Segment) returns (n: System)
    requires Reaches(z, es, k, s) && k < |es| && es[k] == Event(true, DoReceive(syn))
    requires Opening(s.a, [], false, false) && syn == Syn() && syn in s.ba
    ensures Reaches(z, es, k + 1, n)
    ensures Opening(n.a, [], false, true) && n.b == s.b && s.ab <= n.ab && FirstAck() in n.ab
  {
    hide Reaches, Receive, Connect, Opening, Loaded;
    n := Next(s, es[k]);
    ReachesNext(z, es, k, s, n);
    OnA(s, DoReceive(syn), n);
    AnswersSyn(s.a, syn);
  }

  lemma ThenBAnswers(z: System, es: seq<Event>, k: nat, s: System, syn: Segment) returns (n: System)
    requires Reaches(z, es, k, s) && k < |es| && es[k] == Event(false, DoReceive(syn))
    requires Opening(s.b, [], false, false) && syn == Syn() && syn in s.ab
    ensures Reaches(z, es, k + 1, n)
    ensures n.a == s.a && n.ab == s.ab && Opening(n.b, [], false, true) && FirstAck() in n.ba
  {
    hide Reaches, Receive, Connect, Opening, Loaded;
    n := Next(s, es[k]);
    ReachesNext(z, es, k, s, n);
    OnB(s, DoReceive(syn), n);
    AnswersSyn(s.b, syn);
  }

  lemma ThenBuffered(z: System, es: seq<Event>, k: nat, s: System, data: seq<byte>) returns (n: System)
    requires Reaches(z, es, k, s) && k < |es| && es[k] == Event(true, DoWrite(data))
    requires Opening(s.a, [], false, true) && |data| == 1001
    ensures Reaches(z, es, k + 1, n)
    ensures Opening(n.a, data, false, true) && n.b == s.b && n.ba == s.ba && s.ab <= n.ab
  {
    hide Reaches, Receive, Connect, Opening, Loaded;
    n := Next(s, es[k]);
    ReachesNext(z, es, k, s, n);
    OnA(s, DoWrite(data), n);
    BuffersData(s.a, data);
  }

  lemma ThenFinished(z: System, es: seq<Event>, k: nat, s: System, data: seq<byte>) returns (n: System)
    requires Reaches(z, es, k, s) && k < |es| && es[k] == Event(true, DoEndInput)
    requires Opening(s.a, data, false, true)
    ensures Reaches(z, es, k + 1, n)
    ensures Opening(n.a, data, true, true) && n.b == s.b && n.ba == s.ba && s.ab <= n.ab
  {
    hide Reaches, Receive, Connect, Opening, Loaded;
    n := Next(s, es[k]);
    ReachesNext(z, es, k, s, n);
    OnA(s, DoEndInput, n);
    BuffersEnd(s.a, data);
  }

  lemma ThenWindowOpens(z: System, es: seq<Event>, k: nat, s: System, data: seq<byte>, ack: Segment) returns (n: System)
    requires Reaches(z, es, k, s) && k < |es| && es[k] == Event(true, DoReceive(ack))
    requires Opening(s.a, data, true, true) && |data| == 1001 && ack == FirstAck() && ack in s.ba
    ensures Reaches(z, es, k + 1, n)
    ensures Loaded(n.a, data) && n.b == s.b && s.ab <= n.ab
  {
    hide Reaches, Receive, Connect, Opening, Loaded;
    n := Next(s, es[k]);
    ReachesNext(z, es, k, s, n);
    OnA(s, DoReceive(ack), n);
    Loads(s.a, data, ack);
  }

  lemma ThenBothSent(z: System, es: seq<Event>, k: nat, s: System, data: seq<byte>) returns (n: System)
    requires Reaches(z, es, k, s) && k < |es| && es[k] == Event(true, DoConnect)
    requires Loaded(s.a, data)
    ensures Reaches(z, es, k + 1, n)
    ensures AllSent(n.a.snd, data) && n.b == s.b && s.ab <= n.ab && Acking(Last(data), 1) in n.ab
  {
    hide Reaches, Receive, Connect, Opening, Loaded;
    n := Next(s, es[k]);
    ReachesNext(z, es, k, s, n);
    OnA(s, DoConnect, n);
    Unloads(s.a, data);
    OnATwo(s, DoConnect, n);
  }

  lemma ThenLastArrives(z: System, es: seq<Event>, k: nat, s: System, data: seq<byte>, last: Segment) returns (n: System)
    requires Reaches(z, es, k, s) && k < |es| && es[k] == Event(false, DoReceive(last))
    requires Opening(s.b, [], false, true) && |data| == 1001 && last == Acking(Last(data), 1) && last in s.ab
    ensures Reaches(z, es, k + 1, n)
    ensures n.a == s.a && n.ab == s.ab && ReceiverAt(n.b.rcv, true, map[1000 := data[1000]], true)
    ensures |n.b.snd.stream.written| == 0
  {
    hide Reaches, Receive, Connect, Opening, Loaded;
    n := Next(s, es[k]);
    ReachesNext(z, es, k, s, n);
    OnB(s, DoReceive(last), n);
    TakesLast(s.b, data, last);
  }

  lemma ThenStaleAck(z: System, es: seq<Event>, k: nat, s: System, x: byte, ack: Segment) returns (n: System)
    requires Reaches(z, es, k, s) && k < |es| && es[k] == Event(false, DoReceive(ack))
    requires ReceiverAt(s.b.rcv, true, map[1000 := x], true) && ack == FirstAck() && ack in s.ab
    ensures Reaches(z, es, k + 1, n)
    ensures n.a == s.a && n.b.rcv.reasm.out.ended && n.b.rcv.reasm.out.written == []
    ensures n.b.snd.stream.written == s.b.snd.stream.written
  {
    hide Reaches, Receive, Connect, Opening, Loaded;
    n := Next(s, es[k]);
    ReachesNext(z, es, k, s, n);
    OnB(s, DoReceive(ack), n);
    EndsEarly(s.b, x, ack);
  }

  function GapRun(data: seq<byte>): seq<Event>
    requires |data| == 1001
  {
    [Event(true, DoConnect), Event(false, DoConnect), Event(true, DoReceive(Syn())), Event(false, DoReceive(Syn())),
     Event(true, DoWrite(data)), Event(true, DoEndInput), Event(true, DoReceive(FirstAck())), Event(true, DoConnect),
     Event(false, DoReceive(Acking(Last(data), 1))), Event(false, DoReceive(FirstAck()))]
  }

  ghost predicate EndedEmpty(f: System, data: seq<byte>) {
    AllSent(f.a.snd, data) && |f.b.snd.stream.written| == 0 && f.b.rcv.reasm.out.written == [] && f.b.rcv.reasm.out.ended
  }

  lemma BothOpen(s: System, es: seq<Event>, syn: Segment) returns (f: System)
    requires BothClosed(s) && |es| >= 4 && syn == Syn()
    requires es[..4] == [Event(true, DoConnect), Event(false, DoConnect), Event(true, DoReceive(syn)), Event(false, DoReceive(syn))]
    ensures Reaches(s, es, 4, f) && Opening(f.a, [], false, true) && Opening(f.b, [], false, true)
    ensures FirstAck() in f.ab && FirstAck() in f.ba
  {
    hide Reaches, Closed, Opening, Syn, FirstAck;
    ReachesStart(s, es);
    assert forall k :: 0 <= k < 4 ==> es[k] == es[..4][k];
    f := ThenFirstSyn(s, es, 0, s);
    f := ThenSecondSyn(s, es, 1, f);
    f := ThenAAnswers(s, es, 2, f, syn);
    f := ThenBAnswers(s, es, 3, f, syn);
  }

  lemma Gap(s: System, es: seq<Event>, data: seq<byte>) returns (f: System)
    requires BothClosed(s) && |data| == 1001 && es == GapRun(data)
    ensures Reaches(s, es, 10, f) && EndedEmpty(f, data)
  {
    hide Reaches, Closed, Opening, Loaded, ReceiverAt, Syn, FirstAck, Last, Acking;
    f := BothOpen(s, es, es[2].op.seg);
    f := ThenBuffered(s, es, 4, f, data);
    f := ThenFinished(s, es, 5, f, data);
    f := ThenWindowOpens(s, es, 6, f, data, es[6].op.seg);
    f := ThenBothSent(s, es, 7, f, data);
    f := ThenLastArrives(s, es, 8, f, data, es[8].op.seg);
    f := ThenStaleAck(s, es, 9, f, data[1000], es[9].op.seg);
  }

  /** In this run the peer's application is told that the stream has ended, though none of its bytes was delivered. */
  lemma StaleAckEndsStream(s: System, es: seq<Event>, data: seq<byte>)
    requires Start(s) && |data| == 1001 && es == GapRun(data)
    ensures Initial(s) && Possible(s, es) && EndedEmpty(After(s, es), data) && !Patient(s, es)
  {
    StartsClosed(s);
    var f := Gap(s, es, data);
    assert es[..10] == es;
    EarlyEndIsImpatient(s, es, data);
  }

  lemma EarlyEndIsImpatient(s: System, es: seq<Event>, data: seq<byte>)
    requires Initial(s) && Possible(s, es) && EndedEmpty(After(s, es), data) && |data| == 1001
    ensures !Patient(s, es)
  {
    if Patient(s, es) {
      AcknowledgedIsDelivered(s, es);
    }
  }
}
