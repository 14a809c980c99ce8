/** How a run moves forward: the acknowledgement never goes back, and the end is announced once all is delivered. */
module CompletionLaws {
  import opened Integers
  import opened Reassembly
  import opened ReassemblyLaws
  import opened TcpSegments
  import opened Senders
  import opened SenderLaws
  import opened Receivers
  import opened Connections
  import opened Directions
  import opened Networks
  import opened ConnectionLaws
  import opened NetworkLaws
  import opened AcknowledgementLaws
  import opened ClosingLaws
  import opened TcpStates

  /** What no call takes back from a receiver. */
  ghost predicate Onward(r: Receiver, q: Receiver) {
    r.First() <= q.First() && (r.isnSet ==> q.isnSet) && (r.finSet ==> q.finSet)
  }

  lemma ReceiverOnward(c: Connection, op: Op)
    requires c.rcv.reasm.Wf() && (c.rcv.finSet ==> c.rcv.isnSet)
    ensures Onward(c.rcv, Apply(c, op).rcv)
  {
    if op.DoReceive? {
      var r, seg := c.rcv, op.seg;
      ReceivedReceiver(c, seg);
      PushKeeps(r.reasm, seg.payload, PayloadIndex(r, seg), seg.header.fin);
    }
  }

  lemma AckOnward(s: Sender, t: Sender, r: Receiver, q: Receiver)
    requires ReceiverInv(s, r) && ReceiverInv(t, q) && Onward(r, q)
    requires s.eof ==> t.stream.nread == s.stream.nread
    ensures ExactAck(s, r) <= ExactAck(t, q)
  {
    LimitFirst(t, q);
  }

  lemma NextOnward(s: System, e: Event)
    requires Safe(s) && Safe(Next(s, e))
    ensures var n := Next(s, e);
            Onward(s.b.rcv, n.b.rcv) && ExactAck(s.a.snd, s.b.rcv) <= ExactAck(n.a.snd, n.b.rcv)
  {
    var n := Next(s, e);
    if e.onA {
      ApplyStep(s.a, e.op);
    } else {
      ReceiverOnward(s.b, e.op);
    }
    AckOnward(s.a.snd, n.a.snd, s.b.rcv, n.b.rcv);
  }

  /** Between any state of a patient run and its end, the acknowledged position does not decrease. */
  lemma {:induction false} AckNeverDecreases(s: System, es: seq<Event>, n: nat)
    requires Initial(s) && Possible(s, es) && BothShort(After(s, es)) && Patient(s, es)
    requires n <= |es| && After(s, es[..n]).b.rcv.isnSet
    ensures After(s, es).b.rcv.isnSet
    ensures AckPosition(After(s, es[..n]).b.rcv) <= AckPosition(After(s, es).b.rcv)
  {
    if n == |es| {
      assert es[..n] == es;
    } else {
      var init := es[..|es| - 1];
      var before, after, e := After(s, init), After(s, es), es[|es| - 1];
      assert init[..n] == es[..n];
      StillShort(before, e);
      AckNeverDecreases(s, init, n);
      RunSafe(s, init);
      RunSafe(s, es);
      NextOnward(before, e);
      AcknowledgedIsDelivered(s, init);
      AcknowledgedIsDelivered(s, es);
    }
  }

  /** Where the bytes of the segment with the FIN start. */
  ghost function FinStart(s: Sender): nat
    requires s.log != []
  {
    DataStart(Position(s.log, |s.log| - 1))
  }

  /** Everything known lies below index `n`. */
  ghost predicate KnownBelow(r: Reassembler, n: nat) {
    r.First() <= n && forall i <- r.store :: i < n
  }

  /** Until the FIN is seen none of its segment's bytes are; once it is, all bytes written means the end is announced. */
  ghost predicate Complete(s: Sender, r: Receiver) {
    && r.finSet == r.reasm.eof
    && (s.eof && !r.reasm.eof ==> s.log != [] && KnownBelow(r.reasm, FinStart(s)))
    && (r.reasm.eof && r.First() == s.stream.nread ==> r.reasm.out.ended)
    && (r.reasm.out.ended ==> r.reasm.eof)
  }

  lemma PushBelow(r: Reassembler, data: seq<byte>, index: nat, eof: bool, n: nat)
    requires r.Wf() && KnownBelow(r, n) && index + |data| <= n
    ensures KnownBelow(Push(r, data, index, eof), n)
  {
    var p := Push(r, data, index, eof);
    PushKeeps(r, data, index, eof);
    forall i | i in p.store ensures i < n { PushKnows(r, data, index, eof, i); }
    if p.First() > 0 { PushKnows(r, data, index, eof, p.First() - 1); }
  }

  /** Only the last segment's bytes reach past where they start. */
  lemma EarlierEnds(s: Sender, i: nat)
    requires LogInv(s) && s.eof && i < |s.log| - 1
    ensures DataStart(Position(s.log, i)) + |s.log[i].payload| <= FinStart(s)
  {
    assert PlacedAt(s, i);
    assert !s.log[i].header.fin;
    NextPosition(s.log, i);
    PositionsGrow(s.log, i + 1, |s.log| - 1);
  }

  lemma LoggedCompletes(s: Sender, r: Receiver, seg: Segment, i: nat)
    requires Inv(s) && ReceiverInv(s, r) && Short(s) && Complete(s, r)
    requires i < |s.log| && Core(seg) == s.log[i] && (r.isnSet || seg.header.syn)
    ensures Complete(s, Accept(r, seg))
  {
    var index := PayloadIndex(r, seg);
    Located(s, r, seg, i);
    LimitSent(s, r);
    assert s.log[i].header.fin <==> s.eof && i == |s.log| - 1;
    PushKeeps(r.reasm, seg.payload, index, seg.header.fin);
    if s.eof && !r.reasm.eof && !seg.header.fin {
      EarlierEnds(s, i);
      PushBelow(r.reasm, seg.payload, index, false, FinStart(s));
    }
    PushCompletes(r.reasm, seg.payload, index, seg.header.fin, SentBytes(s));
    EndIsAnnounced(r.reasm, seg.payload, index, seg.header.fin);
  }

  lemma SegmentCompletes(s: Sender, r: Receiver, segs: set<Segment>, acks: set<Segment>, seg: Segment)
    requires Direction(s, r, segs, acks) && Short(s) && seg in segs && Complete(s, r)
    ensures Complete(s, SegmentReceived(r, seg).0)
  {
    assert Authentic(seg, s.log);
    if (r.isnSet || seg.header.syn) && Core(seg) in s.log {
      var i :| 0 <= i < |s.log| && s.log[i] == Core(seg);
      LoggedCompletes(s, r, seg, i);
    }
  }

  lemma ReceiverCompletes(c: Connection, op: Op, s: Sender, segs: set<Segment>, acks: set<Segment>)
    requires Direction(s, c.rcv, segs, acks) && Short(s) && Complete(s, c.rcv)
    requires op.DoReceive? ==> op.seg in segs
    ensures Complete(s, Apply(c, op).rcv)
  {
    if op.DoReceive? {
      ReceivedReceiver(c, op.seg);
      SegmentCompletes(s, c.rcv, segs, acks, op.seg);
    }
  }

  /** A sender that has sent its FIN adds nothing to its log. */
  lemma LogIsFinal(s: Sender, t: Sender, ack: nat)
    requires Inv(s) && Inv(t) && SenderStep(s, t, ack) && s.eof
    ensures t.log == s.log
  {
    assert |s.log| > 0 && s.log[|s.log| - 1].header.fin;
    assert t.log[|s.log| - 1].header.fin <==> t.eof && |s.log| - 1 == |t.log| - 1;
  }

  /** The FIN goes on bytes not taken from the stream before. */
  lemma FinIsNew(s: Sender, t: Sender, ack: nat)
    requires Inv(s) && Inv(t) && SenderStep(s, t, ack) && !s.eof && t.eof
    ensures t.log != [] && s.stream.nread <= FinStart(t)
  {
    var last := |t.log| - 1;
    assert t.log[last].header.fin;
    assert forall i :: 0 <= i < |s.log| ==> !s.log[i].header.fin && s.log[i] == t.log[i];
    assert t.log[..|s.log|] == s.log;
    PositionsGrow(t.log, |s.log|, last);
  }

  lemma SenderCompletes(s: Sender, t: Sender, ack: nat, r: Receiver)
    requires Inv(s) && Inv(t) && SenderStep(s, t, ack) && ReceiverInv(s, r) && Complete(s, r)
    ensures Complete(t, r)
  {
    LimitFirst(s, r);
    if s.eof {
      LogIsFinal(s, t, ack);
    } else if t.eof {
      FinIsNew(s, t, ack);
      assert forall i <- r.reasm.store :: i < |SentBytes(s)|;
    }
  }

  lemma NextCompletes(s: System, e: Event)
    requires Safe(s) && BothShort(s) && Enabled(s, e) && Complete(s.a.snd, s.b.rcv)
    ensures Complete(Next(s, e).a.snd, Next(s, e).b.rcv)
  {
    if e.onA {
      var a := s.a;
      ApplyInv(a, e.op);
      ApplyStep(a, e.op);
      SenderCompletes(a.snd, Apply(a, e.op).snd, if e.op.DoReceive? then AckOf(a.snd, e.op.seg.header) else a.snd.acked, s.b.rcv);
    } else {
      ReceiverCompletes(s.b, e.op, s.a.snd, s.ab, s.ba);
    }
  }

  /** In every run, once the FIN was seen and all bytes sent are delivered, the stream has ended. */
  lemma {:induction false} CompleteEnds(s: System, es: seq<Event>)
    requires Initial(s) && Possible(s, es) && BothShort(After(s, es))
    ensures Complete(After(s, es).a.snd, After(s, es).b.rcv)
  {
    if es != [] {
      var before, e := After(s, es[..|es| - 1]), es[|es| - 1];
      StillShort(before, e);
      RunSafe(s, es[..|es| - 1]);
      CompleteEnds(s, es[..|es| - 1]);
      NextCompletes(before, e);
    }
  }

  /** In every patient run the stream has ended exactly when the FIN was seen and all bytes sent are delivered. */
  lemma EndedIffComplete(s: System, es: seq<Event>)
    requires Initial(s) && Possible(s, es) && BothShort(After(s, es)) && Patient(s, es)
    ensures var f := After(s, es);
            f.b.rcv.reasm.out.ended <==> f.b.rcv.finSet && f.b.rcv.First() == f.a.snd.stream.nread
  {
    RunSafe(s, es);
    RunHonest(s, es);
    CompleteEnds(s, es);
    EndedState(After(s, es).a.snd, After(s, es).b.rcv, After(s, es).ba);
  }

  lemma EndedState(s: Sender, r: Receiver, acks: set<Segment>)
    requires ReceiverInv(s, r) && Honest(s, r, acks) && Complete(s, r)
    ensures r.reasm.out.ended <==> r.finSet && r.First() == s.stream.nread
  {
  }

  /** In every run, an endpoint that is over without a reset has had every byte it wrote delivered to its peer. */
  lemma CloseIsDelivered(s: System, es: seq<Event>)
    requires Initial(s) && Possible(s, es) && BothShort(After(s, es))
    requires var a := After(s, es).a; Undisturbed(a.snd) && !Active(a) && !a.rst
    ensures After(s, es).b.rcv.reasm.out.written == After(s, es).a.snd.stream.written
  {
    RunSafe(s, es);
    var f := After(s, es);
    CleanClose(f.a);
    LimitSent(f.a.snd, f.b.rcv);
  }

  /** In every patient run, what the receiver's state is called says how far the transfer has come. */
  lemma ReceiverNamesInRuns(s: System, es: seq<Event>)
    requires Initial(s) && Possible(s, es) && BothShort(After(s, es)) && Patient(s, es)
    ensures var f := After(s, es);
            var x := SummarizeReceiver(f.b.rcv);
            var complete := f.b.rcv.finSet && f.b.rcv.First() == f.a.snd.stream.nread;
            && (x.ReceiverError? <==> f.b.rcv.reasm.out.error)
            && (x.Listen? <==> !f.b.rcv.reasm.out.error && !f.b.rcv.isnSet)
            && (x.SynRecv? <==> !f.b.rcv.reasm.out.error && f.b.rcv.isnSet && !complete)
            && (x.FinRecv? <==> !f.b.rcv.reasm.out.error && complete)
  {
    RunSafe(s, es);
    EndedIffComplete(s, es);
    ReceiverNames(After(s, es).b.rcv);
  }
}
