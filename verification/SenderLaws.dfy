/** What every run of the sender keeps: the log tiles the sequence space, the queue is its tail, the timer follows. */
module SenderLaws {
  import opened Integers
  import opened ByteStreams
  import opened TcpSegments
  import opened WrappingIntegers
  import opened Senders

  /** Sequence numbers occupied by a whole list of segments. */
  function SeqSpan(q: seq<Segment>): nat {
    if q == [] then 0 else SeqSpan(q[..|q| - 1]) + SeqLen(q[|q| - 1])
  }

  lemma {:induction false} SpanSplits(a: seq<Segment>, b: seq<Segment>)
    ensures SeqSpan(a + b) == SeqSpan(a) + SeqSpan(b)
  {
    if b == [] {
      assert a + b == a;
    } else {
      SpanSplits(a, b[..|b| - 1]);
      assert (a + b)[..|a + b| - 1] == a + b[..|b| - 1];
    }
  }

  /** The stream index of the first payload byte of a segment at position `p`; the SYN sits at position 0. */
  function DataStart(p: nat): nat {
    if p == 0 then 0 else p - 1
  }

  /** A segment made by filling the window at position `p`: name, flags and bytes are all determined by `p`. */
  ghost predicate Placed(seg: Segment, p: nat, isn: u32, written: seq<byte>) {
    && seg.header == DEFAULT_HEADER.(seqno := Wrap(p, isn), syn := p == 0, fin := seg.header.fin)
    && SeqLen(seg) >= 1 && |seg.payload| <= MAX_PAYLOAD_SIZE
    && DataStart(p) + |seg.payload| <= |written|
    && seg.payload == written[DataStart(p)..DataStart(p) + |seg.payload|]
  }

  function Position(log: seq<Segment>, i: nat): nat
    requires i <= |log|
  {
    SeqSpan(log[..i])
  }

  /** Segment `i` of the log starts where the ones before it end. */
  ghost predicate PlacedAt(s: Sender, i: nat)
    requires i < |s.log|
  {
    Placed(s.log[i], Position(s.log, i), s.isn, s.stream.written)
  }

  /** The log tiles positions 0 to `sent` without gap or overlap, and only its last segment can carry the FIN. */
  ghost predicate LogInv(s: Sender) {
    && s.sent == SeqSpan(s.log)
    && s.sent == (if s.log == [] then 0 else 1) + s.stream.nread + (if s.eof then 1 else 0)
    && (s.log == [] ==> s.stream.nread == 0 && !s.eof)
    && (s.eof ==> s.stream.ended)
    && (forall i :: 0 <= i < |s.log| ==> PlacedAt(s, i))
    && (forall i :: 0 <= i < |s.log| ==> (s.log[i].header.fin <==> s.eof && i == |s.log| - 1))
  }

  lemma NextFacts(s: Sender)
    requires !Blocked(s)
    ensures var n, seg := PayloadLen(s), NextSegment(s);
            && n <= Size(s.stream) && n <= MAX_PAYLOAD_SIZE
            && seg.payload == s.stream.written[s.stream.nread..s.stream.nread + n]
            && SendOne(s).stream == s.stream.(nread := s.stream.nread + n)
            && SeqLen(seg) == SynLen(s) + n + (if seg.header.fin then 1 else 0)
            && (seg.header.fin ==> s.stream.ended && s.stream.nread + n == |s.stream.written|)
  {
  }

  lemma SpanAppend(log: seq<Segment>, seg: Segment)
    ensures SeqSpan(log + [seg]) == SeqSpan(log) + SeqLen(seg)
    ensures forall i :: 0 <= i <= |log| ==> (log + [seg])[..i] == log[..i]
  {
  }

  lemma LogPositive(s: Sender)
    requires LogInv(s)
    ensures s.sent == 0 <==> s.log == []
  {
  }

  lemma SendOneLog(s: Sender)
    requires LogInv(s) && !Blocked(s)
    ensures LogInv(SendOne(s))
  {
    var t, seg := SendOne(s), NextSegment(s);
    NextFacts(s);
    SpanAppend(s.log, seg);
    forall i | 0 <= i < |t.log| ensures PlacedAt(t, i) {
      assert Position(t.log, i) == Position(s.log, i) by { assert t.log[..i] == s.log[..i]; }
      if i < |s.log| {
        assert PlacedAt(s, i) && t.log[i] == s.log[i];
      } else {
        assert s.log[..i] == s.log;
      }
    }
  }

  /** The queue is the tail of the log from its first segment not fully acknowledged. */
  ghost predicate QueueInv(s: Sender) {
    && |s.unacked| <= |s.log|
    && var k := |s.log| - |s.unacked|;
    && s.unacked == s.log[k..]
    && Position(s.log, k) <= s.acked
    && (s.unacked != [] ==> s.acked < Position(s.log, k) + SeqLen(s.unacked[0]))
    && InFlight(s) <= 0xffff
  }

  lemma SendOneQueue(s: Sender)
    requires LogInv(s) && QueueInv(s) && !Blocked(s)
    ensures QueueInv(SendOne(s))
  {
    var t, seg, k := SendOne(s), NextSegment(s), |s.log| - |s.unacked|;
    assert t.log[k..] == s.log[k..] + [seg];
    assert t.log[..k] == s.log[..k];
    if s.unacked == [] {
      assert s.log[..k] == s.log;
    }
  }

  /** The timer runs exactly while something is unacknowledged, and backs off once per retransmission. */
  ghost predicate TimerInv(s: Sender) {
    && (s.timer.active <==> s.unacked != [])
    && (!s.timer.active ==> s.retx == 0)
    && s.timer.rto == (s.initialRto * Pow2(s.retx)) % 0x1_0000_0000_0000_0000
    && s.timer.start <= s.time
  }

  lemma SendOneTimer(s: Sender)
    requires TimerInv(s) && !Blocked(s)
    ensures TimerInv(SendOne(s))
  {
  }

  /** An empty segment, as sent to carry an acknowledgement alone. */
  predicate Bare(seg: Segment) {
    seg.payload == [] && seg.header == DEFAULT_HEADER.(seqno := seg.header.seqno)
  }

  /** Whatever waits to be sent repeats a logged segment or is bare. */
  ghost predicate OutInv(s: Sender) {
    forall seg <- s.out :: seg in s.log || Bare(seg)
  }

  lemma SendOneOut(s: Sender)
    requires OutInv(s) && !Blocked(s)
    ensures OutInv(SendOne(s))
  {
  }

  ghost predicate Inv(s: Sender) {
    LogInv(s) && QueueInv(s) && TimerInv(s) && OutInv(s)
  }

  lemma {:induction false} FillWindowInv(s: Sender)
    requires Inv(s)
    ensures Inv(FillWindow(s))
    decreases EffectiveWindow(s) - InFlight(s)
  {
    if !Blocked(s) {
      SendOneLog(s);
      SendOneQueue(s);
      SendOneTimer(s);
      SendOneOut(s);
      FillWindowInv(SendOne(s));
    }
  }

  /** Filling stops only at the FIN, at a full window, or at an open stream with nothing buffered. */
  lemma {:induction false} FillWindowDone(s: Sender)
    ensures var t := FillWindow(s);
            t.eof || InFlight(t) >= EffectiveWindow(t) || (Size(t.stream) == 0 && !t.stream.ended)
    decreases EffectiveWindow(s) - InFlight(s)
  {
    if !Blocked(s) {
      FillWindowDone(SendOne(s));
    }
  }

  /** Filling only appends to the log, stays within the window, and touches nothing it need not. */
  lemma {:induction false} FillWindowFrame(s: Sender)
    ensures var t := FillWindow(s);
            && s.log <= t.log
            && (t.isn, t.initialRto, t.retx, t.time, t.window, t.acked) == (s.isn, s.initialRto, s.retx, s.time, s.window, s.acked)
            && (t.stream.written, t.stream.capacity, t.stream.ended, t.stream.error)
               == (s.stream.written, s.stream.capacity, s.stream.ended, s.stream.error)
            && s.stream.nread <= t.stream.nread
            && s.sent <= t.sent
            && (t.sent == s.sent || t.sent <= s.acked + EffectiveWindow(s))
            && (s.eof ==> t == s)
            && (s.timer.active ==> t.timer == s.timer)
            && (s.unacked <= t.unacked)
    decreases EffectiveWindow(s) - InFlight(s)
  {
    if !Blocked(s) {
      FillWindowFrame(SendOne(s));
    }
  }

  lemma NextPosition(log: seq<Segment>, i: nat)
    requires i < |log|
    ensures Position(log, i + 1) == Position(log, i) + SeqLen(log[i])
  {
    assert log[..i + 1][..i] == log[..i];
  }

  lemma {:induction false} PositionsGrow(log: seq<Segment>, i: nat, j: nat)
    requires i <= j <= |log|
    ensures Position(log, i) <= Position(log, j) <= SeqSpan(log)
    decreases |log| - i
  {
    if i < j {
      NextPosition(log, i);
      PositionsGrow(log, i + 1, j);
    } else if j < |log| {
      NextPosition(log, j);
      PositionsGrow(log, j + 1, j + 1);
    } else {
      assert log[..j] == log;
    }
  }

  /** Popping by 32-bit names leaves exactly the segments that end after `ack`. */
  lemma {:induction false} PopFrom(s: Sender, ack: nat, k: nat)
    requires LogInv(s) && k <= |s.log|
    requires Position(s.log, k) <= ack <= s.sent
    requires ack - Position(s.log, k) < 0x8000_0000
    ensures var q := PopAcked(s.log[k..], s.isn, ack);
            && |q| <= |s.log| - k
            && var j := |s.log| - |q|;
            && q == s.log[j..] && Position(s.log, j) <= ack
            && (q != [] ==> ack < Position(s.log, j) + SeqLen(q[0]))
    decreases |s.log| - k
  {
    if k < |s.log| {
      var seg, p := s.log[k], Position(s.log, k);
      assert s.log[k..][0] == seg && s.log[k..][1..] == s.log[k + 1..];
      assert PlacedAt(s, k);
      assert Unwrap(seg.header.seqno, s.isn, ack) == p by { RoundTrip(p, s.isn, ack); }
      NextPosition(s.log, k);
      if p + SeqLen(seg) <= ack {
        PopFrom(s, ack, k + 1);
      }
    } else {
      assert s.log[k..] == [];
    }
  }

  /** The oldest unacknowledged position is close enough to any acceptable acknowledgement to be compared by name. */
  lemma QueueStartsNear(s: Sender)
    requires LogInv(s) && QueueInv(s)
    ensures s.sent - Position(s.log, |s.log| - |s.unacked|) < 0x2_0000
  {
    var k := |s.log| - |s.unacked|;
    if s.unacked == [] {
      assert s.log[..k] == s.log;
    } else {
      assert s.unacked[0] == s.log[k] && PlacedAt(s, k);
    }
  }

  lemma NewAckQueue(s: Sender, ack: nat)
    requires LogInv(s) && QueueInv(s) && s.acked < ack <= s.sent
    ensures QueueInv(NewAck(s, ack))
  {
    QueueStartsNear(s);
    PopFrom(s, ack, |s.log| - |s.unacked|);
  }

  lemma NewAckTimer(s: Sender, ack: nat)
    requires TimerInv(s) && s.acked < ack <= s.sent
    ensures TimerInv(NewAck(s, ack))
  {
    assert Pow2(0) == 1;
  }

  lemma NewAckInv(s: Sender, ack: nat)
    requires Inv(s) && s.acked < ack <= s.sent
    ensures Inv(NewAck(s, ack))
  {
    var t := NewAck(s, ack);
    KeepLog(s, t);
    NewAckQueue(s, ack);
    NewAckTimer(s, ack);
  }

  /** The log invariant speaks only of these fields; the stream may also have grown. */
  lemma KeepLog(s: Sender, t: Sender)
    requires LogInv(s)
    requires (t.isn, t.log, t.sent, t.eof, t.stream.nread) == (s.isn, s.log, s.sent, s.eof, s.stream.nread)
    requires s.stream.written <= t.stream.written && (s.stream.ended ==> t.stream.ended)
    ensures LogInv(t)
  {
    forall i | 0 <= i < |t.log| ensures PlacedAt(t, i) {
      assert PlacedAt(s, i);
    }
  }

  /** An acknowledgement removes exactly the segments that end at or before it, though the code compares 32-bit names. */
  lemma AckPopsExactly(s: Sender, ack: nat, i: nat)
    requires Inv(s) && s.acked < ack <= s.sent
    requires |s.log| - |s.unacked| <= i < |s.log|
    ensures |s.log| - |NewAck(s, ack).unacked| <= i <==> Position(s.log, i + 1) > ack
  {
    NewAckQueue(s, ack);
    QueueSplits(NewAck(s, ack), i);
  }

  /** The queue holds exactly the segments that end after the acknowledged position. */
  lemma QueueSplits(s: Sender, i: nat)
    requires QueueInv(s) && i < |s.log|
    ensures |s.log| - |s.unacked| <= i <==> Position(s.log, i + 1) > s.acked
  {
    var j := |s.log| - |s.unacked|;
    if j <= i {
      assert s.unacked[0] == s.log[j];
      NextPosition(s.log, j);
      PositionsGrow(s.log, j + 1, i + 1);
    } else {
      PositionsGrow(s.log, i + 1, j);
    }
  }

  /** Nothing is in flight exactly when nothing is queued for retransmission. */
  lemma QueueEmptyIffIdle(s: Sender)
    requires LogInv(s) && QueueInv(s)
    ensures s.unacked == [] <==> InFlight(s) == 0
  {
    var k := |s.log| - |s.unacked|;
    if s.unacked == [] {
      assert s.log[..k] == s.log;
    } else {
      assert s.unacked[0] == s.log[k];
      NextPosition(s.log, k);
      PositionsGrow(s.log, k + 1, |s.log|);
    }
  }

  lemma AckReceivedInv(s: Sender, ackno: u32, win: u16)
    requires Inv(s)
    ensures Inv(AckReceived(s, ackno, win).0)
  {
    var ack, w := Unwrap(ackno, s.isn, s.acked), s.(window := win);
    assert Inv(w) by { KeepLog(s, w); }
    if ack == s.acked {
      FillWindowInv(w);
    } else if s.acked < ack <= s.sent {
      NewAckInv(w, ack);
      FillWindowInv(NewAck(w, ack));
    }
  }

  lemma DoublingWraps(x: nat)
    ensures ((x % 0x1_0000_0000_0000_0000) * 2) % 0x1_0000_0000_0000_0000 == (2 * x) % 0x1_0000_0000_0000_0000
  {
    var q, r := x / 0x1_0000_0000_0000_0000, x % 0x1_0000_0000_0000_0000;
    var carry := if 2 * r >= 0x1_0000_0000_0000_0000 then 1 else 0;
    assert 2 * x == (2 * q + carry) * 0x1_0000_0000_0000_0000 + (2 * r - carry * 0x1_0000_0000_0000_0000);
    assert (2 * x) / 0x1_0000_0000_0000_0000 == 2 * q + carry;
  }

  lemma TickTimer(s: Sender, ms: nat)
    requires TimerInv(s)
    ensures TimerInv(Tick(s, ms))
  {
    DoublingWraps(s.initialRto * Pow2(s.retx));
    assert s.initialRto * Pow2(s.retx + 1) == 2 * (s.initialRto * Pow2(s.retx));
  }

  lemma TickInv(s: Sender, ms: nat)
    requires Inv(s)
    ensures Inv(Tick(s, ms))
  {
    var t := Tick(s, ms);
    KeepLog(s, t);
    TickTimer(s, ms);
    if s.unacked != [] { assert s.unacked[0] in s.log; }
  }

  lemma SendEmptyInv(s: Sender)
    requires Inv(s)
    ensures Inv(SendEmpty(s))
  {
    KeepLog(s, SendEmpty(s));
  }

  /** The application may write, end the input or be told of an error, and the queue may be drained, at any time. */
  lemma OutsideInv(s: Sender, stream: Stream, out: seq<Segment>)
    requires Inv(s) && s.stream.written <= stream.written && stream.nread == s.stream.nread
    requires s.stream.ended ==> stream.ended
    requires forall seg <- out :: seg in s.out
    ensures Inv(s.(stream := stream, out := out))
  {
    KeepLog(s, s.(stream := stream, out := out));
  }

  lemma FreshInv(isn: u32, initialRto: u16, capacity: nat)
    ensures Inv(FreshSender(isn, initialRto, capacity))
  {
    assert Pow2(0) == 1;
  }

  function Payloads(q: seq<Segment>): seq<byte> {
    if q == [] then [] else Payloads(q[..|q| - 1]) + q[|q| - 1].payload
  }

  /** How many stream bytes the first `i` segments carry: all positions but the SYN's and the FIN's. */
  ghost function BytesBefore(s: Sender, i: nat): int
    requires i <= |s.log|
  {
    DataStart(Position(s.log, i)) - (if i == |s.log| && s.eof then 1 else 0)
  }

  lemma BytesBeforeNext(s: Sender, i: nat)
    requires LogInv(s) && i < |s.log|
    ensures BytesBefore(s, i) == DataStart(Position(s.log, i))
    ensures BytesBefore(s, i + 1) == BytesBefore(s, i) + |s.log[i].payload|
  {
    NextPosition(s.log, i);
    assert PlacedAt(s, i);
    assert s.log[i].header.fin <==> s.eof && i == |s.log| - 1;
  }

  /** The bytes of the first `i` segments are the bytes of the stream up to there. */
  lemma {:induction false} PayloadsUpTo(s: Sender, i: nat)
    requires LogInv(s) && i <= |s.log|
    ensures 0 <= BytesBefore(s, i) <= |s.stream.written|
    ensures Payloads(s.log[..i]) == s.stream.written[..BytesBefore(s, i)]
  {
    if i > 0 {
      PayloadsUpTo(s, i - 1);
      BytesBeforeNext(s, i - 1);
      assert s.log[..i][..i - 1] == s.log[..i - 1];
      assert PlacedAt(s, i - 1);
    }
  }

  /** First transmissions followed by what is still buffered are all the bytes ever written. */
  lemma Conservation(s: Sender)
    requires LogInv(s)
    ensures Payloads(s.log) + s.stream.written[s.stream.nread..] == s.stream.written
  {
    PayloadsUpTo(s, |s.log|);
    assert s.log[..|s.log|] == s.log;
  }

  /** A logged segment lies below `sent`, and its bytes below what has been taken off the stream. */
  lemma LoggedBelowSent(s: Sender, i: nat)
    requires LogInv(s) && i < |s.log|
    ensures Position(s.log, i) + SeqLen(s.log[i]) <= s.sent
    ensures DataStart(Position(s.log, i)) + |s.log[i].payload| <= s.stream.nread
    ensures s.log[i].header.fin ==> DataStart(Position(s.log, i)) + |s.log[i].payload| == s.stream.nread
  {
    var last := |s.log| - 1;
    NextPosition(s.log, i);
    PositionsGrow(s.log, i + 1, |s.log|);
    assert PlacedAt(s, i);
    assert s.log[i].header.fin <==> s.eof && i == last;
    if i < last {
      NextPosition(s.log, last);
      PositionsGrow(s.log, i + 1, last);
      assert PlacedAt(s, last);
    }
    assert s.log[..|s.log|] == s.log;
  }

  /** The FIN is on the last segment alone, and its sequence number is the one after the last byte of the stream. */
  lemma FinPosition(s: Sender, i: nat)
    requires LogInv(s) && i < |s.log|
    ensures s.log[i].header.fin ==>
              && i == |s.log| - 1 && s.eof
              && Position(s.log, i) + SeqLen(s.log[i]) - 1 == 1 + s.stream.nread == s.sent - 1
    ensures s.eof ==> s.log[|s.log| - 1].header.fin
  {
    assert s.log[i].header.fin <==> s.eof && i == |s.log| - 1;
    assert s.log[|s.log| - 1].header.fin <==> s.eof;
    NextPosition(s.log, i);
    assert s.log[..|s.log|] == s.log;
  }

  /** A timeout sends again exactly the logged segment that holds the first unacknowledged position. */
  lemma RetransmissionRepeats(s: Sender, ms: nat)
    requires Inv(s)
    ensures var t := Tick(s, ms);
            && (t.retx == s.retx ==> t.out == s.out)
            && (t.retx != s.retx ==>
                  var k := |s.log| - |s.unacked|;
                  && k < |s.log| && t.out == s.out + [s.log[k]]
                  && Position(s.log, k) <= s.acked < Position(s.log, k + 1))
  {
    var k := |s.log| - |s.unacked|;
    if k < |s.log| {
      NextPosition(s.log, k);
    }
  }

  /** Nothing more can be sent now: the FIN is out, the window is used up, or nothing is buffered and the stream is open. */
  predicate Filled(s: Sender) {
    || s.eof || s.sent - s.acked >= (if s.window == 0 then 1 else s.window)
    || (s.stream.nread == |s.stream.written| && !s.stream.ended)
  }

  lemma FillsUp(s: Sender)
    ensures Filled(FillWindow(s))
  {
    FillWindowDone(s);
  }

  /**
   * Every acknowledgement sets the window and is refused exactly when it lies past what was sent. One at or beyond the
   * acknowledged position is recorded and the new window is used at once; one below it changes nothing else.
   */
  lemma AckUsesWindow(s: Sender, ackno: u32, win: u16)
    ensures var (t, ok) := AckReceived(s, ackno, win);
            var ack := Unwrap(ackno, s.isn, s.acked);
            && t.window == win && (ok <==> ack <= s.sent)
            && (s.acked <= ack <= s.sent ==> t.acked == ack && Filled(t))
            && (ack < s.acked || ack > s.sent ==> t == s.(window := win))
  {
    var ack, w := Unwrap(ackno, s.isn, s.acked), s.(window := win);
    if ack == s.acked {
      FillsUp(w);
      FillWindowFrame(w);
    } else if s.acked < ack <= s.sent {
      FillsUp(NewAck(w, ack));
      FillWindowFrame(NewAck(w, ack));
    }
  }

  /** A new acknowledgement ends any backoff, and the timer starts afresh now if anything is still queued. */
  lemma NewAckRestarts(s: Sender, ack: nat)
    requires s.acked < ack <= s.sent
    ensures var t := NewAck(s, ack);
            && t.retx == 0 && t.timer.rto == s.initialRto
            && (t.timer.active <==> t.unacked != [])
            && (t.unacked != [] ==> t.timer.start == s.time)
  {
  }

  /** Filling starts an idle timer now, with the initial timeout, exactly when it sends something. */
  lemma {:induction false} FillStartsTimer(s: Sender)
    requires !s.timer.active
    ensures var t := FillWindow(s);
            && (t.timer.active <==> t.sent > s.sent)
            && (t.sent > s.sent ==> t.timer.start == s.time && t.timer.rto == s.initialRto)
  {
    if !Blocked(s) {
      FillWindowFrame(SendOne(s));
    }
  }

  // Segment sizes.

  lemma SmallIsLast(s: Sender)
    requires !Blocked(s)
    ensures |NextSegment(s).payload| <= 1000
    ensures |NextSegment(s).payload| < 1000 ==> Blocked(SendOne(s))
  {
  }

  /** Each filling makes segments of 1000 bytes, but for the last, which may be shorter. */
  lemma {:induction false} FullSegments(s: Sender)
    ensures var t := FillWindow(s);
            && s.log <= t.log
            && (forall i :: |s.log| <= i < |t.log| ==> |t.log[i].payload| <= 1000)
            && (forall i :: |s.log| <= i < |t.log| - 1 ==> |t.log[i].payload| == 1000)
    decreases EffectiveWindow(s) - InFlight(s)
  {
    if !Blocked(s) {
      SmallIsLast(s);
      FullSegments(SendOne(s));
    }
  }
}
