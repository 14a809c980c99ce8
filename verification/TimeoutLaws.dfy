/** How long a connection must wait before it gives up. */
module TimeoutLaws {
  import opened Integers
  import opened ByteStreams
  import opened TcpSegments
  import opened Senders
  import opened SenderLaws
  import opened Connections
  import opened Networks
  import opened ConnectionLaws

  /** The states an endpoint goes through under a sequence of calls, with any segments from anyone. */
  ghost predicate Trace(cs: seq<Connection>, ops: seq<Op>) {
    && |cs| == |ops| + 1
    && forall i :: 0 <= i < |ops| ==> cs[i + 1] == Apply(cs[i], ops[i])
  }

  /** The clocks agree, and a connection still alive has not exhausted its retransmissions. */
  ghost predicate EndpointInv(c: Connection) {
    && Inv(c.snd)
    && c.time == c.snd.time && c.lastSegment <= c.time
    && (!c.rst ==> c.snd.retx <= MAX_RETX_ATTEMPTS)
  }

  /** The three things a call can do to the timer: leave no backoff, leave it be, or back off once. */
  ghost predicate TimerStep(s: Sender, t: Sender) {
    || t.retx == 0
    || (t.retx == s.retx && t.timer.start == s.timer.start && t.acked == s.acked)
    || (t.retx == s.retx + 1 && t.acked == s.acked && s.timer.active
        && t.timer.start == t.time && t.time - s.timer.start >= s.timer.rto)
  }

  ghost predicate Steps(s: Sender, t: Sender) {
    TimerStep(s, t) && t.initialRto == s.initialRto && (t.retx <= s.retx || t.retx == s.retx + 1)
  }

  lemma FillTimer(s: Sender, t: Sender)
    requires TimerInv(t) && Steps(s, t) && (!t.timer.active ==> t.retx == 0)
    ensures Steps(s, FillWindow(t)) && FillWindow(t).time == t.time
    ensures FillWindow(t).retx == t.retx
  {
    FillWindowFrame(t);
  }

  lemma HandleAckTimer(s: Sender, header: TcpHeader)
    requires Inv(s)
    ensures Steps(s, HandleAck(s, header).0)
    ensures HandleAck(s, header).0.time == s.time && HandleAck(s, header).0.retx <= s.retx
  {
    var ack, t := AckOf(s, header), s.(window := header.win);
    FillTimer(s, s);
    FillTimer(s, t);
    if header.ack && t.acked < ack <= t.sent {
      NewAckTimer(t, ack);
      FillTimer(s, NewAck(t, ack));
    }
  }

  lemma ConnectTimer(s: Sender, stream: Stream)
    requires Inv(s)
    ensures var t := FillWindow(WithStream(s, stream)).(out := []);
            Steps(s, t) && t.time == s.time && t.retx <= s.retx
  {
    FillTimer(s, WithStream(s, stream));
  }

  lemma ReceivedTimer(c: Connection, seg: Segment)
    requires Inv(c.snd)
    ensures Steps(c.snd, Receive(c, seg).snd)
    ensures Receive(c, seg).snd.time == c.snd.time && Receive(c, seg).snd.retx <= c.snd.retx
  {
    HandleAckTimer(c.snd, seg.header);
    ReceivedSender(c, seg);
  }

  lemma TickedTimer(c: Connection, ms: nat)
    requires Inv(c.snd)
    ensures Steps(c.snd, Connections.Tick(c, ms).snd)
    ensures Connections.Tick(c, ms).snd.time == c.snd.time + ms
  {
    TickedSender(c, ms);
  }

  lemma ApplyTimer(c: Connection, op: Op)
    requires Inv(c.snd)
    ensures Steps(c.snd, Apply(c, op).snd)
    ensures Apply(c, op).snd.time == c.snd.time + (if op.DoTick? then op.ms else 0)
    ensures !op.DoTick? ==> Apply(c, op).snd.retx <= c.snd.retx
  {
    var s := c.snd;
    match op
    case DoConnect => ConnectTimer(s, s.stream);
    case DoWrite(data) => ConnectTimer(s, Append(s.stream, data));
    case DoEndInput => ConnectTimer(s, s.stream.(ended := true));
    case DoTick(ms) => TickedTimer(c, ms);
    case DoRead(len) =>
    case DoReceive(seg) => ReceivedTimer(c, seg);
  }

  lemma ApplyClock(c: Connection, op: Op)
    ensures Apply(c, op).time == c.time + (if op.DoTick? then op.ms else 0)
    ensures Apply(c, op).lastSegment == if op.DoReceive? then c.time else c.lastSegment
    ensures Apply(c, op).rst <==>
              || c.rst || (op.DoReceive? && op.seg.header.rst)
              || (op.DoTick? && Apply(c, op).snd.retx > MAX_RETX_ATTEMPTS)
  {
  }

  lemma ApplyEndpoint(c: Connection, op: Op)
    requires EndpointInv(c)
    ensures EndpointInv(Apply(c, op))
  {
    ApplyInv(c, op);
    ApplyTimer(c, op);
    ApplyClock(c, op);
  }

  lemma {:induction false} TraceEndpoint(cs: seq<Connection>, ops: seq<Op>, n: nat)
    requires Trace(cs, ops) && EndpointInv(cs[0]) && n <= |ops|
    ensures EndpointInv(cs[n]) && cs[n].snd.initialRto == cs[0].snd.initialRto
    ensures n < |ops| ==> Steps(cs[n].snd, cs[n + 1].snd)
  {
    if n > 0 {
      TraceEndpoint(cs, ops, n - 1);
      ApplyEndpoint(cs[n - 1], ops[n - 1]);
      ApplyTimer(cs[n - 1], ops[n - 1]);
    }
    if n < |ops| { ApplyTimer(cs[n], ops[n]); }
  }

  /** Between states `i` and `n` nothing new was acknowledged, and at `i` the timer had no backoff. */
  ghost predicate SilentSince(cs: seq<Connection>, i: nat, n: nat)
    requires i <= n < |cs|
  {
    && cs[i].snd.retx == 0
    && forall j :: i <= j <= n ==> cs[j].snd.acked == cs[i].snd.acked
  }

  /** State `i` is the last one up to `n` without backoff. */
  ghost predicate BackedOffSince(cs: seq<Connection>, i: nat, n: nat)
    requires i <= n < |cs|
  {
    forall j :: i < j <= n ==> cs[j].snd.retx > 0
  }

  lemma ExactRto(s: Sender)
    requires TimerInv(s) && s.retx <= 9
    ensures s.timer.rto == s.initialRto * Pow2(s.retx)
  {
    Pow2Grows(s.retx, 9);
    assert Pow2(9) == 512;
    SmallProduct(s.initialRto, Pow2(s.retx));
  }

  lemma SmallProduct(x: nat, y: nat)
    requires x <= 0xffff && y <= 512
    ensures (x * y) % 0x1_0000_0000_0000_0000 == x * y
  {
    ProductBound(x, y);
    SmallRemainder(x * y);
  }

  lemma ProductBound(x: nat, y: nat)
    requires x <= 0xffff && y <= 512
    ensures x * y <= 0x1ff_fe00
  {
    assert x * 512 - x * y == x * (512 - y) >= 0;
  }

  lemma SmallRemainder(p: nat)
    requires p <= 0x1ff_fe00
    ensures p % 0x1_0000_0000_0000_0000 == p
  {
  }

  lemma {:induction false} Pow2Grows(k: nat, m: nat)
    requires k <= m
    ensures Pow2(k) <= Pow2(m)
    decreases m - k
  {
    if k < m { Pow2Grows(k + 1, m); }
  }

  lemma BackoffStep(s: Sender, t: Sender, origin: nat)
    requires TimerInv(s) && Steps(s, t) && 0 < t.retx <= 9
    requires s.timer.start - origin >= (Pow2(s.retx) - 1) * s.initialRto
    ensures t.timer.start - origin >= (Pow2(t.retx) - 1) * s.initialRto && t.acked == s.acked
  {
    if t.retx == s.retx + 1 {
      ExactRto(s);
      DoubledWait(Pow2(s.retx), s.initialRto);
    }
  }

  lemma DoubledWait(p: int, rto: int)
    ensures (2 * p - 1) * rto == (p - 1) * rto + rto * p
  {
  }

  ghost predicate WellTimed(cs: seq<Connection>, n: nat)
    requires n < |cs|
  {
    && (forall k :: 0 <= k <= n ==> TimerInv(cs[k].snd) && cs[k].snd.initialRto == cs[0].snd.initialRto)
    && (forall k :: 0 <= k < n ==> Steps(cs[k].snd, cs[k + 1].snd))
  }

  /** After `k` retransmissions in a row the timer restarted at least (2^k - 1) timeouts after it started unbacked. */
  lemma {:induction false} Backoff(cs: seq<Connection>, n: nat) returns (i: nat)
    requires n < |cs| && WellTimed(cs, n) && cs[0].snd.retx == 0 && cs[n].snd.retx <= 9
    ensures i <= n && SilentSince(cs, i, n) && BackedOffSince(cs, i, n)
    ensures cs[n].snd.retx > 0 ==> cs[i].snd.timer.active
    ensures cs[n].snd.timer.start - cs[i].snd.timer.start >= (Pow2(cs[n].snd.retx) - 1) * cs[0].snd.initialRto
    decreases n
  {
    if cs[n].snd.retx == 0 {
      i := n;
    } else {
      i := Backoff(cs, n - 1);
      BackoffOn(cs, n, i);
    }
  }

  lemma BackoffOn(cs: seq<Connection>, n: nat, i: nat)
    requires 0 < n < |cs| && WellTimed(cs, n) && 0 < cs[n].snd.retx <= 9
    requires i < n && SilentSince(cs, i, n - 1) && BackedOffSince(cs, i, n - 1)
    requires cs[n - 1].snd.retx > 0 ==> cs[i].snd.timer.active
    requires cs[n - 1].snd.timer.start - cs[i].snd.timer.start >= (Pow2(cs[n - 1].snd.retx) - 1) * cs[0].snd.initialRto
    ensures SilentSince(cs, i, n) && BackedOffSince(cs, i, n) && cs[i].snd.timer.active
    ensures cs[n].snd.timer.start - cs[i].snd.timer.start >= (Pow2(cs[n].snd.retx) - 1) * cs[0].snd.initialRto
  {
    assert Steps(cs[n - 1].snd, cs[n - 1 + 1].snd);
    assert cs[n - 1].snd.retx == 0 ==> i == n - 1;
    BackoffStep(cs[n - 1].snd, cs[n].snd, cs[i].snd.timer.start);
  }

  /**
   * A timeout resets a live connection only on the ninth retransmission in a row, at least 511 timeouts
   * after the timer last started without backoff, with nothing acknowledged in between.
   */
  lemma AbortBound(cs: seq<Connection>, ops: seq<Op>, n: nat) returns (i: nat)
    requires Trace(cs, ops) && EndpointInv(cs[0]) && cs[0].snd.retx == 0
    requires n < |ops| && ops[n].DoTick? && !cs[n].rst && cs[n + 1].rst
    ensures cs[n + 1].snd.retx == 9
    ensures i <= n && SilentSince(cs, i, n + 1) && BackedOffSince(cs, i, n + 1) && cs[i].snd.timer.active
    ensures cs[n + 1].time - cs[i].snd.timer.start >= 511 * cs[0].snd.initialRto
  {
    forall k | 0 <= k <= n + 1
      ensures EndpointInv(cs[k]) && cs[k].snd.initialRto == cs[0].snd.initialRto
      ensures k <= n ==> Steps(cs[k].snd, cs[k + 1].snd)
    {
      TraceEndpoint(cs, ops, k);
    }
    ResetCount(cs[n], ops[n]);
    i := Backoff(cs, n);
    BackoffStep(cs[n].snd, cs[n + 1].snd, cs[i].snd.timer.start);
    assert Pow2(9) == 512;
  }

  lemma ResetCount(c: Connection, op: Op)
    requires EndpointInv(c) && op.DoTick? && !c.rst && Apply(c, op).rst
    ensures Apply(c, op).snd.retx == c.snd.retx + 1 == 9 && Apply(c, op).time == Apply(c, op).snd.timer.start
  {
    ApplyTimer(c, op);
    ApplyClock(c, op);
  }

  lemma FreshEndpointInv(c: Connection)
    requires FreshEndpoint(c)
    ensures EndpointInv(c) && c.snd.retx == 0
  {
    FreshInv(c.snd.isn, c.snd.initialRto, c.snd.stream.capacity);
  }
}
