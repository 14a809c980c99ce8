/** What every sequence of pushes guarantees, whatever the order, overlap or size of the pieces. */
module ReassemblyLaws {
  import opened Integers
  import opened ByteStreams
  import opened Reassembly

  /** Index `i` has been written to the output or waits in the store. */
  ghost predicate Knows(r: Reassembler, i: nat) {
    i < r.First() || i in r.store
  }

  /** Everything written and everything stored is what stream `s` has there. */
  ghost predicate Agrees(r: Reassembler, s: seq<byte>) {
    && r.out.written <= s
    && forall i <- r.store :: i < |s| && r.store[i] == s[i]
  }

  /** The output is full, or the next byte is missing. */
  ghost predicate Greedy(r: Reassembler) {
    Room(r.out) == 0 || r.First() !in r.store
  }

  ghost function DeliveredCount(r: Reassembler): (n: nat)
    ensures n <= Room(r.out)
    ensures forall j: nat :: r.First() <= j < r.First() + n ==> j in r.store
    ensures n == Room(r.out) || r.First() + n !in r.store
  {
    Min(Run(r.store, r.First()), Room(r.out))
  }

  lemma DeliverShape(r: Reassembler)
    requires r.Wf()
    ensures var n, d := DeliveredCount(r), Deliver(r);
            && d.First() == r.First() + n
            && d.out.written == r.out.written + Bytes(r.store, r.First(), n)
            && d.store == Clip(r.store, r.First() + n, r.First() + r.capacity)
            && (d.capacity, d.eof, d.out.capacity, d.out.nread, d.out.error)
               == (r.capacity, r.eof, r.out.capacity, r.out.nread, r.out.error)
            && d.out.ended == (r.out.ended || (r.First() in r.store && d.store == map[] && r.eof))
  {
  }

  lemma DeliverKeeps(r: Reassembler, i: nat)
    requires r.Wf()
    ensures Deliver(r).Wf() && Greedy(Deliver(r))
    ensures r.out.written <= Deliver(r).out.written
    ensures Knows(Deliver(r), i) <==> Knows(r, i)
  {
  }

  lemma DeliverAgrees(r: Reassembler, s: seq<byte>)
    requires r.Wf() && Agrees(r, s)
    ensures Agrees(Deliver(r), s)
  {
    DeliverShape(r);
    var n := DeliveredCount(r);
    var sent := Bytes(r.store, r.First(), n);
    forall k | 0 <= k < n ensures r.First() + k < |s| && sent[k] == s[r.First() + k] {
      assert r.First() + k in r.store;
    }
    if n > 0 { assert r.First() + (n - 1) in r.store; }
  }

  /** `data` is what stream `s` has from `index` on. */
  ghost predicate SliceOf(data: seq<byte>, index: nat, s: seq<byte>) {
    index + |data| <= |s| && data == s[index..index + |data|]
  }

  lemma KnownAgrees(r: Reassembler, data: seq<byte>, index: nat, s: seq<byte>)
    requires Agrees(r, s) && SliceOf(data, index, s)
    ensures Agrees(r.(store := Known(r.store, data, index, r.First(), r.capacity)), s)
  {
  }

  /** No push touches the error flag. */
  lemma PushKeepsError(r: Reassembler, data: seq<byte>, index: nat, eof: bool)
    ensures Push(r, data, index, eof).out.error == r.out.error
  {
    hide Known, Clip, Run, Bytes;
  }

  /** Pushing keeps the window bounds, never loses a byte already written, and only reads move `nread`. */
  lemma PushKeeps(r: Reassembler, data: seq<byte>, index: nat, eof: bool)
    requires r.Wf()
    ensures var p := Push(r, data, index, eof);
            && p.Wf() && r.out.written <= p.out.written
            && (p.capacity, p.eof, p.out.nread, p.out.error) == (r.capacity, r.eof || eof, r.out.nread, r.out.error)
            && (r.out.ended ==> p.out.ended)
  {
    if data != [] && index + |data| > r.First() {
      var stored := r.(eof := r.eof || eof, store := Known(r.store, data, index, r.First(), r.capacity));
      DeliverKeeps(stored, 0);
      DeliverShape(stored);
    }
  }

  /** The known indices grow by exactly the part of the pushed range below the window's end. */
  lemma PushKnows(r: Reassembler, data: seq<byte>, index: nat, eof: bool, i: nat)
    requires r.Wf()
    ensures Knows(Push(r, data, index, eof), i)
            <==> Knows(r, i) || (index <= i < index + |data| && i < r.First() + r.capacity)
  {
    if data != [] && index + |data| > r.First() {
      var stored := r.(eof := r.eof || eof, store := Known(r.store, data, index, r.First(), r.capacity));
      DeliverKeeps(stored, i);
    }
  }

  /** Pushing slices of one stream writes only that stream's bytes, in its order. */
  lemma PushAgrees(r: Reassembler, data: seq<byte>, index: nat, eof: bool, s: seq<byte>)
    requires r.Wf() && Agrees(r, s) && SliceOf(data, index, s)
    ensures Agrees(Push(r, data, index, eof), s)
  {
    if data != [] && index + |data| > r.First() {
      var over := r.(eof := r.eof || eof);
      KnownAgrees(over, data, index, s);
      DeliverAgrees(over.(store := Known(r.store, data, index, r.First(), r.capacity)), s);
    }
  }

  /** A push that reaches the store leaves the output full or the next byte missing. */
  lemma PushGreedy(r: Reassembler, data: seq<byte>, index: nat, eof: bool)
    requires r.Wf()
    ensures (data != [] && index + |data| > r.First()) || Greedy(r) ==> Greedy(Push(r, data, index, eof))
  {
    if data != [] && index + |data| > r.First() {
      var stored := r.(eof := r.eof || eof, store := Known(r.store, data, index, r.First(), r.capacity));
      DeliverKeeps(stored, 0);
    }
  }

  /** Greedy delivery leaves one possible state for each set of known indices. */
  lemma KnowledgeDecides(a: Reassembler, b: Reassembler, s: seq<byte>)
    requires a.Wf() && b.Wf() && Greedy(a) && Greedy(b) && Agrees(a, s) && Agrees(b, s)
    requires a.capacity == b.capacity && a.out.nread == b.out.nread
    requires forall i: nat :: Knows(a, i) <==> Knows(b, i)
    ensures a.out.written == b.out.written && a.store == b.store
  {
    SameFront(a, b);
    SameFront(b, a);
    forall i: nat | i in a.store || i in b.store ensures i in a.store && i in b.store {
      assert Knows(a, i) <==> Knows(b, i);
    }
    assert a.store.Keys == b.store.Keys;
  }

  lemma SameFront(a: Reassembler, b: Reassembler)
    requires a.Wf() && b.Wf() && Greedy(a)
    requires a.capacity == b.capacity && a.out.nread == b.out.nread
    requires forall i: nat :: Knows(a, i) <==> Knows(b, i)
    ensures a.First() >= b.First()
  {
    if a.First() < b.First() {
      assert Knows(b, a.First());
    }
  }

  /** A pushed substring. */
  datatype Piece = Piece(data: seq<byte>, index: nat, eof: bool)

  ghost function PushAll(r: Reassembler, pieces: seq<Piece>): Reassembler
    decreases |pieces|
  {
    if pieces == [] then r
    else PushAll(Push(r, pieces[0].data, pieces[0].index, pieces[0].eof), pieces[1..])
  }

  /** No piece reaches past the window as it stands when the piece is pushed. */
  ghost predicate Unclipped(r: Reassembler, pieces: seq<Piece>)
    decreases |pieces|
  {
    pieces == [] ||
    (&& pieces[0].index + |pieces[0].data| <= r.First() + r.capacity
     && Unclipped(Push(r, pieces[0].data, pieces[0].index, pieces[0].eof), pieces[1..]))
  }

  predicate Covers(p: Piece, i: nat) {
    p.index <= i < p.index + |p.data|
  }

  ghost predicate CoveredBy(pieces: seq<Piece>, i: nat) {
    exists p <- pieces :: Covers(p, i)
  }

  lemma {:induction false} PushAllLaws(r: Reassembler, pieces: seq<Piece>, s: seq<byte>, i: nat)
    requires r.Wf() && Greedy(r) && Agrees(r, s) && Unclipped(r, pieces)
    requires forall p <- pieces :: SliceOf(p.data, p.index, s)
    ensures var f := PushAll(r, pieces);
            && f.Wf() && Greedy(f) && Agrees(f, s) && f.capacity == r.capacity && f.out.nread == r.out.nread
            && (Knows(f, i) <==> Knows(r, i) || CoveredBy(pieces, i))
    decreases |pieces|
  {
    if pieces != [] {
      var p, rest := pieces[0], pieces[1..];
      var next := Push(r, p.data, p.index, p.eof);
      PushKeeps(r, p.data, p.index, p.eof);
      PushGreedy(r, p.data, p.index, p.eof);
      PushAgrees(r, p.data, p.index, p.eof, s);
      PushKnows(r, p.data, p.index, p.eof, i);
      PushAllLaws(next, rest, s, i);
      assert pieces == [p] + rest;
      assert forall q :: q in pieces <==> q == p || q in rest;
    }
  }

  /** Any two arrival orders that cover the same indices deliver the same bytes and hold the same rest. */
  lemma OrderIndependence(r: Reassembler, one: seq<Piece>, two: seq<Piece>, s: seq<byte>)
    requires r.Wf() && Greedy(r) && Agrees(r, s) && Unclipped(r, one) && Unclipped(r, two)
    requires forall p <- one + two :: SliceOf(p.data, p.index, s)
    requires forall i: nat :: CoveredBy(one, i) <==> CoveredBy(two, i)
    ensures PushAll(r, one).out.written == PushAll(r, two).out.written
    ensures PushAll(r, one).store == PushAll(r, two).store
  {
    assert forall p <- one :: p in one + two;
    assert forall p <- two :: p in one + two;
    var a, b := PushAll(r, one), PushAll(r, two);
    forall i: nat ensures Knows(a, i) <==> Knows(b, i) {
      PushAllLaws(r, one, s, i);
      PushAllLaws(r, two, s, i);
    }
    PushAllLaws(r, one, s, 0);
    PushAllLaws(r, two, s, 0);
    KnowledgeDecides(a, b, s);
  }

  /** In particular, any permutation of the same pieces. */
  lemma PermutationIndependence(r: Reassembler, one: seq<Piece>, two: seq<Piece>, s: seq<byte>)
    requires r.Wf() && Greedy(r) && Agrees(r, s) && Unclipped(r, one) && Unclipped(r, two)
    requires forall p <- one :: SliceOf(p.data, p.index, s)
    requires multiset(one) == multiset(two)
    ensures PushAll(r, one).out.written == PushAll(r, two).out.written
    ensures PushAll(r, one).store == PushAll(r, two).store
  {
    assert forall p :: p in one <==> p in multiset(one);
    assert forall p :: p in two <==> p in multiset(two);
    OrderIndependence(r, one, two, s);
  }

  /** The final byte of `s` has arrived, or `s` has none. */
  ghost predicate LastKnown(r: Reassembler, s: seq<byte>) {
    s == [] || Knows(r, |s| - 1)
  }

  /** Once the end is announced the last byte is known, and the output has ended only if all of `s` is in it. */
  ghost predicate EndIsHonest(r: Reassembler, s: seq<byte>) {
    && (r.eof ==> LastKnown(r, s))
    && (r.out.ended ==> r.First() == |s|)
  }

  /** An empty piece that announces the end before the last byte is known, or lands on the gap before pending bytes. */
  ghost predicate Premature(r: Reassembler, data: seq<byte>, index: nat, eof: bool, s: seq<byte>) {
    && data == []
    && (|| (eof && !LastKnown(r, s))
        || (r.eof && index == r.First() && r.First() < |s|))
  }

  /** A final piece that reaches past the window: its tail is cut off, but the end is taken as announced. */
  ghost predicate ClippedEnd(r: Reassembler, data: seq<byte>, eof: bool, s: seq<byte>) {
    eof && data != [] && |s| > r.First() + r.capacity
  }

  lemma NonEmptyIsHonest(r: Reassembler, data: seq<byte>, index: nat, eof: bool, s: seq<byte>)
    requires r.Wf() && EndIsHonest(r, s) && data != []
    requires Agrees(Push(r, data, index, eof), s)
    requires index + |data| <= |s| && (eof ==> index + |data| == |s|)
    ensures EndIsHonest(Push(r, data, index, eof), s) <==> !ClippedEnd(r, data, eof, s)
  {
    PushKeeps(r, data, index, eof);
    PushKnows(r, data, index, eof, |s| - 1);
    if index + |data| > r.First() {
      DeliverShape(r.(eof := r.eof || eof, store := Known(r.store, data, index, r.First(), r.capacity)));
    }
  }

  /** A push of `s` keeps the end honest exactly when it is neither premature nor a clipped final piece. */
  lemma EndExactness(r: Reassembler, data: seq<byte>, index: nat, eof: bool, s: seq<byte>)
    requires r.Wf() && Agrees(r, s) && EndIsHonest(r, s)
    requires SliceOf(data, index, s) && (eof ==> index + |data| == |s|)
    ensures EndIsHonest(Push(r, data, index, eof), s)
            <==> !Premature(r, data, index, eof, s) && !ClippedEnd(r, data, eof, s)
  {
    if data != [] {
      PushAgrees(r, data, index, eof, s);
      NonEmptyIsHonest(r, data, index, eof, s);
    }
  }

  lemma FirstReaches(c: nat, s: seq<byte>, eof: bool)
    requires c > 0 && s != []
    ensures var p := Push(FreshReassembler(c), s, 0, eof);
            p.First() == Min(c, |s|) && p.store.Keys == {}
  {
    var r := FreshReassembler(c);
    var p := Push(r, s, 0, eof);
    PushKeeps(r, s, 0, eof);
    PushGreedy(r, s, 0, eof);
    FirstKnown(c, s, eof, p.First());
    if p.First() > 0 { FirstKnown(c, s, eof, p.First() - 1); }
    forall i: nat ensures i !in p.store { FirstKnown(c, s, eof, i); }
  }

  /** What a fresh reassembler does with a stream's start: it writes as much as its capacity, and keeps nothing. */
  lemma FirstPush(c: nat, s: seq<byte>, eof: bool)
    requires c > 0 && s != []
    ensures var p := Push(FreshReassembler(c), s, 0, eof);
            p.out.written == s[..Min(c, |s|)] && p.store == map[] && p.out.ended == p.eof == eof
  {
    var r := FreshReassembler(c);
    FirstReaches(c, s, eof);
    PushAgrees(r, s, 0, eof, s);
    DeliverShape(r.(eof := eof, store := Known(r.store, s, 0, 0, c)));
  }

  lemma FirstKnown(c: nat, s: seq<byte>, eof: bool, i: nat)
    requires c > 0
    ensures Knows(Push(FreshReassembler(c), s, 0, eof), i) <==> i < c && i < |s|
  {
    PushKnows(FreshReassembler(c), s, 0, eof, i);
  }

  /** So a whole stream larger than the capacity ends the output at once, although its tail was cut off. */
  lemma ClippedEndIsEarly(c: nat, s: seq<byte>)
    requires 0 < c < |s|
    ensures var r := FreshReassembler(c);
            var p := Push(r, s, 0, true);
            && !Premature(r, s, 0, true, s) && ClippedEnd(r, s, true, s)
            && p.out.ended && p.out.written == s[..c] && p.store == map[]
  {
    FirstPush(c, s, true);
  }

  /** The output has ended exactly when the end was announced and all of `s` is in it. */
  ghost predicate EndIsExact(r: Reassembler, s: seq<byte>) {
    && (r.eof ==> LastKnown(r, s))
    && (r.out.ended <==> r.eof && r.First() == |s|)
  }

  /** A final piece that brings nothing new once all is written: it is dropped before the end is looked at. */
  ghost predicate Overdue(r: Reassembler, data: seq<byte>, index: nat, eof: bool) {
    eof && !r.eof && data != [] && index + |data| <= r.First()
  }

  lemma NothingPast(r: Reassembler, s: seq<byte>)
    requires r.Wf() && Agrees(r, s) && r.First() == |s|
    ensures r.store == map[]
  {
    assert r.store.Keys == {};
  }

  lemma NonEmptyIsExact(r: Reassembler, data: seq<byte>, index: nat, eof: bool, s: seq<byte>)
    requires r.Wf() && EndIsExact(r, s) && data != [] && !Overdue(r, data, index, eof)
    requires Agrees(Push(r, data, index, eof), s)
    requires index + |data| <= |s| && (eof ==> index + |data| == |s|)
    requires !ClippedEnd(r, data, eof, s)
    ensures EndIsExact(Push(r, data, index, eof), s)
  {
    var p := Push(r, data, index, eof);
    NonEmptyIsHonest(r, data, index, eof, s);
    PushKeeps(r, data, index, eof);
    if index + |data| > r.First() {
      DeliverShape(r.(eof := r.eof || eof, store := Known(r.store, data, index, r.First(), r.capacity)));
      if p.First() == |s| { NothingPast(p, s); }
    }
  }

  lemma EndIsAnnounced(r: Reassembler, data: seq<byte>, index: nat, eof: bool)
    requires r.out.ended ==> r.eof
    ensures Push(r, data, index, eof).out.ended ==> Push(r, data, index, eof).eof
  {
  }

  /** Any push that is not overdue ends the output if the end was announced and all of `s` is written. */
  lemma PushCompletes(r: Reassembler, data: seq<byte>, index: nat, eof: bool, s: seq<byte>)
    requires r.Wf() && Agrees(r, s) && (r.eof && r.First() == |s| ==> r.out.ended)
    requires SliceOf(data, index, s) && (eof ==> index + |data| == |s|) && !Overdue(r, data, index, eof)
    ensures var p := Push(r, data, index, eof);
            p.eof && p.First() == |s| ==> p.out.ended
  {
    var p := Push(r, data, index, eof);
    PushKeeps(r, data, index, eof);
    PushAgrees(r, data, index, eof, s);
    if data != [] && index + |data| > r.First() {
      DeliverShape(r.(eof := r.eof || eof, store := Known(r.store, data, index, r.First(), r.capacity)));
      if p.First() == |s| { NothingPast(p, s); }
    }
  }

  /** Exactly the premature, the clipped and the overdue final pieces make the end wrong. */
  lemma EndedExactly(r: Reassembler, data: seq<byte>, index: nat, eof: bool, s: seq<byte>)
    requires r.Wf() && Agrees(r, s) && EndIsExact(r, s)
    requires SliceOf(data, index, s) && (eof ==> index + |data| == |s|)
    ensures EndIsExact(Push(r, data, index, eof), s)
            <==> (&& !Premature(r, data, index, eof, s) && !ClippedEnd(r, data, eof, s)
                  && !Overdue(r, data, index, eof))
  {
    EndExactness(r, data, index, eof, s);
    if data != [] {
      PushAgrees(r, data, index, eof, s);
      if !Overdue(r, data, index, eof) && !ClippedEnd(r, data, eof, s) {
        NonEmptyIsExact(r, data, index, eof, s);
      }
    }
  }

  /** No piece, when its turn comes, makes the end wrong. */
  ghost predicate WellEnded(r: Reassembler, pieces: seq<Piece>, s: seq<byte>)
    decreases |pieces|
  {
    pieces == [] ||
    (var p := pieces[0];
     && (p.eof ==> p.index + |p.data| == |s|)
     && !Premature(r, p.data, p.index, p.eof, s) && !ClippedEnd(r, p.data, p.eof, s)
     && !Overdue(r, p.data, p.index, p.eof)
     && WellEnded(Push(r, p.data, p.index, p.eof), pieces[1..], s))
  }

  ghost predicate Announced(pieces: seq<Piece>) {
    exists p <- pieces :: p.eof
  }

  lemma {:induction false} PushAllEnds(r: Reassembler, pieces: seq<Piece>, s: seq<byte>)
    requires r.Wf() && Agrees(r, s) && EndIsExact(r, s) && WellEnded(r, pieces, s)
    requires forall p <- pieces :: SliceOf(p.data, p.index, s)
    ensures var f := PushAll(r, pieces);
            EndIsExact(f, s) && (f.eof <==> r.eof || Announced(pieces))
    decreases |pieces|
  {
    if pieces != [] {
      var p, rest := pieces[0], pieces[1..];
      PushKeeps(r, p.data, p.index, p.eof);
      PushAgrees(r, p.data, p.index, p.eof, s);
      EndedExactly(r, p.data, p.index, p.eof, s);
      PushAllEnds(Push(r, p.data, p.index, p.eof), rest, s);
      assert pieces == [p] + rest;
      assert forall q :: q in pieces <==> q == p || q in rest;
    }
  }

  /** Any two such orders of the same pieces also agree on whether the output has ended. */
  lemma EndIndependence(r: Reassembler, one: seq<Piece>, two: seq<Piece>, s: seq<byte>)
    requires r.Wf() && Greedy(r) && Agrees(r, s) && EndIsExact(r, s)
    requires Unclipped(r, one) && Unclipped(r, two) && WellEnded(r, one, s) && WellEnded(r, two, s)
    requires forall p <- one :: SliceOf(p.data, p.index, s)
    requires multiset(one) == multiset(two)
    ensures PushAll(r, one).out.ended == PushAll(r, two).out.ended
  {
    assert forall p :: p in one <==> p in multiset(one);
    assert forall p :: p in two <==> p in multiset(two);
    PermutationIndependence(r, one, two, s);
    PushAllEnds(r, one, s);
    PushAllEnds(r, two, s);
  }

  lemma PushAllTwo(r: Reassembler, a: Piece, b: Piece)
    ensures PushAll(r, [a]) == Push(r, a.data, a.index, a.eof)
    ensures PushAll(r, [a, b]) == PushAll(PushAll(r, [a]), [b])
  {
    assert [a][1..] == [] && [a, b][1..] == [b];
  }

  lemma LastFirst(c: nat, s: seq<byte>) returns (p: Reassembler)
    requires 2 <= |s| <= c
    ensures p == Push(FreshReassembler(c), s[|s| - 1..], |s| - 1, true)
    ensures p.Wf() && p.First() == 0 && p.capacity == c && p.out.nread == 0 && p.eof
    ensures Agrees(p, s) && EndIsExact(p, s) && Knows(p, |s| - 1)
  {
    var r, n := FreshReassembler(c), |s| - 1;
    p := Push(r, s[n..], n, true);
    PushKeeps(r, s[n..], n, true);
    PushAgrees(r, s[n..], n, true, s);
    PushKnows(r, s[n..], n, true, 0);
    PushKnows(r, s[n..], n, true, n);
    EndedExactly(r, s[n..], n, true, s);
  }

  lemma ThenAll(p: Reassembler, s: seq<byte>)
    requires p.Wf() && s != [] && p.First() == 0 && |s| <= p.capacity && p.out.nread == 0 && p.eof
    requires Agrees(p, s) && EndIsExact(p, s)
    ensures Push(p, s, 0, false).out.ended
  {
    var q := Push(p, s, 0, false);
    PushKeeps(p, s, 0, false);
    PushAgrees(p, s, 0, false, s);
    PushGreedy(p, s, 0, false);
    EndedExactly(p, s, 0, false, s);
    if q.First() < |s| { PushKnows(p, s, 0, false, q.First()); }
  }

  /**
   * Without the condition they may not: the last byte, announced as last, ends the output if it comes before the
   * whole stream, and is overdue after it.
   */
  lemma EndDependsOnOrder(c: nat, s: seq<byte>)
    requires 2 <= |s| <= c
    ensures var r, all, last := FreshReassembler(c), Piece(s, 0, false), Piece(s[|s| - 1..], |s| - 1, true);
            && Overdue(PushAll(r, [all]), last.data, last.index, last.eof)
            && !PushAll(r, [all, last]).out.ended && PushAll(r, [last, all]).out.ended
  {
    var r, all, last := FreshReassembler(c), Piece(s, 0, false), Piece(s[|s| - 1..], |s| - 1, true);
    PushAllTwo(r, all, last);
    PushAllTwo(PushAll(r, [all]), last, last);
    FirstPush(c, s, false);
    PushAllTwo(r, last, all);
    PushAllTwo(PushAll(r, [last]), all, all);
    var p := LastFirst(c, s);
    ThenAll(p, s);
  }

  // How much is held at once.

  /** Bytes waiting in the output or in the store. */
  function Held(r: Reassembler): nat {
    Size(r.out) + |r.store|
  }

  /** The indices of a piece that lie in the window and are not stored yet. */
  ghost function New(r: Reassembler, data: seq<byte>, index: nat): set<nat> {
    set i | i in Range(index, |data|) && r.First() <= i < r.First() + r.capacity && i !in r.store
  }

  lemma DeliverHeld(r: Reassembler)
    requires r.Wf()
    ensures Held(Deliver(r)) == Held(r)
  {
    DeliverShape(r);
    var n, d := DeliveredCount(r), Deliver(r);
    var run := Range(r.First(), n);
    RangeSize(r.First(), n);
    assert run <= r.store.Keys;
    assert d.store.Keys == r.store.Keys - run;
  }

  lemma KnownSize(r: Reassembler, data: seq<byte>, index: nat)
    requires r.Wf()
    ensures |Known(r.store, data, index, r.First(), r.capacity)| == |r.store| + |New(r, data, index)|
  {
    assert Known(r.store, data, index, r.First(), r.capacity).Keys == r.store.Keys + New(r, data, index);
  }

  /** A push adds what is new in the window to the bytes held; delivery only moves them. */
  lemma PushHeld(r: Reassembler, data: seq<byte>, index: nat, eof: bool)
    requires r.Wf()
    ensures Held(Push(r, data, index, eof)) == Held(r) + |New(r, data, index)|
  {
    if data != [] && index + |data| > r.First() {
      KnownSize(r, data, index);
      DeliverHeld(r.(eof := r.eof || eof, store := Known(r.store, data, index, r.First(), r.capacity)));
    } else {
      assert New(r, data, index) == {};
    }
  }

  /** The capacity bounds both together after a push exactly when what is new fits beside what is held. */
  lemma JointCapacity(r: Reassembler, data: seq<byte>, index: nat, eof: bool)
    requires r.Wf()
    ensures Held(Push(r, data, index, eof)) <= r.capacity <==> |New(r, data, index)| <= r.capacity - Held(r)
  {
    PushHeld(r, data, index, eof);
  }

  lemma PastTheGap(p: Reassembler, x: byte)
    requires p.Wf() && p.store == map[] && p.capacity >= 2
    ensures Held(Push(p, [x], p.First() + 1, false)) == Held(p) + 1
  {
    PushHeld(p, [x], p.First() + 1, false);
    assert Within(p.First() + 1, p.First() + 1, 1);
    assert New(p, [x], p.First() + 1) == {p.First() + 1};
  }

  /** Fill the output unread, then push one byte past the gap: one byte more than the capacity is held. */
  lemma CapacityExceeded(c: nat, s: seq<byte>, x: byte)
    requires c >= 2 && |s| == c
    ensures Held(Push(Push(FreshReassembler(c), s, 0, false), [x], c + 1, false)) == c + 1
  {
    FirstPush(c, s, false);
    PushKeeps(FreshReassembler(c), s, 0, false);
    PastTheGap(Push(FreshReassembler(c), s, 0, false), x);
  }
}
