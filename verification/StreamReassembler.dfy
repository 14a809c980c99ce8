/** The reassembler as it is written: one list of intervals, edited in place by every push. */
module StreamReassemblers {
  import opened Integers
  import opened ByteStreams
  import opened Reassembly
  import opened StoreLists

  lemma {:induction false} TotalSplits(a: seq<Entry>, b: seq<Entry>)
    ensures Total(a + b) == Total(a) + Total(b)
  {
    if a == [] {
      assert a + b == b;
    } else {
      TotalSplits(a[1..], b);
      assert (a + b)[1..] == a[1..] + b;
    }
  }

  /** Replacing entry `i` by `mid` changes the byte count by the difference. */
  lemma TotalAt(l: seq<Entry>, i: nat, mid: seq<Entry>)
    requires i < |l|
    ensures Total(l[..i] + mid + l[i + 1..]) == Total(l) - |l[i].data| + Total(mid)
  {
    assert l == l[..i] + [l[i]] + l[i + 1..];
    TotalSplits(l[..i] + [l[i]], l[i + 1..]);
    TotalSplits(l[..i], [l[i]]);
    TotalSplits(l[..i] + mid, l[i + 1..]);
    TotalSplits(l[..i], mid);
  }

  /** What the loop has built so far: the entries passed, then the rest of the merge. */
  function Pending(l: seq<Entry>, i: nat, sub: Entry): seq<Entry>
    requires i <= |l|
  {
    l[..i] + Insert(l[i..], sub)
  }

  lemma PassEntry(l: seq<Entry>, i: nat, sub: Entry)
    requires i < |l| && l[i].first + |l[i].data| < sub.first
    ensures Pending(l, i, sub) == Pending(l, i + 1, sub)
  {
  }

  lemma PlaceEntry(l: seq<Entry>, i: nat, sub: Entry)
    requires i < |l| && l[i].first + |l[i].data| >= sub.first && sub.last + 1 < l[i].first
    ensures Pending(l, i, sub) == l[..i] + [sub] + l[i..]
  {
    assert l[i..][0] == l[i];
    assert l[..i] + [sub] + l[i..] == l[..i] + ([sub] + l[i..]);
  }

  lemma AppendEntry(l: seq<Entry>, sub: Entry)
    ensures Pending(l, |l|, sub) == l[..|l|] + [sub] + l[|l|..]
  {
    assert l[|l|..] == [];
  }

  lemma EraseEntry(l: seq<Entry>, i: nat, sub: Entry)
    requires i < |l| && Touch(l[i], sub)
    ensures Pending(l, i, sub) == Pending(l[..i] + l[i + 1..], i, Join(l[i], sub))
  {
    assert l[i..][0] == l[i] && l[i..][1..] == l[i + 1..];
    var erased := l[..i] + l[i + 1..];
    assert erased[..i] == l[..i] && erased[i..] == l[i + 1..];
  }

  function Leading(l: seq<Entry>, room: nat): (n: nat)
    requires l != []
    ensures n <= |l[0].data|
  {
    Min(|l[0].data|, room)
  }

  /** The store holds `data` from `i` on. */
  ghost predicate HasRun(m: Store, i: nat, data: seq<byte>) {
    forall k: nat :: i <= k < i + |data| ==> k in m && m[k] == data[k - i]
  }

  lemma RunBytes(m: Store, i: nat, n: nat, data: seq<byte>)
    requires n <= |data| && HasRun(m, i, data)
    ensures Bytes(m, i, n) == data[..n]
  {
  }

  lemma DeliverRun(r: Reassembler, data: seq<byte>, n: nat, rest: Store)
    requires data != [] && Run(r.store, r.First()) == |data| && n == Min(|data|, Room(r.out))
    requires HasRun(r.store, r.First(), data)
    requires rest == Clip(r.store, r.First() + n, r.First() + r.capacity)
    ensures Deliver(r) == Emit(r, data[..n], rest)
  {
    RunBytes(r.store, r.First(), n, data);
  }

  /** Delivery in terms of the list: only its first entry matters, and only if it starts at the window. */
  lemma DeliverFront(r: Reassembler, l: seq<Entry>, hi: nat)
    requires l != [] && r.store == ListMap(l) && hi == r.First() + r.capacity
    requires Shaped(l, r.First(), hi) && Fits(l, hi) && l[0].first == r.First()
    ensures var n := Leading(l, Room(r.out));
            Deliver(r) == Emit(r, l[0].data[..n], ListMap(DropFront(l, n)))
  {
    var n := Leading(l, Room(r.out));
    FrontBytes(r, l, hi);
    DropIsClip(l, r.First(), hi, n);
    DeliverRun(r, l[0].data, n, ListMap(DropFront(l, n)));
  }

  lemma FrontBytes(r: Reassembler, l: seq<Entry>, hi: nat)
    requires l != [] && r.store == ListMap(l) && Shaped(l, r.First(), hi) && l[0].first == r.First()
    ensures l[0].data != [] && Run(r.store, r.First()) == |l[0].data|
    ensures HasRun(r.store, r.First(), l[0].data)
  {
    FrontIsRun(l, r.First(), hi);
  }

  lemma DeliverNothing(r: Reassembler, l: seq<Entry>, hi: nat)
    requires l != [] && r.store == ListMap(l) && Shaped(l, r.First(), hi) && l[0].first != r.First()
    ensures Deliver(r) == r
  {
    FrontIsRun(l, r.First(), hi);
  }

  lemma WindowReady(l: seq<Entry>, sub: Entry, lo: nat, hi: nat)
    requires Shaped(l, lo, hi) && sub.last >= lo && sub.first < hi && lo < hi
    ensures var m := Insert(l, sub);
            && Shaped(m, 0, hi) && m != [] && m[0].last >= lo
            && var f := TrimFront(m, lo);
            f != [] && f[|f| - 1].first < hi
  {
    ShapedLower(l, lo, hi, 0);
    InsertShaped(l, sub, 0, hi);
    InsertReaches(l, sub, lo, hi);
    TrimIsClip(Insert(l, sub), lo, hi);
  }

  /** The list after merging and trimming. */
  ghost function Window(l: seq<Entry>, sub: Entry, lo: nat, hi: nat): seq<Entry>
    requires Shaped(l, lo, hi) && sub.last >= lo && sub.first < hi && lo < hi
  {
    WindowReady(l, sub, lo, hi);
    TrimBack(TrimFront(Insert(l, sub), lo), hi)
  }

  /** Merging and trimming, together, keep the shape and leave the window's part of the overlay. */
  lemma WindowIsClip(l: seq<Entry>, sub: Entry, lo: nat, hi: nat)
    requires Shaped(l, lo, hi) && sub.last >= lo && sub.first < hi && lo < hi
    ensures var r := Window(l, sub, lo, hi);
            && r != [] && Shaped(r, lo, hi) && Fits(r, hi)
            && ListMap(r) == Clip(Overlay(ListMap(l), sub.data, sub.first), lo, hi)
  {
    WindowReady(l, sub, lo, hi);
    InsertIsOverlay(l, sub, lo, hi);
    TrimIsClip(Insert(l, sub), lo, hi);
  }

  lemma WindowGood(l: seq<Entry>, sub: Entry, lo: nat, hi: nat, r: seq<Entry>)
    requires Shaped(l, lo, hi) && sub.last >= lo && sub.first < hi && lo < hi
    requires r == Window(l, sub, lo, hi)
    ensures r != [] && Shaped(r, lo, hi) && Fits(r, hi)
  {
    WindowIsClip(l, sub, lo, hi);
  }

  /** Absorbing new bytes, told by the list they leave behind before delivery. */
  lemma AbsorbByList(r: Reassembler, data: seq<byte>, index: nat, l: seq<Entry>, hi: nat)
    requires hi == r.First() + r.capacity && l != [] && Shaped(l, r.First(), hi) && Fits(l, hi)
    requires ListMap(l) == Known(r.store, data, index, r.First(), r.capacity)
    ensures Absorb(r, data, index) ==
            if l[0].first == r.First()
            then var n := Leading(l, Room(r.out)); Emit(r, l[0].data[..n], ListMap(DropFront(l, n)))
            else r.(store := ListMap(l))
  {
    var stored := r.(store := ListMap(l));
    if l[0].first == r.First() {
      DeliverFront(stored, l, hi);
    } else {
      DeliverNothing(stored, l, hi);
    }
  }

  lemma AbsorbByWindow(r: Reassembler, data: seq<byte>, index: nat, l0: seq<Entry>, l: seq<Entry>, hi: nat)
    requires r.store == ListMap(l0) && hi == r.First() + r.capacity && Shaped(l0, r.First(), hi)
    requires data != [] && index + |data| > r.First() && index < hi && r.capacity > 0
    requires l == Window(l0, Entry(index, index + |data| - 1, data), r.First(), hi)
    ensures l != [] && Shaped(l, r.First(), hi) && Fits(l, hi)
    ensures Absorb(r, data, index) ==
            if l[0].first == r.First()
            then var n := Leading(l, Room(r.out)); Emit(r, l[0].data[..n], ListMap(DropFront(l, n)))
            else r.(store := ListMap(l))
  {
    WindowIsClip(l0, Entry(index, index + |data| - 1, data), r.First(), hi);
    AbsorbByList(r, data, index, l, hi);
  }

  /** What flushing makes of the list `l` and the output `out`. */
  ghost predicate FlushedTo(l: seq<Entry>, out: Stream, eof: bool, first: nat, l': seq<Entry>, out': Stream)
    requires l != []
  {
    if l[0].first == first
    then
      var n := Leading(l, Room(out));
      l' == DropFront(l, n) && out' == Flushed(out, l[0].data[..n], l' == [] && eof)
    else l' == l && out' == out
  }

  /** Storing and flushing, told by the lists they leave behind. */
  lemma AbsorbByFlush(r: Reassembler, data: seq<byte>, index: nat, l0: seq<Entry>, l: seq<Entry>, hi: nat,
                      l': seq<Entry>, out': Stream)
    requires r.store == ListMap(l0) && hi == r.First() + r.capacity && Shaped(l0, r.First(), hi)
    requires data != [] && index + |data| > r.First() && index < hi && r.capacity > 0
    requires l == Window(l0, Entry(index, index + |data| - 1, data), r.First(), hi) && l != []
    requires FlushedTo(l, r.out, r.eof, r.First(), l', out')
    ensures Absorb(r, data, index) == r.(store := ListMap(l'), out := out')
  {
    AbsorbByWindow(r, data, index, l0, l, hi);
    EmptyMap(l');
  }

  lemma DropFits(l: seq<Entry>, first: nat, hi: nat, n: nat)
    requires l != [] && Shaped(l, first, hi) && Fits(l, hi) && l[0].first == first && n <= |l[0].data|
    ensures Shaped(DropFront(l, n), first + n, hi + n) && Fits(DropFront(l, n), hi + n)
    ensures Total(DropFront(l, n)) == Total(l) - n
  {
    DropIsClip(l, first, hi, n);
    ShapedHigher(DropFront(l, n), first + n, hi, hi + n);
    if n < |l[0].data| {
      TotalSplits([Entry(l[0].first + n, l[0].last, l[0].data[n..])], l[1..]);
    }
  }

  class StreamReassembler {
    const capacity: nat
    const output: ByteStream
    var storelist: seq<Entry>
    var unassembled: nat
    var firstIndex: nat
    var checkEof: bool

    ghost predicate Valid()
      reads this, output
    {
      && output.Valid() && output.max == capacity
      && firstIndex == output.bytesWritten
      && Shaped(storelist, firstIndex, firstIndex + capacity)
      && Fits(storelist, firstIndex + capacity)
      && unassembled == Total(storelist)
    }

    ghost function Model(): Reassembler
      requires Valid()
      reads this, output
    {
      Reassembler(capacity, ListMap(storelist), output.Model(), checkEof)
    }

    lemma ModelWf()
      requires Valid()
      ensures Model().Wf() && |Model().store| == unassembled
    {
      KeysFrom(storelist, firstIndex, firstIndex + capacity);
      KeysBelow(storelist, firstIndex, firstIndex + capacity);
      TotalIsSize(storelist, firstIndex, firstIndex + capacity);
    }

    constructor (capacity: nat)
      ensures Valid() && fresh(output) && Model() == FreshReassembler(capacity)
    {
      this.capacity := capacity;
      storelist := [];
      unassembled, firstIndex, checkEof := 0, 0, false;
      output := new ByteStream(capacity);
    }

    /** Each stored index counted once, whatever overlaps were pushed. */
    method UnassembledBytes() returns (n: nat)
      requires Valid()
      ensures n == |Model().store| <= capacity
    {
      ModelWf();
      StoreFits(Model());
      n := unassembled;
    }

    method Empty() returns (b: bool)
      requires Valid()
      ensures b <==> Model().store == map[]
    {
      var n := UnassembledBytes();
      b := |storelist| == 0 && n == 0;
      EmptyMap(storelist);
    }

    /** The four ways two touching entries can lie; the last, `temp` inside `sub`, changes nothing. */
    method Union(temp: Entry, sub: Entry) returns (union: Entry)
      requires Touch(temp, sub)
      ensures union == Join(temp, sub)
    {
      union := sub;
      if temp.first <= sub.first && temp.last >= sub.last {
        union := temp;
      } else if temp.first <= sub.first && temp.last <= sub.last {
        union := Entry(temp.first, sub.last, temp.data + sub.data[temp.last + 1 - sub.first..]);
      } else if temp.first >= sub.first && temp.last >= sub.last {
        union := Entry(sub.first, temp.last, sub.data + temp.data[sub.last + 1 - temp.first..]);
      }
    }

    method InsertAt(i: nat, entry: Entry)
      requires i <= |storelist| && unassembled == Total(storelist)
      modifies this`storelist, this`unassembled
      ensures storelist == old(storelist[..i] + [entry] + storelist[i..]) && unassembled == Total(storelist)
    {
      assert storelist[..i] + storelist[i..] == storelist;
      TotalSplits(storelist[..i], storelist[i..]);
      TotalSplits(storelist[..i] + [entry], storelist[i..]);
      TotalSplits(storelist[..i], [entry]);
      storelist := storelist[..i] + [entry] + storelist[i..];
      unassembled := unassembled + |entry.data|;
    }

    method EraseAt(i: nat)
      requires i < |storelist| && unassembled == Total(storelist)
      modifies this`storelist, this`unassembled
      ensures storelist == old(storelist[..i] + storelist[i + 1..]) && unassembled == Total(storelist)
    {
      assert storelist[..i] + [] + storelist[i + 1..] == storelist[..i] + storelist[i + 1..];
      TotalAt(storelist, i, []);
      unassembled := unassembled - |storelist[i].data|;
      storelist := storelist[..i] + storelist[i + 1..];
    }

    /** The merge loop: one pass that drops every touching entry and inserts the union in its place. */
    method Merge(data: seq<byte>, index: nat)
      requires data != [] && unassembled == Total(storelist)
      modifies this`storelist, this`unassembled
      ensures storelist == Insert(old(storelist), Entry(index, index + |data| - 1, data))
      ensures unassembled == Total(storelist)
    {
      var sub: Entry := Entry(index, index + |data| - 1, data);
      ghost var goal := Insert(storelist, sub);
      var inserted, i := false, 0;
      assert storelist[i..] == storelist;
      while i < |storelist|
        invariant 0 <= i <= |storelist|
        invariant unassembled == Total(storelist)
        invariant Pending(storelist, i, sub) == goal
        decreases |storelist| - i
      {
        var temp := storelist[i];
        if temp.first + |temp.data| < sub.first {
          PassEntry(storelist, i, sub);
          i := i + 1;
        } else if sub.last + 1 < temp.first {
          inserted := true;
          PlaceEntry(storelist, i, sub);
          InsertAt(i, sub);
          break;
        } else {
          EraseEntry(storelist, i, sub);
          EraseAt(i);
          sub := Union(temp, sub);
        }
      }
      if !inserted {
        AppendEntry(storelist, sub);
        InsertAt(|storelist|, sub);
      }
    }

    method TrimFrontEntry()
      requires storelist != [] && storelist[0].last >= firstIndex && unassembled == Total(storelist)
      modifies this`storelist, this`unassembled
      ensures storelist == TrimFront(old(storelist), firstIndex) && unassembled == Total(storelist)
    {
      if storelist[0].first < firstIndex {
        var front := storelist[0];
        unassembled := unassembled - |front.data|;
        front := Entry(firstIndex, front.last, front.data[firstIndex - front.first..]);
        TotalSplits([front], storelist[1..]);
        storelist := [front] + storelist[1..];
        unassembled := unassembled + |front.data|;
      }
    }

    method TrimBackEntry()
      requires storelist != [] && storelist[|storelist| - 1].first < firstIndex + capacity
      requires unassembled == Total(storelist)
      modifies this`storelist, this`unassembled
      ensures storelist == TrimBack(old(storelist), firstIndex + capacity) && unassembled == Total(storelist)
    {
      var n := |storelist| - 1;
      var back := storelist[n];
      if back.last + 1 >= firstIndex + capacity {
        var cut := Entry(back.first, firstIndex + capacity - 1, back.data[..firstIndex + capacity - back.first]);
        TotalAt(storelist, n, [cut]);
        assert storelist[..n] + [cut] + storelist[n + 1..] == storelist[..n] + [cut];
        assert unassembled >= |back.data| by { TotalAt(storelist, n, []); }
        unassembled := unassembled - |back.data|;
        storelist := storelist[..n] + [cut];
        unassembled := unassembled + |cut.data|;
      }
    }

    /** Take as many of the leading bytes out of the store as the output has room for. */
    method TakeFront(rc: nat) returns (send: seq<byte>)
      requires storelist != [] && storelist[0].first == firstIndex && unassembled == Total(storelist)
      requires Shaped(storelist, firstIndex, firstIndex + capacity) && Fits(storelist, firstIndex + capacity)
      modifies this`storelist, this`firstIndex, this`unassembled
      ensures var n := Leading(old(storelist), rc);
              && send == old(storelist)[0].data[..n]
              && storelist == DropFront(old(storelist), n)
              && firstIndex == old(firstIndex) + n
      ensures Shaped(storelist, firstIndex, firstIndex + capacity) && Fits(storelist, firstIndex + capacity)
      ensures unassembled == Total(storelist)
    {
      DropFits(storelist, firstIndex, firstIndex + capacity, Leading(storelist, rc));
      var front := storelist[0];
      if rc < |front.data| {
        send := front.data[..rc];
        front := Entry(front.first + rc, front.last, front.data[rc..]);
        storelist := [front] + storelist[1..];
        firstIndex := front.first;
      } else {
        send := front.data;
        firstIndex := front.last + 1;
        storelist := storelist[1..];
      }
      unassembled := unassembled - |send|;
    }

    /** Write what now continues the output, as far as it has room. */
    method Flush()
      requires Valid() && storelist != []
      modifies this, output
      ensures Valid() && checkEof == old(checkEof)
      ensures FlushedTo(old(storelist), old(output.Model()), checkEof, old(firstIndex), storelist, output.Model())
    {
      if storelist[0].first == firstIndex {
        var rc := output.RemainingCapacity();
        var send := TakeFront(rc);
        var _ := output.Write(send);
        if storelist == [] && unassembled == 0 && checkEof {
          output.EndInput();
        }
      }
    }

    /** Merge new bytes into the store and cut it back to the window. */
    method Store(data: seq<byte>, index: nat)
      requires data != [] && index + |data| > firstIndex && unassembled == Total(storelist)
      requires Shaped(storelist, firstIndex, firstIndex + capacity)
      requires capacity > 0 && index < firstIndex + capacity
      modifies this`storelist, this`unassembled
      ensures storelist == Window(old(storelist), Entry(index, index + |data| - 1, data), firstIndex, firstIndex + capacity)
      ensures unassembled == Total(storelist)
    {
      WindowReady(storelist, Entry(index, index + |data| - 1, data), firstIndex, firstIndex + capacity);
      Merge(data, index);
      TrimFrontEntry();
      TrimBackEntry();
    }

    method StoreNew(data: seq<byte>, index: nat)
      requires Valid() && data != [] && index + |data| > firstIndex
      requires capacity > 0 && index < firstIndex + capacity
      modifies this`storelist, this`unassembled
      ensures Valid() && storelist != []
      ensures storelist == Window(old(storelist), Entry(index, index + |data| - 1, data), firstIndex, firstIndex + capacity)
    {
      Store(data, index);
      WindowGood(old(storelist), Entry(index, index + |data| - 1, data), firstIndex, firstIndex + capacity, storelist);
    }

    /** Store what is new and deliver what has become contiguous. */
    method StoreAndFlush(data: seq<byte>, index: nat)
      requires Valid() && data != [] && index + |data| > firstIndex
      requires capacity > 0 && index < firstIndex + capacity
      modifies this, output
      ensures Valid() && Model() == Absorb(old(Model()), data, index)
    {
      ghost var hi := firstIndex + capacity;
      StoreNew(data, index);
      ghost var stored := storelist;
      Flush();
      AbsorbByFlush(old(Model()), data, index, old(storelist), stored, hi, storelist, output.Model());
    }

    /** Receive a substring and write whatever has become contiguous. */
    method PushSubstring(data: seq<byte>, index: nat, eof: bool)
      requires Valid()
      requires data != [] ==> capacity > 0 && index < firstIndex + capacity
      modifies this, output
      ensures Valid() && Model() == Push(old(Model()), data, index, eof)
    {
      checkEof := if eof then eof else checkEof;
      if |data| == 0 {
        if checkEof && firstIndex == index {
          output.EndInput();
        }
        return;
      }
      if index + |data| - 1 < firstIndex {
        return;
      }
      StoreAndFlush(data, index);
    }
  }
}
