/** The store as a sorted list of separated intervals, and what each edit of it means for the indices it holds. */
module StoreLists {
  import opened Integers
  import opened ByteStreams
  import opened Reassembly

  /** A stored substring; `last` is the index of its final byte. */
  datatype EntryRep = Entry(first: nat, last: nat, data: seq<byte>) {
    predicate Wf() {
      data != [] && last == first + |data| - 1
    }
  }

  type Entry = e: EntryRep | e.Wf() witness Entry(0, 0, [0])

  /** Entries start in `lo..hi`, in order, with at least one index missing between neighbours. */
  predicate Shaped(l: seq<Entry>, lo: nat, hi: nat) {
    l == [] || (lo <= l[0].first < hi && Shaped(l[1..], l[0].last + 2, hi))
  }

  predicate Fits(l: seq<Entry>, hi: nat) {
    l == [] || l[|l| - 1].last < hi
  }

  function Span(first: nat, data: seq<byte>): Store {
    map i | i in Range(first, |data|) :: data[i - first]
  }

  function ListMap(l: seq<Entry>): Store {
    if l == [] then map[] else Span(l[0].first, l[0].data) + ListMap(l[1..])
  }

  lemma EmptyMap(l: seq<Entry>)
    ensures ListMap(l) == map[] <==> l == []
  {
    if l != [] { assert l[0].first in ListMap(l); }
  }

  function Total(l: seq<Entry>): nat {
    if l == [] then 0 else |l[0].data| + Total(l[1..])
  }

  predicate Touch(a: Entry, b: Entry) {
    a.first <= b.last + 1 && b.first <= a.last + 1
  }

  /** Union of two overlapping or touching entries: the four cases of the merge loop. */
  function Join(head: Entry, sub: Entry): Entry
    requires Touch(head, sub)
  {
    if head.first <= sub.first && head.last >= sub.last then head
    else if head.first <= sub.first && head.last <= sub.last then
      Entry(head.first, sub.last, head.data + sub.data[head.last + 1 - sub.first..])
    else if head.first >= sub.first && head.last >= sub.last then
      Entry(sub.first, head.last, sub.data + head.data[sub.last + 1 - head.first..])
    else sub
  }

  /** The list after the merge loop, one entry at a time. */
  function Insert(l: seq<Entry>, sub: Entry): seq<Entry> {
    if l == [] then [sub]
    else if l[0].first + |l[0].data| < sub.first then [l[0]] + Insert(l[1..], sub)
    else if sub.last + 1 < l[0].first then [sub] + l
    else Insert(l[1..], Join(l[0], sub))
  }

  /** Drop what lies before `lo` from the first entry. */
  function TrimFront(l: seq<Entry>, lo: nat): seq<Entry>
    requires l != [] && l[0].last >= lo
  {
    if l[0].first < lo
    then [Entry(lo, l[0].last, l[0].data[lo - l[0].first..])] + l[1..]
    else l
  }

  /** Drop what lies at or after `hi` from the last entry. */
  function TrimBack(l: seq<Entry>, hi: nat): seq<Entry>
    requires l != [] && l[|l| - 1].first < hi
  {
    var back := l[|l| - 1];
    if back.last + 1 >= hi
    then l[..|l| - 1] + [Entry(back.first, hi - 1, back.data[..hi - back.first])]
    else l
  }

  /** Drop the first `n` bytes, all of them in the first entry. */
  function DropFront(l: seq<Entry>, n: nat): seq<Entry>
    requires l != [] && n <= |l[0].data|
  {
    if n < |l[0].data|
    then [Entry(l[0].first + n, l[0].last, l[0].data[n..])] + l[1..]
    else l[1..]
  }

  lemma {:induction false} ShapedMeans(l: seq<Entry>, lo: nat, hi: nat)
    requires Shaped(l, lo, hi)
    ensures forall i :: 0 <= i < |l| ==> lo <= l[i].first < hi
    ensures forall i, j :: 0 <= i < j < |l| ==> l[i].last + 1 < l[j].first
  {
    if l != [] {
      ShapedMeans(l[1..], l[0].last + 2, hi);
      forall i | 0 <= i < |l| ensures lo <= l[i].first < hi {
        if i > 0 { assert l[i] == l[1..][i - 1]; }
      }
      forall i, j | 0 <= i < j < |l| ensures l[i].last + 1 < l[j].first {
        assert l[j] == l[1..][j - 1];
        if i > 0 { assert l[i] == l[1..][i - 1]; }
      }
    }
  }

  lemma ShapedLower(l: seq<Entry>, lo: nat, hi: nat, lower: nat)
    requires Shaped(l, lo, hi) && lower <= lo
    ensures Shaped(l, lower, hi)
  {
  }

  lemma ShapedHigher(l: seq<Entry>, lo: nat, hi: nat, higher: nat)
    requires Shaped(l, lo, hi) && hi <= higher
    ensures Shaped(l, lo, higher)
  {
  }

  lemma {:induction false} KeysFrom(l: seq<Entry>, lo: nat, hi: nat)
    requires Shaped(l, lo, hi)
    ensures forall i <- ListMap(l) :: lo <= i
  {
    if l != [] { KeysFrom(l[1..], l[0].last + 2, hi); }
  }

  lemma {:induction false} KeysBelow(l: seq<Entry>, lo: nat, hi: nat)
    requires Shaped(l, lo, hi) && Fits(l, hi)
    ensures forall i <- ListMap(l) :: i < hi
  {
    if |l| > 1 {
      assert l[1..][|l| - 2] == l[|l| - 1];
      KeysBelow(l[1..], l[0].last + 2, hi);
      assert l[1..][0].first < hi;
    } else if |l| == 1 {
      assert l[1..] == [];
    }
  }

  /** The byte counter counts each stored index once. */
  lemma {:induction false} TotalIsSize(l: seq<Entry>, lo: nat, hi: nat)
    requires Shaped(l, lo, hi)
    ensures Total(l) == |ListMap(l)|
  {
    if l != [] {
      var head, tail := Span(l[0].first, l[0].data), ListMap(l[1..]);
      TotalIsSize(l[1..], l[0].last + 2, hi);
      KeysFrom(l[1..], l[0].last + 2, hi);
      RangeSize(l[0].first, |l[0].data|);
      assert head.Keys == Range(l[0].first, |l[0].data|);
      assert (head + tail).Keys == head.Keys + tail.Keys;
      assert head.Keys !! tail.Keys;
    }
  }

  /** Spans both entries, and at `i` holds the older byte unless the newer entry starts first. */
  predicate Joined(head: Entry, sub: Entry, j: Entry, i: nat) {
    && j.first == Min(head.first, sub.first)
    && j.last == (if head.last >= sub.last then head.last else sub.last)
    && (head.first <= i <= head.last && (sub.first <= i <= sub.last ==> head.first <= sub.first) ==>
          j.data[i - j.first] == head.data[i - head.first])
    && (sub.first <= i <= sub.last && (head.first <= i <= head.last ==> sub.first < head.first) ==>
          j.data[i - j.first] == sub.data[i - sub.first])
  }

  lemma JoinAt(head: Entry, sub: Entry, i: nat)
    requires Touch(head, sub)
    ensures Joined(head, sub, Join(head, sub), i)
  {
  }

  lemma {:induction false} InsertShaped(l: seq<Entry>, sub: Entry, lo: nat, hi: nat)
    requires Shaped(l, lo, hi) && lo <= sub.first < hi
    ensures Shaped(Insert(l, sub), lo, hi)
  {
    if l == [] {
    } else if l[0].first + |l[0].data| < sub.first {
      InsertShaped(l[1..], sub, l[0].last + 2, hi);
    } else if sub.last + 1 < l[0].first {
    } else {
      ShapedLower(l[1..], l[0].last + 2, hi, lo);
      JoinAt(l[0], sub, 0);
      InsertShaped(l[1..], Join(l[0], sub), lo, hi);
    }
  }

  /** The merged list reaches `lo` if the substring does. */
  lemma {:induction false} InsertReaches(l: seq<Entry>, sub: Entry, lo: nat, hi: nat)
    requires Shaped(l, lo, hi) && sub.last >= lo
    ensures var r := Insert(l, sub); r != [] && r[0].last >= lo
  {
    if l == [] {
    } else if l[0].first + |l[0].data| < sub.first {
    } else if sub.last + 1 < l[0].first {
    } else {
      ShapedLower(l[1..], l[0].last + 2, hi, lo);
      JoinAt(l[0], sub, 0);
      InsertReaches(l[1..], Join(l[0], sub), lo, hi);
    }
  }

  ghost predicate SameAt(a: Store, b: Store, i: nat) {
    (i in a <==> i in b) && (i in a ==> a[i] == b[i])
  }

  lemma SameEverywhere(a: Store, b: Store)
    requires forall i: nat :: SameAt(a, b, i)
    ensures a == b
  {
    forall i: nat | i in a || i in b ensures i in a && i in b && a[i] == b[i] {
      assert SameAt(a, b, i);
    }
    assert a.Keys == b.Keys;
  }

  lemma CoveredOnJoin(head: Entry, tail: Store, sub: Entry, i: nat)
    requires sub.first <= head.last + 1 && sub.first <= i
    requires forall k <- tail :: k > head.last + 1
    ensures i in tail ==> !Covered(Span(head.first, head.data) + tail, sub.first, i)
    ensures head.first <= i <= head.last ==>
              (Covered(Span(head.first, head.data) + tail, sub.first, i) <==> head.first <= sub.first)
  {
    var all := Span(head.first, head.data) + tail;
    if i in tail {
      assert head.last + 1 !in all;
    } else if head.first <= i <= head.last && head.first > sub.first {
      assert sub.first !in all;
    }
  }

  lemma JoinOverlayAt(head: Entry, tail: Store, sub: Entry, j: Entry, i: nat)
    requires Touch(head, sub) && Joined(head, sub, j, i)
    requires forall k <- tail :: k > head.last + 1
    requires i in tail || j.first <= i <= j.last
    ensures OverlayByte(tail, j.data, j.first, i)
         == OverlayByte(Span(head.first, head.data) + tail, sub.data, sub.first, i)
  {
    if sub.first <= i {
      CoveredOnJoin(head, tail, sub, i);
    }
    if i in tail {
      assert j.first !in tail;
      assert !Covered(tail, j.first, i);
    }
  }

  /** One merge step: joining with the first touching entry loses nothing the rest of the merge needs. */
  lemma JoinOverlay(head: Entry, tail: Store, sub: Entry)
    requires Touch(head, sub) && forall i <- tail :: i > head.last + 1
    ensures var j := Join(head, sub);
            Overlay(tail, j.data, j.first) == Overlay(Span(head.first, head.data) + tail, sub.data, sub.first)
  {
    var j := Join(head, sub);
    var left, right := Overlay(tail, j.data, j.first), Overlay(Span(head.first, head.data) + tail, sub.data, sub.first);
    forall i: nat ensures SameAt(left, right, i) {
      JoinAt(head, sub, i);
      if i in left {
        JoinOverlayAt(head, tail, sub, j, i);
      }
    }
    SameEverywhere(left, right);
  }

  lemma OverlayPast(head: Entry, tail: Store, sub: Entry)
    requires head.last + 1 < sub.first && forall i <- tail :: i > head.last + 1
    ensures Span(head.first, head.data) + Overlay(tail, sub.data, sub.first)
         == Overlay(Span(head.first, head.data) + tail, sub.data, sub.first)
  {
  }

  lemma OverlayBefore(all: Store, sub: Entry)
    requires forall i <- all :: i > sub.last
    ensures Span(sub.first, sub.data) + all == Overlay(all, sub.data, sub.first)
  {
  }

  /** The merge loop computes the overlay, for every stored list and every substring. */
  lemma {:induction false} InsertIsOverlay(l: seq<Entry>, sub: Entry, lo: nat, hi: nat)
    requires Shaped(l, lo, hi)
    ensures ListMap(Insert(l, sub)) == Overlay(ListMap(l), sub.data, sub.first)
  {
    if l == [] {
      OverlayBefore(map[], sub);
      assert ListMap([sub]) == Span(sub.first, sub.data);
    } else {
      var tail := ListMap(l[1..]);
      KeysFrom(l[1..], l[0].last + 2, hi);
      if l[0].first + |l[0].data| < sub.first {
        InsertIsOverlay(l[1..], sub, l[0].last + 2, hi);
        OverlayPast(l[0], tail, sub);
        ConsMap(l[0], Insert(l[1..], sub));
      } else if sub.last + 1 < l[0].first {
        KeysFrom(l, l[0].first, hi);
        OverlayBefore(ListMap(l), sub);
        ConsMap(sub, l);
      } else {
        InsertIsOverlay(l[1..], Join(l[0], sub), l[0].last + 2, hi);
        JoinOverlay(l[0], tail, sub);
      }
    }
  }

  lemma ConsMap(e: Entry, t: seq<Entry>)
    ensures ListMap([e] + t) == Span(e.first, e.data) + ListMap(t)
  {
  }

  function From(m: Store, lo: nat): Store {
    map i | i in m && lo <= i :: m[i]
  }

  function Below(m: Store, hi: nat): Store {
    map i | i in m && i < hi :: m[i]
  }

  lemma ClipIsBoth(m: Store, lo: nat, hi: nat)
    ensures Below(From(m, lo), hi) == Clip(m, lo, hi)
    ensures (forall i <- m :: i < hi) ==> From(m, lo) == Clip(m, lo, hi)
  {
  }

  /** Cutting bytes off the front of an entry removes exactly the indices below the cut. */
  lemma CutFront(e: Entry, tail: Store, n: nat)
    requires n <= |e.data| && forall i <- tail :: i > e.last + 1
    ensures From(Span(e.first, e.data) + tail, e.first + n) == Span(e.first + n, e.data[n..]) + tail
  {
  }

  lemma CutBack(e: Entry, n: nat)
    requires n <= |e.data|
    ensures Below(Span(e.first, e.data), e.first + n) == Span(e.first, e.data[..n])
  {
  }

  lemma DropKeeps(l: seq<Entry>, lo: nat, hi: nat, n: nat)
    requires l != [] && Shaped(l, lo, hi) && n <= |l[0].data| && l[0].first + n <= hi
    requires n < |l[0].data| ==> l[0].first + n < hi
    ensures Shaped(DropFront(l, n), l[0].first + n, hi)
    ensures Fits(l, hi) ==> Fits(DropFront(l, n), hi)
  {
  }

  lemma DropCuts(l: seq<Entry>, lo: nat, hi: nat, n: nat)
    requires l != [] && Shaped(l, lo, hi) && n <= |l[0].data|
    ensures ListMap(DropFront(l, n)) == From(ListMap(l), l[0].first + n)
  {
    var head, tail := l[0], ListMap(l[1..]);
    assert ListMap(l) == Span(head.first, head.data) + tail;
    KeysFrom(l[1..], head.last + 2, hi);
    CutFront(head, tail, n);
    if n < |head.data| {
      var e := Entry(head.first + n, head.last, head.data[n..]);
      assert DropFront(l, n) == [e] + l[1..];
      ConsMap(e, l[1..]);
    } else {
      NothingSpans(head.first + n, head.data[n..], tail);
    }
  }

  lemma NothingSpans(first: nat, data: seq<byte>, tail: Store)
    requires data == []
    ensures Span(first, data) + tail == tail
  {
  }

  lemma FromAll(m: Store, lo: nat)
    requires forall i <- m :: lo <= i
    ensures From(m, lo) == m
  {
  }

  lemma TrimFrontCuts(l: seq<Entry>, lo: nat, hi: nat)
    requires l != [] && Shaped(l, 0, hi) && l[0].last >= lo && lo < hi
    ensures var r := TrimFront(l, lo);
            r != [] && Shaped(r, lo, hi) && ListMap(r) == From(ListMap(l), lo)
  {
    hide ListMap, From;
    if l[0].first < lo {
      DropKeeps(l, 0, hi, lo - l[0].first);
      DropCuts(l, 0, hi, lo - l[0].first);
    } else {
      KeysFrom(l, lo, hi);
      FromAll(ListMap(l), lo);
    }
  }

  lemma TrimBackOne(e: Entry, lo: nat, hi: nat)
    requires lo <= e.first < hi
    ensures var r := TrimBack([e], hi);
            r != [] && Shaped(r, lo, hi) && Fits(r, hi) && ListMap(r) == Below(ListMap([e]), hi)
  {
    var r := TrimBack([e], hi);
    assert ListMap([e]) == Span(e.first, e.data);
    if e.last + 1 >= hi {
      CutBack(e, hi - e.first);
      assert ListMap(r) == Span(r[0].first, r[0].data);
    } else {
      KeysBelow([e], lo, hi);
    }
  }

  lemma {:induction false} TrimBackCuts(l: seq<Entry>, lo: nat, hi: nat)
    requires l != [] && Shaped(l, lo, hi) && l[|l| - 1].first < hi
    ensures var r := TrimBack(l, hi);
            r != [] && Shaped(r, lo, hi) && Fits(r, hi) && ListMap(r) == Below(ListMap(l), hi)
  {
    hide ListMap, Span, Below;
    if |l| == 1 {
      assert l == [l[0]];
      TrimBackOne(l[0], lo, hi);
    } else {
      var r, t := TrimBack(l, hi), l[1..];
      assert l == [l[0]] + t && t[|t| - 1] == l[|l| - 1];
      TrimBackCuts(t, l[0].last + 2, hi);
      assert r == [l[0]] + TrimBack(t, hi);
      assert r[1..] == TrimBack(t, hi);
      BelowHead(l[0], ListMap(t), hi);
      ConsMap(l[0], t);
      ConsMap(l[0], TrimBack(t, hi));
    }
  }

  lemma BelowHead(e: Entry, tail: Store, hi: nat)
    requires e.last < hi
    ensures Below(Span(e.first, e.data) + tail, hi) == Span(e.first, e.data) + Below(tail, hi)
  {
  }

  lemma TrimIsClip(l: seq<Entry>, lo: nat, hi: nat)
    requires l != [] && Shaped(l, 0, hi) && l[0].last >= lo && lo < hi
    ensures var f := TrimFront(l, lo);
            && f != [] && f[|f| - 1].first < hi
            && var r := TrimBack(f, hi);
            r != [] && Shaped(r, lo, hi) && Fits(r, hi) && ListMap(r) == Clip(ListMap(l), lo, hi)
  {
    TrimFrontCuts(l, lo, hi);
    var f := TrimFront(l, lo);
    ShapedMeans(f, lo, hi);
    TrimBackCuts(f, lo, hi);
    ClipIsBoth(ListMap(l), lo, hi);
  }

  /** The leading run of the store is the first entry, when it starts at `lo`, and empty otherwise. */
  lemma FrontIsRun(l: seq<Entry>, lo: nat, hi: nat)
    requires l != [] && Shaped(l, lo, hi)
    ensures lo in ListMap(l) <==> l[0].first == lo
    ensures Run(ListMap(l), lo) == if l[0].first == lo then |l[0].data| else 0
    ensures forall i: nat :: l[0].first <= i <= l[0].last ==> i in ListMap(l) && ListMap(l)[i] == l[0].data[i - l[0].first]
  {
    KeysFrom(l[1..], l[0].last + 2, hi);
    RunOfSpan(l[0], ListMap(l[1..]), lo);
  }

  lemma RunOfSpan(e: Entry, tail: Store, lo: nat)
    requires lo <= e.first && forall i <- tail :: i > e.last + 1
    ensures Run(Span(e.first, e.data) + tail, lo) == if e.first == lo then |e.data| else 0
  {
    var m := Span(e.first, e.data) + tail;
    var n := Run(m, lo);
    assert lo + n !in m;
    assert n > 0 ==> lo in m;
    assert e.last + 1 !in m;
    assert n > |e.data| ==> lo + |e.data| in m;
  }

  lemma DropIsClip(l: seq<Entry>, lo: nat, hi: nat, n: nat)
    requires l != [] && Shaped(l, lo, hi) && Fits(l, hi) && l[0].first == lo && n <= |l[0].data|
    ensures var r := DropFront(l, n);
            Shaped(r, lo + n, hi) && Fits(r, hi) && ListMap(r) == Clip(ListMap(l), lo + n, hi)
  {
    ShapedMeans(l, lo, hi);
    DropKeeps(l, lo, hi, n);
    DropCuts(l, lo, hi, n);
    KeysBelow(l, lo, hi);
    ClipIsBoth(ListMap(l), lo + n, hi);
  }

  /** The back trim of one entry as 64-bit arithmetic does it; taking more bytes than there are takes them all. */
  function Trimmed64(e: Entry, hi: u64): EntryRep
    requires 0 < hi && e.last < 0x1_0000_0000_0000_0000
  {
    var count := (hi - e.first) % 0x1_0000_0000_0000_0000;
    Entry(e.first, hi - 1, e.data[..Min(count, |e.data|)])
  }

  /** An entry that reaches the window's end is well formed after the trim exactly when it starts below that end. */
  lemma TrimNeedsWindow(e: Entry, hi: u64)
    requires 0 < hi <= e.last + 1 && e.last < 0x1_0000_0000_0000_0000
    ensures Trimmed64(e, hi).Wf() <==> e.first < hi
    ensures e.first < hi ==> TrimBack([e], hi) == [Trimmed64(e, hi)]
  {
    if e.first > hi {
      assert (hi - e.first) % 0x1_0000_0000_0000_0000 == hi - e.first + 0x1_0000_0000_0000_0000;
    }
  }
}
