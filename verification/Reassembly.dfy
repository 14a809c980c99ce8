/**
 * What reassembly means, with no intervals in sight: a finite map from stream
 * index to byte, clipped to a window, whose leading run is delivered greedily.
 */
module Reassembly {
  import opened Integers
  import opened ByteStreams

  type Store = map<nat, byte>

  datatype Reassembler = Reassembler(capacity: nat, store: Store, out: Stream, eof: bool) {
    /** The first index not yet written to the output. */
    function First(): nat {
      |out.written|
    }

    predicate Wf() {
      && out.capacity == capacity
      && forall i <- store :: First() <= i < First() + capacity
    }
  }

  function FreshReassembler(capacity: nat): Reassembler {
    Reassembler(capacity, map[], Fresh(capacity), false)
  }

  predicate Within(i: nat, lo: nat, n: nat) {
    lo <= i < lo + n
  }

  function Range(lo: nat, n: nat): (s: set<nat>)
  {
    set i: nat | lo <= i < lo + n && Within(i, lo, n)
  }

  ghost predicate Covered(store: Store, lo: nat, hi: nat) {
    forall j: nat :: lo <= j <= hi ==> j in store
  }

  /**
   * The byte known at `i` once new data arrives. Where both know it, the stored byte
   * stays exactly when every index from the start of the new data up to `i` was stored.
   */
  ghost function OverlayByte(store: Store, data: seq<byte>, index: nat, i: nat): byte
    requires i in store || index <= i < index + |data|
  {
    if i in store && (index <= i < index + |data| ==> Covered(store, index, i))
    then store[i]
    else data[i - index]
  }

  ghost function Overlay(store: Store, data: seq<byte>, index: nat): Store {
    map i | i in store.Keys + Range(index, |data|) :: OverlayByte(store, data, index, i)
  }

  function Clip(store: Store, lo: nat, hi: nat): (m: Store)
    ensures forall i <- m :: lo <= i < hi
  {
    map i | i in store && lo <= i < hi :: store[i]
  }

  /** The length of the run of consecutive known indices starting at `i`. */
  ghost function Run(store: Store, i: nat): (n: nat)
    ensures forall j: nat :: i <= j < i + n ==> j in store
    ensures i + n !in store
    decreases |store|
  {
    if i in store then
      var rest := map j | j in store && j != i :: store[j];
      assert rest.Keys == store.Keys - {i};
      var n := Run(rest, i + 1);
      assert forall j: nat {:trigger j in store} :: i <= j < i + 1 + n ==> j == i || j in rest;
      1 + n
    else 0
  }

  ghost function Bytes(store: Store, i: nat, n: nat): (s: seq<byte>)
    requires forall j: nat :: i <= j < i + n ==> j in store
    ensures |s| == n
  {
    seq(n, k requires 0 <= k < n => store[i + k])
  }

  /** The output after `sent` is written, ended if nothing is left to come. */
  function Flushed(out: Stream, sent: seq<byte>, done: bool): Stream {
    var out := Append(out, sent);
    if done then out.(ended := true) else out
  }

  /** Write `sent` and keep `rest`; an empty store after the final byte was announced ends the output. */
  function Emit(r: Reassembler, sent: seq<byte>, rest: Store): Reassembler {
    r.(store := rest, out := Flushed(r.out, sent, rest == map[] && r.eof))
  }

  /** Write the leading run of the store to the output, as far as there is room. */
  ghost function Deliver(r: Reassembler): Reassembler {
    var first := r.First();
    if first in r.store then
      var n := Min(Run(r.store, first), Room(r.out));
      Emit(r, Bytes(r.store, first, n), Clip(r.store, first + n, first + r.capacity))
    else r
  }

  /** The window's part of what is known once `data` arrives at `index`. */
  ghost function Known(store: Store, data: seq<byte>, index: nat, first: nat, capacity: nat): Store {
    Clip(Overlay(store, data, index), first, first + capacity)
  }

  /** Store what fits the window, then deliver. */
  ghost function Absorb(r: Reassembler, data: seq<byte>, index: nat): Reassembler {
    Deliver(r.(store := Known(r.store, data, index, r.First(), r.capacity)))
  }

  ghost function Push(r: Reassembler, data: seq<byte>, index: nat, eof: bool): Reassembler {
    var r := r.(eof := r.eof || eof);
    if data == [] then
      if r.eof && r.First() == index then r.(out := r.out.(ended := true)) else r
    else if index + |data| <= r.First() then r
    else Absorb(r, data, index)
  }

  /** A valid store never holds more than `capacity` bytes. */
  lemma StoreFits(r: Reassembler)
    requires r.Wf()
    ensures |r.store| <= r.capacity
  {
    RangeSize(r.First(), r.capacity);
    SubsetSize(r.store.Keys, Range(r.First(), r.capacity));
  }

  lemma {:induction false} RangeSize(lo: nat, n: nat)
    ensures |Range(lo, n)| == n
  {
    if n > 0 {
      RangeSize(lo, n - 1);
      assert Range(lo, n) == Range(lo, n - 1) + {lo + n - 1};
    }
  }

  lemma {:induction false} SubsetSize(a: set<nat>, b: set<nat>)
    requires a <= b
    ensures |a| <= |b|
  {
    if a != {} {
      var x :| x in a;
      SubsetSize(a - {x}, b - {x});
    }
  }
}
