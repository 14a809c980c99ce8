/** The receiving half of TCP as a value. */
module Receivers {
  import opened Integers
  import opened ByteStreams
  import opened Reassembly
  import opened TcpSegments
  import opened WrappingIntegers

  datatype Receiver = Receiver(reasm: Reassembler, isn: u32, isnSet: bool, finSet: bool) {
    /** The first stream index not yet written to the application. */
    function First(): nat {
      reasm.First()
    }
  }

  function FreshReceiver(capacity: nat): Receiver {
    Receiver(FreshReassembler(capacity), 0, false, false)
  }

  /** The position acknowledged: the SYN, the bytes written, and the FIN once nothing is left waiting. */
  function AckPosition(r: Receiver): nat {
    1 + r.First() + (if r.finSet && r.reasm.store == map[] then 1 else 0)
  }

  function Ackno(r: Receiver): Option<u32> {
    if r.isnSet then Some(Wrap(AckPosition(r), r.isn)) else None
  }

  function WindowSize(r: Receiver): nat {
    Room(r.reasm.out)
  }

  function SeqPosition(r: Receiver, seg: Segment): nat {
    Unwrap(seg.header.seqno, r.isn, r.First())
  }

  /** Where the payload goes in the stream: one before its position, unless the SYN precedes it; 64-bit. */
  function PayloadIndex(r: Receiver, seg: Segment): nat {
    if !r.isnSet then 0
    else if seg.header.syn then SeqPosition(r, seg)
    else if SeqPosition(r, seg) == 0 then 0xffff_ffff_ffff_ffff
    else SeqPosition(r, seg) - 1
  }

  /** Does the segment, counted as at least one number long, overlap the window, counted as at least one wide? */
  predicate Inside(r: Receiver, seg: Segment)
    requires r.isnSet
  {
    var width := if WindowSize(r) == 0 then 1 else WindowSize(r);
    var length := if |seg.payload| == 0 then 1 else |seg.payload|;
    var begin := Unwrap(Wrap(AckPosition(r), r.isn), r.isn, r.First());
    var left := SeqPosition(r, seg);
    begin < left + length && left < begin + width
  }

  ghost function Accept(r: Receiver, seg: Segment): Receiver {
    r.(reasm := Push(r.reasm, seg.payload, PayloadIndex(r, seg), seg.header.fin),
       finSet := if r.isnSet then r.finSet || seg.header.fin else seg.header.fin,
       isn := if r.isnSet then r.isn else seg.header.seqno,
       isnSet := true)
  }

  /** Before the SYN everything else is dropped; after it every segment is pushed. */
  ghost function SegmentReceived(r: Receiver, seg: Segment): (Receiver, bool) {
    if !r.isnSet && !seg.header.syn then (r, seg.header.fin)
    else (Accept(r, seg), !r.isnSet || Inside(r, seg))
  }

  /** What the code needs of a segment: its payload starts inside the store's window, which is not empty. */
  predicate Acceptable(r: Receiver, seg: Segment) {
    (r.isnSet || seg.header.syn) && seg.payload != [] ==>
      r.reasm.capacity > 0 && PayloadIndex(r, seg) < r.First() + r.reasm.capacity
  }
}
