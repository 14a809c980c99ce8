/** The receiver as it is written, driving the reassembler in place. */
module TcpReceivers {
  import opened Integers
  import opened ByteStreams
  import opened StreamReassemblers
  import opened TcpSegments
  import opened WrappingIntegers
  import opened Receivers

  class TcpReceiver {
    const reassembler: StreamReassembler
    var isn: u32
    var isnSet: bool
    var finSet: bool

    ghost predicate Valid()
      reads this, reassembler, reassembler.output
    {
      reassembler.Valid()
    }

    ghost function Model(): Receiver
      requires Valid()
      reads this, reassembler, reassembler.output
    {
      Receiver(reassembler.Model(), isn, isnSet, finSet)
    }

    constructor (capacity: nat)
      ensures Valid() && fresh(reassembler) && fresh(reassembler.output) && Model() == FreshReceiver(capacity)
    {
      isn, isnSet, finSet := 0, false, false;
      reassembler := new StreamReassembler(capacity);
    }

    method Ackno() returns (a: Option<u32>)
      requires Valid()
      ensures a == Receivers.Ackno(Model())
    {
      if isnSet {
        reassembler.ModelWf();
        var waiting := reassembler.UnassembledBytes();
        var isEnd := if finSet && waiting == 0 then 1 else 0;
        a := Some(Wrap(1 + reassembler.output.bytesWritten + isEnd, isn));
      } else {
        a := None;
      }
    }

    function WindowSize(): (n: nat)
      requires Valid()
      reads this, reassembler, reassembler.output
      ensures n == Receivers.WindowSize(Model())
    {
      reassembler.output.RemainingCapacity()
    }

    /** Where the payload belongs in the stream. */
    method IndexOf(header: TcpHeader, checkpoint: nat) returns (index: nat)
      requires Valid() && isnSet && checkpoint == reassembler.output.bytesWritten
      ensures index == PayloadIndex(Model(), Segment(header, []))
    {
      index := Unwrap(header.seqno, isn, checkpoint);
      if !header.syn {
        index := if index == 0 then 0xffff_ffff_ffff_ffff else index - 1;
      }
    }

    method InWindow(seg: Segment, checkpoint: nat) returns (inside: bool)
      requires Valid() && isnSet && checkpoint == reassembler.output.bytesWritten
      ensures inside <==> Inside(Model(), seg)
    {
      var winSize := if WindowSize() == 0 then 1 else WindowSize();
      var length := if |seg.payload| == 0 then 1 else |seg.payload|;
      var ackno := Ackno();
      var winBegin := Unwrap(ackno.value, isn, checkpoint);
      var left := Unwrap(seg.header.seqno, isn, checkpoint);
      inside := winBegin < left + length && left < winBegin + winSize;
    }

    /** The SYN that opens the stream. */
    method Open(seg: Segment)
      requires Valid() && !isnSet && seg.header.syn && Acceptable(Model(), seg)
      modifies this, reassembler, reassembler.output
      ensures Valid() && Model() == Accept(old(Model()), seg)
    {
      isn := seg.header.seqno;
      isnSet := true;
      finSet := seg.header.fin;
      reassembler.PushSubstring(seg.payload, 0, seg.header.fin);
    }

    method Receive(seg: Segment, index: nat)
      requires Valid() && isnSet && Acceptable(Model(), seg) && index == PayloadIndex(Model(), seg)
      modifies this, reassembler, reassembler.output
      ensures Valid() && Model() == Accept(old(Model()), seg)
    {
      reassembler.PushSubstring(seg.payload, index, seg.header.fin);
      if seg.header.fin && !finSet {
        finSet := true;
      }
    }

    /** Handle a segment; the result says whether it lay in the window. */
    method SegmentReceived(seg: Segment) returns (inside: bool)
      requires Valid() && Acceptable(Model(), seg)
      modifies this, reassembler, reassembler.output
      ensures Valid() && (Model(), inside) == Receivers.SegmentReceived(old(Model()), seg)
    {
      if !isnSet {
        if !seg.header.syn {
          return seg.header.fin;
        }
        Open(seg);
        return true;
      }
      var checkpoint := reassembler.output.bytesWritten;
      var index := IndexOf(seg.header, checkpoint);
      inside := InWindow(seg, checkpoint);
      Receive(seg, index);
    }
  }
}
