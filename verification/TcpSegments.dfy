/** TCP segments as values; header fields keep their widths and default values. */
module TcpSegments {
  import opened Integers

  datatype TcpHeader = TcpHeader(
    sport: u16, dport: u16, seqno: u32, ackno: u32, doff: byte,
    urg: bool, ack: bool, psh: bool, rst: bool, syn: bool, fin: bool,
    win: u16, cksum: u16, uptr: u16)

  datatype Segment = Segment(header: TcpHeader, payload: seq<byte>)

  const DEFAULT_HEADER := TcpHeader(0, 0, 0, 0, 5, false, false, false, false, false, false, 0, 0, 0)

  /** Sequence numbers a segment occupies: its bytes, and one each for SYN and FIN. */
  function SeqLen(seg: Segment): nat {
    |seg.payload| + (if seg.header.syn then 1 else 0) + (if seg.header.fin then 1 else 0)
  }
}
