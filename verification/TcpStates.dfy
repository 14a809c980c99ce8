/** The names given to sender and receiver states, computed from counters alone. */
module TcpStates {
  import opened ByteStreams
  import opened Senders
  import opened Receivers

  datatype SenderSummary = SenderError | Closed | SynSent | SynAcked | FinSent | FinAcked

  datatype ReceiverSummary = ReceiverError | Listen | SynRecv | FinRecv

  function SummarizeSender(s: Sender): SenderSummary {
    if s.stream.error then SenderError
    else if s.sent == 0 then Closed
    else if s.sent == InFlight(s) then SynSent
    else if !Eof(s.stream) then SynAcked
    else if s.sent < |s.stream.written| + 2 then SynAcked
    else if InFlight(s) > 0 then FinSent
    else SenderSummary.FinAcked
  }

  function SummarizeReceiver(r: Receiver): ReceiverSummary {
    if r.reasm.out.error then ReceiverError
    else if Ackno(r).None? then Listen
    else if r.reasm.out.ended then FinRecv
    else SynRecv
  }
}
