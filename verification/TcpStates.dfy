/** The state names of section 3.2 of RFC 793, as the source derives them from a sender and a
    receiver (libsponge/tcp_helpers/tcp_state.cc). */
module TcpStates {
  import opened ByteStreams
  import opened Connections
  import S = Sending
  import R = Receiving

  datatype SenderState = SenderClosed | SynSent | SynAcked | FinSent | FinAcked | SenderError

  datatype ReceiverState = Listen | SynRecv | FinRecv | ReceiverError

  datatype TCPState = TCPState(sender: SenderState, receiver: ReceiverState, active: bool, linger: bool)

  function OfSender(s: S.Sender): SenderState {
    if s.stream.error then SenderError
    else if s.nextSeqno == 0 then SenderClosed
    else if s.nextSeqno == S.BytesInFlight(s) then SynSent
    else if !Eof(s.stream) then SynAcked
    else if s.nextSeqno < |s.stream.log| + 2 then SynAcked
    else if S.BytesInFlight(s) != 0 then FinSent
    else FinAcked
  }

  function OfReceiver(r: R.Receiver): ReceiverState {
    if R.Output(r).error then ReceiverError
    else if r.ackno.None? then Listen
    else if R.Output(r).inputEnd then FinRecv
    else SynRecv
  }

  function Of(c: Conn): TCPState {
    TCPState(OfSender(c.sender), OfReceiver(c.receiver), c.active, c.active && c.lingerAfterStreamsFinish)
  }

  /** The source's own entries for the states a connection ends in. */
  const RESET: TCPState := TCPState(SenderError, ReceiverError, false, false)
  const CLOSED: TCPState := TCPState(FinAcked, FinRecv, false, false)

  function SenderRank(s: SenderState): nat {
    match s
    case SenderClosed => 0
    case SynSent => 1
    case SynAcked => 2
    case FinSent => 3
    case FinAcked => 4
    case SenderError => 5
  }

  function ReceiverRank(r: ReceiverState): nat {
    match r
    case Listen => 0
    case SynRecv => 1
    case FinRecv => 2
    case ReceiverError => 3
  }

  /** The source's test for "everything up to and including the FIN has been sent" is right. */
  lemma AllSentIffFin(s: S.Sender)
    requires S.Accounted(s)
    ensures Eof(s.stream) && s.nextSeqno == |s.stream.log| + 2 <==> s.finSent
  {
  }

  lemma SenderForward(s: S.Sender, s': S.Sender)
    requires S.Inv(s) && S.Inv(s') && S.Later(s, s') && (s.stream.error ==> s'.stream.error)
    ensures SenderRank(OfSender(s)) <= SenderRank(OfSender(s'))
  {
  }
}
