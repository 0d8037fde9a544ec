/** An endpoint of a TCP connection: a sender and a receiver, joined
    (libsponge/tcp_connection.cc). */
module Connections {
  import opened Words
  import opened ByteStreams
  import opened Segments
  import opened Channels
  import S = Sending
  import R = Receiving
  import SR = SendingRuns

  const MAX_RETX_ATTEMPTS: nat := 8

  /** `sent` lists every segment ever handed to the network. */
  datatype Conn = Conn(
    sender: S.Sender,
    receiver: R.Receiver,
    sent: seq<Packet>,
    rtTimeout: u16,
    lingerAfterStreamsFinish: bool,
    lingering: bool,
    timeSinceLastSegRecv: nat,
    active: bool)

  datatype Config = Config(rtTimeout: u16, recvCapacity: nat, sendCapacity: nat, isn: u32)

  function New(cfg: Config): Conn {
    Conn(S.New(cfg.sendCapacity, cfg.rtTimeout, cfg.isn), R.New(cfg.recvCapacity), [], cfg.rtTimeout,
         true, false, 0, true)
  }

  /** The window goes into 16 bits. */
  function AdvertisedWindow(r: R.Receiver): u16 { Min(R.WindowSize(r), 0xffff) }

  /** `handle_sender_segment`: add what the receiver has to say. */
  function Stamp(r: R.Receiver, seg: TCPSegment): TCPSegment {
    var h := seg.header.(win := AdvertisedWindow(r));
    seg.(header := match r.ackno
                   case None => h
                   case Some(n) => h.(ack := true, ackno := n))
  }

  function ToPacket(c: Conn, g: S.OutSeg): Packet {
    Packet(g, R.AbsAck(c.receiver), Stamp(c.receiver, S.Wire(c.sender.isn, g)))
  }

  function ToPackets(c: Conn, out: seq<S.OutSeg>): seq<Packet> {
    seq(|out|, i requires 0 <= i < |out| => ToPacket(c, out[i]))
  }

  function SendAll(c: Conn): Conn {
    c.(sent := c.sent + ToPackets(c, c.sender.out), sender := c.sender.(out := []))
  }

  function Fill(c: Conn): Conn { c.(sender := S.FillWindow(c.sender)) }

  function AddEmpty(c: Conn, rst: bool): Conn { c.(sender := S.SendEmpty(c.sender, rst)) }

  predicate PrereqsMet(c: Conn) {
    && R.Output(c.receiver).inputEnd
    && Eof(c.sender.stream) && c.sender.nextSeqno == |c.sender.stream.log| + 2
    && S.BytesInFlight(c.sender) == 0
  }

  /** The side effect of `follow_prereq`: no lingering if the inbound stream ends first. */
  function NoteLinger(c: Conn): Conn {
    if Eof(R.Output(c.receiver)) && !c.sender.finSent then c.(lingerAfterStreamsFinish := false) else c
  }

  function MarkRst(c: Conn): Conn { c.(sender := SR.MarkFirst(c.sender)) }

  function Kill(c: Conn): Conn {
    c.(receiver := R.WithOutput(c.receiver, SetError(R.Output(c.receiver))),
       sender := c.sender.(stream := SetError(c.sender.stream)),
       active := false)
  }

  function UncleanShutdown(c: Conn, rst: bool): Conn {
    Kill(if rst then SendAll(MarkRst(Fill(c))) else c)
  }

  predicate KeepAlive(c: Conn, seg: TCPSegment) {
    c.receiver.ackno.Some? && seg.header.seqno == To32(c.receiver.ackno.value - 1)
  }

  function HandToReceiver(c: Conn, seg: TCPSegment): Conn {
    c.(timeSinceLastSegRecv := 0, receiver := R.SegmentReceived(c.receiver, seg))
  }

  function HandToSender(c: Conn, seg: TCPSegment): Conn {
    if seg.header.ack then c.(sender := S.AckReceived(c.sender, seg.header.ackno, seg.header.win)) else c
  }

  /** What the sender adds in answer to a segment: an empty segment for a keep-alive, a SYN for a
      bare SYN, and at least one segment for anything that occupies sequence numbers. */
  function Answer(c: Conn, seg: TCPSegment): Conn {
    if LengthInSequenceSpace(seg) == 0 then
      (if KeepAlive(c, seg) then AddEmpty(c, false) else c)
    else
      var c1 := if seg.header.syn && !seg.header.ack then Fill(c) else c;
      if c1.sender.out == [] then AddEmpty(c1, false) else c1
  }

  function SegmentReceived(c: Conn, seg: TCPSegment): Conn {
    if !c.active then c
    else
      var c1 := HandToReceiver(c, seg);
      if seg.header.rst then UncleanShutdown(c1, false)
      else SendAll(Answer(NoteLinger(HandToSender(c1, seg)), seg))
  }

  function Write(c: Conn, data: seq<byte>): Conn {
    SendAll(Fill(c.(sender := c.sender.(stream := ByteStreams.Write(c.sender.stream, data)))))
  }

  function EndInputStream(c: Conn): Conn {
    SendAll(Fill(c.(sender := c.sender.(stream := EndInput(c.sender.stream)))))
  }

  function Connect(c: Conn): Conn { SendAll(Fill(c)) }

  function Read(c: Conn, len: nat): Conn {
    c.(receiver := R.WithOutput(c.receiver, ByteStreams.Read(R.Output(c.receiver), len)))
  }

  /** The end of `tick`: close cleanly, at once or after lingering for ten timeouts. */
  function CloseIfDone(c: Conn): Conn {
    var c1 := NoteLinger(c);
    if !PrereqsMet(c) then c1
    else if !c1.lingerAfterStreamsFinish then c1.(active := false)
    else if c1.timeSinceLastSegRecv >= 10 * c1.rtTimeout then c1.(lingering := false, active := false)
    else c1
  }

  function AfterSenderTick(c: Conn, ms: nat): Conn {
    c.(sender := S.TickSender(c.sender, ms), timeSinceLastSegRecv := c.timeSinceLastSegRecv + ms)
  }

  /** Send what the window allows, but never a first SYN. */
  function TickTail(c: Conn): Conn {
    SendAll(if c.sender.synSent then Fill(c) else c)
  }

  function FinishTick(c: Conn): Conn {
    if c.sender.retx > MAX_RETX_ATTEMPTS then UncleanShutdown(c, true) else CloseIfDone(TickTail(c))
  }

  function Tick(c: Conn, ms: nat): Conn {
    FinishTick(AfterSenderTick(c, ms))
  }
}
