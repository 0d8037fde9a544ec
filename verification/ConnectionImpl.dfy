/** The connection as the source keeps it: a sender and a receiver object, and flags. */
module ConnectionImpl {
  import opened Words
  import opened Segments
  import ByteStreams
  import opened Channels
  import C = Connections
  import S = Sending
  import opened ReceiverImpl
  import opened SenderImpl

  function PacketWires(ps: seq<Packet>): seq<TCPSegment> {
    seq(|ps|, i requires 0 <= i < |ps| => ps[i].wire)
  }

  /** Moving the first waiting segment to the wire is a part of `SendAll`. */
  lemma SendFirst(c: C.Conn)
    requires c.sender.out != []
    ensures C.SendAll(c) == C.SendAll(c.(sent := c.sent + [C.ToPacket(c, c.sender.out[0])],
                                         sender := c.sender.(out := c.sender.out[1..])))
  {
  }

  class TCPConnection {
    const rtTimeout: u16
    const receiver: TCPReceiver
    const sender: TCPSender
    var segmentsOut: seq<TCPSegment>
    var lingerAfterStreamsFinish: bool
    var lingering: bool
    var timeSinceLastSegRecv: nat
    var active: bool
    ghost var sent: seq<Packet>
    ghost var taken: nat

    ghost function Repr(): set<object> {
      {this, sender, sender.stream, sender.timer, receiver, receiver.reassembler, receiver.reassembler.output}
    }

    ghost predicate Valid()
      reads Repr()
    {
      && sender.Valid() && receiver.Valid() && sender.stream != receiver.reassembler.output
      && taken <= |sent| && segmentsOut == PacketWires(sent[taken..])
    }

    ghost function Model(): C.Conn
      reads Repr()
      requires Valid()
    {
      C.Conn(sender.Model(), receiver.Model(), sent, rtTimeout, lingerAfterStreamsFinish, lingering,
             timeSinceLastSegRecv, active)
    }

    constructor (cfg: C.Config)
      ensures Valid() && Model() == C.New(cfg)
    {
      rtTimeout := cfg.rtTimeout;
      receiver := new TCPReceiver(cfg.recvCapacity);
      sender := new TCPSender(cfg.sendCapacity, cfg.rtTimeout, cfg.isn);
      segmentsOut, sent, taken := [], [], 0;
      lingerAfterStreamsFinish, lingering, timeSinceLastSegRecv, active := true, false, 0, true;
    }

    /** The owner takes the next segment off the queue; the connection never looks at it again. */
    method TakeSegment() returns (seg: TCPSegment)
      requires Valid() && segmentsOut != []
      modifies this
      ensures Valid() && Model() == old(Model()) && [seg] + segmentsOut == old(segmentsOut)
    {
      seg := segmentsOut[0];
      segmentsOut := segmentsOut[1..];
      taken := taken + 1;
    }

    function HandleSenderSegment(seg: TCPSegment): (r: TCPSegment)
      reads Repr()
      requires Valid()
      ensures r == C.Stamp(receiver.Model(), seg)
    {
      var seg1 := if receiver.ackno.Some?
                  then seg.(header := seg.header.(ack := true, ackno := receiver.ackno.value)) else seg;
      seg1.(header := seg1.header.(win := if receiver.WindowSize() > 0xffff then 0xffff else receiver.WindowSize()))
    }

    method SendAll()
      requires Valid()
      modifies this, sender
      ensures Valid() && Model() == C.SendAll(old(Model()))
    {
      ghost var end := C.SendAll(Model());
      while sender.segmentsOut != []
        invariant Valid() && C.SendAll(Model()) == end
        decreases |sender.segmentsOut|
      {
        SendFirst(Model());
        SendOne();
      }
    }

    /** Take the next segment off the sender's queue. */
    method PopSegment() returns (segment: TCPSegment)
      requires Valid() && sender.segmentsOut != []
      modifies sender
      ensures Valid() && |sender.segmentsOut| < |old(sender.segmentsOut)|
      ensures Model() == old(Model()).(sender := old(sender.Model()).(out := old(sender.out[1..])))
      ensures segment == S.Wire(sender.isn, old(sender.out[0]))
    {
      segment := sender.segmentsOut[0];
      sender.segmentsOut := sender.segmentsOut[1..];
      sender.out := sender.out[1..];
    }

    /** One round of the loop in `send_all`. */
    method SendOne()
      requires Valid() && sender.segmentsOut != []
      modifies this, sender
      ensures Valid() && |sender.segmentsOut| < |old(sender.segmentsOut)|
      ensures Model() == old(Model()).(sent := old(sent) + [C.ToPacket(old(Model()), old(sender.out[0]))],
                                       sender := old(sender.Model()).(out := old(sender.out[1..])))
    {
      ghost var p := C.ToPacket(Model(), sender.out[0]);
      var segment := PopSegment();
      segment := HandleSenderSegment(segment);
      segmentsOut := segmentsOut + [segment];
      sent := sent + [p];
    }

    method FollowPrereq() returns (met: bool)
      requires Valid()
      modifies this
      ensures Valid() && Model() == C.NoteLinger(old(Model())) && met == C.PrereqsMet(old(Model()))
    {
      var prereq1 := receiver.reassembler.output.inputEnd;
      var prereq2 := sender.stream.AtEof() && sender.nextSeqno == sender.stream.bytesWritten + 2;
      var prereq3 := sender.BytesInFlight() == 0;
      if receiver.reassembler.output.AtEof() && !sender.finSent {
        lingerAfterStreamsFinish := false;
      }
      met := prereq1 && prereq2 && prereq3;
    }

    /** Mark the first waiting segment with RST, or send an empty one that has it. */
    method MarkRst()
      requires Valid()
      modifies sender
      ensures Valid() && Model() == C.MarkRst(old(Model()))
    {
      if sender.segmentsOut == [] {
        sender.SendEmptySegment(true);
      } else {
        var front := sender.segmentsOut[0];
        sender.segmentsOut := [front.(header := front.header.(rst := true))] + sender.segmentsOut[1..];
        sender.out := [sender.out[0].(rst := true)] + sender.out[1..];
        assert sender.Valid();
      }
    }

    method UncleanShutdown(sendRst: bool)
      requires Valid()
      modifies Repr()
      ensures Valid() && Model() == C.UncleanShutdown(old(Model()), sendRst)
    {
      if sendRst {
        sender.FillWindow();
        MarkRst();
        SendAll();
      }
      Fail();
    }

    /** The end of `unclean_shutdown`: both streams get the error flag. */
    method Fail()
      requires Valid()
      modifies Repr()
      ensures Valid() && Model() == C.Kill(old(Model()))
    {
      receiver.reassembler.output.SetError();
      sender.stream.SetError();
      active := false;
    }

    method SegmentReceived(seg: TCPSegment)
      requires Valid()
      modifies Repr()
      ensures Valid() && Model() == C.SegmentReceived(old(Model()), seg)
    {
      if !active {
        return;
      }
      timeSinceLastSegRecv := 0;
      receiver.SegmentReceived(seg);
      if seg.header.rst {
        UncleanShutdown(false);
        return;
      }
      ProcessSegment(seg);
    }

    /** The part of `segment_received` behind the receiver and the RST check. */
    method ProcessSegment(seg: TCPSegment)
      requires Valid()
      modifies this, sender, sender.stream, sender.timer
      ensures Valid()
      ensures Model() == C.SendAll(C.Answer(C.NoteLinger(C.HandToSender(old(Model()), seg)), seg))
    {
      if seg.header.ack {
        sender.AckReceived(seg.header.ackno, seg.header.win);
      }
      var _ := FollowPrereq();
      Answer(seg);
      SendAll();
    }

    /** The last part of `segment_received`, up to sending. */
    method Answer(seg: TCPSegment)
      requires Valid()
      modifies sender, sender.stream, sender.timer
      ensures Valid() && Model() == C.Answer(old(Model()), seg)
    {
      if LengthInSequenceSpace(seg) == 0 {
        if receiver.ackno.Some? && seg.header.seqno == To32(receiver.ackno.value - 1) {
          sender.SendEmptySegment(false);
        }
        return;
      }
      if seg.header.syn && !seg.header.ack {
        sender.FillWindow();
      }
      if sender.segmentsOut == [] {
        sender.SendEmptySegment(false);
      }
    }

    method Write(data: seq<byte>) returns (n: nat)
      requires Valid()
      modifies Repr()
      ensures Valid() && Model() == C.Write(old(Model()), data)
      ensures n == ByteStreams.Accepts(old(Model()).sender.stream, data)
    {
      n := sender.stream.Write(data);
      sender.FillWindow();
      SendAll();
    }

    method EndInputStream()
      requires Valid()
      modifies Repr()
      ensures Valid() && Model() == C.EndInputStream(old(Model()))
    {
      sender.stream.EndInput();
      sender.FillWindow();
      SendAll();
    }

    method Connect()
      requires Valid()
      modifies Repr()
      ensures Valid() && Model() == C.Connect(old(Model()))
    {
      sender.FillWindow();
      SendAll();
    }

    method Tick(ms: nat)
      requires Valid()
      modifies Repr()
      ensures Valid() && Model() == C.Tick(old(Model()), ms)
    {
      PassTime(ms);
      FinishTick();
    }

    method PassTime(ms: nat)
      requires Valid()
      modifies this, sender, sender.timer
      ensures Valid() && Model() == C.AfterSenderTick(old(Model()), ms)
    {
      sender.Tick(ms);
      timeSinceLastSegRecv := timeSinceLastSegRecv + ms;
    }

    /** Give up after too many retransmissions, or else send what can be sent and close if done. */
    method FinishTick()
      requires Valid()
      modifies Repr()
      ensures Valid() && Model() == C.FinishTick(old(Model()))
    {
      if sender.retx > C.MAX_RETX_ATTEMPTS {
        UncleanShutdown(true);
        return;
      }
      SendPending();
      CloseIfDone();
    }

    /** Send what the window allows, but never a first SYN. */
    method SendPending()
      requires Valid()
      modifies this, sender, sender.stream, sender.timer
      ensures Valid() && Model() == C.TickTail(old(Model()))
    {
      if sender.synSent { sender.FillWindow(); }
      SendAll();
    }

    /** The end of `tick`. */
    method CloseIfDone()
      requires Valid()
      modifies this
      ensures Valid() && Model() == C.CloseIfDone(old(Model()))
    {
      var met := FollowPrereq();
      if !met {
        return;
      }
      if !lingerAfterStreamsFinish {
        active := false;
      }
      if lingerAfterStreamsFinish && timeSinceLastSegRecv >= 10 * rtTimeout {
        lingering := false;
        active := false;
      }
    }
  }
}
