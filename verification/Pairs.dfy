/** Two endpoints and everything they ever sent each other: what each call of one of them keeps of
    the agreement in both directions. */
module Pairs {
  import opened Words
  import opened Segments
  import opened Channels
  import opened Connections
  import opened Endpoints
  import opened SendingReach
  import S = Sending
  import R = Receiving
  import SR = SendingRuns

  ghost predicate Pair(c: Conn, d: Conn) {
    && Channel(c.sender, d.receiver, c.sent, d.sent)
    && Channel(d.sender, c.receiver, d.sent, c.sent)
  }

  lemma FreshPair(cfg: Config, cfg': Config)
    ensures Pair(New(cfg), New(cfg'))
  {
  }

  lemma ToPacketData(c: Conn, d: Conn, g: S.OutSeg)
    requires Agree(c.sender, d.receiver) && g in c.sender.out
    ensures DataOk(ToPacket(c, g), c.sender, d.receiver)
  {
  }

  lemma ToPacketAck(c: Conn, d: Conn, g: S.OutSeg)
    requires Agree(d.sender, c.receiver)
    ensures AckOk(ToPacket(c, g), d.sender, c.receiver)
  {
  }

  lemma SendAllKeeps(c: Conn, d: Conn)
    requires Pair(c, d)
    ensures Pair(SendAll(c), d) && SendAll(c).sender.out == []
  {
    var new' := ToPackets(c, c.sender.out);
    forall p | p in new'
      ensures DataOk(p, c.sender, d.receiver) && AckOk(p, d.sender, c.receiver)
    {
      var i :| 0 <= i < |new'| && new'[i] == p;
      ToPacketData(c, d, c.sender.out[i]);
      ToPacketAck(c, d, c.sender.out[i]);
    }
    SendMoves(c.sender, d.receiver, c.sent, d.sent, new');
  }

  lemma FillKeeps(c: Conn, d: Conn)
    requires Pair(c, d)
    ensures Pair(Fill(c), d)
  {
    FillMoves(c.sender, d.receiver, c.sent, d.sent);
  }

  lemma EmptyKeeps(c: Conn, d: Conn, rst: bool)
    requires Pair(c, d)
    ensures Pair(AddEmpty(c, rst), d)
  {
    SameStart(c.sender, S.SendEmpty(c.sender, rst));
    OutsideMoves(c.sender, S.SendEmpty(c.sender, rst), d.receiver, c.sent, d.sent);
  }

  lemma MarkFirstInside(s: S.Sender, r: R.Receiver)
    requires S.Inv(s) && forall g :: g in s.out ==> InsideEdge(g, r)
    ensures var s' := SR.MarkFirst(s);
            forall g :: g in s'.out ==> g in s.out || (S.Genuine(g, s') && InsideEdge(g, r))
  {
    SR.MarkFirstKeeps(s);
    var s' := SR.MarkFirst(s);
    if s.out != [] {
      assert s.out[0] in s.out;
      forall g | g in s'.out
        ensures g in s.out || InsideEdge(g, r)
      {
        if g != s'.out[0] { assert g in s.out[1..]; }
      }
    }
  }

  lemma MarkRstKeeps(c: Conn, d: Conn)
    requires Pair(c, d)
    ensures Pair(MarkRst(c), d)
  {
    MarkFirstInside(c.sender, d.receiver);
    SameStart(c.sender, SR.MarkFirst(c.sender));
    OutsideMoves(c.sender, SR.MarkFirst(c.sender), d.receiver, c.sent, d.sent);
  }

  lemma KillPairs(c: Conn, d: Conn)
    requires Pair(c, d)
    ensures Pair(Kill(c), d)
  {
    var c' := Kill(c);
    ClosedStarts(c.sender, c'.sender);
    OutsideMoves(c.sender, c'.sender, d.receiver, c.sent, d.sent);
    ErrorMoves(d.sender, c.receiver, d.sent, c.sent);
  }

  lemma TickPairs(c: Conn, d: Conn, ms: nat)
    requires Pair(c, d)
    ensures Pair(AfterSenderTick(c, ms), d)
  {
    TickMoves(c.sender, d.receiver, c.sent, d.sent, ms);
  }

  lemma ReadPairs(c: Conn, d: Conn, len: nat)
    requires Pair(c, d)
    ensures Pair(Connections.Read(c, len), d) && R.Later(c.receiver, Connections.Read(c, len).receiver)
  {
    ReadMoves(d.sender, c.receiver, d.sent, c.sent, len);
  }

  lemma StreamPairs(c: Conn, d: Conn, ev: SR.Event)
    requires Pair(c, d) && SR.Enabled(c.sender, ev) && (ev.WriteEvent? || ev.EndEvent?)
    ensures Pair(c.(sender := SR.Step(c.sender, ev)), d)
  {
    if ev.WriteEvent? { WriteStarts(c.sender, ev.data); } else { ClosedStarts(c.sender, SR.Step(c.sender, ev)); }
    OutsideMoves(c.sender, SR.Step(c.sender, ev), d.receiver, c.sent, d.sent);
  }

  /** The network may lose, repeat and reorder packets. What it must not do is hand over data or a FIN whose
      place `unwrap` does not recover, or an acknowledgment that lets the sender send past the window. */
  predicate Deliverable(c: Conn, d: Conn, p: Packet) {
    c.active ==>
      && (c.receiver.isn.Some? && R.HasContent(p.wire) ==> R.Timely(p.src.abs, c.receiver.reassembler.firstUnassembled))
      && (p.wire.header.ack && !p.wire.header.rst ==>
            Harmless(c.sender, d.receiver, p.ackAbs, p.wire.header.win))
  }

  lemma ReceivePairs(c: Conn, d: Conn, p: Packet)
    requires Pair(c, d) && p in d.sent && !R.Output(c.receiver).error
    requires c.receiver.isn.Some? && R.HasContent(p.wire) ==>
               R.Timely(p.src.abs, c.receiver.reassembler.firstUnassembled)
    ensures Pair(HandToReceiver(c, p.wire), d) && R.Later(c.receiver, HandToReceiver(c, p.wire).receiver)
  {
    ReceiveMoves(d.sender, c.receiver, d.sent, c.sent, p);
  }

  lemma AckPairs(c: Conn, d: Conn, p: Packet)
    requires Pair(c, d) && p in d.sent
    requires p.wire.header.ack ==> Harmless(c.sender, d.receiver, p.ackAbs, p.wire.header.win)
    ensures Pair(HandToSender(c, p.wire), d)
  {
    if p.wire.header.ack {
      assert AckOk(p, c.sender, d.receiver);
      AckMoves(c.sender, d.receiver, c.sent, d.sent, p.ackAbs, p.wire.header.win);
    }
  }

  lemma AnswerPairs(c: Conn, d: Conn, seg: TCPSegment)
    requires Pair(c, d)
    ensures Pair(Answer(c, seg), d)
  {
    if LengthInSequenceSpace(seg) == 0 {
      if KeepAlive(c, seg) { EmptyKeeps(c, d, false); }
    } else if seg.header.syn && !seg.header.ack {
      FillKeeps(c, d);
      if Fill(c).sender.out == [] { EmptyKeeps(Fill(c), d, false); }
    } else if c.sender.out == [] {
      EmptyKeeps(c, d, false);
    }
  }

  lemma AnswerAndSend(c: Conn, d: Conn, seg: TCPSegment)
    requires Pair(c, d)
    ensures Pair(SendAll(Answer(NoteLinger(c), seg)), d)
  {
    var c1 := NoteLinger(c);
    assert Pair(c1, d);
    AnswerPairs(c1, d, seg);
    SendAllKeeps(Answer(c1, seg), d);
  }

  lemma DeliverLive(c: Conn, d: Conn, p: Packet)
    requires Pair(c, d) && c.active && !R.Output(c.receiver).error && p in d.sent && Deliverable(c, d, p)
    requires !p.wire.header.rst
    ensures Pair(SegmentReceived(c, p.wire), d)
  {
    var c1 := HandToReceiver(c, p.wire);
    ReceivePairs(c, d, p);
    AckPairs(c1, d, p);
    AnswerAndSend(HandToSender(c1, p.wire), d, p.wire);
  }

  lemma DeliverRst(c: Conn, d: Conn, p: Packet)
    requires Pair(c, d) && c.active && !R.Output(c.receiver).error && p in d.sent && Deliverable(c, d, p)
    requires p.wire.header.rst
    ensures Pair(SegmentReceived(c, p.wire), d)
  {
    ReceivePairs(c, d, p);
    KillPairs(HandToReceiver(c, p.wire), d);
  }

  /** A packet arrives. */
  lemma DeliverPairs(c: Conn, d: Conn, p: Packet)
    requires Pair(c, d) && FlagsOk(c) && p in d.sent && Deliverable(c, d, p)
    ensures Pair(SegmentReceived(c, p.wire), d)
  {
    if c.active {
      if p.wire.header.rst { DeliverRst(c, d, p); } else { DeliverLive(c, d, p); }
    }
  }

  lemma DeliverCallPairs(c: Conn, d: Conn, p: Packet)
    requires Pair(c, d) && FlagsOk(c) && p in d.sent && Deliverable(c, d, p)
    ensures Pair(Apply(c, ReceiveCall(p.wire)), d)
  {
    DeliverPairs(c, d, p);
  }

  /** `connect`, `write` and `end_input_stream`. */
  lemma FillAndSendPairs(c: Conn, d: Conn)
    requires Pair(c, d)
    ensures Pair(SendAll(Fill(c)), d)
  {
    FillKeeps(c, d);
    SendAllKeeps(Fill(c), d);
  }

  lemma ShutdownPairs(c: Conn, d: Conn)
    requires Pair(c, d)
    ensures Pair(UncleanShutdown(c, true), d)
  {
    FillKeeps(c, d);
    MarkRstKeeps(Fill(c), d);
    SendAllKeeps(MarkRst(Fill(c)), d);
    KillPairs(SendAll(MarkRst(Fill(c))), d);
  }

  lemma TailPairs(c: Conn, d: Conn)
    requires Pair(c, d)
    ensures Pair(CloseIfDone(TickTail(c)), d)
  {
    var c1 := TickTail(c);
    assert Pair(c1, d) by {
      if c.sender.synSent { FillAndSendPairs(c, d); } else { SendAllKeeps(c, d); }
    }
    ClosePairs(c1, d);
  }

  lemma ClosePairs(c: Conn, d: Conn)
    requires Pair(c, d)
    ensures Pair(CloseIfDone(c), d)
  {
  }

  lemma TimePairs(c: Conn, d: Conn, ms: nat)
    requires Pair(c, d)
    ensures Pair(Connections.Tick(c, ms), d)
  {
    var c1 := AfterSenderTick(c, ms);
    TickPairs(c, d, ms);
    if c1.sender.retx > MAX_RETX_ATTEMPTS { ShutdownPairs(c1, d); } else { TailPairs(c1, d); }
  }

  lemma WritePairs(c: Conn, d: Conn, data: seq<byte>)
    requires Pair(c, d) && Enabled(c, WriteCall(data))
    ensures Pair(Connections.Write(c, data), d)
  {
    StreamPairs(c, d, SR.WriteEvent(data));
    FillAndSendPairs(c.(sender := SR.Step(c.sender, SR.WriteEvent(data))), d);
  }

  lemma EndPairs(c: Conn, d: Conn)
    requires Pair(c, d)
    ensures Pair(EndInputStream(c), d)
  {
    StreamPairs(c, d, SR.EndEvent);
    FillAndSendPairs(c.(sender := SR.Step(c.sender, SR.EndEvent)), d);
  }

  /** Any call that is not the arrival of a packet. */
  lemma LocalCallPairs(c: Conn, d: Conn, call: Call)
    requires Pair(c, d) && Enabled(c, call) && !call.ReceiveCall?
    ensures Pair(Apply(c, call), d)
  {
    match call
    case ConnectCall => FillAndSendPairs(c, d);
    case WriteCall(data) => WritePairs(c, d, data);
    case EndCall => EndPairs(c, d);
    case TickCall(ms) => TimePairs(c, d, ms);
    case ReadCall(len) => ReadPairs(c, d, len);
  }
}
