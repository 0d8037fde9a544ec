/** A connection that sends more than 2^32 bytes, closes cleanly, and speaks again. */
module LongConnections {
  import opened Words
  import opened SequenceNumbers
  import opened Segments
  import opened Connections
  import opened Endpoints
  import opened LongRuns
  import ByteStreams
  import Timers
  import Reassembly
  import ER = EndpointRuns
  import S = Sending
  import R = Receiving
  import EndpointReplies

  const CAPACITY: nat := 1000

  function Settings(isn: u32): Config { Config(1000, CAPACITY, 1000, isn) }

  // The peer: its initial number is 0, it has nothing to say, and it acknowledges everything.

  /** A segment from the peer that carries no data. */
  predicate FromPeer(seg: TCPSegment, seqno: u32, syn: bool, fin: bool, ackno: u32) {
    && seg == TCPSegment(DEFAULT_HEADER.(seqno := seqno, syn := syn, fin := fin, ack := true, ackno := ackno,
                                         win := seg.header.win), [])
    && seg.header.win >= 1000
  }

  function PeerSegment(seqno: u32, syn: bool, fin: bool, ackno: u32): (seg: TCPSegment)
    ensures FromPeer(seg, seqno, syn, fin, ackno)
  {
    TCPSegment(DEFAULT_HEADER.(seqno := seqno, syn := syn, fin := fin, ack := true, ackno := ackno, win := 1000), [])
  }

  /** The receiver while it has heard the SYN and nothing else. */
  const LISTENED: R.Receiver := R.Receiver(Reassembly.New(CAPACITY), Some(0), Some(1))

  lemma EmptyPush()
    ensures Reassembly.Push(Reassembly.New(CAPACITY), [], 0, false) == Reassembly.New(CAPACITY)
  {
  }

  lemma HearsSyn(seg: TCPSegment)
    requires FromPeer(seg, 0, true, false, seg.header.ackno)
    ensures R.SegmentReceived(R.New(CAPACITY), seg) == LISTENED
  {
    EmptyPush();
  }

  lemma FirstIndex()
    ensures R.StreamIndex(LISTENED, 1, 0) == 0
  {
    RoundTripIff(1, 0, 0);
  }

  lemma StaysPut()
    ensures R.Stepped(LISTENED, Reassembly.New(CAPACITY), 0) == LISTENED
  {
  }

  lemma HearsAck(seg: TCPSegment)
    requires FromPeer(seg, 1, false, false, seg.header.ackno)
    ensures R.SegmentReceived(LISTENED, seg) == LISTENED
  {
    R.ReceiveSteps(LISTENED, seg, 0);
    FirstIndex();
    EmptyPush();
    StaysPut();
  }

  lemma FinPush()
    ensures var re := Reassembly.Push(Reassembly.New(CAPACITY), [], 0, true);
            ByteStreams.Eof(re.output) && !re.output.error
  {
    var re := Reassembly.New(CAPACITY).(hasEof := true, finalIdx := TWO64 - 1);
    assert Reassembly.NoteEof(Reassembly.New(CAPACITY), [], 0, true) == re;
    assert Reassembly.ReachEnd(re);
  }

  lemma HearsFin(ackno: u32)
    ensures var r := R.SegmentReceived(LISTENED, PeerSegment(1, false, true, ackno));
            ByteStreams.Eof(R.Output(r)) && !R.Output(r).error
  {
    FirstIndex();
    FinPush();
  }

  // What the calls do to the connection

  /** The segment that carries only what the receiver has to say. */
  function Nothing(s: S.Sender): S.OutSeg { S.OutSeg(s.nextSeqno, false, false, false, []) }

  /** Once everything is sent, an answer to a segment with an acknowledgment leaves no trace in the sender. */
  lemma AnswersShortly(c: Conn, seg: TCPSegment)
    requires c.sender.out == [] && seg.header.ack
    ensures var c' := SendAll(Answer(c, seg));
      && c' == c.(sent := c'.sent)
      && (LengthInSequenceSpace(seg) > 0 ==> c'.sent == c.sent + [ToPacket(c, Nothing(c.sender))])
  {
  }

  /** A segment with an acknowledgment and without RST: the two halves take their parts. */
  lemma TakesAck(c: Conn, seg: TCPSegment)
    requires c.active && c.sender.out == [] && seg.header.ack && !seg.header.rst
    ensures var c' := SegmentReceived(c, seg);
      && c'.active && c'.receiver == R.SegmentReceived(c.receiver, seg)
      && c'.sender == S.AckReceived(c.sender, seg.header.ackno, seg.header.win)
      && c'.lingerAfterStreamsFinish
         == (c.lingerAfterStreamsFinish && (c.sender.finSent || !ByteStreams.Eof(R.Output(c'.receiver))))
      && (LengthInSequenceSpace(seg) > 0 ==> c'.sent == c.sent + [ToPacket(c', Nothing(c'.sender))])
  {
    EndpointReplies.ReceiveIsAnswer(c, seg);
    AnswersShortly(EndpointReplies.Heard(c, seg), seg);
  }

  /** `k` blocks are sent and acknowledged, and the peer is silent. */
  predicate Steady(c: Conn, isn: u32, k: nat) {
    c.active && c.lingerAfterStreamsFinish && c.receiver == LISTENED && Drained(c.sender, isn, k)
  }

  lemma Connects(isn: u32)
    ensures var c := Connect(New(Settings(isn)));
            c == New(Settings(isn)).(sender := S.FillWindow(S.New(1000, 1000, isn)).(out := []), sent := c.sent)
  {
  }

  lemma Established(c: Conn, isn: u32, seg: TCPSegment)
    requires c == New(Settings(isn)).(sender := S.FillWindow(S.New(1000, 1000, isn)).(out := []), sent := c.sent)
    requires FromPeer(seg, 0, true, false, Wrap(1, isn))
    ensures var c' := SegmentReceived(c, seg);
            Steady(c', isn, 0) && c'.sent == c.sent + [ToPacket(c', Nothing(c'.sender))]
  {
    TakesAck(c, seg);
    HearsSyn(seg);
    SynLands(c.sender, isn, seg.header.win);
  }

  lemma WritesBlock(c: Conn)
    ensures var c' := Connections.Write(c, ZeroBytes(1000));
            c' == c.(sender := SendBlock(c.sender), sent := c'.sent)
  {
  }

  /** If the block goes out as one segment, that is what is sent. */
  lemma SendsPiece(c: Conn, g: S.OutSeg)
    requires S.FillWindow(c.sender.(stream := ByteStreams.Write(c.sender.stream, ZeroBytes(1000)))).out == [g]
    requires S.FillWindow(c.sender.(stream := ByteStreams.Write(c.sender.stream, ZeroBytes(1000)))).isn == c.sender.isn
    ensures Connections.Write(c, ZeroBytes(1000)).sent == c.sent + [ToPacket(c, g)]
  {
  }

  function AckBlock(isn: u32, k: nat): TCPSegment
    requires k <= BLOCKS
  {
    PeerSegment(1, false, false, AckOf(isn, k))
  }

  /** One more block is sent. */
  predicate Waiting(c: Conn, isn: u32, k: nat) {
    c.active && c.lingerAfterStreamsFinish && c.receiver == LISTENED && Flying(c.sender, isn, k)
  }

  lemma SendsOne(c: Conn, isn: u32, k: nat)
    requires Steady(c, isn, k)
    ensures Waiting(Connections.Write(c, ZeroBytes(1000)), isn, k)
  {
    WritesBlock(c);
    BlockFlies(c.sender, isn, k);
  }

  lemma SteadyAgain(c: Conn, isn: u32, k: nat, seg: TCPSegment)
    requires Waiting(c, isn, k) && k < BLOCKS && FromPeer(seg, 1, false, false, AckOf(isn, k))
    ensures Steady(SegmentReceived(c, seg), isn, k + 1)
  {
    BlockLands(c.sender, isn, k, seg.header.win);
    TakesAck(c, seg);
    HearsAck(seg);
  }

  /** The last block lies across 2^32. With its acknowledgment the peer says that it is done. */
  predicate HalfClosed(c: Conn, isn: u32) {
    && c.active && !c.lingerAfterStreamsFinish && Stuck(c.sender, isn)
    && ByteStreams.Eof(R.Output(c.receiver)) && !R.Output(c.receiver).error
  }

  lemma HearsGoodbye(c: Conn, isn: u32)
    requires Waiting(c, isn, BLOCKS)
    ensures HalfClosed(SegmentReceived(c, PeerSegment(1, false, true, AckOf(isn, BLOCKS))), isn)
  {
    BlockSticks(c.sender, isn, 1000);
    TakesAck(c, PeerSegment(1, false, true, AckOf(isn, BLOCKS)));
    HearsFin(AckOf(isn, BLOCKS));
  }

  /** The FIN is sent, and then acknowledged; the block in front of it keeps the queue from emptying. */
  predicate Finished(s: S.Sender, isn: u32, acked: bool) {
    && s.isn == isn && s.out == [] && s.synSent && s.finSent && s.retx == 0 && s.windowSize >= 1000
    && s.stream.inputEnd && !s.stream.error && s.stream.bytesRead == |s.stream.log| == 1000 * BLOCKS + 1000
    && s.nextSeqno == 1002 + 1000 * BLOCKS && s.absAckno == (if acked then s.nextSeqno else s.nextSeqno - 1)
    && |s.backup| == 2 && s.backup[0] == Piece(BLOCKS) && s.timer == Timers.Start(1000)
  }

  function Ends(s: S.Sender): S.Sender {
    S.FillWindow(s.(stream := ByteStreams.EndInput(s.stream))).(out := [])
  }

  lemma FinFlies(s: S.Sender, isn: u32)
    requires Stuck(s, isn)
    ensures Finished(Ends(s), isn, false)
  {
    var s1 := s.(stream := ByteStreams.EndInput(s.stream));
    var fill := S.FillSize(s1);
    var g := S.NextSegment(s1, fill);
    assert g == S.OutSeg(s.nextSeqno, false, true, false, []);
    var s2 := S.Emit(S.AfterRead(s1, fill), g);
    assert S.FillLoop(s2, fill - 1) == s2;
    assert S.FillWindow(s1) == s2;
  }

  lemma FinLands(s: S.Sender, isn: u32)
    requires Finished(s, isn, false)
    ensures Finished(S.AckReceived(s, Wrap(1002 + 1000 * BLOCKS, isn), 1000), isn, true)
  {
    var a := 1002 + 1000 * BLOCKS;
    assert S.NewAckno(s, Wrap(a, isn)) == a by { RoundTripIff(a, isn, s.absAckno); }
    assert S.PopAcked(s.backup, isn, a) == s.backup by { S.SegAckedIff(Piece(BLOCKS), isn, a); }
  }

  lemma FinRests(s: S.Sender, isn: u32)
    requires Finished(s, isn, true)
    ensures S.TickSender(s, 0) == s && S.FillWindow(s) == s
  {
  }

  lemma EndsStream(c: Conn)
    ensures var c' := EndInputStream(c);
            c' == c.(sender := Ends(c.sender), sent := c'.sent)
  {
  }

  predicate Over(c: Conn, isn: u32) {
    && Finished(c.sender, isn, true) && !c.lingerAfterStreamsFinish
    && R.Output(c.receiver).inputEnd && !R.Output(c.receiver).error
  }

  /** The FIN is under way. */
  predicate Ending(c: Conn, isn: u32) {
    && c.active && !c.lingerAfterStreamsFinish && Finished(c.sender, isn, false)
    && R.Output(c.receiver).inputEnd && !R.Output(c.receiver).error
  }

  lemma SaysGoodbye(c: Conn, isn: u32)
    requires HalfClosed(c, isn)
    ensures Ending(EndInputStream(c), isn)
  {
    EndsStream(c);
    FinFlies(c.sender, isn);
  }

  function LastAck(isn: u32): TCPSegment { PeerSegment(2, false, false, Wrap(1002 + 1000 * BLOCKS, isn)) }

  lemma Closes(c: Conn, isn: u32)
    requires Ending(c, isn)
    ensures Over(SegmentReceived(c, LastAck(isn)), isn)
  {
    FinLands(c.sender, isn);
    TakesAck(c, LastAck(isn));
    ReceiverGrows(c.receiver, LastAck(isn));
  }

  lemma Rests(c: Conn, isn: u32)
    requires Over(c, isn)
    ensures var c' := Connections.Tick(c, 0);
            ER.CleanlyClosed(c') && c'.sender == c.sender
  {
    FinRests(c.sender, isn);
  }

  // The whole run

  lemma Starts(isn: u32)
    ensures ER.Reachable(Start(Settings(isn)))
  {
    var e := Start(Settings(isn));
    assert RunEnabled(e, []) && e == Endpoints.Run(e, []);
  }

  lemma Then(e: Endpoint, call: Call) returns (e': Endpoint)
    requires ER.Reachable(e) && Enabled(e.c, call)
    ensures ER.Reachable(e') && e'.c == Apply(e.c, call)
  {
    ER.ReachableStep(e, call);
    e' := Endpoints.Step(e, call);
  }

  lemma ThenReceive(e: Endpoint, seg: TCPSegment) returns (e': Endpoint)
    requires ER.Reachable(e)
    ensures ER.Reachable(e') && e'.c == SegmentReceived(e.c, seg)
  {
    e' := Then(e, ReceiveCall(seg));
  }

  lemma RunsEstablished(isn: u32) returns (e: Endpoint)
    ensures ER.Reachable(e) && Steady(e.c, isn, 0)
  {
    Starts(isn);
    Connects(isn);
    e := Then(Start(Settings(isn)), ConnectCall);
    Established(e.c, isn, PeerSegment(0, true, false, Wrap(1, isn)));
    e := ThenReceive(e, PeerSegment(0, true, false, Wrap(1, isn)));
  }

  lemma RunsWaiting(e: Endpoint, isn: u32, k: nat) returns (e': Endpoint)
    requires ER.Reachable(e) && Steady(e.c, isn, k) && k <= BLOCKS
    ensures ER.Reachable(e') && Waiting(e'.c, isn, k)
  {
    SendsOne(e.c, isn, k);
    e' := Then(e, WriteCall(ZeroBytes(1000)));
  }

  lemma RunsRound(e: Endpoint, isn: u32, k: nat) returns (e': Endpoint)
    requires ER.Reachable(e) && Waiting(e.c, isn, k) && k < BLOCKS
    ensures ER.Reachable(e') && Steady(e'.c, isn, k + 1)
  {
    SteadyAgain(e.c, isn, k, AckBlock(isn, k));
    e' := ThenReceive(e, AckBlock(isn, k));
  }

  lemma RunsOn(e: Endpoint, isn: u32, k: nat) returns (e': Endpoint)
    requires ER.Reachable(e) && Steady(e.c, isn, k) && k < BLOCKS
    ensures ER.Reachable(e') && Steady(e'.c, isn, k + 1)
  {
    e' := RunsWaiting(e, isn, k);
    e' := RunsRound(e', isn, k);
  }

  lemma {:induction false} RunsSteady(isn: u32, k: nat) returns (e: Endpoint)
    requires k <= BLOCKS
    ensures ER.Reachable(e) && Steady(e.c, isn, k)
  {
    if k == 0 {
      e := RunsEstablished(isn);
    } else {
      e := RunsSteady(isn, k - 1);
      e := RunsOn(e, isn, k - 1);
    }
  }

  lemma RunsHalfClosed(e: Endpoint, isn: u32) returns (e': Endpoint)
    requires ER.Reachable(e) && Waiting(e.c, isn, BLOCKS)
    ensures ER.Reachable(e') && HalfClosed(e'.c, isn)
  {
    HearsGoodbye(e.c, isn);
    e' := ThenReceive(e, PeerSegment(1, false, true, AckOf(isn, BLOCKS)));
  }

  lemma RunsEnding(e: Endpoint, isn: u32) returns (e': Endpoint)
    requires ER.Reachable(e) && HalfClosed(e.c, isn)
    ensures ER.Reachable(e') && Ending(e'.c, isn)
  {
    SaysGoodbye(e.c, isn);
    e' := Then(e, EndCall);
  }

  lemma RunsOver(e: Endpoint, isn: u32) returns (e': Endpoint)
    requires ER.Reachable(e) && Ending(e.c, isn)
    ensures ER.Reachable(e') && Over(e'.c, isn)
  {
    Closes(e.c, isn);
    e' := ThenReceive(e, LastAck(isn));
  }

  lemma RunsClosed(e: Endpoint, isn: u32) returns (e': Endpoint)
    requires ER.Reachable(e) && Over(e.c, isn)
    ensures ER.Reachable(e') && ER.CleanlyClosed(e'.c) && Finished(e'.c.sender, isn, true)
  {
    Rests(e.c, isn);
    e' := Then(e, TickCall(0));
  }

  lemma RunsToTheEnd(isn: u32) returns (e: Endpoint)
    ensures ER.Reachable(e) && ER.CleanlyClosed(e.c) && Finished(e.c.sender, isn, true)
  {
    e := RunsSteady(isn, BLOCKS);
    e := RunsWaiting(e, isn, BLOCKS);
    e := RunsHalfClosed(e, isn);
    e := RunsEnding(e, isn);
    e := RunsOver(e, isn);
    e := RunsClosed(e, isn);
  }

  /** There are connections that have closed cleanly, with everything acknowledged, and send again when
      time passes: here after a run in which nothing was lost. */
  lemma CleanCloseSpeaksAgain()
    ensures exists e: Endpoint ::
      && ER.Reachable(e) && ER.CleanlyClosed(e.c) && S.BytesInFlight(e.c.sender) == 0 && e.c.sender.backup != []
      && e.c.sent < Endpoints.Step(e, TickCall(EndpointReplies.TimeToExpiry(e.c))).c.sent
  {
    var e := RunsToTheEnd(0);
    ER.ReachableOk(e);
    EndpointReplies.StuckQueueSpeaksAgain(e);
  }
}
