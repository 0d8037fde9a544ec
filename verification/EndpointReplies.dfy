/** What a connection says and when: the answers to arriving segments, retransmission when time is up,
    and the decision not to linger. */
module EndpointReplies {
  import opened Words
  import opened ByteStreams
  import opened Segments
  import opened Channels
  import opened Connections
  import opened Endpoints
  import ER = EndpointRuns
  import TcpStates
  import S = Sending
  import R = Receiving

  /** What went to the wire between two states. */
  function News(c: Conn, c': Conn): seq<Packet>
    requires |c.sent| <= |c'.sent|
  {
    c'.sent[|c.sent|..]
  }

  /** `p` carries what the receiver `r` has to say. */
  predicate Speaks(p: Packet, r: R.Receiver) {
    && p.wire.header.win == Min(R.WindowSize(r), 0xffff)
    && p.wire.header.ack == r.ackno.Some? && (r.ackno.Some? ==> p.wire.header.ackno == r.ackno.value)
  }

  lemma SentIsStamped(c: Conn)
    ensures News(c, SendAll(c)) == ToPackets(c, c.sender.out)
    ensures forall p :: p in News(c, SendAll(c)) ==> Speaks(p, c.receiver)
  {
  }

  /** The connection when it has taken notice of a segment and not yet answered. */
  function Heard(c: Conn, seg: TCPSegment): Conn { NoteLinger(HandToSender(HandToReceiver(c, seg), seg)) }

  lemma HeardSaysNothing(c: Conn, seg: TCPSegment)
    ensures var c' := Heard(c, seg);
      && c'.sender.out == c.sender.out && c'.sent == c.sent
      && c'.sender.synSent == c.sender.synSent && c'.sender.finSent == c.sender.finSent
  {
  }

  lemma AnswerOut(c: Conn, seg: TCPSegment)
    requires c.sender.out == []
    ensures var c' := Answer(c, seg);
      && c' == c.(sender := c'.sender)
      && (c'.sender.out != [] <==> LengthInSequenceSpace(seg) > 0 || KeepAlive(c, seg))
      && (seg.header.syn && !seg.header.ack && !c.sender.synSent ==> c'.sender.out[0].syn)
  {
  }

  /** A segment numbered just below what the receiver waits for. */
  predicate Probes(r: R.Receiver, seg: TCPSegment) {
    r.ackno.Some? && (seg.header.seqno + 1) % TWO32 == r.ackno.value
  }

  /** From `c` to `c'` a segment was answered as it should be. */
  predicate Answered(c: Conn, c': Conn, seg: TCPSegment) {
    && c.sent <= c'.sent
    && (News(c, c') != [] <==>
          seg.header.syn || seg.header.fin || seg.payload != [] || Probes(c'.receiver, seg))
    && (forall p :: p in News(c, c') ==> Speaks(p, c'.receiver))
    && (seg.header.syn && !seg.header.ack && !c.sender.synSent && News(c, c') != [] ==> News(c, c')[0].src.syn)
  }

  lemma AnswerSent(c: Conn, seg: TCPSegment)
    requires c.sender.out == []
    ensures Answered(c, SendAll(Answer(c, seg)), seg)
  {
    AnswerOut(c, seg);
    SentIsStamped(Answer(c, seg));
  }

  lemma ReceiveIsAnswer(c: Conn, seg: TCPSegment)
    requires c.active && !seg.header.rst
    ensures SegmentReceived(c, seg) == SendAll(Answer(Heard(c, seg), seg))
  {
  }

  lemma AnsweredFrom(c: Conn, c1: Conn, c': Conn, seg: TCPSegment)
    requires Answered(c1, c', seg) && c1.sent == c.sent && c1.sender.synSent == c.sender.synSent
    ensures Answered(c, c', seg)
  {
  }

  lemma ReceiveAnswers(c: Conn, seg: TCPSegment)
    requires c.active && !seg.header.rst && c.sender.out == []
    ensures Answered(c, SegmentReceived(c, seg), seg)
  {
    ReceiveIsAnswer(c, seg);
    HeardSaysNothing(c, seg);
    AnswerSent(Heard(c, seg), seg);
    AnsweredFrom(c, Heard(c, seg), SegmentReceived(c, seg), seg);
  }

  /** Every segment that occupies sequence numbers is answered, a keep-alive too, and nothing else; the
      answer tells the receiver's news, and a first bare SYN is answered with a SYN. */
  lemma EverySegmentIsAnswered(e: Endpoint, seg: TCPSegment)
    requires ER.Reachable(e) && e.c.active && !seg.header.rst
    ensures Answered(e.c, SegmentReceived(e.c, seg), seg)
  {
    ER.ReachableOk(e);
    ReceiveAnswers(e.c, seg);
  }

  lemma FillAppends(s: S.Sender)
    requires S.Inv(s)
    ensures s.out <= S.FillWindow(s).out && S.FillWindow(s).stream.error == s.stream.error
    ensures S.FillWindow(s).absAckno == s.absAckno && S.FillWindow(s).isn == s.isn
  {
    S.FillWindowRespectsWindow(s);
    S.FillWindowKeeps(s);
    FillError(s);
  }

  /** What waited goes out first, if anything is sent. */
  lemma SendsFirst(c: Conn)
    requires c.sender.out != []
    ensures c.sent < SendAll(c).sent && News(c, SendAll(c))[0] == ToPacket(c, c.sender.out[0])
  {
    SentIsStamped(c);
  }

  lemma TickTailSends(c: Conn)
    requires S.Inv(c.sender) && c.sender.out != []
    ensures var c' := TickTail(c);
            c.sent < c'.sent && News(c, c')[0] == ToPacket(c, c.sender.out[0]) && Failed(c') == Failed(c)
            && c'.sender.absAckno == c.sender.absAckno
  {
    FillAppends(c.sender);
    SendsFirst(if c.sender.synSent then Fill(c) else c);
  }

  lemma CloseSaysNothing(c: Conn)
    ensures CloseIfDone(c).sent == c.sent && CloseIfDone(c).sender == c.sender
  {
  }

  lemma GiveUpSends(c: Conn)
    requires S.Inv(c.sender) && c.sender.out != []
    ensures var c' := UncleanShutdown(c, true);
            c.sent < c'.sent && News(c, c')[0] == ToPacket(c, c.sender.out[0].(rst := true)) && Failed(c')
  {
    FillAppends(c.sender);
    SendsFirst(MarkRst(Fill(c)));
  }

  /** From `c` to `c'` the oldest outstanding segment was sent again, as the first thing, or, after
      eight attempts, the connection has failed and said so with a RST. */
  predicate Resent(c: Conn, c': Conn) {
    && c.sent < c'.sent
    && if c.sender.retx == MAX_RETX_ATTEMPTS && c.sender.windowSize > 0
       then Failed(c') && c.sender.backup != [] && News(c, c')[0] == ToPacket(c, c.sender.backup[0].(rst := true))
       else !Failed(c') && c.sender.backup != [] && News(c, c')[0] == ToPacket(c, c.sender.backup[0])
            && c'.sender.absAckno == c.sender.absAckno
  }

  lemma FinishResends(c: Conn, c1: Conn)
    requires S.Inv(c1.sender) && c.sender.backup != [] && c1.sender.out == [c.sender.backup[0]]
    requires !Failed(c1) && c1.sent == c.sent && c.sender.retx <= MAX_RETX_ATTEMPTS
    requires c1.receiver == c.receiver && c1.sender.isn == c.sender.isn && c1.sender.absAckno == c.sender.absAckno
    requires c1.sender.retx == c.sender.retx + (if c.sender.windowSize > 0 then 1 else 0)
    ensures Resent(c, FinishTick(c1))
  {
    if c1.sender.retx > MAX_RETX_ATTEMPTS {
      GiveUpSends(c1);
    } else {
      TickTailSends(c1);
      CloseSaysNothing(TickTail(c1));
    }
  }

  lemma ExpiredSender(s: S.Sender, ms: nat)
    requires S.Inv(s) && s.backup != [] && s.out == []
    requires s.timer.rto <= To32(s.timer.passed + ms)
    ensures var s' := S.TickSender(s, ms);
      && S.Inv(s') && s'.out == [s.backup[0]] && s'.stream == s.stream && s'.isn == s.isn && s'.absAckno == s.absAckno
      && s'.retx == s.retx + (if s.windowSize > 0 then 1 else 0)
  {
    S.TickKeeps(s, ms);
  }

  /** The wait for the oldest outstanding segment is over, by a clock of 32 bits. */
  predicate TimesOut(c: Conn, ms: nat) {
    c.sender.backup != [] && c.sender.timer.rto <= To32(c.sender.timer.passed + ms)
  }

  lemma TickResends(c: Conn, ms: nat)
    requires S.Inv(c.sender) && c.sender.out == [] && TimesOut(c, ms)
    requires !Failed(c) && c.sender.retx <= MAX_RETX_ATTEMPTS
    ensures Resent(c, Connections.Tick(c, ms))
  {
    ExpiredSender(c.sender, ms);
    FinishResends(c, AfterSenderTick(c, ms));
  }

  lemma LiveSender(e: Endpoint)
    requires ER.Reachable(e) && e.c.active
    ensures S.Inv(e.c.sender) && e.c.sender.out == [] && !Failed(e.c) && e.c.sender.retx <= MAX_RETX_ATTEMPTS
  {
    ER.ReachableOk(e);
  }

  /** The tick that ends the wait of a live connection. */
  lemma ExpiryResends(e: Endpoint, ms: nat)
    requires ER.Reachable(e) && e.c.active && TimesOut(e.c, ms)
    ensures Resent(e.c, Connections.Tick(e.c, ms))
  {
    LiveSender(e);
    TickResends(e.c, ms);
  }

  /** The time until the timer goes off. */
  function TimeToExpiry(c: Conn): nat {
    var t := c.sender.timer;
    if t.passed >= t.rto then 0 else t.rto - t.passed
  }

  /** A connection that has closed cleanly but still has something in its retransmission queue: time
      makes it send that again. */
  lemma StuckQueueSpeaksAgain(e: Endpoint)
    requires Endpoints.Ok(e) && ER.CleanlyClosed(e.c) && e.c.sender.backup != []
    ensures e.c.sent < Endpoints.Step(e, TickCall(TimeToExpiry(e.c))).c.sent
  {
    TickResends(e.c, TimeToExpiry(e.c));
  }

  /** So a clean close is final exactly when the retransmission queue is empty. */
  lemma CleanCloseFinalIff(e: Endpoint)
    requires ER.Reachable(e) && ER.CleanlyClosed(e.c)
    ensures (forall call :: Enabled(e.c, call) ==> ER.StaysQuiet(e, call)) <==> e.c.sender.backup == []
    ensures e.c.sender.nextSeqno < TWO32 ==> e.c.sender.backup == []
  {
    ER.ReachableOk(e);
    if e.c.sender.nextSeqno < TWO32 { S.TightQueue(e.c.sender); }
    if e.c.sender.backup == [] {
      forall call | Enabled(e.c, call) ensures ER.StaysQuiet(e, call) { ER.CleanCloseIsFinal(e, call); }
    } else {
      StuckQueueSpeaksAgain(e);
      assert !ER.StaysQuiet(e, TickCall(TimeToExpiry(e.c)));
    }
  }

  // What the calls of the owner send

  /** Nothing is left that could be sent now: the stream failed, the FIN is out, the window is full, or there is
      nothing to send. */
  predicate NothingLeft(s: S.Sender) {
    || s.stream.error || s.finSent || s.nextSeqno >= s.absAckno + Max(s.windowSize, 1)
    || (Buffer(s.stream) == [] && !s.stream.inputEnd)
  }

  predicate Fills(call: Call) { call.ConnectCall? || call.WriteCall? || call.EndCall? }

  /** What a call that fills the window hands to the stream. */
  function Given(c: Conn, call: Call): Stream {
    var s := c.sender.stream;
    match call
    case WriteCall(data) => ByteStreams.Write(s, data)
    case EndCall => EndInput(s)
    case _ => s
  }

  lemma FillingSends(c: Conn, s: S.Sender)
    requires S.Inv(s) && s.out == []
    ensures var c' := SendAll(Fill(c.(sender := s)));
      && c'.sender.synSent && c.sent <= c'.sent
      && (if !s.synSent then c'.sent == c.sent + [ToPacket(c.(sender := s), S.SYN_SEGMENT)]
          else NothingLeft(c'.sender))
  {
    S.FillWindowRespectsWindow(s);
    S.FillWindowKeeps(s);
    FillError(s);
    SentIsStamped(Fill(c.(sender := s)));
  }

  /** The first `connect`, `write` or `end_input_stream` sends the SYN; after any later one nothing is left to send. */
  lemma OwnersCallsSend(e: Endpoint, call: Call)
    requires ER.Reachable(e) && Enabled(e.c, call) && Fills(call)
    ensures var c, c' := e.c, Endpoints.Step(e, call).c;
      && c'.sender.synSent && c'.sender.stream.log == Given(c, call).log && c.sent <= c'.sent
      && c'.sender.stream.inputEnd == (call.EndCall? || c.sender.stream.inputEnd)
      && (if c.sender.synSent then NothingLeft(c'.sender)
          else |c'.sent| == |c.sent| + 1 && News(c, c')[0].src == S.SYN_SEGMENT)
  {
    ER.ReachableOk(e);
    var s := e.c.sender.(stream := Given(e.c, call));
    S.OutsideKeeps(e.c.sender, s);
    FillingSends(e.c, s);
    FillStream(s);
  }

  lemma FillStream(s: S.Sender)
    ensures S.FillWindow(s).stream == s.stream.(bytesRead := S.FillWindow(s).stream.bytesRead)
  {
    if s.synSent { FillLoopStream(s, S.FillSize(s)); }
  }

  lemma {:induction false} FillLoopStream(s: S.Sender, fill: nat)
    ensures S.FillLoop(s, fill).stream == s.stream.(bytesRead := S.FillLoop(s, fill).stream.bytesRead)
    decreases fill
  {
    if fill == 0 || s.finSent || !s.synSent {
    } else {
      var g := S.NextSegment(s, fill);
      if S.Len(g) > 0 { FillLoopStream(S.Emit(S.AfterRead(s, fill), g), fill - S.Len(g)); }
    }
  }

  lemma TailSends(c: Conn)
    requires S.Inv(c.sender) && c.sender.synSent && !Failed(c)
    ensures NothingLeft(CloseIfDone(TickTail(c)).sender)
  {
    S.FillWindowRespectsWindow(c.sender);
    CloseSaysNothing(TickTail(c));
  }

  /** So does a tick, once the SYN is out. */
  lemma TickSends(e: Endpoint, ms: nat)
    requires ER.Reachable(e) && e.c.active && e.c.sender.synSent
    ensures var c' := Endpoints.Step(e, TickCall(ms)).c;
            Failed(c') || NothingLeft(c'.sender)
  {
    ER.ReachableOk(e);
    SenderTick(e, ms);
    TailSends(AfterSenderTick(e.c, ms));
  }

  // Lingering

  /** An arrival or a tick that finds the inbound stream read to its end before the FIN was sent. */
  predicate Waives(e: Endpoint, call: Call) {
    match call
    case ReceiveCall(seg) =>
      && e.c.active && !seg.header.rst && !e.c.sender.finSent
      && Eof(R.Output(R.SegmentReceived(e.c.receiver, seg)))
    case TickCall(ms) =>
      && Eof(R.Output(e.c.receiver)) && !Endpoints.Step(e, call).c.sender.finSent
      && S.TickSender(e.c.sender, ms).retx <= MAX_RETX_ATTEMPTS
    case _ => false
  }

  predicate WaivedIn(e: Endpoint, calls: seq<Call>)
    decreases |calls|
  {
    calls != [] && (Waives(e, calls[0]) || WaivedIn(Endpoints.Step(e, calls[0]), calls[1..]))
  }

  lemma SegmentWaivesIff(e: Endpoint, seg: TCPSegment)
    requires e.c.sender.out == []
    ensures var c' := SegmentReceived(e.c, seg);
            !c'.lingerAfterStreamsFinish <==> !e.c.lingerAfterStreamsFinish || Waives(e, ReceiveCall(seg))
  {
    if e.c.active && !seg.header.rst {
      ReceiveIsAnswer(e.c, seg);
      HeardSaysNothing(e.c, seg);
      AnswerOut(Heard(e.c, seg), seg);
    }
  }

  lemma CloseWaivesIff(c: Conn)
    ensures CloseIfDone(c).lingerAfterStreamsFinish
        <==> c.lingerAfterStreamsFinish && (!Eof(R.Output(c.receiver)) || c.sender.finSent)
    ensures CloseIfDone(c).sender == c.sender
  {
  }

  lemma TickWaivesIff(e: Endpoint, ms: nat)
    ensures var c' := Connections.Tick(e.c, ms);
            !c'.lingerAfterStreamsFinish <==> !e.c.lingerAfterStreamsFinish || Waives(e, TickCall(ms))
  {
    var c1 := AfterSenderTick(e.c, ms);
    if c1.sender.retx <= MAX_RETX_ATTEMPTS { CloseWaivesIff(TickTail(c1)); }
  }

  lemma StepWaivesIff(e: Endpoint, call: Call)
    requires e.c.sender.out == []
    ensures var c' := Endpoints.Step(e, call).c;
            !c'.lingerAfterStreamsFinish <==> !e.c.lingerAfterStreamsFinish || Waives(e, call)
  {
    match call
    case ReceiveCall(seg) => SegmentWaivesIff(e, seg);
    case TickCall(ms) => TickWaivesIff(e, ms);
    case _ =>
  }

  lemma {:induction false} RunWaivesIff(e: Endpoint, calls: seq<Call>)
    requires Endpoints.Ok(e) && RunEnabled(e, calls)
    ensures var c' := Endpoints.Run(e, calls).c;
            !c'.lingerAfterStreamsFinish <==> !e.c.lingerAfterStreamsFinish || WaivedIn(e, calls)
    decreases |calls|
  {
    if calls == [] {
      assert Endpoints.Run(e, calls) == e;
    } else {
      StepWaivesIff(e, calls[0]);
      StepKeeps(e, calls[0]);
      RunWaivesIff(Endpoints.Step(e, calls[0]), calls[1..]);
    }
  }

  /** A connection does without lingering exactly when some arrival or tick of its life found the inbound
      stream read to its end before the FIN was sent. */
  lemma LingerWaivedIff(cfg: Config, calls: seq<Call>)
    requires RunEnabled(Start(cfg), calls)
    ensures !Endpoints.Run(Start(cfg), calls).c.lingerAfterStreamsFinish <==> WaivedIn(Start(cfg), calls)
  {
    StartOk(cfg);
    RunWaivesIff(Start(cfg), calls);
  }

  /** The end of a tick closes a connection exactly when both streams are over, and lingering is waived or over. */
  lemma ClosesWhenDone(c: Conn)
    requires S.Inv(c.sender) && c.active
    ensures var c' := CloseIfDone(c);
      && Closed(c') == Closed(c)
      && (!c'.active <==> Closed(c) && (!c'.lingerAfterStreamsFinish || c.timeSinceLastSegRecv >= 10 * c.rtTimeout))
  {
    TcpStates.AllSentIffFin(c.sender);
  }

  lemma TickCloses(e: Endpoint, ms: nat)
    requires Endpoints.Ok(e) && e.c.active && !Failed(Connections.Tick(e.c, ms))
    ensures var c' := Connections.Tick(e.c, ms);
            !c'.active <==>
              Closed(c') && (!c'.lingerAfterStreamsFinish || c'.timeSinceLastSegRecv >= 10 * e.c.rtTimeout)
  {
    var c1 := AfterSenderTick(e.c, ms);
    SenderTick(e, ms);
    TailSender(Clock(Clocks(e, ms)).(s := c1.sender), c1, true);
    ClosesWhenDone(TickTail(c1));
  }

  lemma ClosingTick(e: Endpoint, ms: nat)
    requires Endpoints.Ok(e) && ER.CountsSilence(e) && e.c.active && !Failed(Endpoints.Step(e, TickCall(ms)).c)
    ensures var e' := Endpoints.Step(e, TickCall(ms));
            !e'.c.active <==>
              Closed(e'.c) && (!e'.c.lingerAfterStreamsFinish || e'.lastRecv + 10 * e.c.rtTimeout <= e'.now)
  {
    TickCloses(e, ms);
    ER.StepCountsSilence(e, TickCall(ms));
  }

  lemma ExtendedRunWaives(cfg: Config, calls: seq<Call>, call: Call, e: Endpoint)
    requires RunEnabled(Start(cfg), calls) && e == Endpoints.Run(Start(cfg), calls) && Enabled(e.c, call)
    ensures !Endpoints.Step(e, call).c.lingerAfterStreamsFinish <==> WaivedIn(Start(cfg), calls + [call])
  {
    ER.RunExtends(Start(cfg), calls, call);
    LingerWaivedIff(cfg, calls + [call]);
  }

  /** A tick that does not fail a live connection closes it if and only if both streams are over then, and some
      arrival or tick found the inbound stream at its end before the FIN was sent, or it has been silent for
      ten timeouts. */
  lemma ClosesAfterLingering(cfg: Config, calls: seq<Call>, ms: nat, e: Endpoint)
    requires RunEnabled(Start(cfg), calls) && e == Endpoints.Run(Start(cfg), calls) && e.c.active
    requires !Failed(Endpoints.Step(e, TickCall(ms)).c)
    ensures var e' := Endpoints.Step(e, TickCall(ms));
            !e'.c.active <==>
              && Closed(e'.c)
              && (WaivedIn(Start(cfg), calls + [TickCall(ms)]) || e'.lastRecv + 10 * e.c.rtTimeout <= e'.now)
  {
    assert ER.Reachable(e);
    ER.ReachableOk(e);
    ClosingTick(e, ms);
    ExtendedRunWaives(cfg, calls, TickCall(ms), e);
  }
}
