/** How a connection ends, over every run and against any peer: by a RST, by giving up, or by closing. */
module EndpointEnds {
  import opened Words
  import opened Connections
  import opened Endpoints
  import opened TcpStates
  import opened Segments
  import opened EndpointReplies
  import ER = EndpointRuns
  import S = Sending
  import SR = SendingRuns
  import SendingPieces
  import opened ByteStreams
  import opened Channels
  import R = Receiving

  /** A RST fails a live connection at once: both streams have the error, it is no longer active, its state is
      the source's RESET, and it says nothing more; what the segment brings is still taken in. */
  lemma RstResets(e: Endpoint, seg: TCPSegment)
    requires ER.Reachable(e) && e.c.active && seg.header.rst
    ensures var c' := Endpoints.Step(e, ReceiveCall(seg)).c;
      && Of(c') == RESET && !c'.active && c'.sender.stream.error && R.Output(c'.receiver).error
      && c'.sent == e.c.sent && R.Output(c'.receiver).log == R.Output(R.SegmentReceived(e.c.receiver, seg)).log
  {
    ReceiverGrows(e.c.receiver, seg);
  }

  /** The other way to fail: a ninth expiry in a row. */
  predicate GivesUp(c: Conn, ms: nat) {
    TimesOut(c, ms) && c.sender.retx == 8 && c.sender.windowSize > 0
  }

  predicate Fails(c: Conn, call: Call) {
    match call
    case ReceiveCall(seg) => seg.header.rst
    case TickCall(ms) => GivesUp(c, ms)
    case _ => false
  }

  lemma TickCounts(s: S.Sender, ms: nat)
    requires S.Inv(s)
    ensures S.TickSender(s, ms).retx
         == s.retx + (if s.backup != [] && s.timer.rto <= To32(s.timer.passed + ms) && s.windowSize > 0 then 1 else 0)
  {
  }

  lemma FinishFailsIff(c: Conn)
    requires !Failed(c)
    ensures Failed(FinishTick(c)) <==> c.sender.retx > 8
  {
    FillError(c.sender);
  }

  lemma TickFailsIff(e: Endpoint, ms: nat)
    requires Endpoints.Ok(e) && e.c.active
    ensures Failed(Connections.Tick(e.c, ms)) <==> GivesUp(e.c, ms)
  {
    TickCounts(e.c.sender, ms);
    assert !Failed(AfterSenderTick(e.c, ms)) by { SenderTick(e, ms); }
    FinishFailsIff(AfterSenderTick(e.c, ms));
  }

  lemma OtherCallsKeepLife(e: Endpoint, call: Call)
    requires Endpoints.Ok(e) && e.c.active && !call.TickCall? && !Fails(e.c, call)
    ensures Apply(e.c, call).active && !Failed(Apply(e.c, call))
  {
    match call
    case ReceiveCall(seg) =>
      ReceiveSender(Clock(e), e.c, seg);
      AnswerIsRun(Heard(e.c, seg), seg);
    case WriteCall(data) => FillError(e.c.sender.(stream := ByteStreams.Write(e.c.sender.stream, data)));
    case EndCall => FillError(e.c.sender.(stream := ByteStreams.EndInput(e.c.sender.stream)));
    case ConnectCall => FillError(e.c.sender);
    case ReadCall(_) =>
  }

  /** A live connection fails if and only if a RST arrives, or its timer goes off when it has tried eight times
      and the peer's window is open. */
  lemma FailsIff(e: Endpoint, call: Call)
    requires ER.Reachable(e) && e.c.active
    ensures Failed(Endpoints.Step(e, call).c) <==> Fails(e.c, call)
  {
    ER.ReachableOk(e);
    match call
    case TickCall(ms) => TickFailsIff(e, ms);
    case ReceiveCall(seg) => if seg.header.rst { RstResets(e, seg); } else { OtherCallsKeepLife(e, call); }
    case _ => OtherCallsKeepLife(e, call);
  }

  /** Failed and in the source's state RESET are the same. */
  lemma FailedIsReset(e: Endpoint)
    requires ER.Reachable(e)
    ensures Failed(e.c) <==> Of(e.c) == RESET
  {
    ER.ReachableOk(e);
  }

  /** The last call of a life, over every run: a live connection becomes inactive if and only if it fails, or a
      tick finds both streams over, and lingering waived or ten timeouts of silence. */
  lemma EndsIff(cfg: Config, calls: seq<Call>, call: Call, e: Endpoint)
    requires RunEnabled(Start(cfg), calls) && e == Endpoints.Run(Start(cfg), calls) && e.c.active
    ensures var e' := Endpoints.Step(e, call);
            !e'.c.active <==>
              || Fails(e.c, call)
              || (&& call.TickCall? && Closed(e'.c)
                  && (WaivedIn(Start(cfg), calls + [call]) || e'.lastRecv + 10 * e.c.rtTimeout <= e'.now))
  {
    assert ER.Reachable(e);
    ER.ReachableOk(e);
    if call.TickCall? {
      TickFailsIff(e, call.ms);
      TickKeeps(e, call.ms);
      if !GivesUp(e.c, call.ms) { ClosesAfterLingering(cfg, calls, call.ms, e); }
    } else if Fails(e.c, call) {
      RstResets(e, call.seg);
    } else {
      OtherCallsKeepLife(e, call);
    }
  }

  /** What arrives at a connection that is no longer active is lost on it. */
  lemma InactiveIgnores(e: Endpoint, seg: TCPSegment)
    requires !e.c.active
    ensures Endpoints.Step(e, ReceiveCall(seg)) == e
  {
  }

  // Giving up

  /** Only the first of `ps` is a RST. */
  predicate RstFirst(ps: seq<Packet>) {
    ps != [] && forall i :: 0 <= i < |ps| ==> (ps[i].wire.header.rst <==> i == 0)
  }

  /** An unclean shutdown from any state, even with nothing to send: what is sent starts with a RST, the rest is what
      waited or fits the window, and the connection has failed. */
  lemma ShutdownSaysRst(c: Conn)
    ensures var c', s := UncleanShutdown(c, true), S.FillWindow(c.sender);
      && c.sent < c'.sent && News(c, c')[0].wire.header.rst && !c'.active
      && c'.sender.stream.error && R.Output(c'.receiver).error
      && (if s.out == []
          then |News(c, c')| == 1 && News(c, c')[0].src == S.OutSeg(s.nextSeqno, false, false, true, [])
          else |News(c, c')| == |s.out| && News(c, c')[0].src == s.out[0].(rst := true)
               && forall i :: 0 < i < |s.out| ==> News(c, c')[i].src == s.out[i])
  {
    SentIsStamped(MarkRst(Fill(c)));
  }

  lemma MarkedOut(c: Conn)
    requires c.sender.out != [] && forall g :: g in c.sender.out ==> !g.rst
    ensures RstFirst(News(c, SendAll(MarkRst(c))))
  {
    SentIsStamped(MarkRst(c));
  }

  lemma GiveUpOut(c: Conn)
    requires S.Inv(c.sender) && c.sender.synSent && !Failed(c) && c.sender.out != []
    requires forall g :: g in c.sender.out ==> !g.rst
    ensures var c' := UncleanShutdown(c, true);
      && c.sent <= c'.sent && RstFirst(News(c, c'))
      && NothingLeft(c'.sender.(stream := c'.sender.stream.(error := false)))
  {
    FillPlain(c.sender);
    S.FillWindowRespectsWindow(c.sender);
    FillError(c.sender);
    MarkedOut(Fill(c));
  }

  lemma FillPlain(s: S.Sender)
    requires S.Inv(s) && s.synSent && forall g :: g in s.out ==> !g.rst
    ensures s.out <= S.FillWindow(s).out && forall g :: g in S.FillWindow(s).out ==> !g.rst
  {
    SendingPieces.FillsExactly(s);
    if !s.finSent { PiecesPlain(s.nextSeqno, Buffer(s.stream)[..SendingPieces.Fitting(s, SendingPieces.Room(s))],
                                SendingPieces.FinFits(s, SendingPieces.Room(s))); }
  }

  lemma {:induction false} PiecesPlain(abs: nat, data: seq<byte>, fin: bool)
    ensures forall g :: g in SendingPieces.Pieces(abs, data, fin) ==> !g.rst
    decreases |data|
  {
    if |data| > 1000 {
      PiecesPlain(abs + 1000, data[1000..], fin);
    } else {
    }
  }

  lemma TickGivesUp(c: Conn, ms: nat)
    requires S.Inv(c.sender) && c.sender.out == [] && !Failed(c) && GivesUp(c, ms)
    ensures var c' := Connections.Tick(c, ms);
      && c.sent <= c'.sent && RstFirst(News(c, c'))
      && NothingLeft(c'.sender.(stream := c'.sender.stream.(error := false)))
  {
    ExpiredSender(c.sender, ms);
    GiveUpOut(AfterSenderTick(c, ms));
  }

  /** A connection that gives up sends what the window allows, and only the first segment, the one that got no
      answer, is a RST. */
  lemma GiveUpSays(e: Endpoint, ms: nat)
    requires ER.Reachable(e) && e.c.active && GivesUp(e.c, ms)
    ensures var c' := Connections.Tick(e.c, ms);
      && e.c.sent <= c'.sent && RstFirst(News(e.c, c')) && News(e.c, c')[0].src.abs == e.c.sender.backup[0].abs
      && NothingLeft(c'.sender.(stream := c'.sender.stream.(error := false)))
  {
    LiveSender(e);
    TickGivesUp(e.c, ms);
    TickResends(e.c, ms);
  }

  // The configuration

  /** The connection has what it was configured with. */
  predicate Configured(c: Conn, cfg: Config) {
    && R.Output(c.receiver).capacity == cfg.recvCapacity && c.sender.stream.capacity == cfg.sendCapacity
    && c.sender.isn == cfg.isn && c.sender.initialRto == cfg.rtTimeout == c.rtTimeout
  }

  lemma SenderConfigured(s: S.Sender, ev: SR.Event)
    ensures SR.Step(s, ev).stream.capacity == s.stream.capacity
  {
    FillStream(s);
  }

  lemma {:induction false} QuietConfigured(s: S.Sender, es: seq<SR.Event>)
    ensures SR.Run(s, es).stream.capacity == s.stream.capacity
    decreases |es|
  {
    if es == [] {
    } else {
      SenderConfigured(s, es[0]);
      QuietConfigured(SR.Step(s, es[0]), es[1..]);
    }
  }

  lemma ReceiveConfigured(c: Conn, seg: TCPSegment)
    ensures SegmentReceived(c, seg).sender.stream.capacity == c.sender.stream.capacity
  {
    if c.active && !seg.header.rst {
      var c1 := Heard(c, seg);
      ReceiveIsAnswer(c, seg);
      AnswerIsRun(c1, seg);
      QuietConfigured(c1.sender, AnswerEvents(c1, seg));
    }
  }

  lemma ShutdownConfigured(c: Conn)
    ensures UncleanShutdown(c, true).sender.stream.capacity == c.sender.stream.capacity
  {
    FillStream(c.sender);
    assert MarkRst(Fill(c)).sender.stream == Fill(c).sender.stream;
  }

  lemma TickConfigured(c: Conn, ms: nat)
    ensures Connections.Tick(c, ms).sender.stream.capacity == c.sender.stream.capacity
  {
    var c1 := AfterSenderTick(c, ms);
    assert c1.sender.stream == c.sender.stream;
    if c1.sender.retx > MAX_RETX_ATTEMPTS {
      ShutdownConfigured(c1);
    } else {
      FillStream(c1.sender);
      CloseSaysNothing(TickTail(c1));
    }
  }

  lemma StepConfigured(e: Endpoint, call: Call, cfg: Config)
    requires Endpoints.Ok(e) && Configured(e.c, cfg) && Enabled(e.c, call)
    ensures Configured(Endpoints.Step(e, call).c, cfg)
  {
    assert Endpoints.Later(e.c, Apply(e.c, call)) && FlagsOk(Apply(e.c, call)) by { StepKeeps(e, call); }
    match call
    case ReceiveCall(seg) => ReceiveConfigured(e.c, seg);
    case TickCall(ms) => TickConfigured(e.c, ms);
    case ReadCall(_) =>
    case _ => FillStream(e.c.sender.(stream := Given(e.c, call)));
  }

  lemma {:induction false} RunConfigured(e: Endpoint, calls: seq<Call>, cfg: Config)
    requires Endpoints.Ok(e) && RunEnabled(e, calls) && Configured(e.c, cfg)
    ensures Configured(Endpoints.Run(e, calls).c, cfg)
    decreases |calls|
  {
    if calls == [] {
    } else {
      StepKeeps(e, calls[0]);
      StepConfigured(e, calls[0], cfg);
      RunConfigured(Endpoints.Step(e, calls[0]), calls[1..], cfg);
    }
  }

  /** After every run both buffers have the size, the numbers the start, and the timer the initial timeout that
      the connection was configured with. */
  lemma ConfigurationStays(cfg: Config, calls: seq<Call>)
    requires RunEnabled(Start(cfg), calls)
    ensures Configured(Endpoints.Run(Start(cfg), calls).c, cfg)
  {
    StartOk(cfg);
    RunConfigured(Start(cfg), calls, cfg);
  }

  /** A tick never opens a connection: before the SYN it sends nothing. */
  lemma TickNeverConnects(e: Endpoint, ms: nat)
    requires ER.Reachable(e) && e.c.active && !e.c.sender.synSent
    ensures var c' := Endpoints.Step(e, TickCall(ms)).c;
            c'.sent == e.c.sent && !c'.sender.synSent && c'.active
  {
    ER.ReachableOk(e);
    TickCounts(e.c.sender, ms);
  }

  // The state names, by what was sent and what was acknowledged

  /** The name of the outbound side, unless the connection has failed. */
  lemma SenderNames(e: Endpoint)
    requires ER.Reachable(e) && !Failed(e.c)
    ensures var s, name := e.c.sender, OfSender(e.c.sender);
      && (name == SenderClosed <==> !s.synSent)
      && (name == SynSent <==> s.synSent && s.absAckno == 0)
      && (name == SynAcked <==> s.absAckno > 0 && !s.finSent)
      && (name == FinSent <==> s.finSent && 0 < s.absAckno < s.nextSeqno)
      && (name == FinAcked <==> s.finSent && s.absAckno == s.nextSeqno)
  {
    ER.ReachableOk(e);
    AllSentIffFin(e.c.sender);
  }

  /** The name of the inbound side. */
  lemma ReceiverNames(e: Endpoint)
    requires ER.Reachable(e)
    ensures var r, name := e.c.receiver, OfReceiver(e.c.receiver);
      && (name == ReceiverError <==> Failed(e.c))
      && (name == Listen <==> !Failed(e.c) && r.isn.None?)
      && (name == SynRecv <==> !Failed(e.c) && r.isn.Some? && !R.Output(r).inputEnd)
      && (name == FinRecv <==> !Failed(e.c) && R.Output(r).inputEnd)
  {
    ER.ReachableOk(e);
  }
}
