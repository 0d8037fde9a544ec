/** The lifecycle of one endpoint, over every run and against any peer. */
module EndpointRuns {
  import opened Words
  import opened ByteStreams
  import opened Connections
  import opened Endpoints
  import opened TcpStates
  import S = Sending
  import R = Receiving
  import SR = SendingRuns
  import opened Segments

  lemma {:induction false} RunKeeps(e: Endpoint, calls: seq<Call>)
    requires Endpoints.Ok(e) && RunEnabled(e, calls)
    ensures Endpoints.Ok(Endpoints.Run(e, calls)) && Endpoints.Later(e.c, Endpoints.Run(e, calls).c)
    decreases |calls|
  {
    if calls == [] {
    } else {
      var e1 := Endpoints.Step(e, calls[0]);
      StepKeeps(e, calls[0]);
      RunKeeps(e1, calls[1..]);
      LaterTrans(e.c.sender, e1.c.sender, Endpoints.Run(e1, calls[1..]).c.sender);
    }
  }

  /** The silence an endpoint counts is the time since the last segment it took in. */
  predicate CountsSilence(e: Endpoint) {
    e.lastRecv <= e.now && e.c.timeSinceLastSegRecv == e.now - e.lastRecv
  }

  lemma ReceiveCountsSilence(c: Conn, seg: TCPSegment)
    ensures SegmentReceived(c, seg).timeSinceLastSegRecv == if c.active then 0 else c.timeSinceLastSegRecv
  {
  }

  lemma StepCountsSilence(e: Endpoint, call: Call)
    requires CountsSilence(e)
    ensures CountsSilence(Endpoints.Step(e, call))
  {
    match call
    case ConnectCall =>
    case WriteCall(_) =>
    case EndCall =>
    case TickCall(ms) =>
    case ReadCall(len) =>
    case ReceiveCall(seg) => ReceiveCountsSilence(e.c, seg);
  }

  lemma {:induction false} RunCountsSilence(e: Endpoint, calls: seq<Call>)
    requires CountsSilence(e)
    ensures CountsSilence(Endpoints.Run(e, calls))
    decreases |calls|
  {
    if calls == [] {
    } else {
      StepCountsSilence(e, calls[0]);
      RunCountsSilence(Endpoints.Step(e, calls[0]), calls[1..]);
    }
  }

  /** `e` is an endpoint after some run from a fresh connection: any calls, any arriving segments. */
  ghost predicate Reachable(e: Endpoint) {
    exists cfg, calls :: RunEnabled(Start(cfg), calls) && e == Endpoints.Run(Start(cfg), calls)
  }

  lemma ReachableOk(e: Endpoint)
    requires Reachable(e)
    ensures Endpoints.Ok(e) && CountsSilence(e)
  {
    var cfg, calls :| RunEnabled(Start(cfg), calls) && e == Endpoints.Run(Start(cfg), calls);
    StartOk(cfg);
    RunKeeps(Start(cfg), calls);
    RunCountsSilence(Start(cfg), calls);
  }

  lemma {:induction false} RunExtends(e: Endpoint, calls: seq<Call>, call: Call)
    requires RunEnabled(e, calls) && Enabled(Endpoints.Run(e, calls).c, call)
    ensures RunEnabled(e, calls + [call])
    ensures Endpoints.Run(e, calls + [call]) == Endpoints.Step(Endpoints.Run(e, calls), call)
    decreases |calls|
  {
    if calls == [] {
      assert calls + [call] == [call];
      var e1 := Endpoints.Step(e, call);
      assert Endpoints.Run(e1, []) == e1;
    } else {
      assert (calls + [call])[1..] == calls[1..] + [call];
      RunExtends(Endpoints.Step(e, calls[0]), calls[1..], call);
    }
  }

  /** Any further call leads to a reachable endpoint again. */
  lemma ReachableStep(e: Endpoint, call: Call)
    requires Reachable(e) && Enabled(e.c, call)
    ensures Reachable(Endpoints.Step(e, call))
  {
    var cfg, calls :| RunEnabled(Start(cfg), calls) && e == Endpoints.Run(Start(cfg), calls);
    RunExtends(Start(cfg), calls, call);
  }

  /** States only move forward in the order of RFC 793, whatever arrives. */
  lemma StatesMoveForward(e: Endpoint, calls: seq<Call>)
    requires Reachable(e) && RunEnabled(e, calls)
    ensures var c, c' := e.c, Endpoints.Run(e, calls).c;
      && SenderRank(OfSender(c.sender)) <= SenderRank(OfSender(c'.sender))
      && ReceiverRank(OfReceiver(c.receiver)) <= ReceiverRank(OfReceiver(c'.receiver))
  {
    ReachableOk(e);
    RunKeeps(e, calls);
    SenderForward(e.c.sender, Endpoints.Run(e, calls).c.sender);
  }

  /** An endpoint that is no longer active is in the source's CLOSED or RESET state, and CLOSED means
      that the inbound stream ended and the outbound one was acknowledged to its end. */
  lemma InactiveIsClosedOrReset(e: Endpoint)
    requires Reachable(e) && !e.c.active
    ensures Of(e.c) == CLOSED || Of(e.c) == RESET
    ensures Of(e.c) == CLOSED ==>
              R.Output(e.c.receiver).inputEnd && e.c.sender.finSent && S.BytesInFlight(e.c.sender) == 0
  {
    ReachableOk(e);
    AllSentIffFin(e.c.sender);
  }

  /** While active, a connection has at most eight consecutive retransmissions, and its timeout is
      the initial one doubled that many times, without wrap-around. */
  lemma BackoffIsExact(e: Endpoint)
    requires Reachable(e) && e.c.active
    ensures var s := e.c.sender;
            s.retx <= MAX_RETX_ATTEMPTS && s.rto == e.c.rtTimeout * Pow2(s.retx)
  {
    ReachableOk(e);
    SR.RtoExact(e.c.sender);
  }

  /** A tick fails a live connection only by giving up. */
  lemma FailsByGivingUp(e: Endpoint, ms: nat)
    requires Endpoints.Ok(e) && e.c.active && Failed(Connections.Tick(e.c, ms))
    ensures S.TickSender(e.c.sender, ms).retx > MAX_RETX_ATTEMPTS
  {
    SenderTick(e, ms);
    var c1 := AfterSenderTick(e.c, ms);
    if c1.sender.retx <= MAX_RETX_ATTEMPTS {
      TailSender(Clock(Clocks(e, ms)).(s := c1.sender), c1, true);
    }
  }

  /** Giving up takes time: the tick that fails a live connection comes at least 510 initial timeouts
      after the first of its nine consecutive expiries. */
  lemma GiveUpIsLate(e: Endpoint, ms: nat)
    requires Reachable(e) && e.c.active && Failed(Endpoints.Step(e, TickCall(ms)).c)
    ensures var e' := Endpoints.Step(e, TickCall(ms));
            e'.c.sender.retx == MAX_RETX_ATTEMPTS + 1 && e'.since + 510 * e.c.rtTimeout <= e'.now
  {
    ReachableOk(e);
    FailsByGivingUp(e, ms);
    TickKeeps(e, ms);
    SenderTick(e, ms);
    SR.NinthExpiryIsLate(Clock(Clocks(e, ms)).(s := S.TickSender(e.c.sender, ms)));
  }

  /** A connection that has closed cleanly. */
  predicate CleanlyClosed(c: Conn) {
    !c.active && !Failed(c) && !R.Output(c.receiver).error
  }

  /** What a final close means for one call: still closed, and nothing more is sent. */
  predicate StaysQuiet(e: Endpoint, call: Call) {
    var c' := Endpoints.Step(e, call).c;
    CleanlyClosed(c') && c'.sent == e.c.sent
  }

  /** A cleanly closed connection without outstanding segments: no later call brings it back, makes it
      fail, or makes it send anything. */
  lemma CleanCloseIsFinal(e: Endpoint, call: Call)
    requires Endpoints.Ok(e) && Enabled(e.c, call) && CleanlyClosed(e.c) && e.c.sender.backup == []
    ensures StaysQuiet(e, call) && Closed(Endpoints.Step(e, call).c)
    ensures Endpoints.Step(e, call).c.sender.backup == []
  {
    StepKeeps(e, call);
  }

  /** The source's test that everything including the FIN is sent holds exactly when the FIN is sent. */
  lemma CloseTestIsExact(e: Endpoint)
    requires Reachable(e)
    ensures Eof(e.c.sender.stream) && e.c.sender.nextSeqno == |e.c.sender.stream.log| + 2 <==> e.c.sender.finSent
  {
    ReachableOk(e);
    AllSentIffFin(e.c.sender);
  }
}
