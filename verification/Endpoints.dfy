/** One endpoint over whole runs, with a clock, in any environment: the segments that arrive may be
    anything at all. */
module Endpoints {
  import opened Words
  import opened Segments
  import opened Connections
  import Reassembly
  import S = Sending
  import R = Receiving
  import SR = SendingRuns

  datatype Call =
    | ConnectCall
    | WriteCall(data: seq<byte>)
    | EndCall
    | TickCall(ms: nat)
    | ReadCall(len: nat)
    | ReceiveCall(seg: TCPSegment)

  function Apply(c: Conn, call: Call): Conn {
    match call
    case ConnectCall => Connect(c)
    case WriteCall(data) => Connections.Write(c, data)
    case EndCall => EndInputStream(c)
    case TickCall(ms) => Connections.Tick(c, ms)
    case ReadCall(len) => Connections.Read(c, len)
    case ReceiveCall(seg) => SegmentReceived(c, seg)
  }

  /** The stream stays within the range of the 64-bit counters. */
  predicate Enabled(c: Conn, call: Call) {
    call.WriteCall? ==> |c.sender.stream.log| + |call.data| <= Reassembly.LIMIT
  }

  /** A connection, the time that has passed, the time of the first expiry in the present run of
      consecutive retransmissions, and the time of the last segment that arrived. */
  datatype Endpoint = Endpoint(c: Conn, now: nat, since: nat, lastRecv: nat)

  function Step(e: Endpoint, call: Call): Endpoint {
    var c' := Apply(e.c, call);
    var now' := if call.TickCall? then e.now + call.ms else e.now;
    Endpoint(c', now',
             if e.c.sender.retx == 0 && c'.sender.retx > 0 then now' else e.since,
             if call.ReceiveCall? && e.c.active then now' else e.lastRecv)
  }

  function Run(e: Endpoint, calls: seq<Call>): Endpoint
    decreases |calls|
  {
    if calls == [] then e else Run(Step(e, calls[0]), calls[1..])
  }

  predicate RunEnabled(e: Endpoint, calls: seq<Call>)
    decreases |calls|
  {
    calls == [] || (Enabled(e.c, calls[0]) && RunEnabled(Step(e, calls[0]), calls[1..]))
  }

  function Start(cfg: Config): Endpoint { Endpoint(New(cfg), 0, 0, 0) }

  predicate Failed(c: Conn) { c.sender.stream.error }

  /** Both streams are over: the inbound one has ended, and the FIN of the outbound one is acknowledged. */
  predicate Closed(c: Conn) {
    R.Output(c.receiver).inputEnd && c.sender.finSent && c.sender.absAckno == c.sender.nextSeqno
  }

  function Clock(e: Endpoint): SR.Clocked { SR.Clocked(e.c.sender, e.now, e.since) }

  /** The sender's guarantees; those about time only while the connection has not failed. */
  ghost predicate SenderOk(k: SR.Clocked, calm: bool) {
    S.Inv(k.s) && (calm ==> SR.Ok(k))
  }

  predicate FlagsOk(c: Conn) {
    && c.sender.out == []
    && R.Output(c.receiver).error == Failed(c)
    && c.sender.initialRto == c.rtTimeout
    && (c.receiver.isn.Some? <==> c.receiver.ackno.Some?)
    && (R.Output(c.receiver).inputEnd ==> c.receiver.isn.Some?)
    && (c.active ==> !Failed(c))
    && (!Failed(c) ==> c.sender.retx <= MAX_RETX_ATTEMPTS && (c.active || Closed(c)))
  }

  ghost predicate Ok(e: Endpoint) {
    SenderOk(Clock(e), !Failed(e.c)) && FlagsOk(e.c)
  }

  /** Nothing is taken back from one call to the next. */
  predicate Later(c: Conn, c': Conn) {
    && S.Later(c.sender, c'.sender)
    && c.sent <= c'.sent
    && R.Output(c.receiver).log <= R.Output(c'.receiver).log
    && R.Output(c.receiver).bytesRead <= R.Output(c'.receiver).bytesRead
    && R.Output(c.receiver).capacity == R.Output(c'.receiver).capacity
    && (R.Output(c.receiver).inputEnd ==> R.Output(c'.receiver).inputEnd)
    && (c.receiver.ackno.Some? ==> c'.receiver.ackno.Some?)
    && (Failed(c) ==> Failed(c'))
    && (!c.active ==> !c'.active)
  }

  // Steps inside a call

  lemma SenderStep(k: SR.Clocked, e: SR.Event, calm: bool)
    requires SenderOk(k, calm) && SR.Enabled(k.s, e) && (calm ==> k.s.retx <= SR.MAX_EXACT)
    ensures SenderOk(SR.ClockStep(k, e), calm) && S.Later(k.s, SR.Step(k.s, e))
    ensures calm && !e.TickEvent? ==> SR.Step(k.s, e).retx <= k.s.retx
    ensures calm ==> SR.Step(k.s, e).retx <= k.s.retx + 1
  {
    if calm { SR.OkStep(k, e); } else { SR.StepKeeps(k.s, e); }
  }

  lemma RetxKept(s: S.Sender, e: SR.Event)
    requires !e.TickEvent? && !e.AckEvent?
    ensures SR.Step(s, e).retx == s.retx
  {
    if e == SR.FillEvent && s.synSent { SR.FillLoopTiming(s, S.FillSize(s)); }
  }

  lemma LaterTrans(s: S.Sender, s': S.Sender, s'': S.Sender)
    requires S.Later(s, s') && S.Later(s', s'')
    ensures S.Later(s, s'')
  {
  }

  lemma {:induction false} FillLoopError(s: S.Sender, fill: nat)
    ensures S.FillLoop(s, fill).stream.error == s.stream.error
    decreases fill
  {
    if fill == 0 || s.finSent || !s.synSent {
    } else {
      var g := S.NextSegment(s, fill);
      if S.Len(g) > 0 {
        FillLoopError(S.Emit(S.AfterRead(s, fill), g), fill - S.Len(g));
      }
    }
  }

  lemma FillError(s: S.Sender)
    ensures S.FillWindow(s).stream.error == s.stream.error
  {
    if s.synSent { FillLoopError(s, S.FillSize(s)); }
  }

  /** A step of the sender that takes no time and acknowledges nothing. */
  lemma QuietStep(k: SR.Clocked, e: SR.Event, calm: bool)
    requires SenderOk(k, calm) && SR.Enabled(k.s, e) && (calm ==> k.s.retx <= SR.MAX_EXACT)
    requires !e.TickEvent? && !e.AckEvent?
    ensures var s' := SR.Step(k.s, e);
            SenderOk(k.(s := s'), calm) && S.Later(k.s, s') && s'.retx == k.s.retx
            && (!e.ErrorEvent? ==> s'.stream.error == k.s.stream.error)
  {
    SenderStep(k, e, calm);
    RetxKept(k.s, e);
    FillError(k.s);
  }

  predicate Quiet(e: SR.Event) {
    e.FillEvent? || e.EmptyEvent? || e.MarkEvent? || e.TakeEvent?
  }

  /** Several such steps in a row. */
  lemma {:induction false} QuietRun(k: SR.Clocked, es: seq<SR.Event>, calm: bool)
    requires SenderOk(k, calm) && (calm ==> k.s.retx <= SR.MAX_EXACT) && forall e :: e in es ==> Quiet(e)
    ensures var s' := SR.Run(k.s, es);
            SenderOk(k.(s := s'), calm) && S.Later(k.s, s') && s'.retx == k.s.retx
            && s'.stream.error == k.s.stream.error
    decreases |es|
  {
    if es == [] {
    } else {
      assert es[0] in es;
      QuietStep(k, es[0], calm);
      var s1 := SR.Step(k.s, es[0]);
      QuietRun(k.(s := s1), es[1..], calm);
      LaterTrans(k.s, s1, SR.Run(s1, es[1..]));
    }
  }

  /** A connection that is closed stays closed. */
  lemma StaysClosed(c: Conn, c': Conn)
    requires Closed(c) && S.Later(c.sender, c'.sender) && c'.sender.absAckno <= c'.sender.nextSeqno
    requires R.Output(c.receiver).inputEnd ==> R.Output(c'.receiver).inputEnd
    ensures Closed(c')
  {
  }

  lemma RunOne(s: S.Sender, a: SR.Event)
    ensures SR.Run(s, [a]) == SR.Step(s, a)
  {
  }

  lemma RunTwo(s: S.Sender, a: SR.Event, b: SR.Event)
    ensures SR.Run(s, [a, b]) == SR.Step(SR.Step(s, a), b)
  {
    assert [a, b][1..] == [b];
    RunOne(SR.Step(s, a), b);
  }

  lemma RunThree(s: S.Sender, a: SR.Event, b: SR.Event, d: SR.Event)
    ensures SR.Run(s, [a, b, d]) == SR.Step(SR.Step(SR.Step(s, a), b), d)
  {
    assert [a, b, d][1..] == [b, d];
    RunTwo(SR.Step(s, a), b, d);
  }

  // The calls

  /** A call that leaves the receiver and the flags alone. */
  lemma SenderOnlyCall(e: Endpoint, c': Conn)
    requires Ok(e) && c' == e.c.(sender := c'.sender, sent := c'.sent) && e.c.sent <= c'.sent
    requires SenderOk(Clock(e).(s := c'.sender), !Failed(e.c)) && S.Later(e.c.sender, c'.sender)
    requires c'.sender.retx == e.c.sender.retx && Failed(c') == Failed(e.c) && c'.sender.out == []
    ensures Ok(e.(c := c')) && Later(e.c, c')
  {
  }

  /** One change to the stream, then fill and send: `connect`, `write` and `end_input_stream`. */
  lemma FillingCall(e: Endpoint, ev: SR.Event, c': Conn)
    requires Ok(e) && SR.Enabled(e.c.sender, ev) && (ev.TakeEvent? || ev.WriteEvent? || ev.EndEvent?)
    requires c' == SendAll(Fill(e.c.(sender := SR.Step(e.c.sender, ev))))
    ensures Ok(e.(c := c')) && Later(e.c, c') && c'.sender.retx == e.c.sender.retx
  {
    var calm, k := !Failed(e.c), Clock(e);
    QuietStep(k, ev, calm);
    var k1 := k.(s := SR.Step(k.s, ev));
    QuietRun(k1, [SR.FillEvent, SR.TakeEvent], calm);
    RunTwo(k1.s, SR.FillEvent, SR.TakeEvent);
    LaterTrans(k.s, k1.s, c'.sender);
    SenderOnlyCall(e, c');
  }

  lemma WriterCall(e: Endpoint, call: Call)
    requires Ok(e) && Enabled(e.c, call) && (call.ConnectCall? || call.WriteCall? || call.EndCall?)
    ensures Ok(Step(e, call)) && Later(e.c, Step(e, call).c)
  {
    if call.ConnectCall? {
      assert e.c.(sender := SR.Step(e.c.sender, SR.TakeEvent)) == e.c;
      FillingCall(e, SR.TakeEvent, Connect(e.c));
    } else if call.WriteCall? {
      FillingCall(e, SR.WriteEvent(call.data), Connections.Write(e.c, call.data));
    } else {
      FillingCall(e, SR.EndEvent, EndInputStream(e.c));
    }
  }

  lemma ReaderCall(e: Endpoint, len: nat)
    requires Ok(e)
    ensures Ok(Step(e, ReadCall(len))) && Later(e.c, Step(e, ReadCall(len)).c)
  {
  }

  // Receiving a segment

  predicate ReceiverLater(r: R.Receiver, r': R.Receiver) {
    && Reassembly.OutputGrows(R.Output(r), R.Output(r'))
    && (r'.isn.None? ==> r' == r)
    && ((r.isn.Some? <==> r.ackno.Some?) ==>
          (r'.isn.Some? <==> r'.ackno.Some?) && (r.ackno.Some? ==> r'.ackno.Some?))
  }

  /** The receiver half of an arriving segment, whatever it contains. */
  lemma ReceiverGrows(r: R.Receiver, seg: TCPSegment)
    ensures var r' := R.SegmentReceived(r, seg);
            ReceiverLater(r, r')
  {
    match r.isn
    case None => Reassembly.PushGrows(r.reassembler, seg.payload, 0, seg.header.fin);
    case Some(isn) =>
      Reassembly.PushGrows(r.reassembler, seg.payload, R.StreamIndex(r, seg.header.seqno, isn), seg.header.fin);
  }

  lemma KillKeeps(e: Endpoint, c: Conn)
    requires SenderOk(Clock(e).(s := c.sender), false) && S.Later(e.c.sender, c.sender) && c.sender.out == []
    requires c.rtTimeout == e.c.rtTimeout == e.c.sender.initialRto && e.c.sent <= c.sent
    requires ReceiverLater(e.c.receiver, c.receiver) && FlagsOk(e.c)
    ensures var c' := Kill(c);
            Ok(e.(c := c')) && Later(e.c, c')
  {
  }

  function AnswerEvents(c: Conn, seg: TCPSegment): (es: seq<SR.Event>)
    ensures forall e :: e in es ==> Quiet(e)
  {
    if LengthInSequenceSpace(seg) == 0 then
      (if KeepAlive(c, seg) then [SR.EmptyEvent(false)] else [SR.TakeEvent][..0])
    else if seg.header.syn && !seg.header.ack then
      (if Fill(c).sender.out == [] then [SR.FillEvent, SR.EmptyEvent(false)] else [SR.FillEvent])
    else
      (if c.sender.out == [] then [SR.EmptyEvent(false)] else [SR.TakeEvent][..0])
  }

  lemma AnswerIsRun(c: Conn, seg: TCPSegment)
    ensures Answer(c, seg) == c.(sender := SR.Run(c.sender, AnswerEvents(c, seg)))
  {
    RunOne(c.sender, SR.EmptyEvent(false));
    RunOne(c.sender, SR.FillEvent);
    RunTwo(c.sender, SR.FillEvent, SR.EmptyEvent(false));
  }

  /** Quiet steps, after which everything leaves for the wire. */
  lemma QuietRunSent(k: SR.Clocked, es: seq<SR.Event>)
    requires SenderOk(k, true) && k.s.retx <= SR.MAX_EXACT && forall e :: e in es ==> Quiet(e)
    ensures var s' := SR.Run(k.s, es).(out := []);
            SenderOk(k.(s := s'), true) && S.Later(k.s, s') && s'.retx == k.s.retx
            && s'.stream.error == k.s.stream.error
  {
    QuietRun(k, es, true);
    var k1 := k.(s := SR.Run(k.s, es));
    QuietStep(k1, SR.TakeEvent, true);
    LaterTrans(k.s, k1.s, k1.s.(out := []));
  }

  /** The answer to a segment changes the sender and the wire only. */
  lemma AnswerSender(k: SR.Clocked, c: Conn, seg: TCPSegment)
    requires k.s == c.sender && SenderOk(k, true) && k.s.retx <= SR.MAX_EXACT
    ensures var s' := SendAll(Answer(c, seg)).sender;
            SenderOk(k.(s := s'), true) && S.Later(k.s, s') && s'.retx == k.s.retx
            && s'.stream.error == k.s.stream.error
  {
    AnswerIsRun(c, seg);
    QuietRunSent(k, AnswerEvents(c, seg));
  }

  lemma AckStep(k: SR.Clocked, c: Conn, seg: TCPSegment)
    requires k.s == c.sender && SenderOk(k, true) && k.s.retx <= SR.MAX_EXACT
    ensures var s' := HandToSender(c, seg).sender;
            SenderOk(k.(s := s'), true) && S.Later(k.s, s') && s'.retx <= k.s.retx && s'.stream == k.s.stream
  {
    if seg.header.ack {
      SenderStep(k, SR.AckEvent(seg.header.ackno, seg.header.win), true);
    }
  }

  /** The flags after a segment that brought no RST. */
  lemma ReceiveFlags(c: Conn, seg: TCPSegment)
    requires FlagsOk(c) && c.active && !seg.header.rst
    requires var c' := SegmentReceived(c, seg);
             S.Later(c.sender, c'.sender) && c'.sender.retx <= c.sender.retx && Failed(c') == Failed(c)
    ensures var c' := SegmentReceived(c, seg);
            FlagsOk(c') && Later(c, c')
  {
    ReceiverGrows(c.receiver, seg);
    AnswerIsRun(NoteLinger(HandToSender(HandToReceiver(c, seg), seg)), seg);
  }

  lemma ReceiveSender(k: SR.Clocked, c: Conn, seg: TCPSegment)
    requires k.s == c.sender && SenderOk(k, true) && k.s.retx <= SR.MAX_EXACT && c.active && !seg.header.rst
    ensures var s' := SegmentReceived(c, seg).sender;
            SenderOk(k.(s := s'), true) && S.Later(k.s, s') && s'.retx <= k.s.retx
            && s'.stream.error == k.s.stream.error
  {
    var c1 := HandToReceiver(c, seg);
    AckStep(k, c1, seg);
    var c2 := NoteLinger(HandToSender(c1, seg));
    AnswerSender(k.(s := c2.sender), c2, seg);
    LaterTrans(k.s, c2.sender, SegmentReceived(c, seg).sender);
  }

  lemma ReceiveLive(e: Endpoint, seg: TCPSegment)
    requires Ok(e) && e.c.active && !seg.header.rst
    ensures Ok(e.(c := SegmentReceived(e.c, seg))) && Later(e.c, SegmentReceived(e.c, seg))
    ensures SegmentReceived(e.c, seg).sender.retx <= e.c.sender.retx
  {
    ReceiveSender(Clock(e), e.c, seg);
    ReceiveFlags(e.c, seg);
  }

  lemma ReceiveRst(e: Endpoint, seg: TCPSegment)
    requires Ok(e) && e.c.active && seg.header.rst
    ensures Ok(e.(c := SegmentReceived(e.c, seg))) && Later(e.c, SegmentReceived(e.c, seg))
  {
    ReceiverGrows(e.c.receiver, seg);
    KillKeeps(e, HandToReceiver(e.c, seg));
  }

  /** `Ok` does not depend on the time of the last segment. */
  lemma OkAnyRecv(e: Endpoint, t: nat)
    requires Ok(e)
    ensures Ok(e.(lastRecv := t))
  {
  }

  lemma ReceiverCall(e: Endpoint, seg: TCPSegment)
    requires Ok(e)
    ensures Ok(Step(e, ReceiveCall(seg))) && Later(e.c, Step(e, ReceiveCall(seg)).c)
  {
    if e.c.active {
      var c' := SegmentReceived(e.c, seg);
      if seg.header.rst { ReceiveRst(e, seg); } else { ReceiveLive(e, seg); }
      assert c'.sender.retx <= e.c.sender.retx;
      OkAnyRecv(e.(c := c'), e.now);
      assert Step(e, ReceiveCall(seg)) == e.(c := c', lastRecv := e.now);
    }
  }

  // Time

  /** The conditions of a clean close mean that the connection is closed. */
  lemma PrereqsMean(c: Conn)
    requires S.Inv(c.sender) && PrereqsMet(c)
    ensures Closed(c)
  {
  }

  /** Giving up: fill, mark the first segment with RST, send everything, and fail. */
  lemma GiveUp(e: Endpoint, c: Conn)
    requires c == e.c.(sender := c.sender, timeSinceLastSegRecv := c.timeSinceLastSegRecv)
    requires FlagsOk(e.c) && S.Inv(c.sender) && S.Later(e.c.sender, c.sender)
    ensures var c' := UncleanShutdown(c, true);
            Ok(e.(c := c')) && Later(e.c, c') && c'.sender.retx == c.sender.retx
  {
    var k := Clock(e).(s := c.sender);
    var f, m, t := SR.FillEvent, SR.MarkEvent, SR.TakeEvent;
    QuietRun(k, [f, m, t], false);
    RunThree(k.s, f, m, t);
    var c2 := SendAll(MarkRst(Fill(c)));
    assert c2.sender == SR.Run(k.s, [f, m, t]);
    LaterTrans(e.c.sender, k.s, c2.sender);
    KillKeeps(e, c2);
  }

  lemma TailSender(k: SR.Clocked, c: Conn, calm: bool)
    requires k.s == c.sender && SenderOk(k, calm) && k.s.retx <= SR.MAX_EXACT
    ensures var c' := TickTail(c);
      && c' == c.(sender := c'.sender, sent := c'.sent) && c.sent <= c'.sent && c'.sender.out == []
      && SenderOk(k.(s := c'.sender), calm) && S.Later(k.s, c'.sender) && c'.sender.retx == k.s.retx
      && Failed(c') == Failed(c)
  {
    var f, t := SR.FillEvent, SR.TakeEvent;
    if c.sender.synSent {
      RunTwo(k.s, f, t);
      QuietRun(k, [f, t], calm);
    } else {
      RunOne(k.s, t);
      QuietRun(k, [t], calm);
    }
  }

  lemma CloseFlags(c: Conn, c1: Conn)
    requires FlagsOk(c)
    requires c1 == c.(sender := c1.sender, sent := c1.sent, timeSinceLastSegRecv := c1.timeSinceLastSegRecv)
    requires S.Later(c.sender, c1.sender) && c.sent <= c1.sent && c1.sender.out == [] && Failed(c1) == Failed(c)
    requires S.Inv(c1.sender) && c1.sender.retx <= MAX_RETX_ATTEMPTS
    ensures FlagsOk(CloseIfDone(c1)) && Later(c, CloseIfDone(c1))
  {
    if PrereqsMet(c1) { PrereqsMean(c1); }
    if Closed(c) { StaysClosed(c, c1); }
  }

  lemma TickLive(e: Endpoint, c: Conn)
    requires FlagsOk(e.c) && c == e.c.(sender := c.sender, timeSinceLastSegRecv := c.timeSinceLastSegRecv)
    requires SenderOk(Clock(e).(s := c.sender), !Failed(e.c)) && S.Later(e.c.sender, c.sender)
    requires c.sender.retx <= MAX_RETX_ATTEMPTS && Failed(c) == Failed(e.c)
    ensures var c' := CloseIfDone(TickTail(c));
            Ok(e.(c := c')) && Later(e.c, c') && c'.sender.retx == c.sender.retx
  {
    var k := Clock(e).(s := c.sender);
    TailSender(k, c, !Failed(c));
    LaterTrans(e.c.sender, k.s, TickTail(c).sender);
    CloseFlags(e.c, TickTail(c));
  }

  /** The endpoint with its clocks moved on, before its connection is. */
  function Clocks(e: Endpoint, ms: nat): Endpoint {
    var s' := S.TickSender(e.c.sender, ms);
    e.(now := e.now + ms, since := if e.c.sender.retx == 0 && s'.retx > 0 then e.now + ms else e.since)
  }

  lemma SenderTick(e: Endpoint, ms: nat)
    requires Ok(e)
    ensures var c1 := AfterSenderTick(e.c, ms);
      && SenderOk(Clock(Clocks(e, ms)).(s := c1.sender), !Failed(e.c)) && S.Later(e.c.sender, c1.sender)
      && (!Failed(e.c) ==> c1.sender.retx <= MAX_RETX_ATTEMPTS + 1) && Failed(c1) == Failed(e.c)
  {
    SenderStep(Clock(e), SR.TickEvent(ms), !Failed(e.c));
  }

  lemma TickKeeps(e: Endpoint, ms: nat)
    requires Ok(e)
    ensures var c' := Connections.Tick(e.c, ms);
      && Ok(Clocks(e, ms).(c := c')) && Later(e.c, c')
      && c'.sender.retx == S.TickSender(e.c.sender, ms).retx
  {
    SenderTick(e, ms);
    var c1 := AfterSenderTick(e.c, ms);
    if c1.sender.retx > MAX_RETX_ATTEMPTS {
      GiveUp(Clocks(e, ms), c1);
    } else {
      TickLive(Clocks(e, ms), c1);
    }
  }

  lemma TimeCall(e: Endpoint, ms: nat)
    requires Ok(e)
    ensures Ok(Step(e, TickCall(ms))) && Later(e.c, Step(e, TickCall(ms)).c)
  {
    TickKeeps(e, ms);
    assert Step(e, TickCall(ms)) == Clocks(e, ms).(c := Connections.Tick(e.c, ms));
  }

  /** Every call keeps everything. */
  lemma StepKeeps(e: Endpoint, call: Call)
    requires Ok(e) && Enabled(e.c, call)
    ensures Ok(Step(e, call)) && Later(e.c, Step(e, call).c)
  {
    match call
    case ConnectCall => WriterCall(e, call);
    case WriteCall(_) => WriterCall(e, call);
    case EndCall => WriterCall(e, call);
    case TickCall(ms) => TimeCall(e, ms);
    case ReadCall(len) => ReaderCall(e, len);
    case ReceiveCall(seg) => ReceiverCall(e, seg);
  }

  lemma StartOk(cfg: Config)
    ensures Ok(Start(cfg))
  {
  }
}
