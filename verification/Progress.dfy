/** A round trip makes progress: a packet that the peer can use, then the peer's answer. */
module Progress {
  import opened Words
  import opened Segments
  import opened Channels
  import opened Connections
  import opened Endpoints
  import opened Pairs
  import opened EndpointReplies
  import opened EndpointEnds
  import TcpStates
  import opened Network
  import S = Sending
  import R = Receiving

  // The answer

  /** The first segment of the answer stands at the front of what the sender has to say. */
  predicate Fronted(s: S.Sender, s': S.Sender) {
    && s'.absAckno == s.absAckno
    && (if s'.out == [] then s'.nextSeqno == s.nextSeqno else s'.out[0].abs == s.nextSeqno && !s'.out[0].rst)
  }

  lemma FillFronted(s: S.Sender)
    requires S.Inv(s) && s.out == []
    ensures Fronted(s, S.FillWindow(s))
  {
    S.FillWindowRespectsWindow(s);
    if s.synSent {
      var fill := S.FillSize(s);
      var g := S.NextSegment(s, fill);
      if fill > 0 && !s.finSent && S.Len(g) > 0 {
        S.FillLoopQueues(S.Emit(S.AfterRead(s, fill), g), fill - S.Len(g));
      }
    }
  }

  lemma EmptyFronted(s: S.Sender, s': S.Sender)
    requires Fronted(s, s') && s'.out == []
    ensures Fronted(s, S.SendEmpty(s', false))
  {
  }

  lemma AnswerFronted(c: Conn, seg: TCPSegment)
    requires S.Inv(c.sender) && c.sender.out == []
    ensures Fronted(c.sender, Answer(c, seg).sender)
  {
    var s, s' := c.sender, S.FillWindow(c.sender);
    FillFronted(s);
    EmptyFronted(s, s);
    if s'.out == [] { EmptyFronted(s, s'); }
  }

  /** The first packet of the answer to a segment that occupies sequence numbers. */
  predicate Replies(c: Conn, c': Conn, q: Packet) {
    && |c.sent| < |c'.sent| && q == c'.sent[|c.sent|]
    && q.src.abs == c.sender.nextSeqno && !q.wire.header.rst
    && q.ackAbs == R.AbsAck(c'.receiver) && Speaks(q, c'.receiver)
  }

  lemma AnswerReplies(c: Conn, seg: TCPSegment)
    requires S.Inv(c.sender) && c.sender.out == [] && LengthInSequenceSpace(seg) > 0
    ensures var c' := SendAll(Answer(c, seg));
            c'.receiver == c.receiver && |c.sent| < |c'.sent| && Replies(c, c', c'.sent[|c.sent|])
  {
    AnswerOut(c, seg);
    AnswerFronted(c, seg);
    SentIsStamped(Answer(c, seg));
  }

  lemma HeardSender(c: Conn, seg: TCPSegment)
    requires S.Inv(c.sender)
    ensures var c' := Heard(c, seg);
      && S.Inv(c'.sender) && c'.sender.nextSeqno == c.sender.nextSeqno
      && c'.receiver == R.SegmentReceived(c.receiver, seg)
      && c'.sender.absAckno == if seg.header.ack then S.NewAckno(c.sender, seg.header.ackno) else c.sender.absAckno
  {
    if seg.header.ack { S.AckReceivedKeeps(c.sender, seg.header.ackno, seg.header.win); }
  }

  /** A live connection and a segment without RST. */
  lemma ReceiveReplies(c: Conn, seg: TCPSegment)
    requires c.active && !seg.header.rst && S.Inv(c.sender) && c.sender.out == []
    ensures var c' := SegmentReceived(c, seg);
      && c'.receiver == R.SegmentReceived(c.receiver, seg)
      && c'.sender.absAckno == (if seg.header.ack then S.NewAckno(c.sender, seg.header.ackno) else c.sender.absAckno)
      && (LengthInSequenceSpace(seg) > 0 ==> |c.sent| < |c'.sent| && Replies(c, c', c'.sent[|c.sent|]))
  {
    var c1 := Heard(c, seg);
    ReceiveIsAnswer(c, seg);
    HeardSaysNothing(c, seg);
    HeardSender(c, seg);
    AnswerOut(c1, seg);
    AnswerFronted(c1, seg);
    if LengthInSequenceSpace(seg) > 0 { AnswerReplies(c1, seg); }
  }

  // The trip

  /** The answer is always deliverable: it is fresh, and its number is close. */
  lemma ReplyDeliverable(c: Conn, d: Conn, q: Packet, n: nat)
    requires Pair(c, d) && q in d.sent && q.ackAbs == R.AbsAck(d.receiver) && q.src.abs == n
    requires d.sender.absAckno <= n <= d.sender.nextSeqno && R.AbsAck(c.receiver) <= n
    ensures Deliverable(c, d, q)
  {
    AckedWasSent(c.sender, d.receiver);
    AckedWasSent(d.sender, c.receiver);
    if q.wire.header.ack {
      assert AckOk(q, c.sender, d.receiver);
      FreshIsHarmless(c.sender, d.receiver, q.ackAbs, q.wire.header.win);
    }
  }

  /** What delivering `p` at B makes of the world, the first packet of the answer, and what delivering
      that at A makes of it. */
  function There(w: World, p: Packet): World { Next(w, Event(false, Deliver(p))) }

  predicate HasReply(w: World, p: Packet) { |w.b.c.sent| < |There(w, p).b.c.sent| }

  function Reply(w: World, p: Packet): Packet
    requires HasReply(w, p)
  {
    There(w, p).b.c.sent[|w.b.c.sent|]
  }

  function Back(w: World, p: Packet): World
    requires HasReply(w, p)
  {
    Next(There(w, p), Event(true, Deliver(Reply(w, p))))
  }

  /** Both ends are live, and `p` is something A sent that occupies sequence numbers and can arrive. */
  predicate Travels(w: World, p: Packet) {
    && w.a.c.active && w.b.c.active
    && p in w.a.c.sent && !p.wire.header.rst && LengthInSequenceSpace(p.wire) > 0
    && Possible(w, Event(false, Deliver(p)))
  }

  lemma ThereIsReceived(w: World, p: Packet)
    ensures There(w, p).a == w.a && There(w, p).b.c == SegmentReceived(w.b.c, p.wire)
  {
    DeliverIsReceive(w, p);
  }

  lemma ThereReplies(w: World, p: Packet)
    requires Inv(w) && Travels(w, p)
    ensures HasReply(w, p) && Replies(w.b.c, There(w, p).b.c, Reply(w, p))
    ensures There(w, p).b.c.receiver == R.SegmentReceived(w.b.c.receiver, p.wire)
    ensures There(w, p).b.c.sender.absAckno <= w.b.c.sender.nextSeqno
  {
    ThereIsReceived(w, p);
    ReceiveReplies(w.b.c, p.wire);
  }

  lemma ReplyPossible(w: World, p: Packet)
    requires Inv(w) && Travels(w, p)
    ensures HasReply(w, p) && Inv(There(w, p)) && Possible(There(w, p), Event(true, Deliver(Reply(w, p))))
  {
    var w1 := There(w, p);
    NextKeeps(w, Event(false, Deliver(p)));
    ThereIsReceived(w, p);
    ThereReplies(w, p);
    AckedWasSent(w.b.c.sender, w.a.c.receiver);
    ReplyDeliverable(w1.a.c, w1.b.c, Reply(w, p), w.b.c.sender.nextSeqno);
  }

  /** What the answer does to the sender: it learns exactly what the receiver has. */
  lemma ReplySynchronises(c: Conn, d: Conn, q: Packet)
    requires Pair(c, d) && c.active && c.sender.out == [] && !q.wire.header.rst
    requires q in d.sent && q.ackAbs == R.AbsAck(d.receiver) && Speaks(q, d.receiver)
    ensures SegmentReceived(c, q.wire).sender.absAckno == R.AbsAck(d.receiver)
  {
    ReceiveReplies(c, q.wire);
    AckedWasSent(c.sender, d.receiver);
    if q.wire.header.ack { AckExact(c.sender, d.receiver, q.ackAbs); }
  }

  lemma BackIsReceived(w: World, p: Packet)
    requires HasReply(w, p)
    ensures Back(w, p).a.c == SegmentReceived(w.a.c, Reply(w, p).wire)
  {
    ThereIsReceived(w, p);
    DeliverIsReceive(There(w, p), Reply(w, p));
  }

  lemma BackSynchronises(w: World, p: Packet)
    requires Inv(w) && Travels(w, p)
    ensures HasReply(w, p)
    ensures Back(w, p).a.c.sender.absAckno == R.AbsAck(There(w, p).b.c.receiver)
  {
    ReplyPossible(w, p);
    ThereReplies(w, p);
    ThereIsReceived(w, p);
    BackIsReceived(w, p);
    ReplySynchronises(w.a.c, There(w, p).b.c, Reply(w, p));
  }

  lemma ThereGrows(w: World, p: Packet)
    requires Inv(w) && Travels(w, p)
    ensures R.AbsAck(w.b.c.receiver) <= R.AbsAck(There(w, p).b.c.receiver)
  {
    NextKeeps(w, Event(false, Deliver(p)));
    InvPromise(w);
    InvPromise(There(w, p));
  }

  /** One round trip brings the sender up to date: whatever A sent that occupies sequence numbers, if it
      arrives it is answered, the answer can always be delivered, and after that A knows exactly how much
      B has. */
  lemma RoundTripSynchronises(w: World, p: Packet)
    requires Reachable(w) && Travels(w, p)
    ensures HasReply(w, p) && Possible(There(w, p), Event(true, Deliver(Reply(w, p))))
    ensures Back(w, p).a.c.sender.absAckno == R.AbsAck(There(w, p).b.c.receiver) >= R.AbsAck(w.b.c.receiver)
  {
    ReachableInv(w);
    ReplyPossible(w, p);
    BackSynchronises(w, p);
    ThereGrows(w, p);
  }

  lemma ThereAdvances(w: World, p: Packet)
    requires Inv(w) && Travels(w, p) && p.src.abs <= R.AbsAck(w.b.c.receiver) < S.End(p.src)
    requires R.AbsAck(w.b.c.receiver) > |SentBytes(w.a.c.sender)| || R.AbsAck(w.b.c.receiver) == 0
             || R.WindowSize(w.b.c.receiver) > 0
    ensures R.AbsAck(w.b.c.receiver) < R.AbsAck(There(w, p).b.c.receiver)
  {
    ThereReplies(w, p);
    assert DataOk(p, w.a.c.sender, w.b.c.receiver);
    DeliveryAdvances(w.a.c.sender, w.b.c.receiver, p);
  }

  /** If B still waits for A's first unacknowledged number and that is a byte, B has room for it. */
  predicate HasRoom(w: World) {
    var n := R.AbsAck(w.b.c.receiver);
    n == w.a.c.sender.absAckno ==> n > |SentBytes(w.a.c.sender)| || n == 0 || R.WindowSize(w.b.c.receiver) > 0
  }

  lemma InvMakesProgress(w: World, p: Packet)
    requires Inv(w) && Travels(w, p) && p.src.abs <= w.a.c.sender.absAckno < S.End(p.src) && HasRoom(w)
    ensures HasReply(w, p) && w.a.c.sender.absAckno < Back(w, p).a.c.sender.absAckno
  {
    BackSynchronises(w, p);
    ThereGrows(w, p);
    if R.AbsAck(w.b.c.receiver) == w.a.c.sender.absAckno { ThereAdvances(w, p); }
  }

  /** Retransmission makes progress: if a packet that covers A's first unacknowledged number makes it to
      B, and the answer back to A, that number is acknowledged, unless B still waits for it and it is a
      byte for which B's window has no room. */
  lemma RoundTripMakesProgress(w: World, p: Packet)
    requires Reachable(w) && Travels(w, p) && p.src.abs <= w.a.c.sender.absAckno < S.End(p.src) && HasRoom(w)
    ensures HasReply(w, p) && w.a.c.sender.absAckno < Back(w, p).a.c.sender.absAckno
  {
    ReachableInv(w);
    InvMakesProgress(w, p);
  }

  // What time does

  /** The world after a tick at A, and the first packet that puts on the wire. */
  function Ticked(w: World, ms: nat): World { Next(w, Event(true, Local(TickCall(ms)))) }

  /** A's timer goes off, and A does not give up. */
  predicate Retries(c: Conn, ms: nat) {
    && c.active && TimesOut(c, ms)
    && !(c.sender.retx == MAX_RETX_ATTEMPTS && c.sender.windowSize > 0)
  }

  lemma TickedIsTick(w: World, ms: nat)
    ensures Ticked(w, ms).b == w.b && Ticked(w, ms).a.c == Connections.Tick(w.a.c, ms)
  {
    StepAppliesCall(w.a, TickCall(ms));
  }

  /** The front of A's queue is not fully acknowledged, and B can tell where it belongs. */
  predicate Recoverable(w: World) {
    var s, r := w.a.c.sender, w.b.c.receiver;
    S.Tight(s) && (s.backup != [] && r.isn.Some? ==> R.Timely(s.backup[0].abs, r.reassembler.firstUnassembled))
  }

  /** Below 2^32 it always is so. */
  lemma RecoverableBelow(w: World)
    requires Reachable(w) && w.a.c.sender.nextSeqno < TWO32 && !Failed(w.a.c)
    ensures Recoverable(w)
  {
    ReachableInv(w);
    AckedWasSent(w.a.c.sender, w.b.c.receiver);
    S.TightQueue(w.a.c.sender);
  }

  /** The retransmitted packet: it covers A's first unacknowledged number, which is still unacknowledged. */
  lemma RetryCovers(w: World, ms: nat)
    requires Inv(w) && Retries(w.a.c, ms) && S.Tight(w.a.c.sender)
    ensures var c, c' := w.a.c, Ticked(w, ms).a.c;
      && c.sent < c'.sent && News(c, c')[0] == ToPacket(c, c.sender.backup[0])
      && c.sender.backup[0].abs <= c'.sender.absAckno == c.sender.absAckno < S.End(c.sender.backup[0])
      && !Failed(c')
  {
    TickedIsTick(w, ms);
    TickResends(w.a.c, ms);
    S.TightQueue(w.a.c.sender);
  }

  lemma RetryDeliverable(c: Conn, d: Conn, g: S.OutSeg)
    requires Pair(c, d) && g in c.sender.backup && g.abs <= c.sender.absAckno < S.End(g)
    requires d.receiver.isn.Some? ==> R.Timely(g.abs, d.receiver.reassembler.firstUnassembled)
    ensures Deliverable(d, c, ToPacket(c, g)) && !ToPacket(c, g).wire.header.rst
    ensures LengthInSequenceSpace(ToPacket(c, g).wire) > 0
  {
    AckedWasSent(c.sender, d.receiver);
    AckedWasSent(d.sender, c.receiver);
  }

  /** The packet that the timer makes A send. */
  function Retry(w: World, ms: nat): Packet
    requires |w.a.c.sent| < |Ticked(w, ms).a.c.sent|
  {
    Ticked(w, ms).a.c.sent[|w.a.c.sent|]
  }

  lemma StillActive(w: World, ms: nat)
    requires Inv(w) && Retries(w.a.c, ms) && S.Tight(w.a.c.sender)
    ensures Inv(Ticked(w, ms)) && Ticked(w, ms).a.c.active
  {
    NextKeeps(w, Event(true, Local(TickCall(ms))));
    RetryCovers(w, ms);
    S.TightQueue(w.a.c.sender);
    assert !Closed(Ticked(w, ms).a.c);
  }

  /** Only the receiver of the other side matters to a delivery. */
  lemma SameDeliverable(c: Conn, d: Conn, d': Conn, p: Packet)
    requires Deliverable(c, d, p) && d'.receiver == d.receiver
    ensures Deliverable(c, d', p)
  {
  }

  lemma TickKeepsReceiver(c: Conn, ms: nat)
    requires !Failed(Connections.Tick(c, ms))
    ensures Connections.Tick(c, ms).receiver == c.receiver
  {
  }

  lemma RetryTravels(w: World, ms: nat)
    requires Inv(w) && Retries(w.a.c, ms) && w.b.c.active && Recoverable(w)
    ensures |w.a.c.sent| < |Ticked(w, ms).a.c.sent| && Travels(Ticked(w, ms), Retry(w, ms))
    ensures Retry(w, ms).src.abs <= Ticked(w, ms).a.c.sender.absAckno == w.a.c.sender.absAckno < S.End(Retry(w, ms).src)
  {
    RetryCovers(w, ms);
    StillActive(w, ms);
    TickedIsTick(w, ms);
    TickKeepsReceiver(w.a.c, ms);
    var g := w.a.c.sender.backup[0];
    RetryDeliverable(w.a.c, w.b.c, g);
    SameDeliverable(w.b.c, w.a.c, Ticked(w, ms).a.c, ToPacket(w.a.c, g));
  }

  /** Time gives no room and takes none. */
  lemma RoomStays(w: World, ms: nat)
    requires Inv(w) && Retries(w.a.c, ms) && S.Tight(w.a.c.sender) && HasRoom(w)
    ensures HasRoom(Ticked(w, ms))
  {
    NextKeeps(w, Event(true, Local(TickCall(ms))));
    RetryCovers(w, ms);
    TickedIsTick(w, ms);
    S.TightQueue(w.a.c.sender);
    SentBytesLater(w.a.c.sender, Ticked(w, ms).a.c.sender);
  }

  lemma RetryIsFront(w: World, ms: nat)
    requires Inv(w) && Retries(w.a.c, ms)
    ensures |w.a.c.sent| < |Ticked(w, ms).a.c.sent| && Retry(w, ms).src == w.a.c.sender.backup[0]
  {
    TickedIsTick(w, ms);
    TickResends(w.a.c, ms);
  }

  /** The packet that the timer makes A send covers A's first unacknowledged number exactly when the front of
      the queue is not one that was acknowledged and got stuck. */
  lemma RetryCoversIff(w: World, ms: nat)
    requires Reachable(w) && Retries(w.a.c, ms)
    ensures |w.a.c.sent| < |Ticked(w, ms).a.c.sent|
    ensures var p, a := Retry(w, ms), w.a.c.sender.absAckno;
            p.src.abs <= a < S.End(p.src) <==> S.Tight(w.a.c.sender)
  {
    ReachableInv(w);
    RetryIsFront(w, ms);
  }

  /** Time, a delivery and a delivery: if the front can be recovered, whenever the timer of a live A goes off and
      A has tries left, the first packet it sends covers its first unacknowledged number and can be delivered at
      a live B; if it is, and the answer too, that number is acknowledged, unless B has no room for it. */
  lemma ExpiryMakesProgress(w: World, ms: nat)
    requires Reachable(w) && Retries(w.a.c, ms) && w.b.c.active && Recoverable(w)
    ensures |w.a.c.sent| < |Ticked(w, ms).a.c.sent| && Travels(Ticked(w, ms), Retry(w, ms))
    ensures HasRoom(w) ==>
      && HasReply(Ticked(w, ms), Retry(w, ms))
      && w.a.c.sender.absAckno < Back(Ticked(w, ms), Retry(w, ms)).a.c.sender.absAckno
  {
    ReachableInv(w);
    RetryTravels(w, ms);
    StillActive(w, ms);
    if HasRoom(w) {
      RoomStays(w, ms);
      InvMakesProgress(Ticked(w, ms), Retry(w, ms));
    }
  }

  // Giving up

  lemma GiveUpPacket(w: World, ms: nat)
    requires Inv(w) && w.a.c.active && GivesUp(w.a.c, ms)
    ensures |w.a.c.sent| < |Ticked(w, ms).a.c.sent| && Failed(Ticked(w, ms).a.c)
    ensures Retry(w, ms) == ToPacket(w.a.c, w.a.c.sender.backup[0].(rst := true))
  {
    TickedIsTick(w, ms);
    TickResends(w.a.c, ms);
  }

  /** When a live A gives up, the first packet it sends is a RST. If that reaches a live B, B has failed too and
      says nothing more; and it may be delivered, if B can tell where the front of A's queue belongs. */
  lemma GivingUpResetsPeer(w: World, ms: nat)
    requires Reachable(w) && w.a.c.active && w.b.c.active && GivesUp(w.a.c, ms)
    ensures |w.a.c.sent| < |Ticked(w, ms).a.c.sent| && Failed(Ticked(w, ms).a.c)
    ensures var p := Retry(w, ms);
            var w' := Next(Ticked(w, ms), Event(false, Deliver(p)));
      && p.wire.header.rst && TcpStates.Of(w'.b.c) == TcpStates.RESET && w'.b.c.sent == w.b.c.sent
      && (Recoverable(w) ==> Possible(Ticked(w, ms), Event(false, Deliver(p))))
  {
    ReachableInv(w);
    GiveUpPacket(w, ms);
    TickedIsTick(w, ms);
    DeliverIsReceive(Ticked(w, ms), Retry(w, ms));
  }
}
