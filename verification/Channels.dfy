/** One direction of a connection: a sender, the receiver at the other end, and everything that was
    ever put on the wire between them. */
module Channels {
  import opened Words
  import opened SequenceNumbers
  import opened ByteStreams
  import opened Segments
  import opened Reassembly
  import opened SendingReach
  import S = Sending
  import R = Receiving

  /** A segment on the wire, with two numbers the wire does not carry: `src` tells where in the
      sender's sequence space it belongs, `ackAbs` what the acknowledgment number stands for. */
  datatype Packet = Packet(src: S.OutSeg, ackAbs: nat, wire: TCPSegment)

  /** The bytes the sender has taken from its stream so far. */
  function SentBytes(s: S.Sender): seq<byte> {
    s.stream.log[..s.stream.bytesRead]
  }

  /** The receiver without the error flag that an unclean shutdown leaves on its stream. */
  function Calm(r: R.Receiver): R.Receiver {
    R.WithOutput(r, R.Output(r).(error := false))
  }

  /** A data segment starts no later than the right edge of the receiver's window. */
  predicate InsideEdge(g: S.OutSeg, r: R.Receiver) {
    g.payload != [] ==> g.abs - 1 <= R.RightEdge(r)
  }

  predicate DataOk(p: Packet, s: S.Sender, r: R.Receiver) {
    && S.Genuine(p.src, s) && InsideEdge(p.src, r)
    && p.wire.payload == p.src.payload && p.wire.header.seqno == Wrap(p.src.abs, s.isn)
    && p.wire.header.syn == p.src.syn && p.wire.header.fin == p.src.fin && p.wire.header.doff == 5
  }

  /** Whatever is written, the sender sends no data that starts behind the right edge. */
  predicate Tame(s: S.Sender, r: R.Receiver) { LastStart(s) <= 1 + R.RightEdge(r) }

  /** An acknowledgment `a` with window `win` that the receiver has backed: it asks for nothing the
      receiver has not assembled, and its window ends at or before the right edge. Once everything
      including the FIN is acknowledged the window no longer matters. */
  predicate Backed(a: nat, win: nat, s: S.Sender, r: R.Receiver) {
    && a <= R.AbsAck(r)
    && (a + win <= 1 + R.RightEdge(r) || (s.finSent && a == s.nextSeqno))
  }

  predicate AckOk(p: Packet, s: S.Sender, r: R.Receiver) {
    p.wire.header.ack ==>
      && p.wire.header.ackno == Wrap(p.ackAbs, s.isn)
      && Backed(p.ackAbs, p.wire.header.win, s, r)
  }

  /** The two ends agree, apart from what is under way. */
  ghost predicate Agree(s: S.Sender, r: R.Receiver) {
    && S.Inv(s)
    && R.Follows(Calm(r), s.isn, SentBytes(s))
    && (r.isn.Some? ==> s.synSent)
    && (r.reassembler.hasEof ==> s.finSent)
    && s.absAckno <= R.AbsAck(r) && Tame(s, r)
    && (forall g :: g in s.out ==> InsideEdge(g, r))
    && (forall g :: g in s.backup ==> InsideEdge(g, r))
  }

  ghost predicate Channel(s: S.Sender, r: R.Receiver, data: seq<Packet>, acks: seq<Packet>) {
    && Agree(s, r)
    && (forall p :: p in data ==> DataOk(p, s, r))
    && (forall p :: p in acks ==> AckOk(p, s, r))
  }

  // What agreement means

  /** The receiver never acknowledges more than was sent. */
  lemma AckedWasSent(s: S.Sender, r: R.Receiver)
    requires Agree(s, r)
    ensures R.AbsAck(r) <= s.nextSeqno
  {
  }

  /** End-to-end safety of one direction. */
  lemma Delivered(s: S.Sender, r: R.Receiver)
    requires Agree(s, r)
    ensures R.Output(r).log <= s.stream.log
    ensures R.Output(r).inputEnd ==> s.stream.inputEnd && s.finSent && R.Output(r).log == s.stream.log
  {
  }

  lemma {:induction false} ChainContains(q: seq<S.OutSeg>, lo: nat, hi: nat, v: nat)
    requires S.Chain(q, lo, hi) && lo <= v < hi
    ensures exists g :: g in q && g.abs <= v < S.End(g)
  {
    if v < S.End(q[0]) {
      assert q[0] in q;
    } else {
      ChainContains(q[1..], S.End(q[0]), hi, v);
    }
  }

  /** Nothing is lost: every number sent that the receiver still lacks, be it the SYN, a byte or the
      FIN, lies in a segment of the retransmission queue. */
  lemma LackingIsQueued(s: S.Sender, r: R.Receiver, v: nat)
    requires Agree(s, r) && R.AbsAck(r) <= v < s.nextSeqno
    ensures exists g :: g in s.backup && g.abs <= v < S.End(g)
  {
    ChainContains(s.backup, S.Front(s.backup, s.nextSeqno), s.nextSeqno, v);
  }

  /** A sender whose FIN is acknowledged knows that the peer holds the whole stream and its end. */
  lemma FullyAcked(s: S.Sender, r: R.Receiver)
    requires Agree(s, r) && s.finSent && s.absAckno == s.nextSeqno
    ensures R.Output(r).inputEnd && R.Output(r).log == s.stream.log
  {
  }

  // Steps of the sender

  lemma SentBytesLater(s: S.Sender, s': S.Sender)
    requires S.Accounted(s) && S.Accounted(s') && S.Later(s, s')
    ensures SentBytes(s) <= SentBytes(s') && (s.finSent ==> SentBytes(s') == SentBytes(s))
  {
  }

  /** A later sender state keeps the channel, if its new segments and its window are covered. */
  lemma SenderMoves(s: S.Sender, s': S.Sender, r: R.Receiver, data: seq<Packet>, acks: seq<Packet>)
    requires Channel(s, r, data, acks) && S.Inv(s') && S.Later(s, s')
    requires s'.absAckno <= R.AbsAck(r) && Tame(s', r)
    requires forall g :: g in s'.out ==> g in s.out || g in s.backup || InsideEdge(g, r)
    requires forall g :: g in s'.backup ==> g in s.backup || InsideEdge(g, r)
    ensures Channel(s', r, data, acks)
  {
    SentBytesLater(s, s');
    R.FollowsMore(Calm(r), s.isn, SentBytes(s), SentBytes(s'));
    forall p | p in data
      ensures DataOk(p, s', r)
    {
      S.GenuineLater(p.src, s, s');
    }
  }

  lemma FillInside(s: S.Sender, r: R.Receiver)
    requires Agree(s, r)
    ensures var s' := S.FillWindow(s);
            && S.Inv(s') && S.Later(s, s') && s'.absAckno == s.absAckno && Tame(s', r)
            && (forall g :: g in s'.out ==> InsideEdge(g, r))
            && (forall g :: g in s'.backup ==> g in s.backup || g in s'.out)
  {
    S.FillWindowKeeps(s);
    S.FillWindowRespectsWindow(s);
    if s.synSent { S.FillLoopQueues(s, S.FillSize(s)); }
    FillStarts(s, 1 + R.RightEdge(r));
  }

  lemma FillMoves(s: S.Sender, r: R.Receiver, data: seq<Packet>, acks: seq<Packet>)
    requires Channel(s, r, data, acks)
    ensures Channel(S.FillWindow(s), r, data, acks)
  {
    FillInside(s, r);
    SenderMoves(s, S.FillWindow(s), r, data, acks);
  }

  lemma TickMoves(s: S.Sender, r: R.Receiver, data: seq<Packet>, acks: seq<Packet>, ms: nat)
    requires Channel(s, r, data, acks)
    ensures Channel(S.TickSender(s, ms), r, data, acks)
  {
    S.TickKeeps(s, ms);
    SenderMoves(s, S.TickSender(s, ms), r, data, acks);
  }

  /** The acknowledgments that do no harm: at most 2^31 away from the last one, and such that the sender
      has nothing to send past the right edge with the window they bring, which `ack_received` counts from
      the later of the two numbers. */
  predicate Harmless(s: S.Sender, r: R.Receiver, a: nat, win: nat) {
    Distance(a, s.absAckno) < TWO31 && NoOverrun(s, r, a, win)
  }

  predicate NoOverrun(s: S.Sender, r: R.Receiver, a: nat, win: nat) {
    || s.stream.error || s.finSent
    || StartOf(Over(s.stream), First(s), Max(a, s.absAckno) + Max(win, 1), |Buffer(s.stream)|) <= 1 + R.RightEdge(r)
  }

  /** An acknowledgment that is not behind does no harm, nor does one that does not open the window. */
  lemma FreshIsHarmless(s: S.Sender, r: R.Receiver, a: nat, win: nat)
    requires Agree(s, r) && Backed(a, win, s, r) && Distance(a, s.absAckno) < TWO31
    requires a >= s.absAckno || win <= s.windowSize
    ensures Harmless(s, r, a, win)
  {
    var end := Max(a, s.absAckno) + Max(win, 1);
    SmallerWindow(Over(s.stream), First(s), end, Max(end, Reach(s)), |Buffer(s.stream)|);
  }

  /** Acknowledgment numbers are recovered exactly, and old ones do not move the left edge. */
  lemma AckExact(s: S.Sender, r: R.Receiver, a: nat)
    requires Agree(s, r) && a <= R.AbsAck(r) && Distance(a, s.absAckno) < TWO31
    ensures S.NewAckno(s, Wrap(a, s.isn)) == Max(a, s.absAckno)
  {
    AckedWasSent(s, r);
    RoundTripIff(a, s.isn, s.absAckno);
    if TWO32 <= s.absAckno < TWO33 && a < TWO32 {
      UnwrapSkipsUp(a, s.isn, s.absAckno);
    }
  }

  lemma AckTames(s: S.Sender, r: R.Receiver, a: nat, win: u16)
    requires Agree(s, r) && a <= R.AbsAck(r) && Harmless(s, r, a, win)
    ensures var s' := S.AckReceived(s, Wrap(a, s.isn), win);
            s'.absAckno == Max(a, s.absAckno) && Tame(s', r)
  {
    AckStart(s, Wrap(a, s.isn), win);
    AckExact(s, r, a);
  }

  /** An acknowledgment that does no harm leaves the two ends in agreement. */
  lemma AckMoves(s: S.Sender, r: R.Receiver, data: seq<Packet>, acks: seq<Packet>, a: nat, win: u16)
    requires Channel(s, r, data, acks) && a <= R.AbsAck(r) && Harmless(s, r, a, win)
    ensures Channel(S.AckReceived(s, Wrap(a, s.isn), win), r, data, acks)
  {
    var s' := S.AckReceived(s, Wrap(a, s.isn), win);
    AckTames(s, r, a, win);
    S.AckReceivedKeeps(s, Wrap(a, s.isn), win);
    S.PopAckedChain(s.backup, s.isn, s'.absAckno, s.nextSeqno);
    SenderMoves(s, s', r, data, acks);
  }

  /** The writer's own actions, and segments that carry no data. */
  lemma OutsideMoves(s: S.Sender, s': S.Sender, r: R.Receiver, data: seq<Packet>, acks: seq<Packet>)
    requires Channel(s, r, data, acks) && S.Later(s, s') && |s'.stream.log| <= LIMIT
    requires s' == s.(stream := s'.stream, out := s'.out) && s'.stream.bytesRead == s.stream.bytesRead
    requires LastStart(s') <= LastStart(s)
    requires forall g :: g in s'.out ==> g in s.out || (S.Genuine(g, s') && InsideEdge(g, r))
    ensures Channel(s', r, data, acks)
  {
    S.OutsideKeeps(s, s');
    SenderMoves(s, s', r, data, acks);
  }

  /** Segments leave the sender's queue for the wire. */
  lemma SendMoves(s: S.Sender, r: R.Receiver, data: seq<Packet>, acks: seq<Packet>, new': seq<Packet>)
    requires Channel(s, r, data, acks)
    requires forall p :: p in new' ==> DataOk(p, s, r)
    ensures Channel(s.(out := []), r, data + new', acks)
  {
    SameStart(s, s.(out := []));
    OutsideMoves(s, s.(out := []), r, data, acks);
    forall p | p in data + new'
      ensures DataOk(p, s.(out := []), r)
    {
      S.GenuineLater(p.src, s, s.(out := []));
    }
  }

  // Steps of the receiver

  lemma ReceiverMoves(s: S.Sender, r: R.Receiver, r': R.Receiver, data: seq<Packet>, acks: seq<Packet>)
    requires Channel(s, r, data, acks) && R.Later(r, r')
    requires R.Follows(Calm(r'), s.isn, SentBytes(s))
    requires (r'.isn.Some? ==> s.synSent) && (r'.reassembler.hasEof ==> s.finSent)
    ensures Channel(s, r', data, acks)
  {
  }

  /** What a packet in the data direction carries for the receiver. */
  lemma DataCarries(p: Packet, s: S.Sender, r: R.Receiver)
    requires S.Accounted(s) && DataOk(p, s, r)
    ensures R.Carries(p.wire, p.src.abs, s.isn, SentBytes(s))
    ensures p.src.syn ==> s.synSent
    ensures p.src.fin ==> s.finSent
  {
  }

  /** A packet reaches the receiver, in any order and any number of times; if it carries data or a FIN, the
      receiver must be able to tell where it belongs. */
  lemma ReceiveMoves(s: S.Sender, r: R.Receiver, data: seq<Packet>, acks: seq<Packet>, p: Packet)
    requires Channel(s, r, data, acks) && p in data && !R.Output(r).error
    requires r.isn.Some? && R.HasContent(p.wire) ==> R.Timely(p.src.abs, r.reassembler.firstUnassembled)
    ensures var r' := R.SegmentReceived(r, p.wire);
            Channel(s, r', data, acks) && R.Later(r, r') && !R.Output(r').error
  {
    assert Calm(r) == r;
    DataCarries(p, s, r);
    R.ReceiveKeeps(r, p.wire, p.src.abs, s.isn, SentBytes(s));
    var r' := R.SegmentReceived(r, p.wire);
    assert Calm(r') == r';
    ReceiverMoves(s, r, r', data, acks);
  }

  /** A packet that covers the number the receiver waits for moves it forward, if there is room. */
  lemma DeliveryAdvances(s: S.Sender, r: R.Receiver, p: Packet)
    requires Agree(s, r) && DataOk(p, s, r) && !R.Output(r).error
    requires r.isn.Some? ==> R.Timely(p.src.abs, r.reassembler.firstUnassembled)
    requires p.src.abs <= R.AbsAck(r) < S.End(p.src)
    requires R.AbsAck(r) > |SentBytes(s)| || R.AbsAck(r) == 0 || R.WindowSize(r) > 0
    ensures R.AbsAck(r) < R.AbsAck(R.SegmentReceived(r, p.wire))
  {
    assert Calm(r) == r;
    DataCarries(p, s, r);
    AckedWasSent(s, r);
    if r.isn.Some? { R.CoveringAdvances(r, p.wire, p.src.abs, s.isn, SentBytes(s)); }
  }

  /** The reader's own actions: reading, and the error flag of an unclean shutdown. */
  lemma ReadMoves(s: S.Sender, r: R.Receiver, data: seq<Packet>, acks: seq<Packet>, len: nat)
    requires Channel(s, r, data, acks)
    ensures var r' := R.WithOutput(r, Read(R.Output(r), len));
            Channel(s, r', data, acks) && R.Later(r, r')
  {
    var r' := R.WithOutput(r, Read(R.Output(r), len));
    if R.Output(r).error {
      assert r' == r;
    } else {
      assert Calm(r) == r && Calm(r') == r';
      R.ReadKeeps(r, s.isn, SentBytes(s), len);
      ReceiverMoves(s, r, r', data, acks);
    }
  }

  lemma ErrorMoves(s: S.Sender, r: R.Receiver, data: seq<Packet>, acks: seq<Packet>)
    requires Channel(s, r, data, acks)
    ensures var r' := R.WithOutput(r, SetError(R.Output(r)));
            Channel(s, r', data, acks) && R.Later(r, r')
  {
    var r' := R.WithOutput(r, SetError(R.Output(r)));
    assert Calm(r') == Calm(r);
    ReceiverMoves(s, r, r', data, acks);
  }

  /** With streams shorter than 2^31 every packet and every acknowledgment is close enough. */
  lemma ShortStreamsAreTimely(s: S.Sender, r: R.Receiver, p: Packet, a: nat)
    requires Agree(s, r) && DataOk(p, s, r) && a <= R.AbsAck(r) && |s.stream.log| + 2 < TWO31
    ensures R.Timely(p.src.abs, r.reassembler.firstUnassembled) && Distance(a, s.absAckno) < TWO31
  {
  }
}
