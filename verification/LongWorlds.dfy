/** Two connections over which more than 2^32 bytes pass without any loss, until a segment from below 2^32 is sent
    again and ends up 2^32 too far. A writes zeros, a thousand at a time; B has nothing to say. */
module LongWorlds {
  import opened Words
  import opened SequenceNumbers
  import opened Segments
  import opened Reassembly
  import opened Channels
  import opened Connections
  import opened Endpoints
  import opened Pairs
  import opened Network
  import opened Scenarios
  import opened LongRuns
  import opened LongReceivers
  import LC = LongConnections
  import ByteStreams
  import SendingReach
  import S = Sending
  import R = Receiving

  // B

  const LISTENER: Config := Config(1000, 2000, 1000, 0)

  /** A sender that has sent its SYN and has nothing else to send. */
  predicate Silent(s: S.Sender) {
    && s.isn == 0 && s.out == [] && s.backup == [] && s.nextSeqno == s.absAckno == 1 && s.synSent && !s.finSent
    && s.stream == ByteStreams.Empty(1000)
  }

  lemma StaysSilent(s: S.Sender)
    requires Silent(s)
    ensures Silent(S.AckReceived(s, 1, 1000))
  {
    RoundTripIff(1, 0, 1);
  }

  predicate Listens(c: Conn, k: nat, buffer: seq<Chunk>) {
    c.active && c.lingerAfterStreamsFinish && Silent(c.sender) && Idle(c.receiver, k, buffer)
  }

  /** Block `k` as A sends it, and B's reply to it. */
  function BlockPacket(k: nat): Packet
    requires k <= LAST
  {
    var header := DEFAULT_HEADER.(seqno := Wrap(1 + 1000 * k, 0), ack := true, ackno := 1, win := 1000);
    Packet(Piece(k), 1, TCPSegment(header, ZeroBytes(1000)))
  }

  function Reply(k: nat, win: u16): Packet
    requires k <= LAST
  {
    Packet(S.OutSeg(1, false, false, false, []), 1001 + 1000 * k,
           TCPSegment(DEFAULT_HEADER.(seqno := 1, ack := true, ackno := AckOf(0, k), win := win), []))
  }

  lemma IsReply(c: Conn, k: nat, buffer: seq<Chunk>, win: u16)
    requires Silent(c.sender) && Holds(c.receiver, k + 1, buffer) && win == AdvertisedWindow(c.receiver)
    ensures ToPacket(c, LC.Nothing(c.sender)) == Reply(k, win)
  {
  }

  /** B has taken the block in; its reader has not read it yet. */
  predicate Holding(c: Conn, k: nat, buffer: seq<Chunk>) {
    && c.active && c.lingerAfterStreamsFinish && Silent(c.sender)
    && Holds(c.receiver, k + 1, buffer) && R.Output(c.receiver).bytesRead == 1000 * k
  }

  lemma HearsBlock(c: Conn, k: nat, buffer: seq<Chunk>)
    requires Listens(c, k, buffer) && k < LAST && (buffer == [] || buffer == [FAR])
    ensures var c' := SegmentReceived(c, BlockPacket(k).wire);
            Holding(c', k, buffer) && c'.sent == c.sent + [Reply(k, 1000)]
  {
    var c' := SegmentReceived(c, BlockPacket(k).wire);
    LC.TakesAck(c, BlockPacket(k).wire);
    StaysSilent(c.sender);
    TakesBlock(c.receiver, k, buffer, BlockPacket(k).wire);
    IsReply(c', k, buffer, 1000);
  }

  lemma ReaderReads(c: Conn, k: nat, buffer: seq<Chunk>)
    requires Holding(c, k, buffer)
    ensures var c' := Connections.Read(c, 1000);
            Listens(c', k + 1, buffer) && c'.sent == c.sent
  {
    ReadsBlock(c.receiver, k, buffer);
  }

  /** The block from below 2^32 comes again. */
  lemma HearsOldBlock(c: Conn)
    requires Listens(c, BLOCKS + 1, [])
    ensures var c' := SegmentReceived(c, BlockPacket(BLOCKS).wire);
            Listens(c', BLOCKS + 1, [FAR]) && c'.sent == c.sent + [Reply(BLOCKS, 2000)]
  {
    var c' := SegmentReceived(c, BlockPacket(BLOCKS).wire);
    LC.TakesAck(c, BlockPacket(BLOCKS).wire);
    StaysSilent(c.sender);
    TakesOldBlock(c.receiver, BlockPacket(BLOCKS).wire);
    IsReply(c', BLOCKS, [FAR], 2000);
  }

  // A

  lemma IsBlockPacket(c: Conn, k: nat)
    requires c.receiver == LC.LISTENED && c.sender.isn == 0 && k <= LAST
    ensures ToPacket(c, Piece(k)) == BlockPacket(k)
  {
    assert Wrap(1, 0) == 1;
  }

  lemma HearsReply(c: Conn, k: nat, win: u16)
    requires c.active && c.lingerAfterStreamsFinish && c.receiver == LC.LISTENED && c.sender.out == []
    requires k <= LAST && win >= 1000
    ensures var c' := SegmentReceived(c, Reply(k, win).wire);
      && c'.active && c'.lingerAfterStreamsFinish && c'.receiver == LC.LISTENED
      && c'.sender == S.AckReceived(c.sender, AckOf(0, k), win)
  {
    LC.TakesAck(c, Reply(k, win).wire);
    LC.HearsAck(Reply(k, win).wire);
  }

  lemma WritesSteady(c: Conn, k: nat)
    requires LC.Steady(c, 0, k) && k <= LAST
    ensures var c' := Connections.Write(c, ZeroBytes(1000));
            LC.Waiting(c', 0, k) && c'.sent == c.sent + [BlockPacket(k)]
  {
    LC.SendsOne(c, 0, k);
    BlockFlies(c.sender, 0, k);
    LC.SendsPiece(c, Piece(k));
    IsBlockPacket(c, k);
  }

  /** The block across 2^32 is acknowledged and stays in the queue. */
  predicate StuckAtA(c: Conn) {
    c.active && c.lingerAfterStreamsFinish && c.receiver == LC.LISTENED && Stuck(c.sender, 0)
  }

  /** The stuck block is sent again. */
  predicate Resent(c: Conn) {
    && c.active && c.lingerAfterStreamsFinish && c.receiver == LC.LISTENED && c.sender.out == []
    && c.sender.isn == 0 && c.sender.synSent && !c.sender.finSent && c.sender.initialRto == 1000
    && c.sender.absAckno == c.sender.nextSeqno == 1001 + 1000 * BLOCKS && c.sender.backup == [Piece(BLOCKS)]
    && c.sender.timer.active && c.sender.stream.capacity == 1000 && !c.sender.stream.inputEnd && !c.sender.stream.error
    && c.sender.stream.bytesRead == |c.sender.stream.log| == 1000 * BLOCKS + 1000
  }

  lemma TicksOut(c: Conn)
    requires StuckAtA(c)
    ensures var c' := Connections.Tick(c, 1000);
            Resent(c') && c'.sent == c.sent + [BlockPacket(BLOCKS)]
  {
    StuckExpires(c.sender, 0);
    var c1 := AfterSenderTick(c, 1000);
    NothingToFill(c1.sender, S.FillSize(c1.sender));
    assert S.FillWindow(c1.sender) == c1.sender;
    IsBlockPacket(c1, BLOCKS);
    assert TickTail(c1).sent == c.sent + [BlockPacket(BLOCKS)];
  }

  /** Past 2^32, with the stuck block in front. */
  predicate Late(c: Conn, k: nat) {
    c.active && c.lingerAfterStreamsFinish && c.receiver == LC.LISTENED && Trailing(c.sender, 0, k)
  }

  predicate LateFlight(c: Conn, k: nat) {
    c.active && c.lingerAfterStreamsFinish && c.receiver == LC.LISTENED && TrailingFlight(c.sender, 0, k)
  }

  lemma LateAgain(c: Conn)
    requires Resent(c)
    ensures Late(SegmentReceived(c, Reply(BLOCKS, 2000).wire), BLOCKS + 1)
  {
    HearsReply(c, BLOCKS, 2000);
    TrailingAck(c.sender, 1001 + 1000 * BLOCKS, 2000);
  }

  lemma WritesLate(c: Conn, k: nat)
    requires Late(c, k) && k <= LAST
    ensures var c' := Connections.Write(c, ZeroBytes(1000));
            LateFlight(c', k) && c'.sent == c.sent + [BlockPacket(k)]
  {
    LC.WritesBlock(c);
    TrailingFlies(c.sender, 0, k);
    LC.SendsPiece(c, Piece(k));
    IsBlockPacket(c, k);
  }

  lemma LateLands(c: Conn, k: nat)
    requires LateFlight(c, k) && BLOCKS < k < LAST
    ensures Late(SegmentReceived(c, Reply(k, 1000).wire), k + 1)
  {
    HearsReply(c, k, 1000);
    TrailingLands(c.sender, 0, k, 1000);
  }

  /** One more byte, and not a zero. */
  lemma WritesOne(c: Conn)
    requires LateFlight(c, LAST)
    ensures var log := Connections.Write(c, [1]).sender.stream.log;
            |log| == 1000 * LAST + 1001 && log[1000 * LAST + 1000] == 1
  {
    var s := c.sender.(stream := ByteStreams.Write(c.sender.stream, [1]));
    assert s.stream.log == c.sender.stream.log + [1];
    SendingReach.FillLoopTakes(s, S.FillSize(s));
  }

  // Which deliveries are harmless

  lemma BlockDeliverable(c: Conn, d: Conn, k: nat, buffer: seq<Chunk>)
    requires Listens(c, k, buffer) && d.receiver == LC.LISTENED
    ensures Deliverable(c, d, BlockPacket(k))
  {
  }

  lemma ReplyDeliverable(c: Conn, d: Conn, k: nat, win: u16, buffer: seq<Chunk>)
    requires c.sender.nextSeqno == 1001 + 1000 * k && 1 + 1000 * k <= c.sender.absAckno <= 1001 + 1000 * k
    requires !c.sender.stream.inputEnd && ByteStreams.Buffer(c.sender.stream) == []
    requires Listens(d, k + 1, buffer) && 1000 <= win <= 2000
    ensures Deliverable(c, d, Reply(k, win))
  {
  }

  // The steps of the run, seen from both sides

  /** B takes in a block that A has sent. */
  lemma BlockIsHeard(w0: World, w: World, k: nat, buffer: seq<Chunk>) returns (w': World)
    requires Leads(w0, w) && Listens(w.b.c, k, buffer) && k < LAST && (buffer == [] || buffer == [FAR])
    requires BlockPacket(k) in w.a.c.sent && w.a.c.receiver == LC.LISTENED
    ensures Leads(w0, w') && w'.a == w.a && Holding(w'.b.c, k, buffer) && Reply(k, 1000) in w'.b.c.sent
  {
    var c := SegmentReceived(w.b.c, BlockPacket(k).wire);
    BlockDeliverable(w.b.c, w.a.c, k, buffer);
    HearsBlock(w.b.c, k, buffer);
    assert c.sent[|w.b.c.sent|] == Reply(k, 1000);
    w' := PacketAtB(w0, w, BlockPacket(k), c);
  }

  /** And the reader reads it. */
  lemma BlockArrives(w0: World, w: World, k: nat, buffer: seq<Chunk>) returns (w': World)
    requires Leads(w0, w) && Listens(w.b.c, k, buffer) && k < LAST && (buffer == [] || buffer == [FAR])
    requires BlockPacket(k) in w.a.c.sent && w.a.c.receiver == LC.LISTENED
    ensures Leads(w0, w') && w'.a == w.a && Listens(w'.b.c, k + 1, buffer) && Reply(k, 1000) in w'.b.c.sent
  {
    w' := BlockIsHeard(w0, w, k, buffer);
    ReaderReads(w'.b.c, k, buffer);
    w' := CallAtB(w0, w', ReadCall(1000), Connections.Read(w'.b.c, 1000));
  }

  ghost predicate Early(w0: World, w: World, k: nat) {
    Leads(w0, w) && LC.Steady(w.a.c, 0, k) && Listens(w.b.c, k, [])
  }

  /** Block `k` has arrived at B, and A has not heard of it yet. */
  ghost predicate InBetween(w0: World, w: World, k: nat) {
    && k <= BLOCKS && Leads(w0, w) && LC.Waiting(w.a.c, 0, k) && Listens(w.b.c, k + 1, [])
    && Reply(k, 1000) in w.b.c.sent
  }

  lemma EarlyBlock(w0: World, w: World, k: nat) returns (w': World)
    requires Early(w0, w, k) && k <= BLOCKS
    ensures InBetween(w0, w', k)
  {
    var c := Connections.Write(w.a.c, ZeroBytes(1000));
    WritesSteady(w.a.c, k);
    w' := CallAtA(w0, w, WriteCall(ZeroBytes(1000)), c);
    assert c.sent[|w.a.c.sent|] == BlockPacket(k);
    w' := BlockArrives(w0, w', k, []);
  }

  lemma EarlyRound(w0: World, w: World, k: nat) returns (w': World)
    requires InBetween(w0, w, k) && k < BLOCKS
    ensures Early(w0, w', k + 1)
  {
    ReplyDeliverable(w.a.c, w.b.c, k, 1000, []);
    LC.SteadyAgain(w.a.c, 0, k, Reply(k, 1000).wire);
    w' := PacketAtA(w0, w, Reply(k, 1000), SegmentReceived(w.a.c, Reply(k, 1000).wire));
  }

  lemma {:induction false} EarlyRounds(w0: World, w: World, k: nat) returns (w': World)
    requires Early(w0, w, k) && k <= BLOCKS
    ensures Early(w0, w', BLOCKS)
    decreases BLOCKS - k
  {
    if k == BLOCKS {
      w' := w;
    } else {
      w' := EarlyBlock(w0, w, k);
      w' := EarlyRound(w0, w', k);
      w' := EarlyRounds(w0, w', k + 1);
    }
  }

  /** The block across 2^32: it arrives, and its acknowledgment arrives. */
  lemma Sticks(w0: World, w: World) returns (w': World)
    requires InBetween(w0, w, BLOCKS)
    ensures Leads(w0, w') && StuckAtA(w'.a.c) && Listens(w'.b.c, BLOCKS + 1, [])
  {
    var q := Reply(BLOCKS, 1000);
    ReplyDeliverable(w.a.c, w.b.c, BLOCKS, 1000, []);
    HearsReply(w.a.c, BLOCKS, 1000);
    BlockSticks(w.a.c.sender, 0, 1000);
    w' := PacketAtA(w0, w, q, SegmentReceived(w.a.c, q.wire));
  }

  /** A's timer goes off although everything is acknowledged, and what A sends is `p`. */
  predicate Resends(w: World, w': World, p: Packet) {
    && S.BytesInFlight(w.a.c.sender) == 0 && w' == Next(w, Event(true, Local(TickCall(1000))))
    && w'.a.c.sent == w.a.c.sent + [p]
  }

  lemma Expires(w0: World, w: World) returns (w': World)
    requires Leads(w0, w) && StuckAtA(w.a.c) && Listens(w.b.c, BLOCKS + 1, [])
    ensures Leads(w0, w') && Resent(w'.a.c) && Listens(w'.b.c, BLOCKS + 1, []) && Resends(w, w', BlockPacket(BLOCKS))
  {
    var c := Connections.Tick(w.a.c, 1000);
    TicksOut(w.a.c);
    w' := CallAtA(w0, w, TickCall(1000), c);
  }

  ghost predicate Onward(w0: World, w: World, k: nat) {
    Leads(w0, w) && Late(w.a.c, k) && Listens(w.b.c, k, [FAR])
  }

  lemma OnwardRound(w0: World, w: World, k: nat) returns (w': World)
    requires Onward(w0, w, k) && BLOCKS < k < LAST
    ensures Onward(w0, w', k + 1)
  {
    var c := Connections.Write(w.a.c, ZeroBytes(1000));
    WritesLate(w.a.c, k);
    w' := CallAtA(w0, w, WriteCall(ZeroBytes(1000)), c);
    assert c.sent[|w.a.c.sent|] == BlockPacket(k);
    w' := BlockArrives(w0, w', k, [FAR]);
    ReplyDeliverable(c, w'.b.c, k, 1000, [FAR]);
    LateLands(c, k);
    w' := PacketAtA(w0, w', Reply(k, 1000), SegmentReceived(c, Reply(k, 1000).wire));
  }

  lemma {:induction false} OnwardRounds(w0: World, w: World, k: nat) returns (w': World)
    requires Onward(w0, w, k) && BLOCKS < k <= LAST
    ensures Onward(w0, w', LAST)
    decreases LAST - k
  {
    if k == LAST {
      w' := w;
    } else {
      w' := OnwardRound(w0, w, k);
      w' := OnwardRounds(w0, w', k + 1);
    }
  }

  /** The place where what B's reader is given first differs from what A has written. */
  const WRONG_AT: nat := 1000 * LAST + 1000

  lemma LastBlock(w0: World, w: World) returns (w': World)
    requires Onward(w0, w, LAST)
    ensures Leads(w0, w') && LateFlight(w'.a.c, LAST)
    ensures |Arrived(w'.b).log| > WRONG_AT && Arrived(w'.b).log[WRONG_AT] == 0
  {
    var c := Connections.Write(w.a.c, ZeroBytes(1000));
    WritesLate(w.a.c, LAST);
    w' := CallAtA(w0, w, WriteCall(ZeroBytes(1000)), c);
    assert c.sent[|w.a.c.sent|] == BlockPacket(LAST);
    BlockDeliverable(w.b.c, c, LAST, [FAR]);
    LC.TakesAck(w.b.c, BlockPacket(LAST).wire);
    TakesLastBlock(w.b.c.receiver, BlockPacket(LAST).wire);
    w' := PacketAtB(w0, w', BlockPacket(LAST), SegmentReceived(w.b.c, BlockPacket(LAST).wire));
  }

  predicate WrongAt(w: World, i: nat) {
    i < |Arrived(w.b).log| && i < |Written(w.a).log| && Arrived(w.b).log[i] != Written(w.a).log[i]
  }

  lemma LastByte(w0: World, w: World) returns (w': World)
    requires Leads(w0, w) && LateFlight(w.a.c, LAST)
    requires |Arrived(w.b).log| > WRONG_AT && Arrived(w.b).log[WRONG_AT] == 0
    ensures Leads(w0, w') && WrongAt(w', WRONG_AT)
  {
    WritesOne(w.a.c);
    w' := CallAtA(w0, w, WriteCall([1]), Connections.Write(w.a.c, [1]));
  }

  // The handshake

  const GREETING: Packet := Packet(S.SYN_SEGMENT, 0, TCPSegment(DEFAULT_HEADER.(syn := true, win := 1000), []))
  const GREETING_BACK: Packet :=
    Packet(S.SYN_SEGMENT, 1, TCPSegment(DEFAULT_HEADER.(syn := true, ack := true, ackno := 1, win := 2000), []))
  const THANKS: Packet :=
    Packet(S.OutSeg(1, false, false, false, []), 1,
           TCPSegment(DEFAULT_HEADER.(seqno := 1, ack := true, ackno := 1, win := 1000), []))

  /** A sender whose SYN is on its way. */
  const GREETED: S.Sender := S.FillWindow(S.New(1000, 1000, 0)).(out := [])

  predicate Calls(c: Conn) {
    && c == Connections.New(LC.Settings(0)).(sender := GREETED, sent := c.sent)
    && GREETING in c.sent
  }

  lemma AConnects()
    ensures Calls(Connections.Connect(Connections.New(LC.Settings(0))))
  {
    LC.Connects(0);
    var c := Connections.Connect(Connections.New(LC.Settings(0)));
    assert c.sent == [GREETING];
    assert c.sent[0] == GREETING;
  }

  /** B's sender once its SYN is on its way. */
  predicate Greets(s: S.Sender) {
    && s.isn == 0 && s.out == [] && s.backup == [S.SYN_SEGMENT] && s.nextSeqno == 1 && s.absAckno == 0
    && s.synSent && !s.finSent && s.stream == ByteStreams.Empty(1000)
  }

  predicate Answered(c: Conn) {
    && c.active && c.lingerAfterStreamsFinish && Greets(c.sender) && Idle(c.receiver, 0, [])
    && c.sent == [GREETING_BACK]
  }

  lemma BAnswers()
    ensures Answered(SegmentReceived(Connections.New(LISTENER), GREETING.wire))
  {
    var r := R.SegmentReceived(R.New(2000), GREETING.wire);
    assert Idle(r, 0, []);
    assert R.AbsAck(r) == 1 && r.ackno == Some(1);
  }

  lemma IsThanks(c: Conn)
    requires LC.Steady(c, 0, 0)
    ensures ToPacket(c, LC.Nothing(c.sender)) == THANKS
  {
  }

  lemma AHears(c: Conn, seg: TCPSegment)
    requires Calls(c) && LC.FromPeer(seg, 0, true, false, 1)
    ensures var c' := SegmentReceived(c, seg);
            LC.Steady(c', 0, 0) && THANKS in c'.sent
  {
    var c' := SegmentReceived(c, seg);
    assert LC.Steady(c', 0, 0) && c'.sent == c.sent + [ToPacket(c', LC.Nothing(c'.sender))] by {
      LC.Established(c, 0, seg);
    }
    IsThanks(c');
    assert c'.sent[|c.sent|] == THANKS;
  }

  lemma FallsSilent(s: S.Sender)
    requires Greets(s)
    ensures Silent(S.AckReceived(s, 1, 1000))
  {
    AckOfOnly(s, S.SYN_SEGMENT, 1, 1000);
  }

  lemma BHears(c: Conn, seg: TCPSegment)
    requires Answered(c) && LC.FromPeer(seg, 1, false, false, 1) && seg.header.win == 1000
    ensures Listens(SegmentReceived(c, seg), 0, [])
  {
    assert Idle(R.SegmentReceived(c.receiver, seg), 0, []) by { TakesNothing(c.receiver, 0, seg); }
    assert Silent(S.AckReceived(c.sender, seg.header.ackno, seg.header.win)) by { FallsSilent(c.sender); }
    LC.TakesAck(c, seg);
  }

  lemma GreetingsDeliverable(a: Conn, b: Conn)
    requires a.receiver.isn.None? && a.sender == GREETED && Answered(b)
    ensures Deliverable(a, b, GREETING_BACK)
  {
  }

  lemma ThanksDeliverable(a: Conn, b: Conn)
    requires LC.Steady(a, 0, 0) && Answered(b)
    ensures Deliverable(b, a, THANKS)
  {
  }

  lemma Handshake(w0: World, w: World) returns (w': World)
    requires Leads(w0, w) && w.a.c == Connections.New(LC.Settings(0)) && w.b.c == Connections.New(LISTENER)
    ensures Early(w0, w', 0)
  {
    AConnects();
    w' := CallAtA(w0, w, ConnectCall, Connections.Connect(w.a.c));
    BAnswers();
    w' := PacketAtB(w0, w', GREETING, SegmentReceived(w.b.c, GREETING.wire));
    AHears(w'.a.c, GREETING_BACK.wire);
    GreetingsDeliverable(w'.a.c, w'.b.c);
    w' := PacketAtA(w0, w', GREETING_BACK, SegmentReceived(w'.a.c, GREETING_BACK.wire));
    BHears(w'.b.c, THANKS.wire);
    ThanksDeliverable(w'.a.c, w'.b.c);
    w' := PacketAtB(w0, w', THANKS, SegmentReceived(w'.b.c, THANKS.wire));
  }

  // The whole run

  /** `p` is a data segment from below 2^32, on its way to a receiver past it, and that is all that is wrong with it:
      it is less than 2^31 away, and its acknowledgment is harmless. */
  predicate ComesBack(c: Conn, d: Conn, p: Packet) {
    && c.active && c.receiver.isn.Some? && R.HasContent(p.wire) && p.wire.header.ack && !p.wire.header.rst
    && p.src.abs < TWO32 <= c.receiver.reassembler.firstUnassembled < p.src.abs + TWO31
    && Harmless(c.sender, d.receiver, p.ackAbs, p.wire.header.win)
  }

  lemma OldBlockComesBack(c: Conn, d: Conn)
    requires Listens(c, BLOCKS + 1, []) && d.receiver == LC.LISTENED
    ensures ComesBack(c, d, BlockPacket(BLOCKS))
  {
  }

  /** Everything up to the expiry of A's timer. */
  lemma Before() returns (v: World, w: World)
    ensures Reachable(v) && Reachable(w) && Resends(v, w, BlockPacket(BLOCKS))
    ensures Resent(w.a.c) && Listens(w.b.c, BLOCKS + 1, [])
  {
    var w0 := Init(LC.Settings(0), LISTENER);
    LeadsToItself(w0);
    v := Handshake(w0, w0);
    v := EarlyRounds(w0, v, 0);
    v := EarlyBlock(w0, v, BLOCKS);
    v := Sticks(w0, v);
    w := Expires(w0, v);
    LeadsIsReachable(LC.Settings(0), LISTENER, v);
    LeadsIsReachable(LC.Settings(0), LISTENER, w);
  }

  /** Everything after the arrival of the old block. */
  lemma After(w0: World) returns (w: World)
    requires Resent(w0.a.c) && Listens(w0.b.c, BLOCKS + 1, [FAR]) && Reply(BLOCKS, 2000) in w0.b.c.sent
    ensures Leads(w0, w) && WrongAt(w, WRONG_AT)
  {
    LeadsToItself(w0);
    ReplyDeliverable(w0.a.c, w0.b.c, BLOCKS, 2000, [FAR]);
    LateAgain(w0.a.c);
    w := PacketAtA(w0, w0, Reply(BLOCKS, 2000), SegmentReceived(w0.a.c, Reply(BLOCKS, 2000).wire));
    w := OnwardRounds(w0, w, BLOCKS + 1);
    w := LastBlock(w0, w);
    w := LastByte(w0, w);
  }

  lemma OldBlockArrives(w: World)
    requires Listens(w.b.c, BLOCKS + 1, [])
    ensures var w' := Next(w, Event(false, Deliver(BlockPacket(BLOCKS))));
            w'.a == w.a && Listens(w'.b.c, BLOCKS + 1, [FAR]) && Reply(BLOCKS, 2000) in w'.b.c.sent
  {
    var w' := Next(w, Event(false, Deliver(BlockPacket(BLOCKS))));
    DeliverIsReceive(w, BlockPacket(BLOCKS));
    HearsOldBlock(w.b.c);
    assert w'.b.c.sent[|w.b.c.sent|] == Reply(BLOCKS, 2000);
  }

  /** One segment from below 2^32 is enough. In a run in which everything arrives once and in order, the sender
      sends such a segment again by itself. From there it and harmless steps lead to a world in which the reader
      at B has been given a byte that A did not write at that place. */
  lemma OldSegmentCorrupts()
    ensures exists v, w, p, w', i ::
      && Reachable(v) && Reachable(w) && Resends(v, w, p) && ComesBack(w.b.c, w.a.c, p)
      && Leads(Next(w, Event(false, Deliver(p))), w') && WrongAt(w', i)
  {
    var v, w := Before();
    var p := BlockPacket(BLOCKS);
    OldBlockComesBack(w.b.c, w.a.c);
    OldBlockArrives(w);
    var w' := After(Next(w, Event(false, Deliver(p))));
    assert WrongAt(w', WRONG_AT);
  }
}
