/** A sender that sends more than 2^32 bytes, a thousand at a time, each acknowledged before the next. */
module LongRuns {
  import opened Words
  import opened SequenceNumbers
  import ByteStreams
  import opened Timers
  import opened Reassembly
  import opened Sending
  import opened SendingRuns

  function ZeroBytes(n: nat): (b: seq<byte>)
    ensures |b| == n
  {
    seq(n, _ => 0)
  }

  /** As many blocks end below 2^32; the next one lies across it. */
  const BLOCKS: nat := 4294967

  /** The segment that carries block `k`, and the number that acknowledges it. */
  function Piece(k: nat): OutSeg { OutSeg(1 + 1000 * k, false, false, false, ZeroBytes(1000)) }

  function AckOf(isn: u32, k: nat): u32
    requires k < TWO33
  {
    Wrap(1001 + 1000 * k, isn)
  }

  predicate Open(s: Sender, isn: u32) {
    && s.isn == isn && s.out == [] && s.synSent && !s.finSent && s.windowSize >= 1000
    && s.rto == s.initialRto == 1000 && s.retx == 0
    && s.stream.capacity == 1000 && !s.stream.inputEnd && !s.stream.error && s.stream.bytesRead == |s.stream.log|
  }

  /** `k` blocks are sent and acknowledged. */
  predicate Drained(s: Sender, isn: u32, k: nat) {
    && Open(s, isn) && s.nextSeqno == s.absAckno == 1 + 1000 * k && |s.stream.log| == 1000 * k
    && s.backup == [] && !s.timer.active
  }

  /** One more is sent. */
  predicate Flying(s: Sender, isn: u32, k: nat) {
    && Open(s, isn) && s.absAckno == 1 + 1000 * k && s.nextSeqno == 1001 + 1000 * k && |s.stream.log| == 1000 * k + 1000
    && s.backup == [Piece(k)] && s.timer == Start(1000)
  }

  /** Write a block, fill the window, and let the segment go. */
  function SendBlock(s: Sender): Sender {
    FillWindow(s.(stream := ByteStreams.Write(s.stream, ZeroBytes(1000)))).(out := [])
  }

  lemma NothingToFill(s: Sender, fill: nat)
    requires ByteStreams.Buffer(s.stream) == [] && !s.stream.inputEnd
    ensures FillLoop(s, fill) == s
  {
    if fill > 0 { assert AfterRead(s, fill) == s && Len(NextSegment(s, fill)) == 0; }
  }

  lemma BlockFlies(s: Sender, isn: u32, k: nat)
    requires Drained(s, isn, k)
    ensures Flying(SendBlock(s), isn, k)
    ensures FillWindow(s.(stream := ByteStreams.Write(s.stream, ZeroBytes(1000)))).out == [Piece(k)]
  {
    var s1 := s.(stream := ByteStreams.Write(s.stream, ZeroBytes(1000)));
    assert ByteStreams.Buffer(s1.stream) == ZeroBytes(1000);
    var fill := FillSize(s1);
    var g := NextSegment(s1, fill);
    assert g == Piece(k);
    var s2 := Emit(AfterRead(s1, fill), g);
    NothingToFill(s2, fill - 1000);
    assert FillWindow(s1) == s2;
  }

  lemma PopsOnly(g: OutSeg, isn: u32, a: nat)
    requires g.abs < TWO32 && a == End(g) && 0 < Len(g) <= 2000
    ensures PopAcked([g], isn, a) == if a < TWO32 then [] else [g]
  {
    SegAckedIff(g, isn, a);
    assert [g][1..] == [];
  }

  lemma MovesTo(s: Sender, a: nat)
    requires s.absAckno < TWO32 && s.absAckno < a <= s.absAckno + 2000 && a <= s.nextSeqno
    ensures NewAckno(s, Wrap(a, s.isn)) == a
  {
    RoundTripIff(a, s.isn, s.absAckno);
  }

  /** The acknowledgment of the only outstanding segment, if it starts below 2^32. */
  lemma AckOfOnly(s: Sender, g: OutSeg, a: nat, win: u16)
    requires s.backup == [g] && g.abs == s.absAckno < TWO32 && a == End(g) == s.nextSeqno && 0 < Len(g) <= 2000
    ensures AckReceived(s, Wrap(a, s.isn), win)
         == s.(absAckno := a, windowSize := win, rto := s.initialRto, retx := 0,
               backup := if a < TWO32 then [] else [g], timer := if a < TWO32 then Stop(s.timer) else s.timer)
  {
    MovesTo(s, a);
    PopsOnly(g, s.isn, a);
  }

  lemma BlockLands(s: Sender, isn: u32, k: nat, win: u16)
    requires Flying(s, isn, k) && k < BLOCKS && win >= 1000
    ensures Drained(AckReceived(s, AckOf(isn, k), win), isn, k + 1)
  {
    AckOfOnly(s, Piece(k), 1001 + 1000 * k, win);
  }

  /** The block across 2^32 is acknowledged like the others, but stays in the queue. */
  predicate Stuck(s: Sender, isn: u32) {
    && Open(s, isn) && s.absAckno == s.nextSeqno == 1001 + 1000 * BLOCKS && |s.stream.log| == 1000 * BLOCKS + 1000
    && s.backup == [Piece(BLOCKS)] && s.timer == Start(1000)
  }

  lemma BlockSticks(s: Sender, isn: u32, win: u16)
    requires Flying(s, isn, BLOCKS) && win >= 1000
    ensures Stuck(AckReceived(s, AckOf(isn, BLOCKS), win), isn)
  {
    AckOfOnly(s, Piece(BLOCKS), 1001 + 1000 * BLOCKS, win);
  }

  lemma SynLands(s: Sender, isn: u32, win: u16)
    requires s == FillWindow(Sending.New(1000, 1000, isn)).(out := []) && win >= 1000
    ensures Drained(AckReceived(s, Wrap(1, isn), win), isn, 0)
  {
    AckOfOnly(s, SYN_SEGMENT, 1, win);
  }

  // Past 2^32

  /** `k` blocks are sent and acknowledged, but the one across 2^32 is still at the front of the queue. */
  predicate Trailing(s: Sender, isn: u32, k: nat) {
    && Open(s, isn) && s.nextSeqno == s.absAckno == 1 + 1000 * k && |s.stream.log| == 1000 * k
    && s.backup != [] && s.backup[0] == Piece(BLOCKS) && s.timer.active
  }

  /** One more is sent. */
  predicate TrailingFlight(s: Sender, isn: u32, k: nat) {
    && Open(s, isn) && s.absAckno == 1 + 1000 * k && s.nextSeqno == 1001 + 1000 * k && |s.stream.log| == 1000 * k + 1000
    && s.backup != [] && s.backup[0] == Piece(BLOCKS) && s.timer.active
  }

  lemma TrailingFlies(s: Sender, isn: u32, k: nat)
    requires Trailing(s, isn, k)
    ensures TrailingFlight(SendBlock(s), isn, k)
    ensures FillWindow(s.(stream := ByteStreams.Write(s.stream, ZeroBytes(1000)))).out == [Piece(k)]
  {
    var s1 := s.(stream := ByteStreams.Write(s.stream, ZeroBytes(1000)));
    assert ByteStreams.Buffer(s1.stream) == ZeroBytes(1000);
    var fill := FillSize(s1);
    var g := NextSegment(s1, fill);
    assert g == Piece(k);
    var s2 := Emit(AfterRead(s1, fill), g);
    NothingToFill(s2, fill - 1000);
    assert FillWindow(s1) == s2;
  }

  /** An acknowledgment of everything, with the front stuck. */
  lemma TrailingAck(s: Sender, a: nat, win: u16)
    requires s.backup != [] && s.backup[0] == Piece(BLOCKS)
    requires TWO32 <= s.absAckno <= a == s.nextSeqno <= s.absAckno + 1000
    requires a < 1001 + 1000 * BLOCKS + TWO32 && a < TWO33
    ensures AckReceived(s, Wrap(a, s.isn), win)
         == s.(absAckno := a, windowSize := win, rto := s.initialRto, retx := 0)
  {
    RoundTripIff(a, s.isn, s.absAckno);
    assert NewAckno(s, Wrap(a, s.isn)) == a;
    NotRecognised(Piece(BLOCKS), s.isn, a);
  }

  lemma TrailingLands(s: Sender, isn: u32, k: nat, win: u16)
    requires TrailingFlight(s, isn, k) && BLOCKS < k && 1001 + 1000 * k < TWO33 && win >= 1000
    ensures Trailing(AckReceived(s, AckOf(isn, k), win), isn, k + 1)
  {
    TrailingAck(s, 1001 + 1000 * k, win);
  }

  /** The timer goes off: the stuck block is sent again. */
  lemma StuckExpires(s: Sender, isn: u32)
    requires Stuck(s, isn)
    ensures TickSender(s, 1000) == s.(out := [Piece(BLOCKS)], retx := 1, rto := 2000, timer := Start(2000))
  {
  }

  // As a run of a sender

  lemma {:induction false} RunJoins(s: Sender, es: seq<Event>, fs: seq<Event>)
    requires RunEnabled(s, es) && RunEnabled(Run(s, es), fs)
    ensures RunEnabled(s, es + fs) && Run(s, es + fs) == Run(Run(s, es), fs)
    decreases |es|
  {
    if es == [] {
      assert es + fs == fs;
    } else {
      assert (es + fs)[1..] == es[1..] + fs;
      RunJoins(Step(s, es[0]), es[1..], fs);
    }
  }

  function Sends(): seq<Event> { [WriteEvent(ZeroBytes(1000)), FillEvent, TakeEvent] }

  lemma SendsBlock(s: Sender)
    requires |s.stream.log| + 1000 <= LIMIT
    ensures RunEnabled(s, Sends()) && Run(s, Sends()) == SendBlock(s)
  {
    var s1 := Step(s, Sends()[0]);
    var s2 := FillWindow(s1);
    assert Sends()[1..] == [FillEvent, TakeEvent] && [FillEvent, TakeEvent][1..] == [TakeEvent];
    assert Run(s2, [TakeEvent]) == s2.(out := []);
    assert RunEnabled(s2, [TakeEvent]) && RunEnabled(s1, [FillEvent, TakeEvent]);
    assert Run(s1, [FillEvent, TakeEvent]) == s2.(out := []);
  }

  lemma OneRuns(s: Sender, e: Event)
    requires Enabled(s, e)
    ensures RunEnabled(s, [e]) && Run(s, [e]) == Step(s, e)
  {
    assert Run(Step(s, e), []) == Step(s, e);
  }

  /** The SYN and `k` blocks, each acknowledged. */
  function Blocks(isn: u32, k: nat): seq<Event>
    requires k <= BLOCKS
  {
    if k == 0 then [FillEvent, TakeEvent, AckEvent(Wrap(1, isn), 1000)]
    else Blocks(isn, k - 1) + (Sends() + [AckEvent(AckOf(isn, k - 1), 1000)])
  }

  lemma {:induction false} BlocksDrain(isn: u32, k: nat)
    requires k <= BLOCKS
    ensures var s := Sending.New(1000, 1000, isn);
            RunEnabled(s, Blocks(isn, k)) && Drained(Run(s, Blocks(isn, k)), isn, k)
  {
    var s0 := Sending.New(1000, 1000, isn);
    if k == 0 {
      var s1 := FillWindow(s0);
      var s2 := s1.(out := []);
      var a := AckEvent(Wrap(1, isn), 1000);
      SynLands(s2, isn, 1000);
      OneRuns(s2, a);
      assert [FillEvent, TakeEvent, a][1..] == [TakeEvent, a] && [TakeEvent, a][1..] == [a];
      assert RunEnabled(s1, [TakeEvent, a]) && Run(s1, [TakeEvent, a]) == Run(s2, [a]);
    } else {
      BlocksDrain(isn, k - 1);
      var s := Run(s0, Blocks(isn, k - 1));
      var a := AckEvent(AckOf(isn, k - 1), 1000);
      SendsBlock(s);
      BlockFlies(s, isn, k - 1);
      BlockLands(SendBlock(s), isn, k - 1, 1000);
      OneRuns(SendBlock(s), a);
      RunJoins(s, Sends(), [a]);
      RunJoins(s0, Blocks(isn, k - 1), Sends() + [a]);
    }
  }

  /** The run that gets stuck. */
  function StickyRun(isn: u32): seq<Event> {
    Blocks(isn, BLOCKS) + (Sends() + [AckEvent(AckOf(isn, BLOCKS), 1000)])
  }

  /** Past 2^32 a sender with nothing in flight may have a queue that is not empty and a timer that
      runs: here after a run of writes and acknowledgments, with no loss at all. */
  lemma QueueSticksAcrossBlock(isn: u32)
    ensures var s0 := Sending.New(1000, 1000, isn);
            var s := Run(s0, StickyRun(isn));
      RunEnabled(s0, StickyRun(isn)) && BytesInFlight(s) == 0 && s.backup != [] && s.timer.active
  {
    var s0 := Sending.New(1000, 1000, isn);
    var s := Run(s0, Blocks(isn, BLOCKS));
    var a := AckEvent(AckOf(isn, BLOCKS), 1000);
    BlocksDrain(isn, BLOCKS);
    SendsBlock(s);
    BlockFlies(s, isn, BLOCKS);
    BlockSticks(SendBlock(s), isn, 1000);
    OneRuns(SendBlock(s), a);
    RunJoins(s, Sends(), [a]);
    RunJoins(s0, Blocks(isn, BLOCKS), Sends() + [a]);
  }
}
