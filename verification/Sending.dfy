/** The sending half of a TCP connection (libsponge/tcp_sender.cc). */
module Sending {
  import opened Words
  import opened SequenceNumbers
  import opened ByteStreams
  import opened Segments
  import opened Timers
  import opened Reassembly

  const MAX_PAYLOAD_SIZE: nat := 1000

  /** A segment made by the sender, together with the absolute number of its first position. The
      number itself is not on the wire: `Wire` shows what is. */
  datatype OutSeg = OutSeg(abs: nat, syn: bool, fin: bool, rst: bool, payload: seq<byte>)

  function Len(g: OutSeg): nat {
    |g.payload| + Count(g.syn) + Count(g.fin)
  }

  function End(g: OutSeg): nat { g.abs + Len(g) }

  function Wire(isn: u32, g: OutSeg): TCPSegment {
    TCPSegment(DEFAULT_HEADER.(seqno := Wrap(g.abs, isn), syn := g.syn, fin := g.fin, rst := g.rst), g.payload)
  }

  datatype Sender = Sender(
    isn: u32,
    out: seq<OutSeg>,
    backup: seq<OutSeg>,
    initialRto: u16,
    rto: u32,
    retx: nat,
    stream: Stream,
    nextSeqno: nat,
    absAckno: nat,
    windowSize: u16,
    synSent: bool,
    finSent: bool,
    timer: TimerData)

  function New(capacity: nat, rto: u16, isn: u32): Sender {
    Sender(isn, [], [], rto, rto, 0, Empty(capacity), 0, 0, 1, false, false, STOPPED)
  }

  function BytesInFlight(s: Sender): int { s.nextSeqno - s.absAckno }

  /** Push a new segment onto both queues and start the timer if it is stopped. */
  function Emit(s: Sender, g: OutSeg): Sender {
    s.(out := s.out + [g],
       backup := s.backup + [g],
       timer := if s.timer.active then s.timer else Start(s.rto),
       nextSeqno := s.nextSeqno + Len(g),
       synSent := s.synSent || g.syn,
       finSent := s.finSent || g.fin)
  }

  /** The window the sender fills: the peer's, but never less than one. */
  function Window(s: Sender): nat { Max(s.windowSize, 1) }

  function FillSize(s: Sender): nat {
    if Window(s) > BytesInFlight(s) then Window(s) - BytesInFlight(s) else 0
  }

  function ReadSize(fill: nat): nat {
    if fill > MAX_PAYLOAD_SIZE then MAX_PAYLOAD_SIZE else fill
  }

  function NextSegment(s: Sender, fill: nat): OutSeg {
    var payload := Taken(s.stream, ReadSize(fill));
    OutSeg(s.nextSeqno, false, fill > |payload| && Eof(Read(s.stream, ReadSize(fill))), false, payload)
  }

  function AfterRead(s: Sender, fill: nat): Sender {
    s.(stream := Read(s.stream, ReadSize(fill)))
  }

  function FillLoop(s: Sender, fill: nat): Sender
    decreases fill
  {
    if fill == 0 || s.finSent || !s.synSent then s
    else
      var g := NextSegment(s, fill);
      if Len(g) == 0 then AfterRead(s, fill)
      else FillLoop(Emit(AfterRead(s, fill), g), fill - Len(g))
  }

  const SYN_SEGMENT: OutSeg := OutSeg(0, true, false, false, [])

  function FillWindow(s: Sender): Sender {
    if !s.synSent then Emit(s, SYN_SEGMENT.(abs := s.nextSeqno)) else FillLoop(s, FillSize(s))
  }

  predicate SegAcked(g: OutSeg, isn: u32, absAckno: nat) {
    Unwrap(Wrap(g.abs, isn), isn, absAckno) + Len(g) <= absAckno
  }

  function PopAcked(q: seq<OutSeg>, isn: u32, absAckno: nat): seq<OutSeg> {
    if q != [] && SegAcked(q[0], isn, absAckno) then PopAcked(q[1..], isn, absAckno) else q
  }

  /** Where an acknowledgment moves the left edge of the window. */
  function NewAckno(s: Sender, ackno: u32): nat {
    var a := Unwrap(ackno, s.isn, s.absAckno);
    if s.absAckno < a <= s.nextSeqno then a else s.absAckno
  }

  function AckReceived(s: Sender, ackno: u32, win: u16): Sender {
    var a := NewAckno(s, ackno);
    var q := PopAcked(s.backup, s.isn, a);
    var timer :=
      if q == [] then Stop(s.timer)
      else if |q| < |s.backup| then Start(s.initialRto)
      else s.timer;
    s.(absAckno := a, windowSize := win, backup := q, timer := timer, rto := s.initialRto, retx := 0)
  }

  /** When the timer expires, the oldest outstanding segment is sent again. */
  function TickSender(s: Sender, ms: nat): Sender {
    var timer := Tick(s.timer, ms);
    if !timer.expired then s.(timer := timer)
    else
      var backsOff := s.windowSize != 0;
      var rto := if backsOff then To32(s.rto * 2) else s.rto;
      s.(out := s.out + s.backup[..Min(1, |s.backup|)],
         retx := if backsOff then s.retx + 1 else s.retx,
         rto := rto,
         timer := Start(rto))
  }

  function SendEmpty(s: Sender, rst: bool): Sender {
    s.(out := s.out + [OutSeg(s.nextSeqno, false, false, rst, [])])
  }

  // ---------------------------------------------------------------------------------------
  // What every sender keeps, whatever acknowledgments arrive.

  /** The segments of `q` follow each other without a gap from `lo` to `hi`. */
  predicate Chain(q: seq<OutSeg>, lo: nat, hi: nat) {
    if q == [] then lo == hi
    else q[0].abs == lo && Len(q[0]) >= 1 && Chain(q[1..], End(q[0]), hi)
  }

  function Front(q: seq<OutSeg>, hi: nat): nat {
    if q == [] then hi else q[0].abs
  }

  /** `_next_seqno` counts the SYN, the bytes taken from the stream, and the FIN. */
  predicate Accounted(s: Sender) {
    && s.nextSeqno == Count(s.synSent) + s.stream.bytesRead + Count(s.finSent)
    && (s.finSent ==> Eof(s.stream))
    && (!s.synSent ==> !s.finSent && s.stream.bytesRead == 0)
    && |s.stream.log| <= LIMIT
  }

  /** The retransmission queue covers everything from the first unacknowledged number on. */
  predicate Queued(s: Sender) {
    && Front(s.backup, s.nextSeqno) <= s.absAckno <= s.nextSeqno
    && Chain(s.backup, Front(s.backup, s.nextSeqno), s.nextSeqno)
    && BytesInFlight(s) <= 0xffff
  }

  /** Running exactly while something is outstanding, and never left expired. */
  predicate Timed(s: Sender) {
    && (s.timer.active <==> s.backup != [])
    && !s.timer.expired
  }

  /** `g` says what the stream says: a SYN alone at 0, a slice of the stream at its place, a FIN
      right behind the last byte. */
  predicate Genuine(g: OutSeg, s: Sender) {
    && End(g) <= s.nextSeqno
    && |g.payload| <= MAX_PAYLOAD_SIZE
    && (g.syn ==> g.abs == 0 && g.payload == [] && !g.fin)
    && (g.payload != [] ==> g.abs >= 1 && SliceOf(s.stream.log, g.payload, g.abs - 1))
    && (g.fin ==> s.finSent && s.stream.inputEnd && g.abs >= 1 && g.abs - 1 + |g.payload| == |s.stream.log|)
  }

  ghost predicate AllGenuine(s: Sender) {
    && (forall g :: g in s.out ==> Genuine(g, s))
    && (forall g :: g in s.backup ==> Genuine(g, s) && !g.rst)
  }

  ghost predicate Inv(s: Sender) {
    Accounted(s) && Queued(s) && Timed(s) && AllGenuine(s)
  }

  /** `s'` is a later state of the same sender. */
  predicate Later(s: Sender, s': Sender) {
    && s.isn == s'.isn && s.initialRto == s'.initialRto
    && s.nextSeqno <= s'.nextSeqno && s.absAckno <= s'.absAckno
    && s.stream.log <= s'.stream.log && s.stream.bytesRead <= s'.stream.bytesRead
    && (s.stream.inputEnd ==> s'.stream.inputEnd && s'.stream.log == s.stream.log)
    && (s.synSent ==> s'.synSent)
    && (s.finSent ==> s'.finSent && s'.nextSeqno == s.nextSeqno)
  }

  lemma GenuineLater(g: OutSeg, s: Sender, s': Sender)
    requires Genuine(g, s) && Later(s, s')
    ensures Genuine(g, s')
  {
  }

  lemma {:induction false} ChainAppend(q: seq<OutSeg>, lo: nat, hi: nat, g: OutSeg)
    requires Chain(q, lo, hi) && g.abs == hi && Len(g) >= 1
    ensures Chain(q + [g], lo, End(g))
  {
    if q == [] {
      assert q + [g] == [g];
    } else {
      ChainAppend(q[1..], End(q[0]), hi, g);
      assert (q + [g])[1..] == q[1..] + [g];
    }
  }

  /** Sending a segment that continues the sequence keeps the queue and the timer in order. */
  lemma EmitQueued(s: Sender, g: OutSeg)
    requires Queued(s) && Timed(s) && g.abs == s.nextSeqno && Len(g) >= 1 && BytesInFlight(s) + Len(g) <= 0xffff
    ensures Queued(Emit(s, g)) && Timed(Emit(s, g))
  {
    ChainAppend(s.backup, Front(s.backup, s.nextSeqno), s.nextSeqno, g);
  }

  lemma EmitGenuine(s: Sender, s': Sender, g: OutSeg)
    requires AllGenuine(s) && Later(s, Emit(s', g)) && s'.out == s.out && s'.backup == s.backup
    requires Genuine(g, Emit(s', g)) && !g.rst
    ensures AllGenuine(Emit(s', g))
  {
  }

  /** What one round of the fill loop reads and sends. */
  lemma NextSegmentGenuine(s: Sender, fill: nat)
    requires Accounted(s) && s.synSent && !s.finSent
    ensures var g := NextSegment(s, fill);
            var e := Emit(AfterRead(s, fill), g);
            Len(g) <= fill && Accounted(e) && Later(s, e) && Genuine(g, e)
  {
    var g := NextSegment(s, fill);
    var n := s.stream.bytesRead;
    assert g.payload == s.stream.log[n..n + |g.payload|];
  }

  lemma FillStepKeeps(s: Sender, fill: nat)
    requires Inv(s) && s.synSent && !s.finSent && 0 < fill && BytesInFlight(s) + fill <= 0xffff
    ensures var g := NextSegment(s, fill);
            var e := Emit(AfterRead(s, fill), g);
            Len(g) <= fill && (if Len(g) == 0 then AfterRead(s, fill) == s else Inv(e) && Later(s, e))
  {
    var g := NextSegment(s, fill);
    NextSegmentGenuine(s, fill);
    if Len(g) > 0 {
      EmitQueued(AfterRead(s, fill), g);
      EmitGenuine(s, AfterRead(s, fill), g);
    }
  }

  lemma {:induction false} FillLoopKeeps(s: Sender, fill: nat)
    requires Inv(s) && BytesInFlight(s) + fill <= 0xffff
    ensures Inv(FillLoop(s, fill)) && Later(s, FillLoop(s, fill))
    decreases fill
  {
    if fill == 0 || s.finSent || !s.synSent {
    } else {
      FillStepKeeps(s, fill);
      var g := NextSegment(s, fill);
      if Len(g) > 0 {
        FillLoopKeeps(Emit(AfterRead(s, fill), g), fill - Len(g));
      }
    }
  }

  lemma FillWindowKeeps(s: Sender)
    requires Inv(s)
    ensures Inv(FillWindow(s)) && Later(s, FillWindow(s))
  {
    if !s.synSent {
      EmitQueued(s, SYN_SEGMENT);
      EmitGenuine(s, s, SYN_SEGMENT);
    } else if FillSize(s) > 0 {
      FillLoopKeeps(s, FillSize(s));
    }
  }

  // Acknowledgments

  lemma {:induction false} PopAckedChain(q: seq<OutSeg>, isn: u32, a: nat, hi: nat)
    requires Chain(q, Front(q, hi), hi) && Front(q, hi) <= a <= hi < TWO64
    ensures var p := PopAcked(q, isn, a);
            && Chain(p, Front(p, hi), hi) && Front(q, hi) <= Front(p, hi) <= a
            && |p| <= |q| && (forall g :: g in p ==> g in q)
            && (|p| == |q| ==> p == q)
  {
    if q == [] || !SegAcked(q[0], isn, a) {
    } else {
      UnwrapNotBelow(q[0].abs, isn, a);
      assert Front(q[1..], hi) == End(q[0]);
      PopAckedChain(q[1..], isn, a, hi);
    }
  }

  lemma AckReceivedKeeps(s: Sender, ackno: u32, win: u16)
    requires Inv(s)
    ensures var s' := AckReceived(s, ackno, win);
            Inv(s') && Later(s, s') && s'.out == s.out
  {
    var s' := AckReceived(s, ackno, win);
    PopAckedChain(s.backup, s.isn, s'.absAckno, s.nextSeqno);
    forall g | g in s'.out || g in s'.backup
      ensures Genuine(g, s')
    {
      GenuineLater(g, s, s');
    }
  }

  lemma TickKeeps(s: Sender, ms: nat)
    requires Inv(s)
    ensures var s' := TickSender(s, ms);
            Inv(s') && Later(s, s')
    ensures Tick(s.timer, ms).expired ==> s.backup != [] && TickSender(s, ms).out == s.out + [s.backup[0]]
  {
    var s' := TickSender(s, ms);
    forall g | g in s'.out || g in s'.backup
      ensures Genuine(g, s')
    {
      GenuineLater(g, s, s');
    }
  }

  /** Changes that touch neither the queues nor the counters. */
  lemma OutsideKeeps(s: Sender, s': Sender)
    requires Inv(s) && Later(s, s') && |s'.stream.log| <= LIMIT
    requires s' == s.(stream := s'.stream, out := s'.out) && s'.stream.bytesRead == s.stream.bytesRead
    requires forall g :: g in s'.out ==> g in s.out || Genuine(g, s')
    ensures Inv(s')
  {
    forall g | g in s'.out || g in s'.backup
      ensures Genuine(g, s')
    {
      if Genuine(g, s) { GenuineLater(g, s, s'); }
    }
  }

  // The exact condition under which acknowledged segments leave the queue

  /** The front of the queue still contains the first unacknowledged number. */
  predicate Tight(s: Sender) {
    s.backup != [] ==> s.absAckno < End(s.backup[0])
  }

  /** The test for an acknowledged segment is exact unless `Unwrap` misses the block below. */
  lemma SegAckedIff(g: OutSeg, isn: u32, a: nat)
    requires g.abs <= a < g.abs + TWO31 && a < TWO64
    ensures SegAcked(g, isn, a) <==> End(g) <= a && !(TWO32 <= a < TWO33 && g.abs < TWO32)
  {
    RoundTripIff(g.abs, isn, a);
    if TWO32 <= a < TWO33 && g.abs < TWO32 {
      UnwrapSkipsUp(g.abs, isn, a);
    }
  }

  /** A segment from below 2^32 is not recognised as acknowledged before another 2^32 numbers are. */
  lemma NotRecognised(g: OutSeg, isn: u32, a: nat)
    requires g.abs < TWO32 <= a < TWO33 && a < End(g) + TWO32
    ensures !SegAcked(g, isn, a)
  {
    UnwrapBlock(Wrap(g.abs, isn), isn, a);
    WrapIsOffset(g.abs, isn);
  }

  /** A segment that should leave the queue but cannot be recognised as acknowledged. */
  predicate StuckFront(q: seq<OutSeg>, a: nat) {
    q != [] && TWO32 <= a < TWO33 && q[0].abs < TWO32 && End(q[0]) <= a
  }

  lemma {:induction false} PopAckedTight(q: seq<OutSeg>, isn: u32, a: nat, hi: nat)
    requires Chain(q, Front(q, hi), hi) && Front(q, hi) <= a <= hi < TWO64 && a < Front(q, hi) + TWO31
    ensures var p := PopAcked(q, isn, a);
            (p != [] ==> a < End(p[0])) <==> !StuckFront(q, a)
  {
    if q == [] {
    } else {
      SegAckedIff(q[0], isn, a);
      if SegAcked(q[0], isn, a) {
        assert Front(q[1..], hi) == End(q[0]);
        PopAckedTight(q[1..], isn, a, hi);
      }
    }
  }

  lemma {:induction false} ChainFrontLen(s: Sender)
    requires Inv(s) && Tight(s)
    ensures s.nextSeqno <= Front(s.backup, s.nextSeqno) + 0xffff + MAX_PAYLOAD_SIZE + 2
  {
    if s.backup == [] {
    } else {
      assert Genuine(s.backup[0], s);
    }
  }

  /** Acknowledged segments leave the queue exactly when the front is not stuck. */
  lemma AckKeepsTightIff(s: Sender, ackno: u32, win: u16)
    requires Inv(s) && Tight(s)
    ensures Tight(AckReceived(s, ackno, win)) <==> !StuckFront(s.backup, NewAckno(s, ackno))
  {
    ChainFrontLen(s);
    PopAckedTight(s.backup, s.isn, NewAckno(s, ackno), s.nextSeqno);
  }

  /** With a tight queue, the queue is empty exactly when nothing is in flight. */
  lemma TightQueue(s: Sender)
    requires Inv(s) && Tight(s)
    ensures s.backup == [] <==> BytesInFlight(s) == 0
    ensures s.backup != [] ==> s.backup[0].abs <= s.absAckno < End(s.backup[0])
  {
    assert s.backup != [] ==> Genuine(s.backup[0], s);
  }

  // The window

  /** A new data segment that ends at or before `edge`. */
  predicate FitsWindow(g: OutSeg, edge: nat) {
    1 <= Len(g) && End(g) <= edge && |g.payload| <= MAX_PAYLOAD_SIZE && !g.syn
  }

  /** `out'` is `out` with some new data segments behind it, all ending at or before `edge`. */
  ghost predicate OnlyAdds(out: seq<OutSeg>, out': seq<OutSeg>, edge: nat) {
    out <= out' && forall g :: g in out'[|out|..] ==> FitsWindow(g, edge)
  }

  lemma OnlyAddsMore(out: seq<OutSeg>, g: OutSeg, out': seq<OutSeg>, edge: nat)
    requires FitsWindow(g, edge) && OnlyAdds(out + [g], out', edge)
    ensures OnlyAdds(out, out', edge)
  {
  }

  lemma {:induction false} FillLoopWindow(s: Sender, fill: nat)
    requires Inv(s) && BytesInFlight(s) + fill <= 0xffff
    ensures var s' := FillLoop(s, fill);
            && OnlyAdds(s.out, s'.out, s.nextSeqno + fill)
            && s'.nextSeqno <= s.nextSeqno + fill
            && s'.absAckno == s.absAckno && s'.windowSize == s.windowSize
    decreases fill
  {
    if fill == 0 || s.finSent || !s.synSent {
    } else {
      FillStepKeeps(s, fill);
      NextSegmentGenuine(s, fill);
      var g := NextSegment(s, fill);
      if Len(g) > 0 {
        FillLoopWindow(Emit(AfterRead(s, fill), g), fill - Len(g));
        OnlyAddsMore(s.out, g, FillLoop(s, fill).out, s.nextSeqno + fill);
      }
    }
  }

  /** Why a round of the fill loop may send nothing. */
  lemma EmptyRound(s: Sender, fill: nat)
    requires Len(NextSegment(s, fill)) == 0 && 0 < fill && !s.stream.error
    ensures Buffer(s.stream) == [] && !s.stream.inputEnd
  {
  }

  lemma {:induction false} FillLoopGreedy(s: Sender, fill: nat)
    requires Inv(s) && s.synSent && !s.stream.error && BytesInFlight(s) + fill <= 0xffff
    ensures var s' := FillLoop(s, fill);
            || s'.finSent || s'.nextSeqno == s.nextSeqno + fill
            || (Buffer(s'.stream) == [] && !s'.stream.inputEnd)
    decreases fill
  {
    if fill == 0 || s.finSent {
    } else {
      FillStepKeeps(s, fill);
      var g := NextSegment(s, fill);
      if Len(g) > 0 {
        FillLoopGreedy(Emit(AfterRead(s, fill), g), fill - Len(g));
      } else {
        EmptyRound(s, fill);
      }
    }
  }

  /** Window respect and greed: after the SYN, everything sent ends inside the peer's window (taken
      as at least one), and filling stops only when the window is full, the FIN is sent, or the
      stream has nothing to offer. Before the SYN, only the SYN is sent. */
  lemma FillWindowRespectsWindow(s: Sender)
    requires Inv(s)
    ensures var s' := FillWindow(s);
      && s'.absAckno == s.absAckno && s'.windowSize == s.windowSize
      && (!s.synSent ==> s'.out == s.out + [SYN_SEGMENT])
      && (s.synSent ==>
            && OnlyAdds(s.out, s'.out, s.absAckno + Window(s))
            && (s.stream.error || s'.finSent || BytesInFlight(s') >= Window(s)
                || (Buffer(s'.stream) == [] && !s'.stream.inputEnd)))
  {
    if s.synSent {
      if FillSize(s) > 0 {
        FillLoopWindow(s, FillSize(s));
        if !s.stream.error { FillLoopGreedy(s, FillSize(s)); }
      }
    }
  }

  /** `s'` has queued the same new segments for sending and for retransmission. */
  predicate QueuesBoth(s: Sender, s': Sender) {
    s.out <= s'.out && s'.backup == s.backup + s'.out[|s.out|..]
  }

  lemma EmitQueuesBoth(s: Sender, g: OutSeg, s': Sender)
    requires QueuesBoth(Emit(s, g), s')
    ensures QueuesBoth(s, s')
  {
  }

  /** What the fill loop sends it also queues for retransmission. */
  lemma {:induction false} FillLoopQueues(s: Sender, fill: nat)
    ensures QueuesBoth(s, FillLoop(s, fill))
    decreases fill
  {
    if fill == 0 || s.finSent || !s.synSent {
    } else {
      var g := NextSegment(s, fill);
      var s1 := AfterRead(s, fill);
      if Len(g) > 0 {
        FillLoopQueues(Emit(s1, g), fill - Len(g));
        EmitQueuesBoth(s1, g, FillLoop(s, fill));
      }
    }
  }
}
