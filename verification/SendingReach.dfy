/** How far the segments may start that a sender can still send with the window it has. */
module SendingReach {
  import opened Words
  import opened ByteStreams
  import opened Sending

  /** One past the last number that the sender believes it may send. */
  function Reach(s: Sender): nat { s.absAckno + Window(s) }

  /** The number of the next byte or FIN, even before the SYN. */
  function First(s: Sender): nat { Max(s.nextSeqno, 1) }

  /** Where the last segment starts when the numbers from `n` to `end` are sent in full segments. */
  function LastFull(n: nat, end: nat): nat
    requires n < end
  {
    n + (end - n - 1) / MAX_PAYLOAD_SIZE * MAX_PAYLOAD_SIZE
  }

  lemma LastFullSteps(n: nat, end: nat)
    requires n < end
    ensures n <= LastFull(n, end) < end
    ensures end <= n + MAX_PAYLOAD_SIZE ==> LastFull(n, end) == n
    ensures n + MAX_PAYLOAD_SIZE < end ==> LastFull(n + MAX_PAYLOAD_SIZE, end) == LastFull(n, end)
  {
  }

  /** The sender can take data from its stream. */
  predicate Sends(s: Sender) { s.synSent && !s.finSent && !s.stream.error }

  /** How many bytes one fill takes. */
  function Takes(s: Sender, fill: nat): nat { Min(|Buffer(s.stream)|, fill) }

  /** One round of the fill loop. */
  lemma NextTakes(s: Sender, fill: nat)
    requires Sends(s) && fill > 0
    ensures var g, s1 := NextSegment(s, fill), Emit(AfterRead(s, fill), NextSegment(s, fill));
      && g.abs == s.nextSeqno && |g.payload| == Min(MAX_PAYLOAD_SIZE, Takes(s, fill)) && !g.syn
      && (g.fin ==> g.payload == Buffer(s.stream)) && Len(g) <= fill
      && |Buffer(s1.stream)| == |Buffer(s.stream)| - |g.payload| && s1.nextSeqno == s.nextSeqno + Len(g)
      && s1.stream == s.stream.(bytesRead := s1.stream.bytesRead) && s1.synSent && s1.finSent == g.fin
      && (!g.fin ==> Sends(s1) && Takes(s1, fill - Len(g)) == Takes(s, fill) - |g.payload|)
  {
  }

  /** What the fill loop takes and what it leaves. */
  lemma {:induction false} FillLoopTakes(s: Sender, fill: nat)
    requires Sends(s)
    ensures var s' := FillLoop(s, fill);
      && |Buffer(s'.stream)| == |Buffer(s.stream)| - Takes(s, fill)
      && s'.nextSeqno == s.nextSeqno + Takes(s, fill) + Count(s'.finSent)
      && s'.stream == s.stream.(bytesRead := s'.stream.bytesRead)
      && s'.synSent && s'.absAckno == s.absAckno && s'.windowSize == s.windowSize
    decreases fill
  {
    if fill == 0 {
    } else {
      var g := NextSegment(s, fill);
      NextTakes(s, fill);
      if Len(g) > 0 && !g.fin { FillLoopTakes(Emit(AfterRead(s, fill), g), fill - Len(g)); }
    }
  }

  predicate StartsBy(out: seq<OutSeg>, b: nat) {
    forall g :: g in out ==> g.payload == [] || g.abs <= b
  }

  /** Every data segment of the fill loop starts at or before the last full segment. */
  lemma {:induction false} FillLoopStarts(s: Sender, fill: nat, b: nat)
    requires Sends(s) && (Takes(s, fill) > 0 ==> LastFull(s.nextSeqno, s.nextSeqno + Takes(s, fill)) <= b)
    requires StartsBy(s.out, b)
    ensures StartsBy(FillLoop(s, fill).out, b)
    decreases fill
  {
    if fill == 0 {
    } else {
      var g := NextSegment(s, fill);
      var s1 := Emit(AfterRead(s, fill), g);
      NextTakes(s, fill);
      if Takes(s, fill) > 0 { LastFullSteps(s.nextSeqno, s.nextSeqno + Takes(s, fill)); }
      if Len(g) > 0 {
        if g.fin {
          assert FillLoop(s1, fill - Len(g)) == s1;
        } else {
          FillLoopStarts(s1, fill - Len(g), b);
        }
      }
    }
  }

  /** A data segment that starts exactly at `b`. */
  ghost predicate Reaches(out: seq<OutSeg>, b: nat) {
    exists g :: g in out && g.payload != [] && g.abs == b
  }

  /** And one starts exactly there. */
  lemma {:induction false} FillLoopReaches(s: Sender, fill: nat)
    requires Sends(s) && Takes(s, fill) > 0
    ensures Reaches(FillLoop(s, fill).out, LastFull(s.nextSeqno, s.nextSeqno + Takes(s, fill)))
    decreases fill
  {
    var g := NextSegment(s, fill);
    var s1 := Emit(AfterRead(s, fill), g);
    NextTakes(s, fill);
    LastFullSteps(s.nextSeqno, s.nextSeqno + Takes(s, fill));
    if Takes(s, fill) > MAX_PAYLOAD_SIZE {
      FillLoopReaches(s1, fill - Len(g));
    } else {
      FillLoopQueues(s1, fill - Len(g));
      assert g in s1.out;
    }
  }

  // The last start

  /** No more bytes will get into the stream. */
  predicate Over(s: Stream) { s.inputEnd || s.capacity == 0 }

  /** Where the last data segment can start that may still be sent, 0 if none: with `m` bytes buffered, the
      next number `n` and the end `end` of the window. If the buffer fills the window or is all there is,
      that is its last full segment, and else the last number of the window, since the writer may write
      byte by byte. */
  function StartOf(over: bool, n: nat, end: nat, m: nat): nat {
    if end <= n then 0
    else if m >= end - n then LastFull(n, end)
    else if !over then end - 1
    else if m > 0 then LastFull(n, n + m)
    else 0
  }

  function LastStart(s: Sender): nat {
    if s.stream.error || s.finSent then 0
    else StartOf(Over(s.stream), First(s), Reach(s), |Buffer(s.stream)|)
  }

  lemma MoreBuffered(over: bool, n: nat, end: nat, m: nat, m': nat)
    requires m <= m' && (over ==> m == m')
    ensures StartOf(over, n, end, m') <= StartOf(over, n, end, m)
  {
    if n < end { LastFullSteps(n, end); }
  }

  lemma LessBuffered(over: bool, n: nat, end: nat, m: nat)
    ensures var t := Min(m, Max(0, end - n));
      && StartOf(over, n + t, end, m - t) <= StartOf(over, n, end, m)
      && (t > 0 ==> LastFull(n, n + t) <= StartOf(over, n, end, m))
  {
    var t := Min(m, Max(0, end - n));
    if t > 0 { LastFullSteps(n, n + t); }
  }

  lemma WriteStarts(s: Sender, data: seq<byte>)
    ensures LastStart(s.(stream := Write(s.stream, data))) <= LastStart(s)
  {
    var s' := s.(stream := Write(s.stream, data));
    MoreBuffered(Over(s.stream), First(s), Reach(s), |Buffer(s.stream)|, |Buffer(s'.stream)|);
  }

  /** A stream in error gives nothing. */
  lemma ErrorFills(s: Sender, fill: nat, b: nat)
    requires s.stream.error && StartsBy(s.out, b)
    ensures FillLoop(s, fill).stream.error && StartsBy(FillLoop(s, fill).out, b)
  {
    if fill > 0 && !s.finSent && s.synSent {
      var g := NextSegment(s, fill);
      var s1 := Emit(AfterRead(s, fill), g);
      if Len(g) > 0 { assert FillLoop(s1, fill - Len(g)) == s1; }
    }
  }

  /** After a fill the sender can start no later than before. */
  lemma SendingFillStarts(s: Sender, b: nat)
    requires Sending.Inv(s) && Sends(s) && LastStart(s) <= b && StartsBy(s.out, b)
    ensures LastStart(FillWindow(s)) <= b && StartsBy(FillWindow(s).out, b)
  {
    var fill, m := FillSize(s), |Buffer(s.stream)|;
    LessBuffered(Over(s.stream), s.nextSeqno, Reach(s), m);
    assert fill == Max(0, Reach(s) - s.nextSeqno) && First(s) == s.nextSeqno;
    FillLoopStarts(s, fill, b);
    FillLoopTakes(s, fill);
  }

  lemma FillStarts(s: Sender, b: nat)
    requires Sending.Inv(s) && LastStart(s) <= b && StartsBy(s.out, b)
    ensures LastStart(FillWindow(s)) <= b && StartsBy(FillWindow(s).out, b)
  {
    if s.synSent {
      if Sends(s) {
        SendingFillStarts(s, b);
      } else if !s.finSent {
        ErrorFills(s, FillSize(s), b);
      }
    }
  }

  /** An acknowledgment changes the window only. */
  lemma AckStart(s: Sender, ackno: u32, win: u16)
    ensures LastStart(AckReceived(s, ackno, win)) == if s.stream.error || s.finSent then 0
              else StartOf(Over(s.stream), First(s), NewAckno(s, ackno) + Max(win, 1), |Buffer(s.stream)|)
  {
  }

  /** What waits to go out does not matter. */
  lemma SameStart(s: Sender, s': Sender)
    requires s' == s.(out := s'.out)
    ensures LastStart(s') == LastStart(s)
  {
  }

  /** Ending the stream or giving it up leaves less to send. */
  lemma ClosedStarts(s: Sender, s': Sender)
    requires s' == s.(stream := s'.stream)
    requires s'.stream == s.stream.(inputEnd := s'.stream.inputEnd, error := s'.stream.error)
    requires (s.stream.inputEnd ==> s'.stream.inputEnd) && (s.stream.error ==> s'.stream.error)
    ensures LastStart(s') <= LastStart(s)
  {
    var n, m := First(s), |Buffer(s.stream)|;
    if m > 0 { LastFullSteps(n, n + m); }
  }

  lemma LastFullMonotone(n: nat, end: nat, end': nat)
    requires n < end <= end'
    ensures LastFull(n, end) <= LastFull(n, end')
  {
  }

  /** A smaller window leaves less to send. */
  lemma SmallerWindow(over: bool, n: nat, end: nat, end': nat, m: nat)
    requires end <= end'
    ensures StartOf(over, n, end, m) <= StartOf(over, n, end', m) && (end > 0 ==> StartOf(over, n, end, m) < end)
  {
    if n < end {
      LastFullMonotone(n, end, end');
      LastFullSteps(n, end);
      if n < n + m { LastFullSteps(n, n + m); }
      if end < n + m { LastFullMonotone(n, end, n + m); }
    }
  }
}
