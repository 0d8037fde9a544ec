/** What a sender guarantees over whole runs, whatever acknowledgments and ticks it gets. */
module SendingRuns {
  import opened Words
  import opened ByteStreams
  import opened Timers
  import opened Reassembly
  import opened Sending

  datatype Event =
    | FillEvent
    | AckEvent(ackno: u32, win: u16)
    | TickEvent(ms: nat)
    | EmptyEvent(rst: bool)
    | WriteEvent(data: seq<byte>)
    | EndEvent
    | ErrorEvent
    | MarkEvent
    | TakeEvent

  function Step(s: Sender, e: Event): Sender {
    match e
    case FillEvent => FillWindow(s)
    case AckEvent(ackno, win) => AckReceived(s, ackno, win)
    case TickEvent(ms) => TickSender(s, ms)
    case EmptyEvent(rst) => SendEmpty(s, rst)
    case WriteEvent(data) => s.(stream := Write(s.stream, data))
    case EndEvent => s.(stream := EndInput(s.stream))
    case ErrorEvent => s.(stream := SetError(s.stream))
    case MarkEvent => MarkFirst(s)
    case TakeEvent => s.(out := [])
  }

  /** Set the RST flag of the first waiting segment, or make an empty segment with it. */
  function MarkFirst(s: Sender): Sender {
    if s.out == [] then SendEmpty(s, true)
    else s.(out := [s.out[0].(rst := true)] + s.out[1..])
  }

  /** The only bound on a run: the stream stays within the range of the 64-bit counters. */
  predicate Enabled(s: Sender, e: Event) {
    e.WriteEvent? ==> |s.stream.log| + |e.data| <= LIMIT
  }

  function Run(s: Sender, es: seq<Event>): Sender
    decreases |es|
  {
    if es == [] then s else Run(Step(s, es[0]), es[1..])
  }

  predicate RunEnabled(s: Sender, es: seq<Event>)
    decreases |es|
  {
    es == [] || (Enabled(s, es[0]) && RunEnabled(Step(s, es[0]), es[1..]))
  }

  lemma StepKeeps(s: Sender, e: Event)
    requires Sending.Inv(s) && Enabled(s, e)
    ensures Sending.Inv(Step(s, e)) && Later(s, Step(s, e))
  {
    match e
    case FillEvent => FillWindowKeeps(s);
    case AckEvent(ackno, win) => AckReceivedKeeps(s, ackno, win);
    case TickEvent(ms) => TickKeeps(s, ms);
    case EmptyEvent(rst) => OutsideKeeps(s, Step(s, e));
    case WriteEvent(data) => OutsideKeeps(s, Step(s, e));
    case EndEvent => OutsideKeeps(s, Step(s, e));
    case ErrorEvent => OutsideKeeps(s, Step(s, e));
    case MarkEvent =>
      MarkFirstKeeps(s);
      OutsideKeeps(s, Step(s, e));
    case TakeEvent => OutsideKeeps(s, Step(s, e));
  }

  lemma MarkFirstKeeps(s: Sender)
    requires Sending.Inv(s)
    ensures forall g :: g in MarkFirst(s).out ==> g in s.out || Genuine(g, MarkFirst(s))
  {
    if s.out != [] {
      assert s.out[0] in s.out;
      forall g | g in MarkFirst(s).out
        ensures g in s.out || Genuine(g, MarkFirst(s))
      {
        if g != MarkFirst(s).out[0] { assert g in s.out[1..]; }
      }
    }
  }

  lemma {:induction false} FillLoopTight(s: Sender, fill: nat)
    requires Queued(s) && Tight(s)
    ensures Tight(FillLoop(s, fill))
    decreases fill
  {
    if fill == 0 || s.finSent || !s.synSent {
    } else {
      var g := NextSegment(s, fill);
      if Len(g) > 0 {
        var e := Emit(AfterRead(s, fill), g);
        assert Tight(e);
        assert s.backup != [] ==> e.backup[0] == s.backup[0];
        FillLoopFront(e, fill - Len(g));
      }
    }
  }

  /** The fill loop leaves the front of a non-empty queue alone. */
  lemma {:induction false} FillLoopFront(s: Sender, fill: nat)
    requires s.backup != []
    ensures var s' := FillLoop(s, fill);
            s'.backup != [] && s'.backup[0] == s.backup[0] && s'.absAckno == s.absAckno
    decreases fill
  {
    if fill == 0 || s.finSent || !s.synSent {
    } else {
      var g := NextSegment(s, fill);
      if Len(g) > 0 {
        FillLoopFront(Emit(AfterRead(s, fill), g), fill - Len(g));
      }
    }
  }

  lemma StepTight(s: Sender, e: Event)
    requires Sending.Inv(s) && Tight(s)
    requires e.AckEvent? ==> !StuckFront(s.backup, NewAckno(s, e.ackno))
    ensures Tight(Step(s, e))
  {
    match e
    case FillEvent => if s.synSent { FillLoopTight(s, FillSize(s)); }
    case AckEvent(ackno, win) => AckKeepsTightIff(s, ackno, win);
    case TickEvent(ms) =>
    case EmptyEvent(rst) =>
    case WriteEvent(data) =>
    case EndEvent =>
    case ErrorEvent =>
    case MarkEvent =>
    case TakeEvent =>
  }

  lemma {:induction false} RunKeeps(s: Sender, es: seq<Event>)
    requires Sending.Inv(s) && RunEnabled(s, es)
    ensures Sending.Inv(Run(s, es)) && Later(s, Run(s, es))
    ensures Tight(s) && Run(s, es).nextSeqno < TWO32 ==> Tight(Run(s, es))
    decreases |es|
  {
    if es == [] {
    } else {
      StepKeeps(s, es[0]);
      RunKeeps(Step(s, es[0]), es[1..]);
      if Tight(s) && Run(s, es).nextSeqno < TWO32 {
        StepTight(s, es[0]);
      }
    }
  }

  /** The retransmission queue over every run: the segments in it follow each other without a gap
      up to `_next_seqno` and start at or before the first unacknowledged number, at most 65535
      numbers are in flight, and below 2^32 the queue holds nothing that is fully acknowledged. */
  lemma QueueTilesInFlight(capacity: nat, rto: u16, isn: u32, es: seq<Event>)
    requires RunEnabled(Sending.New(capacity, rto, isn), es)
    ensures var s := Run(Sending.New(capacity, rto, isn), es);
      && Chain(s.backup, Front(s.backup, s.nextSeqno), s.nextSeqno)
      && Front(s.backup, s.nextSeqno) <= s.absAckno <= s.nextSeqno <= s.absAckno + 0xffff
      && (s.nextSeqno < TWO32 ==>
            && (s.backup == [] <==> BytesInFlight(s) == 0)
            && (s.backup != [] ==> s.backup[0].abs <= s.absAckno < End(s.backup[0])))
  {
    RunKeeps(Sending.New(capacity, rto, isn), es);
    var s := Run(Sending.New(capacity, rto, isn), es);
    if s.nextSeqno < TWO32 { TightQueue(s); }
  }

  /** The timer over every run: between calls it runs exactly while the queue is not empty and is
      never left expired, so an expiring tick always finds a segment to send again. */
  lemma TimerRunsWithQueue(capacity: nat, rto: u16, isn: u32, es: seq<Event>, ms: nat)
    requires RunEnabled(Sending.New(capacity, rto, isn), es)
    ensures var s := Run(Sending.New(capacity, rto, isn), es);
      && (s.timer.active <==> s.backup != []) && !s.timer.expired
      && (Tick(s.timer, ms).expired ==> s.backup != [] && TickSender(s, ms).out == s.out + [s.backup[0]])
  {
    RunKeeps(Sending.New(capacity, rto, isn), es);
    TickKeeps(Run(Sending.New(capacity, rto, isn), es), ms);
  }

  /** Window respect and greed at every point of every run. */
  lemma EveryFillRespectsWindow(capacity: nat, rto: u16, isn: u32, es: seq<Event>)
    requires RunEnabled(Sending.New(capacity, rto, isn), es)
    ensures var s := Run(Sending.New(capacity, rto, isn), es);
            var s' := FillWindow(s);
      && (!s.synSent ==> s'.out == s.out + [SYN_SEGMENT])
      && (s.synSent ==>
            && OnlyAdds(s.out, s'.out, s.absAckno + Max(s.windowSize, 1))
            && (s.stream.error || s'.finSent || s'.nextSeqno - s'.absAckno >= Max(s.windowSize, 1)
                || (Buffer(s'.stream) == [] && !s'.stream.inputEnd)))
  {
    RunKeeps(Sending.New(capacity, rto, isn), es);
    FillWindowRespectsWindow(Run(Sending.New(capacity, rto, isn), es));
  }

  /** Past 2^32 the queue can get stuck: a segment that crosses 2^32 and is acknowledged in full
      stays at the front. */
  lemma AckAcrossBlockIsStuck(s: Sender, ackno: u32, win: u16)
    requires Sending.Inv(s) && Tight(s) && StuckFront(s.backup, NewAckno(s, ackno))
    ensures var s' := AckReceived(s, ackno, win);
            s'.backup == s.backup && End(s'.backup[0]) <= s'.absAckno
  {
    ChainFrontLen(s);
    SegAckedIff(s.backup[0], s.isn, NewAckno(s, ackno));
  }

  lemma StepKeepsFront(s: Sender, e: Event, g: OutSeg)
    requires Sending.Inv(s) && s.backup != [] && s.backup[0] == g && g.abs < TWO32 <= s.absAckno
    requires Step(s, e).absAckno < Min(TWO33, End(g) + TWO32)
    ensures Step(s, e).backup != [] && Step(s, e).backup[0] == g
  {
    match e
    case FillEvent => if s.synSent { FillLoopFront(s, FillSize(s)); }
    case AckEvent(ackno, win) => NotRecognised(g, s.isn, NewAckno(s, ackno));
    case _ =>
  }

  /** Past 2^32 a segment from below it stays at the front of the queue, whatever happens, until another 2^32
      numbers are acknowledged; meanwhile it is the only one that is ever sent again. */
  lemma {:induction false} FrontStays(s: Sender, es: seq<Event>, g: OutSeg)
    requires Sending.Inv(s) && RunEnabled(s, es) && s.backup != [] && s.backup[0] == g && g.abs < TWO32 <= s.absAckno
    requires Run(s, es).absAckno < Min(TWO33, End(g) + TWO32)
    ensures var s' := Run(s, es);
      && s'.backup != [] && s'.backup[0] == g
      && forall ms: nat :: Tick(s'.timer, ms).expired ==> TickSender(s', ms).out == s'.out + [g]
    decreases |es|
  {
    if es == [] {
      forall ms: nat | Tick(s.timer, ms).expired ensures TickSender(s, ms).out == s.out + [g] { TickKeeps(s, ms); }
    } else {
      StepKeeps(s, es[0]);
      RunKeeps(Step(s, es[0]), es[1..]);
      StepKeepsFront(s, es[0], g);
      FrontStays(Step(s, es[0]), es[1..], g);
    }
  }

  // Backoff

  /** A sender with the time that has passed, and the time at which the first of the present run
      of consecutive expiries happened. */
  datatype Clocked = Clocked(s: Sender, now: nat, since: nat)

  function ClockStep(c: Clocked, e: Event): Clocked {
    var s' := Step(c.s, e);
    var now' := if e.TickEvent? then c.now + e.ms else c.now;
    Clocked(s', now', if c.s.retx == 0 && s'.retx > 0 then now' else c.since)
  }

  /** Up to here the doubled timeout fits 32 bits, whatever the 16-bit initial value. */
  const MAX_EXACT: nat := 16

  predicate BackedOff(s: Sender) {
    && s.rto == To32(s.initialRto * Pow2(s.retx))
    && (s.timer.active && s.retx <= MAX_EXACT ==> s.initialRto * Pow2(s.retx) <= s.timer.rto)
  }

  /** The time already spent in the present run of expiries. */
  predicate Spent(c: Clocked) {
    0 < c.s.retx <= MAX_EXACT ==>
      c.since + c.s.initialRto * Pow2(c.s.retx) - 2 * c.s.initialRto
      + (if c.s.timer.active then c.s.timer.passed else 0) <= c.now
  }

  lemma {:induction false} Pow2Monotone(m: nat, n: nat)
    requires m <= n
    ensures 1 <= Pow2(m) <= Pow2(n)
    decreases n
  {
    if n == 0 {
    } else {
      Pow2Monotone(if m < n then m else m - 1, n - 1);
    }
  }

  lemma Pow2Values()
    ensures Pow2(1) == 2 && Pow2(9) == 512 && Pow2(MAX_EXACT) == TWO16
  {
  }

  /** Below the bound the timeout is the exact power, with no wrap-around. */
  lemma RtoExact(s: Sender)
    requires BackedOff(s) && s.retx <= MAX_EXACT
    ensures s.rto == s.initialRto * Pow2(s.retx)
  {
    RtoBound(s.initialRto, s.retx);
  }

  lemma MulMonotone(a: nat, b: nat, c: nat, d: nat)
    requires a <= b && c <= d
    ensures a * c <= b * d
  {
  }

  lemma PowerDoubles(i: nat, k: nat)
    ensures i * Pow2(k + 1) == 2 * (i * Pow2(k))
  {
  }

  lemma To32Double(x: nat)
    ensures To32(To32(x) * 2) == To32(2 * x)
  {
  }

  /** Doubling the wrapped timeout is wrapping the doubled one. */
  lemma WrappedRto(i: nat, k: nat)
    ensures To32(To32(i * Pow2(k)) * 2) == To32(i * Pow2(k + 1))
  {
    PowerDoubles(i, k);
    To32Double(i * Pow2(k));
  }

  predicate SameTiming(s: Sender, s': Sender) {
    && s'.rto == s.rto && s'.retx == s.retx && s'.initialRto == s.initialRto && s'.windowSize == s.windowSize
    && (s'.timer == s.timer || (!s.timer.active && s'.timer == Start(s.rto)))
  }

  lemma {:induction false} FillLoopTiming(s: Sender, fill: nat)
    ensures SameTiming(s, FillLoop(s, fill))
    decreases fill
  {
    if fill == 0 || s.finSent || !s.synSent {
    } else {
      var g := NextSegment(s, fill);
      if Len(g) > 0 {
        FillLoopTiming(Emit(AfterRead(s, fill), g), fill - Len(g));
      }
    }
  }

  lemma SameTimingKeeps(c: Clocked, s': Sender)
    requires BackedOff(c.s) && Spent(c) && SameTiming(c.s, s')
    ensures BackedOff(s') && Spent(c.(s := s'))
  {
    if c.s.retx <= MAX_EXACT { RtoExact(c.s); }
  }

  lemma AckTimer(s: Sender, ackno: u32, win: u16)
    ensures var s' := AckReceived(s, ackno, win);
      && s'.retx == 0 && s'.rto == s'.initialRto == s.initialRto
      && (s'.timer == s.timer || !s'.timer.active || s'.timer == Start(s.initialRto))
  {
  }

  lemma InitialRto(i: nat, k: nat)
    ensures i * Pow2(0) == i <= i * Pow2(k)
  {
  }

  lemma ResetTiming(s: Sender, s': Sender)
    requires BackedOff(s) && s.retx <= MAX_EXACT
    requires s'.retx == 0 && s'.rto == s'.initialRto == s.initialRto
    requires s'.timer == s.timer || !s'.timer.active || s'.timer == Start(s.initialRto)
    ensures BackedOff(s')
  {
    InitialRto(s.initialRto, s.retx);
  }

  lemma AckTiming(s: Sender, ackno: u32, win: u16)
    requires BackedOff(s) && s.retx <= MAX_EXACT
    ensures BackedOff(AckReceived(s, ackno, win)) && AckReceived(s, ackno, win).retx == 0
  {
    AckTimer(s, ackno, win);
    ResetTiming(s, AckReceived(s, ackno, win));
  }

  lemma RtoBound(i: nat, k: nat)
    requires i <= 0xffff && k <= MAX_EXACT
    ensures i * Pow2(k) < TWO32
  {
    Pow2Monotone(k, MAX_EXACT);
    Pow2Values();
    MulMonotone(i, 0xffff, Pow2(k), TWO16);
  }

  lemma DoubledFits(x: nat, y: nat)
    requires y == 2 * x < TWO32
    ensures To32(To32(x) * 2) == To32(y) == y
  {
  }

  lemma DoubledRto(i: nat, k: nat, rto: u32)
    requires i <= 0xffff && k < MAX_EXACT && rto == To32(i * Pow2(k))
    ensures To32(rto * 2) == To32(i * Pow2(k + 1)) == i * Pow2(k + 1)
  {
    RtoBound(i, k + 1);
    PowerDoubles(i, k);
    DoubledFits(i * Pow2(k), i * Pow2(k + 1));
  }

  lemma ExpiryBacksOff(s: Sender, ms: nat)
    requires BackedOff(s) && Tick(s.timer, ms).expired && s.retx < MAX_EXACT && s.windowSize != 0
    ensures BackedOff(TickSender(s, ms)) && TickSender(s, ms).retx == s.retx + 1
  {
    DoubledRto(s.initialRto, s.retx, s.rto);
  }

  /** An expiry: at least the current timeout has passed since the timer was started. */
  lemma ExpirySpends(c: Clocked, ms: nat)
    requires BackedOff(c.s) && Spent(c) && Tick(c.s.timer, ms).expired && Timed(c.s)
    requires c.s.retx < MAX_EXACT && c.s.windowSize != 0
    ensures Spent(ClockStep(c, TickEvent(ms)))
  {
    var i, k := c.s.initialRto, c.s.retx;
    PowerDoubles(i, k);
    InitialRto(i, k);
    var x := i * Pow2(k);
    assert x <= c.s.timer.rto <= To32(c.s.timer.passed + ms) <= c.s.timer.passed + ms;
    assert k > 0 ==> c.since + x - 2 * i + c.s.timer.passed <= c.now;
  }

  lemma TickTiming(c: Clocked, ms: nat)
    requires BackedOff(c.s) && Spent(c) && Timed(c.s)
    ensures var c' := ClockStep(c, TickEvent(ms));
            BackedOff(c'.s) && Spent(c')
  {
    if Tick(c.s.timer, ms).expired && c.s.windowSize != 0 {
      if c.s.retx < MAX_EXACT {
        ExpiryBacksOff(c.s, ms);
        ExpirySpends(c, ms);
      } else {
        WrappedRto(c.s.initialRto, c.s.retx);
      }
    } else if c.s.retx <= MAX_EXACT {
      RtoExact(c.s);
    }
  }

  lemma ClockStepKeeps(c: Clocked, e: Event)
    requires BackedOff(c.s) && Spent(c) && Timed(c.s) && c.s.retx <= MAX_EXACT
    ensures BackedOff(ClockStep(c, e).s) && Spent(ClockStep(c, e))
  {
    match e
    case FillEvent =>
      if c.s.synSent { FillLoopTiming(c.s, FillSize(c.s)); }
      SameTimingKeeps(c, FillWindow(c.s));
    case AckEvent(ackno, win) => AckTiming(c.s, ackno, win);
    case TickEvent(ms) => TickTiming(c, ms);
    case EmptyEvent(rst) => SameTimingKeeps(c, Step(c.s, e));
    case WriteEvent(data) => SameTimingKeeps(c, Step(c.s, e));
    case EndEvent => SameTimingKeeps(c, Step(c.s, e));
    case ErrorEvent => SameTimingKeeps(c, Step(c.s, e));
    case MarkEvent => SameTimingKeeps(c, Step(c.s, e));
    case TakeEvent => SameTimingKeeps(c, Step(c.s, e));
  }

  /** Nine consecutive retransmissions take at least 510 initial timeouts, counted from the first. */
  lemma NinthExpiryIsLate(c: Clocked)
    requires Spent(c) && c.s.retx == 9
    ensures c.since + 510 * c.s.initialRto <= c.now
  {
  }

  /** Everything a sender keeps, with its clock. */
  ghost predicate Ok(c: Clocked) {
    Sending.Inv(c.s) && BackedOff(c.s) && Spent(c) && (c.s.nextSeqno < TWO32 ==> Tight(c.s))
  }

  lemma OkStep(c: Clocked, e: Event)
    requires Ok(c) && Enabled(c.s, e) && c.s.retx <= MAX_EXACT
    ensures Ok(ClockStep(c, e)) && Later(c.s, Step(c.s, e))
    ensures Step(c.s, e).retx <= c.s.retx + 1 && (!e.TickEvent? ==> Step(c.s, e).retx <= c.s.retx)
  {
    StepKeeps(c.s, e);
    ClockStepKeeps(c, e);
    if Step(c.s, e).nextSeqno < TWO32 { StepTight(c.s, e); }
    if e == FillEvent && c.s.synSent { FillLoopTiming(c.s, FillSize(c.s)); }
  }
}
