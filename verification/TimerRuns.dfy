/** When a sender sends again, told from outside: from the calls, the length of its two queues, and the time. */
module TimerRuns {
  import opened Words
  import opened Timers
  import opened Sending
  import SR = SendingRuns

  /** A sender and what has happened to it: the time, when the present wait began, for how long it is, the
      expiries since the last acknowledgment (but none with a window of zero), and the last window announced. */
  datatype Watched = Watched(s: Sender, now: nat, started: nat, wait: u32, expiries: nat, win: u16)

  function Watch(capacity: nat, rto: u16, isn: u32): Watched {
    Watched(Sending.New(capacity, rto, isn), 0, 0, rto, 0, 1)
  }

  /** Something was sent again. */
  predicate Resent(s: Sender, e: SR.Event, s': Sender) { e.TickEvent? && |s.out| < |s'.out| }

  /** A wait begins when there is something to wait for, when an acknowledgment leaves only a part of it, and
      when something is sent again. An acknowledgment that takes nothing out of the queue does not begin one. */
  predicate Begins(s: Sender, e: SR.Event, s': Sender) {
    || (s.backup == [] && s'.backup != [])
    || (e.AckEvent? && 0 < |s'.backup| < |s.backup|)
    || Resent(s, e, s')
  }

  /** The initial timeout, doubled `n` times in 32 bits. */
  function Doubled(rto: u16, n: nat): u32 { To32(rto * Pow2(n)) }

  function Step(w: Watched, e: SR.Event): Watched {
    var s' := SR.Step(w.s, e);
    var now := if e.TickEvent? then w.now + e.ms else w.now;
    var n := if e.AckEvent? then 0 else if Resent(w.s, e, s') && w.win != 0 then w.expiries + 1 else w.expiries;
    var begins := Begins(w.s, e, s');
    Watched(s', now, if begins then now else w.started, if begins then Doubled(s'.initialRto, n) else w.wait, n,
            if e.AckEvent? then e.win else w.win)
  }

  function Run(w: Watched, es: seq<SR.Event>): Watched
    decreases |es|
  {
    if es == [] then w else Run(Step(w, es[0]), es[1..])
  }

  /** The timer and the counters of the sender are what the history says. */
  predicate Told(w: Watched) {
    && w.s.rto == Doubled(w.s.initialRto, w.expiries) && w.s.retx == w.expiries && w.s.windowSize == w.win
    && w.started <= w.now
    && (w.s.backup != [] ==> w.s.timer.rto == w.wait && w.s.timer.passed == To32(w.now - w.started))
  }

  lemma FillTold(w: Watched)
    requires Sending.Inv(w.s) && Told(w)
    ensures Told(Step(w, SR.FillEvent))
  {
    var s' := FillWindow(w.s);
    assert SR.SameTiming(w.s, s') by {
      if w.s.synSent { SR.FillLoopTiming(w.s, FillSize(w.s)); }
    }
    FillWindowKeeps(w.s);
    if w.s.backup != [] {
      assert s'.backup != [] by {
        if w.s.synSent { SR.FillLoopFront(w.s, FillSize(w.s)); }
      }
    }
  }

  lemma InitialIsDoubled(rto: u16)
    ensures Doubled(rto, 0) == rto
  {
  }

  lemma {:induction false} PopShortens(q: seq<OutSeg>, isn: u32, a: nat)
    ensures |PopAcked(q, isn, a)| <= |q| && (|PopAcked(q, isn, a)| == |q| ==> PopAcked(q, isn, a) == q)
    decreases |q|
  {
    if q != [] && SegAcked(q[0], isn, a) {
      PopShortens(q[1..], isn, a);
    } else {
    }
  }

  lemma AckTold(w: Watched, ackno: u32, win: u16)
    requires Sending.Inv(w.s) && Told(w)
    ensures Told(Step(w, SR.AckEvent(ackno, win)))
  {
    PopShortens(w.s.backup, w.s.isn, NewAckno(w.s, ackno));
    InitialIsDoubled(w.s.initialRto);
  }

  lemma To32Adds(x: nat, y: nat)
    ensures To32(To32(x) + y) == To32(x + y)
  {
  }

  lemma ExpiresIff(w: Watched, ms: nat)
    requires Sending.Inv(w.s) && Told(w)
    ensures Tick(w.s.timer, ms).expired <==> w.s.backup != [] && To32(w.now + ms - w.started) >= w.wait
    ensures !Tick(w.s.timer, ms).expired && w.s.backup != [] ==>
              Tick(w.s.timer, ms) == w.s.timer.(passed := To32(w.now + ms - w.started))
  {
    To32Adds(w.now - w.started, ms);
  }

  lemma TickTold(w: Watched, ms: nat)
    requires Sending.Inv(w.s) && Told(w)
    ensures Told(Step(w, SR.TickEvent(ms)))
  {
    ExpiresIff(w, ms);
    SR.WrappedRto(w.s.initialRto, w.expiries);
  }

  lemma StepTold(w: Watched, e: SR.Event)
    requires Sending.Inv(w.s) && Told(w) && SR.Enabled(w.s, e)
    ensures Told(Step(w, e)) && Sending.Inv(Step(w, e).s)
  {
    SR.StepKeeps(w.s, e);
    match e
    case FillEvent => FillTold(w);
    case AckEvent(ackno, win) => AckTold(w, ackno, win);
    case TickEvent(ms) => TickTold(w, ms);
    case _ =>
  }

  lemma {:induction false} RunTold(w: Watched, es: seq<SR.Event>)
    requires Sending.Inv(w.s) && Told(w) && SR.RunEnabled(w.s, es)
    ensures Told(Run(w, es)) && Sending.Inv(Run(w, es).s) && Run(w, es).s == SR.Run(w.s, es)
    decreases |es|
  {
    if es == [] {
    } else {
      StepTold(w, es[0]);
      RunTold(Step(w, es[0]), es[1..]);
    }
  }

  /** Over every run: the number of consecutive expiries, the timeout and the timer are what the history says;
      while something is outstanding, the timer has counted the time since the present wait began. */
  lemma TimerFollowsHistory(capacity: nat, rto: u16, isn: u32, es: seq<SR.Event>)
    requires SR.RunEnabled(Sending.New(capacity, rto, isn), es)
    ensures var w := Run(Watch(capacity, rto, isn), es);
      && w.s == SR.Run(Sending.New(capacity, rto, isn), es) && Told(w)
  {
    InitialIsDoubled(rto);
    RunTold(Watch(capacity, rto, isn), es);
  }

  /** The present wait is over, by a clock of 32 bits. */
  predicate Due(w: Watched, ms: nat) { w.s.backup != [] && To32(w.now + ms - w.started) >= w.wait }

  lemma TickSends(w: Watched, ms: nat)
    requires Sending.Inv(w.s) && Told(w)
    ensures TickSender(w.s, ms).out == w.s.out + (if Due(w, ms) then [w.s.backup[0]] else [])
    ensures Due(w, ms) ==> w.started + w.wait <= w.now + ms
  {
    ExpiresIff(w, ms);
  }

  /** Over every run: a tick sends the oldest outstanding segment again if and only if the wait is over, so
      never before the timeout has passed since the wait began; otherwise it sends nothing. */
  lemma ResendsIff(capacity: nat, rto: u16, isn: u32, es: seq<SR.Event>, ms: nat)
    requires SR.RunEnabled(Sending.New(capacity, rto, isn), es)
    ensures var w := Run(Watch(capacity, rto, isn), es);
      && TickSender(w.s, ms).out == w.s.out + (if Due(w, ms) then [w.s.backup[0]] else [])
      && (Due(w, ms) ==> w.started + w.wait <= w.now + ms)
  {
    InitialIsDoubled(rto);
    RunTold(Watch(capacity, rto, isn), es);
    TickSends(Run(Watch(capacity, rto, isn), es), ms);
  }
}
