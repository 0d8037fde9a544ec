/** Exactly which acknowledgments do no harm: whatever is written afterwards, nothing is sent that starts
    behind the right edge of the receiver's window. */
module AckEffects {
  import opened Words
  import opened SequenceNumbers
  import opened ByteStreams
  import opened Channels
  import opened Sending
  import opened SendingReach
  import opened SendingRuns
  import Reassembly
  import R = Receiving

  // Runs of writes and fills

  predicate Writing(es: seq<Event>) { forall e :: e in es ==> e.WriteEvent? || e.FillEvent? }

  /** Whatever is written, and whenever the window is filled: every segment sent starts inside the edge. */
  ghost predicate StaysInside(s: Sender, r: R.Receiver) {
    forall es :: Writing(es) && RunEnabled(s, es) ==>
      forall g :: g in SendingRuns.Run(s, es).out ==> InsideEdge(g, r)
  }

  lemma {:induction false} RunStarts(s: Sender, es: seq<Event>, b: nat)
    requires Sending.Inv(s) && LastStart(s) <= b && StartsBy(s.out, b) && Writing(es) && RunEnabled(s, es)
    ensures StartsBy(SendingRuns.Run(s, es).out, b)
    decreases |es|
  {
    if es == [] {
    } else {
      assert es[0] in es;
      StepKeeps(s, es[0]);
      match es[0] {
        case WriteEvent(data) => WriteStarts(s, data);
        case FillEvent => FillStarts(s, b);
      }
      RunStarts(SendingRuns.Step(s, es[0]), es[1..], b);
    }
  }

  lemma InsideIfStarts(s: Sender, r: R.Receiver)
    requires Sending.Inv(s) && LastStart(s) <= 1 + R.RightEdge(r) && forall g :: g in s.out ==> InsideEdge(g, r)
    ensures StaysInside(s, r)
  {
    var b := 1 + R.RightEdge(r);
    forall es | Writing(es) && RunEnabled(s, es)
      ensures forall g :: g in SendingRuns.Run(s, es).out ==> InsideEdge(g, r)
    {
      RunStarts(s, es, b);
    }
  }

  /** A run of writes and fills that puts out a segment behind the edge. */
  ghost predicate Outruns(s: Sender, r: R.Receiver, es: seq<Event>) {
    && Writing(es) && RunEnabled(s, es)
    && exists g :: g in SendingRuns.Run(s, es).out && !InsideEdge(g, r)
  }

  lemma OutrunsBefore(s: Sender, r: R.Receiver, e: Event, es: seq<Event>)
    requires (e.WriteEvent? || e.FillEvent?) && Enabled(s, e) && Outruns(SendingRuns.Step(s, e), r, es)
    ensures Outruns(s, r, [e] + es)
  {
    assert ([e] + es)[1..] == es;
  }

  /** The buffer fills the window, or is all there is. */
  lemma FullOutruns(s: Sender, r: R.Receiver)
    requires Sending.Inv(s) && s.synSent && LastStart(s) > 1 + R.RightEdge(r)
    requires |Buffer(s.stream)| >= Reach(s) - s.nextSeqno || Over(s.stream)
    ensures Outruns(s, r, [FillEvent])
  {
    var fill := FillSize(s);
    assert fill == Reach(s) - s.nextSeqno && Takes(s, fill) > 0;
    FillLoopReaches(s, fill);
    var s' := FillWindow(s);
    assert SendingRuns.Run(s', []) == s' && RunEnabled(s', []);
    assert SendingRuns.Run(s, [FillEvent]) == s';
  }

  /** The SYN changes nothing about where data may start. */
  lemma SynFirst(s: Sender)
    requires Sending.Inv(s) && !s.synSent
    ensures var s' := FillWindow(s);
            LastStart(s') == LastStart(s) && Reach(s') == Reach(s) && s'.nextSeqno == 1 && s'.synSent
  {
  }

  /** The buffer goes out, and the window still has room. */
  lemma BufferFirst(s: Sender)
    requires Sending.Inv(s) && Sends(s) && 0 < |Buffer(s.stream)| < Reach(s) - s.nextSeqno && !Over(s.stream)
    ensures var s' := FillWindow(s);
            LastStart(s') == LastStart(s) && Reach(s') == Reach(s) && s'.synSent && s'.nextSeqno > s.nextSeqno
  {
    FillLoopTakes(s, FillSize(s));
    NoFinWhileOpen(s, FillSize(s));
  }

  lemma {:induction false} NoFinWhileOpen(s: Sender, fill: nat)
    requires Sends(s) && !s.stream.inputEnd
    ensures !FillLoop(s, fill).finSent
    decreases fill
  {
    if fill == 0 {
    } else {
      var g := NextSegment(s, fill);
      NextTakes(s, fill);
      if Len(g) > 0 { NoFinWhileOpen(Emit(AfterRead(s, fill), g), fill - Len(g)); }
    }
  }

  /** One byte is written. */
  lemma ByteFirst(s: Sender)
    requires Sending.Inv(s) && Sends(s) && Buffer(s.stream) == [] && s.nextSeqno < Reach(s) && !Over(s.stream)
    ensures var s' := s.(stream := Write(s.stream, [0]));
            LastStart(s') == LastStart(s) && |Buffer(s'.stream)| == 1 && !Over(s'.stream)
  {
    LastFullSteps(s.nextSeqno, Reach(s));
  }

  /** Byte by byte the last number of the window is reached. */
  lemma {:induction false} FindsRun(s: Sender, r: R.Receiver) returns (es: seq<Event>)
    requires Sending.Inv(s) && LastStart(s) > 1 + R.RightEdge(r) && Reach(s) <= Reassembly.LIMIT
    ensures Outruns(s, r, es)
    decreases Reach(s) - s.nextSeqno, if Buffer(s.stream) == [] then 1 else 0
  {
    var e := FillEvent;
    if !s.synSent {
      SynFirst(s);
    } else if |Buffer(s.stream)| >= Reach(s) - s.nextSeqno || Over(s.stream) {
      FullOutruns(s, r);
      return [FillEvent];
    } else if Buffer(s.stream) != [] {
      BufferFirst(s);
    } else {
      e := WriteEvent([0]);
      ByteFirst(s);
    }
    StepKeeps(s, e);
    es := FindsRun(SendingRuns.Step(s, e), r);
    OutrunsBefore(s, r, e, es);
    es := [e] + es;
  }

  /** Exactly when a sender, whatever is written to it, sends nothing that starts behind the edge. */
  lemma StaysInsideIff(s: Sender, r: R.Receiver)
    requires Sending.Inv(s) && Reach(s) <= Reassembly.LIMIT && forall g :: g in s.out ==> InsideEdge(g, r)
    ensures StaysInside(s, r) <==> LastStart(s) <= 1 + R.RightEdge(r)
  {
    if LastStart(s) <= 1 + R.RightEdge(r) {
      InsideIfStarts(s, r);
    } else {
      var es := FindsRun(s, r);
    }
  }

  lemma AckedReach(s: Sender, r: R.Receiver, a: nat, win: u16)
    requires Agree(s, r) && a <= R.AbsAck(r) && Distance(a, s.absAckno) < TWO31
    ensures var s' := AckReceived(s, Wrap(a, s.isn), win);
      && Sending.Inv(s') && s'.out == s.out && Reach(s') == Max(a, s.absAckno) + Max(win, 1)
  {
    AckExact(s, r, a);
    AckReceivedKeeps(s, Wrap(a, s.isn), win);
  }

  lemma AckedStart(s: Sender, r: R.Receiver, a: nat, ackno: u32, win: u16)
    requires NewAckno(s, ackno) == Max(a, s.absAckno)
    ensures LastStart(AckReceived(s, ackno, win)) <= 1 + R.RightEdge(r) <==> NoOverrun(s, r, a, win)
  {
    AckStart(s, ackno, win);
  }

  /** An acknowledgment of something the receiver has, close enough to be understood, does no harm exactly
      when it leaves the sender no data segment that could start behind the edge. */
  lemma AckHarmlessIff(s: Sender, r: R.Receiver, a: nat, win: u16)
    requires Agree(s, r) && a <= R.AbsAck(r) && Distance(a, s.absAckno) < TWO31
    requires Max(a, s.absAckno) + Max(win, 1) <= Reassembly.LIMIT
    ensures StaysInside(AckReceived(s, Wrap(a, s.isn), win), r) <==> NoOverrun(s, r, a, win)
  {
    AckedReach(s, r, a, win);
    AckExact(s, r, a);
    AckedStart(s, r, a, Wrap(a, s.isn), win);
    StaysInsideIff(AckReceived(s, Wrap(a, s.isn), win), r);
  }

  /** For a writer with an open stream and nothing unsent, the condition in numbers. */
  lemma NoOverrunWhenIdle(s: Sender, r: R.Receiver, a: nat, win: u16)
    requires Agree(s, r) && !s.stream.error && !Over(s.stream) && Buffer(s.stream) == []
    ensures var reach := Max(a, s.absAckno) + Max(win, 1);
            NoOverrun(s, r, a, win) <==> s.finSent || reach <= s.nextSeqno || reach <= 2 + R.RightEdge(r)
  {
  }
}
