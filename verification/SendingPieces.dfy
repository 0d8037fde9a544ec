/** What filling the window puts out, in one piece: the bytes that fit, cut into full segments, and the FIN on the
    last of them. */
module SendingPieces {
  import opened Words
  import opened ByteStreams
  import opened Timers
  import opened Sending
  import SR = SendingRuns

  /** `data` from number `abs` on in segments of 1000 bytes, only the last one shorter, with a FIN on it or not. */
  function Pieces(abs: nat, data: seq<byte>, fin: bool): seq<OutSeg>
    decreases |data|
  {
    if |data| > 1000 then [OutSeg(abs, false, false, false, data[..1000])] + Pieces(abs + 1000, data[1000..], fin)
    else if data == [] && !fin then []
    else [OutSeg(abs, false, fin, false, data)]
  }

  /** How many bytes fit, and whether the FIN fits behind them. */
  function Fitting(s: Sender, room: nat): nat { Min(room, if s.stream.error then 0 else |Buffer(s.stream)|) }

  predicate FinFits(s: Sender, room: nat) {
    s.stream.inputEnd && Fitting(s, room) == |Buffer(s.stream)| < room
  }

  function PiecesOf(s: Sender, room: nat): seq<OutSeg> {
    Pieces(s.nextSeqno, Buffer(s.stream)[..Fitting(s, room)], FinFits(s, room))
  }

  /** The sender that has put out everything that fits. */
  function Filled(s: Sender, room: nat): Sender {
    var n, gs := Fitting(s, room), PiecesOf(s, room);
    s.(out := s.out + gs, backup := s.backup + gs,
       timer := if gs == [] || s.timer.active then s.timer else Start(s.rto),
       nextSeqno := s.nextSeqno + n + Count(FinFits(s, room)),
       finSent := FinFits(s, room),
       stream := s.stream.(bytesRead := s.stream.bytesRead + n))
  }

  /** The next segment, and what is left afterwards. */
  lemma FirstPiece(s: Sender, room: nat)
    requires room > 0
    ensures var g := NextSegment(s, room);
      && |g.payload| == Min(1000, Fitting(s, room)) && g.payload == Buffer(s.stream)[..|g.payload|]
      && g.fin == (FinFits(s, room) && Fitting(s, room) <= 1000)
      && AfterRead(s, room) == s.(stream := s.stream.(bytesRead := s.stream.bytesRead + |g.payload|))
  {
  }

  lemma NothingFits(s: Sender, room: nat)
    requires s.synSent && !s.finSent && (room == 0 || Len(NextSegment(s, room)) == 0)
    ensures FillLoop(s, room) == Filled(s, room)
  {
    if room > 0 { FirstPiece(s, room); }
    assert s.out + [] == s.out && s.backup + [] == s.backup;
  }

  lemma LastPiece(s: Sender, room: nat)
    requires s.synSent && !s.finSent && room > 0 && NextSegment(s, room).fin
    ensures FillLoop(s, room) == Filled(s, room)
  {
    FirstPiece(s, room);
    var g := NextSegment(s, room);
    assert Pieces(s.nextSeqno, g.payload, true) == [g];
  }

  /** What fits besides the first segment is what fits after it. */
  lemma RestFits(s: Sender, room: nat, g: OutSeg, e: Sender)
    requires s.synSent && !s.finSent && room > 0 && g == NextSegment(s, room) && Len(g) > 0 && !g.fin
    requires e == Emit(AfterRead(s, room), g)
    ensures Len(g) == |g.payload| <= Fitting(s, room) && Fitting(e, room - Len(g)) == Fitting(s, room) - Len(g)
    ensures FinFits(e, room - Len(g)) == FinFits(s, room) && PiecesOf(s, room) == [g] + PiecesOf(e, room - Len(g))
  {
    FirstPiece(s, room);
    var n := Fitting(s, room);
    assert Buffer(e.stream) == Buffer(s.stream)[Len(g)..];
    assert Buffer(e.stream)[..n - Len(g)] == Buffer(s.stream)[..n][Len(g)..];
    if n > 1000 { assert Buffer(s.stream)[..n][..1000] == g.payload; }
  }

  lemma Prepends(out: seq<OutSeg>, g: OutSeg, gs: seq<OutSeg>)
    ensures out + [g] + gs == out + ([g] + gs)
  {
  }

  lemma OnePieceMore(s: Sender, room: nat, g: OutSeg, e: Sender)
    requires s.synSent && !s.finSent && room > 0 && g == NextSegment(s, room) && Len(g) > 0 && !g.fin
    requires e == Emit(AfterRead(s, room), g)
    ensures Len(g) <= room && Filled(e, room - Len(g)) == Filled(s, room)
  {
    RestFits(s, room, g, e);
    FirstPiece(s, room);
    Prepends(s.out, g, PiecesOf(e, room - Len(g)));
    Prepends(s.backup, g, PiecesOf(e, room - Len(g)));
  }

  /** The loop, round by round, puts out exactly the pieces. */
  lemma {:induction false} FillLoopIsPieces(s: Sender, room: nat)
    requires s.synSent && !s.finSent
    ensures FillLoop(s, room) == Filled(s, room)
    decreases room
  {
    if room == 0 || Len(NextSegment(s, room)) == 0 {
      NothingFits(s, room);
    } else if NextSegment(s, room).fin {
      LastPiece(s, room);
    } else {
      var g := NextSegment(s, room);
      var e := Emit(AfterRead(s, room), g);
      OnePieceMore(s, room, g, e);
      FillLoopIsPieces(e, room - Len(g));
    }
  }

  /** The numbers that the window (taken as at least one) leaves free. */
  function Room(s: Sender): nat { Max(0, s.absAckno + Max(s.windowSize, 1) - s.nextSeqno) }

  /** What `FillWindow` should do. */
  function FilledWindow(s: Sender): Sender {
    if !s.synSent then
      s.(out := s.out + [SYN_SEGMENT], backup := [SYN_SEGMENT], timer := Start(s.rto), nextSeqno := 1, synSent := true)
    else if s.finSent then s
    else Filled(s, Room(s))
  }

  lemma FillsExactly(s: Sender)
    requires Sending.Inv(s)
    ensures FillWindow(s) == FilledWindow(s)
  {
    if s.synSent && !s.finSent { FillLoopIsPieces(s, FillSize(s)); }
  }

  /** At every point of every run: filling puts out the SYN alone if it was not sent yet, nothing after the FIN,
      and else the bytes that fit the window in full segments with the FIN on the last one if it fits, all of it
      also into the retransmission queue, whose timer starts if it was not running. */
  lemma FillIsExact(capacity: nat, rto: u16, isn: u32, es: seq<SR.Event>)
    requires SR.RunEnabled(Sending.New(capacity, rto, isn), es)
    ensures var s := SR.Run(Sending.New(capacity, rto, isn), es);
            FillWindow(s) == FilledWindow(s)
  {
    SR.RunKeeps(Sending.New(capacity, rto, isn), es);
    FillsExactly(SR.Run(Sending.New(capacity, rto, isn), es));
  }
}
