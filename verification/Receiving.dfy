/** The receiving half of a TCP connection (libsponge/tcp_receiver.cc). */
module Receiving {
  import opened Words
  import opened SequenceNumbers
  import opened ByteStreams
  import opened Segments
  import opened Reassembly

  datatype Receiver = Receiver(reassembler: Reassembler, isn: Option<u32>, ackno: Option<u32>)

  function New(capacity: nat): Receiver {
    Receiver(Reassembly.New(capacity), None, None)
  }

  function StreamIndex(r: Receiver, seqno: u32, isn: u32): u64 {
    To64(Unwrap(seqno, isn, r.reassembler.firstUnassembled) - 1)
  }

  function SegmentReceived(r: Receiver, seg: TCPSegment): Receiver {
    var h := seg.header;
    match r.isn
    case None =>
      if !h.syn then r
      else
        var re := Push(r.reassembler, seg.payload, 0, h.fin);
        Receiver(re, Some(h.seqno), Some(Wrap(1 + re.firstUnassembled + Count(h.fin), h.seqno)))
    case Some(isn) =>
      var re := Push(r.reassembler, seg.payload, StreamIndex(r, h.seqno, isn), h.fin);
      Stepped(r, re, isn)
  }

  /** The reassembler has moved on, and the acknowledgment number with it. */
  function Stepped(r: Receiver, re: Reassembler, isn: u32): Receiver {
    Receiver(re, r.isn, Some(Wrap(re.firstUnassembled + 1 + Count(ReachEnd(re)), isn)))
  }

  function WindowSize(r: Receiver): nat { Remaining(r.reassembler.output) }

  function Output(r: Receiver): Stream { r.reassembler.output }

  function WithOutput(r: Receiver, s: Stream): Receiver {
    r.(reassembler := r.reassembler.(output := s))
  }

  /** The absolute number of the first position the receiver still lacks: the SYN, then the bytes,
      then the FIN. */
  function AbsAck(r: Receiver): nat {
    if r.isn.None? then 0 else 1 + r.reassembler.firstUnassembled + Count(Output(r).inputEnd)
  }

  /** One past the last stream index inside the window. */
  function RightEdge(r: Receiver): nat { Edge(r.reassembler) }

  /** The receiver is in step with a sender of initial number `isn` that has sent `t` so far. */
  ghost predicate Follows(r: Receiver, isn: u32, t: seq<byte>) {
    && Reassembly.Inv(r.reassembler, t)
    && (r.isn.None? ==> r.ackno.None? && r.reassembler == Reassembly.New(Output(r).capacity))
    && (r.isn.Some? ==> r.isn.value == isn && r.ackno == Some(Wrap(AbsAck(r), isn)))
  }

  /** `r'` is a later state of the same receiver: nothing it has promised is taken back. */
  predicate Later(r: Receiver, r': Receiver) {
    && (r.isn.Some? ==> r'.isn == r.isn)
    && Output(r).log <= Output(r').log
    && r.reassembler.firstUnassembled <= r'.reassembler.firstUnassembled
    && (Output(r).inputEnd ==> Output(r').inputEnd && Output(r').log == Output(r).log)
    && AbsAck(r) <= AbsAck(r') && RightEdge(r) <= RightEdge(r')
    && Output(r).capacity == Output(r').capacity
    && (Output(r).error ==> Output(r').error)
  }

  /** A segment that brings data or the end of the stream. */
  predicate HasContent(seg: TCPSegment) { seg.payload != [] || seg.header.fin }

  /** A number that `Unwrap` recovers exactly: less than 2^31 away from the checkpoint, and not in
      the first block while the checkpoint is in the second. */
  predicate Timely(v: nat, checkpoint: nat) {
    Distance(v, checkpoint) < TWO31 && !(TWO32 <= checkpoint < TWO33 && v < TWO32)
  }

  /** `seg` carries the position `abs` of a stream: the part of `t` there, a SYN only alone at 0,
      a FIN only right behind the last byte of `t`. */
  predicate Carries(seg: TCPSegment, abs: nat, isn: u32, t: seq<byte>) {
    && abs < TWO64 && seg.header.seqno == Wrap(abs, isn)
    && (seg.header.syn ==> abs == 0 && seg.payload == [] && !seg.header.fin)
    && (seg.payload != [] ==> abs >= 1 && SliceOf(t, seg.payload, abs - 1))
    && (seg.header.fin ==> abs >= 1 && abs - 1 + |seg.payload| == |t|)
  }

  /** Of two states in step with `t`, the one that has assembled more has written more. */
  lemma InvLater(re: Reassembler, re': Reassembler, t: seq<byte>)
    requires Reassembly.Inv(re, t) && Reassembly.Inv(re', t)
    requires re.firstUnassembled <= re'.firstUnassembled && (re.hasEof ==> re'.hasEof)
    ensures re.output.log <= re'.output.log && (re.output.inputEnd ==> re'.output.inputEnd)
  {
  }

  lemma PushFollows(re: Reassembler, t: seq<byte>, data: seq<byte>, index: u64, eof: bool)
    requires Reassembly.Inv(re, t) && Fits(re, t, data, index, eof)
    ensures var re' := Push(re, data, index, eof);
            && Reassembly.Inv(re', t) && re'.output.bytesRead == re.output.bytesRead
            && re'.output.capacity == re.output.capacity && re.firstUnassembled <= re'.firstUnassembled
            && re.output.log <= re'.output.log && (re.output.inputEnd ==> re'.output.inputEnd)
            && re'.hasEof == (re.hasEof || eof)
  {
    PushSound(re, t, data, index, eof);
    InvLater(re, Push(re, data, index, eof), t);
  }

  /** In step with the stream, the end of the output and the end of the stream are one. */
  lemma EndedIffReached(re: Reassembler, t: seq<byte>)
    requires Reassembly.Inv(re, t)
    ensures re.output.inputEnd <==> ReachEnd(re)
  {
  }

  lemma IndexBefore(abs: nat)
    requires abs < TWO64
    ensures To64(abs - 1) == if abs >= 1 then abs - 1 else TWO64 - 1
  {
  }

  /** The index at which a timely segment enters the reassembler. */
  lemma TimelyIndex(r: Receiver, seg: TCPSegment, abs: nat, isn: u32)
    requires abs < TWO64 && r.reassembler.firstUnassembled < TWO64 && seg.header.seqno == Wrap(abs, isn)
    requires Timely(abs, r.reassembler.firstUnassembled)
    ensures StreamIndex(r, seg.header.seqno, isn) == (if abs >= 1 then abs - 1 else TWO64 - 1)
  {
    var u: int := Unwrap(seg.header.seqno, isn, r.reassembler.firstUnassembled);
    assert u == abs by { RoundTripIff(abs, isn, r.reassembler.firstUnassembled); }
    IndexBefore(abs);
  }

  lemma ReceiveFirst(r: Receiver, seg: TCPSegment, abs: nat, isn: u32, t: seq<byte>)
    requires Follows(r, isn, t) && Carries(seg, abs, isn, t) && r.isn.None? && seg.header.syn
    ensures var r' := SegmentReceived(r, seg);
            && Follows(r', isn, t) && Later(r, r') && RightEdge(r') == RightEdge(r)
            && !r'.reassembler.hasEof && r'.isn.Some?
  {
  }

  lemma CarriesFits(re: Reassembler, seg: TCPSegment, abs: nat, isn: u32, t: seq<byte>, index: u64)
    requires Reassembly.Inv(re, t) && Carries(seg, abs, isn, t) && (seg.payload != [] ==> abs - 1 <= Edge(re))
    requires index == (if abs >= 1 then abs - 1 else TWO64 - 1)
    ensures Fits(re, t, seg.payload, index, seg.header.fin)
  {
  }

  lemma SteppedFollows(r: Receiver, re: Reassembler, isn: u32, t: seq<byte>)
    requires Follows(r, isn, t) && r.isn == Some(isn) && Reassembly.Inv(re, t)
    requires re.output.bytesRead == Output(r).bytesRead && re.output.capacity == Output(r).capacity
    requires r.reassembler.firstUnassembled <= re.firstUnassembled && (r.reassembler.hasEof ==> re.hasEof)
    ensures var r' := Stepped(r, re, isn);
            Follows(r', isn, t) && Later(r, r') && RightEdge(r') == RightEdge(r)
  {
  }

  lemma ReceiveSteps(r: Receiver, seg: TCPSegment, isn: u32)
    requires r.isn == Some(isn)
    ensures SegmentReceived(r, seg)
         == Stepped(r, Push(r.reassembler, seg.payload, StreamIndex(r, seg.header.seqno, isn), seg.header.fin), isn)
  {
  }

  lemma ReceiveFitting(r: Receiver, seg: TCPSegment, isn: u32, t: seq<byte>, index: u64)
    requires Follows(r, isn, t) && r.isn.Some? && index == StreamIndex(r, seg.header.seqno, isn)
    requires Fits(r.reassembler, t, seg.payload, index, seg.header.fin)
    ensures var r' := SegmentReceived(r, seg);
            && Follows(r', isn, t) && Later(r, r') && RightEdge(r') == RightEdge(r)
            && r'.reassembler.hasEof == (r.reassembler.hasEof || seg.header.fin)
  {
    var re := Push(r.reassembler, seg.payload, index, seg.header.fin);
    PushFollows(r.reassembler, t, seg.payload, index, seg.header.fin);
    SteppedFollows(r, re, isn, t);
    ReceiveSteps(r, seg, isn);
  }

  lemma ReceiveNext(r: Receiver, seg: TCPSegment, abs: nat, isn: u32, t: seq<byte>)
    requires Follows(r, isn, t) && Carries(seg, abs, isn, t) && r.isn.Some?
    requires Timely(abs, r.reassembler.firstUnassembled)
    requires seg.payload != [] ==> abs - 1 <= RightEdge(r)
    ensures var r' := SegmentReceived(r, seg);
            && Follows(r', isn, t) && Later(r, r') && RightEdge(r') == RightEdge(r)
            && r'.reassembler.hasEof == (r.reassembler.hasEof || seg.header.fin)
  {
    var index := StreamIndex(r, seg.header.seqno, isn);
    TimelyIndex(r, seg, abs, isn);
    CarriesFits(r.reassembler, seg, abs, isn, t, index);
    ReceiveFitting(r, seg, isn, t, index);
  }

  /** Receiving a segment of the stream keeps the receiver in step with it, and its acknowledgment
      number never moves back; a segment with content must be one whose place is recovered. */
  lemma ReceiveKeeps(r: Receiver, seg: TCPSegment, abs: nat, isn: u32, t: seq<byte>)
    requires Follows(r, isn, t) && Carries(seg, abs, isn, t)
    requires r.isn.Some? && HasContent(seg) ==> Timely(abs, r.reassembler.firstUnassembled)
    requires seg.payload != [] ==> abs - 1 <= RightEdge(r)
    ensures var r' := SegmentReceived(r, seg);
            && Follows(r', isn, t) && Later(r, r') && RightEdge(r') == RightEdge(r)
            && (r'.reassembler.hasEof ==> r.reassembler.hasEof || seg.header.fin)
            && (r'.isn.Some? <==> r.isn.Some? || seg.header.syn)
  {
    if r.isn.Some? && HasContent(seg) {
      ReceiveNext(r, seg, abs, isn, t);
    } else if r.isn.Some? {
      ReceiveFitting(r, seg, isn, t, StreamIndex(r, seg.header.seqno, isn));
    } else if seg.header.syn {
      ReceiveFirst(r, seg, abs, isn, t);
    }
  }

  /** A push that brings the first missing byte, with room for it, moves the front. */
  lemma PushAdvances(re: Reassembler, t: seq<byte>, data: seq<byte>, index: u64, eof: bool)
    requires Reassembly.Inv(re, t) && Fits(re, t, data, index, eof)
    requires index <= re.firstUnassembled < Min(index + |data|, Edge(re))
    ensures Push(re, data, index, eof).firstUnassembled > re.firstUnassembled
  {
    var re' := Push(re, data, index, eof);
    PushCovers(re, t, data, index, eof);
    assert InWindow(re, data, index, re.firstUnassembled);
    assert Covers(re', re.firstUnassembled);
    assert !Covers(re', re'.firstUnassembled);
  }

  /** A segment that covers the number the receiver waits for: the missing byte, or the FIN. */
  lemma CoveringAdvances(r: Receiver, seg: TCPSegment, abs: nat, isn: u32, t: seq<byte>)
    requires Follows(r, isn, t) && Carries(seg, abs, isn, t) && r.isn.Some?
    requires Timely(abs, r.reassembler.firstUnassembled) && (seg.payload != [] ==> abs - 1 <= RightEdge(r))
    requires abs <= AbsAck(r) < abs + LengthInSequenceSpace(seg) && !Output(r).inputEnd
    requires AbsAck(r) > |t| || WindowSize(r) > 0
    ensures AbsAck(r) < AbsAck(SegmentReceived(r, seg))
  {
    var re := r.reassembler;
    TimelyIndex(r, seg, abs, isn);
    var index := StreamIndex(r, seg.header.seqno, isn);
    CarriesFits(re, seg, abs, isn, t, index);
    PushFollows(re, t, seg.payload, index, seg.header.fin);
    WindowEdge(re, t);
    var re' := Push(re, seg.payload, index, seg.header.fin);
    if re.firstUnassembled < abs - 1 + |seg.payload| {
      PushAdvances(re, t, seg.payload, index, seg.header.fin);
    } else {
      EndedIffReached(re', t);
    }
  }

  /** Reading from the assembled stream only opens the window. */
  lemma ReadKeeps(r: Receiver, isn: u32, t: seq<byte>, len: nat)
    requires Follows(r, isn, t)
    ensures var r' := WithOutput(r, Read(Output(r), len));
            && Follows(r', isn, t) && Later(r, r')
            && RightEdge(r') == RightEdge(r) + |Taken(Output(r), len)|
  {
  }

  /** The stream may grow behind the receiver's back until its end is marked. */
  lemma FollowsMore(r: Receiver, isn: u32, t: seq<byte>, t': seq<byte>)
    requires Follows(r, isn, t) && t <= t' && |t'| <= LIMIT && (r.reassembler.hasEof ==> t' == t)
    ensures Follows(r, isn, t')
  {
  }

  /** The acknowledgment number and the window that the receiver advertises. */
  lemma Promise(r: Receiver, isn: u32, t: seq<byte>)
    requires Follows(r, isn, t)
    ensures r.isn.Some? ==> r.ackno == Some(Wrap(1 + |Output(r).log| + Count(Output(r).inputEnd), isn))
    ensures r.reassembler.firstUnassembled + WindowSize(r) == RightEdge(r)
         == Output(r).capacity + Output(r).bytesRead
    ensures Output(r).log <= t && (Output(r).inputEnd ==> Output(r).log == t)
  {
  }

  /** What a fresh reassembler makes of a first push at index 0. */
  lemma FirstPushReaches(capacity: nat, t: seq<byte>, eof: bool)
    requires |t| <= LIMIT
    ensures var re := Push(Reassembly.New(capacity), t, 0, eof);
            re.firstUnassembled == Min(capacity, |t|) && Reassembly.Inv(re, t) && re.hasEof == eof
  {
    var re, re' := Reassembly.New(capacity), Push(Reassembly.New(capacity), t, 0, eof);
    var n := re'.firstUnassembled;
    PushCovers(re, t, t, 0, eof);
    assert n > 0 ==> Covers(re', n - 1);
    assert !Covers(re', n);
  }

  lemma EndedIffAll(re: Reassembler, t: seq<byte>)
    requires Reassembly.Inv(re, t)
    ensures re.output.inputEnd <==> re.hasEof && re.firstUnassembled == |t|
  {
  }

  lemma FirstPush(capacity: nat, t: seq<byte>, eof: bool)
    requires |t| <= LIMIT
    ensures var re := Push(Reassembly.New(capacity), t, 0, eof);
            re.firstUnassembled == Min(capacity, |t|) && re.output.inputEnd == (eof && |t| <= capacity)
  {
    FirstPushReaches(capacity, t, eof);
    EndedIffAll(Push(Reassembly.New(capacity), t, 0, eof), t);
  }

  lemma WrapStep(x: nat, isn: u32)
    requires x < LIMIT * 2
    ensures Wrap(x + 1, isn) != Wrap(x, isn)
  {
  }

  /** A SYN that already carries data: exactly when its FIN is taken although some of the data was
      cut, the acknowledgment number runs ahead of what has been assembled. */
  lemma FirstSynAckIff(capacity: nat, seg: TCPSegment)
    requires seg.header.syn && |seg.payload| <= LIMIT
    ensures var r := SegmentReceived(New(capacity), seg);
            && AbsAck(r) == 1 + Min(capacity, |seg.payload|) + Count(seg.header.fin && |seg.payload| <= capacity)
            && (r.ackno == Some(Wrap(AbsAck(r), seg.header.seqno))
                <==> !(seg.header.fin && |seg.payload| > capacity))
  {
    FirstPush(capacity, seg.payload, seg.header.fin);
    WrapStep(1 + Min(capacity, |seg.payload|), seg.header.seqno);
  }
}
