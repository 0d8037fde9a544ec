/** A receiver that takes in more than 2^33 bytes, a thousand at a time, and is handed an old block in between. */
module LongReceivers {
  import opened Words
  import opened SequenceNumbers
  import opened Segments
  import opened Reassembly
  import opened Receiving
  import opened LongRuns
  import ByteStreams
  import MissedBlocks
  import ReassemblyRuns

  /** The block that comes again, 2^32 too far. */
  const FAR: Chunk := Chunk(1000 * BLOCKS + TWO32, ZeroBytes(1000))

  /** The block in whose middle it lies. */
  const LAST: nat := 8589934

  /** `k` blocks are assembled. */
  predicate Holds(r: Receiver, k: nat, buffer: seq<Chunk>) {
    && k <= LAST && r.isn == Some(0) && r.ackno == Some(Wrap(1 + 1000 * k, 0))
    && !r.reassembler.hasEof && r.reassembler.buffer == buffer && r.reassembler.firstUnassembled == 1000 * k
    && Output(r).capacity == 2000 && !Output(r).inputEnd && !Output(r).error && |Output(r).log| == 1000 * k
  }

  /** And the reader has read them all. */
  predicate Idle(r: Receiver, k: nat, buffer: seq<Chunk>) {
    Holds(r, k, buffer) && Output(r).bytesRead == 1000 * k
  }

  lemma NextIndex(r: Receiver)
    requires r.reassembler.firstUnassembled <= LIMIT
    ensures var n := r.reassembler.firstUnassembled;
            StreamIndex(r, Wrap(1 + n, 0), 0) == n
  {
    RoundTripIff(1 + r.reassembler.firstUnassembled, 0, r.reassembler.firstUnassembled);
  }

  lemma BlockIndex(r: Receiver, k: nat)
    requires r.reassembler.firstUnassembled == 1000 * k && k <= LAST
    ensures StreamIndex(r, Wrap(1 + 1000 * k, 0), 0) == 1000 * k
  {
    NextIndex(r);
  }

  /** A push that continues the output, with nothing stored or something far ahead. */
  lemma PushAhead(re: Reassembler, data: seq<byte>)
    requires !re.hasEof && !re.output.inputEnd && !re.output.error && |data| <= ByteStreams.Remaining(re.output)
    requires re.firstUnassembled + |data| < TWO64
    requires forall c :: c in re.buffer ==> c.index > re.firstUnassembled + |data| && c.index + |c.data| < TWO64
    ensures Push(re, data, re.firstUnassembled, false)
         == re.(output := re.output.(log := re.output.log + data), firstUnassembled := re.firstUnassembled + |data|)
  {
    assert Truncate(re, data, re.firstUnassembled) == data;
    var s := PushOne(re, data, re.firstUnassembled);
    assert s == re.(output := re.output.(log := re.output.log + data),
                    firstUnassembled := re.firstUnassembled + |data|);
    forall c | c in s.buffer ensures !Ready(s.firstUnassembled, c.data, c.index) {
      assert To64(c.index + |c.data|) == c.index + |c.data|;
    }
    assert Drain(s) == s;
  }

  lemma TakesBlock(r: Receiver, k: nat, buffer: seq<Chunk>, seg: TCPSegment)
    requires Idle(r, k, buffer) && k < LAST && (buffer == [] || buffer == [FAR])
    requires seg.header.seqno == Wrap(1 + 1000 * k, 0) && |seg.payload| == 1000 && !seg.header.fin
    ensures var r' := SegmentReceived(r, seg);
            Holds(r', k + 1, buffer) && Output(r').bytesRead == 1000 * k
  {
    BlockIndex(r, k);
    ReceiveSteps(r, seg, 0);
    PushAhead(r.reassembler, seg.payload);
  }

  lemma TakesNothing(r: Receiver, k: nat, seg: TCPSegment)
    requires Idle(r, k, []) && seg.header.seqno == Wrap(1 + 1000 * k, 0) && seg.payload == [] && !seg.header.fin
    ensures Idle(SegmentReceived(r, seg), k, [])
  {
    BlockIndex(r, k);
    ReceiveSteps(r, seg, 0);
    PushAhead(r.reassembler, []);
  }

  /** The reader reads a block. */
  lemma ReadsBlock(r: Receiver, k: nat, buffer: seq<Chunk>)
    requires Holds(r, k + 1, buffer) && Output(r).bytesRead == 1000 * k
    ensures Idle(WithOutput(r, ByteStreams.Read(Output(r), 1000)), k + 1, buffer)
  {
  }

  /** The old block: it is put 2^32 too far and stored. */
  lemma TakesOldBlock(r: Receiver, seg: TCPSegment)
    requires Idle(r, BLOCKS + 1, []) && !seg.header.fin
    requires seg.header.seqno == Wrap(1 + 1000 * BLOCKS, 0) && seg.payload == ZeroBytes(1000)
    ensures Idle(SegmentReceived(r, seg), BLOCKS + 1, [FAR])
  {
    MissedBlocks.PlacedTooFar(r, seg, 1 + 1000 * BLOCKS, 0);
    ReceiveSteps(r, seg, 0);
    ReassemblyRuns.PushFarIsStored(r.reassembler, seg.payload, 1000 * BLOCKS + TWO32);
  }

  /** Using up the old block behind the true ones. */
  lemma OldBlockShows(s: Reassembler)
    requires s.buffer == [FAR] && s.firstUnassembled == 1000 * LAST + 1000 && !s.hasEof
    requires !s.output.inputEnd && !s.output.error && ByteStreams.Remaining(s.output) >= 296
    ensures var zeros := ZeroBytes(1000)[704..];
            |zeros| == 296 && Drain(s).output == s.output.(log := s.output.log + zeros)
  {
    var zeros := ZeroBytes(1000)[704..];
    assert To64(FAR.index + 1000) == FAR.index + 1000 == s.firstUnassembled + 296;
    assert Substr(FAR.data, s.firstUnassembled - FAR.index, 296) == zeros;
    assert zeros[..296] == zeros;
    assert FirstReady(s.buffer, s.firstUnassembled) == 0;
    var d := DrainStep(s, 0);
    assert d.buffer == [] && Drain(d) == d;
  }

  lemma PushLastBlock(re: Reassembler, data: seq<byte>)
    requires re.buffer == [FAR] && re.firstUnassembled == 1000 * LAST && !re.hasEof && |data| == 1000
    requires !re.output.inputEnd && !re.output.error && ByteStreams.Remaining(re.output) >= 1296
    ensures Push(re, data, re.firstUnassembled, false).output
         == re.output.(log := re.output.log + data + ZeroBytes(1000)[704..])
  {
    assert Truncate(re, data, re.firstUnassembled) == data;
    var s := PushOne(re, data, re.firstUnassembled);
    assert s == re.(output := re.output.(log := re.output.log + data), firstUnassembled := re.firstUnassembled + 1000);
    OldBlockShows(s);
  }

  /** With the block in whose middle the old one lies, bytes are written out that nobody has sent. */
  lemma TakesLastBlock(r: Receiver, seg: TCPSegment)
    requires Idle(r, LAST, [FAR])
    requires seg.header.seqno == Wrap(1 + 1000 * LAST, 0) && |seg.payload| == 1000 && !seg.header.fin
    ensures var log := Output(SegmentReceived(r, seg)).log;
            |log| == 1000 * LAST + 1296 && log[1000 * LAST + 1000] == 0
  {
    BlockIndex(r, LAST);
    ReceiveSteps(r, seg, 0);
    PushLastBlock(r.reassembler, seg.payload);
  }
}
