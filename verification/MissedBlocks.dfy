/** Exactly when a receiver can place a segment: what a segment from below 2^32 does to one that is past it. */
module MissedBlocks {
  import opened Words
  import opened SequenceNumbers
  import opened Segments
  import opened Reassembly
  import opened ReassemblyWindow
  import ReassemblyRuns
  import opened Receiving

  /** A segment from below 2^32 is placed 2^32 too far by a receiver that is past it. */
  lemma PlacedTooFar(r: Receiver, seg: TCPSegment, abs: nat, isn: u32)
    requires seg.header.seqno == Wrap(abs, isn) && abs >= 1
    requires abs < TWO32 <= r.reassembler.firstUnassembled < TWO33 && r.reassembler.firstUnassembled < abs + TWO31
    ensures StreamIndex(r, seg.header.seqno, isn) == abs - 1 + TWO32
  {
    UnwrapSkipsUp(abs, isn, r.reassembler.firstUnassembled);
  }

  /** There it lies past the window and is stored whole, to displace what belongs there. */
  lemma StoredTooFar(r: Receiver, seg: TCPSegment, abs: nat, isn: u32, t: seq<byte>)
    requires Receiving.Follows(r, isn, t) && Carries(seg, abs, isn, t) && r.isn.Some? && seg.payload != []
    requires abs < TWO32 <= r.reassembler.firstUnassembled < TWO33 && r.reassembler.firstUnassembled < abs + TWO31
    requires 0 < Output(r).capacity < TWO31 && abs - 1 + TWO32 + |seg.payload| <= |t|
    ensures Doomed(SegmentReceived(r, seg).reassembler, t, Chunk(abs - 1 + TWO32, seg.payload))
  {
    PlacedTooFar(r, seg, abs, isn);
    WindowEdge(r.reassembler, t);
    ReceiveSteps(r, seg, isn);
    PastTheWindow(r.reassembler, t, seg.payload, abs - 1 + TWO32, false);
  }

  /** A segment with data, of a stream that goes on for another 2^32 bytes: the receiver's output stays right
      whatever fitting pushes and reads follow, exactly when `unwrap` recovers the segment's place. */
  lemma SegmentSafeIff(r: Receiver, seg: TCPSegment, abs: nat, isn: u32, t: seq<byte>)
    requires Receiving.Follows(r, isn, t) && Carries(seg, abs, isn, t) && r.isn.Some? && seg.payload != []
    requires Distance(abs, r.reassembler.firstUnassembled) < TWO31 && abs - 1 <= RightEdge(r)
    requires 0 < Output(r).capacity < TWO31 && abs - 1 + TWO32 + |seg.payload| <= |t|
    ensures Safe(SegmentReceived(r, seg).reassembler, t) <==> Timely(abs, r.reassembler.firstUnassembled)
  {
    var re := SegmentReceived(r, seg).reassembler;
    if Timely(abs, r.reassembler.firstUnassembled) {
      ReceiveKeeps(r, seg, abs, isn, t);
      InvIsSafe(re, t);
    } else {
      StoredTooFar(r, seg, abs, isn, t);
      var ops := DoomedIsLost(re, t, Chunk(abs - 1 + TWO32, seg.payload));
      assert !InStep(ReassemblyRuns.Run(re, ops), t);
    }
  }
}
