/** The receiver as the source keeps it. */
module ReceiverImpl {
  import opened Words
  import opened SequenceNumbers
  import opened Segments
  import R = Receiving
  import opened ReassemblerImpl

  class TCPReceiver {
    const reassembler: StreamReassembler
    const capacity: nat
    var isn: Option<u32>
    var ackno: Option<u32>

    ghost function Repr(): set<object> {
      {this, reassembler, reassembler.output}
    }

    ghost predicate Valid()
      reads this, reassembler, reassembler.output
    {
      reassembler.Valid() && reassembler.output.capacity == capacity
    }

    ghost function Model(): R.Receiver
      reads this, reassembler, reassembler.output
      requires Valid()
    {
      R.Receiver(reassembler.Model(), isn, ackno)
    }

    constructor (capacity: nat)
      ensures Valid() && Model() == R.New(capacity) && fresh(reassembler) && fresh(reassembler.output)
    {
      reassembler := new StreamReassembler(capacity);
      this.capacity := capacity;
      isn, ackno := None, None;
    }

    function WindowSize(): (n: nat)
      reads this, reassembler, reassembler.output
      requires Valid()
      ensures n == R.WindowSize(Model())
    {
      capacity - |reassembler.output.buffer|
    }

    method SegmentReceived(seg: TCPSegment)
      requires Valid()
      modifies this, reassembler, reassembler.output
      ensures Valid() && Model() == R.SegmentReceived(old(Model()), seg)
    {
      if isn.None? && !seg.header.syn {
        return;
      }
      if seg.header.syn && isn.None? {
        isn := Some(seg.header.seqno);
        reassembler.PushSubstring(seg.payload, 0, seg.header.fin);
        ackno := Some(Wrap(1 + reassembler.firstUnassembled + Count(seg.header.fin), isn.value));
        return;
      }
      PushNext(seg);
    }

    /** A segment after the SYN: find its place in the stream and hand it to the reassembler. */
    method PushNext(seg: TCPSegment)
      requires Valid() && isn.Some?
      modifies this, reassembler, reassembler.output
      ensures Valid() && Model() == R.SegmentReceived(old(Model()), seg)
    {
      ghost var before := Model();
      var absSeqno: int := Unwrap(seg.header.seqno, isn.value, reassembler.firstUnassembled);
      var segIdx := To64(absSeqno - 1);
      assert segIdx == R.StreamIndex(before, seg.header.seqno, isn.value);
      reassembler.PushSubstring(seg.payload, segIdx, seg.header.fin);
      ghost var after := reassembler.Model();
      var next := reassembler.firstUnassembled + 1 + (if reassembler.AtEnd() then 1 else 0);
      ackno := Some(Wrap(next, isn.value));
      assert Model() == R.Receiver(after, before.isn, Some(Wrap(next, before.isn.value)));
    }
  }
}
