/** What the reassembler does with bytes past the end of the stream, once the end is known: any bytes at all, not only
    those of one stream. */
module ReassemblyEnd {
  import opened Words
  import opened Reassembly
  import opened ReassemblyRuns
  import ReassemblyWindow

  predicate ChunkWithin(c: Chunk, end: nat) { c.data == [] || c.index + |c.data| <= end }

  /** The stream is known to have `end` bytes, and nothing assembled or stored lies past it. */
  predicate Within(r: Reassembler, end: nat) {
    && r.hasEof && To64(r.finalIdx + 1) == end && r.firstUnassembled <= end && |r.output.log| <= end
    && forall c :: c in r.buffer ==> ChunkWithin(c, end)
  }

  /** No number wraps around, and a mark of the end is the same as before. */
  predicate Agrees(data: seq<byte>, index: u64, eof: bool, end: nat) {
    index + |data| < TWO64 && (eof ==> index + |data| == end)
  }

  lemma SameMark(r: Reassembler, data: seq<byte>, index: u64, eof: bool, end: nat)
    requires Within(r, end) && Agrees(data, index, eof, end)
    ensures NoteEof(r, data, index, eof) == r
  {
  }

  lemma WindowShortens(r: Reassembler, data: seq<byte>, index: u64)
    ensures |CutAtWindow(r, data, index)| <= |data|
  {
  }

  /** Data that starts no later than the end is cut there. */
  lemma CutFits(r: Reassembler, data: seq<byte>, index: u64, end: nat)
    requires Within(r, end) && index + |data| < TWO64 && index <= end
    ensures index + |Truncate(r, data, index)| <= end
  {
    var cut := CutAtEof(r, data, index);
    assert index + |cut| <= end by { assert To64(r.finalIdx - index + 1) == end - index; }
    WindowShortens(r, cut, index);
  }

  lemma Distances(finalIdx: u64, index: u64, end: nat)
    requires To64(finalIdx + 1) == end < index
    ensures To64(finalIdx - index + 1) == TWO64 + end - index
  {
  }

  /** What the window leaves of non-empty data. */
  lemma WindowLeaves(r: Reassembler, data: seq<byte>, index: u64)
    requires index + |data| < TWO64
    ensures CutAtWindow(r, data, index) == [] <==> data == [] || index == FirstUnacceptable(r)
  {
  }

  /** Data that starts past it is not, because an unsigned subtraction wraps around. */
  lemma CutMisses(r: Reassembler, data: seq<byte>, index: u64, end: nat)
    requires Within(r, end) && index + |data| < TWO64 && index > end
    ensures CutAtEof(r, data, index) == data
    ensures Truncate(r, data, index) == [] <==> data == [] || index == FirstUnacceptable(r)
  {
    Distances(r.finalIdx, index, end);
    WindowLeaves(r, data, index);
  }

  lemma PushOneWithin(r: Reassembler, data: seq<byte>, index: u64, end: nat)
    requires Within(r, end) && ChunkWithin(Chunk(index, data), end) && |r.output.log| <= r.firstUnassembled
    ensures var s := PushOne(r, data, index);
            Within(s, end) && s.buffer == r.buffer && |s.output.log| <= s.firstUnassembled
  {
  }

  lemma {:induction false} DrainWithin(r: Reassembler, end: nat)
    requires Within(r, end) && |r.output.log| <= r.firstUnassembled
    ensures Within(Drain(r), end) && |Drain(r).output.log| <= Drain(r).firstUnassembled
    decreases |r.buffer|
  {
    var i := FirstReady(r.buffer, r.firstUnassembled);
    if i == |r.buffer| {
    } else {
      assert r.buffer[i] in r.buffer;
      PushOneWithin(r, r.buffer[i].data, r.buffer[i].index, end);
      DrainWithin(DrainStep(r, i), end);
    }
  }

  lemma PushWithin(r: Reassembler, data: seq<byte>, index: u64, eof: bool, end: nat)
    requires Within(r, end) && |r.output.log| <= r.firstUnassembled && Agrees(data, index, eof, end)
    requires ChunkWithin(Chunk(index, Truncate(r, data, index)), end)
    ensures var s := Push(r, data, index, eof);
            Within(s, end) && |s.output.log| <= s.firstUnassembled
  {
    var cut := Truncate(r, data, index);
    SameMark(r, data, index, eof, end);
    PushOneWithin(r, cut, index, end);
    DrainWithin(Store(PushOne(r, cut, index), cut, index), end);
  }

  /** What starts past the end and is not empty is stored there, and stays or is written out. */
  lemma PushPastEnd(r: Reassembler, data: seq<byte>, index: u64, eof: bool, end: nat)
    requires Within(r, end) && Agrees(data, index, eof, end)
    requires index > end && Truncate(r, data, index) != []
    ensures !Within(Push(r, data, index, eof), end)
  {
    var c := Chunk(index, Truncate(r, data, index));
    SameMark(r, data, index, eof, end);
    var s := Store(PushOne(r, c.data, index), c.data, index);
    assert c in s.buffer;
    ReassemblyWindow.DrainUses(s, seq(end, _ => 0), c);
  }

  /** Once the end is known, a push of any bytes leaves everything in front of it exactly when it starts no later
      than the end, or nothing of it is kept. */
  lemma PushWithinIff(r: Reassembler, data: seq<byte>, index: u64, eof: bool, end: nat)
    requires Within(r, end) && |r.output.log| <= r.firstUnassembled && Agrees(data, index, eof, end)
    ensures Within(Push(r, data, index, eof), end) <==> index <= end || data == [] || index == FirstUnacceptable(r)
  {
    if index <= end {
      CutFits(r, data, index, end);
      PushWithin(r, data, index, eof, end);
    } else {
      CutMisses(r, data, index, end);
      if Truncate(r, data, index) == [] {
        PushWithin(r, data, index, eof, end);
      } else {
        PushPastEnd(r, data, index, eof, end);
      }
    }
  }

  predicate StartsBy(ops: seq<Op>, end: nat) {
    forall i :: 0 <= i < |ops| && ops[i].PushOp? ==>
      ops[i].index <= end && Agrees(ops[i].data, ops[i].index, ops[i].eof, end)
  }

  /** Over every run from there, whatever the bytes: the output never has more than the stream. */
  lemma {:induction false} NothingPastEnd(r: Reassembler, ops: seq<Op>, end: nat)
    requires Within(r, end) && |r.output.log| <= r.firstUnassembled && StartsBy(ops, end)
    ensures Within(Run(r, ops), end)
    decreases |ops|
  {
    if ops == [] {
    } else {
      match ops[0] {
        case PushOp(data, index, eof) =>
          CutFits(r, data, index, end);
          PushWithin(r, data, index, eof, end);
        case ReadOp(_) =>
      }
      NothingPastEnd(Apply(r, ops[0]), ops[1..], end);
    }
  }
}
