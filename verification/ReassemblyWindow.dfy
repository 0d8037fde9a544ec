/** Exactly when a push is safe: what a push past the window can do to the output later. */
module ReassemblyWindow {
  import opened Words
  import opened Reassembly
  import opened ReassemblyRuns
  import ByteStreams

  /** Bytes are lost: fewer have been written out than the reassembler believes. */
  predicate Corrupt(r: Reassembler) { |r.output.log| < r.firstUnassembled }

  /** A push or a read-out step never writes more than it advances, and ends the stream only at its end. */
  predicate Follows(r: Reassembler, s: Reassembler, t: seq<byte>) {
    && s.output.capacity == r.output.capacity && s.output.bytesRead == r.output.bytesRead
    && s.output.error == r.output.error && s.hasEof == r.hasEof && s.finalIdx == r.finalIdx
    && r.firstUnassembled <= s.firstUnassembled
    && |s.output.log| - s.firstUnassembled <= |r.output.log| - r.firstUnassembled
    && (s.output.inputEnd ==> r.output.inputEnd || s.firstUnassembled >= |t|)
  }

  lemma FollowsOn(r: Reassembler, s: Reassembler, u: Reassembler, t: seq<byte>)
    requires Follows(r, s, t) && Follows(s, u, t)
    ensures Follows(r, u, t)
  {
  }

  predicate EndKnown(r: Reassembler, t: seq<byte>) { r.hasEof ==> To64(r.finalIdx + 1) == |t| }

  lemma PushOneFollows(r: Reassembler, t: seq<byte>, data: seq<byte>, index: u64)
    requires EndKnown(r, t)
    ensures Follows(r, PushOne(r, data, index), t)
  {
  }

  lemma PushOneUses(r: Reassembler, data: seq<byte>, index: u64)
    requires Ready(r.firstUnassembled, data, index) && index + |data| < TWO64
    ensures PushOne(r, data, index).firstUnassembled >= index + |data|
  {
  }

  lemma DrainStepFollows(r: Reassembler, t: seq<byte>, i: nat)
    requires EndKnown(r, t) && i < |r.buffer|
    ensures Follows(r, DrainStep(r, i), t) && EndKnown(DrainStep(r, i), t)
  {
    PushOneFollows(r, t, r.buffer[i].data, r.buffer[i].index);
  }

  lemma {:induction false} DrainFollows(r: Reassembler, t: seq<byte>)
    requires EndKnown(r, t)
    ensures Follows(r, Drain(r), t)
    decreases |r.buffer|
  {
    var i := FirstReady(r.buffer, r.firstUnassembled);
    if i == |r.buffer| {
    } else {
      var s := DrainStep(r, i);
      DrainStepFollows(r, t, i);
      DrainFollows(s, t);
      FollowsOn(r, s, Drain(s), t);
    }
  }

  lemma StillStored(buffer: seq<Chunk>, i: nat, c: Chunk)
    requires i < |buffer| && c in buffer && buffer[i] != c
    ensures c in Without(buffer, i)
  {
    var k :| 0 <= k < |buffer| && buffer[k] == c;
    assert c == Without(buffer, i)[if k < i then k else k - 1];
  }

  /** A stored substring is used up, or it stays where it is because it is not yet reached. */
  lemma {:induction false} DrainUses(r: Reassembler, t: seq<byte>, c: Chunk)
    requires EndKnown(r, t) && c in r.buffer && c.index + |c.data| < TWO64
    ensures var d := Drain(r);
            d.firstUnassembled >= c.index + |c.data| || (c in d.buffer && d.firstUnassembled < c.index)
    decreases |r.buffer|
  {
    var i := FirstReady(r.buffer, r.firstUnassembled);
    if i == |r.buffer| {
      assert !Ready(r.firstUnassembled, c.data, c.index);
    } else {
      var s := DrainStep(r, i);
      DrainStepFollows(r, t, i);
      if r.buffer[i] == c {
        assert s.firstUnassembled >= c.index + |c.data| by { PushOneUses(r, c.data, c.index); }
        DrainFollows(s, t);
      } else {
        StillStored(r.buffer, i, c);
        DrainUses(s, t, c);
      }
    }
  }

  /** A substring `c` of the stream waits in the store, and no byte that it needs room for can be read
      before it is reached. */
  predicate Doomed(r: Reassembler, t: seq<byte>, c: Chunk) {
    && |t| <= LIMIT && EndKnown(r, t) && r.output.capacity > 0 && !r.output.error && !r.output.inputEnd
    && c in r.buffer && c.data != [] && c.index + |c.data| <= |t|
    && |r.output.log| <= r.firstUnassembled < c.index && Edge(r) <= c.index
  }

  /** The next byte, pushed alone where it belongs. */
  lemma NextByteFits(r: Reassembler, t: seq<byte>, c: Chunk)
    requires Doomed(r, t, c) && ByteStreams.Remaining(r.output) > 0
    ensures var fu := r.firstUnassembled;
      && Fits(r, t, [t[fu]], fu, false) && Truncate(r, [t[fu]], fu) == [t[fu]]
      && PushOne(r, [t[fu]], fu).firstUnassembled == fu + 1 && PushOne(r, [t[fu]], fu).buffer == r.buffer
  {
    var fu := r.firstUnassembled;
    assert To64(fu + 1) == fu + 1;
    assert [t[fu]] == t[fu..fu + 1];
  }

  lemma StillDoomed(r: Reassembler, d: Reassembler, t: seq<byte>, c: Chunk)
    requires Doomed(r, t, c) && Follows(r, d, t) && d.firstUnassembled > r.firstUnassembled
    requires d.firstUnassembled >= c.index + |c.data| || (c in d.buffer && d.firstUnassembled < c.index)
    ensures Corrupt(d) || (Doomed(d, t, c) && Edge(d) == Edge(r))
  {
  }

  lemma DrainedIsDoomed(r: Reassembler, s1: Reassembler, t: seq<byte>, c: Chunk)
    requires Doomed(r, t, c) && Follows(r, s1, t) && EndKnown(s1, t) && s1.buffer == r.buffer
    requires s1.firstUnassembled == r.firstUnassembled + 1
    ensures var s := Drain(s1);
            Corrupt(s) || (Doomed(s, t, c) && s.firstUnassembled > r.firstUnassembled && Edge(s) == Edge(r))
  {
    var d := Drain(s1);
    assert Follows(r, d, t) && d.firstUnassembled >= s1.firstUnassembled by {
      DrainFollows(s1, t);
      FollowsOn(r, s1, d, t);
    }
    DrainUses(s1, t, c);
    StillDoomed(r, d, t, c);
  }

  lemma NextByte(r: Reassembler, t: seq<byte>, c: Chunk)
    requires Doomed(r, t, c) && ByteStreams.Remaining(r.output) > 0
    ensures var fu := r.firstUnassembled;
            var s := Push(r, [t[fu]], fu, false);
            Corrupt(s) || (Doomed(s, t, c) && s.firstUnassembled > fu && Edge(s) == Edge(r))
  {
    var fu := r.firstUnassembled;
    NextByteFits(r, t, c);
    var s1 := PushOne(r, [t[fu]], fu);
    assert Push(r, [t[fu]], fu, false) == Drain(s1);
    PushOneFollows(r, t, [t[fu]], fu);
    DrainedIsDoomed(r, s1, t, c);
  }

  /** The output stream is full, so there is a byte to read. */
  lemma ReadByte(r: Reassembler, t: seq<byte>, c: Chunk)
    requires Doomed(r, t, c) && ByteStreams.Remaining(r.output) == 0 && !Corrupt(r)
    ensures var s := Apply(r, ReadOp(1));
            Doomed(s, t, c) && s.firstUnassembled == r.firstUnassembled && Edge(s) == Edge(r) + 1
  {
  }

  /** However it stands, some fitting pushes and reads bring the loss about. */
  lemma {:induction false} DoomedIsLost(r: Reassembler, t: seq<byte>, c: Chunk) returns (ops: seq<Op>)
    requires Doomed(r, t, c)
    ensures RunFits(r, t, ops) && Corrupt(Run(r, ops))
    decreases c.index - r.firstUnassembled + c.index - Edge(r)
  {
    if Corrupt(r) {
      ops := [];
    } else {
      var op := if ByteStreams.Remaining(r.output) > 0
                then PushOp([t[r.firstUnassembled]], r.firstUnassembled, false) else ReadOp(1);
      var s := Apply(r, op);
      if op.PushOp? { NextByteFits(r, t, c); NextByte(r, t, c); } else { ReadByte(r, t, c); }
      var rest := [];
      if !Corrupt(s) { rest := DoomedIsLost(s, t, c); }
      ops := [op] + rest;
      assert ops[1..] == rest;
    }
  }

  // No room at all

  /** A reassembler that can never write anything more: it has no room, and everything stored lies ahead. */
  predicate Dead(r: Reassembler, t: seq<byte>) {
    && r.output.capacity == 0 && r.firstUnassembled <= |t| <= LIMIT && r.output.log == t[..r.firstUnassembled]
    && (forall c :: c in r.buffer ==> c.index > r.firstUnassembled && c.index + |c.data| < TWO64)
  }

  lemma CutsToNothing(r: Reassembler, t: seq<byte>, data: seq<byte>, index: u64)
    requires Dead(r, t) && (data == [] || (index <= r.firstUnassembled && index + |data| < TWO64))
    ensures var cut := Truncate(r, data, index);
            if index > r.firstUnassembled then cut == [] else index + |cut| <= r.firstUnassembled
  {
    assert FirstUnacceptable(r) == r.firstUnassembled;
  }

  lemma DeadPushOne(r: Reassembler, t: seq<byte>, cut: seq<byte>, index: u64)
    requires Dead(r, t) && (if index > r.firstUnassembled then cut == [] else index + |cut| <= r.firstUnassembled)
    ensures Dead(Store(PushOne(r, cut, index), cut, index), t)
  {
  }

  lemma DeadDrains(r: Reassembler, t: seq<byte>)
    requires Dead(r, t)
    ensures Drain(r) == r
  {
    forall c | c in r.buffer ensures !Ready(r.firstUnassembled, c.data, c.index) {
      assert To64(c.index + |c.data|) == c.index + |c.data|;
    }
  }

  lemma DeadStays(r: Reassembler, t: seq<byte>, op: Op)
    requires Dead(r, t) && OpFits(r, t, op)
    ensures Dead(Apply(r, op), t)
  {
    if op.PushOp? {
      var r0 := NoteEof(r, op.data, op.index, op.eof);
      var cut := Truncate(r0, op.data, op.index);
      CutsToNothing(r0, t, op.data, op.index);
      DeadPushOne(r0, t, cut, op.index);
      DeadDrains(Store(PushOne(r0, cut, op.index), cut, op.index), t);
    }
  }

  lemma {:induction false} DeadRun(r: Reassembler, t: seq<byte>, ops: seq<Op>)
    requires Dead(r, t) && RunFits(r, t, ops)
    ensures Dead(Run(r, ops), t)
    decreases |ops|
  {
    if ops == [] {
      assert Run(r, ops) == r;
    } else {
      DeadStays(r, t, ops[0]);
      DeadRun(Apply(r, ops[0]), t, ops[1..]);
    }
  }

  // The exact condition

  /** The output is exactly what is assembled of `t`. */
  predicate InStep(r: Reassembler, t: seq<byte>) {
    r.firstUnassembled <= |t| && r.output.log == t[..r.firstUnassembled]
  }

  /** Whatever fitting pushes and reads follow, the output stays in step. */
  ghost predicate Safe(r: Reassembler, t: seq<byte>) {
    forall ops :: RunFits(r, t, ops) ==> InStep(Run(r, ops), t)
  }

  lemma InvIsSafe(r: Reassembler, t: seq<byte>)
    requires Inv(r, t)
    ensures Safe(r, t)
  {
    forall ops | RunFits(r, t, ops) ensures InStep(Run(r, ops), t) { RunKeeps(r, t, ops); }
  }

  lemma DeadIsSafe(r: Reassembler, t: seq<byte>)
    requires Dead(r, t)
    ensures Safe(r, t)
  {
    forall ops | RunFits(r, t, ops) ensures InStep(Run(r, ops), t) { DeadRun(r, t, ops); }
  }

  lemma StoredAhead(r: Reassembler, t: seq<byte>, c: Chunk, hasEof: bool, finalIdx: u64)
    requires Inv(r, t) && c.data != [] && Edge(r) < c.index && c.index + |c.data| <= |t|
    requires hasEof ==> To64(finalIdx + 1) == |t|
    ensures var s := r.(hasEof := hasEof, finalIdx := finalIdx, buffer := Insert(r.buffer, c));
            if r.output.capacity == 0 then Dead(s, t) else Doomed(s, t, c)
  {
    assert forall d :: d in r.buffer ==> d.index + |d.data| < TWO64;
  }

  lemma EndNoted(r: Reassembler, t: seq<byte>, data: seq<byte>, index: u64, eof: bool)
    requires |t| <= LIMIT && EndKnown(r, t) && data != [] && (eof ==> index + |data| == |t|)
    ensures var r0 := NoteEof(r, data, index, eof);
            EndKnown(r0, t) && r0 == r.(hasEof := r0.hasEof, finalIdx := r0.finalIdx)
  {
  }

  /** What a push past the window leaves, whatever its bytes. */
  lemma PastTheWindow(r: Reassembler, t: seq<byte>, data: seq<byte>, index: u64, eof: bool)
    requires Inv(r, t) && data != [] && FirstUnacceptable(r) < index && index + |data| <= |t|
    requires eof ==> index + |data| == |t|
    ensures var s := Push(r, data, index, eof);
            if r.output.capacity == 0 then Dead(s, t) else Doomed(s, t, Chunk(index, data))
  {
    var r0, c := NoteEof(r, data, index, eof), Chunk(index, data);
    EndNoted(r, t, data, index, eof);
    assert Edge(r) < index by { WindowEdge(r, t); }
    StoredAhead(r, t, c, r0.hasEof, r0.finalIdx);
    var r1 := r.(hasEof := r0.hasEof, finalIdx := r0.finalIdx, buffer := Insert(r.buffer, c));
    assert Push(r, data, index, eof) == r1 by {
      PushPastIsStored(r, t, data, index, eof);
    }
  }

  /** A push of a part of the stream, with or without the mark of its end, is safe, that is, no later use
      shows a wrong byte, exactly when it starts no later than the first unacceptable index, or there is no
      room for a byte ever. */
  lemma PushSafeIff(r: Reassembler, t: seq<byte>, data: seq<byte>, index: u64, eof: bool)
    requires Inv(r, t) && data != [] && SliceOf(t, data, index) && (eof ==> index + |data| == |t|)
    ensures Safe(Push(r, data, index, eof), t) <==> index <= FirstUnacceptable(r) || r.output.capacity == 0
  {
    var s := Push(r, data, index, eof);
    if index <= FirstUnacceptable(r) {
      PushCovers(r, t, data, index, eof);
      InvIsSafe(s, t);
    } else if r.output.capacity == 0 {
      PastTheWindow(r, t, data, index, eof);
      DeadIsSafe(s, t);
    } else {
      PastTheWindow(r, t, data, index, eof);
      var ops := DoomedIsLost(s, t, Chunk(index, data));
      assert !InStep(Run(s, ops), t);
    }
  }
}
