/** What the reassembler guarantees over whole runs of pushes and reads. */
module ReassemblyRuns {
  import opened Words
  import opened Reassembly
  import ByteStreams
  import opened ReassemblyCount

  datatype Op = PushOp(data: seq<byte>, index: u64, eof: bool) | ReadOp(len: nat)

  function Apply(r: Reassembler, op: Op): Reassembler {
    match op
    case PushOp(data, index, eof) => Push(r, data, index, eof)
    case ReadOp(len) => r.(output := ByteStreams.Read(r.output, len))
  }

  function Run(r: Reassembler, ops: seq<Op>): Reassembler
    decreases |ops|
  {
    if ops == [] then r else Run(Apply(r, ops[0]), ops[1..])
  }

  predicate OpFits(r: Reassembler, t: seq<byte>, op: Op) {
    op.PushOp? ==> Fits(r, t, op.data, op.index, op.eof)
  }

  /** Every push of the run takes its data from `t` and starts within the window of its moment. */
  predicate RunFits(r: Reassembler, t: seq<byte>, ops: seq<Op>)
    decreases |ops|
  {
    ops == [] || (OpFits(r, t, ops[0]) && RunFits(Apply(r, ops[0]), t, ops[1..]))
  }

  predicate Accepts(r: Reassembler, op: Op, i: int) {
    op.PushOp? && InWindow(r, op.data, op.index, i)
  }

  /** Position `i` lay inside the window when some push of the run brought it. */
  predicate Accepted(r: Reassembler, ops: seq<Op>, i: int)
    decreases |ops|
  {
    ops != [] && (Accepts(r, ops[0], i) || Accepted(Apply(r, ops[0]), ops[1..], i))
  }

  predicate MarksEof(ops: seq<Op>) {
    exists k :: 0 <= k < |ops| && ops[k].PushOp? && ops[k].eof
  }

  lemma ApplyKeeps(r: Reassembler, t: seq<byte>, op: Op)
    requires Inv(r, t) && OpFits(r, t, op)
    ensures var s := Apply(r, op);
      && Inv(s, t)
      && s.hasEof == (r.hasEof || (op.PushOp? && op.eof))
      && s.output.capacity == r.output.capacity
      && r.firstUnassembled <= s.firstUnassembled && r.output.bytesRead <= s.output.bytesRead
      && forall i :: Covers(s, i) <==> Covers(r, i) || Accepts(r, op, i)
  {
    match op
    case PushOp(data, index, eof) => PushCovers(r, t, data, index, eof);
    case ReadOp(len) =>
      var s := Apply(r, op);
      assert s.buffer == r.buffer && s.firstUnassembled == r.firstUnassembled;
  }

  lemma {:induction false} RunKeeps(r: Reassembler, t: seq<byte>, ops: seq<Op>)
    requires Inv(r, t) && RunFits(r, t, ops)
    ensures var s := Run(r, ops);
      && Inv(s, t)
      && s.hasEof == (r.hasEof || MarksEof(ops))
      && s.output.capacity == r.output.capacity
      && r.firstUnassembled <= s.firstUnassembled && r.output.bytesRead <= s.output.bytesRead
      && forall i :: Covers(s, i) <==> Covers(r, i) || Accepted(r, ops, i)
    decreases |ops|
  {
    if ops == [] {
    } else {
      ApplyKeeps(r, t, ops[0]);
      RunKeeps(Apply(r, ops[0]), t, ops[1..]);
      MarksEofSplit(ops);
    }
  }

  lemma MarksEofSplit(ops: seq<Op>)
    requires ops != []
    ensures MarksEof(ops) <==> (ops[0].PushOp? && ops[0].eof) || MarksEof(ops[1..])
  {
  }

  /** A fresh reassembler covers nothing, so what is covered later was accepted. */
  lemma AcceptedUpTo(capacity: nat, t: seq<byte>, ops: seq<Op>, r: Reassembler)
    requires Inv(r, t) && forall i :: Covers(r, i) <==> Covers(New(capacity), i) || Accepted(New(capacity), ops, i)
    ensures forall i :: 0 <= i < r.firstUnassembled ==> Accepted(New(capacity), ops, i)
    ensures !Accepted(New(capacity), ops, r.firstUnassembled)
  {
    assert !Covers(r, r.firstUnassembled);
    forall i | 0 <= i < r.firstUnassembled
      ensures Accepted(New(capacity), ops, i)
    {
      assert Covers(r, i) && !Covers(New(capacity), i);
    }
  }

  lemma EndedIffWhole(r: Reassembler, t: seq<byte>)
    requires Inv(r, t)
    ensures r.output.inputEnd <==> r.hasEof && r.output.log == t
  {
    assert r.output.log == t <==> r.firstUnassembled == |t|;
  }

  /** Refinement: after every run the output is the longest prefix of `t` all of whose bytes were
      accepted, it has ended exactly when that is all of `t` and its end was marked, and nothing
      stored could still be read out. */
  lemma OutputIsAcceptedPrefix(capacity: nat, t: seq<byte>, ops: seq<Op>)
    requires |t| <= LIMIT && RunFits(New(capacity), t, ops)
    ensures var r, start := Run(New(capacity), ops), New(capacity);
      && r.firstUnassembled <= |t| && r.output.log == t[..r.firstUnassembled]
      && (forall i :: 0 <= i < r.firstUnassembled ==> Accepted(start, ops, i))
      && !Accepted(start, ops, r.firstUnassembled)
      && (r.output.inputEnd <==> MarksEof(ops) && r.output.log == t)
      && (forall c :: c in r.buffer ==> c.index > r.firstUnassembled)
  {
    RunKeeps(New(capacity), t, ops);
    AcceptedUpTo(capacity, t, ops, Run(New(capacity), ops));
    EndedIffWhole(Run(New(capacity), ops), t);
  }

  /** The count of stored bytes after every run: despite the narrowing to 32 bits it is the number of
      distinct positions accepted but not yet assembled, and they fit the remaining capacity. */
  lemma UnassembledIsExact(capacity: nat, t: seq<byte>, ops: seq<Op>)
    requires |t| <= LIMIT && capacity <= TWO32 && RunFits(New(capacity), t, ops)
    ensures var r := Run(New(capacity), ops);
      && |Narrowed(Positions(r.buffer))| == |Positions(r.buffer)| <= ByteStreams.Remaining(r.output)
      && forall i :: i in Positions(r.buffer) <==> i >= r.firstUnassembled && Accepted(New(capacity), ops, i)
  {
    var r := Run(New(capacity), ops);
    RunKeeps(New(capacity), t, ops);
    CountIsExact(r, t);
    forall i
      ensures i in Positions(r.buffer) <==> i >= r.firstUnassembled && Accepted(New(capacity), ops, i)
    {
      assert Covers(r, i) <==> Covers(New(capacity), i) || Accepted(New(capacity), ops, i);
    }
  }

  /** Position `i` belongs to some push of the run. */
  ghost predicate Brought(ops: seq<Op>, i: int) {
    exists o :: o in ops && Brings(o, i)
  }

  predicate Brings(o: Op, i: int) {
    o.PushOp? && o.index <= i < o.index + |o.data|
  }

  /** With room for all of `t`, nothing that a push brings is ever cut. */
  lemma {:induction false} AllAccepted(r: Reassembler, t: seq<byte>, ops: seq<Op>, i: int)
    requires Inv(r, t) && RunFits(r, t, ops) && |t| <= r.output.capacity
    ensures Accepted(r, ops, i) <==> Brought(ops, i)
    decreases |ops|
  {
    if ops == [] {
    } else {
      ApplyKeeps(r, t, ops[0]);
      AllAccepted(Apply(r, ops[0]), t, ops[1..], i);
      assert Accepts(r, ops[0], i) <==> Brings(ops[0], i);
      assert ops == [ops[0]] + ops[1..];
    }
  }

  predicate SamePushes(ops: seq<Op>, ops': seq<Op>) {
    && (forall o :: o in ops && o.PushOp? ==> o in ops')
    && (forall o :: o in ops' && o.PushOp? ==> o in ops)
  }

  /** Order and repetition do not matter: two runs made of the same set of pushes, with any reads
      in between, end with the same output and the same end flag. */
  lemma OrderIndependent(capacity: nat, capacity': nat, t: seq<byte>, ops: seq<Op>, ops': seq<Op>)
    requires |t| <= LIMIT && |t| <= capacity && |t| <= capacity'
    requires RunFits(New(capacity), t, ops) && RunFits(New(capacity'), t, ops')
    requires SamePushes(ops, ops')
    ensures var r, r' := Run(New(capacity), ops), Run(New(capacity'), ops');
            r.output.log == r'.output.log && r.output.inputEnd == r'.output.inputEnd
  {
    var r, r' := Run(New(capacity), ops), Run(New(capacity'), ops');
    OutputIsAcceptedPrefix(capacity, t, ops);
    OutputIsAcceptedPrefix(capacity', t, ops');
    forall i
      ensures Accepted(New(capacity), ops, i) <==> Accepted(New(capacity'), ops', i)
    {
      AllAccepted(New(capacity), t, ops, i);
      AllAccepted(New(capacity'), t, ops', i);
    }
    assert r.firstUnassembled == r'.firstUnassembled;
    assert MarksEof(ops) == MarksEof(ops');
  }

  /** A push past the first unacceptable index is not cut but stored whole, whatever its bytes. */
  lemma PushPastIsStored(r: Reassembler, t: seq<byte>, data: seq<byte>, index: u64, eof: bool)
    requires Inv(r, t) && data != [] && FirstUnacceptable(r) < index && index + |data| <= |t|
    requires eof ==> index + |data| == |t|
    ensures Push(r, data, index, eof)
         == NoteEof(r, data, index, eof).(buffer := Insert(r.buffer, Chunk(index, data)))
  {
    var r0 := NoteEof(r, data, index, eof);
    PastIsWhole(r0, t, data, index);
    var s := Store(PushOne(r0, data, index), data, index);
    assert s == r0.(buffer := Insert(r.buffer, Chunk(index, data)));
    NothingReady(s, t);
  }

  lemma PastIsWhole(r: Reassembler, t: seq<byte>, data: seq<byte>, index: u64)
    requires |t| <= LIMIT && (r.hasEof ==> To64(r.finalIdx + 1) == |t|)
    requires FirstUnacceptable(r) < index && index + |data| <= |t|
    ensures Truncate(r, data, index) == data
  {
    assert CutAtEof(r, data, index) == data;
    assert To64(FirstUnacceptable(r) - index) == FirstUnacceptable(r) - index + TWO64;
  }

  lemma NothingReady(s: Reassembler, t: seq<byte>)
    requires |t| <= LIMIT
    requires forall d :: d in s.buffer ==> d.index > s.firstUnassembled && (d.data == [] || d.index + |d.data| <= |t|)
    ensures Drain(s) == s
  {
    forall d | d in s.buffer ensures !Ready(s.firstUnassembled, d.data, d.index) {
      assert To64(d.index + |d.data|) == d.index + |d.data|;
    }
  }

  /** A push that continues the output, with nothing stored. */
  lemma PushAtFront(r: Reassembler, data: seq<byte>)
    requires r.buffer == [] && !r.hasEof && !r.output.inputEnd && !r.output.error
    requires |data| <= ByteStreams.Remaining(r.output) && r.firstUnassembled + |data| < TWO64
    ensures Push(r, data, r.firstUnassembled, false)
         == r.(output := r.output.(log := r.output.log + data), firstUnassembled := r.firstUnassembled + |data|)
  {
  }

  /** A push past the first unacceptable index is stored whole. */
  lemma PushFarIsStored(r: Reassembler, data: seq<byte>, index: u64)
    requires r.buffer == [] && !r.hasEof && FirstUnacceptable(r) < index && index + |data| < TWO64
    ensures Push(r, data, index, false) == r.(buffer := [Chunk(index, data)])
  {
    assert To64(FirstUnacceptable(r) - index) == FirstUnacceptable(r) - index + TWO64;
    assert Truncate(r, data, index) == data;
    assert Insert(r.buffer, Chunk(index, data)) == [Chunk(index, data)];
  }

  /** A push that fills the output stream and reaches a stored byte for which there is no room. */
  lemma PushLosesStoredByte(r: Reassembler, b: byte, c: byte)
    requires r.firstUnassembled + 2 < TWO64 && r.buffer == [Chunk(r.firstUnassembled + 1, [c])] && !r.hasEof
    requires !r.output.inputEnd && !r.output.error && ByteStreams.Remaining(r.output) == 1
    ensures Push(r, [b], r.firstUnassembled, false)
         == r.(output := r.output.(log := r.output.log + [b]), firstUnassembled := r.firstUnassembled + 2, buffer := [])
  {
    var s := r.(output := r.output.(log := r.output.log + [b]), firstUnassembled := r.firstUnassembled + 1);
    assert Truncate(r, [b], r.firstUnassembled) == [b];
    assert [b][..1] == [b];
    assert PushOne(r, [b], r.firstUnassembled) == s;
    assert FirstReady(s.buffer, s.firstUnassembled) == 0;
    assert Without(s.buffer, 0) == [];
    assert s.output.log + [c][..0] == s.output.log;
    var d := DrainStep(s, 0);
    assert d == s.(firstUnassembled := r.firstUnassembled + 2, buffer := []);
    assert FirstReady(d.buffer, d.firstUnassembled) == 0;
    assert Drain(d) == d;
    assert Drain(s) == d;
  }

  /** Why the window matters: capacity 2, every push a slice of one stream, but the second one
      starts past the first unacceptable index. Its byte is lost and the next one takes its place. */
  lemma PushPastWindowCorrupts()
    ensures var t: seq<byte> := [1, 2, 3, 4, 5];
            var r1 := Push(New(2), [1, 2], 0, false);
            var r2 := Apply(Push(r1, [4], 3, false), ReadOp(1));
            var r3 := Apply(Push(r2, [3], 2, false), ReadOp(2));
            var r4 := Push(r3, [5], 4, false);
            r4.output.log == [1, 2, 3, 5] && !(r4.output.log <= t)
  {
    PushAtFront(New(2), [1, 2]);
    var r1 := Push(New(2), [1, 2], 0, false);
    PushFarIsStored(r1, [4], 3);
    var r2 := Apply(Push(r1, [4], 3, false), ReadOp(1));
    PushLosesStoredByte(r2, 3, 4);
    var r3 := Apply(Push(r2, [3], 2, false), ReadOp(2));
    assert r3.output.log == [1, 2] + [3];
    PushAtFront(r3, [5]);
    var log := Push(r3, [5], 4, false).output.log;
    assert log == [1, 2] + [3] + [5];
    assert log[3] == 5;
  }
}
