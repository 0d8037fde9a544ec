/** Reassembling substrings of a byte stream (libsponge/stream_reassembler.cc). */
module Reassembly {
  import opened Words
  import opened ByteStreams

  /** A stored substring: its bytes and the stream index of the first of them. */
  datatype Chunk = Chunk(index: u64, data: seq<byte>)

  datatype Reassembler = Reassembler(
    output: Stream,
    hasEof: bool,
    finalIdx: u64,
    buffer: seq<Chunk>,
    firstUnassembled: nat)

  function New(capacity: nat): Reassembler {
    Reassembler(Empty(capacity), false, 0, [], 0)
  }

  function FirstUnacceptable(r: Reassembler): nat {
    Remaining(r.output) + r.firstUnassembled
  }

  predicate ReachEnd(r: Reassembler) {
    r.hasEof && To64(r.finalIdx + 1) == r.firstUnassembled
  }

  /** `std::string::substr`, without the exception for a start past the end. */
  function Substr(s: seq<byte>, pos: nat, n: nat): seq<byte> {
    if pos <= |s| then s[pos..pos + Min(n, |s| - pos)] else []
  }

  function CutAtEof(r: Reassembler, data: seq<byte>, index: u64): seq<byte> {
    if r.hasEof && To64(index + |data|) > To64(r.finalIdx + 1)
    then Substr(data, 0, To64(r.finalIdx - index + 1)) else data
  }

  function CutAtWindow(r: Reassembler, data: seq<byte>, index: u64): seq<byte> {
    if To64(index + |data|) > FirstUnacceptable(r)
    then Substr(data, 0, To64(FirstUnacceptable(r) - index)) else data
  }

  function Truncate(r: Reassembler, data: seq<byte>, index: u64): seq<byte> {
    CutAtWindow(r, CutAtEof(r, data, index), index)
  }

  /** Can `push_onestr` use up this substring now? */
  predicate Ready(firstUnassembled: nat, data: seq<byte>, index: u64) {
    index <= firstUnassembled || To64(index + |data|) <= firstUnassembled
  }

  function EndIfComplete(r: Reassembler): Reassembler {
    if ReachEnd(r) then r.(output := EndInput(r.output)) else r
  }

  function PushOne(r: Reassembler, data: seq<byte>, index: u64): Reassembler {
    var fu := r.firstUnassembled;
    var end := To64(index + |data|);
    if index == fu then
      EndIfComplete(r.(output := Write(r.output, data), firstUnassembled := fu + |data|))
    else if end <= fu then
      EndIfComplete(r)
    else if index < fu then
      EndIfComplete(r.(output := Write(r.output, Substr(data, fu - index, end - fu)), firstUnassembled := end))
    else
      r
  }

  /** Lexicographic order of byte strings. */
  predicate LexLess(a: seq<byte>, b: seq<byte>) {
    if b == [] then false
    else if a == [] then true
    else if a[0] != b[0] then a[0] < b[0]
    else LexLess(a[1..], b[1..])
  }

  predicate Before(c: Chunk, d: Chunk) {
    c.index < d.index || (c.index == d.index && LexLess(c.data, d.data))
  }

  /** Insertion into the ordered set of stored substrings; a substring already there stays single. */
  function Insert(buffer: seq<Chunk>, c: Chunk): (r: seq<Chunk>)
    ensures forall d :: d in r <==> d in buffer || d == c
  {
    if buffer == [] then [c]
    else if buffer[0] == c then buffer
    else if Before(c, buffer[0]) then [c] + buffer
    else [buffer[0]] + Insert(buffer[1..], c)
  }

  /** The position of the first stored substring that is ready, or the length if none is. */
  function FirstReady(buffer: seq<Chunk>, firstUnassembled: nat): (i: nat)
    ensures i <= |buffer|
    ensures i < |buffer| ==> Ready(firstUnassembled, buffer[i].data, buffer[i].index)
    ensures forall j :: 0 <= j < i ==> !Ready(firstUnassembled, buffer[j].data, buffer[j].index)
  {
    if buffer == [] then 0
    else if Ready(firstUnassembled, buffer[0].data, buffer[0].index) then 0
    else 1 + FirstReady(buffer[1..], firstUnassembled)
  }

  function Without(buffer: seq<Chunk>, i: nat): seq<Chunk>
    requires i < |buffer|
  {
    buffer[..i] + buffer[i + 1..]
  }

  /** One round of the read-out loop. */
  function DrainStep(r: Reassembler, i: nat): Reassembler
    requires i < |r.buffer|
  {
    PushOne(r, r.buffer[i].data, r.buffer[i].index).(buffer := Without(r.buffer, i))
  }

  /** The read-out loop: use up ready substrings until none is left. */
  function Drain(r: Reassembler): Reassembler
    decreases |r.buffer|
  {
    var i := FirstReady(r.buffer, r.firstUnassembled);
    if i == |r.buffer| then r else Drain(DrainStep(r, i))
  }

  function NoteEof(r: Reassembler, data: seq<byte>, index: u64, eof: bool): Reassembler {
    if eof then r.(hasEof := true, finalIdx := To64(index + |data| - 1)) else r
  }

  function Store(r: Reassembler, data: seq<byte>, index: u64): Reassembler {
    if index > r.firstUnassembled then r.(buffer := Insert(r.buffer, Chunk(index, data))) else r
  }

  function Push(r: Reassembler, data: seq<byte>, index: u64, eof: bool): Reassembler {
    var r0 := NoteEof(r, data, index, eof);
    var cut := Truncate(r0, data, index);
    Drain(Store(PushOne(r0, cut, index), cut, index))
  }

  // ---------------------------------------------------------------------------------------
  // The invariant against one stream `t` that all substrings come from.

  /** Streams are far shorter than the 64-bit counters allow. */
  const LIMIT: int := 0x4000_0000_0000_0000

  predicate SliceOf(t: seq<byte>, data: seq<byte>, index: nat) {
    index + |data| <= |t| && data == t[index..index + |data|]
  }

  /** A stored substring is a slice of `t` that fits the window; empty ones may sit anywhere. */
  predicate ChunkOk(t: seq<byte>, edge: nat, c: Chunk) {
    c.data == [] || (SliceOf(t, c.data, c.index) && c.index + |c.data| <= edge)
  }

  /** One past the last index the reassembler may ever have stored: it moves only when bytes are read. */
  function Edge(r: Reassembler): nat {
    r.output.capacity + r.output.bytesRead
  }

  /** What holds at every point of a push, also half-way through the read-out loop. */
  ghost predicate Sound(r: Reassembler, t: seq<byte>) {
    && |t| <= LIMIT
    && !r.output.error
    && r.firstUnassembled <= |t|
    && r.output.log == t[..r.firstUnassembled]
    && (forall c :: c in r.buffer ==> ChunkOk(t, Edge(r), c))
    && (r.hasEof ==> To64(r.finalIdx + 1) == |t|)
    && (r.output.inputEnd ==> ReachEnd(r))
  }

  /** What holds between any two calls. */
  ghost predicate Inv(r: Reassembler, t: seq<byte>) {
    && Sound(r, t)
    && (forall c :: c in r.buffer ==> c.index > r.firstUnassembled)
    && (ReachEnd(r) ==> r.output.inputEnd)
  }

  predicate Within(c: Chunk, i: int) {
    c.index <= i < c.index + |c.data|
  }

  /** Position `i` has been assembled or is stored. */
  ghost predicate Covers(r: Reassembler, i: int) {
    0 <= i < r.firstUnassembled || Stored(r.buffer, i)
  }

  ghost predicate Stored(buffer: seq<Chunk>, i: int) {
    exists c :: c in buffer && Within(c, i)
  }

  /** What the source asks of a push into a reassembler that follows `t`: the data is the part of
      `t` at `index`, it starts no later than the first unacceptable index, and the eof mark sits
      on the last byte of `t`. Empty strings carry nothing and may have any index. */
  predicate Fits(r: Reassembler, t: seq<byte>, data: seq<byte>, index: u64, eof: bool) {
    && (data == [] || (SliceOf(t, data, index) && index <= FirstUnacceptable(r)))
    && (eof ==> index + |data| == |t|)
  }

  /** The right edge of the receive window is `capacity + bytes_read`. */
  lemma WindowEdge(r: Reassembler, t: seq<byte>)
    requires Sound(r, t)
    ensures FirstUnacceptable(r) == Edge(r)
  {
  }

  /** The truncation keeps exactly the bytes in front of the first unacceptable index. */
  lemma TruncateKeepsWindow(r: Reassembler, t: seq<byte>, data: seq<byte>, index: u64)
    requires Sound(r, t) && Fits(r, t, data, index, false)
    ensures Truncate(r, data, index) == data[..Min(|data|, Max(0, Edge(r) - index))]
  {
    WindowEdge(r, t);
    if data != [] {
      assert To64(index + |data|) == index + |data|;
      assert CutAtEof(r, data, index) == data;
    }
  }

  /** Everything but the output stream and the assembled position is as before. */
  predicate SameStore(r: Reassembler, s: Reassembler) {
    && s.buffer == r.buffer && s.hasEof == r.hasEof && s.finalIdx == r.finalIdx
    && s.output.bytesRead == r.output.bytesRead && s.output.capacity == r.output.capacity
  }

  /** Writing out the next bytes of `t` up to `end`, all of which the output stream accepts. */
  function Advance(r: Reassembler, t: seq<byte>, end: nat): Reassembler
    requires r.firstUnassembled <= end <= |t|
  {
    EndIfComplete(r.(output := Write(r.output, t[r.firstUnassembled..end]), firstUnassembled := end))
  }

  lemma AdvanceSound(r: Reassembler, t: seq<byte>, end: nat)
    requires Sound(r, t) && r.firstUnassembled <= end <= |t|
    requires end == r.firstUnassembled || end <= Edge(r)
    ensures var s := Advance(r, t, end);
            Sound(s, t) && SameStore(r, s) && s.firstUnassembled == end && (ReachEnd(s) ==> s.output.inputEnd)
  {
  }

  /** One call of `push_onestr` on a substring that fits. */
  lemma PushOneAdvances(r: Reassembler, t: seq<byte>, data: seq<byte>, index: u64)
    requires Sound(r, t) && ChunkOk(t, Edge(r), Chunk(index, data))
    ensures !Ready(r.firstUnassembled, data, index) ==> PushOne(r, data, index) == r
    ensures Ready(r.firstUnassembled, data, index) ==>
              var end := if data == [] then r.firstUnassembled else Max(r.firstUnassembled, index + |data|);
              end <= |t| && PushOne(r, data, index) == Advance(r, t, end)
  {
    var fu := r.firstUnassembled;
    if data == [] || index + |data| <= fu {
      NothingNew(r, t, data, index);
    } else {
      SomethingNew(r, t, data, index);
    }
  }

  lemma SomethingNew(r: Reassembler, t: seq<byte>, data: seq<byte>, index: u64)
    requires Sound(r, t) && ChunkOk(t, Edge(r), Chunk(index, data)) && data != []
    requires r.firstUnassembled < index + |data|
    ensures index + |data| <= |t|
    ensures PushOne(r, data, index) == if index <= r.firstUnassembled then Advance(r, t, index + |data|) else r
  {
    var fu := r.firstUnassembled;
    assert To64(index + |data|) == index + |data|;
    if index < fu {
      assert Substr(data, fu - index, index + |data| - fu) == t[fu..index + |data|];
    } else if index == fu {
      assert data == t[fu..index + |data|];
    }
  }

  lemma NothingNew(r: Reassembler, t: seq<byte>, data: seq<byte>, index: u64)
    requires Sound(r, t) && ChunkOk(t, Edge(r), Chunk(index, data))
    requires data == [] || index + |data| <= r.firstUnassembled
    ensures PushOne(r, data, index)
         == if Ready(r.firstUnassembled, data, index) then Advance(r, t, r.firstUnassembled) else r
  {
    var fu := r.firstUnassembled;
    assert To64(index + |data|) == index + |data|;
    assert t[fu..fu] == [];
    assert Write(r.output, []) == r.output;
    assert Advance(r, t, fu) == EndIfComplete(r);
  }

  ghost predicate SameCoverage(r: Reassembler, s: Reassembler) {
    forall i :: Covers(r, i) <==> Covers(s, i)
  }

  /** Everything but the output stream, the assembled position and the store is as before. */
  predicate SameFrame(r: Reassembler, s: Reassembler) {
    && s.hasEof == r.hasEof && s.finalIdx == r.finalIdx
    && s.output.bytesRead == r.output.bytesRead && s.output.capacity == r.output.capacity
    && s.firstUnassembled >= r.firstUnassembled
  }

  /** Where `push_onestr` leaves the assembled position when it can use the substring up. */
  function NewFront(fu: nat, data: seq<byte>, index: u64): nat {
    if data == [] then fu else Max(fu, index + |data|)
  }

  lemma PushOneSound(r: Reassembler, t: seq<byte>, data: seq<byte>, index: u64)
    requires Sound(r, t) && ChunkOk(t, Edge(r), Chunk(index, data))
    ensures var s := PushOne(r, data, index);
            && Sound(s, t) && SameStore(r, s)
            && (if Ready(r.firstUnassembled, data, index)
                then
                  && s.firstUnassembled == NewFront(r.firstUnassembled, data, index)
                  && (ReachEnd(s) ==> s.output.inputEnd)
                else s == r)
  {
    PushOneAdvances(r, t, data, index);
    if Ready(r.firstUnassembled, data, index) {
      AdvanceSound(r, t, NewFront(r.firstUnassembled, data, index));
    }
  }

  /** A substring of the kind `ChunkOk` allows is ready only if it does not start past the front. */
  lemma ReadyChunk(fu: nat, t: seq<byte>, edge: nat, c: Chunk)
    requires |t| <= LIMIT && ChunkOk(t, edge, c) && Ready(fu, c.data, c.index)
    ensures c.data == [] || c.index <= fu
  {
  }

  lemma WithoutKeeps(buffer: seq<Chunk>, i: nat)
    requires i < |buffer|
    ensures forall d :: d in buffer <==> d in Without(buffer, i) || d == buffer[i]
  {
  }

  lemma UseUpCoverage(fu: nat, buffer: seq<Chunk>, c: Chunk, rest: seq<Chunk>)
    requires forall d :: d in buffer <==> d in rest || d == c
    requires c.data == [] || c.index <= fu
    ensures forall i :: (0 <= i < fu || Stored(buffer, i))
                   <==> (0 <= i < NewFront(fu, c.data, c.index) || Stored(rest, i))
  {
    assert c in buffer;
    forall i
      ensures Stored(buffer, i) <==> Stored(rest, i) || Within(c, i)
    {
      if Stored(buffer, i) {
        var d :| d in buffer && Within(d, i);
      }
    }
  }

  lemma DrainStepSound(r: Reassembler, t: seq<byte>, i: nat)
    requires Sound(r, t) && i < |r.buffer|
    requires Ready(r.firstUnassembled, r.buffer[i].data, r.buffer[i].index)
    ensures var s := DrainStep(r, i);
            Sound(s, t) && SameFrame(r, s) && (ReachEnd(s) ==> s.output.inputEnd)
  {
    var c := r.buffer[i];
    PushOneSound(r, t, c.data, c.index);
    var p := PushOne(r, c.data, c.index);
    WithoutKeeps(r.buffer, i);
    FewerStored(p, t, Without(r.buffer, i));
  }

  lemma FewerStored(r: Reassembler, t: seq<byte>, buffer: seq<Chunk>)
    requires Sound(r, t) && forall d :: d in buffer ==> d in r.buffer
    ensures Sound(r.(buffer := buffer), t)
  {
  }

  lemma DrainStepCoverage(r: Reassembler, t: seq<byte>, i: nat)
    requires Sound(r, t) && i < |r.buffer|
    requires Ready(r.firstUnassembled, r.buffer[i].data, r.buffer[i].index)
    ensures SameCoverage(r, DrainStep(r, i))
  {
    var c, rest := r.buffer[i], Without(r.buffer, i);
    WithoutKeeps(r.buffer, i);
    ReadyChunk(r.firstUnassembled, t, Edge(r), c);
    PushOneSound(r, t, c.data, c.index);
    UseUpCoverage(r.firstUnassembled, r.buffer, c, rest);
  }

  lemma SameCoverageTrans(r: Reassembler, s: Reassembler, u: Reassembler)
    requires SameCoverage(r, s) && SameCoverage(s, u)
    ensures SameCoverage(r, u)
  {
  }

  lemma {:induction false} DrainSound(r: Reassembler, t: seq<byte>)
    requires Sound(r, t) && (ReachEnd(r) ==> r.output.inputEnd)
    ensures Inv(Drain(r), t) && SameFrame(r, Drain(r))
    decreases |r.buffer|
  {
    var i := FirstReady(r.buffer, r.firstUnassembled);
    if i == |r.buffer| {
      forall c | c in r.buffer
        ensures c.index > r.firstUnassembled
      {
        var j :| 0 <= j < |r.buffer| && r.buffer[j] == c;
      }
    } else {
      DrainStepSound(r, t, i);
      DrainSound(DrainStep(r, i), t);
    }
  }

  lemma {:induction false} DrainCoverage(r: Reassembler, t: seq<byte>)
    requires Sound(r, t)
    ensures SameCoverage(r, Drain(r))
    decreases |r.buffer|
  {
    var i := FirstReady(r.buffer, r.firstUnassembled);
    if i == |r.buffer| {
    } else {
      DrainStepSound(r, t, i);
      DrainStepCoverage(r, t, i);
      DrainCoverage(DrainStep(r, i), t);
      SameCoverageTrans(r, DrainStep(r, i), Drain(r));
    }
  }

  lemma NoteEofSound(r: Reassembler, t: seq<byte>, data: seq<byte>, index: u64, eof: bool)
    requires Inv(r, t) && Fits(r, t, data, index, eof)
    ensures Sound(NoteEof(r, data, index, eof), t)
    ensures NoteEof(r, data, index, eof).hasEof == (r.hasEof || eof)
  {
  }

  /** Is position `i` among the bytes of this push that lie in front of the window's right edge? */
  predicate InWindow(r: Reassembler, data: seq<byte>, index: u64, i: int) {
    index <= i < Min(index + |data|, Edge(r))
  }

  lemma StoreCoverage(fu: nat, buffer: seq<Chunk>, c: Chunk)
    ensures forall i :: Stored(Insert(buffer, c), i) <==> Stored(buffer, i) || Within(c, i)
  {
  }

  /** The first half of a push, before the read-out loop. */
  lemma PushAndStoreSound(r: Reassembler, t: seq<byte>, cut: seq<byte>, index: u64)
    requires Sound(r, t) && ChunkOk(t, Edge(r), Chunk(index, cut))
    ensures var s := Store(PushOne(r, cut, index), cut, index);
            && Sound(s, t) && SameFrame(r, s)
            && (index <= r.firstUnassembled || !ReachEnd(r) || r.output.inputEnd ==> ReachEnd(s) ==> s.output.inputEnd)
  {
    PushOneSound(r, t, cut, index);
  }

  lemma PushAndStoreCoverage(r: Reassembler, t: seq<byte>, cut: seq<byte>, index: u64)
    requires Sound(r, t) && ChunkOk(t, Edge(r), Chunk(index, cut))
    ensures var s := Store(PushOne(r, cut, index), cut, index);
            forall i :: Covers(s, i) <==> Covers(r, i) || Within(Chunk(index, cut), i)
  {
    PushOneSound(r, t, cut, index);
    var c := Chunk(index, cut);
    StoreCoverage(r.firstUnassembled, r.buffer, c);
    if Ready(r.firstUnassembled, cut, index) {
      ReadyChunk(r.firstUnassembled, t, Edge(r), c);
    }
  }

  /** What is left of the pushed data after truncation. */
  lemma TruncatedChunk(r: Reassembler, t: seq<byte>, data: seq<byte>, index: u64)
    requires Sound(r, t) && Fits(r, t, data, index, false)
    ensures var c := Chunk(index, Truncate(r, data, index));
            ChunkOk(t, Edge(r), c) && forall i :: Within(c, i) <==> InWindow(r, data, index, i)
  {
    TruncateKeepsWindow(r, t, data, index);
    WindowEdge(r, t);
  }

  lemma PushSound(r: Reassembler, t: seq<byte>, data: seq<byte>, index: u64, eof: bool)
    requires Inv(r, t) && Fits(r, t, data, index, eof)
    ensures var s := Push(r, data, index, eof);
            Inv(s, t) && SameFrame(NoteEof(r, data, index, eof), s)
  {
    var r0 := NoteEof(r, data, index, eof);
    NoteEofSound(r, t, data, index, eof);
    TruncatedChunk(r0, t, data, index);
    var cut := Truncate(r0, data, index);
    PushAndStoreSound(r0, t, cut, index);
    DrainSound(Store(PushOne(r0, cut, index), cut, index), t);
  }

  lemma PushCoverage(r: Reassembler, t: seq<byte>, data: seq<byte>, index: u64, eof: bool)
    requires Inv(r, t) && Fits(r, t, data, index, eof)
    ensures forall i :: Covers(Push(r, data, index, eof), i) <==> Covers(r, i) || InWindow(r, data, index, i)
  {
    var r0 := NoteEof(r, data, index, eof);
    NoteEofSound(r, t, data, index, eof);
    TruncatedChunk(r0, t, data, index);
    var cut := Truncate(r0, data, index);
    var q := Store(PushOne(r0, cut, index), cut, index);
    PushAndStoreSound(r0, t, cut, index);
    PushAndStoreCoverage(r0, t, cut, index);
    DrainCoverage(q, t);
    forall i
      ensures Covers(Push(r, data, index, eof), i) <==> Covers(r, i) || InWindow(r, data, index, i)
    {
      assert Covers(q, i) <==> Covers(Drain(q), i);
      assert Covers(q, i) <==> Covers(r0, i) || Within(Chunk(index, cut), i);
      assert Covers(r0, i) <==> Covers(r, i);
    }
  }

  /** One push: the invariant is kept, and the positions covered afterwards are those covered
      before together with the pushed ones inside the window. */
  lemma PushCovers(r: Reassembler, t: seq<byte>, data: seq<byte>, index: u64, eof: bool)
    requires Inv(r, t) && Fits(r, t, data, index, eof)
    ensures var s := Push(r, data, index, eof);
            && Inv(s, t)
            && s.hasEof == (r.hasEof || eof)
            && s.firstUnassembled >= r.firstUnassembled
            && s.output.bytesRead == r.output.bytesRead && s.output.capacity == r.output.capacity
    ensures forall i :: Covers(Push(r, data, index, eof), i) <==> Covers(r, i) || InWindow(r, data, index, i)
  {
    PushSound(r, t, data, index, eof);
    PushCoverage(r, t, data, index, eof);
  }

  // Facts that hold of any push, also of data that fits no stream.

  /** The output stream is only ever written to and ended. */
  predicate OutputGrows(a: Stream, b: Stream) {
    && a.log <= b.log && a.capacity == b.capacity && a.bytesRead == b.bytesRead && a.error == b.error
    && (a.inputEnd ==> b.inputEnd && b.log == a.log)
  }

  lemma PushOneGrows(r: Reassembler, data: seq<byte>, index: u64)
    ensures OutputGrows(r.output, PushOne(r, data, index).output)
  {
  }

  lemma {:induction false} DrainGrows(r: Reassembler)
    ensures OutputGrows(r.output, Drain(r).output)
    decreases |r.buffer|
  {
    var i := FirstReady(r.buffer, r.firstUnassembled);
    if i == |r.buffer| {
    } else {
      PushOneGrows(r, r.buffer[i].data, r.buffer[i].index);
      DrainGrows(DrainStep(r, i));
    }
  }

  lemma PushGrows(r: Reassembler, data: seq<byte>, index: u64, eof: bool)
    ensures OutputGrows(r.output, Push(r, data, index, eof).output)
  {
    var r0 := NoteEof(r, data, index, eof);
    var cut := Truncate(r0, data, index);
    PushOneGrows(r0, cut, index);
    DrainGrows(Store(PushOne(r0, cut, index), cut, index));
  }
}
