/** The bounded in-order byte stream (libsponge/byte_stream.cc). */
module ByteStreams {
  import opened Words

  /** A stream seen from outside: `log` holds every byte ever accepted, of which the first
      `bytesRead` have been popped. */
  datatype StreamData = StreamData(capacity: nat, log: seq<byte>, bytesRead: nat, inputEnd: bool, error: bool)

  type Stream = s: StreamData | s.bytesRead <= |s.log| <= s.bytesRead + s.capacity
    witness StreamData(0, [], 0, false, false)

  function Empty(capacity: nat): Stream {
    StreamData(capacity, [], 0, false, false)
  }

  function Buffer(s: Stream): seq<byte> {
    s.log[s.bytesRead..]
  }

  function Remaining(s: Stream): nat {
    s.capacity - |Buffer(s)|
  }

  predicate Eof(s: Stream) {
    s.inputEnd && Buffer(s) == []
  }

  /** How many bytes of `data` the stream accepts. */
  function Accepts(s: Stream, data: seq<byte>): nat {
    if s.inputEnd || s.error then 0 else Min(Remaining(s), |data|)
  }

  function Write(s: Stream, data: seq<byte>): Stream {
    s.(log := s.log + data[..Accepts(s, data)])
  }

  function Peek(s: Stream, len: nat): seq<byte> {
    Buffer(s)[..Min(len, |Buffer(s)|)]
  }

  function Pop(s: Stream, len: nat): Stream {
    s.(bytesRead := s.bytesRead + |Peek(s, len)|)
  }

  /** What `read(len)` returns. */
  function Taken(s: Stream, len: nat): seq<byte> {
    if s.error then [] else Peek(s, len)
  }

  function Read(s: Stream, len: nat): Stream {
    if s.error then s else Pop(s, len)
  }

  function EndInput(s: Stream): Stream {
    s.(inputEnd := true)
  }

  function SetError(s: Stream): Stream {
    s.(error := true)
  }

  datatype Op = WriteOp(data: seq<byte>) | ReadOp(len: nat) | PopOp(len: nat) | EndOp | ErrorOp

  function Step(s: Stream, op: Op): Stream {
    match op
    case WriteOp(data) => Write(s, data)
    case ReadOp(len) => Read(s, len)
    case PopOp(len) => Pop(s, len)
    case EndOp => EndInput(s)
    case ErrorOp => SetError(s)
  }

  function Run(s: Stream, ops: seq<Op>): Stream
    decreases |ops|
  {
    if ops == [] then s else Run(Step(s, ops[0]), ops[1..])
  }

  /** The bytes that one operation takes out of the stream. */
  function TakenBy(s: Stream, op: Op): seq<byte> {
    match op
    case ReadOp(len) => Taken(s, len)
    case PopOp(len) => Peek(s, len)
    case _ => []
  }

  /** The bytes that one operation puts into the stream. */
  function PutBy(s: Stream, op: Op): seq<byte> {
    if op.WriteOp? then op.data[..Accepts(s, op.data)] else []
  }

  /** All bytes that the reads and pops of a run took out, in order. */
  function ReadOut(s: Stream, ops: seq<Op>): seq<byte>
    decreases |ops|
  {
    if ops == [] then [] else TakenBy(s, ops[0]) + ReadOut(Step(s, ops[0]), ops[1..])
  }

  /** All bytes that the writes of a run accepted, in order. */
  function WrittenIn(s: Stream, ops: seq<Op>): seq<byte>
    decreases |ops|
  {
    if ops == [] then [] else PutBy(s, ops[0]) + WrittenIn(Step(s, ops[0]), ops[1..])
  }

  /** A write takes the data from its front: all of it, or as much as fills the stream; nothing once the stream
      has ended or failed. */
  lemma WriteTakesOrFills(s: Stream, data: seq<byte>)
    ensures var s' := Write(s, data);
            var n := |s'.log| - |s.log|;
      && 0 <= n <= |data| && s' == s.(log := s.log + data[..n])
      && (if s.inputEnd || s.error then n == 0 else n == |data| || |Buffer(s')| == s.capacity)
  {
  }

  /** A read takes bytes from the front: as many as asked for, or all there are; none once the stream has failed. */
  lemma ReadTakesFront(s: Stream, len: nat)
    ensures var n := |Taken(s, len)|;
      && n == (if s.error then 0 else if len < |Buffer(s)| then len else |Buffer(s)|)
      && Taken(s, len) == Buffer(s)[..n] && Read(s, len) == s.(bytesRead := s.bytesRead + n)
      && Buffer(Read(s, len)) == Buffer(s)[n..]
  {
  }

  lemma StepConserves(s: Stream, op: Op)
    ensures TakenBy(s, op) + Buffer(Step(s, op)) == Buffer(s) + PutBy(s, op)
  {
  }

  lemma Splice(taken: seq<byte>, rest: seq<byte>, end: seq<byte>, mid: seq<byte>, start: seq<byte>, put: seq<byte>,
               more: seq<byte>)
    requires rest + end == mid + more && taken + mid == start + put
    ensures taken + rest + end == start + (put + more)
  {
    assert taken + rest + end == taken + (rest + end);
    assert taken + (mid + more) == taken + mid + more;
    assert start + put + more == start + (put + more);
  }

  /** First in, first out, over every run: the bytes taken out are the bytes written, in order,
      less what is still buffered. */
  lemma {:induction false} FirstInFirstOut(s: Stream, ops: seq<Op>)
    ensures ReadOut(s, ops) + Buffer(Run(s, ops)) == Buffer(s) + WrittenIn(s, ops)
    decreases |ops|
  {
    if ops == [] {
    } else {
      var t, rest := Step(s, ops[0]), ops[1..];
      FirstInFirstOut(t, rest);
      StepConserves(s, ops[0]);
      Splice(TakenBy(s, ops[0]), ReadOut(t, rest), Buffer(Run(t, rest)), Buffer(t), Buffer(s), PutBy(s, ops[0]),
             WrittenIn(t, rest));
    }
  }
}
