/** The byte stream as the source keeps it: a buffer and counters, updated in place. */
module ByteStreamImpl {
  import opened Words
  import S = ByteStreams

  class ByteStream {
    const capacity: nat
    var buffer: seq<byte>
    var bytesWritten: nat
    var bytesRead: nat
    var inputEnd: bool
    var err: bool
    ghost var log: seq<byte>

    ghost predicate Valid()
      reads this
    {
      && bytesRead <= |log| <= bytesRead + capacity
      && buffer == log[bytesRead..]
      && bytesWritten == |log|
    }

    ghost function Model(): (s: S.Stream)
      reads this
      requires Valid()
      ensures S.Buffer(s) == buffer && |s.log| == bytesWritten
      ensures s.capacity == capacity && s.bytesRead == bytesRead && s.inputEnd == inputEnd && s.error == err
    {
      S.StreamData(capacity, log, bytesRead, inputEnd, err)
    }

    constructor (capacity: nat)
      ensures Valid() && Model() == S.Empty(capacity)
    {
      this.capacity := capacity;
      buffer, bytesWritten, bytesRead, inputEnd, err, log := [], 0, 0, false, false, [];
    }

    function RemainingCapacity(): (r: nat)
      reads this
      requires Valid()
      ensures r == S.Remaining(Model())
    {
      capacity - |buffer|
    }

    predicate AtEof()
      reads this
      requires Valid()
      ensures AtEof() <==> S.Eof(Model())
    {
      inputEnd && buffer == []
    }

    method Write(data: seq<byte>) returns (n: nat)
      requires Valid()
      modifies this
      ensures Valid() && Model() == S.Write(old(Model()), data)
      ensures n == S.Accepts(old(Model()), data)
    {
      if inputEnd || err {
        return 0;
      }
      if RemainingCapacity() == 0 {
        return 0;
      }
      n := if RemainingCapacity() < |data| then RemainingCapacity() else |data|;
      buffer := buffer + data[..n];
      bytesWritten := bytesWritten + n;
      log := log + data[..n];
    }

    method PeekOutput(len: nat) returns (r: seq<byte>)
      requires Valid()
      ensures r == S.Peek(Model(), len)
    {
      var n := if len > |buffer| then |buffer| else len;
      r := buffer[..n];
    }

    method PopOutput(len: nat)
      requires Valid()
      modifies this
      ensures Valid() && Model() == S.Pop(old(Model()), len)
    {
      var n := if len > |buffer| then |buffer| else len;
      bytesRead := bytesRead + n;
      buffer := buffer[n..];
    }

    method Read(len: nat) returns (r: seq<byte>)
      requires Valid()
      modifies this
      ensures Valid() && Model() == S.Read(old(Model()), len)
      ensures r == S.Taken(old(Model()), len)
    {
      if err {
        return [];
      }
      r := PeekOutput(len);
      PopOutput(len);
    }

    method EndInput()
      requires Valid()
      modifies this
      ensures Valid() && Model() == S.EndInput(old(Model()))
    {
      inputEnd := true;
    }

    method SetError()
      requires Valid()
      modifies this
      ensures Valid() && Model() == S.SetError(old(Model()))
    {
      err := true;
    }
  }
}
