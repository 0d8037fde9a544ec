/** The reassembler as the source keeps it: fields updated in place, and loops over the store. */
module ReassemblerImpl {
  import opened Words
  import opened Reassembly
  import opened ReassemblyCount
  import opened ByteStreamImpl

  class StreamReassembler {
    const output: ByteStream
    var hasEof: bool
    var finalIdx: u64
    var mapBuffer: seq<Chunk>
    var firstUnassembled: nat

    ghost predicate Valid()
      reads this, output
    {
      output.Valid()
    }

    ghost function Model(): (r: Reassembler)
      reads this, output
      requires Valid()
    {
      Reassembler(output.Model(), hasEof, finalIdx, mapBuffer, firstUnassembled)
    }

    constructor (capacity: nat)
      ensures Valid() && Model() == New(capacity) && fresh(output)
    {
      output := new ByteStream(capacity);
      hasEof, finalIdx, mapBuffer, firstUnassembled := false, 0, [], 0;
    }

    function GetFirstUnacceptable(): (n: nat)
      reads this, output
      requires Valid()
      ensures n == FirstUnacceptable(Model())
    {
      output.RemainingCapacity() + firstUnassembled
    }

    predicate AtEnd()
      reads this, output
      requires Valid()
      ensures AtEnd() <==> ReachEnd(Model())
    {
      hasEof && To64(finalIdx + 1) == firstUnassembled
    }

    method TruncationData(data: seq<byte>, index: u64) returns (newData: seq<byte>)
      requires Valid()
      ensures newData == Truncate(Model(), data, index)
    {
      newData := data;
      if hasEof && To64(index + |data|) > To64(finalIdx + 1) {
        newData := Substr(newData, 0, To64(finalIdx - index + 1));
      }
      var limit := GetFirstUnacceptable();
      if To64(index + |newData|) > limit {
        newData := Substr(newData, 0, To64(limit - index));
      }
    }

    method PushOnestr(newData: seq<byte>, index: u64) returns (used: bool)
      requires Valid()
      modifies this, output
      ensures Valid() && Model() == PushOne(old(Model()), newData, index)
      ensures used == Ready(old(firstUnassembled), newData, index)
    {
      var end := To64(index + |newData|);
      if index == firstUnassembled {
        var _ := output.Write(newData);
        firstUnassembled := firstUnassembled + |newData|;
        if AtEnd() { output.EndInput(); }
        return true;
      }
      if end <= firstUnassembled {
        if AtEnd() { output.EndInput(); }
        return true;
      }
      if index < firstUnassembled && end > firstUnassembled {
        var _ := output.Write(Substr(newData, firstUnassembled - index, end - firstUnassembled));
        firstUnassembled := end;
        if AtEnd() { output.EndInput(); }
        return true;
      }
      return false;
    }

    method PushSubstring(data: seq<byte>, index: u64, eof: bool)
      requires Valid()
      modifies this, output
      ensures Valid() && Model() == Push(old(Model()), data, index, eof)
    {
      if eof {
        hasEof := true;
        finalIdx := To64(index + |data| - 1);
      }
      var newData := TruncationData(data, index);
      var _ := PushOnestr(newData, index);
      if index > firstUnassembled {
        mapBuffer := Insert(mapBuffer, Chunk(index, newData));
      }
      ReadOut();
    }

    /** One scan of the store: use up and erase the first substring that is ready. */
    method ReadOutOne() returns (canReadOut: bool)
      requires Valid()
      modifies this, output
      ensures Valid()
      ensures canReadOut == (FirstReady(old(mapBuffer), old(firstUnassembled)) < |old(mapBuffer)|)
      ensures canReadOut ==> Model() == DrainStep(old(Model()), FirstReady(old(mapBuffer), old(firstUnassembled)))
      ensures !canReadOut ==> Model() == old(Model())
    {
      ghost var before := Model();
      var i := 0;
      while i < |mapBuffer|
        invariant 0 <= i <= |mapBuffer| && Valid() && Model() == before
        invariant forall j :: 0 <= j < i ==> !Ready(firstUnassembled, mapBuffer[j].data, mapBuffer[j].index)
      {
        var chunk := mapBuffer[i];
        var used := PushOnestr(chunk.data, chunk.index);
        if used {
          mapBuffer := Without(mapBuffer, i);
          assert FirstReady(before.buffer, before.firstUnassembled) == i;
          return true;
        }
        i := i + 1;
      }
      return false;
    }

    /** The loop at the end of `push_substring`: scan until a scan finds nothing ready. */
    method ReadOut()
      requires Valid()
      modifies this, output
      ensures Valid() && Model() == Drain(old(Model()))
    {
      ghost var start := Model();
      var canReadOut := true;
      while canReadOut
        invariant Valid() && Drain(Model()) == Drain(start)
        invariant !canReadOut ==> FirstReady(mapBuffer, firstUnassembled) == |mapBuffer|
        decreases |mapBuffer|, canReadOut
      {
        canReadOut := ReadOutOne();
      }
    }

    method UnassembledBytes() returns (n: nat)
      requires Valid()
      ensures n == |Narrowed(Positions(mapBuffer))|
    {
      var seen: set<int> := {};
      var k := 0;
      while k < |mapBuffer|
        invariant 0 <= k <= |mapBuffer|
        invariant seen == Narrowed(Positions(mapBuffer[..k]))
      {
        PositionsUpTo(mapBuffer, k);
        seen := InsertPositions(mapBuffer[k], seen, Positions(mapBuffer[..k]));
        k := k + 1;
      }
      assert mapBuffer[..k] == mapBuffer;
      n := |seen|;
    }

    /** The inner loop of `unassembled_bytes`: the positions of one stored substring. */
    static method InsertPositions(elem: Chunk, seen: set<int>, ghost done: set<int>) returns (all: set<int>)
      requires seen == Narrowed(done)
      ensures all == Narrowed(done + Span(elem.index, |elem.data|))
    {
      all := seen;
      assert done + Span(elem.index, 0) == done;
      var i := 0;
      while i < |elem.data|
        invariant 0 <= i <= |elem.data|
        invariant all == Narrowed(done + Span(elem.index, i))
      {
        SpanGrows(done, elem.index, i);
        all := all + {Narrow(elem.index + i)};
        i := i + 1;
      }
    }
  }
}
