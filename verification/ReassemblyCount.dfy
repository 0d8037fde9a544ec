/** Counting the stored bytes (`unassembled_bytes`), which the source does with a set of 32-bit
    `int`s although positions are 64-bit. */
module ReassemblyCount {
  import opened Words
  import opened Reassembly
  import ByteStreams

  /** The conversion of a `size_t` to a signed 32-bit `int`. */
  function Narrow(x: int): int {
    var m := x % TWO32;
    if m < TWO31 then m else m - TWO32
  }

  function Span(lo: int, n: nat): set<int> {
    if n == 0 then {} else Span(lo, n - 1) + {lo + n - 1}
  }

  lemma {:induction false} InSpan(lo: int, n: nat, x: int)
    ensures x in Span(lo, n) <==> lo <= x < lo + n
  {
    if n == 0 {
    } else {
      InSpan(lo, n - 1, x);
    }
  }

  /** The distinct stream positions held in the store. */
  function Positions(buffer: seq<Chunk>): set<int> {
    if buffer == [] then {}
    else var last := buffer[|buffer| - 1];
         Positions(buffer[..|buffer| - 1]) + Span(last.index, |last.data|)
  }

  lemma PositionsUpTo(buffer: seq<Chunk>, k: nat)
    requires k < |buffer|
    ensures Positions(buffer[..k + 1]) == Positions(buffer[..k]) + Span(buffer[k].index, |buffer[k].data|)
  {
    assert buffer[..k + 1][..k] == buffer[..k];
  }

  lemma {:induction false} PositionsAreStored(buffer: seq<Chunk>, i: int)
    ensures i in Positions(buffer) <==> Stored(buffer, i)
  {
    if buffer == [] {
    } else {
      var n := |buffer| - 1;
      PositionsAreStored(buffer[..n], i);
      forall c
        ensures c in buffer <==> c in buffer[..n] || c == buffer[n]
      {
        assert buffer == buffer[..n] + [buffer[n]];
      }
      assert Stored(buffer, i) <==> Stored(buffer[..n], i) || Within(buffer[n], i) by {
        assert buffer[n] in buffer;
      }
      InSpan(buffer[n].index, |buffer[n].data|, i);
    }
  }

  function Narrowed(positions: set<int>): set<int> {
    set x | x in positions :: Narrow(x)
  }

  lemma NarrowedAdd(s: set<int>, x: int)
    ensures Narrowed(s + {x}) == Narrowed(s) + {Narrow(x)}
  {
  }

  lemma SpanGrows(s: set<int>, lo: int, n: nat)
    ensures Narrowed(s + Span(lo, n + 1)) == Narrowed(s + Span(lo, n)) + {Narrow(lo + n)}
  {
  }

  lemma NarrowInjective(x: int, y: int)
    requires -TWO32 < x - y < TWO32 && Narrow(x) == Narrow(y)
    ensures x == y
  {
  }

  /** A set that lies in a range has no more elements than the range, and narrowing loses none of
      them if the range is no longer than 2^32. */
  lemma {:induction false} NarrowedSize(s: set<int>, lo: int, n: nat)
    requires n <= TWO32 && forall x :: x in s ==> lo <= x < lo + n
    ensures |Narrowed(s)| == |s| <= n
  {
    if n == 0 {
      forall x
        ensures x !in s
      {
      }
      assert s == {};
    } else {
      var last := lo + n - 1;
      var rest := s - {last};
      NarrowedSize(rest, lo, n - 1);
      if last in s {
        assert s == rest + {last};
        NarrowedAdd(rest, last);
        forall y | y in rest
          ensures Narrow(y) != Narrow(last)
        {
          if Narrow(y) == Narrow(last) { NarrowInjective(last, y); }
        }
      } else {
        assert s == rest;
      }
    }
  }

  /** The count is the number of distinct stored positions, and they fit the remaining capacity. */
  lemma CountIsExact(r: Reassembler, t: seq<byte>)
    requires Inv(r, t) && r.output.capacity <= TWO32
    ensures |Narrowed(Positions(r.buffer))| == |Positions(r.buffer)| <= ByteStreams.Remaining(r.output)
    ensures forall i :: i in Positions(r.buffer) <==> Covers(r, i) && i >= r.firstUnassembled
  {
    var s, fu := Positions(r.buffer), r.firstUnassembled;
    WindowEdge(r, t);
    assert Edge(r) <= fu + TWO32;
    forall x
      ensures x in s <==> Stored(r.buffer, x)
    {
      PositionsAreStored(r.buffer, x);
    }
    NarrowedSize(s, fu, Edge(r) - fu);
  }
}
