/** The Internet checksum of RFC 1071 (`InternetChecksum` in libsponge/util/util.cc). */
module Checksums {
  import opened Words

  datatype Checksum = Checksum(sum: u32, parity: bool)

  function New(initial: u32): Checksum { Checksum(initial, false) }

  /** A byte counts as the high or the low half of a 16-bit word. */
  function Value16(b: byte, parity: bool): nat { if parity then b else b * 256 }

  function AddByte(c: Checksum, b: byte): Checksum {
    Checksum(To32(c.sum + Value16(b, c.parity)), !c.parity)
  }

  function Add(c: Checksum, data: seq<byte>): Checksum
    decreases |data|
  {
    if data == [] then c else Add(AddByte(c, data[0]), data[1..])
  }

  /** Add the carries back in until the sum fits 16 bits. */
  function Fold(x: nat): nat {
    if x <= 0xffff then x else Fold(x / TWO16 + x % TWO16)
  }

  function Value(c: Checksum): (v: u16)
  {
    FoldFits(c.sum);
    0xffff - Fold(c.sum)
  }

  lemma {:induction false} FoldFits(x: nat)
    ensures Fold(x) <= 0xffff
  {
    if x <= 0xffff {
    } else {
      FoldFits(x / TWO16 + x % TWO16);
    }
  }

  /** Folding keeps the sum modulo 65535, and never turns a non-zero sum into zero. */
  lemma {:induction false} FoldKeeps(x: nat)
    ensures Fold(x) <= 0xffff && Fold(x) % 0xffff == x % 0xffff && (Fold(x) == 0 <==> x == 0)
  {
    if x <= 0xffff {
    } else {
      var q, r := x / TWO16, x % TWO16;
      assert x == q * 0xffff + (q + r);
      ModPlus(q, q + r);
      FoldKeeps(q + r);
    }
  }

  lemma ModPlus(q: nat, y: nat)
    ensures (q * 0xffff + y) % 0xffff == y % 0xffff
  {
  }

  /** The checksum is zero exactly when the sum is a positive multiple of 65535. */
  lemma ValueZeroIff(c: Checksum)
    ensures Value(c) == 0 <==> c.sum > 0 && c.sum % 0xffff == 0
  {
    FoldKeeps(c.sum);
  }

  /** Adding in pieces is adding the whole, wherever the data is split. */
  lemma {:induction false} AddConcat(c: Checksum, x: seq<byte>, y: seq<byte>)
    ensures Add(Add(c, x), y) == Add(c, x + y)
    decreases |x|
  {
    if x == [] {
      assert x + y == y;
    } else {
      AddConcat(AddByte(c, x[0]), x[1..], y);
      assert (x + y)[1..] == x[1..] + y;
    }
  }

  /** The sum of the 16-bit words of `data`, without wrap-around. */
  function Weight(data: seq<byte>, parity: bool): nat
    decreases |data|
  {
    if data == [] then 0 else Value16(data[0], parity) + Weight(data[1..], !parity)
  }

  /** The test of a message with its checksum in place: its 32-bit sum is a positive multiple of 65535. */
  predicate SumsUp(initial: u32, data: seq<byte>) {
    var sum := To32(initial + Weight(data, false));
    sum > 0 && sum % 0xffff == 0
  }

  lemma ChecksIff(initial: u32, data: seq<byte>)
    ensures Value(Add(New(initial), data)) == 0 <==> SumsUp(initial, data)
  {
    AddIsWeight(New(initial), data);
    ValueZeroIff(Add(New(initial), data));
  }

  lemma To32Plus(x: nat, y: nat)
    ensures To32(To32(x) + y) == To32(x + y)
  {
  }

  lemma {:induction false} AddIsWeight(c: Checksum, data: seq<byte>)
    ensures Add(c, data).sum == To32(c.sum + Weight(data, c.parity))
    decreases |data|
  {
    if data == [] {
      assert Weight(data, c.parity) == 0;
    } else {
      var x, y := c.sum + Value16(data[0], c.parity), Weight(data[1..], !c.parity);
      AddIsWeight(AddByte(c, data[0]), data[1..]);
      To32Plus(x, y);
    }
  }

  lemma {:induction false} WeightConcat(x: seq<byte>, y: seq<byte>, parity: bool)
    ensures Weight(x + y, parity) == Weight(x, parity) + Weight(y, parity != (|x| % 2 == 1))
    decreases |x|
  {
    if x == [] {
      assert x + y == y;
    } else {
      WeightConcat(x[1..], y, !parity);
      assert (x + y)[1..] == x[1..] + y;
    }
  }

  function Word(v: u16): seq<byte> { [v / 256, v % 256] }

  /** Putting a word into a zero field at an even offset adds it to the sum. */
  lemma FillField(pre: seq<byte>, v: u16, post: seq<byte>)
    requires |pre| % 2 == 0
    ensures Weight(pre + Word(v) + post, false) == Weight(pre + Word(0) + post, false) + v
  {
    WordWeight(v);
    WordWeight(0);
    WeightConcat(pre + Word(v), post, false);
    WeightConcat(pre + Word(0), post, false);
    WeightConcat(pre, Word(v), false);
    WeightConcat(pre, Word(0), false);
  }

  lemma WordWeight(v: u16)
    ensures Weight(Word(v), false) == v
  {
    var low := Word(v)[1..];
    assert low == [v % 256] && low[1..] == [];
    assert Weight(low[1..], false) == 0;
    assert Weight(low, true) == v % 256;
  }

  lemma WeightPlusWord(pre: seq<byte>, v: u16)
    requires |pre| % 2 == 0
    ensures Weight(pre + Word(v), false) == Weight(pre, false) + v
  {
    WeightConcat(pre, Word(v), false);
    WordWeight(v);
  }

  lemma {:induction false} AddParity(c: Checksum, data: seq<byte>)
    ensures Add(c, data).parity == (c.parity != (|data| % 2 == 1))
    decreases |data|
  {
    if data == [] {
    } else {
      AddParity(AddByte(c, data[0]), data[1..]);
    }
  }

  lemma ComplementMultiple(s: nat)
    ensures Fold(s) <= 0xffff && (s + (0xffff - Fold(s))) % 0xffff == 0
  {
    FoldKeeps(s);
    var q, r := s / 0xffff - Fold(s) / 0xffff, Fold(s);
    assert s + (0xffff - r) == (q + 1) * 0xffff;
  }

  /** Completing a sum never leaves 32 bits, since 2^32 - 1 is itself a multiple of 65535. */
  lemma CompletedFits(c: Checksum)
    ensures 0 < c.sum + Value(c) < TWO32 && (c.sum + Value(c)) % 0xffff == 0
  {
    FoldKeeps(c.sum);
    ComplementMultiple(c.sum);
    assert TWO32 - 1 == 0x10001 * 0xffff;
  }

  /** Putting a word into a zero field at an even offset adds it to the 32-bit sum. */
  lemma FilledSum(initial: u32, pre: seq<byte>, v: u16, post: seq<byte>)
    requires |pre| % 2 == 0
    ensures Add(New(initial), pre + Word(v) + post).sum == To32(Add(New(initial), pre + Word(0) + post).sum + v)
  {
    var n := initial + Weight(pre + Word(0) + post, false);
    AddIsWeight(New(initial), pre + Word(0) + post);
    AddIsWeight(New(initial), pre + Word(v) + post);
    FillField(pre, v, post);
    To32Plus(n, v);
  }

  /** A message whose checksum field was filled in always checks out. */
  lemma FilledChecksOut(initial: u32, pre: seq<byte>, post: seq<byte>)
    requires |pre| % 2 == 0
    ensures var v := Value(Add(New(initial), pre + Word(0) + post));
            Value(Add(New(initial), pre + Word(v) + post)) == 0
  {
    var c := Add(New(initial), pre + Word(0) + post);
    FilledSum(initial, pre, Value(c), post);
    CompletedFits(c);
    ValueZeroIff(Add(New(initial), pre + Word(Value(c)) + post));
  }
}

module ChecksumImpl {
  import opened Words
  import K = Checksums

  class InternetChecksum {
    var sum: u32
    var parity: bool

    ghost function Model(): K.Checksum
      reads this
    {
      K.Checksum(sum, parity)
    }

    constructor (initialSum: u32)
      ensures Model() == K.New(initialSum)
    {
      sum, parity := initialSum, false;
    }

    method Add(data: seq<byte>)
      modifies this
      ensures Model() == K.Add(old(Model()), data)
    {
      ghost var end := K.Add(Model(), data);
      var i := 0;
      while i < |data|
        invariant 0 <= i <= |data|
        invariant K.Add(Model(), data[i..]) == end
      {
        var val: int := data[i];
        if !parity { val := val * 256; }
        sum := To32(sum + val);
        parity := !parity;
        i := i + 1;
      }
    }

    method Value() returns (v: u16)
      ensures v == K.Value(Model())
    {
      var ret: nat := sum;
      while ret > 0xffff
        invariant K.Fold(ret) == K.Fold(sum)
      {
        ret := ret / TWO16 + ret % TWO16;
      }
      v := 0xffff - ret;
    }
  }
}
