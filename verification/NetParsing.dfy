/** Reading and writing integers in network byte order (libsponge/util/parser.cc). */
module NetParsing {
  import opened Words
  import K = Checksums

  datatype ParseResult =
    NoError | BadChecksum | PacketTooShort | WrongIPVersion | HeaderTooShort | TruncatedPacket

  datatype Parser = Parser(buffer: seq<byte>, error: ParseResult)

  function Pow256(n: nat): (p: nat)
    ensures p > 0
  {
    if n == 0 then 1 else 256 * Pow256(n - 1)
  }

  /** The number that bytes stand for, most significant byte first. */
  function FromBytes(bs: seq<byte>): (n: nat)
    ensures n < Pow256(|bs|)
  {
    if bs == [] then 0 else FromBytes(bs[..|bs| - 1]) * 256 + bs[|bs| - 1]
  }

  /** The low `len` bytes of a number, most significant byte first. */
  function ToBytes(v: nat, len: nat): (bs: seq<byte>)
    ensures |bs| == len
    decreases len
  {
    if len == 0 then [] else ToBytes(v / 256, len - 1) + [v % 256]
  }

  function CheckSize(p: Parser, size: nat): Parser {
    if size > |p.buffer| then p.(error := PacketTooShort) else p
  }

  function U8(p: Parser): byte { Pow256Values(); IntOf(p, 1) }

  function U16(p: Parser): u16 { Pow256Values(); IntOf(p, 2) }

  function U32(p: Parser): u32 { Pow256Values(); IntOf(p, 4) }

  /** An integer of `len` bytes, or 0 once there is an error. */
  function IntOf(p: Parser, len: nat): (n: nat)
    ensures n < Pow256(len)
  {
    if len > |p.buffer| || p.error != NoError then 0 else FromBytes(p.buffer[..len])
  }

  function AfterInt(p: Parser, len: nat): Parser { RemovePrefix(p, len) }

  function RemovePrefix(p: Parser, n: nat): Parser {
    if n > |p.buffer| then p.(error := PacketTooShort)
    else if p.error != NoError then p
    else p.(buffer := p.buffer[n..])
  }

  lemma {:induction false} Pow256Divides(v: nat, n: nat)
    requires v < Pow256(n + 1)
    ensures v / 256 < Pow256(n)
  {
  }

  /** Reading back what was written. */
  lemma {:induction false} BytesRoundTrip(v: nat, len: nat)
    requires v < Pow256(len)
    ensures FromBytes(ToBytes(v, len)) == v
    decreases len
  {
    if len == 0 {
    } else {
      Pow256Divides(v, len - 1);
      BytesRoundTrip(v / 256, len - 1);
      var bs := ToBytes(v, len);
      assert bs[..len - 1] == ToBytes(v / 256, len - 1);
    }
  }

  /** Writing back what was read. */
  lemma {:induction false} NumberRoundTrip(bs: seq<byte>)
    ensures ToBytes(FromBytes(bs), |bs|) == bs
  {
    if bs == [] {
    } else {
      NumberRoundTrip(bs[..|bs| - 1]);
      assert bs == bs[..|bs| - 1] + [bs[|bs| - 1]];
    }
  }

  lemma Pow256Values()
    ensures Pow256(1) == 0x100 && Pow256(2) == TWO16 && Pow256(4) == TWO32
  {
  }

  /** A parser in front of an integer reads exactly that integer. */
  lemma ParsesInt(v: nat, len: nat, rest: seq<byte>)
    requires v < Pow256(len)
    ensures var p := Parser(ToBytes(v, len) + rest, NoError);
            IntOf(p, len) == v && AfterInt(p, len) == Parser(rest, NoError)
  {
  }

  lemma ParsesU8(v: byte, rest: seq<byte>)
    ensures var p := Parser(ToBytes(v, 1) + rest, NoError);
            U8(p) == v && AfterInt(p, 1) == Parser(rest, NoError)
  {
  }

  lemma ParsesU16(v: u16, rest: seq<byte>)
    ensures var p := Parser(ToBytes(v, 2) + rest, NoError);
            U16(p) == v && AfterInt(p, 2) == Parser(rest, NoError)
  {
    Pow256Values();
    ParsesInt(v, 2, rest);
  }

  lemma ParsesU32(v: u32, rest: seq<byte>)
    ensures var p := Parser(ToBytes(v, 4) + rest, NoError);
            U32(p) == v && AfterInt(p, 4) == Parser(rest, NoError)
  {
    Pow256Values();
    ParsesInt(v, 4, rest);
  }

  lemma WordBytes(v: u16)
    ensures ToBytes(v, 2) == K.Word(v)
  {
  }

  lemma TwoWordBytes(v: u32)
    ensures ToBytes(v, 4) == K.Word(v / TWO16) + K.Word(v % TWO16)
  {
    var w := v / 256 / 256;
    assert w == v / TWO16;
    WordBytes(w);
    assert ToBytes(v / 256, 3) == ToBytes(w, 2) + [v / 256 % 256];
    assert v / 256 % 256 == v % TWO16 / 256 && v % 256 == v % TWO16 % 256;
  }

  /** A parser that stands at place `o` of a buffer moves on by `n`. */
  lemma MovesOn(b: seq<byte>, o: nat, n: nat)
    requires o <= |b|
    ensures o + n <= |b| ==> RemovePrefix(Parser(b[o..], NoError), n) == Parser(b[o + n..], NoError)
    ensures o + n > |b| ==> RemovePrefix(Parser(b[o..], NoError), n).error == PacketTooShort
  {
  }

  /** The 16-bit word at place `i`. */
  function WordAt(b: seq<byte>, i: nat): nat
    requires i + 2 <= |b|
  {
    var high: nat, low: nat := b[i], b[i + 1];
    256 * high + low
  }

  lemma ReadsByte(b: seq<byte>, i: nat)
    requires i < |b|
    ensures U8(Parser(b[i..], NoError)) == b[i]
  {
    assert b[i..][..1] == [b[i]] && [b[i]][..0] == [];
    assert FromBytes([b[i]]) == b[i];
  }

  lemma ReadsWord(b: seq<byte>, i: nat)
    requires i + 2 <= |b|
    ensures U16(Parser(b[i..], NoError)) == WordAt(b, i)
  {
    var w := [b[i], b[i + 1]];
    assert b[i..][..2] == w && w[..1] == [b[i]] && [b[i]][..0] == [];
    assert FromBytes([b[i]]) == b[i];
  }

  function Zeros(n: nat): seq<byte> { seq(n, _ => 0) }

  /** Skipping padding. */
  lemma SkipsZeros(n: nat, rest: seq<byte>)
    ensures RemovePrefix(Parser(Zeros(n) + rest, NoError), n) == Parser(rest, NoError)
  {
  }

  /** Byte `i` as the source computes it: shift, then mask. */
  lemma {:induction false} ByteOf(v: nat, len: nat, i: nat)
    requires i < len
    ensures ToBytes(v, len)[i] == v / Pow256(len - i - 1) % 256
    decreases len
  {
    if i < len - 1 {
      ByteOf(v / 256, len - 1, i);
      DivDiv(v, len - 1 - i - 1);
    } else {
      assert Pow256(0) == 1;
    }
  }

  lemma DivDiv(v: nat, n: nat)
    ensures v / 256 / Pow256(n) == v / Pow256(n + 1)
  {
    var b := Pow256(n);
    var q, r := v / 256, v % 256;
    var q2, r2 := q / b, q % b;
    DivMod(q, b);
    Scale(b, q2);
    DivUnique(v, 256 * b, q2, 256 * r2 + r);
  }

  lemma DivMod(q: nat, b: nat)
    requires b > 0
    ensures q == b * (q / b) + q % b && 0 <= q % b < b
  {
  }

  lemma Scale(b: nat, q: nat)
    ensures (256 * b) * q == 256 * (b * q)
  {
  }

  lemma DivUnique(v: nat, d: nat, q: nat, r: nat)
    requires d > 0 && v == d * q + r && r < d
    ensures v / d == q
  {
    var k := v / d - q;
    assert v == d * (v / d) + v % d;
    assert d * (v / d) - d * q == d * k;
    assert k >= 1 ==> d * k >= d;
    assert k <= -1 ==> d * k <= 0 - d;
  }
}

module NetParserImpl {
  import opened Words
  import N = NetParsing

  class NetParser {
    var buffer: seq<byte>
    var err: N.ParseResult

    ghost function Model(): N.Parser
      reads this
    {
      N.Parser(buffer, err)
    }

    constructor (buffer: seq<byte>)
      ensures Model() == N.Parser(buffer, N.NoError)
    {
      this.buffer, err := buffer, N.NoError;
    }

    method CheckSize(size: nat)
      modifies this
      ensures Model() == N.CheckSize(old(Model()), size)
    {
      if size > |buffer| { err := N.PacketTooShort; }
    }

    method ParseInt(len: nat) returns (r: nat)
      modifies this
      ensures r == N.IntOf(old(Model()), len) && Model() == N.AfterInt(old(Model()), len)
    {
      CheckSize(len);
      if err != N.NoError {
        return 0;
      }
      r := 0;
      var i := 0;
      while i < len
        invariant 0 <= i <= len <= |buffer|
        invariant r == N.FromBytes(buffer[..i])
      {
        assert buffer[..i + 1][..i] == buffer[..i];
        r := r * 256;
        r := r + buffer[i];
        i := i + 1;
      }
      buffer := buffer[len..];
    }

    method RemovePrefix(n: nat)
      modifies this
      ensures Model() == N.RemovePrefix(old(Model()), n)
    {
      CheckSize(n);
      if err != N.NoError {
        return;
      }
      buffer := buffer[n..];
    }
  }

  /** `NetUnparser::_unparse_int`: append the bytes of `val`, the highest first. */
  method UnparseInt(s: seq<byte>, val: nat, len: nat) returns (r: seq<byte>)
    ensures r == s + N.ToBytes(val, len)
  {
    r := s;
    var i := 0;
    while i < len
      invariant 0 <= i <= len
      invariant r == s + N.ToBytes(val, len)[..i]
    {
      var theByte: byte := val / N.Pow256(len - i - 1) % 256;
      N.ByteOf(val, len, i);
      r := r + [theByte];
      i := i + 1;
    }
    assert N.ToBytes(val, len)[..len] == N.ToBytes(val, len);
  }
}
