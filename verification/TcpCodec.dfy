/** TCP headers and segments on the wire (section 3.1 of RFC 793;
    libsponge/tcp_helpers/tcp_header.cc, libsponge/tcp_helpers/tcp_segment.cc). */
module TcpCodec {
  import opened Words
  import opened Segments
  import opened NetParsing
  import K = Checksums

  const LENGTH: nat := 20


  function Flags(h: TCPHeader): byte {
    32 * Count(h.urg) + 16 * Count(h.ack) + 8 * Count(h.psh) + 4 * Count(h.rst) + 2 * Count(h.syn) + Count(h.fin)
  }

  /** The part of the header in front of the checksum. */
  function Front(h: TCPHeader): seq<byte> {
    ToBytes(h.sport, 2) + ToBytes(h.dport, 2) + ToBytes(h.seqno, 4) + ToBytes(h.ackno, 4)
    + ToBytes(h.doff * 16 % 256, 1) + ToBytes(Flags(h), 1) + ToBytes(h.win, 2)
  }

  function HeaderBytes(h: TCPHeader): seq<byte>
    requires h.doff >= 5
  {
    Front(h) + ToBytes(h.cksum, 2) + ToBytes(h.uptr, 2) + Zeros(4 * h.doff - LENGTH)
  }

  /** `serialize` throws if the header is too short. */
  function SerializeHeader(h: TCPHeader): Option<seq<byte>> {
    if h.doff < 5 then None else Some(HeaderBytes(h))
  }

  datatype Parsed = Parsed(header: TCPHeader, parser: Parser, result: ParseResult)

  /** The widths of the header's fields, in bytes. */
  const WIDTHS: seq<nat> := [2, 2, 4, 4, 1, 1, 2, 2, 2]

  /** The parser after the first `n` fields of a header. */
  function After(p: Parser, n: nat): Parser
    requires n <= 9
    decreases n
  {
    if n == 0 then p else AfterInt(After(p, n - 1), WIDTHS[n - 1])
  }

  function Fields(p: Parser): TCPHeader {
    var fl := U8(After(p, 5));
    TCPHeader(U16(p), U16(After(p, 1)), U32(After(p, 2)), U32(After(p, 3)), U8(After(p, 4)) / 16,
              Flag(fl, 32), Flag(fl, 16), Flag(fl, 8), Flag(fl, 4), Flag(fl, 2), Flag(fl, 1),
              U16(After(p, 6)), U16(After(p, 7)), U16(After(p, 8)))
  }

  /** What `parse` concludes once the fields are read. */
  function Conclude(h: TCPHeader, q: Parser): Parsed {
    if h.doff < 5 then Parsed(h, q, HeaderTooShort)
    else var q' := RemovePrefix(q, h.doff * 4 - LENGTH); Parsed(h, q', q'.error)
  }

  function ParseHeader(p: Parser): Parsed { Conclude(Fields(p), After(p, 9)) }

  function CksumOf(seg: TCPSegment, initial: u32): u16
    requires seg.header.doff >= 5
  {
    K.Value(K.Add(K.Add(K.New(initial), HeaderBytes(seg.header.(cksum := 0))), seg.payload))
  }

  function WithCksum(seg: TCPSegment, initial: u32): TCPSegment
    requires seg.header.doff >= 5
  {
    seg.(header := seg.header.(cksum := CksumOf(seg, initial)))
  }

  function Serialize(seg: TCPSegment, initial: u32): Option<seq<byte>> {
    if seg.header.doff < 5 then None
    else Some(HeaderBytes(WithCksum(seg, initial).header) + seg.payload)
  }

  /** `parse` on a segment object that held `seg`: the result code and what the object holds then. The
      result of the header's own parse is not looked at. */
  function Parse(seg: TCPSegment, buffer: seq<byte>, initial: u32): (ParseResult, TCPSegment) {
    if K.Value(K.Add(K.New(initial), buffer)) != 0 then (BadChecksum, seg)
    else
      var parsed := ParseHeader(Parser(buffer, NoError));
      (parsed.parser.error, TCPSegment(parsed.header, parsed.parser.buffer))
  }

  // ---------------------------------------------------------------------------------------

  /** The flag of weight `w` in a flag byte. */
  predicate Flag(fl: byte, w: nat)
    requires w > 0
  {
    fl / w % 2 == 1
  }

  lemma FlagsRoundTrip(h: TCPHeader)
    ensures var fl := Flags(h);
      && Flag(fl, 32) == h.urg && Flag(fl, 16) == h.ack && Flag(fl, 8) == h.psh
      && Flag(fl, 4) == h.rst && Flag(fl, 2) == h.syn && Flag(fl, 1) == h.fin
  {
  }

  /** The header as 16-bit words, the high byte of each first: the format of section 3.1 of RFC 793. */
  lemma HeaderLayout(h: TCPHeader)
    requires 5 <= h.doff <= 15
    ensures var bits := 0x1000 * h.doff + 0x20 * Count(h.urg) + 0x10 * Count(h.ack) + 8 * Count(h.psh)
                        + 4 * Count(h.rst) + 2 * Count(h.syn) + Count(h.fin);
            HeaderBytes(h)
            == K.Word(h.sport) + K.Word(h.dport) + K.Word(h.seqno / TWO16) + K.Word(h.seqno % TWO16)
               + K.Word(h.ackno / TWO16) + K.Word(h.ackno % TWO16) + K.Word(bits) + K.Word(h.win)
               + K.Word(h.cksum) + K.Word(h.uptr) + Zeros(4 * h.doff - 20)
  {
    WordBytes(h.sport);
    WordBytes(h.dport);
    TwoWordBytes(h.seqno);
    TwoWordBytes(h.ackno);
    OffsetAndFlags(h);
    WordBytes(h.win);
    WordBytes(h.cksum);
    WordBytes(h.uptr);
  }

  lemma OffsetAndFlags(h: TCPHeader)
    requires h.doff <= 15
    ensures ToBytes(h.doff * 16 % 256, 1) + ToBytes(Flags(h), 1)
         == K.Word(0x1000 * h.doff + 0x20 * Count(h.urg) + 0x10 * Count(h.ack) + 8 * Count(h.psh)
                   + 4 * Count(h.rst) + 2 * Count(h.syn) + Count(h.fin))
  {
  }

  /** The header and what follows it, as the parser meets it: one field, then the rest. */
  lemma HeaderSplits(h: TCPHeader, rest: seq<byte>)
    requires h.doff >= 5
    ensures HeaderBytes(h) + rest
         == ToBytes(h.sport, 2) + (ToBytes(h.dport, 2) + (ToBytes(h.seqno, 4) + (ToBytes(h.ackno, 4)
            + (ToBytes(h.doff * 16 % 256, 1) + (ToBytes(Flags(h), 1) + (ToBytes(h.win, 2) + (ToBytes(h.cksum, 2)
            + (ToBytes(h.uptr, 2) + (Zeros(4 * h.doff - LENGTH) + rest)))))))))
  {
  }

  lemma StepU8(p: Parser, n: nat, v: byte, rest: seq<byte>)
    requires n < 9 && WIDTHS[n] == 1 && After(p, n) == Parser(ToBytes(v, 1) + rest, NoError)
    ensures U8(After(p, n)) == v && After(p, n + 1) == Parser(rest, NoError)
  {
    ParsesU8(v, rest);
  }

  lemma StepU16(p: Parser, n: nat, v: u16, rest: seq<byte>)
    requires n < 9 && WIDTHS[n] == 2 && After(p, n) == Parser(ToBytes(v, 2) + rest, NoError)
    ensures U16(After(p, n)) == v && After(p, n + 1) == Parser(rest, NoError)
  {
    ParsesU16(v, rest);
  }

  lemma StepU32(p: Parser, n: nat, v: u32, rest: seq<byte>)
    requires n < 9 && WIDTHS[n] == 4 && After(p, n) == Parser(ToBytes(v, 4) + rest, NoError)
    ensures U32(After(p, n)) == v && After(p, n + 1) == Parser(rest, NoError)
  {
    ParsesU32(v, rest);
  }

  /** The first four fields, and what the parser then has in front of it. */
  lemma ParsesFront(p: Parser, h: TCPHeader, rest: seq<byte>)
    requires p == Parser(ToBytes(h.sport, 2) + (ToBytes(h.dport, 2) + (ToBytes(h.seqno, 4)
                         + (ToBytes(h.ackno, 4) + rest))), NoError)
    ensures U16(p) == h.sport && U16(After(p, 1)) == h.dport
    ensures U32(After(p, 2)) == h.seqno && U32(After(p, 3)) == h.ackno && After(p, 4) == Parser(rest, NoError)
  {
    var r3 := ToBytes(h.ackno, 4) + rest;
    var r2 := ToBytes(h.seqno, 4) + r3;
    StepU16(p, 0, h.sport, ToBytes(h.dport, 2) + r2);
    StepU16(p, 1, h.dport, r2);
    StepU32(p, 2, h.seqno, r3);
    StepU32(p, 3, h.ackno, rest);
  }

  /** The other five. */
  lemma ParsesBack(p: Parser, h: TCPHeader, rest: seq<byte>)
    requires After(p, 4) == Parser(ToBytes(h.doff * 16 % 256, 1) + (ToBytes(Flags(h), 1) + (ToBytes(h.win, 2)
                                   + (ToBytes(h.cksum, 2) + (ToBytes(h.uptr, 2) + rest)))), NoError)
    ensures U8(After(p, 4)) == h.doff * 16 % 256 && U8(After(p, 5)) == Flags(h)
    ensures U16(After(p, 6)) == h.win && U16(After(p, 7)) == h.cksum && U16(After(p, 8)) == h.uptr
    ensures After(p, 9) == Parser(rest, NoError)
  {
    var r8 := ToBytes(h.uptr, 2) + rest;
    var r7 := ToBytes(h.cksum, 2) + r8;
    var r6 := ToBytes(h.win, 2) + r7;
    StepU8(p, 4, h.doff * 16 % 256, ToBytes(Flags(h), 1) + r6);
    StepU8(p, 5, Flags(h), r6);
    StepU16(p, 6, h.win, r7);
    StepU16(p, 7, h.cksum, r8);
    StepU16(p, 8, h.uptr, rest);
  }

  lemma DoffNibble(d: nat)
    ensures d * 16 % 256 / 16 == d % 16
  {
  }

  lemma FieldsFrom(p: Parser, h: TCPHeader)
    requires U16(p) == h.sport && U16(After(p, 1)) == h.dport && U32(After(p, 2)) == h.seqno
    requires U32(After(p, 3)) == h.ackno && U8(After(p, 4)) == h.doff * 16 % 256 && U8(After(p, 5)) == Flags(h)
    requires U16(After(p, 6)) == h.win && U16(After(p, 7)) == h.cksum && U16(After(p, 8)) == h.uptr
    ensures Fields(p) == h.(doff := h.doff % 16)
  {
    FlagsRoundTrip(h);
    DoffNibble(h.doff);
  }

  /** The fields come back, except that the data offset keeps only its low four bits. */
  lemma FieldsRoundTrip(h: TCPHeader, rest: seq<byte>)
    requires h.doff >= 5
    ensures var p := Parser(HeaderBytes(h) + rest, NoError);
            Fields(p) == h.(doff := h.doff % 16) && After(p, 9) == Parser(Zeros(4 * h.doff - LENGTH) + rest, NoError)
  {
    HeaderSplits(h, rest);
    var p := Parser(HeaderBytes(h) + rest, NoError);
    var r9 := Zeros(4 * h.doff - LENGTH) + rest;
    ParsesFront(p, h, ToBytes(h.doff * 16 % 256, 1) + (ToBytes(Flags(h), 1) + (ToBytes(h.win, 2)
                      + (ToBytes(h.cksum, 2) + (ToBytes(h.uptr, 2) + r9)))));
    ParsesBack(p, h, r9);
    FieldsFrom(p, h);
  }

  lemma ConcludesIff(h: TCPHeader, rest: seq<byte>)
    requires h.doff >= 5
    ensures var parsed := Conclude(h.(doff := h.doff % 16), Parser(Zeros(4 * h.doff - LENGTH) + rest, NoError));
      && (parsed.header == h <==> h.doff <= 15)
      && (h.doff <= 15 ==> parsed == Parsed(h, Parser(rest, NoError), NoError))
  {
    SkipsZeros(4 * h.doff - LENGTH, rest);
  }

  /** Reading a header back: it comes back whole exactly when the data offset fits its four bits, and
      then the parser stands behind the padding. */
  lemma HeaderRoundTripIff(h: TCPHeader, rest: seq<byte>)
    requires h.doff >= 5
    ensures ParseHeader(Parser(HeaderBytes(h) + rest, NoError)).header == h <==> h.doff <= 15
    ensures h.doff <= 15 ==>
              ParseHeader(Parser(HeaderBytes(h) + rest, NoError)) == Parsed(h, Parser(rest, NoError), NoError)
  {
    FieldsRoundTrip(h, rest);
    ConcludesIff(h, rest);
  }

  lemma Regroup(a: seq<byte>, b: seq<byte>, c: seq<byte>, d: seq<byte>, e: seq<byte>)
    ensures a + b + c + d + e == a + b + (c + d + e)
  {
  }

  // What is accepted

  /** Where field `n` starts. */
  function Offset(n: nat): nat
    requires n <= 9
  {
    if n == 0 then 0 else Offset(n - 1) + WIDTHS[n - 1]
  }

  lemma {:induction false} AfterIs(b: seq<byte>, n: nat)
    requires n <= 9
    ensures Offset(n) <= |b| ==> After(Parser(b, NoError), n) == Parser(b[Offset(n)..], NoError)
    ensures Offset(n) > |b| ==> After(Parser(b, NoError), n).error == PacketTooShort
  {
    if n == 0 {
      assert b[0..] == b;
    } else {
      AfterIs(b, n - 1);
      if Offset(n - 1) <= |b| { MovesOn(b, Offset(n - 1), WIDTHS[n - 1]); }
    }
  }

  lemma Offsets()
    ensures Offset(4) == 12 && Offset(9) == 20
  {
    assert Offset(2) == 4;
    assert Offset(6) == 14;
  }

  /** The offset as the parser sees it: the byte may not be there. */
  function OffsetByte(b: seq<byte>): byte { if |b| > 12 then b[12] / 16 else 0 }

  lemma OffsetSeen(b: seq<byte>)
    ensures Fields(Parser(b, NoError)).doff == OffsetByte(b)
  {
    AfterIs(b, 4);
    Offsets();
    if |b| > 12 { ReadsByte(b, 12); }
  }

  /** For every buffer the verdict on a header: too short if the offset is below 5 or its byte is missing, else the
      packet is too short if 20 bytes or the announced options are not there, else none. */
  lemma HeaderVerdict(b: seq<byte>)
    ensures ParseHeader(Parser(b, NoError)).result
         == if OffsetByte(b) < 5 then HeaderTooShort
            else if |b| < 20 || |b| < 4 * OffsetByte(b) then PacketTooShort
            else NoError
    ensures ParseHeader(Parser(b, NoError)).parser.error == NoError <==> |b| >= 20 && 4 * OffsetByte(b) <= |b|
  {
    AfterIs(b, 9);
    Offsets();
    OffsetSeen(b);
  }

  /** A segment is read without error if and only if its checksum is right and it is no shorter than a header and
      the offset that this announces; that the offset is too small is not noticed. */
  lemma SegmentAcceptedIff(seg: TCPSegment, b: seq<byte>, initial: u32)
    ensures Parse(seg, b, initial).0 == NoError
       <==> K.SumsUp(initial, b) && |b| >= 20 && 4 * (b[12] / 16) <= |b|
  {
    K.ChecksIff(initial, b);
    HeaderVerdict(b);
  }

  /** A segment with a wrong checksum is said to have one, and the segment object keeps what it held. */
  lemma BadSegmentIff(seg: TCPSegment, b: seq<byte>, initial: u32)
    ensures Parse(seg, b, initial).0 == BadChecksum <==> !K.SumsUp(initial, b)
    ensures !K.SumsUp(initial, b) ==> Parse(seg, b, initial).1 == seg
  {
    K.ChecksIff(initial, b);
    ErrorsAre(b, 9);
  }

  /** Running out of bytes is the only error a parser meets. */
  lemma {:induction false} ErrorsAre(b: seq<byte>, n: nat)
    requires n <= 9
    ensures After(Parser(b, NoError), n).error in {NoError, PacketTooShort}
  {
    if n == 0 {
    } else {
      ErrorsAre(b, n - 1);
    }
  }

  /** The checksum field lies at an even offset, and only it differs between the two passes. */
  lemma CksumField(h: TCPHeader, v: u16, payload: seq<byte>)
    requires h.doff >= 5
    ensures |Front(h)| % 2 == 0
    ensures HeaderBytes(h.(cksum := v)) + payload
         == Front(h) + K.Word(v) + (ToBytes(h.uptr, 2) + Zeros(4 * h.doff - LENGTH) + payload)
  {
    WordBytes(v);
    assert Front(h.(cksum := v)) == Front(h);
    Regroup(Front(h), K.Word(v), ToBytes(h.uptr, 2), Zeros(4 * h.doff - LENGTH), payload);
  }

  /** A serialized segment passes the checksum test. */
  lemma SerializedChecksOut(seg: TCPSegment, initial: u32)
    requires seg.header.doff >= 5
    ensures K.Value(K.Add(K.New(initial), Serialize(seg, initial).value)) == 0
  {
    var h, v := seg.header, CksumOf(seg, initial);
    var post := ToBytes(h.uptr, 2) + Zeros(4 * h.doff - LENGTH) + seg.payload;
    K.AddConcat(K.New(initial), HeaderBytes(h.(cksum := 0)), seg.payload);
    CksumField(h, 0, seg.payload);
    CksumField(h, v, seg.payload);
    K.FilledChecksOut(initial, Front(h), post);
  }

  /** Serialize, then parse: the same segment, with its checksum filled in. */
  lemma SegmentRoundTrip(seg: TCPSegment, initial: u32, into: TCPSegment)
    requires 5 <= seg.header.doff <= 15
    ensures Serialize(seg, initial).Some?
    ensures Parse(into, Serialize(seg, initial).value, initial) == (NoError, WithCksum(seg, initial))
  {
    SerializedChecksOut(seg, initial);
    HeaderRoundTripIff(WithCksum(seg, initial).header, seg.payload);
  }
}
