/** IPv4 headers and datagrams on the wire (section 3.1 of RFC 791;
    libsponge/tcp_helpers/ipv4_header.cc, libsponge/tcp_helpers/ipv4_datagram.cc). */
module Ipv4Codec {
  import opened Words
  import opened NetParsing
  import K = Checksums

  const LENGTH: nat := 20

  datatype IPv4Header = IPv4Header(
    ver: byte, hlen: byte, tos: byte, len: u16, id: u16, df: bool, mf: bool, offset: u16,
    ttl: byte, proto: byte, cksum: u16, src: u32, dst: u32)

  datatype Datagram = Datagram(header: IPv4Header, payload: seq<byte>)


  function FirstByte(h: IPv4Header): byte { h.ver * 16 % 256 + h.hlen % 16 }

  /** The two fragmentation flags and the offset share a word. */
  function FlagsAndOffset(h: IPv4Header): u16 {
    0x4000 * Count(h.df) + 0x2000 * Count(h.mf) + h.offset % 0x2000
  }

  function Front(h: IPv4Header): seq<byte> {
    ToBytes(FirstByte(h), 1) + ToBytes(h.tos, 1) + ToBytes(h.len, 2) + ToBytes(h.id, 2)
    + ToBytes(FlagsAndOffset(h), 2) + ToBytes(h.ttl, 1) + ToBytes(h.proto, 1)
  }

  function HeaderBytes(h: IPv4Header): seq<byte>
    requires h.hlen >= 5
  {
    Front(h) + ToBytes(h.cksum, 2) + ToBytes(h.src, 4) + ToBytes(h.dst, 4) + Zeros(4 * h.hlen - LENGTH)
  }

  /** `serialize` throws on any other version and on a short header. */
  predicate Serializable(h: IPv4Header) { h.ver == 4 && 4 * h.hlen >= LENGTH }

  /** 16-bit arithmetic. */
  function PayloadLength(h: IPv4Header): u16 { (h.len - 4 * h.hlen) % TWO16 }

  function PseudoCksum(h: IPv4Header): u32 {
    h.src / TWO16 + h.src % TWO16 + h.dst / TWO16 + h.dst % TWO16 + h.proto + PayloadLength(h)
  }

  const WIDTHS: seq<nat> := [1, 1, 2, 2, 2, 1, 1, 2, 4, 4]

  function After(p: Parser, n: nat): Parser
    requires n <= 10
    decreases n
  {
    if n == 0 then p else AfterInt(After(p, n - 1), WIDTHS[n - 1])
  }

  function Fields(p: Parser): IPv4Header {
    var b, fo := U8(p), U16(After(p, 4));
    IPv4Header(b / 16, b % 16, U8(After(p, 1)), U16(After(p, 2)), U16(After(p, 3)),
               fo / 0x4000 % 2 == 1, fo / 0x2000 % 2 == 1, fo % 0x2000,
               U8(After(p, 5)), U8(After(p, 6)), U16(After(p, 7)), U32(After(p, 8)), U32(After(p, 9)))
  }

  datatype Parsed = Parsed(header: IPv4Header, parser: Parser, result: ParseResult)

  /** What `parse` concludes once the fields are read; `whole` is the buffer it started with. */
  function Conclude(h: IPv4Header, q: Parser, whole: seq<byte>): Parsed {
    if |whole| < 4 * h.hlen then Parsed(h, q, PacketTooShort)
    else if h.ver != 4 then Parsed(h, q, WrongIPVersion)
    else if h.hlen < 5 then Parsed(h, q, HeaderTooShort)
    else if |whole| != h.len then Parsed(h, q, TruncatedPacket)
    else
      var q' := RemovePrefix(q, h.hlen * 4 - LENGTH);
      if q'.error != NoError then Parsed(h, q', q'.error)
      else if K.Value(K.Add(K.New(0), whole[..4 * h.hlen])) != 0 then Parsed(h, q', BadChecksum)
      else Parsed(h, q', NoError)
  }

  /** `parse` on a header object that held `into`. */
  function ParseHeader(into: IPv4Header, p: Parser): Parsed {
    if |p.buffer| < LENGTH then Parsed(into, p, PacketTooShort)
    else Conclude(Fields(p), After(p, 10), p.buffer)
  }

  function CksumOf(h: IPv4Header): u16
    requires h.hlen >= 5
  {
    K.Value(K.Add(K.New(0), HeaderBytes(h.(cksum := 0))))
  }

  function WithCksum(d: Datagram): Datagram
    requires d.header.hlen >= 5
  {
    d.(header := d.header.(cksum := CksumOf(d.header)))
  }

  function Serialize(d: Datagram): Option<seq<byte>> {
    if |d.payload| != PayloadLength(d.header) || !Serializable(d.header) then None
    else Some(HeaderBytes(WithCksum(d).header) + d.payload)
  }

  /** `parse` on a datagram object that held `into`. The result of the header's own parse is not
      looked at. */
  function Parse(into: Datagram, buffer: seq<byte>): (ParseResult, Datagram) {
    var parsed := ParseHeader(into.header, Parser(buffer, NoError));
    var d := Datagram(parsed.header, parsed.parser.buffer);
    (if |d.payload| != PayloadLength(d.header) then PacketTooShort else parsed.parser.error, d)
  }

  // ---------------------------------------------------------------------------------------

  lemma FirstByteRoundTrip(h: IPv4Header)
    requires h.ver == 4
    ensures FirstByte(h) / 16 == 4 && FirstByte(h) % 16 == h.hlen % 16
  {
  }

  lemma FlagsRoundTrip(h: IPv4Header)
    ensures var fo := FlagsAndOffset(h);
      (fo / 0x4000 % 2 == 1) == h.df && (fo / 0x2000 % 2 == 1) == h.mf && fo % 0x2000 == h.offset % 0x2000
  {
  }

  lemma FirstWord(h: IPv4Header)
    requires h.ver == 4 && h.hlen <= 15
    ensures ToBytes(FirstByte(h), 1) + ToBytes(h.tos, 1) == K.Word(0x4000 + 0x100 * h.hlen + h.tos)
  {
    TwoBytes(FirstByte(h), h.tos);
  }

  lemma FlagsValue(h: IPv4Header)
    requires h.offset < 0x2000
    ensures FlagsAndOffset(h) == 0x4000 * Count(h.df) + 0x2000 * Count(h.mf) + h.offset
  {
  }

  lemma FlagsWord(h: IPv4Header, v: u16)
    requires v == FlagsAndOffset(h)
    ensures ToBytes(FlagsAndOffset(h), 2) == K.Word(v)
  {
    WordBytes(v);
  }

  /** Seven fields that make up five words. */
  lemma FiveWords(a: seq<byte>, b: seq<byte>, c: seq<byte>, d: seq<byte>, e: seq<byte>, f: seq<byte>, g: seq<byte>)
    ensures a + b + c + d + e + f + g == (a + b) + c + d + e + (f + g)
  {
  }

  lemma FrontLayout(h: IPv4Header)
    requires h.ver == 4 && h.hlen <= 15 && h.offset < 0x2000
    ensures Front(h)
         == K.Word(0x4000 + 0x100 * h.hlen + h.tos) + K.Word(h.len) + K.Word(h.id)
            + K.Word(0x4000 * Count(h.df) + 0x2000 * Count(h.mf) + h.offset) + K.Word(0x100 * h.ttl + h.proto)
  {
    FirstWord(h);
    WordBytes(h.len);
    WordBytes(h.id);
    FlagsValue(h);
    FlagsWord(h, 0x4000 * Count(h.df) + 0x2000 * Count(h.mf) + h.offset);
    TwoBytes(h.ttl, h.proto);
    FiveWords(ToBytes(FirstByte(h), 1), ToBytes(h.tos, 1), ToBytes(h.len, 2), ToBytes(h.id, 2),
              ToBytes(FlagsAndOffset(h), 2), ToBytes(h.ttl, 1), ToBytes(h.proto, 1));
  }

  /** The header as 16-bit words, the high byte of each first: the format of section 3.1 of RFC 791. */
  lemma HeaderLayout(h: IPv4Header)
    requires h.ver == 4 && 5 <= h.hlen <= 15 && h.offset < 0x2000
    ensures HeaderBytes(h)
         == K.Word(0x4000 + 0x100 * h.hlen + h.tos) + K.Word(h.len) + K.Word(h.id)
            + K.Word(0x4000 * Count(h.df) + 0x2000 * Count(h.mf) + h.offset) + K.Word(0x100 * h.ttl + h.proto)
            + K.Word(h.cksum) + K.Word(h.src / TWO16) + K.Word(h.src % TWO16) + K.Word(h.dst / TWO16)
            + K.Word(h.dst % TWO16) + Zeros(4 * h.hlen - 20)
  {
    FrontLayout(h);
    AddressLayout(h, Front(h));
  }

  lemma AddressLayout(h: IPv4Header, front: seq<byte>)
    requires h.hlen >= 5
    ensures front + ToBytes(h.cksum, 2) + ToBytes(h.src, 4) + ToBytes(h.dst, 4) + Zeros(4 * h.hlen - LENGTH)
         == front + K.Word(h.cksum) + K.Word(h.src / TWO16) + K.Word(h.src % TWO16) + K.Word(h.dst / TWO16)
            + K.Word(h.dst % TWO16) + Zeros(4 * h.hlen - 20)
  {
    WordBytes(h.cksum);
    TwoWordBytes(h.src);
    TwoWordBytes(h.dst);
  }

  lemma TwoBytes(a: byte, b: byte)
    ensures ToBytes(a, 1) + ToBytes(b, 1) == K.Word(0x100 * a + b)
  {
  }

  /** The header that the TCP checksum covers besides the segment (section 3.1 of RFC 793). */
  function PseudoHeader(h: IPv4Header): seq<byte> {
    K.Word(h.src / TWO16) + K.Word(h.src % TWO16) + K.Word(h.dst / TWO16) + K.Word(h.dst % TWO16)
    + [0, h.proto] + K.Word(PayloadLength(h))
  }

  lemma PseudoWeight(h: IPv4Header)
    ensures K.Weight(PseudoHeader(h), false) == PseudoCksum(h) && |PseudoHeader(h)| == 12
  {
    var w0 := K.Word(h.src / TWO16);
    var w1 := w0 + K.Word(h.src % TWO16);
    var w2 := w1 + K.Word(h.dst / TWO16);
    var w3 := w2 + K.Word(h.dst % TWO16);
    var w4 := w3 + K.Word(h.proto);
    K.WordWeight(h.src / TWO16);
    K.WeightPlusWord(w0, h.src % TWO16);
    K.WeightPlusWord(w1, h.dst / TWO16);
    K.WeightPlusWord(w2, h.dst % TWO16);
    K.WeightPlusWord(w3, h.proto);
    K.WeightPlusWord(w4, PayloadLength(h));
    assert K.Word(h.proto) == [0, h.proto];
  }

  lemma PseudoSum(h: IPv4Header)
    ensures K.Add(K.New(0), PseudoHeader(h)) == K.New(PseudoCksum(h))
  {
    PseudoWeight(h);
    K.AddIsWeight(K.New(0), PseudoHeader(h));
    K.AddParity(K.New(0), PseudoHeader(h));
  }

  /** The sum that a TCP checksum starts with stands for the pseudo header: adding a segment to it is adding both. */
  lemma PseudoCksumCounts(h: IPv4Header, segment: seq<byte>)
    ensures K.Add(K.New(PseudoCksum(h)), segment) == K.Add(K.New(0), PseudoHeader(h) + segment)
  {
    PseudoSum(h);
    K.AddConcat(K.New(0), PseudoHeader(h), segment);
  }

  lemma HeaderSplits(h: IPv4Header, rest: seq<byte>)
    requires h.hlen >= 5
    ensures HeaderBytes(h) + rest
         == ToBytes(FirstByte(h), 1) + (ToBytes(h.tos, 1) + (ToBytes(h.len, 2) + (ToBytes(h.id, 2)
            + (ToBytes(FlagsAndOffset(h), 2) + (ToBytes(h.ttl, 1) + (ToBytes(h.proto, 1) + (ToBytes(h.cksum, 2)
            + (ToBytes(h.src, 4) + (ToBytes(h.dst, 4) + (Zeros(4 * h.hlen - LENGTH) + rest))))))))))
  {
  }

  lemma StepU8(p: Parser, n: nat, v: byte, rest: seq<byte>)
    requires n < 10 && WIDTHS[n] == 1 && After(p, n) == Parser(ToBytes(v, 1) + rest, NoError)
    ensures U8(After(p, n)) == v && After(p, n + 1) == Parser(rest, NoError)
  {
  }

  lemma StepU16(p: Parser, n: nat, v: u16, rest: seq<byte>)
    requires n < 10 && WIDTHS[n] == 2 && After(p, n) == Parser(ToBytes(v, 2) + rest, NoError)
    ensures U16(After(p, n)) == v && After(p, n + 1) == Parser(rest, NoError)
  {
    ParsesU16(v, rest);
  }

  lemma StepU32(p: Parser, n: nat, v: u32, rest: seq<byte>)
    requires n < 10 && WIDTHS[n] == 4 && After(p, n) == Parser(ToBytes(v, 4) + rest, NoError)
    ensures U32(After(p, n)) == v && After(p, n + 1) == Parser(rest, NoError)
  {
    ParsesU32(v, rest);
  }

  lemma ParsesFirst(p: Parser, h: IPv4Header, rest: seq<byte>)
    requires p == Parser(ToBytes(FirstByte(h), 1) + (ToBytes(h.tos, 1) + rest), NoError)
    ensures U8(p) == FirstByte(h) && U8(After(p, 1)) == h.tos && After(p, 2) == Parser(rest, NoError)
  {
    StepU8(p, 0, FirstByte(h), ToBytes(h.tos, 1) + rest);
    StepU8(p, 1, h.tos, rest);
  }

  lemma ParsesMiddle(p: Parser, h: IPv4Header, rest: seq<byte>)
    requires After(p, 2)
          == Parser(ToBytes(h.len, 2) + (ToBytes(h.id, 2) + (ToBytes(FlagsAndOffset(h), 2) + rest)), NoError)
    ensures U16(After(p, 2)) == h.len && U16(After(p, 3)) == h.id && U16(After(p, 4)) == FlagsAndOffset(h)
    ensures After(p, 5) == Parser(rest, NoError)
  {
    var r4 := ToBytes(FlagsAndOffset(h), 2) + rest;
    StepU16(p, 2, h.len, ToBytes(h.id, 2) + r4);
    StepU16(p, 3, h.id, r4);
    StepU16(p, 4, FlagsAndOffset(h), rest);
  }

  lemma ParsesFront(p: Parser, h: IPv4Header, rest: seq<byte>)
    requires p == Parser(ToBytes(FirstByte(h), 1) + (ToBytes(h.tos, 1) + (ToBytes(h.len, 2) + (ToBytes(h.id, 2)
                         + (ToBytes(FlagsAndOffset(h), 2) + rest)))), NoError)
    ensures U8(p) == FirstByte(h) && U8(After(p, 1)) == h.tos && U16(After(p, 2)) == h.len
    ensures U16(After(p, 3)) == h.id && U16(After(p, 4)) == FlagsAndOffset(h) && After(p, 5) == Parser(rest, NoError)
  {
    ParsesFirst(p, h, ToBytes(h.len, 2) + (ToBytes(h.id, 2) + (ToBytes(FlagsAndOffset(h), 2) + rest)));
    ParsesMiddle(p, h, rest);
  }

  lemma ParsesBack(p: Parser, h: IPv4Header, rest: seq<byte>)
    requires After(p, 5) == Parser(ToBytes(h.ttl, 1) + (ToBytes(h.proto, 1) + (ToBytes(h.cksum, 2)
                                   + (ToBytes(h.src, 4) + (ToBytes(h.dst, 4) + rest)))), NoError)
    ensures U8(After(p, 5)) == h.ttl && U8(After(p, 6)) == h.proto && U16(After(p, 7)) == h.cksum
    ensures U32(After(p, 8)) == h.src && U32(After(p, 9)) == h.dst && After(p, 10) == Parser(rest, NoError)
  {
    var r9 := ToBytes(h.dst, 4) + rest;
    var r8 := ToBytes(h.src, 4) + r9;
    var r7 := ToBytes(h.cksum, 2) + r8;
    StepU8(p, 5, h.ttl, ToBytes(h.proto, 1) + r7);
    StepU8(p, 6, h.proto, r7);
    StepU16(p, 7, h.cksum, r8);
    StepU32(p, 8, h.src, r9);
    StepU32(p, 9, h.dst, rest);
  }

  lemma FieldsFrom(p: Parser, h: IPv4Header)
    requires h.ver == 4
    requires U8(p) == FirstByte(h) && U8(After(p, 1)) == h.tos && U16(After(p, 2)) == h.len
    requires U16(After(p, 3)) == h.id && U16(After(p, 4)) == FlagsAndOffset(h)
    requires U8(After(p, 5)) == h.ttl && U8(After(p, 6)) == h.proto && U16(After(p, 7)) == h.cksum
    requires U32(After(p, 8)) == h.src && U32(After(p, 9)) == h.dst
    ensures Fields(p) == h.(hlen := h.hlen % 16, offset := h.offset % 0x2000)
  {
    FirstByteRoundTrip(h);
    FlagsRoundTrip(h);
  }

  /** The fields come back, except that header length and offset keep only the bits they have. */
  lemma FieldsRoundTrip(h: IPv4Header, rest: seq<byte>)
    requires Serializable(h)
    ensures var p := Parser(HeaderBytes(h) + rest, NoError);
      && Fields(p) == h.(hlen := h.hlen % 16, offset := h.offset % 0x2000)
      && After(p, 10) == Parser(Zeros(4 * h.hlen - LENGTH) + rest, NoError)
  {
    HeaderSplits(h, rest);
    var p := Parser(HeaderBytes(h) + rest, NoError);
    var r10 := Zeros(4 * h.hlen - LENGTH) + rest;
    var r7 := ToBytes(h.cksum, 2) + (ToBytes(h.src, 4) + (ToBytes(h.dst, 4) + r10));
    var r5 := ToBytes(h.ttl, 1) + (ToBytes(h.proto, 1) + r7);
    ParsesFront(p, h, r5);
    ParsesBack(p, h, r10);
    FieldsFrom(p, h);
  }

  predicate FitsFields(h: IPv4Header) { h.hlen <= 15 && h.offset < 0x2000 }

  lemma FieldsWholeIff(h: IPv4Header)
    ensures h.(hlen := h.hlen % 16, offset := h.offset % 0x2000) == h <==> FitsFields(h)
  {
  }

  lemma ConcludeKeepsHeader(h: IPv4Header, q: Parser, whole: seq<byte>)
    ensures Conclude(h, q, whole).header == h
  {
  }

  lemma ParsedFields(into: IPv4Header, p: Parser)
    requires |p.buffer| >= LENGTH
    ensures ParseHeader(into, p).header == Fields(p)
  {
    ConcludeKeepsHeader(Fields(p), After(p, 10), p.buffer);
  }

  /** A header comes back whole exactly when its length and its offset fit the bits they have. */
  lemma HeaderFieldsIff(h: IPv4Header, rest: seq<byte>, into: IPv4Header)
    requires Serializable(h)
    ensures ParseHeader(into, Parser(HeaderBytes(h) + rest, NoError)).header == h <==> FitsFields(h)
  {
    FieldsRoundTrip(h, rest);
    FieldsWholeIff(h);
    CksumField(h, h.cksum);
    ParsedFields(into, Parser(HeaderBytes(h) + rest, NoError));
  }

  lemma HeaderLengths(h: IPv4Header)
    requires h.hlen >= 5
    ensures |Front(h)| == 10 && |HeaderBytes(h)| == 4 * h.hlen
  {
  }

  lemma Regroup(a: seq<byte>, b: seq<byte>, c: seq<byte>, d: seq<byte>, e: seq<byte>)
    ensures a + b + c + d + e == a + b + (c + d + e)
  {
  }

  /** Everything in front of the checksum field depends on the other fields only. */
  lemma FrontIgnoresCksum(h: IPv4Header, v: u16)
    ensures Front(h.(cksum := v)) == Front(h)
  {
  }

  lemma CksumField(h: IPv4Header, v: u16)
    requires h.hlen >= 5
    ensures |Front(h)| % 2 == 0 && |HeaderBytes(h)| == 4 * h.hlen
    ensures HeaderBytes(h.(cksum := v))
         == Front(h) + K.Word(v) + (ToBytes(h.src, 4) + ToBytes(h.dst, 4) + Zeros(4 * h.hlen - LENGTH))
  {
    HeaderLengths(h);
    WordBytes(v);
    FrontIgnoresCksum(h, v);
    Regroup(Front(h), K.Word(v), ToBytes(h.src, 4), ToBytes(h.dst, 4), Zeros(4 * h.hlen - LENGTH));
  }

  /** A header with its checksum filled in checks out. */
  lemma FilledHeaderChecksOut(h: IPv4Header)
    requires h.hlen >= 5
    ensures K.Value(K.Add(K.New(0), HeaderBytes(h.(cksum := CksumOf(h))))) == 0
  {
    var post := ToBytes(h.src, 4) + ToBytes(h.dst, 4) + Zeros(4 * h.hlen - LENGTH);
    CksumField(h, 0);
    CksumField(h, CksumOf(h));
    K.FilledChecksOut(0, Front(h), post);
  }

  lemma ConcludesWell(h: IPv4Header, payload: seq<byte>)
    requires Serializable(h) && FitsFields(h) && h.len == 4 * h.hlen + |payload| && h.cksum == CksumOf(h)
    ensures Conclude(h, Parser(Zeros(4 * h.hlen - LENGTH) + payload, NoError), HeaderBytes(h) + payload)
         == Parsed(h, Parser(payload, NoError), NoError)
  {
    CksumField(h, h.cksum);
    SkipsZeros(4 * h.hlen - LENGTH, payload);
    FilledHeaderChecksOut(h);
    assert h.(cksum := CksumOf(h)) == h;
    assert (HeaderBytes(h) + payload)[..4 * h.hlen] == HeaderBytes(h);
  }

  /** A header in front of a payload of matching length is accepted by its own parser. */
  lemma HeaderRoundTrip(h: IPv4Header, payload: seq<byte>, into: IPv4Header)
    requires Serializable(h) && FitsFields(h) && h.len == 4 * h.hlen + |payload| && h.cksum == CksumOf(h)
    ensures ParseHeader(into, Parser(HeaderBytes(h) + payload, NoError)) == Parsed(h, Parser(payload, NoError), NoError)
  {
    FieldsRoundTrip(h, payload);
    FieldsWholeIff(h);
    CksumField(h, h.cksum);
    ConcludesWell(h, payload);
  }

  lemma ParsesTo(into: Datagram, buffer: seq<byte>, d: Datagram)
    requires ParseHeader(into.header, Parser(buffer, NoError)) == Parsed(d.header, Parser(d.payload, NoError), NoError)
    requires |d.payload| == PayloadLength(d.header)
    ensures Parse(into, buffer) == (NoError, d)
  {
  }

  lemma PayloadLengthIs(h: IPv4Header, n: nat)
    requires h.len == 4 * h.hlen + n
    ensures PayloadLength(h) == n
  {
  }

  /** A header with a correct checksum, and its payload. */
  lemma DatagramParses(h: IPv4Header, payload: seq<byte>, into: Datagram)
    requires Serializable(h) && FitsFields(h) && h.len == 4 * h.hlen + |payload| && h.cksum == CksumOf(h)
    ensures Parse(into, HeaderBytes(h) + payload) == (NoError, Datagram(h, payload))
  {
    HeaderRoundTrip(h, payload, into.header);
    PayloadLengthIs(h, |payload|);
    ParsesTo(into, HeaderBytes(h) + payload, Datagram(h, payload));
  }

  lemma SerializesTo(d: Datagram)
    requires Serializable(d.header) && d.header.len == 4 * d.header.hlen + |d.payload|
    ensures Serialize(d) == Some(HeaderBytes(WithCksum(d).header) + d.payload)
  {
    PayloadLengthIs(d.header, |d.payload|);
  }

  lemma CksumIgnoresItself(h: IPv4Header, v: u16)
    requires h.hlen >= 5
    ensures CksumOf(h.(cksum := v)) == CksumOf(h)
  {
  }

  /** Serialize, then parse: the same datagram, with its checksum filled in. */
  lemma DatagramRoundTrip(d: Datagram, into: Datagram)
    requires Serializable(d.header) && FitsFields(d.header) && d.header.len == 4 * d.header.hlen + |d.payload|
    ensures Serialize(d).Some?
    ensures Parse(into, Serialize(d).value) == (NoError, WithCksum(d))
  {
    SerializesTo(d);
    CksumIgnoresItself(d.header, CksumOf(d.header));
    DatagramParses(WithCksum(d).header, d.payload, into);
  }

  // Lengths that wrapped around

  /** The length field is 65536 too small for the datagram. */
  predicate WrappedLength(d: Datagram) { d.header.len + TWO16 == 4 * d.header.hlen + |d.payload| }

  lemma WrappedLengths(len: nat, header: nat, payload: nat)
    requires len < TWO16 && header < TWO16 && (len - header) % TWO16 == payload
    ensures payload < TWO16 && (len == header + payload || len + TWO16 == header + payload)
  {
  }

  /** `serialize` accepts a length that matches, or one that would match modulo 65536. */
  lemma SerializedLengths(d: Datagram)
    requires Serialize(d).Some?
    ensures |d.payload| < TWO16 && (d.header.len == 4 * d.header.hlen + |d.payload| || WrappedLength(d))
  {
    WrappedLengths(d.header.len, 4 * d.header.hlen, |d.payload|);
  }

  /** The parser stops at a length that is wrong and leaves the options in front of the payload. */
  lemma WrappedConcludes(h: IPv4Header, payload: seq<byte>)
    requires Serializable(h) && FitsFields(h) && h.len != 4 * h.hlen + |payload|
    ensures var q := Parser(Zeros(4 * h.hlen - LENGTH) + payload, NoError);
            Conclude(h, q, HeaderBytes(h) + payload) == Parsed(h, q, TruncatedPacket)
  {
    HeaderLengths(h);
  }

  lemma WrappedHeader(h: IPv4Header, payload: seq<byte>, into: IPv4Header)
    requires Serializable(h) && FitsFields(h) && h.len != 4 * h.hlen + |payload|
    ensures ParseHeader(into, Parser(HeaderBytes(h) + payload, NoError))
         == Parsed(h, Parser(Zeros(4 * h.hlen - LENGTH) + payload, NoError), TruncatedPacket)
  {
    FieldsRoundTrip(h, payload);
    FieldsWholeIff(h);
    HeaderLengths(h);
    WrappedConcludes(h, payload);
  }

  lemma WrappedPayloadLength(h: IPv4Header, n: nat)
    requires h.len + TWO16 == 4 * h.hlen + n && n < TWO16
    ensures PayloadLength(h) == n
  {
  }

  lemma NoZeros(n: nat, payload: seq<byte>)
    ensures Zeros(n) + payload == payload <==> n == 0
    ensures |Zeros(n) + payload| == n + |payload|
  {
  }

  lemma WrappedParses(h: IPv4Header, payload: seq<byte>, into: Datagram)
    requires Serializable(h) && FitsFields(h) && h.len + TWO16 == 4 * h.hlen + |payload| && |payload| < TWO16
    ensures Parse(into, HeaderBytes(h) + payload) == (NoError, Datagram(h, payload)) <==> h.hlen == 5
  {
    WrappedHeader(h, payload, into.header);
    WrappedPayloadLength(h, |payload|);
    NoZeros(4 * h.hlen - LENGTH, payload);
  }

  lemma UnfitParses(h: IPv4Header, payload: seq<byte>, into: Datagram)
    requires Serializable(h) && !FitsFields(h)
    ensures Parse(into, HeaderBytes(h) + payload).1.header != h
  {
    HeaderFieldsIff(h, payload, into.header);
  }

  /** Whatever `serialize` accepts comes back as it was, with its checksum filled in, exactly when the
      fields fit their bits and the length matches, or it wrapped around and there are no options. */
  lemma DatagramRoundTripIff(d: Datagram, into: Datagram)
    requires Serialize(d).Some?
    ensures Parse(into, Serialize(d).value) == (NoError, WithCksum(d))
       <==> FitsFields(d.header) && (d.header.len == 4 * d.header.hlen + |d.payload| || d.header.hlen == 5)
  {
    var h := WithCksum(d).header;
    SerializedLengths(d);
    if !FitsFields(d.header) {
      UnfitParses(h, d.payload, into);
    } else if WrappedLength(d) {
      WrappedParses(h, d.payload, into);
    } else {
      DatagramRoundTrip(d, into);
    }
  }

  // What is accepted

  /** Where field `n` starts. */
  function Offset(n: nat): nat
    requires n <= 10
  {
    if n == 0 then 0 else Offset(n - 1) + WIDTHS[n - 1]
  }

  lemma Offsets()
    ensures Offset(2) == 2 && Offset(10) == 20
  {
    assert Offset(5) == 8;
    assert Offset(8) == 12;
  }

  lemma {:induction false} AfterIs(b: seq<byte>, n: nat)
    requires n <= 10 && Offset(n) <= |b|
    ensures After(Parser(b, NoError), n) == Parser(b[Offset(n)..], NoError)
  {
    if n == 0 {
      assert b[0..] == b;
    } else {
      AfterIs(b, n - 1);
      MovesOn(b, Offset(n - 1), WIDTHS[n - 1]);
    }
  }

  lemma FirstFields(b: seq<byte>)
    requires |b| >= 20
    ensures var h := Fields(Parser(b, NoError));
            h.ver == b[0] / 16 && h.hlen == b[0] % 16 && h.len == WordAt(b, 2)
  {
    Offsets();
    AfterIs(b, 2);
    assert b[0..] == b;
    ReadsByte(b, 0);
    ReadsWord(b, 2);
  }

  /** What the first four tests of the header's own parser look at. */
  predicate WellFormed(b: seq<byte>) {
    |b| >= 20 && b[0] / 16 == 4 && 20 <= 4 * (b[0] % 16) <= |b| && WordAt(b, 2) == |b|
  }

  /** For every buffer the verdict on a header: the first of five tests that fails. */
  lemma HeaderVerdict(into: IPv4Header, b: seq<byte>)
    ensures ParseHeader(into, Parser(b, NoError)).result
         == if |b| < 20 || |b| < 4 * (b[0] % 16) then PacketTooShort
            else if b[0] / 16 != 4 then WrongIPVersion
            else if b[0] % 16 < 5 then HeaderTooShort
            else if WordAt(b, 2) != |b| then TruncatedPacket
            else if !K.SumsUp(0, b[..4 * (b[0] % 16)]) then BadChecksum
            else NoError
  {
    if |b| >= 20 {
      FirstFields(b);
      Offsets();
      AfterIs(b, 10);
      if WellFormed(b) { K.ChecksIff(0, b[..4 * (b[0] % 16)]); }
    }
  }

  /** What the header's parser leaves of the buffer: the payload of a well-formed header, or all but 20 bytes. */
  lemma HeaderLeaves(into: IPv4Header, b: seq<byte>)
    requires |b| >= 20
    ensures var parsed := ParseHeader(into, Parser(b, NoError));
      && parsed.header == Fields(Parser(b, NoError))
      && parsed.parser == Parser(b[if WellFormed(b) then 4 * (b[0] % 16) else 20..], NoError)
  {
    FirstFields(b);
    Offsets();
    AfterIs(b, 10);
    if WellFormed(b) { MovesOn(b, 20, 4 * (b[0] % 16) - 20); }
  }

  /** The length that the header leaves to the payload, in 16 bits. */
  function LengthLeft(b: seq<byte>): nat
    requires |b| >= 20
  {
    (WordAt(b, 2) - 4 * (b[0] % 16)) % TWO16
  }

  lemma LengthOfPayload(b: seq<byte>)
    requires |b| >= 20
    ensures PayloadLength(Fields(Parser(b, NoError))) == LengthLeft(b)
  {
    FirstFields(b);
  }

  lemma WellFormedLeaves(b: seq<byte>)
    requires WellFormed(b)
    ensures LengthLeft(b) == |b| - 4 * (b[0] % 16)
  {
  }

  /** Of a datagram with room for a header only the length matters: it is read without error if and only if its
      header is well-formed, or the length that the header leaves to the payload happens to be all but 20 bytes.
      The header's checksum does not matter. */
  lemma DatagramAcceptedIff(into: Datagram, b: seq<byte>)
    requires |b| >= 20
    ensures Parse(into, b).0 == NoError <==> WellFormed(b) || LengthLeft(b) == |b| - 20
  {
    LengthOfPayload(b);
    HeaderLeaves(into.header, b);
    if WellFormed(b) { WellFormedLeaves(b); }
  }
}
