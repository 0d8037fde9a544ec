/** Parsing and serializing as the source does it, field by field. */
module CodecImpl {
  import opened Words
  import opened Segments
  import N = NetParsing
  import T = TcpCodec
  import I = Ipv4Codec
  import opened NetParserImpl
  import opened ChecksumImpl

  method U8(p: NetParser) returns (v: byte)
    modifies p
    ensures v == N.U8(old(p.Model())) && p.Model() == N.AfterInt(old(p.Model()), 1)
  {
    N.Pow256Values();
    v := p.ParseInt(1);
  }

  method U16(p: NetParser) returns (v: u16)
    modifies p
    ensures v == N.U16(old(p.Model())) && p.Model() == N.AfterInt(old(p.Model()), 2)
  {
    N.Pow256Values();
    v := p.ParseInt(2);
  }

  method U32(p: NetParser) returns (v: u32)
    modifies p
    ensures v == N.U32(old(p.Model())) && p.Model() == N.AfterInt(old(p.Model()), 4)
  {
    N.Pow256Values();
    v := p.ParseInt(4);
  }

  /** `TCPHeader::parse`, the ports and numbers. */
  method ParseTcpNumbers(p: NetParser) returns (sport: u16, dport: u16, seqno: u32, ackno: u32)
    modifies p
    ensures var q := old(p.Model());
      && sport == N.U16(q) && dport == N.U16(T.After(q, 1)) && seqno == N.U32(T.After(q, 2))
      && ackno == N.U32(T.After(q, 3)) && p.Model() == T.After(q, 4)
  {
    ghost var q := p.Model();
    sport := U16(p);
    assert p.Model() == T.After(q, 1);
    dport := U16(p);
    assert p.Model() == T.After(q, 2);
    seqno := U32(p);
    assert p.Model() == T.After(q, 3);
    ackno := U32(p);
  }

  /** `TCPHeader::parse`, up to the check of the data offset. */
  method ParseTcpFields(p: NetParser) returns (h: TCPHeader)
    modifies p
    ensures h == T.Fields(old(p.Model())) && p.Model() == T.After(old(p.Model()), 9)
  {
    ghost var q := p.Model();
    var sport, dport, seqno, ackno := ParseTcpNumbers(p);
    var offset := U8(p);
    assert p.Model() == T.After(q, 5);
    var fl := U8(p);
    assert p.Model() == T.After(q, 6);
    var win := U16(p);
    assert p.Model() == T.After(q, 7);
    var cksum := U16(p);
    assert p.Model() == T.After(q, 8);
    var uptr := U16(p);
    assert p.Model() == T.After(q, 9);
    h := TCPHeader(sport, dport, seqno, ackno, offset / 16,
                   T.Flag(fl, 32), T.Flag(fl, 16), T.Flag(fl, 8), T.Flag(fl, 4), T.Flag(fl, 2), T.Flag(fl, 1),
                   win, cksum, uptr);
  }

  method ParseTcpHeader(p: NetParser) returns (h: TCPHeader, result: N.ParseResult)
    modifies p
    ensures T.ParseHeader(old(p.Model())) == T.Parsed(h, p.Model(), result)
  {
    h := ParseTcpFields(p);
    if h.doff < 5 {
      return h, N.HeaderTooShort;
    }
    p.RemovePrefix(h.doff * 4 - T.LENGTH);
    result := p.err;
  }

  /** `TCPHeader::serialize`; the exception for a short header is `None`. */
  method SerializeTcpHeader(h: TCPHeader) returns (r: Option<seq<byte>>)
    ensures r == T.SerializeHeader(h)
  {
    if h.doff < 5 {
      return None;
    }
    var s := UnparseInt([], h.sport, 2);
    s := UnparseInt(s, h.dport, 2);
    s := UnparseInt(s, h.seqno, 4);
    s := UnparseInt(s, h.ackno, 4);
    s := UnparseInt(s, h.doff * 16 % 256, 1);
    s := UnparseInt(s, T.Flags(h), 1);
    s := UnparseInt(s, h.win, 2);
    assert s == T.Front(h);
    s := UnparseInt(s, h.cksum, 2);
    s := UnparseInt(s, h.uptr, 2);
    r := Some(s + N.Zeros(4 * h.doff - |s|));
  }

  method ParseSegment(into: TCPSegment, buffer: seq<byte>, initial: u32)
    returns (result: N.ParseResult, seg: TCPSegment)
    ensures (result, seg) == T.Parse(into, buffer, initial)
  {
    var check := new InternetChecksum(initial);
    check.Add(buffer);
    var v := check.Value();
    if v != 0 {
      return N.BadChecksum, into;
    }
    var p := new NetParser(buffer);
    var h, _ := ParseTcpHeader(p);
    seg := TCPSegment(h, p.buffer);
    result := p.err;
  }

  method SerializeSegment(seg: TCPSegment, initial: u32) returns (r: Option<seq<byte>>)
    ensures r == T.Serialize(seg, initial)
  {
    var headerOut := seg.header.(cksum := 0);
    var zeroed := SerializeTcpHeader(headerOut);
    if zeroed.None? {
      return None;
    }
    var check := new InternetChecksum(initial);
    check.Add(zeroed.value);
    check.Add(seg.payload);
    var v := check.Value();
    headerOut := headerOut.(cksum := v);
    var bytes := SerializeTcpHeader(headerOut);
    assert headerOut == T.WithCksum(seg, initial).header;
    r := Some(bytes.value + seg.payload);
  }

  /** `IPv4Header::parse`, the fields. */
  method ParseIpFields(p: NetParser) returns (h: I.IPv4Header)
    modifies p
    ensures h == I.Fields(old(p.Model())) && p.Model() == I.After(old(p.Model()), 10)
  {
    ghost var q := p.Model();
    var first := U8(p);
    assert p.Model() == I.After(q, 1);
    var tos := U8(p);
    assert p.Model() == I.After(q, 2);
    var len := U16(p);
    assert p.Model() == I.After(q, 3);
    var id := U16(p);
    assert p.Model() == I.After(q, 4);
    var fo := U16(p);
    assert p.Model() == I.After(q, 5);
    var ttl := U8(p);
    assert p.Model() == I.After(q, 6);
    var proto := U8(p);
    assert p.Model() == I.After(q, 7);
    var cksum := U16(p);
    assert p.Model() == I.After(q, 8);
    var src := U32(p);
    assert p.Model() == I.After(q, 9);
    var dst := U32(p);
    assert p.Model() == I.After(q, 10);
    h := I.IPv4Header(first / 16, first % 16, tos, len, id, fo / 0x4000 % 2 == 1, fo / 0x2000 % 2 == 1,
                      fo % 0x2000, ttl, proto, cksum, src, dst);
  }

  method ParseIpHeader(into: I.IPv4Header, p: NetParser) returns (h: I.IPv4Header, result: N.ParseResult)
    modifies p
    ensures I.ParseHeader(into, old(p.Model())) == I.Parsed(h, p.Model(), result)
  {
    var original := p.buffer;
    if |original| < I.LENGTH {
      return into, N.PacketTooShort;
    }
    h := ParseIpFields(p);
    result := CheckIpHeader(h, p, original);
  }

  /** `IPv4Header::parse`, the checks. */
  method CheckIpHeader(h: I.IPv4Header, p: NetParser, original: seq<byte>) returns (result: N.ParseResult)
    modifies p
    ensures I.Conclude(h, old(p.Model()), original) == I.Parsed(h, p.Model(), result)
  {
    if |original| < 4 * h.hlen { return N.PacketTooShort; }
    if h.ver != 4 { return N.WrongIPVersion; }
    if h.hlen < 5 { return N.HeaderTooShort; }
    if |original| != h.len { return N.TruncatedPacket; }
    p.RemovePrefix(h.hlen * 4 - I.LENGTH);
    if p.err != N.NoError { return p.err; }
    var check := new InternetChecksum(0);
    check.Add(original[..4 * h.hlen]);
    var v := check.Value();
    result := if v != 0 then N.BadChecksum else N.NoError;
  }

  /** `IPv4Header::serialize`; its exceptions are `None`. */
  method SerializeIpHeader(h: I.IPv4Header) returns (r: Option<seq<byte>>)
    ensures r == if I.Serializable(h) then Some(I.HeaderBytes(h)) else None
  {
    if h.ver != 4 || 4 * h.hlen < I.LENGTH {
      return None;
    }
    var s := UnparseInt([], I.FirstByte(h), 1);
    s := UnparseInt(s, h.tos, 1);
    s := UnparseInt(s, h.len, 2);
    s := UnparseInt(s, h.id, 2);
    s := UnparseInt(s, I.FlagsAndOffset(h), 2);
    s := UnparseInt(s, h.ttl, 1);
    s := UnparseInt(s, h.proto, 1);
    assert s == I.Front(h);
    s := UnparseInt(s, h.cksum, 2);
    s := UnparseInt(s, h.src, 4);
    s := UnparseInt(s, h.dst, 4);
    r := Some(s + N.Zeros(4 * h.hlen - |s|));
  }

  method ParseDatagram(into: I.Datagram, buffer: seq<byte>) returns (result: N.ParseResult, d: I.Datagram)
    ensures (result, d) == I.Parse(into, buffer)
  {
    var p := new NetParser(buffer);
    var h, _ := ParseIpHeader(into.header, p);
    d := I.Datagram(h, p.buffer);
    if |d.payload| != I.PayloadLength(d.header) {
      return N.PacketTooShort, d;
    }
    result := p.err;
  }

  method SerializeDatagram(d: I.Datagram) returns (r: Option<seq<byte>>)
    ensures r == I.Serialize(d)
  {
    if |d.payload| != I.PayloadLength(d.header) {
      return None;
    }
    var headerOut := d.header.(cksum := 0);
    var zeroed := SerializeIpHeader(headerOut);
    if zeroed.None? {
      return None;
    }
    var check := new InternetChecksum(0);
    check.Add(zeroed.value);
    var v := check.Value();
    headerOut := headerOut.(cksum := v);
    var bytes := SerializeIpHeader(headerOut);
    assert headerOut == I.WithCksum(d).header;
    r := Some(bytes.value + d.payload);
  }
}
