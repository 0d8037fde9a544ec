/** TCP segments inside IPv4 datagrams (libsponge/tcp_helpers/tcp_over_ip.cc), and why it does not
    matter to a connection that its segments travel as bytes. */
module TcpOverIp {
  import opened Words
  import opened Segments
  import opened NetParsing
  import T = TcpCodec
  import I = Ipv4Codec
  import K = Checksums
  import C = Connections
  import R = Receiving
  import N = Network
  import opened Channels

  const PROTO_TCP: byte := 6

  const DEFAULT_IP: I.IPv4Header := I.IPv4Header(4, 5, 0, 0, 0, true, false, 0, 128, PROTO_TCP, 0, 0, 0)

  /** One side's idea of the two addresses. */
  datatype Adapter = Adapter(source: u32, sport: u16, destination: u32, dport: u16, listening: bool)

  function WithPorts(a: Adapter, seg: TCPSegment): TCPSegment {
    seg.(header := seg.header.(sport := a.sport, dport := a.dport))
  }

  function IpHeader(a: Adapter, seg: TCPSegment): I.IPv4Header {
    DEFAULT_IP.(src := a.source, dst := a.destination,
                len := (DEFAULT_IP.hlen * 4 + seg.header.doff * 4 + |seg.payload|) % TWO16)
  }

  /** `wrap_tcp_in_ip`; nothing comes out if the segment cannot be serialized. */
  function Wrap(a: Adapter, seg: TCPSegment): Option<I.Datagram> {
    var h := IpHeader(a, seg);
    match T.Serialize(WithPorts(a, seg), I.PseudoCksum(h))
    case None => None
    case Some(bytes) => Some(I.Datagram(h, bytes))
  }

  const NO_SEGMENT: TCPSegment := TCPSegment(DEFAULT_HEADER, [])

  /** `unwrap_tcp_in_ip`: the segment, if it is for us, and the adapter afterwards. */
  function Unwrap(a: Adapter, d: I.Datagram): (Option<TCPSegment>, Adapter) {
    if !a.listening && d.header.dst != a.source then (None, a)
    else if !a.listening && d.header.src != a.destination then (None, a)
    else if d.header.proto != PROTO_TCP then (None, a)
    else
      var (result, seg) := T.Parse(NO_SEGMENT, d.payload, I.PseudoCksum(d.header));
      if result != NoError then (None, a)
      else if seg.header.dport != a.sport then (None, a)
      else if a.listening && !(seg.header.syn && !seg.header.rst) then (None, a)
      else
        var a' := if a.listening
                  then a.(source := d.header.dst, destination := d.header.src, dport := seg.header.sport,
                          listening := false)
                  else a;
        if seg.header.sport != a'.dport then (None, a') else (Some(seg), a')
  }

  /** The other side of the same connection. */
  function Mirror(a: Adapter): Adapter {
    Adapter(a.destination, a.dport, a.source, a.sport, false)
  }

  /** What arrives at the other side. */
  function Arrives(a: Adapter, seg: TCPSegment): TCPSegment
    requires seg.header.doff >= 5
  {
    T.WithCksum(WithPorts(a, seg), I.PseudoCksum(IpHeader(a, seg)))
  }

  /** What fits a datagram. */
  predicate Fits(seg: TCPSegment) {
    5 <= seg.header.doff <= 15 && 20 + 4 * seg.header.doff + |seg.payload| <= 0xffff
  }

  lemma SegmentInside(a: Adapter, seg: TCPSegment)
    requires Fits(seg)
    ensures var initial := I.PseudoCksum(IpHeader(a, seg));
      && Wrap(a, seg).Some?
      && T.Parse(NO_SEGMENT, Wrap(a, seg).value.payload, initial) == (NoError, Arrives(a, seg))
  {
    var initial := I.PseudoCksum(IpHeader(a, seg));
    T.SegmentRoundTrip(WithPorts(a, seg), initial, NO_SEGMENT);
  }

  lemma DatagramLength(a: Adapter, seg: TCPSegment)
    requires Fits(seg) && Wrap(a, seg).Some?
    ensures var d := Wrap(a, seg).value;
            d.header.len == 4 * d.header.hlen + |d.payload|
  {
    T.CksumField(Arrives(a, seg).header, Arrives(a, seg).header.cksum, []);
  }

  /** The bytes that leave one side. */
  function OnTheWire(a: Adapter, seg: TCPSegment): Option<seq<byte>> {
    match Wrap(a, seg)
    case None => None
    case Some(d) => I.Serialize(d)
  }

  /** An IPv4 header without options: version 4, time to live 128, protocol 6, not to be fragmented. */
  function IpWords(size: u16, sum: u16, src: u32, dst: u32): seq<byte> {
    K.Word(0x4500) + K.Word(size) + K.Word(0) + K.Word(0x4000) + K.Word(0x8006) + K.Word(sum)
    + K.Word(src / TWO16) + K.Word(src % TWO16) + K.Word(dst / TWO16) + K.Word(dst % TWO16)
  }

  lemma NothingMore(a: seq<byte>)
    ensures a + Zeros(0) == a
  {
  }

  lemma IpBytes(h: I.IPv4Header)
    requires h == DEFAULT_IP.(src := h.src, dst := h.dst, len := h.len, cksum := h.cksum)
    ensures I.HeaderBytes(h) == IpWords(h.len, h.cksum, h.src, h.dst)
  {
    assert 0x4000 + 0x100 * h.hlen + h.tos == 0x4500 && h.id == 0 && 0x100 * h.ttl + h.proto == 0x8006;
    assert 0x4000 * Count(h.df) + 0x2000 * Count(h.mf) + h.offset == 0x4000 && 4 * h.hlen - 20 == 0;
    NothingMore(IpWords(h.len, h.cksum, h.src, h.dst));
    I.HeaderLayout(h);
  }

  /** The bytes of a segment on the wire: such a header with the two addresses and the total length, then the segment
      with the ports of both sides and its checksum. */
  lemma WireLayout(a: Adapter, seg: TCPSegment)
    requires Fits(seg)
    ensures Wrap(a, seg).Some?
    ensures var t, sum := Arrives(a, seg), I.CksumOf(Wrap(a, seg).value.header);
      && t.header.sport == a.sport && t.header.dport == a.dport
      && OnTheWire(a, seg)
         == Some(IpWords(20 + 4 * seg.header.doff + |seg.payload|, sum, a.source, a.destination)
                 + (T.HeaderBytes(t.header) + seg.payload))
  {
    WrapHolds(a, seg);
    SerializesTo(Wrap(a, seg).value);
  }

  lemma WrapHolds(a: Adapter, seg: TCPSegment)
    requires Fits(seg)
    ensures Wrap(a, seg).Some?
    ensures var d := Wrap(a, seg).value;
      && d.header == DEFAULT_IP.(src := a.source, dst := a.destination,
                                 len := 20 + 4 * seg.header.doff + |seg.payload|)
      && d.payload == T.HeaderBytes(Arrives(a, seg).header) + seg.payload && d.header.len == 20 + |d.payload|
  {
    SegmentInside(a, seg);
    DatagramLength(a, seg);
  }

  lemma SerializesTo(d: I.Datagram)
    requires d.header == DEFAULT_IP.(src := d.header.src, dst := d.header.dst, len := d.header.len)
    requires d.header.len == 20 + |d.payload|
    ensures var h := d.header;
            I.Serialize(d) == Some(IpWords(h.len, I.CksumOf(h), h.src, h.dst) + d.payload)
  {
    var h := d.header.(cksum := I.CksumOf(d.header));
    assert I.Serialize(d) == Some(I.HeaderBytes(h) + d.payload) by { assert I.PayloadLength(d.header) == |d.payload|; }
    IpBytes(h);
  }

  lemma DatagramSurvives(a: Adapter, seg: TCPSegment, into: I.Datagram)
    requires Fits(seg)
    ensures Wrap(a, seg).Some? && OnTheWire(a, seg).Some?
    ensures I.Parse(into, OnTheWire(a, seg).value) == (NoError, I.WithCksum(Wrap(a, seg).value))
  {
    SegmentInside(a, seg);
    DatagramLength(a, seg);
    I.DatagramRoundTrip(Wrap(a, seg).value, into);
  }

  /** When an adapter accepts a datagram: connected and addressed to it, or listening and offered a SYN. */
  lemma Accepts(b: Adapter, d: I.Datagram, seg: TCPSegment)
    requires T.Parse(NO_SEGMENT, d.payload, I.PseudoCksum(d.header)) == (NoError, seg)
    requires d.header.proto == PROTO_TCP && seg.header.dport == b.sport
    requires if b.listening then seg.header.syn && !seg.header.rst
             else d.header.dst == b.source && d.header.src == b.destination && seg.header.sport == b.dport
    ensures Unwrap(b, d) == (Some(seg), Adapter(d.header.dst, b.sport, d.header.src, seg.header.sport, false))
  {
  }

  /** An adapter takes a segment out of a datagram if and only if the datagram is from its peer for it, or it
      listens and is offered a SYN; it says TCP; its checksum is right; and the ports are those of the connection.
      Only an adapter that listens changes, and then to the connection it was offered. */
  lemma UnwrapIff(b: Adapter, d: I.Datagram)
    ensures var (got, b') := Unwrap(b, d);
            var (result, seg) := T.Parse(NO_SEGMENT, d.payload, I.PseudoCksum(d.header));
            var h := seg.header;
      && (got.Some? <==>
            && d.header.proto == 6 && result == NoError && h.dport == b.sport
            && (if b.listening then h.syn && !h.rst
                else d.header.dst == b.source && d.header.src == b.destination && h.sport == b.dport))
      && (got.Some? ==> got.value == seg)
      && b' == if b.listening && got.Some? then Adapter(d.header.dst, b.sport, d.header.src, h.sport, false) else b
  {
  }

  lemma PseudoIgnoresCksum(h: I.IPv4Header, v: u16)
    ensures I.PseudoCksum(h.(cksum := v)) == I.PseudoCksum(h)
  {
  }

  /** Through the wire and out at the other side, into the mirrored adapter or into one that listens
      on the right port and is offered a SYN; either way that adapter is then the mirror. */
  lemma SegmentSurvives(a: Adapter, b: Adapter, seg: TCPSegment, into: I.Datagram)
    requires Fits(seg)
    requires b == Mirror(a) || (b.listening && b.sport == a.dport && seg.header.syn && !seg.header.rst)
    ensures OnTheWire(a, seg).Some?
    ensures var (result, d) := I.Parse(into, OnTheWire(a, seg).value);
            result == NoError && Unwrap(b, d) == (Some(Arrives(a, seg)), Mirror(a))
  {
    DatagramSurvives(a, seg, into);
    SegmentInside(a, seg);
    var d := I.WithCksum(Wrap(a, seg).value);
    PseudoIgnoresCksum(IpHeader(a, seg), d.header.cksum);
    Accepts(b, d, Arrives(a, seg));
  }

  /** The same segment but for ports and checksum. */
  predicate SameButPorts(seg: TCPSegment, seg': TCPSegment) {
    var h := seg'.header;
    seg' == seg.(header := seg.header.(sport := h.sport, dport := h.dport, cksum := h.cksum))
  }

  lemma ReceiverIgnoresPorts(r: R.Receiver, seg: TCPSegment, seg': TCPSegment)
    requires SameButPorts(seg, seg')
    ensures R.SegmentReceived(r, seg') == R.SegmentReceived(r, seg)
  {
  }

  lemma HalvesIgnorePorts(c: C.Conn, seg: TCPSegment, seg': TCPSegment)
    requires SameButPorts(seg, seg')
    ensures C.HandToReceiver(c, seg') == C.HandToReceiver(c, seg)
    ensures C.HandToSender(c, seg') == C.HandToSender(c, seg)
    ensures C.Answer(c, seg') == C.Answer(c, seg)
  {
    ReceiverIgnoresPorts(c.receiver, seg, seg');
  }

  /** A connection does not look at ports and checksums. */
  lemma ConnectionIgnoresPorts(c: C.Conn, seg: TCPSegment, seg': TCPSegment)
    requires SameButPorts(seg, seg')
    ensures C.SegmentReceived(c, seg') == C.SegmentReceived(c, seg)
  {
    var c1 := C.HandToReceiver(c, seg);
    HalvesIgnorePorts(c, seg, seg');
    HalvesIgnorePorts(c1, seg, seg');
    HalvesIgnorePorts(C.NoteLinger(C.HandToSender(c1, seg)), seg, seg');
  }

  /** Every segment that a connection ever sends reaches the peer as if it had not been turned into
      bytes at all. */
  lemma BytesDoNotMatter(w: N.World, p: Packet, a: Adapter, into: I.Datagram, c: C.Conn)
    requires N.Reachable(w) && p in w.a.c.sent
    ensures OnTheWire(a, p.wire).Some?
    ensures var (result, d) := I.Parse(into, OnTheWire(a, p.wire).value);
            var (seg, _) := Unwrap(Mirror(a), d);
            result == NoError && seg.Some? && C.SegmentReceived(c, seg.value) == C.SegmentReceived(c, p.wire)
  {
    N.ReachableInv(w);
    assert DataOk(p, w.a.c.sender, w.b.c.receiver);
    SegmentSurvives(a, Mirror(a), p.wire, into);
    ConnectionIgnoresPorts(c, p.wire, Arrives(a, p.wire));
  }
}
