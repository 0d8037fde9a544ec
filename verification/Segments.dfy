/** TCP segments as the two halves of a connection exchange them
    (libsponge/tcp_helpers/tcp_header.hh, libsponge/tcp_helpers/tcp_segment.cc). */
module Segments {
  import opened Words

  datatype TCPHeader = TCPHeader(
    sport: u16, dport: u16, seqno: u32, ackno: u32, doff: byte,
    urg: bool, ack: bool, psh: bool, rst: bool, syn: bool, fin: bool,
    win: u16, cksum: u16, uptr: u16)

  const DEFAULT_HEADER: TCPHeader :=
    TCPHeader(0, 0, 0, 0, 5, false, false, false, false, false, false, 0, 0, 0)

  datatype TCPSegment = TCPSegment(header: TCPHeader, payload: seq<byte>)

  function LengthInSequenceSpace(seg: TCPSegment): nat {
    |seg.payload| + Count(seg.header.syn) + Count(seg.header.fin)
  }
}
