/** The network interface: datagrams in, Ethernet frames out, and the cache of addresses in between
    (libsponge/network_interface.cc). */
module ArpInterface {
  import opened Words
  import I = Ipv4Codec

  type EthernetAddress = x: int | 0 <= x < 0x1_0000_0000_0000

  const ETHERNET_BROADCAST: EthernetAddress := 0xffff_ffff_ffff
  const OPCODE_REQUEST: u16 := 1
  const OPCODE_REPLY: u16 := 2
  const MAPPING_TIME_LIMIT: nat := 30 * 1000
  const ARP_TIME: nat := 5 * 1000

  datatype ArpMessage = ArpMessage(
    opcode: u16, senderMac: EthernetAddress, senderIp: u32, targetMac: EthernetAddress, targetIp: u32)

  /** What the type field and the parsers make of a frame's payload. */
  datatype Payload = IpPayload(dgram: I.Datagram) | ArpPayload(msg: ArpMessage) | Unreadable

  datatype Frame = Frame(dst: EthernetAddress, src: EthernetAddress, payload: Payload)

  datatype Mapping = Mapping(mac: EthernetAddress, age: nat)

  datatype Waiting = Waiting(dgram: I.Datagram, nextHop: u32)

  datatype Interface = Interface(
    mac: EthernetAddress,
    ip: u32,
    framesOut: seq<Frame>,
    framesWaited: seq<Waiting>,
    ipMap: map<u32, Mapping>,
    arpTimer: map<u32, nat>)

  function New(mac: EthernetAddress, ip: u32): Interface {
    Interface(mac, ip, [], [], map[], map[])
  }

  function IpFrame(s: Interface, dgram: I.Datagram, dst: EthernetAddress): Frame {
    Frame(dst, s.mac, IpPayload(dgram))
  }

  /** The target hardware address is filled in only for replies. */
  function ArpFrame(s: Interface, opcode: u16, mac: EthernetAddress, ip: u32): Frame {
    Frame(mac, s.mac, ArpPayload(ArpMessage(opcode, s.mac, s.ip, if opcode == OPCODE_REPLY then mac else 0, ip)))
  }

  function Push(s: Interface, f: Frame): Interface { s.(framesOut := s.framesOut + [f]) }

  function SendDatagram(s: Interface, dgram: I.Datagram, nextHop: u32): Interface {
    if nextHop in s.ipMap then Push(s, IpFrame(s, dgram, s.ipMap[nextHop].mac))
    else
      var s1 := s.(framesWaited := s.framesWaited + [Waiting(dgram, nextHop)]);
      if nextHop in s.arpTimer then s1
      else Push(s1, ArpFrame(s, OPCODE_REQUEST, ETHERNET_BROADCAST, nextHop)).(arpTimer := s.arpTimer[nextHop := 0])
  }

  /** Send waiting datagrams from the front while their next hop is known. */
  function Release(s: Interface): Interface
    decreases |s.framesWaited|
  {
    if s.framesWaited == [] || s.framesWaited[0].nextHop !in s.ipMap then s
    else Release(ReleaseOne(s))
  }

  function ReleaseOne(s: Interface): Interface
    requires s.framesWaited != [] && s.framesWaited[0].nextHop in s.ipMap
  {
    var w := s.framesWaited[0];
    Push(s, IpFrame(s, w.dgram, s.ipMap[w.nextHop].mac)).(framesWaited := s.framesWaited[1..])
  }

  predicate ForUs(s: Interface, f: Frame) { f.dst == s.mac || f.dst == ETHERNET_BROADCAST }

  function Learn(s: Interface, m: ArpMessage): Interface {
    s.(ipMap := s.ipMap[m.senderIp := Mapping(m.senderMac, 0)])
  }

  function Reply(s: Interface, m: ArpMessage): Interface {
    if m.opcode == OPCODE_REQUEST && m.targetIp == s.ip
    then Push(s, ArpFrame(s, OPCODE_REPLY, m.senderMac, m.senderIp)) else s
  }

  /** What `recv_frame` hands up. */
  function Received(s: Interface, f: Frame): Option<I.Datagram> {
    if ForUs(s, f) && f.payload.IpPayload? then Some(f.payload.dgram) else None
  }

  function RecvFrame(s: Interface, f: Frame): Interface {
    if ForUs(s, f) && f.payload.ArpPayload? then Release(Reply(Learn(s, f.payload.msg), f.payload.msg)) else s
  }

  function Age(m: map<u32, Mapping>, ms: nat): map<u32, Mapping> {
    map ip | ip in m && m[ip].age + ms <= MAPPING_TIME_LIMIT :: Mapping(m[ip].mac, m[ip].age + ms)
  }

  function AgeTimer(m: map<u32, nat>, ms: nat): map<u32, nat> {
    map ip | ip in m && m[ip] + ms <= ARP_TIME :: m[ip] + ms
  }

  function Tick(s: Interface, ms: nat): Interface {
    s.(ipMap := Age(s.ipMap, ms), arpTimer := AgeTimer(s.arpTimer, ms))
  }

  // ---------------------------------------------------------------------------------------
  // One call

  predicate Ready(s: Interface, n: nat)
    requires n <= |s.framesWaited|
  {
    forall i :: 0 <= i < n ==> s.framesWaited[i].nextHop in s.ipMap
  }

  function FramesFor(s: Interface, ws: seq<Waiting>): seq<Frame>
    requires forall i :: 0 <= i < |ws| ==> ws[i].nextHop in s.ipMap
  {
    seq(|ws|, i requires 0 <= i < |ws| => IpFrame(s, ws[i].dgram, s.ipMap[ws[i].nextHop].mac))
  }

  lemma FramesForHead(s: Interface, ws: seq<Waiting>)
    requires ws != [] && forall i :: 0 <= i < |ws| ==> ws[i].nextHop in s.ipMap
    ensures FramesFor(s, ws) == [IpFrame(s, ws[0].dgram, s.ipMap[ws[0].nextHop].mac)] + FramesFor(s, ws[1..])
  {
  }

  /** One release and `m` more. */
  lemma OneMore(s: Interface, m: nat)
    requires s.framesWaited != [] && s.framesWaited[0].nextHop in s.ipMap && m < |s.framesWaited|
    requires Ready(ReleaseOne(s), m)
    ensures var s1 := ReleaseOne(s);
      && Ready(s, m + 1) && s1.framesWaited[m..] == s.framesWaited[m + 1..]
      && s1.framesOut + FramesFor(s1, s1.framesWaited[..m]) == s.framesOut + FramesFor(s, s.framesWaited[..m + 1])
  {
    var s1, ws := ReleaseOne(s), s.framesWaited[..m + 1];
    assert forall i :: 0 < i <= m ==> ws[i] == s1.framesWaited[i - 1];
    assert ws[1..] == s1.framesWaited[..m];
    FramesForHead(s, ws);
  }

  /** The queue leaves in order: releasing sends a frame for each datagram of the longest prefix of
      the queue whose next hops are known, in the order of the queue, and nothing else. */
  lemma {:induction false} ReleasesPrefix(s: Interface)
    ensures var s' := Release(s);
            var n := |s.framesWaited| - |s'.framesWaited|;
            && 0 <= n && Ready(s, n)
            && s' == s.(framesOut := s.framesOut + FramesFor(s, s.framesWaited[..n]),
                        framesWaited := s.framesWaited[n..])
            && (s'.framesWaited != [] ==> s'.framesWaited[0].nextHop !in s'.ipMap)
    decreases |s.framesWaited|
  {
    if s.framesWaited == [] || s.framesWaited[0].nextHop !in s.ipMap {
      assert s.framesOut + FramesFor(s, s.framesWaited[..0]) == s.framesOut;
    } else {
      var s1 := ReleaseOne(s);
      ReleasesPrefix(s1);
      OneMore(s, |s1.framesWaited| - |Release(s1).framesWaited|);
    }
  }

  // Two interfaces on one link

  /** The first frame that a call added. */
  function FirstNew(s: Interface, s': Interface): Frame
    requires |s.framesOut| < |s'.framesOut|
  {
    s'.framesOut[|s.framesOut|]
  }

  /** The answer to a request for the interface's own address comes first. */
  lemma AnswersRequest(s: Interface, f: Frame)
    requires ForUs(s, f) && f.payload.ArpPayload? && f.payload.msg.opcode == OPCODE_REQUEST
    requires f.payload.msg.targetIp == s.ip
    ensures var s' := RecvFrame(s, f);
      && |s.framesOut| < |s'.framesOut| && s'.mac == s.mac && s'.ip == s.ip
      && FirstNew(s, s') == ArpFrame(s, OPCODE_REPLY, f.payload.msg.senderMac, f.payload.msg.senderIp)
      && s'.ipMap == s.ipMap[f.payload.msg.senderIp := Mapping(f.payload.msg.senderMac, 0)]
  {
    ReleasesPrefix(Reply(Learn(s, f.payload.msg), f.payload.msg));
  }

  /** A queue in which everything waits for one address leaves as a whole when that address answers. */
  lemma AnswerReleases(s: Interface, f: Frame)
    requires ForUs(s, f) && f.payload.ArpPayload? && f.payload.msg.opcode == OPCODE_REPLY
    requires forall i :: 0 <= i < |s.framesWaited| ==> s.framesWaited[i].nextHop == f.payload.msg.senderIp
    ensures var s' := RecvFrame(s, f);
      && s'.framesWaited == [] && |s'.framesOut| == |s.framesOut| + |s.framesWaited| && s.framesOut <= s'.framesOut
      && forall i :: 0 <= i < |s.framesWaited| ==>
           s'.framesOut[|s.framesOut| + i] == IpFrame(s, s.framesWaited[i].dgram, f.payload.msg.senderMac)
  {
    ReleasesPrefix(Learn(s, f.payload.msg));
  }

  /** Address resolution between two interfaces: `a` has a datagram for `b` and does not know `b`'s
      hardware address. Its request gets an answer, the answer empties the queue in order, and `b` hands
      up every datagram in it. */
  lemma ResolutionDelivers(a: Interface, b: Interface, d: I.Datagram, i: nat)
    requires b.ip !in a.ipMap && b.ip !in a.arpTimer && i <= |a.framesWaited|
    requires forall j :: 0 <= j < |a.framesWaited| ==> a.framesWaited[j].nextHop == b.ip
    ensures var a1 := SendDatagram(a, d, b.ip);
            var b1 := RecvFrame(b, FirstNew(a, a1));
            |b.framesOut| < |b1.framesOut| &&
            var a2 := RecvFrame(a1, FirstNew(b, b1));
      && a2.framesWaited == [] && |a2.framesOut| == |a1.framesOut| + |a.framesWaited| + 1
      && Received(b1, a2.framesOut[|a1.framesOut| + i]) == Some((a.framesWaited + [Waiting(d, b.ip)])[i].dgram)
  {
    var a1 := SendDatagram(a, d, b.ip);
    var request := FirstNew(a, a1);
    AnswersRequest(b, request);
    AnswerReleases(a1, FirstNew(b, RecvFrame(b, request)));
  }
}
