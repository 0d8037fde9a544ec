/** What an interface makes of the frames that reach it: what it hands up and what it answers, over every run. */
module ArpFrames {
  import opened Words
  import opened ArpInterface
  import opened ArpRuns
  import I = Ipv4Codec

  /** A frame is for the host with this hardware address: sent to it, or to all. */
  predicate AddressedTo(f: Frame, mac: EthernetAddress) { f.dst == mac || f.dst == 0xffff_ffff_ffff }

  /** A frame for another host changes nothing, and nothing of it is handed up. */
  lemma OthersFrameIgnored(s: Interface, f: Frame)
    requires !AddressedTo(f, s.mac)
    ensures RecvFrame(s, f) == s && Received(s, f) == None
  {
  }

  // What is handed up

  /** The datagrams that the interface hands up in a run, in order. */
  function HandedUp(h: Hist, es: seq<Event>): seq<I.Datagram>
    decreases |es|
  {
    if es == [] then []
    else
      (if es[0].RecvEvent? && Received(h.s, es[0].frame).Some? then [Received(h.s, es[0].frame).value] else [])
      + HandedUp(ArpRuns.Step(h, es[0]), es[1..])
  }

  /** The datagrams in the frames for this host, as they arrive. */
  function Inbound(mac: EthernetAddress, es: seq<Event>): seq<I.Datagram>
    decreases |es|
  {
    if es == [] then []
    else
      (if es[0].RecvEvent? && AddressedTo(es[0].frame, mac) && es[0].frame.payload.IpPayload?
       then [es[0].frame.payload.dgram] else [])
      + Inbound(mac, es[1..])
  }

  lemma {:induction false} HandsUpInbound(h: Hist, es: seq<Event>)
    ensures HandedUp(h, es) == Inbound(h.s.mac, es)
    decreases |es|
  {
    if es == [] {
    } else {
      StepKeepsHost(h, es[0]);
      HandsUpInbound(ArpRuns.Step(h, es[0]), es[1..]);
    }
  }

  /** Over every run the datagrams handed up are, in order, exactly those in the frames for this host. */
  lemma HandsUpExactly(mac: EthernetAddress, ip: u32, es: seq<Event>)
    ensures HandedUp(Start(mac, ip), es) == Inbound(mac, es)
  {
    HandsUpInbound(Start(mac, ip), es);
  }

  // What is answered

  predicate IsReply(f: Frame) { f.payload.ArpPayload? && f.payload.msg.opcode == 2 }

  /** The replies among all frames. */
  function ReplyFrames(frames: seq<Frame>): seq<Frame> {
    if frames == [] then []
    else
      var last := frames[|frames| - 1];
      ReplyFrames(frames[..|frames| - 1]) + (if IsReply(last) then [last] else [])
  }

  /** A request for the address `ip`, in a frame for this host. */
  predicate AsksForUs(e: Event, mac: EthernetAddress, ip: u32) {
    && e.RecvEvent? && AddressedTo(e.frame, mac) && e.frame.payload.ArpPayload?
    && e.frame.payload.msg.opcode == 1 && e.frame.payload.msg.targetIp == ip
  }

  /** The reply that a request calls for: to the one who asked, with both addresses of both. */
  function ReplyDue(mac: EthernetAddress, ip: u32, e: Event): seq<Frame> {
    if AsksForUs(e, mac, ip)
    then
      var m := e.frame.payload.msg;
      [Frame(m.senderMac, mac, ArpPayload(ArpMessage(2, mac, ip, m.senderMac, m.senderIp)))]
    else []
  }

  function RepliesDue(mac: EthernetAddress, ip: u32, es: seq<Event>): seq<Frame>
    decreases |es|
  {
    if es == [] then [] else ReplyDue(mac, ip, es[0]) + RepliesDue(mac, ip, es[1..])
  }

  lemma PushReply(frames: seq<Frame>, f: Frame)
    ensures ReplyFrames(frames + [f]) == ReplyFrames(frames) + (if IsReply(f) then [f] else [])
  {
    assert (frames + [f])[..|frames|] == frames;
  }

  lemma {:induction false} ReleaseRepliesNot(s: Interface)
    ensures ReplyFrames(Release(s).framesOut) == ReplyFrames(s.framesOut)
    decreases |s.framesWaited|
  {
    if s.framesWaited == [] || s.framesWaited[0].nextHop !in s.ipMap {
    } else {
      var w := s.framesWaited[0];
      PushReply(s.framesOut, IpFrame(s, w.dgram, s.ipMap[w.nextHop].mac));
      ReleaseRepliesNot(ReleaseOne(s));
    }
  }

  lemma SendRepliesNot(s: Interface, d: I.Datagram, hop: u32)
    ensures ReplyFrames(SendDatagram(s, d, hop).framesOut) == ReplyFrames(s.framesOut)
  {
    if hop in s.ipMap {
      PushReply(s.framesOut, IpFrame(s, d, s.ipMap[hop].mac));
    } else {
      PushReply(s.framesOut, ArpFrame(s, OPCODE_REQUEST, ETHERNET_BROADCAST, hop));
    }
  }

  lemma RecvReplies(s: Interface, f: Frame)
    ensures ReplyFrames(RecvFrame(s, f).framesOut) == ReplyFrames(s.framesOut) + ReplyDue(s.mac, s.ip, RecvEvent(f))
  {
    if Announces(s, f) {
      var m := f.payload.msg;
      PushReply(s.framesOut, ArpFrame(s, OPCODE_REPLY, m.senderMac, m.senderIp));
      ReleaseRepliesNot(Reply(Learn(s, m), m));
    }
  }

  lemma StepReplies(h: Hist, e: Event)
    ensures ReplyFrames(ArpRuns.Step(h, e).s.framesOut)
         == ReplyFrames(h.s.framesOut) + ReplyDue(h.s.mac, h.s.ip, e)
  {
    match e
    case SendEvent(d, hop) => SendRepliesNot(h.s, d, hop);
    case RecvEvent(f) => RecvReplies(h.s, f);
    case TickEvent(_) =>
  }

  lemma Chained(a: seq<Frame>, b: seq<Frame>, c: seq<Frame>)
    ensures a + b + c == a + (b + c)
  {
  }

  lemma {:induction false} RunReplies(h: Hist, es: seq<Event>)
    ensures ReplyFrames(ArpRuns.Run(h, es).s.framesOut)
         == ReplyFrames(h.s.framesOut) + RepliesDue(h.s.mac, h.s.ip, es)
    decreases |es|
  {
    if es == [] {
      assert ArpRuns.Run(h, es) == h;
    } else {
      var h1 := ArpRuns.Step(h, es[0]);
      assert h1.s.mac == h.s.mac && h1.s.ip == h.s.ip by { StepKeepsHost(h, es[0]); }
      StepReplies(h, es[0]);
      RunReplies(h1, es[1..]);
      assert ArpRuns.Run(h, es) == ArpRuns.Run(h1, es[1..]);
      Chained(ReplyFrames(h.s.framesOut), ReplyDue(h.s.mac, h.s.ip, es[0]), RepliesDue(h.s.mac, h.s.ip, es[1..]));
    }
  }

  /** Over every run the replies sent are, in order, exactly those that the requests for this host's address
      call for. */
  lemma RepliesExactly(mac: EthernetAddress, ip: u32, es: seq<Event>)
    ensures ReplyFrames(ArpRuns.Run(Start(mac, ip), es).s.framesOut) == RepliesDue(mac, ip, es)
  {
    RunReplies(Start(mac, ip), es);
  }
}
