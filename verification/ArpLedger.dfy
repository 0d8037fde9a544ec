/** Which frame carries which datagram where, and in which order: the interface against a ledger that is kept from
    the history alone, without the interface's cache. */
module ArpLedger {
  import opened Words
  import opened ArpInterface
  import opened ArpRuns
  import I = Ipv4Codec

  /** A datagram, its next hop, and its number among all that the interface was given. */
  datatype Ticket = Ticket(n: nat, w: Waiting)

  datatype Shipment = Shipment(t: Ticket, mac: EthernetAddress)

  /** Everything shipped, in order; everything that ever had to wait, in order; of that, what was released
      and what still waits. */
  datatype Ledger = Ledger(shipped: seq<Shipment>, queued: seq<Ticket>, released: seq<Ticket>, waiting: seq<Ticket>)

  const BLANK: Ledger := Ledger([], [], [], [])

  function ShipOne(l: Ledger, mac: EthernetAddress): Ledger
    requires l.waiting != []
  {
    var t := l.waiting[0];
    l.(shipped := l.shipped + [Shipment(t, mac)], released := l.released + [t], waiting := l.waiting[1..])
  }

  /** Ship from the front of the queue while the history knows the next hop. */
  function Ship(l: Ledger, h: Hist): Ledger
    decreases |l.waiting|
  {
    if l.waiting == [] then l
    else
      var t := l.waiting[0];
      match Expected(h, t.w.nextHop)
      case None => l
      case Some(m) => Ship(ShipOne(l, m.mac), h)
  }

  /** A datagram is shipped at once if the history knows its next hop, and has to wait otherwise; an
      announcement may release what waits. */
  function Enter(l: Ledger, h: Hist, e: Event): Ledger {
    match e
    case SendEvent(d, hop) =>
      var t := Ticket(|h.given|, Waiting(d, hop));
      (match Expected(h, hop)
       case Some(m) => l.(shipped := l.shipped + [Shipment(t, m.mac)])
       case None => l.(queued := l.queued + [t], waiting := l.waiting + [t]))
    case RecvEvent(f) => if Announces(h.s, f) then Ship(l, ArpRuns.Step(h, e)) else l
    case TickEvent(_) => l
  }

  function Kept(l: Ledger, h: Hist, es: seq<Event>): Ledger
    decreases |es|
  {
    if es == [] then l else Kept(Enter(l, h, es[0]), ArpRuns.Step(h, es[0]), es[1..])
  }

  /** The frames with datagrams among all frames. */
  function IpFrames(frames: seq<Frame>): seq<Frame> {
    if frames == [] then []
    else
      var last := frames[|frames| - 1];
      IpFrames(frames[..|frames| - 1]) + (if last.payload.IpPayload? then [last] else [])
  }

  function FramesOf(mac: EthernetAddress, shipped: seq<Shipment>): seq<Frame> {
    seq(|shipped|, i requires 0 <= i < |shipped| => Frame(shipped[i].mac, mac, IpPayload(shipped[i].t.w.dgram)))
  }

  function Entries(ts: seq<Ticket>): seq<Waiting> { seq(|ts|, i requires 0 <= i < |ts| => ts[i].w) }

  /** The interface has done what the ledger says. */
  predicate Matches(s: Interface, l: Ledger) {
    && IpFrames(s.framesOut) == FramesOf(s.mac, l.shipped) && s.framesWaited == Entries(l.waiting)
    && l.queued == l.released + l.waiting
  }

  lemma PushIp(s: Interface, l: Ledger, t: Ticket, mac: EthernetAddress)
    requires IpFrames(s.framesOut) == FramesOf(s.mac, l.shipped)
    ensures IpFrames(s.framesOut + [IpFrame(s, t.w.dgram, mac)]) == FramesOf(s.mac, l.shipped + [Shipment(t, mac)])
  {
    var f := IpFrame(s, t.w.dgram, mac);
    assert (s.framesOut + [f])[..|s.framesOut|] == s.framesOut;
  }

  lemma PushOther(frames: seq<Frame>, f: Frame)
    requires !f.payload.IpPayload?
    ensures IpFrames(frames + [f]) == IpFrames(frames)
  {
    assert (frames + [f])[..|frames|] == frames;
  }

  /** The cache and the history say the same. */
  ghost predicate Informed(s: Interface, h: Hist) {
    forall ip: u32 :: Cached(s, ip) == Expected(h, ip)
  }

  lemma {:induction false} ReleaseShips(s: Interface, l: Ledger, h: Hist)
    requires Matches(s, l) && Informed(s, h)
    ensures Matches(Release(s), Ship(l, h))
    decreases |l.waiting|
  {
    if s.framesWaited == [] || Cached(s, s.framesWaited[0].nextHop).None? {
      assert Ship(l, h) == l && Release(s) == s;
    } else {
      var t := l.waiting[0];
      var mac := s.ipMap[t.w.nextHop].mac;
      PushIp(s, l, t, mac);
      var l1 := ShipOne(l, mac);
      assert l1.released + l1.waiting == l.released + l.waiting;
      assert Expected(h, t.w.nextHop) == Some(s.ipMap[t.w.nextHop]);
      ReleaseShips(ReleaseOne(s), l1, h);
    }
  }

  lemma SendMatches(h: Hist, l: Ledger, d: I.Datagram, hop: u32)
    requires ArpRuns.Inv(h) && Matches(h.s, l)
    ensures Matches(SendDatagram(h.s, d, hop), Enter(l, h, SendEvent(d, hop)))
  {
    var t := Ticket(|h.given|, Waiting(d, hop));
    assert Cached(h.s, hop) == Expected(h, hop);
    if hop in h.s.ipMap {
      PushIp(h.s, l, t, h.s.ipMap[hop].mac);
    } else {
      WaitsMatch(h.s, l, t);
    }
  }

  lemma WaitsMatch(s: Interface, l: Ledger, t: Ticket)
    requires Matches(s, l) && t.w.nextHop !in s.ipMap
    ensures Matches(SendDatagram(s, t.w.dgram, t.w.nextHop), l.(queued := l.queued + [t], waiting := l.waiting + [t]))
  {
    PushOther(s.framesOut, ArpFrame(s, OPCODE_REQUEST, ETHERNET_BROADCAST, t.w.nextHop));
    assert Entries(l.waiting + [t]) == Entries(l.waiting) + [t.w];
    assert l.queued + [t] == l.released + (l.waiting + [t]);
  }

  lemma RecvMatches(h: Hist, l: Ledger, f: Frame)
    requires ArpRuns.Inv(h) && Matches(h.s, l)
    ensures Matches(RecvFrame(h.s, f), Enter(l, h, RecvEvent(f)))
  {
    if Announces(h.s, f) {
      var m, h' := f.payload.msg, ArpRuns.Step(h, RecvEvent(f));
      var s1 := ArpInterface.Reply(Learn(h.s, m), m);
      PushOther(h.s.framesOut, ArpFrame(h.s, OPCODE_REPLY, m.senderMac, m.senderIp));
      ArpRuns.StepKeeps(h, RecvEvent(f));
      ReleasesPrefix(s1);
      assert s1.ipMap == h'.s.ipMap;
      ReleaseShips(s1, l, h');
    }
  }

  lemma EnterMatches(l: Ledger, h: Hist, e: Event)
    requires ArpRuns.Inv(h) && Matches(h.s, l)
    ensures Matches(ArpRuns.Step(h, e).s, Enter(l, h, e))
  {
    match e
    case SendEvent(d, hop) => SendMatches(h, l, d, hop);
    case RecvEvent(f) => RecvMatches(h, l, f);
    case TickEvent(_) =>
  }

  lemma {:induction false} KeptMatches(h: Hist, l: Ledger, es: seq<Event>)
    requires ArpRuns.Inv(h) && Matches(h.s, l)
    ensures Matches(ArpRuns.Run(h, es).s, Kept(l, h, es)) && ArpRuns.Run(h, es).s.mac == h.s.mac
    decreases |es|
  {
    if es == [] {
      assert ArpRuns.Run(h, es) == h;
    } else {
      ArpRuns.StepKeeps(h, es[0]);
      EnterMatches(l, h, es[0]);
      StepKeepsHost(h, es[0]);
      KeptMatches(ArpRuns.Step(h, es[0]), Enter(l, h, es[0]), es[1..]);
    }
  }

  /** Over every run: the frames with datagrams are, in order, those of the ledger, each to the hardware
      address that was last announced for its next hop and not too old; and what had to wait was
      released in order, the rest still waiting. */
  lemma FramesMatchLedger(mac: EthernetAddress, ip: u32, es: seq<Event>)
    ensures var s, l := ArpRuns.Run(Start(mac, ip), es).s, Kept(BLANK, Start(mac, ip), es);
      && IpFrames(s.framesOut) == FramesOf(mac, l.shipped)
      && s.framesWaited == Entries(l.waiting) && l.queued == l.released + l.waiting
  {
    KeptMatches(Start(mac, ip), BLANK, es);
  }

  // ---------------------------------------------------------------------------------------
  // Nothing is lost or repeated

  /** Everything the interface was given: first what was shipped, then what waits. */
  function Tickets(l: Ledger): seq<Ticket> {
    seq(|l.shipped|, i requires 0 <= i < |l.shipped| => l.shipped[i].t) + l.waiting
  }

  function Insert(ts: seq<Ticket>, k: nat, t: Ticket): seq<Ticket>
    requires k <= |ts|
  {
    ts[..k] + [t] + ts[k..]
  }

  predicate Holds(ts: seq<Ticket>, n: nat) { exists i :: 0 <= i < |ts| && ts[i].n == n }

  /** Every number once, with the datagram and the next hop given under it. */
  ghost predicate Complete(ts: seq<Ticket>, given: seq<Waiting>) {
    && (forall i :: 0 <= i < |ts| ==> ts[i].n < |given| && given[ts[i].n] == ts[i].w)
    && (forall i, j :: 0 <= i < j < |ts| ==> ts[i].n != ts[j].n)
    && (forall n :: 0 <= n < |given| ==> Holds(ts, n))
  }

  lemma InsertComplete(ts: seq<Ticket>, k: nat, given: seq<Waiting>, w: Waiting)
    requires Complete(ts, given) && k <= |ts|
    ensures Complete(Insert(ts, k, Ticket(|given|, w)), given + [w])
  {
    var ts' := Insert(ts, k, Ticket(|given|, w));
    forall n | 0 <= n < |given| + 1 ensures Holds(ts', n) {
      if n == |given| {
        assert ts'[k].n == n;
      } else {
        assert Holds(ts, n);
        var i :| 0 <= i < |ts| && ts[i].n == n;
        assert ts'[if i < k then i else i + 1].n == n;
      }
    }
  }

  lemma {:induction false} ShipKeepsTickets(l: Ledger, h: Hist)
    ensures Tickets(Ship(l, h)) == Tickets(l)
    decreases |l.waiting|
  {
    if l.waiting == [] || Expected(h, l.waiting[0].w.nextHop).None? {
      assert Ship(l, h) == l;
    } else {
      var l1 := ShipOne(l, Expected(h, l.waiting[0].w.nextHop).value.mac);
      assert Tickets(l1) == Tickets(l);
      ShipKeepsTickets(l1, h);
    }
  }

  /** What an event does to the list: a datagram that is given goes between what was shipped and what waits
      if its next hop is known, and to the end otherwise. */
  lemma EnterInserts(l: Ledger, h: Hist, e: Event)
    ensures Tickets(Enter(l, h, e))
         == match e
            case SendEvent(d, hop) =>
              Insert(Tickets(l), if Expected(h, hop).Some? then |l.shipped| else |Tickets(l)|,
                     Ticket(|h.given|, Waiting(d, hop)))
            case RecvEvent(_) => Tickets(l)
            case TickEvent(_) => Tickets(l)
  {
    if e.RecvEvent? && Announces(h.s, e.frame) { ShipKeepsTickets(l, ArpRuns.Step(h, e)); }
  }

  lemma EnterComplete(l: Ledger, h: Hist, e: Event)
    requires Complete(Tickets(l), h.given)
    ensures Complete(Tickets(Enter(l, h, e)), ArpRuns.Step(h, e).given)
  {
    EnterInserts(l, h, e);
    if e.SendEvent? {
      InsertComplete(Tickets(l), if Expected(h, e.nextHop).Some? then |l.shipped| else |Tickets(l)|, h.given,
                     Waiting(e.dgram, e.nextHop));
    }
  }

  lemma {:induction false} KeptComplete(l: Ledger, h: Hist, es: seq<Event>)
    requires Complete(Tickets(l), h.given)
    ensures Complete(Tickets(Kept(l, h, es)), ArpRuns.Run(h, es).given)
    decreases |es|
  {
    if es == [] {
    } else {
      EnterComplete(l, h, es[0]);
      KeptComplete(Enter(l, h, es[0]), ArpRuns.Step(h, es[0]), es[1..]);
    }
  }

  /** Over every run: each datagram the interface was given is shipped once or still waits, never both and never
      twice, with the next hop it was given for; and the one that waits longest is never one whose next hop
      is known. */
  lemma DatagramsAreConserved(mac: EthernetAddress, ip: u32, es: seq<Event>)
    ensures var h, l := ArpRuns.Run(Start(mac, ip), es), Kept(BLANK, Start(mac, ip), es);
      && Complete(Tickets(l), h.given)
      && (h.s.framesWaited != [] ==> h.s.framesWaited[0].nextHop !in h.s.ipMap)
  {
    KeptComplete(BLANK, Start(mac, ip), es);
    RunKeeps(Start(mac, ip), es);
  }

  // ---------------------------------------------------------------------------------------
  // The order in which datagrams for one next hop leave

  /** Datagrams for `hop` are shipped in the order in which they were given, those that wait last. */
  predicate InOrder(ts: seq<Ticket>, hop: u32) {
    forall i, j :: 0 <= i < j < |ts| && ts[i].w.nextHop == hop && ts[j].w.nextHop == hop ==> ts[i].n < ts[j].n
  }

  predicate Waits(ws: seq<Waiting>, hop: u32) { exists i :: 0 <= i < |ws| && ws[i].nextHop == hop }

  /** A datagram for `hop` is sent at once while another one for `hop` waits. */
  predicate Overtakes(s: Interface, e: Event, hop: u32) {
    e.SendEvent? && e.nextHop == hop && hop in s.ipMap && Waits(s.framesWaited, hop)
  }

  predicate NoneOvertakes(h: Hist, es: seq<Event>, hop: u32)
    decreases |es|
  {
    es == [] || (!Overtakes(h.s, es[0], hop) && NoneOvertakes(ArpRuns.Step(h, es[0]), es[1..], hop))
  }

  /** `t` comes before no other ticket for its next hop. */
  predicate LastOfAll(ts: seq<Ticket>, k: nat, t: Ticket, hop: u32) {
    t.w.nextHop == hop ==> forall i :: k <= i < |ts| ==> ts[i].w.nextHop != hop
  }

  lemma InsertOrder(ts: seq<Ticket>, k: nat, t: Ticket, hop: u32)
    requires k <= |ts| && forall i :: 0 <= i < |ts| ==> ts[i].n < t.n
    ensures InOrder(Insert(ts, k, t), hop) <==> InOrder(ts, hop) && LastOfAll(ts, k, t, hop)
  {
    var ts' := Insert(ts, k, t);
    if InOrder(ts', hop) {
      forall i, j | 0 <= i < j < |ts| && ts[i].w.nextHop == hop && ts[j].w.nextHop == hop ensures ts[i].n < ts[j].n {
        assert ts'[if i < k then i else i + 1] == ts[i] && ts'[if j < k then j else j + 1] == ts[j];
      }
      forall i | k <= i < |ts| && t.w.nextHop == hop ensures ts[i].w.nextHop != hop {
        assert ts'[k] == t && ts'[i + 1] == ts[i];
      }
    }
  }

  lemma WaitsInTickets(s: Interface, l: Ledger, t: Ticket, hop: u32)
    requires Matches(s, l) && t.w.nextHop == hop
    ensures LastOfAll(Tickets(l), |l.shipped|, t, hop) <==> !Waits(s.framesWaited, hop)
  {
    if LastOfAll(Tickets(l), |l.shipped|, t, hop) {
      forall i | 0 <= i < |l.waiting| ensures s.framesWaited[i].nextHop != hop {
        assert Tickets(l)[|l.shipped| + i] == l.waiting[i];
      }
    } else {
      var i :| |l.shipped| <= i < |Tickets(l)| && Tickets(l)[i].w.nextHop == hop;
      assert s.framesWaited[i - |l.shipped|].nextHop == hop;
    }
  }

  lemma EnterOrder(l: Ledger, h: Hist, e: Event, hop: u32)
    requires ArpRuns.Inv(h) && Matches(h.s, l) && Complete(Tickets(l), h.given)
    ensures InOrder(Tickets(Enter(l, h, e)), hop) <==> InOrder(Tickets(l), hop) && !Overtakes(h.s, e, hop)
  {
    EnterInserts(l, h, e);
    if e.SendEvent? {
      var t := Ticket(|h.given|, Waiting(e.dgram, e.nextHop));
      assert Cached(h.s, e.nextHop) == Expected(h, e.nextHop);
      if e.nextHop in h.s.ipMap {
        InsertOrder(Tickets(l), |l.shipped|, t, hop);
        if e.nextHop == hop { WaitsInTickets(h.s, l, t, hop); }
      } else {
        InsertOrder(Tickets(l), |Tickets(l)|, t, hop);
      }
    }
  }

  lemma {:induction false} KeptOrder(l: Ledger, h: Hist, es: seq<Event>, hop: u32)
    requires ArpRuns.Inv(h) && Matches(h.s, l) && Complete(Tickets(l), h.given)
    ensures InOrder(Tickets(Kept(l, h, es)), hop) <==> InOrder(Tickets(l), hop) && NoneOvertakes(h, es, hop)
    decreases |es|
  {
    if es == [] {
    } else {
      ArpRuns.StepKeeps(h, es[0]);
      EnterMatches(l, h, es[0]);
      EnterComplete(l, h, es[0]);
      EnterOrder(l, h, es[0], hop);
      KeptOrder(Enter(l, h, es[0]), ArpRuns.Step(h, es[0]), es[1..], hop);
    }
  }

  /** Over every run: the datagrams for a next hop leave in the order in which they were given if and only if
      none of them was given while that hop was known and another one for it still waited. */
  lemma InOrderIff(mac: EthernetAddress, ip: u32, es: seq<Event>, hop: u32)
    ensures InOrder(Tickets(Kept(BLANK, Start(mac, ip), es)), hop) <==> NoneOvertakes(Start(mac, ip), es, hop)
  {
    KeptOrder(BLANK, Start(mac, ip), es, hop);
  }

  /** `d` and `d'` wait for two hosts. The second one answers; `d'` is not released, since the first one has not
      answered. A third datagram, for the second host, is sent at once. */
  function Overtaking(f: Frame, d: I.Datagram, d': I.Datagram, d'': I.Datagram, blocked: u32, hop: u32): seq<Event> {
    [SendEvent(d, blocked), SendEvent(d', hop), RecvEvent(f), SendEvent(d'', hop)]
  }

  lemma FourSteps(h: Hist, es: seq<Event>, hop: u32)
    requires |es| == 4
    ensures var h3 := ArpRuns.Step(ArpRuns.Step(ArpRuns.Step(h, es[0]), es[1]), es[2]);
      && ArpRuns.Run(h, es) == ArpRuns.Step(h3, es[3])
      && (Overtakes(h3.s, es[3], hop) ==> !NoneOvertakes(h, es, hop))
  {
    var h1 := ArpRuns.Step(h, es[0]);
    var h2 := ArpRuns.Step(h1, es[1]);
    var h3 := ArpRuns.Step(h2, es[2]);
    var h4 := ArpRuns.Step(h3, es[3]);
    assert es[1..][1..] == [es[2], es[3]] && [es[2], es[3]][1..] == [es[3]] && [es[3]][1..] == [];
    assert ArpRuns.Run(h3, [es[3]]) == ArpRuns.Run(h4, []) == h4;
    assert ArpRuns.Run(h2, [es[2], es[3]]) == h4;
    assert NoneOvertakes(h2, [es[2], es[3]], hop) ==> NoneOvertakes(h3, [es[3]], hop);
    assert NoneOvertakes(h1, es[1..], hop) ==> NoneOvertakes(h2, [es[2], es[3]], hop);
  }

  /** The interface before the third datagram is given. */
  lemma HeadIsInTheWay(mac: EthernetAddress, ip: u32, f: Frame, d: I.Datagram, d': I.Datagram, blocked: u32, hop: u32)
    requires blocked != hop && f.payload.ArpPayload? && f.dst == mac && f.payload.msg.senderIp == hop
    requires f.payload.msg.opcode == OPCODE_REPLY
    ensures var s := RecvFrame(SendDatagram(SendDatagram(New(mac, ip), d, blocked), d', hop), f);
      && s.framesWaited == [Waiting(d, blocked), Waiting(d', hop)] && s.mac == mac
      && hop in s.ipMap && s.ipMap[hop].mac == f.payload.msg.senderMac && IpFrames(s.framesOut) == []
  {
    var s1 := SendDatagram(New(mac, ip), d, blocked);
    var s2 := SendDatagram(s1, d', hop);
    PushOther([], s1.framesOut[0]);
    PushOther(s1.framesOut, s2.framesOut[1]);
  }

  /** Such a run sends the third datagram while the second one waits for the same host. */
  lemma LaterDatagramOvertakes(mac: EthernetAddress, ip: u32, f: Frame, d: I.Datagram, d': I.Datagram,
                               d'': I.Datagram, blocked: u32, hop: u32)
    requires blocked != hop && f.payload.ArpPayload? && f.dst == mac && f.payload.msg.senderIp == hop
    requires f.payload.msg.opcode == OPCODE_REPLY
    ensures var es := Overtaking(f, d, d', d'', blocked, hop);
            var s := ArpRuns.Run(Start(mac, ip), es).s;
      && IpFrames(s.framesOut) == [Frame(f.payload.msg.senderMac, mac, IpPayload(d''))]
      && s.framesWaited == [Waiting(d, blocked), Waiting(d', hop)]
      && !InOrder(Tickets(Kept(BLANK, Start(mac, ip), es)), hop)
  {
    var es := Overtaking(f, d, d', d'', blocked, hop);
    var s := RecvFrame(SendDatagram(SendDatagram(New(mac, ip), d, blocked), d', hop), f);
    HeadIsInTheWay(mac, ip, f, d, d', blocked, hop);
    FourSteps(Start(mac, ip), es, hop);
    assert s.framesWaited[1].nextHop == hop && Overtakes(s, es[3], hop);
    PushIp(s, BLANK, Ticket(2, Waiting(d'', hop)), f.payload.msg.senderMac);
    InOrderIff(mac, ip, es, hop);
  }
}
