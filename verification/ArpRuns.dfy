/** The interface against its history, over every run of sends, arriving frames and time. */
module ArpRuns {
  import opened Words
  import opened ArpInterface
  import I = Ipv4Codec

  datatype Announcement = Announcement(ip: u32, mac: EthernetAddress, time: nat)

  /** An interface and what has happened to it: the time, every mapping that ARP messages announced,
      every datagram it was given, and the time at which each outgoing frame was queued. */
  datatype Hist = Hist(s: Interface, now: nat, announced: seq<Announcement>, given: seq<Waiting>, times: seq<nat>)

  datatype Event = SendEvent(dgram: I.Datagram, nextHop: u32) | RecvEvent(frame: Frame) | TickEvent(ms: nat)

  function Repeat(t: nat, n: nat): seq<nat> { seq(n, _ => t) }

  /** `s'` replaces `s`; its new frames are queued now. */
  function Advance(h: Hist, s': Interface): Hist {
    h.(s := s', times := h.times + Repeat(h.now, Max(0, |s'.framesOut| - |h.s.framesOut|)))
  }

  /** An ARP message in a frame addressed to the interface or to all. */
  predicate Announces(s: Interface, f: Frame) {
    (f.dst == s.mac || f.dst == 0xffff_ffff_ffff) && f.payload.ArpPayload?
  }

  function Step(h: Hist, e: Event): Hist {
    match e
    case SendEvent(d, hop) =>
      Advance(h, SendDatagram(h.s, d, hop)).(given := h.given + [Waiting(d, hop)])
    case RecvEvent(f) =>
      var h1 := Advance(h, RecvFrame(h.s, f));
      if Announces(h.s, f)
      then h1.(announced := h.announced + [Announcement(f.payload.msg.senderIp, f.payload.msg.senderMac, h.now)])
      else h1
    case TickEvent(ms) => h.(s := Tick(h.s, ms), now := h.now + ms)
  }

  function Start(mac: EthernetAddress, ip: u32): Hist { Hist(New(mac, ip), 0, [], [], []) }

  function Run(h: Hist, es: seq<Event>): Hist
    decreases |es|
  {
    if es == [] then h else Run(Step(h, es[0]), es[1..])
  }

  // ---------------------------------------------------------------------------------------
  // What the history says

  /** The last announcement for an address. */
  function LastFor(announced: seq<Announcement>, ip: u32): Option<Announcement> {
    if announced == [] then None
    else
      var last := announced[|announced| - 1];
      if last.ip == ip then Some(last) else LastFor(announced[..|announced| - 1], ip)
  }

  /** The mapping that should be in the cache: the last one announced, if at most 30 seconds old. */
  function Expected(h: Hist, ip: u32): Option<Mapping> {
    match LastFor(h.announced, ip)
    case None => None
    case Some(a) => if a.time + 30_000 < h.now then None else Some(Mapping(a.mac, Max(0, h.now - a.time)))
  }

  function Cached(s: Interface, ip: u32): Option<Mapping> {
    if ip in s.ipMap then Some(s.ipMap[ip]) else None
  }

  ghost predicate CacheOk(h: Hist) {
    && (forall i :: 0 <= i < |h.announced| ==> h.announced[i].time <= h.now)
    && (forall ip: u32 :: Cached(h.s, ip) == Expected(h, ip))
  }

  predicate IsRequest(f: Frame, ip: u32) {
    f.payload.ArpPayload? && f.payload.msg.opcode == OPCODE_REQUEST && f.payload.msg.targetIp == ip
  }

  /** Frame `i` asked for `ip` at most 5 seconds ago. */
  predicate Asked(frames: seq<Frame>, times: seq<nat>, now: nat, i: nat, ip: u32)
    requires i < |frames| == |times|
  {
    IsRequest(frames[i], ip) && now <= times[i] + 5_000
  }

  ghost predicate TimerOk(h: Hist) { TimersMatch(h.s, h.times, h.now) }

  /** The request timers hold the age of the last request for each address asked for recently. */
  ghost predicate TimersMatch(s: Interface, times: seq<nat>, now: nat) {
    && |s.framesOut| == |times|
    && (forall i :: 0 <= i < |times| ==> times[i] <= now)
    && (forall i, ip: u32 :: 0 <= i < |times| && Asked(s.framesOut, times, now, i, ip) ==>
          ip in s.arpTimer && s.arpTimer[ip] <= now - times[i])
    && (forall ip: u32 :: ip in s.arpTimer ==> AskedAt(s, times, now, ip))
  }

  ghost predicate AskedAt(s: Interface, times: seq<nat>, now: nat, ip: u32)
    requires |s.framesOut| == |times| && ip in s.arpTimer
  {
    exists i :: 0 <= i < |times| && Asked(s.framesOut, times, now, i, ip) && s.arpTimer[ip] == now - times[i]
  }

  ghost predicate Spaced(h: Hist) { SpacedOut(h.s.framesOut, h.times) }

  ghost predicate SpacedOut(frames: seq<Frame>, times: seq<nat>) {
    |frames| == |times| &&
    forall i, j, ip: u32 :: 0 <= i < j < |times| && IsRequest(frames[i], ip) && IsRequest(frames[j], ip)
      ==> times[i] + 5_000 < times[j]
  }

  predicate HeadBlocked(s: Interface) {
    s.framesWaited != [] ==> s.framesWaited[0].nextHop !in s.ipMap
  }

  ghost predicate Inv(h: Hist) {
    CacheOk(h) && TimerOk(h) && Spaced(h) && HeadBlocked(h.s)
  }

  // ---------------------------------------------------------------------------------------
  // Each part is kept by each event

  lemma CacheStep(h: Hist, e: Event)
    requires CacheOk(h)
    ensures CacheOk(Step(h, e))
  {
    var h' := Step(h, e);
    match e
    case SendEvent(d, hop) =>
      assert h'.s.ipMap == h.s.ipMap && h'.announced == h.announced && h'.now == h.now;
      forall ip: u32 ensures Cached(h'.s, ip) == Expected(h', ip) {
        assert Cached(h.s, ip) == Expected(h, ip);
      }
    case RecvEvent(f) => CacheRecv(h, f);
    case TickEvent(ms) =>
      forall ip: u32 ensures Cached(h'.s, ip) == Expected(h', ip) {
        assert Cached(h.s, ip) == Expected(h, ip);
        LastForIn(h.announced, ip);
      }
  }

  lemma {:induction false} LastForIn(announced: seq<Announcement>, ip: u32)
    ensures LastFor(announced, ip).Some? ==> LastFor(announced, ip).value in announced
  {
    if announced == [] {
    } else {
      LastForIn(announced[..|announced| - 1], ip);
    }
  }

  lemma CacheRecv(h: Hist, f: Frame)
    requires CacheOk(h)
    ensures CacheOk(Step(h, RecvEvent(f)))
  {
    var h' := Step(h, RecvEvent(f));
    if Announces(h.s, f) {
      var m := f.payload.msg;
      ReleasesPrefix(Reply(Learn(h.s, m), m));
      assert h'.s.ipMap == h.s.ipMap[m.senderIp := Mapping(m.senderMac, 0)];
      assert h'.announced[..|h.announced|] == h.announced;
    }
    forall ip: u32 ensures Cached(h'.s, ip) == Expected(h', ip) {
      assert Cached(h.s, ip) == Expected(h, ip);
    }
  }

  /** Frames that ask for nothing. */
  predicate NoRequests(fs: seq<Frame>) {
    forall i :: 0 <= i < |fs| ==> !Requesting(fs[i])
  }

  predicate Requesting(f: Frame) {
    f.payload.ArpPayload? && f.payload.msg.opcode == OPCODE_REQUEST
  }

  /** `s'` has queued only frames that ask for nothing, and its request timers are as before. */
  predicate Quiet(s: Interface, s': Interface) {
    s.framesOut <= s'.framesOut && NoRequests(s'.framesOut[|s.framesOut|..]) && s'.arpTimer == s.arpTimer
  }

  lemma QuietIndex(h: Hist, s': Interface, i: nat, ip: u32)
    requires |h.s.framesOut| == |h.times| && Quiet(h.s, s') && i < |s'.framesOut|
    ensures var h' := Advance(h, s');
      && |h'.times| == |s'.framesOut|
      && (if i < |h.times| then h'.times[i] == h.times[i] && s'.framesOut[i] == h.s.framesOut[i]
          else h'.times[i] == h.now && !IsRequest(s'.framesOut[i], ip))
  {
  }

  lemma QuietTimer(h: Hist, s': Interface)
    requires TimerOk(h) && Quiet(h.s, s')
    ensures TimerOk(Advance(h, s'))
  {
    var h' := Advance(h, s');
    forall i, ip: u32 | 0 <= i < |h'.times| && Asked(h'.s.framesOut, h'.times, h'.now, i, ip)
      ensures ip in h'.s.arpTimer && h'.s.arpTimer[ip] <= h'.now - h'.times[i]
    {
      QuietIndex(h, s', i, ip);
      assert Asked(h.s.framesOut, h.times, h.now, i, ip);
    }
    forall ip: u32 | ip in h'.s.arpTimer
      ensures AskedAt(h'.s, h'.times, h'.now, ip)
    {
      assert AskedAt(h.s, h.times, h.now, ip);
      var i :|
        0 <= i < |h.times| && Asked(h.s.framesOut, h.times, h.now, i, ip) && h.s.arpTimer[ip] == h.now - h.times[i];
      QuietIndex(h, s', i, ip);
      assert Asked(h'.s.framesOut, h'.times, h'.now, i, ip);
    }
  }

  lemma QuietSpaced(h: Hist, s': Interface)
    requires Spaced(h) && Quiet(h.s, s')
    ensures Spaced(Advance(h, s'))
  {
  }

  /** `s'` has queued one request more, for an address that was not asked for recently. */
  predicate Requests(h: Hist, s': Interface, ip: u32) {
    && ip !in h.s.arpTimer && s'.arpTimer == h.s.arpTimer[ip := 0]
    && |s'.framesOut| == |h.s.framesOut| + 1 && h.s.framesOut <= s'.framesOut
    && IsRequest(s'.framesOut[|h.s.framesOut|], ip)
  }

  lemma RequestTimer(h: Hist, s': Interface, ip: u32)
    requires TimerOk(h) && Requests(h, s', ip)
    ensures TimerOk(Advance(h, s'))
  {
    var h' := Advance(h, s');
    var n := |h.times|;
    assert h'.times == h.times + [h.now];
    forall i, ip': u32 | 0 <= i < |h'.times| && Asked(h'.s.framesOut, h'.times, h'.now, i, ip')
      ensures ip' in h'.s.arpTimer && h'.s.arpTimer[ip'] <= h'.now - h'.times[i]
    {
      if i < n { assert Asked(h.s.framesOut, h.times, h.now, i, ip'); }
    }
    forall ip': u32 | ip' in h'.s.arpTimer
      ensures AskedAt(h'.s, h'.times, h'.now, ip')
    {
      if ip' == ip {
        assert Asked(h'.s.framesOut, h'.times, h'.now, n, ip);
      } else {
        var i :| 0 <= i < n && Asked(h.s.framesOut, h.times, h.now, i, ip') && h.s.arpTimer[ip'] == h.now - h.times[i];
        assert Asked(h'.s.framesOut, h'.times, h'.now, i, ip');
      }
    }
  }

  lemma RequestSpaced(h: Hist, s': Interface, ip: u32)
    requires TimerOk(h) && Spaced(h) && Requests(h, s', ip)
    ensures Spaced(Advance(h, s'))
  {
  }

  lemma TimerTick(h: Hist, ms: nat)
    requires TimerOk(h) && Spaced(h)
    ensures TimerOk(Step(h, TickEvent(ms))) && Spaced(Step(h, TickEvent(ms)))
  {
    var h' := Step(h, TickEvent(ms));
    forall i, ip: u32 | 0 <= i < |h'.times| && Asked(h'.s.framesOut, h'.times, h'.now, i, ip)
      ensures ip in h'.s.arpTimer && h'.s.arpTimer[ip] <= h'.now - h'.times[i]
    {
      assert Asked(h.s.framesOut, h.times, h.now, i, ip);
    }
    forall ip: u32 | ip in h'.s.arpTimer
      ensures AskedAt(h'.s, h'.times, h'.now, ip)
    {
      assert AskedAt(h.s, h.times, h.now, ip);
      var i :|
        0 <= i < |h.times| && Asked(h.s.framesOut, h.times, h.now, i, ip) && h.s.arpTimer[ip] == h.now - h.times[i];
      assert Asked(h'.s.framesOut, h'.times, h'.now, i, ip);
    }
  }

  lemma QuietTrans(s: Interface, s1: Interface, s2: Interface)
    requires Quiet(s, s1) && Quiet(s1, s2)
    ensures Quiet(s, s2)
  {
  }

  lemma ReleaseOneQuiet(s: Interface)
    requires s.framesWaited != [] && s.framesWaited[0].nextHop in s.ipMap
    ensures Quiet(s, ReleaseOne(s))
  {
  }

  lemma {:induction false} ReleaseQuiet(s: Interface)
    ensures Quiet(s, Release(s)) && HeadBlocked(Release(s))
    decreases |s.framesWaited|
  {
    if s.framesWaited == [] || s.framesWaited[0].nextHop !in s.ipMap {
    } else {
      ReleaseOneQuiet(s);
      ReleaseQuiet(ReleaseOne(s));
      QuietTrans(s, ReleaseOne(s), Release(s));
    }
  }

  /** What an arriving ARP message makes the interface queue: at most a reply, then released datagrams. */
  lemma RecvQuiet(s: Interface, m: ArpMessage)
    ensures var s' := Release(Reply(Learn(s, m), m));
            Quiet(s, s') && HeadBlocked(s')
  {
    var s1 := Reply(Learn(s, m), m);
    ReplyQuiet(s, m);
    ReleaseQuiet(s1);
    QuietTrans(s, s1, Release(s1));
  }

  lemma ReplyQuiet(s: Interface, m: ArpMessage)
    ensures var s1 := Reply(Learn(s, m), m);
      Quiet(s, s1)
  {
  }

  lemma SendTimers(h: Hist, d: I.Datagram, hop: u32)
    requires TimerOk(h) && Spaced(h)
    ensures var h' := Advance(h, SendDatagram(h.s, d, hop));
            TimerOk(h') && Spaced(h')
  {
    var s' := SendDatagram(h.s, d, hop);
    if hop !in h.s.ipMap && hop !in h.s.arpTimer {
      RequestTimer(h, s', hop);
      RequestSpaced(h, s', hop);
    } else {
      QuietTimer(h, s');
      QuietSpaced(h, s');
    }
  }

  lemma SendKeeps(h: Hist, d: I.Datagram, hop: u32)
    requires Inv(h)
    ensures var h' := Step(h, SendEvent(d, hop));
            TimerOk(h') && Spaced(h') && HeadBlocked(h'.s)
  {
    SendTimers(h, d, hop);
  }

  lemma RecvTimers(h: Hist, f: Frame)
    requires TimerOk(h) && Spaced(h)
    ensures var h' := Advance(h, RecvFrame(h.s, f));
            TimerOk(h') && Spaced(h')
  {
    var s' := RecvFrame(h.s, f);
    assert Quiet(h.s, s') by {
      if Announces(h.s, f) { RecvQuiet(h.s, f.payload.msg); }
    }
    QuietTimer(h, s');
    QuietSpaced(h, s');
  }

  lemma RecvKeeps(h: Hist, f: Frame)
    requires Inv(h)
    ensures var h' := Step(h, RecvEvent(f));
            TimerOk(h') && Spaced(h') && HeadBlocked(h'.s)
  {
    if Announces(h.s, f) { RecvQuiet(h.s, f.payload.msg); }
    RecvTimers(h, f);
  }

  lemma StepKeeps(h: Hist, e: Event)
    requires Inv(h)
    ensures Inv(Step(h, e))
  {
    CacheStep(h, e);
    match e
    case SendEvent(d, hop) => SendKeeps(h, d, hop);
    case RecvEvent(f) => RecvKeeps(h, f);
    case TickEvent(ms) => TimerTick(h, ms);
  }

  lemma {:induction false} RunKeeps(h: Hist, es: seq<Event>)
    requires Inv(h)
    ensures Inv(Run(h, es))
    decreases |es|
  {
    if es == [] {
    } else {
      StepKeeps(h, es[0]);
      RunKeeps(Step(h, es[0]), es[1..]);
    }
  }

  lemma StepKeepsHost(h: Hist, e: Event)
    ensures Step(h, e).s.mac == h.s.mac && Step(h, e).s.ip == h.s.ip
  {
    if e.RecvEvent? && Announces(h.s, e.frame) {
      ReleasesPrefix(Reply(Learn(h.s, e.frame.payload.msg), e.frame.payload.msg));
    }
  }

  /** An interface keeps its addresses. */
  lemma {:induction false} RunKeepsHost(h: Hist, es: seq<Event>)
    ensures Run(h, es).s.mac == h.s.mac && Run(h, es).s.ip == h.s.ip
    decreases |es|
  {
    if es == [] {
    } else {
      StepKeepsHost(h, es[0]);
      RunKeepsHost(Step(h, es[0]), es[1..]);
    }
  }

  // ---------------------------------------------------------------------------------------
  // The main results

  /** The cache is what the history says: for every address the last mapping announced for it, with
      its age, if that is at most 30 seconds, and nothing otherwise. */
  lemma CacheIsLastAnnounced(mac: EthernetAddress, ip: u32, es: seq<Event>, addr: u32)
    ensures var h := Run(Start(mac, ip), es);
            Cached(h.s, addr) == Expected(h, addr)
  {
    RunKeeps(Start(mac, ip), es);
  }

  /** Any two requests for one address are more than 5 seconds apart. */
  lemma RequestsAreSpaced(mac: EthernetAddress, ip: u32, es: seq<Event>, i: nat, j: nat, addr: u32)
    requires var h := Run(Start(mac, ip), es);
             i < j < |h.s.framesOut| && IsRequest(h.s.framesOut[i], addr) && IsRequest(h.s.framesOut[j], addr)
    ensures var h := Run(Start(mac, ip), es);
            |h.times| == |h.s.framesOut| && h.times[i] + 5_000 < h.times[j]
  {
    RunKeeps(Start(mac, ip), es);
  }

  /** A datagram whose next hop is not known is asked about exactly when nobody asked for that address
      in the last 5 seconds. */
  lemma AsksIffNotAskedRecently(mac: EthernetAddress, ip: u32, es: seq<Event>, d: I.Datagram, hop: u32)
    requires hop !in Run(Start(mac, ip), es).s.ipMap
    ensures var h := Run(Start(mac, ip), es);
            var s' := SendDatagram(h.s, d, hop);
      && |h.times| == |h.s.framesOut|
      && (s'.framesOut == h.s.framesOut + [Frame(0xffff_ffff_ffff, mac, ArpPayload(ArpMessage(1, mac, ip, 0, hop)))]
          <==> !exists i :: 0 <= i < |h.times| && Asked(h.s.framesOut, h.times, h.now, i, hop))
  {
    RunKeeps(Start(mac, ip), es);
    RunKeepsHost(Start(mac, ip), es);
    var h := Run(Start(mac, ip), es);
    var asked := exists i :: 0 <= i < |h.times| && Asked(h.s.framesOut, h.times, h.now, i, hop);
    assert asked <==> hop in h.s.arpTimer;
    var s' := SendDatagram(h.s, d, hop);
    assert hop in h.s.arpTimer ==> |s'.framesOut| == |h.s.framesOut|;
  }
}
