/** Two connections and the network between them, over every run. The network holds every segment
    either side ever sent, and may deliver any of them any number of times, in any order, or never. */
module Network {
  import opened Words
  import opened ByteStreams
  import opened SequenceNumbers
  import opened Channels
  import opened Connections
  import opened Endpoints
  import opened Pairs
  import ER = EndpointRuns
  import S = Sending
  import R = Receiving

  datatype World = World(a: Endpoint, b: Endpoint)

  datatype Act = Local(call: Call) | Deliver(p: Packet)

  datatype Event = Event(atA: bool, act: Act)

  function CallOf(act: Act): Call {
    match act
    case Local(call) => call
    case Deliver(p) => ReceiveCall(p.wire)
  }

  function Swap(w: World): World { World(w.b, w.a) }

  function NextAtA(w: World, act: Act): World {
    w.(a := Endpoints.Step(w.a, CallOf(act)))
  }

  function Next(w: World, ev: Event): World {
    if ev.atA then NextAtA(w, ev.act) else Swap(NextAtA(Swap(w), ev.act))
  }

  /** Local calls are limited only by the range of the counters, deliveries by `Deliverable`. */
  predicate PossibleAtA(w: World, act: Act) {
    match act
    case Local(call) => !call.ReceiveCall? && Enabled(w.a.c, call)
    case Deliver(p) => p in w.b.c.sent && Deliverable(w.a.c, w.b.c, p)
  }

  predicate Possible(w: World, ev: Event) {
    PossibleAtA(if ev.atA then w else Swap(w), ev.act)
  }

  function Exec(w: World, evs: seq<Event>): World
    decreases |evs|
  {
    if evs == [] then w else Exec(Next(w, evs[0]), evs[1..])
  }

  predicate AllPossible(w: World, evs: seq<Event>)
    decreases |evs|
  {
    evs == [] || (Possible(w, evs[0]) && AllPossible(Next(w, evs[0]), evs[1..]))
  }

  function Init(cfg: Config, cfg': Config): World { World(Start(cfg), Start(cfg')) }

  ghost predicate Inv(w: World) {
    Endpoints.Ok(w.a) && Endpoints.Ok(w.b) && Pair(w.a.c, w.b.c)
  }

  predicate Later(w: World, w': World) {
    Endpoints.Later(w.a.c, w'.a.c) && Endpoints.Later(w.b.c, w'.b.c)
  }

  lemma InitOk(cfg: Config, cfg': Config)
    ensures Inv(Init(cfg, cfg'))
  {
    StartOk(cfg);
    StartOk(cfg');
    FreshPair(cfg, cfg');
  }

  lemma StepAppliesCall(e: Endpoint, call: Call)
    ensures Endpoints.Step(e, call).c == Apply(e.c, call)
  {
  }

  lemma DeliverIsReceive(w: World, p: Packet)
    ensures var w' := Next(w, Event(true, Deliver(p)));
            w'.a.c == SegmentReceived(w.a.c, p.wire) && w'.b == w.b
    ensures var w' := Next(w, Event(false, Deliver(p)));
            w'.b.c == SegmentReceived(w.b.c, p.wire) && w'.a == w.a
  {
    StepAppliesCall(w.a, ReceiveCall(p.wire));
    StepAppliesCall(w.b, ReceiveCall(p.wire));
  }

  lemma NextAtAPairs(w: World, act: Act)
    requires Inv(w) && PossibleAtA(w, act)
    ensures Pair(NextAtA(w, act).a.c, w.b.c)
  {
    StepAppliesCall(w.a, CallOf(act));
    match act
    case Local(call) => LocalCallPairs(w.a.c, w.b.c, call);
    case Deliver(p) => DeliverCallPairs(w.a.c, w.b.c, p);
  }

  lemma NextAtAKeeps(w: World, act: Act)
    requires Inv(w) && PossibleAtA(w, act)
    ensures Inv(NextAtA(w, act)) && Later(w, NextAtA(w, act))
  {
    NextAtAPairs(w, act);
    StepKeeps(w.a, CallOf(act));
  }

  lemma SwapInv(w: World)
    requires Inv(w)
    ensures Inv(Swap(w))
  {
  }

  lemma NextKeeps(w: World, ev: Event)
    requires Inv(w) && Possible(w, ev)
    ensures Inv(Next(w, ev)) && Later(w, Next(w, ev))
  {
    if ev.atA {
      NextAtAKeeps(w, ev.act);
    } else {
      SwapInv(w);
      NextAtAKeeps(Swap(w), ev.act);
      SwapInv(NextAtA(Swap(w), ev.act));
    }
  }

  lemma LaterTransitive(c: Conn, c': Conn, c'': Conn)
    requires Endpoints.Later(c, c') && Endpoints.Later(c', c'')
    ensures Endpoints.Later(c, c'')
  {
  }

  lemma {:induction false} ExecKeeps(w: World, evs: seq<Event>)
    requires Inv(w) && AllPossible(w, evs)
    ensures Inv(Exec(w, evs)) && Later(w, Exec(w, evs))
    decreases |evs|
  {
    if evs == [] {
    } else {
      var w1 := Next(w, evs[0]);
      NextKeeps(w, evs[0]);
      ExecKeeps(w1, evs[1..]);
      LaterTransitive(w.a.c, w1.a.c, Exec(w1, evs[1..]).a.c);
      LaterTransitive(w.b.c, w1.b.c, Exec(w1, evs[1..]).b.c);
    }
  }

  /** `w` is what some run from two fresh connections leads to. */
  ghost predicate Reachable(w: World) {
    exists cfg, cfg', evs :: AllPossible(Init(cfg, cfg'), evs) && w == Exec(Init(cfg, cfg'), evs)
  }

  lemma ReachableInv(w: World)
    requires Reachable(w)
    ensures Inv(w)
  {
    var cfg, cfg', evs :| AllPossible(Init(cfg, cfg'), evs) && w == Exec(Init(cfg, cfg'), evs);
    InitOk(cfg, cfg');
    ExecKeeps(Init(cfg, cfg'), evs);
  }

  /** Some run leads from `w` to `w'`. */
  ghost predicate Leads(w: World, w': World) {
    exists evs :: AllPossible(w, evs) && w' == Exec(w, evs)
  }

  lemma {:induction false} ExecExtends(w: World, evs: seq<Event>, ev: Event)
    requires AllPossible(w, evs) && Possible(Exec(w, evs), ev)
    ensures AllPossible(w, evs + [ev]) && Exec(w, evs + [ev]) == Next(Exec(w, evs), ev)
    decreases |evs|
  {
    if evs == [] {
      assert evs + [ev] == [ev];
      var w1 := Next(w, ev);
      assert AllPossible(w1, []) && Exec(w1, []) == w1;
    } else {
      assert (evs + [ev])[1..] == evs[1..] + [ev];
      ExecExtends(Next(w, evs[0]), evs[1..], ev);
    }
  }

  lemma LeadsOn(w: World, w': World, ev: Event)
    requires Leads(w, w') && Possible(w', ev)
    ensures Leads(w, Next(w', ev))
  {
    var evs :| AllPossible(w, evs) && w' == Exec(w, evs);
    ExecExtends(w, evs, ev);
  }

  lemma LeadsToItself(w: World)
    ensures Leads(w, w)
  {
    assert AllPossible(w, []) && w == Exec(w, []);
  }

  lemma LeadsIsReachable(cfg: Config, cfg': Config, w: World)
    requires Leads(Init(cfg, cfg'), w)
    ensures Reachable(w)
  {
    var evs :| AllPossible(Init(cfg, cfg'), evs) && w == Exec(Init(cfg, cfg'), evs);
  }

  // ---------------------------------------------------------------------------------------
  // The main results. Each is stated for the direction from A to B; `Swap` gives the other one.

  function Written(e: Endpoint): Stream { e.c.sender.stream }

  function Arrived(e: Endpoint): Stream { R.Output(e.c.receiver) }

  /** End-to-end safety: what has arrived is always a prefix of what was written, and the arrived
      stream has ended only if the writer ended it and every byte is there. */
  lemma ArrivedIsPrefix(w: World)
    requires Reachable(w)
    ensures Arrived(w.b).log <= Written(w.a).log
    ensures Arrived(w.b).inputEnd ==> Written(w.a).inputEnd && Arrived(w.b).log == Written(w.a).log
    ensures Arrived(w.a).log <= Written(w.b).log
    ensures Arrived(w.a).inputEnd ==> Written(w.b).inputEnd && Arrived(w.a).log == Written(w.b).log
  {
    ReachableInv(w);
    Delivered(w.a.c.sender, w.b.c.receiver);
    Delivered(w.b.c.sender, w.a.c.receiver);
  }

  /** Nothing is lost: what the peer still lacks of the numbers sent is in the retransmission queue. */
  lemma LackedIsRetransmittable(w: World, v: nat)
    requires Reachable(w) && R.AbsAck(w.b.c.receiver) <= v < w.a.c.sender.nextSeqno
    ensures exists g :: g in w.a.c.sender.backup && g.abs <= v < S.End(g)
  {
    ReachableInv(w);
    LackingIsQueued(w.a.c.sender, w.b.c.receiver, v);
  }

  /** The sender's idea of what arrived never runs ahead of the truth. */
  lemma AcknowledgedHasArrived(w: World)
    requires Reachable(w)
    ensures w.a.c.sender.absAckno <= R.AbsAck(w.b.c.receiver) <= w.a.c.sender.nextSeqno
  {
    ReachableInv(w);
    AckedWasSent(w.a.c.sender, w.b.c.receiver);
  }

  lemma InvPromise(w: World)
    requires Inv(w)
    ensures var r := w.b.c.receiver;
      && (r.isn.Some? ==>
            && R.AbsAck(r) == 1 + |Arrived(w.b).log| + (if Arrived(w.b).inputEnd then 1 else 0)
            && r.ackno == Some(Wrap(R.AbsAck(r), w.a.c.sender.isn)))
      && R.RightEdge(r) == r.reassembler.firstUnassembled + R.WindowSize(r)
         == Arrived(w.b).capacity + Arrived(w.b).bytesRead
  {
  }

  /** What the receiver advertises stands for what it holds: the acknowledgment number counts the SYN,
      the bytes written out and the end, and the window ends at capacity plus bytes read. */
  lemma PromisesAreExact(w: World)
    requires Reachable(w)
    ensures var r := w.b.c.receiver;
      && (r.isn.Some? ==>
            && R.AbsAck(r) == 1 + |Arrived(w.b).log| + (if Arrived(w.b).inputEnd then 1 else 0)
            && r.ackno == Some(Wrap(R.AbsAck(r), w.a.c.sender.isn)))
      && r.reassembler.firstUnassembled + R.WindowSize(r) == Arrived(w.b).capacity + Arrived(w.b).bytesRead
  {
    ReachableInv(w);
    InvPromise(w);
  }

  /** And neither the acknowledgment number nor the right edge of the window ever moves back. */
  lemma PromisesAreKept(w: World, evs: seq<Event>)
    requires Reachable(w) && AllPossible(w, evs)
    ensures var r, r' := w.b.c.receiver, Exec(w, evs).b.c.receiver;
      && R.AbsAck(r) <= R.AbsAck(r')
      && r.reassembler.firstUnassembled + R.WindowSize(r) <= r'.reassembler.firstUnassembled + R.WindowSize(r')
  {
    ReachableInv(w);
    ExecKeeps(w, evs);
    InvPromise(w);
    InvPromise(Exec(w, evs));
  }

  /** Everything either side wrote has arrived at the other, to its end. */
  predicate AllArrived(w: World) {
    && Arrived(w.a).inputEnd && Arrived(w.a).log == Written(w.b).log
    && Arrived(w.b).inputEnd && Arrived(w.b).log == Written(w.a).log
    && w.a.c.sender.finSent && S.BytesInFlight(w.a.c.sender) == 0
  }

  lemma CleanCloseMeansAll(w: World)
    requires Inv(w) && ER.CleanlyClosed(w.a.c)
    ensures AllArrived(w)
  {
    FullyAcked(w.a.c.sender, w.b.c.receiver);
    Delivered(w.b.c.sender, w.a.c.receiver);
  }

  /** Clean-close agreement: if A has closed without an error, then all that B wrote has arrived at A
      and ended, A's FIN is acknowledged, and all that A wrote has arrived at B and ended. */
  lemma CleanCloseAgrees(w: World)
    requires Reachable(w) && ER.CleanlyClosed(w.a.c)
    ensures AllArrived(w)
  {
    ReachableInv(w);
    CleanCloseMeansAll(w);
  }

  lemma NextKeepsCleanClose(w: World, ev: Event)
    requires Inv(w) && Possible(w, ev) && ER.CleanlyClosed(w.a.c) && w.a.c.sender.backup == []
    ensures ER.CleanlyClosed(Next(w, ev).a.c) && Next(w, ev).a.c.sender.backup == []
  {
    if ev.atA { ER.CleanCloseIsFinal(w.a, CallOf(ev.act)); }
  }

  lemma {:induction false} ExecKeepsCleanClose(w: World, evs: seq<Event>)
    requires Inv(w) && AllPossible(w, evs) && ER.CleanlyClosed(w.a.c) && w.a.c.sender.backup == []
    ensures ER.CleanlyClosed(Exec(w, evs).a.c)
    decreases |evs|
  {
    if evs == [] {
    } else {
      NextKeeps(w, evs[0]);
      NextKeepsCleanClose(w, evs[0]);
      ExecKeepsCleanClose(Next(w, evs[0]), evs[1..]);
    }
  }

  lemma ArrivedStays(w: World, evs: seq<Event>)
    requires Inv(w) && AllPossible(w, evs) && AllArrived(w)
    ensures AllArrived(Exec(w, evs))
  {
    ExecKeeps(w, evs);
    var w' := Exec(w, evs);
    Delivered(w'.a.c.sender, w'.b.c.receiver);
    Delivered(w'.b.c.sender, w'.a.c.receiver);
  }

  /** And that stays so, whatever happens afterwards. */
  lemma CleanCloseStays(w: World, evs: seq<Event>)
    requires Reachable(w) && AllPossible(w, evs) && ER.CleanlyClosed(w.a.c)
    ensures AllArrived(Exec(w, evs))
    ensures w.a.c.sender.backup == [] ==> ER.CleanlyClosed(Exec(w, evs).a.c)
  {
    ReachableInv(w);
    CleanCloseMeansAll(w);
    ArrivedStays(w, evs);
    if w.a.c.sender.backup == [] { ExecKeepsCleanClose(w, evs); }
  }

  /** Nothing is sent in vain: delivering any packet that covers the very number the peer waits for moves
      the peer forward, unless the number is a byte for which its window has no room. */
  lemma RetransmissionAdvances(w: World, p: Packet)
    requires Reachable(w) && p in w.a.c.sent && PossibleAtA(Swap(w), Deliver(p)) && w.b.c.active
    requires p.src.abs <= R.AbsAck(w.b.c.receiver) < S.End(p.src)
    requires R.AbsAck(w.b.c.receiver) > |SentBytes(w.a.c.sender)| || R.AbsAck(w.b.c.receiver) == 0
             || R.WindowSize(w.b.c.receiver) > 0
    ensures R.AbsAck(w.b.c.receiver) < R.AbsAck(R.SegmentReceived(w.b.c.receiver, p.wire))
  {
    ReachableInv(w);
    assert DataOk(p, w.a.c.sender, w.b.c.receiver);
    DeliveryAdvances(w.a.c.sender, w.b.c.receiver, p);
  }

  /** With streams below 2^31 bytes the only thing the network must not do is hand over an acknowledgment
      that lets the sender send past the window; only an old one that opens the window can do that. */
  lemma ShortStreamsDeliverable(w: World, p: Packet)
    requires Reachable(w) && p in w.b.c.sent
    requires |Written(w.a).log| + 2 < TWO31 && |Written(w.b).log| + 2 < TWO31
    ensures var s, h := w.a.c.sender, p.wire.header;
      && (h.rst || !h.ack || NoOverrun(s, w.b.c.receiver, p.ackAbs, h.win) ==> PossibleAtA(w, Deliver(p)))
      && (p.ackAbs >= s.absAckno || h.win <= s.windowSize ==> PossibleAtA(w, Deliver(p)))
  {
    ReachableInv(w);
    assert DataOk(p, w.b.c.sender, w.a.c.receiver);
    ShortStreamsAreTimely(w.b.c.sender, w.a.c.receiver, p, 0);
    if p.wire.header.ack {
      assert AckOk(p, w.a.c.sender, w.b.c.receiver);
      AckedWasSent(w.a.c.sender, w.b.c.receiver);
      if p.ackAbs >= w.a.c.sender.absAckno || p.wire.header.win <= w.a.c.sender.windowSize {
        FreshIsHarmless(w.a.c.sender, w.b.c.receiver, p.ackAbs, p.wire.header.win);
      }
    }
  }
}
