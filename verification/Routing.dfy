/** Longest-prefix-match routing (section 5.2.4.3 of RFC 1812; libsponge/router.cc). */
module Routing {
  import opened Words
  import A = ArpInterface
  import I = Ipv4Codec

  datatype Route = Route(prefix: u32, length: byte, nextHop: Option<u32>, interfaceNum: nat)

  /** The comparison of the source: shifting right drops all but the first `length` bits. */
  predicate Matches(r: Route, dst: u32) {
    r.length == 0 || (r.length <= 32 && r.prefix / Pow2(32 - r.length) == dst / Pow2(32 - r.length))
  }

  /** Bit `k` of an address; bit 31 is written first. */
  function Bit(x: u32, k: nat): nat { x / Pow2(k) % 2 }

  /** Bits `n` to 31 of the two addresses agree, one by one. */
  predicate SameBits(x: u32, y: u32, n: nat) {
    forall k :: n <= k < 32 ==> Bit(x, k) == Bit(y, k)
  }

  /** What a prefix means: the first `length` bits of the two addresses agree. */
  predicate Covers(r: Route, dst: u32) {
    r.length <= 32 && SameBits(r.prefix, dst, 32 - r.length)
  }

  lemma Halves(x: nat, p: nat)
    requires p > 0
    ensures x / (2 * p) == x / p / 2
  {
    var q := x / p;
    var h, b := q / 2, q % 2;
    Regroups(h, b, p);
    Scales(b, 2, p);
    QuotientIs(x, 2 * p, h);
  }

  lemma Regroups(h: nat, b: nat, p: nat)
    ensures (2 * h + b) * p == h * (2 * p) + b * p
  {
  }

  lemma Scales(a: int, b: int, d: nat)
    ensures a < b ==> (a + 1) * d <= b * d
  {
  }

  lemma QuotientIs(x: nat, d: nat, q: nat)
    requires d > 0 && 0 <= x - q * d < d
    ensures x / d == q
  {
    var e := x / d;
    Scales(e, q, d);
    Scales(q, e, d);
  }

  /** What is left after a shift by `k`: what is left after one more, and bit `k`. */
  lemma OneBitMore(x: u32, k: nat)
    ensures x / Pow2(k) == 2 * (x / Pow2(k + 1)) + Bit(x, k)
  {
    Halves(x, Pow2(k));
  }

  lemma PowerOfAll()
    ensures Pow2(8) == 0x100 && Pow2(16) == 0x1_0000 && Pow2(24) == 0x100_0000 && Pow2(32) == TWO32
  {
  }

  lemma NoBits(x: u32)
    ensures x / Pow2(32) == 0
  {
    PowerOfAll();
    QuotientIs(x, Pow2(32), 0);
  }

  lemma {:induction false} ShiftsAgreeIff(x: u32, y: u32, n: nat)
    requires n <= 32
    ensures x / Pow2(n) == y / Pow2(n) <==> SameBits(x, y, n)
    decreases 32 - n
  {
    if n == 32 {
      NoBits(x);
      NoBits(y);
    } else {
      ShiftsAgreeIff(x, y, n + 1);
      OneBitMore(x, n);
      OneBitMore(y, n);
      assert SameBits(x, y, n) <==> SameBits(x, y, n + 1) && Bit(x, n) == Bit(y, n);
    }
  }

  /** The comparison is right: it says whether the first `length` bits agree. */
  lemma MatchesIffCovers(r: Route, dst: u32)
    ensures Matches(r, dst) <==> Covers(r, dst)
  {
    if r.length <= 32 { ShiftsAgreeIff(r.prefix, dst, 32 - r.length); }
  }

  /** A matching route replaces one that is no longer. */
  function Better(best: Option<Route>, r: Route, dst: u32): Option<Route> {
    if Matches(r, dst) && (best.None? || best.value.length <= r.length) then Some(r) else best
  }

  /** The scan of the routing table, first entry first. */
  function Scan(table: seq<Route>, dst: u32, best: Option<Route>): Option<Route>
    decreases |table|
  {
    if table == [] then best else Scan(table[1..], dst, Better(best, table[0], dst))
  }

  function Lookup(table: seq<Route>, dst: u32): Option<Route> { Scan(table, dst, None) }

  /** Entry `i` covers the address, no matching entry is longer, and none of the same length comes later. */
  predicate IsBest(table: seq<Route>, dst: u32, i: int) {
    && 0 <= i < |table| && Covers(table[i], dst)
    && forall j :: 0 <= j < |table| && Covers(table[j], dst) ==>
         table[j].length <= table[i].length && (table[j].length == table[i].length ==> j <= i)
  }

  predicate NoneMatches(table: seq<Route>, dst: u32) {
    forall j :: 0 <= j < |table| ==> !Covers(table[j], dst)
  }

  /** What the scan has found after a prefix of the table. */
  ghost predicate FoundIn(table: seq<Route>, dst: u32, best: Option<Route>) {
    if best.None? then NoneMatches(table, dst)
    else exists i :: IsBest(table, dst, i) && table[i] == best.value
  }

  lemma FoundOneMore(table: seq<Route>, dst: u32, best: Option<Route>, r: Route)
    requires FoundIn(table, dst, best)
    ensures FoundIn(table + [r], dst, Better(best, r, dst))
  {
    var longer := table + [r];
    MatchesIffCovers(r, dst);
    if Better(best, r, dst) == best {
      if best.Some? {
        var i :| IsBest(table, dst, i) && table[i] == best.value;
        if Matches(r, dst) && r.length == best.value.length {
          assert IsBest(longer, dst, |table|);
        } else {
          assert IsBest(longer, dst, i);
        }
      }
    } else {
      if best.Some? {
        var i :| IsBest(table, dst, i) && table[i] == best.value;
      }
      assert IsBest(longer, dst, |table|);
    }
  }

  lemma {:induction false} ScanFinds(done: seq<Route>, rest: seq<Route>, dst: u32, best: Option<Route>)
    requires FoundIn(done, dst, best)
    ensures FoundIn(done + rest, dst, Scan(rest, dst, best))
    decreases |rest|
  {
    if rest == [] {
      assert done + rest == done;
    } else {
      FoundOneMore(done, dst, best, rest[0]);
      ScanFinds(done + [rest[0]], rest[1..], dst, Better(best, rest[0], dst));
      assert done + [rest[0]] + rest[1..] == done + rest;
    }
  }

  /** Longest-prefix match: a route is found exactly when one matches, and it is the longest matching
      one, the last added among equals. */
  lemma LookupIsLongestMatch(table: seq<Route>, dst: u32)
    ensures Lookup(table, dst).None? <==> NoneMatches(table, dst)
    ensures Lookup(table, dst).Some? ==> exists i :: IsBest(table, dst, i) && table[i] == Lookup(table, dst).value
  {
    ScanFinds([], table, dst, None);
    assert [] + table == table;
  }

  /** There is only one such entry. */
  lemma BestIsUnique(table: seq<Route>, dst: u32, i: int, j: int)
    requires IsBest(table, dst, i) && IsBest(table, dst, j)
    ensures i == j
  {
  }

  /** What becomes of a datagram: out on an interface, with its time to live reduced, to a next hop. */
  datatype Forward = Forward(interfaceNum: nat, dgram: I.Datagram, nextHop: u32)

  function Decide(table: seq<Route>, d: I.Datagram): Option<Forward> {
    if d.header.ttl <= 1 then None
    else
      match Lookup(table, d.header.dst)
      case None => None
      case Some(r) =>
        Some(Forward(r.interfaceNum, d.(header := d.header.(ttl := d.header.ttl - 1)),
                     if r.nextHop.Some? then r.nextHop.value else d.header.dst))
  }

  /** What the source asks of a routing table. */
  predicate TableOk(table: seq<Route>, interfaces: nat) {
    forall i :: 0 <= i < |table| ==> table[i].length <= 32 && table[i].interfaceNum < interfaces
  }

  function RouteOne(table: seq<Route>, interfaces: seq<A.Interface>, d: I.Datagram): (r: seq<A.Interface>)
    ensures |r| == |interfaces|
  {
    match Decide(table, d)
    case None => interfaces
    case Some(f) =>
      if f.interfaceNum < |interfaces|
      then interfaces[f.interfaceNum := A.SendDatagram(interfaces[f.interfaceNum], f.dgram, f.nextHop)]
      else interfaces
  }

  /** Routing a sequence of datagrams, one after the other. */
  function RouteEach(table: seq<Route>, interfaces: seq<A.Interface>, ds: seq<I.Datagram>): (r: seq<A.Interface>)
    ensures |r| == |interfaces|
    decreases |ds|
  {
    if ds == [] then interfaces else RouteEach(table, RouteOne(table, interfaces, ds[0]), ds[1..])
  }

  /** The datagrams for interface `k`, in the order in which they come. */
  function For(table: seq<Route>, ds: seq<I.Datagram>, k: nat): seq<A.Waiting>
    decreases |ds|
  {
    if ds == [] then []
    else
      var f := Decide(table, ds[0]);
      (if f.Some? && f.value.interfaceNum == k then [A.Waiting(f.value.dgram, f.value.nextHop)] else [])
      + For(table, ds[1..], k)
  }

  function SendEach(s: A.Interface, ws: seq<A.Waiting>): A.Interface
    decreases |ws|
  {
    if ws == [] then s else SendEach(A.SendDatagram(s, ws[0].dgram, ws[0].nextHop), ws[1..])
  }

  /** Every datagram is handled once: each interface is given exactly the datagrams decided for it, in
      order, and nothing else. */
  lemma {:induction false} EachHandledOnce(table: seq<Route>, interfaces: seq<A.Interface>, ds: seq<I.Datagram>, k: nat)
    requires TableOk(table, |interfaces|) && k < |interfaces|
    ensures RouteEach(table, interfaces, ds)[k] == SendEach(interfaces[k], For(table, ds, k))
    decreases |ds|
  {
    if ds == [] {
    } else {
      DecidedInRange(table, ds[0], |interfaces|);
      EachHandledOnce(table, RouteOne(table, interfaces, ds[0]), ds[1..], k);
      var rest := For(table, ds[1..], k);
      var f := Decide(table, ds[0]);
      if f.Some? && f.value.interfaceNum == k {
        var ws := [A.Waiting(f.value.dgram, f.value.nextHop)] + rest;
        assert ws[1..] == rest;
      } else {
        assert [] + rest == rest;
      }
    }
  }

  lemma DecidedInRange(table: seq<Route>, d: I.Datagram, n: nat)
    requires TableOk(table, n)
    ensures Decide(table, d).Some? ==> Decide(table, d).value.interfaceNum < n
  {
    LookupIsLongestMatch(table, d.header.dst);
  }

  /** Forwarding, in full: nothing happens to a datagram exactly when its time to live is used up or no
      route matches; otherwise it goes where the longest match says, with its time to live one less. */
  lemma DecideIsLongestMatch(table: seq<Route>, d: I.Datagram)
    ensures Decide(table, d).None? <==> d.header.ttl <= 1 || NoneMatches(table, d.header.dst)
    ensures Decide(table, d).Some? ==>
      exists i :: IsBest(table, d.header.dst, i) &&
        var f := Decide(table, d).value;
        && f.interfaceNum == table[i].interfaceNum
        && f.nextHop == (if table[i].nextHop.Some? then table[i].nextHop.value else d.header.dst)
        && f.dgram == d.(header := d.header.(ttl := d.header.ttl - 1))
  {
    LookupIsLongestMatch(table, d.header.dst);
  }

  /** Routing one batch and then another is routing both. */
  lemma {:induction false} RouteEachConcat(table: seq<Route>, interfaces: seq<A.Interface>, ds: seq<I.Datagram>,
                                           es: seq<I.Datagram>)
    ensures RouteEach(table, RouteEach(table, interfaces, ds), es) == RouteEach(table, interfaces, ds + es)
    decreases |ds|
  {
    if ds == [] {
      assert ds + es == es;
    } else {
      RouteEachConcat(table, RouteOne(table, interfaces, ds[0]), ds[1..], es);
      assert (ds + es)[1..] == ds[1..] + es;
    }
  }

  /** All queued datagrams, interface by interface. */
  function AllQueued(inboxes: seq<seq<I.Datagram>>): seq<I.Datagram> {
    if inboxes == [] then [] else AllQueued(inboxes[..|inboxes| - 1]) + inboxes[|inboxes| - 1]
  }
}

module RouterImpl {
  import opened Words
  import A = ArpInterface
  import I = Ipv4Codec
  import opened Routing

  class Router {
    var interfaces: seq<A.Interface>
    var inboxes: seq<seq<I.Datagram>>
    var routingTable: seq<Route>

    ghost predicate Valid()
      reads this
    {
      |inboxes| == |interfaces|
    }

    constructor ()
      ensures Valid() && interfaces == [] && routingTable == []
    {
      interfaces, inboxes, routingTable := [], [], [];
    }

    method AddInterface(s: A.Interface) returns (n: nat)
      requires Valid()
      modifies this
      ensures Valid() && interfaces == old(interfaces) + [s] && n == |old(interfaces)|
      ensures inboxes == old(inboxes) + [[]] && routingTable == old(routingTable)
    {
      interfaces := interfaces + [s];
      inboxes := inboxes + [[]];
      n := |interfaces| - 1;
    }

    method AddRoute(prefix: u32, length: byte, nextHop: Option<u32>, interfaceNum: nat)
      requires Valid()
      modifies this`routingTable
      ensures Valid() && routingTable == old(routingTable) + [Route(prefix, length, nextHop, interfaceNum)]
    {
      routingTable := routingTable + [Route(prefix, length, nextHop, interfaceNum)];
    }

    /** The loop of `route_one_datagram`. An entry of length 0 is a wildcard. If it is met after a longer
        match, the source shifts by all 32 bits, which C++ leaves open; nothing depends on the outcome. */
    method FindRoute(dst: u32) returns (findMatch: bool, matched: Route)
      requires Valid() && TableOk(routingTable, |interfaces|)
      ensures Lookup(routingTable, dst) == if findMatch then Some(matched) else None
      ensures if findMatch then exists i :: IsBest(routingTable, dst, i) && routingTable[i] == matched
              else NoneMatches(routingTable, dst)
    {
      var maxPrelen: int := 0;
      matched := Route(0, 0, None, 0);
      findMatch := false;
      var i := 0;
      while i < |routingTable|
        invariant 0 <= i <= |routingTable|
        invariant findMatch ==> matched.length == maxPrelen
        invariant !findMatch ==> maxPrelen == 0
        invariant Scan(routingTable[i..], dst, if findMatch then Some(matched) else None) == Lookup(routingTable, dst)
      {
        var entry := routingTable[i];
        assert routingTable[i..][0] == entry && routingTable[i..][1..] == routingTable[i + 1..];
        if entry.length == 0 && maxPrelen <= entry.length {
          findMatch, maxPrelen, matched := true, entry.length, entry;
        } else {
          var same: bool := *;
          if entry.length > 0 {
            same := entry.prefix / Pow2(32 - entry.length) == dst / Pow2(32 - entry.length);
          }
          if same && maxPrelen <= entry.length {
            findMatch, maxPrelen, matched := true, entry.length, entry;
          }
        }
        i := i + 1;
      }
      LookupIsLongestMatch(routingTable, dst);
    }

    method RouteOneDatagram(dgram: I.Datagram)
      requires Valid() && TableOk(routingTable, |interfaces|)
      modifies this`interfaces
      ensures Valid() && |interfaces| == |old(interfaces)|
      ensures interfaces == RouteOne(routingTable, old(interfaces), dgram)
    {
      if dgram.header.ttl == 0 {
        return;
      }
      var d := dgram.(header := dgram.header.(ttl := dgram.header.ttl - 1));
      if d.header.ttl == 0 {
        return;
      }
      var findMatch, matched := FindRoute(d.header.dst);
      if !findMatch {
        return;
      }
      DecidedInRange(routingTable, dgram, |interfaces|);
      var n := matched.interfaceNum;
      var hop := if matched.nextHop.Some? then matched.nextHop.value else d.header.dst;
      interfaces := interfaces[n := A.SendDatagram(interfaces[n], d, hop)];
    }

    /** Empty the queue of interface `i`. */
    method RouteQueue(i: nat)
      requires Valid() && TableOk(routingTable, |interfaces|) && i < |inboxes|
      modifies this`interfaces, this`inboxes
      ensures Valid() && |interfaces| == |old(interfaces)|
      ensures interfaces == RouteEach(routingTable, old(interfaces), old(inboxes)[i])
      ensures inboxes == old(inboxes)[i := []]
    {
      ghost var end := RouteEach(routingTable, interfaces, inboxes[i]);
      while inboxes[i] != []
        invariant Valid() && TableOk(routingTable, |interfaces|)
        invariant i < |inboxes| == |old(inboxes)| && inboxes == old(inboxes)[i := inboxes[i]]
        invariant RouteEach(routingTable, interfaces, inboxes[i]) == end
        decreases |inboxes[i]|
      {
        RouteOneDatagram(inboxes[i][0]);
        inboxes := inboxes[i := inboxes[i][1..]];
      }
    }

    method RouteAll()
      requires Valid() && TableOk(routingTable, |interfaces|)
      modifies this`interfaces, this`inboxes
      ensures Valid() && interfaces == RouteEach(routingTable, old(interfaces), AllQueued(old(inboxes)))
      ensures forall i :: 0 <= i < |inboxes| ==> inboxes[i] == []
    {
      var i := 0;
      while i < |inboxes|
        invariant 0 <= i <= |inboxes| == |old(inboxes)| && Valid() && TableOk(routingTable, |interfaces|)
        invariant interfaces == RouteEach(routingTable, old(interfaces), AllQueued(old(inboxes)[..i]))
        invariant forall j :: 0 <= j < i ==> inboxes[j] == []
        invariant forall j :: i <= j < |inboxes| ==> inboxes[j] == old(inboxes)[j]
      {
        RouteQueue(i);
        ghost var done := old(inboxes)[..i + 1];
        assert done[..i] == old(inboxes)[..i];
        RouteEachConcat(routingTable, old(interfaces), AllQueued(done[..i]), done[i]);
        i := i + 1;
      }
      assert old(inboxes)[..i] == old(inboxes);
    }
  }
}
