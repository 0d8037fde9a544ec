/** Building runs of two connections step by step. */
module Scenarios {
  import opened Connections
  import opened Endpoints
  import opened Channels
  import opened Pairs
  import opened Network

  lemma CallAtA(w0: World, w: World, call: Call, c': Conn) returns (w': World)
    requires Leads(w0, w) && !call.ReceiveCall? && Enabled(w.a.c, call) && Apply(w.a.c, call) == c'
    ensures Leads(w0, w') && w'.a.c == c' && w'.b == w.b && w' == Next(w, Event(true, Local(call)))
  {
    w' := Next(w, Event(true, Local(call)));
    LeadsOn(w0, w, Event(true, Local(call)));
    StepAppliesCall(w.a, call);
  }

  lemma CallAtB(w0: World, w: World, call: Call, c': Conn) returns (w': World)
    requires Leads(w0, w) && !call.ReceiveCall? && Enabled(w.b.c, call) && Apply(w.b.c, call) == c'
    ensures Leads(w0, w') && w'.b.c == c' && w'.a == w.a
  {
    w' := Next(w, Event(false, Local(call)));
    LeadsOn(w0, w, Event(false, Local(call)));
    StepAppliesCall(w.b, call);
  }

  lemma PacketAtA(w0: World, w: World, p: Packet, c': Conn) returns (w': World)
    requires Leads(w0, w) && p in w.b.c.sent && Deliverable(w.a.c, w.b.c, p) && SegmentReceived(w.a.c, p.wire) == c'
    ensures Leads(w0, w') && w'.a.c == c' && w'.b == w.b
  {
    w' := Next(w, Event(true, Deliver(p)));
    LeadsOn(w0, w, Event(true, Deliver(p)));
    DeliverIsReceive(w, p);
  }

  lemma PacketAtB(w0: World, w: World, p: Packet, c': Conn) returns (w': World)
    requires Leads(w0, w) && p in w.a.c.sent && Deliverable(w.b.c, w.a.c, p) && SegmentReceived(w.b.c, p.wire) == c'
    ensures Leads(w0, w') && w'.b.c == c' && w'.a == w.a
  {
    w' := Next(w, Event(false, Deliver(p)));
    LeadsOn(w0, w, Event(false, Deliver(p)));
    DeliverIsReceive(w, p);
  }
}
