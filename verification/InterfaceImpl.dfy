/** The network interface as the source keeps it: queues and two tables, updated in place. */
module InterfaceImpl {
  import opened Words
  import A = ArpInterface
  import I = Ipv4Codec

  /** A non-empty set has an element. */
  lemma SomeKey(s: set<u32>)
    requires s != {}
    ensures exists k :: k in s
  {
  }

  class NetworkInterface {
    const mac: A.EthernetAddress
    const ip: u32
    var framesOut: seq<A.Frame>
    var framesWaited: seq<A.Waiting>
    var ipMap: map<u32, A.Mapping>
    var arpTimer: map<u32, nat>

    ghost function Model(): A.Interface
      reads this
    {
      A.Interface(mac, ip, framesOut, framesWaited, ipMap, arpTimer)
    }

    constructor (mac: A.EthernetAddress, ip: u32)
      ensures Model() == A.New(mac, ip)
    {
      this.mac, this.ip := mac, ip;
      framesOut, framesWaited, ipMap, arpTimer := [], [], map[], map[];
    }

    method SendArp(opcode: u16, targetMac: A.EthernetAddress, targetIp: u32)
      modifies this`framesOut
      ensures Model() == A.Push(old(Model()), A.ArpFrame(old(Model()), opcode, targetMac, targetIp))
    {
      var msg := A.ArpMessage(opcode, mac, ip, 0, targetIp);
      if opcode == A.OPCODE_REPLY { msg := msg.(targetMac := targetMac); }
      framesOut := framesOut + [A.Frame(targetMac, mac, A.ArpPayload(msg))];
    }

    method SendFrame(dgram: I.Datagram, dst: A.EthernetAddress)
      modifies this`framesOut
      ensures Model() == A.Push(old(Model()), A.IpFrame(old(Model()), dgram, dst))
    {
      framesOut := framesOut + [A.Frame(dst, mac, A.IpPayload(dgram))];
    }

    method SendDatagram(dgram: I.Datagram, nextHop: u32)
      modifies this
      ensures Model() == A.SendDatagram(old(Model()), dgram, nextHop)
    {
      if nextHop in ipMap {
        SendFrame(dgram, ipMap[nextHop].mac);
      } else {
        framesWaited := framesWaited + [A.Waiting(dgram, nextHop)];
        if nextHop in arpTimer {
          return;
        }
        SendArp(A.OPCODE_REQUEST, A.ETHERNET_BROADCAST, nextHop);
        arpTimer := arpTimer[nextHop := 0];
      }
    }

    method RecvFrame(frame: A.Frame) returns (r: Option<I.Datagram>)
      modifies this
      ensures Model() == A.RecvFrame(old(Model()), frame) && r == A.Received(old(Model()), frame)
    {
      if frame.dst != mac && frame.dst != A.ETHERNET_BROADCAST {
        return None;
      }
      if frame.payload.IpPayload? {
        return Some(frame.payload.dgram);
      }
      if frame.payload.ArpPayload? {
        var msg := frame.payload.msg;
        ipMap := ipMap[msg.senderIp := A.Mapping(msg.senderMac, 0)];
        if msg.opcode == A.OPCODE_REQUEST && msg.targetIp == ip {
          SendArp(A.OPCODE_REPLY, msg.senderMac, msg.senderIp);
        }
        Release();
      }
      return None;
    }

    /** The loop of `recv_frame`: send waiting datagrams from the front while their next hop is known. */
    method Release()
      modifies this`framesOut, this`framesWaited
      ensures Model() == A.Release(old(Model()))
    {
      ghost var end := A.Release(Model());
      while framesWaited != []
        invariant A.Release(Model()) == end
        decreases |framesWaited|
      {
        var front := framesWaited[0];
        if front.nextHop in ipMap {
          SendFrame(front.dgram, ipMap[front.nextHop].mac);
          framesWaited := framesWaited[1..];
        } else {
          break;
        }
      }
    }

    method Tick(ms: nat)
      modifies this
      ensures Model() == A.Tick(old(Model()), ms)
    {
      AgeMappings(ms);
      AgeTimers(ms);
    }

    /** The first loop of `tick`: age every mapping, and erase it when it is too old. */
    method AgeMappings(ms: nat)
      modifies this`ipMap
      ensures ipMap == A.Age(old(ipMap), ms)
    {
      var todo := ipMap.Keys;
      while todo != {}
        invariant todo <= ipMap.Keys <= old(ipMap).Keys
        invariant forall k :: k in todo ==> ipMap[k] == old(ipMap)[k]
        invariant forall k :: k in old(ipMap) && k !in todo ==>
                    (k in ipMap <==> old(ipMap)[k].age + ms <= A.MAPPING_TIME_LIMIT)
        invariant forall k :: k in ipMap && k !in todo ==>
                    ipMap[k] == A.Mapping(old(ipMap)[k].mac, old(ipMap)[k].age + ms)
        decreases |todo|
      {
        SomeKey(todo);
        var k :| k in todo;
        var age := ipMap[k].age + ms;
        if age > A.MAPPING_TIME_LIMIT {
          ipMap := ipMap - {k};
        } else {
          ipMap := ipMap[k := A.Mapping(ipMap[k].mac, age)];
        }
        todo := todo - {k};
      }
    }

    /** The second loop of `tick`: the same for the times since the last request. */
    method AgeTimers(ms: nat)
      modifies this`arpTimer
      ensures arpTimer == A.AgeTimer(old(arpTimer), ms)
    {
      var todo := arpTimer.Keys;
      while todo != {}
        invariant todo <= arpTimer.Keys <= old(arpTimer).Keys
        invariant forall k :: k in todo ==> arpTimer[k] == old(arpTimer)[k]
        invariant forall k :: k in old(arpTimer) && k !in todo ==>
                    (k in arpTimer <==> old(arpTimer)[k] + ms <= A.ARP_TIME)
        invariant forall k :: k in arpTimer && k !in todo ==> arpTimer[k] == old(arpTimer)[k] + ms
        decreases |todo|
      {
        SomeKey(todo);
        var k :| k in todo;
        var age := arpTimer[k] + ms;
        if age > A.ARP_TIME {
          arpTimer := arpTimer - {k};
        } else {
          arpTimer := arpTimer[k := age];
        }
        todo := todo - {k};
      }
    }
  }
}
