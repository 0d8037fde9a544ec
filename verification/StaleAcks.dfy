/** What an old acknowledgment can do: a run in which every delivery but one is harmless, and which
    ends with wrong bytes in the reader's stream. The receiver at B holds two bytes. */
module StaleAcks {
  import opened Words
  import opened SequenceNumbers
  import opened ByteStreams
  import Timers
  import opened Segments
  import opened Reassembly
  import opened Channels
  import opened Connections
  import opened Endpoints
  import opened Pairs
  import opened Network
  import opened Scenarios
  import LongRuns
  import S = Sending
  import R = Receiving

  // The two senders; both initial numbers are 0. B has nothing to send.

  const RUNNING: Timers.TimerData := Timers.Start(1000)
  const OFF: Timers.TimerData := Timers.Stop(RUNNING)

  function Data(abs: nat, payload: seq<byte>): S.OutSeg { S.OutSeg(abs, false, false, false, payload) }

  function Stream10(log: seq<byte>): Stream { StreamData(10, log, |log|, false, false) }

  function Snd(backup: seq<S.OutSeg>, log: seq<byte>, ack: nat, win: u16, timer: Timers.TimerData): S.Sender {
    S.Sender(0, [], backup, 1000, 1000, 0, Stream10(log), 1 + |log|, ack, win, true, false, timer)
  }

  lemma WrapZero(v: nat)
    requires v < TWO32
    ensures Wrap(v, 0) == v
  {
  }

  /** The only outstanding segment is acknowledged. */
  lemma OneAcked(g: S.OutSeg, log: seq<byte>, win: u16, win': u16)
    requires S.End(g) == 1 + |log| && S.Len(g) > 0 && |log| <= 5
    ensures S.AckReceived(Snd([g], log, g.abs, win, RUNNING), 1 + |log|, win') == Snd([], log, 1 + |log|, win', OFF)
  {
    WrapZero(1 + |log|);
    LongRuns.AckOfOnly(Snd([g], log, g.abs, win, RUNNING), g, 1 + |log|, win');
  }

  /** An acknowledgment of nothing new. */
  lemma OldAck(log: seq<byte>, a: nat, win: u16, win': u16)
    requires a <= 1 + |log| <= 5
    ensures S.AckReceived(Snd([], log, 1 + |log|, win, OFF), a, win') == Snd([], log, 1 + |log|, win', OFF)
  {
    RoundTripIff(a, 0, 1 + |log|);
  }

  lemma PopsBoth()
    ensures S.PopAcked([Data(3, [3]), Data(4, [4])], 0, 5) == []
  {
    var q := [Data(3, [3]), Data(4, [4])];
    S.SegAckedIff(q[0], 0, 5);
    LongRuns.PopsOnly(q[1], 0, 5);
    assert q[1..] == [q[1]];
  }

  /** Both of two segments are acknowledged. */
  lemma BothAcked()
    ensures S.AckReceived(Snd([Data(3, [3]), Data(4, [4])], [1, 2, 3, 4], 3, 2, RUNNING), 5, 0)
         == Snd([], [1, 2, 3, 4], 5, 0, OFF)
  {
    var s := Snd([Data(3, [3]), Data(4, [4])], [1, 2, 3, 4], 3, 2, RUNNING);
    WrapZero(5);
    LongRuns.MovesTo(s, 5);
    PopsBoth();
  }

  function WithData(s: S.Sender, data: seq<byte>): S.Sender { s.(stream := ByteStreams.Write(s.stream, data)) }

  /** Writing what fits the window. */
  lemma Writes(q: seq<S.OutSeg>, log: seq<byte>, ack: nat, win: u16, timer: Timers.TimerData, data: seq<byte>)
    requires 0 < |data| <= 2 && ack + Max(win, 1) >= 1 + |log| + |data| && ack <= 1 + |log| && |log| <= 5
    requires timer == if q == [] then OFF else RUNNING
    ensures S.FillWindow(WithData(Snd(q, log, ack, win, timer), data))
         == Snd(q + [Data(1 + |log|, data)], log + data, ack, win, RUNNING).(out := [Data(1 + |log|, data)])
  {
    var s := Snd(q, log, ack, win, timer);
    var s1 := WithData(s, data);
    assert Buffer(s1.stream) == data;
    var fill := S.FillSize(s1);
    var g := S.NextSegment(s1, fill);
    assert g == Data(1 + |log|, data);
    var s2 := S.Emit(S.AfterRead(s1, fill), g);
    assert s2 == Snd(q + [g], log + data, ack, win, RUNNING).(out := [g]);
    assert S.FillLoop(s2, fill - |data|) == s2;
  }

  // The two receivers. B's holds two bytes, A's a thousand, of which it needs none.

  function Re(capacity: nat, log: seq<byte>, read: nat, next: nat, buffer: seq<Chunk>): Reassembler
    requires read <= |log| <= read + capacity
  {
    Reassembler(StreamData(capacity, log, read, false, false), false, 0, buffer, next)
  }

  function Rcv(re: Reassembler): R.Receiver
    requires re.firstUnassembled <= 5
  {
    R.Receiver(re, Some(0), Some(1 + re.firstUnassembled))
  }

  const EMPTY: Reassembler := Re(2, [], 0, 0, [])

  const FRESH: Reassembler := Re(1000, [], 0, 0, [])

  /** A SYN that comes again is stored as an empty string at the last index of all. */
  const STALE: Reassembler := Re(1000, [], 0, 0, [Chunk(TWO64 - 1, [])])

  lemma PushNothing(buffer: seq<Chunk>)
    requires buffer == [] || buffer == [Chunk(TWO64 - 1, [])]
    ensures Push(Re(1000, [], 0, 0, buffer), [], 0, false) == Re(1000, [], 0, 0, buffer)
  {
  }

  lemma PushSynAgain()
    ensures Push(FRESH, [], TWO64 - 1, false) == STALE
  {
  }

  lemma PushFirst()
    ensures Push(EMPTY, [1, 2], 0, false) == Re(2, [1, 2], 0, 2, [])
  {
  }

  lemma PushPast()
    ensures Push(Re(2, [1, 2], 0, 2, []), [4], 3, false) == Re(2, [1, 2], 0, 2, [Chunk(3, [4])])
  {
    assert To64(2 - 3) == TWO64 - 1;
    assert Truncate(Re(2, [1, 2], 0, 2, []), [4], 3) == [4];
  }

  lemma PushMissing()
    ensures Push(Re(2, [1, 2], 1, 2, [Chunk(3, [4])]), [3], 2, false) == Re(2, [1, 2, 3], 1, 4, [])
  {
    var re := Re(2, [1, 2], 1, 2, [Chunk(3, [4])]);
    var re1 := PushOne(re, [3], 2);
    assert re1 == Re(2, [1, 2, 3], 1, 3, [Chunk(3, [4])]);
    assert DrainStep(re1, 0) == Re(2, [1, 2, 3], 1, 4, []);
  }

  lemma PushLast()
    ensures Push(Re(2, [1, 2, 3], 3, 4, []), [5], 4, false) == Re(2, [1, 2, 3, 5], 3, 5, [])
  {
  }

  lemma Index(re: Reassembler, abs: nat)
    requires re.firstUnassembled <= 5 && abs <= 6
    ensures R.StreamIndex(Rcv(re), abs, 0) == if abs == 0 then TWO64 - 1 else abs - 1
  {
    WrapZero(abs);
    RoundTripIff(abs, 0, re.firstUnassembled);
  }

  lemma Steps(re: Reassembler, re': Reassembler)
    requires re.firstUnassembled <= 5 && re'.firstUnassembled <= 5 && !re'.hasEof
    ensures R.Stepped(Rcv(re), re', 0) == Rcv(re')
  {
    WrapZero(1 + re'.firstUnassembled);
  }

  /** What a segment does to a receiver, if one knows what the push does to its reassembler. */
  lemma Receives(re: Reassembler, seg: TCPSegment, re': Reassembler)
    requires re.firstUnassembled <= 5 && re'.firstUnassembled <= 5 && !re'.hasEof
    requires seg.header.seqno <= 6 && !seg.header.fin
    requires Push(re, seg.payload, if seg.header.seqno == 0 then TWO64 - 1 else seg.header.seqno - 1, false) == re'
    ensures R.SegmentReceived(Rcv(re), seg) == Rcv(re')
  {
    R.ReceiveSteps(Rcv(re), seg, 0);
    Index(re, seg.header.seqno);
    Steps(re, re');
  }

  lemma ReceivesSyn(capacity: nat, seg: TCPSegment)
    requires seg.header.syn && seg.header.seqno == 0 && seg.payload == [] && !seg.header.fin
    ensures R.SegmentReceived(R.New(capacity), seg) == Rcv(Re(capacity, [], 0, 0, []))
  {
  }

  // The calls

  function Cn(s: S.Sender, r: R.Receiver, sent: seq<Packet>): Conn {
    Conn(s, r, sent, 1000, true, false, 0, true)
  }

  function PacketOf(r: R.Receiver, g: S.OutSeg): Packet { Packet(g, R.AbsAck(r), Stamp(r, S.Wire(0, g))) }

  lemma Greets()
    ensures Connect(Connections.New(Config(1000, 1000, 10, 0)))
         == Cn(Snd([S.SYN_SEGMENT], [], 0, 1, RUNNING), R.New(1000), [PacketOf(R.New(1000), S.SYN_SEGMENT)])
  {
  }

  /** B answers the SYN with its own. */
  lemma GreetsBack(seg: TCPSegment)
    requires seg == PacketOf(R.New(1000), S.SYN_SEGMENT).wire
    ensures SegmentReceived(Connections.New(Config(1000, 2, 10, 0)), seg)
         == Cn(Snd([S.SYN_SEGMENT], [], 0, 1, RUNNING), Rcv(EMPTY), [PacketOf(Rcv(EMPTY), S.SYN_SEGMENT)])
  {
    ReceivesSyn(2, seg);
  }

  /** An acknowledgment arrives; if its segment occupies numbers, it is answered. */
  lemma Hears(s: S.Sender, r: R.Receiver, sent: seq<Packet>, seg: TCPSegment, s': S.Sender, r': R.Receiver)
    requires s.out == [] && s.isn == 0 && seg.header.ack && !seg.header.rst
    requires S.AckReceived(s, seg.header.ackno, seg.header.win) == s'
    requires R.SegmentReceived(r, seg) == r' && !R.Output(r').inputEnd
    requires LengthInSequenceSpace(seg) > 0 || !KeepAlive(Cn(s', r', sent), seg)
    ensures SegmentReceived(Cn(s, r, sent), seg)
         == Cn(s', r', if LengthInSequenceSpace(seg) == 0 then sent else sent + [PacketOf(r', Data(s'.nextSeqno, []))])
  {
    var c := Cn(s', r', sent);
    assert HandToSender(HandToReceiver(Cn(s, r, sent), seg), seg) == c;
    assert NoteLinger(c) == c;
  }

  lemma Says(s: S.Sender, r: R.Receiver, sent: seq<Packet>, data: seq<byte>, s': S.Sender, g: S.OutSeg)
    requires s.isn == 0 && S.FillWindow(WithData(s, data)) == s'.(out := [g]) && s'.isn == 0 && s'.out == []
    ensures Connections.Write(Cn(s, r, sent), data) == Cn(s', r, sent + [PacketOf(r, g)])
  {
  }

  /** Writing, all in one. */
  lemma SaysData(q: seq<S.OutSeg>, log: seq<byte>, ack: nat, win: u16, timer: Timers.TimerData, data: seq<byte>,
                 r: R.Receiver, sent: seq<Packet>)
    requires 0 < |data| <= 2 && ack + Max(win, 1) >= 1 + |log| + |data| && ack <= 1 + |log| && |log| <= 5
    requires timer == if q == [] then OFF else RUNNING
    ensures Connections.Write(Cn(Snd(q, log, ack, win, timer), r, sent), data)
         == Cn(Snd(q + [Data(1 + |log|, data)], log + data, ack, win, RUNNING), r,
               sent + [PacketOf(r, Data(1 + |log|, data))])
  {
    var g := Data(1 + |log|, data);
    Writes(q, log, ack, win, timer, data);
    Says(Snd(q, log, ack, win, timer), r, sent, data, Snd(q + [g], log + data, ack, win, RUNNING), g);
  }

  /** What A's data segments look like, and B's answers when B has no room. */
  function DataPacket(abs: nat, payload: seq<byte>): Packet
    requires abs <= 6
  {
    var header := DEFAULT_HEADER.(seqno := abs, ack := true, ackno := 1, win := 1000);
    Packet(Data(abs, payload), 1, TCPSegment(header, payload))
  }

  function FullReply(ackno: nat): Packet
    requires ackno <= 6
  {
    Packet(Data(1, []), ackno, TCPSegment(DEFAULT_HEADER.(seqno := 1, ack := true, ackno := ackno, win := 0), []))
  }

  lemma IsDataPacket(abs: nat, payload: seq<byte>)
    requires abs <= 6
    ensures PacketOf(Rcv(STALE), Data(abs, payload)) == DataPacket(abs, payload)
  {
    WrapZero(abs);
  }

  lemma IsFullReply(re: Reassembler)
    requires re.firstUnassembled <= 5 && !re.output.inputEnd && Remaining(re.output) == 0
    ensures PacketOf(Rcv(re), Data(1, [])) == FullReply(1 + re.firstUnassembled)
  {
    WrapZero(1);
  }

  /** B hears data, with an acknowledgment that is no news. */
  lemma HearsData(r: R.Receiver, sent: seq<Packet>, abs: nat, payload: seq<byte>, r': R.Receiver)
    requires 1 <= abs <= 5 && payload != [] && !R.Output(r').inputEnd
    requires R.SegmentReceived(r, DataPacket(abs, payload).wire) == r'
    ensures SegmentReceived(Cn(Snd([], [], 1, 1000, OFF), r, sent), DataPacket(abs, payload).wire)
         == Cn(Snd([], [], 1, 1000, OFF), r', sent + [PacketOf(r', Data(1, []))])
  {
    OldAck([], 1, 1000, 1000);
    Hears(Snd([], [], 1, 1000, OFF), r, sent, DataPacket(abs, payload).wire, Snd([], [], 1, 1000, OFF), r');
  }

  lemma DataDeliverable(re: Reassembler, sent: seq<Packet>, d: Conn, abs: nat, payload: seq<byte>)
    requires re.firstUnassembled <= 5 && abs <= 6 && d.receiver == Rcv(STALE)
    ensures Deliverable(Cn(Snd([], [], 1, 1000, OFF), Rcv(re), sent), d, DataPacket(abs, payload))
  {
  }

  /** A hears that B has no room; it has no use for what B's stream holds. */
  lemma HearsReply(s: S.Sender, buffer: seq<Chunk>, sent: seq<Packet>, ackno: nat, s': S.Sender)
    requires s.out == [] && s.isn == 0 && (buffer == [] || buffer == [Chunk(TWO64 - 1, [])]) && ackno <= 6
    requires S.AckReceived(s, ackno, 0) == s'
    ensures SegmentReceived(Cn(s, Rcv(Re(1000, [], 0, 0, buffer)), sent), FullReply(ackno).wire)
         == Cn(s', Rcv(Re(1000, [], 0, 0, buffer)), sent)
  {
    var re, seg := Re(1000, [], 0, 0, buffer), FullReply(ackno).wire;
    PushNothing(buffer);
    Receives(re, seg, re);
    Hears(s, Rcv(re), sent, seg, s', Rcv(re));
  }

  // The states the run goes through. What A sends is P0 to P6, what B sends Q0 to Q3.

  const HELD: Reassembler := Re(2, [1, 2], 0, 2, [])
  const PAST: Reassembler := Re(2, [1, 2], 0, 2, [Chunk(3, [4])])
  const READ: Reassembler := Re(2, [1, 2], 1, 2, [Chunk(3, [4])])
  const LOST: Reassembler := Re(2, [1, 2, 3], 1, 4, [])
  const DONE: Reassembler := Re(2, [1, 2, 3], 3, 4, [])
  const WRONG: Reassembler := Re(2, [1, 2, 3, 5], 3, 5, [])

  const P0: Packet := PacketOf(R.New(1000), S.SYN_SEGMENT)
  const Q0: Packet := PacketOf(Rcv(EMPTY), S.SYN_SEGMENT)
  const P1: Packet := PacketOf(Rcv(FRESH), Data(1, []))
  const P2: Packet := PacketOf(Rcv(FRESH), Data(1, [1, 2]))
  const Q1: Packet := PacketOf(Rcv(HELD), Data(1, []))
  const P3: Packet := PacketOf(Rcv(STALE), Data(3, []))
  const P4: Packet := PacketOf(Rcv(STALE), Data(3, [3]))
  const P5: Packet := PacketOf(Rcv(STALE), Data(4, [4]))
  const Q2: Packet := PacketOf(Rcv(PAST), Data(1, []))
  const Q3: Packet := PacketOf(Rcv(LOST), Data(1, []))
  const P6: Packet := PacketOf(Rcv(STALE), Data(5, [5]))
  const Q4: Packet := PacketOf(Rcv(WRONG), Data(1, []))

  const A0: Conn := Connections.New(Config(1000, 1000, 10, 0))
  const A1: Conn := Cn(Snd([S.SYN_SEGMENT], [], 0, 1, RUNNING), R.New(1000), [P0])
  const A2: Conn := Cn(Snd([], [], 1, 2, OFF), Rcv(FRESH), [P0, P1])
  const A3: Conn := Cn(Snd([Data(1, [1, 2])], [1, 2], 1, 2, RUNNING), Rcv(FRESH), [P0, P1, P2])
  const A4: Conn := Cn(Snd([], [1, 2], 3, 0, OFF), Rcv(FRESH), [P0, P1, P2])
  const A5: Conn := Cn(Snd([], [1, 2], 3, 2, OFF), Rcv(STALE), [P0, P1, P2, P3])
  const A6: Conn := Cn(Snd([Data(3, [3])], [1, 2, 3], 3, 2, RUNNING), Rcv(STALE), [P0, P1, P2, P3, P4])
  const A7: Conn :=
    Cn(Snd([Data(3, [3]), Data(4, [4])], [1, 2, 3, 4], 3, 2, RUNNING), Rcv(STALE), [P0, P1, P2, P3, P4, P5])
  const A8: Conn := Cn(Snd([], [1, 2, 3, 4], 5, 0, OFF), Rcv(STALE), [P0, P1, P2, P3, P4, P5])
  const A9: Conn := Cn(Snd([Data(5, [5])], [1, 2, 3, 4, 5], 5, 0, RUNNING), Rcv(STALE), [P0, P1, P2, P3, P4, P5, P6])

  const B0: Conn := Connections.New(Config(1000, 2, 10, 0))
  const B1: Conn := Cn(Snd([S.SYN_SEGMENT], [], 0, 1, RUNNING), Rcv(EMPTY), [Q0])
  const B2: Conn := Cn(Snd([], [], 1, 1000, OFF), Rcv(HELD), [Q0, Q1])
  const B3: Conn := Cn(Snd([], [], 1, 1000, OFF), Rcv(PAST), [Q0, Q1, Q2])
  const B4: Conn := Cn(Snd([], [], 1, 1000, OFF), Rcv(READ), [Q0, Q1, Q2])
  const B5: Conn := Cn(Snd([], [], 1, 1000, OFF), Rcv(LOST), [Q0, Q1, Q2, Q3])
  const B6: Conn := Cn(Snd([], [], 1, 1000, OFF), Rcv(DONE), [Q0, Q1, Q2, Q3])
  const B7: Conn := Cn(Snd([], [], 1, 1000, OFF), Rcv(WRONG), [Q0, Q1, Q2, Q3, Q4])

  lemma ToB1()
    ensures SegmentReceived(B0, P0.wire) == B1 && Deliverable(B0, A1, P0)
  {
    GreetsBack(P0.wire);
  }

  lemma ToA2()
    ensures SegmentReceived(A1, Q0.wire) == A2 && Deliverable(A1, B1, Q0)
  {
    ReceivesSyn(1000, Q0.wire);
    OneAcked(S.SYN_SEGMENT, [], 1, 2);
    Hears(A1.sender, A1.receiver, A1.sent, Q0.wire, A2.sender, A2.receiver);
  }

  lemma ToA3()
    ensures Connections.Write(A2, [1, 2]) == A3
  {
    SaysData([], [], 1, 2, OFF, [1, 2], Rcv(FRESH), [P0, P1]);
  }

  lemma ToA4()
    ensures SegmentReceived(A3, Q1.wire) == A4 && Deliverable(A3, B2, Q1)
  {
    OneAcked(Data(1, [1, 2]), [1, 2], 2, 0);
    IsFullReply(HELD);
    HearsReply(A3.sender, [], A3.sent, 3, A4.sender);
  }

  lemma ToA5()
    ensures SegmentReceived(A4, Q0.wire) == A5
  {
    PushSynAgain();
    Receives(FRESH, Q0.wire, STALE);
    OldAck([1, 2], 1, 0, 2);
    Hears(A4.sender, A4.receiver, A4.sent, Q0.wire, A5.sender, A5.receiver);
  }

  lemma ToA6()
    ensures Connections.Write(A5, [3]) == A6
  {
    SaysData([], [1, 2], 3, 2, OFF, [3], Rcv(STALE), [P0, P1, P2, P3]);
  }

  lemma ToA7()
    ensures Connections.Write(A6, [4]) == A7
  {
    SaysData([Data(3, [3])], [1, 2, 3], 3, 2, RUNNING, [4], Rcv(STALE), [P0, P1, P2, P3, P4]);
  }

  lemma ToA8()
    ensures SegmentReceived(A7, Q3.wire) == A8 && Deliverable(A7, B6, Q3)
  {
    BothAcked();
    IsFullReply(LOST);
    HearsReply(A7.sender, STALE.buffer, A7.sent, 5, A8.sender);
  }

  lemma ToA9()
    ensures Connections.Write(A8, [5]) == A9
  {
    SaysData([], [1, 2, 3, 4], 5, 0, OFF, [5], Rcv(STALE), [P0, P1, P2, P3, P4, P5]);
  }

  lemma ToB2()
    ensures SegmentReceived(B1, P2.wire) == B2 && Deliverable(B1, A3, P2)
  {
    PushFirst();
    Receives(EMPTY, P2.wire, HELD);
    OneAcked(S.SYN_SEGMENT, [], 1, 1000);
    Hears(B1.sender, B1.receiver, B1.sent, P2.wire, B2.sender, B2.receiver);
  }

  lemma ToB3()
    ensures SegmentReceived(B2, P5.wire) == B3 && Deliverable(B2, A7, P5)
  {
    PushPast();
    IsDataPacket(4, [4]);
    Receives(HELD, DataPacket(4, [4]).wire, PAST);
    HearsData(Rcv(HELD), [Q0, Q1], 4, [4], Rcv(PAST));
    DataDeliverable(HELD, [Q0, Q1], A7, 4, [4]);
  }

  lemma ToB4()
    ensures Connections.Read(B3, 1) == B4
  {
  }

  lemma ToB5()
    ensures SegmentReceived(B4, P4.wire) == B5 && Deliverable(B4, A7, P4)
  {
    PushMissing();
    IsDataPacket(3, [3]);
    Receives(READ, DataPacket(3, [3]).wire, LOST);
    HearsData(Rcv(READ), [Q0, Q1, Q2], 3, [3], Rcv(LOST));
    DataDeliverable(READ, [Q0, Q1, Q2], A7, 3, [3]);
  }

  lemma ToB6()
    ensures Connections.Read(B5, 2) == B6
  {
  }

  lemma ToB7()
    ensures SegmentReceived(B6, P6.wire) == B7 && Deliverable(B6, A9, P6)
  {
    PushLast();
    IsDataPacket(5, [5]);
    Receives(DONE, DataPacket(5, [5]).wire, WRONG);
    HearsData(Rcv(DONE), [Q0, Q1, Q2, Q3], 5, [5], Rcv(WRONG));
    DataDeliverable(DONE, [Q0, Q1, Q2, Q3], A9, 5, [5]);
  }

  // The run

  /** Some run leads from `w0` to a world `w` with these two connections. */
  ghost predicate At(w0: World, w: World, a: Conn, b: Conn) {
    Leads(w0, w) && w.a.c == a && w.b.c == b
  }

  lemma Handshake(w0: World, w: World) returns (w': World)
    requires At(w0, w, A0, B0)
    ensures At(w0, w', A2, B1)
  {
    Greets();
    w' := CallAtA(w0, w, ConnectCall, A1);
    ToB1();
    w' := PacketAtB(w0, w', P0, B1);
    ToA2();
    w' := PacketAtA(w0, w', Q0, A2);
  }

  lemma FillsB(w0: World, w: World) returns (w': World)
    requires At(w0, w, A2, B1)
    ensures At(w0, w', A4, B2)
  {
    ToA3();
    w' := CallAtA(w0, w, WriteCall([1, 2]), A3);
    ToB2();
    w' := PacketAtB(w0, w', P2, B2);
    ToA4();
    w' := PacketAtA(w0, w', Q1, A4);
  }

  lemma Oversends(w0: World, w: World) returns (w': World)
    requires At(w0, w, A5, B2)
    ensures At(w0, w', A7, B3)
  {
    ToA6();
    w' := CallAtA(w0, w, WriteCall([3]), A6);
    ToA7();
    w' := CallAtA(w0, w', WriteCall([4]), A7);
    ToB3();
    w' := PacketAtB(w0, w', P5, B3);
  }

  lemma LosesByte(w0: World, w: World) returns (w': World)
    requires At(w0, w, A7, B3)
    ensures At(w0, w', A7, B6)
  {
    ToB4();
    w' := CallAtB(w0, w, ReadCall(1), B4);
    ToB5();
    w' := PacketAtB(w0, w', P4, B5);
    ToB6();
    w' := CallAtB(w0, w', ReadCall(2), B6);
  }

  lemma GoesOn(w0: World, w: World) returns (w': World)
    requires At(w0, w, A7, B6)
    ensures At(w0, w', A9, B7)
  {
    ToA8();
    w' := PacketAtA(w0, w, Q3, A8);
    ToA9();
    w' := CallAtA(w0, w', WriteCall([5]), A9);
    ToB7();
    w' := PacketAtB(w0, w', P6, B7);
  }

  /** Everything before the old acknowledgment: B has both bytes, and A knows that B has no room. */
  lemma Before() returns (w: World)
    ensures Reachable(w) && w.a.c == A4 && w.b.c == B2
  {
    var cfg, cfg' := Config(1000, 1000, 10, 0), Config(1000, 2, 10, 0);
    var w0 := Init(cfg, cfg');
    LeadsToItself(w0);
    w := Handshake(w0, w0);
    w := FillsB(w0, w);
    LeadsIsReachable(cfg, cfg', w);
  }

  /** Everything after it. */
  lemma After(w0: World) returns (w: World)
    requires w0.a.c == A5 && w0.b.c == B2
    ensures At(w0, w, A9, B7)
  {
    LeadsToItself(w0);
    w := Oversends(w0, w0);
    w := LosesByte(w0, w);
    w := GoesOn(w0, w);
  }

  /** `q` is an old acknowledgment that lets the sender send past the window, and that is all that is wrong
      with it. */
  predicate Overruns(c: Conn, d: Conn, q: Packet) {
    && (c.receiver.isn.Some? && R.HasContent(q.wire) ==> R.Timely(q.src.abs, c.receiver.reassembler.firstUnassembled))
    && q.wire.header.ack && !q.wire.header.rst && q.ackAbs < c.sender.absAckno < q.ackAbs + TWO31
    && !NoOverrun(c.sender, d.receiver, q.ackAbs, q.wire.header.win)
  }

  lemma OldAckOverruns()
    ensures Overruns(A4, B2, Q0)
  {
  }

  lemma OldAckArrives(w: World)
    requires w.a.c == A4 && w.b.c == B2
    ensures Next(w, Event(true, Deliver(Q0))).a.c == A5 && Next(w, Event(true, Deliver(Q0))).b.c == B2
  {
    ToA5();
    DeliverIsReceive(w, Q0);
  }

  lemma WrongByte(w: World)
    requires w.a.c == A9 && w.b.c == B7
    ensures !(Arrived(w.b).log <= Written(w.a).log)
  {
    assert Arrived(w.b).log[3] == 5 && Written(w.a).log[3] == 4;
  }

  /** One such delivery is enough: from a reachable world, it and harmless steps lead to a world in which
      the reader at B has been given what nobody wrote. */
  lemma StaleAckCorrupts()
    ensures exists w, q, w' ::
      && Reachable(w) && q in w.b.c.sent && Overruns(w.a.c, w.b.c, q)
      && Leads(Next(w, Event(true, Deliver(q))), w')
      && !(Arrived(w'.b).log <= Written(w'.a).log)
  {
    var w := Before();
    OldAckOverruns();
    OldAckArrives(w);
    var w' := After(Next(w, Event(true, Deliver(Q0))));
    WrongByte(w');
  }
}
