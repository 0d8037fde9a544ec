/** The sender as the source keeps it: queues of segments, counters and a timer, updated in place. */
module SenderImpl {
  import opened Words
  import opened SequenceNumbers
  import opened Segments
  import S = Sending
  import opened ByteStreamImpl
  import opened TimerImpl

  function Wires(isn: u32, q: seq<S.OutSeg>): seq<TCPSegment> {
    seq(|q|, i requires 0 <= i < |q| => S.Wire(isn, q[i]))
  }

  class TCPSender {
    const isn: u32
    var segmentsOut: seq<TCPSegment>
    var segmentsBackup: seq<TCPSegment>
    const initialRto: u16
    var rto: u32
    var retx: nat
    const stream: ByteStream
    var nextSeqno: nat
    var absAckno: nat
    var windowSize: u16
    var synSent: bool
    var finSent: bool
    const timer: Timer
    ghost var out: seq<S.OutSeg>
    ghost var backup: seq<S.OutSeg>

    ghost predicate Valid()
      reads this, stream, timer
    {
      && stream.Valid()
      && segmentsOut == Wires(isn, out) && segmentsBackup == Wires(isn, backup)
      && absAckno <= nextSeqno
      && (timer.active <==> segmentsBackup != []) && !timer.expired
    }

    ghost function Model(): S.Sender
      reads this, stream, timer
      requires Valid()
    {
      S.Sender(isn, out, backup, initialRto, rto, retx, stream.Model(), nextSeqno, absAckno, windowSize,
               synSent, finSent, timer.Model())
    }

    constructor (capacity: nat, retxTimeout: u16, isn: u32)
      ensures Valid() && Model() == S.New(capacity, retxTimeout, isn) && fresh(stream) && fresh(timer)
    {
      this.isn := isn;
      segmentsOut, segmentsBackup, out, backup := [], [], [], [];
      initialRto, rto, retx := retxTimeout, retxTimeout, 0;
      stream := new ByteStream(capacity);
      timer := new Timer();
      nextSeqno, absAckno, windowSize, synSent, finSent := 0, 0, 1, false, false;
    }

    function BytesInFlight(): (n: nat)
      reads this, stream, timer
      requires Valid()
      ensures n == S.BytesInFlight(Model())
    {
      nextSeqno - absAckno
    }

    function MakeSegment(absSeqno: nat, syn: bool, fin: bool, payload: seq<byte>): (seg: TCPSegment)
      ensures seg == S.Wire(isn, S.OutSeg(absSeqno, syn, fin, false, payload))
    {
      TCPSegment(DEFAULT_HEADER.(seqno := Wrap(absSeqno, isn), syn := syn, fin := fin), payload)
    }

    /** Push a segment onto both queues, start the timer if it is stopped, and count the segment. */
    method Enqueue(seg: TCPSegment, ghost g: S.OutSeg)
      requires Valid() && seg == S.Wire(isn, g)
      modifies this, timer
      ensures Valid() && Model() == S.Emit(old(Model()), g).(synSent := synSent, finSent := finSent)
      ensures synSent == old(synSent) && finSent == old(finSent)
    {
      segmentsOut := segmentsOut + [seg];
      segmentsBackup := segmentsBackup + [seg];
      out := out + [g];
      backup := backup + [g];
      if !timer.active { timer.StartTimer(rto); }
      nextSeqno := nextSeqno + LengthInSequenceSpace(seg);
    }

    method FillWindow()
      requires Valid()
      modifies this, stream, timer
      ensures Valid() && Model() == S.FillWindow(old(Model()))
    {
      if !synSent {
        var synSegment := MakeSegment(nextSeqno, true, false, []);
        Enqueue(synSegment, S.OutSeg(nextSeqno, true, false, false, []));
        synSent := true;
        return;
      }
      var window := Max(windowSize, 1);
      var fillSize := if window > BytesInFlight() then window - BytesInFlight() else 0;
      FillLoop(fillSize);
    }

    /** The loop of `fill_window`. */
    method FillLoop(room: nat)
      requires Valid()
      modifies this, stream, timer
      ensures Valid() && Model() == S.FillLoop(old(Model()), room)
    {
      var fillSize: nat := room;
      ghost var end := S.FillLoop(Model(), room);
      while fillSize > 0 && !finSent && synSent
        invariant Valid() && S.FillLoop(Model(), fillSize) == end
        decreases fillSize
      {
        var length := SendNext(fillSize);
        if length == 0 {
          break;
        }
        fillSize := fillSize - length;
      }
    }

    /** The body of the loop: read up to a segment's worth and send it, with the FIN if it fits. */
    method SendNext(fillSize: nat) returns (length: nat)
      requires Valid() && synSent && fillSize > 0
      modifies this, stream, timer
      ensures Valid()
      ensures var g := S.NextSegment(old(Model()), fillSize);
              && length == S.Len(g) <= fillSize
              && Model() == if length == 0 then S.AfterRead(old(Model()), fillSize)
                            else S.Emit(S.AfterRead(old(Model()), fillSize), g)
    {
      ghost var before := Model();
      var payload := stream.Read(if fillSize > S.MAX_PAYLOAD_SIZE then S.MAX_PAYLOAD_SIZE else fillSize);
      var fin := if fillSize > |payload| then stream.AtEof() else false;
      var segment := MakeSegment(nextSeqno, false, fin, payload);
      ghost var g := S.NextSegment(before, fillSize);
      assert segment == S.Wire(isn, g);
      length := LengthInSequenceSpace(segment);
      if length == 0 {
        return;
      }
      if segment.header.fin { finSent := true; }
      Enqueue(segment, g);
    }

    predicate CheckSegAcked(seg: TCPSegment)
      reads this
    {
      Unwrap(seg.header.seqno, isn, absAckno) + LengthInSequenceSpace(seg) <= absAckno
    }

    method AckReceived(ackno: u32, window: u16)
      requires Valid()
      modifies this, timer
      ensures Valid() && Model() == S.AckReceived(old(Model()), ackno, window)
    {
      if Unwrap(ackno, isn, absAckno) > absAckno && Unwrap(ackno, isn, absAckno) <= nextSeqno {
        absAckno := Unwrap(ackno, isn, absAckno);
      }
      windowSize := window;
      var newSegAcked := PopAcked();
      if segmentsBackup == [] { timer.StopTimer(); }
      rto := initialRto;
      if segmentsBackup != [] && newSegAcked { timer.StartTimer(rto); }
      retx := 0;
    }

    /** The loop of `ack_received`: drop fully acknowledged segments from the front of the queue. */
    method PopAcked() returns (newSegAcked: bool)
      requires segmentsBackup == Wires(isn, backup)
      modifies this`segmentsBackup, this`backup
      ensures segmentsBackup == Wires(isn, backup) && backup == S.PopAcked(old(backup), isn, absAckno)
      ensures |backup| <= |old(backup)| && newSegAcked == (|backup| < |old(backup)|)
      ensures !newSegAcked ==> backup == old(backup)
    {
      newSegAcked := false;
      while segmentsBackup != [] && CheckSegAcked(segmentsBackup[0])
        invariant segmentsBackup == Wires(isn, backup)
        invariant S.PopAcked(backup, isn, absAckno) == S.PopAcked(old(backup), isn, absAckno)
        invariant |backup| <= |old(backup)| && newSegAcked == (|backup| < |old(backup)|)
        invariant !newSegAcked ==> backup == old(backup)
        decreases |segmentsBackup|
      {
        assert S.SegAcked(backup[0], isn, absAckno);
        segmentsBackup := segmentsBackup[1..];
        backup := backup[1..];
        newSegAcked := true;
      }
      assert backup != [] ==> !S.SegAcked(backup[0], isn, absAckno);
    }

    method Tick(ms: nat)
      requires Valid()
      modifies this, timer
      ensures Valid() && Model() == S.TickSender(old(Model()), ms)
    {
      timer.Tick(ms);
      if !timer.expired {
        return;
      }
      segmentsOut := segmentsOut + [segmentsBackup[0]];
      out := out + [backup[0]];
      if windowSize != 0 {
        retx := retx + 1;
        rto := To32(rto * 2);
      }
      timer.StartTimer(rto);
    }

    method SendEmptySegment(rst: bool)
      requires Valid()
      modifies this
      ensures Valid() && Model() == S.SendEmpty(old(Model()), rst)
    {
      var empty := MakeSegment(nextSeqno, false, false, []);
      empty := empty.(header := empty.header.(rst := rst));
      segmentsOut := segmentsOut + [empty];
      out := out + [S.OutSeg(nextSeqno, false, false, rst, [])];
    }
  }
}
