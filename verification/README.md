# A verified model of the sponge TCP/IP stack

sponge is a user-space TCP/IP stack. This project models its protocol engine in Dafny 4.11 and proves what that
engine is for: between two TCP connections over a network that loses, repeats and reorders segments, what arrives is
a prefix of what was written; nothing that the peer still lacks ever leaves the retransmission queue; every completed
round trip makes progress; a clean close means that both sides have everything; the wire format loses nothing; the ARP
cache agrees with its history; and the router takes the longest match. Where the code falls short of such a promise, the
project proves exactly when.

`dafny verify dfyconfig.toml` checks the whole project.

## How it is built

Every component has two parts.

- A *specification*: a datatype for the state and total functions for the operations, with the same branches, constants
  and integer widths as the code. Lemmas state what the operations keep and what whole runs guarantee.
- An *implementation* (modules ending in `Impl`, and `TimerImpl`, `ChecksumImpl`, `NetParserImpl`, `RouterImpl`): a class
  with the fields of the source, updated in place, with the loops of the source. Each method is proved to change the
  state exactly as the specification says, so the lemmas hold of the class.

| layer | files |
|---|---|
| arithmetic | `Words`, `SequenceNumbers` |
| byte stream and reassembler | `ByteStreams`, `ByteStreamImpl`, `Reassembly`, `ReassemblyCount`, `ReassemblyRuns`, `ReassemblyWindow`, `ReassemblyEnd`, `ReassemblerImpl` |
| sender and receiver | `Segments`, `Timers`, `Sending`, `SendingRuns`, `SendingPieces`, `TimerRuns`, `SendingReach`, `LongRuns`, `SenderImpl`, `Receiving`, `MissedBlocks`, `LongReceivers`, `ReceiverImpl` |
| one connection, against any peer | `Connections`, `TcpStates`, `Endpoints`, `EndpointRuns`, `EndpointReplies`, `EndpointEnds`, `LongConnections`, `ConnectionImpl` |
| two connections and a network | `Channels` and `AckEffects` (one direction), `Pairs` (both), `Network` (every run), `Progress` (round trips), `Scenarios`, `StaleAcks` and `LongWorlds` (why the guard) |
| bytes on the wire | `Checksums`, `NetParsing`, `TcpCodec`, `Ipv4Codec`, `CodecImpl`, `TcpOverIp` |
| link layer and routing | `ArpInterface`, `ArpRuns`, `ArpFrames`, `ArpLedger`, `InterfaceImpl`, `Routing` |

`Network.Reachable` is the state of two connections after any sequence of calls (connect, write, end, read, tick) and
deliveries, from two fresh connections with any configuration. The network is the list of everything ever sent; any of it
may be delivered at any time, any number of times, or never. `EndpointRuns.Reachable` is the state of one connection
after any calls and any arriving segments, even ones that no peer would send.

Two conditions go with this. A stream has at most 2^62 bytes, so that the 64-bit counters of the source do not overflow.
And a delivery must meet `Pairs.Deliverable`, which leaves out what the code does not survive; the next section says what
that is and shows that it is needed. Where the source computes with indices modulo 2^64 or 2^32 (`unwrap`, the
reassembler's truncation and final index, the timer, the timeout, the checksum, the unassembled positions) the model does
the same.

## What the code does not do

These promises fail, and each has its exact condition.

- `unwrap` is documented to return the number closest to the checkpoint. It never tries the block below when the
  checkpoint is in [2^32, 2^33). `UnwrapNearestIff` and `RoundTripIff` say exactly when it is right. This has three
  consequences past 2^32.
  - The receiver puts a segment from below 2^32 a whole 2^32 too far and stores it there; 2^32 bytes later it takes the
    place of true bytes. `SegmentSafeIff` has the condition. No loss or delay is needed for this: `OldSegmentCorrupts`
    builds a run in which everything is acknowledged, the sender sends such a segment again by itself, and in the end the
    reader is given a wrong byte.
  - A segment across 2^32 that is acknowledged stays in the retransmission queue (`AckKeepsTightIff` has the condition,
    `QueueSticksAcrossBlock` a run). Until another 2^32 numbers are acknowledged it is the only one ever sent again
    (`FrontStays`), so what the timer sends does not cover what the peer waits for (`RetryCoversIff` has the condition).
  - A connection that has closed cleanly may speak again (`CleanCloseFinalIff` has the condition, `CleanCloseSpeaksAgain`
    a run).
- A push that starts past the first unacceptable index is not cut, because an unsigned subtraction wraps around.
  `PushSafeIff` gives the condition, `PushPastWindowCorrupts` a run in which a wrong byte is delivered.
- Bytes past the known end of the stream are dropped, unless they start past it; then the same kind of subtraction wraps
  around and they are stored. `PushWithinIff` gives the condition. A sender of this stack never sends such bytes.
- `ack_received` takes the window of every acknowledgment, also of an old one, although section 3.9 of RFC 793 guards
  against that. `AckHarmlessIff` says exactly when the sender can then be made to send a segment that starts past the
  receiver's window, `StaleAckCorrupts` is a run of two connections in which one old acknowledgment ends in a wrong byte.
- For these two reasons a delivery in `Network` must meet `Pairs.Deliverable`. Data or a FIN for a receiver that has its
  SYN must be less than 2^31 numbers away and not from below 2^32 once the receiver is past it. An acknowledgment that is
  read, that is, unless there is a RST, must be less than 2^31 away and meet the condition of `AckHarmlessIff`.
  `ShortStreamsDeliverable` shows that below 2^31 bytes only that last condition remains, and that an acknowledgment that
  is not behind or does not open the window always meets it. That a sender never sends past the receiver's window is then
  proved, not assumed.
- The first SYN adds one to the acknowledgment number for its FIN even if its payload was cut: `FirstSynAckIff`. The
  sender of this stack never sends such a SYN.
- A header field that does not fit its bits does not survive: `HeaderRoundTripIff`, `HeaderFieldsIff`. A datagram may be
  so long that its 16-bit length wraps around; `DatagramRoundTripIff` says which ones come back all the same.
- A datagram for a known next hop is sent at once, even if an earlier one for the same hop still waits behind one whose
  hop is unknown. `InOrderIff` says exactly when the order is kept, `LaterDatagramOvertakes` has the runs in which it is
  not.
- The router means not to shift by 32 bits, but does so for a wildcard entry that it meets after a longer match
  (libsponge/router.cc:57-58). C++ leaves the outcome open; `FindRoute` shows that the route found does not depend on it.

## Model

| member | source | states |
|---|---|---|
| Network.ArrivedIsPrefix | libsponge/tcp_connection.cc:27-165 | End-to-end safety, both directions, at every point of every run: the bytes that have come out of the receiver's stream are a prefix of the bytes written at the other end, and the stream has ended only if the writer ended it and every byte is there. |
| Network.LackedIsRetransmittable | libsponge/tcp_sender.cc:94-120 | Nothing is lost: every number sent (SYN, byte or FIN) that the peer still lacks lies in a segment of the retransmission queue. |
| Network.AcknowledgedHasArrived | libsponge/tcp_sender.cc:94-101 | The sender's idea of what was acknowledged never runs ahead of the receiver, and the receiver never acknowledges more than was sent. |
| Network.PromisesAreExact | libsponge/tcp_receiver.cc:13-42 | In every run the acknowledgment number is the wrapped 1 + bytes written + 1 if ended, and the window ends at capacity + bytes read. |
| Network.PromisesAreKept | libsponge/tcp_receiver.cc:31-42 | Along every run neither the acknowledgment number nor the right edge of the window moves back. |
| Network.CleanCloseAgrees | libsponge/tcp_connection.cc:112-124 | If one side has closed without an error, all that the other wrote has arrived and ended, its own FIN is acknowledged, and all it wrote has arrived and ended at the peer. |
| Network.CleanCloseStays | libsponge/tcp_connection.cc:94-125 | That agreement survives every continuation of the run, whatever the closed side does; and the side stays closed if its retransmission queue is empty. |
| Network.RetransmissionAdvances | libsponge/tcp_receiver.cc:31-37 | In every reachable state, delivering any packet that covers the number the peer waits for moves the peer forward, unless it is a byte its window has no room for. |
| Progress.RoundTripSynchronises | libsponge/tcp_connection.cc:27-76 | In every reachable state: whatever A sent that occupies sequence numbers, if it arrives at a live B it is answered, the answer can always be delivered, and then A's acknowledged number is exactly what B has. |
| Progress.RoundTripMakesProgress | libsponge/tcp_sender.cc:94-137 | A packet covering A's first unacknowledged number and its answer always acknowledge that number, unless B still waits for it and has no room for the byte. |
| Progress.RetryCoversIff | libsponge/tcp_sender.cc:123-137 | In every reachable state the packet that an expiry of A's timer sends covers A's first unacknowledged number exactly when the front of the queue is not fully acknowledged. |
| Progress.RecoverableBelow | libsponge/tcp_sender.cc:86-111 | Below 2^32 that is always so, and B can tell where the front belongs. |
| Progress.ExpiryMakesProgress | libsponge/tcp_connection.cc:94-110 | If the front of the queue is not fully acknowledged and B can tell where it belongs, then whenever the timer of a live A goes off and A has tries left, the first packet it sends can be delivered at a live B and covers A's first unacknowledged number; tick, delivery and delivery of the answer then acknowledge that number, unless B has no room for it. |
| Progress.GivingUpResetsPeer | libsponge/tcp_connection.cc:94-103 | When a live A gives up, the first packet it sends is a RST; if it reaches a live B, B is in the table's RESET state and has sent nothing; and it may be delivered if B can tell where the front of A's queue belongs. |
| StaleAcks.StaleAckCorrupts | libsponge/tcp_sender.cc:101 | The guard on acknowledgments is needed: from a reachable state of two connections, delivering one old acknowledgment that lets the sender past the window (and has nothing else wrong with it), followed by deliverable steps only, leads to a state in which what has arrived is not a prefix of what was written. |
| LongWorlds.OldSegmentCorrupts | libsponge/tcp_receiver.cc:31-35 | The guard on data is needed: there is a reachable state in which everything A sent is acknowledged, and A's timer makes it send a segment from below 2^32 again; delivering that one (less than 2^31 away, its acknowledgment harmless), followed by deliverable steps only, leads to a state in which a byte that has arrived differs from the byte written at its place. |
| Network.ShortStreamsDeliverable | libsponge/tcp_sender.cc:98-101 | With streams below 2^31 bytes the network may deliver anything ever sent, unless it carries an acknowledgment without RST that lets the sender past the window; one that is not behind, or does not open the window, never does. |
| Network.ExecKeeps | libsponge/tcp_connection.cc:27-211 | Every run keeps the joint invariant of two connections and the network, and only moves both connections forward. |
| Endpoints.StepKeeps | libsponge/tcp_connection.cc:27-211 | Every call on a connection, with any segment from any peer, keeps the endpoint invariant (accounting, queue, timer, backoff, flags) and moves it forward. |
| EndpointRuns.StatesMoveForward | libsponge/tcp_helpers/tcp_state.cc:82-110 | Along every run, whatever arrives, the state summaries of sender and receiver only move forward in the order of section 3.2 of RFC 793. |
| EndpointRuns.InactiveIsClosedOrReset | libsponge/tcp_helpers/tcp_state.cc:61-80 | A connection that is no longer active is in the table's CLOSED or RESET state, and CLOSED means inbound ended, FIN sent and everything acknowledged. |
| EndpointRuns.CloseTestIsExact | libsponge/tcp_connection.cc:170-177 | The test "at eof and next_seqno is bytes_written + 2" holds in every reachable state exactly when the FIN was sent. |
| EndpointRuns.BackoffIsExact | libsponge/tcp_sender.cc:113-136 | While a connection is active it has at most eight consecutive retransmissions, and its timeout is the initial one times two to that number, with no wrap-around. |
| EndpointRuns.GiveUpIsLate | libsponge/tcp_connection.cc:94-103 | The tick that fails a live connection is its ninth consecutive expiry, at least 510 initial timeouts after the first. |
| EndpointReplies.ClosesAfterLingering | libsponge/tcp_connection.cc:112-124 | After every run, a tick that does not fail a live connection closes it if and only if both streams are over then, and some arrival or tick has waived lingering or ten timeouts have passed since the last segment. |
| EndpointEnds.EndsIff | libsponge/tcp_connection.cc:27-142 | The last call of a life, over every run: a live connection becomes inactive if and only if a RST arrives, a ninth consecutive expiry makes it give up, or a tick finds both streams over and lingering waived or ended. |
| EndpointEnds.FailsIff | libsponge/tcp_connection.cc:38-41 | In every reachable state a call fails a live connection if and only if it brings a RST, or is a tick at which the timer goes off after eight attempts with an open window. |
| EndpointEnds.RstResets | libsponge/tcp_connection.cc:33-41 | A RST in any reachable live state: both streams have the error, the connection is inactive and in the table's RESET state, and nothing is sent; what the segment brings is still taken in. |
| EndpointEnds.FailedIsReset | libsponge/tcp_connection.cc:190-211 | A reachable connection has failed exactly when it is in the table's RESET state. |
| EndpointEnds.TickNeverConnects | libsponge/tcp_connection.cc:105-110 | A tick on a live connection that has not sent its SYN sends nothing, and the connection stays as it was: unopened and live. |
| EndpointEnds.InactiveIgnores | libsponge/tcp_connection.cc:28-29 | A segment that arrives at an inactive connection changes nothing at all. |
| EndpointEnds.ShutdownSaysRst | libsponge/tcp_connection.cc:190-211 | An unclean shutdown in any state, even with nothing to send: the first segment sent is a RST, made for the purpose if need be, the rest is what waited or fits the window, and both streams have the error. |
| EndpointEnds.GiveUpSays | libsponge/tcp_connection.cc:190-205 | A connection that gives up sends what its window allows; the first segment is the one that got no answer, and it alone is a RST. |
| EndpointEnds.ConfigurationStays | libsponge/tcp_connection.hh:12-14 | After every run the two buffers have the configured sizes, and the initial number and timeout are the configured ones. |
| EndpointEnds.SenderNames | libsponge/tcp_helpers/tcp_state.cc:94-110 | Each name of the outbound side, in every reachable state without failure: closed is no SYN sent, SYN sent is nothing acknowledged, SYN acknowledged is something acknowledged and no FIN sent, FIN sent is FIN sent and not all acknowledged, FIN acknowledged is all acknowledged. |
| EndpointEnds.ReceiverNames | libsponge/tcp_helpers/tcp_state.cc:82-92 | Each name of the inbound side: error is failed, listening is no SYN heard, then SYN received until the stream has ended, then FIN received. |
| EndpointReplies.OwnersCallsSend | libsponge/tcp_connection.cc:80-142 | In every reachable state connect, write and end hand their data to the stream; the first of them sends exactly the SYN, and after a later one nothing is left that the window would allow to send. |
| EndpointReplies.TickSends | libsponge/tcp_connection.cc:105-110 | Nor is anything left after a tick once the SYN is out, unless the connection fails. |
| EndpointReplies.EverySegmentIsAnswered | libsponge/tcp_connection.cc:51-76 | A live connection sends something in reaction to a segment exactly when the segment occupies numbers or is a keep-alive; everything it sends carries its newest acknowledgment number and window, and the answer to a first bare SYN is a SYN. |
| EndpointReplies.ExpiryResends | libsponge/tcp_connection.cc:94-110 | The tick that ends the wait of a live connection first sends the oldest outstanding segment again, or, after eight attempts, fails the connection and first sends a RST. |
| EndpointReplies.LingerWaivedIff | libsponge/tcp_connection.cc:181-186 | Over every run: a connection does without lingering exactly when some arrival or tick of its life found the inbound stream read to its end before the FIN was sent. |
| EndpointReplies.CleanCloseFinalIff | libsponge/tcp_connection.cc:94-124 | A clean close is final (no call revives it, fails it or makes it send) exactly when its retransmission queue is empty, and below 2^32 it always is. |
| LongConnections.CleanCloseSpeaksAgain | libsponge/tcp_sender.cc:86-111 | A reachable connection that has closed cleanly with everything acknowledged and yet sends again when its timer goes off: 2^32 bytes in a run without any loss, ended in good order. |
| TcpStates.SenderForward | libsponge/tcp_helpers/tcp_state.cc:94-110 | Between two sender states of which one is later, the summary does not move back. |
| Channels.Delivered | libsponge/tcp_receiver.cc:13-38 | One direction: a receiver in step with a sender has a prefix of its stream, and all of it once ended. |
| Channels.LackingIsQueued | libsponge/tcp_sender.cc:107-111 | One direction: what the receiver lacks is in the queue. |
| AckEffects.AckHarmlessIff | libsponge/tcp_sender.cc:94-101 | For a sender and a receiver in step, and any acknowledgment of something the receiver has, less than 2^31 away: no run of writes, ends and fills after it puts out a segment that starts past the receiver's right edge, exactly when the last segment that the buffer and the new window allow starts inside it. |
| AckEffects.StaysInsideIff | libsponge/tcp_sender.cc:41-84 | The same for a sender as it is. |
| AckEffects.NoOverrunWhenIdle | libsponge/tcp_sender.cc:41-84 | With an open stream and nothing unsent the condition is: the later of the two numbers plus the window (at least one) is at most next_seqno, or at most two past the right edge. |
| Channels.DeliveryAdvances | libsponge/tcp_receiver.cc:31-37 | A packet that covers the awaited number moves the acknowledgment number forward if there is room. |
| ConnectionImpl.TCPConnection.SegmentReceived | libsponge/tcp_connection.cc:27-76 | The class updates its parts as specified: receiver first, RST check, sender, linger test, answer, sending. |
| ConnectionImpl.TCPConnection.ProcessSegment | libsponge/tcp_connection.cc:43-76 | The part behind the RST check: acknowledgment to the sender, linger test, answer, send. |
| ConnectionImpl.TCPConnection.Answer | libsponge/tcp_connection.cc:51-73 | An empty segment for a keep-alive, a SYN for a bare SYN, at least one segment for anything that occupies numbers. |
| ConnectionImpl.TCPConnection.Write | libsponge/tcp_connection.cc:80-91 | Returns how many bytes the stream accepted; the new state is write, fill, send. |
| ConnectionImpl.TCPConnection.Tick | libsponge/tcp_connection.cc:94-125 | The new state: time to the sender, give up after more than eight retransmissions, or send and close when done. |
| ConnectionImpl.TCPConnection.FinishTick | libsponge/tcp_connection.cc:99-124 | The part of tick behind the passing of time. |
| ConnectionImpl.TCPConnection.CloseIfDone | libsponge/tcp_connection.cc:112-124 | Becomes inactive exactly when all conditions hold and lingering is waived or over. |
| ConnectionImpl.TCPConnection.EndInputStream | libsponge/tcp_connection.cc:130-135 | The new state is end, fill, send. |
| ConnectionImpl.TCPConnection.Connect | libsponge/tcp_connection.cc:137-142 | The new state is fill, send. |
| ConnectionImpl.TCPConnection.SendAll | libsponge/tcp_connection.cc:155-165 | The loop moves every waiting segment to the wire in order, each stamped with acknowledgment and window. |
| ConnectionImpl.TCPConnection.SendOne | libsponge/tcp_connection.cc:144-164 | One round of it: the front segment, stamped with the acknowledgment number if there is one and the window cut to 16 bits. |
| ConnectionImpl.TCPConnection.PopSegment | libsponge/tcp_connection.cc:158-159 | The sender's queue loses its front, which is returned, and nothing else changes. |
| ConnectionImpl.TCPConnection.FollowPrereq | libsponge/tcp_connection.cc:167-188 | Returns whether the three conditions hold, and waives lingering if the inbound stream is at eof before a FIN was sent. |
| ConnectionImpl.TCPConnection.UncleanShutdown | libsponge/tcp_connection.cc:190-211 | With RST, the first waiting segment carries it and everything is sent; both streams get the error and the connection is inactive. |
| ConnectionImpl.TCPConnection.MarkRst | libsponge/tcp_connection.cc:199-203 | The first waiting segment gets the RST flag, or a new empty segment has it. |
| SendingRuns.QueueTilesInFlight | libsponge/tcp_sender.cc:27-120 | Over every run the queue is a gap-free run of segments up to next_seqno that starts no later than the first unacknowledged number, at most 65535 numbers are in flight, and below 2^32 the front is not fully acknowledged and the queue is empty exactly when nothing is in flight. |
| SendingRuns.TimerRunsWithQueue | libsponge/tcp_sender.cc:113-136 | Between any two calls the timer runs exactly while the queue is not empty and is never left expired, so an expiring tick always finds a segment to send again. |
| SendingRuns.EveryFillRespectsWindow | libsponge/tcp_sender.cc:41-84 | At every point of every run, filling only adds segments of at most 1000 bytes that end inside the window (taken as at least one), and stops only when the window is full, the FIN is sent or the stream has nothing to offer. |
| SendingPieces.FillIsExact | libsponge/tcp_sender.cc:41-84 | At every point of every run, in closed form: filling puts out the SYN alone at first, nothing after the FIN, and else the bytes that fit the window cut into segments of 1000, only the last one shorter, with the FIN on that one if it fits; all of it also goes into the queue, and a stopped timer starts. |
| TimerRuns.TimerFollowsHistory | libsponge/tcp_sender.cc:94-137 | Over every run, against a history kept from the calls, the lengths of the queues and the time: the number of consecutive expiries, the doubled timeout and the last window are those of the sender; and while something is outstanding the timer has counted, in 32 bits, the time since the queue became non-empty, an acknowledgment left only a part of it, or something was sent again. |
| TimerRuns.ResendsIff | libsponge/tcp_sender.cc:113-137 | Over every run a tick sends the oldest outstanding segment again if and only if that time has reached the timeout it began with, so never sooner; otherwise it sends nothing. |
| LongRuns.QueueSticksAcrossBlock | libsponge/tcp_sender.cc:86-111 | A run of a fresh sender, for every initial number, after which nothing is in flight but the queue is not empty and the timer runs. |
| SendingRuns.AckAcrossBlockIsStuck | libsponge/tcp_sender.cc:107-111 | Whenever the front crosses 2^32 and is acknowledged in full, the queue stays as it is. |
| SendingRuns.FrontStays | libsponge/tcp_sender.cc:86-136 | In every run of a sender past 2^32 whose front is a segment from below 2^32, that segment stays the front, and is what every expiry sends again, until the acknowledged number reaches 2^33 or lies 2^32 past its end. |
| SendingRuns.RtoExact | libsponge/tcp_sender.cc:130-133 | Up to sixteen consecutive expiries the 32-bit timeout is the exact power of two times the initial one. |
| SendingRuns.NinthExpiryIsLate | libsponge/tcp_sender.cc:123-137 | Nine consecutive expiries take at least 510 initial timeouts, counted from the first. |
| Sending.FillWindowRespectsWindow | libsponge/tcp_sender.cc:41-84 | Window respect and greed for one call on any sender that meets the invariant. |
| Sending.FillWindowKeeps | libsponge/tcp_sender.cc:41-84 | Filling keeps accounting (next_seqno is SYN + bytes read + FIN), queue, timer and the truth of every segment, and moves the sender forward. |
| Sending.AckReceivedKeeps | libsponge/tcp_sender.cc:94-120 | So does any acknowledgment whatsoever, and it sends nothing. |
| Sending.TickKeeps | libsponge/tcp_sender.cc:123-137 | So does time; an expiry finds the queue non-empty and sends its front again. |
| Sending.SegAckedIff | libsponge/tcp_sender.cc:86-90 | The test for an acknowledged segment is right exactly when `unwrap` does not miss the block below. |
| Sending.AckKeepsTightIff | libsponge/tcp_sender.cc:107-111 | Fully acknowledged segments leave the queue exactly when the front is not stuck across 2^32. |
| SenderImpl.TCPSender.FillWindow | libsponge/tcp_sender.cc:41-84 | The class fills as specified: only the SYN at first, then the loop with room max(window, 1) - in flight. |
| SenderImpl.TCPSender.FillLoop | libsponge/tcp_sender.cc:64-83 | The loop, with its room counted down. |
| SenderImpl.TCPSender.SendNext | libsponge/tcp_sender.cc:67-82 | One round: at most 1000 bytes, the FIN only if it fits, nothing if there is nothing. |
| SenderImpl.TCPSender.Enqueue | libsponge/tcp_sender.cc:48-51 | Both queues get the segment, a stopped timer starts, next_seqno counts it. |
| SenderImpl.TCPSender.AckReceived | libsponge/tcp_sender.cc:94-120 | The new state after an acknowledgment, in full. |
| SenderImpl.TCPSender.PopAcked | libsponge/tcp_sender.cc:107-111 | The loop drops the longest acknowledged run from the front and reports whether there was one. |
| SenderImpl.TCPSender.Tick | libsponge/tcp_sender.cc:123-137 | The new state after time, in full. |
| SenderImpl.TCPSender.SendEmptySegment | libsponge/tcp_sender.cc:141-147 | One more segment that occupies no numbers, not queued for retransmission. |
| TimerImpl.Timer.StartTimer | libsponge/tcp_sender.hh:41-43 | Everything is reset. |
| TimerImpl.Timer.StopTimer | libsponge/tcp_sender.hh:30 | Only the running flag changes; an expiry is not cleared. |
| TimerImpl.Timer.Tick | libsponge/tcp_sender.hh:50-55 | Time counts, in 32 bits, only while running and not expired. |
| Receiving.ReceiveKeeps | libsponge/tcp_receiver.cc:13-38 | A segment of the stream, new or repeated, keeps the receiver in step with the stream if it carries nothing or `unwrap` recovers its place; the acknowledgment number does not move back and the right edge stays. |
| MissedBlocks.SegmentSafeIff | libsponge/tcp_receiver.cc:31-37 | Exactly then: for a data segment of a stream that goes on for 2^32 bytes, less than 2^31 away and not past the window, the output stays the assembled part of the stream whatever fitting pushes and reads follow, if and only if the segment is not from below 2^32 for a receiver in [2^32, 2^33). |
| Receiving.ReadKeeps | libsponge/tcp_receiver.cc:42 | Reading keeps it in step and opens the window by exactly what was read. |
| Receiving.Promise | libsponge/tcp_receiver.cc:31-42 | The acknowledgment number and window stand for the bytes written out, the end, and capacity + bytes read. |
| Receiving.CoveringAdvances | libsponge/tcp_receiver.cc:31-37 | A segment that covers the awaited number moves the acknowledgment number forward if there is room. |
| Receiving.FirstSynAckIff | libsponge/tcp_receiver.cc:20-26 | The acknowledgment of a first SYN with data is right exactly unless its FIN was taken although data was cut. |
| ReceiverImpl.TCPReceiver.SegmentReceived | libsponge/tcp_receiver.cc:13-38 | The class updates isn, acknowledgment number and reassembler as specified, and ignores everything before a SYN. |
| ReceiverImpl.TCPReceiver.PushNext | libsponge/tcp_receiver.cc:31-37 | The same for a segment after the SYN. |
| ReassemblyRuns.OutputIsAcceptedPrefix | libsponge/stream_reassembler.cc:39-96 | Refinement over every interleaving of pushes and reads: the output is the longest prefix of the stream all of whose bytes were accepted, it has ended exactly when that is everything and its end was marked, and nothing stored could still be read out. |
| ReassemblyRuns.OrderIndependent | libsponge/stream_reassembler.cc:68-96 | With enough capacity, two runs with the same set of pushes, in any order, with any repeats and any reads, give the same bytes and the same end flag. |
| ReassemblyRuns.UnassembledIsExact | libsponge/stream_reassembler.cc:102-110 | After every run, with capacity at most 2^32, the count is the number of distinct positions accepted but not assembled, despite the narrowing to 32 bits, and they fit the remaining capacity. |
| ReassemblyWindow.PushSafeIff | libsponge/stream_reassembler.cc:21-37 | A non-empty slice, with or without the mark of the end, is safe to push, that is, the output stays the assembled part of the stream whatever fitting pushes and reads follow, exactly when it starts no later than the first unacceptable index (or the capacity is 0). |
| ReassemblyRuns.PushPastWindowCorrupts | libsponge/stream_reassembler.cc:33-35 | A run of slices of one stream, one of them past the window, whose output is not a prefix of that stream. |
| ReassemblyEnd.PushWithinIff | libsponge/stream_reassembler.cc:25-30 | Once the end is known, a push of any bytes, of this stream or not, leaves everything assembled and stored in front of the end exactly when it starts no later than the end, or nothing of it is kept. |
| ReassemblyEnd.NothingPastEnd | libsponge/stream_reassembler.cc:21-96 | Over every run of such pushes and reads, whatever the bytes, the output never has more bytes than the stream. |
| Reassembly.PushCovers | libsponge/stream_reassembler.cc:68-96 | One push: the invariant is kept and the positions covered afterwards are those covered before and the pushed ones inside the window, both ways. |
| Reassembly.PushSound | libsponge/stream_reassembler.cc:68-96 | One push keeps the reassembler in step with the stream and changes neither what was read nor the capacity. |
| Reassembly.TruncateKeepsWindow | libsponge/stream_reassembler.cc:21-37 | Truncation keeps exactly the bytes in front of the first unacceptable index. |
| Reassembly.WindowEdge | libsponge/stream_reassembler.hh:27-29 | The first unacceptable index is capacity + bytes read. |
| ReassemblyCount.CountIsExact | libsponge/stream_reassembler.cc:102-110 | The count of stored positions is exact for every state that meets the invariant. |
| ReassemblerImpl.StreamReassembler.PushSubstring | libsponge/stream_reassembler.cc:68-96 | The class stores, writes and drains as specified. |
| ReassemblerImpl.StreamReassembler.PushOnestr | libsponge/stream_reassembler.cc:39-63 | One substring: if it starts no later than the first unassembled position, its new part is written out and the end noticed; returns whether it was used up. |
| ReassemblerImpl.StreamReassembler.TruncationData | libsponge/stream_reassembler.cc:21-37 | The cut data, with the source's unsigned subtraction. |
| ReassemblerImpl.StreamReassembler.ReadOut | libsponge/stream_reassembler.cc:84-95 | The nested loop terminates in the drained state. |
| ReassemblerImpl.StreamReassembler.ReadOutOne | libsponge/stream_reassembler.cc:85-94 | One scan: uses up and erases the first substring that is ready, and reports whether there was one. |
| ReassemblerImpl.StreamReassembler.UnassembledBytes | libsponge/stream_reassembler.cc:102-110 | The loops count the distinct narrowed positions of the store. |
| ByteStreams.FirstInFirstOut | libsponge/byte_stream.cc:17-57 | Over every run of writes, reads, pops and ends: bytes taken out followed by bytes still there are bytes there at first followed by bytes accepted. |
| ByteStreams.WriteTakesOrFills | libsponge/byte_stream.cc:17-30 | A write takes all of the data or fills the stream, from the front; nothing once the stream has ended or failed. |
| ByteStreams.ReadTakesFront | libsponge/byte_stream.cc:33-55 | A read takes as many bytes as asked for or all there are, from the front; none once the stream has failed. |
| ByteStreamImpl.ByteStream.Write | libsponge/byte_stream.cc:17-30 | Accepts what fits the remaining capacity, unless ended or in error, and returns how much. |
| ByteStreamImpl.ByteStream.Read | libsponge/byte_stream.cc:48-55 | Returns and removes the front of the buffer, or nothing in error. |
| ByteStreamImpl.ByteStream.PopOutput | libsponge/byte_stream.cc:39-43 | Removes it. |
| ByteStreamImpl.ByteStream.PeekOutput | libsponge/byte_stream.cc:33-36 | Returns it. |
| SequenceNumbers.UnwrapWraps | libsponge/wrapping_integers.cc:31-48 | The result always wraps to the number that was given. |
| SequenceNumbers.WrapCounts | libsponge/wrapping_integers.cc:16-20 | Wrapping counts: 0 is the initial number, and every number is followed by the next on the circle of 2^32. |
| SequenceNumbers.UnwrapNearestIff | libsponge/wrapping_integers.cc:31-48 | It is a nearest one to the checkpoint exactly when it does not miss the block below, up to 2^64. |
| SequenceNumbers.RoundTripIff | libsponge/wrapping_integers.cc:16-48 | Less than 2^31 away from the checkpoint, unwrap inverts wrap exactly unless the checkpoint is in [2^32, 2^33) and the number below 2^32. |
| SequenceNumbers.TieGoesDown | libsponge/wrapping_integers.cc:43-46 | Halfway between two candidates unwrap takes the lower one, exactly unless that lies below 2^32 and the checkpoint does not. |
| SequenceNumbers.UnwrapNotBelow | libsponge/wrapping_integers.cc:31-48 | It never answers below a number that was not ahead of the checkpoint. |
| Checksums.FoldKeeps | libsponge/util/util.cc:100-108 | Folding keeps the sum modulo 65535 and zero-ness, and ends in 16 bits. |
| Checksums.ValueZeroIff | libsponge/util/util.cc:100-108 | The checksum is zero exactly for a positive multiple of 65535. |
| Checksums.ChecksIff | libsponge/util/util.cc:89-108 | A message checks out exactly when the 32-bit sum of its 16-bit words is a positive multiple of 65535. |
| Checksums.AddConcat | libsponge/util/util.cc:89-98 | Adding in pieces is adding the whole, at any odd or even split. |
| Checksums.CompletedFits | libsponge/util/util.cc:100-108 | Completing a sum with its checksum gives a positive multiple of 65535 that never leaves 32 bits. |
| Checksums.FilledChecksOut | libsponge/util/util.cc:89-108 | A message of any length whose checksum field was filled in checks out. |
| ChecksumImpl.InternetChecksum.Add | libsponge/util/util.cc:89-98 | The loop computes the specified sum and parity. |
| ChecksumImpl.InternetChecksum.Value | libsponge/util/util.cc:100-108 | The loop computes the complement of the folded sum. |
| NetParsing.BytesRoundTrip | libsponge/util/parser.cc:26-60 | Reading back a number that was written in network order. |
| NetParsing.NumberRoundTrip | libsponge/util/parser.cc:26-60 | Writing back bytes that were read as a number. |
| NetParserImpl.NetParser.ParseInt | libsponge/util/parser.cc:26-43 | The loop reads a big-endian number, or sets the error and returns 0 when the buffer is too short. |
| NetParserImpl.NetParser.RemovePrefix | libsponge/util/parser.cc:45-51 | Skips, or sets the error. |
| NetParserImpl.UnparseInt | libsponge/util/parser.cc:53-60 | The loop appends the bytes, the highest first. |
| TcpCodec.HeaderRoundTripIff | libsponge/tcp_helpers/tcp_header.cc:17-78 | A serialized header is read back whole exactly when its data offset fits four bits, and the parser then stands behind the padding. |
| TcpCodec.HeaderLayout | libsponge/tcp_helpers/tcp_header.cc:51-78 | The bytes of a header, word by word, as in section 3.1 of RFC 793. |
| TcpCodec.HeaderVerdict | libsponge/tcp_helpers/tcp_header.cc:17-48 | For every buffer, the result of reading a header: too short a header if the offset is below 5 or its byte is not there, else too short a packet if 20 bytes or the announced options are not there, else no error. |
| TcpCodec.SegmentAcceptedIff | libsponge/tcp_helpers/tcp_segment.cc:12-23 | For every buffer: a segment is read without error exactly when its checksum is right, 20 bytes are there, and the offset does not point past the end. |
| TcpCodec.BadSegmentIff | libsponge/tcp_helpers/tcp_segment.cc:12-17 | The result is a bad checksum exactly when the checksum is wrong, and then the segment object keeps what it held. |
| TcpCodec.SerializedChecksOut | libsponge/tcp_helpers/tcp_segment.cc:30-45 | Every serialized segment passes the checksum test. |
| TcpCodec.SegmentRoundTrip | libsponge/tcp_helpers/tcp_segment.cc:12-45 | Serialize, then parse, for every data offset from 5 to 15: no error, the same fields and payload, and the checksum filled in. |
| Ipv4Codec.HeaderFieldsIff | libsponge/tcp_helpers/ipv4_header.cc:23-110 | A serialized header is read back whole exactly when length and fragment offset fit their bits. |
| Ipv4Codec.HeaderLayout | libsponge/tcp_helpers/ipv4_header.cc:78-110 | The bytes of a header, word by word, as in section 3.1 of RFC 791. |
| Ipv4Codec.HeaderVerdict | libsponge/tcp_helpers/ipv4_header.cc:23-75 | For every buffer, the result of reading a header: the first of these that is wrong: the bytes are there, version 4, length at least 20, total length that of the buffer, checksum. |
| Ipv4Codec.DatagramAcceptedIff | libsponge/tcp_helpers/ipv4_datagram.cc:11-21 | For every buffer with room for a header: a datagram is read without error exactly when its header passes all tests but the checksum, or the length left to the payload happens to be all but 20 bytes. |
| Ipv4Codec.PseudoCksumCounts | libsponge/tcp_helpers/ipv4_header.cc:114-134 | The sum a TCP checksum starts with stands for the twelve bytes of the pseudo header: adding a segment to it is adding both. |
| Ipv4Codec.HeaderRoundTrip | libsponge/tcp_helpers/ipv4_header.cc:23-110 | With matching length and checksum its own parser accepts it and stands at the payload. |
| Ipv4Codec.DatagramRoundTrip | libsponge/tcp_helpers/ipv4_datagram.cc:11-41 | Serialize, then parse: no error and the same datagram with the checksum filled in. |
| Ipv4Codec.DatagramRoundTripIff | libsponge/tcp_helpers/ipv4_datagram.cc:11-41 | Whatever serialize accepts is parsed back without error and with only the checksum filled in, exactly when its fields fit their bits and its length matches, or wrapped around and there are no options. |
| CodecImpl.ParseTcpHeader | libsponge/tcp_helpers/tcp_header.cc:17-48 | Field by field from the parser object, as specified. |
| CodecImpl.SerializeTcpHeader | libsponge/tcp_helpers/tcp_header.cc:51-78 | The specified bytes, or the exception for a short header. |
| CodecImpl.ParseSegment | libsponge/tcp_helpers/tcp_segment.cc:12-23 | Checksum first, then header and payload; the header's own result is not looked at. |
| CodecImpl.SerializeSegment | libsponge/tcp_helpers/tcp_segment.cc:30-45 | Header with the checksum of the whole, then the payload. |
| CodecImpl.ParseIpHeader | libsponge/tcp_helpers/ipv4_header.cc:23-75 | Fields and checks in the order of the source. |
| CodecImpl.SerializeIpHeader | libsponge/tcp_helpers/ipv4_header.cc:78-110 | The specified bytes, or an exception for a wrong version or a short header. |
| CodecImpl.ParseDatagram | libsponge/tcp_helpers/ipv4_datagram.cc:11-21 | Header, payload and the length test. |
| CodecImpl.SerializeDatagram | libsponge/tcp_helpers/ipv4_datagram.cc:23-41 | The specified bytes, or the exception for a payload of the wrong size. |
| TcpOverIp.SegmentSurvives | libsponge/tcp_helpers/tcp_over_ip.cc:26-90 | A segment that fits, wrapped, serialized, parsed and unwrapped at the peer (connected, or listening and offered a SYN), arrives with only ports and checksum filled in, and the peer's adapter is then the mirror of the sender's. |
| TcpOverIp.WireLayout | libsponge/tcp_helpers/tcp_over_ip.cc:75-90 | The bytes of a segment that fits, on the wire: an IPv4 header word by word with both addresses, the total length and its checksum, then the segment with both ports and its checksum. |
| TcpOverIp.UnwrapIff | libsponge/tcp_helpers/tcp_over_ip.cc:26-68 | An adapter takes a segment out of a datagram exactly when it says TCP, its checksum is right, the ports match, and it is from the peer for this host, or the adapter listens and is offered a SYN; only then does a listening adapter change, to that connection. |
| TcpOverIp.ConnectionIgnoresPorts | libsponge/tcp_connection.cc:27-76 | A connection treats segments that differ only in ports and checksum alike. |
| TcpOverIp.BytesDoNotMatter | libsponge/tcp_helpers/tcp_over_ip.cc:26-90 | Every segment ever sent in any run has the same effect on a connection after the trip over IPv4 as without it. |
| ArpRuns.CacheIsLastAnnounced | libsponge/network_interface.cc:57-122 | After every run the cache holds for each address the last mapping announced, with its age, if that is at most 30 seconds, and nothing otherwise. |
| ArpRuns.RequestsAreSpaced | libsponge/network_interface.cc:32-54 | Any two requests for one address are more than 5 seconds apart. |
| ArpRuns.AsksIffNotAskedRecently | libsponge/network_interface.cc:32-54 | A datagram for an unknown next hop causes a request exactly when none was sent for it in the last 5 seconds. |
| ArpFrames.OthersFrameIgnored | libsponge/network_interface.cc:57-62 | A frame that is neither for the interface's hardware address nor for all changes nothing, and nothing of it is handed up. |
| ArpFrames.HandsUpExactly | libsponge/network_interface.cc:57-70 | Over every run the datagrams handed up are, in order, exactly those in IP frames for the interface or for all. |
| ArpFrames.RepliesExactly | libsponge/network_interface.cc:71-101 | Over every run the replies sent are, in order, exactly those that requests for the interface's address call for, with the right addresses. |
| ArpLedger.FramesMatchLedger | libsponge/network_interface.cc:32-101 | Over every run, against a ledger kept from the announcements alone: the frames with datagrams are, in order, the ledger's shipments, each to the hardware address last announced for its next hop and at most 30 seconds old; what had to wait is, in order, what was released followed by what waits. |
| ArpLedger.DatagramsAreConserved | libsponge/network_interface.cc:32-101 | Over every run the ledger's shipments and what waits hold every datagram the interface was given exactly once, with the next hop it was given for; and the one that waits longest never has a known next hop. |
| ArpLedger.InOrderIff | libsponge/network_interface.cc:32-101 | Over every run the datagrams for a next hop leave in the order in which they were given, if and only if none was given while that hop was known and another for it waited. |
| ArpLedger.LaterDatagramOvertakes | libsponge/network_interface.cc:37-39 | Four events, for any addresses and datagrams, after which the only datagram sent is one that was given after another for the same hop, which still waits. |
| ArpInterface.ReleasesPrefix | libsponge/network_interface.cc:89-97 | A release sends frames for the longest prefix of the queue whose next hops are known, in order, and leaves the rest. |
| ArpInterface.ResolutionDelivers | libsponge/network_interface.cc:32-101 | Two interfaces: the request that a datagram for an unknown hop causes gets an answer from the owner of the address, the answer empties a queue that waits for it in order, and the owner hands up each of its datagrams. |
| InterfaceImpl.NetworkInterface.SendDatagram | libsponge/network_interface.cc:32-54 | Frame at once, or wait and ask if not asked recently. |
| InterfaceImpl.NetworkInterface.RecvFrame | libsponge/network_interface.cc:57-101 | What is returned, learned, answered and released. |
| InterfaceImpl.NetworkInterface.Release | libsponge/network_interface.cc:89-97 | The loop releases as specified. |
| InterfaceImpl.NetworkInterface.Tick | libsponge/network_interface.cc:104-122 | Both tables age, and what is too old is erased. |
| InterfaceImpl.NetworkInterface.AgeMappings | libsponge/network_interface.cc:108-114 | The first erase-while-iterating loop, whatever the order of iteration. |
| InterfaceImpl.NetworkInterface.AgeTimers | libsponge/network_interface.cc:116-121 | The second one. |
| Routing.MatchesIffCovers | libsponge/router.cc:57-58 | Comparing shifted addresses says exactly whether their first bits, one by one, up to the length of the prefix agree. |
| Routing.LookupIsLongestMatch | libsponge/router.cc:47-63 | A route is found exactly when the first bits of one agree with the address; it is the longest such, the last added among equals. |
| Routing.BestIsUnique | libsponge/router.cc:47-63 | That entry is unique. |
| Routing.DecideIsLongestMatch | libsponge/router.cc:37-69 | Nothing is forwarded exactly when the TTL is at most one or no route matches; otherwise it goes to that entry's interface and next hop (or the destination) with the TTL one less. |
| Routing.EachHandledOnce | libsponge/router.cc:71-80 | Each interface is given exactly the datagrams decided for it, in order. |
| RouterImpl.Router.FindRoute | libsponge/router.cc:47-63 | The scan finds the longest entry whose first bits agree, the last added among equals, or says that there is none; the wildcard has length 0, and whatever a shift by 32 bits yields does not matter. |
| RouterImpl.Router.RouteOneDatagram | libsponge/router.cc:37-69 | One datagram is sent on the decided interface or dropped. |
| RouterImpl.Router.RouteAll | libsponge/router.cc:71-80 | All queues are emptied and every datagram in them is routed, in order. |
| RouterImpl.Router.AddRoute | libsponge/router.cc:25-34 | The table gets one more entry at its end. |

## Left out

- Sockets, file descriptors, TUN and TAP devices, the event loop, the threads around a connection, and the applications: input and output.
- Addresses as text and name resolution: an IP address is a 32-bit number.
- Shared buffers: payloads are byte sequences, so sharing and moving of memory are not captured.
- Ethernet headers and ARP messages as bytes: frames and messages are values, and a payload that cannot be parsed is one constructor; their codecs copy fields and would only add easy round trips.
- Printing, summaries and hex dumps.
- The random initial number is an arbitrary parameter; random dropping is part of the network.
- The destructor of a connection.
- That parsing rejects every bad header: segment and datagram parsing discard the header's result, so there is no such promise; `SegmentAcceptedIff` and `DatagramAcceptedIff` say what is accepted.
- That delivery, or the resolution of an address, happens eventually: what is proved is that every round trip makes progress; the network may lose everything, the code does not ask again for an address by itself, and a queue whose first datagram waits holds back the others.
- The table of state names other than CLOSED and RESET.
- 64-bit counters that overflow: streams are bounded by 2^62 bytes and times are unbounded numbers; the timer's own 32-bit count is modelled.
- The order of the reassembler's set is modelled by a sorted sequence, since Dafny has no ordered set.
- Interfaces of a router are held by value, so aliasing between an interface and its router is not captured, and how frames get into an interface's inbound queue is not modelled.
- Network.ArrivedIsPrefix: like all results over `Network.Reachable`, for runs whose deliveries meet `Deliverable`; without its first part the property is false, as `LongWorlds.OldSegmentCorrupts` shows, and without its second, as `StaleAcks.StaleAckCorrupts` shows.
- Network.CleanCloseStays: that the closed side stays closed asks for an empty retransmission queue, which always holds below 2^32; with another queue it may send again, as `LongConnections.CleanCloseSpeaksAgain` shows.
- ReassemblyRuns.OutputIsAcceptedPrefix: for pushes that start no later than the first unacceptable index, the exact condition by `ReassemblyWindow.PushSafeIff`; connections meet it by `Network.ExecKeeps`.
- RouterImpl.Router.RouteOneDatagram: like the other members that look up routes, asks for prefix lengths of at most 32 and existing interfaces in the table; with others the source shifts by a negative amount or indexes out of range.
- Ipv4Codec.HeaderRoundTrip: asks for a length that matches the payload, since the source's parser compares it with the buffer.
- InterfaceImpl.NetworkInterface.SendDatagram: a frame holds the datagram as given, so the checksum that serialization fills in and the exception for a datagram that cannot be serialized are not seen here; `Ipv4Codec` has both.
- MissedBlocks.SegmentSafeIff: asks for a stream that goes on for 2^32 bytes and a capacity below 2^31; with less to come the misplaced segment may never be reached.
