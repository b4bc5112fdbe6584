# A verified model of the IM server's core

This project models the three parts of the TCP instant-messaging server in which many functions have to
agree, and proves what they promise, in Dafny 4.11. `dafny verify dfyconfig.toml` checks all of it.

**The wire path.** `Crc.dfy` is the 16-bit checksum with the generator of section 2 of ITU-T V.41, as the
two nested loops compute it, and as division of polynomials over GF(2). `Wire.dfy` is the 44-byte header in
network byte order (Appendix B of RFC 791). `Buffer.dfy` is the two-index growable buffer, `Codec.dfy` the
two-state frame parser, `Framing.dfy` what the parser makes of any stream of frames in any chunks,
`Connection.dfy` the capped output queue with its water marks, `ConnectionEnds.dfy` what gets out of it in the end, and `EndToEnd.dfy` puts sender and receiver together: what is decoded
is a prefix of what was accepted.

**The reliable-message protocol.** `MessageStore.dfy` is the in-memory store with its five maps.
`MessageRuns.dfy` proves what every interleaving of its critical sections keeps: conservation of messages,
the ack mark, idempotent sends, page-by-page pulls. `RetrySchedule.dfy` is the step system of direct
deliveries and retry passes that work on copies of messages; `MessageService.dfy` has those calls as loops
and shows them to be runs of the step system. `SqlAllocation.dfy` is the allocation of ids and sequence
numbers by the database-backed store, across failed transactions and restarts. `Numbers.dfy` holds two
definitions that several parts share.

**Concurrency and admission.** `EventLoop.dfy` is the hand-off of functors to a loop through a queue, a flag
and an eventfd; `ThreadPool.dfy` the pool with its drain-on-stop and its bounded queue; `RateLimiter.dfy`
the token bucket and the per-key pool; `CircuitBreaker.dfy` the breaker and the history it refines.

Objects that the code updates in place are classes whose methods are proved against functions on values;
the theorems are about those functions and about runs. Threads are modelled as step systems: a step is one
critical section, one access to an atomic flag or one system call, and runs are all sequences of enabled
steps. Clock readings, the kernel's answers and the database's answers are inputs.

## Properties that do not hold as one would wish

These laws hold only under a condition. Each has a lemma that says exactly when it holds and, but for the last
one, a lemma with failing cases.

- After a call every complete frame has been reported: exactly if all complete frames that were not reported before
  it, but for the last, have a right checksum (`ReportsAllExactlyIf`); the frames behind a bad one wait for the next
  call (`GoodFrameWaitsBehindBad`).
- Water marks: in all runs with messages of at most m bytes a queue at the high mark means back-pressure and
  back-pressure means a queue above the low mark, exactly if the high mark is positive and m is zero, or the marks
  are in order and m bytes fit between the low mark and the cap (`MarksHoldExactlyIf`, `MarksBroken`).
- No lost wake-up: at the very first poll it holds exactly if the loop's own thread queued nothing before
  `loop()`, or another thread queued or quit (`FirstPollExactly`, `FirstPollCanSleep`).
- quit() stops the loop: exactly if it is called after `loop()` began, at the next test of the flag
  (`StopsExactlyIf`); called earlier it is forgotten (`EarlyQuitIsForgotten`).
- Every unacked message lies above the ack mark, so that no retry pass leaves it out for its number: at every
  point of a run exactly if each ack is for the oldest unacked message or repeats an earlier one
  (`AllAboveMarkExactlyIf`). A message overtaken by the mark is in no later retry pass
  (`OvertakenIsNeverRetried`, `LaterAckOvertakes`). Failed messages and those beyond the batch size are left out of
  a pass in any case (`RetryPassConsiders`).
- Every task put before stop(true) returns has run: whatever the interleaving, exactly if no submit was under way
  when the flag was cleared (`DrainsAllExactlyIf`, `SubmitLeftBehind`, `LateTaskIsLost`).
- Distinct messages keep distinct dedup keys: exactly unless one sender id continues another after a `#`
  (`SameKeyExactlyIf`, `SendersWithHashCollide`).
- Increasing sequence numbers after a failed max-sequence query: exactly if the receiver's committed numbers
  have no gap (`FailedQuerySafeExactlyIf`, `FailedInsertLeavesGap`).
- A save into the database whose queries and transaction succeed is committed: after any failures and restarts
  exactly if neither its sender and client id nor the receiver's next number is taken (`CommitsExactlyIf`), and if no
  earlier query failed exactly if the sender and client id are not taken (`CommitsExactlyIfKeyIsNew`). The empty
  client id counts as one, so each sender gets at most one message without a client id committed (`SavedAgain`).
- A message goes only to the connection of the user it is addressed to: at every point of a run exactly if each
  direct delivery is of a message that the store has for that same receiver (`RightReceiverExactlyIf`); a sender that
  uses one client id for two receivers gets the first one's message delivered to the second (`ReusedIdGoesAstray`).
- A token bucket stays between zero and its burst: for requests of n tokens exactly if n is not negative
  (`InRangeExactlyIf`).

Two more are stated with their limits. `nextBeginSeq` used directly as the next cursor loses exactly the message
that bears that number (`NextBeginSkips`). The retry schedule needs both its conditions: an overlap or a re-send
sends a message twice at one time, which breaks the distance if the ack timeout is positive and the number of sends
if no more than one is allowed (`OverlapSendsTwice`, `ResendSendsTwice`).

## Model

| member | source | states |
|---|---|---|
| Crc.CalcCRC16 | src/codec/protocol.cpp:39-62 | the two nested loops compute `Checksum`, the checksum defined one message bit at a time |
| Crc.CoeffsFeedAll | src/codec/protocol.cpp:48-58 | the register and a polynomial over GF(2) of degree below 16 stay in step over any bits |
| Crc.LoadAtOnce | src/codec/protocol.cpp:47-58 | adding several bits to the register at once and then shifting equals absorbing them one by one |
| Crc.AbsorbAllLinear | src/codec/protocol.cpp:45-59 | the remainder of a sum of messages is the sum of their remainders |
| Crc.ChecksumIsRemainder | src/codec/protocol.cpp:39-62 | the checksum is the remainder of long division of the message and 16 zeros by x^16+x^12+x^5+1, from the preset that matches 0xFFFF |
| Crc.CheckValue | src/codec/protocol.cpp:39-62 | the empty message gives the preset 0xFFFF and the ASCII digits 1 to 9 the catalogued check value 0x29B1 |
| Crc.ChecksumAppend | src/codec/protocol.cpp:45-59 | how one more byte changes the checksum |
| Crc.BurstLeavesRemainder | src/codec/protocol.cpp:48-58 | a difference within 16 consecutive bits that leaves no remainder is no difference |
| Crc.AbsorbParity | src/codec/protocol.cpp:48-58 | each absorbed bit adds its own parity to the register's |
| Crc.DetectsErrors | src/codec/protocol.cpp:39-62 | two equal-length payloads, of any length, whose difference is a burst of at most 16 bits or has odd weight get different checksums |
| Wire.Net32RoundTrip | src/base/util.cpp:33-41 | 32-bit network encoding and decoding undo each other, both ways |
| Wire.Net64RoundTrip | src/base/util.cpp:43-67 | the same for 64 bits |
| Wire.Swap16 | src/base/util.cpp:23-31 | on either kind of host, the swapped 16-bit value is in network order in memory, and swapping twice is nothing |
| Wire.Swap32 | src/base/util.cpp:33-41 | the same for 32 bits |
| Wire.Swap64 | src/base/util.cpp:43-67 | the same for the 64-bit swap built from two 32-bit ones |
| Wire.SwapBack16 | src/base/util.cpp:28-31 | the host's reading of two copied bytes, swapped, is their network value |
| Wire.SwapBack32 | src/base/util.cpp:38-41 | the same for four bytes |
| Wire.SwapBack64 | src/base/util.cpp:56-67 | the same for eight bytes |
| Wire.FieldSlices | src/codec/codec.cpp:11-48 | each header field occupies exactly its own bytes at the documented offsets |
| Wire.HeaderRoundTrip | src/codec/codec.cpp:23-90 | reading a written header gives it back, for every header |
| Wire.HeaderCovers | src/codec/codec.cpp:11-21 | writing a read header gives back all 44 bytes: the fields cover the header and do not overlap |
| Wire.WriteHeader | src/codec/codec.cpp:23-48 | field by field the method produces the network bytes of the header, on either kind of host |
| Wire.ReadHeader | src/codec/codec.cpp:50-90 | it returns the header at the front of the bytes, on either kind of host |
| Buffers.Buffer.constructor | src/codec/buffer.h:93-98 | a new buffer is valid and empty, with 1024 writable bytes |
| Buffers.Buffer.Retrieve | src/codec/buffer.h:161-172 | removes exactly the first bytes, also when it resets the indices |
| Buffers.Buffer.RetrieveAll | src/codec/buffer.h:180-184 | leaves nothing readable and all but the prepend area writable |
| Buffers.Buffer.RetrieveAsString | src/codec/buffer.h:201-207 | what it returns followed by what stays is what was there |
| Buffers.Buffer.HasWritten | src/codec/buffer.h:251-255 | appends the bytes that stood behind the writer index |
| Buffers.Buffer.EnsureWritableBytes | src/codec/buffer.h:237-244 | afterwards there is room, and the contents are the same |
| Buffers.Buffer.Append | src/codec/buffer.h:215-220 | the contents grow by exactly the bytes given |
| Buffers.Buffer.Compact | src/codec/buffer.cpp:71-75 | the leftward copy within one array keeps the contents; it needs the reader past the prepend area |
| Buffers.Buffer.MakeSpace | src/codec/buffer.cpp:63-77 | yields enough room and keeps the contents; it compacts only with the reader past the prepend area |
| Buffers.Buffer.ReadFd | src/codec/buffer.cpp:33-61 | everything the kernel delivered, spilled or not, is appended in order; on error nothing changes |
| Buffers.Replay | src/codec/buffer.h:161-255 | over any run of operations the readable slice equals a plain byte sequence treated the same way |
| Buffers.ReadInPieces | src/codec/buffer.cpp:33-61 | reading until nothing is left appends the whole input, whatever the room at each read |
| Codecs.Pack | src/codec/codec.cpp:115-131 | appends the network bytes of the normalised header and then the message |
| Codecs.Codec.constructor | src/codec/codec.cpp:94-98 | a new parser is valid and expects a header |
| Codecs.Codec.OnMessage | src/codec/codec.cpp:133-164 | state, unread bytes and events after the loop are those of the recursive definition of parsing |
| Codecs.Codec.Turn | src/codec/codec.cpp:138-163 | a turn after which the loop goes on has consumed at least 44 bytes and produced one event |
| Codecs.Codec.ParseHeader | src/codec/codec.cpp:166-215 | which error a header gets; an error discards all bytes, success discards none and caches the header in front |
| Codecs.Codec.ParsePayload | src/codec/codec.cpp:217-260 | consumes exactly the frame; a packet or a checksum error according to the payload's checksum |
| Codecs.ValueOfInjective | src/codec/codec.cpp:223-224 | comparing the widened checksums is comparing the checksums |
| Framing.DrainFrame | src/codec/codec.cpp:138-163 | a whole valid frame in front is taken off and reported; only a good one lets the call go on |
| Framing.DrainPartial | src/codec/codec.cpp:140-157 | with less than a frame in front the parser waits and remembers the header if it has it |
| Framing.Resynchronises | src/codec/codec.cpp:133-260 | on frames with acceptable headers and any checksums, after any chunks: one event per consumed frame, in order; consumed and readable bytes are all bytes received; the cached header is the one in front |
| Framing.ChunkingIrrelevant | src/codec/codec.cpp:133-164 | good frames cut into chunks anywhere yield exactly their packets and leave nothing |
| Framing.FramingRoundTrip | src/codec/codec.cpp:115-215 | any packets within the size limit, packed and cut anywhere, come out with their payload and the caller's six header fields as given, and the protocol's five fields filled in |
| Framing.HeaderJudged | src/codec/codec.cpp:166-236 | by its first twelve bytes a header is accepted or refused with the code of the first test that fails, dropping all bytes; a complete frame is then delivered or dropped by its checksum |
| Framing.SurvivesExactlyIfFits | src/codec/codec.cpp:196-210 | a packed packet comes out, alone and as given, if and only if header and payload are at most 64 MiB, 32-bit wrap of the length included |
| Framing.CorruptionIsDropped | src/codec/codec.cpp:217-236 | a packed frame whose payload suffered a burst of at most 16 bits or an odd number of bit errors is dropped, and exactly that frame |
| Framing.ReportsAllExactlyIf | src/codec/codec.cpp:133-164 | after any call on any valid stream the number of events equals the number of complete frames iff all complete frames not reported before it, but for the last, are good |
| Framing.GoodFrameWaitsBehindBad | src/codec/codec.cpp:158-161 | a complete frame behind a bad one is reported only by the next call |
| Framing.FeedChunks | src/codec/codec.cpp:133-164 | appending chunks to a real buffer and calling the real parser is the run the theorems speak about |
| Connections.TcpConnection.constructor | src/net/tcpConnection.cpp:9-22 | initial state and limits |
| Connections.TcpConnection.SendInLoop | src/net/tcpConnection.cpp:156-222 | the new state is that of `Send`, for every answer of the kernel |
| ConnectionEnds.SendExactly | src/net/tcpConnection.cpp:156-222 | which bytes of a message go to the wire at once, which are queued and when they are dropped, by the kernel's answer; write interest and back-pressure afterwards |
| Connections.TcpConnection.Enqueue | src/net/tcpConnection.cpp:195-221 | what could not be written is queued below the cap and dropped above it |
| Connections.TcpConnection.HandleWrite | src/net/tcpConnection.cpp:75-119 | the new state is that of `Drained`, for every series of partial writes |
| ConnectionEnds.WritableExactly | src/net/tcpConnection.cpp:75-119 | exactly the first min(queue, capacities up to the first zero) bytes move to the end of the wire; the rest stays, with write interest iff there is any; back-pressure ends at the low mark |
| Connections.TcpConnection.HandleClose | src/net/tcpConnection.cpp:121-138 | closing ends write interest |
| Connections.TookMore | src/net/tcpConnection.cpp:80-98 | two partial writes are one of their sum, back-pressure included |
| ConnectionRuns.QueueInvariantHolds | src/net/tcpConnection.cpp:80-117 | in every run the queue stays within the cap, and write interest is on iff it is not empty |
| ConnectionRuns.MarksHoldExactlyIf | src/net/tcpConnection.cpp:195-221 | for any limits: the water marks mean what they say in all runs of an established connection with messages up to m bytes iff the high mark is positive and m is zero, or low < high and m plus the low mark is at most the cap |
| ConnectionRuns.MarksBroken | src/net/tcpConnection.cpp:197-221 | for all other limits and sizes, a run of an established connection that breaks them |
| ConnectionRuns.TornExactlyWhen | src/net/tcpConnection.cpp:167-206 | an accepted message is appended whole; part of one is left on the wire exactly when a direct write was partial and the rest exceeds the cap |
| ConnectionRuns.ConservedInRuns | src/net/tcpConnection.cpp:156-222 | wire and queue together are exactly the accepted messages, in order |
| ConnectionEnds.WritableFlushes | src/net/tcpConnection.cpp:75-119 | from any reachable state that is not closed, a writable event with room puts every accepted message on the wire |
| ConnectionEnds.ClosingIsFinal | src/net/tcpConnection.cpp:121-138 | after closing nothing more is accepted, written or queued, whatever comes later |
| EndToEnd.AcceptedAreFrames | src/net/tcpConnection.cpp:156-222 | what the connection accepted is exactly the packed form of the accepted packets |
| EndToEnd.WireIsPrefix | src/net/tcpConnection.cpp:75-119 | the bytes the kernel took are a prefix of the accepted frames back to back |
| EndToEnd.DecodedArePrefixOfAccepted | src/codec/codec.cpp:115-260 | for every schedule of partial writes and every chunking, the decoded packets are the first k accepted ones, whole, in order and with the caller's fields, and k is as large as the bytes received allow |
| EndToEnd.AllAcceptedAreDecoded | src/net/tcpConnection.cpp:75-119 | on a connection that is not closed, one writable event for which the kernel has room lets the receiver decode every accepted packet |
| MessageStores.InMemoryMessageStore.constructor | src/storage/messageStore.cpp:63-66 | a new store is empty and starts at id 1 |
| MessageStores.InMemoryMessageStore.SaveMessageAndDelivery | src/storage/messageStore.cpp:74-121 | a duplicate returns the first message and changes nothing; otherwise all five maps are updated as `Insert` says |
| MessageStores.InMemoryMessageStore.MarkDeliveryAttempt | src/storage/messageStore.cpp:123-150 | rewrites the delivery record of the receiver's own message, or reports which check failed |
| MessageStores.InMemoryMessageStore.MarkAcked | src/storage/messageStore.cpp:152-195 | records the ack, raises the mark, removes the message from the pending list; or reports which check failed |
| MessageStores.InMemoryMessageStore.LoadPendingMessages | src/storage/messageStore.cpp:197-245 | the loop returns the first `limit` eligible messages, and nextBeginSeq |
| MessageStores.InMemoryMessageStore.GetLastAckedSeq | src/storage/messageStore.cpp:247-252 | the user's mark, zero if none |
| MessageStores.SameKeyExactlyIf | src/storage/messageStore.cpp:254-261 | two pairs share a dedup key iff they are equal or one sender id continues the other after a '#' as the client ids require |
| MessageStores.PlainSendersKeepApart | src/storage/messageStore.cpp:254-261 | senders without '#' share a key only with themselves under the same client id |
| MessageStores.SendersWithHashCollide | src/storage/messageStore.cpp:254-261 | two different users that do share a key |
| MessageRuns.RunKeepsInvariant | src/storage/messageStore.cpp:74-195 | every run keeps the agreement of the five maps |
| MessageRuns.Conservation | src/storage/messageStore.cpp:98-121 | in every interleaving each message is exactly once in its own receiver's pending list or acked, never both, and in nobody else's |
| MessageRuns.HistoryIsKept | src/storage/messageStore.cpp:145-147 | the notify fields of a saved message never change, and an ack is for good |
| MessageRuns.AckedNeverLoadedAgain | src/storage/messageStore.cpp:185-238 | no later load returns an acked message, whatever late attempts write into its status |
| MessageRuns.EligibleExactly | src/storage/messageStore.cpp:215-238 | a load may return exactly the user's unacked messages above the cursor in no final state |
| MessageRuns.EligibleIncreases | src/storage/messageStore.cpp:215-238 | they come in increasing sequence order |
| MessageRuns.SaveAddsOne | src/storage/messageStore.cpp:98-120 | a new message carries what was asked for under the next numbers, and is exactly what its receiver can load besides the earlier ones |
| MessageRuns.AckRemovesOne | src/storage/messageStore.cpp:185-194 | an accepted ack takes its message, and nothing else, out of what anyone can load |
| MessageRuns.AttemptRewritesOne | src/storage/messageStore.cpp:139-149 | an attempt leaves other messages alone; its own is loaded with the new record unless acked or final |
| MessageRuns.AckExactly | src/storage/messageStore.cpp:152-195 | when an ack is accepted and which check it fails otherwise; the record and the mark it leaves; that it changes nothing else, and nothing if refused |
| MessageRuns.AttemptExactly | src/storage/messageStore.cpp:123-150 | when an attempt is accepted and which check it fails otherwise; that nobody but the receiver can have a record rewritten |
| MessageRuns.RecordStays | src/storage/messageStore.cpp:123-195 | in any run a message's record changes only by acks of its receiver and attempts for its receiver |
| MessageRuns.AckIsOnRecord | src/storage/messageStore.cpp:185-186 | an accepted ack leaves its time and Read or Delivered by its code, through any run until the next ack or attempt for that message |
| MessageRuns.GivenUpStaysOut | src/storage/messageStore.cpp:224-230 | a failed message is in no later page of anybody unless a later attempt at it is recorded |
| MessageRuns.AckMark | src/storage/messageStore.cpp:185-191 | in every reachable state the mark is the largest acked sequence number, zero if none, and at most the cursor |
| MessageRuns.MarkNeverDecreases | src/storage/messageStore.cpp:187 | the mark never decreases |
| MessageRuns.RetryPassConsiders | src/service/messageService.cpp:312-318 | a pass considers exactly the unacked, non-failed messages above the mark it read, even if acks arrive before it loads, and of these the first `limit` in sequence order |
| MessageRuns.AllAboveMarkExactlyIf | src/storage/messageStore.cpp:185-191 | every unacked message is above the mark at every point of a run iff each ack is for the oldest unacked message or repeats one |
| MessageRuns.LaterAckOvertakes | src/storage/messageStore.cpp:185-191 | acking the second of two messages first leaves the other below the mark |
| MessageRuns.OvertakenIsNeverRetried | src/service/messageService.cpp:312-318 | a message below the mark is in no later retry pass, whatever happens between reading the mark and loading |
| MessageRuns.IdempotentSend | src/storage/messageStore.cpp:81-96 | a second save with the same sender and client id, after anything else, returns the same message and leaves the store unchanged |
| MessageRuns.DuplicateExactlyIf | src/storage/messageStore.cpp:81-96 | a save is taken for a duplicate iff a saved message has its key; without '#' in the sender ids that message is the sender's own |
| MessageRuns.PageIsFront | src/storage/messageStore.cpp:197-245 | a page is the front of the eligible messages, full unless it is all of them; nextBeginSeq is its last number plus one |
| MessageRuns.PullIncreases | src/storage/messageStore.cpp:197-245 | what is pulled page by page strictly increases, so nothing comes twice |
| MessageRuns.PullReturns | src/service/messageService.cpp:249-288 | whatever happens between the pages, a message that stays eligible is pulled iff the cursor has passed it |
| MessageRuns.PullCatchesUp | src/service/messageService.cpp:249-288 | once a page has room to spare, every message that stayed eligible has been pulled |
| MessageRuns.NextBeginSkips | src/storage/messageStore.cpp:224 | continuing from nextBeginSeq itself loses exactly the message with that number |
| MessageRuns.NextBeginLosesSecond | src/storage/messageStore.cpp:224-243 | a case of it for every user |
| RetrySchedules.SendIsDue | src/service/messageService.cpp:19-39 | an allowed send keeps the distance to the previous one and the limit on their number |
| RetrySchedules.StampKeeps | src/service/messageService.cpp:461-463 | the time of delivery is read after the send, apart from writing it |
| RetrySchedules.RecordKeeps | src/service/messageService.cpp:465-474 | recording a send, however late, makes the stored count and time right again; the 32-bit count does not wrap |
| RetrySchedules.GiveUpKeeps | src/service/messageService.cpp:328-352 | giving up records the truth about past sends |
| RetrySchedules.StepKeeps | src/service/messageService.cpp:290-376 | every step of any delivery, ack, save or clock keeps the invariant |
| RetrySchedules.RetrySchedule | src/service/messageService.cpp:290-376 | without overlapping deliveries and re-sends, a message is sent at most max(1, maxRetryCount) times, its n-th send at least (n-1) ackTimeout + backoff (n-1)(n-2)/2 after the first |
| RetrySchedules.OverlapSendsTwice | src/service/messageService.cpp:138-203 | with an overlap a message can be sent twice at one time; which settings' schedule that breaks |
| RetrySchedules.ResendSendsTwice | src/service/messageService.cpp:159-190 | with a re-send a message is sent twice at one time, without any overlap; which settings' schedule that breaks |
| RetrySchedules.RightReceiverExactlyIf | src/service/messageService.cpp:161-182 | in every run all deliveries hold and hand over only messages for their own user, at every point, iff each direct delivery is of a message the store has for that same receiver |
| RetrySchedules.ReusedIdGoesAstray | src/service/messageService.cpp:161-182 | one client id used for two receivers: the first one's message is handed to the second's connection |
| MessageServices.MessageService.DeliverLocked | src/service/messageService.cpp:419-474 | sends on the given user's connection, then records status, time and count; does nothing offline; succeeds iff online and the store knows the message as the receiver's |
| MessageServices.MessageService.DeliverPendingMessages | src/service/messageService.cpp:290-376 | the loop's effect on store and sends, message by message |
| MessageServices.PassExactly | src/service/messageService.cpp:325-375 | each message on the page is handed over, once, iff its attempts are not used up, the connection is alive, and it was never delivered or its timeout and backoff have passed; the record it then has; given up iff its attempts are used up |
| MessageServices.PassIsConfined | src/service/messageService.cpp:290-376 | a pass hands over in sequence order, only to its user and only from its page, and changes no other message |
| MessageServices.MessageService.PullOfflineMessages | src/service/messageService.cpp:249-288 | the notify fields of the page, in order, and nextBeginSeq |
| MessageServices.MessageService.SendReliableP2PMessage | src/service/messageService.cpp:138-203 | saves and hands what the store then has, a duplicate too, to the connection of the requested receiver; returns the stored message's numbers; fails iff the connection it found has gone or the attempt is not recorded |
| MessageServices.SavedCanBeRecorded | src/service/messageService.cpp:161-190 | the attempt at what was just saved is always recorded, so a send fails only if the connection has gone |
| MessageServices.DirectSendExactly | src/service/messageService.cpp:152-190 | a send to a connected receiver adds one hand-over to that receiver and leaves the stored message under way with that time and one more attempt |
| MessageServices.PassIsRun | src/service/messageService.cpp:290-376 | a whole retry pass has the effect of a run of the step system, without overlap if no other delivery to its user is under way |
| MessageServices.SendIsRun | src/service/messageService.cpp:138-203 | so has a send to a connected receiver, and it is no re-send if the message is new |
| SqlAllocation.MySqlMessageStore.constructor | src/storage/messageStore.cpp:507-517 | a restarted process continues after the largest committed id |
| SqlAllocation.MySqlMessageStore.EnsureServerSeqCursor | src/storage/messageStore.cpp:519-533 | primes a cursor once; a failed query leaves zero and an error |
| SqlAllocation.MySqlMessageStore.SaveMessageAndDelivery | src/storage/messageStore.cpp:290-348 | a committed duplicate is found before anything is allocated; otherwise id and number are taken even if the transaction fails; success means this row is committed |
| SqlAllocation.CommittedInOrder | src/storage/messageStore.cpp:290-348 | over any saves, failures and restarts with successful queries, committed ids and each receiver's numbers strictly increase in commit order |
| SqlAllocation.RunKeeps | src/storage/messageStore.cpp:290-348 | the same with failing queries that find no gap |
| SqlAllocation.FailedQuerySafeExactlyIf | src/storage/deliveryRepository.cpp:171-186 | after a failed query the order is safe in all continuations iff the receiver's committed numbers have no gap |
| SqlAllocation.FailedInsertLeavesGap | src/storage/messageStore.cpp:331-335 | a failed insert followed by a commit leaves such a gap |
| SqlAllocation.CommittedOnce | src/storage/messageStore.cpp:297-342 | over any failures and restarts each pair of sender and client id is committed at most once |
| SqlAllocation.SavedAgain | src/storage/messageStore.cpp:535-580 | a later save of a committed message changes nothing; a sender's second message without a client id is never committed |
| SqlAllocation.CommitsExactlyIf | src/storage/messageStore.cpp:290-348 | after any failures and restarts on any table, a save that meets no failure is committed iff neither its sender and client id nor the receiver's next number is taken |
| SqlAllocation.CommitsExactlyIfKeyIsNew | src/storage/messageStore.cpp:290-348 | with successful queries so far: iff its sender and client id are not taken |
| SqlAllocation.FirstAfterRestart | src/storage/messageStore.cpp:507-533 | the first commit after a restart gets an id one above the largest in the table and a number one above its receiver's largest |
| SqlAllocation.SaveUsesUp | src/storage/messageStore.cpp:297-342 | what each save uses up and adds, by the outcome of its lookup, its query and its transaction |
| EventLoops.StepKeepsInvariant | src/net/eventLoop.cpp:59-80 | every step of the loop or of any producer keeps order and wake-ups |
| EventLoops.HandOff | src/net/eventLoop.cpp:134-184 | in every interleaving executed, rest of batch and pending together are the queueing order; at every poll after the first, pending functors have a wake-up written or on its way |
| EventLoops.FirstPollExactly | src/net/eventLoop.cpp:134-144 | when the same holds at the first poll, as an if-and-only-if on the steps before it |
| EventLoops.FirstPollCanSleep | src/net/eventLoop.cpp:134-144 | a run that reaches the first poll with a functor pending and no wake-up |
| EventLoops.EveryTurnRunsPending | src/net/eventLoop.cpp:171-184 | in every run from a poll on, when a batch is done all that was queued at that poll has run, in order |
| EventLoops.TurnRunsEverything | src/net/eventLoop.cpp:66-77 | from any poll there is a run of the loop alone that runs everything queued and is back at the poll, or stopped if told to quit |
| EventLoops.PollWakesExactlyIf | src/net/eventLoop.cpp:146-169 | at a poll the eventfd is readable iff a wake-up was written that the loop has not read since, so after a handled wake-up the poll sleeps again |
| EventLoops.StopsExactlyIf | src/net/eventLoop.cpp:59-89 | the loop has stopped iff quit() was called, by any thread, after loop() began and the flag was tested since |
| EventLoops.EarlyQuitIsForgotten | src/net/eventLoop.cpp:64 | a quit() before loop() does not keep it from its first poll |
| ThreadPools.StepKeepsAbout | src/base/blockingQueue.h:93-131 | no step loses or duplicates a task or an empty job; a put adds its own |
| ThreadPools.DrainedStays | src/base/threadpool.cpp:33-56 | once no early task is queued, none is again |
| ThreadPools.StoppedPool | src/base/threadpool.cpp:59-83 | after stop(true) a task has run once or is left in the queue; which |
| ThreadPools.OneEmptyJobEach | src/base/threadpool.cpp:43-46 | stop() has put one empty job for each worker |
| ThreadPools.DrainOnStop | src/base/threadpool.cpp:33-83 | in every interleaving, when stop(true) has returned every task put before the flag was cleared has run exactly once, iff there is a worker or no such task |
| ThreadPools.DrainsAllExactlyIf | src/base/threadpool.cpp:33-56 | from any state of a running pool with a worker: however stop(true) goes on, every put task has run exactly once when it has returned, iff no submit was under way when it cleared the flag |
| ThreadPools.SubmitLeftBehind | src/base/threadpool.h:126-137 | any submit under way can be left behind by stop(true) |
| ThreadPools.LateTaskIsLost | src/base/threadpool.h:116-140 | in a pool of any size there is a run in which stop(true) returns and a put task is never run |
| ThreadPools.ClearedNeverRun | src/base/threadpool.cpp:39-42 | the tasks queued when stop(false) clears the queue never run |
| ThreadPools.FirstInFirstOut | src/base/blockingQueue.h:93-131 | with any number of workers no task is taken before one put earlier, in every interleaving |
| ThreadPools.OneWorkerRunsInOrder | src/base/threadpool.cpp:59-83 | a pool with one worker runs tasks in the order they were put |
| ThreadPools.QueueBound | src/base/threadpool.h:126-137 | with k submitting threads and no stop the queue holds at most maxQueueSize + k - 1 jobs; stop adds at most one per worker |
| ThreadPools.QueueBoundIsReached | src/base/threadpool.h:126-137 | a run that reaches that bound, for every limit and every k |
| RateLimiters.TokenBucketRateLimiter.constructor | src/infra/rateLimiter.cpp:10-16 | a new bucket is full, with a burst of at least one |
| RateLimiters.TokenBucketRateLimiter.Take | src/infra/rateLimiter.cpp:18-28 | refills, then grants iff there is enough, and takes only then |
| RateLimiters.TokenBucketRateLimiter.Reset | src/infra/rateLimiter.cpp:30-37 | a full bucket with the new settings |
| RateLimiters.TokenBucketRateLimiter.RefillNow | src/infra/rateLimiter.cpp:39-52 | the tokens earned since the last refill, up to the burst; nothing if the clock went back |
| RateLimiters.StaysInRange | src/infra/rateLimiter.cpp:18-52 | tokens stay in [0, burst] through any non-negative calls, with any clock |
| RateLimiters.InRangeExactlyIf | src/infra/rateLimiter.cpp:18-28 | all runs of calls for n tokens keep every bucket in range iff n is not negative |
| RateLimiters.WindowBound | src/infra/rateLimiter.cpp:18-52 | after any earlier calls, what is granted in a window from s to t is at most burst + max(rate, 0)(t - s)/1000 |
| RateLimiters.LimiterBound | src/infra/rateLimiter.cpp:10-52 | the range and the window bound for a limiter as it is made or reset, through any calls |
| RateLimiters.SteadyIsGranted | src/infra/rateLimiter.cpp:18-52 | calls within the burst that each ask for no more than was earned since the last are all granted |
| RateLimiters.ExactAccount | src/infra/rateLimiter.cpp:18-52 | below the brim, in any clock: tokens left are those there were plus those earned minus those granted, and the next call is granted iff grants so far and its own tokens do not exceed what there was and was earned |
| RateLimiters.WholeBurstAtOnce | src/infra/rateLimiter.cpp:10-28 | a new limiter grants its whole burst at once and not one token more |
| RateLimiters.Isolation | src/service/overloadProtectService.cpp:128-143 | in every interleaving each key's verdicts are those of a bucket of its own fed only that key's calls, whenever it was made |
| RateLimiters.OverloadProtectService.constructor | src/service/overloadProtectService.cpp:6-13 | empty pools that share no limiter |
| RateLimiters.OverloadProtectService.GetOrCreateLimiter | src/service/overloadProtectService.cpp:128-143 | the key's own limiter object, made full at first use; the other limiters stay the objects they are |
| RateLimiters.OverloadProtectService.CanSendMessage | src/service/overloadProtectService.cpp:85-94 | unlimited users pass and change no limiter; any other call is a find and a take on its key's limiter object alone |
| RateLimiters.OverloadProtectService.CanAcceptConnection | src/service/overloadProtectService.cpp:20-33 | the same for addresses, after the limit on connections |
| CircuitBreakers.CircuitBreaker.constructor | src/infra/circuitBreaker.cpp:8-16 | a new breaker is closed |
| CircuitBreakers.CircuitBreaker.AllowRequest | src/infra/circuitBreaker.cpp:18-39 | the verdict, and the turn to half-open that asking causes |
| CircuitBreakers.CircuitBreaker.RecordSuccess | src/infra/circuitBreaker.cpp:41-47 | closes and forgets all failures |
| CircuitBreakers.CircuitBreaker.RecordFailure | src/infra/circuitBreaker.cpp:49-63 | counts in 32 bits and opens at the threshold; nothing if disabled |
| CircuitBreakers.CircuitBreaker.Configure | src/infra/circuitBreaker.cpp:65-74 | a closed breaker with the new settings |
| CircuitBreakers.VerdictFromHistory | src/infra/circuitBreaker.cpp:18-74 | for every history, clock and threshold, wrap of the counter included, the verdict is the one computed from the history alone |
| CircuitBreakers.RefusesExactlyIf | src/infra/circuitBreaker.cpp:18-74 | with a clock in order and fewer than 2^32 failures: refused iff enabled, threshold reached since the last success or configuration, and the last failure less than halfOpenAfterMs ago |
| CircuitBreakers.ShortFormNeedsClock | src/infra/circuitBreaker.cpp:32-36 | a clock set back after a probe is allowed where the short form refuses |

## Left out

- Sockets, epoll, eventfd and clock system calls: their answers are inputs; the poller, channels, acceptor and addresses around them are not modelled.
- The JSON and Protobuf serializers, the MySQL and Redis clients and SQL text: payloads are bytes and tables are sequences of rows.
- Authentication, routing, sessions, heartbeat sweeps, metrics, configuration, tracing, logging and the wiring of the server programs: they would add easy members or input and output only.
- Callbacks of the parser and of connections: they are recorded as events; re-entrant calls from inside a callback are not modelled.
- One parser shared by several connections: the framing theorems are about one parser with one buffer.
- The first overload of pack and the guessing of flags from a command: the second overload overwrites what matters here.
- The Windows branches of readFd, handleWrite and sendInLoop.
- Closing the socket after the last write of a disconnecting connection: it does not change the output queue.
- The event loop, the thread pool and the blocking queue are step systems on values, not classes: update in place and aliasing are not captured, the order of steps is.
- Restarting a stopped pool, a second call of loop() and a task that throws: one life of a pool or loop is modelled, and every task returns.
- A second caller of stop(): it returns at once, before the drain of the first is over, so what is proved of a returned stop(true) is proved of the call that cleared the flag.
- 64-bit wrap of message ids, sequence numbers and byte counts: they are unbounded.
- The store being absent, its errors while loading, and broadcast messages: the in-memory store never fails to load.
- Delivery attempts and acks of the database-backed store and its cache of ack marks: only saving is modelled, with one writing process at a time and a successful max-id query at start.
- Double rounding in the token bucket: doubles are reals.
- Replacing the limiter pools while calls are under way: a run of the pool is between two reconfigurations.
- The plain counters of connections and messages per second.
