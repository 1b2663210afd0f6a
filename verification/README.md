# Camkit: verified models

A Dafny model of the parts of Camkit that hold state or do arithmetic, with proofs of what they
promise. Camkit captures video, stamps text on it, converts and encodes it as H.264, packs it into
RTP packets and sends them. `dafny verify dfyconfig.toml` checks everything.

| files | what they model |
|---|---|
| `AnnexB`, `RtpFormat`, `RtpSession`, `RtpPack` | the packetiser: splitting a byte stream (Annex B of ITU-T H.264) into NAL units, fragmenting them (RFC 6184), and the header state of a session (RFC 3550), from the scan loop up to the whole client loop and a receiver at the other end |
| `IlEvents`, `EventLists`, `EventPool`, `EventRuns` | the OpenMAX IL client: a pool of event nodes shared by intrusive lists, the event callback, and whole runs of calls |
| `CommandWait`, `EventSteps` | the protocol by which a waiter scans, blocks and is woken, and its steps on the heap of `EventPool` |
| `BufferQueue`, `BufferWait`, `TransitionOrder` | its buffer queues, several ports in one list, how their consumers wait on one flag, and the random order of state commands |
| `FramePool`, `SourceFrame`, `EncoderHeaders` | the VPU encoder: the ring of frame buffers, the size checks of the source frame, and the header and group-of-pictures machine |
| `ColourConvert` | packed YUYV to planar YUV 4:2:0 |
| `TextRaster`, `TextMeaning`, `TextScaling` | drawing text: the walk of the image pointer, the picture it leaves, and the doubled font |
| `Bytes`, `Arithmetic`, `Sequences` | machine integers and general facts |

Code that changes state in the program is a class or an imperative method here, proved against a
specification function; the promises are then lemmas about the specification.

- The packetiser: `RtpPack.PacHandle` holds the cursor, the counters and the reused output array.
  Each `Get` is one step of the pure machine in `RtpSession`, and `RtpPack.PutAndDrain` is the law
  of the whole: what was joined, put and drained is what an independent receiver reassembles.
- The event pool: `EventPool.Client` relinks nodes in place; a node is its index in the array, a
  null pointer is -1. `EventLists` says what the links mean, and why no node is lost or shared.
- The waiting protocol: `CommandWait` interleaves handlers and waiters step by step, including the
  unlocked write that announces a waiter, and proves that no wakeup is lost, but for exactly the two
  error codes that raise no flag and the flags that are cleared on request.
- Text: `TextRaster` follows the one-dimensional pointer, `TextMeaning` gives the picture by row and
  column, and `TextScaling` proves that the double size is the single size magnified.

What the definitions come to is also said in the program's own numbers: bytes on the wire
(`RtpFormat.WireBytes`, `RtpFormat.FragmentBytes`, `RtpSession.UnitIsStamped`), flags by event
(`EventPool.HandleByKind`), flags used up by waking (`CommandWait.WakeConsumes`), samples
(`ColourConvert.PlanarMeaning`) and cells (`TextMeaning.TextCells`).

Some promises hold only under a condition. Each condition is proved exact, and each failure is shown by an
input:

- Scanning undoes joining exactly for separable lists (`AnnexB.SplitInvertsJoin`, `AnnexB.BlurredUnitIsNotFound`).
- The receiver gets all that was put exactly when puts wait for the drain (`RtpSession.DeliversExactlyWhenDrained`,
  `RtpSession.PutTwiceLosesAUnit`).
- A get dequeues exactly unless a carried predecessor meets a buffer at the head
  (`BufferQueue.GetDequeuesExactly`, `BufferQueue.TwoConsumersLoseABuffer`).
- A handler meets a null pointer exactly when the watching waiter withdraws between its test and its
  notification (`CommandWait.RunFaultsExactly`, `CommandWait.FaultIsReachable`).
- A get sleeps beside a buffer of its own exactly when another consumer has taken the flag
  (`BufferWait.SleepsExactlyWhenStolen`, `BufferWait.FlagTakenByTheOther`).
- A command wait sleeps through its end exactly when a removal or a clearing takes the last flag from it
  (`CommandWait.RunLosesExactly`, `CommandWait.StealsAreReachable`).
- Otherwise a command error can be slept through exactly when it is one of two codes (`CommandWait.LostExactlyWhenSilent`).
- Each encoder is given its own headers exactly when no other calls inside its drain
  (`EncoderHeaders.GivenExactlyWhenUndisturbed`, `EncoderHeaders.InterleavedDrainsMix`).
- An encoder that opened can be fed exactly when its source height is a multiple of 16
  (`SourceFrame.FeedableExactlyWhenAligned`, `SourceFrame.FullHdOpensAndAborts`).
- The colour conversion stays inside its buffers exactly for even sides
  (`ColourConvert.InsideExactlyWhenEven`, `ColourConvert.ThreeByTwoReadsOutside`).
- Text is aligned and clipped well exactly when it can be placed (`TextRaster.ClippedExactlyWhenPlaceable`,
  `TextRaster.TooLongToEndThere`, `TextRaster.NegativeStart`), and stays in its rows exactly when it does not end
  one pixel short of the edge in double size (`TextRaster.RunsOnExactly`, `TextMeaning.OneGlyphRunsOn`).

## Model

| member | source | states |
|---|---|---|
| `AnnexB.NextCode` | src/rtp_pack.c:160-213 | The scan stops at the first place, at or after where it starts, that holds a three- or four-byte start code, or else at the end of the data; everything it stepped over is free of start codes. |
| `AnnexB.SplitScanned` | src/rtp_pack.c:176-229 | Every unit found is non-empty, has a start code of three or four bytes before it, and hides no start code behind its first byte. |
| `AnnexB.SplitTiles` | src/rtp_pack.c:176-229 | From a start code on, the units found with their start codes are exactly the bytes of the buffer: no gap, no overlap, nothing left. |
| `AnnexB.NextCodeBytes` | src/rtp_pack.c:200-217 | The scan stops at the first place with two or three zero bytes and a one, or at the end. |
| `AnnexB.FirstUnitBytes` | src/rtp_pack.c:176-229 | Behind two or three zeros and a one, the first unit is what follows up to the next such place, searched from its second byte on, or up to the end; the rest is scanned from there. |
| `AnnexB.NoUnitWithoutCode` | src/rtp_pack.c:183-199 | No unit is found exactly when neither two nor three zeros and a one stand at the cursor. |
| `AnnexB.JoinBytes` | src/rtp_pack.c:160-174 | The format itself: each unit behind the bytes 0 0 1 or 0 0 0 1. |
| `AnnexB.SplitInvertsJoin` | src/rtp_pack.c:176-229 | Scanning undoes joining, for any choice of three- or four-byte start codes, if and only if the list is separable: no start code inside a unit behind its first byte, and no unit of two bytes or more ends in zero before a three-byte start code. |
| `AnnexB.BlurredUnitIsNotFound` | src/rtp_pack.c:206-213 | Two units, the first ending in zero before a three-byte start code, that scanning does not find again. |
| `AnnexB.ProperRoundTrip` | src/rtp_pack.c:176-229 | Every list of units as an encoder emits them (no start code inside, last byte not zero) joins to a well-ended buffer and is found again unchanged. |
| `RtpFormat.ParseInvertsEncode` | src/rtp_pack.c:32-49 | Marker, sequence number, timestamp, source and payload of every packet are read back from the bytes by an independent reader of the fixed header of section 5.1 of RFC 3550. |
| `RtpFormat.WireBytes` | src/rtp_pack.c:245-254 | The bytes of every packet: 128, then 96 with 128 more on a marked one, then sequence number, timestamp and source, each big-endian, and the payload from byte 12 on. |
| `RtpFormat.NalBits` | src/rtp_pack.c:58-63 | Each bit field of a NAL header or FU indicator reads back what was stored in it. |
| `RtpFormat.CountIsCeil` | src/rtp_pack.c:296-310 | A unit of L bytes takes exactly ceil(L / M) packets. |
| `RtpFormat.ChunkSize` | src/rtp_pack.c:335-336 | Fragment i carries the bytes from 1 + i * M on: M of them, but all the rest in the last fragment. |
| `RtpFormat.FragmentsTile` | src/rtp_pack.c:294-412 | For L > M there are ceil(L / M) >= 2 fragments whose payloads, in order, are the unit without its first byte; all but the last are full; the last is empty exactly when M divides L - 1, and exactly then one fragment more than necessary is sent. |
| `RtpFormat.FragmentBits` | src/rtp_pack.c:312-338 | The receiver finds type 28, the header byte of the unit, the start bit on the first fragment only, and the end bit and the marker on the last only. |
| `RtpFormat.FragmentBytes` | src/rtp_pack.c:312-338 | Fragment i of the n that a unit takes, byte by byte: the upper three bits of the unit header with type 28; the type of the unit with 128 on the first and 64 on the last; the M bytes from 1 + i * M on, or on the last all that are left. A unit that fits goes out as it is. |
| `RtpSession.StepSound` | src/rtp_pack.c:148-413 | Every put and every get keeps the session sound: units to do are non-empty, and a fragment index belongs to a long unit that has fragments left. |
| `RtpSession.GetTakesHead` | src/rtp_pack.c:239-413 | One get returns exactly the first of the fragments still pending and leaves the others; it returns nothing, and changes nothing, exactly when none is pending. |
| `RtpSession.GetSends` | src/rtp_pack.c:239-413 | One get inside a unit or at its beginning returns just those bytes of that fragment. |
| `RtpSession.GetAdvances` | src/rtp_pack.c:239-413 | Its packet has the session numbers, and the marker on the last fragment only; the session is then at the next fragment, or done with the unit, with the next sequence number, 0 after 65535. |
| `RtpSession.UnitIsStamped` | src/rtp_pack.c:273-273 | A get that begins a unit ms milliseconds after the handle was opened, at most 47721858, stamps its packet with 90 * ms, whatever the clock showed then and however it has wrapped since. |
| `RtpSession.StampOnTheWire` | src/rtp_pack.c:273-274 | Bytes 4 to 7 of that packet are 90 * ms, big-endian. |
| `RtpSession.DrainRefines` | src/rtp_pack.c:239-413 | Any number of gets, whatever the clock, returns that many of the packets of the pure packetisation, in order; when they are gone, further gets return nothing and change nothing. |
| `RtpSession.PacketizeLength` | src/rtp_pack.c:274-310 | A list of units is sent in the sum, over the units, of one packet if L <= M and ceil(L / M) packets otherwise. |
| `RtpSession.DrainCompletes` | src/rtp_pack.c:239-413 | Enough gets after a put return exactly that many packets and leave no unit owed. |
| `RtpSession.GetDelivers` | src/rtp_pack.c:239-413 | A receiver of sections 5.6 and 5.8 of RFC 6184 that is in step with the sender is in step after every get, and units received plus units owed do not change. |
| `RtpSession.DeliversExactlyWhenDrained` | src/rtp_pack.c:148-413 | Over any run at all, the receiver has or is still owed exactly what was put, in order, if and only if every put waited until the buffer before it was drained. |
| `RtpSession.SecondPutDiscards` | src/rtp_pack.c:148-158 | Two puts in a row on a drained session, and any gets after them: the receiver has or is owed the units of the second buffer and none of the first. |
| `RtpSession.PutTwiceLosesAUnit` | src/rtp_pack.c:148-158 | The input: a buffer of one unit put twice before anything is taken, which is no run whose puts wait; one of the two units never arrives, whatever gets follow. |
| `RtpSession.NewUnitBreaks` | src/rtp_pack.c:148-158 | The first packet of a new unit breaks a receiver that waits for the rest of one that a put has cut off. |
| `RtpSession.RoundTrip` | src/rtp_pack.c:148-413 | Units of types 1 to 23 joined behind any start codes, put and drained are exactly what the receiver reassembles, in order, in exactly the predicted number of packets. |
| `RtpSession.RunNumbers` | src/rtp_pack.c:272-272 | In any run of puts and gets, packet i carries the first sequence number plus i modulo 2^16, and the same source; gets that return nothing use no number. |
| `RtpSession.TimestampsAscend` | src/rtp_pack.c:273-274 | While the milliseconds elapsed at the gets of a run do not decrease and are at most 47721858, the timestamps of the run never decrease. |
| `RtpSession.TimestampsAreTicks` | src/rtp_pack.c:273-274 | Over any run, the packet of a get that comes ms milliseconds after the start carries 90 * ms, unless it comes right behind an unmarked packet, whose timestamp it then has. |
| `RtpSession.UnitsStayTogether` | src/rtp_pack.c:344-347 | Over any run at all, a get right after an unmarked packet goes on with the same unit and the same timestamp: all fragments of a unit that are sent carry the same one. |
| `RtpPack.CounterMeaning` | src/rtp_pack.c:296-309 | The counter and last size computed by remainder and quotient are the index of the last fragment and the bytes, header byte included, left for it. |
| `RtpPack.PacHandle.constructor` | src/rtp_pack.c:112-139 | A new handle numbers from 0, remembers its start time, and owns an output array of 10240 bytes. |
| `RtpPack.PacHandle.Put` | src/rtp_pack.c:148-158 | A put of any buffer starts it afresh and keeps numbering and timestamp; if the buffer ends well, the session has the units of the new buffer to do and none of the old. |
| `RtpPack.PacHandle.IsStartCode3` | src/rtp_pack.c:168-174 | The three-byte start code test, with every byte it reads inside the buffer. |
| `RtpPack.PacHandle.IsStartCode4` | src/rtp_pack.c:160-166 | The four-byte start code test, with every byte it reads inside the buffer. |
| `RtpPack.PacHandle.ScanUnit` | src/rtp_pack.c:200-217 | The scanning loop ends, and at the place that the specification names. |
| `RtpPack.PacHandle.ReadPrefix` | src/rtp_pack.c:183-199 | Which start code, if any, stands at the cursor; three bytes are tried before four. |
| `RtpPack.PacHandle.GetNextNalu` | src/rtp_pack.c:176-229 | Returns 1 and takes the first unit still to do, or 0 or -1 and leaves the cursor, exactly when none is left. |
| `RtpPack.PacHandle.WriteHeader` | src/rtp_pack.c:245-254 | The header is written big-endian, the rest of the output array is zero, and the sequence number advances modulo 2^16. |
| `RtpPack.PacHandle.SendSingle` | src/rtp_pack.c:275-293 | A unit that fits goes out whole, with the marker set, and is complete. |
| `RtpPack.PacHandle.CountFragments` | src/rtp_pack.c:296-309 | The counters hold the index of the last fragment and its bytes. |
| `RtpPack.PacHandle.SendFirst` | src/rtp_pack.c:294-338 | The first fragment goes out and the next index is 1. |
| `RtpPack.PacHandle.SendLast` | src/rtp_pack.c:349-381 | The last fragment goes out, is marked, and completes the unit. |
| `RtpPack.PacHandle.SendMiddle` | src/rtp_pack.c:382-411 | A middle fragment goes out unmarked and only the index moves on. |
| `RtpPack.PacHandle.Get` | src/rtp_pack.c:239-413 | One call is one get of the session: same new state, same answer, and the output array holds exactly the bytes of the packet and zeros behind it. |
| `RtpPack.DrainedStep` | src/simple_demo.c:171-180 | One more turn of the loop is one more get of the run, and the pending packets grow fewer until the call that returns 0. |
| `RtpPack.Drain` | src/simple_demo.c:171-180 | The loop that calls get until it returns 0 ends, has one packet for each fragment pending, and leaves nothing to send. |
| `RtpPack.LoopRoundTrip` | src/simple_demo.c:198-207 | What the loop collected, byte for byte, gives the receiver exactly the units that were put. |
| `RtpPack.PutAndDrain` | src/simple_demo.c:198-207 | One encoded frame put and drained: a receiver in step before has exactly the units of the frame more, and is in step again for the next. |
| `IlEvents.Dedup` | third-party/ilclient/ilclient.c:1428-1451 | The result has the same events as the list, each once. |
| `IlEvents.DedupSnoc` | third-party/ilclient/ilclient.c:1428-1451 | Of equal events the first is kept, and all keep their order: an event at the end of a list is added, at the end, only if the list does not have it yet. |
| `IlEvents.Without` | third-party/ilclient/ilclient.c:1432-1448 | Removing the copies of an event removes it and nothing else. |
| `IlEvents.AcceptedFlags` | third-party/ilclient/ilclient.c:1574-1584 | Of the buffer flags the callback accepts those whose lowest bit, end of stream, is set, and every other event. |
| `IlEvents.CompletionWakesItsWait` | third-party/ilclient/ilclient.c:1183-1190 | The completion of a command raises a flag that a wait for that command is blocked on, and none that a wait for any other command is. |
| `IlEvents.MatchesByData` | third-party/ilclient/ilclient.c:395-428 | An event of the kind asked for is taken if each of its two data is equal to the one given or ignored. |
| `IlEvents.MatchesItsKind` | third-party/ilclient/ilclient.c:395-428 | Only events of the kind asked for are taken, and any of them when both data are ignored. |
| `IlEvents.RemovalOfAnyCommandError` | third-party/ilclient/ilclient.c:876-876 | The removal of an error that ignores the first datum and asks for 1 as the second takes the first command error on the list, whatever its code. |
| `IlEvents.RemovalClearsWhatArrivalRaised` | third-party/ilclient/ilclient.c:438-445 | Removing an error or a configuration change clears just the flag that its arrival raised; an error that raised none is disk full, maximal file size, or masked; removing any other event clears nothing. |
| `IlEvents.EndsAndVerdict` | third-party/ilclient/ilclient.c:1201-1219 | A wait ends on the completion of its command with its datum or on any error with datum 1; the answer is -1 for an error other than same state, else 0. |
| `EventLists.InitialSound` | third-party/ilclient/ilclient.c:175-181 | Pushing the nodes one after the other gives one sound list of all of them. |
| `EventLists.UnlinkSound` | third-party/ilclient/ilclient.c:428-435 | Taking any node out of a list and putting it in front of the spare list keeps all lists acyclic and disjoint, with every node on one of them. |
| `EventLists.LinkSound` | third-party/ilclient/ilclient.c:1609-1614 | Moving the first spare node to the front of a list keeps all lists acyclic and disjoint, with every node on one of them. |
| `EventLists.Conservation` | third-party/ilclient/ilclient.c:171-182 | In every sound state the lengths of the spare list and of all component lists add up to the number of nodes. |
| `EventLists.OnlyOneList` | third-party/ilclient/ilclient.c:171-182 | In every sound state each node is on exactly one list. |
| `EventLists.UnlinkPool` | third-party/ilclient/ilclient.c:428-436 | Unlinking takes exactly one event out of one queue, and queues stay free of repetition behind their heads. |
| `EventLists.LinkPool` | third-party/ilclient/ilclient.c:1604-1614 | Linking a filled spare node puts exactly that event in front of one queue, and the queue repeats nothing behind its head. |
| `EventLists.CapacitySuffices` | third-party/ilclient/ilclient.c:1453-1453 | With K components that hold at most D different events each and K * (D + 1) no more than the pool, de-duplicating any list leaves a spare node. |
| `EventPool.Client.constructor` | third-party/ilclient/ilclient.c:158-184 | All 100 nodes are spare. |
| `EventPool.Client.Attach` | third-party/ilclient/ilclient.c:171-182 | A component joins with an empty queue and disturbs no other. |
| `EventPool.Client.PoolConserved` | third-party/ilclient/ilclient.c:171-182 | Whatever was called before, spare list and component lists hold exactly the 100 nodes, each on one list. |
| `EventPool.Client.NeverExhausted` | third-party/ilclient/ilclient.c:1453-1453 | In any state whose queues hold at most D different events each, with K components and K * (D + 1) no more than the pool, the assertion of the callback holds. |
| `EventRuns.StepWithin` | third-party/ilclient/ilclient.c:1412-1616 | No callback, removal, return or wait brings a queue an event of a kind that its component has not seen. |
| `EventRuns.RunCalls` | third-party/ilclient/ilclient.c:1453-1453 | From any state within bounds, any sequence of callbacks, removals, returns, waits, announcements and mask changes is carried out without the pool being exhausted, and leaves the queues and masks that the calls make, one after the other. |
| `EventRuns.RunNeverExhausts` | third-party/ilclient/ilclient.c:1453-1453 | From the opening of the client on, in every run of such calls in which each component sees at most D kinds of events, the assertion of the callback never fails. |
| `EventPool.Client.Relink` | third-party/ilclient/ilclient.c:428-435 | The pointer writes, in both the head and the inner case, are the move of one node between two lists. |
| `EventPool.Client.Unlink` | third-party/ilclient/ilclient.c:428-436 | Exactly the event at that position leaves its queue; no other queue changes and the node is spare. |
| `EventPool.Client.DropCopies` | third-party/ilclient/ilclient.c:1431-1448 | The inner loop ends and leaves the queue up to the event as it was, and what follows without the copies of it. |
| `EventPool.Client.DropDuplicates` | third-party/ilclient/ilclient.c:1428-1451 | The nested loops end and leave the first of every group of equal events, in order, and give the nodes of the others back. |
| `EventPool.Client.Enqueue` | third-party/ilclient/ilclient.c:1604-1614 | The first spare node holds the event and is the head of the queue. |
| `EventPool.Client.RaiseFlags` | third-party/ilclient/ilclient.c:1456-1599 | The related component gets the error flag for a failed command, the component the flag of its event, and no other flag changes. |
| `EventPool.Client.HandleEvent` | third-party/ilclient/ilclient.c:1412-1616 | The callback succeeds exactly when de-duplication leaves a spare node; then the queue is the de-duplicated one with the event in front unless it is masked, no other queue changes, and the flags are those that event raises. |
| `EventPool.FlagsWritten` | third-party/ilclient/ilclient.c:1456-1599 | Flag by flag: each kind of event raises its one flag on its component, an error none if it is disk full, maximal file size or masked; an error with datum 1 also the error flag of the related component; no event any other. |
| `EventPool.HandleByKind` | third-party/ilclient/ilclient.c:1412-1616 | A callback that succeeds leaves just those flags up in addition, on all components, and the event in front of the de-duplicated queue unless it is masked. |
| `EventPool.Client.Find` | third-party/ilclient/ilclient.c:1201-1208 | The walk stops at the first node that satisfies the test, with its predecessor in hand. |
| `EventPool.Client.RemoveEvent` | third-party/ilclient/ilclient.c:406-449 | Exactly the first matching event is removed, with the flag that announced it, and 0 returned; without one, -1 and no change. |
| `EventPool.Client.ReturnEvents` | third-party/ilclient/ilclient.c:682-693 | The queue is empty, its nodes are spare, and no other queue changes. |
| `EventPool.Client.TakeEnd` | third-party/ilclient/ilclient.c:1212-1226 | The event leaves the queue, an error takes the error flag with it, and the answer is 0 for a completion or a same-state error and -1 otherwise. |
| `EventPool.Client.ScanForCommand` | third-party/ilclient/ilclient.c:1199-1250 | The scan unlinks exactly the first matching completion or command error; without one it leaves both queues and all flags alone and reports -2 exactly when the other component has a command error. |
| `CommandWait.StepKeeps` | third-party/ilclient/ilclient.c:1191-1256 | The steps of handlers, waiters and clients, at the grain of lock, scan, unlock, block, de-duplicate, test for a related component, notify it, raise the flag and queue: each keeps the invariant that a blocked waiter relies on if and only if it does not steal its wakeup, that is, does not clear on request the last flag the waiter is to be woken by. |
| `CommandWait.RunKeeps` | third-party/ilclient/ilclient.c:1191-1256 | Every run of such steps without a stolen wakeup, in any interleaving, keeps that invariant. |
| `CommandWait.LosesExactlyWhenStolen` | third-party/ilclient/ilclient.c:442-445 | In any state that keeps the invariant: after a removal of an event or a clearing of flags some waiter can come to sleep through the end of its wait, though nobody clears another flag, if and only if the component whose flags were cleared has a blocked waiter, no flag of its mask remains, and an ending event is still queued, a command error still on the other component, or one about to be queued by the handler at work. |
| `CommandWait.RunLosesExactly` | third-party/ilclient/ilclient.c:489-495 | Over whole runs, with any removals and clearings of flags: some step loses a wakeup if and only if some step steals one. |
| `CommandWait.StealsAreReachable` | third-party/ilclient/ilclient.c:442-445 | For any two different command errors that raise the flag: both arrive while the waiter sleeps, the client removes one of them, or clears the flag as before a state command, and the waiter sleeps on. |
| `CommandWait.NoLostWakeup` | third-party/ilclient/ilclient.c:1252-1252 | In every state reachable without a stolen wakeup a blocked waiter for which a matching completion or flag-raising command error is queued, or a command error on the other component, has a flag of its mask set. |
| `CommandWait.WokenWaiterReturns` | third-party/ilclient/ilclient.c:1194-1258 | Such a waiter, woken with the lock free, leaves the loop at its next scan, with -2 exactly when only the other component failed. |
| `CommandWait.WakeConsumes` | third-party/ilclient/ilclient.c:1252-1252 | A waiter wakes with one of its flags up (the error flag and that of its command); after that none of them is, every other flag and everything else is as before. |
| `CommandWait.WakesArePutUp` | third-party/ilclient/ilclient.c:1252-1252 | Over any run in which a component waits for one command, its waiter is woken at most once more than handlers have put up a flag that it waits for: it does not spin. |
| `CommandWait.BetweenTwoWakes` | third-party/ilclient/ilclient.c:1252-1252 | Between two wakes of one waiter some handler has put up such a flag. |
| `CommandWait.WholeWait` | third-party/ilclient/ilclient.c:1181-1261 | A whole wait: the call announces itself, scans in vain and sleeps, the completion is handled, the call wakes, takes it and withdraws. All of that is possible one after the other, and afterwards every component is as before, but for the de-duplicated list, the flags used up, and no link on the component watched. |
| `CommandWait.NotifiesAsTested` | third-party/ilclient/ilclient.c:1487-1488 | Whatever others do between the test for a related component and the notification: the error flag goes up on the component that is related then if and only if there was one, and a command error, at the test. |
| `CommandWait.QueuesAsFlagged` | third-party/ilclient/ilclient.c:1491-1614 | Whatever others do between flag and queueing, the mask included: the event is queued if and only if the mask did not tell to ignore it when the flag was decided. |
| `CommandWait.NoLockNeeded` | third-party/ilclient/ilclient.c:1192-1258 | Whoever holds the lock, a call can announce itself and withdraw, masks can be set, flags consumed, and a blocked waiter wakes exactly when one of its flags is up. |
| `CommandWait.ScanAnswers` | third-party/ilclient/ilclient.c:1210-1248 | A scan that has something to end on ends the wait: with 0 or -1 if its own queue has it, with -2 if only the other queue does. |
| `CommandWait.ScanVerdict` | third-party/ilclient/ilclient.c:1210-1248 | 0 or -1 comes with exactly the first ending event unlinked, the error flag gone if it was an error, and 0 meaning a completion or a same-state error; -2 comes with all queues and flags unchanged. |
| `CommandWait.LostExactlyWhenSilent` | third-party/ilclient/ilclient.c:1546-1553 | Without stolen wakeups, a command error can leave the waiter asleep in some run if and only if it is one of the two codes for which no flag is raised. |
| `CommandWait.FaultsExactly` | third-party/ilclient/ilclient.c:1487-1488 | A handler that has found a related component is left with a null pointer by exactly one kind of step: the withdrawal of the waiter that watches its component. |
| `CommandWait.RunFaultsExactly` | third-party/ilclient/ilclient.c:1487-1488 | The runs in which a handler comes to use that null pointer are exactly those with such a withdrawal between its test and its notification. |
| `CommandWait.FaultIsReachable` | third-party/ilclient/ilclient.c:1255-1256 | There is such a run, for every command error. |
| `CommandWait.HandledIs` | third-party/ilclient/ilclient.c:1423-1616 | The five steps of a handler in a row are enabled and leave the de-duplicated list with the event, and the flags that it raises on its component and on the related one. |
| `EventSteps.HandleIsSteps` | third-party/ilclient/ilclient.c:1412-1616 | The callback on the heap is those five steps: queues, flags, links and masks afterwards are those of the step machine. |
| `EventSteps.ScanIsStep` | third-party/ilclient/ilclient.c:1199-1250 | The locked part of a wait on the heap is the scan step of its waiter: same queues, same flags, same answer. |
| `EventSteps.RemoveIsStep` | third-party/ilclient/ilclient.c:406-449 | The removal of an event on the heap is the removal step at the first match: same queues, same flags; without a match nothing changes. |
| `EventSteps.ReturnIsStep` | third-party/ilclient/ilclient.c:682-693 | Returning all events on the heap is the step of the machine that empties the list. |
| `BufferQueue.AppendEnqueues` | third-party/ilclient/ilclient.c:1662-1675 | A completion is an enqueue on the queue of its own port and leaves every other port as it was. |
| `BufferQueue.TakeDequeues` | third-party/ilclient/ilclient.c:1288-1306 | Taking the first buffer of a port out of the shared list is a dequeue of that port. |
| `BufferQueue.TakeKeepsOthers` | third-party/ilclient/ilclient.c:1288-1306 | It leaves the queue of every other port, order included. |
| `BufferQueue.Component.Done` | third-party/ilclient/ilclient.c:1653-1683 | The walk to the end of the list ends and appends the buffer. |
| `BufferQueue.Component.Scan` | third-party/ilclient/ilclient.c:1290-1295 | The walk finds the first buffer of the port; the predecessor of the round before stays when nothing is stepped over. |
| `BufferQueue.Component.Round` | third-party/ilclient/ilclient.c:1289-1306 | One round takes the first buffer of its port out of the list, unless that is at the head and a predecessor is carried: then the buffer returned stays on the list and all the others are lost. |
| `BufferQueue.Component.Disturb` | third-party/ilclient/ilclient.c:1308-1309 | What happens while a call is blocked: completions come in, and the consumers of other ports take buffers, with whatever predecessor they carry. |
| `BufferQueue.Component.Get` | third-party/ilclient/ilclient.c:1283-1314 | A get with any number of blocked rounds, among completions and the consumers of other ports, returns and leaves on the list exactly what its rounds make of it. |
| `BufferQueue.GetEnds` | third-party/ilclient/ilclient.c:1288-1311 | A get, with completions and other consumers while it is blocked, ends in the first round whose list has a buffer of its port; the predecessor that it carries then comes from a list that was not empty before. |
| `BufferQueue.GetDequeuesExactly` | third-party/ilclient/ilclient.c:1288-1311 | A get returns the oldest buffer of its port in the first round that there is one, and takes exactly that off the list if and only if it is not at the head or the list was empty in every round before. |
| `BufferQueue.AloneServes` | third-party/ilclient/ilclient.c:1288-1311 | With one consumer a get always takes the first buffer of its port among all that was there and all that arrived, leaves the others in order, and blocks only while there is none. |
| `BufferQueue.TwoConsumersLoseABuffer` | third-party/ilclient/ilclient.c:1288-1311 | With one consumer for each port a buffer can be lost: a run of one get, one other consumer and two completions does it. |
| `BufferWait.StepKeeps` | third-party/ilclient/ilclient.c:1308-1311 | Completions append and only then raise the flag that all ports share; a get that finds nothing waits for it and consumes it. A step brings a consumer to sleep beside a buffer of its own if and only if it consumes the last flag, with no completion about to raise it, while a consumer that it does not wake waits beside a buffer of its own. |
| `BufferWait.SleepsExactlyWhenStolen` | third-party/ilclient/ilclient.c:1720-1733 | Over whole runs, with any number of consumers, ports, completions and rounds, whether a flag wakes one sleeper or all: a consumer comes to sleep beside its buffer if and only if a flag is stolen like that. |
| `BufferWait.OneConsumerNeverSleepsOn` | third-party/ilclient/ilclient.c:1288-1311 | With one consumer, whatever ports it asks for, no buffer is ever slept through. |
| `BufferWait.FlaggedConsumerTakes` | third-party/ilclient/ilclient.c:1308-1311 | A consumer that waits while the flag is up returns to the list and takes the buffer that is there for it. |
| `BufferWait.CompletionArrives` | third-party/ilclient/ilclient.c:1720-1733 | A completion can come at any time, appends its buffer at the end and then raises the flag: where that wakes all and somebody sleeps, all sleepers look again and the flag is used up, else it stays up. |
| `BufferWait.EachRaisesOnce` | third-party/ilclient/ilclient.c:1720-1733 | Over any run every completion raises the flag exactly once: those under way are those that have appended and not yet raised it. |
| `BufferWait.NewCallLooks` | third-party/ilclient/ilclient.c:1283-1311 | A new call looks once, without a predecessor, takes the first buffer of its port and returns, and without one returns empty-handed or goes on to wait, as it was asked. |
| `BufferWait.WaitingCarriesOn` | third-party/ilclient/ilclient.c:1308-1311 | A waiting call that finds the flag up uses it up and looks again with the predecessor it carried; without the flag it sleeps with it. |
| `BufferWait.RoundIsScan` | third-party/ilclient/ilclient.c:1288-1306 | A round on the linked list is the scan step: same list afterwards, same predecessor carried on, and a buffer returned exactly when there is one of the port. |
| `BufferWait.StaysAsleep` | third-party/ilclient/ilclient.c:1309-1309 | A consumer that waits with no flag up or coming goes on waiting, whatever the others do, until another completion arrives. |
| `BufferWait.FlagTakenByTheOther` | third-party/ilclient/ilclient.c:1308-1311 | With one consumer for each port it happens: from rest, the sleeper for one port consumes the flag raised for the buffer of the other, whose consumer goes to sleep beside it. |
| `TransitionOrder.OrderedIsComplete` | third-party/ilclient/ilclient.c:479-495 | As many commands as components, in key order, are one command for every component. |
| `TransitionOrder.OrderIsUnique` | third-party/ilclient/ilclient.c:479-495 | The drawn keys determine the order of the commands. |
| `TransitionOrder.Smallest` | third-party/ilclient/ilclient.c:482-485 | The inner loop finds the first component with the smallest key that is not spent. |
| `TransitionOrder.KeyIsBits` | third-party/ilclient/ilclient.c:477-477 | The key is one more than bits 13 to 20 of the random value. |
| `TransitionOrder.CommandAll` | third-party/ilclient/ilclient.c:476-495 | Every component of a list of distinct ones is commanded exactly once, keys never decreasing and ties in list order, and all keys are zero afterwards. |
| `FramePool.CircularPop` | src/vpu_encode.c:81-91 | Taking from the ring at the index is a pop of the stack of free buffers, and on an empty ring only the index moves. |
| `FramePool.CircularPush` | src/vpu_encode.c:93-99 | Putting back below the index is a push on that stack. |
| `FramePool.EncHandle.constructor` | src/vpu_encode.c:70-79 | All 32 buffers are free, in order. |
| `FramePool.EncHandle.GetFramebuf` | src/vpu_encode.c:81-91 | The free buffers fill the circular interval from the index, each once, and the slots outside are null, after successful and failing gets alike. |
| `FramePool.EncHandle.PutFramebuf` | src/vpu_encode.c:93-99 | Putting back a buffer that is out keeps the free buffers in the circular interval from the index, and makes it the next to be taken. |
| `FramePool.EncHandle.AllocFramebuf` | src/vpu_encode.c:101-147 | A buffer whose memory is refused is lost to the pool. |
| `FramePool.EncHandle.FreeFramebuf` | src/vpu_encode.c:149-166 | A null pointer is ignored; any other buffer is pushed. |
| `FramePool.EncHandle.AllocMany` | src/vpu_encode.c:210-226 | The loop fills the table until memory or the pool runs out, and nothing but what it took leaves the pool. |
| `FramePool.FillIs` | src/vpu_encode.c:210-226 | The filling loop moves buffers from the top of the stack to the table, in order, and stops short exactly at the first refusal of memory, which loses a buffer, or at the end of the pool, which does not. |
| `FramePool.FillAllIs` | src/vpu_encode.c:209-257 | Both loops and the registration between them: all the buffers asked for, or those taken until the first failure, with the rest of the stack as it was but for a lost buffer. |
| `FramePool.EncHandle.FreeMany` | src/vpu_encode.c:283-293 | Freeing a table in index order pushes its buffers in that order and gives all of them back. |
| `FramePool.EncHandle.AllocateFramebuffers` | src/vpu_encode.c:168-281 | It succeeds exactly when the hardware registers the buffers, every request for memory is granted and the pool lasts; on failure everything in the table is back in the pool. |
| `FramePool.OpenAndClose` | src/vpu_encode.c:283-293 | Allocating and freeing gives the pool all its buffers back, but for the one whose memory was refused. |
| `FramePool.Lost` | src/vpu_encode.c:122-144 | A failing allocation loses at most one buffer. |
| `FramePool.Granted` | src/vpu_encode.c:210-218 | How far the allocation loop gets: to the first refusal or the end of the pool. |
| `SourceFrame.FeedableExactlyWhenAligned` | src/vpu_encode.c:643-658 | An encoder that opened accepts frames without aborting if and only if its source height, too, is a multiple of 16, and the frame has at least one and a half bytes for each pixel. |
| `SourceFrame.PreparedExactly` | src/vpu_encode.c:317-347 | Opening succeeds exactly for source widths that are multiples of 16 and encoded parts inside the source. |
| `SourceFrame.FullHdOpensAndAborts` | src/vpu_encode.c:643-654 | A source of 1920 by 1080 opens and then aborts on every frame. |
| `EncoderHeaders.EncHandle.GetHeaders` | src/vpu_encode.c:552-641 | A call at any stage of the shared static variables, even one left by an encoder of the other kind, gives the answer and the stage that the stage machine gives. |
| `EncoderHeaders.AskIsNext` | src/vpu_encode.c:552-641 | At a stage of its own kind an encoder gets the next header of its set, and 0 exactly when the counter is not zero or the set is complete. |
| `EncoderHeaders.InterleavedDrainsMix` | src/vpu_encode.c:561-562 | Two encoders as the program opens them whose drains interleave: the second is given a PPS without its SPS, and the first is told that its set is complete. With one of the extension the other is given a header that its set does not have. |
| `EncoderHeaders.GivenExactlyWhenUndisturbed` | src/vpu_encode.c:555-641 | For single calls by any encoders in any order, starting at rest: every call is given what its own encoder is due, the next header of its set or the end, if and only if no encoder that is due headers calls while another is inside a drain. |
| `EncoderHeaders.CallInOrder` | src/vpu_encode.c:552-641 | Any list of single calls on encoders that share the static variables gets the answers of the stage machine. |
| `EncoderHeaders.EncHandle.DrainHeaders` | src/simple_demo.c:165-180 | The loop ends and yields a complete set in order (SPS, PPS; with the extension SPS, MVC SPS, PPS, MVC PPS) if the counter is 0, and nothing otherwise; it leaves the stages at rest. |
| `EncoderHeaders.EncHandle.EncodeDo` | src/vpu_encode.c:660-735 | The counter advances, and wraps at the group length, only on success. |
| `EncoderHeaders.EncHandle.ForceIPic` | src/vpu_encode.c:762-766 | The counter restarts. |
| `EncoderHeaders.RunRounds` | src/simple_demo.c:165-211 | A whole run of the client loop yields exactly the headers that the counter calls for, round by round. |
| `EncoderHeaders.ForcedRoundSpeaks` | src/vpu_encode.c:762-766 | A round that forces an I picture starts with the complete set, whatever the counter. |
| `EncoderHeaders.FailuresLeaveNoTrace` | src/vpu_encode.c:713-732 | Frames that fail leave no trace: the rounds that succeed start with exactly the headers they would start with if the failed ones had not been, an I picture forced by a failed one forced in the next instead. |
| `EncoderHeaders.EachAsIfAlone` | src/vpu_encode.c:561-641 | As long as every drain is run to its end, each of several encoders gets exactly the headers that it would get if it were alone. |
| `EncoderHeaders.RunShared` | src/vpu_encode.c:561-641 | The clients of several encoders, turn by turn in any order on the shared stage variables, get those headers. |
| `EncoderHeaders.SilenceIsShort` | src/vpu_encode.c:730-732 | Rounds without headers leave room only for the rest of the group. |
| `EncoderHeaders.HeadersComeInTime` | src/vpu_encode.c:730-732 | With a fixed group length, at most that many frames are encoded from one header set up to the next, whatever fails and whatever is forced. |
| `EncoderHeaders.HeadersArePeriodic` | src/vpu_encode.c:730-732 | Undisturbed, header sets come exactly every group length. |
| `ColourConvert.SizesOfEven` | src/soft_convert.c:113-116 | For even sides the two buffer sizes are eight and six times the number of chroma samples. |
| `ColourConvert.LoopOffsets` | src/soft_convert.c:40-79 | For any sides the two loops, run with their offsets alone, report whether every turn of theirs reads and writes inside the buffers that the converter was opened with. |
| `ColourConvert.InsideExactlyWhenEven` | src/soft_convert.c:40-79 | Every turn of the loops, its eight reads and six writes, stays inside those buffers if and only if both sides are even, or one is zero. |
| `ColourConvert.ThreeByTwoReadsOutside` | src/soft_convert.c:57-67 | A picture of 3 by 2 fails it: its second turn reads up to the fourteenth of twelve bytes. |
| `ColourConvert.PlanarPlan` | src/soft_convert.c:40-78 | Each turn of the inner loop owes the output the six bytes that the picture has there, for every row pair. |
| `ColourConvert.Converter.FourPixels` | src/soft_convert.c:53-78 | A turn with its eight reads and six writes through running indices makes that progress, in bounds. |
| `ColourConvert.Converter.RowPair` | src/soft_convert.c:53-78 | The inner loop finishes one pair of rows and moves the chroma indices by half a row. |
| `ColourConvert.Converter.Yuv422ToYuv420` | src/soft_convert.c:26-80 | For even sides every output byte is written exactly once, in bounds, and the output is the planar picture. |
| `ColourConvert.PlanarMeaning` | src/soft_convert.c:70-77 | Luma is copied pixel by pixel by row and column; each chroma sample is the mean of the two rows of its pair, rounded down: twice the sample is at most their sum and more than their sum less two. |
| `ColourConvert.PairPlace` | src/soft_convert.c:42-50 | Every pixel pair of the picture belongs to exactly one chroma sample, in its upper or its lower row. |
| `ColourConvert.RecoveredExactlyWhenRowsAgree` | src/soft_convert.c:76-77 | Repeating the chroma rows recovers the packed picture if and only if the chroma of every pair of rows agrees. |
| `TextRaster.ClippedExactlyWhenPlaceable` | src/timestamp.c:1090-1094 | For every 32-bit start and width, negative starts included, and every text shorter than 2^32 pixels: aligning and clipping, in unsigned 32-bit arithmetic, draw the largest number of glyphs that ends inside the row if and only if the start is in the row and right-aligned text is no longer than the room to its left. |
| `TextRaster.TooLongToEndThere` | src/timestamp.c:1090-1094 | A text of 100 glyphs that is to end at column 400 of 640 fails it: it starts at a wrapped address and is not clipped. |
| `TextRaster.NegativeStart` | src/timestamp.c:1090-1094 | A start of -1 fails it: 27 glyphs are clipped to more than 27. |
| `TextRaster.RunsOnExactly` | src/timestamp.c:1096-1097 | Some cell of the glyphs drawn passes the right edge exactly when the text is double-sized, not empty, and ends one pixel short of the edge; in single size none does. |
| `TextRaster.Place` | src/timestamp.c:1090-1094 | The computation of start and length gives those values, and a well-clipped line. |
| `TextRaster.Canvas.DrawRow` | src/timestamp.c:1109-1131 | The innermost loop inks one run of the image, cell by cell, and moves both pointers over it. |
| `TextRaster.Canvas.DrawNextRow` | src/timestamp.c:1108-1132 | After a row the image pointer is at the same column of the next row. |
| `TextRaster.Canvas.DrawGlyph` | src/timestamp.c:1108-1133 | The loop over the rows paints the glyph and leaves the image pointer one advance to the right of where it began. |
| `TextRaster.Canvas.DrawGlyphs` | src/timestamp.c:1103-1134 | The loop over the characters paints them from left to right, every write inside the image. |
| `TextRaster.Canvas.DrawTextN` | src/timestamp.c:1085-1137 | A call aligns, clips and paints the glyphs that the character table gives for its text. |
| `TextMeaning.RunPixel` | src/timestamp.c:1109-1131 | A run of cells inks the pixels of its row, and what passes the right edge those at the left edge of the next row. |
| `TextMeaning.RowsPixel` | src/timestamp.c:1108-1132 | In rows and columns: the rows of a glyph ink the pixels under them, and what runs on, and no other. |
| `TextMeaning.TextPixel` | src/timestamp.c:1103-1134 | A line leaves every pixel as if its glyphs were laid over each other from left to right on rows of that width. |
| `TextMeaning.DrawnPixel` | src/timestamp.c:1085-1137 | After a call whose text can be placed, every pixel is as if the clipped glyphs were laid over each other from left to right: the one-dimensional walk is painting in two dimensions. |
| `TextMeaning.ShadeIsLayers` | src/timestamp.c:1103-1134 | At most two glyphs meet in a pixel: it has the colour of the glyph of its advance, over the edge of the glyph before, over the image. |
| `TextMeaning.StayingColour` | src/timestamp.c:1085-1137 | When no cell passes the right edge, the colour of every pixel after a call in closed form: nothing changes outside the rows and columns of the glyphs, and at most two glyphs decide a pixel inside. |
| `TextMeaning.RunOnColour` | src/timestamp.c:1096-1134 | When a cell passes the right edge, only the first column differs from that: there the last column of the last glyph has run on, one row down. |
| `TextMeaning.OneGlyphRunsOn` | src/timestamp.c:1096-1134 | It happens: one glyph with ink in its last column only, on rows of 13 pixels, inks the first column of the next row. |
| `TextMeaning.SingleStaysInRows` | src/timestamp.c:1096-1134 | In single size no call writes outside its eight rows or outside the columns of its glyphs. |
| `TextMeaning.TextCells` | src/timestamp.c:1085-1137 | After any call that can be placed, every pixel by the cells of the glyphs themselves, with columns counted from the column asked for, or, in the right half, from where text of that length must begin to end there: cell 1 leaves black, cell 2 white, any other what is below it, which is the edge of the glyph before or the image. |
| `TextMeaning.FirstColumnCells` | src/timestamp.c:1096-1134 | The same for the first column when double-sized text ends one pixel short of the edge: the last column of the last glyph is there, a row lower. |
| `TextMeaning.PlaceablePlaced` | src/timestamp.c:1090-1094 | Every call that can be placed is placed like that, with as many characters as end inside the row. |
| `TextScaling.DoubledCell` | src/timestamp.c:1185-1193 | Each cell of a doubled glyph is the cell at half its row and half its column. |
| `TextScaling.Entry` | src/timestamp.c:1202-1205 | The table entry used for a code is the last one with that code, else the first entry of all. |
| `TextScaling.DoubleGlyph` | src/timestamp.c:1188-1193 | The two loops, column by column, fill in the doubled glyph. |
| `TextScaling.InitializeChars` | src/timestamp.c:1177-1208 | Both tables map every code to its entry, the second one to the doubled glyph of the same entry. |
| `TextScaling.FontByEntry` | src/timestamp.c:1177-1208 | Code by code: the glyph is that of the last entry with the code, else of the first entry, and the doubled one has at row y and column x the cell at half of each. |
| `TextScaling.PlaceScales` | src/timestamp.c:1090-1094 | Doubling start and width doubles the aligned start and keeps the number of glyphs, right alignment and clipping included. |
| `TextScaling.ShadeScales` | src/timestamp.c:1103-1134 | The colour of a pixel under doubled glyphs is that of the pixel at half its row and column under single ones. |
| `TextScaling.DrawingScales` | src/timestamp.c:1085-1137 | Drawing in double size on the magnified image, at the doubled place, is magnifying what drawing in single size gives. |

## Left out

- `WellEnded` buffers: the packetiser reads up to three bytes beyond its cursor, so a buffer must end in a non-zero byte and not in a bare `00 00 01`; what the scan makes of other buffers depends on the memory behind them, which is not modelled.
- `RtpPack.PacHandle.Get`: requires a put first; before the first put the program walks a null unit.
- `RtpSession.Stamp`: what converting more than 32 bits' worth of ticks gives is undefined in the source language, so it is an input of the model; the clock is one, too.
- The packet layout assumes the 12-byte header that the source documents, which needs a 4-byte `unsigned long` and bit fields allocated from the low end.
- The marker is set at the end of every NAL unit, as the program does; section 5.1 of RFC 6184 asks for it at the end of an access unit.
- The size checks that abort the packetiser are preconditions on the maximum packet length (1 to 10240 - 14); memory allocation and printing are not modelled.
- `EventPool.Client.HandleEvent`: models the part of the callback under the lock; the client callbacks after it, event data pointers, debug output, and the assertions on unknown commands, errors and events are not modelled (`IlEvents.Accepted` is their precondition).
- `CommandWait.Enabled`: assumes what the program's users must see to: one waiter per component, and no two waiters on the same second component. Whoever else consumes the component's flags (an event wait, a state transition, a removal) is the step `Consume` or `Remove`. Waits for a command other than state set, port disable and port enable return -1 before anything happens and are not steps.
- `CommandWait.Next`: a handler that would use the null pointer takes no further step; what the program does then is not modelled.
- `EventPool.Client.ReturnEvents`: nodes returned this way keep their old event kind; only the other paths mark nodes as unused, and nothing in the model depends on the mark.
- `ilclient_wait_for_event`, tunnels, component creation and destruction, and `ilclient_disable_port_buffers`, which walks the buffers of another port, are not modelled.
- `BufferQueue.Component.Get`: assumes that no one else takes buffers of its own port during the call. Input and output lists differ only in the port field compared and share one model.
- `BufferWait.Next`: the event flags themselves are a library that is not part of the repository; a flag is one bit that the call that returns consumes. `ilclient_disable_port_buffers`, which consumes the same flag, is not a step.
- `TransitionOrder.CommandAll`: models the drawing and spending of keys; sending the commands and waiting for them is not part of it.
- `FramePool.EncHandle.AllocFramebuf`: physical and virtual memory are granted or refused by an input; sizes, strides and addresses of the buffers, and failure to allocate the tables themselves, are not modelled.
- `EncoderHeaders.GivenExactlyWhenUndisturbed`: is about calls between frames; an encoder that encodes in the middle of its own drain is not modelled. Encoders with the MVC extension are modelled as the code has them, though opening always sets the extension to 0.
- `EncoderHeaders.EncHandle.EncodeDo`: success is an input; bit rates, picture types, skipping and the bit stream itself are the hardware's.
- `ColourConvert.Converter.Yuv422ToYuv420`: requires even sides, which `ColourConvert.InsideExactlyWhenEven` shows to be just what keeps its loops inside their buffers; the size check that aborts is not modelled.
- `TextRaster.Canvas.DrawTextN`: requires that the text can be placed, that its glyphs lie inside the image and that its codes are in the table; for text that cannot be placed the program computes an address outside the row. Codes outside ASCII, newlines, the glyph bitmaps and the time stamp format are not modelled.
- `TextScaling.InitializeChars`: tables hold glyphs, not pointers to them.
- Lengths and offsets are unbounded integers except where the source's width matters: bytes, sequence numbers, timestamps, and the alignment and clipping of text.
- Capture, network, the other converters and encoders, the command line and the wiring of the pipeline are not modelled; they hold no state of their own or leave it to libraries and devices.
