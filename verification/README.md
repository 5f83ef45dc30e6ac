# Verified model of rperf3-rs accounting and pacing

rperf3-rs measures network throughput. Its sockets are plumbing; what can be wrong without anyone noticing
is the arithmetic around them: how fast it sends, how many packets it says were lost, how much jitter it
reports, and whether counters updated by several threads add up. This project models that machinery in
Dafny and proves what the program relies on.

Verify everything with `dafny verify dfyconfig.toml`.

## Parts

| file | what it models |
|---|---|
| `Base.dfy`, `Clocks.dfy` | machine widths, wrapping additions, the host's clocks |
| `TokenBucket.dfy` | the integer token bucket and the rate it really enforces |
| `WindowedLimiter.dfy` | the older floating-point limiter of the server's send loops |
| `Loss.dfy` | what "lost" means, and the gap tracker |
| `UdpState.dfy` | the collector's packet state: max-based loss, out-of-order count, jitter filter |
| `Jitter.dfy` | the jitter filter against section 6.4.1 of RFC 3550 |
| `TimestampCache.dfy` | the cached send timestamp and its effect on jitter |
| `OneWay.dfy` | the one-way receivers with one gap tracker per stream |
| `UdpPacket.dfy` | big-endian integers, packet header and parser |
| `Counters.dfy` | global and per-stream counters under concurrency |
| `Measurements.dfy` | the collector object and its bounded interval history |
| `WorkerFlush.dfy` | worker threads flushing local counts into shared ones |
| `Reporter.dfy` | the interval reporter, interval accounting, and the order of progress events |
| `BatchSocket.dfy`, `BatchSender.dfy` | the send batch and the batched sending loop |
| `EndToEnd.dfy` | sender, lossy network and receiver together |
| `Protocol.dfy` | length-prefixed control messages over a chunked stream |

## How the environment appears

* Time is an input. A clock reading lies any distance after the previous one, and a sleep lasts at least as
  long as asked. Nothing else is assumed about scheduling.
* A kernel send accepts any prefix of the batch, possibly nothing, or fails. The network drops, duplicates
  and reorders as stated by each lemma.
* Threads and tasks interleave in any order between their atomic steps.
* 32- and 64-bit wrap-around is written out where the program's results depend on it (`FetchAdd`, `Succ32`,
  the products of the token bucket, the truncated packet number and length prefix). Integer overflow wraps,
  as in a release build.
* `f64` values are reals.

## Ranges, and what happens outside them

* Rates from 1 to 1e9 bytes per second. `DebtBoundedIffRateInRange` proves that these are exactly the rates
  at which the bucket limits its debt: above them (and at 0) it never sleeps.
* Pauses short enough that `elapsed_micros * bytes_per_sec` stays below 2^64 (`IdleOk` bounds them before the call).
  `TokensExactIff` and `RefillExactIff` say exactly when a refill credits what the pause is worth, and
  `LongIdleLosesTokens` is a run that loses tokens to five idle hours at 1e9 bytes per second.
* Requests of at most 4 GiB. The debt is then at most `max(10000, request + 2000)` bytes.
* Gap trackers: a packet's number is its position in the stream, cut down to 32 bits. `FollowsIffWrapHarmless` says
  exactly when the tracker still sees positions: when at every packet the wrap does not mislead it. That holds on every
  stream of fewer than 2^32 - 1 packets (`UnwrappedHarmless`) and across the wrap for lossless delivery in order
  (`LosslessAcrossWrap`); `GapAtWrapMisread` is a trace where it fails. Stream independence needs no such condition.
  The comparison of the two estimators is for numbers below 2^32 - 1, since the collector knows no wrap at all.
* End to end: at most 2^32 packets, and a collector that saw no earlier test. The server keeps one collector for all
  tests (`src/server.rs:319`), so from the second test on its report is right only by luck: `ReportTrueIff` says exactly
  for which deliveries, and `AlwaysTrueIff` that a fresh collector and at most 2^32 packets are what it takes.
* Cached timestamps: on one thread they never decrease; across threads they can (`MonotoneIffOneThread`,
  `StepBackHappens`), by no more than a stamp is ever off (`StepBackBounded`).
* Concurrent counters: less than 2^64 recorded per counter.
* The collector's loss figure is the number of missing packets if and only if nothing arrived twice or
  nothing is missing (`CollectorExactIff`, with `DuplicateHidesLoss` as an example of the contrary); the gap tracker's figure is the missing packets plus those that
  arrived after being given up (`LostIsMissingPlusRecovered`).
* The jitter filter clamps negative transit times. `MeetsRfc3550Iff` says on exactly which traces it follows RFC 3550
  packet by packet: those where any two packets in a row have non-negative transit times or equal ones. That covers
  every trace whose receive times are not before its send times; `NotMetWhenReceiverLags` is a trace outside.

## Where documentation and code differ

The model follows the code.

* `src/udp_packet.rs:12-20` describes a 64-bit sequence number; the header written and parsed has a 32-bit
  stream id and a 32-bit sequence number.
* `docs/TOKEN_BUCKET.md` shows a sleep for every shortfall; the code skips sleeps of 10 microseconds or less.
* The collector ignores sequence number `u64::MAX` as "initialization packet", but numbers parsed from a header are
  32 bits wide, so no received packet matches. The packet that opens reverse mode (`src/client.rs:926-928`) has number 0;
  the server takes it to learn the client's port (`src/server.rs:907-909`) and records nothing.
* `src/measurements.rs:9` keeps 86400 intervals, but 100 in the crate's own tests; the model has the former.

## Model

| member | source | states |
|---|---|---|
| TokenBuckets.TokenBucket.constructor | src/token_bucket.rs:73-91 | a new bucket is full, with a burst of a tenth of a second but at least 8192 bytes |
| TokenBuckets.TokenBucket.Refill | src/token_bucket.rs:148-166 | the new state is the specified refill at the given time, and nothing else changes |
| TokenBuckets.TokenBucket.Consume | src/token_bucket.rs:114-142 | bucket and clock end up as one consume step with some choice of pauses, a sleep lasting at least as long as asked |
| TokenBuckets.TokenBucket.Reset | src/token_bucket.rs:182-185 | full again, as of a new clock reading |
| TokenBuckets.TokenBucket.SetBandwidth | src/token_bucket.rs:215-224 | indistinguishable from a new bucket at the new rate |
| TokenBucketSpec.NewBucket | src/token_bucket.rs:73-91 | balance and capacity of a new bucket are a tenth of the rate, rounded down, or 8192 below 81,920 bytes per second; its nanoseconds per byte are the most that fit into a second |
| TokenBucketSpec.NewRateNewBucket | src/token_bucket.rs:215-224 | a change of rate leaves what a new bucket of that rate would be |
| TokenBucketSpec.ResetFills | src/token_bucket.rs:182-185 | right after a reset any request up to the capacity goes through without a wait |
| TokenBucketSpec.ConsumeExact | src/token_bucket.rs:114-142 | the exact end of a call: a shortfall that costs 10 microseconds or less is taken on credit at once; a dearer one makes the call last exactly its cost, before the balance is brought up to date and the request taken |
| TokenBucketSpec.RefillSound | src/token_bucket.rs:148-166 | when nothing overflows a refill credits at most what the claimed time is worth, up to capacity, and leaves less than one byte's worth of time unclaimed |
| TokenBucketSpec.RefillIdle | src/token_bucket.rs:153-165 | a refill that would add nothing changes neither balance nor refill time |
| TokenBucketSpec.SleepRepaysHalf | src/token_bucket.rs:126-135 | the floored per-byte sleep, after both truncations of the refill, still earns at least half the shortfall less 1000 bytes |
| TokenBucketSpec.SecondRefill | src/token_bucket.rs:121-138 | after a sleep at most half the shortfall and 1000 bytes remain, or the bucket is full; the sleep product does not overflow |
| TokenBucketSpec.NoSleepShortfall | src/token_bucket.rs:128-137 | a request that does not sleep is short by at most 10,000 bytes |
| TokenBucketSpec.SleepNotExcessive | src/token_bucket.rs:124-132 | the sleep asked for is never longer than the shortfall takes at the exact rate |
| TokenBucketSpec.ConsumeSound | src/token_bucket.rs:114-142 | one call keeps the reachable-state invariant and pays out no more than the refilled time earned |
| TokenBucketSpec.DebtIsBounded | src/token_bucket.rs:114-224 | after any calls of consume, reset and set_bandwidth, however timed, the balance lies between `-max(10000, request + 2000)` and the capacity |
| TokenBucketSpec.RateConformance | src/token_bucket.rs:114-166 | after any history, bytes consumed in any window of calls are at most capacity + debt + 1 plus the rate times window and one microsecond |
| TokenBucketSpec.FullBucketConforms | src/token_bucket.rs:114-166 | from a new bucket, consumption leads the rate by at most capacity and debt |
| TokenBucketSpec.SendThenConsumeConforms | src/client.rs:1190-1204 | a sender that pays after each send leads the rate by at most one more send, right after any of its sends |
| TokenBucketSpec.DebtBoundedIffRateInRange | src/token_bucket.rs:77-82 | some debt bound holds for every run if and only if the rate is between 1 and 1e9 bytes per second |
| TokenBucketSpec.NeverSleeps | src/token_bucket.rs:124-128 | with zero nanoseconds per byte no sequence of requests, of any size, takes any time; made at one instant they drive the balance down by all they ask for |
| TokenBucketSpec.TokensExactIff | src/token_bucket.rs:157-159 | the bytes computed for a pause are what it is worth if and only if microseconds times rate stays below 2^64 |
| TokenBucketSpec.RefillExactIff | src/token_bucket.rs:153-165 | a refill never leaves more than the pause is worth up to capacity, and leaves exactly that if and only if nothing overflows or what remains of the product fills the bucket all the same |
| TokenBucketSpec.FiveHoursOk | src/token_bucket.rs:157-159 | pauses of up to five hours overflow at no supported rate |
| TokenBucketSpec.LongIdleLosesTokens | src/token_bucket.rs:114-166 | a run: a new bucket is emptied by one request, idles for five hours, and holds 290 bytes instead of 100,000,000 |
| WindowedLimiter.CheckWithin | src/server.rs:947-965 | a closed window carries at most 110% of target times its length, and at most 100% when the sender slept |
| WindowedLimiter.SleepIsTight | src/server.rs:951-959 | the sleep is not longer than needed: the window it closes then carries target times its length, less than one byte short |
| WindowedLimiter.EveryWindowWithin | src/server.rs:934-965 | in every run all closed windows conform, tile the time up to the last check, and with the open one account for every byte |
| WindowedLimiter.EverySend | src/server.rs:943-965 | in every run a send joins the open window; a check is made once a millisecond has passed, waits exactly when the excess is worth more than 100 microseconds, and ends the window within a byte of its due |
| WindowedLimiter.LimiterConforms | src/server.rs:1179-1205 | bytes sent in a run are at most 110% of target times elapsed plus the open window's bytes |
| WindowedLimiter.Check | src/server.rs:948-963 | the window it closes ends when the clock says after the specified sleep, and conforms |
| WindowedLimiter.SendLoop | src/server.rs:934-965 | the loop computes the specified limiter state, which conforms, and counts every byte |
| Loss.MissingSize | src/server.rs:1702-1705 | numbers of a range that never arrived: its length less the distinct numbers delivered in it |
| Loss.TrackInvariant | src/server.rs:1586-1596 | on positions: expected is one past the highest; packets on time plus packets counted lost fill `[first, expected)` |
| Loss.LateCountsLate | src/server.rs:1591-1593 | on positions: the late count is the number of packets from before the range or not above every earlier packet |
| Loss.LostIsMissingPlusRecovered | src/server.rs:1702-1711 | on positions: the lost count is exactly what is missing plus what arrived after being counted lost |
| Loss.FollowsIffWrapHarmless | src/server.rs:1700-1711 | the 32-bit tracker agrees with the one on positions after every packet if and only if at every packet the wrap does not mislead it: the packet is the expected one, or ahead in the same round of numbers, or behind with a lower number |
| Loss.UnwrappedHarmless | src/server.rs:1700-1711 | that holds on every stream of positions below 2^32 - 1 |
| Loss.GapAtWrapMisread | src/server.rs:1705-1706 | it fails when the last number before the wrap is lost: one late packet is reported and no loss |
| Loss.GapSandwich | src/server.rs:1702-1711 | for any reordering and duplication where it holds: lost = missing + recovered, missing <= lost <= missing + late, and the late count counts the late packets |
| Loss.LosslessAcrossWrap | src/server.rs:1590-1595 | lossless in-order delivery of any length shows no loss and no late packet, across the 32-bit wrap |
| UdpState.InitPacketsIgnored | src/measurements.rs:1079-1082 | initialization packets leave no trace in the state |
| UdpState.CollectorLoss | src/measurements.rs:1142-1159 | on any trace the report is `(max(0, missing - duplicates), max + 1)` |
| UdpState.CollectorExactIff | src/measurements.rs:1142-1159 | the reported loss equals the missing count if and only if nothing arrived twice or nothing is missing |
| UdpState.DuplicateHidesLoss | src/measurements.rs:1150-1156 | numbers 0, 2, 2: one packet missing, none reported |
| UdpState.OrderIndependent | src/measurements.rs:1087-1095 | traces that are permutations of each other give the same report |
| UdpState.EstimatorsDifferByLate | src/server.rs:1586-1596 | gap receiver's loss = collector's loss + gap receiver's late packets, if and only if the trace is no longer than the range it spans; both expect the same |
| UdpState.DistinctEstimatorsDifferByLate | src/server.rs:1586-1596 | hence on every duplicate-free trace |
| UdpState.OutOfOrderCountsDescents | src/measurements.rs:1097-1103 | the out-of-order count is the number of packets numbered below their predecessor |
| UdpState.OutOfOrderAtMostLate | src/measurements.rs:1097-1103 | each of them is late for the gap receiver, which never counts fewer |
| Jitter.MeetsRfc3550Iff | src/measurements.rs:1105-1127 | the state equals the RFC recurrence after every packet of a trace if and only if any two packets in a row have non-negative transit times or equal ones |
| Jitter.MeetsRfc3550 | src/measurements.rs:1105-1127 | so it does on every trace with receive times not before send times |
| Jitter.ClampHarmlessIff | src/measurements.rs:1112-1117 | the step behind it: the clamped transit difference of two packets equals D exactly when both transits are non-negative or equal |
| Jitter.NotMetWhenReceiverLags | src/measurements.rs:1112-1120 | a concrete trace with a lagging receiver clock where the RFC value is 1 and the state holds 0 |
| Jitter.JitterBounded | src/measurements.rs:1120 | the estimate stays between 0 and any bound on the differences seen |
| Jitter.OffsetInvariant | src/measurements.rs:1112-1120 | a constant receiver clock offset that keeps the trace causal changes nothing |
| Jitter.JitterInsensitive | src/measurements.rs:1109-1123 | send timestamps off by at most e move the estimate by at most 2e, for traces of any length |
| TimestampCacheSpec.StampsClose | src/udp_packet.rs:83-98 | cached values never lead the wall clock and trail it by less than the refresh delay plus 2 microseconds, in every run |
| TimestampCacheSpec.StampsMonotone | src/udp_packet.rs:83-98 | values of successive calls on one cache never decrease |
| TimestampCacheSpec.RefreshedWhenDue | src/udp_packet.rs:84-97 | a call 1,000,000 ns or more after the last refresh returns the wall clock reading in whole microseconds and refreshes; an earlier one leaves the cache alone and adds the whole microseconds passed |
| TimestampCacheSpec.EveryStampRecent | src/udp_packet.rs:83-98 | in every run each value is a wall clock reading less than a millisecond old, plus at most 999 microseconds |
| TimestampCacheSpec.MonotoneIffOneThread | src/udp_packet.rs:53-98 | stamps never decrease in time, whatever the caches and calls, if and only if the sender stays on one thread |
| TimestampCacheSpec.StepBackHappens | src/udp_packet.rs:83-98 | on any host, two threads with freshly refreshed caches: the stamp 100 nanoseconds later is one microsecond lower |
| TimestampCacheSpec.StepBackBounded | src/udp_packet.rs:53-98 | between any threads a stamp steps back by at most the error of a stamp |
| TimestampCacheSpec.FreshCacheAgrees | src/udp_packet.rs:70-80 | a new or refreshed cache is close to the wall clock |
| TimestampCacheSpec.CachingBarelyMovesJitter | src/udp_packet.rs:367-375 | sending cached instead of exact timestamps moves the measured jitter by at most twice the error of a stamp, for any delivery and whichever thread's cache stamped each packet |
| TimestampCaches.TimestampCache.constructor | src/udp_packet.rs:70-80 | the initial state is a refresh |
| TimestampCaches.TimestampCache.GetTimestamp | src/udp_packet.rs:83-98 | value and new state are those of the specified call, with clock readings in program order |
| OneWaySpec.EntriesAreTrackers | src/server.rs:1697-1711 | a stream's map entry is what a receiver of that stream alone would expect |
| OneWaySpec.StreamsIndependent | src/server.rs:1692-1712 | totals on any interleaving are the sums over single-stream receivers, wrap-around included |
| OneWaySpec.InterleavingIrrelevant | src/server.rs:1692-1712 | interleavings with the same per-stream traces give the same totals |
| OneWaySpec.Conservation | src/server.rs:1687-1712 | received + lost = sum of `end - first` + late + short packets, in every reachable state whose streams the wrap did not mislead |
| OneWaySpec.Sandwich | src/server.rs:1692-1712 | over all streams, under the same condition: lost = missing + recovered, hence missing <= lost <= missing + late |
| OneWay.StreamReceiver.OnDatagram | src/server.rs:1686-1713 | the counters and the map after one datagram |
| OneWay.ReceiveStreams | src/server.rs:1646-1722 | the receive loop returns the totals of the specified receiver |
| OneWay.ReceiveFromZero | src/server.rs:1558-1598 | the loop starting at 0 is the gap tracker on all numbers received |
| OneWay.NumbersKept | src/server.rs:1579-1584 | those are the first four bytes of every datagram of 8 bytes or more, in order, whatever its stream id |
| OneWay.ProbeFields | src/server.rs:1687-1690 | number and stream id are the first and second four bytes, most significant first; shorter datagrams have neither |
| BigEndian.Decodes | src/udp_packet.rs:206-213 | decoding an encoded value that fits gives it back |
| BigEndian.Encodes | src/udp_packet.rs:252-259 | encoding a decoded value gives the bytes back |
| UdpPacket.ParseCreated | src/udp_packet.rs:367-408 | every created packet parses to its header and payload |
| UdpPacket.ParsesIffHeaderPrefix | src/udp_packet.rs:247-267 | exactly the datagrams beginning with a header's bytes parse, and to that header |
| UdpPacket.AcceptedLayout | src/udp_packet.rs:247-267 | exactly the datagrams of 20 bytes or more that begin with 0x52 0x50 0x46 0x33 parse; stream id, number and timestamp are bytes 4 to 19, most significant first |
| BigEndian.FirstByteMostSignificant | src/udp_packet.rs:206-213 | the four bytes written for a number, most significant first, make up that number |
| CounterProtocol.EveryInterleaving | src/measurements.rs:942-1048 | in every interleaving the global counter shows what was recorded, stream entries plus amounts in flight account for it stream by stream, and ids are unique |
| CounterProtocol.QuietSnapshotConsistent | src/measurements.rs:1224-1238 | a snapshot with no record under way sums to its totals, and each entry is exactly what was recorded for its stream |
| CounterProtocol.ConcurrentGet | src/measurements.rs:1224-1238 | a get whose loads interleave with any number of record calls: its stream entries sum to at least its total less what was in flight at the first load, and at most its total plus what was recorded until the last load less what is in flight then |
| CounterProtocol.CanSettle | src/measurements.rs:974-1048 | from every reachable state the calls under way can finish, without another one begun |
| Measurements.RecordOnceCounts | src/measurements.rs:974-981 | a record call adds its amount to the total and to exactly its own stream |
| Measurements.RecordOnceEntries | src/measurements.rs:942-1048 | and leaves the entry of every other stream as it was |
| Measurements.Collector.GetOrCreateStream | src/measurements.rs:942-954 | the first entry with that id, or a new zero entry at the end |
| Measurements.Collector.RecordBytesSent | src/measurements.rs:974-981 | the three steps of the concurrent protocol in a row |
| Measurements.Collector.RecordBytesReceived | src/measurements.rs:992-1000 | the same for received bytes |
| Measurements.Collector.RecordUdpPacket | src/measurements.rs:1041-1048 | the same for packets |
| Measurements.Collector.RecordUdpPacketReceived | src/measurements.rs:1073-1128 | the packet state after one arrival, with published figures in step |
| Measurements.Collector.CalculateUdpLoss | src/measurements.rs:1142-1159 | the reported pair of the current state |
| Measurements.Collector.AddInterval | src/measurements.rs:54-59 | the history after one more interval |
| Measurements.Collector.Get | src/measurements.rs:1224-1248 | counters, streams and history as they are; once bytes were received the loss estimate replaces the packet counter |
| Intervals.KeepsTheLast | src/measurements.rs:54-59 | the history is exactly the last 86400 intervals, in order |
| WorkerFlush.FlushConserves | src/server.rs:1820-1876 | at every point of every interleaving, shared counters plus unflushed locals equal what arrived |
| WorkerFlush.JoinedTotalsExact | src/server.rs:1873-1939 | once all workers finished the shared counters are exact |
| WorkerFlush.CanBeJoined | src/server.rs:1934-1939 | after the stop every run can be brought to the point where all workers have finished, with nothing more arriving; the counters then show what arrived |
| WorkerFlush.WorksUntilStopped | src/server.rs:1820-1876 | before the stop no worker makes its final flush |
| WorkerFlush.ReadingsMonotone | src/server.rs:1900-1905 | the monitor's readings never decrease and never exceed what arrived |
| Reporter.RunReporterTask | src/interval_reporter.rs:139-174 | whatever is sent to it, one update per report it sees, in order, and nothing else |
| Reporter.SeesUpToComplete | src/interval_reporter.rs:144-171 | it sees exactly the reports before the first Complete, or all of them when every sender is gone without one |
| Reporter.IntervalReporter.Send | src/interval_reporter.rs:125-127 | appends the report to the queue |
| Reporter.IntervalReporter.Finish | src/interval_reporter.rs:130-132 | appends the completion message |
| ProgressProtocol.EveryInterleaving | src/client.rs:1198-1291 | in every interleaving delivered updates, queued reports and the completion message are consistent with the intervals cut |
| ProgressProtocol.SenderBooks | src/client.rs:1198-1254 | cut intervals plus the open one add up to the bytes sent, and all were stored |
| ProgressProtocol.CallbackSequence | src/client.rs:1264-1291 | a finished run shows TestStarted, every update in order, one TestCompleted with the right total; the stored intervals are the last 86400 |
| ProgressProtocol.NeverStuck | src/client.rs:1264-1266 | a sender waiting for the reporter can always proceed, or the reporter can |
| ProgressProtocol.CanEnd | src/client.rs:1264-1291 | from every reachable state the run can be brought to its end, with nothing more sent |
| BatchSocket.UdpSendBatch.Add | src/batch_socket.rs:87-94 | appends packet and address together unless 64 are held |
| BatchSocket.UdpSendBatch.Clear | src/batch_socket.rs:112-115 | empties both vectors |
| BatchSocket.UdpSendBatch.Send | src/batch_socket.rs:166-188 | what leaves is a prefix, what stays is the rest, in order and still aligned; bytes are those of the prefix |
| BatchSender.FillBatch | src/client.rs:1178-1186 | creates as many packets as time and the adaptive size allow, numbered on from the last, without disturbing those waiting |
| BatchSender.SendAndRecord | src/client.rs:1188-1199 | nothing is lost between batch and wire, and the counters match the wire |
| BatchSender.Settle | src/client.rs:1198-1254 | after a send: paid for, added to the open interval, and the interval stored and reported when due |
| BatchSender.EverySendBooked | src/client.rs:1198-1254 | in every run: right after a send with the interval over, the closed intervals hold exactly what is on the wire and nothing is open; after any other send no interval is closed |
| BatchSender.Transmit | src/client.rs:1188-1255 | exactly one send attempt, after which order, counters, intervals and payments are consistent again |
| BatchSender.Round | src/client.rs:1171-1262 | one round makes exactly one send attempt if there is anything to send, and keeps order, counters, intervals and payments consistent |
| BatchSender.RunUdpSendBatched | src/client.rs:1117-1266 | under any timing and partial sends wire plus batch are exactly packets 0, 1, 2, ... in order, each of the configured size (1044 bytes if that is 20 or less); totals and the entry of stream 0 show what is on the wire, all other entries nothing; the sends make up the wire, one for each round unless one fails, and each is paid for byte for byte; intervals, history and reports are those of the sends |
| BatchSender.RateOfRun | src/client.rs:1190-1204 | the wire of such a run leads the rate by at most capacity and debt at its end, and by one batch more as it stands right after any of its sends |
| BatchSenderSpec.AdaptiveBatchSize | src/client.rs:1152-1169 | between 1 and 64 packets |
| BatchSenderSpec.BatchSizeByRate | src/client.rs:1152-1169 | 16 packets below 1000 a second, 32 below 10,000, 64 from there on or without a limit |
| BatchSenderSpec.PacketSize | src/client.rs:1134-1139 | header and payload together have the configured size, or 1044 bytes if that leaves no room for a payload |
| BatchSenderSpec.OnTheWire | src/client.rs:1183-1184 | the i-th packet on the wire goes to the peer and parses to stream 0, number i modulo 2^32, its timestamp and zeros |
| BatchSenderSpec.WireSize | src/client.rs:1134-1139 | the wire carries its number of packets times the packet size |
| IntervalAccounts.EnterBooks | src/client.rs:1198-1254 | what was just sent or received joins the open interval, which is closed into the history (after the intervals of earlier tests) and reported when due |
| IntervalAccounts.EveryTurnBooked | src/client.rs:1198-1254 | in every run: right after a turn with the interval over nothing is open and the closed intervals hold everything so far, that turn included; after any other the closed ones are unchanged |
| EndToEnd.OnDatagramAtClient | src/client.rs:1344-1412 | a header that parses is recorded, every datagram is counted, and the open interval closed into history and report when due |
| EndToEnd.RunUdpReceive | src/client.rs:1318-1428 | reverse mode: packet state, byte total, intervals and reports are those of the datagrams received, on top of what the collector held |
| EndToEnd.OnDatagramAtServer | src/server.rs:1057-1128 | as at the client, but what does not parse is not counted |
| EndToEnd.ReceiveUdpData | src/server.rs:1022-1147 | normal mode, the peer of the batched sender: the same for the datagrams that parse |
| EndToEnd.EveryDatagramBooked | src/server.rs:1072-1128 | for either receiver, after every datagram: with the interval over nothing is open and the closed intervals equal the tally so far; otherwise no interval is closed |
| EndToEnd.BooksCoverTally | src/server.rs:1074-1128 | closed intervals and the open one cover exactly the bytes and packets counted, at either end |
| EndToEnd.ClientTally | src/client.rs:1355-1357 | the client counts all datagrams with their full length |
| EndToEnd.ServerTally | src/server.rs:1059-1072 | of a sender's run under any loss, reordering and strays the server counts the delivered packets, each with 20 bytes of header and its payload |
| EndToEnd.ServerCountsDelivered | src/server.rs:1065 | by exactly that its byte total and its entry of stream 0 grow, and nothing else changes, whatever the collector held before |
| EndToEnd.PlusModulo | src/measurements.rs:992-1000 | growing means addition modulo 2^64 |
| EndToEnd.ParsedNumbers | src/udp_packet.rs:404-408 | the receiver sees the delivered packets' wire positions (32 bits of them) and their timestamps, and no strays |
| EndToEnd.ReportTrueIff | src/measurements.rs:1142-1159 | whatever arrived in earlier tests, any sender run with at most 2^32 packets, any delivery at most once each: the report is right (lost + delivered + unknown tail = sent, expected = max + 1) if and only if the collector is fresh, or its old maximum does not exceed the new one and nothing below that was lost |
| EndToEnd.ReportedLossIsTrue | src/measurements.rs:1073-1159 | hence always on a fresh collector |
| EndToEnd.AlwaysTrueIff | src/client.rs:1183 | the report is right for all deliveries if and only if the collector is fresh and at most 2^32 packets were sent |
| OneWayEndToEnd.SendOneWay | src/client.rs:1914-1933 | every probe has the configured size and carries number i modulo 2^32 and stream 0, each most significant byte first, then zeros |
| OneWayEndToEnd.OneWayReport | src/server.rs:1692-1712 | whatever subset of the probes arrives, in any order and number, of a run of any length: missing <= lost <= missing + late as long as the wrap misleads the tracker at no packet |
| Framing.ReadsOneFrame | src/protocol.rs:355-407 | a frame followed by anything is read back, leaving exactly what followed |
| Framing.FrameLayout | src/protocol.rs:355-362 | a frame is the length of its text in four bytes, most significant first, and the text |
| Framing.BadTextReported | src/protocol.rs:405-407 | a text that is not a message gives the JSON error and is taken off the stream whole |
| Framing.RoundTripIff | src/protocol.rs:355-362 | a frame is read back whole if and only if its text is shorter than 2^32 bytes |
| Framing.ProperPrefixFails | src/protocol.rs:398-403 | no proper prefix of a frame decodes |
| Framing.ReadsAll | src/protocol.rs:355-407 | any list of messages back to back is read back as that list |
| FrameReader.Connection.ReadExact | src/protocol.rs:398-403 | from chunks of any size: the next n bytes, or end of file |
| FrameReader.Connection.DeserializeMessage | src/protocol.rs:393-407 | result and remaining stream are those of the specified decoder |
| FrameReader.ReadMessages | src/protocol.rs:393-407 | in any chunking, the messages written are the messages read, and what follows them is untouched |

## Left out

- Sockets, `sendmmsg`, `recvmmsg`, file descriptor duplication and socket options: foreign calls, seen only through "a prefix left" and "a datagram arrived".
- The fallback of `UdpSendBatch::send` on other systems than Linux, and `send_one_way_with_offset`, whose sequence moves on by a full batch whatever was accepted.
- The tokio runtime, timeouts and cancellation, beyond a loop ending at any point.
- Rounding of `f64`, including `Duration::from_secs_f64` and the millisecond conversion of the jitter.
- Reordering of relaxed atomic operations by the processor: steps of one task take effect in program order.
- Timestamps as 64-bit microsecond counts do not wrap before the year 586,000; the model does not bound them.
- 64-bit overflow of the receivers' own totals and of the byte totals of progress events.
- The values workers send over their channel at exit (`src/server.rs:1876`): the main thread adds them up and does not use the sums.
- Start, end and rate of an interval, and the jitter and loss figures copied into progress events: presentation.
- The JSON codec: any pair of functions that undo each other.
- TCP reverse mode after the data phase, where raw bytes and frames share a stream.
- Deadlock freedom of the collector's locks.
- The buffer pool, configuration, command line, error types, system information and printing: no hard property.
