/**
  What the batched UDP sender (`run_udp_send_batched` in src/client.rs) puts on the wire, and at what rate.
 */
module BatchSenderSpec {
  import opened Base
  import opened BatchSocket
  import opened UdpPacket

  /** Payload left beside the header in a buffer of the configured size. */
  function PayloadSize(bufferSize: nat): (n: nat)
    ensures n > 0
  {
    if bufferSize > HEADER_SIZE then bufferSize - HEADER_SIZE else 1024
  }

  /** Smaller batches at lower packet rates. */
  function AdaptiveBatchSize(bytesPerSec: Option<nat>, payload: nat): (n: nat)
    requires 0 < payload
    ensures 1 <= n <= MAX_BATCH_SIZE
  {
    match bytesPerSec
    case None => MAX_BATCH_SIZE
    case Some(bps) =>
      if bps / payload < 1000 then Max(MAX_BATCH_SIZE / 4, 4)
      else if bps / payload < 10000 then MAX_BATCH_SIZE / 2
      else MAX_BATCH_SIZE
  }

  /** With its header, a packet has the configured size, or 1044 bytes when that leaves no room for a payload. */
  lemma PacketSize(bufferSize: nat)
    ensures 20 + PayloadSize(bufferSize) == if bufferSize > 20 then bufferSize else 1044
  {
  }

  /** Below 1000 packets a second 16 at a time, below 10,000 half a batch, and 64 from there on or without a limit. */
  lemma BatchSizeByRate(bps: nat, payload: nat)
    requires 0 < payload
    ensures AdaptiveBatchSize(None, payload) == 64
    ensures bps < 1000 * payload ==> AdaptiveBatchSize(Some(bps), payload) == 16
    ensures 1000 * payload <= bps < 10_000 * payload ==> AdaptiveBatchSize(Some(bps), payload) == 32
    ensures 10_000 * payload <= bps ==> AdaptiveBatchSize(Some(bps), payload) == 64
  {
    QuotientBelow(bps, payload, 1000);
    QuotientBelow(bps, payload, 10_000);
  }

  lemma QuotientBelow(a: nat, b: nat, n: nat)
    requires 0 < b
    ensures a / b < n <==> a < n * b
  {
    assert a == a / b * b + a % b;
    if a / b < n {
      MulMonotone(a / b + 1, n, b);
    } else {
      MulMonotone(n, a / b, b);
    }
  }

  lemma MulMonotone(a: nat, b: nat, c: nat)
    requires a <= b
    ensures a * c <= b * c
  {
  }

  /** The i-th packet ever created: stream 0, its number truncated to 32 bits, a timestamp, zeros. */
  function NumberedPacket(i: nat, stamp: u64, payload: nat): seq<byte> {
    CreatePacket(Header(0, i % 0x1_0000_0000, stamp), payload)
  }

  function NumberedPackets(stamps: seq<u64>, payload: nat): seq<seq<byte>> {
    seq(|stamps|, i requires 0 <= i < |stamps| => NumberedPacket(i, stamps[i], payload))
  }

  function Addressed(packets: seq<seq<byte>>, peer: nat): seq<Datagram> {
    seq(|packets|, i requires 0 <= i < |packets| => Datagram(packets[i], peer))
  }

  lemma NextPacket(stamps: seq<u64>, stamp: u64, payload: nat, peer: nat)
    ensures Addressed(NumberedPackets(stamps + [stamp], payload), peer)
         == Addressed(NumberedPackets(stamps, payload), peer)
              + [Datagram(NumberedPacket(|stamps|, stamp, payload), peer)]
  {
  }

  lemma {:induction false} UniformSize(datagrams: seq<Datagram>, each: nat)
    requires forall i :: 0 <= i < |datagrams| ==> |datagrams[i].payload| == each
    ensures Bytes(datagrams) == |datagrams| * each
  {
    if datagrams != [] {
      UniformSize(datagrams[..|datagrams| - 1], each);
    }
  }

  /** The most one send can carry. */
  function MaxBurst(payload: nat): nat {
    MAX_BATCH_SIZE * (HEADER_SIZE + payload)
  }

  /** What the wire and the batch hold together: every packet created so far, in order, for the peer. */
  ghost predicate InOrder(wire: seq<Datagram>, batch: seq<Datagram>, stamps: seq<u64>, payload: nat, peer: nat) {
    wire + batch == Addressed(NumberedPackets(stamps, payload), peer)
  }

  /** In particular every packet on the wire and in the batch has the same size. */
  lemma WireSize(wire: seq<Datagram>, batch: seq<Datagram>, stamps: seq<u64>, payload: nat, peer: nat)
    requires InOrder(wire, batch, stamps, payload, peer)
    ensures forall i :: 0 <= i < |wire| ==> |wire[i].payload| == HEADER_SIZE + payload
    ensures forall i :: 0 <= i < |batch| ==> |batch[i].payload| == HEADER_SIZE + payload
    ensures Bytes(wire) == |wire| * (HEADER_SIZE + payload)
  {
    forall i | 0 <= i < |wire| ensures |wire[i].payload| == HEADER_SIZE + payload {
      assert wire[i] == (wire + batch)[i];
    }
    forall i | 0 <= i < |batch| ensures |batch[i].payload| == HEADER_SIZE + payload {
      assert batch[i] == (wire + batch)[|wire| + i];
    }
    UniformSize(wire, HEADER_SIZE + payload);
  }

  /** The i-th packet on the wire is addressed to the peer and parses to stream 0, number i, its timestamp and zeros. */
  lemma OnTheWire(wire: seq<Datagram>, batch: seq<Datagram>, stamps: seq<u64>, payload: nat, peer: nat, i: nat)
    requires InOrder(wire, batch, stamps, payload, peer) && i < |wire|
    ensures i < |stamps| && wire[i].to == peer
    ensures ParsePacket(wire[i].payload)
         == Some((Header(0, i % 0x1_0000_0000, stamps[i]), seq(payload, _ => 0)))
  {
    assert wire[i] == (wire + batch)[i];
    ParseCreated(Header(0, i % 0x1_0000_0000, stamps[i]), payload);
  }
}

/** The sending loop itself. */
module BatchSender {
  import opened Base
  import opened BatchSenderSpec
  import opened BatchSocket
  import opened Clocks
  import opened CounterProtocol
  import opened IntervalAccounts
  import opened Intervals
  import opened Measurements
  import opened Reporter
  import opened TokenBucketSpec
  import opened TokenBuckets
  import opened UdpPacket

  /** Global counters after recording that many bytes and packets sent. */
  function SentTotals(bytes: nat, packets: nat): Counters {
    Counters(Wrap64(bytes), 0, Wrap64(packets))
  }

  /** So many bytes and packets sent stand in the totals and under stream 0, and nothing under any other stream. */
  ghost predicate SentRecorded(m: Snapshot, bytes: nat, packets: nat) {
    m.totals == SentTotals(bytes, packets) && OnlyChanged([], m.streams, 0, SentTotals(bytes, packets))
  }

  /** Totals and stream entries agree with the wire. */
  ghost predicate WireRecorded(collector: Measurements.Collector, wire: seq<Datagram>)
    reads collector
  {
    SentRecorded(collector.Recorded(), Bytes(wire), |wire|)
  }

  /** Records a successful send: the bytes once, then every packet. */
  method RecordSend(collector: Measurements.Collector, bytes: nat, packets: nat, ghost bytesBefore: nat,
                    ghost packetsBefore: nat)
    requires SentRecorded(collector.Recorded(), bytesBefore, packetsBefore)
    modifies collector`totals, collector`streams
    ensures SentRecorded(collector.Recorded(), bytesBefore + bytes, packetsBefore + packets)
  {
    FetchAddWraps(bytesBefore, bytes);
    collector.RecordBytesSent(0, bytes);
    for i := 0 to packets
      invariant SentRecorded(collector.Recorded(), bytesBefore + bytes, packetsBefore + i)
    {
      RecordPacket(collector, bytesBefore + bytes, packetsBefore + i);
    }
  }

  method RecordPacket(collector: Measurements.Collector, ghost bytes: nat, ghost before: nat)
    requires SentRecorded(collector.Recorded(), bytes, before)
    modifies collector`totals, collector`streams
    ensures SentRecorded(collector.Recorded(), bytes, before + 1)
  {
    FetchAddWraps(before, 1);
    collector.RecordUdpPacket(0);
  }

  /** The inner loop: packets are created until the batch has its size or the clock, checked before each
      packet, has run out after `creations` of them. */
  method FillBatch(batch: UdpSendBatch, batchSize: nat, payload: nat, socket: Socket, creations: nat, sequence: nat,
                   ghost stamps: seq<u64>)
    returns (sequence': nat, ghost stamps': seq<u64>)
    requires batch.Valid() && |batch.packets| <= batchSize <= MAX_BATCH_SIZE && sequence == |stamps|
    requires InOrder(socket.wire, batch.Contents(), stamps, payload, socket.peer)
    modifies batch
    ensures batch.Valid() && sequence' == |stamps'|
    ensures |batch.packets| == Min(batchSize, |old(batch.packets)| + creations)
    ensures sequence' - sequence == |batch.packets| - |old(batch.packets)|
    ensures InOrder(socket.wire, batch.Contents(), stamps', payload, socket.peer)
  {
    sequence', stamps' := sequence, stamps;
    var left := creations;
    while !batch.IsFull() && |batch.packets| < batchSize && left > 0
      invariant batch.Valid() && |batch.packets| <= batchSize && sequence' == |stamps'|
      invariant sequence' - sequence == |batch.packets| - |old(batch.packets)| == creations - left
      invariant InOrder(socket.wire, batch.Contents(), stamps', payload, socket.peer)
      decreases left
    {
      var stamp: u64 := *;
      NextPacket(stamps', stamp, payload, socket.peer);
      var added := batch.Add(NumberedPacket(sequence', stamp, payload), socket.peer);
      sequence', stamps' := sequence' + 1, stamps' + [stamp];
      left := left - 1;
    }
  }

  /** Sends what is in the batch and records what left. */
  method SendAndRecord(batch: UdpSendBatch, socket: Socket, collector: Measurements.Collector,
                       ghost stamps: seq<u64>, ghost payload: nat)
    returns (r: SendResult)
    requires batch.Valid() && WireRecorded(collector, socket.wire)
    requires InOrder(socket.wire, batch.Contents(), stamps, payload, socket.peer)
    modifies batch, socket, collector`totals, collector`streams
    ensures batch.Valid() && |batch.packets| <= |old(batch.packets)|
    ensures socket.calls == old(socket.calls) + if old(batch.packets) == [] then 0 else 1
    ensures InOrder(socket.wire, batch.Contents(), stamps, payload, socket.peer)
    ensures WireRecorded(collector, socket.wire)
    ensures if r.Failed? then socket.wire == old(socket.wire)
            else
              && Extends(old(socket.wire), socket.wire, r.bytes)
              && |socket.wire| == |old(socket.wire)| + r.packets && r.bytes <= MaxBurst(payload)
  {
    ghost var wire, contents := socket.wire, batch.Contents();
    r := batch.Send(socket);
    if r.Sent? {
      PrefixLeft(wire, contents, r.packets, stamps, payload, socket.peer);
      RecordSend(collector, r.bytes, r.packets, Bytes(wire), |wire|);
    }
  }

  /** The loop's own variables, and what they leave behind: packet timestamps, `consume` calls and successful sends. */
  datatype Progress = Progress(sequence: nat, books: Books)
  datatype Trace = Trace(stamps: seq<u64>, ops: seq<Op>, sends: seq<Turn>)

  /** How time passes in one round: packets that can be created before it runs out, and whether an
      interval is due after the send. */
  datatype Tick = Tick(creations: nat, intervalDue: bool)

  /** The loop's variables after a send. */
  function AfterSend(p: Progress, sent: SendResult, intervalDue: bool): Progress {
    match sent
    case Failed => p
    case Sent(bytes, packets) => p.(books := Enter(p.books, bytes, packets, intervalDue))
  }

  /** What a run is set up with. */
  datatype Plan = Plan(bytesPerSec: Option<nat>, payload: nat, batchSize: nat)

  /** Holds between any two rounds. */
  ghost predicate Underway(plan: Plan, batch: UdpSendBatch, socket: Socket, collector: Measurements.Collector,
                           reporter: IntervalReporter, p: Progress, t: Trace)
    reads batch, socket, collector, reporter
  {
    && batch.Valid() && |batch.packets| <= plan.batchSize && 1 <= plan.batchSize <= MAX_BATCH_SIZE
    && p.sequence == |t.stamps|
    && InOrder(socket.wire, batch.Contents(), t.stamps, plan.payload, socket.peer)
    && WireRecorded(collector, socket.wire) && Logged(socket.wire, t.sends) && p.books == Booked(t.sends)
    && collector.intervals == PushAll(p.books.cut) && reporter.queue == Reports(p.books.cut)
  }

  /** The first `k` sends put the first packets on the wire, as many as they say and as long. */
  ghost predicate LoggedUpTo(wire: seq<Datagram>, sends: seq<Turn>, k: nat)
    requires k <= |sends|
  {
    var sum := Total(sends[..k]);
    sum.packets <= |wire| && sum.bytes == Bytes(wire[..sum.packets])
  }

  /** The wire is what the sends put there, one after the other. */
  ghost predicate Logged(wire: seq<Datagram>, sends: seq<Turn>) {
    && Total(sends) == Interval(Bytes(wire), |wire|)
    && forall k :: 0 <= k <= |sends| ==> LoggedUpTo(wire, sends, k)
  }

  /** One send later, `bytes` more are on the wire. */
  ghost predicate Extends(wire0: seq<Datagram>, wire: seq<Datagram>, bytes: nat) {
    wire0 <= wire && Bytes(wire) == Bytes(wire0) + bytes
  }

  lemma LogNext(wire0: seq<Datagram>, wire: seq<Datagram>, sends: seq<Turn>, sent: Turn)
    requires Logged(wire0, sends) && Extends(wire0, wire, sent.bytes) && |wire| == |wire0| + sent.packets
    ensures Logged(wire, sends + [sent])
  {
    var sends' := sends + [sent];
    assert sends'[..|sends|] == sends && sends'[..|sends'|] == sends' && wire[..|wire|] == wire;
    forall k | 0 <= k <= |sends'| ensures LoggedUpTo(wire, sends', k) {
      if k <= |sends| {
        StillLogged(wire0, wire, sends, sends', k);
      }
    }
  }

  lemma StillLogged(wire0: seq<Datagram>, wire: seq<Datagram>, sends: seq<Turn>, sends': seq<Turn>, k: nat)
    requires wire0 <= wire && sends <= sends' && k <= |sends| && LoggedUpTo(wire0, sends, k)
    ensures LoggedUpTo(wire, sends', k)
  {
    assert sends'[..k] == sends[..k];
    assert wire[..Total(sends[..k]).packets] == wire0[..Total(sends[..k]).packets];
  }

  /** Which interval a send belongs to: right after a send with the interval over, the closed intervals hold exactly
      what is on the wire, and nothing is open; after any other send, no interval has been closed. */
  lemma EverySendBooked(wire: seq<Datagram>, sends: seq<Turn>, k: nat)
    requires Logged(wire, sends) && k < |sends|
    ensures var before, after := Booked(sends[..k]), Booked(sends[..k + 1]);
            var packets := Total(sends[..k + 1]).packets;
            && packets <= |wire|
            && (sends[k].due ==>
                  after.open == Interval(0, 0) && Accumulated(after.cut) == Interval(Bytes(wire[..packets]), packets))
            && (sends[k].due ==> |after.cut| == |before.cut| + 1 && after.cut[..|before.cut|] == before.cut)
            && (!sends[k].due ==> after.cut == before.cut)
  {
    assert LoggedUpTo(wire, sends, k + 1);
    EveryTurnBooked(sends, k);
  }

  /** One `consume` call for each send, for as many bytes. */
  ghost predicate Paid(ops: seq<Op>, sends: seq<Turn>) {
    |ops| == |sends| && forall k :: 0 <= k < |ops| ==> ops[k].Consume? && ops[k].bytes == sends[k].bytes
  }

  lemma {:induction false} PaidInFull(ops: seq<Op>, sends: seq<Turn>)
    requires Paid(ops, sends)
    ensures Consumed(ops) == Total(sends).bytes
  {
    if ops != [] {
      var n := |ops| - 1;
      PaidInFull(ops[..n], sends[..n]);
      assert ops == ops[..n] + [ops[n]];
      ConsumedSnoc(ops[..n], ops[n]);
    }
  }

  /** The bucket has paid for every send. */
  ghost predicate Paced(plan: Plan, start: World, bucket: TokenBucket?, clock: Clock, ops: seq<Op>, sends: seq<Turn>)
    reads bucket, clock
  {
    && (bucket != null <==> plan.bytesPerSec.Some?)
    && (bucket != null ==>
          && bucket.clock == clock
          && Earned(start, bucket.World(), ops, Limits(MaxBurst(plan.payload), clock.maxPause))
          && Paid(ops, sends))
  }

  /** The bucket is where `consume` calls within the limits have brought it. */
  ghost predicate Earned(start: World, now: World, ops: seq<Op>, lim: Limits) {
    Timely(start) && now == After(start, ops) && WithinLimits(ops, lim)
  }

  lemma EarnNext(start: World, now: World, ops: seq<Op>, lim: Limits, op: Op)
    requires Earned(start, now, ops, lim) && op.Consume? && OpAllowed(op, lim)
    ensures Timely(now) && Earned(start, TokenBucketSpec.Step(now, op), ops + [op], lim)
  {
    RunSnoc(start, ops, op);
    assert (ops + [op])[..|ops|] == ops;
  }

  /** Consume calls only, within limits. */
  ghost predicate WithinLimits(ops: seq<Op>, lim: Limits) {
    ops != [] ==>
      var last := ops[|ops| - 1];
      WithinLimits(ops[..|ops| - 1], lim) && last.Consume? && OpAllowed(last, lim)
  }

  lemma {:induction false} PaymentsAllowed(ops: seq<Op>, lim: Limits)
    requires WithinLimits(ops, lim)
    ensures Allowed(ops, lim) && ConsumesOnly(ops)
  {
    if ops != [] {
      PaymentsAllowed(ops[..|ops| - 1], lim);
      assert ops == ops[..|ops| - 1] + [ops[|ops| - 1]];
    }
  }

  /** Consumes what was just sent. */
  method Pace(plan: Plan, bucket: TokenBucket, bytes: nat, ghost start: World, ghost ops: seq<Op>,
              ghost sends: seq<Turn>, ghost sent: Turn)
    returns (ghost ops': seq<Op>)
    requires Paced(plan, start, bucket, bucket.clock, ops, sends)
    requires sent.bytes == bytes <= MaxBurst(plan.payload)
    modifies bucket, bucket.clock
    ensures Paced(plan, start, bucket, bucket.clock, ops', sends + [sent])
  {
    ghost var before := bucket.World();
    ghost var op := bucket.Consume(bytes);
    EarnNext(start, before, ops, Limits(MaxBurst(plan.payload), bucket.clock.maxPause), op);
    ops' := ops + [op];
  }

  /** What follows a successful send: pay for it, and close the interval when due. */
  method Settle(plan: Plan, bytes: nat, packets: nat, intervalDue: bool, clock: Clock, bucket: TokenBucket?,
                collector: Measurements.Collector, reporter: IntervalReporter, p: Progress, ghost start: World,
                ghost wire0: seq<Datagram>, ghost wire: seq<Datagram>, ghost t: Trace)
    returns (p': Progress, ghost t': Trace)
    requires Paced(plan, start, bucket, clock, t.ops, t.sends)
    requires Logged(wire0, t.sends) && p.books == Booked(t.sends)
    requires collector.intervals == PushAll(p.books.cut) && reporter.queue == Reports(p.books.cut)
    requires Extends(wire0, wire, bytes) && |wire| == |wire0| + packets && bytes <= MaxBurst(plan.payload)
    modifies clock, bucket, collector`intervals, reporter
    ensures p' == AfterSend(p, SendResult.Sent(bytes, packets), intervalDue)
    ensures t' == t.(ops := t'.ops, sends := t.sends + [Turn(bytes, packets, intervalDue)])
    ensures Paced(plan, start, bucket, clock, t'.ops, t'.sends)
    ensures Logged(wire, t'.sends) && p'.books == Booked(t'.sends)
    ensures collector.intervals == PushAll(p'.books.cut) && reporter.queue == Reports(p'.books.cut)
  {
    ghost var sent := Turn(bytes, packets, intervalDue);
    t' := t.(sends := t.sends + [sent]);
    if bucket != null {
      ghost var ops := Pace(plan, bucket, bytes, start, t.ops, t.sends, sent);
      t' := t'.(ops := ops);
    }
    LogNext(wire0, wire, t.sends, sent);
    assert t'.sends[..|t.sends|] == t.sends;
    NoHistory(p.books.cut);
    var books := EnterBooks(collector, reporter, [], p.books, bytes, packets, intervalDue);
    NoHistory(books.cut);
    p' := p.(books := books);
  }

  lemma NoHistory(cut: seq<Interval>)
    ensures [] + cut == cut
  {
  }

  /** The sends of a run, after one more attempt. */
  function Sends(before: seq<Turn>, sent: SendResult, intervalDue: bool): seq<Turn> {
    match sent
    case Failed => before
    case Sent(bytes, packets) => before + [Turn(bytes, packets, intervalDue)]
  }

  /** The part of a round that sends. */
  method Transmit(plan: Plan, intervalDue: bool, batch: UdpSendBatch, socket: Socket, clock: Clock,
                  bucket: TokenBucket?, collector: Measurements.Collector, reporter: IntervalReporter,
                  p: Progress, ghost t: Trace, ghost start: World)
    returns (result: SendResult, p': Progress, ghost t': Trace)
    requires Underway(plan, batch, socket, collector, reporter, p, t) && batch.packets != []
    requires Paced(plan, start, bucket, clock, t.ops, t.sends)
    modifies batch, socket, clock, bucket, collector`totals, collector`streams, collector`intervals, reporter
    ensures Underway(plan, batch, socket, collector, reporter, p', t')
    ensures Paced(plan, start, bucket, clock, t'.ops, t'.sends)
    ensures t'.sends == Sends(t.sends, result, intervalDue)
    ensures socket.calls == old(socket.calls) + 1
    ensures |socket.wire| == |old(socket.wire)| + (if result.Sent? then result.packets else 0)
    ensures p' == AfterSend(p, result, intervalDue)
  {
    ghost var wire := socket.wire;
    p', t' := p, t;
    result := SendAndRecord(batch, socket, collector, t.stamps, plan.payload);
    if result.Sent? {
      p', t' := Settle(plan, result.bytes, result.packets, intervalDue, clock, bucket, collector, reporter, p,
                       start, wire, socket.wire, t);
    }
  }

  /** One round: fill, send if there is anything to send, record, pace, and close the interval when due.
      The round ends the loop on a send error. */
  method Round(plan: Plan, tick: Tick, batch: UdpSendBatch, socket: Socket, clock: Clock, bucket: TokenBucket?,
               collector: Measurements.Collector, reporter: IntervalReporter, p: Progress, ghost t: Trace,
               ghost start: World)
    returns (sent: Option<SendResult>, p': Progress, ghost t': Trace)
    requires Underway(plan, batch, socket, collector, reporter, p, t)
    requires Paced(plan, start, bucket, clock, t.ops, t.sends)
    modifies batch, socket, clock, bucket, collector`totals, collector`streams, collector`intervals, reporter
    ensures Underway(plan, batch, socket, collector, reporter, p', t')
    ensures Paced(plan, start, bucket, clock, t'.ops, t'.sends)
    ensures t'.sends == if sent.Some? then Sends(t.sends, sent.value, tick.intervalDue) else t.sends
    ensures var filled := Min(plan.batchSize, |old(batch.packets)| + tick.creations);
            var created := p.(sequence := p.sequence + filled - |old(batch.packets)|);
            && (sent == None <==> filled == 0)
            && socket.calls == old(socket.calls) + (if filled == 0 then 0 else 1)
            && |socket.wire| == |old(socket.wire)| + (if sent.Some? && sent.value.Sent? then sent.value.packets else 0)
            && p' == (if sent.Some? then AfterSend(created, sent.value, tick.intervalDue) else created)
  {
    ghost var stamps := t.stamps;
    var sequence := p.sequence;
    sequence, stamps := FillBatch(batch, plan.batchSize, plan.payload, socket, tick.creations, sequence, stamps);
    sent, p', t' := None, p.(sequence := sequence), t.(stamps := stamps);
    if batch.packets != [] {
      var result: SendResult;
      result, p', t' :=
        Transmit(plan, tick.intervalDue, batch, socket, clock, bucket, collector, reporter, p', t', start);
      sent := Some(result);
    }
  }

  /** What it means that the first `n` datagrams of a batch have left. */
  lemma PrefixLeft(wire: seq<Datagram>, contents: seq<Datagram>, n: nat, stamps: seq<u64>, payload: nat, peer: nat)
    requires InOrder(wire, contents, stamps, payload, peer) && n <= |contents| <= MAX_BATCH_SIZE
    ensures InOrder(wire + contents[..n], contents[n..], stamps, payload, peer)
    ensures Extends(wire, wire + contents[..n], Bytes(contents[..n])) && Bytes(contents[..n]) <= MaxBurst(payload)
  {
    assert wire + contents[..n] + contents[n..] == wire + contents;
    BurstSize(wire, contents, n, stamps, payload, peer);
    BytesConcat(wire, contents[..n]);
  }

  lemma BurstSize(wire: seq<Datagram>, contents: seq<Datagram>, n: nat, stamps: seq<u64>, payload: nat, peer: nat)
    requires InOrder(wire, contents, stamps, payload, peer) && n <= |contents| <= MAX_BATCH_SIZE
    ensures Bytes(contents[..n]) <= MaxBurst(payload)
  {
    WireSize(wire, contents, stamps, payload, peer);
    UniformSize(contents[..n], HEADER_SIZE + payload);
    TokenBucketSpec.MulLe(n, MAX_BATCH_SIZE, HEADER_SIZE + payload);
  }

  lemma Opening(payload: nat, peer: nat, start: World)
    requires Timely(start)
    ensures InOrder([], [], [], payload, peer) && SentRecorded(Snapshot(ZERO, []), Bytes([]), 0)
    ensures Logged([], []) && Booked([]) == Books([], Interval(0, 0)) && Reports([]) == [] && PushAll([]) == []
    ensures After(start, []) == start && Paid([], [])
  {
    var none: seq<Datagram> := [];
    assert Bytes(none) == 0 && none[..0] == none;
  }

  /** Every round has time to create a packet. */
  ghost predicate Busy(ticks: seq<Tick>) {
    forall i :: 0 <= i < |ticks| ==> ticks[i].creations > 0
  }

  /** One send for each round, with the interval over when the round found it over. */
  ghost predicate OnePerRound(sends: seq<Turn>, ticks: seq<Tick>) {
    |sends| == |ticks| && forall i :: 0 <= i < |ticks| ==> sends[i].due == ticks[i].intervalDue
  }

  lemma OneMoreRound(before: seq<Turn>, last: Turn, ticks: seq<Tick>, i: nat)
    requires i < |ticks| && OnePerRound(before, ticks[..i]) && last.due == ticks[i].intervalDue
    ensures OnePerRound(before + [last], ticks[..i + 1])
  {
  }

  /** After `i` rounds none of which failed. */
  ghost predicate Rounds(ticks: seq<Tick>, i: nat, calls: nat, sends: seq<Turn>)
    requires i <= |ticks|
  {
    calls == |sends| && (Busy(ticks) ==> OnePerRound(sends, ticks[..i]))
  }

  /** One round more; `failed` when it ends the loop. */
  method NextRound(plan: Plan, ticks: seq<Tick>, i: nat, batch: UdpSendBatch, socket: Socket, clock: Clock,
                   bucket: TokenBucket?, collector: Measurements.Collector, reporter: IntervalReporter, p: Progress,
                   ghost t: Trace, ghost start: World)
    returns (failed: bool, p': Progress, ghost t': Trace)
    requires i < |ticks| && Rounds(ticks, i, socket.calls, t.sends)
    requires Underway(plan, batch, socket, collector, reporter, p, t)
    requires Paced(plan, start, bucket, clock, t.ops, t.sends)
    modifies batch, socket, clock, bucket, collector`totals, collector`streams, collector`intervals, reporter
    ensures Underway(plan, batch, socket, collector, reporter, p', t')
    ensures Paced(plan, start, bucket, clock, t'.ops, t'.sends)
    ensures if failed then socket.calls == |t'.sends| + 1 else Rounds(ticks, i + 1, socket.calls, t'.sends)
  {
    var sent: Option<SendResult>;
    sent, p', t' := Round(plan, ticks[i], batch, socket, clock, bucket, collector, reporter, p, t, start);
    failed := sent == Some(Failed);
    if sent.Some? && sent.value.Sent? && Busy(ticks) {
      OneMoreRound(t.sends, Turn(sent.value.bytes, sent.value.packets, ticks[i].intervalDue), ticks, i);
    }
  }

  method SendLoop(plan: Plan, ticks: seq<Tick>, batch: UdpSendBatch, socket: Socket, clock: Clock,
                  bucket: TokenBucket?, collector: Measurements.Collector, reporter: IntervalReporter,
                  p0: Progress, ghost t0: Trace, ghost start: World)
    returns (failed: bool, p: Progress, ghost t: Trace)
    requires Underway(plan, batch, socket, collector, reporter, p0, t0) && t0.sends == [] && socket.calls == 0
    requires Paced(plan, start, bucket, clock, t0.ops, t0.sends)
    modifies batch, socket, clock, bucket, collector`totals, collector`streams, collector`intervals, reporter
    ensures Underway(plan, batch, socket, collector, reporter, p, t)
    ensures Paced(plan, start, bucket, clock, t.ops, t.sends)
    ensures socket.calls == |t.sends| + if failed then 1 else 0
    ensures !failed && Busy(ticks) ==> OnePerRound(t.sends, ticks)
  {
    failed, p, t := false, p0, t0;
    for i := 0 to |ticks|
      invariant Underway(plan, batch, socket, collector, reporter, p, t)
      invariant Paced(plan, start, bucket, clock, t.ops, t.sends)
      invariant !failed && Rounds(ticks, i, socket.calls, t.sends)
    {
      failed, p, t := NextRound(plan, ticks, i, batch, socket, clock, bucket, collector, reporter, p, t, start);
      if failed {
        break;
      }
    }
    assert ticks[..|ticks|] == ticks;
  }

  /**
    The loop, for any timing of any number of rounds and any partial sends. It stops early only when a send
    fails or, which is the same as a shorter `ticks`, on cancellation.

    The wire and the unsent rest of the batch together always hold exactly the packets created so far, in
    order: packet i carries number i, and all go to the peer. Every counter and interval agrees with the
    wire. With a bandwidth limit, every send that did not fail is followed by one `consume` call for as many bytes.
   */
  method RunUdpSendBatched(bufferSize: nat, bytesPerSec: Option<nat>, ticks: seq<Tick>, socket: Socket, clock: Clock,
                           collector: Measurements.Collector, reporter: IntervalReporter)
    returns (failed: bool, p: Progress, unsent: seq<Datagram>, ghost t: Trace)
    requires socket.wire == [] && socket.calls == 0 && reporter.queue == []
    requires collector.Recorded() == Snapshot(ZERO, []) && collector.intervals == []
    modifies socket, clock, collector`totals, collector`streams, collector`intervals, reporter
    ensures p.sequence == |t.stamps|
    ensures InOrder(socket.wire, unsent, t.stamps, PayloadSize(bufferSize), socket.peer)
    ensures var size := if bufferSize > 20 then bufferSize else 1044;
            && (forall i :: 0 <= i < |socket.wire| ==> |socket.wire[i].payload| == size)
            && (forall i :: 0 <= i < |unsent| ==> |unsent[i].payload| == size)
            && Bytes(socket.wire) == |socket.wire| * size
            && (bytesPerSec.Some? ==> Allowed(t.ops, Limits(64 * size, clock.maxPause)))
    ensures |unsent| <= AdaptiveBatchSize(bytesPerSec, PayloadSize(bufferSize))
    ensures socket.calls == |t.sends| + if failed then 1 else 0
    ensures !failed && Busy(ticks) ==> OnePerRound(t.sends, ticks)
    ensures collector.totals == Counters(Bytes(socket.wire) % U64, 0, |socket.wire| % U64)
    ensures OnlyChanged([], collector.streams, 0, collector.totals)
    ensures Logged(socket.wire, t.sends) && p.books == Booked(t.sends)
    ensures IntervalsCover(p.books, Bytes(socket.wire), |socket.wire|)
    ensures collector.intervals == LastN(p.books.cut, MAX_INTERVALS)
    ensures reporter.queue == Reports(p.books.cut) + [Complete]
    ensures bytesPerSec.Some? ==>
      && Paid(t.ops, t.sends)
      && clock.now == After(TokenBucketSpec.Begin(bytesPerSec.value, old(clock.now)), t.ops).now
  {
    var payload := PayloadSize(bufferSize);
    var plan := Plan(bytesPerSec, payload, AdaptiveBatchSize(bytesPerSec, payload));
    ghost var start := TokenBucketSpec.Begin(if bytesPerSec.Some? then bytesPerSec.value else 0, clock.now);
    var bucket: TokenBucket? := null;
    if bytesPerSec.Some? {
      bucket := new TokenBucket(bytesPerSec.value, clock);
    }
    var batch := new UdpSendBatch();
    p, t := Progress(0, Books([], Interval(0, 0))), Trace([], [], []);
    Opening(payload, socket.peer, start);
    assert Underway(plan, batch, socket, collector, reporter, p, t);
    assert Paced(plan, start, bucket, clock, t.ops, t.sends);
    failed, p, t := SendLoop(plan, ticks, batch, socket, clock, bucket, collector, reporter, p, t, start);
    if bucket != null {
      PaymentsAllowed(t.ops, Limits(MaxBurst(payload), clock.maxPause));
    }
    unsent := batch.Contents();
    reporter.Finish();
    KeepsTheLast(p.books.cut);
    Wrap64IsModulo(Bytes(socket.wire));
    Wrap64IsModulo(|socket.wire|);
    BookedCovers(t.sends);
    PacketSize(bufferSize);
    WireSize(socket.wire, unsent, t.stamps, payload, socket.peer);
  }

  /** The first `packets` packets of the wire are ahead of the rate since `start` by at most `burst` bytes, when
      the calls `ops` have been made. */
  predicate WireWithinRate(wire: seq<Datagram>, packets: nat, bps: nat, start: nat, ops: seq<Op>, burst: int)
    requires packets <= |wire|
  {
    WithinRate(Bytes(wire[..packets]), burst, bps, Reached(bps, start, ops).now - start)
  }

  /** What that means for the rate: at the end of the run; and right after its k-th send, with all before that send
      paid for and what it put on the wire not yet. */
  lemma RateOfRun(bps: nat, start: nat, wire: seq<Datagram>, ops: seq<Op>, sends: seq<Turn>, lim: Limits, k: nat)
    requires RateInRange(bps) && Suits(lim, bps) && Allowed(ops, lim)
    requires Logged(wire, sends) && Paid(ops, sends)
    ensures WireWithinRate(wire, |wire|, bps, start, ops, Capacity(bps) + Debt(lim.maxRequest))
    ensures k < |sends| ==>
              var packets := Total(sends[..k + 1]).packets;
              && packets <= |wire|
              && WireWithinRate(wire, packets, bps, start, ops[..k],
                                Capacity(bps) + Debt(lim.maxRequest) + lim.maxRequest)
  {
    FullBucketConforms(bps, start, ops, lim);
    PaidInFull(ops, sends);
    assert wire[..|wire|] == wire;
    if k < |sends| {
      assert LoggedUpTo(wire, sends, k + 1);
      SendThenConsumeConforms(bps, start, ops, k, lim);
      PaidInFull(ops[..k + 1], sends[..k + 1]);
    }
  }
}
