/**
  Sender, network and receiver together: what the receiver reports about packets it never saw.

  The network drops and reorders at will, and may deliver datagrams from elsewhere that do not parse.
 */
module EndToEnd {
  import opened Base
  import opened BatchSenderSpec
  import opened BatchSocket
  import opened CounterProtocol
  import opened IntervalAccounts
  import opened Intervals
  import opened Loss
  import opened Measurements
  import opened Reporter
  import opened UdpPacket
  import opened UdpState

  /** A datagram and its receive time. */
  datatype Inbound = Inbound(payload: seq<byte>, recvUs: nat)

  datatype Delivery = Genuine(index: nat, recvUs: nat) | Stray(payload: seq<byte>, recvUs: nat)

  /** What one datagram tells the receiver, if it parses. */
  function ArrivalOf(d: Inbound): Option<Arrival> {
    match ParsePacket(d.payload)
    case None => None
    case Some((h, _)) => Some(Arrival(h.sequence, h.timestampUs, d.recvUs))
  }

  /** What the receiver records: parsed headers with their receive times; anything else is skipped. */
  function Parsed(input: seq<Inbound>): seq<Arrival> {
    if input == [] then []
    else
      var front := Parsed(input[..|input| - 1]);
      match ArrivalOf(input[|input| - 1])
      case None => front
      case Some(a) => front + [a]
  }

  /** The two receiving loops: `run_udp_receive` (src/client.rs) counts every datagram, `receive_udp_data`
      (src/server.rs) only those that parse. */
  datatype Role = Client | Server

  predicate Counts(role: Role, d: Inbound) {
    role.Client? || ParsePacket(d.payload).Some?
  }

  function BytesCounted(role: Role, d: Inbound): nat {
    if Counts(role, d) then |d.payload| else 0
  }

  function PacketsCounted(role: Role, d: Inbound): nat {
    if Counts(role, d) then 1 else 0
  }

  /** Bytes and packets a loop has counted. */
  function Tally(role: Role, input: seq<Inbound>): Interval {
    if input == [] then Interval(0, 0)
    else
      var sum, last := Tally(role, input[..|input| - 1]), input[|input| - 1];
      Interval(sum.bytes + BytesCounted(role, last), sum.packets + PacketsCounted(role, last))
  }

  /** The turns of a receiving loop; `due(i)` says whether the interval is over after the i-th datagram. */
  function TurnsOf(role: Role, input: seq<Inbound>, due: nat -> bool): seq<Turn> {
    seq(|input|, i requires 0 <= i < |input| =>
      Turn(BytesCounted(role, input[i]), PacketsCounted(role, input[i]), due(i)))
  }

  lemma TurnsFront(role: Role, input: seq<Inbound>, n: nat, due: nat -> bool)
    requires n <= |input|
    ensures TurnsOf(role, input, due)[..n] == TurnsOf(role, input[..n], due)
  {
  }

  lemma {:induction false} TallyIsTotal(role: Role, input: seq<Inbound>, due: nat -> bool)
    ensures Total(TurnsOf(role, input, due)) == Tally(role, input)
  {
    if input != [] {
      TallyIsTotal(role, input[..|input| - 1], due);
      TurnsFront(role, input, |input| - 1, due);
    }
  }

  /** Which interval a datagram belongs to, in every run of either receiver. */
  lemma EveryDatagramBooked(role: Role, input: seq<Inbound>, due: nat -> bool, n: nat)
    requires n < |input|
    ensures var before, after := Booked(TurnsOf(role, input[..n], due)), Booked(TurnsOf(role, input[..n + 1], due));
            && (due(n) ==> after.open == Interval(0, 0) && Accumulated(after.cut) == Tally(role, input[..n + 1]))
            && (due(n) ==> |after.cut| == |before.cut| + 1 && after.cut[..|before.cut|] == before.cut)
            && (!due(n) ==> after.cut == before.cut)
  {
    EveryTurnBooked(TurnsOf(role, input, due), n);
    TurnsFront(role, input, n, due);
    TurnsFront(role, input, n + 1, due);
    TallyIsTotal(role, input[..n + 1], due);
  }

  /** Closed and open intervals together cover exactly what was counted. */
  lemma BooksCoverTally(role: Role, input: seq<Inbound>, due: nat -> bool)
    ensures IntervalsCover(Booked(TurnsOf(role, input, due)), Tally(role, input).bytes, Tally(role, input).packets)
  {
    BookedCovers(TurnsOf(role, input, due));
    TallyIsTotal(role, input, due);
  }

  function Plus(c: Counters, bytes: nat): Counters {
    c.(received := FetchAdd(c.received, bytes))
  }

  /** Counters after all datagrams of some input. */
  function CountersAfter(c: Counters, role: Role, input: seq<Inbound>): Counters {
    if input == [] then c
    else Plus(CountersAfter(c, role, input[..|input| - 1]), BytesCounted(role, input[|input| - 1]))
  }

  /** They have grown by the bytes counted. */
  lemma {:induction false} CountersGrow(c: Counters, role: Role, input: seq<Inbound>)
    ensures CountersAfter(c, role, input) == Plus(c, Tally(role, input).bytes)
  {
    if input != [] {
      var front, last := input[..|input| - 1], BytesCounted(role, input[|input| - 1]);
      CountersGrow(c, role, front);
      FetchAddTwice(c.received, Tally(role, front).bytes, last);
    }
  }

  /** Total and entry of stream 0 have become these, and no other entry has changed. */
  ghost predicate Became(before: Snapshot, after: Snapshot, totals: Counters, entry: Counters) {
    after.totals == totals && OnlyChanged(before.streams, after.streams, 0, entry)
  }

  /** What a receiver leaves behind in its collector, which may have served earlier tests, with `earlier` arrivals
      and counters `before`. */
  ghost predicate Received(role: Role, collector: Measurements.Collector, earlier: seq<Arrival>, before: Snapshot,
                           input: seq<Inbound>)
    reads collector
  {
    StateAfter(collector, earlier, input) && CountedAfter(role, before, collector.Recorded(), input)
  }

  ghost predicate StateAfter(collector: Measurements.Collector, earlier: seq<Arrival>, input: seq<Inbound>)
    reads collector
  {
    collector.udp == UdpState.Run(earlier + Parsed(input)) && collector.InSync()
  }

  ghost predicate CountedAfter(role: Role, before: Snapshot, after: Snapshot, input: seq<Inbound>) {
    Became(before, after, CountersAfter(before.totals, role, input),
           CountersAfter(Shown(before.streams, 0), role, input))
  }

  /** The packet state after one datagram more. */
  function StateNext(udp: UdpPacketState, d: Inbound): UdpPacketState {
    match ArrivalOf(d) case None => udp case Some(a) => UdpState.Record(udp, a)
  }

  lemma StateSnoc(earlier: seq<Arrival>, input: seq<Inbound>, i: nat)
    requires i < |input|
    ensures var before := UdpState.Run(earlier + Parsed(input[..i]));
            UdpState.Run(earlier + Parsed(input[..i + 1])) == StateNext(before, input[i])
  {
    var front, d := input[..i], input[i];
    assert input[..i + 1][..i] == front;
    if ArrivalOf(d).Some? {
      assert earlier + (Parsed(front) + [ArrivalOf(d).value]) == (earlier + Parsed(front)) + [ArrivalOf(d).value];
      RunSnoc(earlier + Parsed(front), ArrivalOf(d).value);
    }
  }

  /** One datagram has been counted. */
  ghost predicate CountedOnce(role: Role, before: Snapshot, after: Snapshot, d: Inbound) {
    Became(before, after, Plus(before.totals, BytesCounted(role, d)),
           Plus(Shown(before.streams, 0), BytesCounted(role, d)))
  }

  lemma CountedNext(role: Role, before: Snapshot, mid: Snapshot, after: Snapshot, input: seq<Inbound>, i: nat)
    requires i < |input| && CountedAfter(role, before, mid, input[..i]) && CountedOnce(role, mid, after, input[i])
    ensures CountedAfter(role, before, after, input[..i + 1])
  {
    assert input[..i + 1][..i] == input[..i];
  }

  lemma BookedSnoc(role: Role, input: seq<Inbound>, i: nat, due: nat -> bool)
    requires i < |input|
    ensures Booked(TurnsOf(role, input[..i + 1], due))
         == Enter(Booked(TurnsOf(role, input[..i], due)),
                  BytesCounted(role, input[i]), PacketsCounted(role, input[i]), due(i))
  {
    assert input[..i + 1][..i] == input[..i];
    TurnsFront(role, input[..i + 1], i, due);
  }

  lemma RunSnoc(arrivals: seq<Arrival>, a: Arrival)
    ensures UdpState.Run(arrivals + [a]) == UdpState.Record(UdpState.Run(arrivals), a)
  {
    assert (arrivals + [a])[..|arrivals|] == arrivals;
  }

  /** Records the header of a datagram that parses. */
  method RecordHeader(collector: Measurements.Collector, datagram: Inbound)
    requires collector.InSync()
    modifies collector`udp, collector`outOfOrderPackets, collector`jitterMs
    ensures collector.InSync() && collector.udp == StateNext(old(collector.udp), datagram)
  {
    match ParsePacket(datagram.payload)
    case None =>
    case Some((h, payload)) =>
      collector.RecordUdpPacketReceived(h.sequence, h.timestampUs, datagram.recvUs);
  }

  /** The client records the header of what parses, and counts every datagram. */
  method OnDatagramAtClient(collector: Measurements.Collector, reporter: IntervalReporter, datagram: Inbound,
         intervalDue: bool, b: Books, ghost history: seq<Interval>)
    returns (b': Books)
    requires collector.InSync() && collector.intervals == PushAll(history + b.cut) && reporter.queue == Reports(b.cut)
    modifies collector`totals, collector`streams, collector`udp, collector`outOfOrderPackets, collector`jitterMs,
             collector`intervals, reporter
    ensures collector.InSync() && collector.udp == StateNext(old(collector.udp), datagram)
    ensures CountedOnce(Client, old(collector.Recorded()), collector.Recorded(), datagram)
    ensures b' == Enter(b, BytesCounted(Client, datagram), PacketsCounted(Client, datagram), intervalDue)
    ensures collector.intervals == PushAll(history + b'.cut) && reporter.queue == Reports(b'.cut)
  {
    RecordHeader(collector, datagram);
    collector.RecordBytesReceived(0, |datagram.payload|);
    b' := EnterBooks(collector, reporter, history, b, |datagram.payload|, 1, intervalDue);
  }

  /** The client's receive loop. */
  method RunUdpReceive(collector: Measurements.Collector, reporter: IntervalReporter, input: seq<Inbound>,
         due: nat -> bool, ghost earlier: seq<Arrival>, ghost history: seq<Interval>)
    returns (books: Books)
    requires collector.udp == UdpState.Run(earlier) && collector.InSync()
    requires collector.intervals == PushAll(history) && reporter.queue == []
    modifies collector`totals, collector`streams, collector`udp, collector`outOfOrderPackets, collector`jitterMs,
             collector`intervals, reporter
    ensures Received(Client, collector, earlier, old(collector.Recorded()), input)
    ensures books == Booked(TurnsOf(Client, input, due))
    ensures collector.intervals == PushAll(history + books.cut) && reporter.queue == Reports(books.cut) + [Complete]
  {
    books := Books([], Interval(0, 0));
    assert earlier + [] == earlier && history + [] == history;
    for i := 0 to |input|
      invariant Received(Client, collector, earlier, old(collector.Recorded()), input[..i])
      invariant books == Booked(TurnsOf(Client, input[..i], due))
      invariant collector.intervals == PushAll(history + books.cut) && reporter.queue == Reports(books.cut)
    {
      ghost var mid := collector.Recorded();
      books := OnDatagramAtClient(collector, reporter, input[i], due(i), books, history);
      StateSnoc(earlier, input, i);
      CountedNext(Client, old(collector.Recorded()), mid, collector.Recorded(), input, i);
      BookedSnoc(Client, input, i, due);
    }
    assert input[..|input|] == input;
    reporter.Finish();
  }

  /** The server neither records nor counts what does not parse. */
  method RecordParsed(collector: Measurements.Collector, datagram: Inbound) returns (bytes: nat, packets: nat)
    requires collector.InSync()
    modifies collector`totals, collector`streams, collector`udp, collector`outOfOrderPackets, collector`jitterMs
    ensures collector.InSync() && collector.udp == StateNext(old(collector.udp), datagram)
    ensures CountedOnce(Server, old(collector.Recorded()), collector.Recorded(), datagram)
    ensures bytes == BytesCounted(Server, datagram) && packets == PacketsCounted(Server, datagram)
  {
    bytes, packets := 0, 0;
    if ParsePacket(datagram.payload).Some? {
      collector.RecordBytesReceived(0, |datagram.payload|);
      RecordHeader(collector, datagram);
      bytes, packets := |datagram.payload|, 1;
    }
  }

  method OnDatagramAtServer(collector: Measurements.Collector, reporter: IntervalReporter, datagram: Inbound,
         intervalDue: bool, b: Books, ghost history: seq<Interval>)
    returns (b': Books)
    requires collector.InSync() && collector.intervals == PushAll(history + b.cut) && reporter.queue == Reports(b.cut)
    modifies collector`totals, collector`streams, collector`udp, collector`outOfOrderPackets, collector`jitterMs,
             collector`intervals, reporter
    ensures collector.InSync() && collector.udp == StateNext(old(collector.udp), datagram)
    ensures CountedOnce(Server, old(collector.Recorded()), collector.Recorded(), datagram)
    ensures b' == Enter(b, BytesCounted(Server, datagram), PacketsCounted(Server, datagram), intervalDue)
    ensures collector.intervals == PushAll(history + b'.cut) && reporter.queue == Reports(b'.cut)
  {
    var bytes, packets := RecordParsed(collector, datagram);
    b' := EnterBooks(collector, reporter, history, b, bytes, packets, intervalDue);
  }

  /** The server's receive loop. */
  method ReceiveUdpData(collector: Measurements.Collector, reporter: IntervalReporter, input: seq<Inbound>,
         due: nat -> bool, ghost earlier: seq<Arrival>, ghost history: seq<Interval>)
    returns (books: Books)
    requires collector.udp == UdpState.Run(earlier) && collector.InSync()
    requires collector.intervals == PushAll(history) && reporter.queue == []
    modifies collector`totals, collector`streams, collector`udp, collector`outOfOrderPackets, collector`jitterMs,
             collector`intervals, reporter
    ensures Received(Server, collector, earlier, old(collector.Recorded()), input)
    ensures books == Booked(TurnsOf(Server, input, due))
    ensures collector.intervals == PushAll(history + books.cut) && reporter.queue == Reports(books.cut) + [Complete]
  {
    books := Books([], Interval(0, 0));
    assert earlier + [] == earlier && history + [] == history;
    for i := 0 to |input|
      invariant Received(Server, collector, earlier, old(collector.Recorded()), input[..i])
      invariant books == Booked(TurnsOf(Server, input[..i], due))
      invariant collector.intervals == PushAll(history + books.cut) && reporter.queue == Reports(books.cut)
    {
      ghost var mid := collector.Recorded();
      books := OnDatagramAtServer(collector, reporter, input[i], due(i), books, history);
      StateSnoc(earlier, input, i);
      CountedNext(Server, old(collector.Recorded()), mid, collector.Recorded(), input, i);
      BookedSnoc(Server, input, i, due);
    }
    assert input[..|input|] == input;
    reporter.Finish();
  }

  // ---------------------------------------------------------------- the network

  /** At most once each, in any order, plus strays that are not packets of ours. */
  ghost predicate Lossy(deliveries: seq<Delivery>, wire: nat) {
    && Distinct(Indices(deliveries))
    && forall i :: 0 <= i < |deliveries| ==>
         match deliveries[i]
         case Genuine(index, _) => index < wire
         case Stray(payload, _) => ParsePacket(payload) == None
  }

  /** Positions on the wire of the packets delivered, in arrival order. */
  function Indices(deliveries: seq<Delivery>): seq<nat> {
    if deliveries == [] then []
    else
      var front, last := Indices(deliveries[..|deliveries| - 1]), deliveries[|deliveries| - 1];
      if last.Genuine? then front + [last.index] else front
  }

  function Deliver(wire: seq<Datagram>, deliveries: seq<Delivery>): seq<Inbound>
    requires forall i :: 0 <= i < |deliveries| && deliveries[i].Genuine? ==> deliveries[i].index < |wire|
  {
    seq(|deliveries|, i requires 0 <= i < |deliveries| =>
      match deliveries[i]
      case Genuine(index, recvUs) => Inbound(wire[index].payload, recvUs)
      case Stray(payload, recvUs) => Inbound(payload, recvUs))
  }

  lemma {:induction false} IndicesOnWire(deliveries: seq<Delivery>, wire: nat)
    requires forall i :: 0 <= i < |deliveries| && deliveries[i].Genuine? ==> deliveries[i].index < wire
    ensures forall i :: 0 <= i < |Indices(deliveries)| ==> Indices(deliveries)[i] < wire
  {
    if deliveries != [] {
      IndicesOnWire(deliveries[..|deliveries| - 1], wire);
    }
  }

  /** The receiver sees the wire positions of the packets, cut down to 32 bits. */
  lemma {:induction false} ParsedNumbers(wire: seq<Datagram>, unsent: seq<Datagram>, stamps: seq<u64>, payload: nat,
                                         peer: nat, deliveries: seq<Delivery>)
    requires InOrder(wire, unsent, stamps, payload, peer)
    requires forall i :: 0 <= i < |deliveries| ==>
               match deliveries[i]
               case Genuine(index, _) => index < |wire|
               case Stray(b, _) => ParsePacket(b) == None
    ensures var arrivals, indices := Parsed(Deliver(wire, deliveries)), Indices(deliveries);
            && |arrivals| == |indices|
            && forall i :: 0 <= i < |arrivals| ==>
                 && indices[i] < |stamps|
                 && arrivals[i].sequence == indices[i] % 0x1_0000_0000 && arrivals[i].sendUs == stamps[indices[i]]
  {
    if deliveries != [] {
      var front, last := deliveries[..|deliveries| - 1], deliveries[|deliveries| - 1];
      ParsedNumbers(wire, unsent, stamps, payload, peer, front);
      var input := Deliver(wire, deliveries);
      assert input[..|input| - 1] == Deliver(wire, front);
      if last.Genuine? {
        GenuineArrives(wire, unsent, stamps, payload, peer, last.index, last.recvUs);
      }
    }
  }

  lemma GenuineArrives(wire: seq<Datagram>, unsent: seq<Datagram>, stamps: seq<u64>, payload: nat, peer: nat,
                       i: nat, recvUs: nat)
    requires InOrder(wire, unsent, stamps, payload, peer) && i < |wire|
    ensures i < |stamps|
    ensures ArrivalOf(Inbound(wire[i].payload, recvUs)) == Some(Arrival(i % 0x1_0000_0000, stamps[i], recvUs))
  {
    OnTheWire(wire, unsent, stamps, payload, peer, i);
  }

  /** The numbers recorded are the positions on the wire. */
  ghost predicate SeesPositions(wire: seq<Datagram>, deliveries: seq<Delivery>)
    requires Lossy(deliveries, |wire|)
  {
    var arrivals := Parsed(Deliver(wire, deliveries));
    Numbers(arrivals) == Indices(deliveries) && Counted(arrivals)
  }

  /** So they are for up to 2^32 packets. */
  lemma NumbersAreIndices(wire: seq<Datagram>, unsent: seq<Datagram>, stamps: seq<u64>, payload: nat, peer: nat,
                          deliveries: seq<Delivery>)
    requires InOrder(wire, unsent, stamps, payload, peer) && |wire| <= U32
    requires Lossy(deliveries, |wire|)
    ensures SeesPositions(wire, deliveries)
  {
    ParsedNumbers(wire, unsent, stamps, payload, peer, deliveries);
    IndicesOnWire(deliveries, |wire|);
  }

  /** How long the datagrams are. */
  function Sizes(input: seq<Inbound>): seq<nat> {
    seq(|input|, i requires 0 <= i < |input| => |input[i].payload|)
  }

  /** The client counts every datagram, header and all. */
  lemma {:induction false} ClientTally(input: seq<Inbound>)
    ensures Tally(Client, input) == Interval(SumOf(Sizes(input)), |input|)
  {
    if input != [] {
      ClientTally(input[..|input| - 1]);
      assert Sizes(input)[..|input| - 1] == Sizes(input[..|input| - 1]);
    }
  }

  /** The server counts the sender's packets that were delivered, header and all, and no stray. */
  lemma {:induction false} ServerTally(wire: seq<Datagram>, unsent: seq<Datagram>, stamps: seq<u64>, payload: nat,
                                       peer: nat, deliveries: seq<Delivery>)
    requires InOrder(wire, unsent, stamps, payload, peer)
    requires forall i :: 0 <= i < |deliveries| ==>
               match deliveries[i]
               case Genuine(index, _) => index < |wire|
               case Stray(b, _) => ParsePacket(b) == None
    ensures var packets := |Indices(deliveries)|;
            Tally(Server, Deliver(wire, deliveries)) == Interval(packets * (20 + payload), packets)
  {
    if deliveries != [] {
      var front, last := deliveries[..|deliveries| - 1], deliveries[|deliveries| - 1];
      ServerTally(wire, unsent, stamps, payload, peer, front);
      var input := Deliver(wire, deliveries);
      assert input[..|input| - 1] == Deliver(wire, front);
      if last.Genuine? {
        GenuineCounted(wire, unsent, stamps, payload, peer, last.index, last.recvUs);
        OneMorePacket(|Indices(front)|, 20 + payload);
      }
    }
  }

  lemma GenuineCounted(wire: seq<Datagram>, unsent: seq<Datagram>, stamps: seq<u64>, payload: nat, peer: nat,
                       i: nat, recvUs: nat)
    requires InOrder(wire, unsent, stamps, payload, peer) && i < |wire|
    ensures var d := Inbound(wire[i].payload, recvUs);
            BytesCounted(Server, d) == 20 + payload && PacketsCounted(Server, d) == 1
  {
    OnTheWire(wire, unsent, stamps, payload, peer, i);
    WireSize(wire, unsent, stamps, payload, peer);
  }

  lemma OneMorePacket(n: nat, size: nat)
    ensures (n + 1) * size == n * size + size
  {
  }

  /** So a counter grows by the whole length of what was delivered. */
  lemma DeliveredBytes(c: Counters, wire: seq<Datagram>, unsent: seq<Datagram>, stamps: seq<u64>, payload: nat,
                       peer: nat, deliveries: seq<Delivery>, bytes: nat)
    requires InOrder(wire, unsent, stamps, payload, peer) && Lossy(deliveries, |wire|)
    requires bytes == |Indices(deliveries)| * (20 + payload)
    ensures CountersAfter(c, Server, Deliver(wire, deliveries)) == Plus(c, bytes)
  {
    ServerTally(wire, unsent, stamps, payload, peer, deliveries);
    CountersGrow(c, Server, Deliver(wire, deliveries));
  }

  /** Which, unless 2^64 is reached, is plain addition. */
  lemma PlusModulo(c: Counters, bytes: nat)
    ensures Plus(c, bytes) == c.(received := (c.received + bytes) % 0x1_0000_0000_0000_0000)
  {
    FetchAddModulo(c.received, bytes);
  }

  /** And so do the bytes the server reports, in total and under stream 0, and nothing else. */
  lemma ServerCountsDelivered(wire: seq<Datagram>, unsent: seq<Datagram>, stamps: seq<u64>, payload: nat, peer: nat,
                              deliveries: seq<Delivery>, collector: Measurements.Collector, earlier: seq<Arrival>,
                              before: Snapshot, bytes: nat)
    requires InOrder(wire, unsent, stamps, payload, peer) && Lossy(deliveries, |wire|)
    requires Received(Server, collector, earlier, before, Deliver(wire, deliveries))
    requires bytes == |Indices(deliveries)| * (20 + payload)
    ensures collector.totals == Plus(before.totals, bytes)
    ensures OnlyChanged(before.streams, collector.streams, 0, Plus(Shown(before.streams, 0), bytes))
  {
    DeliveredBytes(before.totals, wire, unsent, stamps, payload, peer, deliveries, bytes);
    DeliveredBytes(Shown(before.streams, 0), wire, unsent, stamps, payload, peer, deliveries, bytes);
  }

  /** One past the highest position delivered. */
  function HighEnd(indices: seq<nat>): nat {
    if indices == [] then 0 else MaxOf(indices) + 1
  }

  /** The receiver's report is right about every packet the sender put on the wire: `expected` is one past the
      highest number delivered, and lost, delivered and still-unknown packets add up to all of them.
      `earlier` are the arrivals of previous tests. */
  ghost predicate ReportTrue(earlier: seq<Arrival>, wire: seq<Datagram>, deliveries: seq<Delivery>)
    requires Lossy(deliveries, |wire|)
  {
    var indices := Indices(deliveries);
    var (lost, expected) := Reported(earlier + Parsed(Deliver(wire, deliveries)));
    expected == HighEnd(indices) && lost + |indices| + (|wire| - HighEnd(indices)) == |wire|
  }

  /** When the report on a test is right that follows others on the same collector: when no lower number was the
      highest before, and nothing below the highest number was lost this time. */
  predicate SurvivesEarlier(earlier: seq<nat>, indices: seq<nat>)
    requires earlier != []
  {
    MaxOf(earlier) < HighEnd(indices) && |indices| == HighEnd(indices)
  }

  /** End to end, for every run of the sender with at most 2^32 packets on the wire and every delivery: the report
      is right if and only if the collector is fresh or the delivery happens to survive what it remembers. */
  lemma ReportTrueIff(earlier: seq<Arrival>, wire: seq<Datagram>, unsent: seq<Datagram>, stamps: seq<u64>,
                      payload: nat, peer: nat, deliveries: seq<Delivery>)
    requires InOrder(wire, unsent, stamps, payload, peer) && |wire| <= U32
    requires Counted(earlier) && Lossy(deliveries, |wire|)
    ensures ReportTrue(earlier, wire, deliveries)
       <==> earlier == [] || SurvivesEarlier(Numbers(earlier), Indices(deliveries))
  {
    NumbersAreIndices(wire, unsent, stamps, payload, peer, deliveries);
    DistinctFitsBelowEnd(Indices(deliveries));
    ReportAfter(earlier, Parsed(Deliver(wire, deliveries)));
  }

  /** The report covers everything the collector ever saw. */
  lemma ReportAfter(earlier: seq<Arrival>, arrivals: seq<Arrival>)
    requires Counted(earlier) && Counted(arrivals)
    ensures var end, r := Max(HighEnd(Numbers(earlier)), HighEnd(Numbers(arrivals))), Reported(earlier + arrivals);
            r.0 == Max(0, end - |earlier| - |arrivals|) && r.1 == end
  {
    if earlier + arrivals != [] {
      ReportedPair(earlier + arrivals);
      NumbersConcat(earlier, arrivals);
      MaxOfConcat(Numbers(earlier), Numbers(arrivals));
    }
  }

  lemma NumbersConcat(a: seq<Arrival>, b: seq<Arrival>)
    ensures Numbers(a + b) == Numbers(a) + Numbers(b)
  {
  }

  lemma DistinctFitsBelowEnd(t: seq<nat>)
    requires Distinct(t)
    ensures |t| <= HighEnd(t)
  {
    if t != [] {
      DeliveredSize(t);
      MissingBelowMax(t);
    }
  }

  lemma MaxOfConcat(a: seq<nat>, b: seq<nat>)
    requires a + b != []
    ensures MaxOf(a + b) + 1 == Max(HighEnd(a), HighEnd(b))
  {
    MaxOfIsMaximum(a + b);
    if a != [] {
      MaxOfIsMaximum(a);
      InConcat(a, b, MaxOf(a));
    }
    if b != [] {
      MaxOfIsMaximum(b);
      InConcat(a, b, MaxOf(b));
    }
  }

  lemma InConcat(a: seq<nat>, b: seq<nat>, x: nat)
    requires a + b != [] && (x in a || x in b)
    ensures x <= MaxOf(a + b)
  {
    MaxOfIsMaximum(a + b);
    assert x in a + b;
  }

  /** On a fresh collector it is always right. */
  lemma ReportedLossIsTrue(wire: seq<Datagram>, unsent: seq<Datagram>, stamps: seq<u64>, payload: nat, peer: nat,
                           deliveries: seq<Delivery>)
    requires InOrder(wire, unsent, stamps, payload, peer) && |wire| <= U32
    requires Lossy(deliveries, |wire|)
    ensures ReportTrue([], wire, deliveries)
  {
    ReportTrueIff([], wire, unsent, stamps, payload, peer, deliveries);
  }

  /** The guarantee for a sender that put `n` packets on the wire, whatever the network does. */
  ghost predicate AlwaysTrue(earlier: seq<Arrival>, n: nat) {
    forall stamps: seq<u64>, payload: nat, peer: nat, deliveries ::
      |stamps| == n && Lossy(deliveries, n) ==> ReportTrue(earlier, WholeWire(stamps, payload, peer), deliveries)
  }

  function WholeWire(stamps: seq<u64>, payload: nat, peer: nat): (wire: seq<Datagram>)
    ensures |wire| == |stamps|
  {
    Addressed(NumberedPackets(stamps, payload), peer)
  }

  /** It holds exactly for a fresh collector and up to where the 32-bit number wraps: packet 2^32 looks like
      packet 0. */
  lemma AlwaysTrueIff(earlier: seq<Arrival>, n: nat)
    requires Counted(earlier)
    ensures AlwaysTrue(earlier, n) <==> earlier == [] && n <= U32
  {
    if earlier != [] {
      StaleReportFalse(earlier, n);
    } else if n <= U32 {
      forall stamps: seq<u64>, payload: nat, peer: nat, deliveries | |stamps| == n && Lossy(deliveries, n)
        ensures ReportTrue([], WholeWire(stamps, payload, peer), deliveries)
      {
        var wire := WholeWire(stamps, payload, peer);
        assert wire + [] == wire;
        ReportedLossIsTrue(wire, [], stamps, payload, peer, deliveries);
      }
    } else {
      WrappedReportFalse(n);
    }
  }

  /** If nothing of a test arrives, the report is still that of the test before. */
  lemma StaleReportFalse(earlier: seq<Arrival>, n: nat)
    requires Counted(earlier) && earlier != []
    ensures !AlwaysTrue(earlier, n)
  {
    var stamps: seq<u64> := seq(n, _ => 0);
    var wire := WholeWire(stamps, 0, 0);
    var none: seq<Delivery> := [];
    assert Lossy(none, n);
    assert earlier + Parsed(Deliver(wire, none)) == earlier;
    ReportedPair(earlier);
    assert !ReportTrue(earlier, wire, none);
  }

  lemma WrappedReportFalse(n: nat)
    requires n > U32
    ensures !AlwaysTrue([], n)
  {
    var stamps: seq<u64> := seq(n, _ => 0);
    var wire, deliveries := WholeWire(stamps, 0, 0), [Genuine(U32, 0)];
    OneDelivery(U32, n);
    assert wire + [] == wire;
    ParsedNumbers(wire, [], stamps, 0, 0, deliveries);
    var arrivals := Parsed(Deliver(wire, deliveries));
    LooksLikeZero(arrivals);
    assert [] + arrivals == arrivals;
    assert !ReportTrue([], wire, deliveries);
  }

  lemma OneDelivery(index: nat, wire: nat)
    requires index < wire
    ensures Indices([Genuine(index, 0)]) == [index] && Lossy([Genuine(index, 0)], wire) && MaxOf([index]) == index
  {
    assert [Genuine(index, 0)][..0] == [];
  }

  lemma LooksLikeZero(arrivals: seq<Arrival>)
    requires |arrivals| == 1 && arrivals[0].sequence == 0
    ensures Reported(arrivals) == (0, 1)
  {
    assert Numbers(arrivals) == [0];
    RunCounts(arrivals);
  }
}

/** The one-way sender (`send_one_way` in src/client.rs) against the one-way receivers. */
module OneWayEndToEnd {
  import opened Base
  import opened BigEndian
  import opened Loss
  import opened OneWay
  import opened OneWaySpec

  /** Number, stream id, then the zeros of the buffer. */
  function ProbePacket(number: nat, id: nat, size: nat): seq<byte>
    requires 8 <= size
  {
    ToBytes(4, number) + ToBytes(4, id) + seq(size - 8, _ => 0)
  }

  lemma ProbeReads(number: nat, id: nat, size: nat)
    requires 8 <= size && number < U32 && id < U32
    ensures ReadProbe(ProbePacket(number, id, size)) == Data(id, number)
  {
    Widths();
    Decodes(4, number);
    Decodes(4, id);
    var b := ProbePacket(number, id, size);
    assert b[0..4] == ToBytes(4, number) && b[4..8] == ToBytes(4, id);
  }

  /** The bytes of a probe: number and stream id, each most significant byte first, then zeros up to the size. */
  predicate ProbeCarries(b: seq<byte>, number: nat, id: nat, size: nat)
    requires 8 <= size
  {
    && |b| == size && Word(b[0], b[1], b[2], b[3]) == number && Word(b[4], b[5], b[6], b[7]) == id
    && forall i :: 8 <= i < size ==> b[i] == 0
  }

  lemma ProbeLayout(number: nat, id: nat, size: nat)
    requires 8 <= size && number < U32 && id < U32
    ensures ProbeCarries(ProbePacket(number, id, size), number, id, size)
  {
    FirstByteMostSignificant(number);
    FirstByteMostSignificant(id);
    var b := ProbePacket(number, id, size);
    assert b[0..4] == ToBytes(4, number) && b[4..8] == ToBytes(4, id);
    assert b[0] == b[0..4][0] && b[1] == b[0..4][1] && b[2] == b[0..4][2] && b[3] == b[0..4][3];
    assert b[4] == b[4..8][0] && b[5] == b[4..8][1] && b[6] == b[4..8][2] && b[7] == b[4..8][3];
  }

  /** The i-th probe of a run: its number wraps at 2^32. */
  function NthProbe(i: nat, size: nat): seq<byte>
    requires 8 <= size
  {
    ProbePacket(i % 0x1_0000_0000, 0, size)
  }

  /** The sending loop. */
  method SendOneWay(rounds: nat, size: nat) returns (wire: seq<seq<byte>>)
    requires 8 <= size
    ensures |wire| == rounds && forall i :: 0 <= i < rounds ==> wire[i] == NthProbe(i, size)
    ensures forall i :: 0 <= i < rounds ==> ProbeCarries(wire[i], i % 0x1_0000_0000, 0, size)
  {
    wire := [];
    var number: nat := 0;
    for i := 0 to rounds
      invariant number == i % 0x1_0000_0000
      invariant |wire| == i && forall j :: 0 <= j < i ==> wire[j] == NthProbe(j, size)
    {
      wire := wire + [ProbePacket(number, 0, size)];
      NextNumber(i);
      number := Succ32(number);
    }
    forall i | 0 <= i < rounds ensures ProbeCarries(wire[i], i % 0x1_0000_0000, 0, size) {
      ProbeLayout(i % 0x1_0000_0000, 0, size);
    }
  }

  /** Any subset of the probes, in any order, any number of times each. */
  function DeliverProbes(order: seq<nat>, size: nat): seq<seq<byte>>
    requires 8 <= size
  {
    seq(|order|, i requires 0 <= i < |order| => NthProbe(order[i], size))
  }

  /** The probes of one stream by position. */
  function InStream(order: seq<nat>): seq<Probe> {
    seq(|order|, i requires 0 <= i < |order| => Data(0, order[i]))
  }

  lemma DeliveredProbes(order: seq<nat>, size: nat)
    requires 8 <= size
    ensures Probes(DeliverProbes(order, size)) == Narrowed(InStream(order))
  {
    forall i | 0 <= i < |order| ensures Probes(DeliverProbes(order, size))[i] == Data(0, order[i] % U32) {
      ProbeReads(order[i] % U32, 0, size);
    }
  }

  lemma {:induction false} SingleStream(order: seq<nat>, id: nat)
    ensures Projection(InStream(order), id) == if id == 0 then order else []
  {
    if order != [] {
      var n := |order| - 1;
      SingleStream(order[..n], id);
      assert InStream(order)[..n] == InStream(order[..n]);
      assert order == order[..n] + [order[n]];
    }
  }

  /** Whatever the network does to a one-way run: as long as the wrap of the number misleads the tracker at no
      packet, the server's loss figure covers every probe missing between the first seen and the highest, and
      overshoots by at most the late ones. */
  lemma OneWayReport(order: seq<nat>, size: nat)
    requires 8 <= size && order != [] && WrapHarmless(order[0], order)
    ensures var r := ReceiveAll(Probes(DeliverProbes(order, size)));
            var missing := |Missing(order, order[0], EndOf(order))|;
            missing <= r.lost <= missing + r.late
  {
    var probes := InStream(order);
    DeliveredProbes(order, size);
    forall id ensures Unmisled(Projection(probes, id)) && Projection(probes, id) == if id == 0 then order else [] {
      SingleStream(order, id);
    }
    assert Covers([0], probes);
    Sandwich(probes, [0]);
    assert Sum(MissingOf, [0], probes) == MissingOf(order) + Sum(MissingOf, [], probes);
  }
}
