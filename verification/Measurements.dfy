/** The bounded interval history (`CircularIntervalBuffer` in src/measurements.rs). */
module Intervals {
  import opened Base

  const MAX_INTERVALS: nat := 86400

  datatype Interval = Interval(bytes: nat, packets: nat)

  function Push(buffer: seq<Interval>, item: Interval): seq<Interval> {
    (if |buffer| >= MAX_INTERVALS then buffer[1..] else buffer) + [item]
  }

  function PushAll(items: seq<Interval>): seq<Interval> {
    if items == [] then [] else Push(PushAll(items[..|items| - 1]), items[|items| - 1])
  }

  /** Bytes and packets of a list of intervals. */
  function Accumulated(items: seq<Interval>): Interval {
    if items == [] then Interval(0, 0)
    else
      var sum, last := Accumulated(items[..|items| - 1]), items[|items| - 1];
      Interval(sum.bytes + last.bytes, sum.packets + last.packets)
  }

  /** The buffer holds exactly the last MAX_INTERVALS intervals ever added, oldest first. */
  lemma {:induction false} KeepsTheLast(items: seq<Interval>)
    ensures PushAll(items) == LastN(items, MAX_INTERVALS)
    ensures |items| <= 86_400 ==> PushAll(items) == items
    ensures |items| > 86_400 ==> PushAll(items) == items[|items| - 86_400..]
  {
    if items != [] {
      KeepsTheLast(items[..|items| - 1]);
    }
  }
}

/** `MeasurementsCollector` as seen by one task (src/measurements.rs). */
module Measurements {
  import opened Base
  import opened CounterProtocol
  import opened Intervals
  import opened UdpState

  /** One record call, run alone: the three steps of the concurrent protocol in a row. */
  function RecordOnce(m: Snapshot, k: Kind, id: nat, amount: nat): Snapshot {
    var c0 := CounterProtocol.Collector(m.totals, m.streams, [Idle]);
    var c1 := Apply(c0, Begin(0, k, id, amount));
    var c2 := Apply(c1, Lookup(0));
    var c3 := Apply(c2, Commit(0));
    Snapshot(c3.totals, c3.streams)
  }

  /** A recorded amount appears in the total and in exactly its own stream. */
  lemma RecordOnceCounts(m: Snapshot, k: Kind, id: nat, amount: nat, sel: Option<nat>)
    requires InStreams(m.streams, k, None) + amount < U64 && m.totals.Get(k) + amount < U64
    ensures var r := RecordOnce(m, k, id, amount);
            && r.totals.Get(k) == m.totals.Get(k) + amount
            && InStreams(r.streams, k, sel) == InStreams(m.streams, k, sel) + if Selects(sel, id) then amount else 0
  {
    var slot, grown := Find(m.streams, id), Grown(m.streams, id);
    RecordOnceParts(m, k, id, amount);
    GrownKeeps(m.streams, id, k, None);
    GrownKeeps(m.streams, id, k, sel);
    var entry := grown[slot].(counts := grown[slot].counts.Add(k, amount));
    InStreamsUpdate(grown, slot, entry, k, None);
    InStreamsUpdate(grown, slot, entry, k, sel);
    AddedFits(m.totals, k, amount);
    AddedFits(grown[slot].counts, k, amount);
  }

  lemma RecordOnceParts(m: Snapshot, k: Kind, id: nat, amount: nat)
    ensures var slot, grown := Find(m.streams, id), Grown(m.streams, id);
            && slot < |grown|
            && RecordOnce(m, k, id, amount)
                 == Snapshot(m.totals.Add(k, amount),
                             grown[slot := grown[slot].(counts := grown[slot].counts.Add(k, amount))])
  {
  }

  /** No other stream's counts are touched. */
  lemma RecordOnceEntries(m: Snapshot, k: Kind, id: nat, amount: nat)
    ensures OnlyChanged(m.streams, RecordOnce(m, k, id, amount).streams, id, Shown(m.streams, id).Add(k, amount))
  {
    var slot, grown := Find(m.streams, id), Grown(m.streams, id);
    RecordOnceParts(m, k, id, amount);
    var entry := grown[slot].(counts := grown[slot].counts.Add(k, amount));
    forall other ensures Shown(grown[slot := entry], other)
                        == if other == id then entry.counts else Shown(m.streams, other)
    {
      ShownIsFound(m.streams, other);
      ShownIsFound(grown[slot := entry], other);
      FindGrown(m.streams, id, other);
      FindUpdate(grown, slot, entry, other);
    }
    ShownIsFound(m.streams, id);
  }

  lemma {:induction false} FindGrown(streams: seq<Stream>, id: nat, other: nat)
    ensures var grown := streams + [Stream(id, ZERO)];
            Find(grown, other)
              == if Find(streams, other) < |streams| || other == id then Find(streams, other) else |grown|
  {
    if streams != [] {
      FindGrown(streams[1..], id, other);
      assert (streams + [Stream(id, ZERO)])[1..] == streams[1..] + [Stream(id, ZERO)];
    }
  }

  lemma {:induction false} FindUpdate(streams: seq<Stream>, slot: nat, entry: Stream, other: nat)
    requires slot < |streams| && entry.id == streams[slot].id
    ensures Find(streams[slot := entry], other) == Find(streams, other)
  {
    if slot > 0 {
      FindUpdate(streams[1..], slot - 1, entry, other);
      assert streams[slot := entry][1..] == streams[1..][slot - 1 := entry];
    } else {
      assert streams[slot := entry][1..] == streams[1..];
    }
  }

  lemma AddedFits(c: Counters, k: Kind, amount: nat)
    requires c.Get(k) + amount < U64
    ensures c.Add(k, amount).Get(k) == c.Get(k) + amount
  {
  }

  /** What `get` returns to its caller. */
  datatype Report = Report(snapshot: Snapshot, totalPackets: nat, lostPackets: nat, outOfOrder: nat,
                           jitterMs: real, intervals: seq<Interval>)

  class Collector {
    var totals: Counters
    var streams: seq<Stream>
    var udp: UdpPacketState
    var outOfOrderPackets: nat
    var jitterMs: real
    var lostPackets: nat
    var intervals: seq<Interval>

    function Recorded(): Snapshot
      reads this
    {
      Snapshot(totals, streams)
    }

    /** The published jitter and reordering figures are those of the packet state. */
    predicate InSync()
      reads this
    {
      outOfOrderPackets == udp.outOfOrder && jitterMs == udp.jitter / 1000.0
    }

    constructor ()
      ensures Recorded() == Snapshot(ZERO, []) && udp == INITIAL && intervals == [] && lostPackets == 0 && InSync()
    {
      totals, streams, udp := ZERO, [], INITIAL;
      outOfOrderPackets, jitterMs, lostPackets := 0, 0.0, 0;
      intervals := [];
    }

    method GetOrCreateStream(id: nat) returns (slot: nat)
      modifies this`streams
      ensures slot == Find(old(streams), id) < |streams|
      ensures streams == if slot < |old(streams)| then old(streams) else old(streams) + [Stream(id, ZERO)]
    {
      slot := 0;
      while slot < |streams| && streams[slot].id != id
        invariant slot <= |streams| && streams == old(streams)
        invariant forall i :: 0 <= i < slot ==> streams[i].id != id
      {
        slot := slot + 1;
      }
      assert slot == Find(streams, id);
      if slot == |streams| {
        streams := streams + [Stream(id, ZERO)];
      }
    }

    method Record(k: Kind, id: nat, amount: nat)
      modifies this`totals, this`streams
      ensures Recorded() == RecordOnce(old(Recorded()), k, id, amount)
      ensures totals == old(totals).Add(k, amount)
    {
      totals := totals.Add(k, amount);
      var slot := GetOrCreateStream(id);
      streams := streams[slot := streams[slot].(counts := streams[slot].counts.Add(k, amount))];
    }

    method RecordBytesSent(id: nat, bytes: nat)
      modifies this`totals, this`streams
      ensures Recorded() == RecordOnce(old(Recorded()), Sent, id, bytes)
      ensures totals == old(totals).Add(Sent, bytes)
      ensures OnlyChanged(old(streams), streams, id, Shown(old(streams), id).Add(Sent, bytes))
    {
      RecordOnceEntries(Recorded(), Sent, id, bytes);
      Record(Sent, id, bytes);
    }

    method RecordBytesReceived(id: nat, bytes: nat)
      modifies this`totals, this`streams
      ensures Recorded() == RecordOnce(old(Recorded()), Received, id, bytes)
      ensures totals == old(totals).Add(Received, bytes)
      ensures OnlyChanged(old(streams), streams, id, Shown(old(streams), id).Add(Received, bytes))
    {
      RecordOnceEntries(Recorded(), Received, id, bytes);
      Record(Received, id, bytes);
    }

    method RecordUdpPacket(id: nat)
      modifies this`totals, this`streams
      ensures Recorded() == RecordOnce(old(Recorded()), Packets, id, 1)
      ensures totals == old(totals).Add(Packets, 1)
      ensures OnlyChanged(old(streams), streams, id, Shown(old(streams), id).Add(Packets, 1))
    {
      RecordOnceEntries(Recorded(), Packets, id, 1);
      Record(Packets, id, 1);
    }

    method AddInterval(item: Interval)
      modifies this`intervals
      ensures intervals == Push(old(intervals), item)
    {
      if |intervals| >= MAX_INTERVALS {
        intervals := intervals[1..];
      }
      intervals := intervals + [item];
    }

    method RecordUdpPacketReceived(sequence: nat, sendUs: nat, recvUs: nat)
      requires InSync()
      modifies this`udp, this`outOfOrderPackets, this`jitterMs
      ensures udp == UdpState.Record(old(udp), Arrival(sequence, sendUs, recvUs)) && InSync()
    {
      if sequence == INIT_PACKET {
        return;
      }
      udp := udp.(receivedCount := udp.receivedCount + 1);
      match udp.maxSequence {
        case None => udp := udp.(maxSequence := Some(sequence));
        case Some(max) =>
          if sequence > max {
            udp := udp.(maxSequence := Some(sequence));
          }
      }
      if udp.lastSequence.Some? && sequence < udp.lastSequence.value {
        udp := udp.(outOfOrder := udp.outOfOrder + 1);
        outOfOrderPackets := outOfOrderPackets + 1;
      }
      if udp.lastArrivalUs.Some? && udp.lastSendUs.Some? {
        var current: int := SaturatingSub(recvUs, sendUs);
        var previous: int := SaturatingSub(udp.lastArrivalUs.value, udp.lastSendUs.value);
        var delta := Abs(current - previous);
        udp := udp.(jitter := udp.jitter + (delta as real - udp.jitter) / 16.0);
        jitterMs := udp.jitter / 1000.0;
      }
      udp := udp.(lastSequence := Some(sequence), lastArrivalUs := Some(recvUs), lastSendUs := Some(sendUs));
    }

    method CalculateUdpLoss() returns (lost: nat, expected: nat)
      ensures (lost, expected) == UdpLoss(udp)
    {
      match udp.maxSequence
      case None => lost, expected := 0, 0;
      case Some(max) =>
        expected := max + 1;
        lost := SaturatingSub(expected, udp.receivedCount);
    }

    /** `get`: once data has been received, the loss estimate replaces the packet counter. */
    method Get() returns (r: Report)
      ensures r.snapshot == Recorded() && r.outOfOrder == outOfOrderPackets && r.jitterMs == jitterMs
      ensures r.intervals == intervals
      ensures (r.lostPackets, r.totalPackets)
           == if totals.received > 0 then UdpLoss(udp) else (lostPackets, totals.packets)
      ensures InSync() ==> r.outOfOrder == udp.outOfOrder && 1000.0 * r.jitterMs == udp.jitter
    {
      var lost, packets := lostPackets, totals.packets;
      if totals.received > 0 {
        lost, packets := CalculateUdpLoss();
      }
      r := Report(Snapshot(totals, streams), packets, lost, outOfOrderPackets, jitterMs, intervals);
    }
  }
}
