/**
  The one-way receivers (src/server.rs): one gap tracker per stream id in a hash map, feeding shared totals.
 */
module OneWaySpec {
  import opened Base
  import opened BigEndian
  import opened Loss

  /** What a datagram tells the receiver; fewer than 8 bytes carry no sequence number. */
  datatype Probe = Short | Data(streamId: nat, number: nat)

  function ReadProbe(buf: seq<byte>): Probe {
    if |buf| < 8 then Short else Data(FromBytes(buf[4..8]), FromBytes(buf[0..4]))
  }

  datatype Receiver = Receiver(expected: map<nat, nat>, received: nat, lost: nat, late: nat)

  const IDLE := Receiver(map[], 0, 0, 0)

  function Receive(r: Receiver, p: Probe): Receiver {
    match p
    case Short => r.(received := r.received + 1)
    case Data(id, number) =>
      var g := Observe(Gap(if id in r.expected then r.expected[id] else number, r.lost, r.late), number);
      Receiver(r.expected[id := g.expected], r.received + 1, g.lost, g.late)
  }

  function ReceiveAll(probes: seq<Probe>): Receiver {
    if probes == [] then IDLE else Receive(ReceiveAll(probes[..|probes| - 1]), probes[|probes| - 1])
  }

  /** The numbers of one stream, in arrival order. */
  function Projection(probes: seq<Probe>, id: nat): seq<nat> {
    if probes == [] then []
    else
      var front, p := Projection(probes[..|probes| - 1], id), probes[|probes| - 1];
      if p.Data? && p.streamId == id then front + [p.number] else front
  }

  /** A receiver of one stream alone: it starts out expecting the first number it sees. */
  function TrackAlone(t: seq<nat>): Gap {
    if t == [] then Gap(0, 0, 0) else Track(t[0], t)
  }

  function Sum(f: seq<nat> -> int, ids: seq<nat>, probes: seq<Probe>): int {
    if ids == [] then 0 else f(Projection(probes, ids[0])) + Sum(f, ids[1..], probes)
  }

  function LostOf(t: seq<nat>): int { TrackAlone(t).lost }
  function LateOf(t: seq<nat>): int { TrackAlone(t).late }
  function SizeOf(t: seq<nat>): int { |t| }

  /** One past the highest position of a stream. */
  function EndOf(t: seq<nat>): nat
    requires t != []
  {
    TrackPositions(t[0], t).expected
  }

  /** Length of `[first, end)`. */
  function SpanOf(t: seq<nat>): int { if t == [] then 0 else EndOf(t) - t[0] }
  /** Positions of `[first, end)` that never arrived. */
  ghost function MissingOf(t: seq<nat>): int { if t == [] then 0 else |Missing(t, t[0], EndOf(t))| }

  /** Positions counted as lost that turned up later. */
  function RecoveredOf(t: seq<nat>): int { if t == [] then 0 else Recovered(t[0], t) }

  /** `ids` lists every stream of the trace, each once, and possibly others. */
  ghost predicate Covers(ids: seq<nat>, probes: seq<Probe>) {
    Distinct(ids) && forall i :: 0 <= i < |probes| && probes[i].Data? ==> probes[i].streamId in ids
  }

  function Shorts(probes: seq<Probe>): nat {
    if probes == [] then 0 else Shorts(probes[..|probes| - 1]) + if probes[|probes| - 1].Short? then 1 else 0
  }

  // ---------------------------------------------------------------- projections

  lemma ProjectionSnoc(probes: seq<Probe>, p: Probe, id: nat)
    ensures Projection(probes + [p], id)
         == if p.Data? && p.streamId == id then Projection(probes, id) + [p.number] else Projection(probes, id)
  {
    assert (probes + [p])[..|probes|] == probes;
  }

  /** A new packet touches only its own stream's term of a sum. */
  lemma {:induction false} SumSnoc(f: seq<nat> -> int, ids: seq<nat>, probes: seq<Probe>, p: Probe)
    requires Distinct(ids)
    ensures Sum(f, ids, probes + [p]) == Sum(f, ids, probes)
      + if p.Data? && p.streamId in ids
        then f(Projection(probes, p.streamId) + [p.number]) - f(Projection(probes, p.streamId)) else 0
  {
    if ids != [] {
      ProjectionSnoc(probes, p, ids[0]);
      SumSnoc(f, ids[1..], probes, p);
      assert p.Data? && p.streamId in ids ==> p.streamId == ids[0] || p.streamId in ids[1..];
      assert ids[0] !in ids[1..];
    }
  }

  lemma TrackAloneSnoc(t: seq<nat>, number: nat)
    ensures TrackAlone(t + [number])
         == if t == [] then Observe(Gap(number, 0, 0), number) else Observe(TrackAlone(t), number)
  {
    if t == [] {
      assert [] + [number] == [number];
      TrackSnoc(number, [], number);
    } else {
      TrackSnoc(t[0], t, number);
    }
  }

  /** The map entry of a stream is what a receiver of that stream alone would expect. */
  lemma {:induction false} EntriesAreTrackers(probes: seq<Probe>, id: nat)
    ensures var r, t := ReceiveAll(probes), Projection(probes, id);
            && (id in r.expected <==> t != [])
            && (t != [] ==> r.expected[id] == TrackAlone(t).expected)
  {
    if probes != [] {
      var front, p := probes[..|probes| - 1], probes[|probes| - 1];
      EntriesAreTrackers(front, id);
      if p.Data? && p.streamId == id {
        TrackAloneSnoc(Projection(front, id), p.number);
      }
    }
  }

  /** Shifting the counts of a tracker shifts its outcome. */
  lemma ObserveShifts(g: Gap, number: nat, lost: nat, late: nat)
    ensures var o := Observe(g, number);
            Observe(Gap(g.expected, lost, late), number)
              == Gap(o.expected, lost + o.lost - g.lost, late + o.late - g.late)
  {
  }

  /** Stream independence: on any interleaving the totals are the sums of what receivers of each stream
      alone would report. This needs no bound on the numbers: it holds across wrap-around too. */
  lemma {:induction false} StreamsIndependent(probes: seq<Probe>, ids: seq<nat>)
    requires Covers(ids, probes)
    ensures ReceiveAll(probes).lost == Sum(LostOf, ids, probes)
    ensures ReceiveAll(probes).late == Sum(LateOf, ids, probes)
    ensures ReceiveAll(probes).received == Sum(SizeOf, ids, probes) + Shorts(probes)
  {
    if probes == [] {
      EmptySum(LostOf, ids);
      EmptySum(LateOf, ids);
      EmptySum(SizeOf, ids);
    } else {
      var front, p := probes[..|probes| - 1], probes[|probes| - 1];
      assert probes == front + [p];
      StreamsIndependent(front, ids);
      SumSnoc(LostOf, ids, front, p);
      SumSnoc(LateOf, ids, front, p);
      SumSnoc(SizeOf, ids, front, p);
      if p.Data? {
        var r, t := ReceiveAll(front), Projection(front, p.streamId);
        EntriesAreTrackers(front, p.streamId);
        TrackAloneSnoc(t, p.number);
        ObserveShifts(if t == [] then Gap(p.number, 0, 0) else TrackAlone(t), p.number, r.lost, r.late);
      }
    }
  }

  lemma {:induction false} EmptySum(f: seq<nat> -> int, ids: seq<nat>)
    requires f([]) == 0
    ensures Sum(f, ids, []) == 0
  {
    if ids != [] {
      EmptySum(f, ids[1..]);
    }
  }

  // ---------------------------------------------------------------- interleavings

  function Streams(probes: seq<Probe>): (ids: seq<nat>)
    ensures Covers(ids, probes)
  {
    if probes == [] then []
    else
      var ids, p := Streams(probes[..|probes| - 1]), probes[|probes| - 1];
      if p.Data? && p.streamId !in ids then ids + [p.streamId] else ids
  }

  lemma {:induction false} SumsAgree(f: seq<nat> -> int, ids: seq<nat>, a: seq<Probe>, b: seq<Probe>)
    requires forall id :: Projection(a, id) == Projection(b, id)
    ensures Sum(f, ids, a) == Sum(f, ids, b)
  {
    if ids != [] {
      SumsAgree(f, ids[1..], a, b);
    }
  }

  lemma {:induction false} OccursIffProjected(probes: seq<Probe>, id: nat)
    ensures Projection(probes, id) != []
       <==> exists i :: 0 <= i < |probes| && probes[i].Data? && probes[i].streamId == id
  {
    if probes != [] {
      var front, p := probes[..|probes| - 1], probes[|probes| - 1];
      OccursIffProjected(front, id);
      if exists i :: 0 <= i < |front| && front[i].Data? && front[i].streamId == id {
        var i :| 0 <= i < |front| && front[i].Data? && front[i].streamId == id;
        assert probes[i].streamId == id;
      }
    }
  }

  /** How the network interleaves the streams does not matter. */
  lemma InterleavingIrrelevant(a: seq<Probe>, b: seq<Probe>)
    requires forall id :: Projection(a, id) == Projection(b, id)
    ensures ReceiveAll(a).lost == ReceiveAll(b).lost && ReceiveAll(a).late == ReceiveAll(b).late
  {
    var ids := Streams(a);
    forall i | 0 <= i < |b| && b[i].Data? ensures b[i].streamId in ids {
      OccursIffProjected(b, b[i].streamId);
      OccursIffProjected(a, b[i].streamId);
    }
    StreamsIndependent(a, ids);
    StreamsIndependent(b, ids);
    SumsAgree(LostOf, ids, a, b);
    SumsAgree(LateOf, ids, a, b);
  }

  // ---------------------------------------------------------------- conservation and the truth

  /** Probes as sent, a position in each, and as received, where only 32 bits of it are left. */
  function Narrowed(probes: seq<Probe>): seq<Probe> {
    seq(|probes|, i requires 0 <= i < |probes| =>
      match probes[i]
      case Short => Short
      case Data(id, position) => Data(id, position % U32))
  }

  lemma {:induction false} ProjectionNarrowed(probes: seq<Probe>, id: nat)
    ensures Projection(Narrowed(probes), id) == Numbered(Projection(probes, id))
  {
    if probes != [] {
      ProjectionNarrowed(probes[..|probes| - 1], id);
      assert Narrowed(probes)[..|probes| - 1] == Narrowed(probes[..|probes| - 1]);
    }
  }

  /** The 32-bit wrap misleads the tracker of no stream. */
  ghost predicate NoStreamMisled(probes: seq<Probe>) {
    forall id :: Unmisled(Projection(probes, id))
  }

  ghost predicate Unmisled(t: seq<nat>) {
    t != [] ==> WrapHarmless(t[0], t)
  }

  /** Streams shorter than 2^32 - 1 packets, for example. */
  lemma {:induction false} ShortStreamsUnmisled(probes: seq<Probe>, id: nat)
    requires forall i :: 0 <= i < |probes| && probes[i].Data? ==> probes[i].number < U32 - 1
    ensures Unwrapped(Projection(probes, id)) && Unmisled(Projection(probes, id))
  {
    if probes != [] {
      ShortStreamsUnmisled(probes[..|probes| - 1], id);
    }
    var t := Projection(probes, id);
    if t != [] {
      UnwrappedHarmless(t[0], t);
    }
  }

  lemma StreamFacts(t: seq<nat>)
    requires Unmisled(t)
    ensures var seen := Numbered(t);
            && SizeOf(t) + LostOf(seen) == SpanOf(t) + LateOf(seen)
            && LostOf(seen) == MissingOf(t) + RecoveredOf(t) && 0 <= RecoveredOf(t) <= LateOf(seen)
  {
    if t != [] {
      GapSandwich(t[0], t);
    }
  }

  lemma {:induction false} SumFacts(probes: seq<Probe>, ids: seq<nat>)
    requires NoStreamMisled(probes)
    ensures var seen := Narrowed(probes);
            && Sum(SizeOf, ids, seen) + Sum(LostOf, ids, seen) == Sum(SpanOf, ids, probes) + Sum(LateOf, ids, seen)
            && Sum(LostOf, ids, seen) == Sum(MissingOf, ids, probes) + Sum(RecoveredOf, ids, probes)
            && 0 <= Sum(RecoveredOf, ids, probes) <= Sum(LateOf, ids, seen)
  {
    if ids != [] {
      ProjectionNarrowed(probes, ids[0]);
      StreamFacts(Projection(probes, ids[0]));
      SumFacts(probes, ids[1..]);
    }
  }

  lemma CoversNarrowed(probes: seq<Probe>, ids: seq<nat>)
    requires Covers(ids, probes)
    ensures Covers(ids, Narrowed(probes))
  {
    forall i | 0 <= i < |probes| && Narrowed(probes)[i].Data? ensures Narrowed(probes)[i].streamId in ids {
      assert probes[i].Data?;
    }
  }

  /** Conservation: every packet received or counted lost has a place in some stream's `[first, end)`,
      or was late, or was too short to carry a number. */
  lemma Conservation(probes: seq<Probe>, ids: seq<nat>)
    requires NoStreamMisled(probes) && Covers(ids, probes)
    ensures var r := ReceiveAll(Narrowed(probes));
            r.received + r.lost == Sum(SpanOf, ids, probes) + r.late + Shorts(Narrowed(probes))
  {
    CoversNarrowed(probes, ids);
    StreamsIndependent(Narrowed(probes), ids);
    SumFacts(probes, ids);
  }

  /** Over all streams, the reported loss is the packets truly missing plus those that turned up late after
      all; so it lies between the truth and the truth plus the late packets. */
  lemma Sandwich(probes: seq<Probe>, ids: seq<nat>)
    requires NoStreamMisled(probes) && Covers(ids, probes)
    ensures var r := ReceiveAll(Narrowed(probes));
            && r.lost == Sum(MissingOf, ids, probes) + Sum(RecoveredOf, ids, probes)
            && Sum(MissingOf, ids, probes) <= r.lost <= Sum(MissingOf, ids, probes) + r.late
  {
    CoversNarrowed(probes, ids);
    StreamsIndependent(Narrowed(probes), ids);
    SumFacts(probes, ids);
  }
}

/** The receivers as objects that update their counters in place. */
module OneWay {
  import opened Base
  import opened BigEndian
  import opened Loss
  import opened OneWaySpec

  function Probes(datagrams: seq<seq<byte>>): seq<Probe> {
    seq(|datagrams|, i requires 0 <= i < |datagrams| => ReadProbe(datagrams[i]))
  }

  /** Where the fields of a probe are. */
  lemma ProbeFields(b: seq<byte>)
    ensures |b| < 8 ==> ReadProbe(b) == Short
    ensures 8 <= |b| ==> ReadProbe(b) == Data(Word(b[4], b[5], b[6], b[7]), Word(b[0], b[1], b[2], b[3]))
  {
    if 8 <= |b| {
      FourBytes(b[0..4]);
      FourBytes(b[4..8]);
    }
  }

  /** `recv_one_way_server_with_socket`. */
  class StreamReceiver {
    var streamStates: map<nat, nat>
    var bytesReceived: nat
    var packetsReceived: nat
    var packetsLost: nat
    var outOfOrder: nat

    function State(): Receiver
      reads this
    {
      Receiver(streamStates, packetsReceived, packetsLost, outOfOrder)
    }

    constructor ()
      ensures State() == IDLE && bytesReceived == 0
    {
      streamStates := map[];
      bytesReceived, packetsReceived, packetsLost, outOfOrder := 0, 0, 0, 0;
    }

    method OnDatagram(buf: seq<byte>)
      modifies this
      ensures State() == Receive(old(State()), ReadProbe(buf)) && bytesReceived == old(bytesReceived) + |buf|
    {
      bytesReceived := bytesReceived + |buf|;
      packetsReceived := packetsReceived + 1;
      if |buf| >= 8 {
        var number, id := FromBytes(buf[0..4]), FromBytes(buf[4..8]);
        Encodes(buf[0..4]);
        if id !in streamStates {
          streamStates := streamStates[id := number];
        }
        var expected := streamStates[id];
        if number > expected {
          packetsLost := packetsLost + (number - expected);
          streamStates := streamStates[id := Succ32(number)];
        } else if number < expected {
          outOfOrder := outOfOrder + 1;
        } else {
          streamStates := streamStates[id := Succ32(expected)];
        }
      }
    }
  }

  /** The receive loop over whatever the network delivers. */
  method ReceiveStreams(datagrams: seq<seq<byte>>) returns (packetsReceived: nat, packetsLost: nat, outOfOrder: nat)
    ensures var r := ReceiveAll(Probes(datagrams));
            packetsReceived == r.received && packetsLost == r.lost && outOfOrder == r.late
  {
    var server := new StreamReceiver();
    for i := 0 to |datagrams|
      invariant server.State() == ReceiveAll(Probes(datagrams[..i]))
    {
      server.OnDatagram(datagrams[i]);
      assert Probes(datagrams[..i + 1])[..i] == Probes(datagrams[..i]);
    }
    assert datagrams[..|datagrams|] == datagrams;
    return server.packetsReceived, server.packetsLost, server.outOfOrder;
  }

  /** `recv_one_way_receiver`: a single tracker that starts out expecting 0, whatever the stream id. */
  method ReceiveFromZero(datagrams: seq<seq<byte>>) returns (packetsReceived: nat, packetsLost: nat, outOfOrder: nat)
    ensures var g := Track(0, AllNumbers(Probes(datagrams)));
            packetsReceived == |datagrams| && packetsLost == g.lost && outOfOrder == g.late
  {
    packetsReceived, packetsLost, outOfOrder := 0, 0, 0;
    var expected: nat := 0;
    for i := 0 to |datagrams|
      invariant Gap(expected, packetsLost, outOfOrder) == Track(0, AllNumbers(Probes(datagrams[..i])))
      invariant packetsReceived == i
    {
      var buf := datagrams[i];
      var before, after := Probes(datagrams[..i]), Probes(datagrams[..i + 1]);
      assert after[..i] == before;
      packetsReceived := packetsReceived + 1;
      if |buf| >= 8 {
        var number := FromBytes(buf[0..4]);
        TrackSnoc(0, AllNumbers(before), number);
        if number > expected {
          packetsLost := packetsLost + (number - expected);
          expected := Succ32(number);
        } else if number < expected {
          outOfOrder := outOfOrder + 1;
        } else {
          expected := Succ32(expected);
        }
      }
    }
    assert datagrams[..|datagrams|] == datagrams;
  }

  /** The numbers tracked are those in the first four bytes of all datagrams of 8 bytes or more, in order of arrival,
      whatever the stream id in the next four. */
  lemma NumbersKept(front: seq<seq<byte>>, last: seq<byte>)
    ensures AllNumbers(Probes([])) == []
    ensures AllNumbers(Probes(front + [last]))
         == AllNumbers(Probes(front)) + if |last| < 8 then [] else [Word(last[0], last[1], last[2], last[3])]
  {
    var probes := Probes(front + [last]);
    assert probes[..|front|] == Probes(front);
    ProbeFields(last);
  }

  function AllNumbers(probes: seq<Probe>): seq<nat> {
    if probes == [] then []
    else
      var front, p := AllNumbers(probes[..|probes| - 1]), probes[|probes| - 1];
      if p.Data? then front + [p.number] else front
  }
}
