/**
  The collector's UDP packet state (src/measurements.rs): the max-based loss estimate and its relation to
  the gap tracker. The jitter filter that shares this state is studied in module Jitter.
 */
module UdpState {
  import opened Base
  import opened Loss

  /** One parsed packet: number and send time from its header, receive time from the local clock. */
  datatype Arrival = Arrival(sequence: nat, sendUs: nat, recvUs: nat)

  datatype UdpPacketState = UdpPacketState(
    lastSequence: Option<nat>, maxSequence: Option<nat>, receivedCount: nat,
    lastArrivalUs: Option<nat>, lastSendUs: Option<nat>, jitter: real, outOfOrder: nat)

  const INITIAL := UdpPacketState(None, None, 0, None, None, 0.0, 0)
  const INIT_PACKET: nat := 0xFFFF_FFFF_FFFF_FFFF

  function SaturatingSub(a: nat, b: nat): nat {
    if a < b then 0 else a - b
  }

  /** Difference of two transit times, each clamped at zero. */
  function TransitDelta(last: Arrival, a: Arrival): nat {
    Abs(SaturatingSub(a.recvUs, a.sendUs) - SaturatingSub(last.recvUs, last.sendUs))
  }

  function Record(st: UdpPacketState, a: Arrival): UdpPacketState {
    if a.sequence == INIT_PACKET then st
    else
      UdpPacketState(
        Some(a.sequence),
        (match st.maxSequence
         case None => Some(a.sequence)
         case Some(m) => if a.sequence > m then Some(a.sequence) else Some(m)),
        st.receivedCount + 1,
        Some(a.recvUs),
        Some(a.sendUs),
        (match (st.lastArrivalUs, st.lastSendUs)
         case (Some(arrival), Some(send)) =>
           st.jitter + (TransitDelta(Arrival(0, send, arrival), a) as real - st.jitter) / 16.0
         case _ => st.jitter),
        st.outOfOrder + if st.lastSequence.Some? && a.sequence < st.lastSequence.value then 1 else 0)
  }

  function Run(arrivals: seq<Arrival>): UdpPacketState {
    if arrivals == [] then INITIAL else Record(Run(arrivals[..|arrivals| - 1]), arrivals[|arrivals| - 1])
  }

  /** `calculate_udp_loss`: (lost, expected). */
  function UdpLoss(st: UdpPacketState): (nat, nat) {
    match st.maxSequence
    case None => (0, 0)
    case Some(m) => (SaturatingSub(m + 1, st.receivedCount), m + 1)
  }

  /** `calculate_udp_loss` after a trace. */
  function Reported(arrivals: seq<Arrival>): (nat, nat) {
    UdpLoss(Run(arrivals))
  }

  // ---------------------------------------------------------------- traces

  ghost predicate Counted(arrivals: seq<Arrival>) {
    forall i :: 0 <= i < |arrivals| ==> arrivals[i].sequence != INIT_PACKET
  }

  function Numbers(arrivals: seq<Arrival>): seq<nat> {
    seq(|arrivals|, i requires 0 <= i < |arrivals| => arrivals[i].sequence)
  }

  /** The trace without initialization packets. */
  function WithoutInit(arrivals: seq<Arrival>): (r: seq<Arrival>)
    ensures Counted(r)
  {
    if arrivals == [] then []
    else
      var front := WithoutInit(arrivals[..|arrivals| - 1]);
      if arrivals[|arrivals| - 1].sequence == INIT_PACKET then front else front + [arrivals[|arrivals| - 1]]
  }

  /** Initialization packets leave no mark, so what follows speaks of traces without them. */
  lemma {:induction false} InitPacketsIgnored(arrivals: seq<Arrival>)
    ensures Run(arrivals) == Run(WithoutInit(arrivals))
  {
    if arrivals != [] {
      var front, last := arrivals[..|arrivals| - 1], arrivals[|arrivals| - 1];
      InitPacketsIgnored(front);
      assert (WithoutInit(front) + [last])[..|WithoutInit(front)|] == WithoutInit(front);
    }
  }

  lemma NumbersFront(arrivals: seq<Arrival>)
    requires arrivals != []
    ensures var t := Numbers(arrivals);
            t[..|t| - 1] == Numbers(arrivals[..|arrivals| - 1]) && t[|t| - 1] == arrivals[|arrivals| - 1].sequence
  {
  }

  /** The loss half of the state: how many packets, and the highest number. */
  lemma {:induction false} RunCounts(arrivals: seq<Arrival>)
    requires Counted(arrivals)
    ensures Run(arrivals).receivedCount == |arrivals|
    ensures Run(arrivals).maxSequence == if arrivals == [] then None else Some(MaxOf(Numbers(arrivals)))
  {
    if arrivals != [] {
      RunCounts(arrivals[..|arrivals| - 1]);
      NumbersFront(arrivals);
    }
  }

  /** The other half remembers the last packet. */
  lemma RunRemembersLast(arrivals: seq<Arrival>)
    requires Counted(arrivals)
    ensures var st := Run(arrivals);
            if arrivals == [] then st == INITIAL
            else
              var last := arrivals[|arrivals| - 1];
              && st.lastSequence == Some(last.sequence)
              && st.lastArrivalUs == Some(last.recvUs) && st.lastSendUs == Some(last.sendUs)
  {
  }

  // ---------------------------------------------------------------- the max-based estimate

  lemma ReportedPair(arrivals: seq<Arrival>)
    requires Counted(arrivals) && arrivals != []
    ensures var t := Numbers(arrivals);
            Reported(arrivals).0 == Max(0, MaxOf(t) + 1 - |t|) && Reported(arrivals).1 == MaxOf(t) + 1
  {
    RunCounts(arrivals);
  }

  /** Numbers of `{0 .. max}` that never arrived, and packets whose number had arrived before. */
  ghost function MissingCount(t: seq<nat>): nat
    requires t != []
  {
    |Missing(t, 0, MaxOf(t) + 1)|
  }

  ghost function DuplicateCount(t: seq<nat>): int {
    |t| - |Delivered(t)|
  }

  lemma CountsOf(t: seq<nat>)
    requires t != []
    ensures MissingCount(t) - DuplicateCount(t) == MaxOf(t) + 1 - |t|
    ensures 0 <= DuplicateCount(t)
    ensures DuplicateCount(t) == 0 <==> Distinct(t)
  {
    MissingBelowMax(t);
    DeliveredSize(t);
  }

  /** What the collector reports after any trace: one past the highest number as `expected`, and the
      missing numbers less the duplicates (never below 0) as `lost`. */
  lemma CollectorLoss(arrivals: seq<Arrival>)
    requires Counted(arrivals) && arrivals != []
    ensures var t := Numbers(arrivals);
            && Reported(arrivals).0 == Max(0, MissingCount(t) - DuplicateCount(t))
            && Reported(arrivals).1 == MaxOf(t) + 1
  {
    ReportedPair(arrivals);
    CountsOf(Numbers(arrivals));
  }

  /** The collector counts exactly the missing packets if and only if nothing is missing or nothing arrived twice. */
  lemma CollectorExactIff(arrivals: seq<Arrival>)
    requires Counted(arrivals) && arrivals != []
    ensures var t := Numbers(arrivals);
            Reported(arrivals).0 == MissingCount(t) <==> Distinct(t) || MissingCount(t) == 0
  {
    CollectorLoss(arrivals);
    CountsOf(Numbers(arrivals));
  }

  /** A duplicate hides a loss: of 0, 1 and 2 the first and twice the last arrived, and nothing is reported. */
  lemma DuplicateHidesLoss()
    ensures var arrivals := [Arrival(0, 0, 0), Arrival(2, 0, 0), Arrival(2, 0, 0)];
            Reported(arrivals).0 == 0 && MissingCount(Numbers(arrivals)) == 1
  {
    var arrivals := [Arrival(0, 0, 0), Arrival(2, 0, 0), Arrival(2, 0, 0)];
    var t := Numbers(arrivals);
    assert t == [0, 2, 2];
    MaxOfIsMaximum(t);
    assert t[1] <= MaxOf(t);
    assert Delivered(t) == {0, 2};
    MissingBelowMax(t);
    CollectorLoss(arrivals);
  }

  lemma MaxIgnoresOrder(t: seq<nat>, u: seq<nat>)
    requires t != [] && multiset(t) == multiset(u)
    ensures |t| == |u| && MaxOf(t) == MaxOf(u)
  {
    assert |multiset(t)| == |t| && |multiset(u)| == |u|;
    MaxOfIsMaximum(t);
    MaxOfIsMaximum(u);
    assert MaxOf(t) in multiset(t) && MaxOf(u) in multiset(u);
    assert MaxOf(t) in u && MaxOf(u) in t;
  }

  /** Reordering a trace never changes the reported loss. */
  lemma OrderIndependent(a: seq<Arrival>, b: seq<Arrival>)
    requires Counted(a) && Counted(b) && multiset(Numbers(a)) == multiset(Numbers(b))
    ensures Reported(a) == Reported(b)
  {
    RunCounts(a);
    RunCounts(b);
    assert |multiset(Numbers(a))| == |Numbers(a)| && |multiset(Numbers(b))| == |Numbers(b)|;
    if a != [] {
      MaxIgnoresOrder(Numbers(a), Numbers(b));
    }
  }

  // ---------------------------------------------------------------- two estimators, one trace

  /** The gap receiver's loss exceeds the collector's by exactly its late packets, if and only if the
      trace is no longer than the range of numbers it spans. */
  lemma EstimatorsDifferByLate(arrivals: seq<Arrival>)
    requires Unwrapped(Numbers(arrivals))
    ensures var g := Track(0, Numbers(arrivals));
            && Reported(arrivals).1 == g.expected
            && (g.lost == Reported(arrivals).0 + g.late <==> |arrivals| <= g.expected)
  {
    UnwrappedCounted(arrivals);
    UnwrappedFollows(0, Numbers(arrivals));
    TrackInvariant(0, Numbers(arrivals));
    if arrivals != [] {
      ReportedPair(arrivals);
      var g := Track(0, Numbers(arrivals));
      DifferByLateIff(|arrivals|, g.expected, g.lost, g.late);
    }
  }

  lemma UnwrappedCounted(arrivals: seq<Arrival>)
    requires Unwrapped(Numbers(arrivals))
    ensures Counted(arrivals)
  {
    forall i | 0 <= i < |arrivals| ensures arrivals[i].sequence != INIT_PACKET {
      assert arrivals[i].sequence == Numbers(arrivals)[i];
    }
  }

  lemma DifferByLateIff(packets: nat, expected: nat, lost: nat, late: nat)
    requires late <= packets && lost + (packets - late) == expected
    ensures lost == Max(0, expected - packets) + late <==> packets <= expected
  {
  }

  /** In particular on every trace without duplicates. */
  lemma DistinctEstimatorsDifferByLate(arrivals: seq<Arrival>)
    requires Unwrapped(Numbers(arrivals)) && Distinct(Numbers(arrivals))
    ensures var g := Track(0, Numbers(arrivals));
            g.lost == Reported(arrivals).0 + g.late
  {
    var t := Numbers(arrivals);
    var g := Track(0, t);
    EstimatorsDifferByLate(arrivals);
    UnwrappedFollows(0, t);
    TrackInvariant(0, t);
    DeliveredSize(t);
    if t != [] {
      MaxOfIsMaximum(t);
      forall x | x in Delivered(t) ensures x in Range(0, g.expected) {
        InRange(0, g.expected, x);
      }
      SubsetSize(Delivered(t), Range(0, g.expected));
      RangeSize(0, g.expected);
    }
  }

  /** The packet at `i` carries a lower number than its predecessor. */
  predicate Descends(t: seq<nat>, i: nat)
    requires i < |t|
  {
    0 < i && t[i] < t[i - 1]
  }

  ghost function Descents(t: seq<nat>): set<nat> {
    set i: nat | i < |t| && Descends(t, i)
  }

  /** The collector's out-of-order count is the number of descents. */
  lemma {:induction false} OutOfOrderCountsDescents(arrivals: seq<Arrival>)
    requires Counted(arrivals)
    ensures Run(arrivals).outOfOrder == |Descents(Numbers(arrivals))|
  {
    if arrivals != [] {
      var front := arrivals[..|arrivals| - 1];
      OutOfOrderCountsDescents(front);
      RunRemembersLast(front);
      NumbersFront(arrivals);
      DescentsSnoc(Numbers(arrivals));
    }
  }

  lemma DescentsSnoc(t: seq<nat>)
    requires t != []
    ensures var n := |t| - 1;
            |Descents(t)| == |Descents(t[..n])| + if Descends(t, n) then 1 else 0
  {
    var n := |t| - 1;
    assert forall i: nat | i < n :: Descends(t, i) <==> Descends(t[..n], i);
    assert Descents(t) == Descents(t[..n]) + if Descends(t, n) then {n} else {};
  }

  /** Every such packet is late for the gap receiver too, which therefore counts at least as many. */
  lemma OutOfOrderAtMostLate(arrivals: seq<Arrival>)
    requires Counted(arrivals) && Unwrapped(Numbers(arrivals))
    ensures Descents(Numbers(arrivals)) <= LatePackets(0, Numbers(arrivals))
    ensures Run(arrivals).outOfOrder <= Track(0, Numbers(arrivals)).late
  {
    var t := Numbers(arrivals);
    OutOfOrderCountsDescents(arrivals);
    UnwrappedFollows(0, t);
    LateCountsLate(0, t);
    forall i | i in Descents(t) ensures i in LatePackets(0, t) {
      assert Descends(t, i) && t[i] <= t[i - 1];
    }
    SubsetSize(Descents(t), LatePackets(0, t));
  }
}
