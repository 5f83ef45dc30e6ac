/**
  The interarrival jitter estimate kept by `record_udp_packet_received` (src/measurements.rs), measured
  against section 6.4.1 of RFC 3550, and its sensitivity to send timestamps that are slightly off.
 */
module Jitter {
  import opened Base
  import opened UdpState

  /** No packet is stamped as received before it was sent. */
  ghost predicate Causal(arrivals: seq<Arrival>) {
    forall i :: 0 <= i < |arrivals| ==> arrivals[i].sendUs <= arrivals[i].recvUs
  }

  /** |D(i-1, i)|: how much the spacing of two packets changed on the way. */
  function SpacingChange(last: Arrival, a: Arrival): nat {
    Abs((a.recvUs - last.recvUs) - (a.sendUs - last.sendUs))
  }

  /** J(i) = J(i-1) + (|D(i-1, i)| - J(i-1)) / 16, from J = 0 at the first packet. */
  function RfcJitter(arrivals: seq<Arrival>): real {
    if |arrivals| <= 1 then 0.0
    else
      var n := |arrivals| - 1;
      var j := RfcJitter(arrivals[..n]);
      j + (SpacingChange(arrivals[n - 1], arrivals[n]) as real - j) / 16.0
  }

  /** Neither transit time is negative, or both are equal. */
  predicate ClampHarmless(last: Arrival, a: Arrival) {
    (last.sendUs <= last.recvUs && a.sendUs <= a.recvUs) || a.recvUs - a.sendUs == last.recvUs - last.sendUs
  }

  /** That is exactly when clamping transit times at zero leaves their difference as it is. */
  lemma ClampHarmlessIff(last: Arrival, a: Arrival)
    ensures TransitDelta(last, a) == SpacingChange(last, a) <==> ClampHarmless(last, a)
  {
    var transit, before := a.recvUs - a.sendUs, last.recvUs - last.sendUs;
    assert TransitDelta(last, a) == Abs(Max(transit, 0) - Max(before, 0));
    assert SpacingChange(last, a) == Abs(transit - before);
  }

  /** The filter step of the state, in terms of the trace. */
  lemma JitterStep(arrivals: seq<Arrival>)
    requires Counted(arrivals) && arrivals != []
    ensures var n := |arrivals| - 1;
            var j := Run(arrivals[..n]).jitter;
            Run(arrivals).jitter
              == if n == 0 then 0.0 else j + (TransitDelta(arrivals[n - 1], arrivals[n]) as real - j) / 16.0
  {
    RunRemembersLast(arrivals[..|arrivals| - 1]);
  }

  /** The state holds the RFC value after every packet. */
  ghost predicate FollowsRfc(arrivals: seq<Arrival>) {
    forall n :: 0 <= n <= |arrivals| ==> HoldsRfcValue(arrivals[..n])
  }

  predicate HoldsRfcValue(arrivals: seq<Arrival>) {
    Run(arrivals).jitter == RfcJitter(arrivals)
  }

  ghost predicate NeverMisclamped(arrivals: seq<Arrival>) {
    forall i :: 0 < i < |arrivals| ==> ClampHarmless(arrivals[i - 1], arrivals[i])
  }

  /** A state that holds the RFC value still does after the next packet exactly when no clamping gets in the way. */
  lemma NextRfcValue(arrivals: seq<Arrival>)
    requires Counted(arrivals) && arrivals != []
    requires HoldsRfcValue(arrivals[..|arrivals| - 1])
    ensures var n := |arrivals| - 1;
            HoldsRfcValue(arrivals) <==> (n > 0 ==> ClampHarmless(arrivals[n - 1], arrivals[n]))
  {
    JitterStep(arrivals);
    var n := |arrivals| - 1;
    if n > 0 {
      ClampHarmlessIff(arrivals[n - 1], arrivals[n]);
      SameStepIff(RfcJitter(arrivals[..n]), TransitDelta(arrivals[n - 1], arrivals[n]),
                  SpacingChange(arrivals[n - 1], arrivals[n]));
    }
  }

  lemma SameStepIff(j: real, d: nat, d': nat)
    ensures j + (d as real - j) / 16.0 == j + (d' as real - j) / 16.0 <==> d == d'
  {
  }

  lemma FollowsSnoc(arrivals: seq<Arrival>)
    requires arrivals != []
    ensures var front := arrivals[..|arrivals| - 1];
            FollowsRfc(arrivals) <==> FollowsRfc(front) && HoldsRfcValue(arrivals)
  {
    var front := arrivals[..|arrivals| - 1];
    assert forall n :: 0 <= n <= |front| ==> front[..n] == arrivals[..n];
    assert arrivals[..|arrivals|] == arrivals;
  }

  /** The state follows the recurrence of RFC 3550 through a whole trace if and only if every two packets in a row
      have non-negative transit times or equal ones. */
  lemma {:induction false} MeetsRfc3550Iff(arrivals: seq<Arrival>)
    requires Counted(arrivals)
    ensures FollowsRfc(arrivals) <==> NeverMisclamped(arrivals)
  {
    if arrivals == [] {
      assert arrivals[..0] == [];
    } else {
      var front := arrivals[..|arrivals| - 1];
      MeetsRfc3550Iff(front);
      FollowsSnoc(arrivals);
      if FollowsRfc(front) {
        assert HoldsRfcValue(front[..|front|]) && front[..|front|] == front;
        NextRfcValue(arrivals);
      }
    }
  }

  /** In particular on every trace whose receive times are not before its send times. */
  lemma MeetsRfc3550(arrivals: seq<Arrival>)
    requires Counted(arrivals) && Causal(arrivals)
    ensures Run(arrivals).jitter == RfcJitter(arrivals)
  {
    MeetsRfc3550Iff(arrivals);
    assert HoldsRfcValue(arrivals[..|arrivals|]) && arrivals[..|arrivals|] == arrivals;
  }

  /** The estimate never leaves the range of what it averages. */
  lemma {:induction false} JitterBounded(arrivals: seq<Arrival>, bound: nat)
    requires Counted(arrivals)
    requires forall i :: 0 < i < |arrivals| ==> TransitDelta(arrivals[i - 1], arrivals[i]) <= bound
    ensures 0.0 <= Run(arrivals).jitter <= bound as real
  {
    if arrivals != [] {
      var n := |arrivals| - 1;
      JitterBounded(arrivals[..n], bound);
      JitterStep(arrivals);
    }
  }

  /** With the receiver's clock behind the sender's, the RFC recurrence is not met. */
  lemma NotMetWhenReceiverLags()
    ensures var trace := [Arrival(0, 100, 50), Arrival(1, 216, 150)];
            Run(trace).jitter == 0.0 && RfcJitter(trace) == 1.0
  {
    var trace := [Arrival(0, 100, 50), Arrival(1, 216, 150)];
    JitterStep(trace);
    assert trace[..1] == [Arrival(0, 100, 50)];
    JitterStep(trace[..1]);
  }

  function ShiftClock(arrivals: seq<Arrival>, offset: int): seq<Arrival>
    requires forall i :: 0 <= i < |arrivals| ==> 0 <= arrivals[i].recvUs + offset
  {
    seq(|arrivals|, i requires 0 <= i < |arrivals| => arrivals[i].(recvUs := arrivals[i].recvUs + offset))
  }

  lemma ShiftFront(arrivals: seq<Arrival>, offset: int)
    requires arrivals != [] && forall i :: 0 <= i < |arrivals| ==> 0 <= arrivals[i].recvUs + offset
    ensures var n := |arrivals| - 1;
            && ShiftClock(arrivals, offset)[..n] == ShiftClock(arrivals[..n], offset)
            && ShiftClock(arrivals, offset)[n] == arrivals[n].(recvUs := arrivals[n].recvUs + offset)
            && (n > 0 ==>
                  ShiftClock(arrivals, offset)[n - 1] == arrivals[n - 1].(recvUs := arrivals[n - 1].recvUs + offset))
  {
  }

  lemma ShiftKeepsDelta(last: Arrival, a: Arrival, offset: int)
    requires last.sendUs <= last.recvUs && last.sendUs <= last.recvUs + offset
    requires a.sendUs <= a.recvUs && a.sendUs <= a.recvUs + offset
    ensures TransitDelta(last.(recvUs := last.recvUs + offset), a.(recvUs := a.recvUs + offset))
         == TransitDelta(last, a)
  {
  }

  /** The two clocks need not agree: a constant receiver offset that keeps the trace causal changes nothing. */
  lemma {:induction false} OffsetInvariant(arrivals: seq<Arrival>, offset: int)
    requires Counted(arrivals) && Causal(arrivals)
    requires forall i :: 0 <= i < |arrivals| ==> arrivals[i].sendUs <= arrivals[i].recvUs + offset
    ensures Run(ShiftClock(arrivals, offset)).jitter == Run(arrivals).jitter
  {
    if arrivals != [] {
      var n := |arrivals| - 1;
      OffsetInvariant(arrivals[..n], offset);
      ShiftFront(arrivals, offset);
      JitterStep(arrivals);
      JitterStep(ShiftClock(arrivals, offset));
      if n > 0 {
        ShiftKeepsDelta(arrivals[n - 1], arrivals[n], offset);
      }
    }
  }

  /** The same packets, with send timestamps off by at most `error` microseconds. */
  ghost predicate SendTimesWithin(a: seq<Arrival>, b: seq<Arrival>, error: nat) {
    && |a| == |b|
    && forall i :: 0 <= i < |a| ==>
         && a[i].sequence == b[i].sequence && a[i].recvUs == b[i].recvUs
         && Abs(a[i].sendUs - b[i].sendUs) <= error
  }

  lemma DeltaIsLipschitz(last: Arrival, a: Arrival, last': Arrival, a': Arrival, error: nat)
    requires last.recvUs == last'.recvUs && Abs(last.sendUs - last'.sendUs) <= error
    requires a.recvUs == a'.recvUs && Abs(a.sendUs - a'.sendUs) <= error
    ensures Abs(TransitDelta(last, a) - TransitDelta(last', a')) <= 2 * error
  {
  }

  /** Timestamps off by at most `error` move the estimate by at most `2 * error`, however long the trace:
      the errors do not accumulate. */
  lemma {:induction false} JitterInsensitive(a: seq<Arrival>, b: seq<Arrival>, error: nat)
    requires Counted(a) && Counted(b) && SendTimesWithin(a, b, error)
    ensures -(2 * error) as real <= Run(a).jitter - Run(b).jitter <= (2 * error) as real
  {
    if a != [] {
      var n := |a| - 1;
      JitterInsensitive(a[..n], b[..n], error);
      JitterStep(a);
      JitterStep(b);
      if n > 0 {
        DeltaIsLipschitz(a[n - 1], a[n], b[n - 1], b[n], error);
        FilterIsConvex(Run(a[..n]).jitter, Run(b[..n]).jitter,
                       TransitDelta(a[n - 1], a[n]), TransitDelta(b[n - 1], b[n]), 2 * error);
      }
    }
  }

  lemma FilterIsConvex(j: real, j': real, d: nat, d': nat, bound: nat)
    requires -(bound as real) <= j - j' <= bound as real && Abs(d - d') <= bound
    ensures -(bound as real) <= (j + (d as real - j) / 16.0) - (j' + (d' as real - j') / 16.0) <= bound as real
  {
    assert (d as real) - (d' as real) == (d - d') as real;
  }
}
