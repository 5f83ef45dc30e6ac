/**
  What "lost" means, and the gap tracker that estimates it.

  A trace is the sequence of packet numbers in arrival order, duplicates and reordering included.
 */
module Loss {
  import opened Base

  /** Numbers a sender uses before its 32-bit sequence wraps. */
  ghost predicate Unwrapped(t: seq<nat>) {
    forall i :: 0 <= i < |t| ==> t[i] < U32 - 1
  }

  ghost function Delivered(t: seq<nat>): set<int> {
    set x: int | x in t
  }

  ghost function Range(lo: int, hi: int): set<int>
    decreases hi - lo
  {
    if hi <= lo then {} else Range(lo, hi - 1) + {hi - 1}
  }

  /** The numbers of `[lo, hi)` that never arrived. */
  ghost function Missing(t: seq<nat>, lo: nat, hi: nat): set<int> {
    Range(lo, hi) - Delivered(t)
  }

  function MaxOf(t: seq<nat>): nat
    requires t != []
  {
    var last := t[|t| - 1];
    if |t| == 1 then last else Max(MaxOf(t[..|t| - 1]), last)
  }

  lemma {:induction false} MaxOfIsMaximum(t: seq<nat>)
    requires t != []
    ensures MaxOf(t) in t
    ensures forall i :: 0 <= i < |t| ==> t[i] <= MaxOf(t)
  {
    if |t| > 1 {
      MaxOfIsMaximum(t[..|t| - 1]);
      assert t == t[..|t| - 1] + [t[|t| - 1]];
    }
  }

  // ---------------------------------------------------------------- cardinalities

  lemma {:induction false} InRange(lo: int, hi: int, x: int)
    ensures x in Range(lo, hi) <==> lo <= x < hi
    decreases hi - lo
  {
    if lo < hi {
      InRange(lo, hi - 1, x);
    }
  }

  lemma {:induction false} RangeSize(lo: int, hi: int)
    requires lo <= hi
    ensures |Range(lo, hi)| == hi - lo
    decreases hi - lo
  {
    if lo < hi {
      RangeSize(lo, hi - 1);
      InRange(lo, hi - 1, hi - 1);
    }
  }

  lemma SubsetSize<T>(a: set<T>, b: set<T>)
    requires a <= b
    ensures |a| <= |b| && |b - a| == |b| - |a|
  {
    assert b == a + (b - a);
  }

  lemma Snoc(t: seq<nat>)
    requires t != []
    ensures Delivered(t) == Delivered(t[..|t| - 1]) + {t[|t| - 1]}
  {
    assert t == t[..|t| - 1] + [t[|t| - 1]];
  }

  /** A trace delivers as many numbers as it has packets exactly when no number is repeated. */
  lemma {:induction false} DeliveredSize(t: seq<nat>)
    ensures |Delivered(t)| <= |t|
    ensures |Delivered(t)| == |t| <==> Distinct(t)
  {
    if t != [] {
      var front := t[..|t| - 1];
      DeliveredSize(front);
      Snoc(t);
      assert Distinct(t) <==> Distinct(front) && t[|t| - 1] !in front;
    }
  }

  lemma MissingSize(t: seq<nat>, lo: nat, hi: nat)
    requires lo <= hi
    ensures |Missing(t, lo, hi)| == hi - lo - |Range(lo, hi) * Delivered(t)|
  {
    RangeSize(lo, hi);
    var inside := Range(lo, hi) * Delivered(t);
    SubsetSize(inside, Range(lo, hi));
    assert Range(lo, hi) - inside == Missing(t, lo, hi);
  }

  lemma MissingBelowMax(t: seq<nat>)
    requires t != []
    ensures |Missing(t, 0, MaxOf(t) + 1)| == MaxOf(t) + 1 - |Delivered(t)|
  {
    MaxOfIsMaximum(t);
    forall x | x in Delivered(t) ensures x in Range(0, MaxOf(t) + 1) {
      InRange(0, MaxOf(t) + 1, x);
    }
    MissingSize(t, 0, MaxOf(t) + 1);
    assert Range(0, MaxOf(t) + 1) * Delivered(t) == Delivered(t);
  }

  // ---------------------------------------------------------------- the gap tracker

  /** `expected_seq`, `packets_lost` and `out_of_order` of one receiver. */
  datatype Gap = Gap(expected: nat, lost: nat, late: nat)

  function Observe(g: Gap, number: nat): Gap {
    if number > g.expected then
      Gap(Succ32(number), g.lost + (number - g.expected), g.late)
    else if number < g.expected then
      g.(late := g.late + 1)
    else
      g.(expected := Succ32(g.expected))
  }

  /** A tracker that starts out expecting `first`. */
  function Track(first: nat, t: seq<nat>): Gap {
    if t == [] then Gap(first, 0, 0) else Observe(Track(first, t[..|t| - 1]), t[|t| - 1])
  }

  lemma TrackSnoc(first: nat, t: seq<nat>, number: nat)
    ensures Track(first, t + [number]) == Observe(Track(first, t), number)
  {
    assert (t + [number])[..|t|] == t;
  }

  // ---------------------------------------------------------------- the same tracker on positions

  /** What the tracker would do if numbers never wrapped, so that a packet's number is its position in the stream. */
  function Follow(g: Gap, position: nat): Gap {
    if position > g.expected then
      Gap(position + 1, g.lost + (position - g.expected), g.late)
    else if position < g.expected then
      g.(late := g.late + 1)
    else
      g.(expected := position + 1)
  }

  function TrackPositions(first: nat, t: seq<nat>): Gap {
    if t == [] then Gap(first, 0, 0) else Follow(TrackPositions(first, t[..|t| - 1]), t[|t| - 1])
  }

  /** `expected` is one past the highest position so far; every packet that was not late filled one place
      of `[first, expected)`, and every other place was counted as lost. */
  lemma {:induction false} TrackInvariant(first: nat, t: seq<nat>)
    ensures var g := TrackPositions(first, t);
            && g.expected == (if t == [] then first else Max(first, MaxOf(t) + 1))
            && g.late <= |t|
            && g.lost + (|t| - g.late) == g.expected - first
  {
    if t != [] {
      TrackInvariant(first, t[..|t| - 1]);
    }
  }

  /** Late packets that filled a place of the tracked range for the first time: their gap had been
      counted as lost, and is not given back. */
  function Recovered(first: nat, t: seq<nat>): nat {
    if t == [] then 0
    else
      var front, last := t[..|t| - 1], t[|t| - 1];
      Recovered(first, front)
        + if first <= last < TrackPositions(first, front).expected && last !in front then 1 else 0
  }

  lemma AllBelowExpected(first: nat, t: seq<nat>)
    ensures forall x :: x in Delivered(t) ==> x < TrackPositions(first, t).expected
  {
    if t != [] {
      TrackInvariant(first, t);
      MaxOfIsMaximum(t);
    }
  }

  /** One more packet fills its own place and no other. */
  lemma NextPlace(first: nat, seen: set<int>, last: nat, e: nat, e': nat)
    requires forall x :: x in seen ==> x < e
    requires e' == if last >= e then last + 1 else e
    ensures var before, after := Range(first, e) * seen, Range(first, e') * (seen + {last});
            |after| == |before| + if first <= last && last !in seen then 1 else 0
  {
    var before, after := Range(first, e) * seen, Range(first, e') * (seen + {last});
    var added: set<int> := if first <= last && last !in seen then {last} else {};
    forall x: int ensures x in after <==> x in before + added {
      InRange(first, e, x);
      InRange(first, e', x);
    }
    assert after == before + added;
    assert added !! before;
  }

  /** The places of `[first, expected)` that are filled were filled on time or recovered. */
  lemma {:induction false} FilledPlaces(first: nat, t: seq<nat>)
    ensures var g := TrackPositions(first, t);
            |Range(first, g.expected) * Delivered(t)| == (|t| - g.late) + Recovered(first, t)
  {
    if t != [] {
      var front, last := t[..|t| - 1], t[|t| - 1];
      FilledPlaces(first, front);
      AllBelowExpected(first, front);
      TrackInvariant(first, front);
      Snoc(t);
      NextPlace(first, Delivered(front), last, TrackPositions(first, front).expected,
                TrackPositions(first, t).expected);
    }
  }

  /** The loss count against the truth: what is really missing from `[first, expected)`, plus exactly the
      packets that were counted lost and turned up later. */
  lemma LostIsMissingPlusRecovered(first: nat, t: seq<nat>)
    ensures var g := TrackPositions(first, t);
            g.lost == |Missing(t, first, g.expected)| + Recovered(first, t)
  {
    TrackInvariant(first, t);
    FilledPlaces(first, t);
    MissingSize(t, first, TrackPositions(first, t).expected);
  }

  lemma {:induction false} RecoveredAtMostLate(first: nat, t: seq<nat>)
    ensures Recovered(first, t) <= TrackPositions(first, t).late
  {
    if t != [] {
      RecoveredAtMostLate(first, t[..|t| - 1]);
    }
  }

  /** The i-th packet is late when it comes from before the tracked range, or not after every packet so far. */
  ghost predicate IsLate(first: nat, t: seq<nat>, i: nat)
    requires i < |t|
  {
    t[i] < first || exists j :: 0 <= j < i && t[i] <= t[j]
  }

  ghost function LatePackets(first: nat, t: seq<nat>): set<nat> {
    set i: nat | i < |t| && IsLate(first, t, i)
  }

  /** The late count is the number of late packets. */
  lemma {:induction false} LateCountsLate(first: nat, t: seq<nat>)
    ensures TrackPositions(first, t).late == |LatePackets(first, t)|
  {
    if t != [] {
      LateCountsLate(first, t[..|t| - 1]);
      LastIsLate(first, t);
      LateSnoc(first, t);
    }
  }

  lemma LateSnoc(first: nat, t: seq<nat>)
    requires t != []
    ensures var n := |t| - 1;
            |LatePackets(first, t)| == |LatePackets(first, t[..n])| + if IsLate(first, t, n) then 1 else 0
  {
    var n := |t| - 1;
    forall i: nat | i < n ensures IsLate(first, t, i) <==> IsLate(first, t[..n], i) {
      assert forall j :: 0 <= j <= i ==> t[..n][j] == t[j];
    }
    assert LatePackets(first, t) == LatePackets(first, t[..n]) + if IsLate(first, t, n) then {n} else {};
  }

  lemma LastIsLate(first: nat, t: seq<nat>)
    requires t != []
    ensures var n := |t| - 1;
            IsLate(first, t, n) <==> t[n] < TrackPositions(first, t[..n]).expected
  {
    var n := |t| - 1;
    var front := t[..n];
    TrackInvariant(first, front);
    if front != [] {
      MaxOfIsMaximum(front);
      if t[n] <= MaxOf(front) {
        var j :| 0 <= j < n && front[j] == MaxOf(front);
        assert t[n] <= t[j];
      }
    }
  }

  // ---------------------------------------------------------------- 32-bit numbers

  /** The numbers packets carry: their positions, cut down to 32 bits. */
  function Numbered(t: seq<nat>): seq<nat> {
    seq(|t|, i requires 0 <= i < |t| => t[i] % U32)
  }

  function Narrow(g: Gap): Gap {
    g.(expected := g.expected % U32)
  }

  /** The wrap does not mislead a tracker that expects position `expected`: the packet is the expected one;
      or it is ahead, in the same round of 2^32 numbers; or it is behind, and its number is lower too. */
  predicate NotMisled(expected: nat, position: nat) {
    || position == expected
    || (position > expected && position / U32 == expected / U32)
    || (position < expected && position % U32 < expected % U32)
  }

  ghost predicate WrapHarmless(first: nat, t: seq<nat>) {
    forall i :: 0 <= i < |t| ==> NotMisled(TrackPositions(first, t[..i]).expected, t[i])
  }

  lemma ObserveIsFollowIff(g: Gap, position: nat)
    ensures Observe(Narrow(g), position % U32) == Narrow(Follow(g, position)) <==> NotMisled(g.expected, position)
  {
    NextNumber(position);
  }

  /** The tracker, fed with numbers, agrees with the one on positions. */
  predicate Agrees(first: nat, t: seq<nat>) {
    Track(first % U32, Numbered(t)) == Narrow(TrackPositions(first, t))
  }

  /** It did so after every packet. */
  ghost predicate FollowsPositions(first: nat, t: seq<nat>) {
    forall n :: 0 <= n <= |t| ==> Agrees(first, t[..n])
  }

  lemma AgreesSnoc(first: nat, t: seq<nat>, last: nat)
    requires Agrees(first, t)
    ensures Agrees(first, t + [last]) <==> NotMisled(TrackPositions(first, t).expected, last)
  {
    assert (t + [last])[..|t|] == t;
    assert Numbered(t + [last]) == Numbered(t) + [last % U32];
    TrackSnoc(first % U32, Numbered(t), last % U32);
    ObserveIsFollowIff(TrackPositions(first, t), last);
  }

  lemma Prefixes(t: seq<nat>, last: nat)
    ensures forall n :: 0 <= n <= |t| ==> (t + [last])[..n] == t[..n]
    ensures (t + [last])[..|t| + 1] == t + [last] && t[..|t|] == t
  {
  }

  /** It does so exactly when the wrap misleads it at no packet. */
  lemma {:induction false} FollowsIffWrapHarmless(first: nat, t: seq<nat>)
    ensures FollowsPositions(first, t) <==> WrapHarmless(first, t)
  {
    if t == [] {
      assert t[..0] == [] && Agrees(first, []);
    } else {
      var front, last := t[..|t| - 1], t[|t| - 1];
      assert t == front + [last];
      Prefixes(front, last);
      FollowsIffWrapHarmless(first, front);
      if FollowsPositions(first, front) {
        assert Agrees(first, front[..|front|]);
        AgreesSnoc(first, front, last);
      }
      FollowsSnoc(first, front, last);
      HarmlessSnoc(first, front, last);
    }
  }

  lemma FollowsSnoc(first: nat, front: seq<nat>, last: nat)
    ensures FollowsPositions(first, front + [last]) <==> FollowsPositions(first, front) && Agrees(first, front + [last])
  {
    Prefixes(front, last);
    var t := front + [last];
    if FollowsPositions(first, t) {
      assert Agrees(first, t[..|t|]);
      forall n | 0 <= n <= |front| ensures Agrees(first, front[..n]) {
        assert Agrees(first, t[..n]);
      }
    }
  }

  lemma HarmlessSnoc(first: nat, front: seq<nat>, last: nat)
    ensures WrapHarmless(first, front + [last])
       <==> WrapHarmless(first, front) && NotMisled(TrackPositions(first, front).expected, last)
  {
    Prefixes(front, last);
    var t := front + [last];
    if WrapHarmless(first, t) {
      forall i | 0 <= i < |front| ensures NotMisled(TrackPositions(first, front[..i]).expected, front[i]) {
        assert NotMisled(TrackPositions(first, t[..i]).expected, t[i]);
      }
      assert NotMisled(TrackPositions(first, t[..|front|]).expected, t[|front|]);
    }
  }

  /** What the tracker reports on such a trace: the places missing from `[first, expected)` plus the recovered
      ones, so never less than is really missing, and more by at most the number of late packets. */
  lemma GapSandwich(first: nat, t: seq<nat>)
    requires WrapHarmless(first, t)
    ensures var g, e := Track(first % U32, Numbered(t)), TrackPositions(first, t).expected;
            && g.expected == e % U32 && g.lost + (|t| - g.late) == e - first
            && g.lost == |Missing(t, first, e)| + Recovered(first, t)
            && |Missing(t, first, e)| <= g.lost <= |Missing(t, first, e)| + g.late
            && g.late == |LatePackets(first, t)|
  {
    FollowsIffWrapHarmless(first, t);
    assert Agrees(first, t[..|t|]) && t[..|t|] == t;
    TrackInvariant(first, t);
    LostIsMissingPlusRecovered(first, t);
    RecoveredAtMostLate(first, t);
    LateCountsLate(first, t);
  }

  /** Below 2^32 - 1 numbers are positions. */
  lemma {:induction false} UnwrappedFollows(first: nat, t: seq<nat>)
    requires Unwrapped(t) && first < U32 - 1
    ensures Track(first, t) == TrackPositions(first, t)
  {
    if t != [] {
      UnwrappedFollows(first, t[..|t| - 1]);
      TrackInvariant(first, t[..|t| - 1]);
    }
  }

  lemma UnwrappedHarmless(first: nat, t: seq<nat>)
    requires Unwrapped(t) && first < U32 - 1
    ensures WrapHarmless(first, t)
  {
    forall i | 0 <= i < |t| ensures NotMisled(TrackPositions(first, t[..i]).expected, t[i]) {
      ExpectedUnwrapped(first, t[..i]);
      FirstRound(TrackPositions(first, t[..i]).expected, t[i]);
    }
  }

  lemma ExpectedUnwrapped(first: nat, t: seq<nat>)
    requires Unwrapped(t) && first < U32 - 1
    ensures TrackPositions(first, t).expected < U32
  {
    TrackInvariant(first, t);
    if t != [] {
      MaxOfIsMaximum(t);
    }
  }

  lemma FirstRound(expected: nat, position: nat)
    requires expected < U32 && position < U32
    ensures NotMisled(expected, position)
  {
  }

  lemma TrackPair(first: nat, next: nat)
    ensures Track(first, [first, next]) == Observe(Gap(Succ32(first), 0, 0), next)
    ensures TrackPositions(first, [first, next]) == Follow(Gap(first + 1, 0, 0), next)
  {
    assert [first, next][..1] == [first] && [first][..0] == [];
    assert Track(first, [first]) == Observe(Track(first, []), first);
    assert TrackPositions(first, [first]) == Follow(TrackPositions(first, []), first);
  }

  /** The condition fails when a packet is lost just before the wrap: its successor is taken for a late one. */
  lemma GapAtWrapMisread()
    ensures var t := [0xFFFF_FFFE, 0x1_0000_0000];
            && TrackPositions(t[0], t) == Gap(0x1_0000_0001, 1, 0)
            && Track(t[0], Numbered(t)) == Gap(0xFFFF_FFFF, 0, 1)
  {
    TrackPair(0xFFFF_FFFE, 0x1_0000_0000);
    TrackPair(0xFFFF_FFFE, 0);
    assert Numbered([0xFFFF_FFFE, 0x1_0000_0000]) == [0xFFFF_FFFE, 0];
  }

  /** A stream sent from 0 and delivered whole and in order shows no loss, even across the 32-bit wrap. */
  lemma {:induction false} LosslessAcrossWrap(n: nat)
    ensures Track(0, seq(n, i requires 0 <= i => i % U32)) == Gap(n % U32, 0, 0)
  {
    if n > 0 {
      LosslessAcrossWrap(n - 1);
      var t := seq(n, i requires 0 <= i => i % U32);
      TrackSnoc(0, seq(n - 1, i requires 0 <= i => i % U32), (n - 1) % U32);
      assert t == seq(n - 1, i requires 0 <= i => i % U32) + [(n - 1) % U32];
      NextNumber(n - 1);
    }
  }

  lemma NextNumber(i: nat)
    ensures Succ32(i % U32) == (i + 1) % U32
  {
  }
}
