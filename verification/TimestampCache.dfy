/**
  The cached send timestamp (`TimestampCache` in src/udp_packet.rs): a wall-clock reading that is reused
  for a millisecond, advanced by the monotonic clock. Wall time is `offset` nanoseconds ahead of
  monotonic time throughout; returned values are microseconds.
 */
module TimestampCacheSpec {
  import opened Base
  import opened UdpState
  import opened Jitter

  const UPDATE_INTERVAL_US: nat := 1000

  datatype Cache = Cache(cachedUs: nat, lastUpdate: nat)

  /** The monotonic times at which one call reads its clocks; the last two only when it refreshes. */
  datatype Call = Call(check: nat, readWall: nat, readMono: nat)

  /** A returned value and the instant it stands for. */
  datatype Stamp = Stamp(us: nat, at: nat)

  function WallUs(offset: nat, mono: nat): nat {
    (offset + mono) / 1000
  }

  function Refresh(offset: nat, call: Call): Cache {
    Cache(WallUs(offset, call.readWall), call.readMono)
  }

  function Get(c: Cache, offset: nat, call: Call): (Stamp, Cache)
    requires c.lastUpdate <= call.check
  {
    var elapsedUs := (call.check - c.lastUpdate) / 1000;
    if elapsedUs >= UPDATE_INTERVAL_US then
      (Stamp(WallUs(offset, call.readWall), call.readWall), Refresh(offset, call))
    else
      (Stamp(c.cachedUs + elapsedUs, call.check), c)
  }

  /** Clock readings happen in program order, and a refresh reads its two clocks within `delay`. */
  ghost predicate Ordered(from: nat, calls: seq<Call>, delay: nat)
    decreases |calls|
  {
    calls != [] ==>
      && from <= calls[0].check <= calls[0].readWall <= calls[0].readMono <= calls[0].readWall + delay
      && Ordered(calls[0].readMono, calls[1..], delay)
  }

  /** The cache never leads the wall clock and trails it by less than the refresh delay and one microsecond. */
  predicate Agrees(c: Cache, offset: nat, delay: nat) {
    1000 * c.cachedUs <= offset + c.lastUpdate <= 1000 * c.cachedUs + 999 + delay
  }

  function Stamps(c: Cache, offset: nat, calls: seq<Call>, ghost from: nat, ghost delay: nat): (r: seq<Stamp>)
    requires c.lastUpdate <= from && Ordered(from, calls, delay)
    ensures |r| == |calls|
    decreases |calls|
  {
    if calls == [] then []
    else
      var (stamp, c') := Get(c, offset, calls[0]);
      [stamp] + Stamps(c', offset, calls[1..], calls[0].readMono, delay)
  }

  lemma FreshCacheAgrees(offset: nat, call: Call, delay: nat)
    requires call.readWall <= call.readMono <= call.readWall + delay
    ensures Agrees(Refresh(offset, call), offset, delay)
  {
  }

  /** A call a millisecond or more after the last refresh reads the wall clock, returns what it shows and refreshes
      the cache; one before that leaves the cache alone and adds the whole microseconds since the refresh. */
  lemma RefreshedWhenDue(c: Cache, offset: nat, call: Call)
    requires c.lastUpdate <= call.check
    ensures var age, (stamp, c') := call.check - c.lastUpdate, Get(c, offset, call);
            && (age >= 1_000_000 ==>
                  && stamp == Stamp((offset + call.readWall) / 1000, call.readWall)
                  && c' == Cache((offset + call.readWall) / 1000, call.readMono))
            && (age < 1_000_000 ==>
                  && c' == c && stamp == Stamp(c.cachedUs + age / 1000, call.check)
                  && c.cachedUs <= stamp.us <= c.cachedUs + 999)
  {
  }

  /** `us` is what the wall clock showed at `reading`, and at most 999 microseconds more; and that reading was made
      by the call itself, or less than a millisecond before the call checked the clock. */
  predicate ReadAt(us: nat, offset: nat, reading: Call, call: Call) {
    && (reading == call || call.check < reading.readMono + 1_000_000)
    && (offset + reading.readWall) / 1000 <= us <= (offset + reading.readWall) / 1000 + 999
  }

  /** The value of call `i` rests on the reading that filled the cache or on one by a call up to `i`. */
  ghost predicate RestsOnReading(us: nat, offset: nat, first: Call, calls: seq<Call>, i: nat)
    requires i < |calls|
  {
    ReadAt(us, offset, first, calls[i]) || exists j :: 0 <= j <= i && ReadAt(us, offset, calls[j], calls[i])
  }

  ghost predicate AllRecent(stamps: seq<Stamp>, offset: nat, first: Call, calls: seq<Call>) {
    && |stamps| == |calls|
    && forall i :: 0 <= i < |stamps| ==> RestsOnReading(stamps[i].us, offset, first, calls, i)
  }

  /** In every run of calls, every value rests on a reading of the wall clock that is not older than a millisecond. */
  lemma {:induction false} EveryStampRecent(first: Call, offset: nat, calls: seq<Call>, from: nat, delay: nat)
    requires first.readMono <= from && Ordered(from, calls, delay)
    ensures AllRecent(Stamps(Refresh(offset, first), offset, calls, from, delay), offset, first, calls)
    decreases |calls|
  {
    if calls != [] {
      var call := calls[0];
      RefreshedWhenDue(Refresh(offset, first), offset, call);
      var (stamp, c) := Get(Refresh(offset, first), offset, call);
      var holder := if call.check - first.readMono >= 1_000_000 then call else first;
      assert c == Refresh(offset, holder);
      EveryStampRecent(holder, offset, calls[1..], call.readMono, delay);
      PrependRecent(stamp, Stamps(c, offset, calls[1..], call.readMono, delay), offset, first, calls, holder);
    }
  }

  lemma PrependRecent(stamp: Stamp, later: seq<Stamp>, offset: nat, first: Call, calls: seq<Call>, holder: Call)
    requires calls != [] && AllRecent(later, offset, holder, calls[1..]) && (holder == first || holder == calls[0])
    requires ReadAt(stamp.us, offset, holder, calls[0])
    ensures AllRecent([stamp] + later, offset, first, calls)
  {
    var stamps := [stamp] + later;
    forall i | 0 <= i < |stamps| ensures RestsOnReading(stamps[i].us, offset, first, calls, i) {
      if i == 0 {
        assert holder == calls[0] ==> ReadAt(stamp.us, offset, calls[0], calls[0]);
      } else {
        assert stamps[i] == later[i - 1];
        RestsLater(later[i - 1].us, offset, first, calls, holder, i - 1);
      }
    }
  }

  lemma RestsLater(us: nat, offset: nat, first: Call, calls: seq<Call>, holder: Call, i: nat)
    requires calls != [] && i < |calls| - 1 && (holder == first || holder == calls[0])
    requires RestsOnReading(us, offset, holder, calls[1..], i)
    ensures RestsOnReading(us, offset, first, calls, i + 1)
  {
    if ReadAt(us, offset, holder, calls[i + 1]) {
      assert holder == calls[0] ==> ReadAt(us, offset, calls[0], calls[i + 1]);
    } else {
      var j :| 0 <= j <= i && ReadAt(us, offset, calls[1..][j], calls[1..][i]);
      assert ReadAt(us, offset, calls[j + 1], calls[i + 1]);
    }
  }

  /** Never ahead of the true microsecond, and behind it by less than the refresh delay plus 2 microseconds. */
  predicate Close(s: Stamp, offset: nat, delay: nat) {
    s.us <= WallUs(offset, s.at) && 1000 * (WallUs(offset, s.at) - s.us) < delay + 2000
  }

  /** Every value of every run of calls is close to the wall clock at the instant it stands for. */
  lemma {:induction false} StampsClose(c: Cache, offset: nat, calls: seq<Call>, from: nat, delay: nat)
    requires c.lastUpdate <= from && Ordered(from, calls, delay) && Agrees(c, offset, delay)
    ensures forall i :: 0 <= i < |calls| ==> Close(Stamps(c, offset, calls, from, delay)[i], offset, delay)
    decreases |calls|
  {
    if calls != [] {
      var (stamp, c') := Get(c, offset, calls[0]);
      assert Close(stamp, offset, delay);
      StampsClose(c', offset, calls[1..], calls[0].readMono, delay);
    }
  }

  /** `us` was returned no later than `t`: no later call can return less. */
  predicate Floor(c: Cache, offset: nat, us: nat, t: nat)
  {
    c.lastUpdate <= t && us <= c.cachedUs + (t - c.lastUpdate) / 1000 && us <= WallUs(offset, t)
  }

  lemma {:induction false} StampsAbove(c: Cache, offset: nat, calls: seq<Call>, from: nat, delay: nat, us: nat)
    requires Ordered(from, calls, delay) && Agrees(c, offset, delay) && Floor(c, offset, us, from)
    ensures forall i :: 0 <= i < |calls| ==> us <= Stamps(c, offset, calls, from, delay)[i].us
    decreases |calls|
  {
    if calls != [] {
      var (stamp, c') := Get(c, offset, calls[0]);
      assert Floor(c', offset, us, calls[0].readMono);
      StampsAbove(c', offset, calls[1..], calls[0].readMono, delay, us);
    }
  }

  ghost predicate NonDecreasing(r: seq<Stamp>) {
    forall i, j :: 0 <= i <= j < |r| ==> r[i].us <= r[j].us
  }

  lemma PrependNonDecreasing(first: Stamp, rest: seq<Stamp>)
    requires NonDecreasing(rest) && forall i :: 0 <= i < |rest| ==> first.us <= rest[i].us
    ensures NonDecreasing([first] + rest)
  {
    forall i, j | 0 <= i <= j < |rest| + 1
      ensures ([first] + rest)[i].us <= ([first] + rest)[j].us
    {
      if i > 0 {
        assert rest[i - 1].us <= rest[j - 1].us;
      }
    }
  }

  /** Timestamps never go backwards. */
  lemma {:induction false} StampsMonotone(c: Cache, offset: nat, calls: seq<Call>, from: nat, delay: nat)
    requires c.lastUpdate <= from && Ordered(from, calls, delay) && Agrees(c, offset, delay)
    ensures NonDecreasing(Stamps(c, offset, calls, from, delay))
    decreases |calls|
  {
    if calls != [] {
      var (stamp, c') := Get(c, offset, calls[0]);
      StampsMonotone(c', offset, calls[1..], calls[0].readMono, delay);
      StampsAbove(c', offset, calls[1..], calls[0].readMono, delay, stamp.us);
      PrependNonDecreasing(stamp, Stamps(c', offset, calls[1..], calls[0].readMono, delay));
    }
  }

  /** The largest error of a cached timestamp, in whole microseconds. */
  function StampError(delay: nat): (e: nat)
    ensures 1000 * e <= delay + 1999 < 1000 * e + 1000
  {
    (delay + 1999) / 1000
  }

  // ---------------------------------------------------------------- one cache per thread

  /** A thread of the sender: its cache, and the calls made on it from time `from` on. */
  datatype Thread = Thread(cache: Cache, from: nat, calls: seq<Call>)

  /** All threads read the same two clocks. */
  ghost predicate Works(th: Thread, offset: nat, delay: nat) {
    th.cache.lastUpdate <= th.from && Ordered(th.from, th.calls, delay) && Agrees(th.cache, offset, delay)
  }

  /** Some thread's cache returned it. */
  ghost predicate Issued(s: Stamp, threads: seq<Thread>, offset: nat, delay: nat) {
    exists k, i :: 0 <= k < |threads| && Works(threads[k], offset, delay) && 0 <= i < |threads[k].calls|
      && Stamps(threads[k].cache, offset, threads[k].calls, threads[k].from, delay)[i] == s
  }

  lemma IssuedClose(s: Stamp, threads: seq<Thread>, offset: nat, delay: nat)
    requires Issued(s, threads, offset, delay)
    ensures Close(s, offset, delay)
  {
    var k, i :| 0 <= k < |threads| && Works(threads[k], offset, delay) && 0 <= i < |threads[k].calls|
      && Stamps(threads[k].cache, offset, threads[k].calls, threads[k].from, delay)[i] == s;
    StampsClose(threads[k].cache, offset, threads[k].calls, threads[k].from, delay);
  }

  /** When a sender moves between threads, its stamps step back by no more than the error of a stamp. */
  lemma StepBackBounded(earlier: Stamp, later: Stamp, threads: seq<Thread>, offset: nat, delay: nat)
    requires Issued(earlier, threads, offset, delay) && Issued(later, threads, offset, delay)
    requires earlier.at <= later.at
    ensures earlier.us <= later.us + StampError(delay)
  {
    IssuedClose(earlier, threads, offset, delay);
    IssuedClose(later, threads, offset, delay);
  }

  /** The values of one cache come in the order of the instants they stand for. */
  lemma {:induction false} StampsInOrder(c: Cache, offset: nat, calls: seq<Call>, from: nat, delay: nat)
    requires c.lastUpdate <= from && Ordered(from, calls, delay)
    ensures forall i :: 0 <= i < |calls| ==> from <= Stamps(c, offset, calls, from, delay)[i].at
    ensures InTimeOrder(Stamps(c, offset, calls, from, delay))
    decreases |calls|
  {
    if calls != [] {
      var (stamp, c') := Get(c, offset, calls[0]);
      StampsInOrder(c', offset, calls[1..], calls[0].readMono, delay);
      PrependInOrder(stamp, Stamps(c', offset, calls[1..], calls[0].readMono, delay));
    }
  }

  ghost predicate InTimeOrder(r: seq<Stamp>) {
    forall i, j :: 0 <= i <= j < |r| ==> r[i].at <= r[j].at
  }

  lemma PrependInOrder(first: Stamp, rest: seq<Stamp>)
    requires InTimeOrder(rest) && forall i :: 0 <= i < |rest| ==> first.at <= rest[i].at
    ensures InTimeOrder([first] + rest)
  {
    forall i, j | 0 <= i <= j < |rest| + 1
      ensures ([first] + rest)[i].at <= ([first] + rest)[j].at
    {
      if i > 0 {
        assert rest[i - 1].at <= rest[j - 1].at;
      }
    }
  }

  lemma OneThreadMonotone(threads: seq<Thread>, a: Stamp, b: Stamp, offset: nat, delay: nat)
    requires |threads| <= 1 && Issued(a, threads, offset, delay) && Issued(b, threads, offset, delay) && a.at < b.at
    ensures a.us <= b.us
  {
    var th := threads[0];
    var stamps := Stamps(th.cache, offset, th.calls, th.from, delay);
    StampsInOrder(th.cache, offset, th.calls, th.from, delay);
    StampsMonotone(th.cache, offset, th.calls, th.from, delay);
    var i :| 0 <= i < |stamps| && stamps[i] == a;
    var j :| 0 <= j < |stamps| && stamps[j] == b;
  }

  /** A call whose clock readings all fall on one instant. */
  function At(t: nat): Call {
    Call(t, t, t)
  }

  /** Two threads of a host: one read the clocks when the wall clock showed `offset` microseconds exactly, the
      other 999 nanoseconds later. */
  function TwoThreads(offset: nat): seq<Thread> {
    var t := 999 * offset;
    [Thread(Refresh(offset, At(t)), t, [At(t + 1500)]), Thread(Refresh(offset, At(t + 999)), t + 999, [At(t + 1600)])]
  }

  lemma MicrosOf(us: nat, rest: nat)
    requires rest < 1000
    ensures (1000 * us + rest) / 1000 == us
  {
  }

  /** A sender that goes from the first to the second is stamped one microsecond lower 100 nanoseconds later. */
  lemma StepBackHappens(offset: nat, delay: nat)
    ensures Issued(Stamp(offset + 1, 999 * offset + 1500), TwoThreads(offset), offset, delay)
    ensures Issued(Stamp(offset, 999 * offset + 1600), TwoThreads(offset), offset, delay)
  {
    LoneStamp(TwoThreads(offset), 0, offset, 0, 1500, delay);
    LoneStamp(TwoThreads(offset), 1, offset, 999, 601, delay);
  }

  /** A thread that refreshed its cache `late` nanoseconds after that instant and makes one call, `wait` later. */
  lemma LoneStamp(threads: seq<Thread>, k: nat, offset: nat, late: nat, wait: nat, delay: nat)
    requires k < |threads| && late < 1000 && wait < 2000
    requires var t := 999 * offset + late;
             threads[k] == Thread(Refresh(offset, At(t)), t, [At(t + wait)])
    ensures Issued(Stamp(offset + wait / 1000, 999 * offset + late + wait), threads, offset, delay)
  {
    var t := 999 * offset + late;
    MicrosOf(offset, late);
    LoneCall(Cache(offset, t), offset, t + wait, delay);
    assert Stamps(threads[k].cache, offset, threads[k].calls, threads[k].from, delay)[0]
        == Stamp(offset + wait / 1000, t + wait);
  }

  lemma LoneCall(c: Cache, offset: nat, at: nat, delay: nat)
    requires Agrees(c, offset, 0) && c.lastUpdate <= at < c.lastUpdate + 1_000_000
    ensures Works(Thread(c, c.lastUpdate, [At(at)]), offset, delay)
    ensures Stamps(c, offset, [At(at)], c.lastUpdate, delay)
         == [Stamp(c.cachedUs + (at - c.lastUpdate) / 1000, at)]
  {
    assert [At(at)][1..] == [];
  }

  /** No stamp is lower than another that stands for an earlier instant, on hosts where up to `n` threads send. */
  ghost predicate MonotoneUpTo(n: nat, offset: nat, delay: nat) {
    forall threads, a, b ::
      |threads| <= n && Issued(a, threads, offset, delay) && Issued(b, threads, offset, delay) && a.at < b.at ==>
        a.us <= b.us
  }

  /** Send timestamps are sure never to decrease if and only if the sender stays on one thread. */
  lemma MonotoneIffOneThread(n: nat, offset: nat, delay: nat)
    ensures MonotoneUpTo(n, offset, delay) <==> n <= 1
  {
    if n <= 1 {
      forall threads, a, b |
        |threads| <= n && Issued(a, threads, offset, delay) && Issued(b, threads, offset, delay) && a.at < b.at
        ensures a.us <= b.us
      {
        OneThreadMonotone(threads, a, b, offset, delay);
      }
    } else {
      StepBackHappens(offset, delay);
    }
  }

  /** Caching moves the measured jitter by at most twice the error of a stamp: whichever thread stamped each
      packet, and whatever the network did to the packets. `stamps[i]` is the stamp of the i-th arrival. */
  lemma CachingBarelyMovesJitter(threads: seq<Thread>, offset: nat, delay: nat, stamps: seq<Stamp>,
                                 exact: seq<Arrival>, cached: seq<Arrival>)
    requires |stamps| == |exact| == |cached| && Counted(exact)
    requires forall i :: 0 <= i < |stamps| ==> Issued(stamps[i], threads, offset, delay)
    requires forall i :: 0 <= i < |stamps| ==>
               exact[i].sendUs == WallUs(offset, stamps[i].at) && cached[i] == exact[i].(sendUs := stamps[i].us)
    ensures var bound := (2 * StampError(delay)) as real;
            -bound <= Run(cached).jitter - Run(exact).jitter <= bound
  {
    forall i | 0 <= i < |stamps|
      ensures cached[i].sequence == exact[i].sequence && cached[i].recvUs == exact[i].recvUs
      ensures Abs(cached[i].sendUs - exact[i].sendUs) <= StampError(delay)
    {
      IssuedClose(stamps[i], threads, offset, delay);
    }
    JitterInsensitive(cached, exact, StampError(delay));
  }
}

/** The cache as an object reading the host's clocks. */
module TimestampCaches {
  import opened Clocks
  import opened TimestampCacheSpec

  class TimestampCache {
    var cachedTimestampUs: nat
    var lastUpdate: nat
    const clock: Clock

    function State(): Cache
      reads this
    {
      Cache(cachedTimestampUs, lastUpdate)
    }

    constructor (clock: Clock)
      modifies clock
      ensures this.clock == clock
      ensures exists call: Call :: old(clock.now) <= call.readWall <= call.readMono == clock.now
                && call.readMono <= call.readWall + clock.maxPause
                && State() == Refresh(clock.wallOffset, call)
    {
      this.clock := clock;
      var wall, g := clock.Read();
      cachedTimestampUs := (clock.wallOffset + wall) / 1000;
      var mono, h := clock.Read();
      lastUpdate := mono;
      ghost var call := Call(wall, wall, mono);
    }

    method GetTimestamp() returns (us: nat, ghost call: Call)
      requires lastUpdate <= clock.now
      modifies this, clock
      ensures old(clock.now) <= call.check <= call.readWall <= call.readMono == clock.now
      ensures call.readMono <= call.readWall + clock.maxPause
      ensures var (stamp, cache) := Get(old(State()), clock.wallOffset, call);
              us == stamp.us && State() == cache
    {
      var check, g0 := clock.Read();
      call := Call(check, check, check);
      var elapsedUs := (check - lastUpdate) / 1000;
      if elapsedUs >= UPDATE_INTERVAL_US {
        var wall, g1 := clock.Read();
        cachedTimestampUs := (clock.wallOffset + wall) / 1000;
        var mono, g2 := clock.Read();
        lastUpdate := mono;
        us := cachedTimestampUs;
        call := Call(check, wall, mono);
      } else {
        us := cachedTimestampUs + elapsedUs;
      }
    }
  }
}
