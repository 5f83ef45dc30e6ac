/**
  The older rate limiter in the server's send loops (`send_udp_data` and `send_data` in src/server.rs):
  at most once a millisecond it compares the bytes sent since the last check with the target rate and
  sleeps off the excess. Seconds and f64 values are reals.
 */
module WindowedLimiter {

  const CHECK_INTERVAL: real := 0.001
  const SLEEP_FLOOR: real := 0.0001

  /** One successful send: its size, the time until the check that follows it, and how much longer
      than necessary the closing clock read of that check takes. */
  datatype Send = Send(bytes: nat, delay: real, over: real)

  datatype Window = Window(start: real, end: real, bytes: nat, slept: bool)

  predicate Plausible(sends: seq<Send>) {
    forall i :: 0 <= i < |sends| ==> 0.0 <= sends[i].delay && 0.0 <= sends[i].over
  }

  function BytesOf(sends: seq<Send>): nat {
    if sends == [] then 0 else BytesOf(sends[..|sends| - 1]) + sends[|sends| - 1].bytes
  }

  function WindowBytes(windows: seq<Window>): nat {
    if windows == [] then 0 else WindowBytes(windows[..|windows| - 1]) + windows[|windows| - 1].bytes
  }

  datatype Limiter = Limiter(open: nat, lastCheck: real, now: real, windows: seq<Window>)

  /** The state after one more send: time passes, the bytes join the open window, and a due check closes it. */
  function AfterSend(l: Limiter, s: Send, target: nat): Limiter
    requires 1 <= target
  {
    var now, open := l.now + s.delay, l.open + s.bytes;
    var elapsed := now - l.lastCheck;
    if elapsed < CHECK_INTERVAL then Limiter(open, l.lastCheck, now, l.windows)
    else
      var sleep := SleepTime(open, target, elapsed);
      var slept := sleep > SLEEP_FLOOR;
      var end := now + (if slept then sleep else 0.0) + s.over;
      Limiter(0, end, end, l.windows + [Window(l.lastCheck, end, open, slept)])
  }

  function AfterSends(target: nat, start: real, sends: seq<Send>): Limiter
    requires 1 <= target
  {
    if sends == [] then Limiter(0, start, start, [])
    else AfterSend(AfterSends(target, start, sends[..|sends| - 1]), sends[|sends| - 1], target)
  }

  /** Bytes the target rate allows in `elapsed` seconds. */
  function Due(target: nat, elapsed: real): real {
    (target as real) * elapsed
  }

  /** What a closed window may carry: the target rate if the sender was made to wait, 10% more otherwise. */
  predicate Within(w: Window, target: nat) {
    var due := Due(target, w.end - w.start);
    && w.start < w.end
    && (w.bytes as real) <= 1.1 * due
    && (w.slept ==> (w.bytes as real) <= due)
  }

  /** The windows lie end to end from `start` to `end`. */
  predicate Tiles(windows: seq<Window>, start: real, end: real) {
    if windows == [] then start == end
    else
      var last := windows[|windows| - 1];
      last.end == end && Tiles(windows[..|windows| - 1], start, last.start)
  }

  lemma DueAdds(target: nat, a: real, b: real)
    ensures Due(target, a + b) == Due(target, a) + Due(target, b)
  {
  }

  lemma {:induction false} TiledWindowsWithin(windows: seq<Window>, target: nat, start: real, end: real)
    requires Tiles(windows, start, end)
    requires forall i :: 0 <= i < |windows| ==> Within(windows[i], target)
    ensures (WindowBytes(windows) as real) <= 1.1 * Due(target, end - start)
  {
    if windows != [] {
      var last := windows[|windows| - 1];
      TiledWindowsWithin(windows[..|windows| - 1], target, start, last.start);
      DueAdds(target, last.start - start, end - last.start);
    }
  }

  /** The sleep that makes up for `bytes` in `elapsed` seconds; 0 when they were due anyway. */
  function SleepTime(bytes: nat, target: nat, elapsed: real): real
    requires 1 <= target
  {
    var expected := Due(target, elapsed).Floor;
    if bytes > expected then ((bytes - expected) as real) / (target as real) else 0.0
  }

  lemma DivCancels(x: real, t: real)
    requires t > 0.0
    ensures t * (x / t) == x
  {
  }

  lemma MulLe(a: real, b: real, c: real)
    requires a <= b && 0.0 <= c
    ensures c * a <= c * b
  {
  }

  /** What a due check achieves, `elapsed` seconds into its window. */
  lemma CheckWithin(bytes: nat, target: nat, start: real, elapsed: real, end: real)
    requires 1 <= target && CHECK_INTERVAL <= elapsed && start + elapsed <= end
    requires var sleep := SleepTime(bytes, target, elapsed);
             sleep > SLEEP_FLOOR ==> start + elapsed + sleep <= end
    ensures Within(Window(start, end, bytes, SleepTime(bytes, target, elapsed) > SLEEP_FLOOR), target)
  {
    var sleep := SleepTime(bytes, target, elapsed);
    SleepCovers(bytes, target, elapsed);
    DueAdds(target, elapsed, sleep);
    DueGrows(target, 0.0, end - start);
    if sleep > SLEEP_FLOOR {
      DueGrows(target, elapsed + sleep, end - start);
    } else {
      DueGrows(target, elapsed, end - start);
      DueGrows(target, sleep, 0.1 * (end - start));
      DueTenth(target, end - start);
    }
  }

  lemma DueGrows(target: nat, a: real, b: real)
    requires a <= b
    ensures Due(target, a) <= Due(target, b)
  {
    MulLe(a, b, target as real);
  }

  lemma DueTenth(target: nat, elapsed: real)
    ensures Due(target, 0.1 * elapsed) == 0.1 * Due(target, elapsed)
  {
  }

  /** At the target rate, the elapsed time and the sleep together pay for the bytes. */
  lemma SleepCovers(bytes: nat, target: nat, elapsed: real)
    requires 1 <= target
    ensures (bytes as real) <= Due(target, elapsed) + Due(target, SleepTime(bytes, target, elapsed))
  {
    var due := Due(target, elapsed);
    FloorBelow(due);
    if bytes > due.Floor {
      Casts(bytes, due.Floor);
      DivCancels((bytes - due.Floor) as real, target as real);
    } else {
      CastLe(bytes, due.Floor);
    }
  }

  lemma FloorBelow(x: real)
    ensures x.Floor as real <= x
  {
  }

  lemma CastLe(a: int, b: int)
    requires a <= b
    ensures a as real <= b as real
  {
  }

  /** The sleep is not longer than it has to be: a window closed by it, with no delay added by the
      environment, carries its full due but for the fraction of a byte. */
  lemma SleepIsTight(bytes: nat, target: nat, elapsed: real)
    requires 1 <= target && SleepTime(bytes, target, elapsed) > 0.0
    ensures Due(target, elapsed + SleepTime(bytes, target, elapsed)) < (bytes + 1) as real
  {
    var due, sleep := Due(target, elapsed), SleepTime(bytes, target, elapsed);
    BelowNext(due);
    Casts(bytes, due.Floor);
    DivCancels((bytes - due.Floor) as real, target as real);
    DueAdds(target, elapsed, sleep);
  }

  lemma BelowNext(x: real)
    ensures x < x.Floor as real + 1.0
  {
  }

  lemma Casts(a: nat, b: int)
    ensures (a - b) as real == a as real - b as real && (a + 1) as real == a as real + 1.0
  {
  }

  /** The body of a due check: sleep off what is ahead of the target, then read the clock again. */
  method Check(bytes: nat, target: nat, lastCheck: real, elapsed: real, over: real) returns (w: Window)
    requires 1 <= target && CHECK_INTERVAL <= elapsed && 0.0 <= over
    ensures w.start == lastCheck && w.bytes == bytes
    ensures var sleep := SleepTime(bytes, target, elapsed);
            && (w.slept <==> sleep > SLEEP_FLOOR)
            && w.end == lastCheck + elapsed + (if w.slept then sleep else 0.0) + over
    ensures Within(w, target)
  {
    var end, slept := lastCheck + elapsed, false;
    var expected := ((target as real) * elapsed).Floor;
    if bytes > expected {
      var ahead := (bytes - expected) as real;
      var sleep := ahead / (target as real);
      if sleep > SLEEP_FLOOR {
        end, slept := end + sleep, true;
      }
    }
    end := end + over;
    CheckWithin(bytes, target, lastCheck, elapsed, end);
    w := Window(lastCheck, end, bytes, slept);
  }

  /** The closed windows tile the time up to the last check, each within its limit, and the open one is
      less than a millisecond old. */
  predicate Conforms(l: Limiter, target: nat, start: real) {
    && Tiles(l.windows, start, l.lastCheck) && start <= l.lastCheck <= l.now < l.lastCheck + CHECK_INTERVAL
    && forall i :: 0 <= i < |l.windows| ==> Within(l.windows[i], target)
  }

  lemma AfterSendConforms(l: Limiter, s: Send, target: nat, start: real)
    requires 1 <= target && 0.0 <= s.delay && 0.0 <= s.over && Conforms(l, target, start)
    ensures var r := AfterSend(l, s, target);
            Conforms(r, target, start) && WindowBytes(r.windows) + r.open == WindowBytes(l.windows) + l.open + s.bytes
  {
    var r := AfterSend(l, s, target);
    var elapsed := l.now + s.delay - l.lastCheck;
    if elapsed >= CHECK_INTERVAL {
      CheckWithin(l.open + s.bytes, target, l.lastCheck, elapsed, r.now);
      assert r.windows[..|l.windows|] == l.windows;
    }
  }

  lemma {:induction false} EveryWindowWithin(target: nat, start: real, sends: seq<Send>)
    requires 1 <= target && Plausible(sends)
    ensures var l := AfterSends(target, start, sends);
            Conforms(l, target, start) && WindowBytes(l.windows) + l.open == BytesOf(sends)
  {
    if sends != [] {
      EveryWindowWithin(target, start, sends[..|sends| - 1]);
      AfterSendConforms(AfterSends(target, start, sends[..|sends| - 1]), sends[|sends| - 1], target, start);
    }
  }

  /** What one more send does to a run. Until a millisecond has passed since the last check it only joins the open
      window. A check that is due closes that window, and itself waits only when the excess is worth more than 100
      microseconds, and then no longer than to within a byte of what is due. */
  lemma EverySend(target: nat, start: real, sends: seq<Send>, i: nat)
    requires 1 <= target && Plausible(sends) && i < |sends|
    ensures var l, r, s := AfterSends(target, start, sends[..i]), AfterSends(target, start, sends[..i + 1]), sends[i];
            var read, bytes := l.now + s.delay, l.open + s.bytes;
            && (read - l.lastCheck < 0.001 ==>
                  r.windows == l.windows && r.open == bytes && r.now == read && r.lastCheck == l.lastCheck)
            && (read - l.lastCheck >= 0.001 ==>
                  && |r.windows| == |l.windows| + 1 && r.windows[..|l.windows|] == l.windows
                  && r.open == 0 && r.now == r.lastCheck
                  && ClosedBy(r.windows[|l.windows|], l.lastCheck, r.now, bytes, read, s.over, target))
  {
    var l, s := AfterSends(target, start, sends[..i]), sends[i];
    NextSend(target, start, sends, i);
    if l.now + s.delay - l.lastCheck >= 0.001 {
      Closes(l.lastCheck, l.open + s.bytes, l.now + s.delay, s.over, target);
    }
  }

  lemma Closes(from: real, bytes: nat, read: real, over: real, target: nat)
    requires 1 <= target && 0.001 <= read - from
    ensures var sleep := SleepTime(bytes, target, read - from);
            var slept := sleep > SLEEP_FLOOR;
            var end := read + (if slept then sleep else 0.0) + over;
            ClosedBy(Window(from, end, bytes, slept), from, end, bytes, read, over, target)
  {
    var elapsed := read - from;
    WorthWaiting(bytes, target, elapsed);
    var sleep := SleepTime(bytes, target, elapsed);
    if sleep > SLEEP_FLOOR {
      SleepCovers(bytes, target, elapsed);
      DueAdds(target, elapsed, sleep);
      SleepIsTight(bytes, target, elapsed);
    }
  }

  /** How a check that reads the clock at `read` closes the window open since `from`, up to `end`. */
  ghost predicate ClosedBy(w: Window, from: real, end: real, bytes: nat, read: real, over: real, target: nat) {
    var excess := (bytes - Due(target, read - from).Floor) as real;
    && w.start == from && w.end == end && w.bytes == bytes
    && (w.slept <==> excess > Due(target, 0.0001))
    && (!w.slept ==> end == read + over)
    && (w.slept ==> (bytes as real) <= Due(target, end - over - from) < (bytes as real) + 1.0)
  }

  lemma WorthWaiting(bytes: nat, target: nat, elapsed: real)
    requires 1 <= target && 0.0 <= elapsed
    ensures SleepTime(bytes, target, elapsed) > 0.0001
       <==> ((bytes - Due(target, elapsed).Floor) as real) > Due(target, 0.0001)
  {
    var excess := bytes - Due(target, elapsed).Floor;
    if excess > 0 {
      QuotientAbove(excess as real, target as real, 0.0001);
    } else {
      CastLe(excess, 0);
      DueGrows(target, 0.0, 0.0001);
    }
  }

  lemma QuotientAbove(x: real, t: real, a: real)
    requires 0.0 < t
    ensures x / t > a <==> x > t * a
  {
    DivCancels(x, t);
    ProductAbove(x / t, t, a);
  }

  lemma ProductAbove(q: real, t: real, a: real)
    requires 0.0 < t
    ensures q > a <==> t * q > t * a
  {
    if q > a {
      MulLt(a, q, t);
    } else {
      MulLe(q, a, t);
    }
  }

  lemma MulLt(a: real, b: real, c: real)
    requires a < b && 0.0 < c
    ensures c * a < c * b
  {
  }

  /** Over a whole run the sender exceeds 110% of the target by no more than the bytes of the open window. */
  lemma LimiterConforms(target: nat, start: real, sends: seq<Send>)
    requires 1 <= target && Plausible(sends)
    ensures var l := AfterSends(target, start, sends);
            OverallWithin(BytesOf(sends), l.open, target, l.now - start)
  {
    EveryWindowWithin(target, start, sends);
    RunBound(AfterSends(target, start, sends), target, start);
  }

  /** `bytes <= 1.1 * target * elapsed + open`. */
  predicate OverallWithin(bytes: nat, open: nat, target: nat, elapsed: real) {
    (bytes as real) <= 1.1 * Due(target, elapsed) + (open as real)
  }

  lemma RunBound(l: Limiter, target: nat, start: real)
    requires Conforms(l, target, start)
    ensures OverallWithin(WindowBytes(l.windows) + l.open, l.open, target, l.now - start)
  {
    TiledWindowsWithin(l.windows, target, start, l.lastCheck);
    DueGrows(target, l.lastCheck - start, l.now - start);
  }

  lemma NextSend(target: nat, start: real, sends: seq<Send>, i: nat)
    requires 1 <= target && i < |sends|
    ensures AfterSends(target, start, sends[..i + 1])
         == AfterSend(AfterSends(target, start, sends[..i]), sends[i], target)
    ensures BytesOf(sends[..i + 1]) == BytesOf(sends[..i]) + sends[i].bytes
  {
    assert sends[..i + 1][..i] == sends[..i];
  }

  /** The send loop. */
  method SendLoop(target: nat, start: real, sends: seq<Send>) returns (total: nat, l: Limiter)
    requires 1 <= target && Plausible(sends)
    ensures l == AfterSends(target, start, sends) && Conforms(l, target, start)
    ensures total == BytesOf(sends) == WindowBytes(l.windows) + l.open
  {
    var open: nat := 0;
    var lastCheck, now, windows := start, start, [];
    total := 0;
    for i := 0 to |sends|
      invariant Limiter(open, lastCheck, now, windows) == AfterSends(target, start, sends[..i])
      invariant total == BytesOf(sends[..i])
    {
      NextSend(target, start, sends, i);
      total := total + sends[i].bytes;
      open := open + sends[i].bytes;
      now := now + sends[i].delay;
      var elapsed := now - lastCheck;
      if elapsed >= CHECK_INTERVAL {
        var w := Check(open, target, lastCheck, elapsed, sends[i].over);
        windows := windows + [w];
        now := w.end;
        lastCheck := now;
        open := 0;
      }
    }
    assert sends[..|sends|] == sends;
    EveryWindowWithin(target, start, sends);
    l := Limiter(open, lastCheck, now, windows);
  }
}
