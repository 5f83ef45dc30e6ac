/**
  The integer token bucket (src/token_bucket.rs).

  Time is a count of nanoseconds that the environment moves forward. Every clock read comes
  `gap` nanoseconds after the previous one, and a requested sleep lasts `over` nanoseconds
  longer than asked; both are arbitrary. u64 products wrap, as they do in a release build.
 */
module TokenBucketSpec {
  import opened Base

  const MIN_CAPACITY: nat := 8192
  const SLEEP_FLOOR_NANOS: nat := 10_000
  const MAX_REQUEST: nat := 0x1_0000_0000

  datatype Bucket = Bucket(bytesPerSec: nat, tokens: int, capacity: int, lastRefill: nat, nanosPerByte: nat)

  /** A tenth of a second's worth of bytes, but no less than 8192. */
  function Capacity(bytesPerSec: nat): nat {
    Max(bytesPerSec / 10, MIN_CAPACITY)
  }

  function NanosPerByte(bytesPerSec: nat): nat {
    if bytesPerSec > 0 then NANOS_PER_SEC / bytesPerSec else 0
  }

  function Fresh(bytesPerSec: nat, now: nat): Bucket {
    Bucket(bytesPerSec, Capacity(bytesPerSec), Capacity(bytesPerSec), now, NanosPerByte(bytesPerSec))
  }

  function TokensFor(elapsed: nat, bytesPerSec: nat): nat {
    ((elapsed / 1000) % U64 * bytesPerSec) % U64 / 1_000_000
  }

  /** Bytes a refill adds after `elapsed` nanoseconds, before the cap. */
  function Credit(elapsed: nat, bytesPerSec: nat): nat {
    if elapsed % U64 > 0 then TokensFor(elapsed, bytesPerSec) else 0
  }

  function Refilled(b: Bucket, now: nat): Bucket
    requires b.lastRefill <= now
  {
    var credit := Credit(now - b.lastRefill, b.bytesPerSec);
    if credit > 0 then b.(tokens := Min(b.tokens + credit, b.capacity), lastRefill := now) else b
  }

  /** Nanoseconds `consume` asks to sleep for; 0 when it does not sleep at all. */
  function SleepFor(b: Bucket, bytes: nat): nat {
    if bytes <= b.tokens then 0
    else
      var nanos := ((bytes - b.tokens) * b.nanosPerByte) % U64;
      if nanos > SLEEP_FLOOR_NANOS then nanos else 0
  }

  datatype World = World(bucket: Bucket, now: nat)

  /** What a caller may do, with the environment's choice of clock readings. */
  datatype Op =
    | Consume(bytes: nat, gap: nat, over: nat)
    | Reset(gap: nat)
    | SetBandwidth(bytesPerSec: nat, gap: nat)

  ghost predicate Timely(w: World) {
    w.bucket.lastRefill <= w.now
  }

  /** `consume` after its first refill: sleep if need be, refill again, deduct. */
  function Deducted(w: World, bytes: nat, over: nat): (r: World)
    requires Timely(w)
    ensures Timely(r) && w.now <= r.now
  {
    var nanos := SleepFor(w.bucket, bytes);
    if nanos == 0 then
      World(w.bucket.(tokens := w.bucket.tokens - bytes), w.now)
    else
      var woken := w.now + nanos + over;
      var b := Refilled(w.bucket, woken);
      World(b.(tokens := b.tokens - bytes), woken)
  }

  function Step(w: World, op: Op): (r: World)
    requires Timely(w)
    ensures Timely(r) && w.now + op.gap <= r.now
  {
    match op
    case Consume(bytes, gap, over) =>
      Deducted(World(Refilled(w.bucket, w.now + gap), w.now + gap), bytes, over)
    case Reset(gap) =>
      World(w.bucket.(tokens := w.bucket.capacity, lastRefill := w.now + gap), w.now + gap)
    case SetBandwidth(bps, gap) =>
      World(Fresh(bps, w.now + gap), w.now + gap)
  }

  function After(w: World, ops: seq<Op>): (r: World)
    requires Timely(w)
    ensures Timely(r) && w.now <= r.now
    decreases |ops|
  {
    if ops == [] then w else After(Step(w, ops[0]), ops[1..])
  }

  predicate RateInRange(bytesPerSec: nat) {
    1 <= bytesPerSec <= NANOS_PER_SEC
  }

  /** A pause short enough that `elapsed_micros * bytes_per_sec` stays below 2^64:
      five hours at 1e9 bytes per second, longer at lower rates. */
  predicate IdleOk(bytesPerSec: nat, pause: nat) {
    pause <= 9_000_000_000_000_000_000 && pause * bytesPerSec <= 18_000_000_000_000_000_000_000
  }

  /** Five hours will do at every rate. */
  lemma FiveHoursOk(bps: nat, pause: nat)
    requires RateInRange(bps) && pause <= 18_000_000_000_000
    ensures IdleOk(bps, pause)
  {
    MulLe(bps, NANOS_PER_SEC, pause);
    MulLe(pause, 18_000_000_000_000, NANOS_PER_SEC);
    assert pause * bps == bps * pause;
  }

  /** Bounds on what callers and the environment do: request size, and time between clock readings. */
  datatype Limits = Limits(maxRequest: nat, maxPause: nat)

  predicate Suits(lim: Limits, bytesPerSec: nat) {
    lim.maxRequest <= MAX_REQUEST && IdleOk(bytesPerSec, lim.maxPause)
  }

  predicate OpAllowed(op: Op, lim: Limits) {
    match op
    case Consume(bytes, gap, over) => bytes <= lim.maxRequest && gap <= lim.maxPause && over <= lim.maxPause
    case Reset(_) => true
    case SetBandwidth(bps, _) => RateInRange(bps) && IdleOk(bps, lim.maxPause)
  }

  ghost predicate Allowed(ops: seq<Op>, lim: Limits) {
    forall i :: 0 <= i < |ops| ==> OpAllowed(ops[i], lim)
  }

  predicate OpOk(b: Bucket, op: Op, maxRequest: nat) {
    match op
    case Consume(bytes, gap, over) =>
      bytes <= maxRequest && IdleOk(b.bytesPerSec, gap) && IdleOk(b.bytesPerSec, over)
    case Reset(_) => true
    case SetBandwidth(bps, _) => RateInRange(bps)
  }

  ghost predicate RunOk(w: World, ops: seq<Op>, maxRequest: nat)
    requires Timely(w)
    decreases |ops|
  {
    ops != [] ==> OpOk(w.bucket, ops[0], maxRequest) && RunOk(Step(w, ops[0]), ops[1..], maxRequest)
  }

  /** How far below zero the balance may ever go when no request exceeds `maxRequest` bytes. */
  function Debt(maxRequest: nat): nat {
    Max(10_000, maxRequest + 2_000)
  }

  /** The floored nanoseconds-per-byte still buys more than half the exact rate. */
  predicate NearRate(nanosPerByte: nat, bps: nat) {
    1 <= nanosPerByte && 500_000_000 < nanosPerByte * bps <= NANOS_PER_SEC
  }

  /** Holds in every reachable state. The second line is what makes a refill that adds nothing
      harmless: the time it leaves unclaimed is worth less than one byte. */
  ghost predicate Sound(w: World, maxRequest: nat) {
    var b := w.bucket;
    && RateInRange(b.bytesPerSec) && b.lastRefill <= w.now
    && (w.now - b.lastRefill) / 1000 * b.bytesPerSec < 1_000_000
    && b.capacity == Capacity(b.bytesPerSec) && NearRate(b.nanosPerByte, b.bytesPerSec)
    && -(Debt(maxRequest) as int) <= b.tokens <= b.capacity
  }

  /** What the time claimed so far is worth, beyond the balance, in billionths of a byte. It never falls,
      and every byte consumed raises it by 1e9. */
  function Claimed(b: Bucket): int {
    b.lastRefill * b.bytesPerSec - NANOS_PER_SEC * b.tokens
  }

  // ---------------------------------------------------------------- arithmetic

  lemma MulLe(a: int, b: int, c: int)
    requires a <= b && 0 <= c
    ensures a * c <= b * c
  {
  }

  lemma FloorIsNearRate(bps: nat)
    requires RateInRange(bps)
    ensures NearRate(NanosPerByte(bps), bps)
  {
    var npb := NANOS_PER_SEC / bps;
    assert npb * bps + NANOS_PER_SEC % bps == NANOS_PER_SEC;
    MulLe(1, npb, bps);
  }

  /** Bytes the elapsed time is worth, after two truncating divisions but without overflow. */
  function Due(elapsed: nat, bps: nat): nat {
    elapsed / 1000 * bps / 1_000_000
  }

  /** Neither the product nor the count of nanoseconds wraps to something else. */
  predicate NoOverflow(elapsed: nat, bps: nat) {
    elapsed / 1000 * bps < U64 && (elapsed % U64 == 0 ==> elapsed == 0)
  }

  lemma DivLe(a: nat, b: nat)
    requires a <= b
    ensures a / 1_000_000 <= b / 1_000_000
  {
  }

  /** A wrapped product is short by 2^64 or more. */
  lemma WrappedProduct(micros: nat, bps: nat)
    requires RateInRange(bps)
    ensures micros * bps < U64 ==> (micros % U64 * bps) % U64 == micros * bps
    ensures micros * bps >= U64 ==> (micros % U64 * bps) % U64 <= micros * bps - U64
  {
    MulLe(1, bps, micros);
    if micros >= U64 {
      var low := micros % U64;
      MulLe(low, micros - U64, bps);
      assert (micros - U64) * bps == micros * bps - U64 * bps;
      MulLe(1, bps, U64);
    } else {
      assert micros % U64 == micros;
    }
  }

  /** The credit computed for a pause is what the pause is worth if and only if the product of microseconds
      and rate fits into 64 bits. */
  lemma TokensExactIff(elapsed: nat, bps: nat)
    requires RateInRange(bps)
    ensures TokensFor(elapsed, bps) == Due(elapsed, bps) <==> elapsed / 1000 * bps < U64
  {
    var micros := elapsed / 1000;
    WrappedProduct(micros, bps);
    if micros * bps >= U64 {
      DivLe((micros % U64 * bps) % U64, micros * bps - U64);
    }
  }

  lemma CreditExactIff(elapsed: nat, bps: nat)
    requires RateInRange(bps)
    ensures Credit(elapsed, bps) == Due(elapsed, bps) <==> NoOverflow(elapsed, bps)
  {
    TokensExactIff(elapsed, bps);
    if elapsed >= U64 {
      MulLe(1, bps, elapsed / 1000);
      DivLe(U64 / 1000, elapsed / 1000 * bps);
    }
  }

  /** A refill leaves the balance that the elapsed time is worth, up to capacity, if and only if nothing
      overflows or what is left after the overflow fills the bucket all the same. */
  lemma RefillExactIff(b: Bucket, now: nat)
    requires RateInRange(b.bytesPerSec) && b.lastRefill <= now && b.tokens <= b.capacity
    ensures var elapsed := now - b.lastRefill;
            && Refilled(b, now).tokens <= Min(b.tokens + Due(elapsed, b.bytesPerSec), b.capacity)
            && (Refilled(b, now).tokens == Min(b.tokens + Due(elapsed, b.bytesPerSec), b.capacity) <==>
                  NoOverflow(elapsed, b.bytesPerSec) || b.capacity <= b.tokens + Credit(elapsed, b.bytesPerSec))
  {
    var elapsed, bps := now - b.lastRefill, b.bytesPerSec;
    CreditExactIff(elapsed, bps);
    CreditNeverAbove(elapsed, bps);
  }

  /** An overflow can only lose bytes. */
  lemma CreditNeverAbove(elapsed: nat, bps: nat)
    requires RateInRange(bps)
    ensures Credit(elapsed, bps) <= Due(elapsed, bps)
  {
    var micros := elapsed / 1000;
    WrappedProduct(micros, bps);
    DivLe((micros % U64 * bps) % U64, micros * bps);
  }

  /** Sleeping `needed * npb` nanoseconds earns back at least half of `needed`, less 1000 bytes. */
  lemma SleepRepaysHalf(needed: nat, npb: nat, bps: nat, elapsed: nat)
    requires RateInRange(bps) && NearRate(npb, bps) && needed * npb <= elapsed
    ensures needed - 2_000 <= 2 * Due(elapsed, bps)
  {
    HalfRate(needed, npb, bps, elapsed);
    WholeMicros(elapsed, bps);
    HalfArithmetic(needed, elapsed / 1000 * bps, elapsed * bps, bps, Due(elapsed, bps));
  }

  lemma HalfRate(needed: nat, npb: nat, bps: nat, elapsed: nat)
    requires NearRate(npb, bps) && needed * npb <= elapsed
    ensures 500_000_000 * needed <= elapsed * bps
  {
    MulLe(needed * npb, elapsed, bps);
    assert needed * npb * bps == needed * (npb * bps);
    MulLe(500_000_000, npb * bps, needed);
  }

  lemma WholeMicros(elapsed: nat, bps: nat)
    ensures elapsed * bps - 999 * bps <= 1000 * (elapsed / 1000 * bps)
  {
    var micros := elapsed / 1000;
    MulLe(elapsed - 999, 1000 * micros, bps);
    assert 1000 * micros * bps == 1000 * (micros * bps);
    assert (elapsed - 999) * bps == elapsed * bps - 999 * bps;
  }

  lemma HalfArithmetic(needed: nat, paid: nat, due: nat, bps: nat, add: nat)
    requires bps <= NANOS_PER_SEC && 500_000_000 * needed <= due
    requires due - 999 * bps <= 1000 * paid && paid - 999_999 <= 1_000_000 * add
    ensures needed - 2_000 <= 2 * add
  {
  }

  /** A refill credits at most the elapsed time's worth of bytes. */
  lemma RefillNeverOverpays(elapsed: nat, bps: nat)
    ensures NANOS_PER_SEC * Due(elapsed, bps) <= elapsed * bps
  {
    var micros := elapsed / 1000;
    MulLe(1000 * micros, elapsed, bps);
    assert 1000 * micros * bps == 1000 * (micros * bps);
    assert 1_000_000 * (micros * bps / 1_000_000) <= micros * bps;
  }

  // ---------------------------------------------------------------- one step

  /** Everything a refill does when nothing overflows. The last clause says no time is lost:
      the part of the elapsed time that was not paid for is still on the books. */
  lemma RefillSound(b: Bucket, now: nat)
    requires RateInRange(b.bytesPerSec) && b.lastRefill <= now && b.tokens <= b.capacity
    requires NoOverflow(now - b.lastRefill, b.bytesPerSec)
    ensures var r := Refilled(b, now);
            && r == b.(tokens := r.tokens, lastRefill := r.lastRefill)
            && r.lastRefill <= now
            && r.tokens == Min(b.tokens + Due(now - b.lastRefill, b.bytesPerSec), b.capacity)
            && Claimed(b) <= Claimed(r)
            && (now - r.lastRefill) / 1000 * b.bytesPerSec < 1_000_000
  {
    var elapsed := now - b.lastRefill;
    CreditExactIff(elapsed, b.bytesPerSec);
    RefillNeverOverpays(elapsed, b.bytesPerSec);
    ClaimCovers(b, now, Due(elapsed, b.bytesPerSec));
    NothingDue(elapsed, b.bytesPerSec);
  }

  /** Bytes that the time since the last refill is worth can be credited. */
  lemma ClaimCovers(b: Bucket, now: nat, credit: nat)
    requires b.lastRefill <= now && NANOS_PER_SEC * credit <= (now - b.lastRefill) * b.bytesPerSec
    ensures Claimed(b) <= Claimed(b.(tokens := Min(b.tokens + credit, b.capacity), lastRefill := now))
  {
    assert (now - b.lastRefill) * b.bytesPerSec == now * b.bytesPerSec - b.lastRefill * b.bytesPerSec;
  }

  lemma NothingDue(elapsed: nat, bps: nat)
    ensures Due(elapsed, bps) == 0 <==> elapsed / 1000 * bps < 1_000_000
    ensures 0 / 1000 * bps == 0
  {
    assert elapsed / 1000 * bps >= 0;
  }

  /** The unclaimed time is short, and worth at most one byte and one microsecond. */
  lemma CarryIsSmall(carry: nat, bps: nat)
    requires RateInRange(bps) && carry / 1000 * bps < 1_000_000
    ensures carry < NANOS_PER_SEC
    ensures carry * bps < NANOS_PER_SEC + 1000 * bps
  {
    MulLe(1, bps, carry / 1000);
    assert carry <= 1000 * (carry / 1000) + 999;
    MulLe(carry, 1000 * (carry / 1000) + 999, bps);
    assert (1000 * (carry / 1000) + 999) * bps == 1000 * (carry / 1000 * bps) + 999 * bps;
  }

  lemma SmallProduct(elapsed: nat, bps: nat)
    requires elapsed < U64 && elapsed * bps < 1000 * U64
    ensures NoOverflow(elapsed, bps)
  {
    MulLe(1000 * (elapsed / 1000), elapsed, bps);
    assert 1000 * (elapsed / 1000) * bps == 1000 * (elapsed / 1000 * bps);
  }

  lemma NoOverflowAfterPause(carry: nat, pause: nat, bps: nat)
    requires RateInRange(bps) && carry / 1000 * bps < 1_000_000 && IdleOk(bps, pause)
    ensures NoOverflow(carry + pause, bps)
  {
    CarryIsSmall(carry, bps);
    assert (carry + pause) * bps == carry * bps + pause * bps;
    SmallProduct(carry + pause, bps);
  }

  lemma NoOverflowAfterSleep(carry: nat, nanos: nat, over: nat, bps: nat)
    requires RateInRange(bps) && carry / 1000 * bps < 1_000_000 && IdleOk(bps, over)
    requires nanos <= (2 * MAX_REQUEST + 10_000) * NANOS_PER_SEC
    requires nanos * bps <= (2 * MAX_REQUEST + 10_000) * NANOS_PER_SEC
    ensures NoOverflow(carry + nanos + over, bps)
  {
    CarryIsSmall(carry, bps);
    assert (carry + nanos + over) * bps == carry * bps + nanos * bps + over * bps;
    SmallProduct(carry + nanos + over, bps);
  }

  /** The first refill of a `consume` call. */
  lemma FirstRefill(w: World, gap: nat, maxRequest: nat) returns (b1: Bucket)
    requires Sound(w, maxRequest) && IdleOk(w.bucket.bytesPerSec, gap)
    ensures b1 == Refilled(w.bucket, w.now + gap)
    ensures Sound(World(b1, w.now + gap), maxRequest)
    ensures b1.bytesPerSec == w.bucket.bytesPerSec
    ensures Claimed(w.bucket) <= Claimed(b1)
  {
    NoOverflowAfterPause(w.now - w.bucket.lastRefill, gap, w.bucket.bytesPerSec);
    b1 := RefillKeepsSound(w, w.now + gap, w.now - w.bucket.lastRefill + gap, maxRequest);
  }

  lemma RefillKeepsSound(w: World, now: nat, elapsed: nat, maxRequest: nat) returns (r: Bucket)
    requires Sound(w, maxRequest) && w.now <= now && elapsed == now - w.bucket.lastRefill
    requires NoOverflow(elapsed, w.bucket.bytesPerSec)
    ensures r == Refilled(w.bucket, now) && Sound(World(r, now), maxRequest)
    ensures r.bytesPerSec == w.bucket.bytesPerSec && Claimed(w.bucket) <= Claimed(r)
  {
    RefillSound(w.bucket, now);
    r := Refilled(w.bucket, now);
  }

  /** The sleep for a shortfall does not overflow; each missing byte costs a nanosecond or more. */
  lemma ShortfallCost(needed: nat, npb: nat, bps: nat)
    requires RateInRange(bps) && NearRate(npb, bps) && needed <= 2 * MAX_REQUEST + 10_000
    ensures var nanos := needed * npb;
            && needed <= nanos <= needed * NANOS_PER_SEC && nanos % U64 == nanos
            && nanos * bps <= needed * NANOS_PER_SEC
  {
    MulLe(1, bps, npb);
    MulLe(1, npb, needed);
    MulLe(npb, NANOS_PER_SEC, needed);
    MulLe(npb * bps, NANOS_PER_SEC, needed);
    assert needed * npb * bps == needed * (npb * bps);
  }

  /** The refill after a sleep leaves at most half the shortfall, plus 1000 bytes of rounding. */
  lemma SecondRefill(w: World, bytes: nat, over: nat, maxRequest: nat) returns (b2: Bucket)
    requires Sound(w, maxRequest) && bytes <= maxRequest <= MAX_REQUEST
    requires SleepFor(w.bucket, bytes) > 0 && IdleOk(w.bucket.bytesPerSec, over)
    ensures var nanos := SleepFor(w.bucket, bytes);
            && nanos == (bytes - w.bucket.tokens) * w.bucket.nanosPerByte
            && b2 == Refilled(w.bucket, w.now + nanos + over)
            && b2.lastRefill <= w.now + nanos + over
            && (w.now + nanos + over - b2.lastRefill) / 1000 * w.bucket.bytesPerSec < 1_000_000
    ensures b2 == w.bucket.(tokens := b2.tokens, lastRefill := b2.lastRefill)
    ensures b2.tokens <= b2.capacity
    ensures bytes - b2.tokens <= (bytes - w.bucket.tokens) / 2 + 1_000 || b2.tokens == b2.capacity
    ensures Claimed(w.bucket) <= Claimed(b2)
  {
    var b := w.bucket;
    var bps := b.bytesPerSec;
    var carry := w.now - b.lastRefill;
    var needed := bytes - b.tokens;
    ShortfallCost(needed, b.nanosPerByte, bps);
    var nanos := needed * b.nanosPerByte;
    NoOverflowAfterSleep(carry, nanos, over, bps);
    var elapsed := carry + nanos + over;
    assert w.now + nanos + over - b.lastRefill == elapsed;
    RefillSound(b, w.now + nanos + over);
    b2 := Refilled(b, w.now + nanos + over);
    SleepRepaysHalf(needed, b.nanosPerByte, bps, elapsed);
  }

  /** A request that may not sleep is short by at most 10,000 bytes, since a byte costs a nanosecond or more. */
  lemma NoSleepShortfall(w: World, bytes: nat, maxRequest: nat)
    requires Sound(w, maxRequest) && bytes <= maxRequest <= MAX_REQUEST
    requires SleepFor(w.bucket, bytes) == 0
    ensures bytes - w.bucket.tokens <= 10_000
  {
    if w.bucket.tokens < bytes {
      ShortfallCost(bytes - w.bucket.tokens, w.bucket.nanosPerByte, w.bucket.bytesPerSec);
    }
  }

  /** Nor is the sleep ever longer than the exact time for the shortfall. */
  lemma SleepNotExcessive(w: World, bytes: nat, maxRequest: nat)
    requires Sound(w, maxRequest) && bytes <= maxRequest <= MAX_REQUEST && SleepFor(w.bucket, bytes) > 0
    ensures SleepFor(w.bucket, bytes) * w.bucket.bytesPerSec <= NANOS_PER_SEC * (bytes - w.bucket.tokens)
  {
    ShortfallCost(bytes - w.bucket.tokens, w.bucket.nanosPerByte, w.bucket.bytesPerSec);
  }

  lemma DeductedSound(w: World, bytes: nat, over: nat, maxRequest: nat)
    requires Sound(w, maxRequest) && bytes <= maxRequest <= MAX_REQUEST && IdleOk(w.bucket.bytesPerSec, over)
    ensures var r := Deducted(w, bytes, over);
            && Sound(r, maxRequest) && r.bucket.bytesPerSec == w.bucket.bytesPerSec
            && Claimed(w.bucket) + NANOS_PER_SEC * bytes <= Claimed(r.bucket)
  {
    if SleepFor(w.bucket, bytes) == 0 {
      NoSleepShortfall(w, bytes, maxRequest);
    } else {
      var b2 := SecondRefill(w, bytes, over, maxRequest);
    }
  }

  /** One `consume` keeps the debt bound, and never pays out more than the clock earned. */
  lemma ConsumeSound(w: World, op: Op, maxRequest: nat)
    requires Sound(w, maxRequest) && maxRequest <= MAX_REQUEST
    requires op.Consume? && OpOk(w.bucket, op, maxRequest)
    ensures var r := Step(w, op);
            && Sound(r, maxRequest)
            && r.bucket.bytesPerSec == w.bucket.bytesPerSec
            && Claimed(w.bucket) + NANOS_PER_SEC * op.bytes <= Claimed(r.bucket)
  {
    var b1 := FirstRefill(w, op.gap, maxRequest);
    DeductedSound(World(b1, w.now + op.gap), op.bytes, op.over, maxRequest);
  }

  /** What a new bucket holds, by its meaning: a tenth of a second's worth of bytes but at least 8192, all of
      them available, and as many whole nanoseconds for a byte as fit. */
  lemma NewBucket(bps: nat, now: nat)
    ensures var b := Fresh(bps, now);
            && b.bytesPerSec == bps && b.tokens == b.capacity && b.lastRefill == now
            && (bps < 81_920 ==> b.capacity == 8192)
            && (81_920 <= bps ==> 10 * b.capacity <= bps < 10 * b.capacity + 10)
            && (bps == 0 ==> b.nanosPerByte == 0)
            && (bps > 0 ==> b.nanosPerByte * bps <= 1_000_000_000 < (b.nanosPerByte + 1) * bps)
  {
    if bps > 0 {
      WholeNanos(bps, NANOS_PER_SEC / bps);
    }
  }

  lemma WholeNanos(bps: nat, npb: nat)
    requires bps > 0 && npb == NANOS_PER_SEC / bps
    ensures npb * bps <= 1_000_000_000 < (npb + 1) * bps
  {
    assert npb * bps + NANOS_PER_SEC % bps == NANOS_PER_SEC;
    assert (npb + 1) * bps == npb * bps + bps;
  }

  /** A bucket given another rate is a new bucket of that rate. */
  lemma NewRateNewBucket(w: World, bps: nat, gap: nat)
    requires Timely(w)
    ensures Step(w, SetBandwidth(bps, gap)) == Begin(bps, w.now + gap)
    ensures Step(w, SetBandwidth(bps, gap)).bucket.bytesPerSec == bps
  {
  }

  /** After a reset the whole capacity may be requested, at once or in parts, without a wait. */
  lemma ResetFills(w: World, gap: nat, bytes: nat, over: nat)
    requires Timely(w) && bytes <= w.bucket.capacity
    ensures var r := Step(Step(w, Reset(gap)), Consume(bytes, 0, over));
            && r.now == w.now + gap && r.bucket.tokens == w.bucket.capacity - bytes
            && r.bucket.lastRefill == w.now + gap
            && r.bucket == w.bucket.(tokens := r.bucket.tokens, lastRefill := r.bucket.lastRefill)
  {
  }

  /** Exactly how a call ends that found balance and clock at `b` and `now`. If the shortfall costs 10 microseconds
      or less, the request is taken at once, if need be on credit. Otherwise the call lasts exactly as long as the
      shortfall costs, and what the environment adds; then the balance is brought up to date and the request taken. */
  ghost predicate EndsExactly(b: Bucket, now: nat, bytes: nat, over: nat, r: World) {
    var cost := (bytes - b.tokens) * b.nanosPerByte;
    && (cost <= 10_000 ==> r.now == now && r.bucket.tokens == b.tokens - bytes)
    && (cost > 10_000 ==>
          && r.now == now + cost + over && b.lastRefill <= r.now
          && r.bucket.tokens == Min(b.tokens + Due(r.now - b.lastRefill, b.bytesPerSec), b.capacity) - bytes)
    && r.bucket == b.(tokens := r.bucket.tokens, lastRefill := r.bucket.lastRefill)
  }

  /** Exactly what one `consume` does: at the first clock reading the balance is brought up to date, and from there
      the call ends as above. */
  lemma ConsumeExact(w: World, bytes: nat, gap: nat, over: nat, maxRequest: nat)
    requires Sound(w, maxRequest) && bytes <= maxRequest <= MAX_REQUEST
    requires IdleOk(w.bucket.bytesPerSec, gap) && IdleOk(w.bucket.bytesPerSec, over)
    ensures var b, read := w.bucket, w.now + gap;
            var due := Due(read - b.lastRefill, b.bytesPerSec);
            var current := b.(tokens := Min(b.tokens + due, b.capacity),
                              lastRefill := if due > 0 then read else b.lastRefill);
            EndsExactly(current, read, bytes, over, Step(w, Consume(bytes, gap, over)))
  {
    var w1 := BroughtUpToDate(w, gap, maxRequest);
    DeductedExact(w1, bytes, over, maxRequest);
  }

  lemma BroughtUpToDate(w: World, gap: nat, maxRequest: nat) returns (w1: World)
    requires Sound(w, maxRequest) && IdleOk(w.bucket.bytesPerSec, gap)
    ensures var b, read := w.bucket, w.now + gap;
            var due := Due(read - b.lastRefill, b.bytesPerSec);
            && w1.bucket == b.(tokens := Min(b.tokens + due, b.capacity),
                               lastRefill := if due > 0 then read else b.lastRefill)
            && w1 == World(Refilled(b, read), read)
    ensures Sound(w1, maxRequest)
  {
    NoOverflowAfterPause(w.now - w.bucket.lastRefill, gap, w.bucket.bytesPerSec);
    RefillExact(w.bucket, w.now + gap);
    var b1 := FirstRefill(w, gap, maxRequest);
    w1 := World(b1, w.now + gap);
  }

  lemma DeductedExact(w: World, bytes: nat, over: nat, maxRequest: nat)
    requires Sound(w, maxRequest) && bytes <= maxRequest <= MAX_REQUEST && IdleOk(w.bucket.bytesPerSec, over)
    ensures EndsExactly(w.bucket, w.now, bytes, over, Deducted(w, bytes, over))
  {
    var b := w.bucket;
    SleepIsCost(b, bytes, maxRequest);
    var nanos := SleepFor(b, bytes);
    if nanos > 0 {
      CostWithinReach(w, bytes, over, maxRequest);
      RefillExact(b, w.now + nanos + over);
    }
  }

  lemma CostWithinReach(w: World, bytes: nat, over: nat, maxRequest: nat)
    requires Sound(w, maxRequest) && bytes <= maxRequest <= MAX_REQUEST && IdleOk(w.bucket.bytesPerSec, over)
    requires SleepFor(w.bucket, bytes) > 0
    ensures NoOverflow(w.now + SleepFor(w.bucket, bytes) + over - w.bucket.lastRefill, w.bucket.bytesPerSec)
  {
    ShortfallCost(bytes - w.bucket.tokens, w.bucket.nanosPerByte, w.bucket.bytesPerSec);
    NoOverflowAfterSleep(w.now - w.bucket.lastRefill, SleepFor(w.bucket, bytes), over, w.bucket.bytesPerSec);
  }

  lemma SleepIsCost(b: Bucket, bytes: nat, maxRequest: nat)
    requires RateInRange(b.bytesPerSec) && NearRate(b.nanosPerByte, b.bytesPerSec)
    requires -(Debt(maxRequest) as int) <= b.tokens && bytes <= maxRequest <= MAX_REQUEST
    ensures var cost := (bytes - b.tokens) * b.nanosPerByte;
            SleepFor(b, bytes) == if cost > 10_000 then cost else 0
  {
    CostSign(bytes - b.tokens, b.nanosPerByte);
    if b.tokens < bytes {
      ShortfallCost(bytes - b.tokens, b.nanosPerByte, b.bytesPerSec);
    }
  }

  lemma CostSign(needed: int, npb: nat)
    ensures needed <= 0 ==> needed * npb <= 0
  {
    if needed <= 0 {
      MulLe(needed, 0, npb);
    }
  }

  /** A refill without overflow, field by field. */
  lemma RefillExact(b: Bucket, now: nat)
    requires RateInRange(b.bytesPerSec) && b.lastRefill <= now && b.tokens <= b.capacity
    requires NoOverflow(now - b.lastRefill, b.bytesPerSec)
    ensures var r, due := Refilled(b, now), Due(now - b.lastRefill, b.bytesPerSec);
            r == b.(tokens := Min(b.tokens + due, b.capacity), lastRefill := if due > 0 then now else b.lastRefill)
  {
    CreditExactIff(now - b.lastRefill, b.bytesPerSec);
  }

  lemma FreshIsSound(bps: nat, now: nat, maxRequest: nat)
    requires RateInRange(bps)
    ensures Sound(World(Fresh(bps, now), now), maxRequest)
  {
    FloorIsNearRate(bps);
  }

  lemma StepSound(w: World, op: Op, maxRequest: nat)
    requires Sound(w, maxRequest) && maxRequest <= MAX_REQUEST && OpOk(w.bucket, op, maxRequest)
    ensures Sound(Step(w, op), maxRequest)
  {
    match op
    case Consume(_, _, _) => ConsumeSound(w, op, maxRequest);
    case Reset(_) =>
    case SetBandwidth(bps, gap) => FreshIsSound(bps, w.now + gap, maxRequest);
  }

  // ---------------------------------------------------------------- whole runs

  lemma {:induction false} RunStaysSound(w: World, ops: seq<Op>, maxRequest: nat)
    requires Sound(w, maxRequest) && maxRequest <= MAX_REQUEST && RunOk(w, ops, maxRequest)
    ensures Sound(After(w, ops), maxRequest)
    decreases |ops|
  {
    if ops != [] {
      StepSound(w, ops[0], maxRequest);
      RunStaysSound(Step(w, ops[0]), ops[1..], maxRequest);
    }
  }

  /** A run within the step conditions, from a sound state. */
  ghost predicate SoundRun(w: World, ops: seq<Op>, maxRequest: nat) {
    Sound(w, maxRequest) && maxRequest <= MAX_REQUEST && RunOk(w, ops, maxRequest)
  }

  /** Allowed calls stay within the step conditions whatever state they meet. */
  lemma {:induction false} AllowedRunOk(w: World, ops: seq<Op>, lim: Limits)
    requires Sound(w, lim.maxRequest) && Suits(lim, w.bucket.bytesPerSec) && Allowed(ops, lim)
    ensures RunOk(w, ops, lim.maxRequest)
    ensures Suits(lim, After(w, ops).bucket.bytesPerSec)
    decreases |ops|
  {
    if ops != [] {
      var op := ops[0];
      assert OpAllowed(op, lim);
      if op.Consume? {
        PauseOk(op.gap, lim.maxPause, w.bucket.bytesPerSec);
        PauseOk(op.over, lim.maxPause, w.bucket.bytesPerSec);
        ConsumeSound(w, op, lim.maxRequest);
      }
      StepSound(w, op, lim.maxRequest);
      AllowedRunOk(Step(w, op), ops[1..], lim);
    }
  }

  lemma PauseOk(pause: nat, maxPause: nat, bps: nat)
    requires IdleOk(bps, maxPause) && pause <= maxPause
    ensures IdleOk(bps, pause)
  {
    MulLe(pause, maxPause, bps);
  }

  /** A new bucket, at time `start`. */
  function Begin(bps: nat, start: nat): World {
    World(Fresh(bps, start), start)
  }

  /** Where a history of calls on a new bucket leads. */
  function Reached(bps: nat, start: nat, history: seq<Op>): (w: World)
    ensures Timely(w) && start <= w.now
  {
    After(Begin(bps, start), history)
  }

  lemma ReachedSound(bps: nat, start: nat, history: seq<Op>, lim: Limits)
    requires RateInRange(bps) && Suits(lim, bps) && Allowed(history, lim)
    ensures var w := Reached(bps, start, history);
            Sound(w, lim.maxRequest) && Suits(lim, w.bucket.bytesPerSec)
  {
    FreshIsSound(bps, start, lim.maxRequest);
    AllowedRunOk(Begin(bps, start), history, lim);
    RunStaysSound(Begin(bps, start), history, lim.maxRequest);
  }

  /** Bounded debt: no sequence of calls, however timed, drives the balance below `-Debt`. */
  lemma DebtIsBounded(bps: nat, start: nat, ops: seq<Op>, lim: Limits)
    requires RateInRange(bps) && Suits(lim, bps) && Allowed(ops, lim)
    ensures var b := Reached(bps, start, ops).bucket;
            -(Debt(lim.maxRequest) as int) <= b.tokens <= b.capacity
    ensures var b := Reached(bps, start, ops).bucket;
            -10_000 <= b.tokens || -2_000 - lim.maxRequest <= b.tokens
  {
    ReachedSound(bps, start, ops, lim);
  }

  /** `bytes <= burst + bps * nanos / 1e9`, without the division. */
  predicate WithinRate(bytes: int, burst: int, bps: nat, nanos: int) {
    NANOS_PER_SEC * bytes <= NANOS_PER_SEC * burst + bps * nanos
  }

  predicate ConsumesOnly(ops: seq<Op>) {
    forall i :: 0 <= i < |ops| ==> ops[i].Consume?
  }

  function Consumed(ops: seq<Op>): nat {
    if ops == [] then 0 else (if ops[0].Consume? then ops[0].bytes else 0) + Consumed(ops[1..])
  }

  /** Whatever is consumed has been paid for with claimed time. */
  lemma {:induction false} ConsumptionIsPaidFor(w: World, ops: seq<Op>, maxRequest: nat)
    requires Sound(w, maxRequest) && maxRequest <= MAX_REQUEST && RunOk(w, ops, maxRequest) && ConsumesOnly(ops)
    ensures var r := After(w, ops).bucket;
            && r.bytesPerSec == w.bucket.bytesPerSec
            && Claimed(w.bucket) + NANOS_PER_SEC * Consumed(ops) <= Claimed(r)
    decreases |ops|
  {
    if ops != [] {
      var next := Step(w, ops[0]);
      ConsumeSound(w, ops[0], maxRequest);
      ConsumptionIsPaidFor(next, ops[1..], maxRequest);
    }
  }

  /** The bytes consumed by a run exceed what the rate allows since time `since` by at most `burst`. */
  predicate ConformsSince(w: World, ops: seq<Op>, since: int, burst: int)
    requires Timely(w)
  {
    WithinRate(Consumed(ops), burst, w.bucket.bytesPerSec, After(w, ops).now - since)
  }

  /** Rate conformance over every window: after any history, the bytes consumed from the first clock
      read of one call to the end of any later call are at most `capacity + debt + 1`, plus what the rate
      allows in the window and one microsecond more. */
  lemma RateConformance(bps: nat, start: nat, history: seq<Op>, window: seq<Op>, lim: Limits)
    requires RateInRange(bps) && Suits(lim, bps)
    requires Allowed(history, lim) && Allowed(window, lim) && ConsumesOnly(window) && window != []
    ensures var w := Reached(bps, start, history);
            var firstRead := w.now + window[0].gap;
            ConformsSince(w, window, firstRead - 1000, Capacity(w.bucket.bytesPerSec) + Debt(lim.maxRequest) + 1)
  {
    ReachedSound(bps, start, history, lim);
    AllowedRunOk(Reached(bps, start, history), window, lim);
    WindowConforms(Reached(bps, start, history), window, lim.maxRequest);
  }

  lemma WindowConforms(w: World, window: seq<Op>, maxRequest: nat)
    requires SoundRun(w, window, maxRequest) && ConsumesOnly(window) && window != []
    ensures ConformsSince(w, window, w.now + window[0].gap - 1000,
                          Capacity(w.bucket.bytesPerSec) + Debt(maxRequest) + 1)
  {
    var w1, same := SameWindow(w, window, maxRequest);
    PaidFromHere(w1, same, maxRequest);
  }

  lemma PaidFromHere(w: World, ops: seq<Op>, maxRequest: nat)
    requires SoundRun(w, ops, maxRequest) && ConsumesOnly(ops)
    ensures ConformsSince(w, ops, w.now - 1000, Capacity(w.bucket.bytesPerSec) + Debt(maxRequest) + 1)
  {
    var b, r := w.bucket, After(w, ops);
    ConsumptionIsPaidFor(w, ops, maxRequest);
    RunStaysSound(w, ops, maxRequest);
    CarryIsSmall(w.now - b.lastRefill, b.bytesPerSec);
    WindowArithmetic(b.bytesPerSec, Consumed(ops), b, r.bucket, Debt(maxRequest), w.now - b.lastRefill, r.now - w.now);
  }

  /** Two runs that consume the same and end in the same state. */
  predicate SameOutcome(w: World, ops: seq<Op>, w': World, ops': seq<Op>)
    requires Timely(w) && Timely(w')
  {
    After(w, ops) == After(w', ops') && Consumed(ops) == Consumed(ops')
  }

  /** The same window, seen from just after its first refill. */
  lemma SameWindow(w: World, window: seq<Op>, maxRequest: nat) returns (w1: World, same: seq<Op>)
    requires SoundRun(w, window, maxRequest) && ConsumesOnly(window) && window != []
    ensures w1.now == w.now + window[0].gap
    ensures SoundRun(w1, same, maxRequest) && ConsumesOnly(same)
    ensures w1.bucket.bytesPerSec == w.bucket.bytesPerSec && SameOutcome(w1, same, w, window)
  {
    var again := Consume(window[0].bytes, 0, window[0].over);
    same := [again] + window[1..];
    w1 := FirstRefillOnce(w, window[0], maxRequest);
    SwapFirst(w, window, w1, again, maxRequest);
  }

  /** `op` from `w` and `again` from `w1` request the same and have the same effect. */
  ghost predicate Interchangeable(w: World, op: Op, w1: World, again: Op, maxRequest: nat) {
    && Timely(w) && Timely(w1) && Step(w1, again) == Step(w, op) && OpOk(w1.bucket, again, maxRequest)
    && op.Consume? && again.Consume? && again.bytes == op.bytes
  }

  /** A first call with the same effect and size changes nothing about the rest. */
  lemma SwapFirst(w: World, window: seq<Op>, w1: World, again: Op, maxRequest: nat)
    requires window != [] && ConsumesOnly(window) && Interchangeable(w, window[0], w1, again, maxRequest)
    requires RunOk(w, window, maxRequest)
    ensures var same := [again] + window[1..];
            ConsumesOnly(same) && RunOk(w1, same, maxRequest) && SameOutcome(w1, same, w, window)
  {
    assert ([again] + window[1..])[1..] == window[1..];
  }

  lemma WindowArithmetic(bps: nat, used: int, b: Bucket, r: Bucket, debt: int, carry: int, elapsed: int)
    requires bps == b.bytesPerSec == r.bytesPerSec && b.capacity == Capacity(bps)
    requires Claimed(b) + NANOS_PER_SEC * used <= Claimed(r)
    requires b.tokens <= b.capacity && -debt <= r.tokens && r.lastRefill - b.lastRefill <= elapsed + carry
    requires carry * bps < NANOS_PER_SEC + 1000 * bps
    ensures WithinRate(used, Capacity(bps) + debt + 1, bps, elapsed + 1000)
  {
    MulLe(r.lastRefill - b.lastRefill, elapsed + carry, bps);
    assert (r.lastRefill - b.lastRefill) * bps == r.lastRefill * bps - b.lastRefill * bps;
    assert (elapsed + carry) * bps == elapsed * bps + carry * bps;
    assert bps * (elapsed + 1000) == elapsed * bps + 1000 * bps;
  }

  /** Refilling twice at the same instant changes nothing. */
  lemma FirstRefillOnce(w: World, op: Op, maxRequest: nat) returns (w1: World)
    requires Sound(w, maxRequest) && op.Consume? && OpOk(w.bucket, op, maxRequest)
    ensures w1.now == w.now + op.gap
    ensures Sound(w1, maxRequest) && w1.bucket.bytesPerSec == w.bucket.bytesPerSec
    ensures Interchangeable(w, op, w1, Consume(op.bytes, 0, op.over), maxRequest)
  {
    var b1 := FirstRefill(w, op.gap, maxRequest);
    w1 := World(b1, w.now + op.gap);
    RefillIdle(b1, w.now + op.gap);
    SameStep(w, op.bytes, op.gap, op.over, b1);
  }

  lemma SameStep(w: World, bytes: nat, gap: nat, over: nat, b1: Bucket)
    requires Timely(w) && b1 == Refilled(w.bucket, w.now + gap) && Refilled(b1, w.now + gap) == b1
    ensures Step(World(b1, w.now + gap), Consume(bytes, 0, over)) == Step(w, Consume(bytes, gap, over))
  {
  }

  /** With nothing to claim, a refill does nothing. */
  lemma RefillIdle(b: Bucket, now: nat)
    requires RateInRange(b.bytesPerSec) && b.lastRefill <= now
    requires (now - b.lastRefill) / 1000 * b.bytesPerSec < 1_000_000
    ensures Refilled(b, now) == b
  {
    CarryIsSmall(now - b.lastRefill, b.bytesPerSec);
    CreditExactIff(now - b.lastRefill, b.bytesPerSec);
  }

  // ---------------------------------------------------------------- a sender that sends first and pays afterwards

  lemma {:induction false} RunSnoc(w: World, ops: seq<Op>, op: Op)
    requires Timely(w)
    ensures After(w, ops + [op]) == Step(After(w, ops), op)
    decreases |ops|
  {
    if ops != [] {
      assert (ops + [op])[1..] == ops[1..] + [op];
      RunSnoc(Step(w, ops[0]), ops[1..], op);
    }
  }

  lemma {:induction false} ConsumedSnoc(ops: seq<Op>, op: Op)
    ensures Consumed(ops + [op]) == Consumed(ops) + if op.Consume? then op.bytes else 0
  {
    if ops != [] {
      assert (ops + [op])[1..] == ops[1..] + [op];
      ConsumedSnoc(ops[1..], op);
    }
  }

  /** From a full bucket, what has been consumed never leads the rate by more than capacity and debt. */
  lemma FullBucketConforms(bps: nat, start: nat, ops: seq<Op>, lim: Limits)
    requires RateInRange(bps) && Suits(lim, bps) && Allowed(ops, lim) && ConsumesOnly(ops)
    ensures ConformsSince(Begin(bps, start), ops, start, Capacity(bps) + Debt(lim.maxRequest))
  {
    FreshIsSound(bps, start, lim.maxRequest);
    AllowedRunOk(Begin(bps, start), ops, lim);
    PaidFromFull(Begin(bps, start), ops, lim.maxRequest);
  }

  lemma PaidFromFull(w: World, ops: seq<Op>, maxRequest: nat)
    requires SoundRun(w, ops, maxRequest) && ConsumesOnly(ops) && w.bucket.lastRefill == w.now
    ensures ConformsSince(w, ops, w.now, Capacity(w.bucket.bytesPerSec) + Debt(maxRequest))
  {
    var b, r := w.bucket, After(w, ops);
    ConsumptionIsPaidFor(w, ops, maxRequest);
    RunStaysSound(w, ops, maxRequest);
    FullArithmetic(b.bytesPerSec, Consumed(ops), b, r.bucket, Debt(maxRequest), r.now - w.now);
  }

  lemma FullArithmetic(bps: nat, used: int, b: Bucket, r: Bucket, debt: int, elapsed: int)
    requires bps == b.bytesPerSec == r.bytesPerSec && b.capacity == Capacity(bps)
    requires Claimed(b) + NANOS_PER_SEC * used <= Claimed(r)
    requires b.tokens <= b.capacity && -debt <= r.tokens && r.lastRefill - b.lastRefill <= elapsed
    ensures WithinRate(used, Capacity(bps) + debt, bps, elapsed)
  {
    MulLe(r.lastRefill - b.lastRefill, elapsed, bps);
    assert (r.lastRefill - b.lastRefill) * bps == r.lastRefill * bps - b.lastRefill * bps;
  }

  /** Right after its k-th send, before paying for it, the sender leads the rate by at most `burst`. */
  predicate LeadsByAtMost(bps: nat, start: nat, ops: seq<Op>, k: nat, burst: int)
    requires k < |ops|
  {
    WithinRate(Consumed(ops[..k + 1]), burst, bps, After(Begin(bps, start), ops[..k]).now - start)
  }

  /** Consuming after each send: right after any send the sender leads the rate by at most capacity, debt and
      that one send. */
  lemma SendThenConsumeConforms(bps: nat, start: nat, ops: seq<Op>, k: nat, lim: Limits)
    requires RateInRange(bps) && Suits(lim, bps) && Allowed(ops, lim) && ConsumesOnly(ops) && k < |ops|
    ensures LeadsByAtMost(bps, start, ops, k, Capacity(bps) + Debt(lim.maxRequest) + lim.maxRequest)
  {
    ConsumedNext(ops, k);
    FullBucketConforms(bps, start, ops[..k], lim);
    OneMore(Consumed(ops[..k]), ops[k].bytes, Capacity(bps) + Debt(lim.maxRequest), lim.maxRequest, bps,
            After(Begin(bps, start), ops[..k]).now - start);
  }

  lemma ConsumedNext(ops: seq<Op>, k: nat)
    requires k < |ops| && ops[k].Consume?
    ensures Consumed(ops[..k + 1]) == Consumed(ops[..k]) + ops[k].bytes
  {
    assert ops[..k + 1] == ops[..k] + [ops[k]];
    ConsumedSnoc(ops[..k], ops[k]);
  }

  lemma OneMore(used: nat, bytes: nat, burst: int, maxRequest: nat, bps: nat, nanos: int)
    requires WithinRate(used, burst, bps, nanos) && bytes <= maxRequest
    ensures WithinRate(used + bytes, burst + maxRequest, bps, nanos)
  {
  }

  // ---------------------------------------------------------------- outside the supported rates

  /** Every run from a fresh bucket keeps the balance at or above `-debt`. */
  ghost predicate DebtBoundedBy(bps: nat, lim: Limits, debt: nat) {
    forall ops :: Allowed(ops, lim) ==> -(debt as int) <= Reached(bps, 0, ops).bucket.tokens
  }

  /** Time that passes between calls. */
  function Gaps(ops: seq<Op>): nat {
    if ops == [] then 0 else ops[0].gap + Gaps(ops[1..])
  }

  /** With `nanosPerByte == 0` no request ever waits; and requests that come all at once run up a debt of
      whatever they ask for. */
  lemma {:induction false} NeverSleeps(w: World, ops: seq<Op>)
    requires Timely(w) && w.bucket.nanosPerByte == 0 && ConsumesOnly(ops)
    ensures After(w, ops).now == w.now + Gaps(ops)
    ensures Gaps(ops) == 0 && w.bucket.lastRefill == w.now ==>
              After(w, ops).bucket.tokens == w.bucket.tokens - Consumed(ops)
    decreases |ops|
  {
    if ops != [] {
      NoWait(w, ops[0]);
      NeverSleeps(Step(w, ops[0]), ops[1..]);
    }
  }

  lemma NoWait(w: World, op: Op)
    requires Timely(w) && w.bucket.nanosPerByte == 0 && op.Consume?
    ensures var r := Step(w, op);
            && r.now == w.now + op.gap && r.bucket.nanosPerByte == 0
            && (op.gap == 0 && w.bucket.lastRefill == w.now ==>
                  r == World(w.bucket.(tokens := w.bucket.tokens - op.bytes), w.now))
  {
    FreeBytes(Refilled(w.bucket, w.now + op.gap), op.bytes);
  }

  lemma FreeBytes(b: Bucket, bytes: nat)
    requires b.nanosPerByte == 0
    ensures SleepFor(b, bytes) == 0
  {
  }

  function Burst(n: nat): seq<Op> {
    seq(n, _ => Consume(1, 0, 0))
  }

  lemma {:induction false} BurstConsumes(n: nat)
    ensures Consumed(Burst(n)) == n && Gaps(Burst(n)) == 0
  {
    if n > 0 {
      BurstConsumes(n - 1);
      assert Burst(n)[1..] == Burst(n - 1);
    }
  }

  /** The bucket limits its debt exactly for rates from 1 to 1e9 bytes per second: above that (and at
      rate 0) the integer nanoseconds-per-byte is 0 and `consume` never sleeps. */
  lemma DebtBoundedIffRateInRange(bps: nat, lim: Limits)
    requires 1 <= lim.maxRequest && Suits(lim, bps)
    ensures (exists debt: nat :: DebtBoundedBy(bps, lim, debt)) <==> RateInRange(bps)
  {
    if RateInRange(bps) {
      forall ops | Allowed(ops, lim)
        ensures -(Debt(lim.maxRequest) as int) <= Reached(bps, 0, ops).bucket.tokens
      {
        DebtIsBounded(bps, 0, ops, lim);
      }
      assert DebtBoundedBy(bps, lim, Debt(lim.maxRequest));
    } else {
      forall debt: nat ensures !DebtBoundedBy(bps, lim, debt) {
        var n := Capacity(bps) + debt + 1;
        BurstConsumes(n);
        NeverSleeps(Begin(bps, 0), Burst(n));
        assert Allowed(Burst(n), lim);
      }
    }
  }

  /** Five idle hours at 1e9 bytes per second overflow the product in `refill`: a bucket emptied by its first
      request then regains 290 bytes, not its capacity of 100,000,000. */
  lemma LongIdleLosesTokens()
    ensures var drained := Step(Begin(1_000_000_000, 0), Consume(100_000_000, 0, 0));
            var idle := Step(drained, Consume(0, 18_446_744_074_000, 0));
            drained.bucket.tokens == 0 && idle.bucket.tokens == 290 && idle.bucket.capacity == 100_000_000
  {
    LongIdleCredit();
    DrainAtOnce(Fresh(1_000_000_000, 0), 100_000_000);
    IdleThenAsk(Fresh(1_000_000_000, 0).(tokens := 0), 18_446_744_074_000, 290);
  }

  lemma DrainAtOnce(b: Bucket, bytes: nat)
    requires bytes <= b.tokens
    ensures Step(World(b, b.lastRefill), Consume(bytes, 0, 0)) == World(b.(tokens := b.tokens - bytes), b.lastRefill)
  {
  }

  lemma IdleThenAsk(b: Bucket, pause: nat, credit: nat)
    requires b.tokens == 0 && credit == Credit(pause, b.bytesPerSec) && 0 < credit <= b.capacity
    ensures Step(World(b, b.lastRefill), Consume(0, pause, 0))
         == World(b.(tokens := credit, lastRefill := b.lastRefill + pause), b.lastRefill + pause)
  {
  }

  lemma LongIdleCredit()
    ensures Credit(18_446_744_074_000, 1_000_000_000) == 290
  {
    assert (18_446_744_074_000 / 1000) % U64 == 18_446_744_074;
    assert (18_446_744_074 * 1_000_000_000) % U64 == 290_448_384;
  }
}

/** The bucket as an object that sleeps on a clock. */
module TokenBuckets {
  import opened Base
  import opened Clocks
  import opened TokenBucketSpec

  class TokenBucket {
    var bytesPerSec: nat
    var tokens: int
    var capacity: int
    var lastRefill: nat
    var nanosPerByte: nat
    const clock: Clock

    function State(): Bucket
      reads this
    {
      Bucket(bytesPerSec, tokens, capacity, lastRefill, nanosPerByte)
    }

    ghost function World(): World
      reads this, clock
    {
      TokenBucketSpec.World(State(), clock.now)
    }

    constructor (bytesPerSec: nat, clock: Clock)
      ensures this.clock == clock && World() == TokenBucketSpec.World(Fresh(bytesPerSec, clock.now), clock.now)
    {
      this.bytesPerSec := bytesPerSec;
      var burst := Max(bytesPerSec / 10, MIN_CAPACITY);
      this.capacity := burst;
      this.tokens := burst;
      this.lastRefill := clock.now;
      this.nanosPerByte := if bytesPerSec > 0 then NANOS_PER_SEC / bytesPerSec else 0;
      this.clock := clock;
    }

    method Refill(now: nat)
      requires lastRefill <= now
      modifies this
      ensures State() == Refilled(old(State()), now)
    {
      var elapsed := now - lastRefill;
      if elapsed % U64 > 0 {
        var micros := (elapsed / 1000) % U64;
        var toAdd := (micros * bytesPerSec) % U64 / 1_000_000;
        if toAdd > 0 {
          tokens := Min(tokens + toAdd, capacity);
          lastRefill := now;
        }
      }
    }

    method Consume(bytes: nat) returns (ghost op: Op)
      requires Timely(World())
      modifies this, clock
      ensures op.Consume? && op.bytes == bytes && op.gap <= clock.maxPause && op.over <= clock.maxPause
      ensures World() == Step(old(World()), op)
    {
      var now, gap := clock.Read();
      Refill(now);
      ghost var over := Deduct(bytes);
      op := Op.Consume(bytes, gap, over);
    }

    /** The rest of `Consume`. */
    method Deduct(bytes: nat) returns (ghost over: nat)
      requires Timely(World())
      modifies this, clock
      ensures over <= clock.maxPause && World() == Deducted(old(World()), bytes, over)
    {
      over := 0;
      if tokens < bytes {
        var needed := bytes - tokens;
        var nanos := (needed * nanosPerByte) % U64;
        if nanos > 0 {
          if nanos > SLEEP_FLOOR_NANOS {
            over := clock.Sleep(nanos);
            assert State() == old(State()) && nanos == SleepFor(old(State()), bytes);
            Refill(clock.now);
          }
        }
      }
      tokens := tokens - bytes;
    }

    method Reset() returns (ghost op: Op)
      requires Timely(World())
      modifies this, clock
      ensures op.Reset? && op.gap <= clock.maxPause && World() == Step(old(World()), op)
      ensures tokens == capacity == old(capacity) && lastRefill == clock.now == old(clock.now) + op.gap
    {
      tokens := capacity;
      var now, gap := clock.Read();
      lastRefill := now;
      op := Op.Reset(gap);
    }

    method SetBandwidth(bytesPerSec: nat) returns (ghost op: Op)
      requires Timely(World())
      modifies this, clock
      ensures op.SetBandwidth? && op.bytesPerSec == bytesPerSec && op.gap <= clock.maxPause
      ensures State() == Fresh(bytesPerSec, clock.now) && clock.now == old(clock.now) + op.gap
      ensures World() == Step(old(World()), op)
    {
      this.bytesPerSec := bytesPerSec;
      capacity := Max(bytesPerSec / 10, MIN_CAPACITY);
      nanosPerByte := if bytesPerSec > 0 then NANOS_PER_SEC / bytesPerSec else 0;
      var reset := Reset();
      op := Op.SetBandwidth(bytesPerSec, reset.gap);
    }
  }
}
