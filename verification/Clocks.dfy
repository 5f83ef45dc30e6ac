/** The clocks of one host, in nanoseconds. Only the environment decides how far a reading lies after the last. */
module Clocks {

  class Clock {
    /** `Instant::now()`. */
    var now: nat
    /** Distance of the wall clock (`SystemTime`) from the monotonic one: they advance together. */
    const wallOffset: nat
    /** No pause between two readings is longer than this. */
    const maxPause: nat

    constructor (start: nat, wallOffset: nat, maxPause: nat)
      ensures now == start && this.wallOffset == wallOffset && this.maxPause == maxPause
    {
      now := start;
      this.wallOffset := wallOffset;
      this.maxPause := maxPause;
    }

    /** A reading some time after the previous one. */
    method Read() returns (t: nat, ghost gap: nat)
      modifies this
      ensures gap <= maxPause && t == now == old(now) + gap
    {
      var pause: nat :| pause <= maxPause;
      now := now + pause;
      t, gap := now, pause;
    }

    /** `time::sleep(nanos)` and the reading after it: at least `nanos` later. */
    method Sleep(nanos: nat) returns (ghost over: nat)
      modifies this
      ensures over <= maxPause && now == old(now) + nanos + over
    {
      var pause: nat :| pause <= maxPause;
      now := now + nanos + pause;
      over := pause;
    }
  }
}
