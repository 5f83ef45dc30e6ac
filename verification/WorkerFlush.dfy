/**
  The multi-threaded receiver (`recv_one_way_server_mt_tokio` in src/server.rs): workers count locally and
  flush into shared atomics now and then, and once more when the running flag drops. The two additions and
  the two resets of a flush are separate steps, so other threads may run in between.
 */
module WorkerFlush {
  import opened Base

  datatype Point =
    | Looping          // free to receive, to start a flush, or to leave the loop
    | BytesFlushed     // between the two additions of a periodic flush
    | BothFlushed      // before the resets
    | BytesReset       // between the resets
    | LastBytesFlushed // between the two additions of the final flush
    | Finished

  datatype Worker = Worker(point: Point, bytes: nat, packets: nat)

  datatype Pool = Pool(bytes: nat, packets: nat, running: bool, workers: seq<Worker>)

  datatype Step =
    | Stop
    | Receive(worker: nat, size: nat)
    | Leave(worker: nat)
    | Advance(worker: nat)

  predicate Enabled(p: Pool, s: Step) {
    s.Stop? || (s.worker < |p.workers| &&
      match s
      case Receive(w, _) => p.workers[w].point.Looping?
      case Leave(w) => p.workers[w].point.Looping? && !p.running
      case Advance(w) => !p.workers[w].point.Finished?)
  }

  function Apply(p: Pool, s: Step): Pool
    requires Enabled(p, s)
  {
    match s
    case Stop => p.(running := false)
    case Receive(w, size) =>
      var me := p.workers[w];
      p.(workers := p.workers[w := me.(bytes := FetchAdd(me.bytes, size), packets := FetchAdd(me.packets, 1))])
    case Leave(w) =>
      var me := p.workers[w];
      p.(bytes := FetchAdd(p.bytes, me.bytes), workers := p.workers[w := me.(point := LastBytesFlushed)])
    case Advance(w) =>
      var (me, bytes, packets) := Advanced(p.workers[w], p.bytes, p.packets);
      p.(bytes := bytes, packets := packets, workers := p.workers[w := me])
  }

  /** A worker's next step other than receiving or leaving the loop, with the shared counters it leaves behind. */
  function Advanced(me: Worker, bytes: nat, packets: nat): (Worker, nat, nat)
    requires !me.point.Finished?
  {
    match me.point
    case Looping => (me.(point := BytesFlushed), FetchAdd(bytes, me.bytes), packets)
    case BytesFlushed => (me.(point := BothFlushed), bytes, FetchAdd(packets, me.packets))
    case BothFlushed => (me.(point := BytesReset, bytes := 0), bytes, packets)
    case BytesReset => (me.(point := Looping, packets := 0), bytes, packets)
    case LastBytesFlushed => (me.(point := Finished), bytes, FetchAdd(packets, me.packets))
  }

  function Start(workers: nat): Pool {
    Pool(0, 0, true, seq(workers, _ => Worker(Looping, 0, 0)))
  }

  function Run(workers: nat, steps: seq<Step>): Option<Pool> {
    if steps == [] then Some(Start(workers))
    else
      match Run(workers, steps[..|steps| - 1])
      case None => None
      case Some(p) => if Enabled(p, steps[|steps| - 1]) then Some(Apply(p, steps[|steps| - 1])) else None
  }

  /** Bytes and packets that arrived at any worker. */
  function Arrived(steps: seq<Step>): (nat, nat) {
    if steps == [] then (0, 0)
    else
      var (bytes, packets) := Arrived(steps[..|steps| - 1]);
      var s := steps[|steps| - 1];
      if s.Receive? then (bytes + s.size, packets + 1) else (bytes, packets)
  }

  /** What a worker holds that the shared counters do not have yet. */
  function Unflushed(w: Worker): (nat, nat) {
    (if w.point.Looping? then w.bytes else 0,
     if w.point.Looping? || w.point.BytesFlushed? || w.point.LastBytesFlushed? then w.packets else 0)
  }

  function Pending(workers: seq<Worker>): (nat, nat) {
    if workers == [] then (0, 0)
    else
      var (b, p), (bytes, packets) := Unflushed(workers[|workers| - 1]), Pending(workers[..|workers| - 1]);
      (bytes + b, packets + p)
  }

  lemma {:induction false} PendingUpdate(workers: seq<Worker>, i: nat, w: Worker)
    requires i < |workers|
    ensures Pending(workers[i := w]).0 == Pending(workers).0 - Unflushed(workers[i]).0 + Unflushed(w).0
    ensures Pending(workers[i := w]).1 == Pending(workers).1 - Unflushed(workers[i]).1 + Unflushed(w).1
    ensures Unflushed(workers[i]).0 <= Pending(workers).0 && Unflushed(workers[i]).1 <= Pending(workers).1
  {
    var n := |workers| - 1;
    if i == n {
      assert workers[i := w][..n] == workers[..n];
    } else {
      assert workers[i := w][..n] == workers[..n][i := w];
      PendingUpdate(workers[..n], i, w);
    }
  }

  lemma {:induction false} NothingPending(workers: seq<Worker>)
    requires forall i :: 0 <= i < |workers| ==> Unflushed(workers[i]) == (0, 0)
    ensures Pending(workers) == (0, 0)
  {
    if workers != [] {
      NothingPending(workers[..|workers| - 1]);
    }
  }

  /** Between the resets the byte counter is already clear. */
  ghost predicate ResetsInOrder(workers: seq<Worker>) {
    forall i :: 0 <= i < |workers| && workers[i].point.BytesReset? ==> workers[i].bytes == 0
  }

  predicate Fits(steps: seq<Step>) {
    Arrived(steps).0 < U64 && Arrived(steps).1 < U64
  }

  lemma AdvancedConserves(me: Worker, bytes: nat, packets: nat)
    requires !me.point.Finished? && (me.point.BytesReset? ==> me.bytes == 0)
    requires bytes + me.bytes < U64 || !me.point.Looping?
    requires packets + me.packets < U64 || !(me.point.BytesFlushed? || me.point.LastBytesFlushed?)
    ensures var (me', bytes', packets') := Advanced(me, bytes, packets);
            && bytes <= bytes' && packets <= packets'
            && bytes' + Unflushed(me').0 == bytes + Unflushed(me).0
            && packets' + Unflushed(me').1 == packets + Unflushed(me).1
            && (me'.point.BytesReset? ==> me'.bytes == 0)
  {
  }

  lemma ApplyConserves(p: Pool, steps: seq<Step>, s: Step)
    requires Enabled(p, s) && ResetsInOrder(p.workers) && Fits(steps + [s])
    requires p.bytes + Pending(p.workers).0 == Arrived(steps).0
    requires p.packets + Pending(p.workers).1 == Arrived(steps).1
    ensures var r := Apply(p, s);
            && ResetsInOrder(r.workers)
            && r.bytes + Pending(r.workers).0 == Arrived(steps + [s]).0
            && r.packets + Pending(r.workers).1 == Arrived(steps + [s]).1
            && p.bytes <= r.bytes && p.packets <= r.packets
  {
    assert (steps + [s])[..|steps|] == steps;
    match s
    case Stop =>
    case Receive(w, size) => PendingUpdate(p.workers, w, Apply(p, s).workers[w]);
    case Leave(w) => PendingUpdate(p.workers, w, Apply(p, s).workers[w]);
    case Advance(w) =>
      PendingUpdate(p.workers, w, Apply(p, s).workers[w]);
      AdvancedConserves(p.workers[w], p.bytes, p.packets);
  }

  /** Conservation: at every point of every interleaving, shared counters plus unflushed locals are exactly
      what arrived (as long as that fits in 64 bits). */
  lemma {:induction false} FlushConserves(workers: nat, steps: seq<Step>, p: Pool)
    requires Run(workers, steps) == Some(p) && Fits(steps)
    ensures ResetsInOrder(p.workers)
    ensures p.bytes + Pending(p.workers).0 == Arrived(steps).0
    ensures p.packets + Pending(p.workers).1 == Arrived(steps).1
  {
    if steps == [] {
      NothingPending(p.workers);
    } else {
      var front := steps[..|steps| - 1];
      assert steps == front + [steps[|steps| - 1]];
      FlushConserves(workers, front, Run(workers, front).value);
      ApplyConserves(Run(workers, front).value, front, steps[|steps| - 1]);
    }
  }

  /** Once every worker has finished, the shared counters are exact: nothing lost, nothing counted twice. */
  lemma JoinedTotalsExact(workers: nat, steps: seq<Step>, p: Pool)
    requires Run(workers, steps) == Some(p) && Fits(steps)
    requires AllFinished(p)
    ensures (p.bytes, p.packets) == Arrived(steps)
  {
    FlushConserves(workers, steps, p);
    NothingPending(p.workers);
  }

  /** The monitor's readings never run ahead of what arrived and never go backwards. */
  lemma {:induction false} ReadingsMonotone(workers: nat, steps: seq<Step>, more: seq<Step>, p: Pool, later: Pool)
    requires Run(workers, steps) == Some(p) && Run(workers, steps + more) == Some(later) && Fits(steps + more)
    ensures p.bytes <= later.bytes <= Arrived(steps + more).0
    ensures p.packets <= later.packets <= Arrived(steps + more).1
    decreases |more|
  {
    FlushConserves(workers, steps + more, later);
    if more == [] {
      assert steps + more == steps;
    } else {
      var front, s := more[..|more| - 1], more[|more| - 1];
      assert steps + more == steps + front + [s];
      var before := LastStep(workers, steps + front, s, later);
      ReadingsMonotone(workers, steps, front, p, before);
      StepMonotone(workers, steps + front, s, before);
    }
  }

  lemma LastStep(workers: nat, steps: seq<Step>, s: Step, later: Pool) returns (before: Pool)
    requires Run(workers, steps + [s]) == Some(later) && Fits(steps + [s])
    ensures Run(workers, steps) == Some(before) && Enabled(before, s) && later == Apply(before, s) && Fits(steps)
  {
    assert (steps + [s])[..|steps|] == steps;
    before := Run(workers, steps).value;
  }

  lemma StepMonotone(workers: nat, steps: seq<Step>, s: Step, before: Pool)
    requires Run(workers, steps) == Some(before) && Enabled(before, s) && Fits(steps) && Fits(steps + [s])
    ensures before.bytes <= Apply(before, s).bytes && before.packets <= Apply(before, s).packets
  {
    FlushConserves(workers, steps, before);
    ApplyConserves(before, steps, s);
  }

  // ---------------------------------------------------------------- every run can be finished

  ghost predicate AllFinished(p: Pool) {
    forall i :: 0 <= i < |p.workers| ==> p.workers[i].point.Finished?
  }

  ghost predicate NothingArrives(steps: seq<Step>) {
    forall i :: 0 <= i < |steps| ==> !steps[i].Receive?
  }

  /** Steps a worker still takes if it leaves the loop at the next opportunity. */
  function StepsLeft(p: Point): nat {
    match p
    case BytesFlushed => 5
    case BothFlushed => 4
    case BytesReset => 3
    case Looping => 2
    case LastBytesFlushed => 1
    case Finished => 0
  }

  function AllStepsLeft(workers: seq<Worker>): nat {
    if workers == [] then 0
    else AllStepsLeft(workers[..|workers| - 1]) + StepsLeft(workers[|workers| - 1].point)
  }

  lemma {:induction false} StepsLeftUpdate(workers: seq<Worker>, i: nat, w: Worker)
    requires i < |workers|
    ensures AllStepsLeft(workers[i := w]) == AllStepsLeft(workers) - StepsLeft(workers[i].point) + StepsLeft(w.point)
  {
    var n := |workers| - 1;
    if i == n {
      assert workers[i := w][..n] == workers[..n];
    } else {
      assert workers[i := w][..n] == workers[..n][i := w];
      StepsLeftUpdate(workers[..n], i, w);
    }
  }

  lemma NextStep(workers: nat, steps: seq<Step>, p: Pool, s: Step)
    requires Run(workers, steps) == Some(p) && Enabled(p, s)
    ensures Run(workers, steps + [s]) == Some(Apply(p, s))
  {
    assert (steps + [s])[..|steps|] == steps;
  }

  lemma {:induction false} Drains(workers: nat, steps: seq<Step>, p: Pool) returns (more: seq<Step>, q: Pool)
    requires Run(workers, steps) == Some(p) && !p.running
    ensures Run(workers, steps + more) == Some(q) && AllFinished(q) && NothingArrives(more)
    decreases AllStepsLeft(p.workers)
  {
    if AllFinished(p) {
      more, q := [], p;
      assert steps + [] == steps;
    } else {
      var w: nat :| w < |p.workers| && !p.workers[w].point.Finished?;
      var s := if p.workers[w].point.Looping? then Leave(w) else Advance(w);
      NextStep(workers, steps, p, s);
      StepsLeftUpdate(p.workers, w, Apply(p, s).workers[w]);
      more, q := Drains(workers, steps + [s], Apply(p, s));
      assert steps + [s] + more == steps + ([s] + more);
      more := [s] + more;
    }
  }

  /** Once it is stopped, any run can be brought to its end, with nothing more arriving; and then the shared counters
      are exact. */
  lemma CanBeJoined(workers: nat, steps: seq<Step>, p: Pool) returns (more: seq<Step>, q: Pool)
    requires Run(workers, steps) == Some(p) && Fits(steps)
    ensures Run(workers, steps + [Stop] + more) == Some(q) && AllFinished(q) && NothingArrives(more)
    ensures (q.bytes, q.packets) == Arrived(steps)
  {
    NextStep(workers, steps, p, Stop);
    more, q := Drains(workers, steps + [Stop], Apply(p, Stop));
    NoneArrive(steps + [Stop], more);
    assert (steps + [Stop])[..|steps|] == steps;
    JoinedTotalsExact(workers, steps + [Stop] + more, q);
  }

  lemma {:induction false} NoneArrive(steps: seq<Step>, more: seq<Step>)
    requires NothingArrives(more)
    ensures Arrived(steps + more) == Arrived(steps)
  {
    if more == [] {
      assert steps + more == steps;
    } else {
      var n := |more| - 1;
      NoneArrive(steps, more[..n]);
      assert (steps + more)[..|steps| + n] == steps + more[..n];
    }
  }

  /** Until it is stopped, no worker leaves its loop. */
  lemma {:induction false} WorksUntilStopped(workers: nat, steps: seq<Step>, p: Pool)
    requires Run(workers, steps) == Some(p) && forall i :: 0 <= i < |steps| ==> !steps[i].Stop?
    ensures p.running && |p.workers| == workers
    ensures forall i :: 0 <= i < |p.workers| ==> !p.workers[i].point.LastBytesFlushed? && !p.workers[i].point.Finished?
  {
    if steps != [] {
      var front := steps[..|steps| - 1];
      WorksUntilStopped(workers, front, Run(workers, front).value);
    }
  }
}
