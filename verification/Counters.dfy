/**
  The collector's lock-free counters (src/measurements.rs) under concurrency. A record call is three atomic
  steps: add to the global counter, get or create the stream's entry under the lock, add to that entry.
  Any number of tasks interleave their calls in any order.
 */
module CounterProtocol {
  import opened Base

  datatype Kind = Sent | Received | Packets

  datatype Counters = Counters(sent: u64, received: u64, packets: u64) {
    function Get(k: Kind): u64 {
      match k case Sent => sent case Received => received case Packets => packets
    }

    function Add(k: Kind, amount: nat): Counters {
      match k
      case Sent => this.(sent := FetchAdd(sent, amount))
      case Received => this.(received := FetchAdd(received, amount))
      case Packets => this.(packets := FetchAdd(packets, amount))
    }
  }

  const ZERO := Counters(0, 0, 0)

  datatype Stream = Stream(id: nat, counts: Counters)

  /** Where a task stands in its current call. A resolved task holds the entry it will add to. */
  datatype Phase =
    | Idle
    | Added(kind: Kind, id: nat, amount: nat)
    | Resolved(kind: Kind, id: nat, amount: nat, slot: nat)

  datatype Collector = Collector(totals: Counters, streams: seq<Stream>, tasks: seq<Phase>)

  datatype Step =
    | Begin(task: nat, kind: Kind, id: nat, amount: nat)
    | Lookup(task: nat)
    | Commit(task: nat)

  /** Position of a stream's entry, or the length of the vector when there is none. */
  function Find(streams: seq<Stream>, id: nat): (slot: nat)
    ensures slot <= |streams|
    ensures slot < |streams| ==> streams[slot].id == id
    ensures forall i :: 0 <= i < slot ==> streams[i].id != id
  {
    if streams == [] || streams[0].id == id then 0 else 1 + Find(streams[1..], id)
  }

  /** The entries once a stream has one: a new one starts at zero. */
  function Grown(streams: seq<Stream>, id: nat): seq<Stream> {
    if Find(streams, id) < |streams| then streams else streams + [Stream(id, ZERO)]
  }

  /** What the vector shows for a stream. */
  function Shown(streams: seq<Stream>, id: nat): Counters {
    if streams == [] then ZERO else if streams[0].id == id then streams[0].counts else Shown(streams[1..], id)
  }

  lemma {:induction false} ShownIsFound(streams: seq<Stream>, id: nat)
    ensures Shown(streams, id) == if Find(streams, id) < |streams| then streams[Find(streams, id)].counts else ZERO
  {
    if streams != [] && streams[0].id != id {
      ShownIsFound(streams[1..], id);
    }
  }

  /** The vector shows `counts` for one stream, and what it showed before for all others. */
  ghost predicate OnlyChanged(before: seq<Stream>, after: seq<Stream>, id: nat, counts: Counters) {
    Shown(after, id) == counts && forall other | other != id :: Shown(after, other) == Shown(before, other)
  }

  predicate Enabled(c: Collector, s: Step) {
    && s.task < |c.tasks|
    && match s
       case Begin(_, _, _, _) => c.tasks[s.task].Idle?
       case Lookup(_) => c.tasks[s.task].Added?
       case Commit(_) => c.tasks[s.task].Resolved? && c.tasks[s.task].slot < |c.streams|
  }

  function Apply(c: Collector, s: Step): Collector
    requires Enabled(c, s)
  {
    match s
    case Begin(t, kind, id, amount) =>
      c.(totals := c.totals.Add(kind, amount), tasks := c.tasks[t := Added(kind, id, amount)])
    case Lookup(t) =>
      var p := c.tasks[t];
      c.(streams := Grown(c.streams, p.id),
         tasks := c.tasks[t := Resolved(p.kind, p.id, p.amount, Find(c.streams, p.id))])
    case Commit(t) =>
      var p := c.tasks[t];
      var entry := c.streams[p.slot];
      c.(streams := c.streams[p.slot := entry.(counts := entry.counts.Add(p.kind, p.amount))],
         tasks := c.tasks[t := Idle])
  }

  function Start(tasks: nat): Collector {
    Collector(ZERO, [], seq(tasks, _ => Idle))
  }

  /** The state an interleaving leads to; None when it takes a step that is not possible. */
  function Run(tasks: nat, steps: seq<Step>): Option<Collector> {
    if steps == [] then Some(Start(tasks))
    else
      match Run(tasks, steps[..|steps| - 1])
      case None => None
      case Some(c) => if Enabled(c, steps[|steps| - 1]) then Some(Apply(c, steps[|steps| - 1])) else None
  }

  // ---------------------------------------------------------------- what has been recorded

  /** Selects one stream, or every stream. */
  predicate Selects(sel: Option<nat>, id: nat) {
    sel == None || sel == Some(id)
  }

  /** Everything handed to record calls so far. */
  function Recorded(steps: seq<Step>, k: Kind, sel: Option<nat>): nat {
    if steps == [] then 0
    else
      var s := steps[|steps| - 1];
      Recorded(steps[..|steps| - 1], k, sel) + if s.Begin? && s.kind == k && Selects(sel, s.id) then s.amount else 0
  }

  function InStreams(streams: seq<Stream>, k: Kind, sel: Option<nat>): nat {
    if streams == [] then 0
    else
      var e := streams[|streams| - 1];
      InStreams(streams[..|streams| - 1], k, sel) + if Selects(sel, e.id) then e.counts.Get(k) else 0
  }

  /** Amounts added to a global counter but not yet to a stream. */
  function InFlight(tasks: seq<Phase>, k: Kind, sel: Option<nat>): nat {
    if tasks == [] then 0
    else
      InFlight(tasks[..|tasks| - 1], k, sel) + PhaseAmount(tasks[|tasks| - 1], k, sel)
  }

  function PhaseAmount(p: Phase, k: Kind, sel: Option<nat>): nat {
    if !p.Idle? && p.kind == k && Selects(sel, p.id) then p.amount else 0
  }

  lemma {:induction false} InFlightUpdate(tasks: seq<Phase>, t: nat, p: Phase, k: Kind, sel: Option<nat>)
    requires t < |tasks|
    ensures InFlight(tasks[t := p], k, sel)
         == InFlight(tasks, k, sel) - PhaseAmount(tasks[t], k, sel) + PhaseAmount(p, k, sel)
  {
    var n := |tasks| - 1;
    if t == n {
      assert tasks[t := p][..n] == tasks[..n];
    } else {
      assert tasks[t := p][..n] == tasks[..n][t := p];
      InFlightUpdate(tasks[..n], t, p, k, sel);
    }
  }

  lemma {:induction false} InStreamsUpdate(streams: seq<Stream>, i: nat, e: Stream, k: Kind, sel: Option<nat>)
    requires i < |streams| && e.id == streams[i].id
    ensures InStreams(streams[i := e], k, sel)
         == InStreams(streams, k, sel) + if Selects(sel, e.id) then e.counts.Get(k) - streams[i].counts.Get(k) else 0
    ensures Selects(sel, e.id) ==> streams[i].counts.Get(k) <= InStreams(streams, k, sel)
  {
    var n := |streams| - 1;
    if i == n {
      assert streams[i := e][..n] == streams[..n];
    } else {
      assert streams[i := e][..n] == streams[..n][i := e];
      InStreamsUpdate(streams[..n], i, e, k, sel);
    }
  }

  lemma {:induction false} AllIdle(tasks: seq<Phase>, k: Kind, sel: Option<nat>)
    requires forall i :: 0 <= i < |tasks| ==> tasks[i].Idle?
    ensures InFlight(tasks, k, sel) == 0
  {
    if tasks != [] {
      AllIdle(tasks[..|tasks| - 1], k, sel);
    }
  }

  // ---------------------------------------------------------------- the invariant

  ghost predicate UniqueIds(streams: seq<Stream>) {
    forall i, j :: 0 <= i < j < |streams| ==> streams[i].id != streams[j].id
  }

  /** Resolved tasks hold their own stream's entry. */
  ghost predicate SlotsMatch(c: Collector) {
    forall t :: 0 <= t < |c.tasks| && c.tasks[t].Resolved? ==>
      c.tasks[t].slot < |c.streams| && c.streams[c.tasks[t].slot].id == c.tasks[t].id
  }

  /** For one counter and one selection of streams: nothing recorded is missing or misplaced. */
  predicate Balanced(c: Collector, steps: seq<Step>, k: Kind, sel: Option<nat>) {
    InStreams(c.streams, k, sel) + InFlight(c.tasks, k, sel) == Recorded(steps, k, sel)
  }

  lemma ApplyBalanced(c: Collector, steps: seq<Step>, s: Step, k: Kind, sel: Option<nat>)
    requires Enabled(c, s) && SlotsMatch(c)
    requires Balanced(c, steps, k, sel) && Balanced(c, steps, k, None)
    requires Recorded(steps + [s], k, None) < U64
    ensures Balanced(Apply(c, s), steps + [s], k, sel)
  {
    assert (steps + [s])[..|steps|] == steps;
    match s
    case Begin(t, kind, id, amount) =>
      InFlightUpdate(c.tasks, t, Added(kind, id, amount), k, sel);
    case Lookup(t) =>
      LookupBalanced(c, t, k, sel);
    case Commit(t) =>
      CommitBalanced(c, t, k, sel);
  }

  /** A new entry starts at zero. */
  lemma LookupBalanced(c: Collector, t: nat, k: Kind, sel: Option<nat>)
    requires Enabled(c, Lookup(t))
    ensures var c' := Apply(c, Lookup(t));
            && InStreams(c'.streams, k, sel) == InStreams(c.streams, k, sel)
            && InFlight(c'.tasks, k, sel) == InFlight(c.tasks, k, sel)
  {
    var c' := Apply(c, Lookup(t));
    InFlightUpdate(c.tasks, t, c'.tasks[t], k, sel);
    GrownKeeps(c.streams, c.tasks[t].id, k, sel);
  }

  lemma GrownKeeps(streams: seq<Stream>, id: nat, k: Kind, sel: Option<nat>)
    ensures Find(streams, id) < |Grown(streams, id)| && Grown(streams, id)[Find(streams, id)].id == id
    ensures InStreams(Grown(streams, id), k, sel) == InStreams(streams, k, sel)
  {
    if Find(streams, id) == |streams| {
      assert Grown(streams, id)[..|streams|] == streams;
    }
  }

  /** A commit moves an amount from in flight to its stream; the entry has room because the total has. */
  lemma CommitBalanced(c: Collector, t: nat, k: Kind, sel: Option<nat>)
    requires Enabled(c, Commit(t)) && SlotsMatch(c)
    requires InStreams(c.streams, k, None) + InFlight(c.tasks, k, None) < U64
    ensures var c' := Apply(c, Commit(t));
            InStreams(c'.streams, k, sel) + InFlight(c'.tasks, k, sel)
              == InStreams(c.streams, k, sel) + InFlight(c.tasks, k, sel)
  {
    var p, c' := c.tasks[t], Apply(c, Commit(t));
    InFlightUpdate(c.tasks, t, Idle, k, None);
    InFlightUpdate(c.tasks, t, Idle, k, sel);
    InStreamsUpdate(c.streams, p.slot, c'.streams[p.slot], k, None);
    InStreamsUpdate(c.streams, p.slot, c'.streams[p.slot], k, sel);
    if p.kind != k {
      OtherKindUnchanged(c.streams[p.slot].counts, p.kind, k, p.amount);
    }
  }

  lemma OtherKindUnchanged(counts: Counters, changed: Kind, k: Kind, amount: nat)
    requires changed != k
    ensures counts.Add(changed, amount).Get(k) == counts.Get(k)
  {
  }

  /** In every reachable state, with less than 2^64 recorded per counter: the global counter shows exactly
      what was recorded, stream entries and amounts in flight account for it stream by stream, and no
      stream has two entries. */
  lemma {:induction false} EveryInterleaving(tasks: nat, steps: seq<Step>, c: Collector, k: Kind, sel: Option<nat>)
    requires Run(tasks, steps) == Some(c) && Recorded(steps, k, None) < U64
    ensures UniqueIds(c.streams) && SlotsMatch(c)
    ensures c.totals.Get(k) == Recorded(steps, k, None)
    ensures Balanced(c, steps, k, None) && Balanced(c, steps, k, sel)
  {
    if steps == [] {
      AllIdle(c.tasks, k, None);
      AllIdle(c.tasks, k, sel);
    } else {
      var front, s := steps[..|steps| - 1], steps[|steps| - 1];
      var before := Run(tasks, front).value;
      assert steps == front + [s];
      EveryInterleaving(tasks, front, before, k, sel);
      ApplyBalanced(before, front, s, k, None);
      ApplyBalanced(before, front, s, k, sel);
      ApplyKeepsEntries(before, s);
      if s.Begin? && s.kind != k {
        OtherKindUnchanged(before.totals, s.kind, k, s.amount);
      }
    }
  }

  lemma ApplyKeepsEntries(c: Collector, s: Step)
    requires Enabled(c, s) && UniqueIds(c.streams) && SlotsMatch(c)
    ensures UniqueIds(Apply(c, s).streams) && SlotsMatch(Apply(c, s))
  {
  }

  /** The three totals and the stream entries that `get` copies. */
  datatype Snapshot = Snapshot(totals: Counters, streams: seq<Stream>)

  function TakeSnapshot(c: Collector): Snapshot {
    Snapshot(c.totals, c.streams)
  }

  /** A snapshot with no record call under way is consistent: its stream entries sum to its totals, and
      each entry is exactly what was recorded for that stream. */
  lemma QuietSnapshotConsistent(tasks: nat, steps: seq<Step>, c: Collector, k: Kind, i: nat)
    requires Run(tasks, steps) == Some(c) && Recorded(steps, k, None) < U64
    requires forall t :: 0 <= t < |c.tasks| ==> c.tasks[t].Idle?
    ensures var m := TakeSnapshot(c);
            && InStreams(m.streams, k, None) == m.totals.Get(k) == Recorded(steps, k, None)
            && (i < |m.streams| ==> m.streams[i].counts.Get(k) == Recorded(steps, k, Some(m.streams[i].id)))
  {
    EveryInterleaving(tasks, steps, c, k, None);
    AllIdle(c.tasks, k, None);
    if i < |c.streams| {
      var id := c.streams[i].id;
      EveryInterleaving(tasks, steps, c, k, Some(id));
      AllIdle(c.tasks, k, Some(id));
      OneEntry(c.streams, i, k);
    }
  }

  lemma {:induction false} OneEntry(streams: seq<Stream>, i: nat, k: Kind)
    requires UniqueIds(streams) && i < |streams|
    ensures InStreams(streams, k, Some(streams[i].id)) == streams[i].counts.Get(k)
  {
    var n := |streams| - 1;
    if i == n {
      NoEntry(streams[..n], streams[i].id, k);
    } else {
      OneEntry(streams[..n], i, k);
    }
  }

  lemma {:induction false} NoEntry(streams: seq<Stream>, id: nat, k: Kind)
    requires forall i :: 0 <= i < |streams| ==> streams[i].id != id
    ensures InStreams(streams, k, Some(id)) == 0
  {
    if streams != [] {
      NoEntry(streams[..|streams| - 1], id, k);
    }
  }

  // ---------------------------------------------------------------- reading while records are under way

  lemma {:induction false} PrefixRuns(tasks: nat, steps: seq<Step>, n: nat)
    requires Run(tasks, steps).Some? && n <= |steps|
    ensures Run(tasks, steps[..n]).Some?
  {
    if n < |steps| {
      PrefixRuns(tasks, steps[..|steps| - 1], n);
      assert steps[..|steps| - 1][..n] == steps[..n];
    } else {
      assert steps[..n] == steps;
    }
  }

  /** The collector when the first `n` steps of a run have been made. */
  function StateAt(tasks: nat, steps: seq<Step>, n: nat): Collector
    requires Run(tasks, steps).Some? && n <= |steps|
  {
    PrefixRuns(tasks, steps, n);
    Run(tasks, steps[..n]).value
  }

  /** When a call of `get` makes its loads, counted in steps of the other tasks: a total first, then, under the
      lock of the vector, the counter of each entry. The lock keeps new entries out, but not additions. */
  datatype Reading = Reading(totalAt: nat, lockedAt: nat, entryAt: seq<nat>)

  ghost predicate Possible(r: Reading, tasks: nat, steps: seq<Step>)
    requires Run(tasks, steps).Some?
  {
    && r.totalAt <= r.lockedAt <= |steps| && |r.entryAt| == |StateAt(tasks, steps, r.lockedAt).streams|
    && forall i :: 0 <= i < |r.entryAt| ==> r.lockedAt <= r.entryAt[i] <= |steps|
  }

  function EntryOf(streams: seq<Stream>, i: nat, k: Kind): nat {
    if i < |streams| then streams[i].counts.Get(k) else 0
  }

  function SumOf(values: seq<nat>): nat {
    if values == [] then 0 else SumOf(values[..|values| - 1]) + values[|values| - 1]
  }

  /** Entries are never removed, and no counter ever falls. */
  ghost predicate Grows(before: seq<Stream>, after: seq<Stream>, k: Kind) {
    |before| <= |after| && forall i :: 0 <= i < |before| ==> EntryOf(before, i, k) <= EntryOf(after, i, k)
  }

  lemma StepGrows(c: Collector, s: Step, k: Kind)
    requires Enabled(c, s) && SlotsMatch(c)
    requires InStreams(c.streams, k, None) + InFlight(c.tasks, k, None) < U64
    ensures Grows(c.streams, Apply(c, s).streams, k)
  {
    if s.Commit? {
      var p := c.tasks[s.task];
      InFlightUpdate(c.tasks, s.task, Idle, k, None);
      InStreamsUpdate(c.streams, p.slot, c.streams[p.slot], k, None);
      if p.kind != k {
        OtherKindUnchanged(c.streams[p.slot].counts, p.kind, k, p.amount);
      }
    }
  }

  lemma {:induction false} RecordedGrows(steps: seq<Step>, n: nat, k: Kind, sel: Option<nat>)
    requires n <= |steps|
    ensures Recorded(steps[..n], k, sel) <= Recorded(steps, k, sel)
  {
    if n < |steps| {
      RecordedGrows(steps[..|steps| - 1], n, k, sel);
      assert steps[..|steps| - 1][..n] == steps[..n];
    } else {
      assert steps[..n] == steps;
    }
  }

  /** The entries when the first `n` steps of a run have been made. */
  function StreamsAt(tasks: nat, steps: seq<Step>, n: nat): seq<Stream>
    requires Run(tasks, steps).Some? && n <= |steps|
  {
    StateAt(tasks, steps, n).streams
  }

  lemma {:induction false} RunGrows(tasks: nat, steps: seq<Step>, n: nat, m: nat, k: Kind)
    requires Run(tasks, steps).Some? && n <= m <= |steps| && Recorded(steps, k, None) < U64
    ensures Grows(StreamsAt(tasks, steps, n), StreamsAt(tasks, steps, m), k)
    decreases m - n
  {
    if n < m {
      NextGrows(tasks, steps, n, k);
      RunGrows(tasks, steps, n + 1, m, k);
      GrowsTransitive(StreamsAt(tasks, steps, n), StreamsAt(tasks, steps, n + 1), StreamsAt(tasks, steps, m), k);
    }
  }

  lemma GrowsTransitive(a: seq<Stream>, b: seq<Stream>, c: seq<Stream>, k: Kind)
    requires Grows(a, b, k) && Grows(b, c, k)
    ensures Grows(a, c, k)
  {
    forall i | 0 <= i < |a| ensures EntryOf(a, i, k) <= EntryOf(c, i, k) {
      assert EntryOf(a, i, k) <= EntryOf(b, i, k);
    }
  }

  lemma NextState(tasks: nat, steps: seq<Step>, n: nat)
    requires Run(tasks, steps).Some? && n < |steps|
    ensures var c := StateAt(tasks, steps, n);
            Enabled(c, steps[n]) && StateAt(tasks, steps, n + 1) == Apply(c, steps[n])
  {
    PrefixRuns(tasks, steps, n + 1);
    assert steps[..n + 1][..n] == steps[..n];
  }

  lemma NextGrows(tasks: nat, steps: seq<Step>, n: nat, k: Kind)
    requires Run(tasks, steps).Some? && n < |steps| && Recorded(steps, k, None) < U64
    ensures Grows(StreamsAt(tasks, steps, n), StreamsAt(tasks, steps, n + 1), k)
  {
    PrefixRuns(tasks, steps, n);
    RecordedGrows(steps, n, k, None);
    EveryInterleaving(tasks, steps[..n], StateAt(tasks, steps, n), k, None);
    NextState(tasks, steps, n);
    StepGrows(StateAt(tasks, steps, n), steps[n], k);
  }

  lemma {:induction false} SumAbove(streams: seq<Stream>, values: seq<nat>, k: Kind)
    requires |streams| <= |values| && forall i :: 0 <= i < |streams| ==> EntryOf(streams, i, k) <= values[i]
    ensures InStreams(streams, k, None) <= SumOf(values)
    decreases |values|
  {
    if |streams| < |values| {
      SumAbove(streams, values[..|values| - 1], k);
    } else if streams != [] {
      SumAbove(streams[..|streams| - 1], values[..|values| - 1], k);
    }
  }

  lemma {:induction false} SumBelow(streams: seq<Stream>, values: seq<nat>, k: Kind)
    requires |values| <= |streams| && forall i :: 0 <= i < |values| ==> values[i] <= EntryOf(streams, i, k)
    ensures SumOf(values) <= InStreams(streams, k, None)
    decreases |streams|
  {
    if |values| < |streams| {
      SumBelow(streams[..|streams| - 1], values, k);
    } else if values != [] {
      SumBelow(streams[..|streams| - 1], values[..|values| - 1], k);
    }
  }

  /** What a `get` returns that runs beside any number of record calls: its stream entries sum to no less than its
      total without what was in flight when the total was loaded, and to no more than its total with what was
      recorded until its last load, without what is in flight then. `steps` are those made until that load. */
  lemma ConcurrentGet(tasks: nat, steps: seq<Step>, r: Reading, k: Kind, total: nat, entries: seq<nat>)
    requires Run(tasks, steps).Some? && Recorded(steps, k, None) < U64 && Possible(r, tasks, steps)
    requires total == StateAt(tasks, steps, r.totalAt).totals.Get(k)
    requires |entries| == |r.entryAt|
    requires forall i :: 0 <= i < |entries| ==>
               entries[i] == EntryOf(StateAt(tasks, steps, r.entryAt[i]).streams, i, k)
    ensures var first, last := StateAt(tasks, steps, r.totalAt), StateAt(tasks, steps, |steps|);
            var during := Recorded(steps, k, None) - Recorded(steps[..r.totalAt], k, None);
            && 0 <= during
            && total - InFlight(first.tasks, k, None) <= SumOf(entries)
            && SumOf(entries) <= total + during - InFlight(last.tasks, k, None)
  {
    BalanceAt(tasks, steps, r.totalAt, k);
    BalanceAt(tasks, steps, |steps|, k);
    assert steps[..|steps|] == steps;
    EntriesBetween(tasks, steps, r, k, entries);
  }

  lemma BalanceAt(tasks: nat, steps: seq<Step>, n: nat, k: Kind)
    requires Run(tasks, steps).Some? && Recorded(steps, k, None) < U64 && n <= |steps|
    ensures var c, recorded := StateAt(tasks, steps, n), Recorded(steps[..n], k, None);
            && c.totals.Get(k) == recorded <= Recorded(steps, k, None)
            && InStreams(c.streams, k, None) + InFlight(c.tasks, k, None) == recorded
  {
    RecordedGrows(steps, n, k, None);
    PrefixRuns(tasks, steps, n);
    EveryInterleaving(tasks, steps[..n], StateAt(tasks, steps, n), k, None);
  }

  lemma EntriesBetween(tasks: nat, steps: seq<Step>, r: Reading, k: Kind, entries: seq<nat>)
    requires Run(tasks, steps).Some? && Recorded(steps, k, None) < U64 && Possible(r, tasks, steps)
    requires |entries| == |r.entryAt|
    requires forall i :: 0 <= i < |entries| ==>
               entries[i] == EntryOf(StateAt(tasks, steps, r.entryAt[i]).streams, i, k)
    ensures InStreams(StateAt(tasks, steps, r.totalAt).streams, k, None) <= SumOf(entries)
    ensures SumOf(entries) <= InStreams(StateAt(tasks, steps, |steps|).streams, k, None)
  {
    var first, last := StateAt(tasks, steps, r.totalAt).streams, StateAt(tasks, steps, |steps|).streams;
    RunGrows(tasks, steps, r.totalAt, r.lockedAt, k);
    RunGrows(tasks, steps, r.lockedAt, |steps|, k);
    forall i | 0 <= i < |entries| ensures EntryOf(first, i, k) <= entries[i] <= EntryOf(last, i, k) {
      LoadBetween(tasks, steps, r, k, i);
    }
    SumAbove(first, entries, k);
    SumBelow(last, entries, k);
  }

  lemma LoadBetween(tasks: nat, steps: seq<Step>, r: Reading, k: Kind, i: nat)
    requires Run(tasks, steps).Some? && Recorded(steps, k, None) < U64 && Possible(r, tasks, steps) && i < |r.entryAt|
    ensures var load := EntryOf(StateAt(tasks, steps, r.entryAt[i]).streams, i, k);
            && EntryOf(StateAt(tasks, steps, r.totalAt).streams, i, k) <= load
            && load <= EntryOf(StateAt(tasks, steps, |steps|).streams, i, k)
  {
    RunGrows(tasks, steps, r.totalAt, r.entryAt[i], k);
    RunGrows(tasks, steps, r.lockedAt, r.entryAt[i], k);
    RunGrows(tasks, steps, r.entryAt[i], |steps|, k);
  }

  // ---------------------------------------------------------------- every call can be finished

  lemma NextStep(tasks: nat, steps: seq<Step>, c: Collector, s: Step)
    requires Run(tasks, steps) == Some(c) && Enabled(c, s)
    ensures Run(tasks, steps + [s]) == Some(Apply(c, s))
  {
    assert (steps + [s])[..|steps|] == steps;
  }

  lemma {:induction false} SlotsAlwaysMatch(tasks: nat, steps: seq<Step>, c: Collector)
    requires Run(tasks, steps) == Some(c)
    ensures UniqueIds(c.streams) && SlotsMatch(c)
  {
    if steps != [] {
      var front := steps[..|steps| - 1];
      SlotsAlwaysMatch(tasks, front, Run(tasks, front).value);
      ApplyKeepsEntries(Run(tasks, front).value, steps[|steps| - 1]);
    }
  }

  function StepsLeft(p: Phase): nat {
    match p case Idle => 0 case Added(_, _, _) => 2 case Resolved(_, _, _, _) => 1
  }

  function AllStepsLeft(tasks: seq<Phase>): nat {
    if tasks == [] then 0 else AllStepsLeft(tasks[..|tasks| - 1]) + StepsLeft(tasks[|tasks| - 1])
  }

  lemma {:induction false} StepsLeftUpdate(tasks: seq<Phase>, t: nat, p: Phase)
    requires t < |tasks|
    ensures AllStepsLeft(tasks[t := p]) == AllStepsLeft(tasks) - StepsLeft(tasks[t]) + StepsLeft(p)
  {
    var n := |tasks| - 1;
    if t == n {
      assert tasks[t := p][..n] == tasks[..n];
    } else {
      assert tasks[t := p][..n] == tasks[..n][t := p];
      StepsLeftUpdate(tasks[..n], t, p);
    }
  }

  /** A call under way can take its next step. */
  lemma Proceeds(c: Collector, t: nat) returns (s: Step)
    requires SlotsMatch(c) && t < |c.tasks| && !c.tasks[t].Idle?
    ensures !s.Begin? && Enabled(c, s) && AllStepsLeft(Apply(c, s).tasks) < AllStepsLeft(c.tasks)
  {
    s := if c.tasks[t].Added? then Lookup(t) else Commit(t);
    StepsLeftUpdate(c.tasks, t, Apply(c, s).tasks[t]);
  }

  ghost predicate Settled(c: Collector) {
    forall t :: 0 <= t < |c.tasks| ==> c.tasks[t].Idle?
  }

  ghost predicate NothingBegins(steps: seq<Step>) {
    forall i :: 0 <= i < |steps| ==> !steps[i].Begin?
  }

  lemma OneMore(tasks: nat, steps: seq<Step>, s: Step, more: seq<Step>, q: Collector)
    requires Run(tasks, steps + [s] + more) == Some(q) && !s.Begin? && NothingBegins(more)
    ensures Run(tasks, steps + ([s] + more)) == Some(q) && NothingBegins([s] + more)
  {
    assert steps + [s] + more == steps + ([s] + more);
  }

  /** From every reachable state the calls under way can all be finished, without another one begun. */
  lemma {:induction false} CanSettle(tasks: nat, steps: seq<Step>, c: Collector) returns (more: seq<Step>, q: Collector)
    requires Run(tasks, steps) == Some(c)
    ensures Run(tasks, steps + more) == Some(q) && NothingBegins(more) && Settled(q)
    decreases AllStepsLeft(c.tasks)
  {
    if Settled(c) {
      more, q := [], c;
      assert steps + [] == steps;
    } else {
      var t: nat :| t < |c.tasks| && !c.tasks[t].Idle?;
      SlotsAlwaysMatch(tasks, steps, c);
      var s := Proceeds(c, t);
      NextStep(tasks, steps, c, s);
      more, q := CanSettle(tasks, steps + [s], Apply(c, s));
      OneMore(tasks, steps, s, more, q);
      more := [s] + more;
    }
  }
}
