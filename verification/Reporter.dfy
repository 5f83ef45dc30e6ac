/** The interval reporter (src/interval_reporter.rs): a channel and the task at its far end. */
module Reporter {
  import opened Intervals

  datatype Message = Report(item: Interval) | Complete

  datatype Event = TestStarted | IntervalUpdate(item: Interval) | TestCompleted(totalBytes: nat)

  function Reports(items: seq<Interval>): seq<Message> {
    seq(|items|, i requires 0 <= i < |items| => Report(items[i]))
  }

  function Updates(items: seq<Interval>): seq<Event> {
    seq(|items|, i requires 0 <= i < |items| => IntervalUpdate(items[i]))
  }

  class IntervalReporter {
    var queue: seq<Message>

    constructor ()
      ensures queue == []
    {
      queue := [];
    }

    method Send(item: Interval)
      modifies this
      ensures queue == old(queue) + [Report(item)]
    {
      queue := queue + [Report(item)];
    }

    method Finish()
      modifies this
      ensures queue == old(queue) + [Complete]
    {
      queue := queue + [Complete];
    }
  }

  /** The reports the task gets to see of all that is ever sent to it. */
  function Seen(queue: seq<Message>): seq<Interval> {
    if queue == [] || queue[0].Complete? then [] else [queue[0].item] + Seen(queue[1..])
  }

  /** All of them, if the senders are gone without a `Complete`; or else those before it. */
  lemma {:induction false} SeesUpToComplete(items: seq<Interval>, ignored: seq<Message>)
    requires ignored == [] || ignored[0] == Complete
    ensures Seen(Reports(items) + ignored) == items
  {
    if items == [] {
      assert Reports(items) + ignored == ignored;
    } else {
      SeesUpToComplete(items[1..], ignored);
      assert (Reports(items) + ignored)[1..] == Reports(items[1..]) + ignored;
    }
  }

  /** `run_reporter_task`: one update per report, in order, until `Complete` comes or the last sender is gone. */
  method RunReporterTask(queue: seq<Message>) returns (events: seq<Event>)
    ensures events == Updates(Seen(queue))
  {
    events := [];
    var i := 0;
    assert queue[0..] == queue;
    while i < |queue| && queue[i] != Complete
      invariant i <= |queue| && events + Updates(Seen(queue[i..])) == Updates(Seen(queue))
    {
      NextUpdate(queue, i, events);
      events := events + [IntervalUpdate(queue[i].item)];
      i := i + 1;
    }
    NoMoreUpdates(queue, i);
  }

  lemma NextUpdate(queue: seq<Message>, i: nat, events: seq<Event>)
    requires i < |queue| && queue[i].Report?
    ensures events + [IntervalUpdate(queue[i].item)] + Updates(Seen(queue[i + 1..]))
         == events + Updates(Seen(queue[i..]))
  {
    assert queue[i..][1..] == queue[i + 1..];
    UpdatesCons(queue[i].item, Seen(queue[i + 1..]));
  }

  lemma UpdatesCons(item: Interval, rest: seq<Interval>)
    ensures Updates([item] + rest) == [IntervalUpdate(item)] + Updates(rest)
  {
  }

  lemma NoMoreUpdates(queue: seq<Message>, i: nat)
    requires i <= |queue| && (i < |queue| ==> queue[i] == Complete)
    ensures Updates(Seen(queue[i..])) == []
  {
  }
}

/** Interval accounting, as every sending and receiving loop does it. */
module IntervalAccounts {
  import opened Intervals
  import opened Measurements
  import opened Reporter

  /** Interval accounting: the intervals closed so far, and the open one. */
  datatype Books = Books(cut: seq<Interval>, open: Interval)

  function Enter(b: Books, bytes: nat, packets: nat, intervalDue: bool): Books {
    var open := Interval(b.open.bytes + bytes, b.open.packets + packets);
    if intervalDue then Books(b.cut + [open], Interval(0, 0)) else Books(b.cut, open)
  }

  /** The figures, closed and open, cover what was sent or received. */
  ghost predicate IntervalsCover(b: Books, bytes: nat, packets: nat) {
    Accumulated(b.cut).bytes + b.open.bytes == bytes && Accumulated(b.cut).packets + b.open.packets == packets
  }

  lemma EnterCovers(b: Books, bytes: nat, packets: nat, intervalDue: bool)
    ensures var was := Accumulated(b.cut);
            IntervalsCover(Enter(b, bytes, packets, intervalDue),
                           was.bytes + b.open.bytes + bytes, was.packets + b.open.packets + packets)
  {
    if intervalDue {
      var cut := Enter(b, bytes, packets, intervalDue).cut;
      assert cut[..|b.cut|] == b.cut;
    }
  }

  /** One turn of a loop: what was sent or received, and whether the interval is over after it. */
  datatype Turn = Turn(bytes: nat, packets: nat, due: bool)

  /** The books after all turns of a run. */
  function Booked(turns: seq<Turn>): Books {
    if turns == [] then Books([], Interval(0, 0))
    else
      var last := turns[|turns| - 1];
      Enter(Booked(turns[..|turns| - 1]), last.bytes, last.packets, last.due)
  }

  /** All that was sent or received in them. */
  function Total(turns: seq<Turn>): Interval {
    if turns == [] then Interval(0, 0)
    else
      var sum, last := Total(turns[..|turns| - 1]), turns[|turns| - 1];
      Interval(sum.bytes + last.bytes, sum.packets + last.packets)
  }

  lemma {:induction false} BookedCovers(turns: seq<Turn>)
    ensures IntervalsCover(Booked(turns), Total(turns).bytes, Total(turns).packets)
  {
    if turns != [] {
      var front, last := turns[..|turns| - 1], turns[|turns| - 1];
      BookedCovers(front);
      EnterCovers(Booked(front), last.bytes, last.packets, last.due);
    }
  }

  /** Which interval a turn belongs to, in every run. After a turn with the interval over, one more interval is
      closed, nothing is open, and the closed ones hold everything so far, this turn included. After any other turn
      the closed ones are those from before, and the open one holds what has come since the last of them. */
  lemma EveryTurnBooked(turns: seq<Turn>, n: nat)
    requires n < |turns|
    ensures var before, after, sofar := Booked(turns[..n]), Booked(turns[..n + 1]), Total(turns[..n + 1]);
            && (turns[n].due ==>
                  && after.open == Interval(0, 0) && Accumulated(after.cut) == sofar
                  && |after.cut| == |before.cut| + 1 && after.cut[..|before.cut|] == before.cut)
            && (!turns[n].due ==>
                  && after.cut == before.cut
                  && after.open.bytes == sofar.bytes - Accumulated(after.cut).bytes
                  && after.open.packets == sofar.packets - Accumulated(after.cut).packets)
  {
    assert turns[..n + 1][..n] == turns[..n];
    BookedCovers(turns[..n + 1]);
  }

  /** Closes the open interval: into the history, which may hold intervals of earlier tests, and off to the reporter. */
  method CutInterval(collector: Measurements.Collector, reporter: IntervalReporter, ghost history: seq<Interval>,
                     cut: seq<Interval>, open: Interval)
    returns (cut': seq<Interval>)
    requires collector.intervals == PushAll(history + cut) && reporter.queue == Reports(cut)
    modifies collector`intervals, reporter
    ensures cut' == cut + [open]
    ensures collector.intervals == PushAll(history + cut') && reporter.queue == Reports(cut')
  {
    collector.AddInterval(open);
    reporter.Send(open);
    cut' := cut + [open];
    assert (history + cut')[..|history + cut|] == history + cut;
  }

  /** The end of a loop's body: enter what was sent or received into the open interval, and close it when due. */
  method EnterBooks(collector: Measurements.Collector, reporter: IntervalReporter, ghost history: seq<Interval>,
                    b: Books, bytes: nat, packets: nat, intervalDue: bool)
    returns (b': Books)
    requires collector.intervals == PushAll(history + b.cut) && reporter.queue == Reports(b.cut)
    modifies collector`intervals, reporter
    ensures b' == Enter(b, bytes, packets, intervalDue)
    ensures collector.intervals == PushAll(history + b'.cut) && reporter.queue == Reports(b'.cut)
  {
    var cut, open := b.cut, Interval(b.open.bytes + bytes, b.open.packets + packets);
    if intervalDue {
      cut := CutInterval(collector, reporter, history, cut, open);
      open := Interval(0, 0);
    }
    b' := Books(cut, open);
  }
}

/**
  A client run as two concurrent tasks: the sender (src/client.rs), which reports intervals and waits for
  the reporter before announcing completion, and the reporter task, which may lag behind arbitrarily.
 */
module ProgressProtocol {
  import opened Base
  import opened IntervalAccounts
  import opened Intervals
  import opened Reporter

  datatype Phase = Ready | Sending | Waiting | Ended

  datatype Session = Session(
    phase: Phase, queue: seq<Message>, reporterDone: bool, events: seq<Event>,
    stored: seq<Interval>, open: Interval, total: nat)

  datatype Step =
    | Start                         // the server said go
    | Send(bytes: nat, packets: nat) // one batch went out
    | Cut                           // an interval is due
    | Finish                        // the sending loop ended
    | Deliver                       // the reporter task takes one message
    | Announce                      // the sender saw the reporter task end

  const INITIAL := Session(Ready, [], false, [], [], Interval(0, 0), 0)

  predicate Enabled(c: Session, s: Step) {
    match s
    case Start => c.phase.Ready?
    case Send(_, _) => c.phase.Sending?
    case Cut => c.phase.Sending?
    case Finish => c.phase.Sending?
    case Deliver => !c.phase.Ready? && !c.reporterDone && c.queue != []
    case Announce => c.phase.Waiting? && c.reporterDone
  }

  function Apply(c: Session, s: Step): Session
    requires Enabled(c, s)
  {
    match s
    case Start => c.(phase := Sending, events := c.events + [TestStarted])
    case Send(bytes, packets) =>
      c.(open := Interval(c.open.bytes + bytes, c.open.packets + packets), total := c.total + bytes)
    case Cut =>
      c.(stored := Push(c.stored, c.open), queue := c.queue + [Report(c.open)], open := Interval(0, 0))
    case Finish => c.(phase := Waiting, queue := c.queue + [Complete])
    case Deliver =>
      var rest := c.(queue := c.queue[1..]);
      (match c.queue[0]
       case Report(item) => rest.(events := c.events + [IntervalUpdate(item)])
       case Complete => rest.(reporterDone := true))
    case Announce => c.(phase := Ended, events := c.events + [TestCompleted(c.total)])
  }

  function Run(steps: seq<Step>): Option<Session> {
    if steps == [] then Some(INITIAL)
    else
      match Run(steps[..|steps| - 1])
      case None => None
      case Some(c) => if Enabled(c, steps[|steps| - 1]) then Some(Apply(c, steps[|steps| - 1])) else None
  }

  // ---------------------------------------------------------------- what the sender did, reporter aside

  /** The sender's own account: its interval books, and all bytes sent. */
  datatype Ledger = Ledger(books: Books, sent: nat)

  function Post(l: Ledger, s: Step): Ledger {
    match s
    case Send(bytes, packets) => Ledger(Enter(l.books, bytes, packets, false), l.sent + bytes)
    case Cut => l.(books := Enter(l.books, 0, 0, true))
    case _ => l
  }

  function Account(steps: seq<Step>): Ledger {
    if steps == [] then Ledger(Books([], Interval(0, 0)), 0)
    else Post(Account(steps[..|steps| - 1]), steps[|steps| - 1])
  }

  /** `delivered` of the cut intervals have reached the callback; the others are queued in order, followed
      by `Complete` from the moment the sender finished until the reporter took it. */
  ghost predicate Consistent(c: Session, cut: seq<Interval>, delivered: nat) {
    && delivered <= |cut|
    && (c.phase.Ready? ==> cut == [] && c.queue == [] && !c.reporterDone)
    && (c.reporterDone ==> delivered == |cut| && (c.phase.Waiting? || c.phase.Ended?))
    && (c.phase.Ended? ==> c.reporterDone)
    && c.queue == Reports(cut[delivered..])
                  + (if (c.phase.Waiting? || c.phase.Ended?) && !c.reporterDone then [Complete] else [])
    && c.events == (if c.phase.Ready? then [] else [TestStarted]) + Updates(cut[..delivered])
                   + (if c.phase.Ended? then [TestCompleted(c.total)] else [])
  }

  /** A queue that still holds reports starts with one. */
  lemma FirstReport(items: seq<Interval>, rest: seq<Message>)
    ensures items != [] ==> (Reports(items) + rest)[0] == Report(items[0])
  {
  }

  /** One report moves from the queue to the callback. */
  lemma TakeReport(cut: seq<Interval>, delivered: nat, rest: seq<Message>)
    requires delivered < |cut|
    ensures (Reports(cut[delivered..]) + rest)[1..] == Reports(cut[delivered + 1..]) + rest
    ensures Updates(cut[..delivered + 1]) == Updates(cut[..delivered]) + [IntervalUpdate(cut[delivered])]
  {
  }

  lemma ApplyConsistent(c: Session, s: Step, cut: seq<Interval>, delivered: nat) returns (delivered': nat)
    requires Enabled(c, s) && Consistent(c, cut, delivered)
    ensures Consistent(Apply(c, s), if s.Cut? then cut + [c.open] else cut, delivered')
  {
    delivered' := delivered;
    if s.Cut? {
      assert Reports((cut + [c.open])[delivered..]) == Reports(cut[delivered..]) + [Report(c.open)];
      assert (cut + [c.open])[..delivered] == cut[..delivered];
    } else if s.Deliver? && c.queue[0].Report? {
      assert delivered < |cut| && c.queue[0] == Report(cut[delivered]);
      TakeReport(cut, delivered, if c.phase.Sending? then [] else [Complete]);
      delivered' := delivered + 1;
    } else if s.Deliver? {
      FirstReport(cut[delivered..], [Complete]);
    }
  }

  ghost predicate Agree(c: Session, l: Ledger) {
    && c.open == l.books.open && c.total == l.sent && c.stored == PushAll(l.books.cut)
    && Accumulated(l.books.cut).bytes + l.books.open.bytes == l.sent
  }

  /** One step keeps session and account in agreement. */
  lemma StepAgrees(c: Session, s: Step, l: Ledger)
    requires Enabled(c, s) && Agree(c, l)
    ensures Agree(Apply(c, s), Post(l, s))
  {
    if s.Cut? {
      EnterCovers(l.books, 0, 0, true);
      assert Post(l, s).books.cut[..|l.books.cut|] == l.books.cut;
    }
  }

  /** The sender's books do not depend on the reporter: cut intervals plus the open one add up to the bytes
      sent, and all that were cut went through the history. */
  lemma {:induction false} SenderBooks(steps: seq<Step>, c: Session)
    requires Run(steps) == Some(c)
    ensures Agree(c, Account(steps))
  {
    if steps != [] {
      var front := steps[..|steps| - 1];
      SenderBooks(front, Run(front).value);
      StepAgrees(Run(front).value, steps[|steps| - 1], Account(front));
    }
  }

  /** In every interleaving the session is consistent with what the sender did. */
  lemma {:induction false} EveryInterleaving(steps: seq<Step>, c: Session) returns (delivered: nat)
    requires Run(steps) == Some(c)
    ensures Consistent(c, Account(steps).books.cut, delivered)
  {
    if steps == [] {
      delivered := 0;
    } else {
      var front, s := steps[..|steps| - 1], steps[|steps| - 1];
      var before := Run(front).value;
      SenderBooks(front, before);
      delivered := EveryInterleaving(front, before);
      delivered := ApplyConsistent(before, s, Account(front).books.cut, delivered);
    }
  }

  /** The callback of a finished run sees `TestStarted`, one update per interval in order, and one
      `TestCompleted`, however the two tasks were scheduled; the updates and the interval left open add up
      to the announced total; and the stored intervals are the last MAX_INTERVALS reported. */
  lemma CallbackSequence(steps: seq<Step>, c: Session)
    requires Run(steps) == Some(c) && c.phase.Ended?
    ensures var b, sent := Account(steps).books, Account(steps).sent;
            && c.events == [TestStarted] + Updates(b.cut) + [TestCompleted(sent)]
            && Accumulated(b.cut).bytes + b.open.bytes == sent
            && c.stored == LastN(b.cut, MAX_INTERVALS)
  {
    var cut := Account(steps).books.cut;
    var delivered := EveryInterleaving(steps, c);
    SenderBooks(steps, c);
    assert cut[..delivered] == cut;
    KeepsTheLast(cut);
  }

  /** A sender waiting for the reporter never waits in vain. */
  lemma NeverStuck(steps: seq<Step>, c: Session)
    requires Run(steps) == Some(c) && c.phase.Waiting?
    ensures Enabled(c, Deliver) || Enabled(c, Announce)
  {
    var delivered := EveryInterleaving(steps, c);
  }

  /** From every reachable state the run can be brought to its end, with nothing more sent or cut. */
  lemma {:induction false} CanEnd(steps: seq<Step>, c: Session) returns (more: seq<Step>, q: Session)
    requires Run(steps) == Some(c)
    ensures Run(steps + more) == Some(q) && q.phase.Ended?
    ensures forall i :: 0 <= i < |more| ==> !more[i].Send? && !more[i].Cut?
    decreases match c.phase case Ready => 3 case Sending => 2 case Waiting => 1 case Ended => 0, |c.queue|
  {
    if c.phase.Ended? {
      more, q := [], c;
      assert steps + [] == steps;
    } else {
      if c.phase.Waiting? {
        NeverStuck(steps, c);
      }
      var s := if c.phase.Ready? then Start else if c.phase.Sending? then Finish
               else if c.reporterDone then Announce else Deliver;
      assert (steps + [s])[..|steps|] == steps;
      more, q := CanEnd(steps + [s], Apply(c, s));
      assert steps + [s] + more == steps + ([s] + more);
      more := [s] + more;
    }
  }
}
