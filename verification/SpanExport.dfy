/**
  packages/otelemetry/src/tracing/span-export-queue.ts and dropped-spans.ts: a bounded queue of
  finished spans exported in batches, one at a time, and the reporter that accounts for every
  span that had to be dropped.
*/
module SpanExport {
  import opened Wrappers

  type Span = nat

  datatype Reason = QueueFull | ExportFailed | ExportTimeout

  /** `byReason` is partial: reasons nothing was dropped for are absent. */
  datatype Report = Report(total: nat, byReason: map<Reason, nat>)

  const EMPTY_REPORT := Report(0, map[])

  function Dropped(r: Report, reason: Reason): nat {
    if reason in r.byReason then r.byReason[reason] else 0
  }

  ghost predicate Balanced(r: Report) {
    r.total == Dropped(r, QueueFull) + Dropped(r, ExportFailed) + Dropped(r, ExportTimeout)
  }

  /** A call of `record`. */
  datatype Drop = Drop(reason: Reason, count: nat)

  ghost function Recorded(drops: seq<Drop>, reason: Reason): nat {
    if drops == [] then 0
    else Recorded(drops[..|drops| - 1], reason) + if drops[|drops| - 1].reason == reason then drops[|drops| - 1].count else 0
  }

  ghost function RecordedTotal(drops: seq<Drop>): nat {
    Recorded(drops, QueueFull) + Recorded(drops, ExportFailed) + Recorded(drops, ExportTimeout)
  }

  lemma RecordOneMore(drops: seq<Drop>, drop: Drop)
    ensures RecordedTotal(drops + [drop]) == RecordedTotal(drops) + drop.count
  {
    assert (drops + [drop])[..|drops|] == drops;
  }

  ghost function Reported(reports: seq<Report>, reason: Reason): nat {
    if reports == [] then 0 else Reported(reports[..|reports| - 1], reason) + Dropped(reports[|reports| - 1], reason)
  }

  class DroppedSpansReporter {
    var pending: Report
    var written: seq<Report>
    ghost var drops: seq<Drop>

    /** For every reason, what was reported and what is pending add up to what was recorded. */
    ghost predicate Valid()
      reads this
    {
      && Balanced(pending)
      && (forall i :: 0 <= i < |written| ==> Balanced(written[i]) && written[i].total > 0)
      && forall reason :: Recorded(drops, reason) == Reported(written, reason) + Dropped(pending, reason)
    }

    constructor ()
      ensures Valid() && drops == [] && written == [] && pending == EMPTY_REPORT
    {
      pending, written, drops := EMPTY_REPORT, [], [];
    }

    method Record(reason: Reason, count: nat)
      requires Valid()
      modifies this
      ensures Valid() && written == old(written) && drops == old(drops) + [Drop(reason, count)]
    {
      drops := drops + [Drop(reason, count)];
      assert drops[..|drops| - 1] == old(drops);
      if count == 0 {
        return;
      }
      pending := Report(pending.total + count, pending.byReason[reason := Dropped(pending, reason) + count]);
    }

    /** `stop` is a flush too, after the timer has been cleared. */
    method Flush()
      requires Valid()
      modifies this
      ensures Valid() && drops == old(drops) && pending.total == 0
      ensures written == old(written) + if old(pending).total == 0 then [] else [old(pending)]
    {
      if pending.total == 0 {
        return;
      }
      var report := pending;
      pending := EMPTY_REPORT;
      written := written + [report];
      assert written[..|written| - 1] == old(written);
    }
  }

  datatype Outcome = Succeeded | Failed | TimedOut

  /** A batch whose export has settled. */
  datatype Settled = Settled(batch: seq<Span>, outcome: Outcome)

  ghost function Spans(settled: seq<Settled>): seq<Span> {
    if settled == [] then [] else Spans(settled[..|settled| - 1]) + settled[|settled| - 1].batch
  }

  ghost function Exported(settled: seq<Settled>): nat {
    if settled == [] then 0
    else Exported(settled[..|settled| - 1]) + if settled[|settled| - 1].outcome.Succeeded? then |settled[|settled| - 1].batch| else 0
  }

  lemma SettleOneMore(settled: seq<Settled>, s: Settled)
    ensures Spans(settled + [s]) == Spans(settled) + s.batch
    ensures Exported(settled + [s]) == Exported(settled) + if s.outcome.Succeeded? then |s.batch| else 0
  {
    assert (settled + [s])[..|settled|] == settled;
  }

  /** A batch that ran into the deadline or failed is dropped whole, under the reason for it. */
  ghost function DropsFor(outcome: Outcome, size: nat): seq<Drop> {
    match outcome
    case Succeeded => []
    case Failed => [Drop(ExportFailed, size)]
    case TimedOut => [Drop(ExportTimeout, size)]
  }

  function Max(a: int, b: int): int {
    if a < b then b else a
  }

  class SpanExportQueue {
    const maxQueueSize: int
    const maxExportBatchSize: int
    const reporter: DroppedSpansReporter
    var queue: seq<Span>
    var inFlight: Option<seq<Span>>
    ghost var offered: nat
    ghost var accepted: seq<Span>
    ghost var settled: seq<Settled>

    ghost function Flying(): seq<Span>
      reads this
    {
      if inFlight.Some? then inFlight.value else []
    }

    /**
      The queue keeps within its limit; batches leave in the order spans came in; and every span
      offered is queued, in flight, exported or recorded as dropped.
    */
    ghost predicate Valid()
      reads this, reporter
    {
      && reporter.Valid()
      && |queue| <= Max(maxQueueSize, 0)
      && accepted == Spans(settled) + Flying() + queue
      && offered == |queue| + |Flying()| + Exported(settled) + RecordedTotal(reporter.drops)
    }

    constructor (maxQueueSize: int, maxExportBatchSize: int, reporter: DroppedSpansReporter)
      requires reporter.Valid() && reporter.drops == []
      ensures Valid() && queue == [] && inFlight.None? && offered == 0
      ensures this.reporter == reporter && this.maxQueueSize == maxQueueSize && this.maxExportBatchSize == maxExportBatchSize
    {
      this.maxQueueSize, this.maxExportBatchSize, this.reporter := maxQueueSize, maxExportBatchSize, reporter;
      queue, inFlight := [], None;
      offered, accepted, settled := 0, [], [];
    }

    /** What does not fit is dropped from the end of the offer and recorded. */
    method Enqueue(spans: seq<Span>)
      requires Valid()
      modifies this, reporter
      ensures Valid() && inFlight == old(inFlight) && settled == old(settled) && offered == old(offered) + |spans|
      ensures queue == old(queue) + spans[..if |spans| <= Max(maxQueueSize, 0) - |old(queue)| then |spans| else Max(maxQueueSize, 0) - |old(queue)|]
      ensures accepted == old(accepted) + queue[|old(queue)|..]
      ensures reporter.drops == old(reporter.drops) + [Drop(QueueFull, |spans| - (|queue| - |old(queue)|))]
    {
      hide Spans, Exported, RecordedTotal, DroppedSpansReporter.Valid;
      var room := Max(maxQueueSize - |queue|, 0);
      var taken := if |spans| <= room then |spans| else room;
      queue := queue + spans[..taken];
      RecordOneMore(reporter.drops, Drop(QueueFull, Max(|spans| - room, 0)));
      reporter.Record(QueueFull, Max(|spans| - room, 0));
      offered := offered + |spans|;
      accepted := accepted + spans[..taken];
    }

    /** Nothing happens while a batch is in flight, so at most one ever is. */
    method ExportNextBatch()
      requires Valid()
      modifies this
      ensures Valid() && offered == old(offered) && accepted == old(accepted) && settled == old(settled)
      ensures inFlight.Some? <==> old(inFlight).Some? || old(queue) != []
      ensures old(inFlight).Some? ==> inFlight == old(inFlight) && queue == old(queue)
      ensures old(inFlight).None? ==>
                Flying() + queue == old(queue)
                && |Flying()| == if Max(maxExportBatchSize, 0) < |old(queue)| then Max(maxExportBatchSize, 0) else |old(queue)|
    {
      if inFlight.Some? || |queue| == 0 {
        return;
      }
      var size := Max(maxExportBatchSize, 0);
      var n := if size < |queue| then size else |queue|;
      var batch := queue[..n];
      queue := queue[n..];
      inFlight := Some(batch);
      assert old(queue) == batch + queue;
    }

    /** `exportWithDeadline` once the race is decided. */
    method RecordOutcome(outcome: Outcome, size: nat)
      requires reporter.Valid()
      modifies reporter
      ensures reporter.Valid()
      ensures RecordedTotal(reporter.drops) == RecordedTotal(old(reporter.drops)) + if outcome.Succeeded? then 0 else size
      ensures reporter.drops == old(reporter.drops) + DropsFor(outcome, size)
    {
      if outcome.Succeeded? {
        return;
      }
      var reason := if outcome.TimedOut? then ExportTimeout else ExportFailed;
      RecordOneMore(reporter.drops, Drop(reason, size));
      reporter.Record(reason, size);
    }

    /** The export of the batch in flight finishes, fails or runs into its deadline. */
    method Settle(outcome: Outcome)
      requires Valid() && inFlight.Some?
      modifies this, reporter
      ensures Valid() && inFlight.None? && queue == old(queue) && offered == old(offered) && accepted == old(accepted)
      ensures settled == old(settled) + [Settled(old(inFlight).value, outcome)]
      ensures reporter.drops == old(reporter.drops) + DropsFor(outcome, |old(inFlight).value|)
    {
      hide Spans, Exported, RecordedTotal, DroppedSpansReporter.Valid;
      var batch := inFlight.value;
      RecordOutcome(outcome, |batch|);
      SettleOneMore(settled, Settled(batch, outcome));
      settled := settled + [Settled(batch, outcome)];
      inFlight := None;
      assert Spans(settled) + Flying() + queue == Spans(old(settled)) + batch + queue;
    }

    /** The reporter's timer fires; the queue's accounts are not affected. */
    method ReportDrops()
      requires Valid()
      modifies reporter
      ensures Valid() && reporter.drops == old(reporter.drops) && reporter.pending.total == 0
    {
      reporter.Flush();
    }

    /**
      With nothing enqueued meanwhile, flush ends with everything settled, whatever the outcomes,
      provided the batch size is positive or nothing is queued.
    */
    method Flush(outcomes: nat -> Outcome)
      requires Valid() && (maxExportBatchSize > 0 || queue == [])
      modifies this, reporter
      ensures Valid() && queue == [] && inFlight.None? && offered == old(offered) && Spans(settled) == old(accepted)
      ensures offered == Exported(settled) + RecordedTotal(reporter.drops)
    {
      var round := 0;
      while inFlight.Some? || |queue| != 0
        invariant Valid() && offered == old(offered) && accepted == old(accepted)
        invariant maxExportBatchSize > 0 || queue == []
        decreases |queue| + if inFlight.Some? then 1 else 0
      {
        ExportNextBatch();
        Settle(outcomes(round));
        round := round + 1;
      }
      assert Spans(settled) + [] + [] == Spans(settled);
    }

    /** Otherwise a round of flush leaves the queue as it was, so flush never ends. */
    method FlushRoundWithoutBatchSize(outcome: Outcome)
      requires Valid() && maxExportBatchSize <= 0 && queue != []
      modifies this, reporter
      ensures Valid() && queue == old(queue) && queue != [] && inFlight.None?
    {
      ExportNextBatch();
      assert old(inFlight).None? ==> Flying() == [] && queue == [] + queue;
      Settle(outcome);
    }
  }

  /** On every run, what was reported and what is pending account for every span dropped. */
  lemma ReportsAccountForDrops(r: DroppedSpansReporter)
    requires r.Valid()
    ensures RecordedTotal(r.drops)
            == Reported(r.written, QueueFull) + Reported(r.written, ExportFailed) + Reported(r.written, ExportTimeout) + r.pending.total
  {
  }
}
