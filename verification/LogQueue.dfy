/** The bounded log queue between the logger and the socket owner
    (conformance/src/dut/common.rs). */
module LogQueue {
  import opened Wrappers
  import opened IpcTypes

  const LOG_QUEUE_CAPACITY: nat := 512

  datatype LogState = LogState(queue: seq<LogEntry>, dropped: nat)

  const EMPTY := LogState([], 0)

  function Push(s: LogState, entry: LogEntry): LogState {
    if |s.queue| >= LOG_QUEUE_CAPACITY then LogState(s.queue[1..] + [entry], s.dropped + 1)
    else LogState(s.queue + [entry], s.dropped)
  }

  /** What a drain hands to the socket owner: the drop report first, then the queue. */
  function Drained(s: LogState): seq<LogEntry> {
    (if s.dropped > 0 then [DropReport(s.dropped)] else []) + s.queue
  }

  /** The two statics `LOG_QUEUE` and `LOG_DROPPED`, and the logger's level. */
  class IpcLogger {
    const level: nat
    var queue: seq<LogEntry>
    var dropped: nat

    constructor (level: nat)
      ensures this.level == level && State() == EMPTY
    {
      this.level := level;
      queue, dropped := [], 0;
    }

    function State(): LogState
      reads this
    {
      LogState(queue, dropped)
    }

    method Log(recordLevel: nat, target: string, message: string)
      modifies this
      ensures State() == if recordLevel <= level then Push(old(State()), Record(recordLevel, target, message))
                         else old(State())
    {
      if recordLevel > level {
        return;
      }
      if |queue| >= LOG_QUEUE_CAPACITY {
        queue := queue[1..];
        dropped := dropped + 1;
      }
      queue := queue + [Record(recordLevel, target, message)];
    }

    method DrainLogs() returns (out: seq<LogEntry>)
      modifies this
      ensures out == Drained(old(State())) && State() == EMPTY
    {
      out := [];
      if dropped > 0 {
        out := out + [DropReport(dropped)];
        dropped := 0;
      }
      out := out + queue;
      queue := [];
    }
  }

  // Whole histories of the logger.

  datatype LogOp = Logged(entry: LogEntry) | Drain

  /** Only records are ever logged; drop reports come from the drain. */
  predicate OnlyRecords(ops: seq<LogOp>) {
    forall i :: 0 <= i < |ops| && ops[i].Logged? ==> ops[i].entry.Record?
  }

  function After(ops: seq<LogOp>): LogState {
    if ops == [] then EMPTY
    else match Last(ops)
      case Logged(entry) => Push(After(DropLast(ops)), entry)
      case Drain => EMPTY
  }

  function Delivered(ops: seq<LogOp>): seq<LogEntry> {
    if ops == [] then []
    else if Last(ops).Drain? then Delivered(DropLast(ops)) + Drained(After(DropLast(ops)))
    else Delivered(DropLast(ops))
  }

  function Accepted(ops: seq<LogOp>): seq<LogEntry> {
    if ops == [] then []
    else Accepted(DropLast(ops)) + (if Last(ops).Logged? then [Last(ops).entry] else [])
  }

  /** The records accepted since the last drain. */
  function Since(ops: seq<LogOp>): seq<LogEntry> {
    if ops == [] || Last(ops).Drain? then [] else Since(DropLast(ops)) + [Last(ops).entry]
  }

  lemma DrainSnoc(ops: seq<LogOp>)
    ensures After(ops + [Drain]) == EMPTY && Delivered(ops + [Drain]) == Delivered(ops) + Drained(After(ops))
    ensures OnlyRecords(ops) ==> OnlyRecords(ops + [Drain])
  {
    assert DropLast(ops + [Drain]) == ops;
  }

  lemma LoggedSnoc(ops: seq<LogOp>, entry: LogEntry)
    ensures After(ops + [Logged(entry)]) == Push(After(ops), entry)
    ensures Delivered(ops + [Logged(entry)]) == Delivered(ops)
    ensures OnlyRecords(ops) && entry.Record? ==> OnlyRecords(ops + [Logged(entry)])
  {
    assert DropLast(ops + [Logged(entry)]) == ops;
  }

  /** A history step by step: the queue, what was handed out, what was taken, and whether only records were. */
  datatype Ledger = Ledger(state: LogState, delivered: seq<LogEntry>, accepted: seq<LogEntry>, records: bool)

  function Noted(l: Ledger, op: LogOp): Ledger {
    match op
    case Logged(entry) => Ledger(Push(l.state, entry), l.delivered, l.accepted + [entry], l.records && entry.Record?)
    case Drain => Ledger(EMPTY, l.delivered + Drained(l.state), l.accepted, l.records)
  }

  function LedgerOf(ops: seq<LogOp>): Ledger {
    if ops == [] then Ledger(EMPTY, [], [], true) else Noted(LedgerOf(DropLast(ops)), Last(ops))
  }

  lemma LedgerSnoc(ops: seq<LogOp>, op: LogOp)
    ensures LedgerOf(ops + [op]) == Noted(LedgerOf(ops), op)
  {
    assert DropLast(ops + [op]) == ops;
  }

  lemma {:induction false} LedgerIs(ops: seq<LogOp>)
    ensures LedgerOf(ops) == Ledger(After(ops), Delivered(ops), Accepted(ops), OnlyRecords(ops))
  {
    if ops != [] {
      LedgerIs(DropLast(ops));
      assert OnlyRecords(ops) <==> OnlyRecords(DropLast(ops)) && (Last(ops).Logged? ==> Last(ops).entry.Record?) by {
        assert ops == DropLast(ops) + [Last(ops)];
      }
    }
  }

  function Latest(entries: seq<LogEntry>): seq<LogEntry> {
    entries[|entries| - Min(|entries|, LOG_QUEUE_CAPACITY)..]
  }

  /** The queue is always the newest records since the last drain, and the
      pending drop count is exactly the rest. */
  lemma {:induction false} QueueIsLatest(ops: seq<LogOp>)
    ensures After(ops).queue == Latest(Since(ops)) == Since(ops)[|Since(ops)| - Min(|Since(ops)|, 512)..]
    ensures After(ops).dropped == |Since(ops)| - |After(ops).queue|
  {
    if ops != [] && Last(ops).Logged? {
      QueueIsLatest(DropLast(ops));
    }
  }

  /** A drain delivers the newest records of its window, preceded by one
      report exactly when the window overflowed. */
  lemma DrainDeliversWindow(ops: seq<LogOp>)
    ensures Delivered(ops + [Drain]) == Delivered(ops)
      + (if |Since(ops)| > 512 then [DropReport(|Since(ops)| - 512)] else [])
      + Since(ops)[|Since(ops)| - Min(|Since(ops)|, 512)..]
    ensures After(ops + [Drain]) == EMPTY
  {
    QueueIsLatest(ops);
    DrainSnoc(ops);
  }

  function RecordPart(e: LogEntry): seq<LogEntry> {
    if e.Record? then [e] else []
  }

  function Records(es: seq<LogEntry>): seq<LogEntry> { Collect(es, RecordPart) }

  function Reported(es: seq<LogEntry>): nat {
    if es == [] then 0 else Reported(DropLast(es)) + (if Last(es).DropReport? then Last(es).count else 0)
  }

  lemma {:induction false} ReportedConcat(s: seq<LogEntry>, t: seq<LogEntry>)
    ensures Reported(s + t) == Reported(s) + Reported(t)
  {
    if t == [] {
      assert s + t == s;
    } else {
      ReportedConcat(s, DropLast(t));
      assert DropLast(s + t) == s + DropLast(t);
    }
  }

  lemma {:induction false} RecordsOnly(es: seq<LogEntry>)
    requires forall i :: 0 <= i < |es| ==> es[i].Record?
    ensures Records(es) == es && Reported(es) == 0
  {
    if es != [] {
      RecordsOnly(DropLast(es));
      assert es == DropLast(es) + [Last(es)];
    }
  }

  lemma {:induction false} QueueHoldsRecords(ops: seq<LogOp>)
    requires OnlyRecords(ops)
    ensures forall i :: 0 <= i < |After(ops).queue| ==> After(ops).queue[i].Record?
  {
    if ops != [] && Last(ops).Logged? {
      QueueHoldsRecords(DropLast(ops));
      assert ops[|ops| - 1].entry.Record?;
    }
  }

  lemma DrainedSplits(s: LogState)
    requires forall i :: 0 <= i < |s.queue| ==> s.queue[i].Record?
    ensures Records(Drained(s)) == s.queue && Reported(Drained(s)) == s.dropped
  {
    var head := if s.dropped > 0 then [DropReport(s.dropped)] else [];
    RecordsOnly(s.queue);
    CollectConcat(head, s.queue, RecordPart);
    ReportedConcat(head, s.queue);
    if s.dropped > 0 {
      assert DropLast(head) == [] && Last(head) == DropReport(s.dropped);
      assert Reported(head) == s.dropped;
      assert Records(head) == [];
    }
  }

  /** No record disappears without being counted, over any history. */
  lemma {:induction false} NothingLostSilently(ops: seq<LogOp>)
    requires OnlyRecords(ops)
    ensures |Accepted(ops)| == |Records(Delivered(ops))| + Reported(Delivered(ops))
                               + After(ops).dropped + |After(ops).queue|
  {
    if ops != [] {
      var before := DropLast(ops);
      NothingLostSilently(before);
      if Last(ops).Drain? {
        QueueHoldsRecords(before);
        DrainedSplits(After(before));
        CollectConcat(Delivered(before), Drained(After(before)), RecordPart);
        ReportedConcat(Delivered(before), Drained(After(before)));
      }
    }
  }

  lemma PushKeepsOrder(sent: seq<LogEntry>, s: LogState, entry: LogEntry, accepted: seq<LogEntry>)
    requires Subsequence(sent + s.queue, accepted)
    ensures Subsequence(sent + Push(s, entry).queue, accepted + [entry])
  {
    var kept := if |s.queue| >= LOG_QUEUE_CAPACITY then s.queue[1..] else s.queue;
    if |s.queue| >= LOG_QUEUE_CAPACITY {
      SubsequenceDelete(sent + s.queue, accepted, |sent|);
      assert (sent + s.queue)[..|sent|] + (sent + s.queue)[|sent| + 1..] == sent + kept;
    }
    SubsequenceSnoc(sent + kept, accepted, entry);
    assert sent + kept + [entry] == sent + Push(s, entry).queue;
  }

  lemma DrainSendsQueue(before: seq<LogOp>)
    requires OnlyRecords(before)
    ensures Records(Delivered(before) + Drained(After(before))) == Records(Delivered(before)) + After(before).queue
  {
    QueueHoldsRecords(before);
    DrainedSplits(After(before));
    CollectConcat(Delivered(before), Drained(After(before)), RecordPart);
  }

  /** Delivered records, then the queued ones, are the accepted records with
      some left out: order is kept end to end. */
  lemma {:induction false} OrderKept(ops: seq<LogOp>)
    requires OnlyRecords(ops)
    ensures Subsequence(Records(Delivered(ops)) + After(ops).queue, Accepted(ops))
  {
    if ops != [] {
      var before := DropLast(ops);
      OrderKept(before);
      match Last(ops)
      case Drain =>
        DrainSendsQueue(before);
        assert Records(Delivered(ops)) + [] == Records(Delivered(before)) + After(before).queue;
        assert Accepted(ops) == Accepted(before);
      case Logged(entry) => PushKeepsOrder(Records(Delivered(before)), After(before), entry, Accepted(before));
    }
  }
}
