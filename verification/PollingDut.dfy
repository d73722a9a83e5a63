/**
 The polling DUT (conformance/src/bin/dut_bcu2.rs): one blocking loop that
 answers commands in order and ticks the stack between them. What the stack
 returns from each poll, and when the parent stops reading, are inputs.
 */
module PollingDut {
  import opened Wrappers
  import opened IpcTypes
  import LogQueue

  /** What a poll of the micro stack returns; `restart` is the exit reason it maps to. */
  datatype PollOutput = PollOutput(frames: seq<CapturedFrame>, restart: Option<ExitReason>, frameError: bool)

  const DEFAULT_OUTPUT := PollOutput([], None, false)

  /** A command with the poll output it leads to, and for a local reset whether it
      succeeds. Setting programming mode and triggering a sync poll nothing. */
  datatype PolledCommand =
    | Inject(seqNo: nat, out: PollOutput)
    | SetProgrammingMode(seqNo: nat)
    | TriggerRead(seqNo: nat, out: PollOutput)
    | TriggerWrite(seqNo: nat, out: PollOutput)
    | TriggerSync(seqNo: nat)
    | PowerCycle
    | MasterReset(code: nat, applied: bool)

  datatype Input = Nothing | Received(cmd: PolledCommand) | EndOfFile | ReadError

  datatype LogCall = LogCall(level: nat, target: string, message: string)

  /** One turn of the loop: what the socket delivers and what the timer tick returns, each with its log calls. */
  datatype Turn = Turn(input: Input, logged: seq<LogCall>, tick: PollOutput, tickLogged: seq<LogCall>)

  datatype Halt = ParentGone | Disconnected | ReadFailed | Exited | Panicked

  // ---------------------------------------------------------------------
  // What the loop means to say
  // ---------------------------------------------------------------------

  function IsStepOf(c: PolledCommand): Option<nat> {
    match c
    case PowerCycle => None
    case MasterReset(_, _) => None
    case _ => Some(c.seqNo)
  }

  function OutputOf(c: PolledCommand): PollOutput {
    match c
    case Inject(_, out) => out
    case TriggerRead(_, out) => out
    case TriggerWrite(_, out) => out
    case _ => DEFAULT_OUTPUT
  }

  /** Why a command ends the process, if it does. Only an injected frame's restart is acted on. */
  function ReasonOf(c: PolledCommand): Option<ExitReason> {
    match c
    case Inject(_, out) => out.restart
    case PowerCycle => Some(PowerCycleExit)
    case MasterReset(code, _) => Some(MasterResetExit(code))
    case _ => None
  }

  /** A frame that cannot be encoded and a local reset that is refused both panic. */
  predicate Fails(c: PolledCommand) {
    OutputOf(c).frameError || (c.MasterReset? && !c.applied)
  }

  function CommandHalt(c: PolledCommand): Option<Halt> {
    if Fails(c) then Some(Panicked) else if ReasonOf(c).Some? then Some(Exited) else None
  }

  /** The answer to a step, then the notice of leaving. */
  function CommandMessages(c: PolledCommand): seq<DutMessage> {
    if Fails(c) then [] else AnswerAndNotice(IsStepOf(c), OutputOf(c).frames, ReasonOf(c))
  }

  function AnswerAndNotice(step: Option<nat>, frames: seq<CapturedFrame>, reason: Option<ExitReason>)
    : seq<DutMessage>
  {
    (if step.Some? then [StepComplete(step.value, frames)] else [])
    + (if reason.Some? then [Exiting(reason.value)] else [])
  }

  /** A `u32` counter after `n` increments, without the division. */
  function Wrap(n: nat): nat {
    if n < 0x1_0000_0000 then n else Wrap(n - 0x1_0000_0000)
  }

  lemma {:induction false} WrapIs(n: nat)
    ensures Wrap(n) == n % 0x1_0000_0000
  {
    if n >= 0x1_0000_0000 {
      WrapIs(n - 0x1_0000_0000);
    }
  }

  lemma WrapNext(n: nat)
    ensures (Wrap(n) + 1) % 0x1_0000_0000 == Wrap(n + 1)
  {
    WrapIs(n);
    WrapIs(n + 1);
  }

  /** One unsolicited message per frame, after `sent` earlier ones. */
  function Unsolicited(frames: seq<CapturedFrame>, sent: nat): seq<DutMessage> {
    if frames == [] then []
    else Unsolicited(DropLast(frames), sent) + [UnsolicitedFrame(Wrap(sent + |frames|), Last(frames))]
  }

  lemma UnsolicitedSnoc(frames: seq<CapturedFrame>, k: nat, sent: nat)
    requires k < |frames|
    ensures Unsolicited(frames[..k + 1], sent)
            == Unsolicited(frames[..k], sent) + [UnsolicitedFrame(Wrap(sent + k + 1), frames[k])]
  {
    assert DropLast(frames[..k + 1]) == frames[..k];
  }

  /** What a turn comes to: the answer to its command, the frames of its timer
      tick, and why the loop ends with it, if it does. */
  datatype Beat = Beat(answer: seq<DutMessage>, frames: seq<CapturedFrame>, halt: Option<Halt>)

  function Ticked(answer: seq<DutMessage>, tick: PollOutput): Beat {
    if tick.frameError then Beat(answer, [], Some(Panicked)) else Beat(answer, tick.frames, None)
  }

  function BeatOf(t: Turn): Beat {
    match t.input
    case EndOfFile => Beat([], [], Some(Disconnected))
    case ReadError => Beat([], [], Some(ReadFailed))
    case Nothing => Ticked([], t.tick)
    case Received(c) =>
      if CommandHalt(c).Some? then Beat(CommandMessages(c), [], CommandHalt(c)) else Ticked(CommandMessages(c), t.tick)
  }

  function Beats(script: seq<Turn>): (beats: seq<Beat>)
    ensures |beats| == |script|
  {
    if script == [] then [] else Beats(DropLast(script)) + [BeatOf(Last(script))]
  }

  function Said(b: Beat, sent: nat): seq<DutMessage> {
    b.answer + Unsolicited(b.frames, sent)
  }

  /** Unsolicited frames sent in all. */
  function FramesIn(beats: seq<Beat>): nat {
    if beats == [] then 0 else FramesIn(DropLast(beats)) + |Last(beats).frames|
  }

  function Trace(beats: seq<Beat>): seq<DutMessage> {
    if beats == [] then [Ready, RoiComplete]
    else Trace(DropLast(beats)) + Said(Last(beats), FramesIn(DropLast(beats)))
  }

  function EndOf(beats: seq<Beat>): Option<Halt> {
    if beats == [] then None else Last(beats).halt
  }

  /** How many beats the loop gets to: all of them, or those up to the first that ends it. */
  function TakenCount(beats: seq<Beat>): (n: nat)
    ensures n <= |beats|
  {
    if beats == [] then 0 else if beats[0].halt.Some? then 1 else 1 + TakenCount(beats[1..])
  }

  function Taken(beats: seq<Beat>): seq<Beat> {
    beats[..TakenCount(beats)]
  }

  function FullTrace(script: seq<Turn>): seq<DutMessage> {
    Trace(Taken(Beats(script)))
  }

  /** Each frame in a batch of its own. */
  function Singles(frames: seq<CapturedFrame>): seq<seq<CapturedFrame>> {
    if frames == [] then [] else Singles(DropLast(frames)) + [[Last(frames)]]
  }

  // ---------------------------------------------------------------------
  // What the turns taken ask for, read off the commands and polls alone
  // ---------------------------------------------------------------------

  /** The turns the loop gets to: all of them, or those up to the first that ends it. */
  function TakenTurns(script: seq<Turn>): seq<Turn> {
    script[..TakenCount(Beats(script))]
  }

  /** The step a turn answers. An output that cannot be encoded is not answered. */
  function TurnSteps(t: Turn): seq<nat> {
    match t.input
    case Received(Inject(seqNo, out)) => if out.frameError then [] else [seqNo]
    case Received(TriggerRead(seqNo, out)) => if out.frameError then [] else [seqNo]
    case Received(TriggerWrite(seqNo, out)) => if out.frameError then [] else [seqNo]
    case Received(SetProgrammingMode(seqNo)) => [seqNo]
    case Received(TriggerSync(seqNo)) => [seqNo]
    case _ => []
  }

  /** The batch that answers it: the frames of the poll the command leads to. */
  function TurnAnswer(t: Turn): seq<seq<CapturedFrame>> {
    match t.input
    case Received(Inject(_, out)) => if out.frameError then [] else [out.frames]
    case Received(TriggerRead(_, out)) => if out.frameError then [] else [out.frames]
    case Received(TriggerWrite(_, out)) => if out.frameError then [] else [out.frames]
    case Received(SetProgrammingMode(_)) => [[]]
    case Received(TriggerSync(_)) => [[]]
    case _ => []
  }

  /** A turn whose command or socket ends the loop has no timer tick. */
  predicate Ticks(t: Turn) {
    match t.input
    case Nothing => true
    case Received(Inject(_, out)) => !out.frameError && out.restart.None?
    case Received(TriggerRead(_, out)) => !out.frameError
    case Received(TriggerWrite(_, out)) => !out.frameError
    case Received(SetProgrammingMode(_)) => true
    case Received(TriggerSync(_)) => true
    case _ => false
  }

  function TickFrames(t: Turn): seq<CapturedFrame> {
    if Ticks(t) && !t.tick.frameError then t.tick.frames else []
  }

  /** The batches a turn sends: the poll of its step in one, then each frame of the tick in one of its own. */
  function TurnReplies(t: Turn): seq<seq<CapturedFrame>> {
    TurnAnswer(t) + Singles(TickFrames(t))
  }

  /** The calls the logger lets through, as records. */
  function Allowed(calls: seq<LogCall>, level: nat): seq<LogEntry> {
    if calls == [] then []
    else Allowed(DropLast(calls), level)
         + (if Last(calls).level <= level then [Record(Last(calls).level, Last(calls).target, Last(calls).message)]
            else [])
  }

  /** What a turn logs: always while its input is handled, and in its tick if it gets to it. */
  function TurnRecords(t: Turn, level: nat): seq<LogEntry> {
    Allowed(t.logged, level) + (if Ticks(t) then Allowed(t.tickLogged, level) else [])
  }

  function RecordsOf(turns: seq<Turn>, level: nat): seq<LogEntry> {
    if turns == [] then [] else RecordsOf(DropLast(turns), level) + TurnRecords(Last(turns), level)
  }

  /** After `before`, a turn logged all it has to, or the beginning of it if the parent went away. */
  predicate Recorded(before: seq<LogEntry>, t: Turn, level: nat, after: seq<LogEntry>, halt: Option<Halt>) {
    if halt == Some(ParentGone) then after <= before + TurnRecords(t, level)
    else after == before + TurnRecords(t, level)
  }

  lemma AllowedSnoc(calls: seq<LogCall>, k: nat, level: nat)
    requires k < |calls|
    ensures Allowed(calls[..k + 1], level)
            == Allowed(calls[..k], level)
               + if calls[k].level <= level then [Record(calls[k].level, calls[k].target, calls[k].message)] else []
  {
    assert DropLast(calls[..k + 1]) == calls[..k];
  }

  lemma RecordsSnoc(script: seq<Turn>, k: nat, level: nat)
    requires k < |script|
    ensures RecordsOf(script[..k + 1], level) == RecordsOf(script[..k], level) + TurnRecords(script[k], level)
  {
    assert DropLast(script[..k + 1]) == script[..k];
  }

  lemma {:induction false} RecordsGrow(turns: seq<Turn>, k: nat, level: nat)
    requires k <= |turns|
    ensures RecordsOf(turns[..k], level) <= RecordsOf(turns, level)
    decreases |turns|
  {
    if k < |turns| {
      RecordsGrow(DropLast(turns), k, level);
      assert DropLast(turns)[..k] == turns[..k];
    } else {
      assert turns[..k] == turns;
    }
  }

  /** A turn gets to its tick unless its command or the socket ends the loop. */
  lemma TicksIff(t: Turn)
    ensures Ticks(t) <==> t.input.Nothing? || (t.input.Received? && CommandHalt(t.input.cmd).None?)
  {
  }

  // ---------------------------------------------------------------------
  // The program
  // ---------------------------------------------------------------------

  /** From `before`, all of `msgs` was written, or the parent went away before the last of them was. */
  predicate Wrote(before: seq<DutMessage>, msgs: seq<DutMessage>, after: seq<DutMessage>, halt: Option<Halt>) {
    if halt == Some(ParentGone) then before <= after < before + msgs else after == before + msgs
  }

  lemma WroteBoth(before: seq<DutMessage>, a: seq<DutMessage>, mid: seq<DutMessage>, b: seq<DutMessage>,
                  after: seq<DutMessage>, halt: Option<Halt>)
    requires mid == before + a && Wrote(mid, b, after, halt)
    ensures Wrote(before, a + b, after, halt)
  {
    assert before + (a + b) == (before + a) + b;
  }

  /** A parent that goes away during some messages has gone away during any that begin with them. */
  lemma WroteMore(before: seq<DutMessage>, a: seq<DutMessage>, b: seq<DutMessage>, after: seq<DutMessage>)
    requires Wrote(before, a, after, Some(ParentGone)) && a <= b
    ensures Wrote(before, b, after, Some(ParentGone))
  {
    assert before + a <= before + b;
  }

  /** How a run over `script` comes out: with the whole trace and its ending, or cut short by the parent. */
  predicate RanAs(script: seq<Turn>, wire: seq<DutMessage>, halt: Option<Halt>) {
    && (halt == EndOf(Taken(Beats(script))) || halt == Some(ParentGone))
    && Wrote([], FullTrace(script), Visible(wire), halt)
  }

  lemma VisibleOfLogs(w: seq<DutMessage>, entry: LogEntry)
    ensures Visible(w + [Log(entry)]) == Visible(w) && Logs(w + [Log(entry)]) == Logs(w) + [entry]
  {
    WireSnoc(w, Log(entry));
  }

  /** Over `ops` the logger took `accepted` and handed out `logs`, or more once the parent is gone. */
  ghost predicate Tracks(ops: seq<LogQueue.LogOp>, accepted: seq<LogEntry>, state: LogQueue.LogState,
                         logs: seq<LogEntry>, halt: Option<Halt>)
  {
    var ledger := LogQueue.LedgerOf(ops);
    && ledger.records && accepted == ledger.accepted
    && if halt == Some(ParentGone) then logs <= ledger.delivered
       else state == ledger.state && logs == ledger.delivered
  }

  /** A turn is over: all it has to say was written and it ended as its beat says, or the parent went away. */
  predicate TookTurn(t: Turn, sent: nat, before: seq<DutMessage>, after: seq<DutMessage>, halt: Option<Halt>) {
    && (halt == BeatOf(t).halt || halt == Some(ParentGone))
    && Wrote(before, Said(BeatOf(t), sent), after, halt)
  }

  lemma EndedByInput(t: Turn, sent: nat, before: seq<DutMessage>, after: seq<DutMessage>, halt: Option<Halt>)
    requires halt == Some(ParentGone) || (!Ticks(t) && halt == BeatOf(t).halt)
    requires Wrote(before, BeatOf(t).answer, after, halt)
    ensures TookTurn(t, sent, before, after, halt)
  {
    TicksIff(t);
    if halt == Some(ParentGone) {
      WroteMore(before, BeatOf(t).answer, Said(BeatOf(t), sent), after);
    } else {
      assert Said(BeatOf(t), sent) == BeatOf(t).answer;
    }
  }

  lemma EndedByTick(t: Turn, sent: nat, before: seq<DutMessage>, mid: seq<DutMessage>, after: seq<DutMessage>,
                    halt: Option<Halt>)
    requires Ticks(t) && mid == before + BeatOf(t).answer
    requires halt == (if t.tick.frameError then Some(Panicked) else None) || halt == Some(ParentGone)
    requires Wrote(mid, if t.tick.frameError then [] else Unsolicited(t.tick.frames, sent), after, halt)
    ensures TookTurn(t, sent, before, after, halt)
    ensures halt.None? ==> BeatOf(t).frames == t.tick.frames
  {
    TicksIff(t);
    WroteBoth(before, BeatOf(t).answer, mid, Unsolicited(BeatOf(t).frames, sent), after, halt);
  }

  /** The loop after `turns`, none of which ended it. */
  predicate Underway(turns: seq<Turn>, written: seq<DutMessage>, frameSeq: nat, accepted: seq<LogEntry>, level: nat) {
    && Ongoing(Beats(turns)) && written == Trace(Beats(turns)) && frameSeq == Wrap(FramesIn(Beats(turns)))
    && accepted == RecordsOf(turns, level)
  }

  /** The turn after `turns` ended it. */
  predicate Halts(turns: seq<Turn>, t: Turn, written: seq<DutMessage>, accepted: seq<LogEntry>, level: nat,
                  halt: Option<Halt>)
  {
    && Ongoing(Beats(turns)) && TookTurn(t, FramesIn(Beats(turns)), Trace(Beats(turns)), written, halt)
    && Recorded(RecordsOf(turns, level), t, level, accepted, halt)
  }

  lemma RecordedInput(before: seq<LogEntry>, t: Turn, level: nat, halt: Option<Halt>)
    requires !Ticks(t) || halt == Some(ParentGone)
    ensures Recorded(before, t, level, before + Allowed(t.logged, level), halt)
  {
    var logged, rest := Allowed(t.logged, level), if Ticks(t) then Allowed(t.tickLogged, level) else [];
    Associates(before, logged, rest);
    assert before + logged <= before + (logged + rest);
  }

  lemma RecordedTick(before: seq<LogEntry>, t: Turn, level: nat, halt: Option<Halt>)
    requires Ticks(t)
    ensures Recorded(before, t, level, before + Allowed(t.logged, level) + Allowed(t.tickLogged, level), halt)
  {
    Associates(before, Allowed(t.logged, level), Allowed(t.tickLogged, level));
  }

  lemma SentNext(frames: seq<CapturedFrame>, k: nat, sent: nat, before: seq<DutMessage>, after: seq<DutMessage>,
                 halt: Option<Halt>)
    requires k < |frames|
    requires Wrote(before + Unsolicited(frames[..k], sent), [UnsolicitedFrame(Wrap(sent + k + 1), frames[k])],
                   after, halt)
    ensures halt != Some(ParentGone) ==> after == before + Unsolicited(frames[..k + 1], sent)
    ensures halt == Some(ParentGone) ==> Wrote(before, Unsolicited(frames, sent), after, halt)
  {
    var soFar, next := Unsolicited(frames[..k], sent), [UnsolicitedFrame(Wrap(sent + k + 1), frames[k])];
    UnsolicitedSnoc(frames, k, sent);
    WroteBoth(before, soFar, before + soFar, next, after, halt);
    if halt == Some(ParentGone) {
      UnsolicitedPrefix(frames, k + 1, sent);
      WroteMore(before, soFar + next, Unsolicited(frames, sent), after);
    }
  }

  class Dut {
    /** How many messages the parent reads before it closes the socket. */
    const limit: nat
    const logger: LogQueue.IpcLogger
    var frameSeq: nat
    var wire: seq<DutMessage>
    var halt: Option<Halt>
    /** The calls made on the logger, and the records it took. */
    ghost var ops: seq<LogQueue.LogOp>
    ghost var accepted: seq<LogEntry>

    constructor (limit: nat, level: nat)
      ensures this.limit == limit && wire == [] && frameSeq == 0 && halt == None
      ensures fresh(logger) && logger.level == level && Tracked() && accepted == []
    {
      this.limit := limit;
      logger := new LogQueue.IpcLogger(level);
      frameSeq, wire, halt, ops, accepted := 0, [], None, [], [];
    }

    /** The records on the wire are those the logger handed out, unless the parent went away meanwhile. */
    ghost predicate Tracked()
      reads this, logger
    {
      Tracks(ops, accepted, logger.State(), Logs(wire), halt)
    }

    /** A blocking write: on failure the process is gone. */
    method WriteMsg(msg: DutMessage)
      requires halt.None?
      modifies this`wire, this`halt
      ensures halt.None? ==> wire == old(wire) + [msg]
      ensures halt.Some? ==> halt == Some(ParentGone) && wire == old(wire)
    {
      if |wire| < limit {
        wire := wire + [msg];
      } else {
        halt := Some(ParentGone);
      }
    }

    /** The queued records, as far as the parent reads them. */
    method WriteRecords(records: seq<LogEntry>)
      requires halt.None?
      modifies this`wire, this`halt
      ensures halt.None? || halt == Some(ParentGone)
      ensures Visible(wire) == old(Visible(wire))
      ensures if halt.None? then Logs(wire) == old(Logs(wire)) + records
              else Logs(wire) <= old(Logs(wire)) + records
    {
      for k := 0 to |records|
        invariant halt.None? && Visible(wire) == old(Visible(wire))
        invariant Logs(wire) == old(Logs(wire)) + records[..k]
      {
        VisibleOfLogs(wire, records[k]);
        WriteMsg(Log(records[k]));
        if halt.Some? {
          return;
        }
      }
      assert records[..|records|] == records;
    }

    method Drain() returns (records: seq<LogEntry>)
      requires halt.None? && Tracked()
      modifies this`ops, logger
      ensures records == LogQueue.Drained(old(logger.State()))
      ensures logger.State() == LogQueue.EMPTY && Tracks(ops, accepted, LogQueue.EMPTY, Logs(wire) + records, None)
    {
      LogQueue.LedgerSnoc(ops, LogQueue.Drain);
      ops := ops + [LogQueue.Drain];
      records := logger.DrainLogs();
    }

    /** Queued records first, then the message. */
    method Send(msg: DutMessage)
      requires halt.None? && !msg.Log? && Tracked()
      modifies this`wire, this`halt, this`ops, logger
      ensures halt.None? || halt == Some(ParentGone)
      ensures Wrote(old(Visible(wire)), [msg], Visible(wire), halt)
      ensures Tracked()
      ensures halt.None? ==> Logs(wire) == old(Logs(wire)) + LogQueue.Drained(old(logger.State()))
      ensures halt.None? ==> wire != [] && Last(wire) == msg && logger.State() == LogQueue.EMPTY
    {
      var records := Drain();
      WriteRecords(records);
      if halt.Some? {
        return;
      }
      WireSnoc(wire, msg);
      WriteMsg(msg);
    }

    method FinishStep(seqNo: nat, out: PollOutput)
      requires halt.None? && Tracked()
      modifies this`wire, this`halt, this`ops, logger
      ensures Tracked()
      ensures halt == if out.frameError then Some(Panicked) else if halt.Some? then Some(ParentGone) else None
      ensures Wrote(old(Visible(wire)), if out.frameError then [] else [StepComplete(seqNo, out.frames)],
                    Visible(wire), halt)
    {
      if out.frameError {
        halt := Some(Panicked);
        return;
      }
      Send(StepComplete(seqNo, out.frames));
    }

    method CountFrame(ghost count: nat)
      requires frameSeq == Wrap(count)
      modifies this`frameSeq
      ensures frameSeq == Wrap(count + 1)
    {
      WrapNext(count);
      frameSeq := (frameSeq + 1) % 0x1_0000_0000;
    }

    /** Number and send frame `k`, those before it having gone out since `before`. */
    method SendNext(frames: seq<CapturedFrame>, k: nat, ghost sent: nat, ghost before: seq<DutMessage>)
      requires halt.None? && Tracked() && k < |frames| && frameSeq == Wrap(sent + k)
      requires Visible(wire) == before + Unsolicited(frames[..k], sent)
      modifies this`wire, this`halt, this`frameSeq, this`ops, logger
      ensures Tracked() && (halt.None? || halt == Some(ParentGone))
      ensures halt.None? ==> frameSeq == Wrap(sent + k + 1)
      ensures halt.None? ==> Visible(wire) == before + Unsolicited(frames[..k + 1], sent)
      ensures halt.Some? ==> Wrote(before, Unsolicited(frames, sent), Visible(wire), halt)
    {
      CountFrame(sent + k);
      Send(UnsolicitedFrame(frameSeq, frames[k]));
      SentNext(frames, k, sent, before, Visible(wire), halt);
    }

    /** `sent` counts the unsolicited frames before these. */
    method SendUnsolicited(out: PollOutput, ghost sent: nat)
      requires halt.None? && Tracked() && frameSeq == Wrap(sent)
      modifies this`wire, this`halt, this`frameSeq, this`ops, logger
      ensures Tracked()
      ensures halt == if out.frameError then Some(Panicked) else if halt.Some? then Some(ParentGone) else None
      ensures Wrote(old(Visible(wire)), if out.frameError then [] else Unsolicited(out.frames, sent),
                    Visible(wire), halt)
      ensures halt.None? ==> frameSeq == Wrap(sent + |out.frames|)
    {
      if out.frameError {
        halt := Some(Panicked);
      } else {
        SendFrames(out.frames, sent);
      }
    }

    method SendFrames(frames: seq<CapturedFrame>, ghost sent: nat)
      requires halt.None? && Tracked() && frameSeq == Wrap(sent)
      modifies this`wire, this`halt, this`frameSeq, this`ops, logger
      ensures Tracked()
      ensures halt.None? || halt == Some(ParentGone)
      ensures Wrote(old(Visible(wire)), Unsolicited(frames, sent), Visible(wire), halt)
      ensures halt.None? ==> frameSeq == Wrap(sent + |frames|)
    {
      ghost var before := Visible(wire);
      for k := 0 to |frames|
        invariant halt.None? && Tracked() && frameSeq == Wrap(sent + k)
        invariant Visible(wire) == before + Unsolicited(frames[..k], sent)
      {
        SendNext(frames, k, sent, before);
        if halt.Some? {
          return;
        }
      }
      assert frames[..|frames|] == frames;
    }

    method ExitWith(reason: ExitReason)
      requires halt.None? && Tracked()
      modifies this`wire, this`halt, this`ops, logger
      ensures Tracked()
      ensures halt == Some(Exited) || halt == Some(ParentGone)
      ensures Wrote(old(Visible(wire)), [Exiting(reason)], Visible(wire), halt)
    {
      Send(Exiting(reason));
      if halt.None? {
        halt := Some(Exited);
      }
    }

    /** Answer an injected frame; a restart it causes ends the process. */
    method InjectFrame(c: PolledCommand)
      requires halt.None? && Tracked() && c.Inject?
      modifies this`wire, this`halt, this`ops, logger
      ensures Tracked()
      ensures halt == CommandHalt(c) || halt == Some(ParentGone)
      ensures Wrote(old(Visible(wire)), CommandMessages(c), Visible(wire), halt)
    {
      FinishStep(c.seqNo, c.out);
      if halt.None? && c.out.restart.Some? {
        ghost var mid := Visible(wire);
        ExitWith(c.out.restart.value);
        WroteBoth(old(Visible(wire)), [StepComplete(c.seqNo, c.out.frames)], mid, [Exiting(c.out.restart.value)],
                  Visible(wire), halt);
      }
    }

    method ResetLocally(c: PolledCommand)
      requires halt.None? && Tracked() && c.MasterReset?
      modifies this`wire, this`halt, this`ops, logger
      ensures Tracked()
      ensures halt == CommandHalt(c) || halt == Some(ParentGone)
      ensures Wrote(old(Visible(wire)), CommandMessages(c), Visible(wire), halt)
    {
      if c.applied {
        ExitWith(MasterResetExit(c.code));
      } else {
        halt := Some(Panicked);
      }
    }

    method HandleCommand(c: PolledCommand)
      requires halt.None? && Tracked()
      modifies this`wire, this`halt, this`ops, logger
      ensures Tracked()
      ensures halt == CommandHalt(c) || halt == Some(ParentGone)
      ensures Wrote(old(Visible(wire)), CommandMessages(c), Visible(wire), halt)
    {
      match c {
        case Inject(_, _) => InjectFrame(c);
        case SetProgrammingMode(seqNo) => FinishStep(seqNo, DEFAULT_OUTPUT);
        case TriggerRead(seqNo, out) => FinishStep(seqNo, out);
        case TriggerWrite(seqNo, out) => FinishStep(seqNo, out);
        case TriggerSync(seqNo) => FinishStep(seqNo, DEFAULT_OUTPUT);
        case PowerCycle => ExitWith(PowerCycleExit);
        case MasterReset(_, _) => ResetLocally(c);
      }
    }

    method LogAll(calls: seq<LogCall>)
      requires halt.None? && Tracked()
      modifies this`ops, this`accepted, logger
      ensures Tracked() && accepted == old(accepted) + Allowed(calls, logger.level)
    {
      for k := 0 to |calls|
        invariant Tracked() && accepted == old(accepted) + Allowed(calls[..k], logger.level)
      {
        AllowedSnoc(calls, k, logger.level);
        LogOne(calls[k]);
      }
      assert calls[..|calls|] == calls;
    }

    method LogOne(call: LogCall)
      requires halt.None? && Tracked()
      modifies this`ops, this`accepted, logger
      ensures Tracked()
      ensures accepted == old(accepted) + if call.level <= logger.level
                                              then [Record(call.level, call.target, call.message)] else []
    {
      if call.level <= logger.level {
        LogQueue.LedgerSnoc(ops, LogQueue.Logged(Record(call.level, call.target, call.message)));
        ops := ops + [LogQueue.Logged(Record(call.level, call.target, call.message))];
        accepted := accepted + [Record(call.level, call.target, call.message)];
      }
      logger.Log(call.level, call.target, call.message);
    }

    /** The command or the end of the socket; a turn that ends here has no timer tick. */
    method TakeInput(t: Turn)
      requires halt.None? && Tracked()
      modifies this`wire, this`halt, this`ops, this`accepted, logger
      ensures halt == (if Ticks(t) then None else BeatOf(t).halt) || halt == Some(ParentGone)
      ensures Wrote(old(Visible(wire)), BeatOf(t).answer, Visible(wire), halt)
      ensures Tracked() && accepted == old(accepted) + Allowed(t.logged, logger.level)
    {
      TicksIff(t);
      LogAll(t.logged);
      match t.input {
        case Received(c) => HandleCommand(c);
        case Nothing =>
        case EndOfFile => halt := Some(Disconnected);
        case ReadError => halt := Some(ReadFailed);
      }
    }

    /** The timer tick. */
    method Tick(tick: PollOutput, logged: seq<LogCall>, ghost sent: nat)
      requires halt.None? && Tracked() && frameSeq == Wrap(sent)
      modifies this`wire, this`halt, this`frameSeq, this`ops, this`accepted, logger
      ensures halt == (if tick.frameError then Some(Panicked) else None) || halt == Some(ParentGone)
      ensures Wrote(old(Visible(wire)), if tick.frameError then [] else Unsolicited(tick.frames, sent),
                    Visible(wire), halt)
      ensures halt.None? ==> frameSeq == Wrap(sent + |tick.frames|)
      ensures Tracked() && accepted == old(accepted) + Allowed(logged, logger.level)
    {
      LogAll(logged);
      SendUnsolicited(tick, sent);
    }

    /** The body of the main loop. */
    method TakeTurn(t: Turn, ghost sent: nat)
      requires halt.None? && Tracked() && frameSeq == Wrap(sent)
      modifies this`wire, this`halt, this`frameSeq, this`ops, this`accepted, logger
      ensures Tracked() && TookTurn(t, sent, old(Visible(wire)), Visible(wire), halt)
      ensures Recorded(old(accepted), t, logger.level, accepted, halt)
      ensures halt.None? ==> frameSeq == Wrap(sent + |BeatOf(t).frames|)
    {
      ghost var before, took := Visible(wire), accepted;
      TakeInput(t);
      if halt.Some? {
        EndedByInput(t, sent, before, Visible(wire), halt);
        RecordedInput(took, t, logger.level, halt);
        return;
      }
      ghost var mid := Visible(wire);
      Tick(t.tick, t.tickLogged, sent);
      EndedByTick(t, sent, before, mid, Visible(wire), halt);
      RecordedTick(took, t, logger.level, halt);
    }

    /** One more turn after `turns`. */
    method NextTurn(t: Turn, ghost turns: seq<Turn>)
      requires halt.None? && Tracked() && Underway(turns, Visible(wire), frameSeq, accepted, logger.level)
      modifies this`wire, this`halt, this`frameSeq, this`ops, this`accepted, logger
      ensures Tracked()
      ensures halt.None? ==> Underway(turns + [t], Visible(wire), frameSeq, accepted, logger.level)
      ensures halt.Some? ==> Halts(turns, t, Visible(wire), accepted, logger.level, halt)
    {
      ghost var sent := FramesIn(Beats(turns));
      TakeTurn(t, sent);
      if halt.None? {
        StillUnderway(turns, t, turns + [t], Visible(wire), sent, accepted, logger.level);
      }
    }

    /** The two messages every run starts with. */
    method Start()
      requires halt.None? && wire == [] && Tracked()
      modifies this`wire, this`halt, this`ops, logger
      ensures halt.None? || halt == Some(ParentGone)
      ensures Wrote([], Trace([]), Visible(wire), halt)
      ensures Tracked()
    {
      Send(Ready);
      if halt.Some? {
        WroteMore([], [Ready], [Ready, RoiComplete], Visible(wire));
        return;
      }
      Send(RoiComplete);
      WroteBoth([], [Ready], [Ready], [RoiComplete], Visible(wire), halt);
    }

    /** The main loop. */
    method Loop(script: seq<Turn>)
      requires halt.None? && Tracked() && Underway([], Visible(wire), frameSeq, accepted, logger.level)
      modifies this`wire, this`halt, this`frameSeq, this`ops, this`accepted, logger
      ensures Tracked() && RanAs(script, wire, halt) && LoggedAs(script, logger.level, accepted, halt)
    {
      ghost var turns: seq<Turn> := [];
      for k := 0 to |script|
        invariant turns == script[..k]
        invariant halt.None? && Tracked() && Underway(turns, Visible(wire), frameSeq, accepted, logger.level)
      {
        NextTurn(script[k], turns);
        if halt.Some? {
          HaltedRun(script, k, wire, accepted, logger.level, halt);
          return;
        }
        turns := turns + [script[k]];
      }
      assert script[..|script|] == script;
      RanWhole(turns, wire, frameSeq, accepted, logger.level);
    }

    /** The whole program over a script of turns. */
    method Run(script: seq<Turn>)
      requires halt.None? && wire == [] && frameSeq == 0 && Tracked() && accepted == []
      modifies this`wire, this`halt, this`frameSeq, this`ops, this`accepted, logger
      ensures RanAs(script, wire, halt)
      ensures Tracked() && LoggedAs(script, logger.level, accepted, halt)
    {
      Start();
      if halt.Some? {
        HaltedStart(script, wire, logger.level);
        return;
      }
      UnderwayStart(logger.level);
      Loop(script);
    }
  }

  lemma HaltedStart(script: seq<Turn>, wire: seq<DutMessage>, level: nat)
    requires Wrote([], Trace([]), Visible(wire), Some(ParentGone))
    ensures RanAs(script, wire, Some(ParentGone)) && LoggedAs(script, level, [], Some(ParentGone))
  {
    TraceGrows(Taken(Beats(script)), 0);
    WroteMore([], Trace([]), FullTrace(script), Visible(wire));
  }

  lemma UnderwayStart(level: nat)
    ensures Underway([], Trace([]), 0, [], level)
  {
  }

  lemma BeatAdded(beats: seq<Beat>, beat: Beat)
    requires Ongoing(beats) && beat.halt.None?
    ensures Ongoing(beats + [beat]) && Trace(beats + [beat]) == Trace(beats) + Said(beat, FramesIn(beats))
    ensures FramesIn(beats + [beat]) == FramesIn(beats) + |beat.frames|
  {
    assert DropLast(beats + [beat]) == beats;
  }

  lemma TurnAdded(turns: seq<Turn>, t: Turn, level: nat)
    ensures Beats(turns + [t]) == Beats(turns) + [BeatOf(t)]
    ensures RecordsOf(turns + [t], level) == RecordsOf(turns, level) + TurnRecords(t, level)
  {
    assert DropLast(turns + [t]) == turns;
  }

  lemma BeatsUnderway(turns: seq<Turn>, beats: seq<Beat>, beat: Beat, written: seq<DutMessage>,
                      accepted: seq<LogEntry>, level: nat)
    requires Beats(turns) == beats + [beat] && Ongoing(beats) && beat.halt.None?
    requires written == Trace(beats) + Said(beat, FramesIn(beats)) && accepted == RecordsOf(turns, level)
    ensures Underway(turns, written, Wrap(FramesIn(beats) + |beat.frames|), accepted, level)
  {
    BeatAdded(beats, beat);
  }

  lemma StillUnderway(turns: seq<Turn>, t: Turn, next: seq<Turn>, written: seq<DutMessage>, sent: nat,
                      accepted: seq<LogEntry>, level: nat)
    requires next == turns + [t] && sent == FramesIn(Beats(turns)) && Ongoing(Beats(turns)) && BeatOf(t).halt.None?
    requires written == Trace(Beats(turns)) + Said(BeatOf(t), sent)
    requires accepted == RecordsOf(turns, level) + TurnRecords(t, level)
    ensures Underway(next, written, Wrap(sent + |BeatOf(t).frames|), accepted, level)
  {
    TurnAdded(turns, t, level);
    BeatsUnderway(next, Beats(turns), BeatOf(t), written, accepted, level);
  }

  lemma RanWhole(script: seq<Turn>, wire: seq<DutMessage>, frameSeq: nat, accepted: seq<LogEntry>, level: nat)
    requires Underway(script, Visible(wire), frameSeq, accepted, level)
    ensures RanAs(script, wire, None) && LoggedAs(script, level, accepted, None)
  {
    TakenWhole(Beats(script));
    assert TakenTurns(script) == script;
    assert [] + FullTrace(script) == Trace(Beats(script));
  }

  /** What the logger took in a run: the records of the turns taken, or their beginning if the parent went away. */
  predicate LoggedAs(script: seq<Turn>, level: nat, accepted: seq<LogEntry>, halt: Option<Halt>) {
    if halt == Some(ParentGone) then accepted <= RecordsOf(TakenTurns(script), level)
    else accepted == RecordsOf(TakenTurns(script), level)
  }

  lemma HaltedLogs(script: seq<Turn>, k: nat, level: nat, accepted: seq<LogEntry>, halt: Option<Halt>)
    requires k < |script| && Ongoing(Beats(script[..k]))
    requires halt == Some(ParentGone) || (halt.Some? && halt == BeatOf(script[k]).halt)
    requires Recorded(RecordsOf(script[..k], level), script[k], level, accepted, halt)
    ensures LoggedAs(script, level, accepted, halt)
  {
    BeatsSnoc(script, k);
    BeatsPrefix(script, k);
    TakenReaches(Beats(script), k);
    RecordsSnoc(script, k, level);
    RecordsGrow(TakenTurns(script), k + 1, level);
    assert TakenTurns(script)[..k + 1] == script[..k + 1];
  }

  /** The whole trace begins with the trace of the beats taken so far, and is that
      trace if the last of them ends the loop. */
  lemma HaltedTrace(all: seq<Beat>, beats: seq<Beat>)
    requires beats <= all && beats != [] && Ongoing(DropLast(beats))
    ensures Trace(beats) <= Trace(Taken(all))
    ensures EndOf(beats).Some? ==> Taken(all) == beats
  {
    TakenReaches(all, |beats| - 1);
    assert DropLast(beats) == all[..|beats| - 1];
    assert Taken(all)[..|beats|] == beats;
    TraceGrows(Taken(all), |beats|);
  }

  lemma HaltedRun(script: seq<Turn>, k: nat, wire: seq<DutMessage>, accepted: seq<LogEntry>, level: nat,
                  halt: Option<Halt>)
    requires k < |script| && halt.Some? && Halts(script[..k], script[k], Visible(wire), accepted, level, halt)
    ensures RanAs(script, wire, halt) && LoggedAs(script, level, accepted, halt)
  {
    BeatsSnoc(script, k);
    HaltedBeat(Beats(script), Beats(script[..k]), BeatOf(script[k]), Visible(wire), halt);
    HaltedLogs(script, k, level, accepted, halt);
  }

  lemma HaltedBeat(all: seq<Beat>, before: seq<Beat>, beat: Beat, written: seq<DutMessage>, halt: Option<Halt>)
    requires before + [beat] <= all && Ongoing(before) && halt.Some? && (halt == beat.halt || halt == Some(ParentGone))
    requires Wrote(Trace(before), Said(beat, FramesIn(before)), written, halt)
    ensures Wrote([], Trace(Taken(all)), written, halt)
    ensures halt == EndOf(Taken(all)) || halt == Some(ParentGone)
  {
    TraceSnoc(before, beat);
    assert DropLast(before + [beat]) == before;
    HaltedTrace(all, before + [beat]);
  }

  predicate Ongoing(beats: seq<Beat>) {
    forall i :: 0 <= i < |beats| ==> beats[i].halt.None?
  }

  lemma {:induction false} TakenReaches(all: seq<Beat>, k: nat)
    requires k < |all| && Ongoing(all[..k])
    ensures TakenCount(all) > k
    ensures all[k].halt.Some? ==> TakenCount(all) == k + 1
  {
    if k > 0 {
      assert all[..k][0] == all[0];
      assert all[1..][..k - 1] == all[..k][1..];
      TakenReaches(all[1..], k - 1);
    }
  }

  lemma {:induction false} TakenWhole(beats: seq<Beat>)
    requires Ongoing(beats)
    ensures Taken(beats) == beats && EndOf(beats).None?
  {
    if beats != [] {
      TakenWhole(beats[1..]);
      assert TakenCount(beats) == |beats|;
    }
  }

  /** Only the last beat taken can halt. */
  lemma {:induction false} OnlyLastHalts(beats: seq<Beat>, k: nat)
    requires k < |Taken(beats)| - 1
    ensures beats[k].halt.None?
  {
    if k > 0 {
      OnlyLastHalts(beats[1..], k - 1);
    }
  }

  lemma {:induction false} BeatsPrefix(turns: seq<Turn>, k: nat)
    requires k <= |turns|
    ensures Beats(turns[..k]) == Beats(turns)[..k]
    decreases |turns|
  {
    if k < |turns| {
      BeatsPrefix(DropLast(turns), k);
      assert DropLast(turns)[..k] == turns[..k];
    } else {
      assert turns[..k] == turns;
      if turns != [] {
        BeatsPrefix(DropLast(turns), k - 1);
      }
    }
  }

  lemma BeatsSnoc(script: seq<Turn>, k: nat)
    requires k < |script|
    ensures Beats(script[..k + 1]) == Beats(script[..k]) + [BeatOf(script[k])] <= Beats(script)
  {
    assert DropLast(script[..k + 1]) == script[..k];
    BeatsPrefix(script, k + 1);
  }

  lemma TraceSnoc(beats: seq<Beat>, beat: Beat)
    ensures Trace(beats + [beat]) == Trace(beats) + Said(beat, FramesIn(beats))
  {
    assert DropLast(beats + [beat]) == beats;
  }

  lemma {:induction false} TraceGrows(beats: seq<Beat>, k: nat)
    requires k <= |beats|
    ensures Trace(beats[..k]) <= Trace(beats)
    decreases |beats|
  {
    if k < |beats| {
      TraceGrows(DropLast(beats), k);
      assert DropLast(beats)[..k] == beats[..k];
    } else {
      assert beats[..k] == beats;
    }
  }

  lemma {:induction false} UnsolicitedPrefix(frames: seq<CapturedFrame>, k: nat, frameSeq: nat)
    requires k <= |frames|
    ensures Unsolicited(frames[..k], frameSeq) <= Unsolicited(frames, frameSeq)
    decreases |frames|
  {
    if k < |frames| {
      UnsolicitedPrefix(DropLast(frames), k, frameSeq);
      assert DropLast(frames)[..k] == frames[..k];
    } else {
      assert frames[..k] == frames;
    }
  }

  // ---------------------------------------------------------------------
  // The grammar of the trace
  // ---------------------------------------------------------------------

  lemma Associates<T>(a: seq<T>, b: seq<T>, c: seq<T>)
    ensures (a + b) + c == a + (b + c)
  {
  }

  lemma {:induction false} ProjectConcat(a: seq<DutMessage>, b: seq<DutMessage>)
    ensures StepSeqs(a + b) == StepSeqs(a) + StepSeqs(b)
    ensures FrameSeqs(a + b) == FrameSeqs(a) + FrameSeqs(b)
    ensures Replies(a + b) == Replies(a) + Replies(b)
  {
    if b == [] {
      assert a + b == a;
    } else {
      assert DropLast(a + b) == a + DropLast(b) && Last(a + b) == Last(b);
      ProjectConcat(a, DropLast(b));
      Associates(StepSeqs(a), StepSeqs(DropLast(b)), StepSeqPart(Last(b)));
      Associates(FrameSeqs(a), FrameSeqs(DropLast(b)), FrameSeqPart(Last(b)));
      Associates(Replies(a), Replies(DropLast(b)), ReplyPart(Last(b)));
    }
  }

  /** The numbers `sent` + 1 up to `sent` + `count`, as a `u32` shows them. */
  function NumbersFrom(sent: nat, count: nat): seq<nat> {
    if count == 0 then [] else NumbersFrom(sent, count - 1) + [Wrap(sent + count)]
  }

  lemma {:induction false} NumbersConcat(a: nat, b: nat)
    ensures NumbersFrom(0, a) + NumbersFrom(a, b) == NumbersFrom(0, a + b)
  {
    if b > 0 {
      NumbersConcat(a, b - 1);
      Associates(NumbersFrom(0, a), NumbersFrom(a, b - 1), [Wrap(a + b)]);
    }
  }

  lemma {:induction false} NumbersAt(sent: nat, count: nat)
    ensures |NumbersFrom(sent, count)| == count
    ensures forall k :: 0 <= k < count ==> NumbersFrom(sent, count)[k] == Wrap(sent + k + 1)
  {
    if count > 0 {
      NumbersAt(sent, count - 1);
    }
  }

  predicate OnlyUnsolicited(w: seq<DutMessage>) {
    forall k :: 0 <= k < |w| ==> w[k].UnsolicitedFrame?
  }

  lemma {:induction false} UnsolicitedProjects(frames: seq<CapturedFrame>, sent: nat)
    ensures OnlyUnsolicited(Unsolicited(frames, sent)) && StepSeqs(Unsolicited(frames, sent)) == []
    ensures FrameSeqs(Unsolicited(frames, sent)) == NumbersFrom(sent, |frames|)
    ensures Replies(Unsolicited(frames, sent)) == Singles(frames)
  {
    if frames != [] {
      UnsolicitedProjects(DropLast(frames), sent);
      ReplySnoc(Unsolicited(DropLast(frames), sent), UnsolicitedFrame(Wrap(sent + |frames|), Last(frames)));
    }
  }

  lemma TwoProject(a: DutMessage, b: DutMessage)
    ensures StepSeqs([a]) == StepSeqPart(a) && StepSeqs([a, b]) == StepSeqPart(a) + StepSeqPart(b)
    ensures FrameSeqs([a]) == FrameSeqPart(a) && FrameSeqs([a, b]) == FrameSeqPart(a) + FrameSeqPart(b)
    ensures Replies([a]) == ReplyPart(a) && Replies([a, b]) == ReplyPart(a) + ReplyPart(b)
  {
    assert DropLast([a, b]) == [a] && DropLast([a]) == [];
  }

  lemma AnswerOnly(step: Option<nat>, frames: seq<CapturedFrame>)
    ensures var answer := if step.Some? then [StepComplete(step.value, frames)] else [];
            && StepSeqs(answer) == (if step.Some? then [step.value] else []) && FrameSeqs(answer) == []
            && Replies(answer) == if step.Some? then [frames] else []
  {
    if step.Some? {
      TwoProject(StepComplete(step.value, frames), Ready);
    }
  }

  lemma NoticeOnly(reason: Option<ExitReason>)
    ensures var notice := if reason.Some? then [Exiting(reason.value)] else [];
            StepSeqs(notice) == [] && FrameSeqs(notice) == [] && Replies(notice) == []
  {
    if reason.Some? {
      TwoProject(Exiting(reason.value), Ready);
    }
  }

  /** What follows an answer and projects to nothing changes no projection. */
  lemma QuietTail(w: seq<DutMessage>, tail: seq<DutMessage>)
    requires StepSeqs(tail) == [] && FrameSeqs(tail) == [] && Replies(tail) == []
    ensures StepSeqs(w + tail) == StepSeqs(w) && FrameSeqs(w + tail) == FrameSeqs(w) && Replies(w + tail) == Replies(w)
  {
    ProjectConcat(w, tail);
  }

  lemma AnswerProjects(step: Option<nat>, frames: seq<CapturedFrame>, reason: Option<ExitReason>)
    ensures StepSeqs(AnswerAndNotice(step, frames, reason)) == if step.Some? then [step.value] else []
    ensures FrameSeqs(AnswerAndNotice(step, frames, reason)) == []
    ensures Replies(AnswerAndNotice(step, frames, reason)) == if step.Some? then [frames] else []
  {
    AnswerOnly(step, frames);
    NoticeOnly(reason);
    QuietTail(if step.Some? then [StepComplete(step.value, frames)] else [],
              if reason.Some? then [Exiting(reason.value)] else []);
  }

  /** A command that polls the stack is answered with that poll's frames; a frame that cannot
      be encoded panics and writes nothing. Only an injected frame's restart is acted on. */
  lemma PollsAnswer(c: PolledCommand, seqNo: nat, out: PollOutput)
    requires c in {PolledCommand.Inject(seqNo, out), TriggerRead(seqNo, out), TriggerWrite(seqNo, out)}
    ensures out.frameError ==> CommandMessages(c) == [] && CommandHalt(c) == Some(Panicked)
    ensures !out.frameError && !(c.Inject? && out.restart.Some?) ==>
              CommandMessages(c) == [StepComplete(seqNo, out.frames)] && CommandHalt(c) == None
    ensures !out.frameError && c.Inject? && out.restart.Some? ==>
              && CommandMessages(c) == [StepComplete(seqNo, out.frames), Exiting(out.restart.value)]
              && CommandHalt(c) == Some(Exited)
  {
  }

  /** The commands that poll nothing. */
  lemma PlainAnswers(seqNo: nat, code: nat)
    ensures CommandMessages(SetProgrammingMode(seqNo)) == CommandMessages(TriggerSync(seqNo))
            == [StepComplete(seqNo, [])]
    ensures CommandHalt(SetProgrammingMode(seqNo)) == CommandHalt(TriggerSync(seqNo)) == None
    ensures CommandMessages(PolledCommand.PowerCycle) == [Exiting(PowerCycleExit)]
    ensures CommandMessages(PolledCommand.MasterReset(code, true)) == [Exiting(MasterResetExit(code))]
    ensures CommandHalt(PolledCommand.PowerCycle) == CommandHalt(PolledCommand.MasterReset(code, true)) == Some(Exited)
    ensures CommandMessages(PolledCommand.MasterReset(code, false)) == []
    ensures CommandHalt(PolledCommand.MasterReset(code, false)) == Some(Panicked)
  {
  }

  lemma CommandProjects(t: Turn)
    requires t.input.Received?
    ensures FrameSeqs(CommandMessages(t.input.cmd)) == []
    ensures StepSeqs(CommandMessages(t.input.cmd)) == TurnSteps(t)
    ensures Replies(CommandMessages(t.input.cmd)) == TurnAnswer(t)
  {
    var c := t.input.cmd;
    if !Fails(c) {
      AnswerProjects(IsStepOf(c), OutputOf(c).frames, ReasonOf(c));
    }
  }

  /** A beat answers its command once if it is a step, with the frames of its poll, unless the
      poll panics; then come the frames of the tick, if the turn gets to it. */
  lemma BeatProjects(t: Turn)
    ensures FrameSeqs(BeatOf(t).answer) == [] && StepSeqs(BeatOf(t).answer) == TurnSteps(t)
    ensures BeatOf(t).frames == TickFrames(t)
    ensures Replies(BeatOf(t).answer) == TurnAnswer(t)
    ensures Replies(BeatOf(t).answer) + Singles(BeatOf(t).frames) == TurnReplies(t)
  {
    if t.input.Received? {
      CommandProjects(t);
    }
  }

  lemma SaidProjects(t: Turn, sent: nat)
    ensures StepSeqs(Said(BeatOf(t), sent)) == TurnSteps(t)
    ensures Replies(Said(BeatOf(t), sent)) == TurnReplies(t)
  {
    var b := BeatOf(t);
    BeatProjects(t);
    UnsolicitedProjects(b.frames, sent);
    ProjectConcat(b.answer, Unsolicited(b.frames, sent));
  }

  lemma StartProjects()
    ensures StepSeqs(Trace([])) == [] && FrameSeqs(Trace([])) == [] && Replies(Trace([])) == []
  {
    TwoProject(Ready, RoiComplete);
  }

  lemma FrameSeqsConcat(a: seq<DutMessage>, b: seq<DutMessage>)
    ensures FrameSeqs(a + b) == FrameSeqs(a) + FrameSeqs(b)
  {
    ProjectConcat(a, b);
  }

  lemma NumbersStep(w: seq<DutMessage>, said: seq<DutMessage>, sent: nat, count: nat)
    requires FrameSeqs(w) == NumbersFrom(0, sent) && FrameSeqs(said) == NumbersFrom(sent, count)
    ensures FrameSeqs(w + said) == NumbersFrom(0, sent + count)
  {
    FrameSeqsConcat(w, said);
    NumbersConcat(sent, count);
  }

  lemma SaidNumbers(b: Beat, sent: nat)
    requires FrameSeqs(b.answer) == []
    ensures FrameSeqs(Said(b, sent)) == NumbersFrom(sent, |b.frames|)
  {
    UnsolicitedProjects(b.frames, sent);
    FrameSeqsConcat(b.answer, Unsolicited(b.frames, sent));
    assert [] + NumbersFrom(sent, |b.frames|) == NumbersFrom(sent, |b.frames|);
  }

  /** Answers do not use the numbering of unsolicited frames. */
  predicate Unnumbered(beats: seq<Beat>) {
    forall k :: 0 <= k < |beats| ==> FrameSeqs(beats[k].answer) == []
  }

  lemma {:induction false} TraceNumbers(beats: seq<Beat>)
    requires Unnumbered(beats)
    ensures FrameSeqs(Trace(beats)) == NumbersFrom(0, FramesIn(beats))
  {
    if beats == [] {
      StartProjects();
    } else {
      var before, b := DropLast(beats), Last(beats);
      TraceNumbers(before);
      SaidNumbers(b, FramesIn(before));
      NumbersStep(Trace(before), Said(b, FramesIn(before)), FramesIn(before), |b.frames|);
    }
  }

  lemma {:induction false} CountTicks(turns: seq<Turn>)
    ensures Unnumbered(Beats(turns)) && FramesIn(Beats(turns)) == |Collect(turns, TickFrames)|
  {
    if turns != [] {
      CountTicks(DropLast(turns));
      BeatProjects(Last(turns));
    }
  }

  lemma TurnTraced(turns: seq<Turn>)
    requires turns != []
    ensures Trace(Beats(turns)) == Trace(Beats(DropLast(turns)))
                                   + Said(BeatOf(Last(turns)), FramesIn(Beats(DropLast(turns))))
  {
    TraceSnoc(Beats(DropLast(turns)), BeatOf(Last(turns)));
  }

  lemma {:induction false} TraceAnswers(turns: seq<Turn>)
    ensures StepSeqs(Trace(Beats(turns))) == Collect(turns, TurnSteps)
    ensures Replies(Trace(Beats(turns))) == Collect(turns, TurnReplies)
  {
    if turns == [] {
      StartProjects();
    } else {
      var before, t := DropLast(turns), Last(turns);
      var sent := FramesIn(Beats(before));
      TraceAnswers(before);
      TurnTraced(turns);
      SaidProjects(t, sent);
      ProjectConcat(Trace(Beats(before)), Said(BeatOf(t), sent));
    }
  }

  lemma TakenAreBeats(script: seq<Turn>)
    ensures Taken(Beats(script)) == Beats(TakenTurns(script))
  {
    BeatsPrefix(script, TakenCount(Beats(script)));
  }

  /** What a reader sees of a trace of which the protocol messages on the wire are a prefix. */
  lemma WireProjects(wire: seq<DutMessage>, trace: seq<DutMessage>)
    requires Visible(wire) <= trace
    ensures StepSeqs(wire) <= StepSeqs(trace) && FrameSeqs(wire) <= FrameSeqs(trace) && Replies(wire) <= Replies(trace)
    ensures Visible(wire) == trace ==>
              && StepSeqs(wire) == StepSeqs(trace) && FrameSeqs(wire) == FrameSeqs(trace)
              && Replies(wire) == Replies(trace)
  {
    VisibleProjects(wire);
    PrefixProjects(Visible(wire), trace);
  }

  lemma NumberedPrefix(numbers: seq<nat>, count: nat)
    requires numbers <= NumbersFrom(0, count)
    ensures |numbers| <= count && forall k :: 0 <= k < |numbers| ==> numbers[k] == (k + 1) % 0x1_0000_0000
    ensures numbers == NumbersFrom(0, count) ==> |numbers| == count
  {
    NumbersAt(0, count);
    forall k | 0 <= k < |numbers| ensures numbers[k] == (k + 1) % 0x1_0000_0000 {
      WrapIs(k + 1);
    }
  }

  /** What a run left on the wire: replies for the steps of the turns taken, in order, and after
      them the frames of each tick, numbered 1, 2, 3, ... in one sequence; all of it, unless the
      parent went away, and then the beginning of it. */
  lemma TraceGrammar(script: seq<Turn>, wire: seq<DutMessage>, halt: Option<Halt>)
    requires RanAs(script, wire, halt)
    ensures StepSeqs(wire) <= Collect(TakenTurns(script), TurnSteps)
    ensures Replies(wire) <= Collect(TakenTurns(script), TurnReplies)
    ensures |FrameSeqs(wire)| <= |Collect(TakenTurns(script), TickFrames)|
    ensures forall k :: 0 <= k < |FrameSeqs(wire)| ==> FrameSeqs(wire)[k] == (k + 1) % 0x1_0000_0000
    ensures halt != Some(ParentGone) ==>
              && StepSeqs(wire) == Collect(TakenTurns(script), TurnSteps)
              && Replies(wire) == Collect(TakenTurns(script), TurnReplies)
              && |FrameSeqs(wire)| == |Collect(TakenTurns(script), TickFrames)|
  {
    TakenAreBeats(script);
    TraceAnswers(TakenTurns(script));
    CountTicks(TakenTurns(script));
    TraceNumbers(Beats(TakenTurns(script)));
    WireProjects(wire, FullTrace(script));
    NumberedPrefix(FrameSeqs(wire), |Collect(TakenTurns(script), TickFrames)|);
  }

  /** Every record a run logged at or under the level is on the wire, counted in a drop report there,
      or still in the logger; those on the wire and in the queue keep the order they were logged in. */
  lemma RecordsAccounted(script: seq<Turn>, level: nat, ops: seq<LogQueue.LogOp>, accepted: seq<LogEntry>,
                         state: LogQueue.LogState, logs: seq<LogEntry>, halt: Option<Halt>)
    requires Tracks(ops, accepted, state, logs, halt) && LoggedAs(script, level, accepted, halt)
    requires halt != Some(ParentGone)
    ensures |RecordsOf(TakenTurns(script), level)|
            == |LogQueue.Records(logs)| + LogQueue.Reported(logs) + state.dropped + |state.queue|
    ensures Subsequence(LogQueue.Records(logs) + state.queue, RecordsOf(TakenTurns(script), level))
  {
    LogQueue.LedgerIs(ops);
    LogQueue.NothingLostSilently(ops);
    LogQueue.OrderKept(ops);
  }

  // ---------------------------------------------------------------------
  // The notice of leaving
  // ---------------------------------------------------------------------

  predicate IsNotice(m: DutMessage) {
    m.Exiting? || m.Ready? || m.RoiComplete?
  }

  /** In a beat only a notice of leaving is neither reply nor frame; it ends the beat, and the loop with it. */
  predicate WellSaid(b: Beat) {
    forall k :: 0 <= k < |b.answer| && IsNotice(b.answer[k]) ==>
      b.answer[k].Exiting? && k == |b.answer| - 1 && b.frames == [] && b.halt == Some(Exited)
  }

  predicate AllWellSaid(beats: seq<Beat>) {
    forall k :: 0 <= k < |beats| ==> WellSaid(beats[k])
  }

  lemma {:induction false} BeatsAreWellSaid(script: seq<Turn>)
    ensures AllWellSaid(Beats(script))
  {
    if script != [] {
      BeatsAreWellSaid(DropLast(script));
      assert WellSaid(BeatOf(Last(script)));
    }
  }

  lemma SaidNotice(b: Beat, sent: nat, k: nat)
    requires WellSaid(b) && k < |Said(b, sent)| && IsNotice(Said(b, sent)[k])
    ensures Said(b, sent)[k].Exiting? && k == |Said(b, sent)| - 1 && b.halt == Some(Exited)
  {
    UnsolicitedProjects(b.frames, sent);
  }

  /** The startup messages are never repeated, and a notice of leaving is the last message. */
  lemma {:induction false} NoticeIsLast(beats: seq<Beat>, k: nat)
    requires AllWellSaid(beats) && forall i :: 0 <= i < |beats| - 1 ==> beats[i].halt.None?
    requires 2 <= k < |Trace(beats)| && IsNotice(Trace(beats)[k])
    ensures k == |Trace(beats)| - 1 && Trace(beats)[k].Exiting? && EndOf(beats) == Some(Exited)
  {
    var before, beat := DropLast(beats), Last(beats);
    assert WellSaid(beats[|beats| - 1]);
    if k >= |Trace(before)| {
      SaidNotice(beat, FramesIn(before), k - |Trace(before)|);
    } else {
      NoticeIsLast(before, k);
    }
  }

  /** Whatever is written of the trace begins with the startup messages, and nothing follows a notice of leaving. */
  lemma NothingAfterExiting(script: seq<Turn>, written: seq<DutMessage>, k: nat)
    requires written <= FullTrace(script) && k < |written|
    ensures k < 2 ==> written[k] == [Ready, RoiComplete][k]
    ensures k >= 2 && IsNotice(written[k]) ==>
              && written[k].Exiting? && k == |written| - 1 && written == FullTrace(script)
              && EndOf(Taken(Beats(script))) == Some(Exited)
  {
    var beats := Taken(Beats(script));
    TraceGrows(beats, 0);
    assert written[k] == FullTrace(script)[k];
    if k >= 2 && IsNotice(written[k]) {
      BeatsAreWellSaid(script);
      assert forall i :: 0 <= i < |beats| ==> beats[i] == Beats(script)[i];
      forall i | 0 <= i < |beats| - 1 ensures beats[i].halt.None? {
        OnlyLastHalts(Beats(script), i);
      }
      NoticeIsLast(beats, k);
    } else if k < 2 {
      assert Trace([])[k] == [Ready, RoiComplete][k];
    }
  }

  /** The end of a wire on which `c` was the command that ended the process: its notice
      of leaving, right behind the reply if the command is an injected frame. */
  predicate EndsWith(written: seq<DutMessage>, c: PolledCommand) {
    match c
    case Inject(seqNo, out) =>
      && out.restart.Some? && |written| >= 2 && Last(written) == Exiting(out.restart.value)
      && written[|written| - 2] == StepComplete(seqNo, out.frames)
    case PowerCycle => written != [] && Last(written) == Exiting(PowerCycleExit)
    case MasterReset(code, applied) => applied && written != [] && Last(written) == Exiting(MasterResetExit(code))
    case _ => false
  }

  lemma ExitingBeat(t: Turn, sent: nat)
    requires BeatOf(t).halt == Some(Exited)
    ensures t.input.Received? && CommandHalt(t.input.cmd) == Some(Exited)
    ensures Said(BeatOf(t), sent) == CommandMessages(t.input.cmd)
  {
  }

  lemma ExitingCommandEnds(before: seq<DutMessage>, c: PolledCommand)
    requires CommandHalt(c) == Some(Exited)
    ensures EndsWith(before + CommandMessages(c), c)
  {
    if c.Inject? {
      assert CommandMessages(c) == [StepComplete(c.seqNo, c.out.frames), Exiting(c.out.restart.value)];
    } else {
      assert CommandMessages(c) == [Exiting(ReasonOf(c).value)];
    }
  }

  lemma TraceEnd(turns: seq<Turn>)
    requires EndOf(Beats(turns)) == Some(Exited)
    ensures turns != [] && Last(turns).input.Received? && EndsWith(Trace(Beats(turns)), Last(turns).input.cmd)
  {
    var before := Beats(DropLast(turns));
    TraceSnoc(before, BeatOf(Last(turns)));
    TraceGrows(before, 0);
    ExitingBeat(Last(turns), FramesIn(before));
    ExitingCommandEnds(Trace(before), Last(turns).input.cmd);
  }

  lemma NoticeMeansExited(script: seq<Turn>, wire: seq<DutMessage>, halt: Option<Halt>, k: nat)
    requires RanAs(script, wire, halt) && k < |Visible(wire)| && Visible(wire)[k].Exiting?
    ensures halt == Some(Exited)
  {
    NothingAfterExiting(script, Visible(wire), k);
  }

  lemma ExitedEndsWith(script: seq<Turn>, wire: seq<DutMessage>)
    requires RanAs(script, wire, Some(Exited))
    ensures TakenTurns(script) != [] && Last(TakenTurns(script)).input.Received?
    ensures EndsWith(Visible(wire), Last(TakenTurns(script)).input.cmd)
  {
    TakenAreBeats(script);
    TraceEnd(TakenTurns(script));
    assert [] + FullTrace(script) == FullTrace(script);
  }

  /** A turn the loop goes on from, and one that ends it in a given way. */
  predicate GoesOn(t: Turn) {
    Ticks(t) && !t.tick.frameError
  }

  predicate EndsLoop(t: Turn, halt: Halt) {
    match halt
    case ParentGone => false
    case Disconnected => t.input.EndOfFile?
    case ReadFailed => t.input.ReadError?
    case Exited =>
      (match t.input
       case Received(Inject(_, out)) => out.restart.Some? && !out.frameError
       case Received(PowerCycle) => true
       case Received(MasterReset(_, applied)) => applied
       case _ => false)
    case Panicked =>
      (match t.input
       case Nothing => t.tick.frameError
       case Received(Inject(_, out)) => out.frameError || (out.restart.None? && t.tick.frameError)
       case Received(TriggerRead(_, out)) => out.frameError || t.tick.frameError
       case Received(TriggerWrite(_, out)) => out.frameError || t.tick.frameError
       case Received(SetProgrammingMode(_)) => t.tick.frameError
       case Received(TriggerSync(_)) => t.tick.frameError
       case Received(MasterReset(_, applied)) => !applied
       case _ => false)
  }

  lemma BeatEnds(t: Turn)
    ensures BeatOf(t).halt.None? <==> GoesOn(t)
    ensures BeatOf(t).halt.Some? ==> EndsLoop(t, BeatOf(t).halt.value)
  {
  }

  lemma {:induction false} BeatsAt(script: seq<Turn>, k: nat)
    requires k < |script|
    ensures Beats(script)[k] == BeatOf(script[k])
  {
    if k < |script| - 1 {
      BeatsAt(DropLast(script), k);
    }
  }

  /** The turns taken are those up to the first that ends the loop, and that one says how it ends. */
  lemma LoopEnds(script: seq<Turn>, wire: seq<DutMessage>, halt: Option<Halt>)
    requires RanAs(script, wire, halt) && halt != Some(ParentGone)
    ensures forall k :: 0 <= k < |TakenTurns(script)| - 1 ==> GoesOn(script[k])
    ensures halt.Some? ==> TakenTurns(script) != [] && EndsLoop(Last(TakenTurns(script)), halt.value)
    ensures halt.None? ==> TakenTurns(script) == script && forall k :: 0 <= k < |script| ==> GoesOn(script[k])
  {
    var n := TakenCount(Beats(script));
    forall k: nat | k + 1 < n ensures GoesOn(script[k]) {
      OnlyLastHalts(Beats(script), k);
      BeatsAt(script, k);
      BeatEnds(script[k]);
    }
    if n > 0 {
      BeatsAt(script, n - 1);
      BeatEnds(script[n - 1]);
    }
    if halt.None? {
      NoneTakesAll(Beats(script));
    }
  }

  lemma {:induction false} NoneTakesAll(beats: seq<Beat>)
    requires EndOf(Taken(beats)).None?
    ensures TakenCount(beats) == |beats|
  {
    if beats != [] {
      assert Taken(beats)[0] == beats[0];
      assert Taken(beats)[1..] == Taken(beats[1..]);
      NoneTakesAll(beats[1..]);
    }
  }

  /** A run leaves by a command if and only if a notice of leaving is on the wire, and then the
      wire ends with the reason of the last command taken, right behind that command's reply. */
  lemma ExitedIffAnnounced(script: seq<Turn>, wire: seq<DutMessage>, halt: Option<Halt>)
    requires RanAs(script, wire, halt)
    ensures halt == Some(Exited) <==> exists k :: 0 <= k < |Visible(wire)| && Visible(wire)[k].Exiting?
    ensures halt == Some(Exited) ==>
              && TakenTurns(script) != [] && Last(TakenTurns(script)).input.Received?
              && EndsWith(Visible(wire), Last(TakenTurns(script)).input.cmd)
  {
    forall k | 0 <= k < |Visible(wire)| && Visible(wire)[k].Exiting? ensures halt == Some(Exited) {
      NoticeMeansExited(script, wire, halt, k);
    }
    if halt == Some(Exited) {
      ExitedEndsWith(script, wire);
      assert Visible(wire)[|Visible(wire)| - 1].Exiting?;
    }
  }
}
