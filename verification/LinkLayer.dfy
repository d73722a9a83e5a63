/**
 The link task as written (conformance/src/dut/link.rs): `process` and the
 methods it calls, over the fields and statics they share with the other tasks.
 At every await the other tasks get a turn. Each stretch of code between two
 awaits is shown to be a step of the state machine of module LinkProtocol, so
 everything proved of its reachable states holds of this code's wire.
 */
module LinkLayer {
  import opened Wrappers
  import opened IpcTypes
  import opened LinkProtocol
  import LinkBarrier
  import LinkConservation
  import LinkFailures
  import LogQueue

  /** What happens during one await: what the other tasks do, whether a write that
      ends it succeeds, and whether a timer that is running fires. */
  datatype Moment = Moment(actions: seq<Action>, writeOk: bool, timerFires: bool)

  const QUIET := Moment([], true, true)

  /** Progress of the exit handler, as far as the program itself knows it. */
  datatype HandlerTask = Asleep | Announcing | Freed | GaveUp

  function TaskOf(h: Handler): HandlerTask {
    match h
    case Dormant => Asleep
    case Waiting(_, _) => Announcing
    case Released(_, _) => Freed
    case TimedOut(_, _) => GaveUp
  }

  function Notice(exit: Option<ExitReason>): seq<DutMessage> {
    if exit.Some? then [Exiting(exit.value)] else []
  }

  /** Nothing but unsolicited frames came in between. */
  predicate Streamed(before: seq<DutMessage>, after: seq<DutMessage>) {
    before <= after && forall k :: |before| <= k < |after| ==> after[k].UnsolicitedFrame?
  }

  lemma StreamedThen(before: seq<DutMessage>, mid: seq<DutMessage>, last: DutMessage)
    requires Streamed(before, mid)
    ensures Last(mid + [last]) == last && Streamed(before, DropLast(mid + [last]))
  {
    assert DropLast(mid + [last]) == mid;
  }

  /** What the main loop's `select` yields: a command, the end of the socket, or whatever the outbox holds. */
  datatype Input = Incoming(cmd: Command) | SocketEnded | Passing

  /** The parts of the state that only the link task moves; the outbox can only grow. */
  predicate LinkUnmoved(s: State, t: State) {
    && t.at == s.at && t.send == s.send && t.alive == s.alive && t.unsolicitedSeq == s.unsolicitedSeq
    && t.wire == s.wire && t.confirmed == s.confirmed && t.received == s.received && t.writeFailed == s.writeFailed
    && s.outbox <= t.outbox && ExitKept(s, t)
  }

  /** A marked exit stays marked: no other task takes it, and no second one replaces it. */
  predicate ExitKept(s: State, t: State) {
    s.pendingExit.Some? ==> t.pendingExit == s.pendingExit
  }

  /** Only these records were written. */
  predicate Recorded(before: seq<DutMessage>, after: seq<DutMessage>, records: seq<LogEntry>) {
    Visible(after) == Visible(before) && Logs(after) == Logs(before) + records
  }

  lemma RecordedSnoc(before: seq<DutMessage>, after: seq<DutMessage>, records: seq<LogEntry>, k: nat)
    requires k < |records| && Recorded(before, after, records[..k])
    ensures Recorded(before, after + [Log(records[k])], records[..k + 1])
  {
    WireSnoc(after, Log(records[k]));
  }

  lemma RecordedThenSent(before: seq<DutMessage>, after: seq<DutMessage>, records: seq<LogEntry>, msg: DutMessage)
    requires Recorded(before, after, records) && !msg.Log?
    ensures Visible(after + [msg]) == Visible(before) + [msg] && Logs(after + [msg]) == Logs(before) + records
  {
    WireSnoc(after, msg);
  }

  lemma DormantIsUnmarked(s: State)
    requires Reachable(s) && s.handler.Dormant?
    ensures s.pendingExit.None?
  {
    LinkBarrier.ReachableBarrier(s);
  }

  lemma QueuedIsProtocol(s: State)
    requires Reachable(s) && s.send.Queued?
    ensures !s.send.msg.Log?
  {
    LinkConservation.ReachableInv(s);
  }

  class IpcLinkLayer {
    // the link task
    var unsolicitedSeq: nat
    var running: bool
    // shared with the stack, the bridge, the logger and the exit handler
    var outbox: seq<Request>
    var confirmed: seq<Confirmation>
    var pendingExit: Option<ExitReason>
    var stepSettled: bool
    var roiDone: bool
    var handler: HandlerTask
    const logger: LogQueue.IpcLogger
    // the socket, and what is still to happen elsewhere
    var wire: seq<DutMessage>
    var moments: seq<Moment>
    ghost var model: State

    /** The fields show the reachable state `model`, but for the confirmations, which it has at `sent`. */
    ghost predicate Shows(sent: seq<Confirmation>)
      reads this, logger
    {
      && Reachable(model)
      && model.unsolicitedSeq == unsolicitedSeq && model.alive == running && model.outbox == outbox
      && model.confirmed == sent && model.pendingExit == pendingExit && model.stepSettled == stepSettled
      && model.roiDone == roiDone && TaskOf(model.handler) == handler && model.log == logger.State()
      && model.wire == wire
    }

    ghost predicate Valid()
      reads this, logger
    {
      Shows(confirmed)
    }

    /** Either time has passed for the other tasks, or nothing is left for them to do and they did nothing. */
    twostate predicate TimePassed()
      reads this
    {
      |moments| < |old(moments)| || (moments == old(moments) && outbox == old(outbox))
    }

    /** Unless a write failed, these are the protocol messages written meanwhile. */
    twostate predicate Sends(msgs: seq<DutMessage>)
      reads this
    {
      && (old(model.writeFailed) ==> model.writeFailed)
      && (!model.writeFailed ==> Visible(wire) == old(Visible(wire)) + msgs)
    }

    /** Nothing was written, or tried to be. */
    twostate predicate Silent()
      reads this
    {
      wire == old(wire) && model.writeFailed == old(model.writeFailed)
    }

    /** Unless a write failed, only unsolicited frames were written meanwhile. */
    twostate predicate Streams()
      reads this
    {
      && (old(model.writeFailed) ==> model.writeFailed)
      && (!model.writeFailed ==> Streamed(old(Visible(wire)), Visible(wire)))
    }

    constructor (level: nat, moments: seq<Moment>)
      ensures Valid() && fresh(logger) && model == INIT && this.moments == moments
    {
      unsolicitedSeq, running, outbox, confirmed := 0, true, [], [];
      pendingExit, stepSettled, roiDone, handler := None, false, false, Asleep;
      logger := new LogQueue.IpcLogger(level);
      wire, this.moments, model := [], moments, INIT;
      new;
      assert Leads(INIT, [], INIT);
    }

    ghost method Advance(a: Action)
      requires Reachable(model) && Step(model, a).Some?
      modifies this`model
      ensures Reachable(model) && Step(old(model), a) == Some(model)
    {
      model := LinkBarrier.Taken(model, a);
    }

    // Steps of the model, one by one.

    ghost method StepReady()
      requires Reachable(model) && model.alive && model.send.NotSending? && model.at.Boot?
      modifies this`model
      ensures Reachable(model) && model == Begin(old(model), Ready, RoiLoop)
    {
      Advance(SendReady);
    }

    ghost method StepStartWrite()
      requires Reachable(model) && model.alive && model.send.Queued?
      modifies this`model
      ensures Reachable(model) && model == StartWriting(old(model))
    {
      Advance(StartWrite);
    }

    ghost method StepWritten()
      requires Reachable(model) && model.alive && model.send.Writing?
      modifies this`model
      ensures Reachable(model) && model == WrittenOne(old(model))
    {
      Advance(WriteOk);
    }

    ghost method StepWriteFailed()
      requires Reachable(model) && model.alive && model.send.Writing?
      modifies this`model
      ensures Reachable(model) && model == WriteAbandoned(old(model))
    {
      Advance(WriteFail);
    }

    ghost method StepReceive(origin: Origin)
      requires Reachable(model) && model.alive && model.send.NotSending?
      requires model.outbox != [] && model.at == Resume(origin)
      modifies this`model
      ensures Reachable(model) && model == Dequeue(old(model), Unsolicited(origin))
    {
      Advance(ReceiveRequest);
    }

    ghost method StepConfirm()
      requires Reachable(model) && model.alive && model.send.NotSending? && model.at.Confirming?
      modifies this`model
      ensures Reachable(model) && model == Confirmed(old(model))
    {
      Advance(ConfirmSent);
    }

    ghost method StepRoiOver(signalled: bool)
      requires Reachable(model) && model.alive && model.send.NotSending?
      requires model.at.RoiLoop? && model.roiDone == signalled
      modifies this`model
      ensures Reachable(model) && model == old(model).(roiDone := false, at := RoiDrain)
    {
      if signalled {
        Advance(RoiSettled);
      } else {
        Advance(RoiTimeout);
      }
    }

    ghost method StepRoiComplete()
      requires Reachable(model) && model.alive && model.send.NotSending? && model.at.RoiDrain? && model.outbox == []
      modifies this`model
      ensures Reachable(model) && model == Begin(old(model), RoiComplete, Idle)
    {
      Advance(RoiDrainEnd);
    }

    ghost method StepDispatch(cmd: Command)
      requires Reachable(model) && model.alive && model.send.NotSending? && model.at.Idle?
      modifies this`model
      ensures Reachable(model) && model == Dispatch(old(model), cmd)
    {
      Advance(ReceiveCommand(cmd));
    }

    ghost method StepHanded()
      requires Reachable(model) && model.alive && model.send.NotSending? && model.at.Handing?
      modifies this`model
      ensures Reachable(model) && model == old(model).(at := AfterHanding(old(model).at.cmd))
    {
      Advance(Handed);
    }

    ghost method StepPoll()
      requires Reachable(model) && model.alive && model.send.NotSending? && model.at.Draining?
      modifies this`model
      ensures Reachable(model) && model == PollOutbox(old(model))
    {
      Advance(DrainPoll);
    }

    ghost method StepTakeExit()
      requires Reachable(model) && model.alive && model.send.NotSending?
      requires model.at.Taking? || (model.at.FlushWaiting? && model.pendingExit.Some?)
      modifies this`model
      ensures Reachable(model) && model == TakePendingExit(old(model))
    {
      if model.at.Taking? {
        Advance(TakeExit);
      } else {
        Advance(FlushReason);
      }
    }

    ghost method StepGiveUpWaiting()
      requires Reachable(model) && model.alive && model.send.NotSending?
      requires model.at.FlushWaiting? && model.pendingExit.None?
      modifies this`model
      ensures Reachable(model) && model == old(model).(at := Settling)
    {
      Advance(FlushTimeout);
    }

    ghost method StepSettle()
      requires Reachable(model) && model.alive && model.send.NotSending? && model.at.Settling?
      modifies this`model
      ensures Reachable(model) && model == old(model).(stepSettled := true, at := Idle)
    {
      Advance(Settle);
    }

    ghost method StepDisconnect()
      requires Reachable(model) && model.alive && model.send.NotSending? && model.at.Idle?
      modifies this`model
      ensures Reachable(model) && model == old(model).(alive := false)
    {
      Advance(Disconnected);
    }

    ghost method StepOther(a: Action)
      requires Reachable(model) && model.alive && IsEnvAction(a) && EnvStep(model, a).Some?
      modifies this`model
      ensures Reachable(model) && EnvStep(old(model), a) == Some(model)
    {
      Advance(a);
    }

    // -------------------------------------------------------------------
    // The other tasks
    // -------------------------------------------------------------------

    method EnqueueRequest(req: Request)
      requires Valid() && running
      modifies this
      ensures Valid() && LinkUnmoved(old(model), model) && moments == old(moments)
    {
      StepOther(Enqueue(req));
      outbox := outbox + [req];
    }

    method LogMessage(level: nat, target: string, message: string)
      requires Valid() && running
      modifies this, logger
      ensures Valid() && LinkUnmoved(old(model), model) && moments == old(moments)
    {
      if level <= logger.level {
        StepOther(LogRecord(level, target, message));
      }
      logger.Log(level, target, message);
    }

    method MarkExit(reason: ExitReason)
      requires Valid() && running && handler == Asleep
      modifies this
      ensures Valid() && LinkUnmoved(old(model), model) && moments == old(moments)
    {
      DormantIsUnmarked(model);
      StepOther(MarkPendingExit(reason));
      handler, pendingExit := Announcing, Some(reason);
    }

    /** The handler is woken by the signal of the barrier, or its timer fires. */
    method EndWait()
      requires Valid() && running && handler == Announcing
      modifies this
      ensures Valid() && LinkUnmoved(old(model), model) && moments == old(moments)
    {
      if stepSettled {
        StepOther(HandlerWake);
        handler, stepSettled := Freed, false;
      } else {
        StepOther(HandlerTimeout);
        handler := GaveUp;
      }
    }

    /** One action of another task; the process ending is where a run stops, not a step of it. */
    method Other(a: Action)
      requires Valid() && running
      modifies this, logger
      ensures Valid() && LinkUnmoved(old(model), model) && moments == old(moments)
    {
      match a {
        case Enqueue(req) => EnqueueRequest(req);
        case LogRecord(level, target, message) => LogMessage(level, target, message);
        case SignalRoiDone =>
          StepOther(a);
          roiDone := true;
        case MarkPendingExit(reason) =>
          if handler == Asleep {
            MarkExit(reason);
          }
        case HandlerWake | HandlerTimeout =>
          if handler == Announcing && stepSettled == a.HandlerWake? {
            EndWait();
          }
        case _ =>
      }
    }

    /** An await: the other tasks run until this one is polled again. */
    method Await() returns (m: Moment)
      requires Valid() && running
      modifies this, logger
      ensures Valid() && LinkUnmoved(old(model), model) && TimePassed()
      ensures if old(moments) == [] then m == QUIET else |moments| < |old(moments)|
    {
      if moments == [] {
        return QUIET;
      }
      m := moments[0];
      moments := moments[1..];
      for k := 0 to |m.actions|
        invariant Valid() && LinkUnmoved(old(model), model) && |moments| < |old(moments)|
      {
        Other(m.actions[k]);
      }
    }

    // -------------------------------------------------------------------
    // Sending
    // -------------------------------------------------------------------

    /** Write one queued record of a send that has begun. */
    method WriteRecord(record: LogEntry, msg: DutMessage) returns (ok: bool)
      requires Valid() && running && model.send.Writing? && model.send.msg == msg
      requires model.send.records != [] && model.send.records[0] == record
      modifies this, logger
      ensures Valid() && model.at == old(model.at) && model.received == old(model.received) && TimePassed()
      ensures model.send == if ok then Writing(old(model.send.records)[1..], msg) else NotSending
      ensures wire == if ok then old(wire) + [Log(record)] else old(wire)
      ensures running == (ok || !msg.Ready?) && model.writeFailed == (old(model.writeFailed) || !ok)
      ensures ExitKept(old(model), model)
    {
      var m := Await();
      ok := m.writeOk;
      if ok {
        StepWritten();
        wire := wire + [Log(record)];
      } else {
        StepWriteFailed();
        running := !msg.Ready?;
      }
    }

    /** Write the message of a send whose records are all written. */
    method WriteMessage(msg: DutMessage) returns (ok: bool)
      requires Valid() && running && model.send == Writing([], msg)
      modifies this, logger
      ensures Valid() && model.at == old(model.at) && model.received == old(model.received) && TimePassed()
      ensures model.send == NotSending && wire == if ok then old(wire) + [msg] else old(wire)
      ensures running == (ok || !msg.Ready?) && model.writeFailed == (old(model.writeFailed) || !ok)
      ensures ExitKept(old(model), model)
    {
      var m := Await();
      ok := m.writeOk;
      if ok {
        StepWritten();
        wire := wire + [msg];
      } else {
        StepWriteFailed();
        running := !msg.Ready?;
      }
    }

    method WriteRecords(records: seq<LogEntry>, msg: DutMessage) returns (ok: bool)
      requires Valid() && running && model.send == Writing(records, msg)
      modifies this, logger
      ensures Valid() && model.at == old(model.at) && model.received == old(model.received) && TimePassed()
      ensures model.send == if ok then Writing([], msg) else NotSending
      ensures Visible(wire) == old(Visible(wire)) && (ok ==> Recorded(old(wire), wire, records))
      ensures running == (ok || !msg.Ready?) && model.writeFailed == (old(model.writeFailed) || !ok)
      ensures ExitKept(old(model), model)
    {
      ok := true;
      for k := 0 to |records|
        invariant Valid() && ok && running && model.send == Writing(records[k..], msg)
        invariant model.at == old(model.at) && model.received == old(model.received) && TimePassed()
        invariant model.writeFailed == old(model.writeFailed) && ExitKept(old(model), model)
        invariant Recorded(old(wire), wire, records[..k])
      {
        RecordedSnoc(old(wire), wire, records, k);
        ok := WriteRecord(records[k], msg);
        if !ok {
          return;
        }
      }
      assert records[..|records|] == records;
    }

    /** `send_msg`: every record queued so far, then the message. */
    method SendMsg(msg: DutMessage) returns (ok: bool)
      requires Valid() && running && model.send == Queued(msg)
      modifies this, logger
      ensures Valid() && model.at == old(model.at) && model.received == old(model.received) && TimePassed()
      ensures model.send == NotSending
      ensures Visible(wire) == if ok then old(Visible(wire)) + [msg] else old(Visible(wire))
      ensures ok ==> Logs(wire) == old(Logs(wire)) + LogQueue.Drained(old(logger.State())) && Last(wire) == msg
      ensures running == (ok || !msg.Ready?) && model.writeFailed == (old(model.writeFailed) || !ok)
      ensures ExitKept(old(model), model)
    {
      QueuedIsProtocol(model);
      StepStartWrite();
      var records := logger.DrainLogs();
      ok := WriteRecords(records, msg);
      if ok {
        RecordedThenSent(old(wire), wire, records, msg);
        ok := WriteMessage(msg);
      }
    }

    // -------------------------------------------------------------------
    // Capturing
    // -------------------------------------------------------------------

    /** `capture_and_confirm`: confirm the request to the stack and return its frame. What the
        caller does before its next await belongs to the same step of the model. */
    method CaptureAndConfirm(req: Request) returns (frame: CapturedFrame)
      requires Valid() && running && model.at.Confirming? && model.at.req == req && model.send.NotSending?
      modifies this, logger
      ensures Shows(old(confirmed)) && frame == req.frame && |confirmed| == |old(confirmed)| + 1
      ensures confirmed == old(confirmed) + [Last(confirmed)]
      ensures Last(confirmed).frame == req.frame && Last(confirmed).positive == req.isDataReq
      ensures LinkUnmoved(old(model), model) && TimePassed()
    {
      var m := Await();
      confirmed := confirmed + [Confirmation(req.frame, req.isDataReq)];
      return req.frame;
    }

    /** The outbox lost its oldest request, or time passed for the others. */
    twostate predicate OutboxPolled()
      reads this
    {
      |moments| < |old(moments)| || (moments == old(moments) && old(outbox) != [] && outbox == old(outbox)[1..])
    }

    method TakeRequest(ghost origin: Origin) returns (req: Request)
      requires Valid() && running && outbox != [] && model.send.NotSending? && model.at == Resume(origin)
      modifies this, logger
      ensures Valid() && running && model.send.NotSending? && model.at == Confirming(req, Unsolicited(origin))
      ensures model.received == old(model.received) && moments == old(moments) && outbox == old(outbox)[1..]
      ensures Silent() && unsolicitedSeq == old(unsolicitedSeq) && req == old(outbox)[0]
    {
      req := outbox[0];
      StepReceive(origin);
      outbox := outbox[1..];
    }

    /** Capture a request taken outside any step and send it on under the next number. */
    method PassOn(req: Request, ghost origin: Origin)
      requires Valid() && running && model.send.NotSending? && model.at == Confirming(req, Unsolicited(origin))
      modifies this, logger
      ensures Valid() && running && model.send.NotSending? && model.at == Resume(origin)
      ensures model.received == old(model.received) && TimePassed()
      ensures Sends([UnsolicitedFrame(old(unsolicitedSeq), req.frame)])
    {
      var frame := CaptureAndConfirm(req);
      var frameSeq := unsolicitedSeq;
      unsolicitedSeq := (unsolicitedSeq + 1) % U32;
      StepConfirm();
      var ok := SendMsg(UnsolicitedFrame(frameSeq, frame));
    }

    method ForwardUnsolicited(ghost origin: Origin)
      requires Valid() && running && outbox != [] && model.send.NotSending? && model.at == Resume(origin)
      modifies this, logger
      ensures Valid() && running && model.send.NotSending? && model.at == Resume(origin)
      ensures model.received == old(model.received) && OutboxPolled()
      ensures Sends([UnsolicitedFrame(old(unsolicitedSeq), old(outbox)[0].frame)]) && Streams()
    {
      var req := TakeRequest(origin);
      PassOn(req, origin);
    }

    // -------------------------------------------------------------------
    // Startup
    // -------------------------------------------------------------------

    /** One turn of the startup loop: forward a frame, or see that the scan is over. */
    method RoiTurn() returns (over: bool)
      requires Valid() && running && model.send.NotSending? && model.at == RoiLoop
      modifies this, logger
      ensures Valid() && running && model.send.NotSending? && model.received == old(model.received) && Streams()
      ensures model.at == if over then RoiDrain else RoiLoop
      ensures !over ==> |moments| < |old(moments)| || (moments == old(moments) && |outbox| < |old(outbox)|)
    {
      var m := Await();
      over := outbox == [] && (roiDone || m.timerFires);
      if outbox != [] {
        ForwardUnsolicited(FromRoiLoop);
      } else if over {
        StepRoiOver(roiDone);
        roiDone := false;
      }
    }

    /** Forward frames until the stack signals that its startup scan is over, or the timer does. */
    method PumpRoi()
      requires Valid() && running && model.send.NotSending? && model.at == RoiLoop
      modifies this, logger
      ensures Valid() && running && model.send.NotSending? && model.at == RoiDrain
      ensures model.received == old(model.received) && Streams()
    {
      var over := false;
      while !over
        invariant Valid() && running && model.send.NotSending? && model.at == if over then RoiDrain else RoiLoop
        invariant model.received == old(model.received) && Streams()
        decreases !over, |moments|, |outbox|
      {
        over := RoiTurn();
      }
    }

    /** Forward what the scan has left in the outbox. */
    method ForwardRest()
      requires Valid() && running && model.send.NotSending? && model.at == RoiDrain
      modifies this, logger
      ensures Valid() && running && model.send.NotSending? && model.at == RoiDrain && outbox == []
      ensures model.received == old(model.received) && Streams()
    {
      while outbox != []
        invariant Valid() && running && model.send.NotSending? && model.at == RoiDrain
        invariant model.received == old(model.received) && Streams()
        decreases |moments|, |outbox|
      {
        ForwardUnsolicited(FromRoiDrain);
      }
    }

    /** Forward every startup frame until the scan is over and the outbox is empty; then announce it. */
    method DrainRoiAndAnnounce()
      requires Valid() && running && model.send.NotSending? && model.at == RoiLoop
      modifies this, logger
      ensures Valid() && running && model.send.NotSending? && model.at == Idle
      ensures model.received == old(model.received)
      ensures !model.writeFailed ==>
                Visible(wire) != [] && Last(Visible(wire)) == RoiComplete
                && Streamed(old(Visible(wire)), DropLast(Visible(wire)))
    {
      PumpRoi();
      ForwardRest();
      StepRoiComplete();
      ghost var mid := Visible(wire);
      var ok := SendMsg(RoiComplete);
      if !model.writeFailed {
        StreamedThen(old(Visible(wire)), mid, RoiComplete);
      }
    }

    // -------------------------------------------------------------------
    // Steps
    // -------------------------------------------------------------------

    /** Poll the outbox for the current step and find a request. */
    method PollRequest(ghost seqNo: nat, frames: seq<CapturedFrame>, ghost quiet: nat, ghost iters: nat)
      returns (req: Request)
      requires Valid() && running && model.send.NotSending? && outbox != []
      requires model.at == Draining(seqNo, frames, quiet, iters)
      modifies this`outbox, this`model
      ensures Valid() && model.send.NotSending? && model.at == Confirming(req, InStep(seqNo, frames, iters))
      ensures model.received == old(model.received) && Silent()
    {
      req := outbox[0];
      StepPoll();
      outbox := outbox[1..];
    }

    /** Poll it and find nothing: the step is over once an exit is marked, or by the number of polls. */
    method PollNothing(ghost seqNo: nat, frames: seq<CapturedFrame>, quiet: nat, iters: nat) returns (over: bool)
      requires Valid() && running && model.send.NotSending? && outbox == []
      requires model.at == Draining(seqNo, frames, quiet, iters)
      modifies this`model
      ensures Valid() && model.received == old(model.received) && Silent()
      ensures over == (pendingExit.Some? || quiet + 1 >= YIELDS_PER_POLL || iters + 1 >= MAX_DRAIN_ITERS)
      ensures if over then model.at == Taking(seqNo) && model.send == Queued(StepComplete(seqNo, frames))
              else model.at == Draining(seqNo, frames, quiet + 1, iters + 1) && model.send == NotSending
    {
      StepPoll();
      over := pendingExit.Some? || quiet + 1 >= YIELDS_PER_POLL || iters + 1 >= MAX_DRAIN_ITERS;
    }

    /** Confirm a request of the current step and keep its frame, if there is room. */
    method CaptureForStep(ghost seqNo: nat, frames: seq<CapturedFrame>, req: Request, ghost iters: nat)
      returns (pushed: seq<CapturedFrame>)
      requires Valid() && running && model.send.NotSending?
      requires model.at == Confirming(req, InStep(seqNo, frames, iters))
      modifies this, logger
      ensures Valid() && running && model.received == old(model.received) && Silent()
      ensures pushed == PushFrame(frames, req.frame)
      ensures if iters + 1 >= MAX_DRAIN_ITERS
              then model.at == Taking(seqNo) && model.send == Queued(StepComplete(seqNo, pushed))
              else model.at == Draining(seqNo, pushed, 0, iters + 1) && model.send == NotSending
    {
      var frame := CaptureAndConfirm(req);
      // Pushing onto a full vector fails and the frame is dropped.
      pushed := if |frames| < MAX_STEP_FRAMES then frames + [frame] else frames;
      StepConfirm();
    }

    /** One turn of the drain loop that found a request. */
    method DrainOne(ghost seqNo: nat, frames: seq<CapturedFrame>, ghost quiet: nat, iters: nat)
      returns (pushed: seq<CapturedFrame>, capped: bool)
      requires Valid() && running && model.send.NotSending? && outbox != []
      requires model.at == Draining(seqNo, frames, quiet, iters)
      modifies this, logger
      ensures Valid() && running && model.received == old(model.received) && Silent()
      ensures |pushed| <= MAX_STEP_FRAMES || |frames| > MAX_STEP_FRAMES
      ensures capped == (iters + 1 >= MAX_DRAIN_ITERS)
      ensures if capped then model.at == Taking(seqNo) && model.send == Queued(StepComplete(seqNo, pushed))
              else model.at == Draining(seqNo, pushed, 0, iters + 1) && model.send == NotSending
    {
      var req := PollRequest(seqNo, frames, quiet, iters);
      pushed := CaptureForStep(seqNo, frames, req, iters);
      capped := iters + 1 >= MAX_DRAIN_ITERS;
    }

    /** `drain_step`: collect the frames of the current step until the outbox stays quiet, in so many polls of it. */
    method DrainStep(ghost seqNo: nat) returns (frames: seq<CapturedFrame>, ghost polls: nat)
      requires Valid() && running && model.send.NotSending? && model.at == Draining(seqNo, [], 0, 0)
      modifies this, logger
      ensures Valid() && running && model.received == old(model.received) && |frames| <= 16
      ensures model.at == Taking(seqNo) && model.send == Queued(StepComplete(seqNo, frames))
      ensures Silent() && polls <= 128
    {
      frames, polls := [], 0;
      var quiet, iters := 0, 0;
      while true
        invariant Valid() && running && model.received == old(model.received) && |frames| <= MAX_STEP_FRAMES
        invariant model.send.NotSending? && model.at == Draining(seqNo, frames, quiet, iters)
        invariant Silent() && polls == iters < MAX_DRAIN_ITERS
        decreases MAX_DRAIN_ITERS - iters
      {
        var m := Await();
        polls := polls + 1;
        if outbox != [] {
          var capped;
          frames, capped := DrainOne(seqNo, frames, quiet, iters);
          quiet := 0;
          if capped {
            return;
          }
        } else {
          var over := PollNothing(seqNo, frames, quiet, iters);
          if over {
            return;
          }
          quiet := quiet + 1;
        }
        iters := iters + 1;
      }
    }

    /** Write the notice of a marked exit, if there is one. */
    method AnnounceExit()
      requires Valid() && running && model.send.NotSending?
      requires model.at.Taking? || (model.at.FlushWaiting? && pendingExit.Some?)
      modifies this, logger
      ensures Valid() && running && model.send.NotSending? && model.at == Settling
      ensures model.received == old(model.received) && Sends(Notice(old(pendingExit)))
    {
      StepTakeExit();
      var reason := pendingExit;
      pendingExit := None;
      if reason.Some? {
        var ok := SendMsg(Exiting(reason.value));
      }
    }

    /** Announce a marked exit and release the barrier. */
    method TakeExitAndSettle()
      requires Valid() && running && model.send.NotSending?
      requires model.at.Taking? || (model.at.FlushWaiting? && pendingExit.Some?)
      modifies this, logger
      ensures Valid() && running && model.send.NotSending? && model.at == Idle && stepSettled
      ensures model.received == old(model.received) && Sends(Notice(old(pendingExit)))
    {
      AnnounceExit();
      StepSettle();
      stepSettled := true;
    }

    /** Send the reply, then the notice of whatever exit is marked by then, and release the barrier. */
    method EmitStepComplete(seqNo: nat, frames: seq<CapturedFrame>) returns (ghost exit: Option<ExitReason>)
      requires Valid() && running && model.at == Taking(seqNo) && model.send == Queued(StepComplete(seqNo, frames))
      modifies this, logger
      ensures Valid() && running && model.send.NotSending? && model.at == Idle && stepSettled
      ensures model.received == old(model.received) && Sends([StepComplete(seqNo, frames)] + Notice(exit))
      ensures old(pendingExit).Some? ==> exit == old(pendingExit)
    {
      var ok := SendMsg(StepComplete(seqNo, frames));
      exit := pendingExit;
      TakeExitAndSettle();
    }

    /** Wait for an exit reason, but not past the timer. */
    method AwaitExit()
      requires Valid() && running && model.send.NotSending? && model.at == FlushWaiting
      modifies this, logger
      ensures Valid() && running && model.send.NotSending? && model.at == FlushWaiting
      ensures model.received == old(model.received) && Silent() && ExitKept(old(model), model)
    {
      var m := Await();
      while pendingExit.None? && !m.timerFires && moments != []
        invariant Valid() && running && model.send.NotSending? && model.at == FlushWaiting
        invariant model.received == old(model.received) && Silent() && ExitKept(old(model), model)
        decreases |moments|
      {
        m := Await();
      }
    }

    /** `flush_lifecycle_exit`: announce the exit reason, if one comes in time, and release the barrier. */
    method FlushLifecycleExit() returns (ghost exit: Option<ExitReason>)
      requires Valid() && running && model.send.NotSending? && model.at == FlushWaiting
      modifies this, logger
      ensures Valid() && running && model.send.NotSending? && model.at == Idle && stepSettled
      ensures model.received == old(model.received) && Sends(Notice(exit))
      ensures old(pendingExit).Some? ==> exit == old(pendingExit)
    {
      AwaitExit();
      exit := pendingExit;
      if pendingExit.None? {
        StepGiveUpWaiting();
        StepSettle();
        stepSettled := true;
        return;
      }
      TakeExitAndSettle();
    }

    /** Reset the barrier, and send the indication, or the command for the device, on its channel. */
    method HandOn(cmd: Command)
      requires Valid() && running && model.send.NotSending? && model.at == Idle
      modifies this, logger
      ensures Valid() && running && model.send.NotSending? && model.at == AfterHanding(cmd)
      ensures model.received == old(model.received) + [cmd] && Silent()
    {
      StepDispatch(cmd);
      pendingExit, stepSettled := None, false;
      if !(cmd.Inject? && !cmd.accepted) {
        var m := Await();
        StepHanded();
      }
    }

    method AnswerStep(seqNo: nat) returns (ghost reply: seq<CapturedFrame>, ghost exit: Option<ExitReason>)
      requires Valid() && running && model.send.NotSending? && model.at == Draining(seqNo, [], 0, 0)
      modifies this, logger
      ensures Valid() && running && model.send.NotSending? && model.at == Idle && stepSettled
      ensures model.received == old(model.received) && |reply| <= 16
      ensures Sends([StepComplete(seqNo, reply)] + Notice(exit))
    {
      var frames, polls := DrainStep(seqNo);
      reply := frames;
      exit := EmitStepComplete(seqNo, frames);
    }

    /** Hand the command on and answer it: a step with its frames, then whatever exit was marked. */
    method DispatchCommand(cmd: Command)
      returns (ghost reply: seq<CapturedFrame>, ghost exit: Option<ExitReason>)
      requires Valid() && running && model.send.NotSending? && model.at == Idle
      modifies this, logger
      ensures Valid() && running && model.send.NotSending? && model.at == Idle && stepSettled
      ensures model.received == old(model.received) + [cmd] && |reply| <= 16
      ensures Sends(if cmd.Inject? || cmd.Forward? then [StepComplete(cmd.seqNo, reply)] + Notice(exit)
                    else Notice(exit))
    {
      HandOn(cmd);
      reply := [];
      if IsStep(cmd) {
        reply, exit := AnswerStep(cmd.seqNo);
      } else {
        exit := FlushLifecycleExit();
      }
    }

    // -------------------------------------------------------------------
    // The task
    // -------------------------------------------------------------------

    /** The commands among some inputs. */
    static function Commands(inputs: seq<Input>): seq<Command> {
      if inputs == [] then [] else Commands(DropLast(inputs)) + CommandIn(Last(inputs))
    }

    static function CommandIn(input: Input): seq<Command> {
      if input.Incoming? then [input.cmd] else []
    }

    /** Announce the process, then stream its startup frames. */
    method Startup()
      requires Valid() && model == INIT
      modifies this, logger
      ensures Valid() && model.send.NotSending? && model.received == []
      ensures running ==> model.at == Idle
    {
      StepReady();
      var ok := SendMsg(Ready);
      if ok {
        DrainRoiAndAnnounce();
      }
    }

    /** One turn of the main loop. */
    method HandleInput(input: Input)
      requires Valid() && running && model.send.NotSending? && model.at == Idle
      modifies this, logger
      ensures Valid() && model.send.NotSending? && model.at == Idle && running == !input.SocketEnded?
      ensures model.received == old(model.received) + CommandIn(input)
    {
      var m := Await();
      match input {
        case Incoming(cmd) => var reply, exit := DispatchCommand(cmd);
        case SocketEnded =>
          StepDisconnect();
          running := false;
        case Passing =>
          if outbox != [] {
            ForwardUnsolicited(FromIdle);
          }
      }
    }

    method MainLoop(inputs: seq<Input>)
      requires Valid() && running && model.send.NotSending? && model.at == Idle && model.received == []
      modifies this, logger
      ensures Valid() && model.send.NotSending? && model.at == Idle
      ensures running ==> model.received == Commands(inputs)
    {
      for k := 0 to |inputs|
        invariant Valid() && running && model.send.NotSending? && model.at == Idle
        invariant model.received == Commands(inputs[..k])
      {
        HandleInput(inputs[k]);
        if inputs[k].SocketEnded? {
          return;
        }
        CommandsSnoc(inputs, k);
      }
      assert inputs[..|inputs|] == inputs;
    }

    /** What a reader of the socket may rely on whenever the link waits for input. */
    ghost predicate Faithful(commands: seq<Command>)
      reads this
    {
      && |confirmed| + |outbox| == |model.enqueued|
      && (forall i :: 0 <= i < |confirmed| ==>
            confirmed[i].frame == model.enqueued[i].frame && confirmed[i].positive == model.enqueued[i].isDataReq)
      && Subsequence(StepSeqs(wire), CommandSeqs(commands))
      && Subsequence(Replies(wire), LinkConservation.ReportAll(model.batches))
      && (!model.writeFailed ==>
            && StepSeqs(wire) == CommandSeqs(commands)
            && (forall k :: 0 <= k < |FrameSeqs(wire)| ==> FrameSeqs(wire)[k] == k % 0x1_0000_0000)
            && Replies(wire) == LinkConservation.ReportAll(model.batches)
            && model.enqueued == Flatten(model.batches) + outbox)
    }

    lemma RestIsFaithful(commands: seq<Command>)
      requires Valid() && model.send.NotSending? && model.at == Idle && model.received == commands
      ensures Faithful(commands)
    {
      LinkConservation.RestIsConfirmed(model);
      LinkFailures.NothingRepeatedOrReordered(model);
      if !model.writeFailed {
        LinkConservation.EveryStepAnsweredOnce(model);
        LinkConservation.FramesNumberedConsecutively(model);
        LinkConservation.RestingWire(model);
      }
    }

    /** `process`, up to the end of the socket or of the inputs considered: however the
        other tasks interleave, the wire is faithful to the commands and the outbox. */
    method Process(inputs: seq<Input>)
      requires Valid() && model == INIT
      modifies this, logger
      ensures Valid() && (running ==> Faithful(Commands(inputs)))
    {
      Startup();
      if !running {
        return;
      }
      MainLoop(inputs);
      if running {
        RestIsFaithful(Commands(inputs));
      }
    }

    static lemma CommandsSnoc(inputs: seq<Input>, k: nat)
      requires k < |inputs|
      ensures Commands(inputs[..k + 1]) == Commands(inputs[..k]) + CommandIn(inputs[k])
    {
      assert DropLast(inputs[..k + 1]) == inputs[..k];
    }
  }

  /** A released handler's exit is on the wire exactly when it was marked inside a dispatch. */
  lemma FreedMeansAnnounced(link: IpcLinkLayer)
    requires link.Valid() && link.handler == Freed && !link.model.writeFailed
    ensures Exits(link.wire) == [] <==> link.model.handler.window.Outside?
    ensures Exits(link.wire) != [] ==> Exits(link.wire) == [link.model.handler.reason]
  {
    LinkBarrier.ReleasedMeansAnnounced(link.model);
  }
}
