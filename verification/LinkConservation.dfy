/**
 What every interleaving of the link keeps: no request is lost, duplicated or
 reordered on its way to the wire, every request is confirmed once, every step
 command gets its one reply in order, and startup comes first.
 */
module LinkConservation {
  import opened Wrappers
  import opened IpcTypes
  import opened LinkProtocol
  import LogQueue

  function Captures(reqs: seq<Request>): seq<CapturedFrame> {
    seq(|reqs|, i requires 0 <= i < |reqs| => reqs[i].frame)
  }

  /** What one message reports of the requests dequeued for it: the first sixteen. */
  function Reported(reqs: seq<Request>): seq<CapturedFrame> {
    Captures(reqs[..Min(|reqs|, MAX_STEP_FRAMES)])
  }

  function ReportAll(batches: seq<seq<Request>>): seq<seq<CapturedFrame>> {
    seq(|batches|, i requires 0 <= i < |batches| => Reported(batches[i]))
  }

  function Numbers(n: nat): seq<nat> {
    seq(n, i requires 0 <= i < n => i % U32)
  }

  // ---------------------------------------------------------------------
  // The invariant, one part per group of fields
  // ---------------------------------------------------------------------

  /** Everything taken from the outbox so far. */
  function Dequeued(s: State): seq<Request> {
    Flatten(s.batches) + s.open
  }

  predicate ConfirmInv(at: Point, dequeued: seq<Request>, confirmed: seq<Confirmation>) {
    && |dequeued| == |confirmed| + (if at.Confirming? then 1 else 0)
    && (at.Confirming? ==> Last(dequeued) == at.req)
    && forall i :: 0 <= i < |confirmed| ==> confirmed[i] == Confirm(dequeued[i])
  }

  /** The requests dequeued for the message being assembled match the link's progress. */
  ghost predicate OpenInv(at: Point, open: seq<Request>) {
    match at
    case Draining(_, frames, _, _) => frames == Reported(open)
    case Confirming(req, owner) =>
      && open != [] && Last(open) == req
      && (match owner
          case Unsolicited(_) => |open| == 1
          case InStep(_, frames, _) => frames == Reported(DropLast(open)))
    case _ => open == []
  }

  /** The sequence number of the step command still being worked on. */
  function OpenSeq(at: Point): seq<nat> {
    match at
    case Handing(cmd) => CommandSeqPart(cmd)
    case Draining(seqNo, _, _, _) => [seqNo]
    case Confirming(_, owner) => if owner.InStep? then [owner.seqNo] else []
    case _ => []
  }

  ghost predicate AnswerInv(at: Point, committed: seq<DutMessage>, received: seq<Command>) {
    StepSeqs(committed) + OpenSeq(at) == CommandSeqs(received)
  }

  ghost predicate FramesInv(committed: seq<DutMessage>, batches: seq<seq<Request>>) {
    Replies(committed) == ReportAll(batches)
  }

  ghost predicate NumberInv(committed: seq<DutMessage>, unsolicitedSeq: nat) {
    && FrameSeqs(committed) == Numbers(|FrameSeqs(committed)|)
    && unsolicitedSeq == |FrameSeqs(committed)| % U32
  }

  predicate DrainInv(at: Point) {
    && (at.Draining? ==> at.iters < MAX_DRAIN_ITERS && at.quiet < YIELDS_PER_POLL)
    && (at.Confirming? && at.owner.InStep? ==> at.owner.iters < MAX_DRAIN_ITERS)
  }

  /** The stages a run goes through, as a reader of the protocol messages sees them. */
  datatype Stage = Silent | Scanning | Running | Broken

  function Advance(p: Stage, m: DutMessage): Stage {
    match m
    case Log(_) => Broken
    case Ready => if p.Silent? then Scanning else Broken
    case RoiComplete => if p.Scanning? then Running else Broken
    case UnsolicitedFrame(_, _) => if p.Scanning? || p.Running? then p else Broken
    case StepComplete(_, _) => if p.Running? then p else Broken
    case Exiting(_) => if p.Running? then p else Broken
  }

  function StageOf(w: seq<DutMessage>): Stage {
    if w == [] then Silent else Advance(StageOf(DropLast(w)), Last(w))
  }

  /** The stage of the committed messages when the link is at `at`. */
  function StageAt(at: Point): Stage {
    match at
    case Boot => Silent
    case RoiLoop => Scanning
    case RoiDrain => Scanning
    case Confirming(_, owner) => if owner.Unsolicited? && !owner.origin.FromIdle? then Scanning else Running
    case _ => Running
  }

  ghost predicate StageInv(at: Point, committed: seq<DutMessage>) {
    StageOf(committed) == StageAt(at)
  }

  /** The message being sent, if any. */
  function InFlight(send: Send): seq<DutMessage> {
    match send
    case NotSending => []
    case Queued(msg) => [msg]
    case Writing(_, msg) => [msg]
  }

  ghost predicate WireInv(send: Send, wire: seq<DutMessage>, committed: seq<DutMessage>, failed: bool) {
    && (send.Queued? || send.Writing? ==> !send.msg.Log?)
    && (!failed ==> Visible(wire) + InFlight(send) == committed)
  }

  ghost predicate RecordInv(send: Send, wire: seq<DutMessage>, logOps: seq<LogQueue.LogOp>, failed: bool) {
    && LogQueue.OnlyRecords(logOps)
    && (!failed ==> Logs(wire) + (if send.Writing? then send.records else []) == LogQueue.Delivered(logOps))
  }

  /** The queue side: what was taken from the outbox and confirmed. */
  ghost predicate QueueInv(s: State) {
    && s.enqueued == Dequeued(s) + s.outbox
    && ConfirmInv(s.at, Dequeued(s), s.confirmed)
    && OpenInv(s.at, s.open)
    && DrainInv(s.at)
  }

  /** The message side: what the link set out to send. */
  ghost predicate MessageInv(s: State) {
    && AnswerInv(s.at, s.committed, s.received)
    && FramesInv(s.committed, s.batches)
    && NumberInv(s.committed, s.unsolicitedSeq)
    && StageInv(s.at, s.committed)
  }

  /** The socket side: what is on the wire. */
  ghost predicate SocketInv(s: State) {
    && s.log == LogQueue.After(s.logOps)
    && WireInv(s.send, s.wire, s.committed, s.writeFailed)
    && RecordInv(s.send, s.wire, s.logOps, s.writeFailed)
  }

  ghost predicate Inv(s: State) {
    QueueInv(s) && MessageInv(s) && SocketInv(s)
  }

  lemma ReportedPush(reqs: seq<Request>, req: Request)
    ensures Reported(reqs + [req]) == PushFrame(Reported(reqs), req.frame)
  {
    if |reqs| < MAX_STEP_FRAMES {
      assert (reqs + [req])[..|reqs| + 1] == reqs + [req];
      assert reqs[..|reqs|] == reqs;
      assert Captures(reqs + [req]) == Captures(reqs) + [req.frame];
    } else {
      assert (reqs + [req])[..MAX_STEP_FRAMES] == reqs[..MAX_STEP_FRAMES];
    }
  }

  lemma StageSnoc(w: seq<DutMessage>, m: DutMessage)
    ensures StageOf(w + [m]) == Advance(StageOf(w), m)
  {
    assert DropLast(w + [m]) == w;
  }

  lemma ReportSnoc(batches: seq<seq<Request>>, batch: seq<Request>)
    ensures ReportAll(batches + [batch]) == ReportAll(batches) + [Reported(batch)]
  {
  }

  lemma NumberSnoc(n: nat)
    ensures Numbers(n + 1) == Numbers(n) + [n % U32]
  {
  }

  lemma WrapSucc(n: nat)
    ensures (n % U32 + 1) % U32 == (n + 1) % U32
  {
  }

  lemma NextNumber(committed: seq<DutMessage>, n: nat, frame: CapturedFrame)
    requires NumberInv(committed, n)
    ensures NumberInv(committed + [UnsolicitedFrame(n, frame)], (n + 1) % U32)
  {
    var count := |FrameSeqs(committed)|;
    NumberSnoc(count);
    WrapSucc(count);
    ReplySnoc(committed, UnsolicitedFrame(n, frame));
  }

  lemma NextBatch(committed: seq<DutMessage>, batches: seq<seq<Request>>, msg: DutMessage, batch: seq<Request>)
    requires FramesInv(committed, batches) && ReplyPart(msg) == [Reported(batch)]
    ensures FramesInv(committed + [msg], batches + [batch])
  {
    ReportSnoc(batches, batch);
    ReplySnoc(committed, msg);
  }

  // ---------------------------------------------------------------------
  // Each kind of step
  // ---------------------------------------------------------------------

  lemma StartWritingKeeps(s: State)
    requires SocketInv(s) && s.send.Queued?
    ensures SocketInv(StartWriting(s))
  {
    LogQueue.DrainSnoc(s.logOps);
  }

  lemma WrittenRecordKeeps(s: State)
    requires SocketInv(s) && s.send.Writing? && s.send.records != []
    ensures SocketInv(WrittenOne(s))
  {
    WireSnoc(s.wire, Log(s.send.records[0]));
    assert s.send.records == [s.send.records[0]] + s.send.records[1..];
  }

  lemma WrittenMessageKeeps(s: State)
    requires SocketInv(s) && s.send.Writing? && s.send.records == []
    ensures SocketInv(WrittenOne(s))
  {
    WireSnoc(s.wire, s.send.msg);
  }

  /** The same histories, outbox and counter: what the queue and message sides are about, but for the point. */
  predicate SameBooks(s: State, t: State) {
    t == s.(at := t.at, send := t.send, alive := t.alive, handler := t.handler, pendingExit := t.pendingExit,
            stepSettled := t.stepSettled, roiDone := t.roiDone, log := t.log, wire := t.wire, logOps := t.logOps,
            writeFailed := t.writeFailed)
  }

  predicate SameSocket(s: State, t: State) {
    (t.send, t.committed, t.wire, t.log, t.logOps, t.writeFailed)
    == (s.send, s.committed, s.wire, s.log, s.logOps, s.writeFailed)
  }

  /** Nothing but the socket side moves while a message is being sent. */
  lemma SendStepTouches(s: State, a: Action)
    requires SendStep(s, a).Some?
    ensures var t := SendStep(s, a).value; t.at == s.at && SameBooks(s, t)
  {
    match a
    case StartWrite => assert SameBooks(s, StartWriting(s));
    case WriteOk => assert SameBooks(s, WrittenOne(s));
    case WriteFail => assert SameBooks(s, WriteAbandoned(s));
  }

  lemma SameBooksKeep(s: State, t: State)
    requires QueueInv(s) && MessageInv(s) && t.at == s.at && SameBooks(s, t)
    ensures QueueInv(t) && MessageInv(t)
  {
  }

  lemma SameSocketKeeps(s: State, t: State)
    requires SocketInv(s) && SameSocket(s, t)
    ensures SocketInv(t)
  {
  }

  lemma SendStepKeepsSocket(s: State, a: Action)
    requires SocketInv(s) && SendStep(s, a).Some?
    ensures SocketInv(SendStep(s, a).value)
  {
    if a.StartWrite? {
      StartWritingKeeps(s);
    } else if a.WriteOk? && s.send.records == [] {
      WrittenMessageKeeps(s);
    } else if a.WriteOk? {
      WrittenRecordKeeps(s);
    }
  }

  lemma EnqueueKeeps(s: State, req: Request)
    requires QueueInv(s)
    ensures QueueInv(s.(outbox := s.outbox + [req], enqueued := s.enqueued + [req]))
  {
    assert s.enqueued + [req] == Dequeued(s) + (s.outbox + [req]);
  }

  lemma LogRecordKeeps(s: State, entry: LogEntry)
    requires SocketInv(s) && entry.Record?
    ensures SocketInv(s.(log := LogQueue.Push(s.log, entry), logOps := s.logOps + [LogQueue.Logged(entry)]))
  {
    LogQueue.LoggedSnoc(s.logOps, entry);
  }

  lemma EnqueueKeepsInv(s: State, req: Request)
    requires Inv(s)
    ensures Inv(EnvStep(s, Enqueue(req)).value)
  {
    var t := EnvStep(s, Enqueue(req)).value;
    EnqueueKeeps(s, req);
    SameSocketKeeps(s, t);
  }

  lemma LogRecordKeepsInv(s: State, level: nat, target: string, message: string)
    requires Inv(s)
    ensures Inv(EnvStep(s, LogRecord(level, target, message)).value)
  {
    var t := EnvStep(s, LogRecord(level, target, message)).value;
    LogRecordKeeps(s, Record(level, target, message));
    SameBooksKeep(s, t);
  }

  /** The other tasks beside the stack and the logger move only signals and the handler. */
  lemma SignalsTouch(s: State, a: Action)
    requires EnvStep(s, a).Some? && !a.Enqueue? && !a.LogRecord?
    ensures var t := EnvStep(s, a).value; t.at == s.at && SameBooks(s, t) && SameSocket(s, t)
  {
  }

  lemma EnvStepKeeps(s: State, a: Action)
    requires Inv(s) && EnvStep(s, a).Some?
    ensures Inv(EnvStep(s, a).value)
  {
    if a.Enqueue? {
      EnqueueKeepsInv(s, a.req);
    } else if a.LogRecord? {
      LogRecordKeepsInv(s, a.level, a.target, a.message);
    } else {
      SignalsTouch(s, a);
      SameBooksKeep(s, EnvStep(s, a).value);
      SameSocketKeeps(s, EnvStep(s, a).value);
    }
  }

  lemma DequeueKeepsQueue(s: State, owner: Owner)
    requires QueueInv(s) && s.outbox != [] && !s.at.Confirming?
    requires match owner
             case Unsolicited(_) => s.open == []
             case InStep(_, frames, iters) => frames == Reported(s.open) && iters < MAX_DRAIN_ITERS
    ensures QueueInv(Dequeue(s, owner))
  {
    var req := s.outbox[0];
    assert s.outbox == [req] + s.outbox[1..];
    assert Dequeued(s) + s.outbox == Dequeued(s) + [req] + s.outbox[1..];
    assert Dequeued(Dequeue(s, owner)) == Dequeued(s) + [req];
    assert DropLast(s.open + [req]) == s.open;
  }

  lemma DequeueKeepsRest(s: State, owner: Owner)
    requires MessageInv(s) && SocketInv(s) && s.outbox != []
    requires OpenSeq(s.at) == OpenSeq(Confirming(s.outbox[0], owner))
    requires StageAt(s.at) == StageAt(Confirming(s.outbox[0], owner))
    ensures MessageInv(Dequeue(s, owner)) && SocketInv(Dequeue(s, owner))
  {
  }

  lemma BeginKeepsMessages(s: State, msg: DutMessage, at: Point)
    requires MessageInv(s) && OpenSeq(s.at) == OpenSeq(at) == []
    requires msg.Ready? || msg.RoiComplete? || msg.Exiting?
    requires Advance(StageAt(s.at), msg) == StageAt(at)
    ensures MessageInv(Begin(s, msg, at))
  {
    ReplySnoc(s.committed, msg);
    StageSnoc(s.committed, msg);
  }

  lemma BeginKeepsRest(s: State, msg: DutMessage, at: Point)
    requires QueueInv(s) && SocketInv(s) && s.send.NotSending? && s.open == [] && !s.at.Confirming?
    requires !at.Draining? && !at.Confirming? && !msg.Log?
    ensures QueueInv(Begin(s, msg, at)) && SocketInv(Begin(s, msg, at))
  {
  }

  lemma BeginKeeps(s: State, msg: DutMessage, at: Point)
    requires Inv(s) && s.send.NotSending? && s.open == [] && !s.at.Confirming?
    requires OpenSeq(s.at) == OpenSeq(at) == [] && !at.Draining? && !at.Confirming?
    requires msg.Ready? || msg.RoiComplete? || msg.Exiting?
    requires Advance(StageAt(s.at), msg) == StageAt(at)
    ensures Inv(Begin(s, msg, at))
  {
    BeginKeepsMessages(s, msg, at);
    BeginKeepsRest(s, msg, at);
  }

  lemma ReportKeepsSocket(s: State, msg: DutMessage, at: Point, confirmed: seq<Confirmation>)
    requires SocketInv(s) && s.send.NotSending? && !msg.Log?
    ensures SocketInv(Report(s, msg, at, confirmed))
  {
  }

  lemma ReportKeepsQueue(s: State, msg: DutMessage, at: Point, confirmed: seq<Confirmation>)
    requires s.enqueued == Dequeued(s) + s.outbox && ConfirmInv(at, Dequeued(s), confirmed)
    requires !at.Draining? && !at.Confirming?
    ensures QueueInv(Report(s, msg, at, confirmed))
  {
    FlattenSnoc(s.batches, s.open);
    assert Dequeued(Report(s, msg, at, confirmed)) == Dequeued(s);
  }

  lemma ReportKeepsMessages(s: State, seqNo: nat, frames: seq<CapturedFrame>, confirmed: seq<Confirmation>)
    requires MessageInv(s) && OpenSeq(s.at) == [seqNo] && StageAt(s.at).Running? && frames == Reported(s.open)
    ensures MessageInv(Report(s, StepComplete(seqNo, frames), Taking(seqNo), confirmed))
  {
    NextBatch(s.committed, s.batches, StepComplete(seqNo, frames), s.open);
    ReplySnoc(s.committed, StepComplete(seqNo, frames));
    StageSnoc(s.committed, StepComplete(seqNo, frames));
  }

  lemma StepReportKeeps(s: State, seqNo: nat, frames: seq<CapturedFrame>, confirmed: seq<Confirmation>)
    requires Inv(s) && s.send.NotSending? && ConfirmInv(Taking(seqNo), Dequeued(s), confirmed)
    requires OpenSeq(s.at) == [seqNo] && frames == Reported(s.open)
    ensures Inv(Report(s, StepComplete(seqNo, frames), Taking(seqNo), confirmed))
  {
    ReportKeepsQueue(s, StepComplete(seqNo, frames), Taking(seqNo), confirmed);
    ReportKeepsMessages(s, seqNo, frames, confirmed);
    ReportKeepsSocket(s, StepComplete(seqNo, frames), Taking(seqNo), confirmed);
  }

  lemma DrainGoesOn(s: State, confirmed: seq<Confirmation>, at: Point)
    requires Inv(s) && ConfirmInv(at, Dequeued(s), confirmed) && DrainInv(at)
    requires at.Draining? && OpenSeq(s.at) == OpenSeq(at) && at.frames == Reported(s.open)
    ensures Inv(s.(at := at, confirmed := confirmed))
  {
  }

  lemma PollTakesRequest(s: State)
    requires Inv(s) && s.send.NotSending? && s.at.Draining? && s.outbox != []
    ensures Inv(PollOutbox(s))
  {
    DequeueForStep(s, InStep(s.at.seqNo, s.at.frames, s.at.iters));
  }

  lemma DequeueForStep(s: State, owner: Owner)
    requires Inv(s) && s.send.NotSending? && s.at.Draining? && s.outbox != []
    requires owner == InStep(s.at.seqNo, s.at.frames, s.at.iters)
    ensures Inv(Dequeue(s, owner))
  {
    DequeueKeepsQueue(s, owner);
    DequeueKeepsRest(s, owner);
  }

  lemma PollFindsNothing(s: State)
    requires Inv(s) && s.send.NotSending? && s.at.Draining? && s.outbox == []
    ensures Inv(PollOutbox(s))
  {
    var Draining(seqNo, frames, quiet, iters) := s.at;
    if s.pendingExit.Some? || quiet + 1 >= YIELDS_PER_POLL || iters + 1 >= MAX_DRAIN_ITERS {
      StepReportKeeps(s, seqNo, frames, s.confirmed);
    } else {
      DrainGoesOn(s, s.confirmed, Draining(seqNo, frames, quiet + 1, iters + 1));
    }
  }

  lemma PollKeeps(s: State)
    requires Inv(s) && s.send.NotSending? && s.at.Draining?
    ensures Inv(PollOutbox(s))
  {
    if s.outbox != [] {
      PollTakesRequest(s);
    } else {
      PollFindsNothing(s);
    }
  }

  lemma ConfirmOne(at: Point, next: Point, dequeued: seq<Request>, confirmed: seq<Confirmation>)
    requires at.Confirming? && !next.Confirming? && ConfirmInv(at, dequeued, confirmed)
    ensures ConfirmInv(next, dequeued, confirmed + [Confirm(at.req)])
  {
  }

  lemma ConfirmedFrames(at: Point, open: seq<Request>)
    requires OpenInv(at, open) && at.Confirming? && at.owner.InStep?
    ensures PushFrame(at.owner.frames, at.req.frame) == Reported(open)
  {
    ReportedPush(DropLast(open), at.req);
    assert open == DropLast(open) + [at.req];
  }

  lemma CappedStepKeeps(s: State, pushed: seq<CapturedFrame>)
    requires Inv(s) && s.send.NotSending? && s.at.Confirming? && s.at.owner.InStep? && pushed == Reported(s.open)
    ensures var seqNo := s.at.owner.seqNo;
            Inv(Report(s, StepComplete(seqNo, pushed), Taking(seqNo), s.confirmed + [Confirm(s.at.req)]))
  {
    var seqNo := s.at.owner.seqNo;
    ConfirmOne(s.at, Taking(seqNo), Dequeued(s), s.confirmed);
    StepReportKeeps(s, seqNo, pushed, s.confirmed + [Confirm(s.at.req)]);
  }

  lemma OpenStepKeeps(s: State, pushed: seq<CapturedFrame>)
    requires Inv(s) && s.at.Confirming? && s.at.owner.InStep? && pushed == Reported(s.open)
    requires s.at.owner.iters + 1 < MAX_DRAIN_ITERS
    ensures var next := Draining(s.at.owner.seqNo, pushed, 0, s.at.owner.iters + 1);
            Inv(s.(at := next, confirmed := s.confirmed + [Confirm(s.at.req)]))
  {
    var next := Draining(s.at.owner.seqNo, pushed, 0, s.at.owner.iters + 1);
    ConfirmOne(s.at, next, Dequeued(s), s.confirmed);
    DrainGoesOn(s, s.confirmed + [Confirm(s.at.req)], next);
  }

  lemma ConfirmedInStepKeeps(s: State)
    requires Inv(s) && s.send.NotSending? && s.at.Confirming? && s.at.owner.InStep?
    ensures Inv(Confirmed(s))
  {
    var Confirming(req, InStep(seqNo, frames, iters)) := s.at;
    ConfirmedFrames(s.at, s.open);
    if iters + 1 >= MAX_DRAIN_ITERS {
      CappedStepKeeps(s, PushFrame(frames, req.frame));
    } else {
      OpenStepKeeps(s, PushFrame(frames, req.frame));
    }
  }

  lemma NextUnsolicited(at: Point, back: Point, committed: seq<DutMessage>, received: seq<Command>, msg: DutMessage)
    requires AnswerInv(at, committed, received) && StageInv(at, committed) && msg.UnsolicitedFrame?
    requires OpenSeq(at) == OpenSeq(back) == [] && StageAt(at) == StageAt(back)
    requires StageAt(back).Scanning? || StageAt(back).Running?
    ensures AnswerInv(back, committed + [msg], received) && StageInv(back, committed + [msg])
  {
    ReplySnoc(committed, msg);
    StageSnoc(committed, msg);
  }

  lemma OneReported(committed: seq<DutMessage>, batches: seq<seq<Request>>, req: Request, number: nat)
    requires FramesInv(committed, batches)
    ensures FramesInv(committed + [UnsolicitedFrame(number, req.frame)], batches + [[req]])
  {
    assert Reported([req]) == [req.frame];
    NextBatch(committed, batches, UnsolicitedFrame(number, req.frame), [req]);
  }

  lemma ConfirmedUnsolicitedMessages(s: State)
    requires MessageInv(s) && s.at.Confirming? && s.at.owner.Unsolicited? && s.open == [s.at.req]
    ensures MessageInv(Confirmed(s))
  {
    var msg := UnsolicitedFrame(s.unsolicitedSeq, s.at.req.frame);
    OneReported(s.committed, s.batches, s.at.req, s.unsolicitedSeq);
    NextNumber(s.committed, s.unsolicitedSeq, s.at.req.frame);
    NextUnsolicited(s.at, Resume(s.at.owner.origin), s.committed, s.received, msg);
  }

  lemma ConfirmedUnsolicitedKeeps(s: State)
    requires Inv(s) && s.send.NotSending? && s.at.Confirming? && s.at.owner.Unsolicited?
    ensures Inv(Confirmed(s))
  {
    var back := Resume(s.at.owner.origin);
    var confirmed := s.confirmed + [Confirm(s.at.req)];
    ConfirmOne(s.at, back, Dequeued(s), s.confirmed);
    ConfirmedUnsolicitedMessages(s);
    ReportKeepsQueue(s, UnsolicitedFrame(s.unsolicitedSeq, s.at.req.frame), back, confirmed);
    ReportKeepsSocket(s, UnsolicitedFrame(s.unsolicitedSeq, s.at.req.frame), back, confirmed);
  }

  lemma DispatchKeepsMessages(s: State, cmd: Command)
    requires MessageInv(s) && s.at.Idle?
    ensures MessageInv(Dispatch(s, cmd))
  {
    var t := Dispatch(s, cmd);
    DispatchKeepsAnswers(t.at, s.committed, s.received, cmd);
    assert StageAt(t.at) == Running;
  }

  lemma DispatchKeepsAnswers(at: Point, committed: seq<DutMessage>, received: seq<Command>, cmd: Command)
    requires StepSeqs(committed) == CommandSeqs(received) && OpenSeq(at) == CommandSeqPart(cmd)
    ensures AnswerInv(at, committed, received + [cmd])
  {
    CommandsSnoc(received, cmd);
  }

  lemma DispatchKeepsRest(s: State, cmd: Command)
    requires QueueInv(s) && SocketInv(s) && s.at.Idle?
    ensures QueueInv(Dispatch(s, cmd)) && SocketInv(Dispatch(s, cmd))
  {
    assert Reported([]) == [];
  }

  /** `t` differs from `s` by the point of the link, which has nothing to do with any request or step there. */
  predicate Moves(s: State, t: State) {
    && SameBooks(s, t) && SameSocket(s, t)
    && s.open == [] && !s.at.Confirming? && !t.at.Confirming?
    && OpenSeq(s.at) == OpenSeq(t.at) && StageAt(s.at) == StageAt(t.at)
    && (t.at.Draining? ==> t.at.frames == [] && t.at.quiet == t.at.iters == 0)
  }

  lemma MoveKeepsQueue(s: State, t: State)
    requires QueueInv(s) && Moves(s, t)
    ensures QueueInv(t)
  {
    assert Reported([]) == [];
    assert Dequeued(t) == Dequeued(s);
  }

  lemma MoveKeepsMessages(s: State, t: State)
    requires MessageInv(s) && Moves(s, t)
    ensures MessageInv(t)
  {
  }

  lemma MoveKeeps(s: State, t: State)
    requires Inv(s) && Moves(s, t)
    ensures Inv(t)
  {
    MoveKeepsQueue(s, t);
    MoveKeepsMessages(s, t);
    SameSocketKeeps(s, t);
  }

  lemma ForgetExitKeeps(s: State)
    requires Inv(s)
    ensures Inv(s.(pendingExit := None))
  {
    SameBooksKeep(s, s.(pendingExit := None));
    SameSocketKeeps(s, s.(pendingExit := None));
  }

  lemma NothingOpen(s: State)
    requires QueueInv(s) && !s.at.Draining? && !s.at.Confirming?
    ensures s.open == []
  {
  }

  lemma TakePendingExitKeeps(s: State)
    requires Inv(s) && s.send.NotSending? && (s.at.Taking? || s.at.FlushWaiting?)
    ensures Inv(TakePendingExit(s))
  {
    NothingOpen(s);
    if s.pendingExit.Some? {
      ForgetExitKeeps(s);
      BeginKeeps(s.(pendingExit := None), Exiting(s.pendingExit.value), Settling);
    } else {
      MoveKeeps(s, s.(at := Settling));
    }
  }

  lemma TakeRequestKeeps(s: State)
    requires Inv(s) && s.send.NotSending? && TakeRequest(s).Some?
    ensures Inv(TakeRequest(s).value)
  {
    var origin := if s.at.RoiLoop? then FromRoiLoop else if s.at.RoiDrain? then FromRoiDrain else FromIdle;
    DequeueKeepsQueue(s, Unsolicited(origin));
    DequeueKeepsRest(s, Unsolicited(origin));
  }

  predicate IsMove(a: Action) {
    a.RoiSettled? || a.RoiTimeout? || a.Disconnected? || a.Handed? || a.FlushTimeout? || a.Settle?
  }

  lemma RoiStepMoves(s: State, a: Action)
    requires s.open == [] && (a.RoiSettled? || a.RoiTimeout?) && PointStep(s, a).Some?
    ensures Moves(s, PointStep(s, a).value)
  {
  }

  lemma SettleStepMoves(s: State, a: Action)
    requires s.open == [] && (a.FlushTimeout? || a.Settle?) && PointStep(s, a).Some?
    ensures Moves(s, PointStep(s, a).value)
  {
  }

  lemma HandStepMoves(s: State, a: Action)
    requires s.open == [] && (a.Disconnected? || a.Handed?) && PointStep(s, a).Some?
    ensures Moves(s, PointStep(s, a).value)
  {
  }

  lemma MoveStepsHere(s: State, a: Action)
    requires IsMove(a) && PointStep(s, a).Some?
    ensures !s.at.Draining? && !s.at.Confirming?
  {
  }

  lemma MoveStepKeeps(s: State, a: Action)
    requires Inv(s) && s.send.NotSending? && IsMove(a) && PointStep(s, a).Some?
    ensures Inv(PointStep(s, a).value)
  {
    MoveStepsHere(s, a);
    NothingOpen(s);
    if a.Disconnected? || a.Handed? {
      HandStepMoves(s, a);
    } else if a.RoiSettled? || a.RoiTimeout? {
      RoiStepMoves(s, a);
    } else {
      SettleStepMoves(s, a);
    }
    MoveKeeps(s, PointStep(s, a).value);
  }

  lemma TakeStepIs(s: State, a: Action)
    requires (a.TakeExit? || a.FlushReason?) && PointStep(s, a).Some?
    ensures PointStep(s, a) == Some(TakePendingExit(s)) && (s.at.Taking? || s.at.FlushWaiting?)
  {
  }

  lemma TakeStepKeeps(s: State, a: Action)
    requires Inv(s) && s.send.NotSending? && (a.TakeExit? || a.FlushReason?) && PointStep(s, a).Some?
    ensures Inv(PointStep(s, a).value)
  {
    TakeStepIs(s, a);
    TakePendingExitKeeps(s);
  }

  lemma StartupStepIs(s: State, a: Action)
    requires (a.SendReady? || a.RoiDrainEnd?) && PointStep(s, a).Some?
    ensures if a.SendReady? then s.at.Boot? && PointStep(s, a) == Some(Begin(s, Ready, RoiLoop))
            else s.at.RoiDrain? && PointStep(s, a) == Some(Begin(s, RoiComplete, Idle))
  {
  }

  lemma StartupStepKeeps(s: State, a: Action)
    requires Inv(s) && s.send.NotSending? && (a.SendReady? || a.RoiDrainEnd?) && PointStep(s, a).Some?
    ensures Inv(PointStep(s, a).value)
  {
    StartupStepIs(s, a);
    NothingOpen(s);
    if a.SendReady? {
      BeginKeeps(s, Ready, RoiLoop);
    } else {
      BeginKeeps(s, RoiComplete, Idle);
    }
  }

  lemma PointStepKeeps(s: State, a: Action)
    requires Inv(s) && s.send.NotSending? && PointStep(s, a).Some?
    ensures Inv(PointStep(s, a).value)
  {
    if IsMove(a) {
      MoveStepKeeps(s, a);
    } else if a.TakeExit? || a.FlushReason? {
      TakeStepKeeps(s, a);
    } else if a.SendReady? || a.RoiDrainEnd? {
      StartupStepKeeps(s, a);
    } else {
      match a
      case ConfirmSent => if s.at.owner.InStep? { ConfirmedInStepKeeps(s); } else { ConfirmedUnsolicitedKeeps(s); }
      case ReceiveRequest => TakeRequestKeeps(s);
      case ReceiveCommand(cmd) =>
        DispatchKeepsMessages(s, cmd);
        DispatchKeepsRest(s, cmd);
      case DrainPoll => PollKeeps(s);
    }
  }

  // ---------------------------------------------------------------------
  // Every reachable state
  // ---------------------------------------------------------------------

  lemma StepKeeps(s: State, a: Action)
    requires Inv(s) && Step(s, a).Some?
    ensures Inv(Step(s, a).value)
  {
    if IsEnvAction(a) {
      EnvStepKeeps(s, a);
    } else if s.send.NotSending? {
      PointStepKeeps(s, a);
    } else {
      SendStepTouches(s, a);
      SameBooksKeep(s, Step(s, a).value);
      SendStepKeepsSocket(s, a);
    }
  }

  lemma {:induction false} InvHolds(from: State, acts: seq<Action>, to: State)
    requires Inv(from) && Leads(from, acts, to)
    ensures Inv(to)
    decreases |acts|
  {
    if acts != [] {
      StepKeeps(from, acts[0]);
      InvHolds(Step(from, acts[0]).value, acts[1..], to);
    }
  }

  lemma ReachableInv(s: State)
    requires Reachable(s)
    ensures Inv(s)
  {
    var acts :| Leads(INIT, acts, s);
    assert ReportAll([]) == [] && Numbers(0) == [];
    InvHolds(INIT, acts, s);
  }

  predicate AtRest(s: State) {
    s.at.Idle? && s.send.NotSending?
  }

  /** With every write successful, the wire shows a prefix of the committed
      messages: all of them between messages. */
  lemma WireShowsCommitted(s: State)
    requires Reachable(s) && !s.writeFailed
    ensures Visible(s.wire) <= s.committed
    ensures s.send.NotSending? ==> Visible(s.wire) == s.committed
    ensures AnswerInv(s.at, s.committed, s.received) && StageOf(s.committed) == StageAt(s.at)
    ensures Replies(s.committed) == ReportAll(s.batches)
    ensures FrameSeqs(s.committed) == Numbers(|FrameSeqs(s.committed)|)
    ensures s.enqueued == Dequeued(s) + s.outbox && OpenInv(s.at, s.open)
  {
    ReachableInv(s);
  }

  // ---------------------------------------------------------------------
  // Main results
  // ---------------------------------------------------------------------

  lemma RestingReplies(s: State)
    requires WireInv(s.send, s.wire, s.committed, s.writeFailed) && FramesInv(s.committed, s.batches)
    requires s.send.NotSending? && !s.writeFailed
    ensures Replies(s.wire) == ReportAll(s.batches)
  {
    assert Visible(s.wire) == s.committed;
    VisibleProjects(s.wire);
  }

  lemma RestingWire(s: State)
    requires Reachable(s) && AtRest(s) && !s.writeFailed
    ensures Replies(s.wire) == ReportAll(s.batches)
    ensures s.enqueued == Flatten(s.batches) + s.outbox
  {
    ReachableInv(s);
    RestingReplies(s);
  }

  /** Between messages, the frame-carrying messages on the wire are exactly the
      dequeued requests cut into batches, each cut to its first sixteen frames,
      and the dequeued requests are the first of the enqueued ones. */
  lemma WireCarriesTheOutbox(s: State)
    requires Reachable(s) && AtRest(s) && !s.writeFailed
    ensures |Replies(s.wire)| == |s.batches|
    ensures forall k :: 0 <= k < |s.batches| ==>
              && |Replies(s.wire)[k]| == Min(|s.batches[k]|, 16)
              && forall i :: 0 <= i < Min(|s.batches[k]|, 16) ==> Replies(s.wire)[k][i] == s.batches[k][i].frame
    ensures s.enqueued == Flatten(s.batches) + s.outbox
  {
    RestingWire(s);
  }

  lemma {:induction false} FlattenReports(batches: seq<seq<Request>>)
    requires forall k :: 0 <= k < |batches| ==> |batches[k]| <= MAX_STEP_FRAMES
    ensures Flatten(ReportAll(batches)) == Captures(Flatten(batches))
  {
    if batches != [] {
      var init := DropLast(batches);
      FlattenReports(init);
      assert DropLast(ReportAll(batches)) == ReportAll(init);
      var last := Last(batches);
      assert last[..|last|] == last;
      assert Last(ReportAll(batches)) == Captures(last);
      CapturesConcat(Flatten(init), last);
    }
  }

  lemma CapturesConcat(a: seq<Request>, b: seq<Request>)
    ensures Captures(a + b) == Captures(a) + Captures(b)
  {
  }

  /** Without an overfull step, nothing is missing and nothing is out of order. */
  lemma WireConservesFrames(s: State)
    requires Reachable(s) && AtRest(s) && !s.writeFailed
    requires forall k :: 0 <= k < |s.batches| ==> |s.batches[k]| <= 16
    ensures Flatten(Replies(s.wire)) == Captures(Flatten(s.batches))
    ensures Flatten(Replies(s.wire)) + Captures(s.outbox) == Captures(s.enqueued)
  {
    RestingWire(s);
    FlattenReports(s.batches);
    CapturesConcat(Flatten(s.batches), s.outbox);
  }

  /** At any moment, failed writes or not, the confirmations sent are those of
      the dequeued requests in order, short of at most the one being sent. */
  lemma EveryRequestConfirmedOnce(s: State)
    requires Reachable(s)
    ensures |s.confirmed| <= |Dequeued(s)| <= |s.confirmed| + 1 && Dequeued(s) <= s.enqueued
    ensures AtRest(s) ==> |s.confirmed| == |Dequeued(s)|
    ensures forall i :: 0 <= i < |s.confirmed| ==>
              s.confirmed[i].frame == s.enqueued[i].frame && s.confirmed[i].positive == s.enqueued[i].isDataReq
  {
    ReachableInv(s);
  }

  lemma RestIsConfirmed(s: State)
    requires Reachable(s) && AtRest(s)
    ensures |s.confirmed| + |s.outbox| == |s.enqueued|
    ensures forall i :: 0 <= i < |s.confirmed| ==>
              s.confirmed[i].frame == s.enqueued[i].frame && s.confirmed[i].positive == s.enqueued[i].isDataReq
  {
    ReachableInv(s);
  }

  /** Replies carry the sequence numbers of the step commands, in order: between
      commands exactly all of them, at any other moment a prefix. */
  lemma EveryStepAnsweredOnce(s: State)
    requires Reachable(s) && !s.writeFailed
    ensures StepSeqs(s.wire) <= CommandSeqs(s.received)
    ensures AtRest(s) ==> StepSeqs(s.wire) == CommandSeqs(s.received)
  {
    WireShowsCommitted(s);
    VisibleProjects(s.wire);
    PrefixProjects(Visible(s.wire), s.committed);
  }

  lemma FramesNumberedConsecutively(s: State)
    requires Reachable(s) && !s.writeFailed
    ensures forall k :: 0 <= k < |FrameSeqs(s.wire)| ==> FrameSeqs(s.wire)[k] == k % 0x1_0000_0000
  {
    WireShowsCommitted(s);
    VisibleProjects(s.wire);
    PrefixProjects(Visible(s.wire), s.committed);
    assert FrameSeqs(s.wire) <= Numbers(|FrameSeqs(s.committed)|);
  }

  lemma {:induction false} StageBounds(w: seq<DutMessage>, i: nat)
    requires StageOf(w) != Broken && i < |w|
    ensures StageOf(w[..i]) != Broken
    ensures w[i].StepComplete? || w[i].Exiting? ==> StageOf(w[..i]).Running?
    ensures i == 0 ==> w[0].Ready?
    decreases |w|
  {
    if i == |w| - 1 {
      assert w[..i] == DropLast(w);
    } else {
      StageBounds(DropLast(w), i);
      assert DropLast(w)[..i] == w[..i];
    }
  }

  lemma {:induction false} RunningNeedsRoi(w: seq<DutMessage>)
    requires StageOf(w).Running?
    ensures RoiComplete in w
  {
    if Last(w) != RoiComplete {
      RunningNeedsRoi(DropLast(w));
    }
  }

  lemma WireIsStaged(s: State)
    requires Reachable(s) && !s.writeFailed
    ensures Visible(s.wire) <= s.committed && StageOf(s.committed) != Broken
  {
    WireShowsCommitted(s);
  }

  lemma StagedOrder(all: seq<DutMessage>, w: seq<DutMessage>, i: nat)
    requires w <= all && StageOf(all) != Broken && i < |w|
    ensures i == 0 ==> w[i] == Ready
    ensures w[i].StepComplete? || w[i].Exiting? ==> RoiComplete in w[..i]
  {
    StageBounds(all, i);
    assert w[..i] == all[..i];
    if w[i].StepComplete? || w[i].Exiting? {
      RunningNeedsRoi(w[..i]);
    }
  }

  /** `Ready` is the first protocol message of every run, and `RoiComplete`
      precedes every `StepComplete` and every `Exiting`. */
  lemma StartupComesFirst(s: State, i: nat)
    requires Reachable(s) && !s.writeFailed && i < |Visible(s.wire)|
    ensures i == 0 ==> Visible(s.wire)[i] == Ready
    ensures Visible(s.wire)[i].StepComplete? || Visible(s.wire)[i].Exiting? ==> RoiComplete in Visible(s.wire)[..i]
  {
    WireIsStaged(s);
    StagedOrder(s.committed, Visible(s.wire), i);
  }

  /** The action leaves the link inside the drain of the current step. */
  predicate InDrain(s: State) {
    s.at.Draining? || (s.at.Confirming? && s.at.owner.InStep?)
  }

  function Polls(acts: seq<Action>): nat {
    if acts == [] then 0 else (if acts[0].DrainPoll? then 1 else 0) + Polls(acts[1..])
  }

  function PollsLeft(s: State): int {
    if s.at.Draining? then MAX_DRAIN_ITERS - s.at.iters
    else if s.at.Confirming? && s.at.owner.InStep? then MAX_DRAIN_ITERS - s.at.owner.iters - 1
    else 0
  }

  /** A run in which every action starts inside one drain. */
  predicate DrainRun(s: State, acts: seq<Action>)
    decreases |acts|
  {
    acts == [] || (InDrain(s) && Step(s, acts[0]).Some? && DrainRun(Step(s, acts[0]).value, acts[1..]))
  }

  lemma EnvStepStaysPut(s: State, a: Action)
    requires EnvStep(s, a).Some?
    ensures EnvStep(s, a).value.at == s.at
  {
  }

  lemma PollingUsesUp(s: State)
    requires DrainInv(s.at) && s.at.Draining?
    ensures PollsLeft(PollOutbox(s)) + 1 <= PollsLeft(s) && DrainInv(PollOutbox(s).at)
  {
  }

  lemma ConfirmingUsesUp(s: State)
    requires DrainInv(s.at) && s.at.Confirming? && s.at.owner.InStep?
    ensures PollsLeft(Confirmed(s)) <= PollsLeft(s) && DrainInv(Confirmed(s).at)
  {
  }

  lemma DrainStepUsesUp(s: State, a: Action)
    requires DrainInv(s.at) && InDrain(s) && PointStep(s, a).Some?
    ensures PollsLeft(PointStep(s, a).value) + (if a.DrainPoll? then 1 else 0) <= PollsLeft(s)
    ensures DrainInv(PointStep(s, a).value.at)
  {
    match a
    case DrainPoll => PollingUsesUp(s);
    case ConfirmSent => ConfirmingUsesUp(s);
    case _ =>
  }

  lemma PollUsesUp(s: State, a: Action)
    requires DrainInv(s.at) && InDrain(s) && Step(s, a).Some?
    ensures PollsLeft(Step(s, a).value) + (if a.DrainPoll? then 1 else 0) <= PollsLeft(s)
    ensures DrainInv(Step(s, a).value.at)
  {
    if IsEnvAction(a) {
      EnvStepStaysPut(s, a);
    } else if s.send.NotSending? {
      DrainStepUsesUp(s, a);
    } else {
      SendStepTouches(s, a);
    }
  }

  /** Whatever the stack emits, one drain polls the outbox at most 128 times. */
  lemma {:induction false} DrainsEnd(s: State, acts: seq<Action>)
    requires DrainInv(s.at) && DrainRun(s, acts)
    ensures Polls(acts) <= PollsLeft(s) <= 128
    decreases |acts|
  {
    if acts != [] {
      PollUsesUp(s, acts[0]);
      DrainsEnd(Step(s, acts[0]).value, acts[1..]);
    }
  }

  /** Every record queued before a message starts sending is on the wire before
      that message: what is written is exactly what the queue delivered. */
  lemma RecordsPrecedeTheirMessage(s: State)
    requires Reachable(s) && !s.writeFailed
    requires s.send.Writing? && s.send.records == []
    ensures Logs(s.wire) == LogQueue.Delivered(s.logOps)
    ensures Subsequence(LogQueue.Records(Logs(s.wire)) + s.log.queue, LogQueue.Accepted(s.logOps))
    ensures |LogQueue.Accepted(s.logOps)| == |LogQueue.Records(Logs(s.wire))| + LogQueue.Reported(Logs(s.wire))
                                             + s.log.dropped + |s.log.queue|
  {
    ReachableInv(s);
    assert Logs(s.wire) == LogQueue.Delivered(s.logOps);
    LogQueue.OrderKept(s.logOps);
    LogQueue.NothingLostSilently(s.logOps);
  }
}
