/**
 The DUT side of the IPC link (conformance/src/dut/link.rs): the link task, one
 exit handler, the logger and the device stack share signals and queues on a
 cooperative executor. Code between two awaits is atomic, so one action here is
 one such stretch, and a run is any interleaving of actions. Fields below the
 line in `State` are history: no step reads them to decide anything.
 */
module LinkProtocol {
  import opened Wrappers
  import opened IpcTypes
  import LogQueue

  const MAX_STEP_FRAMES: nat := 16
  const MAX_DRAIN_ITERS: nat := 128
  const YIELDS_PER_POLL: nat := 8

  /** A request the stack put on the link, with the frame its capture yields. */
  datatype Request = Request(frame: CapturedFrame, isDataReq: bool)

  /** The `L_Data_Con` returned for a request; an unexpected service is answered negatively. */
  datatype Confirmation = Confirmation(frame: CapturedFrame, positive: bool)

  function Confirm(r: Request): Confirmation {
    Confirmation(r.frame, r.isDataReq)
  }

  /** Where an unsolicited request was taken from the outbox. */
  datatype Origin = FromRoiLoop | FromRoiDrain | FromIdle

  /** On whose behalf a dequeued request is being confirmed. */
  datatype Owner =
    | Unsolicited(origin: Origin)
    | InStep(seqNo: nat, frames: seq<CapturedFrame>, iters: nat)

  /** Where the link task is, or will resume once its current send is over. */
  datatype Point =
    | Boot
    | RoiLoop
    | RoiDrain
    | Idle
    | Handing(cmd: Command)
    | Draining(seqNo: nat, frames: seq<CapturedFrame>, quiet: nat, iters: nat)
    | Confirming(req: Request, owner: Owner)
    | Taking(seqNo: nat)
    | FlushWaiting
    | Settling

  /** The link task inside `send_msg`: about to drain the log, or writing. */
  datatype Send =
    | NotSending
    | Queued(msg: DutMessage)
    | Writing(records: seq<LogEntry>, msg: DutMessage)

  /** When the exit reason was marked: during the n-th dispatch, between its
      barrier reset and its take, or at any other time. */
  datatype Window = Outside | InDispatch(n: nat)

  datatype Handler =
    | Dormant
    | Waiting(reason: ExitReason, window: Window)
    | Released(reason: ExitReason, window: Window)
    | TimedOut(reason: ExitReason, window: Window)

  datatype State = State(
    at: Point,
    send: Send,
    alive: bool,
    handler: Handler,
    outbox: seq<Request>,
    unsolicitedSeq: nat,
    pendingExit: Option<ExitReason>,
    stepSettled: bool,
    roiDone: bool,
    log: LogQueue.LogState,
    wire: seq<DutMessage>,
    // ----------------------------------------
    enqueued: seq<Request>,
    confirmed: seq<Confirmation>,
    open: seq<Request>,               // dequeued for the message being assembled
    batches: seq<seq<Request>>,       // one entry per finished frame-carrying message
    committed: seq<DutMessage>,       // messages the link set out to send
    received: seq<Command>,
    logOps: seq<LogQueue.LogOp>,
    writeFailed: bool
  )

  const INIT := State(Boot, NotSending, true, Dormant, [], 0, None, false, false, LogQueue.EMPTY, [],
                      [], [], [], [], [], [], [], false)

  datatype Action =
    // the stack, the bridge task and the logger
    | Enqueue(req: Request)
    | LogRecord(level: nat, target: string, message: string)
    | SignalRoiDone
    // the exit handler
    | MarkPendingExit(reason: ExitReason)
    | HandlerWake
    | HandlerTimeout
    | ProcessExit
    // the link task
    | SendReady
    | StartWrite
    | WriteOk
    | WriteFail
    | ConfirmSent
    | ReceiveRequest
    | RoiSettled
    | RoiTimeout
    | RoiDrainEnd
    | ReceiveCommand(cmd: Command)
    | Disconnected
    | Handed
    | DrainPoll
    | TakeExit
    | FlushReason
    | FlushTimeout
    | Settle

  // ---------------------------------------------------------------------
  // Steps of the link task
  // ---------------------------------------------------------------------

  function Dequeue(s: State, owner: Owner): State
    requires s.outbox != []
  {
    var req := s.outbox[0];
    s.(at := Confirming(req, owner), outbox := s.outbox[1..], open := s.open + [req])
  }

  /** Set out to send `msg` and resume at `at`; the log is drained when the send starts. */
  function Begin(s: State, msg: DutMessage, at: Point): State {
    s.(at := at, send := Queued(msg), committed := s.committed + [msg])
  }

  function PushFrame(frames: seq<CapturedFrame>, frame: CapturedFrame): seq<CapturedFrame> {
    if |frames| < MAX_STEP_FRAMES then frames + [frame] else frames
  }

  /** Set out to send `msg`, which reports the open requests. */
  function Report(s: State, msg: DutMessage, at: Point, confirmed: seq<Confirmation>): State {
    s.(at := at, send := Queued(msg), committed := s.committed + [msg], confirmed := confirmed,
       batches := s.batches + [s.open], open := [])
  }

  function Resume(origin: Origin): Point {
    match origin
    case FromRoiLoop => RoiLoop
    case FromRoiDrain => RoiDrain
    case FromIdle => Idle
  }

  function Confirmed(s: State): State
    requires s.at.Confirming?
  {
    var confirmed := s.confirmed + [Confirm(s.at.req)];
    match s.at.owner
    case Unsolicited(origin) =>
      Report(s, UnsolicitedFrame(s.unsolicitedSeq, s.at.req.frame), Resume(origin), confirmed)
        .(unsolicitedSeq := (s.unsolicitedSeq + 1) % U32)
    case InStep(seqNo, frames, iters) =>
      var pushed := PushFrame(frames, s.at.req.frame);
      if iters + 1 >= MAX_DRAIN_ITERS then Report(s, StepComplete(seqNo, pushed), Taking(seqNo), confirmed)
      else s.(at := Draining(seqNo, pushed, 0, iters + 1), confirmed := confirmed)
  }

  /** Every dispatch starts by resetting the barrier. A filtered frame is
      drained for at once; everything else is handed on first. */
  function Dispatch(s: State, cmd: Command): State {
    s.(at := if cmd.Inject? && !cmd.accepted then Draining(cmd.seqNo, [], 0, 0) else Handing(cmd),
       pendingExit := None, stepSettled := false, received := s.received + [cmd])
  }

  function AfterHanding(cmd: Command): Point {
    if IsStep(cmd) then Draining(cmd.seqNo, [], 0, 0) else FlushWaiting
  }

  function PollOutbox(s: State): State
    requires s.at.Draining?
  {
    var Draining(seqNo, frames, quiet, iters) := s.at;
    if s.outbox != [] then Dequeue(s, InStep(seqNo, frames, iters))
    else if s.pendingExit.Some? || quiet + 1 >= YIELDS_PER_POLL || iters + 1 >= MAX_DRAIN_ITERS then
      Report(s, StepComplete(seqNo, frames), Taking(seqNo), s.confirmed)
    else s.(at := Draining(seqNo, frames, quiet + 1, iters + 1))
  }

  function StartWriting(s: State): State
    requires s.send.Queued?
  {
    s.(send := Writing(LogQueue.Drained(s.log), s.send.msg), log := LogQueue.EMPTY,
       logOps := s.logOps + [LogQueue.Drain])
  }

  function WrittenOne(s: State): State
    requires s.send.Writing?
  {
    var Writing(records, msg) := s.send;
    if records != [] then s.(send := Writing(records[1..], msg), wire := s.wire + [Log(records[0])])
    else s.(send := NotSending, wire := s.wire + [msg])
  }

  /** A failed write abandons the rest of the send; only a failed `Ready` ends the process. */
  function WriteAbandoned(s: State): State
    requires s.send.Writing?
  {
    s.(send := NotSending, writeFailed := true, alive := !s.send.msg.Ready?)
  }

  function TakePendingExit(s: State): State {
    match s.pendingExit
    case Some(reason) => Begin(s.(pendingExit := None), Exiting(reason), Settling)
    case None => s.(at := Settling)
  }

  function TakeRequest(s: State): Option<State> {
    if s.outbox == [] then None
    else match s.at
      case RoiLoop => Some(Dequeue(s, Unsolicited(FromRoiLoop)))
      case RoiDrain => Some(Dequeue(s, Unsolicited(FromRoiDrain)))
      case Idle => Some(Dequeue(s, Unsolicited(FromIdle)))
      case _ => None
  }

  function When(enabled: bool, s: State): Option<State> {
    if enabled then Some(s) else None
  }

  /** The three ways a send moves on. */
  function SendStep(s: State, a: Action): Option<State> {
    match a
    case StartWrite => if s.send.Queued? then Some(StartWriting(s)) else None
    case WriteOk => if s.send.Writing? then Some(WrittenOne(s)) else None
    case WriteFail => if s.send.Writing? then Some(WriteAbandoned(s)) else None
    case _ => None
  }

  function PointStep(s: State, a: Action): Option<State> {
    match a
    case SendReady => When(s.at.Boot?, Begin(s, Ready, RoiLoop))
    case ConfirmSent => if s.at.Confirming? then Some(Confirmed(s)) else None
    case ReceiveRequest => TakeRequest(s)
    case RoiSettled => When(s.at.RoiLoop? && s.roiDone, s.(roiDone := false, at := RoiDrain))
    case RoiTimeout => When(s.at.RoiLoop? && !s.roiDone, s.(at := RoiDrain))
    case RoiDrainEnd => When(s.at.RoiDrain? && s.outbox == [], Begin(s, RoiComplete, Idle))
    case ReceiveCommand(cmd) => When(s.at.Idle?, Dispatch(s, cmd))
    case Disconnected => When(s.at.Idle?, s.(alive := false))
    case Handed => if s.at.Handing? then Some(s.(at := AfterHanding(s.at.cmd))) else None
    case DrainPoll => if s.at.Draining? then Some(PollOutbox(s)) else None
    case TakeExit => When(s.at.Taking?, TakePendingExit(s))
    case FlushReason => When(s.at.FlushWaiting? && s.pendingExit.Some?, TakePendingExit(s))
    // The reason is polled before the timer, so a marked exit always wins.
    case FlushTimeout => When(s.at.FlushWaiting? && s.pendingExit.None?, s.(at := Settling))
    case Settle => When(s.at.Settling?, s.(stepSettled := true, at := Idle))
    case _ => None
  }

  // ---------------------------------------------------------------------
  // Steps of everything else
  // ---------------------------------------------------------------------

  /** The stretch from the barrier reset of a dispatch up to its take. */
  predicate InWindow(p: Point) {
    p.Handing? || p.Draining? || (p.Confirming? && p.owner.InStep?) || p.Taking? || p.FlushWaiting?
  }

  function WindowNow(s: State): Window {
    if InWindow(s.at) then InDispatch(|s.received|) else Outside
  }

  function EnvStep(s: State, a: Action): Option<State> {
    match a
    case Enqueue(req) => Some(s.(outbox := s.outbox + [req], enqueued := s.enqueued + [req]))
    case LogRecord(level, target, message) =>
      var entry := Record(level, target, message);
      Some(s.(log := LogQueue.Push(s.log, entry), logOps := s.logOps + [LogQueue.Logged(entry)]))
    case SignalRoiDone => Some(s.(roiDone := true))
    case MarkPendingExit(reason) =>
      if s.handler.Dormant? then Some(s.(handler := Waiting(reason, WindowNow(s)), pendingExit := Some(reason)))
      else None
    case HandlerWake =>
      if s.handler.Waiting? && s.stepSettled then
        Some(s.(handler := Released(s.handler.reason, s.handler.window), stepSettled := false))
      else None
    case HandlerTimeout =>
      if s.handler.Waiting? && !s.stepSettled then Some(s.(handler := TimedOut(s.handler.reason, s.handler.window)))
      else None
    case ProcessExit =>
      if s.handler.Released? || s.handler.TimedOut? then Some(s.(alive := false)) else None
    case _ => None
  }

  predicate IsEnvAction(a: Action) {
    a.Enqueue? || a.LogRecord? || a.SignalRoiDone? || a.MarkPendingExit? || a.HandlerWake? || a.HandlerTimeout?
    || a.ProcessExit?
  }

  function Step(s: State, a: Action): Option<State> {
    if !s.alive then None
    else if IsEnvAction(a) then EnvStep(s, a)
    else if s.send.NotSending? then PointStep(s, a)
    else SendStep(s, a)
  }

  /** Whether the actions, taken one after the other, lead from `from` to `to`. */
  predicate Leads(from: State, acts: seq<Action>, to: State)
    decreases |acts|
  {
    if acts == [] then from == to
    else
      var rest := acts[1..];
      match Step(from, acts[0])
      case None => false
      case Some(mid) => Leads(mid, rest, to)
  }

  ghost predicate Reachable(s: State) {
    exists acts :: Leads(INIT, acts, s)
  }
}
