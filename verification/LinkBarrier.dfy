/**
 The exit barrier: what the exit handler may conclude when it is woken. The
 handler marks a reason and waits; the link writes `Exiting` right after the
 reply of the dispatch the mark fell into, and only then signals.
 */
module LinkBarrier {
  import opened Wrappers
  import opened IpcTypes
  import opened LinkProtocol
  import opened LinkConservation
  import LogQueue

  // ---------------------------------------------------------------------
  // Vocabulary
  // ---------------------------------------------------------------------

  /** The link is working on the last received command. */
  predicate WorksOn(at: Point, received: seq<Command>) {
    match at
    case Handing(cmd) => received != [] && Last(received) == cmd
    case Draining(seqNo, _, _, _) => received != [] && IsStep(Last(received)) && Last(received).seqNo == seqNo
    case Confirming(_, owner) =>
      owner.InStep? ==> received != [] && IsStep(Last(received)) && Last(received).seqNo == owner.seqNo
    case Taking(seqNo) => received != [] && IsStep(Last(received)) && Last(received).seqNo == seqNo
    case FlushWaiting => received != [] && !IsStep(Last(received))
    case Settling => received != []
    case _ => true
  }

  predicate SendsExiting(send: Send) {
    (send.Queued? || send.Writing?) && send.msg.Exiting?
  }

  predicate SendsReply(send: Send, seqNo: nat) {
    (send.Queued? || send.Writing?) && send.msg.StepComplete? && send.msg.seqNo == seqNo
  }

  /** `wire[i]` is the reply to the n-th received command, which is a step command. */
  ghost predicate ReplyAt(wire: seq<DutMessage>, i: nat, received: seq<Command>, n: nat) {
    && i < |wire| && 1 <= n <= |received| && IsStep(received[n - 1])
    && wire[i].StepComplete? && wire[i].seqNo == received[n - 1].seqNo
    && |StepSeqs(wire[..i])| == |CommandSeqs(received[..n - 1])|
  }

  predicate LogsBetween(wire: seq<DutMessage>, i: nat, j: nat) {
    i <= j <= |wire| && forall k :: i <= k < j ==> wire[k].Log?
  }

  /** That reply is followed by `Exiting(reason)` with only log records between. */
  ghost predicate AnnouncedAt(wire: seq<DutMessage>, i: nat, j: nat, received: seq<Command>, n: nat,
                              reason: ExitReason) {
    ReplyAt(wire, i, received, n) && i < j < |wire| && wire[j] == Exiting(reason) && LogsBetween(wire, i + 1, j)
  }

  ghost predicate RepliedLast(wire: seq<DutMessage>, received: seq<Command>, n: nat) {
    exists i: nat :: ReplyAt(wire, i, received, n) && LogsBetween(wire, i + 1, |wire|)
  }

  ghost predicate Announced(wire: seq<DutMessage>, received: seq<Command>, n: nat, reason: ExitReason) {
    exists i: nat, j: nat :: AnnouncedAt(wire, i, j, received, n, reason)
  }

  lemma ReplyStays(wire: seq<DutMessage>, i: nat, received: seq<Command>, n: nat, m: DutMessage)
    requires ReplyAt(wire, i, received, n)
    ensures ReplyAt(wire + [m], i, received, n)
  {
    assert (wire + [m])[..i] == wire[..i];
  }

  lemma AnnouncedStays(wire: seq<DutMessage>, received: seq<Command>, n: nat, reason: ExitReason, m: DutMessage)
    requires Announced(wire, received, n, reason)
    ensures Announced(wire + [m], received, n, reason)
  {
    var i: nat, j: nat :| AnnouncedAt(wire, i, j, received, n, reason);
    ReplyStays(wire, i, received, n, m);
    assert AnnouncedAt(wire + [m], i, j, received, n, reason);
  }

  lemma AnnouncedAfterCommand(wire: seq<DutMessage>, received: seq<Command>, n: nat, reason: ExitReason, c: Command)
    requires Announced(wire, received, n, reason)
    ensures Announced(wire, received + [c], n, reason)
  {
    var i: nat, j: nat :| AnnouncedAt(wire, i, j, received, n, reason);
    assert (received + [c])[..n - 1] == received[..n - 1];
    assert AnnouncedAt(wire, i, j, received + [c], n, reason);
  }

  // ---------------------------------------------------------------------
  // The invariant
  // ---------------------------------------------------------------------

  /** No signal left over from an earlier step survives into a dispatch. */
  predicate SettledInv(at: Point, stepSettled: bool) {
    InWindow(at) || at.Settling? ==> !stepSettled
  }

  predicate SendInv(at: Point, send: Send) {
    && (SendsExiting(send) ==> at.Settling?)
    && (at.Taking? && !send.NotSending? ==> SendsReply(send, at.seqNo))
    && (InWindow(at) && !at.Taking? ==> send.NotSending?)
    && (at.Settling? && !send.NotSending? ==> SendsExiting(send))
  }

  /** Between the reply and the take, the reply is the last thing on the wire. */
  ghost predicate TakeInv(at: Point, send: Send, wire: seq<DutMessage>, received: seq<Command>, failed: bool) {
    at.Taking? && send.NotSending? && !failed ==>
      wire != [] && ReplyAt(wire, |wire| - 1, received, |received|)
  }

  predicate PendingInv(handler: Handler, pendingExit: Option<ExitReason>) {
    pendingExit.Some? ==> !handler.Dormant? && pendingExit.value == handler.reason
  }

  /** Marked in dispatch n, not yet taken. */
  predicate Ahead(n: nat, at: Point, pendingExit: Option<ExitReason>, received: seq<Command>, wire: seq<DutMessage>) {
    n == |received| && InWindow(at) && pendingExit.Some? && Exits(wire) == []
  }

  /** Taken, `Exiting` not yet on the wire. */
  ghost predicate Flying(n: nat, reason: ExitReason, at: Point, send: Send, pendingExit: Option<ExitReason>,
                         received: seq<Command>, wire: seq<DutMessage>, failed: bool) {
    && n == |received| && at.Settling? && SendsExiting(send) && send.msg.reason == reason
    && pendingExit.None? && Exits(wire) == []
    && (!failed && 1 <= n <= |received| && IsStep(received[n - 1]) ==> RepliedLast(wire, received, n))
  }

  ghost predicate Done(n: nat, reason: ExitReason, send: Send, pendingExit: Option<ExitReason>,
                       received: seq<Command>, wire: seq<DutMessage>, failed: bool) {
    && pendingExit.None? && !SendsExiting(send)
    && (Exits(wire) == [reason] || (failed && Exits(wire) == []))
    && (!failed && 1 <= n <= |received| && IsStep(received[n - 1]) ==> Announced(wire, received, n, reason))
  }

  ghost predicate ExitInv(at: Point, send: Send, handler: Handler, pendingExit: Option<ExitReason>,
                          received: seq<Command>, wire: seq<DutMessage>, failed: bool) {
    if handler.Dormant? then Exits(wire) == [] && !SendsExiting(send)
    else match handler.window
      case Outside => Exits(wire) == [] && !SendsExiting(send) && (InWindow(at) ==> pendingExit.None?)
      case InDispatch(n) =>
        && 1 <= n <= |received|
        && (|| (Ahead(n, at, pendingExit, received, wire) && !handler.Released?)
            || (Flying(n, handler.reason, at, send, pendingExit, received, wire, failed) && !handler.Released?)
            || Done(n, handler.reason, send, pendingExit, received, wire, failed))
  }

  ghost predicate BarrierInv(s: State) {
    && WorksOn(s.at, s.received)
    && SettledInv(s.at, s.stepSettled)
    && SendInv(s.at, s.send)
    && TakeInv(s.at, s.send, s.wire, s.received, s.writeFailed)
    && PendingInv(s.handler, s.pendingExit)
    && ExitInv(s.at, s.send, s.handler, s.pendingExit, s.received, s.wire, s.writeFailed)
  }

  // ---------------------------------------------------------------------
  // The steps of the link task, as far as the barrier can tell them apart
  // ---------------------------------------------------------------------

  datatype Kind = Dispatching | TakingExit | Signalling | Reporting | Moving

  function KindOf(s: State, a: Action): Kind {
    match a
    case ReceiveCommand(_) => Dispatching
    case TakeExit => TakingExit
    case FlushReason => TakingExit
    case FlushTimeout => TakingExit
    case Settle => Signalling
    case DrainPoll => if PointStep(s, a).Some? && PointStep(s, a).value.at.Taking? then Reporting else Moving
    case ConfirmSent => if PointStep(s, a).Some? && PointStep(s, a).value.at.Taking? then Reporting else Moving
    case _ => Moving
  }

  /** Steps that neither enter nor leave the window and leave the barrier alone. */
  predicate Moves(s: State, t: State) {
    && t.pendingExit == s.pendingExit && t.stepSettled == s.stepSettled && t.received == s.received
    && InWindow(t.at) == InWindow(s.at) && !s.at.Settling? && !t.at.Settling? && !t.at.Taking?
    && (t.send.NotSending? || (t.send.Queued? && !InWindow(t.at) && !t.send.msg.Exiting?))
    && (WorksOn(s.at, s.received) ==> WorksOn(t.at, t.received))
  }

  predicate Reports(s: State, t: State) {
    && t.pendingExit == s.pendingExit && t.stepSettled == s.stepSettled && t.received == s.received
    && InWindow(s.at) && !s.at.Taking? && t.at.Taking? && SendsReply(t.send, t.at.seqNo)
    && (WorksOn(s.at, s.received) ==> WorksOn(t.at, t.received))
  }

  predicate Takes(s: State, t: State) {
    && t.stepSettled == s.stepSettled && t.received == s.received
    && (s.at.Taking? || s.at.FlushWaiting?) && t.at.Settling? && t.pendingExit.None?
    && t.send == if s.pendingExit.Some? then Queued(Exiting(s.pendingExit.value)) else NotSending
  }

  predicate Dispatches(s: State, t: State) {
    && t.pendingExit.None? && !t.stepSettled && s.at.Idle? && InWindow(t.at) && !t.at.Taking? && t.send.NotSending?
    && |t.received| == |s.received| + 1 && s.received <= t.received
    && WorksOn(t.at, t.received)
  }

  predicate Signals(s: State, t: State) {
    && t.pendingExit == s.pendingExit && t.stepSettled && t.received == s.received
    && s.at.Settling? && t.at.Idle? && t.send.NotSending?
  }

  predicate Leaves(s: State, t: State) {
    t.handler == s.handler && t.wire == s.wire && t.writeFailed == s.writeFailed
  }

  lemma PollShape(s: State)
    requires s.send.NotSending? && s.at.Draining?
    ensures var t := PollOutbox(s); Leaves(s, t) && if t.at.Taking? then Reports(s, t) else Moves(s, t)
  {
  }

  lemma ConfirmUnsolicitedShape(s: State)
    requires s.send.NotSending? && s.at.Confirming? && s.at.owner.Unsolicited?
    ensures Leaves(s, Confirmed(s)) && !Confirmed(s).at.Taking? && Moves(s, Confirmed(s))
  {
  }

  lemma ConfirmInStepShape(s: State)
    requires s.send.NotSending? && s.at.Confirming? && s.at.owner.InStep?
    ensures var t := Confirmed(s); Leaves(s, t) && if t.at.Taking? then Reports(s, t) else Moves(s, t)
  {
  }

  lemma ConfirmShape(s: State)
    requires s.send.NotSending? && s.at.Confirming?
    ensures var t := Confirmed(s); Leaves(s, t) && if t.at.Taking? then Reports(s, t) else Moves(s, t)
  {
    if s.at.owner.InStep? {
      ConfirmInStepShape(s);
    } else {
      ConfirmUnsolicitedShape(s);
    }
  }

  lemma DispatchShape(s: State, cmd: Command)
    requires s.send.NotSending? && s.at.Idle?
    ensures Leaves(s, Dispatch(s, cmd)) && Dispatches(s, Dispatch(s, cmd))
  {
  }

  lemma TakeShape(s: State)
    requires s.send.NotSending? && (s.at.Taking? || s.at.FlushWaiting?)
    ensures Leaves(s, TakePendingExit(s)) && Takes(s, TakePendingExit(s))
  {
  }

  lemma DequeueShape(s: State, origin: Origin)
    requires s.send.NotSending? && s.outbox != [] && s.at == Resume(origin)
    ensures Leaves(s, Dequeue(s, Unsolicited(origin))) && Moves(s, Dequeue(s, Unsolicited(origin)))
  {
  }

  lemma ReceiveShape(s: State)
    requires s.send.NotSending? && TakeRequest(s).Some?
    ensures Leaves(s, TakeRequest(s).value) && Moves(s, TakeRequest(s).value)
  {
    match s.at
    case RoiLoop => DequeueShape(s, FromRoiLoop);
    case RoiDrain => DequeueShape(s, FromRoiDrain);
    case Idle => DequeueShape(s, FromIdle);
  }

  lemma StartupShape(s: State, a: Action)
    requires s.send.NotSending? && PointStep(s, a).Some? && (a.SendReady? || a.RoiDrainEnd?)
    ensures Leaves(s, PointStep(s, a).value) && Moves(s, PointStep(s, a).value)
  {
  }

  lemma PlainShape(s: State, a: Action)
    requires s.send.NotSending? && PointStep(s, a).Some? && KindOf(s, a).Moving? && !a.DrainPoll? && !a.ConfirmSent?
    ensures Leaves(s, PointStep(s, a).value) && Moves(s, PointStep(s, a).value)
  {
    if a.ReceiveRequest? {
      ReceiveShape(s);
    } else if a.SendReady? || a.RoiDrainEnd? {
      StartupShape(s, a);
    } else {
      assert a.RoiSettled? || a.RoiTimeout? || a.Disconnected? || a.Handed?;
    }
  }

  // ---------------------------------------------------------------------
  // Each kind of step keeps the invariant
  // ---------------------------------------------------------------------

  lemma MovesKeep(s: State, t: State)
    requires BarrierInv(s) && s.send.NotSending? && Leaves(s, t) && Moves(s, t)
    ensures BarrierInv(t)
  {
  }

  lemma ReportsKeep(s: State, t: State)
    requires BarrierInv(s) && s.send.NotSending? && Leaves(s, t) && Reports(s, t)
    ensures BarrierInv(t)
  {
  }

  lemma SignalsKeep(s: State, t: State)
    requires BarrierInv(s) && s.send.NotSending? && Leaves(s, t) && Signals(s, t)
    ensures BarrierInv(t)
  {
  }

  lemma DispatchesKeep(s: State, t: State)
    requires BarrierInv(s) && s.send.NotSending? && Leaves(s, t) && Dispatches(s, t)
    ensures BarrierInv(t)
  {
    assert t.received == s.received + [Last(t.received)];
    if !s.handler.Dormant? && s.handler.window.InDispatch? {
      var n := s.handler.window.n;
      if Announced(s.wire, s.received, n, s.handler.reason) {
        AnnouncedAfterCommand(s.wire, s.received, n, s.handler.reason, Last(t.received));
      }
    }
  }

  lemma TakesKeep(s: State, t: State)
    requires BarrierInv(s) && s.send.NotSending? && Leaves(s, t) && Takes(s, t)
    ensures BarrierInv(t)
  {
    if s.pendingExit.Some? && !s.writeFailed && IsStep(Last(s.received)) {
      assert ReplyAt(s.wire, |s.wire| - 1, s.received, |s.received|);
      assert RepliedLast(s.wire, s.received, |s.received|);
    }
  }

  lemma StartWritingKeepsBarrier(s: State)
    requires BarrierInv(s) && s.send.Queued?
    ensures BarrierInv(StartWriting(s))
  {
  }

  lemma AbandonedKeepsBarrier(s: State)
    requires BarrierInv(s) && s.send.Writing?
    ensures BarrierInv(WriteAbandoned(s))
  {
  }

  lemma RepliedLastStays(wire: seq<DutMessage>, received: seq<Command>, n: nat, entry: LogEntry)
    requires RepliedLast(wire, received, n)
    ensures RepliedLast(wire + [Log(entry)], received, n)
  {
    var i: nat :| ReplyAt(wire, i, received, n) && LogsBetween(wire, i + 1, |wire|);
    ReplyStays(wire, i, received, n, Log(entry));
  }

  lemma RepliedThenExiting(wire: seq<DutMessage>, received: seq<Command>, n: nat, reason: ExitReason)
    requires RepliedLast(wire, received, n)
    ensures Announced(wire + [Exiting(reason)], received, n, reason)
  {
    var i: nat :| ReplyAt(wire, i, received, n) && LogsBetween(wire, i + 1, |wire|);
    ReplyStays(wire, i, received, n, Exiting(reason));
    assert AnnouncedAt(wire + [Exiting(reason)], i, |wire|, received, n, reason);
  }

  lemma RecordKeepsDone(n: nat, reason: ExitReason, send: Send, pendingExit: Option<ExitReason>,
                        received: seq<Command>, wire: seq<DutMessage>, failed: bool, rest: Send, m: DutMessage)
    requires Done(n, reason, send, pendingExit, received, wire, failed)
    requires !SendsExiting(rest) && !m.Exiting?
    ensures Done(n, reason, rest, pendingExit, received, wire + [m], failed)
  {
    WireSnoc(wire, m);
    if Announced(wire, received, n, reason) {
      AnnouncedStays(wire, received, n, reason, m);
    }
  }

  lemma RecordKeepsFlying(n: nat, reason: ExitReason, at: Point, send: Send, pendingExit: Option<ExitReason>,
                          received: seq<Command>, wire: seq<DutMessage>, failed: bool, rest: Send, entry: LogEntry)
    requires Flying(n, reason, at, send, pendingExit, received, wire, failed)
    requires rest.Writing? && rest.msg == send.msg
    ensures Flying(n, reason, at, rest, pendingExit, received, wire + [Log(entry)], failed)
  {
    WireSnoc(wire, Log(entry));
    if RepliedLast(wire, received, n) {
      RepliedLastStays(wire, received, n, entry);
    }
  }

  lemma RecordKeepsExit(s: State)
    requires BarrierInv(s) && s.send.Writing? && s.send.records != []
    ensures var t := WrittenOne(s);
            ExitInv(t.at, t.send, t.handler, t.pendingExit, t.received, t.wire, t.writeFailed)
  {
    var entry := s.send.records[0];
    var rest := Writing(s.send.records[1..], s.send.msg);
    WireSnoc(s.wire, Log(entry));
    if !s.handler.Dormant? && s.handler.window.InDispatch? {
      var n, reason := s.handler.window.n, s.handler.reason;
      if Flying(n, reason, s.at, s.send, s.pendingExit, s.received, s.wire, s.writeFailed) {
        RecordKeepsFlying(n, reason, s.at, s.send, s.pendingExit, s.received, s.wire, s.writeFailed, rest, entry);
      } else if Done(n, reason, s.send, s.pendingExit, s.received, s.wire, s.writeFailed) {
        RecordKeepsDone(n, reason, s.send, s.pendingExit, s.received, s.wire, s.writeFailed, rest, Log(entry));
      }
    }
  }

  lemma ExitingLands(n: nat, reason: ExitReason, at: Point, send: Send, pendingExit: Option<ExitReason>,
                     received: seq<Command>, wire: seq<DutMessage>, failed: bool)
    requires Flying(n, reason, at, send, pendingExit, received, wire, failed)
    ensures Done(n, reason, NotSending, pendingExit, received, wire + [send.msg], failed)
  {
    assert send.msg == Exiting(reason);
    assert Exits(wire + [Exiting(reason)]) == [reason] by {
      WireSnoc(wire, Exiting(reason));
    }
    assert RepliedLast(wire, received, n) ==> Announced(wire + [Exiting(reason)], received, n, reason) by {
      if RepliedLast(wire, received, n) {
        RepliedThenExiting(wire, received, n, reason);
      }
    }
  }

  lemma ExitingKeepsExit(s: State)
    requires BarrierInv(s) && s.send.Writing? && s.send.records == [] && s.send.msg.Exiting?
    ensures var t := WrittenOne(s);
            ExitInv(t.at, t.send, t.handler, t.pendingExit, t.received, t.wire, t.writeFailed)
  {
    assert s.at.Settling? && SendsExiting(s.send);
    var n, reason := s.handler.window.n, s.handler.reason;
    assert Flying(n, reason, s.at, s.send, s.pendingExit, s.received, s.wire, s.writeFailed);
    ExitingLands(n, reason, s.at, s.send, s.pendingExit, s.received, s.wire, s.writeFailed);
  }

  lemma QuietMessageKeepsExit(at: Point, msg: DutMessage, handler: Handler, pendingExit: Option<ExitReason>,
                              received: seq<Command>, wire: seq<DutMessage>, failed: bool)
    requires ExitInv(at, Writing([], msg), handler, pendingExit, received, wire, failed) && !msg.Exiting?
    ensures ExitInv(at, NotSending, handler, pendingExit, received, wire + [msg], failed)
  {
    WireSnoc(wire, msg);
    if !handler.Dormant? && handler.window.InDispatch? {
      var n, reason, send := handler.window.n, handler.reason, Writing([], msg);
      if Done(n, reason, send, pendingExit, received, wire, failed) {
        RecordKeepsDone(n, reason, send, pendingExit, received, wire, failed, NotSending, msg);
      }
    }
  }

  lemma QuietKeepsExit(s: State)
    requires BarrierInv(s) && s.send.Writing? && s.send.records == [] && !s.send.msg.Exiting?
    ensures var t := WrittenOne(s);
            ExitInv(t.at, t.send, t.handler, t.pendingExit, t.received, t.wire, t.writeFailed)
  {
    QuietMessageKeepsExit(s.at, s.send.msg, s.handler, s.pendingExit, s.received, s.wire, s.writeFailed);
  }

  lemma MessageKeepsExit(s: State)
    requires BarrierInv(s) && s.send.Writing? && s.send.records == []
    ensures var t := WrittenOne(s);
            ExitInv(t.at, t.send, t.handler, t.pendingExit, t.received, t.wire, t.writeFailed)
  {
    if s.send.msg.Exiting? {
      ExitingKeepsExit(s);
    } else {
      QuietKeepsExit(s);
    }
  }

  /** The reply just written answers the last received command, and every
      earlier step command was answered before it. */
  lemma ReplyLands(s: State)
    requires WireInv(s.send, s.wire, s.committed, s.writeFailed) && AnswerInv(s.at, s.committed, s.received)
    requires WorksOn(s.at, s.received) && SendInv(s.at, s.send)
    requires s.at.Taking? && s.send.Writing? && !s.writeFailed
    ensures ReplyAt(s.wire + [s.send.msg], |s.wire|, s.received, |s.received|)
  {
    var cmd := Last(s.received);
    assert s.received == DropLast(s.received) + [cmd];
    CommandsSnoc(DropLast(s.received), cmd);
    VisibleProjects(s.wire);
    ReplySnoc(Visible(s.wire), s.send.msg);
    assert (s.wire + [s.send.msg])[..|s.wire|] == s.wire;
  }

  lemma WrittenRecordKeepsBarrier(s: State)
    requires BarrierInv(s) && s.send.Writing? && s.send.records != []
    ensures BarrierInv(WrittenOne(s))
  {
    RecordKeepsExit(s);
  }

  lemma WrittenMessageKeepsBarrier(s: State)
    requires BarrierInv(s) && s.send.Writing? && s.send.records == []
    requires WireInv(s.send, s.wire, s.committed, s.writeFailed) && AnswerInv(s.at, s.committed, s.received)
    ensures BarrierInv(WrittenOne(s))
  {
    MessageKeepsExit(s);
    if s.at.Taking? && !s.writeFailed {
      ReplyLands(s);
    }
  }

  lemma SendStepKeepsBarrier(s: State, a: Action)
    requires Inv(s) && BarrierInv(s) && SendStep(s, a).Some?
    ensures BarrierInv(SendStep(s, a).value)
  {
    if a.StartWrite? {
      StartWritingKeepsBarrier(s);
    } else if a.WriteFail? {
      AbandonedKeepsBarrier(s);
    } else if s.send.records == [] {
      WrittenMessageKeepsBarrier(s);
    } else {
      WrittenRecordKeepsBarrier(s);
    }
  }

  lemma EnvStepKeepsBarrier(s: State, a: Action)
    requires BarrierInv(s) && EnvStep(s, a).Some?
    ensures BarrierInv(EnvStep(s, a).value)
  {
  }

  lemma PointStepKeepsBarrier(s: State, a: Action)
    requires BarrierInv(s) && s.send.NotSending? && PointStep(s, a).Some?
    ensures BarrierInv(PointStep(s, a).value)
  {
    var t := PointStep(s, a).value;
    if a.DrainPoll? {
      PollShape(s);
      if t.at.Taking? { ReportsKeep(s, t); } else { MovesKeep(s, t); }
    } else if a.ConfirmSent? {
      ConfirmShape(s);
      if t.at.Taking? { ReportsKeep(s, t); } else { MovesKeep(s, t); }
    } else if a.ReceiveCommand? {
      DispatchShape(s, a.cmd);
      DispatchesKeep(s, t);
    } else if a.TakeExit? || a.FlushReason? || a.FlushTimeout? {
      TakeShape(s);
      TakesKeep(s, t);
    } else if a.Settle? {
      SignalsKeep(s, t);
    } else {
      PlainShape(s, a);
      MovesKeep(s, t);
    }
  }

  lemma BarrierStepKeeps(s: State, a: Action)
    requires Inv(s) && BarrierInv(s) && Step(s, a).Some?
    ensures BarrierInv(Step(s, a).value)
  {
    if IsEnvAction(a) {
      EnvStepKeepsBarrier(s, a);
    } else if s.send.NotSending? {
      PointStepKeepsBarrier(s, a);
    } else {
      SendStepKeepsBarrier(s, a);
    }
  }

  lemma {:induction false} BarrierHolds(from: State, acts: seq<Action>, to: State)
    requires Inv(from) && BarrierInv(from) && Leads(from, acts, to)
    ensures BarrierInv(to)
    decreases |acts|
  {
    if acts != [] {
      var mid := Step(from, acts[0]).value;
      StepKeeps(from, acts[0]);
      BarrierStepKeeps(from, acts[0]);
      BarrierHolds(mid, acts[1..], to);
    }
  }

  lemma ReachableBarrier(s: State)
    requires Reachable(s)
    ensures BarrierInv(s)
  {
    var acts :| Leads(INIT, acts, s);
    ReachableInv(INIT) by {
      assert Leads(INIT, [], INIT);
    }
    BarrierHolds(INIT, acts, s);
  }

  // ---------------------------------------------------------------------
  // Main results
  // ---------------------------------------------------------------------

  /** In every interleaving, if the settled signal (not its timer) released the
      handler and every write succeeded, the reason is on the wire exactly when
      it was marked inside a dispatch window. Marked during a step command, it
      follows that command's reply with only log records between. */
  lemma ReleasedMeansAnnounced(s: State)
    requires Reachable(s) && s.handler.Released? && !s.writeFailed
    ensures Exits(s.wire) == if s.handler.window.InDispatch? then [s.handler.reason] else []
    ensures match s.handler.window
            case Outside => true
            case InDispatch(n) =>
              && 1 <= n <= |s.received|
              && (IsStep(s.received[n - 1]) ==> Announced(s.wire, s.received, n, s.handler.reason))
  {
    ReachableBarrier(s);
  }

  /** A signal left over from an earlier dispatch cannot release a handler that
      marked its reason inside the current one, failed writes or not. */
  lemma StaleSignalCannotRelease(s: State)
    requires Reachable(s) && s.handler.Waiting? && s.handler.window == InDispatch(|s.received|)
    requires InWindow(s.at) || s.at.Settling?
    ensures Step(s, HandlerWake).None?
  {
    ReachableBarrier(s);
  }

  lemma AtMostOneExit(at: Point, send: Send, handler: Handler, pendingExit: Option<ExitReason>,
                      received: seq<Command>, wire: seq<DutMessage>, failed: bool)
    requires ExitInv(at, send, handler, pendingExit, received, wire, failed)
    ensures |Exits(wire)| <= 1
    ensures Exits(wire) != [] ==> !handler.Dormant? && handler.window.InDispatch? && Exits(wire)[0] == handler.reason
  {
  }

  /** A reason is announced at most once, and only one that was marked in a window. */
  lemma AnnouncedAtMostOnce(s: State)
    requires Reachable(s)
    ensures |Exits(s.wire)| <= 1
    ensures Exits(s.wire) != [] ==>
              !s.handler.Dormant? && s.handler.window.InDispatch? && Exits(s.wire)[0] == s.handler.reason
  {
    ReachableBarrier(s);
    AtMostOneExit(s.at, s.send, s.handler, s.pendingExit, s.received, s.wire, s.writeFailed);
  }

  // ---------------------------------------------------------------------
  // The window is needed
  // ---------------------------------------------------------------------

  lemma {:induction false} LeadsSnoc(from: State, acts: seq<Action>, mid: State, a: Action)
    requires Leads(from, acts, mid) && Step(mid, a).Some?
    ensures Leads(from, acts + [a], Step(mid, a).value)
    decreases |acts|
  {
    if acts == [] {
      assert Leads(Step(mid, a).value, [], Step(mid, a).value);
    } else {
      LeadsSnoc(Step(from, acts[0]).value, acts[1..], mid, a);
      assert (acts + [a])[1..] == acts[1..] + [a];
    }
  }

  lemma Taken(s: State, a: Action) returns (t: State)
    requires Reachable(s) && Step(s, a).Some?
    ensures Reachable(t) && Step(s, a) == Some(t)
  {
    t := Step(s, a).value;
    var acts :| Leads(INIT, acts, s);
    LeadsSnoc(INIT, acts, s, a);
  }

  lemma Sent(s: State) returns (t: State)
    requires Reachable(s) && s.alive && s.send.Queued? && s.log == LogQueue.EMPTY
    ensures Reachable(t)
    ensures t == s.(send := NotSending, wire := s.wire + [s.send.msg], logOps := s.logOps + [LogQueue.Drain])
  {
    t := Taken(s, StartWrite);
    t := Taken(t, WriteOk);
  }

  lemma Started() returns (s: State)
    ensures Reachable(s) && s.alive && s.at.Idle? && s.send.NotSending? && s.outbox == [] && s.pendingExit.None?
    ensures s.handler.Dormant? && !s.writeFailed && s.log == LogQueue.EMPTY
  {
    assert Leads(INIT, [], INIT);
    s := Taken(INIT, SendReady);
    s := Sent(s);
    s := Taken(s, RoiTimeout);
    s := Taken(s, RoiDrainEnd);
    s := Sent(s);
  }

  predicate Calm(s: State) {
    s.alive && s.handler.Dormant? && !s.writeFailed && s.pendingExit.None? && s.outbox == [] && s.log == LogQueue.EMPTY
  }

  lemma EmptyPoll(s: State) returns (t: State)
    requires Reachable(s) && Calm(s) && s.at.Draining? && s.send.NotSending?
    ensures Reachable(t) && Calm(t)
    ensures var Draining(seqNo, frames, quiet, iters) := s.at;
            (t.send.NotSending? && t.at == Draining(seqNo, frames, quiet + 1, iters + 1) && quiet + 1 < YIELDS_PER_POLL)
            || (t.at == Taking(seqNo) && t.send.Queued?)
  {
    t := Taken(s, DrainPoll);
  }

  lemma DrainedCalmly(s: State) returns (t: State)
    requires Reachable(s) && Calm(s) && s.at.Draining? && s.send.NotSending?
    ensures Reachable(t) && Calm(t) && t.at.Taking? && t.send.Queued?
    decreases YIELDS_PER_POLL - s.at.quiet
  {
    t := EmptyPoll(s);
    if t.at.Draining? {
      t := DrainedCalmly(t);
    }
  }

  lemma FirstStepDrained() returns (s: State)
    ensures Reachable(s) && Calm(s) && s.at.Taking? && s.send.Queued?
  {
    s := Started();
    s := Taken(s, ReceiveCommand(Inject(7, false)));
    s := DrainedCalmly(s);
  }

  lemma FirstStepSettled() returns (s: State)
    ensures Reachable(s) && s.alive && s.at.Idle? && s.send.NotSending? && s.stepSettled
    ensures s.handler.Dormant? && !s.writeFailed
  {
    s := FirstStepDrained();
    s := Sent(s);
    s := Taken(s, TakeExit);
    s := Taken(s, Settle);
  }

  /** Marked between two dispatches, a handler can be released at once by the
      signal of the finished step, with nothing announced. */
  lemma MarkedOutsideGoesUnannounced(reason: ExitReason) returns (s: State)
    ensures Reachable(s) && s.handler == Released(reason, Outside) && !s.writeFailed && Exits(s.wire) == []
  {
    s := FirstStepSettled();
    s := Taken(s, MarkPendingExit(reason));
    s := Taken(s, HandlerWake);
    ReachableBarrier(s);
  }
}
