/** The messages a DUT and the runner exchange (conformance/src/ipc/protocol.rs). */
module IpcTypes {
  import opened Wrappers

  /** One past the largest `u32`: both frame counters wrap here. */
  const U32: nat := 0x1_0000_0000

  datatype ExitReason =
    | RestartExit(eraseCode: Option<nat>)
    | PowerCycleExit
    | MasterResetExit(code: nat)

  datatype CapturedFrame = CapturedFrame(serviceType: nat, data: seq<bv8>)

  /** A forwarded record, or the report that stands in for records the queue dropped. */
  datatype LogEntry =
    | Record(level: nat, target: string, message: string)
    | DropReport(count: nat)

  datatype DutMessage =
    | Ready
    | RoiComplete
    | StepComplete(seqNo: nat, frames: seq<CapturedFrame>)
    | UnsolicitedFrame(frameSeq: nat, frame: CapturedFrame)
    | Exiting(reason: ExitReason)
    | Log(entry: LogEntry)

  /** Commands. The payload of a step command never steers the link, so only
      what the dispatch looks at is kept: the sequence number and, for an
      injected frame, whether the address filter accepted it. */
  datatype Command =
    | Inject(seqNo: nat, accepted: bool)
    | Forward(seqNo: nat)
    | PowerCycle
    | MasterReset(code: nat)

  predicate IsStep(c: Command) {
    c.Inject? || c.Forward?
  }

  // Projections of a message trace, one message at a time.

  function LogPart(m: DutMessage): seq<LogEntry> {
    if m.Log? then [m.entry] else []
  }

  function StepSeqPart(m: DutMessage): seq<nat> {
    if m.StepComplete? then [m.seqNo] else []
  }

  function FrameSeqPart(m: DutMessage): seq<nat> {
    if m.UnsolicitedFrame? then [m.frameSeq] else []
  }

  function ReplyPart(m: DutMessage): seq<seq<CapturedFrame>> {
    match m
    case StepComplete(_, frames) => [frames]
    case UnsolicitedFrame(_, frame) => [[frame]]
    case _ => []
  }

  function ExitPart(m: DutMessage): seq<ExitReason> {
    if m.Exiting? then [m.reason] else []
  }

  /** The commands that are answered: an injected frame and those forwarded as a step. */
  function CommandSeqPart(c: Command): seq<nat> {
    match c
    case Inject(seqNo, _) => [seqNo]
    case Forward(seqNo) => [seqNo]
    case _ => []
  }

  /** The protocol messages of a trace, without the log records between them. */
  function Visible(w: seq<DutMessage>): seq<DutMessage> {
    if w == [] then [] else Visible(DropLast(w)) + (if Last(w).Log? then [] else [Last(w)])
  }

  function Logs(w: seq<DutMessage>): seq<LogEntry> {
    if w == [] then [] else Logs(DropLast(w)) + LogPart(Last(w))
  }

  function StepSeqs(w: seq<DutMessage>): seq<nat> {
    if w == [] then [] else StepSeqs(DropLast(w)) + StepSeqPart(Last(w))
  }

  function FrameSeqs(w: seq<DutMessage>): seq<nat> {
    if w == [] then [] else FrameSeqs(DropLast(w)) + FrameSeqPart(Last(w))
  }

  function Replies(w: seq<DutMessage>): seq<seq<CapturedFrame>> {
    if w == [] then [] else Replies(DropLast(w)) + ReplyPart(Last(w))
  }

  function Exits(w: seq<DutMessage>): seq<ExitReason> {
    if w == [] then [] else Exits(DropLast(w)) + ExitPart(Last(w))
  }

  function CommandSeqs(cs: seq<Command>): seq<nat> {
    if cs == [] then [] else CommandSeqs(DropLast(cs)) + CommandSeqPart(Last(cs))
  }

  lemma WireSnoc(w: seq<DutMessage>, m: DutMessage)
    ensures Visible(w + [m]) == Visible(w) + (if m.Log? then [] else [m])
    ensures Logs(w + [m]) == Logs(w) + LogPart(m)
    ensures Exits(w + [m]) == Exits(w) + ExitPart(m)
  {
    assert DropLast(w + [m]) == w;
  }

  lemma ReplySnoc(w: seq<DutMessage>, m: DutMessage)
    ensures StepSeqs(w + [m]) == StepSeqs(w) + StepSeqPart(m)
    ensures FrameSeqs(w + [m]) == FrameSeqs(w) + FrameSeqPart(m)
    ensures Replies(w + [m]) == Replies(w) + ReplyPart(m)
  {
    assert DropLast(w + [m]) == w;
  }

  lemma CommandsSnoc(cs: seq<Command>, c: Command)
    ensures CommandSeqs(cs + [c]) == CommandSeqs(cs) + CommandSeqPart(c)
  {
    assert DropLast(cs + [c]) == cs;
  }

  /** Log records carry no protocol content. */
  lemma {:induction false} VisibleProjects(w: seq<DutMessage>)
    ensures StepSeqs(Visible(w)) == StepSeqs(w)
    ensures FrameSeqs(Visible(w)) == FrameSeqs(w)
    ensures Replies(Visible(w)) == Replies(w)
  {
    if w != [] {
      VisibleProjects(DropLast(w));
      if Last(w).Log? {
        assert Visible(w) == Visible(DropLast(w));
      } else {
        ReplySnoc(Visible(DropLast(w)), Last(w));
      }
    }
  }

  lemma {:induction false} PrefixProjects(v: seq<DutMessage>, w: seq<DutMessage>)
    requires v <= w
    ensures StepSeqs(v) <= StepSeqs(w) && FrameSeqs(v) <= FrameSeqs(w) && Replies(v) <= Replies(w)
    decreases |w|
  {
    if |v| < |w| {
      PrefixProjects(v, DropLast(w));
    } else {
      assert v == w;
    }
  }
}
