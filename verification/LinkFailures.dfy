/**
 What survives of the link's guarantees when writes fail. A failed write abandons
 one message, or what was left of it, and the link goes on: what is on the wire
 is then what the link set out to send with some messages left out, never with
 one repeated, invented or out of order. `Ready` cannot be among those left out.
 */
module LinkFailures {
  import opened Wrappers
  import opened IpcTypes
  import opened LinkProtocol
  import opened LinkConservation

  /** The protocol messages written, and the one being sent. */
  function Sent(s: State): seq<DutMessage> {
    Visible(s.wire) + InFlight(s.send)
  }

  predicate ReadyFirst(sent: seq<DutMessage>) {
    forall k :: 0 <= k < |sent| ==> (sent[k].Ready? <==> k == 0)
  }

  ghost predicate SentInv(s: State) {
    && Subsequence(Sent(s), s.committed)
    && ReadyFirst(Sent(s))
    && (s.alive ==> (s.at.Boot? <==> Sent(s) == []))
    && (s.at.Boot? ==> Sent(s) == [])
  }

  // ---------------------------------------------------------------------
  // Subsequences
  // ---------------------------------------------------------------------

  lemma {:induction false} SubsequenceExtend<T>(a: seq<T>, b: seq<T>, more: seq<T>)
    requires Subsequence(a, b)
    ensures Subsequence(a, b + more)
    decreases |more|
  {
    if more == [] {
      assert b + more == b;
    } else {
      SubsequenceExtend(a, b, DropLast(more));
      SubsequenceWeaken(a, b + DropLast(more), Last(more));
      assert b + more == b + DropLast(more) + [Last(more)];
    }
  }

  lemma SubsequenceInit<T>(a: seq<T>, x: T, b: seq<T>)
    requires Subsequence(a + [x], b)
    ensures Subsequence(a, b)
  {
    SubsequenceDelete(a + [x], b, |a|);
    assert (a + [x])[..|a|] + (a + [x])[|a| + 1..] == a;
  }

  /** Appending at most one element to both, or to the longer alone. */
  lemma SubsequencePart<T>(a: seq<T>, b: seq<T>, part: seq<T>)
    requires Subsequence(a, b) && |part| <= 1
    ensures Subsequence(a, b + part) && Subsequence(a + part, b + part)
  {
    if part == [] {
      assert a + part == a && b + part == b;
    } else {
      assert part == [part[0]];
      SubsequenceWeaken(a, b, part[0]);
      SubsequenceSnoc(a, b, part[0]);
    }
  }

  /** Leaving messages out leaves their numbers and replies out, and changes no order. */
  lemma {:induction false} SubsequenceProjects(v: seq<DutMessage>, w: seq<DutMessage>)
    requires Subsequence(v, w)
    ensures Subsequence(StepSeqs(v), StepSeqs(w))
    ensures Subsequence(FrameSeqs(v), FrameSeqs(w))
    ensures Subsequence(Replies(v), Replies(w))
    decreases |w|
  {
    if v != [] {
      var m := Last(w);
      var shorter := if Subsequence(v, DropLast(w)) then v else DropLast(v);
      SubsequenceProjects(shorter, DropLast(w));
      SubsequencePart(StepSeqs(shorter), StepSeqs(DropLast(w)), StepSeqPart(m));
      SubsequencePart(FrameSeqs(shorter), FrameSeqs(DropLast(w)), FrameSeqPart(m));
      SubsequencePart(Replies(shorter), Replies(DropLast(w)), ReplyPart(m));
    }
  }

  lemma {:induction false} SubsequenceMembers<T>(a: seq<T>, b: seq<T>, i: nat)
    requires Subsequence(a, b) && i < |a|
    ensures a[i] in b
    decreases |b|
  {
    if Subsequence(a, DropLast(b)) {
      SubsequenceMembers(a, DropLast(b), i);
    } else if i < |a| - 1 {
      SubsequenceMembers(DropLast(a), DropLast(b), i);
    }
  }

  // ---------------------------------------------------------------------
  // The order of the startup messages
  // ---------------------------------------------------------------------

  predicate NeedsStartup(m: DutMessage) {
    m.StepComplete? || m.Exiting?
  }

  predicate NothingStarted(w: seq<DutMessage>) {
    forall i :: 0 <= i < |w| ==> !NeedsStartup(w[i])
  }

  predicate AnnouncedInTime(w: seq<DutMessage>) {
    forall i, j :: 0 <= i < j < |w| && w[j] == RoiComplete ==> !NeedsStartup(w[i])
  }

  lemma {:induction false} NothingWhileScanning(w: seq<DutMessage>)
    requires StageOf(w).Silent? || StageOf(w).Scanning?
    ensures NothingStarted(w)
  {
    if w != [] {
      NothingWhileScanning(DropLast(w));
    }
  }

  lemma {:induction false} StagesAnnounceInTime(w: seq<DutMessage>)
    requires StageOf(w) != Broken
    ensures AnnouncedInTime(w)
  {
    if w != [] {
      StagesAnnounceInTime(DropLast(w));
      if Last(w) == RoiComplete {
        NothingWhileScanning(DropLast(w));
      }
    }
  }

  /** Leaving messages out brings none forward. */
  lemma {:induction false} SubsequenceInTime(v: seq<DutMessage>, w: seq<DutMessage>)
    requires Subsequence(v, w) && AnnouncedInTime(w)
    ensures AnnouncedInTime(v)
    decreases |w|
  {
    if v == [] {
    } else if Subsequence(v, DropLast(w)) {
      SubsequenceInTime(v, DropLast(w));
    } else {
      SubsequenceInTime(DropLast(v), DropLast(w));
      forall i | 0 <= i < |v| - 1 && Last(v) == RoiComplete ensures !NeedsStartup(v[i]) {
        SubsequenceMembers(DropLast(v), DropLast(w), i);
      }
    }
  }

  // ---------------------------------------------------------------------
  // Each kind of step
  // ---------------------------------------------------------------------

  lemma WrittenKeepsSent(s: State)
    requires SentInv(s) && s.alive && s.send.Writing? && !s.send.msg.Log?
    ensures SentInv(WrittenOne(s))
  {
    var Writing(records, msg) := s.send;
    if records != [] {
      WireSnoc(s.wire, Log(records[0]));
    } else {
      WireSnoc(s.wire, msg);
    }
    assert Sent(WrittenOne(s)) == Sent(s);
  }

  /** The message in flight is lost. The link lives on only if `Ready` went out before it. */
  lemma AbandonedKeepsSent(s: State)
    requires SentInv(s) && s.alive && s.send.Writing?
    ensures SentInv(WriteAbandoned(s))
  {
    SubsequenceInit(Visible(s.wire), s.send.msg, s.committed);
    assert Sent(WriteAbandoned(s)) == Visible(s.wire);
    assert Last(Sent(s)) == s.send.msg == Sent(s)[|Visible(s.wire)|];
    assert forall k :: 0 <= k < |Visible(s.wire)| ==> Visible(s.wire)[k] == Sent(s)[k];
  }

  lemma SendStepKeepsSent(s: State, a: Action)
    requires SocketInv(s) && SentInv(s) && s.alive && !s.send.NotSending? && SendStep(s, a).Some?
    ensures SentInv(SendStep(s, a).value)
  {
    match a
    case StartWrite => assert Sent(StartWriting(s)) == Sent(s);
    case WriteOk => WrittenKeepsSent(s);
    case WriteFail => AbandonedKeepsSent(s);
  }

  /** A step between two sends commits to nothing, or to one message that it sends next: `Ready`, if it is the first. */
  predicate Commits(s: State, t: State) {
    && t.wire == s.wire && !t.at.Boot? && (t.alive ==> s.alive)
    && if t.send.Queued? then t.committed == s.committed + [t.send.msg] && (t.send.msg.Ready? <==> s.at.Boot?)
       else t.send == s.send && t.committed == s.committed && !s.at.Boot?
  }

  lemma UnsolicitedCommits(s: State)
    requires s.send.NotSending? && s.at.Confirming? && s.at.owner.Unsolicited?
    ensures Commits(s, Confirmed(s))
  {
  }

  lemma InStepCommits(s: State)
    requires s.send.NotSending? && s.at.Confirming? && s.at.owner.InStep?
    ensures Commits(s, Confirmed(s))
  {
  }

  lemma PollCommits(s: State)
    requires s.send.NotSending? && s.at.Draining?
    ensures Commits(s, PollOutbox(s))
  {
  }

  lemma TakeCommits(s: State)
    requires s.send.NotSending? && !s.at.Boot?
    ensures Commits(s, TakePendingExit(s))
  {
  }

  lemma ReceiveCommits(s: State)
    requires s.send.NotSending? && TakeRequest(s).Some?
    ensures Commits(s, TakeRequest(s).value)
  {
  }

  lemma PointStepCommits(s: State, a: Action)
    requires s.send.NotSending? && PointStep(s, a).Some?
    ensures Commits(s, PointStep(s, a).value)
  {
    match a
    case ConfirmSent => if s.at.owner.InStep? { InStepCommits(s); } else { UnsolicitedCommits(s); }
    case DrainPoll => PollCommits(s);
    case ReceiveRequest => ReceiveCommits(s);
    case TakeExit | FlushReason => TakeCommits(s);
    case _ =>
  }

  lemma CommitKeepsSent(s: State, t: State)
    requires SentInv(s) && s.alive && s.send.NotSending? && Commits(s, t)
    ensures SentInv(t)
  {
    assert Sent(s) == Visible(s.wire);
    if t.send.Queued? {
      SubsequenceSnoc(Sent(s), s.committed, t.send.msg);
      assert Sent(t) == Sent(s) + [t.send.msg];
    } else {
      assert Sent(t) == Sent(s);
    }
  }

  lemma EnvStepKeepsSent(s: State, a: Action)
    requires SentInv(s) && EnvStep(s, a).Some?
    ensures SentInv(EnvStep(s, a).value)
  {
    assert Sent(EnvStep(s, a).value) == Sent(s);
  }

  /** Every step keeps the relation between what was sent and what was meant to be, write failures included. */
  lemma SentStepKeeps(s: State, a: Action)
    requires SocketInv(s) && SentInv(s) && Step(s, a).Some?
    ensures SentInv(Step(s, a).value)
  {
    if IsEnvAction(a) {
      EnvStepKeepsSent(s, a);
    } else if s.send.NotSending? {
      PointStepCommits(s, a);
      CommitKeepsSent(s, PointStep(s, a).value);
    } else {
      SendStepKeepsSent(s, a);
    }
  }

  lemma {:induction false} SentHolds(from: State, acts: seq<Action>, to: State)
    requires Inv(from) && SentInv(from) && Leads(from, acts, to)
    ensures SentInv(to)
    decreases |acts|
  {
    if acts != [] {
      StepKeeps(from, acts[0]);
      SentStepKeeps(from, acts[0]);
      SentHolds(Step(from, acts[0]).value, acts[1..], to);
    }
  }

  lemma ReachableSent(s: State)
    requires Reachable(s)
    ensures SentInv(s)
  {
    var acts :| Leads(INIT, acts, s);
    assert ReportAll([]) == [] && Numbers(0) == [];
    SentHolds(INIT, acts, s);
  }

  // ---------------------------------------------------------------------
  // Main results
  // ---------------------------------------------------------------------

  lemma CommittedOnWire(s: State)
    requires Reachable(s)
    ensures Subsequence(Visible(s.wire), s.committed)
  {
    ReachableSent(s);
    if s.send.NotSending? {
      assert Sent(s) == Visible(s.wire);
    } else {
      SubsequenceInit(Visible(s.wire), s.send.msg, s.committed);
    }
  }

  lemma CommittedProjects(s: State)
    requires Reachable(s)
    ensures StepSeqs(s.committed) + OpenSeq(s.at) == CommandSeqs(s.received)
    ensures FrameSeqs(s.committed) == Numbers(|FrameSeqs(s.committed)|) && Replies(s.committed) == ReportAll(s.batches)
  {
    ReachableInv(s);
  }

  /** In every run, whichever writes fail: no reply is repeated, invented or out of order, with at
      most one for each step command; frame numbers keep their order and none is used twice; and
      each batch on the wire is one of those taken from the outbox, at its place among them. */
  lemma NothingRepeatedOrReordered(s: State)
    requires Reachable(s)
    ensures Subsequence(Visible(s.wire), s.committed)
    ensures Subsequence(StepSeqs(s.wire), CommandSeqs(s.received))
    ensures Subsequence(FrameSeqs(s.wire), Numbers(|FrameSeqs(s.committed)|))
    ensures Subsequence(Replies(s.wire), ReportAll(s.batches))
  {
    CommittedOnWire(s);
    CommittedProjects(s);
    SubsequenceProjects(Visible(s.wire), s.committed);
    VisibleProjects(s.wire);
    SubsequenceExtend(StepSeqs(s.wire), StepSeqs(s.committed), OpenSeq(s.at));
  }

  /** In every run, whichever writes fail, `Ready` is the first protocol message and is not repeated. */
  lemma ReadyComesFirst(s: State, k: nat)
    requires Reachable(s) && k < |Visible(s.wire)|
    ensures Visible(s.wire)[k].Ready? <==> k == 0
  {
    ReachableSent(s);
    assert Visible(s.wire)[k] == Sent(s)[k];
  }

  lemma CommittedIsStaged(s: State)
    requires Reachable(s)
    ensures StageOf(s.committed) != Broken
  {
    ReachableInv(s);
  }

  /** In every run, whichever writes fail, a `RoiComplete` that is written precedes every `StepComplete`
      and every `Exiting`. */
  lemma RoiCompleteInTime(s: State, i: nat, j: nat)
    requires Reachable(s) && i < j < |Visible(s.wire)| && Visible(s.wire)[j] == RoiComplete
    ensures !Visible(s.wire)[i].StepComplete? && !Visible(s.wire)[i].Exiting?
  {
    CommittedIsStaged(s);
    CommittedOnWire(s);
    StagesAnnounceInTime(s.committed);
    SubsequenceInTime(Visible(s.wire), s.committed);
    assert !NeedsStartup(Visible(s.wire)[i]);
  }
}
