/**
 When the link goes on: what it hands to the stack, when a step's reply is due,
 and when startup is over. The counters of the drain loop are compared with the
 polls of the run itself.
 */
module LinkDrain {
  import opened Wrappers
  import opened IpcTypes
  import opened LinkProtocol
  import opened LinkConservation

  // ---------------------------------------------------------------------
  // Steps
  // ---------------------------------------------------------------------

  /** The polls at the end of a run that found the outbox empty, after `before` such polls. */
  function EmptyPolls(s: State, acts: seq<Action>, before: nat): nat
    decreases |acts|
  {
    if acts == [] || Step(s, acts[0]).None? then before
    else
      var now := if !acts[0].DrainPoll? then before else if s.outbox == [] then before + 1 else 0;
      EmptyPolls(Step(s, acts[0]).value, acts[1..], now)
  }

  function QuietOf(s: State): nat {
    if s.at.Draining? then s.at.quiet else 0
  }

  /** The polls of the drain so far, by the link's own count. */
  function CountOf(s: State): nat {
    if s.at.Draining? then s.at.iters else if s.at.Confirming? && s.at.owner.InStep? then s.at.owner.iters + 1 else 0
  }

  predicate CountsOne(s: State, a: Action, t: State) {
    && CountOf(t) == CountOf(s) + (if a.DrainPoll? then 1 else 0)
    && QuietOf(t) == if !a.DrainPoll? then QuietOf(s) else if s.outbox == [] then QuietOf(s) + 1 else 0
  }

  lemma PollCounts(s: State)
    requires s.at.Draining? && InDrain(PollOutbox(s))
    ensures CountsOne(s, DrainPoll, PollOutbox(s))
  {
  }

  lemma ConfirmCounts(s: State)
    requires s.at.Confirming? && s.at.owner.InStep? && InDrain(Confirmed(s))
    ensures CountsOne(s, ConfirmSent, Confirmed(s))
  {
  }

  lemma StepCounts(s: State, a: Action)
    requires InDrain(s) && Step(s, a).Some? && InDrain(Step(s, a).value)
    ensures CountsOne(s, a, Step(s, a).value)
  {
    if IsEnvAction(a) {
      EnvStepStaysPut(s, a);
    } else if s.send.NotSending? {
      if a.DrainPoll? {
        PollCounts(s);
      } else {
        assert a.ConfirmSent?;
        ConfirmCounts(s);
      }
    } else {
      SendStepTouches(s, a);
    }
  }

  lemma {:induction false} DrainCounts(s: State, acts: seq<Action>, t: State)
    requires DrainRun(s, acts) && Leads(s, acts, t) && InDrain(t)
    ensures CountOf(t) == CountOf(s) + Polls(acts) && QuietOf(t) == EmptyPolls(s, acts, QuietOf(s))
    decreases |acts|
  {
    if acts != [] {
      var mid := Step(s, acts[0]).value;
      assert InDrain(mid) by {
        if acts[1..] == [] {
          assert mid == t;
        }
      }
      StepCounts(s, acts[0]);
      DrainCounts(mid, acts[1..], t);
    }
  }

  /** However the other tasks interleave: a poll ends the step if and only if it finds nothing and an exit is marked, or
      it is the eighth in a row that finds nothing, or the 128th of the step. */
  lemma StepEndsPatiently(s: State, acts: seq<Action>, t: State)
    requires s.at.Draining? && s.at.quiet == s.at.iters == 0 && DrainRun(s, acts) && Leads(s, acts, t)
    requires t.at.Draining? && Step(t, DrainPoll).Some?
    ensures Step(t, DrainPoll).value.at.Taking?
            <==> t.outbox == [] && (t.pendingExit.Some? || EmptyPolls(s, acts, 0) + 1 >= 8 || Polls(acts) + 1 >= 128)
  {
    DrainCounts(s, acts, t);
  }

  /** A confirmed request ends the step if and only if it was found by the 128th poll. */
  lemma CapEndsStep(s: State, acts: seq<Action>, t: State)
    requires s.at.Draining? && s.at.quiet == s.at.iters == 0 && DrainRun(s, acts) && Leads(s, acts, t)
    requires t.at.Confirming? && t.at.owner.InStep? && t.send.NotSending? && t.alive
    ensures Step(t, ConfirmSent).value.at.Taking? <==> Polls(acts) >= 128
  {
    DrainCounts(s, acts, t);
  }

  // ---------------------------------------------------------------------
  // Handing on
  // ---------------------------------------------------------------------

  /** A frame the address filter rejected. */
  predicate Filtered(cmd: Command) {
    cmd.Inject? && !cmd.accepted
  }

  predicate HandInv(s: State) {
    s.at.Handing? ==> !Filtered(s.at.cmd) && s.received != [] && Last(s.received) == s.at.cmd
  }

  lemma HandStepKeeps(s: State, a: Action)
    requires HandInv(s) && Step(s, a).Some?
    ensures HandInv(Step(s, a).value)
  {
    if !IsEnvAction(a) && !s.send.NotSending? {
      SendStepTouches(s, a);
    }
  }

  lemma {:induction false} HandHolds(from: State, acts: seq<Action>, to: State)
    requires HandInv(from) && Leads(from, acts, to)
    ensures HandInv(to)
    decreases |acts|
  {
    if acts != [] {
      HandStepKeeps(from, acts[0]);
      HandHolds(Step(from, acts[0]).value, acts[1..], to);
    }
  }

  /** In every run only the last command received is handed on, and never a filtered frame; a command that is
      received is handed on, or it is filtered and drained for at once. */
  lemma FilteredAreNotHandedOn(s: State, cmd: Command)
    requires Reachable(s)
    ensures s.at.Handing? ==> !Filtered(s.at.cmd) && s.received != [] && Last(s.received) == s.at.cmd
    ensures Step(s, ReceiveCommand(cmd)).Some? ==>
              var t := Step(s, ReceiveCommand(cmd)).value;
              if cmd.Inject? && !cmd.accepted then t.at == Draining(cmd.seqNo, [], 0, 0) else t.at == Handing(cmd)
  {
    var acts :| Leads(INIT, acts, s);
    HandHolds(INIT, acts, s);
  }

  // ---------------------------------------------------------------------
  // Startup
  // ---------------------------------------------------------------------

  lemma QueueSplits(s: State)
    requires Reachable(s) && !s.at.Draining? && !s.at.Confirming?
    ensures s.enqueued == Flatten(s.batches) + s.outbox && Replies(s.committed) == ReportAll(s.batches)
  {
    ReachableInv(s);
    NothingOpen(s);
    assert Flatten(s.batches) + [] == Flatten(s.batches);
  }

  /** When startup is declared over, nothing is left in the outbox: every request so far was reported. */
  lemma StartupLeavesNothing(s: State)
    requires Reachable(s) && Step(s, RoiDrainEnd).Some?
    ensures s.outbox == [] && s.enqueued == Flatten(s.batches) && Replies(s.committed) == ReportAll(s.batches)
  {
    assert s.at.RoiDrain?;
    QueueSplits(s);
    assert Flatten(s.batches) + [] == Flatten(s.batches);
  }
}
