/**
 Running the selected suites (conformance/src/engine.rs, `run_suites`): suite
 preparation, cases, suite teardown, and the tally. What a step does is left
 open: `oracle(n)` is the outcome of the n-th step the run attempts, a template
 that fails to resolve counting as a failed step.
 */
module SuiteRun {
  import opened Wrappers
  import opened SuiteSelection

  type Oracle = nat -> bool

  /** One step list as it was run: the number of its first step in the whole run, and the outcomes. */
  datatype PhaseRun = PhaseRun(start: nat, outcomes: seq<bool>)

  datatype CaseRun = CaseRun(index: nat, preparation: PhaseRun, steps: PhaseRun, teardown: PhaseRun)

  datatype SuiteRun = SuiteRun(suite: nat, preparation: PhaseRun, cases: seq<CaseRun>, teardown: PhaseRun)

  datatype Summary = Summary(
    suites: nat,
    tests: nat,
    passed: nat,
    failed: nat,
    blocked: nat,
    preparationFailed: nat,
    teardownFailed: nat,
    steps: nat
  )

  /** `exit_code` is SUCCESS. */
  predicate Succeeds(sum: Summary) {
    sum.failed == 0 && sum.preparationFailed == 0 && sum.teardownFailed == 0
  }

  // ---------------------------------------------------------------------
  // What a run must look like
  // ---------------------------------------------------------------------

  function End(p: PhaseRun): nat {
    p.start + |p.outcomes|
  }

  predicate Ok(p: PhaseRun) {
    forall i :: 0 <= i < |p.outcomes| ==> p.outcomes[i]
  }

  predicate CaseOk(c: CaseRun) {
    Ok(c.preparation) && Ok(c.steps) && Ok(c.teardown)
  }

  /** All `count` steps were attempted, one after the other from step `start` of the run. */
  predicate RanAll(p: PhaseRun, start: nat, count: nat, oracle: Oracle) {
    p.start == start && |p.outcomes| == count && forall i :: 0 <= i < count ==> p.outcomes[i] == oracle(start + i)
  }

  predicate CaseRan(c: CaseRun, case_: TestCase, start: nat, oracle: Oracle) {
    && RanAll(c.preparation, start, case_.preparation, oracle)
    && RanAll(c.steps, End(c.preparation), case_.steps, oracle)
    && RanAll(c.teardown, End(c.steps), case_.teardown, oracle)
  }

  function CasesEnd(cases: seq<CaseRun>, start: nat): nat {
    if cases == [] then start else End(Last(cases).teardown)
  }

  predicate CasesRan(cases: seq<CaseRun>, suite: TestSuite, start: nat, oracle: Oracle) {
    forall k :: 0 <= k < |cases| ==>
      && cases[k].index < |suite.cases|
      && CaseRan(cases[k], suite.cases[cases[k].index], CasesEnd(cases[..k], start), oracle)
  }

  predicate SuiteRan(r: SuiteRun, suites: seq<TestSuite>, start: nat, oracle: Oracle) {
    && r.suite < |suites|
    && RanAll(r.preparation, start, suites[r.suite].preparation, oracle)
    && CasesRan(r.cases, suites[r.suite], End(r.preparation), oracle)
    && RanAll(r.teardown, CasesEnd(r.cases, End(r.preparation)), suites[r.suite].teardown, oracle)
  }

  /** The number of steps attempted in all. */
  function RunEnd(runs: seq<SuiteRun>): nat {
    if runs == [] then 0 else End(Last(runs).teardown)
  }

  /** Every entered suite runs all of its preparation and teardown, and every
      executed case all of its steps, whatever failed before. */
  predicate NothingSkipped(runs: seq<SuiteRun>, suites: seq<TestSuite>, oracle: Oracle) {
    forall k :: 0 <= k < |runs| ==> SuiteRan(runs[k], suites, RunEnd(runs[..k]), oracle)
  }

  function Indices(cases: seq<CaseRun>): seq<nat> {
    seq(|cases|, k requires 0 <= k < |cases| => cases[k].index)
  }

  function Selected(suite: TestSuite, sel: Selection): seq<nat> {
    SelectedUpTo(sel, |suite.cases|)
  }

  predicate LastFails(cases: seq<CaseRun>) {
    cases != [] && !CaseOk(Last(cases))
  }

  /** The selected cases in order; a sequential suite stops after the first that fails. */
  predicate RanSelected(cases: seq<CaseRun>, selected: seq<nat>, order: CaseOrder) {
    && Indices(cases) <= selected
    && (order.Independent? || !LastFails(cases) ==> Indices(cases) == selected)
    && (order.Sequential? ==> forall k :: 0 <= k < |cases| - 1 ==> CaseOk(cases[k]))
  }

  /** Failed suite preparation blocks the cases of the suite. */
  predicate CasesDecided(r: SuiteRun, suite: TestSuite, sel: Selection, order: CaseOrder) {
    if Ok(r.preparation) then RanSelected(r.cases, Selected(suite, sel), order) else r.cases == []
  }

  /** Nothing in the suite failed. */
  predicate Clean(r: SuiteRun) {
    Ok(r.preparation) && (forall k :: 0 <= k < |r.cases| ==> CaseOk(r.cases[k])) && Ok(r.teardown)
  }

  // Tallies, one recursive count each.

  function CountPassed(cases: seq<CaseRun>): (n: nat)
    ensures n <= |cases|
  {
    if cases == [] then 0 else CountPassed(DropLast(cases)) + (if CaseOk(Last(cases)) then 1 else 0)
  }

  function TotalPassed(runs: seq<SuiteRun>): nat {
    if runs == [] then 0 else TotalPassed(DropLast(runs)) + CountPassed(Last(runs).cases)
  }

  function TotalExecuted(runs: seq<SuiteRun>): nat {
    if runs == [] then 0 else TotalExecuted(DropLast(runs)) + |Last(runs).cases|
  }

  function PreparationFailures(runs: seq<SuiteRun>): nat {
    if runs == [] then 0 else PreparationFailures(DropLast(runs)) + (if Ok(Last(runs).preparation) then 0 else 1)
  }

  function TeardownFailures(runs: seq<SuiteRun>): nat {
    if runs == [] then 0 else TeardownFailures(DropLast(runs)) + (if Ok(Last(runs).teardown) then 0 else 1)
  }

  /** Cases selected among the first `n` suites. */
  function SelectedCount(suites: seq<TestSuite>, sels: seq<Selection>, n: nat): nat
    requires n <= |sels| == |suites|
  {
    if n == 0 then 0 else SelectedCount(suites, sels, n - 1) + |Selected(suites[n - 1], sels[n - 1])|
  }

  /** The suites with anything selected, among the first `n`. */
  function Chosen(sels: seq<Selection>, n: nat): seq<nat>
    requires n <= |sels|
  {
    if n == 0 then []
    else Chosen(sels, n - 1) + (if sels[n - 1].NoCases? then [] else [n - 1])
  }

  function Entered(runs: seq<SuiteRun>): seq<nat> {
    seq(|runs|, k requires 0 <= k < |runs| => runs[k].suite)
  }

  // ---------------------------------------------------------------------
  // The engine
  // ---------------------------------------------------------------------

  lemma OkSnoc(start: nat, outcomes: seq<bool>, ok: bool)
    ensures Ok(PhaseRun(start, outcomes + [ok])) <==> Ok(PhaseRun(start, outcomes)) && ok
  {
    var more := PhaseRun(start, outcomes + [ok]);
    assert more.outcomes[|outcomes|] == ok;
    forall i | 0 <= i < |outcomes| ensures outcomes[i] == more.outcomes[i] {
    }
  }

  /** Every step of the run from `start` up to `end` has a good outcome. */
  predicate AllPass(oracle: Oracle, start: nat, end: nat) {
    forall n: nat :: start <= n < end ==> oracle(n)
  }

  lemma PhasePasses(p: PhaseRun, start: nat, count: nat, oracle: Oracle)
    requires RanAll(p, start, count, oracle)
    ensures End(p) == start + count && (Ok(p) <==> AllPass(oracle, start, start + count))
  {
    if Ok(p) {
      forall n: nat | start <= n < start + count ensures oracle(n) {
        assert p.outcomes[n - start] == oracle(start + (n - start));
      }
    }
  }

  lemma AllPassJoins(oracle: Oracle, a: nat, b: nat, c: nat)
    requires a <= b <= c
    ensures AllPass(oracle, a, c) <==> AllPass(oracle, a, b) && AllPass(oracle, b, c)
  {
  }

  /** A case that was run did its preparation, its steps and its teardown, in this order, and
      it passed exactly when each of all these steps did. */
  lemma CasePasses(c: CaseRun, case_: TestCase, start: nat, oracle: Oracle)
    requires CaseRan(c, case_, start, oracle)
    ensures End(c.teardown) == start + case_.preparation + case_.steps + case_.teardown
    ensures CaseOk(c) <==> forall n: nat :: start <= n < End(c.teardown) ==> oracle(n)
    ensures |c.preparation.outcomes| == case_.preparation && |c.steps.outcomes| == case_.steps
            && |c.teardown.outcomes| == case_.teardown
    ensures forall i :: 0 <= i < case_.preparation ==> c.preparation.outcomes[i] == oracle(start + i)
    ensures forall i :: 0 <= i < case_.steps ==> c.steps.outcomes[i] == oracle(start + case_.preparation + i)
    ensures forall i :: 0 <= i < case_.teardown ==>
              c.teardown.outcomes[i] == oracle(start + case_.preparation + case_.steps + i)
  {
    var mid, late := End(c.preparation), End(c.steps);
    PhasePasses(c.preparation, start, case_.preparation, oracle);
    PhasePasses(c.steps, mid, case_.steps, oracle);
    PhasePasses(c.teardown, late, case_.teardown, oracle);
    AllPassJoins(oracle, start, mid, late);
    AllPassJoins(oracle, start, late, End(c.teardown));
    assert CaseOk(c) <==> AllPass(oracle, start, End(c.teardown));
  }

  /** Attempt every step of a list; a failure is noted and the rest still runs. */
  method RunPhase(count: nat, oracle: Oracle, start: nat) returns (ok: bool, p: PhaseRun)
    ensures RanAll(p, start, count, oracle) && ok == Ok(p)
    ensures ok <==> forall n: nat :: start <= n < start + count ==> oracle(n)
  {
    ok := true;
    var outcomes := [];
    for i := 0 to count
      invariant |outcomes| == i && forall k :: 0 <= k < i ==> outcomes[k] == oracle(start + k)
      invariant ok == Ok(PhaseRun(start, outcomes))
    {
      var stepOk := oracle(start + i);
      OkSnoc(start, outcomes, stepOk);
      outcomes := outcomes + [stepOk];
      if !stepOk {
        ok := false;
      }
    }
    p := PhaseRun(start, outcomes);
    PhasePasses(p, start, count, oracle);
    assert AllPass(oracle, start, start + count) <==> forall n: nat :: start <= n < start + count ==> oracle(n);
  }

  method RunCase(index: nat, case_: TestCase, oracle: Oracle, sum: Summary) returns (r: Summary, c: CaseRun)
    ensures c.index == index && CaseRan(c, case_, sum.steps, oracle)
    ensures r == sum.(steps := End(c.teardown), passed := sum.passed + (if CaseOk(c) then 1 else 0),
                      failed := sum.failed + (if CaseOk(c) then 0 else 1))
    ensures r.steps == sum.steps + case_.preparation + case_.steps + case_.teardown
    ensures r.passed == sum.passed + 1 <==> forall n: nat :: sum.steps <= n < r.steps ==> oracle(n)
  {
    var prepared, preparation := RunPhase(case_.preparation, oracle, sum.steps);
    r := sum.(steps := sum.steps + case_.preparation);
    var ran, steps := RunPhase(case_.steps, oracle, r.steps);
    r := r.(steps := r.steps + case_.steps);
    var restored, teardown := RunPhase(case_.teardown, oracle, r.steps);
    r := r.(steps := r.steps + case_.teardown);
    c := CaseRun(index, preparation, steps, teardown);
    CasePasses(c, case_, sum.steps, oracle);
    if prepared && ran && restored {
      r := r.(passed := r.passed + 1);
    } else {
      r := r.(failed := r.failed + 1);
    }
  }

  lemma CasesRanSnoc(cases: seq<CaseRun>, c: CaseRun, suite: TestSuite, start: nat, oracle: Oracle)
    requires CasesRan(cases, suite, start, oracle) && c.index < |suite.cases|
    requires CaseRan(c, suite.cases[c.index], CasesEnd(cases, start), oracle)
    ensures CasesRan(cases + [c], suite, start, oracle)
  {
    var more := cases + [c];
    forall k | 0 <= k < |more|
      ensures && more[k].index < |suite.cases|
              && CaseRan(more[k], suite.cases[more[k].index], CasesEnd(more[..k], start), oracle)
    {
      assert more[..k] == cases[..k];
      if k == |cases| {
        assert cases[..k] == cases;
      }
    }
  }

  lemma RanSelectedSnoc(cases: seq<CaseRun>, c: CaseRun, selected: seq<nat>, order: CaseOrder)
    requires RanSelected(cases, selected, order) && (order.Sequential? ==> !LastFails(cases))
    ensures RanSelected(cases + [c], selected + [c.index], order)
  {
    assert Indices(cases + [c]) == Indices(cases) + [c.index];
    if order.Sequential? && cases != [] {
      assert cases[|cases| - 1] == Last(cases);
    }
  }

  lemma RanSelectedHolds(cases: seq<CaseRun>, i: nat, selected: seq<nat>, order: CaseOrder)
    requires RanSelected(cases, selected, order) && order.Sequential? && LastFails(cases)
    ensures RanSelected(cases, selected + [i], order)
  {
  }

  /** What the cases of a suite add to the tally, `selected` of them being selected. */
  function CasesTally(sum: Summary, cases: seq<CaseRun>, selected: nat): Summary
    requires |cases| <= selected
  {
    sum.(steps := CasesEnd(cases, sum.steps), passed := sum.passed + CountPassed(cases),
         failed := sum.failed + |cases| - CountPassed(cases), blocked := sum.blocked + selected - |cases|)
  }

  lemma CasesTallySnoc(sum: Summary, cases: seq<CaseRun>, c: CaseRun, selected: nat)
    requires |cases| <= selected
    ensures CasesTally(sum, cases + [c], selected + 1)
            == CasesTally(sum, cases, selected).(
                 steps := End(c.teardown),
                 passed := CasesTally(sum, cases, selected).passed + (if CaseOk(c) then 1 else 0),
                 failed := CasesTally(sum, cases, selected).failed + (if CaseOk(c) then 0 else 1))
  {
    assert DropLast(cases + [c]) == cases;
  }

  /** The state of the case loop once `selected` lists the selected cases it has passed. */
  predicate CaseLoop(suite: TestSuite, selected: seq<nat>, order: CaseOrder, oracle: Oracle, start: nat,
                     cases: seq<CaseRun>, failed: nat)
  {
    && CasesRan(cases, suite, start, oracle)
    && RanSelected(cases, selected, order)
    && (order.Sequential? ==> failed == if LastFails(cases) then 1 else 0)
  }

  lemma CaseLoopSnoc(suite: TestSuite, selected: seq<nat>, order: CaseOrder, oracle: Oracle, start: nat,
                     cases: seq<CaseRun>, failed: nat, c: CaseRun)
    requires CaseLoop(suite, selected, order, oracle, start, cases, failed) && (order.Sequential? ==> failed == 0)
    requires c.index < |suite.cases| && CaseRan(c, suite.cases[c.index], CasesEnd(cases, start), oracle)
    ensures CaseLoop(suite, selected + [c.index], order, oracle, start, cases + [c],
                     failed + if CaseOk(c) then 0 else 1)
  {
    CasesRanSnoc(cases, c, suite, start, oracle);
    RanSelectedSnoc(cases, c, selected, order);
  }

  /** One more executed case, with its place in the case loop that began at `sum`. */
  method RunNextCase(suite: TestSuite, i: nat, ghost selected: seq<nat>, order: CaseOrder, oracle: Oracle, now: Summary,
                     cases: seq<CaseRun>, ghost sum: Summary)
    returns (r: Summary, more: seq<CaseRun>)
    requires i < |suite.cases| && |cases| <= |selected| && (order.Sequential? ==> now.failed == 0)
    requires CaseLoop(suite, selected, order, oracle, sum.steps, cases, now.failed)
    requires now == CasesTally(sum, cases, |selected|)
    ensures CaseLoop(suite, selected + [i], order, oracle, sum.steps, more, r.failed)
    ensures |more| <= |selected| + 1 && r == CasesTally(sum, more, |selected| + 1)
  {
    var c;
    r, c := RunCase(i, suite.cases[i], oracle, now);
    CaseLoopSnoc(suite, selected, order, oracle, sum.steps, cases, now.failed, c);
    CasesTallySnoc(sum, cases, c, |selected|);
    more := cases + [c];
  }

  lemma HoldBack(suite: TestSuite, selected: seq<nat>, i: nat, oracle: Oracle, start: nat, cases: seq<CaseRun>,
                 failed: nat)
    requires CaseLoop(suite, selected, Sequential, oracle, start, cases, failed) && failed > 0
    ensures CaseLoop(suite, selected + [i], Sequential, oracle, start, cases, failed)
  {
    RanSelectedHolds(cases, i, selected, Sequential);
  }

  /** One selected case: blocked after a failure of a sequential run, and otherwise executed. */
  method TakeCase(suite: TestSuite, i: nat, ghost selected: seq<nat>, order: CaseOrder, oracle: Oracle, now: Summary,
                  cases: seq<CaseRun>, ghost sum: Summary)
    returns (r: Summary, more: seq<CaseRun>)
    requires i < |suite.cases| && |cases| <= |selected|
    requires CaseLoop(suite, selected, order, oracle, sum.steps, cases, now.failed)
    requires now == CasesTally(sum, cases, |selected|)
    ensures CaseLoop(suite, selected + [i], order, oracle, sum.steps, more, r.failed)
    ensures |more| <= |selected| + 1 && r == CasesTally(sum, more, |selected| + 1)
  {
    if order == Sequential && now.failed > 0 {
      HoldBack(suite, selected, i, oracle, sum.steps, cases, now.failed);
      r, more := now.(blocked := now.blocked + 1), cases;
    } else {
      r, more := RunNextCase(suite, i, selected, order, oracle, now, cases, sum);
    }
  }

  lemma CaseLoopStarts(suite: TestSuite, order: CaseOrder, oracle: Oracle, start: nat, failed: nat)
    requires order.Sequential? ==> failed == 0
    ensures CaseLoop(suite, [], order, oracle, start, [], failed)
  {
    assert Indices([]) == [];
  }

  /** The case loop that began at `sum` has got to case `i`. */
  predicate InCaseLoop(suite: TestSuite, sel: Selection, i: nat, order: CaseOrder, oracle: Oracle, sum: Summary,
                       cases: seq<CaseRun>, now: Summary)
  {
    var selected := SelectedUpTo(sel, i);
    && CaseLoop(suite, selected, order, oracle, sum.steps, cases, now.failed)
    && |cases| <= |selected| && now == CasesTally(sum, cases, |selected|)
  }

  lemma UpToNext(sel: Selection, i: nat)
    ensures SelectedUpTo(sel, i + 1) == if Selects(sel, i) then SelectedUpTo(sel, i) + [i] else SelectedUpTo(sel, i)
  {
  }

  /** One turn of the case loop. */
  method NextCase(suite: TestSuite, sel: Selection, i: nat, order: CaseOrder, oracle: Oracle, now: Summary,
                  cases: seq<CaseRun>, ghost sum: Summary)
    returns (r: Summary, more: seq<CaseRun>)
    requires i < |suite.cases| && InCaseLoop(suite, sel, i, order, oracle, sum, cases, now)
    ensures InCaseLoop(suite, sel, i + 1, order, oracle, sum, more, r)
  {
    UpToNext(sel, i);
    if Selects(sel, i) {
      r, more := TakeCase(suite, i, SelectedUpTo(sel, i), order, oracle, now, cases, sum);
    } else {
      r, more := now, cases;
    }
  }

  /** The case loop of a suite whose preparation passed. */
  method RunCases(suite: TestSuite, sel: Selection, order: CaseOrder, oracle: Oracle, sum: Summary)
    returns (r: Summary, cases: seq<CaseRun>)
    requires order.Sequential? ==> sum.failed == 0
    ensures InCaseLoop(suite, sel, |suite.cases|, order, oracle, sum, cases, r)
  {
    r, cases := sum, [];
    CaseLoopStarts(suite, order, oracle, sum.steps, sum.failed);
    for i := 0 to |suite.cases|
      invariant InCaseLoop(suite, sel, i, order, oracle, sum, cases, r)
    {
      r, cases := NextCase(suite, sel, i, order, oracle, r, cases, sum);
    }
  }

  /** What a suite adds to the tally. */
  function SuiteTally(sum: Summary, run: SuiteRun, selected: nat): Summary
    requires |run.cases| <= selected
  {
    sum.(steps := End(run.teardown), passed := sum.passed + CountPassed(run.cases),
         failed := sum.failed + |run.cases| - CountPassed(run.cases),
         blocked := sum.blocked + selected - |run.cases|,
         preparationFailed := sum.preparationFailed + (if Ok(run.preparation) then 0 else 1),
         teardownFailed := sum.teardownFailed + (if Ok(run.teardown) then 0 else 1))
  }

  /** The tally between a suite's cases and its teardown. */
  function BodyTally(sum: Summary, preparation: PhaseRun, cases: seq<CaseRun>, selected: nat): Summary
    requires |cases| <= selected
  {
    sum.(steps := CasesEnd(cases, End(preparation)), passed := sum.passed + CountPassed(cases),
         failed := sum.failed + |cases| - CountPassed(cases), blocked := sum.blocked + selected - |cases|,
         preparationFailed := sum.preparationFailed + (if Ok(preparation) then 0 else 1))
  }

  lemma PreparedTally(sum: Summary, preparation: PhaseRun, cases: seq<CaseRun>, selected: nat)
    requires Ok(preparation) && |cases| <= selected
    ensures CasesTally(sum.(steps := End(preparation)), cases, selected) == BodyTally(sum, preparation, cases, selected)
  {
  }

  /** The cases of a suite whose preparation is over. */
  method RunPrepared(suite: TestSuite, sel: Selection, order: CaseOrder, oracle: Oracle, sum: Summary,
                     ghost before: Summary, ghost preparation: PhaseRun)
    returns (r: Summary, cases: seq<CaseRun>)
    requires order.Sequential? ==> sum.failed == 0
    requires Ok(preparation) && sum == before.(steps := End(preparation))
    ensures CasesRan(cases, suite, End(preparation), oracle) && |cases| <= |Selected(suite, sel)|
    ensures RanSelected(cases, Selected(suite, sel), order)
    ensures r == BodyTally(before, preparation, cases, |Selected(suite, sel)|)
  {
    r, cases := RunCases(suite, sel, order, oracle, sum);
    PreparedTally(before, preparation, cases, |Selected(suite, sel)|);
  }

  method RunBody(suite: TestSuite, sel: Selection, order: CaseOrder, oracle: Oracle, sum: Summary)
    returns (r: Summary, preparation: PhaseRun, cases: seq<CaseRun>)
    requires CaseCount(sel, suite) == |Selected(suite, sel)| && (order.Sequential? ==> sum.failed == 0)
    ensures RanAll(preparation, sum.steps, suite.preparation, oracle)
    ensures CasesRan(cases, suite, End(preparation), oracle) && |cases| <= |Selected(suite, sel)|
    ensures if Ok(preparation) then RanSelected(cases, Selected(suite, sel), order) else cases == []
    ensures r == BodyTally(sum, preparation, cases, |Selected(suite, sel)|)
  {
    var prepared;
    prepared, preparation := RunPhase(suite.preparation, oracle, sum.steps);
    r := sum.(steps := sum.steps + suite.preparation);
    cases := [];
    if prepared {
      r, cases := RunPrepared(suite, sel, order, oracle, r, sum, preparation);
    } else {
      r := r.(preparationFailed := r.preparationFailed + 1, blocked := r.blocked + CaseCount(sel, suite));
    }
  }

  method EnterSuite(suites: seq<TestSuite>, s: nat, sel: Selection, order: CaseOrder, oracle: Oracle, sum: Summary)
    returns (r: Summary, run: SuiteRun)
    requires s < |suites| && CaseCount(sel, suites[s]) == |Selected(suites[s], sel)|
    requires order.Sequential? ==> sum.failed == 0
    ensures run.suite == s && SuiteRan(run, suites, sum.steps, oracle)
    ensures CasesDecided(run, suites[s], sel, order) && |run.cases| <= |Selected(suites[s], sel)|
    ensures r == SuiteTally(sum, run, |Selected(suites[s], sel)|)
  {
    var suite := suites[s];
    var preparation, cases;
    r, preparation, cases := RunBody(suite, sel, order, oracle, sum);
    var restored, teardown := RunPhase(suite.teardown, oracle, r.steps);
    r := r.(steps := r.steps + suite.teardown);
    if !restored {
      r := r.(teardownFailed := r.teardownFailed + 1);
    }
    run := SuiteRun(s, preparation, cases, teardown);
  }

  // ---------------------------------------------------------------------
  // The whole run
  // ---------------------------------------------------------------------

  lemma {:induction false} AllPassed(cases: seq<CaseRun>)
    ensures CountPassed(cases) == |cases| <==> forall k :: 0 <= k < |cases| ==> CaseOk(cases[k])
  {
    if cases != [] {
      AllPassed(DropLast(cases));
      assert forall k :: 0 <= k < |cases| - 1 ==> cases[k] == DropLast(cases)[k];
    }
  }

  lemma AllButLastPassed(cases: seq<CaseRun>)
    requires forall k :: 0 <= k < |cases| - 1 ==> CaseOk(cases[k])
    ensures |cases| - CountPassed(cases) == if LastFails(cases) then 1 else 0
  {
    if cases != [] {
      AllPassed(DropLast(cases));
    }
  }

  /** What the tally says about a suite entered with a clean tally. */
  lemma EnteredTally(sum: Summary, run: SuiteRun, suite: TestSuite, sel: Selection, order: CaseOrder)
    requires CasesDecided(run, suite, sel, order) && |run.cases| <= |Selected(suite, sel)|
    ensures var r := SuiteTally(sum, run, |Selected(suite, sel)|);
            && (Succeeds(r) <==> Succeeds(sum) && Clean(run))
            && (Clean(run) ==> Indices(run.cases) == Selected(suite, sel) && r.blocked == sum.blocked)
            && (order.Sequential? && Succeeds(sum) ==> r.failed + r.preparationFailed <= 1 && r.teardownFailed <= 1)
  {
    AllPassed(run.cases);
    assert |Indices(run.cases)| == |run.cases|;
    if order.Sequential? && Ok(run.preparation) {
      AllButLastPassed(run.cases);
    }
    if Clean(run) && run.cases != [] {
      assert CaseOk(run.cases[|run.cases| - 1]);
    }
  }

  /** Every count of the summary, read off the run. */
  predicate Accounts(sum: Summary, suites: seq<TestSuite>, sels: seq<Selection>, n: nat, runs: seq<SuiteRun>)
    requires n <= |sels| == |suites|
  {
    && sum.suites == |Chosen(sels, n)|
    && sum.tests == SelectedCount(suites, sels, n)
    && sum.passed == TotalPassed(runs)
    && sum.passed + sum.failed == TotalExecuted(runs)
    && sum.tests == sum.passed + sum.failed + sum.blocked
    && sum.preparationFailed == PreparationFailures(runs)
    && sum.teardownFailed == TeardownFailures(runs)
    && sum.steps == RunEnd(runs)
    && (Succeeds(sum) ==> sum.blocked == 0)
  }

  predicate AllDecided(runs: seq<SuiteRun>, suites: seq<TestSuite>, sels: seq<Selection>, order: CaseOrder)
    requires |sels| == |suites|
  {
    forall k :: 0 <= k < |runs| ==>
      runs[k].suite < |suites| && CasesDecided(runs[k], suites[runs[k].suite], sels[runs[k].suite], order)
  }

  /** Which of the chosen suites were entered, `ok` telling whether nothing failed yet. */
  predicate EnteredSoFar(runs: seq<SuiteRun>, chosen: seq<nat>, order: CaseOrder, sum: Summary) {
    match order
    case Independent => Entered(runs) == chosen
    case Sequential =>
      && Entered(runs) <= chosen
      && (forall k :: 0 <= k < |runs| - 1 ==> Clean(runs[k]))
      && (Succeeds(sum) <==> runs == [] || Clean(Last(runs)))
      && (Succeeds(sum) ==> Entered(runs) == chosen)
      && sum.failed + sum.preparationFailed <= 1 && sum.teardownFailed <= 1
  }

  lemma AccountsSkip(sum: Summary, suites: seq<TestSuite>, sels: seq<Selection>, n: nat, runs: seq<SuiteRun>)
    requires n < |sels| == |suites| && Accounts(sum, suites, sels, n, runs) && sels[n].NoCases?
    requires CaseCount(sels[n], suites[n]) == |Selected(suites[n], sels[n])|
    ensures Accounts(sum, suites, sels, n + 1, runs)
  {
  }

  lemma AccountsBlock(sum: Summary, suites: seq<TestSuite>, sels: seq<Selection>, n: nat, runs: seq<SuiteRun>)
    requires n < |sels| == |suites| && Accounts(sum, suites, sels, n, runs) && !sels[n].NoCases? && !Succeeds(sum)
    ensures var count := |Selected(suites[n], sels[n])|;
            Accounts(sum.(suites := sum.suites + 1, tests := sum.tests + count, blocked := sum.blocked + count),
                     suites, sels, n + 1, runs)
  {
  }

  lemma AccountsEnter(sum: Summary, suites: seq<TestSuite>, sels: seq<Selection>, n: nat, runs: seq<SuiteRun>,
                      run: SuiteRun, order: CaseOrder)
    requires n < |sels| == |suites| && Accounts(sum, suites, sels, n, runs) && !sels[n].NoCases?
    requires CasesDecided(run, suites[n], sels[n], order) && |run.cases| <= |Selected(suites[n], sels[n])|
    ensures var count := |Selected(suites[n], sels[n])|;
            Accounts(SuiteTally(sum.(suites := sum.suites + 1, tests := sum.tests + count), run, count),
                     suites, sels, n + 1, runs + [run])
  {
    EnteredTally(sum, run, suites[n], sels[n], order);
    assert DropLast(runs + [run]) == runs;
  }

  lemma EnteredSnoc(runs: seq<SuiteRun>, run: SuiteRun, chosen: seq<nat>, order: CaseOrder, sum: Summary, r: Summary)
    requires EnteredSoFar(runs, chosen, order, sum) && (order.Sequential? ==> Succeeds(sum))
    requires Succeeds(r) <==> Succeeds(sum) && Clean(run)
    requires order.Sequential? ==> r.failed + r.preparationFailed <= 1 && r.teardownFailed <= 1
    ensures EnteredSoFar(runs + [run], chosen + [run.suite], order, r)
  {
    assert Entered(runs + [run]) == Entered(runs) + [run.suite];
    if order.Sequential? && runs != [] {
      assert Clean(runs[|runs| - 1]);
    }
  }

  lemma NothingSkippedSnoc(runs: seq<SuiteRun>, run: SuiteRun, suites: seq<TestSuite>, oracle: Oracle)
    requires NothingSkipped(runs, suites, oracle) && SuiteRan(run, suites, RunEnd(runs), oracle)
    ensures NothingSkipped(runs + [run], suites, oracle)
  {
    var more := runs + [run];
    forall k | 0 <= k < |more| ensures SuiteRan(more[k], suites, RunEnd(more[..k]), oracle) {
      assert more[..k] == runs[..k];
      if k == |runs| {
        assert runs[..k] == runs;
      }
    }
  }

  /** Everything the run keeps, after the first `n` suites. */
  predicate RunSoFar(suites: seq<TestSuite>, sels: seq<Selection>, order: CaseOrder, oracle: Oracle, n: nat,
                     runs: seq<SuiteRun>, sum: Summary)
    requires n <= |sels| == |suites|
  {
    && Accounts(sum, suites, sels, n, runs)
    && NothingSkipped(runs, suites, oracle)
    && AllDecided(runs, suites, sels, order)
    && EnteredSoFar(runs, Chosen(sels, n), order, sum)
  }

  lemma RunSkips(suites: seq<TestSuite>, sels: seq<Selection>, order: CaseOrder, oracle: Oracle, n: nat,
                 runs: seq<SuiteRun>, sum: Summary)
    requires n < |sels| == |suites| && RunSoFar(suites, sels, order, oracle, n, runs, sum)
    requires CaseCount(sels[n], suites[n]) == |Selected(suites[n], sels[n])| && sels[n].NoCases?
    ensures RunSoFar(suites, sels, order, oracle, n + 1, runs, sum)
  {
    AccountsSkip(sum, suites, sels, n, runs);
  }

  /** The summary once a suite is chosen, before it is entered or blocked. */
  function Announced(sum: Summary, count: nat): Summary {
    sum.(suites := sum.suites + 1, tests := sum.tests + count)
  }

  lemma RunBlocks(suites: seq<TestSuite>, sels: seq<Selection>, oracle: Oracle, n: nat, runs: seq<SuiteRun>,
                  sum: Summary)
    requires n < |sels| == |suites| && RunSoFar(suites, sels, Sequential, oracle, n, runs, sum)
    requires !sels[n].NoCases? && !Succeeds(sum)
    ensures var count := |Selected(suites[n], sels[n])|;
            RunSoFar(suites, sels, Sequential, oracle, n + 1, runs,
                     Announced(sum, count).(blocked := sum.blocked + count))
  {
    AccountsBlock(sum, suites, sels, n, runs);
  }

  lemma RunEnters(suites: seq<TestSuite>, sels: seq<Selection>, order: CaseOrder, oracle: Oracle, n: nat,
                  runs: seq<SuiteRun>, sum: Summary, run: SuiteRun)
    requires n < |sels| == |suites| && RunSoFar(suites, sels, order, oracle, n, runs, sum)
    requires !sels[n].NoCases? && (order.Sequential? ==> Succeeds(sum))
    requires run.suite == n && SuiteRan(run, suites, sum.steps, oracle)
    requires CasesDecided(run, suites[n], sels[n], order) && |run.cases| <= |Selected(suites[n], sels[n])|
    ensures var count := |Selected(suites[n], sels[n])|;
            RunSoFar(suites, sels, order, oracle, n + 1, runs + [run], SuiteTally(Announced(sum, count), run, count))
  {
    var count := |Selected(suites[n], sels[n])|;
    var atEntry := Announced(sum, count);
    AccountsEnter(sum, suites, sels, n, runs, run, order);
    EnteredTally(atEntry, run, suites[n], sels[n], order);
    EnteredSnoc(runs, run, Chosen(sels, n), order, atEntry, SuiteTally(atEntry, run, count));
    NothingSkippedSnoc(runs, run, suites, oracle);
  }

  const NOTHING_YET := Summary(0, 0, 0, 0, 0, 0, 0, 0)

  lemma AccountsStart(suites: seq<TestSuite>, sels: seq<Selection>)
    requires |sels| == |suites|
    ensures Accounts(NOTHING_YET, suites, sels, 0, [])
  {
  }

  lemma EnteredStart(sels: seq<Selection>, order: CaseOrder)
    ensures EnteredSoFar([], Chosen(sels, 0), order, NOTHING_YET)
  {
    assert Entered([]) == [] == Chosen(sels, 0);
  }

  lemma NothingSkippedStart(suites: seq<TestSuite>, oracle: Oracle)
    ensures NothingSkipped([], suites, oracle)
  {
  }

  lemma AllDecidedStart(suites: seq<TestSuite>, sels: seq<Selection>, order: CaseOrder)
    requires |sels| == |suites|
    ensures AllDecided([], suites, sels, order)
  {
  }

  lemma RunStarts(suites: seq<TestSuite>, sels: seq<Selection>, order: CaseOrder, oracle: Oracle)
    requires |sels| == |suites|
    ensures RunSoFar(suites, sels, order, oracle, 0, [], NOTHING_YET)
  {
    AccountsStart(suites, sels);
    EnteredStart(sels, order);
    NothingSkippedStart(suites, oracle);
    AllDecidedStart(suites, sels, order);
  }

  /** One turn of the suite loop: skip, block or enter the suite. */
  method NextSuite(suites: seq<TestSuite>, sels: seq<Selection>, order: CaseOrder, oracle: Oracle, s: nat,
                   runs: seq<SuiteRun>, sum: Summary)
    returns (more: seq<SuiteRun>, r: Summary)
    requires s < |sels| == |suites| && WellFormed(sels[s], suites[s])
    requires RunSoFar(suites, sels, order, oracle, s, runs, sum)
    ensures RunSoFar(suites, sels, order, oracle, s + 1, more, r)
  {
    CountIsSelected(sels[s], suites[s]);
    if sels[s].NoCases? {
      RunSkips(suites, sels, order, oracle, s, runs, sum);
      return runs, sum;
    }
    var count := CaseCount(sels[s], suites[s]);
    r := Announced(sum, count);
    if order == Sequential && !Succeeds(r) {
      RunBlocks(suites, sels, oracle, s, runs, sum);
      return runs, r.(blocked := r.blocked + count);
    }
    var run;
    r, run := EnterSuite(suites, s, sels[s], order, oracle, r);
    RunEnters(suites, sels, order, oracle, s, runs, sum, run);
    more := runs + [run];
  }

  predicate AllWellFormed(suites: seq<TestSuite>, sels: seq<Selection>) {
    |sels| == |suites| && forall s :: 0 <= s < |suites| ==> WellFormed(sels[s], suites[s])
  }

  /** The suite loop. */
  method RunSelected(suites: seq<TestSuite>, sels: seq<Selection>, order: CaseOrder, oracle: Oracle)
    returns (sum: Summary, runs: seq<SuiteRun>)
    requires AllWellFormed(suites, sels)
    ensures RunSoFar(suites, sels, order, oracle, |suites|, runs, sum)
  {
    sum, runs := NOTHING_YET, [];
    RunStarts(suites, sels, order, oracle);
    for s := 0 to |suites|
      invariant RunSoFar(suites, sels, order, oracle, s, runs, sum)
    {
      runs, sum := NextSuite(suites, sels, order, oracle, s, runs, sum);
    }
  }

  method RunSuites(matches: NameMatch, suites: seq<TestSuite>, filters: seq<string>, order: CaseOrder, oracle: Oracle)
    returns (sum: Summary, runs: seq<SuiteRun>, sels: seq<Selection>)
    ensures |sels| == |suites| && Resolved(Direct(matches, suites, filters), order, sels)
    ensures RunSoFar(suites, sels, order, oracle, |suites|, runs, sum)
  {
    sels := SelectSuites(matches, suites, filters, order);
    sum, runs := RunSelected(suites, sels, order, oracle);
  }

  // ---------------------------------------------------------------------
  // What that means for the run
  // ---------------------------------------------------------------------

  datatype CaseId = CaseId(suite: nat, index: nat)

  function Ids(suite: nat, indices: seq<nat>): seq<CaseId> {
    seq(|indices|, k requires 0 <= k < |indices| => CaseId(suite, indices[k]))
  }

  function Executed(runs: seq<SuiteRun>): seq<CaseId> {
    if runs == [] then [] else Executed(DropLast(runs)) + Ids(Last(runs).suite, Indices(Last(runs).cases))
  }

  /** The selected cases of the listed suites, in the order of the run. */
  function SelectedIn(suites: seq<TestSuite>, sels: seq<Selection>, chosen: seq<nat>): seq<CaseId>
    requires |sels| == |suites| && InRange(chosen, |suites|)
  {
    if chosen == [] then []
    else SelectedIn(suites, sels, DropLast(chosen))
         + Ids(Last(chosen), Selected(suites[Last(chosen)], sels[Last(chosen)]))
  }

  lemma {:induction false} ChosenInRange(sels: seq<Selection>, n: nat)
    requires n <= |sels|
    ensures InRange(Chosen(sels, n), n)
  {
    if n > 0 {
      ChosenInRange(sels, n - 1);
    }
  }

  lemma {:induction false} SelectedPrefix(suites: seq<TestSuite>, sels: seq<Selection>, a: seq<nat>, b: seq<nat>)
    requires |sels| == |suites| && InRange(b, |suites|) && a <= b
    ensures InRange(a, |suites|) && SelectedIn(suites, sels, a) <= SelectedIn(suites, sels, b)
    decreases |b|
  {
    if |a| < |b| {
      SelectedPrefix(suites, sels, a, DropLast(b));
    } else {
      assert a == b;
    }
  }

  lemma {:induction false} CleanExecutesAll(runs: seq<SuiteRun>, suites: seq<TestSuite>, sels: seq<Selection>,
                                            order: CaseOrder)
    requires |sels| == |suites| && AllDecided(runs, suites, sels, order)
    requires forall k :: 0 <= k < |runs| ==> Clean(runs[k])
    ensures InRange(Entered(runs), |suites|) && Executed(runs) == SelectedIn(suites, sels, Entered(runs))
  {
    if runs != [] {
      CleanExecutesAll(DropLast(runs), suites, sels, order);
      assert DropLast(Entered(runs)) == Entered(DropLast(runs));
      var run := Last(runs);
      assert run == runs[|runs| - 1];
      if run.cases != [] {
        assert CaseOk(run.cases[|run.cases| - 1]);
      }
    }
  }

  lemma IdsPrefix(suite: nat, a: seq<nat>, b: seq<nat>)
    requires a <= b
    ensures Ids(suite, a) <= Ids(suite, b)
  {
  }

  lemma PrefixBehind<T>(x: seq<T>, a: seq<T>, b: seq<T>)
    requires a <= b
    ensures x + a <= x + b
  {
  }

  lemma LastIsDecided(runs: seq<SuiteRun>, suites: seq<TestSuite>, sels: seq<Selection>)
    requires |sels| == |suites| && AllDecided(runs, suites, sels, Sequential) && runs != []
    ensures AllDecided(DropLast(runs), suites, sels, Sequential) && Last(runs).suite < |suites|
    ensures Indices(Last(runs).cases) <= Selected(suites[Last(runs).suite], sels[Last(runs).suite])
  {
    assert Last(runs) == runs[|runs| - 1];
    assert Indices([]) == [];
  }

  lemma EnteredLast(runs: seq<SuiteRun>)
    requires runs != []
    ensures Entered(runs) != [] && Last(Entered(runs)) == Last(runs).suite
    ensures DropLast(Entered(runs)) == Entered(DropLast(runs))
  {
  }

  /** While all suites but the last are clean, the cases executed are the first of those selected in
      the suites entered. */
  lemma ExecutedIsPrefix(runs: seq<SuiteRun>, suites: seq<TestSuite>, sels: seq<Selection>)
    requires |sels| == |suites| && AllDecided(runs, suites, sels, Sequential) && InRange(Entered(runs), |suites|)
    requires runs != [] && forall k :: 0 <= k < |runs| - 1 ==> Clean(runs[k])
    ensures Executed(runs) <= SelectedIn(suites, sels, Entered(runs))
  {
    var init, run := DropLast(runs), Last(runs);
    LastIsDecided(runs, suites, sels);
    CleanExecutesAll(init, suites, sels, Sequential);
    EnteredLast(runs);
    IdsPrefix(run.suite, Indices(run.cases), Selected(suites[run.suite], sels[run.suite]));
    PrefixBehind(Executed(init), Ids(run.suite, Indices(run.cases)),
                 Ids(run.suite, Selected(suites[run.suite], sels[run.suite])));
  }

  lemma EnteredExecutePrefix(sum: Summary, runs: seq<SuiteRun>, suites: seq<TestSuite>, sels: seq<Selection>,
                             chosen: seq<nat>)
    requires |sels| == |suites| && AllDecided(runs, suites, sels, Sequential) && InRange(chosen, |suites|)
    requires EnteredSoFar(runs, chosen, Sequential, sum)
    ensures Executed(runs) <= SelectedIn(suites, sels, chosen)
  {
    if runs != [] {
      SelectedPrefix(suites, sels, Entered(runs), chosen);
      ExecutedIsPrefix(runs, suites, sels);
    }
  }

  lemma SuccessExecutesAll(sum: Summary, runs: seq<SuiteRun>, suites: seq<TestSuite>, sels: seq<Selection>,
                           chosen: seq<nat>)
    requires |sels| == |suites| && AllDecided(runs, suites, sels, Sequential) && InRange(chosen, |suites|)
    requires EnteredSoFar(runs, chosen, Sequential, sum) && Succeeds(sum)
    ensures Executed(runs) == SelectedIn(suites, sels, chosen)
  {
    AllClean(runs, chosen, sum);
    CleanExecutesAll(runs, suites, sels, Sequential);
  }

  lemma AllClean(runs: seq<SuiteRun>, chosen: seq<nat>, sum: Summary)
    requires EnteredSoFar(runs, chosen, Sequential, sum) && Succeeds(sum)
    ensures Entered(runs) == chosen && forall k :: 0 <= k < |runs| ==> Clean(runs[k])
  {
    assert runs != [] ==> Last(runs) == runs[|runs| - 1];
  }

  lemma LastRunPasses(runs: seq<SuiteRun>, suites: seq<TestSuite>, sels: seq<Selection>)
    requires |sels| == |suites| && AllDecided(runs, suites, sels, Sequential) && runs != []
    ensures forall c :: 0 <= c < |Last(runs).cases| - 1 ==> CaseOk(Last(runs).cases[c])
  {
    assert Last(runs) == runs[|runs| - 1];
  }

  /** A sequential run executes a prefix of the selected cases, in their order;
      all but the last pass, and the run stops short only after a failure. */
  lemma SequentialExecutesPrefix(sum: Summary, runs: seq<SuiteRun>, suites: seq<TestSuite>, sels: seq<Selection>)
    requires |sels| == |suites| && AllDecided(runs, suites, sels, Sequential)
    requires EnteredSoFar(runs, Chosen(sels, |suites|), Sequential, sum)
    ensures InRange(Chosen(sels, |suites|), |suites|)
    ensures Executed(runs) <= SelectedIn(suites, sels, Chosen(sels, |suites|))
    ensures Succeeds(sum) ==> Executed(runs) == SelectedIn(suites, sels, Chosen(sels, |suites|))
    ensures forall k :: 0 <= k < |runs| - 1 ==> Clean(runs[k])
    ensures runs != [] ==> forall c :: 0 <= c < |Last(runs).cases| - 1 ==> CaseOk(Last(runs).cases[c])
  {
    var chosen := Chosen(sels, |suites|);
    ChosenInRange(sels, |suites|);
    EnteredExecutePrefix(sum, runs, suites, sels, chosen);
    if Succeeds(sum) {
      SuccessExecutesAll(sum, runs, suites, sels, chosen);
    }
    if runs != [] {
      LastRunPasses(runs, suites, sels);
    }
  }

  lemma {:induction false} ExecutedCount(runs: seq<SuiteRun>)
    ensures |Executed(runs)| == TotalExecuted(runs)
  {
    if runs != [] {
      ExecutedCount(DropLast(runs));
    }
  }

  lemma {:induction false} PassedAtMost(runs: seq<SuiteRun>)
    ensures TotalPassed(runs) <= TotalExecuted(runs)
  {
    if runs != [] {
      PassedAtMost(DropLast(runs));
    }
  }

  /** A run whose failure counts are all zero has only clean suites. */
  lemma {:induction false} NoFailuresMeansClean(runs: seq<SuiteRun>)
    requires TotalPassed(runs) == TotalExecuted(runs)
    requires PreparationFailures(runs) == 0 && TeardownFailures(runs) == 0
    ensures forall k :: 0 <= k < |runs| ==> Clean(runs[k])
  {
    if runs != [] {
      PassedAtMost(DropLast(runs));
      NoFailuresMeansClean(DropLast(runs));
      AllPassed(Last(runs).cases);
      assert Clean(Last(runs));
      forall k | 0 <= k < |runs| ensures Clean(runs[k]) {
        if k < |runs| - 1 {
          assert runs[k] == DropLast(runs)[k];
        }
      }
    }
  }

  /** In a run of either order that ends with SUCCESS, every chosen suite was entered and nothing in it
      failed, the cases executed are exactly the selected ones in their order, and all of them passed. */
  lemma SuccessMeansAllPassed(suites: seq<TestSuite>, sels: seq<Selection>, order: CaseOrder, oracle: Oracle,
                              runs: seq<SuiteRun>, sum: Summary)
    requires |sels| == |suites| && RunSoFar(suites, sels, order, oracle, |suites|, runs, sum) && Succeeds(sum)
    ensures Entered(runs) == Chosen(sels, |suites|) && InRange(Entered(runs), |suites|)
    ensures forall k :: 0 <= k < |runs| ==> Clean(runs[k])
    ensures Executed(runs) == SelectedIn(suites, sels, Chosen(sels, |suites|))
    ensures sum.blocked == 0 && sum.passed == sum.tests == |Executed(runs)|
  {
    NoFailuresMeansClean(runs);
    CleanExecutesAll(runs, suites, sels, order);
    ExecutedCount(runs);
  }

  // ---------------------------------------------------------------------
  // Passing, read off the outcomes of the steps
  // ---------------------------------------------------------------------

  predicate AllCasesOk(cases: seq<CaseRun>) {
    forall k :: 0 <= k < |cases| ==> CaseOk(cases[k])
  }

  lemma LastCaseRan(cases: seq<CaseRun>, suite: TestSuite, start: nat, oracle: Oracle)
    requires cases != [] && CasesRan(cases, suite, start, oracle)
    ensures CasesRan(DropLast(cases), suite, start, oracle) && Last(cases).index < |suite.cases|
    ensures CaseRan(Last(cases), suite.cases[Last(cases).index], CasesEnd(DropLast(cases), start), oracle)
  {
    var init := DropLast(cases);
    assert cases[..|cases| - 1] == init;
    forall k | 0 <= k < |init|
      ensures && init[k].index < |suite.cases|
              && CaseRan(init[k], suite.cases[init[k].index], CasesEnd(init[..k], start), oracle)
    {
      assert init[..k] == cases[..k];
    }
  }

  lemma LastCaseOk(cases: seq<CaseRun>)
    requires cases != []
    ensures AllCasesOk(cases) <==> AllCasesOk(DropLast(cases)) && CaseOk(Last(cases))
  {
    assert cases[|cases| - 1] == Last(cases);
    assert forall k :: 0 <= k < |cases| - 1 ==> DropLast(cases)[k] == cases[k];
  }

  lemma {:induction false} CasesPass(cases: seq<CaseRun>, suite: TestSuite, start: nat, oracle: Oracle)
    requires CasesRan(cases, suite, start, oracle)
    ensures start <= CasesEnd(cases, start)
    ensures AllCasesOk(cases) <==> AllPass(oracle, start, CasesEnd(cases, start))
  {
    if cases != [] {
      var init, c := DropLast(cases), Last(cases);
      LastCaseRan(cases, suite, start, oracle);
      LastCaseOk(cases);
      CasesPass(init, suite, start, oracle);
      CasePasses(c, suite.cases[c.index], CasesEnd(init, start), oracle);
      AllPassJoins(oracle, start, CasesEnd(init, start), End(c.teardown));
    }
  }

  /** An entered suite does its preparation first, its teardown last, and is clean exactly
      when every step attempted in it passed. */
  lemma SuitePasses(r: SuiteRun, suites: seq<TestSuite>, start: nat, oracle: Oracle)
    requires SuiteRan(r, suites, start, oracle)
    ensures start <= End(r.teardown)
    ensures Clean(r) <==> forall n: nat :: start <= n < End(r.teardown) ==> oracle(n)
    ensures r.preparation.start == start && End(r.preparation) == start + suites[r.suite].preparation
    ensures r.teardown.start == CasesEnd(r.cases, End(r.preparation))
    ensures End(r.teardown) == r.teardown.start + suites[r.suite].teardown
  {
    var suite, late := suites[r.suite], CasesEnd(r.cases, End(r.preparation));
    PhasePasses(r.preparation, start, suite.preparation, oracle);
    CasesPass(r.cases, suite, End(r.preparation), oracle);
    PhasePasses(r.teardown, late, suite.teardown, oracle);
    AllPassJoins(oracle, start, End(r.preparation), late);
    AllPassJoins(oracle, start, late, End(r.teardown));
    assert Clean(r) <==> AllPass(oracle, start, End(r.teardown));
  }

  predicate AllSuitesClean(runs: seq<SuiteRun>) {
    forall k :: 0 <= k < |runs| ==> Clean(runs[k])
  }

  lemma LastSuiteRan(runs: seq<SuiteRun>, suites: seq<TestSuite>, oracle: Oracle)
    requires runs != [] && NothingSkipped(runs, suites, oracle)
    ensures NothingSkipped(DropLast(runs), suites, oracle)
    ensures SuiteRan(Last(runs), suites, RunEnd(DropLast(runs)), oracle)
  {
    var init := DropLast(runs);
    assert runs[..|runs| - 1] == init;
    forall k | 0 <= k < |init| ensures SuiteRan(init[k], suites, RunEnd(init[..k]), oracle) {
      assert init[..k] == runs[..k];
    }
  }

  lemma LastSuiteClean(runs: seq<SuiteRun>)
    requires runs != []
    ensures AllSuitesClean(runs) <==> AllSuitesClean(DropLast(runs)) && Clean(Last(runs))
  {
    assert runs[|runs| - 1] == Last(runs);
    assert forall k :: 0 <= k < |runs| - 1 ==> DropLast(runs)[k] == runs[k];
  }

  lemma {:induction false} RunPasses(runs: seq<SuiteRun>, suites: seq<TestSuite>, oracle: Oracle)
    requires NothingSkipped(runs, suites, oracle)
    ensures AllSuitesClean(runs) <==> AllPass(oracle, 0, RunEnd(runs))
  {
    if runs != [] {
      var before := RunEnd(DropLast(runs));
      LastSuiteRan(runs, suites, oracle);
      LastSuiteClean(runs);
      RunPasses(DropLast(runs), suites, oracle);
      SuitePasses(Last(runs), suites, before, oracle);
      AllPassJoins(oracle, 0, before, RunEnd(runs));
    }
  }

  /** The failure counts of clean suites are all zero. */
  lemma {:induction false} CleanCountsNothing(runs: seq<SuiteRun>)
    requires AllSuitesClean(runs)
    ensures TotalPassed(runs) == TotalExecuted(runs)
    ensures PreparationFailures(runs) == 0 && TeardownFailures(runs) == 0
  {
    if runs != [] {
      assert forall k :: 0 <= k < |runs| - 1 ==> DropLast(runs)[k] == runs[k];
      CleanCountsNothing(DropLast(runs));
      assert Clean(runs[|runs| - 1]);
      AllPassed(Last(runs).cases);
    }
  }

  /** The exit code: in either order a run ends with SUCCESS exactly when every step it
      attempted passed, preparations, cases and teardowns alike. */
  lemma SuccessIffNoStepFailed(suites: seq<TestSuite>, sels: seq<Selection>, order: CaseOrder, oracle: Oracle,
                               runs: seq<SuiteRun>, sum: Summary)
    requires |sels| == |suites| && RunSoFar(suites, sels, order, oracle, |suites|, runs, sum)
    ensures sum.failed == 0 && sum.preparationFailed == 0 && sum.teardownFailed == 0
            <==> forall n: nat :: 0 <= n < sum.steps ==> oracle(n)
    ensures Succeeds(sum) <==> forall n: nat :: 0 <= n < sum.steps ==> oracle(n)
  {
    RunPasses(runs, suites, oracle);
    if Succeeds(sum) {
      NoFailuresMeansClean(runs);
    }
    if AllSuitesClean(runs) {
      CleanCountsNothing(runs);
    }
    assert Succeeds(sum) <==> AllPass(oracle, 0, sum.steps);
  }

  /** Every step of a case that was run passed. */
  predicate StepsPass(c: CaseRun, oracle: Oracle) {
    AllPass(oracle, c.preparation.start, End(c.teardown))
  }

  lemma StepsPassIff(cases: seq<CaseRun>, k: nat, suite: TestSuite, start: nat, oracle: Oracle)
    requires CasesRan(cases, suite, start, oracle) && k < |cases|
    ensures CaseOk(cases[k]) <==> StepsPass(cases[k], oracle)
  {
    CasePasses(cases[k], suite.cases[cases[k].index], CasesEnd(cases[..k], start), oracle);
  }

  /** Which cases of an entered suite are executed. A failed preparation step blocks them all.
      Otherwise an independent suite executes every selected case, and a sequential one the selected
      cases up to the first in which a step fails. */
  lemma WhichCasesRun(r: SuiteRun, suites: seq<TestSuite>, sel: Selection, order: CaseOrder, start: nat,
                      oracle: Oracle)
    requires SuiteRan(r, suites, start, oracle) && CasesDecided(r, suites[r.suite], sel, order)
    ensures var prepared := AllPass(oracle, start, start + suites[r.suite].preparation);
            var selected := Selected(suites[r.suite], sel);
            && (!prepared ==> r.cases == [])
            && |r.cases| <= |selected| && (forall k :: 0 <= k < |r.cases| ==> r.cases[k].index == selected[k])
            && (prepared && order.Independent? ==> |r.cases| == |selected|)
            && (order.Sequential? ==> forall k :: 0 <= k < |r.cases| - 1 ==> StepsPass(r.cases[k], oracle))
            && (prepared && |r.cases| < |selected| ==> r.cases != [] && !StepsPass(Last(r.cases), oracle))
  {
    PhasePasses(r.preparation, start, suites[r.suite].preparation, oracle);
    assert |Indices(r.cases)| == |r.cases|;
    forall k | 0 <= k < |r.cases| ensures r.cases[k].index == Selected(suites[r.suite], sel)[k] {
      assert Indices(r.cases)[k] == Selected(suites[r.suite], sel)[k];
    }
    forall k | 0 <= k < |r.cases| ensures CaseOk(r.cases[k]) <==> StepsPass(r.cases[k], oracle) {
      StepsPassIff(r.cases, k, suites[r.suite], End(r.preparation), oracle);
    }
    assert r.cases != [] ==> Last(r.cases) == r.cases[|r.cases| - 1];
  }
}
