/**
 Which suites and cases a run covers (conformance/src/engine.rs): filters are
 resolved per suite, and a sequential run adds everything that comes before the
 last match. How a filter matches a name is a parameter.
 */
module SuiteSelection {
  import opened Wrappers

  /** A case, with the lengths of its step lists. */
  datatype TestCase = TestCase(name: string, preparation: nat, steps: nat, teardown: nat)

  datatype TestSuite = TestSuite(name: string, preparation: nat, cases: seq<TestCase>, teardown: nat)

  datatype CaseOrder = Independent | Sequential

  datatype Selection = NoCases | AllCases | Cases(indices: seq<nat>)

  type NameMatch = (string, string) -> bool

  predicate MatchesAny(matches: NameMatch, name: string, filters: seq<string>) {
    exists k :: 0 <= k < |filters| && matches(name, filters[k])
  }

  /** Indices of the cases from `from` on whose names match. */
  function MatchingCases(matches: NameMatch, cases: seq<TestCase>, filters: seq<string>, from: nat): seq<nat>
    requires from <= |cases|
    decreases |cases| - from
  {
    if from == |cases| then []
    else
      var here := if MatchesAny(matches, cases[from].name, filters) then [from] else [];
      here + MatchingCases(matches, cases, filters, from + 1)
  }

  /** A match on the suite's own name wins outright. */
  function SelectSuite(matches: NameMatch, suite: TestSuite, filters: seq<string>): Selection {
    if filters == [] || MatchesAny(matches, suite.name, filters) then AllCases
    else
      var cases := MatchingCases(matches, suite.cases, filters, 0);
      if cases == [] then NoCases else Cases(cases)
  }

  predicate Selects(sel: Selection, i: nat) {
    match sel
    case NoCases => false
    case AllCases => true
    case Cases(indices) => i in indices
  }

  function CaseCount(sel: Selection, suite: TestSuite): nat {
    match sel
    case NoCases => 0
    case AllCases => |suite.cases|
    case Cases(indices) => |indices|
  }

  predicate Increasing(s: seq<nat>) {
    forall i, j :: 0 <= i < j < |s| ==> s[i] < s[j]
  }

  predicate InRange(s: seq<nat>, n: nat) {
    forall i :: 0 <= i < |s| ==> s[i] < n
  }

  /** What every selection keeps: a nonempty, strictly increasing list of cases the suite has. */
  predicate WellFormed(sel: Selection, suite: TestSuite) {
    sel.Cases? ==> sel.indices != [] && Increasing(sel.indices) && InRange(sel.indices, |suite.cases|)
  }

  function Direct(matches: NameMatch, suites: seq<TestSuite>, filters: seq<string>): (r: seq<Selection>)
    ensures |r| == |suites|
  {
    seq(|suites|, s requires 0 <= s < |suites| => SelectSuite(matches, suites[s], filters))
  }

  /** Whether `last` is the last suite something is selected from. */
  predicate IsLast(sels: seq<Selection>, last: nat) {
    last < |sels| && !sels[last].NoCases? && forall s :: last < s < |sels| ==> sels[s].NoCases?
  }

  function UpTo(n: nat): (r: seq<nat>)
    ensures |r| == n && forall i :: 0 <= i < n ==> r[i] == i
  {
    seq(n, i requires 0 <= i < n => i as nat)
  }

  lemma UpToMembers(n: nat)
    ensures forall i :: i in UpTo(n) <==> 0 <= i < n
  {
    forall i | 0 <= i < n ensures i in UpTo(n) {
      assert UpTo(n)[i] == i;
    }
  }

  /** The selections with the prefix up to the last selected suite and case filled in. */
  predicate Filled(direct: seq<Selection>, last: nat, r: seq<Selection>)
    requires last < |direct|
  {
    && |r| == |direct|
    && (forall s :: 0 <= s < last ==> r[s].AllCases?)
    && (forall s :: last < s < |r| ==> r[s] == direct[s])
    && (match direct[last]
        case Cases(indices) => indices != [] && r[last] == Cases(UpTo(Last(indices) + 1))
        case _ => r[last] == direct[last])
  }

  ghost predicate Resolved(direct: seq<Selection>, order: CaseOrder, r: seq<Selection>) {
    if order.Sequential? && exists last :: IsLast(direct, last) then
      exists last :: IsLast(direct, last) && Filled(direct, last, r)
    else r == direct
  }

  /** One past the last suite something is selected from. */
  method EndOfSelected(sels: array<Selection>) returns (end: nat)
    ensures if end == 0 then forall s :: 0 <= s < sels.Length ==> sels[s].NoCases? else IsLast(sels[..], end - 1)
  {
    end := sels.Length;
    while end > 0 && sels[end - 1].NoCases?
      invariant 0 <= end <= sels.Length
      invariant forall s :: end <= s < sels.Length ==> sels[s].NoCases?
    {
      end := end - 1;
    }
  }

  /** Fill the prefix in, in place. */
  method FillUpTo(sels: array<Selection>, last: nat)
    requires last < sels.Length && (sels[last].Cases? ==> sels[last].indices != [])
    modifies sels
    ensures Filled(old(sels[..]), last, sels[..])
  {
    for s := 0 to last
      invariant forall t :: 0 <= t < s ==> sels[t] == AllCases
      invariant forall t :: s <= t < sels.Length ==> sels[t] == old(sels[t])
    {
      sels[s] := AllCases;
    }
    if sels[last].Cases? {
      sels[last] := Cases(UpTo(Last(sels[last].indices) + 1));
    }
  }

  lemma FilledIsWellFormed(suites: seq<TestSuite>, direct: seq<Selection>, last: nat, r: seq<Selection>)
    requires |direct| == |suites| && last < |suites| && Filled(direct, last, r)
    requires forall s :: 0 <= s < |suites| ==> WellFormed(direct[s], suites[s])
    ensures forall s :: 0 <= s < |suites| ==> WellFormed(r[s], suites[s])
  {
    assert WellFormed(direct[last], suites[last]);
  }

  method SelectSuites(matches: NameMatch, suites: seq<TestSuite>, filters: seq<string>, order: CaseOrder)
    returns (r: seq<Selection>)
    ensures |r| == |suites| && Resolved(Direct(matches, suites, filters), order, r)
    ensures forall s :: 0 <= s < |suites| ==> WellFormed(r[s], suites[s])
  {
    ghost var direct := Direct(matches, suites, filters);
    DirectWellFormed(matches, suites, filters);
    var selected := new Selection[|suites|](s requires 0 <= s < |suites| => SelectSuite(matches, suites[s], filters));
    assert selected[..] == direct;
    if order == Sequential {
      var end := EndOfSelected(selected);
      if end > 0 {
        assert WellFormed(direct[end - 1], suites[end - 1]);
        FillUpTo(selected, end - 1);
        FilledIsWellFormed(suites, direct, end - 1, selected[..]);
      }
    }
    return selected[..];
  }

  // ---------------------------------------------------------------------
  // One suite
  // ---------------------------------------------------------------------

  lemma {:induction false} MatchingCasesAre(matches: NameMatch, cases: seq<TestCase>, filters: seq<string>, from: nat)
    requires from <= |cases|
    ensures forall i :: i in MatchingCases(matches, cases, filters, from)
              <==> from <= i < |cases| && MatchesAny(matches, cases[i].name, filters)
    decreases |cases| - from
  {
    if from < |cases| {
      MatchingCasesAre(matches, cases, filters, from + 1);
    }
  }

  lemma IncreasingCons(x: nat, rest: seq<nat>, n: nat)
    requires Increasing(rest) && InRange(rest, n) && x < n && forall y :: y in rest ==> x < y
    ensures Increasing([x] + rest) && InRange([x] + rest, n)
  {
    assert forall k :: 0 <= k < |rest| ==> rest[k] in rest;
  }

  lemma {:induction false} MatchingCasesIncrease(matches: NameMatch, cases: seq<TestCase>, filters: seq<string>,
                                                 from: nat)
    requires from <= |cases|
    ensures Increasing(MatchingCases(matches, cases, filters, from))
    ensures InRange(MatchingCases(matches, cases, filters, from), |cases|)
    decreases |cases| - from
  {
    if from < |cases| {
      MatchingCasesIncrease(matches, cases, filters, from + 1);
      MatchingCasesAre(matches, cases, filters, from + 1);
      var rest := MatchingCases(matches, cases, filters, from + 1);
      IncreasingCons(from, rest, |cases|);
      assert [] + rest == rest;
    }
  }

  lemma DirectWellFormed(matches: NameMatch, suites: seq<TestSuite>, filters: seq<string>)
    ensures forall s :: 0 <= s < |suites| ==> WellFormed(Direct(matches, suites, filters)[s], suites[s])
  {
    forall s | 0 <= s < |suites| ensures WellFormed(Direct(matches, suites, filters)[s], suites[s]) {
      MatchingCasesIncrease(matches, suites[s].cases, filters, 0);
    }
  }

  // ---------------------------------------------------------------------
  // Items: the suites and cases of a run, in the order they are reached
  // ---------------------------------------------------------------------

  datatype Item = SuiteItem(suite: nat) | CaseItem(suite: nat, caseIndex: nat)

  /** `a` is reached no later than `b`: a suite before its cases, one suite before the next. */
  predicate NotAfter(a: Item, b: Item) {
    || a.suite < b.suite
    || (a.suite == b.suite && (a.SuiteItem? || (b.CaseItem? && a.caseIndex <= b.caseIndex)))
  }

  predicate Exists(suites: seq<TestSuite>, item: Item) {
    item.suite < |suites| && (item.CaseItem? ==> item.caseIndex < |suites[item.suite].cases|)
  }

  predicate Covers(suites: seq<TestSuite>, sels: seq<Selection>, item: Item)
    requires |sels| == |suites|
  {
    && Exists(suites, item)
    && !sels[item.suite].NoCases?
    && (item.CaseItem? ==> Selects(sels[item.suite], item.caseIndex))
  }

  /** What a filter list asks for by itself: an empty one everything, and otherwise a suite
      with the cases a filter names, or all of a suite a filter names. */
  predicate Requested(matches: NameMatch, suites: seq<TestSuite>, filters: seq<string>, item: Item)
    requires Exists(suites, item)
  {
    var suite := suites[item.suite];
    || filters == []
    || (exists k :: 0 <= k < |filters| && matches(suite.name, filters[k]))
    || (match item
        case SuiteItem(_) =>
          exists i, k :: 0 <= i < |suite.cases| && 0 <= k < |filters| && matches(suite.cases[i].name, filters[k])
        case CaseItem(_, i) => exists k :: 0 <= k < |filters| && matches(suite.cases[i].name, filters[k]))
  }

  lemma DirectCoversRequested(matches: NameMatch, suites: seq<TestSuite>, filters: seq<string>, item: Item)
    ensures Covers(suites, Direct(matches, suites, filters), item)
            <==> Exists(suites, item) && Requested(matches, suites, filters, item)
  {
    if Exists(suites, item) {
      var suite := suites[item.suite];
      var cases := MatchingCases(matches, suite.cases, filters, 0);
      MatchingCasesAre(matches, suite.cases, filters, 0);
      if cases != [] {
        assert cases[0] in cases;
      }
    }
  }

  /** Whether something selected directly is reached at or after `item`. */
  ghost predicate LeadsToSelected(suites: seq<TestSuite>, direct: seq<Selection>, item: Item)
    requires |direct| == |suites|
  {
    exists d :: Covers(suites, direct, d) && NotAfter(item, d)
  }

  lemma LastIsReached(suites: seq<TestSuite>, direct: seq<Selection>, last: nat, item: Item)
    requires |direct| == |suites| && IsLast(direct, last) && WellFormed(direct[last], suites[last])
    requires Exists(suites, item)
    ensures item.suite < last ==> LeadsToSelected(suites, direct, item)
    ensures item == SuiteItem(last) ==> LeadsToSelected(suites, direct, item)
    ensures direct[last].Cases? && item.suite == last && item.CaseItem? && item.caseIndex <= Last(direct[last].indices)
            ==> LeadsToSelected(suites, direct, item)
    ensures direct[last].AllCases? && item.suite == last ==> LeadsToSelected(suites, direct, item)
  {
    assert Covers(suites, direct, SuiteItem(last));
    if direct[last].Cases? {
      assert Last(direct[last].indices) in direct[last].indices;
      assert Covers(suites, direct, CaseItem(last, Last(direct[last].indices)));
    } else if item.suite == last {
      assert Covers(suites, direct, item) && NotAfter(item, item);
    }
  }

  lemma NothingBeyondLast(suites: seq<TestSuite>, direct: seq<Selection>, last: nat, item: Item)
    requires |direct| == |suites| && IsLast(direct, last) && WellFormed(direct[last], suites[last])
    requires LeadsToSelected(suites, direct, item)
    ensures item.suite <= last
    ensures item.suite == last && item.CaseItem? && direct[last].Cases? ==> item.caseIndex <= Last(direct[last].indices)
  {
    var d :| Covers(suites, direct, d) && NotAfter(item, d);
    if d.suite == last && d.CaseItem? && direct[last].Cases? {
      var k :| 0 <= k < |direct[last].indices| && direct[last].indices[k] == d.caseIndex;
    }
  }

  lemma FilledIsClosure(suites: seq<TestSuite>, direct: seq<Selection>, last: nat, r: seq<Selection>, item: Item)
    requires |direct| == |suites| == |r| && IsLast(direct, last) && WellFormed(direct[last], suites[last])
    requires Filled(direct, last, r)
    ensures Covers(suites, r, item) <==> Exists(suites, item) && LeadsToSelected(suites, direct, item)
  {
    if direct[last].Cases? {
      UpToMembers(Last(direct[last].indices) + 1);
    }
    if Exists(suites, item) {
      LastIsReached(suites, direct, last, item);
      if LeadsToSelected(suites, direct, item) {
        NothingBeyondLast(suites, direct, last, item);
      }
    }
  }

  /** A sequential selection is everything reached at or before something the filters select directly. */
  lemma SequentialIsClosure(suites: seq<TestSuite>, direct: seq<Selection>, r: seq<Selection>, item: Item)
    requires |direct| == |suites| && forall s :: 0 <= s < |suites| ==> WellFormed(direct[s], suites[s])
    requires Resolved(direct, Sequential, r) && |r| == |suites|
    ensures Covers(suites, r, item) <==> Exists(suites, item) && LeadsToSelected(suites, direct, item)
  {
    if exists last :: IsLast(direct, last) {
      var last: nat :| IsLast(direct, last) && Filled(direct, last, r);
      FilledIsClosure(suites, direct, last, r, item);
    } else {
      NoneSelected(direct, |direct|);
    }
  }

  lemma {:induction false} NoneSelected(direct: seq<Selection>, k: nat)
    requires k <= |direct| && forall s :: k <= s < |direct| ==> direct[s].NoCases?
    requires !exists last :: IsLast(direct, last)
    ensures forall s :: 0 <= s < |direct| ==> direct[s].NoCases?
  {
    if k > 0 {
      assert !IsLast(direct, k - 1);
      NoneSelected(direct, k - 1);
    }
  }

  /** Closed under going back in the run's order. */
  ghost predicate IsPrefix(suites: seq<TestSuite>, prefix: iset<Item>) {
    forall a, b :: b in prefix && Exists(suites, a) && NotAfter(a, b) ==> a in prefix
  }

  lemma EarlierLeadsToo(suites: seq<TestSuite>, direct: seq<Selection>, a: Item, b: Item)
    requires |direct| == |suites| && LeadsToSelected(suites, direct, b) && NotAfter(a, b)
    ensures LeadsToSelected(suites, direct, a)
  {
    var d :| Covers(suites, direct, d) && NotAfter(b, d);
    assert NotAfter(a, d);
  }

  /** That is the smallest prefix of the run's order that holds every direct match. */
  lemma SequentialIsSmallestPrefix(suites: seq<TestSuite>, direct: seq<Selection>, r: seq<Selection>,
                                   prefix: iset<Item>)
    requires |direct| == |suites| && forall s :: 0 <= s < |suites| ==> WellFormed(direct[s], suites[s])
    requires Resolved(direct, Sequential, r) && |r| == |suites|
    ensures forall a :: Covers(suites, direct, a) ==> Covers(suites, r, a)
    ensures IsPrefix(suites, iset a | Covers(suites, r, a))
    ensures (forall a :: Covers(suites, direct, a) ==> a in prefix) && IsPrefix(suites, prefix)
            ==> forall a :: Covers(suites, r, a) ==> a in prefix
  {
    forall a ensures Covers(suites, r, a) <==> Exists(suites, a) && LeadsToSelected(suites, direct, a) {
      SequentialIsClosure(suites, direct, r, a);
    }
    forall a | Covers(suites, direct, a) ensures Covers(suites, r, a) {
      assert NotAfter(a, a);
    }
    forall a, b | Covers(suites, r, b) && Exists(suites, a) && NotAfter(a, b) ensures Covers(suites, r, a) {
      EarlierLeadsToo(suites, direct, a, b);
    }
  }

  // ---------------------------------------------------------------------
  // Unions and monotonicity
  // ---------------------------------------------------------------------

  /** A nonempty filter list selects what its filters select one at a time. */
  lemma DirectIsUnion(matches: NameMatch, suites: seq<TestSuite>, filters: seq<string>, item: Item)
    requires filters != []
    ensures Covers(suites, Direct(matches, suites, filters), item)
            <==> exists f :: f in filters && Covers(suites, Direct(matches, suites, [f]), item)
  {
    DirectCoversRequested(matches, suites, filters, item);
    if Exists(suites, item) {
      var suite := suites[item.suite];
      if Requested(matches, suites, filters, item) {
        var f := RequestedBy(matches, suites, filters, item);
        DirectCoversRequested(matches, suites, [f], item);
      }
      forall f | f in filters && Covers(suites, Direct(matches, suites, [f]), item)
        ensures Requested(matches, suites, filters, item)
      {
        DirectCoversRequested(matches, suites, [f], item);
        RequestGrows(matches, suites, [f], filters, item);
      }
    }
  }

  lemma RequestedBy(matches: NameMatch, suites: seq<TestSuite>, filters: seq<string>, item: Item) returns (f: string)
    requires filters != [] && Exists(suites, item) && Requested(matches, suites, filters, item)
    ensures f in filters && Requested(matches, suites, [f], item)
  {
    var suite := suites[item.suite];
    if MatchesAny(matches, suite.name, filters) {
      f := MatchedBy(matches, suite.name, filters);
    } else if item.CaseItem? {
      f := MatchedBy(matches, suite.cases[item.caseIndex].name, filters);
    } else {
      var i :| 0 <= i < |suite.cases| && MatchesAny(matches, suite.cases[i].name, filters);
      f := MatchedBy(matches, suite.cases[i].name, filters);
    }
  }

  lemma MatchedBy(matches: NameMatch, name: string, filters: seq<string>) returns (f: string)
    requires MatchesAny(matches, name, filters)
    ensures f in filters && MatchesAny(matches, name, [f])
  {
    var k :| 0 <= k < |filters| && matches(name, filters[k]);
    f := filters[k];
    assert matches(name, [f][0]);
  }

  lemma MatchesGrow(matches: NameMatch, name: string, filters: seq<string>, more: seq<string>)
    requires forall f :: f in filters ==> f in more
    ensures MatchesAny(matches, name, filters) ==> MatchesAny(matches, name, more)
  {
    if MatchesAny(matches, name, filters) {
      var k :| 0 <= k < |filters| && matches(name, filters[k]);
      assert filters[k] in more;
    }
  }

  lemma RequestGrows(matches: NameMatch, suites: seq<TestSuite>, filters: seq<string>, more: seq<string>, item: Item)
    requires Exists(suites, item) && filters != [] && forall f :: f in filters ==> f in more
    ensures Requested(matches, suites, filters, item) ==> Requested(matches, suites, more, item)
  {
    var suite := suites[item.suite];
    MatchesGrow(matches, suite.name, filters, more);
    forall i | 0 <= i < |suite.cases|
      ensures MatchesAny(matches, suite.cases[i].name, filters) ==> MatchesAny(matches, suite.cases[i].name, more)
    {
      MatchesGrow(matches, suite.cases[i].name, filters, more);
    }
  }

  /** More filters never select less, in either order. */
  lemma SelectionIsMonotone(matches: NameMatch, suites: seq<TestSuite>, filters: seq<string>, more: seq<string>,
                            order: CaseOrder, r: seq<Selection>, larger: seq<Selection>, item: Item)
    requires filters != [] && forall f :: f in filters ==> f in more
    requires Resolved(Direct(matches, suites, filters), order, r) && |r| == |suites|
    requires Resolved(Direct(matches, suites, more), order, larger) && |larger| == |suites|
    requires Covers(suites, r, item)
    ensures Covers(suites, larger, item)
  {
    if order.Independent? {
      DirectGrows(matches, suites, filters, more, item);
    } else {
      DirectWellFormed(matches, suites, filters);
      DirectWellFormed(matches, suites, more);
      SequentialIsClosure(suites, Direct(matches, suites, filters), r, item);
      SequentialIsClosure(suites, Direct(matches, suites, more), larger, item);
      var d :| Covers(suites, Direct(matches, suites, filters), d) && NotAfter(item, d);
      DirectGrows(matches, suites, filters, more, d);
    }
  }

  lemma DirectGrows(matches: NameMatch, suites: seq<TestSuite>, filters: seq<string>, more: seq<string>, item: Item)
    requires filters != [] && forall f :: f in filters ==> f in more
    requires Covers(suites, Direct(matches, suites, filters), item)
    ensures Covers(suites, Direct(matches, suites, more), item)
  {
    DirectCoversRequested(matches, suites, filters, item);
    DirectCoversRequested(matches, suites, more, item);
    RequestGrows(matches, suites, filters, more, item);
  }

  // ---------------------------------------------------------------------
  // Counting
  // ---------------------------------------------------------------------

  /** The selected cases among the first `k`, in order. */
  function SelectedUpTo(sel: Selection, k: nat): seq<nat> {
    if k == 0 then [] else SelectedUpTo(sel, k - 1) + (if Selects(sel, k - 1) then [k - 1] else [])
  }

  lemma {:induction false} SelectedAreSelected(sel: Selection, k: nat)
    ensures Increasing(SelectedUpTo(sel, k)) && InRange(SelectedUpTo(sel, k), k)
    ensures forall i :: i in SelectedUpTo(sel, k) <==> 0 <= i < k && Selects(sel, i)
  {
    if k > 0 {
      SelectedAreSelected(sel, k - 1);
    }
  }

  lemma EmptyUnlessMember<T>(s: seq<T>)
    ensures s == [] || exists x :: x in s
  {
    if s != [] {
      assert s[0] in s;
    }
  }

  /** Two strictly increasing lists with the same members are equal. */
  lemma {:induction false} IncreasingUnique(a: seq<nat>, b: seq<nat>)
    requires Increasing(a) && Increasing(b) && forall x :: x in a <==> x in b
    ensures a == b
  {
    if a == [] {
      EmptyUnlessMember(b);
    } else if b == [] {
      EmptyUnlessMember(a);
    } else {
      assert Last(a) in b && Last(b) in a;
      assert Last(a) == Last(b);
      forall x ensures x in DropLast(a) <==> x in DropLast(b) {
        assert x in DropLast(a) <==> x in a && x != Last(a);
        assert x in DropLast(b) <==> x in b && x != Last(b);
      }
      IncreasingUnique(DropLast(a), DropLast(b));
    }
  }

  /** A selection's count is the number of cases it runs. */
  lemma CountIsSelected(sel: Selection, suite: TestSuite)
    requires WellFormed(sel, suite)
    ensures CaseCount(sel, suite) == |SelectedUpTo(sel, |suite.cases|)|
    ensures sel.Cases? ==> SelectedUpTo(sel, |suite.cases|) == sel.indices
  {
    var n := |suite.cases|;
    SelectedAreSelected(sel, n);
    match sel
    case NoCases =>
      EmptyUnlessMember(SelectedUpTo(sel, n));
    case AllCases =>
      UpToMembers(n);
      IncreasingUnique(SelectedUpTo(sel, n), UpTo(n));
    case Cases(indices) => IncreasingUnique(SelectedUpTo(sel, n), indices);
  }

  lemma {:induction false} MoreSelectsMore(sel: Selection, other: Selection, k: nat)
    requires forall i :: 0 <= i < k && Selects(sel, i) ==> Selects(other, i)
    ensures |SelectedUpTo(sel, k)| <= |SelectedUpTo(other, k)|
  {
    if k > 0 {
      MoreSelectsMore(sel, other, k - 1);
    }
  }

  /** The number of prerequisites, included minus requested, is never negative. */
  lemma PrerequisitesNeverUnderflow(matches: NameMatch, suites: seq<TestSuite>, filters: seq<string>, order: CaseOrder,
                                    r: seq<Selection>, s: nat)
    requires Resolved(Direct(matches, suites, filters), order, r) && |r| == |suites| && s < |suites|
    requires WellFormed(r[s], suites[s])
    ensures CaseCount(SelectSuite(matches, suites[s], filters), suites[s]) <= CaseCount(r[s], suites[s])
  {
    var direct := Direct(matches, suites, filters);
    DirectWellFormed(matches, suites, filters);
    CountIsSelected(direct[s], suites[s]);
    CountIsSelected(r[s], suites[s]);
    forall i: nat | i < |suites[s].cases| && Selects(direct[s], i) ensures Selects(r[s], i) {
      var item := CaseItem(s, i);
      assert Covers(suites, direct, item) && NotAfter(item, item);
      if order.Sequential? {
        SequentialIsClosure(suites, direct, r, item);
      }
    }
    MoreSelectsMore(direct[s], r[s], |suites[s].cases|);
  }

  /** The cases selected over all suites. */
  function TotalCases(sels: seq<Selection>, suites: seq<TestSuite>): nat
    requires |sels| == |suites|
  {
    if sels == [] then 0 else TotalCases(DropLast(sels), DropLast(suites)) + CaseCount(Last(sels), Last(suites))
  }

  lemma {:induction false} TotalsCompare(a: seq<Selection>, b: seq<Selection>, suites: seq<TestSuite>)
    requires |a| == |b| == |suites|
    requires forall s :: 0 <= s < |suites| ==> CaseCount(a[s], suites[s]) <= CaseCount(b[s], suites[s])
    ensures TotalCases(a, suites) <= TotalCases(b, suites)
  {
    if suites != [] {
      TotalsCompare(DropLast(a), DropLast(b), DropLast(suites));
    }
  }

  /** Nor is it over all suites together. */
  lemma TotalsNeverUnderflow(matches: NameMatch, suites: seq<TestSuite>, filters: seq<string>, order: CaseOrder,
                             r: seq<Selection>)
    requires Resolved(Direct(matches, suites, filters), order, r) && |r| == |suites|
    requires forall s :: 0 <= s < |suites| ==> WellFormed(r[s], suites[s])
    ensures |Direct(matches, suites, filters)| == |suites|
    ensures TotalCases(Direct(matches, suites, filters), suites) <= TotalCases(r, suites)
  {
    var direct := Direct(matches, suites, filters);
    DirectWellFormed(matches, suites, filters);
    forall s | 0 <= s < |suites| ensures CaseCount(direct[s], suites[s]) <= CaseCount(r[s], suites[s]) {
      PrerequisitesNeverUnderflow(matches, suites, filters, order, r, s);
    }
    TotalsCompare(direct, r, suites);
  }
}
