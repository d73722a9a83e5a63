/**
 Choosing the one DUT process a run can drive (conformance/src/bin/runner.rs):
 suites for other processes are removed from the list in a fixed order.
 */
module DutSelection {
  import opened Wrappers

  datatype SuiteDut = Bcu2 | Bcu2Secure | MicroSystem7 | MicroSystem7Secure | System7 | System7Secure

  /** A suite names the process it requires, if any. */
  datatype Suite = Suite(name: string, dut: Option<SuiteDut>)

  /** The mode returned: a process some suites require, or the caller's default. */
  datatype DutMode = Requiring(dut: SuiteDut) | Default

  predicate OnlyRequires(suites: seq<Suite>, dut: SuiteDut) {
    suites != [] && forall i :: 0 <= i < |suites| ==> suites[i].dut == Some(dut)
  }

  /** The suites that do not require any of `duts`, in their order. */
  function Without(suites: seq<Suite>, duts: set<SuiteDut>): seq<Suite> {
    if suites == [] then []
    else if DropsOut(Last(suites), duts) then Without(DropLast(suites), duts)
    else Without(DropLast(suites), duts) + [Last(suites)]
  }

  predicate DropsOut(s: Suite, duts: set<SuiteDut>) {
    s.dut.Some? && s.dut.value in duts
  }

  const ALL_DUTS: set<SuiteDut> := {Bcu2, Bcu2Secure, MicroSystem7, MicroSystem7Secure, System7, System7Secure}

  /** The suites given up before a process is considered. */
  function RemovedFor(mode: DutMode): set<SuiteDut> {
    match mode
    case Default => ALL_DUTS
    case Requiring(dut) =>
      match dut
      case MicroSystem7Secure => {}
      case Bcu2Secure => {MicroSystem7Secure}
      case System7 => ALL_DUTS - {System7}
      case _ => {MicroSystem7Secure, Bcu2Secure}
  }

  /** Whether a process is the one left to drive once the suites given up for it are gone. */
  predicate IsLeft(suites: seq<Suite>, dut: SuiteDut) {
    OnlyRequires(Without(suites, RemovedFor(Requiring(dut))), dut)
  }

  lemma {:induction false} WithoutMembers(suites: seq<Suite>, duts: set<SuiteDut>)
    ensures forall s :: s in Without(suites, duts) <==> s in suites && !DropsOut(s, duts)
  {
    if suites != [] {
      WithoutMembers(DropLast(suites), duts);
      assert suites == DropLast(suites) + [Last(suites)];
    }
  }

  /** What is kept keeps its order. */
  lemma {:induction false} WithoutKeepsOrder(suites: seq<Suite>, duts: set<SuiteDut>)
    ensures Subsequence(Without(suites, duts), suites) && |Without(suites, duts)| <= |suites|
  {
    if suites != [] {
      WithoutKeepsOrder(DropLast(suites), duts);
      assert suites == DropLast(suites) + [Last(suites)];
      if DropsOut(Last(suites), duts) {
        SubsequenceWeaken(Without(suites, duts), DropLast(suites), Last(suites));
      } else {
        SubsequenceSnoc(Without(DropLast(suites), duts), DropLast(suites), Last(suites));
      }
    }
  }

  lemma {:induction false} WithoutTwice(suites: seq<Suite>, a: set<SuiteDut>, b: set<SuiteDut>)
    ensures Without(Without(suites, a), b) == Without(suites, a + b)
  {
    if suites != [] {
      WithoutTwice(DropLast(suites), a, b);
      if !DropsOut(Last(suites), a) {
        assert DropLast(Without(suites, a)) == Without(DropLast(suites), a);
      }
    }
  }

  lemma {:induction false} WithoutUnaffected(suites: seq<Suite>, duts: set<SuiteDut>)
    requires forall s :: s in suites ==> !DropsOut(s, duts)
    ensures Without(suites, duts) == suites
  {
    if suites != [] {
      var last := Last(suites);
      assert suites == DropLast(suites) + [last] && last in suites;
      WithoutUnaffected(DropLast(suites), duts);
    }
  }

  lemma OnlyIffMembers(suites: seq<Suite>, dut: SuiteDut)
    ensures OnlyRequires(suites, dut) <==> (exists s :: s in suites) && forall s :: s in suites ==> s.dut == Some(dut)
  {
    if suites != [] {
      assert suites[0] in suites;
    }
  }

  /** No two processes are left at once, so the order they are considered in does not matter. */
  lemma AtMostOneLeft(suites: seq<Suite>, a: SuiteDut, b: SuiteDut)
    requires IsLeft(suites, a) && IsLeft(suites, b)
    ensures a == b
  {
    var forA, forB := RemovedFor(Requiring(a)), RemovedFor(Requiring(b));
    OnlyIffMembers(Without(suites, forA), a);
    OnlyIffMembers(Without(suites, forB), b);
    WithoutMembers(suites, forA);
    WithoutMembers(suites, forB);
    var x :| x in Without(suites, forA);
    var y :| y in Without(suites, forB);
    assert x in suites && x.dut == Some(a) && y in suites && y.dut == Some(b);
    assert a !in forA && b !in forB;
    assert a in forB || x in Without(suites, forB);
    assert b in forA || y in Without(suites, forA);
  }

  lemma EveryDut(dut: SuiteDut)
    ensures dut in ALL_DUTS
  {
  }

  /** The two promises of the choice, for what is left of a list when a mode is chosen for it. */
  lemma ChoiceIsDrivable(suites: seq<Suite>, mode: DutMode)
    ensures mode.Default? ==> forall s :: s in Without(suites, RemovedFor(mode)) ==> s.dut.None?
    ensures Subsequence(Without(suites, RemovedFor(mode)), suites)
  {
    WithoutMembers(suites, RemovedFor(mode));
    WithoutKeepsOrder(suites, RemovedFor(mode));
    forall dut: SuiteDut ensures dut in ALL_DUTS {
      EveryDut(dut);
    }
  }

  /** A list that one process can drive is never shrunk. */
  lemma UniformListKept(suites: seq<Suite>, dut: SuiteDut)
    requires OnlyRequires(suites, dut)
    ensures Without(suites, RemovedFor(Requiring(dut))) == suites && IsLeft(suites, dut)
  {
    OnlyIffMembers(suites, dut);
    WithoutUnaffected(suites, RemovedFor(Requiring(dut)));
  }

  /** The suites that ask for exactly this, in their order: a process, or none in particular. */
  function Asking(suites: seq<Suite>, dut: Option<SuiteDut>): seq<Suite> {
    if suites == [] then []
    else if Last(suites).dut == dut then Asking(DropLast(suites), dut) + [Last(suites)]
    else Asking(DropLast(suites), dut)
  }

  lemma {:induction false} KeptAreAsking(suites: seq<Suite>, duts: set<SuiteDut>, dut: Option<SuiteDut>)
    requires forall s :: s in suites && !DropsOut(s, duts) <==> s in suites && s.dut == dut
    ensures Without(suites, duts) == Asking(suites, dut)
  {
    if suites != [] {
      assert Last(suites) in suites;
      assert forall s :: s in DropLast(suites) ==> s in suites;
      KeptAreAsking(DropLast(suites), duts, dut);
    }
  }

  /** Which lists leave one process to drive, read off the list: some suite asks for it, and each other suite
      asks for one given up before it is considered. Nothing is given up before the secure micro System 7,
      that before the secure BCU 2, both before the BCU 2, the micro System 7 and the secure System 7,
      and all others before the plain System 7. */
  lemma LeftIff(suites: seq<Suite>, dut: SuiteDut)
    ensures IsLeft(suites, dut)
            <==> && (exists s :: s in suites && s.dut == Some(dut))
                 && forall s :: s in suites ==>
                      || s.dut == Some(dut)
                      || (dut == Bcu2Secure && s.dut == Some(MicroSystem7Secure))
                      || (dut in {Bcu2, MicroSystem7, System7Secure}
                          && s.dut in {Some(MicroSystem7Secure), Some(Bcu2Secure)})
                      || (dut == System7 && s.dut.Some?)
  {
    var removed := RemovedFor(Requiring(dut));
    WithoutMembers(suites, removed);
    OnlyIffMembers(Without(suites, removed), dut);
    assert dut !in removed;
    forall s | s in suites
      ensures DropsOut(s, removed)
              <==> || (dut == Bcu2Secure && s.dut == Some(MicroSystem7Secure))
                   || (dut in {Bcu2, MicroSystem7, System7Secure}
                       && s.dut in {Some(MicroSystem7Secure), Some(Bcu2Secure)})
                   || (dut == System7 && s.dut.Some? && s.dut != Some(System7))
    {
      if s.dut.Some? {
        EveryDut(s.dut.value);
      }
    }
    if s :| s in suites && s.dut == Some(dut) {
      assert s in Without(suites, removed);
    }
  }

  /** What is left of a list: the suites that ask for the process chosen, or those that ask for none. */
  lemma KeptIs(suites: seq<Suite>, mode: DutMode)
    requires mode.Requiring? ==> IsLeft(suites, mode.dut)
    ensures Without(suites, RemovedFor(mode)) == Asking(suites, if mode.Requiring? then Some(mode.dut) else None)
  {
    var removed := RemovedFor(mode);
    var asked := if mode.Requiring? then Some(mode.dut) else None;
    WithoutMembers(suites, removed);
    if mode.Requiring? {
      OnlyIffMembers(Without(suites, removed), mode.dut);
      assert mode.dut !in removed;
    }
    forall s | s in suites ensures !DropsOut(s, removed) <==> s.dut == asked {
      if s.dut.Some? {
        EveryDut(s.dut.value);
      }
      assert !DropsOut(s, removed) ==> s in Without(suites, removed);
    }
    KeptAreAsking(suites, removed, asked);
  }

  /** Two processes asked for by one list: the secure micro ones give way, the micro System 7 before the
      BCU 2; a plain System 7 is driven alone with any other, and of the remaining three no two share a run. */
  lemma TwoProcesses(suites: seq<Suite>, a: SuiteDut, b: SuiteDut, dut: SuiteDut)
    requires a != b && (exists s :: s in suites && s.dut == Some(a)) && (exists s :: s in suites && s.dut == Some(b))
    requires forall s :: s in suites ==> s.dut == Some(a) || s.dut == Some(b)
    ensures a == MicroSystem7Secure ==> (IsLeft(suites, dut) <==> dut == b)
    ensures a == Bcu2Secure && b != MicroSystem7Secure ==> (IsLeft(suites, dut) <==> dut == b)
    ensures {a, b} !! {MicroSystem7Secure, Bcu2Secure} ==>
              (IsLeft(suites, dut) <==> dut == System7 && (a == System7 || b == System7))
  {
    LeftIff(suites, dut);
    var forA :| forA in suites && forA.dut == Some(a);
    var forB :| forB in suites && forB.dut == Some(b);
  }

  class SuiteList {
    var suites: seq<Suite>

    constructor (suites: seq<Suite>)
      ensures this.suites == suites
    {
      this.suites := suites;
    }

    /** `retain` what other processes run; returns how many suites were dropped. */
    method RemoveDut(dut: SuiteDut) returns (count: nat)
      modifies this
      ensures suites == Without(old(suites), {dut}) && count == |old(suites)| - |suites|
    {
      var kept := [];
      for k := 0 to |suites|
        invariant suites == old(suites) && kept == Without(suites[..k], {dut}) && |kept| <= k
      {
        assert DropLast(suites[..k + 1]) == suites[..k];
        if suites[k].dut != Some(dut) {
          kept := kept + [suites[k]];
        }
      }
      assert suites[..|suites|] == suites;
      count := |suites| - |kept|;
      suites := kept;
    }

    /** Choose the process and give up the suites it cannot run. */
    method SelectDutMode() returns (mode: DutMode)
      modifies this
      ensures suites == Without(old(suites), RemovedFor(mode))
      ensures suites == Asking(old(suites), if mode.Requiring? then Some(mode.dut) else None)
      ensures forall dut :: mode == Requiring(dut) <==> IsLeft(old(suites), dut)
    {
      ghost var all := suites;
      mode := SelectSecureMicro();
      if mode.Default? {
        mode := SelectOther(all);
      }
      if mode.Requiring? {
        ChosenIsOnly(all, mode.dut);
      } else {
        forall dut ensures !IsLeft(all, dut) {
          EveryDut(dut);
        }
      }
      KeptIs(all, mode);
    }

    /** The processes that are considered before any unsecured one. */
    method SelectSecureMicro() returns (mode: DutMode)
      modifies this
      ensures mode.Requiring? ==> IsLeft(old(suites), mode.dut) && suites == Without(old(suites), RemovedFor(mode))
      ensures mode.Default? ==>
                && suites == Without(old(suites), {MicroSystem7Secure, Bcu2Secure})
                && !IsLeft(old(suites), MicroSystem7Secure) && !IsLeft(old(suites), Bcu2Secure)
    {
      ghost var all := suites;
      WithoutUnaffected(all, {});
      if OnlyRequires(suites, MicroSystem7Secure) {
        return Requiring(MicroSystem7Secure);
      }
      var dropped := RemoveDut(MicroSystem7Secure);
      if OnlyRequires(suites, Bcu2Secure) {
        return Requiring(Bcu2Secure);
      }
      dropped := RemoveDut(Bcu2Secure);
      WithoutTwice(all, {MicroSystem7Secure}, {Bcu2Secure});
      assert {MicroSystem7Secure} + {Bcu2Secure} == {MicroSystem7Secure, Bcu2Secure};
      return Default;
    }

    method SelectOther(ghost all: seq<Suite>) returns (mode: DutMode)
      requires suites == Without(all, {MicroSystem7Secure, Bcu2Secure})
      modifies this
      ensures mode.Requiring? ==> IsLeft(all, mode.dut)
      ensures suites == Without(all, RemovedFor(mode))
      ensures mode.Default? ==>
                !IsLeft(all, Bcu2) && !IsLeft(all, MicroSystem7) && !IsLeft(all, System7Secure) && !IsLeft(all, System7)
    {
      if OnlyRequires(suites, Bcu2) {
        return Requiring(Bcu2);
      }
      if OnlyRequires(suites, MicroSystem7) {
        return Requiring(MicroSystem7);
      }
      if OnlyRequires(suites, System7Secure) {
        return Requiring(System7Secure);
      }
      RemoveThree(all);
      if OnlyRequires(suites, System7) {
        return Requiring(System7);
      }
      var dropped := RemoveDut(System7);
      WithoutTwice(all, ALL_DUTS - {System7}, {System7});
      assert ALL_DUTS - {System7} + {System7} == ALL_DUTS;
      return Default;
    }

    method RemoveThree(ghost all: seq<Suite>)
      requires suites == Without(all, {MicroSystem7Secure, Bcu2Secure})
      modifies this
      ensures suites == Without(all, ALL_DUTS - {System7})
    {
      var a: set<SuiteDut> := {MicroSystem7Secure, Bcu2Secure};
      var dropped := RemoveDut(Bcu2);
      WithoutTwice(all, a, {Bcu2});
      dropped := RemoveDut(MicroSystem7);
      WithoutTwice(all, a + {Bcu2}, {MicroSystem7});
      dropped := RemoveDut(System7Secure);
      WithoutTwice(all, a + {Bcu2} + {MicroSystem7}, {System7Secure});
      assert a + {Bcu2} + {MicroSystem7} + {System7Secure} == ALL_DUTS - {System7};
    }
  }

  lemma ChosenIsOnly(suites: seq<Suite>, dut: SuiteDut)
    requires IsLeft(suites, dut)
    ensures forall other :: IsLeft(suites, other) <==> other == dut
  {
    forall other | IsLeft(suites, other) ensures other == dut {
      AtMostOneLeft(suites, dut, other);
    }
  }
}
