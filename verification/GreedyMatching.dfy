/**
 Greedy assignment of frames to elements: every frame goes to the first free
 element, in a fixed scan order, that accepts it. Elements are named by index.
 */
module GreedyMatching {
  import opened Wrappers

  predicate Distinct<T(==)>(s: seq<T>) {
    forall i, j :: 0 <= i < j < |s| ==> s[i] != s[j]
  }

  function Elements<T>(s: seq<T>): set<T> {
    set x | x in s
  }

  /** The first element of `order` that is free and accepts `f`. */
  function Claim<F>(order: seq<nat>, free: set<nat>, acc: (nat, F) -> bool, f: F): Option<nat> {
    if order == [] then None
    else if order[0] in free && acc(order[0], f) then Some(order[0])
    else Claim(order[1..], free, acc, f)
  }

  /** The element each frame is assigned to, or nothing if some frame finds none. */
  function Greedy<F>(order: seq<nat>, free: set<nat>, acc: (nat, F) -> bool, frames: seq<F>): Option<seq<nat>> {
    if frames == [] then Some([])
    else
      match Claim(order, free, acc, frames[0])
      case None => None
      case Some(i) =>
        match Greedy(order, free - {i}, acc, frames[1..])
        case None => None
        case Some(p) => Some([i] + p)
  }

  /** `p` assigns every frame its own free element that accepts it. */
  predicate Matching<F>(free: set<nat>, acc: (nat, F) -> bool, frames: seq<F>, p: seq<nat>) {
    |p| == |frames| && Distinct(p) && forall k :: 0 <= k < |p| ==> p[k] in free && acc(p[k], frames[k])
  }

  ghost predicate Matchable<F>(free: set<nat>, acc: (nat, F) -> bool, frames: seq<F>) {
    exists p :: Matching(free, acc, frames, p)
  }

  lemma {:induction false} ClaimIsFirst<F>(order: seq<nat>, free: set<nat>, acc: (nat, F) -> bool, f: F)
    ensures match Claim(order, free, acc, f)
            case None => forall k :: 0 <= k < |order| && order[k] in free ==> !acc(order[k], f)
            case Some(i) =>
              && i in free && acc(i, f)
              && (exists k :: 0 <= k < |order| && order[k] == i
                              && forall j :: 0 <= j < k && order[j] in free ==> !acc(order[j], f))
  {
    if order != [] && !(order[0] in free && acc(order[0], f)) {
      ClaimIsFirst(order[1..], free, acc, f);
      match Claim(order[1..], free, acc, f)
      case None =>
      case Some(i) =>
        var k :| 0 <= k < |order[1..]| && order[1..][k] == i
                 && forall j :: 0 <= j < k && order[1..][j] in free ==> !acc(order[1..][j], f);
        assert order[k + 1] == i;
        forall j | 0 <= j < k + 1 && order[j] in free ensures !acc(order[j], f) {
          if j > 0 {
            assert order[1..][j - 1] == order[j];
          }
        }
    }
  }

  /** Success is sound: it is a matching, whatever the elements accept. */
  lemma {:induction false} GreedySound<F>(order: seq<nat>, free: set<nat>, acc: (nat, F) -> bool, frames: seq<F>)
    requires Greedy(order, free, acc, frames).Some?
    ensures Matching(free, acc, frames, Greedy(order, free, acc, frames).value)
  {
    if frames != [] {
      ClaimIsFirst(order, free, acc, frames[0]);
      var i := Claim(order, free, acc, frames[0]).value;
      GreedySound(order, free - {i}, acc, frames[1..]);
    }
  }

  /** No frame passes over an element that stays free and comes earlier. */
  lemma {:induction false} GreedyPicksFirst<F>(order: seq<nat>, free: set<nat>, acc: (nat, F) -> bool,
                                               frames: seq<F>, t: nat, u: nat, a: nat, b: nat)
    requires Distinct(order) && Greedy(order, free, acc, frames).Some?
    requires t < u < |frames| && |Greedy(order, free, acc, frames).value| == |frames|
    requires a < |order| && order[a] == Greedy(order, free, acc, frames).value[u]
    requires b < |order| && order[b] == Greedy(order, free, acc, frames).value[t]
    requires acc(order[a], frames[t])
    ensures b < a
    decreases |frames|
  {
    GreedySound(order, free, acc, frames);
    var p := Greedy(order, free, acc, frames).value;
    var i := Claim(order, free, acc, frames[0]).value;
    if t == 0 {
      ClaimIsFirst(order, free, acc, frames[0]);
      assert p[u] in free && p[u] != p[0];
    } else {
      var rest := Greedy(order, free - {i}, acc, frames[1..]).value;
      assert p == [i] + rest;
      GreedyPicksFirst(order, free - {i}, acc, frames[1..], t - 1, u - 1, a, b);
    }
  }

  // ---------------------------------------------------------------------
  // Completeness
  // ---------------------------------------------------------------------

  /** Whenever two elements share a frame, the earlier one accepts no more than the later. */
  ghost predicate Nested<F(!new)>(order: seq<nat>, acc: (nat, F) -> bool) {
    forall a, b, f, g :: 0 <= a < b < |order| && acc(order[a], f) && acc(order[b], f) && acc(order[a], g)
                         ==> acc(order[b], g)
  }

  /** Any two elements accept either the same frames or no common frame. */
  ghost predicate SameOrDisjoint<F(!new)>(order: seq<nat>, acc: (nat, F) -> bool) {
    forall a, b :: 0 <= a < |order| && 0 <= b < |order| ==>
      (forall f :: acc(order[a], f) == acc(order[b], f)) || (forall f :: !(acc(order[a], f) && acc(order[b], f)))
  }

  lemma SameOrDisjointIsNested<F(!new)>(order: seq<nat>, acc: (nat, F) -> bool)
    requires SameOrDisjoint(order, acc)
    ensures Nested(order, acc)
  {
    forall a, b, f, g | 0 <= a < b < |order| && acc(order[a], f) && acc(order[b], f) && acc(order[a], g)
      ensures acc(order[b], g)
    {
      assert acc(order[a], g) == acc(order[b], g);
    }
  }

  /** Swapping in the element a frame had gives a matching again. */
  lemma SwapMatching<F>(free: set<nat>, acc: (nat, F) -> bool, frames: seq<F>, p: seq<nat>, m: nat)
    requires frames != [] && Matching(free, acc, frames, p)
    requires m < |frames| - 1 && acc(p[0], frames[m + 1])
    ensures Matching(free - {p[m + 1]}, acc, frames[1..], p[1..][m := p[0]])
  {
    var q := p[1..][m := p[0]];
    assert forall k :: 0 <= k < |q| ==> q[k] == if k == m then p[0] else p[k + 1];
  }

  /** The greedy first choice comes no later than any free element that accepts the frame. */
  lemma ClaimBefore<F>(order: seq<nat>, free: set<nat>, acc: (nat, F) -> bool, f: F, i: nat, j: nat)
    returns (a: nat, b: nat)
    requires Claim(order, free, acc, f) == Some(i) && j in free && j in order && acc(j, f) && j != i
    ensures a < b < |order| && order[a] == i && order[b] == j
  {
    ClaimIsFirst(order, free, acc, f);
    a :| 0 <= a < |order| && order[a] == i && forall k :: 0 <= k < a && order[k] in free ==> !acc(order[k], f);
    b :| 0 <= b < |order| && order[b] == j;
  }

  /** If some matching exists, one exists that agrees with the greedy first choice. */
  lemma Exchange<F(!new)>(order: seq<nat>, free: set<nat>, acc: (nat, F) -> bool, frames: seq<F>, p: seq<nat>)
    returns (i: nat, q: seq<nat>)
    requires Nested(order, acc) && free <= Elements(order)
    requires frames != [] && Matching(free, acc, frames, p)
    ensures Claim(order, free, acc, frames[0]) == Some(i) && Matching(free - {i}, acc, frames[1..], q)
  {
    ClaimIsFirst(order, free, acc, frames[0]);
    var j := p[0];
    assert j in free && j in Elements(order) && acc(j, frames[0]);
    i := Claim(order, free, acc, frames[0]).value;
    if m :| 1 <= m < |p| && p[m] == i {
      var a, b := ClaimBefore(order, free, acc, frames[0], i, j);
      assert acc(order[b], frames[m]);
      SwapMatching(free, acc, frames, p, m - 1);
      q := p[1..][m - 1 := j];
    } else {
      q := p[1..];
    }
  }

  lemma {:induction false} GreedyComplete<F(!new)>(order: seq<nat>, free: set<nat>, acc: (nat, F) -> bool,
                                                   frames: seq<F>)
    requires Nested(order, acc) && free <= Elements(order)
    requires Matchable(free, acc, frames)
    ensures Greedy(order, free, acc, frames).Some?
  {
    if frames != [] {
      var p :| Matching(free, acc, frames, p);
      var i, q := Exchange(order, free, acc, frames, p);
      GreedyComplete(order, free - {i}, acc, frames[1..]);
    }
  }

  /** Under nesting, greedy success and the existence of a matching are the same. */
  lemma GreedyIffMatchable<F(!new)>(order: seq<nat>, free: set<nat>, acc: (nat, F) -> bool, frames: seq<F>)
    requires Nested(order, acc) && free <= Elements(order)
    ensures Greedy(order, free, acc, frames).Some? <==> Matchable(free, acc, frames)
  {
    if Greedy(order, free, acc, frames).Some? {
      GreedySound(order, free, acc, frames);
    }
    if Matchable(free, acc, frames) {
      GreedyComplete(order, free, acc, frames);
    }
  }

  lemma MultisetWithout<T>(s: seq<T>, k: nat)
    requires k < |s|
    ensures multiset(s[..k] + s[k + 1..]) == multiset(s) - multiset{s[k]}
  {
    assert s == s[..k] + [s[k]] + s[k + 1..];
  }

  lemma MatchingWithout<F>(free: set<nat>, acc: (nat, F) -> bool, frames: seq<F>, p: seq<nat>, k: nat)
    requires Matching(free, acc, frames, p) && k < |frames|
    ensures Matching(free - {p[k]}, acc, frames[..k] + frames[k + 1..], p[..k] + p[k + 1..])
  {
  }

  lemma MatchingWith<F>(free: set<nat>, acc: (nat, F) -> bool, frames: seq<F>, p: seq<nat>, i: nat)
    requires frames != [] && i in free && acc(i, frames[0])
    requires Matching(free - {i}, acc, frames[1..], p)
    ensures Matching(free, acc, frames, [i] + p)
  {
  }

  lemma MultisetTail<T>(s: seq<T>)
    requires s != []
    ensures multiset(s[1..]) == multiset(s) - multiset{s[0]}
  {
    assert s == [s[0]] + s[1..];
  }

  lemma RestPermutes<T>(s: seq<T>, other: seq<T>, k: nat)
    requires multiset(s) == multiset(other) && other != [] && k < |s| && s[k] == other[0]
    ensures multiset(s[..k] + s[k + 1..]) == multiset(other[1..])
  {
    MultisetWithout(s, k);
    MultisetTail(other);
  }

  lemma FirstIn<T>(s: seq<T>, other: seq<T>) returns (k: nat)
    requires multiset(s) == multiset(other) && other != []
    ensures k < |s| && s[k] == other[0]
  {
    assert other[0] in multiset(other) && other[0] in multiset(s);
    assert other[0] in s;
    k :| 0 <= k < |s| && s[k] == other[0];
  }

  /** Whether a matching exists does not depend on the order of the frames. */
  lemma {:induction false} MatchablePermutes<F>(free: set<nat>, acc: (nat, F) -> bool, frames: seq<F>, other: seq<F>)
    requires Matchable(free, acc, frames) && multiset(frames) == multiset(other)
    ensures Matchable(free, acc, other)
    decreases |other|
  {
    if other == [] {
      assert Matching(free, acc, other, []);
    } else {
      var p :| Matching(free, acc, frames, p);
      var k := FirstIn(frames, other);
      RestPermutes(frames, other, k);
      MatchingWithout(free, acc, frames, p, k);
      MatchablePermutes(free - {p[k]}, acc, frames[..k] + frames[k + 1..], other[1..]);
      var r :| Matching(free - {p[k]}, acc, other[1..], r);
      MatchingWith(free, acc, other, r, p[k]);
    }
  }

  /** So under nesting the verdict is the same for every arrival order. */
  lemma VerdictIgnoresOrder<F(!new)>(order: seq<nat>, free: set<nat>, acc: (nat, F) -> bool,
                                         frames: seq<F>, other: seq<F>)
    requires Nested(order, acc) && free <= Elements(order) && multiset(frames) == multiset(other)
    ensures Greedy(order, free, acc, frames).Some? <==> Greedy(order, free, acc, other).Some?
  {
    GreedyIffMatchable(order, free, acc, frames);
    GreedyIffMatchable(order, free, acc, other);
    if Matchable(free, acc, frames) {
      MatchablePermutes(free, acc, frames, other);
    }
    if Matchable(free, acc, other) {
      MatchablePermutes(free, acc, other, frames);
    }
  }

  // ---------------------------------------------------------------------
  // Nesting is necessary
  // ---------------------------------------------------------------------

  function Select(order: seq<nat>, keep: nat -> bool): seq<nat> {
    if order == [] then [] else (if keep(order[0]) then [order[0]] else []) + Select(order[1..], keep)
  }

  lemma {:induction false} SelectElements(order: seq<nat>, keep: nat -> bool)
    requires Distinct(order)
    ensures Distinct(Select(order, keep))
    ensures forall x :: x in Select(order, keep) <==> x in order && keep(x)
  {
    if order != [] {
      SelectElements(order[1..], keep);
      assert order == [order[0]] + order[1..];
    }
  }

  lemma {:induction false} DistinctSize<T>(s: seq<T>)
    requires Distinct(s)
    ensures |Elements(s)| == |s|
  {
    if s != [] {
      DistinctSize(s[1..]);
      assert Elements(s) == {s[0]} + Elements(s[1..]);
    }
  }

  lemma {:induction false} SameSizeSubset<T>(a: set<T>, b: set<T>)
    requires a <= b && |a| == |b|
    ensures a == b
  {
    if a != b {
      var x :| x in b && x !in a;
      assert a <= b - {x};
      SubsetSize(a, b - {x});
    }
  }

  lemma {:induction false} SubsetSize<T>(a: set<T>, b: set<T>)
    requires a <= b
    ensures |a| <= |b|
    decreases a
  {
    if a != {} {
      var x :| x in a;
      SubsetSize(a - {x}, b - {x});
    }
  }

  ghost function Sample<F(!new)>(acc: (nat, F) -> bool, i: nat): F
    requires AcceptsSomething(acc, i)
  {
    var f :| acc(i, f);
    f
  }

  ghost predicate AcceptsSomething<F(!new)>(acc: (nat, F) -> bool, i: nat) {
    exists f :: acc(i, f)
  }

  lemma AcceptsWitness<F(!new)>(acc: (nat, F) -> bool, i: nat, f: F)
    requires acc(i, f)
    ensures AcceptsSomething(acc, i)
  {
  }

  ghost predicate Inhabited<F(!new)>(order: seq<nat>, acc: (nat, F) -> bool) {
    forall k :: 0 <= k < |order| ==> AcceptsSomething(acc, order[k])
  }

  /** The frames that break greedy: one `f` for each element accepting `f` but
      not `g`, then one `g` for each element accepting `g`, then the rest. */
  ghost function Breaking<F(!new)>(acc: (nat, F) -> bool, f: F, g: F, onlyF: seq<nat>, withG: seq<nat>, rest: seq<nat>)
    : (frames: seq<F>)
    requires forall x :: x in rest ==> AcceptsSomething(acc, x)
  {
    seq(|onlyF|, i => f) + seq(|withG|, i => g)
    + seq(|rest|, i requires 0 <= i < |rest| => assert rest[i] in rest; Sample(acc, rest[i]))
  }

  lemma BreakingMatches<F(!new)>(acc: (nat, F) -> bool, f: F, g: F, onlyF: seq<nat>, withG: seq<nat>, rest: seq<nat>,
                                 free: set<nat>)
    requires forall x :: x in rest ==> AcceptsSomething(acc, x)
    requires Distinct(onlyF + withG + rest) && Elements(onlyF + withG + rest) == free
    requires forall x :: x in onlyF ==> acc(x, f)
    requires forall x :: x in withG ==> acc(x, g)
    ensures Matching(free, acc, Breaking(acc, f, g, onlyF, withG, rest), onlyF + withG + rest)
  {
    var p := onlyF + withG + rest;
    forall k | 0 <= k < |p| ensures p[k] in free && acc(p[k], Breaking(acc, f, g, onlyF, withG, rest)[k]) {
      assert p[k] in Elements(p);
      if k < |onlyF| {
        assert p[k] == onlyF[k];
      } else if k < |onlyF| + |withG| {
        assert p[k] == withG[k - |onlyF|];
      } else {
        assert p[k] == rest[k - |onlyF| - |withG|];
      }
    }
  }

  /** A run that succeeds on those frames uses exactly the `onlyF` elements for the `f`s. */
  lemma BreakingPins<F(!new)>(acc: (nat, F) -> bool, f: F, g: F, onlyF: seq<nat>, withG: seq<nat>, rest: seq<nat>,
                              free: set<nat>, p: seq<nat>)
    requires forall x :: x in rest ==> AcceptsSomething(acc, x)
    requires Distinct(onlyF) && Distinct(withG)
    requires forall x :: x in free && acc(x, g) ==> x in withG
    requires forall x :: x in free && acc(x, f) && !acc(x, g) ==> x in onlyF
    requires Matching(free, acc, Breaking(acc, f, g, onlyF, withG, rest), p)
    requires forall x :: x in withG ==> acc(x, g)
    ensures Elements(p[0..|onlyF|]) == Elements(onlyF)
    ensures Elements(p[|onlyF|..|onlyF| + |withG|]) == Elements(withG)
  {
    var frames := Breaking(acc, f, g, onlyF, withG, rest);
    var first, second := p[0..|onlyF|], p[|onlyF|..|onlyF| + |withG|];
    forall x | x in Elements(second) ensures x in Elements(withG) {
      var k :| 0 <= k < |second| && second[k] == x;
      assert acc(p[|onlyF| + k], frames[|onlyF| + k]);
    }
    DistinctSize(second);
    DistinctSize(withG);
    SameSizeSubset(Elements(second), Elements(withG));
    forall x | x in Elements(first) ensures x in Elements(onlyF) {
      var k :| 0 <= k < |first| && first[k] == x;
      assert acc(p[k], frames[k]) && frames[k] == f;
      assert x !in Elements(second);
    }
    DistinctSize(first);
    DistinctSize(onlyF);
    SameSizeSubset(Elements(first), Elements(onlyF));
  }

  lemma PartitionDistinct(a: seq<nat>, b: seq<nat>, c: seq<nat>)
    requires Distinct(a) && Distinct(b) && Distinct(c)
    requires forall x :: x in a ==> x !in b && x !in c
    requires forall x :: x in b ==> x !in c
    ensures Distinct(a + b + c)
  {
    DistinctConcat(a, b);
    DistinctConcat(a + b, c);
  }

  lemma DistinctConcat(a: seq<nat>, b: seq<nat>)
    requires Distinct(a) && Distinct(b) && forall x :: x in a ==> x !in b
    ensures Distinct(a + b)
  {
    forall i, j | 0 <= i < j < |a + b| ensures (a + b)[i] != (a + b)[j] {
      if i < |a| <= j {
        assert a[i] in a && b[j - |a|] in b;
      }
    }
  }

  /** The elements of `order`, split by which of `f` and `g` they accept. */
  lemma Partition<F>(order: seq<nat>, acc: (nat, F) -> bool, f: F, g: F)
    returns (onlyF: seq<nat>, withG: seq<nat>, rest: seq<nat>)
    requires Distinct(order)
    ensures Distinct(onlyF + withG + rest) && Elements(onlyF + withG + rest) == Elements(order)
    ensures Distinct(onlyF) && Distinct(withG)
    ensures forall x :: x in onlyF <==> x in order && acc(x, f) && !acc(x, g)
    ensures forall x :: x in withG <==> x in order && acc(x, g)
    ensures forall x :: x in rest ==> x in order
  {
    var isOnlyF := (x: nat) => acc(x, f) && !acc(x, g);
    var isWithG := (x: nat) => acc(x, g);
    var isRest := (x: nat) => !acc(x, f) && !acc(x, g);
    onlyF, withG, rest := Select(order, isOnlyF), Select(order, isWithG), Select(order, isRest);
    SelectElements(order, isOnlyF);
    SelectElements(order, isWithG);
    SelectElements(order, isRest);
    PartitionDistinct(onlyF, withG, rest);
  }

  lemma IndexIn(p: seq<nat>, lo: nat, hi: nat, x: nat, members: seq<nat>) returns (k: nat)
    requires lo <= hi <= |p| && Elements(p[lo..hi]) == Elements(members) && x in members
    ensures lo <= k < hi && p[k] == x
  {
    assert x in Elements(p[lo..hi]);
    var m :| 0 <= m < hi - lo && p[lo..hi][m] == x;
    k := lo + m;
  }

  /** Where a run that succeeds on those frames puts an element that takes only
      `f` and one that takes `g`. */
  lemma BreakingPositions<F(!new)>(order: seq<nat>, acc: (nat, F) -> bool, f: F, g: F, onlyF: seq<nat>, withG: seq<nat>,
                                   rest: seq<nat>, p: seq<nat>, y: nat, x: nat)
    returns (t: nat, u: nat)
    requires forall z :: z in rest ==> AcceptsSomething(acc, z)
    requires Distinct(onlyF) && Distinct(withG)
    requires forall z :: z in onlyF <==> z in order && acc(z, f) && !acc(z, g)
    requires forall z :: z in withG <==> z in order && acc(z, g)
    requires Matching(Elements(order), acc, Breaking(acc, f, g, onlyF, withG, rest), p)
    requires y in onlyF && x in withG
    ensures t < |onlyF| <= u < |p| && p[t] == y && p[u] == x
    ensures Breaking(acc, f, g, onlyF, withG, rest)[t] == f
  {
    BreakingPins(acc, f, g, onlyF, withG, rest, Elements(order), p);
    t := IndexIn(p, 0, |onlyF|, y, onlyF);
    u := IndexIn(p, |onlyF|, |onlyF| + |withG|, x, withG);
  }

  /** On those frames a successful run would pass over an earlier free element. */
  lemma BreakingBreaks<F(!new)>(order: seq<nat>, acc: (nat, F) -> bool, a: nat, b: nat, f: F, g: F,
                                onlyF: seq<nat>, withG: seq<nat>, rest: seq<nat>)
    requires Distinct(order) && a < b < |order|
    requires acc(order[a], f) && acc(order[b], f) && acc(order[a], g) && !acc(order[b], g)
    requires forall x :: x in rest ==> AcceptsSomething(acc, x)
    requires Distinct(onlyF) && Distinct(withG)
    requires forall x :: x in onlyF <==> x in order && acc(x, f) && !acc(x, g)
    requires forall x :: x in withG <==> x in order && acc(x, g)
    ensures Greedy(order, Elements(order), acc, Breaking(acc, f, g, onlyF, withG, rest)).None?
  {
    var frames := Breaking(acc, f, g, onlyF, withG, rest);
    var outcome := Greedy(order, Elements(order), acc, frames);
    if outcome.Some? {
      GreedySound(order, Elements(order), acc, frames);
      var t, u := BreakingPositions(order, acc, f, g, onlyF, withG, rest, outcome.value, order[b], order[a]);
      GreedyPicksFirst(order, Elements(order), acc, frames, t, u, a, b);
    }
  }

  lemma NotNestedBreaks<F(!new)>(order: seq<nat>, acc: (nat, F) -> bool, a: nat, b: nat, f: F, g: F)
    returns (frames: seq<F>)
    requires Distinct(order) && Inhabited(order, acc)
    requires a < b < |order| && acc(order[a], f) && acc(order[b], f) && acc(order[a], g) && !acc(order[b], g)
    ensures |frames| == |order| && Matchable(Elements(order), acc, frames)
    ensures Greedy(order, Elements(order), acc, frames).None?
  {
    var onlyF, withG, rest := Partition(order, acc, f, g);
    forall x | x in rest ensures AcceptsSomething(acc, x) {
      var k :| 0 <= k < |order| && order[k] == x;
    }
    frames := Breaking(acc, f, g, onlyF, withG, rest);
    BreakingMatches(acc, f, g, onlyF, withG, rest, Elements(order));
    DistinctSize(order);
    DistinctSize(onlyF + withG + rest);
    BreakingBreaks(order, acc, a, b, f, g, onlyF, withG, rest);
  }

  /** Greedy finds every perfect matching exactly when the elements are nested. */
  ghost predicate CompleteForAll<F(!new)>(order: seq<nat>, acc: (nat, F) -> bool) {
    forall frames :: |frames| == |order| && Matchable(Elements(order), acc, frames)
                     ==> Greedy(order, Elements(order), acc, frames).Some?
  }

  lemma CompleteIffNested<F(!new)>(order: seq<nat>, acc: (nat, F) -> bool)
    requires Distinct(order) && Inhabited(order, acc)
    ensures CompleteForAll(order, acc) <==> Nested(order, acc)
  {
    if Nested(order, acc) {
      forall frames | |frames| == |order| && Matchable(Elements(order), acc, frames)
        ensures Greedy(order, Elements(order), acc, frames).Some?
      {
        GreedyComplete(order, Elements(order), acc, frames);
      }
    } else {
      var a, b, f, g :| 0 <= a < b < |order| && acc(order[a], f) && acc(order[b], f) && acc(order[a], g)
                        && !acc(order[b], g);
      var frames := NotNestedBreaks(order, acc, a, b, f, g);
    }
  }

  // ---------------------------------------------------------------------
  // Frames in scan order
  // ---------------------------------------------------------------------

  /** The frames of a perfect matching, put in the order of the elements they go to. */
  lemma {:induction false} Rearrange<F>(order: seq<nat>, acc: (nat, F) -> bool, frames: seq<F>, p: seq<nat>)
    returns (other: seq<F>)
    requires |order| == |p| == |frames| && multiset(order) == multiset(p)
    requires forall k :: 0 <= k < |p| ==> acc(p[k], frames[k])
    ensures |other| == |order| && multiset(other) == multiset(frames)
    ensures forall k :: 0 <= k < |order| ==> acc(order[k], other[k])
  {
    if order == [] {
      other := [];
    } else {
      var m := FirstIn(p, order);
      RestPermutes(p, order, m);
      var rest := Rearrange(order[1..], acc, frames[..m] + frames[m + 1..], p[..m] + p[m + 1..]);
      other := [frames[m]] + rest;
      MultisetWithout(frames, m);
      assert multiset(other) == multiset{frames[m]} + multiset(rest);
    }
  }

  /** Fed to the elements in their scan order, such frames are claimed one by one. */
  lemma {:induction false} ScanOrderSucceeds<F>(order: seq<nat>, done: nat, acc: (nat, F) -> bool, frames: seq<F>)
    requires Distinct(order) && done <= |order| == |frames|
    requires forall k :: 0 <= k < |order| ==> acc(order[k], frames[k])
    ensures Greedy(order, Elements(order[done..]), acc, frames[done..]).Some?
    decreases |order| - done
  {
    if done < |order| {
      var free := Elements(order[done..]);
      ClaimsNext(order, done, acc, frames[done]);
      assert free - {order[done]} == Elements(order[done + 1..]) by {
        assert order[done..] == [order[done]] + order[done + 1..];
      }
      assert frames[done..][0] == frames[done] && frames[done..][1..] == frames[done + 1..];
      ScanOrderSucceeds(order, done + 1, acc, frames);
    }
  }

  lemma PassedAreGone(order: seq<nat>, done: nat)
    requires Distinct(order) && done <= |order|
    ensures forall k :: 0 <= k < done ==> order[k] !in Elements(order[done..])
  {
    forall k, m | 0 <= k < done && 0 <= m < |order[done..]| ensures order[done..][m] != order[k] {
      assert order[done..][m] == order[done + m];
    }
  }

  lemma MatchingDistinct<F>(free: set<nat>, acc: (nat, F) -> bool, frames: seq<F>, p: seq<nat>)
    requires Matching(free, acc, frames, p)
    ensures Distinct(p) && |p| == |frames| && Elements(p) <= free
    ensures forall k :: 0 <= k < |p| ==> acc(p[k], frames[k])
  {
  }

  lemma ClaimsNext<F>(order: seq<nat>, done: nat, acc: (nat, F) -> bool, f: F)
    requires Distinct(order) && done < |order| && acc(order[done], f)
    ensures Claim(order, Elements(order[done..]), acc, f) == Some(order[done])
  {
    var free := Elements(order[done..]);
    ClaimIsFirst(order, free, acc, f);
    assert order[done..][0] in free;
    PassedAreGone(order, done);
    var i := Claim(order, free, acc, f).value;
    var k :| 0 <= k < |order| && order[k] == i && forall j :: 0 <= j < k && order[j] in free ==> !acc(order[j], f);
  }

  lemma SameElementsSameMultiset(a: seq<nat>, b: seq<nat>)
    requires Distinct(a) && Distinct(b) && Elements(a) == Elements(b)
    ensures multiset(a) == multiset(b)
  {
    DistinctMultiset(a);
    DistinctMultiset(b);
  }

  lemma {:induction false} DistinctMultiset(a: seq<nat>)
    requires Distinct(a)
    ensures multiset(a) == multiset(Elements(a))
  {
    if a != [] {
      DistinctMultiset(DropLast(a));
      assert a == DropLast(a) + [Last(a)];
      assert Last(a) !in DropLast(a);
      assert Elements(a) == Elements(DropLast(a)) + {Last(a)};
    }
  }

  /** Frames that fit all elements in some way succeed in some order. */
  lemma RearrangedSucceeds<F(!new)>(order: seq<nat>, acc: (nat, F) -> bool, frames: seq<F>) returns (other: seq<F>)
    requires Distinct(order) && |frames| == |order| && Matchable(Elements(order), acc, frames)
    ensures |other| == |order| && multiset(other) == multiset(frames)
    ensures Greedy(order, Elements(order), acc, other).Some?
  {
    var p: seq<nat> :| Matching(Elements(order), acc, frames, p);
    MatchingDistinct(Elements(order), acc, frames, p);
    DistinctSize(p);
    DistinctSize(order);
    SameSizeSubset(Elements(p), Elements(order));
    SameElementsSameMultiset(p, order);
    other := Rearrange(order, acc, frames, p);
    ScanOrderSucceeds(order, 0, acc, other);
    assert order[0..] == order && other[0..] == other;
  }
}
