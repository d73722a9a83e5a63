/** The optional value used wherever the source returns `Option`. */
module Wrappers {
  datatype Option<+T> = None | Some(value: T)

  function Min(a: nat, b: nat): nat {
    if a <= b then a else b
  }

  function Last<T>(s: seq<T>): T
    requires s != []
  {
    s[|s| - 1]
  }

  function DropLast<T>(s: seq<T>): seq<T>
    requires s != []
  {
    s[..|s| - 1]
  }

  /** The concatenation of `f` over `s`: every projection of a message trace is one of these. */
  function Collect<A, B>(s: seq<A>, f: A -> seq<B>): seq<B> {
    if s == [] then [] else Collect(DropLast(s), f) + f(Last(s))
  }

  lemma {:induction false} CollectConcat<A, B>(s: seq<A>, t: seq<A>, f: A -> seq<B>)
    ensures Collect(s + t, f) == Collect(s, f) + Collect(t, f)
  {
    if t == [] {
      assert s + t == s;
    } else {
      CollectConcat(s, DropLast(t), f);
      assert DropLast(s + t) == s + DropLast(t);
    }
  }

  function Flatten<T>(ss: seq<seq<T>>): seq<T> {
    if ss == [] then [] else Flatten(DropLast(ss)) + Last(ss)
  }

  lemma FlattenSnoc<T>(ss: seq<seq<T>>, s: seq<T>)
    ensures Flatten(ss + [s]) == Flatten(ss) + s
  {
    assert DropLast(ss + [s]) == ss;
  }

  /** `a` is obtained from `b` by leaving elements out. */
  predicate Subsequence<T(==)>(a: seq<T>, b: seq<T>)
    decreases |b|
  {
    a == [] ||
    (b != [] && (Subsequence(a, DropLast(b)) || (Last(a) == Last(b) && Subsequence(DropLast(a), DropLast(b)))))
  }

  lemma SubsequenceSnoc<T>(a: seq<T>, b: seq<T>, x: T)
    requires Subsequence(a, b)
    ensures Subsequence(a + [x], b + [x])
  {
    assert DropLast(a + [x]) == a && DropLast(b + [x]) == b;
  }

  lemma {:induction false} SubsequenceDelete<T>(a: seq<T>, b: seq<T>, k: nat)
    requires Subsequence(a, b) && k < |a|
    ensures Subsequence(a[..k] + a[k + 1..], b)
    decreases |b|
  {
    var d := a[..k] + a[k + 1..];
    if Subsequence(a, DropLast(b)) {
      SubsequenceDelete(a, DropLast(b), k);
    } else if k == |a| - 1 {
      assert d == DropLast(a);
      SubsequenceWeaken(d, DropLast(b), Last(b));
      assert b == DropLast(b) + [Last(b)];
    } else {
      SubsequenceDelete(DropLast(a), DropLast(b), k);
      assert DropLast(d) == DropLast(a)[..k] + DropLast(a)[k + 1..];
    }
  }

  lemma SubsequenceWeaken<T>(a: seq<T>, b: seq<T>, x: T)
    requires Subsequence(a, b)
    ensures Subsequence(a, b + [x])
  {
    assert DropLast(b + [x]) == b;
  }
}
