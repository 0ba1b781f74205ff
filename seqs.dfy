/**
 * Order-preserving selection and element-wise mapping over sequences: the
 * `Array.prototype.filter` and `map` that the components apply to fetched rows.
 */
module Seqs {

  /** The elements of `s` that `keep` accepts, in their original order. */
  function Where<T>(s: seq<T>, keep: T -> bool): (r: seq<T>)
    ensures |r| <= |s|
  {
    if s == [] then []
    else (if keep(s[0]) then [s[0]] else []) + Where(s[1..], keep)
  }

  /** `f` applied to every element of `s`. */
  function Map<A, B>(s: seq<A>, f: A -> B): (r: seq<B>)
    ensures |r| == |s|
    ensures forall i :: 0 <= i < |s| ==> r[i] == f(s[i])
  {
    seq(|s|, i requires 0 <= i < |s| => f(s[i]))
  }

  /** A sequence that continues `start` with `f` of each element of `rows`, in order, is `start + Map(rows, f)`. */
  lemma MapAppended<A, B>(s: seq<B>, start: seq<B>, rows: seq<A>, f: A -> B)
    requires |s| == |start| + |rows| && s[..|start|] == start
    requires forall k :: 0 <= k < |rows| ==> s[|start| + k] == f(rows[k])
    ensures s == start + Map(rows, f)
  {
    var m := Map(rows, f);
    forall j | 0 <= j < |s|
      ensures s[j] == (start + m)[j]
    {
      if j >= |start| {
        assert s[|start| + (j - |start|)] == f(rows[j - |start|]);
      } else {
        assert s[..|start|][j] == s[j];
      }
    }
  }

  /** `sub` is obtained from `s` by deleting elements, keeping the order of the rest. */
  predicate IsSubsequence<T(==)>(sub: seq<T>, s: seq<T>)
    decreases |s|
  {
    if s == [] then sub == []
    else IsSubsequence(sub, s[1..]) || (sub != [] && sub[0] == s[0] && IsSubsequence(sub[1..], s[1..]))
  }

  lemma {:induction false} WhereIsSubsequence<T>(s: seq<T>, keep: T -> bool)
    ensures IsSubsequence(Where(s, keep), s)
  {
    if s != [] {
      WhereIsSubsequence(s[1..], keep);
      var rest := Where(s[1..], keep);
      if keep(s[0]) {
        assert Where(s, keep) == [s[0]] + rest;
        assert ([s[0]] + rest)[1..] == rest;
      } else {
        assert Where(s, keep) == rest;
      }
    }
  }

  lemma {:induction false} WhereContains<T>(s: seq<T>, keep: T -> bool, x: T)
    ensures x in Where(s, keep) <==> x in s && keep(x)
  {
    if s != [] {
      WhereContains(s[1..], keep, x);
      assert s == [s[0]] + s[1..];
    }
  }

  /** Every kept element keeps all its copies; every other element loses them all. */
  lemma {:induction false} WhereCounts<T>(s: seq<T>, keep: T -> bool, x: T)
    ensures multiset(Where(s, keep))[x] == if keep(x) then multiset(s)[x] else 0
  {
    if s != [] {
      WhereCounts(s[1..], keep, x);
      assert s == [s[0]] + s[1..];
      assert multiset(s) == multiset([s[0]]) + multiset(s[1..]);
    }
  }

  /** Selecting with two predicates that agree everywhere gives the same sequence. */
  lemma {:induction false} WhereCongruent<T>(s: seq<T>, p: T -> bool, q: T -> bool)
    requires forall x :: p(x) == q(x)
    ensures Where(s, p) == Where(s, q)
  {
    if s != [] {
      WhereCongruent(s[1..], p, q);
    }
  }

  /** When `keep` accepts every element, nothing is removed. */
  lemma {:induction false} WhereKeepsAll<T>(s: seq<T>, keep: T -> bool)
    requires forall i :: 0 <= i < |s| ==> keep(s[i])
    ensures Where(s, keep) == s
  {
    if s != [] {
      WhereKeepsAll(s[1..], keep);
    }
  }

  /** Two successive selections are one selection by the conjunction. */
  lemma {:induction false} WhereThenWhere<T>(s: seq<T>, p: T -> bool, q: T -> bool, both: T -> bool)
    requires forall x :: both(x) == (p(x) && q(x))
    ensures Where(Where(s, p), q) == Where(s, both)
  {
    if s != [] {
      WhereThenWhere(s[1..], p, q, both);
      var rest := Where(s[1..], p);
      if p(s[0]) {
        var w := [s[0]] + rest;
        assert Where(s, p) == w;
        assert w[0] == s[0] && w[1..] == rest;
        assert Where(w, q) == (if q(s[0]) then [s[0]] else []) + Where(rest, q);
      } else {
        assert Where(s, p) == rest;
      }
    }
  }

  /**
   * Selections by two disjoint predicates that together cover `whole` split the
   * selection by `whole`: every selected element lands on exactly one side.
   */
  lemma {:induction false} WherePartition<T>(s: seq<T>, whole: T -> bool, left: T -> bool, right: T -> bool)
    requires forall x :: whole(x) == (left(x) || right(x))
    requires forall x :: !(left(x) && right(x))
    ensures multiset(Where(s, left)) + multiset(Where(s, right)) == multiset(Where(s, whole))
    ensures |Where(s, left)| + |Where(s, right)| == |Where(s, whole)|
  {
    if s != [] {
      WherePartition(s[1..], whole, left, right);
      assert multiset(Where(s, left)) + multiset(Where(s, right)) == multiset(Where(s, whole));
    }
  }
}
