/**
 * Counting, grouping and row selection over sequences: the pandas idioms
 * `(s == x).sum()`, `groupby(key).transform("count")` and `df[mask]`.
 */
module Seqs {

  /** Number of elements satisfying `p`. */
  function Count<T>(s: seq<T>, p: T -> bool): (n: nat)
    ensures n <= |s|
  {
    if |s| == 0 then 0 else Count(s[..|s| - 1], p) + (if p(s[|s| - 1]) then 1 else 0)
  }

  /** The elements satisfying `p`, in their original order: exactly the
      elements at the satisfying positions, in increasing position order
      (the row order of pandas boolean indexing). */
  function Filter<T>(s: seq<T>, p: T -> bool): (r: seq<T>)
    ensures r == Select(s, Indices(s, p))
    ensures |r| == Count(s, p)
    ensures forall k | 0 <= k < |r| :: p(r[k]) && r[k] in s
    ensures forall i | 0 <= i < |s| && p(s[i]) :: s[i] in r
  {
    if |s| == 0 then []
    else
      var n := |s| - 1;
      var idx := Indices(s[..n], p);
      SelectOfPrefix(s, n, idx);
      if p(s[n]) then
        SelectSnoc(s, idx, n);
        Filter(s[..n], p) + [s[n]]
      else
        Filter(s[..n], p)
  }

  /** Positions of the elements satisfying `p`, strictly increasing. */
  function Indices<T>(s: seq<T>, p: T -> bool): (r: seq<nat>)
    ensures |r| == Count(s, p)
    ensures forall k | 0 <= k < |r| :: r[k] < |s| && p(s[r[k]])
    ensures forall k, l | 0 <= k < l < |r| :: r[k] < r[l]
    ensures forall i | 0 <= i < |s| && p(s[i]) :: i in r
  {
    if |s| == 0 then []
    else
      var n := |s| - 1;
      var r := Indices(s[..n], p);
      if p(s[n]) then r + [n] else r
  }

  /** The elements at the given positions, in the order of the positions. */
  function Select<T>(s: seq<T>, idx: seq<nat>): (r: seq<T>)
    requires forall k | 0 <= k < |idx| :: idx[k] < |s|
    ensures |r| == |idx|
    ensures forall k | 0 <= k < |idx| :: r[k] == s[idx[k]]
  {
    seq(|idx|, k requires 0 <= k < |idx| => s[idx[k]])
  }

  /** Nothing is counted when no element satisfies `p`. */
  lemma {:induction false} NoneCounted<T>(s: seq<T>, p: T -> bool)
    requires forall i | 0 <= i < |s| :: !p(s[i])
    ensures Count(s, p) == 0
  {
    if |s| > 0 {
      NoneCounted(s[..|s| - 1], p);
    }
  }

  /** Two aligned sequences whose elements satisfy their tests at the same
      positions have the same satisfying positions. */
  lemma {:induction false} IndicesAgree<S, T>(s: seq<S>, p: S -> bool, t: seq<T>, q: T -> bool)
    requires |s| == |t| && forall i | 0 <= i < |s| :: p(s[i]) == q(t[i])
    ensures Indices(s, p) == Indices(t, q)
  {
    if |s| > 0 {
      var n := |s| - 1;
      IndicesAgree(s[..n], p, t[..n], q);
    }
  }

  lemma SelectOfPrefix<T>(s: seq<T>, n: nat, idx: seq<nat>)
    requires n <= |s|
    requires forall k | 0 <= k < |idx| :: idx[k] < n
    ensures Select(s[..n], idx) == Select(s, idx)
  {
  }

  lemma SelectSnoc<T>(s: seq<T>, idx: seq<nat>, n: nat)
    requires n < |s|
    requires forall k | 0 <= k < |idx| :: idx[k] < |s|
    ensures Select(s, idx + [n]) == Select(s, idx) + [s[n]]
  {
  }

  // ---------------------------------------------------------------------
  // Occurrence counts and group counts
  // ---------------------------------------------------------------------

  /** Number of occurrences of `x`. */
  function CountEq<T(==)>(s: seq<T>, x: T): (n: nat)
    ensures n <= |s|
  {
    if |s| == 0 then 0
    else
      var m := |s| - 1;
      assert s == s[..m] + [s[m]];
      CountEq(s[..m], x) + (if s[m] == x then 1 else 0)
  }

  /** `x` is counted exactly when it occurs. */
  lemma {:induction false} CountEqPositive<T>(s: seq<T>, x: T)
    ensures CountEq(s, x) > 0 <==> x in s
  {
    if |s| > 0 {
      var m := |s| - 1;
      CountEqPositive(s[..m], x);
      assert s == s[..m] + [s[m]];
    }
  }

  /** The positions holding `x`: the reference definition of `CountEq`. */
  ghost function Positions<T>(s: seq<T>, x: T): set<nat> {
    set i: nat | i < |s| && s[i] == x
  }

  lemma {:induction false} CountEqIsCardinality<T>(s: seq<T>, x: T)
    ensures CountEq(s, x) == |Positions(s, x)|
  {
    if |s| == 0 {
      assert Positions(s, x) == {};
    } else {
      var m := |s| - 1;
      CountEqIsCardinality(s[..m], x);
      if s[m] == x {
        assert Positions(s, x) == Positions(s[..m], x) + {m};
      } else {
        assert Positions(s, x) == Positions(s[..m], x);
      }
    }
  }

  lemma {:induction false} CountEqAppend<T>(a: seq<T>, b: seq<T>, x: T)
    ensures CountEq(a + b, x) == CountEq(a, x) + CountEq(b, x)
  {
    if |b| == 0 {
      assert a + b == a;
    } else {
      var m := |b| - 1;
      CountEqAppend(a, b[..m], x);
      assert (a + b)[..|a + b| - 1] == a + b[..m];
    }
  }

  /** `groupby(key).transform("count")`: for every element, the number of
      elements of the whole sequence with the same key. */
  function GroupCounts<K(==)>(keys: seq<K>): (r: seq<nat>)
    ensures |r| == |keys|
    ensures forall i | 0 <= i < |keys| :: 1 <= r[i] <= |keys|
    ensures forall i | 0 <= i < |keys| :: r[i] == CountEq(keys, keys[i])
    ensures forall i, j | 0 <= i < |keys| && 0 <= j < |keys| && keys[i] == keys[j] :: r[i] == r[j]
  {
    var r := seq(|keys|, i requires 0 <= i < |keys| => CountEq(keys, keys[i]));
    forall i | 0 <= i < |keys| ensures 1 <= r[i] {
      CountEqPositive(keys, keys[i]);
    }
    r
  }

  /** Keys x, x, y with x != y give counts 2, 2, 1. */
  lemma GroupCountsExample<K>(x: K, y: K)
    requires x != y
    ensures GroupCounts([x, x, y]) == [2, 2, 1]
  {
    var s := [x, x, y];
    assert s[..2] == [x, x] && s[..2][..1] == [x] && s[..2][..1][..0] == [];
    assert CountEq([x], x) == 1 && CountEq([x], y) == 0;
    assert CountEq([x, x], x) == 2 && CountEq([x, x], y) == 0;
    assert CountEq(s, x) == 2 && CountEq(s, y) == 1;
  }

  /** Group counts are batch-relative: in a merged batch each count is the
      sum of the counts of the two parts. */
  lemma GroupCountsAppend<K>(a: seq<K>, b: seq<K>, i: nat)
    requires i < |a|
    ensures GroupCounts(a + b)[i] == CountEq(a, a[i]) + CountEq(b, a[i])
  {
    assert (a + b)[i] == a[i];
    CountEqAppend(a, b, a[i]);
  }

  /** A sequence of 0/1 labels splits into its zeros and its ones. */
  lemma {:induction false} CountBinaryPartition(s: seq<int>)
    requires forall i | 0 <= i < |s| :: s[i] == 0 || s[i] == 1
    ensures CountEq(s, 0) + CountEq(s, 1) == |s|
  {
    if |s| > 0 {
      CountBinaryPartition(s[..|s| - 1]);
    }
  }

  // ---------------------------------------------------------------------
  // Agreement of two aligned sequences
  // ---------------------------------------------------------------------

  /** Number of positions at which `a` and `b` agree. */
  function Agreements<T(==)>(a: seq<T>, b: seq<T>): (n: nat)
    requires |a| == |b|
    ensures n <= |a|
    ensures n == |a| <==> a == b
    ensures n == 0 <==> forall i | 0 <= i < |a| :: a[i] != b[i]
  {
    if |a| == 0 then 0
    else
      var m := |a| - 1;
      assert a == a[..m] + [a[m]] && b == b[..m] + [b[m]];
      Agreements(a[..m], b[..m]) + (if a[m] == b[m] then 1 else 0)
  }

  /** The positions at which `a` and `b` agree: the reference definition
      of `Agreements`. */
  ghost function AgreeingPositions<T>(a: seq<T>, b: seq<T>): set<nat>
    requires |a| == |b|
  {
    set i: nat | i < |a| && a[i] == b[i]
  }

  lemma {:induction false} AgreementsIsCardinality<T>(a: seq<T>, b: seq<T>)
    requires |a| == |b|
    ensures Agreements(a, b) == |AgreeingPositions(a, b)|
  {
    if |a| == 0 {
      assert AgreeingPositions(a, b) == {};
    } else {
      var m := |a| - 1;
      AgreementsIsCardinality(a[..m], b[..m]);
      if a[m] == b[m] {
        assert AgreeingPositions(a, b) == AgreeingPositions(a[..m], b[..m]) + {m};
      } else {
        assert AgreeingPositions(a, b) == AgreeingPositions(a[..m], b[..m]);
      }
    }
  }

  /** The fraction of positions at which `a` and `b` agree
      (`accuracy_score`, or the mean of an elementwise `==`). */
  function AgreementRate<T(==)>(a: seq<T>, b: seq<T>): (r: real)
    requires |a| == |b| > 0
    ensures r * |a| as real == Agreements(a, b) as real
    ensures 0.0 <= r <= 1.0
    ensures r == 1.0 <==> a == b
    ensures r == 0.0 <==> forall i | 0 <= i < |a| :: a[i] != b[i]
  {
    var n := Agreements(a, b);
    RatioBounds(n as real, |a| as real);
    n as real / |a| as real
  }

  lemma RatioBounds(n: real, m: real)
    requires 0.0 <= n <= m && m > 0.0
    ensures 0.0 <= n / m <= 1.0
    ensures n / m == 1.0 <==> n == m
    ensures n / m == 0.0 <==> n == 0.0
  {
    assert n / m * m == n;
  }
}
