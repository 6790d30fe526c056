/** Finite sets and sequences without repetitions. */
module Sets {

  lemma SubsetSize<T>(a: set<T>, b: set<T>)
    requires a <= b
    ensures |a| <= |b|
  {
    assert b == a + (b - a);
  }

  function Interval(lo: nat, hi: nat): (s: set<nat>)
    ensures forall i: nat :: i in s <==> lo <= i < hi
    ensures lo <= hi ==> |s| == hi - lo
  {
    if hi <= lo then {} else Interval(lo, hi - 1) + {hi - 1}
  }

  ghost predicate NoDup<T>(s: seq<T>) {
    forall i, j | 0 <= i < j < |s| :: s[i] != s[j]
  }

  ghost function Elements<T>(s: seq<T>): set<T> {
    set x | x in s
  }

  lemma {:induction false} DistinctCount<T>(s: seq<T>)
    requires NoDup(s)
    ensures |Elements(s)| == |s|
  {
    if s != [] {
      var n := |s| - 1;
      DistinctCount(s[..n]);
      assert s == s[..n] + [s[n]];
      assert Elements(s) == Elements(s[..n]) + {s[n]};
    }
  }

  /** `n` different numbers below `n` are all of them. */
  lemma AllBelow(s: seq<nat>, n: nat, i: nat)
    requires NoDup(s) && |s| == n && i < n && forall j | 0 <= j < n :: s[j] < n
    ensures i in s
  {
    DistinctCount(s);
    if i !in s {
      assert Elements(s) <= Interval(0, n) - {i};
      SubsetSize(Elements(s), Interval(0, n) - {i});
    }
  }

  /** `s` without the first `x`: `listDelete` on a list that holds each node once. */
  function Without<T(==)>(s: seq<T>, x: T): (r: seq<T>)
    ensures |r| == if x in s then |s| - 1 else |s|
  {
    if s == [] then [] else if s[0] == x then s[1..] else [s[0]] + Without(s[1..], x)
  }

  lemma {:induction false} WithoutMembers<T>(s: seq<T>, x: T)
    requires NoDup(s)
    ensures NoDup(Without(s, x))
    ensures forall y :: y in Without(s, x) <==> y in s && y != x
  {
    if s != [] {
      var rest := s[1..];
      WithoutMembers(rest, x);
      assert s == [s[0]] + rest && s[0] !in rest;
      assert forall y :: y in s <==> y == s[0] || y in rest;
      assert forall y :: y in [s[0]] + Without(rest, x) <==> y == s[0] || y in Without(rest, x);
    }
  }

  /** Everything else stays in order. */
  lemma {:induction false} WithoutCuts<T>(s: seq<T>, k: nat)
    requires k < |s| && s[k] !in s[..k]
    ensures Without(s, s[k]) == s[..k] + s[k + 1..]
  {
    if k > 0 {
      assert s[1..][..k - 1] == s[..k][1..];
      WithoutCuts(s[1..], k - 1);
      assert s[0] in s[..k];
    }
  }

  lemma {:induction false} WithoutAbsent<T>(s: seq<T>, x: T)
    requires x !in s
    ensures Without(s, x) == s
  {
    if s != [] {
      WithoutAbsent(s[1..], x);
    }
  }

  lemma FreshExists(used: set<nat>)
    ensures exists n: nat :: n !in used
  {
    var bound := UpperBound(used);
    assert bound !in used;
  }

  lemma {:induction false} UpperBound(used: set<nat>) returns (bound: nat)
    ensures forall n | n in used :: n < bound
  {
    bound := 0;
    if used != {} {
      var n :| n in used;
      var rest := UpperBound(used - {n});
      assert used == (used - {n}) + {n};
      bound := if n < rest then rest else n + 1;
    }
  }

  lemma FirstIsMember<T>(s: seq<T>)
    requires s != []
    ensures exists x :: x in s
  {
    assert s[0] in s;
  }
}
