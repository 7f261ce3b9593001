/** Weighted totals over sequences: wait-group counters and termination measures are such totals. */
module Counting {
  function Total<T>(f: T -> nat, s: seq<T>): nat {
    if s == [] then 0 else f(s[0]) + Total(f, s[1..])
  }

  lemma {:induction false} TotalUpdate<T>(f: T -> nat, s: seq<T>, i: nat, x: T)
    requires i < |s|
    ensures Total(f, s[i := x]) + f(s[i]) == Total(f, s) + f(x)
  {
    if i == 0 {
      assert s[0 := x][1..] == s[1..];
    } else {
      assert s[i := x][1..] == s[1..][i - 1 := x];
      TotalUpdate(f, s[1..], i - 1, x);
    }
  }

  lemma {:induction false} TotalAppend<T>(f: T -> nat, s: seq<T>, x: T)
    ensures Total(f, s + [x]) == Total(f, s) + f(x)
  {
    if s == [] {
      assert (s + [x])[1..] == [];
    } else {
      assert (s + [x])[1..] == s[1..] + [x];
      TotalAppend(f, s[1..], x);
    }
  }

  lemma {:induction false} TotalZero<T>(f: T -> nat, s: seq<T>)
    ensures Total(f, s) == 0 <==> forall i | 0 <= i < |s| :: f(s[i]) == 0
  {
    if s != [] {
      TotalZero(f, s[1..]);
      assert forall i | 1 <= i < |s| :: s[i] == s[1..][i - 1];
    }
  }

  ghost predicate NoDuplicates<T(!new)>(s: seq<T>) {
    forall i, j | 0 <= i < j < |s| :: s[i] != s[j]
  }

  lemma PartsDisjoint<T(!new)>(a: seq<T>, b: seq<T>)
    requires NoDuplicates(a + b)
    ensures NoDuplicates(a) && NoDuplicates(b)
    ensures forall x :: !(x in a && x in b)
  {
    forall i, j | 0 <= i < |a| && 0 <= j < |b| ensures a[i] != b[j] {
      assert (a + b)[i] != (a + b)[|a| + j];
    }
    forall i, j | 0 <= i < j < |a| ensures a[i] != a[j] {
      assert (a + b)[i] != (a + b)[j];
    }
    forall i, j | 0 <= i < j < |b| ensures b[i] != b[j] {
      assert (a + b)[|a| + i] != (a + b)[|a| + j];
    }
  }

  /** A sequence without duplicates is as long as its set of elements is large. */
  lemma {:induction false} DistinctSize<T(!new)>(s: seq<T>)
    requires NoDuplicates(s)
    ensures |(set x | x in s)| == |s|
  {
    if s != [] {
      var t, x := s[..|s| - 1], s[|s| - 1];
      DistinctSize(t);
      assert s == t + [x];
      assert x !in t;
      assert (set y | y in s) == (set y | y in t) + {x};
    }
  }

  function Below(n: nat): (r: set<nat>)
    ensures |r| == n
    ensures forall i: nat :: i in r <==> i < n
  {
    if n == 0 then {} else Below(n - 1) + {n - 1}
  }

  /** Distinct numbers below `n` are at most `n` many, and exactly `n` only when none is missing. */
  lemma DistinctBelow(s: seq<nat>, n: nat)
    requires NoDuplicates(s) && forall x | x in s :: x < n
    ensures |s| <= n
    ensures |s| == n <==> forall i: nat | i < n :: i in s
  {
    var xs := set x | x in s;
    DistinctSize(s);
    assert xs <= Below(n);
    assert Below(n) == xs + (Below(n) - xs);
    assert (forall i: nat | i < n :: i in s) <==> Below(n) - xs == {} by {
      assert forall i: nat | i < n :: i in s <==> i in xs;
    }
  }
}
