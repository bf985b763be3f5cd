/** Bytes and a few facts about sequences that every part of the model shares. */
module Basics {

  type Byte = x: int | 0 <= x < 256

  /** Swapping two elements of a sequence keeps its multiset. */
  lemma SwapKeepsMultiset<T>(s: seq<T>, i: nat, j: nat)
    requires i < |s| && j < |s|
    ensures multiset(s[i := s[j]][j := s[i]]) == multiset(s)
  {
    var a := s[i := s[j]];
    var b := a[j := s[i]];
    assert multiset(a) == multiset(s) - multiset{s[i]} + multiset{s[j]};
    assert multiset(b) == multiset(a) - multiset{a[j]} + multiset{s[i]};
  }

  /** A fact kept as `forall i: nat {:trigger Look(i)} :: Look(i) ==> fact` stays out of sight, and costs
      a proof nothing, until the proof asserts Look(0). */
  ghost predicate Look(i: nat) { i >= 0 }

  lemma ConcatAssoc<T>(a: seq<T>, b: seq<T>, c: seq<T>)
    ensures a + (b + c) == (a + b) + c
  {}

  /** The sum of a sequence of numbers. */
  function Sum(s: seq<int>): int {
    if s == [] then 0 else s[0] + Sum(s[1..])
  }

  lemma SumConcat(s: seq<int>, t: seq<int>)
    ensures Sum(s + t) == Sum(s) + Sum(t)
  {
    if s == [] {
      assert s + t == t;
    } else {
      assert (s + t)[1..] == s[1..] + t;
    }
  }

  /** No element of s occurs twice. */
  ghost predicate Distinct<T>(s: seq<T>) {
    forall i, j :: 0 <= i < j < |s| ==> Differ(s, i, j)
  }

  ghost predicate Differ<T>(s: seq<T>, i: nat, j: nat)
    requires i < |s| && j < |s|
  {
    s[i] != s[j]
  }

  /** The elements of s. */
  ghost function Elements<T>(s: seq<T>): set<T> { set x | x in s }

  /** p lists every number below n exactly once. */
  ghost predicate IsPermutation(p: seq<nat>, n: nat) {
    && |p| == n
    && (forall i :: 0 <= i < n ==> p[i] < n)
    && Distinct(p)
  }

  lemma DistinctPrefix<T>(s: seq<T>, n: nat)
    requires Distinct(s) && n <= |s|
    ensures Distinct(s[..n])
    ensures n < |s| ==> s[n] !in s[..n]
  {
    forall i, j | 0 <= i < j < n ensures Differ(s[..n], i, j) { assert Differ(s, i, j); }
    if n < |s| {
      forall i | 0 <= i < n ensures s[..n][i] != s[n] { assert Differ(s, i, n); }
    }
  }

  /** A sequence without repetitions has as many elements as its set. */
  lemma {:induction false} InjectiveSize<T>(s: seq<T>)
    requires Distinct(s)
    ensures |Elements(s)| == |s|
  {
    if s != [] {
      var t := s[..|s| - 1];
      DistinctPrefix(s, |s| - 1);
      InjectiveSize(t);
      assert Elements(s) == Elements(t) + {s[|s| - 1]};
    }
  }

  /** The numbers below n. */
  ghost function Range(n: nat): (r: set<nat>)
    ensures forall q: nat :: q in r <==> q < n
    ensures |r| == n
  {
    if n == 0 then {} else Range(n - 1) + {n - 1}
  }

  lemma SubsetSize<T>(s: set<T>, t: set<T>)
    requires s <= t
    ensures |s| <= |t|
    ensures |s| == |t| ==> s == t
  {
    assert t == s + (t - s);
  }

  /** A permutation leaves no number out. */
  lemma PermutationIsOnto(p: seq<nat>, n: nat, q: nat)
    requires IsPermutation(p, n) && q < n
    ensures q in p
  {
    var s := Elements(p);
    InjectiveSize(p);
    assert s <= Range(n);
    SubsetSize(s, Range(n));
    assert q in Range(n);
  }

  lemma {:induction false} ElementsSize<T>(s: seq<T>)
    ensures |Elements(s)| <= |s|
  {
    if s != [] {
      var t := s[..|s| - 1];
      ElementsSize(t);
      assert Elements(s) == Elements(t) + {s[|s| - 1]};
    } else {
      assert Elements(s) == {};
    }
  }

  function Pow2(k: nat): (r: nat)
    ensures r >= 1
  {
    if k == 0 then 1 else 2 * Pow2(k - 1)
  }

  lemma {:induction false} Pow2Monotone(j: nat, k: nat)
    requires j <= k
    ensures Pow2(j) <= Pow2(k)
  {
    if j < k { Pow2Monotone(j, k - 1); }
  }

  lemma {:induction false} Pow2Sum(j: nat, k: nat)
    ensures Pow2(j + k) == Pow2(j) * Pow2(k)
  {
    if k > 0 {
      Pow2Sum(j, k - 1);
      assert Pow2(j + k) == 2 * Pow2(j + (k - 1));
    }
  }

  /** x shifted left by k bits. */
  function Shl(x: nat, k: nat): nat {
    if k == 0 then x else 2 * Shl(x, k - 1)
  }

  lemma {:induction false} ShlZero(k: nat)
    ensures Shl(0, k) == 0
  {
    if k > 0 { ShlZero(k - 1); }
  }

  lemma {:induction false} ShlSum(x: nat, y: nat, k: nat)
    ensures Shl(x + y, k) == Shl(x, k) + Shl(y, k)
  {
    if k > 0 { ShlSum(x, y, k - 1); }
  }

  lemma {:induction false} ShlTwice(x: nat, j: nat, k: nat)
    ensures Shl(Shl(x, j), k) == Shl(x, j + k)
  {
    if k > 0 { ShlTwice(x, j, k - 1); }
  }

  /** Shifting keeps the order, and leaves room for k more bits between neighbours. */
  lemma {:induction false} ShlOrder(x: nat, y: nat, k: nat)
    ensures x < y ==> Shl(x, k) + Pow2(k) <= Shl(y, k)
    ensures x <= y <==> Shl(x, k) <= Shl(y, k)
  {
    if k > 0 { ShlOrder(x, y, k - 1); }
  }

  lemma {:induction false} ShlOne(k: nat)
    ensures Shl(1, k) == Pow2(k)
  {
    if k > 0 { ShlOne(k - 1); }
  }

  lemma {:induction false} ShlPow2(j: nat, k: nat)
    ensures Shl(Pow2(j), k) == Pow2(j + k)
  {
    if k > 0 {
      ShlPow2(j, k - 1);
      assert Pow2(j + k) == 2 * Pow2(j + (k - 1));
    }
  }
}
