/** Rearranging part of a sequence in place: what every sorting step of
    blocksort.c does to the pointer array. */
module Rearranging {
  import opened Basics

  ghost function Count<T(!new)>(s: seq<T>, v: T): nat { multiset(s)[v] }

  /** s and t hold the same elements, each as often. */
  ghost predicate SameElements<T(!new)>(s: seq<T>, t: seq<T>) {
    forall v :: Count(s, v) == Count(t, v)
  }

  lemma SameMultiset<T(!new)>(s: seq<T>, t: seq<T>)
    ensures SameElements(s, t) <==> multiset(s) == multiset(t)
  {
    if SameElements(s, t) {
      forall v ensures multiset(s)[v] == multiset(t)[v] { assert Count(s, v) == Count(t, v); }
    }
  }

  /** t is s with the elements in [lo, hi) permuted and the rest untouched. */
  ghost predicate Rearranged<T(!new)>(s: seq<T>, t: seq<T>, lo: nat, hi: nat) {
    && |s| == |t| && lo <= hi <= |s|
    && (forall k :: 0 <= k < lo || hi <= k < |s| ==> t[k] == s[k])
    && SameElements(s, t)
  }

  lemma RearrangedTrans<T(!new)>(s: seq<T>, t: seq<T>, u: seq<T>, lo: nat, hi: nat)
    requires Rearranged(s, t, lo, hi) && Rearranged(t, u, lo, hi)
    ensures Rearranged(s, u, lo, hi)
  {}

  lemma RearrangedWiden<T(!new)>(s: seq<T>, t: seq<T>, lo: nat, hi: nat, a: nat, z: nat)
    requires Rearranged(s, t, lo, hi) && a <= lo && hi <= z <= |s|
    ensures Rearranged(s, t, a, z)
  {}

  lemma SwapRearranges<T(!new)>(s: seq<T>, i: nat, j: nat, lo: nat, hi: nat)
    requires lo <= i < hi && lo <= j < hi && hi <= |s|
    ensures Rearranged(s, s[i := s[j]][j := s[i]], lo, hi)
  {
    SwapKeepsMultiset(s, i, j);
    SameMultiset(s, s[i := s[j]][j := s[i]]);
  }

  lemma RearrangedSwap<T(!new)>(s: seq<T>, t: seq<T>, i: nat, j: nat, lo: nat, hi: nat)
    requires Rearranged(s, t, lo, hi) && lo <= i < hi && lo <= j < hi
    ensures Rearranged(s, t[i := t[j]][j := t[i]], lo, hi)
  {
    SwapRearranges(t, i, j, lo, hi);
    RearrangedTrans(s, t, t[i := t[j]][j := t[i]], lo, hi);
  }

  /** Every element of the rearranged part was there before. */
  lemma RearrangedFrom<T(!new)>(s: seq<T>, t: seq<T>, lo: nat, hi: nat, j: nat) returns (i: nat)
    requires Rearranged(s, t, lo, hi) && lo <= j < hi
    ensures lo <= i < hi && s[i] == t[j]
  {
    var a, z := s[lo..hi], t[lo..hi];
    SamePiece(s, t, lo, hi);
    assert t[j] == z[j - lo];
    assert t[j] in multiset(z);
    assert t[j] in a;
    var k :| 0 <= k < |a| && a[k] == t[j];
    i := lo + k;
  }

  lemma SamePiece<T(!new)>(s: seq<T>, t: seq<T>, lo: nat, hi: nat)
    requires Rearranged(s, t, lo, hi)
    ensures multiset(s[lo..hi]) == multiset(t[lo..hi])
  {
    SameMultiset(s, t);
    ThreePieces(s, lo, hi);
    ThreePieces(t, lo, hi);
    assert s[..lo] == t[..lo] && s[hi..] == t[hi..];
  }

  lemma ThreePieces<T(!new)>(s: seq<T>, lo: nat, hi: nat)
    requires lo <= hi <= |s|
    ensures multiset(s[lo..hi]) == multiset(s) - multiset(s[..lo]) - multiset(s[hi..])
  {
    assert s == s[..lo] + s[lo..hi] + s[hi..];
  }

  lemma RearrangedSymmetric<T(!new)>(s: seq<T>, t: seq<T>, lo: nat, hi: nat)
    requires Rearranged(s, t, lo, hi)
    ensures Rearranged(t, s, lo, hi)
  {}

  /** Rearranging keeps every element below n. */
  lemma RearrangedBelow(s: seq<nat>, t: seq<nat>, lo: nat, hi: nat, n: nat)
    requires Rearranged(s, t, lo, hi) && forall i :: 0 <= i < |s| ==> s[i] < n
    ensures forall i :: 0 <= i < |t| ==> t[i] < n
  {
    forall j | 0 <= j < |t| ensures t[j] < n {
      if lo <= j < hi {
        var i := RearrangedFrom(s, t, lo, hi, j);
      }
    }
  }

  /** A permutation is one whose multiset is that of another. */
  lemma RearrangedPermutation(s: seq<nat>, t: seq<nat>, lo: nat, hi: nat)
    requires Rearranged(s, t, lo, hi) && IsPermutation(s, |s|)
    ensures IsPermutation(t, |s|)
  {
    RearrangedBelow(s, t, lo, hi, |s|);
    SameMultiset(s, t);
    forall i, j | 0 <= i < j < |t| ensures Differ(t, i, j) {
      if t[i] == t[j] {
        TwiceInMultiset(t, i, j);
        DistinctOnce(s, t[i]);
      }
    }
  }

  lemma TwiceInMultiset<T>(t: seq<T>, i: nat, j: nat)
    requires i < j < |t| && t[i] == t[j]
    ensures multiset(t)[t[i]] >= 2
  {
    assert t == t[..i] + [t[i]] + t[i + 1..j] + [t[j]] + t[j + 1..];
  }

  lemma {:induction false} DistinctOnce<T>(s: seq<T>, v: T)
    requires Distinct(s)
    ensures multiset(s)[v] <= 1
  {
    if s != [] {
      var t := s[..|s| - 1];
      assert s == t + [s[|s| - 1]];
      DistinctPrefix(s, |s| - 1);
      DistinctOnce(t, v);
    }
  }

  /** The rearranged part holds the same elements, none of them twice if none was before. */
  lemma RearrangedDistinct<T(!new)>(s: seq<T>, t: seq<T>, lo: nat, hi: nat)
    requires Rearranged(s, t, lo, hi) && Distinct(s[lo..hi])
    ensures Distinct(t[lo..hi]) && forall v :: v in s[lo..hi] <==> v in t[lo..hi]
  {
    SamePiece(s, t, lo, hi);
    var a, z := s[lo..hi], t[lo..hi];
    forall v ensures v in a <==> v in z {
      assert v in multiset(a) <==> v in multiset(z);
    }
    forall i, j | 0 <= i < j < |z| ensures Differ(z, i, j) {
      if z[i] == z[j] {
        TwiceInMultiset(z, i, j);
        DistinctOnce(a, z[i]);
      }
    }
  }
}
