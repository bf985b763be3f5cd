/** The cyclic rotations of a block and their lexicographic order: the order that
    both block sorters must produce and that the decoder must undo. */
module Rotations {
  import opened Basics

  /** Byte i of the block repeated for ever. */
  function At(b: seq<Byte>, i: nat): Byte
    requires |b| > 0
    decreases i
  {
    if i < |b| then b[i] else At(b, i - |b|)
  }

  /** Compares the first h bytes of the rotations that start at i and at j:
      negative, zero or positive as the first is smaller, equal or greater. */
  function Cmp(b: seq<Byte>, i: nat, j: nat, h: nat): int
    requires |b| > 0
    decreases h
  {
    if h == 0 then 0
    else if At(b, i) != At(b, j) then At(b, i) - At(b, j)
    else Cmp(b, i + 1, j + 1, h - 1)
  }

  /** The rotations in s come in non-decreasing order of their first h bytes. */
  ghost predicate Ordered(b: seq<Byte>, s: seq<nat>, h: nat)
    requires |b| > 0
  {
    forall i, j :: 0 <= i < j < |s| ==> InOrder(b, s, h, i, j)
  }

  ghost predicate InOrder(b: seq<Byte>, s: seq<nat>, h: nat, i: nat, j: nat)
    requires |b| > 0 && i < |s| && j < |s|
  {
    Cmp(b, s[i], s[j], h) <= 0
  }

  /** p lists all rotations of b, each once, in non-decreasing order; equal
      rotations may come in any order. */
  ghost predicate IsRotationOrder(b: seq<Byte>, p: seq<nat>) {
    && |b| > 0
    && IsPermutation(p, |b|)
    && Ordered(b, p, |b|)
  }

  // ---------- At ----------

  lemma AtMod(b: seq<Byte>, i: nat)
    requires |b| > 0
    ensures At(b, i + |b|) == At(b, i)
  {}

  // ---------- Cmp is a total preorder ----------

  lemma {:induction false} CmpRefl(b: seq<Byte>, i: nat, h: nat)
    requires |b| > 0
    ensures Cmp(b, i, i, h) == 0
    decreases h
  {
    if h > 0 { CmpRefl(b, i + 1, h - 1); }
  }

  lemma {:induction false} CmpAntisym(b: seq<Byte>, i: nat, j: nat, h: nat)
    requires |b| > 0
    ensures Cmp(b, i, j, h) == -Cmp(b, j, i, h)
    decreases h
  {
    if h > 0 { CmpAntisym(b, i + 1, j + 1, h - 1); }
  }

  lemma {:induction false} CmpTrans(b: seq<Byte>, i: nat, j: nat, k: nat, h: nat)
    requires |b| > 0
    requires Cmp(b, i, j, h) <= 0 && Cmp(b, j, k, h) <= 0
    ensures Cmp(b, i, k, h) <= 0
    ensures Cmp(b, i, k, h) == 0 ==> Cmp(b, i, j, h) == 0 && Cmp(b, j, k, h) == 0
    ensures Cmp(b, i, j, h) == 0 && Cmp(b, j, k, h) == 0 ==> Cmp(b, i, k, h) == 0
    decreases h
  {
    if h > 0 && At(b, i) == At(b, j) && At(b, j) == At(b, k) {
      CmpTrans(b, i + 1, j + 1, k + 1, h - 1);
    }
  }

  /** Rotations i and j have the same byte k places in. */
  ghost predicate AgreeAt(b: seq<Byte>, i: nat, j: nat, k: nat)
    requires |b| > 0
  {
    At(b, i + k) == At(b, j + k)
  }

  /** Comparing as equal means agreeing byte by byte. */
  lemma {:induction false} CmpZero(b: seq<Byte>, i: nat, j: nat, h: nat)
    requires |b| > 0
    ensures Cmp(b, i, j, h) == 0 <==> forall k: nat :: k < h ==> AgreeAt(b, i, j, k)
    decreases h
  {
    if h > 0 {
      CmpZero(b, i + 1, j + 1, h - 1);
      assert AgreeAt(b, i, j, 0) <==> At(b, i) == At(b, j);
      if Cmp(b, i, j, h) == 0 {
        forall k: nat | k < h ensures AgreeAt(b, i, j, k) {
          if k > 0 { assert AgreeAt(b, i + 1, j + 1, k - 1); }
        }
      } else if At(b, i) == At(b, j) {
        var k: nat :| k < h - 1 && !AgreeAt(b, i + 1, j + 1, k);
        assert !AgreeAt(b, i, j, k + 1);
      }
    }
  }

  /** The first g bytes decide; if they agree, the next h do. */
  lemma {:induction false} CmpSplit(b: seq<Byte>, i: nat, j: nat, g: nat, h: nat)
    requires |b| > 0
    ensures Cmp(b, i, j, g + h) ==
            if Cmp(b, i, j, g) != 0 then Cmp(b, i, j, g) else Cmp(b, i + g, j + g, h)
    decreases g
  {
    if g > 0 && At(b, i) == At(b, j) {
      CmpSplit(b, i + 1, j + 1, g - 1, h);
    }
  }

  lemma {:induction false} CmpMod(b: seq<Byte>, i: nat, j: nat, h: nat)
    requires |b| > 0
    ensures Cmp(b, i + |b|, j, h) == Cmp(b, i, j, h) == Cmp(b, i, j + |b|, h)
    decreases h
  {
    if h > 0 {
      AtMod(b, i);
      AtMod(b, j);
      CmpMod(b, i + 1, j + 1, h - 1);
    }
  }

  /** Rotations that agree once round agree for ever. */
  lemma {:induction false} EqualForEver(b: seq<Byte>, i: nat, j: nat, h: nat)
    requires |b| > 0 && Cmp(b, i, j, |b|) == 0
    ensures Cmp(b, i, j, h) == 0
    decreases h
  {
    if h > 0 {
      var n := |b|;
      assert At(b, i) == At(b, j);
      AtMod(b, i);
      AtMod(b, j);
      CmpSplit(b, i + 1, j + 1, n - 1, 1);
      assert i + 1 + (n - 1) == i + n && j + 1 + (n - 1) == j + n;
      assert Cmp(b, i + n, j + n, 1) == 0 by { assert Cmp(b, i + n + 1, j + n + 1, 0) == 0; }
      EqualForEver(b, i + 1, j + 1, h - 1);
    }
  }

  /** A comparison of a whole rotation says all there is to say. */
  lemma CmpBeyond(b: seq<Byte>, i: nat, j: nat, h: nat)
    requires |b| > 0 && h >= |b|
    ensures Cmp(b, i, j, h) == Cmp(b, i, j, |b|)
  {
    CmpSplit(b, i, j, |b|, h - |b|);
    if Cmp(b, i, j, |b|) == 0 { EqualForEver(b, i, j, h); }
  }

  lemma CmpZeroAt(b: seq<Byte>, i: nat, j: nat, h: nat, k: nat)
    requires |b| > 0 && k < h && Cmp(b, i, j, h) == 0
    ensures At(b, i + k) == At(b, j + k)
  {
    CmpZero(b, i, j, h);
    assert AgreeAt(b, i, j, k);
  }

  /** Dropping a common first byte does not change the order of two whole rotations. */
  lemma CmpStep(b: seq<Byte>, i: nat, j: nat)
    requires |b| > 0 && At(b, i) == At(b, j)
    ensures Cmp(b, i + 1, j + 1, |b|) == Cmp(b, i, j, |b|)
  {
    var n := |b|;
    CmpSplit(b, i, j, 1, n);
    assert Cmp(b, i, j, 1) == 0 by { assert Cmp(b, i + 1, j + 1, 0) == 0; }
    assert 1 + n == n + 1;
    CmpBeyond(b, i, j, n + 1);
  }
}
