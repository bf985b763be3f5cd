/** The forest that BZ2_hbMakeCodeLengths merges into a Huffman tree, kept as parent
    links, and what its shape implies: the Kraft equality and a Fibonacci bound on depth. */
module CodeTree {
  import opened Basics

  /** A node's frequency weight and its height share one integer. */
  function WeightOf(w: int): int { w / 256 }

  function DepthOf(w: int): int { w % 256 }

  function Max(x: int, y: int): int { if x > y then x else y }

  /** ADDWEIGHTS: the or-ed height is below 256, so or-ing is adding. */
  function AddWeights(w1: int, w2: int): int {
    (WeightOf(w1) + WeightOf(w2)) * 256 + (1 + Max(DepthOf(w1), DepthOf(w2)))
  }

  /** 1, 2, 3, 5, 8, ...: the least weight of a Huffman tree of height h. */
  function Fib(h: nat): nat {
    if h == 0 then 1 else if h == 1 then 2 else Fib(h - 1) + Fib(h - 2)
  }

  lemma {:induction false} FibMonotone(g: nat, h: nat)
    requires g <= h
    ensures 1 <= Fib(g) <= Fib(h)
    decreases h
  {
    if h >= 2 {
      FibMonotone(0, h - 1);
      FibMonotone(0, h - 2);
      if g < h { FibMonotone(g, h - 1); }
    }
  }

  /** Doubling every two steps. */
  lemma {:induction false} FibGrows(h: nat)
    ensures Fib(2 * h) >= Pow2(h)
  {
    if h > 0 {
      FibGrows(h - 1);
      FibMonotone(2 * h - 2, 2 * h - 1);
    }
  }

  // ---------- the forest ----------

  /** Nodes 1..n, the first a of them leaves; a parent is a later, inner node. */
  ghost predicate IsForest(parent: seq<int>, weight: seq<int>, a: nat, n: nat) {
    && 1 <= a <= n < |parent| && |weight| == |parent|
    && (forall k :: 1 <= k <= n ==> LinkOk(parent, weight, a, n, k))
  }

  ghost predicate LinkOk(parent: seq<int>, weight: seq<int>, a: nat, n: nat, k: nat)
    requires k < |parent| == |weight| && n < |parent|
  {
    && WeightOf(weight[k]) >= 1
    && -1 <= parent[k] <= n
    && (parent[k] >= 0 ==> parent[k] > k && parent[k] > a && DepthOf(weight[k]) < DepthOf(weight[parent[k]]))
  }

  ghost predicate IsRoot(parent: seq<int>, n: nat, k: nat) {
    1 <= k <= n < |parent| && parent[k] == -1
  }

  /** Every inner node has exactly two children. */
  ghost predicate Binary(parent: seq<int>, kids: seq<(nat, nat)>, a: nat, n: nat) {
    && n < |parent| && |kids| > n
    && forall p :: a < p <= n ==> TwoKids(parent, kids[p], n, p)
  }

  ghost predicate TwoKids(parent: seq<int>, kids: (nat, nat), n: nat, p: nat)
    requires n < |parent|
  {
    && 1 <= kids.0 < p && 1 <= kids.1 < p && kids.0 != kids.1
    && forall k :: 1 <= k <= n ==> (parent[k] == p <==> k == kids.0 || k == kids.1)
  }

  /** The weight of all roots together. */
  function RootSum(parent: seq<int>, weight: seq<int>, n: nat): int
    requires n < |parent| && n < |weight|
  {
    if n == 0 then 0
    else RootSum(parent, weight, n - 1) + (if parent[n] == -1 then WeightOf(weight[n]) else 0)
  }

  /** Roots are at least as heavy as Fibonacci trees of their height, and at least as
      heavy as any child merged so far (at most b). */
  ghost predicate Heavy(parent: seq<int>, weight: seq<int>, n: nat, b: int) {
    && n < |parent| == |weight| && b >= 1
    && forall k: nat :: IsRoot(parent, n, k) ==> HeavyRoot(weight, b, k)
  }

  ghost predicate HeavyRoot(weight: seq<int>, b: int, k: nat)
    requires k < |weight|
  {
    && WeightOf(weight[k]) >= b
    && WeightOf(weight[k]) >= Fib(DepthOf(weight[k]))
    && (DepthOf(weight[k]) > 0 ==> b >= Fib(DepthOf(weight[k]) - 1))
  }

  // ---------- merging ----------

  function Merged(parent: seq<int>, n: nat, n1: nat, n2: nat): seq<int>
    requires n + 1 < |parent| && n1 < |parent| && n2 < |parent|
  {
    parent[n1 := n + 1][n2 := n + 1][n + 1 := -1]
  }

  lemma AddedWeights(w1: int, w2: int)
    requires DepthOf(w1) < 255 && DepthOf(w2) < 255
    ensures WeightOf(AddWeights(w1, w2)) == WeightOf(w1) + WeightOf(w2)
    ensures DepthOf(AddWeights(w1, w2)) == 1 + Max(DepthOf(w1), DepthOf(w2))
  {}

  lemma MergeForest(parent: seq<int>, weight: seq<int>, a: nat, n: nat, n1: nat, n2: nat)
    requires IsForest(parent, weight, a, n) && n + 1 < |parent|
    requires IsRoot(parent, n, n1) && IsRoot(parent, n, n2) && n1 != n2
    requires DepthOf(weight[n1]) < 255 && DepthOf(weight[n2]) < 255
    ensures IsForest(Merged(parent, n, n1, n2), weight[n + 1 := AddWeights(weight[n1], weight[n2])], a, n + 1)
  {
    AddedWeights(weight[n1], weight[n2]);
    var q, w := Merged(parent, n, n1, n2), weight[n + 1 := AddWeights(weight[n1], weight[n2])];
    assert LinkOk(parent, weight, a, n, n1) && LinkOk(parent, weight, a, n, n2);
    var next := n + 1;
    forall k | 1 <= k <= next ensures LinkOk(q, w, a, next, k) {
      if k <= n { assert LinkOk(parent, weight, a, n, k); }
    }
  }

  lemma MergeBinary(parent: seq<int>, kids: seq<(nat, nat)>, a: nat, n: nat, n1: nat, n2: nat)
    requires Binary(parent, kids, a, n) && n + 1 < |parent| && n + 1 < |kids| && a <= n
    requires IsRoot(parent, n, n1) && IsRoot(parent, n, n2) && n1 != n2
    requires forall k :: 1 <= k <= n ==> parent[k] <= n
    ensures Binary(Merged(parent, n, n1, n2), kids[n + 1 := (n1, n2)], a, n + 1)
  {
    var q, c := Merged(parent, n, n1, n2), kids[n + 1 := (n1, n2)];
    forall p | a < p <= n + 1 ensures TwoKids(q, c[p], n + 1, p) {
      if p <= n { assert TwoKids(parent, kids[p], n, p); }
    }
  }

  lemma {:induction false} RootSumUnchanged(parent: seq<int>, q: seq<int>, weight: seq<int>, w: seq<int>, m: nat)
    requires m < |parent| == |q| && m < |weight| == |w|
    requires forall k :: 1 <= k <= m ==> q[k] == parent[k] && w[k] == weight[k]
    ensures RootSum(q, w, m) == RootSum(parent, weight, m)
  {
    if m > 0 { RootSumUnchanged(parent, q, weight, w, m - 1); }
  }

  lemma {:induction false} RootSumDrops(parent: seq<int>, weight: seq<int>, k: nat, v: int, m: nat)
    requires 1 <= k <= m < |parent| && m < |weight| && parent[k] == -1 && v != -1
    ensures RootSum(parent[k := v], weight, m) == RootSum(parent, weight, m) - WeightOf(weight[k])
  {
    if k < m {
      RootSumDrops(parent, weight, k, v, m - 1);
    } else {
      RootSumUnchanged(parent, parent[k := v], weight, weight, m - 1);
    }
  }

  lemma MergeRootSum(parent: seq<int>, weight: seq<int>, n: nat, n1: nat, n2: nat)
    requires n + 1 < |parent| == |weight| && IsRoot(parent, n, n1) && IsRoot(parent, n, n2) && n1 != n2
    requires DepthOf(weight[n1]) < 255 && DepthOf(weight[n2]) < 255
    ensures RootSum(Merged(parent, n, n1, n2), weight[n + 1 := AddWeights(weight[n1], weight[n2])], n + 1)
         == RootSum(parent, weight, n)
  {
    AddedWeights(weight[n1], weight[n2]);
    var p1 := parent[n1 := n + 1];
    RootSumDrops(parent, weight, n1, n + 1, n);
    RootSumDrops(p1, weight, n2, n + 1, n);
    RootSumUnchanged(p1[n2 := n + 1], Merged(parent, n, n1, n2), weight,
                     weight[n + 1 := AddWeights(weight[n1], weight[n2])], n);
  }

  /** The merged root is as heavy as a Fibonacci tree one higher. */
  lemma MergeHeavy(parent: seq<int>, weight: seq<int>, n: nat, n1: nat, n2: nat, b: int)
    requires n + 1 < |parent| == |weight| && IsRoot(parent, n, n1) && IsRoot(parent, n, n2) && n1 != n2
    requires DepthOf(weight[n1]) < 255 && DepthOf(weight[n2]) < 255
    requires Heavy(parent, weight, n, b)
    requires forall k: nat :: IsRoot(parent, n, k) && k != n1 ==> WeightOf(weight[n2]) <= WeightOf(weight[k])
    requires WeightOf(weight[n1]) <= WeightOf(weight[n2])
    ensures Heavy(Merged(parent, n, n1, n2), weight[n + 1 := AddWeights(weight[n1], weight[n2])], n + 1,
                  WeightOf(weight[n2]))
  {
    var q, w := Merged(parent, n, n1, n2), weight[n + 1 := AddWeights(weight[n1], weight[n2])];
    var b' := WeightOf(weight[n2]);
    AddedWeights(weight[n1], weight[n2]);
    assert HeavyRoot(weight, b, n1) && HeavyRoot(weight, b, n2);
    forall k: nat | IsRoot(q, n + 1, k) ensures HeavyRoot(w, b', k) {
      if k <= n {
        assert IsRoot(parent, n, k);
        assert HeavyRoot(weight, b, k);
      } else {
        MergedIsHeavy(DepthOf(weight[n1]), DepthOf(weight[n2]), WeightOf(weight[n1]), b', b);
      }
    }
  }

  lemma MergedIsHeavy(d1: nat, d2: nat, w1: int, w2: int, b: int)
    requires w1 >= Fib(d1) && w2 >= Fib(d2) && 1 <= b <= w1 <= w2
    requires (d1 > 0 ==> b >= Fib(d1 - 1)) && (d2 > 0 ==> b >= Fib(d2 - 1))
    ensures w1 + w2 >= Fib(1 + Max(d1, d2)) && w2 >= Fib(Max(d1, d2))
  {}

  // ---------- the Kraft equality ----------

  /** How far node k is from its root. */
  function Level(parent: seq<int>, weight: seq<int>, a: nat, n: nat, k: nat): nat
    requires IsForest(parent, weight, a, n) && 1 <= k <= n
    decreases n - k
  {
    if parent[k] == -1 then 0
    else
      assert LinkOk(parent, weight, a, n, k);
      1 + Level(parent, weight, a, n, parent[k])
  }

  /** A node's level and height fit under the height of the only root. */
  lemma {:induction false} LevelBound(parent: seq<int>, weight: seq<int>, a: nat, n: nat, k: nat)
    requires IsForest(parent, weight, a, n) && 1 <= k <= n
    requires forall r :: IsRoot(parent, n, r) ==> r == n
    ensures Level(parent, weight, a, n, k) + DepthOf(weight[k]) <= DepthOf(weight[n])
    decreases n - k
  {
    assert LinkOk(parent, weight, a, n, k);
    if parent[k] == -1 {
      assert IsRoot(parent, n, k);
    } else {
      LevelBound(parent, weight, a, n, parent[k]);
    }
  }

  // ---------- cuts through the forest ----------

  /** Of the nodes up to j those that had no parent yet when node m was made, each counted with its value. */
  function CutTotal(parent: seq<int>, value: seq<int>, m: nat, j: nat): int
    requires j < |parent| && j < |value|
  {
    if j == 0 then 0
    else CutTotal(parent, value, m, j - 1) + (if parent[j] == -1 || parent[j] > m then value[j] else 0)
  }

  /** Lowering the cut past node m trades it for its children. */
  lemma {:induction false} CutTrade(parent: seq<int>, value: seq<int>, n: nat, m: nat, j: nat, kids: (nat, nat))
    requires j < m <= n < |parent| && n < |value| && TwoKids(parent, kids, n, m)
    ensures CutTotal(parent, value, m - 1, j) == CutTotal(parent, value, m, j)
          + (if kids.0 <= j then value[kids.0] else 0) + (if kids.1 <= j then value[kids.1] else 0)
  {
    if j > 0 { CutTrade(parent, value, n, m, j - 1, kids); }
  }

  lemma CutStep(parent: seq<int>, value: seq<int>, n: nat, m: nat, kids: (nat, nat))
    requires m < n < |parent| && n < |value| && TwoKids(parent, kids, n, m + 1)
    requires parent[m + 1] == -1 || parent[m + 1] > m + 1
    ensures CutTotal(parent, value, m, m)
         == CutTotal(parent, value, m + 1, m + 1) - value[m + 1] + value[kids.0] + value[kids.1]
  {
    CutTrade(parent, value, n, m + 1, m, kids);
  }

  /** The cut at the only root holds nothing else. */
  lemma {:induction false} CutAtRoot(parent: seq<int>, value: seq<int>, n: nat, j: nat)
    requires j < n < |parent| && n < |value| && forall k :: 1 <= k < n ==> 0 <= parent[k] <= n
    ensures CutTotal(parent, value, n, j) == 0
  {
    if j > 0 { CutAtRoot(parent, value, n, j - 1); }
  }

  lemma OnlyRoot(parent: seq<int>, weight: seq<int>, a: nat, n: nat)
    requires IsForest(parent, weight, a, n)
    ensures parent[n] == -1
  {
    assert LinkOk(parent, weight, a, n, n);
  }

  lemma CutIsRoot(parent: seq<int>, weight: seq<int>, value: seq<int>, a: nat, n: nat)
    requires IsForest(parent, weight, a, n) && n < |value|
    requires forall r :: IsRoot(parent, n, r) ==> r == n
    ensures CutTotal(parent, value, n, n) == value[n]
  {
    OnlyRoot(parent, weight, a, n);
    forall k | 1 <= k < n ensures 0 <= parent[k] <= n {
      assert LinkOk(parent, weight, a, n, k) && !IsRoot(parent, n, k);
    }
    CutAtRoot(parent, value, n, n - 1);
  }

  // ---------- the Kraft sum of a cut ----------

  /** A node's part of the Kraft sum, in units of 2^-top. */
  function Share(parent: seq<int>, weight: seq<int>, a: nat, n: nat, k: nat, top: nat): nat
    requires IsForest(parent, weight, a, n) && 1 <= k <= n
  {
    var l := Level(parent, weight, a, n, k);
    if l <= top then Pow2(top - l) else 0
  }

  function Shares(parent: seq<int>, weight: seq<int>, a: nat, n: nat, top: nat): (r: seq<int>)
    requires IsForest(parent, weight, a, n)
    ensures |r| == n + 1
  {
    seq(n + 1, k requires 0 <= k <= n => if k == 0 then 0 else Share(parent, weight, a, n, k, top))
  }

  lemma {:induction false} CutSum(parent: seq<int>, weight: seq<int>, kids: seq<(nat, nat)>, a: nat, n: nat, m: nat,
                                  top: nat)
    requires IsForest(parent, weight, a, n) && Binary(parent, kids, a, n) && a <= m <= n
    requires forall r :: IsRoot(parent, n, r) ==> r == n
    requires forall k :: 1 <= k <= n ==> Level(parent, weight, a, n, k) <= top
    ensures CutTotal(parent, Shares(parent, weight, a, n, top), m, m) == Pow2(top)
    decreases n - m
  {
    var shares := Shares(parent, weight, a, n, top);
    if m == n {
      CutIsRoot(parent, weight, shares, a, n);
      OnlyRoot(parent, weight, a, n);
    } else {
      CutSum(parent, weight, kids, a, n, m + 1, top);
      var c := kids[m + 1];
      assert TwoKids(parent, c, n, m + 1) && LinkOk(parent, weight, a, n, m + 1);
      CutStep(parent, shares, n, m, c);
      KidShare(parent, weight, a, n, c.0, m + 1, top);
      KidShare(parent, weight, a, n, c.1, m + 1, top);
    }
  }

  lemma KidShare(parent: seq<int>, weight: seq<int>, a: nat, n: nat, k: nat, p: nat, top: nat)
    requires IsForest(parent, weight, a, n) && 1 <= k < p <= n && parent[k] == p
    requires Level(parent, weight, a, n, k) <= top
    ensures 2 * Share(parent, weight, a, n, k, top) == Share(parent, weight, a, n, p, top)
  {
    assert LinkOk(parent, weight, a, n, k);
  }
}
