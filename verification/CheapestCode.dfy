/** Merging the two lightest roots gives the cheapest code: among all code lengths that leave
    room for a prefix code, those of the tree take the fewest bits. */
module CheapestCode {
  import opened Basics
  import opened Arithmetic
  import opened Huffman
  import opened CodeTree

  // ---------- costs ----------

  /** The bits that symbols of the given weights take together. */
  function CodeCost(weights: seq<nat>, lens: seq<Byte>): nat
    requires |weights| == |lens|
    decreases |lens|
  {
    if lens == [] then 0
    else
      var m := |lens| - 1;
      CodeCost(weights[..m], lens[..m]) + weights[m] * lens[m]
  }

  /** Lengths of at most top bits, one for each of a symbols, that meet the Kraft inequality. */
  ghost predicate Fits(lens: seq<Byte>, a: nat, top: nat) {
    |lens| == a && (forall k :: 0 <= k < a ==> lens[k] <= top) && KraftUpTo(lens, top, top) <= Pow2(top)
  }

  /** No code for the same symbols is cheaper. */
  ghost predicate Cheapest(lens: seq<Byte>, weights: seq<nat>) {
    |lens| == |weights|
    && forall other: seq<Byte>, top: nat {:trigger Fits(other, |lens|, top)} ::
         Fits(other, |lens|, top) ==> CodeCost(weights, lens) <= CodeCost(weights, other)
  }

  /** No code that costs as little keeps to fewer bits a symbol. */
  ghost predicate Shallowest(lens: seq<Byte>, weights: seq<nat>) {
    |lens| == |weights|
    && forall other: seq<Byte>, top: nat {:trigger Fits(other, |lens|, top)} ::
         Fits(other, |lens|, top) && CodeCost(weights, other) <= CodeCost(weights, lens) ==> Within(lens, top)
  }

  ghost predicate Within(lens: seq<Byte>, top: nat) { forall k :: 0 <= k < |lens| ==> lens[k] <= top }

  /** Every code of at most top bits a symbol costs more than some longer one does. */
  ghost predicate TooDeep(weights: seq<nat>, top: nat) {
    forall lens: seq<Byte> :: Fits(lens, |weights|, top) ==> !Cheapest(lens, weights)
  }

  // ---------- the merges ----------

  /** When node p was made, c were the two lightest roots, of roots of the same weight the lowest; it
      has their weight and is higher by one than the higher of them. */
  ghost predicate LightestTwo(parent: seq<int>, weight: seq<int>, c: (nat, nat), p: nat)
    requires p < |parent| == |weight|
  {
    && c.0 < p && c.1 < p && WeightOf(weight[p]) == WeightOf(weight[c.0]) + WeightOf(weight[c.1])
    && DepthOf(weight[p]) == 1 + Max(DepthOf(weight[c.0]), DepthOf(weight[c.1])) && weight[c.0] <= weight[c.1]
    && forall k: nat :: RootBefore(parent, p, k) && k != c.0 ==> weight[c.1] <= weight[k]
  }

  ghost predicate RootBefore(parent: seq<int>, p: nat, k: nat) {
    1 <= k < p < |parent| && (parent[k] == -1 || parent[k] >= p)
  }

  ghost predicate Greedy(parent: seq<int>, weight: seq<int>, kids: seq<(nat, nat)>, a: nat, n: nat) {
    && n < |parent| == |weight| && n < |kids|
    && forall p :: a < p <= n ==> LightestTwo(parent, weight, kids[p], p)
  }

  lemma MergeGreedy(parent: seq<int>, weight: seq<int>, kids: seq<(nat, nat)>, a: nat, n: nat, n1: nat, n2: nat)
    requires Greedy(parent, weight, kids, a, n) && IsForest(parent, weight, a, n)
    requires n + 1 < |parent| && n + 1 < |kids| && IsRoot(parent, n, n1) && IsRoot(parent, n, n2) && n1 != n2
    requires DepthOf(weight[n1]) < 255 && DepthOf(weight[n2]) < 255 && weight[n1] <= weight[n2]
    requires forall k: nat :: IsRoot(parent, n, k) && k != n1 ==> weight[n2] <= weight[k]
    ensures Greedy(Merged(parent, n, n1, n2), weight[n + 1 := AddWeights(weight[n1], weight[n2])],
                   kids[n + 1 := (n1, n2)], a, n + 1)
  {
    AddedWeights(weight[n1], weight[n2]);
    var q, w := Merged(parent, n, n1, n2), weight[n + 1 := AddWeights(weight[n1], weight[n2])];
    var c, next := kids[n + 1 := (n1, n2)], n + 1;
    forall p | a < p <= next ensures LightestTwo(q, w, c[p], p) {
      if p <= n { assert LightestTwo(parent, weight, kids[p], p); }
      forall k: nat | RootBefore(q, p, k) && k != c[p].0 ensures w[c[p].1] <= w[k] {
        assert LinkOk(parent, weight, a, n, k);
        if p <= n { assert RootBefore(parent, p, k); } else { assert IsRoot(parent, n, k); }
      }
    }
  }

  // ---------- the cost of the tree ----------

  /** The weight of all nodes after m. */
  function InnerSum(weight: seq<int>, m: nat, n: nat): int
    requires n < |weight|
    decreases n
  {
    if n <= m then 0 else InnerSum(weight, m, n - 1) + WeightOf(weight[n])
  }

  lemma {:induction false} InnerSumFirst(weight: seq<int>, m: nat, n: nat)
    requires m < n < |weight|
    ensures InnerSum(weight, m, n) == WeightOf(weight[m + 1]) + InnerSum(weight, m + 1, n)
    decreases n
  {
    if m + 1 < n { InnerSumFirst(weight, m, n - 1); }
  }

  /** Each node's weight times its level. */
  ghost function Paths(parent: seq<int>, weight: seq<int>, a: nat, n: nat): (r: seq<int>)
    requires IsForest(parent, weight, a, n)
    ensures |r| == n + 1
  {
    seq(n + 1, k requires 0 <= k <= n => if k == 0 then 0 else WeightOf(weight[k]) * Level(parent, weight, a, n, k))
  }

  /** A cut's weighted levels add up to the weight of the inner nodes above it. */
  lemma {:induction false} PathSum(parent: seq<int>, weight: seq<int>, kids: seq<(nat, nat)>, a: nat, n: nat, m: nat)
    requires IsForest(parent, weight, a, n) && Binary(parent, kids, a, n) && Greedy(parent, weight, kids, a, n)
    requires a <= m <= n && forall r :: IsRoot(parent, n, r) ==> r == n
    ensures CutTotal(parent, Paths(parent, weight, a, n), m, m) == InnerSum(weight, m, n)
    decreases n - m
  {
    var paths := Paths(parent, weight, a, n);
    if m == n {
      CutIsRoot(parent, weight, paths, a, n);
      OnlyRoot(parent, weight, a, n);
    } else {
      PathSum(parent, weight, kids, a, n, m + 1);
      InnerSumFirst(weight, m, n);
      var c := kids[m + 1];
      assert TwoKids(parent, c, n, m + 1) && LinkOk(parent, weight, a, n, m + 1);
      assert LightestTwo(parent, weight, c, m + 1);
      CutStep(parent, paths, n, m, c);
      assert LinkOk(parent, weight, a, n, c.0) && LinkOk(parent, weight, a, n, c.1);
      OneDeeper(WeightOf(weight[c.0]), WeightOf(weight[c.1]), Level(parent, weight, a, n, m + 1));
    }
  }

  lemma OneDeeper(x: int, y: int, l: int)
    ensures x * (1 + l) + y * (1 + l) == (x + y) * l + (x + y)
  {}

  // ---------- any other code ----------

  /** The nodes that a cut at m goes through. */
  ghost predicate OnCut(parent: seq<int>, m: nat, k: nat) {
    1 <= k <= m < |parent| && (parent[k] == -1 || parent[k] > m)
  }

  /** What each node costs at length r[k], and its part of the Kraft sum. */
  function Costs(weight: seq<int>, r: seq<nat>): (v: seq<int>)
    requires |r| <= |weight|
    ensures |v| == |r|
  {
    seq(|r|, k requires 0 <= k < |r| => WeightOf(weight[k]) * r[k])
  }

  function Unit(l: nat, top: nat): nat { if l <= top then Pow2(top - l) else 0 }

  function Units(r: seq<nat>, top: nat): (v: seq<int>)
    ensures |v| == |r|
  {
    seq(|r|, k requires 0 <= k < |r| => Unit(r[k], top))
  }

  /** The bits and the Kraft sum of the nodes of a cut at lengths r. */
  function CutCost(parent: seq<int>, weight: seq<int>, r: seq<nat>, m: nat): int
    requires m < |r| <= |weight| == |parent|
  {
    CutTotal(parent, Costs(weight, r), m, m)
  }

  function CutKraft(parent: seq<int>, r: seq<nat>, m: nat, top: nat): int
    requires m < |r| <= |parent|
  {
    CutTotal(parent, Units(r, top), m, m)
  }

  /** No node of the cut but skip has a longer code than bound. */
  ghost predicate AtMost(parent: seq<int>, r: seq<nat>, m: nat, skip: nat, bound: nat) {
    m < |r| && forall k: nat :: OnCut(parent, m, k) && k != skip ==> r[k] <= bound
  }

  lemma {:induction false} TotalChanges(parent: seq<int>, value: seq<int>, m: nat, j: nat, k: nat, x: int)
    requires j <= m < |parent| && m < |value| && OnCut(parent, m, k)
    ensures CutTotal(parent, value[k := x], m, j)
         == CutTotal(parent, value, m, j) + (if k <= j then x - value[k] else 0)
  {
    if j > 0 { TotalChanges(parent, value, m, j - 1, k, x); }
  }

  /** Another length for one node of the cut. */
  lemma LengthChanges(parent: seq<int>, weight: seq<int>, r: seq<nat>, m: nat, top: nat, k: nat, l: nat)
    requires m < |r| <= |weight| == |parent| && OnCut(parent, m, k)
    ensures CutCost(parent, weight, r[k := l], m) == CutCost(parent, weight, r, m) + WeightOf(weight[k]) * (l - r[k])
    ensures CutKraft(parent, r[k := l], m, top) == CutKraft(parent, r, m, top) + Unit(l, top) - Unit(r[k], top)
  {
    assert Costs(weight, r[k := l]) == Costs(weight, r)[k := WeightOf(weight[k]) * l];
    assert Units(r[k := l], top) == Units(r, top)[k := Unit(l, top)];
    TotalChanges(parent, Costs(weight, r), m, m, k, WeightOf(weight[k]) * l);
    TotalChanges(parent, Units(r, top), m, m, k, Unit(l, top));
  }

  /** No leaf below the cut is more than h deep. */
  ghost predicate Low(parent: seq<int>, weight: seq<int>, r: seq<nat>, m: nat, h: nat) {
    m < |r| <= |weight| && forall k: nat :: OnCut(parent, m, k) ==> r[k] + DepthOf(weight[k]) <= h
  }

  /** Lengths q are cheaper than r, or no dearer and no deeper. */
  ghost predicate Better(parent: seq<int>, weight: seq<int>, q: seq<nat>, r: seq<nat>, m: nat, h: nat)
    requires m < |q| == |r| <= |weight| == |parent|
  {
    && CutCost(parent, weight, q, m) <= CutCost(parent, weight, r, m)
    && (CutCost(parent, weight, q, m) == CutCost(parent, weight, r, m) && Low(parent, weight, r, m, h) ==>
        Low(parent, weight, q, m, h))
  }

  /** Of two nodes of the cut the lighter, or the lower of the same weight, gets the longer code. */
  lemma Swap(parent: seq<int>, weight: seq<int>, r: seq<nat>, m: nat, top: nat, i: nat, x: nat, h: nat)
    returns (q: seq<nat>)
    requires m < |r| <= |weight| == |parent| && OnCut(parent, m, i) && OnCut(parent, m, x)
    requires weight[i] <= weight[x] && r[i] <= r[x]
    ensures q == r[i := r[x]][x := r[i]]
    ensures Better(parent, weight, q, r, m, h)
    ensures CutKraft(parent, q, m, top) == CutKraft(parent, r, m, top)
  {
    var s := r[i := r[x]];
    q := s[x := r[i]];
    if i == x {
      assert q == r;
    } else {
      LengthChanges(parent, weight, r, m, top, i, r[x]);
      LengthChanges(parent, weight, s, m, top, x, r[i]);
      SwapPays(WeightOf(weight[i]), WeightOf(weight[x]), r[x] - r[i]);
    }
  }

  lemma SwapPays(x: int, y: int, d: int)
    requires x <= y && d >= 0
    ensures x * d + y * (0 - d) <= 0 && (x * d + y * (0 - d) == 0 ==> x == y || d == 0)
  {
    assert x * d + y * (0 - d) == (x - y) * d;
  }

  lemma {:induction false} Longest(parent: seq<int>, r: seq<nat>, m: nat, j: nat, skip: nat, i: nat) returns (x: nat)
    requires j <= m < |r| && OnCut(parent, m, i) && i != skip
    ensures OnCut(parent, m, x) && x != skip && r[i] <= r[x]
    ensures forall k: nat :: k <= j && OnCut(parent, m, k) && k != skip ==> r[k] <= r[x]
  {
    if j == 0 {
      x := i;
    } else {
      x := Longest(parent, r, m, j - 1, skip, i);
      if OnCut(parent, m, j) && j != skip && r[j] > r[x] { x := j; }
    }
  }

  /** The lightest node of the cut but skip gets the longest code of these, at no cost. */
  lemma LengthenLightest(parent: seq<int>, weight: seq<int>, r: seq<nat>, m: nat, top: nat, skip: nat, i: nat,
                         bound: nat, h: nat)
    returns (q: seq<nat>)
    requires m < |r| <= |weight| == |parent| && OnCut(parent, m, i) && i != skip && AtMost(parent, r, m, skip, bound)
    requires skip < |r| && forall k: nat :: OnCut(parent, m, k) && k != skip ==> weight[i] <= weight[k]
    ensures |q| == |r| && q[skip] == r[skip] && q[i] <= bound && AtMost(parent, q, m, skip, q[i])
    ensures Better(parent, weight, q, r, m, h)
    ensures CutKraft(parent, q, m, top) == CutKraft(parent, r, m, top)
  {
    var x := Longest(parent, r, m, m, skip, i);
    q := Swap(parent, weight, r, m, top, i, x, h);
  }

  // ---------- one merge less ----------

  /** The Kraft sum of codes of at most b bits is a multiple of 2^-b. */
  lemma {:induction false} WholeUnits(parent: seq<int>, r: seq<nat>, m: nat, j: nat, b: nat, top: nat) returns (c: int)
    requires j <= m < |r| <= |parent| && b <= top && AtMost(parent, r, m, 0, b)
    ensures CutTotal(parent, Units(r, top), m, j) == c * Pow2(top - b)
  {
    if j == 0 {
      c := 0;
    } else {
      c := WholeUnits(parent, r, m, j - 1, b, top);
      if OnCut(parent, m, j) {
        Pow2Sum(b - r[j], top - b);
        Distribute(c, Pow2(b - r[j]), Pow2(top - b));
        c := c + Pow2(b - r[j]);
      }
    }
  }

  /** A sum of whole units that exceeds 2^b units by less than one does not exceed them. */
  lemma RoundsDown(c: int, b: nat, top: nat)
    requires b <= top && (c - 1) * Pow2(top - b) < Pow2(top)
    ensures c * Pow2(top - b) <= Pow2(top)
  {
    Pow2Sum(b, top - b);
    var d := Pow2(top - b);
    if c - 1 >= Pow2(b) { Monotone(Pow2(b), c - 1, d); }
    Monotone(c, Pow2(b), d);
  }

  /** The one longest code may be as short as the next one. */
  lemma ShortenLongest(parent: seq<int>, weight: seq<int>, r: seq<nat>, m: nat, top: nat, i: nat, b: nat, h: nat)
    requires m < |r| <= |weight| == |parent| && OnCut(parent, m, i) && b <= r[i] <= top && AtMost(parent, r, m, i, b)
    requires CutKraft(parent, r, m, top) <= Pow2(top) && WeightOf(weight[i]) >= 0
    ensures CutKraft(parent, r[i := b], m, top) <= Pow2(top)
    ensures Better(parent, weight, r[i := b], r, m, h)
  {
    var q := r[i := b];
    LengthChanges(parent, weight, r, m, top, i, b);
    Monotone(b - r[i], 0, WeightOf(weight[i]));
    var c := WholeUnits(parent, q, m, m, b, top);
    Distribute(c, -1, Pow2(top - b));
    RoundsDown(c, b, top);
  }

  /** Two nodes of the cut with codes of b bits give way to their parent with a code of b - 1. */
  lemma JoinKids(parent: seq<int>, weight: seq<int>, r: seq<nat>, n: nat, m: nat, top: nat, c: (nat, nat), b: nat)
    requires m < n < |r| <= |weight| == |parent| && TwoKids(parent, c, n, m + 1) && 1 <= b <= top
    requires parent[m + 1] == -1 || parent[m + 1] > m + 1
    requires r[c.0] == b && r[c.1] == b
    requires WeightOf(weight[m + 1]) == WeightOf(weight[c.0]) + WeightOf(weight[c.1])
    ensures CutKraft(parent, r[m + 1 := b - 1], m + 1, top) == CutKraft(parent, r, m, top)
    ensures CutCost(parent, weight, r[m + 1 := b - 1], m + 1) + WeightOf(weight[m + 1]) == CutCost(parent, weight, r, m)
  {
    var q := r[m + 1 := b - 1];
    SameTotal(parent, Units(q, top), Units(r, top), m, m);
    SameTotal(parent, Costs(weight, q), Costs(weight, r), m, m);
    CutStep(parent, Units(q, top), n, m, c);
    CutStep(parent, Costs(weight, q), n, m, c);
    OneDeeper(WeightOf(weight[c.0]), WeightOf(weight[c.1]), b - 1);
  }

  lemma {:induction false} SameTotal(parent: seq<int>, v: seq<int>, u: seq<int>, m: nat, j: nat)
    requires j < |parent| && j < |v| && j < |u| && forall k :: 1 <= k <= j ==> v[k] == u[k]
    ensures CutTotal(parent, v, m, j) == CutTotal(parent, u, m, j)
  {
    if j > 0 { SameTotal(parent, v, u, m, j - 1); }
  }

  /** Codes for a cut that leave room for a prefix code. */
  ghost predicate FitsCut(parent: seq<int>, r: seq<nat>, m: nat, top: nat) {
    m < |r| <= |parent| && AtMost(parent, r, m, 0, top) && CutKraft(parent, r, m, top) <= Pow2(top)
  }

  lemma {:induction false} TotalAtLeast(parent: seq<int>, value: seq<int>, m: nat, j: nat, x: nat, y: nat)
    requires j <= m < |parent| && m < |value| && forall k :: 0 <= k < |value| ==> value[k] >= 0
    requires OnCut(parent, m, x) && OnCut(parent, m, y) && x != y
    ensures CutTotal(parent, value, m, j) >= (if x <= j then value[x] else 0) + (if y <= j then value[y] else 0)
  {
    if j > 0 { TotalAtLeast(parent, value, m, j - 1, x, y); }
  }

  /** Codes for the cut before a merge give codes for the cut after it, cheaper by the new
      node's weight or more; if by no more, then no deeper. */
  lemma OneMerge(parent: seq<int>, weight: seq<int>, kids: seq<(nat, nat)>, a: nat, n: nat, m: nat, r: seq<nat>,
                 top: nat, h: nat)
    returns (q: seq<nat>)
    requires IsForest(parent, weight, a, n) && Binary(parent, kids, a, n) && Greedy(parent, weight, kids, a, n)
    requires a <= m < n && |r| == |parent| && FitsCut(parent, r, m, top)
    ensures |q| == |parent| && FitsCut(parent, q, m + 1, top)
    ensures CutCost(parent, weight, q, m + 1) + WeightOf(weight[m + 1]) <= CutCost(parent, weight, r, m)
    ensures Low(parent, weight, r, m, h)
            && CutCost(parent, weight, q, m + 1) + WeightOf(weight[m + 1]) == CutCost(parent, weight, r, m) ==>
            Low(parent, weight, q, m + 1, h)
  {
    var c := kids[m + 1];
    assert TwoKids(parent, c, n, m + 1) && LightestTwo(parent, weight, c, m + 1) && LinkOk(parent, weight, a, n, m + 1);
    KidsAreLightest(parent, weight, c, n, m);
    assert LinkOk(parent, weight, a, n, c.0);
    var r1 := LengthenLightest(parent, weight, r, m, top, 0, c.0, top, h);
    var r2 := LengthenLightest(parent, weight, r1, m, top, c.0, c.1, r1[c.0], h);
    var b := r2[c.1];
    ShortenLongest(parent, weight, r2, m, top, c.0, b, h);
    var r3 := r2[c.0 := b];
    NotEmptyCodes(parent, r3, m, top, c, b);
    JoinKids(parent, weight, r3, n, m, top, c, b);
    q := r3[m + 1 := b - 1];
    if Low(parent, weight, r3, m, h) { JoinedIsLow(parent, weight, r3, m, c, b, h); }
  }

  lemma JoinedIsLow(parent: seq<int>, weight: seq<int>, r: seq<nat>, m: nat, c: (nat, nat), b: nat, h: nat)
    requires m + 1 < |r| == |weight| == |parent| && Low(parent, weight, r, m, h)
    requires OnCut(parent, m, c.0) && OnCut(parent, m, c.1) && r[c.0] == r[c.1] == b >= 1
    requires DepthOf(weight[m + 1]) == 1 + Max(DepthOf(weight[c.0]), DepthOf(weight[c.1]))
    ensures Low(parent, weight, r[m + 1 := b - 1], m + 1, h)
  {
    forall k: nat | OnCut(parent, m + 1, k) && k != m + 1 ensures OnCut(parent, m, k) {}
  }

  lemma KidsAreLightest(parent: seq<int>, weight: seq<int>, c: (nat, nat), n: nat, m: nat)
    requires m < n < |parent| == |weight| && TwoKids(parent, c, n, m + 1) && LightestTwo(parent, weight, c, m + 1)
    ensures OnCut(parent, m, c.0) && OnCut(parent, m, c.1)
    ensures forall k: nat :: OnCut(parent, m, k) ==> weight[c.0] <= weight[k]
    ensures forall k: nat :: OnCut(parent, m, k) && k != c.0 ==> weight[c.1] <= weight[k]
  {
    forall k: nat | OnCut(parent, m, k) && k != c.0 ensures weight[c.1] <= weight[k] {
      assert RootBefore(parent, m + 1, k);
    }
  }

  /** Two symbols need codes of at least one bit. */
  lemma NotEmptyCodes(parent: seq<int>, r: seq<nat>, m: nat, top: nat, c: (nat, nat), b: nat)
    requires m < |r| <= |parent| && OnCut(parent, m, c.0) && OnCut(parent, m, c.1) && c.0 != c.1
    requires r[c.0] == b && r[c.1] == b && CutKraft(parent, r, m, top) <= Pow2(top)
    ensures b >= 1
  {
    TotalAtLeast(parent, Units(r, top), m, m, c.0, c.1);
  }

  // ---------- from the leaves to the root ----------

  /** Whatever codes the leaves are given, the inner nodes together weigh no more than they cost; if
      they weigh as much, the tree is no higher than the codes are deep. */
  lemma {:induction false} NoneCheaper(parent: seq<int>, weight: seq<int>, kids: seq<(nat, nat)>, a: nat, n: nat,
                                       m: nat, r: seq<nat>, top: nat, h: nat)
    requires IsForest(parent, weight, a, n) && Binary(parent, kids, a, n) && Greedy(parent, weight, kids, a, n)
    requires a <= m <= n && |r| == |parent| && FitsCut(parent, r, m, top)
    requires forall x :: IsRoot(parent, n, x) ==> x == n
    ensures InnerSum(weight, m, n) <= CutCost(parent, weight, r, m)
    ensures InnerSum(weight, m, n) == CutCost(parent, weight, r, m) && Low(parent, weight, r, m, h) ==>
            DepthOf(weight[n]) <= h
    decreases n - m
  {
    if m == n {
      CutIsRoot(parent, weight, Costs(weight, r), a, n);
      assert LinkOk(parent, weight, a, n, n);
      OnlyRoot(parent, weight, a, n);
      assert OnCut(parent, n, n);
    } else {
      var q := OneMerge(parent, weight, kids, a, n, m, r, top, h);
      NoneCheaper(parent, weight, kids, a, n, m + 1, q, top, h);
      InnerSumFirst(weight, m, n);
    }
  }

  /** The lengths of the leaves 1..a, for every node. */
  function LeafLengths(lens: seq<Byte>, size: nat): (r: seq<nat>)
    ensures |r| == size
  {
    seq(size, k requires 0 <= k < size => if 1 <= k <= |lens| then lens[k - 1] else 0)
  }

  ghost predicate WeightsAre(weight: seq<int>, ws: seq<nat>) {
    |ws| < |weight| && forall k :: 1 <= k <= |ws| ==> WeightOf(weight[k]) == ws[k - 1]
  }

  /** At the leaves, costs and Kraft units are those of the code. */
  ghost predicate AtLeaves(value: seq<int>, units: seq<int>, ws: seq<nat>, lens: seq<Byte>, top: nat) {
    && |lens| == |ws| < |value| && |ws| < |units|
    && forall k: nat :: k < |ws| ==> AtLeaf(value, units, ws, lens, top, k)
  }

  ghost predicate AtLeaf(value: seq<int>, units: seq<int>, ws: seq<nat>, lens: seq<Byte>, top: nat, k: nat)
    requires k < |lens| == |ws| < |value| && |ws| < |units|
  {
    lens[k] <= top && value[k + 1] == ws[k] * lens[k] && units[k + 1] == Pow2(top - lens[k])
  }

  /** At the leaves the cut's cost and Kraft sum are the code's. */
  lemma {:induction false} CutAtLeaves(parent: seq<int>, weight: seq<int>, a: nat, n: nat, ws: seq<nat>,
                                       lens: seq<Byte>, value: seq<int>, units: seq<int>, j: nat, top: nat)
    requires IsForest(parent, weight, a, n) && j <= a == |ws| && AtLeaves(value, units, ws, lens, top)
    ensures CutTotal(parent, value, a, j) == CodeCost(ws[..j], lens[..j])
    ensures CutTotal(parent, units, a, j) == KraftUpTo(lens[..j], top, top)
  {
    if j > 0 {
      CutAtLeaves(parent, weight, a, n, ws, lens, value, units, j - 1, top);
      assert AtLeaf(value, units, ws, lens, top, j - 1);
      assert lens[..j][..j - 1] == lens[..j - 1] && ws[..j][..j - 1] == ws[..j - 1];
      assert LinkOk(parent, weight, a, n, j);
    }
  }

  lemma OtherCode(parent: seq<int>, weight: seq<int>, kids: seq<(nat, nat)>, a: nat, n: nat, ws: seq<nat>,
                  other: seq<Byte>, top: nat)
    requires IsForest(parent, weight, a, n) && Binary(parent, kids, a, n) && Greedy(parent, weight, kids, a, n)
    requires |ws| == a && WeightsAre(weight, ws) && Fits(other, a, top)
    requires forall x :: IsRoot(parent, n, x) ==> x == n
    requires forall k :: 1 <= k <= a ==> DepthOf(weight[k]) == 0
    ensures InnerSum(weight, a, n) <= CodeCost(ws, other)
    ensures InnerSum(weight, a, n) == CodeCost(ws, other) ==> DepthOf(weight[n]) <= top
  {
    var r := LeafLengths(other, |parent|);
    forall k: nat | k < a ensures AtLeaf(Costs(weight, r), Units(r, top), ws, other, top, k) {
      assert WeightOf(weight[k + 1]) == ws[k];
    }
    CutAtLeaves(parent, weight, a, n, ws, other, Costs(weight, r), Units(r, top), a, top);
    assert other[..a] == other && ws[..a] == ws;
    NoneCheaper(parent, weight, kids, a, n, a, r, top, top);
  }

  /** The lengths are the leaves' levels. */
  ghost predicate LevelsAre(lens: seq<Byte>, parent: seq<int>, weight: seq<int>, a: nat, n: nat)
    requires IsForest(parent, weight, a, n)
  {
    |lens| == a && forall k :: 1 <= k <= a ==> lens[k - 1] == Level(parent, weight, a, n, k)
  }

  /** A tree of greedy merges has the cheapest code, and of these one that keeps to the fewest bits. */
  lemma TreeIsCheapest(parent: seq<int>, weight: seq<int>, kids: seq<(nat, nat)>, a: nat, n: nat, ws: seq<nat>,
                       lens: seq<Byte>)
    requires IsForest(parent, weight, a, n) && Binary(parent, kids, a, n) && Greedy(parent, weight, kids, a, n)
    requires |ws| == a && WeightsAre(weight, ws) && LevelsAre(lens, parent, weight, a, n)
    requires forall x :: IsRoot(parent, n, x) ==> x == n
    requires forall k :: 1 <= k <= a ==> DepthOf(weight[k]) == 0
    ensures Cheapest(lens, ws) && Shallowest(lens, ws)
  {
    PathSum(parent, weight, kids, a, n, a);
    var units := seq(a + 1, k requires 0 <= k <= a => if k == 0 then 0 else Pow2(255 - lens[k - 1]));
    var paths := Paths(parent, weight, a, n);
    forall k: nat | k < a ensures AtLeaf(paths, units, ws, lens, 255, k) { assert WeightOf(weight[k + 1]) == ws[k]; }
    CutAtLeaves(parent, weight, a, n, ws, lens, paths, units, a, 255);
    assert lens[..a] == lens && ws[..a] == ws;
    forall k | 0 <= k < a ensures lens[k] <= DepthOf(weight[n]) { LevelBound(parent, weight, a, n, k + 1); }
    forall other: seq<Byte>, top: nat | Fits(other, |lens|, top)
      ensures CodeCost(ws, lens) <= CodeCost(ws, other)
      ensures CodeCost(ws, lens) == CodeCost(ws, other) ==> Within(lens, top)
    {
      OtherCode(parent, weight, kids, a, n, ws, other, top);
    }
  }
}
