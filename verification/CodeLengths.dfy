/** BZ2_hbMakeCodeLengths of huffman.c: Huffman code lengths, limited by rescaling. */
module CodeLengths {
  import opened Basics
  import opened Arithmetic
  import opened Rearranging
  import opened Huffman
  import opened Heap
  import opened CodeTree
  import opened CheapestCode

  const MAX_TOTAL: int := 0x80_0000

  // ---------- the state of one construction ----------

  ghost function Roots(parent: seq<int>, n: nat): set<nat> {
    set k: nat | 1 <= k <= n && IsRoot(parent, n, k)
  }

  ghost function Leaves(a: nat): (r: set<nat>)
    ensures forall k :: k in r <==> 1 <= k <= a
  {
    if a == 0 then {} else Leaves(a - 1) + {a}
  }

  ghost predicate Forest(p: seq<int>, w: seq<int>, kids: seq<(nat, nat)>, a: nat, n: nat, b: int, total: int) {
    && IsForest(p, w, a, n) && Binary(p, kids, a, n) && Heavy(p, w, n, b)
    && RootSum(p, w, n) == total && |kids| == |p| && Greedy(p, w, kids, a, n)
  }

  /** Leaves carry their frequency and no height. */
  ghost predicate IsLeaf(weight: seq<int>, k: nat)
    requires k < |weight|
  {
    WeightOf(weight[k]) >= 1 && DepthOf(weight[k]) == 0
  }

  ghost predicate AreLeaves(weight: seq<int>, a: nat) {
    a < |weight| && weight[0] == 0 && forall k: nat :: 1 <= k <= a ==> IsLeaf(weight, k)
  }

  /** The total of the leaf weights. */
  function LeafSum(weight: seq<int>, a: nat): int
    requires a < |weight|
  {
    if a == 0 then 0 else LeafSum(weight, a - 1) + WeightOf(weight[a])
  }

  lemma {:induction false} RootSumOfLeaves(p: seq<int>, w: seq<int>, m: nat)
    requires m < |p| == |w| && forall k :: 1 <= k <= m ==> p[k] == -1
    ensures RootSum(p, w, m) == LeafSum(w, m)
  {
    if m > 0 { RootSumOfLeaves(p, w, m - 1); }
  }

  lemma LeavesForest(p: seq<int>, w: seq<int>, kids: seq<(nat, nat)>, a: nat)
    requires 1 <= a < |p| == |w| == |kids| && AreLeaves(w, a) && forall k :: 1 <= k <= a ==> p[k] == -1
    ensures Forest(p, w, kids, a, a, 1, LeafSum(w, a))
  {
    forall k: nat | 1 <= k <= a ensures LinkOk(p, w, a, a, k) && HeavyRoot(w, 1, k) { assert IsLeaf(w, k); }
    RootSumOfLeaves(p, w, a);
  }

  lemma TotalFitsPow2()
    ensures Pow2(23) == MAX_TOTAL
  {
    Pow2Sum(8, 7);
    Pow2Sum(15, 8);
  }

  lemma LightIsLow(h: nat)
    requires Fib(h) < MAX_TOTAL
    ensures h < 46
  {
    var g := h / 2;
    FibGrows(g);
    FibMonotone(2 * g, h);
    TotalFitsPow2();
    if g >= 23 { Pow2Monotone(23, g); }
  }

  /** A root's weight is part of the total, so its height is far below 255. */
  lemma {:induction false} RootInSum(p: seq<int>, w: seq<int>, a: nat, n: nat, m: nat, r: nat)
    requires IsForest(p, w, a, n) && m <= n
    ensures RootSum(p, w, m) >= 0
    ensures r <= m && IsRoot(p, n, r) ==> WeightOf(w[r]) <= RootSum(p, w, m)
  {
    if m > 0 {
      RootInSum(p, w, a, n, m - 1, r);
      assert LinkOk(p, w, a, n, m);
    }
  }

  lemma RootIsLow(p: seq<int>, w: seq<int>, kids: seq<(nat, nat)>, a: nat, n: nat, b: int, total: int, r: nat)
    requires Forest(p, w, kids, a, n, b, total) && IsRoot(p, n, r) && total < MAX_TOTAL
    ensures 1 <= WeightOf(w[r]) <= total && DepthOf(w[r]) < 46
  {
    RootInSum(p, w, a, n, n, r);
    assert HeavyRoot(w, b, r) && LinkOk(p, w, a, n, r);
    LightIsLow(DepthOf(w[r]));
  }

  /** One merge keeps the forest and makes the new node a root in place of two. */
  lemma MergeKeeps(p: seq<int>, w: seq<int>, kids: seq<(nat, nat)>, a: nat, n: nat, b: int, total: int, n1: nat,
                   n2: nat)
    requires Forest(p, w, kids, a, n, b, total) && total < MAX_TOTAL && n + 1 < |p|
    requires n1 in Roots(p, n) && n2 in Roots(p, n) - {n1}
    requires forall y :: y in Roots(p, n) ==> w[n1] <= w[y]
    requires forall y :: y in Roots(p, n) - {n1} ==> w[n2] <= w[y]
    ensures var q, w' := Merged(p, n, n1, n2), w[n + 1 := AddWeights(w[n1], w[n2])];
      && Forest(q, w', kids[n + 1 := (n1, n2)], a, n + 1, WeightOf(w[n2]), total)
      && Roots(q, n + 1) == Roots(p, n) - {n1} - {n2} + {n + 1}
    ensures 0 <= AddWeights(w[n1], w[n2]) < 0x8000_0000
  {
    RootIsLow(p, w, kids, a, n, b, total, n1);
    RootIsLow(p, w, kids, a, n, b, total, n2);
    AddedWeights(w[n1], w[n2]);
    MergeForest(p, w, a, n, n1, n2);
    forall k | 1 <= k <= n ensures p[k] <= n { assert LinkOk(p, w, a, n, k); }
    MergeBinary(p, kids, a, n, n1, n2);
    MergeRootSum(p, w, n, n1, n2);
    forall k: nat | IsRoot(p, n, k) && k != n1 ensures w[n2] <= w[k] { assert k in Roots(p, n) - {n1}; }
    MergeHeavy(p, w, n, n1, n2, b);
    MergeGreedy(p, w, kids, a, n, n1, n2);
    var q, w', next := Merged(p, n, n1, n2), w[n + 1 := AddWeights(w[n1], w[n2])], n + 1;
    RootInSum(q, w', a, next, next, next);
    assert IsRoot(q, next, next);
    forall k: nat ensures k in Roots(q, next) <==> k in Roots(p, n) - {n1} - {n2} + {next} {
      if 1 <= k <= n { assert LinkOk(p, w, a, n, k); }
    }
  }

  /** The queue looks only at the weights of its members. */
  lemma QueueKeeps(h: seq<nat>, w: seq<int>, m: nat, k: nat, v: int)
    requires IsQueue(h, w, m) && k < |w| && k !in Queued(h, m)
    ensures IsQueue(h, w[k := v], m)
  {
    var w' := w[k := v];
    forall i | 1 <= i <= m ensures h[i] != k { assert h[1..m + 1][i - 1] == h[i]; }
    forall i | 2 <= i <= m ensures ParentLeq(h, w', i) { assert ParentLeq(h, w, i); }
  }

  // ---------- building the tree ----------

  method StartHeap(heap: array<nat>, weight: array<int>, parent: array<int>, a: nat)
    requires 1 <= a < heap.Length && weight.Length == parent.Length && a < weight.Length
    requires heap as object != weight && heap as object != parent && weight != parent
    requires HasWeights(heap[..], weight[..]) && AreLeaves(weight[..], a)
    modifies heap, parent
    ensures forall k :: 1 <= k <= a ==> parent[k] == -1
    ensures IsQueue(heap[..], weight[..], a)
    ensures Queued(heap[..], a) == Leaves(a)
  {
    heap[0] := 0;
    parent[0] := -2;
    var i := 1;
    while i <= a
      invariant 1 <= i <= a + 1
      invariant forall k :: 1 <= k < i ==> parent[k] == -1
      invariant IsQueue(heap[..], weight[..], i - 1)
      invariant Queued(heap[..], i - 1) == Leaves(i - 1)
    {
      assert IsLeaf(weight[..], i);
      parent[i] := -1;
      Insert(heap, weight[..], i - 1, i);
      i := i + 1;
    }
  }

  /** One turn of the merge loop. */
  method Merge(heap: array<nat>, weight: array<int>, parent: array<int>, nHeap: nat, n: nat,
               ghost kids: seq<(nat, nat)>, ghost a: nat, ghost b: int, ghost total: int)
      returns (ghost kids': seq<(nat, nat)>, ghost b': int)
    requires 2 <= nHeap < heap.Length && weight.Length == parent.Length && n + 1 < weight.Length
    requires heap as object != weight && heap as object != parent && weight != parent
    requires AreLeaves(weight[..], a) && a <= n
    requires Forest(parent[..], weight[..], kids, a, n, b, total) && total < MAX_TOTAL
    requires IsQueue(heap[..], weight[..], nHeap) && Queued(heap[..], nHeap) == Roots(parent[..], n)
    modifies heap, weight, parent
    ensures AreLeaves(weight[..], a) && weight[..a + 1] == old(weight[..a + 1])
    ensures Forest(parent[..], weight[..], kids', a, n + 1, b', total)
    ensures IsQueue(heap[..], weight[..], nHeap - 1) && Queued(heap[..], nHeap - 1) == Roots(parent[..], n + 1)
  {
    ghost var p, w := parent[..], weight[..];
    var n1 := PopMin(heap, weight[..], nHeap);
    var n2 := PopMin(heap, weight[..], nHeap - 1);
    MergeKeeps(p, w, kids, a, n, b, total, n1, n2);
    QueueKeeps(heap[..], w, nHeap - 2, n + 1, AddWeights(w[n1], w[n2]));
    parent[n1] := n + 1;
    parent[n2] := n + 1;
    weight[n + 1] := AddWeights(weight[n1], weight[n2]);
    parent[n + 1] := -1;
    assert parent[..] == Merged(p, n, n1, n2);
    assert weight[..] == w[n + 1 := AddWeights(w[n1], w[n2])];
    forall k: nat | 1 <= k <= a ensures IsLeaf(weight[..], k) { assert IsLeaf(w, k); }
    Insert(heap, weight[..], nHeap - 2, n + 1);
    kids' := kids[n + 1 := (n1, n2)];
    b' := WeightOf(w[n2]);
  }

  /** Merging down to one tree; with it assertions 2001 and 2002 hold. */
  method BuildTree(heap: array<nat>, weight: array<int>, parent: array<int>, a: nat)
      returns (n: nat, ghost kids: seq<(nat, nat)>, ghost b: int)
    requires 2 <= a <= BZ_MAX_ALPHA_SIZE && heap.Length == BZ_MAX_ALPHA_SIZE + 2
    requires weight.Length == parent.Length == BZ_MAX_ALPHA_SIZE * 2
    requires heap as object != weight && heap as object != parent && weight != parent
    requires HasWeights(heap[..], weight[..]) && AreLeaves(weight[..], a) && LeafSum(weight[..], a) < MAX_TOTAL
    modifies heap, weight, parent
    ensures n == 2 * a - 1 < BZ_MAX_ALPHA_SIZE * 2
    ensures HasWeights(heap[..], weight[..]) && AreLeaves(weight[..], a) && weight[..a + 1] == old(weight[..a + 1])
    ensures Forest(parent[..], weight[..], kids, a, n, b, LeafSum(old(weight[..]), a))
    ensures forall r: nat :: IsRoot(parent[..], n, r) ==> r == n
  {
    ghost var total := LeafSum(weight[..], a);
    StartHeap(heap, weight, parent, a);
    kids := seq(parent.Length, _ => (0, 0));
    b := 1;
    LeavesForest(parent[..], weight[..], kids, a);
    assert Leaves(a) == Roots(parent[..], a);
    n := a;
    var nHeap := a;
    while nHeap > 1
      invariant 1 <= nHeap <= a <= n && nHeap + n == 2 * a
      invariant AreLeaves(weight[..], a) && weight[..a + 1] == old(weight[..a + 1])
      invariant Forest(parent[..], weight[..], kids, a, n, b, total)
      invariant IsQueue(heap[..], weight[..], nHeap) && Queued(heap[..], nHeap) == Roots(parent[..], n)
    {
      kids, b := Merge(heap, weight, parent, nHeap, n, kids, a, b, total);
      n, nHeap := n + 1, nHeap - 1;
    }
    OneRoot(heap[..], parent[..], weight[..], a, n);
  }

  lemma OneRoot(h: seq<nat>, p: seq<int>, w: seq<int>, a: nat, n: nat)
    requires IsForest(p, w, a, n) && 1 < |h| && Queued(h, 1) == Roots(p, n)
    ensures forall r: nat :: IsRoot(p, n, r) ==> r == n
  {
    OnlyRoot(p, w, a, n);
    assert h[1..2] == [h[1]];
    assert n in Roots(p, n);
    forall r: nat | IsRoot(p, n, r) ensures r == n { assert r in Roots(p, n); }
  }

  // ---------- measuring the leaves ----------

  ghost predicate LevelIs(len: seq<Byte>, p: seq<int>, w: seq<int>, a: nat, n: nat, k: nat)
    requires IsForest(p, w, a, n) && 1 <= k <= a && k <= |len|
  {
    len[k - 1] == Level(p, w, a, n, k)
  }

  method MeasureLeaf(parent: array<int>, ghost weight: seq<int>, ghost a: nat, ghost n: nat, i: nat) returns (j: nat)
    requires IsForest(parent[..], weight, a, n) && 1 <= i <= n
    ensures j == Level(parent[..], weight, a, n, i)
  {
    j := 0;
    var k := i;
    assert LinkOk(parent[..], weight, a, n, k);
    while parent[k] >= 0
      invariant 1 <= k <= n && LinkOk(parent[..], weight, a, n, k)
      invariant j + Level(parent[..], weight, a, n, k) == Level(parent[..], weight, a, n, i)
      decreases n - k
    {
      k := parent[k];
      j := j + 1;
      assert LinkOk(parent[..], weight, a, n, k);
    }
  }

  ghost predicate AnyLonger(len: seq<Byte>, a: nat, maxLen: nat)
    requires a <= |len|
  {
    exists k :: 0 <= k < a && len[k] > maxLen
  }

  lemma OneMore(s: seq<Byte>, m: nat, v: Byte, maxLen: nat)
    requires m < |s|
    ensures AnyLonger(s[m := v], m + 1, maxLen) <==> AnyLonger(s, m, maxLen) || v > maxLen
  {
    var t := s[m := v];
    if AnyLonger(s, m, maxLen) {
      var k :| 0 <= k < m && s[k] > maxLen;
      assert t[k] > maxLen;
    }
    if v > maxLen { assert t[m] > maxLen; }
  }

  method MeasureLeaves(len: array<Byte>, parent: array<int>, ghost weight: seq<int>, a: nat, ghost n: nat, maxLen: nat)
      returns (tooLong: bool)
    requires IsForest(parent[..], weight, a, n) && a <= len.Length && DepthOf(weight[n]) < 256
    requires forall r: nat :: IsRoot(parent[..], n, r) ==> r == n
    requires len as object != parent
    modifies len
    ensures forall k: nat :: 1 <= k <= a ==> LevelIs(len[..], parent[..], weight, a, n, k)
    ensures tooLong <==> AnyLonger(len[..], a, maxLen)
    ensures len[a..] == old(len[a..])
  {
    tooLong := false;
    var i := 1;
    while i <= a
      invariant 1 <= i <= a + 1
      invariant forall k: nat :: 1 <= k < i ==> LevelIs(len[..], parent[..], weight, a, n, k)
      invariant tooLong <==> AnyLonger(len[..], i - 1, maxLen)
      invariant len[a..] == old(len[a..])
    {
      var j := MeasureLeaf(parent, weight, a, n, i);
      LevelBound(parent[..], weight, a, n, i);
      ghost var before := len[..];
      len[i - 1] := j;
      assert len[..] == before[i - 1 := len[i - 1]];
      OneMore(before, i - 1, len[i - 1], maxLen);
      forall k: nat | 1 <= k < i ensures LevelIs(len[..], parent[..], weight, a, n, k) {
        assert LevelIs(before, parent[..], weight, a, n, k);
      }
      if j > maxLen { tooLong := true; }
      i := i + 1;
    }
  }

  /** Lengths of 1 to maxLen bits that use up every code. */
  ghost predicate CompleteLengths(lens: seq<Byte>, maxLen: nat) {
    && (forall k :: 0 <= k < |lens| ==> 1 <= lens[k] <= maxLen)
    && KraftUpTo(lens, maxLen, maxLen) == Pow2(maxLen)
  }

  /** No node is deeper than the deepest leaf. */
  lemma {:induction false} NodesAreHigher(len: seq<Byte>, p: seq<int>, w: seq<int>, kids: seq<(nat, nat)>, a: nat,
                                          n: nat, k: nat, top: nat)
    requires IsForest(p, w, a, n) && Binary(p, kids, a, n) && a == |len| && 1 <= k <= n
    requires forall i: nat :: 1 <= i <= a ==> LevelIs(len, p, w, a, n, i)
    requires forall i :: 0 <= i < a ==> len[i] <= top
    ensures Level(p, w, a, n, k) <= top
  {
    if k <= a {
      assert LevelIs(len, p, w, a, n, k);
    } else {
      assert TwoKids(p, kids[k], n, k);
      NodesAreHigher(len, p, w, kids, a, n, kids[k].0, top);
    }
  }

  /** Leaf levels of at most top bits meet the Kraft equality. */
  lemma LevelsKraft(len: seq<Byte>, p: seq<int>, w: seq<int>, kids: seq<(nat, nat)>, a: nat, n: nat, top: nat)
    requires IsForest(p, w, a, n) && Binary(p, kids, a, n) && a == |len| && a < n
    requires forall r: nat :: IsRoot(p, n, r) ==> r == n
    requires forall k: nat :: 1 <= k <= a ==> LevelIs(len, p, w, a, n, k)
    requires forall i :: 0 <= i < a ==> len[i] <= top
    ensures CompleteLengths(len, top)
  {
    forall k | 1 <= k <= n ensures Level(p, w, a, n, k) <= top { NodesAreHigher(len, p, w, kids, a, n, k, top); }
    CutSum(p, w, kids, a, n, a, top);
    CutIsKraft(len, p, w, a, n, a, top);
    assert len[..a] == len;
    forall i | 0 <= i < a ensures len[i] >= 1 {
      assert LevelIs(len, p, w, a, n, i + 1) && !IsRoot(p, n, i + 1);
      assert LinkOk(p, w, a, n, i + 1);
    }
  }

  lemma {:induction false} CutIsKraft(len: seq<Byte>, p: seq<int>, w: seq<int>, a: nat, n: nat, j: nat, top: nat)
    requires IsForest(p, w, a, n) && j <= a == |len|
    requires forall k: nat :: 1 <= k <= a ==> LevelIs(len, p, w, a, n, k)
    ensures KraftUpTo(len[..j], top, top) == CutTotal(p, Shares(p, w, a, n, top), a, j)
  {
    if j > 0 {
      CutIsKraft(len, p, w, a, n, j - 1, top);
      assert len[..j][..j - 1] == len[..j - 1];
      assert LinkOk(p, w, a, n, j) && LevelIs(len, p, w, a, n, j);
    }
  }

  lemma SomeLeafIsDeep(len: seq<Byte>, p: seq<int>, w: seq<int>, a: nat, n: nat, maxLen: nat)
    requires IsForest(p, w, a, n) && a <= |len| && AnyLonger(len, a, maxLen)
    requires forall r: nat :: IsRoot(p, n, r) ==> r == n
    requires forall k: nat :: 1 <= k <= a ==> LevelIs(len, p, w, a, n, k)
    ensures DepthOf(w[n]) > maxLen
  {
    var k :| 0 <= k < a && len[k] > maxLen;
    assert LevelIs(len, p, w, a, n, k + 1);
    LevelBound(p, w, a, n, k + 1);
  }

  lemma ShortLevels(len: seq<Byte>, p: seq<int>, w: seq<int>, kids: seq<(nat, nat)>, a: nat, n: nat, maxLen: nat)
    requires IsForest(p, w, a, n) && Binary(p, kids, a, n) && a <= |len| && a < n && !AnyLonger(len, a, maxLen)
    requires forall r: nat :: IsRoot(p, n, r) ==> r == n
    requires forall k: nat :: 1 <= k <= a ==> LevelIs(len, p, w, a, n, k)
    ensures CompleteLengths(len[..a], maxLen)
  {
    forall k: nat | 1 <= k <= a ensures LevelIs(len[..a], p, w, a, n, k) { assert LevelIs(len, p, w, a, n, k); }
    LevelsKraft(len[..a], p, w, kids, a, n, maxLen);
  }

  // ---------- rescaling ----------

  function Halved(w: int): int { (1 + WeightOf(w) / 2) * 256 }

  method Rescale(weight: array<int>, a: nat)
    requires AreLeaves(weight[..], a)
    modifies weight
    ensures AreLeaves(weight[..], a)
    ensures forall k :: 1 <= k <= a ==> weight[k] == Halved(old(weight[k]))
  {
    var i := 1;
    while i <= a
      invariant 1 <= i <= a + 1 && weight[0] == 0
      invariant forall k :: 1 <= k < i ==> weight[k] == Halved(old(weight[k]))
      invariant forall k :: i <= k <= a ==> weight[k] == old(weight[k])
    {
      assert IsLeaf(old(weight[..]), i);
      var j := weight[i] / 256;
      j := 1 + j / 2;
      weight[i] := j * 256;
      i := i + 1;
    }
    forall k: nat | 1 <= k <= a ensures IsLeaf(weight[..], k) { assert IsLeaf(old(weight[..]), k); }
  }

  /** Halving never adds weight, and takes some away unless every leaf weighs 1 or 2. */
  lemma {:induction false} HalvedSum(w: seq<int>, w': seq<int>, a: nat)
    requires AreLeaves(w, a) && a < |w'| && forall k :: 1 <= k <= a ==> w'[k] == Halved(w[k])
    ensures 0 <= LeafSum(w', a) <= LeafSum(w, a)
    ensures LeafSum(w', a) < LeafSum(w, a) || LeafSum(w, a) <= 2 * a
  {
    if a > 0 {
      assert IsLeaf(w, a);
      HalvedSum(w, w', a - 1);
    }
  }

  lemma {:induction false} SameLeafSum(w: seq<int>, w': seq<int>, a: nat)
    requires a < |w| && a < |w'| && w[..a + 1] == w'[..a + 1]
    ensures LeafSum(w, a) == LeafSum(w', a)
  {
    if a > 0 {
      assert w[a] == w[..a + 1][a] && w'[a] == w'[..a + 1][a];
      assert w[..a] == w[..a + 1][..a] && w'[..a] == w'[..a + 1][..a];
      SameLeafSum(w, w', a - 1);
    }
  }

  /** A tree higher than maxLen weighs at least as much as a Fibonacci tree that high. */
  lemma DeepIsFib(p: seq<int>, w: seq<int>, kids: seq<(nat, nat)>, a: nat, n: nat, b: int, total: int, maxLen: nat)
    requires Forest(p, w, kids, a, n, b, total) && total < MAX_TOTAL && DepthOf(w[n]) > maxLen
    ensures total >= Fib(maxLen + 1)
  {
    OnlyRoot(p, w, a, n);
    RootIsLow(p, w, kids, a, n, b, total, n);
    assert HeavyRoot(w, b, n);
    FibMonotone(maxLen + 1, DepthOf(w[n]));
  }

  /** A tree higher than 17 weighs more than 258 leaves of weight 2. */
  lemma DeepIsHeavy(p: seq<int>, w: seq<int>, kids: seq<(nat, nat)>, a: nat, n: nat, b: int, total: int, maxLen: nat)
    requires Forest(p, w, kids, a, n, b, total) && total < MAX_TOTAL && maxLen >= 17 && DepthOf(w[n]) > maxLen
    ensures total > 2 * BZ_MAX_ALPHA_SIZE
  {
    DeepIsFib(p, w, kids, a, n, b, total, maxLen);
    FibMonotone(18, maxLen + 1);
    FibAt18();
  }

  lemma FibAt18()
    ensures Fib(18) == 6765
  {
    assert Fib(6) == 21;
    assert Fib(10) == 144;
    assert Fib(14) == 987;
  }

  // ---------- the whole ----------

  function Frequency(f: nat): nat { if f == 0 then 1 else f }

  /** The weights the construction starts from. */
  function Weights(freq: seq<nat>): (ws: seq<nat>)
    ensures |ws| == |freq|
  {
    seq(|freq|, k requires 0 <= k < |freq| => Frequency(freq[k]))
  }

  function FrequencySum(freq: seq<nat>): nat {
    if freq == [] then 0 else FrequencySum(freq[..|freq| - 1]) + Frequency(freq[|freq| - 1])
  }

  /** The weights after some rescalings. */
  function Rescaled(ws: seq<nat>, rounds: nat): (r: seq<nat>)
    ensures |r| == |ws|
  {
    if rounds == 0 then ws
    else
      var r := Rescaled(ws, rounds - 1);
      seq(|r|, k requires 0 <= k < |r| => 1 + r[k] / 2)
  }

  function WeightSum(ws: seq<nat>): nat {
    if ws == [] then 0 else WeightSum(ws[..|ws| - 1]) + ws[|ws| - 1]
  }

  /** Rescaling is only resorted to where no cheapest code keeps to maxLen bits, and then the weights
      are those of a Fibonacci tree at least. */
  ghost predicate Forced(ws: seq<nat>, rounds: nat, maxLen: nat) {
    forall j: nat :: j < rounds ==> ForcedAt(Rescaled(ws, j), maxLen)
  }

  ghost predicate ForcedAt(ws: seq<nat>, maxLen: nat) { WeightSum(ws) >= Fib(maxLen + 1) && TooDeep(ws, maxLen) }

  /** Lengths of at most maxLen bits that no code betters for these weights. */
  ghost predicate Best(lens: seq<Byte>, ws: seq<nat>, maxLen: nat) {
    CompleteLengths(lens, maxLen) && Cheapest(lens, ws) && Shallowest(lens, ws)
  }

  /** The lengths are the best there are for the frequencies, or after forced rescalings for
      the weights these left. */
  ghost predicate BuiltFor(lens: seq<Byte>, freq: seq<nat>, rounds: nat, maxLen: nat) {
    Best(lens, Rescaled(Weights(freq), rounds), maxLen) && Forced(Weights(freq), rounds, maxLen)
  }

  /** How often to rescale, the bits of all symbols and the longest code: all follow from the frequencies. */
  lemma BuiltAlike(lens: seq<Byte>, other: seq<Byte>, freq: seq<nat>, rounds: nat, more: nat, maxLen: nat)
    requires BuiltFor(lens, freq, rounds, maxLen) && BuiltFor(other, freq, more, maxLen)
    ensures rounds == more
    ensures CodeCost(Rescaled(Weights(freq), rounds), lens) == CodeCost(Rescaled(Weights(freq), rounds), other)
    ensures forall top: nat :: top <= maxLen ==> (Within(lens, top) <==> Within(other, top))
  {
    var ws := Weights(freq);
    assert !ForcedAt(Rescaled(ws, rounds), maxLen) by { CompleteFits(lens, maxLen); }
    assert !ForcedAt(Rescaled(ws, more), maxLen) by { CompleteFits(other, maxLen); }
    CompleteFits(lens, maxLen);
    CompleteFits(other, maxLen);
    forall top: nat | top <= maxLen ensures Within(lens, top) <==> Within(other, top) {
      if Within(lens, top) { ShorterKraft(lens, maxLen, top); }
      if Within(other, top) { ShorterKraft(other, maxLen, top); }
    }
  }

  lemma CompleteFits(lens: seq<Byte>, maxLen: nat)
    requires CompleteLengths(lens, maxLen)
    ensures Fits(lens, |lens|, maxLen)
  {}

  /** The Kraft sum in coarser units. */
  lemma ShorterKraft(lens: seq<Byte>, maxLen: nat, top: nat)
    requires CompleteLengths(lens, maxLen) && Within(lens, top) && top <= maxLen
    ensures Fits(lens, |lens|, top)
  {
    KraftScales(lens, maxLen, top);
    Pow2Sum(top, maxLen - top);
    if KraftUpTo(lens, top, top) > Pow2(top) { Monotone(Pow2(top) + 1, KraftUpTo(lens, top, top), Pow2(maxLen - top)); }
  }

  lemma {:induction false} KraftScales(lens: seq<Byte>, maxLen: nat, top: nat)
    requires Within(lens, top) && top <= maxLen
    ensures KraftUpTo(lens, maxLen, maxLen) == KraftUpTo(lens, top, top) * Pow2(maxLen - top)
  {
    if lens != [] {
      var m := |lens| - 1;
      KraftScales(lens[..m], maxLen, top);
      Pow2Sum(top - lens[m], maxLen - top);
      Distribute(KraftUpTo(lens[..m], top, top), Pow2(top - lens[m]), Pow2(maxLen - top));
    }
  }

  /** When the best code is too long, every code that keeps to maxLen bits costs more. */
  lemma NoneKeeps(lens: seq<Byte>, ws: seq<nat>, maxLen: nat, top: nat)
    requires Cheapest(lens, ws) && Shallowest(lens, ws) && Fits(lens, |lens|, top) && !Within(lens, maxLen)
    ensures TooDeep(ws, maxLen)
  {
    forall other: seq<Byte> | Fits(other, |ws|, maxLen) ensures !Cheapest(other, ws) {
      assert Fits(other, |lens|, maxLen) && Fits(lens, |other|, top);
    }
  }

  lemma {:induction false} SumOfWeights(freq: seq<nat>)
    ensures WeightSum(Weights(freq)) == FrequencySum(freq)
  {
    if freq != [] {
      SumOfWeights(freq[..|freq| - 1]);
      assert Weights(freq)[..|freq| - 1] == Weights(freq[..|freq| - 1]);
    }
  }

  lemma {:induction false} SumOfLeaves(w: seq<int>, ws: seq<nat>, a: nat)
    requires a <= |ws| && WeightsAre(w, ws)
    ensures LeafSum(w, a) == WeightSum(ws[..a])
  {
    if a > 0 {
      SumOfLeaves(w, ws, a - 1);
      assert ws[..a][..a - 1] == ws[..a - 1];
    }
  }

  method SetWeights(weight: array<int>, freq: seq<nat>, a: nat)
    requires a <= |freq| && a < weight.Length
    modifies weight
    ensures AreLeaves(weight[..], a) && WeightsAre(weight[..], Weights(freq[..a]))
    ensures LeafSum(weight[..], a) == FrequencySum(freq[..a])
  {
    weight[0] := 0;
    var i := 0;
    while i < a
      invariant 0 <= i <= a && weight[0] == 0
      invariant forall k :: 1 <= k <= i ==> weight[k] == Frequency(freq[k - 1]) * 256
    {
      weight[i + 1] := Frequency(freq[i]) * 256;
      i := i + 1;
    }
    ghost var ws := Weights(freq[..a]);
    assert WeightsAre(weight[..], ws) && ws[..a] == ws;
    SumOfLeaves(weight[..], ws, a);
    SumOfWeights(freq[..a]);
  }

  /** Few symbols need no rescaling: their lengths are the best there are. */
  lemma LightIsCheapest(lens: seq<Byte>, freq: seq<nat>, rounds: nat, maxLen: nat)
    requires BuiltFor(lens, freq, rounds, maxLen) && FrequencySum(freq) < Fib(maxLen + 1)
    ensures rounds == 0 && Cheapest(lens, Weights(freq))
  {
    SumOfWeights(freq);
    assert Rescaled(Weights(freq), 0) == Weights(freq);
  }

  /** A code longer than maxLen forces one more rescaling. */
  lemma OneMoreForced(before: seq<int>, w: seq<int>, w': seq<int>, ws: seq<nat>, now: seq<nat>, rounds: nat, a: nat,
                      maxLen: nat)
    requires |ws| == a && a < |w| && now == Rescaled(ws, rounds) && Forced(ws, rounds, maxLen)
    requires WeightsAre(before, now) && |before| == |w| && before[..a + 1] == w[..a + 1]
    requires a < |w'| && forall k :: 1 <= k <= a ==> w'[k] == Halved(w[k])
    requires LeafSum(before, a) >= Fib(maxLen + 1) && TooDeep(now, maxLen)
    ensures WeightsAre(w', Rescaled(ws, rounds + 1)) && Forced(ws, rounds + 1, maxLen)
  {
    LeavesKeepWeights(before, w, now);
    SameLeafSum(before, w, a);
    SumOfLeaves(w, now, a);
    assert now[..a] == now;
    forall k | 1 <= k <= a ensures WeightOf(w'[k]) == Rescaled(ws, rounds + 1)[k - 1] {
      assert WeightOf(w[k]) == now[k - 1];
    }
  }

  /** One tree and its leaves' levels, as lengths. */
  method TryLengths(heap: array<nat>, weight: array<int>, parent: array<int>, len: array<Byte>, a: nat, maxLen: nat,
                    ghost ws: seq<nat>)
    returns (tooLong: bool)
    requires 2 <= a <= BZ_MAX_ALPHA_SIZE && heap.Length == BZ_MAX_ALPHA_SIZE + 2 && a <= len.Length
    requires weight.Length == parent.Length == BZ_MAX_ALPHA_SIZE * 2
    requires heap as object != weight && heap as object != parent && weight != parent
    requires len as object != heap && len as object != weight && len as object != parent
    requires HasWeights(heap[..], weight[..]) && AreLeaves(weight[..], a) && LeafSum(weight[..], a) < MAX_TOTAL
    requires |ws| == a && WeightsAre(weight[..], ws) && maxLen >= 17
    modifies heap, weight, parent, len
    ensures HasWeights(heap[..], weight[..]) && AreLeaves(weight[..], a) && weight[..a + 1] == old(weight[..a + 1])
    ensures len[a..] == old(len[a..])
    ensures tooLong ==>
            LeafSum(old(weight[..]), a) >= Fib(maxLen + 1) && LeafSum(old(weight[..]), a) > 2 * BZ_MAX_ALPHA_SIZE
    ensures if tooLong then TooDeep(ws, maxLen) else Best(len[..a], ws, maxLen)
  {
    ghost var w0 := weight[..];
    var n, kids, b := BuildTree(heap, weight, parent, a);
    ghost var p, w := parent[..], weight[..];
    SameLeafSum(w0, w, a);
    OnlyRoot(p, w, a, n);
    RootIsLow(p, w, kids, a, n, b, LeafSum(w, a), n);
    tooLong := MeasureLeaves(len, parent, w, a, n, maxLen);
    assert parent[..] == p;
    LeavesKeepWeights(w0, w, ws);
    LevelsOf(len[..], p, w, a, n);
    forall k | 1 <= k <= a ensures DepthOf(w[k]) == 0 { assert IsLeaf(w, k); }
    TreeIsCheapest(p, w, kids, a, n, ws, len[..a]);
    if tooLong {
      SomeLeafIsDeep(len[..], p, w, a, n, maxLen);
      DeepIsFib(p, w, kids, a, n, b, LeafSum(w, a), maxLen);
      DeepIsHeavy(p, w, kids, a, n, b, LeafSum(w, a), maxLen);
      TooLongIsTooDeep(len[..], p, w, kids, a, n, ws, maxLen);
    } else {
      ShortLevels(len[..], p, w, kids, a, n, maxLen);
    }
  }

  lemma TooLongIsTooDeep(len: seq<Byte>, p: seq<int>, w: seq<int>, kids: seq<(nat, nat)>, a: nat, n: nat,
                         ws: seq<nat>, maxLen: nat)
    requires IsForest(p, w, a, n) && Binary(p, kids, a, n) && a <= |len| && a < n && AnyLonger(len, a, maxLen)
    requires forall r: nat :: IsRoot(p, n, r) ==> r == n
    requires forall k: nat :: 1 <= k <= a ==> LevelIs(len, p, w, a, n, k)
    requires Cheapest(len[..a], ws) && Shallowest(len[..a], ws)
    ensures TooDeep(ws, maxLen)
  {
    var k :| 0 <= k < a && len[k] > maxLen;
    assert len[..a][k] == len[k];
    forall k: nat | 1 <= k <= a ensures LevelIs(len[..a], p, w, a, n, k) { assert LevelIs(len, p, w, a, n, k); }
    LevelsKraft(len[..a], p, w, kids, a, n, 255);
    CompleteFits(len[..a], 255);
    NoneKeeps(len[..a], ws, maxLen, 255);
  }

  lemma LeavesKeepWeights(w: seq<int>, w': seq<int>, ws: seq<nat>)
    requires |w| == |w'| && WeightsAre(w, ws) && w[..|ws| + 1] == w'[..|ws| + 1]
    ensures WeightsAre(w', ws)
  {
    forall k | 1 <= k <= |ws| ensures WeightOf(w'[k]) == ws[k - 1] { assert w'[k] == w'[..|ws| + 1][k]; }
  }

  lemma LevelsOf(len: seq<Byte>, p: seq<int>, w: seq<int>, a: nat, n: nat)
    requires IsForest(p, w, a, n) && a <= |len| && forall k: nat :: 1 <= k <= a ==> LevelIs(len, p, w, a, n, k)
    ensures LevelsAre(len[..a], p, w, a, n)
  {
    forall k | 1 <= k <= a ensures len[..a][k - 1] == Level(p, w, a, n, k) { assert LevelIs(len, p, w, a, n, k); }
  }

  /** The weights rescaled, after a tree for the same weights has come out too high. */
  method Lighten(weight: array<int>, a: nat, ghost before: seq<int>, ghost ws: seq<nat>, ghost now: seq<nat>,
                 ghost rounds: nat, ghost maxLen: nat)
    returns (ghost next: seq<nat>)
    requires |ws| == a < weight.Length == |before| && AreLeaves(weight[..], a) && before[..a + 1] == weight[..a + 1]
    requires now == Rescaled(ws, rounds) && WeightsAre(before, now) && Forced(ws, rounds, maxLen)
    requires LeafSum(before, a) >= Fib(maxLen + 1) && LeafSum(before, a) > 2 * a && TooDeep(now, maxLen)
    modifies weight
    ensures AreLeaves(weight[..], a) && 0 <= LeafSum(weight[..], a) < LeafSum(before, a)
    ensures next == Rescaled(ws, rounds + 1) && WeightsAre(weight[..], next) && Forced(ws, rounds + 1, maxLen)
  {
    ghost var w := weight[..];
    SameLeafSum(before, w, a);
    Rescale(weight, a);
    HalvedSum(w, weight[..], a);
    OneMoreForced(before, w, weight[..], ws, now, rounds, a, maxLen);
    next := Rescaled(ws, rounds + 1);
  }

  /** Builds trees, from lighter and lighter weights, until no code is too long. */
  method UntilShort(heap: array<nat>, weight: array<int>, parent: array<int>, len: array<Byte>, a: nat, maxLen: nat,
                    ghost ws: seq<nat>)
    returns (ghost rounds: nat)
    requires 2 <= a <= BZ_MAX_ALPHA_SIZE && heap.Length == BZ_MAX_ALPHA_SIZE + 2 && a <= len.Length
    requires weight.Length == parent.Length == BZ_MAX_ALPHA_SIZE * 2
    requires heap as object != weight && heap as object != parent && weight != parent
    requires len as object != heap && len as object != weight && len as object != parent
    requires HasWeights(heap[..], weight[..]) && AreLeaves(weight[..], a) && 0 <= LeafSum(weight[..], a) < MAX_TOTAL
    requires |ws| == a && WeightsAre(weight[..], ws) && maxLen >= 17
    modifies heap, weight, parent, len
    ensures Best(len[..a], Rescaled(ws, rounds), maxLen) && Forced(ws, rounds, maxLen)
    ensures len[a..] == old(len[a..])
  {
    rounds := 0;
    ghost var now := ws;
    var tooLong := true;
    while tooLong
      invariant HasWeights(heap[..], weight[..]) && AreLeaves(weight[..], a) && Forced(ws, rounds, maxLen)
      invariant tooLong ==> 0 <= LeafSum(weight[..], a) < MAX_TOTAL && WeightsAre(weight[..], now)
      invariant now == Rescaled(ws, rounds) && |now| == a
      invariant !tooLong ==> Best(len[..a], now, maxLen)
      invariant len[a..] == old(len[a..])
      decreases if tooLong then 1 + LeafSum(weight[..], a) else 0
    {
      ghost var w0 := weight[..];
      tooLong := TryLengths(heap, weight, parent, len, a, maxLen, now);
      if tooLong {
        now := Lighten(weight, a, w0, ws, now, rounds, maxLen);
        rounds := rounds + 1;
      }
    }
  }

  /** BZ2_hbMakeCodeLengths: it always ends, with every length from 1 to maxLen, the Kraft sum
      exactly 1, and no cheaper code for the frequencies, or for what forced rescalings left of them. */
  method HbMakeCodeLengths(len: array<Byte>, freq: seq<nat>, alphaSize: nat, maxLen: nat) returns (ghost rounds: nat)
    requires 2 <= alphaSize <= BZ_MAX_ALPHA_SIZE && alphaSize <= |freq| && alphaSize <= len.Length
    requires 17 <= maxLen <= 255 && FrequencySum(freq[..alphaSize]) < MAX_TOTAL
    modifies len
    ensures BuiltFor(len[..alphaSize], freq[..alphaSize], rounds, maxLen)
    ensures len[alphaSize..] == old(len[alphaSize..])
  {
    var heap := new nat[BZ_MAX_ALPHA_SIZE + 2](_ => 0);
    var weight := new int[BZ_MAX_ALPHA_SIZE * 2](_ => 0);
    var parent := new int[BZ_MAX_ALPHA_SIZE * 2](_ => 0);
    SetWeights(weight, freq, alphaSize);
    rounds := UntilShort(heap, weight, parent, len, alphaSize, maxLen, Weights(freq[..alphaSize]));
  }
}
