/** The binary heap inside BZ2_hbMakeCodeLengths: entries from index 1, ordered by
    weight, with entry 0 as a sentinel below everything. */
module Heap {
  import opened Basics
  import opened Rearranging

  ghost predicate HasWeights(h: seq<nat>, weight: seq<int>) {
    forall i :: 0 <= i < |h| ==> h[i] < |weight|
  }

  ghost function W(h: seq<nat>, weight: seq<int>, i: nat): int
    requires i < |h| && HasWeights(h, weight)
  {
    weight[h[i]]
  }

  ghost predicate ParentLeq(h: seq<nat>, weight: seq<int>, i: nat)
    requires i < |h| && HasWeights(h, weight)
  {
    W(h, weight, i / 2) <= W(h, weight, i)
  }

  ghost predicate IsHeap(h: seq<nat>, weight: seq<int>, n: nat) {
    && n < |h| && HasWeights(h, weight)
    && forall i :: 2 <= i <= n ==> ParentLeq(h, weight, i)
  }

  /** The root is the least of the heap. */
  lemma {:induction false} RootIsLeast(h: seq<nat>, weight: seq<int>, n: nat, i: nat)
    requires IsHeap(h, weight, n) && 1 <= i <= n
    ensures W(h, weight, 1) <= W(h, weight, i)
  {
    if i > 1 {
      assert ParentLeq(h, weight, i);
      RootIsLeast(h, weight, n, i / 2);
    }
  }

  // ---------- moving up ----------

  /** A heap but for the entry at hole, which may be too small for its place. */
  ghost predicate HeapAbove(h: seq<nat>, weight: seq<int>, n: nat, hole: nat) {
    && 1 <= hole <= n < |h| && HasWeights(h, weight)
    && (forall i :: 2 <= i <= n && i != hole ==> ParentLeq(h, weight, i))
    && (hole >= 2 ==> forall i :: 2 <= i <= n && i / 2 == hole ==> W(h, weight, hole / 2) <= W(h, weight, i))
  }

  lemma UpStep(h: seq<nat>, weight: seq<int>, n: nat, hole: nat)
    requires HeapAbove(h, weight, n, hole) && hole >= 2 && !ParentLeq(h, weight, hole)
    ensures HeapAbove(h[hole := h[hole / 2]][hole / 2 := h[hole]], weight, n, hole / 2)
  {
    var up := hole / 2;
    var g := h[hole := h[up]][up := h[hole]];
    forall i | 0 <= i < |g| ensures W(g, weight, i) ==
      if i == hole then W(h, weight, up) else if i == up then W(h, weight, hole) else W(h, weight, i) {}
    forall i | 2 <= i <= n && i != up ensures ParentLeq(g, weight, i) {
      if i != hole { assert ParentLeq(h, weight, i); }
    }
    if up >= 2 {
      assert ParentLeq(h, weight, up);
      forall i | 2 <= i <= n && i / 2 == up ensures W(g, weight, up / 2) <= W(g, weight, i) {
        if i != hole { assert ParentLeq(h, weight, i); }
      }
    }
  }

  lemma UpDone(h: seq<nat>, weight: seq<int>, n: nat, hole: nat)
    requires HeapAbove(h, weight, n, hole) && (hole == 1 || ParentLeq(h, weight, hole))
    ensures IsHeap(h, weight, n)
  {}

  /** UPHEAP(z). */
  method UpHeap(heap: array<nat>, weight: seq<int>, z: nat)
    requires 1 <= z < heap.Length && HasWeights(heap[..], weight)
    requires heap[0] == 0 && weight[0] == 0 && 0 <= weight[heap[z]]
    requires IsHeap(heap[..], weight, z - 1)
    modifies heap
    ensures IsHeap(heap[..], weight, z)
    ensures Rearranged(old(heap[..]), heap[..], 1, z + 1)
  {
    ghost var s := heap[..];
    ghost var t := s;
    var zz := z;
    var tmp := heap[zz];
    forall i | 2 <= i <= z && i != z ensures ParentLeq(t, weight, i) {}
    while weight[tmp] < weight[heap[zz / 2]]
      invariant 1 <= zz <= z && HeapAbove(t, weight, z, zz) && Rearranged(s, t, 1, z + 1) && t[zz] == tmp && t[0] == 0
      invariant |t| == heap.Length && forall k :: 0 <= k < |t| && k != zz ==> heap[k] == t[k]
      decreases zz
    {
      assert zz >= 2;
      UpStep(t, weight, z, zz);
      RearrangedSwap(s, t, zz, zz / 2, 1, z + 1);
      t := t[zz := t[zz / 2]][zz / 2 := t[zz]];
      heap[zz] := heap[zz / 2];
      zz := zz / 2;
    }
    heap[zz] := tmp;
    assert heap[..] == t;
    UpDone(t, weight, z, zz);
  }

  // ---------- moving down ----------

  /** A heap but for the entry at hole, which may be too large for its place. */
  ghost predicate HeapBelow(h: seq<nat>, weight: seq<int>, n: nat, hole: nat) {
    && 1 <= hole < |h| && n < |h| && HasWeights(h, weight)
    && (forall i :: 2 <= i <= n && i / 2 != hole ==> ParentLeq(h, weight, i))
    && (hole >= 2 ==> forall i :: 2 <= i <= n && i / 2 == hole ==> W(h, weight, hole / 2) <= W(h, weight, i))
  }

  lemma DownStep(h: seq<nat>, weight: seq<int>, n: nat, hole: nat, yy: nat)
    requires HeapBelow(h, weight, n, hole) && 2 <= yy <= n && yy / 2 == hole
    requires W(h, weight, yy) <= W(h, weight, hole)
    requires forall i :: 2 <= i <= n && i / 2 == hole ==> W(h, weight, yy) <= W(h, weight, i)
    ensures HeapBelow(h[hole := h[yy]][yy := h[hole]], weight, n, yy)
  {
    var g := h[hole := h[yy]][yy := h[hole]];
    forall i | 0 <= i < |g| ensures W(g, weight, i) ==
      if i == hole then W(h, weight, yy) else if i == yy then W(h, weight, hole) else W(h, weight, i) {}
    forall i | 2 <= i <= n && i / 2 != yy ensures ParentLeq(g, weight, i) {
      if i / 2 != hole { assert ParentLeq(h, weight, i); }
    }
    forall i | 2 <= i <= n && i / 2 == yy ensures W(g, weight, yy / 2) <= W(g, weight, i) {
      assert ParentLeq(h, weight, i);
    }
  }

  /** DOWNHEAP(1) on the first n entries. */
  method DownHeap(heap: array<nat>, weight: seq<int>, n: nat)
    requires 1 < heap.Length && n < heap.Length
    requires HeapBelow(heap[..], weight, n, 1)
    modifies heap
    ensures IsHeap(heap[..], weight, n)
    ensures n >= 1 ==> Rearranged(old(heap[..]), heap[..], 1, n + 1)
    ensures n == 0 ==> heap[..] == old(heap[..])
  {
    ghost var s := heap[..];
    ghost var t := s;
    var zz := 1;
    var tmp := heap[zz];
    while true
      invariant HeapBelow(t, weight, n, zz) && t[zz] == tmp
      invariant n >= 1 ==> zz <= n && Rearranged(s, t, 1, n + 1)
      invariant n == 0 ==> t == s
      invariant |t| == heap.Length && forall k :: 0 <= k < |t| && k != zz ==> heap[k] == t[k]
      decreases n + 1 - zz
    {
      var yy := zz * 2;
      if yy > n { break; }
      if yy < n && weight[heap[yy + 1]] < weight[heap[yy]] { yy := yy + 1; }
      if weight[tmp] < weight[heap[yy]] { break; }
      DownStep(t, weight, n, zz, yy);
      RearrangedSwap(s, t, zz, yy, 1, n + 1);
      t := t[zz := t[yy]][yy := t[zz]];
      heap[zz] := heap[yy];
      zz := yy;
    }
    heap[zz] := tmp;
    assert heap[..] == t;
    forall i | 2 <= i <= n ensures ParentLeq(t, weight, i) {}
  }

  // ---------- the queue ----------

  /** A heap of n different nodes. */
  ghost predicate IsQueue(h: seq<nat>, weight: seq<int>, n: nat) {
    IsHeap(h, weight, n) && h[0] == 0 && Distinct(h[1..n + 1])
  }

  ghost function Queued(h: seq<nat>, n: nat): set<nat>
    requires n < |h|
  {
    Elements(h[1..n + 1])
  }

  lemma AppendDistinct(h: seq<nat>, n: nat)
    requires n + 1 < |h| && Distinct(h[1..n + 1]) && h[n + 1] !in Queued(h, n)
    ensures Distinct(h[1..n + 2]) && Queued(h, n + 1) == Queued(h, n) + {h[n + 1]}
  {
    var a, z := h[1..n + 1], h[1..n + 2];
    assert z == a + [h[n + 1]];
    forall i, j | 0 <= i < j < |z| ensures Differ(z, i, j) {
      if j < |a| { assert Differ(a, i, j); } else { assert a[i] in Queued(h, n); }
    }
  }

  /** Adds node x. */
  method Insert(heap: array<nat>, weight: seq<int>, n: nat, x: nat)
    requires n + 1 < heap.Length && IsQueue(heap[..], weight, n) && x !in Queued(heap[..], n)
    requires x < |weight| && weight[0] == 0 && 0 <= weight[x]
    modifies heap
    ensures IsQueue(heap[..], weight, n + 1)
    ensures Queued(heap[..], n + 1) == Queued(old(heap[..]), n) + {x}
  {
    ghost var s := heap[..];
    heap[n + 1] := x;
    ghost var t := heap[..];
    assert t[1..n + 1] == s[1..n + 1];
    forall i | 2 <= i <= n ensures ParentLeq(t, weight, i) { assert ParentLeq(s, weight, i); }
    AppendDistinct(t, n);
    UpHeap(heap, weight, n + 1);
    RearrangedDistinct(t, heap[..], 1, n + 2);
  }

  lemma SwapOutRoot(h: seq<nat>, weight: seq<int>, n: nat)
    requires 1 <= n && IsQueue(h, weight, n)
    ensures HeapBelow(h[1 := h[n]], weight, n - 1, 1)
    ensures Distinct(h[1 := h[n]][1..n])
    ensures Elements(h[1 := h[n]][1..n]) == Queued(h, n) - {h[1]}
  {
    var g := h[1 := h[n]];
    forall i | 2 <= i <= n - 1 && i / 2 != 1 ensures ParentLeq(g, weight, i) { assert ParentLeq(h, weight, i); }
    var a, z := h[1..n + 1], g[1..n];
    forall i, j | 0 <= i < j < |z| ensures Differ(z, i, j) {
      assert Differ(a, i, j) && Differ(a, j, n - 1);
    }
    forall v | v in Elements(z) ensures v in Queued(h, n) && v != h[1] {
      var i :| 0 <= i < |z| && z[i] == v;
      assert Differ(a, 0, if i == 0 then n - 1 else i);
    }
    forall v | v in Queued(h, n) && v != h[1] ensures v in Elements(z) {
      var i :| 0 <= i < |a| && a[i] == v;
      assert a[0] == h[1];
      assert i > 0;
      assert z[if i == n - 1 then 0 else i] == v;
    }
  }

  /** Takes out a node of least weight. */
  method PopMin(heap: array<nat>, weight: seq<int>, n: nat) returns (x: nat)
    requires 1 <= n < heap.Length && IsQueue(heap[..], weight, n)
    modifies heap
    ensures IsQueue(heap[..], weight, n - 1)
    ensures x in Queued(old(heap[..]), n) && Queued(heap[..], n - 1) == Queued(old(heap[..]), n) - {x}
    ensures forall y :: y in Queued(old(heap[..]), n) ==> y < |weight| && weight[x] <= weight[y]
  {
    ghost var s := heap[..];
    x := heap[1];
    LeastOfQueue(s, weight, n);
    SwapOutRoot(s, weight, n);
    heap[1] := heap[n];
    ghost var t := heap[..];
    assert t == s[1 := s[n]];
    DownHeap(heap, weight, n - 1);
    if n > 1 { RearrangedDistinct(t, heap[..], 1, n); }
  }

  lemma LeastOfQueue(h: seq<nat>, weight: seq<int>, n: nat)
    requires 1 <= n && IsQueue(h, weight, n)
    ensures h[1] in Queued(h, n)
    ensures forall y :: y in Queued(h, n) ==> y < |weight| && weight[h[1]] <= weight[y]
  {
    assert h[1..n + 1][0] == h[1];
    forall y | y in Queued(h, n) ensures y < |weight| && weight[h[1]] <= weight[y] {
      var i :| 0 <= i < n && h[1..n + 1][i] == y;
      RootIsLeast(h, weight, n, i + 1);
    }
  }
}
