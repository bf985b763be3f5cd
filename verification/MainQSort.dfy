/** mainQSort3 of blocksort.c: three-way quicksort for strings with an explicit stack. */
module MainQSort {
  import opened Basics
  import opened Rotations
  import opened Rearranging
  import opened Partitioning
  import opened Segments
  import opened MainCompare
  import opened MainSimpleSort

  const MAIN_QSORT_SMALL_THRESH := 20
  const MAIN_QSORT_STACK_SIZE := 100

  /** The median of three. */
  method Med3(a0: nat, b0: nat, c0: nat) returns (m: nat)
    ensures m == a0 || m == b0 || m == c0
    ensures (m <= a0 && m <= b0) || (m <= b0 && m <= c0) || (m <= a0 && m <= c0)
    ensures (m >= a0 && m >= b0) || (m >= b0 && m >= c0) || (m >= a0 && m >= c0)
  {
    var a, b, c := a0, b0, c0;
    if a > b { a, b := b, a; }
    if b > c {
      b := c;
      if a > b { b := a; }
    }
    return b;
  }

  /** The byte d places into each rotation. */
  function KeysAt(block: seq<Byte>, n: nat, d: nat): (keys: seq<nat>)
    requires n + d <= |block|
    ensures |keys| == n
  {
    block[d..d + n]
  }

  lemma KeyIsByte(b: seq<Byte>, r: seq<nat>, block: seq<Byte>, quadrant: seq<nat>, n: nat, p: nat, d: nat)
    requires Sortable(b, r, block, quadrant, n) && p < n && d <= 15
    ensures KeysAt(block, n, d)[p] == b[Wrap(n, p + d)] == At(b, p + d)
  {
    if p + d >= n { assert block[p + d] == block[p + d - n]; }
  }

  /** A smaller byte behind d common ones makes the smaller rotation; an equal one is common too. */
  lemma KeyDecides(b: seq<Byte>, r: seq<nat>, block: seq<Byte>, quadrant: seq<nat>, n: nat, p: nat, q: nat, d: nat)
    requires Sortable(b, r, block, quadrant, n) && p < n && q < n && d <= 14 && Cmp(b, p, q, d) == 0
    ensures KeysAt(block, n, d)[p] < KeysAt(block, n, d)[q] ==> r[p] <= r[q]
    ensures KeysAt(block, n, d)[p] == KeysAt(block, n, d)[q] ==> Cmp(b, p, q, d + 1) == 0
  {
    KeyIsByte(b, r, block, quadrant, n, p, d);
    KeyIsByte(b, r, block, quadrant, n, q, d);
    if KeysAt(block, n, d)[p] < KeysAt(block, n, d)[q] {
      RankByByte(b, r, Wrap(n, p + d), Wrap(n, q + d));
      RankByDepth(b, r, p, q, d);
    }
    CmpSplit(b, p, q, d, 1);
    assert Cmp(b, p + d + 1, q + d + 1, 0) == 0;
  }

  // ---------- the stack ----------

  /** Each stretch on the stack with the number of bytes its rotations have in common. */
  ghost predicate Depths(b: seq<Byte>, f: seq<nat>, segs: seq<Segment>, ds: seq<nat>, lo: nat, hi: int)
    requires |b| > 0 && hi < |f|
  {
    Apart(segs, lo, hi) && |ds| == |segs| && forall k :: 0 <= k < |segs| ==> DepthOk(b, f, segs, ds, k)
  }

  ghost predicate DepthOk(b: seq<Byte>, f: seq<nat>, segs: seq<Segment>, ds: seq<nat>, k: nat)
    requires |b| > 0 && k < |segs| == |ds|
  {
    0 <= segs[k].lo && segs[k].hi < |f| && ds[k] <= 15 && Agree(b, f, segs[k].lo, segs[k].hi + 1, ds[k])
  }

  /** Every second place up the stack the stretches are half as long. */
  ghost predicate Halving(segs: seq<Segment>, total: int) {
    forall k :: 0 <= k < |segs| ==> Fits(segs[k].Size(), (k + 1) / 2, total)
  }

  ghost function Weight(g: Segment, d: int): int { 3 * (g.Size() * (16 - d)) + 1 }

  ghost function Weights(segs: seq<Segment>, ds: seq<nat>): (ws: seq<int>)
    requires |segs| == |ds|
    ensures |ws| == |segs|
  {
    seq(|segs|, k requires 0 <= k < |segs| => Weight(segs[k], ds[k]))
  }

  ghost function Work(segs: seq<Segment>, ds: seq<nat>): int
    requires |segs| == |ds|
  {
    Sum(Weights(segs, ds))
  }

  lemma WeightPositive(g: Segment, d: nat)
    requires g.Size() >= 0 && d <= 16
    ensures Weight(g, d) > 0
  {
    MulMonotone(0, 16 - d, g.Size());
  }

  lemma WorkPositive(b: seq<Byte>, f: seq<nat>, segs: seq<Segment>, ds: seq<nat>, lo: nat, hi: int)
    requires |b| > 0 && hi < |f| && Depths(b, f, segs, ds, lo, hi)
    ensures Work(segs, ds) >= 0
  {
    var ws := Weights(segs, ds);
    forall k | 0 <= k < |ws| ensures ws[k] >= 0 {
      assert DepthOk(b, f, segs, ds, k);
      WeightPositive(segs[k], ds[k]);
    }
    SumPositive(ws);
  }

  lemma {:induction false} SumPositive(s: seq<int>)
    requires forall k :: 0 <= k < |s| ==> s[k] >= 0
    ensures Sum(s) >= 0
  {
    if s != [] { SumPositive(s[1..]); }
  }

  lemma WorkPushed(segs: seq<Segment>, ds: seq<nat>, next: seq<Segment>, nextD: seq<nat>)
    requires |segs| == |ds| && |next| == |nextD|
    ensures Work(segs + next, ds + nextD) == Work(segs, ds) + Work(next, nextD)
  {
    SumConcat(Weights(segs, ds), Weights(next, nextD));
    assert Weights(segs + next, ds + nextD) == Weights(segs, ds) + Weights(next, nextD);
  }

  lemma WorkOfOne(top: Segment, d: nat)
    ensures Work([top], [d]) == Weight(top, d)
  {
    SumIs([Weight(top, d)], Weight(top, d), []);
    assert Weights([top], [d]) == [Weight(top, d)];
  }

  lemma SumIs(s: seq<int>, w: int, rest: seq<int>)
    requires s == [w] + rest
    ensures Sum(s) == w + Sum(rest)
  {
    assert s[1..] == rest;
  }

  lemma SumOfThree(s: seq<int>, x: int, y: int, z: int)
    requires s == [x, y, z]
    ensures Sum(s) == x + y + z
  {
    SumIs(s, x, [y, z]);
    SumIs([y, z], y, [z]);
    SumIs([z], z, []);
  }

  /** The equal part is not empty and goes one byte deeper. */
  lemma PartsWeighLess(x: Segment, y: Segment, z: Segment, top: Segment, d: nat)
    requires d <= 14 && z.Size() > 0 && x.Size() + y.Size() + z.Size() == top.Size()
    ensures Weight(x, d) + Weight(y, d) + Weight(z, d + 1) < Weight(top, d)
  {
    var e := 16 - d;
    Spread(x.Size(), y.Size(), z.Size(), e);
  }

  lemma Spread(x: int, y: int, z: int, e: int)
    ensures x * e + y * e + z * (e - 1) == (x + y + z) * e - z
  {}

  lemma DeeperWeighsLess(top: Segment, d: nat)
    requires d <= 14 && top.Size() > 0
    ensures Weight(top, d + 1) < Weight(top, d)
  {
    Spread(0, 0, top.Size(), 16 - d);
  }

  // ---------- the budget ----------

  /** The most comparisons that sorting all stretches takes. */
  ghost function StackCompares(segs: seq<Segment>): nat {
    if segs == [] then 0 else StackCompares(segs[..|segs| - 1]) + Compares(segs[|segs| - 1].Size())
  }

  /** Of all comparisons allowed, those for the stretches on the stack are still to come. */
  ghost predicate Paid(budget: int, left: int, cost: nat, all: int, segs: seq<Segment>) {
    Spent(budget, left, cost, all - StackCompares(segs))
  }

  lemma PaidNothing(budget: int, cost: nat, g: Segment)
    ensures Paid(budget, budget, cost, Compares(g.Size()), [g])
  {
    ComparesPushed([], g);
    assert [] + [g] == [g];
    NothingSpent(budget, cost, 0);
  }

  lemma PaidAll(budget: int, left: int, cost: nat, all: int, segs: seq<Segment>)
    requires Paid(budget, left, cost, all, segs)
    ensures Spent(budget, left, cost, all)
  {
    SpentAtMost(budget, left, cost, all - StackCompares(segs), all);
  }

  lemma PaidTop(budget: int, left: int, less: int, cost: nat, all: int, segs: seq<Segment>)
    requires segs != [] && Paid(budget, left, cost, all, segs)
    requires Spent(left, less, cost, Compares(segs[|segs| - 1].Size()))
    ensures Paid(budget, less, cost, all, segs[..|segs| - 1])
  {
    var rest := segs[..|segs| - 1];
    SpentMore(budget, left, less, cost, all - StackCompares(segs), Compares(segs[|segs| - 1].Size()),
              all - StackCompares(rest));
  }

  lemma ComparesPushed(segs: seq<Segment>, g: Segment)
    ensures StackCompares(segs + [g]) == StackCompares(segs) + Compares(g.Size())
  {
    assert (segs + [g])[..|segs|] == segs;
  }

  /** The parts of a stretch take no more comparisons than the stretch. */
  lemma ComparesOfParts(segs: seq<Segment>, top: Segment, next: seq<Segment>)
    requires |next| == 3 && next[0].Size() >= 0 && next[1].Size() >= 0 && next[2].Size() >= 0
    requires next[0].Size() + next[1].Size() + next[2].Size() == top.Size()
    ensures StackCompares(segs + next) <= StackCompares(segs + [top])
  {
    var one, two := segs + [next[0]], segs + [next[0], next[1]];
    assert two == one + [next[1]] && segs + next == two + [next[2]];
    ComparesPushed(segs, next[0]);
    ComparesPushed(one, next[1]);
    ComparesPushed(two, next[2]);
    ComparesPushed(segs, top);
    ComparesTogether(next[0].Size(), next[1].Size());
    ComparesTogether(next[0].Size() + next[1].Size(), next[2].Size());
  }

  lemma PaidParts(budget: int, left: int, cost: nat, all: int, segs: seq<Segment>, m: nat, next: seq<Segment>)
    requires Paid(budget, left, cost, all, segs) && |segs| == m + 1
    requires |next| == 3 && next[0].Size() >= 0 && next[1].Size() >= 0 && next[2].Size() >= 0
    requires next[0].Size() + next[1].Size() + next[2].Size() == segs[m].Size()
    ensures Paid(budget, left, cost, all, segs[..m] + next)
  {
    ComparesOfParts(segs[..m], segs[m], next);
    assert segs == segs[..m] + [segs[m]];
    SpentAtMost(budget, left, cost, all - StackCompares(segs), all - StackCompares(segs[..m] + next));
  }

  // ---------- what equal rotations cost ----------

  /** What the rotations of rank v in one stretch are still to cost. */
  ghost function ExtraIn(f: seq<nat>, r: seq<nat>, g: Segment, v: nat): nat {
    if 0 <= g.lo <= g.hi + 1 <= |f| then Extra(OfRank(f, r, g.lo, g.hi + 1, v)) else 0
  }

  ghost function StackExtra(f: seq<nat>, r: seq<nat>, segs: seq<Segment>, v: nat): nat {
    if segs == [] then 0 else StackExtra(f, r, segs[..|segs| - 1], v) + ExtraIn(f, r, segs[|segs| - 1], v)
  }

  /** Of all that the rotations of rank v are to cost, only what is on the stack is still to come. */
  ghost predicate PaidTies(share: bool, budget: int, left: int, n: nat, all: int, f: seq<nat>, r: seq<nat>,
                           segs: seq<Segment>, v: nat) {
    share ==> Charged(budget, left, n, all - StackExtra(f, r, segs, v))
  }

  lemma ExtraPushed(f: seq<nat>, r: seq<nat>, segs: seq<Segment>, g: Segment, v: nat)
    ensures StackExtra(f, r, segs + [g], v) == StackExtra(f, r, segs, v) + ExtraIn(f, r, g, v)
  {
    assert (segs + [g])[..|segs|] == segs;
  }

  lemma PaidTiesStart(share: bool, budget: int, n: nat, f: seq<nat>, r: seq<nat>, g: Segment, v: nat)
    ensures PaidTies(share, budget, budget, n, ExtraIn(f, r, g, v), f, r, [g], v)
  {
    ExtraPushed(f, r, [], g, v);
    assert [] + [g] == [g];
  }

  /** What lies outside the stretch that is rearranged stays as it is. */
  lemma {:induction false} ExtraKept(f: seq<nat>, g: seq<nat>, r: seq<nat>, segs: seq<Segment>, top: Segment, v: nat)
    requires 0 <= top.lo <= top.hi + 1 && Rearranged(f, g, top.lo, top.hi + 1)
    requires forall k :: 0 <= k < |segs| ==> segs[k].hi < top.lo || top.hi < segs[k].lo
    ensures StackExtra(g, r, segs, v) == StackExtra(f, r, segs, v)
    decreases |segs|
  {
    if segs != [] {
      var m := |segs| - 1;
      ExtraKept(f, g, r, segs[..m], top, v);
      var lo, hi := segs[m].lo, segs[m].hi + 1;
      if 0 <= lo <= hi <= |f| {
        assert f[lo..hi] == g[lo..hi];
        assert OfRank(f, r, lo, hi, v) == OfRank(g, r, lo, hi, v);
      }
    }
  }

  lemma ExtraOfTopKept(b: seq<Byte>, f: seq<nat>, g: seq<nat>, r: seq<nat>, top: Segment, d: nat, v: nat)
    requires |b| > 0 && 0 <= top.lo <= top.hi + 1 <= |f| && Rearranged(f, g, top.lo, top.hi + 1)
    requires Agree(b, f, top.lo, top.hi + 1, d)
    ensures ExtraIn(g, r, top, v) == ExtraIn(f, r, top, v)
  {
    AgreeDistinct(b, f, top.lo, top.hi + 1, d);
    OfRankKept(f, g, r, top.lo, top.hi + 1, v);
  }

  lemma BelowTop(b: seq<Byte>, f: seq<nat>, segs: seq<Segment>, ds: seq<nat>, lo: nat, hi: int)
    requires |b| > 0 && hi < |f| && segs != [] && Depths(b, f, segs, ds, lo, hi)
    ensures var top := segs[|segs| - 1]; var rest := segs[..|segs| - 1];
      forall k :: 0 <= k < |rest| ==> rest[k].hi < top.lo || top.hi < rest[k].lo
  {}

  /** Rearranging the top stretch changes nothing of what there is to cost. */
  lemma StackExtraKept(b: seq<Byte>, f: seq<nat>, g: seq<nat>, r: seq<nat>, segs: seq<Segment>, ds: seq<nat>, lo: nat,
                       hi: int, v: nat)
    requires |b| > 0 && hi < |f| && segs != [] && Depths(b, f, segs, ds, lo, hi)
    requires var top := segs[|segs| - 1]; 0 <= top.lo <= top.hi + 1 && Rearranged(f, g, top.lo, top.hi + 1)
    ensures StackExtra(f, r, segs, v)
         == StackExtra(g, r, segs[..|segs| - 1], v) + ExtraIn(g, r, segs[|segs| - 1], v)
  {
    var m := |segs| - 1;
    assert DepthOk(b, f, segs, ds, m);
    BelowTop(b, f, segs, ds, lo, hi);
    ExtraKept(f, g, r, segs[..m], segs[m], v);
    ExtraOfTopKept(b, f, g, r, segs[m], ds[m], v);
  }

  /** The top stretch has been sorted: its rotations of rank v have been paid. */
  lemma PaidTiesTop(b: seq<Byte>, share: bool, budget: int, left: int, less: int, n: nat, all: int, f: seq<nat>,
                    g: seq<nat>, r: seq<nat>, segs: seq<Segment>, ds: seq<nat>, lo: nat, hi: int, v: nat)
    requires |b| > 0 && hi < |f| && segs != [] && Depths(b, f, segs, ds, lo, hi)
    requires PaidTies(share, budget, left, n, all, f, r, segs, v)
    requires var top := segs[|segs| - 1]; 0 <= top.lo <= top.hi + 1 && Rearranged(f, g, top.lo, top.hi + 1)
    requires share ==> Charged(left, less, n, ExtraIn(g, r, segs[|segs| - 1], v))
    ensures PaidTies(share, budget, less, n, all, g, r, segs[..|segs| - 1], v)
  {
    var m := |segs| - 1;
    StackExtraKept(b, f, g, r, segs, ds, lo, hi, v);
    if share {
      ChargedMore(budget, left, less, n, all - StackExtra(f, r, segs, v), ExtraIn(g, r, segs[m], v),
                  all - StackExtra(g, r, segs[..m], v));
    }
  }

  /** Equal rotations have the same byte at every depth. */
  lemma TieHasKey(b: seq<Byte>, r: seq<nat>, block: seq<Byte>, quadrant: seq<nat>, n: nat, p: nat, q: nat, d: nat)
    requires Sortable(b, r, block, quadrant, n) && p < n && q < n && d <= 15 && r[p] == r[q]
    ensures KeysAt(block, n, d)[p] == KeysAt(block, n, d)[q]
  {
    assert Ranked(b, r, p, q) && Ranked(b, r, q, p);
    CmpAntisym(b, p, q, n);
    CmpZeroAt(b, p, q, n, d);
    KeyIsByte(b, r, block, quadrant, n, p, d);
    KeyIsByte(b, r, block, quadrant, n, q, d);
  }

  lemma Subrange(g: seq<nat>, r: seq<nat>, top: Segment, part: Segment, v: nat)
    requires 0 <= top.lo <= part.lo <= part.hi + 1 <= top.hi + 1 <= |g| && HasKeys(g, r)
    requires forall x :: top.lo <= x <= top.hi && Key(g, r, x) == v ==> part.lo <= x <= part.hi
    ensures ExtraIn(g, r, part, v) == ExtraIn(g, r, top, v)
  {
    var all, some := OfRank(g, r, top.lo, top.hi + 1, v), OfRank(g, r, part.lo, part.hi + 1, v);
    forall p | p in all ensures p in some {
      var x :| 0 <= x < top.hi + 1 - top.lo && g[top.lo..top.hi + 1][x] == p;
      assert Key(g, r, top.lo + x) == v;
      assert g[part.lo..part.hi + 1][top.lo + x - part.lo] == p;
    }
    forall p | p in some ensures p in all {
      var x :| 0 <= x < part.hi + 1 - part.lo && g[part.lo..part.hi + 1][x] == p;
      assert g[top.lo..top.hi + 1][part.lo + x - top.lo] == p;
    }
    assert all == some;
  }

  /** A partition leaves all rotations of rank v in one part. */
  lemma OnePart(b: seq<Byte>, r: seq<nat>, block: seq<Byte>, quadrant: seq<nat>, nblock: nat, g: seq<nat>, lo: nat,
                n: int, m: int, hi: int, med: nat, d: nat, v: nat)
    requires Sortable(b, r, block, quadrant, nblock) && d <= 15 && |g| <= nblock && HasKeys(g, r)
    requires HasKeys(g, KeysAt(block, nblock, d)) && lo <= n + 1 < m <= hi + 1 <= |g|
    requires Partitioned(g, KeysAt(block, nblock, d), lo, n, m, hi, med)
    ensures ExtraIn(g, r, Segment(lo, hi), v)
         <= ExtraIn(g, r, Segment(lo, n), v) + ExtraIn(g, r, Segment(m, hi), v)
            + ExtraIn(g, r, Segment(n + 1, m - 1), v)
  {
    var keys := KeysAt(block, nblock, d);
    if y :| lo <= y <= hi && Key(g, r, y) == v {
      forall x | lo <= x <= hi && Key(g, r, x) == v ensures Key(g, keys, x) == Key(g, keys, y) {
        TieHasKey(b, r, block, quadrant, nblock, g[x], g[y], d);
      }
      var part := if y <= n then Segment(lo, n) else if y < m then Segment(n + 1, m - 1) else Segment(m, hi);
      Subrange(g, r, Segment(lo, hi), part, v);
    } else {
      Subrange(g, r, Segment(lo, hi), Segment(lo, n), v);
    }
  }

  /** The three parts of a partition, in some order. */
  ghost predicate Shuffled(next: seq<Segment>, nextD: seq<nat>, x: Segment, y: Segment, z: Segment, d: nat) {
    || (next == [x, y, z] && nextD == [d, d, d + 1])
    || (next == [y, x, z] && nextD == [d, d, d + 1])
    || (next == [x, z, y] && nextD == [d, d + 1, d])
    || (next == [y, z, x] && nextD == [d, d + 1, d])
    || (next == [z, x, y] && nextD == [d + 1, d, d])
    || (next == [z, y, x] && nextD == [d + 1, d, d])
  }

  /** The largest part is to be pushed first. */
  method BySize(x: Segment, y: Segment, z: Segment, d: nat) returns (next: seq<Segment>, nextD: seq<nat>)
    ensures Shuffled(next, nextD, x, y, z, d)
    ensures next[0].Size() >= next[1].Size() >= next[2].Size()
  {
    next, nextD := [x, y, z], [d, d, d + 1];
    if next[0].Size() < next[1].Size() {
      next, nextD := [next[1], next[0], next[2]], [nextD[1], nextD[0], nextD[2]];
    }
    if next[1].Size() < next[2].Size() {
      next, nextD := [next[0], next[2], next[1]], [nextD[0], nextD[2], nextD[1]];
    }
    if next[0].Size() < next[1].Size() {
      next, nextD := [next[1], next[0], next[2]], [nextD[1], nextD[0], nextD[2]];
    }
  }

  lemma PushedWork(segs: seq<Segment>, ds: seq<nat>, top: Segment, d: nat, next: seq<Segment>, nextD: seq<nat>,
                   x: Segment, y: Segment, z: Segment)
    requires |segs| == |ds| && Shuffled(next, nextD, x, y, z, d) && d <= 14
    requires z.Size() > 0 && x.Size() + y.Size() + z.Size() == top.Size()
    ensures Work(segs + next, ds + nextD) < Work(segs + [top], ds + [d])
  {
    WorkPushed(segs, ds, [top], [d]);
    WorkOfOne(top, d);
    WorkPushed(segs, ds, next, nextD);
    SumOfThree(Weights(next, nextD), Weight(next[0], nextD[0]), Weight(next[1], nextD[1]), Weight(next[2], nextD[2]));
    PartsWeighLess(x, y, z, top, d);
  }

  /** The parts of a stretch at place k fit at places k, k + 1 and k + 2. */
  lemma PartsFit(top: Segment, x: int, y: int, z: int, k: nat, total: int)
    requires Fits(top.Size(), (k + 1) / 2, total) && x >= y >= z >= 0 && x + y + z == top.Size()
    ensures Fits(x, (k + 1) / 2, total) && Fits(y, (k + 2) / 2, total) && Fits(z, (k + 3) / 2, total)
  {
    var h := (k + 1) / 2;
    FitsHalf(top.Size(), x, y, h, total);
    FitsHalf(top.Size(), y, z, h, total);
    assert (k + 2) / 2 == h || (k + 2) / 2 == h + 1;
    assert (k + 3) / 2 == h + 1;
  }

  lemma PushedFits(segs: seq<Segment>, top: Segment, next: seq<Segment>, total: int)
    requires Halving(segs + [top], total) && |next| == 3
    requires next[0].Size() >= next[1].Size() >= next[2].Size() >= 0
    requires next[0].Size() + next[1].Size() + next[2].Size() == top.Size()
    ensures Halving(segs + next, total)
  {
    var k, all, old_ := |segs|, segs + next, segs + [top];
    assert old_[k] == top;
    PartsFit(top, next[0].Size(), next[1].Size(), next[2].Size(), k, total);
    assert all[k] == next[0] && all[k + 1] == next[1] && all[k + 2] == next[2];
    forall i | 0 <= i < |all| ensures Fits(all[i].Size(), (i + 1) / 2, total) {
      if i < k { assert all[i] == old_[i]; }
    }
  }

  /** A stretch that is partitioned lies near the bottom of the stack. */
  lemma StackStaysLow(segs: seq<Segment>, total: int)
    requires segs != [] && Halving(segs, total) && total < Pow2(31) && segs[|segs| - 1].Size() > MAIN_QSORT_SMALL_THRESH
    ensures |segs| <= 56
  {
    var k := |segs| - 1;
    FitsLow(segs[k].Size(), (k + 1) / 2, total);
  }

  // ---------- one step ----------

  lemma RestKeepsDepths(b: seq<Byte>, f: seq<nat>, g: seq<nat>, segs: seq<Segment>, ds: seq<nat>, lo: nat, hi: int,
                        k: nat)
    requires |b| > 0 && hi < |f| && segs != [] && Depths(b, f, segs, ds, lo, hi) && k < |segs| - 1
    requires var top := segs[|segs| - 1]; 0 <= top.lo <= top.hi + 1 && Rearranged(f, g, top.lo, top.hi + 1)
    ensures DepthOk(b, g, segs, ds, k)
  {
    assert DepthOk(b, f, segs, ds, k);
    var top := segs[|segs| - 1];
    assert segs[k].hi < top.lo || top.hi < segs[k].lo;
    forall x, y | segs[k].lo <= x < segs[k].hi + 1 && segs[k].lo <= y < segs[k].hi + 1
      ensures SameFor(b, g, ds[k], x, y)
    {
      assert SameFor(b, f, ds[k], x, y);
    }
  }

  /** The stretches below the top one and the parts that replace it. */
  lemma DepthsReplaced(b: seq<Byte>, f: seq<nat>, g: seq<nat>, segs: seq<Segment>, ds: seq<nat>, next: seq<Segment>,
                       nextD: seq<nat>, lo: nat, hi: int)
    requires |b| > 0 && hi < |f| && segs != [] && Depths(b, f, segs, ds, lo, hi)
    requires var top := segs[|segs| - 1];
      0 <= top.lo <= top.hi + 1 && Rearranged(f, g, top.lo, top.hi + 1) && Apart(next, top.lo, top.hi)
    requires |nextD| == |next| && forall k :: 0 <= k < |next| ==> DepthOk(b, g, next, nextD, k)
    ensures Depths(b, g, segs[..|segs| - 1] + next, ds[..|ds| - 1] + nextD, lo, hi)
  {
    var m := |segs| - 1;
    var all, allD := segs[..m] + next, ds[..m] + nextD;
    assert segs == segs[..m] + [segs[m]];
    PartsAreApart(segs[..m], segs[m], segs, next, lo, hi);
    forall k | 0 <= k < |all| ensures DepthOk(b, g, all, allD, k) {
      if k < m {
        RestKeepsDepths(b, f, g, segs, ds, lo, hi, k);
      } else {
        assert DepthOk(b, g, next, nextD, k - m);
      }
    }
  }

  /** The elements of the middle part have one byte more in common. */
  lemma MiddleAgrees(b: seq<Byte>, r: seq<nat>, block: seq<Byte>, quadrant: seq<nat>, nblock: nat, g: seq<nat>,
                     lo: nat, n: int, m: int, hi: int, med: nat, d: nat, e: nat)
    requires Sortable(b, r, block, quadrant, nblock) && d <= 14 && e == d + 1 && |g| <= nblock && HasKeys(g, r)
    requires lo <= n + 1 < m <= hi + 1 <= |g| && Agree(b, g, lo, hi + 1, d)
    requires Partitioned(g, KeysAt(block, nblock, d), lo, n, m, hi, med)
    ensures Agree(b, g, n + 1, m, e)
  {
    forall x, y | n + 1 <= x < m && n + 1 <= y < m ensures SameFor(b, g, e, x, y) {
      assert SameFor(b, g, d, x, y);
      KeyDecides(b, r, block, quadrant, nblock, g[x], g[y], d);
      assert Key(g, KeysAt(block, nblock, d), x) == Key(g, KeysAt(block, nblock, d), y);
    }
  }

  /** Elements of different parts are in order. */
  lemma AcrossParts(b: seq<Byte>, r: seq<nat>, block: seq<Byte>, quadrant: seq<nat>, nblock: nat, g: seq<nat>,
                    lo: nat, n: int, m: int, hi: int, med: nat, d: nat, x: nat, y: nat)
    requires Sortable(b, r, block, quadrant, nblock) && d <= 14 && |g| <= nblock && HasKeys(g, r)
    requires lo <= n + 1 < m <= hi + 1 <= |g| && Agree(b, g, lo, hi + 1, d)
    requires Partitioned(g, KeysAt(block, nblock, d), lo, n, m, hi, med)
    requires lo <= x < y <= hi && !(y <= n) && !(m <= x) && !(n + 1 <= x && y < m)
    ensures Key(g, r, x) <= Key(g, r, y)
  {
    assert SameFor(b, g, d, x, y);
    KeyDecides(b, r, block, quadrant, nblock, g[x], g[y], d);
    assert Key(g, KeysAt(block, nblock, d), x) < Key(g, KeysAt(block, nblock, d), y);
  }

  lemma PartDepths(b: seq<Byte>, g: seq<nat>, next: seq<Segment>, nextD: seq<nat>, x: Segment, y: Segment,
                   z: Segment, d: nat)
    requires |b| > 0 && Shuffled(next, nextD, x, y, z, d)
    requires DepthOk(b, g, [x, y, z], [d, d, d + 1], 0) && DepthOk(b, g, [x, y, z], [d, d, d + 1], 1)
    requires DepthOk(b, g, [x, y, z], [d, d, d + 1], 2)
    ensures forall k :: 0 <= k < 3 ==> DepthOk(b, g, next, nextD, k)
  {
    forall k | 0 <= k < 3 ensures DepthOk(b, g, next, nextD, k) {
      assert (next[k] == x && nextD[k] == d) || (next[k] == y && nextD[k] == d) || (next[k] == z && nextD[k] == d + 1);
    }
  }

  /** Behind d common bytes, a partition by the next byte leaves three parts to sort. */
  lemma PartsRemain(b: seq<Byte>, r: seq<nat>, block: seq<Byte>, quadrant: seq<nat>, nblock: nat, g: seq<nat>,
                    lo: nat, n: int, m: int, hi: int, med: nat, d: nat, next: seq<Segment>, nextD: seq<nat>)
    requires Sortable(b, r, block, quadrant, nblock) && d <= 14 && |g| <= nblock && HasKeys(g, r)
    requires lo <= n + 1 < m <= hi + 1 <= |g| && Agree(b, g, lo, hi + 1, d)
    requires Partitioned(g, KeysAt(block, nblock, d), lo, n, m, hi, med)
    requires Shuffled(next, nextD, Segment(lo, n), Segment(m, hi), Segment(n + 1, m - 1), d)
    ensures Apart(next, lo, hi) && OrderedExcept(g, r, next, lo, hi)
    ensures forall k :: 0 <= k < 3 ==> DepthOk(b, g, next, nextD, k)
  {
    var x, y, z := Segment(lo, n), Segment(m, hi), Segment(n + 1, m - 1);
    MiddleAgrees(b, r, block, quadrant, nblock, g, lo, n, m, hi, med, d, d + 1);
    PartDepths(b, g, next, nextD, x, y, z, d);
    forall i, j | lo <= i < j <= hi && !Together(next, i, j) ensures Key(g, r, i) <= Key(g, r, j) {
      NotInParts(next, nextD, x, y, z, d, i, j);
      AcrossParts(b, r, block, quadrant, nblock, g, lo, n, m, hi, med, d, i, j);
    }
  }

  lemma NotInParts(next: seq<Segment>, nextD: seq<nat>, a: Segment, c: Segment, z: Segment, d: nat, x: int, y: int)
    requires Shuffled(next, nextD, a, c, z, d) && !Together(next, x, y)
    ensures !(a.lo <= x && y <= a.hi) && !(c.lo <= x && y <= c.hi) && !(z.lo <= x && y <= z.hi)
  {
    assert forall k :: 0 <= k < 3 ==> !(next[k].lo <= x && y <= next[k].hi);
    assert (a == next[0] || a == next[1] || a == next[2]) && (c == next[0] || c == next[1] || c == next[2])
        && (z == next[0] || z == next[1] || z == next[2]);
  }

  lemma ExtraOfParts(f: seq<nat>, r: seq<nat>, segs: seq<Segment>, next: seq<Segment>, nextD: seq<nat>, x: Segment,
                     y: Segment, z: Segment, d: nat, v: nat)
    requires Shuffled(next, nextD, x, y, z, d)
    ensures StackExtra(f, r, segs + next, v)
         == StackExtra(f, r, segs, v) + ExtraIn(f, r, x, v) + ExtraIn(f, r, y, v) + ExtraIn(f, r, z, v)
  {
    var one, two := segs + [next[0]], segs + [next[0], next[1]];
    assert two == one + [next[1]] && segs + next == two + [next[2]];
    ExtraPushed(f, r, segs, next[0], v);
    ExtraPushed(f, r, one, next[1], v);
    ExtraPushed(f, r, two, next[2], v);
  }

  /** The top stretch has been rearranged; what its rotations of rank v are to cost stays on the stack. */
  lemma PaidTiesKept(b: seq<Byte>, share: bool, budget: int, left: int, n: nat, all: int, f: seq<nat>, g: seq<nat>,
                     r: seq<nat>, segs: seq<Segment>, ds: seq<nat>, lo: nat, hi: int, v: nat, rest: seq<Segment>)
    requires |b| > 0 && hi < |f| && segs != [] && Depths(b, f, segs, ds, lo, hi)
    requires PaidTies(share, budget, left, n, all, f, r, segs, v)
    requires var top := segs[|segs| - 1]; 0 <= top.lo <= top.hi + 1 && Rearranged(f, g, top.lo, top.hi + 1)
    requires StackExtra(g, r, rest, v)
          >= StackExtra(g, r, segs[..|segs| - 1], v) + ExtraIn(g, r, segs[|segs| - 1], v)
    ensures PaidTies(share, budget, left, n, all, g, r, rest, v)
  {
    StackExtraKept(b, f, g, r, segs, ds, lo, hi, v);
    if share { ChargedLess(budget, left, n, all - StackExtra(f, r, segs, v), all - StackExtra(g, r, rest, v)); }
  }

  // ---------- mainQSort3 ----------

  /** f is s partly sorted between lo and hi; what remains is on the stack. */
  ghost predicate Sorting(b: seq<Byte>, r: seq<nat>, s: seq<nat>, f: seq<nat>, segs: seq<Segment>, ds: seq<nat>,
                          lo: nat, hi: int)
    requires |b| > 0
  {
    && lo <= hi + 1
    && Rearranged(s, f, lo, hi + 1)
    && HasKeys(f, r)
    && OrderedExcept(f, r, segs, lo, hi)
    && Depths(b, f, segs, ds, lo, hi)
    && Halving(segs, hi - lo + 1)
  }

  lemma SortingStarts(b: seq<Byte>, r: seq<nat>, f: seq<nat>, lo: nat, hi: int, d: nat)
    requires |b| > 0 && lo <= hi + 1 <= |f| && HasKeys(f, r) && d <= 15 && Agree(b, f, lo, hi + 1, d)
    ensures Sorting(b, r, f, f, [Segment(lo, hi)], [d], lo, hi)
  {
    var segs := [Segment(lo, hi)];
    assert Pow2(0) == 1;
    assert Fits(segs[0].Size(), 0, hi - lo + 1);
    assert DepthOk(b, f, segs, [d], 0);
    forall x, y | lo <= x < y <= hi ensures Together(segs, x, y) {
      assert segs[0].lo <= x && y <= segs[0].hi;
    }
  }

  lemma SortingEnds(b: seq<Byte>, r: seq<nat>, s: seq<nat>, f: seq<nat>, lo: nat, hi: int)
    requires |b| > 0 && Sorting(b, r, s, f, [], [], lo, hi)
    ensures KeysSorted(f, r, lo, hi + 1)
  {
    forall x, y | lo <= x < y < hi + 1 ensures Key(f, r, x) <= Key(f, r, y) {
      assert !Together([], x, y);
    }
  }

  lemma PoppedHalving(segs: seq<Segment>, total: int)
    requires segs != [] && Halving(segs, total)
    ensures Halving(segs[..|segs| - 1], total)
  {
    var rest := segs[..|segs| - 1];
    forall k | 0 <= k < |rest| ensures Fits(rest[k].Size(), (k + 1) / 2, total) { assert rest[k] == segs[k]; }
  }

  /** The top stretch is sorted and leaves the stack. */
  lemma TopDone(b: seq<Byte>, r: seq<nat>, s: seq<nat>, f: seq<nat>, g: seq<nat>, segs: seq<Segment>, ds: seq<nat>,
                lo: nat, hi: int)
    requires |b| > 0 && segs != [] && Sorting(b, r, s, f, segs, ds, lo, hi) && HasKeys(g, r)
    requires var top := segs[|segs| - 1];
      lo <= top.lo <= top.hi + 1 <= |f| && Rearranged(f, g, top.lo, top.hi + 1) && KeysSorted(g, r, top.lo, top.hi + 1)
    ensures Sorting(b, r, s, g, segs[..|segs| - 1], ds[..|ds| - 1], lo, hi)
    ensures Work(segs[..|segs| - 1], ds[..|ds| - 1]) < Work(segs, ds)
  {
    var m := |segs| - 1;
    var top := segs[m];
    TopReplaced(f, g, r, segs, [], lo, hi);
    DepthsReplaced(b, f, g, segs, ds, [], [], lo, hi);
    assert segs[..m] + [] == segs[..m] && ds[..m] + [] == ds[..m];
    PoppedHalving(segs, hi - lo + 1);
    RearrangedWiden(f, g, top.lo, top.hi + 1, lo, hi + 1);
    RearrangedTrans(s, f, g, lo, hi + 1);
    PoppedWork(b, f, segs, ds, lo, hi);
  }

  lemma PoppedWork(b: seq<Byte>, f: seq<nat>, segs: seq<Segment>, ds: seq<nat>, lo: nat, hi: int)
    requires |b| > 0 && hi < |f| && segs != [] && Depths(b, f, segs, ds, lo, hi)
    ensures Work(segs[..|segs| - 1], ds[..|ds| - 1]) < Work(segs, ds)
  {
    var m := |segs| - 1;
    assert segs == segs[..m] + [segs[m]] && ds == ds[..m] + [ds[m]];
    WorkPushed(segs[..m], ds[..m], [segs[m]], [ds[m]]);
    WorkOfOne(segs[m], ds[m]);
    assert DepthOk(b, f, segs, ds, m);
    WeightPositive(segs[m], ds[m]);
  }

  /** The top stretch has been partitioned; its parts replace it. */
  lemma TopSplit(b: seq<Byte>, r: seq<nat>, s: seq<nat>, f: seq<nat>, g: seq<nat>, segs: seq<Segment>, ds: seq<nat>,
                 lo: nat, hi: int, next: seq<Segment>, nextD: seq<nat>, x: Segment, y: Segment, z: Segment)
    requires |b| > 0 && segs != [] && Sorting(b, r, s, f, segs, ds, lo, hi) && HasKeys(g, r) && ds[|ds| - 1] <= 14
    requires var top := segs[|segs| - 1];
      && lo <= top.lo <= top.hi + 1 <= |f| && Rearranged(f, g, top.lo, top.hi + 1)
      && Apart(next, top.lo, top.hi) && OrderedExcept(g, r, next, top.lo, top.hi)
      && z.Size() > 0 && x.Size() + y.Size() + z.Size() == top.Size()
    requires Shuffled(next, nextD, x, y, z, ds[|ds| - 1]) && next[0].Size() >= next[1].Size() >= next[2].Size() >= 0
    requires forall k :: 0 <= k < 3 ==> DepthOk(b, g, next, nextD, k)
    ensures Sorting(b, r, s, g, segs[..|segs| - 1] + next, ds[..|ds| - 1] + nextD, lo, hi)
    ensures Work(segs[..|segs| - 1] + next, ds[..|ds| - 1] + nextD) < Work(segs, ds)
  {
    var m := |segs| - 1;
    var top := segs[m];
    assert segs == segs[..m] + [top] && ds == ds[..m] + [ds[m]];
    TopReplaced(f, g, r, segs, next, lo, hi);
    DepthsReplaced(b, f, g, segs, ds, next, nextD, lo, hi);
    PushedFits(segs[..m], top, next, hi - lo + 1);
    PushedWork(segs[..m], ds[..m], top, ds[m], next, nextD, x, y, z);
    RearrangedWiden(f, g, top.lo, top.hi + 1, lo, hi + 1);
    RearrangedTrans(s, f, g, lo, hi + 1);
  }

  /** All keys of the top stretch are equal: it goes back one byte deeper. */
  lemma TopDeeper(b: seq<Byte>, r: seq<nat>, s: seq<nat>, f: seq<nat>, g: seq<nat>, segs: seq<Segment>, ds: seq<nat>,
                  lo: nat, hi: int)
    requires |b| > 0 && segs != [] && Sorting(b, r, s, f, segs, ds, lo, hi) && HasKeys(g, r) && ds[|ds| - 1] <= 14
    requires var top := segs[|segs| - 1];
      && lo <= top.lo <= top.hi + 1 <= |f| && Rearranged(f, g, top.lo, top.hi + 1) && top.Size() > 0
      && Agree(b, g, top.lo, top.hi + 1, ds[|ds| - 1] + 1)
    ensures Sorting(b, r, s, g, segs, ds[..|ds| - 1] + [ds[|ds| - 1] + 1], lo, hi)
    ensures Work(segs, ds[..|ds| - 1] + [ds[|ds| - 1] + 1]) < Work(segs, ds)
  {
    var m := |segs| - 1;
    var top, d := segs[m], ds[m];
    assert segs == segs[..m] + [top] && ds == ds[..m] + [d];
    forall x, y | top.lo <= x < y <= top.hi ensures Together([top], x, y) {
      assert [top][0].lo <= x && y <= [top][0].hi;
    }
    assert DepthOk(b, g, [top], [d + 1], 0);
    TopReplaced(f, g, r, segs, [top], lo, hi);
    DepthsReplaced(b, f, g, segs, ds, [top], [d + 1], lo, hi);
    DeeperWork(segs, ds);
    RearrangedWiden(f, g, top.lo, top.hi + 1, lo, hi + 1);
    RearrangedTrans(s, f, g, lo, hi + 1);
  }

  lemma DeeperWork(segs: seq<Segment>, ds: seq<nat>)
    requires segs != [] && |segs| == |ds| && segs[|segs| - 1].Size() > 0 && ds[|ds| - 1] <= 14
    ensures Work(segs, ds[..|ds| - 1] + [ds[|ds| - 1] + 1]) < Work(segs, ds)
  {
    var m := |segs| - 1;
    var top, d := segs[m], ds[m];
    assert segs == segs[..m] + [top] && ds == ds[..m] + [d];
    WorkPushed(segs[..m], ds[..m], [top], [d]);
    WorkPushed(segs[..m], ds[..m], [top], [d + 1]);
    WorkOfOne(top, d);
    WorkOfOne(top, d + 1);
    DeeperWeighsLess(top, d);
  }

  /** Partitions ptr[lo..hi] by the bytes at depth d, around the median of three of them. */
  method PartitionAt(ptr: array<nat>, block: seq<Byte>, nblock: nat, lo: nat, hi: nat, d: nat,
                     ghost b: seq<Byte>, ghost r: seq<nat>)
    returns (n: int, m: int, ghost med: nat)
    requires lo <= hi < ptr.Length && nblock + d <= |block| && HasKeys(ptr[..], KeysAt(block, nblock, d))
    requires |b| > 0 && HasKeys(ptr[..], r) && Agree(b, ptr[..], lo, hi + 1, d)
    modifies ptr
    ensures HasKeys(ptr[..], r) && Agree(b, ptr[..], lo, hi + 1, d)
    ensures HasKeys(ptr[..], KeysAt(block, nblock, d)) && Rearranged(old(ptr[..]), ptr[..], lo, hi + 1)
    ensures lo <= n + 1 < m <= hi + 1 && Partitioned(ptr[..], KeysAt(block, nblock, d), lo, n, m, hi, med)
  {
    ghost var f := ptr[..];
    var keys := KeysAt(block, nblock, d);
    var median := Med3(keys[ptr[lo]], keys[ptr[hi]], keys[ptr[(lo + hi) / 2]]);
    assert Key(f, keys, lo) == median || Key(f, keys, (lo + hi) / 2) == median || Key(f, keys, hi) == median;
    n, m := Partition(ptr, keys, lo, hi, median);
    med := median;
    RearrangedBelow(f, ptr[..], lo, hi + 1, |r|);
    StillAgree(b, f, ptr[..], lo, hi + 1, d);
  }

  lemma TopInParts(b: seq<Byte>, r: seq<nat>, block: seq<Byte>, quadrant: seq<nat>, nblock: nat, s: seq<nat>,
                   f: seq<nat>, g: seq<nat>, segs: seq<Segment>, ds: seq<nat>, loSt: nat, hiSt: int,
                   lo: nat, n: int, m: int, hi: int, med: nat, d: nat, next: seq<Segment>, nextD: seq<nat>)
    requires Sortable(b, r, block, quadrant, nblock) && d <= 14 && |g| <= nblock && HasKeys(g, r)
    requires segs != [] && Sorting(b, r, s, f, segs, ds, loSt, hiSt)
    requires segs[|segs| - 1] == Segment(lo, hi) && ds[|ds| - 1] == d
    requires lo <= n + 1 < m <= hi + 1 <= |g| && Agree(b, g, lo, hi + 1, d) && loSt <= lo
    requires Rearranged(f, g, lo, hi + 1) && Partitioned(g, KeysAt(block, nblock, d), lo, n, m, hi, med)
    requires Shuffled(next, nextD, Segment(lo, n), Segment(m, hi), Segment(n + 1, m - 1), d)
    requires next[0].Size() >= next[1].Size() >= next[2].Size()
    ensures Sorting(b, r, s, g, segs[..|segs| - 1] + next, ds[..|ds| - 1] + nextD, loSt, hiSt)
    ensures Work(segs[..|segs| - 1] + next, ds[..|ds| - 1] + nextD) < Work(segs, ds)
  {
    PartsRemain(b, r, block, quadrant, nblock, g, lo, n, m, hi, med, d, next, nextD);
    TopSplit(b, r, s, f, g, segs, ds, loSt, hiSt, next, nextD, Segment(lo, n), Segment(m, hi), Segment(n + 1, m - 1));
  }

  /** Partitions the top stretch by its next byte and pushes what remains. */
  method SplitTop(ptr: array<nat>, block: seq<Byte>, quadrant: seq<nat>, nblock: nat, stack: seq<Segment>,
                  stackD: seq<nat>, ghost budget: int, ghost left: int, ghost all: int, ghost extra: int,
                  ghost b: seq<Byte>, ghost r: seq<nat>, ghost s: seq<nat>, ghost loSt: nat, ghost hiSt: int,
                  ghost share: bool, ghost v: nat)
    returns (pushed: seq<Segment>, pushedD: seq<nat>)
    requires Sortable(b, r, block, quadrant, nblock) && ptr.Length <= nblock && stack != []
    requires Sorting(b, r, s, ptr[..], stack, stackD, loSt, hiSt)
    requires stack[|stack| - 1].Size() > MAIN_QSORT_SMALL_THRESH && stackD[|stackD| - 1] <= MAIN_QSORT_DEPTH_THRESH
    requires Paid(budget, left, Cost(b), all, stack)
    requires PaidTies(share, budget, left, nblock, extra, ptr[..], r, stack, v)
    modifies ptr
    ensures 1 <= |pushed| <= 3 && Sorting(b, r, s, ptr[..], stack[..|stack| - 1] + pushed,
            stackD[..|stackD| - 1] + pushedD, loSt, hiSt)
    ensures Work(stack[..|stack| - 1] + pushed, stackD[..|stackD| - 1] + pushedD) < Work(stack, stackD)
    ensures Paid(budget, left, Cost(b), all, stack[..|stack| - 1] + pushed)
    ensures PaidTies(share, budget, left, nblock, extra, ptr[..], r, stack[..|stack| - 1] + pushed, v)
  {
    ghost var f := ptr[..];
    var sp := |stack| - 1;
    assert DepthOk(b, f, stack, stackD, sp);
    var lo, hi, d := stack[sp].lo, stack[sp].hi, stackD[sp];
    var n, m;
    ghost var med;
    n, m, med := PartitionAt(ptr, block, nblock, lo, hi, d, b, r);
    ghost var g := ptr[..];
    if n < lo && m > hi {
      MiddleAgrees(b, r, block, quadrant, nblock, g, lo, n, m, hi, med, d, d + 1);
      TopDeeper(b, r, s, f, g, stack, stackD, loSt, hiSt);
      pushed, pushedD := [Segment(lo, hi)], [d + 1];
      assert stack[..sp] + pushed == stack;
    } else {
      pushed, pushedD := BySize(Segment(lo, n), Segment(m, hi), Segment(n + 1, m - 1), d);
      TopInParts(b, r, block, quadrant, nblock, s, f, g, stack, stackD, loSt, hiSt, lo, n, m, hi, med, d, pushed,
                 pushedD);
      PaidParts(budget, left, Cost(b), all, stack, sp, pushed);
      OnePart(b, r, block, quadrant, nblock, g, lo, n, m, hi, med, d, v);
      ExtraOfParts(g, r, stack[..sp], pushed, pushedD, Segment(lo, n), Segment(m, hi), Segment(n + 1, m - 1), d, v);
    }
    PaidTiesKept(b, share, budget, left, nblock, extra, f, g, r, stack, stackD, loSt, hiSt, v, stack[..sp] + pushed);
  }

  /** Sorts the top stretch outright, as far as the budget goes. */
  method SortTop(ptr: array<nat>, block: seq<Byte>, quadrant: seq<nat>, nblock: nat, stack: seq<Segment>,
                 stackD: seq<nat>, budget: int, ghost budget0: int, ghost all: int, ghost extra: int,
                 ghost b: seq<Byte>, ghost r: seq<nat>, ghost s: seq<nat>, ghost loSt: nat, ghost hiSt: int,
                 ghost share: bool, ghost v: nat)
    returns (left: int)
    requires Sortable(b, r, block, quadrant, nblock) && nblock <= 900000 && ptr.Length <= nblock && stack != []
    requires Sorting(b, r, s, ptr[..], stack, stackD, loSt, hiSt)
    requires Paid(budget0, budget, Cost(b), all, stack)
    requires PaidTies(share, budget0, budget, nblock, extra, ptr[..], r, stack, v)
    requires share ==> TiesShare(b, r, quadrant[..nblock])
    modifies ptr
    ensures left <= budget && HasKeys(ptr[..], r) && Rearranged(s, ptr[..], loSt, hiSt + 1)
    ensures left >= 0 ==> Sorting(b, r, s, ptr[..], stack[..|stack| - 1], stackD[..|stackD| - 1], loSt, hiSt)
    ensures Work(stack[..|stack| - 1], stackD[..|stackD| - 1]) < Work(stack, stackD)
    ensures Paid(budget0, left, Cost(b), all, stack[..|stack| - 1])
    ensures left >= 0 ==> PaidTies(share, budget0, left, nblock, extra, ptr[..], r, stack[..|stack| - 1], v)
  {
    ghost var f := ptr[..];
    var sp := |stack| - 1;
    assert DepthOk(b, f, stack, stackD, sp);
    var lo, hi := stack[sp].lo, stack[sp].hi;
    left := SimpleSort(ptr, block, quadrant, nblock, lo, hi, stackD[sp], budget, b, r, v);
    PoppedWork(b, f, stack, stackD, loSt, hiSt);
    PaidTop(budget0, budget, left, Cost(b), all, stack);
    if left >= 0 {
      TopDone(b, r, s, f, ptr[..], stack, stackD, loSt, hiSt);
      PaidTiesTop(b, share, budget0, budget, left, nblock, extra, f, ptr[..], r, stack, stackD, loSt, hiSt, v);
    }
    RearrangedWiden(f, ptr[..], lo, hi + 1, loSt, hiSt + 1);
    RearrangedTrans(s, f, ptr[..], loSt, hiSt + 1);
  }

  /** mainQSort3: sorts ptr[loSt..hiSt], whose rotations agree in their first dSt bytes, unless the
      budget runs out. The stack never comes near its size. */
  method QSort3(ptr: array<nat>, block: seq<Byte>, quadrant: seq<nat>, nblock: nat, loSt: nat, hiSt: int, dSt: nat,
                budget: int, ghost b: seq<Byte>, ghost r: seq<nat>, ghost v: nat)
    returns (left: int)
    requires Sortable(b, r, block, quadrant, nblock) && nblock <= 900000 && dSt <= 15
             && loSt <= hiSt + 1 <= ptr.Length <= nblock
    requires HasKeys(ptr[..], r) && Agree(b, ptr[..], loSt, hiSt + 1, dSt)
    modifies ptr
    ensures HasKeys(ptr[..], r) && Rearranged(old(ptr[..]), ptr[..], loSt, hiSt + 1) && left <= budget
    ensures left >= 0 ==> KeysSorted(ptr[..], r, loSt, hiSt + 1)
    ensures Spent(budget, left, Cost(b), Compares(hiSt - loSt + 1))
    ensures left >= 0 && TiesShare(b, r, quadrant[..nblock]) ==>
            Charged(budget, left, nblock, ExtraIn(old(ptr[..]), r, Segment(loSt, hiSt), v))
  {
    ghost var s, share := ptr[..], TiesShare(b, r, quadrant[..nblock]);
    left := budget;
    ghost var all, extra := Compares(hiSt - loSt + 1), ExtraIn(s, r, Segment(loSt, hiSt), v);
    var stack: seq<Segment>, stackD: seq<nat> := [Segment(loSt, hiSt)], [dSt];
    SortingStarts(b, r, s, loSt, hiSt, dSt);
    PaidNothing(budget, Cost(b), stack[0]);
    PaidTiesStart(share, budget, nblock, s, r, stack[0], v);
    while stack != []
      invariant |stack| <= 58 && |stackD| == |stack| && left <= budget
      invariant Paid(budget, left, Cost(b), all, stack)
      invariant PaidTies(share, budget, left, nblock, extra, ptr[..], r, stack, v)
      invariant Sorting(b, r, s, ptr[..], stack, stackD, loSt, hiSt)
      decreases Work(stack, stackD)
    {
      assert |stack| < MAIN_QSORT_STACK_SIZE - 2;  // assertion 1001
      WorkPositive(b, ptr[..], stack, stackD, loSt, hiSt);
      var sp := |stack| - 1;
      if stack[sp].hi - stack[sp].lo < MAIN_QSORT_SMALL_THRESH || stackD[sp] > MAIN_QSORT_DEPTH_THRESH {
        left := SortTop(ptr, block, quadrant, nblock, stack, stackD, left, budget, all, extra, b, r, s, loSt, hiSt,
                        share, v);
        stack, stackD := stack[..sp], stackD[..sp];
        if left < 0 {
          PaidAll(budget, left, Cost(b), all, stack);
          return;
        }
      } else {
        BlockFits();
        StackStaysLow(stack, hiSt - loSt + 1);
        var pushed, pushedD := SplitTop(ptr, block, quadrant, nblock, stack, stackD, budget, left, all, extra, b, r, s,
                                        loSt, hiSt, share, v);
        stack, stackD := stack[..sp] + pushed, stackD[..sp] + pushedD;
      }
    }
    SortingEnds(b, r, s, ptr[..], loSt, hiSt);
    PaidAll(budget, left, Cost(b), all, []);
  }

  lemma BlockFits()
    ensures 900000 < Pow2(31)
  {
    Pow2Sum(20, 11);
    assert Pow2(10) == 1024;
    Pow2Sum(10, 10);
  }
}
