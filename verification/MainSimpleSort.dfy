/** mainSimpleSort of blocksort.c: a shell sort of rotations that agree in their first bytes,
    given up when the budget for comparisons runs out. */
module MainSimpleSort {
  import opened Basics
  import opened Arithmetic
  import opened Rotations
  import opened BurrowsWheeler
  import opened Rearranging
  import opened Partitioning
  import opened ShellSort
  import opened MainCompare

  const MAIN_QSORT_DEPTH_THRESH: nat := BZ_N_RADIX + BZ_N_QSORT
  const INCS: seq<nat> := [1, 4, 13, 40, 121, 364, 1093, 3280, 9841, 29524, 88573, 265720, 797161, 2391484]

  /** What every comparison relies on: the block and the cached orderings with their overshoot. */
  ghost predicate Sortable(b: seq<Byte>, r: seq<nat>, block: seq<Byte>, quadrant: seq<nat>, n: nat) {
    Overshot(block, quadrant, n) && b == block[..n] && AreRanks(b, r) && QuadrantsOk(b, r, quadrant[..n])
  }

  /** The rotations in f[lo..hi] are different ones that agree in their first d bytes, at least two. */
  ghost predicate Agree(b: seq<Byte>, f: seq<nat>, lo: int, hi: int, d: nat)
    requires |b| > 0 && 0 <= lo && hi <= |f|
  {
    d >= BZ_N_RADIX && forall x, y :: lo <= x < hi && lo <= y < hi ==> SameFor(b, f, d, x, y)
  }

  ghost predicate SameFor(b: seq<Byte>, f: seq<nat>, d: nat, x: nat, y: nat)
    requires |b| > 0 && x < |f| && y < |f|
  {
    Cmp(b, f[x], f[y], d) == 0 && (x != y ==> f[x] != f[y])
  }

  lemma AgreeDistinct(b: seq<Byte>, f: seq<nat>, lo: nat, hi: nat, d: nat)
    requires |b| > 0 && lo <= hi <= |f| && Agree(b, f, lo, hi, d)
    ensures Distinct(f[lo..hi])
  {
    forall i, j | 0 <= i < j < hi - lo ensures Differ(f[lo..hi], i, j) { assert SameFor(b, f, d, lo + i, lo + j); }
  }

  lemma StillAgree(b: seq<Byte>, f: seq<nat>, g: seq<nat>, lo: nat, hi: nat, d: nat)
    requires |b| > 0 && Rearranged(f, g, lo, hi) && Agree(b, f, lo, hi, d)
    ensures Agree(b, g, lo, hi, d)
  {
    AgreeDistinct(b, f, lo, hi, d);
    RearrangedDistinct(f, g, lo, hi);
    forall x, y | lo <= x < hi && lo <= y < hi ensures SameFor(b, g, d, x, y) {
      var i := RearrangedFrom(f, g, lo, hi, x);
      var j := RearrangedFrom(f, g, lo, hi, y);
      assert SameFor(b, f, d, i, j);
      if x < y { assert Differ(g[lo..hi], x - lo, y - lo); }
      if y < x { assert Differ(g[lo..hi], y - lo, x - lo); }
    }
  }

  /** Behind d common bytes the order is that of the rotations d places on. */
  lemma RankByDepth(b: seq<Byte>, r: seq<nat>, p: nat, q: nat, d: nat)
    requires AreRanks(b, r) && p < |b| && q < |b| && d <= |b| && Cmp(b, p, q, d) == 0
    ensures r[p] <= r[q] <==> r[Wrap(|b|, p + d)] <= r[Wrap(|b|, q + d)]
  {
    var n := |b|;
    var p', q' := Wrap(n, p + d), Wrap(n, q + d);
    CmpSplit(b, p, q, d, n);
    CmpBeyond(b, p, q, d + n);
    CmpMod(b, p', q + d, n);
    CmpMod(b, p', q', n);
    assert Ranked(b, r, p, q) && Ranked(b, r, p', q');
  }

  /** What mainGtU says about two rotations that agree in their first d bytes. */
  lemma GtUIsRight(b: seq<Byte>, r: seq<nat>, block: seq<Byte>, quadrant: seq<nat>, n: nat, p: nat, q: nat, d: nat)
    requires Sortable(b, r, block, quadrant, n) && p < n && q < n && d <= 15 && Cmp(b, p, q, d) == 0
    ensures var gt := Open(block, quadrant, n, p + d, q + d, 12, Compared(n)) > 0;
      (gt ==> r[p] >= r[q]) && (!gt ==> r[p] <= r[q])
  {
    var p', q' := Wrap(n, p + d), Wrap(n, q + d);
    RankByDepth(b, r, p, q, d);
    CmpAntisym(b, p, q, d);
    RankByDepth(b, r, q, p, d);
    VerdictIsRight(b, r, quadrant[..n], p', q', 12, Compared(n));
    VerdictDecides(b, r, quadrant[..n], p', q', 12, Compared(n));
  }

  // ---------- the budget ----------

  /** Some bytes of this length occur at two places of the block, read round its end. */
  ghost predicate Twice(b: seq<Byte>, len: nat) {
    |b| > 0 && exists p, q :: 0 <= p < |b| && 0 <= q < |b| && p != q && Cmp(b, p, q, len) == 0
  }

  lemma TwiceLess(b: seq<Byte>, len: nat, more: nat)
    requires len <= more && Twice(b, more)
    ensures Twice(b, len)
  {
    var p, q :| 0 <= p < |b| && 0 <= q < |b| && p != q && Cmp(b, p, q, more) == 0;
    CmpSplit(b, p, q, len, more - len);
  }

  /** No comparison of two rotations with two bytes in common takes more than k rounds: two and
      twelve bytes come first, and eight for every round. */
  ghost predicate Enough(b: seq<Byte>, k: nat) {
    k >= Rounds(|b|) || !Twice(b, 22 + 8 * k)
  }

  ghost function LeastFrom(b: seq<Byte>, k: nat): (r: nat)
    requires k <= Rounds(|b|)
    ensures k <= r <= Rounds(|b|) && Enough(b, r)
    decreases Rounds(|b|) - k, b, k
  {
    if Enough(b, k) then k else LeastFrom(b, k + 1)
  }

  /** The most that a comparison takes off the budget. */
  ghost function Cost(b: seq<Byte>): (r: nat)
    ensures r <= Rounds(|b|) && Enough(b, r)
  {
    LeastFrom(b, 0)
  }

  lemma {:induction false} LeastIsLeast(b: seq<Byte>, k: nat, j: nat)
    requires k <= j <= Rounds(|b|) && Enough(b, j)
    ensures LeastFrom(b, k) <= j
    decreases j - k
  {
    if !Enough(b, k) { LeastIsLeast(b, k + 1, j); }
  }

  /** If no bytes of some length occur twice, that bounds it. */
  lemma CostBound(b: seq<Byte>, len: nat)
    requires !Twice(b, len)
    ensures 8 * Cost(b) <= if len <= 15 then 0 else len - 15
  {
    var k: nat := if len <= 22 then 0 else (len - 15) / 8;
    if k <= Rounds(|b|) {
      if Twice(b, 22 + 8 * k) { TwiceLess(b, len, 22 + 8 * k); }
      LeastIsLeast(b, 0, k);
    }
  }

  /** In particular nothing is taken off when no 22 bytes occur twice. */
  lemma CostsNothing(b: seq<Byte>)
    ensures Cost(b) == 0 <==> Rounds(|b|) == 0 || !Twice(b, 22)
  {
    if !Twice(b, 22) { CostBound(b, 22); }
  }

  lemma AgreeFurther(b: seq<Byte>, p: nat, q: nat, d: nat, p1: nat, q1: nat, h: nat)
    requires p < |b| && q < |b| && d <= |b| && p1 == Wrap(|b|, p + d) && q1 == Wrap(|b|, q + d)
    requires Cmp(b, p, q, d) == 0 && Cmp(b, p1, q1, h) == 0
    ensures Cmp(b, p, q, d + h) == 0
  {
    CmpMod(b, p1, q1, h);
    CmpMod(b, p1, q + d, h);
    CmpSplit(b, p, q, d, h);
  }

  /** Rounds that leave a comparison open mean that bytes occur twice. */
  lemma OpenIsTwice(b: seq<Byte>, quadrant: seq<nat>, p: nat, q: nat, d: nat, p1: nat, q1: nat, k: nat)
    requires p < |b| && q < |b| && p != q && 2 <= d <= |b| && p1 == Wrap(|b|, p + d) && q1 == Wrap(|b|, q + d)
    requires Cmp(b, p, q, d) == 0 && |b| <= |quadrant| && Verdict(b, quadrant, p1, q1, 12, 12 + 8 * k) == 0
    ensures Twice(b, 14 + 8 * k)
  {
    VerdictOpen(b, quadrant, p1, q1, 12, 12 + 8 * k);
    AgreeFurther(b, p, q, d, p1, q1, 12 + 8 * k);
    assert Twice(b, d + (12 + 8 * k));
    TwiceLess(b, 14 + 8 * k, d + (12 + 8 * k));
  }

  lemma TwiceBounds(b: seq<Byte>, k: nat)
    requires k <= Rounds(|b|) && (k > 0 ==> Twice(b, 14 + 8 * k))
    ensures k <= Cost(b)
  {
    if k > Cost(b) { TwiceLess(b, 22 + 8 * Cost(b), 14 + 8 * k); }
  }

  /** Comparing two rotations takes no more. */
  lemma RoundsBound(b: seq<Byte>, r: seq<nat>, block: seq<Byte>, quadrant: seq<nat>, n: nat, p: nat, q: nat, d: nat,
                    k: int)
    requires Sortable(b, r, block, quadrant, n) && p < n && q < n && p != q && 2 <= d <= 15 && Cmp(b, p, q, d) == 0
    requires TakesRounds(block, quadrant, n, p + d, q + d, k)
    ensures 0 <= k <= Cost(b)
  {
    if k > 0 { OpenIsTwice(b, quadrant[..n], p, q, d, Wrap(n, p + d), Wrap(n, q + d), k); }
    TwiceBounds(b, k);
  }

  /** Comparing equal rotations takes all rounds, where they have equal entries in quadrant. */
  lemma TieTakesAll(b: seq<Byte>, r: seq<nat>, block: seq<Byte>, quadrant: seq<nat>, n: nat, p: nat, q: nat, d: nat,
                    k: int)
    requires Sortable(b, r, block, quadrant, n) && TiesShare(b, r, quadrant[..n])
    requires p < n && q < n && r[p] == r[q] && d <= 15 && Cmp(b, p, q, d) == 0
    requires TakesRounds(block, quadrant, n, p + d, q + d, k)
    ensures k == Rounds(n) && Open(block, quadrant, n, p + d, q + d, 12, Compared(n)) == 0
  {
    var p1, q1 := Wrap(n, p + d), Wrap(n, q + d);
    RankByDepth(b, r, p, q, d);
    CmpAntisym(b, p, q, d);
    RankByDepth(b, r, q, p, d);
    TiesAreTies(b, r, quadrant[..n], p1, q1, 12, 20 + 8 * k);
    TiesAreTies(b, r, quadrant[..n], p1, q1, 12, Compared(n));
  }

  // ---------- what equal rotations cost ----------

  /** At least c comparisons have taken all rounds. */
  ghost predicate Charged(budget: int, left: int, n: nat, c: int) { left <= budget - Rounds(n) * c }

  lemma ChargedMore(budget: int, left: int, less: int, n: nat, c: int, d: int, e: int)
    requires Charged(budget, left, n, c) && Charged(left, less, n, d) && e <= c + d
    ensures Charged(budget, less, n, e)
  {
    Distribute(c, d, Rounds(n));
    Monotone(e, c + d, Rounds(n));
  }

  lemma ChargedLess(budget: int, left: int, n: nat, c: int, e: int)
    requires Charged(budget, left, n, c) && e <= c
    ensures Charged(budget, left, n, e)
  {
    Monotone(e, c, Rounds(n));
  }

  /** The rotations in f[lo..hi] that have rank v. */
  ghost function OfRank(f: seq<nat>, r: seq<nat>, lo: nat, hi: nat, v: nat): set<nat>
    requires lo <= hi <= |f|
  {
    set p | p in f[lo..hi] && p < |r| && r[p] == v
  }

  /** One of them is sorted for nothing. */
  function Extra(w: set<nat>): nat { if |w| == 0 then 0 else |w| - 1 }

  lemma OfRankKept(f: seq<nat>, g: seq<nat>, r: seq<nat>, lo: nat, hi: nat, v: nat)
    requires Rearranged(f, g, lo, hi) && Distinct(f[lo..hi])
    ensures OfRank(g, r, lo, hi, v) == OfRank(f, r, lo, hi, v)
  {
    RearrangedDistinct(f, g, lo, hi);
  }

  lemma OfRankMore(f: seq<nat>, r: seq<nat>, lo: nat, i: nat, v: nat)
    requires lo <= i < |f| && Distinct(f[lo..i + 1]) && f[i] < |r|
    ensures var w := OfRank(f, r, lo, i, v);
      && OfRank(f, r, lo, i + 1, v) == (if r[f[i]] == v then w + {f[i]} else w) && f[i] !in w
  {
    assert f[lo..i + 1] == f[lo..i] + [f[i]];
    DistinctPrefix(f[lo..i + 1], i - lo);
    assert f[lo..i + 1][..i - lo] == f[lo..i];
  }

  lemma OfRankSmall(f: seq<nat>, r: seq<nat>, lo: nat, hi: nat, v: nat)
    requires lo <= hi <= |f| && hi <= lo + 1
    ensures Extra(OfRank(f, r, lo, hi, v)) == 0
  {
    var w := OfRank(f, r, lo, hi, v);
    if hi == lo {
      assert w == {};
    } else {
      assert f[lo..hi] == [f[lo]];
      assert w <= {f[lo]};
      SubsetSize(w, {f[lo]});
    }
  }

  /** The most comparisons that sorting m rotations takes: one pass up to four, else at most fourteen. */
  function Compares(m: int): (c: nat)
    ensures m < 2 ==> c == 0
  {
    if m < 2 then 0 else if m <= 4 then Square(m - 1) else 14 * Square(m - 1)
  }

  function Square(m: nat): nat { m * m }

  /** What is left of a budget after at most c comparisons that take at most so much each. */
  ghost predicate Spent(budget: int, left: int, cost: nat, c: int) {
    budget - cost * c <= left <= budget
  }

  lemma SpentMore(budget: int, left: int, less: int, cost: nat, c: int, d: int, e: int)
    requires Spent(budget, left, cost, c) && Spent(left, less, cost, d) && c + d <= e
    ensures Spent(budget, less, cost, e)
  {
    Distribute(c, d, cost);
    Monotone(c + d, e, cost);
  }

  lemma NothingSpent(budget: int, cost: nat, c: nat)
    ensures Spent(budget, budget, cost, c)
  {
    Monotone(0, c, cost);
  }

  lemma SpentAtMost(budget: int, left: int, cost: nat, c: int, e: int)
    requires Spent(budget, left, cost, c) && c <= e
    ensures Spent(budget, left, cost, e)
  {
    Monotone(c, e, cost);
  }

  lemma OneSpent(budget: int, left: int, cost: nat)
    requires 0 <= budget - left <= cost
    ensures Spent(budget, left, cost, 1)
  {}

  /** Where comparisons cost nothing the budget stays whole. */
  lemma NoneSpent(budget: int, left: int, cost: nat, c: int)
    requires Spent(budget, left, cost, c) && cost == 0
    ensures left == budget
  {}

  /** Sorting two stretches apart takes no more comparisons than sorting them together. */
  lemma ComparesTogether(x: nat, y: nat)
    ensures Compares(x) + Compares(y) <= Compares(x + y)
  {
    if x >= 1 && y >= 1 {
      SquareOfSum(x - 1, y - 1);
    }
  }

  lemma SquareOfSum(x: nat, y: nat)
    ensures Square(x) + Square(y) <= Square(x + y) <= Square(x + y + 1)
  {
    assert (x + y) * (x + y) == x * x + y * y + 2 * (x * y);
    assert (x + y + 1) * (x + y + 1) == (x + y) * (x + y) + 2 * (x + y) + 1;
  }

  lemma RowsInSquare(budget: int, left: int, cost: nat, k: nat, w: nat)
    requires k <= w && Spent(budget, left, cost, k * w)
    ensures Spent(budget, left, cost, Square(w))
  {
    Monotone(k, w, w);
    SpentAtMost(budget, left, cost, k * w, w * w);
  }

  /** All passes together. */
  function PassesFor(m: int): nat { if m < 2 then 0 else if m <= 4 then 1 else 14 }

  lemma PassesInCompares(budget: int, left: int, cost: nat, k: nat, m: int)
    requires m >= 2 && k <= PassesFor(m) && Spent(budget, left, cost, k * Square(m - 1))
    ensures Spent(budget, left, cost, Compares(m))
  {
    Monotone(k, PassesFor(m), Square(m - 1));
    SpentAtMost(budget, left, cost, k * Square(m - 1), Compares(m));
  }

  lemma OneRowMore(k: nat, w: nat)
    ensures k * w + w == (k + 1) * w
  {}

  /** In a sorted prefix there is a rotation equal to the one at i. */
  ghost predicate TieBefore(b: seq<Byte>, f: seq<nat>, r: seq<nat>, quadrant: seq<nat>, lo: nat, i: nat, j: nat)
    requires lo <= i < |f| && HasKeys(f, r) && j <= i
  {
    && TiesShare(b, r, quadrant) && KeysSorted(f, r, lo, i)
    && exists x :: lo <= x < j && Key(f, r, x) == Key(f, r, i)
  }

  /** The rotation that is not passed is the equal one, if there is one. */
  lemma TieIsMet(b: seq<Byte>, f: seq<nat>, r: seq<nat>, quadrant: seq<nat>, lo: nat, i: nat, j: nat)
    requires lo < j <= i < |f| && HasKeys(f, r) && TieBefore(b, f, r, quadrant, lo, i, j)
    ensures Key(f, r, j - 1) >= Key(f, r, i)
    ensures Key(f, r, j - 1) != Key(f, r, i) ==> TieBefore(b, f, r, quadrant, lo, i, j - 1)
  {
    var x :| lo <= x < j && Key(f, r, x) == Key(f, r, i);
    if x < j - 1 { assert Key(f, r, x) <= Key(f, r, j - 1); }
  }

  /** Compares two different rotations with d bytes in common. */
  method Compare(block: seq<Byte>, quadrant: seq<nat>, nblock: nat, p: nat, q: nat, d: nat, budget: int,
                 ghost b: seq<Byte>, ghost r: seq<nat>)
    returns (gt: bool, left: int)
    requires Sortable(b, r, block, quadrant, nblock) && p < nblock && q < nblock && p != q && 2 <= d <= 15
    requires Cmp(b, p, q, d) == 0
    ensures if gt then r[p] >= r[q] else r[p] <= r[q]
    ensures Spent(budget, left, Cost(b), 1)
    ensures TiesShare(b, r, quadrant[..nblock]) && r[p] == r[q] ==> !gt && Charged(budget, left, nblock, 1)
  {
    GtUIsRight(b, r, block, quadrant, nblock, p, q, d);
    gt, left := GtU(p + d, q + d, block, quadrant, nblock, budget);
    RoundsBound(b, r, block, quadrant, nblock, p, q, d, budget - left);
    OneSpent(budget, left, Cost(b));
    if TiesShare(b, r, quadrant[..nblock]) && r[p] == r[q] {
      TieTakesAll(b, r, block, quadrant, nblock, p, q, d, budget - left);
    }
  }

  /** One inner loop: the element at i sinks past all that are found greater. */
  method Sink(ptr: array<nat>, block: seq<Byte>, quadrant: seq<nat>, nblock: nat, lo: nat, i: nat, h: nat, d: nat,
              budget: int, ghost b: seq<Byte>, ghost r: seq<nat>)
    returns (left: int)
    requires Sortable(b, r, block, quadrant, nblock) && d <= 15 && 1 <= h && lo + h <= i < ptr.Length
    requires HasKeys(ptr[..], r) && Agree(b, ptr[..], lo, i + 1, d)
    modifies ptr
    ensures HasKeys(ptr[..], r) && Rearranged(old(ptr[..]), ptr[..], lo, i + 1) && left <= budget
    ensures h == 1 && KeysSorted(old(ptr[..]), r, lo, i) ==> KeysSorted(ptr[..], r, lo, i + 1)
    ensures Spent(budget, left, Cost(b), i - lo)
    ensures h == 1 && TieBefore(b, old(ptr[..]), r, quadrant[..nblock], lo, i, i) ==> Charged(budget, left, nblock, 1)
  {
    ghost var s := ptr[..];
    ghost var c := 0;
    NothingSpent(budget, Cost(b), 0);
    ghost var t := s;  // the array as it would be with v back in its hole
    var v := ptr[i];
    var j := i;
    left := budget;
    ghost var tie := h == 1 && TieBefore(b, s, r, quadrant[..nblock], lo, i, i);
    SinkStarts(s, r, lo, i, h);
    while true
      invariant lo + h <= j <= i && left <= budget && Spent(budget, left, Cost(b), c) && c <= i - j
      invariant Sinking(s, t, r, lo, i, j, h)
      invariant forall k :: 0 <= k < |t| && k != j ==> ptr[k] == t[k]
      invariant tie ==> TieBefore(b, s, r, quadrant[..nblock], lo, i, j)
      decreases j
    {
      assert SameFor(b, s, d, j - h, i);
      if tie { TieIsMet(b, s, r, quadrant[..nblock], lo, i, j); }
      ghost var before := left;
      var gt;
      gt, left := Compare(block, quadrant, nblock, ptr[j - h], v, d, left, b, r);
      SpentMore(budget, before, left, Cost(b), c, 1, c + 1);
      c := c + 1;
      if !gt { break; }
      SinkStep(s, t, r, lo, i, j, h);
      t := t[j := t[j - h]][j - h := t[j]];
      ptr[j] := ptr[j - h];
      j := j - h;
      if j < lo + h { break; }
    }
    SpentAtMost(budget, left, Cost(b), c, i - lo);
    ptr[j] := v;
    assert ptr[..] == t;
    if h == 1 && KeysSorted(s, r, lo, i) { SinkSorts(s, t, r, lo, i, j); }
  }

  lemma TieFound(f: seq<nat>, r: seq<nat>, lo: nat, i: nat, v: nat) returns (x: nat)
    requires lo <= i < |f| && HasKeys(f, r) && OfRank(f, r, lo, i, v) != {}
    ensures lo <= x < i && Key(f, r, x) == v
  {
    var p :| p in OfRank(f, r, lo, i, v);
    var k :| 0 <= k < i - lo && f[lo..i][k] == p;
    x := lo + k;
  }

  lemma ExtraMore(w: set<nat>, p: nat)
    requires p !in w
    ensures Extra(w + {p}) == if w == {} then 0 else Extra(w) + 1
  {}

  /** What inserting the element at i has cost the rotations of rank v. */
  lemma OneInserted(b: seq<Byte>, f: seq<nat>, g: seq<nat>, r: seq<nat>, quadrant: seq<nat>, n: nat, lo: nat, i: nat,
                    d: nat, v: nat, budget: int, before: int, left: int)
    requires |b| > 0 && HasKeys(f, r) && lo <= i < |f| && Rearranged(f, g, lo, i + 1) && Agree(b, f, lo, i + 1, d)
    requires TiesShare(b, r, quadrant) && KeysSorted(f, r, lo, i) && left <= before
    requires TieBefore(b, f, r, quadrant, lo, i, i) ==> Charged(before, left, n, 1)
    requires Charged(budget, before, n, Extra(OfRank(f, r, lo, i, v)))
    ensures Charged(budget, left, n, Extra(OfRank(g, r, lo, i + 1, v)))
  {
    AgreeDistinct(b, f, lo, i + 1, d);
    OfRankKept(f, g, r, lo, i + 1, v);
    OfRankMore(f, r, lo, i, v);
    var w := OfRank(f, r, lo, i, v);
    if r[f[i]] == v {
      ExtraMore(w, f[i]);
      if w != {} {
        var x := TieFound(f, r, lo, i, v);
        assert Key(f, r, x) == Key(f, r, i);
        ChargedMore(budget, before, left, n, Extra(w), 1, Extra(w) + 1);
      }
    }
  }

  /** One pass with stride h. The budget is looked at after every third element. */
  method SinkPass(ptr: array<nat>, block: seq<Byte>, quadrant: seq<nat>, nblock: nat, lo: nat, hi: nat, h: nat,
                  d: nat, budget: int, ghost b: seq<Byte>, ghost r: seq<nat>, ghost v: nat)
    returns (left: int, stop: bool)
    requires Sortable(b, r, block, quadrant, nblock) && d <= 15 && 1 <= h && lo + h <= hi < ptr.Length
    requires HasKeys(ptr[..], r) && Agree(b, ptr[..], lo, hi + 1, d)
    modifies ptr
    ensures HasKeys(ptr[..], r) && Rearranged(old(ptr[..]), ptr[..], lo, hi + 1) && Agree(b, ptr[..], lo, hi + 1, d)
    ensures left <= budget && (stop ==> left < 0)
    ensures h == 1 && !stop ==> KeysSorted(ptr[..], r, lo, hi + 1)
    ensures Spent(budget, left, Cost(b), Square(hi - lo))
    ensures h == 1 && !stop && TiesShare(b, r, quadrant[..nblock]) ==>
            Charged(budget, left, nblock, Extra(OfRank(ptr[..], r, lo, hi + 1, v)))
  {
    ghost var s := ptr[..];
    ghost var w, c := hi - lo, 0;
    ghost var share := h == 1 && TiesShare(b, r, quadrant[..nblock]);
    NothingSpent(budget, Cost(b), 0);
    var i := lo + h;
    left := budget;
    if h == 1 { OfRankSmall(s, r, lo, i, v); }
    while true
      invariant lo + h <= i <= hi + 1 && left <= budget && Spent(budget, left, Cost(b), c) && c == (i - lo - h) * w
      invariant HasKeys(ptr[..], r) && Rearranged(s, ptr[..], lo, hi + 1) && Agree(b, ptr[..], lo, hi + 1, d)
      invariant h == 1 ==> KeysSorted(ptr[..], r, lo, i)
      invariant share ==> Charged(budget, left, nblock, Extra(OfRank(ptr[..], r, lo, i, v)))
      decreases hi + 1 - i
    {
      ghost var start := i;
      for copy := 0 to 3
        invariant lo + h <= i <= hi + 1 && i == start + copy && left <= budget
        invariant Spent(budget, left, Cost(b), c) && c == (i - lo - h) * w
        invariant HasKeys(ptr[..], r) && Rearranged(s, ptr[..], lo, hi + 1) && Agree(b, ptr[..], lo, hi + 1, d)
        invariant h == 1 ==> KeysSorted(ptr[..], r, lo, i)
        invariant share ==> Charged(budget, left, nblock, Extra(OfRank(ptr[..], r, lo, i, v)))
      {
        if i > hi {
          RowsInSquare(budget, left, Cost(b), i - lo - h, w);
          return left, false;
        }
        ghost var t, before := ptr[..], left;
        left := Sink(ptr, block, quadrant, nblock, lo, i, h, d, left, b, r);
        RearrangedWiden(t, ptr[..], lo, i + 1, lo, hi + 1);
        RearrangedTrans(s, t, ptr[..], lo, hi + 1);
        StillAgree(b, t, ptr[..], lo, hi + 1, d);
        SpentMore(budget, before, left, Cost(b), c, i - lo, c + w);
        OneRowMore(i - lo - h, w);
        if share {
          OneInserted(b, t, ptr[..], r, quadrant[..nblock], nblock, lo, i, d, v, budget, before, left);
        }
        c := c + w;
        i := i + 1;
      }
      if left < 0 {
        RowsInSquare(budget, left, Cost(b), i - lo - h, w);
        return left, true;
      }
    }
  }

  /** mainSimpleSort. Where equal rotations have equal entries in quadrant, sorting those of one rank
      has taken all rounds for every one but the first. */
  method SimpleSort(ptr: array<nat>, block: seq<Byte>, quadrant: seq<nat>, nblock: nat, lo: nat, hi: int, d: nat,
                    budget: int, ghost b: seq<Byte>, ghost r: seq<nat>, ghost v: nat)
    returns (left: int)
    requires Sortable(b, r, block, quadrant, nblock) && nblock <= 900000 && d <= 15
             && lo <= hi + 1 <= ptr.Length <= nblock
    requires HasKeys(ptr[..], r) && Agree(b, ptr[..], lo, hi + 1, d)
    modifies ptr
    ensures HasKeys(ptr[..], r) && Rearranged(old(ptr[..]), ptr[..], lo, hi + 1) && left <= budget
    ensures left >= 0 ==> KeysSorted(ptr[..], r, lo, hi + 1)
    ensures Spent(budget, left, Cost(b), Compares(hi - lo + 1))
    ensures left >= 0 && TiesShare(b, r, quadrant[..nblock]) ==>
            Charged(budget, left, nblock, Extra(OfRank(ptr[..], r, lo, hi + 1, v)))
  {
    left := budget;
    NothingSpent(budget, Cost(b), 0);
    var bigN := hi - lo + 1;
    if bigN < 2 {
      OfRankSmall(ptr[..], r, lo, hi + 1, v);
      return;
    }
    var hp := 0;
    while INCS[hp] < bigN
      invariant 0 <= hp < 14 && forall k :: 0 <= k < hp ==> INCS[k] < bigN
      decreases 14 - hp
    {
      hp := hp + 1;
    }
    hp := hp - 1;
    assert INCS[1] == 4;
    ghost var s, passes, w := ptr[..], 0, Square(bigN - 1);
    while hp >= 0
      invariant Spent(budget, left, Cost(b), passes * w) && passes + (hp + 1) <= PassesFor(bigN)
      invariant -1 <= hp < 14 && left <= budget && forall k :: 0 <= k <= hp ==> INCS[k] < bigN
      invariant HasKeys(ptr[..], r) && Rearranged(s, ptr[..], lo, hi + 1) && Agree(b, ptr[..], lo, hi + 1, d)
      invariant hp < 0 ==> KeysSorted(ptr[..], r, lo, hi + 1)
      invariant hp < 0 && TiesShare(b, r, quadrant[..nblock]) ==>
                Charged(budget, left, nblock, Extra(OfRank(ptr[..], r, lo, hi + 1, v)))
    {
      ghost var t, before := ptr[..], left;
      var stop;
      left, stop := SinkPass(ptr, block, quadrant, nblock, lo, hi, INCS[hp], d, left, b, r, v);
      OneRowMore(passes, w);
      SpentMore(budget, before, left, Cost(b), passes * w, w, (passes + 1) * w);
      passes := passes + 1;
      RearrangedTrans(s, t, ptr[..], lo, hi + 1);
      if stop {
        PassesInCompares(budget, left, Cost(b), passes, bigN);
        return;
      }
      hp := hp - 1;
    }
    PassesInCompares(budget, left, Cost(b), passes, bigN);
  }
}
