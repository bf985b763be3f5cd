/** mainGtU of blocksort.c: comparing two rotations with the help of cached orderings. */
module MainCompare {
  import opened Basics
  import opened Rotations
  import opened BurrowsWheeler

  const BZ_N_RADIX: nat := 2
  const BZ_N_QSORT: nat := 12
  const BZ_N_SHELL: nat := 18
  const BZ_N_OVERSHOOT: nat := BZ_N_RADIX + BZ_N_QSORT + BZ_N_SHELL + 2

  // ---------- ranks ----------

  /** The rotations smaller than rotation p. */
  ghost function Smaller(b: seq<Byte>, p: nat): set<nat>
    requires |b| > 0
  {
    set q | q in Range(|b|) && Cmp(b, q, p, |b|) < 0
  }

  ghost function Ranks(b: seq<Byte>): (r: seq<nat>)
    requires |b| > 0
  {
    seq(|b|, p requires 0 <= p < |b| => |Smaller(b, p)|)
  }

  /** r numbers the rotations in their order, equal ones alike. */
  ghost predicate AreRanks(b: seq<Byte>, r: seq<nat>) {
    |r| == |b| > 0 && forall p, q :: 0 <= p < |b| && 0 <= q < |b| ==> Ranked(b, r, p, q)
  }

  ghost predicate Ranked(b: seq<Byte>, r: seq<nat>, p: nat, q: nat)
    requires |r| == |b| > 0 && p < |b| && q < |b|
  {
    r[p] <= r[q] <==> Cmp(b, p, q, |b|) <= 0
  }

  lemma RanksExist(b: seq<Byte>)
    requires |b| > 0
    ensures AreRanks(b, Ranks(b))
  {
    forall p, q | 0 <= p < |b| && 0 <= q < |b| ensures Ranked(b, Ranks(b), p, q) {
      CmpAntisym(b, p, q, |b|);
      if Cmp(b, p, q, |b|) <= 0 {
        SmallerGrows(b, p, q);
      } else {
        SmallerGrows(b, q, p);
        CmpRefl(b, q, |b|);
        assert q in Smaller(b, p) && q !in Smaller(b, q);
        SubsetSize(Smaller(b, q), Smaller(b, p));
      }
    }
  }

  lemma SmallerGrows(b: seq<Byte>, p: nat, q: nat)
    requires |b| > 0 && Cmp(b, p, q, |b|) <= 0
    ensures Smaller(b, p) <= Smaller(b, q) && |Smaller(b, p)| <= |Smaller(b, q)|
  {
    forall x | x in Smaller(b, p) ensures x in Smaller(b, q) { CmpTrans(b, x, p, q, |b|); }
    SubsetSize(Smaller(b, p), Smaller(b, q));
  }

  lemma RankByByte(b: seq<Byte>, r: seq<nat>, p: nat, q: nat)
    requires AreRanks(b, r) && p < |b| && q < |b| && b[p] < b[q]
    ensures r[p] < r[q]
  {
    assert Ranked(b, r, q, p);
  }

  /** Behind a common first byte the order is that of the next rotations. */
  lemma RankByNext(b: seq<Byte>, r: seq<nat>, p: nat, q: nat)
    requires AreRanks(b, r) && p < |b| && q < |b| && b[p] == b[q]
    ensures r[p] <= r[q] <==> r[Next(b, p)] <= r[Next(b, q)]
  {
    NextSorted(b, p, q);
    assert Ranked(b, r, p, q) && Ranked(b, r, Next(b, p), Next(b, q));
  }

  // ---------- cached orderings ----------

  /** Among rotations with the same first byte, a smaller entry in quadrant means a rotation
      that is not greater. */
  ghost predicate QuadrantsOk(b: seq<Byte>, r: seq<nat>, quadrant: seq<nat>) {
    |b| <= |r| && |b| <= |quadrant| && forall p, q :: 0 <= p < |b| && 0 <= q < |b| ==> Cached(b, r, quadrant, p, q)
  }

  ghost predicate Cached(b: seq<Byte>, r: seq<nat>, quadrant: seq<nat>, p: nat, q: nat)
    requires p < |b| && q < |b| && |b| <= |r| && |b| <= |quadrant|
  {
    b[p] == b[q] && quadrant[p] < quadrant[q] ==> r[p] <= r[q]
  }

  /** What mainGtU makes of h places of two rotations; the first skip go by bytes alone,
      the others by bytes and quadrants. */
  function Verdict(b: seq<Byte>, quadrant: seq<nat>, p: nat, q: nat, skip: nat, h: nat): int
    requires p < |b| && q < |b| && |b| <= |quadrant|
    decreases h, b, quadrant, p, q, skip
  {
    if h == 0 then 0
    else if b[p] != b[q] then b[p] - b[q]
    else if skip == 0 && quadrant[p] != quadrant[q] then quadrant[p] - quadrant[q]
    else Verdict(b, quadrant, Next(b, p), Next(b, q), if skip == 0 then 0 else skip - 1, h - 1)
  }

  /** The verdict never contradicts the order. */
  lemma {:induction false} VerdictIsRight(b: seq<Byte>, r: seq<nat>, quadrant: seq<nat>, p: nat, q: nat, skip: nat,
                                          h: nat)
    requires AreRanks(b, r) && QuadrantsOk(b, r, quadrant) && p < |b| && q < |b|
    ensures Verdict(b, quadrant, p, q, skip, h) > 0 ==> r[p] >= r[q]
    ensures Verdict(b, quadrant, p, q, skip, h) < 0 ==> r[p] <= r[q]
    decreases h
  {
    if h > 0 {
      if b[p] < b[q] {
        RankByByte(b, r, p, q);
      } else if b[q] < b[p] {
        RankByByte(b, r, q, p);
      } else if skip == 0 && quadrant[p] != quadrant[q] {
        assert Cached(b, r, quadrant, p, q) && Cached(b, r, quadrant, q, p);
      } else {
        VerdictIsRight(b, r, quadrant, Next(b, p), Next(b, q), if skip == 0 then 0 else skip - 1, h - 1);
        RankByNext(b, r, p, q);
        RankByNext(b, r, q, p);
      }
    }
  }

  /** No verdict after h places: they hold the same bytes. */
  lemma {:induction false} VerdictOpen(b: seq<Byte>, quadrant: seq<nat>, p: nat, q: nat, skip: nat, h: nat)
    requires p < |b| && q < |b| <= |quadrant| && Verdict(b, quadrant, p, q, skip, h) == 0
    ensures Cmp(b, p, q, h) == 0
    decreases h
  {
    if h > 0 {
      VerdictOpen(b, quadrant, Next(b, p), Next(b, q), if skip == 0 then 0 else skip - 1, h - 1);
      CmpMod(b, 0, q + 1, h - 1);
      CmpMod(b, Next(b, p), 0, h - 1);
    }
  }

  /** Once every place has been compared, rotations that differ are told apart, and rightly. */
  lemma VerdictDecides(b: seq<Byte>, r: seq<nat>, quadrant: seq<nat>, p: nat, q: nat, skip: nat, h: nat)
    requires AreRanks(b, r) && QuadrantsOk(b, r, quadrant) && p < |b| <= h && q < |b|
    ensures r[p] != r[q] ==> (Verdict(b, quadrant, p, q, skip, h) > 0 <==> r[p] > r[q])
  {
    VerdictIsRight(b, r, quadrant, p, q, skip, h);
    if Verdict(b, quadrant, p, q, skip, h) == 0 {
      VerdictOpen(b, quadrant, p, q, skip, h);
      CmpBeyond(b, p, q, h);
      CmpAntisym(b, p, q, |b|);
      assert Ranked(b, r, p, q) && Ranked(b, r, q, p);
    }
  }

  /** Equal rotations have equal entries. */
  ghost predicate TieShared(b: seq<Byte>, r: seq<nat>, quadrant: seq<nat>, p: nat, q: nat)
    requires p < |b| && q < |b| && |b| <= |quadrant| && |b| <= |r|
  {
    r[p] == r[q] ==> quadrant[p] == quadrant[q]
  }

  ghost predicate TiesShare(b: seq<Byte>, r: seq<nat>, quadrant: seq<nat>) {
    |b| <= |quadrant| && |b| <= |r| && forall p, q :: 0 <= p < |b| && 0 <= q < |b| ==> TieShared(b, r, quadrant, p, q)
  }

  lemma EqualNext(b: seq<Byte>, r: seq<nat>, p: nat, q: nat)
    requires AreRanks(b, r) && p < |b| && q < |b| && r[p] == r[q]
    ensures b[p] == b[q] && r[Next(b, p)] == r[Next(b, q)]
  {
    if b[p] < b[q] { RankByByte(b, r, p, q); }
    if b[q] < b[p] { RankByByte(b, r, q, p); }
    RankByNext(b, r, p, q);
    RankByNext(b, r, q, p);
  }

  /** Equal rotations with equal entries are not told apart. */
  lemma {:induction false} TiesAreTies(b: seq<Byte>, r: seq<nat>, quadrant: seq<nat>, p: nat, q: nat, skip: nat, h: nat)
    requires AreRanks(b, r) && TiesShare(b, r, quadrant) && p < |b| && q < |b| && r[p] == r[q]
    ensures Verdict(b, quadrant, p, q, skip, h) == 0
    decreases h
  {
    if h > 0 {
      EqualNext(b, r, p, q);
      assert TieShared(b, r, quadrant, p, q);
      TiesAreTies(b, r, quadrant, Next(b, p), Next(b, q), if skip == 0 then 0 else skip - 1, h - 1);
    }
  }

  function Wrap(n: nat, i: nat): (r: nat)
    requires i < 2 * n
    ensures r < n
  {
    if i < n then i else i - n
  }

  /** The position g places after p. */
  function Far(b: seq<Byte>, p: nat, g: nat): (r: nat)
    requires p < |b|
    ensures r < |b|
    decreases g, b, p
  {
    if g == 0 then p else Next(b, Far(b, p, g - 1))
  }

  lemma {:induction false} FarTwice(b: seq<Byte>, p: nat, g: nat, h: nat)
    requires p < |b|
    ensures Far(b, Far(b, p, g), h) == Far(b, p, g + h)
    decreases h
  {
    if h > 0 { FarTwice(b, p, g, h - 1); }
  }

  /** The first g places decide; if they do not, the next h do. */
  lemma {:induction false} VerdictSplit(b: seq<Byte>, quadrant: seq<nat>, p: nat, q: nat, skip: nat, g: nat, h: nat)
    requires p < |b| && q < |b| <= |quadrant| && skip <= g
    ensures var v := Verdict(b, quadrant, p, q, skip, g);
      Verdict(b, quadrant, p, q, skip, g + h)
      == if v != 0 then v else Verdict(b, quadrant, Far(b, p, g), Far(b, q, g), 0, h)
    decreases g
  {
    if g > 0 && b[p] == b[q] && !(skip == 0 && quadrant[p] != quadrant[q]) {
      VerdictSplit(b, quadrant, Next(b, p), Next(b, q), if skip == 0 then 0 else skip - 1, g - 1, h);
      FarTwice(b, p, 1, g - 1);
      FarTwice(b, q, 1, g - 1);
      assert Far(b, p, 1) == Next(b, Far(b, p, 0)) && Far(b, q, 1) == Next(b, Far(b, q, 0));
    }
  }

  // ---------- mainGtU ----------

  /** The first cells of block and quadrant are repeated behind the last ones. */
  ghost predicate Overshot(block: seq<Byte>, quadrant: seq<nat>, n: nat) {
    && BZ_N_OVERSHOOT < n && |block| == |quadrant| == n + BZ_N_OVERSHOOT
    && forall i :: 0 <= i < BZ_N_OVERSHOOT ==> block[n + i] == block[i] && quadrant[n + i] == quadrant[i]
  }

  /** The rounds of the loop of mainGtU, each of which takes one unit off the budget. */
  function Rounds(n: nat): nat { n / 8 + 2 }

  /** The number of places mainGtU looks at. */
  function Compared(n: nat): nat { 12 + 8 * Rounds(n) }

  lemma OneOn(block: seq<Byte>, quadrant: seq<nat>, n: nat, i: nat)
    requires Overshot(block, quadrant, n) && i < n + BZ_N_OVERSHOOT
    ensures block[i] == block[..n][Wrap(n, i)] && quadrant[i] == quadrant[..n][Wrap(n, i)]
    ensures i + 1 < 2 * n && Wrap(n, i + 1) == Next(block[..n], Wrap(n, i))
  {}

  /** What is still to be decided from two places on. */
  ghost function Open(block: seq<Byte>, quadrant: seq<nat>, n: nat, i1: nat, i2: nat, skip: nat, h: nat): int
    requires Overshot(block, quadrant, n) && i1 < 2 * n && i2 < 2 * n
  {
    Verdict(block[..n], quadrant[..n], Wrap(n, i1), Wrap(n, i2), skip, h)
  }

  /** The rounds left before and after one with counter k. */
  lemma RoundsLeft(k: nat)
    ensures k >= 8 ==> (k - 8) / 8 + 1 == k / 8
    ensures k < 8 ==> k / 8 == 0
  {}

  /** i and j are g places apart. */
  ghost predicate OnBy(block: seq<Byte>, n: nat, i: nat, j: nat, g: nat) {
    0 < n <= |block| && i < 2 * n && j < 2 * n && Wrap(n, j) == Far(block[..n], Wrap(n, i), g)
  }

  lemma OnByOne(block: seq<Byte>, quadrant: seq<nat>, n: nat, i: nat, j: nat, g: nat, next: nat)
    requires Overshot(block, quadrant, n) && OnBy(block, n, i, j, g) && j < n + BZ_N_OVERSHOOT && next == g + 1
    ensures OnBy(block, n, i, j + 1, next)
  {
    OneOn(block, quadrant, n, j);
  }

  /** The first twelve places, by bytes. */
  method TwelveBytes(i1: nat, i2: nat, block: seq<Byte>, ghost quadrant: seq<nat>, nblock: nat)
    returns (stop: bool, gt: bool, j1: nat, j2: nat)
    requires Overshot(block, quadrant, nblock) && i1 < nblock + 15 && i2 < nblock + 15
    ensures var v := Open(block, quadrant, nblock, i1, i2, 12, 12);
      if stop then v != 0 && gt == (v > 0) else v == 0 && j1 == i1 + 12 && j2 == i2 + 12
    ensures !stop ==> OnBy(block, nblock, i1, j1, 12) && OnBy(block, nblock, i2, j2, 12)
  {
    j1, j2 := i1, i2;
    for c := 0 to 12
      invariant j1 == i1 + c && j2 == i2 + c && OnBy(block, nblock, i1, j1, c) && OnBy(block, nblock, i2, j2, c)
      invariant Open(block, quadrant, nblock, i1, i2, 12, 12) == Open(block, quadrant, nblock, j1, j2, 12 - c, 12 - c)
    {
      OneOn(block, quadrant, nblock, j1);
      OneOn(block, quadrant, nblock, j2);
      var c1, c2 := block[j1], block[j2];
      if c1 != c2 { return true, c1 > c2, j1, j2; }
      OnByOne(block, quadrant, nblock, i1, j1, c, c + 1);
      OnByOne(block, quadrant, nblock, i2, j2, c, c + 1);
      j1, j2 := j1 + 1, j2 + 1;
    }
    stop, gt := false, false;
  }

  /** The unrolled body of the loop: eight places by bytes and quadrants. */
  method EightMore(i1: nat, i2: nat, block: seq<Byte>, quadrant: seq<nat>, nblock: nat)
    returns (stop: bool, gt: bool, j1: nat, j2: nat)
    requires Overshot(block, quadrant, nblock) && i1 < nblock + 27 && i2 < nblock + 27
    ensures var v := Open(block, quadrant, nblock, i1, i2, 0, 8);
      if stop then v != 0 && gt == (v > 0) else v == 0 && j1 == i1 + 8 && j2 == i2 + 8
    ensures !stop ==> OnBy(block, nblock, i1, j1, 8) && OnBy(block, nblock, i2, j2, 8)
  {
    j1, j2 := i1, i2;
    for c := 0 to 8
      invariant j1 == i1 + c && j2 == i2 + c && OnBy(block, nblock, i1, j1, c) && OnBy(block, nblock, i2, j2, c)
      invariant Open(block, quadrant, nblock, i1, i2, 0, 8) == Open(block, quadrant, nblock, j1, j2, 0, 8 - c)
    {
      OneOn(block, quadrant, nblock, j1);
      OneOn(block, quadrant, nblock, j2);
      var c1, c2 := block[j1], block[j2];
      if c1 != c2 { return true, c1 > c2, j1, j2; }
      var s1, s2 := quadrant[j1], quadrant[j2];
      if s1 != s2 { return true, s1 > s2, j1, j2; }
      OnByOne(block, quadrant, nblock, i1, j1, c, c + 1);
      OnByOne(block, quadrant, nblock, i2, j2, c, c + 1);
      j1, j2 := j1 + 1, j2 + 1;
    }
    stop, gt := false, false;
  }

  /** k rounds leave the comparison open, and one more would not. */
  ghost predicate TakesRounds(block: seq<Byte>, quadrant: seq<nat>, n: nat, i1: nat, i2: nat, k: int)
    requires Overshot(block, quadrant, n) && i1 < 2 * n && i2 < 2 * n
  {
    && 0 <= k <= Rounds(n)
    && (k > 0 ==> Open(block, quadrant, n, i1, i2, 12, 12 + 8 * k) == 0)
    && (k < Rounds(n) ==> Open(block, quadrant, n, i1, i2, 12, 20 + 8 * k) != 0)
  }

  /** After k rounds that left everything open, the next eight places decide or leave it open. */
  lemma RoundMore(block: seq<Byte>, quadrant: seq<nat>, n: nat, i1: nat, i2: nat, j1: nat, j2: nat, k: nat)
    requires Overshot(block, quadrant, n) && OnBy(block, n, i1, j1, 12 + 8 * k) && OnBy(block, n, i2, j2, 12 + 8 * k)
    requires Open(block, quadrant, n, i1, i2, 12, 12 + 8 * k) == 0
    ensures Open(block, quadrant, n, i1, i2, 12, 20 + 8 * k) == Open(block, quadrant, n, j1, j2, 0, 8)
  {
    VerdictSplit(block[..n], quadrant[..n], Wrap(n, i1), Wrap(n, i2), 12, 12 + 8 * k, 8);
  }

  lemma OnByMore(block: seq<Byte>, n: nat, i: nat, j: nat, g: nat, m: nat, h: nat, all: nat)
    requires OnBy(block, n, i, j, g) && OnBy(block, n, j, m, h) && all == g + h
    ensures OnBy(block, n, i, m, all) && (m >= n ==> OnBy(block, n, i, m - n, all))
  {
    FarTwice(block[..n], Wrap(n, i), g, h);
  }

  /** The loop has its counter at k and has taken so many rounds. */
  ghost predicate Pending(block: seq<Byte>, quadrant: seq<nat>, n: nat, i1: nat, i2: nat, j1: nat, j2: nat, k: int,
                          taken: nat) {
    && Overshot(block, quadrant, n) && i1 < 2 * n && i2 < 2 * n && j1 < n + 27 && j2 < n + 27 && 0 <= k
    && taken + k / 8 + 1 == Rounds(n)
    && OnBy(block, n, i1, j1, 12 + 8 * taken) && OnBy(block, n, i2, j2, 12 + 8 * taken)
    && Open(block, quadrant, n, i1, i2, 12, 12 + 8 * taken) == 0
  }

  /** One more round leaves the comparison open; positions beyond the block go back by its length. */
  lemma PendingMore(block: seq<Byte>, quadrant: seq<nat>, n: nat, i1: nat, i2: nat, j1: nat, j2: nat, k: int,
                    taken: nat, m1: nat, m2: nat, w1: nat, w2: nat)
    requires Pending(block, quadrant, n, i1, i2, j1, j2, k, taken) && m1 == j1 + 8 && m2 == j2 + 8
    requires OnBy(block, n, j1, m1, 8) && OnBy(block, n, j2, m2, 8) && Open(block, quadrant, n, j1, j2, 0, 8) == 0
    requires w1 == (if m1 >= n then m1 - n else m1) && w2 == (if m2 >= n then m2 - n else m2)
    ensures k >= 8 ==> Pending(block, quadrant, n, i1, i2, w1, w2, k - 8, taken + 1)
    ensures k < 8 ==> taken + 1 == Rounds(n) && Open(block, quadrant, n, i1, i2, 12, Compared(n)) == 0
  {
    RoundsLeft(k);
    RoundMore(block, quadrant, n, i1, i2, j1, j2, taken);
    OnByMore(block, n, i1, j1, 12 + 8 * taken, m1, 8, 20 + 8 * taken);
    OnByMore(block, n, i2, j2, 12 + 8 * taken, m2, 8, 20 + 8 * taken);
    assert 12 + 8 * (taken + 1) == 20 + 8 * taken;
  }

  /** A verdict on the first places is the verdict on all. */
  lemma Decided(block: seq<Byte>, quadrant: seq<nat>, n: nat, i1: nat, i2: nat, g: nat, all: nat)
    requires Overshot(block, quadrant, n) && i1 < 2 * n && i2 < 2 * n && 12 <= g <= all
    requires Open(block, quadrant, n, i1, i2, 12, g) != 0
    ensures Open(block, quadrant, n, i1, i2, 12, all) == Open(block, quadrant, n, i1, i2, 12, g)
  {
    VerdictSplit(block[..n], quadrant[..n], Wrap(n, i1), Wrap(n, i2), 12, g, all - g);
  }

  /** Whether the rotation at i1 is found greater than the one at i2, and the budget left: one unit
      goes for every round of eight places that leaves the comparison open. */
  method GtU(i1: nat, i2: nat, block: seq<Byte>, quadrant: seq<nat>, nblock: nat, budget: int)
    returns (gt: bool, left: int)
    requires Overshot(block, quadrant, nblock) && i1 < nblock + 15 && i2 < nblock + 15
    ensures gt == (Open(block, quadrant, nblock, i1, i2, 12, Compared(nblock)) > 0)
    ensures TakesRounds(block, quadrant, nblock, i1, i2, budget - left)
  {
    left := budget;
    var stop: bool;
    var j1: nat, j2: nat;
    stop, gt, j1, j2 := TwelveBytes(i1, i2, block, quadrant, nblock);
    if stop {
      Decided(block, quadrant, nblock, i1, i2, 12, 20);
      Decided(block, quadrant, nblock, i1, i2, 12, Compared(nblock));
      return;
    }
    var k: int := nblock + 8;
    while true
      invariant left <= budget && Pending(block, quadrant, nblock, i1, i2, j1, j2, k, budget - left)
      decreases k
    {
      ghost var p1, p2, taken := j1, j2, budget - left;
      RoundMore(block, quadrant, nblock, i1, i2, j1, j2, taken);
      stop, gt, j1, j2 := EightMore(j1, j2, block, quadrant, nblock);
      if stop {
        Decided(block, quadrant, nblock, i1, i2, 20 + 8 * taken, Compared(nblock));
        return;
      }
      ghost var m1, m2 := j1, j2;
      if j1 >= nblock { j1 := j1 - nblock; }
      if j2 >= nblock { j2 := j2 - nblock; }
      PendingMore(block, quadrant, nblock, i1, i2, p1, p2, k, taken, m1, m2, j1, j2);
      k := k - 8;
      left := left - 1;
      if k < 0 { break; }
    }
    gt := false;
  }
}
