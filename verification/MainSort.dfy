/** mainSort of blocksort.c: sorts the rotations of a block big bucket by big bucket, the least
    full first, and uses every finished one to finish others. */
module MainSort {
  import opened Basics
  import opened Rotations
  import opened Bits
  import opened BurrowsWheeler
  import opened Rearranging
  import opened Partitioning
  import opened MainCompare
  import opened MainSimpleSort
  import opened MainQSort
  import opened MainRadix
  import opened MainScan
  import opened MainSweep
  import opened MainSweepEnd

  // ---------- the bucket table and its flags ----------

  const SETMASK: nat := 2097152

  predicate IsSet(x: nat) { x / SETMASK % 2 == 1 }

  /** x & CLEARMASK. */
  function Cleared(x: nat): (y: nat)
    ensures y <= x
  {
    if IsSet(x) then x - SETMASK else x
  }

  /** x | SETMASK. */
  function Marked(x: nat): nat { if IsSet(x) then x else x + SETMASK }

  /** ftab holds the starts of the small buckets, marked for those that are sorted. */
  ghost predicate FtabIs(ftab: seq<nat>, keys: seq<nat>, flags: seq<bool>) {
    |ftab| == |flags| == PAIRS + 1 && forall v :: 0 <= v <= PAIRS ==> EntryIs(ftab, keys, flags, v)
  }

  ghost predicate EntryIs(ftab: seq<nat>, keys: seq<nat>, flags: seq<bool>, v: nat)
    requires v < |ftab| == |flags|
  {
    IsSet(ftab[v]) == flags[v] && Cleared(ftab[v]) == Start(keys, v)
  }

  lemma EntryMarked(x: nat, y: nat)
    requires Cleared(x) == y < SETMASK
    ensures IsSet(Marked(x)) && Cleared(Marked(x)) == y
  {}

  /** The sorted small buckets are exactly the marked ones, or more. */
  ghost predicate FlagsRight(r: seq<nat>, keys: seq<nat>, f: seq<nat>, flags: seq<bool>) {
    |flags| == PAIRS + 1 && forall v :: 0 <= v < PAIRS && flags[v] ==> SmallDone(r, keys, f, v)
  }

  /** Small bucket v is in order. */
  ghost predicate SmallDone(r: seq<nat>, keys: seq<nat>, f: seq<nat>, v: nat) {
    Start(keys, v + 1) <= |f| && InRankOrder(r, f, Start(keys, v), Start(keys, v + 1))
  }

  /** After some big buckets: the small buckets of those, at either place, are done. */
  ghost predicate FlagsOf(flags: seq<bool>, done: seq<bool>) {
    |flags| == PAIRS + 1 && |done| == 256 && forall v :: 0 <= v < PAIRS ==> FlagIs(flags, done, v)
  }

  ghost predicate FlagIs(flags: seq<bool>, done: seq<bool>, v: nat)
    requires v < PAIRS < |flags| && |done| == 256
  {
    flags[v] == (done[v / 256] || done[v % 256])
  }

  // ---------- step 1 ----------

  /** Rotations with the same first two bytes agree for two places. */
  lemma PairsAgree(b: seq<Byte>, f: seq<nat>, v: nat, lo: nat, hi: nat)
    requires |b| > 0 && InBuckets(PairKeys(b), f) && lo == Start(PairKeys(b), v) && hi == Start(PairKeys(b), v + 1)
             && hi <= |f|
    ensures Agree(b, f, lo, hi, 2)
  {
    forall x, y | lo <= x < hi && lo <= y < hi ensures SameFor(b, f, 2, x, y) {
      BucketIff(PairKeys(b), f, x, v);
      BucketIff(PairKeys(b), f, y, v);
      TwoAlike(b, f[x], f[y]);
      if x < y { assert Differ(f, x, y); }
      if y < x { assert Differ(f, y, x); }
    }
  }

  lemma TwoAlike(b: seq<Byte>, p: nat, q: nat)
    requires |b| > 0 && p < |b| && q < |b| && Pair(b, p) == Pair(b, q)
    ensures Cmp(b, p, q, 2) == 0
  {
    assert b[p] == b[q] && b[Next(b, p)] == b[Next(b, q)];
    assert At(b, p + 1) == b[Next(b, p)] && At(b, q + 1) == b[Next(b, q)];
    assert Cmp(b, p + 2, q + 2, 0) == 0;
    assert Cmp(b, p + 1, q + 1, 1) == 0;
  }

  /** Rearranging a small bucket keeps all rotations in their buckets. */
  lemma StillInBuckets(keys: seq<nat>, f: seq<nat>, g: seq<nat>, v: nat, lo: nat, hi: nat)
    requires InBuckets(keys, f) && lo == Start(keys, v) && hi == Start(keys, v + 1) && Rearranged(f, g, lo, hi)
    ensures InBuckets(keys, g)
  {
    RearrangedPermutation(f, g, lo, hi);
    forall k | 0 <= k < |g| ensures InBucket(keys, g, k) {
      assert InBucket(keys, f, k);
      if lo <= k < hi {
        var i := RearrangedFrom(f, g, lo, hi, k);
        BucketIff(keys, f, i, v);
      }
    }
  }

  lemma OtherSmallDone(r: seq<nat>, keys: seq<nat>, f: seq<nat>, g: seq<nat>, v: nat, w: nat)
    requires Rearranged(f, g, Start(keys, v), Start(keys, v + 1)) && v != w && SmallDone(r, keys, f, w)
    ensures SmallDone(r, keys, g, w)
  {
    if v < w { StartGrows(keys, v + 1, w); } else { StartGrows(keys, w + 1, v); }
    forall i, j | Start(keys, w) <= i < j < Start(keys, w + 1) ensures NotAbove(r, g, g, i, j) {
      assert NotAbove(r, f, f, i, j);
    }
  }

  lemma KeysSortedIsDone(r: seq<nat>, keys: seq<nat>, f: seq<nat>, v: nat)
    requires Start(keys, v + 1) <= |f| && HasKeys(f, r) && KeysSorted(f, r, Start(keys, v), Start(keys, v + 1))
    ensures SmallDone(r, keys, f, v)
  {
    forall i, j | Start(keys, v) <= i < j < Start(keys, v + 1) ensures NotAbove(r, f, f, i, j) {
      assert Key(f, r, i) <= Key(f, r, j);
    }
  }

  /** The pointer array between small steps: every rotation in its bucket, marked buckets in order. */
  ghost predicate Standing(b: seq<Byte>, r: seq<nat>, f: seq<nat>, ftab: seq<nat>, flags: seq<bool>) {
    && AreRanks(b, r) && |b| <= 900000 && InBuckets(PairKeys(b), f)
    && FtabIs(ftab, PairKeys(b), flags) && FlagsRight(r, PairKeys(b), f, flags)
  }

  lemma StandingKeys(b: seq<Byte>, r: seq<nat>, f: seq<nat>, ftab: seq<nat>, flags: seq<bool>)
    requires Standing(b, r, f, ftab, flags)
    ensures HasKeys(f, r) && |f| == |b|
  {}

  lemma EntriesAre(b: seq<Byte>, r: seq<nat>, f: seq<nat>, ftab: seq<nat>, flags: seq<bool>, v: nat)
    requires Standing(b, r, f, ftab, flags) && v < PAIRS
    ensures EntryIs(ftab, PairKeys(b), flags, v) && Cleared(ftab[v + 1]) == Start(PairKeys(b), v + 1) <= |b|
    ensures Start(PairKeys(b), v) <= Start(PairKeys(b), v + 1)
  {
    assert EntryIs(ftab, PairKeys(b), flags, v) && EntryIs(ftab, PairKeys(b), flags, v + 1);
    StartsBelow(PairKeys(b), v + 1);
  }

  /** Small bucket v has been sorted and is marked. */
  lemma SmallSorted(b: seq<Byte>, r: seq<nat>, f: seq<nat>, g: seq<nat>, ftab: seq<nat>, flags: seq<bool>, v: nat)
    requires Standing(b, r, f, ftab, flags) && v < PAIRS && HasKeys(g, r)
    requires Rearranged(f, g, Start(PairKeys(b), v), Start(PairKeys(b), v + 1))
    requires KeysSorted(g, r, Start(PairKeys(b), v), Start(PairKeys(b), v + 1))
    ensures Standing(b, r, g, ftab[v := Marked(ftab[v])], flags[v := true])
  {
    var keys := PairKeys(b);
    StillInBuckets(keys, f, g, v, Start(keys, v), Start(keys, v + 1));
    KeysSortedIsDone(r, keys, g, v);
    forall w | 0 <= w < PAIRS && flags[v := true][w] ensures SmallDone(r, keys, g, w) {
      if w != v { OtherSmallDone(r, keys, f, g, v, w); }
    }
    MarkOne(b, ftab, flags, v);
  }

  lemma MarkOne(b: seq<Byte>, ftab: seq<nat>, flags: seq<bool>, v: nat)
    requires |b| <= 900000 && FtabIs(ftab, PairKeys(b), flags) && v < PAIRS
    ensures FtabIs(ftab[v := Marked(ftab[v])], PairKeys(b), flags[v := true])
  {
    var keys := PairKeys(b);
    var ftab', flags' := ftab[v := Marked(ftab[v])], flags[v := true];
    assert EntryIs(ftab, keys, flags, v);
    StartsBelow(keys, v);
    EntryMarked(ftab[v], Start(keys, v));
    forall w | 0 <= w <= PAIRS ensures EntryIs(ftab', keys, flags', w) {
      assert EntryIs(ftab, keys, flags, w);
    }
  }

  /** A bucket that is already marked, or holds at most one rotation. */
  lemma SmallMarked(b: seq<Byte>, r: seq<nat>, f: seq<nat>, ftab: seq<nat>, flags: seq<bool>, v: nat)
    requires Standing(b, r, f, ftab, flags) && v < PAIRS
    requires flags[v] || Start(PairKeys(b), v + 1) <= Start(PairKeys(b), v) + 1
    ensures Standing(b, r, f, ftab[v := Marked(ftab[v])], flags[v := true])
  {
    var keys := PairKeys(b);
    EntriesAre(b, r, f, ftab, flags, v);
    assert SmallDone(r, keys, f, v);
    MarkOne(b, ftab, flags, v);
  }

  // ---------- the budget ----------

  /** The rotations from bucket v up to bucket w. */
  ghost function Stretch(b: seq<Byte>, v: nat, w: nat): nat
    requires v <= w
  {
    StartGrows(PairKeys(b), v, w);
    Start(PairKeys(b), w) - Start(PairKeys(b), v)
  }

  /** The rotations that start with byte c. */
  ghost function BigSize(b: seq<Byte>, c: nat): nat { Stretch(b, c * 256, c * 256 + 256) }

  lemma ComparesGrow(x: nat, y: nat)
    requires x <= y
    ensures Compares(x) <= Compares(y)
  {
    ComparesTogether(x, y - x);
  }

  /** One stretch more has been sorted. */
  lemma SpentOnMore(budget: int, left: int, less: int, cost: nat, x: nat, y: nat)
    requires Spent(budget, left, cost, Compares(x)) && Spent(left, less, cost, Compares(y))
    ensures Spent(budget, less, cost, Compares(x + y))
  {
    ComparesTogether(x, y);
    SpentMore(budget, left, less, cost, Compares(x), Compares(y), Compares(x + y));
  }

  lemma SpentOnPart(budget: int, left: int, cost: nat, x: nat, y: nat)
    requires Spent(budget, left, cost, Compares(x)) && x <= y
    ensures Spent(budget, left, cost, Compares(y))
  {
    ComparesGrow(x, y);
    SpentAtMost(budget, left, cost, Compares(x), Compares(y));
  }

  // ---------- what equal rotations cost ----------

  /** The rotations equal to rotation p. */
  ghost function Equals(b: seq<Byte>, r: seq<nat>, p: nat): set<nat>
    requires p < |b| <= |r|
  {
    set q | q in Range(|b|) && r[q] == r[p]
  }

  lemma EqualPairs(b: seq<Byte>, r: seq<nat>, p: nat, q: nat)
    requires AreRanks(b, r) && p < |b| && q < |b| && r[p] == r[q]
    ensures Pair(b, p) == Pair(b, q)
  {
    EqualNext(b, r, p, q);
    EqualNext(b, r, Next(b, p), Next(b, q));
  }

  /** They are all in one small bucket. */
  lemma EqualsInBucket(b: seq<Byte>, r: seq<nat>, f: seq<nat>, p: nat, lo: nat, hi: nat)
    requires AreRanks(b, r) && InBuckets(PairKeys(b), f) && p < |b| && lo <= hi <= |f|
    requires lo == Start(PairKeys(b), Pair(b, p)) && hi == Start(PairKeys(b), Pair(b, p) + 1)
    ensures OfRank(f, r, lo, hi, r[p]) == Equals(b, r, p)
  {
    var w := OfRank(f, r, lo, hi, r[p]);
    forall q | q in Equals(b, r, p) ensures q in w {
      EqualPairs(b, r, p, q);
      PermutationIsOnto(f, |b|, q);
      var k :| 0 <= k < |f| && f[k] == q;
      assert InBucket(PairKeys(b), f, k);
      assert f[lo..hi][k - lo] == q;
    }
  }

  /** The small bucket of rotation p is of big bucket ss, but not its own, and not yet marked. */
  ghost predicate Fresh(b: seq<Byte>, flags: seq<bool>, ss: Byte, p: nat)
    requires p < |b|
  {
    b[p] == ss && b[Next(b, p)] != ss && |flags| == PAIRS + 1 && !flags[Pair(b, p)]
  }

  /** Sorts one small bucket unless it is marked, leaving the mark to the caller. */
  method SortSmall(ptr: array<nat>, block: seq<Byte>, quadrant: seq<nat>, ftab: array<nat>, nblock: nat, sb: nat,
                   budget: int, ghost b: seq<Byte>, ghost r: seq<nat>, ghost flags: seq<bool>, ghost p: nat)
    returns (left: int)
    requires ptr != ftab && Sortable(b, r, block, quadrant, nblock) && ptr.Length == nblock && sb < PAIRS && p < |b|
    requires Standing(b, r, ptr[..], ftab[..], flags) && budget >= 0
    modifies ptr
    ensures left <= budget
    ensures left >= 0 ==> Standing(b, r, ptr[..], ftab[..][sb := Marked(ftab[sb])], flags[sb := true])
    ensures Spent(budget, left, Cost(b), Compares(Stretch(b, sb, sb + 1)))
    ensures left >= 0 && TiesShare(b, r, quadrant[..nblock]) && Pair(b, p) == sb && !flags[sb] ==>
            Charged(budget, left, nblock, Extra(Equals(b, r, p)))
  {
    ghost var f, tab := ptr[..], ftab[..];
    NothingSpent(budget, Cost(b), Compares(Stretch(b, sb, sb + 1)));
    ghost var keys := PairKeys(b);
    EntriesAre(b, r, f, tab, flags, sb);
    StandingKeys(b, r, f, tab, flags);
    if Pair(b, p) == sb { EqualsInBucket(b, r, f, p, Start(keys, sb), Start(keys, sb + 1)); }
    left := budget;
    if !IsSet(ftab[sb]) {
      var lo := Cleared(ftab[sb]);
      var hi: int := Cleared(ftab[sb + 1]) - 1;
      if hi > lo {
        PairsAgree(b, f, sb, lo, hi + 1);
        left := QSort3(ptr, block, quadrant, nblock, lo, hi, BZ_N_RADIX, budget, b, r, r[p]);
        if left >= 0 { SmallSorted(b, r, f, ptr[..], tab, flags, sb); }
        return;
      }
      OfRankSmall(f, r, lo, hi + 1, r[p]);
    }
    SmallMarked(b, r, f, tab, flags, sb);
  }

  /** Step 1 for one small bucket. */
  method CompleteSmall(ptr: array<nat>, block: seq<Byte>, quadrant: seq<nat>, ftab: array<nat>, nblock: nat, sb: nat,
                       budget: int, ghost b: seq<Byte>, ghost r: seq<nat>, ghost flags: seq<bool>, ghost p: nat)
    returns (left: int)
    requires ptr != ftab && Sortable(b, r, block, quadrant, nblock) && ptr.Length == nblock && sb < PAIRS && p < |b|
    requires Standing(b, r, ptr[..], ftab[..], flags) && budget >= 0
    modifies ptr, ftab
    ensures left <= budget && (left >= 0 ==> Standing(b, r, ptr[..], ftab[..], flags[sb := true]))
    ensures Spent(budget, left, Cost(b), Compares(Stretch(b, sb, sb + 1)))
    ensures left >= 0 && TiesShare(b, r, quadrant[..nblock]) && Pair(b, p) == sb && !flags[sb] ==>
            Charged(budget, left, nblock, Extra(Equals(b, r, p)))
  {
    left := SortSmall(ptr, block, quadrant, ftab, nblock, sb, budget, b, r, flags, p);
    if left >= 0 {
      ghost var tab := ftab[..];
      ftab[sb] := Marked(ftab[sb]);
      assert ftab[..] == tab[sb := Marked(tab[sb])];
    }
  }

  /** flags with the small buckets [ss, e] for e below j added, except [ss, ss]. */
  ghost predicate Step1Done(flags0: seq<bool>, flags: seq<bool>, ss: Byte, j: nat)
    requires |flags0| == |flags| == PAIRS + 1
  {
    forall v :: 0 <= v <= PAIRS ==> Step1Flag(flags0, flags, ss, j, v)
  }

  ghost predicate Step1Flag(flags0: seq<bool>, flags: seq<bool>, ss: Byte, j: nat, v: nat)
    requires v < |flags0| == |flags|
  {
    flags[v] == (flags0[v] || (v < PAIRS && v / 256 == ss && v % 256 != ss && v % 256 < j))
  }

  lemma Step1More(flags0: seq<bool>, flags: seq<bool>, ss: Byte, j: Byte, next: nat)
    requires |flags0| == |flags| == PAIRS + 1 && Step1Done(flags0, flags, ss, j) && next == j + 1
    ensures j != ss ==> Step1Done(flags0, flags[PairOf(ss, j) := true], ss, next)
    ensures j == ss ==> Step1Done(flags0, flags, ss, next)
  {
    var flags' := if j == ss then flags else flags[PairOf(ss, j) := true];
    forall v | 0 <= v <= PAIRS ensures Step1Flag(flags0, flags', ss, next, v) {
      assert Step1Flag(flags0, flags, ss, j, v);
      if v < PAIRS && v / 256 == ss && v % 256 == j { assert v == PairOf(ss, j); }
    }
  }

  /** Step 1 for the small bucket [ss, j], which is left alone when it is ss's own. */
  method CompletePair(ptr: array<nat>, block: seq<Byte>, quadrant: seq<nat>, ftab: array<nat>, nblock: nat, ss: Byte,
                      j: Byte, budget: int, ghost b: seq<Byte>, ghost r: seq<nat>, ghost flags0: seq<bool>,
                      ghost p: nat)
    returns (left: int, ghost flags: seq<bool>)
    requires ptr != ftab && Sortable(b, r, block, quadrant, nblock) && ptr.Length == nblock && p < |b|
    requires Standing(b, r, ptr[..], ftab[..], flags0) && |flags0| == PAIRS + 1 && budget >= 0
    modifies ptr, ftab
    ensures left <= budget && flags == if j == ss || left < 0 then flags0 else flags0[PairOf(ss, j) := true]
    ensures left >= 0 ==> Standing(b, r, ptr[..], ftab[..], flags)
    ensures Spent(budget, left, Cost(b), Compares(Stretch(b, PairOf(ss, j), PairOf(ss, j) + 1)))
    ensures left >= 0 && TiesShare(b, r, quadrant[..nblock]) && Fresh(b, flags0, ss, p) && Pair(b, p) == PairOf(ss, j)
            ==> Charged(budget, left, nblock, Extra(Equals(b, r, p)))
  {
    var sb := PairOf(ss, j);
    left, flags := budget, flags0;
    NothingSpent(budget, Cost(b), Compares(Stretch(b, sb, sb + 1)));
    if j != ss {
      left := CompleteSmall(ptr, block, quadrant, ftab, nblock, sb, budget, b, r, flags0, p);
      if left >= 0 { flags := flags0[sb := true]; }
    }
  }

  lemma Step1Starts(flags: seq<bool>, ss: Byte)
    requires |flags| == PAIRS + 1
    ensures Step1Done(flags, flags, ss, 0)
  {
    forall v | 0 <= v <= PAIRS ensures Step1Flag(flags, flags, ss, 0, v) {}
  }

  /** A small bucket whose turn has not come is as it was. */
  lemma FreshStill(b: seq<Byte>, flags0: seq<bool>, flags: seq<bool>, ss: Byte, j: Byte, p: nat)
    requires |flags0| == |flags| == PAIRS + 1 && Step1Done(flags0, flags, ss, j) && p < |b|
    ensures Fresh(b, flags0, ss, p) && b[Next(b, p)] == j ==> Fresh(b, flags, ss, p) && Pair(b, p) == PairOf(ss, j)
  {
    assert Step1Flag(flags0, flags, ss, j, PairOf(ss, j));
  }

  lemma Step1Spent(b: seq<Byte>, ss: Byte, j: Byte, budget: int, before: int, left: int)
    requires left <= before <= budget
    requires Spent(budget, before, Cost(b), Compares(Stretch(b, PairOf(ss, 0), PairOf(ss, 0) + j)))
    requires Spent(before, left, Cost(b), Compares(Stretch(b, PairOf(ss, j), PairOf(ss, j) + 1)))
    ensures Spent(budget, left, Cost(b), Compares(Stretch(b, PairOf(ss, 0), PairOf(ss, 0) + (j + 1))))
    ensures Spent(budget, left, Cost(b), Compares(BigSize(b, ss)))
  {
    var first, cell, next := PairOf(ss, 0), PairOf(ss, j), PairOf(ss, 0) + (j + 1);
    StartGrows(PairKeys(b), first, cell);
    StartGrows(PairKeys(b), cell, next);
    StartGrows(PairKeys(b), next, first + 256);
    SpentOnMore(budget, before, left, Cost(b), Stretch(b, first, cell), Stretch(b, cell, next));
    SpentOnPart(budget, left, Cost(b), Stretch(b, first, next), BigSize(b, ss));
  }

  /** Step 1: completes the small buckets [ss, j] for all j but ss. */
  method CompleteBig(ptr: array<nat>, block: seq<Byte>, quadrant: seq<nat>, ftab: array<nat>, nblock: nat, ss: Byte,
                     budget: int, ghost b: seq<Byte>, ghost r: seq<nat>, ghost flags0: seq<bool>, ghost p: nat)
    returns (left: int, ghost flags: seq<bool>)
    requires ptr != ftab && Sortable(b, r, block, quadrant, nblock) && ptr.Length == nblock && p < |b|
    requires Standing(b, r, ptr[..], ftab[..], flags0) && budget >= 0
    modifies ptr, ftab
    ensures left <= budget && |flags| == |flags0| == PAIRS + 1
    ensures left >= 0 ==> Standing(b, r, ptr[..], ftab[..], flags) && Step1Done(flags0, flags, ss, 256)
    ensures Spent(budget, left, Cost(b), Compares(BigSize(b, ss)))
    ensures left >= 0 && TiesShare(b, r, quadrant[..nblock]) && Fresh(b, flags0, ss, p) ==>
            Charged(budget, left, nblock, Extra(Equals(b, r, p)))
  {
    left, flags := budget, flags0;
    ghost var first := PairOf(ss, 0);
    ghost var due := TiesShare(b, r, quadrant[..nblock]) && Fresh(b, flags0, ss, p);
    NothingSpent(budget, Cost(b), 0);
    Step1Starts(flags0, ss);
    for j := 0 to 256
      invariant 0 <= left <= budget && |flags| == |flags0| == PAIRS + 1
      invariant Standing(b, r, ptr[..], ftab[..], flags) && Step1Done(flags0, flags, ss, j)
      invariant Spent(budget, left, Cost(b), Compares(Stretch(b, first, first + j)))
      invariant due && b[Next(b, p)] < j ==> Charged(budget, left, nblock, Extra(Equals(b, r, p)))
    {
      ghost var next, before := j + 1, left;
      Step1More(flags0, flags, ss, j, next);
      FreshStill(b, flags0, flags, ss, j, p);
      left, flags := CompletePair(ptr, block, quadrant, ftab, nblock, ss, j, left, b, r, flags, p);
      Step1Spent(b, ss, j, budget, before, left);
      if left < 0 { return; }
    }
  }

  // ---------- step 2 ----------

  /** copyStart after some rows have been visited from below. */
  ghost predicate StartsAre(z: Sweep, copyStart: seq<nat>, w: seq<nat>)
    requires Within(z.b, w)
  {
    |copyStart| == |z.done| == 256 && forall c: Byte :: StartIs(z, copyStart, w, c)
  }

  ghost predicate StartIs(z: Sweep, copyStart: seq<nat>, w: seq<nat>, c: Byte)
    requires Within(z.b, w) && |copyStart| == |z.done| == 256
  {
    copyStart[c] == z.S(c) + if z.done[c] then 0 else |Copied(z.b, w, c)|
  }

  ghost predicate EndsAre(z: Sweep, copyEnd: seq<int>, t: seq<nat>)
    requires Within(z.b, t)
  {
    |copyEnd| == |z.done| == 256 && forall c: Byte :: EndIs(z, copyEnd, t, c)
  }

  ghost predicate EndIs(z: Sweep, copyEnd: seq<int>, t: seq<nat>, c: Byte)
    requires Within(z.b, t) && |copyEnd| == |z.done| == 256
  {
    copyEnd[c] == z.E(c) - 1 - if z.done[c] then 0 else |Copied(z.b, t, c)|
  }

  lemma StartMoves(z: Sweep, cs: seq<nat>, w: seq<nat>, p: nat, d: Byte)
    requires Within(z.b, w) && p < |z.b| && StartsAre(z, cs, w) && d == z.b[Prev(z.b, p)]
    ensures Within(z.b, w + [p]) && StartsAre(z, if z.done[d] then cs else cs[d := cs[d] + 1], w + [p])
  {
    var cs' := if z.done[d] then cs else cs[d := cs[d] + 1];
    forall c: Byte ensures StartIs(z, cs', w + [p], c) {
      CopiedSnoc(z.b, w, p, c);
      assert StartIs(z, cs, w, c);
    }
  }

  lemma EndMoves(z: Sweep, ce: seq<int>, t: seq<nat>, p: nat, d: Byte)
    requires Within(z.b, t) && p < |z.b| && EndsAre(z, ce, t) && d == z.b[Prev(z.b, p)]
    ensures Within(z.b, t + [p]) && EndsAre(z, if z.done[d] then ce else ce[d := ce[d] - 1], t + [p])
  {
    var ce' := if z.done[d] then ce else ce[d := ce[d] - 1];
    forall c: Byte ensures EndIs(z, ce', t + [p], c) {
      CopiedSnoc(z.b, t, p, c);
      assert EndIs(z, ce, t, c);
    }
  }

  /** Both scans so far. */
  ghost predicate Sweeping(z: Sweep, g: seq<nat>, w: seq<nat>, t: seq<nat>) {
    Ready(z) && Scanned(z, g, w, t) && Sorted(z, w, t) && Rows(z, g, w, t)
  }

  lemma SweepStarts(z: Sweep)
    requires Ready(z)
    ensures Sweeping(z, z.f0, [], [])
  {
    Bounds(z);
    forall c: Byte ensures Copied(z.b, [], c) == [] { CopiedNothing(z.b, c); }
    forall c: Byte | !z.done[c] ensures Filled(z, z.f0, [], [], c) { RoomFor(z, [], [], c); }
    forall k | 0 <= k < |z.f0| ensures Kept(z, z.f0, [], [], k) {}
  }

  /** Row j is the next from below: what the step does to the state. */
  lemma SweepUp(z: Sweep, g: seq<nat>, g': seq<nat>, w: seq<nat>, j: nat, p: nat, at: nat)
    requires Sweeping(z, g, w, []) && j == z.Lo() + |w| < z.S(z.ss) + |Copied(z.b, w, z.ss)| && j < |g|
             && p == g[j] < |z.b|
    requires var d := z.b[Prev(z.b, p)];
      && at == z.S(d) + |Copied(z.b, w, d)|
      && if z.done[d] then g' == g else at < |g| && g' == g[at := Prev(z.b, p)]
    ensures Sweeping(z, g', w + [p], [])
  {
    VisitLow(z, g, w, j, p);
    Store(z, g, g', w, [], w + [p], [], p, at);
    RowsStay(z, g, g', w, [], w + [p], [], j, p, at);
  }

  lemma SweepUpPlace(z: Sweep, g: seq<nat>, cs: seq<nat>, w: seq<nat>, j: nat) returns (p: nat)
    requires Sweeping(z, g, w, []) && StartsAre(z, cs, w) && j == z.Lo() + |w| < z.S(z.ss) + |Copied(z.b, w, z.ss)|
    ensures j < |g| == |z.b| && p == g[j] < |z.b|
    ensures var d := z.b[Prev(z.b, p)]; !z.done[d] ==> cs[d] < |g|
  {
    LowElement(z, g, w, [], j);
    p := g[j];
    VisitLow(z, g, w, j, p);
    var d := z.b[Prev(z.b, p)];
    PlaceIsThere(z, w, [], w + [p], [], p, z.S(d) + |Copied(z.b, w, d)|);
    assert StartIs(z, cs, w, d);
  }

  lemma SweepDown(z: Sweep, g: seq<nat>, g': seq<nat>, w: seq<nat>, t: seq<nat>, j: nat, p: nat, at: int)
    requires Sweeping(z, g, w, t) && z.E(z.ss) - |Copied(z.b, t, z.ss)| <= j == z.Hi() - 1 - |t| && j < |g|
             && p == g[j] < |z.b|
    requires var d := z.b[Prev(z.b, p)];
      && at == z.E(d) - 1 - |Copied(z.b, t, d)|
      && if z.done[d] then g' == g else 0 <= at < |g| && g' == g[at := Prev(z.b, p)]
    ensures Sweeping(z, g', w, t + [p])
  {
    VisitHigh(z, g, w, t, j, p);
    Store(z, g, g', w, t, w, t + [p], p, at);
    RowsStay(z, g, g', w, t, w, t + [p], j, p, at);
  }

  lemma SweepDownPlace(z: Sweep, g: seq<nat>, ce: seq<int>, w: seq<nat>, t: seq<nat>, j: nat) returns (p: nat)
    requires Sweeping(z, g, w, t) && EndsAre(z, ce, t) && z.E(z.ss) - |Copied(z.b, t, z.ss)| <= j == z.Hi() - 1 - |t|
    ensures j < |g| == |z.b| && p == g[j] < |z.b|
    ensures var d := z.b[Prev(z.b, p)]; !z.done[d] ==> 0 <= ce[d] < |g|
  {
    HighElement(z, g, w, t, j);
    p := g[j];
    VisitHigh(z, g, w, t, j, p);
    var d := z.b[Prev(z.b, p)];
    PlaceIsThere(z, w, t, w, t + [p], p, z.E(d) - 1 - |Copied(z.b, t, d)|);
    assert EndIs(z, ce, t, d);
  }

  lemma StartPlace(z: Sweep, cs: seq<nat>, w: seq<nat>, c: Byte) returns (at: nat)
    requires Within(z.b, w) && StartsAre(z, cs, w)
    ensures at == z.S(c) + |Copied(z.b, w, c)| && (!z.done[c] ==> at == cs[c])
  {
    assert StartIs(z, cs, w, c);
    at := z.S(c) + |Copied(z.b, w, c)|;
  }

  lemma EndPlace(z: Sweep, ce: seq<int>, t: seq<nat>, c: Byte) returns (at: int)
    requires Within(z.b, t) && EndsAre(z, ce, t)
    ensures at == z.E(c) - 1 - |Copied(z.b, t, c)| && (!z.done[c] ==> at == ce[c])
  {
    assert EndIs(z, ce, t, c);
    at := z.E(c) - 1 - |Copied(z.b, t, c)|;
  }

  /** The byte before rotation p. */
  method Before(block: seq<Byte>, nblock: nat, p: nat, ghost b: seq<Byte>) returns (k: nat, c1: Byte)
    requires nblock == |b| <= |block| && b == block[..nblock] && p < nblock
    ensures k == Prev(b, p) && c1 == b[k]
  {
    var q: int := p;
    q := q - 1;
    if q < 0 { q := q + nblock; }
    k := q;
    c1 := block[k];
  }

  /** The first scan: copies predecessors upwards until it catches up with itself. */
  method ScanUp(ptr: array<nat>, block: seq<Byte>, nblock: nat, bigDone: seq<bool>, ss: Byte, start: nat,
                copyStart: array<nat>, ghost z: Sweep)
    returns (ghost w: seq<nat>)
    requires ptr != copyStart && Sweeping(z, ptr[..], [], []) && StartsAre(z, copyStart[..], [])
    requires z.ss == ss && z.done == bigDone && start == z.Lo() && nblock == |z.b| <= |block| && z.b == block[..nblock]
    modifies ptr, copyStart
    ensures Sweeping(z, ptr[..], w, []) && StartsAre(z, copyStart[..], w)
    ensures z.Lo() + |w| == z.S(ss) + |Copied(z.b, w, ss)|
  {
    w := [];
    var j := start;
    CopiedNothing(z.b, ss);
    while j < copyStart[ss]
      invariant Sweeping(z, ptr[..], w, []) && StartsAre(z, copyStart[..], w)
      invariant j == z.Lo() + |w| <= z.S(ss) + |Copied(z.b, w, ss)|
      decreases nblock - j
    {
      ghost var g, cs := ptr[..], copyStart[..];
      assert StartIs(z, cs, w, ss);
      ghost var p := SweepUpPlace(z, g, cs, w, j);
      var k, c1 := Before(block, nblock, ptr[j], z.b);
      ghost var at := StartPlace(z, cs, w, c1);
      StartMoves(z, cs, w, p, c1);
      if !bigDone[c1] {
        ptr[copyStart[c1]] := k;
        copyStart[c1] := copyStart[c1] + 1;
        assert ptr[..] == g[at := k] && copyStart[..] == cs[c1 := cs[c1] + 1];
      }
      SweepUp(z, g, ptr[..], w, j, p, at);
      w := w + [p];
      j := j + 1;
    }
    assert StartIs(z, copyStart[..], w, ss);
  }

  /** The second scan, from the other end downwards. */
  method ScanDown(ptr: array<nat>, block: seq<Byte>, nblock: nat, bigDone: seq<bool>, ss: Byte, end: int,
                  copyEnd: array<int>, ghost z: Sweep, ghost w: seq<nat>)
    returns (ghost t: seq<nat>)
    requires ptr as object != copyEnd && Sweeping(z, ptr[..], w, []) && EndsAre(z, copyEnd[..], [])
    requires z.ss == ss && z.done == bigDone && end == z.Hi() - 1 && nblock == |z.b| <= |block|
             && z.b == block[..nblock]
    modifies ptr, copyEnd
    ensures Sweeping(z, ptr[..], w, t) && EndsAre(z, copyEnd[..], t)
    ensures z.Hi() - |t| == z.E(ss) - |Copied(z.b, t, ss)|
  {
    t := [];
    var j := end;
    CopiedNothing(z.b, ss);
    while j > copyEnd[ss]
      invariant Sweeping(z, ptr[..], w, t) && EndsAre(z, copyEnd[..], t)
      invariant z.E(ss) - |Copied(z.b, t, ss)| - 1 <= j == z.Hi() - 1 - |t|
      decreases j
    {
      ghost var g, ce := ptr[..], copyEnd[..];
      assert EndIs(z, ce, t, ss);
      ghost var p := SweepDownPlace(z, g, ce, w, t, j);
      var k, c1 := Before(block, nblock, ptr[j], z.b);
      ghost var at := EndPlace(z, ce, t, c1);
      EndMoves(z, ce, t, p, c1);
      if !bigDone[c1] {
        ptr[copyEnd[c1]] := k;
        copyEnd[c1] := copyEnd[c1] - 1;
        assert ptr[..] == g[at := k] && copyEnd[..] == ce[c1 := ce[c1] - 1];
      }
      SweepDown(z, g, ptr[..], w, t, j, p, at);
      t := t + [p];
      j := j - 1;
    }
    assert EndIs(z, copyEnd[..], t, ss);
  }

  // ---------- between the scans and the main loop ----------

  /** A stretch of small buckets that are in order is in order. */
  lemma StretchInOrder(b: seq<Byte>, r: seq<nat>, f: seq<nat>, v1: nat, v2: nat, i: nat, j: nat)
    requires AreRanks(b, r) && InBuckets(PairKeys(b), f) && v1 <= v2 <= PAIRS
    requires forall v :: v1 <= v < v2 ==> SmallDone(r, PairKeys(b), f, v)
    requires Start(PairKeys(b), v1) <= i < j < Start(PairKeys(b), v2) && j < |f|
    ensures NotAbove(r, f, f, i, j)
  {
    var keys := PairKeys(b);
    var vi, vj := keys[f[i]], keys[f[j]];
    PlaceOrder(keys, f, i, v1);
    PlaceOrder(keys, f, j, v1);
    PlaceOrder(keys, f, i, v2);
    PlaceOrder(keys, f, j, v2);
    BucketIff(keys, f, i, vi);
    BucketIff(keys, f, j, vj);
    if vi == vj {
      assert SmallDone(r, keys, f, vi);
    } else {
      PlaceOrder(keys, f, i, vj);
      PlaceOrder(keys, f, j, vi);
      RankByPair(b, r, f[i], f[j]);
    }
  }

  /** What step 1 leaves is ready to be scanned. */
  lemma ReadyToSweep(z: Sweep, ftab: seq<nat>, flags0: seq<bool>, flags: seq<bool>)
    requires Standing(z.b, z.r, z.f0, ftab, flags) && FlagsOf(flags0, z.done) && !z.done[z.ss]
    requires |flags0| == |flags| == PAIRS + 1 && Step1Done(flags0, flags, z.ss, 256)
    ensures Ready(z)
  {
    var keys := PairKeys(z.b);
    Bounds(z);
    forall v | PairOf(z.ss, 0) <= v < PairOf(z.ss, 255) + 1 && v != PairOf(z.ss, z.ss)
      ensures SmallDone(z.r, keys, z.f0, v)
    {
      assert Step1Flag(flags0, flags, z.ss, 256, v);
    }
    forall i, j | z.Lo() <= i < j < z.S(z.ss) ensures NotAbove(z.r, z.f0, z.f0, i, j) {
      StretchInOrder(z.b, z.r, z.f0, PairOf(z.ss, 0), PairOf(z.ss, z.ss), i, j);
    }
    forall i, j | z.E(z.ss) <= i < j < z.Hi() ensures NotAbove(z.r, z.f0, z.f0, i, j) {
      StretchInOrder(z.b, z.r, z.f0, PairOf(z.ss, z.ss) + 1, PairOf(z.ss, 255) + 1, i, j);
    }
  }

  /** flags with the small buckets [c, ss] for c below j added. */
  ghost predicate Step2Done(flags0: seq<bool>, flags: seq<bool>, ss: Byte, j: nat)
    requires |flags0| == |flags| == PAIRS + 1
  {
    forall v :: 0 <= v <= PAIRS ==> Step2Flag(flags0, flags, ss, j, v)
  }

  ghost predicate Step2Flag(flags0: seq<bool>, flags: seq<bool>, ss: Byte, j: nat, v: nat)
    requires v < |flags0| == |flags|
  {
    flags[v] == (flags0[v] || (v < PAIRS && v % 256 == ss && v / 256 < j))
  }

  lemma Step2More(flags0: seq<bool>, flags: seq<bool>, ss: Byte, j: Byte, next: nat)
    requires |flags0| == |flags| == PAIRS + 1 && Step2Done(flags0, flags, ss, j) && next == j + 1
    ensures Step2Done(flags0, flags[PairOf(j, ss) := true], ss, next)
  {
    var flags' := flags[PairOf(j, ss) := true];
    forall v | 0 <= v <= PAIRS ensures Step2Flag(flags0, flags', ss, next, v) {
      assert Step2Flag(flags0, flags, ss, j, v);
      if v < PAIRS && v % 256 == ss && v / 256 == j { assert v == PairOf(j, ss); }
    }
  }

  /** Marks the small buckets [j, ss] for all j. */
  method MarkColumn(ftab: array<nat>, ss: Byte, ghost b: seq<Byte>, ghost flags0: seq<bool>)
    returns (ghost flags: seq<bool>)
    requires |b| <= 900000 && FtabIs(ftab[..], PairKeys(b), flags0)
    modifies ftab
    ensures FtabIs(ftab[..], PairKeys(b), flags) && Step2Done(flags0, flags, ss, 256)
  {
    flags := flags0;
    assert Step2Done(flags0, flags, ss, 0) by {
      forall v | 0 <= v <= PAIRS ensures Step2Flag(flags0, flags, ss, 0, v) {}
    }
    for j := 0 to 256
      invariant FtabIs(ftab[..], PairKeys(b), flags) && Step2Done(flags0, flags, ss, j)
    {
      ghost var tab, next := ftab[..], j + 1;
      var v := PairOf(j, ss);
      MarkOne(b, tab, flags, v);
      Step2More(flags0, flags, ss, j, next);
      ftab[v] := Marked(ftab[v]);
      flags := flags[v := true];
      assert ftab[..] == tab[v := Marked(tab[v])];
    }
  }

  /** All marked buckets are in order again, and ss is done. */
  lemma SweptIsRight(z: Sweep, g: seq<nat>, flags0: seq<bool>, flags1: seq<bool>, flags2: seq<bool>)
    requires Swept(z, g) && AreRanks(z.b, z.r) && InBuckets(PairKeys(z.b), z.f0)
    requires FlagsRight(z.r, PairKeys(z.b), z.f0, flags1) && FlagsOf(flags0, z.done)
    requires |flags0| == |flags2| == PAIRS + 1
    requires Step1Done(flags0, flags1, z.ss, 256) && Step2Done(flags1, flags2, z.ss, 256)
    ensures FlagsRight(z.r, PairKeys(z.b), g, flags2) && FlagsOf(flags2, z.done[z.ss := true])
  {
    var keys := PairKeys(z.b);
    var done' := z.done[z.ss := true];
    forall v | 0 <= v < PAIRS ensures FlagIs(flags2, done', v) {
      assert FlagIs(flags0, z.done, v) && Step1Flag(flags0, flags1, z.ss, 256, v)
          && Step2Flag(flags1, flags2, z.ss, 256, v);
    }
    forall v | 0 <= v < PAIRS && flags2[v] ensures SmallDone(z.r, keys, g, v) {
      assert FlagIs(flags0, z.done, v) && Step1Flag(flags0, flags1, z.ss, 256, v)
          && Step2Flag(flags1, flags2, z.ss, 256, v);
      if v % 256 == z.ss && !z.done[v / 256] {
        assert v == PairOf(v / 256, z.ss);
      } else {
        SparedStaysDone(z, g, v);
      }
    }
  }

  lemma SparedStaysDone(z: Sweep, g: seq<nat>, v: nat)
    requires Swept(z, g) && InBuckets(PairKeys(z.b), z.f0) && v < PAIRS && SmallDone(z.r, PairKeys(z.b), z.f0, v)
    requires v % 256 != z.ss || z.done[v / 256]
    ensures SmallDone(z.r, PairKeys(z.b), g, v)
  {
    var keys := PairKeys(z.b);
    forall i, j | Start(keys, v) <= i < j < Start(keys, v + 1) ensures NotAbove(z.r, g, g, i, j) {
      BucketIff(keys, z.f0, i, v);
      BucketIff(keys, z.f0, j, v);
      assert Spared(z, g, i) && Spared(z, g, j) && NotAbove(z.r, z.f0, z.f0, i, j);
    }
  }

  /** copyStart and copyEnd before the scans. */
  method CopyBounds(ftab: seq<nat>, ss: Byte, ghost z: Sweep, ghost flags: seq<bool>)
    returns (copyStart: array<nat>, copyEnd: array<int>)
    requires Standing(z.b, z.r, z.f0, ftab, flags) && z.ss == ss && |z.done| == 256
    ensures fresh(copyStart) && fresh(copyEnd) && copyStart.Length == copyEnd.Length == 256
    ensures StartsAre(z, copyStart[..], []) && EndsAre(z, copyEnd[..], [])
  {
    copyStart := new nat[256];
    copyEnd := new int[256];
    for j := 0 to 256
      invariant forall c: Byte :: c < j ==> copyStart[c] == z.S(c) && copyEnd[c] == z.E(c) - 1
    {
      EntriesAre(z.b, z.r, z.f0, ftab, flags, PairOf(j, ss));
      copyStart[j] := Cleared(ftab[PairOf(j, ss)]);
      copyEnd[j] := Cleared(ftab[PairOf(j, ss) + 1]) - 1;
    }
    forall c: Byte ensures StartIs(z, copyStart[..], [], c) && EndIs(z, copyEnd[..], [], c) { CopiedNothing(z.b, c); }
  }

  /** Step 2: both scans. */
  method SweepBig(ptr: array<nat>, block: seq<Byte>, nblock: nat, ftab: seq<nat>, bigDone: seq<bool>, ss: Byte,
                  ghost z: Sweep, ghost flags: seq<bool>)
    requires Ready(z) && Standing(z.b, z.r, z.f0, ftab, flags) && ptr[..] == z.f0
    requires z.ss == ss && z.done == bigDone && nblock == |z.b| <= |block| && z.b == block[..nblock]
    modifies ptr
    ensures Swept(z, ptr[..])
  {
    var copyStart, copyEnd := CopyBounds(ftab, ss, z, flags);
    SweepStarts(z);
    EntriesAre(z.b, z.r, z.f0, ftab, flags, PairOf(ss, 0));
    EntriesAre(z.b, z.r, z.f0, ftab, flags, PairOf(ss, 255));
    ghost var w := ScanUp(ptr, block, nblock, bigDone, ss, Cleared(ftab[PairOf(ss, 0)]), copyStart, z);
    ghost var t := ScanDown(ptr, block, nblock, bigDone, ss, Cleared(ftab[PairOf(ss, 255) + 1]) - 1, copyEnd, z, w);
    ScansEnd(z, ptr[..], w, t);
    assert StartIs(z, copyStart[..], w, ss) && EndIs(z, copyEnd[..], t, ss);
    assert copyStart[ss] == copyEnd[ss] + 1 || (copyStart[ss] == 0 && copyEnd[ss] == nblock - 1);  // assertion 1007
  }

  // ---------- step 3 ----------

  lemma {:induction false} ShrOrder(x: nat, y: nat, k: nat)
    requires x <= y
    ensures Shr(x, k) <= Shr(y, k) <= y
    decreases k
  {
    if k > 0 { ShrOrder(x / 2, y / 2, k - 1); }
  }

  /** How far places must be shifted to fit a quadrant cell. */
  method Shifts(bbSize: nat) returns (shifts: nat)
    ensures Shr(bbSize, shifts) <= 65534 && (bbSize <= 65534 ==> shifts == 0)
  {
    shifts := 0;
    while Shr(bbSize, shifts) > 65534
      invariant bbSize <= 65534 ==> shifts == 0
      decreases Shr(bbSize, shifts)
    {
      ShrTwice(bbSize, shifts, 1);
      shifts := shifts + 1;
    }
  }

  /** The places from j on have been entered for the rotations of big bucket ss. */
  ghost predicate Entered(b: seq<Byte>, f: seq<nat>, quad0: seq<nat>, quad: seq<nat>, n: nat, ss: Byte, lo: nat,
                          size: nat, shifts: nat, j: nat)
    requires |b| == n <= |quad| == |quad0| && lo + size <= |f|
  {
    && (forall k :: j <= k < size ==> EnteredAt(f, quad, n, lo, shifts, k))
    && (forall p :: 0 <= p < n && b[p] != ss ==> quad[p] == quad0[p])
  }

  ghost predicate EnteredAt(f: seq<nat>, quad: seq<nat>, n: nat, lo: nat, shifts: nat, k: nat)
    requires lo + k < |f| && n <= |quad|
  {
    f[lo + k] < n && quad[f[lo + k]] == Shr(k, shifts)
  }

  /** The big bucket of ss. */
  ghost predicate BigBucket(b: seq<Byte>, r: seq<nat>, f: seq<nat>, ss: Byte, lo: nat, size: nat) {
    && AreRanks(b, r) && InBuckets(PairKeys(b), f) && |f| == |b|
    && lo == Start(PairKeys(b), PairOf(ss, 0)) && lo + size == Start(PairKeys(b), PairOf(ss, 255) + 1) <= |f|
    && forall i, j :: lo <= i < j < lo + size ==> NotAbove(r, f, f, i, j)
  }

  lemma InBig(b: seq<Byte>, r: seq<nat>, f: seq<nat>, ss: Byte, lo: nat, size: nat, k: nat)
    requires BigBucket(b, r, f, ss, lo, size) && k < |f|
    ensures f[k] < |b| && (b[f[k]] == ss <==> lo <= k < lo + size)
  {
    PlaceOrder(PairKeys(b), f, k, PairOf(ss, 0));
    PlaceOrder(PairKeys(b), f, k, PairOf(ss, 255) + 1);
  }

  /** The new quadrants never contradict the order. */
  lemma QuadrantsStayOk(b: seq<Byte>, r: seq<nat>, f: seq<nat>, quad0: seq<nat>, quad: seq<nat>, n: nat, ss: Byte,
                        lo: nat, size: nat, shifts: nat)
    requires BigBucket(b, r, f, ss, lo, size) && |b| == n <= |quad| == |quad0| && QuadrantsOk(b, r, quad0[..n])
    requires Entered(b, f, quad0, quad, n, ss, lo, size, shifts, 0)
    ensures QuadrantsOk(b, r, quad[..n])
  {
    forall p, q | 0 <= p < n && 0 <= q < n ensures Cached(b, r, quad[..n], p, q) {
      assert Cached(b, r, quad0[..n], p, q);
      if b[p] == b[q] == ss {
        var x := PlaceInBig(b, r, f, ss, lo, size, p);
        var y := PlaceInBig(b, r, f, ss, lo, size, q);
        assert EnteredAt(f, quad, n, lo, shifts, x) && EnteredAt(f, quad, n, lo, shifts, y);
        if y <= x { ShrOrder(y, x, shifts); } else { assert NotAbove(r, f, f, lo + x, lo + y); }
      }
    }
  }

  lemma PlaceInBig(b: seq<Byte>, r: seq<nat>, f: seq<nat>, ss: Byte, lo: nat, size: nat, p: nat) returns (x: nat)
    requires BigBucket(b, r, f, ss, lo, size) && p < |b| && b[p] == ss
    ensures x < size && f[lo + x] == p
  {
    PermutationIsOnto(f, |b|, p);
    var k :| 0 <= k < |f| && f[k] == p;
    InBig(b, r, f, ss, lo, size, k);
    x := k - lo;
  }

  lemma EnterOne(b: seq<Byte>, r: seq<nat>, f: seq<nat>, quad0: seq<nat>, quad: seq<nat>, quad': seq<nat>, n: nat,
                 ss: Byte, lo: nat, size: nat, shifts: nat, j: nat, next: nat)
    requires BigBucket(b, r, f, ss, lo, size) && |b| == n <= |quad| == |quad0| == |quad'| && next == j + 1 <= size
    requires Entered(b, f, quad0, quad, n, ss, lo, size, shifts, next)
    requires f[lo + j] < n && quad'[f[lo + j]] == Shr(j, shifts)
    requires forall p :: 0 <= p < n && p != f[lo + j] ==> quad'[p] == quad[p]
    ensures Entered(b, f, quad0, quad', n, ss, lo, size, shifts, j)
  {
    InBig(b, r, f, ss, lo, size, lo + j);
    forall k | j <= k < size ensures EnteredAt(f, quad', n, lo, shifts, k) {
      if k > j {
        assert EnteredAt(f, quad, n, lo, shifts, k) && Differ(f, lo + j, lo + k);
      }
    }
  }

  /** Step 3: records the order of the finished big bucket, in the overshoot area too. */
  method UpdateQuadrants(ptr: seq<nat>, block: seq<Byte>, quadrant: array<nat>, nblock: nat, bbStart: nat, bbSize: nat,
                         ghost ss: Byte, ghost b: seq<Byte>, ghost r: seq<nat>)
    requires Sortable(b, r, block, quadrant[..], nblock) && BigBucket(b, r, ptr, ss, bbStart, bbSize)
    modifies quadrant
    ensures Sortable(b, r, block, quadrant[..], nblock)
    ensures bbSize <= 65534 ==> Entered(b, ptr, old(quadrant[..]), quadrant[..], nblock, ss, bbStart, bbSize, 0, 0)
  {
    ghost var quad0 := quadrant[..];
    var shifts := Shifts(bbSize);
    for j := bbSize downto 0
      invariant Overshot(block, quadrant[..], nblock)
      invariant Entered(b, ptr, quad0, quadrant[..], nblock, ss, bbStart, bbSize, shifts, j)
    {
      ghost var quad := quadrant[..];
      InBig(b, r, ptr, ss, bbStart, bbSize, bbStart + j);
      var a2update, qVal := ptr[bbStart + j], Shr(j, shifts);
      quadrant[a2update] := qVal;
      if a2update < BZ_N_OVERSHOOT { quadrant[a2update + nblock] := qVal; }
      EnterOne(b, r, ptr, quad0, quad, quadrant[..], nblock, ss, bbStart, bbSize, shifts, j, j + 1);
    }
    QuadrantsStayOk(b, r, ptr, quad0, quadrant[..], nblock, ss, bbStart, bbSize, shifts);
    if bbSize > 0 {
      ShrOrder(bbSize - 1, bbSize, shifts);
      assert Shr(bbSize - 1, shifts) <= 65535;  // assertion 1002
    }
  }

  // ---------- mainSort ----------

  /** The main loop before its i-th turn: exactly the first i big buckets of the running order
      are complete. */
  ghost predicate Turning(order: seq<nat>, done: seq<bool>, i: nat) {
    && IsPermutation(order, 256) && |done| == 256 && i <= 256
    && forall k :: 0 <= k < 256 ==> DoneIs(order, done, i, k)
  }

  ghost predicate DoneIs(order: seq<nat>, done: seq<bool>, i: nat, k: nat)
    requires k < |order| && order[k] < |done|
  {
    done[order[k]] == (k < i)
  }

  lemma TurnDone(order: seq<nat>, done: seq<bool>, i: nat, next: nat)
    requires Turning(order, done, i) && next == i + 1 <= 256
    ensures order[i] < 256 && !done[order[i]] && Turning(order, done[order[i] := true], next)
  {
    var done' := done[order[i] := true];
    assert DoneIs(order, done, i, i);
    forall k | 0 <= k < 256 ensures DoneIs(order, done', next, k) {
      assert DoneIs(order, done, i, k);
      if k < i { assert Differ(order, k, i); }
      if i < k { assert Differ(order, i, k); }
    }
  }

  lemma AllTurned(order: seq<nat>, done: seq<bool>)
    requires Turning(order, done, 256)
    ensures forall c :: 0 <= c < 256 ==> done[c]
  {
    forall c | 0 <= c < 256 ensures done[c] {
      PermutationIsOnto(order, 256, c);
      var k :| 0 <= k < 256 && order[k] == c;
      assert DoneIs(order, done, 256, k);
    }
  }

  /** With every big bucket complete the rotations are in order. */
  lemma AllInOrder(b: seq<Byte>, r: seq<nat>, f: seq<nat>, ftab: seq<nat>, flags: seq<bool>, done: seq<bool>)
    requires Standing(b, r, f, ftab, flags) && FlagsOf(flags, done) && forall c :: 0 <= c < 256 ==> done[c]
    ensures IsRotationOrder(b, f)
  {
    var keys := PairKeys(b);
    forall v | 0 <= v < PAIRS ensures SmallDone(r, keys, f, v) { assert FlagIs(flags, done, v); }
    StartsBelow(keys, PAIRS);
    assert Start(keys, 0) == 0;
    forall i, j | 0 <= i < j < |f| ensures InOrder(b, f, |b|, i, j) {
      StretchInOrder(b, r, f, 0, PAIRS, i, j);
      assert Ranked(b, r, f[i], f[j]);
    }
  }

  /** A finished big bucket is in order as a whole. */
  lemma BigInOrder(b: seq<Byte>, r: seq<nat>, f: seq<nat>, ftab: seq<nat>, flags: seq<bool>, done: seq<bool>, ss: Byte)
    requires Standing(b, r, f, ftab, flags) && FlagsOf(flags, done) && done[ss]
    ensures var lo := Start(PairKeys(b), PairOf(ss, 0));
      var hi := Start(PairKeys(b), PairOf(ss, 255) + 1);
      lo <= hi && BigBucket(b, r, f, ss, lo, hi - lo)
  {
    var keys := PairKeys(b);
    StartGrows(keys, PairOf(ss, 0), PairOf(ss, 255) + 1);
    StartsBelow(keys, PairOf(ss, 255) + 1);
    forall v | PairOf(ss, 0) <= v < PairOf(ss, 255) + 1 ensures SmallDone(r, keys, f, v) {
      assert FlagIs(flags, done, v);
    }
    var lo, hi := Start(keys, PairOf(ss, 0)), Start(keys, PairOf(ss, 255) + 1);
    forall i, j | lo <= i < j < hi ensures NotAbove(r, f, f, i, j) {
      StretchInOrder(b, r, f, PairOf(ss, 0), PairOf(ss, 255) + 1, i, j);
    }
  }

  /** Steps 1 and 2 for one big bucket. */
  method FinishBig(ptr: array<nat>, block: seq<Byte>, quadrant: seq<nat>, ftab: array<nat>, nblock: nat,
                   bigDone: seq<bool>, ss: Byte, budget: int,
                   ghost b: seq<Byte>, ghost r: seq<nat>, ghost flags0: seq<bool>, ghost p: nat)
    returns (left: int, ghost flags: seq<bool>)
    requires ptr != ftab && Sortable(b, r, block, quadrant, nblock) && ptr.Length == nblock && budget >= 0
             && p < |b|
    requires Standing(b, r, ptr[..], ftab[..], flags0) && FlagsOf(flags0, bigDone) && !bigDone[ss]
    modifies ptr, ftab
    ensures left <= budget && Spent(budget, left, Cost(b), Compares(BigSize(b, ss)))
    ensures left >= 0 ==> Standing(b, r, ptr[..], ftab[..], flags) && FlagsOf(flags, bigDone[ss := true])
    ensures left >= 0 && TiesShare(b, r, quadrant[..nblock]) && Fresh(b, flags0, ss, p) ==>
            Charged(budget, left, nblock, Extra(Equals(b, r, p)))
  {
    ghost var flags1;
    left, flags1 := CompleteBig(ptr, block, quadrant, ftab, nblock, ss, budget, b, r, flags0, p);
    if left < 0 { return left, flags1; }
    assert !bigDone[ss];  // assertion 1006
    ghost var z := Sweep(b, r, ptr[..], bigDone, ss);
    ReadyToSweep(z, ftab[..], flags0, flags1);
    ghost var tab := ftab[..];
    SweepBig(ptr, block, nblock, ftab[..], bigDone, ss, z, flags1);
    ghost var g := ptr[..];
    assert ftab[..] == tab;
    flags := MarkColumn(ftab, ss, b, flags1);
    SweptIsRight(z, g, flags0, flags1, flags);
    assert ptr[..] == g;
  }

  /** The finished big bucket of ss, unless it is too full for a cell, has its places entered. */
  ghost predicate Recorded(b: seq<Byte>, r: seq<nat>, f: seq<nat>, quad0: seq<nat>, quad: seq<nat>, n: nat, ss: Byte) {
    var lo, size := Start(PairKeys(b), PairOf(ss, 0)), BigSize(b, ss);
    && BigBucket(b, r, f, ss, lo, size) && |b| == n <= |quad| == |quad0|
    && (size <= 65534 ==> Entered(b, f, quad0, quad, n, ss, lo, size, 0, 0))
  }

  /** Step 3 for a finished big bucket. */
  method RecordBig(ptr: seq<nat>, block: seq<Byte>, quadrant: array<nat>, ftab: seq<nat>, nblock: nat, ss: Byte,
                   ghost b: seq<Byte>, ghost r: seq<nat>, ghost flags: seq<bool>, ghost done: seq<bool>)
    requires Sortable(b, r, block, quadrant[..], nblock) && Standing(b, r, ptr, ftab, flags)
    requires FlagsOf(flags, done) && done[ss]
    modifies quadrant
    ensures Sortable(b, r, block, quadrant[..], nblock)
    ensures Recorded(b, r, ptr, old(quadrant[..]), quadrant[..], nblock, ss)
  {
    BigInOrder(b, r, ptr, ftab, flags, done, ss);
    EntriesAre(b, r, ptr, ftab, flags, PairOf(ss, 0));
    EntriesAre(b, r, ptr, ftab, flags, PairOf(ss, 255));
    var bbStart := Cleared(ftab[PairOf(ss, 0)]);
    var bbSize := Cleared(ftab[PairOf(ss, 255) + 1]) - bbStart;
    UpdateQuadrants(ptr, block, quadrant, nblock, bbStart, bbSize, ss, b, r);
  }

  /** What holds between the turns of the main loop. */
  ghost predicate BetweenTurns(b: seq<Byte>, r: seq<nat>, block: seq<Byte>, quadrant: seq<nat>, f: seq<nat>,
                               ftab: seq<nat>, flags: seq<bool>, done: seq<bool>, n: nat) {
    Sortable(b, r, block, quadrant, n) && Standing(b, r, f, ftab, flags) && FlagsOf(flags, done)
  }

  /** One turn of the main loop. */
  method TurnBig(ptr: array<nat>, block: seq<Byte>, quadrant: array<nat>, ftab: array<nat>, nblock: nat,
                 bigDone: seq<bool>, ss: Byte,
                 last: bool, budget: int, ghost b: seq<Byte>, ghost r: seq<nat>, ghost flags0: seq<bool>,
                 ghost p: nat)
    returns (left: int, ghost flags: seq<bool>)
    requires ptr != ftab && ptr != quadrant && ftab != quadrant && ptr.Length == nblock && budget >= 0
    requires BetweenTurns(b, r, block, quadrant[..], ptr[..], ftab[..], flags0, bigDone, nblock) && !bigDone[ss]
             && p < |b|
    modifies ptr, quadrant, ftab
    ensures left <= budget && Spent(budget, left, Cost(b), Compares(BigSize(b, ss)))
    ensures left >= 0 ==> BetweenTurns(b, r, block, quadrant[..], ptr[..], ftab[..], flags, bigDone[ss := true], nblock)
    ensures left >= 0 && TiesShare(b, r, old(quadrant[..])[..nblock]) && Fresh(b, flags0, ss, p) ==>
            Charged(budget, left, nblock, Extra(Equals(b, r, p)))
    ensures left >= 0 && !last ==> Recorded(b, r, ptr[..], old(quadrant[..]), quadrant[..], nblock, ss)
  {
    ghost var quad := quadrant[..];
    left, flags := FinishBig(ptr, block, quadrant[..], ftab, nblock, bigDone, ss, budget, b, r, flags0, p);
    assert quadrant[..] == quad;
    if left >= 0 && !last {
      ghost var f, tab := ptr[..], ftab[..];
      RecordBig(ptr[..], block, quadrant, ftab[..], nblock, ss, b, r, flags, bigDone[ss := true]);
      assert ptr[..] == f && ftab[..] == tab;
    }
  }

  /** The rotations in the big buckets that are complete, up to byte c. */
  ghost function DoneSize(b: seq<Byte>, done: seq<bool>, c: nat): nat
    requires c <= |done|
    decreases c, done, b
  {
    if c == 0 then 0 else DoneSize(b, done, c - 1) + (if done[c - 1] then BigSize(b, c - 1) else 0)
  }

  lemma {:induction false} DoneSizeGrows(b: seq<Byte>, done: seq<bool>, ss: nat, c: nat)
    requires c <= |done| && ss < |done| && !done[ss]
    ensures DoneSize(b, done[ss := true], c) == DoneSize(b, done, c) + (if ss < c then BigSize(b, ss) else 0)
    decreases c
  {
    if c > 0 { DoneSizeGrows(b, done, ss, c - 1); }
  }

  lemma {:induction false} DoneSizeBound(b: seq<Byte>, done: seq<bool>, c: nat)
    requires c <= |done|
    ensures DoneSize(b, done, c) <= Start(PairKeys(b), c * 256)
    decreases c
  {
    if c > 0 {
      DoneSizeBound(b, done, c - 1);
      StartGrows(PairKeys(b), (c - 1) * 256, c * 256);
    }
  }

  /** The rotations in the first i big buckets of the running order. */
  ghost function TurnsSize(b: seq<Byte>, order: seq<nat>, i: nat): nat
    requires i <= |order|
    decreases i, order, b
  {
    if i == 0 then 0 else TurnsSize(b, order, i - 1) + BigSize(b, order[i - 1])
  }

  lemma {:induction false} TurnsSizeGrows(b: seq<Byte>, order: seq<nat>, i: nat, j: nat)
    requires i <= j <= |order|
    ensures TurnsSize(b, order, i) <= TurnsSize(b, order, j)
    decreases j
  {
    if i < j { TurnsSizeGrows(b, order, i, j - 1); }
  }

  /** One turn more: the size of what is complete, in both ways of counting. */
  lemma TurnCounts(b: seq<Byte>, order: seq<nat>, done: seq<bool>, i: nat, next: nat)
    requires Turning(order, done, i) && next == i + 1 <= 256 && TurnsSize(b, order, i) == DoneSize(b, done, 256)
    ensures order[i] < 256 && TurnsSize(b, order, next) == DoneSize(b, done[order[i] := true], 256) <= |b|
  {
    TurnDone(order, done, i, next);
    DoneSizeGrows(b, done, order[i], 256);
    DoneSizeBound(b, done[order[i] := true], 256);
    StartsBelow(PairKeys(b), PAIRS);
  }

  /** What the first i turns have taken off the budget; done are the buckets they completed. */
  ghost predicate Budgeted(b: seq<Byte>, order: seq<nat>, done: seq<bool>, i: nat, budget: int, left: int) {
    && i <= |order| && 256 == |done| && TurnsSize(b, order, i) == DoneSize(b, done, 256) <= |b|
    && Spent(budget, left, Cost(b), Compares(TurnsSize(b, order, i)))
  }

  lemma NothingBudgeted(b: seq<Byte>, order: seq<nat>, done: seq<bool>, budget: int)
    requires |done| == 256 && forall i :: 0 <= i < 256 ==> !done[i]
    ensures Budgeted(b, order, done, 0, budget, budget)
  {
    NothingDoneYet(b, done, 256);
    NothingSpent(budget, Cost(b), 0);
  }

  lemma {:induction false} NothingDoneYet(b: seq<Byte>, done: seq<bool>, c: nat)
    requires c <= |done| && forall i :: 0 <= i < |done| ==> !done[i]
    ensures DoneSize(b, done, c) == 0
  {
    if c > 0 { NothingDoneYet(b, done, c - 1); }
  }

  lemma BudgetedMore(b: seq<Byte>, order: seq<nat>, done: seq<bool>, i: nat, next: nat, ss: Byte, budget: int,
                     left: int, less: int)
    requires Budgeted(b, order, done, i, budget, left) && Turning(order, done, i) && next == i + 1 <= 256
    requires ss == order[i] && Spent(left, less, Cost(b), Compares(BigSize(b, ss)))
    ensures Budgeted(b, order, done[ss := true], next, budget, less)
  {
    TurnCounts(b, order, done, i, next);
    SpentOnMore(budget, left, less, Cost(b), TurnsSize(b, order, i), BigSize(b, ss));
  }

  lemma BudgetedEnds(b: seq<Byte>, order: seq<nat>, done: seq<bool>, i: nat, count: nat, budget: int, left: int)
    requires Budgeted(b, order, done, i, budget, left) && i <= count <= |order|
    ensures Affordable(b, order, count, budget, left)
  {
    TurnsSizeGrows(b, order, i, count);
    SpentOnPart(budget, left, Cost(b), TurnsSize(b, order, i), TurnsSize(b, order, count));
    SpentOnPart(budget, left, Cost(b), TurnsSize(b, order, i), |b|);
  }

  /** The two bytes at p differ, and the big bucket of neither is complete. */
  ghost predicate NotYet(b: seq<Byte>, done: seq<bool>, p: nat)
    requires p < |b|
  {
    |done| == 256 && b[p] != b[Next(b, p)] && !done[b[p]] && !done[b[Next(b, p)]]
  }

  /** Turn i of the main sorting loop. */
  method Turn(ptr: array<nat>, block: seq<Byte>, quadrant: array<nat>, ftab: array<nat>, nblock: nat,
              order: seq<nat>, bigDone: seq<bool>, i: nat, budget: int, ghost budget0: int,
              ghost b: seq<Byte>, ghost r: seq<nat>, ghost flags0: seq<bool>, ghost p: nat)
    returns (left: int, done: seq<bool>, ghost flags: seq<bool>)
    requires ptr != ftab && ptr != quadrant && ftab != quadrant && ptr.Length == nblock && budget >= 0
    requires BetweenTurns(b, r, block, quadrant[..], ptr[..], ftab[..], flags0, bigDone, nblock)
    requires i < 256 && Turning(order, bigDone, i) && Budgeted(b, order, bigDone, i, budget0, budget)
             && p < |b|
    modifies ptr, quadrant, ftab
    ensures left <= budget && Turning(order, done, i + 1) && Budgeted(b, order, done, i + 1, budget0, left)
    ensures left >= 0 ==> BetweenTurns(b, r, block, quadrant[..], ptr[..], ftab[..], flags, done, nblock)
    ensures left >= 0 && TiesShare(b, r, old(quadrant[..])[..nblock]) && b[p] == order[i] && NotYet(b, bigDone, p) ==>
            Charged(budget, left, nblock, Extra(Equals(b, r, p)))
    ensures left >= 0 && i < 255 ==> Recorded(b, r, ptr[..], old(quadrant[..]), quadrant[..], nblock, order[i])
  {
    TurnDone(order, bigDone, i, i + 1);
    var ss: Byte := order[i];
    if b[p] == ss && NotYet(b, bigDone, p) { assert FlagIs(flags0, bigDone, Pair(b, p)); }
    left, flags := TurnBig(ptr, block, quadrant, ftab, nblock, bigDone, ss, i == 255, budget, b, r, flags0, p);
    BudgetedMore(b, order, bigDone, i, i + 1, ss, budget0, budget, left);
    done := bigDone[ss := true];
  }

  /** The last of some turns has recorded its big bucket. */
  ghost predicate RecordedLast(b: seq<Byte>, r: seq<nat>, f: seq<nat>, quad0: seq<nat>, quad: seq<nat>,
                               order: seq<nat>, count: nat) {
    0 < count <= |order| && order[count - 1] < 256 && Recorded(b, r, f, quad0, quad, |b|, order[count - 1])
  }

  /** The most that the first turns can take off the budget, and the whole sort. */
  ghost predicate Affordable(b: seq<Byte>, order: seq<nat>, count: nat, budget: int, left: int) {
    && count <= |order| && Spent(budget, left, Cost(b), Compares(TurnsSize(b, order, count)))
    && Spent(budget, left, Cost(b), Compares(|b|))
  }

  /** Nothing has been entered in quadrant. */
  ghost predicate Blank(quad: seq<nat>, n: nat) { n <= |quad| && forall i :: 0 <= i < n ==> quad[i] == 0 }

  lemma BlankShares(b: seq<Byte>, r: seq<nat>, quad: seq<nat>)
    requires |b| <= |r| && Blank(quad, |b|)
    ensures TiesShare(b, r, quad[..|b|])
  {
    forall p, q | 0 <= p < |b| && 0 <= q < |b| ensures TieShared(b, r, quad[..|b|], p, q) {}
  }

  /** The big bucket of every byte that occurs has its place in the order. */
  lemma BigHolds(b: seq<Byte>, f: seq<nat>, q: nat)
    requires InBuckets(PairKeys(b), f) && q < |b|
    ensures BigSize(b, b[q]) > 0
  {
    var keys, v := PairKeys(b), Pair(b, q);
    PermutationIsOnto(f, |b|, q);
    var x :| 0 <= x < |f| && f[x] == q;
    assert InBucket(keys, f, x);
    StartGrows(keys, v / 256 * 256, v);
    StartGrows(keys, v + 1, v / 256 * 256 + 256);
  }

  /** Recording an empty bucket enters nothing. */
  lemma StillBlank(b: seq<Byte>, r: seq<nat>, f: seq<nat>, quad0: seq<nat>, quad: seq<nat>, n: nat, ss: Byte)
    requires Recorded(b, r, f, quad0, quad, n, ss) && BigSize(b, ss) == 0 && Blank(quad0, n)
    ensures Blank(quad, n)
  {
    forall i | 0 <= i < n ensures quad[i] == 0 {
      if b[i] == ss { BigHolds(b, f, i); }
    }
  }

  /** Rotation p is of the first bucket in the running order that is not empty, and not of its own small bucket. */
  ghost predicate Leads(b: seq<Byte>, order: seq<nat>, k: nat, p: nat) {
    && p < |b| && k < |order| && order[k] == b[p] != b[Next(b, p)]
    && forall i :: 0 <= i < k ==> order[i] < 256 && BigSize(b, order[i]) == 0
  }

  lemma LeadsNotYet(b: seq<Byte>, f: seq<nat>, order: seq<nat>, done: seq<bool>, k: nat, p: nat)
    requires InBuckets(PairKeys(b), f) && Leads(b, order, k, p) && Turning(order, done, k)
    ensures NotYet(b, done, p)
  {
    var next: nat := b[Next(b, p)];
    assert DoneIs(order, done, k, k);
    PermutationIsOnto(order, 256, next);
    var x :| 0 <= x < 256 && order[x] == next;
    assert DoneIs(order, done, k, x);
    BigHolds(b, f, Next(b, p));
  }

  /** The comparisons of the rotations equal to p take more than the budget. */
  ghost predicate TooMany(b: seq<Byte>, r: seq<nat>, budget: int, p: nat)
    requires p < |b| <= |r|
  {
    budget < Rounds(|b|) * Extra(Equals(b, r, p))
  }

  lemma ChargedTooMany(b: seq<Byte>, r: seq<nat>, budget: int, before: int, left: int, p: nat)
    requires p < |b| <= |r| && TooMany(b, r, budget, p) && before <= budget
    requires Charged(before, left, |b|, Extra(Equals(b, r, p)))
    ensures left < 0
  {}

  /** The first turns of the main sorting loop. */
  method FirstTurns(ptr: array<nat>, block: seq<Byte>, quadrant: array<nat>, ftab: array<nat>, nblock: nat,
                    order: seq<nat>, count: nat, budget: int, ghost b: seq<Byte>, ghost r: seq<nat>, ghost k: nat,
                    ghost p: nat)
    returns (left: int, bigDone: seq<bool>, ghost flags: seq<bool>, ghost quad0: seq<nat>)
    requires ptr != ftab && ptr != quadrant && ftab != quadrant && ptr.Length == nblock && budget >= 0
    requires IsPermutation(order, 256) && count <= 256 && p < |b|
    requires Sortable(b, r, block, quadrant[..], nblock) && nblock <= 900000 && InBuckets(PairKeys(b), ptr[..])
    requires ftab.Length == PAIRS + 1 && forall v :: 0 <= v <= PAIRS ==> ftab[v] == Start(PairKeys(b), v)
    modifies ptr, quadrant, ftab
    ensures left <= budget && Affordable(b, order, count, budget, left)
    ensures left >= 0 ==> Turning(order, bigDone, count)
                          && BetweenTurns(b, r, block, quadrant[..], ptr[..], ftab[..], flags, bigDone, nblock)
    ensures left >= 0 && 0 < count < 256 ==> RecordedLast(b, r, ptr[..], quad0, quadrant[..], order, count)
    ensures Leads(b, order, k, p) && k < count && Blank(old(quadrant[..]), nblock) && TooMany(b, r, budget, p) ==>
            left < 0
  {
    quad0 := quadrant[..];
    bigDone := seq(256, _ => false);
    flags := seq(PAIRS + 1, _ => false);
    left := budget;
    ghost var heavy := Leads(b, order, k, p) && Blank(quadrant[..], nblock) && TooMany(b, r, budget, p);
    NothingDone(b, r, ptr[..], ftab[..], flags, bigDone, order);
    NothingBudgeted(b, order, bigDone, budget);
    for i := 0 to count
      invariant 0 <= left <= budget && Turning(order, bigDone, i) && Budgeted(b, order, bigDone, i, budget, left)
      invariant BetweenTurns(b, r, block, quadrant[..], ptr[..], ftab[..], flags, bigDone, nblock)
      invariant 0 < i < 256 ==> RecordedLast(b, r, ptr[..], quad0, quadrant[..], order, i)
      invariant heavy ==> i <= k && Blank(quadrant[..], nblock)
    {
      quad0 := quadrant[..];
      ghost var before := left;
      if heavy {
        BlankShares(b, r, quad0);
        if i == k { LeadsNotYet(b, ptr[..], order, bigDone, k, p); }
      }
      left, bigDone, flags := Turn(ptr, block, quadrant, ftab, nblock, order, bigDone, i, left, budget, b, r, flags, p);
      if left < 0 {
        BudgetedEnds(b, order, bigDone, i + 1, count, budget, left);
        return;
      }
      if heavy {
        if i == k { ChargedTooMany(b, r, budget, before, left, p); }
        StillBlank(b, r, ptr[..], quad0, quadrant[..], nblock, order[i]);
      }
    }
    BudgetedEnds(b, order, bigDone, count, count, budget, left);
  }

  /** The main sorting loop. */
  method SortBigBuckets(ptr: array<nat>, block: seq<Byte>, quadrant: array<nat>, ftab: array<nat>, nblock: nat,
                        order: seq<nat>, budget: int, ghost b: seq<Byte>, ghost r: seq<nat>, ghost k: nat, ghost p: nat)
    returns (left: int)
    requires ptr != ftab && ptr != quadrant && ftab != quadrant && ptr.Length == nblock && budget >= 0
             && IsPermutation(order, 256) && p < |b|
    requires Sortable(b, r, block, quadrant[..], nblock) && nblock <= 900000 && InBuckets(PairKeys(b), ptr[..])
    requires ftab.Length == PAIRS + 1 && forall v :: 0 <= v <= PAIRS ==> ftab[v] == Start(PairKeys(b), v)
    modifies ptr, quadrant, ftab
    ensures left >= 0 ==> IsRotationOrder(b, ptr[..])
    ensures Spent(budget, left, Cost(b), Compares(nblock))
    ensures Leads(b, order, k, p) && Blank(old(quadrant[..]), nblock) && TooMany(b, r, budget, p) ==> left < 0
  {
    var bigDone;
    ghost var flags, quad0;
    left, bigDone, flags, quad0 := FirstTurns(ptr, block, quadrant, ftab, nblock, order, 256, budget, b, r, k, p);
    if left >= 0 {
      AllTurned(order, bigDone);
      AllInOrder(b, r, ptr[..], ftab[..], flags, bigDone);
    }
  }

  lemma NothingDone(b: seq<Byte>, r: seq<nat>, f: seq<nat>, ftab: seq<nat>, flags: seq<bool>, done: seq<bool>,
                    order: seq<nat>)
    requires AreRanks(b, r) && |b| <= 900000 && InBuckets(PairKeys(b), f) && IsPermutation(order, 256)
    requires |ftab| == |flags| == PAIRS + 1 && |done| == 256 && forall v :: 0 <= v <= PAIRS ==>
             ftab[v] == Start(PairKeys(b), v) && !flags[v]
    requires forall c :: 0 <= c < 256 ==> !done[c]
    ensures Standing(b, r, f, ftab, flags) && FlagsOf(flags, done) && Turning(order, done, 0)
  {
    forall v | 0 <= v <= PAIRS ensures EntryIs(ftab, PairKeys(b), flags, v) { StartsBelow(PairKeys(b), v); }
    forall v | 0 <= v < PAIRS ensures FlagIs(flags, done, v) {}
    forall k | 0 <= k < 256 ensures DoneIs(order, done, 0, k) {}
  }

  /** Repeats the first cells behind the last ones. */
  method Overshoot(block: array<Byte>, quadrant: array<nat>, nblock: nat)
    requires BZ_N_OVERSHOOT < nblock && block.Length == quadrant.Length == nblock + BZ_N_OVERSHOOT
    requires forall i :: 0 <= i < nblock ==> quadrant[i] == 0
    modifies block, quadrant
    ensures block[..nblock] == old(block[..nblock]) && Overshot(block[..], quadrant[..], nblock)
    ensures forall i :: 0 <= i < nblock ==> quadrant[i] == 0
  {
    for i := 0 to BZ_N_OVERSHOOT
      invariant forall k :: 0 <= k < nblock ==> block[k] == old(block[k]) && quadrant[k] == 0
      invariant forall k :: nblock <= k < nblock + i ==> block[k] == block[k - nblock] && quadrant[k] == 0
    {
      block[nblock + i] := block[i];
      quadrant[nblock + i] := 0;
    }
  }

  /** The running order goes by size. */
  ghost predicate SizesRise(b: seq<Byte>, order: seq<nat>) {
    forall i, j :: 0 <= i < j < |order| ==> NoSmaller(b, order, i, j)
  }

  ghost predicate NoSmaller(b: seq<Byte>, order: seq<nat>, i: nat, j: nat)
    requires i < |order| && j < |order|
  {
    BigSize(b, order[i]) <= BigSize(b, order[j])
  }

  lemma FreqsAreSizes(b: seq<Byte>, ftab: seq<nat>, order: seq<nat>)
    requires |ftab| == PAIRS + 1 && (forall v :: 0 <= v <= PAIRS ==> ftab[v] == Start(PairKeys(b), v))
    requires forall c :: 0 <= c < 256 ==> FreqOk(ftab, c)
    requires HasKeys(order, BigFreqs(ftab)) && KeysSorted(order, BigFreqs(ftab), 0, |order|)
    ensures SizesRise(b, order)
  {
    forall i, j | 0 <= i < j < |order| ensures NoSmaller(b, order, i, j) {
      assert Key(order, BigFreqs(ftab), i) <= Key(order, BigFreqs(ftab), j);
    }
  }

  /** The initial radix sort, and the running order it gives. */
  method FirstSort(ptr: array<nat>, block: array<Byte>, quadrant: array<nat>, ftab: array<nat>, nblock: nat)
    returns (order: seq<nat>)
    requires ptr != quadrant && ptr != ftab && quadrant != ftab
    requires BZ_N_OVERSHOOT < nblock == ptr.Length && block.Length == quadrant.Length == nblock + BZ_N_OVERSHOOT
             && ftab.Length == PAIRS + 1
    modifies ptr, block, quadrant, ftab
    ensures block[..nblock] == old(block[..nblock]) && Overshot(block[..], quadrant[..], nblock)
    ensures forall i :: 0 <= i < nblock ==> quadrant[i] == 0
    ensures InBuckets(PairKeys(block[..nblock]), ptr[..]) && IsPermutation(order, 256)
    ensures forall v :: 0 <= v <= PAIRS ==> ftab[v] == Start(PairKeys(block[..nblock]), v)
    ensures SizesRise(block[..nblock], order)
  {
    ghost var b := block[..nblock];
    CountPairs(block[..], nblock, ftab, quadrant, b, PairKeys(b));
    ghost var counts := ftab[..];
    Overshoot(block, quadrant, nblock);
    assert ftab[..] == counts;
    Accumulate(ftab, PairKeys(b));
    DropPairs(block[..], nblock, ftab, ptr, b, PairKeys(b));
    forall c | 0 <= c < 256 ensures FreqOk(ftab[..], c) { StartGrows(PairKeys(b), c * 256, (c + 1) * 256); }
    var running := RunningOrder(BigFreqs(ftab[..]));
    order := running[..];
    FreqsAreSizes(b, ftab[..], order);
  }

  lemma NoneSpentAtAll(b: seq<Byte>, budget: int, left: int, c: nat)
    requires Spent(budget, left, Cost(b), c) && !Twice(b, 22)
    ensures left == budget
  {
    CostsNothing(b);
    NoneSpent(budget, left, Cost(b), c);
  }

  /** Not all bytes of the block are the same. */
  ghost predicate Varied(b: seq<Byte>) { exists p, q :: 0 <= p < |b| && 0 <= q < |b| && b[p] != b[q] }

  /** Going on from a byte, there is a last of those like it. */
  lemma {:induction false} Change(b: seq<Byte>, p: nat, q: nat) returns (x: nat)
    requires p <= q < |b| && b[p] != b[q]
    ensures p <= x < q && b[x] == b[p] && b[Next(b, x)] != b[p]
    decreases q - p
  {
    if b[p + 1] != b[p] { return p; }
    x := Change(b, p + 1, q);
  }

  lemma ChangeFrom(b: seq<Byte>, p: nat) returns (x: nat)
    requires Varied(b) && p < |b|
    ensures x < |b| && b[x] == b[p] != b[Next(b, x)]
  {
    var i, j :| 0 <= i < |b| && 0 <= j < |b| && b[i] != b[j];
    var q := if b[i] != b[p] then i else j;
    if p < q {
      x := Change(b, p, q);
    } else if b[|b| - 1] != b[p] {
      x := Change(b, p, |b| - 1);
    } else if b[0] != b[p] {
      x := |b| - 1;
    } else {
      x := Change(b, 0, q);
    }
  }

  lemma FirstLeads(b: seq<Byte>, f: seq<nat>, order: seq<nat>) returns (k: nat, p: nat)
    requires Varied(b) && InBuckets(PairKeys(b), f) && IsPermutation(order, 256)
    ensures Leads(b, order, k, p)
  {
    BigHolds(b, f, 0);
    PermutationIsOnto(order, 256, b[0]);
    k :| 0 <= k < 256 && order[k] == b[0];
    k := FirstHeld(b, order, k);
    var q := SomeOf(b, f, order[k]);
    p := ChangeFrom(b, q);
  }

  lemma SomeOf(b: seq<Byte>, f: seq<nat>, c: nat) returns (q: nat)
    requires InBuckets(PairKeys(b), f) && c < 256 && BigSize(b, c) > 0
    ensures q < |b| && b[q] == c
  {
    var keys := PairKeys(b);
    var x := Start(keys, c * 256);
    StartsBelow(keys, c * 256 + 256);
    PlaceOrder(keys, f, x, c * 256);
    PlaceOrder(keys, f, x, c * 256 + 256);
    q := f[x];
  }

  lemma {:induction false} FirstHeld(b: seq<Byte>, order: seq<nat>, m: nat) returns (k: nat)
    requires IsPermutation(order, 256) && m < 256 && BigSize(b, order[m]) > 0
    ensures k < 256 && BigSize(b, order[k]) > 0 && forall i :: 0 <= i < k ==> BigSize(b, order[i]) == 0
    decreases m
  {
    if i :| 0 <= i < m && BigSize(b, order[i]) > 0 {
      k := FirstHeld(b, order, i);
    } else {
      k := m;
    }
  }

  /** Wherever the sort starts, the comparisons of equal rotations take more than the budget. */
  ghost predicate AllTooMany(b: seq<Byte>, budget: int) {
    |b| > 0 && forall p: nat :: p < |b| ==> TooMany(b, Ranks(b), budget, p)
  }

  /** mainSort: unless the budget runs out, ptr ends up as a rotation order of the block. */
  method Sort(ptr: array<nat>, block: array<Byte>, quadrant: array<nat>, ftab: array<nat>, nblock: nat, budget: int)
    returns (left: int)
    requires ptr != quadrant && ptr != ftab && quadrant != ftab
    requires BZ_N_OVERSHOOT < nblock == ptr.Length <= 900000 && block.Length == quadrant.Length
             == nblock + BZ_N_OVERSHOOT
    requires ftab.Length == PAIRS + 1 && budget >= 0
    modifies ptr, block, quadrant, ftab
    ensures block[..nblock] == old(block[..nblock])
    ensures left >= 0 ==> IsRotationOrder(block[..nblock], ptr[..])
    ensures Spent(budget, left, Cost(block[..nblock]), Compares(nblock))
    ensures !Twice(block[..nblock], 22) ==> left == budget
    ensures Varied(block[..nblock]) && AllTooMany(block[..nblock], budget) ==> left < 0
  {
    ghost var b := block[..nblock];
    var order := FirstSort(ptr, block, quadrant, ftab, nblock);
    ghost var r := Ranks(b);
    RanksExist(b);
    forall p, q | 0 <= p < nblock && 0 <= q < nblock ensures Cached(b, r, quadrant[..nblock], p, q) {}
    ghost var k, p := 0, 0;
    if Varied(b) { k, p := FirstLeads(b, ptr[..], order); }
    left := SortBigBuckets(ptr, block[..], quadrant, ftab, nblock, order, budget, b, r, k, p);
    if Varied(b) && AllTooMany(b, budget) { assert TooMany(b, r, budget, p); }
    if !Twice(b, 22) { NoneSpentAtAll(b, budget, left, Compares(nblock)); }
  }
}
