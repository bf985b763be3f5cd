/** When mainGtU is exactly the strict order of rotations. blocksort.c:964-984 describes the
    cached orderings as if smaller entries always meant smaller rotations; for equal rotations,
    which step 3 gives different entries, they do not. */
module MainTies {
  import opened Basics
  import opened MainRadix
  import opened MainScan
  import opened MainSort
  import opened Repetition
  import opened Rotations
  import opened BurrowsWheeler
  import opened MainCompare

  /** mainGtU is the strict order on rotations p and q. */
  ghost predicate Strict(b: seq<Byte>, r: seq<nat>, quadrant: seq<nat>, p: nat, q: nat)
    requires p < |b| && q < |b| && |b| <= |quadrant| && |b| <= |r|
  {
    Verdict(b, quadrant, p, q, 12, Compared(|b|)) > 0 <==> r[p] > r[q]
  }

  lemma EqualPrev(b: seq<Byte>, r: seq<nat>, p: nat, q: nat)
    requires AreRanks(b, r) && p < |b| && q < |b| && r[p] == r[q]
    ensures r[Prev(b, p)] == r[Prev(b, q)]
  {
    var n := |b|;
    assert Ranked(b, r, p, q) && Ranked(b, r, q, p);
    CmpAntisym(b, p, q, n);
    CmpZeroAt(b, p, q, n, n - 1);
    AtBefore(b, Prev(b, p));
    AtBefore(b, Prev(b, q));
    RankByNext(b, r, Prev(b, p), Prev(b, q));
    RankByNext(b, r, Prev(b, q), Prev(b, p));
  }

  function Behind(b: seq<Byte>, p: nat, k: nat): (r: nat)
    requires p < |b|
    ensures r < |b|
    decreases k, b, p
  {
    if k == 0 then p else Behind(b, Prev(b, p), k - 1)
  }

  /** The places that mainGtU compares by bytes alone lead to the rotations k places on. */
  lemma {:induction false} TiesSkipped(b: seq<Byte>, r: seq<nat>, quadrant: seq<nat>, p: nat, q: nat, k: nat, h: nat)
    requires AreRanks(b, r) && |b| <= |quadrant| && p < |b| && q < |b| && r[p] == r[q]
    ensures r[Behind(b, p, k)] == r[Behind(b, q, k)]
    ensures Verdict(b, quadrant, Behind(b, p, k), Behind(b, q, k), k, k + h) == Verdict(b, quadrant, p, q, 0, h)
    decreases k
  {
    if k > 0 {
      EqualPrev(b, r, p, q);
      var p', q' := Behind(b, p, k), Behind(b, q, k);
      TiesSkipped(b, r, quadrant, Prev(b, p), Prev(b, q), k - 1, h + 1);
      OneSkipped(b, r, quadrant, p', q', Prev(b, p), Prev(b, q), k - 1, h);
    }
  }

  /** One skipped place more or less makes no difference where the entries there are not looked at. */
  lemma {:induction false} OneSkipped(b: seq<Byte>, r: seq<nat>, quadrant: seq<nat>, p: nat, q: nat, p1: nat,
                                      q1: nat, k: nat, h: nat)
    requires AreRanks(b, r) && |b| <= |quadrant| && p < |b| && q < |b| && p1 < |b| && q1 < |b|
    requires p == Behind(b, p1, k) && q == Behind(b, q1, k) && r[p1] == r[q1]
    ensures Verdict(b, quadrant, p, q, k + 1, k + 1 + h) == Verdict(b, quadrant, Next(b, p1), Next(b, q1), 0, h)
    decreases k
  {
    if k == 0 {
      EqualNext(b, r, p1, q1);
    } else {
      BehindNext(b, p1, k);
      BehindNext(b, q1, k);
      BehindEqual(b, r, p1, q1, k);
      EqualNext(b, r, p, q);
      OneSkipped(b, r, quadrant, Next(b, p), Next(b, q), p1, q1, k - 1, h);
    }
  }

  lemma {:induction false} BehindNext(b: seq<Byte>, p: nat, k: nat)
    requires p < |b| && k > 0
    ensures Next(b, Behind(b, p, k)) == Behind(b, p, k - 1)
    decreases k
  {
    if k > 1 { BehindNext(b, Prev(b, p), k - 1); }
  }

  lemma {:induction false} BehindEqual(b: seq<Byte>, r: seq<nat>, p: nat, q: nat, k: nat)
    requires AreRanks(b, r) && p < |b| && q < |b| && r[p] == r[q]
    ensures r[Behind(b, p, k)] == r[Behind(b, q, k)]
    decreases k
  {
    if k > 0 {
      EqualPrev(b, r, p, q);
      BehindEqual(b, r, Prev(b, p), Prev(b, q), k - 1);
    }
  }

  /** mainGtU is the strict order of all rotations exactly when equal rotations share their
      entries. */
  lemma StrictWhenTiesShare(b: seq<Byte>, r: seq<nat>, quadrant: seq<nat>)
    requires AreRanks(b, r) && QuadrantsOk(b, r, quadrant)
    ensures (forall p, q :: 0 <= p < |b| && 0 <= q < |b| ==> Strict(b, r, quadrant, p, q))
       <==> TiesShare(b, r, quadrant)
  {
    var h := Compared(|b|);
    if TiesShare(b, r, quadrant) {
      forall p, q | 0 <= p < |b| && 0 <= q < |b| ensures Strict(b, r, quadrant, p, q) {
        VerdictDecides(b, r, quadrant, p, q, 12, h);
        if r[p] == r[q] { TiesAreTies(b, r, quadrant, p, q, 12, h); }
      }
    }
    if forall p, q :: 0 <= p < |b| && 0 <= q < |b| ==> Strict(b, r, quadrant, p, q) {
      forall p, q | 0 <= p < |b| && 0 <= q < |b| ensures TieShared(b, r, quadrant, p, q) {
        if r[p] == r[q] { StrictSharesTie(b, r, quadrant, p, q); }
      }
    }
  }

  lemma StrictSharesTie(b: seq<Byte>, r: seq<nat>, quadrant: seq<nat>, p: nat, q: nat)
    requires AreRanks(b, r) && |b| <= |quadrant| && p < |b| && q < |b| && r[p] == r[q]
    requires forall x, y :: 0 <= x < |b| && 0 <= y < |b| ==> Strict(b, r, quadrant, x, y)
    ensures quadrant[p] == quadrant[q]
  {
    var h := Compared(|b|) - 12;
    TiesSkipped(b, r, quadrant, p, q, 12, h);
    TiesSkipped(b, r, quadrant, q, p, 12, h);
    EqualNext(b, r, p, q);
    assert Strict(b, r, quadrant, Behind(b, p, 12), Behind(b, q, 12));
    assert Strict(b, r, quadrant, Behind(b, q, 12), Behind(b, p, 12));
  }

  // ---------- after a big bucket has been recorded ----------

  /** Step 3 gives different entries to different rotations of a bucket whose places fit a cell. */
  lemma RecordedApart(b: seq<Byte>, r: seq<nat>, f: seq<nat>, quad0: seq<nat>, quad: seq<nat>, n: nat,
                      ss: Byte, lo: nat, size: nat, p: nat, q: nat)
    requires BigBucket(b, r, f, ss, lo, size) && |b| == n <= |quad| == |quad0|
    requires Entered(b, f, quad0, quad, n, ss, lo, size, 0, 0)
    requires p < n && q < n && p != q && b[p] == b[q] == ss
    ensures quad[p] != quad[q]
  {
    var x := PlaceInBig(b, r, f, ss, lo, size, p);
    var y := PlaceInBig(b, r, f, ss, lo, size, q);
    assert EnteredAt(f, quad, n, lo, 0, x) && EnteredAt(f, quad, n, lo, 0, y);
  }

  /** Some other rotation equals rotation p. */
  ghost predicate Tied(b: seq<Byte>, r: seq<nat>, p: nat)
    requires |r| == |b|
  {
    p < |b| && exists q :: 0 <= q < |b| && q != p && r[q] == r[p]
  }

  lemma TiedNext(b: seq<Byte>, r: seq<nat>, p: nat)
    requires AreRanks(b, r) && Tied(b, r, p)
    ensures Tied(b, r, Next(b, p))
  {
    var q :| 0 <= q < |b| && q != p && r[q] == r[p];
    EqualNext(b, r, q, p);
    assert Next(b, q) != Next(b, p);
  }

  lemma {:induction false} TiedOnwards(b: seq<Byte>, r: seq<nat>, p: nat, q: nat)
    requires AreRanks(b, r) && Tied(b, r, p) && p <= q < |b|
    ensures Tied(b, r, q)
    decreases q - p
  {
    if p < q {
      TiedNext(b, r, p);
      TiedOnwards(b, r, p + 1, q);
    }
  }

  /** If one rotation has an equal, the block repeats itself, and every rotation has one. */
  lemma TiedEverywhere(b: seq<Byte>, r: seq<nat>, p: nat, q: nat)
    requires AreRanks(b, r) && Tied(b, r, p) && q < |b|
    ensures Tied(b, r, q)
  {
    TiedOnwards(b, r, p, |b| - 1);
    TiedNext(b, r, |b| - 1);
    TiedOnwards(b, r, 0, q);
  }

  /** A big bucket holds no two equal rotations. */
  ghost predicate NoTies(r: seq<nat>, f: seq<nat>, lo: nat, size: nat)
    requires lo + size <= |f|
  {
    forall i, j :: lo <= i < j < lo + size ==> Apart(r, f, i, j)
  }

  ghost predicate Apart(r: seq<nat>, f: seq<nat>, i: nat, j: nat)
    requires i < |f| && j < |f|
  {
    f[i] < |r| && f[j] < |r| && r[f[i]] != r[f[j]]
  }

  /** Once a big bucket of at most 65534 rotations is recorded, mainGtU is the strict order of all
      rotations exactly when that bucket holds no two equal ones. */
  lemma StrictAfterRecording(b: seq<Byte>, r: seq<nat>, f: seq<nat>, quad0: seq<nat>, quad: seq<nat>, n: nat,
                             ss: Byte, lo: nat, size: nat)
    requires BigBucket(b, r, f, ss, lo, size) && size > 0 && |b| == n <= |quad| == |quad0|
    requires Entered(b, f, quad0, quad, n, ss, lo, size, 0, 0) && QuadrantsOk(b, r, quad[..n])
    ensures (forall p, q :: 0 <= p < n && 0 <= q < n ==> Strict(b, r, quad[..n], p, q)) <==> NoTies(r, f, lo, size)
  {
    StrictWhenTiesShare(b, r, quad[..n]);
    if NoTies(r, f, lo, size) {
      forall p, q | 0 <= p < n && 0 <= q < n ensures TieShared(b, r, quad[..n], p, q) {
        if r[p] == r[q] && p != q { TieInBucket(b, r, f, ss, lo, size, p, q); }
      }
    } else {
      var i, j :| lo <= i < j < lo + size && !Apart(r, f, i, j);
      InBig(b, r, f, ss, lo, size, i);
      InBig(b, r, f, ss, lo, size, j);
      assert Differ(f, i, j);
      RecordedApart(b, r, f, quad0, quad, n, ss, lo, size, f[i], f[j]);
      assert !TieShared(b, r, quad[..n], f[i], f[j]);
    }
  }

  /** Equal rotations anywhere mean equal rotations in every big bucket. */
  lemma TieInBucket(b: seq<Byte>, r: seq<nat>, f: seq<nat>, ss: Byte, lo: nat, size: nat, p: nat, q: nat)
    requires BigBucket(b, r, f, ss, lo, size) && size > 0 && p < |b| && q < |b| && p != q && r[p] == r[q]
    ensures !NoTies(r, f, lo, size)
  {
    InBig(b, r, f, ss, lo, size, lo);
    var x := f[lo];
    TiedEverywhere(b, r, p, x);
    var y :| 0 <= y < |b| && y != x && r[y] == r[x];
    EqualNext(b, r, y, x);
    var k := PlaceInBig(b, r, f, ss, lo, size, y);
    assert !Apart(r, f, lo, lo + k);
  }

  // ---------- in terms of the block ----------

  lemma EqualRanks(b: seq<Byte>, r: seq<nat>, p: nat, q: nat)
    requires AreRanks(b, r) && p < |b| && q < |b|
    ensures r[p] == r[q] <==> Cmp(b, p, q, |b|) == 0
  {
    assert Ranked(b, r, p, q) && Ranked(b, r, q, p);
    CmpAntisym(b, p, q, |b|);
  }

  lemma NoTieUnlessRepeats(b: seq<Byte>, r: seq<nat>, p: nat, q: nat)
    requires AreRanks(b, r) && p < |b| && q < |b| && p != q && r[p] == r[q]
    ensures Repeats(b)
  {
    EqualRanks(b, r, p, q);
    EqualRanks(b, r, q, p);
    if p < q { EqualIsRepetition(b, p, q); } else { EqualIsRepetition(b, q, p); }
  }

  /** On a block that is no repetition, mainGtU is the strict order at every moment of the sort. */
  lemma StrictWithoutRepetition(b: seq<Byte>, r: seq<nat>, quadrant: seq<nat>)
    requires AreRanks(b, r) && QuadrantsOk(b, r, quadrant) && !Repeats(b)
    ensures forall p, q :: 0 <= p < |b| && 0 <= q < |b| ==> Strict(b, r, quadrant, p, q)
  {
    forall p, q | 0 <= p < |b| && 0 <= q < |b| ensures TieShared(b, r, quadrant, p, q) {
      if r[p] == r[q] && p != q { NoTieUnlessRepeats(b, r, p, q); }
    }
    StrictWhenTiesShare(b, r, quadrant);
  }

  /** Once step 3 has recorded a big bucket of 1 to 65534 rotations, mainGtU is the strict order if
      and only if the block is not a shorter one over and over. */
  lemma StrictUnlessRepeats(b: seq<Byte>, r: seq<nat>, f: seq<nat>, quad0: seq<nat>, quad: seq<nat>, ss: Byte)
    requires Recorded(b, r, f, quad0, quad, |b|, ss) && 0 < BigSize(b, ss) <= 65534 && QuadrantsOk(b, r, quad[..|b|])
    ensures (forall p, q :: 0 <= p < |b| && 0 <= q < |b| ==> Strict(b, r, quad[..|b|], p, q)) <==> !Repeats(b)
  {
    var lo, size := Start(PairKeys(b), PairOf(ss, 0)), BigSize(b, ss);
    StrictAfterRecording(b, r, f, quad0, quad, |b|, ss, lo, size);
    if !Repeats(b) {
      StrictWithoutRepetition(b, r, quad[..|b|]);
    } else {
      var k: nat :| RepeatsWith(b, k);
      RepetitionIsEqual(b, k);
      EqualRanks(b, r, 0, k);
      TieInBucket(b, r, f, ss, lo, size, 0, k);
    }
  }
}
