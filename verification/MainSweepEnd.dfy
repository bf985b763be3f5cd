/** When both scans of step 2 are done: every small bucket [c, ss] is complete and in order,
    and assertion 1007 holds. */
module MainSweepEnd {
  import opened Basics
  import opened Rotations
  import opened BurrowsWheeler
  import opened Partitioning
  import opened MainCompare
  import opened MainRadix
  import opened MainScan
  import opened MainSweep

  /** The scans have caught up with the places they fill. */
  ghost predicate CaughtUp(z: Sweep, w: seq<nat>, t: seq<nat>)
    requires Within(z.b, w) && Within(z.b, t)
  {
    && z.Lo() + |w| == z.S(z.ss) + |Copied(z.b, w, z.ss)|
    && z.Hi() - |t| == z.E(z.ss) - |Copied(z.b, t, z.ss)|
  }

  ghost predicate ScansDone(z: Sweep, g: seq<nat>, w: seq<nat>, t: seq<nat>) {
    Ready(z) && Scanned(z, g, w, t) && Sorted(z, w, t) && Rows(z, g, w, t) && CaughtUp(z, w, t)
  }

  /** A rotation that starts with ss and another byte has been visited. */
  lemma EdgeVisited(z: Sweep, g: seq<nat>, w: seq<nat>, t: seq<nat>, q: nat)
    requires ScansDone(z, g, w, t) && q < |z.b| && z.b[q] == z.ss && Pair(z.b, q) != PairOf(z.ss, z.ss)
    ensures q in w || q in t
  {
    var keys, v := PairKeys(z.b), PairOf(z.ss, z.ss);
    PermutationIsOnto(z.f0, |z.b|, q);
    var k :| 0 <= k < |z.f0| && z.f0[k] == q;
    PlaceOrder(keys, z.f0, k, PairOf(z.ss, 0));
    PlaceOrder(keys, z.f0, k, PairOf(z.ss, 255) + 1);
    PlaceOrder(keys, z.f0, k, v);
    PlaceOrder(keys, z.f0, k, v + 1);
    if k < z.S(z.ss) {
      LowElement(z, g, w, t, k);
      assert LowRow(z, g, w, k - z.Lo());
    } else {
      HighElement(z, g, w, t, k);
      assert HighRow(z, g, t, z.Hi() - 1 - k);
    }
  }

  lemma PrevOfNext(b: seq<Byte>, k: nat)
    requires k < |b|
    ensures Next(b, k) < |b| && Prev(b, Next(b, k)) == k && Pair(b, k) == PairOf(b[k], b[Next(b, k)])
  {}

  /** The predecessor of a visited rotation has been copied. */
  lemma PredecessorCopied(z: Sweep, w: seq<nat>, k: nat)
    requires Within(z.b, w) && k < |z.b| && Next(z.b, k) in w
    ensures k in Copied(z.b, w, z.b[k])
  {
    PrevOfNext(z.b, k);
    var a :| 0 <= a < |w| && w[a] == Next(z.b, k);
    var x := CopiedHas(z.b, w, a);
  }

  /** What has been copied into [ss, ss] has been visited. */
  lemma CopiedIsVisited(z: Sweep, g: seq<nat>, w: seq<nat>, t: seq<nat>, k: nat)
    requires ScansDone(z, g, w, t)
    ensures k in Copied(z.b, w, z.ss) ==> k in w
    ensures k in Copied(z.b, t, z.ss) ==> k in t
  {
    Bounds(z);
    if k in Copied(z.b, w, z.ss) {
      var x :| 0 <= x < |Copied(z.b, w, z.ss)| && Copied(z.b, w, z.ss)[x] == k;
      var j := z.S(z.ss) + x;
      LowElement(z, g, w, t, j);
      assert LowRow(z, g, w, j - z.Lo());
    }
    if k in Copied(z.b, t, z.ss) {
      var x :| 0 <= x < |Copied(z.b, t, z.ss)| && Copied(z.b, t, z.ss)[x] == k;
      var j := z.E(z.ss) - 1 - x;
      RoomFor(z, w, t, z.ss);
      HighElement(z, g, w, t, j);
      assert HighRow(z, g, t, z.Hi() - 1 - j);
    }
  }

  /** A rotation of [ss, ss] that neither scan has reached. */
  ghost predicate Missed(z: Sweep, w: seq<nat>, t: seq<nat>, k: nat) {
    k < |z.b| && Pair(z.b, k) == PairOf(z.ss, z.ss) && k !in w && k !in t
  }

  /** Whoever is missed stands before another that is missed. */
  lemma MissedNext(z: Sweep, g: seq<nat>, w: seq<nat>, t: seq<nat>, k: nat)
    requires ScansDone(z, g, w, t) && Missed(z, w, t, k)
    ensures Missed(z, w, t, Next(z.b, k))
  {
    var q := Next(z.b, k);
    PrevOfNext(z.b, k);
    CopiedIsVisited(z, g, w, t, k);
    if q in w { PredecessorCopied(z, w, k); }
    if q in t { PredecessorCopied(z, t, k); }
    if Pair(z.b, q) != PairOf(z.ss, z.ss) { EdgeVisited(z, g, w, t, q); }
  }

  lemma {:induction false} MissedOnwards(z: Sweep, g: seq<nat>, w: seq<nat>, t: seq<nat>, k: nat, q: nat)
    requires ScansDone(z, g, w, t) && Missed(z, w, t, k) && k <= q < |z.b|
    ensures Missed(z, w, t, q)
    decreases q - k
  {
    if k < q {
      MissedNext(z, g, w, t, k);
      MissedOnwards(z, g, w, t, k + 1, q);
    }
  }

  /** So if one is missed all are, and nothing has been visited at all. */
  lemma AllMissed(z: Sweep, g: seq<nat>, w: seq<nat>, t: seq<nat>, k: nat)
    requires ScansDone(z, g, w, t) && Missed(z, w, t, k)
    ensures w == [] && t == [] && forall q :: 0 <= q < |z.b| ==> z.b[q] == z.ss && Pair(z.b, q) == PairOf(z.ss, z.ss)
  {
    var n := |z.b|;
    var p, q0 := if w != [] then w[0] else n, if t != [] then t[0] else n;
    assert !Missed(z, w, t, p) && !Missed(z, w, t, q0);
    MissedOnwards(z, g, w, t, k, n - 1);
    MissedNext(z, g, w, t, n - 1);
    forall q | 0 <= q < n
      ensures Missed(z, w, t, q) && z.b[q] == z.ss && Pair(z.b, q) == PairOf(z.ss, z.ss)
    {
      MissedOnwards(z, g, w, t, 0, q);
    }
  }

  // ---------- when none is missed ----------

  ghost predicate NoneMissed(z: Sweep, w: seq<nat>, t: seq<nat>) {
    forall k: nat :: !Missed(z, w, t, k)
  }

  /** Every rotation of [c, ss] has been copied. */
  lemma CopiedAll(z: Sweep, g: seq<nat>, w: seq<nat>, t: seq<nat>, c: Byte)
    requires ScansDone(z, g, w, t) && NoneMissed(z, w, t)
    ensures z.S(c) + |Copied(z.b, w, c)| + |Copied(z.b, t, c)| == z.E(c)
  {
    var keys, v := PairKeys(z.b), PairOf(c, z.ss);
    var s := Copied(z.b, w, c) + Copied(z.b, t, c);
    forall p | 0 <= p < |keys| && keys[p] == v ensures p in s {
      var q := Next(z.b, p);
      PrevOfNext(z.b, p);
      assert !Missed(z, w, t, q);
      if Pair(z.b, q) != PairOf(z.ss, z.ss) { EdgeVisited(z, g, w, t, q); }
      if q in w { PredecessorCopied(z, w, p); } else { PredecessorCopied(z, t, p); }
    }
    Bounds(z);
    BucketFull(keys, z.f0, v, s);
    RoomFor(z, w, t, c);
  }

  /** What place k of a filled bucket holds. */
  ghost function Index(z: Sweep, w: seq<nat>, t: seq<nat>, c: Byte, k: nat): int
    requires Within(z.b, w)
  {
    var l := |Copied(z.b, w, c)|;
    if k < z.S(c) + l then k - z.S(c) else l + (z.E(c) - 1 - k)
  }

  lemma CellIs(z: Sweep, g: seq<nat>, w: seq<nat>, t: seq<nat>, c: Byte, k: nat)
    requires ScansDone(z, g, w, t) && NoneMissed(z, w, t) && !z.done[c] && z.S(c) <= k < z.E(c)
    ensures var s := Copied(z.b, w, c) + Copied(z.b, t, c);
      k < |g| && 0 <= Index(z, w, t, c, k) < |s| && g[k] == s[Index(z, w, t, c, k)]
  {
    CopiedAll(z, g, w, t, c);
    assert Filled(z, g, w, t, c);
    if k < z.S(c) + |Copied(z.b, w, c)| {
      assert LowCell(z, g, w, c, k - z.S(c));
    } else {
      assert HighCell(z, g, t, c, z.E(c) - 1 - k);
    }
  }

  lemma BucketInOrder(z: Sweep, g: seq<nat>, w: seq<nat>, t: seq<nat>, c: Byte, i: nat, j: nat)
    requires ScansDone(z, g, w, t) && NoneMissed(z, w, t) && !z.done[c] && z.S(c) <= i < j < z.E(c)
    ensures j < |g| && g[i] != g[j] && NotAbove(z.r, g, g, i, j)
  {
    var cw, ct := Copied(z.b, w, c), Copied(z.b, t, c);
    var l, x, y := |cw|, Index(z, w, t, c, i), Index(z, w, t, c, j);
    CellIs(z, g, w, t, c, i);
    CellIs(z, g, w, t, c, j);
    CopiedBothDistinct(z.b, w, t, c);
    if x < y { assert Differ(cw + ct, x, y); } else { assert Differ(cw + ct, y, x); }
    CopiedOrders(z.b, z.r, w, t, c);
    if y < l {
      assert NotAbove(z.r, cw, cw, x, y);
    } else if x < l {
      assert NotAbove(z.r, cw, ct, x, y - l);
    } else {
      assert NotAbove(z.r, ct, ct, x - l, y - l);
    }
  }

  /** Place k still holds a rotation of its bucket. */
  lemma CellKey(z: Sweep, g: seq<nat>, w: seq<nat>, t: seq<nat>, k: nat)
    requires ScansDone(z, g, w, t) && NoneMissed(z, w, t) && k < |g|
    ensures g[k] < |z.b| && Pair(z.b, g[k]) == Pair(z.b, z.f0[k])
  {
    var v := Pair(z.b, z.f0[k]);
    var c: Byte := v / 256;
    assert Kept(z, g, w, t, k);
    if v % 256 == z.ss && !z.done[c] {
      BucketIff(PairKeys(z.b), z.f0, k, v);
      CellIs(z, g, w, t, c, k);
      CopiedKeyed(z.b, w, z.ss, c);
      CopiedKeyed(z.b, t, z.ss, c);
    }
  }

  lemma CellsDiffer(z: Sweep, g: seq<nat>, w: seq<nat>, t: seq<nat>, i: nat, j: nat)
    requires ScansDone(z, g, w, t) && NoneMissed(z, w, t) && i < j < |g|
    ensures g[i] != g[j]
  {
    CellKey(z, g, w, t, i);
    CellKey(z, g, w, t, j);
    var v := Pair(z.b, z.f0[i]);
    var c: Byte := v / 256;
    if v == Pair(z.b, z.f0[j]) {
      if v % 256 == z.ss && !z.done[c] {
        BucketIff(PairKeys(z.b), z.f0, i, v);
        BucketIff(PairKeys(z.b), z.f0, j, v);
        BucketInOrder(z, g, w, t, c, i, j);
      } else {
        assert Kept(z, g, w, t, i) && Kept(z, g, w, t, j) && Differ(z.f0, i, j);
      }
    }
  }

  lemma NewBuckets(z: Sweep, g: seq<nat>, w: seq<nat>, t: seq<nat>)
    requires ScansDone(z, g, w, t) && NoneMissed(z, w, t)
    ensures InBuckets(PairKeys(z.b), g)
  {
    var keys := PairKeys(z.b);
    forall k | 0 <= k < |g| ensures g[k] < |keys| && InBucket(keys, g, k) {
      CellKey(z, g, w, t, k);
      assert InBucket(keys, z.f0, k);
    }
    forall i, j | 0 <= i < j < |g| ensures Differ(g, i, j) { CellsDiffer(z, g, w, t, i, j); }
  }

  // ---------- when all are missed ----------

  lemma {:induction false} AllAlike(b: seq<Byte>, c: Byte, i: nat, j: nat, h: nat)
    requires |b| > 0 && forall q :: 0 <= q < |b| ==> b[q] == c
    ensures Cmp(b, i, j, h) == 0
    decreases h
  {
    if h > 0 {
      ByteAlike(b, c, i);
      ByteAlike(b, c, j);
      AllAlike(b, c, i + 1, j + 1, h - 1);
    }
  }

  lemma {:induction false} ByteAlike(b: seq<Byte>, c: Byte, i: nat)
    requires |b| > 0 && forall q :: 0 <= q < |b| ==> b[q] == c
    ensures At(b, i) == c
    decreases i
  {
    if i >= |b| { ByteAlike(b, c, i - |b|); }
  }

  // ---------- the result ----------

  /** Bucket [c, ss] is in order. */
  ghost predicate InRankOrder(r: seq<nat>, g: seq<nat>, lo: nat, hi: nat)
    requires hi <= |g|
  {
    forall i, j :: lo <= i < j < hi ==> NotAbove(r, g, g, i, j)
  }

  /** g lists all rotations in their buckets; the buckets [c, ss] of open c are in order, and
      the other buckets are as they were. */
  ghost predicate Swept(z: Sweep, g: seq<nat>) {
    && InBuckets(PairKeys(z.b), g) && |g| == |z.b| == |z.f0| && |z.done| == 256
    && (forall c: Byte :: !z.done[c] ==> z.E(c) <= |g| && InRankOrder(z.r, g, z.S(c), z.E(c)))
    && (forall k :: 0 <= k < |g| ==> Spared(z, g, k))
  }

  ghost predicate Spared(z: Sweep, g: seq<nat>, k: nat)
    requires k < |g| == |z.f0| && |z.done| == 256
  {
    z.f0[k] < |z.b| && (Pair(z.b, z.f0[k]) % 256 != z.ss || z.done[Pair(z.b, z.f0[k]) / 256] ==> g[k] == z.f0[k])
  }

  lemma ScansEnd(z: Sweep, g: seq<nat>, w: seq<nat>, t: seq<nat>)
    requires ScansDone(z, g, w, t)
    ensures Swept(z, g)
    ensures z.S(z.ss) + |Copied(z.b, w, z.ss)| == z.E(z.ss) - |Copied(z.b, t, z.ss)|
         || (z.S(z.ss) + |Copied(z.b, w, z.ss)| == 0 && z.E(z.ss) - |Copied(z.b, t, z.ss)| == |z.b|)
  {
    forall k | 0 <= k < |g| ensures Spared(z, g, k) { assert Kept(z, g, w, t, k); }
    if k: nat :| Missed(z, w, t, k) {
      AllMissed(z, g, w, t, k);
      NothingSwept(z, g, w, t);
    } else {
      NewBuckets(z, g, w, t);
      CopiedAll(z, g, w, t, z.ss);
      forall c: Byte | !z.done[c] ensures z.E(c) <= |g| && InRankOrder(z.r, g, z.S(c), z.E(c)) {
        RoomFor(z, w, t, c);
        forall i, j | z.S(c) <= i < j < z.E(c) ensures NotAbove(z.r, g, g, i, j) { BucketInOrder(z, g, w, t, c, i, j); }
      }
    }
  }

  /** A block of one byte only: nothing moves, and all rotations are equal. */
  lemma NothingSwept(z: Sweep, g: seq<nat>, w: seq<nat>, t: seq<nat>)
    requires ScansDone(z, g, w, t) && w == [] && t == []
    requires forall q :: 0 <= q < |z.b| ==> z.b[q] == z.ss && Pair(z.b, q) == PairOf(z.ss, z.ss)
    ensures g == z.f0 && z.S(z.ss) == 0 && z.E(z.ss) == |z.b|
    ensures forall c: Byte :: !z.done[c] ==> z.E(c) <= |g| && InRankOrder(z.r, g, z.S(c), z.E(c))
  {
    var n := |z.b|;
    forall k | 0 <= k < n ensures g[k] == z.f0[k] {
      assert Kept(z, g, w, t, k);
      BucketIff(PairKeys(z.b), z.f0, k, PairOf(z.ss, z.ss));
    }
    BucketIff(PairKeys(z.b), z.f0, 0, PairOf(z.ss, z.ss));
    BucketIff(PairKeys(z.b), z.f0, n - 1, PairOf(z.ss, z.ss));
    Bounds(z);
    forall c: Byte | !z.done[c] ensures z.E(c) <= |g| && InRankOrder(z.r, g, z.S(c), z.E(c)) {
      RoomFor(z, w, t, c);
      forall i, j | z.S(c) <= i < j < z.E(c) ensures NotAbove(z.r, g, g, i, j) {
        AllAlike(z.b, z.ss, g[i], g[j], n);
        assert Ranked(z.b, z.r, g[i], g[j]);
      }
    }
  }
}
