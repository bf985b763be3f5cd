/** The state of step 2 of mainSort: which rows have been visited from either end, and
    which places of the small buckets have been filled. */
module MainSweep {
  import opened Basics
  import opened Rotations
  import opened BurrowsWheeler
  import opened Partitioning
  import opened MainCompare
  import opened MainRadix
  import opened MainScan

  /** Big bucket ss is scanned; f0 is the pointer array before, done tells the big buckets
      that are complete. */
  datatype Sweep = Sweep(b: seq<Byte>, r: seq<nat>, f0: seq<nat>, done: seq<bool>, ss: Byte) {
    ghost function S(c: Byte): nat { Start(PairKeys(b), PairOf(c, ss)) }

    ghost function E(c: Byte): nat { Start(PairKeys(b), PairOf(c, ss) + 1) }

    ghost function Lo(): nat { Start(PairKeys(b), PairOf(ss, 0)) }

    ghost function Hi(): nat { Start(PairKeys(b), PairOf(ss, 255) + 1) }
  }

  /** The small buckets of ss on either side of [ss, ss] are sorted. */
  ghost predicate Ready(z: Sweep) {
    && AreRanks(z.b, z.r) && InBuckets(PairKeys(z.b), z.f0) && |z.done| == 256 && !z.done[z.ss]
    && z.S(z.ss) <= z.E(z.ss) <= z.Hi() <= |z.f0| && HasKeys(z.f0, z.r)
    && (forall i, j :: z.Lo() <= i < j < z.S(z.ss) ==> NotAbove(z.r, z.f0, z.f0, i, j))
    && (forall i, j :: z.E(z.ss) <= i < j < z.Hi() ==> NotAbove(z.r, z.f0, z.f0, i, j))
  }

  /** Place k lies in a bucket [c, ss] and has been filled. */
  ghost predicate Written(z: Sweep, w: seq<nat>, t: seq<nat>, k: nat)
    requires k < |z.f0| && z.f0[k] < |z.b| && Within(z.b, w) && Within(z.b, t) && |z.done| == 256
  {
    var v := Pair(z.b, z.f0[k]);
    && v % 256 == z.ss && !z.done[v / 256]
    && (k < z.S(v / 256) + |Copied(z.b, w, v / 256)| || k >= z.E(v / 256) - |Copied(z.b, t, v / 256)|)
  }

  ghost predicate Kept(z: Sweep, g: seq<nat>, w: seq<nat>, t: seq<nat>, k: nat)
    requires k < |g| == |z.f0| && z.f0[k] < |z.b| && Within(z.b, w) && Within(z.b, t) && |z.done| == 256
  {
    !Written(z, w, t, k) ==> g[k] == z.f0[k]
  }

  ghost predicate LowCell(z: Sweep, g: seq<nat>, w: seq<nat>, c: Byte, x: nat)
    requires Within(z.b, w) && x < |Copied(z.b, w, c)|
  {
    z.S(c) + x < |g| && g[z.S(c) + x] == Copied(z.b, w, c)[x]
  }

  ghost predicate HighCell(z: Sweep, g: seq<nat>, t: seq<nat>, c: Byte, x: nat)
    requires Within(z.b, t) && x < |Copied(z.b, t, c)|
  {
    0 <= z.E(c) - 1 - x < |g| && g[z.E(c) - 1 - x] == Copied(z.b, t, c)[x]
  }

  /** Bucket [c, ss] holds the predecessors of the visited rows, from both ends. */
  ghost predicate Filled(z: Sweep, g: seq<nat>, w: seq<nat>, t: seq<nat>, c: Byte)
    requires Within(z.b, w) && Within(z.b, t)
  {
    && z.S(c) + |Copied(z.b, w, c)| + |Copied(z.b, t, c)| <= z.E(c)
    && (forall x :: 0 <= x < |Copied(z.b, w, c)| ==> LowCell(z, g, w, c, x))
    && (forall x :: 0 <= x < |Copied(z.b, t, c)| ==> HighCell(z, g, t, c, x))
  }

  /** With w visited from below and t from above: what g has become. */
  ghost predicate Scanned(z: Sweep, g: seq<nat>, w: seq<nat>, t: seq<nat>) {
    && Within(z.b, w) && Within(z.b, t) && |g| == |z.b| == |z.f0| && |z.done| == 256
    && (forall k :: 0 <= k < |z.f0| ==> z.f0[k] < |z.b|)
    && (forall c: Byte :: !z.done[c] ==> Filled(z, g, w, t, c))
    && (forall k :: 0 <= k < |g| ==> Kept(z, g, w, t, k))
  }

  /** The visited rows start with ss, are all different and in order. */
  ghost predicate Sorted(z: Sweep, w: seq<nat>, t: seq<nat>) {
    && Within(z.b, w) && Within(z.b, t) && Starting(z.b, w, z.ss) && Starting(z.b, t, z.ss) && Distinct(w + t)
    && RankUp(z.r, w) && RankDown(z.r, t) && RankApart(z.r, w, t)
  }

  /** w and t are the rows of big bucket ss from its two ends. */
  ghost predicate Rows(z: Sweep, g: seq<nat>, w: seq<nat>, t: seq<nat>)
    requires Within(z.b, w) && Within(z.b, t)
  {
    && z.Lo() + |w| <= z.S(z.ss) + |Copied(z.b, w, z.ss)|
    && z.E(z.ss) - |Copied(z.b, t, z.ss)| <= z.Hi() - |t|
    && z.Hi() <= |g|
    && (forall a :: 0 <= a < |w| ==> LowRow(z, g, w, a))
    && (forall a :: 0 <= a < |t| ==> HighRow(z, g, t, a))
  }

  ghost predicate LowRow(z: Sweep, g: seq<nat>, w: seq<nat>, a: nat)
    requires a < |w|
  {
    z.Lo() + a < |g| && g[z.Lo() + a] == w[a]
  }

  ghost predicate HighRow(z: Sweep, g: seq<nat>, t: seq<nat>, a: nat)
    requires a < |t|
  {
    0 <= z.Hi() - 1 - a < |g| && g[z.Hi() - 1 - a] == t[a]
  }

  lemma Bounds(z: Sweep)
    requires |z.b| > 0
    ensures z.Lo() <= z.S(z.ss) <= z.E(z.ss) <= z.Hi() <= |z.b|
    ensures AllPairs(PairKeys(z.b))
  {
    var keys := PairKeys(z.b);
    StartGrows(keys, PairOf(z.ss, 0), PairOf(z.ss, z.ss));
    StartGrows(keys, PairOf(z.ss, z.ss), PairOf(z.ss, z.ss) + 1);
    StartGrows(keys, PairOf(z.ss, z.ss) + 1, PairOf(z.ss, 255) + 1);
    StartsBelow(keys, PairOf(z.ss, 255) + 1);
  }

  lemma FirstOfPair(b: seq<Byte>, p: nat, c: Byte)
    requires p < |b| && PairOf(c, 0) <= Pair(b, p) <= PairOf(c, 255)
    ensures b[p] == c
  {
  }

  lemma LowOld(z: Sweep, g: seq<nat>, w: seq<nat>, t: seq<nat>, j: nat)
    requires Ready(z) && Scanned(z, g, w, t) && z.Lo() <= j < z.S(z.ss)
    ensures j < |g| && g[j] < |z.b| && z.b[g[j]] == z.ss
    ensures g[j] == z.f0[j] && Pair(z.b, g[j]) < PairOf(z.ss, z.ss)
  {
    Bounds(z);
    PlaceOrder(PairKeys(z.b), z.f0, j, PairOf(z.ss, z.ss));
    PlaceOrder(PairKeys(z.b), z.f0, j, PairOf(z.ss, 0));
    FirstOfPair(z.b, z.f0[j], z.ss);
    assert Kept(z, g, w, t, j);
  }

  lemma HighOld(z: Sweep, g: seq<nat>, w: seq<nat>, t: seq<nat>, j: nat)
    requires Ready(z) && Scanned(z, g, w, t) && z.E(z.ss) <= j < z.Hi()
    ensures j < |g| && g[j] < |z.b| && z.b[g[j]] == z.ss
    ensures g[j] == z.f0[j] && Pair(z.b, g[j]) > PairOf(z.ss, z.ss)
  {
    Bounds(z);
    PlaceOrder(PairKeys(z.b), z.f0, j, PairOf(z.ss, z.ss) + 1);
    PlaceOrder(PairKeys(z.b), z.f0, j, PairOf(z.ss, 255) + 1);
    FirstOfPair(z.b, z.f0[j], z.ss);
    assert Kept(z, g, w, t, j);
  }

  /** What stands in the low rows: first the old order, then copied predecessors. */
  lemma LowElement(z: Sweep, g: seq<nat>, w: seq<nat>, t: seq<nat>, j: nat)
    requires Ready(z) && Scanned(z, g, w, t) && Starting(z.b, w, z.ss)
    requires z.Lo() <= j < z.S(z.ss) + |Copied(z.b, w, z.ss)|
    ensures j < |g| && g[j] < |z.b| && z.b[g[j]] == z.ss
    ensures j < z.S(z.ss) ==> g[j] == z.f0[j] && Pair(z.b, g[j]) < PairOf(z.ss, z.ss)
    ensures j >= z.S(z.ss) ==> g[j] == Copied(z.b, w, z.ss)[j - z.S(z.ss)] && Pair(z.b, g[j]) == PairOf(z.ss, z.ss)
  {
    Bounds(z);
    assert Filled(z, g, w, t, z.ss);
    if j < z.S(z.ss) {
      LowOld(z, g, w, t, j);
    } else {
      CopiedKeyed(z.b, w, z.ss, z.ss);
      assert LowCell(z, g, w, z.ss, j - z.S(z.ss));
    }
  }

  lemma HighElement(z: Sweep, g: seq<nat>, w: seq<nat>, t: seq<nat>, j: nat)
    requires Ready(z) && Scanned(z, g, w, t) && Starting(z.b, t, z.ss)
    requires z.E(z.ss) - |Copied(z.b, t, z.ss)| <= j < z.Hi()
    ensures j < |g| && g[j] < |z.b| && z.b[g[j]] == z.ss
    ensures j >= z.E(z.ss) ==> g[j] == z.f0[j] && Pair(z.b, g[j]) > PairOf(z.ss, z.ss)
    ensures j < z.E(z.ss) ==> g[j] == Copied(z.b, t, z.ss)[z.E(z.ss) - 1 - j] && Pair(z.b, g[j]) == PairOf(z.ss, z.ss)
  {
    Bounds(z);
    assert Filled(z, g, w, t, z.ss);
    if j >= z.E(z.ss) {
      HighOld(z, g, w, t, j);
    } else {
      CopiedKeyed(z.b, t, z.ss, z.ss);
      assert HighCell(z, g, t, z.ss, z.E(z.ss) - 1 - j);
    }
  }

  /** Low rows differ and come in order. */
  lemma LowPair(z: Sweep, g: seq<nat>, w: seq<nat>, t: seq<nat>, i: nat, j: nat)
    requires Ready(z) && Scanned(z, g, w, t) && Sorted(z, w, t)
    requires z.Lo() <= i < j < z.S(z.ss) + |Copied(z.b, w, z.ss)|
    ensures j < |g| && g[i] != g[j] && NotAbove(z.r, g, g, i, j)
  {
    LowElement(z, g, w, t, i);
    LowElement(z, g, w, t, j);
    var m := z.S(z.ss);
    if j < m {
      assert Differ(z.f0, i, j) && NotAbove(z.r, z.f0, z.f0, i, j);
    } else if i < m {
      RankByPair(z.b, z.r, g[i], g[j]);
    } else {
      CopiedOrders(z.b, z.r, w, t, z.ss);
      CopiedBothDistinct(z.b, w, t, z.ss);
      var s := Copied(z.b, w, z.ss) + Copied(z.b, t, z.ss);
      assert Differ(s, i - m, j - m) && NotAbove(z.r, Copied(z.b, w, z.ss), Copied(z.b, w, z.ss), i - m, j - m);
    }
  }

  lemma HighPair(z: Sweep, g: seq<nat>, w: seq<nat>, t: seq<nat>, i: nat, j: nat)
    requires Ready(z) && Scanned(z, g, w, t) && Sorted(z, w, t)
    requires z.E(z.ss) - |Copied(z.b, t, z.ss)| <= i < j < z.Hi()
    ensures j < |g| && g[i] != g[j] && NotAbove(z.r, g, g, i, j)
  {
    HighElement(z, g, w, t, i);
    HighElement(z, g, w, t, j);
    var m := z.E(z.ss);
    if i >= m {
      assert Differ(z.f0, i, j) && NotAbove(z.r, z.f0, z.f0, i, j);
    } else if j >= m {
      RankByPair(z.b, z.r, g[i], g[j]);
    } else {
      CopiedOrders(z.b, z.r, w, t, z.ss);
      CopiedDistinct2(z, w, t, m - 1 - j, m - 1 - i);
      assert NotAbove(z.r, Copied(z.b, t, z.ss), Copied(z.b, t, z.ss), m - 1 - i, m - 1 - j);
    }
  }

  lemma CopiedDistinct2(z: Sweep, w: seq<nat>, t: seq<nat>, x: nat, y: nat)
    requires Sorted(z, w, t) && x < y < |Copied(z.b, t, z.ss)|
    ensures Copied(z.b, t, z.ss)[x] != Copied(z.b, t, z.ss)[y]
  {
    CopiedBothDistinct(z.b, w, t, z.ss);
    var l := |Copied(z.b, w, z.ss)|;
    assert Differ(Copied(z.b, w, z.ss) + Copied(z.b, t, z.ss), l + x, l + y);
  }

  lemma LowHighPair(z: Sweep, g: seq<nat>, w: seq<nat>, t: seq<nat>, i: nat, j: nat)
    requires Ready(z) && Scanned(z, g, w, t) && Sorted(z, w, t)
    requires z.Lo() <= i < z.S(z.ss) + |Copied(z.b, w, z.ss)|
    requires z.E(z.ss) - |Copied(z.b, t, z.ss)| <= j < z.Hi()
    ensures i < |g| && j < |g| && g[i] != g[j] && NotAbove(z.r, g, g, i, j)
  {
    LowElement(z, g, w, t, i);
    HighElement(z, g, w, t, j);
    var m, e := z.S(z.ss), z.E(z.ss);
    if i < m || j >= e {
      RankByPair(z.b, z.r, g[i], g[j]);
    } else {
      CopiedOrders(z.b, z.r, w, t, z.ss);
      CopiedBothDistinct(z.b, w, t, z.ss);
      var cw, ct := Copied(z.b, w, z.ss), Copied(z.b, t, z.ss);
      assert Differ(cw + ct, i - m, |cw| + (e - 1 - j)) && NotAbove(z.r, cw, ct, i - m, e - 1 - j);
    }
  }

  // ---------- visiting one more row ----------

  /** The next row from below. */
  lemma VisitLow(z: Sweep, g: seq<nat>, w: seq<nat>, j: nat, p: nat)
    requires Ready(z) && Scanned(z, g, w, []) && Sorted(z, w, []) && Rows(z, g, w, [])
    requires j == z.Lo() + |w| < z.S(z.ss) + |Copied(z.b, w, z.ss)| && j < |g| && p == g[j]
    ensures Sorted(z, w + [p], [])
  {
    var w' := w + [p];
    LowElement(z, g, w, [], j);
    forall a | 0 <= a < |w| ensures w[a] != p && NotAbove(z.r, g, g, z.Lo() + a, j) && w[a] == g[z.Lo() + a] {
      assert LowRow(z, g, w, a);
      LowPair(z, g, w, [], z.Lo() + a, j);
    }
    assert w + [] == w && w' + [] == w';
    forall i, k | 0 <= i < k < |w'| ensures Differ(w', i, k) && NotAbove(z.r, w', w', i, k) {
      if k < |w| { assert Differ(w, i, k) && NotAbove(z.r, w, w, i, k); }
    }
  }

  /** The next row from above. */
  lemma VisitHigh(z: Sweep, g: seq<nat>, w: seq<nat>, t: seq<nat>, j: nat, p: nat)
    requires Ready(z) && Scanned(z, g, w, t) && Sorted(z, w, t) && Rows(z, g, w, t)
    requires z.E(z.ss) - |Copied(z.b, t, z.ss)| <= j == z.Hi() - 1 - |t| && j < |g| && p == g[j]
    ensures Sorted(z, w, t + [p])
  {
    var t' := t + [p];
    HighElement(z, g, w, t, j);
    forall a | 0 <= a < |t| ensures t[a] != p && NotAbove(z.r, g, g, j, z.Hi() - 1 - a) && t[a] == g[z.Hi() - 1 - a] {
      assert HighRow(z, g, t, a);
      HighPair(z, g, w, t, j, z.Hi() - 1 - a);
    }
    forall a | 0 <= a < |w| ensures w[a] != p && NotAbove(z.r, g, g, z.Lo() + a, j) && w[a] == g[z.Lo() + a] {
      assert LowRow(z, g, w, a);
      LowHighPair(z, g, w, t, z.Lo() + a, j);
    }
    var old_, all := w + t, w + t';
    forall i, k | 0 <= i < k < |all| ensures Differ(all, i, k) {
      if k < |old_| {
        assert Differ(old_, i, k);
      } else if i >= |w| {
        assert all[i] == t[i - |w|];
      }
    }
    forall i, k | 0 <= i < k < |t'| ensures NotAbove(z.r, t', t', k, i) {
      if k < |t| { assert NotAbove(z.r, t, t, k, i); }
    }
    forall i, k | 0 <= i < |w| && 0 <= k < |t'| ensures NotAbove(z.r, w, t', i, k) {
      if k < |t| { assert NotAbove(z.r, w, t, i, k); }
    }
  }

  // ---------- filling one more place ----------

  /** Where the predecessor k of the visited rotation p goes: w2 and t2 are w and t with p added to
      one of them, at is the next free place of k's bucket at that end. */
  ghost predicate Storing(z: Sweep, w: seq<nat>, t: seq<nat>, w2: seq<nat>, t2: seq<nat>, p: nat, at: int)
    requires p < |z.b| && Within(z.b, w) && Within(z.b, t)
  {
    var c := z.b[Prev(z.b, p)];
    || (w2 == w + [p] && t2 == t && at == z.S(c) + |Copied(z.b, w, c)|)
    || (w2 == w && t2 == t + [p] && at == z.E(c) - 1 - |Copied(z.b, t, c)|)
  }

  lemma RoomFor(z: Sweep, w: seq<nat>, t: seq<nat>, c: Byte)
    requires Ready(z) && Sorted(z, w, t)
    ensures z.S(c) + |Copied(z.b, w, c)| + |Copied(z.b, t, c)| <= z.E(c) <= |z.b|
  {
    var keys, v := PairKeys(z.b), PairOf(c, z.ss);
    Bounds(z);
    CopiedBothDistinct(z.b, w, t, c);
    CopiedKeyed(z.b, w, z.ss, c);
    CopiedKeyed(z.b, t, z.ss, c);
    BucketRoom(keys, z.f0, v, Copied(z.b, w, c) + Copied(z.b, t, c));
    StartsBelow(keys, v + 1);
  }

  /** Different small buckets lie apart. */
  lemma BucketsApart(z: Sweep, c: Byte, d: Byte)
    requires c != d
    ensures z.E(c) <= z.S(d) || z.E(d) <= z.S(c)
  {
    if c < d {
      StartGrows(PairKeys(z.b), PairOf(c, z.ss) + 1, PairOf(d, z.ss));
    } else {
      StartGrows(PairKeys(z.b), PairOf(d, z.ss) + 1, PairOf(c, z.ss));
    }
  }

  lemma OthersUnmoved(z: Sweep, w: seq<nat>, t: seq<nat>, w2: seq<nat>, t2: seq<nat>, p: nat, at: int, c: Byte)
    requires p < |z.b| && Within(z.b, w) && Within(z.b, t) && Within(z.b, w2) && Within(z.b, t2)
    requires Storing(z, w, t, w2, t2, p, at)
    ensures var k := Prev(z.b, p);
      && Copied(z.b, w2, c) == Copied(z.b, w, c) + (if z.b[k] == c && w2 != w then [k] else [])
      && Copied(z.b, t2, c) == Copied(z.b, t, c) + (if z.b[k] == c && w2 == w then [k] else [])
  {
    CopiedSnoc(z.b, w, p, c);
    CopiedSnoc(z.b, t, p, c);
    assert |w + [p]| != |w|;
  }

  lemma StoreFills(z: Sweep, g: seq<nat>, g': seq<nat>, w: seq<nat>, t: seq<nat>, w2: seq<nat>, t2: seq<nat>, p: nat,
                   at: int, c: Byte)
    requires Ready(z) && Scanned(z, g, w, t) && Sorted(z, w2, t2) && p < |z.b| && Storing(z, w, t, w2, t2, p, at)
    requires var d := z.b[Prev(z.b, p)];
      if z.done[d] then g' == g else 0 <= at < |g| && g' == g[at := Prev(z.b, p)]
    requires !z.done[c]
    ensures Filled(z, g', w2, t2, c)
  {
    var d := z.b[Prev(z.b, p)];
    RoomFor(z, w2, t2, c);
    RoomFor(z, w2, t2, d);
    OthersUnmoved(z, w, t, w2, t2, p, at, c);
    OthersUnmoved(z, w, t, w2, t2, p, at, d);
    if c != d { BucketsApart(z, c, d); }
    assert Filled(z, g, w, t, c);
    forall x | 0 <= x < |Copied(z.b, w2, c)| ensures LowCell(z, g', w2, c, x) {
      if x < |Copied(z.b, w, c)| { assert LowCell(z, g, w, c, x); }
    }
    forall x | 0 <= x < |Copied(z.b, t2, c)| ensures HighCell(z, g', t2, c, x) {
      if x < |Copied(z.b, t, c)| { assert HighCell(z, g, t, c, x); }
    }
  }

  lemma StoreKeeps(z: Sweep, g: seq<nat>, g': seq<nat>, w: seq<nat>, t: seq<nat>, w2: seq<nat>, t2: seq<nat>, p: nat,
                   at: int, k: nat)
    requires Ready(z) && Scanned(z, g, w, t) && Sorted(z, w2, t2) && p < |z.b| && Storing(z, w, t, w2, t2, p, at)
    requires var d := z.b[Prev(z.b, p)];
      if z.done[d] then g' == g else 0 <= at < |g| && g' == g[at := Prev(z.b, p)]
    requires k < |g|
    ensures Kept(z, g', w2, t2, k)
  {
    var d := z.b[Prev(z.b, p)];
    var v := Pair(z.b, z.f0[k]);
    var c: Byte := v / 256;
    OthersUnmoved(z, w, t, w2, t2, p, at, c);
    assert Kept(z, g, w, t, k);
    if !z.done[d] && k == at {
      RoomFor(z, w2, t2, d);
      OthersUnmoved(z, w, t, w2, t2, p, at, d);
      BucketIff(PairKeys(z.b), z.f0, k, PairOf(d, z.ss));
      assert Written(z, w2, t2, k);
    }
  }

  /** The next free place is there, and filling it keeps step with the visits. */
  lemma Store(z: Sweep, g: seq<nat>, g': seq<nat>, w: seq<nat>, t: seq<nat>, w2: seq<nat>, t2: seq<nat>, p: nat,
              at: int)
    requires Ready(z) && Scanned(z, g, w, t) && Sorted(z, w2, t2) && p < |z.b| && Storing(z, w, t, w2, t2, p, at)
    requires var d := z.b[Prev(z.b, p)];
      if z.done[d] then g' == g else 0 <= at < |g| && g' == g[at := Prev(z.b, p)]
    ensures Scanned(z, g', w2, t2)
  {
    forall c: Byte | !z.done[c] ensures Filled(z, g', w2, t2, c) { StoreFills(z, g, g', w, t, w2, t2, p, at, c); }
    forall k | 0 <= k < |g'| ensures Kept(z, g', w2, t2, k) { StoreKeeps(z, g, g', w, t, w2, t2, p, at, k); }
  }

  lemma PlaceIsThere(z: Sweep, w: seq<nat>, t: seq<nat>, w2: seq<nat>, t2: seq<nat>, p: nat, at: int)
    requires Ready(z) && Within(z.b, w) && Within(z.b, t) && Sorted(z, w2, t2) && p < |z.b|
             && Storing(z, w, t, w2, t2, p, at)
    ensures var d := z.b[Prev(z.b, p)];
      z.S(d) + |Copied(z.b, w, d)| <= at < z.E(d) - |Copied(z.b, t, d)| && z.E(d) <= |z.b|
  {
    var d := z.b[Prev(z.b, p)];
    RoomFor(z, w2, t2, d);
    OthersUnmoved(z, w, t, w2, t2, p, at, d);
  }

  lemma OutsideBig(z: Sweep, d: Byte)
    requires d != z.ss
    ensures z.E(d) <= z.Lo() || z.Hi() <= z.S(d)
  {
    if d < z.ss {
      StartGrows(PairKeys(z.b), PairOf(d, z.ss) + 1, PairOf(z.ss, 0));
    } else {
      StartGrows(PairKeys(z.b), PairOf(z.ss, 255) + 1, PairOf(d, z.ss));
    }
  }

  /** The place filled is none of the visited rows. */
  lemma RowsStay(z: Sweep, g: seq<nat>, g': seq<nat>, w: seq<nat>, t: seq<nat>, w2: seq<nat>, t2: seq<nat>, j: nat,
                 p: nat, at: int)
    requires Ready(z) && Scanned(z, g, w, t) && Sorted(z, w2, t2) && Rows(z, g, w, t)
    requires p < |z.b| && Storing(z, w, t, w2, t2, p, at) && j < |g| && g[j] == p
    requires if w2 != w then j == z.Lo() + |w| < z.S(z.ss) + |Copied(z.b, w, z.ss)|
             else z.E(z.ss) - |Copied(z.b, t, z.ss)| <= j == z.Hi() - 1 - |t|
    requires var d := z.b[Prev(z.b, p)];
      if z.done[d] then g' == g else 0 <= at < |g| && g' == g[at := Prev(z.b, p)]
    ensures Rows(z, g', w2, t2)
  {
    PlaceIsFree(z, w, t, w2, t2, j, p, at);
    assert |w + [p]| != |w|;
    forall a | 0 <= a < |w2| ensures LowRow(z, g', w2, a) {
      if a < |w| { assert LowRow(z, g, w, a); }
    }
    forall a | 0 <= a < |t2| ensures HighRow(z, g', t2, a) {
      if a < |t| { assert HighRow(z, g, t, a); }
    }
  }

  /** The place filled lies outside the big bucket or between what its two scans have visited. */
  lemma PlaceIsFree(z: Sweep, w: seq<nat>, t: seq<nat>, w2: seq<nat>, t2: seq<nat>, j: nat, p: nat, at: int)
    requires Ready(z) && Within(z.b, w) && Within(z.b, t) && Sorted(z, w2, t2)
    requires p < |z.b| && Storing(z, w, t, w2, t2, p, at)
    requires if w2 != w then j == z.Lo() + |w| < z.S(z.ss) + |Copied(z.b, w, z.ss)|
             else z.E(z.ss) - |Copied(z.b, t, z.ss)| <= j == z.Hi() - 1 - |t|
    requires z.Lo() + |w| <= z.S(z.ss) + |Copied(z.b, w, z.ss)| && z.E(z.ss) - |Copied(z.b, t, z.ss)| <= z.Hi() - |t|
    ensures at < z.Lo() || z.Hi() <= at || z.Lo() + |w2| <= at < z.Hi() - |t2|
    ensures z.Lo() + |w2| <= z.S(z.ss) + |Copied(z.b, w2, z.ss)|
    ensures z.E(z.ss) - |Copied(z.b, t2, z.ss)| <= z.Hi() - |t2|
  {
    var d := z.b[Prev(z.b, p)];
    PlaceIsThere(z, w, t, w2, t2, p, at);
    if d != z.ss { OutsideBig(z, d); }
    OthersUnmoved(z, w, t, w2, t2, p, at, z.ss);
    assert |w + [p]| != |w|;
  }
}
