/** Why step 2 of mainSort works: scanning the finished parts of a big bucket from both ends
    and copying each rotation's predecessor puts whole small buckets in order. */
module MainScan {
  import opened Basics
  import opened Rotations
  import opened BurrowsWheeler
  import opened ByteCounts
  import opened Partitioning
  import opened MainCompare
  import opened MainRadix

  /** The small bucket of the bytes c and e. */
  function PairOf(c: Byte, e: Byte): (v: nat)
    ensures v < PAIRS && v / 256 == c && v % 256 == e
  {
    var hi: nat := c;
    hi * 256 + e
  }

  lemma PairOfPrev(b: seq<Byte>, p: nat)
    requires p < |b|
    ensures Pair(b, Prev(b, p)) == PairOf(b[Prev(b, p)], b[p])
  {}

  lemma RankByPair(b: seq<Byte>, r: seq<nat>, p: nat, q: nat)
    requires AreRanks(b, r) && p < |b| && q < |b| && Pair(b, p) < Pair(b, q)
    ensures r[p] <= r[q]
  {
    if b[p] < b[q] {
      RankByByte(b, r, p, q);
    } else {
      RankByByte(b, r, Next(b, p), Next(b, q));
      RankByNext(b, r, p, q);
    }
  }

  // ---------- buckets ----------

  lemma BucketIff(keys: seq<nat>, f: seq<nat>, k: nat, v: nat)
    requires InBuckets(keys, f) && k < |f|
    ensures keys[f[k]] == v <==> Start(keys, v) <= k < Start(keys, v + 1)
  {
    assert InBucket(keys, f, k);
    var w := keys[f[k]];
    if w < v { StartGrows(keys, w + 1, v); }
    if v < w { StartGrows(keys, v + 1, w); }
  }

  /** The places before a bucket hold smaller keys, those from it on do not. */
  lemma PlaceOrder(keys: seq<nat>, f: seq<nat>, k: nat, v: nat)
    requires InBuckets(keys, f) && k < |f|
    ensures keys[f[k]] < v <==> k < Start(keys, v)
  {
    assert InBucket(keys, f, k);
    var w := keys[f[k]];
    if w < v { StartGrows(keys, w + 1, v); } else { StartGrows(keys, v, w); }
  }

  /** All elements of s have key v. */
  ghost predicate AllKeyed(keys: seq<nat>, s: seq<nat>, v: nat) {
    forall i :: 0 <= i < |s| ==> s[i] < |keys| && keys[s[i]] == v
  }

  /** The rotations in a bucket, as a set. */
  lemma BucketElements(keys: seq<nat>, f: seq<nat>, v: nat) returns (s: seq<nat>)
    requires InBuckets(keys, f) && v < PAIRS && AllPairs(keys)
    ensures Start(keys, v) <= Start(keys, v + 1) <= |f| && s == f[Start(keys, v)..Start(keys, v + 1)]
    ensures |Elements(s)| == Count(keys, v)
    ensures forall p :: p in Elements(s) <==> 0 <= p < |keys| && keys[p] == v
  {
    StartsBelow(keys, v + 1);
    var a, z := Start(keys, v), Start(keys, v + 1);
    s := f[a..z];
    forall i, j | 0 <= i < j < |s| ensures Differ(s, i, j) { assert Differ(f, a + i, a + j); }
    InjectiveSize(s);
    forall p | p in Elements(s) ensures 0 <= p < |keys| && keys[p] == v {
      var i :| 0 <= i < |s| && s[i] == p;
      BucketIff(keys, f, a + i, v);
    }
    forall p | 0 <= p < |keys| && keys[p] == v ensures p in Elements(s) {
      PermutationIsOnto(f, |keys|, p);
      var k :| 0 <= k < |f| && f[k] == p;
      BucketIff(keys, f, k, v);
      assert s[k - a] == p;
    }
  }

  /** Distinct rotations with one key find room in its bucket; if they fill it, they are all. */
  lemma BucketRoom(keys: seq<nat>, f: seq<nat>, v: nat, s: seq<nat>)
    requires InBuckets(keys, f) && v < PAIRS && AllPairs(keys) && Distinct(s) && AllKeyed(keys, s, v)
    ensures |s| <= Count(keys, v)
  {
    var all := BucketElements(keys, f, v);
    InjectiveSize(s);
    SubsetSize(Elements(s), Elements(all));
  }

  lemma BucketFull(keys: seq<nat>, f: seq<nat>, v: nat, s: seq<nat>)
    requires InBuckets(keys, f) && v < PAIRS && AllPairs(keys)
    requires forall p :: 0 <= p < |keys| && keys[p] == v ==> p in s
    ensures |s| >= Count(keys, v)
  {
    var all := BucketElements(keys, f, v);
    ElementsSize(s);
    SubsetSize(Elements(all), Elements(s));
  }

  // ---------- copying predecessors ----------

  ghost predicate Within(b: seq<Byte>, w: seq<nat>) { forall a :: 0 <= a < |w| ==> w[a] < |b| }

  /** The bytes before the rotations of w. */
  ghost function Before(b: seq<Byte>, w: seq<nat>): (s: seq<Byte>)
    requires Within(b, w)
    ensures |s| == |w|
  {
    seq(|w|, a requires 0 <= a < |w| => b[Prev(b, w[a])])
  }

  /** The predecessors that start with c, in the order of w. */
  ghost function Copied(b: seq<Byte>, w: seq<nat>, c: Byte): (s: seq<nat>)
    requires Within(b, w)
    ensures |s| == |Places(Before(b, w), c)|
  {
    var at := Places(Before(b, w), c);
    seq(|at|, x requires 0 <= x < |at| => PlaceIs(Before(b, w), c, x); Prev(b, w[at[x]]))
  }

  /** Where the x-th copied predecessor comes from. */
  ghost function Source(b: seq<Byte>, w: seq<nat>, c: Byte, x: nat): (a: nat)
    requires Within(b, w) && x < |Copied(b, w, c)|
    ensures a < |w| && Copied(b, w, c)[x] == Prev(b, w[a]) && b[Prev(b, w[a])] == c
  {
    PlaceIs(Before(b, w), c, x);
    Places(Before(b, w), c)[x]
  }

  lemma SourcesIncrease(b: seq<Byte>, w: seq<nat>, c: Byte, x: nat, y: nat)
    requires Within(b, w) && x < y < |Copied(b, w, c)|
    ensures Source(b, w, c, x) < Source(b, w, c, y)
  {
    PlacesIncrease(Before(b, w), c, x, y);
  }

  lemma CopiedSnoc(b: seq<Byte>, w: seq<nat>, p: nat, c: Byte)
    requires Within(b, w) && p < |b|
    ensures Copied(b, w + [p], c) == Copied(b, w, c) + (if b[Prev(b, p)] == c then [Prev(b, p)] else [])
  {
    var s, t := Before(b, w), Before(b, w + [p]);
    assert t[..|t| - 1] == s;
    forall x | 0 <= x < |Copied(b, w, c)| ensures Copied(b, w + [p], c)[x] == Copied(b, w, c)[x] { PlaceIs(s, c, x); }
  }

  lemma CopiedNothing(b: seq<Byte>, c: Byte)
    ensures Copied(b, [], c) == []
  {}

  lemma {:induction false} CopiedConcat(b: seq<Byte>, w: seq<nat>, t: seq<nat>, c: Byte)
    requires Within(b, w) && Within(b, t)
    ensures Within(b, w + t) && Copied(b, w + t, c) == Copied(b, w, c) + Copied(b, t, c)
    decreases |t|
  {
    if t == [] {
      assert w + t == w;
    } else {
      var m := |t| - 1;
      CopiedConcat(b, w, t[..m], c);
      CopiedSnoc(b, w + t[..m], t[m], c);
      CopiedSnoc(b, t[..m], t[m], c);
      assert w + t == w + t[..m] + [t[m]] && t == t[..m] + [t[m]];
    }
  }

  lemma CopiedDistinct(b: seq<Byte>, w: seq<nat>, c: Byte)
    requires Within(b, w) && Distinct(w)
    ensures Distinct(Copied(b, w, c))
  {
    var s := Copied(b, w, c);
    forall x, y | 0 <= x < y < |s| ensures Differ(s, x, y) {
      SourcesIncrease(b, w, c, x, y);
      assert Differ(w, Source(b, w, c, x), Source(b, w, c, y));
    }
  }

  lemma CopiedBothDistinct(b: seq<Byte>, w: seq<nat>, t: seq<nat>, c: Byte)
    requires Within(b, w) && Within(b, t) && Distinct(w + t)
    ensures Distinct(Copied(b, w, c) + Copied(b, t, c))
  {
    CopiedConcat(b, w, t, c);
    CopiedDistinct(b, w + t, c);
  }

  lemma CopiedHas(b: seq<Byte>, w: seq<nat>, a: nat) returns (x: nat)
    requires Within(b, w) && a < |w|
    ensures var c := b[Prev(b, w[a])]; x < |Copied(b, w, c)| && Copied(b, w, c)[x] == Prev(b, w[a])
  {
    x := PlaceOf(Before(b, w), a);
  }

  /** All rotations of w start with ss. */
  ghost predicate Starting(b: seq<Byte>, w: seq<nat>, ss: Byte) {
    forall a :: 0 <= a < |w| ==> w[a] < |b| && b[w[a]] == ss
  }

  lemma CopiedKeyed(b: seq<Byte>, w: seq<nat>, ss: Byte, c: Byte)
    requires Starting(b, w, ss) && Within(b, w)
    ensures AllKeyed(PairKeys(b), Copied(b, w, c), PairOf(c, ss))
  {
    var s := Copied(b, w, c);
    forall x | 0 <= x < |s| ensures s[x] < |b| && PairKeys(b)[s[x]] == PairOf(c, ss) {
      var a := Source(b, w, c, x);
      PairOfPrev(b, w[a]);
    }
  }

  // ---------- orders ----------

  ghost predicate RankUp(r: seq<nat>, w: seq<nat>) {
    forall i, j :: 0 <= i < j < |w| ==> NotAbove(r, w, w, i, j)
  }

  ghost predicate RankDown(r: seq<nat>, t: seq<nat>) {
    forall i, j :: 0 <= i < j < |t| ==> NotAbove(r, t, t, j, i)
  }

  ghost predicate RankApart(r: seq<nat>, w: seq<nat>, t: seq<nat>) {
    forall i, j :: 0 <= i < |w| && 0 <= j < |t| ==> NotAbove(r, w, t, i, j)
  }

  ghost predicate NotAbove(r: seq<nat>, w: seq<nat>, t: seq<nat>, i: nat, j: nat)
    requires i < |w| && j < |t|
  {
    w[i] < |r| && t[j] < |r| && r[w[i]] <= r[t[j]]
  }

  /** Predecessors with the same byte are ordered as what they precede. */
  lemma CopiedNotAbove(b: seq<Byte>, r: seq<nat>, w: seq<nat>, t: seq<nat>, c: Byte, x: nat, y: nat)
    requires AreRanks(b, r) && Within(b, w) && Within(b, t) && x < |Copied(b, w, c)| && y < |Copied(b, t, c)|
    requires NotAbove(r, w, t, Source(b, w, c, x), Source(b, t, c, y))
    ensures NotAbove(r, Copied(b, w, c), Copied(b, t, c), x, y)
  {
    var p, q := w[Source(b, w, c, x)], t[Source(b, t, c, y)];
    RankByNext(b, r, Prev(b, p), Prev(b, q));
  }

  lemma CopiedOrders(b: seq<Byte>, r: seq<nat>, w: seq<nat>, t: seq<nat>, c: Byte)
    requires AreRanks(b, r) && Within(b, w) && Within(b, t) && RankUp(r, w) && RankDown(r, t) && RankApart(r, w, t)
    ensures RankUp(r, Copied(b, w, c)) && RankDown(r, Copied(b, t, c)) && RankApart(r, Copied(b, w, c), Copied(b, t, c))
  {
    var cw, ct := Copied(b, w, c), Copied(b, t, c);
    forall i, j | 0 <= i < j < |cw| ensures NotAbove(r, cw, cw, i, j) {
      SourcesIncrease(b, w, c, i, j);
      CopiedNotAbove(b, r, w, w, c, i, j);
    }
    forall i, j | 0 <= i < j < |ct| ensures NotAbove(r, ct, ct, j, i) {
      SourcesIncrease(b, t, c, i, j);
      CopiedNotAbove(b, r, t, t, c, j, i);
    }
    forall i, j | 0 <= i < |cw| && 0 <= j < |ct| ensures NotAbove(r, cw, ct, i, j) {
      CopiedNotAbove(b, r, w, t, c, i, j);
    }
  }
}
