/** A run of mainSort in which mainGtU stops being the strict order of rotations. */
module TieRun {
  import opened Basics
  import opened Rotations
  import opened Repetition
  import opened RunLengths
  import opened MainCompare
  import opened MainSimpleSort
  import opened MainRadix
  import opened MainScan
  import opened MainSort
  import opened MainTies

  // ---------- the block ----------

  const HALF: nat := 5000

  function ByteOf(i: nat): Byte {
    if i == HALF - 1 || i == 2 * HALF - 1 then 255 else 1 + i % 2
  }

  ghost predicate IsByte(b: seq<Byte>, i: nat)
    requires i < |b|
  {
    b[i] == ByteOf(i)
  }

  /** Five thousand bytes twice: 1 and 2 in turn, and a single 255 at the end. */
  ghost predicate IsTwice(b: seq<Byte>) { |b| == 2 * HALF && forall i: nat :: i < |b| ==> IsByte(b, i) }

  lemma TwiceExists() returns (b: seq<Byte>)
    ensures IsTwice(b)
  {
    b := seq(2 * HALF, i requires 0 <= i < 2 * HALF => ByteOf(i));
    forall i: nat | i < |b| ensures IsByte(b, i) {}
  }

  lemma TwiceRepeats(b: seq<Byte>)
    requires IsTwice(b)
    ensures Repeats(b)
  {
    forall i: nat | i + HALF < |b| ensures SameAfter(b, HALF, i) { assert IsByte(b, i) && IsByte(b, i + HALF); }
    assert RepeatsWith(b, HALF);
  }

  /** The encoder can have such a block: no byte of it repeats the one before. */
  lemma TwiceIsComplete(b: seq<Byte>)
    requires IsTwice(b)
    ensures Complete(b)
  {
    forall i: nat | i + 1 < |b| ensures b[i] != b[i + 1] { assert IsByte(b, i) && IsByte(b, i + 1); }
    NoTwinsIsComplete(b);
  }

  lemma {:induction false} NoTwinsIsComplete(s: seq<Byte>)
    requires forall i: nat {:trigger s[i]} :: i + 1 < |s| ==> s[i] != s[i + 1]
    ensures Complete(s)
    decreases |s|
  {
    if s != [] { NoTwinsIsComplete(s[1..]); }
  }

  // ---------- the sizes of its big buckets ----------

  /** The places of a big bucket hold exactly the rotations that start with its byte. */
  lemma PlacesOfBig(b: seq<Byte>, f: seq<nat>, c: Byte, k: nat)
    requires |b| > 0 && InBuckets(PairKeys(b), f) && k < |f|
    ensures f[k] < |b|
    ensures b[f[k]] == c <==> Start(PairKeys(b), c * 256) <= k < Start(PairKeys(b), c * 256) + BigSize(b, c)
  {
    assert InBucket(PairKeys(b), f, k);
    PlaceOrder(PairKeys(b), f, k, PairOf(c, 0));
    PlaceOrder(PairKeys(b), f, k, PairOf(c, 255) + 1);
  }

  lemma PlaceOfRotation(b: seq<Byte>, f: seq<nat>, c: Byte, p: nat) returns (k: nat)
    requires |b| > 0 && InBuckets(PairKeys(b), f) && p < |b| && b[p] == c
    ensures k < |f| && f[k] == p
    ensures Start(PairKeys(b), c * 256) <= k < Start(PairKeys(b), c * 256) + BigSize(b, c)
  {
    PermutationIsOnto(f, |b|, p);
    k :| 0 <= k < |f| && f[k] == p;
    PlacesOfBig(b, f, c, k);
  }

  /** Three rotations make a bucket of three or more. */
  lemma ThreeOf(b: seq<Byte>, f: seq<nat>, c: Byte, p: nat, q: nat, s: nat)
    requires |b| > 0 && InBuckets(PairKeys(b), f) && p < q < s < |b| && b[p] == b[q] == b[s] == c
    ensures BigSize(b, c) >= 3
  {
    var i := PlaceOfRotation(b, f, c, p);
    var j := PlaceOfRotation(b, f, c, q);
    var k := PlaceOfRotation(b, f, c, s);
  }

  lemma NoneOf(b: seq<Byte>, f: seq<nat>, c: Byte)
    requires |b| > 0 && InBuckets(PairKeys(b), f) && forall i :: 0 <= i < |b| ==> b[i] != c
    ensures BigSize(b, c) == 0
  {
    var lo := Start(PairKeys(b), c * 256);
    if BigSize(b, c) > 0 {
      StartsBelow(PairKeys(b), c * 256 + 256);
      PlacesOfBig(b, f, c, lo);
    }
  }

  lemma ThreeIn(b: seq<Byte>, f: seq<nat>, c: Byte) returns (p: nat, q: nat, s: nat)
    requires |b| > 0 && InBuckets(PairKeys(b), f) && BigSize(b, c) >= 3
    ensures p < |b| && q < |b| && s < |b| && b[p] == b[q] == b[s] == c && p != q && q != s && p != s
  {
    var lo := Start(PairKeys(b), c * 256);
    StartsBelow(PairKeys(b), c * 256 + 256);
    PlacesOfBig(b, f, c, lo);
    PlacesOfBig(b, f, c, lo + 1);
    PlacesOfBig(b, f, c, lo + 2);
    assert Differ(f, lo, lo + 1) && Differ(f, lo + 1, lo + 2) && Differ(f, lo, lo + 2);
    p, q, s := f[lo], f[lo + 1], f[lo + 2];
  }

  /** Two rotations and no other make a bucket of two. */
  lemma TwoOf(b: seq<Byte>, f: seq<nat>, c: Byte, p: nat, q: nat)
    requires |b| > 0 && InBuckets(PairKeys(b), f) && p < q < |b| && b[p] == b[q] == c
    requires forall i :: 0 <= i < |b| && b[i] == c ==> i == p || i == q
    ensures BigSize(b, c) == 2
  {
    var i := PlaceOfRotation(b, f, c, p);
    var j := PlaceOfRotation(b, f, c, q);
    if BigSize(b, c) > 2 { var x, y, z := ThreeIn(b, f, c); }
  }

  /** What the big buckets hold: two rotations for 255, many for 1 and 2, none for any other byte. */
  ghost predicate Sizes(b: seq<Byte>) {
    && BigSize(b, 255) == 2 && BigSize(b, 1) >= 3 && BigSize(b, 2) >= 3
    && forall c: Byte :: c != 255 && c != 1 && c != 2 ==> BigSize(b, c) == 0
  }

  lemma SizesAre(b: seq<Byte>, f: seq<nat>)
    requires IsTwice(b) && InBuckets(PairKeys(b), f)
    ensures Sizes(b)
  {
    assert IsByte(b, 0) && IsByte(b, 1) && IsByte(b, 2) && IsByte(b, 3) && IsByte(b, 4) && IsByte(b, 5);
    ThreeOf(b, f, 1, 0, 2, 4);
    ThreeOf(b, f, 2, 1, 3, 5);
    assert IsByte(b, HALF - 1) && IsByte(b, 2 * HALF - 1);
    forall i | 0 <= i < |b| && b[i] == 255 ensures i == HALF - 1 || i == 2 * HALF - 1 { assert IsByte(b, i); }
    TwoOf(b, f, 255, HALF - 1, 2 * HALF - 1);
    forall c: Byte | c != 255 && c != 1 && c != 2 ensures BigSize(b, c) == 0 {
      forall i | 0 <= i < |b| ensures b[i] != c { assert IsByte(b, i); }
      NoneOf(b, f, c);
    }
  }

  // ---------- the running order ----------

  /** 255 comes after empty buckets only, and is not the last. */
  lemma EmptyFirst(b: seq<Byte>, order: seq<nat>, k: nat)
    requires Sizes(b) && IsPermutation(order, 256) && SizesRise(b, order) && k < 256 && order[k] == 255
    ensures k < 255 && forall i :: 0 <= i < k ==> BigSize(b, order[i]) == 0
  {
    PermutationIsOnto(order, 256, 1);
    var one :| 0 <= one < 256 && order[one] == 1;
    assert one < k ==> NoSmaller(b, order, one, k);
    forall i | 0 <= i < k ensures BigSize(b, order[i]) == 0 {
      assert NoSmaller(b, order, i, k) && Differ(order, i, k);
    }
  }

  lemma {:induction false} EmptyTurns(b: seq<Byte>, order: seq<nat>, k: nat)
    requires k <= |order| && forall i :: 0 <= i < k ==> BigSize(b, order[i]) == 0
    ensures TurnsSize(b, order, k) == 0
  {
    if k > 0 { EmptyTurns(b, order, k - 1); }
  }

  /** Up to and with 255's, the turns make one comparison. */
  lemma OneComparison(b: seq<Byte>, order: seq<nat>, k: nat, budget: int, left: int)
    requires Sizes(b) && |b| == 2 * HALF && IsPermutation(order, 256) && SizesRise(b, order)
    requires k < 256 && order[k] == 255 && Affordable(b, order, k + 1, budget, left) && budget >= 2 * HALF
    ensures k < 255 && left >= 0
  {
    EmptyFirst(b, order, k);
    EmptyTurns(b, order, k);
    assert TurnsSize(b, order, k + 1) == 2;
    assert Compares(2) == 1 && Rounds(2 * HALF) == 1252;
  }

  // ---------- the run ----------

  /** The comparison is not the strict order of the rotations. */
  ghost predicate NotStrict(b: seq<Byte>, quadrant: seq<nat>) {
    && |b| > 0 && |quadrant| == |b| && AreRanks(b, Ranks(b))
    && exists p, q :: 0 <= p < |b| && 0 <= q < |b| && !Strict(b, Ranks(b), quadrant, p, q)
  }

  lemma NoLongerStrict(b: seq<Byte>, r: seq<nat>, f: seq<nat>, quad0: seq<nat>, quad: seq<nat>, order: seq<nat>,
                       turns: nat)
    requires IsTwice(b) && Sizes(b) && r == Ranks(b) && RecordedLast(b, r, f, quad0, quad, order, turns)
    requires order[turns - 1] == 255 && QuadrantsOk(b, r, quad[..|b|])
    ensures NotStrict(b, quad[..|b|])
  {
    TwiceRepeats(b);
    RanksExist(b);
    StrictUnlessRepeats(b, r, f, quad0, quad, 255);
  }

  method PlaceOf(order: seq<nat>, c: nat) returns (k: nat)
    requires IsPermutation(order, |order|) && c < |order|
    ensures k < |order| && order[k] == c
  {
    PermutationIsOnto(order, |order|, c);
    k := 0;
    while order[k] != c
      invariant k < |order| && forall i :: 0 <= i < k ==> order[i] != c
      decreases |order| - k
    {
      k := k + 1;
    }
  }

  /** Before the main loop: everything is in its bucket, and 255 is at a known place of the running order. */
  ghost predicate Begun(b: seq<Byte>, block: seq<Byte>, quadrant: seq<nat>, f: seq<nat>, ftab: seq<nat>,
                        order: seq<nat>, k: nat) {
    && |b| > 0 && Sortable(b, Ranks(b), block, quadrant, |b|) && InBuckets(PairKeys(b), f)
    && |ftab| == PAIRS + 1 && (forall v :: 0 <= v <= PAIRS ==> ftab[v] == Start(PairKeys(b), v))
    && IsPermutation(order, 256) && SizesRise(b, order) && Sizes(b) && k < 256 && order[k] == 255
  }

  method Begin(ptr: array<nat>, block: array<Byte>, quadrant: array<nat>, ftab: array<nat>, ghost b: seq<Byte>)
    returns (order: seq<nat>, k: nat)
    requires ptr != quadrant && ptr != ftab && quadrant != ftab && ptr.Length == 2 * HALF
    requires block.Length == quadrant.Length == 2 * HALF + BZ_N_OVERSHOOT && ftab.Length == PAIRS + 1
    requires block[..2 * HALF] == b && IsTwice(b)
    modifies ptr, block, quadrant, ftab
    ensures Begun(b, block[..], quadrant[..], ptr[..], ftab[..], order, k)
  {
    var nblock := 2 * HALF;
    order := FirstSort(ptr, block, quadrant, ftab, nblock);
    RanksExist(b);
    forall p, q | 0 <= p < nblock && 0 <= q < nblock ensures Cached(b, Ranks(b), quadrant[..nblock], p, q) {}
    SizesAre(b, ptr[..]);
    k := PlaceOf(order, 255);
  }

  method Proceed(ptr: array<nat>, block: seq<Byte>, quadrant: array<nat>, ftab: array<nat>, order: seq<nat>, k: nat,
                 budget: int, ghost b: seq<Byte>)
    returns (left: int)
    requires ptr != quadrant && ptr != ftab && quadrant != ftab && ptr.Length == 2 * HALF && budget >= 2 * HALF
    requires IsTwice(b) && Begun(b, block, quadrant[..], ptr[..], ftab[..], order, k)
    modifies ptr, quadrant, ftab
    ensures 0 <= left <= budget && k < 255 && 2 * HALF <= quadrant.Length && NotStrict(b, quadrant[..2 * HALF])
  {
    var bigDone;
    ghost var r := Ranks(b);
    ghost var flags, quad0;
    left, bigDone, flags, quad0 := FirstTurns(ptr, block, quadrant, ftab, 2 * HALF, order, k + 1, budget, b, r, 0, 0);
    OneComparison(b, order, k, budget, left);
    NoLongerStrict(b, r, ptr[..], quad0, quadrant[..], order, k + 1);
  }

  /** mainSort on this block, up to the first big bucket that is not empty: at every work factor of 4
      or more the budget lasts, step 3 records the bucket, and mainGtU is no longer the strict order. */
  method Run(ptr: array<nat>, block: array<Byte>, quadrant: array<nat>, ftab: array<nat>, wfact: nat,
             ghost b: seq<Byte>)
    returns (left: int, turns: nat)
    requires ptr != quadrant && ptr != ftab && quadrant != ftab && ptr.Length == 2 * HALF && 4 <= wfact <= 100
    requires block.Length == quadrant.Length == 2 * HALF + BZ_N_OVERSHOOT && ftab.Length == PAIRS + 1
    requires block[..2 * HALF] == b && IsTwice(b)
    modifies ptr, block, quadrant, ftab
    ensures 0 <= left <= 2 * HALF * ((wfact - 1) / 3) && 0 < turns < 256 && NotStrict(b, quadrant[..2 * HALF])
  {
    var budget := 2 * HALF * ((wfact - 1) / 3);
    var order, k := Begin(ptr, block, quadrant, ftab, b);
    left := Proceed(ptr, block[..], quadrant, ftab, order, k, budget, b);
    turns := k + 1;
  }
}
