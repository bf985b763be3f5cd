/** fallbackSort of blocksort.c: sorts the rotations of a block by prefix doubling
    (an exponential radix sort), whatever the block looks like. */
module FallbackSort {
  import opened Basics
  import opened ByteCounts
  import opened Rotations
  import opened Rearranging
  import opened PrefixDoubling
  import opened BurrowsWheeler
  import opened Partitioning
  import opened FallbackQSort

  // ---------- the initial radix sort by one byte ----------

  /** Counts the bytes of the block. */
  method CountBytes(block: array<Byte>, nblock: nat, ftab: array<nat>)
    requires nblock <= block.Length && ftab.Length == 257
    modifies ftab
    ensures forall c :: 0 <= c < 256 ==> ftab[c] == |Places(block[..nblock], c)|
    ensures ftab[256] == 0
  {
    for i := 0 to 257
      invariant forall c :: 0 <= c < i ==> ftab[c] == 0
    {
      ftab[i] := 0;
    }
    for i := 0 to nblock
      invariant forall c :: 0 <= c < 256 ==> ftab[c] == |Places(block[..i], c)|
      invariant ftab[256] == 0
    {
      assert block[..i + 1][..i] == block[..i];
      ftab[block[i]] := ftab[block[i]] + 1;
    }
  }

  /** Turns counts into the end of each byte's bucket. */
  method Accumulate(ghost s: seq<Byte>, ftab: array<nat>)
    requires ftab.Length == 257 && ftab[256] == 0
    requires forall c :: 0 <= c < 256 ==> ftab[c] == |Places(s, c)|
    modifies ftab
    ensures forall c :: 0 <= c < 256 ==> ftab[c] == Below(s, c + 1)
  {
    assert Below(s, 1) == |Places(s, 0)| by { assert Below(s, 0) == 0; }
    for i := 1 to 257
      invariant forall c :: 0 <= c < i && c < 256 ==> ftab[c] == Below(s, c + 1)
      invariant forall c :: i <= c < 256 ==> ftab[c] == |Places(s, c)|
    {
      ftab[i] := ftab[i] + ftab[i - 1];
    }
  }

  /** Places b[..i] of the block have been dropped into their buckets, from the top. */
  ghost predicate Dropped(b: seq<Byte>, f: seq<nat>, ftab: seq<nat>, i: nat)
    requires i <= |b| == |f| && |ftab| == 257
  {
    forall c :: 0 <= c < 256 ==>
      && |Places(b[..i], c)| <= |Places(b, c)|
      && ftab[c] == Below(b, c + 1) - |Places(b[..i], c)|
      && DroppedByte(b, f, i, c)
  }

  ghost predicate DroppedByte(b: seq<Byte>, f: seq<nat>, i: nat, c: Byte)
    requires i <= |b| == |f|
  {
    forall a :: 0 <= a < |Places(b[..i], c)| ==> Holds(f, Below(b, c + 1) - 1 - a, Places(b[..i], c)[a])
  }

  ghost predicate Holds(f: seq<nat>, k: int, v: nat) { 0 <= k < |f| && f[k] == v }

  lemma {:induction false} PrefixPlaces(b: seq<Byte>, i: nat, c: Byte)
    requires i <= |b|
    ensures |Places(b[..i], c)| <= |Places(b, c)|
    ensures forall a :: 0 <= a < |Places(b[..i], c)| ==> Places(b, c)[a] == Places(b[..i], c)[a]
    decreases |b|
  {
    if i < |b| {
      PrefixPlaces(b[..|b| - 1], i, c);
      assert b[..|b| - 1][..i] == b[..i];
    } else {
      assert b[..i] == b;
    }
  }

  lemma DropStep(b: seq<Byte>, f: seq<nat>, ftab: seq<nat>, i: nat)
    requires i < |b| == |f| && |ftab| == 257 && Dropped(b, f, ftab, i)
    ensures 1 <= ftab[b[i]] <= |f|
    ensures Dropped(b, f[ftab[b[i]] - 1 := i], ftab[b[i] := ftab[b[i]] - 1], i + 1)
  {
    var d := b[i];
    assert b[..i + 1][..i] == b[..i];
    PrefixPlaces(b, i + 1, d);
    BucketsApart(b, d, |Places(b[..i], d)|, d, |Places(b[..i], d)|);
    var k := ftab[d] - 1;
    var g := f[k := i];
    forall c | 0 <= c < 256 ensures |Places(b[..i + 1], c)| <= |Places(b, c)| {
      PrefixPlaces(b, i + 1, c);
    }
    var next := i + 1;
    forall c | 0 <= c < 256 ensures DroppedByte(b, g, next, c) {
      DropByteStep(b, f, i, c, d, k);
    }
  }

  lemma DropByteStep(b: seq<Byte>, f: seq<nat>, i: nat, c: Byte, d: Byte, k: nat)
    requires i < |b| == |f| && DroppedByte(b, f, i, c) && d == b[i]
    requires |Places(b[..i + 1], d)| <= |Places(b, d)|
    requires |Places(b[..i + 1], c)| <= |Places(b, c)|
    requires k < |f| && k == Below(b, d + 1) - 1 - |Places(b[..i], d)|
    ensures DroppedByte(b, f[k := i], i + 1, c)
  {
    assert b[..i + 1][..i] == b[..i];
    var g := f[k := i];
    var before, after := Places(b[..i], c), Places(b[..i + 1], c);
    forall a | 0 <= a < |after| ensures Holds(g, Below(b, c + 1) - 1 - a, after[a]) {
      BucketsApart(b, c, a, d, |Places(b[..i], d)|);
      if a < |before| { assert Holds(f, Below(b, c + 1) - 1 - a, before[a]); }
    }
  }

  lemma BelowTotal(b: seq<Byte>)
    ensures Below(b, 256) == |b|
  {
    BelowAll(b, 256);
  }

  /** Different bytes have different buckets. */
  lemma BucketsApart(b: seq<Byte>, c: Byte, a: nat, d: Byte, e: nat)
    requires a < |Places(b, c)| && e < |Places(b, d)|
    ensures c != d ==> Below(b, c + 1) - 1 - a != Below(b, d + 1) - 1 - e
    ensures 0 <= Below(b, c + 1) - 1 - a < |b|
  {
    BelowTotal(b);
    BelowMonotone(b, c + 1, 256);
    if c < d { BelowMonotone(b, c + 1, d); }
    if d < c { BelowMonotone(b, d + 1, c); }
  }

  /** Sorts the positions by their byte; ftab ends up with the start of each bucket. */
  method DropIntoBuckets(block: array<Byte>, nblock: nat, ftab: array<nat>, fmap: array<nat>)
    requires fmap != ftab && nblock <= block.Length && ftab.Length == 257 && fmap.Length == nblock
    requires forall c :: 0 <= c < 256 ==> ftab[c] == Below(block[..nblock], c + 1)
    modifies ftab, fmap
    ensures Dropped(block[..nblock], fmap[..], ftab[..], nblock)
  {
    ghost var b := block[..nblock];
    assert b[..0] == [];
    for i := 0 to nblock
      invariant Dropped(b, fmap[..], ftab[..], i)
    {
      DropStep(b, fmap[..], ftab[..], i);
      ghost var f, g := fmap[..], ftab[..];
      var j := block[i];
      var k := ftab[j] - 1;
      ftab[j] := k;
      fmap[k] := i;
      assert fmap[..] == f[k := i] && ftab[..] == g[j := k];
    }
  }

  /** Which bucket place k belongs to. */
  lemma {:induction false} BucketOf(b: seq<Byte>, k: nat, c: nat) returns (d: Byte)
    requires c <= 256 && k < Below(b, c)
    ensures Below(b, d) <= k < Below(b, d + 1)
  {
    if k >= Below(b, c - 1) {
      d := c - 1;
    } else {
      d := BucketOf(b, k, c - 1);
    }
  }

  /** Place k holds a position of its bucket's byte. */
  lemma DroppedAt(b: seq<Byte>, f: seq<nat>, ftab: seq<nat>, k: nat) returns (c: Byte, a: nat)
    requires |b| == |f| && |ftab| == 257 && Dropped(b, f, ftab, |b|) && k < |b|
    ensures Below(b, c) <= k < Below(b, c + 1) && a < |Places(b, c)| && k == Below(b, c + 1) - 1 - a
    ensures f[k] == Places(b, c)[a] && f[k] < |b| && b[f[k]] == c
  {
    BelowTotal(b);
    c := BucketOf(b, k, 256);
    a := Below(b, c + 1) - 1 - k;
    assert b[..|b|] == b;
    assert DroppedByte(b, f, |b|, c);
    assert Holds(f, k, Places(b, c)[a]);
    PlaceIs(b, c, a);
  }

  lemma DroppedDistinct(b: seq<Byte>, f: seq<nat>, ftab: seq<nat>, j: nat, k: nat)
    requires |b| == |f| && |ftab| == 257 && Dropped(b, f, ftab, |b|) && j < k < |b|
    ensures f[j] < |b| && f[k] < |b| && f[j] != f[k] && b[f[j]] <= b[f[k]]
  {
    var c, a := DroppedAt(b, f, ftab, j);
    var d, e := DroppedAt(b, f, ftab, k);
    if c == d {
      PlacesIncrease(b, c, e, a);
    } else if d < c {
      BelowMonotone(b, d + 1, c);
    }
  }

  // ---------- bucket headers ----------

  /** The pattern past the end that stops every scan of the header bits. */
  ghost predicate Sentinels(bh: seq<bool>, n: nat) {
    && |bh| >= n + 64 && |bh| % 32 == 0
    && forall i :: 0 <= i < 32 ==> bh[n + 2 * i] && !bh[n + 2 * i + 1]
  }

  /** Place k is the start of the bucket of some byte below c. */
  ghost predicate IsBucketStart(b: seq<Byte>, c: nat, k: int)
    requires c <= 256
  {
    exists d :: 0 <= d < c && Below(b, d) == k
  }

  /** Marks the start of each one-byte bucket. */
  method MarkBuckets(nblock: nat, ftab: array<nat>, bhtab: array<bool>, ghost b: seq<Byte>, ghost fmap: seq<nat>)
    requires nblock == |b| == |fmap| && ftab.Length == 257 && Dropped(b, fmap, ftab[..], |b|)
    requires bhtab.Length >= |b| + 64 && bhtab.Length >= 32 * (2 + |b| / 32)
    requires |b| > 0 && forall k :: 0 <= k < |b| ==> fmap[k] < |b|
    modifies bhtab
    ensures HeadersMark(b, fmap, bhtab[..], 1, |b|)
  {
    var nBhtab := 2 + nblock / 32;
    for i := 0 to 32 * nBhtab
      invariant forall k :: 0 <= k < i ==> !bhtab[k]
    {
      bhtab[i] := false;
    }
    for i := 0 to 256
      invariant forall k :: 0 <= k <= nblock ==> bhtab[k] == IsBucketStart(b, i, k)
    {
      FinalFtab(b, fmap, ftab[..], i);
      bhtab[ftab[i]] := true;
      forall k ensures IsBucketStart(b, i + 1, k) <==> IsBucketStart(b, i, k) || k == ftab[i] {}
    }
    forall k | 0 <= k < nblock ensures bhtab[k] == Changes(b, fmap, 1, k) {
      BucketStarts(b, fmap, ftab[..], k);
    }
  }

  lemma FinalFtab(b: seq<Byte>, f: seq<nat>, ftab: seq<nat>, c: Byte)
    requires |b| == |f| && |ftab| == 257 && Dropped(b, f, ftab, |b|)
    ensures ftab[c] == Below(b, c) <= |b|
  {
    assert b[..|b|] == b;
    assert DroppedByte(b, f, |b|, c);
    BelowTotal(b);
    BelowMonotone(b, c, 256);
  }

  method SetSentinels(bhtab: array<bool>, nblock: nat, ghost b: seq<Byte>, ghost f: seq<nat>)
    requires bhtab.Length % 32 == 0 && bhtab.Length >= nblock + 64
    requires nblock == |b| == |f| > 0 && HeadersMark(b, f, bhtab[..], 1, nblock)
    modifies bhtab
    ensures Sentinels(bhtab[..], nblock) && HeadersMark(b, f, bhtab[..], 1, nblock)
  {
    for i := 0 to 32
      invariant forall k :: 0 <= k < nblock ==> bhtab[k] == old(bhtab[k])
      invariant forall k :: 0 <= k < i ==> bhtab[nblock + 2 * k] && !bhtab[nblock + 2 * k + 1]
    {
      bhtab[nblock + 2 * i] := true;
      bhtab[nblock + 2 * i + 1] := false;
    }
    assert forall k :: 0 <= k < nblock ==> bhtab[..][k] == old(bhtab[..])[k];
  }

  lemma BucketStarts(b: seq<Byte>, f: seq<nat>, ftab: seq<nat>, k: nat)
    requires |b| == |f| && |ftab| == 257 && Dropped(b, f, ftab, |b|) && k < |b|
    requires forall k :: 0 <= k < |b| ==> f[k] < |b|
    ensures IsBucketStart(b, 256, k) <==> Changes(b, f, 1, k)
  {
    var c, a := DroppedAt(b, f, ftab, k);
    if k > 0 {
      var d, e := DroppedAt(b, f, ftab, k - 1);
      assert Cmp(b, f[k - 1] + 1, f[k] + 1, 0) == 0;
      assert Cmp(b, f[k - 1], f[k], 1) != 0 <==> d != c;
      if d < c { BelowMonotone(b, d + 1, c); }
      if c < d { BelowMonotone(b, c + 1, d); }
    }
    forall c' | 0 <= c' < 256 && Below(b, c') == k ensures Below(b, c) == k {
      if c' <= c { BelowMonotone(b, c', c); } else { BelowMonotone(b, c + 1, c'); }
    }
  }

  // ---------- scanning the header bits ----------

  /** The first clear bit from k0 on; whole words of ones are skipped 32 at a time. */
  method NextClear(bhtab: array<bool>, k0: nat, ghost n: nat) returns (k: nat)
    requires Sentinels(bhtab[..], n) && k0 <= n + 1
    ensures k0 <= k <= n + 1 && !bhtab[k]
    ensures forall i :: k0 <= i < k ==> bhtab[i]
  {
    k := k0;
    assert bhtab[..][n + 2 * 0] && !bhtab[..][n + 2 * 0 + 1];
    while bhtab[k] && k % 32 != 0
      invariant k0 <= k <= n + 1
      invariant forall i :: k0 <= i < k ==> bhtab[i]
      decreases n + 1 - k
    {
      k := k + 1;
    }
    if bhtab[k] {
      while forall i :: k <= i < k + 32 ==> bhtab[i]
        invariant k0 <= k <= n + 1 && k % 32 == 0
        invariant forall i :: k0 <= i < k ==> bhtab[i]
        decreases n + 1 - k
      {
        k := k + 32;
      }
      while bhtab[k]
        invariant k0 <= k <= n + 1
        invariant forall i :: k0 <= i < k ==> bhtab[i]
        decreases n + 1 - k
      {
        k := k + 1;
      }
    }
  }

  /** The first set bit from k0 on; whole words of zeros are skipped 32 at a time. */
  method NextSet(bhtab: array<bool>, k0: nat, ghost n: nat) returns (k: nat)
    requires Sentinels(bhtab[..], n) && k0 <= n
    ensures k0 <= k <= n && bhtab[k]
    ensures forall i :: k0 <= i < k ==> !bhtab[i]
  {
    k := k0;
    assert bhtab[..][n + 2 * 0];
    while !bhtab[k] && k % 32 != 0
      invariant k0 <= k <= n
      invariant forall i :: k0 <= i < k ==> !bhtab[i]
      decreases n - k
    {
      k := k + 1;
    }
    if !bhtab[k] {
      while forall i :: k <= i < k + 32 ==> !bhtab[i]
        invariant k0 <= k <= n && k % 32 == 0
        invariant forall i :: k0 <= i < k ==> !bhtab[i]
        decreases n - k
      {
        k := k + 32;
      }
      while !bhtab[k]
        invariant k0 <= k <= n
        invariant forall i :: k0 <= i < k ==> !bhtab[i]
        decreases n - k
      {
        k := k + 1;
      }
    }
  }

  // ---------- one pass ----------

  /** Gives every rotation the bucket of the rotation h bytes further on. */
  method AssignClasses(fmap: array<nat>, eclass: array<nat>, bhtab: array<bool>, h: nat, ghost b: seq<Byte>)
    requires fmap != eclass && |b| > 0 && fmap.Length == eclass.Length == |b| < bhtab.Length && h <= |b|
    requires IsPermutation(fmap[..], |b|)
    requires HeadersMark(b, fmap[..], bhtab[..], h, |b|) && Ordered(b, fmap[..], h)
    modifies eclass
    ensures ClassesOf(b, eclass[..], h)
  {
    var nblock := fmap.Length;
    ghost var f, bh := fmap[..], bhtab[..];
    var j := 0;
    for i := 0 to nblock
      invariant i > 0 ==> j == FirstOf(bh, i - 1)
      invariant KeysAssigned(f, bh, eclass[..], h, i)
    {
      if bhtab[i] { j := i; }
      var k := fmap[i] - h;
      if k < 0 { k := k + nblock; }
      AssignStep(f, bh, eclass[..], h, i, k, j);
      ghost var keys := eclass[..];
      eclass[k] := j;
      assert eclass[..] == keys[k := j];
    }
    AssignedAreClasses(b, f, bh, eclass[..], h);
  }

  lemma AssignStep(f: seq<nat>, bh: seq<bool>, keys: seq<nat>, h: nat, i: nat, k: nat, j: nat)
    requires i < |f| == |keys| < |bh| && h <= |f| && IsPermutation(f, |f|)
    requires k == Back(|f|, f[i], h) && j == FirstOf(bh, i)
    requires KeysAssigned(f, bh, keys, h, i)
    ensures KeysAssigned(f, bh, keys[k := j], h, i + 1)
  {
    forall a | 0 <= a < i ensures Back(|f|, f[a], h) != k { assert Differ(f, a, i); }
  }

  /** Sets a header bit wherever the class changes inside the bucket. */
  method MarkChanges(fmap: seq<nat>, eclass: seq<nat>, bhtab: array<bool>, l: nat, r: nat)
    requires l <= r < |fmap| < bhtab.Length && HasKeys(fmap, eclass)
    modifies bhtab
    ensures forall i :: 0 <= i < bhtab.Length ==>
      bhtab[i] == (old(bhtab[i]) || (l <= i <= r && KeyChanges(fmap, eclass, l, i)))
  {
    var cc: int := -1;
    for i := l to r + 1
      invariant cc == if i == l then -1 else eclass[fmap[i - 1]]
      invariant forall k :: 0 <= k < bhtab.Length ==>
        bhtab[k] == (old(bhtab[k]) || (l <= k < i && KeyChanges(fmap, eclass, l, k)))
    {
      var cc1 := eclass[fmap[i]];
      assert KeyChanges(fmap, eclass, l, i) == (cc != cc1);
      if cc != cc1 {
        bhtab[i] := true;
        cc := cc1;
      }
    }
  }

  lemma SentinelsStay(bh0: seq<bool>, bh: seq<bool>, n: nat)
    requires Sentinels(bh0, n) && |bh| == |bh0| && forall i :: n <= i < |bh| ==> bh[i] == bh0[i]
    ensures Sentinels(bh, n)
  {}

  /** From r0 on, l starts the first bucket with more than one element, and r ends it;
      l is n when there is none. */
  ghost predicate Bracketed(bh: seq<bool>, r0: nat, l: int, r: int, n: nat)
    requires n < |bh|
  {
    && r0 <= l <= n && (forall i :: r0 <= i <= l ==> bh[i])
    && (l < n ==> l < r < n && bh[r + 1] && forall i :: l < i <= r ==> !bh[i])
  }

  method NextBucket(bhtab: array<bool>, r0: nat, n: nat) returns (l: int, r: int)
    requires Sentinels(bhtab[..], n) && r0 <= n && bhtab[..][r0]
    ensures Bracketed(bhtab[..], r0, l, r, n)
  {
    var k := NextClear(bhtab, r0, n);
    l := k - 1;
    r := l;
    if l >= n { return; }
    k := NextSet(bhtab, k, n);
    r := k - 1;
  }

  /** The state of a pass that has dealt with the places below end. */
  ghost predicate Passing(b: seq<Byte>, f0: seq<nat>, bh0: seq<bool>, f: seq<nat>, bh: seq<bool>, h: nat,
                          end: nat, nNotDone: nat)
    requires |b| > 0
  {
    && Refining(b, f0, bh0, f, bh, h, end)
    && (nNotDone == 0 ==> AllSet(bh, end))
  }

  ghost predicate AllSet(bh: seq<bool>, end: nat)
    requires end <= |bh|
  {
    forall i :: 0 <= i < end ==> bh[i]
  }

  /** f lists the positions in buckets by their first h bytes, headed by bh. */
  ghost predicate Bucketed(b: seq<Byte>, f: seq<nat>, bh: seq<bool>, h: nat) {
    && 0 < |b| == |f| < Pow2(31)
    && IsPermutation(f, |b|)
    && Sentinels(bh, |b|)
    && HeadersMark(b, f, bh, h, |b|)
    && Ordered(b, f, h)
  }

  /** Sorts one old bucket by class and marks the new buckets in it. */
  method RefineOneBucket(fmap: array<nat>, eclass: seq<nat>, bhtab: array<bool>, l: nat, r: nat,
                         ghost b: seq<Byte>, ghost h: nat, ghost f0: seq<nat>, ghost bh0: seq<bool>,
                             ghost before: nat, ghost end: nat, ghost nNotDone: nat)
    requires Bucketed(b, f0, bh0, h) && ClassesOf(b, eclass, h) && fmap.Length == |b| && bhtab.Length == |bh0|
    requires Passing(b, f0, bh0, fmap[..], bhtab[..], h, l, before) && l <= r < |b| && IsOldBucket(bh0, l, r)
    requires end == r + 1 && nNotDone > 0
    modifies fmap, bhtab
    ensures Passing(b, f0, bh0, fmap[..], bhtab[..], h, end, nNotDone)
  {
    ghost var f, bh := fmap[..], bhtab[..];
    RearrangedPermutation(f0, f, 0, l);
    FallbackQSort3(fmap, eclass, l, r);
    ghost var g := fmap[..];
    RearrangedPermutation(f, g, l, r + 1);
    MarkChanges(fmap[..], eclass, bhtab, l, r);
    RefineBucket(b, f0, bh0, f, bh, g, bhtab[..], eclass, h, l, r);
  }

  /** Deals with the next bucket that has more than one element, if there is one;
      then everything before end is done. */
  method RefineNext(fmap: array<nat>, eclass: seq<nat>, bhtab: array<bool>, end0: nat, nNotDone0: nat,
                    ghost b: seq<Byte>, ghost h: nat, ghost f0: seq<nat>, ghost bh0: seq<bool>)
    returns (end: nat, nNotDone: nat)
    requires Bucketed(b, f0, bh0, h) && ClassesOf(b, eclass, h) && fmap.Length == |b|
    requires Passing(b, f0, bh0, fmap[..], bhtab[..], h, end0, nNotDone0)
    modifies fmap, bhtab
    ensures Passing(b, f0, bh0, fmap[..], bhtab[..], h, end, nNotDone)
    ensures end0 < end <= |b| || end == end0 == |b|
  {
    var nblock := fmap.Length;
    PassGoesOn(b, f0, bh0, fmap[..], bhtab[..], h, end0, nNotDone0);
    var l, r := NextBucket(bhtab, end0, nblock);
    SkipSingles(b, f0, bh0, fmap[..], bhtab[..], h, end0, l, r, nNotDone0);
    if l >= nblock {
      return l, nNotDone0;
    }
    end, nNotDone := r + 1, nNotDone0;
    if r > l {
      nNotDone := nNotDone0 + (r - l + 1);
      RefineOneBucket(fmap, eclass, bhtab, l, r, b, h, f0, bh0, nNotDone0, end, nNotDone);
    }
  }

  /** One pass: every bucket by h bytes is refined into buckets by 2h bytes. */
  method RefinePass(fmap: array<nat>, eclass: seq<nat>, bhtab: array<bool>, ghost b: seq<Byte>, ghost h: nat)
    returns (nNotDone: nat)
    requires fmap.Length == |b| && Bucketed(b, fmap[..], bhtab[..], h) && ClassesOf(b, eclass, h)
    modifies fmap, bhtab
    ensures Bucketed(b, fmap[..], bhtab[..], 2 * h)
    ensures nNotDone == 0 ==> AllSet(bhtab[..], |b|)
  {
    var nblock := fmap.Length;
    ghost var f0, bh0 := fmap[..], bhtab[..];
    nNotDone := 0;
    var end := 0;
    PassStarts(b, f0, bh0, h);
    while end < nblock
      invariant end <= nblock && Passing(b, f0, bh0, fmap[..], bhtab[..], h, end, nNotDone)
    {
      end, nNotDone := RefineNext(fmap, eclass, bhtab, end, nNotDone, b, h, f0, bh0);
    }
    PassEnds(b, f0, bh0, fmap[..], bhtab[..], h);
  }

  lemma PassGoesOn(b: seq<Byte>, f0: seq<nat>, bh0: seq<bool>, f: seq<nat>, bh: seq<bool>, h: nat,
                   end: nat, nNotDone: nat)
    requires |b| > 0 && Sentinels(bh0, |b|) && Passing(b, f0, bh0, f, bh, h, end, nNotDone)
    ensures Sentinels(bh, |b|) && end <= |b| && bh[end]
  {
    SentinelsStay(bh0, bh, |b|);
  }

  lemma SkipSingles(b: seq<Byte>, f0: seq<nat>, bh0: seq<bool>, f: seq<nat>, bh: seq<bool>, h: nat,
                    end: nat, l: nat, r: int, nNotDone: nat)
    requires Bucketed(b, f0, bh0, h)
    requires Passing(b, f0, bh0, f, bh, h, end, nNotDone) && Bracketed(bh, end, l, r, |b|)
    ensures Passing(b, f0, bh0, f, bh, h, l, nNotDone)
    ensures l < |b| ==> l < r < |b| && IsOldBucket(bh0, l, r)
  {
    forall i | end <= i < |bh| ensures bh0[i] == bh[i] {}
    RefineSingles(b, f0, bh0, f, bh, h, end, l);
  }

  lemma PassStarts(b: seq<Byte>, f: seq<nat>, bh: seq<bool>, h: nat)
    requires Bucketed(b, f, bh, h)
    ensures Passing(b, f, bh, f, bh, h, 0, 0)
  {
    assert bh[0] == Changes(b, f, h, 0);
  }

  lemma PassEnds(b: seq<Byte>, f0: seq<nat>, bh0: seq<bool>, f: seq<nat>, bh: seq<bool>, h: nat)
    requires Bucketed(b, f0, bh0, h) && Refining(b, f0, bh0, f, bh, h, |b|)
    ensures Bucketed(b, f, bh, 2 * h)
  {
    RearrangedPermutation(f0, f, 0, |b|);
    SentinelsStay(bh0, bh, |b|);
  }

  // ---------- restoring the block ----------

  /** A permuted column holds each byte as often as the block. */
  lemma ColumnCounts(b: seq<Byte>, f: seq<nat>, c: Byte)
    requires |b| > 0 && IsPermutation(f, |b|)
    ensures |Places(FirstColumn(b, f), c)| == |Places(b, c)|
  {
    var fc := FirstColumn(b, f);
    var p, q := Places(fc, c), Places(b, c);
    PlacesInRange(fc, c);
    var x := seq(|p|, a requires 0 <= a < |p| => f[p[a]]);
    forall a, e | 0 <= a < e < |x| ensures Differ(x, a, e) {
      PlacesIncrease(fc, c, a, e);
      assert Differ(f, p[a], p[e]);
    }
    forall a, e | 0 <= a < e < |q| ensures Differ(q, a, e) {
      PlacesIncrease(b, c, a, e);
    }
    forall v | v in x ensures v in q {
      var a :| 0 <= a < |x| && x[a] == v;
      PlaceIs(fc, c, a);
      var e := PlaceOf(b, v);
    }
    forall v | v in q ensures v in x {
      var e :| 0 <= e < |q| && q[e] == v;
      PlaceIs(b, c, e);
      PermutationIsOnto(f, |b|, v);
      var i :| 0 <= i < |f| && f[i] == v;
      assert fc[i] == c;
      var a := PlaceOf(fc, i);
      assert x[a] == v;
    }
    InjectiveSize(x);
    InjectiveSize(q);
    assert Elements(x) == Elements(q);
  }

  lemma {:induction false} ColumnBelow(b: seq<Byte>, f: seq<nat>, c: nat)
    requires |b| > 0 && IsPermutation(f, |b|) && c <= 256
    ensures Below(FirstColumn(b, f), c) == Below(b, c)
  {
    if c > 0 {
      ColumnBelow(b, f, c - 1);
      ColumnCounts(b, f, c - 1);
    }
  }

  /** Row i starts with the byte whose bucket holds place i. */
  lemma RowByteIs(b: seq<Byte>, f: seq<nat>, i: nat, c: Byte)
    requires IsRotationOrder(b, f) && i < |b| && Below(b, c) <= i < Below(b, c + 1)
    ensures b[f[i]] == c
  {
    var fc := FirstColumn(b, f);
    var d := fc[i];
    FirstColumnSorted(b, f);
    var a := PlaceOf(fc, i);
    SortedPlaces(fc, d, a);
    ColumnBelow(b, f, d);
    ColumnBelow(b, f, d + 1);
    if d < c { BelowMonotone(b, d + 1, c); }
    if c < d { BelowMonotone(b, c + 1, d); }
  }

  /** The classes have overwritten the block; the sorted order and the counts of its
      bytes bring it back. */
  method RestoreBlock(fmap: seq<nat>, block: array<Byte>, nblock: nat, ftabCopy: array<nat>, ghost b: seq<Byte>)
    requires nblock == |b| <= block.Length && ftabCopy.Length == 256
    requires IsRotationOrder(b, fmap)
    requires forall c :: 0 <= c < 256 ==> ftabCopy[c] == |Places(b, c)|
    modifies block, ftabCopy
    ensures block[..nblock] == b
  {
    var j := 0;
    BelowTotal(b);
    assert Below(b, 0) == 0;
    for i := 0 to nblock
      invariant j < 256 && Below(b, j) <= i <= Below(b, j + 1)
      invariant ftabCopy[j] == Below(b, j + 1) - i
      invariant forall c :: j < c < 256 ==> ftabCopy[c] == |Places(b, c)|
      invariant forall k :: 0 <= k < i ==> block[fmap[k]] == b[fmap[k]]
    {
      while ftabCopy[j] == 0
        invariant j < 256 && Below(b, j) <= i <= Below(b, j + 1)
        invariant ftabCopy[j] == Below(b, j + 1) - i
        invariant forall c :: j < c < 256 ==> ftabCopy[c] == |Places(b, c)|
        decreases 256 - j
      {
        j := j + 1;
      }
      ftabCopy[j] := ftabCopy[j] - 1;
      RowByteIs(b, fmap, i, j);
      assert forall k :: 0 <= k < i ==> Differ(fmap, k, i);
      block[fmap[i]] := j;
    }
    assert j < 256;  // assertion 1005
    forall q | 0 <= q < nblock ensures block[q] == b[q] {
      PermutationIsOnto(fmap, nblock, q);
    }
  }

  // ---------- the sorter ----------

  lemma DroppedIsBucketed(b: seq<Byte>, f: seq<nat>, ftab: seq<nat>)
    requires 0 < |b| == |f| && |ftab| == 257 && Dropped(b, f, ftab, |b|)
    ensures IsPermutation(f, |b|) && Ordered(b, f, 1)
  {
    forall k | 0 <= k < |b| ensures f[k] < |b| { var c, a := DroppedAt(b, f, ftab, k); }
    forall j, k | 0 <= j < k < |b| ensures Differ(f, j, k) && InOrder(b, f, 1, j, k) {
      DroppedDistinct(b, f, ftab, j, k);
      assert Cmp(b, f[j] + 1, f[k] + 1, 0) == 0;
    }
  }

  /** When h exceeds the block or every bucket has one element, the order is final. */
  lemma OrderIsFinal(b: seq<Byte>, f: seq<nat>, bh: seq<bool>, h: nat)
    requires Bucketed(b, f, bh, h)
    requires h > |b| || AllSet(bh, |b|)
    ensures IsRotationOrder(b, f)
  {
    forall i, j | 0 <= i < j < |b| ensures InOrder(b, f, |b|, i, j) {
      assert InOrder(b, f, h, i, j);
      if h < |b| { OtherClass(b, f, bh, h, i, j, j); }
      DecidedEarly(b, f[i], f[j], h);
    }
  }

  lemma DecidedEarly(b: seq<Byte>, i: nat, j: nat, h: nat)
    requires |b| > 0 && Cmp(b, i, j, h) <= 0
    requires h >= |b| || Cmp(b, i, j, h) < 0
    ensures Cmp(b, i, j, |b|) <= 0
  {
    if h >= |b| {
      CmpBeyond(b, i, j, h);
    } else {
      CmpSplit(b, i, j, h, |b| - h);
    }
  }

  /** Counts the bytes, keeping a copy, and turns the counts into bucket ends. */
  method BucketEnds(block: array<Byte>, nblock: nat) returns (ftab: array<nat>, ftabCopy: array<nat>)
    requires nblock <= block.Length
    ensures fresh(ftab) && fresh(ftabCopy) && ftab.Length == 257 && ftabCopy.Length == 256
    ensures forall c :: 0 <= c < 256 ==> ftab[c] == Below(block[..nblock], c + 1)
    ensures forall c :: 0 <= c < 256 ==> ftabCopy[c] == |Places(block[..nblock], c)|
  {
    ftab := new nat[257];
    CountBytes(block, nblock, ftab);
    ftabCopy := new nat[256];
    ghost var b := block[..nblock];
    for i := 0 to 256
      invariant forall c :: 0 <= c < 256 ==> ftab[c] == |Places(b, c)|
      invariant forall c :: 0 <= c < i ==> ftabCopy[c] == |Places(b, c)|
      invariant ftab[256] == 0
    {
      ftabCopy[i] := ftab[i];
    }
    Accumulate(b, ftab);
  }

  /** The initial buckets, by the first byte. */
  method FirstBuckets(fmap: array<nat>, block: array<Byte>, bhtab: array<bool>, nblock: nat)
    returns (ftabCopy: array<nat>)
    requires fmap as object != block
    requires 0 < nblock == fmap.Length < Pow2(31) && nblock <= block.Length
    requires bhtab.Length % 32 == 0 && bhtab.Length >= nblock + 64 && bhtab.Length >= 32 * (2 + nblock / 32)
    modifies fmap, bhtab
    ensures Bucketed(block[..nblock], fmap[..], bhtab[..], 1)
    ensures fresh(ftabCopy) && ftabCopy.Length == 256
    ensures forall c :: 0 <= c < 256 ==> ftabCopy[c] == |Places(block[..nblock], c)|
  {
    ghost var b := block[..nblock];
    var ftab;
    ftab, ftabCopy := BucketEnds(block, nblock);
    DropIntoBuckets(block, nblock, ftab, fmap);
    DroppedIsBucketed(b, fmap[..], ftab[..]);
    MarkBuckets(nblock, ftab, bhtab, b, fmap[..]);
    SetSentinels(bhtab, nblock, b, fmap[..]);
  }

  method DoubleOnce(fmap: array<nat>, eclass: array<nat>, bhtab: array<bool>, h: nat, ghost next: nat,
                    ghost b: seq<Byte>)
    returns (nNotDone: nat)
    requires fmap != eclass && |b| == fmap.Length == eclass.Length && h <= |b| && next == 2 * h
    requires Bucketed(b, fmap[..], bhtab[..], h)
    modifies fmap, eclass, bhtab
    ensures Bucketed(b, fmap[..], bhtab[..], next)
    ensures nNotDone == 0 ==> AllSet(bhtab[..], |b|)
  {
    AssignClasses(fmap, eclass, bhtab, h, b);
    nNotDone := RefinePass(fmap, eclass[..], bhtab, b, h);
  }

  /** One doubling, which may settle the order. */
  method DoubleRound(fmap: array<nat>, eclass: array<nat>, bhtab: array<bool>, h: nat, nblock: nat, ghost b: seq<Byte>)
    returns (next: nat, done: bool)
    requires fmap != eclass && nblock == |b| == fmap.Length == eclass.Length && h <= nblock
    requires Bucketed(b, fmap[..], bhtab[..], h)
    modifies fmap, eclass, bhtab
    ensures next == 2 * h
    ensures if done then IsRotationOrder(b, fmap[..]) else next <= nblock && Bucketed(b, fmap[..], bhtab[..], next)
  {
    next := h * 2;
    var nNotDone := DoubleOnce(fmap, eclass, bhtab, h, next, b);
    done := next > nblock || nNotDone == 0;
    if done { OrderIsFinal(b, fmap[..], bhtab[..], next); }
  }

  /** Doubles the prefix until all rotations are told apart or fully compared. */
  method DoublePrefix(fmap: array<nat>, eclass: array<nat>, bhtab: array<bool>, nblock: nat, ghost b: seq<Byte>)
    requires fmap != eclass && nblock == |b| == fmap.Length == eclass.Length
    requires Bucketed(b, fmap[..], bhtab[..], 1)
    modifies fmap, eclass, bhtab
    ensures IsRotationOrder(b, fmap[..])
  {
    var h := 1;
    while true
      invariant 1 <= h <= nblock && Bucketed(b, fmap[..], bhtab[..], h)
      decreases nblock - h
    {
      var done;
      h, done := DoubleRound(fmap, eclass, bhtab, h, nblock, b);
      if done { break; }
    }
  }

  /** Sorts the rotations of block[..nblock] into fmap. In the source the classes
      overlay the block, so its bytes are lost (here: havocked) and restored at the end. */
  method FallbackSort(fmap: array<nat>, block: array<Byte>, eclass: array<nat>, bhtab: array<bool>, nblock: nat)
    requires fmap != eclass && fmap as object != block && eclass as object != block
    requires 0 < nblock == fmap.Length == eclass.Length < Pow2(31) && nblock <= block.Length
    requires bhtab.Length % 32 == 0 && bhtab.Length >= nblock + 64 && bhtab.Length >= 32 * (2 + nblock / 32)
    modifies fmap, block, eclass, bhtab
    ensures block[..nblock] == old(block[..nblock])
    ensures IsRotationOrder(block[..nblock], fmap[..])
  {
    ghost var b := block[..nblock];
    var ftabCopy := FirstBuckets(fmap, block, bhtab, nblock);
    ghost var f, bh, counts := fmap[..], bhtab[..], ftabCopy[..];
    modify block;
    assert fmap[..] == f && bhtab[..] == bh && ftabCopy[..] == counts;
    DoublePrefix(fmap, eclass, bhtab, nblock, b);
    RestoreBlock(fmap[..], block, nblock, ftabCopy, b);
  }
}
