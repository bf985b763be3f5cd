/** Why the fallback sorter works: classes by the first h bytes, taken h bytes
    further on, refine an order by h bytes into an order by 2h bytes. */
module PrefixDoubling {
  import opened Basics
  import opened Rotations
  import opened Rearranging
  import opened Partitioning

  /** bh marks exactly where the first h bytes change along f. */
  ghost predicate HeadersMark(b: seq<Byte>, f: seq<nat>, bh: seq<bool>, h: nat, end: nat)
    requires |b| > 0 && end <= |f| && end <= |bh|
  {
    forall i :: 0 <= i < end ==> bh[i] == Changes(b, f, h, i)
  }

  ghost predicate OrderedBelow(b: seq<Byte>, f: seq<nat>, h: nat, end: nat)
    requires |b| > 0 && end <= |f|
  {
    forall i, j :: 0 <= i < j < end ==> InOrder(b, f, h, i, j)
  }

  ghost predicate Changes(b: seq<Byte>, f: seq<nat>, h: nat, i: nat)
    requires |b| > 0 && i < |f|
  {
    i == 0 || Cmp(b, f[i - 1], f[i], h) != 0
  }

  /** The last header at or before i. */
  ghost function FirstOf(bh: seq<bool>, i: nat): (r: nat)
    requires i < |bh|
    ensures r <= i
  {
    if i == 0 || bh[i] then i else FirstOf(bh, i - 1)
  }

  /** Comparing keys compares the second h bytes. */
  ghost predicate ClassesOf(b: seq<Byte>, keys: seq<nat>, h: nat)
    requires |b| > 0
  {
    && |keys| == |b|
    && forall p, q :: 0 <= p < |b| && 0 <= q < |b| ==>
         (keys[p] <= keys[q] <==> Cmp(b, p + h, q + h, h) <= 0)
  }

  function Back(n: nat, p: nat, h: nat): (r: nat)
    requires p < n && h <= n
    ensures r < n
  {
    if p < h then p - h + n else p - h
  }

  // ---------- classes ----------

  lemma {:induction false} StartMonotone(bh: seq<bool>, i: nat, j: nat)
    requires i <= j < |bh|
    ensures FirstOf(bh, i) <= FirstOf(bh, j)
    ensures FirstOf(bh, j) <= i ==> FirstOf(bh, i) == FirstOf(bh, j)
    decreases j
  {
    if i < j && !bh[j] { StartMonotone(bh, i, j - 1); }
  }

  /** Within one class the first h bytes agree. */
  lemma {:induction false} SameClass(b: seq<Byte>, f: seq<nat>, bh: seq<bool>, h: nat, i: nat, j: nat)
    requires |b| > 0 && i <= j < |f| <= |bh| && HeadersMark(b, f, bh, h, |f|)
    requires FirstOf(bh, j) <= i
    ensures Cmp(b, f[i], f[j], h) == 0
    decreases j
  {
    if i == j {
      CmpRefl(b, f[i], h);
    } else {
      SameClass(b, f, bh, h, i, j - 1);
      assert !Changes(b, f, h, j);
      CmpTrans(b, f[i], f[j - 1], f[j], h);
    }
  }

  /** Across a header they differ. */
  lemma {:induction false} OtherClass(b: seq<Byte>, f: seq<nat>, bh: seq<bool>, h: nat, i: nat, k: nat, j: nat)
    requires |b| > 0 && i < k <= j < |f| <= |bh| && HeadersMark(b, f, bh, h, |f|)
    requires Ordered(b, f, h) && bh[k]
    ensures Cmp(b, f[i], f[j], h) < 0
  {
    CmpRefl(b, f[i], h);
    CmpRefl(b, f[j], h);
    assert Changes(b, f, h, k) && InOrder(b, f, h, k - 1, k);
    assert (i < k - 1 ==> InOrder(b, f, h, i, k - 1)) && (k < j ==> InOrder(b, f, h, k, j));
    CmpTrans(b, f[i], f[k - 1], f[k], h);
    CmpTrans(b, f[i], f[k], f[j], h);
  }

  lemma {:induction false} StartIsHeader(bh: seq<bool>, i: nat)
    requires i < |bh| && bh[0]
    ensures bh[FirstOf(bh, i)]
  {
    if !bh[i] { StartIsHeader(bh, i - 1); }
  }

  lemma StartsCompare(b: seq<Byte>, f: seq<nat>, bh: seq<bool>, h: nat, i: nat, j: nat)
    requires |b| > 0 && i < |f| && j < |f| <= |bh| && HeadersMark(b, f, bh, h, |f|) && Ordered(b, f, h)
    ensures FirstOf(bh, i) <= FirstOf(bh, j) <==> Cmp(b, f[i], f[j], h) <= 0
  {
    if i <= j {
      CmpRefl(b, f[i], h);
      assert i < j ==> InOrder(b, f, h, i, j);
      StartMonotone(bh, i, j);
    } else {
      StartMonotone(bh, j, i);
      CmpAntisym(b, f[i], f[j], h);
      if FirstOf(bh, i) <= j {
        SameClass(b, f, bh, h, j, i);
      } else {
        assert bh[0];
        StartIsHeader(bh, i);
        OtherClass(b, f, bh, h, j, FirstOf(bh, i), i);
      }
    }
  }

  /** Position i of f carries the key of the rotation h bytes earlier. */
  ghost predicate KeysAssigned(f: seq<nat>, bh: seq<bool>, keys: seq<nat>, h: nat, end: nat)
    requires h <= |keys| && end <= |f| <= |bh| && forall i :: 0 <= i < |f| ==> f[i] < |keys|
  {
    forall i :: 0 <= i < end ==> keys[Back(|keys|, f[i], h)] == FirstOf(bh, i)
  }

  lemma BackCompare(b: seq<Byte>, p: nat, q: nat, h: nat, g: nat, p': nat, q': nat)
    requires |b| > 0 && p < |b| && q < |b| && h <= |b|
    requires p' == Back(|b|, p, h) && q' == Back(|b|, q, h)
    ensures Cmp(b, p' + h, q' + h, g) == Cmp(b, p, q, g)
  {
    CmpMod(b, p, q, g);
    CmpMod(b, p, q + |b|, g);
  }

  lemma AssignedAreClasses(b: seq<Byte>, f: seq<nat>, bh: seq<bool>, keys: seq<nat>, h: nat)
    requires |b| > 0 && h <= |b| == |keys| && IsPermutation(f, |b|) && |f| <= |bh|
    requires HeadersMark(b, f, bh, h, |f|) && Ordered(b, f, h)
    requires KeysAssigned(f, bh, keys, h, |f|)
    ensures ClassesOf(b, keys, h)
  {
    forall p, q | 0 <= p < |b| && 0 <= q < |b|
      ensures keys[p] <= keys[q] <==> Cmp(b, p + h, q + h, h) <= 0
    {
      KeysCompare(b, f, bh, keys, h, p, q);
    }
  }

  lemma KeysCompare(b: seq<Byte>, f: seq<nat>, bh: seq<bool>, keys: seq<nat>, h: nat, p: nat, q: nat)
    requires |b| > 0 && h <= |b| == |keys| && IsPermutation(f, |b|) && |f| <= |bh|
    requires HeadersMark(b, f, bh, h, |f|) && Ordered(b, f, h)
    requires KeysAssigned(f, bh, keys, h, |f|)
    requires p < |b| && q < |b|
    ensures keys[p] <= keys[q] <==> Cmp(b, p + h, q + h, h) <= 0
  {
    var i := PlaceInPermutation(f, p, h);
    var j := PlaceInPermutation(f, q, h);
    StartsCompare(b, f, bh, h, i, j);
    assert keys[p] == FirstOf(bh, i) && keys[q] == FirstOf(bh, j);
    BackCompare(b, f[i], f[j], h, h, p, q);
  }

  lemma PlaceInPermutation(f: seq<nat>, p: nat, h: nat) returns (i: nat)
    requires IsPermutation(f, |f|) && p < |f| && h <= |f|
    ensures i < |f| && Back(|f|, f[i], h) == p
  {
    var q := if p + h < |f| then p + h else p + h - |f|;
    PermutationIsOnto(f, |f|, q);
    i :| 0 <= i < |f| && f[i] == q;
  }

  // ---------- one pass of refinement ----------

  /** The pass has dealt with the places below end: f is ordered by 2h bytes there
      and headed accordingly; from end on nothing has changed, and end is the start
      of an old bucket. */
  ghost predicate Refining(b: seq<Byte>, f0: seq<nat>, bh0: seq<bool>, f: seq<nat>, bh: seq<bool>, h: nat, end: nat)
    requires |b| > 0
  {
    && |f0| == |f| == |b| < |bh0| == |bh| && end <= |f|
    && Rearranged(f0, f, 0, end)
    && (forall i :: end <= i < |bh| ==> bh[i] == bh0[i])
    && OrderedBelow(b, f, 2 * h, end)
    && HeadersMark(b, f, bh, 2 * h, end)
    && bh0[end]
  }

  lemma DoubleCmp(b: seq<Byte>, i: nat, j: nat, h: nat)
    requires |b| > 0
    ensures Cmp(b, i, j, 2 * h) == if Cmp(b, i, j, h) != 0 then Cmp(b, i, j, h) else Cmp(b, i + h, j + h, h)
  {
    CmpSplit(b, i, j, h, h);
  }

  /** What lies before an old header is smaller already in its first h bytes. */
  lemma EarlierIsSmaller(b: seq<Byte>, f0: seq<nat>, bh0: seq<bool>, f: seq<nat>, bh: seq<bool>, h: nat,
                         end: nat, i: nat, j: nat)
    requires |b| > 0 && |f0| < |bh0| && HeadersMark(b, f0, bh0, h, |f0|) && Ordered(b, f0, h)
    requires |f0| == |f| && end <= |f| && Rearranged(f0, f, 0, end) && bh0[end]
    requires i < end <= j < |f|
    ensures Cmp(b, f[i], f0[j], h) < 0
  {
    var k := RearrangedFrom(f0, f, 0, end, i);
    OtherClass(b, f0, bh0, h, k, end, j);
  }

  /** [l, r] is a bucket of the old order. */
  ghost predicate IsOldBucket(bh0: seq<bool>, l: nat, r: nat) {
    r + 1 < |bh0| && bh0[r + 1] && forall i :: l < i <= r ==> !bh0[i]
  }

  /** Sorting an old bucket by class and marking where the class changes
      extends the pass over that bucket. */
  lemma RefineBucket(b: seq<Byte>, f0: seq<nat>, bh0: seq<bool>, f: seq<nat>, bh: seq<bool>,
                     g: seq<nat>, ch: seq<bool>, keys: seq<nat>, h: nat, l: nat, r: nat)
    requires |b| > 0 && |f0| == |b| < |bh0| && IsPermutation(f0, |b|)
    requires HeadersMark(b, f0, bh0, h, |f0|) && Ordered(b, f0, h) && ClassesOf(b, keys, h)
    requires Refining(b, f0, bh0, f, bh, h, l) && l <= r < |b|
    requires IsOldBucket(bh0, l, r)
    requires Rearranged(f, g, l, r + 1) && IsPermutation(g, |b|)
    requires HasKeys(g, keys) && KeysSorted(g, keys, l, r + 1)
    requires |ch| == |bh| && forall i :: 0 <= i < |ch| ==>
             ch[i] == (bh[i] || (l <= i <= r && KeyChanges(g, keys, l, i)))
    ensures Refining(b, f0, bh0, g, ch, h, r + 1)
  {
    RearrangedWiden(f0, f, 0, l, 0, r + 1);
    RearrangedWiden(f, g, l, r + 1, 0, r + 1);
    RearrangedTrans(f0, f, g, 0, r + 1);
    forall i, j | 0 <= i < j < r + 1 ensures InOrder(b, g, 2 * h, i, j) {
      BucketOrder(b, f0, bh0, f, bh, g, keys, h, l, r, i, j);
    }
    forall i | 0 <= i < r + 1 ensures ch[i] == Changes(b, g, 2 * h, i) {
      if i < l {
        assert g[i] == f[i] && (i > 0 ==> g[i - 1] == f[i - 1]);
      } else if i > 0 {
        BucketOrder(b, f0, bh0, f, bh, g, keys, h, l, r, i - 1, i);
        assert bh[i] == bh0[i];
      }
    }
    forall i | r + 1 <= i < |ch| ensures ch[i] == bh0[i] { assert bh[i] == bh0[i]; }
  }

  ghost predicate KeyChanges(g: seq<nat>, keys: seq<nat>, l: nat, i: nat)
    requires l <= i < |g| && HasKeys(g, keys)
  {
    i == l || keys[g[i - 1]] != keys[g[i]]
  }

  lemma InBucket(b: seq<Byte>, f0: seq<nat>, bh0: seq<bool>, f: seq<nat>, bh: seq<bool>,
                 g: seq<nat>, h: nat, l: nat, r: nat, i: nat) returns (k: nat)
    requires |b| > 0 && |f0| == |b| < |bh0|
    requires Refining(b, f0, bh0, f, bh, h, l) && l <= i <= r < |b|
    requires Rearranged(f, g, l, r + 1)
    ensures l <= k <= r && g[i] == f0[k]
  {
    k := RearrangedFrom(f, g, l, r + 1, i);
  }

  lemma {:induction false} NoHeader(bh: seq<bool>, l: nat, r: nat, i: nat)
    requires l <= i <= r < |bh| && forall k :: l < k <= r ==> !bh[k]
    ensures FirstOf(bh, i) <= l
  {
    if i > l { NoHeader(bh, l, r, i - 1); }
  }

  lemma BucketOrder(b: seq<Byte>, f0: seq<nat>, bh0: seq<bool>, f: seq<nat>, bh: seq<bool>,
                    g: seq<nat>, keys: seq<nat>, h: nat, l: nat, r: nat, i: nat, j: nat)
    requires |b| > 0 && |f0| == |b| < |bh0|
    requires HeadersMark(b, f0, bh0, h, |f0|) && Ordered(b, f0, h) && ClassesOf(b, keys, h)
    requires Refining(b, f0, bh0, f, bh, h, l) && l <= r < |b|
    requires forall i :: l < i <= r ==> !bh0[i]
    requires Rearranged(f, g, l, r + 1) && IsPermutation(g, |b|)
    requires HasKeys(g, keys) && KeysSorted(g, keys, l, r + 1)
    requires i < j <= r
    ensures Cmp(b, g[i], g[j], 2 * h) <= 0
    ensures l <= i ==> (Cmp(b, g[i], g[j], 2 * h) == 0 <==> keys[g[i]] == keys[g[j]])
    ensures i < l <= j ==> Cmp(b, g[i], g[j], 2 * h) < 0
  {
    if j < l {
      assert InOrder(b, f, 2 * h, i, j);
    } else {
      DoubleCmp(b, g[i], g[j], h);
      var v := InBucket(b, f0, bh0, f, bh, g, h, l, r, j);
      if i < l {
        EarlierIsSmaller(b, f0, bh0, f, bh, h, l, i, v);
      } else {
        assert Key(g, keys, i) <= Key(g, keys, j);
        var u := InBucket(b, f0, bh0, f, bh, g, h, l, r, i);
        NoHeader(bh0, l, r, u);
        NoHeader(bh0, l, r, v);
        if u <= v { SameClass(b, f0, bh0, h, u, v); } else { SameClass(b, f0, bh0, h, v, u); }
        CmpAntisym(b, f0[u], f0[v], h);
        CmpAntisym(b, g[i] + h, g[j] + h, h);
      }
    }
  }

  /** A run of old buckets with one element each needs no sorting. */
  lemma {:induction false} RefineSingles(b: seq<Byte>, f0: seq<nat>, bh0: seq<bool>, f: seq<nat>, bh: seq<bool>,
                                         h: nat, end: nat, l: nat)
    requires |b| > 0 && |f0| == |b| < |bh0|
    requires HeadersMark(b, f0, bh0, h, |f0|) && Ordered(b, f0, h)
    requires Refining(b, f0, bh0, f, bh, h, end) && end <= l <= |b|
    requires forall i :: end <= i <= l ==> bh0[i]
    ensures Refining(b, f0, bh0, f, bh, h, l)
    decreases l - end
  {
    if end < l {
      RearrangedWiden(f0, f, 0, end, 0, end + 1);
      forall i | 0 <= i < end ensures Cmp(b, f[i], f[end], 2 * h) < 0 {
        EarlierIsSmaller(b, f0, bh0, f, bh, h, end, i, end);
        DoubleCmp(b, f[i], f[end], h);
      }
      forall i, j | 0 <= i < j < end + 1 ensures InOrder(b, f, 2 * h, i, j) {
        if j < end { assert InOrder(b, f, 2 * h, i, j); }
      }
      RefineSingles(b, f0, bh0, f, bh, h, end + 1, l);
    }
  }
}
