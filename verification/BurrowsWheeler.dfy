/** The Burrows-Wheeler transform as bzip2 uses it: the encoder sends the last
    column of the sorted rotations and the row of the block itself; the decoder
    threads the column and walks the thread. */
module BurrowsWheeler {
  import opened Basics
  import opened Rotations
  import opened ByteCounts

  /** The byte before each sorted rotation: what the encoder transmits. */
  function LastColumn(b: seq<Byte>, p: seq<nat>): (r: seq<Byte>)
    requires |b| > 0 && |p| == |b| && forall i :: 0 <= i < |p| ==> p[i] < |b|
    ensures |r| == |p|
  {
    seq(|p|, k requires 0 <= k < |p| => At(b, p[k] + |b| - 1))
  }

  /** The encoder reaches it by stepping back one place, round the end. */
  lemma LastColumnAt(b: seq<Byte>, p: seq<nat>, i: nat)
    requires |b| > 0 && |p| == |b| && i < |p| && forall i :: 0 <= i < |p| ==> p[i] < |b|
    ensures LastColumn(b, p)[i] == b[if p[i] == 0 then |b| - 1 else p[i] - 1]
  {
    if p[i] > 0 { AtMod(b, p[i] - 1); }
  }

  /** All positions of s, sorted stably by the bytes below c: the thread vector. */
  function ThreadsBelow(s: seq<Byte>, c: nat): (r: seq<nat>)
    requires c <= 256
    ensures |r| == Below(s, c)
    ensures forall i :: 0 <= i < |r| ==> r[i] < |s|
  {
    if c == 0 then [] else
      PlacesInRange(s, c - 1);
      ThreadsBelow(s, c - 1) + Places(s, c - 1)
  }

  function Threads(s: seq<Byte>): (r: seq<nat>)
    ensures |r| == |s|
    ensures forall i :: 0 <= i < |r| ==> r[i] < |s|
  {
    BelowAll(s, 256);
    ThreadsBelow(s, 256)
  }

  /** k steps along the thread from row pos. */
  function Follow(t: seq<nat>, pos: nat, k: nat): (r: nat)
    requires pos < |t| && forall i :: 0 <= i < |t| ==> t[i] < |t|
    ensures r < |t|
  {
    if k == 0 then pos else t[Follow(t, pos, k - 1)]
  }

  /** What the decoder makes of a column and a starting row. */
  function Unsort(s: seq<Byte>, orig: nat): (r: seq<Byte>)
    requires orig < |s|
    ensures |r| == |s|
  {
    seq(|s|, k requires 0 <= k < |s| => s[Follow(Threads(s), orig, k + 1)])
  }

  /** The entry of the thread vector for the a-th row that starts with c. */
  lemma {:induction false} ThreadAt(s: seq<Byte>, c: Byte, a: nat, d: nat)
    requires a < |Places(s, c)| && c < d <= 256
    ensures Below(s, c) + a < Below(s, d)
    ensures ThreadsBelow(s, d)[Below(s, c) + a] == Places(s, c)[a]
  {
    if c < d - 1 { ThreadAt(s, c, a, d - 1); }
  }

  // ---------- the thread leads to the next rotation ----------

  /** Two sorted lists of the same rotations hold equal rotations at equal places,
      however ties are arranged. */
  lemma SortedListsAgree(b: seq<Byte>, x: seq<nat>, y: seq<nat>, h: nat, a: nat)
    requires |b| > 0 && |x| == |y| && a < |x|
    requires Distinct(x) && Ordered(b, x, h) && Ordered(b, y, h)
    requires Elements(x) <= Elements(y)
    ensures Cmp(b, x[a], y[a], h) >= 0
  {
    if Cmp(b, x[a], y[a], h) < 0 {
      var small, early := x[..a + 1], y[..a];
      forall q | q in Elements(small) ensures q in Elements(early) {
        var i :| 0 <= i <= a && x[i] == q;
        assert q in Elements(x);
        var j :| 0 <= j < |y| && y[j] == q;
        if j >= a { SmallIsEarly(b, x, y, h, a, i, j); }
        assert early[j] == q;
      }
      DistinctPrefix(x, a + 1);
      InjectiveSize(small);
      SubsetSize(Elements(small), Elements(early));
      ElementsSize(early);
      assert false;
    }
  }

  lemma SmallIsEarly(b: seq<Byte>, x: seq<nat>, y: seq<nat>, h: nat, a: nat, i: nat, j: nat)
    requires |b| > 0 && i <= a < |x| && a <= j < |y|
    requires Ordered(b, x, h) && Ordered(b, y, h) && x[i] == y[j]
    ensures Cmp(b, x[a], y[a], h) >= 0
  {
    CmpRefl(b, x[a], h);
    CmpRefl(b, y[a], h);
    assert i < a ==> InOrder(b, x, h, i, a);
    assert a < j ==> InOrder(b, y, h, a, j);
    CmpTrans(b, y[a], y[j], x[a], h);
    CmpAntisym(b, x[a], y[a], h);
  }

  function FirstColumn(b: seq<Byte>, p: seq<nat>): (r: seq<Byte>)
    requires |b| > 0 && |p| == |b| && forall i :: 0 <= i < |p| ==> p[i] < |b|
    ensures |r| == |p|
  {
    seq(|p|, k requires 0 <= k < |p| => At(b, p[k]))
  }

  function Next(b: seq<Byte>, q: nat): nat { if q + 1 == |b| then 0 else q + 1 }

  function Prev(b: seq<Byte>, p: nat): (q: nat)
    requires p < |b|
    ensures q < |b| && Next(b, q) == p
  {
    if p == 0 then |b| - 1 else p - 1
  }

  /** The rotations one past those that start with c, in row order. */
  ghost function Successors(b: seq<Byte>, p: seq<nat>, c: Byte): (r: seq<nat>)
    requires |b| > 0 && IsPermutation(p, |b|)
    ensures |r| == |Places(FirstColumn(b, p), c)|
  {
    var f := Places(FirstColumn(b, p), c);
    seq(|f|, a requires 0 <= a < |f| => PlaceIs(FirstColumn(b, p), c, a); Next(b, p[f[a]]))
  }

  /** The rotations preceded by c, in row order. */
  ghost function Preceded(b: seq<Byte>, p: seq<nat>, c: Byte): (r: seq<nat>)
    requires |b| > 0 && IsPermutation(p, |b|)
    ensures |r| == |Places(LastColumn(b, p), c)|
  {
    var l := Places(LastColumn(b, p), c);
    seq(|l|, a requires 0 <= a < |l| => PlaceIs(LastColumn(b, p), c, a); p[l[a]])
  }

  lemma NextSorted(b: seq<Byte>, i: nat, j: nat)
    requires |b| > 0 && i < |b| && j < |b| && At(b, i) == At(b, j)
    ensures Cmp(b, Next(b, i), Next(b, j), |b|) == Cmp(b, i, j, |b|)
  {
    CmpStep(b, i, j);
    CmpMod(b, 0, j + 1, |b|);
    CmpMod(b, Next(b, i), 0, |b|);
  }

  lemma SuccessorsSorted(b: seq<Byte>, p: seq<nat>, c: Byte)
    requires IsRotationOrder(b, p)
    ensures Distinct(Successors(b, p, c)) && Ordered(b, Successors(b, p, c), |b|)
  {
    var fc := FirstColumn(b, p);
    var f := Places(fc, c);
    var y := Successors(b, p, c);
    forall i, j | 0 <= i < j < |y| ensures Differ(y, i, j) && InOrder(b, y, |b|, i, j) {
      PlaceIs(fc, c, i);
      PlaceIs(fc, c, j);
      PlacesIncrease(fc, c, i, j);
      assert Differ(p, f[i], f[j]) && InOrder(b, p, |b|, f[i], f[j]);
      NextSorted(b, p[f[i]], p[f[j]]);
    }
  }

  lemma PrecededSorted(b: seq<Byte>, p: seq<nat>, c: Byte)
    requires IsRotationOrder(b, p)
    ensures Distinct(Preceded(b, p, c)) && Ordered(b, Preceded(b, p, c), |b|)
  {
    var lc := LastColumn(b, p);
    var l := Places(lc, c);
    var x := Preceded(b, p, c);
    forall i, j | 0 <= i < j < |x| ensures Differ(x, i, j) && InOrder(b, x, |b|, i, j) {
      PlaceIs(lc, c, i);
      PlaceIs(lc, c, j);
      PlacesIncrease(lc, c, i, j);
      assert Differ(p, l[i], l[j]) && InOrder(b, p, |b|, l[i], l[j]);
    }
  }

  lemma AtBefore(b: seq<Byte>, q: nat)
    requires |b| > 0 && q < |b|
    ensures At(b, Next(b, q) + |b| - 1) == At(b, q)
  {
    if q + 1 < |b| {
      AtMod(b, q);
    }
  }

  lemma SuccessorIsPreceded(b: seq<Byte>, p: seq<nat>, c: Byte, a: nat)
    requires |b| > 0 && IsPermutation(p, |b|) && a < |Successors(b, p, c)|
    ensures Successors(b, p, c)[a] in Preceded(b, p, c)
  {
    PlaceIs(FirstColumn(b, p), c, a);
    var q := p[Places(FirstColumn(b, p), c)[a]];
    AtBefore(b, q);
    PermutationIsOnto(p, |b|, Next(b, q));
    var i :| 0 <= i < |b| && p[i] == Next(b, q);
    assert LastColumn(b, p)[i] == c;
    var u := PlaceOf(LastColumn(b, p), i);
    assert Preceded(b, p, c)[u] == Next(b, q);
  }

  lemma PrecededIsSuccessor(b: seq<Byte>, p: seq<nat>, c: Byte, a: nat)
    requires |b| > 0 && IsPermutation(p, |b|) && a < |Preceded(b, p, c)|
    ensures Preceded(b, p, c)[a] in Successors(b, p, c)
  {
    PlaceIs(LastColumn(b, p), c, a);
    var q := p[Places(LastColumn(b, p), c)[a]];
    var before := if q == 0 then |b| - 1 else q - 1;
    AtBefore(b, before);
    PermutationIsOnto(p, |b|, before);
    var i :| 0 <= i < |b| && p[i] == before;
    assert FirstColumn(b, p)[i] == c;
    var u := PlaceOf(FirstColumn(b, p), i);
    assert Successors(b, p, c)[u] == q;
  }

  /** Both lists hold the same rotations. */
  lemma SameRotations(b: seq<Byte>, p: seq<nat>, c: Byte)
    requires |b| > 0 && IsPermutation(p, |b|)
    ensures Elements(Successors(b, p, c)) == Elements(Preceded(b, p, c))
  {
    forall a | 0 <= a < |Successors(b, p, c)| ensures Successors(b, p, c)[a] in Preceded(b, p, c) {
      SuccessorIsPreceded(b, p, c, a);
    }
    forall a | 0 <= a < |Preceded(b, p, c)| ensures Preceded(b, p, c)[a] in Successors(b, p, c) {
      PrecededIsSuccessor(b, p, c, a);
    }
  }

  lemma SameCounts(b: seq<Byte>, p: seq<nat>, c: Byte)
    requires IsRotationOrder(b, p)
    ensures |Places(FirstColumn(b, p), c)| == |Places(LastColumn(b, p), c)|
  {
    SuccessorsSorted(b, p, c);
    PrecededSorted(b, p, c);
    SameRotations(b, p, c);
    InjectiveSize(Successors(b, p, c));
    InjectiveSize(Preceded(b, p, c));
  }

  lemma {:induction false} SameBelow(b: seq<Byte>, p: seq<nat>, c: nat)
    requires IsRotationOrder(b, p) && c <= 256
    ensures Below(FirstColumn(b, p), c) == Below(LastColumn(b, p), c)
  {
    if c > 0 {
      SameBelow(b, p, c - 1);
      SameCounts(b, p, c - 1);
    }
  }

  lemma FirstColumnSorted(b: seq<Byte>, p: seq<nat>)
    requires IsRotationOrder(b, p)
    ensures forall i, j :: 0 <= i < j < |p| ==> FirstColumn(b, p)[i] <= FirstColumn(b, p)[j]
  {
    forall i, j | 0 <= i < j < |p| ensures FirstColumn(b, p)[i] <= FirstColumn(b, p)[j] {
      assert InOrder(b, p, |b|, i, j);
    }
  }

  lemma ThreadOfRow(b: seq<Byte>, p: seq<nat>, j: nat) returns (a: nat)
    requires IsRotationOrder(b, p) && j < |b|
    ensures var c := FirstColumn(b, p)[j];
      && a < |Places(FirstColumn(b, p), c)| == |Places(LastColumn(b, p), c)|
      && Places(FirstColumn(b, p), c)[a] == j
      && Threads(LastColumn(b, p))[j] == Places(LastColumn(b, p), c)[a]
  {
    var fc, lc := FirstColumn(b, p), LastColumn(b, p);
    a := PlaceOf(fc, j);
    FirstColumnSorted(b, p);
    SortedPlaces(fc, fc[j], a);
    SameBelow(b, p, fc[j]);
    SameCounts(b, p, fc[j]);
    ThreadAt(lc, fc[j], a, 256);
  }

  /** Where row j comes among the rows with the same first byte, so does the row
      its thread entry names among the rows with that last byte. */
  lemma ThreadRank(b: seq<Byte>, p: seq<nat>, j: nat) returns (c: Byte, a: nat)
    requires IsRotationOrder(b, p) && j < |b|
    ensures a < |Successors(b, p, c)| == |Preceded(b, p, c)|
    ensures Successors(b, p, c)[a] == Next(b, p[j])
    ensures Preceded(b, p, c)[a] == p[Threads(LastColumn(b, p))[j]]
  {
    c := FirstColumn(b, p)[j];
    a := ThreadOfRow(b, p, j);
  }

  lemma ListsAgree(b: seq<Byte>, p: seq<nat>, c: Byte, a: nat)
    requires IsRotationOrder(b, p)
    requires a < |Successors(b, p, c)| == |Preceded(b, p, c)|
    ensures Cmp(b, Preceded(b, p, c)[a], Successors(b, p, c)[a], |b|) == 0
  {
    var y, x := Successors(b, p, c), Preceded(b, p, c);
    SuccessorsSorted(b, p, c);
    PrecededSorted(b, p, c);
    SameRotations(b, p, c);
    SortedListsAgree(b, x, y, |b|, a);
    SortedListsAgree(b, y, x, |b|, a);
    CmpAntisym(b, x[a], y[a], |b|);
  }

  /** One step along the thread from row j leads to a row whose rotation equals
      the rotation one byte further on. */
  lemma ThreadStep(b: seq<Byte>, p: seq<nat>, j: nat)
    requires IsRotationOrder(b, p) && j < |b|
    ensures Cmp(b, p[Threads(LastColumn(b, p))[j]], p[j] + 1, |b|) == 0
  {
    var c, a := ThreadRank(b, p, j);
    ListsAgree(b, p, c, a);
    NextIsOneOn(b, Preceded(b, p, c)[a], p[j]);
  }

  lemma NextIsOneOn(b: seq<Byte>, x: nat, q: nat)
    requires |b| > 0 && q < |b|
    ensures Cmp(b, x, Next(b, q), |b|) == Cmp(b, x, q + 1, |b|)
  {
    CmpMod(b, x, 0, |b|);
  }

  lemma {:induction false} FollowRotation(b: seq<Byte>, p: seq<nat>, orig: nat, k: nat)
    requires IsRotationOrder(b, p) && orig < |b|
    ensures Cmp(b, p[Follow(Threads(LastColumn(b, p)), orig, k)], p[orig] + k, |b|) == 0
  {
    var n := |b|;
    var t := Threads(LastColumn(b, p));
    if k == 0 {
      CmpRefl(b, p[orig], n);
    } else {
      var j := Follow(t, orig, k - 1);
      FollowRotation(b, p, orig, k - 1);
      assert At(b, p[j]) == At(b, p[orig] + k - 1);
      CmpStep(b, p[j], p[orig] + k - 1);
      ThreadStep(b, p, j);
      CmpTrans(b, p[t[j]], p[j] + 1, p[orig] + k, n);
    }
  }

  /** The transform can be undone: any rotation order of the block, with ties in
      any order, and any row that equals the block, give the block back. */
  lemma UnsortLastColumn(b: seq<Byte>, p: seq<nat>, orig: nat)
    requires IsRotationOrder(b, p) && orig < |b|
    requires Cmp(b, p[orig], 0, |b|) == 0
    ensures Unsort(LastColumn(b, p), orig) == b
  {
    var out := Unsort(LastColumn(b, p), orig);
    forall k | 0 <= k < |b| ensures out[k] == b[k] { UnsortAt(b, p, orig, k); }
  }

  lemma UnsortAt(b: seq<Byte>, p: seq<nat>, orig: nat, k: nat)
    requires IsRotationOrder(b, p) && orig < |b| && k < |b|
    requires Cmp(b, p[orig], 0, |b|) == 0
    ensures Unsort(LastColumn(b, p), orig)[k] == b[k]
  {
    var j := Follow(Threads(LastColumn(b, p)), orig, k + 1);
    FollowRotation(b, p, orig, k + 1);
    UnsortByte(b, p, orig, k, j);
  }

  lemma UnsortByte(b: seq<Byte>, p: seq<nat>, orig: nat, k: nat, j: nat)
    requires |b| > 0 && IsPermutation(p, |b|) && orig < |b| && k < |b|
    requires j == Follow(Threads(LastColumn(b, p)), orig, k + 1)
    requires Cmp(b, p[j], p[orig] + (k + 1), |b|) == 0 && Cmp(b, p[orig], 0, |b|) == 0
    ensures Unsort(LastColumn(b, p), orig)[k] == b[k]
  {
    RowByte(b, p[j], p[orig], k);
  }

  lemma RowByte(b: seq<Byte>, i: nat, o: nat, k: nat)
    requires |b| > 0 && k < |b|
    requires Cmp(b, i, o + k + 1, |b|) == 0 && Cmp(b, o, 0, |b|) == 0
    ensures At(b, i + |b| - 1) == b[k]
  {
    CmpZeroAt(b, i, o + k + 1, |b|, |b| - 1);
    AtMod(b, o + k);
    assert o + k + 1 + (|b| - 1) == o + k + |b|;
    CmpZeroAt(b, o, 0, |b|, k);
  }
}
