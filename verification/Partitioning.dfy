/** Sorting positions by keys: the order, and the three-way partition in place that both
    quicksorts of blocksort.c use. */
module Partitioning {
  import opened Basics
  import opened Rearranging

  /** Every pointer in f has a key. */
  ghost predicate HasKeys(f: seq<nat>, keys: seq<nat>) {
    forall i :: 0 <= i < |f| ==> f[i] < |keys|
  }

  ghost function Key(f: seq<nat>, keys: seq<nat>, i: nat): nat
    requires i < |f| && HasKeys(f, keys)
  {
    keys[f[i]]
  }

  /** The keys increase along f[lo..hi]. */
  ghost predicate KeysSorted(f: seq<nat>, keys: seq<nat>, lo: int, hi: int)
    requires 0 <= lo && hi <= |f| && HasKeys(f, keys)
  {
    forall x, y :: lo <= x < y < hi ==> Key(f, keys, x) <= Key(f, keys, y)
  }

  // ---------- the partition step ----------

  method Swap(fmap: array<nat>, i: nat, j: nat, ghost lo: nat, ghost hi: nat)
    requires lo <= i < hi && lo <= j < hi && hi <= fmap.Length
    modifies fmap
    ensures fmap[..] == old(fmap[..])[i := old(fmap[j])][j := old(fmap[i])]
    ensures Rearranged(old(fmap[..]), fmap[..], lo, hi)
  {
    SwapRearranges(fmap[..], i, j, lo, hi);
    fmap[i], fmap[j] := fmap[j], fmap[i];
  }

  /** Swaps the n elements from p1 with the n elements from p2. */
  method VectorSwap(fmap: array<nat>, p1: nat, p2: nat, n: nat, ghost lo: nat, ghost hi: nat)
    requires lo <= p1 <= p1 + n <= p2 <= p2 + n <= hi <= fmap.Length
    modifies fmap
    ensures Rearranged(old(fmap[..]), fmap[..], lo, hi)
    ensures VectorSwapped(old(fmap[..]), fmap[..], p1, p2, n)
  {
    ghost var s := fmap[..];
    var k := 0;
    while k < n
      invariant k <= n
      invariant Rearranged(s, fmap[..], lo, hi)
      invariant VectorSwapped(s, fmap[..], p1, p2, k)
    {
      ghost var t := fmap[..];
      SwapOneMore(s, t, p1, p2, k);
      RearrangedSwap(s, t, p1 + k, p2 + k, lo, hi);
      fmap[p1 + k], fmap[p2 + k] := fmap[p2 + k], fmap[p1 + k];
      assert fmap[..] == t[p1 + k := t[p2 + k]][p2 + k := t[p1 + k]];
      k := k + 1;
    }
  }

  /** g is f with the n elements at p1 and the n elements at p2 exchanged. */
  ghost predicate VectorSwapped(f: seq<nat>, g: seq<nat>, p1: nat, p2: nat, n: nat) {
    && |f| == |g| && p1 + n <= p2 && p2 + n <= |f|
    && (forall k :: p1 <= k < p1 + n ==> g[k] == f[k + (p2 - p1)])
    && (forall k :: p2 <= k < p2 + n ==> g[k] == f[k - (p2 - p1)])
    && (forall k :: 0 <= k < |f| && !(p1 <= k < p1 + n) && !(p2 <= k < p2 + n) ==> g[k] == f[k])
  }

  lemma SwapOneMore(s: seq<nat>, t: seq<nat>, p1: nat, p2: nat, k: nat)
    requires p1 + k < p2 && p2 + k < |s|
    requires VectorSwapped(s, t, p1, p2, k)
    ensures VectorSwapped(s, t[p1 + k := t[p2 + k]][p2 + k := t[p1 + k]], p1, p2, k + 1)
  {}

  /** f[a..z] splits at n and m into keys below, equal to and above med. */
  ghost predicate Partitioned(f: seq<nat>, keys: seq<nat>, lo: nat, n: int, m: int, hi: int, med: nat)
    requires HasKeys(f, keys) && lo <= n + 1 <= m <= hi + 1 <= |f|
  {
    && (forall x :: lo <= x <= n ==> Key(f, keys, x) < med)
    && (forall x :: n < x < m ==> Key(f, keys, x) == med)
    && (forall x :: m <= x <= hi ==> Key(f, keys, x) > med)
  }

  /** Where the partition stands: equal keys at both ends, then the smaller and
      the larger keys found so far, and f[unLo..unHi] still unseen. */
  ghost predicate Scanning(f: seq<nat>, keys: seq<nat>, lo: nat, ltLo: int, unLo: int,
                           unHi: int, gtHi: int, hi: int, med: nat)
    requires HasKeys(f, keys) && hi < |f|
  {
    && lo <= ltLo <= unLo <= unHi + 1 <= gtHi + 1 <= hi + 1
    && (forall x :: lo <= x < ltLo ==> Key(f, keys, x) == med)
    && (forall x :: ltLo <= x < unLo ==> Key(f, keys, x) < med)
    && (forall x :: unHi < x <= gtHi ==> Key(f, keys, x) > med)
    && (forall x :: gtHi < x <= hi ==> Key(f, keys, x) == med)
  }

  lemma EqualLow(f: seq<nat>, keys: seq<nat>, lo: nat, ltLo: nat, unLo: nat, unHi: int, gtHi: int, hi: nat, med: nat)
    requires HasKeys(f, keys) && hi < |f|
    requires Scanning(f, keys, lo, ltLo, unLo, unHi, gtHi, hi, med)
    requires unLo <= unHi && Key(f, keys, unLo) == med
    ensures var g := f[unLo := f[ltLo]][ltLo := f[unLo]];
      HasKeys(g, keys) && Scanning(g, keys, lo, ltLo + 1, unLo + 1, unHi, gtHi, hi, med)
  {
    var g := f[unLo := f[ltLo]][ltLo := f[unLo]];
    assert Key(f, keys, ltLo) == Key(g, keys, unLo) && Key(f, keys, unLo) == Key(g, keys, ltLo);
    assert forall x :: lo <= x <= hi && x != unLo && x != ltLo ==> Key(g, keys, x) == Key(f, keys, x);
  }

  lemma EqualHigh(f: seq<nat>, keys: seq<nat>, lo: nat, ltLo: nat, unLo: nat, unHi: int, gtHi: int, hi: nat, med: nat)
    requires HasKeys(f, keys) && hi < |f|
    requires Scanning(f, keys, lo, ltLo, unLo, unHi, gtHi, hi, med)
    requires unLo <= unHi && Key(f, keys, unHi) == med
    requires Key(f, keys, unLo) > med
    ensures var g := f[unHi := f[gtHi]][gtHi := f[unHi]];
      && HasKeys(g, keys) && Scanning(g, keys, lo, ltLo, unLo, unHi - 1, gtHi - 1, hi, med)
      && g[unLo] == f[unLo]
  {
    var g := f[unHi := f[gtHi]][gtHi := f[unHi]];
    assert Key(f, keys, gtHi) == Key(g, keys, unHi) && Key(f, keys, unHi) == Key(g, keys, gtHi);
    assert forall x :: lo <= x <= hi && x != unHi && x != gtHi ==> Key(g, keys, x) == Key(f, keys, x);
  }

  lemma Exchange(f: seq<nat>, keys: seq<nat>, lo: nat, ltLo: nat, unLo: nat, unHi: int, gtHi: int, hi: nat, med: nat)
    requires HasKeys(f, keys) && hi < |f|
    requires Scanning(f, keys, lo, ltLo, unLo, unHi, gtHi, hi, med)
    requires unLo < unHi && Key(f, keys, unLo) > med && Key(f, keys, unHi) < med
    ensures var g := f[unLo := f[unHi]][unHi := f[unLo]];
      HasKeys(g, keys) && Scanning(g, keys, lo, ltLo, unLo + 1, unHi - 1, gtHi, hi, med)
  {
    var g := f[unLo := f[unHi]][unHi := f[unLo]];
    assert forall x :: lo <= x <= hi && x != unLo && x != unHi ==> Key(g, keys, x) == Key(f, keys, x);
  }

  /** Moves unLo up to the first key above med. */
  method ScanUp(fmap: array<nat>, eclass: seq<nat>, lo: nat, ltLo0: nat, unLo0: nat,
                unHi: int, ghost gtHi: int, ghost hi: nat, med: nat)
    returns (ltLo: nat, unLo: nat)
    requires hi < fmap.Length && HasKeys(fmap[..], eclass)
    requires Scanning(fmap[..], eclass, lo, ltLo0, unLo0, unHi, gtHi, hi, med)
    modifies fmap
    ensures HasKeys(fmap[..], eclass)
    ensures Scanning(fmap[..], eclass, lo, ltLo, unLo, unHi, gtHi, hi, med)
    ensures Rearranged(old(fmap[..]), fmap[..], lo, hi + 1)
    ensures unLo >= unLo0 && (unLo <= unHi ==> Key(fmap[..], eclass, unLo) > med)
  {
    ghost var s := fmap[..];
    ltLo, unLo := ltLo0, unLo0;
    while unLo <= unHi
      invariant unLo >= unLo0 && HasKeys(fmap[..], eclass)
      invariant Scanning(fmap[..], eclass, lo, ltLo, unLo, unHi, gtHi, hi, med)
      invariant Rearranged(s, fmap[..], lo, hi + 1)
    {
      var n := eclass[fmap[unLo]] - med;
      if n == 0 {
        ghost var t := fmap[..];
        EqualLow(t, eclass, lo, ltLo, unLo, unHi, gtHi, hi, med);
        Swap(fmap, unLo, ltLo, lo, hi + 1);
        RearrangedTrans(s, t, fmap[..], lo, hi + 1);
        ltLo := ltLo + 1;
        unLo := unLo + 1;
        continue;
      }
      if n > 0 { break; }
      unLo := unLo + 1;
    }
  }

  /** Moves unHi down to the first key below med. */
  method ScanDown(fmap: array<nat>, eclass: seq<nat>, ghost lo: nat, ghost ltLo: nat, unLo: nat,
                  unHi0: int, gtHi0: int, hi: nat, med: nat)
    returns (unHi: int, gtHi: int)
    requires hi < fmap.Length && HasKeys(fmap[..], eclass)
    requires Scanning(fmap[..], eclass, lo, ltLo, unLo, unHi0, gtHi0, hi, med)
    requires unLo <= unHi0 ==> Key(fmap[..], eclass, unLo) > med
    modifies fmap
    ensures HasKeys(fmap[..], eclass)
    ensures Scanning(fmap[..], eclass, lo, ltLo, unLo, unHi, gtHi, hi, med)
    ensures Rearranged(old(fmap[..]), fmap[..], lo, hi + 1)
    ensures unHi <= unHi0
    ensures unLo <= unHi ==> Key(fmap[..], eclass, unHi) < med && Key(fmap[..], eclass, unLo) > med
  {
    ghost var s := fmap[..];
    unHi, gtHi := unHi0, gtHi0;
    while unLo <= unHi
      invariant unHi <= unHi0 && HasKeys(fmap[..], eclass)
      invariant unLo <= unHi ==> Key(fmap[..], eclass, unLo) > med
      invariant Scanning(fmap[..], eclass, lo, ltLo, unLo, unHi, gtHi, hi, med)
      invariant Rearranged(s, fmap[..], lo, hi + 1)
      decreases unHi
    {
      var n := eclass[fmap[unHi]] - med;
      if n == 0 {
        ghost var t := fmap[..];
        EqualHigh(t, eclass, lo, ltLo, unLo, unHi, gtHi, hi, med);
        Swap(fmap, unHi, gtHi, lo, hi + 1);
        RearrangedTrans(s, t, fmap[..], lo, hi + 1);
        gtHi := gtHi - 1;
        unHi := unHi - 1;
        continue;
      }
      if n < 0 { break; }
      unHi := unHi - 1;
    }
  }

  /** Splits f[lo..hi] into keys below, above and equal to med, the equal ones at the ends. */
  method Scan(fmap: array<nat>, eclass: seq<nat>, lo: nat, hi: nat, med: nat)
    returns (ltLo: int, unLo: int, unHi: int, gtHi: int)
    requires lo <= hi < fmap.Length && HasKeys(fmap[..], eclass)
    modifies fmap
    ensures HasKeys(fmap[..], eclass)
    ensures Rearranged(old(fmap[..]), fmap[..], lo, hi + 1)
    ensures Scanning(fmap[..], eclass, lo, ltLo, unLo, unHi, gtHi, hi, med)
    ensures unHi == unLo - 1
  {
    ghost var s := fmap[..];
    ltLo, unLo, unHi, gtHi := lo, lo, hi, hi;
    while true
      invariant HasKeys(fmap[..], eclass)
      invariant Scanning(fmap[..], eclass, lo, ltLo, unLo, unHi, gtHi, hi, med)
      invariant Rearranged(s, fmap[..], lo, hi + 1)
      decreases unHi - unLo
    {
      ghost var t := fmap[..];
      ltLo, unLo := ScanUp(fmap, eclass, lo, ltLo, unLo, unHi, gtHi, hi, med);
      RearrangedTrans(s, t, fmap[..], lo, hi + 1);
      t := fmap[..];
      unHi, gtHi := ScanDown(fmap, eclass, lo, ltLo, unLo, unHi, gtHi, hi, med);
      RearrangedTrans(s, t, fmap[..], lo, hi + 1);
      if unLo > unHi { break; }
      t := fmap[..];
      Exchange(t, eclass, lo, ltLo, unLo, unHi, gtHi, hi, med);
      Swap(fmap, unLo, unHi, lo, hi + 1);
      RearrangedTrans(s, t, fmap[..], lo, hi + 1);
      unLo := unLo + 1;
      unHi := unHi - 1;
    }
  }

  /** Three-way partition of f[lo..hi] around med, Bentley-McIlroy style: equal
      keys gather at both ends and are then swapped into the middle. */
  method Partition(fmap: array<nat>, eclass: seq<nat>, lo: nat, hi: nat, med: nat)
    returns (n: int, m: int)
    requires lo <= hi < fmap.Length && HasKeys(fmap[..], eclass)
    requires exists x :: lo <= x <= hi && Key(fmap[..], eclass, x) == med
    modifies fmap
    ensures HasKeys(fmap[..], eclass)
    ensures Rearranged(old(fmap[..]), fmap[..], lo, hi + 1)
    ensures lo <= n + 1 < m <= hi + 1
    ensures Partitioned(fmap[..], eclass, lo, n, m, hi, med)
  {
    ghost var s := fmap[..];
    var ltLo, unLo, unHi, gtHi := Scan(fmap, eclass, lo, hi, med);
    MedianSurvives(s, fmap[..], eclass, lo, hi, med);
    if gtHi < ltLo {
      return lo - 1, hi + 1;
    }
    ghost var f := fmap[..];
    LowExchange(fmap, eclass, lo, ltLo, unLo, hi, med);
    RearrangedTrans(s, f, fmap[..], lo, hi + 1);
    ghost var g := fmap[..];
    forall x | unLo <= x <= hi ensures Key(g, eclass, x) == Key(f, eclass, x) {}
    HighExchange(fmap, eclass, lo, unLo, gtHi, hi, med);
    RearrangedTrans(s, g, fmap[..], lo, hi + 1);
    forall x | lo <= x < unLo ensures Key(fmap[..], eclass, x) == Key(g, eclass, x) {}
    n := lo + unLo - ltLo - 1;
    m := hi - (gtHi - unHi) + 1;
  }

  /** After the low exchange: smaller keys first, then the equal ones. */
  lemma LowToMiddle(f: seq<nat>, g: seq<nat>, keys: seq<nat>, lo: nat, ltLo: nat, unLo: nat, med: nat, n: nat)
    requires lo <= ltLo <= unLo <= |f| && HasKeys(f, keys) && HasKeys(g, keys)
    requires forall x :: lo <= x < ltLo ==> Key(f, keys, x) == med
    requires forall x :: ltLo <= x < unLo ==> Key(f, keys, x) < med
    requires n == if ltLo - lo < unLo - ltLo then ltLo - lo else unLo - ltLo
    requires VectorSwapped(f, g, lo, unLo - n, n)
    ensures forall x :: lo <= x < lo + unLo - ltLo ==> Key(g, keys, x) < med
    ensures forall x :: lo + unLo - ltLo <= x < unLo ==> Key(g, keys, x) == med
    ensures forall x :: unLo <= x < |f| ==> g[x] == f[x]
  {
    var d := unLo - n - lo;
    forall x | lo <= x < lo + n ensures Key(g, keys, x) == Key(f, keys, x + d) {}
    forall x | unLo - n <= x < unLo ensures Key(g, keys, x) == Key(f, keys, x - d) {}
    forall x | lo + n <= x < unLo - n ensures Key(g, keys, x) == Key(f, keys, x) {}
  }

  /** After the high exchange: equal keys first, then the larger ones. */
  lemma HighToMiddle(g: seq<nat>, h: seq<nat>, keys: seq<nat>, unLo: nat, gtHi: int, hi: nat, med: nat, m: nat)
    requires unLo - 1 <= gtHi <= hi < |g| && HasKeys(g, keys) && HasKeys(h, keys)
    requires forall x :: unLo <= x <= gtHi ==> Key(g, keys, x) > med
    requires forall x :: gtHi < x <= hi ==> Key(g, keys, x) == med
    requires m == if hi - gtHi < gtHi - (unLo - 1) then hi - gtHi else gtHi - (unLo - 1)
    requires VectorSwapped(g, h, unLo, hi - m + 1, m)
    ensures forall x :: unLo <= x < hi - (gtHi - (unLo - 1)) + 1 ==> Key(h, keys, x) == med
    ensures forall x :: hi - (gtHi - (unLo - 1)) + 1 <= x <= hi ==> Key(h, keys, x) > med
    ensures forall x :: 0 <= x < unLo ==> h[x] == g[x]
  {
    var e := hi - m + 1 - unLo;
    forall x | unLo <= x < unLo + m ensures Key(h, keys, x) == Key(g, keys, x + e) {}
    forall x | hi - m + 1 <= x <= hi ensures Key(h, keys, x) == Key(g, keys, x - e) {}
    forall x | unLo + m <= x < hi - m + 1 ensures Key(h, keys, x) == Key(g, keys, x) {}
  }

  /** Swaps the equal keys at the low end into the middle. */
  method LowExchange(fmap: array<nat>, eclass: seq<nat>, lo: nat, ltLo: nat, unLo: nat,
                     ghost hi: nat, ghost med: nat)
    requires lo <= ltLo <= unLo <= hi + 1 <= fmap.Length && HasKeys(fmap[..], eclass)
    requires forall x :: lo <= x < ltLo ==> Key(fmap[..], eclass, x) == med
    requires forall x :: ltLo <= x < unLo ==> Key(fmap[..], eclass, x) < med
    modifies fmap
    ensures HasKeys(fmap[..], eclass) && Rearranged(old(fmap[..]), fmap[..], lo, hi + 1)
    ensures forall x :: lo <= x < lo + unLo - ltLo ==> Key(fmap[..], eclass, x) < med
    ensures forall x :: lo + unLo - ltLo <= x < unLo ==> Key(fmap[..], eclass, x) == med
    ensures forall x :: unLo <= x < fmap.Length ==> fmap[x] == old(fmap[x])
  {
    var n := if ltLo - lo < unLo - ltLo then ltLo - lo else unLo - ltLo;
    ghost var f := fmap[..];
    VectorSwap(fmap, lo, unLo - n, n, lo, hi + 1);
    RearrangedBelow(f, fmap[..], lo, hi + 1, |eclass|);
    LowToMiddle(f, fmap[..], eclass, lo, ltLo, unLo, med, n);
  }

  /** Swaps the equal keys at the high end into the middle. */
  method HighExchange(fmap: array<nat>, eclass: seq<nat>, ghost lo: nat, unLo: nat, gtHi: int, hi: nat,
                      ghost med: nat)
    requires lo <= unLo <= gtHi + 1 <= hi + 1 <= fmap.Length && HasKeys(fmap[..], eclass)
    requires forall x :: unLo <= x <= gtHi ==> Key(fmap[..], eclass, x) > med
    requires forall x :: gtHi < x <= hi ==> Key(fmap[..], eclass, x) == med
    modifies fmap
    ensures HasKeys(fmap[..], eclass) && Rearranged(old(fmap[..]), fmap[..], lo, hi + 1)
    ensures forall x :: unLo <= x < hi - (gtHi - (unLo - 1)) + 1 ==> Key(fmap[..], eclass, x) == med
    ensures forall x :: hi - (gtHi - (unLo - 1)) + 1 <= x <= hi ==> Key(fmap[..], eclass, x) > med
    ensures forall x :: 0 <= x < unLo ==> fmap[x] == old(fmap[x])
  {
    var unHi := unLo - 1;
    var m := if hi - gtHi < gtHi - unHi then hi - gtHi else gtHi - unHi;
    ghost var f := fmap[..];
    VectorSwap(fmap, unLo, hi - m + 1, m, lo, hi + 1);
    RearrangedBelow(f, fmap[..], lo, hi + 1, |eclass|);
    HighToMiddle(f, fmap[..], eclass, unLo, gtHi, hi, med, m);
  }

  lemma MedianSurvives(s: seq<nat>, t: seq<nat>, keys: seq<nat>, lo: nat, hi: nat, med: nat)
    requires Rearranged(s, t, lo, hi + 1) && HasKeys(s, keys) && HasKeys(t, keys)
    requires exists x :: lo <= x <= hi && Key(s, keys, x) == med
    ensures exists x :: lo <= x <= hi && Key(t, keys, x) == med
  {
    var x :| lo <= x <= hi && Key(s, keys, x) == med;
    RearrangedSymmetric(s, t, lo, hi + 1);
    var y := RearrangedFrom(t, s, lo, hi + 1, x);
    assert Key(t, keys, y) == med;
  }
}
