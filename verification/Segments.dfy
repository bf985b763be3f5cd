/** What is left to sort: the stretches on a quicksort's explicit stack. */
module Segments {
  import opened Basics
  import opened Rearranging
  import opened Partitioning

  datatype Segment = Segment(lo: int, hi: int) {
    function Size(): int { hi - lo + 1 }
  }

  /** Positions x <= y lie in one segment that is still to be sorted. */
  ghost predicate Together(segs: seq<Segment>, x: int, y: int) {
    exists k :: 0 <= k < |segs| && segs[k].lo <= x && y <= segs[k].hi
  }

  ghost predicate OrderedExcept(f: seq<nat>, keys: seq<nat>, segs: seq<Segment>, lo: nat, hi: int)
    requires HasKeys(f, keys) && hi < |f|
  {
    forall x, y :: lo <= x < y <= hi && !Together(segs, x, y) ==> Key(f, keys, x) <= Key(f, keys, y)
  }

  /** The segments lie in [lo, hi] and do not overlap. */
  ghost predicate Apart(segs: seq<Segment>, lo: nat, hi: int) {
    && (forall k :: 0 <= k < |segs| ==> lo <= segs[k].lo <= segs[k].hi + 1 <= hi + 1)
    && (forall k, l :: 0 <= k < l < |segs| ==> segs[k].hi < segs[l].lo || segs[l].hi < segs[k].lo)
  }

  lemma TogetherIn(rest: seq<Segment>, parts: seq<Segment>, x: int, y: int)
    ensures Together(rest + parts, x, y) <==> Together(rest, x, y) || Together(parts, x, y)
  {
    var all := rest + parts;
    assert forall k :: 0 <= k < |rest| ==> all[k] == rest[k];
    assert forall k :: 0 <= k < |parts| ==> all[|rest| + k] == parts[k];
  }

  /** Rearranging the top segment disturbs no order that reaches outside it. */
  lemma OutsideStaysOrdered(f: seq<nat>, g: seq<nat>, keys: seq<nat>, segs: seq<Segment>, lo: nat, hi: int,
                            x: nat, y: nat)
    requires segs != [] && Apart(segs, lo, hi) && hi < |f| && HasKeys(f, keys) && HasKeys(g, keys)
    requires OrderedExcept(f, keys, segs, lo, hi)
    requires var top := segs[|segs| - 1]; Rearranged(f, g, top.lo, top.hi + 1)
    requires lo <= x < y <= hi && !Together(segs, x, y)
    ensures Key(g, keys, x) <= Key(g, keys, y)
  {
    var top := segs[|segs| - 1];
    if top.lo <= x <= top.hi {
      var i := RearrangedFrom(f, g, top.lo, top.hi + 1, x);
      assert !Together(segs, i, y);
      assert Key(f, keys, i) <= Key(f, keys, y);
    } else if top.lo <= y <= top.hi {
      var j := RearrangedFrom(f, g, top.lo, top.hi + 1, y);
      assert !Together(segs, x, j);
      assert Key(f, keys, x) <= Key(f, keys, j);
    } else {
      assert Key(f, keys, x) <= Key(f, keys, y);
    }
  }

  /** The top segment has been rearranged; parts of it that are not yet in order replace it. */
  lemma TopReplaced(f: seq<nat>, g: seq<nat>, keys: seq<nat>, segs: seq<Segment>, parts: seq<Segment>, lo: nat, hi: int)
    requires segs != [] && Apart(segs, lo, hi) && hi < |f| && HasKeys(f, keys) && HasKeys(g, keys)
    requires OrderedExcept(f, keys, segs, lo, hi)
    requires var top := segs[|segs| - 1];
      && Rearranged(f, g, top.lo, top.hi + 1) && Apart(parts, top.lo, top.hi)
      && OrderedExcept(g, keys, parts, top.lo, top.hi)
    ensures Apart(segs[..|segs| - 1] + parts, lo, hi)
    ensures OrderedExcept(g, keys, segs[..|segs| - 1] + parts, lo, hi)
  {
    var rest, top := segs[..|segs| - 1], segs[|segs| - 1];
    assert segs == rest + [top];
    PartsAreApart(rest, top, segs, parts, lo, hi);
    forall x, y | lo <= x < y <= hi && !Together(rest + parts, x, y) ensures Key(g, keys, x) <= Key(g, keys, y) {
      TogetherIn(rest, parts, x, y);
      if !(top.lo <= x && y <= top.hi) {
        TogetherIn(rest, [top], x, y);
        OutsideStaysOrdered(f, g, keys, segs, lo, hi, x, y);
      }
    }
  }

  lemma PartsAreApart(rest: seq<Segment>, top: Segment, segs: seq<Segment>, parts: seq<Segment>, lo: nat, hi: int)
    requires segs == rest + [top] && Apart(segs, lo, hi) && lo <= top.lo && Apart(parts, top.lo, top.hi)
    ensures Apart(rest + parts, lo, hi)
  {
    var all, k := rest + parts, |rest|;
    assert segs[k] == top;
    forall i | 0 <= i < |all| ensures lo <= all[i].lo <= all[i].hi + 1 <= hi + 1 {
      if i < k { assert all[i] == segs[i]; } else { assert all[i] == parts[i - k]; }
    }
    forall i, j | 0 <= i < j < |all| ensures all[i].hi < all[j].lo || all[j].hi < all[i].lo {
      if i < k {
        assert all[i] == segs[i];
        if j < k { assert all[j] == segs[j]; } else { assert segs[i].hi < top.lo || top.hi < segs[i].lo; }
      } else {
        assert all[i] == parts[i - k] && all[j] == parts[j - k];
      }
    }
  }

  // ---------- sizes along the stack ----------

  ghost predicate Fits(size: int, k: nat, total: int) { size * Pow2(k) <= total }

  lemma MulMonotone(a: int, b: int, c: nat)
    requires a <= b
    ensures a * c <= b * c
  {}

  lemma FitsHalf(size: int, a: int, z: int, k: nat, total: int)
    requires Fits(size, k, total) && a <= size && 2 * z <= size
    ensures Fits(a, k, total) && Fits(z, k + 1, total)
  {
    MulMonotone(a, size, Pow2(k));
    MulMonotone(2 * z, size, Pow2(k));
    assert z * Pow2(k + 1) == (2 * z) * Pow2(k);
  }

  /** A segment with more than ten elements cannot lie high up. */
  lemma FitsLow(size: int, k: nat, total: int)
    requires Fits(size, k, total) && size > 10 && total < Pow2(31)
    ensures k < 28
  {
    Pow2Sum(28, 3);
    assert Pow2(31) <= 11 * Pow2(28);
    if k >= 28 {
      Pow2Monotone(28, k);
      MulMonotone(11, size, Pow2(k));
    }
  }
}
