/** The key sorts of the fallback sorter: insertion sort for small stretches and
    three-way quicksort with an explicit stack. Keys are equivalence classes. */
module FallbackQSort {
  import opened Basics
  import opened Rearranging
  import opened Partitioning
  import opened Segments

  const FALLBACK_QSORT_SMALL_THRESH := 10
  const FALLBACK_QSORT_STACK_SIZE := 100

  /** Moves the element at i up in steps of h past every smaller key. */
  method InsertUpwards(fmap: array<nat>, eclass: seq<nat>, i: nat, h: nat, hi: nat)
    requires h >= 1 && i <= hi < fmap.Length
    requires HasKeys(fmap[..], eclass)
    modifies fmap
    ensures HasKeys(fmap[..], eclass)
    ensures Rearranged(old(fmap[..]), fmap[..], i, hi + 1)
    ensures h == 1 && KeysSorted(old(fmap[..]), eclass, i + 1, hi + 1)
            ==> KeysSorted(fmap[..], eclass, i, hi + 1)
  {
    ghost var s := fmap[..];
    ghost var t := s;  // the array as it would be with tmp back in its hole
    var tmp := fmap[i];
    var ecTmp := eclass[tmp];
    var j := i + h;
    while j <= hi && ecTmp > eclass[fmap[j]]
      invariant i + h <= j <= hi + h
      invariant InsertInvariant(s, t, eclass, i, j, h, hi) && t[j - h] == tmp
      invariant forall k :: 0 <= k < |t| && k != j - h ==> fmap[k] == t[k]
    {
      InsertStep(s, t, eclass, i, j, h, hi);
      t := t[j - h := t[j]][j := t[j - h]];
      fmap[j - h] := fmap[j];
      j := j + h;
    }
    fmap[j - h] := tmp;
    assert fmap[..] == t;
    if h == 1 && KeysSorted(s, eclass, i + 1, hi + 1) {
      ShiftSorts(s, t, eclass, i, j, hi);
    }
  }

  ghost predicate InsertInvariant(s: seq<nat>, t: seq<nat>, keys: seq<nat>, i: nat, j: int, h: nat, hi: nat)
    requires 1 <= h && i + h <= j <= hi + h && hi < |s| && HasKeys(s, keys)
  {
    && Rearranged(s, t, i, hi + 1)
    && HasKeys(t, keys)
    && (forall k :: j <= k < |s| ==> t[k] == s[k])
    && (h == 1 ==> Shifted(s, t, keys, i, j, Key(t, keys, j - h)))
  }

  lemma InsertStep(s: seq<nat>, t: seq<nat>, keys: seq<nat>, i: nat, j: nat, h: nat, hi: nat)
    requires 1 <= h && i + h <= j <= hi && hi < |s| && HasKeys(s, keys)
    requires InsertInvariant(s, t, keys, i, j, h, hi)
    requires Key(t, keys, j) < Key(t, keys, j - h)
    ensures InsertInvariant(s, t[j - h := t[j]][j := t[j - h]], keys, i, j + h, h, hi)
  {
    RearrangedSwap(s, t, j - h, j, i, hi + 1);
    RearrangedBelow(s, t[j - h := t[j]][j := t[j - h]], i, hi + 1, |keys|);
    if h == 1 { ShiftStep(s, t, keys, i, j); }
  }

  lemma ShiftStep(s: seq<nat>, t: seq<nat>, keys: seq<nat>, i: nat, j: nat)
    requires |s| == |t| && i < j < |s| && HasKeys(s, keys) && HasKeys(t, keys)
    requires Shifted(s, t, keys, i, j, Key(t, keys, j - 1))
    requires Key(t, keys, j) < Key(t, keys, j - 1) && t[j] == s[j]
    ensures Shifted(s, t[j - 1 := t[j]][j := t[j - 1]], keys, i, j + 1, Key(t, keys, j - 1))
  {
    var u, v := t[j - 1 := t[j]][j := t[j - 1]], Key(t, keys, j - 1);
    forall k | i <= k < j ensures OnePlaceDown(s, u, keys, k, v) {
      if k < j - 1 { assert OnePlaceDown(s, t, keys, k, v); }
    }
  }

  /** The elements i+1..j-1 of s have moved down one place, past the key v. */
  ghost predicate Shifted(s: seq<nat>, t: seq<nat>, keys: seq<nat>, i: nat, j: int, v: nat)
    requires |s| == |t| && i < j <= |s| && HasKeys(s, keys)
  {
    forall k :: i <= k < j - 1 ==> OnePlaceDown(s, t, keys, k, v)
  }

  ghost predicate OnePlaceDown(s: seq<nat>, t: seq<nat>, keys: seq<nat>, k: nat, v: nat)
    requires |s| == |t| && k + 1 < |s| && HasKeys(s, keys)
  {
    t[k] == s[k + 1] && Key(s, keys, k + 1) < v
  }

  lemma ShiftSorts(s: seq<nat>, t: seq<nat>, keys: seq<nat>, i: nat, j: nat, hi: nat)
    requires |s| == |t| && i < j <= hi + 1 <= |s| && HasKeys(s, keys) && HasKeys(t, keys)
    requires Shifted(s, t, keys, i, j, Key(t, keys, j - 1)) && forall k :: j <= k < |s| ==> t[k] == s[k]
    requires j <= hi ==> Key(t, keys, j - 1) <= Key(s, keys, j)
    requires KeysSorted(s, keys, i + 1, hi + 1)
    ensures KeysSorted(t, keys, i, hi + 1)
  {
    var v := Key(t, keys, j - 1);
    forall x, y | i <= x < y < hi + 1 ensures Key(t, keys, x) <= Key(t, keys, y) {
      if x < j - 1 { assert OnePlaceDown(s, t, keys, x, v); }
      if y < j - 1 { assert OnePlaceDown(s, t, keys, y, v); }
      if x >= j {
        assert Key(s, keys, x) <= Key(s, keys, y);
      } else if y < j - 1 {
        assert Key(s, keys, x + 1) <= Key(s, keys, y + 1);
      } else if y >= j {
        assert j == y || Key(s, keys, j) <= Key(s, keys, y);
      }
    }
  }

  method FallbackSimpleSort(fmap: array<nat>, eclass: seq<nat>, lo: nat, hi: int)
    requires lo <= hi + 1 <= fmap.Length
    requires HasKeys(fmap[..], eclass)
    modifies fmap
    ensures HasKeys(fmap[..], eclass)
    ensures Rearranged(old(fmap[..]), fmap[..], lo, hi + 1)
    ensures KeysSorted(fmap[..], eclass, lo, hi + 1)
  {
    ghost var s := fmap[..];
    if lo == hi { return; }
    if hi - lo > 3 {
      var i := hi - 4;
      while i >= lo
        invariant lo - 1 <= i <= hi - 4
        invariant HasKeys(fmap[..], eclass)
        invariant Rearranged(s, fmap[..], lo, hi + 1)
      {
        ghost var t := fmap[..];
        InsertUpwards(fmap, eclass, i, 4, hi);
        RearrangedTrans(s, t, fmap[..], lo, hi + 1);
        i := i - 1;
      }
    }
    var i := hi - 1;
    while i >= lo
      invariant lo - 1 <= i <= hi - 1 || (hi < lo && i == hi - 1)
      invariant HasKeys(fmap[..], eclass)
      invariant Rearranged(s, fmap[..], lo, hi + 1)
      invariant i >= lo - 1 ==> KeysSorted(fmap[..], eclass, i + 1, hi + 1)
    {
      ghost var t := fmap[..];
      InsertUpwards(fmap, eclass, i, 1, hi);
      RearrangedTrans(s, t, fmap[..], lo, hi + 1);
      i := i - 1;
    }
  }

  // ---------- the quicksort and its stack ----------

  /** The segments halve along the stack: the k-th from the bottom has at most
      (hi - lo + 1) / 2^k elements. */
  ghost predicate GoodStack(segs: seq<Segment>, lo: nat, hi: int) {
    Apart(segs, lo, hi) && forall k :: 0 <= k < |segs| ==> Fits(segs[k].Size(), k, hi - lo + 1)
  }

  ghost function Work(segs: seq<Segment>): int {
    if segs == [] then 0 else Work(segs[..|segs| - 1]) + 2 * segs[|segs| - 1].Size() + 1
  }

  lemma {:induction false} WorkPositive(segs: seq<Segment>, lo: nat, hi: int)
    requires GoodStack(segs, lo, hi)
    ensures Work(segs) >= 0
  {
    if segs != [] { WorkPositive(segs[..|segs| - 1], lo, hi); }
  }

  /** The top segment is sorted and leaves the stack. */
  lemma SegmentDone(f: seq<nat>, g: seq<nat>, keys: seq<nat>, segs: seq<Segment>, lo: nat, hi: int)
    requires segs != [] && GoodStack(segs, lo, hi) && hi < |f| && HasKeys(f, keys) && HasKeys(g, keys)
    requires OrderedExcept(f, keys, segs, lo, hi)
    requires var top := segs[|segs| - 1];
      Rearranged(f, g, top.lo, top.hi + 1) && KeysSorted(g, keys, top.lo, top.hi + 1)
    ensures GoodStack(segs[..|segs| - 1], lo, hi)
    ensures OrderedExcept(g, keys, segs[..|segs| - 1], lo, hi)
  {
    TopReplaced(f, g, keys, segs, [], lo, hi);
    assert segs[..|segs| - 1] + [] == segs[..|segs| - 1];
  }

  /** The top segment has been partitioned; its outer parts replace it. */
  lemma SegmentSplit(f: seq<nat>, g: seq<nat>, keys: seq<nat>, segs: seq<Segment>, lo: nat, hi: int,
                     n: int, m: int, med: nat, bigger: Segment, smaller: Segment)
    requires segs != [] && GoodStack(segs, lo, hi) && hi < |f| && HasKeys(f, keys) && HasKeys(g, keys)
    requires OrderedExcept(f, keys, segs, lo, hi)
    requires var top := segs[|segs| - 1];
      && Rearranged(f, g, top.lo, top.hi + 1)
      && top.lo <= n + 1 < m <= top.hi + 1 && Partitioned(g, keys, top.lo, n, m, top.hi, med)
      && (bigger, smaller) == if n - top.lo > top.hi - m
                              then (Segment(top.lo, n), Segment(m, top.hi))
                              else (Segment(m, top.hi), Segment(top.lo, n))
    ensures GoodStack(segs[..|segs| - 1] + [bigger, smaller], lo, hi)
    ensures OrderedExcept(g, keys, segs[..|segs| - 1] + [bigger, smaller], lo, hi)
    ensures Work(segs[..|segs| - 1] + [bigger, smaller]) < Work(segs)
  {
    var rest, top, parts := segs[..|segs| - 1], segs[|segs| - 1], [bigger, smaller];
    SplitFits(segs, lo, hi, bigger, smaller);
    SplitWork(rest, bigger, smaller);
    forall x, y | top.lo <= x < y <= top.hi && !Together(parts, x, y) ensures Key(g, keys, x) <= Key(g, keys, y) {
      assert parts[0] == bigger && parts[1] == smaller;
    }
    TopReplaced(f, g, keys, segs, parts, lo, hi);
  }

  lemma SplitWork(rest: seq<Segment>, a: Segment, z: Segment)
    ensures Work(rest + [a, z]) == Work(rest) + 2 * a.Size() + 2 * z.Size() + 2
  {
    var next := rest + [a, z];
    assert next[..|next| - 1] == rest + [a];
    assert (rest + [a])[..|rest|] == rest;
  }

  lemma SplitFits(segs: seq<Segment>, lo: nat, hi: int, bigger: Segment, smaller: Segment)
    requires segs != [] && GoodStack(segs, lo, hi)
    requires smaller.Size() <= bigger.Size() && smaller.Size() + bigger.Size() <= segs[|segs| - 1].Size()
    requires bigger.Size() >= 0 && smaller.Size() >= 0
    ensures var next := segs[..|segs| - 1] + [bigger, smaller];
      forall i :: 0 <= i < |next| ==> Fits(next[i].Size(), i, hi - lo + 1)
  {
    var k := |segs| - 1;
    var next := segs[..k] + [bigger, smaller];
    FitsHalf(segs[k].Size(), bigger.Size(), smaller.Size(), k, hi - lo + 1);
    forall i | 0 <= i < |next| ensures Fits(next[i].Size(), i, hi - lo + 1) {
      if i < k { assert next[i] == segs[i]; }
    }
  }

  /** A segment big enough to be split lies near the bottom of the stack. */
  lemma StackStaysLow(segs: seq<Segment>, lo: nat, hi: int)
    requires segs != [] && GoodStack(segs, lo, hi) && hi - lo + 1 < Pow2(31)
    requires segs[|segs| - 1].Size() > FALLBACK_QSORT_SMALL_THRESH
    ensures |segs| <= 28
  {
    FitsLow(segs[|segs| - 1].Size(), |segs| - 1, hi - lo + 1);
  }

  /** f is s partly sorted between lo and hi; what remains is on the stack. */
  ghost predicate Sorting(s: seq<nat>, f: seq<nat>, keys: seq<nat>, segs: seq<Segment>, lo: nat, hi: int) {
    && lo <= hi + 1
    && Rearranged(s, f, lo, hi + 1)
    && HasKeys(f, keys)
    && GoodStack(segs, lo, hi)
    && OrderedExcept(f, keys, segs, lo, hi)
  }

  lemma SortingStarts(f: seq<nat>, keys: seq<nat>, lo: nat, hi: int)
    requires lo <= hi + 1 <= |f| && HasKeys(f, keys)
    ensures Sorting(f, f, keys, [Segment(lo, hi)], lo, hi)
  {
    var segs := [Segment(lo, hi)];
    assert Pow2(0) == 1;
    assert Fits(segs[0].Size(), 0, hi - lo + 1);
    forall x, y | lo <= x < y <= hi ensures Together(segs, x, y) {
      assert segs[0].lo <= x && y <= segs[0].hi;
    }
  }

  lemma SortingEnds(s: seq<nat>, f: seq<nat>, keys: seq<nat>, lo: nat, hi: int)
    requires lo <= hi + 1 <= |f| && Sorting(s, f, keys, [], lo, hi)
    ensures HasKeys(f, keys) && Rearranged(s, f, lo, hi + 1) && KeysSorted(f, keys, lo, hi + 1)
  {
    forall x, y | lo <= x < y <= hi ensures Key(f, keys, x) <= Key(f, keys, y) {
      assert !Together([], x, y);
    }
  }

  /** Partitions the top segment; the larger part is to be pushed first, and nothing when all
      the keys are equal. */
  method SplitTop(fmap: array<nat>, eclass: seq<nat>, ghost s: seq<nat>, ghost segs: seq<Segment>, ghost loSt: nat,
                  ghost hiSt: int, lo: int, hi: int, r: nat)
    returns (r': nat, pushed: seq<Segment>)
    requires segs != [] && segs[|segs| - 1] == Segment(lo, hi) && hi - lo >= FALLBACK_QSORT_SMALL_THRESH
    requires loSt <= hiSt + 1 <= fmap.Length && Sorting(s, fmap[..], eclass, segs, loSt, hiSt)
    modifies fmap
    ensures |pushed| <= 2 && Sorting(s, fmap[..], eclass, segs[..|segs| - 1] + pushed, loSt, hiSt)
    ensures Work(segs[..|segs| - 1] + pushed) < Work(segs)
  {
    ghost var f, rest := fmap[..], segs[..|segs| - 1];
    r' := (r * 7621 + 1) % 32768;
    var r3 := r' % 3;
    var med := if r3 == 0 then eclass[fmap[lo]] else
               if r3 == 1 then eclass[fmap[(lo + hi) / 2]] else eclass[fmap[hi]];
    assert Key(f, eclass, lo) == med || Key(f, eclass, (lo + hi) / 2) == med || Key(f, eclass, hi) == med;
    var n, m := Partition(fmap, eclass, lo, hi, med);
    if n < lo && m > hi {
      pushed := [];
      SegmentDone(f, fmap[..], eclass, segs, loSt, hiSt);
      assert rest + pushed == rest;
    } else {
      pushed := if n - lo > hi - m then [Segment(lo, n), Segment(m, hi)] else [Segment(m, hi), Segment(lo, n)];
      SegmentSplit(f, fmap[..], eclass, segs, loSt, hiSt, n, m, med, pushed[0], pushed[1]);
      assert rest + pushed == rest + [pushed[0], pushed[1]];
    }
    RearrangedWiden(f, fmap[..], lo, hi + 1, loSt, hiSt + 1);
  }

  /** Sorts the top segment outright. */
  method SortTop(fmap: array<nat>, eclass: seq<nat>, ghost s: seq<nat>, ghost segs: seq<Segment>, ghost loSt: nat,
                 ghost hiSt: int, lo: int, hi: int)
    requires segs != [] && segs[|segs| - 1] == Segment(lo, hi)
    requires loSt <= hiSt + 1 <= fmap.Length && Sorting(s, fmap[..], eclass, segs, loSt, hiSt)
    modifies fmap
    ensures Sorting(s, fmap[..], eclass, segs[..|segs| - 1], loSt, hiSt)
    ensures Work(segs[..|segs| - 1]) < Work(segs)
  {
    ghost var f := fmap[..];
    FallbackSimpleSort(fmap, eclass, lo, hi);
    SegmentDone(f, fmap[..], eclass, segs, loSt, hiSt);
    RearrangedWiden(f, fmap[..], lo, hi + 1, loSt, hiSt + 1);
    RearrangedTrans(s, f, fmap[..], loSt, hiSt + 1);
  }

  /** Sorts fmap[loSt..hiSt] by key. The stack never grows past 29 entries. */
  method FallbackQSort3(fmap: array<nat>, eclass: seq<nat>, loSt: nat, hiSt: int)
    requires loSt <= hiSt + 1 <= fmap.Length && hiSt - loSt + 1 < Pow2(31)
    requires HasKeys(fmap[..], eclass)
    modifies fmap
    ensures HasKeys(fmap[..], eclass)
    ensures Rearranged(old(fmap[..]), fmap[..], loSt, hiSt + 1)
    ensures KeysSorted(fmap[..], eclass, loSt, hiSt + 1)
  {
    ghost var s := fmap[..];
    var r := 0;
    var stack := [Segment(loSt, hiSt)];
    SortingStarts(s, eclass, loSt, hiSt);
    while stack != []
      invariant |stack| <= 29 && Sorting(s, fmap[..], eclass, stack, loSt, hiSt)
      decreases Work(stack)
    {
      assert |stack| < FALLBACK_QSORT_STACK_SIZE - 1;  // assertion 1004
      WorkPositive(stack, loSt, hiSt);
      var top := stack[|stack| - 1];
      if top.hi - top.lo < FALLBACK_QSORT_SMALL_THRESH {
        SortTop(fmap, eclass, s, stack, loSt, hiSt, top.lo, top.hi);
        stack := stack[..|stack| - 1];
      } else {
        StackStaysLow(stack, loSt, hiSt);
        var pushed;
        r, pushed := SplitTop(fmap, eclass, s, stack, loSt, hiSt, top.lo, top.hi, r);
        stack := stack[..|stack| - 1] + pushed;
      }
    }
    SortingEnds(s, fmap[..], eclass, loSt, hiSt);
  }
}
