/** The insertion steps of mainSort's two shell sorts: one element moves down in strides of h. */
module ShellSort {
  import opened Basics
  import opened Rearranging
  import opened Partitioning

  /** t is s with the element at i moved down to j in strides of h; with a stride of one
      the elements between have moved up one place, none of them smaller. */
  ghost predicate Sinking(s: seq<nat>, t: seq<nat>, keys: seq<nat>, lo: nat, i: nat, j: nat, h: nat)
    requires lo <= j <= i < |s| && HasKeys(s, keys)
  {
    && Rearranged(s, t, lo, i + 1)
    && HasKeys(t, keys)
    && t[j] == s[i]
    && (forall k :: 0 <= k < j ==> t[k] == s[k])
    && (h == 1 ==> Lifted(s, t, keys, i, j))
  }

  ghost predicate Lifted(s: seq<nat>, t: seq<nat>, keys: seq<nat>, i: nat, j: nat)
    requires |s| == |t| && j <= i < |s| && HasKeys(s, keys)
  {
    forall k :: j < k <= i ==> OnePlaceUp(s, t, keys, k, i)
  }

  ghost predicate OnePlaceUp(s: seq<nat>, t: seq<nat>, keys: seq<nat>, k: nat, i: nat)
    requires |s| == |t| && 0 < k < |s| && i < |s| && HasKeys(s, keys)
  {
    t[k] == s[k - 1] && Key(s, keys, k - 1) >= Key(s, keys, i)
  }

  lemma SinkStarts(s: seq<nat>, keys: seq<nat>, lo: nat, i: nat, h: nat)
    requires lo <= i < |s| && HasKeys(s, keys)
    ensures Sinking(s, s, keys, lo, i, i, h)
  {}

  lemma SinkStep(s: seq<nat>, t: seq<nat>, keys: seq<nat>, lo: nat, i: nat, j: nat, h: nat)
    requires 1 <= h && lo + h <= j <= i < |s| && HasKeys(s, keys) && Sinking(s, t, keys, lo, i, j, h)
    requires Key(t, keys, j - h) >= Key(s, keys, i)
    ensures Sinking(s, t[j := t[j - h]][j - h := t[j]], keys, lo, i, j - h, h)
  {
    var u := t[j := t[j - h]][j - h := t[j]];
    RearrangedSwap(s, t, j, j - h, lo, i + 1);
    RearrangedBelow(s, u, lo, i + 1, |keys|);
    if h == 1 {
      forall k | j - 1 < k <= i ensures OnePlaceUp(s, u, keys, k, i) {
        if k > j { assert OnePlaceUp(s, t, keys, k, i); }
      }
    }
  }

  /** Inserting into a sorted stretch keeps it sorted. */
  lemma SinkSorts(s: seq<nat>, t: seq<nat>, keys: seq<nat>, lo: nat, i: nat, j: nat)
    requires lo <= j <= i < |s| && HasKeys(s, keys) && Sinking(s, t, keys, lo, i, j, 1)
    requires KeysSorted(s, keys, lo, i) && (lo < j ==> Key(s, keys, j - 1) <= Key(s, keys, i))
    ensures KeysSorted(t, keys, lo, i + 1)
  {
    forall x, y | lo <= x < y < i + 1 ensures Key(t, keys, x) <= Key(t, keys, y) {
      if x > j { assert OnePlaceUp(s, t, keys, x, i); }
      if y > j { assert OnePlaceUp(s, t, keys, y, i); }
      if y < j {
        assert Key(s, keys, x) <= Key(s, keys, y);
      } else if y == j {
        assert x == j - 1 || Key(s, keys, x) <= Key(s, keys, j - 1);
      } else if x < j {
        assert x == y - 1 || Key(s, keys, x) <= Key(s, keys, y - 1);
      } else if x > j {
        assert Key(s, keys, x - 1) <= Key(s, keys, y - 1);
      }
    }
  }
}
