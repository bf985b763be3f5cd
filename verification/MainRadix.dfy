/** The beginning of mainSort: a radix sort of all rotations by their first two bytes, and the
    order in which the big buckets are to be dealt with. */
module MainRadix {
  import opened Basics
  import opened BurrowsWheeler
  import opened Rearranging
  import opened Partitioning
  import opened ShellSort

  const PAIRS: nat := 65536

  /** The first two bytes of rotation p as one number. */
  function Pair(b: seq<Byte>, p: nat): (v: nat)
    requires p < |b|
    ensures v < PAIRS && v / 256 == b[p] && v % 256 == b[Next(b, p)]
  {
    var c: nat := b[p];
    c * 256 + b[Next(b, p)]
  }

  function PairKeys(b: seq<Byte>): (keys: seq<nat>)
    ensures |keys| == |b| && forall p :: 0 <= p < |b| ==> keys[p] == Pair(b, p)
  {
    seq(|b|, p requires 0 <= p < |b| => Pair(b, p))
  }

  // ---------- counting ----------

  function Count(s: seq<nat>, v: nat): nat {
    if s == [] then 0 else Count(s[1..], v) + (if s[0] == v then 1 else 0)
  }

  /** How many keys are smaller than v: where the bucket of v starts. What Below of ByteCounts is for
      bytes and their places, this is for values up to 65536 that are only counted. */
  function Start(s: seq<nat>, v: nat): nat {
    if v == 0 then 0 else Start(s, v - 1) + Count(s, v - 1)
  }

  lemma {:induction false} StartGrows(s: seq<nat>, v: nat, w: nat)
    requires v <= w
    ensures Start(s, v) <= Start(s, w)
    decreases w
  {
    if v < w { StartGrows(s, v, w - 1); }
  }

  lemma {:induction false} StartCons(s: seq<nat>, v: nat)
    requires s != []
    ensures Start(s, v) == Start(s[1..], v) + (if s[0] < v then 1 else 0)
    decreases v
  {
    if v > 0 { StartCons(s, v - 1); }
  }

  lemma {:induction false} StartOfNothing(v: nat)
    ensures Start([], v) == 0
    decreases v
  {
    if v > 0 { StartOfNothing(v - 1); }
  }

  lemma {:induction false} StartOfAll(s: seq<nat>, v: nat)
    requires forall i :: 0 <= i < |s| ==> s[i] < v
    ensures Start(s, v) == |s|
    decreases |s|
  {
    if s == [] {
      StartOfNothing(v);
    } else {
      StartCons(s, v);
      StartOfAll(s[1..], v);
    }
  }

  lemma {:induction false} CountSuffix(s: seq<nat>, v: nat, i: nat)
    requires i <= |s|
    ensures Count(s[i..], v) <= Count(s, v)
    decreases i
  {
    if i == 0 {
      assert s[0..] == s;
    } else {
      assert s[1..][i - 1..] == s[i..];
      CountSuffix(s[1..], v, i - 1);
    }
  }

  lemma CountFrom(s: seq<nat>, v: nat, i: nat)
    requires i < |s|
    ensures Count(s[i..], v) == Count(s[i + 1..], v) + (if s[i] == v then 1 else 0)
  {
    assert s[i..][1..] == s[i + 1..];
  }

  lemma StartsBelow(s: seq<nat>, v: nat)
    requires v <= PAIRS && forall i :: 0 <= i < |s| ==> s[i] < PAIRS
    ensures Start(s, v) <= Start(s, PAIRS) == |s|
  {
    StartOfAll(s, PAIRS);
    StartGrows(s, v, PAIRS);
  }

  // ---------- the radix sort ----------

  /** s is the pair of place i, or before the first step holds the byte of place 0 in its place. */
  ghost predicate Rolling(b: seq<Byte>, i: nat, s: nat)
    requires i <= |b| && b != []
  {
    s < PAIRS && s / 256 == if i == |b| then b[0] else b[i]
  }

  method FirstPair(c: Byte, ghost b: seq<Byte>) returns (s: nat)
    requires b != [] && c == b[0]
    ensures Rolling(b, |b|, s)
  {
    var x: nat := c;
    s := x * 256;
  }

  /** The rolling pair of bytes, from that of the next place to that of place i. */
  method NextPair(c: Byte, s: nat, ghost b: seq<Byte>, ghost i: nat, ghost next: nat, ghost keys: seq<nat>)
    returns (t: nat)
    requires next == i + 1 <= |b| && c == b[i] && keys == PairKeys(b) && Rolling(b, next, s)
    ensures t < PAIRS && t == keys[i] && Rolling(b, i, t)
  {
    var x: nat := c;
    t := s / 256 + x * 256;
  }

  /** ftab counts the keys from place i on. */
  ghost predicate Counted(keys: seq<nat>, ftab: seq<nat>, i: nat)
    requires i <= |keys|
  {
    |ftab| == PAIRS + 1 && forall v :: 0 <= v <= PAIRS ==> ftab[v] == Count(keys[i..], v)
  }

  lemma CountedOneMore(keys: seq<nat>, ftab: seq<nat>, i: nat, next: nat)
    requires next == i + 1 <= |keys| && Counted(keys, ftab, next) && keys[i] < PAIRS
    ensures Counted(keys, ftab[keys[i] := ftab[keys[i]] + 1], i)
  {
    forall v: nat ensures Count(keys[i..], v) == Count(keys[next..], v) + (if keys[i] == v then 1 else 0) {
      CountFrom(keys, v, i);
    }
  }

  method CountOne(ftab: array<nat>, j: nat, ghost keys: seq<nat>, ghost i: nat, ghost next: nat)
    requires next == i + 1 <= |keys| && Counted(keys, ftab[..], next) && j == keys[i] < PAIRS
    modifies ftab
    ensures Counted(keys, ftab[..], i)
  {
    ghost var counts := ftab[..];
    CountedOneMore(keys, counts, i, next);
    ftab[j] := ftab[j] + 1;
    assert ftab[..] == counts[j := counts[j] + 1];
  }

  method ZeroTable(ftab: array<nat>)
    requires ftab.Length == PAIRS + 1
    modifies ftab
    ensures forall v :: 0 <= v <= PAIRS ==> ftab[v] == 0
  {
    for i := PAIRS + 1 downto 0
      invariant forall v :: i <= v <= PAIRS ==> ftab[v] == 0
    {
      ftab[i] := 0;
    }
  }

  /** Counts the pairs; unrolled four times in the source. */
  method CountPairs(block: seq<Byte>, nblock: nat, ftab: array<nat>, quadrant: array<nat>, ghost b: seq<Byte>,
                    ghost keys: seq<nat>)
    requires ftab != quadrant && 0 < nblock <= |block| && nblock <= quadrant.Length && ftab.Length == PAIRS + 1
    requires b == block[..nblock] && keys == PairKeys(b)
    modifies ftab, quadrant
    ensures Counted(keys, ftab[..], 0)
    ensures forall i :: 0 <= i < nblock ==> quadrant[i] == 0
  {
    ZeroTable(ftab);
    assert keys[nblock..] == [];
    var j := FirstPair(block[0], b);
    for i := nblock downto 0
      invariant Rolling(b, i, j) && Counted(keys, ftab[..], i)
      invariant forall k :: i <= k < nblock ==> quadrant[k] == 0
    {
      ghost var next, counts := i + 1, ftab[..];
      quadrant[i] := 0;
      assert ftab[..] == counts;
      j := NextPair(block[i], j, b, i, next, keys);
      CountOne(ftab, j, keys, i, next);
    }
  }

  /** Turns counts into bucket ends. */
  method Accumulate(ftab: array<nat>, ghost keys: seq<nat>)
    requires Counted(keys, ftab[..], 0)
    modifies ftab
    ensures forall v :: 0 <= v <= PAIRS ==> ftab[v] == Start(keys, v + 1)
  {
    assert keys[0..] == keys;
    assert Start(keys, 1) == Count(keys, 0) by { assert Start(keys, 0) == 0; }
    assert forall v :: 0 <= v <= PAIRS ==> ftab[..][v] == ftab[v];
    for i := 1 to PAIRS + 1
      invariant forall v :: 0 <= v < i ==> ftab[v] == Start(keys, v + 1)
      invariant forall v :: i <= v <= PAIRS ==> ftab[v] == Count(keys, v)
    {
      ftab[i] := ftab[i] + ftab[i - 1];
    }
  }

  /** Rotation q has been put at at[q], in its bucket. */
  ghost predicate Landed(keys: seq<nat>, f: seq<nat>, cursor: seq<nat>, at: seq<nat>, q: nat)
    requires q < |keys| == |f| == |at| && |cursor| == PAIRS + 1 && keys[q] < PAIRS
  {
    at[q] < |f| && f[at[q]] == q && cursor[keys[q]] <= at[q] < Start(keys, keys[q] + 1)
  }

  /** The rotations from i on have landed; each bucket is filled down to its cursor. */
  ghost predicate Landing(keys: seq<nat>, f: seq<nat>, cursor: seq<nat>, at: seq<nat>, i: nat)
    requires i <= |keys|
  {
    && |keys| == |f| == |at| && |cursor| == PAIRS + 1 && AllPairs(keys)
    && (forall v :: 0 <= v <= PAIRS ==> CursorIs(keys, cursor, i, v))
    && (forall q :: i <= q < |keys| ==> Landed(keys, f, cursor, at, q))
  }

  ghost predicate AllPairs(keys: seq<nat>) { forall q :: 0 <= q < |keys| ==> keys[q] < PAIRS }

  ghost predicate CursorIs(keys: seq<nat>, cursor: seq<nat>, i: nat, v: nat)
    requires v < |cursor| && i <= |keys|
  {
    cursor[v] == Start(keys, v + 1) - Count(keys[i..], v)
  }

  lemma LandingStarts(keys: seq<nat>, f: seq<nat>, cursor: seq<nat>, at: seq<nat>)
    requires |keys| == |f| == |at| && |cursor| == PAIRS + 1 && AllPairs(keys)
    requires forall v :: 0 <= v <= PAIRS ==> cursor[v] == Start(keys, v + 1)
    ensures Landing(keys, f, cursor, at, |keys|)
  {
    var n := |keys|;
    assert keys[n..] == [];
    forall v | 0 <= v <= PAIRS ensures CursorIs(keys, cursor, n, v) {}
  }

  lemma LandingStep(keys: seq<nat>, f: seq<nat>, cursor: seq<nat>, at: seq<nat>, i: nat, next: nat)
    requires next == i + 1 <= |keys| && Landing(keys, f, cursor, at, next)
    ensures var v := keys[i];
      && 1 <= cursor[v] <= |f|
      && Landing(keys, f[cursor[v] - 1 := i], cursor[v := cursor[v] - 1], at[i := cursor[v] - 1], i)
  {
    var v := keys[i];
    assert CursorIs(keys, cursor, next, v);
    CountFrom(keys, v, i);
    CountSuffix(keys, v, i);
    StartsBelow(keys, v + 1);
    var k := cursor[v] - 1;
    var f', cursor', at' := f[k := i], cursor[v := k], at[i := k];
    forall w | 0 <= w <= PAIRS ensures CursorIs(keys, cursor', i, w) {
      assert CursorIs(keys, cursor, next, w);
      CountFrom(keys, w, i);
    }
    forall q | i <= q < |keys| ensures Landed(keys, f', cursor', at', q) {
      if q > i {
        assert Landed(keys, f, cursor, at, q);
        PlacesDiffer(keys, cursor, at, next, v, k, q);
      }
    }
  }

  lemma PlacesDiffer(keys: seq<nat>, cursor: seq<nat>, at: seq<nat>, next: nat, v: nat, k: nat, q: nat)
    requires next <= q < |keys| == |at| && |cursor| == PAIRS + 1 && AllPairs(keys) && v < PAIRS
    requires forall w :: 0 <= w <= PAIRS ==> CursorIs(keys, cursor, next, w)
    requires cursor[keys[q]] <= at[q] < Start(keys, keys[q] + 1)
    requires k + 1 == cursor[v] && Start(keys, v) <= k < Start(keys, v + 1)
    ensures at[q] != k
  {
    var w := keys[q];
    assert CursorIs(keys, cursor, next, w);
    CountSuffix(keys, w, next);
    if w < v { StartGrows(keys, w + 1, v); }
    if v < w { StartGrows(keys, v + 1, w); }
  }

  /** Place k lies in the bucket of the key of what it holds. */
  ghost predicate InBucket(keys: seq<nat>, f: seq<nat>, k: nat)
    requires k < |f| && f[k] < |keys|
  {
    Start(keys, keys[f[k]]) <= k < Start(keys, keys[f[k]] + 1)
  }

  /** f lists all rotations, bucket after bucket. */
  ghost predicate InBuckets(keys: seq<nat>, f: seq<nat>) {
    IsPermutation(f, |keys|) && forall k :: 0 <= k < |f| ==> InBucket(keys, f, k)
  }

  lemma AllLanded(keys: seq<nat>, f: seq<nat>, cursor: seq<nat>, at: seq<nat>)
    requires Landing(keys, f, cursor, at, 0)
    ensures InBuckets(keys, f) && forall v :: 0 <= v <= PAIRS ==> cursor[v] == Start(keys, v)
  {
    var n := |keys|;
    assert keys[0..] == keys;
    forall v | 0 <= v <= PAIRS ensures cursor[v] == Start(keys, v) { assert CursorIs(keys, cursor, 0, v); }
    forall q | 0 <= q < n ensures at[q] < n && f[at[q]] == q { assert Landed(keys, f, cursor, at, q); }
    forall p, q | 0 <= p < q < n ensures Differ(at, p, q) {}
    forall k | 0 <= k < n ensures f[k] < n && at[f[k]] == k {
      PermutationIsOnto(at, n, k);
      var q :| 0 <= q < n && at[q] == k;
    }
    forall j, k | 0 <= j < k < n ensures Differ(f, j, k) { assert at[f[j]] == j && at[f[k]] == k; }
    forall k | 0 <= k < n ensures InBucket(keys, f, k) { assert Landed(keys, f, cursor, at, f[k]); }
  }

  /** Rotation i goes to the last free place of its bucket. */
  method DropOne(ftab: array<nat>, ptr: array<nat>, s: nat, i: nat, ghost keys: seq<nat>, ghost at0: seq<nat>,
                 ghost next: nat)
    returns (ghost at: seq<nat>)
    requires ftab != ptr && next == i + 1 <= |keys| && Landing(keys, ptr[..], ftab[..], at0, next) && s == keys[i]
    modifies ftab, ptr
    ensures Landing(keys, ptr[..], ftab[..], at, i)
  {
    ghost var f, cursor := ptr[..], ftab[..];
    LandingStep(keys, f, cursor, at0, i, next);
    var j := ftab[s] - 1;
    ftab[s] := j;
    ptr[j] := i;
    at := at0[i := j];
    assert ptr[..] == f[j := i] && ftab[..] == cursor[s := j];
  }

  /** Drops the rotations into their buckets, each filled from its end. */
  method DropPairs(block: seq<Byte>, nblock: nat, ftab: array<nat>, ptr: array<nat>, ghost b: seq<Byte>,
                   ghost keys: seq<nat>)
    requires ftab != ptr && 0 < nblock == ptr.Length <= |block| && b == block[..nblock] && keys == PairKeys(b)
    requires ftab.Length == PAIRS + 1 && forall v :: 0 <= v <= PAIRS ==> ftab[v] == Start(keys, v + 1)
    modifies ftab, ptr
    ensures InBuckets(keys, ptr[..]) && forall v :: 0 <= v <= PAIRS ==> ftab[v] == Start(keys, v)
  {
    ghost var at: seq<nat> := seq(nblock, _ => 0);
    LandingStarts(keys, ptr[..], ftab[..], at);
    var s := FirstPair(block[0], b);
    for i := nblock downto 0
      invariant Rolling(b, i, s) && Landing(keys, ptr[..], ftab[..], at, i)
    {
      ghost var next := i + 1;
      s := NextPair(block[i], s, b, i, next, keys);
      at := DropOne(ftab, ptr, s, i, keys, at, next);
    }
    AllLanded(keys, ptr[..], ftab[..], at);
  }

  // ---------- the running order ----------

  ghost predicate FreqOk(ftab: seq<nat>, c: nat)
    requires |ftab| == PAIRS + 1 && c < 256
  {
    ftab[c * 256] <= ftab[(c + 1) * 256]
  }

  /** BIGFREQ of every byte: how many rotations start with it. */
  function BigFreqs(ftab: seq<nat>): (freqs: seq<nat>)
    requires |ftab| == PAIRS + 1 && forall c :: 0 <= c < 256 ==> FreqOk(ftab, c)
    ensures |freqs| == 256
  {
    seq(256, c requires 0 <= c < 256 => assert FreqOk(ftab, c); ftab[(c + 1) * 256] - ftab[c * 256])
  }

  /** One element of the running order sinks past all fuller buckets. */
  method SinkBucket(order: array<nat>, freqs: seq<nat>, i: nat, h: nat)
    requires 1 <= h <= i < order.Length && HasKeys(order[..], freqs)
    modifies order
    ensures HasKeys(order[..], freqs) && Rearranged(old(order[..]), order[..], 0, i + 1)
    ensures h == 1 && KeysSorted(old(order[..]), freqs, 0, i) ==> KeysSorted(order[..], freqs, 0, i + 1)
  {
    ghost var s := order[..];
    ghost var t := s;
    var vv := order[i];
    var j := i;
    SinkStarts(s, freqs, 0, i, h);
    while freqs[order[j - h]] > freqs[vv]
      invariant h <= j <= i && Sinking(s, t, freqs, 0, i, j, h)
      invariant forall k :: 0 <= k < |t| && k != j ==> order[k] == t[k]
      decreases j
    {
      SinkStep(s, t, freqs, 0, i, j, h);
      t := t[j := t[j - h]][j - h := t[j]];
      order[j] := order[j - h];
      j := j - h;
      if j < h { break; }
    }
    order[j] := vv;
    assert order[..] == t;
    if h == 1 && KeysSorted(s, freqs, 0, i) { SinkSorts(s, t, freqs, 0, i, j); }
  }

  /** All big buckets, the least full first. */
  method RunningOrder(freqs: seq<nat>) returns (order: array<nat>)
    requires |freqs| == 256
    ensures fresh(order) && order.Length == 256 && IsPermutation(order[..], 256)
    ensures HasKeys(order[..], freqs) && KeysSorted(order[..], freqs, 0, 256)
  {
    order := new nat[256];
    for i := 0 to 256
      invariant forall k :: 0 <= k < i ==> order[k] == k
    {
      order[i] := i;
    }
    ghost var s := order[..];
    assert IsPermutation(s, 256) by { forall i, j | 0 <= i < j < 256 ensures Differ(s, i, j) {} }
    var h := 1;
    while true
      invariant h == 1 || h == 4 || h == 13 || h == 40 || h == 121
      decreases 256 - h
    {
      h := 3 * h + 1;
      if h > 256 { break; }
    }
    while true
      invariant h == 4 || h == 13 || h == 40 || h == 121 || h == 364
      invariant HasKeys(order[..], freqs) && Rearranged(s, order[..], 0, 256)
      decreases h
    {
      h := h / 3;
      OnePass(order, freqs, h, s);
      if h == 1 { break; }
    }
    RearrangedPermutation(s, order[..], 0, 256);
  }

  method OnePass(order: array<nat>, freqs: seq<nat>, h: nat, ghost s: seq<nat>)
    requires 1 <= h < 256 && order.Length == 256 && HasKeys(order[..], freqs) && Rearranged(s, order[..], 0, 256)
    modifies order
    ensures HasKeys(order[..], freqs) && Rearranged(s, order[..], 0, 256)
    ensures h == 1 ==> KeysSorted(order[..], freqs, 0, 256)
  {
    for i := h to 256
      invariant HasKeys(order[..], freqs) && Rearranged(s, order[..], 0, 256)
      invariant h == 1 ==> KeysSorted(order[..], freqs, 0, i)
    {
      ghost var t := order[..];
      SinkBucket(order, freqs, i, h);
      RearrangedWiden(t, order[..], 0, i + 1, 0, 256);
      RearrangedTrans(s, t, order[..], 0, 256);
    }
  }
}
