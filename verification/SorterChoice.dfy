/** What two sorters make of the same block: the last column is always the same, and so are the
    symbols sent; the order itself, and the row of the unrotated block, is forced exactly when the block is
    not a shorter one over and over. */
module SorterChoice {
  import opened Basics
  import opened Rotations
  import opened BurrowsWheeler
  import opened GenerateMtf
  import opened BlockFormat
  import opened Block
  import opened RunLengths
  import opened Stream
  import opened BlockBuilder
  import opened StreamWriter
  import opened MainCompare
  import opened Repetition

  lemma RanksRise(b: seq<Byte>, r: seq<nat>, p: seq<nat>, i: nat, j: nat)
    requires IsRotationOrder(b, p) && AreRanks(b, r) && i <= j < |b|
    ensures r[p[i]] <= r[p[j]]
  {
    if i < j {
      assert InOrder(b, p, |b|, i, j);
      assert Ranked(b, r, p[i], p[j]);
    }
  }

  /** No row of one order holds a greater rotation than that row of another. */
  lemma NotGreater(b: seq<Byte>, r: seq<nat>, p: seq<nat>, q: seq<nat>, k: nat)
    requires IsRotationOrder(b, p) && IsRotationOrder(b, q) && AreRanks(b, r) && k < |b|
    ensures r[p[k]] <= r[q[k]]
  {
    if r[p[k]] > r[q[k]] {
      var next := k + 1;
      var few, many := p[..k], q[..next];
      forall x | x in Elements(many) ensures x in Elements(few) {
        var i :| 0 <= i < next && many[i] == x;
        RanksRise(b, r, q, i, k);
        PermutationIsOnto(p, |b|, x);
        var j :| 0 <= j < |b| && p[j] == x;
        if j >= k { RanksRise(b, r, p, k, j); }
        assert few[j] == x;
      }
      DistinctPrefix(q, next);
      InjectiveSize(many);
      ElementsSize(few);
      SubsetSize(Elements(many), Elements(few));
      assert false;
    }
  }

  /** Each row holds equal rotations in both. */
  lemma EqualRows(b: seq<Byte>, p: seq<nat>, q: seq<nat>, k: nat)
    requires IsRotationOrder(b, p) && IsRotationOrder(b, q) && k < |b|
    ensures Cmp(b, p[k], q[k], |b|) == 0
  {
    var r := Ranks(b);
    RanksExist(b);
    NotGreater(b, r, p, q, k);
    NotGreater(b, r, q, p, k);
    assert Ranked(b, r, p[k], q[k]) && Ranked(b, r, q[k], p[k]);
    CmpAntisym(b, p[k], q[k], |b|);
  }

  /** The last column does not depend on the sorter. */
  lemma SameColumn(b: seq<Byte>, p: seq<nat>, q: seq<nat>)
    requires IsRotationOrder(b, p) && IsRotationOrder(b, q)
    ensures LastColumn(b, p) == LastColumn(b, q)
  {
    forall k | 0 <= k < |b| ensures LastColumn(b, p)[k] == LastColumn(b, q)[k] {
      EqualRows(b, p, q, k);
      CmpZeroAt(b, p[k], q[k], |b|, |b| - 1);
    }
  }

  // ---------- the order ----------

  lemma ForcedOrder(b: seq<Byte>, p: seq<nat>, q: seq<nat>)
    requires IsRotationOrder(b, p) && IsRotationOrder(b, q) && !Repeats(b)
    ensures p == q
  {
    forall k | 0 <= k < |b| ensures p[k] == q[k] {
      EqualRows(b, p, q, k);
      CmpAntisym(b, p[k], q[k], |b|);
      TiedIffRepeats(b);
    }
  }

  /** Two rows that hold equal rotations exchanged. */
  function Exchanged(p: seq<nat>, i: nat, j: nat): (q: seq<nat>)
    requires i < |p| && j < |p|
    ensures |q| == |p|
  {
    p[i := p[j]][j := p[i]]
  }

  lemma StillDiffer(p: seq<nat>, i: nat, j: nat, x: nat, y: nat)
    requires Distinct(p) && i < |p| && j < |p| && x < y < |p|
    ensures Exchanged(p, i, j)[x] != Exchanged(p, i, j)[y]
  {
    var u: nat := if x == i then j else if x == j then i else x;
    var v: nat := if y == i then j else if y == j then i else y;
    assert if u < v then Differ(p, u, v) else Differ(p, v, u);
  }

  lemma ExchangedIsOrder(b: seq<Byte>, p: seq<nat>, i: nat, j: nat)
    requires IsRotationOrder(b, p) && i < |p| && j < |p| && Cmp(b, p[i], p[j], |b|) == 0
    ensures IsRotationOrder(b, Exchanged(p, i, j))
  {
    var r, q := Ranks(b), Exchanged(p, i, j);
    RanksExist(b);
    CmpAntisym(b, p[i], p[j], |b|);
    assert Ranked(b, r, p[i], p[j]) && Ranked(b, r, p[j], p[i]);
    forall x: nat, y: nat | x < y < |b| ensures Differ(q, x, y) { StillDiffer(p, i, j, x, y); }
    forall x, y | 0 <= x < y < |b| ensures InOrder(b, q, |b|, x, y) {
      RanksRise(b, r, p, x, y);
      assert r[q[x]] == r[p[x]] && r[q[y]] == r[p[y]];
      assert Ranked(b, r, q[x], q[y]);
    }
  }

  /** Where the unrotated block stands is forced if and only if the block does not repeat a shorter one. */
  lemma OriginIsForced(b: seq<Byte>, p: seq<nat>, o: nat)
    requires IsRotationOrder(b, p) && o < |p| && p[o] == 0
    ensures (forall q, m: nat :: IsRotationOrder(b, q) && m < |q| && q[m] == 0 ==> m == o) <==> !Repeats(b)
  {
    if Repeats(b) {
      var k: nat :| RepeatsWith(b, k);
      RepetitionIsEqual(b, k);
      PermutationIsOnto(p, |b|, k);
      var m: nat :| m < |b| && p[m] == k;
      ExchangedIsOrder(b, p, o, m);
      assert Exchanged(p, o, m)[m] == 0;
    } else {
      forall q, m: nat | IsRotationOrder(b, q) && m < |q| && q[m] == 0 ensures m == o {
        ForcedOrder(b, p, q);
        assert m < o ==> Differ(p, m, o);
        assert o < m ==> Differ(p, o, m);
      }
    }
  }

  // ---------- what is sent ----------

  lemma OneName(col: seq<Byte>, inUse: seq<bool>, out: seq<nat>, more: seq<nat>)
    requires |inUse| == 256 && Renamed(col, Used(inUse), out) && Renamed(col, Used(inUse), more)
    ensures out == more
  {
    UsedBytesAre(inUse, 256);
    var used := Used(inUse);
    forall i | 0 <= i < |col| ensures out[i] == more[i] {
      assert used[out[i]] == used[more[i]];
    }
  }

  lemma OneMap(u: seq<bool>, v: seq<bool>, block: seq<Byte>)
    requires Marks(u, block) && Marks(v, block)
    ensures u == v
  {
    forall c: Byte ensures u[c] == v[c] {}
  }

  lemma CarriedAlike(level: nat, h: Header, g: Header, symbols: seq<nat>, others: seq<nat>, out: seq<nat>,
                     more: seq<nat>, column: seq<Byte>)
    requires Carries(level, h, symbols, out, column) && Carries(level, g, others, more, column) && h.inUse == g.inUse
    ensures out == more && symbols == others && |h.selectors| == |g.selectors|
  {
    OneName(column, h.inUse, out, more);
  }

  /** Whichever sorter it used, the encoder sends the same checksum, map and symbols for a block; only
      for a block that repeats a shorter one may origPtr differ. */
  lemma SentAlike(sum: Checksum, level: nat, x: SentBlock, y: SentBlock)
    requires WellSent(sum, level, x) && WellSent(sum, level, y) && ByEncoder(x) && ByEncoder(y) && x.block == y.block
    ensures x.h.crc == y.h.crc && x.h.inUse == y.h.inUse && x.out == y.out && x.symbols == y.symbols
    ensures |x.h.selectors| == |y.h.selectors|
    ensures !Repeats(x.block) ==> x.ptr == y.ptr && x.h.origPtr == y.h.origPtr
  {
    SameColumn(x.block, x.ptr, y.ptr);
    OneMap(x.h.inUse, y.h.inUse, x.block);
    CarriedAlike(level, x.h, y.h, x.symbols, y.symbols, x.out, y.out, LastColumn(x.block, x.ptr));
    if !Repeats(x.block) {
      OriginIsForced(x.block, x.ptr, x.h.origPtr);
      ForcedOrder(x.block, x.ptr, y.ptr);
    }
  }
}
