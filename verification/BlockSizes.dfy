/** How long the bits of a block can get. */
module BlockSizes {
  import opened Basics
  import opened Bits
  import opened Huffman
  import opened BurrowsWheeler
  import opened MoveToFront
  import opened GenerateMtf
  import opened BlockFormat
  import opened SymbolFormat
  import opened Block

  // ---------- the parts of a block ----------

  /** A column has at most one symbol more than bytes. */
  lemma {:induction false} SymbolsLength(l: seq<nat>, col: seq<nat>, z: nat, eob: nat)
    requires l != [] && forall i :: 0 <= i < |col| ==> col[i] in l
    ensures |Symbols(l, col, z, eob)| <= z + |col| + 1
    decreases |col|
  {
    if col != [] {
      if l[0] == col[0] {
        SymbolsLength(l, col[1..], z + 1, eob);
      } else {
        var j := IndexOf(l, col[0]);
        FrontKeeps(l, j);
        SymbolsLength(Front(l, j), col[1..], 0, eob);
      }
    }
  }

  lemma {:induction false} UnariesLength(js: seq<nat>, n: nat)
    requires forall i :: 0 <= i < |js| ==> js[i] < n
    ensures |UnaryBits(js)| <= n * |js|
    decreases |js|
  {
    if js != [] {
      UnariesLength(js[1..], n);
      OneFullMore(n, |js| - 1);
    }
  }

  lemma {:induction false} RowsLength(inUse: seq<bool>, i: nat)
    requires i <= 16 && |inUse| == 256
    ensures |RowBits(inUse, i)| <= 16 * (16 - i)
    decreases 16 - i
  {
    if i < 16 { RowsLength(inUse, i + 1); }
  }

  lemma {:induction false} StepsLength(curr: nat, to: nat, m: nat)
    requires 1 <= curr <= m && 1 <= to <= m
    ensures |Steps(curr, to)| == 2 * (if curr < to then to - curr else curr - to) + 1 <= 2 * m - 1
    decreases if curr < to then to - curr else curr - to
  {
    if curr < to {
      StepsLength(curr + 1, to, m);
    } else if to < curr {
      StepsLength(curr - 1, to, m);
    }
  }

  lemma {:induction false} DeltasLength(curr: nat, lens: seq<Byte>)
    requires 1 <= curr <= LONGEST_SENT && LengthsOk(lens) && NoneLonger(lens, LONGEST_SENT)
    ensures |DeltaBits(curr, lens)| <= 33 * |lens|
    decreases |lens|
  {
    if lens != [] {
      StepsLength(curr, lens[0], LONGEST_SENT);
      DeltasLength(lens[0], lens[1..]);
    }
  }

  lemma {:induction false} TablesLength(lens: seq<seq<Byte>>, n: nat)
    requires 0 < n && AllLengthsOk(lens, n) && forall t :: 0 <= t < |lens| ==> NoneLonger(lens[t], LONGEST_SENT)
    ensures |TablesBits(lens)| <= (5 + 33 * n) * |lens|
    decreases |lens|
  {
    if lens != [] {
      DeltasLength(lens[0][0], lens[0]);
      TablesLength(lens[1..], n);
      OneTableMore(5 + 33 * n, |lens|);
    }
  }

  lemma OneTableMore(x: nat, k: nat)
    requires k > 0
    ensures x + x * (k - 1) == x * k
  {}

  lemma {:induction false} SymbolBitsLength(lens: seq<seq<Byte>>, sel: seq<nat>, s: seq<nat>, k: nat)
    requires Codable(lens, sel, s) && k <= |s| && forall t :: 0 <= t < |lens| ==> NoneLonger(lens[t], LONGEST_SENT)
    ensures |SymbolBits(lens, sel, s, k)| <= LONGEST_SENT * (|s| - k)
    decreases |s| - k
  {
    if k < |s| {
      assert Coded(lens, sel, s, k);
      SymbolBitsLength(lens, sel, s, k + 1);
    }
  }

  // ---------- a block ----------

  /** Bits for the magic, the checksum, origPtr, the mapping table and the coding tables. */
  const FRONT_BITS: nat := 51515

  /** The most bits that a block of n bytes can take. */
  function BlockBound(n: nat): nat { FRONT_BITS + LONGEST_SENT * (n + 1) + 6 * SelectorCount(n + 1) }

  lemma HeaderLength(level: nat, h: Header)
    requires Sendable(level, h)
    ensures |HeaderBits(h)| <= FRONT_BITS + 6 * |h.selectors|
  {
    MarkedLength(BLOCK_MAGIC, BitsOf(h.crc, 32));
    RowsLength(h.inUse, 0);
    UnariesLength(SelectorIndices(h), |h.lens|);
    TimesAtMost(|h.selectors|, |h.lens|, 6);
    var n := |Used(h.inUse)| + 2;
    TablesLength(h.lens, n);
    TimesAtMost(5 + 33 * n, |h.lens|, 6);
  }

  lemma TimesAtMost(x: nat, y: nat, m: nat)
    requires y <= m
    ensures x * y <= x * m && y * x <= m * x
  {}

  lemma CarriedCounts(level: nat, h: Header, symbols: seq<nat>, out: seq<nat>, column: seq<Byte>)
    requires Carries(level, h, symbols, out, column)
    ensures |symbols| <= |column| + 1 && |h.selectors| == SelectorCount(|symbols|)
  {
    var n := |Used(h.inUse)|;
    SymbolsLength(Upto(n), out, 0, n + 1);
  }

  lemma CarriedParts(level: nat, h: Header, symbols: seq<nat>, out: seq<nat>, column: seq<Byte>)
    requires Carries(level, h, symbols, out, column) && Codable(h.lens, h.selectors, symbols)
    ensures |HeaderBits(h)| <= FRONT_BITS + 6 * |h.selectors|
    ensures |SymbolBits(h.lens, h.selectors, symbols, 0)| <= LONGEST_SENT * |symbols|
  {
    HeaderLength(level, h);
    SymbolBitsLength(h.lens, h.selectors, symbols, 0);
  }

  lemma BlockLength(level: nat, h: Header, symbols: seq<nat>, out: seq<nat>, column: seq<Byte>)
    requires Carries(level, h, symbols, out, column)
    ensures |BlockBits(level, h, symbols, out, column)| <= BlockBound(|column|)
  {
    CarriedIsCodable(level, h, symbols, out, column);
    CarriedCounts(level, h, symbols, out, column);
    CarriedParts(level, h, symbols, out, column);
    var head, body := |HeaderBits(h)|, |SymbolBits(h.lens, h.selectors, symbols, 0)|;
    assert |BlockBits(level, h, symbols, out, column)| == head + body;
    PartsInBound(head, body, |symbols|, |column|);
  }

  lemma PartsInBound(head: nat, body: nat, m: nat, n: nat)
    requires m <= n + 1 && head <= FRONT_BITS + 6 * SelectorCount(m) && body <= LONGEST_SENT * m
    ensures head + body <= BlockBound(n)
  {}

  /** The most bits that the encoder makes of a block of n bytes: at most 9.4 for each symbol and
      for each entry of six tables. */
  function ThriftyBound(n: nat): nat { FRONT_BITS + 47 * (n + 1 + 6 * 258) / 5 + 6 * SelectorCount(n + 1) }

  lemma ThriftyLength(level: nat, h: Header, symbols: seq<nat>, out: seq<nat>, column: seq<Byte>)
    requires Carries(level, h, symbols, out, column) && Codable(h.lens, h.selectors, symbols)
    requires 5 * |SymbolBits(h.lens, h.selectors, symbols, 0)| <= 47 * (|symbols| + 6 * 258)
    ensures |BlockBits(level, h, symbols, out, column)| <= ThriftyBound(|column|)
  {
    CarriedCounts(level, h, symbols, out, column);
    HeaderLength(level, h);
    var head, body := |HeaderBits(h)|, |SymbolBits(h.lens, h.selectors, symbols, 0)|;
    assert |BlockBits(level, h, symbols, out, column)| == head + body;
    ThriftyParts(head, body, |symbols|, |column|);
  }

  lemma ThriftyParts(head: nat, body: nat, m: nat, n: nat)
    requires m <= n + 1 && head <= FRONT_BITS + 6 * SelectorCount(m) && 5 * body <= 47 * (m + 6 * 258)
    ensures head + body <= ThriftyBound(n)
  {}

  lemma OneFullMore(x: int, k: nat)
    ensures x * (k + 1) == x * k + x
  {}
}
