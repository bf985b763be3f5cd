/** A stream written out byte by byte: five times "a" and a "b" at block size 9, with the checksums
    left open. Both what the encoder may send and what the decoder reads is tied to these bytes. */
module Sample {
  import opened Arithmetic
  import opened Basics
  import opened Bits
  import opened Rotations
  import opened ByteCounts
  import opened BurrowsWheeler
  import opened Huffman
  import opened MoveToFront
  import opened GenerateMtf
  import opened BlockFormat
  import opened SymbolFormat
  import opened Block
  import opened RunLengths
  import opened Stream
  import opened Answers
  import opened BuffToBuff

  const DATA: seq<Byte> := [97, 97, 97, 97, 97, 98]

  /** A word as four bytes. */
  function Big(w: Word): (r: seq<Byte>)
    ensures |r| == 4
  {
    var hi, lo := w / 0x1_0000, w % 0x1_0000;
    [hi / 256, hi % 256, lo / 256, lo % 256]
  }

  const FIRST: seq<Byte> := [0x42, 0x5a, 0x68, 0x39, 0x31, 0x41, 0x59, 0x26, 0x53, 0x59]
  const MIDDLE: seq<Byte> :=
    [0x00, 0x00, 0x02, 0x41, 0x00, 0x20, 0x00, 0x30, 0x00, 0x20, 0x00, 0x21, 0x26, 0x41, 0x98, 0x42]
  const LAST: seq<Byte> := [0xb8, 0xbb, 0x92, 0x29, 0xc2, 0x84]

  /** The stream, with the checksum of its block and that of the whole. */
  function Bytes(crc: Word, combined: Word): seq<Byte> {
    FIRST + Big(crc) + MIDDLE + Tail(combined)
  }

  function Tail(combined: Word): seq<Byte> {
    LAST + ([0x80 + combined / 0x2000_0000] + Big(combined % 0x2000_0000 * 8))
  }

  // ---------- the block ----------

  const BLOCK: seq<Byte> := [97, 97, 97, 97, 1, 98]
  const ORDER: seq<nat> := [4, 3, 2, 1, 0, 5]
  const COLUMN: seq<Byte> := [97, 97, 97, 97, 98, 1]

  lemma BlockExpands()
    ensures Expand(BLOCK) == DATA && Complete(BLOCK)
  {
    var one: seq<Byte> := [98];
    assert Lead(BLOCK) == 4 && BLOCK[5..] == one && RunLengths.Counted(BLOCK[4]) == 5;
    assert Lead(one) == 1 && one[1..] == [];
    assert Expand(one) == Copies(98, 1) + Expand(one[1..]);
    assert Complete(one[1..]);
  }

  lemma {:induction false} Earlier(x: nat, y: nat, h: nat)
    requires y < x <= 4 && h > 4 - x
    ensures Cmp(BLOCK, x, y, h) < 0
    decreases 4 - x
  {
    if x < 4 { Earlier(x + 1, y + 1, h - 1); }
  }

  lemma InOrderOfRotations()
    ensures IsRotationOrder(BLOCK, ORDER)
  {
    forall i, j | 0 <= i < j < 6 ensures Differ(ORDER, i, j) {}
    forall i, j | 0 <= i < j < 6 ensures InOrder(BLOCK, ORDER, 6, i, j) {
      if j < 5 { Earlier(ORDER[i], ORDER[j], 6); }
    }
  }

  lemma ColumnIs()
    ensures LastColumn(BLOCK, ORDER) == COLUMN
  {
    forall i: nat | i < 6 ensures LastColumn(BLOCK, ORDER)[i] == COLUMN[i] { LastColumnAt(BLOCK, ORDER, i); }
  }

  // ---------- the symbols ----------

  predicate Occurs(c: nat) { c == 1 || c == 97 || c == 98 }

  function InUse(): (r: seq<bool>)
    ensures |r| == 256 && forall c :: 0 <= c < 256 ==> r[c] == Occurs(c)
  {
    seq(256, c requires 0 <= c < 256 => Occurs(c))
  }

  const USED: seq<Byte> := [1, 97, 98]
  const INDICES: seq<nat> := [1, 1, 1, 1, 2, 0]
  const SYMBOLS: seq<nat> := [2, 0, 0, 3, 3, 4]

  lemma {:induction false} UsedUpto(n: nat)
    requires n <= 256
    ensures UsedBytes(InUse(), n) == USED[..if n <= 1 then 0 else if n <= 97 then 1 else if n <= 98 then 2 else 3]
  {
    if n > 0 { UsedUpto(n - 1); }
  }

  lemma UsedIs()
    ensures Used(InUse()) == USED
  {
    UsedUpto(256);
    assert USED[..3] == USED;
  }

  lemma RunOfThree()
    ensures RunDigits(0) == [] && RunDigits(3) == [0, 0]
  {
    assert RunDigits(1) == [0] + RunDigits(0);
    assert RunDigits(3) == [0] + RunDigits(1);
  }

  lemma IndexIs(l: seq<nat>, v: nat, j: nat)
    requires j < |l| && l[j] == v && v !in l[..j]
    ensures v in l && IndexOf(l, v) == j
  {
    forall k | 0 <= k < j ensures l[k] != v { assert l[..j][k] == l[k]; }
    FoundAt(l, v, j);
  }

  lemma LastSymbols()
    ensures Symbols([2, 1, 0], [0], 0, 4) == [3, 4]
  {
    RunOfThree();
    IndexIs([2, 1, 0], 0, 2);
    assert Front([2, 1, 0], 2) == [0, 2, 1];
    assert Symbols([0, 2, 1], [], 0, 4) == [4];
  }

  lemma MiddleSymbols()
    ensures Symbols([1, 0, 2], [1, 1, 1, 2, 0], 0, 4) == [0, 0, 3, 3, 4]
  {
    RunOfThree();
    LastSymbols();
    var l: seq<nat> := [1, 0, 2];
    IndexIs(l, 2, 2);
    assert Front(l, 2) == [2, 1, 0];
    var c3: seq<nat> := [1, 1, 1, 2, 0];
    var c2: seq<nat> := [1, 1, 2, 0];
    var c1: seq<nat> := [1, 2, 0];
    var c0: seq<nat> := [2, 0];
    assert c3[1..] == c2 && c2[1..] == c1 && c1[1..] == c0 && c0[1..] == [0];
    assert Symbols(l, c0, 3, 4) == RunDigits(3) + [3] + Symbols([2, 1, 0], [0], 0, 4);
    assert Symbols(l, c1, 2, 4) == Symbols(l, c0, 3, 4);
    assert Symbols(l, c2, 1, 4) == Symbols(l, c1, 2, 4);
  }

  lemma IndicesFit()
    ensures AllIn(INDICES, Upto(3)) && Upto(3) == [0, 1, 2]
  {
    forall i | 0 <= i < 6 ensures INDICES[i] in Upto(3) { assert Upto(3)[INDICES[i]] == INDICES[i]; }
  }

  lemma SymbolsAre()
    ensures AllIn(INDICES, Upto(3)) && Symbols(Upto(3), INDICES, 0, 4) == SYMBOLS
  {
    IndicesFit();
    IndexIs([0, 1, 2], 1, 1);
    assert Front([0, 1, 2], 1) == [1, 0, 2] && INDICES[1..] == [1, 1, 1, 2, 0];
    RunOfThree();
    MiddleSymbols();
  }

  // ---------- the tables ----------

  const LENS0: seq<Byte> := [2, 3, 2, 2, 3]
  const LENS1: seq<Byte> := [3, 3, 2, 2, 2]

  lemma OneMoreLength(s: seq<Byte>, x: Byte, t: seq<Byte>)
    requires t == s + [x] && x <= 20
    ensures KraftUpTo(t, 20, 20) == KraftUpTo(s, 20, 20) + Pow2(20 - x)
  {
    assert t[..|t| - 1] == s;
  }

  lemma KraftOfFive(a: Byte, b: Byte, c: Byte, d: Byte, e: Byte)
    requires a <= 20 && b <= 20 && c <= 20 && d <= 20 && e <= 20
    ensures KraftUpTo([a, b, c, d, e], 20, 20)
         == Pow2(20 - a) + Pow2(20 - b) + Pow2(20 - c) + Pow2(20 - d) + Pow2(20 - e)
  {
    OneMoreLength([], a, [a]);
    OneMoreLength([a], b, [a, b]);
    OneMoreLength([a, b], c, [a, b, c]);
    OneMoreLength([a, b, c], d, [a, b, c, d]);
    OneMoreLength([a, b, c, d], e, [a, b, c, d, e]);
  }

  lemma KraftPowers(p: nat, q: nat, all: nat)
    requires p == Pow2(18) && q == Pow2(17) && all == Pow2(20)
    ensures p + q + p + p + q <= all && q + q + p + p + p <= all
  {
    assert p == 2 * q && Pow2(19) == 2 * p && all == 2 * Pow2(19);
  }

  lemma FirstIsGood()
    ensures GoodLengths(LENS0)
  {
    KraftOfFive(2, 3, 2, 2, 3);
    KraftPowers(Pow2(18), Pow2(17), Pow2(20));
    KraftIsEnough(LENS0);
  }

  lemma SecondIsGood()
    ensures GoodLengths(LENS1)
  {
    KraftOfFive(3, 3, 2, 2, 2);
    KraftPowers(Pow2(18), Pow2(17), Pow2(20));
    KraftIsEnough(LENS1);
  }

  lemma KraftIsEnough(lens: seq<Byte>)
    requires |lens| == 5 && (forall i :: 0 <= i < 5 ==> 1 <= lens[i] <= 3) && KraftUpTo(lens, 20, 20) <= Pow2(20)
    ensures GoodLengths(lens)
  {
    forall n: nat | n <= LONGEST ensures CodesFit(lens, n) { KraftSuffices(lens, n, 20); }
  }

  lemma PlacesAre()
    ensures Places(LENS0, 0) == [] && Places(LENS0, 1) == [] && Places(LENS0, 2) == [0, 2, 3]
    ensures Places(LENS0[..1], 3) == [] && Places(LENS0[..4], 3) == [1]
    ensures Places(LENS0[..0], 2) == [] && Places(LENS0[..2], 2) == [0] && Places(LENS0[..3], 2) == [0, 2]
  {
    var l1, l2, l3, l4 := LENS0[..1], LENS0[..2], LENS0[..3], LENS0[..4];
    assert l1[..0] == [] && l2[..1] == l1 && l3[..2] == l2 && l4[..3] == l3 && LENS0[..4] == l4;
    forall c: Byte | c < 4 ensures Places(l1, c) == if c == 2 then [0] else [] {}
    forall c: Byte | c < 4 ensures Places(l2, c) == if c == 2 then [0] else if c == 3 then [1] else [] {}
    forall c: Byte | c < 4 ensures Places(l3, c) == if c == 2 then [0, 2] else if c == 3 then [1] else [] {}
    forall c: Byte | c < 4 ensures Places(l4, c) == if c == 2 then [0, 2, 3] else if c == 3 then [1] else [] {}
  }

  /** Symbols of two bits are coded by 0, 1 and 2, those of three bits by 6 and 7. */
  lemma CodesAre()
    ensures CodeBits(LENS0, 0) == BitsOf(0, 2) && CodeBits(LENS0, 2) == BitsOf(1, 2)
    ensures CodeBits(LENS0, 3) == BitsOf(2, 2) && CodeBits(LENS0, 4) == BitsOf(7, 3)
  {
    PlacesAre();
    assert First(LENS0, 1) == 0 && First(LENS0, 2) == 0 && First(LENS0, 3) == 6;
  }

  function TheHeader(crc: Word): Header { Header(crc, false, 4, InUse(), [0], [LENS0, LENS1]) }

  lemma HeaderIsSendable(crc: Word)
    ensures Sendable(9, TheHeader(crc))
  {
    UsedIs();
    FirstIsGood();
    SecondIsGood();
  }

  lemma BlockIsCarried(crc: Word)
    ensures Carries(9, TheHeader(crc), SYMBOLS, INDICES, COLUMN)
  {
    HeaderIsSendable(crc);
    UsedIs();
    SymbolsAre();
  }

  // ---------- the bits ----------

  lemma {:induction false} ShrOf(v: nat, w: nat, k: nat)
    requires w < Pow2(k)
    ensures Shr(v * Pow2(k) + w, k) == v
    decreases k
  {
    if k > 0 {
      Doubled(v, Pow2(k - 1), w / 2);
      assert (v * Pow2(k) + w) / 2 == v * Pow2(k - 1) + w / 2;
      ShrOf(v, w / 2, k - 1);
    }
  }

  lemma HighPart(v: nat, n: nat, w: nat, k: nat, all: nat)
    requires w < Pow2(k) && all == v * Pow2(k) + w
    ensures BitsOf(all, n + k) == BitsOf(v, n) + BitsOf(all, k)
  {
    SplitBits(all, n, k);
    ShrOf(v, w, k);
  }

  lemma LowPart(v: nat, w: nat, k: nat, p: nat, all: nat)
    requires p == Pow2(k) && w < p && all == v * p + w
    ensures BitsOf(all, k) == BitsOf(w, k)
  {
    LowBits(all, k);
    DivUnique(all, p, v, w);
  }

  /** Two numbers written one after the other are one number. */
  lemma Merged(v: nat, n: nat, w: nat, k: nat, p: nat, all: nat, m: nat)
    requires p == Pow2(k) && w < p && all == v * p + w && m == n + k
    ensures BitsOf(v, n) + BitsOf(w, k) == BitsOf(all, m)
  {
    HighPart(v, n, w, k, all);
    LowPart(v, w, k, p, all);
  }

  /** The same bits cut at another place; all is the number they are. */
  lemma Recut(all: nat, len: nat, c: nat, k: nat, w: nat, n: nat, p: nat, x: nat, j: nat, y: nat, m: nat, q: nat)
    requires p == Pow2(n) && w < p && all == c * p + w && len == k + n
    requires q == Pow2(m) && y < q && all == x * q + y && len == j + m
    ensures BitsOf(c, k) + BitsOf(w, n) == BitsOf(x, j) + BitsOf(y, m)
  {
    Merged(c, k, w, n, p, all, len);
    Merged(x, j, y, m, q, all, len);
  }

  lemma Powers()
    ensures Pow2(4) == 16 && Pow2(5) == 32 && Pow2(8) == 256 && Pow2(12) == 0x1000 && Pow2(13) == 0x2000
    ensures Pow2(16) == 0x1_0000 && Pow2(19) == 0x8_0000 && Pow2(24) == 0x100_0000
    ensures Pow2(32) == 0x1_0000_0000 && Pow2(35) == 0x8_0000_0000
  {
    Pow2Sum(8, 5);
    Pow2Sum(8, 8);
    Pow2Sum(16, 3);
    Pow2Sum(16, 8);
    Pow2Sum(16, 16);
    Pow2Sum(32, 3);
  }

  lemma TwoBytes(a: Byte, b: Byte)
    ensures BytesBits([a, b]) == BitsOf(256 * a + b, 16)
  {
    assert [a, b] == [a] + [b];
    BytesBitsConcat([a], [b]);
    ByteBits(a);
    ByteBits(b);
    Powers();
    Merged(a, 8, b, 8, 256, 256 * a + b, 16);
  }

  lemma BigIs(w: Word)
    ensures BytesBits(Big(w)) == BitsOf(w, 32)
  {
    var hi, lo := w / 0x1_0000, w % 0x1_0000;
    FourBytes(hi / 256, hi % 256, lo / 256, lo % 256, hi, lo);
    Powers();
    Merged(hi, 16, lo, 16, 0x1_0000, w, 32);
  }

  lemma FourBytes(a: Byte, b: Byte, c: Byte, d: Byte, hi: nat, lo: nat)
    requires hi == 256 * a + b && lo == 256 * c + d
    ensures BytesBits([a, b, c, d]) == BitsOf(hi, 16) + BitsOf(lo, 16)
  {
    assert [a, b, c, d] == [a, b] + [c, d];
    BytesBitsConcat([a, b], [c, d]);
    TwoBytes(a, b);
    TwoBytes(c, d);
  }

  /** Bytes that have been filled, and c left over, take up f. */
  lemma Slide(t: seq<bool>, p: seq<Byte>, c: seq<bool>, f: seq<bool>, b: seq<Byte>, d: seq<bool>)
    requires t == BytesBits(p) + c && c + f == BytesBits(b) + d
    ensures t + f == BytesBits(p + b) + d
  {
    BytesBitsConcat(p, b);
    ConcatAssoc(BytesBits(p), c, f);
    ConcatAssoc(BytesBits(p), BytesBits(b), d);
  }

  // ---------- the mapping table ----------

  function Num(b: bool): nat { if b then 1 else 0 }

  /** Four bits, the most significant first. */
  lemma Nibble(a: bool, b: bool, c: bool, d: bool, v: nat)
    requires v == 8 * Num(a) + 4 * Num(b) + 2 * Num(c) + Num(d)
    ensures BitsOf(v, 4) == [a, b, c, d]
  {
    var h := v / 2;
    var q := h / 2;
    assert BitsOf(q / 2, 1) == BitsOf(0, 0) + [a];
    assert BitsOf(q, 2) == [a, b];
    assert BitsOf(h, 3) == [a, b, c];
  }

  lemma Octet(hi: nat, lo: nat, v: nat, a: seq<bool>, b: seq<bool>)
    requires v == 16 * hi + lo && lo < 16 && BitsOf(hi, 4) == a && BitsOf(lo, 4) == b
    ensures BitsOf(v, 8) == a + b
  {
    Powers();
    Merged(hi, 4, lo, 4, 16, v, 8);
  }

  lemma NoBits()
    ensures BitsOf(0, 8) == [false, false, false, false, false, false, false, false]
  {
    Nibble(false, false, false, false, 0);
    Octet(0, 0, 0, BitsOf(0, 4), BitsOf(0, 4));
  }

  lemma Octets()
    ensures BitsOf(0x82, 8) == [true, false, false, false, false, false, true, false]
    ensures BitsOf(0x40, 8) == [false, true, false, false, false, false, false, false]
    ensures BitsOf(0x60, 8) == [false, true, true, false, false, false, false, false]
  {
    Nibble(true, false, false, false, 8);
    Nibble(false, false, true, false, 2);
    Nibble(false, true, false, false, 4);
    Nibble(false, true, true, false, 6);
    Nibble(false, false, false, false, 0);
    Octet(8, 2, 0x82, BitsOf(8, 4), BitsOf(2, 4));
    Octet(4, 0, 0x40, BitsOf(4, 4), BitsOf(0, 4));
    Octet(6, 0, 0x60, BitsOf(6, 4), BitsOf(0, 4));
  }

  lemma Sixteen()
    ensures BitsOf(0x8200, 16) == BitsOf(0x82, 8) + BitsOf(0, 8)
    ensures BitsOf(0x4000, 16) == BitsOf(0x40, 8) + BitsOf(0, 8)
    ensures BitsOf(0x6000, 16) == BitsOf(0x60, 8) + BitsOf(0, 8)
  {
    Powers();
    Merged(0x82, 8, 0, 8, 256, 0x8200, 16);
    Merged(0x40, 8, 0, 8, 256, 0x4000, 16);
    Merged(0x60, 8, 0, 8, 256, 0x6000, 16);
  }

  lemma RowsUsed(i: nat)
    requires i < 16
    ensures RowUsed(InUse(), i) <==> i == 0 || i == 6
  {
    if i == 0 { assert InUse()[1]; }
    if i == 6 { assert InUse()[97]; }
  }

  lemma FlagsAre()
    ensures RowFlags(InUse()) == BitsOf(0x8200, 16)
  {
    Sixteen();
    Octets();
    NoBits();
    var s := BitsOf(0x82, 8) + BitsOf(0, 8);
    forall i: nat | i < 16 ensures RowFlags(InUse())[i] == s[i] {
      RowsUsed(i);
      assert s[i] == if i < 8 then BitsOf(0x82, 8)[i] else BitsOf(0, 8)[i - 8];
    }
  }

  lemma Picked(s: seq<bool>, a: seq<bool>, b: seq<bool>, from: nat)
    requires |a| == |b| == 8 && from + 16 <= |s|
    requires forall j :: 0 <= j < 8 ==> s[from + j] == a[j] && s[from + 8 + j] == b[j]
    ensures s[from..from + 16] == a + b
  {
    forall j | 0 <= j < 16 ensures s[from..from + 16][j] == (a + b)[j] {
      if j >= 8 { assert s[from + 8 + (j - 8)] == b[j - 8]; }
    }
  }

  lemma RowsAre()
    ensures InUse()[0..16] == BitsOf(0x4000, 16) && InUse()[96..112] == BitsOf(0x6000, 16)
  {
    Sixteen();
    Octets();
    NoBits();
    Picked(InUse(), BitsOf(0x40, 8), BitsOf(0, 8), 0);
    Picked(InUse(), BitsOf(0x60, 8), BitsOf(0, 8), 96);
  }

  lemma {:induction false} RowsFrom(i: nat)
    requires i <= 16
    ensures RowBits(InUse(), i) == (if i == 0 then InUse()[0..16] else []) + (if i <= 6 then InUse()[96..112] else [])
    decreases 16 - i
  {
    if i < 16 {
      RowsUsed(i);
      RowsFrom(i + 1);
    }
  }

  lemma MapIs()
    ensures MapBits(InUse()) == BitsOf(0x8200, 16) + (BitsOf(0x4000, 16) + BitsOf(0x6000, 16))
  {
    FlagsAre();
    RowsAre();
    RowsFrom(0);
  }

  // ---------- selectors, tables and symbols ----------

  lemma SelectorsAre(crc: Word)
    ensures HeaderOk(TheHeader(crc)) && SelectorBits(TheHeader(crc)) == BitsOf(0x2_0002, 19)
  {
    var h := TheHeader(crc);
    HeaderIsSendable(crc);
    SelectorsAreIn(h.selectors, 2);
    assert Upto(2)[0] == 0;
    IndexIs(Upto(2), 0, 0);
    assert SelectorIndices(h) == [0];
    assert UnaryBits([0]) == Unary(0) + UnaryBits([]);
    CountsAndSelector();
  }

  lemma CountsAndSelector()
    ensures BitsOf(2, 3) + BitsOf(1, 15) + [false] == BitsOf(0x2_0002, 19)
  {
    assert BitsOf(0, 1) == [false];
    Pow2Sum(8, 7);
    Merged(2, 3, 1, 15, 0x8000, 0x1_0001, 18);
    Merged(0x1_0001, 18, 0, 1, 2, 0x2_0002, 19);
  }

  /** One more length in front of others. */
  lemma Deltas(curr: nat, x: Byte, more: seq<Byte>, lens: seq<Byte>, step: seq<bool>, rest: seq<bool>)
    requires lens == [x] + more && Steps(curr, x) == step && DeltaBits(x, more) == rest
    ensures DeltaBits(curr, lens) == step + rest
  {
    assert lens[1..] == more;
  }

  lemma StepsAre()
    ensures Steps(2, 3) == [true, false, false] && Steps(3, 2) == [true, true, false]
    ensures Steps(2, 2) == [false] && Steps(3, 3) == [false]
  {
    assert Steps(2, 3) == [true, false] + Steps(3, 3);
    assert Steps(3, 2) == [true, true] + Steps(2, 2);
  }

  lemma FirstDeltas()
    ensures DeltaBits(2, LENS0) == [false, true, false, false, true, true, false, false, true, false, false]
  {
    StepsAre();
    Deltas(2, 3, [], [3], [true, false, false], []);
    Deltas(2, 2, [3], [2, 3], [false], [true, false, false]);
    Deltas(3, 2, [2, 3], [2, 2, 3], [true, true, false], [false, true, false, false]);
    Deltas(2, 3, [2, 2, 3], [3, 2, 2, 3], [true, false, false], [true, true, false, false, true, false, false]);
    Deltas(2, 2, [3, 2, 2, 3], LENS0, [false],
           [true, false, false, true, true, false, false, true, false, false]);
  }

  lemma SecondDeltas()
    ensures DeltaBits(3, LENS1) == [false, false, true, true, false, false, false]
  {
    StepsAre();
    Deltas(2, 2, [], [2], [false], []);
    Deltas(2, 2, [2], [2, 2], [false], [false]);
    Deltas(3, 2, [2, 2], [2, 2, 2], [true, true, false], [false, false]);
    Deltas(3, 3, [2, 2, 2], [3, 2, 2, 2], [false], [true, true, false, false, false]);
    Deltas(3, 3, [3, 2, 2, 2], LENS1, [false], [false, true, true, false, false, false]);
  }

  lemma ElevenBits()
    ensures BitsOf(0x264, 11) == [false, true, false, false, true, true, false, false, true, false, false]
  {
    Nibble(false, true, false, false, 4);
    Nibble(true, true, false, false, 12);
    Octet(4, 12, 0x4c, BitsOf(4, 4), BitsOf(12, 4));
    assert BitsOf(4, 3) == [true, false, false];
    Merged(0x4c, 8, 4, 3, 8, 0x264, 11);
  }

  /** The first length in five bits and then steps; in all 0001 0010 0110 0100. */
  lemma FirstTableIs()
    ensures LengthBits(LENS0) == BitsOf(0x1264, 16)
  {
    FirstDeltas();
    ElevenBits();
    Pow2Sum(8, 3);
    Merged(2, 5, 0x264, 11, 0x800, 0x1264, 16);
  }

  /** 0001 1001 1000. */
  lemma SecondTableIs()
    ensures LengthBits(LENS1) == BitsOf(0x198, 12)
  {
    SecondDeltas();
    Nibble(false, false, true, true, 3);
    assert BitsOf(0, 3) == [false, false, false];
    Merged(3, 4, 0, 3, 8, 0x18, 7);
    Merged(3, 5, 0x18, 7, 0x80, 0x198, 12);
  }

  lemma TablesAre()
    ensures TablesBits([LENS0, LENS1]) == BitsOf(0x1264, 16) + BitsOf(0x198, 12)
  {
    var lens: seq<seq<Byte>> := [LENS0, LENS1];
    var last: seq<seq<Byte>> := [LENS1];
    assert lens[1..] == last && last[1..] == [];
    assert TablesBits(last) == LengthBits(LENS1) + TablesBits([]);
    assert TablesBits(lens) == LengthBits(LENS0) + TablesBits(last);
    FirstTableIs();
    SecondTableIs();
  }

  lemma SymbolBitsAre()
    requires Codable([LENS0, LENS1], [0], SYMBOLS)
    ensures SymbolBits([LENS0, LENS1], [0], SYMBOLS, 0) == BitsOf(0x857, 13)
  {
    var lens: seq<seq<Byte>> := [LENS0, LENS1];
    CodesAre();
    assert SymbolBits(lens, [0], SYMBOLS, 5) == BitsOf(7, 3) + SymbolBits(lens, [0], SYMBOLS, 6);
    assert SymbolBits(lens, [0], SYMBOLS, 4) == BitsOf(2, 2) + SymbolBits(lens, [0], SYMBOLS, 5);
    assert SymbolBits(lens, [0], SYMBOLS, 3) == BitsOf(2, 2) + SymbolBits(lens, [0], SYMBOLS, 4);
    assert SymbolBits(lens, [0], SYMBOLS, 2) == BitsOf(0, 2) + SymbolBits(lens, [0], SYMBOLS, 3);
    assert SymbolBits(lens, [0], SYMBOLS, 1) == BitsOf(0, 2) + SymbolBits(lens, [0], SYMBOLS, 2);
    assert SymbolBits(lens, [0], SYMBOLS, 0) == BitsOf(1, 2) + SymbolBits(lens, [0], SYMBOLS, 1);
    Merged(2, 2, 7, 3, 8, 0x17, 5);
    Merged(2, 2, 0x17, 5, 0x20, 0x57, 7);
    Merged(0, 2, 0x57, 7, 0x80, 0x57, 9);
    Merged(0, 2, 0x57, 9, 0x200, 0x57, 11);
    Merged(1, 2, 0x57, 11, 0x800, 0x857, 13);
  }

  // ---------- the whole ----------

  lemma FirstBits()
    ensures BitsOf(0, 1) + BitsOf(4, 24) == BytesBits([0, 0, 2]) + BitsOf(0, 1)
  {
    Powers();
    ThreeBytes(0, 0, 2, 0);
    Recut(4, 25, 0, 1, 4, 24, 0x100_0000, 2, 24, 0, 1, 2);
  }

  lemma MoreBits(t: seq<bool>, p: seq<Byte>)
    requires t == BytesBits(p) + BitsOf(0, 1)
    ensures t + BitsOf(0x8200, 16) + BitsOf(0x4000, 16) + BitsOf(0x6000, 16) + BitsOf(0x2_0002, 19)
         == BytesBits(p + [0x41, 0x00] + [0x20, 0x00] + [0x30, 0x00] + [0x20, 0x00]) + BitsOf(2, 4)
  {
    Powers();
    NextTwo(0x8200, t, p, 0, 1, 0x8200, 16, 0x1_0000, 0x41, 0x00, 0x4100, 0, 1, 2);
    var t1, p1 := t + BitsOf(0x8200, 16), p + [0x41, 0x00];
    NextTwo(0x4000, t1, p1, 0, 1, 0x4000, 16, 0x1_0000, 0x20, 0x00, 0x2000, 0, 1, 2);
    var t2, p2 := t1 + BitsOf(0x4000, 16), p1 + [0x20, 0x00];
    NextTwo(0x6000, t2, p2, 0, 1, 0x6000, 16, 0x1_0000, 0x30, 0x00, 0x3000, 0, 1, 2);
    NextTwo(0x2_0002, t2 + BitsOf(0x6000, 16), p2 + [0x30, 0x00], 0, 1, 0x2_0002, 19, 0x8_0000, 0x20, 0x00, 0x2000,
            2, 4, 16);
  }

  /** From the bit that says whether the block is randomised to the last symbol. */
  lemma MiddleBits()
    ensures BitsOf(0, 1) + BitsOf(4, 24) + BitsOf(0x8200, 16) + BitsOf(0x4000, 16) + BitsOf(0x6000, 16)
            + BitsOf(0x2_0002, 19) + BitsOf(0x1264, 16) + BitsOf(0x198, 12) + BitsOf(0x857, 13)
         == BytesBits(MIDDLE) + BitsOf(0x17, 5)
  {
    FirstBits();
    var t, p := BitsOf(0, 1) + BitsOf(4, 24), [0, 0, 2];
    MoreBits(t, p);
    LastBits(t + BitsOf(0x8200, 16) + BitsOf(0x4000, 16) + BitsOf(0x6000, 16) + BitsOf(0x2_0002, 19),
             p + [0x41, 0x00] + [0x20, 0x00] + [0x30, 0x00] + [0x20, 0x00]);
    MiddleIs();
  }

  lemma MiddleIs()
    ensures MIDDLE == [0, 0, 2] + [0x41, 0x00] + [0x20, 0x00] + [0x30, 0x00] + [0x20, 0x00]
                      + [0x21, 0x26] + [0x41, 0x98] + [0x42]
  {}

  lemma LastBits(t: seq<bool>, p: seq<Byte>)
    requires t == BytesBits(p) + BitsOf(2, 4)
    ensures t + BitsOf(0x1264, 16) + BitsOf(0x198, 12) + BitsOf(0x857, 13)
         == BytesBits(p + [0x21, 0x26] + [0x41, 0x98] + [0x42]) + BitsOf(0x17, 5)
  {
    Powers();
    NextTwo(0x2_1264, t, p, 2, 4, 0x1264, 16, 0x1_0000, 0x21, 0x26, 0x2126, 4, 4, 16);
    var t1 := t + BitsOf(0x1264, 16);
    NextTwo(0x4198, t1, p + [0x21, 0x26], 4, 4, 0x198, 12, 0x1000, 0x41, 0x98, 0x4198, 0, 0, 1);
    var t2 := t1 + BitsOf(0x198, 12);
    ByteBits(0x42);
    Recut(0x857, 13, 0, 0, 0x857, 13, 0x2000, 0x42, 8, 0x17, 5, 32);
    Slide(t2, p + [0x21, 0x26] + [0x41, 0x98], BitsOf(0, 0), BitsOf(0x857, 13), [0x42], BitsOf(0x17, 5));
  }

  lemma ThreeBytes(a: Byte, b: Byte, c: Byte, v: nat)
    requires v == 256 * a + b
    ensures BytesBits([a, b, c]) == BitsOf(256 * v + c, 24)
  {
    assert [a, b, c] == [a, b] + [c];
    BytesBitsConcat([a, b], [c]);
    TwoBytes(a, b);
    ByteBits(c);
    Powers();
    Merged(v, 16, c, 8, 256, 256 * v + c, 24);
  }

  /** The field w fills up two more bytes. */
  lemma NextTwo(all: nat, t: seq<bool>, p: seq<Byte>, c: nat, k: nat, w: nat, n: nat, pw: nat, a: Byte, b: Byte, x: nat,
                y: nat, m: nat, q: nat)
    requires t == BytesBits(p) + BitsOf(c, k)
    requires pw == Pow2(n) && w < pw && q == Pow2(m) && y < q
    requires k + n == 16 + m && all == c * pw + w && x == 256 * a + b && all == x * q + y
    ensures t + BitsOf(w, n) == BytesBits(p + [a, b]) + BitsOf(y, m)
  {
    TwoBytes(a, b);
    Recut(all, k + n, c, k, w, n, pw, x, 16, y, m, q);
    Slide(t, p, BitsOf(c, k), BitsOf(w, n), [a, b], BitsOf(y, m));
  }

  lemma CodingBitsAre(crc: Word)
    ensures HeaderOk(TheHeader(crc))
    ensures CodingBits(TheHeader(crc))
         == BitsOf(0x8200, 16) + (BitsOf(0x4000, 16) + BitsOf(0x6000, 16)) + BitsOf(0x2_0002, 19)
            + (BitsOf(0x1264, 16) + BitsOf(0x198, 12))
  {
    MapIs();
    SelectorsAre(crc);
    TablesAre();
  }

  lemma HeaderBitsAre(crc: Word, coding: seq<bool>)
    requires HeaderOk(TheHeader(crc)) && coding == CodingBits(TheHeader(crc))
    ensures HeaderBits(TheHeader(crc)) == Marked(BLOCK_MAGIC, BitsOf(crc, 32)) + BitsOf(0, 1) + BitsOf(4, 24) + coding
  {}

  lemma BodyBitsAre(crc: Word)
    requires Carries(9, TheHeader(crc), SYMBOLS, INDICES, COLUMN)
    ensures BlockBits(9, TheHeader(crc), SYMBOLS, INDICES, COLUMN) == HeaderBits(TheHeader(crc)) + BitsOf(0x857, 13)
  {
    CarriedIsCodable(9, TheHeader(crc), SYMBOLS, INDICES, COLUMN);
    SymbolBitsAre();
  }

  /** From the block's magic number on. */
  lemma BlockBitsAre(crc: Word)
    requires Carries(9, TheHeader(crc), SYMBOLS, INDICES, COLUMN)
    ensures BlockBits(9, TheHeader(crc), SYMBOLS, INDICES, COLUMN)
         == Marked(BLOCK_MAGIC, BitsOf(crc, 32)) + (BytesBits(MIDDLE) + BitsOf(0x17, 5))
  {
    CodingBitsAre(crc);
    HeaderBitsAre(crc, CodingBits(TheHeader(crc)));
    BodyBitsAre(crc);
    MiddleBits();
    Regroup(Marked(BLOCK_MAGIC, BitsOf(crc, 32)), BitsOf(0, 1), BitsOf(4, 24), BitsOf(0x8200, 16), BitsOf(0x4000, 16),
            BitsOf(0x6000, 16), BitsOf(0x2_0002, 19), BitsOf(0x1264, 16), BitsOf(0x198, 12), BitsOf(0x857, 13));
  }

  lemma Regroup<T>(x: seq<T>, a: seq<T>, b: seq<T>, c: seq<T>, d: seq<T>, e: seq<T>, f: seq<T>, g: seq<T>, h: seq<T>,
                   i: seq<T>)
    ensures x + a + b + (c + (d + e) + f + (g + h)) + i == x + (a + b + c + d + e + f + g + h + i)
  {
    assert c + (d + e) + f + (g + h) == c + d + e + f + g + h;
    assert a + b + (c + d + e + f + g + h) == a + b + c + d + e + f + g + h;
    assert x + a + b + (c + d + e + f + g + h) == x + (a + b + (c + d + e + f + g + h));
  }

  /** Bytes written after five bits that are left over. */
  ghost predicate Shifted(c: nat, s: seq<Byte>, out: seq<Byte>, y: nat) {
    BitsOf(c, 5) + BytesBits(s) == BytesBits(out) + BitsOf(y, 5)
  }

  lemma OneShifted(c: nat, s: seq<Byte>, out: seq<Byte>, y: nat, w: Byte, a: Byte, z: nat, s1: seq<Byte>,
                   out1: seq<Byte>)
    requires Shifted(c, s, out, y) && 256 * y + w == 32 * a + z && z < 32 && s1 == s + [w] && out1 == out + [a]
    ensures Shifted(c, s1, out1, z)
  {
    Powers();
    ByteBits(a);
    ByteBits(w);
    BytesBitsConcat(s, [w]);
    Recut(256 * y + w, 13, y, 5, w, 8, 256, a, 8, z, 5, 32);
    Slide(BitsOf(c, 5) + BytesBits(s), out, BitsOf(y, 5), BitsOf(w, 8), [a], BitsOf(z, 5));
    ConcatAssoc(BitsOf(c, 5), BytesBits(s), BitsOf(w, 8));
  }

  lemma HalfShifted()
    ensures Shifted(0x17, [0x17, 0x72, 0x45], [0xb8, 0xbb, 0x92], 5)
  {
    assert BitsOf(0x17, 5) + BytesBits([]) == BytesBits([]) + BitsOf(0x17, 5);
    OneShifted(0x17, [], [], 0x17, 0x17, 0xb8, 0x17, [0x17], [0xb8]);
    OneShifted(0x17, [0x17], [0xb8], 0x17, 0x72, 0xbb, 18, [0x17, 0x72], [0xb8, 0xbb]);
    OneShifted(0x17, [0x17, 0x72], [0xb8, 0xbb], 18, 0x45, 0x92, 5, [0x17, 0x72, 0x45], [0xb8, 0xbb, 0x92]);
  }

  lemma MostShifted()
    ensures Shifted(0x17, [0x17, 0x72, 0x45, 0x38, 0x50], [0xb8, 0xbb, 0x92, 0x29, 0xc2], 16)
  {
    HalfShifted();
    OneShifted(0x17, [0x17, 0x72, 0x45], [0xb8, 0xbb, 0x92], 5, 0x38, 0x29, 24,
               [0x17, 0x72, 0x45, 0x38], [0xb8, 0xbb, 0x92, 0x29]);
    OneShifted(0x17, [0x17, 0x72, 0x45, 0x38], [0xb8, 0xbb, 0x92, 0x29], 24, 0x50, 0xc2, 16,
               [0x17, 0x72, 0x45, 0x38, 0x50], [0xb8, 0xbb, 0x92, 0x29, 0xc2]);
  }

  lemma TrailerShifted()
    ensures Shifted(0x17, [0x17, 0x72, 0x45, 0x38, 0x50, 0x90], LAST, 16)
  {
    MostShifted();
    OneShifted(0x17, [0x17, 0x72, 0x45, 0x38, 0x50], [0xb8, 0xbb, 0x92, 0x29, 0xc2], 16, 0x90, 0x84, 16,
               [0x17, 0x72, 0x45, 0x38, 0x50, 0x90], LAST);
  }

  /** The combined checksum after five bits, and three bits to fill up. */
  lemma EndIs(combined: Word, x: Byte, y: Word)
    requires x == 0x80 + combined / 0x2000_0000 && y == combined % 0x2000_0000 * 8
    ensures BitsOf(16, 5) + BitsOf(combined, 32) + BitsOf(0, 3) == BytesBits([x] + Big(y))
  {
    Powers();
    Merged(combined, 32, 0, 3, 8, 8 * combined, 35);
    Recut(0x80_0000_0000 + 8 * combined, 40, 16, 5, 8 * combined, 35, 0x8_0000_0000, x, 8, y, 32, 0x1_0000_0000);
    BigIs(y);
    ByteBits(x);
    BytesBitsConcat([x], Big(y));
    ConcatAssoc(BitsOf(16, 5), BitsOf(combined, 32), BitsOf(0, 3));
  }

  // ---------- it is a stream ----------

  function TheCrc(sum: Checksum): Word { FinalCrc(sum, DATA) }

  /** The block as it may be sent. */
  ghost function TheBlock(sum: Checksum): SentBlock {
    BlockIsCarried(TheCrc(sum));
    SentBlock(BLOCK, ORDER, TheHeader(TheCrc(sum)), SYMBOLS, INDICES,
              BlockBits(9, TheHeader(TheCrc(sum)), SYMBOLS, INDICES, COLUMN))
  }

  lemma BlockIsWellSent(sum: Checksum)
    ensures AllWellSent(sum, 9, [TheBlock(sum)]) && Data([TheBlock(sum)]) == DATA
    ensures Combined(sum, [TheBlock(sum)]) == sum.combine(0, TheCrc(sum))
  {
    var sb := TheBlock(sum);
    BlockIsCarried(TheCrc(sum));
    BlockExpands();
    InOrderOfRotations();
    ColumnIs();
    assert WellSent(sum, 9, sb);
    SendingOneMore(sum, 9, [], sb);
    assert [] + [sb] == [sb];
  }

  lemma HeadIs(m: seq<Byte>, n: seq<Byte>, w: seq<Byte>, crc: seq<bool>, bits: seq<bool>, middle: seq<bool>)
    requires bits == Marked(n, crc) + middle && crc == BytesBits(w)
    ensures Marked(m, bits) == BytesBits(m + n + w) + middle
  {
    MarkedIs(m, bits);
    MarkedIs(n, crc);
    BytesBitsConcat(m, n);
    BytesBitsConcat(m + n, w);
    FourParts(BytesBits(m), BytesBits(n), crc, middle);
  }

  lemma FirstIs()
    ensures StreamMagic(9) + BLOCK_MAGIC == FIRST
  {}

  lemma FourParts<T>(a: seq<T>, b: seq<T>, c: seq<T>, d: seq<T>)
    ensures a + (b + c + d) == a + b + c + d
  {}

  /** The stream header and the block. */
  lemma StreamHeadIs(sum: Checksum)
    ensures StreamHead(9, [TheBlock(sum)])
         == BytesBits(FIRST + Big(TheCrc(sum))) + (BytesBits(MIDDLE) + BitsOf(0x17, 5))
  {
    var sb, crc := TheBlock(sum), TheCrc(sum);
    BlockIsCarried(crc);
    BlockBitsAre(crc);
    assert SentBits([sb]) == SentBits([sb][..0]) + sb.bits;
    assert SentBits([sb]) == sb.bits;
    BigIs(crc);
    FirstIs();
    HeadIs(StreamMagic(9), BLOCK_MAGIC, Big(crc), BitsOf(crc, 32), sb.bits, BytesBits(MIDDLE) + BitsOf(0x17, 5));
  }

  /** The trailer after five bits, and three bits to fill up. */
  lemma TailIs(combined: Word, tail: seq<Byte>)
    requires tail == Tail(combined)
    ensures BitsOf(0x17, 5) + (TrailerBits(combined) + BitsOf(0, 3)) == BytesBits(tail)
  {
    var x, y := 0x80 + combined / 0x2000_0000, combined % 0x2000_0000 * 8;
    TrailerShifted();
    EndIs(combined, x, y);
    MarkedIs(TRAILER_MAGIC, BitsOf(combined, 32));
    BytesBitsConcat(LAST, [x] + Big(y));
    Rejoined(BitsOf(0x17, 5), BytesBits(TRAILER_MAGIC), BitsOf(combined, 32), BitsOf(0, 3), BytesBits(LAST),
             BitsOf(16, 5));
  }

  lemma Rejoined<T>(a: seq<T>, b: seq<T>, c: seq<T>, d: seq<T>, e: seq<T>, f: seq<T>)
    requires a + b == e + f
    ensures a + (b + c + d) == e + (f + c + d)
  {
    assert a + (b + c + d) == a + b + c + d;
  }

  lemma Assembled(front: seq<Byte>, middle: seq<Byte>, tail: seq<Byte>, c: seq<bool>, head: seq<bool>, t: seq<bool>,
                  pad: seq<bool>)
    requires head == BytesBits(front) + (BytesBits(middle) + c) && c + (t + pad) == BytesBits(tail)
    ensures head + t + pad == BytesBits(front + middle + tail)
  {
    var a, b := BytesBits(front), BytesBits(middle);
    BytesBitsConcat(front, middle);
    BytesBitsConcat(front + middle, tail);
    calc {
      head + t + pad;
      a + (b + c) + t + pad;
      { FiveParts(a, b, c, t, pad); }
      a + b + (c + (t + pad));
      a + b + BytesBits(tail);
    }
  }

  lemma FiveParts<T>(a: seq<T>, b: seq<T>, c: seq<T>, d: seq<T>, e: seq<T>)
    ensures a + (b + c) + d + e == a + b + (c + (d + e))
  {}

  lemma FilledUp(bits: seq<bool>, s: seq<Byte>)
    requires bits + BitsOf(0, 3) == BytesBits(s)
    ensures Padded(bits) == BytesBits(s)
  {
    BytesBitsLength(s);
    assert |bits| + 3 == 8 * |s|;
    PaddedIs(bits, 3);
  }

  lemma TrailerIs(sum: Checksum, combined: Word)
    requires combined == sum.combine(0, TheCrc(sum))
    ensures StreamBits(sum, 9, [TheBlock(sum)]) == StreamHead(9, [TheBlock(sum)]) + TrailerBits(combined)
  {
    BlockIsWellSent(sum);
  }

  /** The header, the block and the trailer, and three bits to fill up. */
  lemma StreamBitsAre(sum: Checksum, combined: Word)
    requires combined == sum.combine(0, TheCrc(sum))
    ensures Padded(StreamBits(sum, 9, [TheBlock(sum)])) == BytesBits(Bytes(TheCrc(sum), combined))
  {
    var head, t := StreamHead(9, [TheBlock(sum)]), TrailerBits(combined);
    var front, tail := FIRST + Big(TheCrc(sum)), Tail(combined);
    StreamHeadIs(sum);
    TailIs(combined, tail);
    Assembled(front, MIDDLE, tail, BitsOf(0x17, 5), head, t, BitsOf(0, 3));
    FilledUp(head + t, Bytes(TheCrc(sum), combined));
    TrailerIs(sum, combined);
  }

  /** Whatever the checksum, the decoder answers these bytes with the data. */
  lemma SampleIsRead(sum: Checksum, combined: Word, room: nat, small: bool, v: Sight, res: Result)
    requires combined == sum.combine(0, FinalCrc(sum, DATA))
    requires IsAnswer(sum, BytesBits(Bytes(FinalCrc(sum, DATA), combined)), room, small, v, res)
    ensures res == if room >= 6 then Ok([97, 97, 97, 97, 97, 98]) else OutbuffFull
  {
    var bytes := Bytes(TheCrc(sum), combined);
    StreamBitsAre(sum, combined);
    BlockIsWellSent(sum);
    AnswerToStream(sum, 9, [TheBlock(sum)], bytes, DATA, room, small, v, res);
  }
}
