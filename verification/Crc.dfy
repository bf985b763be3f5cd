/** The checksum of bzip2: BZ_UPDATE_CRC, BZ_FINALISE_CRC and the combined checksum. The register
    is the remainder of the message after division by a polynomial of degree 32. */
module Crc {
  import opened Arithmetic
  import opened Basics
  import opened Bits
  import opened Polynomials
  import opened RunLengths

  function XorWords(a: Word, b: Word): Word {
    WordBits();
    XorBound(a, b, 32);
    Xor(a, b)
  }

  lemma WordBits()
    ensures Pow2(32) == 0x1_0000_0000 && Pow2(24) == 0x100_0000 && Pow2(8) == 256
  {
    assert Pow2(8) == 256;
    Pow2Sum(8, 8);
    Pow2Sum(16, 8);
    Pow2Sum(16, 16);
  }

  /** An entry of the table for the polynomial 0x04c11db7, most significant bit first. */
  function CrcShift(r: Word, k: nat): Word
    decreases k, r
  {
    if k == 0 then r
    else CrcShift(if r >= 0x8000_0000 then XorWords(r * 2 % 0x1_0000_0000, 0x04c1_1db7) else r * 2, k - 1)
  }

  function CrcTable(i: Byte): Word { CrcShift(i * 0x100_0000, 8) }

  function UpdateCrc(crc: Word, c: Byte): Word {
    WordBits();
    XorBound(crc / 0x100_0000, c, 8);
    XorWords(crc % 0x100_0000 * 0x100, CrcTable(Xor(crc / 0x100_0000, c)))
  }

  function Finalised(crc: Word): Word { 0xffff_ffff - crc }

  function TurnedLeft(crc: Word): Word { crc * 2 % 0x1_0000_0000 + crc / 0x8000_0000 }

  /** The combined checksum is turned left by one bit before a block's is mixed in. */
  function Combine(combined: Word, crc: Word): Word { XorWords(TurnedLeft(combined), crc) }

  const BZIP2: Checksum := Checksum(UpdateCrc, Finalised, Combine)

  // ---------- one byte ----------

  /** x to the power 32, and 0x04c11db7 below it. */
  function Generator(): (p: nat)
    ensures Pow2(32) <= p < Pow2(33) && p % 2 == 1
  {
    WordBits();
    0x1_04c1_1db7
  }

  lemma TopBitLeaves(r: Word)
    requires r >= 0x8000_0000
    ensures Congruent(Generator(), XorWords(r * 2 % 0x1_0000_0000, 0x04c1_1db7), 2 * r)
  {
    WordBits();
    LeadTakenAway(Generator(), 32, 2 * r, r * 2 % 0x1_0000_0000, 0x04c1_1db7);
  }

  /** Shifting the register one bit at a time multiplies it by a power of x. */
  lemma {:induction false} ShiftIsProduct(r: Word, k: nat)
    ensures Congruent(Generator(), CrcShift(r, k), Shl(r, k))
    decreases k
  {
    var p := Generator();
    if k == 0 {
      CongruentSame(p, r);
    } else {
      var s: Word := if r >= 0x8000_0000 then XorWords(r * 2 % 0x1_0000_0000, 0x04c1_1db7) else r * 2;
      if r >= 0x8000_0000 { TopBitLeaves(r); } else { CongruentSame(p, s); }
      ShiftIsProduct(s, k - 1);
      CongruentShl(p, s, 2 * r, k - 1);
      ShlTwice(r, 1, k - 1);
      assert Shl(r, 1) == 2 * r;
      CongruentTrans(p, CrcShift(r, k), Shl(s, k - 1), Shl(r, k));
    }
  }

  lemma TopByte(i: nat)
    ensures Shl(i, 24) == i * 0x100_0000
  {
    WordBits();
    ShlIsProduct(i, 24);
  }

  lemma ShiftedEntry(i: nat, top: Word)
    requires top == Shl(i, 24)
    ensures Congruent(Generator(), CrcShift(top, 8), Shl(i, 32))
  {
    ShlTwice(i, 24, 8);
    ShiftIsProduct(top, 8);
  }

  /** The table's entry for i is what i, 32 places up, leaves. */
  lemma TableIsRemainder(i: Byte)
    ensures Congruent(Generator(), CrcTable(i), Shl(i, 32))
  {
    TopByte(i);
    ShiftedEntry(i, i * 0x100_0000);
  }

  lemma {:induction false} ShlIsProduct(x: nat, k: nat)
    ensures Shl(x, k) == x * Pow2(k)
  {
    if k > 0 {
      ShlIsProduct(x, k - 1);
      Doubled(x, Pow2(k - 1), 0);
    }
  }

  lemma WordSplits(crc: Word)
    ensures crc / 0x100_0000 < 256
    ensures Shl(crc, 8) == Xor(Shl(crc / 0x100_0000, 32), crc % 0x100_0000 * 0x100)
  {
    var hi, lo := crc / 0x100_0000, crc % 0x100_0000;
    WordBits();
    ShlIsProduct(hi, 24);
    XorBelow(hi, lo, 24);
    XorShl(Shl(hi, 24), lo, 8);
    ShlTwice(hi, 24, 8);
    ShlIsProduct(lo, 8);
  }

  /** Taking a byte in multiplies by the eighth power of x, adds the byte at the top and
      divides by the polynomial; nothing but the remainder is left. */
  lemma UpdateIsRemainder(crc: Word, c: Byte, r: Word)
    ensures Congruent(Generator(), r, Xor(Shl(crc, 8), Shl(c, 32))) <==> r == UpdateCrc(crc, c)
  {
    var p, hi, lo := Generator(), crc / 0x100_0000, crc % 0x100_0000 * 0x100;
    var next, all := UpdateCrc(crc, c), Xor(Shl(crc, 8), Shl(c, 32));
    WordSplits(crc);
    WordBits();
    XorBound(hi, c, 8);
    TableIsRemainder(Xor(hi, c));
    CongruentAdd(p, CrcTable(Xor(hi, c)), Shl(Xor(hi, c), 32), lo);
    XorComm(CrcTable(Xor(hi, c)), lo);
    XorShl(hi, c, 32);
    XorAssoc(Shl(hi, 32), Shl(c, 32), lo);
    XorComm(Shl(c, 32), lo);
    XorAssoc(Shl(hi, 32), lo, Shl(c, 32));
    assert Congruent(p, next, all);
    if Congruent(p, r, all) {
      CongruentSym(p, next, all);
      CongruentTrans(p, r, all, next);
      RemainderUnique(p, 32, r, next);
    }
  }

  // ---------- a whole block ----------

  /** A bit n times over. */
  function Same(b: bool, n: nat): seq<bool> { seq(n, _ => b) }

  lemma {:induction false} SameIs(n: nat)
    ensures ValueOf(Same(false, n)) == 0 && ValueOf(Same(true, n)) == Pow2(n) - 1
  {
    if n > 0 {
      assert Same(false, n)[..n - 1] == Same(false, n - 1);
      assert Same(true, n)[..n - 1] == Same(true, n - 1);
      SameIs(n - 1);
    }
  }

  /** The bits of a block with 32 zeros behind them and 32 ones added at the front. */
  ghost function Dividend(s: seq<Byte>): nat {
    Xor(ValueOf(BytesBits(s) + Same(false, 32)), ValueOf(Same(true, 32) + Same(false, 8 * |s|)))
  }

  lemma DividendIs(s: seq<Byte>)
    ensures Dividend(s) == Xor(Shl(ValueOf(BytesBits(s)), 32), Shl(0xffff_ffff, 8 * |s|))
  {
    SameIs(32);
    SameIs(8 * |s|);
    WordBits();
    ValueAppend(BytesBits(s), Same(false, 32));
    ValueAppend(Same(true, 32), Same(false, 8 * |s|));
  }

  lemma BitsOneMore(s: seq<Byte>, c: Byte)
    ensures ValueOf(BytesBits(s + [c])) == Xor(Shl(ValueOf(BytesBits(s)), 8), c)
  {
    assert (s + [c])[..|s|] == s;
    ValueAppend(BytesBits(s), BitsOf(c, 8));
    WordBits();
    ValueOfBitsOf(c, 8);
    XorBelow(ValueOf(BytesBits(s)), c, 8);
  }

  lemma LongerDividend(m: nat, e: nat, n: nat, c: nat)
    ensures Xor(Shl(Xor(Shl(m, 8), c), 32), Shl(e, n + 8)) == Xor(Shl(Xor(Shl(m, 32), Shl(e, n)), 8), Shl(c, 32))
  {
    var a, b, f := Shl(m, 40), Shl(c, 32), Shl(e, n + 8);
    XorShl(Shl(m, 8), c, 32);
    ShlTwice(m, 8, 32);
    XorShl(Shl(m, 32), Shl(e, n), 8);
    ShlTwice(m, 32, 8);
    ShlTwice(e, n, 8);
    XorAssoc(a, b, f);
    XorComm(b, f);
    XorAssoc(a, f, b);
  }

  lemma DividendOneMore(s: seq<Byte>, c: Byte)
    ensures Dividend(s + [c]) == Xor(Shl(Dividend(s), 8), Shl(c, 32))
  {
    DividendIs(s);
    DividendIs(s + [c]);
    BitsOneMore(s, c);
    LongerDividend(ValueOf(BytesBits(s)), 0xffff_ffff, 8 * |s|, c);
  }

  /** The register after a block is the remainder of the block's bits, and no other word is. */
  lemma {:induction false} CrcIsRemainder(s: seq<Byte>, r: Word)
    ensures Congruent(Generator(), r, Dividend(s)) <==> r == CrcAfter(BZIP2, s)
    decreases |s|
  {
    var p, crc := Generator(), CrcAfter(BZIP2, s);
    if s == [] {
      DividendIs(s);
      SameIs(0);
      XorZero(0xffff_ffff);
      ShlZero(32);
      CongruentSame(p, crc);
      assert Dividend(s) == crc;
    } else {
      var t, c := s[..|s| - 1], s[|s| - 1];
      var before := CrcAfter(BZIP2, t);
      assert s == t + [c];
      CrcIsRemainder(t, before);
      DividendOneMore(t, c);
      CongruentShl(p, before, Dividend(t), 8);
      CongruentAdd(p, Shl(before, 8), Shl(Dividend(t), 8), Shl(c, 32));
      UpdateIsRemainder(before, c, crc);
      CongruentTrans(p, crc, Xor(Shl(before, 8), Shl(c, 32)), Dividend(s));
    }
    if Congruent(p, r, Dividend(s)) {
      WordBits();
      CongruentSym(p, crc, Dividend(s));
      CongruentTrans(p, r, Dividend(s), crc);
      RemainderUnique(p, 32, r, crc);
    }
  }

  /** A known answer: a block of one byte 255. */
  lemma OfOneByte()
    ensures FinalCrc(BZIP2, [255]) == 0x0000_00ff
  {
    assert [255][..0] == [] && CrcAfter(BZIP2, []) == 0xffff_ffff;
    XorZero(0xffff_ff00);
    XorNone(255, 255);
    assert CrcTable(0) == 0;
  }

  // ---------- what the checksum detects ----------

  lemma SameTail(v: seq<bool>, w: seq<bool>, b: seq<bool>)
    ensures Xor(ValueOf(v + b), ValueOf(w + b)) == Shl(Xor(ValueOf(v), ValueOf(w)), |b|)
  {
    ValueAppend(v, b);
    ValueAppend(w, b);
    ValueBound(b);
    XorSameTail(ValueOf(v + b), ValueOf(w + b), ValueOf(v), ValueOf(w), ValueOf(b), |b|);
  }

  lemma SameHead(a: seq<bool>, x: seq<bool>, y: seq<bool>)
    requires |x| == |y|
    ensures Xor(ValueOf(a + x), ValueOf(a + y)) == Xor(ValueOf(x), ValueOf(y))
  {
    ValueAppend(a, x);
    ValueAppend(a, y);
    ValueBound(x);
    ValueBound(y);
    XorSameHead(ValueOf(a + x), ValueOf(a + y), ValueOf(a), ValueOf(x), ValueOf(y), |x|);
  }

  lemma EqualCrcDivides(s: seq<Byte>, t: seq<Byte>)
    requires |s| == |t| && FinalCrc(BZIP2, s) == FinalCrc(BZIP2, t)
    ensures Divides(Generator(), Shl(Xor(ValueOf(BytesBits(s)), ValueOf(BytesBits(t))), 32))
  {
    var p, crc := Generator(), CrcAfter(BZIP2, s);
    var v, w, e := ValueOf(BytesBits(s)), ValueOf(BytesBits(t)), Shl(0xffff_ffff, 8 * |s|);
    assert crc == CrcAfter(BZIP2, t);
    CrcIsRemainder(s, crc);
    CrcIsRemainder(t, crc);
    CongruentSym(p, crc, Dividend(s));
    CongruentTrans(p, Dividend(s), crc, Dividend(t));
    DividendIs(s);
    DividendIs(t);
    XorCancel(Shl(v, 32), Shl(w, 32), e);
    XorShl(v, w, 32);
  }

  /** Two blocks of the same length whose bits differ, but only within 32 bits in a row, have
      different checksums. */
  lemma BurstDetected(s: seq<Byte>, t: seq<Byte>, a: seq<bool>, x: seq<bool>, y: seq<bool>, b: seq<bool>)
    requires BytesBits(s) == a + x + b && BytesBits(t) == a + y + b
    requires |x| == |y| <= 32 && x != y
    ensures FinalCrc(BZIP2, s) != FinalCrc(BZIP2, t)
  {
    var p, d := Generator(), Xor(ValueOf(x), ValueOf(y));
    BytesBitsLength(s);
    BytesBitsLength(t);
    if FinalCrc(BZIP2, s) == FinalCrc(BZIP2, t) {
      EqualCrcDivides(s, t);
      SameTail(a + x, a + y, b);
      SameHead(a, x, y);
      ShlTwice(d, |b|, 32);
      FactorXLeftOut(p, d, |b| + 32);
      ValueBound(x);
      ValueBound(y);
      Pow2Monotone(|x|, 32);
      RemainderUnique(p, 32, ValueOf(x), ValueOf(y));
      BitsOfValueOf(x);
      BitsOfValueOf(y);
      assert false;
    }
  }

  /** Changing bytes within four bytes in a row changes a block's checksum. */
  lemma ChangeDetected(u: seq<Byte>, v: seq<Byte>, w: seq<Byte>, z: seq<Byte>)
    requires |v| == |w| <= 4 && v != w
    ensures FinalCrc(BZIP2, u + v + z) != FinalCrc(BZIP2, u + w + z)
  {
    BytesBitsConcat(u + v, z);
    BytesBitsConcat(u, v);
    BytesBitsConcat(u + w, z);
    BytesBitsConcat(u, w);
    BytesBitsLength(v);
    BytesBitsLength(w);
    if BytesBits(v) == BytesBits(w) { BytesBitsInjective(v, w); }
    BurstDetected(u + v + z, u + w + z, BytesBits(u), BytesBits(v), BytesBits(w), BytesBits(z));
  }

  /** Changing any one byte of a block changes its checksum. */
  lemma OneByteDetected(s: seq<Byte>, i: nat, c: Byte)
    requires i < |s| && c != s[i]
    ensures FinalCrc(BZIP2, s[i := c]) != FinalCrc(BZIP2, s)
  {
    assert s == s[..i] + [s[i]] + s[i + 1..];
    assert s[i := c] == s[..i] + [c] + s[i + 1..];
    ChangeDetected(s[..i], [s[i]], [c], s[i + 1..]);
  }

  // ---------- finishing and combining ----------

  /** Every bit of the register is turned over. */
  lemma FinalisedIsComplement(crc: Word, k: nat)
    requires k < 32
    ensures Bit(Finalised(crc), k) != Bit(crc, k)
  {
    WordBits();
    ComplementBit(crc, k, 32);
  }

  lemma {:induction false} ComplementBit(v: nat, k: nat, n: nat)
    requires k < n && v < Pow2(n)
    ensures Bit(Pow2(n) - 1 - v, k) != Bit(v, k)
    decreases k
  {
    if k > 0 { ComplementBit(v / 2, k - 1, n - 1); }
  }

  lemma {:induction false} TopBit(v: nat, n: nat)
    requires v < 2 * Pow2(n)
    ensures Bit(v, n) <==> v >= Pow2(n)
  {
    if n > 0 { TopBit(v / 2, n - 1); }
  }

  lemma {:induction false} LowBit(v: nat, k: nat, n: nat)
    requires k < n
    ensures Bit(v % Pow2(n), k) <==> Bit(v, k)
    decreases k
  {
    Halves(v, Pow2(n - 1));
    if k > 0 { LowBit(v / 2, k - 1, n - 1); }
  }

  /** A number of n + 1 bits turned left by one. */
  lemma TurnedBit(v: nat, n: nat, hi: nat, lo: nat, k: nat)
    requires v == hi * Pow2(n) + lo && hi < 2 && lo < Pow2(n) && k <= n
    ensures Bit(2 * lo + hi, k) <==> Bit(v, if k == 0 then n else k - 1)
  {
    if k == 0 {
      TopBit(v, n);
    } else {
      DivUnique(v, Pow2(n), hi, lo);
      LowBit(v, k - 1, n);
      assert (2 * lo + hi) / 2 == lo;
    }
  }

  /** Bit 31 goes to bit 0 and every other bit one up, and then the block's checksum is added. */
  lemma CombineIs(combined: Word, crc: Word, k: nat)
    requires k < 32
    ensures Bit(Combine(combined, crc), k) <==> Bit(combined, if k == 0 then 31 else k - 1) != Bit(crc, k)
  {
    var hi, lo := combined / 0x8000_0000, combined % 0x8000_0000;
    assert Pow2(31) == 0x8000_0000 by { WordBits(); }
    TurnedBit(combined, 31, hi, lo, k);
    assert TurnedLeft(combined) == 2 * lo + hi;
    XorBit(2 * lo + hi, crc, k);
  }

  lemma TurnedLeftInjective(c: Word, d: Word)
    ensures TurnedLeft(c) == TurnedLeft(d) <==> c == d
  {
    var top, tip := c / 0x8000_0000, d / 0x8000_0000;
    assert TurnedLeft(c) == 2 * (c - top * 0x8000_0000) + top;
    assert TurnedLeft(d) == 2 * (d - tip * 0x8000_0000) + tip;
  }

  /** Neither of the two checksums that are combined is lost. */
  lemma CombineInvertible(c: Word, d: Word, crc: Word, other: Word)
    ensures Combine(c, crc) == Combine(c, other) <==> crc == other
    ensures Combine(c, crc) == Combine(d, crc) <==> c == d
  {
    XorInjective(crc, other, TurnedLeft(c));
    XorComm(crc, TurnedLeft(c));
    XorComm(other, TurnedLeft(c));
    XorInjective(TurnedLeft(c), TurnedLeft(d), crc);
    TurnedLeftInjective(c, d);
  }
}
