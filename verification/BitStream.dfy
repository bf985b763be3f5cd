/** The bit buffers at both ends of the codec: bits are gathered in a 32-bit word,
    most significant first, and moved as whole bytes. */
module BitStream {
  import opened Basics
  import opened Arithmetic
  import opened Bits

  const UINT32: nat := 0x1_0000_0000

  lemma WordSize()
    ensures Pow2(32) == UINT32 && Pow2(24) == 0x100_0000 && Pow2(8) == 256
  {
    assert Pow2(8) == 256;
    Pow2Sum(8, 8);
    Pow2Sum(16, 8);
    Pow2Sum(24, 8);
  }

  /** word holds the bits p at its top and zeros below. */
  ghost predicate LeftJustified(p: seq<bool>, word: nat) {
    |p| <= 32 && word == Shl(ValueOf(p), 32 - |p|) && word < UINT32
  }

  lemma {:induction false} ShlIsTimes(x: nat, k: nat)
    ensures Shl(x, k) == x * Pow2(k)
  {
    if k > 0 { ShlIsTimes(x, k - 1); }
  }

  /** A byte leaves the top of a left-justified word. */
  lemma DropTopByte(p: seq<bool>, word: nat)
    requires 8 <= |p| && LeftJustified(p, word)
    ensures word / 0x100_0000 == ValueOf(p[..8]) < 256
    ensures LeftJustified(p[8..], word * 256 % UINT32)
  {
    var a, c := p[..8], p[8..];
    var k := 32 - |p|;
    ShlIsTimes(ValueOf(p), k);
    ShlIsTimes(ValueOf(c), k + 8);
    assert p == a + c;
    ValueConcat(a, c);
    ValueBound(a);
    ValueBound(c);
    Pow2Sum(|c|, k);
    Pow2Sum(k, 8);
    WordSize();
    DropTop(ValueOf(a), ValueOf(c), Pow2(|c|), Pow2(k), word);
  }

  lemma DropTop(x: nat, y: nat, m: nat, w: nat, word: nat)
    requires y < m && w > 0 && word == (x * m + y) * w && m * w == 0x100_0000 && word < UINT32
    ensures word / 0x100_0000 == x
    ensures word * 256 % UINT32 == y * (w * 256)
  {
    Scale(x, y, m, w);
    BelowProduct(y, m, w);
    DivUnique(word, m * w, x, y * w);
    Assoc(y, w, 256);
    DivUnique(word * 256, UINT32, x, y * w * 256);
  }

  /** New bits are or-ed into the free part of the word, below the old ones. */
  lemma AppendBits(p: seq<bool>, word: nat, v: nat, n: nat)
    requires |p| + n <= 32 && LeftJustified(p, word) && v < Pow2(n)
    ensures LeftJustified(p + BitsOf(v, n), word + v * Pow2(32 - |p| - n))
  {
    var a := BitsOf(v, n);
    var q := p + a;
    var k := 32 - |p| - n;
    AppendedValue(p, a, v, n);
    AppendShifted(ValueOf(p), v, n, k, ValueOf(q), |q|);
  }

  lemma AppendedValue(p: seq<bool>, a: seq<bool>, v: nat, n: nat)
    requires v < Pow2(n) && a == BitsOf(v, n)
    ensures ValueOf(p + a) == Shl(ValueOf(p), n) + v && ValueOf(p + a) < Pow2(|p| + n)
  {
    ValueAppend(p, a);
    ValueOfBitsOf(v, n);
    ValueBound(p + a);
  }

  lemma AppendShifted(x: nat, v: nat, n: nat, k: nat, y: nat, l: nat)
    requires y == Shl(x, n) + v && y < Pow2(l) && l + k == 32
    ensures Shl(x, n + k) + v * Pow2(k) == Shl(y, k) < UINT32
  {
    ShlSum(Shl(x, n), v, k);
    ShlTwice(x, n, k);
    ShlIsTimes(v, k);
    ShlOrder(y, Pow2(l), k);
    ShlPow2(l, k);
    WordSize();
  }

  /** The new bits stay below the old ones, so or-ing them in is adding them. */
  lemma OrIsAdd(v: nat, live: nat, n: nat)
    requires live + n <= 32 && v < Pow2(n)
    ensures v * Pow2(32 - live - n) < Pow2(32 - live)
  {
    Pow2Sum(n, 32 - live - n);
    BelowProduct(v, Pow2(n), Pow2(32 - live - n));
  }

  lemma WholeBytes(bytes: seq<Byte>, all: seq<bool>, k: nat)
    requires k < 8 && BytesBits(bytes) + [] == all + BitsOf(0, k)
    ensures BytesBits(bytes) == Padded(all)
  {
    BytesBitsLength(bytes);
    assert BytesBits(bytes) + [] == BytesBits(bytes);
    PaddedIs(all, k);
  }

  /** EState's bit buffer: bsBuff, bsLive and the compressed bytes zbits that have not yet
      been drained. */
  class BitWriter {
    var zbits: seq<Byte>
    var bsBuff: nat
    var bsLive: int
    ghost var pending: seq<bool>
    ghost var drained: seq<Byte>

    ghost predicate Valid()
      reads this
    {
      bsLive == |pending| && LeftJustified(pending, bsBuff)
    }

    /** All bits written so far. */
    ghost function Written(): seq<bool>
      reads this
    {
      BytesBits(drained + zbits) + pending
    }

    constructor ()
      ensures Valid() && Written() == [] && zbits == [] && drained == [] && bsLive == 0
    {
      ShlZero(32);
      drained := [];
      zbits := [];
      bsBuff := 0;
      bsLive := 0;
      pending := [];
    }

    /** bsNEEDW: moves out whole bytes. */
    method NeedW()
      requires Valid()
      modifies this`zbits, this`bsBuff, this`bsLive, this`pending
      ensures Valid() && bsLive < 8 && Written() == old(Written())
    {
      while bsLive >= 8
        invariant Valid() && Written() == old(Written())
      {
        PadTopByte();
      }
    }

    /** bsW: appends the n low bits of v. */
    method W(n: nat, v: nat)
      requires Valid() && n <= 24 && v < Pow2(n)
      modifies this`zbits, this`bsBuff, this`bsLive, this`pending
      ensures Valid() && Written() == old(Written()) + BitsOf(v, n)
    {
      NeedW();
      AppendBits(pending, bsBuff, v, n);
      OrIsAdd(v, bsLive, n);
      bsBuff := bsBuff + v * Pow2(32 - bsLive - n);
      bsLive := bsLive + n;
      pending := pending + BitsOf(v, n);
    }

    /** bsFinishWrite: pads the last byte with zeros; bsLive may drop below zero. */
    method FinishWrite()
      requires Valid()
      modifies this`zbits, this`bsBuff, this`bsLive, this`pending
      ensures BytesBits(drained + zbits) == Padded(old(Written()))
    {
      ghost var k: nat := 0;
      ghost var all := Written();
      assert all + BitsOf(0, 0) == all;
      while bsLive > 0
        invariant bsLive >= 0 ==> Valid()
        invariant bsLive <= 0 ==> pending == []
        invariant k < 8 && (bsLive > 0 ==> k == 0)
        invariant Written() == all + BitsOf(0, k)
        decreases bsLive
      {
        if bsLive < 8 {
          k := 8 - bsLive;
          AppendBits(pending, bsBuff, 0, k);
          pending := pending + BitsOf(0, k);
          assert Written() == all + BitsOf(0, k);
        }
        PadTopByte();
      }
      WholeBytes(drained + zbits, all, k);
    }

    /** The bytes of one block have been handed out; numZ starts again from zero. */
    method Restart()
      requires Valid()
      modifies this`zbits, this`drained
      ensures Valid() && Written() == old(Written()) && zbits == [] && drained == old(drained) + old(zbits)
    {
      drained := drained + zbits;
      zbits := [];
      assert drained + [] == drained;
    }

    method PadTopByte()
      requires 1 <= bsLive && (bsLive >= 8 ==> |pending| == bsLive) && (bsLive < 8 ==> |pending| == 8)
      requires LeftJustified(pending, bsBuff)
      modifies this`zbits, this`bsBuff, this`bsLive, this`pending
      ensures bsLive == old(bsLive) - 8 && Written() == old(Written())
      ensures bsLive >= 0 ==> Valid()
      ensures bsLive <= 0 ==> pending == []
    {
      DropTopByte(pending, bsBuff);
      var top, rest := bsBuff / 0x100_0000, bsBuff * 256 % UINT32;
      ByteMoves(drained + zbits, pending, top);
      ConcatAssoc(drained, zbits, [top]);
      zbits := zbits + [top];
      bsBuff := rest;
      bsLive := bsLive - 8;
      pending := pending[8..];
    }
  }

  /** The top byte of the pending bits joins the bytes. */
  lemma ByteMoves(s: seq<Byte>, p: seq<bool>, top: Byte)
    requires |p| >= 8 && top == ValueOf(p[..8])
    ensures BytesBits(s + [top]) + p[8..] == BytesBits(s) + p
  {
    var a, z := p[..8], p[8..];
    BitsOfValueOf(a);
    ByteBits(top);
    BytesBitsConcat(s, [top]);
    ConcatAssoc(BytesBits(s), a, z);
    assert p == a + z;
  }

  // ---------- reading ----------

  lemma NextByteBits(s: seq<Byte>, p: seq<bool>, future: seq<bool>)
    requires s != []
    ensures p + BitsOf(s[0], 8) + BytesBits(s[1..]) + future == p + BytesBits(s) + future
  {
    var c := s[0];
    assert s == [c] + s[1..];
    BytesBitsConcat([c], s[1..]);
    ByteBits(c);
    ConcatAssoc(p, BitsOf(c, 8), BytesBits(s[1..]));
  }

  /** One more byte enters the word from below. */
  lemma TakeByte(p: seq<bool>, word: nat, c: Byte)
    requires |p| <= 24 && word < UINT32 && word % Pow2(|p|) == ValueOf(p)
    ensures (word * 256 + c) % UINT32 % Pow2(|p| + 8) == ValueOf(p + BitsOf(c, 8))
  {
    var x, m, e := ValueOf(p), Pow2(|p|), Pow2(24 - |p|);
    ByteAppended(p, c);
    ValueBound(p);
    ByteRoom(|p|);
    ShiftIn(word, m, e, x, c);
  }

  lemma ByteAppended(p: seq<bool>, c: Byte)
    ensures ValueOf(p + BitsOf(c, 8)) == ValueOf(p) * 256 + c
  {
    WordSize();
    ValueConcat(p, BitsOf(c, 8));
    ValueOfBitsOf(c, 8);
  }

  lemma ByteRoom(k: nat)
    requires k <= 24
    ensures Pow2(k + 8) == Pow2(k) * 256 && (Pow2(k) * 256) * Pow2(24 - k) == UINT32
  {
    WordSize();
    Pow2Sum(k, 8);
    Pow2Sum(k + 8, 24 - k);
  }

  lemma ShiftIn(word: nat, m: nat, e: nat, x: nat, c: Byte)
    requires m > 0 && e > 0 && word % m == x && x < m && (m * 256) * e == UINT32
    ensures (word * 256 + c) % UINT32 % (m * 256) == x * 256 + c
  {
    DivMod(word, m);
    Distribute(m * (word / m), x, 256);
    Assoc(256, m, word / m);
    ModOfMod(word * 256 + c, m * 256, e, word / m, x * 256 + c);
  }

  /** The n bits below the top of the live part of the word. */
  lemma TakeBits(p: seq<bool>, word: nat, n: nat)
    requires n <= |p| <= 32 && word % Pow2(|p|) == ValueOf(p)
    ensures word / Pow2(|p| - n) % Pow2(n) == ValueOf(p[..n])
    ensures word % Pow2(|p| - n) == ValueOf(p[n..])
  {
    var a, c := p[..n], p[n..];
    assert p == a + c;
    ValueConcat(a, c);
    ValueBound(c);
    ValueBound(a);
    Pow2Sum(n, |p| - n);
    TakeTop(word, Pow2(n), Pow2(|p| - n), ValueOf(a), ValueOf(c));
  }

  lemma TakeTop(word: nat, m: nat, w: nat, x: nat, y: nat)
    requires m > 0 && w > 0 && m * w > 0 && word % (m * w) == x * w + y && x < m && y < w
    ensures word / w % m == x && word % w == y
  {
    var q := word / (m * w);
    DivMod(word, m * w);
    Assoc(w, m, q);
    Distribute(m * q, x, w);
    DivUnique(word, w, m * q + x, y);
    DivUnique(m * q + x, m, q, x);
  }

  /** DState's bit buffer over the input that the caller has offered. What the caller will offer
      later is ghost: the bits to come are those of the buffer, of the input and of the future. */
  class BitReader {
    var input: seq<Byte>
    var bsBuff: nat
    var bsLive: nat
    ghost var pending: seq<bool>
    ghost var future: seq<bool>

    ghost predicate Valid()
      reads this
    {
      forall i: nat {:trigger Look(i)} :: Look(i) ==> Buffered()
    }

    /** The live part of the buffer holds the bits pending. */
    ghost predicate Buffered()
      reads this
    {
      bsLive == |pending| <= 32 && bsBuff < UINT32 && bsBuff % Pow2(bsLive) == ValueOf(pending)
    }

    /** The bits still to be read. */
    ghost function Bits(): seq<bool>
      reads this
    {
      pending + BytesBits(input) + future
    }

    /** Those of them that have not entered the buffer. */
    ghost function Unread(): seq<bool>
      reads this
    {
      BytesBits(input) + future
    }

    constructor (ghost future: seq<bool>)
      ensures Valid() && input == [] && Bits() == future && this.future == future && bsLive == 0
    {
      input := [];
      bsBuff := 0;
      bsLive := 0;
      pending := [];
      this.future := future;
      new;
      assert [] + [] + future == future;
    }

    /** The caller offers input, which with what it offers later is all that is still to come. */
    method Offer(input: seq<Byte>, ghost later: seq<bool>)
      requires Valid() && BytesBits(input) + later == Unread()
      modifies this`input, this`future
      ensures Valid() && Bits() == old(Bits()) && this.input == input && future == later
    {
      ConcatAssoc(pending, BytesBits(this.input), future);
      ConcatAssoc(pending, BytesBits(input), later);
      this.input := input;
      future := later;
    }

    method Refill()
      requires Buffered() && bsLive < 24 && input != []
      modifies this`input, this`bsBuff, this`bsLive, this`pending
      ensures Buffered() && Bits() == old(Bits()) && input == old(input)[1..] && bsLive == old(bsLive) + 8
    {
      var c := input[0];
      NextByteBits(input, pending, future);
      TakeByte(pending, bsBuff, c);
      bsBuff := (bsBuff * 256 + c) % UINT32;
      bsLive := bsLive + 8;
      input := input[1..];
      pending := pending + BitsOf(c, 8);
    }

    /** The top n bits of the live part of the buffer. */
    method Take(n: nat) returns (v: nat)
      requires Buffered() && n <= bsLive
      modifies this`bsLive, this`pending
      ensures Buffered() && GetBits(old(Bits()), n) == Done(v, Bits())
    {
      ghost var p, more := pending, BytesBits(input) + future;
      FirstOf(p, BytesBits(input), future, n);
      GetBitsIs(p + more, n);
      TakeBits(p, bsBuff, n);
      v := bsBuff / Pow2(bsLive - n) % Pow2(n);
      bsLive := bsLive - n;
      pending := p[n..];
      FirstOf(pending, BytesBits(input), future, 0);
    }

    lemma FirstOf(p: seq<bool>, a: seq<bool>, z: seq<bool>, n: nat)
      requires n <= |p|
      ensures p + a + z == p + (a + z) && (p + (a + z))[..n] == p[..n] && (p + (a + z))[n..] == p[n..] + (a + z)
    {}

    /** GET_BITS: the next n bits as a number, unless the input at hand ends first; then it has
        all been taken into the buffer. */
    method Get(n: nat) returns (ok: bool, v: nat)
      requires Valid() && n <= 24
      modifies this`input, this`bsBuff, this`bsLive, this`pending
      ensures Valid() && |input| <= old(|input|)
      ensures ok ==> GetBits(old(Bits()), n) == Done(v, Bits())
      ensures !ok ==> Bits() == old(Bits()) && input == [] && (future == [] ==> GetBits(Bits(), n).Short?)
    {
      ghost var bits := Bits();
      assert Look(0);
      while bsLive < n
        invariant Buffered() && Bits() == bits && |input| <= old(|input|)
        decreases |input|
      {
        if input == [] {
          GetBitsIs(bits, n);
          return false, 0;
        }
        Refill();
      }
      v := Take(n);
      ok := true;
    }
  }
}
