/** Bit strings, most significant bit first, and reading numbers off them. */
module Bits {
  import opened Basics
  import opened Arithmetic

  /** The n low bits of v. */
  function BitsOf(v: nat, n: nat): (r: seq<bool>)
    ensures |r| == n
  {
    if n == 0 then [] else BitsOf(v / 2, n - 1) + [v % 2 == 1]
  }

  function ValueOf(s: seq<bool>): nat {
    if s == [] then 0 else 2 * ValueOf(s[..|s| - 1]) + (if s[|s| - 1] then 1 else 0)
  }

  /** The outcome of reading a format: a value and what follows it, a violation of the
      format, or the end of the input. */
  datatype Parse<T> = Done(value: T, rest: seq<bool>) | Corrupt | Short {
    predicate IsFailure() { !Done? }

    function PropagateFailure<U>(): Parse<U>
      requires IsFailure()
    {
      if Corrupt? then Corrupt else Short
    }

    function Extract(): (T, seq<bool>)
      requires !IsFailure()
    {
      (value, rest)
    }
  }

  /** n more bits of a number that begins with acc. */
  function ReadBits(n: nat, acc: nat, bits: seq<bool>): (r: Parse<nat>)
    ensures r.Done? ==> |r.rest| == |bits| - n
  {
    if n == 0 then Done(acc, bits)
    else if bits == [] then Short
    else ReadBits(n - 1, 2 * acc + (if bits[0] then 1 else 0), bits[1..])
  }

  /** The next n bits as a number. */
  function GetBits(bits: seq<bool>, n: nat): Parse<nat> { ReadBits(n, 0, bits) }

  lemma {:induction false} ReadBitsIs(p: seq<bool>, s: seq<bool>, rest: seq<bool>)
    ensures ReadBits(|s|, ValueOf(p), s + rest) == Done(ValueOf(p + s), rest)
    decreases |s|
  {
    if s == [] {
      assert s + rest == rest && p + s == p;
    } else {
      assert (s + rest)[1..] == s[1..] + rest;
      assert (p + [s[0]])[..|p|] == p;
      ReadBitsIs(p + [s[0]], s[1..], rest);
      assert p + [s[0]] + s[1..] == p + s;
    }
  }

  lemma {:induction false} ReadTooFew(n: nat, acc: nat, bits: seq<bool>)
    requires |bits| < n
    ensures ReadBits(n, acc, bits) == Short
    decreases n
  {
    if bits != [] { ReadTooFew(n - 1, 2 * acc + (if bits[0] then 1 else 0), bits[1..]); }
  }

  lemma GetBitsIs(bits: seq<bool>, n: nat)
    ensures GetBits(bits, n) == if |bits| < n then Short else Done(ValueOf(bits[..n]), bits[n..])
  {
    if |bits| < n {
      ReadTooFew(n, 0, bits);
    } else {
      ReadBitsIs([], bits[..n], bits[n..]);
      assert bits[..n] + bits[n..] == bits && [] + bits[..n] == bits[..n];
    }
  }

  lemma {:induction false} ValueBound(s: seq<bool>)
    ensures ValueOf(s) < Pow2(|s|)
  {
    if s != [] { ValueBound(s[..|s| - 1]); }
  }

  lemma {:induction false} ValueOfBitsOf(v: nat, n: nat)
    requires v < Pow2(n)
    ensures ValueOf(BitsOf(v, n)) == v
  {
    if n > 0 {
      ValueOfBitsOf(v / 2, n - 1);
      assert BitsOf(v, n)[..n - 1] == BitsOf(v / 2, n - 1);
    }
  }

  lemma {:induction false} BitsOfValueOf(s: seq<bool>)
    ensures BitsOf(ValueOf(s), |s|) == s
  {
    if s != [] {
      BitsOfValueOf(s[..|s| - 1]);
      assert s == s[..|s| - 1] + [s[|s| - 1]];
    }
  }

  /** What was written with n bits is read back with n bits. */
  lemma GetWritten(v: nat, n: nat, rest: seq<bool>)
    requires v < Pow2(n)
    ensures GetBits(BitsOf(v, n) + rest, n) == Done(v, rest)
  {
    ValueOfBitsOf(v, n);
    ReadBitsIs([], BitsOf(v, n), rest);
    assert [] + BitsOf(v, n) == BitsOf(v, n);
  }

  /** Appending bits shifts the value left. */
  lemma {:induction false} ValueAppend(s: seq<bool>, t: seq<bool>)
    ensures ValueOf(s + t) == Shl(ValueOf(s), |t|) + ValueOf(t)
  {
    if t == [] {
      assert s + t == s;
    } else {
      var u := t[..|t| - 1];
      ValueAppend(s, u);
      assert (s + t)[..|s + t| - 1] == s + u;
    }
  }

  lemma {:induction false} ValueConcat(s: seq<bool>, t: seq<bool>)
    ensures ValueOf(s + t) == ValueOf(s) * Pow2(|t|) + ValueOf(t)
  {
    if t == [] {
      assert s + t == s;
    } else {
      var u := t[..|t| - 1];
      ValueConcat(s, u);
      assert (s + t)[..|s + t| - 1] == s + u;
      Doubled(ValueOf(s), Pow2(|u|), ValueOf(u));
    }
  }

  lemma Doubled(x: int, p: int, y: int)
    ensures 2 * (x * p + y) == x * (2 * p) + 2 * y
  {}

  /** v shifted right by k bits. */
  function Shr(v: nat, k: nat): nat { if k == 0 then v else Shr(v / 2, k - 1) }

  lemma {:induction false} ShrTwice(v: nat, j: nat, k: nat)
    ensures Shr(Shr(v, j), k) == Shr(v, j + k)
  {
    if j > 0 { ShrTwice(v / 2, j - 1, k); }
  }

  /** The high n and the low k bits of a number. */
  lemma {:induction false} SplitBits(v: nat, n: nat, k: nat)
    ensures BitsOf(v, n + k) == BitsOf(Shr(v, k), n) + BitsOf(v, k)
  {
    if k > 0 {
      SplitBits(v / 2, n, k - 1);
      assert BitsOf(v, n + k) == BitsOf(v / 2, n + (k - 1)) + [v % 2 == 1];
    }
  }

  lemma {:induction false} LowBits(v: nat, n: nat)
    ensures BitsOf(v % Pow2(n), n) == BitsOf(v, n)
  {
    if n > 0 {
      LowBits(v / 2, n - 1);
      Halves(v, Pow2(n - 1));
    }
  }

  lemma Halves(v: nat, m: nat)
    requires m > 0
    ensures v % (2 * m) / 2 == v / 2 % m && v % (2 * m) % 2 == v % 2
  {
    DivMod(v / 2, m);
    DivUnique(v, 2 * m, v / 2 / m, 2 * (v / 2 % m) + v % 2);
  }

  /** A number of n bytes, most significant first, after acc. */
  function GetBytes(n: nat, acc: nat, bits: seq<bool>): (r: Parse<nat>)
    ensures r.Done? ==> |r.rest| == |bits| - 8 * n
  {
    if n == 0 then Done(acc, bits)
    else
      var (b, rest) :- GetBits(bits, 8);
      GetBytes(n - 1, acc * 256 + b, rest)
  }

  lemma UpTo(x: nat, y: nat, m: nat, p: nat)
    requires x + 1 <= (y + 1) * m
    ensures (x + 1) * p <= (y + 1) * (m * p)
  {
    Monotone(x + 1, (y + 1) * m, p);
    assert (y + 1) * m * p == (y + 1) * (m * p);
  }

  /** n bits after acc make a number below (acc + 1) * 2^n. */
  lemma {:induction false} ReadBitsBelow(n: nat, acc: nat, bits: seq<bool>)
    requires ReadBits(n, acc, bits).Done?
    ensures ReadBits(n, acc, bits).value < (acc + 1) * Pow2(n)
    decreases n
  {
    if n > 0 {
      var next := 2 * acc + (if bits[0] then 1 else 0);
      ReadBitsBelow(n - 1, next, bits[1..]);
      UpTo(next, acc, 2, Pow2(n - 1));
    }
  }

  lemma {:induction false} GetBytesBelow(n: nat, acc: nat, bits: seq<bool>)
    requires GetBytes(n, acc, bits).Done?
    ensures GetBytes(n, acc, bits).value < (acc + 1) * Pow2(8 * n)
    decreases n
  {
    if n > 0 {
      var b := GetBits(bits, 8);
      ReadBitsBelow(8, 0, bits);
      assert Pow2(8) == 256;
      GetBytesBelow(n - 1, acc * 256 + b.value, b.rest);
      UpTo(acc * 256 + b.value, acc, 256, Pow2(8 * (n - 1)));
      Pow2Sum(8, 8 * (n - 1));
    }
  }

  /** The low byte of a number is read back from its last eight bits. */
  lemma ByteIsRead(w: nat, tail: seq<bool>)
    ensures GetBits(BitsOf(w, 8) + tail, 8) == Done(w % 256, tail)
  {
    assert Pow2(8) == 256;
    LowBits(w, 8);
    GetWritten(w % 256, 8, tail);
  }

  lemma ByteThenRest(v: nat, k: nat, rest: seq<bool>)
    requires k >= 8
    ensures BitsOf(v, k) + rest == BitsOf(Shr(v, k - 8), 8) + (BitsOf(v, k - 8) + rest)
    ensures Shr(v, k - 8) == Shr(v, k) * 256 + Shr(v, k - 8) % 256
  {
    SplitBits(v, 8, k - 8);
    ConcatAssoc(BitsOf(Shr(v, k - 8), 8), BitsOf(v, k - 8), rest);
    ShrTwice(v, k - 8, 8);
    ShrByte(Shr(v, k - 8));
  }

  lemma {:induction false} GetWrittenBytes(v: nat, n: nat, k: nat, rest: seq<bool>)
    requires k == 8 * n
    ensures GetBytes(n, Shr(v, k), BitsOf(v, k) + rest) == Done(v, rest)
    decreases n
  {
    if n == 0 {
      assert BitsOf(v, 0) + rest == rest;
    } else {
      var j := k - 8;
      ByteThenRest(v, k, rest);
      ByteIsRead(Shr(v, j), BitsOf(v, j) + rest);
      GetWrittenBytes(v, n - 1, j, rest);
    }
  }

  lemma ShrByte(w: nat)
    ensures Shr(w, 8) == w / 256
  {
    assert Shr(w, 8) == Shr(w / 4, 6);
    assert Shr(w / 4, 6) == Shr(w / 16, 4);
    assert Shr(w / 16, 4) == Shr(w / 64, 2);
    assert Shr(w / 64 / 2, 1) == Shr(w / 256, 0);
  }

  lemma {:induction false} ShrAll(v: nat, k: nat)
    requires v < Pow2(k)
    ensures Shr(v, k) == 0
  {
    if k > 0 { ShrAll(v / 2, k - 1); }
  }

  /** Given bytes, one after the other. */
  function Expect(bytes: seq<Byte>, bits: seq<bool>): (r: Parse<()>)
    ensures r.Done? ==> |r.rest| == |bits| - 8 * |bytes|
    decreases |bytes|, bits
  {
    if bytes == [] then Done((), bits)
    else
      var (b, rest) :- GetBits(bits, 8);
      if b != bytes[0] then Corrupt else Expect(bytes[1..], rest)
  }

  /** The bits of a string of bytes. */
  function BytesBits(s: seq<Byte>): seq<bool> {
    if s == [] then [] else BytesBits(s[..|s| - 1]) + BitsOf(s[|s| - 1], 8)
  }

  lemma {:induction false} BytesBitsConcat(s: seq<Byte>, t: seq<Byte>)
    ensures BytesBits(s + t) == BytesBits(s) + BytesBits(t)
  {
    if t == [] {
      assert s + t == s;
    } else {
      var u := t[..|t| - 1];
      BytesBitsConcat(s, u);
      assert (s + t)[..|s + t| - 1] == s + u;
    }
  }

  /** Different bytes have different bits. */
  lemma {:induction false} BytesBitsInjective(s: seq<Byte>, t: seq<Byte>)
    requires BytesBits(s) == BytesBits(t)
    ensures s == t
    decreases |s|
  {
    BytesBitsLength(s);
    BytesBitsLength(t);
    if s != [] {
      var n := |s| - 1;
      var a, b := BytesBits(s[..n]), BytesBits(t[..n]);
      BytesBitsLength(s[..n]);
      BytesBitsLength(t[..n]);
      assert BytesBits(s)[..8 * n] == a && BytesBits(t)[..8 * n] == b;
      assert BytesBits(s)[8 * n..] == BitsOf(s[n], 8) && BytesBits(t)[8 * n..] == BitsOf(t[n], 8);
      BytesBitsInjective(s[..n], t[..n]);
      assert Pow2(8) == 256;
      ValueOfBitsOf(s[n], 8);
      ValueOfBitsOf(t[n], 8);
      assert s == s[..n] + [s[n]] && t == t[..n] + [t[n]];
    }
  }

  lemma ByteBits(c: Byte)
    ensures BytesBits([c]) == BitsOf(c, 8)
  {
    assert [c][..0] == [];
  }

  /** The bits of a string of bytes, and more bits after them. */
  function Marked(magic: seq<Byte>, more: seq<bool>): seq<bool> {
    if magic == [] then more else BitsOf(magic[0], 8) + Marked(magic[1..], more)
  }

  lemma {:induction false} MarkedIs(magic: seq<Byte>, more: seq<bool>)
    ensures Marked(magic, more) == BytesBits(magic) + more
    decreases |magic|
  {
    if magic == [] {
      assert [] + more == more;
    } else {
      MarkedIs(magic[1..], more);
      assert magic == [magic[0]] + magic[1..];
      BytesBitsConcat([magic[0]], magic[1..]);
      ByteBits(magic[0]);
      ConcatAssoc(BitsOf(magic[0], 8), BytesBits(magic[1..]), more);
    }
  }

  lemma MarkedLength(magic: seq<Byte>, more: seq<bool>)
    ensures |Marked(magic, more)| == 8 * |magic| + |more|
  {
    MarkedIs(magic, more);
    BytesBitsLength(magic);
  }

  lemma MarkedThen(magic: seq<Byte>, more: seq<bool>, rest: seq<bool>)
    ensures Marked(magic, more) + rest == Marked(magic, more + rest)
  {
    MarkedIs(magic, more);
    MarkedIs(magic, more + rest);
    ConcatAssoc(BytesBits(magic), more, rest);
  }

  lemma {:induction false} ExpectWritten(bytes: seq<Byte>, rest: seq<bool>)
    ensures Expect(bytes, Marked(bytes, rest)) == Done((), rest)
    decreases |bytes|
  {
    if bytes != [] {
      ByteIsRead(bytes[0], Marked(bytes[1..], rest));
      ExpectWritten(bytes[1..], rest);
    }
  }

  /** Bits filled up with zeros to whole bytes. */
  function Padded(bits: seq<bool>): seq<bool>
    decreases (8 - |bits| % 8) % 8
  {
    if |bits| % 8 == 0 then bits else Padded(bits + [false])
  }

  lemma {:induction false} PaddedIs(bits: seq<bool>, k: nat)
    requires k < 8 && (|bits| + k) % 8 == 0
    ensures Padded(bits) == bits + BitsOf(0, k)
    decreases k
  {
    if k > 0 {
      PaddedIs(bits + [false], k - 1);
      ZeroBits(k);
      assert bits + ([false] + BitsOf(0, k - 1)) == bits + [false] + BitsOf(0, k - 1);
    } else {
      assert bits + BitsOf(0, 0) == bits;
    }
  }

  lemma {:induction false} ZeroBits(k: nat)
    requires k > 0
    ensures BitsOf(0, k) == [false] + BitsOf(0, k - 1)
  {
    if k > 1 { ZeroBits(k - 1); }
  }

  lemma {:induction false} BytesBitsLength(s: seq<Byte>)
    ensures |BytesBits(s)| == 8 * |s|
  {
    if s != [] { BytesBitsLength(s[..|s| - 1]); }
  }
}
