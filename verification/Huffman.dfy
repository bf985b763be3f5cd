/** Canonical Huffman codes as huffman.c assigns them and as the decoder walks them. */
module Huffman {
  import opened Basics
  import opened Bits
  import opened ByteCounts
  import opened BurrowsWheeler

  const BZ_MAX_ALPHA_SIZE: nat := 258
  const BZ_MAX_CODE_LEN: nat := 23
  const LONGEST: nat := 20

  /** The first code of length n; codes of one length are consecutive. */
  function First(lens: seq<Byte>, n: nat): nat
    requires n <= 256
  {
    if n == 0 then 0 else 2 * (First(lens, n - 1) + |Places(lens, n - 1)|)
  }

  /** Symbol i's place among the symbols with codes as long as its own. */
  function Rank(lens: seq<Byte>, i: nat): nat
    requires i < |lens|
  {
    |Places(lens[..i], lens[i])|
  }

  function Code(lens: seq<Byte>, i: nat): nat
    requires i < |lens|
  {
    First(lens, lens[i]) + Rank(lens, i)
  }

  function CodeBits(lens: seq<Byte>, i: nat): seq<bool>
    requires i < |lens|
  {
    BitsOf(Code(lens, i), lens[i])
  }

  /** The part of the Kraft sum, in units of 2^-top, due to codes of at most n bits. */
  function KraftUpTo(lens: seq<Byte>, n: nat, top: nat): nat
    requires n <= top
  {
    if lens == [] then 0
    else KraftUpTo(lens[..|lens| - 1], n, top) + (if lens[|lens| - 1] <= n then Pow2(top - lens[|lens| - 1]) else 0)
  }

  /** The codes of n bits are numbers of n bits. */
  ghost predicate CodesFit(lens: seq<Byte>, n: nat)
    requires n <= 256
  {
    First(lens, n) + CountOf(lens, n) <= Pow2(n)
  }

  function CountOf(lens: seq<Byte>, n: nat): nat { if n < 256 then |Places(lens, n)| else 0 }

  /** Lengths that a decoder accepts and that leave room for a prefix code. */
  ghost predicate GoodLengths(lens: seq<Byte>) {
    && 2 <= |lens| <= BZ_MAX_ALPHA_SIZE
    && (forall i :: 0 <= i < |lens| ==> 1 <= lens[i] <= LONGEST)
    && (forall n :: 0 <= n <= LONGEST ==> CodesFit(lens, n))
  }

  // ---------- codes fit their lengths ----------

  lemma {:induction false} RankIs(lens: seq<Byte>, i: nat)
    requires i < |lens|
    ensures Rank(lens, i) < |Places(lens, lens[i])| && Places(lens, lens[i])[Rank(lens, i)] == i
    decreases |lens|
  {
    var t := lens[..|lens| - 1];
    if i < |t| {
      RankIs(t, i);
      assert t[..i] == lens[..i];
    } else {
      assert lens[..i] == t;
    }
  }

  lemma {:induction false} KraftGrows(lens: seq<Byte>, n: nat, top: nat)
    requires 0 < n <= top <= 255
    ensures KraftUpTo(lens, n, top) == KraftUpTo(lens, n - 1, top) + Shl(|Places(lens, n)|, top - n)
  {
    if lens != [] {
      var t := lens[..|lens| - 1];
      KraftGrows(t, n, top);
      ShlSum(|Places(t, n)|, 1, top - n);
      ShlOne(top - n);
    } else {
      ShlZero(top - n);
    }
  }

  lemma {:induction false} KraftOfFirst(lens: seq<Byte>, n: nat, top: nat)
    requires n <= top <= 255
    ensures KraftUpTo(lens, n, top) == Shl(First(lens, n) + |Places(lens, n)|, top - n)
  {
    if n == 0 {
      KraftAtZero(lens, top);
    } else {
      KraftGrows(lens, n, top);
      KraftOfFirst(lens, n - 1, top);
      var x := First(lens, n - 1) + |Places(lens, n - 1)|;
      ShlTwice(x, 1, top - n);
      assert Shl(x, 1) == 2 * x by { assert Shl(x, 0) == x; }
      ShlSum(2 * x, |Places(lens, n)|, top - n);
    }
  }

  lemma {:induction false} KraftAtZero(lens: seq<Byte>, top: nat)
    ensures KraftUpTo(lens, 0, top) == Shl(|Places(lens, 0)|, top)
  {
    if lens != [] {
      var t := lens[..|lens| - 1];
      KraftAtZero(t, top);
      ShlSum(|Places(t, 0)|, 1, top);
      ShlOne(top);
    } else {
      ShlZero(top);
    }
  }

  lemma {:induction false} KraftBounds(lens: seq<Byte>, n: nat, top: nat)
    requires n <= top
    ensures KraftUpTo(lens, n, top) <= KraftUpTo(lens, top, top)
  {
    if lens != [] { KraftBounds(lens[..|lens| - 1], n, top); }
  }

  /** Under the Kraft inequality the codes of each length fit in that many bits. */
  lemma KraftSuffices(lens: seq<Byte>, n: nat, top: nat)
    requires n <= top <= 255 && KraftUpTo(lens, top, top) <= Pow2(top)
    ensures CodesFit(lens, n)
  {
    KraftOfFirst(lens, n, top);
    KraftBounds(lens, n, top);
    ShlPow2(n, top - n);
    ShlOrder(First(lens, n) + |Places(lens, n)|, Pow2(n), top - n);
  }

  lemma CodeFits(lens: seq<Byte>, i: nat)
    requires GoodLengths(lens) && i < |lens|
    ensures Code(lens, i) < First(lens, lens[i]) + |Places(lens, lens[i])| <= Pow2(lens[i])
  {
    assert CodesFit(lens, lens[i]);
    RankIs(lens, i);
  }

  /** Longer codes start beyond all shorter ones. */
  lemma {:induction false} FirstGrows(lens: seq<Byte>, m: nat, n: nat)
    requires m < n <= 256
    ensures First(lens, n) >= Shl(First(lens, m) + |Places(lens, m)|, n - m)
  {
    var x := First(lens, m) + |Places(lens, m)|;
    if m + 1 == n {
      assert Shl(x, 0) == x;
    } else {
      FirstGrows(lens, m, n - 1);
    }
  }

  // ---------- the decoder's walk ----------

  /** What BZ2_hbCreateDecodeTables leaves for one coding table. */
  datatype Tables = Tables(minLen: nat, limit: seq<int>, base: seq<int>, perm: seq<nat>)

  ghost predicate WellFormed(t: Tables) {
    && 1 <= t.minLen <= LONGEST
    && |t.limit| >= BZ_MAX_CODE_LEN && |t.base| >= BZ_MAX_CODE_LEN && |t.perm| == BZ_MAX_ALPHA_SIZE
  }

  /** GET_MTF_VAL once zn bits with value zvec have been read. */
  function Walk(t: Tables, zn: nat, zvec: nat, bits: seq<bool>): (r: Parse<nat>)
    requires WellFormed(t)
    ensures r.Done? ==> |r.rest| <= |bits|
    decreases |bits|
  {
    if zn > LONGEST then Corrupt
    else if zvec <= t.limit[zn] then
      var at := zvec - t.base[zn];
      if at < 0 || at >= BZ_MAX_ALPHA_SIZE then Corrupt else Done(t.perm[at], bits)
    else if bits == [] then
      // the next bit is asked for even when the code is already too long
      Short
    else Walk(t, zn + 1, 2 * zvec + (if bits[0] then 1 else 0), bits[1..])
  }

  /** One Huffman-coded symbol. */
  function DecodeSymbol(t: Tables, bits: seq<bool>): (r: Parse<nat>)
    requires WellFormed(t)
    ensures r.Done? ==> |r.rest| < |bits|
  {
    match GetBits(bits, t.minLen)
    case Done(zvec, rest) => Walk(t, t.minLen, zvec, rest)
    case Corrupt => Corrupt
    case Short => Short
  }

  ghost predicate IsLength(lens: seq<Byte>, n: nat) { exists i :: 0 <= i < |lens| && lens[i] == n }

  /** t is what BZ2_hbCreateDecodeTables builds from lens. */
  ghost predicate TablesFor(t: Tables, lens: seq<Byte>) {
    && WellFormed(t) && 0 < |lens| <= BZ_MAX_ALPHA_SIZE
    && (forall i :: 0 <= i < |lens| ==> t.minLen <= lens[i] <= LONGEST)
    && IsLength(lens, t.minLen)
    && (forall n :: t.minLen <= n <= LONGEST ==> LimitAndBase(t, lens, n))
    && (forall k :: 0 <= k < |lens| ==> t.perm[k] == Threads(lens)[k])
  }

  ghost predicate LimitAndBase(t: Tables, lens: seq<Byte>, n: nat)
    requires WellFormed(t) && n <= LONGEST
  {
    if Below(lens, n) < |lens| then
      // some code has at least n bits
      t.limit[n] == First(lens, n) + |Places(lens, n)| - 1 && t.base[n] == First(lens, n) - Below(lens, n)
    else
      t.limit[n] == 0 && t.base[n] == |lens|
  }

  /** Every symbol that t decodes, from any point within a code, is below n. */
  ghost predicate InAlphabet(t: Tables, n: nat)
    requires WellFormed(t)
  {
    forall zn: nat, zvec: nat, bits :: WalksBelow(t, n, zn, zvec, bits)
  }

  ghost predicate WalksBelow(t: Tables, n: nat, zn: nat, zvec: nat, bits: seq<bool>)
    requires WellFormed(t)
  {
    zn >= t.minLen && Walk(t, zn, zvec, bits).Done? ==> Walk(t, zn, zvec, bits).value < n
  }

  lemma {:induction false} WalkBelow(t: Tables, lens: seq<Byte>, zn: nat, zvec: nat, bits: seq<bool>)
    requires TablesFor(t, lens) && zn >= t.minLen
    ensures Walk(t, zn, zvec, bits).Done? ==> Walk(t, zn, zvec, bits).value < |lens|
    decreases |bits|
  {
    if zn <= LONGEST {
      assert LimitAndBase(t, lens, zn);
      if zvec <= t.limit[zn] {
        BelowAll(lens, 256);
        BelowMonotone(lens, zn + 1, 256);
      } else if bits != [] {
        WalkBelow(t, lens, zn + 1, 2 * zvec + (if bits[0] then 1 else 0), bits[1..]);
      }
    }
  }

  /** A decoder's tables yield no symbol outside their alphabet, whatever the bits. */
  lemma TablesInAlphabet(t: Tables, lens: seq<Byte>)
    requires TablesFor(t, lens)
    ensures InAlphabet(t, |lens|)
  {
    forall zn: nat, zvec: nat, bits ensures WalksBelow(t, |lens|, zn, zvec, bits) {
      if zn >= t.minLen { WalkBelow(t, lens, zn, zvec, bits); }
    }
  }

  /** The lengths leave the walk no choice: any tables for them decode the same from any bits. */
  lemma {:induction false} WalkSame(t: Tables, u: Tables, lens: seq<Byte>, zn: nat, zvec: nat, bits: seq<bool>)
    requires TablesFor(t, lens) && TablesFor(u, lens) && zn >= t.minLen
    ensures t.minLen == u.minLen && Walk(t, zn, zvec, bits) == Walk(u, zn, zvec, bits)
    decreases |bits|
  {
    SameShortest(t, u, lens);
    if zn <= LONGEST {
      assert LimitAndBase(t, lens, zn) && LimitAndBase(u, lens, zn);
      if zvec <= t.limit[zn] {
        BelowAll(lens, 256);
        BelowMonotone(lens, zn + 1, 256);
      } else if bits != [] {
        WalkSame(t, u, lens, zn + 1, 2 * zvec + (if bits[0] then 1 else 0), bits[1..]);
      }
    }
  }

  lemma SameShortest(t: Tables, u: Tables, lens: seq<Byte>)
    requires TablesFor(t, lens) && TablesFor(u, lens)
    ensures t.minLen == u.minLen
  {
    var i :| 0 <= i < |lens| && lens[i] == t.minLen;
    var j :| 0 <= j < |lens| && lens[j] == u.minLen;
  }

  lemma DecodeSame(t: Tables, u: Tables, lens: seq<Byte>, bits: seq<bool>)
    requires TablesFor(t, lens) && TablesFor(u, lens)
    ensures DecodeSymbol(t, bits) == DecodeSymbol(u, bits)
  {
    SameShortest(t, u, lens);
    var p := GetBits(bits, t.minLen);
    if p.Done? { WalkSame(t, u, lens, t.minLen, p.value, p.rest); }
  }

  // ---------- decoding a code ----------

  lemma BelowOfPlaces(lens: seq<Byte>, i: nat, n: Byte)
    requires i < |lens| && n == lens[i]
    ensures Below(lens, n) + Rank(lens, i) < |lens|
    ensures Threads(lens)[Below(lens, n) + Rank(lens, i)] == i
  {
    RankIs(lens, i);
    BelowAll(lens, 256);
    ThreadAt(lens, n, Rank(lens, i), 256);
  }

  lemma ShorterExist(lens: seq<Byte>, i: nat, m: nat)
    requires i < |lens| && m <= lens[i]
    ensures Below(lens, m) < |lens|
  {
    BelowMonotone(lens, m, lens[i]);
    BelowOfPlaces(lens, i, lens[i]);
  }

  lemma ValueNext(s: seq<bool>, m: nat)
    requires m < |s|
    ensures ValueOf(s[..m + 1]) == 2 * ValueOf(s[..m]) + (if s[m] then 1 else 0)
  {
    assert s[..m + 1][..m] == s[..m];
  }

  /** A prefix of a longer code exceeds all codes of the prefix's length. */
  lemma PrefixIsBeyond(lens: seq<Byte>, i: nat, m: nat)
    requires GoodLengths(lens) && i < |lens| && m < lens[i]
    ensures ValueOf(CodeBits(lens, i)[..m]) >= First(lens, m) + |Places(lens, m)|
  {
    CodeValue(lens, i);
    StringIsBeyond(lens, CodeBits(lens, i), m, First(lens, m) + |Places(lens, m)|, lens[i], Code(lens, i));
  }

  lemma CodeValue(lens: seq<Byte>, i: nat)
    requires GoodLengths(lens) && i < |lens|
    ensures ValueOf(CodeBits(lens, i)) == Code(lens, i) && |CodeBits(lens, i)| == lens[i]
  {
    CodeFits(lens, i);
    ValueOfBitsOf(Code(lens, i), lens[i]);
  }

  lemma StringIsBeyond(lens: seq<Byte>, s: seq<bool>, m: nat, x: nat, n: nat, v: nat)
    requires m < n == |s| <= 255 && x == First(lens, m) + |Places(lens, m)|
    requires v == ValueOf(s) && v >= First(lens, n)
    ensures ValueOf(s[..m]) >= x
  {
    FirstGrows(lens, m, n);
    PrefixAtLeast(s, m, x, v, n - m);
  }

  lemma PrefixAtLeast(s: seq<bool>, m: nat, x: nat, v: nat, k: nat)
    requires m + k == |s| && v == ValueOf(s) && v >= Shl(x, k)
    ensures ValueOf(s[..m]) >= x
  {
    var a, z := s[..m], s[m..];
    assert s == a + z;
    ValueAppend(a, z);
    ValueBound(z);
    ShlOrder(ValueOf(a), x, k);
  }

  /** With the whole of its code read the walk is at symbol i. */
  lemma WalkEnds(t: Tables, lens: seq<Byte>, i: nat, rest: seq<bool>)
    requires TablesFor(t, lens) && GoodLengths(lens) && i < |lens|
    ensures Walk(t, lens[i], Code(lens, i), rest) == Done(i, rest)
  {
    var m := lens[i];
    ShorterExist(lens, i, m);
    assert LimitAndBase(t, lens, m);
    CodeFits(lens, i);
    BelowOfPlaces(lens, i, m);
  }

  /** Within a code the walk asks for one more bit. */
  lemma WalkGoesOn(t: Tables, lens: seq<Byte>, i: nat, m: nat, bits: seq<bool>)
    requires TablesFor(t, lens) && GoodLengths(lens) && i < |lens| && t.minLen <= m < lens[i] && bits != []
    ensures var zvec := ValueOf(CodeBits(lens, i)[..m]);
      Walk(t, m, zvec, bits) == Walk(t, m + 1, 2 * zvec + (if bits[0] then 1 else 0), bits[1..])
  {
    ShorterExist(lens, i, m);
    assert LimitAndBase(t, lens, m);
    PrefixIsBeyond(lens, i, m);
  }

  /** From any prefix of its code the walk reaches symbol i. */
  lemma {:induction false} WalkReaches(t: Tables, lens: seq<Byte>, i: nat, m: nat, rest: seq<bool>)
    requires TablesFor(t, lens) && GoodLengths(lens) && i < |lens| && t.minLen <= m <= lens[i]
    ensures Walk(t, m, ValueOf(CodeBits(lens, i)[..m]), CodeBits(lens, i)[m..] + rest) == Done(i, rest)
    decreases lens[i] - m
  {
    var s := CodeBits(lens, i);
    var bits := s[m..] + rest;
    CodeValue(lens, i);
    if m == lens[i] {
      assert bits == rest && s[..m] == s;
      WalkEnds(t, lens, i, rest);
    } else {
      ValueNext(s, m);
      assert bits[0] == s[m] && bits[1..] == s[m + 1..] + rest;
      WalkGoesOn(t, lens, i, m, bits);
      WalkReaches(t, lens, i, m + 1, rest);
    }
  }

  /** The decoder turns the code of symbol i, whatever follows it, back into i. */
  lemma DecodeCode(t: Tables, lens: seq<Byte>, i: nat, rest: seq<bool>)
    requires TablesFor(t, lens) && GoodLengths(lens) && i < |lens|
    ensures DecodeSymbol(t, CodeBits(lens, i) + rest) == Done(i, rest)
  {
    var m := t.minLen;
    var bits := CodeBits(lens, i) + rest;
    assert bits[..m] == CodeBits(lens, i)[..m];
    assert bits[m..] == CodeBits(lens, i)[m..] + rest;
    GetBitsIs(bits, m);
    WalkReaches(t, lens, i, m, rest);
  }

  lemma {:induction false} LeastLength(lens: seq<Byte>) returns (i: nat)
    requires lens != []
    ensures i < |lens| && forall k :: 0 <= k < |lens| ==> lens[i] <= lens[k]
    decreases |lens|
  {
    var n := |lens| - 1;
    if n == 0 { return 0; }
    i := LeastLength(lens[..n]);
    assert forall k :: 0 <= k < n ==> lens[k] == lens[..n][k];
    if lens[n] < lens[i] { i := n; }
  }

  /** There are decoding tables for all good lengths. */
  lemma TablesExist(lens: seq<Byte>) returns (t: Tables)
    requires GoodLengths(lens)
    ensures TablesFor(t, lens)
  {
    var n := |lens|;
    var i := LeastLength(lens);
    t := Tables(lens[i],
      seq(BZ_MAX_CODE_LEN, k requires 0 <= k < BZ_MAX_CODE_LEN =>
        if Below(lens, k) < n then First(lens, k) + |Places(lens, k)| - 1 else 0),
      seq(BZ_MAX_CODE_LEN, k requires 0 <= k < BZ_MAX_CODE_LEN =>
        if Below(lens, k) < n then First(lens, k) - Below(lens, k) else n),
      seq(BZ_MAX_ALPHA_SIZE, k requires 0 <= k < BZ_MAX_ALPHA_SIZE => if k < n then Threads(lens)[k] else 0));
    forall k | t.minLen <= k <= LONGEST ensures LimitAndBase(t, lens, k) {}
  }

  /** No code is the beginning of another. */
  lemma PrefixFree(lens: seq<Byte>, i: nat, j: nat)
    requires GoodLengths(lens) && i < |lens| && j < |lens|
    requires CodeBits(lens, i) <= CodeBits(lens, j)
    ensures i == j
  {
    var a, z := CodeBits(lens, i), CodeBits(lens, j);
    var rest := z[|a|..];
    var t := TablesExist(lens);
    assert z == a + rest && z == z + [];
    DecodeCode(t, lens, i, rest);
    DecodeCode(t, lens, j, []);
  }
}
