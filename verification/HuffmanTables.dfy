/** The table builders of huffman.c: code assignment for the encoder, limit, base and
    perm for the decoder. */
module HuffmanTables {
  import opened Basics
  import opened ByteCounts
  import opened BurrowsWheeler
  import opened Huffman

  /** BZ2_hbAssignCodes. */
  method HbAssignCodes(code: array<nat>, length: seq<Byte>, minLen: nat, maxLen: nat, alphaSize: nat)
    requires alphaSize == |length| <= code.Length && minLen <= maxLen <= 255
    requires forall i :: 0 <= i < alphaSize ==> minLen <= length[i] <= maxLen
    modifies code
    ensures forall i :: 0 <= i < alphaSize ==> code[i] == Code(length, i)
  {
    var vec := 0;
    NoneShorter(length, minLen);
    var n := minLen;
    while n <= maxLen
      invariant minLen <= n && (n <= maxLen + 1)
      invariant vec == First(length, n)
      invariant forall i :: 0 <= i < alphaSize && length[i] < n ==> code[i] == Code(length, i)
    {
      for i := 0 to alphaSize
        invariant vec == First(length, n) + |Places(length[..i], n)|
        invariant forall k :: 0 <= k < alphaSize && (length[k] < n || (length[k] == n && k < i)) ==>
                  code[k] == Code(length, k)
      {
        assert length[..i + 1][..i] == length[..i];
        if length[i] == n {
          code[i] := vec;
          vec := vec + 1;
        }
      }
      assert length[..alphaSize] == length;
      vec := vec * 2;
      n := n + 1;
    }
  }

  lemma {:induction false} NoneShorter(lens: seq<Byte>, n: nat)
    requires n <= 256 && forall i :: 0 <= i < |lens| ==> n <= lens[i]
    ensures First(lens, n) == 0 && Below(lens, n) == 0
  {
    if n > 0 {
      NoneShorter(lens, n - 1);
      if |Places(lens, n - 1)| > 0 { PlaceIs(lens, n - 1, 0); }
    }
  }

  /** perm: the symbols in order of code length. */
  method FillPerm(perm: array<nat>, length: seq<Byte>, minLen: nat, maxLen: nat)
    requires |length| <= perm.Length && minLen <= maxLen <= 255
    requires forall i :: 0 <= i < |length| ==> minLen <= length[i] <= maxLen
    modifies perm
    ensures forall k :: 0 <= k < |length| ==> perm[k] == Threads(length)[k]
  {
    var pp := 0;
    NoneShorter(length, minLen);
    var i := minLen;
    while i <= maxLen
      invariant minLen <= i <= maxLen + 1
      invariant pp == Below(length, i) <= |length|
      invariant forall k :: 0 <= k < pp ==> perm[k] == ThreadsBelow(length, i)[k]
    {
      BelowMonotone(length, i + 1, 256);
      BelowAll(length, 256);
      for j := 0 to |length|
        invariant pp == Below(length, i) + |Places(length[..j], i)|
        invariant |Places(length[..j], i)| <= |Places(length, i)|
        invariant forall k :: 0 <= k < pp ==> perm[k] == (ThreadsBelow(length, i) + Places(length[..j], i))[k]
      {
        assert length[..j + 1][..j] == length[..j];
        PrefixPlacesFit(length, j + 1, i);
        if length[j] == i {
          perm[pp] := j;
          pp := pp + 1;
        }
      }
      assert length[..|length|] == length;
      i := i + 1;
    }
    BelowAll(length, maxLen + 1);
    ThreadsComplete(length, maxLen + 1);
  }

  lemma {:induction false} PrefixPlacesFit(lens: seq<Byte>, j: nat, c: Byte)
    requires j <= |lens|
    ensures |Places(lens[..j], c)| <= |Places(lens, c)|
    decreases |lens|
  {
    if j < |lens| {
      PrefixPlacesFit(lens[..|lens| - 1], j, c);
      assert lens[..|lens| - 1][..j] == lens[..j];
    } else {
      assert lens[..j] == lens;
    }
  }

  lemma {:induction false} ThreadsComplete(lens: seq<Byte>, n: nat)
    requires n <= 256 && Below(lens, n) == |lens|
    ensures ThreadsBelow(lens, n) == Threads(lens)
    decreases 256 - n
  {
    if n < 256 {
      BelowMonotone(lens, n + 1, 256);
      BelowAll(lens, 256);
      assert |Places(lens, n)| == 0;
      assert ThreadsBelow(lens, n + 1) == ThreadsBelow(lens, n);
      ThreadsComplete(lens, n + 1);
    }
  }

  /** Counts the lengths below each n: base before it is rebased. */
  method CountLengths(base: array<int>, length: seq<Byte>)
    requires base.Length >= BZ_MAX_CODE_LEN && forall i :: 0 <= i < |length| ==> length[i] <= LONGEST
    modifies base
    ensures forall n :: 0 <= n < BZ_MAX_CODE_LEN ==> base[n] == Below(length, n)
  {
    for i := 0 to BZ_MAX_CODE_LEN
      invariant forall n :: 0 <= n < i ==> base[n] == 0
    {
      base[i] := 0;
    }
    assert length[..0] == [];
    for i := 0 to |length|
      invariant base[0] == 0
      invariant forall n :: 1 <= n < BZ_MAX_CODE_LEN ==> base[n] == CountBelow(length, i, n)
    {
      assert length[..i + 1][..i] == length[..i];
      base[length[i] + 1] := base[length[i] + 1] + 1;
    }
    assert length[..|length|] == length;
    for i := 1 to BZ_MAX_CODE_LEN
      invariant forall n :: 0 <= n < i ==> base[n] == Below(length, n)
      invariant forall n :: i <= n < BZ_MAX_CODE_LEN ==> base[n] == CountBelow(length, |length|, n)
    {
      base[i] := base[i] + base[i - 1];
    }
  }

  /** How many of the first i symbols have length n - 1. */
  function CountBelow(lens: seq<Byte>, i: nat, n: nat): nat
    requires i <= |lens| && 1 <= n <= 256
  {
    |Places(lens[..i], n - 1)|
  }

  /** What to subtract from a code of length n to index perm. */
  ghost predicate IsOffset(x: int, lens: seq<Byte>, n: nat)
    requires n <= 256
  {
    x == First(lens, n) - Below(lens, n)
  }

  /** The last code of length n. */
  ghost predicate IsLast(x: int, lens: seq<Byte>, n: nat)
    requires n < 256
  {
    x == First(lens, n) + |Places(lens, n)| - 1
  }

  /** limit: the last code of each length. */
  method SetLimits(limit: array<int>, base: array<int>, length: seq<Byte>, minLen: nat, maxLen: nat)
    requires limit != base && limit.Length >= BZ_MAX_CODE_LEN && base.Length >= BZ_MAX_CODE_LEN
    requires minLen <= maxLen <= LONGEST
    requires forall i :: 0 <= i < |length| ==> minLen <= length[i] <= maxLen
    requires forall n :: 0 <= n < BZ_MAX_CODE_LEN ==> base[n] == Below(length, n)
    modifies limit
    ensures forall n :: minLen <= n <= maxLen ==> IsLast(limit[n], length, n)
    ensures forall n :: maxLen < n < BZ_MAX_CODE_LEN ==> limit[n] == 0
  {
    for i := 0 to BZ_MAX_CODE_LEN
      invariant forall n :: 0 <= n < i ==> limit[n] == 0
    {
      limit[i] := 0;
    }
    var vec := 0;
    NoneShorter(length, minLen);
    for i := minLen to maxLen + 1
      invariant vec == First(length, i)
      invariant forall n :: minLen <= n < i ==> IsLast(limit[n], length, n)
      invariant forall n :: i <= n < BZ_MAX_CODE_LEN ==> limit[n] == 0
    {
      vec := vec + (base[i + 1] - base[i]);
      limit[i] := vec - 1;
      vec := vec * 2;
    }
  }

  lemma OffsetNext(lens: seq<Byte>, n: nat, m: nat, last: int)
    requires 1 <= n <= 256 && m == n - 1 && IsLast(last, lens, m)
    ensures IsOffset((last + 1) * 2 - Below(lens, n), lens, n)
  {}

  /** base: the offset for each length. */
  method Rebase(limit: array<int>, base: array<int>, ghost length: seq<Byte>, minLen: nat, maxLen: nat)
    requires limit != base && limit.Length >= BZ_MAX_CODE_LEN && base.Length >= BZ_MAX_CODE_LEN
    requires minLen <= maxLen <= LONGEST && First(length, minLen) == Below(length, minLen) == 0
    requires forall n :: 0 <= n < BZ_MAX_CODE_LEN ==> base[n] == Below(length, n)
    requires forall n :: minLen <= n <= maxLen ==> IsLast(limit[n], length, n)
    modifies base
    ensures forall n :: minLen <= n <= maxLen ==> IsOffset(base[n], length, n)
    ensures forall n :: maxLen < n < BZ_MAX_CODE_LEN ==> base[n] == Below(length, n)
  {
    for i := minLen + 1 to maxLen + 1
      invariant forall n :: minLen <= n < i ==> IsOffset(base[n], length, n)
      invariant forall n :: i <= n < BZ_MAX_CODE_LEN ==> base[n] == Below(length, n)
    {
      OffsetNext(length, i, i - 1, limit[i - 1]);
      base[i] := (limit[i - 1] + 1) * 2 - base[i];
    }
  }

  /** BZ2_hbCreateDecodeTables. */
  method HbCreateDecodeTables(limit: array<int>, base: array<int>, perm: array<nat>, length: seq<Byte>,
                              minLen: nat, maxLen: nat)
    requires limit != base && limit.Length == base.Length == perm.Length == BZ_MAX_ALPHA_SIZE
    requires perm as object != limit && perm as object != base
    requires 0 < |length| <= BZ_MAX_ALPHA_SIZE && 1 <= minLen <= maxLen <= LONGEST
    requires forall i :: 0 <= i < |length| ==> minLen <= length[i] <= maxLen
    requires IsLength(length, minLen) && IsLength(length, maxLen)
    modifies limit, base, perm
    ensures TablesFor(Tables(minLen, limit[..], base[..], perm[..]), length)
  {
    FillPerm(perm, length, minLen, maxLen);
    CountLengths(base, length);
    SetLimits(limit, base, length, minLen, maxLen);
    NoneShorter(length, minLen);
    Rebase(limit, base, length, minLen, maxLen);
    ghost var t := Tables(minLen, limit[..], base[..], perm[..]);
    forall n | t.minLen <= n <= LONGEST ensures LimitAndBase(t, length, n) {
      if n <= maxLen {
        var i :| 0 <= i < |length| && length[i] == maxLen;
        ShorterExist(length, i, n);
      } else {
        BelowAll(length, n);
      }
    }
  }
}
