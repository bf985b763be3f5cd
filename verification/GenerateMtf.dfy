/** generateMTFValues of compress.c: turns the sorted block into symbols. */
module GenerateMtf {
  import opened Basics
  import opened Rotations
  import opened BurrowsWheeler
  import opened MoveToFront

  /** The used bytes in increasing order: the decoder's seqToUnseq. */
  function UsedBytes(inUse: seq<bool>, n: nat): (r: seq<Byte>)
    requires n <= |inUse| <= 256
    ensures |r| <= n
  {
    if n == 0 then []
    else if inUse[n - 1] then UsedBytes(inUse, n - 1) + [n - 1]
    else UsedBytes(inUse, n - 1)
  }

  function Used(inUse: seq<bool>): seq<Byte>
    requires |inUse| <= 256
  {
    UsedBytes(inUse, |inUse|)
  }

  lemma {:induction false} UsedBytesAre(inUse: seq<bool>, n: nat)
    requires n <= |inUse| <= 256
    ensures forall c :: c in UsedBytes(inUse, n) <==> 0 <= c < n && inUse[c]
    ensures forall i, j :: 0 <= i < j < |UsedBytes(inUse, n)| ==> UsedBytes(inUse, n)[i] < UsedBytes(inUse, n)[j]
  {
    if n > 0 {
      UsedBytesAre(inUse, n - 1);
      var t := UsedBytes(inUse, n - 1);
      forall i | 0 <= i < |t| ensures t[i] < n - 1 { assert t[i] in t; }
    }
  }

  /** makeMaps_e: numbers the used bytes. */
  method MakeMapsE(inUse: seq<bool>, unseqToSeq: array<nat>) returns (nInUse: nat)
    requires |inUse| == unseqToSeq.Length == 256
    modifies unseqToSeq
    ensures nInUse == |Used(inUse)|
    ensures forall c :: 0 <= c < 256 && inUse[c] ==>
      unseqToSeq[c] < nInUse && Used(inUse)[unseqToSeq[c]] == c
  {
    nInUse := 0;
    for i := 0 to 256
      invariant nInUse == |UsedBytes(inUse, i)|
      invariant forall c :: 0 <= c < i && inUse[c] ==>
        unseqToSeq[c] < nInUse && UsedBytes(inUse, i)[unseqToSeq[c]] == c
    {
      if inUse[i] {
        unseqToSeq[i] := nInUse;
        nInUse := nInUse + 1;
      }
    }
  }

  /** The column written as indices into the used bytes. */
  ghost predicate Renamed(col: seq<Byte>, used: seq<Byte>, out: seq<nat>) {
    |out| == |col| && forall i :: 0 <= i < |col| ==> out[i] < |used| && used[out[i]] == col[i]
  }

  // ---------- the writing position ----------

  /** How often v occurs in s. */
  function Occurrences(s: seq<nat>, v: nat): nat {
    if s == [] then 0 else Occurrences(s[..|s| - 1], v) + (if s[|s| - 1] == v then 1 else 0)
  }

  /** The first n entries of freq count the symbols of s. */
  ghost predicate Counted(s: seq<nat>, freq: seq<nat>, n: nat)
    requires n <= |freq|
  {
    forall v :: 0 <= v < n ==> freq[v] == Occurrences(s, v)
  }

  lemma CountOneMore(s: seq<nat>, freq: seq<nat>, n: nat, v: nat)
    requires v < n <= |freq| && Counted(s, freq, n)
    ensures Counted(s + [v], freq[v := freq[v] + 1], n)
  {
    assert (s + [v])[..|s|] == s;
  }

  method Put(mtfv: array<nat>, wr: nat, v: nat, mtfFreq: array<nat>, ghost n: nat) returns (wr': nat)
    requires mtfv != mtfFreq && wr < mtfv.Length && v < n <= mtfFreq.Length
    requires Counted(mtfv[..wr], mtfFreq[..], n)
    modifies mtfv, mtfFreq
    ensures wr' == wr + 1 && mtfv[..wr'] == old(mtfv[..wr]) + [v]
    ensures Counted(mtfv[..wr'], mtfFreq[..], n)
  {
    ghost var freq := mtfFreq[..];
    CountOneMore(mtfv[..wr], freq, n, v);
    mtfv[wr] := v;
    mtfFreq[v] := mtfFreq[v] + 1;
    wr' := wr + 1;
    assert mtfv[..wr'] == old(mtfv[..wr]) + [v];
    assert mtfFreq[..] == freq[v := freq[v] + 1];
  }

  /** Writes a pending run of zPend zeros. */
  method PutRun(mtfv: array<nat>, wr: nat, zPend0: nat, mtfFreq: array<nat>, ghost n: nat) returns (wr': nat)
    requires mtfv != mtfFreq && wr + zPend0 <= mtfv.Length && 2 <= n <= mtfFreq.Length
    requires Counted(mtfv[..wr], mtfFreq[..], n)
    modifies mtfv, mtfFreq
    ensures wr' == wr + |RunDigits(zPend0)| && mtfv[..wr'] == old(mtfv[..wr]) + RunDigits(zPend0)
    ensures Counted(mtfv[..wr'], mtfFreq[..], n)
  {
    wr' := wr;
    if zPend0 > 0 {
      var zPend: nat := zPend0 - 1;
      ghost var target := mtfv[..wr] + RunDigits(zPend0);
      while true
        invariant wr' + zPend + 1 <= mtfv.Length
        invariant mtfv[..wr'] + RunDigits(zPend + 1) == target
        invariant Counted(mtfv[..wr'], mtfFreq[..], n)
        decreases zPend
      {
        ghost var w := mtfv[..wr'];
        wr' := Put(mtfv, wr', if zPend % 2 == 1 then BZ_RUNB else BZ_RUNA, mtfFreq, n);
        DigitPut(w, zPend, target);
        if zPend < 2 { break; }
        zPend := (zPend - 2) / 2;
      }
    }
  }

  lemma DigitPut(w: seq<nat>, zPend: nat, target: seq<nat>)
    requires w + RunDigits(zPend + 1) == target
    ensures (w + [zPend % 2]) + RunDigits(zPend / 2) == target
    ensures zPend < 2 ==> w + [zPend % 2] == target
    ensures zPend >= 2 ==> (zPend - 2) / 2 + 1 == zPend / 2
  {
    assert (w + [zPend % 2]) + RunDigits(zPend / 2) == w + ([zPend % 2] + RunDigits(zPend / 2));
  }

  // ---------- the list ----------

  /** Moves ll to the front of the list and returns where it was. The caller has
      checked that it is not in front already. */
  method MoveUp(yy: array<nat>, n: nat, ll: nat) returns (j: nat)
    requires 1 <= n <= yy.Length && ll in yy[..n] && yy[0] != ll
    modifies yy
    ensures j == IndexOf(old(yy[..n]), ll) && yy[..n] == Front(old(yy[..n]), j)
  {
    ghost var l := yy[..n];
    ghost var at := IndexOf(l, ll);
    assert at > 0;
    var rtmp := yy[1];
    yy[1] := yy[0];
    j := 1;
    while ll != rtmp
      invariant 1 <= j <= at < n && rtmp == l[j]
      invariant forall k :: 1 <= k <= j ==> yy[k] == l[k - 1]
      invariant forall k :: j < k < n ==> yy[k] == l[k]
      decreases at - j
    {
      j := j + 1;
      var rtmp2 := rtmp;
      rtmp := yy[j];
      yy[j] := rtmp2;
    }
    FoundAt(l, ll, j);
    yy[0] := rtmp;
  }

  // ---------- the whole block ----------

  /** Where the loop stands before sorted position i: the symbols still to come
      complete those written to the symbols of the whole column. */
  ghost predicate Encoding(all: seq<nat>, written: seq<nat>, l: seq<nat>, out: seq<nat>, i: nat, zPend: nat) {
    && i <= |out| && l != [] && (forall k :: 0 <= k < |out| ==> out[k] in l)
    && all == written + Symbols(l, out[i..], zPend, |l| + 1)
  }

  lemma EncodeZero(all: seq<nat>, written: seq<nat>, l: seq<nat>, out: seq<nat>, i: nat, zPend: nat)
    requires Encoding(all, written, l, out, i, zPend) && i < |out| && out[i] == l[0]
    ensures Encoding(all, written, l, out, i + 1, zPend + 1)
  {
    assert out[i..][1..] == out[i + 1..];
  }

  lemma EncodeOther(all: seq<nat>, written: seq<nat>, l: seq<nat>, out: seq<nat>, i: nat, zPend: nat)
    requires Encoding(all, written, l, out, i, zPend) && i < |out| && out[i] != l[0]
    ensures var j := IndexOf(l, out[i]);
      Encoding(all, written + RunDigits(zPend) + [j + 1], Front(l, j), out, i + 1, 0)
  {
    var j := IndexOf(l, out[i]);
    assert out[i..][1..] == out[i + 1..];
    FrontKeeps(l, j);
    var rest := Symbols(Front(l, j), out[i + 1..], 0, |l| + 1);
    assert written + (RunDigits(zPend) + [j + 1] + rest) == written + RunDigits(zPend) + [j + 1] + rest;
  }

  lemma EncodeEnd(all: seq<nat>, written: seq<nat>, l: seq<nat>, out: seq<nat>, zPend: nat)
    requires Encoding(all, written, l, out, |out|, zPend)
    ensures all == written + RunDigits(zPend) + [|l| + 1]
  {
    assert out[|out|..] == [];
  }

  /** The last column as indices into the used bytes. */
  function ColumnIndices(ptr: seq<nat>, block: seq<Byte>, unseqToSeq: seq<nat>): (r: seq<nat>)
    requires 0 < |block| == |ptr| && |unseqToSeq| == 256 && forall i :: 0 <= i < |ptr| ==> ptr[i] < |block|
    ensures |r| == |ptr|
  {
    seq(|ptr|, i requires 0 <= i < |ptr| => unseqToSeq[LastColumn(block, ptr)[i]])
  }

  lemma ColumnIsRenamed(ptr: seq<nat>, block: seq<Byte>, inUse: seq<bool>, unseqToSeq: seq<nat>)
    requires 0 < |block| == |ptr| && |inUse| == |unseqToSeq| == 256
    requires forall i :: 0 <= i < |ptr| ==> ptr[i] < |block|
    requires forall i :: 0 <= i < |block| ==> inUse[block[i]]
    requires forall c :: 0 <= c < 256 && inUse[c] ==>
      unseqToSeq[c] < |Used(inUse)| && Used(inUse)[unseqToSeq[c]] == c
    ensures Renamed(LastColumn(block, ptr), Used(inUse), ColumnIndices(ptr, block, unseqToSeq))
    ensures forall i :: 0 <= i < |ptr| ==> ColumnIndices(ptr, block, unseqToSeq)[i] < |Used(inUse)|
  {
    forall i | 0 <= i < |ptr| ensures inUse[LastColumn(block, ptr)[i]] {
      LastColumnAt(block, ptr, i);
    }
  }

  /** One step of the loop: sorted position i. */
  method EncodeOne(ll: nat, yy: array<nat>, nInUse: nat, mtfv: array<nat>, wr0: nat, zPend0: nat, mtfFreq: array<nat>,
                   ghost all: seq<nat>, ghost out: seq<nat>, ghost i: nat)
    returns (wr: nat, zPend: nat)
    requires mtfv != mtfFreq && mtfv != yy && mtfFreq != yy && 0 < nInUse <= yy.Length == 256 && mtfFreq.Length == 258
    requires i < |out| < mtfv.Length && ll == out[i] && wr0 + zPend0 <= i
    requires Encoding(all, mtfv[..wr0], yy[..nInUse], out, i, zPend0)
    requires Counted(mtfv[..wr0], mtfFreq[..], nInUse + 2)
    modifies mtfv, mtfFreq, yy
    ensures wr + zPend <= i + 1
    ensures Encoding(all, mtfv[..wr], yy[..nInUse], out, i + 1, zPend)
    ensures Counted(mtfv[..wr], mtfFreq[..], nInUse + 2)
  {
    ghost var l, w := yy[..nInUse], mtfv[..wr0];
    if yy[0] == ll {
      EncodeZero(all, w, l, out, i, zPend0);
      return wr0, zPend0 + 1;
    }
    EncodeOther(all, w, l, out, i, zPend0);
    wr := PutRun(mtfv, wr0, zPend0, mtfFreq, nInUse + 2);
    assert wr <= i;  // no pointer still needed is overwritten
    ghost var w1 := mtfv[..wr];
    assert yy[..nInUse] == l;
    var j := MoveUp(yy, nInUse, ll);
    assert mtfv[..wr] == w1;
    wr := Put(mtfv, wr, j + 1, mtfFreq, nInUse + 2);
    zPend := 0;
  }

  method ZeroFrequencies(mtfFreq: array<nat>, eob: nat)
    requires eob < mtfFreq.Length
    modifies mtfFreq
    ensures Counted([], mtfFreq[..], eob + 1)
  {
    for i := 0 to eob + 1
      invariant forall k :: 0 <= k < i ==> mtfFreq[k] == 0
    {
      mtfFreq[i] := 0;
    }
  }

  method IdentityList(n: nat) returns (yy: array<nat>)
    requires n <= 256
    ensures fresh(yy) && yy.Length == 256 && yy[..n] == Upto(n)
  {
    yy := new nat[256];
    for i := 0 to n
      invariant forall k :: 0 <= k < i ==> yy[k] == k
    {
      yy[i] := i;
    }
  }

  /** The main loop and the final run and EOB. */
  method EncodeAll(ptr: seq<nat>, block: seq<Byte>, unseqToSeq: seq<nat>, nInUse: nat,
                   yy: array<nat>, mtfv: array<nat>, mtfFreq: array<nat>)
    returns (wr: nat)
    requires mtfv != mtfFreq && mtfv != yy && mtfFreq != yy && 0 < nInUse <= yy.Length == 256 && mtfFreq.Length == 258
    requires 0 < |block| == |ptr| && |unseqToSeq| == 256 && mtfv.Length >= |block| + 1
    requires forall i :: 0 <= i < |ptr| ==> ptr[i] < |block|
    requires yy[..nInUse] == Upto(nInUse) && Counted([], mtfFreq[..], nInUse + 2)
    requires var out := ColumnIndices(ptr, block, unseqToSeq); forall i :: 0 <= i < |out| ==> out[i] in Upto(nInUse)
    modifies mtfv, mtfFreq, yy
    ensures wr <= |block| + 1
    ensures mtfv[..wr] == Symbols(Upto(nInUse), ColumnIndices(ptr, block, unseqToSeq), 0, nInUse + 1)
    ensures Counted(mtfv[..wr], mtfFreq[..], nInUse + 2)
  {
    var nblock := |block|;
    ghost var out := ColumnIndices(ptr, block, unseqToSeq);
    ghost var all := Symbols(Upto(nInUse), out, 0, nInUse + 1);
    var zPend: nat := 0;
    wr := 0;
    assert out[0..] == out && mtfv[..0] == [];
    for i := 0 to nblock
      invariant wr + zPend <= i
      invariant Encoding(all, mtfv[..wr], yy[..nInUse], out, i, zPend)
      invariant Counted(mtfv[..wr], mtfFreq[..], nInUse + 2)
    {
      var j := if ptr[i] == 0 then nblock - 1 else ptr[i] - 1;
      LastColumnAt(block, ptr, i);
      wr, zPend := EncodeOne(unseqToSeq[block[j]], yy, nInUse, mtfv, wr, zPend, mtfFreq, all, out, i);
    }
    EncodeEnd(all, mtfv[..wr], yy[..nInUse], out, zPend);
    wr := PutRun(mtfv, wr, zPend, mtfFreq, nInUse + 2);
    wr := Put(mtfv, wr, nInUse + 1, mtfFreq, nInUse + 2);
  }

  /** mtfv[..nMTF] becomes the symbols of the last column. In the source mtfv overlays
      ptr; a 16-bit symbol is written at an index no greater than that of the 32-bit
      pointer just read, so no pointer is lost before it is used. */
  method GenerateMTFValues(ptr: seq<nat>, block: seq<Byte>, inUse: seq<bool>, mtfv: array<nat>, mtfFreq: array<nat>)
    returns (nMTF: nat, nInUse: nat, ghost out: seq<nat>)
    requires mtfv != mtfFreq && mtfFreq.Length == 258
    requires 0 < |block| == |ptr| && mtfv.Length >= |block| + 1 && |inUse| == 256
    requires forall i :: 0 <= i < |ptr| ==> ptr[i] < |block|
    requires forall i :: 0 <= i < |block| ==> inUse[block[i]]
    modifies mtfv, mtfFreq
    ensures nInUse == |Used(inUse)| && 0 < nInUse <= 256
    ensures Renamed(LastColumn(block, ptr), Used(inUse), out)
    ensures nMTF <= |block| + 1 && forall i :: 0 <= i < |out| ==> out[i] in Upto(nInUse)
    ensures mtfv[..nMTF] == Symbols(Upto(nInUse), out, 0, nInUse + 1)
    ensures Counted(mtfv[..nMTF], mtfFreq[..], nInUse + 2)
  {
    var unseqToSeq := new nat[256];
    nInUse := MakeMapsE(inUse, unseqToSeq);
    var names := unseqToSeq[..];
    out := ColumnIndices(ptr, block, names);
    ColumnIsRenamed(ptr, block, inUse, names);
    assert out[0] < nInUse;
    forall i | 0 <= i < |out| ensures out[i] in Upto(nInUse) { assert Upto(nInUse)[out[i]] == out[i]; }
    ZeroFrequencies(mtfFreq, nInUse + 1);
    var yy := IdentityList(nInUse);
    nMTF := EncodeAll(ptr, block, names, nInUse, yy, mtfv, mtfFreq);
  }
}
