/** Move-to-front and zero-run coding of the last column: the symbols that are
    Huffman coded. RUNA and RUNB are the digits of a run length in bijective base 2,
    any other symbol is a list index plus one, and EOB ends the block. */
module MoveToFront {
  import opened Basics

  const BZ_RUNA: nat := 0
  const BZ_RUNB: nat := 1

  /** The list with its j-th element moved to the front. */
  function Front(l: seq<nat>, j: nat): (r: seq<nat>)
    requires j < |l|
    ensures |r| == |l|
  {
    [l[j]] + l[..j] + l[j + 1..]
  }

  function IndexOf(l: seq<nat>, v: nat): (j: nat)
    requires v in l
    ensures j < |l| && l[j] == v && v !in l[..j]
  {
    if l[0] == v then 0 else 1 + IndexOf(l[1..], v)
  }

  lemma FoundAt(l: seq<nat>, v: nat, j: nat)
    requires v in l && j <= IndexOf(l, v) && l[j] == v
    ensures j == IndexOf(l, v)
  {
    var at := IndexOf(l, v);
    assert forall k :: 0 <= k < at ==> l[..at][k] == l[k];
  }

  function Upto(n: nat): (r: seq<nat>)
    ensures |r| == n && forall i :: 0 <= i < n ==> r[i] == i
  {
    seq(n, i => i)
  }

  /** A run of z > 0 zeros as bijective base-2 digits, least significant first. */
  function RunDigits(z: nat): (r: seq<nat>)
    ensures forall i :: 0 <= i < |r| ==> r[i] == BZ_RUNA || r[i] == BZ_RUNB
    ensures |r| <= z
    ensures z > 0 ==> |r| > 0
  {
    if z == 0 then [] else [(z - 1) % 2] + RunDigits((z - 1) / 2)
  }

  lemma {:induction false} RunIsShort(z: nat, k: nat)
    requires z < Pow2(k) - 1
    ensures |RunDigits(z)| < k
  {
    if z > 0 { RunIsShort((z - 1) / 2, k - 1); }
  }

  /** The symbols for a column, given the list, with z zeros pending. */
  function Symbols(l: seq<nat>, col: seq<nat>, z: nat, eob: nat): seq<nat>
    requires l != [] && forall i :: 0 <= i < |col| ==> col[i] in l
    decreases |col|
  {
    if col == [] then RunDigits(z) + [eob]
    else if l[0] == col[0] then Symbols(l, col[1..], z + 1, eob)
    else
      var j := IndexOf(l, col[0]);
      FrontKeeps(l, j);
      RunDigits(z) + [j + 1] + Symbols(Front(l, j), col[1..], 0, eob)
  }

  lemma FrontKeeps(l: seq<nat>, j: nat)
    requires j < |l|
    ensures forall v :: v in l <==> v in Front(l, j)
  {
    var f := Front(l, j);
    forall v | v in l ensures v in f {
      var i :| 0 <= i < |l| && l[i] == v;
      assert f[0] == l[j];
      if i < j { assert f[i + 1] == v; }
      if i > j { assert f[i] == v; }
    }
    forall v | v in f ensures v in l {
      var i :| 0 <= i < |f| && f[i] == v;
      if 0 < i <= j { assert l[i - 1] == v; }
      if i > j { assert l[i] == v; }
    }
  }

  function Repeat(v: nat, n: nat): (r: seq<nat>)
    ensures |r| == n && forall i :: 0 <= i < n ==> r[i] == v
  {
    seq(n, _ => v)
  }

  /** The decoder's list is longer; only its first |l| entries ever move. */
  lemma FrontPrefix(m: seq<nat>, n: nat, j: nat)
    requires j < n <= |m|
    ensures Front(m, j)[..n] == Front(m[..n], j)
  {}

  lemma {:induction false} SymbolsAreSmall(l: seq<nat>, col: seq<nat>, z: nat, eob: nat, i: nat)
    requires l != [] && eob == |l| + 1 && forall k :: 0 <= k < |col| ==> col[k] in l
    requires i < |Symbols(l, col, z, eob)|
    ensures Symbols(l, col, z, eob)[i] <= eob
    decreases |col|
  {
    var d := RunDigits(z);
    if col != [] {
      if l[0] == col[0] {
        SymbolsAreSmall(l, col[1..], z + 1, eob, i);
      } else {
        var j := IndexOf(l, col[0]);
        FrontKeeps(l, j);
        if i > |d| { SymbolsAreSmall(Front(l, j), col[1..], 0, eob, i - |d| - 1); }
      }
    }
  }
}
