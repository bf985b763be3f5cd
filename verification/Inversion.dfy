/** The end of BZ2_decompress: threading the last column, in the fast form (byte and
    thread share one word of tt) and in the small form (20-bit links, reversed in place). */
module Inversion {
  import opened Basics
  import opened Arithmetic
  import opened ByteCounts
  import opened BurrowsWheeler

  // ---------- cftab ----------

  /** The cumulative byte counts. The source's range and order checks cannot fail. */
  method MakeCftab(unzftab: seq<nat>, ghost column: seq<Byte>, nblock: nat) returns (cftab: seq<nat>)
    requires |unzftab| == 256 && nblock == |column|
    requires forall b: Byte :: unzftab[b] == |Places(column, b)|
    ensures |cftab| == 257 && forall c: nat :: c <= 256 ==> cftab[c] == Below(column, c)
  {
    cftab := [0];
    BelowAll(column, 256);
    for i: nat := 1 to 257
      invariant |cftab| == i && forall c: nat :: c < i ==> cftab[c] == Below(column, c) <= nblock
    {
      BelowMonotone(column, i, 256);
      assert unzftab[i - 1] <= nblock && cftab[i - 1] <= cftab[i - 1] + unzftab[i - 1];
      cftab := cftab + [cftab[i - 1] + unzftab[i - 1]];
    }
  }

  // ---------- threads are a permutation ----------

  /** Where position i of the column ends up in the thread vector. */
  function Row(s: seq<Byte>, i: nat): nat
    requires i < |s|
  {
    Below(s, s[i]) + |Places(s[..i], s[i])|
  }

  lemma {:induction false} PrefixPlace(s: seq<Byte>, i: nat)
    requires i < |s|
    ensures |Places(s[..i], s[i])| < |Places(s, s[i])|
    ensures Places(s, s[i])[|Places(s[..i], s[i])|] == i
  {
    var m := |s| - 1;
    if i < m {
      PrefixPlace(s[..m], i);
      assert s[..m][..i] == s[..i];
    }
  }

  lemma RowOf(s: seq<Byte>, i: nat)
    requires i < |s|
    ensures Row(s, i) < |s| && Threads(s)[Row(s, i)] == i
  {
    PrefixPlace(s, i);
    ThreadAt(s, s[i], |Places(s[..i], s[i])|, 256);
    BelowAll(s, 256);
  }

  lemma RowsAreIn(s: seq<Byte>, n: nat)
    requires n <= |s|
    ensures forall i :: 0 <= i < n ==> Row(s, i) < |s|
  {
    forall i | 0 <= i < n ensures Row(s, i) < |s| { RowOf(s, i); }
  }

  /** Each row is the row of the position its thread names. */
  lemma RowOfThread(s: seq<Byte>, j: nat)
    requires j < |s|
    ensures Row(s, Threads(s)[j]) == j
  {
    var rows: seq<nat> := seq(|s|, i requires 0 <= i < |s| => Row(s, i));
    RowsAreIn(s, |s|);
    forall i, k | 0 <= i < k < |s| ensures Differ(rows, i, k) {
      RowOf(s, i);
      RowOf(s, k);
    }
    PermutationIsOnto(rows, |s|, j);
    var i :| 0 <= i < |s| && rows[i] == j;
    RowOf(s, i);
  }

  // ---------- the fast form ----------

  /** Entry j of tt once positions below i have been threaded. */
  function Word(s: seq<Byte>, i: nat, j: nat): nat
    requires j < |s|
  {
    s[j] + (if Threads(s)[j] < i then 256 * Threads(s)[j] else 0)
  }

  lemma ByteOfWord(s: seq<Byte>, i: nat, j: nat)
    requires j < |s|
    ensures Word(s, i, j) % 256 == s[j]
  {
  }

  ghost predicate WordsAre(tt: seq<nat>, s: seq<Byte>, i: nat) {
    |s| <= |tt| && forall j :: 0 <= j < |s| ==> tt[j] == Word(s, i, j)
  }

  ghost predicate Cursors(cftab: seq<nat>, s: seq<Byte>, i: nat)
    requires i <= |s|
  {
    |cftab| >= 256 && forall c: Byte :: cftab[c] == Below(s, c) + |Places(s[..i], c)|
  }

  lemma CursorsMove(cftab: seq<nat>, s: seq<Byte>, i: nat)
    requires i < |s| && Cursors(cftab, s, i)
    ensures cftab[s[i]] == Row(s, i) < |s|
    ensures Cursors(cftab[s[i] := cftab[s[i]] + 1], s, i + 1)
  {
    RowOf(s, i);
    assert s[..i + 1][..i] == s[..i];
  }

  lemma WordsMove(tt: seq<nat>, s: seq<Byte>, i: nat, row: nat)
    requires i < |s| && WordsAre(tt, s, i) && row == Row(s, i) && row < |s|
    ensures tt[row] < 256 && WordsAre(tt[row := tt[row] + 256 * i], s, i + 1)
  {
    RowOf(s, i);
    forall j | 0 <= j < |s| && j != row ensures Threads(s)[j] != i { RowOfThread(s, j); }
  }

  /** The loop that builds tt: each entry keeps its byte and gains a thread in the bits above. */
  method MakeTt(tt: array<nat>, cftab: array<nat>, ghost s: seq<Byte>, nblock: nat)
    requires tt != cftab && cftab.Length == 257 && nblock == |s| <= tt.Length
    requires forall j :: 0 <= j < |s| ==> tt[j] == s[j]
    requires forall c: nat :: c <= 256 ==> cftab[c] == Below(s, c)
    modifies tt, cftab
    ensures forall j :: 0 <= j < |s| ==> tt[j] == s[j] + 256 * Threads(s)[j]
  {
    assert s[..0] == [];
    var i := 0;
    while i < nblock
      invariant 0 <= i <= nblock && WordsAre(tt[..], s, i) && Cursors(cftab[..], s, i)
    {
      var uc := tt[i] % 256;
      assert uc == s[i] by { assert tt[..][i] == Word(s, i, i); ByteOfWord(s, i, i); }
      CursorsMove(cftab[..], s, i);
      WordsMove(tt[..], s, i, cftab[uc]);
      ghost var t, f := tt[..], cftab[..];
      tt[cftab[uc]] := tt[cftab[uc]] + i * 256;
      cftab[uc] := cftab[uc] + 1;
      assert tt[..] == t[f[uc] := t[f[uc]] + 256 * i] && cftab[..] == f[uc := f[uc] + 1];
      i := i + 1;
    }
    forall j | 0 <= j < |s| ensures tt[j] == s[j] + 256 * Threads(s)[j] { assert tt[..][j] == Word(s, |s|, j); }
  }

  // ---------- the small form ----------

  /** GET_LL4. */
  function Nibble(ll4: seq<nat>, i: nat): nat
    requires i / 2 < |ll4|
  {
    if i % 2 == 0 then ll4[i / 2] % 16 else ll4[i / 2] / 16 % 16
  }

  /** GET_LL. */
  function Unpack(ll16: seq<nat>, ll4: seq<nat>, i: nat): nat
    requires i < |ll16| && i / 2 < |ll4|
  {
    ll16[i] + Nibble(ll4, i) * 0x1_0000
  }

  /** ll16 and ll4: entries of 20 bits, the upper four kept two to a byte. */
  class Links {
    const ll16: array<nat>
    const ll4: array<nat>

    ghost predicate Valid()
      reads this, ll16, ll4
    {
      ll16 != ll4 && ll4.Length == (ll16.Length + 1) / 2
    }

    function Get(i: nat): nat
      requires i < ll16.Length && i / 2 < ll4.Length
      reads ll16, ll4
    {
      Unpack(ll16[..], ll4[..], i)
    }

    ghost function Entries(): (s: seq<nat>)
      requires Valid()
      reads this, ll16, ll4
      ensures |s| == ll16.Length && forall i :: 0 <= i < |s| ==> s[i] == Get(i)
    {
      seq(ll16.Length, i requires 0 <= i < ll16.Length && Valid() reads this, ll16, ll4 => Get(i))
    }

    constructor (n: nat)
      ensures Valid() && ll16.Length == n && fresh(ll16) && fresh(ll4)
    {
      ll16 := new nat[n](_ => 0);
      ll4 := new nat[(n + 1) / 2](_ => 0);
    }

    /** SET_LL4: the neighbouring nibble is kept. */
    method SetNibble(i: nat, n: nat)
      requires Valid() && i < ll16.Length && n < 16
      modifies ll4
      ensures Valid() && Nibble(ll4[..], i) == n
      ensures forall k: nat :: k < ll16.Length && k != i ==> Nibble(ll4[..], k) == old(Nibble(ll4[..], k))
    {
      if i % 2 == 0 {
        ll4[i / 2] := ll4[i / 2] / 16 * 16 + n;
      } else {
        ll4[i / 2] := ll4[i / 2] % 16 + n * 16;
      }
    }

    lemma LowHalf(i: nat)
      requires Valid() && i < ll16.Length
      ensures Entries()[i] % 256 == ll16[i] % 256
    {
      assert Entries()[i] == Get(i);
    }

    /** SET_LL. */
    method Set(i: nat, n: nat)
      requires Valid() && i < ll16.Length && n < 0x10_0000
      modifies ll16, ll4
      ensures Valid() && Entries() == old(Entries())[i := n]
    {
      ghost var before := Entries();
      ll16[i] := n % 0x1_0000;
      SetNibble(i, n / 0x1_0000);
      forall k | 0 <= k < ll16.Length ensures Entries()[k] == before[i := n][k] {
        assert before[k] == old(Get(k));
      }
    }
  }

  /** The column's bytes give way to rows one by one: entry k holds Row(k) below i and the
      byte itself from i on. */
  ghost predicate RowsAre(ll: seq<nat>, s: seq<Byte>, i: nat) {
    i <= |s| <= |ll| && forall k: nat :: k < |s| ==> RowOrByte(ll, s, i, k)
  }

  ghost predicate RowOrByte(ll: seq<nat>, s: seq<Byte>, i: nat, k: nat)
    requires k < |s| <= |ll|
  {
    if k < i then ll[k] == Row(s, k) else ll[k] % 0x1_0000 == s[k]
  }

  lemma LowByte(x: nat, b: Byte)
    requires x % 0x1_0000 == b
    ensures x % 256 == b
  {
    DivUnique(x, 256, 256 * (x / 0x1_0000), b);
  }

  lemma RowsMove(ll: seq<nat>, s: seq<Byte>, i: nat, row: nat)
    requires i < |s| && RowsAre(ll, s, i) && row == Row(s, i)
    ensures ll[i] % 256 == s[i] && RowsAre(ll[i := row], s, i + 1)
  {
    assert RowOrByte(ll, s, i, i);
    LowByte(ll[i], s[i]);
    var next, now := ll[i := row], i + 1;
    forall k: nat | k < |s| ensures RowOrByte(next, s, now, k) { assert RowOrByte(ll, s, i, k); }
  }

  /** Entry i gives up its byte for its row. */
  method TakeRow(ll: Links, cftabCopy: array<nat>, ghost s: seq<Byte>, i: nat)
    requires ll.Valid() && cftabCopy != ll.ll16 && cftabCopy != ll.ll4 && cftabCopy.Length == 257
    requires i < |s| < 0x10_0000 && RowsAre(ll.Entries(), s, i) && Cursors(cftabCopy[..], s, i)
    modifies ll.ll16, ll.ll4, cftabCopy
    ensures ll.Valid() && RowsAre(ll.Entries(), s, i + 1) && Cursors(cftabCopy[..], s, i + 1)
  {
    ghost var f := cftabCopy[..];
    CursorsMove(f, s, i);
    RowsMove(ll.Entries(), s, i, f[s[i]]);
    ll.LowHalf(i);
    var uc := ll.ll16[i] % 256;
    ll.Set(i, cftabCopy[uc]);
    cftabCopy[uc] := cftabCopy[uc] + 1;
    assert cftabCopy[..] == f[uc := f[uc] + 1];
  }

  /** The T vector. */
  method MakeT(ll: Links, cftabCopy: array<nat>, ghost s: seq<Byte>, nblock: nat)
    requires ll.Valid() && cftabCopy != ll.ll16 && cftabCopy != ll.ll4 && cftabCopy.Length == 257
    requires nblock == |s| <= ll.ll16.Length && |s| < 0x10_0000
    requires forall j :: 0 <= j < |s| ==> ll.ll16[j] == s[j]
    requires forall c: nat :: c <= 256 ==> cftabCopy[c] == Below(s, c)
    modifies ll.ll16, ll.ll4, cftabCopy
    ensures ll.Valid() && RowsAre(ll.Entries(), s, |s|)
  {
    assert s[..0] == [];
    forall k: nat | k < |s| ensures RowOrByte(ll.Entries(), s, 0, k) { assert ll.Entries()[k] == ll.Get(k); }
    for i := 0 to nblock
      invariant ll.Valid() && RowsAre(ll.Entries(), s, i) && Cursors(cftabCopy[..], s, i)
    {
      TakeRow(ll, cftabCopy, s, i);
    }
  }

  // ---------- pointer reversal ----------

  /** t undoes s's threads. */
  ghost predicate Undoes(t: seq<nat>, s: seq<Byte>) {
    |s| <= |t| && forall k :: 0 <= k < |s| ==> UndoesAt(t, s, k)
  }

  ghost predicate UndoesAt(t: seq<nat>, s: seq<Byte>, k: nat)
    requires k < |s| <= |t|
  {
    t[k] < |s| && Threads(s)[t[k]] == k
  }

  lemma RowsUndo(ll: seq<nat>, s: seq<Byte>)
    requires RowsAre(ll, s, |s|)
    ensures Undoes(ll, s)
  {
    forall k | 0 <= k < |s| ensures UndoesAt(ll, s, k) {
      assert RowOrByte(ll, s, |s|, k);
      RowOf(s, k);
    }
  }

  /** Halfway along the cycle of orig: the entries of done are reversed, the others are
      not, and every reversed entry other than the next one leads back among them. */
  ghost predicate Reversing(ll: seq<nat>, t: seq<nat>, s: seq<Byte>, orig: nat, done: set<nat>, i: nat) {
    && Undoes(t, s) && |ll| == |t| && i < |s| && orig < |s|
    && (i == orig ==> done == {}) && (i != orig ==> i in done) && orig !in done
    && done <= Range(|s|)
    && (forall y: nat :: y < |t| && y !in done ==> ll[y] == t[y])
    && (forall y {:trigger Reversed(ll, s, orig, done, i, y)} :: y in done ==> Reversed(ll, s, orig, done, i, y))
  }

  ghost predicate Reversed(ll: seq<nat>, s: seq<Byte>, orig: nat, done: set<nat>, i: nat, y: nat)
    requires |s| <= |ll|
  {
    y < |s| && ll[y] == Threads(s)[y] && ll[y] != i && (ll[y] == orig || ll[y] in done)
  }

  /** The cycle is closed: from orig on, links are threads. */
  ghost predicate Closed(ll: seq<nat>, s: seq<Byte>, orig: nat, done: set<nat>) {
    && |s| <= |ll| && orig in done
    && forall y {:trigger ClosedAt(ll, s, done, y)} :: y in done ==> ClosedAt(ll, s, done, y)
  }

  ghost predicate ClosedAt(ll: seq<nat>, s: seq<Byte>, done: set<nat>, y: nat)
    requires |s| <= |ll|
  {
    y < |s| && ll[y] == Threads(s)[y] && ll[y] in done
  }

  lemma ReverseOne(ll: seq<nat>, t: seq<nat>, s: seq<Byte>, orig: nat, done: set<nat>, i: nat, j: nat)
    requires Reversing(ll, t, s, orig, done, i) && j == t[i]
    ensures j < |s| && j !in done && ll[j] == t[j]
    ensures j == orig ==> Closed(ll[j := i], s, orig, done + {j})
    ensures j != orig ==> Reversing(ll[j := i], t, s, orig, done + {j}, j)
  {
    assert UndoesAt(t, s, i);
    assert j in done ==> Reversed(ll, s, orig, done, i, j);
    assert j in Range(|s|);
    var ll', done' := ll[j := i], done + {j};
    forall y | y in done' ensures ClosedOrOpen(ll', s, orig, done', y) && (j != orig ==> ll'[y] != j) {
      if y != j { assert Reversed(ll, s, orig, done, i, y); }
    }
    if j == orig {
      forall y | y in done' ensures ClosedAt(ll', s, done', y) { assert ClosedOrOpen(ll', s, orig, done', y); }
    } else {
      forall y | y in done' ensures Reversed(ll', s, orig, done', j, y) { assert ClosedOrOpen(ll', s, orig, done', y); }
    }
  }

  ghost predicate ClosedOrOpen(ll: seq<nat>, s: seq<Byte>, orig: nat, done: set<nat>, y: nat)
    requires |s| <= |ll|
  {
    y < |s| && ll[y] == Threads(s)[y] && (ll[y] == orig || ll[y] in done)
  }

  /** T^(-1) by pointer reversal on T. */
  method ReversePointers(links: Links, origPtr: nat, ghost s: seq<Byte>) returns (ghost done: set<nat>)
    requires links.Valid() && Undoes(links.Entries(), s) && origPtr < |s| < 0x10_0000
    modifies links.ll16, links.ll4
    ensures links.Valid() && Closed(links.Entries(), s, origPtr, done)
  {
    ghost var t := links.Entries();
    done := {};
    var i := origPtr;
    var j := links.Get(i);
    while true
      invariant links.Valid() && Reversing(links.Entries(), t, s, origPtr, done, i) && j == t[i]
      decreases |s| - |done|
    {
      ghost var e := links.Entries();
      ReverseOne(e, t, s, origPtr, done, i, j);
      var tmp := links.Get(j);
      links.Set(j, i);
      done := done + {j};
      SubsetSize(done, Range(|s|));
      i := j;
      j := tmp;
      if i == origPtr { break; }
    }
  }

  /** Following links from orig is following threads. */
  ghost function FollowLinks(ll: seq<nat>, pos: nat, k: nat): nat
  {
    if k == 0 then pos
    else
      var p := FollowLinks(ll, pos, k - 1);
      if p < |ll| then ll[p] else 0
  }

  lemma {:induction false} LinksAreThreads(ll: seq<nat>, s: seq<Byte>, orig: nat, done: set<nat>, k: nat)
    requires Closed(ll, s, orig, done) && orig < |s|
    ensures FollowLinks(ll, orig, k) == Follow(Threads(s), orig, k) && FollowLinks(ll, orig, k) in done
  {
    if k > 0 {
      LinksAreThreads(ll, s, orig, done, k - 1);
      assert ClosedAt(ll, s, done, FollowLinks(ll, orig, k - 1));
    }
  }

  // ---------- the first column by binary search ----------

  /** BZ2_indexIntoF: the byte that row indx starts with. */
  method IndexIntoF(indx: nat, cftab: seq<nat>, ghost s: seq<Byte>) returns (nb: Byte)
    requires |cftab| == 257 && indx < |s| && forall c: nat :: c <= 256 ==> cftab[c] == Below(s, c)
    ensures nb == s[Threads(s)[indx]]
  {
    var lo, na := 0, 256;
    BelowAll(s, 256);
    while true
      invariant 0 <= lo < na <= 256 && cftab[lo] <= indx < cftab[na]
      decreases na - lo
    {
      if na - lo == 1 { break; }
      var mid := (lo + na) / 2;
      if indx >= cftab[mid] { lo := mid; } else { na := mid; }
    }
    nb := lo;
    ThreadAt(s, nb, indx - Below(s, nb), 256);
    PlaceIs(s, nb, indx - Below(s, nb));
  }
}
