/** The decoder's move-to-front list (decompress.c): 256 entries kept as 16 segments
    of 16 that float inside one array of 4096, so that moving an entry to the front
    shifts at most one segment and one entry of each segment before it. */
module TwoLevelList {
  import opened Basics
  import opened MoveToFront

  const MTFA_SIZE: nat := 4096
  const MTFL_SIZE: nat := 16

  /** From its offset `from` on, segment k of the list l lies at a[base..]. */
  ghost predicate Cells(a: seq<nat>, base: int, l: seq<nat>, k: int, from: int)
    requires |a| == MTFA_SIZE && |l| == 256 && 0 <= k < 16 && 0 <= base <= MTFA_SIZE - MTFL_SIZE && 0 <= from
  {
    forall i :: base + from <= i < base + 16 ==> a[i] == l[16 * k + i - base]
  }

  /** The segments lie in order without overlapping. */
  ghost predicate Apart(bases: seq<nat>) {
    && |bases| == 16
    && (forall k :: 0 <= k < 16 ==> bases[k] <= MTFA_SIZE - MTFL_SIZE)
    && forall j, k :: 0 <= j < k < 16 ==> bases[j] + MTFL_SIZE * (k - j) <= bases[k]
  }

  /** a and bases represent the flat list l. */
  ghost predicate Represents(a: seq<nat>, bases: seq<nat>, l: seq<nat>) {
    && |a| == MTFA_SIZE && |l| == 256
    && Apart(bases)
    && forall k :: 0 <= k < 16 ==> Cells(a, bases[k], l, k, 0)
  }

  /** The bases once every segment before s has moved down one cell. */
  function MovedBases(bs: seq<nat>, s: nat): (r: seq<nat>)
    requires |bs| == 16 && s < 16 && forall k :: 0 <= k < s ==> bs[k] > 0
    ensures |r| == 16
  {
    seq(16, k requires 0 <= k < 16 => if k < s then bs[k] - 1 else bs[k])
  }

  /** The general case when segment m is next: the segments after m hold the new list f,
      segment m does but for its first entry, the earlier ones still hold l. */
  ghost predicate Shifting(a: seq<nat>, bs: seq<nat>, l: seq<nat>, f: seq<nat>, s: nat, m: nat) {
    && |a| == MTFA_SIZE && |l| == |f| == 256
    && Apart(bs) && bs[0] > 0
    && m <= s < 16 && (forall k :: 0 <= k < s ==> bs[k] > 0)
    && (forall k :: 0 <= k < m ==> Cells(a, bs[k], l, k, 0))
    && Cells(a, MovedBases(bs, s)[m], f, m, 1)
    && (forall k :: m < k < 16 ==> Cells(a, MovedBases(bs, s)[k], f, k, 0))
  }

  lemma FrontAt(l: seq<nat>, nn: nat, i: nat)
    requires nn < |l| && i < |l|
    ensures Front(l, nn)[i] == if i == 0 then l[nn] else if i <= nn then l[i - 1] else l[i]
  {}

  /** The last entry of segment m - 1 becomes the first of segment m. */
  lemma ShiftStep(a: seq<nat>, bs: seq<nat>, l: seq<nat>, nn: nat, s: nat, m: nat)
    requires nn < 256 == |l| && s == nn / 16 && 0 < m
    requires Shifting(a, bs, l, Front(l, nn), s, m)
    ensures Shifting(a[MovedBases(bs, s)[m] := a[bs[m - 1] + 15]], bs, l, Front(l, nn), s, m - 1)
  {
    var f, nb := Front(l, nn), MovedBases(bs, s);
    var v := a[bs[m - 1] + 15];
    var c := a[nb[m] := v];
    FirstFilled(a, bs, l, nn, s, m);
    forall k | m < k < 16 ensures Cells(c, nb[k], f, k, 0) {
      assert Cells(a, nb[k], f, k, 0);
      assert bs[m] + 16 * (k - m) <= bs[k];
    }
    forall k | 0 <= k < m - 1 ensures Cells(c, bs[k], l, k, 0) {
      assert Cells(a, bs[k], l, k, 0);
      assert bs[k] + 16 * (m - k) <= bs[m];
    }
  }

  lemma FirstFilled(a: seq<nat>, bs: seq<nat>, l: seq<nat>, nn: nat, s: nat, m: nat)
    requires nn < 256 == |l| && s == nn / 16 && 0 < m
    requires Shifting(a, bs, l, Front(l, nn), s, m)
    ensures var c := a[MovedBases(bs, s)[m] := a[bs[m - 1] + 15]];
      && Cells(c, MovedBases(bs, s)[m], Front(l, nn), m, 0)
      && Cells(c, MovedBases(bs, s)[m - 1], Front(l, nn), m - 1, 1)
  {
    var f, nb := Front(l, nn), MovedBases(bs, s);
    var v := a[bs[m - 1] + 15];
    var c := a[nb[m] := v];
    assert bs[m - 1] + 16 * (m - (m - 1)) <= bs[m];
    assert Cells(a, bs[m - 1], l, m - 1, 0);
    FrontAt(l, nn, 16 * m);
    forall i | nb[m - 1] + 1 <= i < nb[m - 1] + 16 ensures c[i] == f[16 * (m - 1) + i - nb[m - 1]] {
      FrontAt(l, nn, 16 * (m - 1) + i - nb[m - 1]);
      assert a[i] == l[16 * (m - 1) + i - bs[m - 1]];
    }
  }

  /** The first segment receives the moved entry. */
  lemma ShiftEnds(a: seq<nat>, bs: seq<nat>, l: seq<nat>, nn: nat, s: nat)
    requires nn < 256 == |l| && s == nn / 16 && 0 < s
    requires Shifting(a, bs, l, Front(l, nn), s, 0)
    ensures Represents(a[MovedBases(bs, s)[0] := l[nn]], MovedBases(bs, s), Front(l, nn))
  {
    var f, nb := Front(l, nn), MovedBases(bs, s);
    var c := a[nb[0] := l[nn]];
    forall j, k | 0 <= j < k < 16 ensures nb[j] + MTFL_SIZE * (k - j) <= nb[k] {
      assert bs[j] + MTFL_SIZE * (k - j) <= bs[k];
    }
    forall k | 0 <= k < 16 ensures Cells(c, nb[k], f, k, 0) {
      if k > 0 {
        assert Cells(a, nb[k], f, k, 0);
        assert bs[0] + MTFL_SIZE * (k - 0) <= bs[k];
      }
    }
  }

  /** Cell i once the entries at p .. p+off-1 have moved up one cell. */
  function MovedUp(a: seq<nat>, p: nat, off: nat, i: nat): nat
    requires i < |a|
  {
    if p < i <= p + off then a[i - 1] else a[i]
  }

  /** Segment s after its entries up to off have moved up one cell. */
  lemma ShiftStarts(a: seq<nat>, c: seq<nat>, bs: seq<nat>, l: seq<nat>, nn: nat, s: nat, off: nat)
    requires nn < 256 && s == nn / 16 && off == nn % 16 && Represents(a, bs, l) && bs[0] > 0
    requires |c| == |a| && forall i :: 0 <= i < |a| ==> c[i] == MovedUp(a, bs[s], off, i)
    ensures Shifting(c, bs, l, Front(l, nn), s, s)
  {
    var f := Front(l, nn);
    forall k | 0 <= k < s ensures bs[k] > 0 { assert k > 0 ==> bs[0] + MTFL_SIZE * (k - 0) <= bs[k]; }
    var nb := MovedBases(bs, s);
    forall k | 0 <= k < s ensures Cells(c, bs[k], l, k, 0) {
      assert Cells(a, bs[k], l, k, 0);
      assert bs[k] + MTFL_SIZE * (s - k) <= bs[s];
    }
    forall k | s < k < 16 ensures Cells(c, nb[k], f, k, 0) {
      assert Cells(a, bs[k], l, k, 0);
      assert bs[s] + MTFL_SIZE * (k - s) <= bs[k];
      forall i | nb[k] <= i < nb[k] + 16 ensures c[i] == f[16 * k + i - nb[k]] {
        FrontAt(l, nn, 16 * k + i - nb[k]);
      }
    }
    assert Cells(a, bs[s], l, s, 0);
    forall i | nb[s] + 1 <= i < nb[s] + 16 ensures c[i] == f[16 * s + i - nb[s]] {
      FrontAt(l, nn, 16 * s + i - nb[s]);
      if i <= bs[s] + off { assert a[i - 1] == l[16 * s + (i - 1) - bs[s]]; }
    }
  }

  // ---------- the fast case ----------

  /** A move within the first segment. */
  lemma FirstSegment(a: seq<nat>, c: seq<nat>, bs: seq<nat>, l: seq<nat>, nn: nat)
    requires nn < 16 && Represents(a, bs, l)
    requires |c| == |a| && c[bs[0]] == a[bs[0] + nn]
    requires forall i :: 0 <= i < |a| && i != bs[0] ==> c[i] == MovedUp(a, bs[0], nn, i)
    ensures Represents(c, bs, Front(l, nn))
  {
    var f := Front(l, nn);
    forall k | 0 <= k < 16 ensures Cells(c, bs[k], f, k, 0) {
      assert Cells(a, bs[k], l, k, 0);
      assert k > 0 ==> bs[0] + MTFL_SIZE * (k - 0) <= bs[k];
      forall i | bs[k] <= i < bs[k] + 16 ensures c[i] == f[16 * k + i - bs[k]] {
        FrontAt(l, nn, 16 * k + i - bs[k]);
        if k == 0 && bs[0] < i <= bs[0] + nn { assert a[i - 1] == l[16 * k + (i - 1) - bs[0]]; }
      }
    }
  }

  // ---------- repacking ----------

  /** Copying the segments to the top of the array has dealt with the entries from t on:
      entry t of the list now lies at cell t + 3840. */
  ghost predicate Repacking(a: seq<nat>, bs: seq<nat>, l: seq<nat>, t: nat) {
    && |a| == MTFA_SIZE && |l| == 256 && Apart(bs) && t <= 256
    && (forall i :: t + 3840 <= i < MTFA_SIZE ==> a[i] == l[i - 3840])
    && forall k :: 0 <= k < 16 ==> Unmoved(a, bs[k], l, k, t)
  }

  ghost predicate Unmoved(a: seq<nat>, base: nat, l: seq<nat>, k: nat, t: nat)
    requires |a| == MTFA_SIZE && |l| == 256 && k < 16 && base <= MTFA_SIZE - MTFL_SIZE
  {
    forall i :: base <= i < base + 16 && 16 * k + i - base < t ==> a[i] == l[16 * k + i - base]
  }

  lemma RepackStep(a: seq<nat>, bs: seq<nat>, l: seq<nat>, ii: nat, jj: nat)
    requires ii < 16 && jj < 16 && Repacking(a, bs, l, 16 * ii + jj + 1)
    ensures Repacking(a[3840 + 16 * ii + jj := a[bs[ii] + jj]], bs, l, 16 * ii + jj)
  {
    var t := 16 * ii + jj;
    var c := a[3840 + t := a[bs[ii] + jj]];
    assert ii < 15 ==> bs[ii] + MTFL_SIZE * (15 - ii) <= bs[15];
    assert bs[ii] <= 3840 + 16 * ii;
    assert Unmoved(a, bs[ii], l, ii, t + 1);
    forall k | 0 <= k < 16 ensures Unmoved(c, bs[k], l, k, t) {
      assert Unmoved(a, bs[k], l, k, t + 1);
      assert k < ii ==> bs[k] + MTFL_SIZE * (ii - k) <= bs[ii];
    }
  }

  class MtfDecoder {
    const mtfa: array<nat>
    const mtfbase: array<nat>

    ghost predicate Valid(l: seq<nat>)
      reads this, mtfa, mtfbase
    {
      mtfa != mtfbase && mtfa.Length == MTFA_SIZE && mtfbase.Length == 16
      && Represents(mtfa[..], mtfbase[..], l) && mtfbase[0] > 0
    }

    /** Starts with the list 0, 1, .., 255 at the top of the array. */
    constructor ()
      ensures Valid(Upto(256)) && fresh(mtfa) && fresh(mtfbase)
    {
      mtfa := new nat[MTFA_SIZE];
      mtfbase := new nat[16];
      new;
      var kk: int := MTFA_SIZE - 1;
      var ii: int := 15;
      while ii >= 0
        invariant -1 <= ii <= 15 && kk == 3840 + 16 * (ii + 1) - 1
        invariant forall k :: ii < k < 16 ==> mtfbase[k] == 3840 + 16 * k
        invariant forall i :: kk < i < MTFA_SIZE ==> mtfa[i] == i - 3840
      {
        var jj: int := 15;
        while jj >= 0
          invariant -1 <= jj <= 15 && kk == 3840 + 16 * ii + jj
          invariant forall i :: kk < i < MTFA_SIZE ==> mtfa[i] == i - 3840
          modifies mtfa
        {
          mtfa[kk] := ii * MTFL_SIZE + jj;
          kk := kk - 1;
          jj := jj - 1;
        }
        mtfbase[ii] := kk + 1;
        ii := ii - 1;
      }
    }

    /** Moves entry nn to the front and returns it. */
    method MoveToFront(nn: nat, ghost l: seq<nat>) returns (uc: nat)
      requires Valid(l) && nn < 256
      modifies mtfa, mtfbase
      ensures uc == l[nn] && Valid(Front(l, nn))
    {
      if nn < MTFL_SIZE {
        uc := MoveInFirst(nn, l);
      } else {
        uc := MoveAcross(nn, l);
        if mtfbase[0] == 0 { Repack(Front(l, nn)); }
      }
    }

    /** Four cells, the last one z, take over the entries before them. */
    method ShiftFour(z: nat)
      requires 4 <= z < mtfa.Length
      modifies mtfa
      ensures forall i :: 0 <= i < mtfa.Length ==> mtfa[i] == old(mtfa[if z - 4 < i <= z then i - 1 else i])
    {
      mtfa[z] := mtfa[z - 1];
      mtfa[z - 1] := mtfa[z - 2];
      mtfa[z - 2] := mtfa[z - 3];
      mtfa[z - 3] := mtfa[z - 4];
    }

    method MoveInFirst(nn0: nat, ghost l: seq<nat>) returns (uc: nat)
      requires Valid(l) && nn0 < 16
      modifies mtfa
      ensures uc == l[nn0] && Valid(Front(l, nn0))
    {
      ghost var a := mtfa[..];
      assert Cells(a, mtfbase[0], l, 0, 0);
      var pp := mtfbase[0];
      var nn := nn0;
      uc := mtfa[pp + nn];
      while nn > 3
        invariant nn <= nn0
        invariant forall i :: 0 <= i < MTFA_SIZE ==>
          mtfa[i] == if pp + nn < i then MovedUp(a, pp, nn0, i) else a[i]
      {
        ShiftFour(pp + nn);
        nn := nn - 4;
      }
      while nn > 0
        invariant nn <= nn0
        invariant forall i :: 0 <= i < MTFA_SIZE ==>
          mtfa[i] == if pp + nn < i then MovedUp(a, pp, nn0, i) else a[i]
      {
        mtfa[pp + nn] := mtfa[pp + nn - 1];
        nn := nn - 1;
      }
      mtfa[pp] := uc;
      FirstSegment(a, mtfa[..], mtfbase[..], l, nn0);
    }

    method MoveAcross(nn: nat, ghost l: seq<nat>) returns (uc: nat)
      requires Valid(l) && 16 <= nn < 256
      modifies mtfa, mtfbase
      ensures uc == l[nn] && mtfa != mtfbase && mtfa.Length == MTFA_SIZE && mtfbase.Length == 16
      ensures Represents(mtfa[..], mtfbase[..], Front(l, nn))
    {
      ghost var bs := mtfbase[..];
      var lno := nn / MTFL_SIZE;
      uc := ShiftWithin(lno, nn % MTFL_SIZE, nn, l);
      ShiftAcross(lno, nn, l, bs);
      mtfbase[0] := mtfbase[0] - 1;
      ShiftEnds(mtfa[..], bs, l, nn, lno);
      ghost var c := mtfa[..];
      mtfa[mtfbase[0]] := uc;
      assert mtfa[..] == c[MovedBases(bs, lno)[0] := uc];
      assert mtfbase[..] == MovedBases(bs, lno);
    }

    /** Takes the entry out of its segment; those before it move up one cell. */
    method ShiftWithin(s: nat, off: nat, ghost nn: nat, ghost l: seq<nat>) returns (uc: nat)
      requires Valid(l) && nn < 256 && s == nn / 16 && off == nn % 16
      modifies mtfa
      ensures uc == l[nn] && Shifting(mtfa[..], mtfbase[..], l, Front(l, nn), s, s)
    {
      ghost var a := mtfa[..];
      assert Cells(a, mtfbase[s], l, s, 0);
      var pp := mtfbase[s] + off;
      uc := mtfa[pp];
      while pp > mtfbase[s]
        invariant mtfbase[s] <= pp <= mtfbase[s] + off
        invariant forall i :: 0 <= i < MTFA_SIZE ==> mtfa[i] == if pp < i then MovedUp(a, mtfbase[s], off, i) else a[i]
      {
        mtfa[pp] := mtfa[pp - 1];
        pp := pp - 1;
      }
      ShiftStarts(a, mtfa[..], mtfbase[..], l, nn, s, off);
    }

    /** The bases while segment lno is next. */
    ghost predicate BasesAt(bs: seq<nat>, s: nat, lno: nat)
      requires |bs| == 16 && s < 16 && forall k :: 0 <= k < s ==> bs[k] > 0
      reads mtfbase
    {
      mtfbase.Length == 16 && forall k :: 0 <= k < 16 ==> mtfbase[k] == BaseOf(bs, s, lno, k)
    }

    static function BaseOf(bs: seq<nat>, s: nat, lno: nat, k: nat): nat
      requires |bs| == 16 && s < 16 && k < 16 && forall k :: 0 <= k < s ==> bs[k] > 0
    {
      if k < lno then bs[k] else if k == lno then MovedBases(bs, s)[k] + 1 else MovedBases(bs, s)[k]
    }

    /** The entry in front. */
    method Head(ghost l: seq<nat>) returns (uc: nat)
      requires Valid(l)
      ensures uc == l[0]
    {
      assert Cells(mtfa[..], mtfbase[0], l, 0, 0);
      uc := mtfa[mtfbase[0]];
    }

    /** Moves every earlier segment down one cell, passing its last entry on. */
    method ShiftAcross(s: nat, ghost nn: nat, ghost l: seq<nat>, ghost bs: seq<nat>)
      requires mtfa != mtfbase && mtfa.Length == MTFA_SIZE && mtfbase.Length == 16 && bs == mtfbase[..]
      requires nn < 256 == |l| && s == nn / 16 && Shifting(mtfa[..], bs, l, Front(l, nn), s, s)
      modifies mtfa, mtfbase
      ensures Shifting(mtfa[..], bs, l, Front(l, nn), s, 0) && BasesAt(bs, s, 0)
    {
      mtfbase[s] := mtfbase[s] + 1;
      var lno := s;
      while lno > 0
        invariant lno <= s && Shifting(mtfa[..], bs, l, Front(l, nn), s, lno) && BasesAt(bs, s, lno)
      {
        ghost var a := mtfa[..];
        ShiftStep(a, bs, l, nn, s, lno);
        mtfbase[lno] := mtfbase[lno] - 1;
        mtfa[mtfbase[lno]] := mtfa[mtfbase[lno - 1] + MTFL_SIZE - 1];
        assert mtfa[..] == a[MovedBases(bs, s)[lno] := a[bs[lno - 1] + 15]];
        lno := lno - 1;
      }
    }

    /** Moves all segments back to the top of the array. */
    method Repack(ghost l: seq<nat>)
      requires mtfa != mtfbase && mtfa.Length == MTFA_SIZE && mtfbase.Length == 16
      requires Represents(mtfa[..], mtfbase[..], l)
      modifies mtfa, mtfbase
      ensures Valid(l)
    {
      ghost var bs := mtfbase[..];
      forall k | 0 <= k < 16 ensures Unmoved(mtfa[..], bs[k], l, k, 256) { assert Cells(mtfa[..], bs[k], l, k, 0); }
      var kk: int := MTFA_SIZE - 1;
      var ii: int := 15;
      while ii >= 0
        invariant -1 <= ii <= 15 && kk == 3840 + 16 * (ii + 1) - 1
        invariant forall k :: 0 <= k <= ii ==> mtfbase[k] == bs[k]
        invariant forall k :: ii < k < 16 ==> mtfbase[k] == 3840 + 16 * k
        invariant Repacking(mtfa[..], bs, l, 16 * (ii + 1))
      {
        var jj: int := 15;
        while jj >= 0
          invariant -1 <= jj <= 15 && kk == 3840 + 16 * ii + jj
          invariant Repacking(mtfa[..], bs, l, 16 * ii + jj + 1)
          modifies mtfa
        {
          RepackStep(mtfa[..], bs, l, ii, jj);
          ghost var c := mtfa[..];
          mtfa[kk] := mtfa[mtfbase[ii] + jj];
          assert mtfa[..] == c[3840 + 16 * ii + jj := c[bs[ii] + jj]];
          kk := kk - 1;
          jj := jj - 1;
        }
        mtfbase[ii] := kk + 1;
        ii := ii - 1;
      }
      forall k | 0 <= k < 16 ensures Cells(mtfa[..], mtfbase[k], l, k, 0) {}
    }
  }
}
