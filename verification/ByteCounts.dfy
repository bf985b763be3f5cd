/** Where each byte occurs in a sequence, and how many bytes are smaller: the
    cumulative tables (ftab, cftab) that both ends of bzip2 build by counting. */
module ByteCounts {
  import opened Basics

  /** The positions of byte c in s, in increasing order. */
  function Places(s: seq<Byte>, c: Byte): seq<nat> {
    if s == [] then []
    else
      var m := |s| - 1;
      var t := Places(s[..m], c);
      if s[m] == c then t + [m] else t
  }

  /** How many bytes of s are smaller than c. */
  function Below(s: seq<Byte>, c: nat): nat
    requires c <= 256
  {
    if c == 0 then 0 else Below(s, c - 1) + |Places(s, c - 1)|
  }

  // ---------- places ----------

  lemma {:induction false} PlaceIs(s: seq<Byte>, c: Byte, a: nat)
    requires a < |Places(s, c)|
    ensures Places(s, c)[a] < |s| && s[Places(s, c)[a]] == c
  {
    var t := s[..|s| - 1];
    if a < |Places(t, c)| { PlaceIs(t, c, a); }
  }

  lemma PlacesInRange(s: seq<Byte>, c: Byte)
    ensures forall a :: 0 <= a < |Places(s, c)| ==> Places(s, c)[a] < |s|
  {
    forall a | 0 <= a < |Places(s, c)| ensures Places(s, c)[a] < |s| { PlaceIs(s, c, a); }
  }

  lemma {:induction false} PlaceOf(s: seq<Byte>, i: nat) returns (a: nat)
    requires i < |s|
    ensures a < |Places(s, s[i])| && Places(s, s[i])[a] == i
  {
    var t := s[..|s| - 1];
    if i < |t| {
      a := PlaceOf(t, i);
    } else {
      a := |Places(t, s[i])|;
    }
  }

  lemma {:induction false} PlacesIncrease(s: seq<Byte>, c: Byte, u: nat, v: nat)
    requires u < v < |Places(s, c)|
    ensures Places(s, c)[u] < Places(s, c)[v]
  {
    var t := s[..|s| - 1];
    if v < |Places(t, c)| {
      PlacesIncrease(t, c, u, v);
    } else {
      PlaceIs(t, c, u);
    }
  }

  // ---------- counting ----------

  lemma {:induction false} BelowSnoc(s: seq<Byte>, c: nat)
    requires s != [] && c <= 256
    ensures Below(s, c) == Below(s[..|s| - 1], c) + (if s[|s| - 1] < c then 1 else 0)
  {
    if c > 0 { BelowSnoc(s, c - 1); }
  }

  lemma {:induction false} BelowAll(s: seq<Byte>, c: nat)
    requires c <= 256 && forall i :: 0 <= i < |s| ==> s[i] < c
    ensures Below(s, c) == |s|
  {
    if s == [] {
      BelowNothing(c);
    } else {
      BelowSnoc(s, c);
      BelowAll(s[..|s| - 1], c);
    }
  }

  lemma {:induction false} BelowNothing(c: nat)
    requires c <= 256
    ensures Below([], c) == 0
  {
    if c > 0 { BelowNothing(c - 1); }
  }

  lemma {:induction false} BelowMonotone(s: seq<Byte>, c: nat, d: nat)
    requires c <= d <= 256
    ensures Below(s, c) <= Below(s, d)
  {
    if c < d { BelowMonotone(s, c, d - 1); }
  }

  /** In a sorted sequence each byte occupies one contiguous stretch. */
  lemma {:induction false} SortedPlaces(f: seq<Byte>, c: Byte, a: nat)
    requires forall i, j :: 0 <= i < j < |f| ==> f[i] <= f[j]
    requires a < |Places(f, c)|
    ensures Places(f, c)[a] == Below(f, c) + a
  {
    var m := |f| - 1;
    var g := f[..m];
    BelowSnoc(f, c);
    if a < |Places(g, c)| {
      SortedPlaces(g, c, a);
      PlaceIs(g, c, a);
      assert c <= f[m];
    } else {
      assert f[m] == c;
      BelowAll(g, c + 1);
    }
  }
}
