/** The main sorter gives up on a block that repeats a short one: what the budget is for. */
module GivingUp {
  import opened Basics
  import opened Arithmetic
  import opened Rotations
  import opened MainCompare
  import opened MainSimpleSort
  import opened MainSort
  import opened Repetition

  lemma {:induction false} TurnsOften(b: seq<Byte>, d: nat, j: nat)
    requires |b| > 0 && Turns(b, d)
    ensures Turns(b, j * d)
  {
    if j == 0 {
      forall i: nat ensures TurnsAt(b, 0, i) {}
    } else {
      TurnsOften(b, d, j - 1);
      Distribute(j - 1, 1, d);
      TurnsBoth(b, (j - 1) * d, d, j * d);
    }
  }

  lemma TurnsBoth(b: seq<Byte>, d: nat, e: nat, all: nat)
    requires |b| > 0 && Turns(b, d) && Turns(b, e) && all == d + e
    ensures Turns(b, all)
  {
    forall i: nat ensures TurnsAt(b, all, i) { assert TurnsAt(b, d, i) && TurnsAt(b, e, i + d); }
  }

  lemma TurnedIsEqual(b: seq<Byte>, r: seq<nat>, d: nat, p: nat, q: nat)
    requires AreRanks(b, r) && Turns(b, d) && d < |b| && p < |b| && q == Wrap(|b|, p + d)
    ensures r[p] == r[q]
  {
    var n, on := |b|, p + d;
    forall k: nat | k < n ensures AgreeAt(b, p, on, k) { assert TurnsAt(b, d, p + k); }
    CmpZero(b, p, on, n);
    CmpMod(b, p, q, n);
    CmpAntisym(b, p, q, n);
    assert Ranked(b, r, p, q) && Ranked(b, r, q, p);
  }

  /** Where rotation p comes again. */
  function Again(n: nat, k: nat, p: nat, j: nat): (q: nat)
    requires p < n && j * k < n
    ensures q < n
  {
    Wrap(n, p + j * k)
  }

  lemma AgainDiffers(n: nat, k: nat, p: nat, i: nat, j: nat)
    requires p < n && k > 0 && i < j && j * k < n
    ensures i * k < n && Again(n, k, p, i) != Again(n, k, p, j)
  {
    Monotone(i + 1, j, k);
    Distribute(i, 1, k);
  }

  lemma InRange(n: nat, k: nat, j: nat)
    requires k > 0 && j < n / k
    ensures j * k < n
  {
    Monotone(j + 1, n / k, k);
    Distribute(j, 1, k);
    DivMod(n, k);
  }

  /** A block of so many copies has so many rotations equal to each. */
  lemma ManyEqual(b: seq<Byte>, r: seq<nat>, k: nat, p: nat)
    requires AreRanks(b, r) && RepeatsWith(b, k) && p < |b|
    ensures |Equals(b, r, p)| >= |b| / k
  {
    var n := |b|;
    RepetitionIsEqual(b, k);
    EqualTurns(b, 0, k);
    forall j | 0 <= j < n / k ensures j * k < n { InRange(n, k, j); }
    var places := seq(n / k, j requires 0 <= j < n / k => Again(n, k, p, j));
    forall i, j | 0 <= i < j < n / k ensures Differ(places, i, j) { AgainDiffers(n, k, p, i, j); }
    forall j: nat | j < n / k ensures places[j] in Equals(b, r, p) {
      TurnsOften(b, k, j);
      TurnedIsEqual(b, r, j * k, p, places[j]);
    }
    InjectiveSize(places);
    assert Elements(places) <= Equals(b, r, p);
    SubsetSize(Elements(places), Equals(b, r, p));
  }

  lemma RoundsAddUp(n: nat, e: nat, budget: int)
    requires e >= 264 && budget <= 33 * n
    ensures budget < Rounds(n) * e
  {
    Monotone(264, e, Rounds(n));
    assert 8 * (n / 8) > n - 8;
  }

  /** On 265 copies of a shorter block no work factor gives the main sorter budget enough. */
  lemma RepetitionIsTooMuch(b: seq<Byte>, k: nat, budget: int)
    requires RepeatsWith(b, k) && |b| / k >= 265 && budget <= 33 * |b|
    ensures AllTooMany(b, budget)
  {
    RanksExist(b);
    forall p: nat | p < |b| ensures TooMany(b, Ranks(b), budget, p) {
      ManyEqual(b, Ranks(b), k, p);
      RoundsAddUp(|b|, Extra(Equals(b, Ranks(b), p)), budget);
    }
  }
}
