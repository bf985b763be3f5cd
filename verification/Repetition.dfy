/** A block has equal rotations exactly when it is a shorter one over and over. */
module Repetition {
  import opened Basics
  import opened Arithmetic
  import opened Rotations

  /** The block is its first k bytes over and over. */
  ghost predicate RepeatsWith(b: seq<Byte>, k: nat) {
    0 < k < |b| && |b| % k == 0 && forall i: nat :: i + k < |b| ==> SameAfter(b, k, i)
  }

  ghost predicate SameAfter(b: seq<Byte>, k: nat, i: nat)
    requires i + k < |b|
  {
    b[i + k] == b[i]
  }

  ghost predicate Repeats(b: seq<Byte>) { exists k: nat :: RepeatsWith(b, k) }

  // ---------- equal rotations make a repetition ----------

  /** Turning the block by d places changes nothing. */
  ghost predicate Turns(b: seq<Byte>, d: nat)
    requires |b| > 0
  {
    forall i: nat :: TurnsAt(b, d, i)
  }

  ghost predicate TurnsAt(b: seq<Byte>, d: nat, i: nat)
    requires |b| > 0
  {
    At(b, i + d) == At(b, i)
  }

  lemma TurnsWhole(b: seq<Byte>)
    requires |b| > 0
    ensures Turns(b, |b|)
  {
    forall i: nat ensures TurnsAt(b, |b|, i) {}
  }

  lemma TurnsByLess(b: seq<Byte>, d: nat, e: nat)
    requires |b| > 0 && Turns(b, d) && Turns(b, e) && d <= e
    ensures Turns(b, e - d)
  {
    var less := e - d;
    forall i: nat ensures TurnsAt(b, less, i) { assert TurnsAt(b, e, i) && TurnsAt(b, d, i + less); }
  }

  lemma EqualTurns(b: seq<Byte>, p: nat, q: nat)
    requires p < q < |b| && Cmp(b, p, q, |b|) == 0
    ensures Turns(b, q - p)
  {
    var d := q - p;
    forall i: nat ensures TurnsAt(b, d, i) {
      var k := i + |b| - p;
      EqualForEver(b, p, q, k + 1);
      CmpZeroAt(b, p, q, k + 1, k);
      assert p + k == i + |b| && q + k == i + d + |b|;
    }
  }

  /** By how much a block can be turned, the greatest common divisor included. */
  lemma {:induction false} TurnsByDivisor(b: seq<Byte>, x: nat, y: nat) returns (k: nat, cx: nat, cy: nat)
    requires |b| > 0 && 0 < x && 0 < y && Turns(b, x) && Turns(b, y)
    ensures 0 < k && Turns(b, k) && x == cx * k && y == cy * k && cx > 0 && cy > 0
    decreases x + y
  {
    if x == y {
      k, cx, cy := x, 1, 1;
    } else if x < y {
      TurnsByLess(b, x, y);
      k, cx, cy := TurnsByDivisor(b, x, y - x);
      cy := cx + cy;
    } else {
      TurnsByLess(b, y, x);
      k, cx, cy := TurnsByDivisor(b, x - y, y);
      cx := cx + cy;
    }
  }

  lemma EqualIsRepetition(b: seq<Byte>, p: nat, q: nat)
    requires p < q < |b| && Cmp(b, p, q, |b|) == 0
    ensures Repeats(b)
  {
    EqualTurns(b, p, q);
    TurnsWhole(b);
    var k, cx, cy := TurnsByDivisor(b, q - p, |b|);
    assert k <= q - p by { assert cx * k >= k; }
    DivUnique(|b|, k, cy, 0);
    forall i: nat | i + k < |b| ensures SameAfter(b, k, i) { assert TurnsAt(b, k, i); }
    assert RepeatsWith(b, k);
  }

  // ---------- a repetition has equal rotations ----------

  lemma {:induction false} SameAfterMore(b: seq<Byte>, k: nat, i: nat, c: nat)
    requires RepeatsWith(b, k) && i + c * k < |b|
    ensures b[i + c * k] == b[i]
    decreases c
  {
    if c > 0 {
      assert i + c * k == i + (c - 1) * k + k;
      SameAfterMore(b, k, i, c - 1);
      assert SameAfter(b, k, i + (c - 1) * k);
    }
  }

  lemma RepetitionIsEqual(b: seq<Byte>, k: nat)
    requires RepeatsWith(b, k)
    ensures Cmp(b, 0, k, |b|) == 0
  {
    var n, m := |b|, |b| / k - 1;
    assert n == (m + 1) * k;
    forall i | 0 <= i < n ensures AgreeAt(b, 0, k, i) {
      if i + k < n {
        assert SameAfter(b, k, i);
      } else {
        assert i + k - n + m * k == i;
        SameAfterMore(b, k, i + k - n, m);
      }
    }
    CmpZero(b, 0, k, n);
  }

  /** A block has two equal rotations if and only if it is a repetition. */
  lemma TiedIffRepeats(b: seq<Byte>)
    ensures (exists p, q :: 0 <= p < q < |b| && Cmp(b, p, q, |b|) == 0) <==> Repeats(b)
  {
    if p, q :| 0 <= p < q < |b| && Cmp(b, p, q, |b|) == 0 { EqualIsRepetition(b, p, q); }
    if Repeats(b) {
      var k: nat :| RepeatsWith(b, k);
      RepetitionIsEqual(b, k);
    }
  }
}
