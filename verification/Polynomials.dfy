/** Polynomials over the two-element field, as the numbers whose bits are their coefficients:
    their sum is the exclusive or, and dividing by one of them leaves one remainder. */
module Polynomials {
  import opened Basics
  import opened Bits

  /** Exclusive or, bit by bit. */
  function Xor(a: nat, b: nat): nat
    decreases a + b, a, b
  {
    if a == 0 && b == 0 then 0 else 2 * Xor(a / 2, b / 2) + (if a % 2 == b % 2 then 0 else 1)
  }

  /** The coefficient of x to the power k. */
  predicate Bit(v: nat, k: nat)
    decreases k, v
  {
    if k == 0 then v % 2 == 1 else Bit(v / 2, k - 1)
  }

  lemma XorStep(a: nat, b: nat)
    ensures Xor(a, b) / 2 == Xor(a / 2, b / 2)
    ensures Xor(a, b) % 2 == if a % 2 == b % 2 then 0 else 1
  {
    if a == 0 && b == 0 {
      assert Xor(0, 0) == 0;
    } else {
      Appended(Xor(a / 2, b / 2), a % 2 == b % 2);
    }
  }

  lemma Appended(x: nat, even: bool)
    ensures (2 * x + if even then 0 else 1) / 2 == x
    ensures (2 * x + if even then 0 else 1) % 2 == if even then 0 else 1
  {}

  lemma {:induction false} XorBit(a: nat, b: nat, k: nat)
    ensures Bit(Xor(a, b), k) <==> Bit(a, k) != Bit(b, k)
    decreases k
  {
    XorStep(a, b);
    if k > 0 { XorBit(a / 2, b / 2, k - 1); }
  }

  lemma {:induction false} XorComm(a: nat, b: nat)
    ensures Xor(a, b) == Xor(b, a)
    decreases a + b
  {
    if a != 0 || b != 0 { XorComm(a / 2, b / 2); }
  }

  lemma {:induction false} XorZero(a: nat)
    ensures Xor(a, 0) == a && Xor(0, a) == a
  {
    if a != 0 { XorZero(a / 2); }
  }

  lemma {:induction false} XorAssoc(a: nat, b: nat, c: nat)
    ensures Xor(Xor(a, b), c) == Xor(a, Xor(b, c))
    decreases a + b + c
  {
    if a != 0 || b != 0 || c != 0 {
      XorAssoc(a / 2, b / 2, c / 2);
      XorStep(a, b);
      XorStep(b, c);
      XorStep(Xor(a, b), c);
      XorStep(a, Xor(b, c));
    }
  }

  lemma {:induction false} XorNone(a: nat, b: nat)
    ensures Xor(a, b) == 0 <==> a == b
    decreases a + b
  {
    if a != 0 || b != 0 {
      XorStep(a, b);
      XorNone(a / 2, b / 2);
    }
  }

  /** Adding b twice leaves a. */
  lemma XorTwice(a: nat, b: nat)
    ensures Xor(Xor(a, b), b) == a
  {
    XorAssoc(a, b, b);
    XorNone(b, b);
    XorZero(a);
  }

  /** (a + b) + (c + d) == (a + c) + (b + d). */
  lemma XorSwap(a: nat, b: nat, c: nat, d: nat)
    ensures Xor(Xor(a, b), Xor(c, d)) == Xor(Xor(a, c), Xor(b, d))
  {
    XorAssoc(a, b, Xor(c, d));
    XorAssoc(b, c, d);
    XorComm(b, c);
    XorAssoc(c, b, d);
    XorAssoc(a, c, Xor(b, d));
  }

  /** (a + e) + (b + e) == a + b. */
  lemma XorCancel(a: nat, b: nat, e: nat)
    ensures Xor(Xor(a, e), Xor(b, e)) == Xor(a, b)
  {
    XorSwap(a, e, b, e);
    XorNone(e, e);
    XorZero(Xor(a, b));
  }

  /** Adding the same is undone by adding it again, so that nothing is lost. */
  lemma XorInjective(a: nat, b: nat, e: nat)
    ensures Xor(a, e) == Xor(b, e) <==> a == b
  {
    XorTwice(a, e);
    XorTwice(b, e);
  }

  lemma XorDouble(a: nat, b: nat)
    ensures Xor(2 * a, 2 * b) == 2 * Xor(a, b)
  {
    XorStep(2 * a, 2 * b);
  }

  lemma {:induction false} XorShl(a: nat, b: nat, k: nat)
    ensures Xor(Shl(a, k), Shl(b, k)) == Shl(Xor(a, b), k)
  {
    if k > 0 {
      XorShl(a, b, k - 1);
      XorDouble(Shl(a, k - 1), Shl(b, k - 1));
    }
  }

  /** Bits put behind others are added to them. */
  lemma {:induction false} XorBelow(a: nat, b: nat, k: nat)
    requires b < Pow2(k)
    ensures Xor(Shl(a, k), b) == Shl(a, k) + b
  {
    if k == 0 {
      XorZero(a);
    } else {
      XorStep(Shl(a, k), b);
      XorBelow(a, b / 2, k - 1);
    }
  }

  /** s and t end with the same k bits. */
  lemma XorSameTail(s: nat, t: nat, v: nat, w: nat, b: nat, k: nat)
    requires s == Shl(v, k) + b && t == Shl(w, k) + b && b < Pow2(k)
    ensures Xor(s, t) == Shl(Xor(v, w), k)
  {
    XorBelow(v, b, k);
    XorBelow(w, b, k);
    XorCancel(Shl(v, k), Shl(w, k), b);
    XorShl(v, w, k);
  }

  /** s and t differ only in the last k bits. */
  lemma XorSameHead(s: nat, t: nat, h: nat, x: nat, y: nat, k: nat)
    requires s == Shl(h, k) + x && t == Shl(h, k) + y && x < Pow2(k) && y < Pow2(k)
    ensures Xor(s, t) == Xor(x, y)
  {
    XorBelow(h, x, k);
    XorBelow(h, y, k);
    XorComm(Shl(h, k), x);
    XorComm(Shl(h, k), y);
    XorCancel(x, y, Shl(h, k));
  }

  lemma {:induction false} XorBound(a: nat, b: nat, k: nat)
    requires a < Pow2(k) && b < Pow2(k)
    ensures Xor(a, b) < Pow2(k)
  {
    if a != 0 || b != 0 { XorBound(a / 2, b / 2, k - 1); }
  }

  /** A leading coefficient is not removed by a polynomial of lower degree. */
  lemma {:induction false} XorLeads(a: nat, b: nat, k: nat)
    requires b < Pow2(k) <= a
    ensures Xor(a, b) >= Pow2(k)
  {
    if k == 0 {
      XorZero(a);
    } else {
      XorStep(a, b);
      XorLeads(a / 2, b / 2, k - 1);
    }
  }

  /** The product of two polynomials. */
  function Product(q: nat, p: nat): nat
    decreases q, p
  {
    if q == 0 then 0 else Xor(2 * Product(q / 2, p), if q % 2 == 1 then p else 0)
  }

  lemma {:induction false} ProductOfSum(q: nat, r: nat, p: nat)
    ensures Product(Xor(q, r), p) == Xor(Product(q, p), Product(r, p))
    decreases q + r
  {
    if q == 0 {
      XorZero(r);
      XorZero(Product(r, p));
    } else if r == 0 {
      XorZero(q);
      XorZero(Product(q, p));
    } else {
      var e, f := if q % 2 == 1 then p else 0, if r % 2 == 1 then p else 0;
      XorStep(q, r);
      ProductOfSum(q / 2, r / 2, p);
      XorDouble(Product(q / 2, p), Product(r / 2, p));
      XorSwap(2 * Product(q / 2, p), e, 2 * Product(r / 2, p), f);
      XorNone(p, p);
      XorZero(p);
      XorNone(0, 0);
      ProductHalves(Xor(q, r), p);
    }
  }

  lemma ProductHalves(q: nat, p: nat)
    ensures Product(q, p) == Xor(2 * Product(q / 2, p), if q % 2 == 1 then p else 0)
  {
    if q == 0 { XorZero(0); }
  }

  lemma ProductDouble(q: nat, p: nat)
    ensures Product(2 * q, p) == 2 * Product(q, p)
  {
    ProductHalves(2 * q, p);
    XorZero(2 * Product(q, p));
  }

  lemma ProductOne(p: nat)
    ensures Product(1, p) == p
  {
    XorZero(p);
  }

  /** A multiple of a polynomial of degree k is 0 or has at least degree k. */
  lemma {:induction false} ProductLeads(q: nat, p: nat, k: nat)
    requires q > 0 && Pow2(k) <= p < Pow2(k + 1)
    ensures Product(q, p) >= Pow2(k)
    decreases q
  {
    if q == 1 {
      ProductOne(p);
    } else {
      ProductLeads(q / 2, p, k);
      XorLeads(2 * Product(q / 2, p), if q % 2 == 1 then p else 0, k + 1);
    }
  }

  /** v is a multiple of p. */
  ghost predicate Divides(p: nat, v: nat) { exists q: nat :: Product(q, p) == v }

  /** v and w leave the same remainder. */
  ghost predicate Congruent(p: nat, v: nat, w: nat) { Divides(p, Xor(v, w)) }

  lemma SumDivides(p: nat, v: nat, w: nat)
    requires Divides(p, v) && Divides(p, w)
    ensures Divides(p, Xor(v, w))
  {
    var q: nat :| Product(q, p) == v;
    var r: nat :| Product(r, p) == w;
    ProductOfSum(q, r, p);
  }

  lemma CongruentTrans(p: nat, u: nat, v: nat, w: nat)
    requires Congruent(p, u, v) && Congruent(p, v, w)
    ensures Congruent(p, u, w)
  {
    SumDivides(p, Xor(u, v), Xor(v, w));
    XorComm(v, w);
    XorCancel(u, w, v);
  }

  lemma CongruentSym(p: nat, v: nat, w: nat)
    requires Congruent(p, v, w)
    ensures Congruent(p, w, v)
  {
    XorComm(v, w);
  }

  lemma CongruentSame(p: nat, v: nat)
    ensures Congruent(p, v, v)
  {
    XorNone(v, v);
    assert Product(0, p) == 0;
  }

  /** The same may be added on both sides. */
  lemma CongruentAdd(p: nat, v: nat, w: nat, e: nat)
    requires Congruent(p, v, w)
    ensures Congruent(p, Xor(v, e), Xor(w, e))
  {
    XorCancel(v, w, e);
  }

  lemma {:induction false} CongruentShl(p: nat, v: nat, w: nat, k: nat)
    requires Congruent(p, v, w)
    ensures Congruent(p, Shl(v, k), Shl(w, k))
  {
    if k > 0 {
      CongruentShl(p, v, w, k - 1);
      var d := Xor(Shl(v, k - 1), Shl(w, k - 1));
      var q: nat :| Product(q, p) == d;
      ProductDouble(q, p);
      XorDouble(Shl(v, k - 1), Shl(w, k - 1));
      assert Product(2 * q, p) == 2 * d;
    }
  }

  /** Taking the leading power away and adding the rest of p leaves what p divides out. */
  lemma LeadTakenAway(p: nat, k: nat, v: nat, lo: nat, c: nat)
    requires v == Pow2(k) + lo && p == Pow2(k) + c && lo < Pow2(k) && c < Pow2(k)
    ensures Congruent(p, Xor(lo, c), v)
  {
    ShlOne(k);
    XorBelow(1, lo, k);
    XorBelow(1, c, k);
    XorComm(Pow2(k), lo);
    XorComm(Pow2(k), c);
    XorCancel(lo, c, Pow2(k));
    XorComm(v, p);
    XorTwice(p, v);
    ProductOne(p);
  }

  /** Two polynomials of degree below p's are congruent only if they are the same. */
  lemma RemainderUnique(p: nat, k: nat, r: nat, s: nat)
    requires Pow2(k) <= p < Pow2(k + 1) && r < Pow2(k) && s < Pow2(k)
    requires Congruent(p, r, s)
    ensures r == s
  {
    var q: nat :| Product(q, p) == Xor(r, s);
    XorBound(r, s, k);
    if q > 0 { ProductLeads(q, p, k); }
    XorNone(r, s);
  }

  /** A polynomial with a constant term has no factor x, so that a multiple's factors x can be left out. */
  lemma {:induction false} FactorXLeftOut(p: nat, v: nat, k: nat)
    requires p % 2 == 1 && Divides(p, Shl(v, k))
    ensures Divides(p, v)
    decreases k
  {
    if k > 0 {
      var w := Shl(v, k - 1);
      var q: nat :| Product(q, p) == 2 * w;
      ProductHalves(q, p);
      XorStep(2 * Product(q / 2, p), if q % 2 == 1 then p else 0);
      XorZero(2 * Product(q / 2, p));
      assert Product(q / 2, p) == w;
      FactorXLeftOut(p, v, k - 1);
    }
  }
}
