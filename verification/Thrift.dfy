/** How many bits the symbols of a block take with the tables chosen for it: at most 9.4 each. */
module Thrift {
  import opened Basics
  import opened Arithmetic
  import opened Bits
  import opened Huffman
  import opened BlockFormat
  import opened SymbolFormat
  import opened CheapestCode
  import opened CodeLengths
  import opened CodeTree
  import opened TableChoice

  // ---------- a code of eight bits and four codes of nine ----------

  /** Nine bits for the four symbols from a on, and eight for every other. */
  function Near(n: nat, a: nat): (lens: seq<Byte>)
    ensures |lens| == n
  {
    seq(n, i => if a <= i < a + 4 then 9 else 8)
  }

  /** How many of the first n symbols are among those four. */
  function Nines(n: nat, a: nat): nat { if n <= a then 0 else if n <= a + 4 then n - a else 4 }

  lemma {:induction false} NearKraft(n: nat, a: nat)
    ensures KraftUpTo(Near(n, a), 9, 9) + Nines(n, a) == 2 * n
    decreases n
  {
    if n > 0 {
      NearKraft(n - 1, a);
      assert Near(n, a)[..n - 1] == Near(n - 1, a);
      assert Pow2(0) == 1 && Pow2(1) == 2;
    }
  }

  lemma NearFits(n: nat, a: nat)
    requires n <= 256 || (n <= 258 && a + 4 <= n)
    ensures Fits(Near(n, a), n, 9)
  {
    NearKraft(n, a);
    assert Pow2(9) == 512;
  }

  /** The weight of the four symbols from a on. */
  function Window(ws: seq<nat>, a: nat): nat {
    if ws == [] then 0
    else
      var m := |ws| - 1;
      Window(ws[..m], a) + (if a <= m < a + 4 then ws[m] else 0)
  }

  lemma {:induction false} NearCost(ws: seq<nat>, a: nat)
    ensures CodeCost(ws, Near(|ws|, a)) == 8 * WeightSum(ws) + Window(ws, a)
    decreases |ws|
  {
    if ws != [] {
      var m := |ws| - 1;
      NearCost(ws[..m], a);
      assert Near(|ws|, a)[..m] == Near(m, a);
    }
  }

  lemma {:induction false} WindowAtEnd(ws: seq<nat>, a: nat)
    requires |ws| <= a
    ensures Window(ws, a) == 0
    decreases |ws|
  {
    if ws != [] { WindowAtEnd(ws[..|ws| - 1], a); }
  }

  /** Later symbols add nothing to a window that is full. */
  lemma {:induction false} WindowInside(ws: seq<nat>, a: nat)
    requires a + 4 <= |ws|
    ensures Window(ws, a) == Window(ws[..a + 4], a)
    decreases |ws|
  {
    if |ws| == a + 4 {
      assert ws[..a + 4] == ws;
    } else {
      assert ws[..|ws| - 1][..a + 4] == ws[..a + 4];
      WindowInside(ws[..|ws| - 1], a);
    }
  }

  lemma WindowSum(ws: seq<nat>, a: nat)
    requires a + 4 <= |ws|
    ensures WeightSum(ws[..a + 4]) == WeightSum(ws[..a]) + Window(ws, a)
  {
    WindowInside(ws, a);
    var s := ws[..a + 4];
    OneWeightMore(s, ws, a, a);
    OneWeightMore(s, ws, a, a + 1);
    OneWeightMore(s, ws, a, a + 2);
    OneWeightMore(s, ws, a, a + 3);
    assert s[..a] == ws[..a];
    WindowAtEnd(s[..a], a);
    assert s[..a + 4] == s;
  }

  lemma OneWeightMore(s: seq<nat>, ws: seq<nat>, a: nat, i: nat)
    requires i < |s| && a <= i < a + 4
    ensures WeightSum(s[..i + 1]) == WeightSum(s[..i]) + s[i] && Window(s[..i + 1], a) == Window(s[..i], a) + s[i]
  {
    assert s[..i + 1][..i] == s[..i];
  }

  lemma {:induction false} SumGrows(ws: seq<nat>, i: nat)
    requires i <= |ws|
    ensures WeightSum(ws[..i]) <= WeightSum(ws)
    decreases |ws|
  {
    if i < |ws| {
      assert ws[..|ws| - 1][..i] == ws[..i];
      SumGrows(ws[..|ws| - 1], i);
    } else {
      assert ws[..i] == ws;
    }
  }

  /** One of the first j windows of four has at most a 64th of w. */
  lemma {:induction false} LightWindow(ws: seq<nat>, j: nat, w: nat) returns (a: nat)
    requires 0 < j && 4 * j <= |ws| && 64 * WeightSum(ws[..4 * j]) <= j * w
    ensures a + 4 <= |ws| && 64 * Window(ws, a) <= w
    decreases j
  {
    a := 4 * (j - 1);
    WindowSum(ws, a);
    if j > 1 && 64 * Window(ws, a) > w {
      assert j * w == (j - 1) * w + w;
      a := LightWindow(ws, j - 1, w);
    }
  }

  /** A code for up to 258 symbols that takes hardly more than eight bits for each. */
  lemma NearCode(ws: seq<nat>) returns (lens: seq<Byte>)
    requires |ws| <= 258
    ensures Fits(lens, |ws|, 9) && 64 * CodeCost(ws, lens) <= 513 * WeightSum(ws)
  {
    var n, a := |ws|, |ws|;
    if n > 256 {
      SumGrows(ws, 256);
      a := LightWindow(ws, 64, WeightSum(ws));
    } else {
      WindowAtEnd(ws, n);
    }
    NearFits(n, a);
    NearCost(ws, a);
    lens := Near(n, a);
  }

  // ---------- rescaled weights ----------

  lemma {:induction false} CostHalved(ws: seq<nat>, lens: seq<Byte>)
    requires |ws| == |lens|
    ensures CodeCost(ws, lens) <= 2 * CodeCost(Rescaled(ws, 1), lens)
    decreases |ws|
  {
    if ws != [] {
      var m := |ws| - 1;
      CostHalved(ws[..m], lens[..m]);
      assert Rescaled(ws, 1)[..m] == Rescaled(ws[..m], 1);
      HalfAtLeast(ws[m], lens[m]);
    }
  }

  lemma HalfAtLeast(w: nat, l: nat)
    ensures w * l <= 2 * ((1 + w / 2) * l)
  {
    assert w <= 2 * (1 + w / 2);
    MulMono(l, w, 2 * (1 + w / 2));
    Assoc(2, 1 + w / 2, l);
  }

  lemma MulMono(x: nat, y: nat, z: nat)
    requires y <= z
    ensures x * y <= x * z && y * x <= z * x
  {}

  lemma {:induction false} SumHalved(ws: seq<nat>)
    ensures 2 * WeightSum(Rescaled(ws, 1)) <= WeightSum(ws) + 2 * |ws|
    decreases |ws|
  {
    if ws != [] {
      var m := |ws| - 1;
      SumHalved(ws[..m]);
      assert Rescaled(ws, 1)[..m] == Rescaled(ws[..m], 1);
    }
  }

  lemma OneRoundMore(ws: seq<nat>, k: nat)
    ensures Rescaled(Rescaled(ws, k), 1) == Rescaled(ws, k + 1)
  {
    var r := Rescaled(ws, k);
    assert Rescaled(r, 0) == r;
  }

  /** What a code costs for the weights, against its cost for what k rescalings leave of them. */
  lemma {:induction false} CostRescaled(ws: seq<nat>, lens: seq<Byte>, k: nat)
    requires |ws| == |lens|
    ensures CodeCost(ws, lens) <= Pow2(k) * CodeCost(Rescaled(ws, k), lens)
    decreases k
  {
    if k > 0 {
      var r, c := Rescaled(ws, k - 1), CodeCost(Rescaled(ws, k), lens);
      CostRescaled(ws, lens, k - 1);
      CostHalved(r, lens);
      OneRoundMore(ws, k - 1);
      TwiceDearer(Pow2(k - 1), CodeCost(r, lens), c, CodeCost(ws, lens));
    }
  }

  lemma TwiceDearer(q: nat, x: nat, y: nat, cost: nat)
    requires cost <= q * x && x <= 2 * y
    ensures cost <= (2 * q) * y
  {
    MulMono(q, x, 2 * y);
    Assoc(q, 2, y);
  }

  lemma {:induction false} SumRescaled(ws: seq<nat>, k: nat)
    ensures Pow2(k) * WeightSum(Rescaled(ws, k)) <= WeightSum(ws) + 2 * ((Pow2(k) - 1) * |ws|)
    decreases k
  {
    if k > 0 {
      var r := Rescaled(ws, k - 1);
      SumRescaled(ws, k - 1);
      SumHalved(r);
      OneRoundMore(ws, k - 1);
      TwiceHalved(Pow2(k - 1), WeightSum(r), WeightSum(Rescaled(ws, k)), |ws|, WeightSum(ws));
    }
  }

  lemma TwiceHalved(q: nat, s: nat, t: nat, n: nat, w: nat)
    requires q * s <= w + 2 * ((q - 1) * n) && 2 * t <= s + 2 * n
    ensures (2 * q) * t <= w + 2 * ((2 * q - 1) * n)
  {
    MulMono(q, 2 * t, s + 2 * n);
    Distribute(s, 2 * n, q);
    Assoc(q, 2, t);
    Distribute(q - 1, q, n);
    Assoc(q, 2, n);
  }

  // ---------- one table ----------

  /** A table built for some frequencies takes at most 9.4 bits for each unit of weight. */
  lemma RowCost(lens: seq<Byte>, freq: seq<nat>, rounds: nat)
    requires BuiltFor(lens, freq, rounds, 17) && |freq| <= 258
    ensures 5 * CodeCost(freq, lens) <= 47 * WeightSum(Weights(freq))
  {
    RescaledCost(lens, freq, rounds);
    var ws := Weights(freq);
    SumRescaled(ws, rounds);
    if rounds > 0 { FewRounds(ws, rounds, 17); }
    Together(CodeCost(freq, lens), Pow2(rounds), WeightSum(Rescaled(ws, rounds)), WeightSum(ws), |ws|, rounds);
  }

  /** Against the code of hardly more than eight bits, for the weights that are left. */
  lemma RescaledCost(lens: seq<Byte>, freq: seq<nat>, rounds: nat)
    requires CheapestCode.Cheapest(lens, Rescaled(Weights(freq), rounds)) && |freq| <= 258
    ensures |lens| == |freq|
    ensures 64 * CodeCost(freq, lens) <= 513 * (Pow2(rounds) * WeightSum(Rescaled(Weights(freq), rounds)))
  {
    var ws, p := Weights(freq), Pow2(rounds);
    var r := Rescaled(ws, rounds);
    var other := NearCode(r);
    NoDearer(lens, r, other);
    WeightsCostMore(freq, lens);
    CostRescaled(ws, lens, rounds);
    InProportion(p, CodeCost(r, lens), WeightSum(r), CodeCost(freq, lens));
  }

  lemma InProportion(p: nat, x: nat, y: nat, cost: nat)
    requires cost <= p * x && 64 * x <= 513 * y
    ensures 64 * cost <= 513 * (p * y)
  {
    MulMono(p, 64 * x, 513 * y);
    Assoc(64, p, x);
    Assoc(p, 64, x);
    Assoc(513, p, y);
    Assoc(p, 513, y);
  }

  lemma NoDearer(lens: seq<Byte>, ws: seq<nat>, other: seq<Byte>)
    requires CheapestCode.Cheapest(lens, ws) && Fits(other, |lens|, 9)
    ensures CodeCost(ws, lens) <= CodeCost(ws, other)
  {}

  lemma Together(cost: nat, p: nat, s: nat, w: nat, n: nat, rounds: nat)
    requires 64 * cost <= 513 * (p * s) && p * s <= w + 2 * ((p - 1) * n) && n <= 258
    requires p == Pow2(rounds) && (rounds > 0 ==> 6249 * p <= 2 * w)
    ensures 5 * cost <= 47 * w
  {
    if rounds > 0 { MulMono(p - 1, n, 258); }
  }

  /** The weights cost no less than the frequencies. */
  lemma {:induction false} WeightsCostMore(freq: seq<nat>, lens: seq<Byte>)
    requires |freq| == |lens|
    ensures CodeCost(freq, lens) <= CodeCost(Weights(freq), lens)
    decreases |freq|
  {
    if freq != [] {
      var m := |freq| - 1;
      WeightsCostMore(freq[..m], lens[..m]);
      assert Weights(freq)[..m] == Weights(freq[..m]);
      MulMono(lens[m], freq[m], Frequency(freq[m]));
    }
  }

  lemma FibHere()
    ensures Fib(18) == 6765
  {
    assert Fib(5) == 13 && Fib(6) == 21;
    assert Fib(9) == 89 && Fib(10) == 144;
    assert Fib(13) == 610 && Fib(14) == 987;
    assert Fib(17) == 4181;
  }

  /** Only much weight forces many rescalings. */
  lemma FewRounds(ws: seq<nat>, rounds: nat, maxLen: nat)
    requires Forced(ws, rounds, maxLen) && maxLen == 17 && 0 < rounds && |ws| <= 258
    ensures 6249 * Pow2(rounds) <= 2 * WeightSum(ws)
  {
    LastForced(ws, rounds, maxLen);
    WeighsEnough(ws, rounds - 1);
  }

  lemma WeighsEnough(ws: seq<nat>, k: nat)
    requires WeightSum(Rescaled(ws, k)) >= 6765 && |ws| <= 258
    ensures 6249 * Pow2(k) <= WeightSum(ws)
  {
    SumRescaled(ws, k);
    HeavyEnough(Pow2(k), WeightSum(Rescaled(ws, k)), |ws|, WeightSum(ws));
  }

  lemma LastForced(ws: seq<nat>, rounds: nat, maxLen: nat)
    requires Forced(ws, rounds, maxLen) && maxLen == 17 && 0 < rounds
    ensures WeightSum(Rescaled(ws, rounds - 1)) >= 6765
  {
    FibHere();
    var j: nat := rounds - 1;
    assert WeightSum(Rescaled(ws, j)) >= Fib(maxLen + 1);
  }

  lemma HeavyEnough(q: nat, x: nat, n: nat, w: nat)
    requires 0 < q && 6765 <= x && q * x <= w + 2 * ((q - 1) * n) && n <= 258
    ensures 6249 * q <= w
  {
    MulMono(q, 6765, x);
    MulMono(q - 1, n, 258);
  }

  // ---------- all tables ----------

  /** The bits that the first i symbols take. */
  function CodedLength(lens: seq<seq<Byte>>, selector: seq<nat>, s: seq<nat>, i: nat): nat
    requires Codable(lens, selector, s) && i <= |s|
  {
    if i == 0 then 0
    else
      assert Coded(lens, selector, s, i - 1);
      CodedLength(lens, selector, s, i - 1) + lens[selector[(i - 1) / BZ_G_SIZE]][s[i - 1]]
  }

  lemma {:induction false} LengthOfCoded(lens: seq<seq<Byte>>, selector: seq<nat>, s: seq<nat>, i: nat)
    requires Codable(lens, selector, s) && i <= |s|
    ensures CodedLength(lens, selector, s, i) + |SymbolBits(lens, selector, s, i)|
         == CodedLength(lens, selector, s, |s|)
    decreases |s| - i
  {
    if i < |s| {
      LengthOfCoded(lens, selector, s, i + 1);
      OneCodeMore(lens, selector, s, i);
    }
  }

  lemma OneCodeMore(lens: seq<seq<Byte>>, selector: seq<nat>, s: seq<nat>, i: nat)
    requires Codable(lens, selector, s) && i < |s|
    ensures |SymbolBits(lens, selector, s, i)| - |SymbolBits(lens, selector, s, i + 1)|
         == CodedLength(lens, selector, s, i + 1) - CodedLength(lens, selector, s, i)
  {
    assert Coded(lens, selector, s, i);
    var t := lens[selector[i / BZ_G_SIZE]];
    assert |CodeBits(t, s[i])| == t[s[i]];
  }

  /** What the first t tables cost for the symbols given to them. */
  function CostOfTables(lens: seq<seq<Byte>>, rfreq: seq<seq<nat>>, t: nat): nat
    requires t <= |lens| == |rfreq| && forall k :: 0 <= k < |lens| ==> |lens[k]| == |rfreq[k]|
  {
    if t == 0 then 0 else CostOfTables(lens, rfreq, t - 1) + CodeCost(rfreq[t - 1], lens[t - 1])
  }

  /** One use more of symbol v costs its length. */
  lemma {:induction false} OneUseMore(freq: seq<nat>, lens: seq<Byte>, v: nat)
    requires |freq| == |lens| && v < |freq|
    ensures CodeCost(freq[v := freq[v] + 1], lens) == CodeCost(freq, lens) + lens[v]
    decreases |freq|
  {
    var m := |freq| - 1;
    var more := freq[v := freq[v] + 1];
    if v < m {
      OneUseMore(freq[..m], lens[..m], v);
      assert more[..m] == freq[..m][v := freq[v] + 1];
    } else {
      assert more[..m] == freq[..m];
      Distribute(freq[m], 1, lens[m]);
    }
  }

  lemma {:induction false} OneTableUsed(lens: seq<seq<Byte>>, rfreq: seq<seq<nat>>, bt: nat, v: nat, t: nat)
    requires t <= |lens| == |rfreq| && forall k :: 0 <= k < |lens| ==> |lens[k]| == |rfreq[k]|
    requires bt < |lens| && v < |lens[bt]|
    ensures CostOfTables(lens, rfreq[bt := rfreq[bt][v := rfreq[bt][v] + 1]], t)
         == CostOfTables(lens, rfreq, t) + (if bt < t then lens[bt][v] else 0)
    decreases t
  {
    if t > 0 {
      OneTableUsed(lens, rfreq, bt, v, t - 1);
      if bt == t - 1 { OneUseMore(rfreq[bt], lens[bt], v); }
    }
  }

  lemma {:induction false} NothingUsed(lens: seq<Byte>, freq: seq<nat>)
    requires |freq| == |lens| && forall v :: 0 <= v < |freq| ==> freq[v] == 0
    ensures CodeCost(freq, lens) == 0
    decreases |freq|
  {
    if freq != [] { NothingUsed(lens[..|lens| - 1], freq[..|freq| - 1]); }
  }

  lemma {:induction false} NoTableUsed(lens: seq<seq<Byte>>, rfreq: seq<seq<nat>>, t: nat)
    requires t <= |lens| == |rfreq| && forall k :: 0 <= k < |lens| ==> |lens[k]| == |rfreq[k]|
    requires forall k, v :: 0 <= k < |lens| && 0 <= v < |rfreq[k]| ==> rfreq[k][v] == 0
    ensures CostOfTables(lens, rfreq, t) == 0
    decreases t
  {
    if t > 0 {
      NoTableUsed(lens, rfreq, t - 1);
      NothingUsed(lens[t - 1], rfreq[t - 1]);
    }
  }

  ghost predicate SameSizes(lens: seq<seq<Byte>>, n: nat) { forall t :: 0 <= t < |lens| ==> |lens[t]| == n }

  /** Nothing is lost between counting by symbols and counting by tables. */
  lemma {:induction false} CostIsTallied(lens: seq<seq<Byte>>, rfreq: seq<seq<nat>>, selector: seq<nat>, s: seq<nat>,
                                         n: nat, i: nat)
    requires Codable(lens, selector, s) && Tallied(rfreq, selector, s, |lens|, n, i) && SameSizes(lens, n)
    ensures |lens| == |rfreq| && (forall k :: 0 <= k < |lens| ==> |rfreq[k]| == n)
    ensures CostOfTables(lens, rfreq, |lens|) == CodedLength(lens, selector, s, i)
    decreases i
  {
    forall k | 0 <= k < |lens| ensures |rfreq[k]| == n { assert RowTallied(rfreq[k], selector, s, k, n, i); }
    if i == 0 {
      forall k, v | 0 <= k < |lens| && 0 <= v < |rfreq[k]| ensures rfreq[k][v] == 0 {
        assert RowTallied(rfreq[k], selector, s, k, n, 0);
      }
      NoTableUsed(lens, rfreq, |lens|);
    } else {
      assert Coded(lens, selector, s, i - 1);
      var bt, v := selector[(i - 1) / BZ_G_SIZE], s[i - 1];
      var less := TalliedBefore(rfreq, selector, s, |lens|, n, i);
      CostIsTallied(lens, less, selector, s, n, i - 1);
      OneTableUsed(lens, less, bt, v, |lens|);
    }
  }

  /** The tally without the last symbol. */
  lemma TalliedBefore(rfreq: seq<seq<nat>>, selector: seq<nat>, s: seq<nat>, nGroups: nat, n: nat, i: nat)
    returns (less: seq<seq<nat>>)
    requires Tallied(rfreq, selector, s, nGroups, n, i) && i > 0 && s[i - 1] < n
    requires selector[(i - 1) / BZ_G_SIZE] < nGroups
    ensures Tallied(less, selector, s, nGroups, n, i - 1)
    ensures var bt, v := selector[(i - 1) / BZ_G_SIZE], s[i - 1];
      |less[bt]| == n && rfreq == less[bt := less[bt][v := less[bt][v] + 1]]
  {
    var bt, v := selector[(i - 1) / BZ_G_SIZE], s[i - 1];
    assert RowTallied(rfreq[bt], selector, s, bt, n, i);
    less := rfreq[bt := rfreq[bt][v := rfreq[bt][v] - 1]];
    forall t | 0 <= t < nGroups ensures RowTallied(less[t], selector, s, t, n, i - 1) {
      assert RowTallied(rfreq[t], selector, s, t, n, i);
    }
    assert less[bt][v := less[bt][v] + 1] == rfreq[bt];
  }

  /** A code of one bit for everything counts. */
  function Ones(n: nat): (lens: seq<Byte>)
    ensures |lens| == n
  {
    seq(n, _ => 1)
  }

  lemma {:induction false} WeightsNotFar(freq: seq<nat>)
    ensures WeightSum(Weights(freq)) <= CodeCost(freq, Ones(|freq|)) + |freq|
    decreases |freq|
  {
    if freq != [] {
      var m := |freq| - 1;
      WeightsNotFar(freq[..m]);
      assert Weights(freq)[..m] == Weights(freq[..m]) && Ones(|freq|)[..m] == Ones(m);
    }
  }

  lemma {:induction false} CountedOnce(lens: seq<seq<Byte>>, selector: seq<nat>, s: seq<nat>, i: nat)
    requires Codable(lens, selector, s) && i <= |s|
    requires forall t, v :: 0 <= t < |lens| && 0 <= v < |lens[t]| ==> lens[t][v] == 1
    ensures CodedLength(lens, selector, s, i) == i
    decreases i
  {
    if i > 0 {
      assert Coded(lens, selector, s, i - 1);
      CountedOnce(lens, selector, s, i - 1);
    }
  }

  function AllOnes(g: nat, n: nat): (lens: seq<seq<Byte>>)
    ensures |lens| == g && forall t :: 0 <= t < g ==> lens[t] == Ones(n)
  {
    seq(g, _ => Ones(n))
  }

  lemma {:induction false} TablesCost(lens: seq<seq<Byte>>, rfreq: seq<seq<nat>>, rounds: seq<nat>, n: nat, t: nat)
    requires AllRebuilt(lens, rfreq, rounds) && SameSizes(lens, n) && n <= 258 && t <= |lens|
    requires forall k :: 0 <= k < |lens| ==> |rfreq[k]| == n
    ensures 5 * CostOfTables(lens, rfreq, t) <= 47 * (CostOfTables(AllOnes(|lens|, n), rfreq, t) + t * n)
    decreases t
  {
    if t > 0 {
      TablesCost(lens, rfreq, rounds, n, t - 1);
      assert Rebuilt(lens, rfreq, rounds, t - 1);
      RowCost(lens[t - 1], rfreq[t - 1], rounds[t - 1]);
      WeightsNotFar(rfreq[t - 1]);
      Distribute(t - 1, 1, n);
    }
  }

  /** The symbols of a block, coded with the tables chosen for it, take at most 9.4 bits each, and
      that much for each entry of the tables. */
  lemma SymbolsCost(selector: seq<nat>, lens: seq<seq<Byte>>, before: seq<seq<Byte>>, rfreq: seq<seq<nat>>,
                    rounds: seq<nat>, s: seq<nat>, n: nat)
    requires LastRound(selector, lens, before, rfreq, rounds, s, n) && Codable(lens, selector, s)
    requires |lens| <= 6 && n <= 258
    ensures 5 * |SymbolBits(lens, selector, s, 0)| <= 47 * (|s| + 6 * 258)
  {
    var ones := AllOnes(|lens|, n);
    LengthOfCoded(lens, selector, s, 0);
    CostIsTallied(lens, rfreq, selector, s, n, |s|);
    forall k | 0 <= k < |s| ensures Coded(ones, selector, s, k) { assert Coded(lens, selector, s, k); }
    CostIsTallied(ones, rfreq, selector, s, n, |s|);
    CountedOnce(ones, selector, s, |s|);
    TablesCost(lens, rfreq, rounds, n, |lens|);
    MulMono(n, |lens|, 6);
  }
}
