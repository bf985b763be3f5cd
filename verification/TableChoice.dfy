/** How sendMTFValues of compress.c chooses coding tables: an initial split of the
    alphabet, then four rounds of assigning each group of 50 symbols to its cheapest
    table and rebuilding the tables from the symbols they were given. */
module TableChoice {
  import opened Basics
  import opened Huffman
  import opened GenerateMtf
  import opened CodeLengths
  import opened BlockFormat

  const BZ_N_GROUPS: nat := 6
  const BZ_N_ITERS: nat := 4
  const BZ_LESSER_ICOST: Byte := 0
  const BZ_GREATER_ICOST: Byte := 15

  function GroupsFor(nMTF: nat): (n: nat)
    ensures 2 <= n <= BZ_N_GROUPS
  {
    if nMTF < 200 then 2
    else if nMTF < 600 then 3
    else if nMTF < 1200 then 4
    else if nMTF < 2400 then 5
    else 6
  }

  /** Tables for an alphabet of n symbols, no cost above 20. */
  ghost predicate CostTables(lens: seq<seq<Byte>>, nGroups: nat, n: nat) {
    |lens| == nGroups && forall t :: 0 <= t < nGroups ==> CostRow(lens[t], n)
  }

  ghost predicate CostRow(row: seq<Byte>, n: nat) {
    |row| == n && forall v :: 0 <= v < n ==> row[v] <= LONGEST
  }

  // ---------- totals ----------

  /** The first n entries of a frequency table together. */
  function FreqTo(freq: seq<nat>, n: nat): nat
    requires n <= |freq|
  {
    if n == 0 then 0 else FreqTo(freq, n - 1) + freq[n - 1]
  }

  lemma {:induction false} FreqToMonotone(freq: seq<nat>, m: nat, n: nat)
    requires m <= n <= |freq|
    ensures FreqTo(freq, m) <= FreqTo(freq, n)
  {
    if m < n { FreqToMonotone(freq, m, n - 1); }
  }

  lemma {:induction false} FreqToOneMore(freq: seq<nat>, v: nat, n: nat)
    requires v < |freq| && n <= |freq|
    ensures FreqTo(freq[v := freq[v] + 1], n) == FreqTo(freq, n) + (if v < n then 1 else 0)
  {
    if n > 0 { FreqToOneMore(freq, v, n - 1); }
  }

  lemma {:induction false} FreqToZero(freq: seq<nat>, n: nat)
    requires n <= |freq| && forall v :: 0 <= v < n ==> freq[v] == 0
    ensures FreqTo(freq, n) == 0
  {
    if n > 0 { FreqToZero(freq, n - 1); }
  }

  lemma {:induction false} FreqToPrefix(freq: seq<nat>, g: seq<nat>, n: nat)
    requires n <= |freq| && n <= |g| && forall v :: 0 <= v < n ==> freq[v] == g[v]
    ensures FreqTo(freq, n) == FreqTo(g, n)
  {
    if n > 0 { FreqToPrefix(freq, g, n - 1); }
  }

  /** Counts of all symbols add up to the number of symbols. */
  lemma {:induction false} CountedTotal(s: seq<nat>, freq: seq<nat>, n: nat)
    requires n <= |freq| && Counted(s, freq, n) && forall i :: 0 <= i < |s| ==> s[i] < n
    ensures FreqTo(freq, n) == |s|
  {
    if s == [] {
      FreqToZero(freq, n);
    } else {
      var v := s[|s| - 1];
      assert freq[v] == Occurrences(s, v) >= 1;
      var less := freq[v := freq[v] - 1];
      forall u | 0 <= u < n ensures less[u] == Occurrences(s[..|s| - 1], u) {}
      CountedTotal(s[..|s| - 1], less, n);
      FreqToOneMore(less, v, n);
      assert less[v := less[v] + 1] == freq;
    }
  }

  // ---------- the initial tables ----------

  /** How often each of n symbols occurs. */
  function Frequencies(s: seq<nat>, n: nat): (r: seq<nat>)
    ensures |r| == n
  {
    seq(n, v requires 0 <= v < n => Occurrences(s, v))
  }

  /** The frequency of the symbols from lo on and before hi. */
  function FreqBetween(freq: seq<nat>, lo: nat, hi: nat): (r: nat)
    requires lo <= hi <= |freq|
  {
    FreqToMonotone(freq, lo, hi);
    FreqTo(freq, hi) - FreqTo(freq, lo)
  }

  /** The fewest symbols from gs on that reach a share of the frequency, given that those before e do not;
      all of them if none do. */
  function Reach(freq: seq<nat>, gs: nat, share: nat, e: nat): (r: nat)
    requires gs <= e <= |freq|
    ensures e <= r <= |freq|
    decreases |freq| - e, freq, gs, share
  {
    if e < |freq| && FreqBetween(freq, gs, e) < share then Reach(freq, gs, share, e + 1) else e
  }

  lemma {:induction false} ReachIs(freq: seq<nat>, gs: nat, share: nat, e: nat)
    requires gs <= e <= |freq|
    ensures var r := Reach(freq, gs, share, e); r == |freq| || FreqBetween(freq, gs, r) >= share
    ensures forall k :: e <= k < Reach(freq, gs, share, e) ==> FreqBetween(freq, gs, k) < share
    decreases |freq| - e
  {
    if e < |freq| && FreqBetween(freq, gs, e) < share { ReachIs(freq, gs, share, e + 1); }
  }

  /** An equal share for each of nPart tables in what is left from gs on. */
  function ShareOf(freq: seq<nat>, nPart: nat, gs: nat): nat
    requires 1 <= nPart && gs <= |freq|
  {
    FreqBetween(freq, gs, |freq|) / nPart
  }

  /** Every other table, but neither the first nor the last, gives its last symbol back if it has more. */
  predicate GivesBack(nGroups: nat, nPart: nat, gs: nat, e: nat) {
    e > gs + 1 && nPart != nGroups && nPart != 1 && nPart <= nGroups && (nGroups - nPart) % 2 == 1
  }

  /** Where the next initial group ends that begins at gs. */
  function NextCut(freq: seq<nat>, nGroups: nat, nPart: nat, gs: nat): (r: nat)
    requires 1 <= nPart && gs <= |freq|
    ensures gs <= r <= |freq|
  {
    var e := Reach(freq, gs, ShareOf(freq, nPart, gs), gs);
    if GivesBack(nGroups, nPart, gs, e) then e - 1 else e
  }

  /** Where the initial group after k others begins. */
  function Cut(freq: seq<nat>, nGroups: nat, k: nat): (r: nat)
    requires k <= nGroups
    ensures r <= |freq|
  {
    if k == 0 then 0 else NextCut(freq, nGroups, nGroups - (k - 1), Cut(freq, nGroups, k - 1))
  }

  /** The groups are cut in order of the symbols and given to the tables from the last to the first. */
  predicate InGroup(freq: seq<nat>, nGroups: nat, t: nat, v: nat)
    requires t < nGroups
  {
    Cut(freq, nGroups, nGroups - 1 - t) <= v < Cut(freq, nGroups, nGroups - t)
  }

  function InitialRow(freq: seq<nat>, nGroups: nat, t: nat): (r: seq<Byte>)
    requires t < nGroups
    ensures |r| == |freq|
  {
    seq(|freq|, v requires 0 <= v < |freq| => if InGroup(freq, nGroups, t, v) then BZ_LESSER_ICOST
                                              else BZ_GREATER_ICOST)
  }

  /** The tables to begin with: one interval of the alphabet is cheap in each. */
  ghost predicate FirstTables(lens: seq<seq<Byte>>, freq: seq<nat>) {
    forall t :: 0 <= t < |lens| ==> lens[t] == InitialRow(freq, |lens|, t)
  }

  /** Where the next initial group ends, and the frequency aFreq it covers. */
  method NextGroup(mtfFreq: seq<nat>, alphaSize: nat, nGroups: nat, nPart: nat, gs: nat, remF: nat)
    returns (ge: int, aFreq: nat)
    requires 1 <= nPart <= nGroups && gs <= alphaSize == |mtfFreq| && remF == FreqBetween(mtfFreq, gs, alphaSize)
    ensures ge + 1 == NextCut(mtfFreq, nGroups, nPart, gs) && aFreq == FreqBetween(mtfFreq, gs, ge + 1)
  {
    var tFreq := remF / nPart;
    ge := gs - 1;
    aFreq := 0;
    while aFreq < tFreq && ge < alphaSize - 1
      invariant gs - 1 <= ge < alphaSize && aFreq == FreqBetween(mtfFreq, gs, ge + 1)
      invariant Reach(mtfFreq, gs, tFreq, gs) == Reach(mtfFreq, gs, tFreq, ge + 1)
    {
      ge := ge + 1;
      aFreq := aFreq + mtfFreq[ge];
    }
    if ge > gs && nPart != nGroups && nPart != 1 && (nGroups - nPart) % 2 == 1 {
      FreqToMonotone(mtfFreq, gs, ge);
      aFreq := aFreq - mtfFreq[ge];
      ge := ge - 1;
    }
  }

  /** The alphabet cut into nGroups intervals of similar total frequency, one cheap in
      each table. The remaining frequency never goes below zero. */
  method InitialTables(nMTF: nat, mtfFreq: seq<nat>, alphaSize: nat, nGroups: nat) returns (lens: seq<seq<Byte>>)
    requires alphaSize == |mtfFreq| && FreqTo(mtfFreq, alphaSize) == nMTF
    ensures |lens| == nGroups && FirstTables(lens, mtfFreq)
  {
    lens := seq(nGroups, _ => seq(alphaSize, _ => BZ_GREATER_ICOST));
    var nPart := nGroups;
    var remF := nMTF;
    var gs := 0;
    while nPart > 0
      invariant 0 <= nPart <= nGroups == |lens| && gs == Cut(mtfFreq, nGroups, nGroups - nPart)
      invariant remF == FreqBetween(mtfFreq, gs, alphaSize)
      invariant forall t :: nPart <= t < nGroups ==> lens[t] == InitialRow(mtfFreq, nGroups, t)
    {
      var ge, aFreq := NextGroup(mtfFreq, alphaSize, nGroups, nPart, gs, remF);
      FreqToMonotone(mtfFreq, ge + 1, alphaSize);
      var row := seq(alphaSize, v => if gs <= v <= ge then BZ_LESSER_ICOST else BZ_GREATER_ICOST);
      assert row == InitialRow(mtfFreq, nGroups, nPart - 1);
      lens := lens[nPart - 1 := row];
      nPart := nPart - 1;
      gs := ge + 1;
      remF := remF - aFreq;
    }
  }

  lemma FirstAreCostly(lens: seq<seq<Byte>>, freq: seq<nat>)
    requires FirstTables(lens, freq)
    ensures CostTables(lens, |lens|, |freq|)
  {
    forall t | 0 <= t < |lens| ensures CostRow(lens[t], |freq|) {}
  }

  lemma {:induction false} CutsRise(freq: seq<nat>, nGroups: nat, j: nat, k: nat)
    requires j <= k <= nGroups
    ensures Cut(freq, nGroups, j) <= Cut(freq, nGroups, k)
    decreases k - j
  {
    if j < k { CutsRise(freq, nGroups, j, k - 1); }
  }

  /** The last group takes all symbols that are left, if the last of them occurs. */
  lemma CutsEnd(freq: seq<nat>, nGroups: nat)
    requires nGroups >= 1 && freq != [] && freq[|freq| - 1] > 0
    ensures Cut(freq, nGroups, nGroups) == |freq|
  {
    var gs, n := Cut(freq, nGroups, nGroups - 1), |freq|;
    ReachIs(freq, gs, ShareOf(freq, 1, gs), gs);
    var e := Reach(freq, gs, ShareOf(freq, 1, gs), gs);
    if e < n { FreqToMonotone(freq, e, n - 1); }
  }

  lemma {:induction false} SomeCut(freq: seq<nat>, nGroups: nat, k: nat, v: nat) returns (j: nat)
    requires k <= nGroups && v < Cut(freq, nGroups, k)
    ensures j < k && Cut(freq, nGroups, j) <= v < Cut(freq, nGroups, j + 1)
  {
    j := k - 1;
    if v < Cut(freq, nGroups, j) { j := SomeCut(freq, nGroups, j, v); }
  }

  /** Every symbol is cheap in exactly one of the first tables. */
  lemma CheapInOne(freq: seq<nat>, nGroups: nat, v: nat) returns (t: nat)
    requires nGroups >= 1 && v < |freq| && freq[|freq| - 1] > 0
    ensures t < nGroups && forall u: nat :: u < nGroups ==>
            (InitialRow(freq, nGroups, u)[v] == BZ_LESSER_ICOST <==> u == t)
  {
    CutsEnd(freq, nGroups);
    var j := SomeCut(freq, nGroups, nGroups, v);
    t := nGroups - 1 - j;
    forall u: nat | u < nGroups && u != t ensures !InGroup(freq, nGroups, u, v) {
      if u < t { CutsRise(freq, nGroups, j + 1, nGroups - 1 - u); }
      if u > t { CutsRise(freq, nGroups, nGroups - u, j); }
    }
  }

  lemma ShareIsLess(x: nat, n: nat)
    requires n >= 1
    ensures x / n <= x
  {
    assert x == x / n * n + x % n;
  }

  /** A group of symbols that ends where a share is reached, or one symbol before. */
  predicate Fair(freq: seq<nat>, share: nat, gs: nat, end: nat, back: bool)
    requires gs <= end <= |freq|
  {
    if back then end < |freq| && FreqBetween(freq, gs, end) < share <= FreqBetween(freq, gs, end + 1)
    else FreqBetween(freq, gs, end) >= share && (end == gs || FreqBetween(freq, gs, end - 1) < share)
  }

  lemma ReachIsFair(freq: seq<nat>, nPart: nat, gs: nat)
    requires 1 <= nPart && gs <= |freq|
    ensures Fair(freq, ShareOf(freq, nPart, gs), gs, Reach(freq, gs, ShareOf(freq, nPart, gs), gs), false)
  {
    ReachIs(freq, gs, ShareOf(freq, nPart, gs), gs);
    ShareIsLess(FreqBetween(freq, gs, |freq|), nPart);
  }

  /** What each group holds: its share of what is left, but without its last symbol less than that. Every
      other group may give that symbol back, so that it has less, and with it would have had enough. */
  lemma FairShare(freq: seq<nat>, nGroups: nat, k: nat)
    requires k < nGroups
    ensures var gs, end := Cut(freq, nGroups, k), Cut(freq, nGroups, k + 1);
      || Fair(freq, ShareOf(freq, nGroups - k, gs), gs, end, false)
      || (k % 2 == 1 && k + 1 < nGroups && Fair(freq, ShareOf(freq, nGroups - k, gs), gs, end, true))
  {
    var gs, nPart := Cut(freq, nGroups, k), nGroups - k;
    ReachIsFair(freq, nPart, gs);
    ReachIs(freq, gs, ShareOf(freq, nPart, gs), gs);
  }

  // ---------- the cost of a group ----------

  /** The bits that symbols gs..end - 1 take in one table. */
  function Cost(row: seq<Byte>, s: seq<nat>, gs: nat, end: nat): nat
    requires gs <= end <= |s| && forall i :: 0 <= i < |s| ==> s[i] < |row|
  {
    if gs == end then 0 else Cost(row, s, gs, end - 1) + row[s[end - 1]]
  }

  ghost predicate AllBelow(s: seq<nat>, n: nat) { forall i :: 0 <= i < |s| ==> s[i] < n }

  lemma {:induction false} CostBound(row: seq<Byte>, s: seq<nat>, gs: nat, end: nat)
    requires gs <= end <= |s| && AllBelow(s, |row|) && CostRow(row, |row|)
    ensures Cost(row, s, gs, end) <= LONGEST * (end - gs)
  {
    if gs < end { CostBound(row, s, gs, end - 1); }
  }

  ghost predicate Costs(cost: seq<nat>, lens: seq<seq<Byte>>, n: nat, s: seq<nat>, gs: nat, end: nat) {
    && CostTables(lens, |lens|, n) && AllBelow(s, n) && gs <= end <= |s| && |cost| == |lens|
    && forall t :: 0 <= t < |lens| ==> cost[t] == Cost(lens[t], s, gs, end)
  }

  /** The fast track: two 16-bit sums share a 32-bit word without carrying into each other. */
  method PackedCost(low: seq<Byte>, high: seq<Byte>, s: seq<nat>, gs: nat) returns (lowCost: nat, highCost: nat)
    requires gs + BZ_G_SIZE <= |s| && AllBelow(s, |low|) && |high| == |low|
    requires CostRow(low, |low|) && CostRow(high, |low|)
    ensures lowCost == Cost(low, s, gs, gs + BZ_G_SIZE) && highCost == Cost(high, s, gs, gs + BZ_G_SIZE)
  {
    var cost: nat := 0;
    var nn := 0;
    while nn < BZ_G_SIZE
      invariant 0 <= nn <= BZ_G_SIZE
      invariant cost == Cost(high, s, gs, gs + nn) * 0x1_0000 + Cost(low, s, gs, gs + nn)
    {
      var icv := s[gs + nn];
      var lowPart: nat, highPart: nat := low[icv], high[icv];
      cost := cost + (highPart * 0x1_0000 + lowPart);
      nn := nn + 1;
    }
    CostBound(low, s, gs, gs + BZ_G_SIZE);
    CostBound(high, s, gs, gs + BZ_G_SIZE);
    assert cost < 0x1_0000_0000;
    lowCost := cost % 0x1_0000;
    highCost := cost / 0x1_0000;
  }

  method GroupCosts(lens: seq<seq<Byte>>, ghost n: nat, s: seq<nat>, gs: nat, end: nat) returns (cost: seq<nat>)
    requires CostTables(lens, |lens|, n) && 2 <= |lens| <= 6 && AllBelow(s, n) && gs <= end <= |s|
    requires end - gs <= BZ_G_SIZE
    ensures Costs(cost, lens, n, s, gs, end) && forall t :: 0 <= t < |cost| ==> cost[t] < 0x1_0000
  {
    assert forall t :: 0 <= t < |lens| ==> CostRow(lens[t], n);
    if |lens| == 6 && end - gs == BZ_G_SIZE {
      var c0, c1 := PackedCost(lens[0], lens[1], s, gs);
      var c2, c3 := PackedCost(lens[2], lens[3], s, gs);
      var c4, c5 := PackedCost(lens[4], lens[5], s, gs);
      cost := [c0, c1, c2, c3, c4, c5];
    } else {
      cost := seq(|lens|, _ => 0);
      var i := gs;
      while i < end
        invariant gs <= i <= end && Costs(cost, lens, n, s, gs, i)
      {
        cost := seq(|lens|, t requires 0 <= t < |lens| && |cost| == |lens| && s[i] < |lens[t]| =>
                              cost[t] + lens[t][s[i]]);
        i := i + 1;
      }
    }
    forall t | 0 <= t < |cost| ensures cost[t] < 0x1_0000 { CostBound(lens[t], s, gs, end); }
  }

  /** The cheapest table, the first of several. */
  method Cheapest(cost: seq<nat>) returns (bt: nat)
    requires cost != [] && forall t :: 0 <= t < |cost| ==> cost[t] < 0x1_0000
    ensures bt < |cost|
    ensures forall t :: 0 <= t < |cost| ==> cost[bt] <= cost[t] && (t < bt ==> cost[bt] < cost[t])
  {
    var bc := 999999999;
    bt := 0;
    for t := 0 to |cost|
      invariant bt < |cost| && (t == 0 ==> bc == 999999999) && (t > 0 ==> bt < t && bc == cost[bt])
      invariant forall k :: 0 <= k < t ==> bc <= cost[k] && (k < bt ==> bc < cost[k])
    {
      if cost[t] < bc {
        bc := cost[t];
        bt := t;
      }
    }
  }

  // ---------- one round ----------

  function Min(x: nat, y: nat): nat { if x < y then x else y }

  /** Group g's selector is the first of the tables that code the group in the fewest bits. */
  ghost predicate WellChosen(selector: seq<nat>, lens: seq<seq<Byte>>, n: nat, s: seq<nat>, g: nat)
    requires CostTables(lens, |lens|, n) && AllBelow(s, n) && g < |selector| && BZ_G_SIZE * g <= |s|
  {
    var gs, end := BZ_G_SIZE * g, Min(BZ_G_SIZE * g + BZ_G_SIZE, |s|);
    selector[g] < |lens| && forall t :: 0 <= t < |lens| ==>
      Cost(lens[selector[g]], s, gs, end) <= Cost(lens[t], s, gs, end)
  }

  /** How many of the first i symbols are v and belong to a group coded with table t. */
  function Uses(selector: seq<nat>, s: seq<nat>, t: nat, v: nat, i: nat): nat
    requires i <= |s| && i <= BZ_G_SIZE * |selector|
  {
    if i == 0 then 0
    else Uses(selector, s, t, v, i - 1) + (if selector[(i - 1) / BZ_G_SIZE] == t && s[i - 1] == v then 1 else 0)
  }

  ghost predicate Tallied(rfreq: seq<seq<nat>>, selector: seq<nat>, s: seq<nat>, nGroups: nat, n: nat, i: nat) {
    && |rfreq| == nGroups && i <= |s| && i <= BZ_G_SIZE * |selector|
    && forall t :: 0 <= t < nGroups ==> RowTallied(rfreq[t], selector, s, t, n, i)
  }

  ghost predicate RowTallied(row: seq<nat>, selector: seq<nat>, s: seq<nat>, t: nat, n: nat, i: nat)
    requires i <= |s| && i <= BZ_G_SIZE * |selector|
  {
    |row| == n && forall v :: 0 <= v < n ==> row[v] == Uses(selector, s, t, v, i)
  }

  lemma {:induction false} UsesPrefix(selector: seq<nat>, bt: nat, s: seq<nat>, t: nat, v: nat, i: nat)
    requires i <= |s| && i <= BZ_G_SIZE * |selector|
    ensures Uses(selector + [bt], s, t, v, i) == Uses(selector, s, t, v, i)
  {
    if i > 0 { UsesPrefix(selector, bt, s, t, v, i - 1); }
  }

  lemma TalliedPrefix(rfreq: seq<seq<nat>>, selector: seq<nat>, bt: nat, s: seq<nat>, nGroups: nat, n: nat, i: nat)
    requires Tallied(rfreq, selector, s, nGroups, n, i)
    ensures Tallied(rfreq, selector + [bt], s, nGroups, n, i)
  {
    forall t | 0 <= t < nGroups ensures RowTallied(rfreq[t], selector + [bt], s, t, n, i) {
      assert RowTallied(rfreq[t], selector, s, t, n, i);
      forall v | 0 <= v < n ensures rfreq[t][v] == Uses(selector + [bt], s, t, v, i) {
        UsesPrefix(selector, bt, s, t, v, i);
      }
    }
  }

  lemma TallyOne(rfreq: seq<seq<nat>>, selector: seq<nat>, s: seq<nat>, nGroups: nat, n: nat, i: nat)
    requires Tallied(rfreq, selector, s, nGroups, n, i) && i < |s| && i < BZ_G_SIZE * |selector|
    requires AllBelow(s, n) && selector[i / BZ_G_SIZE] < nGroups
    ensures var bt := selector[i / BZ_G_SIZE];
      && |rfreq[bt]| == n
      && Tallied(rfreq[bt := rfreq[bt][s[i] := rfreq[bt][s[i]] + 1]], selector, s, nGroups, n, i + 1)
  {
    var bt := selector[i / BZ_G_SIZE];
    assert RowTallied(rfreq[bt], selector, s, bt, n, i);
    var more := rfreq[bt := rfreq[bt][s[i] := rfreq[bt][s[i]] + 1]];
    forall t | 0 <= t < nGroups ensures RowTallied(more[t], selector, s, t, n, i + 1) {
      assert RowTallied(rfreq[t], selector, s, t, n, i);
    }
  }

  /** Adds one group's symbols to the frequencies of its table. */
  method TallyGroup(rfreq0: seq<seq<nat>>, selector: seq<nat>, s: seq<nat>, nGroups: nat, n: nat, gs: nat, end: nat)
    returns (rfreq: seq<seq<nat>>)
    requires Tallied(rfreq0, selector, s, nGroups, n, gs) && AllBelow(s, n)
    requires gs <= end <= |s| && end <= BZ_G_SIZE * |selector|
    requires forall i :: gs <= i < end ==> i / BZ_G_SIZE < |selector| && selector[i / BZ_G_SIZE] < nGroups
    ensures Tallied(rfreq, selector, s, nGroups, n, end)
  {
    rfreq := rfreq0;
    var i := gs;
    while i < end
      invariant gs <= i <= end && Tallied(rfreq, selector, s, nGroups, n, i)
    {
      TallyOne(rfreq, selector, s, nGroups, n, i);
      var bt := selector[i / BZ_G_SIZE];
      rfreq := rfreq[bt := rfreq[bt][s[i] := rfreq[bt][s[i]] + 1]];
      i := i + 1;
    }
  }

  /** What one round leaves: a selector for every group, well chosen, and the symbol
      frequencies under each table. */
  ghost predicate RoundDone(selector: seq<nat>, rfreq: seq<seq<nat>>, lens: seq<seq<Byte>>, n: nat, s: seq<nat>,
                            i: nat) {
    && CostTables(lens, |lens|, n) && AllBelow(s, n) && |selector| == SelectorCount(i)
    && Tallied(rfreq, selector, s, |lens|, n, i)
    && forall g :: 0 <= g < |selector| ==> WellChosen(selector, lens, n, s, g)
  }

  lemma ChosenStay(selector: seq<nat>, bt: nat, cost: seq<nat>, lens: seq<seq<Byte>>, n: nat, s: seq<nat>, gs: nat,
                   end: nat)
    requires CostTables(lens, |lens|, n) && AllBelow(s, n) && Costs(cost, lens, n, s, gs, end) && bt < |cost|
    requires gs == BZ_G_SIZE * |selector| && end == Min(gs + BZ_G_SIZE, |s|)
    requires forall t :: 0 <= t < |cost| ==> cost[bt] <= cost[t]
    requires forall g :: 0 <= g < |selector| ==> WellChosen(selector, lens, n, s, g)
    ensures forall g :: 0 <= g < |selector| + 1 ==> WellChosen(selector + [bt], lens, n, s, g)
  {
    forall g | 0 <= g < |selector| + 1 ensures WellChosen(selector + [bt], lens, n, s, g) {
      if g < |selector| { assert WellChosen(selector, lens, n, s, g); }
    }
  }

  method AssignGroups(lens: seq<seq<Byte>>, n: nat, s: seq<nat>) returns (selector: seq<nat>, rfreq: seq<seq<nat>>)
    requires CostTables(lens, |lens|, n) && 2 <= |lens| <= 6 && AllBelow(s, n)
    ensures RoundDone(selector, rfreq, lens, n, s, |s|)
  {
    var nGroups := |lens|;
    rfreq := seq(nGroups, _ => seq(n, _ => 0));
    selector := [];
    var gs := 0;
    while gs < |s|
      invariant gs <= |s| && (gs < |s| ==> gs == BZ_G_SIZE * |selector|)
      invariant RoundDone(selector, rfreq, lens, n, s, gs)
    {
      var end := Min(gs + BZ_G_SIZE, |s|);
      var cost := GroupCosts(lens, n, s, gs, end);
      var bt := Cheapest(cost);
      ChosenStay(selector, bt, cost, lens, n, s, gs, end);
      TalliedPrefix(rfreq, selector, bt, s, nGroups, n, gs);
      selector := selector + [bt];
      rfreq := TallyGroup(rfreq, selector, s, nGroups, n, gs, end);
      gs := end;
    }
  }

  // ---------- four rounds ----------

  lemma {:induction false} TallyTotal(row: seq<nat>, selector: seq<nat>, s: seq<nat>, t: nat, n: nat, i: nat)
    requires i <= |s| && i <= BZ_G_SIZE * |selector| && RowTallied(row, selector, s, t, n, i) && AllBelow(s, n)
    ensures FreqTo(row, n) <= i
    decreases i
  {
    if i == 0 {
      FreqToZero(row, n);
    } else {
      var v := s[i - 1];
      if selector[(i - 1) / BZ_G_SIZE] == t {
        var less := row[v := row[v] - 1];
        TallyTotal(less, selector, s, t, n, i - 1);
        FreqToOneMore(less, v, n);
        assert less[v := less[v] + 1] == row;
      } else {
        TallyTotal(row, selector, s, t, n, i - 1);
      }
    }
  }

  lemma {:induction false} FrequencyBound(freq: seq<nat>)
    ensures FrequencySum(freq) <= FreqTo(freq, |freq|) + |freq|
  {
    if freq != [] {
      var m := |freq| - 1;
      FrequencyBound(freq[..m]);
      FreqToPrefix(freq, freq[..m], m);
    }
  }

  /** Table t is built for the symbols that its groups hold. */
  ghost predicate Rebuilt(lens: seq<seq<Byte>>, rfreq: seq<seq<nat>>, rounds: seq<nat>, t: nat)
    requires t < |lens| == |rfreq| == |rounds|
  {
    BuiltFor(lens[t], rfreq[t], rounds[t], 17)
  }

  ghost predicate AllRebuilt(lens: seq<seq<Byte>>, rfreq: seq<seq<nat>>, rounds: seq<nat>) {
    |lens| == |rfreq| == |rounds| && forall t :: 0 <= t < |lens| ==> Rebuilt(lens, rfreq, rounds, t)
  }

  /** New tables from the frequencies. */
  method RebuildTables(rfreq: seq<seq<nat>>, ghost selector: seq<nat>, ghost s: seq<nat>, n: nat)
    returns (lens: seq<seq<Byte>>, ghost rounds: seq<nat>)
    requires Tallied(rfreq, selector, s, |rfreq|, n, |s|) && AllBelow(s, n)
    requires 2 <= n <= BZ_MAX_ALPHA_SIZE && |s| < MAX_TOTAL - BZ_MAX_ALPHA_SIZE
    ensures CompleteTables(lens, n) && AllRebuilt(lens, rfreq, rounds)
  {
    lens, rounds := [], [];
    var row := new Byte[BZ_MAX_ALPHA_SIZE];
    for t := 0 to |rfreq|
      invariant |lens| == t && CompleteTables(lens, n) && AllRebuilt(lens, rfreq[..t], rounds)
    {
      assert RowTallied(rfreq[t], selector, s, t, n, |s|);
      TallyTotal(rfreq[t], selector, s, t, n, |s|);
      FrequencyBound(rfreq[t]);
      assert rfreq[t][..n] == rfreq[t];
      ghost var k := HbMakeCodeLengths(row, rfreq[t], n, 17);
      RebuiltMore(lens, rfreq[..t], rounds, row[..n], rfreq[t], k);
      lens, rounds := lens + [row[..n]], rounds + [k];
      assert rfreq[..t + 1] == rfreq[..t] + [rfreq[t]];
    }
    assert rfreq[..|rfreq|] == rfreq;
  }

  lemma RebuiltMore(lens: seq<seq<Byte>>, rfreq: seq<seq<nat>>, rounds: seq<nat>, row: seq<Byte>, freq: seq<nat>,
                    k: nat)
    requires AllRebuilt(lens, rfreq, rounds) && BuiltFor(row, freq, k, 17)
    ensures AllRebuilt(lens + [row], rfreq + [freq], rounds + [k])
  {
    forall t | 0 <= t < |lens| + 1 ensures Rebuilt(lens + [row], rfreq + [freq], rounds + [k], t) {
      if t < |lens| { assert Rebuilt(lens, rfreq, rounds, t); }
    }
  }

  ghost predicate CompleteTables(lens: seq<seq<Byte>>, n: nat) {
    forall t :: 0 <= t < |lens| ==> |lens[t]| == n && CompleteLengths(lens[t], 17)
  }

  lemma CompleteIsCostly(lens: seq<seq<Byte>>, n: nat)
    requires CompleteTables(lens, n)
    ensures CostTables(lens, |lens|, n)
  {
    forall t | 0 <= t < |lens| ensures CostRow(lens[t], n) {}
  }

  /** The selectors are the cheapest choice among the tables before the last rebuilding, and the
      tables sent are rebuilt for the symbols that the selectors give them. */
  ghost predicate LastRound(selector: seq<nat>, lens: seq<seq<Byte>>, before: seq<seq<Byte>>, rfreq: seq<seq<nat>>,
                            rounds: seq<nat>, s: seq<nat>, n: nat) {
    && |before| == |lens| && CompleteTables(lens, n)
    && RoundDone(selector, rfreq, before, n, s, |s|) && AllRebuilt(lens, rfreq, rounds)
  }

  /** From one list of tables to the next: selectors are chosen and the tables rebuilt for them. */
  ghost predicate OneRound(before: seq<seq<Byte>>, lens: seq<seq<Byte>>, s: seq<nat>, n: nat) {
    exists selector, rfreq, rounds :: LastRound(selector, lens, before, rfreq, rounds, s, n)
  }

  /** The lists of tables that the first rounds have gone through, from the initial ones on. */
  ghost predicate Refined(history: seq<seq<seq<Byte>>>, s: seq<nat>, n: nat) {
    && history != [] && |history[0]| == GroupsFor(|s|) && FirstTables(history[0], Frequencies(s, n))
    && forall i :: 0 < i < |history| ==> OneRound(history[i - 1], history[i], s, n)
  }

  lemma RefinedMore(history: seq<seq<seq<Byte>>>, selector: seq<nat>, lens: seq<seq<Byte>>, rfreq: seq<seq<nat>>,
                    rounds: seq<nat>, s: seq<nat>, n: nat)
    requires Refined(history, s, n)
    requires LastRound(selector, lens, history[|history| - 1], rfreq, rounds, s, n)
    ensures Refined(history + [lens], s, n)
  {
    var more := history + [lens];
    forall i | 0 < i < |more| ensures OneRound(more[i - 1], more[i], s, n) {
      if i < |history| { assert OneRound(history[i - 1], history[i], s, n); }
    }
  }

  /** Selectors and tables as four rounds from the initial tables leave them. */
  ghost predicate Decided(selector: seq<nat>, lens: seq<seq<Byte>>, s: seq<nat>, n: nat) {
    forall i: nat {:trigger Look(i)} :: Look(i) ==> exists history, rfreq, rounds ::
      && |history| == 5 && history[4] == lens && Refined(history, s, n)
      && LastRound(selector, lens, history[3], rfreq, rounds, s, n)
  }

  /** The tables and selectors that a block is sent with, after four rounds. */
  method ChooseTables(s: seq<nat>, mtfFreq: seq<nat>, n: nat)
    returns (selector: seq<nat>, lens: seq<seq<Byte>>, ghost history: seq<seq<seq<Byte>>>, ghost rfreq: seq<seq<nat>>,
             ghost rounds: seq<nat>)
    requires 2 <= n <= BZ_MAX_ALPHA_SIZE && n <= |mtfFreq| && AllBelow(s, n) && Counted(s, mtfFreq, n)
    requires |s| < MAX_TOTAL - BZ_MAX_ALPHA_SIZE
    ensures |lens| == if |s| < 200 then 2 else if |s| < 600 then 3 else if |s| < 1200 then 4
                      else if |s| < 2400 then 5 else 6
    ensures |history| == 5 && history[4] == lens && Refined(history, s, n) && CompleteTables(history[3], n)
    ensures LastRound(selector, lens, history[3], rfreq, rounds, s, n)
    ensures |selector| == SelectorCount(|s|) && forall g :: 0 <= g < |selector| ==> selector[g] < |lens|
  {
    CountedTotal(s, mtfFreq, n);
    FreqToPrefix(mtfFreq, mtfFreq[..n], n);
    lens := InitialTables(|s|, mtfFreq[..n], n, GroupsFor(|s|));
    assert mtfFreq[..n] == Frequencies(s, n);
    FirstAreCostly(lens, mtfFreq[..n]);
    selector, rfreq, rounds, history := [], [], [], [lens];
    var iter := 0;
    while iter < BZ_N_ITERS
      invariant 0 <= iter <= BZ_N_ITERS && |lens| == GroupsFor(|s|) && CostTables(lens, |lens|, n)
      invariant |history| == iter + 1 && history[iter] == lens && Refined(history, s, n)
      invariant iter > 0 ==> CompleteTables(lens, n)
      invariant iter > 0 ==> LastRound(selector, lens, history[iter - 1], rfreq, rounds, s, n)
      invariant iter > 1 ==> CompleteTables(history[iter - 1], n)
    {
      var freqs;
      selector, freqs := AssignGroups(lens, n, s);
      lens, rounds := RebuildTables(freqs, selector, s, n);
      rfreq := freqs;
      RefinedMore(history, selector, lens, rfreq, rounds, s, n);
      history := history + [lens];
      CompleteIsCostly(lens, n);
      iter := iter + 1;
    }
    forall g | 0 <= g < |selector| ensures selector[g] < |lens| { assert WellChosen(selector, history[3], n, s, g); }
  }
}
