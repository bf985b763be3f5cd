/** The Huffman-coded symbols of a block, and the decoder's reading of them back into
    the last column (as indices into the used bytes). */
module SymbolFormat {
  import opened Basics
  import opened Bits
  import opened Huffman
  import opened MoveToFront
  import opened BlockFormat

  /** What the decoder knows when it starts on the symbols. */
  datatype Coding = Coding(selectors: seq<nat>, tables: seq<Tables>, eob: nat, max: nat)

  ghost predicate ValidCoding(c: Coding) {
    2 <= c.eob && forall g :: 0 <= g < |c.selectors| ==> TableFor(c, g)
  }

  ghost predicate TableFor(c: Coding, g: nat)
    requires g < |c.selectors|
  {
    c.selectors[g] < |c.tables| && WellFormed(c.tables[c.selectors[g]])
        && InAlphabet(c.tables[c.selectors[g]], c.eob + 1)
  }

  /** GET_MTF_VAL for symbol number k: every 50 symbols the next selector applies. */
  ghost function NextSymbol(c: Coding, k: nat, bits: seq<bool>): (r: Parse<nat>)
    requires ValidCoding(c)
    ensures r.Done? ==> |r.rest| < |bits|
  {
    if k / BZ_G_SIZE >= |c.selectors| then Corrupt
    else
      assert TableFor(c, k / BZ_G_SIZE);
      DecodeSymbol(c.tables[c.selectors[k / BZ_G_SIZE]], bits)
  }

  lemma DecodedIsSymbol(t: Tables, n: nat, bits: seq<bool>)
    requires WellFormed(t) && InAlphabet(t, n)
    ensures DecodeSymbol(t, bits).Done? ==> DecodeSymbol(t, bits).value < n
  {
    var p := GetBits(bits, t.minLen);
    if p.Done? { assert WalksBelow(t, n, t.minLen, p.value, p.rest); }
  }

  lemma NextIsSymbol(c: Coding, k: nat, bits: seq<bool>)
    requires ValidCoding(c)
    ensures NextSymbol(c, k, bits).Done? ==> NextSymbol(c, k, bits).value <= c.eob
  {
    if k / BZ_G_SIZE < |c.selectors| {
      assert TableFor(c, k / BZ_G_SIZE);
      DecodedIsSymbol(c.tables[c.selectors[k / BZ_G_SIZE]], c.eob + 1, bits);
    }
  }

  /** The decoder between two symbols: its list, the column so far, a pending run and the
      unit in which the run's next digit counts. */
  datatype Progress = Progress(l: seq<nat>, col: seq<nat>, run: nat, unit: nat)

  datatype Outcome = Go(next: Progress) | Stop(col: seq<nat>) | Bad

  /** What one symbol does. There is none beyond EOB (NextIsSymbol); here it would be bad. */
  function Feed(c: Coding, d: Progress, sym: nat): (r: Outcome)
    requires |d.l| == 256
    ensures r.Go? ==> |r.next.l| == 256
  {
    if sym <= BZ_RUNB then
      if d.unit >= MAX_RUN_UNIT then Bad
      else Go(d.(run := if sym == BZ_RUNA then d.run + d.unit else d.run + 2 * d.unit, unit := 2 * d.unit))
    else if |d.col| + d.run > c.max then Bad
    else
      var col := d.col + Repeat(d.l[0], d.run);
      if sym == c.eob then Stop(col)
      else if sym > c.eob || sym > 256 || |col| >= c.max then Bad
      else Go(Progress(Front(d.l, sym - 1), col + [d.l[sym - 1]], 0, 1))
  }

  /** The decoder's main loop, about to read symbol number k. */
  ghost function ReadColumn(c: Coding, d: Progress, k: nat, bits: seq<bool>): (r: Parse<seq<nat>>)
    requires ValidCoding(c) && |d.l| == 256
    ensures r.Done? ==> |r.rest| <= |bits|
    decreases |bits|
  {
    match NextSymbol(c, k, bits)
    case Done(sym, rest) =>
      (match Feed(c, d, sym)
       case Go(next) => ReadColumn(c, next, k + 1, rest)
       case Stop(col) => Done(col, rest)
       case Bad => Corrupt)
    case Corrupt => Corrupt
    case Short => Short
  }

  /** c and d have tables for the same code lengths. */
  ghost predicate SameLengths(c: Coding, d: Coding, lens: seq<seq<Byte>>) {
    && d == c.(tables := d.tables) && |c.tables| == |d.tables| == |lens|
    && forall t :: 0 <= t < |lens| ==> TablesFor(c.tables[t], lens[t]) && TablesFor(d.tables[t], lens[t])
  }

  lemma NextSame(c: Coding, d: Coding, lens: seq<seq<Byte>>, k: nat, bits: seq<bool>)
    requires ValidCoding(c) && ValidCoding(d) && SameLengths(c, d, lens)
    ensures NextSymbol(c, k, bits) == NextSymbol(d, k, bits)
  {
    if k / BZ_G_SIZE < |c.selectors| {
      assert TableFor(c, k / BZ_G_SIZE) && TableFor(d, k / BZ_G_SIZE);
      var t := c.selectors[k / BZ_G_SIZE];
      DecodeSame(c.tables[t], d.tables[t], lens[t], bits);
    }
  }

  /** What the bits say does not depend on how the tables for the code lengths are laid out. */
  lemma {:induction false} ColumnSame(c: Coding, d: Coding, lens: seq<seq<Byte>>, p: Progress, k: nat, bits: seq<bool>)
    requires ValidCoding(c) && ValidCoding(d) && SameLengths(c, d, lens) && |p.l| == 256
    ensures ReadColumn(c, p, k, bits) == ReadColumn(d, p, k, bits)
    decreases |bits|
  {
    NextSame(c, d, lens, k, bits);
    var next := NextSymbol(c, k, bits);
    if next.Done? {
      assert Feed(c, p, next.value) == Feed(d, p, next.value);
      var o := Feed(c, p, next.value);
      if o.Go? { ColumnSame(c, d, lens, o.next, k + 1, next.rest); }
    }
  }

  // ---------- writing ----------

  /** The tables in use are those of these code lengths. */
  ghost predicate CodesWith(c: Coding, lens: seq<seq<Byte>>) {
    |lens| == |c.tables| && forall t :: 0 <= t < |lens| ==> CodesIn(c, lens, t)
  }

  ghost predicate CodesIn(c: Coding, lens: seq<seq<Byte>>, t: nat)
    requires t < |lens| == |c.tables|
  {
    |lens[t]| == c.eob + 1 && GoodLengths(lens[t]) && TablesFor(c.tables[t], lens[t])
  }

  /** Symbols s from number k on, each coded with the table of its group of fifty. */
  ghost function SymbolBits(lens: seq<seq<Byte>>, selectors: seq<nat>, s: seq<nat>, k: nat): seq<bool>
    requires Codable(lens, selectors, s) && k <= |s|
    decreases |s| - k
  {
    if k == |s| then []
    else
      assert Coded(lens, selectors, s, k);
      CodeBits(lens[selectors[k / 50]], s[k]) + SymbolBits(lens, selectors, s, k + 1)
  }

  ghost predicate Codable(lens: seq<seq<Byte>>, selectors: seq<nat>, s: seq<nat>) {
    forall k :: 0 <= k < |s| ==> Coded(lens, selectors, s, k)
  }

  ghost predicate Coded(lens: seq<seq<Byte>>, selectors: seq<nat>, s: seq<nat>, k: nat)
    requires k < |s|
  {
    && k / 50 < |selectors| && selectors[k / 50] < |lens|
    && s[k] < |lens[selectors[k / 50]]|
  }

  lemma NextIsRead(c: Coding, lens: seq<seq<Byte>>, s: seq<nat>, k: nat, rest: seq<bool>)
    requires ValidCoding(c) && CodesWith(c, lens) && Codable(lens, c.selectors, s) && k < |s|
    ensures NextSymbol(c, k, SymbolBits(lens, c.selectors, s, k) + rest)
         == Done(s[k], SymbolBits(lens, c.selectors, s, k + 1) + rest)
  {
    assert Coded(lens, c.selectors, s, k);
    var t := c.selectors[k / BZ_G_SIZE];
    var tail := SymbolBits(lens, c.selectors, s, k + 1) + rest;
    assert TableFor(c, k / BZ_G_SIZE) && CodesIn(c, lens, t);
    assert SymbolBits(lens, c.selectors, s, k) + rest == CodeBits(lens[t], s[k]) + tail;
    DecodeCode(c.tables[t], lens[t], s[k], tail);
  }

  // ---------- symbols stand for the column ----------

  function FeedAll(c: Coding, d: Progress, s: seq<nat>): Outcome
    requires |d.l| == 256
    decreases |s|
  {
    if s == [] then Go(d)
    else
      match Feed(c, d, s[0])
      case Go(next) => FeedAll(c, next, s[1..])
      case Stop(col) => if |s| == 1 then Stop(col) else Bad
      case Bad => Bad
  }

  /** The digits of a run of z add up to z. */
  lemma {:induction false} RunIsFed(c: Coding, d: Progress, z: nat, j: nat, top: nat, rest: seq<nat>)
    requires |d.l| == 256 && d.unit == Pow2(j) && j + |RunDigits(z)| <= top && Pow2(top) == MAX_RUN_UNIT
    ensures FeedAll(c, d, RunDigits(z) + rest)
         == FeedAll(c, d.(run := d.run + Shl(z, j), unit := Pow2(j + |RunDigits(z)|)), rest)
    decreases z
  {
    if z == 0 {
      ShlZero(j);
      assert RunDigits(z) + rest == rest;
    } else {
      var ds := RunDigits(z);
      var y := (z - 1) / 2;
      Pow2Monotone(j + 1, top);
      RunStep(z, j);
      var next := d.(run := if ds[0] == BZ_RUNA then d.run + d.unit else d.run + 2 * d.unit, unit := 2 * d.unit);
      assert Feed(c, d, ds[0]) == Go(next);
      assert (ds + rest)[1..] == RunDigits(y) + rest;
      RunIsFed(c, next, y, j + 1, top, rest);
    }
  }

  lemma RunStep(z: nat, j: nat)
    requires z > 0
    ensures Shl(z, j) == (if (z - 1) % 2 == 0 then Pow2(j) else 2 * Pow2(j)) + Shl((z - 1) / 2, j + 1)
  {
    var y := (z - 1) / 2;
    ShlSum(1 + (z - 1) % 2, 2 * y, j);
    ShlTwice(y, 1, j);
    assert Shl(y, 1) == 2 * y by { assert Shl(y, 0) == y; }
    ShlOne(j);
    ShlSum(1, 1, j);
  }

  lemma RunUnits()
    ensures Pow2(21) == MAX_RUN_UNIT && Pow2(20) == 0x10_0000
  {
    Pow2Sum(10, 10);
    assert Pow2(10) == 1024;
  }

  /** The symbol after a run finds the run in the column, or puts it there. */
  lemma RunIsPut(c: Coding, d: Progress, z: nat, unit: nat, sym: nat)
    requires |d.l| == 256 && d.run == 0 && sym > BZ_RUNB && |d.col| + z <= c.max
    ensures Feed(c, d.(run := z, unit := unit), sym) == Feed(c, d.(col := d.col + Repeat(d.l[0], z)), sym)
  {
    var col := d.col + Repeat(d.l[0], z);
    assert col + Repeat(d.l[0], 0) == col;
  }

  lemma SameFromThere(c: Coding, d: Progress, e: Progress, s: seq<nat>)
    requires |d.l| == |e.l| == 256 && s != [] && Feed(c, d, s[0]) == Feed(c, e, s[0])
    ensures FeedAll(c, d, s) == FeedAll(c, e, s)
  {}

  /** A whole run from its first digit on. */
  lemma WholeRun(c: Coding, d: Progress, z: nat, next: seq<nat>)
    requires |d.l| == 256 && d.run == 0 && d.unit == 1 && z < 0x10_0000
    ensures FeedAll(c, d, RunDigits(z) + next) == FeedAll(c, d.(run := z, unit := Pow2(|RunDigits(z)|)), next)
  {
    RunUnits();
    RunIsShort(z, 21);
    RunIsFed(c, d, z, 0, 21, next);
    assert Shl(z, 0) == z;
  }

  /** A whole run and the symbol after it. */
  lemma RunThen(c: Coding, d: Progress, z: nat, sym: nat, rest: seq<nat>)
    requires |d.l| == 256 && d.run == 0 && d.unit == 1 && sym > BZ_RUNB && |d.col| + z <= c.max && z < 0x10_0000
    ensures FeedAll(c, d, RunDigits(z) + [sym] + rest)
         == FeedAll(c, d.(col := d.col + Repeat(d.l[0], z)), [sym] + rest)
  {
    var next := [sym] + rest;
    WholeRun(c, d, z, next);
    ConcatAssoc(RunDigits(z), [sym], rest);
    var unit := Pow2(|RunDigits(z)|);
    RunIsPut(c, d, z, unit, sym);
    SameFromThere(c, d.(run := z, unit := unit), d.(col := d.col + Repeat(d.l[0], z)), next);
  }

  /** Where encoder and decoder agree: the encoder's list l is the head of the decoder's,
      which has z zeros and the column todo still to come. */
  ghost predicate InStep(c: Coding, d: Progress, l: seq<nat>, z: nat, todo: seq<nat>) {
    && |d.l| == 256 && d.run == 0 && d.unit == 1
    && 1 <= |l| <= 256 && d.l[..|l|] == l && c.eob == |l| + 1
    && AllIn(todo, l) && |d.col| + z + |todo| <= c.max < 0x10_0000
  }

  /** A pending run and a symbol other than zero. */
  lemma OtherIsFed(c: Coding, d: Progress, l: seq<nat>, z: nat, todo: seq<nat>) returns (next: Progress)
    requires InStep(c, d, l, z, todo) && todo != [] && l[0] != todo[0]
    ensures next.col == d.col + Repeat(l[0], z) + [todo[0]]
    ensures var l' := Front(l, IndexOf(l, todo[0]));
      && InStep(c, next, l', 0, todo[1..])
      && FeedAll(c, d, Symbols(l, todo, z, c.eob)) == FeedAll(c, next, Symbols(l', todo[1..], 0, c.eob))
  {
    assert d.l[0] == d.l[..|l|][0];
    var j, col := IndexOf(l, todo[0]), d.col + Repeat(l[0], z);
    var rest := Symbols(Front(l, j), todo[1..], 0, c.eob);
    RunThen(c, d, z, j + 1, rest);
    next := Progress(Front(d.l, j), col + [todo[0]], 0, 1);
    assert d.l[j] == d.l[..|l|][j];
    NextIsFed(c, d.(col := col), j, next, rest);
    AllInFront(todo, l, j);
    FrontPrefix(d.l, |l|, j);
  }

  lemma EndIsFed(c: Coding, d: Progress, l: seq<nat>, z: nat)
    requires InStep(c, d, l, z, [])
    ensures FeedAll(c, d, Symbols(l, [], z, c.eob)) == Stop(d.col + Repeat(l[0], z))
  {
    assert d.l[0] == d.l[..|l|][0];
    assert RunDigits(z) + [c.eob] == RunDigits(z) + [c.eob] + [];
    RunThen(c, d, z, c.eob, []);
    var col := d.col + Repeat(l[0], z);
    assert col + Repeat(d.l[0], 0) == col;
    assert [c.eob] + [] == [c.eob];
  }

  lemma OneMoreZero(col: seq<nat>, z: nat, todo: seq<nat>)
    requires todo != []
    ensures col + Repeat(todo[0], z + 1) + todo[1..] == col + Repeat(todo[0], z) + todo
  {}

  /** Feeding the symbols of a column yields the column, from any point on. */
  lemma {:induction false} ColumnIsFed(c: Coding, d: Progress, l: seq<nat>, z: nat, todo: seq<nat>)
    requires InStep(c, d, l, z, todo)
    ensures FeedAll(c, d, Symbols(l, todo, z, c.eob)) == Stop(d.col + Repeat(l[0], z) + todo)
    decreases |todo|
  {
    if todo == [] {
      EndIsFed(c, d, l, z);
      assert d.col + Repeat(l[0], z) + todo == d.col + Repeat(l[0], z);
    } else if l[0] == todo[0] {
      ColumnIsFed(c, d, l, z + 1, todo[1..]);
      OneMoreZero(d.col, z, todo);
    } else {
      var next := OtherIsFed(c, d, l, z, todo);
      var l' := Front(l, IndexOf(l, todo[0]));
      ColumnIsFed(c, next, l', 0, todo[1..]);
      OneMoreOther(d.col + Repeat(l[0], z), todo, Repeat(l'[0], 0));
    }
  }

  lemma OneMoreOther(col: seq<nat>, todo: seq<nat>, none: seq<nat>)
    requires todo != [] && none == []
    ensures col + [todo[0]] + none + todo[1..] == col + todo
  {}

  lemma NextIsFed(c: Coding, d: Progress, j: nat, next: Progress, rest: seq<nat>)
    requires |d.l| == 256 && d.run == 0 && 1 <= j < 256 && j + 1 < c.eob && |d.col| < c.max
    requires next == Progress(Front(d.l, j), d.col + [d.l[j]], 0, 1)
    ensures FeedAll(c, d, [j + 1] + rest) == FeedAll(c, next, rest)
  {
    assert d.col + Repeat(d.l[0], 0) == d.col;
    assert ([j + 1] + rest)[1..] == rest;
  }

  // ---------- bits stand for the symbols ----------

  /** Reading the coded symbols feeds them one by one. */
  lemma {:induction false} SymbolsAreRead(c: Coding, lens: seq<seq<Byte>>, s: seq<nat>, d: Progress, k: nat,
                                          rest: seq<bool>)
    requires ValidCoding(c) && CodesWith(c, lens) && Codable(lens, c.selectors, s) && |d.l| == 256
    requires k <= |s| && FeedAll(c, d, s[k..]).Stop?
    ensures ReadColumn(c, d, k, SymbolBits(lens, c.selectors, s, k) + rest) == Done(FeedAll(c, d, s[k..]).col, rest)
    decreases |s| - k
  {
    assert s[k..] != [];
    NextIsRead(c, lens, s, k, rest);
    assert s[k..][1..] == s[k + 1..];
    if Feed(c, d, s[k]).Stop? { assert SymbolBits(lens, c.selectors, s, k + 1) + rest == rest; }
    if Feed(c, d, s[k]).Go? { SymbolsAreRead(c, lens, s, Feed(c, d, s[k]).next, k + 1, rest); }
  }
}
