/** BZ2_decompress from the coding tables to the end of a block: building the decoding
    tables and turning Huffman codes into the bytes of the last column. The readers keep how far
    they have come and go on from there when more input is offered. */
module ReadBlock {
  import opened Basics
  import opened Bits
  import opened BitStream
  import opened ByteCounts
  import opened BurrowsWheeler
  import opened Huffman
  import opened HuffmanTables
  import opened MoveToFront
  import opened GenerateMtf
  import opened BlockFormat
  import opened SymbolFormat
  import opened Block
  import opened SendMtf
  import opened TwoLevelList
  import opened Decompress

  /** The decoding tables of all groups. */
  method CreateTables(lens: seq<seq<Byte>>, alphaSize: nat) returns (tables: seq<Tables>)
    requires AllLengthsOk(lens, alphaSize) && 0 < alphaSize <= BZ_MAX_ALPHA_SIZE
    ensures TablesForAll(tables, lens)
  {
    tables := [];
    var limit := new int[BZ_MAX_ALPHA_SIZE];
    var base := new int[BZ_MAX_ALPHA_SIZE];
    var perm := new nat[BZ_MAX_ALPHA_SIZE];
    for t := 0 to |lens|
      invariant |tables| == t && forall k :: 0 <= k < t ==> TablesFor(tables[k], lens[k])
    {
      var minLen, maxLen := LengthRange(lens[t]);
      HbCreateDecodeTables(limit, base, perm, lens[t], minLen, maxLen);
      tables := tables + [Tables(minLen, limit[..], base[..], perm[..])];
    }
  }

  // ---------- reading symbols ----------

  /** Where GET_MTF_VAL stops: between two symbols, before the first bits of one, or before one
      more bit of it. */
  datatype CodePlace = Between | AtFirstBits | AtNextBit(zn: nat, zvec: nat)

  /** The state of GET_MTF_VAL: which group of 50 symbols is being read, how many of its symbols
      are left, and how far the current one has come. */
  class SymbolReader {
    const r: BitReader
    const c: Coding
    var groupNo: int
    var groupPos: nat
    var at: CodePlace
    ghost var k: nat

    /** k symbols have been started on so far. */
    ghost predicate Valid()
      reads this, r
    {
      && r.Valid() && ValidCoding(c) && groupPos < BZ_G_SIZE && -1 <= groupNo < |c.selectors|
      && k + groupPos == BZ_G_SIZE * (groupNo + 1) && (at != Between ==> k > 0 && groupNo == (k - 1) / BZ_G_SIZE)
      && (at.AtNextBit? ==> TableFor(c, groupNo) && at.zn > c.tables[c.selectors[groupNo]].minLen)
    }

    /** The number of symbols read when the current or the next one is done. */
    ghost function Number(): nat
      reads this
    {
      if at == Between then k + 1 else k
    }

    /** What the bits to come make of that symbol. */
    ghost function Ahead(): Parse<nat>
      requires Valid()
      reads this, r
    {
      assert at != Between ==> TableFor(c, groupNo);
      match at
      case Between => NextSymbol(c, k, r.Bits())
      case AtFirstBits => DecodeSymbol(c.tables[c.selectors[groupNo]], r.Bits())
      case AtNextBit(zn, zvec) => OneMoreBit(c.tables[c.selectors[groupNo]], zn, zvec, r.Bits())
    }

    /** Whatever the bits, it is one of the alphabet. */
    lemma AheadIsSymbol()
      requires Valid()
      ensures Ahead().Done? ==> Ahead().value <= c.eob
    {
      if at == Between {
        NextIsSymbol(c, k, r.Bits());
      } else {
        assert TableFor(c, groupNo);
        DecodedIsSymbol(Table(), c.eob + 1, r.Bits());
        if at.AtNextBit? && r.Bits() != [] {
          assert WalksBelow(Table(), c.eob + 1, at.zn, 2 * at.zvec + (if r.Bits()[0] then 1 else 0), r.Bits()[1..]);
        }
      }
    }

    constructor (r: BitReader, c: Coding)
      requires r.Valid() && ValidCoding(c)
      ensures Valid() && this.r == r && this.c == c && k == 0 && at == Between
    {
      this.r := r;
      this.c := c;
      groupNo := -1;
      groupPos := 0;
      at := Between;
      k := 0;
    }

    /** The rest of a code of which zn bits are in zvec. */
    method WalkCode(t: Tables, zn0: nat, zvec0: nat) returns (res: Read<nat>, zn: nat, zvec: nat)
      requires r.Valid() && WellFormed(t)
      modifies r`input, r`bsBuff, r`bsLive, r`pending
      ensures r.Valid() && |r.Bits()| <= old(|r.Bits()|)
      ensures Resumes(Walk(t, zn0, zvec0, old(r.Bits())), res, OneMoreBit(t, zn, zvec, r.Bits()), r)
      ensures res.NeedInput? ==> zn > zn0
    {
      zn, zvec := zn0, zvec0;
      while true
        invariant r.Valid() && Walk(t, zn, zvec, r.Bits()) == Walk(t, zn0, zvec0, old(r.Bits()))
        invariant |r.Bits()| <= old(|r.Bits()|) && zn >= zn0
        decreases |r.Bits()|
      {
        if zn > 20 { return DataError, zn, zvec; }
        if zvec <= t.limit[zn] { break; }
        zn := zn + 1;
        var zj := GetFlag(r);
        if zj.IsFailure() { return NeedInput, zn, zvec; }
        zvec := 2 * zvec + (if zj.value then 1 else 0);
      }
      if zvec - t.base[zn] < 0 || zvec - t.base[zn] >= BZ_MAX_ALPHA_SIZE { return DataError, zn, zvec; }
      res := Got(t.perm[zvec - t.base[zn]]);
    }

    /** The start of a symbol, up to the reading of its first bits. */
    method StartSymbol() returns (ok: bool)
      requires Valid() && at == Between
      modifies this
      ensures ok ==> Valid() && at == AtFirstBits && Number() == old(Number()) && Ahead() == old(Ahead())
      ensures !ok ==> old(Ahead()) == Corrupt
    {
      if groupPos == 0 {
        groupNo := groupNo + 1;
        if groupNo >= |c.selectors| { return false; }
        groupPos := BZ_G_SIZE;
      }
      groupPos := groupPos - 1;
      k := k + 1;
      at := AtFirstBits;
      ok := true;
    }

    /** The first bits of a symbol, or one more bit. */
    method TakeBits() returns (res: Read<(nat, nat)>)
      requires Valid() && at != Between
      modifies r`input, r`bsBuff, r`bsLive, r`pending
      ensures Valid() && !res.DataError? && |r.Bits()| <= old(|r.Bits()|)
      ensures res.Got? ==> old(Ahead()) == Walk(Table(), res.value.0, res.value.1, r.Bits())
      ensures res.NeedInput? ==> Ahead() == old(Ahead()) && r.input == [] && (r.future == [] ==> Ahead().Short?)
      ensures res.Got? ==> |r.Bits()| < old(|r.Bits()|) && res.value.0 >= Table().minLen
    {
      match at
      case AtFirstBits =>
        var zvec := GetNumber(r, Table().minLen);
        if zvec.IsFailure() { return NeedInput; }
        res := Got((Table().minLen, zvec.value));
      case AtNextBit(zn, zvec) =>
        var zj := GetFlag(r);
        if zj.IsFailure() { return NeedInput; }
        res := Got((zn, 2 * zvec + (if zj.value then 1 else 0)));
    }

    /** The table of the group being read. */
    function Table(): (t: Tables)
      requires Valid() && at != Between
      reads this, r
      ensures WellFormed(t) && 0 < t.minLen <= 24
    {
      assert TableFor(c, groupNo);
      c.tables[c.selectors[groupNo]]
    }

    /** GET_MTF_VAL, from wherever the last call stopped for want of input. */
    method Next() returns (res: Read<nat>)
      requires Valid()
      modifies this, r`input, r`bsBuff, r`bsLive, r`pending
      ensures r.Valid() && Resumes(old(Ahead()), res, if res.NeedInput? && Valid() then Ahead() else Short, r)
      ensures !res.DataError? ==> Valid()
      ensures res.Got? ==> at == Between && k == old(Number()) && |r.Bits()| < old(|r.Bits()|) && res.value <= c.eob
      ensures res.NeedInput? ==> Number() == old(Number())
    {
      AheadIsSymbol();
      if at == Between {
        var ok := StartSymbol();
        if !ok { return DataError; }
      }
      var start := TakeBits();
      if start.IsFailure() { return NeedInput; }
      var zn, zvec;
      res, zn, zvec := WalkCode(Table(), start.value.0, start.value.1);
      at := if res.NeedInput? then AtNextBit(zn, zvec) else Between;
    }
  }

  /** The walk before one more bit. */
  function OneMoreBit(t: Tables, zn: nat, zvec: nat, bits: seq<bool>): Parse<nat>
    requires WellFormed(t)
  {
    if bits == [] then Short else Walk(t, zn, 2 * zvec + (if bits[0] then 1 else 0), bits[1..])
  }

  // ---------- storing the column ----------

  /** The column so far, as bytes in tt (or ll16) and as counts in unzftab. */
  ghost predicate Stored(tt: seq<nat>, unzftab: seq<nat>, used: seq<Byte>, col: seq<nat>) {
    && |col| <= |tt| && |unzftab| == 256
    && (forall i :: 0 <= i < |col| ==> tt[i] == Named(used, col)[i])
    && (forall b: Byte :: unzftab[b] == |Places(Named(used, col), b)|)
  }

  /** The first entries of the list are indices of used bytes, so every access is in range. */
  ghost predicate ListOk(l: seq<nat>, n: nat) {
    1 <= n <= |l| == 256 && forall i :: 0 <= i < n ==> l[i] < n
  }

  lemma FrontOk(l: seq<nat>, n: nat, j: nat)
    requires ListOk(l, n) && j < n
    ensures ListOk(Front(l, j), n)
  {}

  lemma StoreOne(tt: seq<nat>, unzftab: seq<nat>, used: seq<Byte>, col: seq<nat>, j: nat, v: nat)
    requires Stored(tt, unzftab, used, col) && j < |used| && |col| < |tt| && v == used[j]
    ensures Stored(tt[|col| := v], unzftab[v := unzftab[v] + 1], used, col + [j])
  {
    var a, z := Named(used, col), Named(used, col + [j]);
    assert z == a + [used[j]];
    assert z[..|a|] == a;
  }

  method PutOne(tt: array<nat>, nblock: nat, unzftab: array<nat>, uc: Byte, ghost used: seq<Byte>,
                ghost col: seq<nat>, ghost j: nat)
    requires tt != unzftab && Stored(tt[..], unzftab[..], used, col) && |col| == nblock < tt.Length
    requires j < |used| && uc == used[j]
    modifies tt, unzftab
    ensures Stored(tt[..], unzftab[..], used, col + [j])
  {
    ghost var t, u := tt[..], unzftab[..];
    ghost var v: nat := uc;
    StoreOne(t, u, used, col, j, v);
    unzftab[uc] := unzftab[uc] + 1;
    tt[nblock] := uc;
    assert tt[..] == t[nblock := v] && unzftab[..] == u[v := u[uc] + 1];
  }

  lemma {:induction false} PlacesOfRun(s: seq<Byte>, uc: Byte, n: nat, b: Byte, run: seq<Byte>)
    requires |run| == n && forall i :: 0 <= i < n ==> run[i] == uc
    ensures |Places(s + run, b)| == |Places(s, b)| + (if b == uc then n else 0)
    decreases n
  {
    if n == 0 {
      assert s + run == s;
    } else {
      PlacesOfRun(s, uc, n - 1, b, run[..n - 1]);
      assert (s + run)[..|s| + n - 1] == s + run[..n - 1];
    }
  }

  /** A run: counted at once, stored byte by byte while there is room. */
  method StoreRun(tt: array<nat>, nblock0: nat, unzftab: array<nat>, uc: Byte, es0: nat,
                ghost used: seq<Byte>, ghost col: seq<nat>, ghost j: nat) returns (ok: bool, nblock: nat)
    requires tt != unzftab && Stored(tt[..], unzftab[..], used, col) && |col| == nblock0
    requires j < |used| && uc == used[j]
    modifies tt, unzftab
    ensures ok == (nblock0 + es0 <= tt.Length)
    ensures ok ==> nblock == nblock0 + es0 && Stored(tt[..], unzftab[..], used, col + Repeat(j, es0))
  {
    ghost var u := unzftab[..];
    ghost var a, z := Named(used, col), Named(used, col + Repeat(j, es0));
    ghost var run := z[|col|..];
    assert z == a + run;
    unzftab[uc] := unzftab[uc] + es0;
    forall b: Byte ensures unzftab[b] == |Places(z, b)| {
      PlacesOfRun(a, uc, es0, b, run);
      assert u[b] == |Places(a, b)|;
    }
    var es := es0;
    nblock := nblock0;
    while es > 0
      invariant 0 <= es && nblock + es == nblock0 + es0 && nblock <= tt.Length
      invariant forall i :: 0 <= i < nblock ==> tt[i] == z[i]
      modifies tt
    {
      if nblock >= tt.Length { return false, nblock; }
      tt[nblock] := uc;
      nblock := nblock + 1;
      es := es - 1;
    }
    ok := true;
  }

  // ---------- the main loop ----------

  /** The decoder with the next symbol read. */
  ghost function AtSymbol(c: Coding, d: Progress, sym: nat, k: nat, bits: seq<bool>): Parse<seq<nat>>
    requires ValidCoding(c) && |d.l| == 256
  {
    match Feed(c, d, sym)
    case Go(next) => SymbolFormat.ReadColumn(c, next, k, bits)
    case Stop(col) => Done(col, bits)
    case Bad => Corrupt
  }

  /** The decoder waiting for a symbol, of which p is what the bits to come make. */
  ghost function Awaited(c: Coding, d: Progress, k: nat, p: Parse<nat>): Parse<seq<nat>>
    requires ValidCoding(c) && |d.l| == 256
  {
    match p
    case Done(sym, rest) => AtSymbol(c, d, sym, k, rest)
    case Corrupt => Corrupt
    case Short => Short
  }

  lemma AwaitFirst(c: Coding, d: Progress, k: nat, bits: seq<bool>)
    requires ValidCoding(c) && |d.l| == 256
    ensures Awaited(c, d, k + 1, NextSymbol(c, k, bits)) == SymbolFormat.ReadColumn(c, d, k, bits)
  {}

  lemma NothingStored(tt: seq<nat>, counts: seq<nat>, used: seq<Byte>)
    requires |counts| == 256 && forall b :: 0 <= b < 256 ==> counts[b] == 0
    ensures Stored(tt, counts, used, [])
  {}

  function WithDigit(d: Progress, sym: nat): Progress {
    Progress(d.l, d.col, d.run + (if sym == BZ_RUNA then d.unit else 2 * d.unit), 2 * d.unit)
  }

  lemma DigitIsFed(c: Coding, d: Progress, sym: nat, k: nat, bits: seq<bool>)
    requires ValidCoding(c) && |d.l| == 256 && sym <= BZ_RUNB
    ensures d.unit >= MAX_RUN_UNIT ==> AtSymbol(c, d, sym, k, bits) == Corrupt
    ensures d.unit < MAX_RUN_UNIT ==>
      AtSymbol(c, d, sym, k, bits) == SymbolFormat.ReadColumn(c, WithDigit(d, sym), k, bits)
  {}

  /** Ending a run is adding its zeros to the column. */
  lemma RunEnds(c: Coding, l: seq<nat>, col: seq<nat>, run: nat, unit: nat, sym: nat)
    requires |l| == 256 && sym > BZ_RUNB
    ensures |col| + run > c.max ==> Feed(c, Progress(l, col, run, unit), sym) == Bad
    ensures |col| + run <= c.max ==>
      Feed(c, Progress(l, col, run, unit), sym) == Feed(c, Progress(l, col + Repeat(l[0], run), 0, 1), sym)
  {
    var more := col + Repeat(l[0], run);
    assert more + Repeat(l[0], 0) == more;
  }

  lemma SymbolIsFed(c: Coding, l: seq<nat>, col: seq<nat>, sym: nat, k: nat, bits: seq<bool>)
    requires ValidCoding(c) && |l| == 256 && sym > BZ_RUNB && |col| <= c.max && c.eob <= 257
    ensures sym == c.eob ==> AtSymbol(c, Progress(l, col, 0, 1), sym, k, bits) == Done(col, bits)
    ensures sym != c.eob && (sym > c.eob || |col| >= c.max) ==>
              AtSymbol(c, Progress(l, col, 0, 1), sym, k, bits) == Corrupt
    ensures sym < c.eob && |col| < c.max ==>
      AtSymbol(c, Progress(l, col, 0, 1), sym, k, bits)
      == SymbolFormat.ReadColumn(c, Progress(Front(l, sym - 1), col + [l[sym - 1]], 0, 1), k, bits)
  {
    assert col + Repeat(l[0], 0) == col;
  }

  /** The column that the symbols of a block make up. */
  ghost function WholeColumn(c: Coding, bits: seq<bool>): Parse<seq<nat>>
    requires ValidCoding(c)
  {
    SymbolFormat.ReadColumn(c, Progress(Upto(256), [], 0, 1), 0, bits)
  }

  /** The part of DState that turns symbols into the bytes of the last column, in tt (or ll16),
      which has room for nblockMAX bytes, and counts them in unzftab. */
  class ColumnReader {
    const sr: SymbolReader
    const mtf: MtfDecoder
    const used: seq<Byte>
    const tt: array<nat>
    const unzftab: array<nat>
    var nblock: nat
    var inRun: bool
    var es: int
    var N: nat
    ghost var l: seq<nat>
    ghost var col: seq<nat>
    ghost const goal: Parse<seq<nat>>
    ghost const repr: set<object>

    ghost function Parts(): set<object> {
      {this, sr, mtf, mtf.mtfa, mtf.mtfbase, tt, unzftab}
    }

    /** Whatever has been read by now, the column will be goal. */
    ghost predicate Valid()
      reads repr, sr.r
    {
      sr.r.Valid() && forall i: nat {:trigger Look(i)} :: Look(i) ==> repr == Parts() && Core() && Ahead() == goal
    }

    ghost predicate Core()
      reads Parts(), sr.r
    {
      && sr.Valid() && sr.c.max == tt.Length && sr.c.eob == |used| + 1 && 1 <= |used| <= 256
      && Apart() && Holding() && (inRun ==> es >= -1)
    }

    ghost predicate Apart() {
      mtf.mtfa !in {tt, unzftab} && mtf.mtfbase !in {tt, unzftab} && tt != unzftab
    }

    /** The list and the column so far are in the arrays. */
    ghost predicate Holding()
      reads this`l, this`col, this`nblock, mtf, mtf.mtfa, mtf.mtfbase, tt, unzftab
    {
      mtf.Valid(l) && ListOk(l, |used|) && Stored(tt[..], unzftab[..], used, col) && |col| == nblock
    }

    /** What has been read, as the format has it. */
    ghost function Now(): (d: Progress)
      requires Core()
      reads Parts(), sr.r
      ensures |d.l| == 256
    {
      Progress(l, col, if inRun then es + 1 else 0, if inRun then N else 1)
    }

    /** The column that the bits to come lead to. */
    ghost function Ahead(): Parse<seq<nat>>
      requires Core()
      reads Parts(), sr.r
    {
      Awaited(sr.c, Now(), sr.Number(), sr.Ahead())
    }

    /** The same with the next symbol read. */
    ghost function With(sym: nat): Parse<seq<nat>>
      requires Core()
      reads Parts(), sr.r
    {
      AtSymbol(sr.c, Now(), sym, sr.k, sr.r.Bits())
    }

    constructor (r: BitReader, c: Coding, used: seq<Byte>, tt: array<nat>)
      requires r.Valid() && ValidCoding(c) && c.max == tt.Length && c.eob == |used| + 1 && 1 <= |used| <= 256
      ensures Valid() && Apart() && fresh(repr - {tt}) && sr.r == r && this.tt == tt && this.used == used
      ensures repr == Parts()
      ensures goal == WholeColumn(c, r.Bits())
    {
      var symbols := new SymbolReader(r, c);
      var list := new MtfDecoder();
      var counts := new nat[256](_ => 0);
      sr := symbols;
      mtf := list;
      unzftab := counts;
      this.used := used;
      this.tt := tt;
      nblock, inRun, es, N := 0, false, 0, 0;
      l, col := Upto(256), [];
      goal := WholeColumn(c, r.Bits());
      repr := {this} + {symbols} + {list} + {list.mtfa, list.mtfbase, tt, counts};
      new;
      AwaitFirst(c, Progress(l, [], 0, 1), 0, r.Bits());
      NothingStored(tt[..], unzftab[..], used);
      assert Holding();
      assert Core();
      assert Ahead() == goal;
    }

    /** The reader stays as it is when only the input is offered anew. */
    twostate lemma StillValid()
      requires old(Valid()) && sr.r.Valid() && sr.r.Bits() == old(sr.r.Bits())
      requires unchanged(repr)
      ensures Valid()
    {
      assert Look(0);
    }

    lemma AheadBetween()
      requires Core() && sr.at == Between
      ensures Ahead() == SymbolFormat.ReadColumn(sr.c, Now(), sr.k, sr.r.Bits())
    {}

    /** A run digit, the first of a run or a further one. */
    method TakeDigit(sym: nat) returns (ok: bool)
      requires Core() && sr.at == Between && sym <= BZ_RUNB
      modifies this`inRun, this`es, this`N
      ensures ok ==> Core() && Ahead() == old(With(sym))
      ensures !ok ==> old(With(sym)) == Corrupt
    {
      ghost var d := Now();
      DigitIsFed(sr.c, d, sym, sr.k, sr.r.Bits());
      if !inRun { inRun, es, N := true, -1, 1; }
      if N >= 2 * 1024 * 1024 { return false; }
      if sym == BZ_RUNA { es := es + N; } else { es := es + 2 * N; }
      N := N * 2;
      assert Now() == WithDigit(d, sym);
      AheadBetween();
      ok := true;
    }

    /** A symbol other than a run digit ends the run: its bytes are counted and stored. */
    method EndRun(ghost sym: nat) returns (ok: bool)
      requires Core() && inRun && sym > BZ_RUNB
      modifies this`inRun, this`es, this`nblock, this`col, tt, unzftab
      ensures ok ==> Core() && !inRun && With(sym) == old(With(sym))
      ensures !ok ==> old(With(sym)) == Corrupt
    {
      RunEnds(sr.c, l, col, es + 1, N, sym);
      es := es + 1;
      var head := mtf.Head(l);
      ok, nblock := StoreRun(tt, nblock, unzftab, used[head], es, used, col, head);
      inRun := false;
      col := col + Repeat(head, es);
    }

    /** One byte. */
    method TakeByte(sym: nat) returns (ok: bool)
      requires Core() && !inRun && sr.at == Between && BZ_RUNB < sym < sr.c.eob
      modifies this`nblock, this`l, this`col, mtf.mtfa, mtf.mtfbase, tt, unzftab
      ensures ok ==> Core() && !inRun && Ahead() == old(With(sym))
      ensures !ok ==> old(With(sym)) == Corrupt
    {
      SymbolIsFed(sr.c, l, col, sym, sr.k, sr.r.Bits());
      if nblock >= tt.Length { return false; }
      var nn := sym - 1;
      ghost var t, u := tt[..], unzftab[..];
      var uc := mtf.MoveToFront(nn, l);
      FrontOk(l, |used|, nn);
      assert tt[..] == t && unzftab[..] == u;
      PutOne(tt, nblock, unzftab, used[uc], used, col, uc);
      l, col := Front(l, nn), col + [l[nn]];
      nblock := nblock + 1;
      AheadBetween();
      ok := true;
    }

    /** What a symbol does; done at the end of the block. */
    method TakeSymbol(sym: nat) returns (ok: bool, done: bool)
      requires Core() && sr.at == Between && sym <= sr.c.eob
      modifies this`nblock, this`inRun, this`es, this`N, this`l, this`col, mtf.mtfa, mtf.mtfbase, tt, unzftab
      ensures ok && !done ==> Core() && Ahead() == old(With(sym))
      ensures ok && done ==> Core() && old(With(sym)) == Done(col, sr.r.Bits())
      ensures !ok ==> old(With(sym)) == Corrupt
    {
      done := false;
      if sym <= BZ_RUNB {
        ok := TakeDigit(sym);
        return;
      }
      if inRun {
        ok := EndRun(sym);
        if !ok { return; }
      }
      if sym == |used| + 1 {
        SymbolIsFed(sr.c, l, col, sym, sr.k, sr.r.Bits());
        return true, true;
      }
      ok := TakeByte(sym);
    }

    /** The next symbol. */
    method Fetch() returns (res: Read<nat>)
      requires Core()
      modifies sr, sr.r`input, sr.r`bsBuff, sr.r`bsLive, sr.r`pending
      ensures sr.r.Valid() && (!res.DataError? ==> Core())
      ensures res.Got? ==> sr.at == Between && res.value <= sr.c.eob && With(res.value) == old(Ahead())
      ensures res.Got? ==> |sr.r.Bits()| < old(|sr.r.Bits()|)
      ensures res.DataError? ==> old(Ahead()) == Corrupt
      ensures res.NeedInput? ==> Ahead() == old(Ahead()) && sr.r.input == [] && (sr.r.future == [] ==> Ahead().Short?)
    {
      res := sr.Next();
    }

    /** The symbols of a block, from wherever the last call stopped for want of input. */
    method ReadSymbols() returns (res: Read<nat>)
      requires Valid()
      modifies repr, sr.r`input, sr.r`bsBuff, sr.r`bsLive, sr.r`pending
      ensures res.Got? ==> goal == Done(col, sr.r.Bits()) && res.value == nblock && |sr.r.Bits()| < old(|sr.r.Bits()|)
      ensures res.Got? ==> |col| == nblock && Stored(tt[..], unzftab[..], used, col)
      ensures res.DataError? ==> goal == Corrupt
      ensures res.NeedInput? ==> Valid() && sr.r.input == [] && (sr.r.future == [] ==> goal.Short?)
      ensures sr.r.Valid()
    {
      assert Look(0);
      while true
        invariant Core() && Ahead() == goal && |sr.r.Bits()| <= old(|sr.r.Bits()|)
        decreases |sr.r.Bits()|
      {
        var nextSym := Fetch();
        if nextSym.IsFailure() { return nextSym; }
        var ok, done := TakeSymbol(nextSym.value);
        if !ok { return DataError; }
        if done { return Got(nblock); }
      }
    }
  }
}
