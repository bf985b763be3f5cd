/** sendMTFValues and BZ2_compressBlock of compress.c: writing a block's bits. */
module SendMtf {
  import opened Basics
  import opened Bits
  import opened BitStream
  import opened Rotations
  import opened BurrowsWheeler
  import opened Huffman
  import opened HuffmanTables
  import opened MoveToFront
  import opened GenerateMtf
  import opened CodeLengths
  import opened BlockFormat
  import opened SymbolFormat
  import opened Block
  import opened TableChoice
  import opened Thrift
  import opened BlockSizes

  lemma OneBitWritten()
    ensures BitsOf(0, 1) == [false] && BitsOf(1, 1) == [true]
    ensures BitsOf(2, 2) == [true, false] && BitsOf(3, 2) == [true, true]
  {
    assert BitsOf(0, 0) == [];
    assert BitsOf(1, 1) == BitsOf(0, 0) + [true];
    assert BitsOf(2, 2) == BitsOf(1, 1) + [false];
    assert BitsOf(3, 2) == BitsOf(1, 1) + [true];
    assert Pow2(1) == 2;
  }

  method WriteFlag(w: BitWriter, flag: bool)
    requires w.Valid()
    modifies w`zbits, w`bsBuff, w`bsLive, w`pending
    ensures w.Valid() && w.Written() == old(w.Written()) + [flag]
  {
    OneBitWritten();
    if flag { w.W(1, 1); } else { w.W(1, 0); }
  }

  // ---------- selectors ----------

  /** Selectors turned into indices by moving each to the front of a list. */
  method MtfSelectors(selector: seq<nat>, nGroups: nat) returns (selectorMtf: seq<nat>)
    requires 0 < nGroups <= BZ_N_GROUPS && AllIn(selector, Upto(nGroups))
    ensures selectorMtf == SelectorMtf(Upto(nGroups), selector)
  {
    var pos := IdentityList(nGroups);
    selectorMtf := [];
    assert selector[0..] == selector;
    for i := 0 to |selector|
      invariant AllIn(selector[i..], pos[..nGroups])
      invariant selectorMtf + SelectorMtf(pos[..nGroups], selector[i..]) == SelectorMtf(Upto(nGroups), selector)
    {
      ghost var l, todo := pos[..nGroups], selector[i..];
      assert todo[1..] == selector[i + 1..] && todo[0] == selector[i];
      var j := MoveSelectorUp(pos, nGroups, selector[i]);
      AllInFront(todo, l, j);
      assert SelectorMtf(l, todo) == [j] + SelectorMtf(Front(l, j), todo[1..]);
      ConcatAssoc(selectorMtf, [j], SelectorMtf(Front(l, j), todo[1..]));
      selectorMtf := selectorMtf + [j];
    }
  }

  method MoveSelectorUp(pos: array<nat>, n: nat, v: nat) returns (j: nat)
    requires 1 <= n <= pos.Length && v in pos[..n]
    modifies pos
    ensures j == IndexOf(old(pos[..n]), v) && pos[..n] == Front(old(pos[..n]), j)
  {
    ghost var l := pos[..n];
    ghost var at := IndexOf(l, v);
    j := 0;
    var tmp := pos[j];
    while v != tmp
      invariant 0 <= j <= at < n && tmp == l[j]
      invariant forall k :: 1 <= k <= j ==> pos[k] == l[k - 1]
      invariant forall k :: j < k < n ==> pos[k] == l[k]
      decreases at - j
    {
      j := j + 1;
      var tmp2 := tmp;
      tmp := pos[j];
      pos[j] := tmp2;
    }
    FoundAt(l, v, j);
    pos[0] := tmp;
  }

  // ---------- codes ----------

  ghost predicate CodesFor(codes: seq<seq<nat>>, lens: seq<seq<Byte>>) {
    |codes| == |lens| && forall t :: 0 <= t < |lens| ==> CodeRow(codes[t], lens[t])
  }

  ghost predicate CodeRow(code: seq<nat>, lens: seq<Byte>) {
    |code| == |lens| && forall v :: 0 <= v < |lens| ==> code[v] == Code(lens, v)
  }

  /** The least and greatest length of a table. */
  method LengthRange(lens: seq<Byte>) returns (minLen: nat, maxLen: nat)
    requires lens != [] && forall i :: 0 <= i < |lens| ==> lens[i] <= 32
    ensures minLen <= maxLen <= 32 && forall i :: 0 <= i < |lens| ==> minLen <= lens[i] <= maxLen
    ensures (exists i :: 0 <= i < |lens| && lens[i] == minLen) && (exists i :: 0 <= i < |lens| && lens[i] == maxLen)
  {
    minLen := 32;
    maxLen := 0;
    for i := 0 to |lens|
      invariant i == 0 ==> minLen == 32 && maxLen == 0
      invariant i > 0 ==> minLen <= maxLen <= 32
      invariant forall k :: 0 <= k < i ==> minLen <= lens[k] <= maxLen
      invariant i > 0 ==> (exists k :: 0 <= k < i && lens[k] == minLen) && (exists k :: 0 <= k < i && lens[k] == maxLen)
    {
      if lens[i] > maxLen { maxLen := lens[i]; }
      if lens[i] < minLen { minLen := lens[i]; }
    }
  }

  /** Codes for all tables; with it assertions 3004 and 3005 hold. */
  method AssignCodes(lens: seq<seq<Byte>>, n: nat) returns (codes: seq<seq<nat>>)
    requires 0 < n <= BZ_MAX_ALPHA_SIZE && CompleteTables(lens, n)
    ensures CodesFor(codes, lens)
  {
    codes := [];
    var code := new nat[BZ_MAX_ALPHA_SIZE];
    for t := 0 to |lens|
      invariant |codes| == t && forall k :: 0 <= k < t ==> CodeRow(codes[k], lens[k])
    {
      var minLen, maxLen := LengthRange(lens[t]);
      assert maxLen <= 17 && minLen >= 1;
      HbAssignCodes(code, lens[t], minLen, maxLen, n);
      codes := codes + [code[..n]];
    }
  }

  // ---------- writing ----------

  method RowInUse(inUse: seq<bool>, i: nat) returns (used: bool)
    requires |inUse| == 256 && i < 16
    ensures used == RowUsed(inUse, i)
  {
    used := false;
    for j := 0 to 16
      invariant used == exists k :: 16 * i <= k < 16 * i + j && inUse[k]
    {
      if inUse[i * 16 + j] { used := true; }
    }
  }

  method RowsInUse(inUse: seq<bool>) returns (inUse16: seq<bool>)
    requires |inUse| == 256
    ensures inUse16 == RowFlags(inUse)
  {
    inUse16 := [];
    for i := 0 to 16
      invariant |inUse16| == i && forall k :: 0 <= k < i ==> inUse16[k] == RowUsed(inUse, k)
    {
      var used := RowInUse(inUse, i);
      inUse16 := inUse16 + [used];
    }
  }

  method WriteFlags(w: BitWriter, flags: seq<bool>)
    requires w.Valid()
    modifies w`zbits, w`bsBuff, w`bsLive, w`pending
    ensures w.Valid() && w.Written() == old(w.Written()) + flags
  {
    for i := 0 to |flags|
      invariant w.Valid() && w.Written() == old(w.Written()) + flags[..i]
    {
      assert flags[..i + 1] == flags[..i] + [flags[i]];
      WriteFlag(w, flags[i]);
    }
    assert flags[..|flags|] == flags;
  }

  /** The mapping table. */
  method WriteMap(w: BitWriter, inUse: seq<bool>)
    requires w.Valid() && |inUse| == 256
    modifies w`zbits, w`bsBuff, w`bsLive, w`pending
    ensures w.Valid() && w.Written() == old(w.Written()) + MapBits(inUse)
  {
    ghost var w0 := w.Written();
    var inUse16 := RowsInUse(inUse);
    WriteFlags(w, inUse16);
    ConcatAssoc(w0, inUse16, RowBits(inUse, 0));
    WriteRows(w, inUse, inUse16);
  }

  method WriteRows(w: BitWriter, inUse: seq<bool>, inUse16: seq<bool>)
    requires w.Valid() && |inUse| == 256 && inUse16 == RowFlags(inUse)
    modifies w`zbits, w`bsBuff, w`bsLive, w`pending
    ensures w.Valid() && w.Written() == old(w.Written()) + RowBits(inUse, 0)
  {
    ghost var all := w.Written() + RowBits(inUse, 0);
    var i := 0;
    while i < 16
      invariant 0 <= i <= 16 && w.Valid() && w.Written() + RowBits(inUse, i) == all
    {
      ghost var next := i + 1;
      if inUse16[i] {
        ConcatAssoc(w.Written(), inUse[16 * i..16 * i + 16], RowBits(inUse, next));
        WriteFlags(w, inUse[16 * i..16 * i + 16]);
      } else {
        assert RowBits(inUse, i) == RowBits(inUse, next);
      }
      i := i + 1;
    }
    assert w.Written() + [] == w.Written();
  }

  method WriteUnary(w: BitWriter, j0: nat)
    requires w.Valid()
    modifies w`zbits, w`bsBuff, w`bsLive, w`pending
    ensures w.Valid() && w.Written() == old(w.Written()) + Unary(j0)
  {
    ghost var all := w.Written() + Unary(j0);
    var j := j0;
    while j > 0
      invariant w.Valid() && w.Written() + Unary(j) == all
    {
      ConcatAssoc(w.Written(), [true], Unary(j - 1));
      WriteFlag(w, true);
      j := j - 1;
    }
    WriteFlag(w, false);
  }

  /** The selectors. */
  method WriteSelectors(w: BitWriter, nGroups: nat, selectorMtf: seq<nat>)
    requires w.Valid() && nGroups < 8 && |selectorMtf| < 0x8000
    modifies w`zbits, w`bsBuff, w`bsLive, w`pending
    ensures w.Valid()
    ensures w.Written() == old(w.Written()) + (BitsOf(nGroups, 3) + BitsOf(|selectorMtf|, 15) + UnaryBits(selectorMtf))
  {
    ghost var w0 := w.Written();
    assert nGroups < Pow2(3) && |selectorMtf| < Pow2(15) by { Widths(); }
    w.W(3, nGroups);
    w.W(15, |selectorMtf|);
    WriteUnaries(w, selectorMtf);
    Regroup(w0, BitsOf(nGroups, 3), BitsOf(|selectorMtf|, 15), UnaryBits(selectorMtf));
  }

  lemma Regroup<T>(w: seq<T>, a: seq<T>, b: seq<T>, c: seq<T>)
    ensures w + a + b + c == w + (a + b + c)
  {}

  method WriteUnaries(w: BitWriter, js: seq<nat>)
    requires w.Valid()
    modifies w`zbits, w`bsBuff, w`bsLive, w`pending
    ensures w.Valid() && w.Written() == old(w.Written()) + UnaryBits(js)
  {
    ghost var all := w.Written() + UnaryBits(js);
    assert js[0..] == js;
    for i := 0 to |js|
      invariant w.Valid() && w.Written() + UnaryBits(js[i..]) == all
    {
      ghost var todo, next := js[i..], i + 1;
      assert todo[1..] == js[next..];
      ConcatAssoc(w.Written(), Unary(todo[0]), UnaryBits(todo[1..]));
      WriteUnary(w, js[i]);
    }
    assert w.Written() + [] == w.Written();
  }

  /** 10 for one step up, 11 for one step down. */
  method WriteStep(w: BitWriter, up: bool)
    requires w.Valid()
    modifies w`zbits, w`bsBuff, w`bsLive, w`pending
    ensures w.Valid() && w.Written() == old(w.Written()) + [true, !up]
  {
    OneBitWritten();
    assert Pow2(2) == 4;
    if up { w.W(2, 2); } else { w.W(2, 3); }
  }

  lemma StepUp(w: seq<bool>, curr: nat, next: nat, to: nat)
    requires curr < to && next == curr + 1
    ensures w + [true, false] + Steps(next, to) == w + Steps(curr, to)
  {
    ConcatAssoc(w, [true, false], Steps(next, to));
  }

  lemma StepDown(w: seq<bool>, curr: nat, next: nat, to: nat)
    requires to < curr && next == curr - 1
    ensures w + [true, true] + Steps(next, to) == w + Steps(curr, to)
  {
    ConcatAssoc(w, [true, true], Steps(next, to));
  }

  method WriteSteps(w: BitWriter, curr0: nat, to: nat)
    requires w.Valid()
    modifies w`zbits, w`bsBuff, w`bsLive, w`pending
    ensures w.Valid() && w.Written() == old(w.Written()) + Steps(curr0, to)
  {
    ghost var all := w.Written() + Steps(curr0, to);
    var curr := curr0;
    while curr < to
      invariant curr0 <= curr && (curr0 <= to ==> curr <= to) && w.Valid() && w.Written() + Steps(curr, to) == all
    {
      ghost var next := curr + 1;
      StepUp(w.Written(), curr, next, to);
      WriteStep(w, true);
      curr := curr + 1;
    }
    while curr > to
      invariant to <= curr && w.Valid() && w.Written() + Steps(curr, to) == all
    {
      ghost var next := curr - 1;
      StepDown(w.Written(), curr, next, to);
      WriteStep(w, false);
      curr := curr - 1;
    }
    WriteFlag(w, false);
  }

  method WriteLengths(w: BitWriter, lens: seq<Byte>)
    requires w.Valid() && lens != [] && LengthsOk(lens)
    modifies w`zbits, w`bsBuff, w`bsLive, w`pending
    ensures w.Valid() && w.Written() == old(w.Written()) + LengthBits(lens)
  {
    Widths();
    var curr := lens[0];
    ghost var all := w.Written() + LengthBits(lens);
    ConcatAssoc(w.Written(), BitsOf(curr, 5), DeltaBits(curr, lens));
    w.W(5, curr);
    assert lens[0..] == lens;
    for i := 0 to |lens|
      invariant w.Valid() && w.Written() + DeltaBits(curr, lens[i..]) == all
    {
      ghost var todo, next := lens[i..], i + 1;
      assert todo[1..] == lens[next..];
      ConcatAssoc(w.Written(), Steps(curr, todo[0]), DeltaBits(todo[0], todo[1..]));
      WriteSteps(w, curr, lens[i]);
      curr := lens[i];
    }
    assert w.Written() + [] == w.Written();
  }

  /** The coding tables. */
  method WriteTables(w: BitWriter, lens: seq<seq<Byte>>, ghost n: nat)
    requires w.Valid() && n > 0 && AllLengthsOk(lens, n)
    modifies w`zbits, w`bsBuff, w`bsLive, w`pending
    ensures w.Valid() && w.Written() == old(w.Written()) + TablesBits(lens)
  {
    ghost var all := w.Written() + TablesBits(lens);
    assert lens[0..] == lens;
    for t := 0 to |lens|
      invariant w.Valid() && w.Written() + TablesBits(lens[t..]) == all
    {
      ghost var todo, next := lens[t..], t + 1;
      assert todo[1..] == lens[next..];
      ConcatAssoc(w.Written(), LengthBits(todo[0]), TablesBits(todo[1..]));
      WriteLengths(w, lens[t]);
    }
    assert w.Written() + [] == w.Written();
  }

  ghost predicate AllGood(lens: seq<seq<Byte>>) {
    forall t :: 0 <= t < |lens| ==> GoodLengths(lens[t]) && NoneLonger(lens[t], LONGEST_SENT)
  }

  /** One group of symbols, all with the same table. */
  method WriteGroup(w: BitWriter, lens: seq<seq<Byte>>, codes: seq<seq<nat>>, selector: seq<nat>, s: seq<nat>,
                    sel: nat, gs: nat, end: nat)
    requires w.Valid() && Codable(lens, selector, s) && CodesFor(codes, lens) && AllGood(lens)
    requires gs == BZ_G_SIZE * sel && gs <= end <= |s| && end <= gs + BZ_G_SIZE && sel < |selector|
    requires selector[sel] < |lens|
    modifies w`zbits, w`bsBuff, w`bsLive, w`pending
    ensures w.Valid()
    ensures w.Written() + SymbolBits(lens, selector, s, end) == old(w.Written()) + SymbolBits(lens, selector, s, gs)
  {
    ghost var all := w.Written() + SymbolBits(lens, selector, s, gs);
    var t := selector[sel];
    assert CodeRow(codes[t], lens[t]) && GoodLengths(lens[t]);
    var i := gs;
    while i < end
      invariant gs <= i <= end && w.Valid() && w.Written() + SymbolBits(lens, selector, s, i) == all
    {
      assert Coded(lens, selector, s, i) && i / BZ_G_SIZE == sel;
      CodeFits(lens[t], s[i]);
      ConcatAssoc(w.Written(), CodeBits(lens[t], s[i]), SymbolBits(lens, selector, s, i + 1));
      w.W(lens[t][s[i]], codes[t][s[i]]);
      i := i + 1;
    }
  }

  /** The block data proper; with it assertions 3006 and 3007 hold. */
  method WriteSymbols(w: BitWriter, lens: seq<seq<Byte>>, codes: seq<seq<nat>>, selector: seq<nat>, s: seq<nat>)
    requires w.Valid() && Codable(lens, selector, s) && CodesFor(codes, lens) && AllGood(lens)
    requires |selector| == SelectorCount(|s|) && forall g :: 0 <= g < |selector| ==> selector[g] < |lens|
    modifies w`zbits, w`bsBuff, w`bsLive, w`pending
    ensures w.Valid() && w.Written() == old(w.Written()) + SymbolBits(lens, selector, s, 0)
  {
    ghost var all := w.Written() + SymbolBits(lens, selector, s, 0);
    var selCtr := 0;
    var gs := 0;
    while gs < |s|
      invariant gs <= |s| && (gs < |s| ==> gs == BZ_G_SIZE * selCtr) && selCtr == SelectorCount(gs)
      invariant w.Valid() && w.Written() + SymbolBits(lens, selector, s, gs) == all
    {
      var end := Min(gs + BZ_G_SIZE, |s|);
      assert selCtr < |selector|;
      WriteGroup(w, lens, codes, selector, s, selCtr, gs, end);
      gs := end;
      selCtr := selCtr + 1;
    }
    assert selCtr == |selector|;
    assert w.Written() + [] == w.Written();
  }

  // ---------- the whole block ----------

  /** bsPutUChar. */
  method PutUChar(w: BitWriter, c: Byte)
    requires w.Valid()
    modifies w`zbits, w`bsBuff, w`bsLive, w`pending
    ensures w.Valid() && w.Written() == old(w.Written()) + BitsOf(c, 8)
  {
    assert Pow2(8) == 256;
    w.W(8, c);
  }

  /** bsPutUInt32: four bytes, most significant first. */
  method PutUInt32(w: BitWriter, u: nat)
    requires w.Valid() && u < UINT32
    modifies w`zbits, w`bsBuff, w`bsLive, w`pending
    ensures w.Valid() && w.Written() == old(w.Written()) + BitsOf(u, 32)
  {
    ghost var w0 := w.Written();
    FourBytes(u);
    PutUChar(w, u / 0x100_0000 % 256);
    PutUChar(w, u / 0x1_0000 % 256);
    PutUChar(w, u / 0x100 % 256);
    PutUChar(w, u % 256);
    Regroup4(w0, BitsOf(u / 0x100_0000 % 256, 8), BitsOf(u / 0x1_0000 % 256, 8), BitsOf(u / 0x100 % 256, 8),
             BitsOf(u % 256, 8));
  }

  lemma Regroup4<T>(w: seq<T>, a: seq<T>, b: seq<T>, c: seq<T>, d: seq<T>)
    ensures w + a + b + c + d == w + (a + (b + (c + d)))
  {}

  lemma FourBytes(u: nat)
    ensures BitsOf(u, 32) == BitsOf(u / 0x100_0000 % 256, 8) + (BitsOf(u / 0x1_0000 % 256, 8)
                             + (BitsOf(u / 0x100 % 256, 8) + BitsOf(u % 256, 8)))
  {
    ByteShifts(u);
    TopByte(u, 24, u / 0x100_0000);
    TopByte(u, 16, u / 0x1_0000);
    TopByte(u, 8, u / 0x100);
    LowByte(u);
  }

  lemma ByteShifts(u: nat)
    ensures Shr(u, 8) == u / 0x100 && Shr(u, 16) == u / 0x1_0000 && Shr(u, 24) == u / 0x100_0000
  {
    ShrTwice(u, 8, 8);
    ShrTwice(u, 16, 8);
    ShrByte(u);
    ShrByte(u / 0x100);
    ShrByte(u / 0x1_0000);
  }

  lemma LowByte(v: nat)
    ensures BitsOf(v % 256, 8) == BitsOf(v, 8)
  {
    assert Pow2(8) == 256;
    LowBits(v, 8);
  }

  lemma TopByte(u: nat, k: nat, d: nat)
    requires d == Shr(u, k)
    ensures BitsOf(u, k + 8) == BitsOf(d % 256, 8) + BitsOf(u, k)
  {
    SplitBits(u, 8, k);
    LowByte(d);
  }

  method PutBytes(w: BitWriter, bytes: seq<Byte>)
    requires w.Valid()
    modifies w`zbits, w`bsBuff, w`bsLive, w`pending
    ensures w.Valid() && w.Written() == old(w.Written()) + BytesBits(bytes)
  {
    for i := 0 to |bytes|
      invariant w.Valid() && w.Written() == old(w.Written()) + BytesBits(bytes[..i])
    {
      assert bytes[..i + 1][..i] == bytes[..i];
      ConcatAssoc(old(w.Written()), BytesBits(bytes[..i]), BitsOf(bytes[i], 8));
      PutUChar(w, bytes[i]);
    }
    assert bytes[..|bytes|] == bytes;
  }

  /** A magic number. */
  method PutMagic(w: BitWriter, magic: seq<Byte>)
    requires w.Valid()
    modifies w`zbits, w`bsBuff, w`bsLive, w`pending
    ensures w.Valid() && w.Written() == old(w.Written()) + Marked(magic, [])
  {
    PutBytes(w, magic);
    MarkedIs(magic, []);
    assert BytesBits(magic) + [] == BytesBits(magic);
  }

  /** A magic number and a checksum. */
  method PutMarked(w: BitWriter, magic: seq<Byte>, crc: nat)
    requires w.Valid() && crc < UINT32
    modifies w`zbits, w`bsBuff, w`bsLive, w`pending
    ensures w.Valid() && w.Written() == old(w.Written()) + Marked(magic, BitsOf(crc, 32))
  {
    MarkedIs(magic, BitsOf(crc, 32));
    ConcatAssoc(w.Written(), BytesBits(magic), BitsOf(crc, 32));
    PutBytes(w, magic);
    PutUInt32(w, crc);
  }

  lemma CompleteIsGood(lens: seq<seq<Byte>>, n: nat)
    requires CompleteTables(lens, n) && 2 <= n <= BZ_MAX_ALPHA_SIZE
    ensures AllGood(lens) && AllLengthsOk(lens, n)
  {
    forall t | 0 <= t < |lens| ensures GoodLengths(lens[t]) && NoneLonger(lens[t], LONGEST_SENT) {
      forall m | 0 <= m <= LONGEST ensures CodesFit(lens[t], m) { CompleteFits(lens[t], m); }
    }
  }

  lemma CompleteFits(lens: seq<Byte>, m: nat)
    requires CompleteLengths(lens, 17) && m <= LONGEST
    ensures CodesFit(lens, m)
  {
    if m <= 17 {
      KraftSuffices(lens, m, 17);
    } else {
      KraftWider(lens, 17, m);
      KraftSuffices(lens, m, m);
    }
  }

  /** The Kraft sum in finer units. */
  lemma {:induction false} KraftWider(lens: seq<Byte>, n: nat, m: nat)
    requires n <= m && forall i :: 0 <= i < |lens| ==> lens[i] <= n
    ensures KraftUpTo(lens, m, m) == Shl(KraftUpTo(lens, n, n), m - n)
    ensures KraftUpTo(lens, n, n) == Pow2(n) ==> KraftUpTo(lens, m, m) == Pow2(m)
  {
    if lens == [] {
      ShlZero(m - n);
    } else {
      var t, l := lens[..|lens| - 1], lens[|lens| - 1];
      KraftWider(t, n, m);
      ShlSum(KraftUpTo(t, n, n), Pow2(n - l), m - n);
      ShlPow2(n - l, m - n);
    }
    ShlPow2(n, m - n);
  }

  /** What sendMTFValues decides for symbols s. */
  ghost predicate Chosen(h: Header, s: seq<nat>) {
    && HeaderOk(h) && AllGood(h.lens) && |h.selectors| == SelectorCount(|s|) && Codable(h.lens, h.selectors, s)
  }

  lemma ChosenOk(h: Header, s: seq<nat>, n: nat)
    requires |h.selectors| <= BZ_MAX_SELECTORS
    requires |h.inUse| == 256 && n == |Used(h.inUse)| + 2 && 3 <= n <= BZ_MAX_ALPHA_SIZE && AllBelow(s, n) && s != []
    requires |h.lens| == GroupsFor(|s|) && CompleteTables(h.lens, n) && |h.selectors| == SelectorCount(|s|)
    requires forall g :: 0 <= g < |h.selectors| ==> h.selectors[g] < |h.lens|
    ensures Chosen(h, s)
  {
    CompleteIsGood(h.lens, n);
    forall k | 0 <= k < |s| ensures Coded(h.lens, h.selectors, s, k) {}
  }

  /** sendMTFValues; with at most 900001 symbols, assertion 3003 holds. */
  method SendMTFValues(w: BitWriter, s: seq<nat>, mtfFreq: seq<nat>, inUse: seq<bool>, nInUse: nat,
                       ghost crc: nat, ghost origPtr: nat)
    returns (ghost h: Header)
    requires w.Valid() && |inUse| == 256 && nInUse == |Used(inUse)| && 1 <= nInUse <= 256
    requires 0 < |s| <= 900001 && AllBelow(s, nInUse + 2) && |mtfFreq| >= nInUse + 2 && Counted(s, mtfFreq, nInUse + 2)
    modifies w`zbits, w`bsBuff, w`bsLive, w`pending
    ensures h == Header(crc, false, origPtr, inUse, h.selectors, h.lens) && Chosen(h, s)
    ensures Decided(h.selectors, h.lens, s, nInUse + 2)
    ensures w.Valid() && 5 * |SymbolBits(h.lens, h.selectors, s, 0)| <= 47 * (|s| + 6 * 258)
    ensures w.Written() == old(w.Written()) + (CodingBits(h) + SymbolBits(h.lens, h.selectors, s, 0))
  {
    ghost var w0 := w.Written();
    var selector, lens;
    ghost var history, rfreq, rounds;
    selector, lens, history, rfreq, rounds := ChooseTables(s, mtfFreq, nInUse + 2);
    h := Header(crc, false, origPtr, inUse, selector, lens);
    assert |selector| <= BZ_MAX_SELECTORS;  // assertion 3003
    ChosenOk(h, s, nInUse + 2);
    SymbolsCost(selector, lens, history[3], rfreq, rounds, s, nInUse + 2);
    SelectorsAreIn(selector, |lens|);
    var selectorMtf := MtfSelectors(selector, |lens|);
    var codes := AssignCodes(lens, nInUse + 2);
    WriteMap(w, inUse);
    WriteSelectors(w, |lens|, selectorMtf);
    WriteTables(w, lens, nInUse + 2);
    WriteSymbols(w, lens, codes, selector, s);
    RegroupCoding(w0, MapBits(inUse), SelectorBits(h), TablesBits(lens), SymbolBits(lens, selector, s, 0));
  }

  lemma RegroupCoding<T>(w: seq<T>, a: seq<T>, b: seq<T>, c: seq<T>, d: seq<T>)
    ensures w + a + b + c + d == w + (a + b + c + d)
  {}

  /** The block's magic number, checksum, randomisation bit and origPtr. */
  method StartBlock(w: BitWriter, crc: nat, origPtr: nat)
    requires w.Valid() && crc < UINT32 && origPtr < 0x100_0000
    modifies w`zbits, w`bsBuff, w`bsLive, w`pending
    ensures w.Valid()
    ensures w.Written()
         == old(w.Written()) + Marked(BLOCK_MAGIC, BitsOf(crc, 32)) + BitsOf(0, 1) + BitsOf(origPtr, 24)
  {
    PutMarked(w, BLOCK_MAGIC, crc);
    assert Pow2(1) == 2;
    w.W(1, 0);
    assert origPtr < Pow2(24) by { Widths(); }
    w.W(24, origPtr);
  }

  /** The symbols of a sorted block and their frequencies. */
  method BlockSymbols(block: seq<Byte>, ptr: seq<nat>, inUse: seq<bool>)
    returns (s: seq<nat>, freq: seq<nat>, nInUse: nat, ghost out: seq<nat>)
    requires 0 < |block| == |ptr| && |inUse| == 256
    requires forall i :: 0 <= i < |ptr| ==> ptr[i] < |block|
    requires forall i :: 0 <= i < |block| ==> inUse[block[i]]
    ensures nInUse == |Used(inUse)| && 0 < nInUse <= 256 && |freq| == BZ_MAX_ALPHA_SIZE
    ensures Renamed(LastColumn(block, ptr), Used(inUse), out) && AllIn(out, Upto(nInUse))
    ensures s == Symbols(Upto(nInUse), out, 0, nInUse + 1) && 0 < |s| <= |block| + 1
    ensures AllBelow(s, nInUse + 2) && Counted(s, freq, nInUse + 2)
  {
    var mtfv := new nat[|block| + 1];
    var mtfFreq := new nat[BZ_MAX_ALPHA_SIZE];
    var nMTF;
    nMTF, nInUse, out := GenerateMTFValues(ptr, block, inUse, mtfv, mtfFreq);
    s := mtfv[..nMTF];
    freq := mtfFreq[..];
    SymbolsBelow(Upto(nInUse), out, nInUse + 1);
  }

  /** The tables and symbols of a sorted block. */
  method SendBlock(w: BitWriter, level: nat, block: seq<Byte>, ptr: seq<nat>, inUse: seq<bool>,
                   ghost origPtr: nat, ghost crc: nat, ghost column: seq<Byte>)
    returns (ghost h: Header, ghost symbols: seq<nat>, ghost out: seq<nat>)
    requires w.Valid() && 1 <= level <= 9 && 0 < |block| <= 100000 * level && crc < UINT32
    requires |ptr| == |block| && (forall i :: 0 <= i < |ptr| ==> ptr[i] < |block|) && origPtr < |block|
    requires |inUse| == 256 && forall i :: 0 <= i < |block| ==> inUse[block[i]]
    requires column == LastColumn(block, ptr)
    modifies w`zbits, w`bsBuff, w`bsLive, w`pending
    ensures w.Valid() && Carries(level, h, symbols, out, column) && h.origPtr == origPtr && h.crc == crc
    ensures h.inUse == inUse && Decided(h.selectors, h.lens, symbols, |Used(inUse)| + 2)
    ensures Codable(h.lens, h.selectors, symbols)
    ensures 5 * |SymbolBits(h.lens, h.selectors, symbols, 0)| <= 47 * (|symbols| + 6 * 258)
    ensures w.Written() == old(w.Written()) + (CodingBits(h) + SymbolBits(h.lens, h.selectors, symbols, 0))
  {
    var s, mtfFreq, nInUse;
    s, mtfFreq, nInUse, out := BlockSymbols(block, ptr, inUse);
    symbols := s;
    h := SendMTFValues(w, s, mtfFreq, inUse, nInUse, crc, origPtr);
    CarriedAs(level, h, s, out, column);
  }

  /** BZ2_compressBlock for a sorted, non-empty block: what it writes is a whole block whose
      column is the last column of the sorted rotations. */
  method CompressBlock(w: BitWriter, level: nat, block: seq<Byte>, ptr: seq<nat>, origPtr: nat, inUse: seq<bool>,
                       crc: nat)
    returns (ghost h: Header, ghost symbols: seq<nat>, ghost out: seq<nat>)
    requires w.Valid() && 1 <= level <= 9 && 0 < |block| <= 100000 * level && crc < UINT32
    requires |ptr| == |block| && (forall i :: 0 <= i < |ptr| ==> ptr[i] < |block|) && origPtr < |block|
    requires |inUse| == 256 && forall i :: 0 <= i < |block| ==> inUse[block[i]]
    modifies w`zbits, w`bsBuff, w`bsLive, w`pending
    ensures w.Valid() && Carries(level, h, symbols, out, LastColumn(block, ptr)) && h.origPtr == origPtr && h.crc == crc
    ensures h.inUse == inUse && Decided(h.selectors, h.lens, symbols, |Used(inUse)| + 2)
    ensures w.Written() == old(w.Written()) + BlockBits(level, h, symbols, out, LastColumn(block, ptr))
    ensures |BlockBits(level, h, symbols, out, LastColumn(block, ptr))| <= ThriftyBound(|block|)
  {
    ghost var w0 := w.Written();
    ghost var column := LastColumn(block, ptr);
    StartBlock(w, crc, origPtr);
    ghost var w1 := w.Written();
    h, symbols, out := SendBlock(w, level, block, ptr, inUse, origPtr, crc, column);
    Assemble(level, h, symbols, out, column, w0, w1, w.Written());
    ThriftyLength(level, h, symbols, out, column);
  }

  lemma Assemble(level: nat, h: Header, s: seq<nat>, out: seq<nat>, column: seq<Byte>,
                 w0: seq<bool>, w1: seq<bool>, w2: seq<bool>)
    requires Carries(level, h, s, out, column) && Codable(h.lens, h.selectors, s)
    requires w1 == w0 + Marked(BLOCK_MAGIC, BitsOf(h.crc, 32)) + BitsOf(0, 1) + BitsOf(h.origPtr, 24)
    requires w2 == w1 + (CodingBits(h) + SymbolBits(h.lens, h.selectors, s, 0))
    ensures w2 == w0 + BlockBits(level, h, s, out, column)
  {
    RegroupHeader(w0, Marked(BLOCK_MAGIC, BitsOf(h.crc, 32)), BitsOf(0, 1), BitsOf(h.origPtr, 24), CodingBits(h),
                  SymbolBits(h.lens, h.selectors, s, 0));
  }

  lemma RegroupHeader<T>(w: seq<T>, a: seq<T>, b: seq<T>, c: seq<T>, d: seq<T>, e: seq<T>)
    ensures w + a + b + c + (d + e) == w + (a + b + c + d + e)
  {}

  lemma SymbolsBelow(l: seq<nat>, out: seq<nat>, eob: nat)
    requires l != [] && eob == |l| + 1 && AllIn(out, l)
    ensures AllBelow(Symbols(l, out, 0, eob), eob + 1) && Symbols(l, out, 0, eob) != []
  {
    forall i | 0 <= i < |Symbols(l, out, 0, eob)| ensures Symbols(l, out, 0, eob)[i] < eob + 1 {
      SymbolsAreSmall(l, out, 0, eob, i);
    }
    SymbolsNotEmpty(l, out, 0, eob);
  }

  lemma {:induction false} SymbolsNotEmpty(l: seq<nat>, out: seq<nat>, z: nat, eob: nat)
    requires l != [] && AllIn(out, l)
    ensures Symbols(l, out, z, eob) != []
    decreases |out|
  {
    if out != [] && l[0] == out[0] { SymbolsNotEmpty(l, out[1..], z + 1, eob); }
  }

  lemma CarriedAs(level: nat, h: Header, s: seq<nat>, out: seq<nat>, column: seq<Byte>)
    requires Chosen(h, s) && !h.randomised && h.crc < UINT32 && 1 <= level <= 9
    requires h.origPtr < |column| <= 100000 * level && Renamed(column, Used(h.inUse), out)
    requires AllIn(out, Upto(|Used(h.inUse)|)) && s == Symbols(Upto(|Used(h.inUse)|), out, 0, |Used(h.inUse)| + 1)
    ensures Carries(level, h, s, out, column)
  {}
}
