/** A whole compressed block: its front (magic, checksum, origPtr, tables) and symbols,
    and that the decoder recovers the block whatever follows it. */
module Block {
  import opened Basics
  import opened Bits
  import opened BurrowsWheeler
  import opened Huffman
  import opened MoveToFront
  import opened GenerateMtf
  import opened BlockFormat
  import opened SymbolFormat

  const BLOCK_MAGIC: seq<Byte> := [0x31, 0x41, 0x59, 0x26, 0x53, 0x59]
  const TRAILER_MAGIC: seq<Byte> := [0x17, 0x72, 0x45, 0x38, 0x50, 0x90]

  /** What precedes the symbols of a block. */
  datatype Header = Header(crc: nat, randomised: bool, origPtr: nat, inUse: seq<bool>, selectors: seq<nat>,
                           lens: seq<seq<Byte>>)

  /** A block, the stream's combined checksum, or a header that makes the source write past its
      selector tables; nothing is said about what happens then. */
  datatype Section = BlockHeader(header: Header) | Trailer(combinedCRC: nat) | SelectorOverrun

  /** The number of coding tables and the table each group of symbols uses. */
  datatype Groups = Groups(nGroups: nat, selectors: seq<nat>) | TooMany

  // ---------- reading ----------

  /** The number of groups and of selectors. */
  function ParseCounts(bits: seq<bool>): (r: Parse<(nat, nat)>)
    ensures r.Done? ==> 2 <= r.value.0 <= 6 && 1 <= r.value.1
    ensures r.Done? ==> |r.rest| <= |bits|
  {
    var (nGroups, bits1) :- GetBits(bits, 3);
    if nGroups < 2 || nGroups > 6 then Corrupt
    else
      var (nSelectors, bits2) :- GetBits(bits1, 15);
      if nSelectors < 1 then Corrupt else Done((nGroups, nSelectors), bits2)
  }

  /** The selectors, move-to-front coded. */
  function ParseGroups(nGroups: nat, nSelectors: nat, bits: seq<bool>): (r: Parse<Groups>)
    requires 2 <= nGroups <= 6 && 1 <= nSelectors
    ensures r.Done? && r.value.Groups? ==> r.value.nGroups == nGroups && 1 <= |r.value.selectors| <= BZ_MAX_SELECTORS
    ensures r.Done? ==> |r.rest| <= |bits|
  {
    var (unaries, bits1) :- ParseUnaries(nSelectors, nGroups, [], bits);
    match unaries
    case AllRead(js) => Done(Groups(nGroups, UndoMtf(Upto(nGroups), js)), bits1)
    case PastTable => Done(TooMany, bits1)
  }

  /** Number of groups, number of selectors, selectors. */
  function ParseSelectors(bits: seq<bool>): (r: Parse<Groups>)
    ensures r.Done? && r.value.Groups? ==> 2 <= r.value.nGroups <= 6 && 1 <= |r.value.selectors| <= BZ_MAX_SELECTORS
    ensures r.Done? ==> |r.rest| <= |bits|
  {
    var ((nGroups, nSelectors), bits1) :- ParseCounts(bits);
    ParseGroups(nGroups, nSelectors, bits1)
  }

  /** What a block's header says before the mapping table. */
  datatype Begun = Begun(crc: nat, randomised: bool, origPtr: nat)

  /** The header, once the code lengths have been parsed. */
  function CodingOnward(f: Begun, inUse: seq<bool>, groups: Groups, p: Parse<seq<seq<Byte>>>): (r: Parse<Section>)
    requires groups.Groups?
    ensures r.Done? ==> p.Done? && |r.rest| <= |p.rest|
  {
    var (lens, rest) :- p;
    Done(BlockHeader(Header(f.crc, f.randomised, f.origPtr, inUse, groups.selectors, lens)), rest)
  }

  /** The coding tables, once the selectors have been parsed. */
  function SelectorsOnward(f: Begun, inUse: seq<bool>, p: Parse<Groups>): (r: Parse<Section>)
    requires |inUse| == 256
    ensures r.Done? ==> p.Done? && |r.rest| <= |p.rest|
  {
    var (groups, rest) :- p;
    if groups.TooMany? then Done(SelectorOverrun, rest)
    else CodingOnward(f, inUse, groups, ParseTables(groups.nGroups, |Used(inUse)| + 2, [], rest))
  }

  /** The selectors, once the mapping table has been parsed. */
  function MapOnward(f: Begun, p: Parse<seq<bool>>): (r: Parse<Section>)
    requires p.Done? ==> |p.value| == 256
    ensures r.Done? ==> p.Done? && |r.rest| <= |p.rest|
  {
    var (inUse, rest) :- p;
    if Used(inUse) == [] then Corrupt else SelectorsOnward(f, inUse, ParseSelectors(rest))
  }

  /** Mapping table, selectors and coding tables. */
  function ParseCoding(f: Begun, bits: seq<bool>): (r: Parse<Section>)
    ensures r.Done? ==> |r.rest| <= |bits|
  {
    MapOnward(f, ParseMap(bits))
  }

  /** n more bytes of origPtr; level is blockSize100k. */
  function OrigOnward(level: nat, crc: nat, randomised: bool, n: nat, v: nat, bits: seq<bool>): (r: Parse<Section>)
    ensures r.Done? ==> |r.rest| <= |bits|
  {
    var (origPtr, rest) :- GetBytes(n, v, bits);
    if origPtr > 10 + 100000 * level then Corrupt else ParseCoding(Begun(crc, randomised, origPtr), rest)
  }

  function RandOnward(level: nat, crc: nat, bits: seq<bool>): (r: Parse<Section>)
    ensures r.Done? ==> |r.rest| <= |bits|
  {
    var (randomised, rest) :- GetBits(bits, 1);
    OrigOnward(level, crc, randomised == 1, 3, 0, rest)
  }

  /** n more bytes of the block's checksum. */
  function BcrcOnward(level: nat, n: nat, v: nat, bits: seq<bool>): (r: Parse<Section>)
    ensures r.Done? ==> |r.rest| <= |bits|
  {
    var (crc, rest) :- GetBytes(n, v, bits);
    RandOnward(level, crc, rest)
  }

  /** n more bytes of the combined checksum. */
  function CcrcOnward(n: nat, v: nat, bits: seq<bool>): (r: Parse<Section>)
    ensures r.Done? ==> |r.rest| <= |bits|
  {
    var (crc, rest) :- GetBytes(n, v, bits);
    Done(Trailer(crc), rest)
  }

  /** BZ2_decompress from a block header, or the stream's end, up to the symbols. */
  function ParseSection(level: nat, bits: seq<bool>): (r: Parse<Section>)
    ensures r.Done? ==> |r.rest| <= |bits|
  {
    var (uc, rest) :- GetBits(bits, 8);
    if uc == TRAILER_MAGIC[0] then
      var (_, rest') :- Expect(TRAILER_MAGIC[1..], rest);
      CcrcOnward(4, 0, rest')
    else if uc != BLOCK_MAGIC[0] then Corrupt
    else
      var (_, rest') :- Expect(BLOCK_MAGIC[1..], rest);
      BcrcOnward(level, 4, 0, rest')
  }

  /** The column as bytes; indices are always those of used bytes. */
  function Named(used: seq<Byte>, col: seq<nat>): (r: seq<Byte>)
    ensures |r| == |col|
  {
    seq(|col|, i requires 0 <= i < |col| => if col[i] < |used| then used[col[i]] else 0)
  }

  ghost predicate HeaderOk(f: Header) {
    && |f.inUse| == 256 && 1 <= |Used(f.inUse)|
    && 2 <= |f.lens| <= 6 && 1 <= |f.selectors| <= 18002
    && (forall i :: 0 <= i < |f.selectors| ==> f.selectors[i] < |f.lens|)
    && AllLengthsOk(f.lens, |Used(f.inUse)| + 2)
  }

  ghost predicate TablesForAll(tables: seq<Tables>, lens: seq<seq<Byte>>) {
    |tables| == |lens| && forall t :: 0 <= t < |lens| ==> TablesFor(tables[t], lens[t])
  }

  function CodingOf(level: nat, f: Header, tables: seq<Tables>): Coding
    requires |f.inUse| == 256
  {
    Coding(f.selectors, tables, |Used(f.inUse)| + 1, 100000 * level)
  }

  lemma HeaderGivesCoding(level: nat, f: Header, tables: seq<Tables>)
    requires HeaderOk(f) && TablesForAll(tables, f.lens)
    ensures ValidCoding(CodingOf(level, f, tables))
  {
    var c := CodingOf(level, f, tables);
    forall g | 0 <= g < |c.selectors| ensures TableFor(c, g) {
      TablesInAlphabet(tables[f.selectors[g]], f.lens[f.selectors[g]]);
    }
  }

  /** The block's symbols, as the bytes of the last column; origPtr must lie within it. */
  ghost function ParseBody(level: nat, f: Header, tables: seq<Tables>, bits: seq<bool>): (r: Parse<seq<Byte>>)
    requires HeaderOk(f) && TablesForAll(tables, f.lens)
    ensures r.Done? ==> |r.rest| <= |bits|
  {
    HeaderGivesCoding(level, f, tables);
    var (col, rest) :- ReadColumn(CodingOf(level, f, tables), Progress(Upto(256), [], 0, 1), 0, bits);
    if f.origPtr >= |col| then Corrupt else Done(Named(Used(f.inUse), col), rest)
  }

  /** All tables for a header's code lengths read the same body. */
  lemma BodySame(level: nat, f: Header, t: seq<Tables>, u: seq<Tables>, bits: seq<bool>)
    requires HeaderOk(f) && TablesForAll(t, f.lens) && TablesForAll(u, f.lens)
    ensures ParseBody(level, f, t, bits) == ParseBody(level, f, u, bits)
  {
    HeaderGivesCoding(level, f, t);
    HeaderGivesCoding(level, f, u);
    ColumnSame(CodingOf(level, f, t), CodingOf(level, f, u), f.lens, Progress(Upto(256), [], 0, 1), 0, bits);
  }

  lemma {:induction false} UndoneInRange(pos: seq<nat>, js: seq<nat>, n: nat)
    requires forall i :: 0 <= i < |js| ==> js[i] < |pos|
    requires forall i :: 0 <= i < |pos| ==> pos[i] < n
    ensures forall i :: 0 <= i < |js| ==> UndoMtf(pos, js)[i] < n
    decreases |js|
  {
    if js != [] { UndoneInRange(Front(pos, js[0]), js[1..], n); }
  }

  lemma ParsedSelectorsOk(bits: seq<bool>)
    requires ParseSelectors(bits).Done? && ParseSelectors(bits).value.Groups?
    ensures var g := ParseSelectors(bits).value; forall i :: 0 <= i < |g.selectors| ==> g.selectors[i] < g.nGroups
  {
    var groups := GetBits(bits, 3);
    var n := GetBits(groups.rest, 15);
    var js := ParseUnaries(n.value, groups.value, [], n.rest);
    UndoneInRange(Upto(groups.value), js.value.js, groups.value);
  }

  lemma ParsedCodingOk(f: Begun, bits: seq<bool>)
    requires ParseCoding(f, bits).Done? && ParseCoding(f, bits).value.BlockHeader?
    ensures HeaderOk(ParseCoding(f, bits).value.header)
  {
    var mapping := ParseMap(bits);
    var sel := ParseSelectors(mapping.rest);
    ParsedSelectorsOk(mapping.rest);
    TablesAreOk(sel.value.nGroups, |Used(mapping.value)| + 2, [], sel.rest);
  }

  /** What the decoder accepts as a block's header: a map that marks some bytes, 2 to 6 tables with
      lengths from 1 to 20, 1 to 18002 selectors among them, and a row no more than ten beyond the largest block. */
  ghost predicate Readable(level: nat, h: Header) {
    HeaderOk(h) && h.crc < 0x1_0000_0000 && h.origPtr < 0x100_0000 && h.origPtr <= 10 + 100000 * level
  }

  /** Every header that is accepted is fit for building tables. */
  lemma ParsedSectionOk(level: nat, bits: seq<bool>)
    requires ParseSection(level, bits).Done? && ParseSection(level, bits).value.BlockHeader?
    ensures Readable(level, ParseSection(level, bits).value.header)
  {
    var uc := GetBits(bits, 8);
    var magic := Expect(BLOCK_MAGIC[1..], uc.rest);
    var crc := GetBytes(4, 0, magic.rest);
    var random := GetBits(crc.rest, 1);
    var orig := GetBytes(3, 0, random.rest);
    ParsedCodingOk(Begun(crc.value, random.value == 1, orig.value), orig.rest);
    NumbersFit(magic.rest, random.rest);
  }

  lemma NumbersFit(bits: seq<bool>, more: seq<bool>)
    ensures GetBytes(4, 0, bits).Done? ==> GetBytes(4, 0, bits).value < 0x1_0000_0000
    ensures GetBytes(3, 0, more).Done? ==> GetBytes(3, 0, more).value < 0x100_0000
  {
    Widths();
    if GetBytes(4, 0, bits).Done? { GetBytesBelow(4, 0, bits); }
    if GetBytes(3, 0, more).Done? { GetBytesBelow(3, 0, more); }
  }

  // ---------- writing ----------

  lemma Regroup3<T>(a: seq<T>, b: seq<T>, c: seq<T>, rest: seq<T>)
    ensures a + b + c + rest == a + (b + (c + rest))
  {}

  lemma Regroup4<T>(a: seq<T>, b: seq<T>, c: seq<T>, d: seq<T>, rest: seq<T>)
    ensures a + b + c + d + rest == a + (b + (c + (d + rest)))
  {}

  /** The longest code the encoder uses. */
  const LONGEST_SENT: nat := 17

  /** Everything the encoder's tables need for the decoder to accept them. */
  ghost predicate Sendable(level: nat, h: Header) {
    && Readable(level, h) && !h.randomised
    && forall t :: 0 <= t < |h.lens| ==> GoodLengths(h.lens[t]) && NoneLonger(h.lens[t], LONGEST_SENT)
  }

  ghost predicate NoneLonger(lens: seq<Byte>, m: nat) { forall i :: 0 <= i < |lens| ==> lens[i] <= m }

  lemma SelectorsAreIn(sel: seq<nat>, n: nat)
    requires forall i :: 0 <= i < |sel| ==> sel[i] < n
    ensures AllIn(sel, Upto(n))
  {
    forall i | 0 <= i < |sel| ensures sel[i] in Upto(n) { assert Upto(n)[sel[i]] == sel[i]; }
  }

  /** The selectors as indices into the list of recently used groups. */
  function SelectorIndices(h: Header): (r: seq<nat>)
    requires forall i :: 0 <= i < |h.selectors| ==> h.selectors[i] < |h.lens|
    ensures |r| == |h.selectors| && forall i :: 0 <= i < |r| ==> r[i] < |h.lens|
  {
    SelectorsAreIn(h.selectors, |h.lens|);
    SelectorMtf(Upto(|h.lens|), h.selectors)
  }

  ghost function SelectorBits(h: Header): seq<bool>
    requires HeaderOk(h)
  {
    BitsOf(|h.lens|, 3) + BitsOf(|h.selectors|, 15) + UnaryBits(SelectorIndices(h))
  }

  ghost function CodingBits(h: Header): seq<bool>
    requires HeaderOk(h)
  {
    MapBits(h.inUse) + SelectorBits(h) + TablesBits(h.lens)
  }

  ghost function HeaderBits(h: Header): seq<bool>
    requires HeaderOk(h)
  {
    Marked(BLOCK_MAGIC, BitsOf(h.crc, 32)) + BitsOf(RandBit(h), 1) + BitsOf(h.origPtr, 24) + CodingBits(h)
  }

  function RandBit(h: Header): nat { if h.randomised then 1 else 0 }

  lemma Widths()
    ensures Pow2(3) == 8 && Pow2(5) == 32 && Pow2(15) == 0x8000 && Pow2(24) == 0x100_0000 && Pow2(32) == 0x1_0000_0000
  {
    Pow2Sum(8, 7);
    Pow2Sum(8, 8);
    Pow2Sum(16, 8);
    Pow2Sum(16, 16);
  }

  lemma GroupsRoundTrip(nGroups: nat, rest: seq<bool>)
    requires nGroups < 8
    ensures GetBits(BitsOf(nGroups, 3) + rest, 3) == Done(nGroups, rest)
  {
    Widths();
    GetWritten(nGroups, 3, rest);
  }

  lemma CountRoundTrip(nSelectors: nat, rest: seq<bool>)
    requires nSelectors < 0x8000
    ensures GetBits(BitsOf(nSelectors, 15) + rest, 15) == Done(nSelectors, rest)
  {
    Widths();
    GetWritten(nSelectors, 15, rest);
  }

  lemma SelectorsRoundTrip(h: Header, rest: seq<bool>)
    requires HeaderOk(h)
    ensures ParseSelectors(SelectorBits(h) + rest) == Done(Groups(|h.lens|, h.selectors), rest)
  {
    var js := SelectorIndices(h);
    var bits2 := UnaryBits(js) + rest;
    var bits1 := BitsOf(|h.selectors|, 15) + bits2;
    Regroup3(BitsOf(|h.lens|, 3), BitsOf(|h.selectors|, 15), UnaryBits(js), rest);
    GroupsRoundTrip(|h.lens|, bits1);
    CountRoundTrip(|h.selectors|, bits2);
    UnariesRoundTrip(js, |h.lens|, [], rest);
    assert [] + js == js;
    SelectorsAreIn(h.selectors, |h.lens|);
    SelectorRoundTrip(Upto(|h.lens|), h.selectors);
  }

  // ---------- too many selectors ----------

  /** After the number of tables and the number of selectors, the source stays within its selector
      tables whatever follows exactly when there are at most 18002 of them. */
  lemma SelectorCountDecides(nGroups: nat, nSelectors: nat)
    requires 2 <= nGroups <= 6 && 1 <= nSelectors < 0x8000
    ensures (forall tail :: InTables(nGroups, nSelectors, tail)) <==> nSelectors <= 18002
  {
    if nSelectors <= BZ_MAX_SELECTORS {
      forall tail ensures InTables(nGroups, nSelectors, tail) {
        CountsAreRead(nGroups, nSelectors, tail);
        UnariesFit(nSelectors, nGroups, [], tail);
      }
    } else {
      SelectorsOverrun(nGroups, nSelectors, []);
      assert !InTables(nGroups, nSelectors, Zeros(BZ_MAX_SELECTORS + 1) + []);
    }
  }

  ghost predicate InTables(nGroups: nat, nSelectors: nat, tail: seq<bool>) {
    var r := ParseSelectors(BitsOf(nGroups, 3) + BitsOf(nSelectors, 15) + tail);
    r.Done? ==> r.value.Groups?
  }

  lemma CountsAreRead(nGroups: nat, nSelectors: nat, tail: seq<bool>)
    requires nGroups < 8 && nSelectors < 0x8000
    ensures var bits := BitsOf(nGroups, 3) + BitsOf(nSelectors, 15) + tail;
      && GetBits(bits, 3) == Done(nGroups, BitsOf(nSelectors, 15) + tail)
      && GetBits(BitsOf(nSelectors, 15) + tail, 15) == Done(nSelectors, tail)
  {
    ConcatAssoc(BitsOf(nGroups, 3), BitsOf(nSelectors, 15), tail);
    GroupsRoundTrip(nGroups, BitsOf(nSelectors, 15) + tail);
    CountRoundTrip(nSelectors, tail);
  }

  /** A count beyond the tables and one zero bit for each of 18003 selectors. */
  lemma SelectorsOverrun(nGroups: nat, nSelectors: nat, rest: seq<bool>)
    requires 2 <= nGroups <= 6 && BZ_MAX_SELECTORS < nSelectors < 0x8000
    ensures ParseSelectors(BitsOf(nGroups, 3) + BitsOf(nSelectors, 15) + (Zeros(BZ_MAX_SELECTORS + 1) + rest))
            == Done(TooMany, rest)
  {
    var tail := Zeros(BZ_MAX_SELECTORS + 1) + rest;
    CountsAreRead(nGroups, nSelectors, tail);
    UnariesOverrun(nSelectors, nGroups, [], rest);
  }

  // ---------- a whole header ----------

  lemma CodingStages(h: Header, bits: seq<bool>, bits1: seq<bool>, bits2: seq<bool>, rest: seq<bool>)
    requires |h.inUse| == 256 && 1 <= |Used(h.inUse)| && ParseMap(bits) == Done(h.inUse, bits1)
    requires ParseSelectors(bits1) == Done(Groups(|h.lens|, h.selectors), bits2)
    requires ParseTables(|h.lens|, |Used(h.inUse)| + 2, [], bits2) == Done(h.lens, rest)
    ensures ParseCoding(Begun(h.crc, h.randomised, h.origPtr), bits) == Done(BlockHeader(h), rest)
  {
    TablesStage(h, bits2, rest);
  }

  lemma TablesStage(h: Header, bits: seq<bool>, rest: seq<bool>)
    requires |h.inUse| == 256 && ParseTables(|h.lens|, |Used(h.inUse)| + 2, [], bits) == Done(h.lens, rest)
    ensures var p := Done(Groups(|h.lens|, h.selectors), bits);
      SelectorsOnward(Begun(h.crc, h.randomised, h.origPtr), h.inUse, p) == Done(BlockHeader(h), rest)
  {}

  lemma CodingRoundTrip(h: Header, rest: seq<bool>)
    requires HeaderOk(h)
    ensures ParseCoding(Begun(h.crc, h.randomised, h.origPtr), CodingBits(h) + rest) == Done(BlockHeader(h), rest)
  {
    var t := TablesBits(h.lens);
    SelectorsRoundTrip(h, t + rest);
    TablesPart(h.lens, |Used(h.inUse)| + 2, rest);
    CodingFrom(h, SelectorBits(h), t, rest);
  }

  lemma CodingFrom(h: Header, s: seq<bool>, t: seq<bool>, rest: seq<bool>)
    requires |h.inUse| == 256 && 1 <= |Used(h.inUse)|
    requires ParseSelectors(s + (t + rest)) == Done(Groups(|h.lens|, h.selectors), t + rest)
    requires ParseTables(|h.lens|, |Used(h.inUse)| + 2, [], t + rest) == Done(h.lens, rest)
    ensures ParseCoding(Begun(h.crc, h.randomised, h.origPtr), MapBits(h.inUse) + s + t + rest)
         == Done(BlockHeader(h), rest)
  {
    MapPart(h.inUse, s, t, rest);
    CodingStages(h, MapBits(h.inUse) + s + t + rest, s + (t + rest), t + rest, rest);
  }

  lemma MapPart(inUse: seq<bool>, s: seq<bool>, t: seq<bool>, rest: seq<bool>)
    requires |inUse| == 256
    ensures ParseMap(MapBits(inUse) + s + t + rest) == Done(inUse, s + (t + rest))
  {
    Regroup3(MapBits(inUse), s, t, rest);
    MapRoundTrip(inUse, s + (t + rest));
  }

  lemma TablesPart(lens: seq<seq<Byte>>, n: nat, rest: seq<bool>)
    requires n > 0 && AllLengthsOk(lens, n)
    ensures ParseTables(|lens|, n, [], TablesBits(lens) + rest) == Done(lens, rest)
  {
    TablesRoundTrip(lens, n, [], rest);
    assert [] + lens == lens;
  }

  /** Magic bytes are recognised one by one. */
  lemma MagicRoundTrip(magic: seq<Byte>, rest: seq<bool>)
    requires magic != []
    ensures GetBits(Marked(magic, rest), 8) == Done(magic[0], Marked(magic[1..], rest))
    ensures Expect(magic[1..], Marked(magic[1..], rest)) == Done((), rest)
  {
    ByteIsRead(magic[0], Marked(magic[1..], rest));
    ExpectWritten(magic[1..], rest);
  }

  lemma NumberRoundTrip(v: nat, n: nat, k: nat, rest: seq<bool>)
    requires k == 8 * n && v < Pow2(k)
    ensures GetBytes(n, 0, BitsOf(v, k) + rest) == Done(v, rest)
  {
    ShrAll(v, k);
    GetWrittenBytes(v, n, k, rest);
  }

  lemma HeaderRoundTrip(level: nat, h: Header, rest: seq<bool>)
    requires Readable(level, h)
    ensures ParseSection(level, HeaderBits(h) + rest) == Done(BlockHeader(h), rest)
  {
    var bits3 := CodingBits(h) + rest;
    var bits2 := BitsOf(h.origPtr, 24) + bits3;
    var bits1 := BitsOf(RandBit(h), 1) + bits2;
    var bits0 := BitsOf(h.crc, 32) + bits1;
    Regroup4(Marked(BLOCK_MAGIC, BitsOf(h.crc, 32)), BitsOf(RandBit(h), 1), BitsOf(h.origPtr, 24), CodingBits(h), rest);
    MarkedThen(BLOCK_MAGIC, BitsOf(h.crc, 32), bits1);
    Widths();
    MagicRoundTrip(BLOCK_MAGIC, bits0);
    NumberRoundTrip(h.crc, 4, 32, bits1);
    GetWritten(RandBit(h), 1, bits2);
    NumberRoundTrip(h.origPtr, 3, 24, bits3);
    CodingRoundTrip(h, rest);
  }

  /** These headers the decoder can be brought to read, and no others. */
  lemma HeadersRead(level: nat, h: Header)
    ensures Readable(level, h) <==> exists bits, rest :: ParseSection(level, bits) == Done(BlockHeader(h), rest)
  {
    if Readable(level, h) { HeaderRoundTrip(level, h, []); }
    forall bits, rest | ParseSection(level, bits) == Done(BlockHeader(h), rest) ensures Readable(level, h) {
      ParsedSectionOk(level, bits);
    }
  }

  function TrailerBits(crc: nat): seq<bool> {
    Marked(TRAILER_MAGIC, BitsOf(crc, 32))
  }

  lemma TrailerRoundTrip(level: nat, crc: nat, rest: seq<bool>)
    requires crc < 0x1_0000_0000
    ensures ParseSection(level, TrailerBits(crc) + rest) == Done(Trailer(crc), rest)
  {
    var bits1 := BitsOf(crc, 32) + rest;
    MarkedThen(TRAILER_MAGIC, BitsOf(crc, 32), rest);
    Widths();
    MagicRoundTrip(TRAILER_MAGIC, bits1);
    NumberRoundTrip(crc, 4, 32, rest);
  }

  // ---------- the round trip ----------

  /** symbols are those of the column, and every group of them has its selector. */
  ghost predicate Carries(level: nat, h: Header, symbols: seq<nat>, out: seq<nat>, column: seq<Byte>) {
    && Sendable(level, h) && 1 <= level <= 9
    && var used := Used(h.inUse);
      && Renamed(column, used, out) && h.origPtr < |column| <= 100000 * level
      && AllIn(out, Upto(|used|)) && symbols == Symbols(Upto(|used|), out, 0, |used| + 1)
      && |h.selectors| == SelectorCount(|symbols|)
  }

  lemma CarriedIsCodable(level: nat, h: Header, symbols: seq<nat>, out: seq<nat>, column: seq<Byte>)
    requires Carries(level, h, symbols, out, column)
    ensures Codable(h.lens, h.selectors, symbols)
  {
    var n := |Used(h.inUse)|;
    forall k | 0 <= k < |symbols| ensures Coded(h.lens, h.selectors, symbols, k) {
      SymbolsAreSmall(Upto(n), out, 0, n + 1, k);
      assert |h.lens[h.selectors[k / BZ_G_SIZE]]| == n + 2;
    }
  }

  /** The bits of a whole block. */
  ghost function BlockBits(level: nat, h: Header, symbols: seq<nat>, out: seq<nat>, column: seq<Byte>): seq<bool>
    requires Carries(level, h, symbols, out, column)
  {
    CarriedIsCodable(level, h, symbols, out, column);
    HeaderBits(h) + SymbolBits(h.lens, h.selectors, symbols, 0)
  }

  lemma NamedIsColumn(column: seq<Byte>, used: seq<Byte>, out: seq<nat>)
    requires Renamed(column, used, out)
    ensures Named(used, out) == column
  {}

  /** Feeding the symbols of a column of n different bytes from the start yields the column. */
  lemma ColumnFromStart(c: Coding, n: nat, out: seq<nat>, symbols: seq<nat>)
    requires 1 <= n <= 256 && c.eob == n + 1 && |out| <= c.max < 0x10_0000 && AllIn(out, Upto(n))
    requires symbols == Symbols(Upto(n), out, 0, n + 1)
    ensures FeedAll(c, Progress(Upto(256), [], 0, 1), symbols[0..]) == Stop(out)
  {
    var start := Progress(Upto(256), [], 0, 1);
    assert start.l[..n] == Upto(n);
    ColumnIsFed(c, start, Upto(n), 0, out);
    assert [] + Repeat(Upto(n)[0], 0) + out == out;
    assert symbols[0..] == symbols;
  }

  lemma CodesForAll(c: Coding, lens: seq<seq<Byte>>)
    requires TablesForAll(c.tables, lens) && AllLengthsOk(lens, c.eob + 1)
    requires forall t :: 0 <= t < |lens| ==> GoodLengths(lens[t])
    ensures CodesWith(c, lens)
  {
    forall t | 0 <= t < |lens| ensures CodesIn(c, lens, t) {}
  }

  lemma BodyRoundTrip(level: nat, h: Header, symbols: seq<nat>, out: seq<nat>, column: seq<Byte>,
                      tables: seq<Tables>, rest: seq<bool>)
    requires Carries(level, h, symbols, out, column) && TablesForAll(tables, h.lens)
    requires Codable(h.lens, h.selectors, symbols)
    ensures ParseBody(level, h, tables, SymbolBits(h.lens, h.selectors, symbols, 0) + rest) == Done(column, rest)
  {
    var used := Used(h.inUse);
    HeaderGivesCoding(level, h, tables);
    var c := CodingOf(level, h, tables);
    CodesForAll(c, h.lens);
    ColumnFromStart(c, |used|, out, symbols);
    SymbolsAreRead(c, h.lens, symbols, Progress(Upto(256), [], 0, 1), 0, rest);
    NamedIsColumn(column, used, out);
  }

  lemma BlockStarts(level: nat, h: Header, symbols: seq<nat>, out: seq<nat>, column: seq<Byte>, rest: seq<bool>)
    requires Carries(level, h, symbols, out, column)
    ensures Codable(h.lens, h.selectors, symbols)
    ensures ParseSection(level, BlockBits(level, h, symbols, out, column) + rest)
         == Done(BlockHeader(h), SymbolBits(h.lens, h.selectors, symbols, 0) + rest)
  {
    CarriedIsCodable(level, h, symbols, out, column);
    var body := SymbolBits(h.lens, h.selectors, symbols, 0);
    assert HeaderBits(h) + body + rest == HeaderBits(h) + (body + rest);
    HeaderRoundTrip(level, h, body + rest);
  }

  /** What was written for a block is read back as its header and its last column, whatever
      tables the decoder built for its code lengths and whatever follows. */
  lemma BlockRoundTrip(level: nat, h: Header, symbols: seq<nat>, out: seq<nat>, column: seq<Byte>,
                       tables: seq<Tables>, rest: seq<bool>)
    requires Carries(level, h, symbols, out, column) && TablesForAll(tables, h.lens)
    ensures var p := ParseSection(level, BlockBits(level, h, symbols, out, column) + rest);
      p.Done? && p.value == BlockHeader(h) && ParseBody(level, h, tables, p.rest) == Done(column, rest)
  {
    BlockStarts(level, h, symbols, out, column, rest);
    BodyRoundTrip(level, h, symbols, out, column, tables, rest);
  }
}
