/** BZ2_decompress up to a block's symbols: the reads that GET_BITS makes, in the same order and
    with the same checks. When the input at hand ends, a method says where it stopped, and called
    again it goes on from there. What the bits still to come are parsed as, from the place where it
    stands, never changes on the way, on any input; a selector count beyond the tables' size, which
    the source lets through, ends the reading with SelectorOverrun. */
module Decompress {
  import opened Basics
  import opened Bits
  import opened BitStream
  import opened BurrowsWheeler
  import opened Huffman
  import opened HuffmanTables
  import opened MoveToFront
  import opened GenerateMtf
  import opened BlockFormat
  import opened SymbolFormat
  import opened Block
  import opened SendMtf
  import opened TwoLevelList

  /** What a read yields: a value, BZ_DATA_ERROR, or the end of the input. */
  datatype Read<T> = Got(value: T) | DataError | NeedInput {
    predicate IsFailure() { !Got? }

    function PropagateFailure<U>(): Read<U>
      requires IsFailure()
    {
      if DataError? then DataError else NeedInput
    }

    function Extract(): T
      requires !IsFailure()
    {
      value
    }
  }

  /** A read came to what the parse p says; when the input at hand ran out, going on is
      parsing again, and without more input p cannot be done. */
  ghost predicate Resumes<T>(p: Parse<T>, res: Read<T>, again: Parse<T>, r: BitReader)
    reads r
  {
    match res
    case Got(v) => p == Done(v, r.Bits())
    case DataError => p == Corrupt
    case NeedInput => again == p && r.input == [] && (r.future == [] ==> p.Short?)
  }

  method GetNumber(r: BitReader, n: nat) returns (res: Read<nat>)
    requires r.Valid() && n <= 24
    modifies r`input, r`bsBuff, r`bsLive, r`pending
    ensures r.Valid() && Resumes(GetBits(old(r.Bits()), n), res, GetBits(r.Bits(), n), r)
    ensures !res.DataError? && (res.NeedInput? ==> r.Bits() == old(r.Bits()))
  {
    var ok, v := r.Get(n);
    res := if ok then Got(v) else NeedInput;
  }

  /** GET_BIT. */
  method GetFlag(r: BitReader) returns (res: Read<bool>)
    requires r.Valid()
    modifies r`input, r`bsBuff, r`bsLive, r`pending
    ensures r.Valid() && !res.DataError?
    ensures res.Got? ==> old(r.Bits()) != [] && res.value == old(r.Bits())[0] && r.Bits() == old(r.Bits())[1..]
    ensures res.NeedInput? ==> r.Bits() == old(r.Bits()) && r.input == [] && (r.future == [] ==> r.Bits() == [])
  {
    OneBit(r.Bits());
    var uc :- GetNumber(r, 1);
    res := Got(uc == 1);
  }

  /** n0 more bytes of a number, most significant first. */
  method ReadNumber(r: BitReader, n0: nat, v0: nat) returns (res: Read<nat>, n: nat, v: nat)
    requires r.Valid()
    modifies r`input, r`bsBuff, r`bsLive, r`pending
    ensures r.Valid() && Resumes(GetBytes(n0, v0, old(r.Bits())), res, GetBytes(n, v, r.Bits()), r)
  {
    n, v := n0, v0;
    while n > 0
      invariant r.Valid() && GetBytes(n, v, r.Bits()) == GetBytes(n0, v0, old(r.Bits()))
    {
      var uc := GetNumber(r, 8);
      if uc.IsFailure() { return uc, n, v; }
      v := v * 256 + uc.value;
      n := n - 1;
    }
    res := Got(v);
  }

  // ---------- the mapping table ----------

  /** n0 more flags. */
  method ReadFlags(r: BitReader, n0: nat, acc0: seq<bool>) returns (res: Read<seq<bool>>, n: nat, acc: seq<bool>)
    requires r.Valid()
    modifies r`input, r`bsBuff, r`bsLive, r`pending
    ensures r.Valid() && Resumes(TakeFlags(n0, acc0, old(r.Bits())), res, TakeFlags(n, acc, r.Bits()), r)
    ensures |acc| + n == |acc0| + n0
  {
    n, acc := n0, acc0;
    while n > 0
      invariant r.Valid() && TakeFlags(n, acc, r.Bits()) == TakeFlags(n0, acc0, old(r.Bits()))
      invariant |acc| + n == |acc0| + n0
    {
      var uc := GetFlag(r);
      if uc.IsFailure() { return NeedInput, n, acc; }
      acc := acc + [uc.value];
      n := n - 1;
    }
    res := Got(acc);
  }

  /** n more flags, then the rows from i on. */
  function FlagsThenRows(rows: seq<bool>, i: nat, n: nat, acc: seq<bool>, bits: seq<bool>): (r: Parse<seq<bool>>)
    requires i <= 16 == |rows| && |acc| + n == 16 * i
    ensures r.Done? ==> |r.value| == 256
    ensures r.Done? ==> |r.rest| <= |bits|
  {
    var (more, rest) :- TakeFlags(n, acc, bits);
    ParseRows(rows, i, more, rest)
  }

  method ReadRows(r: BitReader, rows: seq<bool>, i0: nat, n0: nat, acc0: seq<bool>)
    returns (res: Read<seq<bool>>, i: nat, n: nat, acc: seq<bool>)
    requires r.Valid() && i0 <= 16 == |rows| && |acc0| + n0 == 16 * i0
    modifies r`input, r`bsBuff, r`bsLive, r`pending
    ensures r.Valid() && i <= 16 && |acc| + n == 16 * i
    ensures Resumes(FlagsThenRows(rows, i0, n0, acc0, old(r.Bits())), res, FlagsThenRows(rows, i, n, acc, r.Bits()), r)
  {
    i, n, acc := i0, n0, acc0;
    while true
      invariant r.Valid() && i <= 16 && |acc| + n == 16 * i
      invariant FlagsThenRows(rows, i, n, acc, r.Bits()) == FlagsThenRows(rows, i0, n0, acc0, old(r.Bits()))
      decreases 16 - i
    {
      var flags;
      flags, n, acc := ReadFlags(r, n, acc);
      if flags.IsFailure() { return flags, i, n, acc; }
      n, acc := 0, flags.value;
      if i == 16 { break; }
      if rows[i] { n := 16; } else { acc := acc + NoFlags(); }
      i := i + 1;
    }
    res := Got(acc);
  }

  // ---------- selectors ----------

  method ReadUnary(r: BitReader, nGroups: nat, j0: nat) returns (res: Read<nat>, j: nat)
    requires r.Valid() && j0 < nGroups
    modifies r`input, r`bsBuff, r`bsLive, r`pending
    ensures r.Valid() && j < nGroups
    ensures Resumes(ParseUnary(j0, nGroups, old(r.Bits())), res, ParseUnary(j, nGroups, r.Bits()), r)
  {
    j := j0;
    while true
      invariant j < nGroups && r.Valid() && ParseUnary(j, nGroups, r.Bits()) == ParseUnary(j0, nGroups, old(r.Bits()))
      decreases nGroups - j
    {
      var uc := GetFlag(r);
      if uc.IsFailure() { return NeedInput, j; }
      if !uc.value { break; }
      if j + 1 >= nGroups { return DataError, j; }
      j := j + 1;
    }
    res := Got(j);
  }

  /** The rest of an index of which j ones have been read, then n more. */
  function UnaryThenMore(j: nat, n: nat, nGroups: nat, acc: seq<nat>, bits: seq<bool>): (r: Parse<Unaries>)
    requires j < nGroups && |acc| <= BZ_MAX_SELECTORS && forall i :: 0 <= i < |acc| ==> acc[i] < nGroups
    ensures r.Done? && r.value.AllRead? ==> |r.value.js| == |acc| + n + 1 <= BZ_MAX_SELECTORS
    ensures r.Done? && r.value.AllRead? ==> forall i :: 0 <= i < |r.value.js| ==> r.value.js[i] < nGroups
    ensures r.Done? ==> |r.rest| <= |bits|
  {
    var (x, rest) :- ParseUnary(j, nGroups, bits);
    if |acc| == BZ_MAX_SELECTORS then Done(PastTable, rest) else ParseUnaries(n, nGroups, acc + [x], rest)
  }

  ghost predicate Indices(mtf: seq<nat>, i: nat, nGroups: nat) {
    i <= |mtf| == BZ_MAX_SELECTORS && forall k :: 0 <= k < i ==> mtf[k] < nGroups
  }

  /** The selectors' indices from number i0 on, into selectorMtf; past its end nothing is written
      here. */
  method ReadUnaries(r: BitReader, nGroups: nat, nSelectors: nat, selectorMtf: array<nat>, i0: nat, j0: nat)
    returns (res: Read<Unaries>, i: nat, j: nat)
    requires r.Valid() && j0 < nGroups && i0 < nSelectors && Indices(selectorMtf[..], i0, nGroups)
    modifies r`input, r`bsBuff, r`bsLive, r`pending, selectorMtf
    ensures r.Valid() && i <= nSelectors && j < nGroups && Indices(selectorMtf[..], i, nGroups)
    ensures res.NeedInput? ==> i < nSelectors
    ensures Resumes(UnaryThenMore(j0, nSelectors - i0 - 1, nGroups, old(selectorMtf[..i0]), old(r.Bits())), res,
                    if i == nSelectors then Corrupt
                    else UnaryThenMore(j, nSelectors - i - 1, nGroups, selectorMtf[..i], r.Bits()), r)
    ensures res.Got? && res.value.AllRead? ==>
            nSelectors <= BZ_MAX_SELECTORS && res.value.js == selectorMtf[..nSelectors]
  {
    i, j := i0, j0;
    ghost var goal := UnaryThenMore(j0, nSelectors - i0 - 1, nGroups, selectorMtf[..i0], r.Bits());
    while true
      invariant i < nSelectors && j < nGroups && r.Valid() && Indices(selectorMtf[..], i, nGroups)
      invariant UnaryThenMore(j, nSelectors - i - 1, nGroups, selectorMtf[..i], r.Bits()) == goal
      decreases nSelectors - i
    {
      var u;
      u, j := ReadUnary(r, nGroups, j);
      if u.IsFailure() { return u.PropagateFailure(), i, j; }
      if i == BZ_MAX_SELECTORS { return Got(PastTable), i, j; }
      ghost var before := selectorMtf[..i];
      selectorMtf[i] := u.value;
      assert selectorMtf[..i + 1] == before + [u.value];
      i, j := i + 1, 0;
      if i == nSelectors { break; }
    }
    res := Got(AllRead(selectorMtf[..nSelectors]));
  }

  /** Moves entry v0 of the list to its front. */
  method MoveBack(pos: array<nat>, n: nat, v0: nat) returns (tmp: nat)
    requires v0 < n <= pos.Length
    modifies pos
    ensures tmp == old(pos[v0]) && pos[..n] == Front(old(pos[..n]), v0)
  {
    ghost var l := pos[..n];
    var v := v0;
    tmp := pos[v];
    while v > 0
      invariant 0 <= v <= v0
      invariant forall k :: v < k <= v0 ==> pos[k] == l[k - 1]
      invariant forall k :: 0 <= k < n && (k <= v || k > v0) ==> pos[k] == l[k]
    {
      pos[v] := pos[v - 1];
      v := v - 1;
    }
    pos[0] := tmp;
  }

  /** Undoes the move-to-front coding of the selectors. */
  method UndoSelectors(selectorMtf: seq<nat>, nSelectors: nat, nGroups: nat, selector: array<nat>)
    requires nSelectors <= |selectorMtf| == BZ_MAX_SELECTORS == selector.Length
    requires 0 < nGroups <= 256 && forall i :: 0 <= i < nSelectors ==> selectorMtf[i] < nGroups
    modifies selector
    ensures selector[..nSelectors] == UndoMtf(Upto(nGroups), selectorMtf[..nSelectors])
  {
    var pos := IdentityList(nGroups);
    ghost var js := selectorMtf[..nSelectors];
    assert js[0..] == js && selector[..0] == [];
    for i := 0 to nSelectors
      invariant selector[..i] + UndoMtf(pos[..nGroups], js[i..]) == UndoMtf(Upto(nGroups), js)
    {
      ghost var l, todo, next, before := pos[..nGroups], js[i..], i + 1, selector[..i];
      assert todo[1..] == js[next..];
      ConcatAssoc(before, [l[todo[0]]], UndoMtf(Front(l, todo[0]), todo[1..]));
      var tmp := MoveBack(pos, nGroups, selectorMtf[i]);
      selector[i] := tmp;
      assert selector[..next] == before + [tmp];
    }
  }

  // ---------- coding tables ----------

  /** One code length, reached from curr0 in steps; half says that the first bit of a step has
      been read. */
  ghost function LengthOnward(curr: int, half: bool, n: nat, acc: seq<Byte>, bits: seq<bool>): (r: Parse<seq<Byte>>)
    requires n > 0 && LengthsOk(acc)
    ensures r.Done? ==> |r.value| == |acc| + n && LengthsOk(r.value) && |r.rest| <= |bits|
  {
    if !half then ParseDeltas(curr, n, acc, bits)
    else if bits == [] then Short
    else ParseDeltas(if bits[0] then curr - 1 else curr + 1, n, acc, bits[1..])
  }

  method ReadLength(r: BitReader, curr0: int, half0: bool, ghost n: nat, ghost acc: seq<Byte>)
    returns (res: Read<Byte>, curr: int, half: bool)
    requires r.Valid() && n > 0 && LengthsOk(acc) && (half0 ==> 1 <= curr0 <= LONGEST)
    modifies r`input, r`bsBuff, r`bsLive, r`pending
    ensures r.Valid() && (half ==> 1 <= curr <= LONGEST) && (res.Got? ==> 1 <= res.value <= LONGEST)
    ensures var p := LengthOnward(curr0, half0, n, acc, old(r.Bits()));
      match res
      case Got(len) => p == ParseDeltas(len, n - 1, acc + [len], r.Bits())
      case DataError => p == Corrupt
      case NeedInput =>
        p == LengthOnward(curr, half, n, acc, r.Bits()) && r.input == [] && (r.future == [] ==> p.Short?)
  {
    curr, half := curr0, half0;
    while true
      invariant r.Valid() && (half ==> 1 <= curr <= LONGEST)
      invariant LengthOnward(curr, half, n, acc, r.Bits()) == LengthOnward(curr0, half0, n, acc, old(r.Bits()))
      decreases |r.Bits()|
    {
      if !half && (curr < 1 || curr > 20) { return DataError, curr, half; }
      ghost var bits := r.Bits();
      var uc := GetFlag(r);
      if uc.IsFailure() { return NeedInput, curr, half; }
      if half {
        curr, half := if uc.value then curr - 1 else curr + 1, false;
      } else if uc.value {
        half := true;
        assert bits[1..] != [] ==> bits[1..][1..] == bits[2..];
      } else {
        break;
      }
    }
    res := Got(curr);
  }

  /** Where BZ2_decompress is in the coding tables: before one, or within one. */
  datatype TablePlace = AtTable | InTable(row: seq<Byte>, curr: int, half: bool)

  ghost predicate TablePlaceOk(tp: TablePlace, alphaSize: nat) {
    tp.InTable? ==> |tp.row| <= alphaSize && LengthsOk(tp.row) && (tp.half ==> 1 <= tp.curr <= LONGEST)
  }

  ghost function RowOnward(alphaSize: nat, tp: TablePlace, bits: seq<bool>): (r: Parse<seq<Byte>>)
    requires TablePlaceOk(tp, alphaSize)
    ensures r.Done? ==> |r.rest| <= |bits|
  {
    match tp
    case AtTable => ParseLengths(alphaSize, bits)
    case InTable(row, curr, half) =>
      if |row| == alphaSize then Done(row, bits) else LengthOnward(curr, half, alphaSize - |row|, row, bits)
  }

  /** One coding table. */
  method ReadRow(r: BitReader, alphaSize: nat, tp0: TablePlace) returns (res: Read<seq<Byte>>, tp: TablePlace)
    requires r.Valid() && TablePlaceOk(tp0, alphaSize)
    modifies r`input, r`bsBuff, r`bsLive, r`pending
    ensures r.Valid() && TablePlaceOk(tp, alphaSize)
    ensures Resumes(RowOnward(alphaSize, tp0, old(r.Bits())), res, RowOnward(alphaSize, tp, r.Bits()), r)
  {
    tp := tp0;
    if tp.AtTable? {
      var start := GetNumber(r, 5);
      if start.IsFailure() { return start.PropagateFailure(), tp; }
      tp := InTable([], start.value, false);
    }
    res, tp := ReadLengths(r, alphaSize, tp.row, tp.curr, tp.half);
  }

  /** The lengths of a table that are still to come. */
  method ReadLengths(r: BitReader, alphaSize: nat, row0: seq<Byte>, curr0: int, half0: bool)
    returns (res: Read<seq<Byte>>, tp: TablePlace)
    requires r.Valid() && TablePlaceOk(InTable(row0, curr0, half0), alphaSize)
    modifies r`input, r`bsBuff, r`bsLive, r`pending
    ensures r.Valid() && TablePlaceOk(tp, alphaSize)
    ensures Resumes(RowOnward(alphaSize, InTable(row0, curr0, half0), old(r.Bits())), res,
                    RowOnward(alphaSize, tp, r.Bits()), r)
  {
    ghost var goal := RowOnward(alphaSize, InTable(row0, curr0, half0), r.Bits());
    var row, curr, half := row0, curr0, half0;
    while |row| < alphaSize
      invariant r.Valid() && TablePlaceOk(InTable(row, curr, half), alphaSize)
      invariant RowOnward(alphaSize, InTable(row, curr, half), r.Bits()) == goal
    {
      var len;
      len, curr, half := ReadLength(r, curr, half, alphaSize - |row|, row);
      if len.IsFailure() { return len.PropagateFailure(), InTable(row, curr, half); }
      row, curr, half := row + [len.value], len.value, false;
    }
    res, tp := Got(row), InTable(row, curr, half);
  }

  ghost function TablesOnward(nGroups: nat, alphaSize: nat, lens: seq<seq<Byte>>, tp: TablePlace, bits: seq<bool>)
    : (r: Parse<seq<seq<Byte>>>)
    requires |lens| <= nGroups && TablePlaceOk(tp, alphaSize)
    ensures r.Done? ==> |r.rest| <= |bits|
  {
    if |lens| == nGroups then Done(lens, bits)
    else
      var (row, rest) :- RowOnward(alphaSize, tp, bits);
      ParseTables(nGroups - |lens| - 1, alphaSize, lens + [row], rest)
  }

  method ReadTables(r: BitReader, nGroups: nat, alphaSize: nat, lens0: seq<seq<Byte>>, tp0: TablePlace)
    returns (res: Read<seq<seq<Byte>>>, lens: seq<seq<Byte>>, tp: TablePlace)
    requires r.Valid() && |lens0| <= nGroups && TablePlaceOk(tp0, alphaSize)
    modifies r`input, r`bsBuff, r`bsLive, r`pending
    ensures r.Valid() && |lens| <= nGroups && TablePlaceOk(tp, alphaSize)
    ensures Resumes(TablesOnward(nGroups, alphaSize, lens0, tp0, old(r.Bits())), res,
                    TablesOnward(nGroups, alphaSize, lens, tp, r.Bits()), r)
  {
    lens, tp := lens0, tp0;
    while |lens| < nGroups
      invariant r.Valid() && |lens| <= nGroups && TablePlaceOk(tp, alphaSize)
      invariant TablesOnward(nGroups, alphaSize, lens, tp, r.Bits())
             == TablesOnward(nGroups, alphaSize, lens0, tp0, old(r.Bits()))
    {
      var row;
      row, tp := ReadRow(r, alphaSize, tp);
      if row.IsFailure() { return row.PropagateFailure(), lens, tp; }
      lens, tp := lens + [row.value], AtTable;
    }
    res := Got(lens);
  }

  // ---------- headers ----------

  /** Fixed bytes, each checked as soon as it is read; left are those still to come. */
  method ReadMagic(r: BitReader, left0: seq<Byte>) returns (res: Read<()>, left: seq<Byte>)
    requires r.Valid()
    modifies r`input, r`bsBuff, r`bsLive, r`pending
    ensures r.Valid() && Resumes(Expect(left0, old(r.Bits())), res, Expect(left, r.Bits()), r)
  {
    left := left0;
    while left != []
      invariant r.Valid() && Expect(left, r.Bits()) == Expect(left0, old(r.Bits()))
      decreases |left|
    {
      var uc := GetNumber(r, 8);
      if uc.IsFailure() { return uc.PropagateFailure(), left; }
      if uc.value != left[0] { return DataError, left; }
      left := left[1..];
    }
    res := Got(());
  }

  method CountUsed(inUse: seq<bool>) returns (nInUse: nat)
    requires |inUse| == 256
    ensures nInUse == |Used(inUse)|
  {
    nInUse := 0;
    for i := 0 to 256
      invariant nInUse == |UsedBytes(inUse, i)|
    {
      if inUse[i] { nInUse := nInUse + 1; }
    }
  }

  /** Where BZ2_decompress stops when the input runs out within a header: the case label, and
      what has been read by then and is not in an array. */
  datatype Place =
    | BlkHdr1
    | EndHdr(left: seq<Byte>)
    | Ccrc(n: nat, v: nat)
    | BlkHdr(left: seq<Byte>)
    | Bcrc(n: nat, v: nat)
    | RandBit(crc: nat)
    | OrigPtr(crc: nat, randomised: bool, n: nat, v: nat)
    | Mapping1(f: Begun, n: nat, flags: seq<bool>)
    | Mapping2(f: Begun, rows: seq<bool>, i: nat, n: nat, flags: seq<bool>)
    | Selector1(f: Begun, inUse: seq<bool>)
    | Selector2(f: Begun, inUse: seq<bool>, nGroups: nat)
    | Selector3(f: Begun, inUse: seq<bool>, nGroups: nat, nSelectors: nat, i: nat, j: nat)
    | Coding(f: Begun, inUse: seq<bool>, groups: Groups, lens: seq<seq<Byte>>, tp: TablePlace)

  ghost predicate MapOk(inUse: seq<bool>) { |inUse| == 256 && Used(inUse) != [] }

  ghost predicate PlaceOk(place: Place, mtf: seq<nat>) {
    match place
    case Mapping1(_, n, flags) => |flags| + n == 16
    case Mapping2(_, rows, i, n, flags) => i <= 16 == |rows| && |flags| + n == 16 * i
    case Selector1(_, inUse) => MapOk(inUse)
    case Selector2(_, inUse, nGroups) => MapOk(inUse) && 2 <= nGroups <= 6
    case Selector3(_, inUse, nGroups, nSelectors, i, j) =>
      MapOk(inUse) && 2 <= nGroups <= 6 && i < nSelectors && j < nGroups && Indices(mtf, i, nGroups)
    case Coding(_, inUse, groups, lens, tp) =>
      MapOk(inUse) && groups.Groups? && |lens| <= groups.nGroups && TablePlaceOk(tp, |Used(inUse)| + 2)
    case _ => true
  }

  function RowsOnward(f: Begun, n: nat, flags: seq<bool>, bits: seq<bool>): (r: Parse<Section>)
    requires |flags| + n == 16
    ensures r.Done? ==> |r.rest| <= |bits|
  {
    var (rows, rest) :- TakeFlags(n, flags, bits);
    MapOnward(f, FlagsThenRows(rows, 0, 0, [], rest))
  }

  function CountOnward(nGroups: nat, bits: seq<bool>): (r: Parse<Groups>)
    requires 2 <= nGroups <= 6
    ensures r.Done? ==> |r.rest| <= |bits|
  {
    var (nSelectors, rest) :- GetBits(bits, 15);
    if nSelectors < 1 then Corrupt else ParseGroups(nGroups, nSelectors, rest)
  }

  function GroupsOnward(nGroups: nat, p: Parse<Unaries>): Parse<Groups>
    requires p.Done? && p.value.AllRead? ==> forall i :: 0 <= i < |p.value.js| ==> p.value.js[i] < nGroups
  {
    var (u, rest) :- p;
    if u.AllRead? then Done(Groups(nGroups, UndoMtf(Upto(nGroups), u.js)), rest) else Done(TooMany, rest)
  }

  /** The groups, when the selectors' indices before number i are in mtf and j ones of the next
      have been read. */
  function GroupsAhead(nGroups: nat, nSelectors: nat, i: nat, j: nat, mtf: seq<nat>, bits: seq<bool>)
    : (r: Parse<Groups>)
    requires i < nSelectors && j < nGroups && Indices(mtf, i, nGroups)
    ensures r.Done? ==> |r.rest| <= |bits|
  {
    GroupsOnward(nGroups, UnaryThenMore(j, nSelectors - i - 1, nGroups, mtf[..i], bits))
  }

  /** What the bits from a place on come to; mtf is selectorMtf. */
  ghost function Onward(level: nat, place: Place, mtf: seq<nat>, bits: seq<bool>): Parse<Section>
    requires PlaceOk(place, mtf)
  {
    match place
    case BlkHdr1 => ParseSection(level, bits)
    case EndHdr(left) => (var (_, rest) :- Expect(left, bits); CcrcOnward(4, 0, rest))
    case Ccrc(n, v) => CcrcOnward(n, v, bits)
    case BlkHdr(left) => (var (_, rest) :- Expect(left, bits); BcrcOnward(level, 4, 0, rest))
    case Bcrc(n, v) => BcrcOnward(level, n, v, bits)
    case RandBit(crc) => RandOnward(level, crc, bits)
    case OrigPtr(crc, randomised, n, v) => OrigOnward(level, crc, randomised, n, v, bits)
    case Mapping1(f, n, flags) => RowsOnward(f, n, flags, bits)
    case Mapping2(f, rows, i, n, flags) => MapOnward(f, FlagsThenRows(rows, i, n, flags, bits))
    case Selector1(f, inUse) => SelectorsOnward(f, inUse, ParseSelectors(bits))
    case Selector2(f, inUse, nGroups) => SelectorsOnward(f, inUse, CountOnward(nGroups, bits))
    case Selector3(f, inUse, nGroups, nSelectors, i, j) =>
      SelectorsOnward(f, inUse, GroupsAhead(nGroups, nSelectors, i, j, mtf, bits))
    case Coding(f, inUse, groups, lens, tp) =>
      CodingOnward(f, inUse, groups, TablesOnward(groups.nGroups, |Used(inUse)| + 2, lens, tp, bits))
  }

  /** The order in which the places come. */
  function PlaceRank(place: Place): nat {
    match place
    case BlkHdr1 => 10
    case BlkHdr(_) => 9
    case Bcrc(_, _) => 8
    case RandBit(_) => 7
    case OrigPtr(_, _, _, _) => 6
    case Mapping1(_, _, _) => 5
    case Mapping2(_, _, _, _, _) => 4
    case Selector1(_, _) => 3
    case Selector2(_, _, _) => 2
    case Selector3(_, _, _, _, _, _) => 1
    case EndHdr(_) => 1
    case _ => 0
  }

  /** What a turn leads to: another place, or the end of the section. */
  datatype Turn = On(place: Place) | Over(section: Section)

  /** A turn has brought what is still to come a step on; when the input at hand ran out, it
      stopped at a place from which it can go on. */
  ghost predicate Turned(level: nat, goal: Parse<Section>, res: Read<Turn>, at: Place, mtf: seq<nat>, r: BitReader)
    reads r
  {
    match res
    case Got(On(place)) => PlaceOk(place, mtf) && Onward(level, place, mtf, r.Bits()) == goal
    case Got(Over(section)) => goal == Done(section, r.Bits())
    case DataError => goal == Corrupt
    case NeedInput =>
      && PlaceOk(at, mtf) && Onward(level, at, mtf, r.Bits()) == goal
      && r.input == [] && (r.future == [] ==> goal.Short?)
  }

  ghost predicate Later(res: Read<Turn>, from: Place) {
    res.Got? && res.value.On? ==> PlaceRank(res.value.place) < PlaceRank(from)
  }

  /** The part of DState that reads headers: its place and its selector tables. */
  class SectionReader {
    const r: BitReader
    const selectorMtf: array<nat>
    const selector: array<nat>
    const level: nat
    var place: Place
    ghost const goal: Parse<Section>
    ghost const repr: set<object>

    /** Whatever has been read by now, the section will be goal. */
    ghost predicate Valid()
      reads repr, r
    {
      r.Valid() && forall i: nat {:trigger Look(i)} :: Look(i) ==> Parts() && Core() && Ahead() == goal
    }

    ghost predicate Parts() {
      repr == {this} + {selectorMtf, selector}
    }

    ghost predicate Core()
      reads this, r, selectorMtf
    {
      && r.Valid() && selectorMtf.Length == BZ_MAX_SELECTORS == selector.Length && selectorMtf != selector
      && PlaceOk(place, selectorMtf[..])
    }

    /** What the bits still to come are read as. */
    ghost function Ahead(): Parse<Section>
      requires Core()
      reads this, r, selectorMtf
    {
      Onward(level, place, selectorMtf[..], r.Bits())
    }

    /** A section starts: BZ_X_BLKHDR_1. */
    constructor (r: BitReader, level: nat)
      requires r.Valid()
      ensures Valid() && this.r == r && this.level == level
      ensures forall i: nat {:trigger Look(i)} :: Look(i) ==> goal == ParseSection(level, r.Bits())
      ensures fresh(repr)
    {
      this.r := r;
      this.level := level;
      var mtf := new nat[BZ_MAX_SELECTORS];
      var groups := new nat[BZ_MAX_SELECTORS];
      selectorMtf := mtf;
      selector := groups;
      repr := {this} + {mtf, groups};
      place := BlkHdr1;
      goal := ParseSection(level, r.Bits());
    }

    /** The reader stays as it is when only the input is offered anew. */
    twostate lemma StillValid()
      requires old(Valid()) && r.Valid() && r.Bits() == old(r.Bits())
      requires unchanged(repr)
      ensures Valid()
    {
      assert Look(0);
      assert selectorMtf[..] == old(selectorMtf[..]);
    }

    /** The first byte tells a block from the stream's end. */
    method FirstTurn() returns (res: Read<Turn>, at: Place)
      requires Core() && place == BlkHdr1
      modifies r`input, r`bsBuff, r`bsLive, r`pending
      ensures r.Valid() && Turned(level, old(Ahead()), res, at, selectorMtf[..], r) && Later(res, place)
    {
      at := BlkHdr1;
      var uc := GetNumber(r, 8);
      if uc.IsFailure() { return uc.PropagateFailure(), at; }
      if uc.value == 0x17 { return Got(On(EndHdr(TRAILER_MAGIC[1..]))), at; }
      if uc.value != 0x31 { return DataError, at; }
      res := Got(On(BlkHdr(BLOCK_MAGIC[1..])));
    }

    /** The other bytes of either magic number. */
    method MagicTurn() returns (res: Read<Turn>, at: Place)
      requires Core() && (place.EndHdr? || place.BlkHdr?)
      modifies r`input, r`bsBuff, r`bsLive, r`pending
      ensures r.Valid() && Turned(level, old(Ahead()), res, at, selectorMtf[..], r) && Later(res, place)
    {
      var m, left := ReadMagic(r, place.left);
      at := if place.EndHdr? then EndHdr(left) else BlkHdr(left);
      if m.IsFailure() { return m.PropagateFailure(), at; }
      res := Got(On(if place.EndHdr? then Ccrc(4, 0) else Bcrc(4, 0)));
    }

    /** The combined checksum or a block's. */
    method CrcTurn() returns (res: Read<Turn>, at: Place)
      requires Core() && (place.Ccrc? || place.Bcrc?)
      modifies r`input, r`bsBuff, r`bsLive, r`pending
      ensures r.Valid() && Turned(level, old(Ahead()), res, at, selectorMtf[..], r) && Later(res, place)
    {
      var crc, n, v := ReadNumber(r, place.n, place.v);
      at := if place.Ccrc? then Ccrc(n, v) else Bcrc(n, v);
      if crc.IsFailure() { return crc.PropagateFailure(), at; }
      res := Got(if place.Ccrc? then Over(Trailer(crc.value)) else On(RandBit(crc.value)));
    }

    method RandTurn() returns (res: Read<Turn>, at: Place)
      requires Core() && place.RandBit?
      modifies r`input, r`bsBuff, r`bsLive, r`pending
      ensures r.Valid() && Turned(level, old(Ahead()), res, at, selectorMtf[..], r) && Later(res, place)
    {
      at := place;
      var randomised := GetNumber(r, 1);
      if randomised.IsFailure() { return randomised.PropagateFailure(), at; }
      res := Got(On(OrigPtr(place.crc, randomised.value == 1, 3, 0)));
    }

    method OrigTurn() returns (res: Read<Turn>, at: Place)
      requires Core() && place.OrigPtr?
      modifies r`input, r`bsBuff, r`bsLive, r`pending
      ensures r.Valid() && Turned(level, old(Ahead()), res, at, selectorMtf[..], r) && Later(res, place)
    {
      var orig, n, v := ReadNumber(r, place.n, place.v);
      at := OrigPtr(place.crc, place.randomised, n, v);
      if orig.IsFailure() { return orig.PropagateFailure(), at; }
      if orig.value > 10 + 100000 * level { return DataError, at; }
      var f := Begun(place.crc, place.randomised, orig.value);
      CodingStarts(f, r.Bits());
      res := Got(On(Mapping1(f, 16, [])));
    }

    method RowFlagsTurn() returns (res: Read<Turn>, at: Place)
      requires Core() && place.Mapping1?
      modifies r`input, r`bsBuff, r`bsLive, r`pending
      ensures r.Valid() && Turned(level, old(Ahead()), res, at, selectorMtf[..], r) && Later(res, place)
    {
      var rows, n, flags := ReadFlags(r, place.n, place.flags);
      at := Mapping1(place.f, n, flags);
      if rows.IsFailure() { return rows.PropagateFailure(), at; }
      res := Got(On(Mapping2(place.f, rows.value, 0, 0, [])));
    }

    method RowsTurn() returns (res: Read<Turn>, at: Place)
      requires Core() && place.Mapping2?
      modifies r`input, r`bsBuff, r`bsLive, r`pending
      ensures r.Valid() && Turned(level, old(Ahead()), res, at, selectorMtf[..], r) && Later(res, place)
    {
      var inUse, i, n, flags := ReadRows(r, place.rows, place.i, place.n, place.flags);
      at := Mapping2(place.f, place.rows, i, n, flags);
      if inUse.IsFailure() { return inUse.PropagateFailure(), at; }
      var nInUse := CountUsed(inUse.value);
      if nInUse == 0 { return DataError, at; }
      res := Got(On(Selector1(place.f, inUse.value)));
    }

    /** The number of tables and of selectors. */
    method CountTurn() returns (res: Read<Turn>, at: Place)
      requires Core() && (place.Selector1? || place.Selector2?)
      modifies r`input, r`bsBuff, r`bsLive, r`pending
      ensures r.Valid() && Turned(level, old(Ahead()), res, at, selectorMtf[..], r) && Later(res, place)
    {
      at := place;
      if place.Selector1? {
        var nGroups := GetNumber(r, 3);
        if nGroups.IsFailure() { return nGroups.PropagateFailure(), at; }
        if nGroups.value < 2 || nGroups.value > 6 { return DataError, at; }
        return Got(On(Selector2(place.f, place.inUse, nGroups.value))), at;
      }
      var nSelectors := GetNumber(r, 15);
      if nSelectors.IsFailure() { return nSelectors.PropagateFailure(), at; }
      if nSelectors.value < 1 { return DataError, at; }
      assert selectorMtf[..0] == [];
      SelectorsStart(place.nGroups, nSelectors.value, r.Bits());
      res := Got(On(Selector3(place.f, place.inUse, place.nGroups, nSelectors.value, 0, 0)));
    }

    /** The selectors themselves. */
    method Undo(nGroups: nat, nSelectors: nat, ghost js: seq<nat>) returns (groups: Groups)
      requires nSelectors <= selectorMtf.Length == BZ_MAX_SELECTORS == selector.Length && 2 <= nGroups <= 6
      requires js == selectorMtf[..nSelectors] && forall i :: 0 <= i < |js| ==> js[i] < nGroups
      modifies selector
      ensures groups == Groups(nGroups, UndoMtf(Upto(nGroups), js))
      ensures selectorMtf != selector ==> selectorMtf[..] == old(selectorMtf[..])
    {
      var mtf := selectorMtf[..];
      assert mtf[..nSelectors] == js;
      UndoSelectors(mtf, nSelectors, nGroups, selector);
      groups := Groups(nGroups, selector[..nSelectors]);
    }

    /** The indices, then the selectors. */
    method ReadGroups(nGroups: nat, nSelectors: nat, i0: nat, j0: nat)
      returns (res: Read<Groups>, i: nat, j: nat)
      requires r.Valid() && selectorMtf.Length == BZ_MAX_SELECTORS == selector.Length && selectorMtf != selector
      requires 2 <= nGroups <= 6 && i0 < nSelectors && j0 < nGroups && Indices(selectorMtf[..], i0, nGroups)
      modifies r`input, r`bsBuff, r`bsLive, r`pending, selectorMtf, selector
      ensures r.Valid() && (res.NeedInput? ==> i < nSelectors && j < nGroups && Indices(selectorMtf[..], i, nGroups))
      ensures res.Got? && res.value.Groups? ==> res.value.nGroups == nGroups
      ensures Resumes(old(GroupsAhead(nGroups, nSelectors, i0, j0, selectorMtf[..], r.Bits())), res,
                      if res.NeedInput? then GroupsAhead(nGroups, nSelectors, i, j, selectorMtf[..], r.Bits())
                      else Short, r)
    {
      assert selectorMtf[..][..i0] == selectorMtf[..i0];
      var u;
      u, i, j := ReadUnaries(r, nGroups, nSelectors, selectorMtf, i0, j0);
      if u.IsFailure() {
        assert selectorMtf[..][..i] == selectorMtf[..i];
        return u.PropagateFailure(), i, j;
      }
      if u.value.PastTable? { return Got(TooMany), i, j; }
      var groups := Undo(nGroups, nSelectors, u.value.js);
      res := Got(groups);
    }

    method SelectorTurn() returns (res: Read<Turn>, at: Place)
      requires Core() && place.Selector3?
      modifies r`input, r`bsBuff, r`bsLive, r`pending, selectorMtf, selector
      ensures r.Valid() && Turned(level, old(Ahead()), res, at, selectorMtf[..], r) && Later(res, place)
    {
      var groups, i, j := ReadGroups(place.nGroups, place.nSelectors, place.i, place.j);
      at := place;
      if groups.NeedInput? {
        at := Selector3(place.f, place.inUse, place.nGroups, place.nSelectors, i, j);
        return NeedInput, at;
      }
      if groups.DataError? { return DataError, at; }
      if groups.value.TooMany? { return Got(Over(SelectorOverrun)), at; }
      TablesStart(place.f, place.inUse, groups.value, r.Bits());
      res := Got(On(Place.Coding(place.f, place.inUse, groups.value, [], AtTable)));
    }

    method CodingTurn() returns (res: Read<Turn>, at: Place)
      requires Core() && place.Coding?
      modifies r`input, r`bsBuff, r`bsLive, r`pending
      ensures r.Valid() && Turned(level, old(Ahead()), res, at, selectorMtf[..], r) && Later(res, place)
    {
      var f, inUse, groups := place.f, place.inUse, place.groups;
      var nInUse := CountUsed(inUse);
      var t, lens, tp := ReadTables(r, groups.nGroups, nInUse + 2, place.lens, place.tp);
      at := Place.Coding(f, inUse, groups, lens, tp);
      if t.IsFailure() { return t.PropagateFailure(), at; }
      res := Got(Over(BlockHeader(Header(f.crc, f.randomised, f.origPtr, inUse, groups.selectors, t.value))));
    }

    /** From one case label towards the next. */
    method TakeTurn() returns (res: Read<Turn>, at: Place)
      requires Core()
      modifies r`input, r`bsBuff, r`bsLive, r`pending, selectorMtf, selector
      ensures r.Valid() && Turned(level, old(Ahead()), res, at, selectorMtf[..], r) && Later(res, place)
    {
      match place
      case BlkHdr1 => res, at := FirstTurn();
      case EndHdr(_) => res, at := MagicTurn();
      case BlkHdr(_) => res, at := MagicTurn();
      case Ccrc(_, _) => res, at := CrcTurn();
      case Bcrc(_, _) => res, at := CrcTurn();
      case RandBit(_) => res, at := RandTurn();
      case OrigPtr(_, _, _, _) => res, at := OrigTurn();
      case Mapping1(_, _, _) => res, at := RowFlagsTurn();
      case Mapping2(_, _, _, _, _) => res, at := RowsTurn();
      case Selector1(_, _) => res, at := CountTurn();
      case Selector2(_, _, _) => res, at := CountTurn();
      case Selector3(_, _, _, _, _, _) => res, at := SelectorTurn();
      case Coding(_, _, _, _, _) => res, at := CodingTurn();
    }

    /** A block header or the stream's end, from wherever the last call stopped for want of
        input. After an error the place no longer matters. */
    method ReadSection() returns (res: Read<Section>)
      requires Valid()
      modifies repr, r`input, r`bsBuff, r`bsLive, r`pending
      ensures r.Valid() && Resumes(goal, res, goal, r) && (res.NeedInput? ==> Valid())
      ensures res.Got? ==> |r.Bits()| <= old(|r.Bits()|)
    {
      assert Look(0);
      OnwardShrinks(level, place, selectorMtf[..], r.Bits());
      while true
        invariant Core() && Ahead() == goal
        decreases PlaceRank(place)
      {
        var turn, at := TakeTurn();
        if turn.NeedInput? {
          place := at;
          return NeedInput;
        }
        if turn.DataError? { return DataError; }
        match turn.value
        case On(next) => place := next;
        case Over(section) => return Got(section);
      }
    }
  }

  lemma OnwardShrinks(level: nat, place: Place, mtf: seq<nat>, bits: seq<bool>)
    requires PlaceOk(place, mtf)
    ensures var p := Onward(level, place, mtf, bits); p.Done? ==> |p.rest| <= |bits|
  {}

  lemma CodingStarts(f: Begun, bits: seq<bool>)
    ensures RowsOnward(f, 16, [], bits) == ParseCoding(f, bits)
  {}

  lemma TablesStart(f: Begun, inUse: seq<bool>, groups: Groups, bits: seq<bool>)
    requires |inUse| == 256 && groups.Groups? && 2 <= groups.nGroups
    ensures SelectorsOnward(f, inUse, Done(groups, bits))
         == CodingOnward(f, inUse, groups, TablesOnward(groups.nGroups, |Used(inUse)| + 2, [], AtTable, bits))
  {}

  lemma SelectorsStart(nGroups: nat, nSelectors: nat, bits: seq<bool>)
    requires 2 <= nGroups <= 6 && 1 <= nSelectors
    ensures GroupsOnward(nGroups, UnaryThenMore(0, nSelectors - 1, nGroups, [], bits))
            == ParseGroups(nGroups, nSelectors, bits)
  {}
}
