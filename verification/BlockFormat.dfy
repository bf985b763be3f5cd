/** The bits of one compressed block: mapping table, selectors, coding tables and
    symbols, as compress.c writes them and decompress.c reads them. */
module BlockFormat {
  import opened Basics
  import opened Bits
  import opened Huffman
  import opened MoveToFront

  const BZ_G_SIZE: nat := 50
  const MAX_RUN_UNIT: nat := 2 * 1024 * 1024

  /** One bit, when there is one. */
  lemma OneBit(bits: seq<bool>)
    ensures GetBits(bits, 1) == if bits == [] then Short else Done(if bits[0] then 1 else 0, bits[1..])
  {
    if bits != [] { assert ReadBits(1, 0, bits) == ReadBits(0, if bits[0] then 1 else 0, bits[1..]); }
  }

  lemma MoveOver<T>(acc: seq<T>, s: seq<T>)
    requires s != []
    ensures acc + [s[0]] + s[1..] == acc + s
  {}

  // ---------- the mapping table ----------

  ghost predicate RowUsed(inUse: seq<bool>, i: nat)
    requires i < 16 && |inUse| == 256
  {
    exists j :: 16 * i <= j < 16 * i + 16 && inUse[j]
  }

  ghost function RowFlags(inUse: seq<bool>): (r: seq<bool>)
    requires |inUse| == 256
    ensures |r| == 16
  {
    seq(16, i requires 0 <= i < 16 => RowUsed(inUse, i))
  }

  /** The rows from i on; an unused row takes no bits. */
  ghost function RowBits(inUse: seq<bool>, i: nat): seq<bool>
    requires i <= 16 && |inUse| == 256
    decreases 16 - i, inUse
  {
    if i == 16 then []
    else (if RowUsed(inUse, i) then inUse[16 * i..16 * i + 16] else []) + RowBits(inUse, i + 1)
  }

  ghost function MapBits(inUse: seq<bool>): seq<bool>
    requires |inUse| == 256
  {
    RowFlags(inUse) + RowBits(inUse, 0)
  }

  /** n more flags after acc. */
  function TakeFlags(n: nat, acc: seq<bool>, bits: seq<bool>): (r: Parse<seq<bool>>)
    ensures r.Done? ==> |r.value| == |acc| + n
    ensures r.Done? ==> |r.rest| <= |bits|
  {
    if n == 0 then Done(acc, bits)
    else if bits == [] then Short
    else TakeFlags(n - 1, acc + [bits[0]], bits[1..])
  }

  lemma {:induction false} FlagsRoundTrip(acc: seq<bool>, s: seq<bool>, rest: seq<bool>)
    ensures TakeFlags(|s|, acc, s + rest) == Done(acc + s, rest)
    decreases |s|
  {
    if s == [] {
      assert s + rest == rest && acc + s == acc;
    } else {
      assert (s + rest)[1..] == s[1..] + rest;
      FlagsRoundTrip(acc + [s[0]], s[1..], rest);
      MoveOver(acc, s);
    }
  }

  function NoFlags(): (r: seq<bool>)
    ensures |r| == 16 && forall j :: 0 <= j < 16 ==> !r[j]
  {
    seq(16, _ => false)
  }

  function ParseRows(rows: seq<bool>, i: nat, acc: seq<bool>, bits: seq<bool>): (r: Parse<seq<bool>>)
    requires i <= 16 == |rows| && |acc| == 16 * i
    ensures r.Done? ==> |r.value| == 256
    ensures r.Done? ==> |r.rest| <= |bits|
    decreases 16 - i, rows, acc, bits
  {
    if i == 16 then Done(acc, bits)
    else if rows[i] then
      match TakeFlags(16, acc, bits)
      case Done(more, rest) => ParseRows(rows, i + 1, more, rest)
      case Corrupt => Corrupt
      case Short => Short
    else ParseRows(rows, i + 1, acc + NoFlags(), bits)
  }

  function ParseMap(bits: seq<bool>): (r: Parse<seq<bool>>)
    ensures r.Done? ==> |r.value| == 256
    ensures r.Done? ==> |r.rest| <= |bits|
  {
    match TakeFlags(16, [], bits)
    case Done(rows, rest) => ParseRows(rows, 0, [], rest)
    case Corrupt => Corrupt
    case Short => Short
  }

  lemma {:induction false} RowsRoundTrip(inUse: seq<bool>, i: nat, rest: seq<bool>)
    requires i <= 16 && |inUse| == 256
    ensures ParseRows(RowFlags(inUse), i, inUse[..16 * i], RowBits(inUse, i) + rest) == Done(inUse, rest)
    decreases 16 - i
  {
    if i == 16 {
      assert inUse[..256] == inUse && RowBits(inUse, i) + rest == rest;
    } else {
      var row, next := inUse[16 * i..16 * i + 16], i + 1;
      var tail := RowBits(inUse, next) + rest;
      assert inUse[..16 * i] + row == inUse[..16 * next];
      if RowUsed(inUse, i) {
        ConcatAssoc(row, RowBits(inUse, next), rest);
        FlagsRoundTrip(inUse[..16 * i], row, tail);
      } else {
        assert RowBits(inUse, i) + rest == tail;
        assert row == NoFlags();
      }
      RowsRoundTrip(inUse, next, rest);
    }
  }

  lemma MapRoundTrip(inUse: seq<bool>, rest: seq<bool>)
    requires |inUse| == 256
    ensures ParseMap(MapBits(inUse) + rest) == Done(inUse, rest)
  {
    var rows, tail := RowFlags(inUse), RowBits(inUse, 0) + rest;
    assert MapBits(inUse) + rest == rows + tail;
    FlagsRoundTrip([], rows, tail);
    assert [] + rows == rows;
    RowsRoundTrip(inUse, 0, rest);
    assert inUse[..0] == [];
  }

  // ---------- selectors ----------

  /** j ones and a zero. */
  function Unary(j: nat): (r: seq<bool>)
    ensures |r| == j + 1
  {
    if j == 0 then [false] else [true] + Unary(j - 1)
  }

  function UnaryBits(js: seq<nat>): seq<bool> {
    if js == [] then [] else Unary(js[0]) + UnaryBits(js[1..])
  }

  /** The number of groups of 50 that n symbols make. */
  function SelectorCount(n: nat): nat { (n + 49) / 50 }

  /** The cells of selectorMtf and of selector: 2 + 900000 / BZ_G_SIZE. */
  const BZ_MAX_SELECTORS: nat := 18002

  function ParseUnary(j: nat, nGroups: nat, bits: seq<bool>): (r: Parse<nat>)
    requires j < nGroups
    ensures r.Done? ==> r.value < nGroups
    ensures r.Done? ==> |r.rest| <= |bits|
    decreases |bits|
  {
    if bits == [] then Short
    else if !bits[0] then Done(j, bits[1..])
    else if j + 1 >= nGroups then Corrupt
    else ParseUnary(j + 1, nGroups, bits[1..])
  }

  /** The selectors' indices, or one more of them than selectorMtf has cells: the source
      then writes past the array. */
  datatype Unaries = AllRead(js: seq<nat>) | PastTable

  function ParseUnaries(n: nat, nGroups: nat, acc: seq<nat>, bits: seq<bool>): (r: Parse<Unaries>)
    requires 0 < nGroups && |acc| <= BZ_MAX_SELECTORS && forall i :: 0 <= i < |acc| ==> acc[i] < nGroups
    ensures r.Done? && r.value.AllRead? ==> |r.value.js| == |acc| + n <= BZ_MAX_SELECTORS
    ensures r.Done? && r.value.AllRead? ==> forall i :: 0 <= i < |r.value.js| ==> r.value.js[i] < nGroups
    ensures r.Done? ==> |r.rest| <= |bits|
    decreases n
  {
    if n == 0 then Done(AllRead(acc), bits)
    else
      match ParseUnary(0, nGroups, bits)
      case Done(j, rest) =>
        if |acc| == BZ_MAX_SELECTORS then Done(PastTable, rest) else ParseUnaries(n - 1, nGroups, acc + [j], rest)
      case Corrupt => Corrupt
      case Short => Short
  }

  /** As many indices as there are cells never go past them, whatever the bits. */
  lemma {:induction false} UnariesFit(n: nat, nGroups: nat, acc: seq<nat>, bits: seq<bool>)
    requires 0 < nGroups && forall i :: 0 <= i < |acc| ==> acc[i] < nGroups
    requires |acc| + n <= BZ_MAX_SELECTORS
    ensures var r := ParseUnaries(n, nGroups, acc, bits); r.Done? ==> r.value.AllRead?
    decreases n
  {
    if n > 0 {
      var u := ParseUnary(0, nGroups, bits);
      if u.Done? { UnariesFit(n - 1, nGroups, acc + [u.value], u.rest); }
    }
  }

  /** n zero bits. */
  function Zeros(n: nat): (r: seq<bool>)
    ensures |r| == n && forall i :: 0 <= i < n ==> !r[i]
  {
    seq(n, _ => false)
  }

  /** One index more goes past them, if only every index is a single zero bit. */
  lemma {:induction false} UnariesOverrun(n: nat, nGroups: nat, acc: seq<nat>, rest: seq<bool>)
    requires 0 < nGroups && |acc| <= BZ_MAX_SELECTORS && forall i :: 0 <= i < |acc| ==> acc[i] < nGroups
    requires |acc| + n > BZ_MAX_SELECTORS
    ensures ParseUnaries(n, nGroups, acc, Zeros(BZ_MAX_SELECTORS + 1 - |acc|) + rest) == Done(PastTable, rest)
    decreases n
  {
    var bits := Zeros(BZ_MAX_SELECTORS + 1 - |acc|) + rest;
    if |acc| == BZ_MAX_SELECTORS {
      assert bits[1..] == rest;
    } else {
      assert bits[1..] == Zeros(BZ_MAX_SELECTORS + 1 - |acc + [0]|) + rest;
      UnariesOverrun(n - 1, nGroups, acc + [0], rest);
    }
  }

  lemma {:induction false} UnaryRoundTrip(j: nat, m: nat, nGroups: nat, rest: seq<bool>)
    requires m <= j < nGroups
    ensures ParseUnary(m, nGroups, Unary(j - m) + rest) == Done(j, rest)
    decreases j - m
  {
    if m == j {
      assert ([false] + rest)[1..] == rest;
    } else {
      UnaryRoundTrip(j, m + 1, nGroups, rest);
      assert (Unary(j - m) + rest)[1..] == Unary(j - m - 1) + rest;
    }
  }

  lemma {:induction false} UnariesRoundTrip(js: seq<nat>, nGroups: nat, acc: seq<nat>, rest: seq<bool>)
    requires 0 < nGroups && forall i :: 0 <= i < |acc| ==> acc[i] < nGroups
    requires |acc| + |js| <= BZ_MAX_SELECTORS && forall i :: 0 <= i < |js| ==> js[i] < nGroups
    ensures ParseUnaries(|js|, nGroups, acc, UnaryBits(js) + rest) == Done(AllRead(acc + js), rest)
    decreases |js|
  {
    if js == [] {
      assert [] + rest == rest && acc + js == acc;
    } else {
      var tail := UnaryBits(js[1..]) + rest;
      assert UnaryBits(js) + rest == Unary(js[0]) + tail;
      UnaryRoundTrip(js[0], 0, nGroups, tail);
      UnariesRoundTrip(js[1..], nGroups, acc + [js[0]], rest);
      MoveOver(acc, js);
    }
  }

  ghost predicate AllIn(s: seq<nat>, l: seq<nat>) { forall i :: 0 <= i < |s| ==> s[i] in l }

  lemma AllInFront(s: seq<nat>, l: seq<nat>, j: nat)
    requires AllIn(s, l) && j < |l| && s != []
    ensures AllIn(s[1..], Front(l, j))
  {
    FrontKeeps(l, j);
  }

  /** Selectors as indices into a list of recently used ones. */
  function SelectorMtf(pos: seq<nat>, sel: seq<nat>): (r: seq<nat>)
    requires AllIn(sel, pos)
    ensures |r| == |sel| && forall i :: 0 <= i < |r| ==> r[i] < |pos|
    decreases |sel|
  {
    if sel == [] then []
    else
      var j := IndexOf(pos, sel[0]);
      AllInFront(sel, pos, j);
      [j] + SelectorMtf(Front(pos, j), sel[1..])
  }

  function UndoMtf(pos: seq<nat>, js: seq<nat>): (r: seq<nat>)
    requires forall i :: 0 <= i < |js| ==> js[i] < |pos|
    ensures |r| == |js|
    decreases |js|
  {
    if js == [] then [] else [pos[js[0]]] + UndoMtf(Front(pos, js[0]), js[1..])
  }

  lemma {:induction false} SelectorRoundTrip(pos: seq<nat>, sel: seq<nat>)
    requires AllIn(sel, pos)
    ensures UndoMtf(pos, SelectorMtf(pos, sel)) == sel
    decreases |sel|
  {
    if sel != [] {
      var j := IndexOf(pos, sel[0]);
      AllInFront(sel, pos, j);
      SelectorRoundTrip(Front(pos, j), sel[1..]);
      assert SelectorMtf(pos, sel)[1..] == SelectorMtf(Front(pos, j), sel[1..]);
    }
  }

  // ---------- coding tables ----------

  /** From one length to the next in steps of one. */
  function Steps(curr: nat, to: nat): seq<bool>
    decreases if curr < to then to - curr else curr - to
  {
    if curr < to then [true, false] + Steps(curr + 1, to)
    else if curr > to then [true, true] + Steps(curr - 1, to)
    else [false]
  }

  function DeltaBits(curr: nat, lens: seq<Byte>): seq<bool>
    decreases |lens|
  {
    if lens == [] then [] else Steps(curr, lens[0]) + DeltaBits(lens[0], lens[1..])
  }

  function LengthBits(lens: seq<Byte>): seq<bool>
    requires lens != []
  {
    BitsOf(lens[0], 5) + DeltaBits(lens[0], lens)
  }

  function TablesBits(lens: seq<seq<Byte>>): seq<bool>
    requires forall t :: 0 <= t < |lens| ==> lens[t] != []
  {
    if lens == [] then [] else LengthBits(lens[0]) + TablesBits(lens[1..])
  }

  function ParseDeltas(curr: int, n: nat, acc: seq<Byte>, bits: seq<bool>): (r: Parse<seq<Byte>>)
    requires LengthsOk(acc)
    ensures r.Done? ==> |r.value| == |acc| + n && LengthsOk(r.value)
    ensures r.Done? ==> |r.rest| <= |bits|
    decreases |bits|
  {
    if n == 0 then Done(acc, bits)
    else if curr < 1 || curr > LONGEST then Corrupt
    else if bits == [] then Short
    else if !bits[0] then ParseDeltas(curr, n - 1, acc + [curr], bits[1..])
    else if |bits| < 2 then Short
    else ParseDeltas(if bits[1] then curr - 1 else curr + 1, n, acc, bits[2..])
  }

  predicate LengthsOk(lens: seq<Byte>) { forall i :: 0 <= i < |lens| ==> 1 <= lens[i] <= 20 }

  function ParseLengths(n: nat, bits: seq<bool>): (r: Parse<seq<Byte>>)
    ensures r.Done? ==> |r.value| == n && LengthsOk(r.value)
    ensures r.Done? ==> |r.rest| <= |bits|
  {
    match GetBits(bits, 5)
    case Done(curr, rest) => ParseDeltas(curr, n, [], rest)
    case Corrupt => Corrupt
    case Short => Short
  }

  ghost predicate AllLengthsOk(lens: seq<seq<Byte>>, n: nat) {
    forall t :: 0 <= t < |lens| ==> |lens[t]| == n && LengthsOk(lens[t])
  }

  function ParseTables(g: nat, n: nat, acc: seq<seq<Byte>>, bits: seq<bool>): (r: Parse<seq<seq<Byte>>>)
    ensures r.Done? ==> |r.rest| <= |bits|
    decreases g
  {
    if g == 0 then Done(acc, bits)
    else
      match ParseLengths(n, bits)
      case Done(lens, rest) => ParseTables(g - 1, n, acc + [lens], rest)
      case Corrupt => Corrupt
      case Short => Short
  }

  lemma {:induction false} TablesAreOk(g: nat, n: nat, acc: seq<seq<Byte>>, bits: seq<bool>)
    requires AllLengthsOk(acc, n) && ParseTables(g, n, acc, bits).Done?
    ensures var r := ParseTables(g, n, acc, bits).value; |r| == |acc| + g && AllLengthsOk(r, n)
    decreases g
  {
    if g > 0 {
      var p := ParseLengths(n, bits);
      TablesAreOk(g - 1, n, acc + [p.value], p.rest);
    }
  }

  lemma StepIsRead(curr: nat, down: bool, n: nat, acc: seq<Byte>, more: seq<bool>)
    requires 1 <= curr <= LONGEST && n > 0 && LengthsOk(acc)
    ensures ParseDeltas(curr, n, acc, [true, down] + more)
            == ParseDeltas(if down then curr - 1 else curr + 1, n, acc, more)
  {
    assert ([true, down] + more)[2..] == more;
  }

  lemma {:induction false} StepsRoundTrip(curr: nat, to: Byte, n: nat, acc: seq<Byte>, tail: seq<bool>)
    requires 1 <= curr <= LONGEST && 1 <= to <= LONGEST && n > 0 && LengthsOk(acc)
    ensures ParseDeltas(curr, n, acc, Steps(curr, to) + tail) == ParseDeltas(to, n - 1, acc + [to], tail)
    decreases if curr < to then to - curr else curr - to
  {
    if curr != to {
      var next := if curr < to then curr + 1 else curr - 1;
      StepsRoundTrip(next, to, n, acc, tail);
      ConcatAssoc([true, curr > to], Steps(next, to), tail);
      StepIsRead(curr, curr > to, n, acc, Steps(next, to) + tail);
    } else {
      assert ([false] + tail)[1..] == tail;
    }
  }

  lemma {:induction false} DeltasRoundTrip(curr: nat, lens: seq<Byte>, acc: seq<Byte>, rest: seq<bool>)
    requires 1 <= curr <= LONGEST && LengthsOk(lens) && LengthsOk(acc)
    ensures ParseDeltas(curr, |lens|, acc, DeltaBits(curr, lens) + rest) == Done(acc + lens, rest)
    decreases |lens|
  {
    if lens == [] {
      assert acc + lens == acc && [] + rest == rest;
    } else {
      var tail := DeltaBits(lens[0], lens[1..]) + rest;
      assert DeltaBits(curr, lens) == Steps(curr, lens[0]) + DeltaBits(lens[0], lens[1..]);
      assert DeltaBits(curr, lens) + rest == Steps(curr, lens[0]) + tail;
      StepsRoundTrip(curr, lens[0], |lens|, acc, tail);
      DeltasRoundTrip(lens[0], lens[1..], acc + [lens[0]], rest);
      MoveOver(acc, lens);
    }
  }

  lemma LengthsRoundTrip(lens: seq<Byte>, rest: seq<bool>)
    requires lens != [] && LengthsOk(lens)
    ensures ParseLengths(|lens|, LengthBits(lens) + rest) == Done(lens, rest)
  {
    var tail := DeltaBits(lens[0], lens) + rest;
    assert LengthBits(lens) + rest == BitsOf(lens[0], 5) + tail;
    assert Pow2(5) == 32;
    GetWritten(lens[0], 5, tail);
    DeltasRoundTrip(lens[0], lens, [], rest);
    assert [] + lens == lens;
  }

  lemma {:induction false} TablesRoundTrip(lens: seq<seq<Byte>>, n: nat, acc: seq<seq<Byte>>, rest: seq<bool>)
    requires n > 0 && AllLengthsOk(lens, n)
    ensures ParseTables(|lens|, n, acc, TablesBits(lens) + rest) == Done(acc + lens, rest)
    decreases |lens|
  {
    if lens == [] {
      assert acc + lens == acc && [] + rest == rest;
    } else {
      var tail := TablesBits(lens[1..]) + rest;
      assert TablesBits(lens) + rest == LengthBits(lens[0]) + tail;
      LengthsRoundTrip(lens[0], tail);
      TablesRoundTrip(lens[1..], n, acc + [lens[0]], rest);
      MoveOver(acc, lens);
    }
  }
}
