/** BZ2_decompress from the coding tables of a block to the start of its output: the symbols
    read, and the inverse transform set up for either decoder. */
module BlockReader {
  import opened Basics
  import opened Bits
  import opened BitStream
  import opened ByteCounts
  import opened BurrowsWheeler
  import opened Huffman
  import opened MoveToFront
  import opened GenerateMtf
  import opened BlockFormat
  import opened SymbolFormat
  import opened Block
  import opened Inversion
  import opened Unrle
  import opened Decompress
  import opened ReadBlock

  /** makeMaps_d. */
  method MakeMapsD(inUse: seq<bool>) returns (seqToUnseq: seq<Byte>)
    requires |inUse| == 256
    ensures seqToUnseq == Used(inUse)
  {
    seqToUnseq := [];
    for i := 0 to 256
      invariant seqToUnseq == UsedBytes(inUse, i)
    {
      if inUse[i] { seqToUnseq := seqToUnseq + [i]; }
    }
  }

  /** The fast form of the inverse transform. */
  method FastThread(tt: array<nat>, cftab: seq<nat>, origPtr: nat, nblock: nat, ghost column: seq<Byte>)
    returns (t: Thread)
    requires nblock == |column| <= tt.Length && origPtr < |column| && IsCftab(cftab, column)
    requires forall j :: 0 <= j < |column| ==> tt[j] == column[j]
    modifies tt
    ensures fresh(t) && t.Valid() && t.column == column && t.orig == origPtr && t.taken == 0
  {
    var next := new nat[257](i requires 0 <= i < 257 && |cftab| == 257 => cftab[i]);
    MakeTt(tt, next, column, nblock);
    forall j: nat | j < |column| ensures TtAt(tt[..], column, j) {}
    t := new Thread.Fast(tt[..], origPtr, column);
  }

  /** The small form. */
  method SmallThread(links: Links, cftab: seq<nat>, origPtr: nat, nblock: nat, ghost column: seq<Byte>)
    returns (t: Thread)
    requires links.Valid() && nblock == |column| <= links.ll16.Length && |column| < 0x10_0000 && origPtr < |column|
    requires IsCftab(cftab, column) && forall j :: 0 <= j < |column| ==> links.ll16[j] == column[j]
    modifies links.ll16, links.ll4
    ensures fresh(t) && t.Valid() && t.column == column && t.orig == origPtr && t.taken == 0
  {
    var cftabCopy := new nat[257](i requires 0 <= i < 257 && |cftab| == 257 => cftab[i]);
    MakeT(links, cftabCopy, column, nblock);
    RowsUndo(links.Entries(), column);
    ghost var cycle := ReversePointers(links, origPtr, column);
    t := new Thread.Small(links, cftab, origPtr, column, cycle);
  }

  /** A body, from its column as indices of used bytes. */
  ghost function BodyOf(h: Header, p: Parse<seq<nat>>): Parse<seq<Byte>>
    requires |h.inUse| == 256
  {
    var (col, rest) :- p;
    if h.origPtr >= |col| then Corrupt else Done(Named(Used(h.inUse), col), rest)
  }

  lemma BodyIsColumn(level: nat, h: Header, tables: seq<Tables>, bits: seq<bool>)
    requires HeaderOk(h) && TablesForAll(tables, h.lens)
    ensures ValidCoding(CodingOf(level, h, tables))
    ensures ParseBody(level, h, tables, bits) == BodyOf(h, WholeColumn(CodingOf(level, h, tables), bits))
  {
    HeaderGivesCoding(level, h, tables);
  }

  /** The tables of the inverse transform, and the symbol reader that will fill the first. */
  method StartColumn(r: BitReader, c: SymbolFormat.Coding, used: seq<Byte>, small: bool)
    returns (links: Links, cr: ColumnReader)
    requires r.Valid() && ValidCoding(c) && c.eob == |used| + 1 && 1 <= |used| <= 256
    ensures cr.Valid() && cr.Apart() && cr.repr == cr.Parts() && fresh(cr.repr) && cr.sr.r == r && cr.used == used
    ensures cr.goal == WholeColumn(c, r.Bits()) && cr.tt.Length == c.max
    ensures links.Valid() && fresh(links) && fresh(links.ll16) && fresh(links.ll4) && links.ll4 !in cr.repr
    ensures small ==> cr.tt == links.ll16
  {
    links := new Links(if small then c.max else 0);
    var tt := links.ll16;
    if !small { tt := new nat[c.max]; }
    cr := new ColumnReader(r, c, used, tt);
  }

  ghost predicate IsBody(goal: Parse<seq<Byte>>, level: nat, h: Header, tables: seq<Tables>, bits: seq<bool>) {
    HeaderOk(h) && TablesForAll(tables, h.lens) && goal == ParseBody(level, h, tables, bits)
  }

  /** Everything is made ready for the symbols: seqToUnseq, the decoding tables, and the tables of
      the inverse transform. */
  method StartBody(r: BitReader, h: Header, level: nat, small: bool)
    returns (body: BodyReader, ghost tables: seq<Tables>)
    requires r.Valid() && HeaderOk(h) && 1 <= level <= 9
    ensures body.Valid() && fresh(body.repr) && body.cr.repr <= body.repr && body.cr.sr.r == r && body.h == h
    ensures forall i: nat {:trigger Look(i)} :: Look(i) ==> IsBody(body.goal, level, h, tables, r.Bits())
  {
    var seqToUnseq := MakeMapsD(h.inUse);
    var tabs := CreateTables(h.lens, |seqToUnseq| + 2);
    tables := tabs;
    BodyIsColumn(level, h, tabs, r.Bits());
    var links, cr := StartColumn(r, CodingOf(level, h, tabs), seqToUnseq, small);
    body := new BodyReader(h, small, links, cr);
  }

  /** The part of DState that holds a block while its symbols are read. */
  class BodyReader {
    const h: Header
    const small: bool
    const links: Links
    const cr: ColumnReader
    ghost const goal: Parse<seq<Byte>>

    ghost const repr: set<object>

    /** Whatever has been read by now, the body will be goal. */
    ghost predicate Valid()
      reads repr, cr.repr, cr.sr.r
    {
      cr.Valid() && forall i: nat {:trigger Look(i)} :: Look(i) ==> Fits()
    }

    ghost predicate Fits()
      reads cr.repr
    {
      && cr.repr == cr.Parts() && repr == cr.repr + {this, links, links.ll16, links.ll4}
      && cr.Apart() && |h.inUse| == 256 && cr.used == Used(h.inUse) && goal == BodyOf(h, cr.goal)
      && links.ll16 != links.ll4 && links.ll4.Length == (links.ll16.Length + 1) / 2 && links.ll4 !in cr.repr
      && (small ==> cr.tt == links.ll16) && cr.tt.Length < 0x10_0000
    }

    constructor (h: Header, small: bool, links: Links, cr: ColumnReader)
      requires |h.inUse| == 256 && cr.Valid() && cr.Apart() && cr.repr == cr.Parts()
      requires cr.used == Used(h.inUse) && cr.tt.Length < 0x10_0000
      requires links.Valid() && links.ll4 !in cr.repr && (small ==> cr.tt == links.ll16)
      ensures Valid() && this.h == h && this.links == links && this.cr == cr && goal == BodyOf(h, cr.goal)
      ensures repr == cr.repr + {this, links, links.ll16, links.ll4}
    {
      this.h := h;
      this.small := small;
      this.links := links;
      this.cr := cr;
      goal := BodyOf(h, cr.goal);
      repr := cr.repr + {this, links, links.ll16, links.ll4};
    }

    /** The reader stays as it is when only the input is offered anew. */
    twostate lemma StillValid()
      requires old(Valid()) && cr.sr.r.Valid() && cr.sr.r.Bits() == old(cr.sr.r.Bits())
      requires unchanged(repr)
      ensures Valid()
    {
      assert Look(0);
      cr.StillValid();
    }

    /** The column has been read: its counts are summed up and its threads laid. */
    method LayThreads(ghost column: seq<Byte>) returns (t: Thread)
      requires cr.Apart() && links.Valid() && links.ll4 !in cr.repr && cr.tt.Length < 0x10_0000
      requires small ==> cr.tt == links.ll16
      requires |cr.col| == cr.nblock && h.origPtr < cr.nblock && column == Named(cr.used, cr.col)
      requires Stored(cr.tt[..], cr.unzftab[..], cr.used, cr.col)
      modifies cr.tt, links.ll16, links.ll4
      ensures fresh(t) && t.Valid() && t.taken == 0 && t.orig == h.origPtr && t.column == column
    {
      var cftab := MakeCftab(cr.unzftab[..], column, cr.nblock);
      if small {
        t := SmallThread(links, cftab, h.origPtr, cr.nblock, column);
      } else {
        t := FastThread(cr.tt, cftab, h.origPtr, cr.nblock, column);
      }
    }

    /** The symbols, from wherever the last call stopped for want of input, and then the thread
        along which the block is put out. */
    method ReadBody() returns (res: Read<Thread>, nblock: nat)
      requires Valid()
      modifies repr, cr.sr.r`input, cr.sr.r`bsBuff, cr.sr.r`bsLive, cr.sr.r`pending
      ensures cr.sr.r.Valid()
      ensures res.Got? ==> fresh(res.value) && BodyRead(goal, h, res.value, cr.sr.r) && nblock == |res.value.column|
      ensures res.Got? ==> |cr.sr.r.Bits()| < old(|cr.sr.r.Bits()|)
      ensures res.DataError? ==> goal == Corrupt
      ensures res.NeedInput? ==> Valid() && cr.sr.r.input == [] && (cr.sr.r.future == [] ==> goal.Short?)
    {
      assert Look(0);
      var n := cr.ReadSymbols();
      nblock := 0;
      if n.IsFailure() { return n.PropagateFailure(), nblock; }
      nblock := n.value;
      if h.origPtr >= nblock { return DataError, nblock; }
      var t := LayThreads(Named(cr.used, cr.col));
      res := Got(t);
    }
  }

  /** The thread is laid for the body that goal says, and waits at its start. */
  ghost predicate BodyRead(goal: Parse<seq<Byte>>, h: Header, t: Thread, r: BitReader)
    reads t, r
  {
    && t.taken == 0 && t.orig == h.origPtr < |t.column| && goal == Done(t.column, r.Bits())
    && forall i: nat {:trigger Look(i)} :: Look(i) ==> t.Valid()
  }
}
