/** unRLE_obuf_to_output_FAST and _SMALL of bzlib.c: bytes taken along the thread, runs
    expanded into whatever output space the caller offers. */
module Unrle {
  import opened Basics
  import opened ByteCounts
  import opened BurrowsWheeler
  import opened Inversion
  import opened RunLengths

  /** The n-th byte along the thread; from the block's first byte at 1 it goes on for ever. */
  ghost function ByteAt(column: seq<Byte>, orig: nat, n: nat): Byte
    requires orig < |column|
  {
    column[Follow(Threads(column), orig, n)]
  }

  /** The count that a last run of four without one is taken to have: the byte after the block. */
  ghost function Spurious(column: seq<Byte>, orig: nat): Byte
    requires orig < |column|
  {
    ByteAt(column, orig, |column| + 1)
  }

  /** The output space it takes to come to the end of a block, or to find that it has no proper end:
      the run without a count is put out first, and the small decoder then asks for one more byte. */
  function Needs(block: seq<Byte>, spurious: Byte, small: bool): nat {
    |Expand(block)| + if Complete(block) then 0 else spurious + (if small then 1 else 0)
  }

  ghost predicate TtAt(tt: seq<nat>, column: seq<Byte>, j: nat)
    requires j < |column| <= |tt|
  {
    tt[j] == column[j] + 256 * Threads(column)[j]
  }

  ghost predicate IsTt(tt: seq<nat>, column: seq<Byte>) {
    |column| <= |tt| && forall j: nat :: j < |column| ==> TtAt(tt, column, j)
  }

  ghost predicate IsCftab(cftab: seq<nat>, column: seq<Byte>) {
    |cftab| == 257 && forall c: nat :: c <= 256 ==> cftab[c] == Below(column, c)
  }

  /** Where the next byte comes from: tt, or the reversed links with the first column found
      by search. */
  class Thread {
    const small: bool
    const tt: seq<nat>
    const ll16: seq<nat>
    const ll4: seq<nat>
    const cftab: seq<nat>
    ghost const column: seq<Byte>
    ghost const orig: nat
    ghost const links: seq<nat>
    ghost const cycle: set<nat>
    var tPos: nat
    ghost var taken: nat

    ghost predicate Valid()
      reads this
    {
      && orig < |column|
      && tPos == Follow(Threads(column), orig, if small then taken else taken + 1)
      && if small then Closed(links, column, orig, cycle) && Unpacks(ll16, ll4, links) && IsCftab(cftab, column)
         else IsTt(tt, column)
    }

    constructor Fast(tt: seq<nat>, origPtr: nat, ghost column: seq<Byte>)
      requires IsTt(tt, column) && origPtr < |column|
      ensures Valid() && !small && this.column == column && orig == origPtr && taken == 0
    {
      small := false;
      this.tt := tt;
      ll16, ll4, cftab := [], [], [];
      this.column := column;
      orig := origPtr;
      links, cycle := [], {};
      taken := 0;
      assert TtAt(tt, column, origPtr);
      tPos := tt[origPtr] / 256;
    }

    constructor Small(ll: Links, cftab: seq<nat>, origPtr: nat, ghost column: seq<Byte>, ghost cycle: set<nat>)
      requires ll.Valid() && Closed(ll.Entries(), column, origPtr, cycle) && IsCftab(cftab, column)
      requires origPtr < |column|
      ensures Valid() && small && this.column == column && orig == origPtr && taken == 0
    {
      small := true;
      tt := [];
      ll16, ll4 := ll.ll16[..], ll.ll4[..];
      this.cftab := cftab;
      this.column := column;
      orig := origPtr;
      links := ll.Entries();
      this.cycle := cycle;
      taken := 0;
      tPos := origPtr;
    }

    /** BZ_GET_FAST: the word at tPos holds its byte and the next position. */
    method GetFast() returns (c: Byte)
      requires Valid() && !small
      modifies this
      ensures Valid() && taken == old(taken) + 1 && c == ByteAt(column, orig, taken)
    {
      assert TtAt(tt, column, tPos);
      var word := tt[tPos];
      c := word % 256;
      tPos := word / 256;
      taken := taken + 1;
    }

    /** BZ_GET_SMALL: the byte is the one its row starts with. */
    method GetSmall() returns (c: Byte)
      requires Valid() && small
      modifies this
      ensures Valid() && taken == old(taken) + 1 && c == ByteAt(column, orig, taken)
    {
      OnCycle(links, column, orig, cycle, taken, tPos);
      c := IndexIntoF(tPos, cftab, column);
      tPos := Unpack(ll16, ll4, tPos);
      taken := taken + 1;
    }

    method Get() returns (c: Byte)
      requires Valid()
      modifies this
      ensures Valid() && taken == old(taken) + 1 && c == ByteAt(column, orig, taken)
    {
      if small { c := GetSmall(); } else { c := GetFast(); }
    }
  }

  ghost predicate Unpacks(ll16: seq<nat>, ll4: seq<nat>, links: seq<nat>) {
    |ll16| == |links| && |ll4| == (|ll16| + 1) / 2 && forall i :: 0 <= i < |links| ==> links[i] == Unpack(ll16, ll4, i)
  }

  lemma OnCycle(ll: seq<nat>, s: seq<Byte>, orig: nat, cycle: set<nat>, k: nat, pos: nat)
    requires Closed(ll, s, orig, cycle) && orig < |s| && pos == Follow(Threads(s), orig, k)
    ensures pos < |s| <= |ll| && ll[pos] == Threads(s)[pos]
  {
    LinksAreThreads(ll, s, orig, cycle, k);
    assert ClosedAt(ll, s, cycle, pos);
  }

  /** The block is the first |column| bytes along the thread. */
  ghost predicate IsBlock(block: seq<Byte>, column: seq<Byte>, orig: nat) {
    && orig < |column| == |block|
    && forall n: nat {:trigger BlockByte(block, column, orig, n)} :: n < |block| ==> BlockByte(block, column, orig, n)
  }

  ghost predicate BlockByte(block: seq<Byte>, column: seq<Byte>, orig: nat, n: nat)
    requires orig < |column| && n < |block|
  {
    block[n] == ByteAt(column, orig, n + 1)
  }

  lemma UnsortIsBlock(column: seq<Byte>, orig: nat)
    requires orig < |column|
    ensures IsBlock(Unsort(column, orig), column, orig)
  {
    forall n: nat | n < |column| ensures BlockByte(Unsort(column, orig), column, orig, n) {}
  }

  lemma BlockIsUnsorted(block: seq<Byte>, column: seq<Byte>, orig: nat)
    requires IsBlock(block, column, orig)
    ensures block == Unsort(column, orig)
  {
    forall n: nat | n < |block| ensures block[n] == Unsort(column, orig)[n] {
      assert BlockByte(block, column, orig, n);
    }
  }

  /** n equal bytes at position u. */
  ghost predicate Same(s: seq<Byte>, u: nat, n: nat) {
    u + n <= |s| && forall i :: u <= i < u + n ==> s[i] == s[u]
  }

  /** The bytes after position u of the block, as a run sees them. */
  lemma ShortLead(s: seq<Byte>, u: nat, n: nat)
    requires 1 <= n < 4 && Same(s, u, n)
    requires u + n < |s| ==> s[u + n] != s[u]
    ensures Lead(s[u..]) == n
  {
    var t := s[u..];
    forall i | 0 <= i < |t| ensures t[i] == s[u + i] {}
  }

  lemma LongLead(s: seq<Byte>, u: nat)
    requires Same(s, u, 4)
    ensures Lead(s[u..]) == 4
  {
    var t := s[u..];
    assert t[1] == s[u + 1] && t[2] == s[u + 2] && t[3] == s[u + 3];
  }

  /** A run of len bytes, read from position u on, leaves used at one past the next byte. */
  ghost predicate RunRead(s: seq<Byte>, spurious: Byte, u: nat, len: nat, used: nat) {
    && u < |s|
    && if Lead(s[u..]) < 4 then len == Lead(s[u..]) && used == u + len + 1
       else used == u + 6 && len == Counted(if u + 4 < |s| then s[u + 4] else spurious)
  }

  /** In step with the block, or past the end of an incomplete one with len bytes to go. */
  ghost predicate InStep(s: seq<Byte>, spurious: Byte, out: seq<Byte>, ch: Byte, len: nat, used: nat) {
    && used >= 1
    && if used <= |s| + 1 then Streaming(s, out, ch, len, used - 1)
       else used == |s| + 2 && !Complete(s) && |out| + len == |Expand(s)| + spurious
  }

  lemma RunTaken(s: seq<Byte>, spurious: Byte, out: seq<Byte>, ch: Byte, u: nat, c: Byte, len: nat, used: nat)
    requires Streaming(s, out, ch, 0, u) && RunRead(s, spurious, u, len, used) && c == s[u]
    ensures InStep(s, spurious, out, c, len, used)
  {
    if Lead(s[u..]) < 4 {
      TakeShort(s, out, ch, u, len);
    } else {
      TakeLong(s, out, ch, u);
      if u + 4 == |s| {
        assert Expand(s[u..]) == Copies(s[u], 4);
        assert |out + Copies(ch, 0) + Expand(s[u..])| == |out| + 4;
      }
    }
  }

  lemma BytePut(s: seq<Byte>, spurious: Byte, out: seq<Byte>, ch: Byte, len: nat, used: nat, out': seq<Byte>, len': nat)
    requires InStep(s, spurious, out, ch, len, used) && len == len' + 1 && out' == out + [ch]
    ensures InStep(s, spurious, out', ch, len', used)
  {
    if used <= |s| + 1 { PutOut(s, out, ch, len, used - 1); }
  }

  lemma NotEmpty(s: seq<Byte>)
    requires s != []
    ensures Expand(s) != []
  {
    if Lead(s) == 4 && |s| > 4 { assert |Copies(s[0], Counted(s[4]))| >= 4; }
  }

  /** Unless the block has ended, or the run past its end has, the output falls short of what
      it takes. */
  lemma FallsShort(s: seq<Byte>, spurious: Byte, out: seq<Byte>, ch: Byte, len: nat, used: nat)
    requires InStep(s, spurious, out, ch, len, used)
    ensures used <= |s| || len > 0 ==> |out| < Needs(s, spurious, false)
    ensures used == |s| + 2 && len == 0 ==> |out| == Needs(s, spurious, false) < Needs(s, spurious, true)
  {
    if used <= |s| + 1 {
      assert |out + Copies(ch, len) + Expand(s[used - 1..])| == |out| + len + |Expand(s[used - 1..])|;
      if used <= |s| { NotEmpty(s[used - 1..]); }
    }
  }

  /** The registers of the run decoder. */
  class BlockOutput {
    const src: Thread
    const sum: Checksum
    const nblock: nat
    ghost const block: seq<Byte>
    var used: nat
    var k0: Byte
    var ch: Byte
    var len: nat
    var out: seq<Byte>
    var crc: Word

    /** The bytes come along the thread, whose first nblock bytes are the block. */
    ghost predicate Sources()
      reads this, src
    {
      && src.Valid() && used == src.taken >= 1 && nblock == |src.column| && IsBlock(block, src.column, src.orig)
      && k0 == ByteAt(src.column, src.orig, used) && crc == CrcAfter(sum, out)
    }

    ghost predicate Running()
      reads this, src
    {
      Sources() && InStep(block, Spurious(src.column, src.orig), out, ch, len, used)
    }

    /** The caller's test for the end of the block. */
    predicate Finished()
      reads this
    {
      used == nblock + 1 && len == 0
    }

    constructor (sum: Checksum, src: Thread, nblock: nat)
      requires src.Valid() && src.taken == 0 && nblock == |src.column|
      modifies src
      ensures Running() && this.src == src && this.sum == sum && out == [] && len == 0 && used == 1
    {
      this.sum := sum;
      this.src := src;
      this.nblock := nblock;
      block := Unsort(src.column, src.orig);
      used := 1;
      ch := 0;
      len := 0;
      out := [];
      crc := 0xffff_ffff;
      var c := src.Get();
      k0 := c;
      UnsortIsBlock(src.column, src.orig);
      StartStreaming(Unsort(src.column, src.orig), 0);
    }

    /** One byte of the current run goes out. */
    method Put()
      requires Running() && len > 0
      modifies this`out, this`crc, this`len
      ensures Running() && len == old(len) - 1 && out == old(out) + [ch]
    {
      ghost var out0, len0 := out, len;
      CrcOneMore(sum, out, ch);
      out := out + [ch];
      crc := sum.update(crc, ch);
      len := len - 1;
      BytePut(block, Spurious(src.column, src.orig), out0, ch, len0, used, out, len);
    }

    /** Takes the next byte along the thread. */
    method Next() returns (k1: Byte)
      requires src.Valid() && used == src.taken
      modifies src, this`used
      ensures src.Valid() && used == src.taken == old(used) + 1 && k1 == ByteAt(src.column, src.orig, used)
    {
      k1 := src.Get();
      used := used + 1;
    }

    /** After n equal bytes of a run: whether the next one repeats them. */
    method Again(ghost u: nat, ghost n: nat) returns (more: bool)
      requires Sources() && used == u + n <= nblock && 1 <= n <= 3 && k0 == ch
      requires Same(block, u, n) && block[u] == ch
      modifies src, this`used, this`k0
      ensures Sources() && used == u + n + 1
      ensures more ==> used <= nblock && k0 == ch && Same(block, u, n + 1)
      ensures !more ==> Lead(block[u..]) == n
    {
      var k1 := Next();
      if used <= nblock { assert BlockByte(block, src.column, src.orig, used - 1); }
      more := used != nblock + 1 && k1 == k0;
      k0 := k1;
      if !more { ShortLead(block, u, n); }
    }

    /** Reads the next run, at position u: at most four equal bytes and, after four, the count. */
    method ReadRun(ghost u: nat)
      requires Sources() && used == u + 1 <= nblock
      modifies src, this`used, this`k0, this`ch, this`len
      ensures Sources() && RunRead(block, Spurious(src.column, src.orig), u, len, used) && ch == block[u] && len > 0
    {
      assert BlockByte(block, src.column, src.orig, u);
      ch := k0;
      len := 1;
      var more := Again(u, 1);
      if !more { return; }
      len := 2;
      more := Again(u, 2);
      if !more { return; }
      len := 3;
      more := Again(u, 3);
      if !more { return; }
      LongLead(block, u);
      TakeCount(u);
    }

    /** A run without a count takes the byte after the block for it, and used runs past the end. */
    method TakeRun()
      requires Running() && len == 0 && used <= nblock
      modifies src, this`used, this`k0, this`ch, this`len
      ensures Running() && used > old(used) && len > 0
    {
      ghost var c0, u := ch, used - 1;
      ReadRun(u);
      RunTaken(block, Spurious(src.column, src.orig), out, c0, u, ch, len, used);
    }

    /** The count after four equal bytes, and the byte after it. */
    method TakeCount(ghost u: nat)
      requires Sources() && used == u + 4 <= nblock
      modifies src, this`used, this`k0, this`len
      ensures Sources() && used == u + 6 && len >= 4
      ensures len == Counted(if u + 4 < nblock then block[u + 4] else Spurious(src.column, src.orig))
    {
      var k1 := Next();
      if u + 4 < nblock { assert BlockByte(block, src.column, src.orig, u + 4); }
      len := Counted(k1);
      k0 := Next();
    }

    /** The fields are what they were. */
    twostate predicate Back()
      reads this, src
    {
      && used == old(used) && k0 == old(k0) && ch == old(ch) && len == old(len) && out == old(out) && crc == old(crc)
      && src.tPos == old(src.tPos) && src.taken == old(src.taken)
    }

    twostate lemma RunningAgain()
      requires old(Running()) && Back()
      ensures Running()
    {}

    /** The output space it takes to come to the end of the block. */
    ghost function Whole(small: bool): nat
      requires src.orig < |src.column|
    {
      Needs(block, Spurious(src.column, src.orig), small)
    }

    /** The block has ended, or there was not space enough to come to its end. */
    ghost predicate Halted(small: bool, left: nat)
      requires src.orig < |src.column|
      reads this
    {
      Finished() || (left == 0 && |out| < Whole(small))
    }

    /** unRLE_obuf_to_output_FAST: fills the output space offered, unless the block ends. It works on
        copies of the fields; when the block turns out to be corrupt they are not stored back. */
    method UnrleFast(availOut: nat) returns (corrupt: bool, left: nat)
      requires Running()
      modifies src, this
      ensures Running() && (corrupt ==> !Complete(block) && out == old(out) && left == availOut)
      ensures old(out) <= out && |out| + left == |old(out)| + availOut
      ensures if corrupt then |old(out)| + availOut >= Whole(false) else Halted(false, left)
    {
      var used0, k00, ch0, len0, out0, crc0, tPos0 := used, k0, ch, len, out, crc, src.tPos;
      ghost var taken0 := src.taken;
      corrupt, left := FastLoop(availOut);
      if corrupt {
        used, k0, ch, len, out, crc := used0, k00, ch0, len0, out0, crc0;
        src.tPos, src.taken := tPos0, taken0;
        RunningAgain();
        left := availOut;
      }
    }

    /** Where the output stands when the space is used up or the run in hand has been put out. */
    lemma Standing()
      requires Running()
      ensures used <= nblock || len > 0 ==> |out| < Whole(false) <= Whole(true)
      ensures used == nblock + 2 && len == 0 ==> |out| == Whole(false) && Whole(true) == |out| + 1 && !Complete(block)
      ensures used <= nblock + 2
    {
      FallsShort(block, Spurious(src.column, src.orig), out, ch, len, used);
    }

    /** The run in hand is put out, its last byte apart, unless the output space is used up. */
    method FinishRun(availOut: nat) returns (full: bool, left: nat)
      requires Running() && len > 0
      modifies this`out, this`crc, this`len
      ensures Running() && old(out) <= out && |out| + left == |old(out)| + availOut
      ensures if full then left == 0 && len > 0 else len == 0
    {
      left := availOut;
      ghost var out0 := out;
      while true
        invariant Running() && len > 0 && out0 <= out && |out| + left == |out0| + availOut
        decreases len
      {
        if left == 0 { return true, left; }
        if len == 1 { break; }
        Put();
        left := left - 1;
      }
      Put();
      left := left - 1;
      full := false;
    }

    /** The loop of the fast form. */
    method FastLoop(availOut: nat) returns (corrupt: bool, left: nat)
      requires Running()
      modifies src, this
      ensures Running() && (corrupt ==> !Complete(block))
      ensures old(out) <= out && |out| + left == |old(out)| + availOut
      ensures if corrupt then |out| >= Whole(false) else Halted(false, left)
    {
      left := availOut;
      ghost var out0 := out;
      while true
        invariant Running() && out0 <= out && |out| + left == |out0| + availOut
        decreases nblock + 2 - used
      {
        if len > 0 {
          var full;
          full, left := FinishRun(left);
          Standing();
          if full { return false, left; }
        }
        Standing();
        if used > nblock + 1 { return true, left; }
        if used == nblock + 1 { return false, left; }
        TakeRun();
      }
    }

    /** unRLE_obuf_to_output_SMALL. */
    method UnrleSmall(availOut: nat) returns (corrupt: bool, left: nat)
      requires Running()
      modifies src, this
      ensures Running() && (corrupt ==> !Complete(block))
      ensures old(out) <= out && |out| + left == |old(out)| + availOut
      ensures if corrupt then |old(out)| + availOut >= Whole(true) else Halted(true, left)
    {
      left := availOut;
      ghost var out0 := out;
      while true
        invariant Running() && out0 <= out && |out| + left == |out0| + availOut
        decreases nblock + 2 - used
      {
        while true
          invariant Running() && out0 <= out && |out| + left == |out0| + availOut
          decreases len
          modifies this`out, this`crc, this`len
        {
          Standing();
          if left == 0 { return false, left; }
          if len == 0 { break; }
          Put();
          left := left - 1;
        }
        if used == nblock + 1 { return false, left; }
        if used > nblock + 1 { return true, left; }
        TakeRun();
      }
    }

    /** When the block ends, exactly its expansion has been put out, however the output
        space was offered; before that, a beginning of it. */
    lemma Delivered()
      requires Running()
      ensures Finished() ==> out == Expand(block) && Complete(block)
      ensures Complete(block) ==> out <= Expand(block)
    {
      if Finished() { StreamedAll(block, out, ch); }
    }
  }
}
