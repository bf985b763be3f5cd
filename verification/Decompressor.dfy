/** BZ2_bzDecompress of bzlib.c: compressed input in whatever pieces each call offers, blocks
    read, sorted back and expanded into whatever output space it offers, with both checksums
    compared. */
module Decompressor {
  import opened Basics
  import opened Bits
  import opened BitStream
  import opened BurrowsWheeler
  import opened Huffman
  import opened Block
  import opened RunLengths
  import opened Unrle
  import opened Stream
  import opened Decompress
  import opened BlockReader
  import opened DecodedStream

  datatype Phase = AtMagic | InHeader | InBody | AtOutput | AtEnd | Failed
  datatype Code = Ok | StreamEnd | DataError | MagicError | SequenceError | Undefined

  lemma EmptyRight<T>(s: seq<T>)
    ensures s + [] == s
  {}

  lemma LongerOut(a: seq<Byte>, s: seq<Byte>, t: seq<Byte>)
    requires s <= t
    ensures a + s <= a + t && |a + t| == |a| + |t| && |a + s| == |a| + |s|
  {}

  /** What the decoder knows about the past is behind this, so that it is looked at only where
      it is needed; Look does the same for the section in hand. */
  ghost predicate Recall(i: nat) { i >= 0 }

  /** DState and its stream. All of the input that will ever be offered is ghost, and so are the
      blocks seen in it; nothing is asked of either. When a header makes the source write past its
      selectors, the code is Undefined. */
  class Decoder {
    const sum: Checksum
    const small: bool
    const r: BitReader
    var phase: Phase
    var magic: seq<Byte>
    var level: nat
    var head: SectionReader?
    var body: BodyReader?
    var cur: BlockOutput?
    var storedCRC: nat
    var combinedCRC: Word
    var finished: seq<Byte>
    ghost const total: seq<bool>
    ghost var start: seq<bool>
    ghost var seen: seq<Seen>
    ghost var next: Parse<Section>
    ghost var last: Seen
    ghost var repr: set<object>

    /** All output so far. */
    function Delivered(): seq<Byte>
      reads this, cur
    {
      finished + (if phase == AtOutput && cur != null then cur.out else [])
    }

    /** Everything before the section in hand: the stream header, and blocks whose checksums were
        right. */
    ghost predicate Past()
      reads this`level, this`start, this`seen, this`next, this`combinedCRC
    {
      1 <= level <= 9 && forall i: nat {:trigger Recall(i)} :: Recall(i) ==> PastIs()
    }

    ghost predicate PastIs()
      reads this`level, this`start, this`seen, this`next, this`combinedCRC
    {
      && ParseMagic(total) == Done(level, start) && AllSeen(sum, level, start, seen)
      && next == ParseSection(level, After(start, seen)) && combinedCRC == CombinedOf(sum, SeenBlocks(seen))
    }

    /** What those blocks stand for has been put out. */
    ghost predicate PutOutAll()
      reads this`seen, this`finished
    {
      forall i: nat {:trigger Recall(i)} :: Recall(i) ==> finished == DataOf(SeenBlocks(seen))
    }

    /** The reader and the decoder itself lie outside the parts that come and go. */
    ghost predicate Own()
      reads this`repr, r
    {
      r.Valid() && r !in repr && this !in repr
    }

    ghost predicate Valid()
      reads this, r, repr
    {
      && Own() && (phase != AtMagic && phase != Failed ==> Past() && PutOutAll())
      && match phase
         case AtMagic => InMagic()
         case InHeader => ReadingHeader()
         case InBody => ReadingBody()
         case AtOutput => PuttingOut()
         case AtEnd => EndFollows(next, combinedCRC)
         case Failed => true
    }

    ghost predicate InMagic()
      reads this`finished, this`seen, this`magic, r
    {
      finished == [] && seen == [] && MagicAhead(magic, r.Bits()) == ParseMagic(total)
    }

    ghost predicate ReadingHeader()
      reads this, r, repr
    {
      && head != null && head.repr <= repr
      && head.r == r && head.level == level && head.Valid() && head.goal == next
    }

    ghost predicate ReadingBody()
      reads this, r, repr
    {
      && body != null && body.cr.repr <= body.repr <= repr
      && body.cr.sr.r == r && body.Valid() && BodyIsNext(body)
    }

    /** The body being read is that of the next section. */
    ghost predicate BodyIsNext(body: BodyReader)
      reads this`level, this`next, this`last, this`storedCRC
    {
      && next.Done? && next.value == BlockHeader(body.h) && storedCRC == body.h.crc
      && forall i: nat {:trigger Look(i)} :: Look(i) ==> IsBody(body.goal, level, body.h, last.tables, next.rest)
    }

    ghost predicate PuttingOut()
      reads this, r, repr
    {
      && cur != null && {cur, cur.src} <= repr && cur.sum == sum
      && last.block == cur.block && last.rest == r.Bits()
      && (forall i: nat {:trigger Look(i)} :: Look(i) ==> BlockIsNext(last, cur.src.column, cur.src.orig))
      && (forall i: nat {:trigger Look(i)} :: Look(i) ==> cur.Running())
    }

    /** The next section is this block, with this column. */
    ghost predicate BlockIsNext(s: Seen, column: seq<Byte>, orig: nat)
      reads this`level, this`next, this`storedCRC
    {
      && BlockFollows(level, next, s) && storedCRC == next.value.header.crc
      && column == Body(level, next, s.tables).value && orig == next.value.header.origPtr
    }

    /** How reading on may stop with room for so much output in all: at the end, in an error that
        the bits show, for want of input; or not at all. */
    ghost predicate Stopped(code: Code, room: nat)
      reads this, r
    {
      match code
      case Ok => phase == InBody || phase == AtOutput || Starved()
      case StreamEnd => phase == AtEnd
      case DataError => phase == Failed && Wrong(room)
      case Undefined => phase == Failed && OverrunFollows(next) && Fits(room)
      case _ => false
    }

    ghost predicate Wrong(room: nat)
      reads this`level, this`seen, this`next, this`last, this`combinedCRC
    {
      forall i: nat {:trigger Look(i)} :: Look(i) ==> WrongIs(room)
    }

    ghost predicate WrongIs(room: nat)
      reads this`level, this`seen, this`next, this`last, this`combinedCRC
    {
      WrongFollows(sum, level, next, combinedCRC, last, small, |DataOf(SeenBlocks(seen))|, room)
    }

    /** There is room for what the blocks seen stand for. */
    ghost predicate Fits(room: nat)
      reads this`seen
    {
      forall i: nat {:trigger Look(i)} :: Look(i) ==> |DataOf(SeenBlocks(seen))| <= room
    }

    lemma FitsNow()
      requires PutOutAll()
      ensures Fits(|finished|)
    {
      assert Recall(0);
    }

    /** More room would not have changed how it stopped. */
    lemma MoreRoom(code: Code, room: nat, more: nat)
      requires Stopped(code, room) && room <= more
      ensures Stopped(code, more)
    {
      if code == Code.DataError || code == Undefined { assert Look(0); }
    }

    /** The section that follows is in error. */
    lemma SectionIsWrong()
      requires PutOutAll() && WrongSection(level, next, combinedCRC, last.tables)
      ensures Wrong(|finished|)
    {
      assert Recall(0);
    }

    /** All input offered has been taken, and if there is to be no more, the bits end too soon. */
    ghost predicate Starved()
      reads this, r
    {
      && (phase == AtMagic || phase == InHeader || phase == InBody) && r.input == []
      && (r.future == [] ==> forall i: nat {:trigger Look(i)} :: Look(i) ==> TooShort())
    }

    ghost predicate TooShort()
      reads this`phase, this`level, this`next, this`last
    {
      if phase == AtMagic then ParseMagic(total).Short? else BitsEnd(level, next, last.tables)
    }

    /** BZ2_bzDecompressInit; total is all the input there will be. */
    constructor (sum: Checksum, small: bool, ghost total: seq<bool>)
      ensures Valid() && phase == AtMagic && Delivered() == []
      ensures this.sum == sum && this.small == small && this.total == total
      ensures r.input == [] && r.future == total && fresh(r) && repr == {}
    {
      this.sum := sum;
      this.small := small;
      r := new BitReader(total);
      phase := AtMagic;
      magic := STREAM_MAGIC;
      level := 0;
      head, body, cur := null, null, null;
      storedCRC, combinedCRC := 0, 0;
      finished := [];
      this.total := total;
      start, seen, next, last := [], [], Short, Seen([], [], []);
      repr := {};
    }

    // ---------- the stream header ----------

    /** The stream header, from wherever the last call stopped for want of input. */
    method ReadHead() returns (res: Read<()>)
      requires Own() && InMagic() && phase == AtMagic
      modifies this, r`input, r`bsBuff, r`bsLive, r`pending
      ensures Own() && finished == [] && fresh(repr - old(repr)) && (phase != InHeader ==> seen == [])
      ensures match res
              case Got(_) => phase == InHeader && ReadingHeader() && Past() && PutOutAll()
              case DataError => phase == Failed && ParseMagic(total).Corrupt?
              case NeedInput => phase == AtMagic && InMagic() && Starved()
    {
      res, magic := ReadMagic(r, magic);
      if res.IsFailure() {
        if res.DataError? { phase := Failed; }
        return;
      }
      magic := [];
      res := ReadLevel();
    }

    /** The digit after the magic bytes. */
    method ReadLevel() returns (res: Read<()>)
      requires Own() && phase == AtMagic && magic == [] && finished == [] && seen == []
      requires ParseLevel(r.Bits()) == ParseMagic(total)
      modifies this, r`input, r`bsBuff, r`bsLive, r`pending
      ensures Own() && finished == [] && fresh(repr - old(repr)) && (phase != InHeader ==> seen == [])
      ensures match res
              case Got(_) => phase == InHeader && ReadingHeader() && Past() && PutOutAll()
              case DataError => phase == Failed && ParseMagic(total).Corrupt?
              case NeedInput => phase == AtMagic && InMagic() && Starved()
    {
      var digit := GetNumber(r, 8);
      if digit.IsFailure() { return NeedInput; }
      if digit.value < 0x31 || digit.value > 0x39 {
        phase := Failed;
        return Read.DataError;
      }
      StartStream(digit.value - 0x30);
      res := Got(());
    }

    /** The stream header has been read. */
    method StartStream(level: nat)
      requires Own() && finished == [] && 1 <= level <= 9
      requires ParseMagic(total) == Done(level, r.Bits())
      modifies this`level, this`start, this`seen, this`combinedCRC, this`head, this`phase, this`next, this`repr
      ensures Own() && phase == InHeader && ReadingHeader() && Past() && PutOutAll() && fresh(repr - old(repr))
    {
      this.level := level;
      start, seen, combinedCRC := r.Bits(), [], 0;
      StartSection();
    }

    /** The stream header and the blocks seen have been read up to these bits. */
    ghost predicate Behind(bits: seq<bool>)
      reads this`level, this`start, this`seen, this`combinedCRC
    {
      1 <= level <= 9 && forall i: nat {:trigger Recall(i)} :: Recall(i) ==> BehindIs(bits)
    }

    ghost predicate BehindIs(bits: seq<bool>)
      reads this`level, this`start, this`seen, this`combinedCRC
    {
      && ParseMagic(total) == Done(level, start) && AllSeen(sum, level, start, seen)
      && bits == After(start, seen) && combinedCRC == CombinedOf(sum, SeenBlocks(seen))
    }

    /** BZ_X_BLKHDR_1: a section starts with the bits now to come. */
    method StartSection()
      requires Own() && Behind(r.Bits()) && PutOutAll()
      modifies this`head, this`phase, this`next, this`repr
      ensures Own() && phase == InHeader && ReadingHeader() && Past() && PutOutAll() && fresh(repr - old(repr))
    {
      head := new SectionReader(r, level);
      next := head.goal;
      phase := InHeader;
      repr := repr + head.repr;
      SectionIsNext();
    }

    lemma SectionIsNext()
      requires Behind(r.Bits())
      requires forall i: nat {:trigger Look(i)} :: Look(i) ==> next == ParseSection(level, r.Bits())
      ensures Past()
    {
      assert Look(0) && Recall(0);
    }

    // ---------- a section ----------

    /** A block header or the end of the stream. */
    method ReadHeader() returns (code: Code)
      requires Own() && Past() && PutOutAll() && ReadingHeader() && phase == InHeader
      modifies this`phase, this`body, this`storedCRC, this`last, this`repr, r`input, r`bsBuff, r`bsLive, r`pending,
               head.repr
      ensures Own() && fresh(repr - old(repr)) && Past() && PutOutAll() && Stopped(code, |finished|)
      ensures (phase == InHeader ==> ReadingHeader()) && (phase == InBody ==> ReadingBody())
      ensures code == Ok ==> (phase == InHeader && Starved()) || phase == InBody
      ensures phase == AtEnd ==> code == StreamEnd && EndFollows(next, combinedCRC)
      ensures phase == InBody ==> |r.Bits()| <= old(|r.Bits()|)
    {
      var section := head.ReadSection();
      if section.NeedInput? { return Ok; }
      if section.DataError? {
        phase := Failed;
        SectionIsWrong();
        return Code.DataError;
      }
      code := TakeSection(section.value);
    }

    /** What the section that has been read is. */
    method TakeSection(section: Section) returns (code: Code)
      requires Own() && Past() && PutOutAll() && phase == InHeader && next == Done(section, r.Bits())
      modifies this`phase, this`body, this`storedCRC, this`last, this`repr
      ensures Own() && fresh(repr - old(repr)) && Past() && PutOutAll() && Stopped(code, |finished|)
      ensures (phase == InBody && ReadingBody()) || phase == AtEnd || phase == Failed
      ensures code == Ok ==> phase == InBody
      ensures phase == AtEnd ==> code == StreamEnd && EndFollows(next, combinedCRC)
    {
      match section
      case Trailer(crc) =>
        phase := if combinedCRC == crc then AtEnd else Failed;
        code := if combinedCRC == crc then StreamEnd else Code.DataError;
        if combinedCRC != crc { SectionIsWrong(); }
      case SelectorOverrun =>
        phase := Failed;
        code := Undefined;
        FitsNow();
      case BlockHeader(h) =>
        StartBlock(h);
        code := Ok;
    }

    /** The coding tables and the tables of the inverse transform are made ready. */
    method StartBlock(h: Header)
      requires Own() && Past() && next == Done(BlockHeader(h), r.Bits())
      modifies this`phase, this`body, this`storedCRC, this`last, this`repr
      ensures Own() && phase == InBody && ReadingBody() && fresh(repr - old(repr))
    {
      ghost var tables;
      var b;
      b, tables := MakeBody(h);
      repr := repr + b.repr;
      EnterBody(b, tables);
    }

    /** From here on the body b is read. */
    method EnterBody(b: BodyReader, ghost tables: seq<Tables>)
      requires Own() && next == Done(BlockHeader(b.h), r.Bits())
      requires b.Valid() && b.cr.repr <= b.repr <= repr && b.cr.sr.r == r
      requires forall i: nat {:trigger Look(i)} :: Look(i) ==> IsBody(b.goal, level, b.h, tables, r.Bits())
      modifies this`phase, this`body, this`storedCRC, this`last
      ensures phase == InBody && ReadingBody()
    {
      body := b;
      storedCRC := b.h.crc;
      last := Seen(tables, [], []);
      phase := InBody;
    }

    /** The reader of a block's body. */
    method MakeBody(h: Header) returns (body: BodyReader, ghost tables: seq<Tables>)
      requires r.Valid() && Past() && next == Done(BlockHeader(h), r.Bits())
      ensures body.Valid() && fresh(body.repr) && body.cr.repr <= body.repr && body.cr.sr.r == r && body.h == h
      ensures forall i: nat {:trigger Look(i)} :: Look(i) ==> IsBody(body.goal, level, h, tables, r.Bits())
    {
      HeaderIsFit(h);
      body, tables := StartBody(r, h, level, small);
    }

    lemma HeaderIsFit(h: Header)
      requires Past() && next.Done? && next.value == BlockHeader(h)
      ensures HeaderOk(h)
    {
      assert Recall(0);
      ParsedSectionOk(level, After(start, seen));
    }

    /** The symbols of a block; it is then ready to be put out. */
    method ReadBlock() returns (code: Code)
      requires Own() && Past() && PutOutAll() && ReadingBody() && phase == InBody
      modifies this`phase, this`cur, this`last, this`repr, r`input, r`bsBuff, r`bsLive, r`pending, body.repr
      ensures Own() && fresh(repr - old(repr)) && Past() && Stopped(code, |finished|)
      ensures (code == Ok || code == Code.DataError) && (phase == InBody || phase == AtOutput || phase == Failed)
      ensures (phase == InBody ==> ReadingBody() && Starved()) && (phase == AtOutput ==> PuttingOut() && cur.out == [])
      ensures phase == AtOutput ==> |r.Bits()| < old(|r.Bits()|)
    {
      var t, nblock := body.ReadBody();
      if t.NeedInput? {
        if r.future == [] { BodyIsShort(body); }
        return Ok;
      }
      if t.DataError? || body.h.randomised {
        // bzip2 no longer writes randomised blocks
        BodyIsWrong(body);
        phase := Failed;
        return Code.DataError;
      }
      StartOutput(t.value, nblock);
      code := Ok;
    }

    lemma BodyIsWrong(body: BodyReader)
      requires BodyIsNext(body) && !body.goal.Short? && (body.goal.Corrupt? || body.h.randomised) && PutOutAll()
      ensures Wrong(|finished|)
    {
      assert Look(0);
      SectionIsWrong();
    }

    lemma BodyIsShort(body: BodyReader)
      requires BodyIsNext(body) && body.goal.Short? && phase != AtMagic
      ensures forall i: nat {:trigger Look(i)} :: Look(i) ==> TooShort()
    {
      assert Look(0);
    }

    /** Output of a block starts: BZ_X_OUTPUT. */
    method StartOutput(t: Thread, nblock: nat)
      requires Own() && body != null && !body.h.randomised && BodyIsNext(body)
      requires BodyRead(body.goal, body.h, t, r) && nblock == |t.column|
      modifies this`phase, this`cur, this`last, this`repr, t
      ensures Own() && phase == AtOutput && PuttingOut() && cur.out == [] && cur.src == t
      ensures fresh(repr - old(repr) - {t})
    {
      BlockIsIt(body, t.column, Unsort(t.column, t.orig));
      var c := MakeOutput(t, nblock);
      EnterOutput(c);
    }

    /** From here on c is put out. */
    method EnterOutput(c: BlockOutput)
      requires Own() && c.sum == sum
      requires forall i: nat {:trigger Look(i)} :: Look(i) ==>
        BlockIsNext(Seen(last.tables, c.block, r.Bits()), c.src.column, c.src.orig)
      requires forall i: nat {:trigger Look(i)} :: Look(i) ==> c.Running()
      modifies this`phase, this`cur, this`last, this`repr
      ensures phase == AtOutput && PuttingOut() && cur == c && repr == old(repr) + {c, c.src}
    {
      cur := c;
      last := Seen(last.tables, c.block, r.Bits());
      phase := AtOutput;
      repr := repr + {c, c.src};
    }

    /** The registers of the run decoder, with the first byte of the block taken. */
    method MakeOutput(t: Thread, nblock: nat) returns (c: BlockOutput)
      requires (forall i: nat {:trigger Look(i)} :: Look(i) ==> t.Valid()) && t.taken == 0 && nblock == |t.column|
      modifies t
      ensures fresh(c) && c.src == t && c.out == [] && c.sum == sum && c.block == Unsort(t.column, t.orig)
      ensures forall i: nat {:trigger Look(i)} :: Look(i) ==> c.Running()
    {
      assert Look(0);
      c := new BlockOutput(sum, t, nblock);
      BlockIsUnsorted(c.block, c.src.column, c.src.orig);
    }

    lemma BlockIsIt(body: BodyReader, column: seq<Byte>, block: seq<Byte>)
      requires !body.h.randomised && body.goal == Done(column, r.Bits()) && body.h.origPtr < |column|
      requires block == Unsort(column, body.h.origPtr)
      requires BodyIsNext(body)
      ensures forall i: nat {:trigger Look(i)} :: Look(i) ==>
        BlockIsNext(Seen(last.tables, block, r.Bits()), column, body.h.origPtr)
    {
      assert Look(0);
    }

    // ---------- output ----------

    /** The output space that the block in hand takes in all. */
    ghost function Whole(): nat
      requires cur != null && cur.src.orig < |cur.src.column|
      reads this`cur
    {
      cur.Whole(small)
    }

    /** More of the block in hand goes out. */
    method Drain(space: nat) returns (corrupt: bool, left: nat)
      requires r.Valid() && PuttingOut() && phase == AtOutput && cur.src.orig < |cur.src.column|
      modifies cur, cur.src
      ensures r.Valid() && PuttingOut() && HandedOut(old(Delivered()), space, Delivered(), left)
      ensures corrupt ==> !Complete(cur.block) && |finished| + Whole() <= |old(Delivered())| + space
      ensures !corrupt ==> cur.Halted(small, left)
    {
      assert Look(0);
      ghost var out0 := cur.out;
      if small {
        corrupt, left := cur.UnrleSmall(space);
      } else {
        corrupt, left := cur.UnrleFast(space);
      }
      LongerOut(finished, out0, cur.out);
    }

    /** The block in hand is in error; what it put out stays delivered. */
    method GiveUp(ghost room: nat)
      requires Past() && PutOutAll() && PuttingOut() && phase == AtOutput && cur.src.orig < |cur.src.column|
      requires !Complete(cur.block) || storedCRC != FinalCrc(sum, Expand(cur.block))
      requires |finished| + Whole() <= room
      modifies this`phase, this`finished
      ensures Past() && Stopped(Code.DataError, room) && Delivered() == old(Delivered())
    {
      ItIsWrong(room);
      finished := finished + cur.out;
      EmptyRight(finished);
      phase := Failed;
    }

    lemma ItIsWrong(room: nat)
      requires PuttingOut() && (!Complete(cur.block) || storedCRC != FinalCrc(sum, Expand(cur.block)))
      requires PutOutAll() && cur.src.orig < |cur.src.column| && |finished| + Whole() <= room
      ensures Wrong(room)
    {
      assert Look(0) && Recall(0);
    }

    lemma InColumn()
      requires PuttingOut()
      ensures cur.src.orig < |cur.src.column|
    {
      assert Look(0);
    }

    /** The block in hand has ended; its checksum must be the stored one. */
    method EndBlock(ghost room: nat) returns (ok: bool)
      requires |Delivered()| <= room
      requires Own() && Past() && PutOutAll() && PuttingOut() && phase == AtOutput && cur.Finished()
      modifies this`phase, this`finished, this`combinedCRC, this`seen, this`next, this`head, this`repr
      ensures Own() && fresh(repr - old(repr)) && Past() && Delivered() == old(Delivered())
      ensures if ok then phase == InHeader && ReadingHeader() && PutOutAll()
              else Stopped(Code.DataError, room)
    {
      BlockIsOut();
      EmptyRight(finished + cur.out);
      var crc := sum.finish(cur.crc);
      if crc != storedCRC {
        GiveUp(room);
        return false;
      }
      CloseBlock(crc);
      ok := true;
    }

    /** The block in hand is among those seen, and the next section starts. */
    method CloseBlock(crc: Word)
      requires Own() && Past() && PutOutAll() && PuttingOut() && phase == AtOutput
      requires Complete(cur.block) && cur.out == Expand(cur.block)
      requires crc == storedCRC == FinalCrc(sum, Expand(cur.block))
      modifies this`phase, this`finished, this`combinedCRC, this`seen, this`next, this`head, this`repr
      ensures Own() && fresh(repr - old(repr)) && Past() && finished == old(finished + cur.out)
      ensures phase == InHeader && ReadingHeader() && PutOutAll()
    {
      OneMore();
      finished := finished + cur.out;
      combinedCRC := sum.combine(combinedCRC, crc);
      seen := seen + [last];
      StartSection();
    }

    lemma BlockIsOut()
      requires PuttingOut() && cur.Finished()
      ensures Complete(cur.block) && cur.out == Expand(cur.block)
      ensures cur.src.orig < |cur.src.column| && Whole() == |cur.out|
      ensures sum.finish(cur.crc) == FinalCrc(sum, Expand(cur.block))
    {
      assert Look(0);
      cur.Delivered();
    }

    /** What holds with the block in hand among those seen. */
    ghost predicate WithIt(more: seq<Seen>)
      requires cur != null
      reads this`level, this`start, this`combinedCRC, this`storedCRC, this`finished, this`cur, cur, r
    {
      && ParseMagic(total) == Done(level, start) && AllSeen(sum, level, start, more) && r.Bits() == After(start, more)
      && sum.combine(combinedCRC, FinalCrc(sum, Expand(cur.block))) == CombinedOf(sum, SeenBlocks(more))
      && finished + Expand(cur.block) == DataOf(SeenBlocks(more))
    }

    /** The block in hand joins those seen. */
    lemma OneMore()
      requires Past() && PutOutAll() && PuttingOut()
      requires Complete(cur.block) && storedCRC == FinalCrc(sum, Expand(cur.block))
      ensures forall i: nat {:trigger Recall(i)} :: Recall(i) ==> WithIt(seen + [last])
    {
      assert Look(0) && Recall(0);
      OneMoreSeen(sum, level, start, seen, last);
      OneBlockMore(sum, SeenBlocks(seen), last.block);
    }

    /** The block in hand waits for more output space. */
    ghost predicate Waiting()
      reads this`cur, cur
    {
      cur != null && !cur.Finished() && cur.src.orig < |cur.src.column| && |cur.out| < Whole()
    }

    /** The block in hand fills the output space; when it ends, its checksum must be the
        stored one. */
    method PutOut(space: nat) returns (code: Code, left: nat)
      requires Own() && Past() && PutOutAll() && PuttingOut() && phase == AtOutput
      modifies this`phase, this`finished, this`combinedCRC, this`seen, this`next, this`head, this`repr, cur, cur.src
      ensures Own() && fresh(repr - old(repr)) && Past()
      ensures HandedOut(old(Delivered()), space, Delivered(), left)
      ensures phase == AtOutput ==> code == Ok && PuttingOut() && PutOutAll() && left == 0 && Waiting()
      ensures phase == InHeader ==> code == Ok && ReadingHeader() && PutOutAll()
      ensures phase != AtOutput && phase != InHeader ==>
              code == Code.DataError && Stopped(code, |old(Delivered())| + space)
    {
      InColumn();
      ghost var room := |Delivered()| + space;
      var corrupt;
      corrupt, left := Drain(space);
      code := Ok;
      if corrupt {
        GiveUp(room);
        code := Code.DataError;
      } else if cur.Finished() {
        var ok := EndBlock(room);
        if !ok { code := Code.DataError; }
      }
    }

    // ---------- BZ2_bzDecompress ----------

    /** BZ2_decompress within a block: on from wherever it stopped, as far as the input goes or to
        the start of output. */
    method ReadOn() returns (code: Code)
      requires Valid() && (phase == InHeader || phase == InBody)
      modifies this, r`input, r`bsBuff, r`bsLive, r`pending, repr
      ensures Valid() && fresh(repr - old(repr)) && Delivered() == old(Delivered())
      ensures Past() && Stopped(code, |Delivered()|) && phase != AtMagic
      ensures code == Ok ==> Starved() || phase == AtOutput
      ensures phase == AtOutput ==> code == Ok && |r.Bits()| < old(|r.Bits()|)
    {
      EmptyRight(finished);
      if phase == InHeader {
        code := ReadHeader();
        if phase != InBody { return; }
      }
      code := ReadBlock();
    }

    /** One turn of the loop of BZ2_bzDecompress; more when a block has just been read. */
    method Turn(space: nat) returns (code: Code, left: nat, more: bool)
      requires Valid() && (phase == InHeader || phase == InBody || phase == AtOutput)
      modifies this, r`input, r`bsBuff, r`bsLive, r`pending, repr
      ensures Valid() && HandedOut(old(Delivered()), space, Delivered(), left) && fresh(repr - old(repr))
      ensures Past() && phase != AtMagic
      ensures if more then phase == AtOutput && |r.Bits()| < old(|r.Bits()|)
              else Stopped(code, |old(Delivered())| + space)
      ensures !more && code == Ok ==> Starved() || (phase == AtOutput && left == 0 && Waiting())
    {
      left := space;
      if phase == AtOutput {
        code, left := PutOut(left);
        if phase != InHeader { return code, left, false; }
      }
      code := ReadOn();
      more := phase == AtOutput;
      MoreRoom(code, |Delivered()|, |Delivered()| + left);
    }

    /** The loop of BZ2_bzDecompress. */
    method Work(space: nat) returns (code: Code, left: nat)
      requires Valid() && (phase == InHeader || phase == InBody || phase == AtOutput)
      modifies this, r`input, r`bsBuff, r`bsLive, r`pending, repr
      ensures Valid() && HandedOut(old(Delivered()), space, Delivered(), left)
      ensures fresh(repr - old(repr)) && Past() && Stopped(code, |old(Delivered())| + space) && phase != AtMagic
      ensures code == Ok ==> Starved() || (phase == AtOutput && left == 0 && Waiting())
    {
      left := space;
      ghost var out0 := Delivered();
      while true
        invariant Valid() && (phase == InHeader || phase == InBody || phase == AtOutput)
        invariant HandedOut(out0, space, Delivered(), left) && fresh(repr - old(repr))
        decreases |r.Bits()|
      {
        var more;
        code, left, more := Turn(left);
        if !more { return; }
      }
    }

    /** BZ2_bzDecompress: one call with some input and some output space. The input offered must
        be the next part of all there is. */
    method BzDecompress(input: seq<Byte>, space: nat, ghost later: seq<bool>) returns (code: Code, left: nat)
      requires Valid() && phase != Failed && BytesBits(input) + later == r.Unread()
      modifies this, r, repr
      ensures Valid() && HandedOut(old(Delivered()), space, Delivered(), left)
      ensures fresh(repr - old(repr)) && r.future == later
      ensures code == SequenceError <==> old(phase) == AtEnd
      ensures code == MagicError ==> phase == Failed && ParseMagic(total).Corrupt?
      ensures code != MagicError && phase != AtMagic ==> Past()
      ensures code != SequenceError && code != MagicError ==> Stopped(code, |old(Delivered())| + space)
      ensures code == Ok ==> Starved() || (phase == AtOutput && left == 0 && Waiting())
    {
      left := space;
      TakeIn(input, later);
      if phase == AtEnd { return SequenceError, left; }
      if phase == AtMagic {
        EmptyRight(finished);
        var res := ReadHead();
        if res.DataError? { return MagicError, left; }
        if res.NeedInput? { return Ok, left; }
      }
      code, left := Work(left);
    }

    /** The input offered by a call. */
    method TakeIn(input: seq<Byte>, ghost later: seq<bool>)
      requires Valid() && phase != Failed && BytesBits(input) + later == r.Unread()
      modifies r`input, r`future
      ensures Valid() && r.Bits() == old(r.Bits()) && r.input == input && r.future == later
    {
      r.Offer(input, later);
      if phase == InHeader { head.StillValid(); }
      if phase == InBody { body.StillValid(); }
    }

    // ---------- what has been decoded ----------

    /** At the end the bits were a stream, of blocks with the right checksums, and exactly what
        those stand for has been put out. */
    lemma DecodedAll()
      requires Valid()
      ensures phase == AtEnd ==> IsStream(sum, total, level, start, seen) && Delivered() == DataOf(SeenBlocks(seen))
    {
      assert Recall(0);
      EmptyRight(finished);
    }

    lemma PastNow()
      requires Past()
      ensures PastIs()
    {
      assert Recall(0);
    }

    /** While a block is being put out, there is not yet output space for all of it. */
    lemma DecodedPart()
      requires Valid() && phase == AtOutput && Waiting()
      ensures BlockFollows(level, next, last)
      ensures var done := |DataOf(SeenBlocks(seen))|;
        done <= |Delivered()| < done + Need(level, next, last, small)
    {
      assert Look(0) && Recall(0);
    }

    /** Before a block is put out, the output is what those seen stand for. */
    lemma DecodedSoFar()
      requires Valid() && phase != AtOutput && phase != Failed && phase != AtMagic
      ensures Delivered() == DataOf(SeenBlocks(seen))
    {
      assert Recall(0);
      EmptyRight(finished);
    }

    // ---------- a stream of blocks sent ----------

    /** All the input there will ever be is the stream of the blocks sent, and what may follow. */
    ghost predicate Receives(streamLevel: nat, sent: seq<SentBlock>, rest: seq<bool>) {
      1 <= streamLevel <= 9 && AllWellSent(sum, streamLevel, sent) && total == StreamBits(sum, streamLevel, sent) + rest
    }

    /** Then the blocks seen are the first of those sent. */
    lemma SeesSent(streamLevel: nat, sent: seq<SentBlock>, rest: seq<bool>)
      requires Receives(streamLevel, sent, rest) && Past()
      ensures level == streamLevel && |seen| <= |sent| && SeenBlocks(seen) == Blocks(sent)[..|seen|]
      ensures next == ParseSection(level, Remaining(sum, sent, |seen|, rest))
      ensures combinedCRC == CombinedOf(sum, Blocks(sent)[..|seen|])
    {
      assert Recall(0);
      StreamStarts(sum, streamLevel, sent, rest);
      SeenAreSent(sum, level, sent, rest, start, seen);
    }

    /** However the input is split and whatever space is offered, on the stream of blocks sent no
        call ends in an error, and none starves once all of it has been offered. */
    lemma NeverFails(code: Code, room: nat, streamLevel: nat, sent: seq<SentBlock>, rest: seq<bool>)
      requires Receives(streamLevel, sent, rest) && (phase != AtMagic ==> Past()) && Stopped(code, room)
      ensures code == Ok || code == StreamEnd
      ensures Starved() ==> r.future != []
    {
      StreamStarts(sum, streamLevel, sent, rest);
      assert Look(0);
      if phase != AtMagic {
        SeesSent(streamLevel, sent, rest);
        NothingWrong(sum, level, sent, |seen|, rest, last);
      }
    }

    /** What has been put out is a beginning of the data sent, and at the end all of it. */
    lemma DeliversSent(streamLevel: nat, sent: seq<SentBlock>, rest: seq<bool>)
      requires Receives(streamLevel, sent, rest) && Valid() && phase != Failed
      ensures Delivered() <= Data(sent) && (phase == AtEnd ==> Delivered() == Data(sent))
    {
      EmptyRight(finished);
      if phase != AtMagic {
        PastOfSent(streamLevel, sent, rest);
        SeenData(sum, level, sent, rest, start, seen);
        if phase == AtOutput {
          OutputSoFar();
          SeenPart(sum, level, sent, rest, start, seen, last, cur.out);
        }
      }
    }

    lemma PastOfSent(streamLevel: nat, sent: seq<SentBlock>, rest: seq<bool>)
      requires Receives(streamLevel, sent, rest) && Past() && PutOutAll()
      ensures level == streamLevel && start == Remaining(sum, sent, 0, rest) && AllSeen(sum, level, start, seen)
      ensures next == ParseSection(level, After(start, seen)) && finished == DataOf(SeenBlocks(seen))
    {
      assert Recall(0);
      StreamStarts(sum, streamLevel, sent, rest);
    }

    lemma OutputSoFar()
      requires PuttingOut()
      ensures BlockFollows(level, next, last) && (Complete(last.block) ==> cur.out <= Expand(last.block))
    {
      assert Look(0);
      cur.Delivered();
    }
  }
}
