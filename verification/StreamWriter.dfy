/** BZ2_compressBlock of compress.c over a whole stream: header before the first block,
    blocks, and the trailer after the last. */
module StreamWriter {
  import opened Basics
  import opened Bits
  import opened BitStream
  import opened Rotations
  import opened BurrowsWheeler
  import opened Block
  import opened RunLengths
  import opened Stream
  import opened Sizes
  import opened BlockSizes
  import opened BlockBuilder
  import opened SendMtf
  import GenerateMtf
  import Sorting = BlockSort
  import TableChoice

  /** The bytes end a stream: its bits, padded to whole bytes. */
  ghost predicate Ends(sum: Checksum, bytes: seq<Byte>, level: nat, sent: seq<SentBlock>) {
    BytesBits(bytes) == Padded(StreamBits(sum, level, sent))
  }

  lemma NothingSent(sum: Checksum, level: nat)
    requires 1 <= level <= 9
    ensures AllWellSent(sum, level, []) && StreamHead(level, []) == Marked(StreamMagic(level), [])
    ensures Data([]) == [] && Combined(sum, []) == 0
  {
  }

  lemma EmptyLeft<T>(s: seq<T>)
    ensures [] + s == s && s + [] == s
  {}

  lemma HeadLength(level: nat, sent: seq<SentBlock>)
    ensures sent == [] ==> |StreamHead(level, sent)| == 32
  {
    MarkedLength(StreamMagic(level), []);
  }

  lemma PendingLength(drained: seq<Byte>, pending: seq<bool>)
    requires |pending| <= 32
    ensures |BytesBits(drained) + pending| <= 8 * |drained| + 32
  {
    BytesBitsLength(drained);
  }

  /** The bytes that wait after a block, or a block and the trailer, fit behind the block. */
  lemma FitsBehind(level: nat, n: nat, drained: seq<Byte>, zbits: seq<Byte>, bits: nat)
    requires 1 <= level && n <= 100000 * level
    requires bits <= 8 * |drained| + 64 + BlockBound(n) && |BytesBits(drained + zbits)| <= bits + 87
    ensures |zbits| <= ZbitsRoom(level, n)
  {
    BytesBitsLength(drained + zbits);
    ZbitsFit(level, n, BlockBound(n), |zbits|);
  }

  lemma OneMoreSent(sum: Checksum, level: nat, sent: seq<SentBlock>, short: nat, sb: SentBlock)
    requires 1 <= level <= 9 && AllWellSent(sum, level, sent) && WellSent(sum, level, sb) && Loaded(level, sent, short)
    requires |sb.bits| <= ThriftyBound(|sb.block|)
    ensures AllWellSent(sum, level, sent + [sb]) && Loaded(level, sent + [sb], Shorts(level, short, |sb.block|))
    ensures StreamHead(level, sent + [sb]) == StreamHead(level, sent) + sb.bits && |sb.bits| <= BlockBound(|sb.block|)
    ensures Data(sent + [sb]) == Data(sent) + Expand(sb.block)
    ensures Combined(sum, sent + [sb]) == sum.combine(Combined(sum, sent), FinalCrc(sum, Expand(sb.block)))
  {
    SendingOneMore(sum, level, sent, sb);
    LoadedMore(level, sent, short, sb);
    SentLength(sum, level, sb);
  }

  /** Of all the ways to send a block the encoder takes this: runs as long as they are, a map of just the
      bytes there are, and the tables and selectors that four rounds have led to. */
  ghost predicate ByEncoder(sb: SentBlock) {
    && RunsCoded(sb.block) && Marks(sb.h.inUse, sb.block)
    && TableChoice.Decided(sb.h.selectors, sb.h.lens, sb.symbols, |GenerateMtf.Used(sb.h.inUse)| + 2)
  }

  ghost predicate AllByEncoder(sent: seq<SentBlock>) {
    forall i: nat {:trigger Look(i)} :: Look(i) && i < |sent| ==> ByEncoder(sent[i])
  }

  lemma SentByEncoder(sb: SentBlock, inUse: seq<bool>)
    requires sb.h.inUse == inUse && RunsCoded(sb.block) && Marks(inUse, sb.block)
    requires TableChoice.Decided(sb.h.selectors, sb.h.lens, sb.symbols, |GenerateMtf.Used(inUse)| + 2)
    ensures ByEncoder(sb)
  {}

  lemma OneMoreByEncoder(sent: seq<SentBlock>, sb: SentBlock)
    requires AllByEncoder(sent) && ByEncoder(sb)
    ensures AllByEncoder(sent + [sb])
  {}

  /** A block has been sent, and no other; an empty one is not sent. */
  ghost predicate SentOne(before: seq<SentBlock>, sent: seq<SentBlock>, block: seq<Byte>) {
    forall i: nat {:trigger Look(i)} :: Look(i) ==> Blocks(sent) == Blocks(before) + if block == [] then [] else [block]
  }

  lemma NoneSent(sent: seq<SentBlock>)
    ensures SentOne(sent, sent, [])
  {
    EmptyLeft(Blocks(sent));
  }

  lemma OneSent(sent: seq<SentBlock>, sb: SentBlock)
    requires sb.block != []
    ensures SentOne(sent, sent + [sb], sb.block)
  {
    assert Blocks(sent + [sb]) == Blocks(sent) + [sb.block];
  }

  /** The part of EState that BZ2_compressBlock works on. */
  class Writer {
    const sum: Checksum
    const level: nat
    const workFactor: int
    const w: BitWriter
    var blockNo: nat
    var combinedCRC: Word
    ghost var sent: seq<SentBlock>
    ghost var started: bool
    ghost var closed: bool
    ghost var short: nat

    /** The bits written stay out of sight where a proof does not ask to Look at them. */
    ghost predicate Valid()
      reads this, w
    {
      && 1 <= level <= 9 && AllWellSent(sum, level, sent) && combinedCRC == Combined(sum, sent) && blockNo >= 1
      && (forall i: nat {:trigger Look(i)} :: Look(i) ==> InStep())
      && (!started ==> sent == []) && (blockNo == 1 || started)
      && (forall i: nat {:trigger Look(i)} :: Look(i) ==> Loaded(level, sent, short)) && AllByEncoder(sent)
    }

    /** Until the first block nothing is written; after the trailer the stream is whole. */
    ghost predicate InStep()
      reads this, w
    {
      && (closed ==> Ends(sum, w.drained + w.zbits, level, sent))
      && (!closed ==> w.Valid() && w.Written() == if started then StreamHead(level, sent) else [])
    }

    constructor (sum: Checksum, level: nat, workFactor: int)
      requires 1 <= level <= 9
      ensures Valid() && this.sum == sum && this.level == level && this.workFactor == workFactor
      ensures sent == [] && !closed && !started && short == 0
      ensures fresh(w) && w.zbits == [] && w.drained == []
    {
      this.sum := sum;
      this.level := level;
      this.workFactor := workFactor;
      w := new BitWriter();
      blockNo := 1;
      combinedCRC := 0;
      sent := [];
      started := false;
      closed := false;
      short := 0;
      NothingSent(sum, level);
    }

    /** The stream header, when this is the first block. */
    method StartStream()
      requires Valid() && !closed && (blockNo == 1 <==> !started)
      modifies w`zbits, w`bsBuff, w`bsLive, w`pending
      ensures w.Valid() && w.Written() == StreamHead(level, sent)
    {
      assert Look(0);
      if blockNo == 1 {
        NothingSent(sum, level);
        PutMagic(w, StreamMagic(level));
        EmptyLeft(Marked(StreamMagic(level), []));
      }
    }

    /** Sorts and sends a non-empty block. */
    method SendBlock(block: seq<Byte>, inUse: seq<bool>, blockCRC: Word) returns (ghost sb: SentBlock)
      requires w.Valid() && 1 <= level <= 9
      requires 0 < |block| <= 100000 * level && Marks(inUse, block) && Complete(block)
               && blockCRC == FinalCrc(sum, Expand(block)) && RunsCoded(block)
      modifies w`zbits, w`bsBuff, w`bsLive, w`pending
      ensures w.Valid() && WellSent(sum, level, sb) && sb.block == block && w.Written() == old(w.Written()) + sb.bits
      ensures |sb.bits| <= ThriftyBound(|block|) && ByEncoder(sb)
    {
      ghost var byMain;
      var ptr, origPtr;
      ptr, origPtr, byMain := Sorting.BlockSort(block, workFactor);
      ghost var h, symbols, out := CompressBlock(w, level, block, ptr, origPtr, inUse, blockCRC);
      sb := SentBlock(block, ptr, h, symbols, out, BlockBits(level, h, symbols, out, LastColumn(block, ptr)));
      SentByEncoder(sb, inUse);
    }

    /** The stream trailer. */
    method EndStream(crc: Word)
      requires w.Valid()
      modifies w`zbits, w`bsBuff, w`bsLive, w`pending
      ensures BytesBits(w.drained + w.zbits) == Padded(old(w.Written()) + TrailerBits(crc))
      ensures |BytesBits(w.drained + w.zbits)| <= |old(w.Written())| + 87
    {
      TrailerLength(crc);
      PaddedLength(w.Written() + TrailerBits(crc));
      ghost var head := w.Written();
      PutTrailer(crc);
      assert w.Written() == head + TrailerBits(crc);
      w.FinishWrite();
    }

    method PutTrailer(crc: Word)
      requires w.Valid()
      modifies w`zbits, w`bsBuff, w`bsLive, w`pending
      ensures w.Valid() && w.Written() == old(w.Written()) + TrailerBits(crc)
    {
      PutMarked(w, TRAILER_MAGIC, crc);
    }

    lemma WrittenSoFar()
      requires Valid() && started && !closed
      ensures w.Valid() && w.Written() == StreamHead(level, sent)
    {
      assert Look(0);
    }

    /** The writer's part of prepare_new_block: what waited has been handed out. */
    method NextBlock()
      requires Valid() && started && !closed
      modifies this`blockNo, w`zbits, w`drained
      ensures Valid() && blockNo == old(blockNo) + 1 && w.zbits == [] && w.drained == old(w.drained + w.zbits)
    {
      WrittenSoFar();
      w.Restart();
      blockNo := blockNo + 1;
      LeftInStep();
    }

    /** The checksum and the bits of a block that is not empty. */
    method AddBlock(block: seq<Byte>, inUse: seq<bool>, blockCRC0: Word)
      requires 1 <= level <= 9 && AllWellSent(sum, level, sent) && combinedCRC == Combined(sum, sent)
      requires w.Valid() && w.Written() == StreamHead(level, sent)
      requires 0 < |block| <= 100000 * level && Marks(inUse, block) && Complete(block)
      requires RunsCoded(block) && AllByEncoder(sent)
      requires blockCRC0 == CrcAfter(sum, Expand(block)) && Loaded(level, sent, short)
      modifies this`combinedCRC, this`sent, this`short, w`zbits, w`bsBuff, w`bsLive, w`pending
      ensures AllWellSent(sum, level, sent) && combinedCRC == Combined(sum, sent) && Loaded(level, sent, short)
      ensures short == Shorts(level, old(short), |block|)
      ensures |StreamHead(level, sent)| <= |old(w.Written())| + BlockBound(|block|)
      ensures w.Valid() && w.Written() == StreamHead(level, sent)
      ensures Data(sent) == old(Data(sent)) + Expand(block) && AllByEncoder(sent)
      ensures SentOne(old(sent), sent, block)
    {
      var blockCRC := sum.finish(blockCRC0);
      combinedCRC := sum.combine(combinedCRC, blockCRC);
      ghost var sb := SendBlock(block, inUse, blockCRC);
      OneMoreSent(sum, level, sent, short, sb);
      OneMoreByEncoder(sent, sb);
      OneSent(sent, sb);
      short := Shorts(level, short, |block|);
      sent := sent + [sb];
    }

    /** The stream header where it is due, and the block unless it is empty. */
    method WriteBlock(block: seq<Byte>, inUse: seq<bool>, blockCRC: Word)
      requires Valid() && !closed && (blockNo == 1 <==> !started) && w.zbits == []
      requires |block| <= 100000 * level && Marks(inUse, block) && Complete(block)
               && blockCRC == CrcAfter(sum, Expand(block)) && RunsCoded(block)
      modifies this`combinedCRC, this`sent, this`short, w`zbits, w`bsBuff, w`bsLive, w`pending
      ensures AllWellSent(sum, level, sent) && combinedCRC == Combined(sum, sent) && Loaded(level, sent, short)
      ensures short == Shorts(level, old(short), |block|)
      ensures w.Valid() && w.Written() == StreamHead(level, sent)
      ensures |w.Written()| <= 8 * |w.drained| + 64 + BlockBound(|block|)
      ensures Data(sent) == old(Data(sent)) + Expand(block) && AllByEncoder(sent)
      ensures SentOne(old(sent), sent, block)
    {
      assert Look(0);
      assert w.drained + [] == w.drained;
      PendingLength(w.drained, w.pending);
      HeadLength(level, sent);
      StartStream();
      if |block| > 0 {
        AddBlock(block, inUse, blockCRC);
      } else {
        EmptyLeft(Data(sent));
        NoneSent(sent);
      }
    }

    /** The stream trailer, after the last block, of n bytes. */
    method Leave(isLast: bool, n: nat)
      requires 1 <= level && combinedCRC == Combined(sum, sent) && n <= 100000 * level
      requires w.Valid() && w.Written() == StreamHead(level, sent)
      requires |w.Written()| <= 8 * |w.drained| + 64 + BlockBound(n)
      modifies this`started, this`closed, w`zbits, w`bsBuff, w`bsLive, w`pending
      ensures started && closed == isLast && |w.zbits| <= ZbitsRoom(level, n)
      ensures forall i: nat {:trigger Look(i)} :: Look(i) ==> InStep()
    {
      started := true;
      closed := isLast;
      ghost var bits := |w.Written()|;
      if isLast { EndStream(combinedCRC); }
      LeftInStep();
      FitsBehind(level, n, w.drained, w.zbits, bits);
    }

    lemma LeftInStep()
      requires combinedCRC == Combined(sum, sent) && started
      requires closed ==>
                 BytesBits(w.drained + w.zbits) == Padded(StreamHead(level, sent) + TrailerBits(combinedCRC))
      requires !closed ==> w.Valid() && w.Written() == StreamHead(level, sent)
      ensures forall i: nat {:trigger Look(i)} :: Look(i) ==> InStep()
    {}

    /** BZ2_compressBlock. */
    method Compress(block: seq<Byte>, inUse: seq<bool>, blockCRC: Word, isLast: bool)
      requires Valid() && !closed && (blockNo == 1 <==> !started) && w.zbits == []
      requires |block| <= 100000 * level && Marks(inUse, block) && Complete(block)
               && blockCRC == CrcAfter(sum, Expand(block)) && RunsCoded(block)
      modifies this`combinedCRC, this`sent, this`short, this`started, this`closed, w`zbits, w`bsBuff, w`bsLive,
          w`pending
      ensures Valid() && started && closed == isLast
      ensures short == Shorts(level, old(short), |block|)
      ensures |w.zbits| <= ZbitsRoom(level, |block|)
      ensures SentOne(old(sent), sent, block)
      ensures Data(sent) == old(Data(sent)) + Expand(block)
    {
      WriteBlock(block, inUse, blockCRC);
      Leave(isLast, |block|);
    }
  }
}
