/** A whole compressed stream: header, blocks, trailer, and what it stands for. */
module Stream {
  import opened Basics
  import opened Bits
  import opened Rotations
  import opened BurrowsWheeler
  import opened Huffman
  import opened BlockFormat
  import opened Block
  import opened RunLengths

  /** A block as it was sent: the bytes sorted, their sorted order, the tables and symbols
      used, and its bits. */
  datatype SentBlock = SentBlock(block: seq<Byte>, ptr: seq<nat>, h: Header, symbols: seq<nat>, out: seq<nat>,
                                 bits: seq<bool>)

  /** Output has grown into the space that was offered. */
  ghost predicate HandedOut(out0: seq<Byte>, space0: nat, out1: seq<Byte>, space1: nat) {
    out0 <= out1 && |out1| + space1 == |out0| + space0
  }

  /** A block the encoder may send: correctly sorted, completely run-length coded, with the
      checksum of what it stands for. */
  ghost predicate WellSent(sum: Checksum, level: nat, sb: SentBlock) {
    && IsRotationOrder(sb.block, sb.ptr) && Complete(sb.block)
    && Carries(level, sb.h, sb.symbols, sb.out, LastColumn(sb.block, sb.ptr))
    && sb.ptr[sb.h.origPtr] == 0
    && sb.h.crc == FinalCrc(sum, Expand(sb.block))
    && sb.bits == BlockBits(level, sb.h, sb.symbols, sb.out, LastColumn(sb.block, sb.ptr))
  }

  ghost predicate AllWellSent(sum: Checksum, level: nat, sent: seq<SentBlock>) {
    forall i: nat {:trigger SentAt(sum, level, sent, i)} :: i < |sent| ==> SentAt(sum, level, sent, i)
  }

  ghost predicate SentAt(sum: Checksum, level: nat, sent: seq<SentBlock>, i: nat)
    requires i < |sent|
  {
    WellSent(sum, level, sent[i])
  }

  /** What run-length coded blocks stand for. */
  function DataOf(blocks: seq<seq<Byte>>): seq<Byte> {
    if blocks == [] then [] else DataOf(blocks[..|blocks| - 1]) + Expand(blocks[|blocks| - 1])
  }

  /** Their checksums combined. */
  function CombinedOf(sum: Checksum, blocks: seq<seq<Byte>>): Word
    decreases |blocks|, sum
  {
    if blocks == [] then 0 else sum.combine(CombinedOf(sum, blocks[..|blocks| - 1]),
        FinalCrc(sum, Expand(blocks[|blocks| - 1])))
  }

  lemma LastBlock(sent: seq<SentBlock>)
    requires sent != []
    ensures Data(sent) == Data(sent[..|sent| - 1]) + Expand(sent[|sent| - 1].block)
  {
    assert Blocks(sent)[..|sent| - 1] == Blocks(sent[..|sent| - 1]);
  }

  lemma OneBlockMore(sum: Checksum, blocks: seq<seq<Byte>>, block: seq<Byte>)
    ensures DataOf(blocks + [block]) == DataOf(blocks) + Expand(block)
    ensures CombinedOf(sum, blocks + [block]) == sum.combine(CombinedOf(sum, blocks), FinalCrc(sum, Expand(block)))
  {
    assert (blocks + [block])[..|blocks|] == blocks;
  }

  function Blocks(sent: seq<SentBlock>): (r: seq<seq<Byte>>)
    ensures |r| == |sent| && forall i :: 0 <= i < |r| ==> r[i] == sent[i].block
  {
    seq(|sent|, i requires 0 <= i < |sent| => sent[i].block)
  }

  function Data(sent: seq<SentBlock>): seq<Byte> { DataOf(Blocks(sent)) }

  function Combined(sum: Checksum, sent: seq<SentBlock>): Word { CombinedOf(sum, Blocks(sent)) }

  /** The bits of all blocks. */
  function SentBits(sent: seq<SentBlock>): seq<bool> {
    if sent == [] then [] else SentBits(sent[..|sent| - 1]) + sent[|sent| - 1].bits
  }

  function SentBitsFrom(sent: seq<SentBlock>, i: nat): seq<bool>
    requires i <= |sent|
    decreases |sent| - i
  {
    if i == |sent| then [] else sent[i].bits + SentBitsFrom(sent, i + 1)
  }

  lemma {:induction false} BitsSplit(sent: seq<SentBlock>, i: nat)
    requires i <= |sent|
    ensures SentBits(sent) == SentBits(sent[..i]) + SentBitsFrom(sent, i)
    decreases |sent| - i
  {
    if i == |sent| {
      assert sent[..i] == sent;
      assert SentBits(sent) + [] == SentBits(sent);
    } else {
      BitsSplit(sent, i + 1);
      var t := sent[..i + 1];
      assert t[..i] == sent[..i];
    }
  }

  /** "BZh" and the level's digit. */
  function StreamMagic(level: nat): seq<Byte> { [0x42, 0x5a, 0x68, (0x30 + level) % 256] }

  function StreamHead(level: nat, sent: seq<SentBlock>): seq<bool> {
    Marked(StreamMagic(level), SentBits(sent))
  }

  function StreamBits(sum: Checksum, level: nat, sent: seq<SentBlock>): seq<bool> {
    StreamHead(level, sent) + TrailerBits(Combined(sum, sent))
  }

  /** The bytes begin a stream for data: they lie within the bits of blocks that stand for a
      first part of it, or they are a whole stream. */
  ghost predicate Begins(sum: Checksum, bytes: seq<Byte>, level: nat, sent: seq<SentBlock>, data: seq<Byte>) {
    && AllWellSent(sum, level, sent) && Data(sent) <= data
    && (BytesBits(bytes) <= StreamHead(level, sent)
        || (Data(sent) == data && BytesBits(bytes) == Padded(StreamBits(sum, level, sent))))
  }

  /** Sending one more block. */
  lemma SendingOneMore(sum: Checksum, level: nat, sent: seq<SentBlock>, sb: SentBlock)
    requires 1 <= level <= 9 && AllWellSent(sum, level, sent) && WellSent(sum, level, sb)
    ensures AllWellSent(sum, level, sent + [sb])
    ensures StreamHead(level, sent + [sb]) == StreamHead(level, sent) + sb.bits
    ensures Data(sent + [sb]) == Data(sent) + Expand(sb.block)
    ensures Combined(sum, sent + [sb]) == sum.combine(Combined(sum, sent), FinalCrc(sum, Expand(sb.block)))
  {
    forall i: nat | i < |sent| + 1 ensures SentAt(sum, level, sent + [sb], i) {
      if i < |sent| { assert SentAt(sum, level, sent, i); }
    }
    assert (sent + [sb])[..|sent|] == sent;
    assert Blocks(sent + [sb]) == Blocks(sent) + [sb.block];
    OneBlockMore(sum, Blocks(sent), sb.block);
    MarkedThen(StreamMagic(level), SentBits(sent), sb.bits);
  }

  lemma JoinThree<T>(a: seq<T>, b: seq<T>, c: seq<T>)
    ensures a + (b + c) == a + b + c
  {}

  /** A sent block is recovered: its bits parse, whatever follows, to its header and its last
      column, and walking the thread from origPtr gives the block back. */
  lemma SentIsRecovered(sum: Checksum, level: nat, sb: SentBlock, tables: seq<Tables>, rest: seq<bool>)
    requires WellSent(sum, level, sb) && TablesForAll(tables, sb.h.lens)
    ensures var column := LastColumn(sb.block, sb.ptr);
      var p := ParseSection(level, sb.bits + rest);
      && p.Done? && p.value == BlockHeader(sb.h)
      && ParseBody(level, sb.h, tables, p.rest) == Done(column, rest)
      && sb.h.origPtr < |column| && Unsort(column, sb.h.origPtr) == sb.block
  {
    var column := LastColumn(sb.block, sb.ptr);
    BlockRoundTrip(level, sb.h, sb.symbols, sb.out, column, tables, rest);
    CmpRefl(sb.block, 0, |sb.block|);
    UnsortLastColumn(sb.block, sb.ptr, sb.h.origPtr);
  }
}
