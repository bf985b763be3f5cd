/** How long what the encoder writes can get: a block, the bytes that wait in zbits, a stream. */
module Sizes {
  import opened Basics
  import opened Bits
  import opened Huffman
  import opened BurrowsWheeler
  import opened MoveToFront
  import opened GenerateMtf
  import opened BlockFormat
  import opened SymbolFormat
  import opened Block
  import opened BlockSizes
  import opened RunLengths
  import opened Stream

  // ---------- a block ----------

  lemma SentLength(sum: Checksum, level: nat, sb: SentBlock)
    requires WellSent(sum, level, sb)
    ensures |sb.bits| <= BlockBound(|sb.block|) && |sb.block| <= 100000 * level
  {
    BlockLength(level, sb.h, sb.symbols, sb.out, LastColumn(sb.block, sb.ptr));
  }

  /** zbits lies behind the block in arr2, which has 100000 * level + 34 words. */
  function ZbitsRoom(level: nat, nblock: nat): int { 4 * (100000 * level + 34) - nblock }

  /** The bytes of a block, with what was pending, the stream's front and its trailer, fit there. */
  lemma ZbitsFit(level: nat, nblock: nat, bits: nat, bytes: nat)
    requires 1 <= level && nblock <= 100000 * level
    requires 8 * bytes <= bits + 32 + 32 + 80 + 7 && bits <= BlockBound(nblock)
    ensures bytes <= ZbitsRoom(level, nblock)
  {}

  // ---------- a stream ----------

  /** The bytes of all blocks together, in run-length form. */
  function Load(sent: seq<SentBlock>): nat {
    if sent == [] then 0 else Load(sent[..|sent| - 1]) + |sent[|sent| - 1].block|
  }

  /** nblockMAX: a block that has grown this long is sent. */
  function FullSize(level: nat): int { 100000 * level - 19 }

  /** All blocks sent but short ones have been full, and none takes more bits than the encoder makes. */
  ghost predicate Loaded(level: nat, sent: seq<SentBlock>, short: nat) {
    && 1 <= level && short <= |sent|
    && forall i: nat {:trigger Look(i)} :: Look(i) ==>
         && FullSize(level) * (|sent| - short) <= Load(sent)
         && 25 * |SentBits(sent)| <= 238 * Load(sent) + 1652050 * |sent|
  }

  /** How many blocks sent have been short, after one of n bytes; an empty one is not sent. */
  function Shorts(level: nat, short: nat, n: nat): nat {
    if 0 < n < FullSize(level) then short + 1 else short
  }

  lemma LoadedMore(level: nat, sent: seq<SentBlock>, short: nat, sb: SentBlock)
    requires Loaded(level, sent, short) && sb.block != [] && |sb.bits| <= ThriftyBound(|sb.block|)
    ensures Loaded(level, sent + [sb], Shorts(level, short, |sb.block|))
  {
    assert Look(0) && (sent + [sb])[..|sent|] == sent;
    OneFullMore(FullSize(level), |sent| - short);
  }

  /** Run-length coding takes at most five bytes for four. */
  lemma {:induction false} ExpandedLength(s: seq<Byte>)
    requires Complete(s)
    ensures 4 * |s| <= 5 * |Expand(s)|
    decreases |s|
  {
    if s != [] {
      var k := RunWidth(s);
      PeelRun(s, k);
      ExpandedLength(s[k..]);
      assert |Expand(s)| == |FirstRun(s)| + |Expand(s[k..])|;
    }
  }

  lemma {:induction false} LoadLength(sum: Checksum, level: nat, sent: seq<SentBlock>)
    requires AllWellSent(sum, level, sent)
    ensures 4 * Load(sent) <= 5 * |Data(sent)|
    decreases |sent|
  {
    if sent != [] {
      var m := |sent| - 1;
      assert SentAt(sum, level, sent, m);
      FewerWellSent(sum, level, sent, m);
      LoadLength(sum, level, sent[..m]);
      LastBlock(sent);
      ExpandedLength(sent[m].block);
    }
  }

  lemma FewerWellSent(sum: Checksum, level: nat, sent: seq<SentBlock>, m: nat)
    requires AllWellSent(sum, level, sent) && m <= |sent|
    ensures AllWellSent(sum, level, sent[..m])
  {
    forall i: nat | i < m ensures SentAt(sum, level, sent[..m], i) { assert SentAt(sum, level, sent, i); }
  }

  lemma TrailerLength(crc: nat)
    ensures |TrailerBits(crc)| == 80
  {
    MarkedLength(TRAILER_MAGIC, BitsOf(crc, 32));
  }

  /** Enough bytes for any stream of n bytes of data whose blocks, all but one, are full. */
  function StreamBound(n: nat): nat { 8 * n / 5 + 8300 }

  /** The same after some flushes, each of which may have cut one more block short. */
  function FlushedBound(n: nat, flushes: nat): nat { StreamBound(n) + 8261 * flushes }

  lemma StreamLength(sum: Checksum, level: nat, sent: seq<SentBlock>, short: nat, flushes: nat, n: nat)
    requires AllWellSent(sum, level, sent) && Loaded(level, sent, short) && short <= flushes + 1 && |Data(sent)| <= n
    ensures |StreamHead(level, sent)| + 80 + 7 <= 8 * FlushedBound(n, flushes)
  {
    MarkedLength(StreamMagic(level), SentBits(sent));
    LoadLength(sum, level, sent);
    LoadedBits(level, sent, short);
    StreamParts(|SentBits(sent)|, Load(sent), |sent|, short, flushes, n);
  }

  lemma LoadedBits(level: nat, sent: seq<SentBlock>, short: nat)
    requires Loaded(level, sent, short)
    ensures 25 * |SentBits(sent)| <= 238 * Load(sent) + 1652050 * |sent|
    ensures 1652050 * (|sent| - short) <= 17 * Load(sent)
  {
    assert Look(0);
    FewBlocks(FullSize(level), |sent| - short, Load(sent));
  }

  lemma StreamParts(bits: nat, load: nat, blocks: nat, short: nat, flushes: nat, n: nat)
    requires 25 * bits <= 238 * load + 1652050 * blocks && short <= flushes + 1
    requires 1652050 * (blocks - short) <= 17 * load && 4 * load <= 5 * n
    ensures 32 + bits + 80 + 7 <= 8 * FlushedBound(n, flushes)
  {}

  /** Full blocks cost little in front matter against what they hold. */
  lemma FewBlocks(full: int, k: int, load: nat)
    requires full >= 99981 && full * k <= load && 0 <= k
    ensures 1652050 * k <= 17 * load
  {
    TimesAtMost(k, 99981, full);
  }

  /** All blocks but the short ones are full of data. */
  lemma BlocksFill(sum: Checksum, level: nat, sent: seq<SentBlock>, short: nat, flushes: nat, n: nat)
    requires AllWellSent(sum, level, sent) && Loaded(level, sent, short) && short <= flushes + 1 && |Data(sent)| <= n
    ensures 4 * (FullSize(level) * (|sent| - flushes - 1)) <= 5 * n
  {
    LoadLength(sum, level, sent);
    assert FullSize(level) * (|sent| - short) <= Load(sent) by { assert Look(0); }
    LessFilled(FullSize(level), |sent| - flushes - 1, |sent| - short);
  }

  lemma LessFilled(full: nat, fewer: int, k: int)
    requires fewer <= k
    ensures full * fewer <= full * k
  {}

  lemma PaddedLength(bits: seq<bool>)
    ensures |bits| <= |Padded(bits)| <= |bits| + 7
  {
    PaddedIs(bits, (8 - |bits| % 8) % 8);
  }
}
