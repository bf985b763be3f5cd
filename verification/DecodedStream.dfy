/** What a decoder that reads sections one after the other makes of a string of bits, whatever
    they are; and that on the bits of a stream sent it makes of them the blocks sent. */
module DecodedStream {
  import opened Basics
  import opened Bits
  import opened BurrowsWheeler
  import opened Huffman
  import opened BlockFormat
  import opened Block
  import opened RunLengths
  import opened Stream
  import Unrle

  // ---------- the stream header ----------

  const STREAM_MAGIC: seq<Byte> := [0x42, 0x5a, 0x68]

  /** The stream header: its first three bytes, then the level's digit. */
  function ParseMagic(bits: seq<bool>): Parse<nat> { MagicAhead(STREAM_MAGIC, bits) }

  /** The same with some of those bytes still to come. */
  function MagicAhead(left: seq<Byte>, bits: seq<bool>): (r: Parse<nat>)
    ensures r.Done? ==> 1 <= r.value <= 9
  {
    var (_, rest) :- Expect(left, bits);
    ParseLevel(rest)
  }

  function ParseLevel(bits: seq<bool>): (r: Parse<nat>)
    ensures r.Done? ==> 1 <= r.value <= 9
  {
    var (digit, rest) :- GetBits(bits, 8);
    if digit < 0x31 || digit > 0x39 then Corrupt else Done(digit - 0x30, rest)
  }

  lemma MagicIsRead(level: nat, rest: seq<bool>)
    requires 1 <= level <= 9
    ensures ParseMagic(Marked(StreamMagic(level), rest)) == Done(level, rest)
  {
    assert STREAM_MAGIC + [0x30 + level] == StreamMagic(level);
    MagicThen(STREAM_MAGIC, 0x30 + level, StreamMagic(level), rest);
    LevelIsRead(level, rest);
  }

  lemma LevelIsRead(level: nat, rest: seq<bool>)
    requires 1 <= level <= 9
    ensures ParseLevel(BitsOf(0x30 + level, 8) + rest) == Done(level, rest)
  {
    assert Pow2(8) == 256;
    GetWritten(0x30 + level, 8, rest);
  }

  lemma MagicThen(magic: seq<Byte>, digit: Byte, whole: seq<Byte>, rest: seq<bool>)
    requires whole == magic + [digit]
    ensures Expect(magic, Marked(whole, rest)) == Done((), BitsOf(digit, 8) + rest)
  {
    MarkedIs(whole, rest);
    MarkedIs(magic, BitsOf(digit, 8) + rest);
    BytesBitsConcat(magic, [digit]);
    ByteBits(digit);
    ConcatAssoc(BytesBits(magic), BitsOf(digit, 8), rest);
    ExpectWritten(magic, BitsOf(digit, 8) + rest);
  }

  // ---------- what has been read ----------

  /** A block as it was read: with which tables, the bytes it is, and the bits after it. */
  datatype Seen = Seen(tables: seq<Tables>, block: seq<Byte>, rest: seq<bool>)

  /** The body read is that of this block. */
  ghost predicate BlockRead(p: Parse<seq<Byte>>, h: Header, block: seq<Byte>, bits: seq<bool>) {
    p.Done? && p.rest == bits && h.origPtr < |p.value| && block == Unsort(p.value, h.origPtr)
  }

  /** The next section is a block with a body that fits its header. */
  ghost predicate HasBody(next: Parse<Section>, tables: seq<Tables>) {
    next.Done? && next.value.BlockHeader? && HeaderOk(next.value.header) && TablesForAll(tables, next.value.header.lens)
  }

  ghost function Body(level: nat, next: Parse<Section>, tables: seq<Tables>): Parse<seq<Byte>>
    requires HasBody(next, tables)
  {
    ParseBody(level, next.value.header, tables, next.rest)
  }

  /** The next section is the block s. */
  ghost predicate BlockFollows(level: nat, next: Parse<Section>, s: Seen) {
    && HasBody(next, s.tables) && !next.value.header.randomised
    && BlockRead(Body(level, next, s.tables), next.value.header, s.block, s.rest)
  }

  /** The block is whole runs and has the checksum that its header says. */
  ghost predicate Checked(sum: Checksum, next: Parse<Section>, block: seq<Byte>) {
    next.Done? && next.value.BlockHeader? && Complete(block) && next.value.header.crc == FinalCrc(sum, Expand(block))
  }

  /** The bits after all blocks seen. */
  function After(start: seq<bool>, seen: seq<Seen>): seq<bool> {
    if seen == [] then start else seen[|seen| - 1].rest
  }

  ghost predicate SeenAt(sum: Checksum, level: nat, start: seq<bool>, seen: seq<Seen>, i: nat)
    requires i < |seen|
  {
    var next := ParseSection(level, After(start, seen[..i]));
    BlockFollows(level, next, seen[i]) && Checked(sum, next, seen[i].block)
  }

  /** The bits start with these blocks, each with its right checksum. */
  ghost predicate AllSeen(sum: Checksum, level: nat, start: seq<bool>, seen: seq<Seen>) {
    forall i: nat {:trigger SeenAt(sum, level, start, seen, i)} :: i < |seen| ==> SeenAt(sum, level, start, seen, i)
  }

  lemma OneMoreSeen(sum: Checksum, level: nat, start: seq<bool>, seen: seq<Seen>, s: Seen)
    requires AllSeen(sum, level, start, seen)
    requires var next := ParseSection(level, After(start, seen));
      BlockFollows(level, next, s) && Checked(sum, next, s.block)
    ensures AllSeen(sum, level, start, seen + [s]) && After(start, seen + [s]) == s.rest
    ensures SeenBlocks(seen + [s]) == SeenBlocks(seen) + [s.block]
  {
    forall i: nat | i <= |seen| ensures SeenAt(sum, level, start, seen + [s], i) {
      assert (seen + [s])[..i] == seen[..i];
      if i < |seen| { assert SeenAt(sum, level, start, seen, i); } else { assert seen[..i] == seen; }
    }
  }

  function SeenBlocks(seen: seq<Seen>): (r: seq<seq<Byte>>)
    ensures |r| == |seen| && forall i :: 0 <= i < |r| ==> r[i] == seen[i].block
  {
    seq(|seen|, i requires 0 <= i < |seen| => seen[i].block)
  }

  /** The next section is the end of the stream, with the blocks' checksums combined. */
  ghost predicate EndFollows(next: Parse<Section>, combined: nat) {
    next.Done? && next.value == Trailer(combined)
  }

  /** The next section is no section, or a wrong end of the stream, or a block without a proper body. */
  ghost predicate WrongSection(level: nat, next: Parse<Section>, combined: nat, tables: seq<Tables>) {
    || next.Corrupt?
    || (next.Done? && next.value.Trailer? && next.value.combinedCRC != combined)
    || (HasBody(next, tables) && (Body(level, next, tables).Corrupt?
                                  || (next.value.header.randomised && !Body(level, next, tables).Short?)))
  }

  /** The next section is a block that is not whole runs or has another checksum. */
  ghost predicate WrongBlock(sum: Checksum, level: nat, next: Parse<Section>, last: Seen) {
    BlockFollows(level, next, last) && !Checked(sum, next, last.block)
  }

  /** The output space that the block takes before the decoder knows what it is. */
  ghost function Need(level: nat, next: Parse<Section>, s: Seen, small: bool): nat
    requires BlockFollows(level, next, s)
  {
    Unrle.Needs(s.block, Unrle.Spurious(Body(level, next, s.tables).value, next.value.header.origPtr), small)
  }

  /** The next section is wrong, and with done bytes put out there is space enough to find out. */
  ghost predicate WrongFollows(sum: Checksum, level: nat, next: Parse<Section>, combined: nat, last: Seen, small: bool,
                               done: nat, room: nat) {
    && done <= room
    && (WrongSection(level, next, combined, last.tables)
        || (WrongBlock(sum, level, next, last) && done + Need(level, next, last, small) <= room))
  }

  /** The next section makes the source write past its selector tables. */
  ghost predicate OverrunFollows(next: Parse<Section>) {
    next.Done? && next.value.SelectorOverrun?
  }

  /** The bits end within the next section. */
  ghost predicate BitsEnd(level: nat, next: Parse<Section>, tables: seq<Tables>) {
    next.Short? || (HasBody(next, tables) && Body(level, next, tables).Short?)
  }

  /** The bits are a whole stream of these blocks, up to what may follow it. */
  ghost predicate IsStream(sum: Checksum, bits: seq<bool>, level: nat, start: seq<bool>, seen: seq<Seen>) {
    && ParseMagic(bits) == Done(level, start) && AllSeen(sum, level, start, seen)
    && EndFollows(ParseSection(level, After(start, seen)), CombinedOf(sum, SeenBlocks(seen)))
  }

  // ---------- a stream of blocks sent ----------

  /** The blocks from number at on, the trailer and whatever follows. */
  function Remaining(sum: Checksum, sent: seq<SentBlock>, at: nat, rest: seq<bool>): seq<bool>
    requires at <= |sent|
  {
    SentBitsFrom(sent, at) + TrailerBits(Combined(sum, sent)) + rest
  }

  lemma StreamStarts(sum: Checksum, level: nat, sent: seq<SentBlock>, rest: seq<bool>)
    requires 1 <= level <= 9
    ensures ParseMagic(StreamBits(sum, level, sent) + rest) == Done(level, Remaining(sum, sent, 0, rest))
  {
    BitsSplit(sent, 0);
    assert sent[..0] == [] && [] + SentBitsFrom(sent, 0) == SentBitsFrom(sent, 0);
    var t := TrailerBits(Combined(sum, sent));
    MarkedThen(StreamMagic(level), SentBits(sent), t);
    MarkedThen(StreamMagic(level), SentBits(sent) + t, rest);
    MagicIsRead(level, Remaining(sum, sent, 0, rest));
  }

  /** The next section of a stream is the next block: its header, and bits that are its body. */
  lemma BlockIsNext(sum: Checksum, level: nat, sent: seq<SentBlock>, at: nat, rest: seq<bool>)
    requires AllWellSent(sum, level, sent) && at < |sent|
    ensures var p := ParseSection(level, Remaining(sum, sent, at, rest));
      && HeaderFits(sum, sent[at]) && p.Done? && p.value == BlockHeader(sent[at].h)
      && BodyAhead(level, sent[at], p.rest, Remaining(sum, sent, at + 1, rest))
  {
    assert SentAt(sum, level, sent, at);
    var next := Remaining(sum, sent, at + 1, rest);
    Rejoin(sent[at].bits, SentBitsFrom(sent, at + 1), TrailerBits(Combined(sum, sent)), rest);
    BlockIsAhead(sum, level, sent[at], next);
  }

  lemma Rejoin<T>(a: seq<T>, b: seq<T>, c: seq<T>, rest: seq<T>)
    ensures a + b + c + rest == a + (b + c + rest)
  {}

  lemma BlockIsAhead(sum: Checksum, level: nat, sb: SentBlock, next: seq<bool>)
    requires WellSent(sum, level, sb)
    ensures var p := ParseSection(level, sb.bits + next);
      HeaderFits(sum, sb) && p.Done? && p.value == BlockHeader(sb.h) && BodyAhead(level, sb, p.rest, next)
  {
    var p := ParseSection(level, sb.bits + next);
    HeaderIsNext(sum, level, sb, next);
    forall tables | TablesForAll(tables, sb.h.lens) ensures BodyIs(level, sb, tables, p.rest, next) {
      SentIsRecovered(sum, level, sb, tables, next);
    }
  }

  ghost predicate HeaderFits(sum: Checksum, sb: SentBlock) {
    HeaderOk(sb.h) && !sb.h.randomised && sb.h.crc == FinalCrc(sum, Expand(sb.block))
  }

  /** Whatever tables are built, the bits are the block's body. */
  ghost predicate BodyAhead(level: nat, sb: SentBlock, bits: seq<bool>, rest: seq<bool>)
    requires HeaderOk(sb.h)
  {
    forall tables {:trigger BodyIs(level, sb, tables, bits, rest)} ::
      TablesForAll(tables, sb.h.lens) ==> BodyIs(level, sb, tables, bits, rest)
  }

  lemma HeaderIsNext(sum: Checksum, level: nat, sb: SentBlock, rest: seq<bool>)
    requires WellSent(sum, level, sb)
    ensures HeaderFits(sum, sb)
    ensures ParseSection(level, sb.bits + rest).Done? && ParseSection(level, sb.bits + rest).value == BlockHeader(sb.h)
  {
    BlockStarts(level, sb.h, sb.symbols, sb.out, LastColumn(sb.block, sb.ptr), rest);
  }

  /** A block's body is read as a column that sorts back to the block. */
  ghost predicate BodyIs(level: nat, sb: SentBlock, tables: seq<Tables>, bits: seq<bool>, rest: seq<bool>)
    requires HeaderOk(sb.h) && TablesForAll(tables, sb.h.lens)
  {
    var p := ParseBody(level, sb.h, tables, bits);
    p.Done? && p.rest == rest && sb.h.origPtr < |p.value| && Unsort(p.value, sb.h.origPtr) == sb.block
  }

  lemma TrailerIsNext(sum: Checksum, level: nat, sent: seq<SentBlock>, rest: seq<bool>)
    ensures ParseSection(level, Remaining(sum, sent, |sent|, rest)) == Done(Trailer(Combined(sum, sent)), rest)
  {
    var crc := Combined(sum, sent);
    LastRemaining(sum, sent, TrailerBits(crc), rest);
    TrailerRoundTrip(level, crc, rest);
  }

  lemma LastRemaining(sum: Checksum, sent: seq<SentBlock>, t: seq<bool>, rest: seq<bool>)
    requires t == TrailerBits(Combined(sum, sent))
    ensures Remaining(sum, sent, |sent|, rest) == t + rest
  {
    assert [] + t == t;
  }

  /** The blocks seen on a stream are the first of those sent. */
  lemma {:induction false} SeenAreSent(sum: Checksum, level: nat, sent: seq<SentBlock>, rest: seq<bool>,
                                       start: seq<bool>, seen: seq<Seen>)
    requires AllWellSent(sum, level, sent) && AllSeen(sum, level, start, seen)
    requires start == Remaining(sum, sent, 0, rest)
    ensures |seen| <= |sent| && SeenBlocks(seen) == Blocks(sent)[..|seen|]
    ensures After(start, seen) == Remaining(sum, sent, |seen|, rest)
    decreases |seen|
  {
    if seen != [] {
      var m := |seen| - 1;
      FewerSeen(sum, level, start, seen, m);
      SeenAreSent(sum, level, sent, rest, start, seen[..m]);
      assert SeenAt(sum, level, start, seen, m);
      LastIsSent(sum, level, sent, rest, start, seen, m);
    }
  }

  lemma LastIsSent(sum: Checksum, level: nat, sent: seq<SentBlock>, rest: seq<bool>, start: seq<bool>, seen: seq<Seen>,
                   m: nat)
    requires AllWellSent(sum, level, sent) && |seen| == m + 1 && m <= |sent| && SeenAt(sum, level, start, seen, m)
    requires SeenBlocks(seen[..m]) == Blocks(sent)[..m] && After(start, seen[..m]) == Remaining(sum, sent, m, rest)
    ensures |seen| <= |sent| && SeenBlocks(seen) == Blocks(sent)[..|seen|]
    ensures After(start, seen) == Remaining(sum, sent, |seen|, rest)
  {
    OnlySentFollows(sum, level, sent, m, rest, seen[m]);
    LongerPrefix(SeenBlocks(seen), SeenBlocks(seen[..m]), Blocks(sent), m);
  }

  lemma LongerPrefix<T>(s: seq<T>, t: seq<T>, all: seq<T>, m: nat)
    requires |s| == m + 1 && m < |all| && s[..m] == t && t == all[..m] && s[m] == all[m]
    ensures s == all[..m + 1]
  {}

  lemma FewerSeen(sum: Checksum, level: nat, start: seq<bool>, seen: seq<Seen>, m: nat)
    requires AllSeen(sum, level, start, seen) && m <= |seen|
    ensures AllSeen(sum, level, start, seen[..m])
  {
    forall i: nat | i < m ensures SeenAt(sum, level, start, seen[..m], i) {
      assert SeenAt(sum, level, start, seen, i) && seen[..m][..i] == seen[..i];
    }
  }

  /** What follows on a stream is a block only if one is still to come, and then it is that one. */
  lemma OnlySentFollows(sum: Checksum, level: nat, sent: seq<SentBlock>, at: nat, rest: seq<bool>, s: Seen)
    requires AllWellSent(sum, level, sent) && at <= |sent|
    requires BlockFollows(level, ParseSection(level, Remaining(sum, sent, at, rest)), s)
    ensures at < |sent| && s.block == sent[at].block && s.rest == Remaining(sum, sent, at + 1, rest)
    ensures Checked(sum, ParseSection(level, Remaining(sum, sent, at, rest)), s.block)
  {
    var next := ParseSection(level, Remaining(sum, sent, at, rest));
    if at < |sent| {
      BlockIsNext(sum, level, sent, at, rest);
      SentIsComplete(sum, level, sent, at);
      assert BodyIs(level, sent[at], s.tables, next.rest, Remaining(sum, sent, at + 1, rest));
    } else {
      TrailerIsNext(sum, level, sent, rest);
    }
  }

  lemma SentIsComplete(sum: Checksum, level: nat, sent: seq<SentBlock>, at: nat)
    requires AllWellSent(sum, level, sent) && at < |sent|
    ensures Complete(sent[at].block)
  {
    assert SentAt(sum, level, sent, at);
  }

  /** Nothing goes wrong on a stream: what follows is the next block, or after the last the end. */
  lemma NothingWrong(sum: Checksum, level: nat, sent: seq<SentBlock>, at: nat, rest: seq<bool>, last: Seen)
    requires AllWellSent(sum, level, sent) && at <= |sent|
    ensures var next := ParseSection(level, Remaining(sum, sent, at, rest));
      && !WrongSection(level, next, CombinedOf(sum, Blocks(sent)[..at]), last.tables)
      && !WrongBlock(sum, level, next, last)
      && !OverrunFollows(next) && !BitsEnd(level, next, last.tables)
      && (forall combined: nat :: EndFollows(next, combined) ==> at == |sent|)
  {
    var next := ParseSection(level, Remaining(sum, sent, at, rest));
    if at < |sent| {
      BlockIsNext(sum, level, sent, at, rest);
      if HasBody(next, last.tables) {
        assert BodyIs(level, sent[at], last.tables, next.rest, Remaining(sum, sent, at + 1, rest));
        if BlockFollows(level, next, last) { OnlySentFollows(sum, level, sent, at, rest, last); }
      }
    } else {
      TrailerIsNext(sum, level, sent, rest);
      assert Blocks(sent)[..at] == Blocks(sent);
    }
  }

  /** What the first blocks stand for begins what all of them do. */
  lemma {:induction false} DataGrows(blocks: seq<seq<Byte>>, i: nat)
    requires i <= |blocks|
    ensures DataOf(blocks[..i]) <= DataOf(blocks)
    decreases |blocks|
  {
    if i < |blocks| {
      assert blocks[..|blocks| - 1][..i] == blocks[..i];
      DataGrows(blocks[..|blocks| - 1], i);
    } else {
      assert blocks[..i] == blocks;
    }
  }

  /** What the blocks seen on a stream stand for is a beginning of the data sent; at its end, all of it. */
  lemma SeenData(sum: Checksum, level: nat, sent: seq<SentBlock>, rest: seq<bool>, start: seq<bool>, seen: seq<Seen>)
    requires AllWellSent(sum, level, sent) && AllSeen(sum, level, start, seen)
    requires start == Remaining(sum, sent, 0, rest)
    ensures DataOf(SeenBlocks(seen)) <= Data(sent)
    ensures forall combined: nat :: EndFollows(ParseSection(level, After(start, seen)), combined) ==>
            DataOf(SeenBlocks(seen)) == Data(sent)
  {
    SeenAreSent(sum, level, sent, rest, start, seen);
    DataGrows(Blocks(sent), |seen|);
    NothingWrong(sum, level, sent, |seen|, rest, Seen([], [], []));
    if |seen| == |sent| { assert Blocks(sent)[..|seen|] == Blocks(sent); }
  }

  /** With part of the next block it is still a beginning. */
  lemma SeenPart(sum: Checksum, level: nat, sent: seq<SentBlock>, rest: seq<bool>, start: seq<bool>, seen: seq<Seen>,
                 last: Seen, out: seq<Byte>)
    requires AllWellSent(sum, level, sent) && AllSeen(sum, level, start, seen)
    requires start == Remaining(sum, sent, 0, rest)
    requires BlockFollows(level, ParseSection(level, After(start, seen)), last)
    ensures Complete(last.block) && DataOf(SeenBlocks(seen)) + Expand(last.block) <= Data(sent)
    ensures out <= Expand(last.block) ==> DataOf(SeenBlocks(seen)) + out <= Data(sent)
  {
    SeenAreSent(sum, level, sent, rest, start, seen);
    OnlySentFollows(sum, level, sent, |seen|, rest, last);
    PartOfData(Blocks(sent), |seen|, Expand(last.block));
    if out <= Expand(last.block) { PartOfData(Blocks(sent), |seen|, out); }
  }

  lemma PartOfData(blocks: seq<seq<Byte>>, n: nat, out: seq<Byte>)
    requires n < |blocks| && out <= Expand(blocks[n])
    ensures DataOf(blocks[..n]) + out <= DataOf(blocks)
  {
    assert blocks[..n + 1][..n] == blocks[..n];
    DataGrows(blocks, n + 1);
    PrefixOnward(DataOf(blocks[..n]), out, Expand(blocks[n]));
  }

  lemma PrefixOnward<T>(a: seq<T>, s: seq<T>, t: seq<T>)
    requires s <= t
    ensures a + s <= a + t
  {}
}
