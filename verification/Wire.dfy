/** The bytes that a stream starts with, written out. */
module Wire {
  import opened Basics
  import opened Bits
  import opened Block
  import opened RunLengths
  import opened Stream
  import opened DecodedStream
  import opened Answers
  import Sizes
  import Unrle

  // ---------- what is written ----------

  lemma SameSplit<T>(a: seq<T>, b: seq<T>, c: seq<T>, d: seq<T>)
    requires a + b == c + d && |a| == |c|
    ensures a == c && b == d
  {
    assert a == (a + b)[..|a|] && c == (c + d)[..|c|];
    assert b == (a + b)[|a|..] && d == (c + d)[|c|..];
  }

  lemma LongEnough(bytes: seq<Byte>, first: seq<Byte>, more: seq<bool>)
    requires BytesBits(bytes) == BytesBits(first) + more
    ensures |first| <= |bytes|
  {
    BytesBitsLength(bytes);
    BytesBitsLength(first);
  }

  lemma Halved(bytes: seq<Byte>, n: nat) returns (head: seq<Byte>, tail: seq<Byte>)
    requires n <= |bytes|
    ensures head == bytes[..n] && tail == bytes[n..] && |head| == n && bytes == head + tail
  {
    head, tail := bytes[..n], bytes[n..];
  }

  /** Bytes whose bits begin with those of others begin with those bytes. */
  lemma BytesAhead(bytes: seq<Byte>, first: seq<Byte>, more: seq<bool>)
    requires BytesBits(bytes) == BytesBits(first) + more
    ensures |first| <= |bytes| && bytes[..|first|] == first && BytesBits(bytes[|first|..]) == more
  {
    LongEnough(bytes, first, more);
    var head, tail := Halved(bytes, |first|);
    SplitAhead(bytes, head, tail, first, more);
  }

  lemma SplitAhead(bytes: seq<Byte>, head: seq<Byte>, tail: seq<Byte>, first: seq<Byte>, more: seq<bool>)
    requires BytesBits(bytes) == BytesBits(first) + more && |head| == |first| && bytes == head + tail
    ensures head == first && BytesBits(tail) == more
  {
    BytesBitsLength(first);
    BytesBitsLength(head);
    BytesBitsConcat(head, tail);
    SameSplit(BytesBits(head), BytesBits(tail), BytesBits(first), more);
    BytesBitsInjective(head, first);
  }

  lemma BytesAfterMarked(bytes: seq<Byte>, magic: seq<Byte>, more: seq<bool>)
    requires BytesBits(bytes) == Marked(magic, more)
    ensures |magic| <= |bytes| && bytes[..|magic|] == magic && BytesBits(bytes[|magic|..]) == more
  {
    MarkedIs(magic, more);
    BytesAhead(bytes, magic, more);
  }

  lemma PaddedThen(bits: seq<bool>) returns (pad: seq<bool>)
    ensures Padded(bits) == bits + pad && |pad| < 8
  {
    var k := (8 - |bits| % 8) % 8;
    pad := BitsOf(0, k);
    PaddedIs(bits, k);
  }

  /** The stream header, and what remains after it. */
  lemma HeadBytes(sum: Checksum, level: nat, sent: seq<SentBlock>, bytes: seq<Byte>) returns (pad: seq<bool>)
    requires 1 <= level <= 9 && BytesBits(bytes) == Padded(StreamBits(sum, level, sent))
    ensures |bytes| >= 4 && bytes[..4] == StreamMagic(level) && |pad| < 8
    ensures BytesBits(bytes[4..]) == SentBits(sent) + TrailerBits(Combined(sum, sent)) + pad
  {
    pad := PaddedThen(StreamBits(sum, level, sent));
    HeadThen(bytes, StreamMagic(level), SentBits(sent), TrailerBits(Combined(sum, sent)), pad);
  }

  lemma HeadThen(bytes: seq<Byte>, magic: seq<Byte>, blocks: seq<bool>, t: seq<bool>, pad: seq<bool>)
    requires BytesBits(bytes) == Marked(magic, blocks) + t + pad
    ensures |magic| <= |bytes| && bytes[..|magic|] == magic && BytesBits(bytes[|magic|..]) == blocks + t + pad
  {
    MarkedThen(magic, blocks, t);
    MarkedThen(magic, blocks + t, pad);
    BytesAfterMarked(bytes, magic, blocks + t + pad);
  }

  /** A block of a stream is not empty, and its bits begin with the digits of pi. */
  lemma SentStarts(sum: Checksum, level: nat, sb: SentBlock) returns (more: seq<bool>)
    requires WellSent(sum, level, sb)
    ensures sb.bits == BytesBits([0x31, 0x41, 0x59, 0x26, 0x53, 0x59]) + more && Expand(sb.block) != []
  {
    var h := sb.h;
    var a, b, c, d := BitsOf(h.crc, 32), BitsOf(0, 1), BitsOf(h.origPtr, 24), CodingBits(h);
    var symbols := sb.bits[|HeaderBits(h)|..];
    more := a + b + c + d + symbols;
    CarriedIsCodable(level, h, sb.symbols, sb.out, BurrowsWheeler.LastColumn(sb.block, sb.ptr));
    assert sb.bits == HeaderBits(h) + symbols;
    MarkedIs(BLOCK_MAGIC, a);
    Regrouped(BytesBits(BLOCK_MAGIC), a, b, c, d, symbols);
    Unrle.NotEmpty(sb.block);
  }

  lemma Regrouped<T>(m: seq<T>, a: seq<T>, b: seq<T>, c: seq<T>, d: seq<T>, e: seq<T>)
    ensures m + a + b + c + d + e == m + (a + b + c + d + e)
  {}

  /** A stream with data has a block after its header, and one without ends there. */
  lemma StreamBytes(sum: Checksum, level: nat, sent: seq<SentBlock>, bytes: seq<Byte>)
    requires 1 <= level <= 9 && AllWellSent(sum, level, sent)
    requires BytesBits(bytes) == Padded(StreamBits(sum, level, sent))
    ensures |bytes| >= 14 && bytes[..4] == [0x42, 0x5a, 0x68, 0x30 + level]
    ensures Data(sent) != [] ==> bytes[4..10] == [0x31, 0x41, 0x59, 0x26, 0x53, 0x59]
    ensures Data(sent) == [] ==> bytes[4..] == [0x17, 0x72, 0x45, 0x38, 0x50, 0x90, 0, 0, 0, 0]
  {
    var pad := HeadBytes(sum, level, sent, bytes);
    var tail := bytes[4..];
    AfterHead(sum, level, sent, tail, pad);
    FirstFour(level, bytes);
    NextSix(bytes, tail);
  }

  lemma FirstFour(level: nat, bytes: seq<Byte>)
    requires 1 <= level <= 9 && |bytes| >= 4 && bytes[..4] == StreamMagic(level)
    ensures bytes[..4] == [0x42, 0x5a, 0x68, 0x30 + level]
  {}

  lemma NextSix(bytes: seq<Byte>, tail: seq<Byte>)
    requires |bytes| >= 4 && tail == bytes[4..] && |tail| >= 10
    ensures |bytes| >= 14 && tail[..6] == bytes[4..10]
  {}

  lemma AfterHead(sum: Checksum, level: nat, sent: seq<SentBlock>, bytes: seq<Byte>, pad: seq<bool>)
    requires AllWellSent(sum, level, sent) && |pad| < 8
    requires BytesBits(bytes) == SentBits(sent) + TrailerBits(Combined(sum, sent)) + pad
    ensures |bytes| >= 10
    ensures Data(sent) != [] ==> bytes[..6] == [0x31, 0x41, 0x59, 0x26, 0x53, 0x59]
    ensures Data(sent) == [] ==> bytes == [0x17, 0x72, 0x45, 0x38, 0x50, 0x90, 0, 0, 0, 0]
  {
    var t := TrailerBits(Combined(sum, sent));
    Sizes.TrailerLength(Combined(sum, sent));
    BytesBitsLength(bytes);
    if sent == [] {
      assert SentBits(sent) + t == t;
      EmptyBytes(bytes, pad);
    } else {
      FirstBlockBytes(sum, level, sent, bytes, t, pad);
    }
  }

  lemma FirstBlockBytes(sum: Checksum, level: nat, sent: seq<SentBlock>, bytes: seq<Byte>, t: seq<bool>, pad: seq<bool>)
    requires AllWellSent(sum, level, sent) && sent != [] && BytesBits(bytes) == SentBits(sent) + t + pad
    ensures |bytes| >= 6 && bytes[..6] == [0x31, 0x41, 0x59, 0x26, 0x53, 0x59] && Data(sent) != []
  {
    assert SentAt(sum, level, sent, 0);
    var more := SentStarts(sum, level, sent[0]);
    var pi: seq<Byte> := [0x31, 0x41, 0x59, 0x26, 0x53, 0x59];
    BitsSplit(sent, 0);
    assert SentBits(sent[..0]) + SentBitsFrom(sent, 0) == SentBitsFrom(sent, 0);
    FirstSent(sent, t, pad, BytesBits(pi), more);
    BytesAhead(bytes, pi, more + SentBitsFrom(sent, 1) + t + pad);
    SomeData(sent);
  }

  lemma FirstSent(sent: seq<SentBlock>, t: seq<bool>, pad: seq<bool>, m: seq<bool>, more: seq<bool>)
    requires sent != [] && sent[0].bits == m + more
    ensures SentBitsFrom(sent, 0) + t + pad == m + (more + SentBitsFrom(sent, 1) + t + pad)
  {}

  lemma SomeData(sent: seq<SentBlock>)
    requires sent != [] && Expand(sent[0].block) != []
    ensures Data(sent) != []
  {
    var blocks := Blocks(sent);
    var first := blocks[..1];
    assert first == [blocks[0]] && first[..0] == blocks[..0];
    assert DataOf(first) == DataOf(blocks[..0]) + Expand(blocks[0]);
    DataGrows(blocks, 1);
  }

  lemma EmptyBytes(bytes: seq<Byte>, pad: seq<bool>)
    requires BytesBits(bytes) == TrailerBits(0) + pad && |pad| < 8
    ensures bytes == [0x17, 0x72, 0x45, 0x38, 0x50, 0x90, 0, 0, 0, 0]
  {
    Sizes.TrailerLength(0);
    BytesBitsLength(bytes);
    EmptyTrailer();
    OnlyThese(bytes, TRAILER_MAGIC + NoBytes(4), pad);
  }

  lemma OnlyThese(bytes: seq<Byte>, all: seq<Byte>, pad: seq<bool>)
    requires BytesBits(bytes) == BytesBits(all) + pad && |bytes| == |all|
    ensures bytes == all
  {
    BytesAhead(bytes, all, pad);
    assert bytes[..|all|] == bytes;
  }

  lemma EmptyTrailer()
    ensures TrailerBits(0) == BytesBits(TRAILER_MAGIC + NoBytes(4))
  {
    MarkedIs(TRAILER_MAGIC, BitsOf(0, 32));
    ZeroBytes(4);
    BytesBitsConcat(TRAILER_MAGIC, NoBytes(4));
  }

  function NoBytes(n: nat): seq<Byte> { seq(n, _ => 0) }

  lemma {:induction false} ZeroBytes(n: nat)
    ensures BytesBits(NoBytes(n)) == BitsOf(0, 8 * n)
  {
    if n > 0 {
      ZeroBytes(n - 1);
      assert NoBytes(n)[..n - 1] == NoBytes(n - 1);
      SplitBits(0, 8 * (n - 1), 8);
      ShrZero(8);
    }
  }

  lemma {:induction false} ShrZero(k: nat)
    ensures Shr(0, k) == 0
  {
    if k > 0 { ShrZero(k - 1); }
  }

  // ---------- what is read ----------

  /** As far as the bytes go they are "BZh" and a digit from 1 to 9. */
  predicate StartFits(s: seq<Byte>) {
    var n := if |s| < 3 then |s| else 3;
    s[..n] == [0x42, 0x5a, 0x68][..n] && (|s| > 3 ==> 0x31 <= s[3] <= 0x39)
  }

  /** As far as they go they are the first digits of pi, or of its square root. */
  predicate SectionFits(s: seq<Byte>) {
    var n := if |s| < 6 then |s| else 6;
    s[..n] == [0x31, 0x41, 0x59, 0x26, 0x53, 0x59][..n] || s[..n] == [0x17, 0x72, 0x45, 0x38, 0x50, 0x90][..n]
  }

  lemma FirstByte(s: seq<Byte>)
    requires s != []
    ensures GetBits(BytesBits(s), 8) == Done(s[0], BytesBits(s[1..]))
  {
    assert s == [s[0]] + s[1..];
    BytesBitsConcat([s[0]], s[1..]);
    ByteBits(s[0]);
    assert Pow2(8) == 256;
    GetWritten(s[0], 8, BytesBits(s[1..]));
  }

  /** Given bytes are expected: the first that differs is an error. */
  lemma {:induction false} BytesExpected(magic: seq<Byte>, s: seq<Byte>, n: nat)
    requires n == if |s| < |magic| then |s| else |magic|
    ensures Expect(magic, BytesBits(s)) == if s[..n] != magic[..n] then Corrupt
                                           else if |s| < |magic| then Short
                                           else Done((), BytesBits(s[n..]))
    decreases |magic|
  {
    if magic == [] {
      assert s[0..] == s;
    } else if s != [] {
      FirstByte(s);
      BytesExpected(magic[1..], s[1..], n - 1);
      OneByOne(magic, s, n);
      assert s[1..][n - 1..] == s[n..];
    }
  }

  lemma OneByOne(magic: seq<Byte>, s: seq<Byte>, n: nat)
    requires 1 <= n <= |s| && n <= |magic|
    ensures s[..n] == magic[..n] <==> s[0] == magic[0] && s[1..][..n - 1] == magic[1..][..n - 1]
  {
    assert s[..n] == [s[0]] + s[1..][..n - 1] && magic[..n] == [magic[0]] + magic[1..][..n - 1];
    assert s[..n][0] == s[0] && magic[..n][0] == magic[0];
    assert s[..n][1..] == s[1..][..n - 1] && magic[..n][1..] == magic[1..][..n - 1];
  }

  lemma DigitIsRead(s: seq<Byte>)
    requires |s| > 3
    ensures ParseLevel(BytesBits(s[3..]))
         == if 0x31 <= s[3] <= 0x39 then Done(s[3] - 0x30, BytesBits(s[4..])) else Corrupt
  {
    FirstByte(s[3..]);
    assert s[3..][1..] == s[4..];
  }

  lemma MagicThenDigit(magic: seq<Byte>, s: seq<Byte>, n: nat)
    requires |magic| == 3 && n == if |s| < 3 then |s| else 3
    ensures MagicAhead(magic, BytesBits(s)) == if s[..n] != magic[..n] then Corrupt
                                               else if |s| < 3 then Short
                                               else ParseLevel(BytesBits(s[3..]))
  {
    BytesExpected(magic, s, n);
  }

  lemma DigitOf(s: seq<Byte>)
    requires |s| >= 3
    ensures ParseLevel(BytesBits(s[3..])) == if |s| < 4 then Short
                                             else if 0x31 <= s[3] <= 0x39 then Done(s[3] - 0x30, BytesBits(s[4..]))
                                             else Corrupt
  {
    if |s| > 3 {
      DigitIsRead(s);
    } else {
      assert BytesBits(s[3..]) == [];
    }
  }

  /** What the decoder makes of the first bytes. */
  lemma HeaderIsRead(s: seq<Byte>, magic: seq<Byte>)
    requires magic == [0x42, 0x5a, 0x68]
    ensures MagicAhead(magic, BytesBits(s)) == if !StartFits(s) then Corrupt
                                               else if |s| < 4 then Short
                                               else Done(s[3] - 0x30, BytesBits(s[4..]))
  {
    MagicThenDigit(magic, s, if |s| < 3 then |s| else 3);
    if |s| >= 3 { DigitOf(s); }
  }

  /** Bytes that begin neither a block nor the end of the stream are in error. */
  lemma NoSection(level: nat, s: seq<Byte>)
    requires !SectionFits(s)
    ensures ParseSection(level, BytesBits(s)).Corrupt?
  {
    var n := if |s| < 6 then |s| else 6;
    if s != [] {
      FirstByte(s);
      BytesExpected(TRAILER_MAGIC[1..], s[1..], n - 1);
      BytesExpected(BLOCK_MAGIC[1..], s[1..], n - 1);
      OneByOne(BLOCK_MAGIC, s, n);
      OneByOne(TRAILER_MAGIC, s, n);
    }
  }

  lemma NoSectionAfter(s: seq<Byte>, bits: seq<bool>) returns (level: nat, start: seq<bool>)
    requires bits == BytesBits(s) && StartFits(s) && |s| >= 4 && !SectionFits(s[4..])
    ensures ParseMagic(bits) == Done(level, start) && ParseSection(level, start).Corrupt?
  {
    level, start := s[3] - 0x30, BytesBits(s[4..]);
    HeaderIsRead(s, STREAM_MAGIC);
    NoSection(level, s[4..]);
  }

  lemma HeaderDecides(s: seq<Byte>, bits: seq<bool>)
    requires bits == BytesBits(s)
    ensures ParseMagic(bits).Corrupt? <==> !StartFits(s)
    ensures ParseMagic(bits).Short? <==> StartFits(s) && |s| < 4
  {
    HeaderIsRead(s, STREAM_MAGIC);
  }

  /** The answer to bytes that start otherwise than a stream. */
  lemma AnswerToFirstBytes(sum: Checksum, s: seq<Byte>, bits: seq<bool>, room: nat, small: bool, v: Sight, res: Result)
    requires bits == BytesBits(s) && IsAnswer(sum, bits, room, small, v, res)
    ensures res.MagicError? <==> !StartFits(s)
    ensures StartFits(s) && |s| < 4 ==> res == if room > 0 then UnexpectedEof else OutbuffFull
    ensures StartFits(s) && |s| >= 4 && !SectionFits(s[4..]) ==> res == DataError
  {
    HeaderDecides(s, bits);
    AnswerToHeader(sum, bits, room, small, v, res);
    if StartFits(s) && |s| >= 4 && !SectionFits(s[4..]) {
      var level, start := NoSectionAfter(s, bits);
      AnswerToNoSection(sum, bits, room, small, v, res, level, start);
    }
  }
}
