/** BZ2_bzBuffToBuffCompress and BZ2_bzBuffToBuffDecompress of bzlib.c, and that the second
    undoes the first. */
module BuffToBuff {
  import opened Basics
  import opened Bits
  import opened RunLengths
  import opened Stream
  import opened Sizes
  import opened Block
  import opened DecodedStream
  import opened Answers
  import opened Wire
  import Crc
  import Compressor
  import Decompressor

  /** dest holds a whole stream whose blocks stand for source. */
  ghost predicate IsStreamOf(sum: Checksum, level: nat, sent: seq<SentBlock>, dest: seq<Byte>, source: seq<Byte>) {
    && 1 <= level <= 9 && AllWellSent(sum, level, sent) && Data(sent) == source
    && BytesBits(dest) == Padded(StreamBits(sum, level, sent))
  }

  /** Any stream for the data that sends the same blocks first takes at least as many bytes. */
  lemma NoneShorter(sum: Checksum, bytes: seq<Byte>, level: nat, sent: seq<SentBlock>, data: seq<Byte>,
                    more: seq<SentBlock>, dest: seq<Byte>)
    requires Begins(sum, bytes, level, sent, data)
    requires sent <= more && IsStreamOf(sum, level, more, dest, data)
    ensures |bytes| <= |dest|
  {
    BitsSplit(more, |sent|);
    assert more[..|sent|] == sent;
    MarkedLength(StreamMagic(level), SentBits(sent));
    MarkedLength(StreamMagic(level), SentBits(more));
    BytesBitsLength(bytes);
    BytesBitsLength(dest);
    TrailerLength(Combined(sum, sent));
    TrailerLength(Combined(sum, more));
    PaddedLength(StreamBits(sum, level, sent));
    PaddedLength(StreamBits(sum, level, more));
  }

  predicate ParamsOk(blockSize100k: int, workFactor: int) {
    1 <= blockSize100k <= 9 && 0 <= workFactor <= 250
  }

  /** BZ2_bzBuffToBuffCompress. Either the output is a whole stream for source, or the output
      space has been used up by the first bytes of one, or nothing at all has moved, which
      happens just when there is neither input nor output space. */
  method BuffToBuffCompress(sum: Checksum, source: seq<Byte>, blockSize100k: int, workFactor: int, destLen: nat)
    returns (res: Result, ghost sent: seq<SentBlock>, ghost written: seq<Byte>)
    ensures res.ParamError? <==> !ParamsOk(blockSize100k, workFactor)
    ensures res.SequenceError? <==> ParamsOk(blockSize100k, workFactor) && source == [] && destLen == 0
    ensures res.Ok? || res.ParamError? || res.OutbuffFull? || res.SequenceError?
    ensures res.Ok? ==> |res.bytes| <= destLen && IsStreamOf(sum, blockSize100k, sent, res.bytes, source)
    ensures res.Ok? ==> |res.bytes| >= 14 && res.bytes[..4] == [0x42, 0x5a, 0x68, 0x30 + blockSize100k]
    ensures res.Ok? && source != [] ==> res.bytes[4..10] == [0x31, 0x41, 0x59, 0x26, 0x53, 0x59]
    ensures res.Ok? && source == [] ==> res.bytes[4..] == [0x17, 0x72, 0x45, 0x38, 0x50, 0x90, 0, 0, 0, 0]
    ensures res.OutbuffFull? ==> destLen < |written| <= 8 * |source| / 5 + 8300
                                 && Begins(sum, written, blockSize100k, sent, source)
  {
    sent, written := [], [];
    if blockSize100k < 1 || blockSize100k > 9 || workFactor < 0 || workFactor > 250 {
      return ParamError, sent, written;
    }
    var s := new Compressor.Encoder(sum, blockSize100k, workFactor);
    var ret, n := s.BzCompress(Compressor.Finish, source, destLen);
    assert [] + source == source;
    if ret == Compressor.FinishOk {
      s.SpaceUsedUp();
      return OutbuffFull, s.back.sent, s.back.w.drained + s.back.w.zbits;
    }
    if ret != Compressor.StreamEnd {
      s.StuckForSpace(destLen);
      return SequenceError, sent, written;
    }
    s.StreamIsWhole();
    sent := s.back.sent;
    Compressor.TakenAll(source, [], s.consumed, n);
    res := Ok(s.delivered);
    StreamBytes(sum, blockSize100k, sent, s.delivered);
  }

  /** What follows the bits of a stream in its padded form. */
  lemma {:induction false} PaddedExtends(bits: seq<bool>) returns (rest: seq<bool>)
    ensures Padded(bits) == bits + rest
    decreases (8 - |bits| % 8) % 8
  {
    if |bits| % 8 == 0 {
      rest := [];
      assert bits + [] == bits;
    } else {
      var more := PaddedExtends(bits + [false]);
      rest := [false] + more;
      assert bits + [false] + more == bits + rest;
    }
  }

  /** On a whole stream the right answer is its data when that fits, and that it does not otherwise. */
  lemma AnswerToStream(sum: Checksum, level: nat, sent: seq<SentBlock>, bytes: seq<Byte>, data: seq<Byte>, room: nat,
                       small: bool, v: Sight, res: Result)
    requires IsStreamOf(sum, level, sent, bytes, data) && IsAnswer(sum, BytesBits(bytes), room, small, v, res)
    ensures res == if |data| <= room then Ok(data) else OutbuffFull
  {
    var rest := PaddedExtends(StreamBits(sum, level, sent));
    StreamStarts(sum, level, sent, rest);
    SeenAreSent(sum, level, sent, rest, v.start, v.seen);
    NothingWrong(sum, level, sent, |v.seen|, rest, v.last);
    SeenData(sum, level, sent, rest, v.start, v.seen);
    if BlockFollows(level, v.Next(), v.last) { SeenPart(sum, level, sent, rest, v.start, v.seen, v.last, []); }
  }

  /** What a decoder has seen that halts so. */
  ghost function SightOf(s: Decompressor.Decoder, halt: Halt): Sight
    reads s
  {
    Sight(s.level, s.start, s.seen, s.last, halt)
  }

  lemma EndIsAnswer(s: Decompressor.Decoder, room: nat)
    requires s.Valid() && s.phase == Decompressor.AtEnd && |s.Delivered()| <= room
    ensures IsAnswer(s.sum, s.total, room, s.small, SightOf(s, AtEnd), Ok(s.Delivered()))
  {
    s.DecodedAll();
  }

  lemma ErrorIsAnswer(s: Decompressor.Decoder, code: Decompressor.Code, room: nat)
    requires s.Past() && s.Stopped(code, room) && (code == Decompressor.DataError || code == Decompressor.Undefined)
    ensures code == Decompressor.DataError ==> IsAnswer(s.sum, s.total, room, s.small, SightOf(s, InError), DataError)
    ensures code == Decompressor.Undefined ==> IsAnswer(s.sum, s.total, room, s.small, SightOf(s, InOverrun), Undefined)
  {
    s.PastNow();
    assert Look(0);
  }

  /** The answer when all input has been taken and the decoder asks for more. */
  lemma StarvedIsAnswer(s: Decompressor.Decoder, left: nat)
    requires s.Valid() && s.Starved() && s.r.future == []
    ensures IsAnswer(s.sum, s.total, |s.Delivered()| + left, s.small, SightOf(s, BitsAreOut),
                     Answered(BitsAreOut, left, []))
  {
    assert Look(0);
    if s.phase == Decompressor.AtMagic {
      Decompressor.EmptyRight(s.finished);
    } else {
      s.PastNow();
      s.DecodedSoFar();
    }
  }

  /** The answer when a block waits for more room. */
  lemma WaitingIsAnswer(s: Decompressor.Decoder)
    requires s.Valid() && s.phase == Decompressor.AtOutput && s.Waiting()
    ensures IsAnswer(s.sum, s.total, |s.Delivered()|, s.small, SightOf(s, RoomIsOut), OutbuffFull)
  {
    s.PastNow();
    s.DecodedPart();
  }

  /** How the one call of BZ2_bzDecompress ended. */
  ghost predicate Ended(s: Decompressor.Decoder, ret: Decompressor.Code, left: nat)
    reads s, s.r, s.repr, s.cur
  {
    && (ret == Decompressor.MagicError ==> ParseMagic(s.total).Corrupt?)
    && (ret != Decompressor.MagicError ==> s.Stopped(ret, |s.Delivered()| + left))
    && (ret != Decompressor.MagicError && s.phase != Decompressor.AtMagic ==> s.Past())
    && (ret == Decompressor.Ok ==> s.Starved() || (s.phase == Decompressor.AtOutput && left == 0 && s.Waiting()))
  }

  /** The return code for that is the right answer. */
  lemma EndedIsAnswer(s: Decompressor.Decoder, ret: Decompressor.Code, left: nat) returns (v: Sight)
    requires s.Valid() && s.r.future == [] && ret != Decompressor.SequenceError && Ended(s, ret, left)
    ensures IsAnswer(s.sum, s.total, |s.Delivered()| + left, s.small, v, Translated(s, ret, left))
  {
    v := SightOf(s, BitsAreOut);
    match ret
    case StreamEnd =>
      EndIsAnswer(s, |s.Delivered()| + left);
      v := SightOf(s, AtEnd);
    case Ok =>
      if s.Starved() {
        StarvedIsAnswer(s, left);
      } else {
        WaitingIsAnswer(s);
        v := SightOf(s, RoomIsOut);
      }
    case MagicError =>
    case DataError =>
      ErrorIsAnswer(s, ret, |s.Delivered()| + left);
      v := SightOf(s, InError);
    case Undefined =>
      ErrorIsAnswer(s, ret, |s.Delivered()| + left);
      v := SightOf(s, InOverrun);
  }

  function Translated(s: Decompressor.Decoder, ret: Decompressor.Code, left: nat): Result
    requires ret != Decompressor.SequenceError
    reads s, s.cur
  {
    match ret
    case StreamEnd => Ok(s.Delivered())
    case Ok => if left > 0 then UnexpectedEof else OutbuffFull
    case MagicError => MagicError
    case DataError => DataError
    case Undefined => Undefined
  }

  /** BZ2_bzBuffToBuffDecompress, on any input at all. */
  method BuffToBuffDecompress(sum: Checksum, source: seq<Byte>, small: bool, destLen: nat)
    returns (res: Result, ghost v: Sight)
    ensures IsAnswer(sum, BytesBits(source), destLen, small, v, res)
    ensures res.MagicError? <==> !StartFits(source)
    ensures StartFits(source) && |source| < 4 ==> res == if destLen > 0 then UnexpectedEof else OutbuffFull
    ensures StartFits(source) && |source| >= 4 && !SectionFits(source[4..]) ==> res == DataError
  {
    ghost var total := BytesBits(source);
    var s := new Decompressor.Decoder(sum, small, total);
    assert total + [] == [] + total;
    var ret, left := s.BzDecompress(source, destLen, []);
    v := EndedIsAnswer(s, ret, left);
    res := Translated(s, ret, left);
    AnswerToFirstBytes(sum, source, total, destLen, small, v, res);
  }

  /** Decompression undoes compression, with either decoder, at every block size and work factor:
      with space enough in the middle compression succeeds, and whenever it does the data comes
      back, or is reported not to fit. */
  method RoundTrip(sum: Checksum, source: seq<Byte>, blockSize100k: int, workFactor: int, small: bool, middle: nat,
                   destLen: nat)
    returns (packed: Result, unpacked: Result)
    ensures ParamsOk(blockSize100k, workFactor) && middle >= 8 * |source| / 5 + 8300 ==> packed.Ok?
    ensures packed.Ok? ==> unpacked == if |source| <= destLen then Ok(source) else OutbuffFull
  {
    ghost var sent, written;
    packed, sent, written := BuffToBuffCompress(sum, source, blockSize100k, workFactor, middle);
    if !packed.Ok? { return packed, packed; }
    ghost var v;
    unpacked, v := BuffToBuffDecompress(sum, packed.bytes, small, destLen);
    AnswerToStream(sum, blockSize100k, sent, packed.bytes, source, destLen, small, v, unpacked);
  }

  /** The same with bzip2's own checksum. */
  method Bzip2RoundTrip(source: seq<Byte>, blockSize100k: int, workFactor: int, small: bool, middle: nat, destLen: nat)
    returns (packed: Result, unpacked: Result)
    ensures ParamsOk(blockSize100k, workFactor) && middle >= 8 * |source| / 5 + 8300 ==> packed.Ok?
    ensures packed.Ok? ==> unpacked == if |source| <= destLen then Ok(source) else OutbuffFull
  {
    packed, unpacked := RoundTrip(Crc.BZIP2, source, blockSize100k, workFactor, small, middle, destLen);
  }

  /** The same for streams, compressed and decompressed by any sequences of calls that offer input
      and output space in any pieces: of what a finished encoder has put out, no call of the
      decoder makes an error; it puts out a beginning of what the encoder took in, and at the end
      all of it. */
  lemma StreamedRoundTrip(e: Compressor.Encoder, d: Decompressor.Decoder, code: Decompressor.Code, room: nat)
    requires e.Valid() && e.mode == Compressor.Idle && d.sum == e.back.sum && d.total == BytesBits(e.delivered)
    requires d.Valid() && (d.phase != Decompressor.AtMagic ==> d.Past())
    ensures d.Stopped(code, room) ==> code == Decompressor.Ok || code == Decompressor.StreamEnd
    ensures d.phase != Decompressor.Failed ==> d.Delivered() <= e.consumed
    ensures d.phase == Decompressor.AtEnd ==> d.Delivered() == e.consumed
  {
    e.StreamIsWhole();
    var rest := PaddedExtends(StreamBits(e.back.sum, e.back.level, e.back.sent));
    assert d.Receives(e.back.level, e.back.sent, rest);
    if d.Stopped(code, room) { d.NeverFails(code, room, e.back.level, e.back.sent, rest); }
    if d.phase != Decompressor.Failed { d.DeliversSent(e.back.level, e.back.sent, rest); }
  }
}
