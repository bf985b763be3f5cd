/** The right answer to a request to decompress some bits into so much room, whatever the bits
    are; and that there is only one. */
module Answers {
  import opened Basics
  import opened Bits
  import opened Huffman
  import opened BlockFormat
  import opened Block
  import opened RunLengths
  import opened Stream
  import opened DecodedStream

  datatype Result =
    | Ok(bytes: seq<Byte>) | ParamError | OutbuffFull | UnexpectedEof | SequenceError | MagicError | DataError
    | Undefined

  /** Why a decoder reads no further: the bits end within a section, a block is more than there is room
      for, the stream has ended, a section is wrong, or it makes the source write past its selectors. */
  datatype Halt = BitsAreOut | RoomIsOut | AtEnd | InError | InOverrun

  /** What a decoder saw of its input: the level, the bits after the stream header, the blocks
      after that, and the one it did not finish. */
  datatype Sight = Sight(level: nat, start: seq<bool>, seen: seq<Seen>, last: Seen, halt: Halt) {
    /** The section after the blocks seen. */
    function Next(): Parse<Section> { ParseSection(level, After(start, seen)) }

    /** What the blocks seen stand for. */
    function Output(): seq<Byte> { DataOf(SeenBlocks(seen)) }
  }

  /** The bits begin with a stream header and blocks that have the right checksums, for whose data
      there is room. */
  ghost predicate Saw(sum: Checksum, bits: seq<bool>, room: nat, v: Sight) {
    && ParseMagic(bits) == Done(v.level, v.start) && AllSeen(sum, v.level, v.start, v.seen)
    && |v.Output()| <= room
  }

  /** The section after that is why the decoder reads no further. */
  ghost predicate Halts(sum: Checksum, room: nat, small: bool, v: Sight) {
    var next, combined := v.Next(), CombinedOf(sum, SeenBlocks(v.seen));
    match v.halt
    case BitsAreOut => BitsEnd(v.level, next, v.last.tables)
    case RoomIsOut => BlockFollows(v.level, next, v.last) && room < |v.Output()| + Need(v.level, next, v.last, small)
    case AtEnd => EndFollows(next, combined)
    case InError => WrongFollows(sum, v.level, next, combined, v.last, small, |v.Output()|, room)
    case InOverrun => OverrunFollows(next)
  }

  /** What is answered then; left is the room not used for the blocks seen. */
  function Answered(halt: Halt, left: nat, output: seq<Byte>): Result {
    match halt
    case BitsAreOut => if left > 0 then UnexpectedEof else OutbuffFull
    case RoomIsOut => OutbuffFull
    case AtEnd => Ok(output)
    case InError => DataError
    case InOverrun => Undefined
  }

  /** The right answer for these bits and this much room for output. */
  ghost predicate IsAnswer(sum: Checksum, bits: seq<bool>, room: nat, small: bool, v: Sight, res: Result) {
    match ParseMagic(bits)
    case Corrupt => res == MagicError
    case Short => res == Answered(BitsAreOut, room, [])
    case Done(_, _) =>
      && Saw(sum, bits, room, v) && Halts(sum, room, small, v)
      && res == Answered(v.halt, room - |v.Output()|, v.Output())
  }

  // ---------- there is only one ----------

  /** Which body follows does not depend on the tables it is read with. */
  lemma OneBody(level: nat, next: Parse<Section>, t: seq<Tables>, u: seq<Tables>)
    requires HasBody(next, t) && HasBody(next, u)
    ensures Body(level, next, t) == Body(level, next, u)
  {
    BodySame(level, next.value.header, t, u, next.rest);
  }

  lemma OneBlockFollows(level: nat, next: Parse<Section>, s: Seen, t: Seen)
    requires BlockFollows(level, next, s) && BlockFollows(level, next, t)
    ensures s.block == t.block && s.rest == t.rest
    ensures forall small :: Need(level, next, s, small) == Need(level, next, t, small)
  {
    OneBody(level, next, s.tables, t.tables);
  }

  lemma SameButOne(seen: seq<Seen>, more: seq<Seen>, m: nat)
    requires |seen| == m + 1 <= |more| && SeenBlocks(seen[..m]) == SeenBlocks(more[..m])
    requires seen[m].block == more[m].block
    ensures SeenBlocks(seen) == SeenBlocks(more[..m + 1])
  {
    forall i | 0 <= i <= m ensures SeenBlocks(seen)[i] == SeenBlocks(more[..m + 1])[i] {
      if i < m { assert SeenBlocks(seen[..m])[i] == SeenBlocks(more[..m])[i]; }
    }
  }

  /** Of two decoders that read the same bits, the blocks seen by the one begin the other's. */
  lemma {:induction false} SameBlocks(sum: Checksum, level: nat, start: seq<bool>, seen: seq<Seen>, more: seq<Seen>)
    requires AllSeen(sum, level, start, seen) && AllSeen(sum, level, start, more) && |seen| <= |more|
    ensures SeenBlocks(seen) == SeenBlocks(more[..|seen|]) && After(start, seen) == After(start, more[..|seen|])
    decreases |seen|
  {
    if seen != [] {
      var m := |seen| - 1;
      FewerSeen(sum, level, start, seen, m);
      SameBlocks(sum, level, start, seen[..m], more);
      assert SeenAt(sum, level, start, seen, m) && SeenAt(sum, level, start, more, m);
      OneBlockFollows(level, ParseSection(level, After(start, seen[..m])), seen[m], more[m]);
      SameButOne(seen, more, m);
    }
  }

  /** Where one decoder halts, no other with the same room sees one more block. */
  lemma NoneGoesOn(sum: Checksum, room: nat, small: bool, v: Sight, s: Seen)
    requires Halts(sum, room, small, v) && BlockFollows(v.level, v.Next(), s) && Checked(sum, v.Next(), s.block)
    ensures room < |v.Output() + Expand(s.block)|
  {
    var next := v.Next();
    if HasBody(next, v.last.tables) { OneBody(v.level, next, v.last.tables, s.tables); }
    if BlockFollows(v.level, next, v.last) { OneBlockFollows(v.level, next, v.last, s); }
  }

  lemma OneBlockFits(seen: seq<Seen>, n: nat)
    requires n < |seen|
    ensures |DataOf(SeenBlocks(seen[..n])) + Expand(seen[n].block)| <= |DataOf(SeenBlocks(seen))|
  {
    var all := SeenBlocks(seen);
    assert SeenBlocks(seen[..n]) == all[..n];
    assert all[..n + 1][..n] == all[..n];
    DataGrows(all, n + 1);
  }

  /** Two decoders that halt have seen the same blocks. */
  lemma SameSight(sum: Checksum, bits: seq<bool>, room: nat, small: bool, v: Sight, w: Sight)
    requires Saw(sum, bits, room, v) && Halts(sum, room, small, v)
    requires Saw(sum, bits, room, w) && Halts(sum, room, small, w)
    requires |v.seen| <= |w.seen|
    ensures v.level == w.level && v.Next() == w.Next() && SeenBlocks(v.seen) == SeenBlocks(w.seen)
  {
    var n := |v.seen|;
    SameBlocks(sum, v.level, v.start, v.seen, w.seen);
    if n < |w.seen| {
      assert SeenAt(sum, v.level, v.start, w.seen, n);
      NoneGoesOn(sum, room, small, v, w.seen[n]);
      OneBlockFits(w.seen, n);
      assert false;
    }
    assert w.seen[..n] == w.seen;
  }

  /** And they have halted for the same reason. */
  lemma SameHalt(sum: Checksum, room: nat, small: bool, v: Sight, w: Sight)
    requires Halts(sum, room, small, v) && Halts(sum, room, small, w)
    requires v.level == w.level && v.Next() == w.Next() && SeenBlocks(v.seen) == SeenBlocks(w.seen)
    ensures v.halt == w.halt
  {
    var next := v.Next();
    if HasBody(next, v.last.tables) && HasBody(next, w.last.tables) {
      OneBody(v.level, next, v.last.tables, w.last.tables);
    }
    if BlockFollows(v.level, next, v.last) && BlockFollows(v.level, next, w.last) {
      OneBlockFollows(v.level, next, v.last, w.last);
    }
  }

  /** There is one right answer. */
  lemma OneAnswer(sum: Checksum, bits: seq<bool>, room: nat, small: bool, v: Sight, res: Result, w: Sight,
                  other: Result)
    requires IsAnswer(sum, bits, room, small, v, res) && IsAnswer(sum, bits, room, small, w, other)
    ensures res == other
  {
    if ParseMagic(bits).Done? {
      if |v.seen| <= |w.seen| {
        SameSight(sum, bits, room, small, v, w);
      } else {
        SameSight(sum, bits, room, small, w, v);
      }
      SameHalt(sum, room, small, v, w);
    }
  }

  // ---------- at the start of the stream ----------

  lemma AnswerToHeader(sum: Checksum, bits: seq<bool>, room: nat, small: bool, v: Sight, res: Result)
    requires IsAnswer(sum, bits, room, small, v, res)
    ensures res.MagicError? <==> ParseMagic(bits).Corrupt?
    ensures ParseMagic(bits).Short? ==> res == if room > 0 then UnexpectedEof else OutbuffFull
  {}

  /** What is neither a block nor the end of the stream after the stream header is an error. */
  lemma AnswerToNoSection(sum: Checksum, bits: seq<bool>, room: nat, small: bool, v: Sight, res: Result,
                          level: nat, start: seq<bool>)
    requires IsAnswer(sum, bits, room, small, v, res)
    requires ParseMagic(bits) == Done(level, start) && ParseSection(level, start).Corrupt?
    ensures res == DataError
  {
    var w := Sight(level, start, [], Seen([], [], []), InError);
    assert w.Output() == [] && w.Next() == ParseSection(level, start);
    OneAnswer(sum, bits, room, small, v, res, w, DataError);
  }

  // ---------- where the two decoders differ ----------

  /** Where the small decoder halts on what the fast one has seen. */
  ghost function SmallHalt(room: nat, v: Sight): Halt {
    if v.halt == InError && BlockFollows(v.level, v.Next(), v.last)
       && room < |v.Output()| + Need(v.level, v.Next(), v.last, true) then RoomIsOut
    else v.halt
  }

  lemma SmallHalts(sum: Checksum, room: nat, v: Sight)
    requires Halts(sum, room, false, v)
    ensures Halts(sum, room, true, v.(halt := SmallHalt(room, v)))
    ensures v.halt != SmallHalt(room, v) <==>
      && v.halt == InError && BlockFollows(v.level, v.Next(), v.last)
      && !Complete(v.last.block) && room == |v.Output()| + Need(v.level, v.Next(), v.last, false)
  {}

  /** The two decoders have the same right answer, unless a block's last run of four lacks its count
      and there is room just for that run with the byte after the block taken for the count: then
      only the fast one finds out. */
  lemma DecodersDiffer(sum: Checksum, bits: seq<bool>, room: nat, v: Sight, fast: Result, w: Sight, slow: Result)
    requires IsAnswer(sum, bits, room, false, v, fast) && IsAnswer(sum, bits, room, true, w, slow)
    ensures fast != slow <==>
      && ParseMagic(bits).Done? && v.halt == InError && BlockFollows(v.level, v.Next(), v.last)
      && !Complete(v.last.block) && room == |v.Output()| + Need(v.level, v.Next(), v.last, false)
    ensures fast != slow ==> fast == DataError && slow == OutbuffFull
  {
    if ParseMagic(bits).Done? {
      var u := v.(halt := SmallHalt(room, v));
      SmallHalts(sum, room, v);
      OneAnswer(sum, bits, room, true, u, Answered(u.halt, room - |u.Output()|, u.Output()), w, slow);
    }
  }
}
