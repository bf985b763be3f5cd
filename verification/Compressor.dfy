/** BZ2_bzCompress of bzlib.c: the streaming state machine around the front end and the
    block compressor, over any sequence of calls. */
module Compressor {
  import opened Basics
  import opened Bits
  import opened RunLengths
  import opened Stream
  import opened Sizes
  import opened BlockBuilder
  import opened StreamWriter

  datatype Mode = Idle | Running | Flushing | Finishing
  datatype Action = Run | Flush | Finish
  datatype Code = RunOk | FlushOk | FinishOk | StreamEnd | ParamError | SequenceError

  lemma NextByte(a: seq<Byte>, z: seq<Byte>, i: nat)
    requires i < |z|
    ensures a + z[..i] + [z[i]] == a + z[..i + 1]
  {}

  lemma AllBytes(a: seq<Byte>, z: seq<Byte>)
    ensures a + z[..|z|] == a + z && a + z == a + z + [][..0]
  {}

  /** n input bytes have moved from what is offered to the end of what is consumed. */
  ghost predicate Taken(in0: seq<Byte>, done0: seq<Byte>, in1: seq<Byte>, done1: seq<Byte>, n: nat) {
    done1 + in1 == done0 + in0 && |in1| + n == |in0|
  }

  lemma TakenAll(in0: seq<Byte>, done0: seq<Byte>, done1: seq<Byte>, n: nat)
    requires Taken(in0, done0, [], done1, n)
    ensures done1 == done0 + in0
  {
    assert done1 + [] == done1;
  }

  lemma TakenNone(in0: seq<Byte>, done0: seq<Byte>, in1: seq<Byte>, done1: seq<Byte>)
    requires Taken(in0, done0, in1, done1, 0)
    ensures in1 == in0 && done1 == done0
  {
    assert done1 == (done1 + in1)[..|done1|] && in1 == (done1 + in1)[|done1|..];
    assert done0 == (done0 + in0)[..|done0|] && in0 == (done0 + in0)[|done0|..];
  }

  lemma TakenOne(in0: seq<Byte>, done0: seq<Byte>)
    requires in0 != []
    ensures Taken(in0, done0, in0[1..], done0 + [in0[0]], 1)
  {}

  /** The caller's side of the stream at one moment. */
  datatype Flow = Flow(input: seq<Byte>, consumed: seq<Byte>, out: seq<Byte>, space: nat)

  /** From a to z the codec has used n bytes of input and some output space, or done nothing. */
  ghost predicate Flowed(a: Flow, z: Flow, n: nat, progress: bool) {
    && Taken(a.input, a.consumed, z.input, z.consumed, n)
    && HandedOut(a.out, a.space, z.out, z.space)
    && (progress <==> n > 0 || z.space < a.space)
  }

  lemma NothingFlowed(a: Flow)
    ensures Flowed(a, a, 0, false)
  {}

  lemma FlowedOn(a: Flow, b: Flow, z: Flow, n: nat, m: nat, p: bool, q: bool)
    requires Flowed(a, b, n, p) && Flowed(b, z, m, q)
    ensures Flowed(a, z, n + m, p || q)
  {}

  /** EState and its stream. */
  class Encoder {
    const front: Builder
    const back: Writer
    const nblockMAX: int
    var mode: Mode
    var outputting: bool
    var outPos: nat
    var availInExpect: nat
    var nextIn: seq<Byte>
    var availOut: nat
    var delivered: seq<Byte>
    ghost var consumed: seq<Byte>
    ghost var flushes: nat

    ghost function Now(): Flow
      reads this
    {
      Flow(nextIn, consumed, delivered, availOut)
    }

    /** The blocks sent, and the block and the run in hand, stand for what has been consumed. */
    ghost predicate DataOk()
      reads this`consumed, this`outputting, front, back, back.w
    {
      && back.Valid() && front.Valid() && front.sum == back.sum && nblockMAX == FullSize(back.level)
      && consumed == Data(back.sent) + (if outputting then front.Pending() else front.Held())
    }

    /** The output so far: what was drained before and the part of zbits handed out. */
    ghost predicate OutputOk()
      reads this`outPos, this`delivered, back.w
    {
      outPos <= |back.w.zbits| && delivered == back.w.drained + back.w.zbits[..outPos]
    }

    /** While a block is being gathered there is nothing to hand out. */
    ghost predicate Gathering()
      reads this`outputting, back, back.w
    {
      !outputting && back.w.zbits == [] && !back.closed && (back.blockNo == 1 <==> !back.started)
    }

    /** While output is handed out the block has been sent; unless a flush or the end of the
        stream put it there, a run is still pending. */
    ghost predicate Draining()
      reads this`outputting, this`mode, this`availInExpect, front, back
    {
      && outputting && back.started
      && (back.closed ==> (mode == Finishing || mode == Idle) && availInExpect == 0 && front.inCh == NO_CHAR)
      && (!back.closed && front.inCh == NO_CHAR ==> mode == Flushing && availInExpect == 0)
    }

    /** A flush has still to cut a block. */
    ghost predicate Owes()
      reads this`mode, this`availInExpect, front
    {
      mode == Flushing && (availInExpect > 0 || front.inCh < NO_CHAR)
    }

    /** Every block sent has been full, but for one of each flush and the last of the stream. */
    ghost predicate AllFull()
      reads this`mode, this`availInExpect, this`flushes, front, back
    {
      back.short + (if Owes() then 1 else 0) <= flushes + (if back.closed then 1 else 0)
    }

    ghost predicate Valid()
      reads this, front, back, back.w
    {
      && DataOk() && OutputOk() && AllFull()
      && (if outputting then Draining() else Gathering() && front.Ready() && |front.block| < nblockMAX)
      && (mode == Idle ==> Finished())
    }

    /** Everything has been sent and handed out. */
    ghost predicate Finished()
      reads this`outputting, this`outPos, front, back, back.w
    {
      outputting && back.closed && outPos == |back.w.zbits| && front.inCh == NO_CHAR
    }

    /** The caller keeps offering exactly the input that a flush or finish announced. */
    ghost predicate Expecting()
      reads this`mode, this`availInExpect, this`nextIn
    {
      mode == Flushing || mode == Finishing ==> availInExpect == |nextIn|
    }

    /** BZ2_bzCompressInit. */
    constructor (sum: Checksum, blockSize100k: nat, workFactor: nat)
      requires 1 <= blockSize100k <= 9 && workFactor <= 250
      ensures Valid() && mode == Running && consumed == [] && delivered == [] && flushes == 0
      ensures back.sum == sum && back.level == blockSize100k
      ensures back.workFactor == if workFactor == 0 then 30 else workFactor
      ensures fresh(front) && fresh(back) && fresh(back.w)
    {
      front := new Builder(sum);
      back := new Writer(sum, blockSize100k, if workFactor == 0 then 30 else workFactor);
      nblockMAX := 100000 * blockSize100k - 19;
      mode := Running;
      outputting := false;
      outPos := 0;
      availInExpect := 0;
      nextIn := [];
      availOut := 0;
      delivered := [];
      consumed := [];
      flushes := 0;
    }

    /** The next byte of zbits goes out. */
    method PutByte()
      requires OutputOk() && outPos < |back.w.zbits| && availOut > 0
      modifies this`delivered, this`outPos, this`availOut
      ensures OutputOk() && HandedOut(old(delivered), old(availOut), delivered, availOut)
      ensures availOut == old(availOut) - 1
    {
      NextByte(back.w.drained, back.w.zbits, outPos);
      delivered := delivered + [back.w.zbits[outPos]];
      outPos := outPos + 1;
      availOut := availOut - 1;
    }

    /** copy_output_until_stop. */
    method CopyOutput() returns (progress: bool)
      requires OutputOk()
      modifies this`delivered, this`outPos, this`availOut
      ensures OutputOk() && (outPos < |back.w.zbits| ==> availOut == 0)
      ensures HandedOut(old(delivered), old(availOut), delivered, availOut)
      ensures progress <==> availOut < old(availOut)
    {
      progress := false;
      while true
        invariant OutputOk() && availOut <= old(availOut) && (progress <==> availOut < old(availOut))
        invariant HandedOut(old(delivered), old(availOut), delivered, availOut)
        decreases availOut
      {
        if availOut == 0 { break; }
        if outPos >= |back.w.zbits| { break; }
        progress := true;
        PutByte();
      }
    }

    /** prepare_new_block, once all output has been handed out. */
    method PrepareNewBlock()
      requires DataOk() && OutputOk() && outputting && back.started && !back.closed && outPos == |back.w.zbits|
      modifies this`outputting, this`outPos, front, back, back.w
      ensures DataOk() && OutputOk() && Gathering() && front.Ready() && front.block == []
      ensures front.inCh == old(front.inCh) && back.short == old(back.short)
    {
      AllBytes(back.w.drained, back.w.zbits);
      outPos := 0;
      front.PrepareNewBlock();
      back.NextBlock();
      outputting := false;
    }

    /** One input byte goes to the front end. */
    method TakeByte()
      requires DataOk() && Gathering() && front.Ready() && nextIn != []
      modifies this`nextIn, this`consumed, front
      ensures DataOk() && front.Ready() && Taken(old(nextIn), old(consumed), nextIn, consumed, 1)
      ensures |front.block| <= |old(front.block)| + 5 && front.inCh < NO_CHAR
    {
      JoinThree(Data(back.sent), front.Held(), [nextIn[0]]);
      TakenOne(nextIn, consumed);
      front.AddChar(nextIn[0]);
      consumed := consumed + [nextIn[0]];
      nextIn := nextIn[1..];
    }

    /** copy_input_until_stop. */
    method CopyInput() returns (progress: bool, ghost n: nat)
      requires DataOk() && Gathering() && front.Ready() && |front.block| < nblockMAX && Expecting() && mode != Idle
      modifies this`nextIn, this`consumed, this`availInExpect, front
      ensures DataOk() && front.Ready() && Expecting() && |front.block| <= nblockMAX + 4
      ensures |front.block| >= nblockMAX ==> front.inCh < NO_CHAR && n > 0
      ensures |front.block| < nblockMAX ==> nextIn == []
      ensures (progress <==> n > 0) && (Owes() <==> old(Owes()))
      ensures Taken(old(nextIn), old(consumed), nextIn, consumed, n)
    {
      progress := false;
      n := 0;
      ghost var in0, done0 := nextIn, consumed;
      while true
        invariant DataOk() && front.Ready() && Expecting() && |front.block| <= nblockMAX + 4 && (progress <==> n > 0)
        invariant Owes() <==> old(Owes())
        invariant |front.block| >= nblockMAX ==> front.inCh < NO_CHAR && n > 0
        invariant Taken(in0, done0, nextIn, consumed, n)
        decreases |nextIn|
      {
        if |front.block| >= nblockMAX { break; }
        if |nextIn| == 0 { break; }
        if mode != Running && availInExpect == 0 { break; }
        progress := true;
        TakeByte();
        n := n + 1;
        if mode != Running { availInExpect := availInExpect - 1; }
      }
    }

    /** The block goes to the compressor; a flush or finish sends the pending run with it. */
    method SendBlock(last: bool)
      requires DataOk() && OutputOk() && AllFull() && Gathering() && mode != Idle
      requires |front.block| <= nblockMAX + 9
      requires last ==> mode == Finishing && availInExpect == 0 && front.inCh == NO_CHAR
      requires !last && front.inCh == NO_CHAR ==> mode == Flushing && availInExpect == 0
      requires !last && (mode != Flushing || front.inCh < NO_CHAR) ==> |front.block| >= nblockMAX
      requires !last && front.inCh == NO_CHAR && front.block != [] ==> back.short < flushes
      modifies this`outputting, back, back.w
      ensures Valid() && outputting && back.closed == last
    {
      JoinThree(Data(back.sent), Expand(front.block), front.Pending());
      front.CanBeSent();
      back.Compress(front.block, front.inUse, front.blockCRC, last);
      outputting := true;
    }

    // ---------- handle_compress ----------

    /** The output half of a turn; done when the output space or the work runs out. */
    method DrainPhase() returns (progress: bool, done: bool)
      requires Valid() && outputting && Expecting() && mode != Idle
      modifies this`delivered, this`outPos, this`availOut, this`outputting, front, back, back.w
      ensures Valid() && HandedOut(old(delivered), old(availOut), delivered, availOut)
      ensures front.inCh == old(front.inCh) && (progress <==> availOut < old(availOut))
      ensures done ==> Stopped()
      ensures !done ==> !outputting && (mode == Running || availInExpect > 0 || front.inCh < NO_CHAR)
    {
      progress := CopyOutput();
      if outPos < |back.w.zbits| { return progress, true; }
      if mode == Finishing && availInExpect == 0 && front.IsEmptyRL() { return progress, true; }
      PrepareNewBlock();
      done := mode == Flushing && availInExpect == 0 && front.IsEmptyRL();
    }

    /** All the input of a flush or finish has come: the pending run and the block go. */
    method FlushBlock()
      requires DataOk() && OutputOk() && AllFull() && Gathering() && front.Ready() && |front.block| <= nblockMAX + 4
      requires (mode == Flushing || mode == Finishing) && availInExpect == 0
      modifies this`outputting, front, back, back.w
      ensures Valid() && outputting && front.inCh == NO_CHAR
    {
      front.FlushRL();
      SendBlock(mode == Finishing);
    }

    /** The input half of a turn; done when the input runs out. */
    method GatherPhase() returns (progress: bool, done: bool, ghost n: nat)
      requires Valid() && !outputting && Expecting() && mode != Idle
      modifies this`nextIn, this`consumed, this`availInExpect, this`outputting, front, back, back.w
      ensures Valid() && Expecting() && (progress <==> n > 0)
      ensures Taken(old(nextIn), old(consumed), nextIn, consumed, n)
      ensures done ==> Stopped()
      ensures !done ==> outputting && (front.inCh == NO_CHAR || n > 0)
    {
      progress, n := CopyInput();
      if mode != Running && availInExpect == 0 {
        FlushBlock();
        done := false;
      } else if |front.block| >= nblockMAX {
        SendBlock(false);
        done := false;
      } else {
        assert |nextIn| == 0;
        done := true;
      }
    }

    /** A turn of the loop that does not end it has taken input, or has sent all of it. */
    ghost predicate AllSent()
      reads this, front
    {
      outputting && front.inCh == NO_CHAR
    }

    /** Where handle_compress may stop. */
    ghost predicate Stopped()
      reads this, front, back, back.w
    {
      && (outputting ==> outPos < |back.w.zbits| || back.closed)
      && (outputting && outPos < |back.w.zbits| ==> availOut == 0)
      && (!outputting && mode == Running ==> nextIn == [])
      && (!outputting && mode != Running ==>
            mode == Flushing && availInExpect == 0 && front.inCh == NO_CHAR && front.block == [])
    }

    /** One turn of handle_compress. */
    method Turn() returns (progress: bool, stop: bool, ghost n: nat)
      requires Valid() && Expecting() && mode != Idle
      modifies this, front, back, back.w
      ensures mode == old(mode) && flushes == old(flushes) && Valid() && Expecting() && (stop ==> Stopped())
      ensures Flowed(old(Now()), Now(), n, progress)
      ensures !stop ==>
              (n > 0 && |nextIn| < |old(nextIn)|) || (n == 0 && AllSent() && !old(AllSent()) && nextIn == old(nextIn))
    {
      var progressIn, progressOut := false, false;
      n := 0;
      if outputting {
        progressOut, stop := DrainPhase();
        if stop { return progressOut, true, 0; }
      }
      progressIn, stop, n := GatherPhase();
      progress := progressIn || progressOut;
    }

    /** handle_compress. */
    method HandleCompress() returns (progress: bool, ghost n: nat)
      requires Valid() && Expecting() && mode != Idle
      modifies this, front, back, back.w
      ensures mode == old(mode) && flushes == old(flushes) && Valid() && Expecting() && Stopped()
      ensures Flowed(old(Now()), Now(), n, progress)
    {
      progress := false;
      n := 0;
      ghost var start := Now();
      NothingFlowed(start);
      while true
        invariant mode == old(mode) && flushes == old(flushes) && Valid() && Expecting()
        invariant Flowed(start, Now(), n, progress)
        decreases |nextIn|, !AllSent()
      {
        ghost var before := Now();
        var more, stop, m := Turn();
        FlowedOn(start, before, Now(), n, m, progress, more);
        progress := progress || more;
        n := n + m;
        if stop { break; }
      }
    }

    // ---------- BZ2_bzCompress ----------

    /** Whether a call with an action and so much input fits what the stream is about: a flush or
        finish that has begun is only gone on with, and with exactly the input it announced. */
    ghost predicate Accepts(action: Action, length: nat)
      reads this`mode, this`availInExpect
    {
      match mode
      case Idle => false
      case Running => true
      case Flushing => action == Flush && availInExpect == length
      case Finishing => action == Finish && availInExpect == length
    }

    /** The output space is used up and there are more bytes to hand out. */
    ghost predicate MoreWaits()
      reads this`outputting, this`availOut, this`outPos, back.w
    {
      outputting && availOut == 0 && outPos < |back.w.zbits|
    }

    /** How a run ends that has used n bytes of input: in an error just when nothing has moved; and it
        stops only when it has taken all the input and handed out all output there is, or has used up the
        output space. */
    ghost predicate Runs(code: Code, n: nat, space: nat)
      reads this, back.w
    {
      && mode == Running
      && (code == RunOk || code == ParamError) && (code == RunOk <==> n > 0 || availOut < space)
      && ((nextIn == [] && !outputting) || MoreWaits())
    }

    /** How a flush ends: once everything consumed has been sent and every byte written has been
        handed out, or for want of output space. */
    ghost predicate Flushes(code: Code)
      reads this, back, back.w
    {
      && (code == RunOk || code == FlushOk)
      && (code == RunOk ==> mode == Running && nextIn == [] && consumed == Data(back.sent)
                            && delivered == back.w.drained + back.w.zbits)
      && (code == FlushOk ==> mode == Flushing && Expecting() && MoreWaits())
    }

    /** The flushing case: done once everything consumed has been sent and handed out. */
    method GoOnFlushing() returns (code: Code, ghost n: nat)
      requires Valid() && mode == Flushing && Expecting()
      modifies this, front, back, back.w
      ensures Valid() && flushes == old(flushes) && Taken(old(nextIn), old(consumed), nextIn, consumed, n)
      ensures HandedOut(old(delivered), old(availOut), delivered, availOut)
      ensures Flushes(code)
    {
      var progress;
      progress, n := HandleCompress();
      if availInExpect > 0 || !front.IsEmptyRL() || outPos < |back.w.zbits| { return FlushOk, n; }
      FlushedAll();
      mode := Running;
      code := RunOk;
    }

    /** A finish that cannot go on: no output has been handed out although some is due. */
    ghost predicate Stuck(space: nat)
      reads this, front, back, back.w
    {
      mode == Finishing && Expecting() && availOut == space && Stopped()
    }

    /** How a finish ends that has used n bytes of input: once the whole stream has been handed out,
        for want of output space, or in an error just when nothing has moved. */
    ghost predicate Finishes(code: Code, n: nat, space: nat)
      reads this, front, back, back.w
    {
      && (code == StreamEnd || code == FinishOk || code == SequenceError)
      && (code == StreamEnd ==> mode == Idle && nextIn == [])
      && (code == FinishOk ==> mode == Finishing && Expecting() && MoreWaits())
      && (code == SequenceError <==> n == 0 && availOut == space)
      && (code == SequenceError ==> Stuck(space))
    }

    /** The finishing case: done once the trailer has been handed out. */
    method GoOnFinishing() returns (code: Code, ghost n: nat)
      requires Valid() && mode == Finishing && Expecting()
      modifies this, front, back, back.w
      ensures Valid() && flushes == old(flushes) && Taken(old(nextIn), old(consumed), nextIn, consumed, n)
      ensures HandedOut(old(delivered), old(availOut), delivered, availOut)
      ensures Finishes(code, n, old(availOut))
    {
      ghost var in0, done0 := nextIn, consumed;
      var progress;
      progress, n := HandleCompress();
      if !progress {
        TakenNone(in0, done0, nextIn, consumed);
        return SequenceError, n;
      }
      if availInExpect > 0 || !front.IsEmptyRL() || outPos < |back.w.zbits| { return FinishOk, n; }
      mode := Idle;
      code := StreamEnd;
    }

    /** The first call of a flush or finish notes how much input belongs to it. */
    method Announce(next: Mode)
      requires Valid() && mode == Running && (next == Flushing || next == Finishing)
      modifies this`availInExpect, this`mode, this`flushes
      ensures Valid() && mode == next && Expecting() && flushes == old(flushes) + (if next == Flushing then 1 else 0)
    {
      flushes := flushes + (if next == Flushing then 1 else 0);
      availInExpect := |nextIn|;
      mode := next;
      assert DataOk();
      assert OutputOk() && AllFull();
      assert if outputting then Draining() else Gathering() && front.Ready() && |front.block| < nblockMAX;
    }

    /** What the call offers; a flush or finish of a running stream begins here. */
    method Enter(action: Action, input: seq<Byte>, space: nat)
      requires Valid()
      modifies this`nextIn, this`availOut, this`availInExpect, this`mode, this`flushes
      ensures Valid() && nextIn == input && availOut == space
      ensures flushes == old(flushes) + (if old(mode) == Running && action == Flush then 1 else 0)
      ensures Accepts(action, |nextIn|) <==> old(Accepts(action, |input|))
      ensures mode == Running <==> old(mode) == Running && action == Run
      ensures old(mode) != Running ==> mode == old(mode) && availInExpect == old(availInExpect)
    {
      nextIn := input;
      availOut := space;
      if mode == Running && action != Run { Announce(if action == Flush then Flushing else Finishing); }
    }

    /** The running case. */
    method GoOnRunning() returns (code: Code, ghost n: nat)
      requires Valid() && mode == Running
      modifies this, front, back, back.w
      ensures Valid() && flushes == old(flushes) && Taken(old(nextIn), old(consumed), nextIn, consumed, n)
      ensures HandedOut(old(delivered), old(availOut), delivered, availOut)
      ensures Runs(code, n, old(availOut))
    {
      var progress;
      progress, n := HandleCompress();
      code := if progress then RunOk else ParamError;
    }

    /** How an accepted call ends that has used n bytes of input. */
    ghost predicate Answered(action: Action, code: Code, n: nat, space: nat)
      reads this, front, back, back.w
    {
      match action
      case Run => Runs(code, n, space)
      case Flush => Flushes(code)
      case Finish => Finishes(code, n, space)
    }

    /** The switch of BZ2_bzCompress; n bytes of input are used. */
    method Switch(action: Action) returns (code: Code, ghost n: nat)
      requires Valid() && (mode == Running ==> action == Run)
      modifies this, front, back, back.w
      ensures Valid() && flushes == old(flushes) && Taken(old(nextIn), old(consumed), nextIn, consumed, n)
      ensures HandedOut(old(delivered), old(availOut), delivered, availOut)
      ensures old(Accepts(action, |nextIn|)) ==> Answered(action, code, n, old(availOut))
      ensures !old(Accepts(action, |nextIn|)) ==>
        code == SequenceError && n == 0 && unchanged(this, front, back, back.w)
    {
      code, n := SequenceError, 0;
      match mode
      case Idle =>
      case Running => code, n := GoOnRunning();
      case Flushing => if action == Flush && availInExpect == |nextIn| { code, n := GoOnFlushing(); }
      case Finishing => if action == Finish && availInExpect == |nextIn| { code, n := GoOnFinishing(); }
    }

    /** One call: action, the input offered and the output space. */
    method BzCompress(action: Action, input: seq<Byte>, space: nat) returns (code: Code, ghost n: nat)
      requires Valid()
      modifies this, front, back, back.w
      ensures Valid() && Taken(input, old(consumed), nextIn, consumed, n)
      ensures flushes == old(flushes) + (if old(mode) == Running && action == Flush then 1 else 0)
      ensures HandedOut(old(delivered), space, delivered, availOut)
      ensures old(Accepts(action, |input|)) ==> Answered(action, code, n, space)
      ensures !old(Accepts(action, |input|)) ==>
        code == SequenceError && n == 0 && nextIn == input && availOut == space
        && mode == old(mode) && availInExpect == old(availInExpect) && consumed == old(consumed)
        && delivered == old(delivered) && unchanged(front, back, back.w) && unchanged(`outputting, `outPos)
    {
      Enter(action, input, space);
      code, n := Switch(action);
    }

    /** A flush that is done has sent everything and is ready for more input. */
    lemma FlushedAll()
      requires Valid() && Stopped() && mode == Flushing && availInExpect == 0 && front.IsEmptyRL()
               && outPos == |back.w.zbits|
      ensures !outputting && consumed == Data(back.sent)
    {
      assert Data(back.sent) + ([] + []) == Data(back.sent);
    }

    /** Only for want of output space can a finish be stuck, and only when all that came in has
        been taken before. */
    lemma StuckForSpace(space: nat)
      requires Valid() && Stuck(space) && delivered == []
      ensures space == 0 && (consumed == [] ==> nextIn == [])
    {
      if outPos == |back.w.zbits| {
        assert back.w.zbits[..outPos] == back.w.zbits && Look(0);
        StreamIsLong(back.sum, back.level, back.sent);
      }
    }

    /** When a finish has used up its output space, the bytes written so far, more than those
        handed out, begin a stream for all the input; and they are no more than any stream of that much
        data may take, with one more block cut short for each flush. */
    lemma SpaceUsedUp()
      requires Valid() && mode == Finishing && Expecting() && MoreWaits()
      ensures var written := back.w.drained + back.w.zbits;
        && |delivered| < |written| && Begins(back.sum, written, back.level, back.sent, consumed + nextIn)
        && |written| <= FlushedBound(|consumed|, flushes)
    {
      var written := back.w.drained + back.w.zbits;
      assert Look(0);
      if back.closed {
        WholeStream(back.sum, written, back.level, back.sent, consumed, nextIn);
      } else {
        FrontOfStream(back.sum, written, back.w.pending, back.level, back.sent, front.Pending(), nextIn);
      }
      WrittenLength(back.sum, back.level, back.sent, back.short, flushes, |consumed|, written);
    }

    lemma FrontOfStream(sum: Checksum, bytes: seq<Byte>, bits: seq<bool>, level: nat, sent: seq<SentBlock>,
                        held: seq<Byte>, more: seq<Byte>)
      requires AllWellSent(sum, level, sent) && BytesBits(bytes) + bits == StreamHead(level, sent)
      ensures Begins(sum, bytes, level, sent, Data(sent) + held + more)
    {
      JoinThree(Data(sent), held, more);
      assert BytesBits(bytes) <= BytesBits(bytes) + bits;
    }

    lemma WholeStream(sum: Checksum, bytes: seq<Byte>, level: nat, sent: seq<SentBlock>, done: seq<Byte>,
                      more: seq<Byte>)
      requires AllWellSent(sum, level, sent) && Ends(sum, bytes, level, sent) && done == Data(sent) + [] && more == []
      ensures Begins(sum, bytes, level, sent, done + more)
    {
      assert done + more == Data(sent);
    }

    lemma WrittenLength(sum: Checksum, level: nat, sent: seq<SentBlock>, short: nat, flushes: nat, n: nat,
                        bytes: seq<Byte>)
      requires AllWellSent(sum, level, sent) && Loaded(level, sent, short) && short <= flushes + 1
               && |Data(sent)| <= n
      requires BytesBits(bytes) <= StreamHead(level, sent) || BytesBits(bytes) == Padded(StreamBits(sum, level, sent))
      ensures |bytes| <= FlushedBound(n, flushes)
    {
      BytesBitsLength(bytes);
      StreamLength(sum, level, sent, short, flushes, n);
      TrailerLength(Combined(sum, sent));
      PaddedLength(StreamBits(sum, level, sent));
    }

    lemma StreamIsLong(sum: Checksum, level: nat, sent: seq<SentBlock>)
      ensures Padded(StreamBits(sum, level, sent)) != []
    {
      MarkedLength(StreamMagic(level), SentBits(sent));
      PaddedLength(StreamBits(sum, level, sent));
    }

    /** When the stream has ended, what was delivered is a whole stream, and its blocks stand
        for exactly the input consumed; before that, blocks, block and pending run do. */
    lemma StreamIsWhole()
      requires Valid()
      ensures mode == Idle ==> BytesBits(delivered) == Padded(StreamBits(back.sum, back.level, back.sent))
                               && AllWellSent(back.sum, back.level, back.sent) && Data(back.sent) == consumed
      ensures consumed == Data(back.sent) + (if outputting then front.Pending() else front.Held())
      ensures AllByEncoder(back.sent)
    {
      if mode == Idle {
        assert back.w.zbits[..outPos] == back.w.zbits && Look(0);
        assert Data(back.sent) + [] == Data(back.sent);
      }
    }

    /** No more blocks are sent than the data fills, but for the last and one for each flush. */
    lemma FewBlocksSent()
      requires Valid()
      ensures 4 * ((100000 * back.level - 19) * (|back.sent| - flushes - 1)) <= 5 * |consumed|
    {
      assert Loaded(back.level, back.sent, back.short) by { assert Look(0); }
      BlocksFill(back.sum, back.level, back.sent, back.short, flushes, |consumed|);
    }
  }
}
