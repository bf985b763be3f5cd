/** The front end of bzlib.c's compressor: runs of input bytes gathered and appended to
    the block in run-length form. */
module BlockBuilder {
  import opened Basics
  import opened RunLengths

  const NO_CHAR: nat := 256

  lemma PairBytes(c: Byte, n: nat)
    requires 1 <= n <= 255
    ensures n == 1 ==> Encoded(c, n) == [c]
    ensures n == 2 ==> Encoded(c, n) == [c, c]
    ensures n == 3 ==> Encoded(c, n) == [c, c, c]
    ensures n >= 4 ==> Encoded(c, n) == [c, c, c, c, n - 4]
  {}

  /** inUse marks exactly the block's bytes. */
  ghost predicate Marks(inUse: seq<bool>, block: seq<Byte>) {
    |inUse| == 256 && forall c: Byte :: inUse[c] <==> c in block
  }

  lemma MarksKept(u: seq<bool>, v: seq<bool>, b: seq<Byte>, c: Byte, n: nat)
    requires Marks(u, b) && 1 <= n <= 255
    requires v == if n < 4 then u[c := true] else u[c := true][n - 4 := true]
    ensures Marks(v, b + Encoded(c, n))
  {
    var e := Encoded(c, n);
    assert e[0] == c && (n >= 4 ==> e[4] == n - 4);
    forall x: Byte ensures v[x] <==> x in b + e {}
  }

  /** The fields of EState that the front end works on. */
  class Builder {
    const sum: Checksum
    var block: seq<Byte>
    var inUse: seq<bool>
    var blockCRC: Word
    var inCh: nat
    var inLen: nat

    ghost predicate Valid()
      reads this
    {
      && (forall i: nat {:trigger Look(i)} :: Look(i) ==> Coded() && Parted())
      && inCh <= NO_CHAR && (inCh == NO_CHAR ==> inLen == 0)
      && (inCh < NO_CHAR ==> 1 <= inLen <= 255 && OpenByte(block) != inCh)
    }

    /** The block is the run-length code of what it stands for, in whole runs, with its bytes marked
        and its checksum kept. */
    ghost predicate Coded()
      reads this
    {
      && Marks(inUse, block) && Complete(block) && blockCRC == CrcAfter(sum, Expand(block))
      && block == RunCode(Expand(block))
    }

    /** The pending run is not part of the block's last one. */
    ghost predicate Parted()
      reads this
    {
      inCh < NO_CHAR ==> Breaks(Expand(block), inCh)
    }

    lemma CodedNow()
      requires Valid()
      ensures Coded() && Parted()
    {
      assert Look(0);
    }

    /** What the block compressor asks for. */
    lemma CanBeSent()
      requires Valid()
      ensures Marks(inUse, block) && Complete(block) && blockCRC == CrcAfter(sum, Expand(block)) && RunsCoded(block)
    {
      CodedNow();
    }

    /** Ready for input: either a run is pending or the block is empty. */
    ghost predicate Ready()
      reads this
    {
      Valid() && (inCh == NO_CHAR ==> block == [])
    }

    function Pending(): (r: seq<Byte>)
      reads this
    {
      if inCh < NO_CHAR then Copies(inCh, inLen) else []
    }

    /** The input bytes that the block and the pending run stand for. */
    function Held(): seq<Byte>
      reads this
    {
      Expand(block) + Pending()
    }

    /** isempty_RL. */
    predicate IsEmptyRL()
      reads this
    {
      !(inCh < NO_CHAR && inLen > 0)
    }

    constructor (sum: Checksum)
      ensures this.sum == sum && Ready() && Held() == [] && block == [] && inCh == NO_CHAR
    {
      this.sum := sum;
      block := [];
      inUse := seq(256, _ => false);
      blockCRC := 0xffff_ffff;
      inCh := NO_CHAR;
      inLen := 0;
    }

    /** prepare_new_block; a pending run is carried over. */
    method PrepareNewBlock()
      requires Valid()
      modifies this
      ensures Ready() && block == [] && inCh == old(inCh) && inLen == old(inLen) && Held() == old(Pending())
    {
      block := [];
      inUse := seq(256, _ => false);
      blockCRC := 0xffff_ffff;
      assert Expand([]) + Pending() == Pending() && RunCode(Expand([])) == [];
    }

    /** The block's checksum takes in a run. */
    method UpdateRun(c: Byte, n: nat, ghost s: seq<Byte>)
      requires blockCRC == CrcAfter(sum, s)
      modifies this`blockCRC
      ensures blockCRC == CrcAfter(sum, s + Copies(c, n))
    {
      var i := 0;
      assert s + Copies(c, 0) == s;
      while i < n
        invariant 0 <= i <= n && blockCRC == CrcAfter(sum, s + Copies(c, i))
      {
        CrcOneMore(sum, s + Copies(c, i), c);
        assert s + Copies(c, i) + [c] == s + Copies(c, i + 1);
        blockCRC := sum.update(blockCRC, c);
        i := i + 1;
      }
    }

    /** The switch of add_pair_to_block. */
    method AppendPair()
      requires Marks(inUse, block) && inCh < NO_CHAR && 1 <= inLen <= 255
      modifies this`block, this`inUse
      ensures block == old(block) + Encoded(inCh, inLen) && Marks(inUse, block)
    {
      ghost var b, u := block, inUse;
      inUse := inUse[inCh := true];
      if inLen == 1 {
        block := block + [inCh];
      } else if inLen == 2 {
        block := block + [inCh, inCh];
      } else if inLen == 3 {
        block := block + [inCh, inCh, inCh];
      } else {
        inUse := inUse[inLen - 4 := true];
        block := block + [inCh, inCh, inCh, inCh, inLen - 4];
      }
      PairBytes(inCh, inLen);
      MarksKept(u, inUse, b, inCh, inLen);
    }

    /** add_pair_to_block: appends the pending run, which stays noted as pending. */
    method AddPairToBlock()
      requires Valid() && inCh < NO_CHAR
      modifies this`block, this`inUse, this`blockCRC
      ensures block == old(block) + Encoded(inCh, inLen) && Expand(block) == old(Held())
      ensures OpenByte(block) == (if inLen < 4 then inCh else -1)
      ensures Coded() && forall x: Byte :: x != inCh || inLen == 255 ==> Breaks(Expand(block), x)
    {
      CodedNow();
      AppendRun(block, inCh, inLen);
      OneRunMore(Expand(block), inCh, inLen);
      UpdateRun(inCh, inLen, Expand(block));
      AppendPair();
    }

    /** The common case of ADD_CHAR_TO_BLOCK: a single byte goes straight into the block. */
    method AddSingle()
      requires Valid() && inCh < NO_CHAR && inLen == 1
      modifies this`block, this`inUse, this`blockCRC
      ensures block == old(block) + Encoded(inCh, 1) && Expand(block) == old(Held())
      ensures OpenByte(block) == inCh && Coded() && forall x: Byte :: x != inCh ==> Breaks(Expand(block), x)
    {
      CodedNow();
      AppendRun(block, inCh, 1);
      OneRunMore(Expand(block), inCh, 1);
      MarksKept(inUse, inUse[inCh := true], block, inCh, 1);
      PairBytes(inCh, 1);
      CrcOneMore(sum, Expand(block), inCh);
      blockCRC := sum.update(blockCRC, inCh);
      inUse := inUse[inCh := true];
      block := block + [inCh];
    }

    /** The pending run goes into the block, and c begins the next. */
    method BeginRun(c: Byte)
      requires Ready() && (c != inCh || inLen == 255)
      modifies this
      ensures Ready() && inCh == c && Held() == old(Held()) + [c] && |block| <= |old(block)| + 5
    {
      assert Expand(block) + [] == Expand(block);
      assert Copies(c, 1) == [c];
      if inCh < NO_CHAR { AddPairToBlock(); }
      inCh := c;
      inLen := 1;
    }

    /** ADD_CHAR_TO_BLOCK. */
    method AddChar(c: Byte)
      requires Ready()
      modifies this
      ensures Ready() && inCh == c && Held() == old(Held()) + [c] && |block| <= |old(block)| + 5
    {
      if c != inCh && inLen == 1 {
        AddSingle();
        inCh := c;
        assert Copies(c, 1) == [c];
      } else if c != inCh || inLen == 255 {
        BeginRun(c);
      } else {
        LongerRun(Expand(block), c, inLen);
        inLen := inLen + 1;
      }
    }

    lemma LongerRun(s: seq<Byte>, c: Byte, n: nat)
      ensures s + Copies(c, n + 1) == s + Copies(c, n) + [c]
    {
      assert Copies(c, n + 1) == Copies(c, n) + [c];
    }

    /** flush_RL. */
    method FlushRL()
      requires Ready()
      modifies this
      ensures Valid() && inCh == NO_CHAR && Expand(block) == Held() == old(Held()) && |block| <= |old(block)| + 5
    {
      assert Expand(block) + [] == Expand(block);
      if inCh < NO_CHAR { AddPairToBlock(); }
      inCh := NO_CHAR;
      inLen := 0;
      assert Expand(block) + [] == Expand(block);
    }
  }
}
