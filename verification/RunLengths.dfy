/** The initial run-length code: four equal bytes are followed by a count of further
    repetitions. The meaning of a coded block, and how the decoders work it off. */
module RunLengths {
  import opened Basics

  function Copies(c: Byte, n: nat): (r: seq<Byte>)
    ensures |r| == n && forall i :: 0 <= i < n ==> r[i] == c
  {
    seq(n, _ => c)
  }

  /** How many equal bytes, up to four, stand at the head of s. */
  function Lead(s: seq<Byte>): (n: nat)
    requires s != []
    ensures 1 <= n <= 4 && n <= |s| && forall i :: 0 <= i < n ==> s[i] == s[0]
    ensures n < 4 && n < |s| ==> s[n] != s[0]
  {
    if |s| < 2 || s[1] != s[0] then 1
    else if |s| < 3 || s[2] != s[0] then 2
    else if |s| < 4 || s[3] != s[0] then 3
    else 4
  }

  /** The length of a run of four and the count c after it. */
  function Counted(c: Byte): (n: nat)
    ensures n == c + 4
  {
    var more: nat := c;
    more + 4
  }

  /** The bytes that a coded block stands for. */
  function Expand(s: seq<Byte>): seq<Byte> {
    if s == [] then []
    else
      var n := Lead(s);
      if n < 4 then Copies(s[0], n) + Expand(s[n..])
      else if |s| == 4 then Copies(s[0], 4)
      else Copies(s[0], Counted(s[4])) + Expand(s[5..])
  }

  /** No run of four lacks its count. */
  predicate Complete(s: seq<Byte>) {
    s == [] ||
    var n := Lead(s);
    if n < 4 then Complete(s[n..]) else |s| > 4 && Complete(s[5..])
  }

  // ---------- building a block up ----------

  /** What add_pair_to_block appends for a run. */
  function Encoded(c: Byte, n: nat): seq<Byte>
    requires n <= 255
  {
    if n < 4 then Copies(c, n) else Copies(c, 4) + [n - 4]
  }

  /** The byte of a last run shorter than four, which a further such byte would lengthen. */
  function OpenByte(s: seq<Byte>): (c: int)
    ensures -1 <= c < 256
  {
    if s == [] then -1
    else
      var n := Lead(s);
      if n < 4 then (if n == |s| then s[0] else OpenByte(s[n..]))
      else if |s| == 4 then -1
      else OpenByte(s[5..])
  }

  lemma EncodedAlone(c: Byte, n: nat)
    requires 1 <= n <= 255
    ensures var e := Encoded(c, n);
      Expand(e) == Copies(c, n) && Complete(e) && OpenByte(e) == if n < 4 then c else -1
  {
    var e := Encoded(c, n);
    if n < 4 {
      assert Lead(e) == n && e[n..] == [];
      assert Copies(c, n) + [] == Copies(c, n);
    } else {
      assert Lead(e) == 4 && e[5..] == [];
      assert Counted(e[4]) == n;
      assert Copies(c, n) + [] == Copies(c, n);
    }
  }

  lemma LeadStays(s: seq<Byte>, e: seq<Byte>)
    requires s != [] && (Lead(s) < |s| || Lead(s) == 4 || (e != [] && e[0] != s[0]))
    ensures Lead(s + e) == Lead(s)
  {
    var t := s + e;
    forall i | 0 <= i < |s| ensures t[i] == s[i] {}
    if |s| < |t| { assert t[|s|] == e[0]; }
  }

  /** The bytes of the first run, and how many bytes of the block it takes. */
  function FirstRun(s: seq<Byte>): seq<Byte>
    requires s != [] && (Lead(s) == 4 ==> |s| > 4)
  {
    Copies(s[0], if Lead(s) < 4 then Lead(s) else Counted(s[4]))
  }

  function RunWidth(s: seq<Byte>): nat
    requires s != []
  {
    if Lead(s) < 4 then Lead(s) else 5
  }

  lemma PeelRun(s: seq<Byte>, k: nat)
    requires s != [] && k == RunWidth(s) <= |s|
    ensures Expand(s) == FirstRun(s) + Expand(s[k..]) && Complete(s) == Complete(s[k..])
    ensures OpenByte(s) == if k == |s| && k < 4 then s[0] else OpenByte(s[k..])
  {}

  lemma SameFirstRun(s: seq<Byte>, e: seq<Byte>, k: nat)
    requires s != [] && k == RunWidth(s) <= |s|
    requires e != [] && (Lead(s) < |s| || e[0] != s[0])
    ensures RunWidth(s + e) == k && FirstRun(s + e) == FirstRun(s) && (s + e)[k..] == s[k..] + e
  {
    LeadStays(s, e);
  }

  /** Appending a run that does not lengthen the last one appends its bytes to the meaning. */
  lemma {:induction false} AppendRun(s: seq<Byte>, c: Byte, n: nat)
    requires 1 <= n <= 255 && Complete(s) && OpenByte(s) != c
    ensures var t := s + Encoded(c, n);
      Expand(t) == Expand(s) + Copies(c, n) && Complete(t) && OpenByte(t) == if n < 4 then c else -1
    decreases |s|
  {
    var e := Encoded(c, n);
    EncodedAlone(c, n);
    if s == [] {
      assert s + e == e && [] + Copies(c, n) == Copies(c, n);
    } else {
      var k := RunWidth(s);
      var rest := s[k..];
      PeelRun(s, k);
      SameFirstRun(s, e, k);
      PeelRun(s + e, k);
      AppendRun(rest, c, n);
      ConcatAssoc(FirstRun(s), Expand(rest), Copies(c, n));
    }
  }

  // ---------- how the encoder cuts runs ----------

  /** The first run, counted up to max, is n bytes long. */
  ghost predicate IsRun(s: seq<Byte>, max: nat, n: nat) {
    && 1 <= n <= max && n <= |s| && (forall i :: 0 <= i < n ==> s[i] == s[0])
    && (n < max && n < |s| ==> s[n] != s[0])
  }

  lemma OneRun(s: seq<Byte>, max: nat, n: nat, m: nat)
    requires IsRun(s, max, n) && IsRun(s, max, m)
    ensures n == m
  {}

  /** The length of the first run, counted up to max. */
  function RunLength(s: seq<Byte>, max: nat): (n: nat)
    requires s != [] && max >= 1
    ensures IsRun(s, max, n)
    decreases |s|, max
  {
    if |s| > 1 && max > 1 && s[1] == s[0] then 1 + RunLength(s[1..], max - 1) else 1
  }

  /** The run-length code of some bytes: runs as long as they are, but not above 255. */
  function RunCode(s: seq<Byte>): seq<Byte>
    decreases |s|
  {
    if s == [] then [] else
      var n := RunLength(s, 255);
      Encoded(s[0], n) + RunCode(s[n..])
  }

  /** A block is the run-length code of what it stands for. */
  ghost predicate RunsCoded(block: seq<Byte>) {
    forall i: nat {:trigger Look(i)} :: Look(i) ==> block == RunCode(Expand(block))
  }

  /** A byte c after s begins a new run. */
  predicate Breaks(s: seq<Byte>, c: Byte)
    decreases |s|, c
  {
    s == [] ||
    var n := RunLength(s, 255);
    if n == |s| then s[0] != c || n == 255 else Breaks(s[n..], c)
  }

  lemma StillRun(s: seq<Byte>, t: seq<Byte>, n: nat)
    requires s != [] && t != [] && IsRun(s, 255, n) && (n < |s| || t[0] != s[0] || n == 255)
    ensures IsRun(s + t, 255, n)
  {
    var u := s + t;
    assert u[|s|] == t[0];
  }

  lemma RunStays(s: seq<Byte>, t: seq<Byte>, n: nat)
    requires s != [] && t != [] && n == RunLength(s, 255) && (n < |s| || t[0] != s[0] || n == 255)
    ensures RunLength(s + t, 255) == n && (s + t)[n..] == s[n..] + t
  {
    StillRun(s, t, n);
    OneRun(s + t, 255, n, RunLength(s + t, 255));
  }

  lemma FirstCut(s: seq<Byte>, n: nat, rest: seq<Byte>)
    requires s != [] && n == RunLength(s, 255) && rest == s[n..]
    ensures RunCode(s) == Encoded(s[0], n) + RunCode(rest)
    ensures forall c: Byte :: Breaks(s, c) == if n == |s| then s[0] != c || n == 255 else Breaks(rest, c)
  {}

  /** Appending t to s appends its code: what CodeSplits shows. */
  ghost predicate Splits(s: seq<Byte>, t: seq<Byte>, u: seq<Byte>) {
    forall i: nat {:trigger Look(i)} :: Look(i) ==> RunCode(u) == RunCode(s) + RunCode(t)
  }

  lemma NothingSplits(s: seq<Byte>, t: seq<Byte>)
    requires s == [] || t == []
    ensures Splits(s, t, s + t)
  {
    var code := RunCode(if s == [] then t else s);
    assert [] + code == code && code + [] == code;
    assert s + t == if s == [] then t else s;
  }

  lemma CutTogether(s: seq<Byte>, t: seq<Byte>, n: nat, rest: seq<Byte>)
    requires s != [] && t != [] && n == RunLength(s, 255) && rest == s[n..] && Breaks(s, t[0])
    requires Splits(rest, t, rest + t)
    ensures Splits(s, t, s + t)
  {
    assert Look(0);
    FirstCut(s, n, rest);
    RunStays(s, t, n);
    FirstCut(s + t, n, rest + t);
    ConcatAssoc(Encoded(s[0], n), RunCode(rest), RunCode(t));
  }

  lemma {:induction false} CodeSplits(s: seq<Byte>, t: seq<Byte>)
    requires t != [] ==> Breaks(s, t[0])
    ensures Splits(s, t, s + t)
    decreases |s|
  {
    if s == [] || t == [] {
      NothingSplits(s, t);
    } else {
      var n := RunLength(s, 255);
      var rest := s[n..];
      FirstCut(s, n, rest);
      CodeSplits(rest, t);
      CutTogether(s, t, n, rest);
    }
  }

  lemma RunOfCopies(c: Byte, n: nat)
    requires 1 <= n <= 255
    ensures RunLength(Copies(c, n), 255) == n && RunCode(Copies(c, n)) == Encoded(c, n)
  {
    assert Copies(c, n)[n..] == [] && Encoded(c, n) + [] == Encoded(c, n);
  }

  /** After one more run of n copies of c another byte begins a new run, and so does c if n is 255. */
  lemma {:induction false} BreaksAfter(s: seq<Byte>, c: Byte, n: nat, x: Byte)
    requires Breaks(s, c) && 1 <= n <= 255 && (x != c || n == 255)
    ensures Breaks(s + Copies(c, n), x)
    decreases |s|
  {
    if s == [] {
      assert s + Copies(c, n) == Copies(c, n);
      RunOfCopies(c, n);
    } else {
      var m := RunLength(s, 255);
      RunStays(s, Copies(c, n), m);
      BreaksAfter(s[m..], c, n, x);
    }
  }

  lemma OneRunMore(s: seq<Byte>, c: Byte, n: nat)
    requires Breaks(s, c) && 1 <= n <= 255
    ensures RunCode(s + Copies(c, n)) == RunCode(s) + Encoded(c, n)
    ensures forall x: Byte :: x != c || n == 255 ==> Breaks(s + Copies(c, n), x)
  {
    CodeSplits(s, Copies(c, n));
    assert Look(0);
    RunOfCopies(c, n);
    forall x: Byte | x != c || n == 255 ensures Breaks(s + Copies(c, n), x) { BreaksAfter(s, c, n, x); }
  }

  /** Run-length coding is undone by expansion. */
  lemma {:induction false} RunCodeRoundTrip(s: seq<Byte>)
    ensures Expand(RunCode(s)) == s && Complete(RunCode(s))
    decreases |s|
  {
    if s != [] {
      var n := RunLength(s, 255);
      var rest := RunCode(s[n..]);
      RunCodeRoundTrip(s[n..]);
      if n < |s| { RunCodeStarts(s[n..]); }
      PrependRun(s[0], n, rest);
      RunThenRest(s, n);
    }
  }

  lemma RunThenRest(s: seq<Byte>, n: nat)
    requires s != [] && n == RunLength(s, 255)
    ensures Copies(s[0], n) + s[n..] == s
  {
    assert Copies(s[0], n) == s[..n];
  }

  lemma RunCodeStarts(s: seq<Byte>)
    requires s != []
    ensures RunCode(s) != [] && RunCode(s)[0] == s[0]
  {
    assert Encoded(s[0], RunLength(s, 255))[0] == s[0];
  }

  lemma PrependRun(c: Byte, n: nat, rest: seq<Byte>)
    requires 1 <= n <= 255 && (rest != [] ==> rest[0] != c || n == 255)
    ensures Expand(Encoded(c, n) + rest) == Copies(c, n) + Expand(rest)
    ensures Complete(Encoded(c, n) + rest) == Complete(rest)
  {
    var t, k: nat := Encoded(c, n) + rest, if n < 4 then n else 5;
    assert forall i :: 0 <= i < (if n < 4 then n else 4) ==> t[i] == c;
    if n < 4 && rest != [] { assert t[n] == rest[0]; }
    assert Lead(t) == if n < 4 then n else 4;
    assert t[k..] == rest;
    PeelRun(t, k);
  }

  // ---------- working a block off ----------

  /** What has been put out, what remains of the current run and the rest of the block
      together are the whole. */
  ghost predicate Streaming(s: seq<Byte>, out: seq<Byte>, ch: Byte, len: nat, u: nat) {
    && u <= |s| && out + Copies(ch, len) + Expand(s[u..]) == Expand(s)
    && (Complete(s) <==> Complete(s[u..]))
  }

  lemma StartStreaming(s: seq<Byte>, ch: Byte)
    ensures Streaming(s, [], ch, 0, 0)
  {
    assert s[0..] == s;
    assert [] + Copies(ch, 0) + Expand(s) == Expand(s);
  }

  /** One byte of the run is put out. */
  lemma PutOut(s: seq<Byte>, out: seq<Byte>, ch: Byte, len: nat, u: nat)
    requires Streaming(s, out, ch, len, u) && len > 0
    ensures Streaming(s, out + [ch], ch, len - 1, u)
  {
    assert out + Copies(ch, len) == out + [ch] + Copies(ch, len - 1);
  }

  /** With the run put out, a short run is taken up. */
  lemma TakeShort(s: seq<Byte>, out: seq<Byte>, ch: Byte, u: nat, n: nat)
    requires Streaming(s, out, ch, 0, u) && u < |s| && n == Lead(s[u..]) < 4
    ensures Streaming(s, out, s[u], n, u + n)
  {
    var t := s[u..];
    assert t[n..] == s[u + n..];
    assert out + Copies(ch, 0) == out;
    assert out + (Copies(s[u], n) + Expand(t[n..])) == out + Copies(s[u], n) + Expand(t[n..]);
  }

  /** A run of four is taken up together with its count. */
  lemma TakeLong(s: seq<Byte>, out: seq<Byte>, ch: Byte, u: nat)
    requires Streaming(s, out, ch, 0, u) && u < |s| && Lead(s[u..]) == 4
    ensures u + 4 < |s| ==> Streaming(s, out, s[u], Counted(s[u + 4]), u + 5)
    ensures u + 4 == |s| ==> !Complete(s)
  {
    var t := s[u..];
    if u + 4 < |s| {
      assert t[5..] == s[u + 5..];
      assert out + Copies(ch, 0) == out;
      var m := Counted(s[u + 4]);
      assert out + (Copies(s[u], m) + Expand(t[5..])) == out + Copies(s[u], m) + Expand(t[5..]);
    }
  }

  lemma StreamedAll(s: seq<Byte>, out: seq<Byte>, ch: Byte)
    requires Streaming(s, out, ch, 0, |s|)
    ensures out == Expand(s) && Complete(s)
  {
    assert s[|s|..] == [];
    assert out + Copies(ch, 0) + [] == out;
  }

  // ---------- checksums ----------

  /** A 32-bit unsigned word. */
  type Word = x: nat | x < 0x1_0000_0000

  /** How checksums are updated byte by byte, finished, and combined over blocks. Nothing
      below depends on which one is used; Crc.BZIP2 is the source's. */
  datatype Checksum = Checksum(update: (Word, Byte) -> Word, finish: Word -> Word, combine: (Word, Word) -> Word)

  /** The register after some bytes; it starts with all ones. */
  function CrcAfter(sum: Checksum, s: seq<Byte>): Word
    decreases |s|, sum
  {
    if s == [] then 0xffff_ffff else sum.update(CrcAfter(sum, s[..|s| - 1]), s[|s| - 1])
  }

  function FinalCrc(sum: Checksum, s: seq<Byte>): Word { sum.finish(CrcAfter(sum, s)) }

  lemma CrcOneMore(sum: Checksum, s: seq<Byte>, c: Byte)
    ensures CrcAfter(sum, s + [c]) == sum.update(CrcAfter(sum, s), c)
  {
    assert (s + [c])[..|s|] == s;
  }
}
