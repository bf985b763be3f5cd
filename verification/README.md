# bzip2's codec, modelled and proved

A Dafny model of the bzip2 library that the repository bundles under `dep/bzip2`: the compressor and the
decompressor behind `BZ2_bzCompress`, `BZ2_bzDecompress` and the two buffer-to-buffer calls. The main results are
`BuffToBuff.RoundTrip` and `BuffToBuff.StreamedRoundTrip`: for every input, block size, work factor and decoder,
compression succeeds given enough room, and decompressing what it made gives the input back, in one call or in any
sequence of calls that offer input and output space in pieces of any size.

The chain behind it, from the outside in:

- **The streaming state machines** (`Compressor`, `Decompressor`, `StreamWriter`, `BlockBuilder`, `Unrle`) are
  classes whose methods are the calls of `bzlib.c`. What holds over every sequence of calls is stated about
  the bytes consumed and delivered, whatever input and output space each call offers.
- **The block format** (`Block`, `BlockFormat`, `SymbolFormat`, `SendMtf`, `Decompress`, `ReadBlock`, `BlockReader`,
  `Bits`, `BitStream`) is given once, as a parser over bit strings. The writer's methods produce bit strings that
  parse back. The reader's methods stop wherever the input at hand ends and go on from there: every place they can
  stop at has a function that says what parsing from it comes to, and each method keeps its value, on every input,
  up to one kind of header (see Findings).
- **What a decoder makes of any bits** (`DecodedStream`): blocks with right checksums, then an end, an error, or
  too few bits. `Decompressor.Decoder` answers by it; on the bits of a stream sent nothing but its blocks follows.
- **Block sorting**: `FallbackSort` (prefix doubling) and `MainSort` (radix sort, depth-limited quicksort,
  copying of sorted buckets) both end with all rotations in order; `Inversion` and `BurrowsWheeler` undo it. What the
  main sorter takes off its budget is bounded from above and, for equal rotations, from below.
- **Huffman coding** (`Huffman`, `HuffmanTables`, `CodeTree`, `CheapestCode`, `CodeLengths`, `Heap`,
  `TableChoice`): code lengths are complete, cheapest and as even as the cheapest can be, codes are prefix free, the decoder's tables decode them.
- **The checksum** (`Crc`, over `Polynomials`): the register is the remainder of division by a polynomial, stated on the
  bits of the data and not on the table, so that one changed byte is always found.
- **Numbers on the wire** (`Wire`, `Sample`): the first bytes of streams and one whole stream are written out.
- **Sizes** (`BlockSizes`, `Thrift`, `Sizes`): because the tables chosen are the cheapest there are for what they
  code, the symbols of a block take at most 9.4 bits each; this bounds a block and a stream.

Methods over arrays and classes follow the C code's loops and fields; what they compute is given by functions and
predicates on sequences, and the lemmas are about these. A ghost parameter or field never influences a result; the
decoder's ghost field `total` is all the input that will ever be offered, so that a statement for every `total` is one
for every way of splitting it.
The checksum is a parameter of the stream proofs; `Crc.BZIP2` is the one bzip2 uses.

## Model

| member | source | states |
|---|---|---|
| BuffToBuff.RoundTrip | dep/bzip2/bzlib.c:1247-1348 | with parameters in range and room for `8n/5 + 8300` bytes in the middle, compression of n bytes succeeds; whenever it succeeds, decompression by either decoder gives the input back, or reports that it does not fit exactly when it does not |
| BuffToBuff.Bzip2RoundTrip | dep/bzip2/bzlib.c:1247-1348 | the same with bzip2's own checksum, which `Crc.CrcIsRemainder` says what it is |
| BuffToBuff.BuffToBuffCompress | dep/bzip2/bzlib.c:1247-1295 | a parameter error exactly for parameters out of range; a sequence error exactly when there is neither input nor output space; success means the output is a whole stream for the input, beginning with 42 5a 68 and the level's digit, and then 31 41 59 26 53 59, or without input 17 72 45 38 50 90 and four zeros; "output buffer full" means that more bytes than there was room for had already been written, that they begin a stream for the input, and that they are at most `8n/5 + 8300` |
| BuffToBuff.NoneShorter | dep/bzip2/bzlib.c:1285-1290 | when the output buffer was full, no stream for the data that begins with the same blocks would have fitted |
| BuffToBuff.BuffToBuffDecompress | dep/bzip2/bzlib.c:1299-1348 | on any input at all the answer is the one right answer (`Answers.IsAnswer`): Ok only for a stream whose every checksum matches, with exactly its data; a data error for a section that is wrong, a body that is, a block that is not whole runs or a checksum that does not match, each as soon as the room lets the decoder come to it; for too few bits "unexpected end" if room is left after the data seen, "output buffer full" if none is, or if a block is more than the room; a magic error exactly for bytes that do not begin with (a part of) 42 5a 68 and a digit 1 to 9; a data error for bytes 4 to 9 that begin neither magic number |
| BuffToBuff.AnswerToStream | dep/bzip2/bzlib.c:1299-1348 | on a whole stream the only right answer, of either decoder, is its data if that fits, and "output buffer full" otherwise |
| Answers.OneAnswer | dep/bzip2/bzlib.c:1299-1348 | for any bits, any room and either decoder there is one right answer |
| Answers.DecodersDiffer | dep/bzip2/bzlib.c:536-804 | the two decoders have the same right answer if and only if not: the bits come to a block whose last run of four lacks its count, and there is room for exactly what the block stands for with the byte after it taken for the count; then the fast one answers a data error and the small one a full buffer |
| Wire.StreamBytes | dep/bzip2/compress.c:621-663 | the first bytes of every stream that the encoder makes, written out |
| Wire.AnswerToFirstBytes | dep/bzip2/decompress.c:195-235 | what the decoder answers to bytes that begin otherwise |
| Sample.SampleIsRead | dep/bzip2/decompress.c:195-606 | a known answer: the 41 bytes of the stream for "aaaaab" at level 9, written out but for the two checksums, are answered with these six bytes; with `Sample.BlockIsWellSent` this ties every number of the format to bytes |
| Sample.StreamBitsAre | dep/bzip2/compress.c:602-667 | those 41 bytes are the bits of the stream that sends the block |
| BuffToBuff.StreamedRoundTrip | dep/bzip2/bzlib.c:808-858 | a finished encoder's output, decompressed by any calls: no call makes an error, what is put out is always a beginning of the bytes the encoder took in, and at the end all of them |
| Compressor.Encoder.BzCompress | dep/bzip2/bzlib.c:407-464 | one call, on any state, action, input and output space: input is consumed in order and output only appended. A run takes all input and hands out all there is, or uses up the space; it is answered by a parameter error just when nothing has moved. A flush is done exactly when all that was consumed has been sent and every byte written handed out, and waits only for want of space. A finish, at its first call or a later one, ends, waits for want of space, or is answered by a sequence error just when nothing has moved. A call that does not fit what the stream is about is refused and changes nothing |
| Compressor.Encoder.StreamIsWhole | dep/bzip2/bzlib.c:361-403 | over every run: when the stream has ended the delivered bytes are a whole padded stream whose blocks stand for exactly the bytes consumed; before that the blocks sent, the block in hand and the pending run do; every block sent is sent the encoder's way (`StreamWriter.ByEncoder`): runs as long as they are, a map of just the bytes there are, tables and selectors from four rounds |
| Compressor.Encoder.HandleCompress | dep/bzip2/bzlib.c:361-403 | the loop ends, keeps the invariant, and stops only when output space or input has run out or a flush or finish is done |
| Compressor.Encoder.SpaceUsedUp | dep/bzip2/bzlib.c:1285-1288 | what has been written when a finish ran out of space begins a stream for all the input, and is no longer than the bound with one more block cut short for each flush |
| Compressor.Encoder.FewBlocksSent | dep/bzip2/bzlib.c:264-403 | over every run: no more blocks are sent than the data fills, at 100000 * level - 19 bytes each and five bytes for four at worst, but for the last and one for each flush |
| Compressor.Encoder.StuckForSpace | dep/bzip2/bzlib.c:448-461 | a finish on a fresh encoder makes no progress only with no output space and all input taken |
| BlockBuilder.Builder.AddChar | dep/bzip2/bzlib.c:264-284 | the block and the pending run stand for the input bytes, one more after each call; the block stays the run-length code of what it stands for (`RunLengths.RunCode`), with its bytes marked and its checksum kept; it grows by at most five bytes |
| BlockBuilder.Builder.AddPairToBlock | dep/bzip2/bzlib.c:216-247 | the pending run is appended in coded form and read back by the run-length expansion |
| BlockBuilder.Builder.FlushRL | dep/bzip2/bzlib.c:252-257 | after a flush the block alone stands for everything held |
| RunLengths.AppendRun | dep/bzip2/bzlib.c:216-247 | appending a coded run to complete blocks expands to the old bytes and the run, unless the block ends in an open run of the same byte |
| RunLengths.RunCodeRoundTrip | dep/bzip2/bzlib.c:216-284 | coding runs as long as they are, up to 255, is undone by the expansion |
| RunLengths.OneRunMore | dep/bzip2/bzlib.c:264-284 | the code grows by the run appended wherever a new run begins: at another byte, or after 255 of the same |
| StreamWriter.Writer.Compress | dep/bzip2/compress.c:602-667 | the block, and no other, is sent, the encoder's way, the stream header before the first and the trailer after the last are written; the combined checksum follows; the bytes waiting fit the room behind the block in arr2 |
| Stream.SentIsRecovered | dep/bzip2/decompress.c:222-577 | a sent block's bits, whatever follows them, parse to its header and last column, and walking from origPtr gives the block back |
| BlockSizes.BlockLength | dep/bzip2/compress.c:239-667 | no block of n bytes, however it is coded, takes more than `BlockBound(n)` bits |
| Thrift.SymbolsCost | dep/bzip2/compress.c:319-458 | the symbols of a block, coded with the tables and selectors chosen for it, take at most 9.4 bits each, and as much for each entry of six tables |
| Thrift.RowCost | dep/bzip2/huffman.c:63-148 | a table built for some frequencies, however often they were rescaled, takes at most 9.4 bits for each unit of weight |
| Thrift.CostIsTallied | dep/bzip2/compress.c:405-432 | the bits of all symbols in their order and the costs of all tables for the frequencies tallied under them are the same number |
| Sizes.ZbitsFit | dep/bzip2/compress.c:619 | the inequality behind putting zbits behind the block |
| Sizes.StreamLength | dep/bzip2/bzlib.c:1247-1295 | a stream that the encoder makes of n bytes, all blocks but one full, takes at most `8n/5 + 8300` bytes |
| Sizes.ExpandedLength | dep/bzip2/bzlib.c:216-247 | run-length coding takes at most five bytes for four |
| BlockSort.BlockSort | dep/bzip2/blocksort.c:1031-1089 | for every non-empty block of up to 900000 bytes and every work factor the result is all rotations in order and the place of the unrotated block (assertion 1003); blocks below 10000 bytes are left to the fallback sorter, others are the main sorter's if the work factor's budget covers what sorting can cost or no 22 bytes occur twice, and the fallback's if it does not cover the comparisons of equal rotations |
| BlockSort.SortByMain | dep/bzip2/blocksort.c:1070-1081 | the main sorter's order unless the budget runs out: nothing is taken off it on a block in which no 22 bytes occur twice, and no work factor is enough on 265 or more copies of a shorter block |
| GivingUp.RepetitionIsTooMuch | dep/bzip2/blocksort.c:751-1011 | on so many copies the comparisons of equal rotations alone take more than 33 times the block's size |
| SorterChoice.SameColumn | dep/bzip2/blocksort.c:1031-1089 | whatever sorter made the order, the last column is the same |
| SorterChoice.OriginIsForced | dep/bzip2/blocksort.c:1056-1062 | the row of the unrotated block is the same in every order of the rotations if and only if the block is not a shorter one over and over |
| SorterChoice.SentAlike | dep/bzip2/compress.c:602-653 | so whichever sorter was used, a block is sent with the same checksum, map and symbols, and with the same origPtr unless it repeats a shorter one |
| FallbackSort.FallbackSort | dep/bzip2/blocksort.c:212-329 | prefix doubling ends with all rotations in order and the block restored from the byte counts (assertion 1005) |
| FallbackSort.DoubleRound | dep/bzip2/blocksort.c:266-312 | one round turns order by h bytes into order by 2h bytes, with the bucket headers exactly at the changes |
| FallbackQSort.FallbackQSort3 | dep/bzip2/blocksort.c:93-180 | sorts the range by class, permuting only it; the stack never overflows (assertion 1004) |
| FallbackQSort.FallbackSimpleSort | dep/bzip2/blocksort.c:32-59 | insertion sort in steps of four and one sorts the range by class |
| PrefixDoubling.KeysCompare | dep/bzip2/blocksort.c:266-271 | comparing the classes of the rotations h places on compares the second h bytes |
| MainSort.Sort | dep/bzip2/blocksort.c:751-1011 | for every block of 35 to 900000 bytes the main sort ends within its budget with all rotations in order, or reports the budget spent. It takes at most `Cost(block) * 14 n^2` off the budget, nothing on a block in which no 22 bytes occur twice, and more than there is when equal rotations cost that much wherever the sort begins; assertions 1002, 1006 and 1007 hold |
| MainSort.CompleteBig | dep/bzip2/blocksort.c:886-907 | after step 1 every small bucket of the big one but its own is in order and flagged, no other flag has changed, and all positions are still in their buckets |
| MainSweepEnd.ScansEnd | dep/bzip2/blocksort.c:937-944 | assertion 1007: the two copying scans meet, or the block is one byte value only |
| MainSweepEnd.CopiedAll | dep/bzip2/blocksort.c:919-935 | the scans fill every small bucket that ends in the finished byte, each completely |
| MainSweepEnd.BucketInOrder | dep/bzip2/blocksort.c:919-935 | what the scans copied into a bucket stands in order |
| MainSort.UpdateQuadrants | dep/bzip2/blocksort.c:988-1004 | step 3 keeps the quadrants from contradicting the order, and their first cells repeated behind the block; for at most 65534 rotations each gets exactly its place in the bucket (assertion 1002) |
| MainQSort.QSort3 | dep/bzip2/blocksort.c:621-717 | three-way quicksort by depth sorts the range in the order of the rotations, permuting only it, with at most fourteen times the square of its size in comparisons, each at most `Cost(block)` off the budget, and with all rounds of at least one comparison less than there are equal rotations; depths and stack stay in bounds (assertion 1001) |
| MainSimpleSort.SimpleSort | dep/bzip2/blocksort.c:480-555 | the shell sort with Knuth's increments leaves the range in order, at the same costs |
| MainSimpleSort.CostBound | dep/bzip2/blocksort.c:347-469 | what a comparison costs at most, in terms of the block: with no len bytes at two places, `(len - 15) / 8` |
| MainSimpleSort.RoundsBound | dep/bzip2/blocksort.c:347-469 | comparing two rotations that agree in two bytes or more takes no more than that |
| MainCompare.GtU | dep/bzip2/blocksort.c:347-469 | the unrolled comparison with its wrap-around computes the verdict on the first `12 + 8(n/8 + 2)` places, and takes exactly one off the budget for every round of eight places that leaves it open, the first twelve for nothing |
| MainCompare.VerdictDecides | dep/bzip2/blocksort.c:347-469 | rotations that differ are told apart rightly by bytes and cached quadrants, so long as these do not contradict the order |
| MainRadix.DropPairs | dep/bzip2/blocksort.c:802-830 | the radix pass puts every position once, into the bucket of its byte pair, and leaves the table at the buckets' starts |
| MainRadix.RunningOrder | dep/bzip2/blocksort.c:837-860 | the running order is a permutation of the 256 big buckets, by increasing size |
| MainTies.StrictAfterRecording | dep/bzip2/blocksort.c:964-984 | once step 3 has recorded a big bucket of at most 65534 rotations, the comparison is the strict order of all rotations if and only if that bucket holds no two equal ones |
| MainTies.StrictUnlessRepeats | dep/bzip2/blocksort.c:964-984 | so it is, after any such bucket, if and only if the block is not a shorter one over and over |
| MainTies.StrictWithoutRepetition | dep/bzip2/blocksort.c:964-984 | on a block that is none it is the strict order at every moment of the sort |
| Repetition.TiedIffRepeats | dep/bzip2/blocksort.c:964-984 | a block has two equal rotations if and only if it is a shorter one over and over |
| TieRun.Run | dep/bzip2/blocksort.c:751-1011 | a run that ends otherwise: on five thousand bytes twice, at every work factor from 4 on, the budget lasts to the first big bucket, step 3 records it, and the comparison is no longer the strict order |
| MainTies.StrictWhenTiesShare | dep/bzip2/blocksort.c:964-984 | in general it is strict if and only if equal rotations have equal quadrants |
| BurrowsWheeler.ThreadStep | dep/bzip2/decompress.c:559-566 | the thread of a row leads to the row of the rotation one place on |
| BurrowsWheeler.UnsortLastColumn | dep/bzip2/decompress.c:546-577 | walking the threads from the row of the unrotated block gives the block back, from the last column alone |
| Inversion.MakeTt | dep/bzip2/decompress.c:559-566 | the loop over tt leaves each entry its byte and, in the bits above, exactly the thread |
| Inversion.MakeT | dep/bzip2/decompress.c:528-534 | the small decoder's loop leaves each entry the row of its byte, in 16 and 4 bits |
| Inversion.ReversePointers | dep/bzip2/decompress.c:536-544 | reversing the pointers ends, and turns the rows along origPtr's cycle into threads |
| Inversion.LinksAreThreads | dep/bzip2/decompress.c:536-557 | following the reversed links from origPtr is following the threads |
| Inversion.IndexIntoF | dep/bzip2/bzlib.c:687-698 | the binary search finds the byte that the index's thread leads to |
| Unrle.BlockOutput.UnrleFast | dep/bzip2/bzlib.c:536-682 | fills the output with the next bytes of the expanded block, to any amount of space, keeping the checksum; corrupt only for a block that is not completely run-length coded, and then output and space are reported as they were before |
| Unrle.BlockOutput.UnrleSmall | dep/bzip2/bzlib.c:706-804 | the small decoder does the same |
| RunLengths.StreamedAll | dep/bzip2/bzlib.c:536-682 | when every byte has been used and no run is pending, the whole expansion is out |
| Decompressor.Decoder.BzDecompress | dep/bzip2/bzlib.c:808-858 | one call, with any input and output space, from any place where an earlier one stopped: output is only appended; it stops for want of space with a block unfinished, for want of input with all that was offered taken, at the end, or in an error that the bits show (which of them is exact); a call after the end is a sequence error, and only that |
| Decompressor.Decoder.DecodedAll | dep/bzip2/bzlib.c:808-858 | on any input: at the end, all that was offered is a stream of blocks with the right checksums and the right combined checksum, and exactly what those blocks stand for has been put out |
| Decompressor.Decoder.NeverFails | dep/bzip2/bzlib.c:808-858 | on the stream of blocks sent no call ends in an error, however input and output are split, and none is left waiting for input once all has been offered |
| Decompressor.Decoder.DeliversSent | dep/bzip2/bzlib.c:808-858 | there the output is always a beginning of the data sent, and at the end all of it |
| DecodedStream.SeenAreSent | dep/bzip2/decompress.c:222-606 | the blocks that a decoder sees on a stream are the first of those sent, and what is left is the rest of the stream |
| DecodedStream.NothingWrong | dep/bzip2/decompress.c:222-606 | what follows there is the next block sent, and only after the last the end; never an error, an overrun or too few bits |
| BlockReader.BodyReader.ReadBody | dep/bzip2/decompress.c:331-579 | on every input, in whatever pieces, the body read is what the parser says, and the thread made for either decoder walks its column |
| ReadBlock.ColumnReader.ReadSymbols | dep/bzip2/decompress.c:349-486 | the symbol loop, stopped and resumed at any bit, agrees with the parser on every input: the column's bytes, their counts, and the same errors |
| ReadBlock.SymbolReader.Next | dep/bzip2/decompress.c:74-102 | GET_MTF_VAL, stopped and resumed before any of its bits, yields the symbol that the parser does |
| ReadBlock.SymbolReader.WalkCode | dep/bzip2/decompress.c:74-102 | the bitwise walk along limit, base and perm agrees with the decoding function |
| SymbolFormat.NextIsSymbol | dep/bzip2/decompress.c:74-102 | no symbol beyond end-of-block can be read with tables built from code lengths |
| SymbolFormat.ColumnIsFed | dep/bzip2/decompress.c:374-481 | feeding the move-to-front and run symbols of a column to the decoder yields the column |
| Decompress.SectionReader.ReadSection | dep/bzip2/decompress.c:222-330 | on every input, stopped and resumed at any case label, the header is read as the parser says: the same value, the same errors, the same bits left |
| Decompress.SectionReader.TakeTurn | dep/bzip2/decompress.c:195-330 | from each case label to the next, what the bits still to come are read as stays the same; so it does when the input runs out in between |
| Block.BlockRoundTrip | dep/bzip2/compress.c:239-653 | what is written for a block parses back to its header and last column, whatever tables the decoder built for the lengths and whatever follows |
| Block.HeaderRoundTrip | dep/bzip2/decompress.c:222-330 | the same for the header alone, for every header that can be read at all |
| Block.HeadersRead | dep/bzip2/decompress.c:222-330 | which headers the decoder can be brought to accept: exactly those with a map that marks some byte, 2 to 6 tables with lengths 1 to 20, 1 to 18002 selectors among them and a row of at most 10 + 100000 * level |
| Block.BodySame | dep/bzip2/decompress.c:331-486 | any tables built for the same code lengths read the same body |
| Block.SelectorCountDecides | dep/bzip2/decompress.c:289-301 | after the two counts the decoder stays within its selector tables, whatever follows, if and only if there are at most 18002 selectors |
| Block.SelectorsOverrun | dep/bzip2/decompress.c:289-301 | for every larger count, and every continuation, a string of bits that makes it write past them |
| SendMtf.CompressBlock | dep/bzip2/compress.c:629-653 | the bits written for a sorted block are exactly those of a well-formed block for its last column, with the map it was given and the tables and selectors of four rounds |
| SendMtf.SendMTFValues | dep/bzip2/compress.c:239-598 | tables, selectors and symbols are chosen, in four rounds from the initial tables, and written so that every symbol has a code; at most 18002 selectors (assertion 3003) |
| GenerateMtf.GenerateMTFValues | dep/bzip2/compress.c:120-231 | the loops compute the move-to-front and run symbols of the last column, and count them |
| GenerateMtf.UsedBytesAre | dep/bzip2/compress.c:106-115 | the list of used bytes holds exactly the bytes marked, in order, once each |
| TwoLevelList.MtfDecoder.MoveToFront | dep/bzip2/decompress.c:423-475 | on the segmented list each access returns the entry asked for and moves it to the front, through every shift and repacking |
| BlockFormat.SelectorRoundTrip | dep/bzip2/decompress.c:302-315 | undoing the selectors' move-to-front coding gives them back |
| TableChoice.ChooseTables | dep/bzip2/compress.c:271-458 | there are exactly four rounds, in each of which every group's selector is the cheapest of the tables before and each table then the best for the symbols its groups hold, short of forced rescalings |
| TableChoice.InitialTables | dep/bzip2/compress.c:279-317 | the first tables are those of the cuts that `TableChoice.Cut` makes in the alphabet |
| TableChoice.CheapInOne | dep/bzip2/compress.c:279-317 | these split the alphabet: every symbol is cheap in exactly one of them |
| TableChoice.FairShare | dep/bzip2/compress.c:290-305 | each of them holds the fewest symbols that reach an equal share of the frequency left, and one less only in every other of the middle ones |
| TableChoice.PackedCost | dep/bzip2/compress.c:359-386 | two sums kept in one word do not carry into each other |
| CodeLengths.HbMakeCodeLengths | dep/bzip2/huffman.c:63-148 | it ends for every alphabet; lengths are 1 to maxLen with a Kraft sum of exactly 1; they are cheapest for the weights after as many rescalings as there were, and of the cheapest ones those with the shortest longest code; each rescaling was forced, in that no cheapest code for the weights before it keeps to maxLen bits; assertions 2001 and 2002 hold |
| CodeLengths.BuiltAlike | dep/bzip2/huffman.c:63-148 | so the number of rescalings, the bits of all symbols and the longest code all follow from the frequencies |
| CodeLengths.LightIsCheapest | dep/bzip2/huffman.c:63-148 | with a total frequency below Fib(maxLen + 1), 6765 for 17 bits, there is no rescaling and no cheaper prefix code |
| CheapestCode.TreeIsCheapest | dep/bzip2/huffman.c:93-125 | a tree built by merging the two lightest roots, of equally light ones the lowest, has the cheapest code among all lengths that meet the Kraft inequality, and of the cheapest codes one whose longest is shortest |
| CheapestCode.OneMerge | dep/bzip2/huffman.c:101-113 | any code for the roots before a merge gives one for the roots after it, cheaper by the new node's weight, and no deeper unless it is cheaper still |
| CodeTree.CutSum | dep/bzip2/huffman.c:93-125 | any cut through the tree has a Kraft sum of exactly 1 |
| Heap.UpHeap | dep/bzip2/huffman.c:33-42 | an entry appended to a heap rises to where the heap is one again; only a permutation happens |
| Heap.DownHeap | dep/bzip2/huffman.c:44-59 | a new root moves to where the heap is one again; only a permutation happens |
| Heap.PopMin | dep/bzip2/huffman.c:101-102 | takes out a member of least weight, and no other |
| HuffmanTables.HbAssignCodes | dep/bzip2/huffman.c:152-166 | codes are numbered by length, then by symbol |
| HuffmanTables.HbCreateDecodeTables | dep/bzip2/huffman.c:170-200 | limit, base and perm are those of the lengths |
| Huffman.DecodeCode | dep/bzip2/decompress.c:74-102 | with tables for lengths that leave room for a prefix code, every codeword followed by any bits is decoded to its symbol and consumed exactly |
| Huffman.PrefixFree | dep/bzip2/huffman.c:152-166 | no codeword begins another |
| BitStream.BitWriter.W | dep/bzip2/compress.c:73-78 | what has been written grows by exactly the n bits |
| BitStream.BitWriter.FinishWrite | dep/bzip2/compress.c:46-53 | the bytes are the bits written, filled up with zeros |
| BitStream.BitReader.Get | dep/bzip2/decompress.c:43-65 | reads exactly the next n bits; when the input at hand ends first, it has all moved into the buffer and no bit is lost |
| BitStream.BitReader.Offer | dep/bzip2/decompress.c:43-65 | offering the next piece of input leaves the bits to come what they were |
| Crc.CrcIsRemainder | dep/bzip2/bzlib_private.h:156-172 | the register after a block is the remainder of the block's bits, with 32 zeros behind them and 32 ones added at the front, divided by x^32 + 0x04c11db7, and no other word is |
| Crc.OfOneByte | dep/bzip2/bzlib_private.h:156-172 | a known answer: the checksum of the one byte 255 is 0x000000ff |
| Crc.UpdateIsRemainder | dep/bzip2/bzlib_private.h:167-172 | taking a byte in multiplies the register by x^8, adds the byte at the top and leaves the remainder |
| Crc.BurstDetected | dep/bzip2/bzlib_private.h:156-172 | two blocks of the same length whose bits differ only within 32 in a row have different checksums |
| Crc.OneByteDetected | dep/bzip2/bzlib.c:830-838 | changing any one byte of a block changes its checksum |
| Crc.FinalisedIsComplement | dep/bzip2/bzlib_private.h:162-165 | finishing turns over every bit |
| Crc.CombineIs | dep/bzip2/compress.c:606-607 | combining moves every bit up by one, the top one to the bottom, and adds the block's checksum |
| Crc.CombineInvertible | dep/bzip2/compress.c:606-607 | neither of the two checksums is lost |
| Polynomials.XorBit | dep/bzip2/bzlib_private.h:167-172 | the exclusive or, bit by bit |

## Findings

| claim | where | what holds |
|---|---|---|
| The decoder checks what it reads before it writes to its tables | dep/bzip2/decompress.c:289-301 against dep/bzip2/bzlib_private.h:125 | The number of selectors is read with 15 bits and only zero is rejected, while selectorMtf and selector have 18002 cells. `Block.SelectorCountDecides`: the decoder stays within them whatever follows if and only if the count is at most 18002. `Block.SelectorsOverrun` gives the bits for every larger count. The encoder never writes more (`SendMtf.SendMTFValues`), so the round trip is not affected; on other input the model's decoder stops with the code Undefined there, and every statement about arbitrary input is up to that point. |
| Cached orderings make the comparison of rotations a strict total order | dep/bzip2/blocksort.c:964-984 | Step 3 gives different entries to equal rotations, so two equal rotations can compare as greater. `MainTies.StrictUnlessRepeats`: once a big bucket of 1 to 65534 rotations has been recorded, the order is strict if and only if the block is not a shorter block over and over; on a block that is none it always is (`MainTies.StrictWithoutRepetition`). `TieRun.Run` runs the sort into such a state: a block of five thousand bytes twice (1 and 2 in turn, with a single 255 at the end), which run-length coding can make (`TieRun.TwiceIsComplete`); bucket 255 comes first, its one comparison costs 1252 of the budget, and after step 3 the order is not strict. The sort needs only that rotations that differ are told apart, and that holds always (`MainCompare.VerdictDecides`). |
| The small decoder does what the fast one does | dep/bzip2/bzlib.c:536-804 | Not at one size of the output buffer. `Answers.DecodersDiffer`: if a block ends in a run of four without its count, the fast decoder reads the byte beyond the block as that count and finds the block corrupt once it has put out so many bytes; the small decoder needs room for one byte more before it looks. With room for exactly those bytes, and only then, the one answers a data error and the other a full buffer. |
| The compressed stream is the same whether the main or the fallback sorter is used | dep/bzip2/blocksort.c:1056-1062 | `SorterChoice.SentAlike`: checksum, map and symbols of a block never depend on the sorter. `SorterChoice.OriginIsForced`: the order of the rotations, and with it origPtr, does not if and only if the block is not a shorter one over and over; for a block that is, equal rotations stand in an order of the sorter's choosing, and another origPtr is as right. Either is decoded to the same data. |

## Left out

- BuffToBuff.BuffToBuffCompress: room for `8n/5 + 8300` bytes is proved to suffice; the manual recommends 1% more than the input plus 600 bytes, which is smaller. The bound multiplies the worst of run-length coding (5/4) with the worst of Huffman coding (9.4 bits); that data cannot be bad for both at once is not used.
- Decompressor.Decoder.ReadBlock: randomised blocks, which bzip2 has not written since 0.9.5, are rejected; the source decodes them with the table in randtable.c.
- Decompressor.Decoder.BzDecompress: a call after one that ended in an error is not modelled; the source would go on from the case label it stopped at, which its manual does not provide for.
- Decompressor.Decoder.TakeIn: a caller who offers input again must offer what was not taken, as the source's callers do.
- DState's save area is the datatype `Decompress.Place` for headers and the fields of the two readers for symbols; the label sets of the source are merged where only a counter tells them apart.
- Compressor.Encoder.BzCompress: an action that is none of the three, a parameter error in the source, cannot be formed in the model.
- Crc.CrcTable: an entry is computed from the polynomial by shifts, as the remainder that `Crc.TableIsRemainder` says it is; the source has the 256 numbers printed in crctable.c, which are not repeated.
- Sample.Bytes: the two checksums of the sample are left open, so that it is read alike with any checksum.
- Memory overlays: arr1, arr2 and their views (ptr, mtfv, block, zbits, eclass, bhtab) are separate arrays or sequences; bhtab is an array of booleans instead of packed bits. That zbits fits behind the block is proved (`Sizes.ZbitsFit`).
- MainSort.Sort: the number of comparisons is bounded by a square, far above what ordinary data takes, and from below only for equal rotations; a sort that runs out of budget is taken over by the fallback, with the same result.
- Stacks of the two quicksorts are sequences; that they stay below their fixed sizes is proved.
- Coding tables of the encoder (len, code, rfreq, cost) are sequences, rebuilt where the source overwrites arrays.
- Unrolled loops are rolled up where the unrolling changes nothing else; the register copies of the fast run-length decoder are the fields themselves.
- Allocation, null checks, verbosity output, total_in and total_out counters, and the FILE-based interface.
- The other libraries under dep (zlib, SFMT, and so on) and the game server itself.
