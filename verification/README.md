# Verification of the VCU control software

Dafny proofs about the control software of a video codec unit: the entropy coder and the generators of
skipped pictures, the splitter that cuts a byte stream into NAL units, the buffer pool, the arithmetic
and name matching of the configuration parser, the two-pass rate planning, pixel packing, and the two
digests. `dafny verify dfyconfig.toml` checks the whole project.

The project follows the program. Code that updates objects or arrays in place is a class or a method
over arrays, proved against a function of the old state; what the program is for is then proved about
that function.

| part | files |
|---|---|
| bit strings, bit writer, Exp-Golomb codes | `Bits`, `BitStreamLite`, `ExpGolomb` |
| arithmetic coder, its decoder, the skipped H.264 slice | `CabacTables`, `CabacAdaptation`, `CabacModel`, `CabacDecoder`, `Cabac`, `AvcSkippedPict`, `SkippedPicture` |
| skipped H.265 pictures | `HevcQuadtree`, `HevcLeaves`, `HevcDepth`, `HevcTile`, `HevcCoverage`, `HevcParse`, `HevcSkippedPict`, `HevcPicture`, `HevcGrid` |
| NAL unit splitter | `NalScan`, `NalUnits`, `SplitPlan`, `SplitInput` |
| buffer pool | `BufPool`, `BufPoolDecommit` |
| configuration parser | `EditDistance`, `ReversePolish`, `InfixGrammar`, `Truncation` |
| two-pass planning | `TwoPass`, `TwoPassMngr` |
| pixel packing | `PixelFields`, `PixelTiles`, `PixelChroma`, `PixelPlanes`, `PixelBytes` |
| checksum and digest | `Crc`, `Md5Block`, `Md5`, `Md5Values` |
| helpers | `Common`, `Option` |

## What is proved

- **Arithmetic coder.** The coder keeps a 10-bit low end, a 9-bit range, a run of outstanding bits and
  elides its first bit. Every run of it refines a coder with exact intervals: emitted bits, outstanding
  run and low end always denote the exact low end, no carry reaches an emitted bit, and the elided bit
  is 0. The decoder of section 9.3.3.2 of ITU-T H.264 is written out, and for every list of bins, in any
  context model, between any two other pieces of stream, it returns exactly those bins with the same
  contexts (`CabacDecoder.RoundTrip`). Contexts start where the standards initialise them and learn by the
  standard's transition; a bin that comes is never expected less for it (`AdaptTowards`). The skipped H.264
  slice is parsed by the slice_data loop of the standard.
- **Skipped H.265 pictures.** The four border recursions are compared with one generic walk of
  coding_quadtree (section 7.3.8.4 of ITU-T H.265). The units partition the tile in z-scan order. The
  generator differs from the standard in two situations, and both are stated as equivalences: the syntax
  is right exactly when the largest coding unit is larger than the smallest (`TileSyntax`), and the
  choice of contexts is right exactly when in addition no cut column is the first and no cut row the
  first (`TileExact`). The contexts of the standard are derived from the neighbours; that of split_cu_flag
  turns out to be the first one always. A parser of the standard's syntax reads the tile back as its
  units, all skipped, exactly then (`TileParses`). Every tile decodes from the entry point that the table
  of sizes gives, and in a grid that makes up the picture the tiles partition it.
- **Splitter.** Unit types are those of the header syntax, and a search ends exactly behind a delimiter or
  second slice (`CutExactly`); the last frame is marked by the sentinel unless the input ends inside a
  header (`MarksAtEnd`). Over any sequence of calls, in slice or frame mode, across refills and wraps of the
  ring, the start codes inspected are those of one linear scan of the input and its sentinel: none is
  missed, split or seen twice. Bytes handed out, ring contents and unread input always make up the
  input, and the sentinel is never handed out. A call can hand out nothing before the end, which the
  decoder's reader takes for the end: `EmptyBeforeEnd` says exactly when, `ShortFile` gives inputs, and
  `ReadInput` what the reader still gets and exactly when it misses something. The sentinel is copied
  without wrapping and without a look at the window. `WrapsExactly` says from the size of the file when it
  runs over the end of the ring; `OverlapsExactly` says from the bytes when it runs into the window, which
  takes a full ring and a delimiter or slice at one certain place.
- **Buffer pool.** The semaphore, mutex, ring and reference counts are a state machine with a program
  point between any two operations. In every interleaving of any number of threads each buffer is in
  exactly one place, the FIFO linearises to a bounded queue, and the last release of a buffer never
  blocks. Once a thread has decommitted the pool nobody starts to wait any more; NULL is returned exactly
  for an empty queue after a decommit or a wait that timed out.
- **Configuration parser.** The one-row edit distance is the least length of an edit script. The
  conversion to reverse Polish order is characterised for expressions with signs and parentheses: it is
  right if and only if the expression is `ExprSafe`. Two expressions outside are evaluated to show the
  difference. The four operations are what they are taken for, with truncating division, and every error
  is characterised. Sequences without parentheses and double signs have the value of the usual grammar.
- **Two-pass planning.** Despite all truncating divisions the running buffer level, and with it the target
  level of every whole GOP, stays between a tenth of the initial level and the buffer size, up to one unit
  for each frame and each segment. The target of a segment that a scene change cuts is computed for a
  whole GOP and can leave the buffer: `TargetInside` says exactly when, `TargetEnvelope` how far, and
  `TargetTooHigh` gives two frames.
- **Pixel packing.** Two independent readers of ten-bit tiles, a formula and an unrolled block, give the
  same samples; packing straight from tiles equals untiling and then packing. Planar pictures of eight
  and of ten bits, packed and unpacked again, are what they were in every visible sample of luma, U and V;
  packing I420 straight or by way of NV12 gives the same words.
- **Digests.** The table-driven checksum is bit-serial division; MD5 over any cutting of a message is
  the digest of RFC 1321, and the 64 unrolled lines are the steps of the standard.

Shifts, masks and ORs of the source are written as powers of two, remainders and sums where the fields
do not overlap; each such sum is proved to be the field it stands for. Where bits matter one by one
(`Bits`, `Crc`, `Md5Block`) a word is its list of bits.

## Model

| member | source | states |
|---|---|---|
| BitStreamLite.BitStream.constructor | vcu-ctrl-sw/lib_bitstream/BitStreamLite.c:43-49 | a new writer has put nothing and owns the first iMaxSize bytes |
| BitStreamLite.BitStream.WriteData | vcu-ctrl-sw/lib_bitstream/BitStreamLite.c:108-124 | adding a field into the current byte keeps the buffer the packed image of everything put, and touches nothing behind the writable bytes |
| BitStreamLite.BitStream.PutInByte | vcu-ctrl-sw/lib_bitstream/BitStreamLite.c:127-134 | at most one byte is filled; when it does not fit, the overflow flag is raised and nothing is written, but the count goes on |
| BitStreamLite.BitStream.PutBits | vcu-ctrl-sw/lib_bitstream/BitStreamLite.c:137-153 | any value of up to 32 bits, at any offset, is appended most significant bit first although the value is not masked between chunks |
| BitStreamLite.BitStream.PutBit | vcu-ctrl-sw/lib_bitstream/BitStreamLite.c:83-87 | one bit is appended |
| BitStreamLite.BitStream.AlignWithBits | vcu-ctrl-sw/lib_bitstream/BitStreamLite.c:90-94 | exactly the bits missing to the byte boundary are appended |
| BitStreamLite.PackedReadsBack | vcu-ctrl-sw/lib_bitstream/BitStreamLite.c:108-153 | reading the buffer gives back all bits put, or their first iMaxBits when some were dropped |
| ExpGolomb.BitScanReverse | vcu-ctrl-sw/lib_bitstream/BitStreamLite.c:190-201 | the shift loop finds the position of the highest one bit |
| ExpGolomb.PutVclBits | vcu-ctrl-sw/lib_bitstream/BitStreamLite.c:170-185 | the three puts write the code word of section 9.1 of H.264 |
| ExpGolomb.PutUE | vcu-ctrl-sw/lib_bitstream/BitStreamLite.c:209-216 | ue(v): the code word of every value below 2^31 - 1 |
| ExpGolomb.PutSE | vcu-ctrl-sw/lib_bitstream/BitStreamLite.c:219-222 | se(v): the code word of every value of magnitude below 2^30 |
| ExpGolomb.PutAll | vcu-ctrl-sw/lib_bitstream/BitStreamLite.c:209-222 | any list of elements, from any bit offset, is in the buffer and parses back as long as it fits |
| ExpGolomb.SignedInTurn | vcu-ctrl-sw/lib_bitstream/BitStreamLite.c:219-222 | code numbers stand for 0, 1, -1, 2, -2 and so on |
| ExpGolomb.CodesRead | vcu-ctrl-sw/lib_bitstream/BitStreamLite.c:170-222 | the parser of section 9.1 of H.264 reads every list of codes back, at any position and with anything behind |
| ExpGolomb.CodesInjective | vcu-ctrl-sw/lib_bitstream/BitStreamLite.c:170-222 | no code of a list of elements begins the code of a different list of the same shape |
| CabacModel.FinishedZeros | vcu-ctrl-sw/lib_bitstream/Cabac.c:169-174 | behind the stop bit zeros follow up to the byte boundary, no more than needed |
| CabacModel.FirstBitZero | vcu-ctrl-sw/lib_bitstream/Cabac.c:81-102 | the first resolved bit, which the coder does not write, is always 0 |
| CabacModel.EmitDenotes | vcu-ctrl-sw/lib_bitstream/Cabac.c:81-102 | resolving a bit with its run of outstanding bits does not change the number the coder stands for |
| CabacModel.DoubleDenotes | vcu-ctrl-sw/lib_bitstream/Cabac.c:105-122 | each of the three doubling cases doubles the exact interval; no carry leaves the outstanding run |
| CabacModel.RenormDenotes | vcu-ctrl-sw/lib_bitstream/Cabac.c:105-122 | renormalisation ends with the range in 256..510, the interval inside the register, and stands for the exact doublings |
| CabacModel.StepDenotes | vcu-ctrl-sw/lib_bitstream/Cabac.c:134-166 | coding one bin refines the division of the exact interval |
| CabacModel.EncodeRefines | vcu-ctrl-sw/lib_bitstream/Cabac.c:81-166 | every run of the 10-bit coder refines an unbounded-precision interval coder; bits once put stay |
| CabacAdaptation.AdaptTowards | vcu-ctrl-sw/lib_bitstream/Cabac.c:64-78 | a coded bin makes its context expect it more, always so when it expected the other, which takes the turn of the most probable bin at state 0 |
| CabacAdaptation.RankWidens | vcu-ctrl-sw/lib_bitstream/Cabac.c:44-62 | of two contexts the one that expects a bin more gives it no narrower part of any range |
| CabacAdaptation.WidthGrows | vcu-ctrl-sw/lib_bitstream/Cabac.c:136 | a wider range has no narrower less probable part |
| Cabac.CabacCtx.constructor | vcu-ctrl-sw/lib_bitstream/Cabac.c:125-131 | initial registers |
| Cabac.CabacCtx.PutBit | vcu-ctrl-sw/lib_bitstream/Cabac.c:81-102 | the outstanding run is written in pieces of 32 bits, the first bit is elided |
| Cabac.CabacCtx.RenormE | vcu-ctrl-sw/lib_bitstream/Cabac.c:105-122 | the in-place loop computes the modelled renormalisation |
| Cabac.CabacCtx.WriteBin | vcu-ctrl-sw/lib_bitstream/Cabac.c:134-153 | registers, stream and context arrays after one bin |
| Cabac.CabacCtx.Terminate | vcu-ctrl-sw/lib_bitstream/Cabac.c:156-166 | registers and stream after a terminate bin |
| Cabac.CabacCtx.Finish | vcu-ctrl-sw/lib_bitstream/Cabac.c:169-174 | the flush: two more bits, the stop bit, alignment |
| CabacDecoder.GrowHolds | vcu-ctrl-sw/lib_bitstream/Cabac.c:105-122 | a number in the renormalised interval was in the interval before, and the decoder of section 9.3.3.2 of H.264 keeps up |
| CabacDecoder.LearnAlike | vcu-ctrl-sw/lib_bitstream/Cabac.c:139-150 | the table walk of the encoder is the state transition process of section 9.3.3.2.1.1 of H.264, which the decoder follows |
| CabacDecoder.DecisionReads | vcu-ctrl-sw/lib_bitstream/Cabac.c:134-153 | the decoder recovers the bin from where the number lies |
| CabacDecoder.FlushHolds | vcu-ctrl-sw/lib_bitstream/Cabac.c:156-174 | the flushed bits name a number inside the last interval whatever follows |
| CabacDecoder.DecodeReads | vcu-ctrl-sw/lib_bitstream/Cabac.c:81-174 | a stream whose number lies in the final interval decodes to exactly the coded bins |
| CabacDecoder.RoundTrip | vcu-ctrl-sw/lib_bitstream/Cabac.c:81-174 | every list of bins closed by Terminate(1) and Finish, after any prefix and before any suffix, is decoded to the same bins with the same context evolution, stopping at the stop bit |
| AvcSkippedPict.StartsAsStandard | vcu-ctrl-sw/lib_bitstream/AVC_SkippedPict.c:55-62 | the initial states are what the initialisation of section 9.3.1.1 of H.264 gives for mb_skip_flag and each cabac_init_idc |
| AvcSkippedPict.CodeMacroblocks | vcu-ctrl-sw/lib_bitstream/AVC_SkippedPict.c:75-84 | the loop leaves coder and context of n (skip, end) pairs |
| AvcSkippedPict.GenerateSkippedPictureCabac | vcu-ctrl-sw/lib_bitstream/AVC_SkippedPict.c:65-89 | the finished stream of the slice, and 2 bins for each macroblock |
| AvcSkippedPict.ParseCounts | vcu-ctrl-sw/lib_bitstream/AVC_SkippedPict.c:75-84 | the slice_data loop of section 7.3.4 of H.264 counts n macroblocks when the bins of n come out |
| AvcSkippedPict.SkippedSliceParses | vcu-ctrl-sw/lib_bitstream/AVC_SkippedPict.c:65-89 | the slice parses as exactly n skipped macroblocks, the end flag on the last only |
| AvcSkippedPict.GenerateSkippedPicture | vcu-ctrl-sw/lib_bitstream/AVC_SkippedPict.c:92-121 | the whole call: error path, counters, the length of the stream and as much of it as fits, and bytes that parse as the skipped slice when it fits |
| AvcSkippedPict.WholeSlice | vcu-ctrl-sw/lib_bitstream/AVC_SkippedPict.c:92-121 | the bytes of the buffer parse from their first bit, up to the alignment of the last |
| HevcQuadtree.RightAgrees | vcu-ctrl-sw/lib_bitstream/HEVC_SkippedPict.c:86-110 | the right-border recursion writes what coding_quadtree (7.3.8.4 of H.265) writes for a block cut on the right |
| HevcQuadtree.BottomAgrees | vcu-ctrl-sw/lib_bitstream/HEVC_SkippedPict.c:113-136 | the same for the bottom border |
| HevcQuadtree.BotRightAgrees | vcu-ctrl-sw/lib_bitstream/HEVC_SkippedPict.c:139-164 | the same for the corner, which mixes all four writers |
| HevcLeaves.QuadIsUnits | vcu-ctrl-sw/lib_bitstream/HEVC_SkippedPict.c:55-164 | the walk is a list of coding units, nothing is written for inner nodes |
| HevcLeaves.BinCount | vcu-ctrl-sw/lib_bitstream/HEVC_SkippedPict.c:55-83 | three bins for a larger unit, two for a smallest one |
| HevcLeaves.Partition | vcu-ctrl-sw/lib_bitstream/HEVC_SkippedPict.c:86-164 | every cell of a block inside the picture is in exactly one coding unit |
| HevcLeaves.ZOrder | vcu-ctrl-sw/lib_bitstream/HEVC_SkippedPict.c:86-164 | the units come in strictly increasing z-scan order |
| HevcTile.LcuAgrees | vcu-ctrl-sw/lib_bitstream/HEVC_SkippedPict.c:191-203 | the four-way choice for unit n writes the quadtree at its raster position |
| HevcDepth.UnitLevel | vcu-ctrl-sw/lib_bitstream/HEVC_SkippedPict.c:86-164 | the coding depth section 9.3.4.2.2 of H.265 asks for at a cell is that of the unit of the walk over it |
| HevcDepth.SplitContextZero | vcu-ctrl-sw/lib_bitstream/HEVC_SkippedPict.c:62-63 | no left or upper neighbour is split more deeply than a block that fits, so the context increment of split_cu_flag is always 0, as the one context of the generator has it |
| HevcDepth.WalkIsQuad | vcu-ctrl-sw/lib_bitstream/HEVC_SkippedPict.c:62-63 | the walk with contexts derived from the neighbours is the walk with the first context throughout |
| HevcTile.ExtraSplitFlags | vcu-ctrl-sw/lib_bitstream/HEVC_SkippedPict.c:203 | when largest and smallest units coincide every tile has one bin too many for each unit |
| HevcTile.TileSyntax | vcu-ctrl-sw/lib_bitstream/HEVC_SkippedPict.c:191-216 | the tile has the syntax of the standard if and only if the largest unit is larger than the smallest |
| HevcTile.BadCorner | vcu-ctrl-sw/lib_bitstream/HEVC_SkippedPict.c:196-201 | a cut first column or row makes the first cu_skip_flag use a neighbour that does not exist |
| HevcTile.TileExact | vcu-ctrl-sw/lib_bitstream/HEVC_SkippedPict.c:167-221 | the tile is bin for bin, contexts of split_cu_flag and cu_skip_flag derived from the neighbours included, the one of the standard if and only if units can be split and no cut column is the first column and no cut row the first row |
| HevcParse.StandardParses | vcu-ctrl-sw/lib_bitstream/HEVC_SkippedPict.c:191-216 | the standard tile is read back, every context chosen from the units read so far, as the units of the tile, all skipped |
| HevcParse.TileParses | vcu-ctrl-sw/lib_bitstream/HEVC_SkippedPict.c:167-221 | the tile of the generator is read back so if and only if units can be split and no cut column is the first column and no cut row the first row; otherwise it is refused |
| HevcCoverage.TilePartition | vcu-ctrl-sw/lib_bitstream/HEVC_SkippedPict.c:191-216 | the coding units of a tile partition it |
| HevcCoverage.LcuZOrder | vcu-ctrl-sw/lib_bitstream/HEVC_SkippedPict.c:191-216 | inside every largest unit they come in z-scan order |
| HevcCoverage.GeneratorBins | vcu-ctrl-sw/lib_bitstream/HEVC_SkippedPict.c:189-220 | the bin count of a tile: 3 for a larger unit, 2 for a smallest one, 1 for each largest unit, 1 more to close an inner tile |
| HevcSkippedPict.Writer.constructor | vcu-ctrl-sw/lib_bitstream/HEVC_SkippedPict.c:169-180 | initial contexts |
| HevcSkippedPict.Writer.WriteSkippedCU | vcu-ctrl-sw/lib_bitstream/HEVC_SkippedPict.c:55-83 | coder and contexts after one coding unit |
| HevcSkippedPict.Writer.WriteSkippedCuRight | vcu-ctrl-sw/lib_bitstream/HEVC_SkippedPict.c:86-110 | coder and contexts after the right-border recursion |
| HevcSkippedPict.Writer.WriteSkippedCuBottom | vcu-ctrl-sw/lib_bitstream/HEVC_SkippedPict.c:113-136 | coder and contexts after the bottom-border recursion |
| HevcSkippedPict.Writer.WriteSkippedCuBotRight | vcu-ctrl-sw/lib_bitstream/HEVC_SkippedPict.c:139-164 | coder and contexts after the corner recursion |
| HevcSkippedPict.StartsAsStandard | vcu-ctrl-sw/lib_bitstream/HEVC_SkippedPict.c:173-180 | the five initial contexts are what the initialisation process of section 9.3.2.2 of H.265 gives for a slice QP of 26 |
| HevcSkippedPict.InMinUnits | vcu-ctrl-sw/lib_bitstream/HEVC_SkippedPict.c:182-187 | the shifted dimensions in samples are those in smallest units |
| HevcSkippedPict.EndLcu | vcu-ctrl-sw/lib_bitstream/HEVC_SkippedPict.c:205-215 | the terminate bins after a unit |
| HevcSkippedPict.CodeLcu | vcu-ctrl-sw/lib_bitstream/HEVC_SkippedPict.c:193-215 | one pass of the tile loop |
| HevcSkippedPict.CodeLcus | vcu-ctrl-sw/lib_bitstream/HEVC_SkippedPict.c:191-216 | the tile loop |
| HevcSkippedPict.GenerateSkippedTileCabac | vcu-ctrl-sw/lib_bitstream/HEVC_SkippedPict.c:167-221 | the finished bits and the bin count of a tile |
| HevcSkippedPict.TileEnds | vcu-ctrl-sw/lib_bitstream/HEVC_SkippedPict.c:205-215 | a terminating 1 ends the tile and occurs nowhere else |
| HevcSkippedPict.TileDecodes | vcu-ctrl-sw/lib_bitstream/HEVC_SkippedPict.c:167-221 | the bits of a tile, anywhere in a stream, decode to exactly its bins |
| HevcPicture.CodeTile | vcu-ctrl-sw/lib_bitstream/HEVC_SkippedPict.c:244-256 | one pass of the inner loop: the tile is appended and its size entered |
| HevcPicture.CodeTileRow | vcu-ctrl-sw/lib_bitstream/HEVC_SkippedPict.c:240-257 | the loop over a row of tiles |
| HevcPicture.CodeTiles | vcu-ctrl-sw/lib_bitstream/HEVC_SkippedPict.c:238-260 | the loop over all rows |
| HevcPicture.GenerateSkippedPicture | vcu-ctrl-sw/lib_bitstream/HEVC_SkippedPict.c:224-269 | the whole call: error path, stream, table of sizes, counters |
| HevcPicture.EntryPoint | vcu-ctrl-sw/lib_bitstream/HEVC_SkippedPict.c:251-254 | the sizes in the table add up to the bit position of every tile |
| HevcPicture.TileStays | vcu-ctrl-sw/lib_bitstream/HEVC_SkippedPict.c:238-260 | later tiles leave the bits of earlier ones alone |
| HevcPicture.TileDecodesAtEntry | vcu-ctrl-sw/lib_bitstream/HEVC_SkippedPict.c:224-269 | a decoder started where the table says reads exactly that tile |
| HevcGrid.TileCountFits | vcu-ctrl-sw/lib_bitstream/HEVC_SkippedPict.c:238-248 | in a grid that makes up the picture every tile is coded with as many largest units as its size has |
| HevcGrid.TilesInRaster | vcu-ctrl-sw/lib_bitstream/HEVC_SkippedPict.c:238-260 | the tiles come row by row, and the last of them alone is coded as the last |
| HevcGrid.TilesPartition | vcu-ctrl-sw/lib_bitstream/HEVC_SkippedPict.c:238-260 | every cell of the picture is in exactly one tile |
| HevcGrid.TileIsStandard | vcu-ctrl-sw/lib_bitstream/HEVC_SkippedPict.c:238-260 | each tile of such a picture holds the bins of the standard if and only if units can be split and none of its cut borders is its first column or row |
| NalScan.FindsFirst | vcu-ctrl-sw/exe_decoder/InputLoader.cpp:147-184 | the search finds the first start code whose header is in the window, and says so if and only if there is one |
| NalScan.Resumes | vcu-ctrl-sw/exe_decoder/InputLoader.cpp:159-179 | a search that ran out of bytes is taken up from the offset it leaves without missing or repeating a start code |
| NalScan.SearchScans | vcu-ctrl-sw/exe_decoder/InputLoader.cpp:187-223 | what a cut search saw, followed by a scan from the cut, is one scan of everything |
| NalScan.FrameCut | vcu-ctrl-sw/exe_decoder/InputLoader.cpp:195-219 | frame mode: the cut is behind the first delimiter, which alone marks the end of a frame |
| NalScan.SliceCut | vcu-ctrl-sw/exe_decoder/InputLoader.cpp:195-219 | slice mode: no delimiter and no second of two adjacent slices is passed over |
| NalScan.SentinelProgress | vcu-ctrl-sw/exe_decoder/InputLoader.cpp:287-297 | with the delimiter appended behind the input the last search always gets further |
| NalUnits.AvcType | vcu-ctrl-sw/exe_decoder/InputLoader.cpp:96-101 | the type is nal_unit_type of the header syntax of H.264, whatever the other fields |
| NalUnits.HevcType | vcu-ctrl-sw/exe_decoder/InputLoader.cpp:70-75 | the same for H.265 |
| NalUnits.AvcSlices | vcu-ctrl-sw/lib_common/AvcUtils.c:47-50 | coded slices are those of IDR and of other pictures |
| NalUnits.HevcSlices | vcu-ctrl-sw/lib_common/HevcUtils.c:107-111 | coded slices are the sixteen types H.265 names |
| NalUnits.SentinelIsDelimiter | vcu-ctrl-sw/exe_decoder/InputLoader.cpp:252-265 | for both codecs the sentinel is a start code, the header of a delimiter and one byte |
| NalUnits.ScanComplete | vcu-ctrl-sw/exe_decoder/InputLoader.cpp:147-223 | a scan sees real units only, and passes over no start code but those in or close behind the header of another unit |
| NalUnits.CutExactly | vcu-ctrl-sw/exe_decoder/InputLoader.cpp:187-223 | a search ends behind a delimiter or a second slice, or where no start code is left, and marks a frame exactly when it saw a delimiter or, in slice mode, filler data |
| NalUnits.SentinelSeen | vcu-ctrl-sw/exe_decoder/InputLoader.cpp:287-297 | a scan of input and sentinel ends with the sentinel as a delimiter if and only if the end of the input cuts no header of a unit it sees |
| NalUnits.SentinelEndsScan | vcu-ctrl-sw/exe_decoder/InputLoader.cpp:287-297 | it does so unless the input ends with a start code, or in H.265 with one byte behind it |
| SplitInput.InputFile.Read | vcu-ctrl-sw/exe_decoder/InputLoader.cpp:283-284 | reads as many of n bytes as there are, into the ring |
| SplitInput.Splitter.constructor | vcu-ctrl-sw/exe_decoder/InputLoader.cpp:226-232 | a ring of twice the buffer size |
| SplitInput.Splitter.FindNextStartCode | vcu-ctrl-sw/exe_decoder/InputLoader.cpp:147-184 | the search in the wrapped ring is the search in the stream |
| SplitInput.Splitter.SearchStartCodes | vcu-ctrl-sw/exe_decoder/InputLoader.cpp:187-223 | the loop computes the cut, the end-of-frame flag, and the units it saw |
| SplitInput.Splitter.Refill | vcu-ctrl-sw/exe_decoder/InputLoader.cpp:278-293 | reads up to the end of the ring or of its free area; at the end of the file appends the delimiter |
| SplitInput.Splitter.FindCut | vcu-ctrl-sw/exe_decoder/InputLoader.cpp:295-299 | the search starts behind the delimiter that opens the window |
| SplitInput.Splitter.CopyOut | vcu-ctrl-sw/exe_decoder/InputLoader.cpp:313-322 | the copy in two pieces hands out the stream bytes |
| SplitInput.Splitter.Deliver | vcu-ctrl-sw/exe_decoder/InputLoader.cpp:313-325 | the window shrinks by what is handed out |
| SplitInput.CutProperties | vcu-ctrl-sw/exe_decoder/InputLoader.cpp:295-309 | the cut lies before the end of the window, so the loop is left on its first pass; a full or complete window always makes progress; nothing is missed |
| SplitInput.Splitter.AppendSentinel | vcu-ctrl-sw/exe_decoder/InputLoader.cpp:287-292 | the delimiter behind the window extends it to the end of the stream |
| SplitInput.Splitter.Advance | vcu-ctrl-sw/exe_decoder/InputLoader.cpp:324-325 | offset and available size move on by what was handed out |
| SplitInput.Splitter.ReadStream | vcu-ctrl-sw/exe_decoder/InputLoader.cpp:248-333 | conservation (handed out, ring, unread input make up the input), resumption (units seen so far and a scan from the next position are one scan of the input), the positions of SplitPlan.Next, end exactly when only the sentinel is left |
| SplitInput.Splitter.ReadInput | vcu-ctrl-sw/exe_decoder/main.cpp:1284-1320 | the reader calls until a call hands out nothing: by then the file is read up and all but fewer bytes than a delimiter and five more are handed out; something is lost if and only if the call that read the last byte handed out nothing |
| SplitInput.Splitter.Complete | vcu-ctrl-sw/exe_decoder/InputLoader.cpp:275-276 | at the end all input has been handed out, no sentinel byte, and every NAL unit of one linear scan has been seen once |
| SplitInput.Splitter.EmptyBeforeEnd | vcu-ctrl-sw/exe_decoder/InputLoader.cpp:295-332 | a call hands out nothing if and only if the refilled window ends before the search position, or at most four bytes behind it with only the beginning of a start code in between |
| SplitPlan.SearchStuck | vcu-ctrl-sw/exe_decoder/InputLoader.cpp:147-223 | a search stays where it began if and only if it has at most four bytes, which begin 0, 0, 1 |
| SplitPlan.EmptyCall | vcu-ctrl-sw/exe_decoder/InputLoader.cpp:295-332 | the same for positions: when a call hands out nothing |
| SplitPlan.NextSteady | vcu-ctrl-sw/exe_decoder/InputLoader.cpp:278-293 | a window that was full, or ends where the ring ends, is so again after a call that hands out at most half of the ring |
| SplitPlan.EmptyMeansRead | vcu-ctrl-sw/exe_decoder/InputLoader.cpp:278-332 | a call that hands out nothing has read all the input, and fewer bytes than a delimiter and five more are left |
| SplitPlan.StopsNearEnd | vcu-ctrl-sw/exe_decoder/main.cpp:1307-1314 | the first empty call of any run, taken for the end of the input, comes when the file is read up and only such a rest is left |
| SplitPlan.MarksAtEnd | vcu-ctrl-sw/exe_decoder/InputLoader.cpp:287-330 | frame mode, sentinel in the window, no header cut: a call marks the end of a frame if and only if its search begins inside the input; so the last frame is marked |
| SplitPlan.LosesExactly | vcu-ctrl-sw/exe_decoder/main.cpp:1307-1314 | for every run: something is lost if and only if the call that reads the last byte hands out nothing, which is then the one the reader stops at |
| SplitPlan.SmallFileKept | vcu-ctrl-sw/exe_decoder/main.cpp:1307-1314 | a file that fits in the ring is handed out whole if and only if it is empty, or longer than a delimiter and not just the beginning of a start code longer |
| SplitPlan.ShortFile | vcu-ctrl-sw/exe_decoder/main.cpp:1307-1314 | a file no longer than a delimiter is given up at the first call, before its end |
| SplitPlan.ThreeBytes | vcu-ctrl-sw/exe_decoder/main.cpp:1307-1314 | for instance the three bytes 7, 7, 7 |
| SplitPlan.SmallerRingStops | vcu-ctrl-sw/exe_decoder/InputLoader.cpp:226-232 | with a ring two bytes smaller a run stops before the file is read up, so the bound is tight |
| SplitPlan.WrapsExactly | vcu-ctrl-sw/exe_decoder/InputLoader.cpp:287-291 | the sentinel runs over the end of the ring at some call if and only if the remainder of the file size by the ring size leaves less than its own size |
| SplitPlan.SearchAtOnce | vcu-ctrl-sw/exe_decoder/InputLoader.cpp:187-223 | a search ends as early as it can if and only if at its beginning comes a start code with a delimiter or, in slice mode, a coded slice |
| SplitPlan.OverlapsExactly | vcu-ctrl-sw/exe_decoder/InputLoader.cpp:280-299 | the sentinel runs into the window if and only if the window was full as the last byte was read, and such a start code comes at once behind its opening delimiter |
| SplitPlan.OverlapsSomewhere | vcu-ctrl-sw/exe_decoder/InputLoader.cpp:273-332 | over a whole run: it does so at some call if and only if the bytes one ring before the end of the file, less a delimiter, are such a start code and some call reads the last byte into a window of just those bytes |
| SplitPlan.AlwaysRoom | vcu-ctrl-sw/exe_decoder/InputLoader.cpp:287-291 | so, unless the bytes at that place are such a start code, it never does |
| SplitPlan.SmallFileOverlaps | vcu-ctrl-sw/exe_decoder/InputLoader.cpp:287-291 | for a file no longer than the ring the bytes decide it |
| SplitPlan.WrappingInput | vcu-ctrl-sw/exe_decoder/InputLoader.cpp:287-291 | seven bytes in a ring of ten |
| SplitPlan.OverlappingInput | vcu-ctrl-sw/exe_decoder/InputLoader.cpp:287-291 | twenty bytes in a ring of twenty, with a delimiter behind the first five |
| SplitPlan.OverlapsWithoutUnit | vcu-ctrl-sw/exe_decoder/InputLoader.cpp:287-291 | in a ring one byte smaller than the equivalence asks for it happens without such a unit, so the bound is tight |
| SplitPlan.TooSmall | vcu-ctrl-sw/exe_decoder/InputLoader.cpp:226-232 | any ring up to four bytes larger than the delimiter can fill up with a window whose search stays where it is |
| BufPool.MovedMutex | vcu-ctrl-sw/lib_app/BufPool.cpp:263-320 | every step keeps the mutex with the one thread inside the critical section |
| BufPool.RingKept | vcu-ctrl-sw/lib_app/BufPool.cpp:263-312 | head, tail, count and slots describe one queue between the two halves of every update |
| BufPool.PlacesKept | vcu-ctrl-sw/lib_app/BufPool.cpp:182-193 | no step loses or doubles a buffer |
| BufPool.PermitsKept | vcu-ctrl-sw/lib_app/BufPool.cpp:263-312 | free permits, queued elements and operations in flight make up the capacity |
| BufPool.FifoKept | vcu-ctrl-sw/lib_app/BufPool.cpp:263-312 | the queue is what arrived less what left |
| BufPool.HeldDown | vcu-ctrl-sw/lib_common/BufferAPI.c:251-263 | dropping a reference lets go of the buffer exactly when it was the last one |
| BufPool.UnrefKeeps | vcu-ctrl-sw/lib_common/BufferAPI.c:251-263 | a release, with the return to the queue when it was the last, keeps the invariant |
| BufPool.StepKeeps | vcu-ctrl-sw/lib_app/BufPool.cpp:92-103 | the invariant survives every step of every thread and every client call |
| BufPool.EveryRun | vcu-ctrl-sw/lib_app/BufPool.cpp:219-320 | it holds in every state of every interleaving |
| BufPool.OnePlace | vcu-ctrl-sw/lib_app/BufPool.cpp:182-193 | each buffer is queued, carried by one thread, held with a positive count, or not yet added: exactly one of them |
| BufPool.QueueNeverBlocks | vcu-ctrl-sw/lib_app/BufPool.cpp:55-59 | a returning buffer always finds a permit: the last Unref never waits for space |
| BufPool.NullMeansEmpty | vcu-ctrl-sw/lib_app/BufPool.cpp:285-294 | NULL is decided only at an instant with an empty queue, after a failed wait or a decommit |
| BufPool.ArrivalOrder | vcu-ctrl-sw/lib_app/BufPool.cpp:263-312 | elements leave in the order they came |
| BufPool.SomeoneMoves | vcu-ctrl-sw/lib_app/BufPool.cpp:263-320 | a thread inside a call, other than one waiting for an element, can move, or the holder of the mutex can |
| BufPoolDecommit.DecommitDone | vcu-ctrl-sw/lib_app/BufPool.cpp:314-320 | in every run: a thread that has started a decommit and is idle again has decommitted the pool |
| BufPoolDecommit.DecommitStays | vcu-ctrl-sw/lib_app/BufPool.cpp:314-320 | and it stays so |
| BufPoolDecommit.NobodyWaits | vcu-ctrl-sw/lib_app/BufPool.cpp:285-297 | from then on no step makes a thread wait |
| BufPoolDecommit.TestDecides | vcu-ctrl-sw/lib_app/BufPool.cpp:285-294 | who looks at the count then takes an element or turns to NULL |
| BufPoolDecommit.EveryWait | vcu-ctrl-sw/lib_app/BufPool.cpp:296-301 | in every run a thread that looks at the count knows how its last wait ended |
| BufPoolDecommit.NullExactly | vcu-ctrl-sw/lib_app/BufPool.cpp:282-301 | in every run: looking at the count a thread takes an element if there is one, and otherwise turns to NULL if and only if its last wait timed out or the pool is decommitted |
| EditDistance.NoShorterScript | vcu-ctrl-sw/lib_cfg_parsing/Parser.cpp:304-340 | no script of inserts, deletes and substitutions is shorter than the distance |
| EditDistance.ShortScript | vcu-ctrl-sw/lib_cfg_parsing/Parser.cpp:304-340 | a script of exactly that length exists |
| EditDistance.LeastScript | vcu-ctrl-sw/lib_cfg_parsing/Parser.cpp:304-340 | the distance is the least length of a script, for all strings |
| EditDistance.Overwrite | vcu-ctrl-sw/lib_cfg_parsing/Parser.cpp:325-334 | one assignment to the reused row, with the corner kept aside |
| EditDistance.OverwriteRow | vcu-ctrl-sw/lib_cfg_parsing/Parser.cpp:318-337 | the inner loop turns one row of the table into the next |
| EditDistance.LevenshteinDistance | vcu-ctrl-sw/lib_cfg_parsing/Parser.cpp:304-340 | the one-row program returns the distance, empty strings included |
| EditDistance.ClosestName | vcu-ctrl-sw/lib_cfg_parsing/Parser.cpp:354-364 | the hint is the first of the known names at the least distance |
| ReversePolish.TransformUnary | vcu-ctrl-sw/lib_cfg_parsing/Parser.cpp:154-168 | when a sign is unary |
| ReversePolish.ToReversePolish | vcu-ctrl-sw/lib_cfg_parsing/Parser.cpp:170-254 | the loops compute the specified conversion, errors included |
| ReversePolish.NothingLost | vcu-ctrl-sw/lib_cfg_parsing/Parser.cpp:170-254 | for every token sequence numbers keep their order and no operator is lost, parentheses balanced or not |
| ReversePolish.ReversePolishEval | vcu-ctrl-sw/lib_cfg_parsing/Parser.h:207-253 | the value stack, with its order of errors |
| ReversePolish.RefusesExactly | vcu-ctrl-sw/lib_cfg_parsing/Parser.cpp:170-254 | the conversion fails if and only if there is an identifier or an undefined token, with the error of the first |
| ReversePolish.FailsExactly | vcu-ctrl-sw/lib_cfg_parsing/Parser.h:207-253 | numbers and operators: apart from a zero divisor the evaluation fails if and only if some operator lacks a value or not one value is left, each with its own error |
| ReversePolish.ParseArithmetic | vcu-ctrl-sw/lib_cfg_parsing/Parser.h:256-259 | conversion, then evaluation |
| InfixGrammar.BinaryMeans | vcu-ctrl-sw/lib_cfg_parsing/Parser.h:149-170 | the evaluator computes what the grammar means by the four operators |
| InfixGrammar.FourOperations | vcu-ctrl-sw/lib_cfg_parsing/Parser.h:256-259 | two numbers and an operator: sum, difference, product, and the quotient whose remainder is smaller than the divisor and of the sign of the dividend; a zero divisor is the error |
| InfixGrammar.PostfixEvaluates | vcu-ctrl-sw/lib_cfg_parsing/Parser.h:207-253 | the evaluator gives the value of every expression from its postfix order, zero divisors included |
| InfixGrammar.ConvertsExactlySafe | vcu-ctrl-sw/lib_cfg_parsing/Parser.cpp:170-254 | the conversion gives the postfix order if and only if no operand has two signs and nothing follows a closing parenthesis in front of whose part an operator waits |
| InfixGrammar.SafeEvaluates | vcu-ctrl-sw/lib_cfg_parsing/Parser.h:256-259 | such expressions evaluate to their grammatical value, with division by zero the only error |
| InfixGrammar.FlatReads | vcu-ctrl-sw/lib_cfg_parsing/Parser.h:256-259 | every sequence of operands with at most one sign each, separated by binary operators, is the text of an expression of the two-level left-associative grammar |
| InfixGrammar.FlatExpr | vcu-ctrl-sw/lib_cfg_parsing/Parser.h:256-259 | every expression with such a text is safe |
| InfixGrammar.FlatEvaluates | vcu-ctrl-sw/lib_cfg_parsing/Parser.h:256-259 | so the sequence evaluates to the value of every expression with that text |
| InfixGrammar.UnsafeButRight | vcu-ctrl-sw/lib_cfg_parsing/Parser.cpp:221-240 | a + ((b) + c) is not safe and converted differently, yet has its value for all numbers |
| InfixGrammar.ParenthesisEmptiesStack | vcu-ctrl-sw/lib_cfg_parsing/Parser.cpp:221-240 | 1 + (2) * 3 gives 9, as a closing parenthesis empties the whole operator stack |
| InfixGrammar.SecondSignMovesFirst | vcu-ctrl-sw/lib_cfg_parsing/Parser.cpp:203-217 | 1 - - - 3 gives 2, as a second sign moves the first one in front of the operand |
| Truncation.QuotientExactly | vcu-ctrl-sw/lib_cfg_parsing/Parser.h:154-158 | for divisors of either sign it is the only such number |
| Truncation.Truncates | vcu-ctrl-sw/lib_cfg_parsing/Parser.h:154-158 | the quotient is exact up to a remainder smaller than the divisor, on the side of zero |
| TwoPass.SegmentEnds | vcu-ctrl-sw/exe_encoder/TwoPassMngr.cpp:349-359 | a segment is a whole GOP, or ends with the first scene change or the sequence |
| TwoPass.MeansKeepTotal | vcu-ctrl-sw/exe_encoder/TwoPassMngr.cpp:346-371 | whatever the segments, the means of all frames keep the total of the picture sizes, less than a unit for each frame lost |
| TwoPass.DeviationMeans | vcu-ctrl-sw/exe_encoder/TwoPassMngr.cpp:381 | a deviation is what the mean of the segment is off the mean, in thousandths, exact to one |
| TwoPass.CoefficientLargest | vcu-ctrl-sw/exe_encoder/TwoPassMngr.cpp:385-391 | no larger share fits both extreme levels |
| TwoPass.CoefficientFits | vcu-ctrl-sw/exe_encoder/TwoPassMngr.cpp:385-391 | the coefficient lies in 0..1000 and fits both extreme levels |
| TwoPass.LevelsFit | vcu-ctrl-sw/exe_encoder/TwoPassMngr.cpp:373-391 | every level of the first pass, scaled, stays between -900 times the initial level and 1000 times the free space |
| TwoPass.SegmentError | vcu-ctrl-sw/exe_encoder/TwoPassMngr.cpp:379-412 | three truncating divisions cost at most one unit for each frame of a segment and one for the segment |
| TwoPass.PlanFollows | vcu-ctrl-sw/exe_encoder/TwoPassMngr.cpp:396-418 | the planned level follows the scaled one within one unit for each frame and segment |
| TwoPass.PlanFits | vcu-ctrl-sw/exe_encoder/TwoPassMngr.cpp:396-413 | so the running level at the start of every segment stays in the buffer up to that error, a tenth of the initial level in reserve |
| TwoPass.SequenceFits | vcu-ctrl-sw/exe_encoder/TwoPassMngr.cpp:334-413 | the same for the running level the whole computation goes through, for any sequence of frames |
| TwoPass.WholeSegment | vcu-ctrl-sw/exe_encoder/TwoPassMngr.cpp:412-416 | the target level of a segment of a whole GOP is the running level at its end |
| TwoPass.TargetsFit | vcu-ctrl-sw/exe_encoder/TwoPassMngr.cpp:334-419 | so the target level stored in every frame of a whole segment is in the buffer, up to the same error, for any sequence of frames |
| TwoPass.TargetInside | vcu-ctrl-sw/exe_encoder/TwoPassMngr.cpp:412 | for every segment, cut or not: the target level is in the buffer if and only if the running level, and the room above it, can take a whole GOP of the segment deviation |
| TwoPass.CutSegment | vcu-ctrl-sw/exe_encoder/TwoPassMngr.cpp:412-413 | the target of a cut segment is off the level at its end by what the missing frames would have added, and by less than two units besides |
| TwoPass.TargetEnvelope | vcu-ctrl-sw/exe_encoder/TwoPassMngr.cpp:334-419 | for every frame of every sequence: the stored target is in the buffer up to that error, and what the frames lacking to a whole GOP would have added |
| TwoPass.TargetTooHigh | vcu-ctrl-sw/exe_encoder/TwoPassMngr.cpp:412-416 | two frames with a scene change between them and a GOP of ten: the stored target is 550 in a buffer of 100 |
| TwoPassManager.TwoPassMngr.MeasureSegment | vcu-ctrl-sw/exe_encoder/TwoPassMngr.cpp:352-359 | the segment both passes cut: a GOP, or less before a scene change |
| TwoPassManager.TwoPassMngr.AverageSegments | vcu-ctrl-sw/exe_encoder/TwoPassMngr.cpp:344-371 | every frame gets the mean size of its segment; the mean over segments |
| TwoPassManager.TwoPassMngr.ScaleComplexities | vcu-ctrl-sw/exe_encoder/TwoPassMngr.cpp:373-394 | deviations, extreme levels, coefficient and scaled complexities |
| TwoPassManager.TwoPassMngr.SetTargets | vcu-ctrl-sw/exe_encoder/TwoPassMngr.cpp:396-418 | the second pass cuts at the same frames and sets the target levels |
| TwoPassManager.TwoPassMngr.ComputeComplexity | vcu-ctrl-sw/exe_encoder/TwoPassMngr.cpp:334-419 | complexity and target level of every frame, nothing else changes |
| PixelFields.SampleIs | vcu-ctrl-sw/lib_app/convert.cpp:1760-1778 | a ten-bit sample read bit by bit is a shifted word, or two of them |
| PixelFields.MaskedSum | vcu-ctrl-sw/lib_app/convert.cpp:1770-1775 | masking after joining equals joining the masked part |
| PixelTiles.GetTile10BitVal | vcu-ctrl-sw/lib_app/convert.cpp:1760-1778 | the formula reads the sample at its place in the tile |
| PixelTiles.TileRowToXv | vcu-ctrl-sw/lib_app/convert.cpp:1799-1829 | one row, three samples to a word, with the one and two sample tails |
| PixelTiles.TileToXvOneComponent | vcu-ctrl-sw/lib_app/convert.cpp:1781-1831 | the plane |
| PixelTiles.HalfBlockSamples | vcu-ctrl-sw/lib_app/convert.cpp:2014-2034 | the sixteen unrolled expressions are the samples of the block |
| PixelTiles.Untile4x4Block10b | vcu-ctrl-sw/lib_app/convert.cpp:2013-2034 | a block is unpacked to its place, nothing else is written |
| PixelTiles.UntileStripe | vcu-ctrl-sw/lib_app/convert.cpp:2280-2307 | a row of tiles 64 wide, the last one cut, with the pointer arithmetic |
| PixelTiles.UntileOneComponent | vcu-ctrl-sw/lib_app/convert.cpp:2266-2311 | the plane |
| PixelTiles.RasterRowToXv | vcu-ctrl-sw/lib_app/convert.cpp:527-551 | one raster row packed, with its tails |
| PixelTiles.SemiPlanarToXvOneComponent | vcu-ctrl-sw/lib_app/convert.cpp:508-553 | the plane |
| PixelTiles.UntilingCommutes | vcu-ctrl-sw/lib_app/convert.cpp:2423-2428 | packing straight from the tiles gives the same words as untiling first and packing then |
| PixelTiles.UntileBothWays | vcu-ctrl-sw/lib_app/convert.cpp:2423-2428 | both ways on both planes of a picture: equal words of luma and of chroma |
| PixelChroma.SixWords | vcu-ctrl-sw/lib_app/convert.cpp:1235-1263 | which columns of U and V the words of a packed row hold, the tails included |
| PixelChroma.IxalRowToXv | vcu-ctrl-sw/lib_app/convert.cpp:1229-1263 | U and V of a row alternate in the packed words, for every even width and its tails |
| PixelChroma.XvRowToIxal | vcu-ctrl-sw/lib_app/convert.cpp:2957-2984 | the packed words are taken apart again |
| PixelChroma.UnpackedBits | vcu-ctrl-sw/lib_app/convert.cpp:2932-2937 | the three samples of a word are ten bits each, the first lowest |
| PixelChroma.PackUnpack | vcu-ctrl-sw/lib_app/convert.cpp:2932-2937 | unpacking a packed row gives every sample back |
| PixelPlanes.XvToY010 | vcu-ctrl-sw/lib_app/convert.cpp:2702-2741 | luma: every row unpacked |
| PixelPlanes.IxalChromaToXv | vcu-ctrl-sw/lib_app/convert.cpp:1227-1264 | chroma: all rows, those of V below those of U |
| PixelPlanes.XvChromaToIxal | vcu-ctrl-sw/lib_app/convert.cpp:2955-2985 | chroma: all rows unpacked to both components |
| PixelPlanes.LumaBack | vcu-ctrl-sw/lib_app/convert.cpp:2702-2741 | packed and unpacked luma is the ten bits of every visible sample |
| PixelPlanes.ChromaBack | vcu-ctrl-sw/lib_app/convert.cpp:2940-2988 | the same for every row and column of U and V |
| PixelPlanes.IxalToXv | vcu-ctrl-sw/lib_app/convert.cpp:1212-1267 | both planes of a picture packed |
| PixelPlanes.XvToIxal | vcu-ctrl-sw/lib_app/convert.cpp:2940-2988 | both planes unpacked |
| PixelPlanes.PackAndUnpack | vcu-ctrl-sw/lib_app/convert.cpp:2940-2988 | I0AL to XV15 to I0AL, and I2AL to XV20 to I2AL, is the identity on the ten bits of every visible sample, whatever the pitches |
| PixelBytes.ByteRowToXv | vcu-ctrl-sw/lib_app/convert.cpp:479-503 | one row of eight-bit samples packed, with its tails |
| PixelBytes.BytesToXv | vcu-ctrl-sw/lib_app/convert.cpp:465-505 | the plane |
| PixelBytes.I42xRowToXv | vcu-ctrl-sw/lib_app/convert.cpp:1057-1089 | one row of U and V packed, with the tails of two and four samples |
| PixelBytes.I42xChromaToXv | vcu-ctrl-sw/lib_app/convert.cpp:1055-1090 | all rows, U first or V first |
| PixelBytes.Interleave | vcu-ctrl-sw/lib_app/convert.cpp:925-945 | U and V of all rows in turn |
| PixelBytes.ChromaWaysAgree | vcu-ctrl-sw/lib_app/convert.cpp:902-947 | packing planar chroma gives the words that interleaving and then packing gives |
| PixelBytes.LumaWaysAgree | vcu-ctrl-sw/lib_app/convert.cpp:902-947 | and so does luma |
| PixelBytes.PackBothWays | vcu-ctrl-sw/lib_app/convert.cpp:3164-3208 | I420 to XV15 and I420 to NV12 to XV15 give equal words on both planes, for YV12, I422 and XV20 as well |
| PixelBytes.XvToY800 | vcu-ctrl-sw/lib_app/convert.cpp:2660-2699 | luma: every row unpacked to eight bits |
| PixelBytes.XvRowToI42x | vcu-ctrl-sw/lib_app/convert.cpp:2613-2641 | one row of chroma unpacked, with its tails |
| PixelBytes.XvChromaToI42x | vcu-ctrl-sw/lib_app/convert.cpp:2613-2642 | all rows |
| PixelBytes.LumaBack | vcu-ctrl-sw/lib_app/convert.cpp:2660-2699 | packed and unpacked luma is what it was |
| PixelBytes.ChromaBack | vcu-ctrl-sw/lib_app/convert.cpp:2596-2645 | packed and unpacked chroma is what it was, U first |
| PixelBytes.PackAndUnpack | vcu-ctrl-sw/lib_app/convert.cpp:2596-2645 | I420 to XV15 to I420, and I422 to XV20 to I422, is the identity on every visible sample |
| Crc.PolynomIs | vcu-ctrl-sw/exe_decoder/crc.cpp:43 | the polynomial is 0x04c11db7 |
| Crc.DivideMeans | vcu-ctrl-sw/exe_decoder/crc.cpp:48-59 | one step takes the polynomial of degree 32 away when it goes in, and leaves no digit at the top |
| Crc.SerialDivides | vcu-ctrl-sw/exe_decoder/crc.cpp:48-59 | feeding a sample bit by bit is dividing it away at the top of the register |
| Crc.TableStep | vcu-ctrl-sw/exe_decoder/crc.cpp:79-80 | one table step is d bit-serial steps |
| Crc.CrcTable.InitCrc32 | vcu-ctrl-sw/exe_decoder/crc.cpp:48-59 | the table for every depth up to 10 |
| Crc.CrcTable.Crc32 | vcu-ctrl-sw/exe_decoder/crc.cpp:62-81 | the register after a sample is that of bit-serial division; the table is filled once |
| Crc.CrcTable.ComputeCrc | vcu-ctrl-sw/exe_decoder/crc.cpp:86-91 | the same over any number of samples |
| Md5Values.AuxiliaryBits | vcu-ctrl-sw/exe_encoder/MD5.cpp:43-61 | the auxiliary functions bit by bit: two choices, a parity and a conditional complement |
| Md5Values.AddMeans | vcu-ctrl-sw/exe_encoder/MD5.cpp:63-68 | words are added modulo 2^32 |
| Md5Values.RotMeans | vcu-ctrl-sw/exe_encoder/MD5.cpp:63-66 | rotation moves every bit up, around the end |
| Md5Values.WordMeans | vcu-ctrl-sw/exe_encoder/MD5.cpp:154-160 | the words of a block are four bytes each, least significant first |
| Md5Values.StartsAsStandard | vcu-ctrl-sw/exe_encoder/MD5.cpp:71-81 | the initial registers as numbers |
| Md5Values.LengthMeans | vcu-ctrl-sw/exe_encoder/MD5.cpp:117-151 | the last eight bytes are the length in bits modulo 2^64 |
| Md5Values.HexWordMeans | vcu-ctrl-sw/exe_encoder/MD5.cpp:117-151 | the text of a word reads back as its four bytes, least significant first |
| Md5Block.RewrittenBit | vcu-ctrl-sw/exe_encoder/MD5.cpp:43-51 | the rewritten F and G are those of RFC 1321, section 3.4 |
| Md5Block.Line | vcu-ctrl-sw/exe_encoder/MD5.cpp:68 | a line of the unrolled program is the step of the standard with the same word, constant and rotation |
| Md5Block.Round1 | vcu-ctrl-sw/exe_encoder/MD5.cpp:161-176 | the sixteen lines of round 1 are steps 1 to 16 |
| Md5Block.Round2 | vcu-ctrl-sw/exe_encoder/MD5.cpp:178-193 | the sixteen lines of round 2 are steps 17 to 32 |
| Md5Block.Round3 | vcu-ctrl-sw/exe_encoder/MD5.cpp:195-210 | the sixteen lines of round 3 are steps 33 to 48 |
| Md5Block.Round4 | vcu-ctrl-sw/exe_encoder/MD5.cpp:212-227 | the sixteen lines of round 4 are steps 49 to 64 |
| Md5Block.UpdateBlock | vcu-ctrl-sw/exe_encoder/MD5.cpp:154-233 | the block function is that of the standard |
| Md5.CMD5.constructor | vcu-ctrl-sw/exe_encoder/MD5.cpp:71-81 | initial registers, empty message |
| Md5.CMD5.FillBound | vcu-ctrl-sw/exe_encoder/MD5.cpp:90-103 | a buffer that is not empty is filled first |
| Md5.CMD5.TakeBlocks | vcu-ctrl-sw/exe_encoder/MD5.cpp:105-110 | whole blocks go past the buffer |
| Md5.CMD5.Update | vcu-ctrl-sw/exe_encoder/MD5.cpp:84-114 | between calls the buffer is never full, and registers and buffer stand for the message so far, however it was cut |
| Md5.CMD5.GetMD5 | vcu-ctrl-sw/exe_encoder/MD5.cpp:117-151 | the text of the digest of RFC 1321, sections 3.1 to 3.5, of the whole message |

## Left out

Kept simpler than the code:

- BitStreamLite.BitStream.PutBits: counts are unbounded integers; an empty put on an exactly full buffer, where the code writes one byte behind it, is excluded by the precondition. Reset, SkipBits and the end of an SEI payload are not modelled.
- ExpGolomb.PutUE: values from 2^31 - 1 on are excluded, since the signed shift loop of the bit scan does not end for them.
- Cabac.CabacCtx.PutBit: the outstanding count is not wrapped at 32 bits.
- HevcSkippedPict.Writer.WriteSkippedCuRight: the one-bit mask is a power of two given by its exponent, tests of bits are divisions, availability is a boolean; the class bundles the four pointers every writer passes on.
- HevcTile.TileExact: one tile is compared; dimensions are whole numbers of smallest coding units, and the decoder of the standard starts every tile with fresh contexts.
- HevcPicture.GenerateSkippedPicture: the bin count it reports is that of the last tile, as in the code, and no total is claimed. Grids with an empty column or row, or a tile that begins outside the picture, are excluded.
- HevcParse.TileParses: the parser reads skipped units with merge index 0, all others it refuses; it reads symbols with their contexts, which `HevcSkippedPict.TileDecodes` gets from the bits.
- SplitInput.Splitter.ReadStream: the branches that repeat the loop or clamp the cut are not written out, as `CutProperties` shows that they are never taken; room for the sentinel, in one piece, is a precondition, because the code copies it without wrapping, and `WrapsExactly`, `OverlapsExactly` and their inputs say when it has none. The output buffer takes the cut, as the code asserts. Metadata and SEI sections are not modelled.
- SplitInput.Splitter.ReadInput: the pushed buffers are the bytes handed out; the pool, the decoder and the flag that stops the thread are not part of it. Room for the sentinel and in the output buffer is asked for the whole run.
- SplitInput.Splitter.constructor: the ring must hold five bytes more than the delimiter; `TooSmall` shows why. The code does not check it.
- SplitPlan.OverlapsExactly: rings of at least two delimiters and four bytes; in smaller ones the sentinel can also run into bytes kept as the beginning of a start code (`OverlapsWithoutUnit`), and no equivalence is given.
- BufPool.StepKeeps: a wait on the event may succeed or time out at any moment; allocation failure, metadata, user data and the destruction of the pool are not modelled; clients release only handles they own; counts are unbounded.
- BufPoolDecommit.NobodyWaits: threads that wait already are woken by an event whose wake-up semantics are not modelled; they may also time out.
- EditDistance.ClosestName: the hint that a name exists in another section is left out.
- ReversePolish.ToReversePolish: a number token carries the value its text has, without the 32-bit range; the code reads an operator through a reference to the stack element it has just removed, and the model takes the value it had. The instance for floating point is not modelled.
- InfixGrammar.ConvertsExactlySafe: the equivalence is about the postfix order. An expression outside it may be converted to another order of the same value, for single numbers or, as `UnsafeButRight` shows for a + ((b) + c), for all; equality of values is not characterised.
- TwoPassManager.TwoPassMngr.ComputeComplexity: integers are unbounded, a mean of zero (a division by zero in the code) is excluded, and picture sizes are not negative.
- PixelTiles.UntileOneComponent: widths and heights are multiples of four, so no block is cut; a plane is a two-dimensional array of words, so pitches that are not whole words are not modelled. The loop inside a row of tiles runs once and is not written out.
- PixelTiles.UntileStripe: the same for the width.
- PixelChroma.IxalRowToXv: widths are even here and wherever chroma is packed or unpacked, as half a pair of samples has no place in these formats.
- PixelBytes.PackBothWays: widths are even and the vertical scale divides the height; luma and chroma are arrays of their own, while in the code they may lie in one buffer.
- Crc.CrcTable.Crc32: stream and output depth are equal and never change, since the table is static and filled for the first depth only.
- Md5.CMD5.Update: bytes are read least significant first, as on the machines the program runs on; the byte count is not wrapped at 64 bits. The object is not used again after `GetMD5`.

Not modelled at all:

- Files, devices, DMA, command lines, encoder and decoder handles, and everything that only passes data on.
- The writers of parameter sets, slice headers and SEI messages: long lists of fields over the bit writer.
- The CAVLC form of the skipped H.264 slice, which the code no longer calls.
- The other pixel conversions (to and from P010 and P210, three-plane and monochrome formats, odd sizes and crops).
- Look-ahead management, scene change and pattern detection, the I/P ratio.
- The region-of-interest manager, QP tables and generators, the tokenizer and the option tables.
- Metadata lists of buffers, and the memory and event primitives below the pool.
