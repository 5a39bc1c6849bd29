# The lossless half of the IJG JPEG codec

This project models the integer, lossless half of the JPEG library 6b in `large/` and proves properties of it: Huffman
entropy coding, sequential and progressive, from the canonical codes up to whole scripts of scans; scan and pass control
and the making of MCUs; the marker writer and reader and the recovery from lost restart markers; and the row-buffer
controllers on the output side.  It follows ITU-T T.81 | ISO/IEC 10918-1 where the library does.

`dafny verify dfyconfig.toml` checks the whole project.

## How it is built

Each part has a specification on values, methods and classes in the form of the C code proved against it, and theorems
about the specification.

| part | specification | in the form of the code | main results |
|---|---|---|---|
| tables and bits | `BitSource`, `BitPacking` | `HuffmanTables`, `Emitters`, `BitReaders` | `HuffDecodeIsSerial`, `DecodeInvertsEncode` |
| blocks | `SequentialCodec`, `AcBand`, `SymbolMeaning` | `BlockEncoders`, `GatherPass`, `AcEncoders`, `BlockDecoders` | `BlockRoundTrip`, `BandRoundTrip`, `RunsAreLongest` |
| scans | `McuCodec`, `ScanCodec`, `EncoderSpec` | `ScanEncoders`, `ScanDecoders`, `CodecRoundTrip` | `ScanRoundTrip`, `SuspensionIsTransparent`, `TransmitScan` |
| restarts | `RestartMarkers`, `Resynchronisation` | `ScanDecoders` | `LostPairs`, `RepeatedPair`, `TruncatedScan` |
| optimal tables | `CodeLengths`, `ScanStatistics` | `HuffmanProcedure`, `LimitedTable`, `OptimizedScans` | `HuffmanIsOptimal`, `TableIsCheapest`, `TransmitOptimized` |
| scripts and passes | `ScanScript`, `ScriptMeaning`, `ScriptRoundTrip` | `ScanScript`, `PassControl` | `ValidScriptsAreLossless`, `AcceptedIffOrderly`, `Compress` |
| MCUs | `McuGeometry`, `ScanLayouts`, `McuContents` | `McuProducers`, `VirtualArrays`, `CoefControllers` | `ProducersAgree`, `DummiesCostLeast` |
| markers | `MarkerSegments`, `MarkerParsing`, `MarkerBytes`, `HeaderTables`, `MarkerMeaning` | `MarkerWriter`, `MarkerReader` | `HeadersInPieces`, `ChunkingIsTransparent`, `HeaderServesScan`, `ReadingIsSound` |
| context rows | `ContextGeometry` | `ContextRows`, `MainController` | `Decompress`, `RealRowSeen` |
| upsampling | `Upsampling` | `ColorConversion`, `Upsampling`, `Upsamplers` | `MergedEqualsSeparate` |

The encoders are proved to emit a sequence of items, Huffman symbols and raw bits; counting passes are proved to count
the symbols of the same items.  `FinishPass` says that the bytes written are `ScanBytes` of the MCUs, `ScanRoundTrip`
says what the decoder specification makes of `ScanBytes`, and `DecodeNextMcu` that the decoder does what its
specification says on every input; so the three together are about the code of both sides.  `TransmitScan` puts them
together: encoder object, bytes in any pieces, decoder object.  `TransmitOptimized` does so with a gathering pass in front.

The data source is the sequence of bytes that have come in since the restart point; when they do not suffice, a routine
suspends and is called again with more.  `ERREXIT` is a failure result.  Samples have 8 bits, so `MAX_COEF_BITS` is 10.
The right shift of the library is the arithmetic one, and a block is stored in natural order and specified in zigzag
order.

## Findings

The model follows the code where code and comments disagree.

- The comment at `large/jdmainct.c:46-52` promises a full row group of context, with the last sample row repeated below
  the image.  For the postponed last row group of the last iMCU row but one, when the last iMCU row holds less than one
  row group, the rows below are the padding that the decoder produced (`PaddingIsSeen` says exactly when, `PaddingExample`
  gives an image of 17 rows).  The neighbour row that the upsamplers use is right even then (`RealRowSeen`).
- `jpeg_gen_optimal_table` relies on at least one real symbol having been counted: without one, every code length is zero
  and the search for the longest length in use runs off the front of `bits[]` (`LengthsIffSymbols`).  With 255 or 256
  symbols an 8-bit counter can wrap to zero (`EqualCountsWrap`); the table is right exactly if none does
  (`GenOptimalTable`).  Neither happens to the encoders: a table that a scan uses has between 1 and 192 symbols
  (`CountsAreFit`).
- A scan that ends early leaves its missing MCUs as they were, with one exception: the first of them is decoded from zero
  bits that the decoder makes up, because `insufficient_data` is not set until it runs out of bits there
  (`TruncatedScan`; `large/jdhuff.c:485-493` keeps the flag as it was, it does not set it).
- The retry of a suspended AC refinement needs no assumption on what the block holds on entry; the test of the current
  bit and the rollback suffice (`CorrectedTwice`, `DecodeBandRetry`).
- The test for an end-of-band run of more than 14 bits in `emit_eobrun` can never be met (`EmitEobrun`).

## Model

| member | source | states |
|---|---|---|
| `HuffmanTables.LegalTreeIffKraft` | large/jchuff.c:227-240 | the overflow test made after each code length accepts exactly the counts whose Kraft sum is strictly below one, so that no code is all ones |
| `HuffmanTables.CodesArePrefixFree` | large/jchuff.c:227-240 | of two canonical codes, neither is a prefix of the other |
| `HuffmanTables.NoCodeIsAllOnes` | large/jchuff.c:235-239 | no canonical code consists of ones only |
| `HuffmanTables.CodesAreCanonical` | large/jchuff.c:227-242 | the first code is zeros, and each other is the one in front of it plus one, shifted left by the difference of their lengths, which only grow |
| `HuffmanTables.CountOfLength` | large/jchuff.c:210-221 | the codes of length l are the bits[l] positions behind the shorter ones |
| `HuffmanTables.CodeSizes` | large/jchuff.c:210-221 | code lengths in order are found, or the table is rejected, exactly as the total of the counts is at most 256 or not |
| `HuffmanTables.GenerateCodes` | large/jchuff.c:227-242 | the loop of Figure C.2 yields code p as First(length) plus its rank, and fails exactly if the tree is not legal |
| `HuffmanTables.MakeCDerivedTbl` | large/jchuff.c:179-264 | succeeds exactly on legal counts with distinct symbols in range, and then holds, for each symbol, its canonical code and size, and size 0 for every other symbol |
| `HuffmanTables.MakeDDerivedTbl` | large/jdhuff.c:149-266 | succeeds exactly on legal counts and DC categories in range; maxcode, valoffset and the lookahead tables then describe the same canonical codes |
| `HuffmanTables.FillBitSerial` | large/jdhuff.c:213-228 | maxcode and valoffset per length, -1 where there is no code, and the sentinel at 17 |
| `HuffmanTables.FillLookahead` | large/jdhuff.c:237-251 | every 8-bit string that starts with a code of at most 8 bits is entered with its length and symbol, every other one with 0 |
| `BitSource.DecodeInvertsEncode` | large/jdhuff.h:176-196 | a code word in front of any bits is decoded to its symbol and exactly its bits are consumed: decoding tables invert encoding tables |
| `BitSource.HuffDecodeIsSerial` | large/jdhuff.h:176-196 | HUFF_DECODE with lookahead returns the symbol that bit-serial decoding from length 1 returns and consumes the same bits, for every accepted table, every bit string (garbage that runs to the length-17 sentinel too) and every state of the bit buffer |
| `BitSource.NotDecodedYet` | large/jdhuff.c:397-433 | the value collected so far stays above the codes read so far, which keeps every huffval index in range |
| `BitSource.SentinelStops` | large/jdhuff.c:213-228 | bit-serial decoding stops at length 17 at the latest |
| `BitSource.NeedExact` | large/jdhuff.c:291-389 | as long as the segment has the bits, filling the buffer neither suspends nor sets insufficient_data |
| `BitReaders.BitReader.LoadBits` | large/jdhuff.c:306-370 | the loading loop: stuffed zeros and fill bytes dropped, bytes shifted in, up to a marker or 25 bits |
| `BitReaders.BitReader.FillBitBuffer` | large/jdhuff.c:292-389 | the bits held, unread_marker and insufficient_data become what the byte stream says; when it must suspend, nothing has changed and no marker was seen |
| `BitReaders.BitReader.ReadBits` | large/jdhuff.h:138-151 | CHECK_BIT_BUFFER and GET_BITS yield the next bits of the segment as a number, most significant first |
| `BitReaders.BitReader.JpegHuffDecode` | large/jdhuff.c:398-433 | the slow path returns the symbol of the bit-serial reading from minBits on, never indexes outside huffval, and 0 with a warning for garbage |
| `BitReaders.BitReader.HuffDecodeSymbol` | large/jdhuff.h:176-196 | the macro on get_buffer and bits_left, both of its labels, does what HuffDecode says |
| `BitReaders.LookupIsShort` | large/jdhuff.h:176-190 | the lookahead entry of the next 8 bits gives the length and symbol of the code they start with, if there is one |
| `BitPacking.PackStep` | large/jchuff.c:321-336 | one turn of the output loop keeps the bits written so far plus the bits pending |
| `BitPacking.FlushPads` | large/jchuff.c:340-347 | seven one bits complete the last byte with ones, and write nothing if no bit is pending |
| `BitPacking.ParseSegment` | large/jdhuff.c:306-370 | read back, a stuffed and padded segment gives its bits, at most 7 padding bits, and the marker behind it |
| `Emitters.OutputBytes` | large/jchuff.c:321-336 | full bytes leave the 24-bit accumulator, each 0xFF with a stuffed zero behind it |
| `Emitters.Emitter.PutBits` | large/jchuff.c:302-336 | the output and the pending bits together grow by exactly the size bits of the code |
| `Emitters.Emitter.EmitSymbol` | large/jcphuff.c:281-289 | when gathering the symbol is counted, else its code is written, or JERR_HUFF_MISSING_CODE raised exactly if it has none |
| `Emitters.Emitter.FlushBits` | large/jchuff.c:340-347 | the last byte is padded with one bits |
| `Emitters.Emitter.EmitRestart` | large/jchuff.c:451-468 | the segment is completed and RST(num) written behind it |
| `Coefficients.ExtendInvertsAppended` | large/jdhuff.c:443-459 | HUFF_EXTEND of the appended bits gives back every nonzero value |
| `SequentialCodec.BlockRoundTrip` | large/jchuff.c:353-443 | what encode_one_block emits is decoded to the same 64 coefficients and all of it is consumed |
| `SymbolMeaning.DcSymbol` | large/jchuff.c:360-391 | a DC difference is the symbol n with 2^(n-1) <= |diff| < 2^n, and the n low bits of diff, or of diff - 1 if it is negative |
| `SymbolMeaning.NextCoefficient` | large/jchuff.c:395-434 | with z zeros in front of a nonzero coefficient: z / 16 symbols 0xF0, then the symbol 16 (z mod 16) + n with n the number of bits of the coefficient, then its bits |
| `SymbolMeaning.NoCoefficient` | large/jchuff.c:436-439 | zeros up to the end of a block are one symbol 0x00, which a block that ends with a nonzero coefficient does not have |
| `SymbolMeaning.PredictedFromComponent` | large/jchuff.c:487-509 | what a restart interval emits, block by block: each DC value is predicted from the last block of its component in the interval, the first ones from 0 |
| `ScanFormat.RangesAre` | large/jchuff.c:360-418 | the ranges that are coded, by numbers: DC differences within 2047, AC coefficients within 1023 |
| `BlockEncoders.EmitDc` | large/jchuff.c:360-391 | DC difference: category symbol and appended bits, JERR_BAD_DCT_COEF exactly if it has more than 11 bits |
| `BlockEncoders.EncodeOneBlock` | large/jchuff.c:353-443 | the loops over the block in natural order emit the items of the block, or fail exactly if a value is out of range or a code missing |
| `GatherPass.HtestOneBlock` | large/jchuff.c:572-636 | counts exactly the symbols that encode_one_block would emit, and fails on the same blocks |
| `NaturalOrder.ZigzagOfNatural` | large/jdhuff.c:582-586 | jpeg_natural_order is the permutation of Figure A.6, with its inverse |
| `NaturalOrder.StoreInZigzag` | large/jdhuff.c:582-586 | storing at a zigzag position, past the end of the block too, changes exactly the coefficient that the coder means |
| `BlockDecoders.DecodeDcDiff` | large/jdhuff.c:550-564 | the DC difference that the specification reads, or suspension in the same cases |
| `BlockDecoders.DecodeAcCoefs` | large/jdhuff.c:568-595 | the AC loop stores, for every bit string, what the specification decodes; a suspended attempt leaves the coefficients stored so far |
| `AcRoundTrip.BandRoundTrip` | large/jcphuff.c:464-738 | for every sequence of blocks of an AC scan, first or refinement, with histories cut at the preceding bit, decoding what the encoder emits, end-of-band runs across blocks, ZRLs and correction bits included, leaves every coefficient cut at the scan's bit Al |
| `EobRuns.RunsAreLongest` | large/jcphuff.c:713-722 | on the items of an interval, first or refinement scan: an EOBn symbol directly followed by another one stands for 0x7FFF blocks or carries more than 937 correction bits, so no run is ended early; and a ZRL is always followed by a symbol that is no EOBn |
| `EobRuns.ZeroBlocksAreOneRun` | large/jcphuff.c:315-339 | N blocks with nothing in the band, 0 < N <= 0x7FFF, are one symbol 16 n with 2^n <= N < 2^(n+1), and the n low bits of N |
| `SymbolMeaning.NextInBand` | large/jcphuff.c:512-537 | in a first AC scan the pending run is ended, then z / 16 symbols 0xF0, then the symbol 16 (z mod 16) + n and the bits of the next coefficient that the point transform leaves nonzero |
| `SymbolMeaning.SizesAreTold` | large/jcphuff.c:464-738 | in an AC scan of either kind, the low four bits of every symbol are the number of bits of the value behind it |
| `AcRoundTrip.BlockLockstep` | large/jcphuff.c:653-722 | from any coefficient of any block on, encoder state and decoder position stay in step |
| `AcSegment.EobRoundTrip` | large/jdphuff.c:550-558 | the EOBn symbol of a run brings the decoder into the tail of its first block with the right EOBRUN |
| `AcSegment.RunRoundTrip` | large/jdphuff.c:593-615 | blocks wholly inside an end-of-band run take exactly their own correction bits |
| `AcSegment.CorrectedMultiple` | large/jdphuff.c:569-576 | a coefficient whose bits below Al + 1 are zero takes its correction bit away from zero |
| `AcEncoders.AcCoder.EmitEobrun` | large/jcphuff.c:316-339 | for EOBRUN up to 0x7FFF with BE = 0 whenever EOBRUN = 0, emits EOBn, its appended bits and the buffered correction bits and clears both; the check for more than 14 bits never fires |
| `AcEncoders.AcCoder.EndOfBand` | large/jcphuff.c:713-722 | counts the block in EOBRUN and keeps its bits pending, and forces the run out exactly at 0x7FFF or above 937 bits, within the 1000 bytes of bit_buffer (that runs go on until then is RunsAreLongest) |
| `AcEncoders.AcCoder.BufferBit` | large/jcphuff.c:690-694 | a correction bit joins those of the block, within the 1000 bytes of bit_buffer |
| `AcEncoders.AcCoder.EncodeAcFirst` | large/jcphuff.c:464-561 | emits the items of the block and leaves the end-of-band run that the specification says |
| `AcEncoders.AcCoder.EncodeAcRefine` | large/jcphuff.c:618-738 | emits the items of the block, with its correction bits attached to the right symbols, and keeps EOBRUN = 0 only with BE = 0 |
| `BlockDecoders.DecodeAcFirst` | large/jdphuff.c:380-422 | the loop of the first AC scan does what the specification decodes, EOBRUN included |
| `BlockDecoders.DecodeAcRefine` | large/jdphuff.c:519-614 | the loop of the AC refinement does what the specification decodes, rollback of a suspended attempt included |
| `BlockDecoders.UndoIt` | large/jdphuff.c:627-632 | exactly the coefficients that the attempt made nonzero become zero again |
| `McuRoundTrip.RefineDc` | large/jdphuff.c:442-483 | the bit of a DC refinement completes the DC value left by the earlier scans, for either sign |
| `McuRoundTrip.IntervalRoundTrip` | large/jdhuff.c:546-620 | MCUs of a restart interval, of whichever of the five kinds of scan: all coefficients the scan determines come back, all data is consumed, nothing is warned about |
| `ScanEncoders.ScanEncoder.EncodeMcu` | large/jchuff.c:476-525 | one MCU more is coded, behind a restart marker exactly when one is due; it fails exactly on a value out of range or a missing code |
| `ScanEncoders.ScanEncoder.FinishPass` | large/jcphuff.c:746-806 | at the end the output is ScanBytes of all MCUs; when gathering, the counts are those of the very items that ScanBytes is made of |
| `ScanEncoders.ScanEncoder.TryMcu` | large/jchuff.c:473-525 | a sequential MCU for which the destination has no room leaves the coder as it was, restart marker included; otherwise it is coded |
| `EncoderSpec.SegmentsAreScan` | large/jcphuff.c:347-368 | segments written one by one, with their markers, are the bytes of the whole scan |
| `ScanDecoders.ScanDecoder.DecodeNextMcu` | large/jdhuff.c:517-627 | for every input, garbage and markers included, decode_mcu and decode_mcu_* leave the state and the coefficients that Step says, suspended or not |
| `ScanDecoders.ScanDecoder.RestartNow` | large/jdhuff.c:468-498 | process_restart: bits dropped, marker read or resynchronised, predictions, EOBRUN and restarts_to_go reset, insufficient_data reset unless a marker was left |
| `ScanRoundTrip.ScanRoundTrip` | large/jdhuff.c:516-627 | for every list of MCUs, every restart interval and tables with the codes needed: decoding the stuffed, padded and RST-separated bytes returns the same coefficients, with no warning and insufficient_data never set, and stops in front of the next marker |
| `ScanFormat.ScanMarkers` | large/jchuff.c:451-468 | the markers within the bytes of a scan of N MCUs are (N - 1) / interval restart markers, 0xD0 + i mod 8, and no others |
| `ScanRoundTrip.LostPairs` | large/jdmarker.c:1112-1234 | if one or two consecutive pairs of a restart marker and its segment are cut out of the bytes of a scan and a later marker remains, all other segments are decoded into their original MCU positions |
| `Suspension.CorrectedTwice` | large/jdphuff.c:569-575 | the test of the current bit makes adding a correction bit twice the same as adding it once |
| `Suspension.DecodeBandRetry` | large/jdphuff.c:525-632 | on what a suspended attempt at an AC band leaves behind, a retry with more input does what a first attempt with that input does |
| `Suspension.DecodeMcuRetry` | large/jdhuff.c:517-627 | the same for whole MCUs of every kind of scan |
| `Suspension.DecodeMcuExtend` | large/jdhuff.c:517-627 | more input behind an MCU does not change how it is decoded |
| `ScanCodec.SuspensionIsTransparent` | large/jdhuff.c:342-352 | for every way of cutting the input into buffers, with bytes kept from the restart point on, the repeated calls end with the coefficients and the state of one uninterrupted run |
| `CodecRoundTrip.EncodeScan` | large/jchuff.c:473-552 | a pass over a whole scan ends without ERREXIT exactly if every value is in range and, unless statistics are gathered, every symbol has a code; then the output is ScanBytes, or the counts are those of its items |
| `CodecRoundTrip.EncodeScanRefused` | large/jchuff.c:268-281 | under any schedule of refusals of the destination, a scan that gets through has the same bytes |
| `CodecRoundTrip.DecodeFed` | large/jdhuff.c:516-627 | the application's loop over MCUs and buffers, on the decoder object and blocks changed in place, ends as Drive says |
| `CodecRoundTrip.FedRoundTrip` | large/jdhuff.c:342-352 | the bytes of a scan, delivered in any pieces, are decoded to the coefficients that the scan determines, without a warning |
| `CodecRoundTrip.TransmitScan` | large/jdhuff.c:516-627 | encoder object, bytes in any pieces, decoder object: the blocks are restored exactly if the scan could be coded |
| `RestartMarkers.ResyncTerminates` | large/jdmarker.c:1192-1234 | on any finite input that holds a marker from 0xC0 on which is not one of the two before the desired one, resynchronisation comes to an end |
| `RestartMarkers.RestartExpected` | large/jdmarker.c:1113-1139 | the expected marker is swallowed without a warning and decoding continues right behind it |
| `RestartMarkers.RestartMissing` | large/jdmarker.c:1192-1234 | one of the next two restart markers is left unread and the segment that is missing counts as empty |
| `RestartMarkers.ResyncLeavesOthers` | large/jdmarker.c:1201-1204 | a marker in 0xC0..0xCF or 0xD8..0xFE is left unread, and nothing else is touched |
| `RestartMarkers.ResyncLeavesNext` | large/jdmarker.c:1206-1208 | so is one of the next two restart markers |
| `RestartMarkers.ResyncDropsFar` | large/jdmarker.c:1212-1213 | a restart marker 3 to 5 counts away is dropped, and reading goes on behind it |
| `RestartMarkers.ResyncSkipsPrior` | large/jdmarker.c:1209-1211 | one of the two restart markers before the desired one, or a code below 0xC0, is skipped up to the next marker, which is then decided on |
| `Resynchronisation.TruncatedScan` | large/jdmarker.c:1201-1204 | a scan cut short by EOI or another marker: the segments in front are decoded, all missing MCUs but the first are left as they were (in a DC refinement all), and the marker stays unread |
| `Resynchronisation.RepeatedPair` | large/jdmarker.c:1209-1211 | a pair of a restart marker one or two counts back and any segment, inserted between two segments of a scan, is passed over: every original segment is decoded into its MCU positions |
| `Resynchronisation.WrongMarker` | large/jdmarker.c:1212-1213 | a restart marker whose number is 3 to 5 off costs nothing: every segment is decoded into its MCU positions |
| `RestartMarkers.NextMarkerExtend` | large/jdmarker.c:874-917 | skipping to the next marker in two goes is skipping in one, for found and discarded bytes alike |
| `ScanDecoders.ScanDecoder.ResyncToRestart` | large/jdmarker.c:1192-1234 | the decision loop on the reader's fields does what Resync says (which the lemmas on Resync state by marker codes) |
| `ScanDecoders.ScanDecoder.SeekNextMarker` | large/jdmarker.c:874-917 | the loops of next_marker on the input pointer find what NextMarker says |
| `CodeLengths.PrefixCodesAreKraft` | large/jchuff.c:684-700 | the lengths of every prefix code satisfy the Kraft inequality |
| `CodeLengths.MergeRaisesBound` | large/jchuff.c:731-776 | merging the two least counts raises every lower bound of the cost by their sum |
| `HuffmanProcedure.LeastCount` | large/jchuff.c:731-757 | the scan returns the last index of the least nonzero count not above 10^9 |
| `HuffmanProcedure.LengthenBranch` | large/jchuff.c:761-775 | every symbol of the chain gets one bit longer, and the end of the chain is returned |
| `HuffmanProcedure.AssignLengths` | large/jchuff.c:717-776 | with a total of at most 10^9, the in-place merge over freq, others and codesize keeps the chains acyclic and disjoint and ends with lengths of least cost |
| `HuffmanProcedure.HuffmanIsOptimal` | large/jchuff.c:680-704 | no prefix code for the counted symbols and the pseudo-symbol has a smaller weighted length |
| `LimitedTable.LimitLengths` | large/jchuff.c:801-812 | from lengths up to 32 with Kraft sum 1, of up to 257 symbols, the loop ends, always finds a shorter code, neither underflows nor overflows the 8-bit counters, and keeps the number of symbols and the Kraft sum 1 with no length above 16; each step takes a pair of the greatest length in use |
| `LimitedTable.AdjustPair` | large/jchuff.c:803-811 | two codes of length i become one of length i - 1 and, with one of the greatest length j in use that is at most i - 2, two more of length j + 1 |
| `LimitedTable.FewOfEach` | large/jchuff.c:801-812 | while a code is longer than 16 bits, at most 250 codes have the same length, so that no counter can overflow |
| `LimitedTable.ReserveSlot` | large/jchuff.c:814-817 | one code of the greatest length in use is dropped, and nothing else, which leaves counts of a legal table; the search finds no length exactly if all counters are zero |
| `LimitedTable.GenOptimalTable` | large/jchuff.c:705-838 | with 1 to 256 used symbols: JERR_HUFF_CLEN_OVERFLOW exactly if an optimal length exceeds 32; otherwise the table lists each used symbol exactly once under legal counts exactly if no 8-bit counter wraps around, and what happens with 255 and with 256 symbols if one does; huffval[] is ordered by optimal length, then by symbol, and if no length exceeds 16 no symbol gets a code longer than its optimal one |
| `LimitedTable.ListSymbols` | large/jchuff.c:819-834 | exactly the symbols with a length, each once, by length and then by number |
| `LimitedTable.TableIsCheapest` | large/jchuff.c:680-704 | with no optimal length above 16, coding the counted symbols with the derived table takes no more bits than with any prefix code for them and the pseudo-symbol |
| `LimitedTable.FewDoNotWrap` | large/jchuff.c:778-790 | with at most 254 used symbols no counter wraps around |
| `LimitedTable.EqualCountsWrap` | large/jchuff.c:778-817 | 255 symbols counted once each: every optimal code has 256 code words of 8 bits, so the counter wraps |
| `LimitedTable.TableIsAccepted` | large/jchuff.c:208-263 | the table so made is accepted by jpeg_make_c_derived_tbl and jpeg_make_d_derived_tbl |
| `LimitedTable.LengthsIffSymbols` | large/jchuff.c:814-817 | any symbol has a length exactly if a real symbol is counted: without one the search for the longest length would leave bits[] |
| `GatheredTables.GatheredTablesSuffice` | large/jcphuff.c:281-289 | with tables made from the counts of a gathering pass over the same MCUs, sequential or progressive, the output pass never raises JERR_HUFF_MISSING_CODE |
| `ScanStatistics.CountsAreFit` | large/jchuff.c:571-673 | the counts of every table that a scan uses are those that jpeg_gen_optimal_table needs: at least one and at most 192 symbols, and their total is the number of symbols emitted |
| `OptimizedScans.FinishPassGather` | large/jchuff.c:846-880 | each table of the scan is made once from its counts, as short as the optimal lengths if none of these exceeds 16, all others stay; the only error is a code length above 32 |
| `OptimizedScans.DeriveForEncoder` | large/jcphuff.c:106-189 | the derived tables of the scan's components, or JERR_BAD_HUFF_TABLE exactly if one is not acceptable |
| `OptimizedScans.DeriveForDecoder` | large/jdphuff.c:92-193 | the same on the decoder's side |
| `OptimizedScans.TransmitOptimized` | large/jchuff.c:840-880 | gathering pass, tables, output pass and decoding of any scan: it fails exactly for a value out of range, or for a code that comes out longer than 32 bits, and otherwise restores the blocks; no table is rejected and no code is missing |
| `ScanScript.ValidateScript` | large/jcmaster.c:130-261 | accepts exactly the scripts in which components, bands and bits are sent in order and nothing is left out, and tells progressive from sequential |
| `ScriptMeaning.AcceptedIffOrderly` | large/jcmaster.c:130-261 | a progressive script is accepted if and only if the parameters of each scan are legal, the scans of each coefficient are a chain (0, a), (a, a - 1) and so on, each AC scan comes behind a DC scan of its component, and every component has a DC scan |
| `ScriptMeaning.AcceptedIffOnce` | large/jcmaster.c:226-258 | a sequential script is accepted if and only if each scan is of one to four components in ascending order with Ss = 0, Se = 63, Ah = Al = 0, and every component is in exactly one scan |
| `ScanScript.ScriptsAreChains` | large/jcmaster.c:186-240 | in an accepted progressive script the scans of each coefficient form a chain (0, a), (a, a - 1) and so on, and every DC coefficient is sent |
| `ScanScript.StartPass` | large/jdphuff.c:100-146 | the decoder's checks at the start of a scan: rejected exactly if the parameters are illegal, no warning exactly if the band is in the expected state, and coef_bits brought up to date |
| `ScanScript.DecoderAgrees` | large/jdphuff.c:100-146 | on every scan of every accepted script the decoder neither errors nor warns |
| `ScanScript.SimpleProgression` | large/jcparam.c:537-608 | exactly nscans entries are filled, as many as were counted beforehand |
| `ScanScript.SimpleScriptIsComplete` | large/jcparam.c:537-608 | every such script is accepted and ends every coefficient of every component at Al = 0 |
| `ScanLayouts.SlotsOfMcu` | large/jcmaster.c:358-376 | MCU_membership: an MCU holds every block of every component's part, each once |
| `ScanLayouts.PlacesAreDistinct` | large/jcmaster.c:308-389 | in a scan of any components no block occurs twice |
| `ScanLayouts.RealIsIn` | large/jcmaster.c:308-389 | every real block of the components is in the scan, for any image size and sampling factors |
| `ScanLayouts.SingleIsReal` | large/jcmaster.c:314-341 | a scan of one component holds real blocks only |
| `McuContents.WhereBlocksAre` | large/jcmaster.c:344-376 | in an interleaved scan, block yi * h + xi of component j in MCU row * MCUs_per_row + col is the one at (row * v + yi, col * h + xi) |
| `McuContents.SingleBlocksAre` | large/jcmaster.c:314-341 | a scan of one component is its blocks row by row |
| `McuContents.CornersAreReal` | large/jcmaster.c:308-389 | no MCU consists of dummy blocks: the upper left block of each component is real |
| `McuContents.DummiesCostLeast` | large/jccoefct.c:179-194 | a dummy block is never the first of its component in an MCU; its DC value is that of the block in front of it, and its AC coefficients are zero |
| `ScanLayouts.ScanOfEverything` | large/jccoefct.c:142-218 | for a scan of all components the layout with its dummy blocks is the MCU sequence of the coefficient controllers |
| `ScriptRoundTrip.ValidScriptsAreLossless` | large/jcmaster.c:186-240 | for any image size and sampling factors, coding and decoding an image scan by scan under any accepted progressive script, dummy blocks of interleaved scans included, leaves every coefficient of the image exact down to its last Al |
| `ScriptRoundTrip.CompleteScriptsRestoreImage` | large/jcmaster.c:186-240 | a script that brings every coefficient down to bit 0 restores the image |
| `ScriptRoundTrip.SimpleScriptsRestoreImage` | large/jcparam.c:537-608 | the scripts that this routine makes restore every image, of any size and sampling |
| `ScriptRoundTrip.SequentialScriptsRestoreImage` | large/jcmaster.c:226-258 | every accepted sequential script restores the image |
| `PassControl.Master.PrepareForPass` | large/jcmaster.c:401-475 | headers are written and the scan is selected as the pass type says; a DC refinement has no gathering pass |
| `PassControl.Master.FinishPass` | large/jcmaster.c:503-535 | the next pass type, scan and pass number |
| `PassControl.Master.OnePass` | large/jcapimin.c:159-175 | one pass extends the log as it should, and is_last_pass is true exactly when the last scan has been written |
| `PassControl.Master.Compress` | large/jcapimin.c:147-181 | started in main, optimisation or output mode, the passes end with the whole log |
| `PassControl.WrittenInOrder` | large/jcmaster.c:400-535 | every scan's data is output exactly once, in order |
| `PassControl.FrameHeaderFirst` | large/jcmaster.c:400-535 | the frame header is written once, in front of all scan headers and data |
| `PassControl.GatheredJustBefore` | large/jcmaster.c:420-475 | when optimising, a scan that needs tables is gathered directly in front of its output |
| `PassControl.LogIsOrderly` | large/jcmaster.c:400-535 | each scan's data stands directly behind its own header, the first header directly behind that of the frame; statistics are gathered only when optimising, not for a DC refinement, and directly in front of the headers |
| `HeaderTables.ExemptScansHaveNoSymbol` | large/jcmaster.c:420-460 | the scans that have no gathering pass are exactly those whose data has no Huffman symbol |
| `PassControl.FirstScanNeedsTable` | large/jcmaster.c:420-460 | the first scan of an accepted script needs a table, so that the main pass can gather for it |
| `McuGeometry.Columns` | large/jcmaster.c:308-389 | the MCUs of a row hold all blocks of the component, all full but the last, which holds last_col_width |
| `McuGeometry.Rows` | large/jcmaster.c:308-389 | the same for block rows and last_row_height |
| `McuGeometry.RealRows` | large/jccoefct.c:175-178 | the test on iMCU row and last_row_height tells exactly the block rows of the image |
| `McuGeometry.RealCols` | large/jccoefct.c:169-170 | blockcnt is the number of real blocks of an MCU |
| `McuProducers.BottomDummy` | large/jccoefct.c:187-194 | a dummy block row only occurs below a row of its MCU and repeats its last DC value |
| `McuProducers.BuildPassThru` | large/jccoefct.c:156-198 | compress_data builds the MCU of section A.2.4, real blocks and dummy blocks |
| `McuProducers.BuildTranscoded` | large/jctrans.c:302-333 | the transcoder builds the same MCU, with DC entries overwritten in its ten dummy blocks |
| `VirtualArrays.LoadRealRow` | large/jccoefct.c:283-300 | a row of the virtual array is loaded with its blocks and padded at the right; rows above stay |
| `VirtualArrays.LoadDummyRow` | large/jccoefct.c:306-322 | a dummy row repeats, MCU by MCU, the last DC value of the row above |
| `VirtualArrays.LoadComponent` | large/jccoefct.c:245-327 | the strip of an iMCU row is complete, and what was loaded before stays |
| `CoefControllers.BuildFromArrays` | large/jccoefct.c:361-377 | compress_output builds the same MCU from the padded arrays |
| `CoefControllers.CoefController.Compress` | large/jccoefct.c:341-395 | a call emits the MCUs that come next in scan order, as far as the encoder lets it, and the counters say where the next call goes on |
| `CoefControllers.CoefController.FirstPass` | large/jccoefct.c:245-327 | loading again after a suspension is harmless |
| `CoefControllers.RunScan` | large/jccoefct.c:143-218 | under any schedule of refusals the encoder gets a prefix of the MCUs of the scan, each once and in order, and all of them if it keeps taking some |
| `CoefControllers.ProducersAgree` | large/jccoefct.c:142-395 | for any image size and sampling factors, compress_data, compress_first_pass with compress_output, later passes and the transcoder hand over the same MCU sequence, dummy blocks included |
| `MarkerWriter.MarkerWriter.EmitDqt` | large/jcmarker.c:144-180 | a DQT with 8 or 16-bit entries as the table needs, unless it has been sent; reports the precision |
| `MarkerWriter.MarkerWriter.EmitDht` | large/jcmarker.c:184-218 | a DHT with counts and values, unless it has been sent |
| `MarkerWriter.MarkerWriter.EmitSof` | large/jcmarker.c:277-304 | an SOF with the frame's parameters, JERR_IMAGE_TOO_BIG above 65535 |
| `MarkerWriter.MarkerWriter.EmitSpec` | large/jcmarker.c:321-340 | table numbers of a scan's component as SpecOf says (that they are those of the scan's symbols, and 0 else, is HeaderServesScan) |
| `MarkerWriter.MarkerWriter.WriteFrameHeader` | large/jcmarker.c:494-541 | tables once, then the SOF of the right type |
| `MarkerWriter.MarkerWriter.WriteScanHeader` | large/jcmarker.c:551-594 | DHTs, DRI only if the interval changed, then SOS, as ScanHeader says (that these are the tables of the scan's symbols is HeaderServesScan) |
| `MarkerBytes.DqtRead` | large/jdmarker.c:490-544 | reads back every entry of an emitted table into natural order and touches nothing else |
| `MarkerBytes.DhtRead` | large/jdmarker.c:419-486 | reads back counts and values of an emitted table |
| `MarkerBytes.SofRead` | large/jdmarker.c:237-297 | reads back the frame parameters and components |
| `MarkerBytes.SosRead` | large/jdmarker.c:301-367 | reads back the components, table numbers, band and bits of the scan |
| `MarkerBytes.DriRead` | large/jdmarker.c:548-568 | reads back the restart interval |
| `MarkerRoundTrip.NamesFound` | large/jdmarker.c:325-341 | with distinct component ids every id leads to the component that was meant |
| `MarkerRoundTrip.FrameHeaderRoundTrip` | large/jdmarker.c:952-1097 | after reading a frame header the decompressor has its fields and every table that has ever been sent, among them the quantization table of each component |
| `MarkerRoundTrip.ScanHeaderRoundTrip` | large/jdmarker.c:952-1097 | after reading a scan header the decompressor has the components, table numbers, band, bits and restart interval of the scan, and every table it has been sent, though tables sent before and unchanged intervals are suppressed; table numbers that the scan does not use are 0; the agreement holds for the next header again |
| `HeaderTables.HeaderServesScan` | large/jcmarker.c:567-600 | read back, the header of a scan serves its data: of every symbol that the entropy coder emits in the scan, sequential or progressive, the decompressor has the table, and a component of the scan names it; where no symbol of a class occurs, 0 is named; and no table is sent that has no symbol in the scan |
| `HeaderTables.UnitServed` | large/jcmarker.c:319-345 | the tables of a block's symbols are those that the header names for the block's own component |
| `HeaderTables.NothingSentTwice` | large/jcmarker.c:551-594 | with all tables sent and the interval unchanged, a scan header is its SOS segment only, and changes nothing |
| `HeaderTables.IntervalSentOnChange` | large/jcmarker.c:588-594 | a DRI of the new interval is sent exactly if the interval has changed since the last one |
| `HeaderTables.FrameType` | large/jcmarker.c:511-541 | 0xC2 is written exactly for progressive frames, 0xC0 exactly for sequential ones with 8 bits, table numbers at most 1 and no quantizer of a component above 255, else 0xC1 |
| `HeaderTables.FrameTypeWritten` | large/jcmarker.c:494-541 | the frame header is the quantization tables not yet sent, and then the SOF with that code |
| `HeaderTables.TablePrecision` | large/jcmarker.c:144-180 | a table is written with 16-bit entries exactly if one of them exceeds 255 |
| `MarkerRoundTrip.HeadersInPieces` | large/jdmarker.c:164-194 | the same for every division of the header bytes into buffers that suspend the reader |
| `MarkerRoundTrip.SavedInPieces` | large/jdmarker.c:739-839 | of a saved marker exactly the first min(length, limit) bytes are kept and the rest is skipped, however the bytes come in |
| `MarkerRoundTrip.UnsavedInPieces` | large/jdmarker.c:845-861 | of an APPn or COM marker that is not saved, exactly its length is skipped and nothing kept, however the bytes come in |
| `MarkerChunks.DqtRetry` | large/jdmarker.c:490-544 | called again after it had to suspend in the middle of a table, it ends with what one call with all bytes gives |
| `MarkerChunks.DhtRetry` | large/jdmarker.c:419-486 | the same for Huffman tables |
| `MarkerChunks.SofRetry` | large/jdmarker.c:237-297 | the same for the frame header |
| `MarkerChunks.SosRetry` | large/jdmarker.c:301-367 | the same for the scan header, which has not touched what names the components |
| `MarkerChunks.SaveFed` | large/jdmarker.c:739-839 | a marker saved in several goes is the marker saved in one |
| `MarkerChunks.ChunkingIsTransparent` | large/jdmarker.c:952-1097 | for every input, valid or not, and every division into buffers, read_markers ends as on the whole input: same fields, saved markers, warnings, error and position |
| `MarkerReader.MarkerReader.GetDqt` | large/jdmarker.c:490-544 | entry by entry, suspended with the entries assigned so far |
| `MarkerReader.MarkerReader.GetDht` | large/jdmarker.c:419-486 | table by table, with the checks of counts, length and index in the code's order |
| `MarkerReader.MarkerReader.InputTwo` | large/jdmarker.c:156-162 | INPUT_2BYTES into a field: a suspension between the two bytes leaves the high byte stored |
| `MarkerReader.MarkerReader.GetSof` | large/jdmarker.c:237-297 | field by field, with the checks in the code's order |
| `MarkerReader.MarkerReader.GetSos` | large/jdmarker.c:301-367 | the search for component ids and the scan parameters |
| `MarkerReader.MarkerReader.SaveMarker` | large/jdmarker.c:739-839 | the restart point moves with the bytes saved, and cur_marker remembers the rest |
| `MarkerReader.MarkerReader.NextMarker` | large/jdmarker.c:874-917 | garbage counted and committed, duplicate FFs and stuffed zeros passed over |
| `MarkerReader.MarkerReader.ReadMarkers` | large/jdmarker.c:952-1097 | the loop over markers ends in the state that the function ReadMarkers gives |
| `MarkerMeaning.ReadingIsSound` | large/jdmarker.c:952-1097 | whatever the input, no parser assigns outside its tables or a value out of range; and when the start of a scan is reported, frame and scan header are complete: a nonempty image, all its components, and one to four components of the scan that are among them |
| `MarkerMeaning.StrayMarkerIsSkipped` | large/jdmarker.c:1068-1078 | a restart marker or TEM between segments is as if it were not there |
| `MarkerMeaning.FrameIsRefused` | large/jdmarker.c:998-1009 | SOF3, SOF5 to SOF7, JPG, SOF11 and SOF13 to SOF15 end with JERR_SOF_UNSUPPORTED |
| `MarkerMeaning.CodeIsRefused` | large/jdmarker.c:1085-1092 | codes 0x02 to 0xBF, 0xDE, 0xDF and 0xF0 to 0xFD end with JERR_UNKNOWN_MARKER |
| `MarkerMeaning.EndIsReached` | large/jdmarker.c:1017-1020 | EOI ends the reading, with what is behind it untouched |
| `MarkerMeaning.OrderIsKept` | large/jdmarker.c:972-975 | a second SOI, and SOS without a frame, are errors |
| `ContextGeometry.BottomGroups` | large/jdmainct.c:279-290 | the row group count of set_bottom_pointers, computed from component 0, is right for every component |
| `ContextGeometry.NeighboursAreTrue` | large/jdmainct.c:41-52 | around a real row the rows to be seen are the one in front and the one behind, the first and the last row being their own neighbours |
| `ContextGeometry.PaddingIsSeen` | large/jdmainct.c:46-52 | a row group is shown padding below the image exactly if it is the last of the last iMCU row but one and the last iMCU row holds less than one row group |
| `ContextGeometry.PaddingExample` | large/jdmainct.c:46-52 | an image of 17 rows where this happens, against the comment there |
| `ContextRows.MakeFunnyPointers` | large/jdmainct.c:195-234 | both lists of row pointers as pictured, the rows above the image repeating the first |
| `ContextRows.SetWraparoundPointers` | large/jdmainct.c:238-262 | both lists wrap around at both ends |
| `ContextRows.SetBottomPointers` | large/jdmainct.c:266-299 | two row groups behind the last real row repeat it |
| `ContextRows.DecompressData` | large/jdmainct.c:66-97 | reading an iMCU row through one list leaves the last two row groups of the other untouched, suspended or not |
| `ContextRows.ImcuView` | large/jdmainct.c:413-430 | each of the first M - 1 row groups is seen with the row groups above and below it |
| `ContextRows.PostponedView` | large/jdmainct.c:400-407 | so is the postponed row group, through the other list |
| `ContextRows.BottomView` | large/jdmainct.c:421-430 | and so are the row groups of the last iMCU row |
| `MainController.MainController.ProcessData` | large/jdmainct.c:385-447 | one call keeps the whole state machine in order and loses nothing handed over before; it gets on if input and output do |
| `MainController.Decompress` | large/jdmainct.c:385-447 | for M at least 2, any number of iMCU rows and any schedule of input and output, every row group is handed over once, in order, with its surroundings, and no row still needed is overwritten |
| `MainController.RealRowSeen` | large/jdmainct.c:41-52 | each real sample row is handed over once with its true neighbour rows |
| `ColorConversion.TablesAreNearest` | large/jdcolor.c:88-96 | the Cr to R and Cb to B entries are the nearest integers to 1.402 x and 1.772 x |
| `ColorConversion.GreenIsClose` | large/jdcolor.c:97-102 | the green part is within 0.502 of its real value |
| `ColorConversion.IndexInRange` | large/jdcolor.c:148-152 | no index leaves the clamping part of the range limit table |
| `ColorConversion.RgbIsPixel` | large/jdcolor.c:148-153 | red, green and blue, in this order, are clamps to 0..255, in three cases, of integers within 0.5, 0.502 and 0.5 of the real values of y + 1.402 (cr - 128), y - 0.34414 (cb - 128) - 0.71414 (cr - 128) and y + 1.772 (cb - 128) |
| `ColorConversion.BuildYccRgbTable` | large/jdcolor.c:70-105 | the four tables |
| `ColorConversion.PrepareRangeLimitTable` | large/jdmaster.c:248-273 | entries -256 to 639 clamp to 0..255 |
| `Upsampling.ConvertedIsMerged` | large/jdmerge.c:226-358 | converting doubled chroma rows gives the row that shares each chroma sample between two pixels, for every width |
| `Upsampling.H2v1MergedUpsample` | large/jdmerge.c:226-280 | the loop over pairs of pixels and the odd last column; every output sample is the red, green or blue of the Y sample and the chroma sample of its pair, by those bounds |
| `Upsampling.H2v2MergedUpsample` | large/jdmerge.c:288-358 | the same for two rows at once |
| `Upsampling.H2v2Upsample` | large/jdsample.c:261-285 | both output rows hold each sample twice |
| `Upsampling.YccRgbConvert` | large/jdcolor.c:120-157 | a row of pixels from three full-size rows; every output sample is the red, green or blue of its own three samples, by those bounds |
| `Upsamplers.MergedUpsampler.Merged2v` | large/jdmerge.c:144-189 | delivers the next one or two rows; the spare row holds the second row of the group exactly while it is owed |
| `Upsamplers.SeparateUpsampler.Upsample` | large/jdsample.c:89-140 | delivers the next rows from the conversion buffer, filled once per row group |
| `Upsamplers.MergedEqualsSeparate` | large/jdmerge.c:143-358 | for any width and height and any schedule with a free row per call, merged upsampling and separate upsampling with colour conversion deliver the same rows, call by call, each once and in order, for 2h1v and 2h2v; each delivered pixel is the colour of its luma sample and the chroma sample over it, by the bounds of RgbIsPixel |

## Left out

- EmitDqt: a marker that does not fit into the destination buffer raises `JERR_CANT_SUSPEND`; the output here is unbounded.
- EncodeMcu: suspension by the destination is the subject of `TryMcu`, for the sequential encoder, the only one that can be suspended; what is in the destination's buffer then is not described.
- SuspensionIsTransparent: warnings of an attempt that is suspended are counted when the MCU is completed, so a warning that the code repeats with each attempt counts once; likewise `JWRN_MUST_RESYNC`, counted when resynchronisation completes.
- ProcessData: `post_process_data` is taken to consume any number of row groups, as a schedule says; what it does with them is the subject of `Upsamplers`.
- YccRgbConvert: the Y rows of the conversion buffer are the rows of the input group; that the main buffer does not change while a group is being emitted is not stated.
- GetDqt: quantization tables, and the other fields that parsers assign to, are entries of one map rather than arrays, so aliasing of tables between components is not modelled.
- GetDht: entries of `huffval[]` behind the counted ones, which the code copies from an uninitialised array, stay as they were.
- WriteFrameHeader: the trace message for 16-bit tables, and the bytes already written when an image is too big, are not modelled.
- GenOptimalTable: no used symbol at all is excluded (`LengthsIffSymbols`); where the code would search on in front of `bits[]`, the model ends with `NoLengthInUse`.
- TransmitOptimized: tables that a scan does not use are those installed before, and have to be legal; a total of symbols below 10^9 per table is required, as the code assumes.
- PrepareRangeLimitTable: the part of the table behind the clamping section, which serves the inverse DCT, is not described.
- Compress: memory and the calls between master control and the other modules are reduced to a log of what is gathered and written.
- SimpleProgression: reuse of `script_space` and its error for a space that is too small are not modelled; nor is the choice of the colour space.
- CodeMcu: the DC prediction is an unbounded integer; differences are checked for their number of bits as in the code.
- ProducersAgree: about a scan of all components; scans of some of several components are laid out in `ScanLayouts`.
- ValidScriptsAreLossless: the limit of ten blocks per MCU is not imposed; the layout is that of the compressor, and jdinput.c, which computes it for the decompressor, is not part of this model.
- Arithmetic coding, lossless and hierarchical modes: rejected by the library at initialisation.
- APP0 and APP14 contents, JFIF and Adobe markers, DAC and DNL: read past, not interpreted.
- The forward and inverse DCT, quantization, block smoothing, fancy upsampling, downsampling, colour quantization: coefficients and samples are given.
- Source and destination managers, memory managers, progress monitors, trace messages and the command-line programs.
- Buffered-image mode, raw data mode and the coefficient controllers of the decompressor.
- The simple case of the main buffer controller (`process_data_simple_main`), which only counts row groups.
- Integer width tricks: only the low 24 bits of `put_buffer` and the low `bits_left` bits of `get_buffer` are meaningful, and nothing else is said of them.
