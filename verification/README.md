# The audio decoder's bit, transform and streaming code, modelled and proved

This project models five parts of the player's firmware and proves what they are for.
`dafny verify dfyconfig.toml` checks all of it.

1. **Codeword reordering** (`hcr.c`, `huffman.c`, the `bits_t` readers of `bits.h`). An encoder is
   defined from section 8.5.3.3 of ISO/IEC 14496-3/Amd.1 (`HcrSchedule`): codewords are written set by
   set and trial by trial into the free part of the segments, from alternating ends. The decoder is
   defined on lists of bits for data of any kind (`HcrLists`), and there it recovers every codeword of
   every frame that fits its segments, whatever the lengths (`HcrRoundTrip`, `HcrJob`). In its 32-bit
   words and arrays, from the sections of a frame on, it does what the decoder on lists does, on any
   data that the registers hold (`HcrStepTwo`, `HcrDecode`, `HcrFrame`); what the registers hold of an
   encoder's frames is stated exactly (`HcrRegisters`). `HcrValues` states both from values to values.
   `HcrPresort` derives the list of codewords from the six nested loops and shows that it is
   complete, in order, and free of overlaps; `HcrConservation` covers data that no encoder sent. The
   codebook tables are parameters: any prefix-free tables of the two shapes the code knows. What each
   codebook number means, signs, escapes and bounds, is stated number by number (`Codebooks`), and so is
   why the segments are as wide as they are (`HcrWidths`).
2. **The mixed-radix transform** (`cfft.c`). Over exact complex numbers, the passes, the two arrays, the
   factorisation and the twiddle table together compute the unnormalised discrete Fourier transform,
   backward for every size built from 2, 3 and 5, forward exactly for those without a factor 5
   (`CfftInfo`, `CfftFive`); what comes out forward for the others is stated for every input (`CfftForward`).
3. **The filterbank** (`filtbank.c`). Over exact reals, all four window sequences are one overlap-add,
   and any legal sequence of frames reconstructs the signal perfectly, as functions (`FilterBank`) and
   run through the arrays (`FilterBankRun`, `FilterBankFrames`).
   Eight short blocks are included; their analysis is defined from subclause 4.6.11 of ISO/IEC 14496-3,
   since `filter_bank_ltp` leaves them out.
4. **The streaming path** (`spiram_fifo.c`, `common_buffer.c`). One reader and one writer task as a
   state machine of the steps between two calls into the scheduler (`Fifo`), and the sliding buffer that
   the reader fills from it, call by call (`StreamBuffer`) and over whole runs (`StreamRun`).
5. **The bit reader, the DRM side data and their checksum** (`bits.c`, `bits.h`, `drm_dec.c`): a window
   of two words refines one position over any run (`BitReader`, `BitReaderRun`); Huffman walkers, a delta
   decoder that conceals errors and a table-driven CRC are built on it (`DrmTree`, `DrmCodes`, `DrmPs`,
   `DrmPsInfo`, `Crc`).

## How to read it

A loop of the source is a method with a loop, a structure that is updated in place is a class or an
array, and each such method is proved against a function on values (`Decode`, `Frame`, `DeltaDecode`,
`ReaderNext`, ...). The lemmas are about those functions. Unsigned words are natural numbers below 2^32
with the C operators written out (`Words`); `uint16_t` arithmetic is written out where it can matter.

## What the proofs brought to light

- **Merging registers** (`hcr.c:145-174`): `concat_bits` is right for all contents exactly when both lengths
  together are at most 64 (`HcrWords.ConcatExact`, `HcrLimits.MergeExact`). A frame that fits its segments
  can break this: with two segments of 49 bits and one codeword of 49 bits, the second visit merges 45 bits
  with 45 (`HcrLongFrame.LongFrameOverflows`). Step 2 makes only right merges exactly when `Hcr.SetsFit`
  holds (`HcrLimits.SetsExact`, `HcrRegisters.RegistersExact`); that depends only on lengths (`HcrLimits.OnlyLengths`), and short codewords
  always meet it (`Hcr.ShortOnesFit`).
- **The bits behind the last segment** (`hcr.c:332-337`): when the leftover of the last segment has more than 32
  bits, its first 32 bits are stored twice. The merge is right exactly when its last 32 bits repeat its first
  32 (`HcrDecode.MergeLastExact`).
- **Codebook 16 is checked against 16** (`huffman.c:319-321`) but its segment width of 14 (`hcr.c:71-72`) leaves
  room for values up to 15 only: the codeword of a pair of sixteens takes 17 bits (`HcrWidths.SixteenTooWide`).
- **Escapes** (`huffman.c:141-157`, `huffman.c:528-544`) wrap to 16 bits; a value comes back exactly when it is a
  16-bit number (`CodewordsEncode.EscapeDecodes` with `Codewords.Wrap16`).
- **Radix 5 forward** (`cfft.c:549-552`) swaps two constants against the backward branch. It is the forward
  transform of the inputs with 2 and 3 exchanged (`FftStage.Radix5ForwardIs`), and so of the inputs themselves
  exactly when those agree (`FftStage.Radix5ForwardExact`). So `cfftf` transforms every
  input, and `cfftb` undoes it, exactly for sizes without a factor 5; for all others an impulse at index 2
  is an input that comes out wrong (`CfftInfo.Info.Forward`, `CfftInfo.ForwardBackward`). `CfftForward.ForwardIs`
  gives the outputs that do come out.
- **The fill level is looked at twice** (`common_buffer.c:159` with the macro `min` of
  `common_buffer.h:17-19`): bytes that arrive between the two looks can make a fill ask for more than fits.
  `StreamBuffer.FitsIff` gives the exact condition and `FitsNot` an example; everything else about the
  buffer is proved up to such a call, which cannot happen while the writer is quiet.
- **A buffer length is kept in 16 bits** (`common_buffer.c:85-107`): `buf_resize` leaves a well-formed buffer
  exactly when the new size modulo 65536 still covers the data (`StreamBuffer.Buffer.BufResize`).
- **No deadlock for any ring size** (`spiram_fifo.c:79-140`): because requests are cut at the end of the ring,
  the two tests never fail together, even for a ring of one byte (`Fifo.OneTestHolds`).
- **The second test of the innermost pre-sorting loop** (`hcr.c:300-301`), which a comment there wonders
  about, never ends the loop (`HcrPresort.CellFits`).

## Model

| member | source | states |
|---|---|---|
| HcrWords.Reverse32Bit | Firmware/components/libfaad/hcr.c:90-100 | five masked exchanges bring bit 31 - i of a word to place i |
| HcrWords.RewrevContent | Firmware/components/libfaad/hcr.c:106-142 | `rewrev_bits` reverses the low len bits as a list, for len up to 63 and any stale bits above them |
| HcrWords.ConcatContent | Firmware/components/libfaad/hcr.c:145-174 | `concat_bits` yields the bits of a followed by those of b, across the 32-bit border |
| HcrWords.ConcatExact | Firmware/components/libfaad/hcr.c:145-174 | the merge is right for all contents of two given lengths if and only if together they have at most 64 bits |
| HcrWords.ShowContent | Firmware/components/libfaad/bits.h:394-415 | `showbits_hcr` is the number spelled by the next n bits, with zeros after the last one |
| HcrWords.FlushContent | Firmware/components/libfaad/bits.h:417-427 | `flushbits_hcr` drops bits off the front; past the end only the length becomes 0 |
| BitReader.Fetched | Firmware/components/libfaad/bits.h:92-141 | a fetch of four, some or no remaining bytes is that word of the endless bit stream |
| BitReader.BitFile.constructor | Firmware/components/libfaad/bits.c:38-85 | a non-empty buffer puts the reader at position 0; an empty one only sets the error flag |
| BitReader.BitFile.GetProcessedBits | Firmware/components/libfaad/bits.c:92-95 | the processed bits are the position |
| BitReader.BitFile.FlushBitsEx | Firmware/components/libfaad/bits.c:109-130 | the two-word window moves on to the next word and keeps standing for one position |
| BitReader.BitFile.FlushBits | Firmware/components/libfaad/bits.h:156-168 | skipping n bits moves the position by n, for as many bits as the two words hold |
| BitReader.BitFile.ShowValue | Firmware/components/libfaad/bits.h:143-154 | `faad_showbits` is the number spelled by the next bits of the stream |
| BitReader.BitFile.GetBits | Firmware/components/libfaad/bits.h:171-187 | `faad_getbits` answers the next n bits and moves the position by n, for up to 32 bits, and says when the first word is used up |
| BitReader.BitFile.Get1Bit | Firmware/components/libfaad/bits.h:189-208 | `faad_get1bit` answers the next bit, on its fast path and on its slow one |
| BitReader.BitFile.ByteAlign | Firmware/components/libfaad/bits.c:97-107 | alignment skips fewer than 8 bits, up to a multiple of 8, and reports how many |
| BitReader.BitFile.RewindBits | Firmware/components/libfaad/bits.c:133-161 | rewinding is position 0 |
| BitReader.BitFile.ResetBits | Firmware/components/libfaad/bits.c:164-201 | resetting to bit b is the same state as skipping b bits from the start, when the word of b starts inside the buffer or at its end |
| BitReader.BitFile.GetBitBuffer | Firmware/components/libfaad/bits.c:203-226 | reading the returned bytes again gives the same bits |
| BitReaderRun.Perform | Firmware/components/libfaad/bits.h:143-208 | each operation moves one position, with a flag for a used-up first word on a word border, and answers what the stream holds there |
| BitReaderRun.Run | Firmware/components/libfaad/bits.c:38-226 | after any sequence of operations that C defines, 32-bit reads and copies included, the two-word reader stands where the positions say and has answered what the stream says |
| Codewords.Decode | Firmware/components/libfaad/huffman.c:337-391 | a decoded codeword has positive length within the given bits and as many values as its codebook has lines |
| Codewords.DecodeLocal | Firmware/components/libfaad/huffman.c:337-391 | what a codeword decodes to depends on no bit behind it |
| Codewords.DecodeTame | Firmware/components/libfaad/huffman.c:401-556 | no beginning of a codeword makes the decoder shift further than C defines |
| Codewords.CodewordDecodes | Firmware/components/libfaad/huffman.c:401-556 | a codeword is recognised whatever follows it, for any prefix-free tables |
| Codewords.ProperPrefixIsShort | Firmware/components/libfaad/huffman.c:401-556 | no proper prefix of a codeword is taken for a codeword, escapes and signs included |
| HuffmanHcr.SpectralData2 | Firmware/components/libfaad/huffman.c:401-556 | `huffman_spectral_data_2` gives the values and the rest of the register for a codeword, and -1 with length 0 and untouched words when the bits run out; escapes wrap to 16 bits |
| Huffman.SpectralData | Firmware/components/libfaad/huffman.c:310-391 | `huffman_spectral_data` gives the values of the codeword that is next and moves on by its length; the two constants for codebook 12; 11 for a codebook that does not exist |
| Huffman.GetEscape | Firmware/components/libfaad/huffman.c:124-158 | an escape of k ones is the k + 4 bits below a leading one, with the sign of the value, wrapped to 16 bits |
| Huffman.SignBits | Firmware/components/libfaad/huffman.c:107-122 | each nonzero value takes one sign bit |
| HuffmanAgree.BothDecode | Firmware/components/libfaad/huffman.c:337-556 | on the same bits both decoders give the same values for the same number of bits |
| HuffmanAgree.PrefixFails | Firmware/components/libfaad/huffman.c:401-556 | the register decoder answers -1 on every proper prefix of a codeword |
| Codebooks.PlainBooks | Firmware/components/libfaad/huffman.c:99-122 | books 1, 2, 5 and 6 give the values of the table, in the length of its word |
| Codebooks.SignedBooks | Firmware/components/libfaad/huffman.c:99-122 | in books 3, 4 and 7 to 10 each value that is not zero takes exactly one bit behind the word and is negative if and only if that bit is set |
| Codebooks.EscapeBooks | Firmware/components/libfaad/huffman.c:337-391 | books 11 and 16 to 31 share table 11: signs first, then an escape for each 16, then the bound of a virtual book |
| Codebooks.EscapeCases | Firmware/components/libfaad/huffman.c:528-556 | which escapes C leaves undefined, which lack bits, and how long the others are, by their number of ones |
| Codebooks.VirtualBound | Firmware/components/libfaad/huffman.c:317-335 | no value beyond the bound of a virtual book is ever given |
| Codebooks.Bounds | Firmware/components/libfaad/huffman.c:319-322 | the sixteen bounds in full |
| Codebooks.WhichTables | Firmware/components/libfaad/huffman.c:79-93 | seven tables are looked up in two steps, four are binary trees |
| Codebooks.TwoStepWord | Firmware/components/libfaad/huffman.c:166-190 | the first bits are an index of the first table, the bits behind them of the second one where the first does not settle the word |
| Codebooks.TreeWord | Firmware/components/libfaad/huffman.c:248-266 | a clear bit leads to the first branch of a node, a set one to the second |
| CodewordsEncode.EscapeDecodes | Firmware/components/libfaad/huffman.c:141-157 | the escape code of any value up to 31 bits is read back, wrapped to 16 bits and signed |
| CodewordsEncode.EncodeDecodes | Firmware/components/libfaad/huffman.c:337-556 | a codeword composed of its table word, its sign bits and its escapes decodes to the values it was made from |
| HcrPresort.OnePass | Firmware/components/libfaad/hcr.c:62-66 | every codebook is taken in exactly one pass; the virtual ones 16 to 31 only with section data resilience |
| HcrPresort.PassesInOrder | Firmware/components/libfaad/hcr.c:62-66 | the passes in full, in both modes |
| HcrPresort.PassTakes | Firmware/components/libfaad/hcr.c:176-194 | a pass takes the book it is named after and, below 11, the next one |
| HcrPresort.LargestFirst | Firmware/components/libfaad/hcr.c:62-66 | books that can hold larger values go first |
| HcrPresort.PlaceIs | Firmware/components/libfaad/hcr.c:254-258 | a codeword stands behind the windows of the groups before, the lines below its column in every window of its group, and the codewords before it |
| HcrPresort.Presort | Firmware/components/libfaad/hcr.c:270-361 | the six nested loops list exactly the codewords of the sections, in the order of their counters |
| HcrPresort.ListCell | Firmware/components/libfaad/hcr.c:286-355 | one section in one column of four lines lists all its codewords |
| HcrPresort.CellFits | Firmware/components/libfaad/hcr.c:300-301 | of the two tests of the innermost loop only the first ever ends it |
| HcrPresort.PlacesApart | Firmware/components/libfaad/hcr.c:303 | two codewords listed one after the other never share a line of the spectrum |
| HcrPresort.EveryCodewordListed | Firmware/components/libfaad/hcr.c:270-361 | each codeword of each section with a codebook in use is in the list, at its place |
| HcrPresort.ListedExactly | Firmware/components/libfaad/hcr.c:270-361 | a codeword is listed if and only if its section covers the band and has a codebook in use, its column lies in the band and it is one of those with room there; with its line of the spectrum in numbers |
| HcrPresort.ListedInOrder | Firmware/components/libfaad/hcr.c:270-361 | the pass counts first, then band, column, group, section and place in the column |
| HcrPresort.ListedApart | Firmware/components/libfaad/hcr.c:270-361 | listed codewords lie inside the frame, apart from each other, the important codebooks first |
| HcrPresort.CodewordsBound | Firmware/components/libfaad/hcr.c:222-223 | a frame of n lines has at most n / 2 codewords, so arrays of 512 are large enough |
| HcrSchedule.PutView | Firmware/components/libfaad/hcr.c:16-29 | what is written into the free part is what the reading direction of that set finds first, at every later stage |
| HcrSchedule.StepConserves | Firmware/components/libfaad/hcr.c:377-405 | a write takes exactly as much free space as it takes off the codeword |
| HcrSchedule.RunTrialsConserves | Firmware/components/libfaad/hcr.c:373-406 | over a whole set free space and unwritten bits shrink alike |
| HcrSchedule.RunSetsExtends | Firmware/components/libfaad/hcr.c:369-409 | no later set or trial overwrites what an earlier one wrote |
| HcrSchedule.SetFinishes | Firmware/components/libfaad/hcr.c:369-409 | if everything fits, no codeword is left unfinished by its own set |
| HcrSchedule.AllFinish | Firmware/components/libfaad/hcr.c:366-409 | numberOfCodewords / numberOfSegments sets are enough for all codewords |
| HcrSchedule.OneTurn | Firmware/components/libfaad/hcr.c:379-380 | each codeword has its turn in one set only, at one position |
| HcrSchedule.EachSegmentOnce | Firmware/components/libfaad/hcr.c:379 | in its set a codeword meets every segment in exactly one trial, its own first and then going round |
| HcrSchedule.SetsAre | Firmware/components/libfaad/hcr.c:366-369 | sets write from the right and from the left in turn; there is one for each full row of segments |
| HcrStepTwo.VisitRegisters | Firmware/components/libfaad/hcr.c:385-404 | on any data: one visit takes a codeword off the front of stash and segment, or makes all of it the stash and empties the segment |
| HcrStepTwo.Visit | Firmware/components/libfaad/hcr.c:379-404 | the innermost body does to the arrays what the visit does to lists |
| Hcr.ReverseSegments | Firmware/components/libfaad/hcr.c:407-408 | turning every segment round reverses what is left in it |
| HcrStepTwo.DecodeTrial | Firmware/components/libfaad/hcr.c:377-405 | one trial, on any data, does to the arrays what it does to lists |
| HcrStepTwo.DecodeSet | Firmware/components/libfaad/hcr.c:373-406 | one set, on any data, does to the arrays what it does to lists |
| HcrStepTwo.DecodeNonPriority | Firmware/components/libfaad/hcr.c:366-409 | step 2 in its registers and arrays, on any data: segments, stashes, flags and spectrum end up as on lists, and all other lines of the spectrum are left alone |
| Hcr.ShortOnesFit | Firmware/components/libfaad/hcr.c:389-402 | with leftovers of at most 31 bits and codewords of at most 33 no visit merges more than a register holds |
| HcrRoundTrip.RoundTrip | Firmware/components/libfaad/hcr.c:366-409 | for any prefix-free tables, any number of segments and any codewords that fit in them, step 2 finishes every codeword with exactly its own bits; no length is bounded |
| HcrRoundTrip.OwnSet | Firmware/components/libfaad/hcr.c:369-406 | and it finishes each of them before its own set is over |
| HcrJob.StepOneReceives | Firmware/components/libfaad/hcr.c:267-345 | step 1 on lists leaves before step 2 exactly what the encoder wrote behind the priority codewords |
| HcrJob.FrameRoundTrip | Firmware/components/libfaad/hcr.c:217-409 | from the bits of a frame on, both steps on lists decode every codeword to what its own bits decode to, for any frame that fits |
| HcrRegisters.MergeLengths | Firmware/components/libfaad/hcr.c:387-390 | the lengths that the decoder merges in a visit are those that the schedule of the encoder gives |
| HcrRegisters.SetsHoldExact | Firmware/components/libfaad/hcr.c:366-409 | on an encoder's segments the visits of step 2 stay within the registers if and only if the encoder's lengths do |
| HcrRegisters.RegistersExact | Firmware/components/libfaad/hcr.c:217-409 | the registers hold all of both steps if and only if no leftover passes 63 bits, the last one survives its merge, and every merge of step 2 is right |
| HcrLimits.MergeExact | Firmware/components/libfaad/hcr.c:145-174 | two nonempty lengths are merged right, whatever the bits, if and only if they are at most 64 together and the second is not 32 |
| HcrLimits.SetsExact | Firmware/components/libfaad/hcr.c:366-409 | the condition under which step 2 works in registers holds if and only if each merge that it executes is right whatever the bits |
| HcrLimits.OnlyLengths | Firmware/components/libfaad/hcr.c:366-409 | that condition is the same for any two frames with the same lengths |
| HcrLongFrame.LongWordIsCodeword | Firmware/components/libfaad/huffman.c:500-556 | tables with which book 11 has a codeword of 49 bits |
| HcrLongFrame.LongFrameOverflows | Firmware/components/libfaad/hcr.c:145-174 | a frame of two 49-bit segments that fits, and whose second visit merges 45 bits with 45, whatever data carries it |
| HcrValues.ValuesReturn | Firmware/components/libfaad/hcr.c:217-409 | on lists: codewords made from values decode to these values, for any frame that fits |
| HcrValues.ReorderedValues | Firmware/components/libfaad/hcr.c:217-409 | in the arrays: the values that went into the codewords stand at their places in the spectrum |
| HcrDecode.ReadSegment | Firmware/components/libfaad/hcr.c:194-207 | a segment of up to 64 bits is read as the next bits of the stream; a used-up first word matters only for widths 32 and 64 |
| HcrWidths.WidthOfWords | Firmware/components/libfaad/hcr.c:71-74 | without escapes a segment is as wide as the longest word of the table, with a sign bit for each value where signs follow |
| HcrWidths.WidthOfEscapes | Firmware/components/libfaad/hcr.c:71-74 | with escapes it is as wide as 5 bits of the table, two signs and two escapes of the largest value, 8191 in book 11 and the bound of a virtual book |
| HcrWidths.WidthSuffices | Firmware/components/libfaad/hcr.c:71-74 | no codeword made of moderate values is longer than its segment may be |
| HcrWidths.WidthNeeded | Firmware/components/libfaad/hcr.c:71-74 | and a longest word with all its signs and escapes fills it |
| HcrWidths.SixteenTooWide | Firmware/components/libfaad/hcr.c:71-72 | book 16 may carry a pair of sixteens, whose codeword is three bits longer than its segment |
| HcrValues.PrioritiesHaveRoom | Firmware/components/libfaad/hcr.c:74 | when no codeword exceeds the longest length that is sent, the priority codewords fit into their segments |
| HcrDecode.DecodePriority | Firmware/components/libfaad/hcr.c:311-317 | on any bits: a priority codeword is decoded from the start of its segment and the rest is kept turned round; nothing is left when there is none |
| HcrDecode.MergeLastContent | Firmware/components/libfaad/hcr.c:326-343 | the bits behind the last whole segment, turned round, come before its leftover, of which a part comes twice when it has more than 32 bits |
| HcrDecode.MergeLastExact | Firmware/components/libfaad/hcr.c:332-343 | the leftover survives that merge if and only if it has at most 32 bits or its last 32 repeat its first 32 |
| HcrDecode.ReadPriorities | Firmware/components/libfaad/hcr.c:309-320 | step 1 cuts any data into segments, and decodes and keeps what the decoder on lists does |
| HcrDecode.FinishSegments | Firmware/components/libfaad/hcr.c:324-345 | after step 1 the last segment holds the bits that make up no whole segment, too |
| HcrDecode.ReorderedSpectralData | Firmware/components/libfaad/hcr.c:217-409 | given the list of codewords and any data: error 10 and success 0 as the code returns them, whatever the decoder on lists decodes in its place, and no other line changed |
| HcrFrame.OneList | Firmware/components/libfaad/hcr.c:270-361 | there is only one list with the properties of the pre-sorted one |
| HcrFrame.PlacesGood | Firmware/components/libfaad/hcr.c:267-361 | the places that the sections give are apart and in the frame, so nothing about places has to be assumed |
| HcrFrame.AnyFrame | Firmware/components/libfaad/hcr.c:217-409 | the whole function on any sections of a frame of up to 1024 lines and any stream: arrays and registers do what the decoder on lists does |
| HcrFrame.ReorderedFrame | Firmware/components/libfaad/hcr.c:217-409 | and from a stream of the encoder, every codeword of every section ends up decoded in its place |
| HcrConservation.VisitKeepsOrder | Firmware/components/libfaad/hcr.c:385-404 | on any data: stash and segment together, in order, are what is used, stashed or left after the visit |
| HcrConservation.EveryBitKept | Firmware/components/libfaad/hcr.c:366-409 | on any data and whatever the decoder answers: after any visits and turns in any order, every bit is used by a decoded codeword, stashed by an undecoded one or in its segment, and nowhere else |
| HcrConservation.SetsAreMoves | Firmware/components/libfaad/hcr.c:366-409 | step 2 is such a sequence of visits and turns |
| HcrConservation.StepTwoKeeps | Firmware/components/libfaad/hcr.c:366-409 | so every bit is kept at every point of step 2 |
| Complex.DftIsSum | Firmware/components/libfaad/cfft.c:695-772 | the polynomial form of the transform is the sum of x[j] w^(jm) |
| FftStage.Radix2IsDft | Firmware/components/libfaad/cfft.c:77-160 | the radix 2 butterfly is a transform of its two inputs |
| FftStage.Radix3IsDft | Firmware/components/libfaad/cfft.c:163-298 | the radix 3 butterfly, in both directions |
| FftStage.Radix4IsDft | Firmware/components/libfaad/cfft.c:301-472 | the radix 4 butterfly, in both directions |
| FftStage.Radix5IsDft | Firmware/components/libfaad/cfft.c:475-691 | the radix 5 butterfly, backward |
| FftStage.Radix5ForwardExact | Firmware/components/libfaad/cfft.c:549-552 | the forward radix 5 butterfly is the forward transform if and only if inputs 2 and 3 are equal |
| FftStage.Radix5ForwardIs | Firmware/components/libfaad/cfft.c:549-560 | for every input, the forward radix 5 butterfly is the forward transform of the inputs with 2 and 3 exchanged |
| FftStage.BlockStep | Firmware/components/libfaad/cfft.c:301-386 | one pass splits a block so that output m of new block q is output q + ip m of the old one |
| Cfft.StageStep | Firmware/components/libfaad/cfft.c:708-762 | the stage invariant: before each pass block k carries outputs k, k + l1, k + 2 l1, ... of the whole transform |
| Cfft.RadixPass | Firmware/components/libfaad/cfft.c:72-691 | a pass stores every butterfly, twiddled, at its own place and nothing else, with the indices of each pass |
| Cfft.OutDistinct | Firmware/components/libfaad/cfft.c:301-386 | different butterflies write to different places |
| Cfft.CfftF1 | Firmware/components/libfaad/cfft.c:695-851 | the driver runs the passes for all factors in turn, through the two arrays and the copy back; when every pass transforms its inputs, the array ends up holding the unnormalised transform of what it held |
| Cfft.RunsTransform | Firmware/components/libfaad/cfft.c:695-851 | passes that transform their inputs lead, one after another, to the transform of the whole |
| CfftInit.StoreFactor | Firmware/components/libfaad/cfft.c:896-908 | a factor 2 found later is moved in front of all others |
| CfftInit.CandidateFits | Firmware/components/libfaad/cfft.c:880-894 | the trial divisor never exceeds what is left of n, so it does not wrap and the search ends |
| CfftInit.FewFactors | Firmware/components/libfaad/cfft.c:863-912 | a size below 65536 has at most ten factors, so 15 places are enough |
| CfftInit.Factorise | Firmware/components/libfaad/cfft.c:863-912 | the factors multiply to n, stand in the order of the trials 3, 4, 5, 7 and so on with at most one 2 in front, are all at most 5 exactly when 2, 3 and 5 build n, and then the factors 5 come last |
| CfftTwiddle.StageStart | Firmware/components/libfaad/cfft.c:914-955 | the offsets telescope: stage t starts at n minus what is left to split, below n |
| CfftTwiddle.MakeTwiddles | Firmware/components/libfaad/cfft.c:914-956 | the generator writes, inside the table, exactly the factors that the passes look up |
| CfftInfo.Info.constructor | Firmware/components/libfaad/cfft.c:960-994 | `cffti` leaves factors, work space and twiddles that fit together, for every size below 65536 |
| CfftInfo.Info.Backward | Firmware/components/libfaad/cfft.c:858-861 | `cfftb` computes sum c[j] w^(jm) for every size built from 2, 3 and 5 |
| CfftInfo.Info.Forward | Firmware/components/libfaad/cfft.c:853-856 | `cfftf` computes for every size built from 2, 3 and 5 and every input: output m is output m of the transform of the input turned for m; that is sum c[j] conj(w)^(jm) for every input exactly for the sizes without a factor 5 |
| CfftForward.ForwardIs | Firmware/components/libfaad/cfft.c:693-851 | the forward passes lead to the transform of the input in which, for output m, a sample is turned by fifths of a circle at each factor 5 where it has the digit 2 or 3 |
| CfftForward.StageTurned | Firmware/components/libfaad/cfft.c:475-691 | what one forward pass does to a block is compatible with the turns of all passes behind it |
| CfftForward.NotTurned | Firmware/components/libfaad/cfft.c:853-856 | without a factor 5 nothing is turned |
| CfftFive.ForwardFails | Firmware/components/libfaad/cfft.c:549-552 | on a size with a factor 5 the passes in forward direction do not lead from that impulse to its transform |
| CfftInfo.BackwardUndoesForward | Firmware/components/libfaad/cfft.c:853-861 | a transform of a transform with the conjugate root is n times the input |
| CfftInfo.ForwardBackward | Firmware/components/libfaad/cfft.c:853-861 | `cfftf` followed by `cfftb` multiplies every input by n exactly for the sizes without a factor 5 |
| CfftInfo.TurnedBack | Firmware/components/libfaad/cfft.c:858-861 | the backward transform gives n times x if and only if it was given the forward transform of x |
| FilterBank.EvenForSixteens | Firmware/components/libfaad/filtbank.c:174-178 | the divisions of the frame length come out even exactly for multiples of 16 |
| FilterBank.TwoBlocksMeet | Firmware/components/libfaad/filtbank.c:262-297 | at most two of the eight short blocks meet at a sample, the one behind falling and the one ahead rising |
| FilterBank.Cancellation | Firmware/components/libfaad/filtbank.c:214-317 | a falling slope and the rising slope over it cancel their aliasing |
| FilterBank.FrameResponse | Firmware/components/libfaad/filtbank.c:164-405 | whatever its sequence, a frame leaves the slopes of its window on its two halves; the middle of eight short blocks is the signal itself |
| FilterBank.DecoderStep | Firmware/components/libfaad/filtbank.c:214-317 | one overlap-add is one step of the decoder |
| FilterBank.Reconstructs | Firmware/components/libfaad/filtbank.c:164-405 | once the overlap holds the falling slope of the first block, a legal sequence of frames gives back the signal |
| FilterBank.PerfectReconstruction | Firmware/components/libfaad/filtbank.c:164-405 | from any overlap, any legal sequence of the four window sequences gives the signal back one frame later |
| FilterBankRun.AddLong | Firmware/components/libfaad/filtbank.c:220-227 | the unrolled loop adds the first half under a long slope |
| FilterBankRun.SaveLong | Firmware/components/libfaad/filtbank.c:229-236 | the unrolled loop keeps the second half under a long slope |
| FilterBankRun.SaveStart | Firmware/components/libfaad/filtbank.c:252-259 | ones, a short slope and zeros over the second half |
| FilterBankRun.AddStop | Firmware/components/libfaad/filtbank.c:304-311 | zeros, a short slope and ones over the first half |
| FilterBankRun.InverseAll | Firmware/components/libfaad/filtbank.c:263-271 | the eight transforms fill the buffer block by block |
| FilterBankRun.AddShort | Firmware/components/libfaad/filtbank.c:273-284 | the first half of eight short blocks, each at nflat_ls + k nshort |
| FilterBankRun.SaveShort | Firmware/components/libfaad/filtbank.c:286-297 | the second half of eight short blocks |
| FilterBankRun.IFilterBank | Firmware/components/libfaad/filtbank.c:214-317 | each branch sample by sample: the long or short window of the previous shape on the first half, of this shape on the second; all are time_out = overlap + z[0..n), overlap = z[n..2n) for one frame z |
| FilterBankRun.LongSamples | Firmware/components/libfaad/filtbank.c:216-258 | the three long branches in terms of the two window tables, sample by sample |
| FilterBankRun.EightAre | Firmware/components/libfaad/filtbank.c:262-299 | eight short blocks: in each stretch one block falls and the next rises, the first under the previous shape |
| FilterBankRun.FilterBankLtp | Firmware/components/libfaad/filtbank.c:370-404 | the forward transform of the samples under the long or short window of the previous shape on the first half and of this shape on the second |
| FilterBankFrames.RunFrames | Firmware/components/libfaad/filtbank.c:164-405 | frame after frame in the arrays, analysed and synthesised with one overlap buffer: every frame but the first gives back its first block, for any legal run and any overlap to start with |
| FilterBankExample.ConditionsCanBeMet | Firmware/components/libfaad/filtbank.c:49-93 | for every frame length there are windows and transforms that meet the conditions of the theorems |
| Fifo.Ring.constructor | Firmware/components/fifo/spiram_fifo.c:53-64 | the ring starts empty |
| Fifo.Ring.ReadSection | Firmware/components/fifo/spiram_fifo.c:86-100 | the reader's critical section takes the oldest n bytes, or changes nothing when there are fewer |
| Fifo.Ring.WriteSection | Firmware/components/fifo/spiram_fifo.c:121-136 | the writer's critical section stores behind the newest byte, or changes nothing when there is no room |
| Fifo.TakeOldest | Firmware/components/fifo/spiram_fifo.c:94-99 | taking bytes at rpos, with the wrap at the end, takes the oldest |
| Fifo.StoreNewest | Firmware/components/fifo/spiram_fifo.c:130-135 | storing bytes at wpos appends them |
| Fifo.StepKeeps | Firmware/components/fifo/spiram_fifo.c:79-140 | every step of either task keeps the order of the bytes, the mutual exclusion and the wakeups |
| Fifo.FirstInFirstOut | Firmware/components/fifo/spiram_fifo.c:79-140 | in every interleaving the delivered bytes are a prefix of those handed to the writer, and ring and writer hold the rest in order |
| Fifo.OneTestHolds | Firmware/components/fifo/spiram_fifo.c:82-121 | reader and writer cannot both find too little, whatever the size of the ring |
| Fifo.NoDeadlock | Firmware/components/fifo/spiram_fifo.c:79-140 | when no task can move, no call is in progress or one waits for bytes or room that only a new call can bring |
| Fifo.StepProgress | Firmware/components/fifo/spiram_fifo.c:79-140 | every step of a call in progress lowers a measure, failed rounds and low-mark retries included |
| Fifo.RunsEnd | Firmware/components/fifo/spiram_fifo.c:79-140 | however the tasks are scheduled, the calls in progress end after boundedly many steps |
| Fifo.CallsComplete | Firmware/components/fifo/spiram_fifo.c:79-140 | a read for which ring and writer hold enough completes with exactly the next bytes, and the write completes if the rest fits |
| Fifo.NeverWaits | Firmware/components/fifo/spiram_fifo.c:79-140 | a read of no more than the fill level never waits |
| Fifo.BlocksAre | Firmware/components/fifo/spiram_fifo.c:83-85 | a task moves as many bytes at once as are left of its call, fit into 64 and lie before the end of the ring |
| Fifo.WhoWaits | Firmware/components/fifo/spiram_fifo.c:87-92 | a reader that found too little waits only if it then sees less than 112 kilobytes; a writer that found too little room always waits |
| StreamBuffer.FitsIff | Firmware/components/common/include/common_buffer.h:17-19 | with the fill level looked at twice, the bytes asked for fit if and only if the level stays below or above the free space at both looks |
| StreamBuffer.FitsNot | Firmware/components/common/include/common_buffer.h:17-19 | there are levels for which more is asked for than fits |
| StreamBuffer.Buffer.constructor | Firmware/components/common/common_buffer.c:36-54 | a new buffer is empty; its length is kept in 16 bits |
| StreamBuffer.Buffer.MoveToFront | Firmware/components/common/common_buffer.c:24-33 | the unread bytes move to the front and stay the same |
| StreamBuffer.Buffer.FillReadBuffer | Firmware/components/common/common_buffer.c:156-168 | a fill appends the next bytes of the stream, as many as fit and are there, and asks for too many exactly when the level passes the free space between the looks |
| StreamBuffer.Buffer.BufRead | Firmware/components/common/common_buffer.c:206-239 | a read returns exactly the next bytes of the stream, or -1 and nothing is lost; while no fill overruns, it succeeds if and only if what is buffered, in the FIFO and in the first 100 arrivals suffices |
| StreamBuffer.Buffer.Await | Firmware/components/common/common_buffer.c:221-231 | the wait goes on until enough is there and gives up after 100 fills |
| StreamBuffer.Buffer.SeekTurn | Firmware/components/common/common_buffer.c:171-190 | a turn of the seek neither makes nor breaks that the stream reaches far enough, and only such a seek gets done |
| StreamBuffer.Buffer.BufSeekRel | Firmware/components/common/common_buffer.c:171-190 | a seek that the stream reaches ends, having skipped exactly that many bytes; one that it does not reach takes everything there is and loops on |
| StreamRun.Perform | Firmware/components/common/common_buffer.c:156-239 | each fill, read or seek takes the bytes right behind all that was read and skipped before |
| StreamRun.Run | Firmware/components/common/common_buffer.c:156-239 | after any sequence of them every read has returned the next bytes of the one stream, and read, skipped and unread bytes add up to those taken from the FIFO |
| StreamRun.KeptAt | Firmware/components/common/common_buffer.c:156-239 | event by event: what operation k took stands where everything before it leads to |
| StreamBuffer.Buffer.BufResize | Firmware/components/common/common_buffer.c:85-107 | the data survive; the buffer stays well formed if and only if the new size modulo 65536 still covers them |
| DrmTree.EntryStands | Firmware/components/libfaad/drm_dec.c:52-150 | in all four trees every entry is a row further down or a symbol in range, and stands nowhere else |
| DrmTree.PlaceHolds | Firmware/components/libfaad/drm_dec.c:52-150 | every symbol from -7 to 7, or -14 to 14, stands in its tree |
| DrmTree.Walk | Firmware/components/libfaad/drm_dec.c:507-519 | every walk ends, within as many bits as there are rows, with a symbol in range |
| DrmTree.HuffDec | Firmware/components/libfaad/drm_dec.c:507-519 | `huff_dec` is that walk on the bit file |
| DrmTree.CodeDecodes | Firmware/components/libfaad/drm_dec.c:507-519 | the code of every symbol of every tree decodes to that symbol |
| DrmTree.WalkIsCode | Firmware/components/libfaad/drm_dec.c:507-519 | and what a walk consumes is the code of its symbol |
| DrmTree.CodesDecode | Firmware/components/libfaad/drm_dec.c:507-519 | any sequence of symbols comes back from its concatenated codes |
| DrmCodes.FSaCodes | Firmware/components/libfaad/drm_dec.c:52-68 | the code of every symbol, bit by bit, as the comments of the table spell them |
| DrmCodes.TSaCodes | Firmware/components/libfaad/drm_dec.c:70-86 | the code of every symbol, bit by bit, as the comments of the table spell them |
| DrmCodes.FPanCodes | Firmware/components/libfaad/drm_dec.c:88-118 | the code of every symbol, bit by bit, as the comments of the table spell them |
| DrmCodes.TPanCodes | Firmware/components/libfaad/drm_dec.c:120-150 | the code of every symbol, bit by bit, as the comments of the table spell them |
| DrmPs.FreqRoundTrip | Firmware/components/libfaad/drm_dec.c:563-576 | differences in frequency lead back to the indices, and nothing is clipped |
| DrmPs.TimeRoundTrip | Firmware/components/libfaad/drm_dec.c:560-576 | differences in time lead back to the indices, and nothing is clipped |
| DrmPs.DeltaDecodeInv | Firmware/components/libfaad/drm_dec.c:550-636 | delta decoding keeps all ranges and, when ambience is still switched on, leaves it the last good indices |
| DrmPs.DecodeInv | Firmware/components/libfaad/drm_dec.c:904-963 | so does a decode, guessed or not, with or without data |
| DrmPs.DataInv | Firmware/components/libfaad/drm_dec.c:444-505 | so does reading a frame from any bits |
| DrmPs.ReachableIndices | Firmware/components/libfaad/drm_dec.c:444-963 | in every reachable state SA indices are 0 to 7, PAN indices -7 to 7 and equal to the last good ones, and no sum, in time or in frequency, leaves 8 bits |
| DrmPs.DataReads | Firmware/components/libfaad/drm_dec.c:444-505 | the bits of a frame are read as the switches and differences that were sent |
| DrmPs.FrameArrives | Firmware/components/libfaad/drm_dec.c:444-963 | from any reachable state the bits of a frame give the decoder exactly the indices that were sent |
| DrmPs.ClippedIsConcealed | Firmware/components/libfaad/drm_dec.c:579-636 | after a clipped ambience index both parts fall back to the last switches and good indices |
| DrmPs.FrameIsDecoded | Firmware/components/libfaad/drm_dec.c:550-636 | every outcome of a frame: lost ambience takes panning with it, a clipped panning index costs panning alone, differences in time need a frame before, and what is played is remembered |
| DrmPs.GuessPlaysOn | Firmware/components/libfaad/drm_dec.c:920-932 | a guessed frame plays on with the indices and switches there are, marked as erroneous |
| DrmPs.NoDataForgets | Firmware/components/libfaad/drm_dec.c:912-918 | without data and without a guess only the frame before is forgotten |
| DrmPs.DataIsBits | Firmware/components/libfaad/drm_dec.c:444-505 | which bit is which switch, and which tree each part is read with |
| DrmPs.ClipIsNearest | Firmware/components/libfaad/drm_dec.c:521-548 | clipping leads to the index in range next to the sum |
| DrmPs.InitInv | Firmware/components/libfaad/drm_dec.c:889-896 | a new state has everything off and every index zero |
| DrmPs.FreqFrameResyncs | Firmware/components/libfaad/drm_dec.c:554-601 | an unclipped frame of differences in frequency makes any two decoders agree again |
| DrmPsInfo.Info.constructor | Firmware/components/libfaad/drm_dec.c:889-896 | a new decoder is all zeros |
| DrmPsInfo.Info.Data | Firmware/components/libfaad/drm_dec.c:444-466 | `drm_ps_data` is the reading function, and returns the bits it used in 16 bits |
| DrmPsInfo.Info.DeltaDecode | Firmware/components/libfaad/drm_dec.c:550-636 | `drm_ps_delta_decode` is the delta decoding function |
| DrmPsInfo.Info.Decode | Firmware/components/libfaad/drm_dec.c:904-963 | `drm_ps_decode` is the decoding function on the state |
| DrmPsInfo.PartInfo.ReadElement | Firmware/components/libfaad/drm_dec.c:468-505 | an element is a flag and one symbol for each band |
| DrmPsInfo.DecodeFreq | Firmware/components/libfaad/drm_dec.c:563-576 | the loop over bands adds up clipped differences and sets the error flag exactly when one was clipped |
| DrmPsInfo.DecodeTime | Firmware/components/libfaad/drm_dec.c:560-576 | the loop over bands adds clipped differences to the last frame |
| Crc.TableIsEight | Firmware/components/libfaad/bits.h:290-323 | each of the 256 table entries is what eight zero bits make of its index |
| Crc.TableStep | Firmware/components/libfaad/bits.h:342-345 | one look-up is eight one-bit steps |
| Crc.CheckCrc | Firmware/components/libfaad/bits.h:325-359 | table loop and bit tail compute the one-bit-at-a-time CRC of any length of message; 28 on a mismatch with the inverted stored byte |
| Crc.RegisterDivides | Firmware/components/libfaad/bits.h:346-350 | the shift register computes the residue of a long division by x^8 + x^4 + x^3 + x^2 + 1 |
| Crc.CrcIsResidue | Firmware/components/libfaad/bits.h:325-359 | the CRC is the residue of the message, its first byte inverted, followed by eight zeros |
| Crc.BurstDetected | Firmware/components/libfaad/bits.h:325-359 | two messages with one CRC that differ only within eight consecutive bits are the same |

## Left out

- HcrDecode.ReorderedSpectralData: in registers, data for which a segment passes 63 bits when it is turned, a visit of step 2 merges lengths that one register does not hold, or an escape shifts further than C defines (`RegistersHold`), since the C shifts are undefined or drop bits there; the decoder on lists has no such condition.
- HcrWords.ConcatContent: not for b.len of 0 or 32, where the C shifts are undefined.
- HcrWords.RewrevContent: not for a length of 64, where the C shift is undefined.
- HcrWidths.WidthSuffices: the words of the tables enter by their lengths only (`WordLengths`); the tables themselves are data and stay parameters.
- HuffmanHcr.SpectralData2: not for an escape whose shifts C leaves undefined: more than 28 leading ones, 28 with no bit behind them, or 27 or 28 with all their bits there.
- Huffman.SpectralData: its stream never ends, so it is specified where a codeword comes next.
- BitReader.BitFile.GetBits: not for 32 bits when none are left in the first word, where the C shift is undefined.
- HcrPresort.Presort: the enumeration and what its body does with each codeword are two methods, since the body never changes what the loops look at; loop counters are not cut to 8 bits.
- CfftInfo.Info.Backward: not for sizes with prime factors above 5, for which `cfft.c` has no pass.
- Cfft.CfftF1: exact arithmetic, with the algebraic facts about the constants and the twiddles as conditions; float rounding, the fixed-point build and its tables are not part of this model.
- FilterBank.PerfectReconstruction: exact reals; `mdct.c` is not part of this model, so that its two transforms leave aliasing only is a condition, as is that the squares of mirrored window samples add up to one. `FilterBankExample` shows that the conditions can be met.
- FilterBankRun.FilterBankLtp: which transform plan a length selects, and the LD object type with its windows.
- Fifo.NoDeadlock: one reader and one writer; `spiRamFifoReset`, the overflow counters and the pacing of `taskYIELD` are not part of this model.
- StreamBuffer.Buffer.BufRead: the product of size and count is one argument, taken as `size_t` computes it; time passes only as the number of tries.
- StreamBuffer.Buffer.BufSeekRel: a seek that loops on without anything ever arriving is an outcome of its own (`Endless`), where the source does not return.
- `buf_write`, `buf_seek_abs`, `buf_wrap`, `fread16` and `fread32`: they would add only easy members, or compare addresses with numbers.
- DrmPsInfo.Info.Decode: the state of the indices only; the sample arithmetic of `drm_calc_sa_side_signal`, `drm_add_ambiance` and `drm_add_pan` is float code.
- Crc.CheckCrc: bytes are bit vectors; the register is an `unsigned int` whose higher bits the source masks away.
- Reverse bit readers, `drc.c`, `is.c`, `ic_predict.c`, the MP4 header parser and the fixed-point helpers: easy, bounded or float code.
- Network, display, I2C, I2S, GPIO and codec glue: plumbing over libraries that are not part of this model.
