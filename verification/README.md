# Verification of the Codec2 plugin's bit layer, reference sets and work pipeline

This Dafny project models three parts of the Intel Codec2 media components and proves
properties of them for all inputs and all interleavings.

1. **The H.264/H.265 bit layer.** `OutputBitstream` writes bits, `ue(v)` and `se(v)` codes
   and preventing bytes into a buffer; `BytesSwapper` removes the preventing bytes and packs
   the rest into big-endian words; `AVCBaseBitstream` and its HEVC descendant read bits and
   Exp-Golomb codes from the words. One refinement is proved per layer and the layers
   compose into a round trip over any list of elements.
2. **Parsing on that reader.** Short-term reference picture sets (prediction, in-place sort,
   the derivation of section 7.4.8 of H.265, the list of a sequence parameter set), the search
   for SEI messages, AVC scaling lists and level scales, and the de-tiling copy.
3. **The work pipeline.** The command queue, the decoder's and the encoder's threads and the
   life cycle of a component, as steps between critical sections with every answer of the
   codec, the clock and the operating system left open.

`dafny verify dfyconfig.toml` checks everything.

## How the parts are laid out

| layer | files |
|---|---|
| bit strings and the escape rules | `BitStrings.dfy`, `Emulation.dfy`, `ExpGolomb.dfy` |
| writer, swapper, reader, round trip | `Closing.dfy`, `OutputBitstream.dfy`, `BytesSwapper.dfy`, `BitReader.dfy`, `RoundTrip.dfy` |
| reference picture sets | `RefPicSets.dfy`, `ReferencePictureSet.dfy`, `RpsSyntax.dfy`, `RpsStandard.dfy`, `RpsReading.dfy`, `RpsParser.dfy` |
| SEI search | `SeiSearch.dfy`, `SeiCut.dfy`, `SeiStream.dfy` |
| scaling lists | `ScanTables.dfy`, `ScalingLists.dfy`, `LevelScales.dfy` |
| de-tiling | `Detile.dfy` |
| command queue | `StepHistory.dfy`, `CmdQueue.dfy`, `NullCommands.dfy`, `QueueViews.dfy` |
| decoder | `DecoderPipeline.dfy`, `DecoderConservation.dfy`, `DecoderBounds.dfy`, `DecoderGuards.dfy`, `DecoderStops.dfy`, `DecoderRestarts.dfy`, `DecoderFlush.dfy`, `DecoderEos.dfy`, `DecoderPhases.dfy`, `DecoderQueues.dfy`, `PendingWorks.dfy` |
| encoder | `EncoderPipeline.dfy`, `EncoderOrder.dfy`, `EncoderDelivery.dfy`, `EncoderStops.dfy`, `EncoderAborts.dfy`, `EncoderEos.dfy`, `EncoderQueues.dfy`, `EncoderComponent.dfy` |
| life cycle | `LifeCycle.dfy` |

Code that changes things step by step is a class or a method with loops, proved against a
specification function; the lemmas are about those functions. A run of the pipeline is a
sequence of steps, each enabled in the state before it (`Allowed`) with the state after the
last one (`Result`).

### The decoder's steps

| step | what it stands for |
|---|---|
| `Start(ok)` | `DoStart` (decoder component, lines 802-831); `ok` is false when setting up the session breaks its loop, which leaves both threads unstarted and still reports success |
| `QueueWork`, `QueueDrain` | one item of `Queue` (2876-2916); a non-empty end-of-stream work is followed by a drain pushed on its own |
| `SetFlushing` … `ReturnFlushed` | `Flush` (2921-2976), one step for each critical section or wait |
| `BeginStop` … `ClearPending` | `DoStop` (833-858): each queue's shutdown in its two sections, then the pending works |
| `Take` | the working thread pops a task: the flushing test of `DoWork`, the initialisation test of `Drain`, `PushPending` of works behind the end of the stream |
| `Empty`, `Pend` | `DoWork` (2166-2230): the work is answered at once, or becomes pending |
| `Gate`, `Output`, `Increment`, `NoOutput`, `Busy` | `DecodeFrameAsync` (1664-1728) and the hand-off in `DecodeFrame` (1730-1869) |
| `NewFormat`, `ClearOthers` | a resolution change (2288-2320) |
| `Leave`, `SkipDrain`, `DrainDone` | the end of a loop over `DecodeFrame`, in `DoWork` or `Drain` (2393-2443) |
| `Report`, `Deliver` | the end of `DoWork` (2348-2370) |
| `TakeWait`, `Match`, `Notify`, `Decrement` | the waiting thread: `WaitWork` (2613-2806) and end-of-stream tasks |

The encoder's steps (`EncoderPipeline.Apply`) follow `DoStart` (753-809), `DoStop` (811-834),
`Queue` (2297-2328), `DoWork` (1477-1659), `Drain` (1661-1722) and `WaitWork` (1745-1928) of the
encoder component in the same way; those of the queue (`CmdQueue.Apply`) are its critical sections;
those of the life cycle (`LifeCycle.Apply`) are the beginning and the finishing section of start,
stop, release and the two error reports. `QueuesRun` of the decoder and of the encoder prove that
what their steps do to a queue and its thread is made of the queue's own steps.

### Where a promise needs a condition

- **A kept difference of 0** in a predicted set: the code counts it as positive, the standard's
  passes drop it. Both agree exactly when no candidate kept has difference 0.
- **Sixteen slots**: a predicted set fits the slots exactly when its reference holds at most 15
  pictures or a candidate is dropped. The parser's check makes sure of that exactly when the
  decoded picture buffer holds fewer than 16 pictures. The code admits 16: then a set of 16 is
  accepted, and one predicted from it keeping all candidates fills a 17th slot before the check
  refuses it. Lists that are accepted never do.
- **The size returned by the swapper** is exact up to an unescaped length of 2^32 - 4.
- **SEI sizes** become numbers of bits in 32 bits, exact below 2^29. The trailing byte 0x80 and
  two padding zeros are parsed as empty messages of the types 128 and 0. `mfxPayload` keeps 16
  bits of a type (its declaration is not part of this model).
- **Saving SEI messages** of two types swaps the bytes twice, the second time by the size the
  first swap returned. The second search covers all bytes exactly when there are no more
  preventing bytes than padding zeros. A payload of the second type survives exactly when the unit
  up to the payload's end is among the bytes searched, so what follows it may be lost.
- **The HEVC Exp-Golomb decoder** returns values for up to 31 leading zeros and refuses exactly the
  codes with 32 or more; the AVC one gives the same values and positions, and has to be given a
  one bit within 32.
- **Stopping a queue** executes all that was pushed before exactly when the thread is live and no
  null command of an earlier shutdown is ahead of a waiting task.
- **Stopping the decoder**, after any run, is sure to settle all works exactly when the stop aborts
  or no work is stranded: none is queued where its thread is gone or ends at a null command before
  it (`Stranded`, `StrandedWaits`), and no end-of-stream work that the working thread will hand
  over comes to such a place (`EosComes`). `DoStart` reports success also when it started no
  threads; the stop that follows leaves null commands, and after one of those the next start's
  threads end early. Where every earlier stop found started threads, threads started now suffice.
- **Stopping the encoder** answers all works exactly under the same condition, with the
  outputs that the working thread may still push in place of the end-of-stream works. A stop that
  aborts leaves nothing behind and drops what it finds queued.
- **Flushing the decoder** returns what is pending when flushing mode ends exactly when nothing is
  pending or the waiting thread is past its last output: the waiting queue was seen empty, but its
  last command may not have ended and can still be matched with a pending work, which then is
  notified. What was queued for decoding when the flush began is returned in any case.
- **The decoder's counter** counts the outstanding outputs throughout a run exactly when every start
  finds no output left in the waiting queue. Over later restarts that is sure exactly when no null
  command was left there by a stop that found no waiting thread, whether later stops abort or not.
  With one left the counter can wrap: the gate then reads 2^32 - 1 with nothing outstanding.
- **The k-th encoder output** goes to the k-th work that entered exactly when no failed drain
  and no stop dropped a work before an output. The order of the outputs is the order of queueing
  in any case.
- **Life-cycle operations exclude each other** in exactly the runs where error reports take effect
  from stable states. That RELEASED is permanent needs no condition.

## Model

| member | source | states |
|---|---|---|
| OutputBitstreams.OutputBitstream.constructor | c2_utils/src/mfx_c2_bs_utils.cpp:27-36 | a new writer has put no bits |
| OutputBitstreams.OutputBitstream.GetNumBits | c2_utils/src/mfx_c2_bs_utils.cpp:49-52 | the bits put so far and eight more for each preventing byte inserted |
| OutputBitstreams.OutputBitstream.PutBit | c2_utils/src/mfx_c2_bs_utils.cpp:54-81 | appends one bit; it fails exactly when the escaped bytes of all bits do not fit, and what a failure leaves |
| OutputBitstreams.OutputBitstream.FinishByte | c2_utils/src/mfx_c2_bs_utils.cpp:63-80 | a filled byte is closed the way escaping appends it, or not at all |
| OutputBitstreams.OutputBitstream.CompletedBytesAreSafe | c2_utils/src/mfx_c2_bs_utils.cpp:63-74 | after every put the completed bytes hold no start code, and unescaping them gives the bits put, in bytes |
| OutputBitstreams.OutputBitstream.PutBits | c2_utils/src/mfx_c2_bs_utils.cpp:83-89 | appends the low-order bits of a value, high-order bit first, or fails exactly when they do not fit |
| OutputBitstreams.OutputBitstream.BitLength | c2_utils/src/mfx_c2_bs_utils.cpp:99-102 | the shift loop finds the position of the highest set bit |
| OutputBitstreams.OutputBitstream.PutUe | c2_utils/src/mfx_c2_bs_utils.cpp:91-107 | appends the ue(v) code word of section 9.1 of H.264, or fails exactly when it does not fit |
| OutputBitstreams.OutputBitstream.PutSe | c2_utils/src/mfx_c2_bs_utils.cpp:109-114 | appends the code word of the mapped value, or fails exactly when it does not fit |
| OutputBitstreams.OutputBitstream.PutTrailingBits | c2_utils/src/mfx_c2_bs_utils.cpp:116-121 | what was put is followed by a one and by zeros, up to the next byte boundary and no further |
| Closing.ClosedOnce | c2_utils/src/mfx_c2_bs_utils.cpp:116-121 | closed bits end one payload only, and a payload is closed in one way |
| Closing.ClosedRecovered | c2_utils/src/mfx_c2_bs_utils.cpp:116-121 | the payload is what comes before the last one bit, whatever zeros follow |
| OutputBitstreams.EncodedGrows | c2_utils/src/mfx_c2_bs_utils.cpp:54-81 | the bytes of more bits are never fewer, so a full buffer stays full |
| Emulation.EscapeWellEscaped | c2_utils/src/mfx_c2_bs_utils.cpp:65-74 | escaped bytes never hold 00 00 followed by 00, 01 or 02, every preventing byte is needed, and none ends the stream |
| Emulation.UnescapeEscape | c2_utils/src/mfx_c2_bs_utils.cpp:238-244 | removing the preventing bytes undoes inserting them, on all byte sequences |
| Emulation.EscapeUnescape | c2_utils/src/mfx_c2_bs_utils.cpp:220-244 | inserting undoes removing exactly on the well-escaped sequences |
| ExpGolomb.DecodeUe | c2_utils/src/mfx_c2_bs_utils.cpp:91-107 | the bit-by-bit definition decodes a written code word to its value and length |
| ExpGolomb.EncodeDecoded | c2_utils/src/mfx_c2_avc_bitstream.cpp:1909-1965 | what is decoded is the code word of the value decoded |
| ExpGolomb.SeInverse | c2_utils/src/mfx_c2_bs_utils.cpp:109-114 | the signed mapping and its inverse |
| ExpGolomb.UePrefixFree | c2_utils/src/mfx_c2_bs_utils.cpp:91-107 | no code word is a prefix of another |
| BytesSwapper.PackAllWords | c2_utils/src/mfx_c2_bs_utils.cpp:170-191 | packing byte by byte gives the big-endian words of the whole sequence |
| BytesSwapper.Append | c2_utils/src/mfx_c2_bs_utils.cpp:170-191 | one byte written and the pointer moved on: the packing with one more byte |
| BytesSwapper.CopyFirst | c2_utils/src/mfx_c2_bs_utils.cpp:275-283 | the first two bytes are copied unchecked, which removes nothing |
| BytesSwapper.CopyRest | c2_utils/src/mfx_c2_bs_utils.cpp:285-295 | the other bytes are copied without the preventing ones, which are counted |
| BytesSwapper.PadLastWord | c2_utils/src/mfx_c2_bs_utils.cpp:297-304 | zeros up to a whole word, and the size in 32 bits |
| BytesSwapper.SwapMemory | c2_utils/src/mfx_c2_bs_utils.cpp:262-310 | the words written are the unescaped bytes, zero-padded and packed; nothing behind them changes; the size returned |
| BytesSwapper.DstSizeExact | c2_utils/src/mfx_c2_bs_utils.cpp:297-304 | the size is the unescaped length rounded up to words exactly when that is a 32-bit number |
| BitStrings.PackWordsBits | c2_utils/src/mfx_c2_bs_utils.cpp:170-191 | packing keeps the bit string |
| BitReader.BitsAtVal | c2_utils/include/mfx_c2_avc_bitstream.h:148-174 | the shifts and masks within one word or across two give the number the bits denote |
| BitReader.AVCBaseBitstream.GetBits | c2_utils/include/mfx_c2_avc_bitstream.h:148-174 | reads 1 to 32 bits at any position |
| BitReader.AVCBaseBitstream.Get1Bit | c2_utils/include/mfx_c2_avc_bitstream.h:176-185 | reads one bit |
| BitReader.AVCBaseBitstream.UngetBits | c2_utils/include/mfx_c2_avc_bitstream.h:187-199 | goes back over up to 32 bits |
| BitReader.AVCBaseBitstream.NextBits | c2_utils/include/mfx_c2_avc_bitstream.h:204-228 | the same number as GetBits, with the position unchanged |
| BitReader.AVCBaseBitstream.BytesDecoded | c2_utils/include/mfx_c2_avc_bitstream.h:247-251 | the whole bytes before the position |
| BitReader.AVCBaseBitstream.BytesLeft | c2_utils/include/mfx_c2_avc_bitstream.h:253-256 | the size of the buffer less the whole bytes read, a byte begun counting as left |
| BitReader.AVCBaseBitstream.SkipZeroBytes | c2_utils/src/mfx_c2_avc_bitstream.cpp:1927-1935 | the byte-wise search stops at the first byte with a one; it terminates when there is one |
| BitReader.AVCBaseBitstream.LeadingOne | c2_utils/src/mfx_c2_avc_bitstream.cpp:1937-1942 | the shift loop finds the first one of a byte |
| BitReader.AVCBaseBitstream.DecodeExpGolombOne | c2_utils/src/mfx_c2_avc_bitstream.cpp:1909-1965 | byte by byte with look-ahead equals the bit-by-bit definition: value, signed mapping, and an advance of 2L + 1 bits from every offset |
| BitReader.AVCBaseBitstream.GetVLCElement | c2_utils/src/mfx_c2_avc_bitstream.cpp:302-313 | the same for the parser's element |
| BitReader.AVCBaseBitstream.LeadingOneH265 | c2_utils/include/mfx_c2_hevc_bitstream.h:135-140 | the bounded shift loop, also on a zero byte |
| BitReader.AVCBaseBitstream.SkipZeroBytesH265 | c2_utils/include/mfx_c2_hevc_bitstream.h:125-133 | the bounded search reads 33 bits at most |
| BitReader.AVCBaseBitstream.SkipLongCode | c2_utils/include/mfx_c2_hevc_bitstream.h:146-155 | the skip of a refused code lands on a valid position, even from a negative offset |
| BitReader.AVCBaseBitstream.DecodeExpGolombOne_H265 | c2_utils/include/mfx_c2_hevc_bitstream.h:104-176 | terminates on all bits, returns true exactly for at most 31 leading zeros and then value and position are those of the definition; where a refusal leaves the position |
| BitReader.AVCBaseBitstream.GetVLCElementU | c2_utils/include/mfx_c2_hevc_bitstream.h:179-189 | the unsigned value, or the exception, for all bits |
| BitReader.AVCBaseBitstream.GetVLCElementS | c2_utils/include/mfx_c2_hevc_bitstream.h:192-202 | the signed value, or the exception, for all bits |
| RoundTrip.StreamSurvives | c2_utils/src/mfx_c2_bs_utils.cpp:262-305 | bits escaped, swapped and packed are still the same bits |
| RoundTrip.PayloadRecovered | c2_utils/src/mfx_c2_bs_utils.cpp:116-121 | a closed payload, escaped, swapped and padded to words, is what comes before the last one bit of the words |
| RoundTrip.WriteElements | c2_utils/src/mfx_c2_bs_utils.cpp:54-121 | a list of elements is written exactly when its escaped bytes fit |
| RoundTrip.ReadElements | c2_utils/src/mfx_c2_avc_bitstream.cpp:1909-1965 | a list whose bits lie in the words is read back |
| RoundTrip.WriteSwapRead | c2_utils/src/mfx_c2_bs_utils.cpp:54-121 | any list of fixed-width, ue and se elements in range, written with emulation control, closed, swapped and read by either parser comes back as it was; only the room decides |
| RefPicSets.SortedOrder | c2_utils/include/mfx_c2_hevc_structures.h:469-497 | the sort keeps (delta, used) pairs and leaves the negatives descending, then the others ascending |
| RefPicSets.PredictionExact | c2_utils/src/mfx_c2_hevc_bitstream.cpp:1206-1239 | filter, sort and reversal give the lists of the three ordered passes exactly when no kept candidate has difference 0 |
| RefPicSets.SortCandidates | c2_utils/include/mfx_c2_hevc_structures.h:471-486 | sorting the kept candidates of an ordered set is reading them in the order of the second pass |
| RefPicSets.PredictionWellFormed | c2_utils/src/mfx_c2_hevc_bitstream.cpp:1206-1239 | a predicted set is strictly ordered on both sides and within the candidates' range |
| ReferencePictureSets.ReferencePictureSet.constructor | c2_utils/include/mfx_c2_hevc_structures.h:464-467 | a new set is all zero |
| ReferencePictureSets.ReferencePictureSet.MoveLeft | c2_utils/include/mfx_c2_hevc_structures.h:471-486 | the inner loop inserts one pair into the sorted slots of both arrays |
| ReferencePictureSets.ReferencePictureSet.ReversePrefix | c2_utils/include/mfx_c2_hevc_structures.h:487-496 | the second loop reverses the first slots of both arrays |
| ReferencePictureSets.ReferencePictureSet.SortDeltaPOC | c2_utils/include/mfx_c2_hevc_structures.h:469-497 | in place, the arrays come to hold the sorted set, for any number of up to 16 pictures; other slots are untouched |
| RpsReading.UeInverse | c2_utils/include/mfx_c2_hevc_bitstream.h:179-189 | an element is read exactly when its code word of at most 31 leading zeros comes next |
| RpsReading.ReadingInvertsWriting | c2_utils/src/mfx_c2_hevc_bitstream.cpp:1172-1270 | a set is read as a syntax exactly when that syntax's bits come next and the parser accepts it |
| RpsSyntax.PredictedMatchesPasses | c2_utils/src/mfx_c2_hevc_bitstream.cpp:1184-1239 | for a well-formed reference the predicted lists are those of section 7.4.8 of H.265 exactly when no kept candidate has difference 0 |
| RpsStandard.PredictedIsStandard | c2_utils/src/mfx_c2_hevc_bitstream.cpp:1184-1239 | the lists of a predicted set are those of equations 7-61 and 7-62 over the reference's lists and the coded flags, written out, exactly when no kept picture lands on the current one |
| RpsStandard.ChainSums | c2_utils/src/mfx_c2_hevc_bitstream.cpp:1250-1268 | picture i coded explicitly is the sum of the first i + 1 coded differences, each plus one, before or after the current one, in 32 bits, with the coded flag |
| RpsStandard.ExplicitIsStandard | c2_utils/src/mfx_c2_hevc_bitstream.cpp:1241-1269 | in the standard's range both lists of an explicit set are these sums |
| RpsStandard.ListIsStandard | c2_utils/src/mfx_c2_hevc_bitstream.cpp:515-532 | every set of an accepted conforming list is the standard's, coded explicitly or predicted from one before it |
| RpsSyntax.KeptZeroExample | c2_utils/src/mfx_c2_hevc_bitstream.cpp:1215-1234 | a kept difference of 0 counted as a positive picture where the passes give none |
| RpsSyntax.CandidatesInOrder | c2_utils/src/mfx_c2_hevc_bitstream.cpp:1206-1218 | the candidates of a well-formed reference come in the order the passes count on, without 32-bit overflow |
| RpsSyntax.ExplicitWellFormed | c2_utils/src/mfx_c2_hevc_bitstream.cpp:1241-1269 | explicitly coded sets in the standard's range are strictly ordered |
| RpsSyntax.PredictedWellFormed | c2_utils/src/mfx_c2_hevc_bitstream.cpp:1184-1239 | prediction keeps sets well formed |
| RpsSyntax.ListWellFormed | c2_utils/src/mfx_c2_hevc_bitstream.cpp:515-532 | every set of an accepted list is well formed and within the buffer, by induction over the list |
| RpsSyntax.SetsAtAccepted | c2_utils/src/mfx_c2_hevc_bitstream.cpp:524-532 | what the loop reads is an accepted list |
| RpsSyntax.KeepingAllGrows | c2_utils/src/mfx_c2_hevc_bitstream.cpp:1206-1234 | keeping every candidate adds one picture |
| RpsSyntax.SlotsExact | c2_utils/src/mfx_c2_hevc_bitstream.cpp:1206-1234 | a set predicted from up to 16 pictures fits the 16 slots exactly when the reference has at most 15 or a candidate is dropped |
| RpsSyntax.AcceptedBound | c2_utils/src/mfx_c2_hevc_bitstream.cpp:524-532 | every set of an accepted list is within the picture buffer, conforming or not |
| RpsSyntax.SeventeenPictures | c2_utils/src/mfx_c2_hevc_bitstream.cpp:1206-1234 | with a buffer of 16 an accepted list ends in a set of 16, and a set predicted from it has 17 pictures, which only the check behind the loop refuses |
| RpsSyntax.SixteenSlots | c2_utils/src/mfx_c2_hevc_bitstream.cpp:389-394 | no set predicted from accepted ones needs more than the slots there are, exactly for picture buffers below 16 |
| RpsParser.ReadCandidates | c2_utils/src/mfx_c2_hevc_bitstream.cpp:1206-1234 | the loop reads the flags, fills the slots with the kept candidates and counts them by sign |
| RpsParser.PredictFrom | c2_utils/src/mfx_c2_hevc_bitstream.cpp:1206-1238 | and the arrays then hold the derived set |
| RpsParser.ReadStep | c2_utils/src/mfx_c2_hevc_bitstream.cpp:1199-1238 | the predicted branch from the sign on, with its exception, for any reference whose kept candidates have slots |
| RpsParser.ReadPredicted | c2_utils/src/mfx_c2_hevc_bitstream.cpp:1184-1239 | the predicted branch: the index difference, read only for the set behind the list, and its check |
| RpsParser.ReadDifferences | c2_utils/src/mfx_c2_hevc_bitstream.cpp:1250-1268 | the loop fills the arrays with the sums of the coded differences, each plus one, and with the coded flags |
| RpsParser.ReadExplicit | c2_utils/src/mfx_c2_hevc_bitstream.cpp:1240-1270 | the explicit branch: counts, their check, both loops |
| RpsParser.ParseShortTermRefPicSet | c2_utils/src/mfx_c2_hevc_bitstream.cpp:1172-1270 | the arrays and counters of the set are those its syntax derives, for an explicit set the sums and flags coded; each exception exactly where the bits call for it |
| RpsParser.ParseNextSet | c2_utils/src/mfx_c2_hevc_bitstream.cpp:524-532 | one round of the list's loop with the check against the buffer |
| RpsParser.ParseSets | c2_utils/src/mfx_c2_hevc_bitstream.cpp:515-532 | the number of sets, at most 64, and the whole loop: the sets and syntaxes read, or the exception |
| RpsParser.ParseList | c2_utils/src/mfx_c2_hevc_bitstream.cpp:524-532 | the loop gives the list that lies in the bits, each set checked before the next is read |
| RpsParser.SetsAheadWhenRead | c2_utils/src/mfx_c2_hevc_bitstream.cpp:524-532 | what the parser asks for holds for every list accepted with a buffer of up to 16 pictures and two words behind it |
| SeiSearch.SizeKept | c2_utils/src/mfx_c2_hevc_bitstream.cpp:1163-1167 | a size survives becoming a number of bits exactly below 2^29 |
| SeiSearch.FirstMatch | c2_utils/src/mfx_c2_hevc_bitstream.cpp:1085-1116 | over any messages the first one of the type wanted is found with its size and bytes |
| SeiSearch.SkipMessages | c2_utils/src/mfx_c2_hevc_bitstream.cpp:1106-1115 | messages of other types are skipped whole |
| SeiSearch.NoMatch | c2_utils/src/mfx_c2_hevc_bitstream.cpp:1085-1117 | without a match something is found exactly by a search for type 128, which takes the trailing bits, or for type 0 where two padding zeros follow them; it is empty |
| SeiSearch.ReadRun | c2_utils/src/mfx_c2_hevc_bitstream.cpp:1128-1143 | a number coded by bytes of 255 and a last one, at any place of any data |
| SeiSearch.ParseSEI | c2_utils/src/mfx_c2_hevc_bitstream.cpp:1120-1169 | type and size of the next message in the widths they are kept in |
| SeiSearch.NextMatch | c2_utils/src/mfx_c2_hevc_bitstream.cpp:1085-1117 | the loop stops where the search says; the bytes left are its measure |
| SeiSearch.GetSEI | c2_utils/src/mfx_c2_hevc_bitstream.cpp:1072-1118 | the search for all data: type, bits and payload of what is found, nothing found, or the exception |
| SeiStream.SwappedBytesAre | c2_utils/src/mfx_frame_constructor.cpp:796-801 | the words the swapper writes read as the unescaped bytes |
| SeiStream.SaveMessage | c2_utils/src/mfx_frame_constructor.cpp:796-809 | one round: swapping, then searching; the answer and the size returned |
| SeiStream.FrameConstructor.SaveSEI | c2_utils/src/mfx_frame_constructor.cpp:771-826 | both rounds, the second with the size the first returned; what is kept of each type |
| SeiStream.FirstSaved | c2_utils/src/mfx_frame_constructor.cpp:782-820 | the payload of the first type, 137, is saved whatever else the unit holds; types other than 137 and 144 stay as they were |
| SeiStream.EmptyNotSaved | c2_utils/src/mfx_frame_constructor.cpp:806-820 | a message of that type without a payload replaces nothing |
| SeiStream.SecondSearchExact | c2_utils/src/mfx_frame_constructor.cpp:781-801 | the second search covers all bytes exactly when there are no more preventing bytes than padding zeros |
| SeiCut.CutSearch | c2_utils/src/mfx_c2_hevc_bitstream.cpp:1085-1117 | over data that stop inside the messages and go on with padding zeros a payload is found as it was only if the zeros are the bytes cut off |
| SeiStream.SecondFindsExact | c2_utils/src/mfx_frame_constructor.cpp:781-809 | a message is found with its payload in the first n bytes of a stream exactly when these hold the unit up to the payload's end |
| SeiStream.SecondSavedExact | c2_utils/src/mfx_frame_constructor.cpp:781-820 | the payload of the second type is saved exactly when the bytes of the second search hold the unit up to its end, whatever follows it; if it ends in no zero, exactly when that part, escaped, is no longer than the size the first swap returned |
| SeiStream.SecondCut | c2_utils/src/mfx_frame_constructor.cpp:781-801 | a message unit with trailing bits, two preventing bytes and no padding whose payload is saved with a wrong last byte |
| SeiStream.MessageFound | c2_utils/src/mfx_frame_constructor.cpp:778-810 | a message behind a header byte and other messages is found in the escaped stream with its payload |
| ScanTables.Scan4x4 | c2_utils/src/mfx_c2_avc_bitstream.cpp:137-151 | the 4x4 zig-zag scan visits each position once |
| ScanTables.Scan8x8 | c2_utils/src/mfx_c2_avc_bitstream.cpp:153-165 | so does the 8x8 one |
| ScanTables.Path4x4 | c2_utils/src/mfx_c2_avc_bitstream.cpp:137-151 | the 4x4 scan starts in the corner and goes along the anti-diagonals, up and down in turn |
| ScanTables.Path8x8 | c2_utils/src/mfx_c2_avc_bitstream.cpp:153-165 | so does the 8x8 one |
| ScalingLists.AcceptedScales | c2_utils/src/mfx_c2_avc_bitstream.cpp:1834-1892 | accepted scales are 1 to 255, and the default list is chosen exactly when the first difference is -8 |
| ScalingLists.ListRoundTrip | c2_utils/src/mfx_c2_avc_bitstream.cpp:1841-1853 | parsing the wrapped differences of any list of scales gives the list back |
| ScalingLists.ShortRoundTrip | c2_utils/src/mfx_c2_avc_bitstream.cpp:1841-1853 | so does the short form of a list that ends in a constant run |
| ScalingLists.NextScale | c2_utils/src/mfx_c2_avc_bitstream.cpp:1843-1850 | one scale, or the exception for a difference beyond a signed byte |
| ScalingLists.GetScalingList | c2_utils/src/mfx_c2_avc_bitstream.cpp:1834-1892 | each position gets its scale in scan order, or all get the default list, or the exception |
| LevelScales.Adjust4x4 | c2_utils/src/mfx_c2_avc_bitstream.cpp:98-114 | the index table chooses the class the standard gives a position |
| LevelScales.Adjust8x8 | c2_utils/src/mfx_c2_avc_bitstream.cpp:116-135 | the same for 8x8 |
| LevelScales.ProductFits | c2_utils/src/mfx_c2_avc_bitstream.cpp:1287-1300 | no product is truncated in 16 bits |
| LevelScales.LevelScale | c2_utils/src/mfx_c2_avc_bitstream.cpp:1281-1302 | the loops store the products of all 88 quantisers |
| LevelScales.TablesInRange | c2_utils/src/mfx_c2_avc_bitstream.cpp:98-135 | both tables meet what the loops need |
| Detile.LinearBijection | c2_components/src/mfx_c2_decoder_component.cpp:2447-2457 | the bytes of the linear plane left of the last whole tile and the places in the tiles correspond one to one |
| Detile.TiledInjective | c2_components/src/mfx_c2_decoder_component.cpp:2447-2457 | no byte of the tiled plane is used twice, whatever the width |
| Detile.OriginOf | c2_components/src/mfx_c2_decoder_component.cpp:2451-2456 | byte c of row r comes from tile c/16 + (r/32)*width/16, row r mod 32, column c mod 16 |
| Detile.OneYtiledToLinear | c2_components/src/mfx_c2_decoder_component.cpp:2447-2457 | one tile is copied and nothing else changes |
| Detile.DetilePlane | c2_components/src/mfx_c2_decoder_component.cpp:2468-2475 | the loops give every byte of a whole tile its origin's value and change no other byte |
| Detile.YtiledToLinear | c2_components/src/mfx_c2_decoder_component.cpp:2459-2486 | the value of every byte for any stride and height: chroma, over luma, over zeros |
| Detile.WholeTiles | c2_components/src/mfx_c2_decoder_component.cpp:2466-2483 | with strides and heights of whole tiles the planes do not overlap and every byte comes from its origin |
| Detile.HeightOfWholeTiles | c2_components/src/mfx_c2_decoder_component.cpp:2466-2469 | the height worked out from size and stride of such a picture is that of its rows of tiles |
| CmdQueue.InvRun | c2_utils/src/mfx_cmd_queue.cpp:80-133 | in every run commands are popped in push order, all but the dropped ones, and the tasks among them executed in that order |
| CmdQueue.EmptySeen | c2_utils/src/mfx_cmd_queue.cpp:92-97 | when the queue is seen empty all commands were popped or dropped, and all tasks popped but the last were executed |
| CmdQueue.PopExact | c2_utils/src/mfx_cmd_queue.cpp:58-90 | in every run a waiting thread gets the next command exactly when no pause was asked for since the last resume or shutdown |
| CmdQueue.StopExact | c2_utils/src/mfx_cmd_queue.cpp:99-119 | a stop is sure to execute everything pushed before it exactly when the thread is live and no null command is ahead of a waiting task |
| CmdQueue.NothingBehind | c2_utils/src/mfx_cmd_queue.cpp:121-133 | nothing behind a stop's null command is executed before the join |
| CmdQueue.StoppedStays | c2_utils/src/mfx_cmd_queue.cpp:41-49 | a stopped queue executes nothing until it is started |
| QueueViews.MoveMakes | c2_utils/src/mfx_cmd_queue.cpp:41-133 | each move of a pipeline on a queue is made of the queue's own steps |
| CmdQueue.DisciplinedStops | c2_utils/src/mfx_cmd_queue.cpp:99-119 | where each shutdown meets one live thread every stop executes all that was pushed |
| CmdQueue.MfxCmdQueue.Start | c2_utils/src/mfx_cmd_queue.cpp:41-49 | a thread is made only when none is there |
| CmdQueue.MfxCmdQueue.Push | c2_utils/include/mfx_cmd_queue.h:78-93 | the command goes to the end |
| CmdQueue.MfxCmdQueue.Pause | c2_utils/src/mfx_cmd_queue.cpp:58-63 | popping stops |
| CmdQueue.MfxCmdQueue.Resume | c2_utils/src/mfx_cmd_queue.cpp:65-71 | popping goes on |
| CmdQueue.MfxCmdQueue.BeginShutdown | c2_utils/src/mfx_cmd_queue.cpp:102-110 | an abort drops what is queued; the null command goes to the end; a pause ends |
| CmdQueue.MfxCmdQueue.EndShutdown | c2_utils/src/mfx_cmd_queue.cpp:111-118 | a thread that left its loop is joined |
| CmdQueue.MfxCmdQueue.WaitingPop | c2_utils/src/mfx_cmd_queue.cpp:80-90 | the front command is taken; a null one ends the loop |
| CmdQueue.MfxCmdQueue.FinishCommand | c2_utils/src/mfx_cmd_queue.cpp:121-133 | the command taken has run, and the thread is back at the queue |
| CmdQueue.MfxCmdQueue.IsEmpty | c2_utils/src/mfx_cmd_queue.cpp:92-97 | the condition waited for |
| DecoderQueues.QueuesRun | c2_components/src/mfx_c2_decoder_component.cpp:802-858 | in every run of the decoder both its queues are what a run of the command queue reaches: null commands, thread and shutdown |
| DecoderConservation.RunConserves | c2_components/src/mfx_c2_decoder_component.cpp:2166-2443 | in every interleaving of the three threads any additive weight of the accepted works is that of all places |
| DecoderConservation.ExactlyOnePlace | c2_components/src/mfx_c2_decoder_component.cpp:2876-2976 | so each accepted work is in exactly one place: queued, in a thread's hands, pending, flushed, notified, returned, or dropped by an abort |
| DecoderConservation.ClientConserves | c2_components/src/mfx_c2_decoder_component.cpp:2876-2976 | the client's steps lose and double no work |
| DecoderConservation.WorkingConserves | c2_components/src/mfx_c2_decoder_component.cpp:2166-2443 | nor do the working thread's |
| DecoderConservation.WaitingConserves | c2_components/src/mfx_c2_decoder_component.cpp:2667-2806 | nor do the waiting thread's |
| DecoderGuards.BoundedPipeline | c2_components/src/mfx_c2_decoder_component.cpp:1676-1684 | in runs whose starts find no output left outstanding outputs never exceed AsyncDepth, the working thread never reads a wrapped counter, and a drain's successful wait means all are done |
| DecoderGuards.DisciplinedClear | c2_components/src/mfx_c2_decoder_component.cpp:802-858 | every start finds no output left if every stop found started threads |
| DecoderGuards.CounterExact | c2_components/src/mfx_c2_decoder_component.cpp:802-808 | in any run the counter counts the outstanding outputs throughout exactly when every start finds none left; then it is read right and the bound holds |
| DecoderRestarts.CounterGuard | c2_components/src/mfx_c2_decoder_component.cpp:802-831 | from a stopped state any run reaches the counter is sure to be read right over all later sessions whose stops find threads exactly when no null command was left in the waiting queue, both with aborted stops and without |
| DecoderRestarts.WrappedCounter | c2_components/src/mfx_c2_decoder_component.cpp:810-830 | a start that failed to set up the session, and its stop, lead on, in a run without any abort, to a gate that reads 2^32 - 1 with nothing outstanding |
| DecoderBounds.WorkingCounted | c2_components/src/mfx_c2_decoder_component.cpp:1848-1855 | pushing before counting keeps the counter one behind just then |
| DecoderBounds.WorkingInStep | c2_components/src/mfx_c2_decoder_component.cpp:833-848 | the working thread passes its null command last, with the waiting thread still there |
| DecoderBounds.WorkingFlush | c2_components/src/mfx_c2_decoder_component.cpp:2921-2947 | works get flushed only during a flush, and after its wait the working thread is at rest |
| DecoderFlush.FlushSettles | c2_components/src/mfx_c2_decoder_component.cpp:2921-2976 | in every run a flush that returns leaves nothing queued, pending, flushed or in the working thread's hands; each work was notified, returned or aborted, once, or is being notified by the waiting thread |
| DecoderFlush.QueuedReturned | c2_components/src/mfx_c2_decoder_component.cpp:2921-2976 | a work queued for decoding when a flush begins is returned by it and not notified |
| DecoderFlush.FlushedReturned | c2_components/src/mfx_c2_decoder_component.cpp:2348-2370 | so is a work on the flush's list, and one whose decode ended with the flush seen |
| DecoderFlush.PendingExact | c2_components/src/mfx_c2_decoder_component.cpp:2938-2956 | all works pending when flushing mode ends are sure to be returned and not notified exactly when there are none or the waiting thread is past its last output |
| DecoderEos.EosReceivedExact | c2_components/src/mfx_c2_decoder_component.cpp:2876-2916 | in every run the component has the end of the stream exactly when a valid work with the flag was queued since the last start or flush |
| DecoderEos.QueuedAs | c2_components/src/mfx_c2_decoder_component.cpp:2876-2916 | so which task is queued for a work, by what was queued before it in the run |
| DecoderEos.BehindEndNotDecoded | c2_components/src/mfx_c2_decoder_component.cpp:2884-2890 | a work queued behind the end of the stream is never decoded, in whatever run follows |
| DecoderEos.TakenPends | c2_components/src/mfx_c2_decoder_component.cpp:2808-2846 | when the working thread comes to such a work it becomes pending, in place of one of its index |
| DecoderEos.DrainBehindEnd | c2_components/src/mfx_c2_decoder_component.cpp:2903-2910 | in every run a drain is queued right behind each work with data that ends the stream, and behind no other |
| DecoderEos.NothingBehindEnd | c2_components/src/mfx_c2_decoder_component.cpp:2884-2890 | where every stop found started threads nothing to be decoded is queued behind the end of the stream |
| DecoderPhases.DecodeStep | c2_components/src/mfx_c2_decoder_component.cpp:2240-2300 | a decode stays in its calls, meets a resolution change, or comes to its report, flushing only during a flush |
| DecoderPhases.ChangeReports | c2_components/src/mfx_c2_decoder_component.cpp:2288-2320 | in every run a resolution change gets every other pending work notified, or into the waiting thread's hands, before it is over |
| DecoderPhases.ReportDelivers | c2_components/src/mfx_c2_decoder_component.cpp:2348-2370 | a report takes its own work out of the pending ones, and no other, and flushes it exactly when the decode saw a flush |
| DecoderPhases.DrainStep | c2_components/src/mfx_c2_decoder_component.cpp:2393-2443 | a drain ends with its work behind all outputs, or flushed during a flush |
| DecoderPhases.UninitialisedDrain | c2_components/src/mfx_c2_decoder_component.cpp:2397-2443 | a drain of a decoder not initialised answers its work at once |
| DecoderBounds.InvRun | c2_components/src/mfx_c2_decoder_component.cpp:802-858 | queues, counter and flush stay in step in every run where stops follow starts |
| DecoderStops.StopSettles | c2_components/src/mfx_c2_decoder_component.cpp:833-858 | after a stop that meets the condition of StopExact every accepted work was notified, returned by a flush or dropped by an abort, once; in a run without aborts none was dropped |
| DecoderStops.StopExact | c2_components/src/mfx_c2_decoder_component.cpp:833-858 | after any run a stop is sure to leave nothing queued, in hand, pending or flushed exactly when it aborts or every queued work, and every end-of-stream work the working thread hands over, is ahead of the null commands of a live thread |
| DecoderStops.StrandedLeft | c2_components/src/mfx_c2_decoder_component.cpp:833-848 | a stop without abort leaves the works behind null commands or without a thread where they are, and strands no other queued task |
| DecoderStops.StartedReady | c2_components/src/mfx_c2_decoder_component.cpp:824-825 | threads started now meet the condition where every earlier stop found started threads |
| DecoderStops.StaleNull | c2_components/src/mfx_c2_decoder_component.cpp:810-830 | a started thread alone does not: the null command of the stop before ends it, and the work queued then stays queued |
| DecoderBounds.UnstartedStop | c2_components/src/mfx_c2_decoder_component.cpp:810-830 | stopping without started threads leaves the queued works queued and a null command in both queues |
| PendingWorksMap.InsertedOrdered | c2_components/src/mfx_c2_decoder_component.cpp:2837-2845 | pushing keeps one work per index: the new one is there, the one it replaces is not |
| PendingWorksMap.WithoutIndex | c2_components/src/mfx_c2_decoder_component.cpp:2350-2356 | taking a work out removes it and no other |
| PendingWorksMap.OrderedRun | c2_components/src/mfx_c2_decoder_component.cpp:2166-2443 | in every run of the decoder the pending works stay in the order of their indices, one work an index |
| PendingWorksMap.PushNotes | c2_components/src/mfx_c2_decoder_component.cpp:2814-2835 | a timestamp other than 0 that two pending works share is on record |
| PendingWorksMap.NotedExact | c2_components/src/mfx_c2_decoder_component.cpp:2814-2835 | a push records the timestamp of its work exactly when it is not 0 and a pending work has it too, and no other |
| PendingWorksMap.PendingWorks.IsDuplicatedTimeStamp | c2_components/src/mfx_c2_decoder_component.cpp:2087-2106 | whether a timestamp is on record |
| PendingWorksMap.PendingWorks.PushPending | c2_components/src/mfx_c2_decoder_component.cpp:2808-2846 | the map and the record of duplicated timestamps after a push, and the work reported |
| PendingWorksMap.PendingWorks.Take | c2_components/src/mfx_c2_decoder_component.cpp:2350-2360 | the work of an index, erased |
| PendingWorksMap.PendingWorks.TakeMatch | c2_components/src/mfx_c2_decoder_component.cpp:2667-2682 | the first work that matches a timestamp, erased |
| PendingWorksMap.PendingWorks.RemoveOthers | c2_components/src/mfx_c2_decoder_component.cpp:2298-2313 | all but one work, erased and reported in order |
| EncoderOrder.FifoRun | c2_components/src/mfx_c2_encoder_component.cpp:1628-1722 | works leave the pending queue in the order they entered, and the waiting thread delivers in push order |
| EncoderOrder.KthOutput | c2_components/src/mfx_c2_encoder_component.cpp:1633-1650 | the k-th output goes to the k-th work that entered exactly when none was dropped before an output |
| EncoderOrder.DeliveredInOrder | c2_components/src/mfx_c2_encoder_component.cpp:1919-1927 | notifications follow the order of pushing |
| EncoderOrder.EnteredDifferent | c2_components/src/mfx_c2_encoder_component.cpp:1633-1639 | no work enters twice |
| EncoderOrder.RunConserves | c2_components/src/mfx_c2_encoder_component.cpp:1477-1722 | every accepted work is queued, in hand, answered directly, entered or an end of stream |
| EncoderOrder.EndOfStreamLast | c2_components/src/mfx_c2_encoder_component.cpp:1704-1714 | if all of its drain's encodes succeed an end-of-stream work is notified after every work queued before it |
| EncoderEos.DrainBehindEnd | c2_components/src/mfx_c2_encoder_component.cpp:2297-2328 | in every run a drain is queued right behind each work with data that ends the stream, and behind no other |
| EncoderEos.EndOfStreamDrains | c2_components/src/mfx_c2_encoder_component.cpp:1661-1722 | when the last work accepted ended the stream and the working thread is through its queue nothing is pending: each work was answered, dropped or delivered, or is with the waiting thread |
| EncoderEos.FrameBeforeOutput | c2_components/src/mfx_c2_encoder_component.cpp:1628-1650 | the frame of an encode goes into the waiting queue right before the output it gives |
| EncoderDelivery.EnteredInQueueOrder | c2_components/src/mfx_c2_encoder_component.cpp:1477-1659 | works enter the pending works in the order the client queued them |
| EncoderDelivery.DeliveredOutputs | c2_components/src/mfx_c2_encoder_component.cpp:1628-1722 | outputs are notified in the order their works were queued, and the k-th notified is that of the k-th work entered exactly when none was dropped before one of them |
| EncoderDelivery.NotifiedInQueueOrder | c2_components/src/mfx_c2_encoder_component.cpp:1919-1927 | of two works notified with outputs the one notified first was queued first |
| EncoderDelivery.ExactlyOnePlace | c2_components/src/mfx_c2_encoder_component.cpp:1477-1928 | in every run each accepted work is in exactly one place: queued, in a thread's hands, pending, waiting, answered directly, dropped or delivered |
| EncoderStops.StopExact | c2_components/src/mfx_c2_encoder_component.cpp:811-834 | after any run a stop without abort is sure to leave nothing queued, in hand or pending exactly when every queued work, and every one the working thread may still push, is ahead of the null commands of a live thread |
| EncoderStops.StopAnswers | c2_components/src/mfx_c2_encoder_component.cpp:811-834 | after such a stop every accepted work was answered directly, dropped with an error or delivered, once in all, and no other work was |
| EncoderAborts.AbortSettles | c2_components/src/mfx_c2_encoder_component.cpp:822-834 | an aborted stop leaves nothing queued, in hand or pending, whatever state it begins in |
| EncoderAborts.AbortAnswers | c2_components/src/mfx_c2_encoder_component.cpp:811-834 | after an aborted stop every accepted work was answered directly, dropped with an error, delivered, or dropped from a queue, once in all; the deliveries still are the first of what was pushed |
| EncoderStops.StrandedLeft | c2_components/src/mfx_c2_encoder_component.cpp:822-828 | a stop leaves the works behind null commands or without a thread where they are, and strands no other queued task |
| EncoderStops.UnstartedStop | c2_components/src/mfx_c2_encoder_component.cpp:753-809 | a start that failed to set up the session and reports success, and a work queued then: the stop need not answer it |
| EncoderQueues.QueuesRun | c2_components/src/mfx_c2_encoder_component.cpp:753-834 | in every run of the encoder both its queues are what a run of the command queue reaches |
| EncoderComponent.MfxC2EncoderComponent.FetchOutputs | c2_components/src/mfx_c2_encoder_component.cpp:1667-1695 | the drain's loop hands the front works to the outputs in order |
| EncoderComponent.MfxC2EncoderComponent.DropPending | c2_components/src/mfx_c2_encoder_component.cpp:1716-1721 | what is left is notified in order |
| EncoderComponent.MfxC2EncoderComponent.Drain | c2_components/src/mfx_c2_encoder_component.cpp:1661-1722 | the whole drain: outputs, then the end of stream, then the rest with an error; a run of the pipeline's steps |
| LifeCycle.ExclusiveStep | c2_components/src/mfx_c2_component.cpp:323-488 | one operation at most is in progress, just then the state is a transition, of its kind |
| LifeCycle.ExclusionExact | c2_components/src/mfx_c2_component.cpp:548-608 | operations exclude each other in exactly the runs whose error reports begin from stable states |
| LifeCycle.CommittedEdges | c2_components/src/mfx_c2_component.cpp:348-488 | only permitted transitions are committed, the fall back of a release to STOPPED included |
| LifeCycle.NothingBetween | c2_components/src/mfx_c2_component.cpp:299-321 | where operations exclude each other the step behind a begin is the finish of the same operation |
| LifeCycle.StartOutcome | c2_components/src/mfx_c2_component.cpp:340-373 | a start leads to RUNNING exactly when its action succeeds, and back otherwise |
| LifeCycle.StartedExact | c2_components/src/mfx_c2_component.cpp:360-373 | the same at every point of disciplined runs |
| LifeCycle.StopOutcome | c2_components/src/mfx_c2_component.cpp:386-422 | a stop leads to STOPPED |
| LifeCycle.ReleaseOutcome | c2_components/src/mfx_c2_component.cpp:446-483 | a release leads to RELEASED exactly when the actions it needs succeed, to STOPPED when only the release itself fails |
| LifeCycle.ErrorOutcome | c2_components/src/mfx_c2_component.cpp:548-608 | a configuration error leads to TRIPPED, a fatal one to ERROR, which no start leaves |
| LifeCycle.ErrorDuringStart | c2_components/src/mfx_c2_component.cpp:365-368 | an error reported during a start is what the start commits |
| LifeCycle.UsersExcluded | c2_components/src/mfx_c2_component.cpp:92-129 | queueing and flushing find a running state with no operation in progress |
| LifeCycle.ReleasedForEver | c2_components/src/mfx_c2_component.cpp:437-488 | once a release succeeded both states stay RELEASED, in all runs |
| LifeCycle.MfxC2Component.CheckStateTransitionConflict | c2_components/src/mfx_c2_component.cpp:299-321 | duplicate, conflict or stable |
| LifeCycle.MfxC2Component.PreStart | c2_components/src/mfx_c2_component.cpp:340-358 | start begins exactly from a stable STOPPED or TRIPPED; its return codes |
| LifeCycle.MfxC2Component.PostStart | c2_components/src/mfx_c2_component.cpp:360-373 | a success commits the next state, a failure rolls back to the old one |
| LifeCycle.MfxC2Component.PreStop | c2_components/src/mfx_c2_component.cpp:386-413 | stop begins exactly from a stable running state, aborting from ERROR, and waits for the component's own transitions |
| LifeCycle.MfxC2Component.PostStop | c2_components/src/mfx_c2_component.cpp:415-422 | stop commits |
| LifeCycle.MfxC2Component.PreRelease | c2_components/src/mfx_c2_component.cpp:446-460 | release begins from any stable state but RELEASED |
| LifeCycle.MfxC2Component.PostRelease | c2_components/src/mfx_c2_component.cpp:464-483 | RELEASED if all needed actions succeeded, STOPPED if only the release failed, else the old state |
| LifeCycle.MfxC2Component.PreConfigError | c2_components/src/mfx_c2_component.cpp:548-560 | a configuration error takes effect exactly on the way to RUNNING |
| LifeCycle.MfxC2Component.PreFatalError | c2_components/src/mfx_c2_component.cpp:579-591 | a fatal error takes effect on the way to RUNNING or TRIPPED |
| LifeCycle.MfxC2Component.PostError | c2_components/src/mfx_c2_component.cpp:562-569 | the error state is committed |

## Left out

- `PutRawBytes` and `PutFillerBytes` of the writer: documented as not controlling emulation, so they break the escape rule by design.
- `More_RBSP_Data`: it does not look at all remaining bits and does not restore the position, so it is not the standard's more_rbsp_data().
- The swapper's cursor classes are values that a loop replaces, not objects; the reader's words are a sequence that never changes.
- Reads beyond the guard words: the reader's methods ask for the bits they touch to be there, as the code does without a check.
- RpsParser.ParseShortTermRefPicSet: earlier sets are passed as values, since parsing one set does not change another; a code word may start only before the two guard words, and a predicted set may keep no more than 16 candidates, because the code writes a 17th behind its arrays.
- RpsParser.ParseSets: asks the same of each set in turn; all lists accepted meet it (`SetsAheadWhenRead`).
- SeiStream.FrameConstructor.SaveSEI: asks for up to three bytes behind the message, which the second swap reads when the first one padded; the messages kept are bytes, not allocated payloads.
- BitReader.AVCBaseBitstream.DecodeExpGolombOne: asks for a one within the next 32 bits, because the code's loop has no other end and its shifts no meaning beyond that.
- OutputBitstreams.OutputBitstream.PutUe: asks for values up to 2^31 - 2, because above them the bit-counting shift reaches the width of the number, which C++ leaves undefined.
- Signed overflow of a deltaPOC, which C++ leaves undefined, wraps in the model.
- The other fields of parameter sets and slice headers, the sub-layer loop, the coding-block arithmetic, VUI and HRD: flat reading, one branch a check.
- The AVC SEI parser.
- GetScalingList is one method for both sizes; the code has two that differ in size and table.
- LevelScales.LevelScale: the adjustment tables are evaluated before the loops, not in them.
- Detile.YtiledToLinear: the 16- and 32-bit widths of sizes are not modelled; planes are below 2^31 bytes, and both have room for whole rows of tiles.
- Statuses and contents of notified works, surfaces, timestamps' conversion and partial-frame bookkeeping: the pipeline models where a work is, with matching by timestamp decided by the step.
- Which status the codec returns, timed waits, thread scheduling: any answer is allowed; liveness and fairness are not claimed.
- The encoder's counter and its drain during configuration, which runs outside the working thread.
- EncoderAborts.AbortAnswers: an aborted stop of the encoder, which `release` makes, ends the run; a start after one, which takes a release that failed, is not modelled.
- The limit on concurrent instances in `start`, listeners, parameters, the store, XML parsing, allocators, dump writers, VA-API and oneVPL.
