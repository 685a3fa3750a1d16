# Models of four FFmpeg components

A Dafny model of four independent pieces of FFmpeg, and proofs about them. Run
`dafny verify dfyconfig.toml` to check everything.

**4XM decoder** (`libavcodec/4xm.c`). `HuffmanReader`, `HuffmanTree` and `HuffmanCode` read the
frequency table, merge the two lightest live nodes in place in the 512-entry arrays, and climb the
parent links for the codes. `HuffmanDepth`, `HuffmanOptimal`, `PrefixCodes` and `HuffmanTheorems` say
what the finished tables are worth; `HuffmanTwoTrees`, `HuffmanAcceptance` and `HuffmanFullAlphabet`
what becomes of a full alphabet, and which tables the code-table constructor takes. `BlockTypes`,
`PBlocks`, `Painting`, `PFrames` and `PFrameDecoder` are the P-frame decoder: what the streams mean (a
list of leaves), what a leaf puts into the picture, and the recursive decoder that writes one frame
buffer from the other. `MotionVectors` and `PFramePackets` cut a packet into its streams. `BlockTrees`
and `PFrameTrees` are an independent writer of blocks, frames and packets. `FrameMap`, `FrameSlots` and
`FrameRuns` are the hundred-slot buffer for frames sent in pieces: the map it stands for, one piece,
and streams of pieces.

**AAC codebook selector** (`libavcodec/aaccoder_trellis.h`). `Trellis` is the dynamic program with run
lengths in its cells, `TrellisSections` the sections it writes and the decoder's parser for them,
`TrellisCost` the comparison of the minimised cost with the bits written, `TrellisLimits` the inputs it
is not optimal or not admissible on, and `TrellisSelector` the imperative function over the `path`
table, the stack and the band arrays.

**ffplay's queues** (`fftools/ffplay.c`). `PacketQueue` is the linked list and the sequence it stands
for. `SeekProtocol` (reader, decoder and main thread around one packet queue) and `FrameRing` (one
producer, one consumer) are state machines, and `PlayerFrames` joins them with the display; `SeekDelivery`
and `PlayerRun` say that they deliver what they are given. Every section under a mutex is one atomic
step, every unlocked read or write of a shared field is a step of its own, and the theorems are about
all interleavings.

**ffmpeg's output side** (`fftools/ffmpeg.c`). `RateConverter`, `RateTheorems` (counters, timestamps, drift)
and `RatePictures` (which pictures are sent) are `do_video_out`, with reals for the doubles and rounding to
the nearest integer, ties to even, for `lrint`;
`FilterChain` is the walk over the bitstream filters; `MuxTimestamps` is `write_packet`, with 64-bit
wrap-around.

`Sums`, `BitStrings` and `Bytes` hold the arithmetic the others share.

Where the source changes state in place there is a class or a method over arrays; its contract equates
the new state with a function of the old one, and the claims are lemmas about that function.

Some results differ from what one might expect of the code:

- The comment at `libavcodec/4xm.c:691` asks whether a code can be longer than 31 bits. It cannot:
  no table gives more than 22 (`HuffmanDepth.DepthBound`).
- With all 257 symbols in use the merge loop is one turn short and leaves two trees. Then either words
  begin longer ones, and where the constructor comes across one that does, as with all frequencies equal,
  the header is refused (`HuffmanReader.FlatHeaderIsRefused`); or some symbol is a tree of its own and has
  no word, and the header is taken (`HuffmanReader.TopHeavyHeaderIsTaken`). A symbol with more than two
  fifths of the weight has no word, and where each has less than a third, each has one
  (`HuffmanFullAlphabet.HeavyHasNoWord`, `HuffmanFullAlphabet.LightHaveWords`). Messages over the used
  symbols survive if and only if 2 to 256 are used (`HuffmanAcceptance.MessagesSurviveIff`).
- A frame with identifier 0 can be lost: once a hundred frames are open it may be collected behind a
  frame that then completes, and the freed slot, marked 0 itself, is taken for it from then on
  (`FrameRuns.ZeroIsBuried`, and exactly when in `FrameSlots.StepRefinesIff`). With a hundred frames open
  and a piece of another no slot is found, and `libavcodec/4xm.c:880-883` indexes with -1
  (`FrameSlots.NoPlaceWhenFull`).
- The run length table (`libavcodec/aacenctab.h:91-101`) is one field short for a run of exactly twice
  the escape value: 14 for short windows, and 62 for long ones, which have 51 bands at most
  (`libavcodec/aactab.c:45-47`), so that the error shows for short windows alone. There the writer at
  `libavcodec/aaccoder_trellis.h:183-187` emits a third field. The selected cost is exact if and only
  if the number of bands is below that (`TrellisCost.ExactIff`), and otherwise too small by one field
  for each such section (`TrellisCost.CostOfChosen`).
- From the escape value on the selection need not be optimal: a cell keeps its cheapest path even where
  a dearer one with a shorter run avoids the next length field (`TrellisLimits.OptimalIff`).
- The sentinel 61450 that closes a cell is no infinity. On costs taken as any numbers a codebook the band
  may not use can be selected, for the last band (`TrellisLimits.SentinelIsSelected`) or for an earlier
  one (`TrellisLimits.TiedIsNotSelected`); exactly when is `TrellisLimits.SelectsIff`. The coefficients
  of a real window cost too little for that (`TrellisCost.CodedSelects`): at most 28 bits each, by
  `libavcodec/aacenc_quantization.h:78-132` and the tables of `libavcodec/aactab.c`, and there are 1024.
- A first picture that comes late is repeated in place of one before it. It is then sent, and counted as
  held back and as dropped all the same (`RatePictures.SentYetDropped`, exactly when in
  `RatePictures.DropsTellIff`).
- A packet without decoding time makes the muxer forget the last one, so order can be lost across it
  (`MuxTimestamps.OrderCanBeLost`, and exactly when in `MuxTimestamps.OrderedIff`).

## Model

| member | source | states |
|---|---|---|
| HuffmanReader.ReadHuffmanTables | libavcodec/4xm.c:610-705 | the whole table reader, for any code-table constructor: succeeds exactly where the header can be read and the constructor accepts the codes made of it; the tables are then those of the frequencies read, and the position is behind the padding |
| HuffmanReader.ReadFrequencies | libavcodec/4xm.c:626-643 | the range loop delivers the same table as reading range after range until one starts at 0, or fails exactly when that does |
| HuffmanReader.RangesReadBack | libavcodec/4xm.c:628-643 | any list of ranges, written one after another, is read back into the table they describe, later ranges over earlier ones |
| HuffmanReader.EntryOf | libavcodec/4xm.c:628-643 | the table that a list of ranges describes: an entry is the byte sent for it in the last range it lies in, both ends included; entries in no range keep what they were |
| HuffmanReader.TableReadsBack | libavcodec/4xm.c:626-652 | a whole header is read back: the ranges over zeros, weight 1 for the end marker, and the padding to four bytes, which alone can be missing |
| HuffmanReader.TakenIff | libavcodec/4xm.c:626-705 | a header is taken by every constructor that accepts decodable codes and refuses the clashes it comes across, if and only if it can be read and a symbol is unused or without a word |
| HuffmanReader.RefusedIff | libavcodec/4xm.c:626-705 | it is refused by all of them if and only if it cannot be read, or a word that ends in the first lookup, or in the same as a longer one, begins that one |
| HuffmanReader.FlatHeaderIsRefused | libavcodec/4xm.c:700-702 | the header that gives every byte frequency 1 can be read, uses all 257 symbols, has codes that are not prefix-free, and is refused |
| HuffmanReader.TopHeavyHeaderIsTaken | libavcodec/4xm.c:684-702 | the header with one frequency 255 and all others 1 uses all symbols too, gives one of them no word, and is taken |
| HuffmanTree.FindLightestTwo | libavcodec/4xm.c:655-672 | the scan finds the first lightest live node and the first lightest of the others; the second is missing exactly when fewer than two nodes are live |
| HuffmanTree.PicksExist | libavcodec/4xm.c:655-674 | both picks exist exactly when two nodes are live |
| HuffmanTree.MergeLoop | libavcodec/4xm.c:654-682 | the arrays end up holding the forest that repeated merging of the two lightest makes, unwritten flags included |
| HuffmanTree.MergeInv | libavcodec/4xm.c:676-681 | each merge keeps: links go upward, inner nodes have two children of different flags whose weights add up, and what is merged later is no lighter than what was merged earlier |
| HuffmanTree.MergeConservesWeight | libavcodec/4xm.c:676-681 | a merge does not change the total weight |
| HuffmanTree.TotalWeight | libavcodec/4xm.c:636-644 | no table weighs more than 255 * 256 + 1, so no node reaches the scan's marker value |
| HuffmanDepth.GrandparentWeight | libavcodec/4xm.c:654-682 | a grandparent weighs at least as much as its child and grandchild together |
| HuffmanDepth.WeightNeeded | libavcodec/4xm.c:654-682 | a node d links below its root needs a root of weight at least the Fibonacci number d + 2 |
| HuffmanDepth.DepthBound | libavcodec/4xm.c:684-695 | no node of any table is more than 22 links below its root, however many symbols are used: the length complaint is unreachable |
| HuffmanCode.Climb | libavcodec/4xm.c:685-695 | the bits and length collected on the way up are those of the path from the root down |
| HuffmanCode.ExtractCodes | libavcodec/4xm.c:684-698 | every symbol's table entry describes its path |
| HuffmanTheorems.RootsCount | libavcodec/4xm.c:654-674 | the loop leaves one live node, or two exactly when all 257 symbols take part |
| HuffmanTheorems.LeavesEndPaths | libavcodec/4xm.c:684-698 | below one root no symbol's path begins another node's path |
| HuffmanTheorems.KraftExact | libavcodec/4xm.c:654-698 | the Kraft sum of the code lengths is exactly the number of trees: 1, or 2 for the full alphabet |
| HuffmanTheorems.PrefixFreeIff | libavcodec/4xm.c:654-698 | the codes are prefix-free if and only if at most 256 symbols are used |
| HuffmanTheorems.TablesCost | libavcodec/4xm.c:654-698 | frequency times code length, summed, is the sum of all merged weights |
| HuffmanOptimal.MergeCostIsLeast | libavcodec/4xm.c:654-682 | no assignment of lengths that Kraft's inequality allows costs less than the merges |
| HuffmanTheorems.Optimal | libavcodec/4xm.c:654-698 | no prefix code for the same symbols spends fewer bits than the tables |
| HuffmanTwoTrees.SomeNested | libavcodec/4xm.c:654-698 | with all 257 symbols in use the path of some symbol begins that of another: the two trees cannot be alike, as their leaves are odd in number |
| HuffmanAcceptance.DecodableIff | libavcodec/4xm.c:684-702 | the words fit three lookups of nine bits and none begins another, if and only if a symbol is unused or one has no word |
| HuffmanAcceptance.MessagesSurviveIff | libavcodec/4xm.c:684-702 | every message over used symbols, encoded with the tables and followed by anything, is decoded by its non-empty words to itself and what followed, if and only if 2 to 256 symbols are used |
| HuffmanFullAlphabet.FlatClashes | libavcodec/4xm.c:654-698 | with all frequencies 1 every symbol has a word, and one of at most nine bits begins a longer one |
| HuffmanFullAlphabet.TopHeavyIsWordless | libavcodec/4xm.c:654-698 | a symbol of weight 255 among others of weight 1 is never merged: it has no word, and the words of the rest can be decoded |
| HuffmanFullAlphabet.HeavyHasNoWord | libavcodec/4xm.c:654-698 | with all symbols in use, one with more than two fifths of the weight is never merged and has no word |
| HuffmanFullAlphabet.LightHaveWords | libavcodec/4xm.c:654-698 | with all symbols in use and each below a third of the weight, each has a word |
| HuffmanTheorems.LengthWithin | libavcodec/4xm.c:687-697 | every entry has at most 22 bits and its value fits them |
| PrefixCodes.KraftInequality | libavcodec/4xm.c:700-702 | every prefix code obeys Kraft's inequality |
| BlockTypes.OneWordFits | libavcodec/4xm.c:46-68 | in each of the eight code tables every five-bit window begins with exactly one word, so a lookup never fails |
| BlockTypes.LegalCodes | libavcodec/4xm.c:46-75 | a block is halved only across a side of two or more and only while more than two pixels are left; raw pixels are for blocks of two; a single pixel never comes up |
| BlockTypes.OccurringCodes | libavcodec/4xm.c:46-68 | which codes have a word for a block: splits exactly across sides of two or more while more than two pixels are left, raw pixels exactly for blocks of two, the others always |
| BlockTypes.LateWords | libavcodec/4xm.c:46-59 | the words of later versions increase with the code, each one bit longer than the one before but for the last, which is as long |
| BlockTypes.EarlyWords | libavcodec/4xm.c:59-72 | the words of earlier versions increase with the code, but for that of kept blocks, which comes first; lengths never fall and are two or three |
| PBlocks.Tiles | libavcodec/4xm.c:342-425 | on success the leaves of a block cover each of its pixels exactly once and no other; on failure none twice |
| PBlocks.HereIsInRange | libavcodec/4xm.c:357-420 | the co-located block always passes the range check, so the assertion for filled blocks holds and only vectors can fail it |
| Painting.RowInRange | libavcodec/4xm.c:359-420 | a place that passes the range check keeps every row that is read inside the picture before |
| Painting.PaintAllAt | libavcodec/4xm.c:294-340 | pixels no leaf covers stay as they were; a pixel one leaf covers is what that leaf says |
| PFrames.RowsTile | libavcodec/4xm.c:482-488 | the blocks of a frame, left to right and top to bottom, cover every pixel of the picture exactly once |
| PFrames.FrameIsItsLeaves | libavcodec/4xm.c:480-491 | after a frame that was read to the end, every pixel is what the one leaf covering it says |
| PFrames.LeafMeans | libavcodec/4xm.c:294-423 | kept pixels do not change and filled ones take the colour; moved ones are the displaced pixels shifted by the same amount, those in odd columns with the carry of the pixel to their left; raw ones are the words read |
| PFrameDecoder.PairSplits | libavcodec/4xm.c:287-291 | the 32-bit add changes two pixels as two 16-bit adds with a carry from the first into the second |
| PFrameDecoder.Decoder.GetCode | libavcodec/4xm.c:351-357 | the code read is that of the next word, and the bit position moves past it |
| PFrameDecoder.Decoder.Mcdc | libavcodec/4xm.c:294-340 | writes exactly the rows of a moved or filled leaf, and nothing else |
| PFrameDecoder.Decoder.DecodeLeaf | libavcodec/4xm.c:378-424 | reads and paints one leaf as its code says, with every error exit |
| PFrameDecoder.Decoder.DecodePBlock | libavcodec/4xm.c:342-424 | terminates, and leaves readers, result and frame buffer as the leaves of the block say, also on failure |
| PFrameDecoder.Decoder.DecodePFrame | libavcodec/4xm.c:482-488 | the two loops read and paint all blocks, or stop at the first that fails with those before it painted |
| PFramePackets.TakenIff | libavcodec/4xm.c:440-463 | though differences of lengths can wrap around in 32 bits, a packet is taken if and only if it has room for its header and three streams and its bit stream is short enough |
| PFramePackets.BitByteIs | libavcodec/4xm.c:465-471 | byte for byte: the words turned round; behind them what the buffer held, if it had room and padding for all, else zero |
| PFramePackets.PacketDecoder.FetchBits | libavcodec/4xm.c:465-471 | the bit stream is the packet's words of four bytes, each turned round; up to three bytes at its end are what the buffer held before, or zeros |
| PFramePackets.VectorMoves | libavcodec/4xm.c:265-275 | moving by a byte's entry in the table leads from a place in the picture to the one as far to the right and down as its vector says |
| PFramePackets.PacketDecoder.CutPacket | libavcodec/4xm.c:465-480 | the three streams and the vector table are those of the packet, the word stream running on into the byte stream |
| PFramePackets.PacketDecoder.DecodePFrame | libavcodec/4xm.c:427-491 | the whole function: a packet refused changes nothing; one that is taken paints the frame its streams stand for, up to the first failure |
| MotionVectors.VectorOf | libavcodec/4xm.c:77-110 | every vector, of the table or of a byte's two halves, stays within 32 pixels either way |
| MotionVectors.LaterIsFurther | libavcodec/4xm.c:77-110 | the table lists its vectors by length, equally long ones from the top and from the left, and none twice |
| MotionVectors.EarlyVectors | libavcodec/4xm.c:265-275 | in early versions a byte's upper half is the step down and its lower half the step to the right, both from -8 to 7 |
| MotionVectors.InitMv | libavcodec/4xm.c:265-275 | the table holds each vector as a distance in the picture |
| BlockTrees.CodeReadsBack | libavcodec/4xm.c:248-263 | a code that a block can have, written, is the code that is read |
| BlockTrees.TreeReadsBack | libavcodec/4xm.c:342-425 | any tree of splits and leaves a block can have, written to the streams, is parsed back to exactly its leaves in order, using up exactly what was written |
| PFrameTrees.PacketReadsBack | libavcodec/4xm.c:440-478 | any three streams, put into a packet, are cut out of it again, whatever the decoder's buffer held |
| PFrameTrees.FrameReadsBack | libavcodec/4xm.c:482-488 | a frame of any trees, written to the streams, is read back to exactly its leaves, using up exactly what was written |
| PFrameTrees.FrameSurvives | libavcodec/4xm.c:427-491 | and so it is when the streams are sent in a packet: from trees to packet to leaves nothing is lost |
| FrameRuns.Decoder.constructor | libavcodec/4xm.c:129-152 | a new decoder's slots are unused and hold no frame |
| FrameRuns.Decoder.Scan | libavcodec/4xm.c:873-878 | the scan finds the first slot with the identifier, and the last unused one before it |
| FrameRuns.Decoder.Receive | libavcodec/4xm.c:873-914 | for any piece the slots and the answer are those of the step: slot found or not, marked, refused, filled, or emptied with the whole frame delivered |
| FrameRuns.Decoder.DecodeFrame | libavcodec/4xm.c:836-914 | the same from the packet's bytes, with the header errors |
| FrameMap.PieceReadsBack | libavcodec/4xm.c:843-866 | any piece, written to a packet by its fields, is read back: identifier, size and all bytes |
| FrameMap.RefusedIff | libavcodec/4xm.c:843-866 | a packet given by its fields is refused if and only if it is shorter than it says, or is a piece in an early version or of a negative size |
| FrameMap.EveryPacket | libavcodec/4xm.c:836-866 | every packet of at least twenty bytes is given by its fields, and shorter ones are refused |
| FrameSlots.PlaceIff | libavcodec/4xm.c:873-883 | a slot is found if and only if the frame is open or fewer than a hundred are |
| FrameSlots.NoPlaceWhenFull | libavcodec/4xm.c:873-883 | with a hundred frames open a piece of another finds no slot, and the source would write in front of the array |
| FrameSlots.NoRoomNoStep | libavcodec/4xm.c:873-883 | the step reports that exactly when there is no room, and changes nothing |
| FrameSlots.StepRefinesIff | libavcodec/4xm.c:873-914 | given room, the answer to a piece is that of a map from frames to bytes, and the slots go on standing for the map, no other frame changed, if and only if no slot is freed before the one in which frame 0 is collected |
| FrameRuns.RunRefinesIff | libavcodec/4xm.c:873-914 | over any stream of pieces with room the slots stand for the map throughout if and only if frame 0 is never so buried; what is delivered is then what the map delivers |
| FrameRuns.RunDelivers | libavcodec/4xm.c:873-914 | which is so when frame 0 does not occur, or fewer than a hundred frames are ever open |
| FrameRuns.ZeroIsBuried | libavcodec/4xm.c:873-914 | a run of 104 pieces that ends with frame 0 in two slots, its second byte taken for the first |
| FrameMap.FramesDoNotMix | libavcodec/4xm.c:849-914 | however pieces of frames interleave, what is delivered and left over for a frame is what its own pieces alone would give |
| FrameMap.NothingLost | libavcodec/4xm.c:886-914 | what is delivered and left over, put together, is the accepted pieces in the order they came |
| FrameMap.AddedIff | libavcodec/4xm.c:886-911 | a piece is refused exactly when the bytes could not be counted, and else completes its frame exactly when that has all its bytes |
| Trellis.CellFrom | libavcodec/aaccoder_trellis.h:80-152 | an open cell comes from the cheapest open cell of the row before, at the price of its bits and an opening, or from the cell of its own codebook, at the price of its bits and a growth |
| Trellis.CellIsPriced | libavcodec/aaccoder_trellis.h:75-153 | a cell that stands for an admissible assignment holds exactly its charge, and the length of its last section |
| Trellis.ChosenCharge | libavcodec/aaccoder_trellis.h:155-160 | the charge of the selected assignment, where it is admissible, is the least open cell |
| Trellis.CellsAreLeast | libavcodec/aaccoder_trellis.h:75-153 | below the escape length no admissible assignment undercuts the cell it ends in |
| Trellis.BelowSelects | libavcodec/aaccoder_trellis.h:99-160 | where the cheapest open cell of the last row is below the sentinel, the selection gives every band a codebook it may use: an open cell below it never comes from a closed one |
| Trellis.ChosenIsOptimal | libavcodec/aaccoder_trellis.h:75-160 | below the escape length the selected codebooks, where they are admissible, cost no more than any other admissible choice, counting band bits and a fixed price per section |
| TrellisSections.RunLengthsProper | libavcodec/aaccoder_trellis.h:155-170 | the runs spell the assignment, none is empty, and neighbours use different codebooks |
| TrellisSections.Jump | libavcodec/aaccoder_trellis.h:162-170 | jumping back over a whole run from any open cell lands on the cell the run was entered from, open or closed |
| TrellisSections.RunRoundTrip | libavcodec/aacdec_template.c:1443-1456 | the escape-coded length of any run is read back as that run |
| TrellisSections.SectionsRoundTrip | libavcodec/aaccoder_trellis.h:171-188 | the decoder's section parser recovers exactly the codebooks of any assignment from what is written, whatever follows |
| TrellisSections.OutMapRises | libavcodec/aacenctab.h:120-123 | trellis indices stand for codebooks in the order of their numbers |
| TrellisSections.AllowedIff | libavcodec/aaccoder_trellis.h:103-123 | an index is open to a band exactly when its codebook, by number, is one the band may be sent with |
| TrellisSections.NumbersReadBack | libavcodec/aacdec_template.c:1427-1464 | of any admissible assignment the decoder gets codebook numbers each band may use, and of each so many codebooks before it as its index says |
| TrellisSections.ParsedIsProper | libavcodec/aacdec_template.c:1427-1464 | whatever stream is parsed, every band gets a codebook, and none the invalid one |
| TrellisCost.ChosenReadsBack | libavcodec/aacdec_template.c:1427-1464 | the written form of the selected codebooks parses back, by number, to codebooks each band may use, the ones whose bits were counted |
| TrellisCost.FieldLength | libavcodec/aacenctab.h:90-118 | the run length table is right for every run it covers except twice the escape value, where it is one field short |
| TrellisCost.BitsOfBands | libavcodec/aaccoder_trellis.h:75-136 | the bits compared are those of the coefficients in the codebooks used; a zero band has none |
| TrellisCost.CostOfChosen | libavcodec/aaccoder_trellis.h:75-188 | the bits written plus the coefficient bits are the selected cost plus one length field for each section of twice the escape value |
| TrellisCost.ExactIff | libavcodec/aaccoder_trellis.h:75-188 | for a given number of bands the cost is exact on all inputs with an admissible selection if and only if there are fewer than twice the escape value |
| TrellisCost.RealBitsOf | libavcodec/aaccoder_trellis.h:75-188 | for any admissible assignment, the bits written and those of the coefficients are the trellis's charge plus one length field for each section of twice the escape value |
| TrellisCost.AffordableSelects | libavcodec/aaccoder_trellis.h:99-160 | so it is for any number of bands as soon as some admissible assignment's coefficient bits, with the opening of a section for each band, add up to less than the sentinel |
| TrellisCost.CodedSelects | libavcodec/aacenc_quantization.h:78-132 | so it is on all bands whose coefficients, 1024 at most, cost 28 bits at most each: the sentinel is out of the reach of real windows |
| TrellisLimits.OptimalIff | libavcodec/aaccoder_trellis.h:75-188 | counting the bits really written, the selection is optimal on all inputs of at most so many bands with an admissible selection, if and only if these are fewer than the escape value |
| TrellisLimits.BelowIff | libavcodec/aaccoder_trellis.h:75-160 | below the escape value the last row is below the sentinel if and only if some admissible assignment is, counting band bits and a fixed price per section |
| TrellisLimits.SelectsIff | libavcodec/aaccoder_trellis.h:75-170 | on every input, the selection gives every band a codebook it may use if and only if the cheapest open cell of the last row is below the sentinel; or equals it, with no closed cell before it, and its run was opened and not stayed in from a closed cell |
| TrellisLimits.EndsOpenIff | libavcodec/aaccoder_trellis.h:155-160 | the last band alone gets a codebook it may use if and only if the cheapest open cell is below the sentinel, or equals it with no closed cell before |
| TrellisLimits.SentinelIsSelected | libavcodec/aaccoder_trellis.h:99-160 | bit counts, beyond those of real coefficients, on which a closed codebook is selected for the last band |
| TrellisLimits.TiedIsNotSelected | libavcodec/aaccoder_trellis.h:80-160 | bit counts that tie at exactly the sentinel, on which the last band gets a codebook it may use and an earlier one does not |
| TrellisSelector.Forward | libavcodec/aaccoder_trellis.h:75-153 | the loops fill the path table with the rows of the dynamic program |
| TrellisSelector.FindCheapest | libavcodec/aaccoder_trellis.h:157-160 | selects the first cheapest cell of the last row |
| TrellisSelector.Backtrace | libavcodec/aaccoder_trellis.h:161-170 | the jumping walk meets no empty run, and ends, if and only if every band is given a codebook it may use; its stack, from the top, is then the runs of the selected assignment |
| TrellisSelector.PutRun | libavcodec/aaccoder_trellis.h:183-187 | writes the escape-coded run length |
| TrellisSelector.CodebookTrellisRate | libavcodec/aaccoder_trellis.h:59-189 | the whole function, on every input: where there is a selection the band arrays get the selected codebooks and nothing else, and the stream gets their sections |
| PacketQueue.LinkedQueue.constructor | fftools/ffplay.c:479-494 | a new queue is empty and aborted |
| PacketQueue.LinkedQueue.PutPrivate | fftools/ffplay.c:425-452 | appends to the sequence, with a new serial for the flush packet, or refuses when aborted; links and totals stay right |
| PacketQueue.LinkedQueue.Get | fftools/ffplay.c:541-577 | yields and removes the first entry, or reports abort, emptiness, or that it must wait |
| PacketQueue.LinkedQueue.FlushAll | fftools/ffplay.c:496-512 | empties the sequence and keeps the serial |
| PacketQueue.LinkedQueue.AbortAll | fftools/ffplay.c:521-530 | only marks the queue aborted |
| PacketQueue.LinkedQueue.StartAll | fftools/ffplay.c:532-538 | clears the mark and puts a flush packet |
| PacketQueue.SerialsStayOrdered | fftools/ffplay.c:425-577 | over every operation serials never decrease along the queue, and the queue's own never falls |
| PacketQueue.Answers | fftools/ffplay.c:541-577 | when taking answers with an abort, an entry, that it must wait, or that there is nothing |
| PacketQueue.AbortedUntilStarted | fftools/ffplay.c:425-530 | once aborted, over any list of operations without a start nothing is put and nothing taken |
| PacketQueue.StartedAgain | fftools/ffplay.c:532-538 | a start opens a new serial, and packets are accepted under it again |
| PacketQueue.FirstInFirstOut | fftools/ffplay.c:425-577 | over any list of operations on a new queue: what was taken since the last drain, followed by what is there, is what was put since then, in order; and over everything ever taken serials never fall |
| PacketQueue.TotalsTail | fftools/ffplay.c:559-561 | size and duration summed from the back can be reduced from the front, as taking a packet does |
| SeekProtocol.StepKeepsInv | fftools/ffplay.c:588-675 | every step of every thread keeps the protocol's invariant |
| SeekProtocol.SeekIsolation | fftools/ffplay.c:2957-2968 | in every interleaving, what the codec was given since the last flush packet carries that packet's serial and was all read between the same two seeks |
| SeekProtocol.FedAfterItsFlush | fftools/ffplay.c:635-671 | whenever a media packet is handed to the codec, its serial is that of the last flush packet processed |
| SeekProtocol.FramesCarryTheirSerial | fftools/ffplay.c:588-675 | whenever the codec is asked for a frame, the serial to be stamped on it is that of every packet the codec holds |
| SeekDelivery.NothingIsLost | fftools/ffplay.c:588-675 | over any run, unless the queue was emptied since, the packets put since the newest flush packet are those the codec took under its serial, then the one in the decoder's hand, then those waiting: none lost, none twice, in order; and the reader's position is the number of its seeks |
| SeekDelivery.AtMostOneStale | fftools/ffplay.c:588-634 | after the queue's serial has changed the codec gives at most one more frame, or end of the stream, of an older serial |
| SeekDelivery.SeekGoesThrough | fftools/ffplay.c:2957-2968 | from wherever the reader reads, a seek can go through: then the queue holds the flush packet of a new serial alone, and the reader is one seek further |
| SeekDelivery.SeekPassesStopped | fftools/ffplay.c:2957-2968 | while the queue is stopped a seek passes the stream over and changes the reader's position alone |
| SeekDelivery.AnswerLeads | fftools/ffplay.c:591-634 | what each answer of the codec leads to: after a frame or the end the serials are compared before it is asked again, after an error it is asked at once, and where it has none a packet is fetched |
| SeekDelivery.GoneOnlyWhenStopped | fftools/ffplay.c:588-675 | over any run the decoder leaves its thread only once its queue is stopped |
| SeekDelivery.StoppedCanLeave | fftools/ffplay.c:588-675 | and then it can leave, whatever it was doing |
| SeekDelivery.Reopens | fftools/ffplay.c:816-824 | a stream that was stopped and left can be closed and opened again, under a new serial and with a decoder that holds nothing |
| FrameRing.StepKeepsInv | fftools/ffplay.c:728-804 | every step of either thread keeps the ring's invariant |
| FrameRing.IndicesAgree | fftools/ffplay.c:775-798 | the write index is the read index plus the size, up to the two updates in flight; the shown mark never exceeds the size |
| FrameRing.WriterOwnsItsSlot | fftools/ffplay.c:743-757 | the slot being written is not one that is readable, kept, or being released |
| FrameRing.PeekIsNextFrame | fftools/ffplay.c:728-741 | what the display looks at is whole and is the next frame in push order; so is the one after it, and the last one shown |
| FrameRing.KeptFrameIsWhole | fftools/ffplay.c:785-790 | a frame kept after being shown stays whole until it is released |
| FrameRing.PassesInOrder | fftools/ffplay.c:785-798 | over any run of both threads the frames the display goes past are whole, and are those pushed one after another, none left out and none twice |
| FrameRing.RingIsSafe | fftools/ffplay.c:728-804 | the same over all interleavings from the empty ring, the queue being aborted at any moment |
| FrameRing.NothingHalfIsWhole | fftools/ffplay.c:743-798 | over any run a slot half written, or released, holds nothing that may be read |
| FrameRing.StopEndsFrames | fftools/ffplay.c:743-783 | once the queue is stopped at most the frame in the making still comes, over any run |
| FrameRing.NoneBegunOnceStopped | fftools/ffplay.c:743-783 | and no wait for a frame is answered with one |
| FrameRing.StopEndsWaits | fftools/ffplay.c:743-783 | and nobody is kept waiting: either thread can ask and come back with nothing changed, and a slot taken can be given back |
| FrameRing.StuckIff | fftools/ffplay.c:743-798 | both threads can come to a standstill if and only if the ring has one slot and keeps its last frame |
| PlayerFrames.StepKeepsInv | fftools/ffplay.c:1605-1655 | every step of reader, decoder, picture queue and display keeps the invariant that joins them |
| PlayerFrames.NoStaleFrameShown | fftools/ffplay.c:1596-1655 | in every interleaving frames are gone past in the order they were queued, and one that is shown carries the serial the queue had when the display compared it, as do all packets it was decoded from; if no seek was under way then, these were read at the reader's position |
| PlayerFrames.StopReachesRing | fftools/ffplay.c:743-824 | over any run the waits at the ring see the queue stopped exactly while it is |
| PlayerFrames.KeptIsLastPassed | fftools/ffplay.c:720-741 | the frame kept for redrawing is the last one gone past, whole, shown or dropped |
| PlayerFrames.LaterLeavesIt | fftools/ffplay.c:1605-1660 | a frame that is not due yet can be left and looked at again, and nothing has changed but that it must be compared again |
| PlayerFrames.SlotIsFreed | fftools/ffplay.c:785-798 | a slot whose frame is given up can be freed, and the ring then has one frame less and nothing else has changed |
| PlayerRun.FrameIsShown | fftools/ffplay.c:588-1655 | a run in which a packet is read, reaches the codec once, and its frame is queued and shown |
| RateConverter.OutputStream.DoVideoOut | fftools/ffmpeg.c:1059-1356 | one call, fields and counters: duration, mode, planning, accounting, the duplicate limit and the sending loop with its early returns |
| RateConverter.OutputStream.CountFrames | fftools/ffmpeg.c:1100-1170 | how often a picture is sent, in each synchronisation mode, and how the next timestamp moves |
| RateConverter.OutputStream.Send | fftools/ffmpeg.c:1203-1348 | the frames go out one tick apart until a return |
| RateConverter.CallEffect | fftools/ffmpeg.c:1094-1356 | after any call the timestamps sent are consecutive from the plan's start, and the next timestamp and frame count have moved by as many |
| RateTheorems.EndsIff | fftools/ffmpeg.c:1173-1356 | a call runs to its end if and only if its plan has not too many duplicates and either sends nothing or has a picture and lies within the recording time; how else it ends is decided by its guards too |
| RateTheorems.BalanceKeptIff | fftools/ffmpeg.c:1173-1200 | a call keeps the books balanced if and only if its guards hold: not too many duplicates, and a picture and recording time for the frames planned; or too many duplicates of a picture while no held frame is given up |
| RateTheorems.Conservation | fftools/ffmpeg.c:1173-1348 | over any run whose calls meet these guards: frames encoded plus one held back are pictures received plus duplicates less drops |
| RateTheorems.BalancedIff | fftools/ffmpeg.c:1173-1348 | over any run the books balance after every call if and only if every call meets its guards |
| RateTheorems.TimestampsIncrease | fftools/ffmpeg.c:1094-1348 | at constant, start-adjusted and variable rate the timestamps given to the encoder strictly increase over any run, early returns and flushes included |
| RateTheorems.IncreasingIff | fftools/ffmpeg.c:1138-1170 | and in no other mode |
| RateTheorems.ResolvedIncreasesIff | fftools/ffmpeg.c:1107-1122 | left to itself the program resolves to such a mode except for formats of variable rate without timestamps |
| RateTheorems.DriftAfterCall | fftools/ffmpeg.c:1138-1157 | at both constant rates the output is at most half a tick behind after a call, and not more than 2.1 ahead if it was not before |
| RateTheorems.DriftAfterSettingTime | fftools/ffmpeg.c:1138-1157 | after a late first frame that sets the start time the drift is between -1.5 and 1 |
| RateTheorems.DurationNonNegative | fftools/ffmpeg.c:1070-1092 | for positive rates durations are not negative |
| RateTheorems.DriftStaysBounded | fftools/ffmpeg.c:1100-1157 | over any run of inputs whose ends never decrease the drift stays between -2.1 and 0.5 |
| RateTheorems.VfrFollowsInput | fftools/ffmpeg.c:1158-1163 | at variable rate a picture that ends 0.6 or more before the next tick is not sent; one that ends more than 0.6 behind it is sent within half a tick of its own time or of the tick, whichever is later; any other at the tick |
| RateTheorems.VfrStaysBounded | fftools/ffmpeg.c:1158-1163 | so over any run of inputs whose ends never decrease the drift stays between -1.6 and half a tick less than the last duration, or -0.4 |
| RatePictures.CfrFollowsInput | fftools/ffmpeg.c:1138-1157 | at both constant rates a completed call sends none, one, or within half of as many frames as the output is behind; of these the first, as many as were due before the picture begins, within half a frame, show the picture before, and the rest the new one |
| RatePictures.ThresholdDrops | fftools/ffmpeg.c:1148-1149 | with a drop threshold a picture that is not far enough ahead is not sent, other than before the first frame |
| RatePictures.ThresholdSpares | fftools/ffmpeg.c:1148-1149 | and it changes the plan of no other picture, nor in any other mode |
| RatePictures.CappedAsNeeded | fftools/ffmpeg.c:1173-1174 | the limit on frames takes no more from a plan than it must |
| RatePictures.FlushRepeats | fftools/ffmpeg.c:1094-1099 | at the end the last picture is sent again as often as the median of the last three numbers of repeats |
| RatePictures.PicturesInOrder | fftools/ffmpeg.c:1203-1356 | over any run, in any mode and whatever the outcomes, no frame shows an earlier picture than the frame before it |
| RatePictures.DropsKeepTelling | fftools/ffmpeg.c:1181-1356 | over any run of pictures that all go through, the number of drops is that of the pictures never sent, not counting one held back, and a picture is held back exactly when it has not been sent |
| RatePictures.DropsTellIff | fftools/ffmpeg.c:1181-1356 | after a first picture this holds if and only if that is not sent, or also as new |
| RatePictures.SentYetDropped | fftools/ffmpeg.c:1181-1356 | a run in which the first picture is sent twice and counted as dropped |
| RatePictures.ChosenModeIff | fftools/ffmpeg.c:1107-1122 | which mode is chosen for which formats and inputs, where it is left open; never the one that drops times |
| RatePictures.DurationIs | fftools/ffmpeg.c:1070-1092 | a frame lasts what its packet says, rounded, if that is a tick at least; else the shortest of the known rates' ticks, or no time without the filters' rate |
| RatePictures.RoundsToEven | fftools/ffmpeg.c:1138-1170 | rounding gives the nearest integer, and of two as near the even one |
| FilterChain.OutputStream.OutputPacket | fftools/ffmpeg.c:852-893 | for a packet or the end, and a filter failing at any call or none: what is written is a beginning of what the chain makes of it, and all of it, with the filters as the chain leaves them, unless one failed |
| FilterChain.OutputStream.FilterPacket | fftools/ffmpeg.c:856-890 | the single-index walk terminates, sends only to filters that are empty and not ended, and does what composing the filters does, up to the first failing call |
| FilterChain.WalkSends | fftools/ffmpeg.c:880-885 | sending a packet one filter down and following it changes nothing of what remains to come out |
| FilterChain.WalkPassesEnd | fftools/ffmpeg.c:873-885 | the same for an end |
| FilterChain.Feed | fftools/ffmpeg.c:852-890 | after an end every filter has been told it and is empty; after a packet every filter is ready for another |
| FilterChain.ChainIsStaged | fftools/ffmpeg.c:842-851 | over a whole stream with its end the chain writes what the step functions of its filters make one after another of the whole stream, in the same order |
| MuxTimestamps.SumIsMedian | fftools/ffmpeg.c:776-779 | the sum less its extremes is the median of the three times, even where 64-bit sums wrap around |
| MuxTimestamps.StepOrdered | fftools/ffmpeg.c:781-802 | a decoding time comes out far enough past the last one if and only if there is such a time |
| MuxTimestamps.ShownAfterDecoded | fftools/ffmpeg.c:769-803 | display times are no earlier than decoding times, and times are there afterwards just when they were before |
| MuxTimestamps.DisplayTime | fftools/ffmpeg.c:769-803 | the display time given out is the one given, or the decoding time given out if that is later |
| MuxTimestamps.DecodingTime | fftools/ffmpeg.c:769-803 | the decoding time given out is the packet's own, or the median where it was to be shown first; on a watched stream moved up to the least allowed and no further |
| MuxTimestamps.UntouchedIff | fftools/ffmpeg.c:769-803 | a packet passes unchanged if and only if its times need no repair |
| MuxTimestamps.RaisedIff | fftools/ffmpeg.c:781-802 | a decoding time that is too early is raised in audio, video and subtitles other than copied VP9, and nowhere else |
| MuxTimestamps.LeftAlone | fftools/ffmpeg.c:735-768 | formats without timestamps get every packet's times rescaled and nothing else; where times are to be dropped no packet has any |
| MuxTimestamps.RunOrdered | fftools/ffmpeg.c:769-804 | over any stretch of packets with decoding times these never go back, and grow by at least one a packet where the format is strict, as long as no given time lies within a run's growth of the last 64-bit value |
| MuxTimestamps.OrderedIff | fftools/ffmpeg.c:769-804 | over any run, packets without decoding time included, all decoding times are in order if and only if every packet behind such a gap is late enough by itself and time does not end |
| MuxTimestamps.RunShownAfterDecoded | fftools/ffmpeg.c:769-804 | in any run no packet is shown before it is decoded |
| MuxTimestamps.OrderCanBeLost | fftools/ffmpeg.c:781-804 | an input for which it is not |
| MuxTimestamps.OutputStream.Mux | fftools/ffmpeg.c:745-805 | the muxer gets the repaired packet and its decoding time is remembered |
| MuxTimestamps.OutputStream.WritePacket | fftools/ffmpeg.c:695-821 | the muxer has been given the repair of the accepted packets in order, the queue holds the rest; which packets are accepted, and exactly when the queue may grow no more |
| MuxTimestamps.OutputStream.WriteHeader | fftools/ffmpeg.c:3003-3024 | after the header all accepted packets have been given to the muxer, in order |

## Left out

- HuffmanReader.ReadHuffmanTables: reports failure at once where the source first reads a header byte behind the buffer and then fails; `init_vlc` is a parameter.
- HuffmanReader.TakenIff: knows of `init_vlc` (`libavcodec/bitstream.c:145-345`) only that it accepts codes that can be decoded and refuses a word that ends in the first lookup of nine bits, or in the same lookup as a longer word, and begins that word; a clash across later lookups goes unnoticed or not by how its sort orders equal codes, and is left open.
- HuffmanAcceptance.MessagesSurviveIff: decodes by the first non-empty word that fits, in place of the lookup tables that `init_vlc` builds; words have at most 22 bits, which three lookups of nine hold (`HuffmanAcceptance.LensFit`).
- PFrameDecoder.Decoder.Mcdc: models the little-endian form of the pair add; the big-endian form computes the same.
- PFramePackets.PacketDecoder.DecodePFrame: a bit stream read past its end goes on with zeros, as padding and the bounded reader have it.
- FrameRuns.Decoder.Receive: where no slot is found it answers so and stops; what the source overwrites then is not part of this model.
- TrellisSelector.CodebookTrellisRate: takes the bits of each band and codebook, already summed over the window group, as arbitrary natural numbers; the source computes them in floating point. Without a selection the source is undefined, and the model writes nothing.
- TrellisSelector.Backtrace: keeps the encoder's two stacks as one stack of sections. At a closed cell, whose run is empty, the source reads a row it has not written or runs past the end of its stacks, which is undefined; the model gives up there.
- FilterChain.OutputStream.OutputPacket: every filter makes finitely many packets of an input; what a filter does in later calls once one has failed is not part of this model.
- MuxTimestamps.OutputStream.WritePacket: rescaling is any function of times, and other fields of a packet are left out.
- RateTheorems.IncreasingIff: the other modes are shown to fail on a stream without frame cap or recording limit.
- RateConverter.OutputStream.DoVideoOut: input time, and what is known of the duration in encoder ticks, are reals.
- SeekProtocol.SeekIsolation: models one queue and one decoder. A packet is counted as taken by the codec when it is not kept to be offered again; a subtitle decoder is given its null packet each time.
- PlayerFrames.NoStaleFrameShown: is about the video frames of one queue; the clocks, which decide when a frame is due, late or too early, are left open. A redraw may show a frame that was dropped for its serial (`PlayerFrames.KeptIsLastPassed`).
- FrameRing.RingIsSafe: an aborted queue stays aborted while the two threads run.
- The mutex, the condition variable and the codec are kept only as "a locked section is atomic", "a wait ends when its condition holds" and "the codec may take or refuse a packet".
- Logging, statistics, allocation failure, and everything after a fatal exit.
- I frames, the inverse transform, colour conversion, audio and subtitle output, and option handling.
