# Verified models of the embedded algorithm modules

This project states in Dafny what the algorithms at the heart of four of the C modules compute, and
proves it for all inputs, all runs and all histories.

| C file | Dafny modules |
|---|---|
| mini-edge-ai/src/inference_opt.c | HuffmanOptimality, HuffmanTree, HuffmanMerging, HuffmanNodes, HuffmanSearch, HuffmanBuilder, HuffmanCodeTable, HuffmanLimits, HuffmanDeepest, HuffmanCodec, HuffmanExample, HuffmanStream; Gemm, Im2Col, Convolution, Pointwise |
| mini-edge-ai/src/edge_pipeline.c | Sha256, Sha256Stream, Sha256Constants, Sha256Computing, Sha256Abc, Sha256TwoBlocks; Heap, PriorityQueueModel |
| mini-edge-ai/src/edge_inference.c | Heap, TopKModel, TopScores; Welford, Permutations |
| mini-edge-ai/src/edge_tpu_npu.c | Layout |
| mini-edge-security/src/edge_ota.c | Ota, OtaRuns, OtaHistory; Delta, DeltaPatching, DeltaLimits |
| mini-edge-security/src/secure_storage.c | Crc32, CrcPolynomial, CrcKnownAnswers |
| mini-industrial-control/src/plc_ladder.c | PlcScan, PlcHistory |

Sums, Indexing, Bits and Wrappers hold shared arithmetic and types. Code that works in place is a
method over arrays or a class, and its postcondition equates the new state with a function of the
old one (or states the property outright); the lemmas are about those functions. Memory that a C
function only reads is passed as a sequence.

**Huffman coding.** The node array the builder ends with is a function of the weights, and so is
its tree. The codes are shown to be prefix-free and complete, and their total length minimal among all
prefix-free codes: a prefix-free code satisfies the Kraft inequality, and merging the two lightest
entries never raises the lower bound that any lengths satisfying it must meet. In terms of the
frequencies, total_bits plus the lengths of the symbols that never occur is minimal, which is what
counting a zero as one amounts to. The builder succeeds and
is optimal as long as all weights but any one add up to less than 2^32 - 1; beyond that, inputs are
given that make it fail (a weight of 2^32 - 1, a sum that wraps to 0) and one that makes it succeed with
a code that is not optimal. Among equally light nodes the scan takes the older one first. With that
order a tree of height d weighs at least Least(d), which is 2 Fib(d + 1) - 1 from d = 2 on and more than
Fib(d + 2) from d = 4 on; this bound is met, so a code longer than the 32-bit code field occurs at a
total weight of 11405773 and at no smaller one. The depth-first search never holds more entries than
there are symbols. The decoder stops once every bit has been *read* into its window, not once every bit
has been *consumed*, so the obvious round trip fails on the exact bits; the exact condition for it is
proved, the amount of lost tail is bounded, and the round trip is proved with enough padding.

**Matrix products and convolutions.** Addition and multiplication are arbitrary functions, so the
results cover floating point: every tiling adds the products of a cell in ascending k order, and the
gradient adds the unrolled values of a cell in the order of the loops. The
comment at mini-edge-ai/src/inference_opt.c:661 speaks of columns of patches; the code stores one
patch per row, and the model follows the code. The law of line 659 is proved in that form: at every
position of the kernel within the zero-padded image, the product of the unrolled matrix and the kernel
is the convolution. The adjoint law of im2col and col2im is over reals.

**Streams and heaps.** Incremental SHA-256 is compared with the one-shot definition of sections
5.1.1, 5.2.1, 6.2.1 and 6.2.2 of FIPS 180-4. That definition itself is tied to the standard by the
digests of "abc" and of the 56-byte example message, by the bits of its two choice functions, and by
its constants: those of sections 4.2.2 and 5.3.3 are proved to be the fractional bits of the cube and
square roots of the first primes. The priority queue and the top-k heap are compared
with multisets, Welford's recurrence with the two-pass definitions over exact reals.

**Over-the-air updates.** Each call is a function on the value of the context, and a run is a
sequence of calls in any order with any arguments, negative lengths included. What the caller saw
accepted is folded separately from the context, and a switch of firmware is justified against that
record. From the calls and their answers alone it is decided for every call whether it succeeds, and
whether the context has failed: an update is broken by a chunk that overflows the buffer and by
verifying an image of another size or hash, and then nothing succeeds until a rollback. Two results about the code as it is: a committed context refuses every further call, and a
rollback erases the bank's flash address, which nothing restores. The delta encoder is compared
with the maximal runs of change, and its output is read back by a reader for the format described
at mini-edge-security/src/edge_ota.c:207-209, which the repository itself does not contain. A run of
more than 65535 bytes overflows its length field; for images whose runs fit, reading back gives the
new image exactly when the buffer had room.

**CRC-32.** The table-driven form equals the bit-serial reflected CRC of section 8 of RFC 1952. As a
polynomial over the two-element field, the CRC is the remainder of the message modulo the generator,
with both inversions; its check value and its residue are proved, and any two equal-length messages whose differences lie within 32 consecutive bits have different CRCs.

**Layout conversion.** Offsets and index tuples correspond one to one for all positive dimensions.

**PLC timers.** Timers and coils are related to the whole history of input writes and scans, as
section 2.5.2.3.4 of IEC 61131-3:2003 describes on-delay and off-delay. The pulse timer differs from
that section: while its input is held it puts out one pulse after another, and an input that goes before
the pulse is over usually leaves the output on. What it does is proved exactly. The largest preset for
which this holds is 4294967290 ms: above it the sum of ten-millisecond periods wraps before it
reaches the preset.

## Model

| member | source | states |
|---|---|---|
| HuffmanBuilder.FindTwoSmallest | mini-edge-ai/src/inference_opt.c:448-459 | The scan returns a lightest and a second-lightest candidate, the older one first among equals, with -1 exactly where there is none. |
| HuffmanNodes.TwoSmallestUnique | mini-edge-ai/src/inference_opt.c:448-459 | Which two nodes that is has one answer only. |
| HuffmanNodes.SearchSucceeds | mini-edge-ai/src/inference_opt.c:447-460 | While all weights but any one add up to less than 2^32 - 1, the scan never fails and finds the two first live trees. |
| HuffmanBuilder.JoinNodes | mini-edge-ai/src/inference_opt.c:461-466 | The merge writes the joined node with the wrapped sum of both frequencies and retires both children. |
| HuffmanBuilder.MergeLightest | mini-edge-ai/src/inference_opt.c:446-467 | The merging loop fails exactly when one of the scans fails, and otherwise leaves the array that merging value by value gives. |
| HuffmanNodes.BuiltIsHuffman | mini-edge-ai/src/inference_opt.c:446-469 | While all weights but any one add up to less than 2^32 - 1, merging succeeds and its root is complete, built lightest first, and of least weighted length. |
| HuffmanNodes.BuiltIsComplete | mini-edge-ai/src/inference_opt.c:446-469 | Whatever the weights, a merging that succeeds ends in a tree that holds every symbol once. |
| HuffmanBuilder.SearchStep | mini-edge-ai/src/inference_opt.c:484-509 | One step of the stack search keeps every pending subtree with its path and decreases the work left, so the search for each symbol ends. |
| HuffmanBuilder.StackHeight | mini-edge-ai/src/inference_opt.c:478-484 | The stack never runs empty before the symbol is found and never holds more entries than symbols, so its 512 slots suffice. |
| HuffmanBuilder.FindCode | mini-edge-ai/src/inference_opt.c:474-509 | The search returns the depth of the symbol and its path as a 32-bit code. |
| HuffmanBuilder.AssignCode | mini-edge-ai/src/inference_opt.c:471-512 | One symbol's entry is replaced by its path and depth and its bits are added to the total. |
| HuffmanBuilder.AssignCodes | mini-edge-ai/src/inference_opt.c:469-513 | The code table lists path and depth of every symbol (8 for a lone symbol), and total_bits is the sum of length times frequency; other table entries stay. |
| HuffmanBuilder.BuildTree | mini-edge-ai/src/inference_opt.c:432-516 | The call succeeds exactly for 1 to 256 symbols whose merging succeeds, with the table of the merged tree and its total bits; failure changes nothing. While the frequencies, a zero counted as one, without any one of them add up to less than 2^32 - 1, it succeeds, and for two symbols or more total_bits plus the code lengths of the symbols that never occur is at most what any prefix-free code needs for the same occurrences. |
| HuffmanLimits.LargestFails | mini-edge-ai/src/inference_opt.c:449-460 | A frequency of 2^32 - 1 among two or more symbols makes the builder fail. |
| HuffmanLimits.TwoSymbolsIff | mini-edge-ai/src/inference_opt.c:446-467 | For two symbols the builder succeeds if and only if both frequencies are less than 2^32 - 1. |
| HuffmanLimits.WrapToZeroFails | mini-edge-ai/src/inference_opt.c:452-461 | Frequencies 2^31, 2^31, 2^31 make it fail, because the first sum wraps to 0. |
| HuffmanLimits.WrapLosesOptimality | mini-edge-ai/src/inference_opt.c:453-466 | Frequencies 2^31 to 2^31 + 3 give lengths 3, 3, 2, 1, which cost more than two bits each. |
| HuffmanOptimality.MergeStep | mini-edge-ai/src/inference_opt.c:448-466 | From any lengths that satisfy Kraft one gets lengths for the merged weights whose cost is lower by at least the merged weight. |
| HuffmanOptimality.LowerBoundMerge | mini-edge-ai/src/inference_opt.c:446-467 | Merging the two lightest keeps the accumulated weight plus the remaining problem a lower bound of every admissible cost. |
| HuffmanOptimality.LowerBoundFinal | mini-edge-ai/src/inference_opt.c:446-467 | When one tree is left the accumulated weight is at most the cost of any lengths that satisfy Kraft. |
| HuffmanMerging.MergingStep | mini-edge-ai/src/inference_opt.c:461-466 | One merge keeps the forest complete and its 32-bit frequencies equal to the tree weights modulo 2^32. |
| HuffmanMerging.MinimalStep | mini-edge-ai/src/inference_opt.c:447-466 | Merging the two first trees keeps the forest lightest-first and the lower bound tight. |
| HuffmanMerging.OrderedStep | mini-edge-ai/src/inference_opt.c:453-458 | The order among equally light trees is kept too: later inner nodes have children at least as heavy as earlier ones. |
| HuffmanMerging.RootIsComplete | mini-edge-ai/src/inference_opt.c:468-469 | After the last merge the root holds every symbol exactly once. |
| HuffmanMerging.RootIsOptimal | mini-edge-ai/src/inference_opt.c:446-469 | After the last merge no lengths that satisfy Kraft cost less than the root. |
| HuffmanTree.CodesPrefixFree | mini-edge-ai/src/inference_opt.c:487-508 | No path to a symbol is a prefix of the path to another symbol. |
| HuffmanTree.KraftEquality | mini-edge-ai/src/inference_opt.c:487-511 | The sum of 2^-length over the symbols of a tree is exactly one. |
| HuffmanTree.MergeCostIsWeightedLength | mini-edge-ai/src/inference_opt.c:461-512 | The weights added up by the merges equal the sum of weight times depth. |
| HuffmanTree.KraftInequality | mini-edge-ai/src/inference_opt.c:446-513 | The lengths of every prefix-free code satisfy Kraft, so the optimality result covers all such codes. |
| HuffmanTree.FibonacciBound | mini-edge-ai/src/inference_opt.c:447-467 | A lightest-first tree of height h weighs at least Fib(h + 2). |
| HuffmanTree.HeightBound | mini-edge-ai/src/inference_opt.c:447-467 | With ties resolved as the scan does, a tree of height h weighs at least Least(h). |
| HuffmanDeepest.DeepTree | mini-edge-ai/src/inference_opt.c:446-467 | For 35 given weights of total Least(33) = 11405773 the builder ends in a tree of height 33. |
| HuffmanDeepest.AlwaysFitsIff | mini-edge-ai/src/inference_opt.c:446-511 | All tables of the builder up to a total weight fit 32-bit codes if and only if that total is less than 11405773. |
| HuffmanSearch.Expand | mini-edge-ai/src/inference_opt.c:498-507 | Replacing a popped inner node by its two children keeps the pending subtrees and their paths complete. |
| HuffmanSearch.PopLeaf | mini-edge-ai/src/inference_opt.c:491-497 | Dropping a leaf of another symbol loses nothing of the search. |
| HuffmanSearch.StackBound | mini-edge-ai/src/inference_opt.c:478-484 | There are at most as many pending subtrees as leaves below them. |
| HuffmanCodeTable.TableIsOptimal | mini-edge-ai/src/inference_opt.c:446-513 | No prefix-free code for the same weights has a smaller weighted length than the table. |
| HuffmanCodeTable.TotalBitsIsMinimal | mini-edge-ai/src/inference_opt.c:470-512 | For all frequencies, zeros included, length times frequency plus the lengths at the zeros is the minimum over all prefix-free codes. |
| HuffmanCodeTable.DepthNeedsWeight | mini-edge-ai/src/inference_opt.c:447-511 | A code of length d forces a total weight of at least Fib(d + 2), and of at least Least(d). |
| HuffmanCodeTable.DepthFitsWord | mini-edge-ai/src/inference_opt.c:479-511 | Total weight up to 11405772 means every code fits 32 bits. |
| HuffmanCodeTable.TableIsDecodable | mini-edge-ai/src/inference_opt.c:487-511 | When the lengths fit, no stored code word is a prefix of another one, lone symbol included. |
| HuffmanCodeTable.TableIsComplete | mini-edge-ai/src/inference_opt.c:487-511 | The stored lengths of two or more symbols use up the code space exactly. |
| HuffmanCodec.EncodeOne | mini-edge-ai/src/inference_opt.c:523-526 | A symbol of the table contributes its code word, any other nothing. |
| HuffmanCodec.EncodeConcat | mini-edge-ai/src/inference_opt.c:518-536 | The encoding of a concatenation is the concatenation of the encodings. |
| HuffmanCodec.UnknownAreSkipped | mini-edge-ai/src/inference_opt.c:523-525 | Encoding gives the same bits as encoding only the symbols that have a code. |
| HuffmanCodec.DecodeReturnsPrefix | mini-edge-ai/src/inference_opt.c:538-579 | Given exactly the encoded bits the decoder returns a prefix of the symbols. |
| HuffmanCodec.LostTail | mini-edge-ai/src/inference_opt.c:550-579 | The code words not returned from some symbol on are shorter in total than the longest code. |
| HuffmanCodec.BoundedLoss | mini-edge-ai/src/inference_opt.c:538-579 | Decoding the exact bits returns a prefix of the symbols, and the rest has fewer bits than the longest code. |
| HuffmanCodec.DecodeExactIff | mini-edge-ai/src/inference_opt.c:550-579 | It returns everything if and only if there is at most one symbol or the last two code words together are longer than the longest code. |
| HuffmanCodec.DecodePadded | mini-edge-ai/src/inference_opt.c:538-579 | With at least longest-code-minus-one further bits of any value and max_symbols equal to the count, the symbols come back exactly. |
| HuffmanExample.ExampleIsBuilt | mini-edge-ai/src/inference_opt.c:446-511 | The builder makes the example's table of the frequencies 2, 1, 1. |
| HuffmanExample.RoundTripFails | mini-edge-ai/src/inference_opt.c:550-559 | A message in the example's table for which decoding the exact bits loses a symbol. |
| HuffmanExample.PaddingRepairs | mini-edge-ai/src/inference_opt.c:550-559 | One further bit of either value brings that symbol back. |
| HuffmanStream.Encode | mini-edge-ai/src/inference_opt.c:518-536 | The packed buffer has the code bits OR-ed in, most significant bit first, skips unknown symbols, and reports the byte count rounded up; a count of zero or less is rejected. |
| HuffmanStream.PutBit | mini-edge-ai/src/inference_opt.c:528-531 | One encoder step sets exactly the bit at the current position. |
| HuffmanStream.StreamIsNumber | mini-edge-ai/src/inference_opt.c:529-531 | Read as one number, the bits of a buffer are its bytes in order, each with its high bit first. |
| HuffmanStream.WrittenOnZeros | mini-edge-ai/src/inference_opt.c:518-536 | On a buffer that started zeroed the stored bits are the encoding followed by zeros. |
| HuffmanStream.FillWindow | mini-edge-ai/src/inference_opt.c:551-559 | The refill loop leaves the next bits, up to the longest code, in the 32-bit buffer. |
| HuffmanStream.DecodeOne | mini-edge-ai/src/inference_opt.c:551-577 | One turn of the loop finds the next symbol and drops its bits, or stops where the bit-string decoder stops. |
| HuffmanStream.FindMatch | mini-edge-ai/src/inference_opt.c:560-576 | The shift-and-mask comparison finds the first table entry whose word starts the buffer. |
| HuffmanStream.DecodeStream | mini-edge-ai/src/inference_opt.c:538-579 | The buffered decoder writes exactly what the bit-string decoder computes and leaves the rest of the output alone. |
| HuffmanStream.EncodeThenDecode | mini-edge-ai/src/inference_opt.c:518-579 | For a built table of total weight up to 11405772 and a zeroed buffer, decoding the written bytes with enough padding bits gives back the symbols. |
| Gemm.Micro6x16 | mini-edge-ai/src/inference_opt.c:299-320 | Each cell of the window becomes the fold of its products in k order from its old value; every other cell stays, and non-positive sizes are rejected. Rows must not overlap; with a single row any leading dimension of C will do. |
| Gemm.Blocked | mini-edge-ai/src/inference_opt.c:332-355 | The cache-blocked product computes the same fold for all sizes, all block sizes and all leading dimensions for which rows do not overlap. |
| Gemm.FoldSplit | mini-edge-ai/src/inference_opt.c:345-351 | Adding k and then n products is adding k + n products, without associativity. |
| Gemm.BlockStep | mini-edge-ai/src/inference_opt.c:345-351 | One micro-kernel call on a block carries its cells from k to k + kr products. |
| Gemm.FoldIsInnerProduct | mini-edge-ai/src/inference_opt.c:313-313 | Over integers the fold is the old value plus the sum of the products. |
| Convolution.OutputRows | mini-edge-ai/src/inference_opt.c:668-668 | Row oy is unrolled if and only if the kernel at oy * stride lies within the padded image; a kernel taller than it by less than a stride gives one row, a taller one none. |
| Convolution.OutputColumns | mini-edge-ai/src/inference_opt.c:669-669 | The same for columns. |
| Convolution.ConvolutionIsProduct | mini-edge-ai/src/inference_opt.c:655-691 | At every position of the kernel within the zero-padded image, for any number of output channels and any addition and multiplication, the matrix product of im2col's matrix and the kernel is the convolution summed in the order of rows, columns and channels. |
| Im2Col.PositionDigits | mini-edge-ai/src/inference_opt.c:673-684 | The nested-loop offset of an unrolled cell determines the input cell it reads, or the padding. |
| Im2Col.Im2Col | mini-edge-ai/src/inference_opt.c:663-691 | Unrolling gathers the input along the position map with zeros in the padding, and writes nothing else. |
| Im2Col.Col2ImGradient | mini-edge-ai/src/inference_opt.c:693-722 | For any addition, the gradient of a cell adds up, in loop order from zero, the unrolled values that read it, and nothing else is written. |
| Im2Col.GatherScatterAdjoint | mini-edge-ai/src/inference_opt.c:681-714 | Gathering and scattering along any position map are adjoint. |
| Im2Col.Im2ColAdjoint | mini-edge-ai/src/inference_opt.c:663-722 | For every image, kernel, stride and padding the inner product of im2col(x) with y is that of x with col2im_gradient(y). |
| Pointwise.Conv1x1 | mini-edge-ai/src/inference_opt.c:396-415 | Each output cell is the fold of its channel products starting at the bias, or at zero without one. |
| Pointwise.UnrollingIsCopying | mini-edge-ai/src/inference_opt.c:663-691 | im2col with a 1x1 kernel, stride 1 and no padding is the identity. |
| Pointwise.ConvolutionIsProduct | mini-edge-ai/src/inference_opt.c:299-415 | The pointwise convolution is im2col followed by the matrix product with the transposed kernel, from the bias. |
| Sha256Abc.AbcDigest | mini-edge-ai/src/edge_pipeline.c:365-450 | The digest of "abc" is the published one, byte for byte. |
| Sha256TwoBlocks.LongDigest | mini-edge-ai/src/edge_pipeline.c:365-450 | So is that of the published 56-byte message, whose padding takes a second block. |
| Sha256Constants.ChooseFirst | mini-edge-ai/src/edge_pipeline.c:391-391 | Where x has ones, the choice function has the bits of y. |
| Sha256Constants.ChooseSecond | mini-edge-ai/src/edge_pipeline.c:391-391 | Where x has zeros, those of z. |
| Sha256Constants.MajorityOnes | mini-edge-ai/src/edge_pipeline.c:394-394 | Where two words have ones, the majority function has ones. |
| Sha256Constants.MajorityZeros | mini-edge-ai/src/edge_pipeline.c:394-394 | Where two words have zeros, it has zeros. |
| Sha256Constants.FirstPrimes | mini-edge-ai/src/edge_pipeline.c:365-374 | The numbers the constants are derived from are the first 64 primes. |
| Sha256Constants.RoundConstants | mini-edge-ai/src/edge_pipeline.c:365-374 | Each round constant is the first 32 bits of the fractional part of the cube root of its prime. |
| Sha256Constants.InitialValue | mini-edge-ai/src/edge_pipeline.c:405-408 | Each initial word is the same of the square root. |
| Sha256Stream.ExpandBlock | mini-edge-ai/src/edge_pipeline.c:379-387 | The array filled by the two loops is the message schedule. |
| Sha256Stream.Transform | mini-edge-ai/src/edge_pipeline.c:378-401 | The state becomes the compression of the old state with the block. |
| Sha256Stream.SHA256Ctx.Init | mini-edge-ai/src/edge_pipeline.c:403-410 | The context stands for the empty message. |
| Sha256Stream.SHA256Ctx.Update | mini-edge-ai/src/edge_pipeline.c:412-422 | The message is extended by the data, unless the context is final already. |
| Sha256Stream.SHA256Ctx.PutPadding | mini-edge-ai/src/edge_pipeline.c:426-442 | Marker, zeros and length, in one block or two, give the hash of the padded message. |
| Sha256Stream.SHA256Ctx.Final | mini-edge-ai/src/edge_pipeline.c:424-450 | A valid final context holds the digest of the message; finalizing again changes nothing of it. |
| Sha256Stream.TwoPaddings | mini-edge-ai/src/edge_pipeline.c:426-442 | Both padding branches compress to the hash of the same padded message. |
| Sha256Stream.LengthBytesModulo | mini-edge-ai/src/edge_pipeline.c:433-441 | The eight length bytes of the wrapped bit count are those of the true one. |
| Sha256Stream.Verify | mini-edge-ai/src/edge_pipeline.c:452-461 | Verification holds exactly if the digest of the data is the expected one. |
| Sha256Stream.HashChunks | mini-edge-ai/src/edge_pipeline.c:403-450 | Hashing in any chunks gives the digest of their concatenation. |
| PriorityQueueModel.PriorityQueue.Push | mini-edge-ai/src/edge_pipeline.c:211-227 | A task is added to the multiset, numbered by its slot, and the heap kept; every other task keeps its number, and its slot unless it is less urgent than the new one; only a queue of 64 refuses, unchanged. |
| PriorityQueueModel.PriorityQueue.Pop | mini-edge-ai/src/edge_pipeline.c:229-251 | The root record, a task of least priority value, is removed and returned and the heap kept; only an empty queue refuses. |
| PriorityQueueModel.PriorityQueue.RemoveRoot | mini-edge-ai/src/edge_pipeline.c:232-249 | The remaining tasks are all but the root record, and form a heap. |
| PriorityQueueModel.PriorityQueue.MoveHole | mini-edge-ai/src/edge_pipeline.c:214-220 | The upward shift ends at a slot where the new task fits. |
| PriorityQueueModel.PriorityQueue.SiftDown | mini-edge-ai/src/edge_pipeline.c:235-248 | The downward exchange restores the heap from a loose root and keeps the tasks. |
| PriorityQueueModel.RunConserves | mini-edge-ai/src/edge_pipeline.c:211-251 | Over every run, what was there plus what was pushed is what is left plus what was popped. |
| PriorityQueueModel.DrainIsSorted | mini-edge-ai/src/edge_pipeline.c:229-251 | Consecutive pops come out in non-decreasing priority value. |
| Heap.SiftUpStep | mini-edge-ai/src/edge_inference.c:368-372 | Exchanging a too small key with its parent leaves only the parent's slot in question. |
| Heap.SiftDownStep | mini-edge-ai/src/edge_inference.c:350-360 | Exchanging a too large key with its smallest child leaves only the child's slot in question. |
| Heap.ChosenIsSmallest | mini-edge-ai/src/edge_pipeline.c:237-242 | The two comparisons select the smaller child, or the node itself if neither is smaller. |
| TopKModel.TopKHeap.Push | mini-edge-ai/src/edge_inference.c:362-378 | After every push the heap holds min(k, n) of the entries pushed so far, score with its own index, and none left out beats one kept; a score that is not above the least one kept changes nothing, and a higher one replaces an entry of least score. |
| TopKModel.TopKHeap.SiftDown | mini-edge-ai/src/edge_inference.c:350-360 | The recursive sift restores the heap and keeps the pairs. |
| TopKModel.TopKHeap.GetSorted | mini-edge-ai/src/edge_inference.c:380-396 | The kept pairs come out in descending score order, and the heap is unchanged. |
| TopKModel.ReplaceLeast | mini-edge-ai/src/edge_inference.c:373-376 | Replacing the root by a higher score keeps the top k. |
| TopKModel.DropNew | mini-edge-ai/src/edge_inference.c:373-373 | Ignoring a score that does not beat the root keeps the top k. |
| TopScores.KeptScoresAreLargest | mini-edge-ai/src/edge_inference.c:362-378 | For every threshold the heap holds as many scores above it as the stream does, capped at k. |
| TopScores.CountsDetermineScores | mini-edge-ai/src/edge_inference.c:362-378 | These counts determine the scores with their multiplicity. |
| TopScores.KeptScoresAreUnique | mini-edge-ai/src/edge_inference.c:362-378 | So whatever the ties, the scores kept of a stream are determined. |
| Welford.OnlineStats.Push | mini-edge-ai/src/edge_inference.c:313-322 | Count, mean, squared deviations and extremes are those of the whole stream with the new value. |
| Welford.PushKeepsMoments | mini-edge-ai/src/edge_inference.c:315-319 | One update turns the mean and the squared deviations from it into those of the longer stream. |
| Welford.DeviationsElsewhere | mini-edge-ai/src/edge_inference.c:316-319 | How squared deviations change when their reference point moves. |
| Welford.OnlineStats.GetVariance | mini-edge-ai/src/edge_inference.c:328-331 | The reported variance is the two-pass sample variance of the stream. |
| Welford.MeanTimesCount | mini-edge-ai/src/edge_inference.c:317-317 | Count times mean is the sum of the samples. |
| Welford.VarianceIgnoresOrder | mini-edge-ai/src/edge_inference.c:313-331 | Streams with the same samples in any order report the same mean and variance. |
| Welford.VarianceOfPairs | mini-edge-ai/src/edge_inference.c:328-331 | 2 n (n - 1) times the variance is the sum of the squared differences over all pairs of samples. |
| Welford.ExtremesAreSamples | mini-edge-ai/src/edge_inference.c:309-321 | The extremes bound all samples and are samples, unless every sample lies beyond 10^30. |
| Layout.SourcesInvert | mini-edge-ai/src/edge_tpu_npu.c:316-333 | The two index maps are inverse bijections of the positions. |
| Layout.NhwcToNchw | mini-edge-ai/src/edge_tpu_npu.c:313-323 | Every destination element is its source element, nothing behind the tensor changes, and non-positive dimensions are rejected. |
| Layout.NchwToNhwc | mini-edge-ai/src/edge_tpu_npu.c:325-335 | The same for the other direction. |
| Layout.LayoutRoundTrip | mini-edge-ai/src/edge_tpu_npu.c:313-335 | Each conversion undoes the other. |
| Layout.SameElement | mini-edge-ai/src/edge_tpu_npu.c:320-333 | Both layouts hold the same element for the same indices. |
| Ota.OtaUpdateCtx.constructor | mini-edge-security/src/edge_ota.c:7-25 | The initial context, with as much of the identifier as fits. |
| Ota.OtaUpdateCtx.VerifyManifest | mini-edge-security/src/edge_ota.c:54-63 | The manifest checks, all of them and no others. |
| Ota.OtaUpdateCtx.BeginUpdate | mini-edge-security/src/edge_ota.c:66-77 | The call changes the context in place as the step function says. |
| Ota.OtaUpdateCtx.ReceiveChunk | mini-edge-security/src/edge_ota.c:80-92 | The same, with the unsigned sum of any signed length and no write outside the buffer; an overflow fails the update. |
| Ota.OtaUpdateCtx.VerifyUpdate | mini-edge-security/src/edge_ota.c:95-119 | The same, both hash loops computing the polynomial hash modulo 2^32. |
| Ota.OtaUpdateCtx.CommitUpdate | mini-edge-security/src/edge_ota.c:122-132 | The same for the switch of banks. |
| Ota.OtaUpdateCtx.RollbackUpdate | mini-edge-security/src/edge_ota.c:135-144 | The same for the rollback. |
| OtaRuns.RunIsSafe | mini-edge-security/src/edge_ota.c:66-144 | In every run exactly one bank is active, it is the one indexed, valid and of the current version, and a pending update has a verified manifest. |
| OtaRuns.JournalMatches | mini-edge-security/src/edge_ota.c:66-92 | The buffer holds exactly the bytes accepted since the last accepted manifest. |
| OtaRuns.SwitchIsJustified | mini-edge-security/src/edge_ota.c:54-144 | The firmware in force changes only at a successful commit, to a higher version, after accepted chunks of exactly the announced size and hash. |
| OtaRuns.AtMostOneCommit | mini-edge-security/src/edge_ota.c:66-144 | After a successful commit every call fails, so a run has at most one. |
| OtaRuns.RollbackForgets | mini-edge-security/src/edge_ota.c:135-144 | A run ending in a rollback leaves version and active bank as before and the other bank erased, and every continuation behaves as if the update had not been tried. |
| OtaRuns.UpdateSucceedsIff | mini-edge-security/src/edge_ota.c:54-132 | A whole update goes through if and only if the manifest is acceptable, each chunk has 1 to 256 bytes and their concatenation has the announced size and hash; it then runs from the other bank. |
| OtaRuns.Download | mini-edge-security/src/edge_ota.c:80-92 | When a sequence of chunks is accepted in full, and what the context then holds. |
| OtaHistory.PhaseIsHistory | mini-edge-security/src/edge_ota.c:66-144 | In every run the state of the context follows from which update is under way, what was received for it, and whether it was broken, verified or committed since it began. |
| OtaHistory.FailedIff | mini-edge-security/src/edge_ota.c:80-110 | The context has failed if and only if, since the last accepted manifest and with no rollback since, a chunk took the incomplete image past 65536 bytes in 32-bit arithmetic, or a complete image of another size or hash was verified. |
| OtaHistory.CallSucceedsIff | mini-edge-security/src/edge_ota.c:54-144 | After any run, when each of the five calls succeeds, from the earlier calls and their answers alone. |
| OtaHistory.BrokenUntilRollback | mini-edge-security/src/edge_ota.c:66-144 | Once an update is broken nothing changes and no call succeeds until a rollback is called. |
| OtaHistory.OverflowEndsUpdate | mini-edge-security/src/edge_ota.c:82-85 | A chunk of 1 to 256 bytes that would take a download past 65536 bytes is refused, and so is every call after it until a rollback. |
| OtaHistory.VerifiedWhileUnderway | mini-edge-security/src/edge_ota.c:66-144 | In every run the manifest counts as verified exactly while an update is under way, bytes are held only then, and the retry counters never change. |
| OtaHistory.FactoryImage | mini-edge-security/src/edge_ota.c:7-144 | Until a commit succeeds the device runs version 1 from the first bank, which stays as initialised. |
| OtaHistory.BufferIsImage | mini-edge-security/src/edge_ota.c:66-92 | While an update is under way the receive buffer is the accepted bytes followed by zeros. |
| OtaRuns.HashIsPolynomial | mini-edge-security/src/edge_ota.c:101-107 | The hash is the sum of the bytes, each times 31 to the number of bytes after it, modulo 2^32. |
| OtaRuns.OneByteDamageDetected | mini-edge-security/src/edge_ota.c:101-107 | Images of one length that differ in one byte never have the same hash. |
| OtaRuns.AdjacentBytesCollideIff | mini-edge-security/src/edge_ota.c:101-107 | Images of one length that differ in two adjacent bytes at most have the same hash if and only if 31 times the first byte plus the second agree. |
| OtaRuns.TwoBytesCanCollide | mini-edge-security/src/edge_ota.c:101-107 | An instance of that. |
| OtaRuns.DamagedUpdateFails | mini-edge-security/src/edge_ota.c:80-132 | An image with one wrong byte is never committed. |
| OtaRuns.AddressKeptIff | mini-edge-security/src/edge_ota.c:135-144 | The second bank keeps its flash address if and only if no rollback was called outside the idle and the committed state. |
| Delta.ComputeDelta | mini-edge-security/src/edge_ota.c:210-246 | The output is the records of the maximal runs as far as the buffer rules let them through; the rest of the buffer is untouched. |
| Delta.RunsCoverDifferences | mini-edge-security/src/edge_ota.c:215-234 | The runs are separated by gaps and cover exactly the positions that differ. |
| Delta.EmittedIsPrefix | mini-edge-security/src/edge_ota.c:215-245 | However small the buffer, the output is a prefix of the whole delta within it. |
| Delta.EmittedWholeIff | mini-edge-security/src/edge_ota.c:215-245 | It is whole exactly if the last record starts with more than ten bytes left and ends inside the buffer. |
| Delta.SingleByteDelta | mini-edge-security/src/edge_ota.c:215-245 | For images that differ in one byte the delta is its offset, lowest byte first, the length 1 and the new byte. |
| DeltaPatching.ParseIff | mini-edge-security/src/edge_ota.c:207-209 | The delta reads back as its records if and only if every run fits the two-byte length. |
| DeltaPatching.PatchesUpdate | mini-edge-security/src/edge_ota.c:215-244 | Applying the records below a position brings the image up to date below it. |
| DeltaPatching.RoomSuffices | mini-edge-security/src/edge_ota.c:215-245 | A buffer of n + 12 + 5 ((n + 1) / 2) bytes takes the whole delta. |
| DeltaPatching.ReconstructsIff | mini-edge-security/src/edge_ota.c:207-246 | For images of any length whose runs have at most 65535 bytes, patching the old image with the output gives the new one, both padded with zeros, if and only if the buffer has room for the last record. |
| DeltaPatching.DeltaReconstructs | mini-edge-security/src/edge_ota.c:207-246 | For images up to 65535 bytes and the worst-case buffer there is nothing left to check. |
| DeltaLimits.LongRunsIff | mini-edge-security/src/edge_ota.c:227-230 | When only the last two runs may be longer than 65535 bytes, reading the whole delta back gives the new image if and only if none is. |
| DeltaLimits.LongRunBreaks | mini-edge-security/src/edge_ota.c:227-230 | More generally a run too long prevents it when the records left to read carry fewer bytes than have to change. |
| DeltaLimits.LongRunFails | mini-edge-security/src/edge_ota.c:227-230 | Replacing 65536 zeros by ones is such an input, with any buffer large enough. |
| Crc32.Crc32Table.InitTable | mini-edge-security/src/secure_storage.c:9-17 | Each entry is its index after eight bit steps. |
| Crc32.Crc32Table.Update | mini-edge-security/src/secure_storage.c:23-23 | One table lookup feeds the eight bits of the byte, low bit first. |
| Crc32.Crc32Table.Crc | mini-edge-security/src/secure_storage.c:19-25 | The result is the bit-serial CRC of the first len bytes, and of nothing for a negative len. |
| Crc32.EightSteps | mini-edge-security/src/secure_storage.c:12-23 | Eight bit steps act on the low byte and shift the rest. |
| Crc32.ByteIsFed | mini-edge-security/src/secure_storage.c:22-23 | The table form and the bit-serial form agree on a byte. |
| CrcPolynomial.StepIsReduction | mini-edge-security/src/secure_storage.c:13-13 | A bit step multiplies the register's polynomial by x and subtracts x^32 + x^26 + x^23 + x^22 + x^16 + x^12 + x^11 + x^10 + x^8 + x^7 + x^5 + x^4 + x^2 + x + 1 if that gives a coefficient of x^32. |
| CrcPolynomial.FeedIsRemainder | mini-edge-security/src/secure_storage.c:19-25 | After n bits the register is the remainder of register * x^n + message * x^32 modulo this generator. |
| CrcPolynomial.CrcIsRemainder | mini-edge-security/src/secure_storage.c:19-25 | The CRC is that remainder, started from 32 ones and with 32 ones added at the end. |
| CrcKnownAnswers.CheckValue | mini-edge-security/src/secure_storage.c:9-25 | The CRC of the digits 1 to 9 is 0xCBF43926. |
| CrcKnownAnswers.Residue | mini-edge-security/src/secure_storage.c:19-25 | Every message followed by its own CRC, low byte first, has the CRC 0x2144DF1C. |
| Crc32.StepInjective | mini-edge-security/src/secure_storage.c:13-13 | A bit step never maps two registers to one. |
| Crc32.BitBurstDetected | mini-edge-security/src/secure_storage.c:19-25 | Equal-length messages that differ only inside 32 consecutive bits have different CRCs. |
| Crc32.ByteBurstDetected | mini-edge-security/src/secure_storage.c:19-25 | The same for four consecutive bytes. |
| PlcScan.UpdateTimer | mini-industrial-control/src/plc_ladder.c:179-237 | One scan of a timer of any kind, with 32-bit wrap-around. |
| PlcScan.PlcProgram.Write | mini-industrial-control/src/plc_ladder.c:130-140 | Every contact with the address takes the value, nothing else changes. |
| PlcScan.PlcProgram.EvaluateRung | mini-industrial-control/src/plc_ladder.c:300-320 | Power is the conjunction of the contacts and reaches every timer of the rung; other rungs stay. |
| PlcScan.PlcProgram.UpdateOutputs | mini-industrial-control/src/plc_ladder.c:322-345 | Every coil follows the power flow of its rung according to its kind. |
| PlcScan.PlcProgram.ScanCycle | mini-industrial-control/src/plc_ladder.c:347-363 | A scan evaluates all rungs, then drives all coils; in a fault it does nothing. |
| PlcHistory.RunFollowsInputs | mini-industrial-control/src/plc_ladder.c:130-363 | After any run of writes and scans each rung's contacts, timers and coils are determined by the history of writes alone, and so is its power; the scan counter counts scans modulo 2^16. |
| PlcHistory.FaultFreezes | mini-industrial-control/src/plc_ladder.c:347-350 | In a fault scans leave counter, phase, power, timers and coils as they were, while writes still reach the contacts. |
| PlcHistory.OnDelayHistory | mini-industrial-control/src/plc_ladder.c:184-200 | An on-delay timer is done if and only if the power has been on for m >= 1 scans with 10 m >= preset. |
| PlcHistory.OffDelayHistory | mini-industrial-control/src/plc_ladder.c:201-217 | An off-delay timer is done if and only if there was power and it has been gone for m scans with m = 0 or 10 m < preset. |
| PlcHistory.OffDelayIsDual | mini-industrial-control/src/plc_ladder.c:184-217 | After the first power, off-delay on a history is the negation of on-delay on its complement. |
| PlcHistory.OnDelayCorrectIff | mini-industrial-control/src/plc_ladder.c:184-200 | The on-delay law holds on every history if and only if the preset is at most 4294967290. |
| PlcHistory.TimeShownIff | mini-industrial-control/src/plc_ladder.c:184-200 | The time an on-delay timer shows is the powered time, up to the preset, on every history if and only if the preset is at most 4294967285; above that a done timer wraps and starts over. |
| PlcHistory.OffDelayCorrectIff | mini-industrial-control/src/plc_ladder.c:201-217 | The same for the off-delay law. |
| PlcHistory.PulseHistory | mini-industrial-control/src/plc_ladder.c:218-234 | A pulse timer of n scans is done if and only if the latest run of powered scans, modulo n, leaves a rest, which must not be n - 1 once the input has gone. |
| PlcHistory.PulseCorrectIff | mini-industrial-control/src/plc_ladder.c:218-234 | This law holds on every history if and only if the preset is at most 4294967290. |
| PlcHistory.TimersThroughScans | mini-industrial-control/src/plc_ladder.c:179-363 | All three laws hold for every timer of every rung through whole scan cycles. |
| PlcHistory.CoilHistory | mini-industrial-control/src/plc_ladder.c:322-345 | Plain coils show the last power, latches whether there ever was power. |

## Left out

- HuffmanBuilder.BuildTree: for three or more symbols whose weights add up to 2^32 - 1 or more without the lightest one, it is not characterised which inputs make a scan fail and which keep the optimum; examples of failure and of a lost optimum are given.
- HuffmanStream.Encode: the caller's buffer must have room for the bits and the code lengths must be at most 32, as the C shifts require; total_bits and the bit positions are unbounded here, where C uses size_t.
- OtaRuns.OneByteDamageDetected: nothing is claimed about the hash against deliberate changes.
- DeltaLimits.LongRunsIff: with several runs after one of more than 65535 bytes, it is undecided whether misread records could ever restore the image, except where LongRunBreaks excludes it.
- Gemm.Blocked: windows of several rows that overlap (a leading dimension of C less than the width) are excluded, as a cell then belongs to two rows.
- Overflow of int in products of dimensions and in loop counters (matrix and tensor code), and of the sample count in the statistics.
- Pointers that alias (an output that overlaps an input), null-pointer and allocation failures, file and console output.
- Floating-point rounding and NaN: scores are real numbers, statistics and the adjoint law are exact; the standard deviation (a square root) is not modelled.
- The remaining manifest fields (hardware id, signature, timestamp, metadata) are copied by the C code and never read by these calls, and edge_ota_manifest_sign with the other helpers of that file is not modelled.
- edge_ota_repair_corrupted_bank: it may overwrite the active bank's version without the current version, so it is no step of the machine.
- Building a ladder program (adding and removing rungs, contacts, coils, timers), forcing outputs, and names; an engine starts from any given rungs.
- PLC rungs are values inside the program object; the model does not capture pointers into them.
- PLC counters are left out, since the scan never sets their inputs.
- Winograd, depthwise convolution, sparse formats, quantization and the thread pool of the inference code; the output transform of Winograd does nothing, so it has no meaning to preserve.
- edge_sha256, GHASH and the signature stand-ins of edge_crypto.c, the Modbus CRC and the rest of secure_storage.c: they do not follow the standards they name, or are easy.
- Federated averaging, sensor fusion, energy models, ring buffers, allocators, RTOS, robotics and device-tree code.
